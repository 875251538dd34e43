/** Request and reply frames over the pipes of a supervised child
    (src/usagebassoon/deadlines.py, `SupervisedResource`, `_resource_worker`).

    Any number of threads call one resource.  Frames carry no request number on
    the wire; the numbers here only let the theorem say whose reply a reply is. */
module SupervisedResource {
  import opened Wrappers

  /** Value and Raised are ordinary outcomes, Expired a cancelled operation whose
      reply still arrived, Invalid a resource that is no longer usable or an outcome
      that could not be delivered.  With any of them the child may stop: it does when
      the resource is closed or unavailable, not when an outcome could not be sent. */
  datatype Verdict = Value | Raised | Expired | Invalid

  datatype Frame = Frame(request: nat, verdict: Verdict)

  /** The thread that performs the blocking pipe I/O of one exchange. */
  datatype Io = Sending | Receiving | Got(frame: Frame) | Broken

  /** Who holds the connection lock. */
  datatype Holder = Nobody | Entered(request: nat) | Awaiting(request: nat)

  datatype Outcome =
    | Returned(frame: Frame)      // the reply's value, its error, or a deadline error
    | Refused                     // the resource was closed
    | Uncertain                   // the resource was terminated

  datatype State = State(
    closed: bool,
    holder: Holder,
    io: map<nat, Io>,
    requests: seq<nat>,
    busy: Option<nat>,
    alive: bool,
    replies: seq<Frame>,
    issued: nat,
    outcomes: map<nat, Outcome>)

  predicate Initial(s: State) {
    s == State(false, Nobody, map[], [], None, true, [], 0, map[])
  }

  datatype Step =
    | Enter                          // lock acquired for the next request
    | RefuseClosed
    | FailToStart                    // the I/O thread could not be started
    | Start
    | Send(r: nat)
    | SendBreaks(r: nat)             // unpicklable argument or broken pipe
    | Receive(r: nat)
    | ReceiveBreaks(r: nat)          // end of file or a truncated frame
    | ChildTakes
    | ChildReplies(verdict: Verdict, stops: bool) // the child goes on reading unless it stops
    | ChildDies
    | Deliver                        // the owner saw the exchange completed
    | Abandon                        // timeout, interrupt, or a broken exchange
    | CloseOutside                   // close() terminates after its own exchange

  predicate IoIs(s: State, r: nat, io: Io) {
    r in s.io && s.io[r] == io
  }

  predicate Enabled(s: State, e: Step) {
    match e
    case Enter => s.holder.Nobody?
    case RefuseClosed => s.holder.Entered? && s.closed
    case FailToStart => s.holder.Entered? && !s.closed
    case Start => s.holder.Entered? && !s.closed
    case Send(r) => IoIs(s, r, Sending)
    case SendBreaks(r) => IoIs(s, r, Sending)
    case Receive(r) => IoIs(s, r, Receiving) && s.replies != []
    case ReceiveBreaks(r) => IoIs(s, r, Receiving)
    case ChildTakes => s.alive && s.busy.None? && s.requests != []
    case ChildReplies(_, _) => s.alive && s.busy.Some?
    case ChildDies => true
    case Deliver => s.holder.Awaiting? && s.holder.request in s.io && s.io[s.holder.request].Got?
    case Abandon => s.holder.Awaiting?
    case CloseOutside => true
  }

  function Next(s: State, e: Step): State
    requires Enabled(s, e)
  {
    match e
    case Enter => s.(holder := Entered(s.issued), issued := s.issued + 1)
    case RefuseClosed => s.(holder := Nobody, outcomes := s.outcomes[s.holder.request := Refused])
    case FailToStart => s.(holder := Nobody)
    case Start => s.(holder := Awaiting(s.holder.request), io := s.io[s.holder.request := Sending])
    case Send(r) => s.(io := s.io[r := Receiving], requests := s.requests + [r])
    case SendBreaks(r) => s.(io := s.io[r := Broken], requests := s.requests + [r])
    case Receive(r) => s.(io := s.io[r := Got(s.replies[0])], replies := s.replies[1..])
    case ReceiveBreaks(r) => s.(io := s.io[r := Broken])
    case ChildTakes => s.(busy := Some(s.requests[0]), requests := s.requests[1..])
    case ChildReplies(verdict, stops) =>
      s.(busy := None, replies := s.replies + [Frame(s.busy.value, verdict)], alive := !stops)
    case ChildDies => s.(alive := false)
    case Deliver =>
      var r, frame := s.holder.request, s.io[s.holder.request].frame;
      if frame.verdict.Invalid? then
        s.(closed := true, holder := Nobody, outcomes := s.outcomes[r := Uncertain])
      else
        s.(holder := Nobody, outcomes := s.outcomes[r := Returned(frame)])
    case Abandon =>
      s.(closed := true, holder := Nobody, outcomes := s.outcomes[s.holder.request := Uncertain])
    case CloseOutside => s.(closed := true)
  }

  // ----- invariant -----

  function InFlight(s: State): nat {
    |s.requests| + |s.replies| + if s.busy.Some? then 1 else 0
  }

  /** Every frame under way belongs to request `r`. */
  ghost predicate OnlyFor(s: State, r: nat) {
    && (forall q | q in s.requests :: q == r)
    && (s.busy.Some? ==> s.busy.value == r)
    && (forall f | f in s.replies :: f.request == r)
  }

  /** While one exchange holds the lock, the pipes carry at most one frame, and it
      is that exchange's; between exchanges of an open resource they are empty. */
  ghost predicate Aligned(s: State) {
    match s.holder
    case Nobody => !s.closed ==> InFlight(s) == 0 && forall r | r in s.io :: s.io[r].Got? || s.io[r].Broken?
    case Entered(r) =>
      && r < s.issued && r !in s.io
      && (!s.closed ==> InFlight(s) == 0 && forall q | q in s.io :: s.io[q].Got? || s.io[q].Broken?)
    case Awaiting(r) =>
      && r < s.issued && r in s.io && OnlyFor(s, r)
      && (forall q | q in s.io && q != r :: s.io[q].Got? || s.io[q].Broken?)
      && (match s.io[r]
          case Sending => InFlight(s) == 0
          case Receiving => InFlight(s) <= 1
          case Got(frame) => InFlight(s) == 0 && frame.request == r
          case Broken => true)
  }

  ghost predicate Inv(s: State) {
    && Aligned(s)
    && (forall r | r in s.io :: r < s.issued)
    && (forall r | r in s.outcomes :: r < s.issued)
    && (forall r | r in s.outcomes && s.outcomes[r].Returned? ::
          s.outcomes[r].frame.request == r && !s.outcomes[r].frame.verdict.Invalid?)
    && (s.holder.Entered? || s.holder.Awaiting? ==> s.holder.request !in s.outcomes)
  }

  predicate OwnerStep(e: Step) {
    e.Enter? || e.RefuseClosed? || e.FailToStart? || e.Start? || e.Deliver? || e.Abandon? || e.CloseOutside?
  }

  predicate ChildStep(e: Step) {
    e.ChildTakes? || e.ChildReplies? || e.ChildDies?
  }

  lemma OwnerStepKeepsInv(s: State, e: Step)
    requires Inv(s) && Enabled(s, e) && OwnerStep(e)
    ensures Inv(Next(s, e))
  {
    match e
    case Start => assert s.requests == [] && s.replies == [];
    case _ =>
  }

  lemma ChildStepKeepsInv(s: State, e: Step)
    requires Inv(s) && Enabled(s, e) && ChildStep(e)
    ensures Inv(Next(s, e))
  {
    match e
    case ChildTakes => assert s.requests[0] in s.requests && forall q | q in s.requests[1..] :: q in s.requests;
    case ChildReplies(_, _) =>
    case ChildDies =>
  }

  lemma IoStepKeepsInv(s: State, e: Step)
    requires Inv(s) && Enabled(s, e) && !OwnerStep(e) && !ChildStep(e)
    ensures Inv(Next(s, e))
  {
    match e
    case Send(_) =>
    case SendBreaks(_) =>
    case Receive(_) => assert s.replies[0] in s.replies && forall f | f in s.replies[1..] :: f in s.replies;
    case ReceiveBreaks(_) =>
  }

  lemma StepKeepsInv(s: State, e: Step)
    requires Inv(s) && Enabled(s, e)
    ensures Inv(Next(s, e))
  {
    if OwnerStep(e) {
      OwnerStepKeepsInv(s, e);
    } else if ChildStep(e) {
      ChildStepKeepsInv(s, e);
    } else {
      IoStepKeepsInv(s, e);
    }
  }

  // ----- runs -----

  ghost predicate Run(states: seq<State>, steps: seq<Step>) {
    && |states| == |steps| + 1
    && Initial(states[0])
    && forall i | 0 <= i < |steps| :: Enabled(states[i], steps[i]) && states[i + 1] == Next(states[i], steps[i])
  }

  lemma {:induction false} RunKeepsInv(states: seq<State>, steps: seq<Step>, i: nat)
    requires Run(states, steps) && i < |states|
    ensures Inv(states[i])
  {
    if i > 0 {
      RunKeepsInv(states, steps, i - 1);
      StepKeepsInv(states[i - 1], steps[i - 1]);
    }
  }

  // ----- whose reply a call returns -----

  /** The frame is in the pipe, read by an I/O thread, or returned to a call. */
  ghost predicate Holds(s: State, f: Frame) {
    || f in s.replies
    || (exists r :: r in s.io && s.io[r] == Got(f))
    || (exists r :: r in s.outcomes && s.outcomes[r] == Returned(f))
  }

  /** Step `e` is the child's reply to request `r`, with this verdict. */
  predicate Answers(s: State, e: Step, r: nat, verdict: Verdict) {
    e.ChildReplies? && e.verdict == verdict && s.busy == Some(r)
  }

  /** Frames come from the child and from nowhere else. */
  lemma FramesComeFromChild(s: State, e: Step, f: Frame)
    requires Enabled(s, e) && Holds(Next(s, e), f)
    ensures Holds(s, f) || Answers(s, e, f.request, f.verdict)
  {
    var t := Next(s, e);
    if f in t.replies {
      FrameInPipeComesFromChild(s, e, f);
    } else if r :| r in t.io && t.io[r] == Got(f) {
      FrameReadComesFromPipe(s, e, f, r);
    } else {
      var r :| r in t.outcomes && t.outcomes[r] == Returned(f);
      FrameReturnedWasRead(s, e, f, r);
    }
  }

  lemma FrameInPipeComesFromChild(s: State, e: Step, f: Frame)
    requires Enabled(s, e) && f in Next(s, e).replies
    ensures f in s.replies || Answers(s, e, f.request, f.verdict)
  {
  }

  lemma FrameReadComesFromPipe(s: State, e: Step, f: Frame, r: nat)
    requires Enabled(s, e)
    requires var t := Next(s, e); r in t.io && t.io[r] == Got(f)
    ensures f in s.replies || (r in s.io && s.io[r] == Got(f))
  {
  }

  lemma FrameReturnedWasRead(s: State, e: Step, f: Frame, r: nat)
    requires Enabled(s, e)
    requires var t := Next(s, e); r in t.outcomes && t.outcomes[r] == Returned(f)
    ensures (r in s.io && s.io[r] == Got(f)) || (r in s.outcomes && s.outcomes[r] == Returned(f))
  {
  }

  /** Whatever frame there is, the child sent it while serving that request. */
  lemma {:induction false} FramesWereSent(states: seq<State>, steps: seq<Step>, i: nat, f: Frame) returns (j: nat)
    requires Run(states, steps) && i < |states|
    requires Holds(states[i], f)
    ensures j < i && Answers(states[j], steps[j], f.request, f.verdict)
  {
    if i > 0 {
      FramesComeFromChild(states[i - 1], steps[i - 1], f);
      if Holds(states[i - 1], f) {
        j := FramesWereSent(states, steps, i - 1, f);
      } else {
        j := i - 1;
      }
    }
  }

  /** In every run, whatever a call returned is the child's reply to that very call:
      the child sent it, with that verdict, while serving the call. */
  lemma RepliesAreAligned(states: seq<State>, steps: seq<Step>, i: nat, r: nat)
    requires Run(states, steps) && i < |states|
    requires r in states[i].outcomes && states[i].outcomes[r].Returned?
    ensures states[i].outcomes[r].frame.request == r
    ensures var verdict := states[i].outcomes[r].frame.verdict;
            && !verdict.Invalid?
            && exists j :: 0 <= j < i && Answers(states[j], steps[j], r, verdict)
  {
    RunKeepsInv(states, steps, i);
    var j := FramesWereSent(states, steps, i, states[i].outcomes[r].frame);
  }

  /** Conversely, a call whose reply has been read ends with just that reply: with the
      verdict the child sent for it, or uncertainly if that verdict is Invalid. */
  lemma ReadRepliesAreDelivered(states: seq<State>, steps: seq<Step>, i: nat, r: nat) returns (j: nat)
    requires Run(states, steps) && i < |states|
    requires states[i].holder == Awaiting(r) && r in states[i].io && states[i].io[r].Got?
    ensures j < i && steps[j].ChildReplies? && states[j].busy == Some(r)
    ensures Enabled(states[i], Deliver)
    ensures var verdict, t := steps[j].verdict, Next(states[i], Deliver);
            && t.holder == Nobody && r in t.outcomes
            && (verdict == Invalid ==> t.outcomes[r] == Uncertain && t.closed)
            && (verdict != Invalid ==> t.outcomes[r] == Returned(Frame(r, verdict)) && t.closed == states[i].closed)
  {
    RunKeepsInv(states, steps, i);
    j := FramesWereSent(states, steps, i, states[i].io[r].frame);
  }

  /** What a call ended with never changes. */
  lemma {:induction false} OutcomesAreFinal(states: seq<State>, steps: seq<Step>, i: nat, j: nat, r: nat)
    requires Run(states, steps) && i <= j < |states|
    requires r in states[i].outcomes
    ensures r in states[j].outcomes && states[j].outcomes[r] == states[i].outcomes[r]
    decreases j
  {
    if i < j {
      OutcomesAreFinal(states, steps, i, j - 1, r);
      RunKeepsInv(states, steps, j - 1);
      StepKeepsOutcome(states[j - 1], steps[j - 1], r);
    }
  }

  lemma StepKeepsOutcome(s: State, e: Step, r: nat)
    requires Inv(s) && Enabled(s, e) && r in s.outcomes
    ensures r in Next(s, e).outcomes && Next(s, e).outcomes[r] == s.outcomes[r]
  {
  }

  /** The lock holder is refused by a closed resource and only by one. */
  lemma RefusedExactlyWhenClosed(s: State)
    requires s.holder.Entered?
    ensures Enabled(s, RefuseClosed) <==> s.closed
    ensures Enabled(s, Start) <==> !s.closed
    ensures s.closed ==> var t := Next(s, RefuseClosed);
              t.holder == Nobody && t.outcomes == s.outcomes[s.holder.request := Refused]
  {
  }

  /** However a call ends, it lets go of the lock, and some end is always open to it. */
  lemma LockIsLetGo(s: State)
    requires !s.holder.Nobody?
    ensures forall e | e in {RefuseClosed, FailToStart, Deliver, Abandon} && Enabled(s, e) :: Next(s, e).holder == Nobody
    ensures Enabled(s, RefuseClosed) || Enabled(s, FailToStart) || Enabled(s, Abandon)
  {
  }

  /** The child may die and the resource be closed at any time; terminating it, in an
      exchange or outside one, closes it, and an exchange so ended is uncertain. */
  lemma TerminatingCloses(s: State)
    ensures Enabled(s, ChildDies) && !Next(s, ChildDies).alive
    ensures Enabled(s, CloseOutside) && Next(s, CloseOutside).closed
    ensures s.holder.Awaiting? ==> Enabled(s, Abandon) && Next(s, Abandon).closed
    ensures s.holder.Awaiting? ==> Next(s, Abandon).outcomes == s.outcomes[s.holder.request := Uncertain]
  {
  }

  /** A child that died or stopped never takes or answers a request again. */
  lemma {:induction false} StoppedChildIsSilent(states: seq<State>, steps: seq<Step>, i: nat, j: nat)
    requires Run(states, steps) && i < j < |steps|
    requires steps[i].ChildDies? || (steps[i].ChildReplies? && steps[i].stops)
    ensures !states[j].alive && !steps[j].ChildTakes? && !steps[j].ChildReplies?
    decreases j
  {
    if j > i + 1 {
      StoppedChildIsSilent(states, steps, i, j - 1);
    } else {
      assert states[i + 1] == Next(states[i], steps[i]);
    }
  }

  /** `t` is what `s` becomes by step `e`, which is possible. */
  predicate Leads(s: State, e: Step, t: State) {
    Enabled(s, e) && t == Next(s, e)
  }

  /** Nothing else is needed: in every run the next call of an open resource that is
      free and whose child lives can be carried through, and if nothing interferes it
      ends with what the child answers and leaves the resource open and free again. */
  lemma UndisturbedExchange(states: seq<State>, steps: seq<Step>, i: nat, verdict: Verdict)
    returns (entered: State, begun: State, sent: State, taken: State, answered: State, read: State, done: State)
    requires Run(states, steps) && i < |states|
    requires states[i].holder == Nobody && !states[i].closed && states[i].alive
    ensures var r := states[i].issued;
      && Leads(states[i], Enter, entered) && Leads(entered, Start, begun) && Leads(begun, Send(r), sent)
      && Leads(sent, ChildTakes, taken) && Leads(taken, ChildReplies(verdict, false), answered)
      && Leads(answered, Receive(r), read) && Leads(read, Deliver, done)
      && r !in states[i].outcomes
      && done.outcomes == states[i].outcomes[r := if verdict == Invalid then Uncertain else Returned(Frame(r, verdict))]
    ensures done.holder == Nobody && done.alive && InFlight(done) == 0
    ensures done.closed == (verdict == Invalid)
  {
    RunKeepsInv(states, steps, i);
    var s, r := states[i], states[i].issued;
    assert s.requests == [] && s.replies == [] && s.busy == None;
    entered := Next(s, Enter);
    begun := Next(entered, Start);
    sent := Next(begun, Send(r));
    taken := Next(sent, ChildTakes);
    assert taken.busy == Some(r) && taken.requests == [];
    answered := Next(taken, ChildReplies(verdict, false));
    assert answered.replies == [Frame(r, verdict)];
    read := Next(answered, Receive(r));
    done := Next(read, Deliver);
  }

  /** A request is on its way to the child, or with it, once at most, and only after
      its I/O thread began to send it. */
  ghost predicate SentOnce(s: State) {
    && (forall k, l | 0 <= k < l < |s.requests| :: s.requests[k] != s.requests[l])
    && (s.busy.Some? ==> s.busy.value !in s.requests && HasLeft(s, s.busy.value))
    && (forall q | q in s.requests :: HasLeft(s, q))
  }

  predicate HasLeft(s: State, r: nat) {
    r in s.io && !s.io[r].Sending?
  }

  /** The child is done with request `r`, which can no longer reach it. */
  predicate Answered(s: State, r: nat) {
    HasLeft(s, r) && r !in s.requests && s.busy != Some(r)
  }

  lemma StepKeepsSentOnce(s: State, e: Step)
    requires Inv(s) && SentOnce(s) && Enabled(s, e)
    ensures SentOnce(Next(s, e))
  {
    match e
    case Send(r) => PuttingKeepsSentOnce(s, r, Receiving);
    case SendBreaks(r) => PuttingKeepsSentOnce(s, r, Broken);
    case ChildTakes => TakingKeepsSentOnce(s);
    case Start => assert forall q | q in s.requests :: q in s.io;
    case _ =>
  }

  lemma PuttingKeepsSentOnce(s: State, r: nat, io: Io)
    requires SentOnce(s) && IoIs(s, r, Sending) && !io.Sending?
    ensures SentOnce(s.(io := s.io[r := io], requests := s.requests + [r]))
  {
    var t := s.(io := s.io[r := io], requests := s.requests + [r]);
    forall k, l | 0 <= k < l < |t.requests| ensures t.requests[k] != t.requests[l] {
      assert s.requests[k] in s.requests;
    }
    forall q | q in t.requests ensures HasLeft(t, q) {
      assert q in s.requests || q == r;
    }
  }

  lemma TakingKeepsSentOnce(s: State)
    requires SentOnce(s) && s.busy.None? && s.requests != []
    ensures SentOnce(s.(busy := Some(s.requests[0]), requests := s.requests[1..]))
  {
    var t := s.(busy := Some(s.requests[0]), requests := s.requests[1..]);
    forall k | 0 <= k < |t.requests| ensures t.requests[k] != s.requests[0] {
      assert t.requests[k] == s.requests[k + 1];
    }
    assert s.requests[0] in s.requests && HasLeft(s, s.requests[0]);
    assert forall q | q in t.requests :: q in s.requests && HasLeft(s, q) && HasLeft(t, q);
  }

  lemma StepKeepsAnswered(s: State, e: Step, r: nat)
    requires Inv(s) && Enabled(s, e) && Answered(s, r)
    ensures Answered(Next(s, e), r)
  {
  }

  lemma {:induction false} RunSendsOnce(states: seq<State>, steps: seq<Step>, i: nat)
    requires Run(states, steps) && i < |states|
    ensures SentOnce(states[i])
  {
    if i > 0 {
      RunSendsOnce(states, steps, i - 1);
      RunKeepsInv(states, steps, i - 1);
      StepKeepsSentOnce(states[i - 1], steps[i - 1]);
    }
  }

  lemma {:induction false} AnsweredStaysAnswered(states: seq<State>, steps: seq<Step>, i: nat, j: nat, r: nat)
    requires Run(states, steps) && i <= j < |states|
    requires Answered(states[i], r)
    ensures Answered(states[j], r)
    decreases j
  {
    if i < j {
      AnsweredStaysAnswered(states, steps, i, j - 1, r);
      RunKeepsInv(states, steps, j - 1);
      StepKeepsAnswered(states[j - 1], steps[j - 1], r);
    }
  }

  /** The child answers a request once, so the reply a call gets is the only one. */
  lemma OneAnswerPerRequest(states: seq<State>, steps: seq<Step>, i: nat, j: nat, r: nat, v: Verdict, u: Verdict)
    requires Run(states, steps) && i <= j < |steps|
    requires Answers(states[i], steps[i], r, v) && Answers(states[j], steps[j], r, u)
    ensures i == j && v == u
  {
    RunSendsOnce(states, steps, i);
    assert Answered(Next(states[i], steps[i]), r);
    if i < j {
      AnsweredStaysAnswered(states, steps, i + 1, j, r);
    }
  }

  /** Whatever may have left a frame behind has closed the resource: if an earlier
      exchange is still under way or a frame is unread, only its own owner can be
      waiting, or no exchange can start. */
  lemma LeftoversMeanClosed(states: seq<State>, steps: seq<Step>, i: nat, r: nat)
    requires Run(states, steps) && i < |states|
    requires var s := states[i];
             InFlight(s) > 0 || (r in s.io && (s.io[r].Sending? || s.io[r].Receiving?))
    ensures states[i].closed || states[i].holder.Awaiting?
    ensures !Enabled(states[i], Start)
  {
    RunKeepsInv(states, steps, i);
  }

  lemma {:induction false} ClosedStaysClosed(states: seq<State>, steps: seq<Step>, i: nat, j: nat)
    requires Run(states, steps) && i <= j < |states|
    requires states[i].closed
    ensures states[j].closed
    decreases j
  {
    if i < j {
      ClosedStaysClosed(states, steps, i, j - 1);
    }
  }

  /** A call that ended uncertainly closed the resource, and no call that takes
      the connection after that ever returns anything. */
  lemma UncertainOutcomeIsFinal(states: seq<State>, steps: seq<Step>, i: nat, j: nat, r: nat, later: nat)
    requires Run(states, steps) && i <= j < |states|
    requires r in states[i].outcomes && states[i].outcomes[r].Uncertain?
    requires states[i].issued <= later
    ensures states[i].closed && states[j].closed
    ensures later in states[j].outcomes ==> states[j].outcomes[later].Refused?
    ensures later !in states[j].io
  {
    UncertainMeansClosed(states, steps, i, r);
    ClosedStaysClosed(states, steps, i, j);
    NothingStartsOnceClosed(states, steps, i, j, later);
  }

  lemma {:induction false} UncertainMeansClosed(states: seq<State>, steps: seq<Step>, i: nat, r: nat)
    requires Run(states, steps) && i < |states|
    requires r in states[i].outcomes && states[i].outcomes[r].Uncertain?
    ensures states[i].closed
  {
    if i > 0 {
      var s := states[i - 1];
      if r in s.outcomes && s.outcomes[r].Uncertain? {
        UncertainMeansClosed(states, steps, i - 1, r);
      }
    }
  }

  /** Request `r` has put nothing on the pipes and got nothing but a refusal. */
  predicate Untouched(s: State, r: nat) {
    && r !in s.io && s.holder != Awaiting(r)
    && (r in s.outcomes ==> s.outcomes[r].Refused?)
  }

  lemma ClosedStepLeavesUntouched(s: State, e: Step, r: nat)
    requires Enabled(s, e) && s.closed && Untouched(s, r)
    ensures Untouched(Next(s, e), r)
  {
  }

  lemma {:induction false} NothingStartsOnceClosed(states: seq<State>, steps: seq<Step>, i: nat, j: nat, later: nat)
    requires Run(states, steps) && i <= j < |states|
    requires states[i].closed && states[i].issued <= later
    ensures Untouched(states[j], later)
    decreases j
  {
    if i < j {
      NothingStartsOnceClosed(states, steps, i, j - 1, later);
      ClosedStaysClosed(states, steps, i, j - 1);
      ClosedStepLeavesUntouched(states[j - 1], steps[j - 1], later);
    } else {
      RunKeepsInv(states, steps, i);
    }
  }
}
