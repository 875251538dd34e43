/** Draining a child's two pipes within a deadline and two byte limits
    (src/usagebassoon/collector.py, `_capture_process`).

    Pipes, child and clock answer arbitrarily within their contracts, so what is
    proved holds for every interleaving of chunks, would-block reads, read errors,
    exits and clock ticks. */
module ProcessCapture {
  import opened Wrappers

  const CHUNK_BYTES := 64 * 1024
  const CLEANUP_SECONDS: real := 2.0
  const POLL_SECONDS: real := 0.01

  type Bytes = seq<bv8>

  datatype Stream = Stdout | Stderr

  datatype Fault =
    | TimedOut
    | Unreadable(stream: Stream)
    | OverLimit(stream: Stream)
    | NotExited | NotReaped | ScopeNotClosed | StillAlive | NotReapedAfterClose

  // ----- the world -----

  class Clock {
    var now: real

    constructor (start: real)
      requires start >= 0.0
      ensures now == start
    {
      now := start;
    }

    method Monotonic() returns (t: real)
      modifies this
      ensures old(now) <= now == t
    {
      var elapsed: real := *;
      if elapsed > 0.0 {
        now := now + elapsed;
      }
      t := now;
    }

    method Sleep(seconds: real)
      requires seconds >= 0.0
      modifies this
      ensures now >= old(now) + seconds
    {
      var late := Monotonic();
      now := late + seconds;
    }
  }

  datatype Reading = WouldBlock | Broken | Chunk(bytes: Bytes)

  class Pipe {
    /** All the child writes before it closes this end. */
    const content: Bytes
    var position: nat
    var broken: bool

    constructor (content: Bytes)
      ensures this.content == content && position == 0 && !broken
    {
      this.content := content;
      position, broken := 0, false;
    }

    predicate Valid()
      reads this
    {
      position <= |content|
    }

    /** A nonblocking read: an empty chunk means end of file. */
    method Read() returns (r: Reading)
      requires Valid()
      modifies this
      ensures Valid()
      ensures broken == (old(broken) || r.Broken?)
      ensures !r.Chunk? ==> position == old(position)
      ensures r.Chunk? ==>
        && old(position) <= position
        && r.bytes == content[old(position)..position]
        && |r.bytes| <= CHUNK_BYTES
        && (r.bytes == [] <==> old(position) == |content|)
    {
      if * {
        return WouldBlock;
      }
      if * {
        broken := true;
        return Broken;
      }
      var left := |content| - position;
      if left == 0 {
        return Chunk([]);
      }
      assert 1 <= left && 1 <= CHUNK_BYTES;
      var size :| 1 <= size <= left && size <= CHUNK_BYTES;
      r := Chunk(content[position..position + size]);
      position := position + size;
    }
  }

  datatype WaitOutcome = Reaped | WaitTimedOut | WaitFailed

  class Child {
    /** Runs in a process scope of its own. */
    const managed: bool
    var exited: bool
    var terminated: bool

    constructor (managed: bool)
      ensures this.managed == managed && !exited && !terminated
    {
      this.managed := managed;
      exited, terminated := false, false;
    }

    method Poll() returns (ended: bool)
      modifies this
      ensures ended == exited && (old(exited) ==> exited) && terminated == old(terminated)
    {
      if * {
        exited := true;
      }
      ended := exited;
    }

    method Terminate()
      modifies this
      ensures terminated && (old(exited) ==> exited)
    {
      terminated := true;
    }

    method Wait(seconds: real) returns (outcome: WaitOutcome)
      requires seconds >= 0.0
      modifies this
      ensures terminated == old(terminated) && (old(exited) ==> exited)
      ensures outcome.Reaped? ==> exited
    {
      if * {
        exited := true;
        return Reaped;
      }
      if * {
        return WaitTimedOut;
      }
      return WaitFailed;
    }

    method CloseScope() returns (closed: bool)
      modifies this
      ensures terminated == old(terminated) && (old(exited) ==> exited)
    {
      closed := *;
    }
  }

  // ----- one stream -----

  /** What has been kept of one stream. */
  datatype Kept = Kept(output: Bytes, complete: bool)

  /** The kept bytes are what was read, cut at the limit; without a fault nothing
      was cut, and a complete stream was read to its end. */
  ghost predicate Faithful(k: Kept, content: Bytes, position: nat, limit: nat, failed: bool) {
    && position <= |content|
    && k.output == content[..if position <= limit then position else limit]
    && (!failed ==> position <= limit && (k.complete ==> position == |content|))
  }

  function Work(content: Bytes, position: nat, complete: bool): int {
    |content| - position + if complete then 0 else 1
  }

  method ReadPipe(stream: Stream, pipe: Pipe, limit: nat, kept: Kept, failure: Option<Fault>)
    returns (k: Kept, fault: Option<Fault>, progressed: bool)
    requires pipe.Valid() && !kept.complete
    requires Faithful(kept, pipe.content, pipe.position, limit, failure.Some?)
    modifies pipe
    ensures pipe.Valid()
    ensures Faithful(k, pipe.content, pipe.position, limit, fault.Some?)
    ensures failure.Some? ==> fault == failure
    ensures fault == failure || (fault == Some(OverLimit(stream)) && pipe.position > limit)
         || (fault == Some(Unreadable(stream)) && pipe.broken)
    ensures pipe.position >= old(pipe.position) && (old(pipe.broken) ==> pipe.broken)
    ensures progressed || k.complete ==>
      Work(pipe.content, pipe.position, k.complete) < old(Work(pipe.content, pipe.position, false))
    ensures !progressed && !k.complete ==> k == kept && fault == failure && pipe.position == old(pipe.position)
  {
    k, fault, progressed := kept, failure, false;
    var r := pipe.Read();
    match r
    case WouldBlock =>
    case Broken =>
      k := k.(complete := true);
      if fault.None? {
        fault := Some(Unreadable(stream));
      }
    case Chunk(chunk) =>
      progressed := true;
      if chunk == [] {
        k := k.(complete := true);
        return;
      }
      var available := limit - |k.output|;
      if available > 0 {
        k := k.(output := k.output + if |chunk| <= available then chunk else chunk[..available]);
      }
      if |chunk| > available && fault.None? {
        fault := Some(OverLimit(stream));
      }
  }

  // ----- the drain loop -----

  /** How long the loop may go on without reading anything new. */
  function Ticks(seconds: real): nat {
    if seconds <= 0.0 then 0 else (seconds * 100.0).Floor + 1
  }

  function Active(deadline: real, cleanup: Option<real>): real {
    if cleanup.Some? then cleanup.value else deadline
  }

  /** A round of reads: when its check was made, and whether it already had a
      fault then. */
  datatype Round = Round(at: real, failing: bool)

  /** Every round began before the deadline then active; a round past the command's
      deadline is a failing one; and the cleanup deadline is set no later than the
      first failing round. */
  ghost predicate Punctual(rounds: seq<Round>, deadline: real, cleanup: Option<real>) {
    && (forall t | t in rounds :: t.at < Active(deadline, cleanup) && (t.at >= deadline ==> t.failing))
    && (forall t | t in rounds && t.failing :: cleanup.Some? && cleanup.value <= t.at + CLEANUP_SECONDS)
  }

  ghost predicate Due(failure: Option<Fault>, rounds: seq<Round>, deadline: real) {
    failure == Some(TimedOut) ==> exists t :: t in rounds && t.at >= deadline
  }

  /** Both streams are kept faithfully, and a fault of the loop is what happened. */
  ghost predicate Sound(
    out: Pipe, err: Pipe, stdout: Kept, stderr: Kept, maxStdout: nat, maxStderr: nat, failure: Option<Fault>)
    reads out, err
  {
    && Faithful(stdout, out.content, out.position, maxStdout, failure.Some?)
    && Faithful(stderr, err.content, err.position, maxStderr, failure.Some?)
    && match failure
       case None => true
       case Some(TimedOut) => true
       case Some(Unreadable(Stdout)) => out.broken
       case Some(Unreadable(Stderr)) => err.broken
       case Some(OverLimit(Stdout)) => |out.content| > maxStdout
       case Some(OverLimit(Stderr)) => |err.content| > maxStderr
       case _ => false
  }

  function Remaining(out: Pipe, err: Pipe, stdout: Kept, stderr: Kept): int
    reads out, err
  {
    Work(out.content, out.position, stdout.complete) + Work(err.content, err.position, stderr.complete)
  }

  /** One round of reads, over the streams not yet complete. */
  method ReadRound(
    out: Pipe, err: Pipe, maxStdout: nat, maxStderr: nat, oldStdout: Kept, oldStderr: Kept, failed: Option<Fault>)
    returns (stdout: Kept, stderr: Kept, failure: Option<Fault>, progressed: bool)
    requires out != err && Sound(out, err, oldStdout, oldStderr, maxStdout, maxStderr, failed)
    modifies out, err
    ensures Sound(out, err, stdout, stderr, maxStdout, maxStderr, failure)
    ensures failed.Some? ==> failure == failed
    ensures failure == Some(TimedOut) ==> failed == failure
    ensures Remaining(out, err, stdout, stderr) <= old(Remaining(out, err, oldStdout, oldStderr))
    ensures progressed ==> Remaining(out, err, stdout, stderr) < old(Remaining(out, err, oldStdout, oldStderr))
  {
    stdout, stderr, failure, progressed := oldStdout, oldStderr, failed, false;
    if !stdout.complete {
      stdout, failure, progressed := ReadPipe(Stdout, out, maxStdout, stdout, failure);
    }
    if !stderr.complete {
      var more: bool;
      stderr, failure, more := ReadPipe(Stderr, err, maxStderr, stderr, failure);
      progressed := progressed || more;
    }
  }

  /** After a round that read nothing: a short sleep, never past the active
      deadline. */
  method Pause(clock: Clock, active: real)
    modifies clock
    ensures clock.now >= old(clock.now)
    ensures old(clock.now) < active ==> Ticks(active - clock.now) < old(Ticks(active - clock.now))
  {
    var now := clock.Monotonic();
    var left := active - now;
    clock.Sleep(if left <= 0.0 then 0.0 else if left < POLL_SECONDS then left else POLL_SECONDS);
  }

  /** The check at the head of a round: whether to stop, else which fault and
      cleanup deadline are in force for it. */
  method CheckDeadlines(child: Child, clock: Clock, deadline: real, failed: Option<Fault>, granted: Option<real>)
    returns (stop: bool, failure: Option<Fault>, cleanup: Option<real>, now: real)
    requires granted.Some? ==> failed.Some?
    requires child.terminated <==> granted.Some?
    modifies child, clock
    ensures old(clock.now) <= now == clock.now
    ensures stop <==> granted.Some? && now >= granted.value
    ensures stop ==> failure == failed && cleanup == granted
    ensures failed.Some? ==> failure == failed
    ensures failed.None? ==> failure == if granted.None? && now >= deadline then Some(TimedOut) else None
    ensures cleanup == if granted.Some? then granted else if failure.Some? then Some(now + CLEANUP_SECONDS) else None
    ensures child.terminated <==> cleanup.Some?
  {
    stop, failure, cleanup := false, failed, granted;
    now := clock.Monotonic();
    if cleanup.Some? {
      if now >= cleanup.value {
        stop := true;
        return;
      }
    } else if now >= deadline && failure.None? {
      failure := Some(TimedOut);
    }
    if failure.Some? && cleanup.None? {
      cleanup := Some(now + CLEANUP_SECONDS);
      child.Terminate();
    }
  }

  /** One round: reads, then a pause if they brought nothing. */
  method RunRound(
    clock: Clock, out: Pipe, err: Pipe, active: real, maxStdout: nat, maxStderr: nat,
    oldStdout: Kept, oldStderr: Kept, failed: Option<Fault>)
    returns (stdout: Kept, stderr: Kept, failure: Option<Fault>)
    requires out != err && Sound(out, err, oldStdout, oldStderr, maxStdout, maxStderr, failed)
    requires clock.now < active
    modifies clock, out, err
    ensures Sound(out, err, stdout, stderr, maxStdout, maxStderr, failure)
    ensures failed.Some? ==> failure == failed
    ensures failure == Some(TimedOut) ==> failed == failure
    ensures clock.now >= old(clock.now)
    ensures
      || Remaining(out, err, stdout, stderr) < old(Remaining(out, err, oldStdout, oldStderr))
      || (Remaining(out, err, stdout, stderr) == old(Remaining(out, err, oldStdout, oldStderr))
          && Ticks(active - clock.now) < old(Ticks(active - clock.now)))
  {
    var progressed;
    stdout, stderr, failure, progressed := ReadRound(out, err, maxStdout, maxStderr, oldStdout, oldStderr, failed);
    if !progressed {
      Pause(clock, active);
    }
  }

  /** What the loop knows of time at its head. */
  ghost predicate OnTime(
    rounds: seq<Round>, failure: Option<Fault>, cleanup: Option<real>, deadline: real, now: real)
  {
    && Due(failure, rounds, deadline)
    && Punctual(rounds, deadline, cleanup)
    && (cleanup.Some? ==> failure.Some? && cleanup.value <= now + CLEANUP_SECONDS)
    && forall t | t in rounds :: t.at <= now
  }

  lemma CheckedRound(
    rounds: seq<Round>, failed: Option<Fault>, granted: Option<real>,
    failure: Option<Fault>, cleanup: Option<real>, deadline: real, before: real, now: real)
    requires OnTime(rounds, failed, granted, deadline, before) && before <= now
    requires !(granted.Some? && now >= granted.value)
    requires failure == if failed.None? && granted.None? && now >= deadline then Some(TimedOut) else failed
    requires cleanup == if granted.Some? then granted else if failure.Some? then Some(now + CLEANUP_SECONDS) else None
    ensures OnTime(rounds + [Round(now, failure.Some?)], failure, cleanup, deadline, now)
  {
    var next := Round(now, failure.Some?);
    assert next in rounds + [next];
    assert forall t | t in rounds :: t in rounds + [next];
    assert forall t | t in rounds + [next] :: t in rounds || t == next;
  }

  lemma LaterOnTime(
    rounds: seq<Round>, failed: Option<Fault>, failure: Option<Fault>, cleanup: Option<real>,
    deadline: real, now: real, later: real)
    requires OnTime(rounds, failed, cleanup, deadline, now) && now <= later
    requires failed.Some? ==> failure == failed
    requires failure == Some(TimedOut) ==> failed == failure
    ensures OnTime(rounds, failure, cleanup, deadline, later)
  {
  }

  /** A timeout says nothing of the streams. */
  lemma CheckKeepsSound(
    out: Pipe, err: Pipe, stdout: Kept, stderr: Kept, maxStdout: nat, maxStderr: nat,
    failed: Option<Fault>, failure: Option<Fault>)
    requires Sound(out, err, stdout, stderr, maxStdout, maxStderr, failed)
    requires failure == failed || (failed.None? && failure == Some(TimedOut))
    ensures Sound(out, err, stdout, stderr, maxStdout, maxStderr, failure)
  {
  }

  /** One turn of the loop: the check, then a round unless it stops. */
  method Turn(
    child: Child, clock: Clock, out: Pipe, err: Pipe, deadline: real, maxStdout: nat, maxStderr: nat,
    oldStdout: Kept, oldStderr: Kept, failed: Option<Fault>, granted: Option<real>, ghost earlier: seq<Round>)
    returns (stop: bool, stdout: Kept, stderr: Kept, failure: Option<Fault>, cleanup: Option<real>, ghost rounds: seq<Round>)
    requires out != err && Sound(out, err, oldStdout, oldStderr, maxStdout, maxStderr, failed)
    requires OnTime(earlier, failed, granted, deadline, clock.now)
    requires child.terminated <==> granted.Some?
    modifies child, clock, out, err
    ensures Sound(out, err, stdout, stderr, maxStdout, maxStderr, failure)
    ensures OnTime(rounds, failure, cleanup, deadline, clock.now) && clock.now >= old(clock.now)
    ensures child.terminated <==> cleanup.Some?
    ensures stop ==> failure.Some?
    ensures stop || Shorter(
      Remaining(out, err, stdout, stderr), cleanup, Ticks(Active(deadline, cleanup) - clock.now),
      old(Remaining(out, err, oldStdout, oldStderr)), granted, old(Ticks(Active(deadline, granted) - clock.now)))
  {
    stdout, stderr, rounds := oldStdout, oldStderr, earlier;
    ghost var before := clock.now;
    var now;
    stop, failure, cleanup, now := CheckDeadlines(child, clock, deadline, failed, granted);
    if stop {
      LaterOnTime(earlier, failed, failure, cleanup, deadline, before, now);
      return;
    }
    CheckedRound(earlier, failed, granted, failure, cleanup, deadline, before, now);
    CheckKeepsSound(out, err, stdout, stderr, maxStdout, maxStderr, failed, failure);
    rounds := earlier + [Round(now, failure.Some?)];
    ghost var checked := failure;
    TicksPass(Active(deadline, cleanup), before, now);
    stdout, stderr, failure :=
      RunRound(clock, out, err, Active(deadline, cleanup), maxStdout, maxStderr, stdout, stderr, failure);
    LaterOnTime(rounds, checked, failure, cleanup, deadline, now, clock.now);
  }

  lemma TicksPass(active: real, before: real, now: real)
    requires before <= now
    ensures Ticks(active - now) <= Ticks(active - before)
  {
  }

  /** The measure of the loop: bytes and streams left, then whether a cleanup
      deadline is still to be granted, then time left. */
  predicate Shorter(
    left: int, cleanup: Option<real>, ticks: nat, leftBefore: int, granted: Option<real>, ticksBefore: nat)
  {
    || left < leftBefore
    || (left == leftBefore && granted.None? && cleanup.Some?)
    || (left == leftBefore && granted.None? == cleanup.None? && ticks < ticksBefore)
  }

  method Drain(
    child: Child, clock: Clock, out: Pipe, err: Pipe, deadline: real, maxStdout: nat, maxStderr: nat)
    returns (stdout: Kept, stderr: Kept, failure: Option<Fault>, cleanup: Option<real>, ghost rounds: seq<Round>)
    requires out != err && out.position == 0 && err.position == 0 && !child.terminated
    modifies child, clock, out, err
    ensures Sound(out, err, stdout, stderr, maxStdout, maxStderr, failure)
    ensures failure.None? ==> stdout.complete && stderr.complete && child.exited
    ensures Due(failure, rounds, deadline)
    ensures Punctual(rounds, deadline, cleanup)
    ensures cleanup.Some? ==> failure.Some?
    ensures child.terminated <==> cleanup.Some?
    ensures clock.now >= old(clock.now)
  {
    stdout, stderr := Kept([], false), Kept([], false);
    failure, cleanup, rounds := None, None, [];
    while true
      invariant Sound(out, err, stdout, stderr, maxStdout, maxStderr, failure)
      invariant OnTime(rounds, failure, cleanup, deadline, clock.now) && clock.now >= old(clock.now)
      invariant child.terminated <==> cleanup.Some?
      decreases Remaining(out, err, stdout, stderr), cleanup.None?, Ticks(Active(deadline, cleanup) - clock.now)
    {
      if stdout.complete && stderr.complete {
        var ended := child.Poll();
        if ended {
          break;
        }
      }
      var stop;
      stop, stdout, stderr, failure, cleanup, rounds :=
        Turn(child, clock, out, err, deadline, maxStdout, maxStderr, stdout, stderr, failure, cleanup, rounds);
      if stop {
        break;
      }
    }
  }

  // ----- the whole capture -----

  /** Waiting for the child with what is left of the active deadline. */
  method Await(child: Child, clock: Clock, deadline: real) returns (outcome: WaitOutcome)
    modifies child, clock
    ensures child.terminated == old(child.terminated) && (old(child.exited) ==> child.exited)
    ensures outcome.Reaped? ==> child.exited
    ensures clock.now >= old(clock.now)
  {
    var now := clock.Monotonic();
    outcome := child.Wait(if deadline > now then deadline - now else 0.0);
  }

  /** The finally clause: what is left to fail once the drain is over. */
  method Settle(child: Child, clock: Clock, failed: Option<Fault>, deadline: real) returns (failure: Option<Fault>)
    modifies child, clock
    ensures child.terminated == old(child.terminated)
    ensures failed.Some? ==> failure == failed
    ensures failure == failed || failure.value in {NotExited, NotReaped, ScopeNotClosed, StillAlive, NotReapedAfterClose}
    ensures failure.None? ==> child.exited
    ensures clock.now >= old(clock.now)
  {
    failure := failed;
    var outcome := Await(child, clock, deadline);
    if failure.None? && !outcome.Reaped? {
      failure := Some(if outcome.WaitTimedOut? then NotExited else NotReaped);
    }
    if child.managed {
      var closed := child.CloseScope();
      if !closed && failure.None? {
        failure := Some(ScopeNotClosed);
      }
    }
    var ended := child.Poll();
    if !ended {
      outcome := Await(child, clock, deadline);
      if failure.None? && !outcome.Reaped? {
        failure := Some(if outcome.WaitTimedOut? then StillAlive else NotReapedAfterClose);
      }
    }
  }

  /** A normal return is exactly both streams in full, from a child that ended by
      itself; anything else fails, having kept no more than the limits allow. */
  method CaptureProcess(
    child: Child, clock: Clock, out: Pipe, err: Pipe, timeout: real, maxStdout: nat, maxStderr: nat)
    returns (r: Result<(Bytes, Bytes), Fault>, ghost kept: (Bytes, Bytes), ghost rounds: seq<Round>, ghost deadline: real)
    requires out != err && out.position == 0 && err.position == 0 && !child.terminated
    modifies child, clock, out, err
    ensures kept.0 <= out.content && |kept.0| <= maxStdout
    ensures kept.1 <= err.content && |kept.1| <= maxStderr
    ensures r.Success? ==> r.value == (out.content, err.content) && kept == r.value
    ensures r.Success? ==> child.exited && !child.terminated
    ensures r == Failure(OverLimit(Stdout)) ==> |out.content| > maxStdout
    ensures r == Failure(OverLimit(Stderr)) ==> |err.content| > maxStderr
    ensures r == Failure(Unreadable(Stdout)) ==> out.broken
    ensures r == Failure(Unreadable(Stderr)) ==> err.broken
    ensures old(clock.now) + timeout <= deadline <= clock.now + timeout
    ensures r == Failure(TimedOut) ==> exists t :: t in rounds && t.at >= deadline
    ensures forall t | t in rounds && t.at >= deadline :: t.failing
    ensures forall t, u | t in rounds && u in rounds && u.failing :: t.at < u.at + CLEANUP_SECONDS
    ensures forall t | t in rounds && t.failing :: r.Failure? && child.terminated
  {
    var start := clock.Monotonic();
    var limit := start + timeout;
    deadline := limit;
    var stdout, stderr, failure, cleanup;
    stdout, stderr, failure, cleanup, rounds := Drain(child, clock, out, err, limit, maxStdout, maxStderr);
    assert out.content[..|out.content|] == out.content && err.content[..|err.content|] == err.content;
    kept := (stdout.output, stderr.output);
    if failure.Some? && cleanup.None? {
      var now := clock.Monotonic();
      cleanup := Some(now + CLEANUP_SECONDS);
      child.Terminate();
    }
    failure := Settle(child, clock, failure, Active(limit, cleanup));
    r := if failure.Some? then Failure(failure.value) else Success((stdout.output, stderr.output));
  }
}
