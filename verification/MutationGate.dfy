/** Pacing of same-object mutations through evictable gates
    (src/usagebassoon/buckets/gcs.py, `_MutationGate`, `_mutation`, `_pause`).

    Threads advance one step at a time.  A step is what the code does in one
    critical section of the table lock, or between two accesses to a gate. */
module MutationGate {
  import opened Wrappers

  const MUTATION_INTERVAL: real := 1.1

  datatype Key = Key(bucket: string, object: string)

  /** `key` is the table key the gate was created under. */
  datatype Gate = Gate(key: Key, owner: Option<nat>, nextAt: real, users: int)

  /** Where a thread stands inside `_mutation`; absent threads are outside. */
  datatype Phase =
    | Queued              // counted among the users, waiting for the gate's lock
    | Holding             // owns the lock, next_at not yet read
    | Pausing(until: real)
    | Mutating(since: real)
    | Ended(at: real)     // the body returned or raised; next_at not yet advanced
    | Releasing           // still owns the lock, only has to release it
    | Leaving             // lock released or never taken; still counted

  datatype Visit = Visit(gate: nat, phase: Phase)

  /** One mutation request that reached the provider. */
  datatype Mutation = Mutation(key: Key, start: real, end: real)

  datatype State = State(
    now: real,
    table: map<Key, nat>,
    gates: map<nat, Gate>,
    threads: map<nat, Visit>,
    done: seq<Mutation>)

  predicate Initial(s: State) {
    s.table == map[] && s.gates == map[] && s.threads == map[] && s.done == []
  }

  predicate OwnsLock(p: Phase) {
    p.Holding? || p.Pausing? || p.Mutating? || p.Ended? || p.Releasing?
  }

  /** The entries the next thread to enter removes from the table. */
  predicate Idle(s: State, k: Key)
    requires k in s.table && s.table[k] in s.gates
  {
    s.gates[s.table[k]].users == 0 && s.gates[s.table[k]].nextAt <= s.now
  }

  ghost predicate TableKnown(s: State) {
    forall k | k in s.table :: s.table[k] in s.gates
  }

  function Evicted(s: State): map<Key, nat>
    requires TableKnown(s)
  {
    map k | k in s.table && !Idle(s, k) :: s.table[k]
  }

  // ----- steps -----

  datatype Step =
    | Tick(elapsed: real)
    | Enter(t: nat, key: Key, spare: nat)
    | Acquire(t: nat)
    | GiveUpWaiting(t: nat)
    | ReadPause(t: nat)
    | GiveUpPausing(t: nat)
    | Begin(t: nat)
    | End(t: nat)
    | Stamp(t: nat)
    | Release(t: nat)
    | Leave(t: nat)

  predicate At(s: State, t: nat) {
    t in s.threads && s.threads[t].gate in s.gates
  }

  function GateOf(s: State, t: nat): Gate
    requires At(s, t)
  {
    s.gates[s.threads[t].gate]
  }

  /** Thread `t` goes on to phase `p`, leaving its gate as `g`. */
  function Advance(s: State, t: nat, p: Phase, g: Gate): State
    requires At(s, t)
  {
    var id := s.threads[t].gate;
    s.(threads := s.threads[t := Visit(id, p)], gates := s.gates[id := g])
  }

  ghost predicate Enabled(s: State, e: Step) {
    TableKnown(s) &&
    match e
    case Tick(elapsed) => elapsed >= 0.0
    case Enter(t, key, spare) => t !in s.threads && spare !in s.gates
    case Acquire(t) => At(s, t) && s.threads[t].phase.Queued? && s.gates[s.threads[t].gate].owner.None?
    case GiveUpWaiting(t) => At(s, t) && s.threads[t].phase.Queued?
    case ReadPause(t) => At(s, t) && s.threads[t].phase.Holding?
    case GiveUpPausing(t) => At(s, t) && (s.threads[t].phase.Holding? || s.threads[t].phase.Pausing?)
    case Begin(t) => At(s, t) && s.threads[t].phase.Pausing? && s.now >= s.threads[t].phase.until
    case End(t) => At(s, t) && s.threads[t].phase.Mutating?
    case Stamp(t) => At(s, t) && s.threads[t].phase.Ended?
    case Release(t) => At(s, t) && s.threads[t].phase.Releasing?
    case Leave(t) => At(s, t) && s.threads[t].phase.Leaving?
  }

  /** The phase the stepping thread reaches and the gate as it leaves it. */
  ghost function Effect(s: State, e: Step): (Phase, Gate)
    requires Enabled(s, e) && !e.Tick? && !e.Enter? && !e.Leave?
  {
    var gate := GateOf(s, e.t);
    match e
    case Acquire(t) => (Holding, gate.(owner := Some(t)))
    case GiveUpWaiting(_) => (Leaving, gate)
    case ReadPause(_) =>
      var wait := gate.nextAt - s.now;
      (Pausing(s.now + if wait > 0.0 then wait else 0.0), gate)
    case GiveUpPausing(_) => (Releasing, gate)
    case Begin(_) => (Mutating(s.now), gate)
    case End(_) => (Ended(s.now), gate)
    case Stamp(_) => (Releasing, gate.(nextAt := s.now + MUTATION_INTERVAL))
    case Release(_) => (Leaving, gate.(owner := None))
  }

  ghost function Requested(s: State, e: Step): seq<Mutation>
    requires Enabled(s, e)
  {
    if e.End? then [Mutation(GateOf(s, e.t).key, s.threads[e.t].phase.since, s.now)] else []
  }

  ghost function Next(s: State, e: Step): State
    requires Enabled(s, e)
  {
    match e
    case Tick(elapsed) => s.(now := s.now + elapsed)
    case Enter(t, key, spare) =>
      // one critical section: sweep, setdefault, count the user
      var kept := Evicted(s);
      var id := if key in kept then kept[key] else spare;
      var gate := if key in kept then s.gates[id] else Gate(key, None, 0.0, 0);
      s.(table := kept[key := id],
         gates := s.gates[id := gate.(users := gate.users + 1)],
         threads := s.threads[t := Visit(id, Queued)])
    case Leave(t) =>
      var g := GateOf(s, t);
      s.(threads := s.threads - {t}, gates := s.gates[s.threads[t].gate := g.(users := g.users - 1)])
    case _ =>
      var (phase, gate) := Effect(s, e);
      Advance(s, e.t, phase, gate).(done := s.done + Requested(s, e))
  }

  // ----- invariant -----

  function Visitors(threads: map<nat, Visit>, id: nat): set<nat> {
    set t | t in threads && threads[t].gate == id
  }

  /** Every gate that is visited or not yet expired is the one the table holds
      under its key, and a gate's counter is the number of its visitors. */
  ghost predicate Counted(s: State) {
    && TableKnown(s)
    && (forall id | id in s.gates && s.gates[id].nextAt > s.now ::
          s.gates[id].key in s.table && s.table[s.gates[id].key] == id)
    && (forall k | k in s.table :: s.gates[s.table[k]].key == k)
    && (forall id | id in s.gates :: s.gates[id].users == |Visitors(s.threads, id)|)
    && (forall t | t in s.threads ::
          var id := s.threads[t].gate;
          id in s.gates && s.gates[id].key in s.table && s.table[s.gates[id].key] == id)
  }

  /** The lock of a gate is owned by exactly one of its visitors, or by none. */
  ghost predicate Locked(s: State) {
    && (forall t | At(s, t) :: OwnsLock(s.threads[t].phase) ==> s.gates[s.threads[t].gate].owner == Some(t))
    && (forall id | id in s.gates && s.gates[id].owner.Some? ::
          var t := s.gates[id].owner.value;
          t in s.threads && s.threads[t].gate == id && OwnsLock(s.threads[t].phase))
  }

  /** What a visitor in phase `p` has read of the clock and of `next_at` holds. */
  predicate Timely(now: real, g: Gate, p: Phase) {
    && (p.Pausing? ==> g.nextAt <= p.until)
    && (p.Mutating? ==> g.nextAt <= p.since <= now)
    && (p.Ended? ==> p.at <= now)
  }

  ghost predicate Timed(s: State) {
    forall t | At(s, t) :: Timely(s.now, GateOf(s, t), s.threads[t].phase)
  }

  /** `t` ended a mutation of the same object no earlier and has yet to advance
      the `next_at` of the gate it owns. */
  predicate Finishing(table: map<Key, nat>, threads: map<nat, Visit>, m: Mutation, t: nat) {
    && t in threads && m.key in table && threads[t].gate == table[m.key]
    && threads[t].phase.Ended? && m.end <= threads[t].phase.at
  }

  /** A past mutation is at least the interval away from now, or the gate in the
      table enforces it, or its thread still owns that gate and has yet to advance
      `next_at`. */
  ghost predicate Enforced(
    now: real, table: map<Key, nat>, gates: map<nat, Gate>, threads: map<nat, Visit>, m: Mutation)
  {
    || m.end + MUTATION_INTERVAL <= now
    || (m.key in table && table[m.key] in gates && m.end + MUTATION_INTERVAL <= gates[table[m.key]].nextAt)
    || (exists t :: Finishing(table, threads, m, t))
  }

  ghost predicate Kept(s: State, m: Mutation) {
    Enforced(s.now, s.table, s.gates, s.threads, m)
  }

  ghost predicate Paced(s: State)
    requires TableKnown(s)
  {
    && (forall m | m in s.done :: m.start <= m.end <= s.now && Kept(s, m))
    && (forall t, m | At(s, t) && s.threads[t].phase.Mutating? && m in s.done
                    && m.key == s.gates[s.threads[t].gate].key ::
          m.end + MUTATION_INTERVAL <= s.threads[t].phase.since)
    && (forall i, j | 0 <= i < j < |s.done| && s.done[i].key == s.done[j].key ::
          s.done[i].end + MUTATION_INTERVAL <= s.done[j].start)
  }

  ghost predicate Inv(s: State) {
    Counted(s) && Locked(s) && Timed(s) && Paced(s)
  }

  lemma InitialInv(s: State)
    requires Initial(s)
    ensures Inv(s)
  {
  }

  // ----- counting visitors -----

  lemma VisitorsAfterEnter(threads: map<nat, Visit>, t: nat, v: Visit, id: nat)
    requires t !in threads
    ensures |Visitors(threads[t := v], id)| == |Visitors(threads, id)| + if id == v.gate then 1 else 0
  {
    assert Visitors(threads[t := v], id) == Visitors(threads, id) + if id == v.gate then {t} else {};
  }

  lemma VisitorsAfterLeave(threads: map<nat, Visit>, t: nat, id: nat)
    requires t in threads
    ensures |Visitors(threads - {t}, id)| == |Visitors(threads, id)| - if id == threads[t].gate then 1 else 0
  {
    assert Visitors(threads, id) == Visitors(threads - {t}, id) + if id == threads[t].gate then {t} else {};
  }

  lemma VisitedGateHasUsers(s: State, t: nat)
    requires Counted(s) && t in s.threads
    ensures s.gates[s.threads[t].gate].users > 0
  {
    assert t in Visitors(s.threads, s.threads[t].gate);
  }

  // ----- every step keeps the invariant -----

  lemma AdvanceKeepsCounted(s: State, t: nat, p: Phase, g: Gate)
    requires Counted(s) && At(s, t)
    requires g.key == GateOf(s, t).key && g.users == GateOf(s, t).users
    ensures Counted(Advance(s, t, p, g))
  {
    var n := Advance(s, t, p, g);
    forall id | id in n.gates ensures Visitors(n.threads, id) == Visitors(s.threads, id) {
    }
  }

  lemma AdvanceKeepsLocked(s: State, t: nat, p: Phase, g: Gate)
    requires Counted(s) && Locked(s) && At(s, t)
    requires OwnsLock(p) <==> g.owner == Some(t)
    requires g.owner == GateOf(s, t).owner || GateOf(s, t).owner in {None, Some(t)}
    requires g.owner in {GateOf(s, t).owner, None, Some(t)}
    ensures Locked(Advance(s, t, p, g))
  {
  }

  lemma AdvanceKeepsTimed(s: State, t: nat, p: Phase, g: Gate)
    requires Counted(s) && Locked(s) && Timed(s) && At(s, t)
    requires g.nextAt == GateOf(s, t).nextAt || GateOf(s, t).owner == Some(t)
    requires Timely(s.now, g, p)
    ensures Timed(Advance(s, t, p, g))
  {
  }

  lemma EnterKeepsCounted(s: State, e: Step)
    requires Counted(s) && Enabled(s, e) && e.Enter?
    ensures Counted(Next(s, e))
  {
    EnterKeepsVisited(s, e);
    EnterKeepsUnexpired(s, e);
    EnterCountsVisitor(s, e);
  }

  /** Eviction spares the gate of every visitor. */
  lemma EnterKeepsVisited(s: State, e: Step)
    requires Counted(s) && Enabled(s, e) && e.Enter?
    ensures var n := Next(s, e);
      forall t | t in n.threads ::
        var id := n.threads[t].gate;
        id in n.gates && n.gates[id].key in n.table && n.table[n.gates[id].key] == id
  {
    var n := Next(s, e);
    assert n.table == Evicted(s)[e.key := n.threads[e.t].gate];
    forall u | u in s.threads ensures s.gates[s.threads[u].gate].key in Evicted(s) {
      VisitedGateHasUsers(s, u);
    }
  }

  /** And every gate not yet expired. */
  lemma EnterKeepsUnexpired(s: State, e: Step)
    requires Counted(s) && Enabled(s, e) && e.Enter?
    ensures var n := Next(s, e);
      && TableKnown(n)
      && (forall k | k in n.table :: n.gates[n.table[k]].key == k)
      && (forall id | id in n.gates && n.gates[id].nextAt > n.now ::
            n.gates[id].key in n.table && n.table[n.gates[id].key] == id)
  {
    assert Next(s, e).table == Evicted(s)[e.key := Next(s, e).threads[e.t].gate];
  }

  lemma EnterCountsVisitor(s: State, e: Step)
    requires Counted(s) && Enabled(s, e) && e.Enter?
    ensures forall id | id in Next(s, e).gates :: Next(s, e).gates[id].users == |Visitors(Next(s, e).threads, id)|
  {
    var n := Next(s, e);
    assert Visitors(s.threads, e.spare) == {};
    forall id | id in n.gates ensures n.gates[id].users == |Visitors(n.threads, id)| {
      VisitorsAfterEnter(s.threads, e.t, n.threads[e.t], id);
    }
  }

  lemma LeaveKeepsCounted(s: State, e: Step)
    requires Counted(s) && Enabled(s, e) && e.Leave?
    ensures Counted(Next(s, e))
  {
    var n := Next(s, e);
    forall id | id in n.gates ensures n.gates[id].users == |Visitors(n.threads, id)| {
      VisitorsAfterLeave(s.threads, e.t, id);
    }
  }

  lemma StepKeepsCounted(s: State, e: Step)
    requires Counted(s) && Enabled(s, e)
    ensures Counted(Next(s, e))
  {
    if e.Enter? {
      EnterKeepsCounted(s, e);
    } else if e.Leave? {
      LeaveKeepsCounted(s, e);
    } else if !e.Tick? {
      var (phase, gate) := Effect(s, e);
      AdvanceKeepsCounted(s, e.t, phase, gate);
    }
  }

  lemma EnterKeepsLocked(s: State, e: Step)
    requires Counted(s) && Locked(s) && Enabled(s, e) && e.Enter?
    ensures Locked(Next(s, e))
  {
    var n := Next(s, e);
    forall t | At(n, t) && t != e.t ensures At(s, t) && n.threads[t] == s.threads[t] {
    }
  }

  lemma EnterKeepsTimed(s: State, e: Step)
    requires Counted(s) && Timed(s) && Enabled(s, e) && e.Enter?
    ensures Timed(Next(s, e))
  {
    var n := Next(s, e);
    forall t | At(n, t) && t != e.t ensures At(s, t) && n.threads[t] == s.threads[t] {
    }
  }

  lemma EffectMovesLock(s: State, e: Step)
    requires Counted(s) && Locked(s) && Enabled(s, e)
    requires !e.Tick? && !e.Enter? && !e.Leave?
    ensures var (p, g) := Effect(s, e);
      && At(s, e.t)
      && (OwnsLock(p) <==> g.owner == Some(e.t))
      && (g.owner == GateOf(s, e.t).owner || GateOf(s, e.t).owner in {None, Some(e.t)})
      && g.owner in {GateOf(s, e.t).owner, None, Some(e.t)}
  {
    assert At(s, e.t);
  }

  lemma StepKeepsLocked(s: State, e: Step)
    requires Counted(s) && Locked(s) && Enabled(s, e)
    ensures Locked(Next(s, e))
  {
    if e.Enter? {
      EnterKeepsLocked(s, e);
    } else if e.Leave? {
    } else if !e.Tick? {
      EffectMovesLock(s, e);
      var (phase, gate) := Effect(s, e);
      AdvanceKeepsLocked(s, e.t, phase, gate);
    }
  }

  lemma LeaveKeepsTimed(s: State, e: Step)
    requires Timed(s) && Enabled(s, e) && e.Leave?
    ensures Timed(Next(s, e))
  {
    forall t | At(Next(s, e), t) ensures At(s, t) && Next(s, e).threads[t] == s.threads[t] {
    }
  }

  lemma EffectIsTimely(s: State, e: Step)
    requires Counted(s) && Locked(s) && Timed(s) && Enabled(s, e)
    requires !e.Tick? && !e.Enter? && !e.Leave?
    ensures var (p, g) := Effect(s, e);
      && At(s, e.t) && Timely(s.now, g, p)
      && (g.nextAt == GateOf(s, e.t).nextAt || GateOf(s, e.t).owner == Some(e.t))
  {
    assert At(s, e.t);
  }

  lemma StepKeepsTimed(s: State, e: Step)
    requires Counted(s) && Locked(s) && Timed(s) && Enabled(s, e)
    ensures Timed(Next(s, e))
  {
    if e.Enter? {
      EnterKeepsTimed(s, e);
    } else if e.Leave? {
      LeaveKeepsTimed(s, e);
    } else if !e.Tick? {
      EffectIsTimely(s, e);
      var (phase, gate) := Effect(s, e);
      AdvanceKeepsTimed(s, e.t, phase, gate);
    }
  }

  // ----- pacing -----

  /** The visitors of one key share one gate, so at most one of them owns a lock. */
  lemma OneOwnerPerKey(s: State, t: nat, u: nat)
    requires Counted(s) && Locked(s)
    requires t in s.threads && u in s.threads
    requires GateOf(s, t).key == GateOf(s, u).key
    requires OwnsLock(s.threads[t].phase) && OwnsLock(s.threads[u].phase)
    ensures t == u
  {
    assert At(s, t) && At(s, u);
  }

  lemma SoleOwner(s: State, t: nat)
    requires Counted(s) && Locked(s) && t in s.threads && OwnsLock(s.threads[t].phase)
    ensures forall u | At(s, u) && GateOf(s, u).key == GateOf(s, t).key && OwnsLock(s.threads[u].phase) :: u == t
  {
    forall u | At(s, u) && GateOf(s, u).key == GateOf(s, t).key && OwnsLock(s.threads[u].phase) ensures u == t {
      OneOwnerPerKey(s, t, u);
    }
  }

  lemma EnterKeepsEnforced(s: State, e: Step, m: Mutation)
    requires Counted(s) && Enabled(s, e) && e.Enter?
    requires Kept(s, m)
    ensures Kept(Next(s, e), m)
  {
    if m.end + MUTATION_INTERVAL > s.now {
      if m.end + MUTATION_INTERVAL > s.gates[s.table[m.key]].nextAt {
        var t :| Finishing(s.table, s.threads, m, t);
        VisitedGateHasUsers(s, t);
        assert Finishing(Next(s, e).table, Next(s, e).threads, m, t);
      }
    }
  }

  lemma AdvanceKeepsEnforced(s: State, t: nat, p: Phase, g: Gate, m: Mutation)
    requires Counted(s) && Timed(s) && At(s, t)
    requires g.key == GateOf(s, t).key && g.users == GateOf(s, t).users
    requires m.end <= s.now && Kept(s, m)
    requires g.nextAt == GateOf(s, t).nextAt || g.nextAt == s.now + MUTATION_INTERVAL
    requires s.threads[t].phase.Ended? ==> g.nextAt == s.now + MUTATION_INTERVAL
    ensures Counted(Advance(s, t, p, g)) && Kept(Advance(s, t, p, g), m)
  {
    AdvanceKeepsCounted(s, t, p, g);
    if m.end + MUTATION_INTERVAL <= s.now {
    } else if m.key in s.table && m.end + MUTATION_INTERVAL <= s.gates[s.table[m.key]].nextAt {
    } else {
      var u :| Finishing(s.table, s.threads, m, u);
      if u != t {
        assert Finishing(Advance(s, t, p, g).table, Advance(s, t, p, g).threads, m, u);
      }
    }
  }

  lemma LeaveKeepsEnforced(s: State, e: Step, m: Mutation)
    requires Counted(s) && Enabled(s, e) && e.Leave?
    requires Kept(s, m)
    ensures Counted(Next(s, e)) && Kept(Next(s, e), m)
  {
    LeaveKeepsCounted(s, e);
    if m.end + MUTATION_INTERVAL <= s.now {
    } else if m.key in s.table && m.end + MUTATION_INTERVAL <= s.gates[s.table[m.key]].nextAt {
    } else {
      var u :| Finishing(s.table, s.threads, m, u);
      assert Finishing(Next(s, e).table, Next(s, e).threads, m, u);
    }
  }

  lemma StepKeepsEnforced(s: State, e: Step, m: Mutation)
    requires Inv(s) && Enabled(s, e)
    requires m in s.done
    ensures Counted(Next(s, e)) && Kept(Next(s, e), m)
  {
    assert Kept(s, m);
    if e.Enter? {
      EnterKeepsCounted(s, e);
      EnterKeepsEnforced(s, e, m);
    } else if e.Leave? {
      LeaveKeepsEnforced(s, e, m);
    } else if !e.Tick? {
      assert At(s, e.t);
      var (phase, gate) := Effect(s, e);
      AdvanceKeepsEnforced(s, e.t, phase, gate, m);
    } else if t :| Finishing(s.table, s.threads, m, t) {
      assert Finishing(Next(s, e).table, Next(s, e).threads, m, t);
    }
  }

  /** A mutation about to begin is an interval away from every one done. */
  lemma BeginIsPaced(s: State, t: nat, m: Mutation)
    requires Inv(s) && Enabled(s, Begin(t))
    requires m in s.done && m.key == GateOf(s, t).key
    ensures m.end + MUTATION_INTERVAL <= s.now
  {
    assert Kept(s, m);
    SoleOwner(s, t);
  }

  lemma OnlyBeginStartsMutating(s: State, e: Step, t: nat)
    requires Counted(s) && Enabled(s, e) && e != Begin(t)
    requires t in Next(s, e).threads && Next(s, e).threads[t].phase.Mutating?
    ensures At(s, t) && Next(s, e).threads[t] == s.threads[t]
    ensures Next(s, e).gates[s.threads[t].gate].key == GateOf(s, t).key
  {
    if e.Enter? || e.Leave? || e.Tick? {
      StandingThreadMutates(s, e, t);
    }
  }

  lemma StandingThreadMutates(s: State, e: Step, t: nat)
    requires Counted(s) && Enabled(s, e) && (e.Enter? || e.Leave? || e.Tick?)
    requires t in Next(s, e).threads && Next(s, e).threads[t].phase.Mutating?
    ensures At(s, t) && Next(s, e).threads[t] == s.threads[t]
    ensures Next(s, e).gates[s.threads[t].gate].key == GateOf(s, t).key
  {
  }

  lemma StepKeepsSpacing(s: State, e: Step, t: nat, m: Mutation)
    requires Inv(s) && Enabled(s, e)
    requires At(Next(s, e), t) && Next(s, e).threads[t].phase.Mutating?
    requires m in Next(s, e).done && m.key == GateOf(Next(s, e), t).key
    ensures m.end + MUTATION_INTERVAL <= Next(s, e).threads[t].phase.since
  {
    if e == Begin(t) {
      BeginIsPaced(s, t, m);
    } else {
      OnlyBeginStartsMutating(s, e, t);
      SoleOwner(s, t);
    }
  }

  lemma StepKeepsEnded(s: State, e: Step, m: Mutation)
    requires Inv(s) && Enabled(s, e)
    requires m in Next(s, e).done
    ensures Counted(Next(s, e)) && m.start <= m.end <= Next(s, e).now && Kept(Next(s, e), m)
  {
    if m in s.done {
      StepKeepsEnforced(s, e, m);
    } else {
      StepKeepsCounted(s, e);
      assert At(s, e.t) && Finishing(Next(s, e).table, Next(s, e).threads, m, e.t);
    }
  }

  lemma StepKeepsOrder(s: State, e: Step, i: nat, j: nat)
    requires Inv(s) && Enabled(s, e)
    requires i < j < |Next(s, e).done| && Next(s, e).done[i].key == Next(s, e).done[j].key
    ensures Next(s, e).done[i].end + MUTATION_INTERVAL <= Next(s, e).done[j].start
  {
    if j == |s.done| {
      assert At(s, e.t) && Next(s, e).done[i] in s.done;
    }
  }

  lemma StepKeepsPaced(s: State, e: Step)
    requires Inv(s) && Enabled(s, e)
    ensures Counted(Next(s, e)) && Paced(Next(s, e))
  {
    var n := Next(s, e);
    StepKeepsCounted(s, e);
    forall m | m in n.done ensures m.start <= m.end <= n.now && Kept(n, m) {
      StepKeepsEnded(s, e, m);
    }
    forall t, m | At(n, t) && n.threads[t].phase.Mutating? && m in n.done && m.key == n.gates[n.threads[t].gate].key
      ensures m.end + MUTATION_INTERVAL <= n.threads[t].phase.since
    {
      StepKeepsSpacing(s, e, t, m);
    }
    forall i, j | 0 <= i < j < |n.done| && n.done[i].key == n.done[j].key
      ensures n.done[i].end + MUTATION_INTERVAL <= n.done[j].start
    {
      StepKeepsOrder(s, e, i, j);
    }
  }

  // ----- runs -----

  ghost predicate Run(states: seq<State>, steps: seq<Step>) {
    && |states| == |steps| + 1
    && Initial(states[0])
    && forall i | 0 <= i < |steps| :: Enabled(states[i], steps[i]) && states[i + 1] == Next(states[i], steps[i])
  }

  lemma {:induction false} RunKeepsInv(states: seq<State>, steps: seq<Step>, i: nat)
    requires Run(states, steps)
    requires i < |states|
    ensures Inv(states[i])
  {
    if i == 0 {
      InitialInv(states[0]);
    } else {
      RunKeepsInv(states, steps, i - 1);
      var s, e := states[i - 1], steps[i - 1];
      StepKeepsCounted(s, e);
      StepKeepsLocked(s, e);
      StepKeepsTimed(s, e);
      StepKeepsPaced(s, e);
    }
  }

  /** In every run of any number of threads: two threads mutating the same object
      are one thread, and same-object mutations are disjoint in time, each starting
      at least 1.1 s after every earlier one ended. */
  lemma MutationsArePaced(states: seq<State>, steps: seq<Step>, i: nat)
    requires Run(states, steps)
    requires i < |states|
    ensures var s := states[i];
      && (forall t, u | At(s, t) && At(s, u) && s.threads[t].phase.Mutating? && s.threads[u].phase.Mutating?
                     && GateOf(s, t).key == GateOf(s, u).key :: t == u)
      && (forall j, k | 0 <= j < k < |s.done| && s.done[j].key == s.done[k].key ::
            s.done[j].start <= s.done[j].end && s.done[j].end + 1.1 <= s.done[k].start)
      && (forall t, m | At(s, t) && s.threads[t].phase.Mutating? && m in s.done && m.key == GateOf(s, t).key ::
            m.end + 1.1 <= s.threads[t].phase.since)
  {
    RunKeepsInv(states, steps, i);
    var s := states[i];
    forall t, u | At(s, t) && At(s, u) && s.threads[t].phase.Mutating? && s.threads[u].phase.Mutating?
                && GateOf(s, t).key == GateOf(s, u).key
      ensures t == u
    {
      OneOwnerPerKey(s, t, u);
    }
    forall j | 0 <= j < |s.done| ensures s.done[j].start <= s.done[j].end {
      assert s.done[j] in s.done;
    }
  }

  /** At most one gate per key is in use or unexpired, and it is the table's:
      eviction never splits the waiters of an object. */
  lemma OneLiveGatePerKey(states: seq<State>, steps: seq<Step>, i: nat, id: nat)
    requires Run(states, steps)
    requires i < |states|
    requires id in states[i].gates
    requires states[i].gates[id].users > 0 || states[i].gates[id].nextAt > states[i].now
    ensures var s := states[i]; s.gates[id].key in s.table && s.table[s.gates[id].key] == id
  {
    RunKeepsInv(states, steps, i);
    var visitors := Visitors(states[i].threads, id);
    if visitors != {} {
      var t :| t in visitors;
    }
  }

  // ----- nothing waits longer than it must -----

  /** `t` is what `s` becomes by step `e`, which is possible. */
  ghost predicate Leads(s: State, e: Step, t: State) {
    Enabled(s, e) && t == Next(s, e)
  }

  /** Entering removes exactly the entries, other than the object's own, that nobody
      uses and whose time has come; the object's own is kept unless it is such. */
  lemma EnterEvictsExactly(s: State, e: Step, k: Key)
    requires Enabled(s, e) && e.Enter?
    ensures var n := Next(s, e); var gone := k !in s.table || (s.gates[s.table[k]].users == 0 && s.gates[s.table[k]].nextAt <= s.now);
      && (k != e.key ==> (k in n.table <==> !gone) && (k in n.table ==> n.table[k] == s.table[k]))
      && (k == e.key ==> k in n.table && n.table[k] == if gone then e.spare else s.table[k])
  {
  }

  /** When the next mutation of an object may start. */
  ghost function FreeAt(s: State, key: Key): real
    requires TableKnown(s)
  {
    if key in s.table && s.gates[s.table[key]].nextAt > s.now then s.gates[s.table[key]].nextAt else s.now
  }

  ghost predicate NobodyAt(s: State, key: Key) {
    forall t | At(s, t) :: GateOf(s, t).key != key
  }

  /** A thread that finds nobody at its object gets the lock and is told to wait for
      the gate's time, and not at all if that has come. */
  lemma UndisturbedStart(states: seq<State>, steps: seq<Step>, i: nat, t: nat, key: Key, spare: nat)
    returns (entered: State, holding: State, pausing: State, waited: State, begun: State)
    requires Run(states, steps) && i < |states| && states[i].now >= 0.0
    requires t !in states[i].threads && spare !in states[i].gates && NobodyAt(states[i], key)
    ensures TableKnown(states[i]) && Leads(states[i], Enter(t, key, spare), entered)
    ensures Leads(entered, Acquire(t), holding) && Leads(holding, ReadPause(t), pausing)
    ensures Leads(pausing, Tick(FreeAt(states[i], key) - states[i].now), waited) && Leads(waited, Begin(t), begun)
    ensures begun.now == FreeAt(states[i], key) && begun.done == states[i].done
    ensures begun.threads.Keys == states[i].threads.Keys + {t}
    ensures AloneAt(begun, t, key) && begun.threads[t].phase == Mutating(FreeAt(states[i], key))
  {
    RunKeepsInv(states, steps, i);
    var e := Enter(t, key, spare);
    entered := Next(states[i], e);
    EnteredAlone(states[i], e);
    holding, pausing, waited, begun := StartAlone(entered, t, FreeAt(states[i], key));
  }

  /** `t` is the only one at the gate that the table holds under `key`. */
  ghost predicate AloneAt(s: State, t: nat, key: Key) {
    && At(s, t) && GateOf(s, t).key == key && GateOf(s, t).users == 1
    && key in s.table && s.table[key] == s.threads[t].gate
  }

  lemma EnteredAlone(s: State, e: Step)
    requires Inv(s) && Enabled(s, e) && e.Enter? && NobodyAt(s, e.key) && s.now >= 0.0
    ensures var n := Next(s, e);
      && TableKnown(n) && n.now == s.now && n.done == s.done && n.threads.Keys == s.threads.Keys + {e.t}
      && AloneAt(n, e.t, e.key) && n.threads[e.t].phase == Queued && GateOf(n, e.t).owner == None
      && FreeAt(s, e.key) == if GateOf(n, e.t).nextAt > s.now then GateOf(n, e.t).nextAt else s.now
  {
    if e.key in s.table {
      var id := s.table[e.key];
      assert s.gates[id].key == e.key;
      forall t | t in s.threads ensures s.threads[t].gate != id {
        assert At(s, t);
      }
      assert Visitors(s.threads, id) == {};
    }
  }

  lemma StartAlone(entered: State, t: nat, free: real)
    returns (holding: State, pausing: State, waited: State, begun: State)
    requires TableKnown(entered) && At(entered, t)
    requires entered.threads[t].phase == Queued && GateOf(entered, t).owner == None
    requires free == if GateOf(entered, t).nextAt > entered.now then GateOf(entered, t).nextAt else entered.now
    ensures Leads(entered, Acquire(t), holding) && Leads(holding, ReadPause(t), pausing)
    ensures Leads(pausing, Tick(free - entered.now), waited) && Leads(waited, Begin(t), begun)
    ensures begun.now == free && begun.done == entered.done && begun.table == entered.table
    ensures begun.threads == entered.threads[t := Visit(entered.threads[t].gate, Mutating(free))]
    ensures begun.gates == entered.gates[entered.threads[t].gate := GateOf(entered, t).(owner := Some(t))]
  {
    var id := entered.threads[t].gate;
    holding := Next(entered, Acquire(t));
    assert GateOf(holding, t) == GateOf(entered, t).(owner := Some(t));
    pausing := Next(holding, ReadPause(t));
    assert pausing.threads[t] == Visit(id, Pausing(free));
    waited := Next(pausing, Tick(free - entered.now));
    begun := Next(waited, Begin(t));
  }

  /** Once begun it ends when its body does, and leaves nobody at the object and the
      gate closed for the interval. */
  lemma UndisturbedEnd(s: State, t: nat, key: Key, lasts: real)
    returns (passed: State, ended: State, stamped: State, released: State, left: State)
    requires TableKnown(s) && AloneAt(s, t, key) && s.threads[t].phase.Mutating? && lasts >= 0.0
    ensures Leads(s, Tick(lasts), passed) && Leads(passed, End(t), ended) && Leads(ended, Stamp(t), stamped)
    ensures Leads(stamped, Release(t), released) && Leads(released, Leave(t), left)
    ensures left.threads == s.threads - {t} && left.now == s.now + lasts && left.table == s.table
    ensures left.done == s.done + [Mutation(key, s.threads[t].phase.since, s.now + lasts)]
    ensures left.gates == s.gates[s.threads[t].gate := Gate(key, None, s.now + lasts + 1.1, 0)]
  {
    passed := Next(s, Tick(lasts));
    ended, stamped := EndAndStamp(passed, t, key);
    released, left := ReleaseAndLeave(stamped, t);
  }

  lemma EndAndStamp(s: State, t: nat, key: Key) returns (ended: State, stamped: State)
    requires TableKnown(s) && At(s, t) && GateOf(s, t).key == key && s.threads[t].phase.Mutating?
    ensures Leads(s, End(t), ended) && Leads(ended, Stamp(t), stamped)
    ensures stamped.now == s.now && stamped.table == s.table
    ensures stamped.threads == s.threads[t := Visit(s.threads[t].gate, Releasing)]
    ensures stamped.gates == s.gates[s.threads[t].gate := GateOf(s, t).(nextAt := s.now + 1.1)]
    ensures stamped.done == s.done + [Mutation(key, s.threads[t].phase.since, s.now)]
  {
    ended := Next(s, End(t));
    stamped := Next(ended, Stamp(t));
  }

  lemma ReleaseAndLeave(s: State, t: nat) returns (released: State, left: State)
    requires TableKnown(s) && At(s, t) && s.threads[t].phase == Releasing
    ensures Leads(s, Release(t), released) && Leads(released, Leave(t), left)
    ensures left.now == s.now && left.table == s.table && left.done == s.done && left.threads == s.threads - {t}
    ensures left.gates == s.gates[s.threads[t].gate := GateOf(s, t).(owner := None, users := GateOf(s, t).users - 1)]
  {
    released := Next(s, Release(t));
    left := Next(released, Leave(t));
  }
}
