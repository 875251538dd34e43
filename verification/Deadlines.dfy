/** Nested operation budgets that share one cleanup allowance
    (src/usagebassoon/deadlines.py, `Deadline`, `operation`, `limited`,
    `cleanup_budget`, `SupervisedResource._terminate`). */
module Deadlines {
  import opened Wrappers

  const CLEANUP_SECONDS: real := 15.0

  datatype Error = Timeout

  function Earlier(a: real, b: real): real {
    if a <= b then a else b
  }

  /** The monotonic clock under a given schedule: how much time passes before each
      of the coming readings. */
  class Clock {
    var now: real
    var delays: seq<real>

    constructor (start: real, delays: seq<real>)
      ensures now == start && this.delays == delays
    {
      now := start;
      this.delays := delays;
    }

    method Monotonic() returns (t: real)
      modifies this
      ensures t == now && now >= old(now)
      ensures now == old(now) + if old(delays) != [] && old(delays)[0] > 0.0 then old(delays)[0] else 0.0
      ensures delays == if old(delays) == [] then [] else old(delays)[1..]
    {
      if delays != [] {
        now := if delays[0] > 0.0 then now + delays[0] else now;
        delays := delays[1..];
      }
      t := now;
    }
  }

  class Deadline {
    var expires: real
    const parent: Deadline?
    var cleanup: Deadline?
    ghost const depth: nat
    ghost const root: Deadline

    constructor (expires: real, parent: Deadline?)
      requires parent != null ==> parent.Chained()
      ensures Chained()
      ensures this.expires == expires && this.parent == parent && cleanup == null
      ensures root == if parent == null then this else parent.root
    {
      this.expires := expires;
      this.parent := parent;
      this.cleanup := null;
      if parent == null {
        this.depth := 0;
        this.root := this;
      } else {
        this.depth := parent.depth + 1;
        this.root := parent.root;
      }
    }

    /** Following parents ends at `root`. */
    ghost predicate Chained()
      decreases depth
    {
      if parent == null then root == this
      else depth > parent.depth && root == parent.root && parent.Chained()
    }

    /** If the root has allocated its allowance, that deadline is its own allowance. */
    ghost predicate SharesCleanup()
      reads root, if root.cleanup == null then {} else {root.cleanup}
    {
      root.cleanup != null ==>
        var c := root.cleanup; c.parent == null && c.root == c && c.cleanup == c
    }

    method Remaining(clock: Clock, cap: Option<real>) returns (r: Result<real, Error>)
      modifies clock
      ensures clock.now >= old(clock.now) && (old(clock.delays) == [] ==> clock.now == old(clock.now) && clock.delays == [])
      ensures r.Success? <==> expires > clock.now
      ensures r.Success? ==>
        r.value == if cap.Some? then Earlier(cap.value, expires - clock.now) else expires - clock.now
    {
      var now := clock.Monotonic();
      var remaining := expires - now;
      if remaining <= 0.0 {
        return Failure(Timeout);
      }
      return Success(if cap.Some? then Earlier(cap.value, remaining) else remaining);
    }

    /** A deadline of at most `seconds` under this one, never beyond it. */
    method Limited(clock: Clock, seconds: real) returns (r: Result<Deadline, Error>)
      requires Chained()
      modifies clock
      ensures r.Failure? ==> seconds <= 0.0 || expires <= clock.now
      ensures r.Success? ==>
        && fresh(r.value) && r.value.Chained() && r.value.parent == this && r.value.root == root && r.value.cleanup == null
        && r.value.expires <= expires && r.value.expires <= clock.now + seconds
      ensures old(clock.delays) == [] ==>
        && clock.now == old(clock.now) && clock.delays == []
        && (seconds > 0.0 && expires > clock.now ==> r.Success?)
        && (r.Success? ==> r.value.expires == Earlier(clock.now + seconds, expires))
    {
      if seconds <= 0.0 {
        return Failure(Timeout);
      }
      var remaining := Remaining(clock, Some(seconds));
      if remaining.Failure? {
        return Failure(Timeout);
      }
      var now := clock.Monotonic();
      var deadline := new Deadline(Earlier(now + remaining.value, expires), this);
      return Success(deadline);
    }

    /** One allowance per root: the first caller allocates it, all others get it. */
    method Cleanup(clock: Clock) returns (c: Deadline)
      requires Chained() && SharesCleanup()
      modifies clock, root`cleanup
      ensures clock.now >= old(clock.now) && (old(clock.delays) == [] ==> clock.now == old(clock.now) && clock.delays == [])
      ensures c == root.cleanup && SharesCleanup() && c.Chained()
      ensures old(root.cleanup) != null ==> c == old(root.cleanup)
      ensures old(root.cleanup) == null ==> fresh(c) && c.expires == clock.now + CLEANUP_SECONDS
      decreases depth
    {
      if parent != null {
        c := parent.Cleanup(clock);
        return;
      }
      if cleanup == null {
        var now := clock.Monotonic();
        c := new Deadline(now + CLEANUP_SECONDS, null);
        c.cleanup := c;
        cleanup := c;
      }
      c := cleanup;
    }
  }

  /** The deadlines of one operation: its root, the nested scopes, the current one
      and the suspended ones that leaving a scope returns to. */
  class Scopes {
    const clock: Clock
    const origin: Deadline
    var current: Deadline
    var suspended: seq<Deadline>
    ghost var all: set<Deadline>

    /** The outermost `operation(seconds)`. */
    constructor (clock: Clock, expires: real)
      ensures Valid() && fresh(origin) && fresh(all) && this.clock == clock
      ensures origin.expires == expires && origin.cleanup == null
      ensures current == origin && suspended == []
    {
      var root := new Deadline(expires, null);
      this.clock := clock;
      origin := root;
      current := root;
      suspended := [];
      all := {root};
    }

    /** The root of one request in the child: the parent's expiry, and for a cleanup
        request the root is its own allowance. */
    constructor ForRequest(clock: Clock, expires: real, cleanup: bool)
      ensures Valid() && fresh(origin) && fresh(all) && this.clock == clock
      ensures origin.expires == expires && origin.cleanup == if cleanup then origin else null
      ensures current == origin && suspended == []
    {
      var root := new Deadline(expires, null);
      if cleanup {
        root.cleanup := root;
      }
      this.clock := clock;
      origin := root;
      current := root;
      suspended := [];
      all := {root};
    }

    /** A foreground deadline belongs to the tree of a root that is not its own
        allowance, the others to the tree of the allowance. */
    ghost predicate Foreground(d: Deadline)
      reads origin
    {
      d.root == origin && origin.cleanup != origin
    }

    ghost predicate Valid()
      reads this, all
    {
      && origin in all && current in all && (forall d | d in suspended :: d in all)
      && origin.parent == null
      && (origin.cleanup != null ==>
            var c := origin.cleanup;
            c in all && c.parent == null && c.root == c && c.cleanup == c)
      && forall d | d in all ::
           && d.Chained()
           && (d.parent != null ==> d.parent in all && d.cleanup == null)
           && (d.root == origin || (origin.cleanup != null && d.root == origin.cleanup))
           && (Foreground(d) && d.parent != null ==> d.expires <= d.parent.expires)
    }

    /** No deadline moved, except that the allocated allowance may have shrunk; an
        allowance once allocated is never replaced, nor is it ever the root itself
        unless it was from the start. */
    twostate predicate Steady()
      reads this, all, origin
    {
      && old(all) <= all
      && (forall d | d in old(all) ::
            d.expires == old(d.expires) || (d == old(origin.cleanup) && d.expires < old(d.expires)))
      && (old(origin.cleanup) != null ==> origin.cleanup == old(origin.cleanup))
      && (origin.cleanup == origin ==> old(origin.cleanup) == origin)
    }

    /** The scopes opened inside the allowance stay inside their parents too. */
    ghost predicate Contained()
      reads this, all
    {
      forall d | d in all && d.parent != null && d.parent in all :: d.expires <= d.parent.expires
    }

    /** `operation(seconds)` inside a budget: the budget is reused. */
    method EnterOperation() returns (r: Result<(), Error>)
      requires Valid()
      modifies this`suspended, clock
      ensures Valid() && Steady()
      ensures r.Success? <==> current.expires > clock.now
      ensures suspended == if r.Success? then old(suspended) + [current] else old(suspended)
      ensures old(Contained()) ==> Contained()
    {
      var remaining := current.Remaining(clock, None);
      if remaining.Failure? {
        return Failure(remaining.error);
      }
      suspended := suspended + [current];
      return Success(());
    }

    /** `limited(seconds)`: never beyond the deadline it is opened under. */
    method EnterLimited(seconds: real) returns (r: Result<(), Error>)
      requires Valid()
      modifies this, clock
      ensures Valid() && Steady() && fresh(all - old(all))
      ensures r.Failure? ==> current == old(current) && suspended == old(suspended) && all == old(all)
      ensures r.Failure? ==> seconds <= 0.0 || current.expires <= clock.now
      ensures old(Contained()) ==> Contained()
      ensures r.Success? ==>
        && fresh(current) && all == old(all) + {current}
        && current.parent == old(current) && suspended == old(suspended) + [old(current)]
        && current.expires <= old(current).expires && current.expires <= clock.now + seconds
      ensures old(clock.delays) == [] ==>
        && clock.now == old(clock.now) && clock.delays == []
        && (seconds > 0.0 && old(current).expires > clock.now ==> r.Success?)
        && (r.Success? ==> current.expires == Earlier(clock.now + seconds, old(current).expires))
    {
      var limited := current.Limited(clock, seconds);
      if limited.Failure? {
        return Failure(limited.error);
      }
      suspended := suspended + [current];
      all := all + {limited.value};
      current := limited.value;
      return Success(());
    }

    /** `cleanup_budget()`: whatever the current scope, the root's one allowance. */
    method EnterCleanup()
      requires Valid()
      modifies this, all, clock
      ensures Valid() && Steady() && fresh(all - old(all))
      ensures origin.cleanup != null && current == origin.cleanup
      ensures suspended == old(suspended) + [old(current)]
      ensures clock.now >= old(clock.now) && (old(clock.delays) == [] ==> clock.now == old(clock.now) && clock.delays == [])
      ensures old(origin.cleanup) == null ==> current.expires == clock.now + CLEANUP_SECONDS
      ensures all == old(all) + {current}
      ensures old(Contained()) ==> Contained()
    {
      var c := current.Cleanup(clock);
      suspended := suspended + [current];
      all := all + {c};
      current := c;
    }

    /** Leaving a scope restores the previous one; a limited scope or an operation
        that overran its budget reports it. */
    method Leave() returns (inTime: bool)
      requires Valid() && suspended != []
      modifies this`current, this`suspended, clock
      ensures Valid() && Steady()
      ensures current == old(suspended)[|old(suspended)| - 1]
      ensures suspended == old(suspended)[..|old(suspended)| - 1]
      ensures inTime <==> old(current).expires > clock.now
      ensures old(Contained()) ==> Contained()
    {
      var remaining := current.Remaining(clock, None);
      inTime := remaining.Success?;
      current := suspended[|suspended| - 1];
      suspended := suspended[..|suspended| - 1];
    }

    /** The budget part of `_terminate(deadline)`: the allowance is capped relative
        to the deadline of the exchange that failed. */
    method Terminate(deadline: Deadline)
      requires Valid() && deadline in all
      modifies this, all, clock
      ensures Valid() && Steady() && fresh(all - old(all))
      ensures current == old(current) && suspended == old(suspended)
      ensures origin.cleanup != null
      ensures clock.now >= old(clock.now) && (old(clock.delays) == [] ==> clock.now == old(clock.now) && clock.delays == [])
      ensures var granted := if old(origin.cleanup) == null then clock.now + CLEANUP_SECONDS
                             else old(origin.cleanup.expires);
              var cap := if old(deadline.cleanup) == deadline then old(deadline.expires)
                         else old(deadline.expires) + CLEANUP_SECONDS;
              && origin.cleanup.expires == (if granted <= cap then granted else cap)
              && (old(Contained()) ==> (Contained() <==> old(EndBy(cap))))
    {
      var cap := if deadline.cleanup == deadline then deadline.expires else deadline.expires + CLEANUP_SECONDS;
      var c := deadline.Cleanup(clock);
      all := all + {c};
      c.expires := Earlier(c.expires, cap);
      CappingContains(cap);
    }

    /** Once the allowance is capped, containment rests on the scopes opened in it. */
    twostate lemma CappingContains(cap: real)
      requires old(Valid()) && origin.cleanup != null && all == old(all) + {origin.cleanup}
      requires origin.cleanup.parent == null
      requires if old(origin.cleanup) == null then origin.cleanup !in old(all)
               else origin.cleanup == old(origin.cleanup) && origin.cleanup.expires == Earlier(old(origin.cleanup.expires), cap)
      requires forall d | d in old(all) && d != origin.cleanup :: d.expires == old(d.expires)
      ensures old(Contained()) ==> (Contained() <==> old(EndBy(cap)))
    {
      forall d | d in all && d.parent != null ensures d in old(all) && d != origin.cleanup && d.parent in old(all) {
      }
    }

    /** No scope opened directly in the allowance ends after `cap`. */
    ghost predicate EndBy(cap: real)
      reads this, all, origin
    {
      forall d | d in all && d.parent != null && d.parent == origin.cleanup :: d.expires <= cap
    }
  }

  /** Whichever deadlines of the operation ask, in or out of cleanup, they are
      given one object, and asking that object gives it again. */
  method EveryRequestGetsOneAllowance(scopes: Scopes, d: Deadline, e: Deadline)
    returns (a: Deadline, b: Deadline, c: Deadline)
    requires scopes.Valid() && d in scopes.all && e in scopes.all
    modifies scopes.clock, scopes.all
    ensures a == b == c == scopes.origin.cleanup
    ensures old(scopes.origin.cleanup) != null ==> a == old(scopes.origin.cleanup)
  {
    a := d.Cleanup(scopes.clock);
    b := e.Cleanup(scopes.clock);
    c := b.Cleanup(scopes.clock);
  }

  // ----- whole runs -----

  datatype Command = Operate | Limit(seconds: real) | CleanUp | Exit | Kill

  /** Any sequence of nested scopes and terminations, each on the then-current
      deadline: foreground scopes stay inside their parents, the allowance is
      allocated once for all of them and only ever shrinks. */
  method Perform(scopes: Scopes, script: seq<Command>)
    requires scopes.Valid()
    modifies scopes, scopes.all, scopes.clock
    ensures scopes.Valid() && scopes.Steady()
  {
    for i := 0 to |script|
      invariant scopes.Valid() && scopes.Steady()
      invariant fresh(scopes.all - old(scopes.all))
    {
      match script[i]
      case Operate => var _ := scopes.EnterOperation();
      case Limit(seconds) => var _ := scopes.EnterLimited(seconds);
      case CleanUp => scopes.EnterCleanup();
      case Exit => if scopes.suspended != [] { var _ := scopes.Leave(); }
      case Kill => scopes.Terminate(scopes.current);
    }
  }

  /** A request limited to one second, still open four seconds too late. */
  method OverdueRequest() returns (scopes: Scopes, request: Deadline)
    ensures scopes.Valid() && fresh(scopes) && fresh(scopes.all) && fresh(scopes.clock)
    ensures scopes.clock.now == 5.0 && scopes.clock.delays == []
    ensures scopes.origin.cleanup == null
    ensures request == scopes.current && request in scopes.all
    ensures request.cleanup == null && request.expires == 1.0
  {
    var clock := new Clock(0.0, []);
    scopes := new Scopes(clock, 100.0);
    var ok := scopes.EnterLimited(1.0);
    request := scopes.current;
    clock.now := 5.0;
  }

  /** Then cleanup, with a limited scope open in the allowance. */
  method OpenScopeInAllowance() returns (scopes: Scopes, request: Deadline, inner: Deadline)
    ensures scopes.Valid() && fresh(scopes) && fresh(scopes.all) && fresh(scopes.clock)
    ensures request in scopes.all && request.cleanup != request && request.expires == 1.0
    ensures inner in scopes.all && inner.parent != null && inner.parent == scopes.origin.cleanup
    ensures inner.expires == 5.0 + CLEANUP_SECONDS
  {
    scopes, request := OverdueRequest();
    scopes.EnterCleanup();
    var ok := scopes.EnterLimited(CLEANUP_SECONDS);
    inner := scopes.current;
  }

  /** The containment does not extend to scopes inside the allowance: terminating
      a resource whose own limited deadline passed earlier shrinks the allowance
      below a scope already open in it. */
  method LimitedScopeOutlivesShrunkAllowance() returns (scopes: Scopes, inner: Deadline)
    ensures scopes.Valid() && inner in scopes.all
    ensures inner.parent != null && inner.parent == scopes.origin.cleanup
    ensures inner.expires > inner.parent.expires
  {
    var request;
    scopes, request, inner := OpenScopeInAllowance();
    scopes.Terminate(request);
  }
}
