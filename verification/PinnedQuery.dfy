/** Expansion of installed views and pinning of reads to one instant
    (src/usagebassoon/backends/bigquery.py, `_pinned_query`). */
module PinnedQuery {
  import opened Wrappers

  /** The `FOR SYSTEM_TIME AS OF` clause of a table reference. */
  datatype Version = Live | AsOfRead | AsOf(instant: int)

  /** A query tree.  Every clause that neither names a table, opens a CTE scope
      nor reads the clock is a `Leaf` or a `Compose`; longer clauses nest.  An
      absent CURRENT_DATE zone is `Leaf("")`. */
  datatype Query =
    | Table(catalog: string, db: string, name: string, alias: string, version: Version)
    | Subquery(body: Query, alias: string)
    | Leaf(op: string)
    | Compose(op: string, left: Query, right: Query)
    | With(name: string, definition: Query, body: Query)
    | CurrentTimestamp
    | CurrentDate(zone: Query)
    | ReadParameter
    | DateOf(stamp: Query, zone: Query)

  datatype Statement = Read(query: Query) | Write

  datatype Warehouse = Warehouse(
    project: string, dataset: string, physical: set<string>, views: map<string, Statement>)

  datatype Rejection =
    | NotAQuery
    | ForeignTable(name: string)
    | CyclicView(name: string)
    | UnavailableRelation(name: string)

  predicate Local(w: Warehouse, catalog: string, db: string) {
    catalog in {"", w.project} && db in {"", w.dataset}
  }

  function Visible(name: string, alias: string): string {
    if alias == "" then name else alias
  }

  // ----- the rewrite -----

  /** How many views are not yet being expanded. */
  function Unvisited(w: Warehouse, ancestors: set<string>): nat {
    |w.views.Keys - ancestors|
  }

  lemma DescendingVisitsFewer(w: Warehouse, name: string, ancestors: set<string>)
    requires name in w.views && name !in ancestors
    ensures Unvisited(w, ancestors + {name}) < Unvisited(w, ancestors)
  {
    assert w.views.Keys - ancestors == (w.views.Keys - (ancestors + {name})) + {name};
  }

  function Expand(w: Warehouse, q: Query, ctes: set<string>, ancestors: set<string>)
    : (r: Result<Query, Rejection>)
    requires ancestors <= w.views.Keys
    decreases Unvisited(w, ancestors), q
  {
    match q
    case Table(catalog, db, name, alias, version) =>
      if db == "" && name in ctes then
        Success(q)
      else if !Local(w, catalog, db) then
        Failure(ForeignTable(name))
      else if name in w.views then
        if name in ancestors then
          Failure(CyclicView(name))
        else
          DescendingVisitsFewer(w, name, ancestors);
          var definition :- ExpandStatement(w, w.views[name], ancestors + {name});
          Success(Subquery(definition, Visible(name, alias)))
      else if name in w.physical then
        Success(Table(w.project, w.dataset, name, alias, AsOfRead))
      else
        Failure(UnavailableRelation(name))
    case Subquery(body, alias) =>
      var b :- Expand(w, body, ctes, ancestors);
      Success(Subquery(b, alias))
    case Compose(op, left, right) =>
      var l :- Expand(w, left, ctes, ancestors);
      var r :- Expand(w, right, ctes, ancestors);
      Success(Compose(op, l, r))
    case With(name, definition, body) =>
      var d :- Expand(w, definition, ctes, ancestors);
      var b :- Expand(w, body, ctes + {name}, ancestors);
      Success(With(name, d, b))
    case CurrentDate(zone) =>
      var z :- Expand(w, zone, ctes, ancestors);
      Success(CurrentDate(z))
    case DateOf(stamp, zone) =>
      var s :- Expand(w, stamp, ctes, ancestors);
      var z :- Expand(w, zone, ctes, ancestors);
      Success(DateOf(s, z))
    case Leaf(_) => Success(q)
    case CurrentTimestamp => Success(q)
    case ReadParameter => Success(q)
  }

  function ExpandStatement(w: Warehouse, s: Statement, ancestors: set<string>)
    : (r: Result<Query, Rejection>)
    requires ancestors <= w.views.Keys
    decreases Unvisited(w, ancestors), s
  {
    match s
    case Write => Failure(NotAQuery)
    case Read(query) => Expand(w, query, {}, ancestors)
  }

  /** Replaces the two clock nodes.  A replaced node is not visited again, so the
      zone of a CURRENT_DATE is kept as it stands. */
  function Pin(q: Query): Query {
    match q
    case CurrentTimestamp => ReadParameter
    case CurrentDate(zone) => DateOf(ReadParameter, zone)
    case Subquery(body, alias) => Subquery(Pin(body), alias)
    case Compose(op, left, right) => Compose(op, Pin(left), Pin(right))
    case With(name, definition, body) => With(name, Pin(definition), Pin(body))
    case DateOf(stamp, zone) => DateOf(Pin(stamp), Pin(zone))
    case Table(_, _, _, _, _) => q
    case Leaf(_) => q
    case ReadParameter => q
  }

  function Rewrite(w: Warehouse, s: Statement): Result<Query, Rejection> {
    var expanded :- ExpandStatement(w, s, {});
    Success(Pin(expanded))
  }

  // ----- what a query means -----

  /** Any interpretation of the operators over any domain of values. */
  datatype Algebra<!V> = Algebra(
    bind: (string, V) -> V,
    leaf: string -> V,
    compose: (string, V, V) -> V,
    stamp: int -> V,
    date: (V, V) -> V,
    contents: (string, int) -> V)

  /** Running: the engine executes at `now` with @doctor_read_at bound to
      `readAt`.  Frozen: every base read and every clock is held at `at`. */
  datatype Clock = Running(now: int, readAt: int) | Frozen(at: int)

  function Now(clock: Clock): int {
    if clock.Frozen? then clock.at else clock.now
  }

  function Parameter(clock: Clock): int {
    if clock.Frozen? then clock.at else clock.readAt
  }

  function ReadInstant(clock: Clock, version: Version): int {
    if clock.Frozen? then clock.at
    else match version
      case Live => clock.now
      case AsOfRead => clock.readAt
      case AsOf(instant) => instant
  }

  /** The value of a query under CTE bindings `env`, following views to nesting
      `depth`; a view body sees no CTE of its caller.  None: not evaluable. */
  function Evaluate<V>(w: Warehouse, a: Algebra<V>, q: Query, env: map<string, V>, clock: Clock, depth: nat)
    : Option<V>
    decreases depth, q
  {
    match q
    case Table(catalog, db, name, alias, version) =>
      var shown := if alias != "" then alias else name;
      if db == "" && name in env then
        Some(a.bind(shown, env[name]))
      else if !Local(w, catalog, db) then
        None
      else if name in w.views then
        if depth == 0 || w.views[name].Write? then
          None
        else
          var v :- Evaluate(w, a, w.views[name].query, map[], clock, depth - 1);
          Some(a.bind(shown, v))
      else if name in w.physical then
        Some(a.bind(shown, a.contents(name, ReadInstant(clock, version))))
      else
        None
    case Subquery(body, alias) =>
      var b :- Evaluate(w, a, body, env, clock, depth);
      Some(a.bind(alias, b))
    case Leaf(op) => Some(a.leaf(op))
    case Compose(op, left, right) =>
      var l :- Evaluate(w, a, left, env, clock, depth);
      var r :- Evaluate(w, a, right, env, clock, depth);
      Some(a.compose(op, l, r))
    case With(name, definition, body) =>
      var d :- Evaluate(w, a, definition, env, clock, depth);
      Evaluate(w, a, body, env[name := d], clock, depth)
    case CurrentTimestamp => Some(a.stamp(Now(clock)))
    case CurrentDate(zone) =>
      var z :- Evaluate(w, a, zone, env, clock, depth);
      Some(a.date(a.stamp(Now(clock)), z))
    case ReadParameter => Some(a.stamp(Parameter(clock)))
    case DateOf(stamp, zone) =>
      var s :- Evaluate(w, a, stamp, env, clock, depth);
      var z :- Evaluate(w, a, zone, env, clock, depth);
      Some(a.date(s, z))
  }

  // ----- clocks left behind -----

  predicate ClockFree(q: Query) {
    match q
    case CurrentTimestamp => false
    case CurrentDate(_) => false
    case Subquery(body, _) => ClockFree(body)
    case Compose(_, left, right) => ClockFree(left) && ClockFree(right)
    case With(_, definition, body) => ClockFree(definition) && ClockFree(body)
    case DateOf(stamp, zone) => ClockFree(stamp) && ClockFree(zone)
    case Table(_, _, _, _, _) => true
    case Leaf(_) => true
    case ReadParameter => true
  }

  /** No CURRENT_DATE zone contains a clock node. */
  predicate ZonesClockFree(q: Query) {
    match q
    case CurrentDate(zone) => ClockFree(zone)
    case Subquery(body, _) => ZonesClockFree(body)
    case Compose(_, left, right) => ZonesClockFree(left) && ZonesClockFree(right)
    case With(_, definition, body) => ZonesClockFree(definition) && ZonesClockFree(body)
    case DateOf(stamp, zone) => ZonesClockFree(stamp) && ZonesClockFree(zone)
    case _ => true
  }

  lemma {:induction false} ClockFreeIsFixed(q: Query)
    requires ClockFree(q)
    ensures Pin(q) == q
  {
    match q
    case Subquery(body, _) => ClockFreeIsFixed(body);
    case Compose(_, left, right) => ClockFreeIsFixed(left); ClockFreeIsFixed(right);
    case With(_, definition, body) => ClockFreeIsFixed(definition); ClockFreeIsFixed(body);
    case DateOf(stamp, zone) => ClockFreeIsFixed(stamp); ClockFreeIsFixed(zone);
    case _ =>
  }

  /** A clock survives pinning exactly when it stood inside a CURRENT_DATE zone. */
  lemma {:induction false} PinRemovesClocksOutsideZones(q: Query)
    ensures ClockFree(Pin(q)) <==> ZonesClockFree(q)
  {
    match q
    case Subquery(body, _) => PinRemovesClocksOutsideZones(body);
    case Compose(_, left, right) => PinRemovesClocksOutsideZones(left); PinRemovesClocksOutsideZones(right);
    case With(_, definition, body) => PinRemovesClocksOutsideZones(definition); PinRemovesClocksOutsideZones(body);
    case DateOf(stamp, zone) => PinRemovesClocksOutsideZones(stamp); PinRemovesClocksOutsideZones(zone);
    case _ =>
  }

  // ----- the rewrite preserves meaning -----

  ghost predicate Agrees<V>(env: map<string, V>, outer: map<string, V>) {
    forall n | n in env :: n in outer && outer[n] == env[n]
  }

  /** The expansion `e` of `q`, run at the captured instant under any larger CTE
      environment and any nesting allowance, has the value `q` has when frozen. */
  ghost predicate SameMeaning<V>(
    w: Warehouse, a: Algebra<V>, q: Query, e: Query, env: map<string, V>, outer: map<string, V>,
    readAt: int, depth: nat, spare: nat)
  {
    var v := Evaluate(w, a, q, env, Frozen(readAt), depth);
    v.Some? && Evaluate(w, a, e, outer, Running(readAt, readAt), spare) == v
  }

  /** `outer` may hold, besides the bindings `q` can see, any CTE of a caller into
      whose scope the expanded body is spliced: none of them is captured. */
  lemma {:induction false} ExpandPreservesMeaning<V>(
    w: Warehouse, a: Algebra<V>, q: Query, e: Query, ancestors: set<string>,
    env: map<string, V>, outer: map<string, V>, readAt: int, depth: nat, spare: nat)
    requires ancestors <= w.views.Keys && w.dataset != ""
    requires Expand(w, q, env.Keys, ancestors) == Success(e)
    requires Agrees(env, outer)
    requires depth >= Unvisited(w, ancestors)
    ensures SameMeaning(w, a, q, e, env, outer, readAt, depth, spare)
    decreases Unvisited(w, ancestors), 1, q, 0
  {
    match q
    case Table(_, _, _, _, _) =>
      TablePreservesMeaning(w, a, q, e, ancestors, env, outer, readAt, depth, spare);
    case Subquery(body, _) =>
      ExpandPreservesMeaning(w, a, body, e.body, ancestors, env, outer, readAt, depth, spare);
    case Compose(_, left, right) =>
      ExpandPreservesMeaning(w, a, left, e.left, ancestors, env, outer, readAt, depth, spare);
      ExpandPreservesMeaning(w, a, right, e.right, ancestors, env, outer, readAt, depth, spare);
    case With(name, definition, body) =>
      ExpandPreservesMeaning(w, a, definition, e.definition, ancestors, env, outer, readAt, depth, spare);
      var d := Evaluate(w, a, definition, env, Frozen(readAt), depth).value;
      BodyPreservesMeaning(w, a, name, body, e.body, ancestors, env, outer, d, readAt, depth, spare);
      ScopedPreservesMeaning(w, a, name, definition, body, e.definition, e.body, env, outer, readAt, depth, spare);
    case CurrentDate(zone) =>
      ExpandPreservesMeaning(w, a, zone, e.zone, ancestors, env, outer, readAt, depth, spare);
    case DateOf(stamp, zone) =>
      ExpandPreservesMeaning(w, a, stamp, e.stamp, ancestors, env, outer, readAt, depth, spare);
      ExpandPreservesMeaning(w, a, zone, e.zone, ancestors, env, outer, readAt, depth, spare);
    case _ =>
  }

  lemma {:induction false} TablePreservesMeaning<V>(
    w: Warehouse, a: Algebra<V>, q: Query, e: Query, ancestors: set<string>,
    env: map<string, V>, outer: map<string, V>, readAt: int, depth: nat, spare: nat)
    requires q.Table? && ancestors <= w.views.Keys && w.dataset != ""
    requires Expand(w, q, env.Keys, ancestors) == Success(e)
    requires Agrees(env, outer)
    requires depth >= Unvisited(w, ancestors)
    ensures SameMeaning(w, a, q, e, env, outer, readAt, depth, spare)
    decreases Unvisited(w, ancestors), 0, 1
  {
    if q.db == "" && q.name in env {
      CtePreservesMeaning(w, a, q, env, outer, readAt, depth, spare);
    } else if q.name in w.views {
      DescendingVisitsFewer(w, q.name, ancestors);
      SplicedViewPreservesMeaning(w, a, q.name, w.views[q.name].query, e.body, ancestors, map[], outer,
                                  readAt, depth - 1, spare);
      InlinedViewPreservesMeaning(w, a, q, e.body, e.alias, env, outer, readAt, depth, spare);
    } else {
      BaseTablePreservesMeaning(w, a, q, env, outer, readAt, depth, spare);
    }
  }

  lemma CtePreservesMeaning<V>(
    w: Warehouse, a: Algebra<V>, q: Query, env: map<string, V>, outer: map<string, V>, readAt: int, depth: nat, spare: nat)
    requires q.Table? && q.db == "" && q.name in env && Agrees(env, outer)
    ensures SameMeaning(w, a, q, q, env, outer, readAt, depth, spare)
  {
  }

  lemma BaseTablePreservesMeaning<V>(
    w: Warehouse, a: Algebra<V>, q: Query, env: map<string, V>, outer: map<string, V>, readAt: int, depth: nat, spare: nat)
    requires q.Table? && (q.db != "" || q.name !in env) && Local(w, q.catalog, q.db) && w.dataset != ""
    requires q.name !in w.views && q.name in w.physical
    ensures SameMeaning(w, a, q, Table(w.project, w.dataset, q.name, q.alias, AsOfRead), env, outer, readAt, depth, spare)
  {
  }

  /** An inlined view body keeps its value under the reference's alias, or else
      under its name. */
  lemma InlinedViewPreservesMeaning<V>(
    w: Warehouse, a: Algebra<V>, q: Query, definition: Query, shown: string,
    env: map<string, V>, outer: map<string, V>, readAt: int, depth: nat, spare: nat)
    requires q.Table? && (q.db != "" || q.name !in env) && Local(w, q.catalog, q.db)
    requires q.name in w.views && w.views[q.name].Read? && depth > 0
    requires SameMeaning(w, a, w.views[q.name].query, definition, map[], outer, readAt, depth - 1, spare)
    requires if q.alias == "" then shown == q.name else shown == q.alias
    ensures SameMeaning(w, a, q, Subquery(definition, shown), env, outer, readAt, depth, spare)
  {
    var v := Evaluate(w, a, w.views[q.name].query, map[], Frozen(readAt), depth - 1);
    assert Evaluate(w, a, q, env, Frozen(readAt), depth) == Some(a.bind(shown, v.value));
  }

  lemma {:induction false} SplicedViewPreservesMeaning<V>(
    w: Warehouse, a: Algebra<V>, name: string, body: Query, definition: Query, ancestors: set<string>,
    none: map<string, V>, outer: map<string, V>, readAt: int, depth: nat, spare: nat)
    requires name in w.views && name !in ancestors && ancestors <= w.views.Keys && w.dataset != ""
    requires Expand(w, body, {}, ancestors + {name}) == Success(definition)
    requires none == map[]
    requires depth + 1 >= Unvisited(w, ancestors)
    ensures SameMeaning(w, a, body, definition, none, outer, readAt, depth, spare)
    decreases Unvisited(w, ancestors), 0, 0
  {
    var inner := ancestors + {name};
    DescendingVisitsFewer(w, name, ancestors);
    assert none.Keys == {};
    ExpandPreservesMeaning(w, a, body, definition, inner, none, outer, readAt, depth, spare);
  }

  /** A WITH name scopes over its body only, on both sides. */
  lemma ScopedPreservesMeaning<V>(
    w: Warehouse, a: Algebra<V>, name: string, q: Query, body: Query, definition: Query, e: Query,
    env: map<string, V>, outer: map<string, V>, readAt: int, depth: nat, spare: nat)
    requires SameMeaning(w, a, q, definition, env, outer, readAt, depth, spare)
    requires var d := Evaluate(w, a, q, env, Frozen(readAt), depth).value;
      SameMeaning(w, a, body, e, env[name := d], outer[name := d], readAt, depth, spare)
    ensures SameMeaning(w, a, With(name, q, body), With(name, definition, e), env, outer, readAt, depth, spare)
  {
  }

  lemma {:induction false} BodyPreservesMeaning<V>(
    w: Warehouse, a: Algebra<V>, name: string, body: Query, e: Query, ancestors: set<string>,
    env: map<string, V>, outer: map<string, V>, d: V, readAt: int, depth: nat, spare: nat)
    requires ancestors <= w.views.Keys && w.dataset != "" && Agrees(env, outer)
    requires depth >= Unvisited(w, ancestors)
    requires Expand(w, body, env.Keys + {name}, ancestors) == Success(e)
    ensures SameMeaning(w, a, body, e, env[name := d], outer[name := d], readAt, depth, spare)
    decreases Unvisited(w, ancestors), 1, body, 1
  {
    assert env[name := d].Keys == env.Keys + {name};
    ExpandPreservesMeaning(w, a, body, e, ancestors, env[name := d], outer[name := d], readAt, depth, spare);
  }

  /** At the captured instant itself pinning changes no value. */
  lemma {:induction false} PinIsInvisibleAtReadTime<V>(
    w: Warehouse, a: Algebra<V>, q: Query, env: map<string, V>, readAt: int, depth: nat)
    ensures Evaluate(w, a, Pin(q), env, Running(readAt, readAt), depth)
         == Evaluate(w, a, q, env, Running(readAt, readAt), depth)
  {
    match q
    case Subquery(body, _) => PinIsInvisibleAtReadTime(w, a, body, env, readAt, depth);
    case Compose(_, left, right) =>
      PinIsInvisibleAtReadTime(w, a, left, env, readAt, depth);
      PinIsInvisibleAtReadTime(w, a, right, env, readAt, depth);
    case With(name, definition, body) =>
      PinIsInvisibleAtReadTime(w, a, definition, env, readAt, depth);
      var d := Evaluate(w, a, definition, env, Running(readAt, readAt), depth);
      if d.Some? {
        PinIsInvisibleAtReadTime(w, a, body, env[name := d.value], readAt, depth);
      }
    case DateOf(stamp, zone) =>
      PinIsInvisibleAtReadTime(w, a, stamp, env, readAt, depth);
      PinIsInvisibleAtReadTime(w, a, zone, env, readAt, depth);
    case _ =>
  }

  /** Every accepted rewrite, run at the captured instant, has the frozen value. */
  lemma RewriteIsRightAtReadTime<V>(w: Warehouse, a: Algebra<V>, s: Statement, e: Query, readAt: int, depth: nat, spare: nat)
    requires w.dataset != "" && Rewrite(w, s) == Success(e)
    requires depth >= |w.views|
    ensures s.Read? && Evaluate(w, a, s.query, map[], Frozen(readAt), depth).Some?
    ensures Evaluate(w, a, e, map[], Running(readAt, readAt), spare)
         == Evaluate(w, a, s.query, map[], Frozen(readAt), depth)
  {
    var expanded := ExpandStatement(w, s, {}).value;
    var none: map<string, V> := map[];
    assert none.Keys == {};
    assert w.views.Keys - {} == w.views.Keys;
    ExpandPreservesMeaning(w, a, s.query, expanded, {}, none, none, readAt, depth, spare);
    PinIsInvisibleAtReadTime(w, a, expanded, none, readAt, spare);
  }

  // ----- what the rewritten text reads -----

  /** Every table reference is an in-scope CTE, or a physical table of the backend
      dataset, fully qualified and read at the captured instant. */
  predicate ReadsOnlyPinned(w: Warehouse, q: Query, ctes: set<string>) {
    match q
    case Table(catalog, db, name, _, version) =>
      (db == "" && name in ctes)
      || (catalog == w.project && db == w.dataset && name in w.physical && name !in w.views && version == AsOfRead)
    case Subquery(body, _) => ReadsOnlyPinned(w, body, ctes)
    case Compose(_, left, right) => ReadsOnlyPinned(w, left, ctes) && ReadsOnlyPinned(w, right, ctes)
    case With(name, definition, body) =>
      ReadsOnlyPinned(w, definition, ctes) && ReadsOnlyPinned(w, body, ctes + {name})
    case CurrentDate(zone) => ReadsOnlyPinned(w, zone, ctes)
    case DateOf(stamp, zone) => ReadsOnlyPinned(w, stamp, ctes) && ReadsOnlyPinned(w, zone, ctes)
    case _ => true
  }

  /** `outer` are the CTEs of a caller: an expanded body needs none of them. */
  lemma {:induction false} ExpandReadsOnlyPinned(
    w: Warehouse, q: Query, e: Query, ctes: set<string>, outer: set<string>, ancestors: set<string>)
    requires ancestors <= w.views.Keys
    requires Expand(w, q, ctes, ancestors) == Success(e)
    requires ctes <= outer
    ensures ReadsOnlyPinned(w, Pin(e), outer)
    decreases Unvisited(w, ancestors), q
  {
    match q
    case Table(catalog, db, name, alias, version) =>
      if (db != "" || name !in ctes) && name in w.views {
        var inner := ancestors + {name};
        DescendingVisitsFewer(w, name, ancestors);
        var definition := ExpandStatement(w, w.views[name], inner).value;
        ExpandReadsOnlyPinned(w, w.views[name].query, definition, {}, outer, inner);
      }
    case Subquery(body, _) => ExpandReadsOnlyPinned(w, body, e.body, ctes, outer, ancestors);
    case Compose(_, left, right) =>
      ExpandReadsOnlyPinned(w, left, e.left, ctes, outer, ancestors);
      ExpandReadsOnlyPinned(w, right, e.right, ctes, outer, ancestors);
    case With(name, definition, body) =>
      ExpandReadsOnlyPinned(w, definition, e.definition, ctes, outer, ancestors);
      ExpandReadsOnlyPinned(w, body, e.body, ctes + {name}, outer + {name}, ancestors);
    case CurrentDate(zone) =>
      ExpandReadsOnlyPinned(w, zone, e.zone, ctes, outer, ancestors);
      ReadsOnlyPinnedIgnoresPin(w, e.zone, outer);
    case DateOf(stamp, zone) =>
      ExpandReadsOnlyPinned(w, stamp, e.stamp, ctes, outer, ancestors);
      ExpandReadsOnlyPinned(w, zone, e.zone, ctes, outer, ancestors);
    case _ =>
  }

  lemma {:induction false} ReadsOnlyPinnedIgnoresPin(w: Warehouse, q: Query, ctes: set<string>)
    ensures ReadsOnlyPinned(w, Pin(q), ctes) == ReadsOnlyPinned(w, q, ctes)
  {
    match q
    case Subquery(body, _) => ReadsOnlyPinnedIgnoresPin(w, body, ctes);
    case Compose(_, left, right) =>
      ReadsOnlyPinnedIgnoresPin(w, left, ctes);
      ReadsOnlyPinnedIgnoresPin(w, right, ctes);
    case With(name, definition, body) =>
      ReadsOnlyPinnedIgnoresPin(w, definition, ctes);
      ReadsOnlyPinnedIgnoresPin(w, body, ctes + {name});
    case DateOf(stamp, zone) =>
      ReadsOnlyPinnedIgnoresPin(w, stamp, ctes);
      ReadsOnlyPinnedIgnoresPin(w, zone, ctes);
    case _ =>
  }

  // ----- which names the rewritten text shows -----

  /** `e` is `q` with its views inlined and, perhaps, its clocks pinned: reference by
      reference, through all nested views, a source is visible in `e` under the alias
      `q` gives it, and under its own name if `q` gives none. */
  predicate KeepsNames(w: Warehouse, q: Query, e: Query, ctes: set<string>)
    decreases e
  {
    match q
    case Table(_, db, name, alias, _) =>
      if db == "" && name in ctes then
        e == q
      else if name in w.views then
        && e.Subquery? && w.views[name].Read?
        && (if alias == "" then e.alias == name else e.alias == alias)
        && KeepsNames(w, w.views[name].query, e.body, {})
      else
        e.Table? && e.name == name && e.alias == alias
    case Subquery(body, alias) => e.Subquery? && e.alias == alias && KeepsNames(w, body, e.body, ctes)
    case Leaf(_) => e == q
    case Compose(op, left, right) =>
      e.Compose? && e.op == op && KeepsNames(w, left, e.left, ctes) && KeepsNames(w, right, e.right, ctes)
    case With(name, definition, body) =>
      && e.With? && e.name == name
      && KeepsNames(w, definition, e.definition, ctes) && KeepsNames(w, body, e.body, ctes + {name})
    case CurrentTimestamp => e.CurrentTimestamp? || e.ReadParameter?
    case CurrentDate(zone) =>
      || (e.CurrentDate? && KeepsNames(w, zone, e.zone, ctes))
      || (e.DateOf? && e.stamp.ReadParameter? && KeepsNames(w, zone, e.zone, ctes))
    case ReadParameter => e.ReadParameter?
    case DateOf(stamp, zone) =>
      e.DateOf? && KeepsNames(w, stamp, e.stamp, ctes) && KeepsNames(w, zone, e.zone, ctes)
  }

  lemma {:induction false} ExpandKeepsNames(
    w: Warehouse, q: Query, e: Query, ctes: set<string>, ancestors: set<string>)
    requires ancestors <= w.views.Keys
    requires Expand(w, q, ctes, ancestors) == Success(e)
    ensures KeepsNames(w, q, e, ctes)
    decreases Unvisited(w, ancestors), q
  {
    match q
    case Table(catalog, db, name, alias, version) =>
      if (db != "" || name !in ctes) && name in w.views {
        DescendingVisitsFewer(w, name, ancestors);
        ExpandKeepsNames(w, w.views[name].query, e.body, {}, ancestors + {name});
      }
    case Subquery(body, _) => ExpandKeepsNames(w, body, e.body, ctes, ancestors);
    case Compose(_, left, right) =>
      ExpandKeepsNames(w, left, e.left, ctes, ancestors);
      ExpandKeepsNames(w, right, e.right, ctes, ancestors);
    case With(name, definition, body) =>
      ExpandKeepsNames(w, definition, e.definition, ctes, ancestors);
      ExpandKeepsNames(w, body, e.body, ctes + {name}, ancestors);
    case CurrentDate(zone) => ExpandKeepsNames(w, zone, e.zone, ctes, ancestors);
    case DateOf(stamp, zone) =>
      ExpandKeepsNames(w, stamp, e.stamp, ctes, ancestors);
      ExpandKeepsNames(w, zone, e.zone, ctes, ancestors);
    case _ =>
  }

  lemma {:induction false} PinKeepsNames(w: Warehouse, q: Query, e: Query, ctes: set<string>)
    requires KeepsNames(w, q, e, ctes)
    ensures KeepsNames(w, q, Pin(e), ctes)
    decreases e
  {
    match q
    case Table(_, db, name, _, _) =>
      if !(db == "" && name in ctes) && name in w.views {
        PinKeepsNames(w, w.views[name].query, e.body, {});
      }
    case Subquery(body, _) => PinKeepsNames(w, body, e.body, ctes);
    case Compose(_, left, right) =>
      PinKeepsNames(w, left, e.left, ctes);
      PinKeepsNames(w, right, e.right, ctes);
    case With(name, definition, body) =>
      PinKeepsNames(w, definition, e.definition, ctes);
      PinKeepsNames(w, body, e.body, ctes + {name});
    case CurrentDate(zone) =>
      if e.DateOf? {
        PinKeepsNames(w, zone, e.zone, ctes);
      }
    case DateOf(stamp, zone) =>
      PinKeepsNames(w, stamp, e.stamp, ctes);
      PinKeepsNames(w, zone, e.zone, ctes);
    case _ =>
  }

  /** The names under which the sources of one FROM clause, and of everything else
      at its level, can be referred to, in order. */
  function SourceNames(q: Query): seq<string> {
    match q
    case Table(_, _, name, alias, _) => [if alias != "" then alias else name]
    case Subquery(_, alias) => [alias]
    case Compose(_, left, right) => SourceNames(left) + SourceNames(right)
    case With(_, _, body) => SourceNames(body)
    case CurrentDate(zone) => SourceNames(zone)
    case DateOf(stamp, zone) => SourceNames(stamp) + SourceNames(zone)
    case _ => []
  }

  /** So a qualified column resolves to the same source as before, and sources that
      could be told apart still can. */
  lemma {:induction false} SourcesKeepTheirNames(w: Warehouse, q: Query, e: Query, ctes: set<string>)
    requires KeepsNames(w, q, e, ctes)
    ensures SourceNames(e) == SourceNames(q)
  {
    match q
    case Compose(_, left, right) =>
      SourcesKeepTheirNames(w, left, e.left, ctes);
      SourcesKeepTheirNames(w, right, e.right, ctes);
    case With(name, _, body) => SourcesKeepTheirNames(w, body, e.body, ctes + {name});
    case CurrentDate(zone) => SourcesKeepTheirNames(w, zone, e.zone, ctes);
    case DateOf(stamp, zone) =>
      SourcesKeepTheirNames(w, stamp, e.stamp, ctes);
      SourcesKeepTheirNames(w, zone, e.zone, ctes);
    case _ =>
  }

  /** Every accepted rewrite shows each source under the name the statement, or the
      view that reads it, uses for it. */
  lemma RewriteKeepsNames(w: Warehouse, s: Statement, e: Query)
    requires Rewrite(w, s) == Success(e)
    ensures s.Read? && KeepsNames(w, s.query, e, {})
    ensures SourceNames(e) == SourceNames(s.query)
  {
    var expanded := ExpandStatement(w, s, {}).value;
    ExpandKeepsNames(w, s.query, expanded, {}, {});
    PinKeepsNames(w, s.query, expanded, {});
    SourcesKeepTheirNames(w, s.query, e, {});
  }

  /** Two references to one view under different aliases become two sources under
      just these aliases. */
  lemma AliasesStayApart(w: Warehouse, op: string, left: Query, right: Query, e: Query)
    requires left.Table? && right.Table? && left.name == right.name && left.name in w.views
    requires left.alias != "" && right.alias != "" && left.alias != right.alias
    requires Rewrite(w, Read(Compose(op, left, right))) == Success(e)
    ensures e.Compose? && e.left.Subquery? && e.right.Subquery?
    ensures e.left.alias == left.alias && e.right.alias == right.alias && e.left.alias != e.right.alias
  {
    var q := Compose(op, left, right);
    RewriteKeepsNames(w, Read(q), e);
    assert KeepsNames(w, q.left, e.left, {}) && KeepsNames(w, q.right, e.right, {});
  }

  // ----- which rewrites still read the wall clock -----

  /** A clock node left in `q` reaches its result; `reached` says which CTEs in
      scope one has reached. */
  predicate ClockReaches(q: Query, reached: map<string, bool>) {
    match q
    case Table(_, db, name, _, _) => db == "" && name in reached && reached[name]
    case Subquery(body, _) => ClockReaches(body, reached)
    case Leaf(_) => false
    case Compose(_, left, right) => ClockReaches(left, reached) || ClockReaches(right, reached)
    case With(name, definition, body) => ClockReaches(body, reached[name := ClockReaches(definition, reached)])
    case CurrentTimestamp => true
    case CurrentDate(_) => true
    case ReadParameter => false
    case DateOf(stamp, zone) => ClockReaches(stamp, reached) || ClockReaches(zone, reached)
  }

  /** The same, told of a query before its views are inlined: a clock node in a zone
      that pinning keeps reaches the result.  `kept`: the query stands in such a zone,
      so that none of its own clocks is replaced. */
  predicate Escapes(w: Warehouse, q: Query, reached: map<string, bool>, ancestors: set<string>, kept: bool)
    requires ancestors <= w.views.Keys
    decreases Unvisited(w, ancestors), q
  {
    match q
    case Table(_, db, name, _, _) =>
      if db == "" && name in reached then reached[name]
      else
        && name in w.views && name !in ancestors && w.views[name].Read?
        && (DescendingVisitsFewer(w, name, ancestors);
            Escapes(w, w.views[name].query, map[], ancestors + {name}, kept))
    case Subquery(body, _) => Escapes(w, body, reached, ancestors, kept)
    case Leaf(_) => false
    case Compose(_, left, right) =>
      Escapes(w, left, reached, ancestors, kept) || Escapes(w, right, reached, ancestors, kept)
    case With(name, definition, body) =>
      Escapes(w, body, reached[name := Escapes(w, definition, reached, ancestors, kept)], ancestors, kept)
    case CurrentTimestamp => kept
    case CurrentDate(zone) => kept || Escapes(w, zone, reached, ancestors, true)
    case ReadParameter => false
    case DateOf(stamp, zone) =>
      Escapes(w, stamp, reached, ancestors, kept) || Escapes(w, zone, reached, ancestors, kept)
  }

  predicate ClockEscapes(w: Warehouse, s: Statement) {
    s.Read? && Escapes(w, s.query, map[], {}, false)
  }

  /** Inlining and pinning leave exactly these clocks to reach the result, whatever
      the CTEs of a caller have been reached by. */
  lemma {:induction false} EscapesIsReaching(
    w: Warehouse, q: Query, e: Query, reached: map<string, bool>, outer: map<string, bool>,
    ancestors: set<string>, kept: bool)
    requires ancestors <= w.views.Keys && w.dataset != ""
    requires Expand(w, q, reached.Keys, ancestors) == Success(e) && Agrees(reached, outer)
    ensures ClockReaches(if kept then e else Pin(e), outer) <==> Escapes(w, q, reached, ancestors, kept)
    decreases Unvisited(w, ancestors), 1, q, 1
  {
    match q
    case Table(_, db, name, _, _) =>
      if !(db == "" && name in reached) && name in w.views {
        InlinedEscapesIsReaching(w, name, e.body, outer, ancestors, kept);
      }
    case Subquery(body, _) => EscapesIsReaching(w, body, e.body, reached, outer, ancestors, kept);
    case Compose(_, left, right) =>
      EscapesIsReaching(w, left, e.left, reached, outer, ancestors, kept);
      EscapesIsReaching(w, right, e.right, reached, outer, ancestors, kept);
    case With(name, definition, body) =>
      EscapesIsReaching(w, definition, e.definition, reached, outer, ancestors, kept);
      var r := Escapes(w, definition, reached, ancestors, kept);
      ScopedEscapesIsReaching(w, q, e.body, reached, outer, ancestors, kept, r);
    case CurrentDate(zone) => EscapesIsReaching(w, zone, e.zone, reached, outer, ancestors, true);
    case DateOf(stamp, zone) =>
      EscapesIsReaching(w, stamp, e.stamp, reached, outer, ancestors, kept);
      EscapesIsReaching(w, zone, e.zone, reached, outer, ancestors, kept);
    case _ =>
  }

  lemma InlinedEscapesIsReaching(
    w: Warehouse, name: string, e: Query, outer: map<string, bool>, ancestors: set<string>, kept: bool)
    requires ancestors <= w.views.Keys && w.dataset != ""
    requires name in w.views && name !in ancestors && w.views[name].Read?
    requires Expand(w, w.views[name].query, {}, ancestors + {name}) == Success(e)
    ensures ClockReaches(if kept then e else Pin(e), outer)
       <==> Escapes(w, w.views[name].query, map[], ancestors + {name}, kept)
    decreases Unvisited(w, ancestors), 0
  {
    var none: map<string, bool> := map[];
    DescendingVisitsFewer(w, name, ancestors);
    assert none.Keys == {};
    EscapesIsReaching(w, w.views[name].query, e, none, outer, ancestors + {name}, kept);
  }

  lemma ScopedEscapesIsReaching(
    w: Warehouse, q: Query, e: Query, reached: map<string, bool>, outer: map<string, bool>,
    ancestors: set<string>, kept: bool, r: bool)
    requires q.With? && ancestors <= w.views.Keys && w.dataset != ""
    requires Expand(w, q.body, reached.Keys + {q.name}, ancestors) == Success(e) && Agrees(reached, outer)
    ensures ClockReaches(if kept then e else Pin(e), outer[q.name := r])
       <==> Escapes(w, q.body, reached[q.name := r], ancestors, kept)
    decreases Unvisited(w, ancestors), 1, q, 0
  {
    assert reached[q.name := r].Keys == reached.Keys + {q.name};
    EscapesIsReaching(w, q.body, e, reached[q.name := r], outer[q.name := r], ancestors, kept);
  }

  /** A clock left in the rewrite reaches its result exactly when one escapes in the
      statement or in the views it reads. */
  lemma EscapesExactly(w: Warehouse, s: Statement, e: Query)
    requires w.dataset != "" && Rewrite(w, s) == Success(e)
    ensures ClockEscapes(w, s) <==> ClockReaches(e, map[])
  {
    var none: map<string, bool> := map[];
    assert none.Keys == {};
    EscapesIsReaching(w, s.query, ExpandStatement(w, s, {}).value, none, none, {}, false);
  }

  lemma {:induction false} NoClockReachesNothing(q: Query, reached: map<string, bool>)
    requires ClockFree(q) && forall n | n in reached :: !reached[n]
    ensures !ClockReaches(q, reached)
  {
    match q
    case Subquery(body, _) => NoClockReachesNothing(body, reached);
    case Compose(_, left, right) => NoClockReachesNothing(left, reached); NoClockReachesNothing(right, reached);
    case With(name, definition, body) =>
      NoClockReachesNothing(definition, reached);
      NoClockReachesNothing(body, reached[name := false]);
    case DateOf(stamp, zone) => NoClockReachesNothing(stamp, reached); NoClockReachesNothing(zone, reached);
    case _ =>
  }

  /** Pinned text always has a value. */
  lemma {:induction false} PinnedIsDefined<V>(
    w: Warehouse, a: Algebra<V>, q: Query, ctes: set<string>, env: map<string, V>, clock: Clock, depth: nat)
    requires w.dataset != "" && ReadsOnlyPinned(w, q, ctes) && ctes <= env.Keys
    ensures Evaluate(w, a, q, env, clock, depth).Some?
  {
    match q
    case Subquery(body, _) => PinnedIsDefined(w, a, body, ctes, env, clock, depth);
    case Compose(_, left, right) =>
      PinnedIsDefined(w, a, left, ctes, env, clock, depth);
      PinnedIsDefined(w, a, right, ctes, env, clock, depth);
    case With(name, definition, body) =>
      PinnedIsDefined(w, a, definition, ctes, env, clock, depth);
      var d := Evaluate(w, a, definition, env, clock, depth).value;
      PinnedIsDefined(w, a, body, ctes + {name}, env[name := d], clock, depth);
    case CurrentDate(zone) => PinnedIsDefined(w, a, zone, ctes, env, clock, depth);
    case DateOf(stamp, zone) =>
      PinnedIsDefined(w, a, stamp, ctes, env, clock, depth);
      PinnedIsDefined(w, a, zone, ctes, env, clock, depth);
    case _ =>
  }

  /** Bindings no clock has reached are the same at both wall times. */
  ghost predicate AgreeUnreached<V>(reached: map<string, bool>, x: map<string, V>, y: map<string, V>) {
    reached.Keys <= x.Keys && reached.Keys <= y.Keys && forall n | n in reached && !reached[n] :: x[n] == y[n]
  }

  /** Where no clock reaches, the wall time does not matter. */
  lemma {:induction false} UnreachedIsSteady<V>(
    w: Warehouse, a: Algebra<V>, q: Query, reached: map<string, bool>, x: map<string, V>, y: map<string, V>,
    nowX: int, nowY: int, readAt: int, depth: nat)
    requires w.dataset != "" && ReadsOnlyPinned(w, q, reached.Keys) && AgreeUnreached(reached, x, y)
    requires !ClockReaches(q, reached)
    ensures Evaluate(w, a, q, x, Running(nowX, readAt), depth) == Evaluate(w, a, q, y, Running(nowY, readAt), depth)
  {
    match q
    case Subquery(body, _) => UnreachedIsSteady(w, a, body, reached, x, y, nowX, nowY, readAt, depth);
    case Compose(_, left, right) =>
      UnreachedIsSteady(w, a, left, reached, x, y, nowX, nowY, readAt, depth);
      UnreachedIsSteady(w, a, right, reached, x, y, nowX, nowY, readAt, depth);
    case With(name, definition, body) =>
      PinnedIsDefined(w, a, definition, reached.Keys, x, Running(nowX, readAt), depth);
      PinnedIsDefined(w, a, definition, reached.Keys, y, Running(nowY, readAt), depth);
      var d := Evaluate(w, a, definition, x, Running(nowX, readAt), depth).value;
      var e := Evaluate(w, a, definition, y, Running(nowY, readAt), depth).value;
      var inner := reached[name := ClockReaches(definition, reached)];
      if !inner[name] {
        UnreachedIsSteady(w, a, definition, reached, x, y, nowX, nowY, readAt, depth);
      }
      assert inner.Keys == reached.Keys + {name};
      UnreachedIsSteady(w, a, body, inner, x[name := d], y[name := e], nowX, nowY, readAt, depth);
    case DateOf(stamp, zone) =>
      UnreachedIsSteady(w, a, stamp, reached, x, y, nowX, nowY, readAt, depth);
      UnreachedIsSteady(w, a, zone, reached, x, y, nowX, nowY, readAt, depth);
    case _ =>
  }

  /** For every accepted statement in which no clock escapes pinning: whatever the
      wall time, running the rewritten query with
      @doctor_read_at bound to the captured instant gives the value of the original
      with all views, base tables and clocks held at that instant. */
  lemma RewritePreservesMeaning<V>(
    w: Warehouse, a: Algebra<V>, s: Statement, e: Query, now: int, readAt: int, depth: nat, spare: nat)
    requires w.dataset != ""
    requires Rewrite(w, s) == Success(e)
    requires !ClockEscapes(w, s)
    requires depth >= |w.views|
    ensures s.Read?
    ensures var v := Evaluate(w, a, s.query, map[], Frozen(readAt), depth);
            v.Some? && Evaluate(w, a, e, map[], Running(now, readAt), spare) == v
  {
    RewriteIsRightAtReadTime(w, a, s, e, readAt, depth, spare);
    EscapesExactly(w, s, e);
    var none: map<string, V> := map[];
    var unreached: map<string, bool> := map[];
    RewriteReadsOnlyPinned(w, s, e);
    assert unreached.Keys == {};
    UnreachedIsSteady(w, a, e, unreached, none, none, now, readAt, readAt, spare);
  }

  lemma RewriteReadsOnlyPinned(w: Warehouse, s: Statement, e: Query)
    requires Rewrite(w, s) == Success(e)
    ensures ReadsOnlyPinned(w, e, {})
  {
    ExpandReadsOnlyPinned(w, s.query, ExpandStatement(w, s, {}).value, {}, {}, {});
  }

  /** Without clock nodes in CURRENT_DATE zones the hypothesis always holds. */
  lemma ClockFreeZonesArePinned(w: Warehouse, s: Statement, e: Query)
    requires Rewrite(w, s) == Success(e)
    requires ZonesClockFree(ExpandStatement(w, s, {}).value)
    ensures !ClockReaches(e, map[])
    ensures w.dataset != "" ==> !ClockEscapes(w, s)
  {
    if w.dataset != "" {
      EscapesExactly(w, s, e);
    }
    PinRemovesClocksOutsideZones(ExpandStatement(w, s, {}).value);
    NoClockReachesNothing(e, map[]);
  }

  /** The values that tell most: every instant that went into them. */
  const INSTANTS: Algebra<set<int>> :=
    Algebra((_, v) => v, _ => {}, (_, l, r) => l + r, t => {t}, (d, z) => d + z, (_, _) => {})

  /** A wall time other than the captured instant goes into the result exactly
      where a clock reaches. */
  lemma {:induction false} ReachedShowsTheClock(
    w: Warehouse, q: Query, reached: map<string, bool>, env: map<string, set<int>>, now: int, readAt: int, depth: nat)
    requires w.dataset != "" && ReadsOnlyPinned(w, q, reached.Keys) && reached.Keys <= env.Keys
    requires now != readAt && forall n | n in reached :: reached[n] <==> now in env[n]
    ensures var v := Evaluate(w, INSTANTS, q, env, Running(now, readAt), depth);
            v.Some? && (now in v.value <==> ClockReaches(q, reached))
  {
    PinnedIsDefined(w, INSTANTS, q, reached.Keys, env, Running(now, readAt), depth);
    match q
    case Subquery(body, _) => ReachedShowsTheClock(w, body, reached, env, now, readAt, depth);
    case Compose(_, left, right) =>
      ReachedShowsTheClock(w, left, reached, env, now, readAt, depth);
      ReachedShowsTheClock(w, right, reached, env, now, readAt, depth);
    case With(name, definition, body) =>
      ReachedShowsTheClock(w, definition, reached, env, now, readAt, depth);
      var d := Evaluate(w, INSTANTS, definition, env, Running(now, readAt), depth).value;
      var inner := reached[name := ClockReaches(definition, reached)];
      assert inner.Keys == reached.Keys + {name};
      ReachedShowsTheClock(w, body, inner, env[name := d], now, readAt, depth);
    case CurrentDate(zone) => PinnedIsDefined(w, INSTANTS, zone, reached.Keys, env, Running(now, readAt), depth);
    case DateOf(stamp, zone) =>
      ReachedShowsTheClock(w, stamp, reached, env, now, readAt, depth);
      ReachedShowsTheClock(w, zone, reached, env, now, readAt, depth);
    case _ =>
  }

  /** At the captured instant no other instant goes into any result. */
  lemma {:induction false} ReadTimeShowsNoOther(
    w: Warehouse, q: Query, ctes: set<string>, env: map<string, set<int>>, other: int, readAt: int, depth: nat)
    requires w.dataset != "" && ReadsOnlyPinned(w, q, ctes) && ctes <= env.Keys
    requires other != readAt && forall n | n in ctes :: other !in env[n]
    ensures var v := Evaluate(w, INSTANTS, q, env, Running(readAt, readAt), depth); v.Some? && other !in v.value
  {
    match q
    case Subquery(body, _) => ReadTimeShowsNoOther(w, body, ctes, env, other, readAt, depth);
    case Compose(_, left, right) =>
      ReadTimeShowsNoOther(w, left, ctes, env, other, readAt, depth);
      ReadTimeShowsNoOther(w, right, ctes, env, other, readAt, depth);
    case With(name, definition, body) =>
      ReadTimeShowsNoOther(w, definition, ctes, env, other, readAt, depth);
      var d := Evaluate(w, INSTANTS, definition, env, Running(readAt, readAt), depth).value;
      ReadTimeShowsNoOther(w, body, ctes + {name}, env[name := d], other, readAt, depth);
    case CurrentDate(zone) => ReadTimeShowsNoOther(w, zone, ctes, env, other, readAt, depth);
    case DateOf(stamp, zone) =>
      ReadTimeShowsNoOther(w, stamp, ctes, env, other, readAt, depth);
      ReadTimeShowsNoOther(w, zone, ctes, env, other, readAt, depth);
    case _ =>
  }

  /** The hypothesis is exact: the rewrite has the frozen value at every wall time,
      whatever values are taken to be, if and only if no clock of the statement or of
      its views escapes pinning. */
  lemma PinnedExactly(w: Warehouse, s: Statement, e: Query, readAt: int, depth: nat, spare: nat)
    requires w.dataset != "" && Rewrite(w, s) == Success(e)
    requires depth >= |w.views|
    ensures s.Read?
    ensures !ClockEscapes(w, s)
       <==> forall now :: Evaluate(w, INSTANTS, e, map[], Running(now, readAt), spare)
                       == Evaluate(w, INSTANTS, s.query, map[], Frozen(readAt), depth)
  {
    RewriteIsRightAtReadTime(w, INSTANTS, s, e, readAt, depth, spare);
    EscapesExactly(w, s, e);
    if !ClockEscapes(w, s) {
      forall now ensures Evaluate(w, INSTANTS, e, map[], Running(now, readAt), spare)
                      == Evaluate(w, INSTANTS, s.query, map[], Frozen(readAt), depth) {
        RewritePreservesMeaning(w, INSTANTS, s, e, now, readAt, depth, spare);
      }
    } else {
      var later := readAt + 1;
      var none: map<string, set<int>> := map[];
      var unreached: map<string, bool> := map[];
      RewriteReadsOnlyPinned(w, s, e);
      assert unreached.Keys == {};
      ReachedShowsTheClock(w, e, unreached, none, later, readAt, spare);
      ReadTimeShowsNoOther(w, e, {}, none, later, readAt, spare);
      assert Evaluate(w, INSTANTS, e, none, Running(later, readAt), spare)
          != Evaluate(w, INSTANTS, s.query, none, Frozen(readAt), depth);
    }
  }

  /** Such a rewrite exists: a clock inside the zone of a CURRENT_DATE is kept. */
  lemma ZoneClockEscapes(w: Warehouse)
    ensures var zone := Compose("FORMAT_TIMESTAMP", Leaf("format"), CurrentTimestamp);
            var e := DateOf(ReadParameter, zone);
            Rewrite(w, Read(CurrentDate(zone))) == Success(e) && ClockEscapes(w, Read(CurrentDate(zone)))
  {
    var zone := Compose("FORMAT_TIMESTAMP", Leaf("format"), CurrentTimestamp);
    assert Expand(w, CurrentTimestamp, {}, {}) == Success(CurrentTimestamp);
    assert Expand(w, Leaf("format"), {}, {}) == Success(Leaf("format"));
    assert Expand(w, zone, {}, {}) == Success(zone);
    assert ExpandStatement(w, Read(CurrentDate(zone)), {}) == Success(CurrentDate(zone));
  }

  // ----- exactly which queries are rejected -----

  datatype Reference = Reference(catalog: string, db: string, name: string)

  /** The table references of `q` that no enclosing CTE binds. */
  function FreeReferences(q: Query, ctes: set<string>): set<Reference> {
    match q
    case Table(catalog, db, name, _, _) =>
      if db == "" && name in ctes then {} else {Reference(catalog, db, name)}
    case Subquery(body, _) => FreeReferences(body, ctes)
    case Compose(_, left, right) => FreeReferences(left, ctes) + FreeReferences(right, ctes)
    case With(name, definition, body) =>
      FreeReferences(definition, ctes) + FreeReferences(body, ctes + {name})
    case CurrentDate(zone) => FreeReferences(zone, ctes)
    case DateOf(stamp, zone) => FreeReferences(stamp, ctes) + FreeReferences(zone, ctes)
    case _ => {}
  }

  /** A reference that is wrong by itself: foreign, unknown, or a view that writes. */
  predicate Defective(w: Warehouse, r: Reference) {
    || (r.catalog != "" && r.catalog != w.project)
    || (r.db != "" && r.db != w.dataset)
    || (r.name in w.views && w.views[r.name].Write?)
    || (r.name !in w.views && r.name !in w.physical)
  }

  /** Following views along `trail` from `r` meets a defective reference at its
      end, or a view it has already passed. */
  ghost predicate LeadsToDefect(w: Warehouse, r: Reference, passed: set<string>, trail: seq<string>)
    decreases |trail|
  {
    if trail == [] then
      Defective(w, r)
    else
      && Local(w, r.catalog, r.db)
      && r.name == trail[0]
      && r.name in w.views
      && (|| r.name in passed
          || (w.views[r.name].Read?
              && exists inner :: inner in FreeReferences(w.views[r.name].query, {})
                              && LeadsToDefect(w, inner, passed + {r.name}, trail[1..])))
  }

  lemma {:induction false} RejectionHasTrail(w: Warehouse, q: Query, ctes: set<string>, ancestors: set<string>)
    returns (r: Reference, trail: seq<string>)
    requires ancestors <= w.views.Keys
    requires Expand(w, q, ctes, ancestors).Failure?
    ensures r in FreeReferences(q, ctes) && LeadsToDefect(w, r, ancestors, trail)
    decreases Unvisited(w, ancestors), q
  {
    match q
    case Table(catalog, db, name, alias, version) =>
      r := Reference(catalog, db, name);
      if Defective(w, r) {
        trail := [];
      } else if name in ancestors {
        trail := [name];
      } else {
        var inner := ancestors + {name};
        DescendingVisitsFewer(w, name, ancestors);
        var innerReference, rest := RejectionHasTrail(w, w.views[name].query, {}, inner);
        trail := [name] + rest;
        assert trail[1..] == rest;
      }
    case Subquery(body, _) => r, trail := RejectionHasTrail(w, body, ctes, ancestors);
    case Compose(_, left, right) =>
      if Expand(w, left, ctes, ancestors).Failure? {
        r, trail := RejectionHasTrail(w, left, ctes, ancestors);
      } else {
        r, trail := RejectionHasTrail(w, right, ctes, ancestors);
      }
    case With(name, definition, body) =>
      if Expand(w, definition, ctes, ancestors).Failure? {
        r, trail := RejectionHasTrail(w, definition, ctes, ancestors);
      } else {
        r, trail := RejectionHasTrail(w, body, ctes + {name}, ancestors);
      }
    case CurrentDate(zone) => r, trail := RejectionHasTrail(w, zone, ctes, ancestors);
    case DateOf(stamp, zone) =>
      if Expand(w, stamp, ctes, ancestors).Failure? {
        r, trail := RejectionHasTrail(w, stamp, ctes, ancestors);
      } else {
        r, trail := RejectionHasTrail(w, zone, ctes, ancestors);
      }
  }

  lemma {:induction false} TrailIsRejected(
    w: Warehouse, q: Query, ctes: set<string>, ancestors: set<string>, r: Reference, trail: seq<string>)
    requires ancestors <= w.views.Keys
    requires r in FreeReferences(q, ctes) && LeadsToDefect(w, r, ancestors, trail)
    ensures Expand(w, q, ctes, ancestors).Failure?
    decreases Unvisited(w, ancestors), q
  {
    match q
    case Table(catalog, db, name, alias, version) =>
      if trail != [] && name !in ancestors {
        var inner := ancestors + {name};
        DescendingVisitsFewer(w, name, ancestors);
        var next :| next in FreeReferences(w.views[name].query, {}) && LeadsToDefect(w, next, inner, trail[1..]);
        TrailIsRejected(w, w.views[name].query, {}, inner, next, trail[1..]);
      }
    case Subquery(body, _) => TrailIsRejected(w, body, ctes, ancestors, r, trail);
    case Compose(_, left, right) =>
      if r in FreeReferences(left, ctes) {
        TrailIsRejected(w, left, ctes, ancestors, r, trail);
      } else {
        TrailIsRejected(w, right, ctes, ancestors, r, trail);
      }
    case With(name, definition, body) =>
      if r in FreeReferences(definition, ctes) {
        TrailIsRejected(w, definition, ctes, ancestors, r, trail);
      } else {
        TrailIsRejected(w, body, ctes + {name}, ancestors, r, trail);
      }
    case CurrentDate(zone) => TrailIsRejected(w, zone, ctes, ancestors, r, trail);
    case DateOf(stamp, zone) =>
      if r in FreeReferences(stamp, ctes) {
        TrailIsRejected(w, stamp, ctes, ancestors, r, trail);
      } else {
        TrailIsRejected(w, zone, ctes, ancestors, r, trail);
      }
  }

  /** Rejected exactly when it writes, or some free reference reaches a foreign
      table, an unknown relation, a writing view or a view cycle. */
  lemma RejectedExactly(w: Warehouse, s: Statement)
    ensures Rewrite(w, s).Failure?
       <==> s.Write? || exists r, trail :: r in FreeReferences(s.query, {}) && LeadsToDefect(w, r, {}, trail)
  {
    if s.Read? {
      if Rewrite(w, s).Failure? {
        var r, trail := RejectionHasTrail(w, s.query, {}, {});
        assert LeadsToDefect(w, r, {}, trail);
      } else {
        forall r, trail | r in FreeReferences(s.query, {}) && LeadsToDefect(w, r, {}, trail)
          ensures false
        {
          TrailIsRejected(w, s.query, {}, {}, r, trail);
        }
      }
    }
  }
}
