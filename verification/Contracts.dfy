/** Versioned payload contracts and drift over decoded JSON, keyed by the texts of
    paths (src/usagebassoon/contracts.py, `_presence`, `build_contract`,
    `_empty_array_ancestor`, `diff_contract`), for any keys whatever. */
module Contracts {
  import opened Wrappers
  import opened JsonPaths

  // ----- what a text stands for -----

  /** Below `at`, in one array member, a field with text `s` holds a type `t`. */
  predicate Shows(node: Json, at: Path, s: string, t: JsonType)
    decreases node, 0
  {
    match node
    case Obj(fields) => exists n | n in fields :: ShowsField(fields[n], at + [Field(n)], s, t)
    case Arr(items) => exists k | 0 <= k < |items| :: Shows(items[k], at + [Each], s, t)
    case _ => false
  }

  predicate ShowsField(child: Json, path: Path, s: string, t: JsonType)
    decreases child, 1
  {
    (Text(path) == s && TypeOf(child) == t) || Shows(child, path, s, t)
  }

  function ShownTypes(items: seq<Json>, at: Path, s: string): set<JsonType> {
    set t: JsonType, k | 0 <= k < |items| && Shows(items[k], at, s, t) :: t
  }

  predicate AllShow(items: seq<Json>, at: Path, s: string) {
    forall k | 0 <= k < |items| :: ShowsAny(items[k], at, s)
  }

  predicate ShowsAny(node: Json, at: Path, s: string) {
    exists t: JsonType :: Shows(node, at, s, t)
  }

  /** One record of a text: where it was made, with which type, and its mark. */
  datatype Record = Record(at: Path, kind: JsonType, present: bool)

  /** The records of the text `s` below `at`: one for a field outside arrays, one per
      type seen in any member of an outermost array. */
  function Records(node: Json, at: Path, s: string): set<Record>
    decreases node, 1
  {
    match node
    case Obj(fields) => RecordsUnder(node, at, fields.Keys, s)
    case Arr(items) => ArrayRecords(items, at + [Each], s)
    case _ => {}
  }

  function ArrayRecords(items: seq<Json>, at: Path, s: string): set<Record> {
    set t | t in ShownTypes(items, at, s) :: Record(at, t, AllShow(items, at, s))
  }

  function RecordsUnder(node: Json, at: Path, names: set<string>, s: string): set<Record>
    requires node.Obj? && names <= node.fields.Keys
    decreases node, 0
  {
    set n, r | n in names && r in FieldRecords(node.fields[n], at + [Field(n)], s) :: r
  }

  function FieldRecords(child: Json, path: Path, s: string): set<Record>
    decreases child, 2
  {
    (if Text(path) == s then {Record(path, TypeOf(child), true)} else {}) + Records(child, path, s)
  }

  function Marked(records: set<Record>): set<Record> {
    set r | r in records && r.present
  }

  function Kinds(records: set<Record>): set<JsonType> {
    set r | r in records :: r.kind
  }

  function Summary(records: set<Record>): Option<Presence> {
    if records == {} then None else Some(Presence(Kinds(records), |Marked(records)|, |records|))
  }

  /** The types a text has in the payload, how many of its records are marked
      present, and how many there are. */
  function TextPresence(v: Json, s: string): Option<Presence> {
    Summary(Records(v, [], s))
  }

  /** Presence from two places: types unite and counts add up. */
  function Plus(a: Option<Presence>, b: Option<Presence>): Option<Presence> {
    if a.None? then b
    else if b.None? then a
    else Some(Presence(a.value.types + b.value.types, a.value.present + b.value.present, a.value.total + b.value.total))
  }

  lemma PlusIsAssociative(a: Option<Presence>, b: Option<Presence>, c: Option<Presence>)
    ensures Plus(Plus(a, b), c) == Plus(a, Plus(b, c))
  {
    if a.Some? && b.Some? && c.Some? {
      assert a.value.types + b.value.types + c.value.types == a.value.types + (b.value.types + c.value.types);
    }
  }

  lemma DisjointRecordsAdd(a: set<Record>, b: set<Record>)
    requires a !! b
    ensures Summary(a + b) == Plus(Summary(a), Summary(b))
  {
    if a == {} {
      assert a + b == b;
    } else if b == {} {
      assert a + b == a;
    } else {
      assert Kinds(a + b) == Kinds(a) + Kinds(b);
      assert Marked(a + b) == Marked(a) + Marked(b);
      assert |Marked(a) + Marked(b)| == |Marked(a)| + |Marked(b)|;
    }
  }

  // ----- records lie where they were made -----

  lemma {:induction false} RecordsLieBelow(node: Json, at: Path, s: string, r: Record)
    requires r in Records(node, at, s)
    ensures at < r.at
    decreases node, 1
  {
    match node
    case Obj(fields) =>
      var n :| n in fields && r in FieldRecords(fields[n], at + [Field(n)], s);
      FieldRecordsLieBelow(fields[n], at, Field(n), s, r);
    case Arr(items) =>
  }

  lemma {:induction false} FieldRecordsLieBelow(child: Json, at: Path, step: Step, s: string, r: Record)
    requires r in FieldRecords(child, at + [step], s)
    ensures at < r.at && r.at[|at|] == step
    decreases child, 2
  {
    var path := at + [step];
    if r in Records(child, path, s) {
      RecordsLieBelow(child, path, s, r);
    }
    assert path <= r.at;
    assert r.at[..|at|] == path[..|at|] == at && r.at[|at|] == path[|at|];
  }

  lemma OneMoreField(node: Json, at: Path, names: set<string>, name: string, s: string)
    requires node.Obj? && names <= node.fields.Keys && name in node.fields.Keys - names
    ensures Summary(RecordsUnder(node, at, names + {name}, s))
         == Plus(Summary(RecordsUnder(node, at, names, s)), Summary(FieldRecords(node.fields[name], at + [Field(name)], s)))
  {
    var before, more := RecordsUnder(node, at, names, s), FieldRecords(node.fields[name], at + [Field(name)], s);
    assert RecordsUnder(node, at, names + {name}, s) == before + more;
    forall r | r in before && r in more ensures false {
      var n :| n in names && r in FieldRecords(node.fields[n], at + [Field(n)], s);
      FieldRecordsLieBelow(node.fields[n], at, Field(n), s, r);
      FieldRecordsLieBelow(node.fields[name], at, Field(name), s, r);
    }
    DisjointRecordsAdd(before, more);
  }

  lemma FieldRecordsAdd(child: Json, path: Path, s: string)
    ensures Summary(FieldRecords(child, path, s))
         == Plus(if Text(path) == s then Some(Presence({TypeOf(child)}, 1, 1)) else None, Summary(Records(child, path, s)))
  {
    if Text(path) == s {
      var own := Record(path, TypeOf(child), true);
      if own in Records(child, path, s) {
        RecordsLieBelow(child, path, s, own);
      }
      DisjointRecordsAdd({own}, Records(child, path, s));
      OneRecord(own);
    } else {
      assert FieldRecords(child, path, s) == Records(child, path, s);
    }
  }

  lemma OneRecord(r: Record)
    requires r.present
    ensures Summary({r}) == Some(Presence({r.kind}, 1, 1))
  {
    assert Marked({r}) == {r} && Kinds({r}) == {r.kind};
  }

  lemma ArrayRecordsCount(items: seq<Json>, at: Path, s: string)
    ensures var types := ShownTypes(items, at, s);
      Summary(ArrayRecords(items, at, s))
      == if types == {} then None
         else Some(Presence(types, if AllShow(items, at, s) then |types| else 0, |types|))
  {
    var types, full := ShownTypes(items, at, s), AllShow(items, at, s);
    var records := ArrayRecords(items, at, s);
    SameSize(types, at, full, records);
    if types != {} {
      var t :| t in types;
      assert Record(at, t, full) in records;
    }
    assert Kinds(records) == types by {
      forall t | t in types ensures t in Kinds(records) {
        assert Record(at, t, full) in records;
      }
    }
    assert Marked(records) == if full then records else {};
  }

  lemma {:induction false} SameSize(types: set<JsonType>, at: Path, full: bool, records: set<Record>)
    requires records == set t | t in types :: Record(at, t, full)
    ensures |records| == |types|
    decreases types
  {
    if types != {} {
      var t :| t in types;
      var r := Record(at, t, full);
      assert r in records;
      assert records - {r} == set u | u in types - {t} :: Record(at, u, full);
      SameSize(types - {t}, at, full, records - {r});
    }
  }

  // ----- collecting presence in one pass -----

  function Lookup<V>(m: map<string, V>, s: string): Option<V> {
    if s in m then Some(m[s]) else None
  }

  function SoFar(m: map<string, Presence>, s: string): Presence {
    if s in m then m[s] else Presence({}, 0, 0)
  }

  function OneMore(so: Presence, t: JsonType, present: bool): Presence {
    Presence(so.types + {t}, so.present + if present then 1 else 0, so.total + 1)
  }

  /** `add`: one more record for a text. */
  function Add(m: map<string, Presence>, s: string, t: JsonType, present: bool): map<string, Presence> {
    m[s := OneMore(SoFar(m, s), t, present)]
  }

  predicate Noted(m: map<string, set<JsonType>>, s: string, t: JsonType) {
    s in m && t in m[s]
  }

  /** One of the fields visited shows it. */
  predicate Shown(children: map<string, Json>, at: Path, unvisited: set<string>, s: string, t: JsonType) {
    exists n | n in children && n !in unvisited :: ShowsField(children[n], at + [Field(n)], s, t)
  }

  method CollectMember(node: Json, current: string, ghost at: Path, fields: map<string, set<JsonType>>)
    returns (r: map<string, set<JsonType>>)
    requires current == Text(at)
    requires forall s | s in fields :: fields[s] != {}
    ensures forall s | s in r :: r[s] != {}
    ensures forall s, t: JsonType :: Noted(r, s, t) <==> Noted(fields, s, t) || Shows(node, at, s, t)
    decreases node
  {
    r := fields;
    match node
    case Obj(children) =>
      var names := children.Keys;
      while names != {}
        invariant names <= children.Keys
        invariant forall s | s in r :: r[s] != {}
        invariant forall s, t: JsonType :: Noted(r, s, t) <==> Noted(fields, s, t) || Shown(children, at, names, s, t)
        decreases |names|
      {
        var name :| name in names;
        var path := Extended(current, Field(name));
        TextNext(at, Field(name));
        var types := if path in r then r[path] else {};
        var noted := r[path := types + {TypeOf(children[name])}];
        ghost var before, unvisited := r, names;
        r := CollectMember(children[name], path, at + [Field(name)], noted);
        names := names - {name};
        forall s, t: JsonType
          ensures Noted(r, s, t) <==> Noted(fields, s, t) || Shown(children, at, names, s, t)
        {
          OneMoreShown(children, at, unvisited, name, s, t);
          assert Noted(noted, s, t) <==> Noted(before, s, t) || (s == path && t == TypeOf(children[name]));
          assert Noted(before, s, t) <==> Noted(fields, s, t) || Shown(children, at, unvisited, s, t);
        }
      }
    case Arr(items) =>
      TextNext(at, Each);
      for k := 0 to |items|
        invariant forall s | s in r :: r[s] != {}
        invariant forall s, t: JsonType ::
          Noted(r, s, t) <==> Noted(fields, s, t) || exists j | 0 <= j < k :: Shows(items[j], at + [Each], s, t)
      {
        r := CollectMember(items[k], Extended(current, Each), at + [Each], r);
      }
    case _ =>
  }

  lemma OneMoreShown(children: map<string, Json>, at: Path, unvisited: set<string>, name: string, s: string, t: JsonType)
    requires name in unvisited && unvisited <= children.Keys
    ensures Shown(children, at, unvisited - {name}, s, t)
       <==> Shown(children, at, unvisited, s, t) || ShowsField(children[name], at + [Field(name)], s, t)
  {
    if Shown(children, at, unvisited - {name}, s, t) {
      var n :| n in children && n !in unvisited - {name} && ShowsField(children[n], at + [Field(n)], s, t);
    }
  }

  function Counted(so: Presence, types: set<JsonType>, full: bool): Presence {
    Presence(so.types + types, so.present + if full then |types| else 0, so.total + |types|)
  }

  /** `types` records at once, all marked alike. */
  function AddAll(m: map<string, Presence>, s: string, types: set<JsonType>, full: bool): map<string, Presence> {
    if types == {} then m
    else
      m[s := Counted(SoFar(m, s), types, full)]
  }

  lemma CountOneMore(so: Presence, types: set<JsonType>, t: JsonType, full: bool)
    requires t !in types
    ensures OneMore(Counted(so, types, full), t, full) == Counted(so, types + {t}, full)
    ensures types == {} ==> Counted(so, types, full) == so
  {
    assert |types + {t}| == |types| + 1;
    assert so.types + types + {t} == so.types + (types + {t});
  }

  lemma AddOneMore(m: map<string, Presence>, s: string, types: set<JsonType>, t: JsonType, full: bool)
    requires t !in types
    ensures Add(AddAll(m, s, types, full), s, t, full) == AddAll(m, s, types + {t}, full)
  {
    var so := SoFar(m, s);
    CountOneMore(so, types, t, full);
    assert t in types + {t};
    if types != {} {
      var c, d := Counted(so, types, full), Counted(so, types + {t}, full);
      assert m[s := c][s := d] == m[s := d];
    }
  }

  lemma AddAllIsPlus(m: map<string, Presence>, s: string, types: set<JsonType>, full: bool)
    requires types != {}
    ensures Lookup(AddAll(m, s, types, full), s)
         == Plus(Lookup(m, s), Some(Presence(types, if full then |types| else 0, |types|)))
  {
    assert {} + types == types;
  }

  method AddTypes(m: map<string, Presence>, s: string, types: set<JsonType>, full: bool) returns (r: map<string, Presence>)
    ensures r == AddAll(m, s, types, full)
  {
    r := m;
    var left, done := types, {};
    while left != {}
      invariant left !! done && left + done == types
      invariant r == AddAll(m, s, done, full)
      decreases |left|
    {
      var t :| t in left;
      AddOneMore(m, s, done, t, full);
      r := Add(r, s, t, full);
      left, done := left - {t}, done + {t};
    }
    assert done == types;
  }

  /** `members[k]` records what `items[k]` shows. */
  ghost predicate Collected(items: seq<Json>, at: Path, members: seq<map<string, set<JsonType>>>) {
    && |members| <= |items|
    && (forall k, s | 0 <= k < |members| && s in members[k] :: members[k][s] != {})
    && (forall k, s, t: JsonType | 0 <= k < |members| :: Noted(members[k], s, t) <==> Shows(items[k], at, s, t))
  }

  method CollectMembers(items: seq<Json>, current: string, ghost at: Path) returns (members: seq<map<string, set<JsonType>>>)
    requires current == Text(at)
    ensures |members| == |items| && Collected(items, at, members)
  {
    members := [];
    for k := 0 to |items|
      invariant |members| == k && Collected(items, at, members)
    {
      var fields := CollectMember(items[k], current, at, map[]);
      members := members + [fields];
    }
  }

  /** Types noted for `s` in any of the members. */
  function NotedTypes(members: seq<map<string, set<JsonType>>>, s: string): set<JsonType> {
    set t: JsonType, k | 0 <= k < |members| && Noted(members[k], s, t) :: t
  }

  lemma CollectedShows(items: seq<Json>, at: Path, members: seq<map<string, set<JsonType>>>, s: string)
    requires |members| == |items| && Collected(items, at, members)
    ensures NotedTypes(members, s) == ShownTypes(items, at, s)
    ensures (forall k | 0 <= k < |members| :: s in members[k]) <==> AllShow(items, at, s)
    ensures (exists k | 0 <= k < |members| :: s in members[k]) <==> ShownTypes(items, at, s) != {}
  {
    forall t: JsonType ensures t in NotedTypes(members, s) <==> t in ShownTypes(items, at, s) {
      assert forall k | 0 <= k < |members| :: Noted(members[k], s, t) <==> Shows(items[k], at, s, t);
    }
    forall k | 0 <= k < |members| ensures s in members[k] <==> ShowsAny(items[k], at, s) {
      MemberShows(items, at, members, s, k);
    }
    if AllShow(items, at, s) {
      forall k | 0 <= k < |members| ensures s in members[k] {
        assert ShowsAny(items[k], at, s);
      }
    }
    if k :| 0 <= k < |members| && s in members[k] {
      var t: JsonType :| Shows(items[k], at, s, t);
      assert t in ShownTypes(items, at, s);
    }
    if t :| t in ShownTypes(items, at, s) {
      var k :| 0 <= k < |items| && Shows(items[k], at, s, t);
      assert s in members[k];
    }
  }

  lemma MemberShows(items: seq<Json>, at: Path, members: seq<map<string, set<JsonType>>>, s: string, k: nat)
    requires |members| == |items| && Collected(items, at, members) && k < |items|
    ensures s in members[k] <==> ShowsAny(items[k], at, s)
  {
    if s in members[k] {
      var t :| t in members[k][s];
      assert Noted(members[k], s, t);
      assert Shows(items[k], at, s, t);
    }
    if t: JsonType :| Shows(items[k], at, s, t) {
      assert Noted(members[k], s, t);
    }
  }

  method RecordText(
    items: seq<Json>, ghost at: Path, members: seq<map<string, set<JsonType>>>, s: string, m: map<string, Presence>)
    returns (r: map<string, Presence>)
    requires |members| == |items| && Collected(items, at, members)
    requires exists k | 0 <= k < |members| :: s in members[k]
    ensures forall x | x != s :: Lookup(r, x) == Lookup(m, x)
    ensures Lookup(r, s) == Plus(Lookup(m, s), Summary(ArrayRecords(items, at, s)))
  {
    var types := NotedTypes(members, s);
    var full := forall k | 0 <= k < |members| :: s in members[k];
    CollectedShows(items, at, members, s);
    ArrayRecordsCount(items, at, s);
    AddAllIsPlus(m, s, types, full);
    r := AddTypes(m, s, types, full);
  }

  /** `after` adds to `before`, for every text, what `records` has of it. */
  ghost predicate Adds(before: map<string, Presence>, after: map<string, Presence>, records: string -> set<Record>) {
    forall s :: Lookup(after, s) == Plus(Lookup(before, s), Summary(records(s)))
  }

  function OfNode(node: Json, at: Path): string -> set<Record> {
    (s: string) => Records(node, at, s)
  }

  function OfField(child: Json, path: Path): string -> set<Record> {
    (s: string) => FieldRecords(child, path, s)
  }

  function OfFields(node: Json, at: Path, names: set<string>): string -> set<Record>
    requires node.Obj? && names <= node.fields.Keys
  {
    (s: string) => RecordsUnder(node, at, names, s)
  }

  /** The same for the texts done so far, the others being as before. */
  ghost predicate AddsSome(
    before: map<string, Presence>, after: map<string, Presence>, records: string -> set<Record>, done: set<string>)
  {
    forall s :: Lookup(after, s) == if s in done then Plus(Lookup(before, s), Summary(records(s))) else Lookup(before, s)
  }

  method WalkArray(items: seq<Json>, current: string, ghost at: Path, occurrences: map<string, Presence>)
    returns (r: map<string, Presence>)
    requires current == Text(at)
    ensures Adds(occurrences, r, OfNode(Arr(items), at))
  {
    TextNext(at, Each);
    var members := CollectMembers(items, Extended(current, Each), at + [Each]);
    r := occurrences;
    var texts := TextsOf(members);
    ghost var all, records := texts, OfNode(Arr(items), at);
    while texts != {}
      invariant texts <= all
      invariant AddsSome(occurrences, r, records, all - texts)
      decreases |texts|
    {
      var s :| s in texts;
      ghost var before := r;
      r := RecordText(items, at + [Each], members, s, r);
      TextRecorded(occurrences, before, r, records, all, texts, s);
      texts := texts - {s};
    }
    OthersShowNothing(items, at + [Each], members);
    assert forall s | s !in all :: Summary(records(s)) == None;
  }

  function TextsOf(members: seq<map<string, set<JsonType>>>): set<string> {
    set k, s | 0 <= k < |members| && s in members[k] :: s
  }

  lemma OthersShowNothing(items: seq<Json>, at: Path, members: seq<map<string, set<JsonType>>>)
    requires |members| == |items| && Collected(items, at, members)
    ensures forall s | s !in TextsOf(members) :: Summary(ArrayRecords(items, at, s)) == None
  {
    forall s | s !in TextsOf(members) ensures Summary(ArrayRecords(items, at, s)) == None {
      CollectedShows(items, at, members, s);
      ArrayRecordsCount(items, at, s);
    }
  }

  lemma TextRecorded(
    start: map<string, Presence>, before: map<string, Presence>, after: map<string, Presence>,
    records: string -> set<Record>, all: set<string>, texts: set<string>, s: string)
    requires texts <= all && s in texts && AddsSome(start, before, records, all - texts)
    requires forall x | x != s :: Lookup(after, x) == Lookup(before, x)
    requires Lookup(after, s) == Plus(Lookup(before, s), Summary(records(s)))
    ensures AddsSome(start, after, records, all - (texts - {s}))
  {
    assert Lookup(before, s) == Lookup(start, s);
  }

  method Walk(node: Json, current: string, ghost at: Path, occurrences: map<string, Presence>) returns (r: map<string, Presence>)
    requires current == Text(at)
    ensures Adds(occurrences, r, OfNode(node, at))
    decreases node, 1
  {
    match node
    case Obj(_) =>
      r := WalkFields(node, current, at, occurrences);
    case Arr(items) =>
      r := WalkArray(items, current, at, occurrences);
    case _ =>
      r := occurrences;
  }

  method WalkFields(node: Json, current: string, ghost at: Path, occurrences: map<string, Presence>)
    returns (r: map<string, Presence>)
    requires node.Obj? && current == Text(at)
    ensures Adds(occurrences, r, OfNode(node, at))
    decreases node, 0
  {
    var names := node.fields.Keys;
    ghost var all := names;
    r := occurrences;
    NothingVisited(node, at, occurrences);
    while names != {}
      invariant names <= all
      invariant Adds(occurrences, r, OfFields(node, at, all - names))
      decreases |names|
    {
      var name :| name in names;
      ghost var before := r;
      r := WalkField(node.fields[name], name, current, at, r);
      FieldVisited(node, at, all, names, name, occurrences, before, r);
      names := names - {name};
    }
    AllVisited(node, at, all, occurrences, r);
  }

  lemma NothingVisited(node: Json, at: Path, occurrences: map<string, Presence>)
    requires node.Obj?
    ensures Adds(occurrences, occurrences, OfFields(node, at, node.fields.Keys - node.fields.Keys))
  {
  }

  lemma AllVisited(node: Json, at: Path, all: set<string>, before: map<string, Presence>, after: map<string, Presence>)
    requires node.Obj? && all == node.fields.Keys && Adds(before, after, OfFields(node, at, all - {}))
    ensures Adds(before, after, OfNode(node, at))
  {
    assert all - {} == all;
    forall s ensures OfNode(node, at)(s) == OfFields(node, at, all)(s) {
    }
  }

  lemma AddIsPlus(m: map<string, Presence>, path: string, t: JsonType, s: string)
    ensures Lookup(Add(m, path, t, true), s) == Plus(Lookup(m, s), if path == s then Some(Presence({t}, 1, 1)) else None)
  {
    assert {} + {t} == {t};
  }

  lemma FieldVisited(
    node: Json, at: Path, all: set<string>, names: set<string>, name: string,
    start: map<string, Presence>, before: map<string, Presence>, after: map<string, Presence>)
    requires node.Obj? && all == node.fields.Keys && names <= all && name in names
    requires Adds(start, before, OfFields(node, at, all - names))
    requires Adds(before, after, OfField(node.fields[name], at + [Field(name)]))
    ensures Adds(start, after, OfFields(node, at, all - (names - {name})))
  {
    var visited := all - names;
    assert all - (names - {name}) == visited + {name};
    forall s
      ensures Lookup(after, s) == Plus(Lookup(start, s), Summary(OfFields(node, at, visited + {name})(s)))
    {
      OneMoreField(node, at, visited, name, s);
      assert Lookup(before, s) == Plus(Lookup(start, s), Summary(OfFields(node, at, visited)(s)));
      PlusIsAssociative(
        Lookup(start, s), Summary(RecordsUnder(node, at, visited, s)),
        Summary(FieldRecords(node.fields[name], at + [Field(name)], s)));
    }
  }

  /** The record of a field, and those below it. */
  method WalkField(child: Json, name: string, current: string, ghost at: Path, occurrences: map<string, Presence>)
    returns (r: map<string, Presence>)
    requires current == Text(at)
    ensures Adds(occurrences, r, OfField(child, at + [Field(name)]))
    decreases child, 2
  {
    var path := Extended(current, Field(name));
    TextNext(at, Field(name));
    var noted := Add(occurrences, path, TypeOf(child), true);
    r := Walk(child, path, at + [Field(name)], noted);
    forall s ensures Lookup(r, s) == Plus(Lookup(occurrences, s), Summary(OfField(child, at + [Field(name)])(s))) {
      var own := if path == s then Some(Presence({TypeOf(child)}, 1, 1)) else None;
      AddIsPlus(occurrences, path, TypeOf(child), s);
      FieldRecordsAdd(child, at + [Field(name)], s);
      PlusIsAssociative(Lookup(occurrences, s), own, Summary(Records(child, at + [Field(name)], s)));
    }
  }

  /** The presence map of a payload holds, for every text, what the text stands for. */
  method PresenceMap(value: Json) returns (r: map<string, Presence>)
    ensures forall s :: Lookup(r, s) == TextPresence(value, s)
  {
    r := Walk(value, "", [], map[]);
    forall s ensures Lookup(r, s) == TextPresence(value, s) {
      assert Lookup(r, s) == Plus(Lookup<Presence>(map[], s), Summary(OfNode(value, [])(s)));
    }
  }

  // ----- texts and paths -----

  /** A member shows a text exactly when a path with that text occurs in it. */
  lemma {:induction false} ShowsMeansPath(node: Json, at: Path, s: string, t: JsonType)
    ensures Shows(node, at, s, t) <==> exists p :: at <= p && Text(p) == s && Occurs(node, p, |at|, t)
    decreases node, 0
  {
    if Shows(node, at, s, t) {
      var p := ShownPath(node, at, s, t);
    }
    if p :| at <= p && Text(p) == s && Occurs(node, p, |at|, t) {
      PathIsShown(node, at, p, t);
    }
  }

  lemma {:induction false} ShownPath(node: Json, at: Path, s: string, t: JsonType) returns (p: Path)
    requires Shows(node, at, s, t)
    ensures at <= p && Text(p) == s && Occurs(node, p, |at|, t)
    decreases node
  {
    match node
    case Obj(fields) =>
      var n :| n in fields && ShowsField(fields[n], at + [Field(n)], s, t);
      var path := at + [Field(n)];
      if Text(path) == s && TypeOf(fields[n]) == t {
        p := path;
      } else {
        p := ShownPath(fields[n], path, s, t);
        assert p[|at|] == path[|at|] && at == path[..|at|] == p[..|at|];
      }
    case Arr(items) =>
      var k :| 0 <= k < |items| && Shows(items[k], at + [Each], s, t);
      var path := at + [Each];
      p := ShownPath(items[k], path, s, t);
      assert p[|at|] == path[|at|] && at == path[..|at|] == p[..|at|];
  }

  lemma {:induction false} PathIsShown(node: Json, at: Path, p: Path, t: JsonType)
    requires at <= p && Occurs(node, p, |at|, t)
    ensures Shows(node, at, Text(p), t)
    decreases node
  {
    var path := at + [p[|at|]];
    assert path <= p;
    match node
    case Obj(fields) =>
      var n := p[|at|].name;
      if !(|at| + 1 == |p| && TypeOf(fields[n]) == t) {
        PathIsShown(fields[n], path, p, t);
      } else {
        assert path == p;
      }
      assert ShowsField(fields[n], path, Text(p), t);
    case Arr(items) =>
      var k :| 0 <= k < |items| && Occurs(items[k], p, |at| + 1, t);
      PathIsShown(items[k], path, p, t);
  }

  /** A text has records below `at` exactly when a path with that text goes on from
      there, and it is recorded with the types the path occurs with. */
  lemma {:induction false} RecordsMeanPaths(node: Json, at: Path, s: string, t: JsonType)
    ensures t in Kinds(Records(node, at, s)) <==> Shows(node, at, s, t)
    decreases node, 0
  {
    match node
    case Obj(fields) =>
      forall n | n in fields
        ensures t in Kinds(FieldRecords(fields[n], at + [Field(n)], s)) <==> ShowsField(fields[n], at + [Field(n)], s, t)
      {
        FieldRecordsMeanPaths(fields[n], at + [Field(n)], s, t);
      }
      KindsUnder(node, at, s, t);
    case Arr(items) =>
      var types, full := ShownTypes(items, at + [Each], s), AllShow(items, at + [Each], s);
      if t in types {
        assert Record(at + [Each], t, full) in ArrayRecords(items, at + [Each], s);
      }
    case _ =>
  }

  lemma FieldRecordsMeanPaths(child: Json, path: Path, s: string, t: JsonType)
    ensures t in Kinds(FieldRecords(child, path, s)) <==> ShowsField(child, path, s, t)
    decreases child, 1
  {
    RecordsMeanPaths(child, path, s, t);
    if Text(path) == s {
      assert Record(path, TypeOf(child), true) in FieldRecords(child, path, s);
    }
    if r :| r in Records(child, path, s) && r.kind == t {
      assert r in FieldRecords(child, path, s);
    }
  }

  lemma KindsUnder(node: Json, at: Path, s: string, t: JsonType)
    requires node.Obj?
    ensures t in Kinds(Records(node, at, s))
       <==> exists n | n in node.fields :: t in Kinds(FieldRecords(node.fields[n], at + [Field(n)], s))
  {
    if r :| r in RecordsUnder(node, at, node.fields.Keys, s) && r.kind == t {
      var n :| n in node.fields && r in FieldRecords(node.fields[n], at + [Field(n)], s);
    }
    if n :| n in node.fields && t in Kinds(FieldRecords(node.fields[n], at + [Field(n)], s)) {
      var r :| r in FieldRecords(node.fields[n], at + [Field(n)], s) && r.kind == t;
      assert r in Records(node, at, s);
    }
  }

  /** A text is present in a payload if and only if a path with that text occurs in
      it, and with the types such paths occur with. */
  lemma TextPresenceMeansOccurrence(v: Json, s: string)
    ensures TextPresence(v, s).Some? <==> exists p :: Text(p) == s && Has(v, p, 0)
    ensures TextPresence(v, s).Some? ==>
      forall t: JsonType :: t in TextPresence(v, s).value.types <==> exists p :: Text(p) == s && Occurs(v, p, 0, t)
  {
    forall t: JsonType ensures t in Kinds(Records(v, [], s)) <==> exists p :: Text(p) == s && Occurs(v, p, 0, t) {
      RecordsMeanPaths(v, [], s, t);
      ShowsMeansPath(v, [], s, t);
    }
    if TextPresence(v, s).Some? {
      var r :| r in Records(v, [], s);
      assert r.kind in Kinds(Records(v, [], s));
    }
    if p :| Text(p) == s && Has(v, p, 0) {
      var t: JsonType :| Occurs(v, p, 0, t);
      assert t in Kinds(Records(v, [], s));
    }
  }

  // ----- tolerance of empty arrays -----

  predicate EndsInBrackets(s: string) {
    |s| >= 2 && s[|s| - 2] == '[' && s[|s| - 1] == ']'
  }

  /** `str.partition(".")`: up to the first dot, whether there is one, and after. */
  function Partition(s: string): (r: (string, bool, string))
    ensures r.1 ==> |r.2| < |s|
    ensures '.' !in r.0 && s == if r.1 then r.0 + "." + r.2 else r.0
    ensures !r.1 ==> r.2 == ""
  {
    if s == "" then ("", false, "")
    else if s[0] == '.' then ("", true, s[1..])
    else
      var (head, separated, tail) := Partition(s[1..]);
      ([s[0]] + head, separated, tail)
  }

  function Unmarked(head: string): string {
    if EndsInBrackets(head) then head[..|head| - 2] else head
  }

  /** The value a name leads to; no name stays where it is. */
  function Descend(v: Json, name: string): Option<Json> {
    if name == "" then Some(v)
    else if v.Obj? && name in v.fields then Some(v.fields[name])
    else None
  }

  predicate TextAncestor(v: Json, path: string)
    decreases |path|, 0
  {
    var (head, separated, tail) := Partition(path);
    match Descend(v, Unmarked(head))
    case None => false
    case Some(value) =>
      if EndsInBrackets(head) then value.Arr? && (value.items == [] || (separated && AllAncestors(value.items, tail)))
      else separated && TextAncestor(value, tail)
  }

  predicate AllAncestors(items: seq<Json>, path: string)
    decreases |path|, 1
  {
    forall k | 0 <= k < |items| :: TextAncestor(items[k], path)
  }

  // ----- contracts -----

  datatype Expectation = Expectation(types: set<JsonType>, required: bool)

  type Contract = map<string, Expectation>

  datatype Kind = UnknownField | MissingField | TypeChange

  datatype Event = Event(kind: Kind, path: string)

  /** A field is required when every record of it is marked and it is not exempt. */
  function Expected(r: Presence, exempt: bool): Expectation {
    Expectation(r.types, !exempt && r.present == r.total)
  }

  function ContractOf(payload: Json, optional: set<string>, texts: set<string>): Contract {
    map s | s in texts && TextPresence(payload, s).Some? :: Expected(TextPresence(payload, s).value, s in optional)
  }

  method BuildContract(payload: Json, optional: set<string>) returns (c: Contract)
    ensures c == ContractOf(payload, optional, c.Keys)
    ensures forall s :: s in c <==> TextPresence(payload, s).Some?
  {
    var presence := PresenceMap(payload);
    c := map s | s in presence :: Expected(presence[s], s in optional);
    forall s
      ensures s in c <==> TextPresence(payload, s).Some?
      ensures s in c ==> c[s] == Expected(TextPresence(payload, s).value, s in optional)
    {
      assert Lookup(presence, s) == TextPresence(payload, s);
    }
  }

  function Unexpected(e: Expectation, observed: set<JsonType>): set<JsonType> {
    observed - e.types - if FloatType in e.types then {IntType} else {}
  }

  /** The event for an expected path, if any. */
  function ExpectedDrift(e: Expectation, observed: Option<Presence>, tolerated: bool): Option<Kind> {
    match observed
    case None => if !tolerated && e.required then Some(MissingField) else None
    case Some(r) =>
      if e.required && r.present < r.total then Some(MissingField)
      else if Unexpected(e, r.types) != {} then Some(TypeChange)
      else None
  }

  function DriftAt(c: Contract, observed: Json, s: string): Option<Kind> {
    if s in c then ExpectedDrift(c[s], TextPresence(observed, s), TextAncestor(observed, s))
    else if TextPresence(observed, s).Some? then Some(UnknownField)
    else None
  }

  predicate FatalAt(c: Contract, observed: Json, s: string) {
    s in c && c[s].required && DriftAt(c, observed, s).Some?
  }

  /** The decision the loop over expected paths takes for one of them. */
  method CheckExpected(entry: Expectation, s: string, presence: map<string, Presence>, observed: Json)
    returns (kind: Option<Kind>)
    requires Lookup(presence, s) == TextPresence(observed, s)
    ensures kind == ExpectedDrift(entry, TextPresence(observed, s), TextAncestor(observed, s))
  {
    if s !in presence {
      if TextAncestor(observed, s) {
        return None;
      }
      if entry.required {
        return Some(MissingField);
      }
      return None;
    }
    if entry.required && presence[s].present < presence[s].total {
      return Some(MissingField);
    }
    var unexpected := presence[s].types - entry.types;
    if FloatType in entry.types {
      unexpected := unexpected - {IntType};
    }
    return if unexpected != {} then Some(TypeChange) else None;
  }

  /** One event for each of the decided texts that drifts, and no others. */
  ghost predicate Tells(events: seq<Event>, c: Contract, observed: Json, decided: set<string>) {
    && (forall e :: e in events <==> e.path in decided && DriftAt(c, observed, e.path) == Some(e.kind))
    && (forall i, j | 0 <= i < j < |events| :: events[i].path != events[j].path)
  }

  lemma TellsOneMore(events: seq<Event>, c: Contract, observed: Json, decided: set<string>, s: string)
    requires Tells(events, c, observed, decided) && s !in decided
    ensures Tells(WithEvent(events, DriftAt(c, observed, s), s), c, observed, decided + {s})
  {
    forall i | 0 <= i < |events| ensures events[i].path in decided {
      assert events[i] in events;
    }
  }

  function WithEvent(events: seq<Event>, kind: Option<Kind>, s: string): seq<Event> {
    if kind.Some? then events + [Event(kind.value, s)] else events
  }

  lemma ExpectedDecided(events: seq<Event>, c: Contract, observed: Json, texts: set<string>, s: string)
    requires texts <= c.Keys && s in texts && Tells(events, c, observed, c.Keys - texts)
    ensures Tells(WithEvent(events, DriftAt(c, observed, s), s), c, observed, c.Keys - (texts - {s}))
  {
    TellsOneMore(events, c, observed, c.Keys - texts, s);
    assert c.Keys - (texts - {s}) == c.Keys - texts + {s};
  }

  /** The first loop: one decision per expected path. */
  method DiffExpected(c: Contract, presence: map<string, Presence>, observed: Json) returns (events: seq<Event>, fatal: bool)
    requires forall s :: Lookup(presence, s) == TextPresence(observed, s)
    ensures Tells(events, c, observed, c.Keys - {})
    ensures fatal <==> exists s | s in c :: FatalAt(c, observed, s)
  {
    events, fatal := [], false;
    var texts := c.Keys;
    while texts != {}
      invariant texts <= c.Keys
      invariant Tells(events, c, observed, c.Keys - texts)
      invariant fatal <==> exists s | s in c :: s !in texts && FatalAt(c, observed, s)
      decreases |texts|
    {
      var s :| s in texts;
      var kind := CheckExpected(c[s], s, presence, observed);
      ExpectedDecided(events, c, observed, texts, s);
      events := WithEvent(events, kind, s);
      fatal := fatal || (kind.Some? && c[s].required);
      texts := texts - {s};
    }
  }

  lemma ObservedDecided(events: seq<Event>, c: Contract, observed: Json, seen: set<string>, texts: set<string>, s: string)
    requires texts <= seen && s in texts && Tells(events, c, observed, c.Keys + (seen - texts))
    ensures var more := if s in c then events else WithEvent(events, DriftAt(c, observed, s), s);
      Tells(more, c, observed, c.Keys + (seen - (texts - {s})))
  {
    if s in c {
      assert c.Keys + (seen - (texts - {s})) == c.Keys + (seen - texts);
    } else {
      TellsOneMore(events, c, observed, c.Keys + (seen - texts), s);
      assert c.Keys + (seen - (texts - {s})) == c.Keys + (seen - texts) + {s};
    }
  }

  /** The second loop: one event per observed path that is not expected. */
  method DiffObserved(c: Contract, presence: map<string, Presence>, observed: Json, expected: seq<Event>)
    returns (events: seq<Event>)
    requires forall s :: Lookup(presence, s) == TextPresence(observed, s)
    requires Tells(expected, c, observed, c.Keys + (presence.Keys - presence.Keys))
    ensures Tells(events, c, observed, c.Keys + (presence.Keys - {}))
  {
    events := expected;
    var texts := presence.Keys;
    while texts != {}
      invariant texts <= presence.Keys
      invariant Tells(events, c, observed, c.Keys + (presence.Keys - texts))
      decreases |texts|
    {
      var s :| s in texts;
      assert Lookup(presence, s) == TextPresence(observed, s);
      ObservedDecided(events, c, observed, presence.Keys, texts, s);
      if s !in c {
        events := events + [Event(UnknownField, s)];
      }
      texts := texts - {s};
    }
  }

  method DiffContract(c: Contract, observed: Json) returns (events: seq<Event>, fatal: bool)
    ensures forall e :: e in events <==> DriftAt(c, observed, e.path) == Some(e.kind)
    ensures forall i, j | 0 <= i < j < |events| :: events[i].path != events[j].path
    ensures fatal <==> exists s | s in c :: FatalAt(c, observed, s)
  {
    var presence := PresenceMap(observed);
    events, fatal := DiffExpected(c, presence, observed);
    assert c.Keys - {} == c.Keys + (presence.Keys - presence.Keys);
    events := DiffObserved(c, presence, observed, events);
    forall s | s !in c.Keys + (presence.Keys - {}) ensures DriftAt(c, observed, s) == None {
      assert Lookup(presence, s) == TextPresence(observed, s);
    }
  }

  // ----- what drift detection promises -----

  lemma PresentAtMostTotal(v: Json, s: string)
    requires TextPresence(v, s).Some?
    ensures 0 <= TextPresence(v, s).value.present <= TextPresence(v, s).value.total
  {
    SubsetSize(Marked(Records(v, [], s)), Records(v, [], s));
  }

  lemma {:induction false} SubsetSize(a: set<Record>, b: set<Record>)
    requires a <= b
    ensures |a| <= |b|
    decreases b
  {
    if b != {} {
      var r :| r in b;
      SubsetSize(a - {r}, b - {r});
    }
  }

  /** No payload drifts from the contract built from it, whatever is optional. */
  lemma PayloadMeetsItsOwnContract(payload: Json, optional: set<string>, texts: set<string>, s: string)
    requires forall x :: x in texts <==> TextPresence(payload, x).Some?
    ensures DriftAt(ContractOf(payload, optional, texts), payload, s) == None
  {
    if s in texts {
      PresentAtMostTotal(payload, s);
    }
  }
}
