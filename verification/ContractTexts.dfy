/** What the texts that key the presence map stand for, and what drift detection on
    them promises (src/usagebassoon/contracts.py, `_presence`, `diff_contract`), for
    keys that contain neither "." nor "[]": a text names one path below the top and
    the same path below every empty key that starts at the top. */
module ContractTexts {
  import opened Wrappers
  import opened JsonPaths
  import opened Contracts
  import opened ContractPaths

  // ----- one path in one place -----

  lemma SameLeadingSameText(p: Path, q: Path)
    requires CleanPath(p) && CleanPath(q) && Leading(p) == Leading(q)
    ensures Text(p) == Text(q) <==> p == q
  {
    TextsCollideExactly(p, q);
    assert p == p[..Leading(p)] + p[Leading(p)..] && q == q[..Leading(q)] + q[Leading(q)..];
    assert p[..Leading(p)] == q[..Leading(q)];
  }

  lemma LeadingOfLonger(at: Path, p: Path)
    requires Leading(at) < |at| && at <= p
    ensures Leading(p) == Leading(at)
  {
    var k := Leading(at);
    assert forall x | 0 <= x <= k :: p[x] == at[x];
  }

  /** In a place that is not reached by empty keys alone, one path has the text. */
  lemma ShowsOnePath(node: Json, at: Path, p: Path, t: JsonType)
    requires CleanKeys(node) && CleanPath(at) && CleanPath(p)
    requires Leading(at) < |at| && Leading(p) == Leading(at)
    ensures Shows(node, at, Text(p), t) <==> at <= p && Occurs(node, p, |at|, t)
  {
    ShowsMeansPath(node, at, Text(p), t);
    forall r | at <= r && Text(r) == Text(p) && Occurs(node, r, |at|, t) ensures r == p {
      OccurringPathsAreClean(node, r, |at|, t);
      assert forall k | 0 <= k < |at| :: r[k] == at[k];
      LeadingOfLonger(at, r);
      SameLeadingSameText(r, p);
    }
  }

  lemma MemberShowsOnePath(items: seq<Json>, path: Path, p: Path)
    requires CleanKeys(Arr(items)) && CleanPath(path) && CleanPath(p)
    requires Leading(path) < |path| && Leading(p) == Leading(path)
    ensures ShownTypes(items, path, Text(p)) == if path <= p then MemberTypes(items, p, |path|) else {}
    ensures path <= p ==> (AllShow(items, path, Text(p)) <==> AllHave(items, p, |path|))
  {
    forall k, t: JsonType | 0 <= k < |items|
      ensures Shows(items[k], path, Text(p), t) <==> path <= p && Occurs(items[k], p, |path|, t)
    {
      ShowsOnePath(items[k], path, p, t);
    }
    if path <= p {
      forall k | 0 <= k < |items| ensures ShowsAny(items[k], path, Text(p)) <==> Has(items[k], p, |path|) {
      }
    }
  }

  lemma {:induction false} ArrayShowsOnePath(items: seq<Json>, at: Path, p: Path)
    requires CleanKeys(Arr(items)) && CleanPath(at) && CleanPath(p) && Leading(p) == Leading(at + [Each])
    ensures Summary(ArrayRecords(items, at + [Each], Text(p)))
         == if at < p && p[|at|] == Each then PresenceOf(Arr(items), p, |at|) else None
  {
    MarkEndsLeading(at);
    MemberShowsOnePath(items, at + [Each], p);
    ArrayRecordsCount(items, at + [Each], Text(p));
    StepIsPrefix(at, p, Each);
  }

  lemma MarkEndsLeading(at: Path)
    ensures Leading(at + [Each]) <= |at|
  {
    assert (at + [Each])[|at|] == Each;
  }

  lemma NoRecordsElsewhere(child: Json, path: Path, p: Path)
    requires CleanKeys(child) && CleanPath(path) && CleanPath(p)
    requires Leading(path) < |path| && Leading(p) == Leading(path) && !(path <= p)
    ensures FieldRecords(child, path, Text(p)) == {}
  {
    if r :| r in FieldRecords(child, path, Text(p)) {
      FieldRecordsMeanPaths(child, path, Text(p), r.kind);
      assert r.kind in Kinds(FieldRecords(child, path, Text(p)));
      ShowsOnePath(child, path, p, r.kind);
      SameLeadingSameText(path, p);
    }
  }

  /** There the records of a text are the presence of its path. */
  lemma {:induction false} RecordsOfOnePath(node: Json, at: Path, p: Path)
    requires CleanKeys(node) && CleanPath(at) && CleanPath(p)
    requires Leading(at) < |at| && Leading(p) == Leading(at)
    ensures Summary(Records(node, at, Text(p))) == if at < p then PresenceOf(node, p, |at|) else None
    decreases node, 1
  {
    match node
    case Obj(_) => FieldsOfOnePath(node, at, p);
    case Arr(items) =>
      LeadingOfLonger(at, at + [Each]);
      ArrayShowsOnePath(items, at, p);
    case _ =>
  }

  lemma {:induction false} FieldsOfOnePath(node: Json, at: Path, p: Path)
    requires node.Obj? && CleanKeys(node) && CleanPath(at) && CleanPath(p)
    requires Leading(at) < |at| && Leading(p) == Leading(at)
    ensures Summary(Records(node, at, Text(p))) == if at < p then PresenceOf(node, p, |at|) else None
    decreases node, 0
  {
    OtherFieldsHaveNone(node, at, p);
    if at < p && p[|at|].Field? && p[|at|].name in node.fields {
      var n := p[|at|].name;
      NamedPath(at, n);
      StepIsPrefix(at, p, Field(n));
      FieldRecordsOfOnePath(node.fields[n], at + [Field(n)], p);
      OnlyField(node, at, n, Text(p));
      PresenceThrough(node, at, n, p);
    } else {
      NoField(node, at, Text(p));
      NoPresence(node, at, p);
    }
  }

  lemma PresenceThrough(node: Json, at: Path, n: string, p: Path)
    requires node.Obj? && n in node.fields && at < p && p[|at|] == Field(n)
    ensures PresenceOf(node, p, |at|)
         == if at + [Field(n)] == p then Some(Presence({TypeOf(node.fields[n])}, 1, 1))
            else PresenceOf(node.fields[n], p, |at + [Field(n)]|)
  {
    StepIsPrefix(at, p, Field(n));
  }

  lemma NoPresence(node: Json, at: Path, p: Path)
    requires node.Obj? && !(at < p && p[|at|].Field? && p[|at|].name in node.fields)
    ensures at < p ==> PresenceOf(node, p, |at|) == None
  {
  }

  lemma OtherFieldsHaveNone(node: Json, at: Path, p: Path)
    requires node.Obj? && CleanKeys(node) && CleanPath(at) && CleanPath(p)
    requires Leading(at) < |at| && Leading(p) == Leading(at)
    ensures forall n | n in node.fields && !(at < p && p[|at|] == Field(n)) ::
      FieldRecords(node.fields[n], at + [Field(n)], Text(p)) == {}
  {
    forall n | n in node.fields && !(at < p && p[|at|] == Field(n))
      ensures FieldRecords(node.fields[n], at + [Field(n)], Text(p)) == {}
    {
      NamedPath(at, n);
      StepIsPrefix(at, p, Field(n));
      NoRecordsElsewhere(node.fields[n], at + [Field(n)], p);
    }
  }

  lemma NoField(node: Json, at: Path, s: string)
    requires node.Obj?
    requires forall m | m in node.fields :: FieldRecords(node.fields[m], at + [Field(m)], s) == {}
    ensures Records(node, at, s) == {}
  {
    forall r ensures r !in Records(node, at, s) {
      assert r in Records(node, at, s) <==>
        exists m :: m in node.fields && r in FieldRecords(node.fields[m], at + [Field(m)], s);
    }
  }

  lemma NamedPath(at: Path, n: string)
    requires Leading(at) < |at|
    ensures Leading(at + [Field(n)]) == Leading(at) < |at + [Field(n)]|
  {
    LeadingOfLonger(at, at + [Field(n)]);
  }

  lemma StepIsPrefix(at: Path, p: Path, step: Step)
    ensures at + [step] <= p <==> at < p && p[|at|] == step
  {
    if at < p && p[|at|] == step {
      assert p == p[..|at|] + [p[|at|]] + p[|at| + 1..];
    }
    if at + [step] <= p {
      assert (at + [step])[|at|] == step;
    }
  }

  lemma OnlyField(node: Json, at: Path, n: string, s: string)
    requires node.Obj? && n in node.fields
    requires forall m | m in node.fields && m != n :: FieldRecords(node.fields[m], at + [Field(m)], s) == {}
    ensures Records(node, at, s) == FieldRecords(node.fields[n], at + [Field(n)], s)
  {
    forall r ensures r in Records(node, at, s) <==> r in FieldRecords(node.fields[n], at + [Field(n)], s) {
      assert r in Records(node, at, s) <==>
        exists m :: m in node.fields && r in FieldRecords(node.fields[m], at + [Field(m)], s);
    }
  }

  lemma FieldRecordsOfOnePath(child: Json, path: Path, p: Path)
    requires CleanKeys(child) && CleanPath(path) && CleanPath(p)
    requires Leading(path) < |path| && Leading(p) == Leading(path) && path <= p
    ensures Summary(FieldRecords(child, path, Text(p)))
         == if path == p then Some(Presence({TypeOf(child)}, 1, 1)) else PresenceOf(child, p, |path|)
    decreases child, 2
  {
    FieldRecordsAdd(child, path, Text(p));
    RecordsOfOnePath(child, path, p);
    SameLeadingSameText(path, p);
  }

  // ----- below the empty keys at the top -----

  predicate EmptyAtTop(v: Json) {
    v.Obj? && "" in v.fields
  }

  /** The presence of a path in the payload and below every run of empty keys that
      starts at the top; the empty keys themselves have the empty text. */
  function AllPresence(v: Json, q: Path): Option<Presence> {
    Plus(PresenceOf(v, q, 0), Deeper(v, q))
  }

  function Deeper(v: Json, q: Path): Option<Presence> {
    if !EmptyAtTop(v) then None
    else
      var child := v.fields[""];
      Plus(if q == [] then Some(Presence({TypeOf(child)}, 1, 1)) else None,
           Plus(PresenceOf(child, q, 0), Deeper(child, q)))
  }

  /** A path that does not start with an empty key.  Every text of a clean path is the
      text of exactly one stem. */
  predicate IsStem(q: Path) {
    CleanPath(q) && Leading(q) == 0
  }

  function StemOf(p: Path): Path {
    p[Leading(p)..]
  }

  lemma StemSharesText(p: Path)
    requires CleanPath(p)
    ensures IsStem(StemOf(p)) && Text(StemOf(p)) == Text(p)
  {
    LeadingDropped(p, |p|);
    assert StemOf(p) != [] ==> StemOf(p)[0] == p[Leading(p)];
  }

  lemma BehindEmptyKeys(at: Path, q: Path)
    requires Leading(at) == |at| && IsStem(q)
    ensures CleanPath(at + q) && Leading(at + q) == |at| && Text(at + q) == Text(q)
    ensures (at + q)[|at|..] == q
  {
    var p := at + q;
    assert forall k | 0 <= k < |at| :: p[k] == at[k] == Field("");
    assert q != [] ==> p[|at|] == q[0];
    assert p[|at|..] == q;
    LeadingDropped(p, |p|);
  }

  lemma OneMoreEmptyKey(at: Path, q: Path)
    requires Leading(at) == |at| && IsStem(q)
    ensures Leading(at + [Field("")]) == |at| + 1
    ensures Text(at + [Field("")]) == Text(q) <==> q == []
  {
    var longer := at + [Field("")];
    assert forall k | 0 <= k < |longer| :: longer[k] == Field("");
    LeadingLeavesNoTrace(longer, |longer|);
    RenderedIsNonempty(q, 0, |q|);
  }

  function Named(v: Json, q: Path): set<string> {
    if v.Obj? && q != [] && q[0].Field? && q[0].name in v.fields then {q[0].name} else {}
  }

  lemma {:induction false} NamedRecords(v: Json, at: Path, q: Path)
    requires v.Obj? && CleanKeys(v) && Leading(at) == |at| && IsStem(q)
    ensures Summary(RecordsUnder(v, at, Named(v, q), Text(q))) == PresenceOf(v, q, 0)
  {
    var p := at + q;
    BehindEmptyKeys(at, q);
    PresenceShifted(v, p, |at|, q, 0);
    assert RecordsUnder(v, at, {}, Text(q)) == {};
    if Named(v, q) != {} {
      NamedFieldRecords(v, at, q);
      OneMoreField(v, at, {}, q[0].name, Text(q));
      assert {} + {q[0].name} == Named(v, q);
    } else {
      NoPresence(v, at, p);
    }
  }

  lemma NamedFieldRecords(v: Json, at: Path, q: Path)
    requires v.Obj? && CleanKeys(v) && Leading(at) == |at| && IsStem(q) && Named(v, q) != {}
    ensures Summary(FieldRecords(v.fields[q[0].name], at + [q[0]], Text(q))) == PresenceOf(v, at + q, |at|)
  {
    var n, p := q[0].name, at + q;
    BehindEmptyKeys(at, q);
    assert p[|at|] == Field(n);
    StepIsPrefix(at, p, Field(n));
    NamedBehindEmptyKeys(at, n);
    FieldRecordsOfOnePath(v.fields[n], at + [Field(n)], p);
    PresenceThrough(v, at, n, p);
  }

  lemma NamedBehindEmptyKeys(at: Path, n: string)
    requires Leading(at) == |at| && n != ""
    ensures Leading(at + [Field(n)]) == |at|
  {
    var path := at + [Field(n)];
    assert path[|at|] == Field(n);
    assert forall k | 0 <= k < |at| :: path[k] == at[k] == Field("");
  }

  lemma UnnamedHasNone(v: Json, at: Path, q: Path, n: string)
    requires v.Obj? && CleanKeys(v) && Leading(at) == |at| && IsStem(q)
    requires n in v.fields && n != "" && n !in Named(v, q)
    ensures FieldRecords(v.fields[n], at + [Field(n)], Text(q)) == {}
  {
    var p := at + q;
    BehindEmptyKeys(at, q);
    NamedBehindEmptyKeys(at, n);
    StepIsPrefix(at, p, Field(n));
    NoRecordsElsewhere(v.fields[n], at + [Field(n)], p);
  }

  lemma OtherNamesAddNone(v: Json, at: Path, names: set<string>, s: string)
    requires v.Obj? && names <= v.fields.Keys
    requires forall n | n in v.fields && n !in names :: FieldRecords(v.fields[n], at + [Field(n)], s) == {}
    ensures Records(v, at, s) == RecordsUnder(v, at, names, s)
  {
    forall r ensures r in Records(v, at, s) <==> r in RecordsUnder(v, at, names, s) {
      assert r in Records(v, at, s) <==>
        exists n :: n in v.fields && r in FieldRecords(v.fields[n], at + [Field(n)], s);
      assert r in RecordsUnder(v, at, names, s) <==>
        exists n :: n in names && r in FieldRecords(v.fields[n], at + [Field(n)], s);
    }
  }

  lemma TopFieldsAddUp(v: Json, at: Path, q: Path)
    requires v.Obj? && CleanKeys(v) && Leading(at) == |at| && IsStem(q)
    ensures var below := if EmptyAtTop(v) then FieldRecords(v.fields[""], at + [Field("")], Text(q)) else {};
      Summary(Records(v, at, Text(q))) == Plus(PresenceOf(v, q, 0), Summary(below))
  {
    var names := Named(v, q);
    NamedRecords(v, at, q);
    forall n | n in v.fields && n != "" && n !in names
      ensures FieldRecords(v.fields[n], at + [Field(n)], Text(q)) == {}
    {
      UnnamedHasNone(v, at, q, n);
    }
    if EmptyAtTop(v) {
      OneMoreField(v, at, names, "", Text(q));
      OtherNamesAddNone(v, at, names + {""}, Text(q));
    } else {
      OtherNamesAddNone(v, at, names, Text(q));
    }
  }

  lemma {:induction false} TopRecords(v: Json, at: Path, q: Path)
    requires CleanKeys(v) && Leading(at) == |at| && IsStem(q)
    ensures Summary(Records(v, at, Text(q))) == AllPresence(v, q)
    decreases v
  {
    match v
    case Obj(_) =>
      TopFieldsAddUp(v, at, q);
      if EmptyAtTop(v) {
        var child, longer := v.fields[""], at + [Field("")];
        OneMoreEmptyKey(at, q);
        TopRecords(child, longer, q);
        FieldRecordsAdd(child, longer, Text(q));
      }
    case Arr(items) =>
      BehindEmptyKeys(at, q);
      PresenceShifted(v, at + q, |at|, q, 0);
      MarkBehindEmptyKeys(at);
      ArrayShowsOnePath(items, at, at + q);
    case _ =>
  }

  lemma MarkBehindEmptyKeys(at: Path)
    requires Leading(at) == |at|
    ensures Leading(at + [Each]) == |at|
  {
    var path := at + [Each];
    assert path[|at|] == Each;
    assert forall k | 0 <= k < |at| :: path[k] == at[k] == Field("");
  }

  /** A text stands for its path in the payload and the same path below every run of
      empty keys that starts at the top: types unite and counts add up. */
  lemma TextPresenceAddsUp(v: Json, q: Path)
    requires CleanKeys(v) && IsStem(q)
    ensures TextPresence(v, Text(q)) == AllPresence(v, q)
  {
    TopRecords(v, [], q);
  }

  // ----- where a text is present -----

  /** The path occurs below empty keys that start at the top. */
  predicate HasDeeper(v: Json, q: Path) {
    EmptyAtTop(v) && (Has(v.fields[""], q, 0) || HasDeeper(v.fields[""], q))
  }

  lemma {:induction false} DeeperIsPresent(v: Json, q: Path)
    requires q != []
    ensures Deeper(v, q).Some? <==> HasDeeper(v, q)
    ensures Deeper(v, q).Some? ==> Deeper(v, q).value.total > 0
    decreases v
  {
    if EmptyAtTop(v) {
      var child := v.fields[""];
      DeeperIsPresent(child, q);
      PresenceMeansOccurrence(child, q, 0);
      if PresenceOf(child, q, 0).Some? {
        PathCountsAreAllOrNothing(child, q, 0);
      }
    }
  }

  lemma PresentSomewhere(v: Json, q: Path)
    requires CleanKeys(v) && IsStem(q) && q != []
    ensures TextPresence(v, Text(q)).Some? <==> Has(v, q, 0) || HasDeeper(v, q)
  {
    TextPresenceAddsUp(v, q);
    PresenceMeansOccurrence(v, q, 0);
    DeeperIsPresent(v, q);
  }

  /** A text is as present as its path in the payload itself if and only if the path
      does not occur below empty keys at the top as well. */
  lemma StepPresenceExactly(v: Json, q: Path)
    requires CleanKeys(v) && IsStem(q) && q != []
    ensures TextPresence(v, Text(q)) == PresenceOf(v, q, 0) <==> !HasDeeper(v, q)
  {
    TextPresenceAddsUp(v, q);
    DeeperIsPresent(v, q);
  }

  /** That holds for all texts if and only if the top has no empty key. */
  lemma StepsTellTextsExactly(v: Json)
    requires CleanKeys(v)
    ensures (forall q | IsStem(q) :: TextPresence(v, Text(q)) == PresenceOf(v, q, 0)) <==> !EmptyAtTop(v)
  {
    if EmptyAtTop(v) {
      TextPresenceAddsUp(v, []);
      assert IsStem([]);
    } else {
      forall q | IsStem(q) ensures TextPresence(v, Text(q)) == PresenceOf(v, q, 0) {
        TextPresenceAddsUp(v, q);
      }
    }
  }

  // ----- counts -----

  predicate Full(v: Json, q: Path) {
    OutermostArray(v, q, 0).None? || AllHave(OutermostArray(v, q, 0).value.0, q, OutermostArray(v, q, 0).value.1)
  }

  /** In every place that holds the path at all it is full, or nowhere, as `full`
      says: the payload, and what the empty keys at the top lead to. */
  predicate Everywhere(v: Json, q: Path, full: bool) {
    && (Has(v, q, 0) ==> Full(v, q) == full)
    && (EmptyAtTop(v) ==> Everywhere(v.fields[""], q, full))
  }

  function Share(r: Option<Presence>): (nat, nat) {
    if r.None? then (0, 0) else (r.value.present, r.value.total)
  }

  lemma CountsInOnePlace(v: Json, q: Path)
    requires q != []
    ensures var (present, total) := Share(PresenceOf(v, q, 0));
      && present <= total && (total > 0 <==> Has(v, q, 0))
      && (present == total <==> (Has(v, q, 0) ==> Full(v, q)))
      && (present == 0 <==> (Has(v, q, 0) ==> !Full(v, q)))
  {
    PresenceMeansOccurrence(v, q, 0);
    if PresenceOf(v, q, 0).Some? {
      PathCountsAreAllOrNothing(v, q, 0);
    }
  }

  lemma {:induction false} CountsEverywhere(v: Json, q: Path)
    requires q != []
    ensures var (present, total) := Share(AllPresence(v, q));
      && present <= total
      && (present == total <==> Everywhere(v, q, true))
      && (present == 0 <==> Everywhere(v, q, false))
    decreases v
  {
    CountsInOnePlace(v, q);
    if EmptyAtTop(v) {
      CountsEverywhere(v.fields[""], q);
    }
  }

  /** The counts of a text are all or nothing if and only if the places that hold its
      path agree on whether every member of the outermost array has it. */
  lemma CountsAreAllOrNothingExactly(v: Json, q: Path)
    requires CleanKeys(v) && IsStem(q) && q != []
    requires TextPresence(v, Text(q)).Some?
    ensures var r := TextPresence(v, Text(q)).value;
      && r.present <= r.total
      && (r.present == r.total <==> Everywhere(v, q, true))
      && (r.present == 0 <==> Everywhere(v, q, false))
  {
    TextPresenceAddsUp(v, q);
    CountsEverywhere(v, q);
  }

  /** Without an empty key at the top there is one place, so they always are. */
  lemma CountsAreAllOrNothing(v: Json, q: Path)
    requires CleanKeys(v) && IsStem(q) && !EmptyAtTop(v)
    requires TextPresence(v, Text(q)).Some?
    ensures var r := TextPresence(v, Text(q)).value;
      && r.total == |r.types| > 0
      && r.present == if Full(v, q) then r.total else 0
  {
    StepsTellTextsExactly(v);
    PathCountsAreAllOrNothing(v, q, 0);
  }

  // ----- where a tolerated text may yet be present -----

  /** A tolerated path that does not divert is absent if and only if it does not
      occur below empty keys at the top. */
  lemma ToleratedIsAbsentUnlessDeeper(v: Json, p: Path)
    requires CleanKeys(v) && IsStem(p) && p != [] && TextAncestor(v, Text(p)) && !Diverts(p)
    ensures TextPresence(v, Text(p)).None? <==> !HasDeeper(v, p)
  {
    PresentSomewhere(v, p);
    if t: JsonType :| Occurs(v, p, 0, t) {
      TextsDecideTolerance(v, p);
      PresentSegmentsDivert(v, p, t);
    }
  }

  /** Every path of a contract ends in a field.  In payloads without an empty key at
      the top being tolerated means being absent, for every one of them, if and only
      if the first empty keys of the path do not lead straight to a named field with
      a deciding mark behind it. */
  lemma ToleratedTextIsAbsentExactly(p: Path)
    requires IsStem(p) && p != [] && p[|p| - 1].Field?
    ensures (forall v | CleanKeys(v) && !EmptyAtTop(v) && TextAncestor(v, Text(p)) :: TextPresence(v, Text(p)).None?)
       <==> !Diverts(p)
  {
    if Diverts(p) {
      var s, j, m :| 0 <= s < j < m < |p| && Detour(p, s, j) && Decisive(p, 0, m);
      var v := Both(p, 0, s, j, m);
      DivertedIsTolerated(p, s, j, m);
      PresenceMeansOccurrence(v, p, 0);
      PresentSomewhere(v, p);
      assert p[0] != Field("") && !EmptyAtTop(v);
    } else {
      forall v | CleanKeys(v) && !EmptyAtTop(v) && TextAncestor(v, Text(p)) ensures TextPresence(v, Text(p)).None? {
        ToleratedIsAbsentUnlessDeeper(v, p);
      }
    }
  }

  /** The path starts at a field and has a mark that can decide: an object can hold
      it empty under that field, and for real below an empty key. */
  predicate Doubles(p: Path) {
    p != [] && p[0].Field? && exists m | 0 <= m < |p| :: Decisive(p, 0, m)
  }

  /** In all payloads it means being absent if and only if, besides, the path does
      not start at a field with a deciding mark behind. */
  lemma ToleratedMeansAbsentExactly(p: Path)
    requires IsStem(p) && p != [] && p[|p| - 1].Field?
    ensures (forall v | CleanKeys(v) && TextAncestor(v, Text(p)) :: TextPresence(v, Text(p)).None?)
       <==> !Diverts(p) && !Doubles(p)
  {
    if Doubles(p) || Diverts(p) {
      ToleratedAndPresent(p);
    } else {
      forall v | CleanKeys(v) && TextAncestor(v, Text(p)) ensures TextPresence(v, Text(p)).None? {
        UndoubledIsAbsent(v, p);
      }
    }
  }

  lemma ToleratedAndPresent(p: Path)
    requires IsStem(p) && p != [] && p[|p| - 1].Field? && (Doubles(p) || Diverts(p))
    ensures exists v | CleanKeys(v) :: TextAncestor(v, Text(p)) && TextPresence(v, Text(p)).Some?
  {
    if Doubles(p) {
      var m :| 0 <= m < |p| && Decisive(p, 0, m);
      DoubledIsTolerated(p, m);
    } else {
      ToleratedTextIsAbsentExactly(p);
    }
  }

  lemma UndoubledIsAbsent(v: Json, p: Path)
    requires IsStem(p) && p != [] && !Diverts(p) && !Doubles(p)
    requires CleanKeys(v) && TextAncestor(v, Text(p))
    ensures TextPresence(v, Text(p)).None?
  {
    TextsDecideTolerance(v, p);
    var m := TextsNeedMark(v, p, 0);
    MarkedTopIsArray(v, p);
    ToleratedIsAbsentUnlessDeeper(v, p);
  }

  lemma MarkedTopIsArray(v: Json, p: Path)
    requires p != [] && p[0].Each? && SegmentsDecide(v, p, 0)
    ensures !EmptyAtTop(v)
  {
  }

  lemma {:induction false} DoubledIsTolerated(p: Path, m: nat)
    requires IsStem(p) && p != [] && p[0].Field? && p[|p| - 1].Field? && Decisive(p, 0, m)
    ensures var v := Obj(map[p[0].name := Detoured(p, 1, m), "" := Real(p, 0, Null)]);
      CleanKeys(v) && TextAncestor(v, Text(p)) && TextPresence(v, Text(p)).Some?
  {
    var v := Obj(map[p[0].name := Detoured(p, 1, m), "" := Real(p, 0, Null)]);
    DetouredIsClean(p, 1, m);
    RealIsClean(p, 0, Null);
    NamedDecides(v, p, 0, m);
    TextsDecideTolerance(v, p);
    RealIsPresent(p, 0, Null, NullType);
    assert v.fields[""] == Real(p, 0, Null);
    PresentSomewhere(v, p);
  }

  /** For one: an empty key below `a` holds the path, an empty array stands beside. */
  lemma PresentPathIsTolerated()
    ensures var p := [Field("a"), Field(""), Field("b"), Each, Field("c")];
      exists v :: CleanKeys(v) && !EmptyAtTop(v) && TextAncestor(v, Text(p)) && TextPresence(v, Text(p)).Some?
  {
    var p := [Field("a"), Field(""), Field("b"), Each, Field("c")];
    assert Detour(p, 1, 2) && Decisive(p, 0, 3);
    ToleratedTextIsAbsentExactly(p);
  }

  // ----- three payloads with an empty key at the top -----

  lemma OneMorePlace(v: Json, q: Path)
    requires EmptyAtTop(v) && !EmptyAtTop(v.fields[""]) && q != []
    ensures AllPresence(v, q) == Plus(PresenceOf(v, q, 0), PresenceOf(v.fields[""], q, 0))
  {
    var child := v.fields[""];
    assert Deeper(child, q) == None;
    assert Deeper(v, q) == Plus(None, Plus(PresenceOf(child, q, 0), Deeper(child, q)));
  }

  /** The fields of `{"a": members, "": {"a": below}}` at the path a[].b. */
  const A_B: Path := [Field("a"), Each, Field("b")]

  function Twice(members: seq<Json>, below: seq<Json>): Json {
    Obj(map["a" := Arr(members), "" := Obj(map["a" := Arr(below)])])
  }

  const B_ONE: Json := Obj(map["b" := Int(1)])
  const NOTHING: Json := Obj(map[])

  lemma MembersHold(members: seq<Json>)
    requires members in {[], [B_ONE], [B_ONE, NOTHING]}
    ensures MemberTypes(members, A_B, 2) == if members == [] then {} else {IntType}
    ensures AllHave(members, A_B, 2) <==> members != [B_ONE, NOTHING]
  {
    forall t: JsonType ensures Occurs(B_ONE, A_B, 2, t) <==> t == IntType {
    }
    forall t: JsonType ensures !Occurs(NOTHING, A_B, 2, t) {
    }
    if members != [] {
      assert members[0] == B_ONE && Occurs(members[0], A_B, 2, IntType);
      assert forall k, t: JsonType | 0 <= k < |members| && Occurs(members[k], A_B, 2, t) :: t == IntType;
      assert Has(members[0], A_B, 2);
    }
    if members == [B_ONE, NOTHING] {
      assert !Has(members[1], A_B, 2);
    }
  }

  lemma HeldOnce(v: Json, members: seq<Json>)
    requires v.Obj? && "a" in v.fields && v.fields["a"] == Arr(members)
    requires members in {[], [B_ONE], [B_ONE, NOTHING]}
    ensures PresenceOf(v, A_B, 0)
         == if members == [] then None else Some(Presence({IntType}, if members == [B_ONE] then 1 else 0, 1))
  {
    MembersHold(members);
    assert |{IntType}| == 1;
    assert PresenceOf(v, A_B, 0) == PresenceOf(Arr(members), A_B, 1);
  }

  lemma TwiceIsClean(members: seq<Json>, below: seq<Json>)
    requires members in {[], [B_ONE], [B_ONE, NOTHING]} && below in {[], [B_ONE], [B_ONE, NOTHING]}
    ensures CleanKeys(Twice(members, below))
  {
    var v := Twice(members, below);
    assert CleanKeys(B_ONE) && CleanKeys(NOTHING);
    assert v.fields["a"] == Arr(members) && v.fields[""].fields["a"] == Arr(below);
    assert CleanKeys(v.fields["a"]) && CleanKeys(v.fields[""].fields["a"]);
  }

  lemma HeldTwice(members: seq<Json>, below: seq<Json>)
    requires members in {[], [B_ONE], [B_ONE, NOTHING]} && below in {[], [B_ONE], [B_ONE, NOTHING]}
    ensures var v := Twice(members, below);
      TextPresence(v, Text(A_B)) == Plus(PresenceOf(v, A_B, 0), PresenceOf(v.fields[""], A_B, 0))
  {
    var v := Twice(members, below);
    assert A_B[0] == Field("a");
    TwiceIsClean(members, below);
    TextPresenceAddsUp(v, A_B);
    OneMorePlace(v, A_B);
  }

  /** Counts that are neither none nor all: one of two. */
  lemma CountsCanBeMixed()
    ensures TextPresence(Twice([B_ONE, NOTHING], [B_ONE]), Text(A_B)) == Some(Presence({IntType}, 1, 2))
  {
    var v := Twice([B_ONE, NOTHING], [B_ONE]);
    HeldTwice([B_ONE, NOTHING], [B_ONE]);
    HeldOnce(v, [B_ONE, NOTHING]);
    HeldOnce(v.fields[""], [B_ONE]);
    assert {IntType} + {IntType} == {IntType};
  }

  /** A path that does not divert is tolerated and yet present. */
  lemma PresentBelowEmptyKeyIsTolerated()
    ensures var v := Twice([], [B_ONE]);
      !Diverts(A_B) && TextAncestor(v, Text(A_B)) && TextPresence(v, Text(A_B)) == Some(Presence({IntType}, 1, 1))
  {
    var v := Twice([], [B_ONE]);
    HeldTwice([], [B_ONE]);
    HeldOnce(v, []);
    HeldOnce(v.fields[""], [B_ONE]);
    TwiceIsClean([], [B_ONE]);
    PathsWithoutEmptyKeys(v, A_B);
    assert EmptyAncestor(v.fields["a"], A_B, 1);
  }

  /** The payload `{"x": 1}`, and with an empty key holding another `x`. */
  const X_ONE: Json := Obj(map["x" := Int(1)])
  const X_TWICE: Json := Obj(map["x" := Int(1), "" := Obj(map["x" := Str("s")])])

  const X: Path := [Field("x")]

  lemma XIsField(v: Json)
    requires v.Obj? && "x" in v.fields
    ensures PresenceOf(v, X, 0) == Some(Presence({TypeOf(v.fields["x"])}, 1, 1))
  {
  }

  lemma XIsAdded()
    ensures CleanKeys(X_TWICE) && CleanKeys(X_ONE) && Extends(X_ONE, X_TWICE, {""})
  {
    assert CleanKeys(X_TWICE.fields[""]) && CleanKeys(X_TWICE.fields["x"]);
  }

  lemma XIsPresent()
    ensures TextPresence(X_ONE, Text(X)) == Some(Presence({IntType}, 1, 1))
    ensures TextPresence(X_TWICE, Text(X)) == Some(Presence({IntType} + {StrType}, 2, 2))
  {
    assert X[0] == Field("x");
    XIsAdded();
    XIsField(X_ONE);
    XIsField(X_TWICE);
    XIsField(X_TWICE.fields[""]);
    TextPresenceAddsUp(X_ONE, X);
    TextPresenceAddsUp(X_TWICE, X);
    OneMorePlace(X_TWICE, X);
  }

  /** An empty key added at the top, though the contract of the payload without it
      mentions none, makes a required field drift, and that is fatal. */
  lemma AddedEmptyKeyIsFatal()
    ensures var s, c := Text(X), ContractOf(X_ONE, {}, {Text(X)});
      && Extends(X_ONE, X_TWICE, {""}) && CleanKeys(X_TWICE)
      && s in c && DriftAt(c, X_ONE, s) == None
      && DriftAt(c, X_TWICE, s) == Some(TypeChange) && FatalAt(c, X_TWICE, s)
  {
    XIsAdded();
    XIsPresent();
    var c := ContractOf(X_ONE, {}, {Text(X)});
    assert c[Text(X)] == Expectation({IntType}, true);
    assert StrType in Unexpected(c[Text(X)], {IntType} + {StrType});
  }

  // ----- drift on texts and on steps -----

  /** Drift of one path, decided on its steps. */
  function StepDrift(e: Expectation, v: Json, p: Path): Option<Kind> {
    ExpectedDrift(e, PresenceOf(v, p, 0), EmptyAncestor(v, p, 0))
  }

  /** The drift of an expected path is decided as on its steps if no empty key stands
      before a deciding mark and the path does not occur below empty keys at the top. */
  lemma DriftAgrees(c: Contract, v: Json, p: Path)
    requires CleanKeys(v) && IsStem(p) && p != [] && Text(p) in c
    requires !Misread(p, 0) && !HasDeeper(v, p)
    ensures DriftAt(c, v, Text(p)) == StepDrift(c[Text(p)], v, p)
  {
    TextsMisreadExactly(p);
    assert TextAncestor(v, Text(p)) <==> EmptyAncestor(v, p, 0);
    StepPresenceExactly(v, p);
  }

  /** On payloads without an empty key at the top it always is, whatever is expected,
      if and only if no empty key stands on the path before a deciding mark. */
  lemma DriftAgreesExactly(p: Path)
    requires IsStem(p) && p != [] && p[|p| - 1].Field?
    ensures (forall c: Contract, v | CleanKeys(v) && !EmptyAtTop(v) && Text(p) in c ::
              DriftAt(c, v, Text(p)) == StepDrift(c[Text(p)], v, p))
       <==> !Misread(p, 0)
  {
    if Misread(p, 0) {
      MisreadDrifts(p);
    } else {
      forall c: Contract, v | CleanKeys(v) && !EmptyAtTop(v) && Text(p) in c
        ensures DriftAt(c, v, Text(p)) == StepDrift(c[Text(p)], v, p)
      {
        DriftAgrees(c, v, p);
      }
    }
  }

  lemma MisreadDrifts(p: Path)
    requires IsStem(p) && p != [] && Misread(p, 0)
    ensures exists c: Contract, v | CleanKeys(v) && !EmptyAtTop(v) && Text(p) in c ::
      DriftAt(c, v, Text(p)) != StepDrift(c[Text(p)], v, p)
  {
    var e, m :| 0 <= e < m < |p| && p[e] == Field("") && Decisive(p, 0, m);
    var v, c := Chain(p, 0, m), map[Text(p) := Expectation({}, true)];
    ChainIsTolerated(p, 0, m);
    ChainIsMissed(p, 0, e, m);
    TextsDecideTolerance(v, p);
    ToleratedPathIsAbsent(v, p);
    assert p[0] != Field("") && !EmptyAtTop(v);
    TextPresenceAddsUp(v, p);
    assert DriftAt(c, v, Text(p)) == Some(MissingField);
  }

  /** Members each hold an inner array under `name`. */
  predicate InnerArrays(members: seq<Json>, name: string) {
    forall k | 0 <= k < |members| ::
      members[k].Obj? && name in members[k].fields && members[k].fields[name].Arr?
  }

  function InnerPath(outer: string, inner: string, leaf: string): Path {
    [Field(outer), Each, Field(inner), Each, Field(leaf)]
  }

  lemma InnerArrayOfMember(member: Json, p: Path, inner: string, leaf: string)
    requires |p| == 5 && p[2] == Field(inner) && p[3] == Each && p[4] == Field(leaf)
    requires member.Obj? && inner in member.fields && member.fields[inner].Arr?
    ensures EmptyAncestor(member, p, 2) <==> member.fields[inner].items == []
    ensures EmptyAncestor(member, p, 2) ==> !Has(member, p, 2)
  {
    var items := member.fields[inner].items;
    if items != [] {
      assert !EmptyAncestor(items[0], p, 4);
    }
    assert EmptyAncestor(member, p, 2) <==> EmptyAncestor(member.fields[inner], p, 3);
    if EmptyAncestor(member, p, 2) {
      EmptyAncestorHasNothing(member, p, 2);
    }
  }

  /** Below an outermost nonempty array, a required path drifts as missing exactly
      when some member lacks it and the absence is not tolerated. */
  lemma MissingBelowArray(e: Expectation, v: Json, p: Path, members: seq<Json>, i: nat)
    requires e.required
    requires OutermostArray(v, p, 0) == Some((members, i)) && members != []
    requires PresenceOf(v, p, 0).Some? <==> exists k | 0 <= k < |members| :: Has(members[k], p, i)
    ensures StepDrift(e, v, p) == Some(MissingField) <==> !AllHave(members, p, i) && !EmptyAncestor(v, p, 0)
  {
    if PresenceOf(v, p, 0).Some? {
      PathCountsAreAllOrNothing(v, p, 0);
      if EmptyAncestor(v, p, 0) {
        EmptyAncestorHasNothing(v, p, 0);
        PresenceMeansOccurrence(v, p, 0);
      }
    }
    assert AllHave(members, p, i) ==> Has(members[0], p, i);
  }

  lemma EmptyInnerArrays(members: seq<Json>, p: Path, inner: string, leaf: string)
    requires members != [] && InnerArrays(members, inner)
    requires |p| == 5 && p[1] == Each && p[2] == Field(inner) && p[3] == Each && p[4] == Field(leaf)
    ensures EmptyAncestor(Arr(members), p, 1) <==> forall k | 0 <= k < |members| :: members[k].fields[inner].items == []
  {
    forall k | 0 <= k < |members|
      ensures EmptyAncestor(members[k], p, 2) <==> members[k].fields[inner].items == []
    {
      InnerArrayOfMember(members[k], p, inner, leaf);
    }
  }

  lemma PresentInMembers(members: seq<Json>, p: Path)
    requires |p| > 2 && p[1] == Each
    ensures PresenceOf(Arr(members), p, 1).Some? <==> exists k | 0 <= k < |members| :: Has(members[k], p, 2)
  {
    if k :| 0 <= k < |members| && Has(members[k], p, 2) {
      var t: JsonType :| Occurs(members[k], p, 2, t);
      assert t in MemberTypes(members, p, 2);
    }
    if t :| t in MemberTypes(members, p, 2) {
      var k :| 0 <= k < |members| && Occurs(members[k], p, 2, t);
      assert Has(members[k], p, 2);
    }
  }

  /** A required field of inner-array members: with a nonempty outer array its
      absence is tolerated exactly when every inner array is empty; one nonempty
      inner array makes every outer member without the field a fatal omission. */
  lemma EmptyInnerArraysTogetherOnly(e: Expectation, members: seq<Json>, outer: string, inner: string, leaf: string)
    requires e.required && members != [] && InnerArrays(members, inner)
    ensures var p, v := InnerPath(outer, inner, leaf), Obj(map[outer := Arr(members)]);
      && (EmptyAncestor(v, p, 0) <==> forall k | 0 <= k < |members| :: members[k].fields[inner].items == [])
      && (StepDrift(e, v, p) == Some(MissingField) <==>
            !AllHave(members, p, 2) && exists k | 0 <= k < |members| :: members[k].fields[inner].items != [])
  {
    var p, arr := InnerPath(outer, inner, leaf), Arr(members);
    var v := Obj(map[outer := arr]);
    assert v.fields[outer] == arr;
    EmptyInnerArrays(members, p, inner, leaf);
    assert EmptyAncestor(v, p, 0) <==> EmptyAncestor(arr, p, 1);
    assert PresenceOf(v, p, 0) == PresenceOf(arr, p, 1);
    assert OutermostArray(v, p, 0) == OutermostArray(arr, p, 1) == Some((members, 2));
    PresentInMembers(members, p);
    MissingBelowArray(e, v, p, members, 2);
  }

  /** So it is for the texts of such paths whose outer and inner names are no empty
      keys. */
  lemma EmptyInnerArraysOnTexts(c: Contract, members: seq<Json>, outer: string, inner: string, leaf: string)
    requires members != [] && InnerArrays(members, inner)
    requires CleanKeys(Arr(members)) && CleanName(outer) && CleanName(inner) && CleanName(leaf)
    requires outer != "" && inner != ""
    requires Text(InnerPath(outer, inner, leaf)) in c && c[Text(InnerPath(outer, inner, leaf))].required
    ensures var p, v := InnerPath(outer, inner, leaf), Obj(map[outer := Arr(members)]);
      DriftAt(c, v, Text(p)) == Some(MissingField) <==>
        !AllHave(members, p, 2) && exists k | 0 <= k < |members| :: members[k].fields[inner].items != []
  {
    var p, v := InnerPath(outer, inner, leaf), Obj(map[outer := Arr(members)]);
    assert p[0] == Field(outer) && v.fields[outer] == Arr(members) && CleanKeys(v);
    InnerPathIsNotMisread(outer, inner, leaf);
    DriftAgrees(c, v, p);
    EmptyInnerArraysTogetherOnly(c[Text(p)], members, outer, inner, leaf);
  }

  lemma InnerPathIsNotMisread(outer: string, inner: string, leaf: string)
    requires outer != "" && inner != ""
    ensures !Misread(InnerPath(outer, inner, leaf), 0)
  {
    var p := InnerPath(outer, inner, leaf);
    assert forall x | 0 <= x < |p| && p[x] == Field("") :: x == 4;
  }

  // ----- added fields -----

  /** `b` reaches as far down the empty keys at the top as `a` does. */
  predicate SameTops(a: Json, b: Json) {
    && (EmptyAtTop(a) <==> EmptyAtTop(b))
    && (EmptyAtTop(a) ==> SameTops(a.fields[""], b.fields[""]))
  }

  lemma {:induction false} NoEmptyKeyAdded(a: Json, b: Json, added: set<string>)
    requires Extends(a, b, added) && "" !in added
    ensures SameTops(a, b)
    decreases a
  {
    if EmptyAtTop(a) {
      NoEmptyKeyAdded(a.fields[""], b.fields[""], added);
    }
  }

  lemma {:induction false} AddedFieldsKeepDeeper(a: Json, b: Json, added: set<string>, q: Path)
    requires Extends(a, b, added) && SameTops(a, b) && !Mentions(q, 0, added)
    ensures Deeper(a, q) == Deeper(b, q)
    decreases a
  {
    if EmptyAtTop(a) {
      var x, y := a.fields[""], b.fields[""];
      assert TypeOf(x) == TypeOf(y);
      AddedFieldsKeepPresence(x, y, added, q, 0);
      AddedFieldsKeepDeeper(x, y, added, q);
    }
  }

  lemma {:induction false} AddedFieldsKeepSegments(a: Json, b: Json, added: set<string>, p: Path, i: nat)
    requires Extends(a, b, added) && !Mentions(p, i, added)
    ensures SegmentsDecide(a, p, i) <==> SegmentsDecide(b, p, i)
    decreases |p| - i
  {
    if i < |p| && Landing(a, p, i).Some? {
      var n, x, y := SegmentEnd(p, i), Landing(a, p, i).value, Landing(b, p, i).value;
      assert Extends(x, y, added);
      if n < |p| && p[n - 1].Field? {
        AddedFieldsKeepSegments(x, y, added, p, n);
      } else if n < |p| && x.Arr? {
        forall k | 0 <= k < |x.items| ensures SegmentsDecide(x.items[k], p, n) <==> SegmentsDecide(y.items[k], p, n) {
          AddedFieldsKeepSegments(x.items[k], y.items[k], added, p, n);
        }
      }
    }
  }

  lemma AddedFieldsKeepTolerance(a: Json, b: Json, added: set<string>, q: Path)
    requires Extends(a, b, added) && CleanKeys(a) && CleanKeys(b)
    requires IsStem(q) && !Mentions(q, 0, added)
    ensures TextAncestor(a, Text(q)) <==> TextAncestor(b, Text(q))
  {
    TextsDecideTolerance(a, q);
    TextsDecideTolerance(b, q);
    AddedFieldsKeepSegments(a, b, added, q, 0);
  }

  lemma AddedFieldsKeepTexts(a: Json, b: Json, added: set<string>, s: string)
    requires Extends(a, b, added) && TextPresence(a, s).Some?
    ensures TextPresence(b, s).Some?
  {
    TextPresenceMeansOccurrence(a, s);
    var p :| Text(p) == s && Has(a, p, 0);
    var t: JsonType :| Occurs(a, p, 0, t);
    AddedFieldsAddOccurrences(a, b, added, p, 0, t);
    TextPresenceMeansOccurrence(b, s);
    assert Has(b, p, 0);
  }

  /** Every expected text is that of a stem, which mentions none of the names. */
  ghost predicate Fresh(c: Contract, added: set<string>) {
    forall s | s in c :: exists q :: IsStem(q) && Text(q) == s && !Mentions(q, 0, added)
  }

  /** Every event stays, every new one is of an unknown field, and nothing becomes or
      ceases to be fatal. */
  ghost predicate OnlyUnknown(c: Contract, a: Json, b: Json, s: string) {
    && (DriftAt(c, a, s).Some? ==> DriftAt(c, b, s) == DriftAt(c, a, s))
    && (DriftAt(c, a, s).None? && DriftAt(c, b, s).Some? ==> DriftAt(c, b, s) == Some(UnknownField))
    && (FatalAt(c, a, s) <==> FatalAt(c, b, s))
  }

  /** Fields with names fresh to the contract, added at any depth but with no empty
      key added at the top, change the diff only by unknown-field events. */
  lemma AddedFieldsAreOnlyUnknown(c: Contract, a: Json, b: Json, added: set<string>, s: string)
    requires Extends(a, b, added) && CleanKeys(a) && CleanKeys(b)
    requires Fresh(c, added) && SameTops(a, b)
    ensures OnlyUnknown(c, a, b, s)
  {
    if s in c {
      var q: Path :| IsStem(q) && Text(q) == s && !Mentions(q, 0, added);
      TextPresenceAddsUp(a, q);
      TextPresenceAddsUp(b, q);
      AddedFieldsKeepPresence(a, b, added, q, 0);
      AddedFieldsKeepDeeper(a, b, added, q);
      AddedFieldsKeepTolerance(a, b, added, q);
    } else if TextPresence(a, s).Some? {
      AddedFieldsKeepTexts(a, b, added, s);
    }
  }

  /** A path a payload can hold, whose entry some presence or absence violates. */
  ghost predicate Sensitive(c: Contract, q: Path) {
    && IsStem(q) && (q == [] || q[|q| - 1].Field?) && Text(q) in c
    && (c[Text(q)].required || exists t: JsonType :: Forbids(c[Text(q)], t))
  }

  predicate Forbids(e: Expectation, t: JsonType) {
    Unexpected(e, {t}) != {}
  }

  ghost predicate CanDrift(c: Contract) {
    exists q :: Sensitive(c, q)
  }

  lemma {:induction false} RealPresence(p: Path, i: nat, leaf: Json)
    requires i < |p| && p[|p| - 1].Field?
    ensures PresenceOf(Real(p, i, leaf), p, i) == Some(Presence({TypeOf(leaf)}, 1, 1))
    decreases |p| - i
  {
    var j := i + 1;
    var below := Real(p, j, leaf);
    if p[i].Each? {
      forall t: JsonType ensures Occurs(below, p, j, t) <==> t == TypeOf(leaf) {
        RealIsPresent(p, j, leaf, t);
      }
      var types := MemberTypes([below], p, j);
      assert [below][0] == below && Occurs(below, p, j, TypeOf(leaf));
      assert Has(below, p, j);
      assert types == {TypeOf(leaf)} && AllHave([below], p, j);
    } else if j < |p| {
      RealPresence(p, j, leaf);
    }
  }

  /** The path, for real, below an empty key and nothing else. */
  lemma {:induction false} OnlyBelowEmptyKey(q: Path, leaf: Json)
    requires IsStem(q) && (q == [] || q[|q| - 1].Field?) && CleanKeys(leaf) && !EmptyAtTop(leaf)
    ensures var b := Obj(map["" := Real(q, 0, leaf)]);
      CleanKeys(b) && TextPresence(b, Text(q)) == Some(Presence({TypeOf(leaf)}, 1, 1))
  {
    var below := Real(q, 0, leaf);
    var b := Obj(map["" := below]);
    RealIsClean(q, 0, leaf);
    assert b.fields[""] == below;
    TextPresenceAddsUp(b, q);
    if q == [] {
      assert Deeper(below, q) == None;
    } else {
      assert q[0] != Field("") && !EmptyAtTop(below);
      RealPresence(q, 0, leaf);
      OneMorePlace(b, q);
    }
  }

  lemma NothingIsThere(q: Path)
    requires IsStem(q)
    ensures TextPresence(NOTHING, Text(q)) == None && !TextAncestor(NOTHING, Text(q))
  {
    TextPresenceAddsUp(NOTHING, q);
    TextsDecideTolerance(NOTHING, q);
  }

  function Sample(t: JsonType): (v: Json)
    ensures TypeOf(v) == t && CleanKeys(v) && !EmptyAtTop(v)
  {
    match t
    case NullType => Null
    case BoolType => Bool(true)
    case IntType => Int(0)
    case FloatType => Float(0.0)
    case StrType => Str("")
    case ArrayType => Arr([])
    case ObjectType => Obj(map[])
  }

  /** An entry that can drift at all does so when an empty key is added to an object
      without fields. */
  lemma EmptyKeyBreaks(c: Contract, q: Path) returns (b: Json)
    requires Sensitive(c, q)
    ensures CleanKeys(b) && Extends(NOTHING, b, {""}) && !OnlyUnknown(c, NOTHING, b, Text(q))
  {
    var e := c[Text(q)];
    var t := NullType;
    if exists u: JsonType :: Forbids(e, u) {
      t :| Forbids(e, t);
    }
    b := Obj(map["" := Real(q, 0, Sample(t))]);
    OnlyBelowEmptyKey(q, Sample(t));
    NothingIsThere(q);
  }

  lemma InsensitiveNeverDrifts(c: Contract, v: Json, q: Path)
    requires IsStem(q) && (q == [] || q[|q| - 1].Field?) && Text(q) in c && !Sensitive(c, q)
    ensures DriftAt(c, v, Text(q)) == None
  {
    var e := c[Text(q)];
    if TextPresence(v, Text(q)).Some? {
      var types := TextPresence(v, Text(q)).value.types;
      forall t | t in Unexpected(e, types) ensures t in Unexpected(e, {t}) && Forbids(e, t) {
      }
      assert Unexpected(e, types) == {};
    }
  }

  lemma {:induction false} MarkIsNotPresent(v: Json, q: Path)
    requires CleanKeys(v) && IsStem(q) && q != [] && q[|q| - 1].Each?
    ensures TextPresence(v, Text(q)) == None
  {
    PresentSomewhere(v, q);
    NoPathEndsInMark(v, q, 0);
    NoDeeperPathEndsInMark(v, q);
  }

  lemma {:induction false} NoPathEndsInMark(v: Json, q: Path, i: nat)
    requires i <= |q| && q != [] && q[|q| - 1].Each?
    ensures forall t: JsonType :: !Occurs(v, q, i, t)
    decreases |q| - i
  {
    if i < |q| {
      var j := i + 1;
      match q[i]
      case Field(n) =>
        if v.Obj? && n in v.fields {
          NoPathEndsInMark(v.fields[n], q, j);
        }
      case Each =>
        if v.Arr? {
          forall k | 0 <= k < |v.items| ensures forall t: JsonType :: !Occurs(v.items[k], q, j, t) {
            NoPathEndsInMark(v.items[k], q, j);
          }
        }
    }
  }

  lemma {:induction false} NoDeeperPathEndsInMark(v: Json, q: Path)
    requires q != [] && q[|q| - 1].Each?
    ensures !HasDeeper(v, q)
    decreases v
  {
    if EmptyAtTop(v) {
      NoPathEndsInMark(v.fields[""], q, 0);
      NoDeeperPathEndsInMark(v.fields[""], q);
    }
  }

  lemma InsensitiveIsOnlyUnknown(c: Contract, a: Json, b: Json, added: set<string>, s: string)
    requires Extends(a, b, added) && CleanKeys(a) && CleanKeys(b)
    requires Fresh(c, added) && !CanDrift(c)
    ensures OnlyUnknown(c, a, b, s)
  {
    if s in c {
      var q: Path :| IsStem(q) && Text(q) == s && !Mentions(q, 0, added);
      if q == [] || q[|q| - 1].Field? {
        InsensitiveNeverDrifts(c, a, q);
        InsensitiveNeverDrifts(c, b, q);
      } else {
        MarkIsNotPresent(a, q);
        MarkIsNotPresent(b, q);
        AddedFieldsKeepTolerance(a, b, added, q);
      }
    } else if TextPresence(a, s).Some? {
      AddedFieldsKeepTexts(a, b, added, s);
    }
  }

  /** All pairs of payloads that differ by fields of the given names. */
  ghost predicate AlwaysOnlyUnknown(c: Contract, added: set<string>) {
    forall a: Json, b: Json, s: string | CleanKeys(a) && CleanKeys(b) && Extends(a, b, added) :: OnlyUnknown(c, a, b, s)
  }

  /** For a contract with an entry that can drift at all: added fields with fresh names
      change the diff only by unknown-field events, in all payloads, if and only if
      the empty key is not among the names. */
  lemma AddedFieldsAreOnlyUnknownExactly(c: Contract, added: set<string>)
    requires Fresh(c, added)
    ensures AlwaysOnlyUnknown(c, added) <==> "" !in added || !CanDrift(c)
  {
    if "" in added && CanDrift(c) {
      var q :| Sensitive(c, q);
      var b := EmptyKeyBreaks(c, q);
      assert Extends(NOTHING, b, added) && CleanKeys(NOTHING);
      assert !OnlyUnknown(c, NOTHING, b, Text(q));
    } else {
      forall a: Json, b: Json, s: string | CleanKeys(a) && CleanKeys(b) && Extends(a, b, added) ensures OnlyUnknown(c, a, b, s) {
        if "" !in added {
          NoEmptyKeyAdded(a, b, added);
          AddedFieldsAreOnlyUnknown(c, a, b, added, s);
        } else {
          InsensitiveIsOnlyUnknown(c, a, b, added, s);
        }
      }
    }
  }
}
