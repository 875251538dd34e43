/** Whole numbers in payloads: a serializer may write a float as an integer, which a
    contract tolerates, but not the other way round
    (src/usagebassoon/contracts.py, `diff_contract`). */
module ContractNumbers {
  import opened Wrappers
  import opened JsonPaths
  import opened Contracts

  // ----- what drifts, in full -----

  /** A type a contract entry lets pass: a permitted one, or an integer where a float
      is permitted. */
  predicate Passes(t: JsonType, permitted: set<JsonType>) {
    t in permitted || (t == IntType && FloatType in permitted)
  }

  /** A text that is not expected drifts as unknown exactly if it is present; an
      expected one as missing exactly if it is required and absent, other than below
      empty arrays only, or not marked on all its records; and otherwise as changed
      exactly if it is present with a type that does not pass. */
  lemma DriftsExactly(c: Contract, v: Json, s: string)
    ensures DriftAt(c, v, s) == Some(UnknownField) <==> s !in c && TextPresence(v, s).Some?
    ensures DriftAt(c, v, s) == Some(MissingField)
       <==> s in c && c[s].required
            && (if TextPresence(v, s).None? then !TextAncestor(v, s)
                else TextPresence(v, s).value.present < TextPresence(v, s).value.total)
    ensures DriftAt(c, v, s) == Some(TypeChange)
       <==> s in c && TextPresence(v, s).Some? && DriftAt(c, v, s) != Some(MissingField)
            && exists t :: t in TextPresence(v, s).value.types && !Passes(t, c[s].types)
  {
    if s in c && TextPresence(v, s).Some? {
      var types := TextPresence(v, s).value.types;
      forall t | t in types ensures t in Unexpected(c[s], types) <==> !Passes(t, c[s].types) {
      }
    }
  }

  // ----- floats written as integers -----

  /** `b` is `a` with some floats, at any depth, replaced by integers. */
  predicate WritesWhole(a: Json, b: Json) {
    match a
    case Float(_) => b == a || b.Int?
    case Arr(items) =>
      b.Arr? && |b.items| == |items| && forall k | 0 <= k < |items| :: WritesWhole(items[k], b.items[k])
    case Obj(fields) =>
      b.Obj? && b.fields.Keys == fields.Keys && forall n | n in fields :: WritesWhole(fields[n], b.fields[n])
    case _ => b == a
  }

  /** The types a value of type `t` can have after that. */
  predicate Becomes(t: JsonType, u: JsonType) {
    u == t || (t == FloatType && u == IntType)
  }

  lemma TypeBecomes(a: Json, b: Json)
    requires WritesWhole(a, b)
    ensures Becomes(TypeOf(a), TypeOf(b))
  {
  }

  lemma {:induction false} ShownAfter(a: Json, b: Json, at: Path, s: string, t: JsonType) returns (u: JsonType)
    requires WritesWhole(a, b) && Shows(a, at, s, t)
    ensures Becomes(t, u) && Shows(b, at, s, u)
    decreases a
  {
    match a
    case Obj(fields) =>
      var n :| n in fields && ShowsField(fields[n], at + [Field(n)], s, t);
      var path := at + [Field(n)];
      if Text(path) == s && TypeOf(fields[n]) == t {
        TypeBecomes(fields[n], b.fields[n]);
        u := TypeOf(b.fields[n]);
      } else {
        u := ShownAfter(fields[n], b.fields[n], path, s, t);
      }
      assert ShowsField(b.fields[n], path, s, u);
    case Arr(items) =>
      var k :| 0 <= k < |items| && Shows(items[k], at + [Each], s, t);
      u := ShownAfter(items[k], b.items[k], at + [Each], s, t);
  }

  lemma {:induction false} ShownBefore(a: Json, b: Json, at: Path, s: string, u: JsonType) returns (t: JsonType)
    requires WritesWhole(a, b) && Shows(b, at, s, u)
    ensures Becomes(t, u) && Shows(a, at, s, t)
    decreases a
  {
    match a
    case Obj(fields) =>
      var n :| n in fields && ShowsField(b.fields[n], at + [Field(n)], s, u);
      var path := at + [Field(n)];
      if Text(path) == s && TypeOf(b.fields[n]) == u {
        TypeBecomes(fields[n], b.fields[n]);
        t := TypeOf(fields[n]);
      } else {
        t := ShownBefore(fields[n], b.fields[n], path, s, u);
      }
      assert ShowsField(fields[n], path, s, t);
    case Arr(items) =>
      var k :| 0 <= k < |items| && Shows(b.items[k], at + [Each], s, u);
      t := ShownBefore(items[k], b.items[k], at + [Each], s, u);
  }

  lemma AllShowAlike(a: seq<Json>, b: seq<Json>, at: Path, s: string)
    requires |a| == |b| && forall k | 0 <= k < |a| :: WritesWhole(a[k], b[k])
    ensures AllShow(a, at, s) <==> AllShow(b, at, s)
  {
    forall k | 0 <= k < |a| ensures ShowsAny(a[k], at, s) <==> ShowsAny(b[k], at, s) {
      if t: JsonType :| Shows(a[k], at, s, t) {
        var u := ShownAfter(a[k], b[k], at, s, t);
      }
      if u: JsonType :| Shows(b[k], at, s, u) {
        var t := ShownBefore(a[k], b[k], at, s, u);
      }
    }
  }

  /** A record survives the replacement, except perhaps for its type. */
  predicate SameButType(q: Record, r: Record) {
    q.at == r.at && q.present == r.present && Becomes(q.kind, r.kind)
  }

  lemma {:induction false} RecordAfter(a: Json, b: Json, at: Path, s: string, q: Record) returns (r: Record)
    requires WritesWhole(a, b) && q in Records(a, at, s)
    ensures r in Records(b, at, s) && SameButType(q, r)
    decreases a
  {
    match a
    case Obj(fields) =>
      var n :| n in fields && q in FieldRecords(fields[n], at + [Field(n)], s);
      var path := at + [Field(n)];
      if q in Records(fields[n], path, s) {
        r := RecordAfter(fields[n], b.fields[n], path, s, q);
      } else {
        TypeBecomes(fields[n], b.fields[n]);
        r := Record(path, TypeOf(b.fields[n]), true);
      }
      assert r in FieldRecords(b.fields[n], path, s);
    case Arr(items) =>
      var u := MemberTypeAfter(items, b.items, at + [Each], s, q.kind);
      AllShowAlike(items, b.items, at + [Each], s);
      r := q.(kind := u);
  }

  lemma MemberTypeAfter(a: seq<Json>, b: seq<Json>, at: Path, s: string, t: JsonType) returns (u: JsonType)
    requires |a| == |b| && forall k | 0 <= k < |a| :: WritesWhole(a[k], b[k])
    requires t in ShownTypes(a, at, s)
    ensures Becomes(t, u) && u in ShownTypes(b, at, s)
  {
    var k :| 0 <= k < |a| && Shows(a[k], at, s, t);
    u := ShownAfter(a[k], b[k], at, s, t);
  }

  lemma MemberTypeBefore(a: seq<Json>, b: seq<Json>, at: Path, s: string, u: JsonType) returns (t: JsonType)
    requires |a| == |b| && forall k | 0 <= k < |a| :: WritesWhole(a[k], b[k])
    requires u in ShownTypes(b, at, s)
    ensures Becomes(t, u) && t in ShownTypes(a, at, s)
  {
    var k :| 0 <= k < |b| && Shows(b[k], at, s, u);
    t := ShownBefore(a[k], b[k], at, s, u);
  }

  lemma {:induction false} RecordBefore(a: Json, b: Json, at: Path, s: string, r: Record) returns (q: Record)
    requires WritesWhole(a, b) && r in Records(b, at, s)
    ensures q in Records(a, at, s) && SameButType(q, r)
    decreases a
  {
    match a
    case Obj(fields) =>
      var n :| n in fields && r in FieldRecords(b.fields[n], at + [Field(n)], s);
      var path := at + [Field(n)];
      if r in Records(b.fields[n], path, s) {
        q := RecordBefore(fields[n], b.fields[n], path, s, r);
      } else {
        TypeBecomes(fields[n], b.fields[n]);
        q := Record(path, TypeOf(fields[n]), true);
      }
      assert q in FieldRecords(fields[n], path, s);
    case Arr(items) =>
      var t := MemberTypeBefore(items, b.items, at + [Each], s, r.kind);
      AllShowAlike(items, b.items, at + [Each], s);
      q := r.(kind := t);
  }

  /** All records of a text are marked exactly when none is not. */
  lemma FullyMarked(records: set<Record>)
    ensures |Marked(records)| == |records| <==> forall r | r in records :: r.present
  {
    if forall r | r in records :: r.present {
      assert Marked(records) == records;
    } else {
      var r :| r in records && !r.present;
      SubsetSize(Marked(records), records - {r});
    }
  }

  ghost predicate HasAfter(q: Record, after: set<Record>) {
    exists r :: r in after && SameButType(q, r)
  }

  ghost predicate HasBefore(r: Record, before: set<Record>) {
    exists q :: q in before && SameButType(q, r)
  }

  ghost predicate Alike(before: set<Record>, after: set<Record>) {
    && (forall q | q in before :: HasAfter(q, after))
    && (forall r | r in after :: HasBefore(r, before))
  }

  lemma RecordsAlike(a: Json, b: Json, s: string)
    requires WritesWhole(a, b)
    ensures Alike(Records(a, [], s), Records(b, [], s))
  {
    forall q | q in Records(a, [], s) ensures HasAfter(q, Records(b, [], s)) {
      var r := RecordAfter(a, b, [], s, q);
    }
    forall r | r in Records(b, [], s) ensures HasBefore(r, Records(a, [], s)) {
      var q := RecordBefore(a, b, [], s, r);
    }
  }

  lemma KindsAlike(before: set<Record>, after: set<Record>)
    requires Alike(before, after)
    ensures forall u | u in Kinds(after) :: u in Kinds(before) || (u == IntType && FloatType in Kinds(before))
    ensures forall t | t in Kinds(before) :: t in Kinds(after) || (t == FloatType && IntType in Kinds(after))
  {
    forall u | u in Kinds(after) ensures u in Kinds(before) || (u == IntType && FloatType in Kinds(before)) {
      var r :| r in after && r.kind == u;
      assert HasBefore(r, before);
      var q :| q in before && SameButType(q, r);
      assert q.kind in Kinds(before);
    }
    forall t | t in Kinds(before) ensures t in Kinds(after) || (t == FloatType && IntType in Kinds(after)) {
      var q :| q in before && q.kind == t;
      assert HasAfter(q, after);
      var r :| r in after && SameButType(q, r);
      assert r.kind in Kinds(after);
    }
  }

  lemma MarksAlike(before: set<Record>, after: set<Record>)
    requires Alike(before, after)
    ensures before == {} <==> after == {}
    ensures |Marked(before)| == |before| <==> |Marked(after)| == |after|
  {
    FullyMarked(before);
    FullyMarked(after);
    forall q | q in before ensures after != {} && (q.present || exists r :: r in after && !r.present) {
      assert HasAfter(q, after);
      var r :| r in after && SameButType(q, r);
    }
    forall r | r in after ensures before != {} && (r.present || exists q :: q in before && !q.present) {
      assert HasBefore(r, before);
      var q :| q in before && SameButType(q, r);
    }
  }

  /** The same texts are present, with the same marks complete, and with the same types
      but for floats written as integers. */
  lemma WritingWholeKeepsPresence(a: Json, b: Json, s: string)
    requires WritesWhole(a, b)
    ensures TextPresence(a, s).Some? <==> TextPresence(b, s).Some?
    ensures TextPresence(a, s).Some? ==>
      var p, q := TextPresence(a, s).value, TextPresence(b, s).value;
      && (p.present == p.total <==> q.present == q.total)
      && (forall u | u in q.types :: u in p.types || (u == IntType && FloatType in p.types))
      && (forall t | t in p.types :: t in q.types || (t == FloatType && IntType in q.types))
  {
    var before, after := Records(a, [], s), Records(b, [], s);
    RecordsAlike(a, b, s);
    MarksAlike(before, after);
    KindsAlike(before, after);
  }

  /** Writing floats as integers, wherever and however many, drifts nowhere. */
  lemma WritingWholeNeverDrifts(a: Json, b: Json, optional: set<string>, texts: set<string>, s: string)
    requires WritesWhole(a, b)
    requires forall x :: x in texts <==> TextPresence(a, x).Some?
    ensures DriftAt(ContractOf(a, optional, texts), b, s) == None
  {
    var c := ContractOf(a, optional, texts);
    WritingWholeKeepsPresence(a, b, s);
    DriftsExactly(c, b, s);
    if s in c {
      PresentAtMostTotal(b, s);
    }
  }

  predicate ShowsFloat(v: Json, s: string) {
    TextPresence(v, s).Some? && FloatType in TextPresence(v, s).value.types
  }

  /** The other way round, where integers become floats, exactly the texts drift that
      now have a float and did not permit one: as a type change. */
  lemma WritingFractionsDriftsExactly(a: Json, b: Json, optional: set<string>, texts: set<string>, s: string)
    requires WritesWhole(b, a)
    requires forall x :: x in texts <==> TextPresence(a, x).Some?
    ensures var c := ContractOf(a, optional, texts);
      && (DriftAt(c, b, s).Some? <==> s in c && FloatType !in c[s].types && ShowsFloat(b, s))
      && (DriftAt(c, b, s).Some? ==> DriftAt(c, b, s) == Some(TypeChange))
  {
    var c := ContractOf(a, optional, texts);
    WritingWholeKeepsPresence(b, a, s);
    DriftsExactly(c, b, s);
    if s in c {
      PresentAtMostTotal(b, s);
    }
  }

  /** Whatever the contract, a float drifts wherever no float is permitted. */
  lemma UnpermittedFloatDrifts(c: Contract, v: Json, p: Path)
    requires Text(p) in c && FloatType !in c[Text(p)].types
    requires Occurs(v, p, 0, FloatType)
    ensures DriftAt(c, v, Text(p)).Some?
  {
    TextPresenceMeansOccurrence(v, Text(p));
    DriftsExactly(c, v, Text(p));
    assert Has(v, p, 0);
    assert FloatType in TextPresence(v, Text(p)).value.types && !Passes(FloatType, c[Text(p)].types);
  }
}
