/** Decoded JSON, the paths into it and what a path means; a path as the text that
    names it (src/usagebassoon/contracts.py, `_json_type`, `_presence`). */
module JsonPaths {
  import opened Wrappers

  datatype Json =
    | Null | Bool(b: bool) | Int(i: int) | Float(r: real) | Str(s: string)
    | Arr(items: seq<Json>) | Obj(fields: map<string, Json>)

  datatype JsonType = NullType | BoolType | IntType | FloatType | StrType | ArrayType | ObjectType

  function TypeOf(v: Json): JsonType {
    match v
    case Null => NullType
    case Bool(_) => BoolType
    case Int(_) => IntType
    case Float(_) => FloatType
    case Str(_) => StrType
    case Arr(_) => ArrayType
    case Obj(_) => ObjectType
  }

  /** A path such as `a[].b` is the steps Field(a), Each, Field(b). */
  datatype Step = Field(name: string) | Each

  type Path = seq<Step>

  // ----- what a path means -----

  /** Somewhere under `node`, following `p` from step `i` through any array
      members ends at a value of type `t`. */
  predicate Occurs(node: Json, p: Path, i: nat, t: JsonType)
    decreases |p| - i
  {
    i < |p| &&
    match p[i]
    case Field(n) =>
      node.Obj? && n in node.fields
      && ((i + 1 == |p| && TypeOf(node.fields[n]) == t) || Occurs(node.fields[n], p, i + 1, t))
    case Each =>
      node.Arr? && exists k | 0 <= k < |node.items| :: Occurs(node.items[k], p, i + 1, t)
  }

  predicate Has(node: Json, p: Path, i: nat) {
    exists t: JsonType :: Occurs(node, p, i, t)
  }

  /** Types seen, and how many of `total` records were marked present. */
  datatype Presence = Presence(types: set<JsonType>, present: nat, total: nat)

  function MemberTypes(items: seq<Json>, p: Path, i: nat): set<JsonType> {
    set t: JsonType, k | 0 <= k < |items| && Occurs(items[k], p, i, t) :: t
  }

  predicate AllHave(items: seq<Json>, p: Path, i: nat) {
    forall k | 0 <= k < |items| :: Has(items[k], p, i)
  }

  /** One record for a field outside arrays; below the outermost array one record
      per type seen in any member, all marked alike. */
  function PresenceOf(v: Json, p: Path, i: nat): Option<Presence>
    decreases |p| - i
  {
    if i >= |p| then None
    else
      match p[i]
      case Field(n) =>
        if !v.Obj? || n !in v.fields then None
        else if i + 1 == |p| then Some(Presence({TypeOf(v.fields[n])}, 1, 1))
        else PresenceOf(v.fields[n], p, i + 1)
      case Each =>
        if !v.Arr? then None
        else
          var types := MemberTypes(v.items, p, i + 1);
          if types == {} then None
          else Some(Presence(types, if AllHave(v.items, p, i + 1) then |types| else 0, |types|))
  }

  // ----- paths as texts -----

  /** One more step, written after what is there. */
  function Extended(current: string, step: Step): string {
    match step
    case Field(name) => if current != "" then current + "." + name else name
    case Each => current + "[]"
  }

  /** The text of the steps from `i` up to `n`. */
  function Render(p: Path, i: nat, n: nat): string
    requires i <= n <= |p|
    decreases n
  {
    if n == i then "" else Extended(Render(p, i, n - 1), p[n - 1])
  }

  function Text(p: Path): string {
    Render(p, 0, |p|)
  }

  lemma {:induction false} RenderedPrefix(p: Path, q: Path, i: nat, n: nat)
    requires i <= n <= |p| && n <= |q| && p[..n] == q[..n]
    ensures Render(p, i, n) == Render(q, i, n)
    decreases n
  {
    if n > i {
      assert p[n - 1] == p[..n][n - 1] == q[..n][n - 1] == q[n - 1];
      assert p[..n - 1] == p[..n][..n - 1] == q[..n - 1];
      RenderedPrefix(p, q, i, n - 1);
    }
  }

  lemma TextNext(p: Path, step: Step)
    ensures Text(p + [step]) == Extended(Text(p), step)
  {
    RenderedPrefix(p + [step], p, 0, |p|);
  }

  // ----- presence -----

  /** Two paths that go on alike mean the same from there. */
  lemma {:induction false} OccursShifted(v: Json, p: Path, i: nat, q: Path, j: nat, t: JsonType)
    requires i <= |p| && j <= |q| && p[i..] == q[j..]
    ensures Occurs(v, p, i, t) <==> Occurs(v, q, j, t)
    decreases |p| - i
  {
    if i < |p| {
      assert p[i] == p[i..][0] == q[j..][0] == q[j];
      assert p[i + 1..] == p[i..][1..] == q[j + 1..];
      match p[i]
      case Field(n) =>
        if v.Obj? && n in v.fields {
          OccursShifted(v.fields[n], p, i + 1, q, j + 1, t);
        }
      case Each =>
        if v.Arr? {
          forall k | 0 <= k < |v.items| ensures Occurs(v.items[k], p, i + 1, t) <==> Occurs(v.items[k], q, j + 1, t) {
            OccursShifted(v.items[k], p, i + 1, q, j + 1, t);
          }
        }
    }
  }

  lemma MembersShifted(items: seq<Json>, p: Path, i: nat, q: Path, j: nat)
    requires i <= |p| && j <= |q| && p[i..] == q[j..]
    ensures MemberTypes(items, p, i) == MemberTypes(items, q, j)
    ensures AllHave(items, p, i) <==> AllHave(items, q, j)
  {
    forall k, t: JsonType | 0 <= k < |items| ensures Occurs(items[k], p, i, t) <==> Occurs(items[k], q, j, t) {
      OccursShifted(items[k], p, i, q, j, t);
    }
    assert forall k | 0 <= k < |items| :: Has(items[k], p, i) <==> Has(items[k], q, j);
  }

  lemma {:induction false} PresenceShifted(v: Json, p: Path, i: nat, q: Path, j: nat)
    requires i <= |p| && j <= |q| && p[i..] == q[j..]
    ensures PresenceOf(v, p, i) == PresenceOf(v, q, j)
    decreases |p| - i
  {
    if i < |p| {
      assert p[i] == p[i..][0] == q[j..][0] == q[j];
      assert p[i + 1..] == p[i..][1..] == q[j + 1..];
      match p[i]
      case Field(n) =>
        if v.Obj? && n in v.fields {
          PresenceShifted(v.fields[n], p, i + 1, q, j + 1);
        }
      case Each =>
        if v.Arr? {
          MembersShifted(v.items, p, i + 1, q, j + 1);
        }
    }
  }

  // ----- tolerance of empty arrays, on steps -----

  /** `p` from step `i` cannot occur because arrays on the way are empty.  An array
      of arrays is never followed: its name keeps a bracket and is no field. */
  predicate EmptyAncestor(v: Json, p: Path, i: nat)
    decreases |p| - i
  {
    i < |p| &&
    match p[i]
    case Field(n) => v.Obj? && n in v.fields && EmptyAncestor(v.fields[n], p, i + 1)
    case Each =>
      && !(i + 1 < |p| && p[i + 1].Each?)
      && v.Arr?
      && (v.items == [] || (i + 1 < |p| && forall k | 0 <= k < |v.items| :: EmptyAncestor(v.items[k], p, i + 1)))
  }

  lemma {:induction false} EmptyAncestorHasNothing(v: Json, p: Path, i: nat)
    requires EmptyAncestor(v, p, i)
    ensures forall t: JsonType :: !Occurs(v, p, i, t)
    decreases |p| - i
  {
    var j := i + 1;
    match p[i]
    case Field(n) => EmptyAncestorHasNothing(v.fields[n], p, j);
    case Each =>
      forall k | 0 <= k < |v.items| ensures forall t: JsonType :: !Occurs(v.items[k], p, j, t) {
        EmptyAncestorHasNothing(v.items[k], p, j);
      }
  }

  lemma {:induction false} PresenceMeansOccurrence(v: Json, p: Path, i: nat)
    ensures PresenceOf(v, p, i).Some? <==> Has(v, p, i)
    ensures PresenceOf(v, p, i).Some? ==> forall t: JsonType :: t in PresenceOf(v, p, i).value.types <==> Occurs(v, p, i, t)
    decreases |p| - i
  {
    if i < |p| {
      match p[i]
      case Field(n) =>
        if v.Obj? && n in v.fields {
          PresenceMeansOccurrence(v.fields[n], p, i + 1);
          if i + 1 == |p| {
            assert Occurs(v, p, i, TypeOf(v.fields[n]));
          } else {
            assert forall t: JsonType :: Occurs(v, p, i, t) <==> Occurs(v.fields[n], p, i + 1, t);
            var j := i + 1;
            if t: JsonType :| Occurs(v.fields[n], p, j, t) {
              assert Occurs(v, p, i, t);
            }
          }
        }
      case Each =>
        if v.Arr? {
          var types := MemberTypes(v.items, p, i + 1);
          assert forall t: JsonType :: t in types <==> Occurs(v, p, i, t);
          assert types != {} <==> Has(v, p, i) by {
            if t: JsonType :| Occurs(v, p, i, t) {
              assert t in types;
            }
          }
        }
    }
  }

  /** A tolerated path is absent. */
  lemma ToleratedPathIsAbsent(v: Json, p: Path)
    requires EmptyAncestor(v, p, 0)
    ensures PresenceOf(v, p, 0).None?
  {
    EmptyAncestorHasNothing(v, p, 0);
    PresenceMeansOccurrence(v, p, 0);
  }

  /** The members of the outermost array on the path, and the step below it. */
  function OutermostArray(v: Json, p: Path, i: nat): Option<(seq<Json>, nat)>
    decreases |p| - i
  {
    if i >= |p| then None
    else
      match p[i]
      case Field(n) => if v.Obj? && n in v.fields then OutermostArray(v.fields[n], p, i + 1) else None
      case Each => if v.Arr? then Some((v.items, i + 1)) else None
  }

  /** Counts are all or nothing: full exactly when every member of the outermost
      array on the path has an occurrence. */
  lemma {:induction false} PathCountsAreAllOrNothing(v: Json, p: Path, i: nat)
    requires PresenceOf(v, p, i).Some?
    ensures var r := PresenceOf(v, p, i).value;
      && r.total == |r.types| > 0
      && r.present in {0, r.total}
      && (r.present == r.total <==>
            OutermostArray(v, p, i).None? || AllHave(OutermostArray(v, p, i).value.0, p, OutermostArray(v, p, i).value.1))
    decreases |p| - i
  {
    if p[i].Field? && i + 1 < |p| {
      PathCountsAreAllOrNothing(v.fields[p[i].name], p, i + 1);
    }
  }

  // ----- added fields -----

  /** `b` is `a` with fields named in `added` put into objects at any depth. */
  ghost predicate Extends(a: Json, b: Json, added: set<string>) {
    match a
    case Obj(fields) =>
      && b.Obj?
      && (forall n | n in fields :: n in b.fields && Extends(fields[n], b.fields[n], added))
      && (forall n | n in b.fields && n !in fields :: n in added)
    case Arr(items) =>
      b.Arr? && |items| == |b.items| && forall k | 0 <= k < |items| :: Extends(items[k], b.items[k], added)
    case _ => a == b
  }

  predicate Mentions(p: Path, i: nat, names: set<string>) {
    exists k | i <= k < |p| :: p[k].Field? && p[k].name in names
  }

  lemma {:induction false} AddedFieldsAddOccurrences(a: Json, b: Json, added: set<string>, p: Path, i: nat, t: JsonType)
    requires Extends(a, b, added)
    ensures Occurs(a, p, i, t) ==> Occurs(b, p, i, t)
    ensures !Mentions(p, i, added) ==> (Occurs(b, p, i, t) ==> Occurs(a, p, i, t))
    decreases |p| - i
  {
    if i < |p| {
      match p[i]
      case Field(n) =>
        if a.Obj? && n in a.fields {
          AddedFieldsAddOccurrences(a.fields[n], b.fields[n], added, p, i + 1, t);
        }
      case Each =>
        if a.Arr? {
          forall k | 0 <= k < |a.items|
            ensures Occurs(a.items[k], p, i + 1, t) ==> Occurs(b.items[k], p, i + 1, t)
            ensures !Mentions(p, i, added) && Occurs(b.items[k], p, i + 1, t) ==> Occurs(a.items[k], p, i + 1, t)
          {
            AddedFieldsAddOccurrences(a.items[k], b.items[k], added, p, i + 1, t);
          }
        }
    }
  }

  lemma AddedFieldsKeepMembers(a: seq<Json>, b: seq<Json>, added: set<string>, p: Path, i: nat)
    requires |a| == |b| && forall k | 0 <= k < |a| :: Extends(a[k], b[k], added)
    requires !Mentions(p, i, added)
    ensures MemberTypes(a, p, i) == MemberTypes(b, p, i)
    ensures AllHave(a, p, i) <==> AllHave(b, p, i)
  {
    forall k, t: JsonType | 0 <= k < |a| ensures Occurs(a[k], p, i, t) <==> Occurs(b[k], p, i, t) {
      AddedFieldsAddOccurrences(a[k], b[k], added, p, i, t);
    }
    assert forall k | 0 <= k < |a| :: Has(a[k], p, i) <==> Has(b[k], p, i);
  }

  lemma {:induction false} AddedFieldsKeepPresence(a: Json, b: Json, added: set<string>, p: Path, i: nat)
    requires Extends(a, b, added)
    requires !Mentions(p, i, added)
    ensures PresenceOf(a, p, i) == PresenceOf(b, p, i)
    ensures EmptyAncestor(a, p, i) <==> EmptyAncestor(b, p, i)
    decreases |p| - i
  {
    if i < |p| {
      match p[i]
      case Field(n) =>
        if a.Obj? && n in a.fields {
          AddedFieldsKeepPresence(a.fields[n], b.fields[n], added, p, i + 1);
        }
      case Each =>
        if a.Arr? {
          AddedFieldsKeepMembers(a.items, b.items, added, p, i + 1);
          forall k | 0 <= k < |a.items| ensures EmptyAncestor(a.items[k], p, i + 1) <==> EmptyAncestor(b.items[k], p, i + 1) {
            AddedFieldsKeepPresence(a.items[k], b.items[k], added, p, i + 1);
          }
        }
    }
  }
}
