/** Contract paths as the texts that key the presence map
    (src/usagebassoon/contracts.py, `_presence`, `_empty_array_ancestor`,
    `diff_contract`), for keys that contain neither "." nor "[]".  Empty keys are
    such keys. */
module ContractPaths {
  import opened Wrappers
  import opened JsonPaths
  import opened Contracts

  predicate NoBrackets(s: string) {
    forall i | 0 <= i < |s| - 1 :: !(s[i] == '[' && s[i + 1] == ']')
  }

  predicate CleanName(n: string) {
    '.' !in n && NoBrackets(n)
  }

  predicate CleanPath(p: Path) {
    forall i | 0 <= i < |p| :: p[i].Field? ==> CleanName(p[i].name)
  }

  // ----- texts identify paths -----

  lemma {:induction false} RenderedIsNonempty(p: Path, i: nat, n: nat)
    requires i <= n <= |p| && (i < n ==> p[i] != Field(""))
    ensures Render(p, i, n) == "" <==> i == n
    decreases n
  {
    if i + 1 < n {
      RenderedIsNonempty(p, i, n - 1);
    } else if i < n {
      assert Render(p, i, i) == "";
    }
  }

  lemma LastStepShows(p: Path, i: nat, n: nat)
    requires CleanPath(p) && i < n <= |p|
    ensures EndsInBrackets(Render(p, i, n)) <==> p[n - 1].Each?
    ensures p[n - 1].Each? ==> Unmarked(Render(p, i, n)) == Render(p, i, n - 1)
  {
    var current, step := Render(p, i, n - 1), p[n - 1];
    if step.Each? {
      assert (current + "[]")[..|current|] == current;
    } else {
      FieldEndsWithoutBrackets(current, step.name);
    }
  }

  lemma FieldEndsWithoutBrackets(current: string, name: string)
    requires CleanName(name)
    ensures !EndsInBrackets(Extended(current, Field(name)))
  {
    var s, k := Extended(current, Field(name)), |name| - 2;
    if k >= 0 {
      assert !(name[k] == '[' && name[k + 1] == ']');
      assert s[|s| - 2] == name[k] && s[|s| - 1] == name[k + 1];
    } else if current != "" {
      assert s == current + "." + name && s[|current|] == '.';
    }
  }

  /** The last dot is found from either end. */
  lemma LastDotSplits(a: string, n: string, b: string, m: string)
    requires a + "." + n == b + "." + m
    requires '.' !in n && '.' !in m
    ensures a == b && n == m
  {
    var s := a + "." + n;
    assert s[|a|] == '.' && s[|b|] == '.';
    assert forall k | |a| < k < |s| :: s[k] == n[k - |a| - 1] && s[k] in n;
    assert forall k | |b| < k < |s| :: s[k] == m[k - |b| - 1] && s[k] in m;
    assert a == s[..|a|] && b == s[..|b|];
    assert n == s[|a| + 1..] && m == s[|b| + 1..];
  }

  lemma DotShowsParent(a: string, n: string)
    requires CleanName(n)
    ensures '.' in Extended(a, Field(n)) <==> a != ""
  {
    if a != "" {
      assert Extended(a, Field(n))[|a|] == '.';
    }
  }

  lemma SameFieldText(a: string, n: string, b: string, m: string)
    requires CleanName(n) && CleanName(m)
    requires Extended(a, Field(n)) == Extended(b, Field(m))
    ensures a == b && n == m
  {
    DotShowsParent(a, n);
    DotShowsParent(b, m);
    if a != "" {
      LastDotSplits(a, n, b, m);
    }
  }

  lemma {:induction false} SameTextSameSteps(p: Path, m: nat, q: Path, n: nat)
    requires CleanPath(p) && CleanPath(q) && m <= |p| && n <= |q|
    requires (m > 0 ==> p[0] != Field("")) && (n > 0 ==> q[0] != Field(""))
    requires Render(p, 0, m) == Render(q, 0, n)
    ensures m == n && forall k | 0 <= k < m :: p[k] == q[k]
    decreases m
  {
    RenderedIsNonempty(p, 0, m);
    RenderedIsNonempty(q, 0, n);
    if m > 0 {
      LastStepShows(p, 0, m);
      LastStepShows(q, 0, n);
      if p[m - 1].Field? {
        SameFieldText(Render(p, 0, m - 1), p[m - 1].name, Render(q, 0, n - 1), q[n - 1].name);
      }
      SameTextSameSteps(p, m - 1, q, n - 1);
    }
  }

  /** Different paths have different texts, so a map keyed by texts is a map keyed
      by paths; only an empty key at the very top would be lost. */
  lemma TextsIdentifyPaths(p: Path, q: Path)
    requires CleanPath(p) && CleanPath(q)
    requires (p != [] ==> p[0] != Field("")) && (q != [] ==> q[0] != Field(""))
    ensures Text(p) == Text(q) <==> p == q
  {
    if Text(p) == Text(q) {
      SameTextSameSteps(p, |p|, q, |q|);
    }
  }

  /** An empty key breaks it: two different fields share one text. */
  lemma EmptyKeysCollide(name: string)
    ensures Text([Field(""), Field(name)]) == Text([Field(name)])
  {
    var p, q := [Field(""), Field(name)], [Field(name)];
    assert Render(p, 0, 1) == "" && Render(q, 0, 0) == "";
  }

  // ----- payload keys -----

  predicate CleanKeys(v: Json) {
    match v
    case Obj(fields) => forall n | n in fields :: CleanName(n) && CleanKeys(fields[n])
    case Arr(items) => forall k | 0 <= k < |items| :: CleanKeys(items[k])
    case _ => true
  }

  lemma {:induction false} OccurringPathsAreClean(v: Json, p: Path, i: nat, t: JsonType)
    requires CleanKeys(v) && Occurs(v, p, i, t)
    ensures forall k | i <= k < |p| :: p[k].Field? ==> CleanName(p[k].name)
    decreases |p| - i
  {
    var j := i + 1;
    match p[i]
    case Field(n) =>
      if !(j == |p| && TypeOf(v.fields[n]) == t) {
        OccurringPathsAreClean(v.fields[n], p, j, t);
      }
    case Each =>
      var k :| 0 <= k < |v.items| && Occurs(v.items[k], p, j, t);
      OccurringPathsAreClean(v.items[k], p, j, t);
  }

  /** Every path of the presence map of such a payload is clean. */
  lemma PresentPathsAreClean(v: Json, p: Path)
    requires CleanKeys(v) && PresenceOf(v, p, 0).Some?
    ensures CleanPath(p)
  {
    PresenceMeansOccurrence(v, p, 0);
    var t: JsonType :| Occurs(v, p, 0, t);
    OccurringPathsAreClean(v, p, 0, t);
  }

  // ----- the tolerance check on texts -----

  /** The first dot is found from either end. */
  lemma FirstDotSplits(a: string, x: string, b: string, y: string)
    requires a + "." + x == b + "." + y
    requires '.' !in a && '.' !in b
    ensures a == b && x == y
  {
    var s := a + "." + x;
    assert s[|a|] == '.' && s[|b|] == '.';
    assert forall k | 0 <= k < |a| :: s[k] == a[k] && s[k] in a;
    assert forall k | 0 <= k < |b| :: s[k] == b[k] && s[k] in b;
    assert a == s[..|a|] && b == s[..|b|];
    assert x == s[|a| + 1..] && y == s[|b| + 1..];
  }

  lemma PartitionCuts(head: string, separated: bool, tail: string)
    requires '.' !in head && (!separated ==> tail == "")
    ensures Partition(if separated then head + "." + tail else head) == (head, separated, tail)
  {
    var s := if separated then head + "." + tail else head;
    var r := Partition(s);
    assert r.1 ==> s[|r.0|] == '.';
    if separated {
      assert s[|head|] == '.';
      FirstDotSplits(head, tail, r.0, r.2);
    }
  }

  lemma Appended(x: string, y: string, z: string)
    ensures (x + y) + z == x + (y + z)
  {
  }

  /** The text of the steps from `i` up to `n` behind other text. */
  function Dotted(p: Path, i: nat, n: nat): string
    requires i <= n <= |p|
    decreases n
  {
    if n == i then ""
    else if p[n - 1].Each? then Dotted(p, i, n - 1) + "[]"
    else if n == i + 1 then p[i].name
    else Dotted(p, i, n - 1) + "." + p[n - 1].name
  }

  /** Empty keys at the top leave no trace in a text. */
  function Leading(p: Path): (n: nat)
    ensures n <= |p| && (forall k | 0 <= k < n :: p[k] == Field(""))
    ensures n < |p| ==> p[n] != Field("")
  {
    LeadingFrom(p, 0)
  }

  function LeadingFrom(p: Path, i: nat): (n: nat)
    requires i <= |p|
    ensures i <= n <= |p| && forall k | i <= k < n :: p[k] == Field("")
    ensures n < |p| ==> p[n] != Field("")
    decreases |p| - i
  {
    if i < |p| && p[i] == Field("") then LeadingFrom(p, i + 1) else i
  }

  lemma {:induction false} LeadingLeavesNoTrace(p: Path, n: nat)
    requires n <= Leading(p)
    ensures Render(p, 0, n) == ""
  {
    if n > 0 {
      LeadingLeavesNoTrace(p, n - 1);
    }
  }

  lemma {:induction false} LeadingDropped(p: Path, n: nat)
    requires Leading(p) <= n <= |p|
    ensures Render(p, 0, n) == Render(p[Leading(p)..], 0, n - Leading(p))
    decreases n
  {
    if n == Leading(p) {
      LeadingLeavesNoTrace(p, n);
    } else {
      LeadingDropped(p, n - 1);
    }
  }

  /** Two paths share a text if and only if they are the same behind the empty keys
      at the top. */
  lemma TextsCollideExactly(p: Path, q: Path)
    requires CleanPath(p) && CleanPath(q)
    ensures Text(p) == Text(q) <==> p[Leading(p)..] == q[Leading(q)..]
  {
    LeadingDropped(p, |p|);
    LeadingDropped(q, |q|);
    TextsIdentifyPaths(p[Leading(p)..], q[Leading(q)..]);
  }

  lemma {:induction false} TextIsDotted(p: Path, n: nat)
    requires Leading(p) < n <= |p|
    ensures Render(p, 0, n) == Dotted(p, Leading(p), n) != ""
    decreases n
  {
    var first := Leading(p);
    if n == first + 1 {
      LeadingLeavesNoTrace(p, first);
      assert Dotted(p, first, first) == "";
    } else {
      TextIsDotted(p, n - 1);
    }
  }

  lemma DottedName(x: string, name: string)
    requires CleanName(name)
    ensures !EndsInBrackets(name) && !EndsInBrackets(x + "." + name)
  {
    var s, k := x + "." + name, |name| - 2;
    if k >= 0 {
      assert !(name[k] == '[' && name[k + 1] == ']');
      assert s[|s| - 2] == name[k] && s[|s| - 1] == name[k + 1];
    } else {
      assert s[|x|] == '.';
    }
  }

  lemma LastDottedShows(p: Path, i: nat, n: nat)
    requires CleanPath(p) && i < n <= |p|
    ensures EndsInBrackets(Dotted(p, i, n)) <==> p[n - 1].Each?
    ensures Unmarked(Dotted(p, i, n)) == if p[n - 1].Each? then Dotted(p, i, n - 1) else Dotted(p, i, n)
  {
    var x := Dotted(p, i, n - 1);
    if p[n - 1].Each? {
      assert (x + "[]")[..|x|] == x;
    } else {
      DottedName(x, p[n - 1].name);
    }
  }

  /** Texts join with a dot in front of a field. */
  lemma {:induction false} DottedJoins(p: Path, i: nat, m: nat, n: nat)
    requires i < m < n <= |p| && p[m].Field?
    ensures Dotted(p, i, n) == Dotted(p, i, m) + "." + Dotted(p, m, n)
    decreases n
  {
    if m + 1 < n {
      DottedJoins(p, i, m, n - 1);
      var x, y := Dotted(p, i, m) + ".", Dotted(p, m, n - 1);
      match p[n - 1]
      case Each => Appended(x, y, "[]");
      case Field(name) => Appended(x, y, "."); Appended(x, y + ".", name);
    } else {
      assert Dotted(p, m, n) == p[m].name;
    }
  }

  /** Where the array marks after step `i` end. */
  function SegmentEnd(p: Path, i: nat): (n: nat)
    requires i < |p|
    ensures i < n <= |p|
    ensures forall k | i < k < n :: p[k].Each?
    ensures n < |p| ==> p[n].Field?
    decreases |p| - i
  {
    if i + 1 == |p| || p[i + 1].Field? then i + 1 else SegmentEnd(p, i + 1)
  }

  lemma {:induction false} SegmentHasNoDot(p: Path, i: nat, n: nat)
    requires CleanPath(p) && i < n <= |p| && forall k | i < k < n :: p[k].Each?
    ensures '.' !in Dotted(p, i, n)
    decreases n
  {
    if i + 1 < n {
      SegmentHasNoDot(p, i, n - 1);
    } else {
      assert Dotted(p, i, i) == "";
    }
  }

  /** Partition cuts a text behind its first segment. */
  lemma PartitionCutsSegment(p: Path, i: nat)
    requires CleanPath(p) && i < |p|
    ensures var n := SegmentEnd(p, i);
      Partition(Dotted(p, i, |p|)) == (Dotted(p, i, n), n < |p|, Dotted(p, n, |p|))
  {
    var n := SegmentEnd(p, i);
    SegmentHasNoDot(p, i, n);
    if n < |p| {
      DottedJoins(p, i, n, |p|);
    }
    PartitionCuts(Dotted(p, i, n), n < |p|, Dotted(p, n, |p|));
  }

  /** Where the check on texts goes on after a segment: an empty name stays at the
      same value, and no key carries an array mark. */
  function Landing(v: Json, p: Path, i: nat): Option<Json>
    requires i < |p|
  {
    match p[i]
    case Field(name) => if SegmentEnd(p, i) <= i + 2 then Descend(v, name) else None
    case Each => if SegmentEnd(p, i) == i + 1 then Some(v) else None
  }

  lemma MarkedNameIsNoKey(v: Json, name: string)
    requires CleanKeys(v) && EndsInBrackets(name)
    ensures Descend(v, name).None?
  {
    var k := |name| - 2;
    assert name[k] == '[' && name[k + 1] == ']';
  }

  /** `name` is what a segment reads without its last array mark. */
  predicate NamesSegment(p: Path, i: nat, n: nat, name: string)
    requires i < n <= |p|
  {
    && (p[i].Each? && n == i + 1 ==> name == "")
    && (p[i].Field? && n <= i + 2 ==> name == p[i].name)
    && (n > i + 1 && p[n - 2].Each? ==> EndsInBrackets(name))
  }

  lemma {:induction false} SegmentIsNamed(p: Path, i: nat)
    requires CleanPath(p) && i < |p|
    ensures NamesSegment(p, i, SegmentEnd(p, i), Unmarked(Dotted(p, i, SegmentEnd(p, i))))
  {
    var n := SegmentEnd(p, i);
    LastDottedShows(p, i, n);
    if n > i + 1 {
      LastDottedShows(p, i, n - 1);
    }
    assert Dotted(p, i, i) == "";
  }

  lemma NameLands(v: Json, p: Path, i: nat, name: string)
    requires CleanKeys(v) && i < |p| && NamesSegment(p, i, SegmentEnd(p, i), name)
    ensures Descend(v, name) == Landing(v, p, i)
  {
    if EndsInBrackets(name) {
      MarkedNameIsNoKey(v, name);
    }
  }

  /** What the check on texts decides, a segment at a time. */
  predicate SegmentsDecide(v: Json, p: Path, i: nat)
    decreases |p| - i, 0
  {
    i < |p| &&
    var n := SegmentEnd(p, i);
    match Landing(v, p, i)
    case None => false
    case Some(value) =>
      if p[n - 1].Each? then value.Arr? && (value.items == [] || (n < |p| && AllDecide(value.items, p, n)))
      else n < |p| && SegmentsDecide(value, p, n)
  }

  predicate AllDecide(items: seq<Json>, p: Path, n: nat)
    requires n <= |p|
    decreases |p| - n, 1
  {
    forall k | 0 <= k < |items| :: SegmentsDecide(items[k], p, n)
  }

  /** One step of either check, given where it lands and how it goes on below. */
  predicate Decided(landing: Option<Json>, marked: bool, more: bool, below: Json -> bool) {
    && landing.Some?
    && if marked then landing.value.Arr? && (landing.value.items == [] || (more && All(landing.value.items, below)))
       else more && below(landing.value)
  }

  predicate All(items: seq<Json>, below: Json -> bool) {
    forall k | 0 <= k < |items| :: below(items[k])
  }

  ghost predicate Alike(below: Json -> bool, other: Json -> bool) {
    forall w | CleanKeys(w) :: below(w) == other(w)
  }

  lemma DecidedAlike(landing: Option<Json>, marked: bool, more: bool, below: Json -> bool, other: Json -> bool)
    requires landing.Some? ==> CleanKeys(landing.value)
    requires more ==> Alike(below, other)
    ensures Decided(landing, marked, more, below) == Decided(landing, marked, more, other)
  {
    if landing.Some? && landing.value.Arr? {
      forall k | 0 <= k < |landing.value.items| ensures CleanKeys(landing.value.items[k]) {
      }
    }
  }

  /** A check of payloads against the path from any of its steps on. */
  type Check = (Json, nat) -> bool

  function From(check: Check, n: nat): Json -> bool {
    (v: Json) => check(v, n)
  }

  /** The check goes through the path segment by segment. */
  ghost predicate Follows(p: Path, check: Check) {
    forall v, i | CleanKeys(v) && 0 <= i < |p| :: Steps(p, check, v, i)
  }

  predicate Steps(p: Path, check: Check, v: Json, i: nat)
    requires i < |p|
  {
    var n := SegmentEnd(p, i);
    check(v, i) == Decided(Landing(v, p, i), p[n - 1].Each?, n < |p|, From(check, n))
  }

  lemma LandingIsClean(v: Json, p: Path, i: nat)
    requires CleanKeys(v) && i < |p|
    ensures Landing(v, p, i).Some? ==> CleanKeys(Landing(v, p, i).value)
  {
  }

  /** There is only one such check. */
  lemma {:induction false} FollowersAgree(p: Path, one: Check, other: Check, v: Json, i: nat)
    requires Follows(p, one) && Follows(p, other)
    requires CleanKeys(v) && i < |p|
    ensures one(v, i) == other(v, i)
    decreases |p| - i
  {
    var n := SegmentEnd(p, i);
    if n < |p| {
      forall w | CleanKeys(w) ensures From(one, n)(w) == From(other, n)(w) {
        FollowersAgree(p, one, other, w, n);
      }
    }
    LandingIsClean(v, p, i);
    DecidedAlike(Landing(v, p, i), p[n - 1].Each?, n < |p|, From(one, n), From(other, n));
    assert Steps(p, one, v, i) && Steps(p, other, v, i);
  }

  function OnText(path: string): Json -> bool {
    (v: Json) => TextAncestor(v, path)
  }

  lemma TextAncestorUnfolds(v: Json, path: string, head: string, separated: bool, tail: string)
    requires Partition(path) == (head, separated, tail)
    ensures TextAncestor(v, path)
         == Decided(Descend(v, Unmarked(head)), EndsInBrackets(head), separated, OnText(tail))
  {
    var found := Descend(v, Unmarked(head));
    if found.Some? && found.value.Arr? {
      assert AllAncestors(found.value.items, tail) == All(found.value.items, OnText(tail));
    }
  }

  lemma TextUnfolds(v: Json, p: Path, i: nat)
    requires CleanKeys(v) && CleanPath(p) && i < |p|
    ensures var n := SegmentEnd(p, i);
      TextAncestor(v, Dotted(p, i, |p|))
      == Decided(Landing(v, p, i), p[n - 1].Each?, n < |p|, OnText(Dotted(p, n, |p|)))
  {
    var n := SegmentEnd(p, i);
    PartitionCutsSegment(p, i);
    LastDottedShows(p, i, n);
    SegmentIsNamed(p, i);
    NameLands(v, p, i, Unmarked(Dotted(p, i, n)));
    TextAncestorUnfolds(v, Dotted(p, i, |p|), Dotted(p, i, n), n < |p|, Dotted(p, n, |p|));
  }

  function TextCheck(p: Path): Check {
    (v: Json, i: nat) => i <= |p| && TextAncestor(v, Dotted(p, i, |p|))
  }

  function SegmentCheck(p: Path): Check {
    (v: Json, i: nat) => SegmentsDecide(v, p, i)
  }

  lemma TextCheckSteps(v: Json, p: Path, i: nat)
    requires CleanKeys(v) && CleanPath(p) && i < |p|
    ensures Steps(p, TextCheck(p), v, i)
  {
    var n := SegmentEnd(p, i);
    TextUnfolds(v, p, i);
    LandingIsClean(v, p, i);
    DecidedAlike(Landing(v, p, i), p[n - 1].Each?, n < |p|, OnText(Dotted(p, n, |p|)), From(TextCheck(p), n));
  }

  lemma TextCheckFollows(p: Path)
    requires CleanPath(p)
    ensures Follows(p, TextCheck(p))
  {
    forall v, i | CleanKeys(v) && 0 <= i < |p| ensures Steps(p, TextCheck(p), v, i) {
      TextCheckSteps(v, p, i);
    }
  }

  lemma SegmentCheckFollows(p: Path)
    ensures Follows(p, SegmentCheck(p))
  {
    forall v, i | CleanKeys(v) && 0 <= i < |p| ensures Steps(p, SegmentCheck(p), v, i) {
      var n, found := SegmentEnd(p, i), Landing(v, p, i);
      if found.Some? && found.value.Arr? {
        assert AllDecide(found.value.items, p, n) == All(found.value.items, From(SegmentCheck(p), n));
      }
    }
  }

  lemma TextsDecide(v: Json, p: Path, i: nat)
    requires CleanKeys(v) && CleanPath(p) && i < |p|
    ensures TextAncestor(v, Dotted(p, i, |p|)) <==> SegmentsDecide(v, p, i)
  {
    TextCheckFollows(p);
    SegmentCheckFollows(p);
    FollowersAgree(p, TextCheck(p), SegmentCheck(p), v, i);
  }

  /** For every clean path and payload the check on texts decides segment by segment,
      from behind the empty keys at the top, staying put on every other empty key. */
  lemma TextsDecideTolerance(v: Json, p: Path)
    requires CleanKeys(v) && CleanPath(p)
    ensures TextAncestor(v, Text(p)) <==> SegmentsDecide(v, p, Leading(p))
  {
    if Leading(p) == |p| {
      LeadingLeavesNoTrace(p, |p|);
      assert Partition("") == ("", false, "");
    } else {
      TextIsDotted(p, |p|);
      TextsDecide(v, p, Leading(p));
    }
  }

  // ----- where texts and steps decide alike -----

  /** From step `i` on, `m` is an array mark that can decide: neither it nor any mark
      before it is followed by another. */
  predicate Decisive(p: Path, i: nat, m: nat) {
    i <= m < |p| && p[m].Each? && SingleMarks(p, i, m + 1)
  }

  predicate SingleMarks(p: Path, i: nat, n: nat) {
    forall k | i <= k < n && k < |p| && p[k].Each? :: !(k + 1 < |p| && p[k + 1].Each?)
  }

  /** Some empty key stands before a mark that can decide. */
  predicate Misread(p: Path, i: nat) {
    exists e, m | i <= e < m < |p| :: p[e] == Field("") && Decisive(p, i, m)
  }

  lemma {:induction false} StepsNeedMark(v: Json, p: Path, i: nat) returns (m: nat)
    requires EmptyAncestor(v, p, i)
    ensures Decisive(p, i, m)
    decreases |p| - i
  {
    match p[i]
    case Field(n) => m := StepsNeedMark(v.fields[n], p, i + 1);
    case Each =>
      if v.items == [] {
        m := i;
      } else {
        m := StepsNeedMark(v.items[0], p, i + 1);
      }
  }

  lemma {:induction false} TextsNeedMark(v: Json, p: Path, i: nat) returns (m: nat)
    requires SegmentsDecide(v, p, i)
    ensures Decisive(p, i, m)
    decreases |p| - i
  {
    var n, value := SegmentEnd(p, i), Landing(v, p, i).value;
    if p[n - 1].Each? && value.items == [] {
      m := n - 1;
    } else if p[n - 1].Each? {
      m := TextsNeedMark(value.items[0], p, n);
    } else {
      m := TextsNeedMark(value, p, n);
    }
  }

  lemma {:induction false} AgreeUnlessMisread(v: Json, p: Path, i: nat)
    requires !Misread(p, i)
    ensures EmptyAncestor(v, p, i) <==> SegmentsDecide(v, p, i)
    decreases |p| - i
  {
    if i < |p| && p[i] == Field("") {
      if EmptyAncestor(v, p, i) {
        var m := StepsNeedMark(v, p, i);
      }
      if SegmentsDecide(v, p, i) {
        var m := TextsNeedMark(v, p, i);
      }
    } else if i < |p| && Landing(v, p, i).Some? {
      var n, value := SegmentEnd(p, i), Landing(v, p, i).value;
      if p[i].Field? {
        assert EmptyAncestor(v, p, i) <==> EmptyAncestor(value, p, i + 1);
      }
      if n < |p| {
        StillUnmisread(p, i, n);
        if p[n - 1].Field? {
          AgreeUnlessMisread(value, p, n);
        } else if value.Arr? {
          forall k | 0 <= k < |value.items| ensures EmptyAncestor(value.items[k], p, n) <==> SegmentsDecide(value.items[k], p, n) {
            AgreeUnlessMisread(value.items[k], p, n);
          }
        }
      }
    }
  }

  lemma StillUnmisread(p: Path, i: nat, n: nat)
    requires !Misread(p, i) && i <= n < |p| && SingleMarks(p, i, n)
    ensures !Misread(p, n)
  {
    forall e, m | n <= e < m < |p| && p[e] == Field("") ensures !Decisive(p, n, m) {
      assert !Decisive(p, i, m);
    }
  }

  /** A payload the steps up to `m` lead through, to an empty array there. */
  function Chain(p: Path, i: nat, m: nat): Json
    requires i <= m < |p|
    decreases m - i
  {
    if i == m then Arr([])
    else
      match p[i]
      case Field(n) => Obj(map[n := Chain(p, i + 1, m)])
      case Each => Arr([Chain(p, i + 1, m)])
  }

  lemma {:induction false} ChainIsTolerated(p: Path, i: nat, m: nat)
    requires CleanPath(p) && Decisive(p, i, m)
    ensures CleanKeys(Chain(p, i, m)) && EmptyAncestor(Chain(p, i, m), p, i)
    decreases m - i
  {
    if i < m {
      ChainIsTolerated(p, i + 1, m);
    }
  }

  /** An object whose only key is empty: the check on texts finds nothing in it. */
  lemma {:induction false} EmptyKeyIsMissed(v: Json, p: Path, i: nat)
    requires v.Obj? && v.fields.Keys == {""}
    ensures !SegmentsDecide(v, p, i)
    decreases |p| - i
  {
    if i < |p| && Landing(v, p, i).Some? && SegmentEnd(p, i) == i + 1 {
      EmptyKeyIsMissed(v, p, i + 1);
    }
  }

  lemma {:induction false} ChainIsMissed(p: Path, i: nat, e: nat, m: nat)
    requires Decisive(p, i, m) && i <= e < m && p[e] == Field("")
    requires i > 0 ==> p[i].Field?
    ensures !SegmentsDecide(Chain(p, i, m), p, i)
    decreases m - i
  {
    var v, n := Chain(p, i, m), SegmentEnd(p, i);
    if p[i] == Field("") {
      EmptyKeyIsMissed(v, p, i);
    } else {
      assert n <= e;
      ChainIsMissed(p, n, e, m);
      if p[n - 1].Each? {
        assert Chain(p, n - 1, m) == Arr([Chain(p, n, m)]) && [Chain(p, n, m)][0] == Chain(p, n, m);
      }
    }
  }

  /** The two checks agree on every payload if and only if no empty key stands before
      an array mark that can decide. */
  lemma TextsMisreadExactly(p: Path)
    requires CleanPath(p)
    ensures (forall v | CleanKeys(v) :: TextAncestor(v, Text(p)) <==> EmptyAncestor(v, p, 0)) <==> !Misread(p, 0)
  {
    var first := Leading(p);
    if !Misread(p, 0) {
      forall v | CleanKeys(v) ensures TextAncestor(v, Text(p)) <==> EmptyAncestor(v, p, 0) {
        TextsDecideTolerance(v, p);
        AgreeUnlessMisread(v, p, 0);
        if first > 0 {
          LeadingIsUnmarked(v, p);
        }
      }
    } else {
      var e, m :| 0 <= e < m < |p| && p[e] == Field("") && Decisive(p, 0, m);
      var v := Chain(p, 0, m);
      ChainIsTolerated(p, 0, m);
      ChainIsMissed(p, 0, e, m);
      TextsDecideTolerance(v, p);
      if first > 0 {
        EmptyKeyIsMissed(v, p, first);
      }
      assert CleanKeys(v) && !(TextAncestor(v, Text(p)) <==> EmptyAncestor(v, p, 0));
    }
  }

  /** Behind empty keys at the top nothing can decide unless something is misread. */
  lemma LeadingIsUnmarked(v: Json, p: Path)
    requires !Misread(p, 0) && Leading(p) > 0
    ensures !SegmentsDecide(v, p, Leading(p)) && !EmptyAncestor(v, p, 0)
  {
    if SegmentsDecide(v, p, Leading(p)) {
      var m := TextsNeedMark(v, p, Leading(p));
      assert p[0] == Field("") && Decisive(p, 0, m);
    }
    if EmptyAncestor(v, p, 0) {
      var m := StepsNeedMark(v, p, 0);
    }
  }

  /** Without empty keys on the path they always agree, whatever the payload holds
      elsewhere. */
  lemma {:induction false} PathsWithoutEmptyKeys(v: Json, p: Path)
    requires CleanKeys(v) && CleanPath(p) && forall i | 0 <= i < |p| :: p[i] != Field("")
    ensures TextAncestor(v, Text(p)) <==> EmptyAncestor(v, p, 0)
  {
    TextsDecideTolerance(v, p);
    AgreeUnlessMisread(v, p, 0);
  }

  // ----- where a tolerated text may yet be present -----

  /** The first empty keys of the path lead straight to a named field, and a mark
      that can decide comes behind it. */
  predicate Diverts(p: Path) {
    exists s, j, m | 0 <= s < j < m < |p| :: Detour(p, s, j) && Decisive(p, 0, m)
  }

  predicate Detour(p: Path, s: nat, j: nat)
    requires s < j < |p|
  {
    && (forall k | 0 <= k < s :: p[k] != Field(""))
    && (forall k | s <= k < j :: p[k] == Field(""))
    && p[j].Field? && p[j] != Field("")
  }

  /** In an object the check goes on to the field behind the empty keys. */
  lemma {:induction false} ObjectDiverts(v: Json, p: Path, s: nat, k: nat)
    requires v.Obj? && SegmentsDecide(v, p, k)
    requires s <= k < |p| && p[k].Field? && (s == k ==> p[k] == Field(""))
    requires (forall x | 0 <= x < s :: p[x] != Field("")) && (forall x | s <= x < k :: p[x] == Field(""))
    requires SingleMarks(p, 0, k)
    ensures Diverts(p)
    decreases |p| - k
  {
    if p[k] == Field("") {
      ObjectDiverts(v, p, s, k + 1);
    } else {
      var m := TextsNeedMark(v, p, k);
      assert Detour(p, s, k) && Decisive(p, 0, m);
    }
  }

  lemma {:induction false} PresentMeansDiverts(v: Json, p: Path, i: nat, t: JsonType)
    requires SegmentsDecide(v, p, i) && Occurs(v, p, i, t)
    requires (i > 0 ==> p[i].Field?) && SingleMarks(p, 0, i)
    requires forall k | 0 <= k < i :: p[k] != Field("")
    ensures Diverts(p)
    decreases |p| - i
  {
    var n, value := SegmentEnd(p, i), Landing(v, p, i).value;
    if p[i] == Field("") {
      ObjectDiverts(v, p, i, i);
    } else if p[n - 1].Field? {
      PresentMeansDiverts(value, p, n, t);
    } else {
      assert Occurs(value, p, n - 1, t);
      var k :| 0 <= k < |value.items| && Occurs(value.items[k], p, n, t);
      PresentMeansDiverts(value.items[k], p, n, t);
    }
  }

  /** A payload that holds the path from step `i` on, ending in `leaf`. */
  function Real(p: Path, i: nat, leaf: Json): Json
    decreases |p| - i
  {
    if i >= |p| then leaf
    else
      match p[i]
      case Field(n) => Obj(map[n := Real(p, i + 1, leaf)])
      case Each => Arr([Real(p, i + 1, leaf)])
  }

  /** What the check on texts wants to see from step `i` on. */
  function Detoured(p: Path, i: nat, m: nat): Json
    requires m < |p|
    decreases |p| - i
  {
    if i >= m then Arr([])
    else
      match p[i]
      case Field(n) => if n == "" then Detoured(p, i + 1, m) else Obj(map[n := Detoured(p, i + 1, m)])
      case Each => Arr([Detoured(p, i + 1, m)])
  }

  /** The path for real behind the first empty key, the detour beside it. */
  function Both(p: Path, i: nat, s: nat, j: nat, m: nat): Json
    requires i <= s < j < m < |p| && p[j].Field?
    decreases s - i
  {
    if i == s then Obj(map["" := Real(p, s + 1, Null), p[j].name := Detoured(p, j + 1, m)])
    else
      match p[i]
      case Field(n) => Obj(map[n := Both(p, i + 1, s, j, m)])
      case Each => Arr([Both(p, i + 1, s, j, m)])
  }

  lemma {:induction false} RealIsPresent(p: Path, i: nat, leaf: Json, t: JsonType)
    requires i < |p| && p[|p| - 1].Field?
    ensures Occurs(Real(p, i, leaf), p, i, t) <==> t == TypeOf(leaf)
    decreases |p| - i
  {
    if i + 1 < |p| {
      RealIsPresent(p, i + 1, leaf, t);
      assert [Real(p, i + 1, leaf)][0] == Real(p, i + 1, leaf);
    }
  }

  lemma {:induction false} RealIsClean(p: Path, i: nat, leaf: Json)
    requires CleanPath(p) && CleanKeys(leaf)
    ensures CleanKeys(Real(p, i, leaf))
    decreases |p| - i
  {
    if i < |p| {
      RealIsClean(p, i + 1, leaf);
    }
  }

  lemma {:induction false} DetouredIsClean(p: Path, i: nat, m: nat)
    requires m < |p| && CleanPath(p)
    ensures CleanKeys(Detoured(p, i, m))
    decreases |p| - i
  {
    if i < m {
      DetouredIsClean(p, i + 1, m);
    }
  }

  lemma {:induction false} BothIsPresent(p: Path, i: nat, s: nat, j: nat, m: nat)
    requires i <= s < j < m < |p| && Detour(p, s, j)
    requires p[|p| - 1].Field? && CleanPath(p)
    ensures Occurs(Both(p, i, s, j, m), p, i, NullType) && CleanKeys(Both(p, i, s, j, m))
    decreases s - i
  {
    if i == s {
      RealIsPresent(p, s + 1, Null, NullType);
      RealIsClean(p, s + 1, Null);
      DetouredIsClean(p, j + 1, m);
    } else {
      BothIsPresent(p, i + 1, s, j, m);
      assert [Both(p, i + 1, s, j, m)][0] == Both(p, i + 1, s, j, m);
    }
  }

  /** A named field that holds the detour decides. */
  lemma {:induction false} NamedDecides(v: Json, p: Path, i: nat, m: nat)
    requires Decisive(p, i, m) && p[i].Field? && p[i] != Field("")
    requires v.Obj? && p[i].name in v.fields && v.fields[p[i].name] == Detoured(p, i + 1, m)
    ensures SegmentsDecide(v, p, i)
    decreases |p| - i, 1
  {
    if p[i + 1].Field? {
      DetouredDecides(p, i + 1, m);
    } else if i + 1 < m {
      DetouredDecides(p, i + 2, m);
    }
  }

  lemma {:induction false} DetouredDecides(p: Path, i: nat, m: nat)
    requires Decisive(p, i, m) && p[i].Field?
    ensures SegmentsDecide(Detoured(p, i, m), p, i)
    decreases |p| - i, 2
  {
    if p[i] != Field("") {
      NamedDecides(Detoured(p, i, m), p, i, m);
    } else if p[i + 1].Field? {
      DetouredDecides(p, i + 1, m);
    } else if i + 1 < m {
      DetouredDecides(p, i + 2, m);
    }
  }

  lemma {:induction false} EmptyKeysPassed(p: Path, k: nat, s: nat, j: nat, m: nat)
    requires s <= k <= j < m < |p| && s < j && Detour(p, s, j) && Decisive(p, 0, m)
    ensures SegmentsDecide(Both(p, s, s, j, m), p, k)
    decreases j - k
  {
    if k < j {
      EmptyKeysPassed(p, k + 1, s, j, m);
    } else {
      NamedDecides(Both(p, s, s, j, m), p, j, m);
    }
  }

  lemma {:induction false} BothDecides(p: Path, i: nat, s: nat, j: nat, m: nat)
    requires i <= s < j < m < |p| && Detour(p, s, j) && Decisive(p, 0, m)
    requires i > 0 ==> p[i].Field?
    ensures SegmentsDecide(Both(p, i, s, j, m), p, i)
    decreases s - i
  {
    if i == s {
      EmptyKeysPassed(p, s, s, j, m);
    } else {
      var n := SegmentEnd(p, i);
      assert p[s] == Field("");
      assert n <= s;
      assert p[i + 1].Each? ==> !p[i + 2].Each?;
      assert p[i].Each? ==> !p[i + 1].Each?;
      BothDecides(p, n, s, j, m);
      if p[n - 1].Each? {
        assert Both(p, n - 1, s, j, m) == Arr([Both(p, n, s, j, m)]);
      }
    }
  }

  lemma DivertedIsTolerated(p: Path, s: nat, j: nat, m: nat)
    requires 0 <= s < j < m < |p| && Detour(p, s, j) && Decisive(p, 0, m)
    requires CleanPath(p) && p[|p| - 1].Field?
    ensures var v := Both(p, 0, s, j, m);
      CleanKeys(v) && TextAncestor(v, Text(p)) && PresenceOf(v, p, 0).Some?
  {
    var v := Both(p, 0, s, j, m);
    BothIsPresent(p, 0, s, j, m);
    PresenceMeansOccurrence(v, p, 0);
    TextsDecideTolerance(v, p);
    if s == 0 {
      assert Leading(p) == j;
      EmptyKeysPassed(p, j, s, j, m);
    } else {
      assert Leading(p) == 0;
      BothDecides(p, 0, s, j, m);
    }
  }

  lemma PresentSegmentsDivert(v: Json, p: Path, t: JsonType)
    requires SegmentsDecide(v, p, Leading(p)) && Occurs(v, p, 0, t)
    ensures Diverts(p)
  {
    var first := Leading(p);
    if first == 0 {
      PresentMeansDiverts(v, p, 0, t);
    } else {
      assert v.Obj?;
      ObjectDiverts(v, p, 0, first);
    }
  }
}
