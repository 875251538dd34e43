/** The freshness order of observations, in its two encodings
    (src/usagebassoon/storage_model.py, `observation_order` and `newer_observation`). */
module ObservationOrder {
  import opened Wrappers

  datatype StoredTable =
    | Sessions | DailyStats | PriceVersions | Tags | Notes
    | CollectionLedger | PayloadDriftEvents | ReconciliationIssues

  /** The tables written by upsert; the others are append-only. */
  predicate StateTable(t: StoredTable) {
    t.Sessions? || t.DailyStats? || t.PriceVersions? || t.Tags? || t.Notes?
  }

  /** The columns of a row that take part in some table's order.  Event IDs are
      fixed-width lower-case UUID texts, which compare as 128-bit numbers. */
  datatype Observation = Observation(
    collectedAt: int, upsert: bool, totalTokens: int, outputPrice: Option<real>,
    resolved: bool, finishedAt: Option<int>, eventId: nat)

  // ----- ORDER BY -----

  datatype SortKey =
    | CollectedAtDesc | UpsertDesc | ResolvedDesc | TotalTokensDesc
    | OutputPriceDescNullsLast | FinishedAtDescNullsLast | EventIdDesc

  function OrderBy(t: StoredTable): seq<SortKey> {
    [CollectedAtDesc]
    + (match t
       case Tags => [UpsertDesc]
       case Notes => [UpsertDesc]
       case PayloadDriftEvents => [ResolvedDesc]
       case ReconciliationIssues => [ResolvedDesc]
       case DailyStats => [TotalTokensDesc]
       case PriceVersions => [OutputPriceDescNullsLast]
       case CollectionLedger => [FinishedAtDescNullsLast]
       case Sessions => [])
    + [EventIdDesc]
  }

  datatype Placement = Before | Level | After

  function Descending(a: int, b: int): Placement {
    if a > b then Before else if a == b then Level else After
  }

  function TruthDescending(a: bool, b: bool): Placement {
    if a == b then Level else if a then Before else After
  }

  function Placed(key: SortKey, a: Observation, b: Observation): Placement {
    match key
    case CollectedAtDesc => Descending(a.collectedAt, b.collectedAt)
    case UpsertDesc => TruthDescending(a.upsert, b.upsert)
    case ResolvedDesc => TruthDescending(a.resolved, b.resolved)
    case TotalTokensDesc => Descending(a.totalTokens, b.totalTokens)
    case OutputPriceDescNullsLast =>
      (match (a.outputPrice, b.outputPrice)
       case (None, None) => Level
       case (None, Some(_)) => After
       case (Some(_), None) => Before
       case (Some(x), Some(y)) => if x > y then Before else if x == y then Level else After)
    case FinishedAtDescNullsLast =>
      (match (a.finishedAt, b.finishedAt)
       case (None, None) => Level
       case (None, Some(_)) => After
       case (Some(_), None) => Before
       case (Some(x), Some(y)) => Descending(x, y))
    case EventIdDesc => Descending(a.eventId, b.eventId)
  }

  /** `a` sorts strictly ahead of `b`. */
  predicate Precedes(keys: seq<SortKey>, a: Observation, b: Observation) {
    PrecedesFrom(keys, 0, a, b)
  }

  predicate PrecedesFrom(keys: seq<SortKey>, i: nat, a: Observation, b: Observation)
    decreases |keys| - i
  {
    i < |keys| &&
    match Placed(keys[i], a, b)
    case Before => true
    case After => false
    case Level => PrecedesFrom(keys, i + 1, a, b)
  }

  predicate Ties(keys: seq<SortKey>, a: Observation, b: Observation) {
    forall i | 0 <= i < |keys| :: Placed(keys[i], a, b).Level?
  }

  // ----- row-value comparison -----

  datatype TupleField =
    | CollectedAt | OpIsUpsert | TotalTokens | PriceIsNotNull | PriceOrZero | EventId

  datatype Scalar = Whole(i: int) | Truth(b: bool) | Decimal(r: real)

  function TupleOf(t: StoredTable): seq<TupleField> {
    [CollectedAt]
    + (match t
       case Tags => [OpIsUpsert]
       case Notes => [OpIsUpsert]
       case DailyStats => [TotalTokens]
       case PriceVersions => [PriceIsNotNull, PriceOrZero]
       case _ => [])
    + [EventId]
  }

  function Column(field: TupleField, r: Observation): Scalar {
    match field
    case CollectedAt => Whole(r.collectedAt)
    case OpIsUpsert => Truth(r.upsert)
    case TotalTokens => Whole(r.totalTokens)
    case PriceIsNotNull => Truth(r.outputPrice.Some?)
    case PriceOrZero => Decimal(if r.outputPrice.Some? then r.outputPrice.value else 0.0)
    case EventId => Whole(r.eventId)
  }

  predicate Exceeds(x: Scalar, y: Scalar) {
    match (x, y)
    case (Whole(i), Whole(j)) => i > j
    case (Truth(b), Truth(c)) => b && !c
    case (Decimal(r), Decimal(s)) => r > s
    case _ => false
  }

  /** `(source fields) > (target fields)` as SQL compares row values. */
  predicate TupleExceeds(fields: seq<TupleField>, i: nat, source: Observation, target: Observation)
    decreases |fields| - i
  {
    i < |fields| &&
    var x, y := Column(fields[i], source), Column(fields[i], target);
    Exceeds(x, y) || (x == y && TupleExceeds(fields, i + 1, source, target))
  }

  predicate Newer(t: StoredTable, source: Observation, target: Observation) {
    TupleExceeds(TupleOf(t), 0, source, target)
  }

  // ----- the encodings agree -----

  lemma EncodingsAgree(t: StoredTable, a: Observation, b: Observation)
    requires StateTable(t)
    ensures Precedes(OrderBy(t), a, b) <==> Newer(t, a, b)
  {
    var keys, fields := OrderBy(t), TupleOf(t);
    assert PrecedesFrom(keys, |keys| - 1, a, b) <==> TupleExceeds(fields, |fields| - 1, a, b);
    if !t.Sessions? {
      assert PrecedesFrom(keys, 1, a, b) <==> TupleExceeds(fields, 1, a, b);
    }
  }

  /** They agree on every pair of rows exactly for the tables written by upsert;
      the MERGE predicate drops the middle key of the append-only ones. */
  lemma AgreementIsExactlyStateTables(t: StoredTable)
    ensures (forall a, b :: Precedes(OrderBy(t), a, b) <==> Newer(t, a, b)) <==> StateTable(t)
  {
    if StateTable(t) {
      forall a, b ensures Precedes(OrderBy(t), a, b) <==> Newer(t, a, b) {
        EncodingsAgree(t, a, b);
      }
    } else {
      var late := Observation(0, false, 0, None, true, Some(1), 0);
      var early := Observation(0, false, 0, None, false, Some(0), 1);
      var keys, fields := OrderBy(t), TupleOf(t);
      assert PrecedesFrom(keys, 1, late, early) && Placed(keys[0], late, early).Level?;
      assert !TupleExceeds(fields, 1, late, early) && Column(fields[0], late) == Column(fields[0], early);
      assert Precedes(keys, late, early) && !Newer(t, late, early);
    }
  }

  // ----- it is a total order up to ties -----

  lemma PrecedesIsTotal(keys: seq<SortKey>, a: Observation, b: Observation)
    ensures !(Precedes(keys, a, b) && Precedes(keys, b, a))
    ensures !Precedes(keys, a, b) && !Precedes(keys, b, a) <==> Ties(keys, a, b)
  {
    PrecedesFromIsTotal(keys, 0, a, b);
  }

  lemma {:induction false} PrecedesFromIsTotal(keys: seq<SortKey>, i: nat, a: Observation, b: Observation)
    ensures !(PrecedesFrom(keys, i, a, b) && PrecedesFrom(keys, i, b, a))
    ensures !PrecedesFrom(keys, i, a, b) && !PrecedesFrom(keys, i, b, a)
       <==> forall k | i <= k < |keys| :: Placed(keys[k], a, b).Level?
    decreases |keys| - i
  {
    if i < |keys| {
      PlacementReverses(keys[i], a, b);
      PlacementReverses(keys[i], b, a);
      PrecedesFromIsTotal(keys, i + 1, a, b);
    }
  }

  lemma PlacementComposes(key: SortKey, a: Observation, b: Observation, c: Observation)
    requires !Placed(key, a, b).After? && !Placed(key, b, c).After?
    ensures !Placed(key, a, c).After?
    ensures Placed(key, a, c).Level? <==> Placed(key, a, b).Level? && Placed(key, b, c).Level?
  {
  }

  lemma PlacementReverses(key: SortKey, a: Observation, b: Observation)
    ensures Placed(key, a, b).After? <==> Placed(key, b, a).Before?
  {
  }

  lemma PrecedesIsTransitive(keys: seq<SortKey>, a: Observation, b: Observation, c: Observation)
    requires !Precedes(keys, b, a) && !Precedes(keys, c, b)
    ensures !Precedes(keys, c, a)
    ensures Precedes(keys, a, b) || Precedes(keys, b, c) ==> Precedes(keys, a, c)
  {
    PrecedesFromIsTransitive(keys, 0, a, b, c);
  }

  lemma {:induction false} PrecedesFromIsTransitive(
    keys: seq<SortKey>, i: nat, a: Observation, b: Observation, c: Observation)
    requires !PrecedesFrom(keys, i, b, a) && !PrecedesFrom(keys, i, c, b)
    ensures !PrecedesFrom(keys, i, c, a)
    ensures PrecedesFrom(keys, i, a, b) || PrecedesFrom(keys, i, b, c) ==> PrecedesFrom(keys, i, a, c)
    decreases |keys| - i
  {
    if i < |keys| {
      PlacementReverses(keys[i], a, b);
      PlacementReverses(keys[i], b, c);
      PlacementReverses(keys[i], a, c);
      PlacementComposes(keys[i], a, b, c);
      if Placed(keys[i], a, b).Level? && Placed(keys[i], b, c).Level? {
        PrecedesFromIsTransitive(keys, i + 1, a, b, c);
      }
    }
  }
}
