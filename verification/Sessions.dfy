/** Session rows: first and last sightings widen even when the row loses
    (src/usagebassoon/backends/duckdb_local.py, `upsert`). */
module Sessions {
  import opened Wrappers
  import opened StagedRows
  import ObservationOrder

  datatype Key = Key(sourceId: string, client: string, sessionId: string)

  /** `detail` stands for the remaining columns. */
  datatype Row = Row(eventId: nat, collectedAt: int, firstSeen: int, lastSeen: int, detail: string)

  type Batch = seq<Entry<Key, Row>>

  function Min(a: int, b: int): int { if a <= b then a else b }
  function Max(a: int, b: int): int { if a <= b then b else a }

  predicate Newer(a: Row, b: Row) {
    a.collectedAt > b.collectedAt || (a.collectedAt == b.collectedAt && a.eventId > b.eventId)
  }

  function Observed(r: Row): ObservationOrder.Observation {
    ObservationOrder.Observation(r.collectedAt, true, 0, None, false, None, r.eventId)
  }

  lemma NewerIsSharedOrder(a: Row, b: Row)
    ensures Newer(a, b) <==> ObservationOrder.Newer(ObservationOrder.Sessions, Observed(a), Observed(b))
  {
    var fields := ObservationOrder.TupleOf(ObservationOrder.Sessions);
    assert ObservationOrder.TupleExceeds(fields, 1, Observed(a), Observed(b)) <==> a.eventId > b.eventId;
  }

  // ----- the two statements of an upsert -----

  function Widen(target: Row, source: Row): Row {
    target.(firstSeen := Min(target.firstSeen, source.firstSeen), lastSeen := Max(target.lastSeen, source.lastSeen))
  }

  function MergeRow(target: Option<Row>, source: Row): Row {
    if target.None? then source
    else if Newer(source, target.value) then
      source.(firstSeen := Min(target.value.firstSeen, source.firstSeen),
              lastSeen := Max(target.value.lastSeen, source.lastSeen))
    else target.value
  }

  function MergeStatement(rows: map<Key, Row>, batch: Batch): map<Key, Row> {
    map k | k in rows.Keys + Keys(batch) ::
      if k in Keys(batch) then MergeRow(Get(rows, k), Staged(batch, k).value) else rows[k]
  }

  function UpdateStatement(rows: map<Key, Row>, batch: Batch): map<Key, Row> {
    map k | k in rows :: if k in Keys(batch) then Widen(rows[k], Staged(batch, k).value) else rows[k]
  }

  function Upserted(rows: map<Key, Row>, batch: Batch): map<Key, Row> {
    UpdateStatement(MergeStatement(rows, batch), batch)
  }

  class SessionTable {
    var rows: map<Key, Row>

    constructor ()
      ensures rows == map[]
    {
      rows := map[];
    }

    method Upsert(batch: Batch) returns (r: Result<(), KeyError>)
      modifies this
      ensures r.Success? <==> DistinctKeys(batch)
      ensures r.Failure? ==> rows == old(rows)
      ensures r.Success? ==> rows == Upserted(old(rows), batch)
      ensures r.Success? ==> rows.Keys == old(rows).Keys + Keys(batch)
      ensures r.Success? ==>
        forall k | k in rows :: rows[k] ==
          if k !in Keys(batch) then old(rows)[k] else Absorb(Get(old(rows), k), Staged(batch, k).value)
    {
      r := CheckKeys(batch, (k: Key) => false);
      if r.Success? {
        rows := MergeStatement(rows, batch);
        rows := UpdateStatement(rows, batch);
      }
    }
  }

  /** What one observation does to its row, winning or losing. */
  function Absorb(target: Option<Row>, source: Row): Row {
    if target.None? then source
    else
      var w := Widen(target.value, source);
      if Newer(source, target.value) then source.(firstSeen := w.firstSeen, lastSeen := w.lastSeen) else w
  }

  // ----- a table as a summary of what was observed -----

  function UpsertAll(batches: seq<Batch>): map<Key, Row> {
    if batches == [] then map[]
    else Upserted(UpsertAll(batches[..|batches| - 1]), batches[|batches| - 1])
  }

  function Observations(batches: seq<Batch>): set<Entry<Key, Row>> {
    set b, e | b in batches && e in b :: e
  }

  /** `r` carries the columns of the freshest observation of `k`, the earliest
      first sighting and the latest last sighting. */
  ghost predicate Summarizes(seen: set<Entry<Key, Row>>, k: Key, r: Row) {
    && (exists e :: e in seen && e.key == k
          && e.row.eventId == r.eventId && e.row.collectedAt == r.collectedAt && e.row.detail == r.detail)
    && (forall e | e in seen && e.key == k :: !Newer(e.row, r) && r.firstSeen <= e.row.firstSeen && e.row.lastSeen <= r.lastSeen)
    && (exists e :: e in seen && e.key == k && e.row.firstSeen == r.firstSeen)
    && (exists e :: e in seen && e.key == k && e.row.lastSeen == r.lastSeen)
  }

  lemma FirstSightingSummarizes(seen: set<Entry<Key, Row>>, k: Key, r: Row)
    requires forall e | e in seen :: e.key != k
    ensures Summarizes(seen + {Entry(k, r)}, k, r)
  {
    assert Entry(k, r) in seen + {Entry(k, r)};
  }

  lemma AbsorbKeepsSummary(seen: set<Entry<Key, Row>>, k: Key, target: Row, source: Row)
    requires Summarizes(seen, k, target)
    ensures Summarizes(seen + {Entry(k, source)}, k, Absorb(Some(target), source))
  {
    var all, s, r := seen + {Entry(k, source)}, Entry(k, source), Absorb(Some(target), source);
    assert s in all;
    var e :| e in seen && e.key == k
      && e.row.eventId == target.eventId && e.row.collectedAt == target.collectedAt && e.row.detail == target.detail;
    var first :| first in seen && first.key == k && first.row.firstSeen == target.firstSeen;
    var last :| last in seen && last.key == k && last.row.lastSeen == target.lastSeen;
    assert e in all && first in all && last in all;
  }

  lemma {:induction false} TableSummarizesObservations(batches: seq<Batch>)
    requires forall b | b in batches :: DistinctKeys(b)
    ensures forall k :: k in UpsertAll(batches) <==> exists e :: e in Observations(batches) && e.key == k
    ensures forall k | k in UpsertAll(batches) :: Summarizes(Observations(batches), k, UpsertAll(batches)[k])
  {
    if batches != [] {
      var init, last := batches[..|batches| - 1], batches[|batches| - 1];
      assert batches == init + [last];
      TableSummarizesObservations(init);
      var before, after := Observations(init), Observations(batches);
      assert after == before + set e | e in last;
      forall k ensures k in UpsertAll(batches) <==> exists e :: e in after && e.key == k
        ensures k in UpsertAll(batches) ==> Summarizes(after, k, UpsertAll(batches)[k])
      {
        OneKeyAdvances(init, last, k);
      }
    }
  }

  lemma UpsertedRow(rows: map<Key, Row>, batch: Batch, k: Key)
    ensures Get(Upserted(rows, batch), k)
         == if k in Keys(batch) then Some(Absorb(Get(rows, k), Staged(batch, k).value)) else Get(rows, k)
  {
    var merged := MergeStatement(rows, batch);
    assert k in merged <==> k in rows || k in Keys(batch);
  }

  lemma OneKeyAdvances(init: seq<Batch>, last: Batch, k: Key)
    requires DistinctKeys(last)
    requires k in UpsertAll(init) <==> exists e :: e in Observations(init) && e.key == k
    requires k in UpsertAll(init) ==> Summarizes(Observations(init), k, UpsertAll(init)[k])
    ensures var after := Observations(init + [last]);
            && (k in UpsertAll(init + [last]) <==> exists e :: e in after && e.key == k)
            && (k in UpsertAll(init + [last]) ==> Summarizes(after, k, UpsertAll(init + [last])[k]))
  {
    var batches := init + [last];
    assert batches[..|batches| - 1] == init;
    var before, after := Observations(init), Observations(batches);
    assert after == before + set e | e in last;
    UpsertedRow(UpsertAll(init), last, k);
    if k in Keys(last) {
      var s := Entry(k, Staged(last, k).value);
      OnlyStaged(last, s);
      if k in UpsertAll(init) {
        AbsorbKeepsSummary(before, k, UpsertAll(init)[k], s.row);
      } else {
        FirstSightingSummarizes(before, k, s.row);
      }
      SummaryIsPerKey(before + {s}, after, k, UpsertAll(batches)[k]);
    } else if k in UpsertAll(init) {
      SummaryIsPerKey(before, after, k, UpsertAll(init)[k]);
    }
  }

  lemma OnlyStaged(batch: Batch, s: Entry<Key, Row>)
    requires DistinctKeys(batch) && s in batch
    ensures forall e | e in batch && e.key == s.key :: e == s
  {
  }

  lemma SummaryIsPerKey(a: set<Entry<Key, Row>>, b: set<Entry<Key, Row>>, k: Key, r: Row)
    requires Summarizes(a, k, r)
    requires forall e: Entry<Key, Row> | e.key == k :: e in a <==> e in b
    ensures Summarizes(b, k, r)
  {
    var w :| w in a && w.key == k
      && w.row.eventId == r.eventId && w.row.collectedAt == r.collectedAt && w.row.detail == r.detail;
    var first :| first in a && first.key == k && first.row.firstSeen == r.firstSeen;
    var last :| last in a && last.key == k && last.row.lastSeen == r.lastSeen;
    assert w in b && first in b && last in b;
  }

  // ----- convergence -----

  /** Observations of one session that tie in the order carry the same columns:
      event IDs are drawn afresh for every row. */
  ghost predicate EventsIdentify(seen: set<Entry<Key, Row>>) {
    forall a, b | a in seen && b in seen && a.key == b.key && Tied(a.row, b.row) :: a.row.detail == b.row.detail
  }

  predicate Tied(a: Row, b: Row) {
    a.collectedAt == b.collectedAt && a.eventId == b.eventId
  }

  lemma SummaryIsUnique(seen: set<Entry<Key, Row>>, k: Key, r: Row, s: Row)
    requires EventsIdentify(seen)
    requires Summarizes(seen, k, r) && Summarizes(seen, k, s)
    ensures r == s
  {
    var a :| a in seen && a.key == k
      && a.row.eventId == r.eventId && a.row.collectedAt == r.collectedAt && a.row.detail == r.detail;
    var b :| b in seen && b.key == k
      && b.row.eventId == s.eventId && b.row.collectedAt == s.collectedAt && b.row.detail == s.detail;
    assert !Newer(a.row, s) && !Newer(b.row, r);
    assert Tied(a.row, b.row);
  }

  /** Any order, any repetition and any batching of the same observations ends in
      the same table. */
  lemma SessionsConverge(a: seq<Batch>, b: seq<Batch>)
    requires forall x | x in a :: DistinctKeys(x)
    requires forall x | x in b :: DistinctKeys(x)
    requires Observations(a) == Observations(b)
    requires EventsIdentify(Observations(a))
    ensures UpsertAll(a) == UpsertAll(b)
  {
    TableSummarizesObservations(a);
    TableSummarizesObservations(b);
    assert UpsertAll(a).Keys == UpsertAll(b).Keys;
    forall k | k in UpsertAll(a) ensures UpsertAll(a)[k] == UpsertAll(b)[k] {
      SummaryIsUnique(Observations(a), k, UpsertAll(a)[k], UpsertAll(b)[k]);
    }
  }

  /** The condition is needed: two tied observations with different columns end in
      a table that depends on which came first. */
  lemma TiesDiverge(k: Key, x: Row, y: Row)
    requires Tied(x, y) && x.detail != y.detail
    ensures UpsertAll([[Entry(k, x)], [Entry(k, y)]]) != UpsertAll([[Entry(k, y)], [Entry(k, x)]])
  {
    TwoUpserts(k, x, y);
    TwoUpserts(k, y, x);
  }

  lemma TwoUpserts(k: Key, x: Row, y: Row)
    ensures Get(UpsertAll([[Entry(k, x)], [Entry(k, y)]]), k) == Some(Absorb(Some(x), y))
  {
    var first, second := [Entry(k, x)], [Entry(k, y)];
    var none: map<Key, Row> := map[];
    assert Entry(k, x) in first && Entry(k, y) in second;
    assert [first, second][..1] == [first] && [first][..0] == [];
    assert UpsertAll([]) == none;
    UpsertedRow(none, first, k);
    UpsertedRow(UpsertAll([first]), second, k);
  }
}
