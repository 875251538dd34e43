/** Daily token facts: the client-side pre-merge and the MERGE upsert
    (src/usagebassoon/storage_model.py, `preserve_daily_tokens`, `token_total_sql`;
    src/usagebassoon/backends/duckdb_local.py, `upsert`). */
module DailyTokens {
  import opened Wrappers
  import opened StagedRows
  import ObservationOrder

  datatype Key = Key(sourceId: string, day: int, client: string, sessionId: string, model: string)

  /** Stored components may be null; freshly normalized ones never are. */
  datatype Counts = Counts(
    input: Option<nat>, output: Option<nat>, cacheRead: Option<nat>, cacheWrite: Option<nat>, reasoning: Option<nat>)

  /** The columns the order and the token totals do not read. */
  datatype Detail = Detail(messages: nat, cost: real, other: string)

  datatype Row = Row(counts: Counts, total: nat, collectedAt: int, eventId: nat, detail: Detail)

  type Batch = seq<Entry<Key, Row>>

  predicate Counted(c: Counts) {
    c.input.Some? && c.output.Some? && c.cacheRead.Some? && c.cacheWrite.Some? && c.reasoning.Some?
  }

  function OrZero(c: Option<nat>): nat {
    if c.Some? then c.value else 0
  }

  function Sum(c: Counts): nat {
    OrZero(c.input) + OrZero(c.output) + OrZero(c.cacheRead) + OrZero(c.cacheWrite) + OrZero(c.reasoning)
  }

  function Max(a: nat, b: nat): nat {
    if a < b then b else a
  }

  /** `(collected_at, total_tokens, event_id)`, compared left to right. */
  predicate Newer(a: Row, b: Row) {
    || a.collectedAt > b.collectedAt
    || (a.collectedAt == b.collectedAt
        && (a.total > b.total || (a.total == b.total && a.eventId > b.eventId)))
  }

  function Observed(r: Row): ObservationOrder.Observation {
    ObservationOrder.Observation(r.collectedAt, true, r.total, None, false, None, r.eventId)
  }

  /** The comparison above is the shared one, in both of its encodings. */
  lemma NewerIsSharedOrder(a: Row, b: Row)
    ensures Newer(a, b) <==> ObservationOrder.Newer(ObservationOrder.DailyStats, Observed(a), Observed(b))
    ensures Newer(a, b) <==>
      ObservationOrder.Precedes(ObservationOrder.OrderBy(ObservationOrder.DailyStats), Observed(a), Observed(b))
  {
    var fields := ObservationOrder.TupleOf(ObservationOrder.DailyStats);
    assert ObservationOrder.TupleExceeds(fields, 1, Observed(a), Observed(b))
      <==> a.total > b.total || (a.total == b.total && a.eventId > b.eventId) by {
      assert ObservationOrder.TupleExceeds(fields, 2, Observed(a), Observed(b)) <==> a.eventId > b.eventId;
    }
    ObservationOrder.EncodingsAgree(ObservationOrder.DailyStats, Observed(a), Observed(b));
  }

  // ----- pre-merge against the rows captured at preflight -----

  function AtLeast(c: Option<nat>, previous: Option<nat>): Option<nat>
    requires c.Some?
  {
    Some(Max(c.value, OrZero(previous)))
  }

  function Raise(row: Row, previous: Row): Row
    requires Counted(row.counts)
  {
    var c, p := row.counts, previous.counts;
    var raised := Counts(AtLeast(c.input, p.input), AtLeast(c.output, p.output),
                         AtLeast(c.cacheRead, p.cacheRead), AtLeast(c.cacheWrite, p.cacheWrite),
                         AtLeast(c.reasoning, p.reasoning));
    row.(counts := raised, total := Max(Max(previous.total, row.total), Sum(raised)))
  }

  /** None: the observation does not beat the captured row and is dropped. */
  function Prepare(row: Row, captured: Option<Row>): Option<Row>
    requires Counted(row.counts)
  {
    if captured.None? then Some(row)
    else if !Newer(row, captured.value) then None
    else Some(Raise(row, captured.value))
  }

  predicate AllCounted(batch: Batch) {
    forall e | e in batch :: Counted(e.row.counts)
  }

  function Prepared(incoming: Batch, captured: map<Key, Row>): Batch
    requires forall e | e in incoming :: Counted(e.row.counts)
  {
    if incoming == [] then []
    else
      var init, last := incoming[..|incoming| - 1], incoming[|incoming| - 1];
      assert incoming == init + [last];
      var p := Prepare(last.row, Get(captured, last.key));
      Prepared(init, captured) + (if p.Some? then [Entry(last.key, p.value)] else [])
  }

  function Indexed(rows: Batch): map<Key, Row> {
    if rows == [] then map[]
    else Indexed(rows[..|rows| - 1])[rows[|rows| - 1].key := rows[|rows| - 1].row]
  }

  method PreserveDailyTokens(incoming: Batch, current: Batch) returns (accepted: Batch)
    requires AllCounted(incoming)
    ensures accepted == Prepared(incoming, Indexed(current))
  {
    var prior: map<Key, Row> := map[];
    for i := 0 to |current|
      invariant prior == Indexed(current[..i])
    {
      assert current[..i + 1][..i] == current[..i];
      prior := prior[current[i].key := current[i].row];
    }
    assert current[..|current|] == current;
    accepted := [];
    for i := 0 to |incoming|
      invariant accepted == Prepared(incoming[..i], prior)
    {
      assert incoming[..i + 1][..i] == incoming[..i];
      var key, row := incoming[i].key, incoming[i].row;
      if key in prior {
        var previous := prior[key];
        if !Newer(row, previous) {
          continue;
        }
        var counts := row.counts;
        counts := counts.(input := Some(Max(counts.input.value, OrZero(previous.counts.input))));
        counts := counts.(output := Some(Max(counts.output.value, OrZero(previous.counts.output))));
        counts := counts.(cacheRead := Some(Max(counts.cacheRead.value, OrZero(previous.counts.cacheRead))));
        counts := counts.(cacheWrite := Some(Max(counts.cacheWrite.value, OrZero(previous.counts.cacheWrite))));
        counts := counts.(reasoning := Some(Max(counts.reasoning.value, OrZero(previous.counts.reasoning))));
        row := row.(counts := counts, total := Max(Max(previous.total, row.total), Sum(counts)));
      }
      accepted := accepted + [Entry(key, row)];
    }
    assert incoming[..|incoming|] == incoming;
  }

  /** The pre-merge adds no key and repeats none. */
  lemma {:induction false} PreparedKeepsKeysDistinct(incoming: Batch, captured: map<Key, Row>)
    requires AllCounted(incoming)
    requires DistinctKeys(incoming)
    ensures DistinctKeys(Prepared(incoming, captured))
    ensures Keys(Prepared(incoming, captured)) <= Keys(incoming)
  {
    if incoming != [] {
      var init, last := incoming[..|incoming| - 1], incoming[|incoming| - 1];
      assert incoming == init + [last];
      PreparedKeepsKeysDistinct(init, captured);
      var kept := Prepared(init, captured);
      assert forall i | 0 <= i < |kept| :: kept[i] in kept && kept[i].key in Keys(init);
      assert last.key !in Keys(init);
    }
  }

  /** Under each key: the staged row prepared against the captured one. */
  lemma {:induction false} PreparedRow(incoming: Batch, captured: map<Key, Row>, k: Key)
    requires AllCounted(incoming)
    requires DistinctKeys(incoming)
    ensures Staged(Prepared(incoming, captured), k) == PreparedStaged(incoming, captured, k)
  {
    if incoming != [] {
      var init, last := incoming[..|incoming| - 1], incoming[|incoming| - 1];
      assert incoming == init + [last];
      PreparedRow(init, captured, k);
      PreparedKeepsKeysDistinct(init, captured);
      var kept, p := Prepared(init, captured), Prepare(last.row, Get(captured, last.key));
      assert last.key !in Keys(init);
      StagedLast(init, last, k);
      if p.Some? {
        StagedLast(kept, Entry(last.key, p.value), k);
      } else {
        assert Prepared(incoming, captured) == kept;
      }
    }
  }

  function PreparedStaged(incoming: Batch, captured: map<Key, Row>, k: Key): Option<Row>
    requires AllCounted(incoming)
  {
    if k in Keys(incoming) then Prepare(Staged(incoming, k).value, Get(captured, k)) else None
  }

  // ----- MERGE -----

  /** SQL GREATEST, which ignores nulls. */
  function Greatest(a: Option<nat>, b: Option<nat>): Option<nat> {
    if a.None? then b else if b.None? then a else Some(Max(a.value, b.value))
  }

  function GreatestCounts(a: Counts, b: Counts): Counts {
    Counts(Greatest(a.input, b.input), Greatest(a.output, b.output), Greatest(a.cacheRead, b.cacheRead),
           Greatest(a.cacheWrite, b.cacheWrite), Greatest(a.reasoning, b.reasoning))
  }

  /** WHEN MATCHED AND newer THEN UPDATE; WHEN NOT MATCHED THEN INSERT. */
  function Merge(target: Option<Row>, source: Row): Row {
    if target.None? then source
    else if Newer(source, target.value) then
      var counts := GreatestCounts(target.value.counts, source.counts);
      source.(counts := counts, total := Max(Max(target.value.total, source.total), Sum(counts)))
    else target.value
  }

  class DailyStats {
    var rows: map<Key, Row>

    constructor ()
      ensures rows == map[]
    {
      rows := map[];
    }

    /** One MERGE statement: a batch with a repeated key is refused untouched;
        otherwise every staged row is merged into the row of its key, no other row
        changes, and the counts are of inserted and of beaten rows. */
    method Upsert(batch: Batch) returns (r: Result<(nat, nat), KeyError>)
      modifies this
      ensures r.Success? <==> DistinctKeys(batch)
      ensures r.Failure? ==> rows == old(rows)
      ensures r.Success? ==> rows == Merged(old(rows), batch)
      ensures r.Success? ==> rows.Keys == old(rows).Keys + Keys(batch)
      ensures r.Success? ==>
        forall e | e in batch :: rows[e.key] == Merge(Get(old(rows), e.key), e.row)
      ensures r.Success? ==>
        forall k | k in old(rows) && k !in Keys(batch) :: rows[k] == old(rows)[k]
      ensures r.Success? ==>
        && r.value.0 == |Keys(batch) - old(rows).Keys|
        && r.value.1 == |Beaten(old(rows), batch)|
    {
      var checked := CheckKeys(batch, (k: Key) => false);
      if checked.Failure? {
        return Failure(checked.error);
      }
      ghost var before := rows;
      var inserted, updated;
      rows, inserted, updated := MergeStaged(rows, batch);
      MergedRows(before, batch);
      return Success((inserted, updated));
    }
  }

  /** The statement, staged row by staged row. */
  method MergeStaged(rows: map<Key, Row>, batch: Batch) returns (merged: map<Key, Row>, inserted: nat, updated: nat)
    requires DistinctKeys(batch)
    ensures merged == Merged(rows, batch)
    ensures inserted == |Keys(batch) - rows.Keys| && updated == |Beaten(rows, batch)|
  {
    merged, inserted, updated := rows, 0, 0;
    NothingStaged(rows);
    for i := 0 to |batch|
      invariant merged == Merged(rows, batch[..i])
      invariant inserted == |Keys(batch[..i]) - rows.Keys| && updated == |Beaten(rows, batch[..i])|
    {
      var e := batch[i];
      KeyIsNew(batch, i);
      MergedNext(rows, batch[..i], e);
      InsertedNext(rows, batch[..i], e);
      BeatenNext(rows, batch[..i], e);
      if e.key !in rows {
        inserted := inserted + 1;
      } else if Newer(e.row, rows[e.key]) {
        updated := updated + 1;
      }
      merged := merged[e.key := Merge(Get(merged, e.key), e.row)];
    }
    assert batch[..|batch|] == batch;
  }

  lemma NothingStaged(rows: map<Key, Row>)
    ensures Merged(rows, []) == rows && Keys<Key, Row>([]) == {} && Beaten(rows, []) == {}
  {
    assert forall k | k in rows :: k in Merged(rows, []) && Merged(rows, [])[k] == rows[k];
  }

  lemma KeyIsNew(batch: Batch, i: nat)
    requires DistinctKeys(batch) && i < |batch|
    ensures batch[..i + 1] == batch[..i] + [batch[i]] && batch[i].key !in Keys(batch[..i])
  {
  }

  /** One more staged row meets the stored one of its key, and only that. */
  lemma MergedNext(rows: map<Key, Row>, done: Batch, e: Entry<Key, Row>)
    requires e.key !in Keys(done)
    ensures Get(Merged(rows, done), e.key) == Get(rows, e.key)
    ensures Merged(rows, done + [e]) == Merged(rows, done)[e.key := Merge(Get(rows, e.key), e.row)]
  {
    KeysNext(done, e);
    forall k | k in Merged(rows, done + [e]).Keys
      ensures Merged(rows, done + [e])[k] == Merged(rows, done)[e.key := Merge(Get(rows, e.key), e.row)][k]
    {
      StagedLast(done, e, k);
    }
    assert Merged(rows, done + [e]).Keys == Merged(rows, done).Keys + {e.key};
  }

  lemma KeysNext(done: Batch, e: Entry<Key, Row>)
    ensures Keys(done + [e]) == Keys(done) + {e.key}
  {
    assert forall x :: x in done + [e] <==> x in done || x == e;
  }

  lemma AddOne(s: set<Key>, t: set<Key>, k: Key, adds: bool)
    requires k !in s && forall x :: x in t <==> x in s || (adds && x == k)
    ensures |t| == |s| + if adds then 1 else 0
  {
    assert t == s + if adds then {k} else {};
  }

  lemma InsertedNext(rows: map<Key, Row>, done: Batch, e: Entry<Key, Row>)
    requires e.key !in Keys(done)
    ensures |Keys(done + [e]) - rows.Keys| == |Keys(done) - rows.Keys| + if e.key in rows then 0 else 1
  {
    KeysNext(done, e);
    AddOne(Keys(done) - rows.Keys, Keys(done + [e]) - rows.Keys, e.key, e.key !in rows);
  }

  lemma BeatenNext(rows: map<Key, Row>, done: Batch, e: Entry<Key, Row>)
    requires e.key !in Keys(done)
    ensures |Beaten(rows, done + [e])| == |Beaten(rows, done)| + if e.key in rows && Newer(e.row, rows[e.key]) then 1 else 0
  {
    var adds := e.key in rows && Newer(e.row, rows[e.key]);
    forall k ensures k in Beaten(rows, done + [e]) <==> k in Beaten(rows, done) || (adds && k == e.key) {
      StagedLast(done, e, k);
      assert k in rows ==> (Beats(rows[k], Staged(done + [e], k)) <==> Beats(rows[k], Staged(done, k)) || (adds && k == e.key));
    }
    AddOne(Beaten(rows, done), Beaten(rows, done + [e]), e.key, adds);
  }

  lemma {:induction false} MergedRows(rows: map<Key, Row>, batch: Batch)
    requires DistinctKeys(batch)
    ensures Merged(rows, batch).Keys == rows.Keys + Keys(batch)
    ensures forall e | e in batch :: Merged(rows, batch)[e.key] == Merge(Get(rows, e.key), e.row)
    ensures forall k | k in rows && k !in Keys(batch) :: Merged(rows, batch)[k] == rows[k]
  {
    forall e | e in batch ensures Staged(batch, e.key) == Some(e.row) {
      assert Entry(e.key, Staged(batch, e.key).value) in batch;
    }
  }

  /** The stored keys whose staged row is fresher. */
  function Beaten(rows: map<Key, Row>, batch: Batch): set<Key> {
    set k | k in rows && Beats(rows[k], Staged(batch, k))
  }

  predicate Beats(stored: Row, staged: Option<Row>) {
    staged.Some? && Newer(staged.value, stored)
  }

  function Merged(rows: map<Key, Row>, batch: Batch): map<Key, Row> {
    map k | k in rows.Keys + Keys(batch) ::
      if k in Keys(batch) then Merge(Get(rows, k), Staged(batch, k).value) else rows[k]
  }

  // ----- what an accepted write does -----

  /** Component by component, `b` records at least what `a` does. */
  predicate CountsCover(b: Counts, a: Counts) {
    && OrZero(a.input) <= OrZero(b.input) && OrZero(a.output) <= OrZero(b.output)
    && OrZero(a.cacheRead) <= OrZero(b.cacheRead) && OrZero(a.cacheWrite) <= OrZero(b.cacheWrite)
    && OrZero(a.reasoning) <= OrZero(b.reasoning)
  }

  predicate Covers(b: Row, a: Row) {
    CountsCover(b.counts, a.counts) && a.total <= b.total
  }

  /** Either the stored row is untouched, or its freshness strictly rises, no
      component or total falls, and the total holds at least the components. */
  lemma AcceptedWriteIsMonotone(target: Row, source: Row)
    ensures var merged := Merge(Some(target), source);
            && Covers(merged, target)
            && (merged == target || (Newer(merged, target) && Covers(merged, source) && merged.total >= Sum(merged.counts)))
            && (merged == target <==> !Newer(source, target))
  {
  }

  /** Merging a row twice is merging it once. */
  lemma MergeIsIdempotent(target: Option<Row>, source: Row)
    ensures Merge(Some(Merge(target, source)), source) == Merge(target, source)
  {
  }

  function MergeAll(target: Option<Row>, sources: seq<Row>): Option<Row> {
    if sources == [] then target
    else Some(Merge(MergeAll(target, sources[..|sources| - 1]), sources[|sources| - 1]))
  }

  lemma {:induction false} StoredRowOnlyAdvances(target: Row, sources: seq<Row>)
    ensures MergeAll(Some(target), sources).Some?
    ensures var final := MergeAll(Some(target), sources).value;
            Covers(final, target) && (final == target || Newer(final, target))
  {
    if sources != [] {
      var init := sources[..|sources| - 1];
      StoredRowOnlyAdvances(target, init);
      AcceptedWriteIsMonotone(MergeAll(Some(target), init).value, sources[|sources| - 1]);
    }
  }

  // ----- the pre-merge is transparent -----

  /** The row after publishing what `Prepare` kept of `x`. */
  function Publish(stored: Option<Row>, x: Row, captured: Option<Row>): Option<Row>
    requires Counted(x.counts)
  {
    var p := Prepare(x, captured);
    if p.None? then stored else Some(Merge(stored, p.value))
  }

  /** However often the stored row advanced after capture, publishing the prepared
      row leaves what publishing the raw row would, unless preparing raised the
      total past a stored row with the same collection time: exactly then the raw
      row loses and the prepared one wins. */
  lemma PreparationIsTransparent(x: Row, captured: Option<Row>, since: seq<Row>)
    requires Counted(x.counts)
    ensures var stored := MergeAll(captured, since);
            Publish(stored, x, captured) == Some(Merge(stored, x))
            <==> !(&& captured.Some? && Newer(x, captured.value)
                   && !Newer(x, stored.value) && Newer(Raise(x, captured.value), stored.value))
  {
    var stored := MergeAll(captured, since);
    if captured.Some? {
      StoredRowOnlyAdvances(captured.value, since);
      if Newer(x, captured.value) {
        var raised := Raise(x, captured.value);
        if Newer(x, stored.value) {
          RaiseThenMerge(x, captured.value, stored.value);
        } else if Newer(raised, stored.value) {
          AcceptedWriteIsMonotone(stored.value, raised);
        }
      }
    }
  }

  lemma RaiseThenMerge(x: Row, captured: Row, stored: Row)
    requires Counted(x.counts)
    requires Covers(stored, captured)
    requires Newer(x, stored)
    ensures Merge(Some(stored), Raise(x, captured)) == Merge(Some(stored), x)
  {
    var c, p, s := x.counts, captured.counts, stored.counts;
    RaisedComponent(c.input, p.input, s.input);
    RaisedComponent(c.output, p.output, s.output);
    RaisedComponent(c.cacheRead, p.cacheRead, s.cacheRead);
    RaisedComponent(c.cacheWrite, p.cacheWrite, s.cacheWrite);
    RaisedComponent(c.reasoning, p.reasoning, s.reasoning);
    assert GreatestCounts(s, Raise(x, captured).counts) == GreatestCounts(s, c);
  }

  lemma RaisedComponent(c: Option<nat>, captured: Option<nat>, stored: Option<nat>)
    requires c.Some? && OrZero(captured) <= OrZero(stored)
    ensures Greatest(stored, AtLeast(c, captured)) == Greatest(stored, c)
    ensures OrZero(AtLeast(c, captured)) <= OrZero(Greatest(stored, c))
  {
  }

  /** No tie on collection time, no difference: it is enough that the stored row
      did not advance or was collected at another time than `x`. */
  lemma PreparationIsTransparentWithoutTies(x: Row, captured: Option<Row>, since: seq<Row>)
    requires Counted(x.counts)
    requires MergeAll(captured, since) == captured
          || MergeAll(captured, since).value.collectedAt != x.collectedAt
    ensures Publish(MergeAll(captured, since), x, captured) == Some(Merge(MergeAll(captured, since), x))
  {
    PreparationIsTransparent(x, captured, since);
  }

  lemma TieBreaksTransparency()
    ensures exists x: Row, captured: Row, stored: Row ::
      && Counted(x.counts) && MergeAll(Some(captured), [stored]) == Some(stored)
      && stored.collectedAt == x.collectedAt
      && Publish(Some(stored), x, Some(captured)) != Some(Merge(Some(stored), x))
  {
    var few := Counts(Some(1), Some(0), Some(0), Some(0), Some(0));
    var many := Counts(Some(0), Some(5), Some(0), Some(0), Some(0));
    var captured := Row(many, 5, 0, 0, Detail(0, 0.0, "captured"));
    var stored := Row(many, 5, 1, 0, Detail(0, 0.0, "advanced"));
    var x := Row(few, 1, 1, 1, Detail(0, 0.0, "late"));
    assert [stored][..0] == [];
    assert MergeAll(Some(captured), [stored]) == Some(Merge(Some(captured), stored));
    assert Publish(Some(stored), x, Some(captured)) != Some(Merge(Some(stored), x));
  }

  predicate HoldsCount(b: Option<nat>, a: Option<nat>) {
    a.Some? ==> b.Some? && a.value <= b.value
  }

  /** `b` already holds whatever a merge with `a` could retain from it. */
  predicate Subsumes(b: Row, a: Row) {
    && HoldsCount(b.counts.input, a.counts.input) && HoldsCount(b.counts.output, a.counts.output)
    && HoldsCount(b.counts.cacheRead, a.counts.cacheRead) && HoldsCount(b.counts.cacheWrite, a.counts.cacheWrite)
    && HoldsCount(b.counts.reasoning, a.counts.reasoning)
    && a.total <= b.total && Sum(b.counts) <= b.total
  }

  /** A MERGE stores the fresher row as it is exactly when it subsumes the old one. */
  lemma StoredVerbatimExactly(target: Row, source: Row)
    requires Newer(source, target)
    ensures Merge(Some(target), source) == source <==> Subsumes(source, target)
  {
  }

  /** Two observations may come in either order exactly when the fresher subsumes
      the staler, or both are the same. */
  lemma OrderIndependentExactly(a: Row, b: Row)
    requires !Newer(a, b)
    ensures MergeAll(None, [a, b]) == MergeAll(None, [b, a])
       <==> if Newer(b, a) then Subsumes(b, a) else a == b
  {
    assert [a, b][..1] == [a] && [b, a][..1] == [b] && [a][..0] == [] && [b][..0] == [];
    assert MergeAll(None, [a]) == Some(a) && MergeAll(None, [b]) == Some(b);
    if Newer(b, a) {
      StoredVerbatimExactly(a, b);
    }
  }

  /** Upsert order matters: a stale row with larger counts is lost when it comes last. */
  lemma UpsertIsNotOrderIndependent()
    ensures exists a: Row, b: Row :: MergeAll(None, [a, b]) != MergeAll(None, [b, a])
  {
    var none := Counts(Some(0), Some(0), Some(0), Some(0), Some(0));
    var a := Row(none.(input := Some(9)), 9, 0, 0, Detail(0, 0.0, "stale"));
    var b := Row(none.(input := Some(1)), 1, 1, 1, Detail(0, 0.0, "fresh"));
    assert [a, b][..1] == [a] && [b, a][..1] == [b] && [a][..0] == [] && [b][..0] == [];
    assert MergeAll(None, [a]) == Some(a) && MergeAll(None, [b]) == Some(b);
    assert MergeAll(None, [a, b]) == Some(Merge(Some(a), b)) && MergeAll(None, [b, a]) == Some(Merge(Some(b), a));
    assert Merge(Some(a), b).counts.input == Some(9) && Merge(Some(b), a).counts.input == Some(1);
  }
}
