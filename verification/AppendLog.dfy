/** The append-only store refines the in-place one: the best row of the log is the
    row MERGE keeps (src/usagebassoon/backends/bigquery.py, `upsert` and `append`;
    src/usagebassoon/backends/duckdb_local.py, `upsert`). */
module AppendLog {
  import opened Wrappers
  import opened StagedRows
  import opened DailyTokens

  /** A run prepares its batch against the canonical rows of that moment and
      publishes it; a replay publishes again what run `i` prepared. */
  datatype Event = Run(batch: Batch) | Replay(i: nat)

  /** Every batch passed the writer's key check and has non-null counts. */
  ghost predicate Admissible(events: seq<Event>) {
    forall e | e in events && e.Run? :: AllCounted(e.batch) && DistinctKeys(e.batch)
  }

  /** The first row under `k` that no other beats, as ROW_NUMBER() = 1 reads it. */
  function Best(log: Batch, k: Key): Option<Row> {
    if log == [] then None
    else
      var rest, last := Best(log[..|log| - 1], k), log[|log| - 1];
      if last.key == k && (rest.None? || Newer(last.row, rest.value)) then Some(last.row) else rest
  }

  function Canonical(log: Batch): map<Key, Row> {
    map k | k in Keys(log) && Best(log, k).Some? :: Best(log, k).value
  }

  /** `r` is a row that may be ranked first under `k`, however ties are broken. */
  ghost predicate RankedFirst(log: Batch, k: Key, r: Row) {
    Entry(k, r) in log && forall e | e in log && e.key == k :: !Newer(e.row, r)
  }

  // ----- the two stores -----

  datatype InPlace = InPlace(table: map<Key, Row>, published: seq<Batch>)
  datatype AppendOnly = AppendOnly(log: Batch, published: seq<Batch>)

  ghost function RunInPlace(events: seq<Event>): InPlace
    requires Admissible(events)
  {
    if events == [] then InPlace(map[], [])
    else
      var s := RunInPlace(events[..|events| - 1]);
      match events[|events| - 1]
      case Run(batch) =>
        var p := Prepared(batch, s.table);
        InPlace(Merged(s.table, p), s.published + [p])
      case Replay(i) =>
        if i < |s.published| then s.(table := Merged(s.table, s.published[i])) else s
  }

  ghost function RunAppendOnly(events: seq<Event>): AppendOnly
    requires Admissible(events)
  {
    if events == [] then AppendOnly([], [])
    else
      var s := RunAppendOnly(events[..|events| - 1]);
      match events[|events| - 1]
      case Run(batch) =>
        var p := Prepared(batch, Canonical(s.log));
        AppendOnly(s.log + p, s.published + [p])
      case Replay(i) =>
        if i < |s.published| then s.(log := s.log + s.published[i]) else s
  }

  // ----- appending a batch -----

  function Fresher(a: Option<Row>, b: Option<Row>): Option<Row> {
    if a.None? then b else if b.None? || !Newer(b.value, a.value) then a else b
  }

  lemma {:induction false} BestAfterAppend(log: Batch, batch: Batch, k: Key)
    requires DistinctKeys(batch)
    ensures Best(log + batch, k) == Fresher(Best(log, k), Staged(batch, k))
  {
    if batch == [] {
      assert log + batch == log;
    } else {
      var init, last := batch[..|batch| - 1], batch[|batch| - 1];
      assert (log + batch)[..|log + batch| - 1] == log + init;
      BestAfterAppend(log, init, k);
      assert last.key !in Keys(init);
    }
  }

  lemma {:induction false} BestIsMember(log: Batch, k: Key)
    ensures Best(log, k).Some? <==> k in Keys(log)
    ensures Best(log, k).Some? ==> RankedFirst(log, k, Best(log, k).value)
  {
    if log != [] {
      BestIsMember(log[..|log| - 1], k);
      assert log == log[..|log| - 1] + [log[|log| - 1]];
    }
  }

  /** A prepared row already holds the maxima: MERGE stores it as it is. */
  lemma PreparedRowIsStoredVerbatim(x: Row, captured: Option<Row>)
    requires Counted(x.counts)
    requires Prepare(x, captured).Some?
    ensures Merge(captured, Prepare(x, captured).value) == Prepare(x, captured).value
    ensures captured.Some? ==> Newer(Prepare(x, captured).value, captured.value)
  {
  }

  // ----- the refinement -----

  /** The stores hold the same canonical rows; every logged row is the stored one
      or strictly staler; what was published was logged. */
  ghost predicate Synchronized(a: AppendOnly, s: InPlace) {
    && Canonical(a.log) == s.table
    && a.published == s.published
    && (forall e | e in a.log :: e.key in s.table && (e.row == s.table[e.key] || Newer(s.table[e.key], e.row)))
    && (forall i | 0 <= i < |a.published| ::
          DistinctKeys(a.published[i]) && forall e | e in a.published[i] :: e in a.log)
  }

  lemma CanonicalIsBest(log: Batch)
    ensures forall k :: Get(Canonical(log), k) == Best(log, k)
  {
    forall k ensures Get(Canonical(log), k) == Best(log, k) {
      BestIsMember(log, k);
    }
  }

  /** If under every key the batch is absent, beaten, or stored verbatim, then
      appending it and merging it keep the stores synchronized. */
  lemma PublishKeepsSynchronized(a: AppendOnly, s: InPlace, p: Batch)
    requires Synchronized(a, s)
    requires DistinctKeys(p)
    requires forall e | e in p ::
      (e.key in s.table && !Newer(e.row, s.table[e.key]) && e in a.log)
      || (Merge(Get(s.table, e.key), e.row) == e.row && (e.key in s.table ==> Newer(e.row, s.table[e.key])))
    ensures var log, table := a.log + p, Merged(s.table, p);
            && Canonical(log) == table
            && forall e | e in log :: e.key in table && (e.row == table[e.key] || Newer(table[e.key], e.row))
  {
    var log, table := a.log + p, Merged(s.table, p);
    CanonicalIsBest(a.log);
    CanonicalIsBest(log);
    forall k ensures Get(Canonical(log), k) == Get(table, k) {
      BestAfterAppend(a.log, p, k);
    }
    assert Canonical(log) == table by {
      assert forall k :: k in Canonical(log) <==> Get(Canonical(log), k).Some?;
      assert forall k :: k in table <==> Get(table, k).Some?;
      assert forall k | k in table :: Get(table, k) == Some(table[k]);
    }
    forall e | e in log ensures e.key in table && (e.row == table[e.key] || Newer(table[e.key], e.row)) {
      if e in p {
        StagedOfMember(p, e);
      }
    }
  }

  lemma {:induction false} StagedOfMember(batch: Batch, e: Entry<Key, Row>)
    requires DistinctKeys(batch) && e in batch
    ensures Staged(batch, e.key) == Some(e.row)
  {
    var i :| 0 <= i < |batch| && batch[i] == e;
    if i < |batch| - 1 {
      assert batch[..|batch| - 1][i] == e;
      StagedOfMember(batch[..|batch| - 1], e);
    }
  }

  lemma {:induction false} StoresStaySynchronized(events: seq<Event>)
    requires Admissible(events)
    ensures Synchronized(RunAppendOnly(events), RunInPlace(events))
  {
    if events != [] {
      var init, last := events[..|events| - 1], events[|events| - 1];
      assert last in events;
      StoresStaySynchronized(init);
      var a, s := RunAppendOnly(init), RunInPlace(init);
      match last
      case Run(batch) =>
        var p := Prepared(batch, s.table);
        PreparedKeepsKeysDistinct(batch, s.table);
        forall e | e in p
          ensures Merge(Get(s.table, e.key), e.row) == e.row && (e.key in s.table ==> Newer(e.row, s.table[e.key]))
        {
          PreparedRow(batch, s.table, e.key);
          StagedOfMember(p, e);
          PreparedRowIsStoredVerbatim(Staged(batch, e.key).value, Get(s.table, e.key));
        }
        PublishKeepsSynchronized(a, s, p);
      case Replay(i) =>
        if i < |s.published| {
          PublishKeepsSynchronized(a, s, s.published[i]);
        }
    }
  }

  /** After any runs, each prepared against the rows of its moment, and any
      replays of prepared batches: under every key the rows that the append-only
      store may rank first are exactly the row the MERGE store keeps. */
  lemma AppendLogRefinesUpsert(events: seq<Event>, k: Key, r: Row)
    requires Admissible(events)
    ensures var log, table := RunAppendOnly(events).log, RunInPlace(events).table;
            RankedFirst(log, k, r) <==> k in table && table[k] == r
  {
    StoresStaySynchronized(events);
    BestIsMember(RunAppendOnly(events).log, k);
  }

  lemma BeatenRowsMergeToNothing(table: map<Key, Row>, p: Batch)
    requires forall e | e in p :: e.key in table && !Newer(e.row, table[e.key])
    ensures Merged(table, p) == table
  {
    assert Keys(p) <= table.Keys;
    forall k | k in table ensures Merged(table, p)[k] == table[k] {
      if k in Keys(p) {
        assert Entry(k, Staged(p, k).value) in p;
      }
    }
  }

  lemma ReplayMergesToNothing(a: AppendOnly, s: InPlace, i: nat)
    requires Synchronized(a, s) && i < |s.published|
    ensures Merged(s.table, s.published[i]) == s.table
  {
    assert forall e | e in s.published[i] :: e in a.log;
    BeatenRowsMergeToNothing(s.table, s.published[i]);
  }

  /** Replaying any batch already published changes no canonical row. */
  lemma ReplayIsInvisible(events: seq<Event>, i: nat)
    requires Admissible(events)
    ensures RunInPlace(events + [Replay(i)]).table == RunInPlace(events).table
    ensures Canonical(RunAppendOnly(events + [Replay(i)]).log) == Canonical(RunAppendOnly(events).log)
  {
    var more := events + [Replay(i)];
    assert more[..|more| - 1] == events;
    StoresStaySynchronized(events);
    StoresStaySynchronized(more);
    if i < |RunInPlace(events).published| {
      ReplayMergesToNothing(RunAppendOnly(events), RunInPlace(events), i);
    }
  }

  /** Appending a row prepared against anything, to a log whose best row the MERGE
      store holds: the stores still agree exactly when the row is beaten, or
      subsumes the stored one. */
  lemma AppendAgreesExactly(log: Batch, k: Key, stored: Row, p: Row)
    requires Best(log, k) == Some(stored)
    ensures Best(log + [Entry(k, p)], k) == Some(Merge(Some(stored), p)) <==> !Newer(p, stored) || Subsumes(p, stored)
  {
    assert (log + [Entry(k, p)])[..|log|] == log;
    if Newer(p, stored) {
      StoredVerbatimExactly(stored, p);
    }
  }

  /** The hypothesis matters: a batch prepared against rows that have since been
      replaced can leave different rows in the two stores. */
  lemma StalePreparationDiverges()
    ensures exists k: Key, captured: Row, x: Row, y: Row ::
      && Counted(x.counts) && Counted(y.counts)
      && Prepare(x, Some(captured)).Some? && Prepare(y, Some(captured)).Some?
      && var p, q := Prepare(x, Some(captured)).value, Prepare(y, Some(captured)).value;
         Best([Entry(k, captured), Entry(k, p), Entry(k, q)], k)
         != MergeAll(Some(captured), [p, q])
  {
    var k := Key("s", 0, "c", "i", "m");
    var zero := Counts(Some(0), Some(0), Some(0), Some(0), Some(0));
    var captured := Row(zero, 0, 0, 0, Detail(0, 0.0, ""));
    var x := Row(zero.(input := Some(9)), 9, 1, 1, Detail(0, 0.0, ""));
    var y := Row(zero.(input := Some(1)), 1, 2, 2, Detail(0, 0.0, ""));
    var log := [Entry(k, captured), Entry(k, x), Entry(k, y)];
    assert Prepare(x, Some(captured)) == Some(x) && Prepare(y, Some(captured)) == Some(y);
    assert log[..2] == [Entry(k, captured), Entry(k, x)] && log[..2][..1] == [Entry(k, captured)];
    assert log[..2][..1][..0] == [];
    assert Best(log[..2][..1], k) == Some(captured);
    assert Best(log[..2], k) == Some(x);
    assert Best(log, k) == Some(y);
    assert [x, y][..1] == [x] && [x][..0] == [];
    assert MergeAll(Some(captured), [x]) == Some(x);
    assert MergeAll(Some(captured), [x, y]).value.counts.input == Some(9);
  }
}
