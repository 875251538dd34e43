/** Restoring a snapshot in one local transaction
    (src/usagebassoon/backends/duckdb_local.py, `restore_snapshot`,
    `check_restore_empty`, `restore_committed`, `append`, `transaction`). */
module LocalRestore {
  import opened Wrappers
  import opened Restore
  import opened Transactions

  /** Before every nonempty append to a debug table, rows collected longer ago than
      this are deleted from it. */
  const RETENTION_SECONDS := 90 * 86400

  /** A snapshot file, read in chunks of rows. */
  datatype File = File(table: Name, chunks: seq<Rows>)

  type Snapshot = seq<File>

  /** The receipt carries the time of its transaction. */
  datatype Receipt = Receipt(operation: Operation, at: int)

  /** Base tables apart from the three that hold metadata, and the receipts. */
  datatype Contents = Contents(tables: Tables, receipts: seq<Receipt>)

  /** Which tables there are: those that may be restored, and the debug tables. */
  datatype Schema = Schema(supported: set<Name>, debug: set<Name>)

  datatype Refusal = Unsupported | NotEmpty | Interrupted

  // ----- appending -----

  function Fresh(rows: Rows, at: int): Rows {
    if rows == [] then []
    else
      var init, last := rows[..|rows| - 1], rows[|rows| - 1];
      Fresh(init, at) + if last.collectedAt < at - RETENTION_SECONDS then [] else [last]
  }

  function Appended(before: Rows, rows: Rows, debug: bool, at: int): Rows {
    if rows == [] then before else (if debug then Fresh(before, at) else before) + rows
  }

  function Append(tables: Tables, t: Name, rows: Rows, debug: set<Name>, at: int): Tables {
    if rows == [] then tables else tables[t := Appended(RowsIn(tables, t), rows, t in debug, at)]
  }

  /** What is in a table after its chunks were appended one by one. */
  function Left(before: Rows, chunks: seq<Rows>, debug: bool, at: int): Rows {
    if chunks == [] then before
    else Appended(Left(before, chunks[..|chunks| - 1], debug, at), chunks[|chunks| - 1], debug, at)
  }

  function AppendChunks(tables: Tables, t: Name, chunks: seq<Rows>, debug: set<Name>, at: int): Tables {
    if chunks == [] then tables
    else Append(AppendChunks(tables, t, chunks[..|chunks| - 1], debug, at), t, chunks[|chunks| - 1], debug, at)
  }

  function Filled(tables: Tables, files: Snapshot, debug: set<Name>, at: int): Tables {
    if files == [] then tables
    else
      var last := files[|files| - 1];
      AppendChunks(Filled(tables, files[..|files| - 1], debug, at), last.table, last.chunks, debug, at)
  }

  // ----- one attempt -----

  predicate Supported(files: Snapshot, supported: set<Name>) {
    forall f | f in files :: f.table in supported
  }

  /** The receipt and emptiness inspections are statement 0; then one per chunk. */
  function Statements(files: Snapshot, n: nat): (count: nat)
    requires n <= |files|
    ensures count >= 1
  {
    if n == 0 then 1 else Statements(files, n - 1) + |files[n - 1].chunks|
  }

  /** The receipt and the commit are the last two statements. */
  predicate Commits(files: Snapshot, fault: Fault) {
    fault.Breaks? ==> fault.at > Statements(files, |files|) + 1
  }

  predicate Receipted(c: Contents, o: Operation) {
    exists r | r in c.receipts :: r.operation == o
  }

  function Attempted(c: Contents, o: Operation, files: Snapshot, schema: Schema, at: int, fault: Fault): Contents {
    if !Supported(files, schema.supported) || Receipted(c, o) || !Empty(c.tables) || !Commits(files, fault) then c
    else Contents(Filled(c.tables, files, schema.debug, at), c.receipts + [Receipt(o, at)])
  }

  class LocalStore {
    const schema: Schema
    var tables: Tables
    var receipts: seq<Receipt>

    constructor (schema: Schema)
      ensures this.schema == schema && tables == map t | t in schema.supported :: []
      ensures receipts == []
    {
      this.schema := schema;
      tables, receipts := map t | t in schema.supported :: [], [];
    }

    function Now(): Contents
      reads this
    {
      Contents(tables, receipts)
    }

    method CheckEmpty() returns (empty: bool)
      ensures empty <==> Empty(tables)
    {
      var names := tables.Keys;
      while names != {}
        invariant names <= tables.Keys
        invariant forall t | t in tables && t !in names :: tables[t] == []
        decreases |names|
      {
        var t :| t in names;
        if tables[t] != [] {
          return false;
        }
        names := names - {t};
      }
      return true;
    }

    /** Append every chunk in turn; a failing statement leaves the rollback to the
        caller. */
    method Fill(files: Snapshot, at: int, fault: Fault) returns (broken: bool)
      requires fault.Breaks? ==> fault.at >= 1
      modifies this`tables
      ensures broken <==> fault.Breaks? && fault.at < Statements(files, |files|)
      ensures !broken ==> tables == Filled(old(tables), files, schema.debug, at)
    {
      var done := 1;
      for n := 0 to |files|
        invariant tables == Filled(old(tables), files[..n], schema.debug, at)
        invariant done == Statements(files, n) && (fault.Breaks? ==> fault.at >= done)
      {
        FilledNext(old(tables), files, n, schema.debug, at);
        broken := FillOne(files[n], at, fault, done);
        if broken {
          StatementsGrow(files, n + 1, |files|);
          return;
        }
        done := done + |files[n].chunks|;
      }
      assert files[..|files|] == files;
      return false;
    }

    /** The chunks of one file, as statements from number `first` on. */
    method FillOne(file: File, at: int, fault: Fault, first: nat) returns (broken: bool)
      requires fault.Breaks? ==> fault.at >= first
      modifies this`tables
      ensures broken <==> fault.Breaks? && fault.at < first + |file.chunks|
      ensures !broken ==> tables == AppendChunks(old(tables), file.table, file.chunks, schema.debug, at)
    {
      var chunks := file.chunks;
      for i := 0 to |chunks|
        invariant tables == AppendChunks(old(tables), file.table, chunks[..i], schema.debug, at)
        invariant fault.Breaks? ==> fault.at >= first + i
      {
        if fault == Breaks(first + i) {
          return true;
        }
        ChunkNext(old(tables), file.table, chunks, i, schema.debug, at);
        tables := Append(tables, file.table, chunks[i], schema.debug, at);
      }
      assert chunks[..|chunks|] == chunks;
      return false;
    }

    /** Nothing changes unless all the appends and the receipt go in together; an
        operation already receipted succeeds without doing anything. */
    method RestoreSnapshot(o: Operation, files: Snapshot, at: int, fault: Fault) returns (r: Result<(), Refusal>)
      modifies this`tables, this`receipts
      ensures Now() == Attempted(old(Now()), o, files, schema, at, fault)
      ensures var known, statements := exists x | x in old(receipts) :: x.operation == o, Statements(files, |files|);
        var occupied := exists t | t in old(tables) :: old(tables)[t] != [];
        && (r == Failure(Unsupported) <==> exists f | f in files :: f.table !in schema.supported)
        && (r == Failure(NotEmpty) <==> r != Failure(Unsupported) && fault != Breaks(0) && !known && occupied)
        && (r != Failure(Unsupported) && known ==> (r.Success? <==> fault == Clean))
        && (r.Success? ==> exists x | x in receipts :: x.operation == o)
        && (r.Success? && !known ==> fault == Clean || (fault.Breaks? && fault.at > statements + 1))
        && (receipts != old(receipts) ==> r.Success? || fault.LosesAcknowledgement?)
      ensures fault.Clean? && Supported(files, schema.supported) && (Receipted(old(Now()), o) || Empty(old(tables))) ==> r.Success?
    {
      if exists f | f in files :: f.table !in schema.supported {
        return Failure(Unsupported);
      }
      if fault == Breaks(0) {
        return Failure(Interrupted);
      }
      if exists r | r in receipts :: r.operation == o {
        return if fault.Clean? then Success(()) else Failure(Interrupted);
      }
      var empty := CheckEmpty();
      if !empty {
        return Failure(NotEmpty);
      }
      var before := tables;
      var broken := Fill(files, at, fault);
      if broken || fault == Breaks(Statements(files, |files|)) || fault == Breaks(Statements(files, |files|) + 1) {
        tables := before;
        return Failure(Interrupted);
      }
      receipts := receipts + [Receipt(o, at)];
      assert Receipt(o, at) in receipts;
      return if fault.LosesAcknowledgement? then Failure(Interrupted) else Success(());
    }
  }

  lemma FilledNext(tables: Tables, files: Snapshot, n: nat, debug: set<Name>, at: int)
    requires n < |files|
    ensures Filled(tables, files[..n + 1], debug, at)
         == AppendChunks(Filled(tables, files[..n], debug, at), files[n].table, files[n].chunks, debug, at)
  {
    assert files[..n + 1][..n] == files[..n];
  }

  lemma ChunkNext(tables: Tables, t: Name, chunks: seq<Rows>, i: nat, debug: set<Name>, at: int)
    requires i < |chunks|
    ensures AppendChunks(tables, t, chunks[..i + 1], debug, at)
         == Append(AppendChunks(tables, t, chunks[..i], debug, at), t, chunks[i], debug, at)
  {
    assert chunks[..i + 1][..i] == chunks[..i];
  }

  lemma {:induction false} StatementsGrow(files: Snapshot, m: nat, n: nat)
    requires m <= n <= |files|
    ensures Statements(files, m) <= Statements(files, n)
  {
    if m < n {
      StatementsGrow(files, m, n - 1);
    }
  }

  // ----- what one table is left with -----

  function Joined(chunks: seq<Rows>): Rows {
    if chunks == [] then [] else Joined(chunks[..|chunks| - 1]) + chunks[|chunks| - 1]
  }

  predicate Stale(r: Row, at: int) {
    r.collectedAt < at - RETENTION_SECONDS
  }

  predicate NoneStale(rows: Rows, at: int) {
    forall r | r in rows :: !Stale(r, at)
  }

  lemma {:induction false} FreshKeepsExactly(rows: Rows, at: int)
    ensures |Fresh(rows, at)| <= |rows| && NoneStale(Fresh(rows, at), at)
    ensures |Fresh(rows, at)| == |rows| ==> Fresh(rows, at) == rows
    ensures Fresh(rows, at) == rows <==> NoneStale(rows, at)
  {
    if rows != [] {
      var init, last := rows[..|rows| - 1], rows[|rows| - 1];
      FreshKeepsExactly(init, at);
      assert rows == init + [last];
      assert forall r :: r in rows <==> r in init || r == last;
      if Stale(last, at) {
        assert |Fresh(rows, at)| < |rows|;
      } else {
        assert Fresh(rows, at)[..|Fresh(rows, at)| - 1] == Fresh(init, at);
      }
    }
  }

  /** No stale row stands in a chunk that a nonempty chunk follows. */
  ghost predicate SparedChunks(chunks: seq<Rows>, at: int) {
    forall i, j | 0 <= i < j < |chunks| && chunks[j] != [] :: NoneStale(chunks[i], at)
  }

  lemma {:induction false} JoinedHolds(chunks: seq<Rows>, at: int)
    ensures NoneStale(Joined(chunks), at) <==> forall i | 0 <= i < |chunks| :: NoneStale(chunks[i], at)
  {
    if chunks != [] {
      var init, last := chunks[..|chunks| - 1], chunks[|chunks| - 1];
      JoinedHolds(init, at);
      assert chunks == init + [last];
      assert forall r :: r in Joined(chunks) <==> r in Joined(init) || r in last;
      assert forall i | 0 <= i < |init| :: chunks[i] == init[i];
    }
  }

  lemma SparedLast(chunks: seq<Rows>, at: int)
    requires chunks != []
    ensures var init, last := chunks[..|chunks| - 1], chunks[|chunks| - 1];
      SparedChunks(chunks, at) <==> SparedChunks(init, at) && (last == [] || NoneStale(Joined(init), at))
  {
    var init, last := chunks[..|chunks| - 1], chunks[|chunks| - 1];
    JoinedHolds(init, at);
    assert forall i | 0 <= i < |init| :: chunks[i] == init[i];
  }

  /** A table that was empty is left with exactly its file's rows if it is no debug
      table or no stale row precedes a later nonempty chunk; otherwise with fewer,
      but never with none. */
  lemma {:induction false} LeftExactly(chunks: seq<Rows>, debug: bool, at: int)
    ensures |Left([], chunks, debug, at)| <= |Joined(chunks)|
    ensures Left([], chunks, debug, at) == [] <==> Joined(chunks) == []
    ensures Left([], chunks, debug, at) == Joined(chunks) <==> !debug || SparedChunks(chunks, at)
    ensures |Left([], chunks, debug, at)| == |Joined(chunks)| ==> Left([], chunks, debug, at) == Joined(chunks)
  {
    if chunks != [] {
      var init, last := chunks[..|chunks| - 1], chunks[|chunks| - 1];
      LeftExactly(init, debug, at);
      SparedLast(chunks, at);
      LeftAfter(Left([], init, debug, at), Joined(init), last, debug, at);
    }
  }

  lemma LeftAfter(kept: Rows, all: Rows, last: Rows, debug: bool, at: int)
    requires |kept| <= |all| && (|kept| == |all| ==> kept == all)
    ensures var after := Appended(kept, last, debug, at);
      && |after| <= |all + last|
      && (last != [] ==> after != [])
      && (|after| == |all + last| ==> after == all + last)
      && (after == all + last <==> kept == all && (!debug || last == [] || NoneStale(all, at)))
  {
    FreshKeepsExactly(kept, at);
    var before := if debug && last != [] then Fresh(kept, at) else kept;
    assert Appended(kept, last, debug, at) == before + last;
    assert |before| == |all| ==> before == kept == all;
    if before + last == all + last {
      assert |before| == |all|;
    }
  }

  // ----- what the whole restore leaves -----

  /** A mapping names each table once. */
  ghost predicate OneFileEach(files: Snapshot) {
    forall i, j | 0 <= i < j < |files| :: files[i].table != files[j].table
  }

  function ChunksOf(files: Snapshot, t: Name): seq<Rows> {
    if files == [] then []
    else
      var last := files[|files| - 1];
      if last.table == t then last.chunks else ChunksOf(files[..|files| - 1], t)
  }

  lemma {:induction false} ChunksAppended(tables: Tables, t: Name, chunks: seq<Rows>, debug: set<Name>, at: int, u: Name)
    ensures RowsIn(AppendChunks(tables, t, chunks, debug, at), u)
         == if u == t then Left(RowsIn(tables, t), chunks, t in debug, at) else RowsIn(tables, u)
  {
    if chunks != [] {
      ChunksAppended(tables, t, chunks[..|chunks| - 1], debug, at, u);
      ChunksAppended(tables, t, chunks[..|chunks| - 1], debug, at, t);
    }
  }

  lemma {:induction false} NoFileNoChunks(files: Snapshot, t: Name)
    requires forall f | f in files :: f.table != t
    ensures ChunksOf(files, t) == []
  {
    if files != [] {
      assert files[|files| - 1] in files;
      NoFileNoChunks(files[..|files| - 1], t);
    }
  }

  /** Table by table, the restore leaves what its file's chunks leave. */
  lemma {:induction false} FilledIsLeft(tables: Tables, files: Snapshot, debug: set<Name>, at: int, t: Name)
    requires OneFileEach(files)
    ensures RowsIn(Filled(tables, files, debug, at), t) == Left(RowsIn(tables, t), ChunksOf(files, t), t in debug, at)
  {
    if files != [] {
      var init, last := files[..|files| - 1], files[|files| - 1];
      FilledIsLeft(tables, init, debug, at, t);
      ChunksAppended(Filled(tables, init, debug, at), last.table, last.chunks, debug, at, t);
      if last.table == t {
        NoFileNoChunks(init, t);
      }
    }
  }

  function NamesOf(files: Snapshot): set<Name> {
    set f | f in files :: f.table
  }

  /** The rows of a snapshot, table by table. */
  function RowsBy(files: Snapshot): Tables {
    Visible(map t | t in NamesOf(files) :: Joined(ChunksOf(files, t)))
  }

  /** No debug file has a stale row in a chunk that a nonempty chunk follows. */
  ghost predicate Spared(files: Snapshot, debug: set<Name>, at: int) {
    forall t | t in debug && t in NamesOf(files) :: SparedChunks(ChunksOf(files, t), at)
  }

  lemma RowsByTable(files: Snapshot, t: Name)
    ensures RowsIn(RowsBy(files), t) == Joined(ChunksOf(files, t))
  {
    if t !in NamesOf(files) {
      NoFileNoChunks(files, t);
    }
  }

  /** What fills empty tables is exactly the snapshot's rows if and only if the
      deletions before appends spare them. */
  lemma FillingEmptyTables(tables: Tables, files: Snapshot, debug: set<Name>, at: int)
    requires Empty(tables) && OneFileEach(files)
    ensures Visible(Filled(tables, files, debug, at)) == RowsBy(files) <==> Spared(files, debug, at)
  {
    var filled := Filled(tables, files, debug, at);
    forall t: Name
      ensures RowsIn(filled, t) == RowsIn(RowsBy(files), t)
         <==> (t in debug && t in NamesOf(files) ==> SparedChunks(ChunksOf(files, t), at))
    {
      FilledIsLeft(tables, files, debug, at, t);
      RowsByTable(files, t);
      LeftExactly(ChunksOf(files, t), t in debug, at);
      if t !in NamesOf(files) {
        NoFileNoChunks(files, t);
      }
    }
    SameVisible(filled, RowsBy(files));
    assert Visible(RowsBy(files)) == RowsBy(files);
  }

  /** However much is deleted, nothing is left only of a snapshot without rows, and
      what is left does not depend on where the empty tables came from. */
  lemma {:induction false} SomethingStays(tables: Tables, files: Snapshot, debug: set<Name>, at: int)
    requires Empty(tables) && OneFileEach(files)
    ensures Visible(Filled(tables, files, debug, at)) == map[] <==> RowsBy(files) == map[]
    ensures Visible(Filled(tables, files, debug, at)) == Visible(Filled(map[], files, debug, at))
  {
    var filled, again := Filled(tables, files, debug, at), Filled(map[], files, debug, at);
    forall t: Name
      ensures RowsIn(filled, t) == RowsIn(again, t)
      ensures RowsIn(filled, t) == [] <==> RowsIn(RowsBy(files), t) == []
    {
      FilledIsLeft(tables, files, debug, at, t);
      FilledIsLeft(map[], files, debug, at, t);
      RowsByTable(files, t);
      LeftExactly(ChunksOf(files, t), t in debug, at);
    }
    SameVisible(filled, again);
    assert forall t :: t in Visible(filled) <==> RowsIn(filled, t) != [];
    assert forall t :: t in RowsBy(files) <==> RowsIn(RowsBy(files), t) != [];
  }

  /** The condition is needed: a stale row in a first chunk is deleted by the append
      of the second, and the restore commits all the same. */
  lemma StaleRowsAreLost(t: Name, files: Snapshot, stale: Row, later: Row, at: int, c: Contents, o: Operation)
    requires files == [File(t, [[stale], [later]])]
    requires Stale(stale, at) && Empty(c.tables) && !Receipted(c, o)
    ensures var n := Attempted(c, o, files, Schema({t}, {t}), at, Clean);
      && Receipted(n, o)
      && RowsBy(files) == map[t := [stale, later]]
      && Visible(n.tables) == map[t := [later]]
  {
    TwoChunks(stale, later, at);
    SingleFile(c.tables, files, t, files[0].chunks, {t}, at);
    SingleFileRows(files, t, files[0].chunks);
    var n := Attempted(c, o, files, Schema({t}, {t}), at, Clean);
    assert n == Contents(Filled(c.tables, files, {t}, at), c.receipts + [Receipt(o, at)]);
    assert n.receipts[|c.receipts|] in n.receipts;
  }

  lemma SingleFile(tables: Tables, files: Snapshot, t: Name, chunks: seq<Rows>, debug: set<Name>, at: int)
    requires Empty(tables) && files == [File(t, chunks)]
    requires Joined(chunks) != []
    ensures Visible(Filled(tables, files, debug, at)) == map[t := Left([], chunks, t in debug, at)]
  {
    var filled, kept := Filled(tables, files, debug, at), Left([], chunks, t in debug, at);
    LeftExactly(chunks, t in debug, at);
    forall u: Name ensures RowsIn(filled, u) == if u == t then kept else [] {
      FilledIsLeft(tables, files, debug, at, u);
      SingleFileChunks(files, t, chunks, u);
    }
    SameVisible(filled, map[t := kept]);
  }

  lemma SingleFileRows(files: Snapshot, t: Name, chunks: seq<Rows>)
    requires files == [File(t, chunks)] && Joined(chunks) != []
    ensures RowsBy(files) == map[t := Joined(chunks)]
  {
    SingleFileChunks(files, t, chunks, t);
    assert NamesOf(files) == {t};
  }

  lemma SingleFileChunks(files: Snapshot, t: Name, chunks: seq<Rows>, u: Name)
    requires files == [File(t, chunks)]
    ensures ChunksOf(files, u) == if u == t then chunks else []
  {
    assert files[..0] == [];
  }

  lemma TwoChunks(stale: Row, later: Row, at: int)
    requires Stale(stale, at)
    ensures Joined([[stale], [later]]) == [stale, later]
    ensures Left([], [[stale], [later]], true, at) == [later]
  {
    var one, two := [[stale]], [[stale], [later]];
    assert two[..1] == one && one[..0] == [] && [stale][..0] == [];
    assert Joined(one) == [] + [stale];
    assert Joined(two) == Joined(one) + [later];
    assert Left([], one, true, at) == Fresh([], at) + [stale];
    assert Fresh([stale], at) == [];
    assert Left([], two, true, at) == Appended([stale], [later], true, at);
  }

  // ----- any attempts, in any order -----

  datatype Attempt = Attempt(operation: Operation, at: int, fault: Fault)

  type Snapshots = map<Operation, Snapshot>

  function AfterAttempts(c: Contents, f: Snapshots, schema: Schema, attempts: seq<Attempt>): Contents
    requires forall a | a in attempts :: a.operation in f
  {
    if attempts == [] then c
    else
      var last := attempts[|attempts| - 1];
      assert last in attempts;
      var before := AfterAttempts(c, f, schema, attempts[..|attempts| - 1]);
      Attempted(before, last.operation, f[last.operation], schema, last.at, last.fault)
  }

  ghost predicate HasRows(f: Snapshots, r: Receipt)
    requires r.operation in f
  {
    RowsBy(f[r.operation]) != map[]
  }

  /** Each operation is receipted once at most, and one with rows at most; the rows
      there are what restoring that one at the time of its receipt leaves. */
  ghost predicate Consistent(c: Contents, f: Snapshots, debug: set<Name>) {
    && (forall r | r in c.receipts :: r.operation in f)
    && (forall i, j | 0 <= i < j < |c.receipts| :: c.receipts[i].operation != c.receipts[j].operation)
    && ((forall r | r in c.receipts :: !HasRows(f, r)) ==> Visible(c.tables) == map[])
    && (forall r | r in c.receipts && HasRows(f, r) ::
          Visible(c.tables) == Visible(Filled(map[], f[r.operation], debug, r.at)) != map[])
    && (forall i, j | 0 <= i < j < |c.receipts| :: !HasRows(f, c.receipts[i]) || !HasRows(f, c.receipts[j]))
  }

  lemma EmptyMeansNoRows(c: Contents, f: Snapshots, debug: set<Name>)
    requires Consistent(c, f, debug) && Empty(c.tables)
    ensures forall r | r in c.receipts :: !HasRows(f, r)
  {
    assert Visible(c.tables) == map[];
  }

  lemma AttemptKeepsConsistent(c: Contents, f: Snapshots, o: Operation, schema: Schema, at: int, fault: Fault)
    requires Consistent(c, f, schema.debug) && o in f && OneFileEach(f[o])
    ensures Consistent(Attempted(c, o, f[o], schema, at, fault), f, schema.debug)
  {
    var n := Attempted(c, o, f[o], schema, at, fault);
    if n != c {
      SomethingStays(c.tables, f[o], schema.debug, at);
      EmptyMeansNoRows(c, f, schema.debug);
      assert forall r :: r in n.receipts <==> r in c.receipts || r == Receipt(o, at);
      forall i | 0 <= i < |c.receipts| ensures n.receipts[i] in c.receipts {
      }
    }
  }

  lemma {:induction false} AttemptsKeepConsistent(c: Contents, f: Snapshots, schema: Schema, attempts: seq<Attempt>)
    requires Empty(c.tables) && c.receipts == []
    requires forall o | o in f :: OneFileEach(f[o])
    requires forall a | a in attempts :: a.operation in f
    ensures Consistent(AfterAttempts(c, f, schema, attempts), f, schema.debug)
  {
    if attempts == [] {
      assert Visible(c.tables) == map[];
    } else {
      var init, last := attempts[..|attempts| - 1], attempts[|attempts| - 1];
      assert last in attempts;
      AttemptsKeepConsistent(c, f, schema, init);
      AttemptKeepsConsistent(AfterAttempts(c, f, schema, init), f, last.operation, schema, last.at, last.fault);
    }
  }

  /** Any operations, repeated in any order under any faults and lost replies, on a
      database without rows: each is receipted at most once; no rows are there
      before a snapshot with rows is receipted; and once one is, no other is, and
      the rows are exactly its own if and only if the deletions spared them. */
  lemma {:induction false} LocalRestoreIsExact(c: Contents, f: Snapshots, schema: Schema, attempts: seq<Attempt>)
    requires Empty(c.tables) && c.receipts == []
    requires forall o | o in f :: OneFileEach(f[o])
    requires forall a | a in attempts :: a.operation in f
    ensures var n := AfterAttempts(c, f, schema, attempts);
      && (forall r | r in n.receipts :: r.operation in f)
      && (forall i, j | 0 <= i < j < |n.receipts| :: n.receipts[i].operation != n.receipts[j].operation)
      && (forall i, j | 0 <= i < j < |n.receipts| :: !HasRows(f, n.receipts[i]) || !HasRows(f, n.receipts[j]))
      && ((forall r | r in n.receipts :: !HasRows(f, r)) ==> Visible(n.tables) == map[])
      && (forall r | r in n.receipts && HasRows(f, r) ::
            && Visible(n.tables) != map[]
            && (Visible(n.tables) == RowsBy(f[r.operation]) <==> Spared(f[r.operation], schema.debug, r.at)))
  {
    AttemptsKeepConsistent(c, f, schema, attempts);
    var n := AfterAttempts(c, f, schema, attempts);
    forall r | r in n.receipts && HasRows(f, r)
      ensures Visible(n.tables) == RowsBy(f[r.operation]) <==> Spared(f[r.operation], schema.debug, r.at)
    {
      FillingEmptyTables(map[], f[r.operation], schema.debug, r.at);
    }
  }

  /** Once receipted, an operation is never carried out again, and with rows in
      place nothing else is either. */
  lemma RestoredStays(c: Contents, f: Snapshots, r: Receipt, p: Operation, schema: Schema, at: int, fault: Fault)
    requires Consistent(c, f, schema.debug) && r in c.receipts && p in f
    requires p == r.operation || HasRows(f, r)
    ensures Attempted(c, p, f[p], schema, at, fault) == c
  {
    if HasRows(f, r) {
      var t :| t in Visible(c.tables);
      assert c.tables[t] != [];
    }
  }
}
