/** Restoring a snapshot through staged loads and one receipt-bearing transaction
    (src/usagebassoon/backends/bigquery.py, `restore_snapshot`, `_commit_restore`,
    `restore_committed`, `cleanup_restore_stages`).

    Clients, jobs and stage deletion interleave freely: replies may be lost, jobs
    may finish after their client gave up, and stages may be left behind. */
module Restore {
  type Operation = string
  type Name = string

  /** A stored row: its collection time in seconds and its other columns. */
  datatype Row = Row(collectedAt: int, data: string)

  type Rows = seq<Row>
  type Tables = map<Name, Rows>

  /** The verified files of every operation that may be attempted. */
  type Files = map<Operation, Tables>

  /** A staging table is named after its attempt and its table. */
  datatype Stage = Stage(attempt: nat, table: Name)

  datatype Job = Load(attempt: nat, table: Name) | Commit(attempt: nat)

  datatype Phase = Created | Loading | Loaded

  /** A client between its receipt inspection and the end of its attempt. */
  datatype Client = Inspected | Preparing(staged: map<Name, Phase>)

  /** `operations` names the operation of every attempt ever made, as the labels
      of its jobs do; `listed` holds the foreign tables a commit asserts empty. */
  datatype State = State(
    tables: Tables,
    receipts: seq<Operation>,
    stages: map<Stage, Rows>,
    pending: set<Job>,
    succeeded: set<Job>,
    operations: map<nat, Operation>,
    clients: map<nat, Client>,
    listed: map<nat, set<Stage>>)

  predicate Initial(s: State) {
    s.tables == map[] && s.receipts == [] && s.stages == map[] && s.pending == {} && s.succeeded == {}
    && s.operations == map[] && s.clients == map[] && s.listed == map[]
  }

  function RowsIn(tables: Tables, t: Name): Rows {
    if t in tables then tables[t] else []
  }

  predicate Empty(tables: Tables) {
    forall t | t in tables :: tables[t] == []
  }

  datatype Step =
    | Inspect(a: nat, operation: Operation)   // no receipt was found
    | ConfirmIdle(a: nat)                     // no active job of the operation was listed
    | CreateStage(a: nat, t: Name)
    | SubmitLoad(a: nat, t: Name)
    | ObserveLoad(a: nat, t: Name)            // the job was seen to have succeeded
    | SubmitCommit(a: nat)
    | GiveUp(a: nat)                          // any error, timeout, crash or return
    | RunLoad(a: nat, t: Name)
    | RunCommit(a: nat)
    | FailJob(job: Job)                       // error, cancellation, failed assertion
    | DeleteStage(stage: Stage)               // cleanup or expiry

  predicate PhaseIs(s: State, a: nat, t: Name, p: Phase) {
    a in s.clients && s.clients[a].Preparing? && t in s.clients[a].staged && s.clients[a].staged[t] == p
  }

  function FilesOf(f: Files, s: State, a: nat): Tables {
    if a in s.operations && s.operations[a] in f then f[s.operations[a]] else map[]
  }

  /** Inside the transaction every table of the dataset is found empty, but for
      metadata, the attempt's own stages, and tables made since it was built. */
  ghost predicate CommitSucceeds(f: Files, s: State, a: nat) {
    && Empty(s.tables)
    && (a in s.listed ==> forall other | other in s.listed[a] :: other in s.stages && s.stages[other] == [])
    && (forall t | t in FilesOf(f, s, a) :: Stage(a, t) in s.stages)
  }

  ghost predicate Enabled(f: Files, s: State, e: Step) {
    match e
    case Inspect(a, operation) => a !in s.operations && operation in f && operation !in s.receipts
    case ConfirmIdle(a) =>
      a in s.clients && s.clients[a].Inspected? && a in s.operations
      && forall job | job in s.pending && job.attempt in s.operations :: s.operations[job.attempt] != s.operations[a]
    case CreateStage(a, t) =>
      a in s.clients && s.clients[a].Preparing? && t !in s.clients[a].staged && t in FilesOf(f, s, a)
    case SubmitLoad(a, t) => PhaseIs(s, a, t, Created)
    case ObserveLoad(a, t) => PhaseIs(s, a, t, Loading) && Load(a, t) in s.succeeded
    case SubmitCommit(a) =>
      a in s.clients && s.clients[a].Preparing? && Commit(a) !in s.pending + s.succeeded
      && forall t | t in FilesOf(f, s, a) :: PhaseIs(s, a, t, Loaded)
    case GiveUp(a) => a in s.clients
    case RunLoad(a, t) => Load(a, t) in s.pending && Stage(a, t) in s.stages && t in FilesOf(f, s, a)
    case RunCommit(a) => Commit(a) in s.pending && a in s.operations && CommitSucceeds(f, s, a)
    case FailJob(job) => job in s.pending
    case DeleteStage(stage) => stage in s.stages
  }

  function SetPhase(s: State, a: nat, t: Name, p: Phase): State
    requires a in s.clients && s.clients[a].Preparing?
  {
    s.(clients := s.clients[a := Preparing(s.clients[a].staged[t := p])])
  }

  /** INSERT INTO every destination SELECT FROM its stage. */
  ghost function Inserted(f: Files, s: State, a: nat): Tables
    requires CommitSucceeds(f, s, a)
  {
    map t | t in s.tables.Keys + FilesOf(f, s, a).Keys ::
      RowsIn(s.tables, t) + if t in FilesOf(f, s, a) then s.stages[Stage(a, t)] else []
  }

  ghost function Next(f: Files, s: State, e: Step): State
    requires Enabled(f, s, e)
  {
    match e
    case Inspect(a, operation) =>
      s.(clients := s.clients[a := Inspected], operations := s.operations[a := operation])
    case ConfirmIdle(a) => s.(clients := s.clients[a := Preparing(map[])])
    case CreateStage(a, t) => SetPhase(s, a, t, Created).(stages := s.stages[Stage(a, t) := []])
    case SubmitLoad(a, t) => SetPhase(s, a, t, Loading).(pending := s.pending + {Load(a, t)})
    case ObserveLoad(a, t) => SetPhase(s, a, t, Loaded)
    case SubmitCommit(a) =>
      s.(pending := s.pending + {Commit(a)},
         listed := s.listed[a := set stage | stage in s.stages && stage.attempt != a])
    case GiveUp(a) => s.(clients := s.clients - {a})
    case RunLoad(a, t) =>
      s.(stages := s.stages[Stage(a, t) := s.stages[Stage(a, t)] + FilesOf(f, s, a)[t]],
         pending := s.pending - {Load(a, t)}, succeeded := s.succeeded + {Load(a, t)})
    case RunCommit(a) =>
      s.(tables := Inserted(f, s, a), receipts := s.receipts + [s.operations[a]],
         pending := s.pending - {Commit(a)}, succeeded := s.succeeded + {Commit(a)})
    case FailJob(job) => s.(pending := s.pending - {job})
    case DeleteStage(stage) => s.(stages := s.stages - {stage})
  }

  // ----- invariant -----

  /** A stage holds its file's rows once its one load succeeded, and none before. */
  predicate StageFaithful(f: Files, s: State, stage: Stage)
    requires stage in s.stages
  {
    && stage.table in FilesOf(f, s, stage.attempt)
    && s.stages[stage] ==
         if Load(stage.attempt, stage.table) in s.succeeded then FilesOf(f, s, stage.attempt)[stage.table] else []
  }

  ghost predicate StagesFaithful(f: Files, s: State) {
    forall stage | stage in s.stages :: StageFaithful(f, s, stage)
  }

  /** Jobs settle once, belong to known attempts, and a load is submitted only for
      a stage its client has created. */
  ghost predicate JobsOnce(f: Files, s: State) {
    && s.pending !! s.succeeded
    && (forall job | job in s.pending + s.succeeded :: job.attempt in s.operations)
    && (forall a | a in s.clients :: a in s.operations)
    && (forall a, t | a in s.clients && Load(a, t) in s.pending + s.succeeded ::
          PhaseIs(s, a, t, Loading) || PhaseIs(s, a, t, Loaded))
    && (forall a | a in s.operations :: s.operations[a] in f)
  }

  /** A commit is submitted only after every load of its attempt succeeded. */
  ghost predicate CommitsReady(f: Files, s: State) {
    && (forall a, t | PhaseIs(s, a, t, Loaded) :: Load(a, t) in s.succeeded)
    && (forall a, t | Commit(a) in s.pending && t in FilesOf(f, s, a) :: Load(a, t) in s.succeeded)
  }

  function Visible(tables: Tables): Tables {
    map t | t in tables && tables[t] != [] :: tables[t]
  }

  /** Nothing is visible unless one receipted operation put exactly its files
      there; every other receipt belongs to a snapshot without rows. */
  ghost predicate Exact(f: Files, s: State) {
    && (forall o | o in s.receipts :: o in f)
    && (|| (Visible(s.tables) == map[] && forall o | o in s.receipts :: Visible(f[o]) == map[])
        || exists k: nat :: RestoredBy(f, s, k))
  }

  ghost predicate RestoredBy(f: Files, s: State, k: nat)
    requires forall o | o in s.receipts :: o in f
  {
    && k < |s.receipts|
    && Visible(s.tables) == Visible(f[s.receipts[k]])
    && forall i | 0 <= i < |s.receipts| && i != k :: Visible(f[s.receipts[i]]) == map[]
  }

  ghost predicate Inv(f: Files, s: State) {
    StagesFaithful(f, s) && JobsOnce(f, s) && CommitsReady(f, s) && Exact(f, s)
  }

  // ----- steps keep the invariant -----

  lemma OperationsPersist(f: Files, s: State, e: Step, a: nat)
    requires Enabled(f, s, e) && a in s.operations
    ensures FilesOf(f, Next(f, s, e), a) == FilesOf(f, s, a)
  {
  }

  lemma StepKeepsLoadsOnce(f: Files, s: State, e: Step, a: nat, t: Name)
    requires Enabled(f, s, e) && JobsOnce(f, s)
    requires a in Next(f, s, e).clients && Load(a, t) in Next(f, s, e).pending + Next(f, s, e).succeeded
    ensures PhaseIs(Next(f, s, e), a, t, Loading) || PhaseIs(Next(f, s, e), a, t, Loaded)
  {
    if a in s.clients && Load(a, t) in s.pending + s.succeeded {
      assert PhaseIs(s, a, t, Loading) || PhaseIs(s, a, t, Loaded);
    }
  }

  lemma StepKeepsJobsOnce(f: Files, s: State, e: Step)
    requires Enabled(f, s, e) && JobsOnce(f, s)
    ensures JobsOnce(f, Next(f, s, e))
  {
    var n := Next(f, s, e);
    forall a, t | a in n.clients && Load(a, t) in n.pending + n.succeeded
      ensures PhaseIs(n, a, t, Loading) || PhaseIs(n, a, t, Loaded)
    {
      StepKeepsLoadsOnce(f, s, e, a, t);
    }
  }

  lemma StepKeepsStagesFaithful(f: Files, s: State, e: Step)
    requires Enabled(f, s, e) && JobsOnce(f, s) && StagesFaithful(f, s)
    ensures StagesFaithful(f, Next(f, s, e))
  {
    var n := Next(f, s, e);
    forall stage | stage in n.stages
      ensures StageFaithful(f, n, stage)
    {
      if stage in s.stages {
        assert StageFaithful(f, s, stage);
        OperationsPersist(f, s, e, stage.attempt);
      }
    }
  }

  lemma StepKeepsLoadedDone(f: Files, s: State, e: Step, a: nat, t: Name)
    requires Enabled(f, s, e) && CommitsReady(f, s)
    requires PhaseIs(Next(f, s, e), a, t, Loaded)
    ensures Load(a, t) in Next(f, s, e).succeeded
  {
    if PhaseIs(s, a, t, Loaded) {
      assert Load(a, t) in s.succeeded;
    }
  }

  lemma StepKeepsCommitsReady(f: Files, s: State, e: Step)
    requires Enabled(f, s, e) && JobsOnce(f, s) && CommitsReady(f, s)
    ensures CommitsReady(f, Next(f, s, e))
  {
    var n := Next(f, s, e);
    forall a, t | PhaseIs(n, a, t, Loaded) ensures Load(a, t) in n.succeeded {
      StepKeepsLoadedDone(f, s, e, a, t);
    }
    forall a, t | Commit(a) in n.pending && t in FilesOf(f, n, a) ensures Load(a, t) in n.succeeded {
      OperationsPersist(f, s, e, a);
      assert Commit(a) in s.pending || PhaseIs(s, a, t, Loaded);
    }
  }

  lemma SameVisible(a: Tables, b: Tables)
    ensures Visible(a) == Visible(b) <==> forall t: Name :: RowsIn(a, t) == RowsIn(b, t)
  {
    if Visible(a) == Visible(b) {
      forall t: Name ensures RowsIn(a, t) == RowsIn(b, t) {
        assert t in Visible(a) <==> t in Visible(b);
      }
    }
    if forall t: Name :: RowsIn(a, t) == RowsIn(b, t) {
      forall t: Name ensures (t in Visible(a) <==> t in Visible(b)) && (t in Visible(a) ==> a[t] == b[t]) {
        assert RowsIn(a, t) == RowsIn(b, t);
      }
    }
  }

  lemma CommitInsertsFile(f: Files, s: State, a: nat, t: Name)
    requires StagesFaithful(f, s) && CommitsReady(f, s) && Enabled(f, s, RunCommit(a))
    ensures RowsIn(Inserted(f, s, a), t) == RowsIn(FilesOf(f, s, a), t)
  {
    assert RowsIn(s.tables, t) == [];
    if t in FilesOf(f, s, a) {
      assert StageFaithful(f, s, Stage(a, t)) && Load(a, t) in s.succeeded;
    }
  }

  /** The one step that writes: into an empty dataset, exactly the snapshot. */
  lemma CommitInsertsSnapshot(f: Files, s: State, a: nat)
    requires Inv(f, s) && Enabled(f, s, RunCommit(a))
    ensures Visible(Inserted(f, s, a)) == Visible(f[s.operations[a]])
  {
    forall t: Name ensures RowsIn(Inserted(f, s, a), t) == RowsIn(FilesOf(f, s, a), t) {
      CommitInsertsFile(f, s, a, t);
    }
    SameVisible(Inserted(f, s, a), FilesOf(f, s, a));
  }

  lemma EmptyTablesMeanEmptySnapshots(f: Files, s: State)
    requires Exact(f, s) && Empty(s.tables)
    ensures forall o | o in s.receipts :: Visible(f[o]) == map[]
  {
    assert Visible(s.tables) == map[];
    if k: nat :| RestoredBy(f, s, k) {
      forall o | o in s.receipts ensures Visible(f[o]) == map[] {
        var i :| 0 <= i < |s.receipts| && s.receipts[i] == o;
      }
    }
  }

  lemma CommitKeepsExact(f: Files, s: State, a: nat)
    requires Inv(f, s) && Enabled(f, s, RunCommit(a))
    ensures Exact(f, Next(f, s, RunCommit(a)))
  {
    var n := Next(f, s, RunCommit(a));
    CommitInsertsSnapshot(f, s, a);
    EmptyTablesMeanEmptySnapshots(f, s);
    var k := |s.receipts|;
    assert n.receipts == s.receipts + [s.operations[a]];
    forall o | o in n.receipts ensures o in f {
    }
    forall i | 0 <= i < |n.receipts| && i != k ensures Visible(f[n.receipts[i]]) == map[] {
      assert n.receipts[i] == s.receipts[i];
    }
    assert RestoredBy(f, n, k);
  }

  lemma StepKeepsExact(f: Files, s: State, e: Step)
    requires Inv(f, s) && Enabled(f, s, e)
    ensures Exact(f, Next(f, s, e))
  {
    var n := Next(f, s, e);
    if e.RunCommit? {
      CommitKeepsExact(f, s, e.a);
    } else {
      assert n.tables == s.tables && n.receipts == s.receipts;
      if k: nat :| RestoredBy(f, s, k) {
        assert RestoredBy(f, n, k);
      }
    }
  }

  lemma StepKeepsInv(f: Files, s: State, e: Step)
    requires Inv(f, s) && Enabled(f, s, e)
    ensures Inv(f, Next(f, s, e))
  {
    StepKeepsJobsOnce(f, s, e);
    StepKeepsStagesFaithful(f, s, e);
    StepKeepsCommitsReady(f, s, e);
    StepKeepsExact(f, s, e);
  }

  // ----- runs -----

  ghost predicate Run(f: Files, states: seq<State>, steps: seq<Step>) {
    && |states| == |steps| + 1
    && Initial(states[0])
    && forall i | 0 <= i < |steps| :: Enabled(f, states[i], steps[i]) && states[i + 1] == Next(f, states[i], steps[i])
  }

  lemma {:induction false} RunKeepsInv(f: Files, states: seq<State>, steps: seq<Step>, i: nat)
    requires Run(f, states, steps) && i < |states|
    ensures Inv(f, states[i])
  {
    if i > 0 {
      RunKeepsInv(f, states, steps, i - 1);
      StepKeepsInv(f, states[i - 1], steps[i - 1]);
    }
  }

  /** Before an operation whose snapshot has rows is receipted none of its rows is
      there (nor any other); once it is, exactly its rows are, and its receipt is
      the only one of any snapshot with rows. */
  lemma RestoreIsExact(f: Files, states: seq<State>, steps: seq<Step>, i: nat)
    requires Run(f, states, steps) && i < |states|
    ensures var s := states[i];
      && (forall o | o in s.receipts :: o in f)
      && ((forall o | o in s.receipts :: Visible(f[o]) == map[]) ==> Visible(s.tables) == map[])
      && (forall o | o in s.receipts && Visible(f[o]) != map[] :: Visible(s.tables) == Visible(f[o]))
      && (forall j, k | 0 <= j < k < |s.receipts| ::
            Visible(f[s.receipts[j]]) == map[] || Visible(f[s.receipts[k]]) == map[])
  {
    RunKeepsInv(f, states, steps, i);
    var s := states[i];
    if k: nat :| RestoredBy(f, s, k) {
      forall o | o in s.receipts && Visible(f[o]) != map[] ensures Visible(s.tables) == Visible(f[o]) {
        var j :| 0 <= j < |s.receipts| && s.receipts[j] == o;
      }
      assert s.receipts[k] in s.receipts;
    }
  }

  /** No attempt, whatever becomes of it, changes what a restored snapshot with
      rows has put in place, nor receipts it again. */
  lemma {:induction false} RestoredStaysRestored(f: Files, states: seq<State>, steps: seq<Step>, i: nat, j: nat, o: Operation)
    requires Run(f, states, steps) && i <= j < |states|
    requires o in states[i].receipts && o in f && Visible(f[o]) != map[]
    ensures states[j].tables == states[i].tables && states[j].receipts == states[i].receipts
    decreases j
  {
    if i < j {
      RestoredStaysRestored(f, states, steps, i, j - 1, o);
      RestoreIsExact(f, states, steps, j - 1);
      RowsBlockCommits(f, states[j - 1], steps[j - 1], o);
    }
  }

  /** With rows in place every later commit fails its emptiness assertion; only
      snapshots without rows can be receipted a second time. */
  lemma RowsBlockCommits(f: Files, s: State, e: Step, o: Operation)
    requires Enabled(f, s, e)
    requires o in f && Visible(f[o]) != map[] && Visible(s.tables) == Visible(f[o])
    ensures Next(f, s, e).tables == s.tables && Next(f, s, e).receipts == s.receipts
  {
    var t :| t in Visible(s.tables);
    assert t in s.tables && s.tables[t] != [];
  }

  // ----- the answer "not committed" -----

  /** `e` commits operation `o`. */
  ghost predicate CommitsFor(s: State, e: Step, o: Operation) {
    e.RunCommit? && e.a in s.operations && s.operations[e.a] == o
  }

  lemma StepReceipts(f: Files, s: State, e: Step, o: Operation)
    requires Enabled(f, s, e)
    ensures o in Next(f, s, e).receipts <==> o in s.receipts || CommitsFor(s, e, o)
  {
  }

  /** Step by step, `o` is receipted only by a commit of its own. */
  ghost predicate ReceiptedByCommits(states: seq<State>, steps: seq<Step>, o: Operation) {
    && |states| == |steps| + 1
    && forall k | 0 <= k < |steps| :: o in states[k + 1].receipts <==> o in states[k].receipts || CommitsFor(states[k], steps[k], o)
  }

  lemma RunReceipts(f: Files, states: seq<State>, steps: seq<Step>, o: Operation)
    requires Run(f, states, steps)
    ensures ReceiptedByCommits(states, steps, o)
  {
    forall k | 0 <= k < |steps|
      ensures o in states[k + 1].receipts <==> o in states[k].receipts || CommitsFor(states[k], steps[k], o)
    {
      StepReceipts(f, states[k], steps[k], o);
    }
  }

  lemma {:induction false} ReceiptedSince(states: seq<State>, steps: seq<Step>, i: nat, j: nat, o: Operation)
    requires ReceiptedByCommits(states, steps, o) && i <= j < |states|
    requires o !in states[i].receipts
    ensures o in states[j].receipts <==> exists k | i <= k < j :: CommitsFor(states[k], steps[k], o)
    decreases j
  {
    if i < j {
      ReceiptedSince(states, steps, i, j - 1, o);
      assert o in states[j - 1 + 1].receipts <==> o in states[j - 1].receipts || CommitsFor(states[j - 1], steps[j - 1], o);
    }
  }

  /** The receipt is read before the active jobs are listed: what an attempt that saw
      neither takes for granted is spoiled by nothing but a commit in between. */
  lemma NegativeAnswerIsRightExactly(f: Files, states: seq<State>, steps: seq<Step>, i: nat, j: nat, a: nat, o: Operation)
    requires Run(f, states, steps) && i < j < |steps|
    requires steps[i] == Inspect(a, o) && steps[j] == ConfirmIdle(a)
    ensures o !in states[j].receipts <==> forall k | i < k < j :: !CommitsFor(states[k], steps[k], o)
  {
    assert Enabled(f, states[i], steps[i]);
    RunReceipts(f, states, steps, o);
    ReceiptedSince(states, steps, i, j, o);
  }

  /** No commit of `o` is pending. */
  ghost predicate Quiet(s: State, o: Operation) {
    forall a | Commit(a) in s.pending && a in s.operations :: s.operations[a] != o
  }

  lemma {:induction false} QuietPersists(f: Files, states: seq<State>, steps: seq<Step>, i: nat, j: nat, o: Operation)
    requires Run(f, states, steps) && i <= j < |states|
    requires Quiet(states[i], o)
    requires forall k | i <= k < j && steps[k].SubmitCommit? && steps[k].a in states[k].operations ::
      states[k].operations[steps[k].a] != o
    ensures forall k | i <= k <= j :: Quiet(states[k], o)
    decreases j
  {
    if i < j {
      QuietPersists(f, states, steps, i, j - 1, o);
      RunKeepsInv(f, states, steps, j - 1);
      var s, e := states[j - 1], steps[j - 1];
      assert states[j - 1 + 1] == Next(f, s, e);
      forall a | Commit(a) in Next(f, s, e).pending && a in Next(f, s, e).operations
        ensures Next(f, s, e).operations[a] != o
      {
        assert e == SubmitCommit(a) || Commit(a) in s.pending;
      }
    }
  }

  /** So it is right whenever no commit of the operation was pending when the receipt
      was read, and none is submitted before the list. */
  lemma NegativeAnswerIsRightWhenQuiet(f: Files, states: seq<State>, steps: seq<Step>, i: nat, j: nat, a: nat, o: Operation)
    requires Run(f, states, steps) && i < j < |steps|
    requires steps[i] == Inspect(a, o) && steps[j] == ConfirmIdle(a)
    requires Quiet(states[i], o)
    requires forall k | i <= k < j && steps[k].SubmitCommit? && steps[k].a in states[k].operations ::
      states[k].operations[steps[k].a] != o
    ensures o !in states[j].receipts
  {
    QuietPersists(f, states, steps, i, j, o);
    NegativeAnswerIsRightExactly(f, states, steps, i, j, a, o);
    forall k | i < k < j ensures !CommitsFor(states[k], steps[k], o) {
      assert Enabled(f, states[k], steps[k]) && Quiet(states[k], o);
    }
  }

  // ----- what the first look can tell -----

  /** The stage has been created, so it never is again: its client is gone or knows it. */
  predicate KnownStage(s: State, stage: Stage) {
    && stage.attempt in s.operations
    && (stage.attempt in s.clients ==>
          s.clients[stage.attempt].Preparing? && stage.table in s.clients[stage.attempt].staged)
  }

  /** So have been the stages there are, those a commit asserts empty, and those it
      reads. */
  ghost predicate StagesKnown(f: Files, s: State) {
    && (forall stage | stage in s.stages :: KnownStage(s, stage))
    && (forall b, stage | b in s.listed && stage in s.listed[b] :: KnownStage(s, stage))
    && (forall b, t | Commit(b) in s.pending && t in FilesOf(f, s, b) :: KnownStage(s, Stage(b, t)))
  }

  lemma CreatedForGood(f: Files, s: State, e: Step, stage: Stage)
    requires Enabled(f, s, e) && KnownStage(s, stage)
    ensures KnownStage(Next(f, s, e), stage)
    ensures stage in Next(f, s, e).stages ==> stage in s.stages
  {
  }

  lemma StepKeepsStagesKnown(f: Files, s: State, e: Step)
    requires Enabled(f, s, e) && JobsOnce(f, s) && StagesKnown(f, s)
    ensures StagesKnown(f, Next(f, s, e))
  {
    var n := Next(f, s, e);
    forall stage | stage in n.stages ensures KnownStage(n, stage) {
      if stage in s.stages {
        CreatedForGood(f, s, e, stage);
      }
    }
    forall b, stage | b in n.listed && stage in n.listed[b] ensures KnownStage(n, stage) {
      assert stage in s.stages || (b in s.listed && stage in s.listed[b]);
      CreatedForGood(f, s, e, stage);
    }
    forall b, t | Commit(b) in n.pending && t in FilesOf(f, n, b) ensures KnownStage(n, Stage(b, t)) {
      OperationsPersist(f, s, e, b);
      assert Commit(b) in s.pending || PhaseIs(s, b, t, Loaded);
      CreatedForGood(f, s, e, Stage(b, t));
    }
  }

  /** A pending commit that would fail keeps failing: rows stay, and stages that are
      gone or filled are not empty again. */
  lemma FailsForGood(f: Files, s: State, e: Step, b: nat)
    requires Enabled(f, s, e) && JobsOnce(f, s) && StagesKnown(f, s)
    requires Commit(b) in s.pending && !CommitSucceeds(f, s, b)
    ensures !CommitSucceeds(f, Next(f, s, e), b)
  {
    var n := Next(f, s, e);
    OperationsPersist(f, s, e, b);
    if !Empty(s.tables) {
      assert n.tables == s.tables;
    } else if t :| t in FilesOf(f, s, b) && Stage(b, t) !in s.stages {
      CreatedForGood(f, s, e, Stage(b, t));
    } else {
      var other :| other in s.listed[b] && !(other in s.stages && s.stages[other] == []);
      CreatedForGood(f, s, e, other);
      assert n.listed[b] == s.listed[b];
      assert !(other in n.stages && n.stages[other] == []);
    }
  }

  /** Steps from any state on. */
  ghost predicate Goes(f: Files, states: seq<State>, steps: seq<Step>) {
    && |states| == |steps| + 1
    && forall i | 0 <= i < |steps| :: Enabled(f, states[i], steps[i]) && states[i + 1] == Next(f, states[i], steps[i])
  }

  ghost predicate Steady(f: Files, s: State) {
    Inv(f, s) && StagesKnown(f, s)
  }

  lemma {:induction false} GoingKeepsSteady(f: Files, states: seq<State>, steps: seq<Step>, i: nat)
    requires Goes(f, states, steps) && Steady(f, states[0]) && i < |states|
    ensures Steady(f, states[i])
  {
    if i > 0 {
      GoingKeepsSteady(f, states, steps, i - 1);
      StepKeepsInv(f, states[i - 1], steps[i - 1]);
      StepKeepsStagesKnown(f, states[i - 1], steps[i - 1]);
    }
  }

  lemma RunsAreSteady(f: Files, states: seq<State>, steps: seq<Step>, i: nat)
    requires Run(f, states, steps) && i < |states|
    ensures Steady(f, states[i])
  {
    RunKeepsInv(f, states, steps, 0);
    GoingKeepsSteady(f, states, steps, i);
  }

  /** A commit of `o` that is pending and, run now, would succeed. */
  ghost predicate MayCommit(f: Files, s: State, o: Operation, b: nat) {
    Commit(b) in s.pending && b in s.operations && s.operations[b] == o && CommitSucceeds(f, s, b)
  }

  /** Step `k` submits no commit of `o`. */
  ghost predicate SubmitsNoCommit(s: State, e: Step, o: Operation) {
    e.SubmitCommit? && e.a in s.operations ==> s.operations[e.a] != o
  }

  lemma CouldAlreadyCommit(f: Files, s: State, e: Step, o: Operation, b: nat)
    requires Steady(f, s) && Enabled(f, s, e) && SubmitsNoCommit(s, e, o)
    requires MayCommit(f, Next(f, s, e), o, b)
    ensures MayCommit(f, s, o, b)
  {
    assert Commit(b) in s.pending;
    OperationsPersist(f, s, e, b);
    if !CommitSucceeds(f, s, b) {
      FailsForGood(f, s, e, b);
    }
  }

  lemma {:induction false} CouldFromTheStart(f: Files, states: seq<State>, steps: seq<Step>, o: Operation, b: nat, k: nat)
    requires Goes(f, states, steps) && Steady(f, states[0]) && k < |states|
    requires forall j | 0 <= j < |steps| :: SubmitsNoCommit(states[j], steps[j], o)
    requires MayCommit(f, states[k], o, b)
    ensures MayCommit(f, states[0], o, b)
  {
    if k > 0 {
      GoingKeepsSteady(f, states, steps, k - 1);
      assert states[k - 1 + 1] == Next(f, states[k - 1], steps[k - 1]);
      CouldAlreadyCommit(f, states[k - 1], steps[k - 1], o, b);
      CouldFromTheStart(f, states, steps, o, b, k - 1);
    }
  }

  /** From `s` on attempt `a` reads no receipt of `o`, then sees no active job of it, and
      yet the receipt is there; in between no commit of `o` is submitted. */
  ghost predicate WronglyNegative(f: Files, s: State, a: nat, o: Operation, states: seq<State>, steps: seq<Step>) {
    && Goes(f, states, steps) && states[0] == s && |steps| > 1
    && steps[0] == Inspect(a, o) && steps[|steps| - 1] == ConfirmIdle(a)
    && (forall k | 0 <= k < |steps| :: SubmitsNoCommit(states[k], steps[k], o))
    && o in states[|steps| - 1].receipts
  }

  lemma WrongAnswerNeedsCommit(f: Files, s: State, a: nat, o: Operation, states: seq<State>, steps: seq<Step>) returns (b: nat)
    requires Steady(f, s) && WronglyNegative(f, s, a, o, states, steps)
    ensures MayCommit(f, s, o, b)
  {
    assert Enabled(f, states[0], steps[0]);
    forall k | 0 <= k < |steps|
      ensures o in states[k + 1].receipts <==> o in states[k].receipts || CommitsFor(states[k], steps[k], o)
    {
      StepReceipts(f, states[k], steps[k], o);
    }
    ReceiptedSince(states, steps, 0, |steps| - 1, o);
    var k :| 0 <= k < |steps| - 1 && CommitsFor(states[k], steps[k], o);
    b := steps[k].a;
    assert Enabled(f, states[k], steps[k]);
    CouldFromTheStart(f, states, steps, o, b, k);
  }

  function JobsOf(s: State, o: Operation): set<Job> {
    set job | job in s.pending && job.attempt in s.operations && s.operations[job.attempt] == o
  }

  lemma GoesFirst(f: Files, s: State, e: Step, states: seq<State>, steps: seq<Step>)
    requires Goes(f, states, steps) && Enabled(f, s, e) && Next(f, s, e) == states[0]
    ensures Goes(f, [s] + states, [e] + steps)
  {
    var more := [s] + states;
    forall i | 0 <= i < |steps| + 1
      ensures Enabled(f, more[i], ([e] + steps)[i]) && more[i + 1] == Next(f, more[i], ([e] + steps)[i])
    {
      if i > 0 {
        assert more[i] == states[i - 1] && ([e] + steps)[i] == steps[i - 1] && more[i + 1] == states[i - 1 + 1];
      }
    }
  }

  ghost predicate NoCommits(steps: seq<Step>) {
    forall k | 0 <= k < |steps| :: !steps[k].SubmitCommit?
  }

  /** All jobs of `o` fail, then the attempt sees none active. */
  lemma {:induction false} JobsFail(f: Files, s: State, a: nat, o: Operation) returns (states: seq<State>, steps: seq<Step>)
    requires a in s.clients && s.clients[a].Inspected? && a in s.operations && s.operations[a] == o
    ensures Goes(f, states, steps) && states[0] == s && |steps| > 0 && steps[|steps| - 1] == ConfirmIdle(a)
    ensures NoCommits(steps) && states[|steps| - 1].receipts == s.receipts
    decreases JobsOf(s, o)
  {
    if JobsOf(s, o) == {} {
      forall job | job in s.pending && job.attempt in s.operations ensures s.operations[job.attempt] != o {
        assert job !in JobsOf(s, o);
      }
      states, steps := [s, Next(f, s, ConfirmIdle(a))], [ConfirmIdle(a)];
    } else {
      var job :| job in JobsOf(s, o);
      var n := Next(f, s, FailJob(job));
      assert JobsOf(n, o) == JobsOf(s, o) - {job};
      states, steps := JobsFail(f, n, a, o);
      GoesFirst(f, s, FailJob(job), states, steps);
      states, steps := [s] + states, [FailJob(job)] + steps;
    }
  }

  lemma CommitAfterInspection(f: Files, s: State, a: nat, o: Operation, b: nat) returns (s1: State, s2: State)
    requires Steady(f, s) && Enabled(f, s, Inspect(a, o)) && MayCommit(f, s, o, b)
    ensures s1 == Next(f, s, Inspect(a, o)) && Enabled(f, s1, RunCommit(b)) && s2 == Next(f, s1, RunCommit(b))
    ensures a in s2.clients && s2.clients[a].Inspected? && a in s2.operations && s2.operations[a] == o
    ensures o in s2.receipts
  {
    s1 := Next(f, s, Inspect(a, o));
    assert FilesOf(f, s1, b) == FilesOf(f, s, b);
    s2 := Next(f, s1, RunCommit(b));
    assert s2.receipts[|s.receipts|] == o;
  }

  lemma CommitMakesAnswerWrong(f: Files, s: State, a: nat, o: Operation, b: nat) returns (states: seq<State>, steps: seq<Step>)
    requires Steady(f, s) && Enabled(f, s, Inspect(a, o)) && MayCommit(f, s, o, b)
    ensures WronglyNegative(f, s, a, o, states, steps)
  {
    var s1, s2 := CommitAfterInspection(f, s, a, o, b);
    var rest, failing := JobsFail(f, s2, a, o);
    GoesFirst(f, s1, RunCommit(b), rest, failing);
    GoesFirst(f, s, Inspect(a, o), [s1] + rest, [RunCommit(b)] + failing);
    states, steps := [s] + ([s1] + rest), [Inspect(a, o)] + ([RunCommit(b)] + failing);
    LastOfLonger(s, s1, rest);
    assert NoCommits(steps);
  }

  lemma LastOfLonger(s: State, s1: State, rest: seq<State>)
    requires |rest| > 1
    ensures ([s] + ([s1] + rest))[|rest|] == rest[|rest| - 2]
  {
  }

  /** In every reachable state in which an attempt reads no receipt: if no further
      commit of the operation is submitted before the list, its negative answer can
      turn out wrong if and only if a pending commit of the operation would succeed. */
  lemma NegativeAnswerCanBeWrongExactly(f: Files, states: seq<State>, steps: seq<Step>, i: nat, a: nat, o: Operation)
    requires Run(f, states, steps) && i < |states| && Enabled(f, states[i], Inspect(a, o))
    ensures (exists later, moves :: WronglyNegative(f, states[i], a, o, later, moves)) <==> exists b :: MayCommit(f, states[i], o, b)
  {
    RunsAreSteady(f, states, steps, i);
    if later, moves :| WronglyNegative(f, states[i], a, o, later, moves) {
      var b := WrongAnswerNeedsCommit(f, states[i], a, o, later, moves);
    }
    if b :| MayCommit(f, states[i], o, b) {
      var later, moves := CommitMakesAnswerWrong(f, states[i], a, o, b);
    }
  }

  /** The steps of two attempts at one snapshot without rows: the first commits
      between the second's two inspections. */
  const LATE_COMMIT: seq<Step> := [
    Inspect(0, "o"), ConfirmIdle(0), SubmitCommit(0), Inspect(1, "o"), RunCommit(0),
    ConfirmIdle(1), SubmitCommit(1), RunCommit(1)]

  /** The state after rows-free steps: no tables, stages or clients' stages. */
  function Rowless(
    receipts: seq<Operation>, pending: set<Job>, succeeded: set<Job>, operations: map<nat, Operation>,
    clients: map<nat, Client>, listed: map<nat, set<Stage>>): State
  {
    State(map[], receipts, map[], pending, succeeded, operations, clients, listed)
  }

  ghost predicate Leads(f: Files, s: State, e: Step, n: State) {
    Enabled(f, s, e) && n == Next(f, s, e)
  }

  const NO_ROWS: Files := map["o" := map[]]

  lemma FirstInspects(s0: State, s1: State, s2: State)
    requires s0 == Rowless([], {}, {}, map[], map[], map[])
    requires s1 == Rowless([], {}, {}, map[0 := "o"], map[0 := Inspected], map[])
    requires s2 == Rowless([], {}, {}, map[0 := "o"], map[0 := Preparing(map[])], map[])
    ensures Initial(s0) && Leads(NO_ROWS, s0, Inspect(0, "o"), s1) && Leads(NO_ROWS, s1, ConfirmIdle(0), s2)
  {
  }

  lemma LeadsMakeRun(f: Files, states: seq<State>, steps: seq<Step>)
    requires |states| == |steps| + 1 && Initial(states[0])
    requires forall i | 0 <= i < |steps| :: Leads(f, states[i], steps[i], states[i + 1])
    ensures Run(f, states, steps)
  {
    forall i | 0 <= i < |steps| ensures Enabled(f, states[i], steps[i]) && states[i + 1] == Next(f, states[i], steps[i]) {
      assert Leads(f, states[i], steps[i], states[i + 1]);
    }
  }

  lemma FirstCommits(s2: State, s3: State, s4: State, s5: State)
    requires s2 == Rowless([], {}, {}, map[0 := "o"], map[0 := Preparing(map[])], map[])
    requires s3 == Rowless([], {Commit(0)}, {}, map[0 := "o"], map[0 := Preparing(map[])], map[0 := {}])
    requires s4 == s3.(operations := s3.operations[1 := "o"], clients := s3.clients[1 := Inspected])
    requires s5 == s4.(receipts := ["o"], pending := {}, succeeded := {Commit(0)})
    ensures Leads(NO_ROWS, s2, SubmitCommit(0), s3) && Leads(NO_ROWS, s3, Inspect(1, "o"), s4)
    ensures Leads(NO_ROWS, s4, RunCommit(0), s5)
  {
    assert FilesOf(NO_ROWS, s2, 0) == map[] && FilesOf(NO_ROWS, s4, 0) == map[];
    assert (set stage | stage in s2.stages && stage.attempt != 0) == {};
  }

  lemma SecondCommits(s5: State, s6: State, s7: State, s8: State)
    requires s5.tables == map[] && s5.stages == map[] && s5.receipts == ["o"]
    requires s5.pending == {} && s5.succeeded == {Commit(0)} && 1 in s5.clients && s5.clients[1] == Inspected
    requires 1 in s5.operations && s5.operations[1] == "o"
    requires s6 == s5.(clients := s5.clients[1 := Preparing(map[])])
    requires s7 == s6.(pending := {Commit(1)}, listed := s6.listed[1 := {}])
    requires s8 == s7.(receipts := ["o", "o"], pending := {}, succeeded := {Commit(0), Commit(1)})
    ensures Leads(NO_ROWS, s5, ConfirmIdle(1), s6) && Leads(NO_ROWS, s6, SubmitCommit(1), s7)
    ensures Leads(NO_ROWS, s7, RunCommit(1), s8)
  {
    assert FilesOf(NO_ROWS, s6, 1) == map[] && FilesOf(NO_ROWS, s7, 1) == map[];
    assert (set stage | stage in s6.stages && stage.attempt != 1) == {};
  }

  /** Then the second's answer is wrong, it goes on, and the snapshot is receipted
      twice. */
  lemma RowlessSnapshotReceiptedTwice() returns (states: seq<State>)
    ensures Run(NO_ROWS, states, LATE_COMMIT)
    ensures states[5].receipts == ["o"] && states[8].receipts == ["o", "o"]
  {
    var s0 := Rowless([], {}, {}, map[], map[], map[]);
    var s1 := Rowless([], {}, {}, map[0 := "o"], map[0 := Inspected], map[]);
    var s2 := Rowless([], {}, {}, map[0 := "o"], map[0 := Preparing(map[])], map[]);
    var s3 := Rowless([], {Commit(0)}, {}, map[0 := "o"], map[0 := Preparing(map[])], map[0 := {}]);
    var s4 := s3.(operations := s3.operations[1 := "o"], clients := s3.clients[1 := Inspected]);
    var s5 := s4.(receipts := ["o"], pending := {}, succeeded := {Commit(0)});
    var s6 := s5.(clients := s5.clients[1 := Preparing(map[])]);
    var s7 := s6.(pending := {Commit(1)}, listed := s6.listed[1 := {}]);
    var s8 := s7.(receipts := ["o", "o"], pending := {}, succeeded := {Commit(0), Commit(1)});
    FirstInspects(s0, s1, s2);
    FirstCommits(s2, s3, s4, s5);
    SecondCommits(s5, s6, s7, s8);
    states := [s0, s1, s2, s3, s4, s5, s6, s7, s8];
    LeadsMakeRun(NO_ROWS, states, LATE_COMMIT);
  }
}
