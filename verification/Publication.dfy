/** Publishing one run: a transaction per attempt on the upsert store, facts before
    ledger on the append-only one (src/usagebassoon/backends/base.py,
    `persist_batch`; src/usagebassoon/backends/bigquery.py, `persist_batch`;
    src/usagebassoon/persistence.py, `persist_with_retries`). */
module Publication {
  import opened Transactions

  type RunId = string

  datatype LedgerRow = LedgerRow(run: RunId, day: int, domain: string)

  /** One statement of a transaction: an upsert or an append to a fact table. */
  datatype Write = Write(table: string, rows: seq<string>)

  datatype Batch = Batch(run: RunId, writes: seq<Write>, ledger: seq<LedgerRow>)

  /** What a statement does to a fact table is not the point here: any effect. */
  type Facts = map<string, seq<string>>
  type Effect = (Facts, Write) -> Facts

  datatype Contents = Contents(facts: Facts, ledger: seq<LedgerRow>)

  predicate IsSummary(r: LedgerRow, run: RunId) {
    r.run == run && r.domain == "collection"
  }

  predicate Committed(c: Contents, run: RunId) {
    exists r | r in c.ledger :: IsSummary(r, run)
  }

  function WriteAll(effect: Effect, facts: Facts, writes: seq<Write>): Facts {
    if writes == [] then facts
    else effect(WriteAll(effect, facts, writes[..|writes| - 1]), writes[|writes| - 1])
  }

  function Applied(effect: Effect, c: Contents, b: Batch): Contents {
    Contents(WriteAll(effect, c.facts, b.writes), c.ledger + b.ledger)
  }

  /** The commit of an attempt that publishes: opening the store and looking for the
      run is statement 0, then come the writes and the ledger. */
  function CommitOf(b: Batch): nat {
    |b.writes| + 2
  }

  predicate Commits(b: Batch, fault: Fault) {
    fault.Breaks? ==> fault.at > CommitOf(b)
  }

  function Attempted(effect: Effect, c: Contents, b: Batch, fault: Fault): Contents {
    if Committed(c, b.run) || !Commits(b, fault) then c else Applied(effect, c, b)
  }

  class UpsertStore {
    var facts: Facts
    var ledger: seq<LedgerRow>

    constructor ()
      ensures Now() == Contents(map[], [])
    {
      facts, ledger := map[], [];
    }

    function Now(): Contents
      reads this
    {
      Contents(facts, ledger)
    }

    method HasCommittedRun(run: RunId) returns (found: bool)
      ensures found <==> exists r | r in ledger :: r.run == run && r.domain == "collection"
    {
      for i := 0 to |ledger|
        invariant forall j | 0 <= j < i :: !IsSummary(ledger[j], run)
      {
        if IsSummary(ledger[i], run) {
          return true;
        }
      }
      return false;
    }

    /** One attempt: all statements or none, and none if the run is there already.  A
        break in opening the store, in a statement or in the commit undoes everything.
        Success is reported exactly when nothing broke up to the commit, which is
        statement 1 of an attempt that finds the run there, and no acknowledgement
        was lost. */
    method PersistBatch(effect: Effect, b: Batch, fault: Fault) returns (reported: bool)
      modifies this
      ensures Now() == Attempted(effect, old(Now()), b, fault)
      ensures var already := exists r | r in old(ledger) :: r.run == b.run && r.domain == "collection";
        && (already ==> Now() == old(Now()))
        && (reported <==> fault == Clean || (fault.Breaks? && fault.at > if already then 1 else |b.writes| + 2))
        && (!already && (fault.Breaks? ==> reported) ==>
              facts == WriteAll(effect, old(facts), b.writes) && ledger == old(ledger) + b.ledger)
        && (fault.Breaks? && !reported ==> Now() == old(Now()))
    {
      if fault == Breaks(0) {
        return false;
      }
      var factsBefore, ledgerBefore := facts, ledger;
      var already := HasCommittedRun(b.run);
      if already {
        return fault != Breaks(1) && !fault.LosesAcknowledgement?;
      }
      for i := 0 to |b.writes|
        invariant facts == WriteAll(effect, factsBefore, b.writes[..i]) && ledger == ledgerBefore
        invariant fault.Breaks? ==> fault.at > i
      {
        if fault == Breaks(i + 1) {
          facts, ledger := factsBefore, ledgerBefore;
          return false;
        }
        assert b.writes[..i + 1][..i] == b.writes[..i];
        facts := effect(facts, b.writes[i]);
      }
      assert b.writes[..|b.writes|] == b.writes;
      ledger := ledger + b.ledger;
      if fault == Breaks(|b.writes| + 1) || fault == Breaks(CommitOf(b)) {
        facts, ledger := factsBefore, ledgerBefore;
        return false;
      }
      return !fault.LosesAcknowledgement?;
    }
  }

  // ----- exactly once -----

  datatype Attempt = Attempt(batch: Batch, fault: Fault)

  function AfterAttempts(effect: Effect, c: Contents, attempts: seq<Attempt>): Contents {
    if attempts == [] then c
    else
      var last := attempts[|attempts| - 1];
      Attempted(effect, AfterAttempts(effect, c, attempts[..|attempts| - 1]), last.batch, last.fault)
  }

  function Runs(batches: seq<Batch>): set<RunId> {
    set b | b in batches :: b.run
  }

  /** The first committing attempt of each run, in order. */
  function FirstCommits(attempts: seq<Attempt>): seq<Batch> {
    if attempts == [] then []
    else
      var earlier, last := FirstCommits(attempts[..|attempts| - 1]), attempts[|attempts| - 1];
      if Commits(last.batch, last.fault) && last.batch.run !in Runs(earlier)
      then earlier + [last.batch] else earlier
  }

  function ApplyAll(effect: Effect, c: Contents, batches: seq<Batch>): Contents {
    if batches == [] then c
    else Applied(effect, ApplyAll(effect, c, batches[..|batches| - 1]), batches[|batches| - 1])
  }

  /** The ledger of a batch names its own run only, and summarizes it. */
  predicate SelfSummarizing(b: Batch) {
    (forall r | r in b.ledger :: r.run == b.run) && exists r | r in b.ledger :: IsSummary(r, b.run)
  }

  lemma {:induction false} CommittedRunsAreSummarized(effect: Effect, batches: seq<Batch>, run: RunId)
    requires forall b | b in batches :: SelfSummarizing(b)
    ensures Committed(ApplyAll(effect, Contents(map[], []), batches), run) <==> run in Runs(batches)
  {
    if batches != [] {
      var init, last := batches[..|batches| - 1], batches[|batches| - 1];
      assert batches == init + [last];
      CommittedRunsAreSummarized(effect, init, run);
      assert last in batches;
      var before := ApplyAll(effect, Contents(map[], []), init);
      var after := Applied(effect, before, last);
      assert Committed(after, run) <==> Committed(before, run) || exists r | r in last.ledger :: IsSummary(r, run);
    }
  }

  lemma {:induction false} FirstCommitsAreAttempted(attempts: seq<Attempt>)
    ensures forall b | b in FirstCommits(attempts) :: exists a :: a in attempts && a.batch == b
  {
    if attempts != [] {
      var init, last := attempts[..|attempts| - 1], attempts[|attempts| - 1];
      assert attempts == init + [last];
      FirstCommitsAreAttempted(init);
      forall b | b in FirstCommits(attempts) ensures exists a :: a in attempts && a.batch == b {
        if b in FirstCommits(init) {
          var a :| a in init && a.batch == b;
          assert a in attempts;
        } else {
          assert last in attempts;
        }
      }
    }
  }

  /** Serial attempts of any runs, whatever each client was told, leave what
      applying the first committed attempt of every run once would leave. */
  lemma {:induction false} PublishedExactlyOnce(effect: Effect, attempts: seq<Attempt>)
    requires forall a | a in attempts :: SelfSummarizing(a.batch)
    ensures AfterAttempts(effect, Contents(map[], []), attempts)
         == ApplyAll(effect, Contents(map[], []), FirstCommits(attempts))
  {
    if attempts != [] {
      var init, last := attempts[..|attempts| - 1], attempts[|attempts| - 1];
      assert attempts == init + [last];
      PublishedExactlyOnce(effect, init);
      var earlier := FirstCommits(init);
      FirstCommitsAreAttempted(init);
      CommittedRunsAreSummarized(effect, earlier, last.batch.run);
      if FirstCommits(attempts) != earlier {
        assert (earlier + [last.batch])[..|earlier|] == earlier;
      }
    }
  }

  ghost predicate SomeAttemptCommits(attempts: seq<Attempt>, run: RunId) {
    exists a :: a in attempts && a.batch.run == run && Commits(a.batch, a.fault)
  }

  lemma {:induction false} FirstCommitsAreDistinct(attempts: seq<Attempt>)
    ensures forall i, j | 0 <= i < j < |FirstCommits(attempts)| ::
      FirstCommits(attempts)[i].run != FirstCommits(attempts)[j].run
    ensures forall run :: run in Runs(FirstCommits(attempts)) <==> SomeAttemptCommits(attempts, run)
  {
    if attempts != [] {
      var init, last := attempts[..|attempts| - 1], attempts[|attempts| - 1];
      assert attempts == init + [last];
      FirstCommitsAreDistinct(init);
      var earlier, all := FirstCommits(init), FirstCommits(attempts);
      assert forall i | 0 <= i < |earlier| :: earlier[i] in earlier && earlier[i].run in Runs(earlier);
      assert Runs(all) == Runs(earlier) + if Commits(last.batch, last.fault) then {last.batch.run} else {};
      forall run ensures SomeAttemptCommits(attempts, run)
        <==> SomeAttemptCommits(init, run) || (Commits(last.batch, last.fault) && last.batch.run == run)
      {
        assert last in attempts;
        if a :| a in init && a.batch.run == run && Commits(a.batch, a.fault) {
          assert a in attempts;
        }
      }
    }
  }

  /** The rows of a run in the ledger. */
  function LedgerOf(ledger: seq<LedgerRow>, run: RunId): seq<LedgerRow> {
    if ledger == [] then []
    else LedgerOf(ledger[..|ledger| - 1], run)
         + if ledger[|ledger| - 1].run == run then [ledger[|ledger| - 1]] else []
  }

  lemma {:induction false} LedgerOfConcat(a: seq<LedgerRow>, b: seq<LedgerRow>, run: RunId)
    ensures LedgerOf(a + b, run) == LedgerOf(a, run) + LedgerOf(b, run)
  {
    if b == [] {
      assert a + b == a;
    } else {
      assert (a + b)[..|a + b| - 1] == a + b[..|b| - 1];
      LedgerOfConcat(a, b[..|b| - 1], run);
    }
  }

  lemma {:induction false} LedgerOfOwnRun(ledger: seq<LedgerRow>, run: RunId, owner: RunId)
    requires forall r | r in ledger :: r.run == owner
    ensures LedgerOf(ledger, run) == if run == owner then ledger else []
  {
    if ledger != [] {
      var init, last := ledger[..|ledger| - 1], ledger[|ledger| - 1];
      assert ledger == init + [last] && last in ledger;
      LedgerOfOwnRun(init, run, owner);
    }
  }

  lemma LedgerNext(effect: Effect, init: seq<Batch>, last: Batch, run: RunId)
    requires SelfSummarizing(last)
    ensures LedgerOf(ApplyAll(effect, Contents(map[], []), init + [last]).ledger, run)
         == LedgerOf(ApplyAll(effect, Contents(map[], []), init).ledger, run) + if last.run == run then last.ledger else []
  {
    assert (init + [last])[..|init|] == init;
    LedgerOfConcat(ApplyAll(effect, Contents(map[], []), init).ledger, last.ledger, run);
    LedgerOfOwnRun(last.ledger, run, last.run);
  }

  lemma {:induction false} LedgerHoldsRunOnce(effect: Effect, batches: seq<Batch>, run: RunId)
    requires forall b | b in batches :: SelfSummarizing(b)
    requires forall i, j | 0 <= i < j < |batches| :: batches[i].run != batches[j].run
    ensures var rows := LedgerOf(ApplyAll(effect, Contents(map[], []), batches).ledger, run);
      && (run !in Runs(batches) ==> rows == [])
      && forall b | b in batches && b.run == run :: rows == b.ledger
  {
    if batches != [] {
      var init, last := batches[..|batches| - 1], batches[|batches| - 1];
      assert batches == init + [last] && last in batches;
      LedgerHoldsRunOnce(effect, init, run);
      LedgerNext(effect, init, last, run);
    }
  }

  /** A run whose batch stays the same over its attempts has its ledger rows once
      if any attempt committed, and not at all otherwise. */
  lemma RunIsLedgeredAtMostOnce(effect: Effect, attempts: seq<Attempt>, b: Batch)
    requires forall a | a in attempts :: SelfSummarizing(a.batch)
    requires forall a | a in attempts && a.batch.run == b.run :: a.batch == b
    ensures LedgerOf(AfterAttempts(effect, Contents(map[], []), attempts).ledger, b.run)
         == if SomeAttemptCommits(attempts, b.run) then b.ledger else []
  {
    PublishedExactlyOnce(effect, attempts);
    FirstCommitsAreDistinct(attempts);
    FirstCommitsAreAttempted(attempts);
    var first := FirstCommits(attempts);
    LedgerHoldsRunOnce(effect, first, b.run);
    if SomeAttemptCommits(attempts, b.run) {
      assert b.run in Runs(first);
      var c :| c in first && c.run == b.run;
    }
  }

  /** The guard looks for the summary row: a batch published twice is applied once
      for every store exactly when its ledger summarizes its run. */
  lemma GuardNeedsSummary(b: Batch)
    requires b.ledger != []
    ensures (forall effect, c | !Committed(c, b.run) ::
               AfterAttempts(effect, c, [Attempt(b, Clean), Attempt(b, Clean)]) == Applied(effect, c, b))
       <==> exists r | r in b.ledger :: r.run == b.run && r.domain == "collection"
  {
    var twice := [Attempt(b, Clean), Attempt(b, Clean)];
    assert twice[..1] == [Attempt(b, Clean)] && twice[..1][..0] == [];
    forall effect, c | !Committed(c, b.run)
      ensures AfterAttempts(effect, c, twice) == Attempted(effect, Applied(effect, c, b), b, Clean)
    {
      assert AfterAttempts(effect, c, twice[..1]) == Applied(effect, c, b);
    }
    if r :| r in b.ledger && IsSummary(r, b.run) {
      forall effect, c | !Committed(c, b.run) ensures AfterAttempts(effect, c, twice) == Applied(effect, c, b) {
        assert r in Applied(effect, c, b).ledger;
      }
    } else {
      var ignore: Effect := (facts, w) => facts;
      var none := Contents(map[], []);
      assert !Committed(Applied(ignore, none, b), b.run);
      assert |AfterAttempts(ignore, none, twice).ledger| == 2 * |b.ledger|;
    }
  }

  // ----- retries -----

  /** How an attempt's failure is classified before deciding to retry. */
  datatype Trial = Trial(fault: Fault, retryable: bool)

  /** At most `maxRetries + 1` attempts of one prepared batch: a reported success
      means it is published, a failure that it is published once or not at all. */
  method PersistWithRetries(store: UpsertStore, effect: Effect, b: Batch, maxRetries: nat, trials: seq<Trial>)
    returns (published: bool, used: nat)
    requires |trials| == maxRetries + 1
    requires exists r | r in b.ledger :: IsSummary(r, b.run)
    modifies store
    ensures 1 <= used <= maxRetries + 1
    ensures published ==> Committed(store.Now(), b.run)
    ensures store.Now() == old(store.Now()) || store.Now() == Applied(effect, old(store.Now()), b)
    ensures old(Committed(store.Now(), b.run)) ==> store.Now() == old(store.Now())
    ensures !published ==> used == maxRetries + 1 || !trials[used - 1].retryable
  {
    used := 0;
    published := false;
    ghost var before := store.Now();
    while used < maxRetries + 1
      invariant used <= maxRetries + 1
      invariant store.Now() == before || (!Committed(before, b.run) && store.Now() == Applied(effect, before, b))
      invariant !published
      invariant used > 0 ==> trials[used - 1].retryable
    {
      published := store.PersistBatch(effect, b, trials[used].fault);
      used := used + 1;
      AppliedIsCommitted(effect, before, b);
      if published || !trials[used - 1].retryable {
        return;
      }
    }
  }

  lemma AppliedIsCommitted(effect: Effect, c: Contents, b: Batch)
    requires exists r | r in b.ledger :: IsSummary(r, b.run)
    ensures Committed(Applied(effect, c, b), b.run)
  {
    var r :| r in b.ledger && IsSummary(r, b.run);
    assert r in Applied(effect, c, b).ledger;
  }

  // ----- the append-only store -----

  datatype LogEntry = Fact(run: RunId, table: string) | Ledger(run: RunId)

  /** An append may land and be reported, land unreported, or not land. */
  datatype Landing = Reported | Unreported | Missed

  /** A table append that was completed, in completion order. */
  datatype Completion = Completion(table: string, landing: Landing)

  function Landed(run: RunId, done: seq<Completion>): seq<LogEntry> {
    if done == [] then []
    else
      var last := done[|done| - 1];
      Landed(run, done[..|done| - 1]) + if last.landing.Missed? then [] else [Fact(run, last.table)]
  }

  predicate AllReported(done: seq<Completion>) {
    forall c | c in done :: c.landing.Reported?
  }

  function Published(log: seq<LogEntry>, run: RunId, done: seq<Completion>, ledger: Landing): seq<LogEntry> {
    log + Landed(run, done) + if AllReported(done) && !ledger.Missed? then [Ledger(run)] else []
  }

  /** What an attempt adds: the row of every table whose append landed, and the ledger
      row exactly if every append was reported and the ledger's own landed. */
  lemma {:induction false} LandedExactly(run: RunId, done: seq<Completion>, e: LogEntry)
    ensures e in Landed(run, done) <==>
      e.Fact? && e.run == run && exists c :: c in done && c.table == e.table && c.landing != Missed
  {
    if done != [] {
      var init, last := done[..|done| - 1], done[|done| - 1];
      assert done == init + [last];
      LandedExactly(run, init, e);
      assert forall c :: c in done <==> c in init || c == last;
    }
  }

  lemma AttemptAddsExactly(log: seq<LogEntry>, run: RunId, done: seq<Completion>, ledger: Landing, e: LogEntry)
    ensures var after := Published(log, run, done, ledger);
      && log <= after
      && (e in after[|log|..] <==>
            match e
            case Fact(r, t) => r == run && exists c :: c in done && c.table == t && c.landing != Missed
            case Ledger(r) => r == run && (forall c | c in done :: c.landing == Reported) && ledger != Missed)
  {
    LandedExactly(run, done, e);
    var added := Landed(run, done) + if AllReported(done) && !ledger.Missed? then [Ledger(run)] else [];
    assert Published(log, run, done, ledger) == log + added;
  }

  class AppendStore {
    var log: seq<LogEntry>

    constructor ()
      ensures log == []
    {
      log := [];
    }

    /** The tables are appended concurrently; the ledger follows only when every
        one of them was reported. */
    method PersistBatch(run: RunId, done: seq<Completion>, ledger: Landing) returns (reported: bool)
      modifies this
      ensures log == Published(old(log), run, done, ledger)
      ensures reported <==> AllReported(done) && ledger.Reported?
    {
      var errors := 0;
      for i := 0 to |done|
        invariant log == old(log) + Landed(run, done[..i])
        invariant errors == 0 <==> AllReported(done[..i])
      {
        assert done[..i + 1][..i] == done[..i];
        if !done[i].landing.Missed? {
          log := log + [Fact(run, done[i].table)];
        }
        if !done[i].landing.Reported? {
          errors := errors + 1;
        }
      }
      assert done[..|done|] == done;
      if errors > 0 {
        return false;
      }
      if !ledger.Missed? {
        log := log + [Ledger(run)];
      }
      return ledger.Reported?;
    }
  }

  datatype AppendAttempt = AppendAttempt(run: RunId, done: seq<Completion>, ledger: Landing)

  /** Every attempt waits for all fact tables of its run. */
  ghost predicate Complete(tables: map<RunId, set<string>>, attempts: seq<AppendAttempt>) {
    forall a | a in attempts :: a.run in tables && tables[a.run] == set c | c in a.done :: c.table
  }

  function LogAfter(attempts: seq<AppendAttempt>): seq<LogEntry> {
    if attempts == [] then []
    else
      var last := attempts[|attempts| - 1];
      Published(LogAfter(attempts[..|attempts| - 1]), last.run, last.done, last.ledger)
  }

  /** Position `i` of the log is covered: if it certifies a run, every fact table
      of that run was appended before it. */
  ghost predicate Certified(tables: map<RunId, set<string>>, log: seq<LogEntry>, i: nat)
    requires i < |log|
  {
    log[i].Ledger? ==> log[i].run in tables && forall t | t in tables[log[i].run] :: Fact(log[i].run, t) in log[..i]
  }

  lemma {:induction false} LandedHoldsReported(run: RunId, done: seq<Completion>, c: Completion)
    requires c in done && c.landing.Reported?
    ensures Fact(run, c.table) in Landed(run, done)
  {
    var init, last := done[..|done| - 1], done[|done| - 1];
    assert done == init + [last];
    if c in init {
      LandedHoldsReported(run, init, c);
    }
  }

  lemma {:induction false} LandedIsFacts(run: RunId, done: seq<Completion>)
    ensures forall e | e in Landed(run, done) :: e.Fact?
  {
    if done != [] {
      LandedIsFacts(run, done[..|done| - 1]);
    }
  }

  /** After any attempts of any runs, a ledger row is never ahead of its facts. */
  lemma {:induction false} LedgerImpliesFacts(tables: map<RunId, set<string>>, attempts: seq<AppendAttempt>, i: nat)
    requires Complete(tables, attempts)
    requires i < |LogAfter(attempts)|
    ensures Certified(tables, LogAfter(attempts), i)
  {
    var init, last := attempts[..|attempts| - 1], attempts[|attempts| - 1];
    assert attempts == init + [last] && last in attempts;
    var before, facts, log := LogAfter(init), Landed(last.run, last.done), LogAfter(attempts);
    if i < |before| {
      LedgerImpliesFacts(tables, init, i);
      assert log[..i] == before[..i];
    } else if i < |before| + |facts| {
      LandedIsFacts(last.run, last.done);
      assert log[i] == facts[i - |before|] && log[i] in facts;
    } else {
      assert log[..i] == before + facts;
      forall t | t in tables[last.run] ensures Fact(last.run, t) in log[..i] {
        var c :| c in last.done && c.table == t;
        LandedHoldsReported(last.run, last.done, c);
      }
    }
  }
}
