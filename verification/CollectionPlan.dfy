/** Which days a run fetches, what it records about them, and what that means over
    a whole history of runs (src/usagebassoon/orchestrator.py, `_collect_locked`;
    src/usagebassoon/ingest.py, `plan_models`, `build_collection_bundle`;
    src/usagebassoon/normalizer.py, `_diagnostic_rows`). */
module CollectionPlan {
  import opened Wrappers
  import opened DailyFacts
  import ObservationOrder

  const SECONDS_PER_DAY := 86400
  const OVERLAP_DAYS := 3

  /** The UTC day of an instant, counted in seconds. */
  function DateOf(at: nat): Day {
    at / SECONDS_PER_DAY
  }

  datatype Domain = Models | Pricing | SessionReport | ReportInventory | SessionMetadata

  datatype Status = Complete | Provisional | Incomplete | Failed

  datatype Target = Target(day: Day, domain: Domain, status: Status)

  // ----- choosing the days to fetch -----

  datatype RefreshRange = RefreshRange(since: Option<Day>, until: Day)

  /** What a run knows when it plans. */
  datatype Knowledge = Knowledge(
    graphDays: set<Day>, persistedDays: set<Day>, statuses: map<Day, Status>,
    today: Day, refresh: Option<RefreshRange>)

  predicate Finished(k: Knowledge, d: Day) {
    d in k.statuses && k.statuses[d].Complete?
  }

  function Past(k: Knowledge): set<Day> {
    set d | d in k.graphDays && d < k.today
  }

  function Later(days: set<Day>, d: Day): set<Day> {
    set x | x in days && x > d
  }

  /** Among the newest past days of the graph. */
  predicate Overlaps(k: Knowledge, d: Day) {
    d in Past(k) && |Later(Past(k), d)| < OVERLAP_DAYS
  }

  function Unfinished(k: Knowledge): set<Day> {
    set d | d in k.statuses && !k.statuses[d].Complete?
  }

  function History(k: Knowledge): set<Day> {
    k.graphDays + k.persistedDays + k.statuses.Keys
  }

  /** A refresh covers its whole range; without a start, from the oldest day known. */
  predicate InRange(r: RefreshRange, history: set<Day>, d: Day) {
    && d <= r.until
    && match r.since
       case Some(first) => first <= d
       case None => d == r.until || exists h | h in history :: h <= d
  }

  function Candidates(k: Knowledge): set<Day> {
    match k.refresh
    case None => k.graphDays + Unfinished(k)
    case Some(r) => set d: Day | 0 <= d <= r.until && InRange(r, History(k), d)
  }

  function FetchSet(k: Knowledge): set<Day> {
    set d | d in Candidates(k) && (k.refresh.Some? || d >= k.today || Overlaps(k, d) || !Finished(k, d))
  }

  /** A tail of an ascending sequence holds the days with few later ones. */
  lemma TailIsNewest(days: seq<Day>, all: set<Day>, i: nat)
    requires Ascending(days) && (forall d :: d in days <==> d in all) && i < |days|
    ensures |Later(all, days[i])| == |days| - 1 - i
  {
    var tail := days[i + 1..];
    assert Distinct(tail);
    SizeDetectsRepetition(tail);
    forall d ensures d in Later(all, days[i]) <==> d in SetOf(tail) {
      if d in Later(all, days[i]) {
        var j :| 0 <= j < |days| && days[j] == d;
        assert d == tail[j - i - 1];
      }
      if d in tail {
        var j :| 0 <= j < |tail| && tail[j] == d;
        assert days[i + 1 + j] == d && d in days;
      }
    }
    assert Later(all, days[i]) == SetOf(tail);
  }

  /** The last three of the sorted past days. */
  method Newest(past: set<Day>) returns (overlap: set<Day>)
    ensures forall d :: d in overlap <==> d in past && |Later(past, d)| < OVERLAP_DAYS
  {
    var days := SortDays(past);
    var from := if |days| < OVERLAP_DAYS then 0 else |days| - OVERLAP_DAYS;
    overlap := SetOf(days[from..]);
    forall d ensures d in overlap <==> d in past && |Later(past, d)| < OVERLAP_DAYS {
      if d in past {
        var i :| 0 <= i < |days| && days[i] == d;
        TailIsNewest(days, past, i);
        if from <= i {
          assert d == days[from..][i - from];
        }
        if d in days[from..] {
          var j :| 0 <= j < |days[from..]| && days[from..][j] == d;
          assert days[from + j] == days[i];
        }
      }
    }
  }

  predicate Starts(first: Day, d: Day) {
    first <= d
  }

  method RangeStart(r: RefreshRange, history: set<Day>) returns (first: Day)
    ensures forall d: Day | 0 <= d <= r.until :: Starts(first, d) <==> InRange(r, history, d)
  {
    first := r.until;
    if r.since.Some? {
      first := r.since.value;
    } else {
      var known := set d | d in history && d <= r.until;
      if known != {} {
        first := Smallest(known);
      }
      forall d: Day | 0 <= d <= r.until ensures Starts(first, d) <==> InRange(r, history, d) {
        if h :| h in history && h <= d {
          assert h in known;
        }
        if known != {} && first <= d {
          assert first in history;
        }
      }
    }
  }

  method PlanDays(k: Knowledge) returns (fetch: seq<Day>)
    ensures Ascending(fetch)
    ensures forall d :: d in fetch <==> d in FetchSet(k)
  {
    var overlap := Newest(Past(k));
    var candidates := k.graphDays + Unfinished(k);
    if k.refresh.Some? {
      var r := k.refresh.value;
      var first := RangeStart(r, History(k));
      candidates := set d: Day | 0 <= d <= r.until && Starts(first, d);
    }
    assert candidates == Candidates(k);
    var chosen := set d | d in candidates && (k.refresh.Some? || d >= k.today || d in overlap || !Finished(k, d));
    assert chosen == FetchSet(k);
    fetch := SortDays(chosen);
  }

  /** An ordinary run fetches a day of the graph, or one recorded as anything but
      complete, unless it is past, recorded as complete, and the graph has at least
      three past days after it. */
  lemma OrdinaryRunFetchesExactly(k: Knowledge, d: Day)
    requires k.refresh.None?
    ensures var complete := d in k.statuses && k.statuses[d] == Complete;
      var newer := set x | x in k.graphDays && d < x && x < k.today;
      d in FetchSet(k) <==>
        && (d in k.graphDays || (d in k.statuses && !complete))
        && (d >= k.today || !complete || |newer| < 3)
  {
    assert Later(Past(k), d) == set x | x in k.graphDays && d < x && x < k.today;
  }

  /** A refresh fetches exactly its range; without a start it begins at the oldest day
      up to its end that the graph, the stored facts or the ledger mentions, or else
      at its end. */
  lemma RefreshFetchesExactly(k: Knowledge, d: Day)
    requires k.refresh.Some?
    ensures var RefreshRange(since, until) := k.refresh.value;
      d in FetchSet(k) <==>
        && d <= until
        && match since
           case Some(first) => first <= d
           case None =>
             d == until || exists h :: (h in k.graphDays || h in k.persistedDays || h in k.statuses) && h <= d
  {
    if h :| (h in k.graphDays || h in k.persistedDays || h in k.statuses) && h <= d {
      assert h in History(k);
    }
  }

  /** A candidate is left out of an ordinary run exactly when it is a past day of
      the graph, finished, and not among the three newest. */
  lemma OmittedExactly(k: Knowledge, d: Day)
    requires k.refresh.None?
    ensures d in Candidates(k) && d !in FetchSet(k)
       <==> d in k.graphDays && d < k.today && Finished(k, d) && |Later(Past(k), d)| >= OVERLAP_DAYS
  {
  }

  // ----- fetching, parsing, assessing -----

  datatype Attempt = FetchFailed | ContractFailed | ParseFailed | Parsed(report: Report)

  datatype FailureCode = Fetch | Contract | Parse

  /** Days whose command failed, then days whose payload was refused; the others
      are parsed. */
  method FetchModels(days: seq<Day>, attempt: Day -> Attempt)
    returns (payloads: map<Day, Payload>, failures: map<Day, FailureCode>)
    ensures forall d :: d in payloads <==> d in days && attempt(d).Parsed?
    ensures forall d :: d in failures <==> d in days && !attempt(d).Parsed?
    ensures forall d | d in payloads :: payloads[d] == ParseDaily(attempt(d).report, d)
    ensures forall d | d in failures :: match failures[d]
      case Fetch => attempt(d).FetchFailed? case Contract => attempt(d).ContractFailed? case Parse => attempt(d).ParseFailed?
  {
    var raw: seq<Day> := [];
    payloads, failures := map[], map[];
    for i := 0 to |days|
      invariant forall d :: d in raw <==> d in days[..i] && !attempt(d).FetchFailed?
      invariant forall d :: d in failures <==> d in days[..i] && attempt(d).FetchFailed?
      invariant forall d | d in failures :: failures[d] == Fetch
    {
      assert days[..i + 1] == days[..i] + [days[i]];
      if attempt(days[i]).FetchFailed? {
        failures := failures[days[i] := Fetch];
      } else {
        raw := raw + [days[i]];
      }
    }
    assert days[..|days|] == days;
    for i := 0 to |raw|
      invariant forall d :: d in payloads <==> d in raw[..i] && attempt(d).Parsed?
      invariant forall d | d in payloads :: payloads[d] == ParseDaily(attempt(d).report, d)
      invariant forall d :: d in failures <==>
        (d in days && attempt(d).FetchFailed?) || (d in raw[..i] && !attempt(d).Parsed?)
      invariant forall d | d in failures :: match failures[d]
        case Fetch => attempt(d).FetchFailed? case Contract => attempt(d).ContractFailed? case Parse => attempt(d).ParseFailed?
    {
      assert raw[..i + 1] == raw[..i] + [raw[i]];
      assert raw[i] in raw;
      var day := raw[i];
      match attempt(day)
      case ContractFailed => failures := failures[day := Contract];
      case ParseFailed => failures := failures[day := Parse];
      case Parsed(report) => payloads := payloads[day := ParseDaily(report, day)];
    }
    assert raw[..|raw|] == raw;
  }

  datatype Outcome = Clean | Mismatched | Unusable

  ghost function OutcomeOf(attempt: Attempt, d: Day, rateMismatch: Usage -> bool): Outcome {
    match attempt
    case Parsed(report) =>
      if exists check: Check :: Fails(check, ParseDaily(report, d), rateMismatch) then Mismatched else Clean
    case _ => Unusable
  }

  function Assessed(outcome: Outcome): Status {
    match outcome
    case Clean => Complete
    case Mismatched => Incomplete
    case Unusable => Failed
  }

  /** A successful observation of a day not yet over does not finish it. */
  function Recorded(t: Target, today: Day): Status {
    if t.domain.Models? && t.status.Complete? && t.day >= today then Provisional else t.status
  }

  /** What is recorded of a fetched day: failed if nothing could be parsed, incomplete
      if any assertion fails, otherwise complete once the day is over. */
  lemma RecordedStatusExactly(attempt: Attempt, d: Day, today: Day, rateMismatch: Usage -> bool)
    ensures var status := Recorded(Target(d, Models, Assessed(OutcomeOf(attempt, d, rateMismatch))), today);
      && (status == Failed <==> !attempt.Parsed?)
      && (status == Incomplete <==>
            attempt.Parsed? && exists check: Check :: Fails(check, ParseDaily(attempt.report, d), rateMismatch))
      && (status == Complete <==>
            attempt.Parsed? && d < today && forall check: Check :: !Fails(check, ParseDaily(attempt.report, d), rateMismatch))
  {
  }

  /** One row of the collection ledger. */
  datatype LedgerRow = LedgerRow(target: Target, startedAt: nat, finishedAt: nat, eventId: nat)

  datatype Cycle = Cycle(startedAt: nat, finishedAt: nat)

  /** Exactly the fetched days are recorded, each as its outcome demands. */
  ghost predicate Records(c: Cycle, days: set<Day>, outcome: Day -> Outcome, rows: seq<LedgerRow>) {
    && (forall r | r in rows && r.target.domain.Models? ::
          && r.target.day in days
          && r.target.status == Recorded(Target(r.target.day, Models, Assessed(outcome(r.target.day))), DateOf(c.startedAt))
          && r.startedAt == c.startedAt && r.finishedAt == c.finishedAt)
    && (forall d | d in days :: exists r :: r in rows && r.target.domain.Models? && r.target.day == d)
  }

  /** Targets of the models domain: parsed days by reconciliation, then failures. */
  method AssessModels(payloads: map<Day, Payload>, failures: map<Day, FailureCode>, affected: set<Day>)
    returns (targets: seq<Target>)
    ensures forall t :: t in targets <==>
      && t.domain.Models?
      && ((t.day in payloads && t.status == if t.day in affected then Incomplete else Complete)
          || (t.day in failures && t.status.Failed?))
  {
    targets := [];
    var days := SortDays(payloads.Keys);
    for i := 0 to |days|
      invariant forall t :: t in targets <==>
        t.domain.Models? && t.day in days[..i] && t.status == if t.day in affected then Incomplete else Complete
    {
      assert days[..i + 1] == days[..i] + [days[i]];
      targets := targets + [Target(days[i], Models, if days[i] in affected then Incomplete else Complete)];
    }
    assert days[..|days|] == days;
    var failed := SortDays(failures.Keys);
    for i := 0 to |failed|
      invariant forall t :: t in targets <==>
        && t.domain.Models?
        && ((t.day in payloads && t.status == if t.day in affected then Incomplete else Complete)
            || (t.day in failed[..i] && t.status.Failed?))
    {
      assert failed[..i + 1] == failed[..i] + [failed[i]];
      targets := targets + [Target(failed[i], Models, Failed)];
    }
    assert failed[..|failed|] == failed;
  }

  /** `_diagnostic_rows`: every target becomes a ledger row of the run. */
  method LedgerRows(targets: seq<Target>, c: Cycle, events: nat -> nat) returns (rows: seq<LedgerRow>)
    ensures |rows| == |targets|
    ensures forall i | 0 <= i < |rows| ::
      rows[i] == LedgerRow(targets[i].(status := Recorded(targets[i], DateOf(c.startedAt))), c.startedAt, c.finishedAt, events(i))
  {
    rows := [];
    for i := 0 to |targets|
      invariant |rows| == i
      invariant forall j | 0 <= j < i ::
        rows[j] == LedgerRow(targets[j].(status := Recorded(targets[j], DateOf(c.startedAt))), c.startedAt, c.finishedAt, events(j))
    {
      var status := targets[i].status;
      if targets[i].domain.Models? && status.Complete? && targets[i].day >= DateOf(c.startedAt) {
        status := Provisional;
      }
      rows := rows + [LedgerRow(targets[i].(status := status), c.startedAt, c.finishedAt, events(i))];
    }
  }

  /** A whole run over the models domain: plan, fetch, reconcile, record. */
  method CollectModels(
    k: Knowledge, c: Cycle, attempt: Day -> Attempt, rateMismatch: Usage -> bool, others: seq<Target>, events: nat -> nat)
    returns (rows: seq<LedgerRow>)
    requires forall t | t in others :: !t.domain.Models?
    ensures Records(c, FetchSet(k), (d: Day) => OutcomeOf(attempt(d), d, rateMismatch), rows)
  {
    var days := PlanDays(k);
    var payloads, failures := FetchModels(days, attempt);
    var issues, affected, ambiguous := ReconcileAll(payloads, rateMismatch);
    var targets := AssessModels(payloads, failures, affected);
    ghost var outcome := (d: Day) => OutcomeOf(attempt(d), d, rateMismatch);
    forall t ensures t in targets <==> t.domain.Models? && t.day in FetchSet(k) && t.status == Assessed(outcome(t.day)) {
      assert t.day in days <==> t.day in FetchSet(k);
    }
    rows := LedgerRows(targets + others, c, events);
    AssessedAreRecorded(c, FetchSet(k), outcome, targets, others, rows);
  }

  lemma AssessedAreRecorded(
    c: Cycle, days: set<Day>, outcome: Day -> Outcome, targets: seq<Target>, others: seq<Target>, rows: seq<LedgerRow>)
    requires forall t | t in others :: !t.domain.Models?
    requires forall t :: t in targets <==> t.domain.Models? && t.day in days && t.status == Assessed(outcome(t.day))
    requires var all := targets + others; |rows| == |all| && forall i | 0 <= i < |rows| ::
      && rows[i].target == all[i].(status := Recorded(all[i], DateOf(c.startedAt)))
      && rows[i].startedAt == c.startedAt && rows[i].finishedAt == c.finishedAt
    ensures Records(c, days, outcome, rows)
  {
    forall d | d in days ensures exists r :: r in rows && r.target.domain.Models? && r.target.day == d {
      var t := Target(d, Models, Assessed(outcome(d)));
      assert t in targets;
      var i :| 0 <= i < |targets| && targets[i] == t;
      assert rows[i] in rows;
    }
    forall r | r in rows && r.target.domain.Models?
      ensures r.target.day in days
      ensures r.target.status == Recorded(Target(r.target.day, Models, Assessed(outcome(r.target.day))), DateOf(c.startedAt))
      ensures r.startedAt == c.startedAt && r.finishedAt == c.finishedAt
    {
      var i :| 0 <= i < |rows| && rows[i] == r;
      assert (targets + others)[i] in targets + others;
    }
  }

  // ----- histories of runs -----

  function Observed(r: LedgerRow): ObservationOrder.Observation {
    ObservationOrder.Observation(r.startedAt, false, 0, None, false, Some(r.finishedAt), r.eventId)
  }

  /** `(collected_at, finished_at, event_id)`, compared left to right. */
  predicate SupersededBy(r: LedgerRow, newer: LedgerRow) {
    || newer.startedAt > r.startedAt
    || (newer.startedAt == r.startedAt
        && (newer.finishedAt > r.finishedAt || (newer.finishedAt == r.finishedAt && newer.eventId > r.eventId)))
  }

  /** The comparison above is the ledger's shared order. */
  lemma SupersessionIsSharedOrder(r: LedgerRow, newer: LedgerRow)
    ensures SupersededBy(r, newer) <==>
      ObservationOrder.Precedes(ObservationOrder.OrderBy(ObservationOrder.CollectionLedger), Observed(newer), Observed(r))
  {
    var keys, a, b := ObservationOrder.OrderBy(ObservationOrder.CollectionLedger), Observed(newer), Observed(r);
    assert keys == [ObservationOrder.CollectedAtDesc, ObservationOrder.FinishedAtDescNullsLast, ObservationOrder.EventIdDesc];
    assert ObservationOrder.PrecedesFrom(keys, 2, a, b) <==> newer.eventId > r.eventId;
    assert ObservationOrder.PrecedesFrom(keys, 1, a, b) <==>
      newer.finishedAt > r.finishedAt || (newer.finishedAt == r.finishedAt && newer.eventId > r.eventId);
  }

  predicate About(r: LedgerRow, d: Day) {
    r.target.domain.Models? && r.target.day == d
  }

  /** `r` ranks first among the models rows of its day. */
  ghost predicate Current(ledger: seq<LedgerRow>, d: Day, r: LedgerRow) {
    r in ledger && About(r, d) && forall other | other in ledger && About(other, d) :: !SupersededBy(r, other)
  }

  /** What preflight reads: a first-ranked status for every recorded day. */
  ghost predicate ReadsStatuses(ledger: seq<LedgerRow>, statuses: map<Day, Status>) {
    && (forall d :: d in statuses <==> exists r :: r in ledger && About(r, d))
    && (forall d | d in statuses :: exists r :: Current(ledger, d, r) && r.target.status == statuses[d])
  }

  /** One run: it reads the ledger, plans, and either publishes what it recorded or
      fails before publication and leaves the models domain alone. */
  datatype Attempted = Attempted(known: Knowledge, cycle: Cycle, outcome: Day -> Outcome, rows: seq<LedgerRow>)

  ghost predicate Runs(ledger: seq<LedgerRow>, a: Attempted) {
    && ReadsStatuses(ledger, a.known.statuses)
    && a.known.today == DateOf(a.cycle.startedAt)
    && (Records(a.cycle, FetchSet(a.known), a.outcome, a.rows) || forall r | r in a.rows :: !r.target.domain.Models?)
  }

  /** The ledger before each run and after the last. */
  ghost predicate IsHistory(runs: seq<Attempted>, ledgers: seq<seq<LedgerRow>>) {
    && |ledgers| == |runs| + 1
    && ledgers[0] == []
    && forall i | 0 <= i < |runs| :: Runs(ledgers[i], runs[i]) && ledgers[i + 1] == ledgers[i] + runs[i].rows
  }

  lemma {:induction false} RowsComeFromRuns(runs: seq<Attempted>, ledgers: seq<seq<LedgerRow>>, i: nat, r: LedgerRow)
    requires IsHistory(runs, ledgers) && i <= |runs|
    requires r in ledgers[i]
    ensures exists j | 0 <= j < i :: r in runs[j].rows
  {
    if i > 0 {
      assert ledgers[i - 1 + 1] == ledgers[i - 1] + runs[i - 1].rows;
      if r !in runs[i - 1].rows {
        RowsComeFromRuns(runs, ledgers, i - 1, r);
      }
    }
  }

  /** A run that fetched `d` on a strictly later UTC day and found it clean. */
  ghost predicate Settles(a: Attempted, d: Day, r: LedgerRow) {
    && r in a.rows && About(r, d) && r.target.status.Complete?
    && d in FetchSet(a.known) && a.outcome(d).Clean? && DateOf(a.cycle.startedAt) > d
  }

  lemma CompleteRowSettles(ledger: seq<LedgerRow>, a: Attempted, d: Day, r: LedgerRow)
    requires Runs(ledger, a)
    requires r in a.rows && About(r, d) && r.target.status.Complete?
    ensures Settles(a, d, r)
  {
  }

  /** In every history: a day an ordinary run leaves out was settled, by an earlier
      run started on a strictly later UTC day with a clean reconciliation, whose
      record nothing supersedes; and three newer past days stand in the graph. */
  lemma OmissionIsFinal(runs: seq<Attempted>, ledgers: seq<seq<LedgerRow>>, i: nat, d: Day)
    requires IsHistory(runs, ledgers) && i < |runs|
    requires runs[i].known.refresh.None?
    requires d in Candidates(runs[i].known) && d !in FetchSet(runs[i].known)
    ensures d < runs[i].known.today && |Later(Past(runs[i].known), d)| >= OVERLAP_DAYS
    ensures exists j, r | 0 <= j < i :: Current(ledgers[i], d, r) && Settles(runs[j], d, r)
  {
    assert Runs(ledgers[i], runs[i]);
    OmittedExactly(runs[i].known, d);
    var r :| Current(ledgers[i], d, r) && r.target.status.Complete?;
    RowsComeFromRuns(runs, ledgers, i, r);
    var j :| 0 <= j < i && r in runs[j].rows;
    CompleteRowSettles(ledgers[j], runs[j], d, r);
  }

  /** Every models target currently recorded as anything but complete is fetched by
      the next run, whatever the graph says; a refresh also fetches it in range. */
  lemma UnfinishedIsFetchedNext(runs: seq<Attempted>, ledgers: seq<seq<LedgerRow>>, i: nat, d: Day, r: LedgerRow)
    requires IsHistory(runs, ledgers) && i < |runs|
    requires EventsIdentify(ledgers[i])
    requires Current(ledgers[i], d, r) && !r.target.status.Complete?
    ensures runs[i].known.refresh.None? ==> d in FetchSet(runs[i].known)
    ensures runs[i].known.refresh.Some? && InRange(runs[i].known.refresh.value, History(runs[i].known), d) ==>
      d in FetchSet(runs[i].known)
  {
    assert Runs(ledgers[i], runs[i]);
    var s :| Current(ledgers[i], d, s) && s.target.status == runs[i].known.statuses[d];
    CurrentIsUnique(ledgers[i], d, r, s);
  }

  /** A row's event ID is its own. */
  ghost predicate EventsIdentify(ledger: seq<LedgerRow>) {
    forall a, b | a in ledger && b in ledger && a.eventId == b.eventId :: a == b
  }

  lemma CurrentIsUnique(ledger: seq<LedgerRow>, d: Day, r: LedgerRow, s: LedgerRow)
    requires EventsIdentify(ledger) && Current(ledger, d, r) && Current(ledger, d, s)
    ensures r == s
  {
    assert r.eventId == s.eventId;
  }

  /** Once a run started on a later UTC day, and later than every run that recorded
      `d` before, finds it clean, the next run reads it as finished. */
  lemma CleanLaterRunFinishes(runs: seq<Attempted>, ledgers: seq<seq<LedgerRow>>, j: nat, d: Day)
    requires IsHistory(runs, ledgers) && j + 1 < |runs|
    requires var a := runs[j];
      && Records(a.cycle, FetchSet(a.known), a.outcome, a.rows)
      && d in FetchSet(a.known) && a.outcome(d).Clean? && DateOf(a.cycle.startedAt) > d
      && forall r | r in ledgers[j] && About(r, d) :: r.startedAt < a.cycle.startedAt
    ensures Finished(runs[j + 1].known, d)
  {
    assert ledgers[j + 1] == ledgers[j] + runs[j].rows;
    assert Runs(ledgers[j + 1], runs[j + 1]);
    CleanRowIsRead(ledgers[j], runs[j], d, runs[j + 1].known.statuses);
  }

  lemma NewerRowsAreCurrent(before: seq<LedgerRow>, rows: seq<LedgerRow>, d: Day, r: LedgerRow, s: LedgerRow)
    requires r in rows && About(r, d)
    requires forall x | x in before && About(x, d) :: SupersededBy(x, r)
    requires Current(before + rows, d, s)
    ensures s in rows
  {
    assert r in before + rows;
  }

  lemma RecordedRow(a: Attempted, d: Day, r: LedgerRow)
    requires Records(a.cycle, FetchSet(a.known), a.outcome, a.rows)
    requires r in a.rows && About(r, d)
    ensures r.startedAt == a.cycle.startedAt
    ensures a.outcome(d).Clean? && DateOf(a.cycle.startedAt) > d ==> r.target.status == Complete
  {
  }

  lemma CleanRowIsRead(before: seq<LedgerRow>, a: Attempted, d: Day, statuses: map<Day, Status>)
    requires ReadsStatuses(before + a.rows, statuses)
    requires Records(a.cycle, FetchSet(a.known), a.outcome, a.rows)
    requires d in FetchSet(a.known) && a.outcome(d).Clean? && DateOf(a.cycle.startedAt) > d
    requires forall r | r in before && About(r, d) :: r.startedAt < a.cycle.startedAt
    ensures d in statuses && statuses[d] == Complete
  {
    var r :| r in a.rows && r.target.domain.Models? && r.target.day == d;
    assert About(r, d) && r in before + a.rows;
    RecordedRow(a, d, r);
    var s :| Current(before + a.rows, d, s) && s.target.status == statuses[d];
    NewerRowsAreCurrent(before, a.rows, d, r, s);
    RecordedRow(a, d, s);
  }

  /** A refresh without a start fetches every day up to its end that the graph, the
      stored facts or the ledger has ever mentioned. */
  lemma FullRefreshReachesHistory(k: Knowledge, d: Day)
    requires k.refresh.Some? && k.refresh.value.since.None?
    requires d in k.graphDays || d in k.persistedDays || d in k.statuses
    ensures d in FetchSet(k) <==> d <= k.refresh.value.until
  {
    RefreshFetchesExactly(k, d);
  }
}
