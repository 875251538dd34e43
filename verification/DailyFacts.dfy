/** From parsed daily payloads to the staged daily_stats batch
    (src/usagebassoon/reconcile.py, `reconcile_all`; src/usagebassoon/ingest.py,
    `build_collection_bundle`; src/usagebassoon/normalizer.py, `_daily_stats_rows`). */
module DailyFacts {
  import opened Wrappers
  import opened StagedRows
  import DailyTokens

  /** Proleptic ordinals, as `date.toordinal` counts them. */
  type Day = nat

  /** One usage row; `other` stands for the columns no check reads. */
  datatype Usage = Usage(
    client: string, sessionId: string, model: string,
    input: nat, output: nat, cacheRead: nat, cacheWrite: nat, reasoning: nat, messages: nat,
    cost: real, other: string)

  datatype Totals = Totals(input: nat, output: nat, cacheRead: nat, cacheWrite: nat, messages: nat, cost: real)

  datatype Report = Report(usage: seq<Usage>, totals: Totals)

  datatype DailyUsage = DailyUsage(day: Day, stats: Usage)

  datatype Payload = Payload(entries: seq<DailyUsage>, totals: Totals)

  /** Every parsed row is given the day that was requested. */
  function ParseDaily(report: Report, day: Day): (p: Payload)
    ensures Requested(p, day) && |p.entries| == |report.usage|
  {
    Payload(seq(|report.usage|, i requires 0 <= i < |report.usage| => DailyUsage(day, report.usage[i])), report.totals)
  }

  predicate Requested(p: Payload, day: Day) {
    forall i | 0 <= i < |p.entries| :: p.entries[i].day == day
  }

  // ----- reconciliation -----

  datatype Check =
    | DuplicateSessionModel
    | TotalInput | TotalOutput | TotalCacheRead | TotalCacheWrite | TotalMessages
    | TotalCost
    | PerformanceRate

  const COST_TOLERANCE: real := 0.00000001

  type Identity = (string, string, string)

  function IdentityOf(u: Usage): Identity {
    (u.client, u.sessionId, u.model)
  }

  function Identities(entries: seq<DailyUsage>): seq<Identity> {
    seq(|entries|, i requires 0 <= i < |entries| => IdentityOf(entries[i].stats))
  }

  ghost predicate Distinct<T>(s: seq<T>) {
    forall i, j | 0 <= i < j < |s| :: s[i] != s[j]
  }

  function SetOf<T>(s: seq<T>): set<T> {
    set x | x in s
  }

  /** Comparing sizes detects exactly a repetition. */
  lemma {:induction false} SizeDetectsRepetition<T>(s: seq<T>)
    ensures |SetOf(s)| <= |s|
    ensures |SetOf(s)| == |s| <==> Distinct(s)
  {
    if s != [] {
      var init, last := s[..|s| - 1], s[|s| - 1];
      SizeDetectsRepetition(init);
      assert s == init + [last];
      assert SetOf(s) == SetOf(init) + {last};
      assert last in SetOf(init) <==> exists i :: 0 <= i < |init| && s[i] == last;
      assert Distinct(s) <==> Distinct(init) && last !in SetOf(init);
    }
  }

  /** The token columns and messages, by the check that adds them up. */
  function Amount(check: Check, u: Usage): nat {
    match check
    case TotalInput => u.input
    case TotalOutput => u.output
    case TotalCacheRead => u.cacheRead
    case TotalCacheWrite => u.cacheWrite
    case TotalMessages => u.messages
    case _ => 0
  }

  function Declared(check: Check, t: Totals): nat {
    match check
    case TotalInput => t.input
    case TotalOutput => t.output
    case TotalCacheRead => t.cacheRead
    case TotalCacheWrite => t.cacheWrite
    case TotalMessages => t.messages
    case _ => 0
  }

  function Total(check: Check, entries: seq<DailyUsage>): nat {
    if entries == [] then 0
    else Total(check, entries[..|entries| - 1]) + Amount(check, entries[|entries| - 1].stats)
  }

  function TotalCostOf(entries: seq<DailyUsage>): real {
    if entries == [] then 0.0
    else TotalCostOf(entries[..|entries| - 1]) + entries[|entries| - 1].stats.cost
  }

  /** `rateMismatch` stands for the floating-point comparison of reported rates. */
  ghost predicate Fails(check: Check, p: Payload, rateMismatch: Usage -> bool) {
    match check
    case DuplicateSessionModel => !Distinct(Identities(p.entries))
    case TotalCost =>
      var gap := p.totals.cost - TotalCostOf(p.entries);
      gap > COST_TOLERANCE || -gap > COST_TOLERANCE
    case PerformanceRate => exists e :: e in p.entries && rateMismatch(e.stats)
    case _ => Declared(check, p.totals) != Total(check, p.entries)
  }

  method Smallest(days: set<Day>) returns (least: Day)
    requires days != {}
    ensures least in days && forall d | d in days :: least <= d
  {
    least :| least in days;
    var left := days - {least};
    while left != {}
      invariant left <= days && least in days
      invariant forall d | d in days && d !in left :: least <= d
      decreases |left|
    {
      var d :| d in left;
      if d < least {
        least := d;
      }
      left := left - {d};
    }
  }

  ghost predicate Ascending(days: seq<Day>) {
    forall i, j | 0 <= i < j < |days| :: days[i] < days[j]
  }

  method SortDays(days: set<Day>) returns (sorted: seq<Day>)
    ensures Ascending(sorted)
    ensures forall d :: d in sorted <==> d in days
  {
    sorted := [];
    var left := days;
    while left != {}
      invariant left <= days
      invariant Ascending(sorted)
      invariant forall d :: d in sorted <==> d in days && d !in left
      invariant forall d, x | d in sorted && x in left :: d < x
      decreases |left|
    {
      var d := Smallest(left);
      assert forall i | 0 <= i < |sorted| :: sorted[i] in sorted;
      sorted, left := sorted + [d], left - {d};
    }
  }

  method CheckPayload(p: Payload, rateMismatch: Usage -> bool) returns (failed: set<Check>)
    ensures forall check :: check in failed <==> Fails(check, p, rateMismatch)
  {
    failed := {};
    var keys := Identities(p.entries);
    SizeDetectsRepetition(keys);
    if |keys| != |SetOf(keys)| {
      failed := failed + {DuplicateSessionModel};
    }
    var fields := [TotalInput, TotalOutput, TotalCacheRead, TotalCacheWrite, TotalMessages];
    for i := 0 to |fields|
      invariant forall check | check !in fields ::
        check in failed <==> check == DuplicateSessionModel && Fails(check, p, rateMismatch)
      invariant forall k | 0 <= k < |fields| :: fields[k] in failed <==> k < i && Fails(fields[k], p, rateMismatch)
    {
      if Declared(fields[i], p.totals) != Total(fields[i], p.entries) {
        failed := failed + {fields[i]};
      }
    }
    assert TotalInput == fields[0] && TotalOutput == fields[1] && TotalCacheRead == fields[2];
    assert TotalCacheWrite == fields[3] && TotalMessages == fields[4];
    var gap := p.totals.cost - TotalCostOf(p.entries);
    if gap > COST_TOLERANCE || -gap > COST_TOLERANCE {
      failed := failed + {TotalCost};
    }
    if exists e :: e in p.entries && rateMismatch(e.stats) {
      failed := failed + {PerformanceRate};
    }
  }

  /** `day` is the last of `days` whose payload fails `check`. */
  ghost predicate LatestFailure(
    check: Check, day: Day, days: set<Day>, daily: map<Day, Payload>, rateMismatch: Usage -> bool)
    requires days <= daily.Keys
  {
    && day in days && Fails(check, daily[day], rateMismatch)
    && forall d | d in days && Fails(check, daily[d], rateMismatch) :: d <= day
  }

  ghost predicate Reconciled(
    issues: map<Check, Day>, affected: set<Day>, ambiguous: set<Day>,
    days: set<Day>, daily: map<Day, Payload>, rateMismatch: Usage -> bool)
    requires days <= daily.Keys
  {
    && (forall d :: d in affected <==> d in days && exists check: Check :: Fails(check, daily[d], rateMismatch))
    && (forall d :: d in ambiguous <==> d in days && !Distinct(Identities(daily[d].entries)))
    && (forall check :: check in issues <==> exists d :: d in days && Fails(check, daily[d], rateMismatch))
    && (forall check | check in issues :: LatestFailure(check, issues[check], days, daily, rateMismatch))
  }

  /** One issue per failed assertion, naming its latest day; the days to collect
      again; the days whose natural keys are ambiguous. */
  method ReconcileAll(daily: map<Day, Payload>, rateMismatch: Usage -> bool)
    returns (issues: map<Check, Day>, affected: set<Day>, ambiguous: set<Day>)
    ensures Reconciled(issues, affected, ambiguous, daily.Keys, daily, rateMismatch)
  {
    issues, affected, ambiguous := map[], {}, {};
    var days := SortDays(daily.Keys);
    ghost var seen: set<Day> := {};
    for i := 0 to |days|
      invariant forall d :: d in seen <==> d in days[..i]
      invariant seen <= daily.Keys
      invariant Reconciled(issues, affected, ambiguous, seen, daily, rateMismatch)
    {
      var day := days[i];
      var failed := CheckPayload(daily[day], rateMismatch);
      assert day in daily && forall d | d in seen :: d < day;
      LaterDayReconciled(issues, affected, ambiguous, seen, day, failed, daily, rateMismatch);
      issues, affected, ambiguous :=
        issues + map check | check in failed :: day,
        if failed != {} then affected + {day} else affected,
        if DuplicateSessionModel in failed then ambiguous + {day} else ambiguous;
      seen := seen + {day};
      assert days[..i + 1] == days[..i] + [day];
    }
    assert days[..|days|] == days;
    assert seen == daily.Keys;
  }

  lemma LaterDayReconciled(
    issues: map<Check, Day>, affected: set<Day>, ambiguous: set<Day>, seen: set<Day>, day: Day,
    failed: set<Check>, daily: map<Day, Payload>, rateMismatch: Usage -> bool)
    requires seen <= daily.Keys && day in daily
    requires Reconciled(issues, affected, ambiguous, seen, daily, rateMismatch)
    requires forall d | d in seen :: d < day
    requires forall check :: check in failed <==> Fails(check, daily[day], rateMismatch)
    ensures Reconciled(
              issues + map check | check in failed :: day,
              if failed != {} then affected + {day} else affected,
              if DuplicateSessionModel in failed then ambiguous + {day} else ambiguous,
              seen + {day}, daily, rateMismatch)
  {
    var updated, days := issues + map check | check in failed :: day, seen + {day};
    assert failed != {} <==> exists check: Check :: Fails(check, daily[day], rateMismatch) by {
      if check: Check :| Fails(check, daily[day], rateMismatch) {
        assert check in failed;
      }
    }
    assert DuplicateSessionModel in failed <==> Fails(DuplicateSessionModel, daily[day], rateMismatch);
    forall check ensures check in updated <==> exists d :: d in days && Fails(check, daily[d], rateMismatch) {
      assert day in days;
      if check in issues {
        assert LatestFailure(check, issues[check], seen, daily, rateMismatch);
        assert issues[check] in days;
      }
    }
    forall check | check in updated ensures LatestFailure(check, updated[check], days, daily, rateMismatch) {
      if check !in failed {
        assert LatestFailure(check, issues[check], seen, daily, rateMismatch);
      }
    }
  }

  // ----- daily_stats rows -----

  function KeyOf(source: string, u: DailyUsage): DailyTokens.Key {
    DailyTokens.Key(source, u.day, u.stats.client, u.stats.sessionId, u.stats.model)
  }

  function FactOf(u: Usage, at: int, eventId: nat): DailyTokens.Row {
    DailyTokens.Row(
      DailyTokens.Counts(Some(u.input), Some(u.output), Some(u.cacheRead), Some(u.cacheWrite), Some(u.reasoning)),
      u.input + u.output + u.cacheRead + u.cacheWrite + u.reasoning, at, eventId,
      DailyTokens.Detail(u.messages, u.cost, u.other))
  }

  /** `events` draws one event ID for each row in turn. */
  datatype Origin = Origin(source: string, at: int, events: nat -> nat)

  function RowsOfDay(p: Payload, o: Origin, offset: nat): DailyTokens.Batch {
    seq(|p.entries|, i requires 0 <= i < |p.entries| =>
      Entry(KeyOf(o.source, p.entries[i]), FactOf(p.entries[i].stats, o.at, o.events(offset + i))))
  }

  function RowsOf(days: seq<Day>, n: nat, daily: map<Day, Payload>, o: Origin): DailyTokens.Batch
    requires n <= |days| && forall i | 0 <= i < |days| :: days[i] in daily
  {
    if n == 0 then []
    else
      var earlier := RowsOf(days, n - 1, daily, o);
      earlier + RowsOfDay(daily[days[n - 1]], o, |earlier|)
  }

  method DailyStatsRows(daily: map<Day, Payload>, o: Origin) returns (rows: DailyTokens.Batch, days: seq<Day>)
    ensures Ascending(days) && forall d :: d in days <==> d in daily
    ensures rows == RowsOf(days, |days|, daily, o)
  {
    rows := [];
    days := SortDays(daily.Keys);
    assert forall i | 0 <= i < |days| :: days[i] in days;
    for n := 0 to |days|
      invariant rows == RowsOf(days, n, daily, o)
    {
      var entries := daily[days[n]].entries;
      ghost var before := rows;
      for i := 0 to |entries|
        invariant rows == before + RowsOfDay(daily[days[n]], o, |before|)[..i]
      {
        rows := rows + [Entry(KeyOf(o.source, entries[i]), FactOf(entries[i].stats, o.at, o.events(|rows|)))];
      }
    }
  }

  ghost predicate EachRequested(days: seq<Day>, daily: map<Day, Payload>) {
    forall i | 0 <= i < |days| :: days[i] in daily && Requested(daily[days[i]], days[i])
  }

  /** The keys staged are those of the usage rows, day by day. */
  lemma {:induction false} KeysOfRows(days: seq<Day>, n: nat, daily: map<Day, Payload>, o: Origin, k: DailyTokens.Key)
    requires n <= |days| && EachRequested(days, daily)
    ensures k in Keys(RowsOf(days, n, daily, o)) <==>
      exists i, j | 0 <= i < n && 0 <= j < |daily[days[i]].entries| :: KeyOf(o.source, daily[days[i]].entries[j]) == k
  {
    if n > 0 {
      KeysOfRows(days, n - 1, daily, o, k);
      var earlier, p := RowsOf(days, n - 1, daily, o), daily[days[n - 1]];
      var added := RowsOfDay(p, o, |earlier|);
      assert forall e :: e in earlier + added <==> e in earlier || e in added;
      assert k in Keys(added) <==> exists j | 0 <= j < |p.entries| :: KeyOf(o.source, p.entries[j]) == k by {
        if j :| 0 <= j < |p.entries| && KeyOf(o.source, p.entries[j]) == k {
          assert added[j] in added;
        }
      }
      assert k in Keys(earlier + added) <==> k in Keys(earlier) || k in Keys(added);
    }
  }

  lemma DayKeysDistinct(p: Payload, day: Day, o: Origin, offset: nat)
    requires Requested(p, day)
    ensures DistinctKeys(RowsOfDay(p, o, offset)) <==> Distinct(Identities(p.entries))
  {
    var rows, ids := RowsOfDay(p, o, offset), Identities(p.entries);
    forall i, j | 0 <= i < j < |rows| ensures rows[i].key == rows[j].key <==> ids[i] == ids[j] {
    }
  }

  lemma DistinctJoin(a: DailyTokens.Batch, b: DailyTokens.Batch)
    requires Keys(a) !! Keys(b)
    ensures DistinctKeys(a + b) <==> DistinctKeys(a) && DistinctKeys(b)
  {
    var s := a + b;
    if DistinctKeys(s) {
      forall i, j | 0 <= i < j < |a| ensures a[i].key != a[j].key {
        assert s[i].key != s[j].key;
      }
      forall i, j | 0 <= i < j < |b| ensures b[i].key != b[j].key {
        assert s[|a| + i].key != s[|a| + j].key;
      }
    }
    if DistinctKeys(a) && DistinctKeys(b) {
      forall i, j | 0 <= i < j < |s| ensures s[i].key != s[j].key {
        if i < |a| <= j {
          assert a[i] in a && b[j - |a|] in b;
          assert s[i].key in Keys(a) && s[j].key in Keys(b);
        } else if j < |a| {
          assert a[i].key != a[j].key;
        } else {
          assert b[i - |a|].key != b[j - |a|].key;
        }
      }
    }
  }

  /** Natural keys are pairwise distinct exactly when no day repeats a
      client/session/model: days never clash with one another. */
  lemma {:induction false} KeysDistinctExactly(days: seq<Day>, n: nat, daily: map<Day, Payload>, o: Origin)
    requires n <= |days| && Ascending(days) && EachRequested(days, daily)
    ensures DistinctKeys(RowsOf(days, n, daily, o)) <==>
      forall i | 0 <= i < n :: Distinct(Identities(daily[days[i]].entries))
  {
    if n > 0 {
      KeysDistinctExactly(days, n - 1, daily, o);
      var earlier, day := RowsOf(days, n - 1, daily, o), days[n - 1];
      var added := RowsOfDay(daily[day], o, |earlier|);
      DayKeysDistinct(daily[day], day, o, |earlier|);
      forall k | k in Keys(earlier) ensures k !in Keys(added) {
        KeysOfRows(days, n - 1, daily, o, k);
      }
      DistinctJoin(earlier, added);
    }
  }

  ghost predicate Unambiguous(r: Report) {
    forall i, j | 0 <= i < j < |r.usage| :: IdentityOf(r.usage[i]) != IdentityOf(r.usage[j])
  }

  lemma ParsedIdentities(r: Report, day: Day)
    ensures Distinct(Identities(ParseDaily(r, day).entries)) <==> Unambiguous(r)
  {
    var ids := Identities(ParseDaily(r, day).entries);
    forall i | 0 <= i < |r.usage| ensures ids[i] == IdentityOf(r.usage[i]) {
    }
  }

  /** The usage rows that may be staged. */
  ghost predicate Stageable(reports: map<Day, Report>, source: string, k: DailyTokens.Key) {
    exists d, j :: d in reports && Unambiguous(reports[d]) && 0 <= j < |reports[d].usage|
      && KeyOf(source, DailyUsage(d, reports[d].usage[j])) == k
  }

  lemma {:induction false} RowsAreCounted(days: seq<Day>, n: nat, daily: map<Day, Payload>, o: Origin)
    requires n <= |days| && forall i | 0 <= i < |days| :: days[i] in daily
    ensures DailyTokens.AllCounted(RowsOf(days, n, daily, o))
  {
    if n > 0 {
      RowsAreCounted(days, n - 1, daily, o);
    }
  }

  lemma SafeRows(reports: map<Day, Report>, safe: map<Day, Payload>, days: seq<Day>, o: Origin)
    requires safe == map d | d in reports && Unambiguous(reports[d]) :: ParseDaily(reports[d], d)
    requires Ascending(days) && forall d :: d in days <==> d in safe
    ensures forall i | 0 <= i < |days| :: days[i] in safe
    ensures DistinctKeys(RowsOf(days, |days|, safe, o))
    ensures forall k :: k in Keys(RowsOf(days, |days|, safe, o)) <==> Stageable(reports, o.source, k)
  {
    forall i | 0 <= i < |days| ensures days[i] in safe && Distinct(Identities(safe[days[i]].entries)) {
      assert days[i] in days;
      ParsedIdentities(reports[days[i]], days[i]);
    }
    KeysDistinctExactly(days, |days|, safe, o);
    forall k ensures k in Keys(RowsOf(days, |days|, safe, o)) <==> Stageable(reports, o.source, k) {
      KeysOfRows(days, |days|, safe, o, k);
      if d, j :| d in reports && Unambiguous(reports[d]) && 0 <= j < |reports[d].usage|
                 && KeyOf(o.source, DailyUsage(d, reports[d].usage[j])) == k {
        assert d in days;
        var i :| 0 <= i < |days| && days[i] == d;
        assert KeyOf(o.source, safe[days[i]].entries[j]) == k;
      }
    }
  }

  // ----- what the staged rows say -----

  /** The row is of that day and carries the columns of the usage row `u`: its natural
      key, its five counts and their sum, and the collection time of the run. */
  predicate Carries(e: Entry<DailyTokens.Key, DailyTokens.Row>, day: Day, u: Usage, o: Origin) {
    && e.key.sourceId == o.source && e.key.day == day
    && e.key.client == u.client && e.key.sessionId == u.sessionId && e.key.model == u.model
    && e.row.counts.input == Some(u.input) && e.row.counts.output == Some(u.output)
    && e.row.counts.cacheRead == Some(u.cacheRead) && e.row.counts.cacheWrite == Some(u.cacheWrite)
    && e.row.counts.reasoning == Some(u.reasoning)
    && e.row.total == u.input + u.output + u.cacheRead + u.cacheWrite + u.reasoning
    && e.row.collectedAt == o.at
    && e.row.detail.messages == u.messages && e.row.detail.cost == u.cost && e.row.detail.other == u.other
  }

  predicate HasUsage(reports: map<Day, Report>, d: Day, j: int) {
    d in reports && 0 <= j < |reports[d].usage|
  }

  ghost predicate CarriesSome(e: Entry<DailyTokens.Key, DailyTokens.Row>, reports: map<Day, Report>, o: Origin) {
    exists d, j :: HasUsage(reports, d, j) && Unambiguous(reports[d]) && Carries(e, d, reports[d].usage[j], o)
  }

  ghost predicate IsCarried(d: Day, u: Usage, rows: DailyTokens.Batch, o: Origin) {
    exists i :: 0 <= i < |rows| && Carries(rows[i], d, u, o)
  }

  /** `rows` and the usage rows of the unambiguous days are the same facts: each row
      carries one of them and each of them is carried by a row. */
  ghost predicate Faithful(rows: DailyTokens.Batch, reports: map<Day, Report>, o: Origin) {
    && (forall i | 0 <= i < |rows| :: CarriesSome(rows[i], reports, o))
    && (forall d, j | HasUsage(reports, d, j) && Unambiguous(reports[d]) :: IsCarried(d, reports[d].usage[j], rows, o))
  }

  lemma {:induction false} RowCarriesUsage(days: seq<Day>, n: nat, daily: map<Day, Payload>, o: Origin, i: nat)
    returns (k: nat, j: nat)
    requires n <= |days| && EachRequested(days, daily) && i < |RowsOf(days, n, daily, o)|
    ensures k < n && j < |daily[days[k]].entries|
    ensures Carries(RowsOf(days, n, daily, o)[i], days[k], daily[days[k]].entries[j].stats, o)
    ensures RowsOf(days, n, daily, o)[i].row.eventId == o.events(i)
  {
    var earlier := RowsOf(days, n - 1, daily, o);
    if i < |earlier| {
      k, j := RowCarriesUsage(days, n - 1, daily, o, i);
    } else {
      k, j := n - 1, i - |earlier|;
    }
  }

  lemma {:induction false} UsageIsCarried(days: seq<Day>, n: nat, daily: map<Day, Payload>, o: Origin, k: nat, j: nat)
    returns (i: nat)
    requires n <= |days| && EachRequested(days, daily) && k < n && j < |daily[days[k]].entries|
    ensures i < |RowsOf(days, n, daily, o)|
    ensures Carries(RowsOf(days, n, daily, o)[i], days[k], daily[days[k]].entries[j].stats, o)
  {
    if k < n - 1 {
      i := UsageIsCarried(days, n - 1, daily, o, k, j);
    } else {
      i := |RowsOf(days, n - 1, daily, o)| + j;
    }
  }

  lemma SafeRowsAreFaithful(reports: map<Day, Report>, safe: map<Day, Payload>, days: seq<Day>, o: Origin)
    requires safe == map d | d in reports && Unambiguous(reports[d]) :: ParseDaily(reports[d], d)
    requires forall i | 0 <= i < |days| :: days[i] in safe
    requires forall d :: d in days <==> d in safe
    ensures Faithful(RowsOf(days, |days|, safe, o), reports, o)
  {
    var rows := RowsOf(days, |days|, safe, o);
    forall i | 0 <= i < |rows| ensures CarriesSome(rows[i], reports, o) {
      var k, j := RowCarriesUsage(days, |days|, safe, o, i);
      assert HasUsage(reports, days[k], j);
    }
    forall d, j | HasUsage(reports, d, j) && Unambiguous(reports[d])
      ensures IsCarried(d, reports[d].usage[j], rows, o)
    {
      assert d in days;
      var k :| 0 <= k < |days| && days[k] == d;
      var i := UsageIsCarried(days, |days|, safe, o, k, j);
    }
  }

  function WithRow(t: Totals, row: DailyTokens.Row): Totals {
    var c := row.counts;
    Totals(
      t.input + DailyTokens.OrZero(c.input), t.output + DailyTokens.OrZero(c.output),
      t.cacheRead + DailyTokens.OrZero(c.cacheRead), t.cacheWrite + DailyTokens.OrZero(c.cacheWrite),
      t.messages + row.detail.messages, t.cost + row.detail.cost)
  }

  /** What the rows of one day add up to. */
  function SumsOf(rows: DailyTokens.Batch, day: Day): Totals {
    if rows == [] then Totals(0, 0, 0, 0, 0, 0.0)
    else
      var sums, last := SumsOf(rows[..|rows| - 1], day), rows[|rows| - 1];
      if last.key.day == day then WithRow(sums, last.row) else sums
  }

  /** What reconciliation compares with the declared totals. */
  function Added(entries: seq<DailyUsage>): Totals {
    Totals(Total(TotalInput, entries), Total(TotalOutput, entries), Total(TotalCacheRead, entries),
           Total(TotalCacheWrite, entries), Total(TotalMessages, entries), TotalCostOf(entries))
  }

  /** The sums are the declared totals, up to the tolerance for costs. */
  predicate AddUpTo(sums: Totals, t: Totals) {
    && sums.input == t.input && sums.output == t.output
    && sums.cacheRead == t.cacheRead && sums.cacheWrite == t.cacheWrite
    && sums.messages == t.messages
    && -0.00000001 <= sums.cost - t.cost <= 0.00000001
  }

  lemma LastRowAdds(init: DailyTokens.Batch, last: Entry<DailyTokens.Key, DailyTokens.Row>, day: Day)
    ensures SumsOf(init + [last], day)
         == if last.key.day == day then WithRow(SumsOf(init, day), last.row) else SumsOf(init, day)
  {
    assert (init + [last])[..|init|] == init;
  }

  lemma {:induction false} OtherRowsAddNothing(a: DailyTokens.Batch, b: DailyTokens.Batch, day: Day)
    requires forall e | e in b :: e.key.day != day
    ensures SumsOf(a + b, day) == SumsOf(a, day)
  {
    if b == [] {
      assert a + b == a;
    } else {
      var init, last := b[..|b| - 1], b[|b| - 1];
      OtherRowsAddNothing(a, init, day);
      LastRowAdds(a + init, last, day);
      assert a + b == a + init + [last];
    }
  }

  lemma OneMoreRowAdds(init: seq<DailyUsage>, u: DailyUsage, at: int, eventId: nat)
    ensures Added(init + [u]) == WithRow(Added(init), FactOf(u.stats, at, eventId))
  {
    assert (init + [u])[..|init|] == init;
  }

  lemma NextDayRow(before: DailyTokens.Batch, p: Payload, o: Origin, offset: nat, day: Day, n: nat)
    requires Requested(p, day) && n < |p.entries|
    requires SumsOf(before + RowsOfDay(p, o, offset)[..n], day) == Added(p.entries[..n])
    ensures SumsOf(before + RowsOfDay(p, o, offset)[..n + 1], day) == Added(p.entries[..n + 1])
  {
    var rows := RowsOfDay(p, o, offset);
    OneMoreRowAdds(p.entries[..n], p.entries[n], o.at, o.events(offset + n));
    LastRowAdds(before + rows[..n], rows[n], day);
    assert p.entries[..n + 1] == p.entries[..n] + [p.entries[n]];
    assert before + rows[..n + 1] == before + rows[..n] + [rows[n]];
  }

  /** A day's own rows add up to its usage. */
  lemma {:induction false} DayRowsAddUp(before: DailyTokens.Batch, p: Payload, o: Origin, offset: nat, day: Day, n: nat)
    requires Requested(p, day) && n <= |p.entries|
    requires forall e | e in before :: e.key.day != day
    ensures SumsOf(before + RowsOfDay(p, o, offset)[..n], day) == Added(p.entries[..n])
  {
    if n == 0 {
      assert before + RowsOfDay(p, o, offset)[..0] == [] + before;
      OtherRowsAddNothing([], before, day);
    } else {
      DayRowsAddUp(before, p, o, offset, day, n - 1);
      NextDayRow(before, p, o, offset, day, n - 1);
    }
  }

  lemma RowsOfOtherDays(days: seq<Day>, n: nat, daily: map<Day, Payload>, o: Origin, day: Day)
    requires n <= |days| && EachRequested(days, daily)
    requires forall i | 0 <= i < n :: days[i] != day
    ensures forall e | e in RowsOf(days, n, daily, o) :: e.key.day != day
  {
    forall e | e in RowsOf(days, n, daily, o) ensures e.key.day != day {
      var i :| 0 <= i < |RowsOf(days, n, daily, o)| && RowsOf(days, n, daily, o)[i] == e;
      var k, j := RowCarriesUsage(days, n, daily, o, i);
    }
  }

  lemma {:induction false} RowsAddUp(days: seq<Day>, n: nat, daily: map<Day, Payload>, o: Origin, k: nat)
    requires k < n <= |days| && Ascending(days) && EachRequested(days, daily)
    ensures SumsOf(RowsOf(days, n, daily, o), days[k]) == Added(daily[days[k]].entries)
  {
    var earlier, p := RowsOf(days, n - 1, daily, o), daily[days[n - 1]];
    var added := RowsOfDay(p, o, |earlier|);
    if k < n - 1 {
      RowsAddUp(days, n - 1, daily, o, k);
      OtherRowsAddNothing(earlier, added, days[k]);
    } else {
      RowsOfOtherDays(days, n - 1, daily, o, days[k]);
      DayRowsAddUp(earlier, p, o, |earlier|, days[k], |p.entries|);
      assert added[..|p.entries|] == added && p.entries[..|p.entries|] == p.entries;
    }
  }

  /** The checks of a payload's totals. */
  predicate OfTotals(check: Check) {
    check != DuplicateSessionModel && check != PerformanceRate
  }

  /** On every staged day the rows add up to the totals its payload declared exactly
      when no check of a total failed. */
  lemma StagedDayAddsUpExactly(days: seq<Day>, daily: map<Day, Payload>, o: Origin, k: nat, rateMismatch: Usage -> bool)
    requires k < |days| && Ascending(days) && EachRequested(days, daily)
    ensures AddUpTo(SumsOf(RowsOf(days, |days|, daily, o), days[k]), daily[days[k]].totals)
       <==> forall check | OfTotals(check) :: !Fails(check, daily[days[k]], rateMismatch)
  {
    RowsAddUp(days, |days|, daily, o, k);
    TotalsAgreeExactly(daily[days[k]], rateMismatch);
  }

  lemma TotalsAgreeExactly(p: Payload, rateMismatch: Usage -> bool)
    ensures AddUpTo(Added(p.entries), p.totals) <==> forall check | OfTotals(check) :: !Fails(check, p, rateMismatch)
  {
    if forall check | OfTotals(check) :: !Fails(check, p, rateMismatch) {
      assert OfTotals(TotalInput) && OfTotals(TotalOutput) && OfTotals(TotalCacheRead);
      assert OfTotals(TotalCacheWrite) && OfTotals(TotalMessages) && OfTotals(TotalCost);
    }
  }

  predicate NothingOn(captured: map<DailyTokens.Key, DailyTokens.Row>, day: Day) {
    forall k | k in captured :: k.day != day
  }

  /** Where nothing was captured for a day the pre-merge leaves its rows alone. */
  lemma {:induction false} UncapturedDayIsStaged(rows: DailyTokens.Batch, captured: map<DailyTokens.Key, DailyTokens.Row>, day: Day)
    requires DailyTokens.AllCounted(rows)
    requires NothingOn(captured, day)
    ensures SumsOf(DailyTokens.Prepared(rows, captured), day) == SumsOf(rows, day)
  {
    if rows != [] {
      var init, last := rows[..|rows| - 1], rows[|rows| - 1];
      assert rows == init + [last];
      UncapturedDayIsStaged(init, captured, day);
      var before := DailyTokens.Prepared(init, captured);
      var p := DailyTokens.Prepare(last.row, Get(captured, last.key));
      assert DailyTokens.Prepared(rows, captured) == before + if p.Some? then [Entry(last.key, p.value)] else [];
      if p.Some? {
        assert (before + [Entry(last.key, p.value)])[..|before|] == before;
      } else {
        assert before + [] == before;
      }
    }
  }

  lemma SafeDayAddsUp(
    reports: map<Day, Report>, safe: map<Day, Payload>, days: seq<Day>, o: Origin, rateMismatch: Usage -> bool, d: Day)
    requires forall i | 0 <= i < |days| :: days[i] in reports && days[i] in safe
    requires forall i | 0 <= i < |days| :: safe[days[i]] == ParseDaily(reports[days[i]], days[i])
    requires Ascending(days) && d in days
    requires forall check: Check :: !Fails(check, ParseDaily(reports[d], d), rateMismatch)
    ensures AddUpTo(SumsOf(RowsOf(days, |days|, safe, o), d), reports[d].totals)
  {
    var k :| 0 <= k < |days| && days[k] == d;
    StagedDayAddsUpExactly(days, safe, o, k, rateMismatch);
  }

  /** On an unaffected day the rows add up to what was declared, and so do the staged
      ones if the day is new. */
  ghost predicate DayAddsUp(
    rows: DailyTokens.Batch, captured: map<DailyTokens.Key, DailyTokens.Row>, reports: map<Day, Report>, d: Day)
    requires d in reports && DailyTokens.AllCounted(rows)
  {
    && AddUpTo(SumsOf(rows, d), reports[d].totals)
    && (NothingOn(captured, d) ==> AddUpTo(SumsOf(DailyTokens.Prepared(rows, captured), d), reports[d].totals))
  }

  ghost predicate Clean(report: Report, d: Day, rateMismatch: Usage -> bool) {
    forall check: Check :: !Fails(check, ParseDaily(report, d), rateMismatch)
  }

  lemma CleanDaysAddUp(
    reports: map<Day, Report>, safe: map<Day, Payload>, days: seq<Day>, o: Origin, rateMismatch: Usage -> bool,
    captured: map<DailyTokens.Key, DailyTokens.Row>)
    requires safe == map d | d in reports && Unambiguous(reports[d]) :: ParseDaily(reports[d], d)
    requires Ascending(days) && forall d :: d in days <==> d in safe
    requires forall i | 0 <= i < |days| :: days[i] in safe
    requires DailyTokens.AllCounted(RowsOf(days, |days|, safe, o))
    ensures forall d | d in reports && Unambiguous(reports[d]) && Clean(reports[d], d, rateMismatch) ::
      DayAddsUp(RowsOf(days, |days|, safe, o), captured, reports, d)
  {
    forall d | d in reports && Unambiguous(reports[d]) && Clean(reports[d], d, rateMismatch)
      ensures DayAddsUp(RowsOf(days, |days|, safe, o), captured, reports, d)
    {
      SafeDayAddsUp(reports, safe, days, o, rateMismatch, d);
      if NothingOn(captured, d) {
        UncapturedDayIsStaged(RowsOf(days, |days|, safe, o), captured, d);
      }
    }
  }

  lemma SafeAreUnambiguous(reports: map<Day, Report>, daily: map<Day, Payload>, ambiguous: set<Day>)
    requires daily == map d | d in reports :: ParseDaily(reports[d], d)
    requires forall d :: d in ambiguous <==> d in daily && !Distinct(Identities(daily[d].entries))
    ensures (map d | d in daily && d !in ambiguous :: daily[d])
         == map d | d in reports && Unambiguous(reports[d]) :: ParseDaily(reports[d], d)
  {
    forall d | d in reports ensures d in ambiguous <==> !Unambiguous(reports[d]) {
      ParsedIdentities(reports[d], d);
    }
  }

  /** Parse, reconcile, drop ambiguous days, normalize, pre-merge against the rows
      read at preflight, check.  The check never fires; what is staged is the
      pre-merge of exactly the usage on unambiguous days, whose rows add up to the
      declared totals on every day that need not be collected again. */
  method StageDailyStats(
    reports: map<Day, Report>, o: Origin, current: DailyTokens.Batch, rateMismatch: Usage -> bool)
    returns (staged: DailyTokens.Batch, check: Result<(), KeyError>, affected: set<Day>, ghost rows: DailyTokens.Batch)
    ensures check.Success? && DistinctKeys(staged)
    ensures DistinctKeys(rows) && DailyTokens.AllCounted(rows)
    ensures staged == DailyTokens.Prepared(rows, DailyTokens.Indexed(current))
    ensures forall k :: k in Keys(rows) <==> Stageable(reports, o.source, k)
    ensures Faithful(rows, reports, o)
    ensures forall d :: d in affected <==> d in reports && !Clean(reports[d], d, rateMismatch)
    ensures forall d | d in reports && Unambiguous(reports[d]) && d !in affected ::
      DayAddsUp(rows, DailyTokens.Indexed(current), reports, d)
  {
    var daily := map d | d in reports :: ParseDaily(reports[d], d);
    var issues, again, ambiguous := ReconcileAll(daily, rateMismatch);
    affected := again;
    var safe := map d | d in daily && d !in ambiguous :: daily[d];
    SafeAreUnambiguous(reports, daily, ambiguous);
    var normalized, days := DailyStatsRows(safe, o);
    SafeRows(reports, safe, days, o);
    SafeRowsAreFaithful(reports, safe, days, o);
    RowsAreCounted(days, |days|, safe, o);
    rows := normalized;
    staged := DailyTokens.PreserveDailyTokens(normalized, current);
    DailyTokens.PreparedKeepsKeysDistinct(rows, DailyTokens.Indexed(current));
    CleanDaysAddUp(reports, safe, days, o, rateMismatch, DailyTokens.Indexed(current));
    check := CheckKeys(staged, (k: DailyTokens.Key) => false);
  }
}
