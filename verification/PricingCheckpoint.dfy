/** The write-ahead custom-pricing checkpoint
    (src/usagebassoon/collector.py, `TokscaleProfile`, `_read_pricing_state`,
    `_write_pricing_state`). */
module PricingCheckpoint {
  import opened Wrappers

  type Model = string
  type Target = string

  /** Collection start times, counted from the earliest representable one. */
  datatype Checkpoint = Checkpoint(present: Option<bool>, models: set<Model>, pending: set<Model>, observedAt: nat)

  const BLANK: Checkpoint := Checkpoint(None, {}, {}, 0)

  datatype Entry = Malformed | Recorded(checkpoint: Checkpoint)

  datatype Catalog = Missing | Unreadable | Targets(targets: map<Target, Entry>)

  function TargetsOf(c: Catalog): map<Target, Entry> {
    if c.Targets? then c.targets else map[]
  }

  function ReadState(c: Catalog, target: Target): Checkpoint {
    if target in TargetsOf(c) && TargetsOf(c)[target].Recorded? then TargetsOf(c)[target].checkpoint else BLANK
  }

  function WriteState(c: Catalog, target: Target, state: Checkpoint): Catalog {
    if ReadState(c, target).observedAt > state.observedAt then c
    else Targets(TargetsOf(c)[target := Recorded(state)])
  }

  /** A later observation is never replaced, an equal or earlier one is, and in a
      readable catalog no other destination is touched. */
  lemma WriteIsOrderedAndScoped(c: Catalog, target: Target, state: Checkpoint, other: Target)
    ensures var n := WriteState(c, target, state);
      && ReadState(n, target).observedAt >= ReadState(c, target).observedAt
      && (ReadState(n, target) == state
          <==> ReadState(c, target).observedAt <= state.observedAt || ReadState(c, target) == state)
      && (other != target ==> ReadState(n, other) == ReadState(c, other))
      && (c.Targets? ==> n.Targets? && n.targets - {target} == c.targets - {target})
  {
  }

  // ----- the profile of one run -----

  class CatalogFile {
    var content: Catalog

    constructor (content: Catalog)
      ensures this.content == content
    {
      this.content := content;
    }
  }

  datatype Price = Price(source: string)

  type Prices = map<int, map<Model, Price>>

  predicate Priced(prices: Prices, d: int, m: Model) {
    d in prices && m in prices[d]
  }

  predicate PartOf(kept: map<Model, Price>, prices: map<Model, Price>) {
    kept.Keys <= prices.Keys && forall m | m in kept :: kept[m] == prices[m]
  }

  function RefreshSet(state: Checkpoint, customPresent: bool, known: set<Model>): set<Model> {
    state.pending
    + if state.present == Some(customPresent) then {} else if customPresent then known else state.models
  }

  class Profile {
    const file: CatalogFile
    const target: Target
    const customPresent: bool
    var state: Checkpoint
    var refreshModels: set<Model>
    var ignoredModels: set<Model>

    constructor (file: CatalogFile, target: Target, customPresent: bool, observedAt: nat)
      ensures this.file == file && this.target == target && this.customPresent == customPresent
      ensures state == ReadState(file.content, target).(observedAt := observedAt)
      ensures refreshModels == {} && ignoredModels == {}
    {
      this.file, this.target, this.customPresent := file, target, customPresent;
      state := ReadState(file.content, target).(observedAt := observedAt);
      refreshModels, ignoredModels := {}, {};
    }

    /** The intent is on disk before any affected price can be published. */
    method PreparePrices(known: set<Model>, recovered: set<Model>) returns (refresh: set<Model>)
      modifies this, file
      ensures refresh == refreshModels == RefreshSet(old(state).(models := old(state).models + recovered), customPresent, known)
      ensures state == old(state).(models := old(state).models + recovered, pending := refresh)
      ensures file.content == WriteState(old(file.content), target, state)
      ensures ignoredModels == old(ignoredModels)
    {
      state := state.(models := state.models + recovered);
      refresh := state.pending;
      if state.present != Some(customPresent) {
        refresh := refresh + if customPresent then known else state.models;
      }
      refreshModels := refresh;
      state := state.(pending := state.pending + refresh);
      file.content := WriteState(file.content, target, state);
    }

    /** An automatic price fetched only because custom pricing appeared, for a
        model it does not concern and a day already priced. */
    predicate Unaffected(day: int, model: Model, price: Price, existing: map<int, set<Model>>, needed: set<Model>)
      reads this
    {
      && customPresent && model in refreshModels && model !in state.models && model !in needed
      && day in existing && model in existing[day] && price.source != "Custom"
    }

    /** Without the custom file nothing is dropped.  With it, what is dropped is no
        custom price, belongs to no model that is needed or recorded as custom-priced,
        and is for a day on which its model is priced; every other price fetched
        because of the refresh is dropped. */
    method FilterPrices(prices: Prices, existing: map<int, set<Model>>, needed: set<Model>) returns (kept: Prices)
      modifies this, file
      ensures kept.Keys == prices.Keys
      ensures forall d | d in prices :: PartOf(kept[d], prices[d])
      ensures !customPresent ==> kept == prices
      ensures forall d, m | Priced(prices, d, m) && m !in kept[d] ::
        && prices[d][m].source != "Custom" && m !in needed && m !in old(state).models
        && d in existing && m in existing[d] && m in refreshModels
      ensures customPresent ==> (forall d, m | Priced(prices, d, m) && m in kept[d] ::
        || prices[d][m].source == "Custom" || m in needed || m in old(state).models
        || d !in existing || m !in existing[d] || m !in refreshModels)
      ensures forall m ::
        m in ignoredModels <==> m in old(ignoredModels) || exists d :: Priced(prices, d, m) && m !in kept[d]
      ensures state == old(state).(pending := old(state).pending - ignoredModels)
      ensures refreshModels == old(refreshModels)
      ensures file.content == WriteState(old(file.content), target, state)
    {
      kept := map d | d in prices ::
        map m | m in prices[d] && !Unaffected(d, m, prices[d][m], existing, needed) :: prices[d][m];
      var skipped := set d, m | d in prices && m in prices[d] && Unaffected(d, m, prices[d][m], existing, needed) :: m;
      if !customPresent {
        assert forall d | d in prices :: kept[d] == prices[d];
      }
      ignoredModels := ignoredModels + skipped;
      state := state.(pending := state.pending - ignoredModels);
      file.content := WriteState(file.content, target, state);
    }

    method AcknowledgePrices(published: set<Model>, custom: set<Model>)
      modifies this, file
      ensures state == Acknowledged(old(state), customPresent, published, custom)
      ensures refreshModels == old(refreshModels) && ignoredModels == old(ignoredModels)
      ensures file.content == WriteState(old(file.content), target, state)
    {
      state := state.(pending := state.pending - published, models := state.models + custom);
      if state.pending == {} {
        state := state.(present := Some(customPresent));
        if !customPresent {
          state := state.(models := {});
        }
      }
      file.content := WriteState(file.content, target, state);
    }
  }

  function Acknowledged(s: Checkpoint, customPresent: bool, published: set<Model>, custom: set<Model>): Checkpoint {
    var t := s.(pending := s.pending - published, models := s.models + custom);
    if t.pending != {} then t
    else t.(present := Some(customPresent), models := if customPresent then t.models else {})
  }

  // ----- runs that may crash anywhere -----

  datatype CrashPoint = BeforePrepare | BeforeFilter | BeforePublish | BeforeAcknowledge | Never

  /** `ignored` are the models the filter drops, `published` those whose prices
      the backend accepted. */
  datatype Run = Run(
    observedAt: nat, customPresent: bool, known: set<Model>, recovered: set<Model>,
    ignored: set<Model>, published: set<Model>, custom: set<Model>, crash: CrashPoint)

  predicate Publishes(r: Run) {
    r.crash.BeforeAcknowledge? || r.crash.Never?
  }

  function PreparedFrom(s: Checkpoint, r: Run): Checkpoint {
    var recovered := s.(observedAt := r.observedAt, models := s.models + r.recovered);
    recovered.(pending := RefreshSet(recovered, r.customPresent, r.known))
  }

  function Prepared(c: Catalog, target: Target, r: Run): Checkpoint {
    PreparedFrom(ReadState(c, target), r)
  }

  function Refresh(c: Catalog, target: Target, r: Run): set<Model> {
    Prepared(c, target, r).pending
  }

  function AfterRun(c: Catalog, target: Target, r: Run): Catalog {
    if r.crash.BeforePrepare? then c
    else
      var prepared := Prepared(c, target, r);
      var c1 := WriteState(c, target, prepared);
      if r.crash.BeforeFilter? then c1
      else
        var filtered := prepared.(pending := prepared.pending - r.ignored);
        var c2 := WriteState(c1, target, filtered);
        if !r.crash.Never? then c2
        else WriteState(c2, target, Acknowledged(filtered, r.customPresent, r.published, r.custom))
  }

  /** Every fetched price names the custom file as its source exactly when the file is
      there and lists its model. */
  ghost predicate FollowFile(prices: Prices, customPresent: bool, listed: set<Model>) {
    forall d, m | Priced(prices, d, m) :: prices[d][m].source == "Custom" <==> customPresent && m in listed
  }

  /** The custom prices of a run are those of listed models, and it ignores the prices
      of none of them; without the file it has no custom price and ignores nothing. */
  predicate GivenByFile(r: Run, listed: set<Model>) {
    && r.custom == (if r.customPresent then r.published * listed else {})
    && (if r.customPresent then r.ignored !! listed else r.ignored == {})
  }

  /** The models of the prices that meet the contract and parse. */
  function Published(prices: Prices, parsed: set<(int, Model)>): (models: set<Model>)
    ensures forall m :: m in models <==> exists d :: Priced(prices, d, m) && (d, m) in parsed
  {
    set d, m | d in prices && m in prices[d] && (d, m) in parsed :: m
  }

  function CustomOf(prices: Prices, parsed: set<(int, Model)>): (models: set<Model>)
    ensures forall m ::
      m in models <==> exists d :: Priced(prices, d, m) && (d, m) in parsed && prices[d][m].source == "Custom"
  {
    set d, m | d in prices && m in prices[d] && (d, m) in parsed && prices[d][m].source == "Custom" :: m
  }

  lemma CustomIsListed(prices: Prices, parsed: set<(int, Model)>, customPresent: bool, listed: set<Model>)
    requires FollowFile(prices, customPresent, listed)
    ensures CustomOf(prices, parsed) == if customPresent then Published(prices, parsed) * listed else {}
  {
    forall m | m in CustomOf(prices, parsed) ensures m in Published(prices, parsed) && customPresent && m in listed {
      var d :| Priced(prices, d, m) && (d, m) in parsed && prices[d][m].source == "Custom";
    }
    forall m | m in Published(prices, parsed) && customPresent && m in listed ensures m in CustomOf(prices, parsed) {
      var d :| Priced(prices, d, m) && (d, m) in parsed;
      assert prices[d][m].source == "Custom";
    }
  }

  /** The methods above, called in order and cut off at the crash point, make exactly
      such a run; and if the fetched prices follow the file, so does the run. */
  method Collect(
    file: CatalogFile, target: Target, r: Run, prices: Prices, existing: map<int, set<Model>>, needed: set<Model>,
    parsed: set<(int, Model)>)
    returns (done: Run, kept: Prices)
    modifies file
    ensures done == r.(ignored := done.ignored, published := done.published, custom := done.custom)
    ensures file.content == AfterRun(old(file.content), target, done)
    ensures forall listed :: FollowFile(prices, r.customPresent, listed) ==> GivenByFile(done, listed)
    ensures forall m :: m in done.ignored ==> r.customPresent && m in Refresh(old(file.content), target, r)
    ensures forall m :: m in done.ignored ==> m !in Prepared(old(file.content), target, r).models && m !in needed
    ensures Publishes(r) ==> done.published == Published(kept, parsed) && done.custom == CustomOf(kept, parsed)
    ensures Publishes(r) ==> kept.Keys == prices.Keys && forall d | d in prices :: PartOf(kept[d], prices[d])
    ensures Publishes(r) ==> forall m :: m in done.ignored <==> exists d :: Priced(prices, d, m) && m !in kept[d]
  {
    done, kept := r.(ignored := {}, published := {}, custom := {}), map[];
    if r.crash.BeforePrepare? {
      return;
    }
    var profile := new Profile(file, target, r.customPresent, r.observedAt);
    var refresh := profile.PreparePrices(r.known, r.recovered);
    if r.crash.BeforeFilter? {
      return;
    }
    kept := profile.FilterPrices(prices, existing, needed);
    done := done.(ignored := profile.ignoredModels);
    if r.crash.BeforePublish? {
      return;
    }
    forall listed | FollowFile(prices, r.customPresent, listed) ensures FollowFile(kept, r.customPresent, listed) {
      assert forall d | d in kept :: PartOf(kept[d], prices[d]);
    }
    forall listed | FollowFile(kept, r.customPresent, listed)
      ensures CustomOf(kept, parsed) == if r.customPresent then Published(kept, parsed) * listed else {}
    {
      CustomIsListed(kept, parsed, r.customPresent, listed);
    }
    done := done.(published := Published(kept, parsed), custom := CustomOf(kept, parsed));
    if r.crash.BeforeAcknowledge? {
      return;
    }
    profile.AcknowledgePrices(done.published, done.custom);
  }

  /** The checkpoint of this destination accepts the run's writes. */
  predicate Accepted(c: Catalog, target: Target, r: Run) {
    ReadState(c, target).observedAt <= r.observedAt
  }

  /** Presence moves only at the end of an uninterrupted run, and exactly when
      every model of its refresh set was published or filtered. */
  lemma PresenceAdvancesExactly(c: Catalog, target: Target, r: Run)
    requires Accepted(c, target, r)
    ensures ReadState(AfterRun(c, target, r), target).present
         == if r.crash.Never? && Refresh(c, target, r) <= r.ignored + r.published
            then Some(r.customPresent) else ReadState(c, target).present
  {
    var left := Refresh(c, target, r) - r.ignored - r.published;
    assert forall m :: m in left <==> m in Refresh(c, target, r) && m !in r.ignored && m !in r.published;
    assert left == {} <==> Refresh(c, target, r) <= r.ignored + r.published by {
      if Refresh(c, target, r) <= r.ignored + r.published {
        assert forall m :: m !in left;
      }
    }
  }

  /** What a crash leaves owed: refresh models neither filtered nor published yet. */
  function StillOwed(c: Catalog, target: Target, owed: set<Model>, r: Run): set<Model> {
    match r.crash
    case BeforePrepare => owed
    case BeforeFilter => owed + Refresh(c, target, r)
    case BeforePublish => owed + Refresh(c, target, r) - r.ignored
    case BeforeAcknowledge => owed + Refresh(c, target, r) - r.ignored - r.published
    case Never => owed + Refresh(c, target, r) - r.ignored - r.published
  }

  function CatalogAfter(c: Catalog, target: Target, runs: seq<Run>): Catalog {
    if runs == [] then c else AfterRun(CatalogAfter(c, target, runs[..|runs| - 1]), target, runs[|runs| - 1])
  }

  function OwedAfter(c: Catalog, target: Target, runs: seq<Run>): set<Model> {
    if runs == [] then {}
    else
      var init := runs[..|runs| - 1];
      StillOwed(CatalogAfter(c, target, init), target, OwedAfter(c, target, init), runs[|runs| - 1])
  }

  ghost predicate AllAccepted(c: Catalog, target: Target, runs: seq<Run>) {
    forall i | 0 <= i < |runs| :: Accepted(CatalogAfter(c, target, runs[..i]), target, runs[i])
  }

  /** Over any history of runs and crashes, every owed model is in the persisted
      pending set, so whatever run comes next refreshes it. */
  lemma {:induction false} OwedModelsArePersisted(c: Catalog, target: Target, runs: seq<Run>, next: Run)
    requires AllAccepted(c, target, runs)
    ensures OwedAfter(c, target, runs) <= ReadState(CatalogAfter(c, target, runs), target).pending
    ensures OwedAfter(c, target, runs) <= Refresh(CatalogAfter(c, target, runs), target, next)
  {
    if runs != [] {
      var init, last := runs[..|runs| - 1], runs[|runs| - 1];
      forall i | 0 <= i < |init| ensures Accepted(CatalogAfter(c, target, init[..i]), target, init[i]) {
        assert init[..i] == runs[..i];
      }
      OwedModelsArePersisted(c, target, init, last);
      assert runs[..|init|] == init;
      StateIsRead(CatalogAfter(c, target, init), target, last);
    }
  }

  // ----- which prices an ordinary run repairs -----

  /** A run without custom pricing refreshes every model recorded as custom-priced
      exactly when presence was not already recorded as absent, or they all were
      pending anyway. */
  lemma OffRunRevertsExactly(c: Catalog, target: Target, r: Run)
    requires !r.customPresent
    ensures Prepared(c, target, r).models <= Refresh(c, target, r)
       <==> ReadState(c, target).present != Some(false)
            || ReadState(c, target).models + r.recovered <= ReadState(c, target).pending
  {
  }

  /** A run with custom pricing refreshes every known model exactly when presence
      was not already recorded, or they all were pending anyway. */
  lemma OnRunReappliesExactly(c: Catalog, target: Target, r: Run)
    requires r.customPresent
    ensures r.known <= Refresh(c, target, r)
       <==> ReadState(c, target).present != Some(true) || r.known <= ReadState(c, target).pending
  {
  }

  /** So a file that was turned on, seen for one model only, and turned off again
      keeps that model's custom price: the off run does not refresh it. */
  lemma InterruptedOnRunIsNotReverted()
    ensures exists c, target, on: Run, off: Run, m ::
      && on.customPresent && !off.customPresent && AllAccepted(c, target, [on, off])
      && m in on.published && m in on.custom
      && m in Prepared(AfterRun(c, target, on), target, off).models
      && m !in Refresh(AfterRun(c, target, on), target, off)
  {
    var c := Targets(map["t" := Recorded(Checkpoint(Some(false), {}, {}, 0))]);
    var on := Run(1, true, {"a", "b"}, {}, {}, {"a"}, {"a"}, Never);
    var off := Run(2, false, {"a", "b"}, {}, {}, {}, {}, Never);
    assert [on, off][..0] == [] && [on, off][..1] == [on] && [on][..0] == [];
    assert "b" in {"a", "b"} - {} - {"a"};
    assert ReadState(AfterRun(c, "t", on), "t") == Checkpoint(Some(false), {"a"}, {"b"}, 1);
    assert "a" !in Refresh(AfterRun(c, "t", on), "t", off);
    assert AllAccepted(c, "t", [on, off]);
  }

  /** And a file that was turned off, seen for one model only, and turned on again
      leaves that model's automatic price: the on run does not refresh it. */
  lemma InterruptedOffRunIsNotReapplied()
    ensures exists c, target, off: Run, on: Run, m ::
      && !off.customPresent && on.customPresent && AllAccepted(c, target, [off, on])
      && m in ReadState(c, target).models && m in off.published && m !in off.custom
      && m in on.known
      && m !in Refresh(AfterRun(c, target, off), target, on)
  {
    var c := Targets(map["t" := Recorded(Checkpoint(Some(true), {"a", "b"}, {}, 0))]);
    var off := Run(1, false, {"a", "b"}, {}, {}, {"a"}, {}, Never);
    var on := Run(2, true, {"a", "b"}, {}, {}, {}, {}, Never);
    assert [off, on][..0] == [] && [off, on][..1] == [off] && [off][..0] == [];
    assert "b" in {"a", "b"} - {} - {"a"};
    assert ReadState(AfterRun(c, "t", off), "t") == Checkpoint(Some(true), {"a", "b"}, {"b"}, 1);
    assert "a" !in Refresh(AfterRun(c, "t", off), "t", on);
    assert AllAccepted(c, "t", [off, on]);
  }

  // ----- prices over whole histories -----

  /** Of every priced model: whether its last published price is a custom one. */
  type Sources = map<Model, bool>

  function SourcesAfter(prices: Sources, r: Run): Sources {
    if Publishes(r) then map m | m in prices.Keys + r.published :: if m in r.published then m in r.custom else prices[m]
    else prices
  }

  function CustomIn(prices: Sources): set<Model> {
    set m | m in prices && prices[m]
  }

  /** The models whose last price is not what the file, as `present` says, gives. */
  function Wrong(prices: Sources, listed: set<Model>, present: bool): set<Model> {
    set m | m in prices && prices[m] != (present && m in listed)
  }

  function StateAfter(s: Checkpoint, r: Run): Checkpoint {
    var prepared := PreparedFrom(s, r);
    var filtered := prepared.(pending := prepared.pending - r.ignored);
    match r.crash
    case BeforePrepare => s
    case BeforeFilter => prepared
    case BeforePublish => filtered
    case BeforeAcknowledge => filtered
    case Never => Acknowledged(filtered, r.customPresent, r.published, r.custom)
  }

  lemma StateIsRead(c: Catalog, target: Target, r: Run)
    requires Accepted(c, target, r)
    ensures ReadState(AfterRun(c, target, r), target) == StateAfter(ReadState(c, target), r)
  {
  }

  /** The checkpoint, the prices, the models that strayed and those that are missed.
      A model strayed when it was published by a run that saw the opposite of the
      recorded presence, and not since by a run that agreed.  Missed are custom
      models that a checkpoint with recorded presence and nothing pending does not
      know: nothing makes a run without the file refresh them. */
  datatype World = World(checkpoint: Checkpoint, prices: Sources, strayed: set<Model>, missed: set<Model>)

  function PublishedBy(r: Run): set<Model> {
    if Publishes(r) then r.published else {}
  }

  /** Presence is recorded and nothing is pending: stored custom models are not
      looked up again. */
  predicate Trusting(s: Checkpoint) {
    s.present == Some(true) && s.pending == {}
  }

  function MissedAfter(w: World, r: Run): set<Model> {
    var state := StateAfter(w.checkpoint, r);
    var before := if Trusting(w.checkpoint) then w.missed - PublishedBy(r) else {};
    if Trusting(state) then before + (if Publishes(r) then r.custom else {}) - state.models else {}
  }

  /** A completed change to absence leaves the missed models behind. */
  function StrayedAfter(w: World, r: Run): set<Model> {
    if w.checkpoint.present == Some(r.customPresent) then w.strayed - PublishedBy(r)
    else if StateAfter(w.checkpoint, r).present == Some(r.customPresent) then w.missed - r.published
    else w.strayed + PublishedBy(r)
  }

  function After(w: World, r: Run): World {
    World(StateAfter(w.checkpoint, r), SourcesAfter(w.prices, r), StrayedAfter(w, r), MissedAfter(w, r))
  }

  function Worlds(w: World, runs: seq<Run>): World {
    if runs == [] then w else After(Worlds(w, runs[..|runs| - 1]), runs[|runs| - 1])
  }

  /** Where a run's data come from, while the file lists `listed` whenever it is
      there: prices follow it, every priced model is known, and without a presence or
      with models pending the stored custom models are recovered. */
  predicate Sourced(w: World, listed: set<Model>, r: Run) {
    && GivenByFile(r, listed)
    && w.prices.Keys <= r.known
    && (w.checkpoint.present.None? || w.checkpoint.pending != {} ==> CustomIn(w.prices) <= r.recovered)
  }

  ghost predicate Settled(w: World, listed: set<Model>) {
    && CustomIn(w.prices) <= listed && w.strayed <= w.prices.Keys && w.missed <= CustomIn(w.prices)
    && (if Trusting(w.checkpoint) then CustomIn(w.prices) <= w.checkpoint.models + w.missed else w.missed == {})
    && (w.checkpoint.present.Some? ==> Wrong(w.prices, listed, w.checkpoint.present.value) == w.strayed * listed)
  }

  /** Once recovered, the checkpoint knows every custom price but the missed, unless
      absence is recorded with nothing pending. */
  lemma PreparedKnowsCustom(w: World, listed: set<Model>, r: Run)
    requires Settled(w, listed) && Sourced(w, listed, r)
    requires w.checkpoint.present != Some(false) || w.checkpoint.pending != {}
    ensures CustomIn(w.prices) <= PreparedFrom(w.checkpoint, r).models + w.missed
  {
  }

  /** A completed change of presence leaves right every price but those of missed
      models, which stay custom if absence is now recorded. */
  lemma CompletedFlipSettles(w: World, listed: set<Model>, r: Run)
    requires Settled(w, listed) && Sourced(w, listed, r)
    requires r.crash.Never? && w.checkpoint.present != Some(r.customPresent)
    requires StateAfter(w.checkpoint, r).present == Some(r.customPresent)
    ensures forall m | m in After(w, r).prices ::
      After(w, r).prices[m] == ((r.customPresent && m in listed) || m in After(w, r).strayed)
    ensures r.customPresent ==> CustomIn(After(w, r).prices) <= After(w, r).checkpoint.models && w.missed == {}
  {
    var n, prepared := After(w, r), PreparedFrom(w.checkpoint, r);
    forall m | m in prepared.pending ensures m in r.ignored || m in r.published {
      assert m in prepared.pending - r.ignored - r.published || m in r.ignored || m in r.published;
    }
    if !r.customPresent {
      PreparedKnowsCustom(w, listed, r);
    }
    forall m | m in n.prices ensures n.prices[m] == ((r.customPresent && m in listed) || m in n.strayed) {
      if m !in r.published {
        assert m in w.prices && n.prices[m] == w.prices[m];
        assert w.prices[m] <==> m in CustomIn(w.prices);
      }
    }
  }

  lemma CustomAfter(w: World, r: Run)
    requires r.custom <= r.published
    ensures var n := After(w, r);
      CustomIn(n.prices) == CustomIn(w.prices) - PublishedBy(r) + if Publishes(r) then r.custom else {}
  {
  }

  lemma MissedStayMissed(w: World, listed: set<Model>, r: Run)
    requires Settled(w, listed) && Sourced(w, listed, r)
    requires w.checkpoint.present != Some(true) ==> !Trusting(StateAfter(w.checkpoint, r))
    ensures var n := After(w, r);
      && n.missed <= CustomIn(n.prices)
      && (if Trusting(n.checkpoint) then CustomIn(n.prices) <= n.checkpoint.models + n.missed else n.missed == {})
  {
    CustomAfter(w, r);
    if w.checkpoint.present == Some(true) {
      PreparedKnowsCustom(w, listed, r);
    }
  }

  lemma UnfinishedRunSettles(w: World, listed: set<Model>, r: Run)
    requires Settled(w, listed) && Sourced(w, listed, r)
    requires StateAfter(w.checkpoint, r).present == w.checkpoint.present
    ensures Settled(After(w, r), listed)
  {
    var n, present := After(w, r), w.checkpoint.present;
    CustomAfter(w, r);
    MissedStayMissed(w, listed, r);
    if present.Some? {
      forall m ensures m in Wrong(n.prices, listed, present.value) <==> m in n.strayed * listed {
        if !(Publishes(r) && m in r.published) {
          assert m in Wrong(w.prices, listed, present.value) <==> m in w.strayed * listed;
        }
      }
    }
  }

  lemma StepStaysSettled(w: World, listed: set<Model>, r: Run)
    requires Settled(w, listed) && Sourced(w, listed, r)
    ensures Settled(After(w, r), listed)
  {
    if StateAfter(w.checkpoint, r).present == w.checkpoint.present {
      UnfinishedRunSettles(w, listed, r);
    } else {
      CompletedFlipSettles(w, listed, r);
      CustomAfter(w, r);
      var n := After(w, r);
      forall m ensures m in Wrong(n.prices, listed, r.customPresent) <==> m in n.strayed * listed {
      }
    }
  }

  ghost predicate Ordinary(w: World, listed: set<Model>, runs: seq<Run>) {
    forall i | 0 <= i < |runs| :: Sourced(Worlds(w, runs[..i]), listed, runs[i])
  }

  lemma {:induction false} HistoryStaysSettled(w: World, listed: set<Model>, runs: seq<Run>)
    requires Settled(w, listed) && Ordinary(w, listed, runs)
    ensures Settled(Worlds(w, runs), listed)
  {
    if runs != [] {
      var init, last := runs[..|runs| - 1], runs[|runs| - 1];
      forall i | 0 <= i < |init|
        ensures Sourced(Worlds(w, init[..i]), listed, init[i])
      {
        assert init[..i] == runs[..i];
      }
      HistoryStaysSettled(w, listed, init);
      StepStaysSettled(Worlds(w, init), listed, last);
    }
  }

  /** From a missing checkpoint on, over any runs and crash points: the models whose
      last published price disagrees with the recorded presence are exactly the
      listed ones that strayed.  So prices agree with the recorded presence exactly
      when no change of presence was abandoned after publishing a listed model, and
      none to absence completed past a missed one, that no agreeing run has published
      since. */
  lemma {:induction false} StrayedExactly(prices: Sources, listed: set<Model>, runs: seq<Run>)
    requires CustomIn(prices) <= listed
    requires Ordinary(World(BLANK, prices, {}, {}), listed, runs)
    requires Worlds(World(BLANK, prices, {}, {}), runs).checkpoint.present.Some?
    ensures var w := Worlds(World(BLANK, prices, {}, {}), runs);
      && Wrong(w.prices, listed, w.checkpoint.present.value) == w.strayed * listed
      && ((forall m | m in w.prices :: w.prices[m] == (w.checkpoint.present.value && m in listed)) <==> w.strayed !! listed)
  {
    HistoryStaysSettled(World(BLANK, prices, {}, {}), listed, runs);
    SettledAgrees(Worlds(World(BLANK, prices, {}, {}), runs), listed);
  }

  lemma SettledAgrees(w: World, listed: set<Model>)
    requires Settled(w, listed) && w.checkpoint.present.Some?
    ensures (forall m | m in w.prices :: w.prices[m] == (w.checkpoint.present.value && m in listed)) <==> w.strayed !! listed
  {
    var wrong := Wrong(w.prices, listed, w.checkpoint.present.value);
    assert wrong == w.strayed * listed;
    forall m ensures m in wrong <==> m in w.strayed && m in listed {
    }
    if wrong == {} {
      forall m | m in w.strayed ensures m !in listed {
        assert m !in wrong;
      }
    }
    NoneWrong(w.prices, listed, w.checkpoint.present.value);
  }

  lemma NoneWrong(prices: Sources, listed: set<Model>, present: bool)
    ensures Wrong(prices, listed, present) == {} <==> forall m | m in prices :: prices[m] == (present && m in listed)
  {
    forall m | m in prices ensures m in Wrong(prices, listed, present) <==> prices[m] != (present && m in listed) {
    }
    if forall m | m in prices :: prices[m] == (present && m in listed) {
      forall m ensures m !in Wrong(prices, listed, present) {
      }
    }
  }

  /** The worlds follow the catalog file. */
  lemma {:induction false} WorldsFollowCatalog(c: Catalog, target: Target, prices: Sources, runs: seq<Run>)
    requires AllAccepted(c, target, runs)
    ensures Worlds(World(ReadState(c, target), prices, {}, {}), runs).checkpoint == ReadState(CatalogAfter(c, target, runs), target)
  {
    if runs != [] {
      var init, last := runs[..|runs| - 1], runs[|runs| - 1];
      forall i | 0 <= i < |init| ensures Accepted(CatalogAfter(c, target, init[..i]), target, init[i]) {
        assert init[..i] == runs[..i];
      }
      WorldsFollowCatalog(c, target, prices, init);
      assert runs[..|init|] == init;
      StateIsRead(CatalogAfter(c, target, init), target, last);
    }
  }

  /** So a custom price published next to an empty refresh set and not acknowledged is
      missed, and is not reverted when the file disappears. */
  lemma LostAcknowledgementIsNotReverted() returns (w: World, listed: set<Model>, crashed: Run, off: Run)
    ensures Settled(w, listed) && w.strayed == w.missed == {} && Sourced(w, listed, crashed)
    ensures After(w, crashed).missed != {}
    ensures Sourced(After(w, crashed), listed, off) && !off.customPresent
    ensures var n := After(After(w, crashed), off);
      n.checkpoint.present == Some(false) && n.checkpoint.pending == {} && n.strayed == CustomIn(n.prices) != {}
  {
    listed := {"a", "b"};
    w := World(Checkpoint(Some(true), {"a"}, {}, 0), map["a" := true], {}, {});
    crashed := Run(1, true, {"a", "b"}, {}, {}, {"b"}, {"b"}, BeforeAcknowledge);
    off := Run(2, false, {"a", "b"}, {}, {}, {"a"}, {}, Never);
    assert {"b"} * listed == {"b"};
    assert After(w, crashed) == World(Checkpoint(Some(true), {"a"}, {}, 1), map["a" := true, "b" := true], {}, {"b"});
    var n := After(After(w, crashed), off);
    assert n.checkpoint == Checkpoint(Some(false), {}, {}, 2);
    assert n.strayed == {"b"} == CustomIn(n.prices);
  }
}
