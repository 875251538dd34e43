/** Tables whose winning row replaces the old one whole: prices, tags and notes
    (src/usagebassoon/backends/duckdb_local.py, `upsert`). */
module VersionLog {
  import opened Wrappers
  import opened ObservationOrder

  datatype Version = Version(rank: Observation, detail: string)

  predicate Replaced(t: StoredTable) {
    t.PriceVersions? || t.Tags? || t.Notes?
  }

  /** The row under one key after MERGE has applied `arrivals` one by one. */
  function Stored(t: StoredTable, arrivals: seq<Version>): Option<Version> {
    if arrivals == [] then None
    else
      var rest, last := Stored(t, arrivals[..|arrivals| - 1]), arrivals[|arrivals| - 1];
      if rest.None? || Newer(t, last.rank, rest.value.rank) then Some(last) else rest
  }

  /** `v` may be ranked first in a log of `arrivals` by the ORDER BY encoding. */
  ghost predicate RankedFirst(t: StoredTable, arrivals: seq<Version>, v: Version) {
    v in arrivals && forall u | u in arrivals :: !Precedes(OrderBy(t), u.rank, v.rank)
  }

  /** Event IDs are never reused for a different row. */
  ghost predicate EventsIdentify(arrivals: seq<Version>) {
    forall u, v | u in arrivals && v in arrivals && u.rank.eventId == v.rank.eventId :: u == v
  }

  lemma {:induction false} StoredIsRankedFirst(t: StoredTable, arrivals: seq<Version>)
    requires Replaced(t)
    ensures arrivals != [] ==> Stored(t, arrivals).Some? && RankedFirst(t, arrivals, Stored(t, arrivals).value)
  {
    if arrivals != [] {
      var init, last := arrivals[..|arrivals| - 1], arrivals[|arrivals| - 1];
      assert arrivals == init + [last];
      var keys := OrderBy(t);
      if init == [] {
        PrecedesIsTotal(keys, last.rank, last.rank);
      } else {
        StoredIsRankedFirst(t, init);
        var kept := Stored(t, init).value;
        EncodingsAgree(t, last.rank, kept.rank);
        PrecedesIsTotal(keys, last.rank, kept.rank);
        PrecedesIsTotal(keys, last.rank, last.rank);
        if Newer(t, last.rank, kept.rank) {
          forall u | u in init ensures !Precedes(keys, u.rank, last.rank) {
            PrecedesIsTransitive(keys, last.rank, kept.rank, u.rank);
          }
        }
      }
    }
  }

  /** In whatever order, and however often, observations arrive: the row MERGE
      keeps is the one and only row the append-only log can rank first. */
  lemma LogRefinesReplacement(t: StoredTable, arrivals: seq<Version>, v: Version)
    requires Replaced(t)
    requires EventsIdentify(arrivals)
    ensures RankedFirst(t, arrivals, v) <==> Stored(t, arrivals) == Some(v)
  {
    StoredIsRankedFirst(t, arrivals);
    if RankedFirst(t, arrivals, v) {
      var kept := Stored(t, arrivals).value;
      PrecedesIsTotal(OrderBy(t), v.rank, kept.rank);
      var keys := OrderBy(t);
      assert keys[|keys| - 1] == EventIdDesc;
    }
  }

  /** Equal sets of observations end in the same row. */
  lemma ReplacementConverges(t: StoredTable, a: seq<Version>, b: seq<Version>)
    requires Replaced(t)
    requires EventsIdentify(a)
    requires forall v :: v in a <==> v in b
    ensures Stored(t, a) == Stored(t, b)
  {
    assert a == [] <==> b == [] by {
      if a != [] { assert a[0] in a; }
      if b != [] { assert b[0] in b; }
    }
    if a != [] {
      StoredIsRankedFirst(t, a);
      var v := Stored(t, a).value;
      assert RankedFirst(t, b, v);
      assert EventsIdentify(b);
      LogRefinesReplacement(t, b, v);
    }
  }
}
