/**
 * Choosing the next feed entry to auto-publish (src/autouploader/main.go).
 *
 * Entries already published on the platform are dropped; among the rest, the
 * dated entry whose month/day/time is closest to now (ignoring the year) is
 * found with a strict `<` scan, and the pick is drawn from every remaining
 * entry with the same raw published string plus every undated entry.
 */
module Selection {
  import opened Common
  import opened Feed

  /** `filterEntries`: keep the entries whose title is not in `uploaded`. */
  function FilterEntries(entries: seq<FeedEntry>, uploaded: seq<string>): (r: seq<FeedEntry>)
    ensures forall e :: e in r <==> e in entries && e.title !in uploaded
  {
    Filter(entries, (e: FeedEntry) => e.title !in uploaded)
  }

  /** Filtering works entry by entry, so it keeps the feed's order. */
  lemma FilterEntriesAppend(a: seq<FeedEntry>, b: seq<FeedEntry>, uploaded: seq<string>)
    ensures FilterEntries(a + b, uploaded) == FilterEntries(a, uploaded) + FilterEntries(b, uploaded)
  {
    FilterAppend(a, b, (e: FeedEntry) => e.title !in uploaded);
  }

  /** An entry with a parsed date after year 1; the others are fallbacks. */
  predicate Dated(cal: Calendar, e: FeedEntry) {
    cal.parse(e.published).Some? && cal.parse(e.published).value.year > 1
  }

  /** Seconds between the entry's date and now placed in the entry's own year. */
  function Distance(cal: Calendar, e: FeedEntry): nat
    requires Dated(cal, e)
  {
    var t := cal.parse(e.published).value;
    Abs(cal.nowInYear(t.year) - t.seconds)
  }

  /** The scan over `es[i..]` with `best` the closest dated entry of `es[..i]`;
      a later entry replaces it only when strictly closer. */
  function ScanClosest(cal: Calendar, es: seq<FeedEntry>, i: nat, best: Option<nat>): (r: Option<nat>)
    requires i <= |es|
    requires best.Some? ==> best.value < i && Dated(cal, es[best.value])
    ensures r.Some? ==> r.value < |es| && Dated(cal, es[r.value])
    ensures best.Some? ==> r.Some?
    decreases |es| - i
  {
    if i == |es| then best
    else if !Dated(cal, es[i]) then ScanClosest(cal, es, i + 1, best)
    else if best.None? || Distance(cal, es[i]) < Distance(cal, es[best.value]) then
      ScanClosest(cal, es, i + 1, Some(i))
    else ScanClosest(cal, es, i + 1, best)
  }

  function ClosestIndex(cal: Calendar, es: seq<FeedEntry>): (r: Option<nat>)
    ensures r.Some? ==> r.value < |es| && Dated(cal, es[r.value])
  {
    ScanClosest(cal, es, 0, None)
  }

  /** `k` is the first dated entry among the first `n` at the minimum distance. */
  ghost predicate FirstClosestIn(cal: Calendar, es: seq<FeedEntry>, n: nat, k: nat)
    requires n <= |es|
  {
    && k < n
    && Dated(cal, es[k])
    && (forall j :: 0 <= j < n && Dated(cal, es[j]) ==> Distance(cal, es[k]) <= Distance(cal, es[j]))
    && (forall j :: 0 <= j < k && Dated(cal, es[j]) ==> Distance(cal, es[k]) < Distance(cal, es[j]))
  }

  ghost predicate NoDatedIn(cal: Calendar, es: seq<FeedEntry>, n: nat)
    requires n <= |es|
  {
    forall j :: 0 <= j < n ==> !Dated(cal, es[j])
  }

  lemma {:induction false} ScanClosestCorrect(cal: Calendar, es: seq<FeedEntry>, i: nat, best: Option<nat>)
    requires i <= |es|
    requires best.Some? ==> best.value < i && Dated(cal, es[best.value])
    requires best.None? ==> NoDatedIn(cal, es, i)
    requires best.Some? ==> FirstClosestIn(cal, es, i, best.value)
    ensures ScanClosest(cal, es, i, best).None? ==> NoDatedIn(cal, es, |es|)
    ensures ScanClosest(cal, es, i, best).Some? ==>
              FirstClosestIn(cal, es, |es|, ScanClosest(cal, es, i, best).value)
    decreases |es| - i
  {
    if i < |es| {
      if !Dated(cal, es[i]) {
        ScanClosestCorrect(cal, es, i + 1, best);
      } else if best.None? || Distance(cal, es[i]) < Distance(cal, es[best.value]) {
        ScanClosestCorrect(cal, es, i + 1, Some(i));
      } else {
        ScanClosestCorrect(cal, es, i + 1, best);
      }
    }
  }

  /** Two entries that are each "first at the minimum distance" are the same one. */
  lemma FirstClosestUnique(cal: Calendar, es: seq<FeedEntry>, k: nat, k': nat)
    requires FirstClosestIn(cal, es, |es|, k) && FirstClosestIn(cal, es, |es|, k')
    ensures k == k'
  {
  }

  /** The scan finds no entry exactly when every entry is undated, and
      otherwise finds exactly the first entry at the minimum distance. */
  lemma ClosestIsFirstMinimum(cal: Calendar, es: seq<FeedEntry>)
    ensures ClosestIndex(cal, es).None? <==> forall j :: 0 <= j < |es| ==> !Dated(cal, es[j])
    ensures forall k: nat :: ClosestIndex(cal, es) == Some(k) <==> FirstClosestIn(cal, es, |es|, k)
  {
    ScanClosestCorrect(cal, es, 0, None);
    forall k: nat | FirstClosestIn(cal, es, |es|, k)
      ensures ClosestIndex(cal, es) == Some(k)
    {
      FirstClosestUnique(cal, es, ClosestIndex(cal, es).value, k);
    }
  }

  /** Same raw string, same parsed date: ties share the closest's distance. */
  lemma SamePublishedSameDistance(cal: Calendar, a: FeedEntry, b: FeedEntry)
    requires a.published == b.published && Dated(cal, a)
    ensures Dated(cal, b) && Distance(cal, a) == Distance(cal, b)
  {
  }

  /** The candidate pool: entries with the closest's raw published string,
      followed by all undated entries. */
  function Pool(cal: Calendar, es: seq<FeedEntry>, closest: FeedEntry): (pool: seq<FeedEntry>)
    ensures forall e :: e in pool <==> e in es && (e.published == closest.published || !Dated(cal, e))
  {
    Filter(es, (e: FeedEntry) => e.published == closest.published)
      + Filter(es, (e: FeedEntry) => !Dated(cal, e))
  }

  /** The layout `rand.Intn(len(pool))` draws from: the entries sharing
      the closest's date string, at the list positions `same`, followed by
      the undated entries, at the positions `undated`. Each part follows the
      list order (its positions increase) and holds every such entry of the
      list, once per place it occupies there. */
  lemma PoolLayout(cal: Calendar, es: seq<FeedEntry>, closest: FeedEntry) returns (same: seq<nat>, undated: seq<nat>)
    ensures forall i :: 0 <= i < |same| ==> same[i] < |es| && es[same[i]].published == closest.published
    ensures forall i :: 0 <= i < |undated| ==> undated[i] < |es| && !Dated(cal, es[undated[i]])
    ensures Pool(cal, es, closest) == Pick(es, same) + Pick(es, undated)
    ensures forall i, j :: 0 <= i < j < |same| ==> same[i] < same[j]
    ensures forall i, j :: 0 <= i < j < |undated| ==> undated[i] < undated[j]
    ensures forall j :: 0 <= j < |es| && es[j].published == closest.published ==> j in same
    ensures forall j :: 0 <= j < |es| && !Dated(cal, es[j]) ==> j in undated
  {
    var isSame := (e: FeedEntry) => e.published == closest.published;
    var isUndated := (e: FeedEntry) => !Dated(cal, e);
    same := FilterPositions(es, isSame);
    undated := FilterPositions(es, isUndated);
    var fa := Filter(es, isSame);
    var fb := Filter(es, isUndated);
    forall i | 0 <= i < |same|
      ensures es[same[i]].published == closest.published
    {
      assert fa[i] in fa;
    }
    forall i | 0 <= i < |undated|
      ensures !Dated(cal, es[undated[i]])
    {
      assert fb[i] in fb;
    }
  }

  /** Every entry of the pool can be drawn: a draw below the pool size picks
      the entry at that place. */
  lemma PoolReachable(cal: Calendar, es: seq<FeedEntry>, e: FeedEntry)
    requires ClosestIndex(cal, es).Some?
    requires e in Pool(cal, es, es[ClosestIndex(cal, es).value])
    ensures exists draw: nat :: PickFrom(cal, es, draw) == Some(e)
  {
    var pool := Pool(cal, es, es[ClosestIndex(cal, es).value]);
    var d :| 0 <= d < |pool| && pool[d] == e;
    PickAt(cal, es, d);
  }

  /** An unpublished entry with the same date string as the closest one,
      the closest itself included, is picked by some draw. */
  lemma TieReachable(cal: Calendar, feed: seq<FeedEntry>, uploaded: seq<string>, e: FeedEntry)
    requires ClosestIndex(cal, FilterEntries(feed, uploaded)).Some?
    requires e in feed && e.title !in uploaded
    requires var filtered := FilterEntries(feed, uploaded);
      e.published == filtered[ClosestIndex(cal, filtered).value].published
    ensures exists draw: nat :: EntryToPublish(cal, feed, uploaded, draw) == Some(e)
  {
    var filtered := FilterEntries(feed, uploaded);
    var closest := filtered[ClosestIndex(cal, filtered).value];
    var i :| 0 <= i < |feed| && feed[i] == e;
    assert e in filtered;
    var j :| 0 <= j < |filtered| && filtered[j] == e;
    assert e in Pool(cal, filtered, closest);
    PoolReachable(cal, filtered, e);
    var d: nat :| PickFrom(cal, filtered, d) == Some(e);
    assert EntryToPublish(cal, feed, uploaded, d) == Some(e);
  }

  /** The pick among the unpublished entries `es`: nothing when no entry is
      dated, else the pool entry at `draw` reduced as `rand.Intn(len(pool))`. */
  function PickFrom(cal: Calendar, es: seq<FeedEntry>, draw: nat): (r: Option<FeedEntry>)
    ensures r.Some? ==> r.value in es
    ensures r.None? <==> ClosestIndex(cal, es).None?
  {
    match ClosestIndex(cal, es)
    case None => None
    case Some(k) =>
      var pool := Pool(cal, es, es[k]);
      Some(pool[Intn(draw, |pool|)])
  }

  /** `rand.Intn(n)` with the random source's output `draw` as a parameter. */
  function Intn(draw: nat, n: nat): (r: nat)
    requires n > 0
    ensures r < n
    ensures draw < n ==> r == draw
  {
    draw % n
  }

  /** `getEntryToPublish`: the pick among the entries whose title is not yet published. */
  function EntryToPublish(cal: Calendar, feed: seq<FeedEntry>, uploaded: seq<string>, draw: nat): (r: Option<FeedEntry>)
    ensures r.Some? ==> r.value in feed && r.value.title !in uploaded
    ensures (forall i :: 0 <= i < |feed| ==> feed[i].title in uploaded) ==> r.None?
  {
    PickFrom(cal, FilterEntries(feed, uploaded), draw)
  }

  /** The feed holds an entry that is neither published nor undated. */
  ghost predicate HasEligibleDated(cal: Calendar, feed: seq<FeedEntry>, uploaded: seq<string>) {
    exists i :: 0 <= i < |feed| && feed[i].title !in uploaded && Dated(cal, feed[i])
  }

  /** Selection yields nothing exactly when no unpublished entry is dated,
      even if undated fallbacks remain. */
  lemma SelectionNoneIff(cal: Calendar, feed: seq<FeedEntry>, uploaded: seq<string>, draw: nat)
    ensures EntryToPublish(cal, feed, uploaded, draw).None? <==> !HasEligibleDated(cal, feed, uploaded)
  {
    var filtered := FilterEntries(feed, uploaded);
    ClosestIsFirstMinimum(cal, filtered);
    if HasEligibleDated(cal, feed, uploaded) {
      var i :| 0 <= i < |feed| && feed[i].title !in uploaded && Dated(cal, feed[i]);
      assert feed[i] in filtered;
      var j :| 0 <= j < |filtered| && filtered[j] == feed[i];
      assert Dated(cal, filtered[j]);
    } else {
      forall j | 0 <= j < |filtered|
        ensures !Dated(cal, filtered[j])
      {
        assert filtered[j] in feed;
      }
    }
  }

  /** The pick is an undated fallback or an entry at the minimum distance
      among the unpublished dated entries. */
  lemma SelectionIsClosestOrFallback(cal: Calendar, feed: seq<FeedEntry>, uploaded: seq<string>, draw: nat)
    ensures EntryToPublish(cal, feed, uploaded, draw).Some? ==>
      var e := EntryToPublish(cal, feed, uploaded, draw).value;
      !Dated(cal, e) ||
      forall i :: 0 <= i < |feed| && feed[i].title !in uploaded && Dated(cal, feed[i]) ==>
        Distance(cal, e) <= Distance(cal, feed[i])
  {
    if EntryToPublish(cal, feed, uploaded, draw).None? {
      return;
    }
    var filtered := FilterEntries(feed, uploaded);
    ClosestIsFirstMinimum(cal, filtered);
    var k := ClosestIndex(cal, filtered).value;
    var closest := filtered[k];
    var pool := Pool(cal, filtered, closest);
    var e := pool[Intn(draw, |pool|)];
    assert e == EntryToPublish(cal, feed, uploaded, draw).value;
    if Dated(cal, e) {
      assert e.published == closest.published;
      SamePublishedSameDistance(cal, closest, e);
      forall i | 0 <= i < |feed| && feed[i].title !in uploaded && Dated(cal, feed[i])
        ensures Distance(cal, e) <= Distance(cal, feed[i])
      {
        assert feed[i] in filtered;
        var j :| 0 <= j < |filtered| && filtered[j] == feed[i];
      }
    }
  }

  /** Undated entries are never stuck: whenever selection happens at all,
      some draw picks any given unpublished undated entry. */
  lemma FallbackReachable(cal: Calendar, feed: seq<FeedEntry>, uploaded: seq<string>, e: FeedEntry)
    requires HasEligibleDated(cal, feed, uploaded)
    requires e in feed && e.title !in uploaded && !Dated(cal, e)
    ensures exists draw: nat :: EntryToPublish(cal, feed, uploaded, draw) == Some(e)
  {
    var d := FallbackDraw(cal, feed, uploaded, e);
    assert EntryToPublish(cal, feed, uploaded, d) == PickFrom(cal, FilterEntries(feed, uploaded), d);
  }

  /** The draw that picks the undated entry `e`. */
  lemma FallbackDraw(cal: Calendar, feed: seq<FeedEntry>, uploaded: seq<string>, e: FeedEntry) returns (d: nat)
    requires HasEligibleDated(cal, feed, uploaded)
    requires e in feed && e.title !in uploaded && !Dated(cal, e)
    ensures PickFrom(cal, FilterEntries(feed, uploaded), d) == Some(e)
  {
    var filtered := FilterEntries(feed, uploaded);
    var i :| 0 <= i < |feed| && feed[i].title !in uploaded && Dated(cal, feed[i]);
    EligibleInFiltered(cal, feed, filtered, uploaded, i);
    var k := ClosestIndex(cal, filtered).value;
    var pool := Pool(cal, filtered, filtered[k]);
    PoolHolds(cal, feed, filtered, pool, uploaded, e);
    d :| 0 <= d < |pool| && pool[d] == e;
    PickAt(cal, filtered, d);
  }

  /** A draw below the pool size picks the pool entry at that position. */
  lemma PickAt(cal: Calendar, es: seq<FeedEntry>, d: nat)
    requires ClosestIndex(cal, es).Some?
    requires d < |Pool(cal, es, es[ClosestIndex(cal, es).value])|
    ensures PickFrom(cal, es, d) == Some(Pool(cal, es, es[ClosestIndex(cal, es).value])[d])
  {
    var pool := Pool(cal, es, es[ClosestIndex(cal, es).value]);
    assert Intn(d, |pool|) == d;
  }

  lemma EligibleInFiltered(cal: Calendar, feed: seq<FeedEntry>, filtered: seq<FeedEntry>, uploaded: seq<string>, i: nat)
    requires filtered == FilterEntries(feed, uploaded)
    requires i < |feed| && feed[i].title !in uploaded && Dated(cal, feed[i])
    ensures |filtered| > 0 && ClosestIndex(cal, filtered).Some?
  {
    assert feed[i] in filtered;
    var j :| 0 <= j < |filtered| && filtered[j] == feed[i];
    ClosestIsFirstMinimum(cal, filtered);
  }

  lemma PoolHolds(cal: Calendar, feed: seq<FeedEntry>, filtered: seq<FeedEntry>, pool: seq<FeedEntry>,
                  uploaded: seq<string>, e: FeedEntry)
    requires filtered == FilterEntries(feed, uploaded)
    requires forall i :: 0 <= i < |filtered| && !Dated(cal, filtered[i]) ==> filtered[i] in pool
    requires e in feed && e.title !in uploaded && !Dated(cal, e)
    ensures e in pool
  {
    var i :| 0 <= i < |feed| && feed[i] == e;
    assert e in filtered;
    var j :| 0 <= j < |filtered| && filtered[j] == e;
  }

  /** The "on this day" scenario: A matches today exactly (year 2020), B
      (year 2019, same day) is already published and C is undated; the pool
      is exactly [A, C]. */
  lemma OnThisDayScenario(cal: Calendar, a: FeedEntry, b: FeedEntry, c: FeedEntry)
    requires a.title != b.title && c.title != b.title
    requires a.published != b.published && a.published != c.published
    requires cal.parse(a.published) == Some(Timestamp(2020, cal.nowInYear(2020)))
    requires cal.parse(b.published) == Some(Timestamp(2019, cal.nowInYear(2019)))
    requires cal.parse(c.published).None?
    ensures ClosestIndex(cal, FilterEntries([a, b, c], [b.title])) == Some(0)
    ensures FilterEntries([a, b, c], [b.title]) == [a, c]
    ensures Pool(cal, FilterEntries([a, b, c], [b.title]), a) == [a, c]
  {
    OnThisDayFiltered(a, b, c);
    OnThisDayClosest(cal, a, c);
    OnThisDayPool(cal, a, c);
  }

  lemma OnThisDayFiltered(a: FeedEntry, b: FeedEntry, c: FeedEntry)
    requires a.title != b.title && c.title != b.title
    ensures FilterEntries([a, b, c], [b.title]) == [a, c]
  {
    assert [a, b, c][1..] == [b, c] && [b, c][1..] == [c] && [c][1..] == [];
    assert FilterEntries([], [b.title]) == [];
    assert FilterEntries([c], [b.title]) == [c];
    assert FilterEntries([b, c], [b.title]) == [c];
  }

  lemma OnThisDayClosest(cal: Calendar, a: FeedEntry, c: FeedEntry)
    requires cal.parse(a.published) == Some(Timestamp(2020, cal.nowInYear(2020)))
    requires cal.parse(c.published).None?
    ensures ClosestIndex(cal, [a, c]) == Some(0)
  {
    assert Distance(cal, a) == 0;
    assert ScanClosest(cal, [a, c], 2, Some(0)) == Some(0);
    assert ScanClosest(cal, [a, c], 1, Some(0)) == Some(0);
  }

  lemma OnThisDayPool(cal: Calendar, a: FeedEntry, c: FeedEntry)
    requires a.published != c.published
    requires cal.parse(a.published) == Some(Timestamp(2020, cal.nowInYear(2020)))
    requires cal.parse(c.published).None?
    ensures Pool(cal, [a, c], a) == [a, c]
  {
    assert [a, c][1..] == [c] && [c][1..] == [];
    assert Filter([a, c], (e: FeedEntry) => e.published == a.published) == [a];
    assert Filter([a, c], (e: FeedEntry) => !Dated(cal, e)) == [c];
  }

  /** In that scenario every draw publishes A or C, never the published B. */
  lemma OnThisDayPick(cal: Calendar, a: FeedEntry, b: FeedEntry, c: FeedEntry, draw: nat)
    requires a.title != b.title && c.title != b.title
    requires a.published != b.published && a.published != c.published
    requires cal.parse(a.published) == Some(Timestamp(2020, cal.nowInYear(2020)))
    requires cal.parse(b.published) == Some(Timestamp(2019, cal.nowInYear(2019)))
    requires cal.parse(c.published).None?
    ensures EntryToPublish(cal, [a, b, c], [b.title], draw) in {Some(a), Some(c)}
  {
    OnThisDayScenario(cal, a, b, c);
    var filtered := FilterEntries([a, b, c], [b.title]);
    var pool := Pool(cal, filtered, a);
    assert filtered[0] == a;
    assert PickFrom(cal, filtered, draw) == Some(pool[Intn(draw, 2)]);
  }
}
