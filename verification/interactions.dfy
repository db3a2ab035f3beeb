/**
 * The interactions table and the sweep that refreshes it
 * (src/interactions/main.go): reading the like counts of an item, and
 * `FetchAndStoreInteractions`, which asks each platform for the likes of
 * every published item, skips a platform for the rest of the sweep once it
 * answers "rate limited", and upserts the counts it gets.
 *
 * The table is a sequence in primary-key order, so GORM's `First` is the
 * first matching row. The platforms' HTTP answers come from the oracles of
 * `Env`.
 */
module Interactions {
  import opened Common
  import opened Config
  import opened UploadItems
  import opened PlatformLikes

  datatype Interaction = Interaction(itemName: string, platform: string, targetName: string, likeCount: int)

  /** The (item, platform, target) key the upserts look rows up by. */
  predicate HasKey(row: Interaction, itemName: string, platform: string, targetName: string) {
    row.itemName == itemName && row.platform == platform && row.targetName == targetName
  }

  /** Row `i` is the first row with the key: the one GORM's `First` reads and
      `Save` writes back. */
  predicate FirstKeyed(table: seq<Interaction>, i: int, itemName: string, platform: string, targetName: string)
    requires 0 <= i < |table|
  {
    HasKey(table[i], itemName, platform, targetName) &&
    forall j :: 0 <= j < i ==> !HasKey(table[j], itemName, platform, targetName)
  }

  /** The like count of the first row with that key, if any. */
  function Lookup(table: seq<Interaction>, itemName: string, platform: string, targetName: string): (r: Option<int>)
    ensures r.None? <==> forall i :: 0 <= i < |table| ==> !HasKey(table[i], itemName, platform, targetName)
    ensures r.Some? ==> exists i :: 0 <= i < |table| && FirstKeyed(table, i, itemName, platform, targetName) &&
                          table[i].likeCount == r.value
    decreases |table|
  {
    if |table| == 0 then None
    else if HasKey(table[0], itemName, platform, targetName) then Some(table[0].likeCount)
    else
      var rest := Lookup(table[1..], itemName, platform, targetName);
      assert forall i :: 1 <= i < |table| ==> table[i] == table[1..][i - 1];
      rest
  }

  /** The upsert: the first row with the key gets the new count; without one,
      a new row is appended. */
  function Upsert(table: seq<Interaction>, itemName: string, platform: string, targetName: string, likeCount: int)
    : (r: seq<Interaction>)
    ensures Lookup(r, itemName, platform, targetName) == Some(likeCount)
    ensures Lookup(table, itemName, platform, targetName).Some? ==> |r| == |table|
    ensures Lookup(table, itemName, platform, targetName).None? ==>
              r == table + [Interaction(itemName, platform, targetName, likeCount)]
    ensures forall i :: 0 <= i < |table| && !HasKey(table[i], itemName, platform, targetName) ==> r[i] == table[i]
    ensures forall i :: 0 <= i < |table| ==> r[i] == Saved(table, i, itemName, platform, targetName, likeCount)
    ensures forall i :: 0 <= i < |table| ==> HasKey(r[i], table[i].itemName, table[i].platform, table[i].targetName)
    decreases |table|
  {
    if |table| == 0 then [Interaction(itemName, platform, targetName, likeCount)]
    else if HasKey(table[0], itemName, platform, targetName) then [table[0].(likeCount := likeCount)] + table[1..]
    else
      var rest := Upsert(table[1..], itemName, platform, targetName, likeCount);
      var r := [table[0]] + rest;
      assert Lookup(table, itemName, platform, targetName) == Lookup(table[1..], itemName, platform, targetName) by {
        LookupSkip(table, itemName, platform, targetName);
      }
      assert Lookup(r, itemName, platform, targetName) == Some(likeCount) by {
        assert r[1..] == rest;
        LookupSkip(r, itemName, platform, targetName);
      }
      assert table == [table[0]] + table[1..];
      UpsertConsSaved(table, rest, itemName, platform, targetName, likeCount);
      r
  }

  /** Row `i` as the upsert leaves it: only the first keyed row takes the new
      count, and a later duplicate of the key keeps its own. */
  function Saved(table: seq<Interaction>, i: int, itemName: string, platform: string, targetName: string, likeCount: int)
    : Interaction
    requires 0 <= i < |table|
  {
    if FirstKeyed(table, i, itemName, platform, targetName) then table[i].(likeCount := likeCount) else table[i]
  }

  /** A row without the key in front of the table shifts every other row's
      fate by one place. */
  lemma UpsertConsSaved(table: seq<Interaction>, rest: seq<Interaction>, itemName: string, platform: string,
                        targetName: string, likeCount: int)
    requires |table| > 0 && !HasKey(table[0], itemName, platform, targetName) && |rest| >= |table| - 1
    requires forall i :: 0 <= i < |table| - 1 ==> rest[i] == Saved(table[1..], i, itemName, platform, targetName, likeCount)
    ensures forall i :: 0 <= i < |table| ==>
              ([table[0]] + rest)[i] == Saved(table, i, itemName, platform, targetName, likeCount)
  {
    forall i | 0 <= i < |table|
      ensures ([table[0]] + rest)[i] == Saved(table, i, itemName, platform, targetName, likeCount)
    {
      if i > 0 {
        FirstKeyedSkip(table, i, itemName, platform, targetName);
      }
    }
  }

  lemma FirstKeyedSkip(table: seq<Interaction>, i: int, itemName: string, platform: string, targetName: string)
    requires 1 <= i < |table| && !HasKey(table[0], itemName, platform, targetName)
    ensures FirstKeyed(table, i, itemName, platform, targetName) <==> FirstKeyed(table[1..], i - 1, itemName, platform, targetName)
  {
    if FirstKeyed(table[1..], i - 1, itemName, platform, targetName) {
      forall j | 1 <= j < i
        ensures !HasKey(table[j], itemName, platform, targetName)
      {
        assert table[j] == table[1..][j - 1];
      }
    }
  }

  lemma LookupSkip(table: seq<Interaction>, itemName: string, platform: string, targetName: string)
    requires |table| > 0 && !HasKey(table[0], itemName, platform, targetName)
    ensures Lookup(table, itemName, platform, targetName) == Lookup(table[1..], itemName, platform, targetName)
  {
  }

  /** An upsert leaves every other key's count as it was. */
  lemma {:induction false} UpsertOtherKeys(table: seq<Interaction>, itemName: string, platform: string,
                                           targetName: string, likeCount: int,
                                           itemName': string, platform': string, targetName': string)
    requires itemName != itemName' || platform != platform' || targetName != targetName'
    ensures Lookup(Upsert(table, itemName, platform, targetName, likeCount), itemName', platform', targetName') ==
            Lookup(table, itemName', platform', targetName')
    decreases |table|
  {
    var r := Upsert(table, itemName, platform, targetName, likeCount);
    if |table| == 0 {
      assert !HasKey(r[0], itemName', platform', targetName');
      LookupSkip(r, itemName', platform', targetName');
    } else if HasKey(table[0], itemName, platform, targetName) {
      assert r[1..] == table[1..];
      if HasKey(table[0], itemName', platform', targetName') {
        assert false;
      }
      LookupSkip(r, itemName', platform', targetName');
      LookupSkip(table, itemName', platform', targetName');
    } else {
      UpsertOtherKeys(table[1..], itemName, platform, targetName, likeCount, itemName', platform', targetName');
      assert r[1..] == Upsert(table[1..], itemName, platform, targetName, likeCount);
      if !HasKey(table[0], itemName', platform', targetName') {
        LookupSkip(r, itemName', platform', targetName');
        LookupSkip(table, itemName', platform', targetName');
      }
    }
  }

  /** Upserting the same count twice is the same as once. */
  lemma {:induction false} UpsertIdempotent(table: seq<Interaction>, itemName: string, platform: string,
                                            targetName: string, likeCount: int)
    ensures var once := Upsert(table, itemName, platform, targetName, likeCount);
      Upsert(once, itemName, platform, targetName, likeCount) == once
    decreases |table|
  {
    var once := Upsert(table, itemName, platform, targetName, likeCount);
    if |table| == 0 {
      assert once[1..] == [];
    } else if HasKey(table[0], itemName, platform, targetName) {
      assert once[1..] == table[1..];
    } else {
      UpsertIdempotent(table[1..], itemName, platform, targetName, likeCount);
      assert once[1..] == Upsert(table[1..], itemName, platform, targetName, likeCount);
    }
  }

  // ---------------------------------------------------------------------
  // Reading

  datatype LikesResponse = LikesResponse(platform: string, likes: int)

  /** The rows `HandleInteraction` reads: the item's rows, all of them for the
      target name "all", otherwise those of that target. */
  predicate Selected(row: Interaction, itemName: string, targetName: string) {
    row.itemName == itemName && (targetName == "all" || row.targetName == targetName)
  }

  /** `HandleInteraction`'s JSON list: one (platform, likes) pair per selected
      row, in table order. */
  function HandleInteraction(table: seq<Interaction>, itemName: string, targetName: string): (r: seq<LikesResponse>)
    ensures |r| <= |table|
    ensures forall k :: 0 <= k < |r| ==>
              exists i :: 0 <= i < |table| && Selected(table[i], itemName, targetName) &&
                r[k] == LikesResponse(table[i].platform, table[i].likeCount)
    ensures forall i :: 0 <= i < |table| && Selected(table[i], itemName, targetName) ==>
              LikesResponse(table[i].platform, table[i].likeCount) in r
  {
    var rows := Filter(table, (row: Interaction) => Selected(row, itemName, targetName));
    var r := seq(|rows|, k requires 0 <= k < |rows| => LikesResponse(rows[k].platform, rows[k].likeCount));
    assert forall k :: 0 <= k < |rows| ==> rows[k] in rows;
    assert forall i :: 0 <= i < |table| && Selected(table[i], itemName, targetName) ==>
             LikesResponse(table[i].platform, table[i].likeCount) in r by {
      forall i | 0 <= i < |table| && Selected(table[i], itemName, targetName)
        ensures LikesResponse(table[i].platform, table[i].likeCount) in r
      {
        assert table[i] in table;
        var k :| 0 <= k < |rows| && rows[k] == table[i];
        assert r[k] == LikesResponse(table[i].platform, table[i].likeCount);
      }
    }
    r
  }

  /** `HandleInteraction` row by row: nothing for an empty table, and a
      table's list is its first row's pair, when that row is selected,
      followed by the rest's list. So the list holds one pair per selected
      row, in table order. */
  lemma HandleInteractionRows(row: Interaction, rest: seq<Interaction>, itemName: string, targetName: string)
    ensures HandleInteraction([], itemName, targetName) == []
    ensures HandleInteraction([row] + rest, itemName, targetName) ==
            (if Selected(row, itemName, targetName) then [LikesResponse(row.platform, row.likeCount)] else []) +
            HandleInteraction(rest, itemName, targetName)
  {
    var p := (r: Interaction) => Selected(r, itemName, targetName);
    FilterAppend([row], rest, p);
    assert [row] + rest == [row] + rest;
  }

  /** Reading one target is reading "all" on that target's rows alone. */
  lemma TargetReadsItsOwnRows(table: seq<Interaction>, itemName: string, targetName: string)
    requires targetName != "all"
    ensures HandleInteraction(table, itemName, targetName) ==
            HandleInteraction(Filter(table, (row: Interaction) => row.targetName == targetName), itemName, "all")
  {
    FilterFilter(table, (row: Interaction) => row.targetName == targetName,
                 (row: Interaction) => Selected(row, itemName, "all"),
                 (row: Interaction) => Selected(row, itemName, targetName));
  }

  // ---------------------------------------------------------------------
  // The sweep

  /** The platforms' answers, as the handlers would see them. */
  datatype Env = Env(
    targets: seq<Target>,
    parseHost: string -> Option<string>,
    pixelfedCall: (string, string, string) -> Reply<seq<string>>,
    instagramCall: (string, string) -> Reply<int>,
    blueskyLogin: (string, string) -> Reply<string>,
    blueskyCall: (string, string, string) -> Reply<BlueskyLikes>)

  predicate KnownPlatform(platform: string) {
    platform == "bluesky" || platform == "pixelfed" || platform == "instagram"
  }

  /** The switch on the platform: the like count each handler yields. */
  function FetchLikes(env: Env, item: AutoUploadItem, targetName: string): (r: Result<int>)
    requires KnownPlatform(item.platform)
    ensures item.platform == "bluesky" && r.Err? ==> !IsRateLimited(r.error)
    ensures item.platform == "pixelfed" ==>
              (r.Err? && IsRateLimited(r.error) <==>
                var h := HandlePixelfedLikes(item, targetName, env.targets, env.parseHost, env.pixelfedCall);
                h.Err? && IsRateLimited(h.error))
    ensures r.Ok? && item.platform != "instagram" ==> r.value >= 0
    ensures item.platform == "bluesky" ==>
              var h := HandleBlueskyLikes(item, targetName, env.targets, env.blueskyLogin, env.blueskyCall);
              (r.Ok? <==> h.Ok?) && (h.Ok? ==> r.value == |h.value.likes|) && (h.Err? ==> r.error == h.error)
    ensures item.platform == "pixelfed" ==>
              var h := HandlePixelfedLikes(item, targetName, env.targets, env.parseHost, env.pixelfedCall);
              (r.Ok? <==> h.Ok?) && (h.Ok? ==> r.value == |h.value.accounts|) && (h.Err? ==> r.error == h.error)
    ensures item.platform == "instagram" ==>
              var h := HandleInstagramLikes(item, targetName, env.targets, env.instagramCall);
              (r.Ok? <==> h.Ok?) && (h.Ok? ==> r.value == h.value.likeCount) && (h.Err? ==> r.error == h.error)
  {
    match item.platform
    case "bluesky" =>
      (match HandleBlueskyLikes(item, targetName, env.targets, env.blueskyLogin, env.blueskyCall)
       case Err(e) => Err(e)
       case Ok(b) => Ok(|b.likes|))
    case "pixelfed" =>
      (match HandlePixelfedLikes(item, targetName, env.targets, env.parseHost, env.pixelfedCall)
       case Err(e) => Err(e)
       case Ok(p) => Ok(|p.accounts|))
    case "instagram" =>
      (match HandleInstagramLikes(item, targetName, env.targets, env.instagramCall)
       case Err(e) => Err(e)
       case Ok(m) => Ok(m.likeCount))
  }

  /** What the sweep did with one record. */
  datatype Visit =
    | SkippedRateLimited          // its platform was already rate limited
    | NoTarget                    // no target, or an unnamed one, for its platform
    | UnknownPlatform             // the switch's default case
    | RateLimitedNow              // the fetch said "rate limited"
    | FetchFailed(error: Error)   // any other fetch error
    | Stored(targetName: string, likeCount: int)

  /** The decision for one record, given the platforms rate limited so far. */
  function Decide(env: Env, limited: set<string>, item: AutoUploadItem): (v: Visit)
    ensures item.platform in limited <==> v.SkippedRateLimited?
    ensures v.RateLimitedNow? ==> item.platform != "bluesky"
    ensures v.Stored? ==> exists t :: t in env.targets && t.platform == item.platform && t.name == v.targetName != ""
    ensures v.Stored? ==>
              exists i :: 0 <= i < |env.targets| && env.targets[i].platform == item.platform &&
                env.targets[i].name == v.targetName &&
                forall j :: 0 <= j < i ==> env.targets[j].platform != item.platform
    ensures v.Stored? ==> KnownPlatform(item.platform) && FetchLikes(env, item, v.targetName) == Ok(v.likeCount)
    ensures (forall i :: 0 <= i < |env.targets| ==> env.targets[i].platform != item.platform) ==>
              item.platform !in limited ==> v == NoTarget
  {
    if item.platform in limited then SkippedRateLimited
    else match TargetForPlatform(env.targets, item.platform)
      case None => NoTarget
      case Some(t) =>
        if t.name == "" then NoTarget
        else if !KnownPlatform(item.platform) then UnknownPlatform
        else match FetchLikes(env, item, t.name)
          case Err(e) => if IsRateLimited(e) then RateLimitedNow else FetchFailed(e)
          case Ok(n) => Stored(t.name, n)
  }

  /** The sweep's state: the table, the rate-limited platforms, the visits. */
  datatype Sweep = Sweep(table: seq<Interaction>, limited: set<string>, visits: seq<Visit>)

  /** How the sweep decides a record, given the rate-limited platforms. The
      sweep itself is `Decide` with the platforms' answers fixed; the
      lemmas below hold for any decision with the properties they name. */
  type Decider = (set<string>, AutoUploadItem) -> Visit

  function DecideWith(env: Env): Decider {
    (limited: set<string>, item: AutoUploadItem) => Decide(env, limited, item)
  }

  /** A platform already rate limited is skipped. */
  ghost predicate SkipsLimited(decide: Decider) {
    forall limited: set<string>, item: AutoUploadItem :: item.platform in limited ==> decide(limited, item) == SkippedRateLimited
  }

  /** Platform `p` never answers "rate limited". */
  ghost predicate NeverLimits(decide: Decider, p: string) {
    forall limited: set<string>, item: AutoUploadItem :: decide(limited, item).RateLimitedNow? ==> item.platform != p
  }

  lemma DeciderFacts(env: Env)
    ensures SkipsLimited(DecideWith(env)) && NeverLimits(DecideWith(env), "bluesky")
  {
  }

  /** One record of the sweep: its visit is appended, a stored count is
      upserted, and a rate-limit answer adds its platform and nothing else
      to the rate-limited set. */
  function Step(decide: Decider, s: Sweep, item: AutoUploadItem): (r: Sweep)
    ensures r.visits == s.visits + [decide(s.limited, item)]
    ensures s.limited <= r.limited && r.limited - s.limited <= {item.platform}
    ensures r.limited != s.limited ==> decide(s.limited, item).RateLimitedNow?
    ensures !decide(s.limited, item).Stored? ==> r.table == s.table
    ensures decide(s.limited, item).Stored? ==>
              Lookup(r.table, item.itemName, item.platform, decide(s.limited, item).targetName) ==
              Some(decide(s.limited, item).likeCount)
  {
    var v := decide(s.limited, item);
    Sweep(
      if v.Stored? then Upsert(s.table, item.itemName, item.platform, v.targetName, v.likeCount) else s.table,
      if v.RateLimitedNow? then s.limited + {item.platform} else s.limited,
      s.visits + [v])
  }

  /** The records visited in order, from `start`. */
  function Run(decide: Decider, records: seq<AutoUploadItem>, start: Sweep): (s: Sweep)
    ensures |s.visits| == |start.visits| + |records|
    ensures start.limited <= s.limited
    decreases |records|
  {
    if |records| == 0 then start
    else Step(decide, Run(decide, records[..|records| - 1], start), records[|records| - 1])
  }

  /** Each visit was decided on the rate-limited set left by the visits
      before it. */
  lemma {:induction false} VisitDecidedOnPrefix(decide: Decider, records: seq<AutoUploadItem>, start: Sweep, k: nat)
    requires k < |records|
    ensures Run(decide, records, start).visits[|start.visits| + k] ==
            decide(Run(decide, records[..k], start).limited, records[k])
    decreases |records|
  {
    var n := |records| - 1;
    assert records[..n][..k] == records[..k] by {
      assert k <= n;
    }
    if k < n {
      VisitDecidedOnPrefix(decide, records[..n], start, k);
      assert records[..n][k] == records[k];
    } else {
      assert records[..k] == records[..n];
    }
  }

  /** The rate-limited set only grows along the sweep. */
  lemma {:induction false} LimitedGrows(decide: Decider, records: seq<AutoUploadItem>, start: Sweep, j: nat, k: nat)
    requires j <= k <= |records|
    ensures Run(decide, records[..j], start).limited <= Run(decide, records[..k], start).limited
    decreases k - j
  {
    if j < k {
      LimitedGrows(decide, records, start, j, k - 1);
      assert records[..k][..k - 1] == records[..k - 1];
      assert records[..k][k - 1] == records[k - 1];
    }
  }

  /** Once a platform has answered "rate limited", no later record of that
      platform is fetched in the same sweep. */
  lemma NoFetchAfterRateLimit(decide: Decider, records: seq<AutoUploadItem>, start: Sweep, j: nat, k: nat)
    requires SkipsLimited(decide)
    requires j < k < |records|
    requires Run(decide, records, start).visits[|start.visits| + j].RateLimitedNow?
    requires records[k].platform == records[j].platform
    ensures Run(decide, records, start).visits[|start.visits| + k] == SkippedRateLimited
  {
    VisitDecidedOnPrefix(decide, records, start, j);
    VisitDecidedOnPrefix(decide, records, start, k);
    LimitedGrows(decide, records, start, j + 1, k);
    assert records[..j + 1][..j] == records[..j];
    assert records[..j + 1][j] == records[j];
  }

  /** A platform ends up rate limited exactly when it started so or one of
      its records answered "rate limited". */
  lemma {:induction false} LimitedExactly(decide: Decider, records: seq<AutoUploadItem>, start: Sweep, p: string)
    ensures var s := Run(decide, records, start);
      p in s.limited <==>
        p in start.limited ||
        exists k :: 0 <= k < |records| && s.visits[|start.visits| + k].RateLimitedNow? && records[k].platform == p
    decreases |records|
  {
    if |records| > 0 {
      var n := |records| - 1;
      var prev := Run(decide, records[..n], start);
      var s := Run(decide, records, start);
      LimitedExactly(decide, records[..n], start, p);
      assert s.visits == prev.visits + [decide(prev.limited, records[n])];
      assert forall k :: 0 <= k < n ==> records[..n][k] == records[k];
      assert s.visits[|start.visits| + n] == decide(prev.limited, records[n]);
    }
  }

  /** A platform that never answers "rate limited" is never skipped for it. */
  lemma {:induction false} NeverLimitedStaysOut(decide: Decider, records: seq<AutoUploadItem>, start: Sweep, p: string)
    requires NeverLimits(decide, p) && p !in start.limited
    ensures p !in Run(decide, records, start).limited
    decreases |records|
  {
    if |records| > 0 {
      NeverLimitedStaysOut(decide, records[..|records| - 1], start, p);
    }
  }

  /** A record whose count was stored can be read back right after its visit. */
  lemma StoredIsReadable(decide: Decider, records: seq<AutoUploadItem>, start: Sweep, k: nat)
    requires k < |records|
    requires Run(decide, records, start).visits[|start.visits| + k].Stored?
    ensures var v := Run(decide, records, start).visits[|start.visits| + k];
      Lookup(Run(decide, records[..k + 1], start).table, records[k].itemName, records[k].platform, v.targetName) ==
        Some(v.likeCount)
  {
    VisitDecidedOnPrefix(decide, records, start, k);
    assert records[..k + 1][..k] == records[..k];
    assert records[..k + 1][k] == records[k];
  }

  // ---------------------------------------------------------------------
  // Grouping by item name

  /** `itemsByName[name]`: that item's records, in table order. */
  function Group(items: seq<AutoUploadItem>, name: string): (g: seq<AutoUploadItem>)
    ensures forall x :: x in g <==> x in items && x.itemName == name
    decreases |items|
  {
    if |items| == 0 then []
    else (if items[0].itemName == name then [items[0]] else []) + Group(items[1..], name)
  }

  /** The records whose item name is in `names`, in table order. */
  function WithNames(items: seq<AutoUploadItem>, names: set<string>): seq<AutoUploadItem>
    decreases |items|
  {
    if |items| == 0 then []
    else (if items[0].itemName in names then [items[0]] else []) + WithNames(items[1..], names)
  }

  /** The map's groups, visited in `names` order. */
  function Grouped(items: seq<AutoUploadItem>, names: seq<string>): seq<AutoUploadItem>
    decreases |names|
  {
    if |names| == 0 then [] else Group(items, names[0]) + Grouped(items, names[1..])
  }

  predicate Distinct<T(==)>(s: seq<T>) {
    forall i, j :: 0 <= i < j < |s| ==> s[i] != s[j]
  }

  function ItemNames(items: seq<AutoUploadItem>): set<string> {
    set i | 0 <= i < |items| :: items[i].itemName
  }

  lemma {:induction false} WithNamesSplit(items: seq<AutoUploadItem>, name: string, names: set<string>)
    requires name !in names
    ensures multiset(WithNames(items, {name} + names)) == multiset(Group(items, name)) + multiset(WithNames(items, names))
    decreases |items|
  {
    if |items| > 0 {
      var x := items[0];
      var all := {name} + names;
      WithNamesSplit(items[1..], name, names);
      assert WithNames(items, all) == (if x.itemName in all then [x] else []) + WithNames(items[1..], all);
      assert Group(items, name) == (if x.itemName == name then [x] else []) + Group(items[1..], name);
      assert WithNames(items, names) == (if x.itemName in names then [x] else []) + WithNames(items[1..], names);
      if x.itemName == name {
        assert multiset(WithNames(items, all)) == multiset{x} + multiset(WithNames(items[1..], all));
        assert multiset(Group(items, name)) == multiset{x} + multiset(Group(items[1..], name));
        assert WithNames(items, names) == WithNames(items[1..], names);
      } else if x.itemName in names {
        assert multiset(WithNames(items, all)) == multiset{x} + multiset(WithNames(items[1..], all));
        assert Group(items, name) == Group(items[1..], name);
        assert multiset(WithNames(items, names)) == multiset{x} + multiset(WithNames(items[1..], names));
      } else {
        assert WithNames(items, all) == WithNames(items[1..], all);
        assert Group(items, name) == Group(items[1..], name);
        assert WithNames(items, names) == WithNames(items[1..], names);
      }
    }
  }

  lemma {:induction false} GroupedIsWithNames(items: seq<AutoUploadItem>, names: seq<string>)
    requires Distinct(names)
    ensures multiset(Grouped(items, names)) == multiset(WithNames(items, set n | n in names))
    decreases |names|
  {
    if |names| == 0 {
      assert (set n | n in names) == {};
      WithNamesNone(items);
    } else {
      GroupedIsWithNames(items, names[1..]);
      assert (set n | n in names) == {names[0]} + (set n | n in names[1..]);
      WithNamesSplit(items, names[0], set n | n in names[1..]);
    }
  }

  lemma {:induction false} WithNamesNone(items: seq<AutoUploadItem>)
    ensures WithNames(items, {}) == []
    decreases |items|
  {
    if |items| > 0 {
      WithNamesNone(items[1..]);
    }
  }

  lemma {:induction false} WithAllNames(items: seq<AutoUploadItem>, names: set<string>)
    requires ItemNames(items) <= names
    ensures WithNames(items, names) == items
    decreases |items|
  {
    if |items| > 0 {
      assert items[0].itemName in ItemNames(items);
      assert ItemNames(items[1..]) <= ItemNames(items) by {
        forall n | n in ItemNames(items[1..])
          ensures n in ItemNames(items)
        {
          var i :| 0 <= i < |items[1..]| && items[1..][i].itemName == n;
          assert items[i + 1].itemName == n;
        }
      }
      WithAllNames(items[1..], names);
    }
  }

  /** Grouping by name visits every record exactly once, whatever order the
      map yields its keys in. */
  lemma GroupingVisitsEachRecordOnce(items: seq<AutoUploadItem>, names: seq<string>)
    requires Distinct(names) && (set n | n in names) == ItemNames(items)
    ensures multiset(Grouped(items, names)) == multiset(items)
  {
    GroupedIsWithNames(items, names);
    WithAllNames(items, set n | n in names);
  }

  /** `FetchAndStoreInteractions`: group the auto-upload records by item name,
      then visit the groups in `names` order (Go's map order, which the
      program leaves unspecified) with no platform rate limited at the start. */
  function FetchAndStoreInteractions(env: Env, items: seq<AutoUploadItem>, names: seq<string>,
                                     table: seq<Interaction>): (s: Sweep)
    requires Distinct(names) && (set n | n in names) == ItemNames(items)
    ensures |s.visits| == |items|
    ensures "bluesky" !in s.limited
  {
    GroupingVisitsEachRecordOnce(items, names);
    assert |Grouped(items, names)| == |multiset(Grouped(items, names))|;
    DeciderFacts(env);
    NeverLimitedStaysOut(DecideWith(env), Grouped(items, names), Sweep(table, {}, []), "bluesky");
    Run(DecideWith(env), Grouped(items, names), Sweep(table, {}, []))
  }
}
