/**
 * Catalogue sync (src/inventory/imageRssToDb.go): one parsed image feed is
 * written into the feed, item and category tables.
 *
 * The feed row is upserted by URL, every item with a GUID is looked up by
 * GUID among all rows, soft-deleted ones included, and is created when no
 * row has it and updated otherwise. Categories are looked up or created by
 * name, and the feed's live items whose GUID the feed no longer lists are
 * soft-deleted. Rows are never removed; a soft-deleted row has `deleted`
 * set. Tables are sequences in primary-key order, and each table hands out
 * ids from its own counter.
 *
 * The lookup is `Unscoped` but the two updates after it are not, and GORM
 * adds `deleted_at IS NULL` to every UPDATE that is not `Unscoped`. So a
 * soft-deleted row that the feed lists again is neither undeleted nor
 * refreshed. The sync takes an `unscoped` flag: `false` is the code as
 * written, `true` runs both updates `Unscoped()`, which is what the
 * "undelete it" branch means to do.
 */
module Inventory {
  import opened Common
  import opened Feed

  datatype FeedRow = FeedRow(
    id: nat,
    title: string,
    description: string,
    link: string,
    feedUrl: string,
    language: string,
    copyright: string,
    generator: string,
    itemTypes: string,
    deleted: bool)

  datatype ItemRow = ItemRow(
    id: nat,
    feedId: nat,
    title: string,
    description: string,
    link: string,
    itemType: string,
    imageUrl: string,
    published: int,
    guid: string,
    categories: set<nat>,
    deleted: bool)

  datatype Category = Category(id: nat, name: string)

  datatype Catalogue = Catalogue(
    feeds: seq<FeedRow>,
    items: seq<ItemRow>,
    categories: seq<Category>,
    nextFeedId: nat,
    nextItemId: nat,
    nextCategoryId: nat)

  /** The channel-level fields of the parsed feed, and its items. */
  datatype ParsedFeed = ParsedFeed(
    title: string,
    description: string,
    link: string,
    language: string,
    copyright: string,
    generator: string,
    items: seq<FeedEntry>)

  const ImageType := "image"

  /** GORM's `Updates` with a struct: a field at its zero value leaves the
      column as it was. */
  function NonZero(prev: string, incoming: string): string {
    if incoming == "" then prev else incoming
  }

  // ---------------------------------------------------------------------
  // The feed row

  /** The first live feed row with this URL: GORM's scoped `First`. */
  function FindLiveFeed(feeds: seq<FeedRow>, url: string, i: nat): (r: Option<nat>)
    requires i <= |feeds|
    ensures r.Some? ==> i <= r.value < |feeds| && feeds[r.value].feedUrl == url && !feeds[r.value].deleted
    ensures r.None? ==> forall k :: i <= k < |feeds| ==> feeds[k].feedUrl != url || feeds[k].deleted
    decreases |feeds| - i
  {
    if i == |feeds| then None
    else if feeds[i].feedUrl == url && !feeds[i].deleted then Some(i)
    else FindLiveFeed(feeds, url, i + 1)
  }

  /** The row the sync writes for this feed, before it has an id. */
  function FeedFields(id: nat, url: string, parsed: ParsedFeed): FeedRow {
    FeedRow(id, parsed.title, parsed.description, parsed.link, url, parsed.language, parsed.copyright,
            parsed.generator, ImageType, false)
  }

  /** `Updates(feed)` on an existing row: it keeps its id, URL and deletion
      state, and takes every non-empty channel field. */
  function RefreshFeed(prev: FeedRow, parsed: ParsedFeed): (r: FeedRow)
    ensures r.id == prev.id && r.feedUrl == prev.feedUrl && r.deleted == prev.deleted
    ensures r.itemTypes == ImageType
  {
    prev.(title := NonZero(prev.title, parsed.title),
         description := NonZero(prev.description, parsed.description),
         link := NonZero(prev.link, parsed.link),
         language := NonZero(prev.language, parsed.language),
         copyright := NonZero(prev.copyright, parsed.copyright),
         generator := NonZero(prev.generator, parsed.generator),
         itemTypes := ImageType)
  }

  /** Update-or-create of the feed row by `feed_url`; the second component
      is the feed's id. */
  function UpsertFeed(db: Catalogue, url: string, parsed: ParsedFeed): (r: (Catalogue, nat))
    ensures r.0.items == db.items && r.0.categories == db.categories
    ensures r.0.nextItemId == db.nextItemId && r.0.nextCategoryId == db.nextCategoryId
  {
    match FindLiveFeed(db.feeds, url, 0)
    case None =>
      (db.(feeds := db.feeds + [FeedFields(db.nextFeedId, url, parsed)], nextFeedId := db.nextFeedId + 1), db.nextFeedId)
    case Some(i) =>
      (db.(feeds := db.feeds[i := RefreshFeed(db.feeds[i], parsed)]), db.feeds[i].id)
  }

  /** Without a live row for the URL a row is appended under a incoming id;
      with one, that row keeps its id and place, and no other row changes. */
  lemma UpsertFeedCreatesOrKeepsId(db: Catalogue, url: string, parsed: ParsedFeed)
    ensures var (db', id) := UpsertFeed(db, url, parsed);
      FindLiveFeed(db.feeds, url, 0).None? ==>
        && db'.feeds == db.feeds + [FeedFields(db.nextFeedId, url, parsed)]
        && id == db.nextFeedId && db'.nextFeedId == db.nextFeedId + 1
    ensures var (db', id) := UpsertFeed(db, url, parsed);
      FindLiveFeed(db.feeds, url, 0).Some? ==>
        var i := FindLiveFeed(db.feeds, url, 0).value;
        && |db'.feeds| == |db.feeds| && db'.nextFeedId == db.nextFeedId
        && id == db.feeds[i].id && db'.feeds[i].id == id
        && (forall k :: 0 <= k < |db.feeds| && k != i ==> db'.feeds[k] == db.feeds[k])
  {
  }

  /** After the upsert the feed's id names a live row with this URL. */
  lemma UpsertFeedIsLive(db: Catalogue, url: string, parsed: ParsedFeed) returns (k: nat)
    ensures var (db', id) := UpsertFeed(db, url, parsed);
      k < |db'.feeds| && db'.feeds[k].id == id && db'.feeds[k].feedUrl == url && !db'.feeds[k].deleted
  {
    match FindLiveFeed(db.feeds, url, 0)
    case None => k := |db.feeds|;
    case Some(i) => k := i;
  }

  // ---------------------------------------------------------------------
  // Categories

  predicate UniqueNames(cats: seq<Category>) {
    forall j, k :: 0 <= j < k < |cats| ==> cats[j].name != cats[k].name
  }

  /** The first category with this name: `Where(Category{Name: name}).First`
      for a non-empty name. */
  function FindCategory(cats: seq<Category>, name: string): (r: Option<nat>)
    ensures r.Some? ==> r.value < |cats| && cats[r.value].name == name
    ensures r.Some? ==> forall k :: 0 <= k < r.value ==> cats[k].name != name
    ensures r.None? <==> forall k :: 0 <= k < |cats| ==> cats[k].name != name
  {
    FirstIndex(cats, (c: Category) => c.name == name)
  }

  /** `FirstOrCreate(&category, Category{Name: name})`: the id of the
      category with this name, created under a fresh id when there is none.
      GORM builds the condition from the struct's non-zero fields only, so
      for the empty name there is no condition: the first category is
      returned, and one named "" is created only when the table is empty. */
  function GetOrCreate(db: Catalogue, name: string): (r: (Catalogue, nat))
    ensures r.0.feeds == db.feeds && r.0.items == db.items
    ensures r.0.nextFeedId == db.nextFeedId && r.0.nextItemId == db.nextItemId
    ensures |db.categories| <= |r.0.categories| <= |db.categories| + 1
    ensures r.0.categories[..|db.categories|] == db.categories
    ensures name == "" && |db.categories| > 0 ==> r == (db, db.categories[0].id)
  {
    if name == "" && |db.categories| > 0 then (db, db.categories[0].id)
    else match FindCategory(db.categories, name)
    case Some(i) => (db, db.categories[i].id)
    case None =>
      (db.(categories := db.categories + [Category(db.nextCategoryId, name)], nextCategoryId := db.nextCategoryId + 1),
       db.nextCategoryId)
  }

  /** Get-or-create leaves one category per name. The id it gives is that
      of the category with the name; for the empty name it is the first
      category's, whatever that one is called, unless there was none. */
  lemma GetOrCreateOnePerName(db: Catalogue, name: string) returns (k: nat)
    requires UniqueNames(db.categories)
    ensures var (db', id) := GetOrCreate(db, name);
      && UniqueNames(db'.categories)
      && k < |db'.categories| && db'.categories[k].id == id
      && (name != "" || |db.categories| == 0 ==> db'.categories[k] == Category(id, name))
      && (name == "" ==> k == 0)
  {
    if name == "" && |db.categories| > 0 {
      k := 0;
    } else {
      match FindCategory(db.categories, name)
      case Some(i) => k := i;
      case None => k := |db.categories|;
    }
  }

  /** The categories of one item, in order, each got or created. */
  function GetOrCreateAll(db: Catalogue, names: seq<string>): (r: (Catalogue, seq<nat>))
    ensures r.0.feeds == db.feeds && r.0.items == db.items
    ensures r.0.nextFeedId == db.nextFeedId && r.0.nextItemId == db.nextItemId
    ensures |r.1| == |names|
    ensures |db.categories| <= |r.0.categories| && r.0.categories[..|db.categories|] == db.categories
    decreases |names|
  {
    if |names| == 0 then (db, [])
    else
      var (db1, id) := GetOrCreate(db, names[0]);
      var (db2, ids) := GetOrCreateAll(db1, names[1..]);
      assert db2.categories[..|db.categories|] == db1.categories[..|db1.categories|][..|db.categories|];
      (db2, [id] + ids)
  }

  /** After the item's categories are got or created, names are still unique
      and the `n`-th id is the category named by the `n`-th name, or the
      first category when that name is empty. */
  lemma {:induction false} GetOrCreateAllOnePerName(db: Catalogue, names: seq<string>, n: nat) returns (k: nat)
    requires UniqueNames(db.categories)
    requires n < |names|
    ensures var (db', ids) := GetOrCreateAll(db, names);
      && UniqueNames(db'.categories)
      && k < |db'.categories| && db'.categories[k].id == ids[n]
      && (names[n] != "" ==> db'.categories[k].name == names[n])
      && (names[n] == "" ==> k == 0)
    decreases |names|
  {
    var (db1, id) := GetOrCreate(db, names[0]);
    var k1 := GetOrCreateOnePerName(db, names[0]);
    var (db2, ids) := GetOrCreateAll(db1, names[1..]);
    if n == 0 {
      if |names| > 1 {
        var _ := GetOrCreateAllOnePerName(db1, names[1..], 0);
      } else {
        assert db2 == db1;
      }
      assert db2.categories[..|db1.categories|] == db1.categories;
      assert db2.categories[k1] == db1.categories[k1];
      k := k1;
    } else {
      k := GetOrCreateAllOnePerName(db1, names[1..], n - 1);
    }
  }

  // ---------------------------------------------------------------------
  // Items

  predicate UniqueGuids(items: seq<ItemRow>) {
    forall j, k :: 0 <= j < k < |items| ==> items[j].guid != items[k].guid
  }

  /** The first row with this GUID, soft-deleted rows included:
      `Unscoped().Where("guid = ?", guid).First`. */
  function FindGuid(items: seq<ItemRow>, guid: string): (r: Option<nat>)
    ensures r.Some? ==> r.value < |items| && items[r.value].guid == guid
    ensures r.Some? ==> forall k :: 0 <= k < r.value ==> items[k].guid != guid
    ensures r.None? <==> forall k :: 0 <= k < |items| ==> items[k].guid != guid
  {
    FirstIndex(items, (row: ItemRow) => row.guid == guid)
  }

  /** The item's time: its parsed date, or now when it has none. */
  function PublishedAt(cal: Calendar, e: FeedEntry): int {
    match cal.parse(e.published)
    case Some(t) => t.seconds
    case None => cal.now
  }

  /** The row the sync writes for an entry, before it has an id. */
  function ItemFields(feedId: nat, e: FeedEntry, published: int, cats: set<nat>): ItemRow
    requires e.image.Some?
  {
    ItemRow(0, feedId, e.title, e.description, e.link, ImageType, e.image.value, published, e.guid, cats, false)
  }

  /** `Model(&existingItem).Updates(feedItem)` on a row the update reaches:
      the row keeps its id, GUID and deletion state and takes every non-zero
      column field. Its categories stay as they were: GORM saves the
      associations of the model it updates, `existingItem`, whose categories
      the lookup never loaded, so only a created row gets the entry's
      categories. */
  function RefreshItem(prev: ItemRow, incoming: ItemRow): (r: ItemRow)
    ensures r.id == prev.id && r.guid == prev.guid && r.deleted == prev.deleted
    ensures r.published == incoming.published && r.categories == prev.categories
  {
    prev.(feedId := if incoming.feedId == 0 then prev.feedId else incoming.feedId,
          title := NonZero(prev.title, incoming.title),
          description := NonZero(prev.description, incoming.description),
          link := NonZero(prev.link, incoming.link),
          itemType := NonZero(prev.itemType, incoming.itemType),
          imageUrl := NonZero(prev.imageUrl, incoming.imageUrl),
          published := incoming.published)
  }

  /** Running the same `Updates` twice is running it once, for the feed row
      and for an item row alike; and an update carrying a field takes it. */
  lemma RefreshIdempotent(feed: FeedRow, parsed: ParsedFeed, item: ItemRow, incoming: ItemRow)
    ensures RefreshFeed(RefreshFeed(feed, parsed), parsed) == RefreshFeed(feed, parsed)
    ensures RefreshItem(RefreshItem(item, incoming), incoming) == RefreshItem(item, incoming)
    ensures parsed.title != "" ==> RefreshFeed(feed, parsed).title == parsed.title
    ensures parsed.title == "" ==> RefreshFeed(feed, parsed).title == feed.title
    ensures incoming.title != "" ==> RefreshItem(item, incoming).title == incoming.title
    ensures incoming.title == "" ==> RefreshItem(item, incoming).title == item.title
    ensures incoming.feedId != 0 ==> RefreshItem(item, incoming).feedId == incoming.feedId
  {
  }

  /** One loop turn for an entry with a GUID: its categories, then create or
      update by GUID. */
  function SyncItem(db: Catalogue, feedId: nat, e: FeedEntry, cal: Calendar, unscoped: bool): (r: Catalogue)
    requires e.image.Some?
    ensures r.feeds == db.feeds && r.nextFeedId == db.nextFeedId
    ensures |db.items| <= |r.items| <= |db.items| + 1
  {
    var (db1, ids) := GetOrCreateAll(db, e.categories);
    Store(db1, ItemFields(feedId, e, PublishedAt(cal, e), set id | id in ids), unscoped)
  }

  /** Create the row under a fresh id when no row has its GUID, otherwise
      update the row that has it: a live row is refreshed; a soft-deleted
      one is left as it is by the scoped updates, and undeleted and
      refreshed by unscoped ones. */
  function Store(db: Catalogue, incoming: ItemRow, unscoped: bool): (r: Catalogue)
    ensures r.feeds == db.feeds && r.categories == db.categories && r.nextFeedId == db.nextFeedId
    ensures |db.items| <= |r.items| <= |db.items| + 1
  {
    match FindGuid(db.items, incoming.guid)
    case None => db.(items := db.items + [incoming.(id := db.nextItemId)], nextItemId := db.nextItemId + 1)
    case Some(i) =>
      if db.items[i].deleted && !unscoped then db
      else db.(items := db.items[i := RefreshItem(db.items[i].(deleted := false), incoming)])
  }

  /** An item's categories are attached when its row is created and never
      afterwards: a new row carries the entry's category ids, and a row the
      GUID lookup finds keeps the ones it had. */
  lemma StoreCategories(db: Catalogue, incoming: ItemRow, unscoped: bool)
    ensures var items := Store(db, incoming, unscoped).items;
      && (FindGuid(db.items, incoming.guid).None? ==>
            |items| == |db.items| + 1 && items[|db.items|].categories == incoming.categories)
      && (forall k :: 0 <= k < |db.items| ==> items[k].categories == db.items[k].categories)
  {
  }

  /** `after` is `before` with rows kept in place under their ids and GUIDs,
      only rows whose GUID is in `seen` changed, and only such rows added. */
  predicate OnlyTouches(before: seq<ItemRow>, after: seq<ItemRow>, seen: set<string>) {
    && |before| <= |after|
    && (forall j :: 0 <= j < |before| ==> after[j].id == before[j].id && after[j].guid == before[j].guid)
    && (forall j :: 0 <= j < |before| && before[j].guid !in seen ==> after[j] == before[j])
    && (forall j :: |before| <= j < |after| ==> after[j].guid in seen)
  }

  lemma OnlyTouchesTrans(a: seq<ItemRow>, b: seq<ItemRow>, c: seq<ItemRow>, s1: set<string>, s2: set<string>)
    requires OnlyTouches(a, b, s1) && OnlyTouches(b, c, s2)
    ensures OnlyTouches(a, c, s1 + s2)
  {
    forall j | |a| <= j < |c|
      ensures c[j].guid in s1 + s2
    {
      if j < |b| {
        assert c[j].guid == b[j].guid;
      }
    }
  }

  /** The GUID has a live row in this feed, found by the GUID lookup. */
  predicate Placed(items: seq<ItemRow>, guid: string, feedId: nat) {
    && FindGuid(items, guid).Some?
    && items[FindGuid(items, guid).value].feedId == feedId
    && !items[FindGuid(items, guid).value].deleted
  }

  /** The GUID's row exists and is soft-deleted: the case the scoped updates
      do not reach. */
  predicate Dormant(items: seq<ItemRow>, guid: string) {
    FindGuid(items, guid).Some? && items[FindGuid(items, guid).value].deleted
  }

  /** A GUID the change does not touch is found at the same, unchanged row. */
  lemma FindGuidFrame(before: seq<ItemRow>, after: seq<ItemRow>, seen: set<string>, guid: string)
    requires OnlyTouches(before, after, seen) && guid !in seen
    ensures FindGuid(after, guid) == FindGuid(before, guid)
  {
    match FindGuid(before, guid)
    case Some(n) =>
      FindGuidAt(after, n, guid);
    case None =>
      forall k | 0 <= k < |after|
        ensures after[k].guid != guid
      {
        if k < |before| {
          assert after[k].guid == before[k].guid;
        }
      }
  }

  lemma PlacedFrame(before: seq<ItemRow>, after: seq<ItemRow>, seen: set<string>, guid: string, feedId: nat)
    requires OnlyTouches(before, after, seen) && guid !in seen
    ensures Placed(after, guid, feedId) == Placed(before, guid, feedId)
    ensures Dormant(after, guid) == Dormant(before, guid)
  {
    FindGuidFrame(before, after, seen, guid);
  }

  /** The sync leaves the catalogue well formed: one row per GUID, one
      category per name, and positive feed ids. */
  predicate Valid(db: Catalogue) {
    && UniqueGuids(db.items)
    && UniqueNames(db.categories)
    && db.nextFeedId > 0
    && (forall k :: 0 <= k < |db.feeds| ==> db.feeds[k].id > 0)
  }

  /** An entry with a GUID touches only its own GUID's row. That row ends
      live and in this feed, unless it was soft-deleted and the updates are
      scoped: then the item table is left exactly as it was. */
  lemma SyncItemPlaces(db: Catalogue, feedId: nat, e: FeedEntry, cal: Calendar, unscoped: bool)
    requires e.image.Some? && feedId > 0
    requires UniqueGuids(db.items) && UniqueNames(db.categories)
    ensures var db' := SyncItem(db, feedId, e, cal, unscoped);
      && UniqueGuids(db'.items) && UniqueNames(db'.categories)
      && OnlyTouches(db.items, db'.items, {e.guid})
      && (unscoped || !Dormant(db.items, e.guid) ==> Placed(db'.items, e.guid, feedId))
      && (!unscoped && Dormant(db.items, e.guid) ==> db'.items == db.items)
  {
    var (db1, ids) := GetOrCreateAll(db, e.categories);
    if |e.categories| > 0 {
      var _ := GetOrCreateAllOnePerName(db, e.categories, 0);
    }
    StorePlaces(db1, ItemFields(feedId, e, PublishedAt(cal, e), set id | id in ids), unscoped);
  }

  lemma StorePlaces(db: Catalogue, incoming: ItemRow, unscoped: bool)
    requires incoming.feedId > 0 && !incoming.deleted
    requires UniqueGuids(db.items)
    ensures var db' := Store(db, incoming, unscoped);
      && UniqueGuids(db'.items)
      && OnlyTouches(db.items, db'.items, {incoming.guid})
      && (unscoped || !Dormant(db.items, incoming.guid) ==> Placed(db'.items, incoming.guid, incoming.feedId))
      && (!unscoped && Dormant(db.items, incoming.guid) ==> db'.items == db.items)
  {
    var db' := Store(db, incoming, unscoped);
    match FindGuid(db.items, incoming.guid)
    case None =>
      StoreCreates(db, incoming, unscoped);
    case Some(i) =>
      if unscoped || !db.items[i].deleted {
        StoreRefreshes(db, incoming, unscoped, i);
      }
  }

  /** A GUID with no row gets a new last row. */
  lemma StoreCreates(db: Catalogue, incoming: ItemRow, unscoped: bool)
    requires incoming.feedId > 0 && !incoming.deleted
    requires UniqueGuids(db.items) && FindGuid(db.items, incoming.guid).None?
    ensures var items := Store(db, incoming, unscoped).items;
      && UniqueGuids(items)
      && OnlyTouches(db.items, items, {incoming.guid})
      && Placed(items, incoming.guid, incoming.feedId)
  {
    var items := Store(db, incoming, unscoped).items;
    assert items == db.items + [incoming.(id := db.nextItemId)];
    FindGuidAt(items, |db.items|, incoming.guid);
  }

  /** A GUID whose row the update reaches keeps that row, refreshed and live. */
  lemma StoreRefreshes(db: Catalogue, incoming: ItemRow, unscoped: bool, i: nat)
    requires incoming.feedId > 0 && !incoming.deleted
    requires UniqueGuids(db.items) && FindGuid(db.items, incoming.guid) == Some(i)
    requires unscoped || !db.items[i].deleted
    ensures var items := Store(db, incoming, unscoped).items;
      && UniqueGuids(items)
      && OnlyTouches(db.items, items, {incoming.guid})
      && Placed(items, incoming.guid, incoming.feedId)
  {
    var items := Store(db, incoming, unscoped).items;
    assert items == db.items[i := RefreshItem(db.items[i].(deleted := false), incoming)];
    FindGuidAt(items, i, incoming.guid);
  }

  /** When no row before `n` has the GUID and row `n` has it, the lookup
      finds row `n`. */
  lemma FindGuidAt(items: seq<ItemRow>, n: nat, guid: string)
    requires n < |items| && items[n].guid == guid
    requires forall k :: 0 <= k < n ==> items[k].guid != guid
    ensures FindGuid(items, guid) == Some(n)
  {
  }

  /** The row an entry is stored on carries its date, or now when it has
      none, and its title when that is not empty; a soft-deleted row that
      the scoped updates do not reach keeps its own. */
  lemma SyncItemDated(db: Catalogue, feedId: nat, e: FeedEntry, cal: Calendar, unscoped: bool)
    requires e.image.Some? && feedId > 0
    requires UniqueGuids(db.items) && UniqueNames(db.categories)
    ensures var items := SyncItem(db, feedId, e, cal, unscoped).items;
      && FindGuid(items, e.guid).Some?
      && var row := items[FindGuid(items, e.guid).value];
      && (unscoped || !Dormant(db.items, e.guid) ==>
            && (cal.parse(e.published).Some? ==> row.published == cal.parse(e.published).value.seconds)
            && (cal.parse(e.published).None? ==> row.published == cal.now)
            && (e.title != "" ==> row.title == e.title))
      && (!unscoped && Dormant(db.items, e.guid) ==> row == db.items[FindGuid(db.items, e.guid).value])
  {
    SyncItemPlaces(db, feedId, e, cal, unscoped);
  }

  // ---------------------------------------------------------------------
  // The whole feed

  /** Entries with a GUID must carry an image: `item.Image.URL` is read for
      each of them. */
  predicate Imaged(entries: seq<FeedEntry>) {
    forall k :: 0 <= k < |entries| && entries[k].guid != "" ==> entries[k].image.Some?
  }

  /** The GUIDs the loop marks seen: every non-empty one. */
  function Seen(entries: seq<FeedEntry>): set<string> {
    set k | 0 <= k < |entries| && entries[k].guid != "" :: entries[k].guid
  }

  /** The item loop: entries without a GUID are skipped. */
  function SyncItems(db: Catalogue, feedId: nat, entries: seq<FeedEntry>, cal: Calendar, unscoped: bool): (r: Catalogue)
    requires Imaged(entries)
    ensures r.feeds == db.feeds && r.nextFeedId == db.nextFeedId
    ensures |db.items| <= |r.items| <= |db.items| + |entries|
    decreases |entries|
  {
    if |entries| == 0 then db
    else
      var db1 := if entries[0].guid == "" then db else SyncItem(db, feedId, entries[0], cal, unscoped);
      SyncItems(db1, feedId, entries[1..], cal, unscoped)
  }

  lemma SeenCons(entries: seq<FeedEntry>)
    requires |entries| > 0
    ensures Seen(entries) == (if entries[0].guid == "" then {} else {entries[0].guid}) + Seen(entries[1..])
  {
    forall g | g in Seen(entries)
      ensures g in (if entries[0].guid == "" then {} else {entries[0].guid}) + Seen(entries[1..])
    {
      var k :| 0 <= k < |entries| && entries[k].guid != "" && entries[k].guid == g;
      if k > 0 {
        assert entries[1..][k - 1] == entries[k];
      }
    }
    forall g | g in Seen(entries[1..])
      ensures g in Seen(entries)
    {
      var k :| 0 <= k < |entries[1..]| && entries[1..][k].guid != "" && entries[1..][k].guid == g;
      assert entries[k + 1] == entries[1..][k];
    }
  }

  /** The loop touches only seen GUIDs and keeps the catalogue well formed. */
  lemma {:induction false} SyncItemsFrame(db: Catalogue, feedId: nat, entries: seq<FeedEntry>, cal: Calendar, unscoped: bool)
    requires Imaged(entries) && feedId > 0
    requires UniqueGuids(db.items) && UniqueNames(db.categories)
    ensures var db' := SyncItems(db, feedId, entries, cal, unscoped);
      && UniqueGuids(db'.items) && UniqueNames(db'.categories)
      && OnlyTouches(db.items, db'.items, Seen(entries))
    decreases |entries|
  {
    if |entries| > 0 {
      var db1 := if entries[0].guid == "" then db else SyncItem(db, feedId, entries[0], cal, unscoped);
      var first: set<string> := if entries[0].guid == "" then {} else {entries[0].guid};
      if entries[0].guid != "" {
        SyncItemPlaces(db, feedId, entries[0], cal, unscoped);
      }
      assert OnlyTouches(db.items, db1.items, first);
      SyncItemsFrame(db1, feedId, entries[1..], cal, unscoped);
      OnlyTouchesTrans(db.items, db1.items, SyncItems(db1, feedId, entries[1..], cal, unscoped).items, first, Seen(entries[1..]));
      SeenCons(entries);
    }
  }

  /** Every seen GUID ends on a live row of this feed, except one whose row
      was soft-deleted before the loop when the updates are scoped. */
  lemma {:induction false} SyncItemsPlaces(db: Catalogue, feedId: nat, entries: seq<FeedEntry>, cal: Calendar, unscoped: bool, guid: string)
    requires Imaged(entries) && feedId > 0
    requires UniqueGuids(db.items) && UniqueNames(db.categories)
    requires guid in Seen(entries)
    ensures unscoped || !Dormant(db.items, guid) ==> Placed(SyncItems(db, feedId, entries, cal, unscoped).items, guid, feedId)
    decreases |entries|
  {
    SeenCons(entries);
    var db1 := if entries[0].guid == "" then db else SyncItem(db, feedId, entries[0], cal, unscoped);
    if entries[0].guid != "" {
      SyncItemPlaces(db, feedId, entries[0], cal, unscoped);
    }
    if unscoped || !Dormant(db.items, guid) {
      if guid != entries[0].guid {
        PlacedFrame(db.items, db1.items, if entries[0].guid == "" then {} else {entries[0].guid}, guid, feedId);
      }
      if guid in Seen(entries[1..]) {
        SyncItemsPlaces(db1, feedId, entries[1..], cal, unscoped, guid);
      } else {
        SyncItemsFrame(db1, feedId, entries[1..], cal, unscoped);
        PlacedFrame(db1.items, SyncItems(db1, feedId, entries[1..], cal, unscoped).items, Seen(entries[1..]), guid, feedId);
      }
    }
  }

  /** With scoped updates, a GUID whose row was soft-deleted before the loop
      is found at the same row afterwards, unchanged and still deleted,
      however often the feed lists it. */
  lemma {:induction false} SyncItemsLeavesDormant(db: Catalogue, feedId: nat, entries: seq<FeedEntry>, cal: Calendar, guid: string)
    requires Imaged(entries) && feedId > 0
    requires UniqueGuids(db.items) && UniqueNames(db.categories)
    requires Dormant(db.items, guid)
    ensures var items := SyncItems(db, feedId, entries, cal, false).items;
      && FindGuid(items, guid) == FindGuid(db.items, guid)
      && items[FindGuid(items, guid).value] == db.items[FindGuid(db.items, guid).value]
    decreases |entries|
  {
    if |entries| > 0 {
      var db1 := if entries[0].guid == "" then db else SyncItem(db, feedId, entries[0], cal, false);
      var first: set<string> := if entries[0].guid == "" then {} else {entries[0].guid};
      if entries[0].guid != "" {
        SyncItemPlaces(db, feedId, entries[0], cal, false);
      }
      if guid != entries[0].guid {
        FindGuidFrame(db.items, db1.items, first, guid);
        PlacedFrame(db.items, db1.items, first, guid, feedId);
      }
      SyncItemsLeavesDormant(db1, feedId, entries[1..], cal, guid);
    }
  }

  /** The soft-delete pass on one row: a live row of this feed whose GUID was
      not seen is deleted. */
  function Swept(row: ItemRow, feedId: nat, seen: set<string>): ItemRow {
    if !row.deleted && row.feedId == feedId && row.guid !in seen then row.(deleted := true) else row
  }

  /** `Where("feed_id = ?")` then `Delete` for every unseen GUID: only the
      deletion flag changes, only on this feed's rows with an unseen GUID,
      no row is undeleted, and afterwards every live row of the feed has a
      seen GUID. */
  function SoftDeleteUnseen(items: seq<ItemRow>, feedId: nat, seen: set<string>): (r: seq<ItemRow>)
    ensures |r| == |items|
    ensures forall k :: 0 <= k < |items| ==> r[k] == items[k].(deleted := r[k].deleted)
    ensures forall k :: 0 <= k < |items| && (items[k].feedId != feedId || items[k].guid in seen) ==> r[k] == items[k]
    ensures forall k :: 0 <= k < |items| && items[k].deleted ==> r[k].deleted
    ensures forall k :: 0 <= k < |items| && r[k].feedId == feedId && !r[k].deleted ==> r[k].guid in seen
  {
    seq(|items|, k requires 0 <= k < |items| => Swept(items[k], feedId, seen))
  }

  /** `ImageRssToDatabase` on an already parsed feed; the second component
      is the feed's id. `unscoped` is `false` for the code as written. */
  function ImageRssToDatabase(db: Catalogue, url: string, parsed: ParsedFeed, cal: Calendar, unscoped: bool): (r: (Catalogue, nat))
    requires Imaged(parsed.items)
    ensures |db.categories| <= |r.0.categories| && r.0.categories[..|db.categories|] == db.categories
    ensures |db.feeds| <= |r.0.feeds| <= |db.feeds| + 1
    ensures |db.items| <= |r.0.items| <= |db.items| + |parsed.items|
  {
    var (db1, feedId) := UpsertFeed(db, url, parsed);
    var db2 := SyncItems(db1, feedId, parsed.items, cal, unscoped);
    SyncCategoriesKept(db1, feedId, parsed.items, cal, unscoped);
    (db2.(items := SoftDeleteUnseen(db2.items, feedId, Seen(parsed.items))), feedId)
  }

  /** The loop only adds categories. */
  lemma {:induction false} SyncCategoriesKept(db: Catalogue, feedId: nat, entries: seq<FeedEntry>, cal: Calendar, unscoped: bool)
    requires Imaged(entries)
    ensures var db' := SyncItems(db, feedId, entries, cal, unscoped);
      |db.categories| <= |db'.categories| && db'.categories[..|db.categories|] == db.categories
    decreases |entries|
  {
    if |entries| > 0 {
      var db1 := if entries[0].guid == "" then db else SyncItem(db, feedId, entries[0], cal, unscoped);
      SyncCategoriesKept(db1, feedId, entries[1..], cal, unscoped);
      var db' := SyncItems(db1, feedId, entries[1..], cal, unscoped);
      assert db'.categories[..|db.categories|] == db'.categories[..|db1.categories|][..|db.categories|];
    }
  }

  /** The upserted feed's id is positive and the item loop keeps the
      catalogue well formed and touches only seen GUIDs. */
  lemma SyncedBeforeSweep(db: Catalogue, url: string, parsed: ParsedFeed, cal: Calendar, unscoped: bool)
    requires Imaged(parsed.items) && Valid(db)
    ensures var (db1, feedId) := UpsertFeed(db, url, parsed);
      && feedId > 0
      && db1.items == db.items
      && var db2 := SyncItems(db1, feedId, parsed.items, cal, unscoped);
         && Valid(db2)
         && OnlyTouches(db.items, db2.items, Seen(parsed.items))
  {
    var (db1, feedId) := UpsertFeed(db, url, parsed);
    var _ := UpsertFeedIsLive(db, url, parsed);
    SyncItemsFrame(db1, feedId, parsed.items, cal, unscoped);
  }

  /** After the sync a row of this feed is live exactly when the feed lists
      its GUID and the row could be reached: it was not soft-deleted before
      the sync, or the updates are unscoped. */
  lemma LiveIffListed(db: Catalogue, url: string, parsed: ParsedFeed, cal: Calendar, unscoped: bool, k: nat)
    requires Imaged(parsed.items) && Valid(db)
    requires k < |ImageRssToDatabase(db, url, parsed, cal, unscoped).0.items|
    requires var (db', feedId) := ImageRssToDatabase(db, url, parsed, cal, unscoped); db'.items[k].feedId == feedId
    ensures var (db', feedId) := ImageRssToDatabase(db, url, parsed, cal, unscoped);
      !db'.items[k].deleted <==>
        db'.items[k].guid in Seen(parsed.items) && (unscoped || !Dormant(db.items, db'.items[k].guid))
  {
    var (db1, feedId) := UpsertFeed(db, url, parsed);
    var db2 := SyncItems(db1, feedId, parsed.items, cal, unscoped);
    SyncedBeforeSweep(db, url, parsed, cal, unscoped);
    var g := db2.items[k].guid;
    if g in Seen(parsed.items) {
      if unscoped || !Dormant(db.items, g) {
        SyncItemsPlaces(db1, feedId, parsed.items, cal, unscoped, g);
        assert FindGuid(db2.items, g).value == k;
      } else {
        SyncItemsLeavesDormant(db1, feedId, parsed.items, cal, g);
        assert FindGuid(db2.items, g).value == k;
      }
    }
  }

  /** After the sync every GUID the feed lists has one row, live and in
      this feed, when the updates are unscoped, and also under scoped
      updates when its row was not soft-deleted before. */
  lemma ListedArePlaced(db: Catalogue, url: string, parsed: ParsedFeed, cal: Calendar, unscoped: bool, guid: string)
    requires Imaged(parsed.items) && Valid(db)
    requires guid in Seen(parsed.items)
    ensures var (db', feedId) := ImageRssToDatabase(db, url, parsed, cal, unscoped);
      && Valid(db')
      && (unscoped || !Dormant(db.items, guid) ==> Placed(db'.items, guid, feedId))
  {
    var (db1, feedId) := UpsertFeed(db, url, parsed);
    var db2 := SyncItems(db1, feedId, parsed.items, cal, unscoped);
    SyncedBeforeSweep(db, url, parsed, cal, unscoped);
    SyncItemsPlaces(db1, feedId, parsed.items, cal, unscoped, guid);
    var db' := ImageRssToDatabase(db, url, parsed, cal, unscoped).0;
    FindGuidSameGuids(db2.items, db'.items, guid);
  }

  /** As written, a listed GUID whose row was soft-deleted before the sync
      keeps that row deleted and unchanged: the feed lists the item but the
      catalogue does not show it. */
  lemma RelistedStaysDeleted(db: Catalogue, url: string, parsed: ParsedFeed, cal: Calendar, guid: string)
    requires Imaged(parsed.items) && Valid(db)
    requires guid in Seen(parsed.items) && Dormant(db.items, guid)
    ensures var db' := ImageRssToDatabase(db, url, parsed, cal, false).0;
      && Dormant(db'.items, guid)
      && db'.items[FindGuid(db'.items, guid).value] == db.items[FindGuid(db.items, guid).value]
  {
    var (db1, feedId) := UpsertFeed(db, url, parsed);
    var db2 := SyncItems(db1, feedId, parsed.items, cal, false);
    SyncedBeforeSweep(db, url, parsed, cal, false);
    SyncItemsLeavesDormant(db1, feedId, parsed.items, cal, guid);
    var db' := ImageRssToDatabase(db, url, parsed, cal, false).0;
    FindGuidSameGuids(db2.items, db'.items, guid);
  }

  /** A concrete catalogue: feed 1 once listed "g", dropped it (its row is
      soft-deleted) and lists it again. As written the row stays deleted;
      with unscoped updates it is live again. */
  lemma RelistExample(cal: Calendar)
    ensures var db := RelistCatalogue;
      var parsed := RelistFeed;
      && Dormant(ImageRssToDatabase(db, "u", parsed, cal, false).0.items, "g")
      && Placed(ImageRssToDatabase(db, "u", parsed, cal, true).0.items, "g", 1)
  {
    var db := RelistCatalogue;
    var parsed := RelistFeed;
    assert Seen(parsed.items) == {"g"} by {
      assert parsed.items[0].guid == "g";
    }
    assert FindGuid(db.items, "g") == Some(0);
    RelistedStaysDeleted(db, "u", parsed, cal, "g");
    ListedArePlaced(db, "u", parsed, cal, true, "g");
    assert FindLiveFeed(db.feeds, "u", 0) == Some(0);
  }

  const RelistCatalogue: Catalogue :=
    Catalogue([FeedFields(1, "u", ParsedFeed("", "", "", "", "", "", []))],
              [ItemRow(1, 1, "t", "", "", ImageType, "i", 0, "g", {}, true)],
              [], 2, 2, 1)

  const RelistFeed: ParsedFeed :=
    ParsedFeed("", "", "", "", "", "", [FeedEntry("t", "", "g", "", "", Some("i"), [])])

  /** The GUID lookup sees only the GUIDs. */
  lemma FindGuidSameGuids(a: seq<ItemRow>, b: seq<ItemRow>, guid: string)
    requires |a| == |b|
    requires forall j :: 0 <= j < |a| ==> a[j].guid == b[j].guid
    ensures FindGuid(a, guid) == FindGuid(b, guid)
  {
    if FindGuid(a, guid).Some? {
      FindGuidAt(b, FindGuid(a, guid).value, guid);
    } else if FindGuid(b, guid).Some? {
      FindGuidAt(a, FindGuid(b, guid).value, guid);
    }
  }

  /** No row is ever removed: every earlier row keeps its place, id and
      GUID, rows of other feeds whose GUID the feed does not list are left
      alone, and every new row has a listed, hence non-empty, GUID. */
  lemma RowsAreKept(db: Catalogue, url: string, parsed: ParsedFeed, cal: Calendar, unscoped: bool)
    requires Imaged(parsed.items) && Valid(db)
    ensures var (db', feedId) := ImageRssToDatabase(db, url, parsed, cal, unscoped);
      && |db.items| <= |db'.items|
      && (forall j :: 0 <= j < |db.items| ==> db'.items[j].id == db.items[j].id && db'.items[j].guid == db.items[j].guid)
      && (forall j :: 0 <= j < |db.items| && db.items[j].guid !in Seen(parsed.items) && db.items[j].feedId != feedId
            ==> db'.items[j] == db.items[j])
      && (forall j :: |db.items| <= j < |db'.items| ==> db'.items[j].guid in Seen(parsed.items) && db'.items[j].guid != "")
  {
    SyncedBeforeSweep(db, url, parsed, cal, unscoped);
  }
}
