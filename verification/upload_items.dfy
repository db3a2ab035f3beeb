/**
 * The auto-upload table: one row per (item, platform) publication, with the
 * three platform identifiers that backfill fills in later
 * (src/backfill/main.go). A SQL NULL is `None`.
 */
module UploadItems {
  import opened Common

  datatype AutoUploadItem = AutoUploadItem(
    id: nat,
    platform: string,
    itemName: string,
    postUrl: Option<string>,
    versionId: Option<string>,
    postId: Option<string>)

  /** The three identifier columns. */
  datatype Column = PostUrl | VersionId | PostId

  function ColumnValue(it: AutoUploadItem, c: Column): Option<string> {
    match c
    case PostUrl => it.postUrl
    case VersionId => it.versionId
    case PostId => it.postId
  }

  /** The columns each platform needs, as the per-platform comments describe
      them: an independent statement of what "complete" means. */
  function RequiredColumns(platform: string): set<Column> {
    if platform == "bluesky" then {PostUrl, VersionId}
    else if platform == "instagram" then {PostId}
    else if platform == "pixelfed" then {PostUrl, PostId}
    else {PostUrl, VersionId, PostId}
  }

  /** The per-platform `WHERE` clause of `getItemsNeedingBackfill`. */
  predicate NeedsBackfill(platform: string, it: AutoUploadItem) {
    match platform
    case "bluesky" => it.postUrl.None? || it.versionId.None?
    case "instagram" => it.postId.None?
    case "pixelfed" => it.postUrl.None? || it.postId.None?
    case _ => it.postUrl.None? || it.postId.None? || it.versionId.None?
  }

  /** The query is exactly "some required column is NULL". */
  lemma NeedsBackfillIffMissingRequired(platform: string, it: AutoUploadItem)
    ensures NeedsBackfill(platform, it) <==> exists c :: c in RequiredColumns(platform) && ColumnValue(it, c).None?
  {
    if NeedsBackfill(platform, it) {
      if platform == "instagram" {
        assert PostId in RequiredColumns(platform) && ColumnValue(it, PostId).None?;
      } else if it.postUrl.None? && platform != "instagram" {
        assert PostUrl in RequiredColumns(platform) && ColumnValue(it, PostUrl).None?;
      } else if platform == "bluesky" || (platform != "pixelfed" && it.versionId.None?) {
        assert VersionId in RequiredColumns(platform) && ColumnValue(it, VersionId).None?;
      } else {
        assert PostId in RequiredColumns(platform) && ColumnValue(it, PostId).None?;
      }
    }
  }

  /** A Pixelfed row is complete without a version id; an Instagram row needs
      only its post id; an unknown platform needs all three. */
  lemma BackfillExamples(it: AutoUploadItem)
    ensures it.postUrl.Some? && it.postId.Some? && it.versionId.None? ==>
              !NeedsBackfill("pixelfed", it) && NeedsBackfill("bluesky", it) && NeedsBackfill("mastodon", it)
    ensures it.postId.Some? ==> !NeedsBackfill("instagram", it)
    ensures it.postUrl.Some? && it.versionId.Some? && it.postId.None? ==>
              !NeedsBackfill("bluesky", it) && NeedsBackfill("pixelfed", it) && NeedsBackfill("instagram", it)
  {
  }

  /** `getItemsNeedingBackfill`: the platform's rows with a required column
      NULL, in table order. */
  function ItemsNeedingBackfill(table: seq<AutoUploadItem>, platform: string): (r: seq<AutoUploadItem>)
    ensures forall x :: x in r <==> x in table && x.platform == platform && NeedsBackfill(platform, x)
  {
    Filter(table, (it: AutoUploadItem) => it.platform == platform && NeedsBackfill(platform, it))
  }

  /** The row as `updateAutoUploadItem` leaves it when it matches. */
  function WithIdentifiers(it: AutoUploadItem, postUrl: Option<string>, versionId: Option<string>,
                           postId: Option<string>): AutoUploadItem
  {
    it.(postUrl := postUrl, versionId := versionId, postId := postId)
  }

  predicate Matches(it: AutoUploadItem, itemName: string, platform: string) {
    it.itemName == itemName && it.platform == platform
  }

  /** `updateAutoUploadItem`: every row for (itemName, platform) gets all three
      columns set to the given values, NULLs included; no other row changes. */
  function UpdateAutoUploadItem(table: seq<AutoUploadItem>, itemName: string, platform: string,
                                postUrl: Option<string>, versionId: Option<string>, postId: Option<string>)
    : (r: seq<AutoUploadItem>)
    ensures |r| == |table|
    ensures forall i :: 0 <= i < |table| && !Matches(table[i], itemName, platform) ==> r[i] == table[i]
    ensures forall i :: 0 <= i < |table| && Matches(table[i], itemName, platform) ==>
              && r[i].id == table[i].id && Matches(r[i], itemName, platform)
              && r[i].postUrl == postUrl && r[i].versionId == versionId && r[i].postId == postId
  {
    if |table| == 0 then []
    else
      var head := if Matches(table[0], itemName, platform) then WithIdentifiers(table[0], postUrl, versionId, postId)
                  else table[0];
      [head] + UpdateAutoUploadItem(table[1..], itemName, platform, postUrl, versionId, postId)
  }

  /** Running the same update twice changes nothing more. */
  lemma UpdateIdempotent(table: seq<AutoUploadItem>, itemName: string, platform: string,
                         postUrl: Option<string>, versionId: Option<string>, postId: Option<string>)
    ensures var once := UpdateAutoUploadItem(table, itemName, platform, postUrl, versionId, postId);
      UpdateAutoUploadItem(once, itemName, platform, postUrl, versionId, postId) == once
  {
    var once := UpdateAutoUploadItem(table, itemName, platform, postUrl, versionId, postId);
    var twice := UpdateAutoUploadItem(once, itemName, platform, postUrl, versionId, postId);
    assert forall i :: 0 <= i < |once| ==> twice[i] == once[i];
  }

  /** The identifiers each platform's backfill writes complete that platform's
      rows: Pixelfed (url, NULL, id), Bluesky (uri, cid, NULL) and Instagram
      (NULL, NULL, id). No row it updated needs backfill afterwards. */
  lemma UpdateCompletes(table: seq<AutoUploadItem>, itemName: string, platform: string, a: string, b: string)
    requires platform in {"pixelfed", "bluesky", "instagram"}
    ensures var r := UpdateAutoUploadItem(table, itemName, platform, PlatformIdentifiers(platform, a, b).0,
                                          PlatformIdentifiers(platform, a, b).1, PlatformIdentifiers(platform, a, b).2);
      forall i :: 0 <= i < |r| && Matches(table[i], itemName, platform) ==> !NeedsBackfill(platform, r[i])
  {
  }

  /** The (post_url, version_id, post_id) triple written per platform from a
      post's two identifiers. */
  function PlatformIdentifiers(platform: string, a: string, b: string): (Option<string>, Option<string>, Option<string>) {
    if platform == "pixelfed" then (Some(a), None, Some(b))
    else if platform == "bluesky" then (Some(a), Some(b), None)
    else (None, None, Some(a))
  }

  /** A Pixelfed match erases a version id that was already stored. */
  lemma PixelfedUpdateNullsVersion(table: seq<AutoUploadItem>, i: nat, url: string, id: string)
    requires i < |table| && table[i].platform == "pixelfed" && table[i].versionId.Some?
    ensures UpdateAutoUploadItem(table, table[i].itemName, "pixelfed", Some(url), None, Some(id))[i].versionId.None?
  {
  }
}
