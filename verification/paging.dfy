/**
 * The three "fetch everything" loops of src/backfill/main.go, as one
 * cursor-driven loop instantiated with each platform's rule for the next
 * cursor. The server is an oracle from the request's cursor to a decoded
 * page or an error. The Go loops run while the server keeps producing pages;
 * here a page budget bounds the number of requests, and running out of it is
 * reported as `OutOfBudget`.
 */
module Paging {
  import opened Common

  /** One decoded response: its items and the server's link to the next page
      (the Bluesky cursor, the Instagram `paging.next`; unused by Pixelfed). */
  datatype Page<T> = Page(items: seq<T>, next: string)

  datatype Stop = Exhausted | Failed(error: Error) | OutOfBudget

  /** Everything gathered, the cursors requested in order, and why it stopped. */
  datatype Fetched<T> = Fetched(items: seq<T>, requests: seq<string>, stop: Stop)

  /** The items of every request that came back, in request order. */
  function Collected<T>(server: string -> Result<Page<T>>, requests: seq<string>): seq<T> {
    if |requests| == 0 then []
    else
      (match server(requests[0]) case Ok(p) => p.items case Err(_) => [])
        + Collected(server, requests[1..])
  }

  lemma {:induction false} CollectedAppend<T>(server: string -> Result<Page<T>>, a: seq<string>, b: seq<string>)
    ensures Collected(server, a + b) == Collected(server, a) + Collected(server, b)
  {
    if |a| == 0 {
      assert a + b == b;
    } else {
      assert (a + b)[1..] == a[1..] + b;
      CollectedAppend(server, a[1..], b);
    }
  }

  /** Request `cursor`, append the page, and go on with `step`'s next cursor
      until `step` says stop, a request fails, or `budget` requests were made.
      On failure the items gathered so far are returned with the error, as
      the Go functions do. */
  function FetchAll<T>(server: string -> Result<Page<T>>, step: Page<T> -> Option<string>,
                       cursor: string, budget: nat): (r: Fetched<T>)
    ensures |r.requests| <= budget
    ensures budget > 0 ==> |r.requests| > 0 && r.requests[0] == cursor
    decreases budget
  {
    if budget == 0 then Fetched([], [], OutOfBudget)
    else match server(cursor)
      case Err(e) => Fetched([], [cursor], Failed(e))
      case Ok(p) =>
        match step(p)
        case None => Fetched(p.items, [cursor], Exhausted)
        case Some(c) =>
          var rest := FetchAll(server, step, c, budget - 1);
          Fetched(p.items + rest.items, [cursor] + rest.requests, rest.stop)
  }

  /** What a run did: it requested a chain of cursors, each the `step` of the
      page before; it returned exactly those pages' items in order; and its
      stop reason is the last request's outcome. */
  lemma {:induction false} FetchAllChain<T>(server: string -> Result<Page<T>>, step: Page<T> -> Option<string>,
                                             cursor: string, budget: nat)
    ensures var r := FetchAll(server, step, cursor, budget);
      && r.items == Collected(server, r.requests)
      && (forall i :: 0 <= i < |r.requests| - 1 ==>
            server(r.requests[i]).Ok? && step(server(r.requests[i]).value) == Some(r.requests[i + 1]))
      && (r.stop.Failed? ==> |r.requests| > 0 && server(r.requests[|r.requests| - 1]) == Err(r.stop.error))
      && (r.stop.Exhausted? ==>
            |r.requests| > 0 && server(r.requests[|r.requests| - 1]).Ok? &&
            step(server(r.requests[|r.requests| - 1]).value).None?)
      && (r.stop.OutOfBudget? ==>
            |r.requests| == budget &&
            (budget > 0 ==> server(r.requests[budget - 1]).Ok? && step(server(r.requests[budget - 1]).value).Some?))
    decreases budget
  {
    if budget > 0 {
      match server(cursor)
      case Err(e) =>
      case Ok(p) =>
        match step(p)
        case None =>
        case Some(c) =>
          FetchAllChain(server, step, c, budget - 1);
          var rest := FetchAll(server, step, c, budget - 1);
          var r := FetchAll(server, step, cursor, budget);
          assert r.requests == [cursor] + rest.requests;
          assert r.requests[1..] == rest.requests;
          assert r.items == p.items + rest.items;
    }
  }

  /** The budget only truncates: a run that stopped on its own within a
      budget gives the same result under any larger one. */
  lemma {:induction false} BudgetIrrelevant<T>(server: string -> Result<Page<T>>, step: Page<T> -> Option<string>,
                                                cursor: string, budget: nat, budget': nat)
    requires budget <= budget'
    requires !FetchAll(server, step, cursor, budget).stop.OutOfBudget?
    ensures FetchAll(server, step, cursor, budget') == FetchAll(server, step, cursor, budget)
    decreases budget
  {
    assert budget > 0;
    match server(cursor)
    case Err(_) =>
    case Ok(p) =>
      match step(p)
      case None =>
      case Some(c) =>
        BudgetIrrelevant(server, step, c, budget - 1, budget' - 1);
  }

  // ---------------------------------------------------------------------
  // The three platforms

  datatype PixelfedStatus = PixelfedStatus(id: string, url: string, media: seq<string>)

  /** `fetchAllPixelfedStatuses`: stop at the first empty page; otherwise the
      last status's ID is the next `max_id` (the empty cursor means none). */
  function PixelfedStep(p: Page<PixelfedStatus>): (c: Option<string>)
    ensures c.None? <==> |p.items| == 0
    ensures c.Some? ==> c.value == p.items[|p.items| - 1].id
  {
    if |p.items| == 0 then None else Some(p.items[|p.items| - 1].id)
  }

  datatype BlueskyPost = BlueskyPost(uri: string, cid: string, fullsize: seq<string>)

  /** `fetchAllBlueskyPosts`: stop on an empty feed or an empty cursor. */
  function BlueskyStep(p: Page<BlueskyPost>): (c: Option<string>)
    ensures c.None? <==> |p.items| == 0 || p.next == ""
    ensures c.Some? ==> c.value == p.next
  {
    if |p.items| == 0 || p.next == "" then None else Some(p.next)
  }

  datatype InstagramMedia = InstagramMedia(id: string, mediaUrl: string)

  /** `fetchAllInstagramMedia`: follow `paging.next` until it is empty, even
      past pages with no data. The empty cursor stands for the first URL,
      built from the account id and access token. */
  function InstagramStep(p: Page<InstagramMedia>): (c: Option<string>)
    ensures c.None? <==> p.next == ""
    ensures c.Some? ==> c.value == p.next
  {
    if p.next == "" then None else Some(p.next)
  }

  /** The cursor of a run's last request. */
  function LastRequest<T>(r: Fetched<T>): string
    requires |r.requests| > 0
  {
    r.requests[|r.requests| - 1]
  }

  function FetchAllPixelfedStatuses(server: string -> Result<Page<PixelfedStatus>>, budget: nat): Fetched<PixelfedStatus> {
    FetchAll(server, PixelfedStep, "", budget)
  }

  function FetchAllBlueskyPosts(server: string -> Result<Page<BlueskyPost>>, budget: nat): Fetched<BlueskyPost> {
    FetchAll(server, BlueskyStep, "", budget)
  }

  function FetchAllInstagramMedia(server: string -> Result<Page<InstagramMedia>>, budget: nat): Fetched<InstagramMedia> {
    FetchAll(server, InstagramStep, "", budget)
  }

  /** `fetchAllPixelfedStatuses`: the first request has no `max_id`; each
      later one asks for the statuses before the last status of a non-empty
      page; the statuses are every page's, in order; and the run ends
      normally only on an empty page. */
  lemma PixelfedPaging(server: string -> Result<Page<PixelfedStatus>>, budget: nat)
    ensures var r := FetchAllPixelfedStatuses(server, budget);
      && (budget > 0 ==> |r.requests| > 0 && r.requests[0] == "")
      && r.items == Collected(server, r.requests)
      && (forall i :: 0 <= i < |r.requests| - 1 ==>
            && server(r.requests[i]).Ok? && |server(r.requests[i]).value.items| > 0
            && r.requests[i + 1] == server(r.requests[i]).value.items[|server(r.requests[i]).value.items| - 1].id)
      && (r.stop.Exhausted? ==>
            |r.requests| > 0 && server(LastRequest(r)).Ok? && |server(LastRequest(r)).value.items| == 0)
      && (r.stop.Failed? ==> |r.requests| > 0 && server(LastRequest(r)) == Err(r.stop.error))
  {
    var r := FetchAllPixelfedStatuses(server, budget);
    FetchAllChain(server, PixelfedStep, "", budget);
    forall i | 0 <= i < |r.requests| - 1
      ensures && server(r.requests[i]).Ok? && |server(r.requests[i]).value.items| > 0
              && r.requests[i + 1] == server(r.requests[i]).value.items[|server(r.requests[i]).value.items| - 1].id
    {
      assert PixelfedStep(server(r.requests[i]).value) == Some(r.requests[i + 1]);
    }
  }

  /** `fetchAllBlueskyPosts`: the first request has no cursor; each later
      one sends the cursor of a non-empty page; the posts are every page's,
      in order; and the run ends normally on an empty page or one with no
      cursor. */
  lemma BlueskyPaging(server: string -> Result<Page<BlueskyPost>>, budget: nat)
    ensures var r := FetchAllBlueskyPosts(server, budget);
      && (budget > 0 ==> |r.requests| > 0 && r.requests[0] == "")
      && r.items == Collected(server, r.requests)
      && (forall i :: 0 <= i < |r.requests| - 1 ==>
            && server(r.requests[i]).Ok? && |server(r.requests[i]).value.items| > 0
            && r.requests[i + 1] == server(r.requests[i]).value.next != "")
      && (r.stop.Exhausted? ==>
            && |r.requests| > 0 && server(LastRequest(r)).Ok?
            && (|server(LastRequest(r)).value.items| == 0 || server(LastRequest(r)).value.next == ""))
      && (r.stop.Failed? ==> |r.requests| > 0 && server(LastRequest(r)) == Err(r.stop.error))
  {
    var r := FetchAllBlueskyPosts(server, budget);
    FetchAllChain(server, BlueskyStep, "", budget);
    forall i | 0 <= i < |r.requests| - 1
      ensures && server(r.requests[i]).Ok? && |server(r.requests[i]).value.items| > 0
              && r.requests[i + 1] == server(r.requests[i]).value.next != ""
    {
      assert BlueskyStep(server(r.requests[i]).value) == Some(r.requests[i + 1]);
    }
  }

  /** `fetchAllInstagramMedia`: the first request is the built URL; each
      later one follows the `paging.next` of the page before, empty pages
      included; the media are every page's, in order; and the run ends
      normally only when `paging.next` is empty. */
  lemma InstagramPaging(server: string -> Result<Page<InstagramMedia>>, budget: nat)
    ensures var r := FetchAllInstagramMedia(server, budget);
      && (budget > 0 ==> |r.requests| > 0 && r.requests[0] == "")
      && r.items == Collected(server, r.requests)
      && (forall i :: 0 <= i < |r.requests| - 1 ==>
            server(r.requests[i]).Ok? && r.requests[i + 1] == server(r.requests[i]).value.next != "")
      && (r.stop.Exhausted? ==>
            |r.requests| > 0 && server(LastRequest(r)).Ok? && server(LastRequest(r)).value.next == "")
      && (r.stop.Failed? ==> |r.requests| > 0 && server(LastRequest(r)) == Err(r.stop.error))
  {
    var r := FetchAllInstagramMedia(server, budget);
    FetchAllChain(server, InstagramStep, "", budget);
    forall i | 0 <= i < |r.requests| - 1
      ensures server(r.requests[i]).Ok? && r.requests[i + 1] == server(r.requests[i]).value.next != ""
    {
      assert InstagramStep(server(r.requests[i]).value) == Some(r.requests[i + 1]);
    }
  }

  /** Pixelfed: two full pages and then an empty one give the two pages'
      statuses in order, after requesting max_id "" , then the last ID of each. */
  lemma PixelfedTwoPages(server: string -> Result<Page<PixelfedStatus>>, s1: PixelfedStatus, s2: PixelfedStatus,
                         s3: PixelfedStatus)
    requires server("") == Ok(Page([s1, s2], ""))
    requires server(s2.id) == Ok(Page([s3], ""))
    requires server(s3.id) == Ok(Page([], ""))
    ensures FetchAllPixelfedStatuses(server, 3) == Fetched([s1, s2, s3], ["", s2.id, s3.id], Exhausted)
  {
    assert PixelfedStep(Page([s1, s2], "")) == Some(s2.id);
    assert PixelfedStep(Page([s3], "")) == Some(s3.id);
    assert FetchAll(server, PixelfedStep, s3.id, 1) == Fetched([], [s3.id], Exhausted);
    assert FetchAll(server, PixelfedStep, s2.id, 2) == Fetched([s3], [s2.id, s3.id], Exhausted);
  }

  /** Bluesky keeps the last page even when it carries no cursor. */
  lemma BlueskyLastPageKept(server: string -> Result<Page<BlueskyPost>>, p: BlueskyPost, budget: nat)
    requires budget > 0
    requires server("") == Ok(Page([p], ""))
    ensures FetchAllBlueskyPosts(server, budget) == Fetched([p], [""], Exhausted)
  {
  }

  /** A failing request ends the loop with its error, keeping earlier pages. */
  lemma FailureKeepsEarlierPages(server: string -> Result<Page<InstagramMedia>>, m: InstagramMedia, e: Error, budget: nat)
    requires budget >= 2
    requires server("") == Ok(Page([m], "next"))
    requires server("next") == Err(e)
    ensures FetchAllInstagramMedia(server, budget) == Fetched([m], ["", "next"], Failed(e))
  {
    assert FetchAll(server, InstagramStep, "next", budget - 1) == Fetched([], ["next"], Failed(e));
  }
}
