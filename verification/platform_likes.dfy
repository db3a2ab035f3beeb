/**
 * The per-platform like fetchers of the interactions package
 * (src/interactions/pixelfed.go, src/interactions/instagram.go and the thin
 * Bluesky wrapper): the checks made before any request, the token lookups,
 * and how an HTTP status becomes a result or an error.
 *
 * An HTTP exchange is an oracle answer: a transport failure (its message),
 * or a status with the decoded body (`None` when the body does not decode).
 * Neither a transport failure nor a URL that does not parse is ever one of
 * the rate-limit sentinels.
 */
module PlatformLikes {
  import opened Common
  import opened Config
  import opened UploadItems

  /** A string pointer that is nil or points at "". */
  predicate Absent(s: Option<string>) {
    s.None? || s.value == ""
  }

  // ---------------------------------------------------------------------
  // Pixelfed

  datatype PixelfedLikes = PixelfedLikes(instance: string, postId: string, accounts: seq<string>)

  /** `extractInstance`: the URL's host, trimmed; a URL that does not parse,
      or a blank host, is an error. `parseHost` is `url.Parse(..).Host`,
      `None` when the URL does not parse. */
  function ExtractInstance(postUrl: string, parseHost: string -> Option<string>): (r: Result<string>)
    ensures parseHost(postUrl).None? ==> r.Err?
    ensures r.Ok? ==> r.value != "" && r.value == TrimSpace(parseHost(postUrl).value)
    ensures parseHost(postUrl).Some? ==> (r.Err? <==> Blank(parseHost(postUrl).value))
    ensures r.Err? ==> !IsRateLimited(r.error)
  {
    match parseHost(postUrl)
    case None => Err(Message("invalid post URL"))
    case Some(host) =>
      var h := TrimSpace(host);
      if h == "" then Err(Message("no host in post URL")) else Ok(h)
  }

  /** `getPixelfedToken`: the PAT of the first target with that name, or "". */
  function PixelfedToken(targets: seq<Target>, targetName: string): (token: string)
    ensures (forall i :: 0 <= i < |targets| ==> targets[i].name != targetName) ==> token == ""
    ensures token != "" ==> exists i :: 0 <= i < |targets| && targets[i].name == targetName && targets[i].pat == token
    ensures forall i :: 0 <= i < |targets| && targets[i].name == targetName &&
                        (forall j :: 0 <= j < i ==> targets[j].name != targetName)
                        ==> token == targets[i].pat
  {
    TargetNamed(targets, targetName).pat
  }

  const ErrRateLimited: Error := SentinelError(InteractionsRateLimited)

  /** `handlePixelfedLikes`. `call(instance, postId, token)` is the
      `favourited_by` request. */
  function HandlePixelfedLikes(item: AutoUploadItem, targetName: string, targets: seq<Target>,
                               parseHost: string -> Option<string>,
                               call: (string, string, string) -> Reply<seq<string>>): (r: Result<PixelfedLikes>)
    ensures Absent(item.postUrl) || Absent(item.postId) ==> r == Err(Message("missing PostURL or PostID"))
    ensures r.Ok? ==> && !Absent(item.postUrl) && !Absent(item.postId)
                      && r.value.postId == item.postId.value
                      && ExtractInstance(item.postUrl.value, parseHost) == Ok(r.value.instance)
                      && PixelfedToken(targets, targetName) != ""
    ensures r.Ok? ==> var reply := call(r.value.instance, item.postId.value, PixelfedToken(targets, targetName));
              reply.Reply? && Success(reply.status) && reply.body == Some(r.value.accounts)
    ensures && !Absent(item.postUrl) && !Absent(item.postId)
            && ExtractInstance(item.postUrl.value, parseHost).Ok?
            && PixelfedToken(targets, targetName) != ""
            ==> var instance := ExtractInstance(item.postUrl.value, parseHost).value;
                var reply := call(instance, item.postId.value, PixelfedToken(targets, targetName));
                reply.Reply? && Success(reply.status) && reply.body.Some? ==>
                  r == Ok(PixelfedLikes(instance, item.postId.value, reply.body.value))
  {
    if Absent(item.postUrl) || Absent(item.postId) then Err(Message("missing PostURL or PostID"))
    else match ExtractInstance(item.postUrl.value, parseHost)
      case Err(e) => Err(Wrap("parse instance", e))
      case Ok(instance) =>
        var token := PixelfedToken(targets, targetName);
        if token == "" then Err(Message("empty Pixelfed token"))
        else match call(instance, item.postId.value, token)
          case TransportError(reason) => Err(Message(reason))
          case Reply(status, body) =>
            if status == TooManyRequests then Err(ErrRateLimited)
            else if !Success(status) then Err(BadStatus(status))
            else match body
              case None => Err(Wrap("decode response", Message("invalid JSON")))
              case Some(accounts) => Ok(PixelfedLikes(instance, item.postId.value, accounts))
  }

  /** A Pixelfed fetch is rate limited exactly when the checks pass, the
      request is made and it answers 429. */
  lemma PixelfedRateLimitedIff(item: AutoUploadItem, targetName: string, targets: seq<Target>,
                               parseHost: string -> Option<string>, call: (string, string, string) -> Reply<seq<string>>)
    ensures var r := HandlePixelfedLikes(item, targetName, targets, parseHost, call);
      (r.Err? && IsRateLimited(r.error)) <==>
        && !Absent(item.postUrl) && !Absent(item.postId)
        && ExtractInstance(item.postUrl.value, parseHost).Ok?
        && PixelfedToken(targets, targetName) != ""
        && var reply := call(ExtractInstance(item.postUrl.value, parseHost).value, item.postId.value,
                             PixelfedToken(targets, targetName));
           reply.Reply? && reply.status == TooManyRequests
  {
  }

  // ---------------------------------------------------------------------
  // Instagram

  datatype InstagramLikes = InstagramLikes(mediaId: string, likeCount: int)

  /** `getInstagramToken`: the access token of the first target with that
      name, or "". */
  function InstagramToken(targets: seq<Target>, targetName: string): (token: string)
    ensures (forall i :: 0 <= i < |targets| ==> targets[i].name != targetName) ==> token == ""
    ensures |targets| > 0 && targets[0].name == targetName ==> token == targets[0].accessToken
    decreases |targets|
  {
    if |targets| == 0 then ""
    else if targets[0].name == targetName then targets[0].accessToken
    else InstagramToken(targets[1..], targetName)
  }

  /** Both token lookups read the same target: the first with that name. */
  lemma {:induction false} TokenLookupsAgree(targets: seq<Target>, targetName: string)
    ensures InstagramToken(targets, targetName) == TargetNamed(targets, targetName).accessToken
    decreases |targets|
  {
    if |targets| > 0 && targets[0].name != targetName {
      TokenLookupsAgree(targets[1..], targetName);
      var t := TargetNamed(targets, targetName);
      var t' := TargetNamed(targets[1..], targetName);
      if exists i :: 0 <= i < |targets[1..]| && targets[1..][i].name == targetName {
        var i :| 0 <= i < |targets[1..]| && t' == targets[1..][i] &&
          forall j :: 0 <= j < i ==> targets[1..][j].name != targetName;
        assert targets[i + 1].name == targetName;
        var k :| 0 <= k < |targets| && t == targets[k] && forall j :: 0 <= j < k ==> targets[j].name != targetName;
        assert k == i + 1;
      }
    }
  }

  /** `getInstagramLikeCount`. `call(mediaId, token)` is the Graph request. */
  function InstagramLikeCount(mediaId: string, token: string, call: (string, string) -> Reply<int>): (r: Result<int>)
    ensures r.Err? && IsRateLimited(r.error) <==> call(mediaId, token).Reply? && call(mediaId, token).status == TooManyRequests
    ensures r.Ok? <==> call(mediaId, token).Reply? && Success(call(mediaId, token).status) && call(mediaId, token).body.Some?
  {
    match call(mediaId, token)
    case TransportError(reason) => Err(Message(reason))
    case Reply(status, body) =>
      if status == TooManyRequests then Err(ErrRateLimited)
      else if !Success(status) then Err(BadStatus(status))
      else match body
        case None => Err(Wrap("decode response", Message("invalid JSON")))
        case Some(n) => Ok(n)
  }

  /** `handleInstagramLikes`: the rate-limit sentinel survives the `%w` wrap. */
  function HandleInstagramLikes(item: AutoUploadItem, targetName: string, targets: seq<Target>,
                                call: (string, string) -> Reply<int>): (r: Result<InstagramLikes>)
    ensures Absent(item.postId) ==> r == Err(Message("missing PostID"))
    ensures !Absent(item.postId) && InstagramToken(targets, targetName) == "" ==> r == Err(Message("empty Instagram access token"))
    ensures r.Ok? ==> && !Absent(item.postId) && r.value.mediaId == item.postId.value
                      && InstagramLikeCount(item.postId.value, InstagramToken(targets, targetName), call) == Ok(r.value.likeCount)
    ensures r.Err? && IsRateLimited(r.error) <==>
              !Absent(item.postId) && InstagramToken(targets, targetName) != "" &&
              call(item.postId.value, InstagramToken(targets, targetName)).Reply? &&
              call(item.postId.value, InstagramToken(targets, targetName)).status == TooManyRequests
    ensures !Absent(item.postId) && InstagramToken(targets, targetName) != "" ==>
              var count := InstagramLikeCount(item.postId.value, InstagramToken(targets, targetName), call);
              count.Ok? ==> r == Ok(InstagramLikes(item.postId.value, count.value))
  {
    if Absent(item.postId) then Err(Message("missing PostID"))
    else
      var token := InstagramToken(targets, targetName);
      if token == "" then Err(Message("empty Instagram access token"))
      else match InstagramLikeCount(item.postId.value, token, call)
        case Err(e) => Err(Wrap("failed to get Instagram likes", e))
        case Ok(n) => Ok(InstagramLikes(item.postId.value, n))
  }

  // ---------------------------------------------------------------------
  // Bluesky

  datatype BlueskyLikes = BlueskyLikes(uri: string, cid: string, likes: seq<string>)

  /** `BlueskyLogin`'s status handling; 429 gives that package's own sentinel. */
  function BlueskyLogin(reply: Reply<string>): (r: Result<string>)
    ensures r.Err? ==> !IsRateLimited(r.error)
    ensures reply.Reply? && reply.status == TooManyRequests ==> r == Err(SentinelError(BlueskyApiRateLimited))
  {
    match reply
    case TransportError(reason) => Err(Message(reason))
    case Reply(status, body) =>
      if status == TooManyRequests then Err(SentinelError(BlueskyApiRateLimited))
      else if status != 200 then Err(BadStatus(status))
      else match body
        case None => Err(Message("invalid session JSON"))
        case Some(jwt) => Ok(jwt)
  }

  /** `handleBlueskyLikes` with `GetBlueskyLikes`: only nil pointers are
      refused up front (an empty string is sent); the login uses the first
      target with that name (its username and PAT); any status but 200 from
      `getLikes` is an error. `login(username, pat)` answers the session
      request with the access token; `call(uri, cid, jwt)` answers `getLikes`. */
  function HandleBlueskyLikes(item: AutoUploadItem, targetName: string, targets: seq<Target>,
                              login: (string, string) -> Reply<string>,
                              call: (string, string, string) -> Reply<BlueskyLikes>): (r: Result<BlueskyLikes>)
    ensures item.postUrl.None? || item.versionId.None? ==> r == Err(Message("post URL or version ID is nil"))
    ensures r.Ok? ==> item.postUrl.Some? && item.versionId.Some?
    ensures r.Err? ==> !IsRateLimited(r.error)
  {
    if item.postUrl.None? || item.versionId.None? then Err(Message("post URL or version ID is nil"))
    else
      var target := TargetNamed(targets, targetName);
      match BlueskyLogin(login(target.username, target.pat))
      case Err(e) => Err(Wrap("GetBlueskyLikes failed", e))
      case Ok(jwt) =>
        match call(item.postUrl.value, item.versionId.value, jwt)
        case TransportError(_) => Err(Wrap("GetBlueskyLikes failed", Message("failed to call Bluesky API")))
        case Reply(status, body) =>
          if status != 200 then Err(Wrap("GetBlueskyLikes failed", BadStatus(status)))
          else match body
            case None => Err(Wrap("GetBlueskyLikes failed", Message("failed to parse JSON")))
            case Some(likes) => Ok(likes)
  }

  /** A 429 at login comes back as the blue_sky_api sentinel inside the
      wrap, and a 429 from `getLikes` as a plain status error: neither is the
      interactions package's rate-limit error. */
  lemma BlueskyTooManyRequests(item: AutoUploadItem, targetName: string, targets: seq<Target>,
                               login: (string, string) -> Reply<string>,
                               call: (string, string, string) -> Reply<BlueskyLikes>)
    requires item.postUrl.Some? && item.versionId.Some?
    ensures var t := TargetNamed(targets, targetName);
      login(t.username, t.pat).Reply? && login(t.username, t.pat).status == TooManyRequests ==>
        HandleBlueskyLikes(item, targetName, targets, login, call) ==
          Err(Wrap("GetBlueskyLikes failed", SentinelError(BlueskyApiRateLimited)))
    ensures var t := TargetNamed(targets, targetName);
      login(t.username, t.pat).Reply? && login(t.username, t.pat).status == 200 && login(t.username, t.pat).body.Some? &&
      call(item.postUrl.value, item.versionId.value, login(t.username, t.pat).body.value).Reply? &&
      call(item.postUrl.value, item.versionId.value, login(t.username, t.pat).body.value).status == TooManyRequests ==>
        HandleBlueskyLikes(item, targetName, targets, login, call) ==
          Err(Wrap("GetBlueskyLikes failed", BadStatus(TooManyRequests)))
  {
  }
}
