/**
 * Likes given on the site itself (src/interactions/native.go): a visitor,
 * known by a salted hash of their IP address and by a token the site hands
 * out, can like an item once, take the like back, and ask whether they have
 * liked it. Every accepted change refreshes the item's "native" row in the
 * interactions table.
 *
 * The IP hash is computed by the caller (SHA-256 is not modelled), and the
 * random token the site would generate is the parameter `generated`.
 */
module NativeLikes {
  import opened Common
  import opened Interactions

  const NativePlatform := "native"
  const NativeTargetName := "native"

  const StatusOK := 200
  const StatusBadRequest := 400
  const StatusNotFound := 404
  const StatusConflict := 409

  datatype NativeLike = NativeLike(itemName: string, ipHash: string, token: string)

  datatype State = State(likes: seq<NativeLike>, interactions: seq<Interaction>)

  datatype Response = Response(status: int, success: bool, token: string, likeCount: int, hasLiked: bool, message: string)

  /** `getNativeLikeCount`: the item's likes. */
  function LikeCount(likes: seq<NativeLike>, itemName: string): (n: nat)
    ensures n <= |likes|
    ensures n == 0 <==> forall i :: 0 <= i < |likes| ==> likes[i].itemName != itemName
    decreases |likes|
  {
    if |likes| == 0 then 0
    else (if likes[0].itemName == itemName then 1 else 0) + LikeCount(likes[1..], itemName)
  }

  lemma {:induction false} LikeCountAppend(likes: seq<NativeLike>, l: NativeLike, itemName: string)
    ensures LikeCount(likes + [l], itemName) == LikeCount(likes, itemName) + (if l.itemName == itemName then 1 else 0)
    decreases |likes|
  {
    if |likes| == 0 {
      assert likes + [l] == [l];
      assert [l][1..] == [];
    } else {
      assert (likes + [l])[1..] == likes[1..] + [l];
      LikeCountAppend(likes[1..], l, itemName);
    }
  }

  predicate LikedByIp(likes: seq<NativeLike>, itemName: string, ipHash: string) {
    exists i :: 0 <= i < |likes| && likes[i].itemName == itemName && likes[i].ipHash == ipHash
  }

  predicate LikedByToken(likes: seq<NativeLike>, itemName: string, token: string) {
    exists i :: 0 <= i < |likes| && likes[i].itemName == itemName && likes[i].token == token
  }

  /** What the handlers keep true: per item, no IP hash and no token likes
      twice. */
  predicate OneLikePerVisitor(likes: seq<NativeLike>) {
    forall i, j :: 0 <= i < j < |likes| && likes[i].itemName == likes[j].itemName ==>
      likes[i].ipHash != likes[j].ipHash && likes[i].token != likes[j].token
  }

  /** `updateNativeInteractionCount`: upsert the item's native row with the
      current count. */
  function RefreshCount(s: State, itemName: string): (s': State)
    ensures s'.likes == s.likes
    ensures Lookup(s'.interactions, itemName, NativePlatform, NativeTargetName) == Some(LikeCount(s.likes, itemName))
  {
    s.(interactions := Upsert(s.interactions, itemName, NativePlatform, NativeTargetName, LikeCount(s.likes, itemName)))
  }

  /** `HandleNativeLike`. `body` is the request's token, `None` when the body
      does not bind. */
  function Like(s: State, itemName: string, ipHash: string, body: Option<string>, generated: string): (r: (State, Response))
    ensures var token := if body.None? || body.value == "" then generated else body.value;
      && (LikedByIp(s.likes, itemName, ipHash) || LikedByToken(s.likes, itemName, token) <==>
            r.1.status == StatusConflict)
      && (r.1.status == StatusConflict ==>
            r.0 == s && r.1 == Response(StatusConflict, false, token, LikeCount(s.likes, itemName), true, "Already liked"))
      && (r.1.status != StatusConflict ==>
            && r.0.likes == s.likes + [NativeLike(itemName, ipHash, token)]
            && r.1 == Response(StatusOK, true, token, LikeCount(s.likes, itemName) + 1, true, "")
            && Lookup(r.0.interactions, itemName, NativePlatform, NativeTargetName) == Some(LikeCount(s.likes, itemName) + 1))
  {
    var token := if body.None? || body.value == "" then generated else body.value;
    if LikedByIp(s.likes, itemName, ipHash) || LikedByToken(s.likes, itemName, token) then
      (s, Response(StatusConflict, false, token, LikeCount(s.likes, itemName), true, "Already liked"))
    else
      var likes := s.likes + [NativeLike(itemName, ipHash, token)];
      LikeCountAppend(s.likes, NativeLike(itemName, ipHash, token), itemName);
      var s' := RefreshCount(s.(likes := likes), itemName);
      (s', Response(StatusOK, true, token, LikeCount(likes, itemName), true, ""))
  }

  predicate Same(l: NativeLike, itemName: string, ipHash: string, token: string) {
    l.itemName == itemName && l.ipHash == ipHash && l.token == token
  }

  /** The `DELETE ... WHERE item_name AND ip_hash AND token`: every matching
      row goes. */
  function Remove(likes: seq<NativeLike>, itemName: string, ipHash: string, token: string): (r: seq<NativeLike>)
    ensures |r| <= |likes|
    ensures forall x :: x in r <==> x in likes && !Same(x, itemName, ipHash, token)
    ensures |r| == |likes| <==> forall i :: 0 <= i < |likes| ==> !Same(likes[i], itemName, ipHash, token)
    decreases |likes|
  {
    if |likes| == 0 then []
    else
      var rest := Remove(likes[1..], itemName, ipHash, token);
      assert forall i :: 1 <= i < |likes| ==> likes[i] == likes[1..][i - 1];
      (if Same(likes[0], itemName, ipHash, token) then [] else [likes[0]]) + rest
  }

  /** `HandleNativeUnlike`. */
  function Unlike(s: State, itemName: string, ipHash: string, body: Option<string>): (r: (State, Response))
    ensures body.None? || body.value == "" ==>
              r == (s, Response(StatusBadRequest, false, "", 0, false, "Token required for unlike"))
    ensures body.Some? && body.value != "" ==>
              var gone := Remove(s.likes, itemName, ipHash, body.value);
              && (r.1.status == StatusNotFound <==> |gone| == |s.likes|)
              && (r.1.status == StatusNotFound ==>
                    r.0 == s && r.1 == Response(StatusNotFound, false, body.value, LikeCount(s.likes, itemName), false, "Like not found"))
              && (r.1.status != StatusNotFound ==>
                    && r.0.likes == gone
                    && r.1 == Response(StatusOK, true, body.value, LikeCount(gone, itemName), false, "")
                    && Lookup(r.0.interactions, itemName, NativePlatform, NativeTargetName) == Some(LikeCount(gone, itemName)))
  {
    if body.None? || body.value == "" then
      (s, Response(StatusBadRequest, false, "", 0, false, "Token required for unlike"))
    else
      var gone := Remove(s.likes, itemName, ipHash, body.value);
      if |gone| == |s.likes| then
        (s, Response(StatusNotFound, false, body.value, LikeCount(s.likes, itemName), false, "Like not found"))
      else
        var s' := RefreshCount(s.(likes := gone), itemName);
        (s', Response(StatusOK, true, body.value, LikeCount(gone, itemName), false, ""))
  }

  /** `HandleNativeLikeStatus`. */
  function Status(s: State, itemName: string, ipHash: string, token: string): (r: Response)
    ensures r.status == StatusOK && r.success && r.likeCount == LikeCount(s.likes, itemName)
  {
    var byBoth := token != "" &&
      exists i :: 0 <= i < |s.likes| && Same(s.likes[i], itemName, ipHash, token);
    var hasLiked := byBoth || LikedByIp(s.likes, itemName, ipHash);
    Response(StatusOK, true, "", LikeCount(s.likes, itemName), hasLiked, "")
  }

  /** The token never matters to the status: a like by the IP and the token
      is a like by the IP. */
  lemma StatusIsByIp(s: State, itemName: string, ipHash: string, token: string)
    ensures Status(s, itemName, ipHash, token).hasLiked <==> LikedByIp(s.likes, itemName, ipHash)
  {
    if token != "" && exists i :: 0 <= i < |s.likes| && Same(s.likes[i], itemName, ipHash, token) {
      var i :| 0 <= i < |s.likes| && Same(s.likes[i], itemName, ipHash, token);
      assert s.likes[i].itemName == itemName && s.likes[i].ipHash == ipHash;
    }
  }

  /** Liking keeps one like per visitor per item. */
  lemma LikeKeepsOneLikePerVisitor(s: State, itemName: string, ipHash: string, body: Option<string>, generated: string)
    requires OneLikePerVisitor(s.likes)
    ensures OneLikePerVisitor(Like(s, itemName, ipHash, body, generated).0.likes)
  {
    var token := if body.None? || body.value == "" then generated else body.value;
    var r := Like(s, itemName, ipHash, body, generated);
    if r.1.status != StatusConflict {
      AppendKeepsOneLikePerVisitor(s.likes, NativeLike(itemName, ipHash, token));
    }
  }

  lemma AppendKeepsOneLikePerVisitor(likes: seq<NativeLike>, l: NativeLike)
    requires OneLikePerVisitor(likes)
    requires !LikedByIp(likes, l.itemName, l.ipHash) && !LikedByToken(likes, l.itemName, l.token)
    ensures OneLikePerVisitor(likes + [l])
  {
    var likes' := likes + [l];
    forall i, j | 0 <= i < j < |likes'| && likes'[i].itemName == likes'[j].itemName
      ensures likes'[i].ipHash != likes'[j].ipHash && likes'[i].token != likes'[j].token
    {
      assert likes'[i] == likes[i];
      if j < |likes| {
        assert likes'[j] == likes[j];
      }
    }
  }

  /** Taking likes back keeps one like per visitor per item. */
  lemma {:induction false} RemoveKeepsOneLikePerVisitor(likes: seq<NativeLike>, itemName: string, ipHash: string, token: string)
    requires OneLikePerVisitor(likes)
    ensures OneLikePerVisitor(Remove(likes, itemName, ipHash, token))
    decreases |likes|
  {
    if |likes| > 0 {
      RemoveKeepsOneLikePerVisitor(likes[1..], itemName, ipHash, token);
      var rest := Remove(likes[1..], itemName, ipHash, token);
      var r := Remove(likes, itemName, ipHash, token);
      if !Same(likes[0], itemName, ipHash, token) {
        assert r == [likes[0]] + rest;
        forall j | 0 < j < |r| && r[0].itemName == r[j].itemName
          ensures r[0].ipHash != r[j].ipHash && r[0].token != r[j].token
        {
          assert r[j] == rest[j - 1] && rest[j - 1] in rest;
          var k :| 0 <= k < |likes[1..]| && likes[1..][k] == r[j];
          assert likes[k + 1] == r[j];
        }
      }
    }
  }

  /** A visitor who has not liked the item likes it and takes it back with
      the token they were given: the likes are as before, and the native
      count is back where it was. */
  lemma LikeThenUnlike(s: State, itemName: string, ipHash: string, body: Option<string>, generated: string)
    requires !LikedByIp(s.likes, itemName, ipHash)
    requires var token := if body.None? || body.value == "" then generated else body.value;
      token != "" && !LikedByToken(s.likes, itemName, token)
    ensures var liked := Like(s, itemName, ipHash, body, generated);
      var unliked := Unlike(liked.0, itemName, ipHash, Some(liked.1.token));
      && liked.1.status == StatusOK && unliked.1.status == StatusOK
      && unliked.0.likes == s.likes
      && unliked.1.likeCount == LikeCount(s.likes, itemName)
  {
    var token := if body.None? || body.value == "" then generated else body.value;
    var l := NativeLike(itemName, ipHash, token);
    var liked := Like(s, itemName, ipHash, body, generated);
    assert liked.0.likes == s.likes + [l];
    RemoveAppended(s.likes, itemName, ipHash, token);
  }

  lemma {:induction false} RemoveAppended(likes: seq<NativeLike>, itemName: string, ipHash: string, token: string)
    requires forall i :: 0 <= i < |likes| ==> !Same(likes[i], itemName, ipHash, token)
    ensures Remove(likes + [NativeLike(itemName, ipHash, token)], itemName, ipHash, token) == likes
    decreases |likes|
  {
    var l := NativeLike(itemName, ipHash, token);
    if |likes| == 0 {
      assert [l][1..] == [];
    } else {
      assert (likes + [l])[1..] == likes[1..] + [l];
      RemoveAppended(likes[1..], itemName, ipHash, token);
    }
  }

  /** A second like from the same IP is refused and changes nothing, whatever
      token it carries. */
  lemma SecondLikeRefused(s: State, itemName: string, ipHash: string, body: Option<string>, generated: string,
                          body': Option<string>, generated': string)
    requires Like(s, itemName, ipHash, body, generated).1.status == StatusOK
    ensures var s' := Like(s, itemName, ipHash, body, generated).0;
      Like(s', itemName, ipHash, body', generated') == (s', Like(s', itemName, ipHash, body', generated').1) &&
      Like(s', itemName, ipHash, body', generated').1.status == StatusConflict
  {
    var s' := Like(s, itemName, ipHash, body, generated).0;
    assert s'.likes[|s.likes|].itemName == itemName && s'.likes[|s.likes|].ipHash == ipHash;
    assert LikedByIp(s'.likes, itemName, ipHash);
  }
}
