/**
 * Shared vocabulary: optional values, results, the error values the Go code
 * compares with `errors.Is`, and a few sequence and string helpers.
 *
 * A Go `string` is a sequence of bytes. It is modelled as a Dafny `string`
 * in which every `char` stands for one byte, so `|s|` is Go's `len(s)`.
 */
module Common {

  datatype Option<T> = None | Some(value: T) {
    function GetOr(default: T): T {
      match this
      case Some(v) => v
      case None => default
    }
  }

  datatype Result<T> = Ok(value: T) | Err(error: Error)

  /** The two distinct sentinel values named `ErrRateLimited` (one per package). */
  datatype Sentinel = InteractionsRateLimited | BlueskyApiRateLimited

  /** Go errors: a sentinel value, a `%w` wrap around another error, an
      unexpected HTTP status, or any other message. */
  datatype Error =
    | SentinelError(which: Sentinel)
    | Wrap(context: string, inner: Error)
    | BadStatus(code: int)
    | Message(text: string)

  /** `errors.Is(err, ErrRateLimited)` for the interactions package: walks the
      `%w` chain and accepts only that package's own sentinel. */
  predicate IsRateLimited(e: Error) {
    match e
    case SentinelError(s) => s == InteractionsRateLimited
    case Wrap(_, inner) => IsRateLimited(inner)
    case BadStatus(_) => false
    case Message(_) => false
  }

  /** The end of an error's `%w` chain. */
  function Innermost(e: Error): Error {
    match e
    case Wrap(_, inner) => Innermost(inner)
    case _ => e
  }

  /** `errors.Is` looks through every wrap: an error is rate limiting
      exactly when its chain ends in the interactions package's sentinel. */
  lemma {:induction false} RateLimitedIffInnermost(e: Error)
    ensures IsRateLimited(e) <==> Innermost(e) == SentinelError(InteractionsRateLimited)
  {
    if e.Wrap? {
      RateLimitedIffInnermost(e.inner);
    }
  }

  /** An HTTP exchange as the caller sees it: the request failed, or a
      status arrived with a body that decoded (`Some`) or did not (`None`). */
  datatype Reply<T> = TransportError(reason: string) | Reply(status: int, body: Option<T>)

  /** Statuses in [200, 300). */
  predicate Success(status: int) {
    200 <= status < 300
  }

  /** The HTTP status that signals rate limiting (section 4 of RFC 6585). */
  const TooManyRequests: int := 429

  /** The bounds of Go's `int64`, which `int` and `time.Duration` are on the
      64-bit platforms the program targets. */
  const MaxInt64: int := 0x7FFF_FFFF_FFFF_FFFF
  const MinInt64: int := -0x8000_0000_0000_0000

  // ---------------------------------------------------------------------
  // Sequences

  /** Keeps, in order, the elements satisfying `p`. */
  function Filter<T(!new)>(s: seq<T>, p: T -> bool): (r: seq<T>)
    ensures |r| <= |s|
    ensures forall x :: x in r <==> x in s && p(x)
  {
    if |s| == 0 then [] else (if p(s[0]) then [s[0]] else []) + Filter(s[1..], p)
  }

  /** Filtering distributes over concatenation: the kept elements keep their order. */
  lemma {:induction false} FilterAppend<T(!new)>(a: seq<T>, b: seq<T>, p: T -> bool)
    ensures Filter(a + b, p) == Filter(a, p) + Filter(b, p)
  {
    if |a| == 0 {
      assert a + b == b;
    } else {
      assert (a + b)[1..] == a[1..] + b;
      FilterAppend(a[1..], b, p);
    }
  }

  /** A filter that every element passes changes nothing. */
  lemma {:induction false} FilterAll<T(!new)>(s: seq<T>, p: T -> bool)
    requires forall i :: 0 <= i < |s| ==> p(s[i])
    ensures Filter(s, p) == s
  {
    if |s| > 0 {
      FilterAll(s[1..], p);
    }
  }

  /** The positions, shifted by `o`, of the elements `Filter` keeps. */
  function Positions<T>(s: seq<T>, p: T -> bool, o: nat): (r: seq<nat>)
    ensures forall i :: 0 <= i < |r| ==> o <= r[i] < o + |s|
  {
    if |s| == 0 then [] else (if p(s[0]) then [o] else []) + Positions(s[1..], p, o + 1)
  }

  /** One recorded position per kept element. */
  lemma {:induction false} PositionsLength<T(!new)>(s: seq<T>, p: T -> bool, o: nat)
    ensures |Positions(s, p, o)| == |Filter(s, p)|
    decreases |s|
  {
    if |s| > 0 {
      PositionsLength(s[1..], p, o + 1);
    }
  }

  /** The `i`-th kept element sits at its recorded position. */
  lemma {:induction false} PositionAt<T(!new)>(s: seq<T>, p: T -> bool, o: nat, i: nat)
    requires i < |Filter(s, p)|
    ensures i < |Positions(s, p, o)|
    ensures Filter(s, p)[i] == s[Positions(s, p, o)[i] - o]
    decreases |s|
  {
    PositionsLength(s, p, o);
    var head: seq<nat> := if p(s[0]) then [o] else [];
    var f := Filter(s[1..], p);
    var ps := Positions(s[1..], p, o + 1);
    assert Filter(s, p) == (if p(s[0]) then [s[0]] else []) + f;
    assert Positions(s, p, o) == head + ps;
    if i >= |head| {
      PositionAt(s[1..], p, o + 1, i - |head|);
      assert s[1..][ps[i - |head|] - (o + 1)] == s[ps[i - |head|] - o];
    }
  }

  /** Recorded positions follow the order of the kept elements. */
  lemma {:induction false} PositionsIncrease<T>(s: seq<T>, p: T -> bool, o: nat, i: nat, j: nat)
    requires i < j < |Positions(s, p, o)|
    ensures Positions(s, p, o)[i] < Positions(s, p, o)[j]
    decreases |s|
  {
    var head: seq<nat> := if p(s[0]) then [o] else [];
    var ps := Positions(s[1..], p, o + 1);
    assert Positions(s, p, o) == head + ps;
    if !p(s[0]) {
      PositionsIncrease(s[1..], p, o + 1, i, j);
    } else if i > 0 {
      PositionsIncrease(s[1..], p, o + 1, i - 1, j - 1);
    } else {
      assert Positions(s, p, o)[j] == ps[j - 1];
    }
  }

  /** A passing element's position is recorded. */
  lemma {:induction false} PositionOf<T>(s: seq<T>, p: T -> bool, o: nat, j: nat) returns (i: nat)
    requires j < |s| && p(s[j])
    ensures i < |Positions(s, p, o)| && Positions(s, p, o)[i] == o + j
    decreases |s|
  {
    var ps := Positions(s, p, o);
    var head: seq<nat> := if p(s[0]) then [o] else [];
    assert ps == head + Positions(s[1..], p, o + 1);
    if j == 0 {
      i := 0;
    } else {
      assert s[1..][j - 1] == s[j];
      var k := PositionOf(s[1..], p, o + 1, j - 1);
      i := |head| + k;
    }
  }

  /** The elements of `s` at the positions `idx`, in that order. */
  function Pick<T>(s: seq<T>, idx: seq<nat>): (r: seq<T>)
    requires forall i :: 0 <= i < |idx| ==> idx[i] < |s|
    ensures |r| == |idx|
  {
    seq(|idx|, i requires 0 <= i < |idx| => s[idx[i]])
  }

  /** Filtering keeps a subsequence: the `i`-th kept element is `s[idx[i]]`,
      the positions increase strictly, and every position whose element
      passes is among them. */
  lemma FilterPositions<T(!new)>(s: seq<T>, p: T -> bool) returns (idx: seq<nat>)
    ensures |idx| == |Filter(s, p)|
    ensures forall i :: 0 <= i < |idx| ==> idx[i] < |s| && Filter(s, p)[i] == s[idx[i]]
    ensures Filter(s, p) == Pick(s, idx)
    ensures forall i, j :: 0 <= i < j < |idx| ==> idx[i] < idx[j]
    ensures forall j :: 0 <= j < |s| && p(s[j]) ==> j in idx
  {
    idx := Positions(s, p, 0);
    PositionsLength(s, p, 0);
    forall i | 0 <= i < |idx|
      ensures idx[i] < |s| && Filter(s, p)[i] == s[idx[i]]
    {
      PositionAt(s, p, 0, i);
    }
    forall i, j | 0 <= i < j < |idx|
      ensures idx[i] < idx[j]
    {
      PositionsIncrease(s, p, 0, i, j);
    }
    forall j | 0 <= j < |s| && p(s[j])
      ensures j in idx
    {
      var i := PositionOf(s, p, 0, j);
    }
  }

  /** Filtering twice is filtering once by both conditions. */
  lemma {:induction false} FilterFilter<T(!new)>(s: seq<T>, p: T -> bool, q: T -> bool, pq: T -> bool)
    requires forall x :: pq(x) == (p(x) && q(x))
    ensures Filter(Filter(s, p), q) == Filter(s, pq)
  {
    if |s| > 0 {
      FilterFilter(s[1..], p, q, pq);
      if p(s[0]) {
        assert Filter(s, p) == [s[0]] + Filter(s[1..], p);
        FilterAppend([s[0]], Filter(s[1..], p), q);
        assert Filter([s[0]], q) == (if q(s[0]) then [s[0]] else []) + Filter([s[0]][1..], q);
        assert [s[0]][1..] == [];
      } else {
        assert Filter(s, p) == Filter(s[1..], p);
      }
    }
  }

  /** Index of the first element satisfying `p`. */
  function FirstIndex<T>(s: seq<T>, p: T -> bool): (r: Option<nat>)
    ensures r.Some? ==> r.value < |s| && p(s[r.value])
    ensures r.Some? ==> forall j :: 0 <= j < r.value ==> !p(s[j])
    ensures r.None? <==> forall j :: 0 <= j < |s| ==> !p(s[j])
  {
    if |s| == 0 then None
    else if p(s[0]) then Some(0)
    else match FirstIndex(s[1..], p)
      case None => None
      case Some(i) => Some(i + 1)
  }

  /** Concatenation of a sequence of sequences. */
  function Flatten<T>(ss: seq<seq<T>>): seq<T> {
    if |ss| == 0 then [] else ss[0] + Flatten(ss[1..])
  }

  lemma {:induction false} FlattenAppend<T>(a: seq<seq<T>>, b: seq<seq<T>>)
    ensures Flatten(a + b) == Flatten(a) + Flatten(b)
  {
    if |a| == 0 {
      assert a + b == b;
    } else {
      assert (a + b)[1..] == a[1..] + b;
      FlattenAppend(a[1..], b);
    }
  }

  function Abs(x: int): nat {
    if x < 0 then -x else x
  }

  // ---------------------------------------------------------------------
  // Strings

  /** The ASCII bytes `unicode.IsSpace` accepts. */
  predicate IsSpace(c: char) {
    c == ' ' || c == '\t' || c == '\n' || c == '\r' || c == '\U{000B}' || c == '\U{000C}'
  }

  /** The two-byte UTF-8 encodings of a space: U+0085 and U+00A0. */
  predicate Space2(a: char, b: char) {
    a == '\U{00C2}' && (b == '\U{0085}' || b == '\U{00A0}')
  }

  /** The three-byte UTF-8 encodings of a space: U+1680, U+2000 to U+200A,
      U+2028, U+2029, U+202F, U+205F and U+3000. */
  predicate Space3(a: char, b: char, c: char) {
    || (a == '\U{00E1}' && b == '\U{009A}' && c == '\U{0080}')
    || (a == '\U{00E2}' && b == '\U{0080}' &&
        ('\U{0080}' <= c <= '\U{008A}' || c == '\U{00A8}' || c == '\U{00A9}' || c == '\U{00AF}'))
    || (a == '\U{00E2}' && b == '\U{0081}' && c == '\U{009F}')
    || (a == '\U{00E3}' && b == '\U{0080}' && c == '\U{0080}')
  }

  /** The width in bytes of the space rune that `utf8.DecodeRuneInString`
      reads at `s[i..]`, or 0 when the rune there is not a space. */
  function SpaceAt(s: string, i: nat): (w: nat)
    requires i <= |s|
    ensures w <= |s| - i && w <= 3
  {
    if i < |s| && IsSpace(s[i]) then 1
    else if i + 2 <= |s| && Space2(s[i], s[i + 1]) then 2
    else if i + 3 <= |s| && Space3(s[i], s[i + 1], s[i + 2]) then 3
    else 0
  }

  /** The width of the space rune that `utf8.DecodeLastRuneInString` reads
      at the end of `s[lo..hi]`, or 0 when the last rune is not a space. */
  function SpaceBefore(s: string, lo: nat, hi: nat): (w: nat)
    requires lo <= hi <= |s|
    ensures w <= hi - lo && w <= 3
  {
    if hi >= lo + 1 && IsSpace(s[hi - 1]) then 1
    else if hi >= lo + 2 && Space2(s[hi - 2], s[hi - 1]) then 2
    else if hi >= lo + 3 && Space3(s[hi - 3], s[hi - 2], s[hi - 1]) then 3
    else 0
  }

  /** `TrimLeftFunc(s[i..], unicode.IsSpace)`: the start of the first rune
      at or after `i` that is not a space. */
  function SkipSpaces(s: string, i: nat): (j: nat)
    requires i <= |s|
    ensures i <= j <= |s|
    ensures j < |s| ==> SpaceAt(s, j) == 0
    decreases |s| - i
  {
    if i < |s| && SpaceAt(s, i) > 0 then SkipSpaces(s, i + SpaceAt(s, i)) else i
  }

  /** `TrimRightFunc(s[lo..hi], unicode.IsSpace)`: the end once trailing
      space runes are dropped. */
  function SkipSpacesBack(s: string, lo: nat, hi: nat): (j: nat)
    requires lo <= hi <= |s|
    ensures lo <= j <= hi
    ensures j > lo ==> SpaceBefore(s, lo, j) == 0
    decreases hi - lo
  {
    if hi > lo && SpaceBefore(s, lo, hi) > 0 then SkipSpacesBack(s, lo, hi - SpaceBefore(s, lo, hi)) else hi
  }

  /** `s` is nothing but space runes (the empty string included). */
  predicate Blank(s: string) {
    SkipSpaces(s, 0) == |s|
  }

  /** A space rune that ends where `s[lo..]` is not a space rune at `lo`
      cannot reach back to `lo`: the encodings are prefix-free. */
  lemma SpaceBeforeNotAt(s: string, lo: nat, hi: nat)
    requires lo <= hi <= |s| && SpaceAt(s, lo) == 0
    ensures SpaceBefore(s, lo, hi) < hi - lo || hi == lo
  {
  }

  lemma {:induction false} SkipSpacesBackStaysAfter(s: string, lo: nat, hi: nat)
    requires lo <= hi <= |s|
    ensures lo < hi && SpaceAt(s, lo) == 0 ==> SkipSpacesBack(s, lo, hi) > lo
    decreases hi - lo
  {
    var w := SpaceBefore(s, lo, hi);
    if lo < hi && SpaceAt(s, lo) == 0 && w > 0 {
      SpaceBeforeNotAt(s, lo, hi);
      SkipSpacesBackStaysAfter(s, lo, hi - w);
    }
  }

  /** `strings.TrimSpace`: `s` without its leading and trailing space runes,
      as `unicode.IsSpace` sees them in UTF-8. The result is empty exactly
      when `s` is blank; otherwise it neither starts nor ends with a space
      rune. */
  function TrimSpace(s: string): (r: string)
    ensures |r| <= |s|
    ensures r == "" <==> Blank(s)
    ensures |r| > 0 ==> SpaceAt(r, 0) == 0 && SpaceBefore(r, 0, |r|) == 0
  {
    var lo := SkipSpaces(s, 0);
    var hi := SkipSpacesBack(s, lo, |s|);
    SkipSpacesBackStaysAfter(s, lo, |s|);
    s[lo..hi]
  }

  /** On ASCII text a byte-wise check decides blankness. */
  lemma {:induction false} BlankAscii(s: string, i: nat)
    requires i <= |s|
    requires forall k :: i <= k < |s| ==> s[k] < '\U{0080}'
    ensures SkipSpaces(s, i) == |s| <==> forall k :: i <= k < |s| ==> IsSpace(s[k])
    decreases |s| - i
  {
    if i < |s| && IsSpace(s[i]) {
      BlankAscii(s, i + 1);
    }
  }

  /** A no-break space and an ideographic space are blank, and are trimmed
      like ASCII spaces; a lone lead byte is not a space. */
  lemma WideSpacesTrimmed()
    ensures Blank("\U{00C2}\U{00A0}")
    ensures TrimSpace("\U{00C2}\U{00A0} x\U{00E3}\U{0080}\U{0080}") == "x"
    ensures !Blank("\U{00C2}")
  {
    var s := "\U{00C2}\U{00A0} x\U{00E3}\U{0080}\U{0080}";
    assert SpaceAt(s, 0) == 2 && SpaceAt(s, 2) == 1 && SpaceAt(s, 3) == 0;
    assert SkipSpaces(s, 0) == 3;
    assert SpaceBefore(s, 3, 7) == 3 && SpaceBefore(s, 3, 4) == 0;
    assert SkipSpacesBack(s, 3, 7) == 4;
  }

  /** Space runes never straddle an ASCII byte: the parse of `a` carries
      over to `a + rest` when `rest` starts with one. */
  lemma {:induction false} SkipSpacesPrefix(a: string, rest: string, i: nat)
    requires i <= |a| && |rest| > 0 && rest[0] < '\U{0080}'
    ensures SkipSpaces(a, i) < |a| ==> SkipSpaces(a + rest, i) == SkipSpaces(a, i)
    ensures SkipSpaces(a, i) == |a| ==> SkipSpaces(a + rest, i) == SkipSpaces(a + rest, |a|)
    decreases |a| - i
  {
    var s := a + rest;
    if i < |a| {
      assert SpaceAt(s, i) == SpaceAt(a, i) by {
        assert s[i] == a[i];
        if i + 1 < |a| {
          assert s[i + 1] == a[i + 1];
        }
        if i + 2 < |a| {
          assert s[i + 2] == a[i + 2];
        }
        assert s[|a|] == rest[0];
      }
      if SpaceAt(a, i) > 0 {
        SkipSpacesPrefix(a, rest, i + SpaceAt(a, i));
      }
    }
  }
}
