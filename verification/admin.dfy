/**
 * The admin API handlers (src/admin/handlers.go) that do more than pass a
 * query result through: id parsing, pagination of a feed's items, the
 * status mapping of the delete and lookup handlers, and the sanitised
 * connection and subscriber listings.
 *
 * A handler's answer is a JSON body with a status, or an error message with
 * a status. The database is the table value the handler reads or changes,
 * plus a flag for a failing query; a query result's order is the order of
 * the given sequence. A Go nil slice is encoded as JSON `null`, which a
 * `None` body stands for.
 */
module Admin {
  import opened Common
  import opened Config
  import opened UploadItems
  import opened Inventory

  datatype Response<T> = Json(status: int, body: T) | Failure(status: int, message: string)

  const StatusOK: int := 200
  const StatusBadRequest: int := 400
  const StatusNotFound: int := 404
  const StatusInternalServerError: int := 500

  // ---------------------------------------------------------------------
  // Decimal numbers

  const MaxUint32: int := 0xFFFF_FFFF

  predicate IsDigit(c: char) {
    '0' <= c <= '9'
  }

  predicate AllDigits(s: string) {
    forall i :: 0 <= i < |s| ==> IsDigit(s[i])
  }

  function DigitValue(c: char): nat
    requires IsDigit(c)
  {
    c as int - '0' as int
  }

  /** The value of a run of decimal digits. */
  function DecimalValue(s: string): nat
    requires AllDigits(s)
    decreases |s|
  {
    if |s| == 0 then 0 else DecimalValue(s[..|s| - 1]) * 10 + DigitValue(s[|s| - 1])
  }

  /** The decimal digits of `n`, without leading zeros. */
  function ShowNat(n: nat): (s: string)
    ensures |s| > 0 && AllDigits(s)
    decreases n
  {
    if n < 10 then ['0' + n as char] else ShowNat(n / 10) + ['0' + (n % 10) as char]
  }

  function ShowInt(i: int): string {
    if i < 0 then "-" + ShowNat(-i) else ShowNat(i)
  }

  lemma {:induction false} DecimalValueShowNat(n: nat)
    ensures DecimalValue(ShowNat(n)) == n
    decreases n
  {
    var s := ShowNat(n);
    if n >= 10 {
      DecimalValueShowNat(n / 10);
      assert s[..|s| - 1] == ShowNat(n / 10);
    }
  }

  /** A value in 64-bit range, with out-of-range values pinned to the nearer
      end as `strconv.ParseInt` does. */
  function ClampInt64(v: int): (r: int)
    ensures MinInt64 <= r <= MaxInt64
    ensures MinInt64 <= v <= MaxInt64 ==> r == v
    ensures v > MaxInt64 ==> r == MaxInt64
    ensures v < MinInt64 ==> r == MinInt64
  {
    if v > MaxInt64 then MaxInt64 else if v < MinInt64 then MinInt64 else v
  }

  const MaxUint64: int := 0xFFFF_FFFF_FFFF_FFFF

  /** The end of the run of decimal digits that starts at `i`. */
  function DigitRun(s: string, i: nat): (n: nat)
    requires i <= |s|
    ensures i <= n <= |s|
    ensures forall k :: i <= k < n ==> IsDigit(s[k])
    ensures n < |s| ==> !IsDigit(s[n])
    decreases |s| - i
  {
    if i == |s| || !IsDigit(s[i]) then i else DigitRun(s, i + 1)
  }

  /** `strconv.Atoi` with its error dropped: an optional sign, then the
      digits as `ParseDigits` reads them. */
  function Atoi(s: string): (r: int)
    ensures MinInt64 <= r <= MaxInt64
    ensures s == "" ==> r == 0
  {
    if |s| > 0 && (s[0] == '+' || s[0] == '-') then ParseDigits(s[0] == '-', s[1..]) else ParseDigits(false, s)
  }

  /** The unsigned part of `strconv.Atoi`: at least one decimal digit. The
      digits are read left to right into a `uint64`, and the first digit
      that takes the value past 2^64-1 ends the parse with a range error
      before any later byte is looked at: the result is then the bound for
      the sign. Otherwise a byte that is not a digit is a syntax error, which
      gives 0, and a value outside `int64` gives the nearer bound. */
  function ParseDigits(negative: bool, digits: string): (r: int)
    ensures MinInt64 <= r <= MaxInt64
    ensures digits == "" ==> r == 0
  {
    if |digits| == 0 then 0
    else if DecimalValue(digits[..DigitRun(digits, 0)]) > MaxUint64 then
      (if negative then MinInt64 else MaxInt64)
    else if !AllDigits(digits) then 0
    else
      var v: int := DecimalValue(digits);
      if negative then ClampInt64(-v) else ClampInt64(v)
  }

  /** A prefix of a digit run is worth no more than the run. */
  lemma {:induction false} DecimalValuePrefix(s: string, k: nat)
    requires AllDigits(s) && k <= |s|
    ensures DecimalValue(s[..k]) <= DecimalValue(s)
    decreases |s|
  {
    if k < |s| {
      var t := s[..|s| - 1];
      assert AllDigits(t);
      DecimalValuePrefix(t, k);
      assert t[..k] == s[..k];
      assert DecimalValue(s) == DecimalValue(t) * 10 + DigitValue(s[|s| - 1]);
    } else {
      assert s[..k] == s;
    }
  }

  /** A digit run past 2^64-1 is a range error, whatever follows it: the
      parse stops inside the run, so a later stray byte is never seen. */
  lemma ParseDigitsOverflowFirst(negative: bool, d: string, tail: string)
    requires |d| > 0 && AllDigits(d) && DecimalValue(d) > MaxUint64
    ensures ParseDigits(negative, d + tail) == if negative then MinInt64 else MaxInt64
  {
    var digits := d + tail;
    var m := DigitRun(digits, 0);
    var run := digits[..m];
    assert AllDigits(run);
    assert run[..|d|] == d;
    DecimalValuePrefix(run, |d|);
  }

  /** The same through the sign: `Atoi` of an overflowing run and anything
      after it is the bound for the sign. */
  lemma AtoiOverflowFirst(n: nat, tail: string)
    requires n > MaxUint64
    ensures Atoi(ShowNat(n) + tail) == MaxInt64
    ensures Atoi("-" + ShowNat(n) + tail) == MinInt64
    ensures Atoi("+" + ShowNat(n) + tail) == MaxInt64
  {
    var d := ShowNat(n);
    DecimalValueShowNat(n);
    ParseDigitsOverflowFirst(false, d, tail);
    ParseDigitsOverflowFirst(true, d, tail);
    assert IsDigit(d[0]) && (d + tail)[0] == d[0];
    assert ("-" + d + tail)[1..] == d + tail;
    assert ("+" + d + tail)[1..] == d + tail;
  }

  /** A stray byte after a digit run that fits 64 bits is a syntax error. */
  lemma AtoiSyntaxError(d: string, c: char, tail: string)
    requires |d| > 0 && AllDigits(d) && DecimalValue(d) <= MaxUint64 && !IsDigit(c)
    ensures Atoi(d + [c] + tail) == 0
  {
    var s := d + [c] + tail;
    assert IsDigit(d[0]) && s[0] == d[0];
    var m := DigitRun(s, 0);
    assert s[|d|] == c;
    assert s[..m] == d;
  }

  /** `?page=` followed by more digits than a `uint64` holds and a stray
      byte reads as the largest page, not as the default. */
  lemma PaginateOverflowingPage(n: nat, tail: string, limitQuery: Option<string>)
    requires n > MaxUint64
    ensures Paginate(Some(ShowNat(n) + tail), limitQuery).page == MaxInt64
  {
    AtoiOverflowFirst(n, tail);
  }

  /** Every 64-bit integer reads back from its decimal form. */
  lemma AtoiShowInt(i: int)
    requires MinInt64 <= i <= MaxInt64
    ensures Atoi(ShowInt(i)) == i
  {
    if i < 0 {
      AtoiNegative(ShowNat(-i));
      DecimalValueShowNat(-i);
    } else {
      AtoiDigits(ShowNat(i));
      DecimalValueShowNat(i);
    }
  }

  lemma AtoiDigits(s: string)
    requires |s| > 0 && AllDigits(s)
    ensures Atoi(s) == ClampInt64(DecimalValue(s))
  {
    assert IsDigit(s[0]);
    ParseDigitsRun(false, s);
  }

  lemma AtoiNegative(s: string)
    requires |s| > 0 && AllDigits(s)
    ensures Atoi("-" + s) == ClampInt64(-(DecimalValue(s) as int))
  {
    assert ("-" + s)[1..] == s;
    ParseDigitsRun(true, s);
  }

  /** On a pure digit run the range error and the clamp agree. */
  lemma ParseDigitsRun(negative: bool, s: string)
    requires |s| > 0 && AllDigits(s)
    ensures ParseDigits(negative, s) == if negative then ClampInt64(-(DecimalValue(s) as int)) else ClampInt64(DecimalValue(s))
  {
    assert s[..DigitRun(s, 0)] == s;
  }

  /** The defaults read as page 1 and limit 20. */
  lemma DefaultsRead()
    ensures Atoi(DefaultPage) == 1 && Atoi(DefaultLimit) == FallbackLimit
  {
    AtoiDigits(DefaultPage);
    AtoiDigits(DefaultLimit);
    assert DecimalValue("1") == 1 by {
      assert "1"[..0] == "";
    }
    assert DecimalValue("20") == 20 by {
      assert "20"[..1] == "2";
      assert "2"[..0] == "";
    }
  }

  /** `strconv.ParseUint(s, 10, 32)`: digits only, no sign, at most
      4294967295. */
  function ParseId(s: string): (r: Option<nat>)
    ensures r.Some? ==> r.value <= MaxUint32
    ensures r.Some? <==> (|s| > 0 && AllDigits(s) && DecimalValue(s) <= MaxUint32)
  {
    if |s| > 0 && AllDigits(s) && DecimalValue(s) <= MaxUint32 then Some(DecimalValue(s)) else None
  }

  /** Ids read back from their decimal form exactly when they fit 32 bits;
      a signed or empty parameter is never an id. */
  lemma ParseIdShowNat(n: nat)
    ensures ParseId(ShowNat(n)) == (if n <= MaxUint32 then Some(n) else None)
    ensures ParseId("") == None && ParseId("-" + ShowNat(n)) == None && ParseId("+" + ShowNat(n)) == None
  {
    DecimalValueShowNat(n);
    assert !IsDigit(("-" + ShowNat(n))[0]);
    assert !IsDigit(("+" + ShowNat(n))[0]);
  }

  // ---------------------------------------------------------------------
  // Feeds and their items

  /** `GetFeed`: a bad id is refused before the lookup, a failing query is
      a 500, and a feed that is not among the live rows a 404. */
  function GetFeed(idParam: string, feeds: seq<FeedRow>, failed: bool): (r: Response<FeedRow>)
    ensures r.status == StatusBadRequest <==> ParseId(idParam).None?
    ensures r.status == StatusInternalServerError <==> ParseId(idParam).Some? && failed
    ensures r.status == StatusNotFound <==>
              ParseId(idParam).Some? && !failed &&
              forall k :: 0 <= k < |feeds| ==> feeds[k].id != ParseId(idParam).value || feeds[k].deleted
    ensures r.Json? ==> r.status == StatusOK && r.body.id == ParseId(idParam).value && !r.body.deleted && r.body in feeds
  {
    match ParseId(idParam)
    case None => Failure(StatusBadRequest, "Invalid feed ID")
    case Some(id) =>
      if failed then Failure(StatusInternalServerError, "Failed to fetch feed")
      else match FindLiveFeedById(feeds, id, 0)
        case None => Failure(StatusNotFound, "Feed not found")
        case Some(k) => Json(StatusOK, feeds[k])
  }

  function FindLiveFeedById(feeds: seq<FeedRow>, id: nat, i: nat): (r: Option<nat>)
    requires i <= |feeds|
    ensures r.Some? ==> i <= r.value < |feeds| && feeds[r.value].id == id && !feeds[r.value].deleted
    ensures r.None? ==> forall k :: i <= k < |feeds| ==> feeds[k].id != id || feeds[k].deleted
    decreases |feeds| - i
  {
    if i == |feeds| then None
    else if feeds[i].id == id && !feeds[i].deleted then Some(i)
    else FindLiveFeedById(feeds, id, i + 1)
  }

  const DefaultPage := "1"
  const DefaultLimit := "20"
  const FallbackLimit: int := 20
  const MaxLimit: int := 100

  datatype Paging = Paging(page: int, limit: int)

  /** A page below 1 becomes 1, a limit outside [1, 100] becomes 20. */
  function Normalise(page: int, limit: int): (p: Paging)
    ensures p.page >= 1 && 1 <= p.limit <= MaxLimit
    ensures page >= 1 ==> p.page == page
    ensures 1 <= limit <= MaxLimit ==> p.limit == limit
  {
    Paging(if page < 1 then 1 else page, if limit < 1 || limit > MaxLimit then FallbackLimit else limit)
  }

  /** `c.DefaultQuery` then `strconv.Atoi` then normalisation; an absent
      parameter takes its default, a present but unreadable one reads as 0. */
  function Paginate(pageQuery: Option<string>, limitQuery: Option<string>): (p: Paging)
    ensures p.page >= 1 && 1 <= p.limit <= MaxLimit
    ensures pageQuery.None? ==> p.page == 1
    ensures limitQuery.None? ==> p.limit == FallbackLimit
  {
    DefaultsRead();
    Normalise(Atoi(pageQuery.GetOr(DefaultPage)), Atoi(limitQuery.GetOr(DefaultLimit)))
  }

  /** Normalising twice changes nothing, and every valid page and limit
      comes through their decimal form unchanged. */
  lemma PaginateRoundTrip(page: int, limit: int)
    requires 1 <= page <= MaxInt64 && 1 <= limit <= MaxLimit
    ensures Paginate(Some(ShowInt(page)), Some(ShowInt(limit))) == Paging(page, limit)
    ensures var p := Normalise(page, limit); Normalise(p.page, p.limit) == p
  {
    AtoiShowInt(page);
    AtoiShowInt(limit);
  }

  /** Absent parameters give page 1 of 20; unreadable ones are normalised
      the same way. */
  lemma PaginateDefaults(garbage: string)
    requires |garbage| > 0 && !IsDigit(garbage[0]) && garbage[0] != '+' && garbage[0] != '-'
    ensures Paginate(None, None) == Paging(1, 20)
    ensures Paginate(Some(garbage), Some(garbage)) == Paging(1, 20)
    ensures Paginate(Some(""), Some("")) == Paging(1, 20)
  {
    DefaultsRead();
  }

  /** The rows a query with `OFFSET offset LIMIT limit` returns; the ORM
      leaves the offset out unless it is positive. */
  function Window<T>(rows: seq<T>, offset: int, limit: nat): (r: seq<T>)
    ensures |r| <= limit
  {
    var start := if offset <= 0 then 0 else if offset > |rows| then |rows| else offset;
    var end := if start + limit > |rows| then |rows| else start + limit;
    rows[start..end]
  }

  datatype ItemsPage<T> = ItemsPage(items: seq<T>, total: nat, page: int, limit: int)

  /** Go's `int` arithmetic: the result taken modulo 2^64 into the signed
      range. */
  function WrapInt64(v: int): (r: int)
    ensures MinInt64 <= r <= MaxInt64
    ensures MinInt64 <= v <= MaxInt64 ==> r == v
    ensures (r - v) % 0x1_0000_0000_0000_0000 == 0
  {
    var q := (v - MinInt64) / 0x1_0000_0000_0000_0000;
    var r := (v - MinInt64) % 0x1_0000_0000_0000_0000 + MinInt64;
    assert r - v == -q * 0x1_0000_0000_0000_0000;
    r
  }

  /** `(page - 1) * limit` as written, in 64-bit arithmetic. */
  function OffsetAsWritten(p: Paging): (offset: int)
    ensures MinInt64 <= offset <= MaxInt64
    ensures (offset - (p.page - 1) * p.limit) % 0x1_0000_0000_0000_0000 == 0
    ensures MinInt64 <= (p.page - 1) * p.limit <= MaxInt64 ==> offset == (p.page - 1) * p.limit
  {
    WrapInt64((p.page - 1) * p.limit)
  }

  /** The offset the handler means: the rows of all earlier pages. */
  function Offset(p: Paging): (offset: nat)
    requires p.page >= 1 && p.limit >= 1
    ensures offset == (p.page - 1) * p.limit
    ensures offset % p.limit == 0 && offset / p.limit == p.page - 1
  {
    ExactQuotient(p.page - 1, p.limit);
    (p.page - 1) * p.limit
  }

  /** A multiple of `l` divides by `l` exactly. */
  lemma ExactQuotient(a: nat, l: int)
    requires l >= 1
    ensures (a * l) % l == 0 && (a * l) / l == a
  {
    var q, r := (a * l) / l, (a * l) % l;
    assert (a - q) * l == r;
    if a - q >= 1 || a - q <= -1 {
      assert false;
    }
  }

  /** `GetFeedItems` as written: `rows` are the feed's live items in the
      order the query returns them (newest first). */
  function GetFeedItemsAsWritten<T>(idParam: string, pageQuery: Option<string>, limitQuery: Option<string>,
                                    rows: seq<T>): (r: Response<ItemsPage<T>>)
    ensures r.status == StatusBadRequest <==> ParseId(idParam).None?
    ensures r.Json? ==> r.status == StatusOK && |r.body.items| <= r.body.limit && r.body.total == |rows|
  {
    match ParseId(idParam)
    case None => Failure(StatusBadRequest, "Invalid feed ID")
    case Some(_) =>
      var p := Paginate(pageQuery, limitQuery);
      Json(StatusOK, ItemsPage(Window(rows, OffsetAsWritten(p), p.limit), |rows|, p.page, p.limit))
  }

  /** A page number near the top of the 64-bit range wraps the offset below
      zero, and the handler answers that page with the first 20 rows. */
  lemma OffsetOverflow<T>(rows: seq<T>)
    ensures Paginate(Some(ShowInt(MaxInt64)), None) == Paging(MaxInt64, 20)
    ensures OffsetAsWritten(Paging(MaxInt64, 20)) == -40
    ensures var r := GetFeedItemsAsWritten("1", Some(ShowInt(MaxInt64)), None, rows);
      r.Json? && r.body.page == MaxInt64 && r.body.items == Window(rows, 0, 20)
  {
    OverflowPaging();
    OverflowOffset();
    OneIsAnId();
  }

  lemma OverflowPaging()
    ensures Paginate(Some(ShowInt(MaxInt64)), None) == Paging(MaxInt64, 20)
  {
    AtoiShowInt(MaxInt64);
    DefaultsRead();
  }

  lemma OverflowOffset()
    ensures OffsetAsWritten(Paging(MaxInt64, 20)) == -40
  {
    var v := (MaxInt64 - 1) * 20;
    assert v - MinInt64 == 10 * 0x1_0000_0000_0000_0000 + 0x8000_0000_0000_0000 - 40;
  }

  lemma OneIsAnId()
    ensures ParseId("1") == Some(1)
  {
    assert DecimalValue("1") == 1 by {
      assert "1"[..0] == "";
    }
  }

  /** `GetFeedItems` with the offset computed without wrap-around. */
  function GetFeedItems<T>(idParam: string, pageQuery: Option<string>, limitQuery: Option<string>,
                           rows: seq<T>): (r: Response<ItemsPage<T>>)
    ensures r.status == StatusBadRequest <==> ParseId(idParam).None?
  {
    match ParseId(idParam)
    case None => Failure(StatusBadRequest, "Invalid feed ID")
    case Some(_) =>
      var p := Paginate(pageQuery, limitQuery);
      Json(StatusOK, ItemsPage(Window(rows, Offset(p), p.limit), |rows|, p.page, p.limit))
  }

  /** Page `p` holds rows `(p-1)*limit` up to `p*limit` of the query's
      order, at most `limit` of them, and the answer echoes the normalised
      page and limit and the total. */
  lemma GetFeedItemsIsPage<T>(idParam: string, pageQuery: Option<string>, limitQuery: Option<string>, rows: seq<T>)
    requires ParseId(idParam).Some?
    ensures var r := GetFeedItems(idParam, pageQuery, limitQuery, rows);
      var p := Paginate(pageQuery, limitQuery);
      var lo := if (p.page - 1) * p.limit < |rows| then (p.page - 1) * p.limit else |rows|;
      var hi := if p.page * p.limit < |rows| then p.page * p.limit else |rows|;
      && r.Json? && r.status == StatusOK
      && r.body.page == p.page && r.body.limit == p.limit && r.body.total == |rows|
      && 1 <= r.body.page && 1 <= r.body.limit <= MaxLimit
      && r.body.items == rows[lo..hi]
  {
    PageWindow(rows, Paginate(pageQuery, limitQuery));
  }

  lemma PageWindow<T>(rows: seq<T>, p: Paging)
    requires p.page >= 1 && p.limit >= 1
    ensures var lo := if (p.page - 1) * p.limit < |rows| then (p.page - 1) * p.limit else |rows|;
      var hi := if p.page * p.limit < |rows| then p.page * p.limit else |rows|;
      Window(rows, Offset(p), p.limit) == rows[lo..hi]
  {
    NextOffset(p.page, p.limit);
  }

  lemma NextOffset(page: int, limit: int)
    ensures page * limit == (page - 1) * limit + limit
  {
  }

  /** Consecutive pages follow each other without gap or overlap. */
  lemma PagesTile<T>(rows: seq<T>, page: int, limit: int)
    requires page >= 1 && 1 <= limit <= MaxLimit
    ensures var here := Offset(Paging(page, limit));
      var after := Offset(Paging(page + 1, limit));
      after == here + limit
      && (here + limit <= |rows| ==>
            Window(rows, here, limit) + Window(rows, after, limit) == Window(rows, here, 2 * limit))
  {
    var here := Offset(Paging(page, limit));
    NextOffset(page, limit);
    if here + limit <= |rows| {
      WindowsJoin(rows, here, limit);
    }
  }

  /** Two windows of one size, the second starting where the first ends,
      make up the window of twice the size. */
  lemma WindowsJoin<T>(rows: seq<T>, start: nat, limit: nat)
    requires 0 < limit && start + limit <= |rows|
    ensures Window(rows, start, limit) + Window(rows, start + limit, limit) == Window(rows, start, 2 * limit)
  {
    var end := if start + 2 * limit > |rows| then |rows| else start + 2 * limit;
    assert rows[start..start + limit] + rows[start + limit..end] == rows[start..end];
  }

  // ---------------------------------------------------------------------
  // Deletes

  /** The table without the rows of this id: a hard delete. */
  function WithoutId(table: seq<AutoUploadItem>, id: nat): (r: seq<AutoUploadItem>)
    ensures |r| <= |table|
    ensures forall x :: x in r <==> x in table && x.id != id
    ensures |r| == |table| <==> forall k :: 0 <= k < |table| ==> table[k].id != id
    decreases |table|
  {
    if |table| == 0 then []
    else
      var rest := WithoutId(table[1..], id);
      assert forall k :: 1 <= k < |table| ==> table[k] == table[1..][k - 1];
      if table[0].id == id then rest else [table[0]] + rest
  }

  /** `DeletePublication`: 400 for a bad id, 500 when the delete fails, 404
      when it removes nothing, 200 otherwise; the table is changed only in
      the last case. */
  function DeletePublication(idParam: string, table: seq<AutoUploadItem>, failed: bool): (r: (Response<string>, seq<AutoUploadItem>))
    ensures r.0.status == StatusBadRequest <==> ParseId(idParam).None?
    ensures r.0.status == StatusInternalServerError <==> ParseId(idParam).Some? && failed
    ensures r.0.status == StatusNotFound <==>
              ParseId(idParam).Some? && !failed && forall k :: 0 <= k < |table| ==> table[k].id != ParseId(idParam).value
    ensures r.0.status == StatusOK <==>
              ParseId(idParam).Some? && !failed && exists k :: 0 <= k < |table| && table[k].id == ParseId(idParam).value
    ensures r.0.status != StatusOK ==> r.1 == table
    ensures r.0.status == StatusOK ==> r.1 == WithoutId(table, ParseId(idParam).value)
  {
    match ParseId(idParam)
    case None => (Failure(StatusBadRequest, "Invalid ID"), table)
    case Some(id) =>
      if failed then (Failure(StatusInternalServerError, "Failed to delete publication"), table)
      else
        var kept := WithoutId(table, id);
        if |kept| == |table| then (Failure(StatusNotFound, "Publication not found"), table)
        else (Json(StatusOK, "Publication deleted"), kept)
  }

  datatype Subscriber = Subscriber(
    id: nat,
    endpoint: string,
    expirationTime: Option<int>,
    auth: string,
    p256dh: string,
    userId: Option<string>,
    createdAt: int,
    deleted: bool)

  /** The number of live subscriber rows with this id. */
  function LiveWithId(subs: seq<Subscriber>, id: nat): nat
    decreases |subs|
  {
    if |subs| == 0 then 0
    else (if subs[0].id == id && !subs[0].deleted then 1 else 0) + LiveWithId(subs[1..], id)
  }

  /** Soft delete: the live rows with this id are marked deleted. */
  function SoftDeleteId(subs: seq<Subscriber>, id: nat): (r: seq<Subscriber>)
    ensures |r| == |subs|
    ensures forall k :: 0 <= k < |subs| ==>
              r[k] == if subs[k].id == id then subs[k].(deleted := true) else subs[k]
  {
    seq(|subs|, k requires 0 <= k < |subs| => if subs[k].id == id then subs[k].(deleted := true) else subs[k])
  }

  /** `DeleteSubscriber`: the same status mapping over a soft delete, where
      the rows affected are the live rows with the id. */
  function DeleteSubscriber(idParam: string, subs: seq<Subscriber>, failed: bool): (r: (Response<string>, seq<Subscriber>))
    ensures r.0.status == StatusBadRequest <==> ParseId(idParam).None?
    ensures r.0.status == StatusInternalServerError <==> ParseId(idParam).Some? && failed
    ensures r.0.status == StatusNotFound <==> ParseId(idParam).Some? && !failed && LiveWithId(subs, ParseId(idParam).value) == 0
    ensures r.0.status == StatusOK <==> ParseId(idParam).Some? && !failed && LiveWithId(subs, ParseId(idParam).value) > 0
    ensures r.0.status != StatusOK ==> r.1 == subs
    ensures r.0.status == StatusOK ==> r.1 == SoftDeleteId(subs, ParseId(idParam).value)
  {
    match ParseId(idParam)
    case None => (Failure(StatusBadRequest, "Invalid ID"), subs)
    case Some(id) =>
      if failed then (Failure(StatusInternalServerError, "Failed to delete subscriber"), subs)
      else if LiveWithId(subs, id) == 0 then (Failure(StatusNotFound, "Subscriber not found"), subs)
      else (Json(StatusOK, "Subscriber deleted"), SoftDeleteId(subs, id))
  }

  /** After a soft delete no live row has the id. */
  lemma {:induction false} SoftDeleteLeavesNone(subs: seq<Subscriber>, id: nat)
    ensures LiveWithId(SoftDeleteId(subs, id), id) == 0
    decreases |subs|
  {
    if |subs| > 0 {
      assert SoftDeleteId(subs, id)[1..] == SoftDeleteId(subs[1..], id);
      SoftDeleteLeavesNone(subs[1..], id);
    }
  }

  /** A soft delete marks exactly the live rows with the id: the deleted
      count grows by their number, and no other row is touched. */
  lemma {:induction false} SoftDeleteCounts(subs: seq<Subscriber>, id: nat)
    ensures Deleted(SoftDeleteId(subs, id)) == Deleted(subs) + LiveWithId(subs, id)
    ensures forall k :: 0 <= k < |subs| && subs[k].id != id ==> SoftDeleteId(subs, id)[k] == subs[k]
    decreases |subs|
  {
    if |subs| > 0 {
      assert SoftDeleteId(subs, id)[1..] == SoftDeleteId(subs[1..], id);
      SoftDeleteCounts(subs[1..], id);
    }
  }

  /** Deleting the same subscriber twice: the second delete finds nothing. */
  lemma DeleteSubscriberTwice(idParam: string, subs: seq<Subscriber>)
    requires DeleteSubscriber(idParam, subs, false).0.status == StatusOK
    ensures var subs' := DeleteSubscriber(idParam, subs, false).1;
      DeleteSubscriber(idParam, subs', false).0.status == StatusNotFound
  {
    SoftDeleteLeavesNone(subs, ParseId(idParam).value);
  }

  // ---------------------------------------------------------------------
  // Sanitised listings

  datatype SafeSubscriber = SafeSubscriber(id: nat, endpoint: string, createdAt: string)

  /** The listing before the nil-slice rule: live subscribers in query
      order, each reduced to id, endpoint and formatted creation time. */
  function SafeList(subs: seq<Subscriber>, format: int -> string): (r: seq<SafeSubscriber>)
    ensures |r| <= |subs|
    decreases |subs|
  {
    if |subs| == 0 then []
    else
      var rest := SafeList(subs[1..], format);
      if subs[0].deleted then rest
      else [SafeSubscriber(subs[0].id, subs[0].endpoint, format(subs[0].createdAt))] + rest
  }

  /** `GetSubscribers`; `format` renders a creation time in the handler's
      fixed layout. */
  function GetSubscribers(subs: seq<Subscriber>, format: int -> string): (r: Response<Option<seq<SafeSubscriber>>>)
    ensures r.Json? && r.status == StatusOK
  {
    var list := SafeList(subs, format);
    Json(StatusOK, if |list| == 0 then None else Some(list))
  }

  /** Rows that agree on id, endpoint, creation time and deletion give the
      same listing, whatever their keys, expiry or user. */
  lemma {:induction false} SubscribersHideKeys(a: seq<Subscriber>, b: seq<Subscriber>, format: int -> string)
    requires |a| == |b|
    requires forall k :: 0 <= k < |a| ==>
      a[k].id == b[k].id && a[k].endpoint == b[k].endpoint && a[k].createdAt == b[k].createdAt && a[k].deleted == b[k].deleted
    ensures GetSubscribers(a, format) == GetSubscribers(b, format)
  {
    SafeListSame(a, b, format);
  }

  lemma {:induction false} SafeListSame(a: seq<Subscriber>, b: seq<Subscriber>, format: int -> string)
    requires |a| == |b|
    requires forall k :: 0 <= k < |a| ==>
      a[k].id == b[k].id && a[k].endpoint == b[k].endpoint && a[k].createdAt == b[k].createdAt && a[k].deleted == b[k].deleted
    ensures SafeList(a, format) == SafeList(b, format)
    decreases |a|
  {
    if |a| > 0 {
      SafeListSame(a[1..], b[1..], format);
    }
  }

  /** The live subscribers, in query order. */
  function LiveSubscribers(subs: seq<Subscriber>): seq<Subscriber> {
    Filter(subs, (s: Subscriber) => !s.deleted)
  }

  /** Entry `k` of the listing is the `k`-th live subscriber reduced to its
      id, endpoint and formatted creation time, and there is one entry per
      live subscriber. */
  lemma {:induction false} SafeListAt(subs: seq<Subscriber>, format: int -> string, k: nat)
    ensures |SafeList(subs, format)| == |LiveSubscribers(subs)|
    ensures k < |SafeList(subs, format)| ==>
              var s := LiveSubscribers(subs)[k];
              SafeList(subs, format)[k] == SafeSubscriber(s.id, s.endpoint, format(s.createdAt))
    decreases |subs|
  {
    if |subs| > 0 {
      if subs[0].deleted || k == 0 {
        SafeListAt(subs[1..], format, k);
      } else {
        SafeListAt(subs[1..], format, k - 1);
      }
    }
  }

  /** The count of live subscribers listed; soft-deleted ones are left out,
      and an empty listing is `null`. */
  lemma {:induction false} SafeListLive(subs: seq<Subscriber>, format: int -> string)
    ensures |SafeList(subs, format)| == |subs| - Deleted(subs)
    ensures GetSubscribers(subs, format).body.None? <==> |subs| == Deleted(subs)
    decreases |subs|
  {
    if |subs| > 0 {
      SafeListLive(subs[1..], format);
    }
  }

  function Deleted(subs: seq<Subscriber>): (n: nat)
    ensures n <= |subs|
    decreases |subs|
  {
    if |subs| == 0 then 0 else (if subs[0].deleted then 1 else 0) + Deleted(subs[1..])
  }

  datatype ConnectionInfo = ConnectionInfo(
    name: string,
    sourceName: string,
    targetName: string,
    caption: string,
    cron: Option<string>,
    platform: string)

  /** The name-to-platform map, built in target order: a later target with
      the same name overwrites an earlier one. */
  function PlatformMap(targets: seq<Target>): map<string, string>
    decreases |targets|
  {
    if |targets| == 0 then map[]
    else PlatformMap(targets[..|targets| - 1])[targets[|targets| - 1].name := targets[|targets| - 1].platform]
  }

  /** The missing-key read `targetPlatforms[name]`: "" when absent. */
  function PlatformOf(targets: seq<Target>, name: string): string {
    var m := PlatformMap(targets);
    if name in m then m[name] else ""
  }

  /** The index of the last target with this name. */
  function LastNamed(targets: seq<Target>, name: string): (r: Option<nat>)
    ensures r.Some? ==> r.value < |targets| && targets[r.value].name == name
    ensures r.Some? ==> forall k :: r.value < k < |targets| ==> targets[k].name != name
    ensures r.None? ==> forall k :: 0 <= k < |targets| ==> targets[k].name != name
    decreases |targets|
  {
    if |targets| == 0 then None
    else if targets[|targets| - 1].name == name then Some(|targets| - 1)
    else LastNamed(targets[..|targets| - 1], name)
  }

  /** A connection's platform is that of the last target with its name, or
      "" when no target has it. */
  lemma {:induction false} PlatformOfIsLast(targets: seq<Target>, name: string)
    ensures PlatformOf(targets, name) == match LastNamed(targets, name)
      case Some(k) => targets[k].platform
      case None => ""
    decreases |targets|
  {
    if |targets| > 0 {
      PlatformOfIsLast(targets[..|targets| - 1], name);
    }
  }

  function Infos(targets: seq<Target>, conns: seq<Connection>): (r: seq<ConnectionInfo>)
    ensures |r| == |conns|
    decreases |conns|
  {
    if |conns| == 0 then []
    else
      var c := conns[0];
      [ConnectionInfo(c.name, c.sourceName, c.targetName, c.caption, c.cron, PlatformOf(targets, c.targetName))]
        + Infos(targets, conns[1..])
  }

  /** `GetConnections`: one entry per configured connection, `null` when
      there are none. */
  function GetConnections(targets: seq<Target>, conns: seq<Connection>): (r: Response<Option<seq<ConnectionInfo>>>)
    ensures r.Json? && r.status == StatusOK
    ensures r.body.None? <==> |conns| == 0
  {
    var infos := Infos(targets, conns);
    Json(StatusOK, if |infos| == 0 then None else Some(infos))
  }

  /** Entry `k` copies connection `k` and adds its target's platform. */
  lemma {:induction false} InfosAt(targets: seq<Target>, conns: seq<Connection>, k: nat)
    requires k < |conns|
    ensures var i := Infos(targets, conns)[k];
      && i.name == conns[k].name && i.sourceName == conns[k].sourceName && i.targetName == conns[k].targetName
      && i.caption == conns[k].caption && i.cron == conns[k].cron
      && i.platform == PlatformOf(targets, conns[k].targetName)
    decreases k
  {
    if k > 0 {
      InfosAt(targets, conns[1..], k - 1);
    }
  }

  /** Targets that agree on names and platforms give the same listing,
      whatever their credentials. */
  lemma ConnectionsHideCredentials(a: seq<Target>, b: seq<Target>, conns: seq<Connection>)
    requires |a| == |b|
    requires forall k :: 0 <= k < |a| ==> a[k].name == b[k].name && a[k].platform == b[k].platform
    ensures GetConnections(a, conns) == GetConnections(b, conns)
  {
    PlatformMapSame(a, b);
    InfosSame(a, b, conns);
  }

  lemma {:induction false} PlatformMapSame(a: seq<Target>, b: seq<Target>)
    requires |a| == |b|
    requires forall k :: 0 <= k < |a| ==> a[k].name == b[k].name && a[k].platform == b[k].platform
    ensures PlatformMap(a) == PlatformMap(b)
    decreases |a|
  {
    if |a| > 0 {
      PlatformMapSame(a[..|a| - 1], b[..|b| - 1]);
    }
  }

  lemma {:induction false} InfosSame(a: seq<Target>, b: seq<Target>, conns: seq<Connection>)
    requires PlatformMap(a) == PlatformMap(b)
    ensures Infos(a, conns) == Infos(b, conns)
    decreases |conns|
  {
    if |conns| > 0 {
      InfosSame(a, b, conns[1..]);
    }
  }
}
