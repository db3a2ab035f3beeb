/**
 * Parsed feed entries and the time model shared by candidate selection and
 * catalogue sync.
 *
 * Timestamps are whole seconds. The feed parser derives the parsed date from
 * the raw `published` string, so the parse is a function of that string; the
 * wall clock only enters through `nowInYear`, which places the current month,
 * day and time of day into a given year (Go's `time.Date` with `now`'s fields).
 */
module Feed {
  import opened Common

  datatype Timestamp = Timestamp(year: int, seconds: int)

  datatype Calendar = Calendar(
    parse: string -> Option<Timestamp>,
    nowInYear: int -> int,
    now: int)

  datatype FeedEntry = FeedEntry(
    title: string,
    link: string,
    guid: string,
    published: string,
    description: string,
    image: Option<string>,
    categories: seq<string>)
}
