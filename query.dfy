/**
 * The query window and URL of `getTrainLineDateData` in junat.js. Times are
 * ECMAScript time values: integral milliseconds since the epoch, which a
 * `Date` accepts only within 8.64e15 ms of it (outside, `toISOString` throws a
 * RangeError). All values involved are below 2^53, so JavaScript's number
 * arithmetic on them is exact integer arithmetic.
 *
 * The start and the end of the window each read the clock with their own
 * `new Date()`, so they are computed from two readings, `startNow` and
 * `endNow`; the second is taken after the first but may differ from it.
 */
module Query {
  import opened Wrappers

  const MillisPerMinute := 60 * 1000
  /** How far before its clock reading the window starts. */
  const LookBack := 5 * MillisPerMinute
  /** How far after its clock reading the window ends. */
  const LookAhead := 30 * MillisPerMinute
  /** The largest magnitude of a valid `Date` time value. */
  const MaxTimeValue := 8_640_000_000_000_000

  predicate IsTimeValue(t: int) {
    -MaxTimeValue <= t <= MaxTimeValue
  }

  datatype Window = Window(start: int, end: int)

  datatype DateError = RangeError

  /** The start and end instants of the departures query, from the two clock readings. */
  function QueryWindow(startNow: int, endNow: int): (w: Window)
    ensures w.start < startNow && endNow < w.end
    ensures startNow - w.start == LookBack
    ensures w.end - endNow == LookAhead
    ensures w.end - w.start == 35 * MillisPerMinute + (endNow - startNow)
  {
    Window(startNow - LookBack, endNow + LookAhead)
  }

  /**
   * When the clock does not go back between the two readings, the window is
   * non-empty and at least 35 minutes wide, and exactly 35 minutes when both
   * readings fall in the same millisecond.
   */
  lemma QueryWindowWidth(startNow: int, endNow: int)
    requires startNow <= endNow
    ensures var w := QueryWindow(startNow, endNow);
      && w.start < w.end
      && w.end - w.start >= 35 * MillisPerMinute
      && (w.end - w.start == 35 * MillisPerMinute <==> startNow == endNow)
  {
  }

  /**
   * The URL `getTrainLineDateData` fetches for a line whose endpoint is `url`,
   * with clock readings `startNow` and `endNow`; `toIso` stands for
   * `new Date(ms).toISOString()` on valid time values.
   */
  function QueryUrl(url: string, startNow: int, endNow: int, toIso: int -> string): (r: Result<string, DateError>)
    requires IsTimeValue(startNow) && IsTimeValue(endNow)
    ensures r.Ok? <==> IsTimeValue(QueryWindow(startNow, endNow).start) && IsTimeValue(QueryWindow(startNow, endNow).end)
    ensures r.Ok? <==> -MaxTimeValue + LookBack <= startNow && endNow <= MaxTimeValue - LookAhead
    ensures r.Ok? ==> (r.value ==
      url + "?startDate=" + toIso(startNow - LookBack) + "&endDate=" + toIso(endNow + LookAhead))
  {
    var w := QueryWindow(startNow, endNow);
    if !IsTimeValue(w.start) || !IsTimeValue(w.end) then Err(RangeError)
    else Ok(url + "?startDate=" + toIso(w.start) + "&endDate=" + toIso(w.end))
  }

  /**
   * The URL is the line's endpoint followed by the `startDate` parameter, and
   * ends with the `endDate` parameter, each carrying its formatted instant.
   */
  lemma QueryUrlParameters(url: string, startNow: int, endNow: int, toIso: int -> string)
    requires IsTimeValue(startNow) && IsTimeValue(endNow)
    requires QueryUrl(url, startNow, endNow, toIso).Ok?
    ensures var u := QueryUrl(url, startNow, endNow, toIso).value;
      var s := "?startDate=" + toIso(QueryWindow(startNow, endNow).start);
      var e := "&endDate=" + toIso(QueryWindow(startNow, endNow).end);
      && |u| == |url| + |s| + |e|
      && u[..|url|] == url
      && u[|url|..|url| + |s|] == s
      && u[|u| - |e|..] == e
  {
  }
}
