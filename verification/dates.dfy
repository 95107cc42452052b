/** The release date of an entry: an ISO 8601 calendar date written `YYYY-MM-DD`. */
module Dates {
  import opened Options
  import opened Chars
  import opened Scan

  /** `d` has the shape `YYYY-MM-DD`; month and day ranges are not checked. */
  predicate IsDateShape(d: string) {
    && |d| == 10
    && IsDigit(d[0]) && IsDigit(d[1]) && IsDigit(d[2]) && IsDigit(d[3])
    && d[4] == '-'
    && IsDigit(d[5]) && IsDigit(d[6])
    && d[7] == '-'
    && IsDigit(d[8]) && IsDigit(d[9])
  }

  /** A date-shaped token starts at position `k` of `rest`, with only separator noise before it. */
  predicate DateAt(rest: string, k: int) {
    && 0 <= k
    && k + 10 <= |rest|
    && (forall j :: 0 <= j < k ==> IsNoise(rest[j]))
    && IsDateShape(rest[k..k + 10])
  }

  /** Reads the date that follows a version token: skips separator noise, then
      takes a `YYYY-MM-DD` token if one starts there. Prose (any letter or a
      digit that does not start a date) yields no date. */
  function ScanDate(rest: string): (r: Option<string>)
    ensures r.Some? ==> IsDateShape(r.value)
    ensures r.Some? ==> exists k :: DateAt(rest, k) && r.value == rest[k..k + 10]
    ensures forall k :: DateAt(rest, k) ==> r == Some(rest[k..k + 10])
  {
    var k := Span(rest, IsNoise);
    if k + 10 <= |rest| && IsDateShape(rest[k..k + 10]) then
      assert DateAt(rest, k);
      Some(rest[k..k + 10])
    else
      assert forall k' :: DateAt(rest, k') ==> k' == k by {
        forall k' | DateAt(rest, k') ensures k' == k {
          assert rest[k'..k' + 10][0] == rest[k'];
        }
      }
      None
  }
}
