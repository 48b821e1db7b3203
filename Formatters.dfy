/**
 * The integer part of the date and time formatters (src/utils/formatters.js):
 * `parseDateStr` up to the (month, day, year) triple it hands to `new Date`,
 * and `formatTime`.
 *
 * A date token is split on `/`, `-` and `.`; each part goes through
 * `Number`, so a part may be NaN, and every comparison with NaN is false.
 */
module Formatters {
  import opened Wrappers
  import opened JsText

  /** The separators of a date token, `/[/\-.]/`. */
  const DatePartSeps: set<char> := {'/', '-', '.'}

  /** `n > k` for a JavaScript number: false when `n` is NaN. */
  predicate Exceeds(n: Num, k: int)
  {
    n.Int? && n.value > k
  }

  /** `if (year < 100) year += year < 50 ? 2000 : 1900`; NaN is left alone. */
  function ExpandYear(year: Num): Num
  {
    if year.Int? && year.value < 100 then Int(year.value + (if year.value < 50 then 2000 else 1900))
    else year
  }

  /** A year the parser can produce (NaN or not negative) expands to a year
      of at least 100: two-digit years land in 1950..2049 and keep their last
      two digits; years from 100 on are unchanged; expanding twice changes
      nothing more. */
  lemma ExpandYearRange(year: Num)
    requires year.Int? ==> year.value >= 0
    ensures ExpandYear(year).NaN? <==> year.NaN?
    ensures year.Int? && year.value < 100 ==>
              1950 <= ExpandYear(year).value < 2050 && ExpandYear(year).value % 100 == year.value
    ensures year.Int? && year.value >= 100 ==> ExpandYear(year) == year
    ensures year.Int? ==> ExpandYear(year).value >= 100
    ensures ExpandYear(ExpandYear(year)) == ExpandYear(year)
  {
  }

  /** What `parseDateStr` hands to `new Date`, before the month is shifted. */
  datatype DateParts = DateParts(month: Num, day: Num, year: Num)

  /** The three parts of a token, as numbers. */
  function PartNumbers(dateStr: string): (ns: seq<Num>)
    ensures |ns| == |Split(dateStr, DatePartSeps)|
    ensures forall k :: 0 <= k < |ns| ==> ns[k] == ToNumber(Split(dateStr, DatePartSeps)[k])
  {
    var parts := Split(dateStr, DatePartSeps);
    seq(|parts|, k requires 0 <= k < |parts| => ToNumber(parts[k]))
  }

  /** `parseDateStr(dateStr)` up to the integer triple: `None` for `null`. */
  function ParseDateStr(dateStr: string): (r: Option<DateParts>)
    ensures r.Some? <==> |Split(dateStr, DatePartSeps)| == 3
    ensures r.Some? && r.value.year.Int? ==> r.value.year.value >= 100
  {
    var ns := PartNumbers(dateStr);
    if |ns| != 3 then None
    else
      var p1, p2, p3 := ns[0], ns[1], ns[2];
      if Exceeds(p1, 12) then Some(DateParts(p2, p1, ExpandYear(p3)))
      else if Exceeds(p2, 12) then Some(DateParts(p1, p2, ExpandYear(p3)))
      else Some(DateParts(p1, p2, ExpandYear(p3)))
  }

  /** A token is parsed exactly when it holds exactly two separators. */
  lemma ParseDateStrDefined(dateStr: string)
    ensures ParseDateStr(dateStr).Some? <==> CountIn(dateStr, DatePartSeps) == 2
  {
  }

  /** The reading of a three-part token: day first when the first part
      exceeds 12, month first otherwise, whether or not the second part
      exceeds 12 (the two month-first branches agree); the year is always
      the third part, expanded. */
  lemma ParseDateStrOrder(dateStr: string)
    requires |Split(dateStr, DatePartSeps)| == 3
    ensures var ns := PartNumbers(dateStr);
      var r := ParseDateStr(dateStr).value;
      && (Exceeds(ns[0], 12) ==> r.day == ns[0] && r.month == ns[1])
      && (!Exceeds(ns[0], 12) ==> r.month == ns[0] && r.day == ns[1])
      && r.year == ExpandYear(ns[2])
      && multiset{r.month, r.day} == multiset{ns[0], ns[1]}
  {
  }

  /** `formatTime(timeStr)`: the time token is displayed unchanged. The source
      function is the identity: it returns its argument as it is. */
  function FormatTime(timeStr: string): (r: string)
    ensures r == timeStr
  {
    timeStr
  }
}
