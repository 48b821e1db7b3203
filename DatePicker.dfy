/**
 * The month index of the date picker (src/components/DatePickerSheet.jsx):
 * `parseMonthYear`, the key and label of a date's month, and the grouping of
 * the chat's dates into months with the sorted list of month keys.
 */
module DatePicker {
  import opened Wrappers
  import opened JsText
  import opened Lists
  import opened Formatters

  const MonthNames: seq<string> := [
    "January", "February", "March", "April", "May", "June",
    "July", "August", "September", "October", "November", "December"
  ]

  /** What `parseMonthYear` returns: the month (1-12 for a valid token) and
      the expanded year. */
  datatype MonthYear = MonthYear(month: Num, year: Num)

  /** `parseMonthYear(dateStr)`: `None` for `null`. */
  function ParseMonthYear(dateStr: string): (r: Option<MonthYear>)
    ensures r.None? <==> |Split(dateStr, DatePartSeps)| != 3
  {
    var ns := PartNumbers(dateStr);
    if |ns| != 3 then None
    else
      var p1, p2, p3 := ns[0], ns[1], ns[2];
      if Exceeds(p1, 12) then Some(MonthYear(p2, ExpandYear(p3)))
      else Some(MonthYear(p1, ExpandYear(p3)))
  }

  /** `MONTH_NAMES[month - 1]` in a template: "undefined" outside 1-12. */
  function MonthName(month: Num): string
  {
    if month.Int? && 1 <= month.value <= 12 then MonthNames[month.value - 1] else "undefined"
  }

  /** `getMonthLabel(dateStr)`: month name and year, or "" for a token that
      does not parse. */
  function GetMonthLabel(dateStr: string): (name: string)
    ensures name == "" <==> |Split(dateStr, DatePartSeps)| != 3
  {
    match ParseMonthYear(dateStr)
    case None => ""
    case Some(my) => MonthLabelOf(my.year, my.month)
  }

  /** The label of a month: its name, a space and the year. */
  function MonthLabelOf(year: Num, month: Num): string
  {
    MonthName(month) + " " + NumToString(year)
  }

  /** The key of a month: the year, a dash and the month on two digits. */
  function MonthKeyOf(year: Num, month: Num): string
  {
    NumToString(year) + "-" + PadStart(NumToString(month), 2, '0')
  }

  /** `getMonthKey(dateStr)`: the month key, or the token itself when it
      does not parse. */
  function GetMonthKey(dateStr: string): (key: string)
    ensures |Split(dateStr, DatePartSeps)| != 3 ==> key == dateStr
    ensures |Split(dateStr, DatePartSeps)| == 3 ==> '-' in key
  {
    match ParseMonthYear(dateStr)
    case None => dateStr
    case Some(my) => MonthKeyOf(my.year, my.month)
  }

  // ---------------------------------------------------------------- parsing: properties

  /** The month is the second part when the first exceeds 12, the first part
      otherwise; the year is the third part, expanded, so it is NaN or at
      least 100. */
  lemma ParseMonthYearParts(dateStr: string)
    requires |Split(dateStr, DatePartSeps)| == 3
    ensures var ns := PartNumbers(dateStr);
      var r := ParseMonthYear(dateStr).value;
      && r.month == (if Exceeds(ns[0], 12) then ns[1] else ns[0])
      && r.year == ExpandYear(ns[2])
      && (r.year.Int? ==> r.year.value >= 100)
  {
    var ns := PartNumbers(dateStr);
    ExpandYearRange(ns[2]);
  }

  /** The picker and the date formatter read the same month and year from
      every token. */
  lemma MonthYearAgrees(dateStr: string)
    ensures ParseMonthYear(dateStr).None? <==> ParseDateStr(dateStr).None?
    ensures ParseMonthYear(dateStr).Some? ==>
              ParseMonthYear(dateStr).value.month == ParseDateStr(dateStr).value.month
              && ParseMonthYear(dateStr).value.year == ParseDateStr(dateStr).value.year
  {
  }

  /** A token that does not parse is its own key and has an empty label. */
  lemma UnparsedKey(dateStr: string)
    requires |Split(dateStr, DatePartSeps)| != 3
    ensures GetMonthKey(dateStr) == dateStr && GetMonthLabel(dateStr) == ""
  {
  }

  /** For a valid month and a four-digit year the key is `yyyy-mm` and the
      label is the month's name and the year. */
  lemma KeyAndLabel(y: nat, m: nat)
    requires 1 <= m <= 12 && 1000 <= y < 10000
    ensures var key := MonthKeyOf(Int(y), Int(m));
      && |key| == 7 && key[4] == '-'
      && key[..4] == DecimalString(y)
      && key[5..] == [DigitChar(m / 10), DigitChar(m % 10)]
    ensures MonthLabelOf(Int(y), Int(m)) == MonthNames[m - 1] + " " + DecimalString(y)
  {
    MonthKeyShape(y, m);
    KeyPartsShape(y, m);
    LabelShape(y, m);
  }

  lemma LabelShape(y: nat, m: nat)
    requires 1 <= m <= 12
    ensures MonthLabelOf(Int(y), Int(m)) == MonthNames[m - 1] + " " + DecimalString(y)
  {
    assert MonthName(Int(m)) == MonthNames[m - 1];
    assert NumToString(Int(y)) == DecimalString(y);
  }

  /** Where the parts of a `yyyy-mm` spelling lie. */
  lemma KeyPartsShape(y: nat, m: nat)
    requires 1 <= m <= 12 && |DecimalString(y)| == 4
    ensures var key := DecimalString(y) + ("-" + MonthDigits(m));
      && |key| == 7 && key[4] == '-'
      && key[..4] == DecimalString(y)
      && key[5..] == [DigitChar(m / 10), DigitChar(m % 10)]
  {
    var key := DecimalString(y) + ("-" + MonthDigits(m));
    assert key[5..] == MonthDigits(m);
  }

  /** A month on two digits. */
  lemma TwoDigits(m: nat)
    requires 1 <= m <= 12
    ensures PadStart(NumToString(Int(m)), 2, '0') == [DigitChar(m / 10), DigitChar(m % 10)]
  {
    DecimalStringLength(m);
    var d := DecimalString(m);
    var p := PadStart(d, 2, '0');
    if m < 10 {
      assert d == [DigitChar(m)];
      assert p[1..] == d;
    } else {
      assert d == DecimalString(m / 10) + [DigitChar(m % 10)];
      assert DecimalString(m / 10) == [DigitChar(m / 10)];
    }
  }

  // ---------------------------------------------------------------- key order

  /** Comparing two strings that start with parts of the same length: the
      first parts decide unless they are equal. */
  lemma {:induction false} BelowConcat(a: string, b: string, s: string, t: string)
    requires |a| == |b|
    ensures Below(a + s, b + t) <==> Below(a, b) || (a == b && Below(s, t))
    decreases |a|
  {
    if a == [] {
      assert a + s == s && b + t == t;
    } else {
      assert (a + s)[0] == a[0] && (b + t)[0] == b[0];
      assert (a + s)[1..] == a[1..] + s && (b + t)[1..] == b[1..] + t;
      BelowConcat(a[1..], b[1..], s, t);
      if a[0] == b[0] {
        assert a == [a[0]] + a[1..] && b == [b[0]] + b[1..];
      }
    }
  }

  /** Decimal spellings of the same length are ordered as the numbers are. */
  lemma {:induction false} DecimalBelow(x: nat, y: nat)
    requires |DecimalString(x)| == |DecimalString(y)|
    ensures Below(DecimalString(x), DecimalString(y)) <==> x < y
    decreases x
  {
    var a, b := DecimalString(x), DecimalString(y);
    if x < 10 && y < 10 {
      assert a == [DigitChar(x)] && b == [DigitChar(y)];
      BelowConcat([], [], a, b);
    } else if x >= 10 && y >= 10 {
      var a', b' := DecimalString(x / 10), DecimalString(y / 10);
      assert a == a' + [DigitChar(x % 10)] && b == b' + [DigitChar(y % 10)];
      DecimalBelow(x / 10, y / 10);
      BelowConcat(a', b', [DigitChar(x % 10)], [DigitChar(y % 10)]);
      assert a' == b' <==> x / 10 == y / 10;
    } else {
      DecimalStringLength(x);
      DecimalStringLength(y);
      assert false;
    }
  }

  /** A month from 1 to 12 on two digits. */
  function MonthDigits(m: nat): (r: string)
    requires 1 <= m <= 12
    ensures |r| == 2
  {
    [DigitChar(m / 10), DigitChar(m % 10)]
  }

  /** Two-digit months are ordered as the months are. */
  lemma MonthDigitsBelow(m1: nat, m2: nat)
    requires 1 <= m1 <= 12 && 1 <= m2 <= 12
    ensures Below(MonthDigits(m1), MonthDigits(m2)) <==> m1 < m2
  {
    var p, q := MonthDigits(m1), MonthDigits(m2);
    assert p == [p[0]] + [p[1]] && q == [q[0]] + [q[1]];
    BelowConcat([p[0]], [q[0]], [p[1]], [q[1]]);
    BelowConcat([], [], [p[0]], [q[0]]);
    BelowConcat([], [], [p[1]], [q[1]]);
  }

  lemma MonthKeyShape(y: nat, m: nat)
    requires 1 <= m <= 12 && 1000 <= y < 10000
    ensures MonthKeyOf(Int(y), Int(m)) == DecimalString(y) + ("-" + MonthDigits(m))
    ensures |DecimalString(y)| == 4
  {
    DecimalStringLength(y);
    TwoDigits(m);
  }

  /** Sorting month keys as strings sorts the months of four-digit years
      chronologically: year first, then month. */
  lemma MonthKeyOrder(y1: nat, m1: nat, y2: nat, m2: nat)
    requires 1 <= m1 <= 12 && 1 <= m2 <= 12
    requires 1000 <= y1 < 10000 && 1000 <= y2 < 10000
    ensures Below(MonthKeyOf(Int(y1), Int(m1)), MonthKeyOf(Int(y2), Int(m2)))
        <==> y1 < y2 || (y1 == y2 && m1 < m2)
  {
    MonthKeyShape(y1, m1);
    MonthKeyShape(y2, m2);
    KeyPartsBelow(y1, m1, y2, m2);
  }

  /** The order of `yyyy-mm` spellings. */
  lemma KeyPartsBelow(y1: nat, m1: nat, y2: nat, m2: nat)
    requires 1 <= m1 <= 12 && 1 <= m2 <= 12
    requires |DecimalString(y1)| == 4 && |DecimalString(y2)| == 4
    ensures Below(DecimalString(y1) + ("-" + MonthDigits(m1)), DecimalString(y2) + ("-" + MonthDigits(m2)))
        <==> y1 < y2 || (y1 == y2 && m1 < m2)
  {
    var a, b := DecimalString(y1), DecimalString(y2);
    BelowConcat(a, b, "-" + MonthDigits(m1), "-" + MonthDigits(m2));
    DecimalBelow(y1, y2);
    assert a == b <==> y1 == y2;
    BelowConcat("-", "-", MonthDigits(m1), MonthDigits(m2));
    MonthDigitsBelow(m1, m2);
  }

  // ---------------------------------------------------------------- grouping

  /** A month of the picker: its label and its dates. */
  datatype Bucket = Bucket(monthLabel: string, dates: seq<string>)

  /** The key of each date, in order. The grouping facts below hold for any
      key function; the picker's is `GetMonthKey`. */
  function KeysOf(dates: seq<string>, keyOf: string -> string): (ks: seq<string>)
    ensures |ks| == |dates|
  {
    if dates == [] then [] else KeysOf(dates[..|dates| - 1], keyOf) + [keyOf(dates[|dates| - 1])]
  }

  lemma {:induction false} KeysOfAt(dates: seq<string>, keyOf: string -> string, j: nat)
    requires j < |dates|
    ensures KeysOf(dates, keyOf)[j] == keyOf(dates[j])
    decreases |dates|
  {
    if j < |dates| - 1 {
      KeysOfAt(dates[..|dates| - 1], keyOf, j);
    }
  }

  lemma {:induction false} KeysOfMembers(dates: seq<string>, keyOf: string -> string, k: string)
    ensures k in KeysOf(dates, keyOf) <==> exists i :: 0 <= i < |dates| && keyOf(dates[i]) == k
    decreases |dates|
  {
    if dates != [] {
      var init := dates[..|dates| - 1];
      KeysOfMembers(init, keyOf, k);
      if exists i :: 0 <= i < |dates| && keyOf(dates[i]) == k {
        var i :| 0 <= i < |dates| && keyOf(dates[i]) == k;
        if i < |init| {
          assert keyOf(init[i]) == k;
        }
      }
    }
  }

  /** The dates whose key is `k`, in input order. */
  function DatesWithKey(dates: seq<string>, keyOf: string -> string, k: string): seq<string>
  {
    if dates == [] then []
    else
      var d := dates[|dates| - 1];
      DatesWithKey(dates[..|dates| - 1], keyOf, k) + (if keyOf(d) == k then [d] else [])
  }

  /** A bucket holds every date with its key and nothing else. */
  lemma {:induction false} DatesWithKeyMembers(dates: seq<string>, keyOf: string -> string, k: string)
    ensures forall x :: x in DatesWithKey(dates, keyOf, k) ==> x in dates && keyOf(x) == k
    ensures forall i :: 0 <= i < |dates| && keyOf(dates[i]) == k ==> dates[i] in DatesWithKey(dates, keyOf, k)
    decreases |dates|
  {
    if dates != [] {
      var init := dates[..|dates| - 1];
      DatesWithKeyMembers(init, keyOf, k);
      assert dates == init + [dates[|dates| - 1]];
      assert forall i :: 0 <= i < |init| ==> dates[i] == init[i];
    }
  }

  /** A key has dates exactly when some date has it. */
  lemma {:induction false} DatesWithKeyEmpty(dates: seq<string>, keyOf: string -> string, k: string)
    ensures DatesWithKey(dates, keyOf, k) == [] <==> k !in KeysOf(dates, keyOf)
    decreases |dates|
  {
    if dates != [] {
      DatesWithKeyEmpty(dates[..|dates| - 1], keyOf, k);
    }
  }

  /** The first date of a bucket is the first date in the input with its
      key. */
  lemma {:induction false} DatesWithKeyFirst(dates: seq<string>, keyOf: string -> string, k: string)
    requires DatesWithKey(dates, keyOf, k) != []
    ensures exists i :: 0 <= i < |dates| && dates[i] == DatesWithKey(dates, keyOf, k)[0]
                        && keyOf(dates[i]) == k
                        && forall j :: 0 <= j < i ==> keyOf(dates[j]) != k
    decreases |dates|
  {
    var init := dates[..|dates| - 1];
    if DatesWithKey(init, keyOf, k) != [] {
      DatesWithKeyFirst(init, keyOf, k);
      var i :| 0 <= i < |init| && init[i] == DatesWithKey(init, keyOf, k)[0]
               && keyOf(init[i]) == k && forall j :: 0 <= j < i ==> keyOf(init[j]) != k;
      assert DatesWithKey(dates, keyOf, k)[0] == init[i];
      assert dates[i] == init[i];
      assert forall j :: 0 <= j < i ==> keyOf(dates[j]) != k by {
        assert forall j :: 0 <= j < i ==> dates[j] == init[j];
      }
    } else {
      DatesWithKeyEmpty(init, keyOf, k);
      KeysOfMembers(init, keyOf, k);
      var i := |dates| - 1;
      assert DatesWithKey(dates, keyOf, k) == [dates[i]];
      assert forall j :: 0 <= j < i ==> keyOf(dates[j]) != k by {
        assert forall j :: 0 <= j < i ==> dates[j] == init[j];
      }
    }
  }

  lemma KeysOfSnoc(dates: seq<string>, keyOf: string -> string, d: string)
    ensures KeysOf(dates + [d], keyOf) == KeysOf(dates, keyOf) + [keyOf(d)]
  {
    assert (dates + [d])[..|dates|] == dates;
  }

  lemma DatesWithKeySnoc(dates: seq<string>, keyOf: string -> string, d: string, k: string)
    ensures DatesWithKey(dates + [d], keyOf, k) == DatesWithKey(dates, keyOf, k) + (if keyOf(d) == k then [d] else [])
  {
    assert (dates + [d])[..|dates|] == dates;
  }

  /** The buckets are exactly the keys. */
  ghost predicate SameKeys(grouped: map<string, Bucket>, keys: seq<string>)
  {
    forall k :: k in grouped <==> k in keys
  }

  /** Each bucket holds exactly the dates with its key, in input order. */
  ghost predicate BucketsHold(dates: seq<string>, keyOf: string -> string, grouped: map<string, Bucket>)
  {
    forall k :: k in grouped ==> grouped[k].dates == DatesWithKey(dates, keyOf, k)
  }

  /** Each bucket has a first date and is labelled from it. */
  ghost predicate Labelled(labelOf: string -> string, grouped: map<string, Bucket>)
  {
    forall k :: k in grouped ==>
      grouped[k].dates != [] && grouped[k].monthLabel == labelOf(grouped[k].dates[0])
  }

  /** `grouped` and `keys` are the grouping of `dates`: `keys` lists the keys
      in order of first appearance (the order of `Object.keys`), each key is
      a bucket holding exactly the dates with that key, in input order, and
      labelled from the first of them. */
  ghost predicate Grouping(dates: seq<string>, keyOf: string -> string, labelOf: string -> string,
                           grouped: map<string, Bucket>, keys: seq<string>)
  {
    && keys == Dedup(KeysOf(dates, keyOf))
    && SameKeys(grouped, keys)
    && BucketsHold(dates, keyOf, grouped)
    && Labelled(labelOf, grouped)
  }

  /** A date with a new key adds its key at the end. */
  lemma NewKeyKeys(dates: seq<string>, keyOf: string -> string, keys: seq<string>, date: string)
    requires keys == Dedup(KeysOf(dates, keyOf))
    requires keyOf(date) !in keys
    ensures keys + [keyOf(date)] == Dedup(KeysOf(dates + [date], keyOf))
  {
    KeysOfSnoc(dates, keyOf, date);
    DedupSnoc(KeysOf(dates, keyOf), keyOf(date));
  }

  /** A new bucket and a new key: the buckets are still exactly the keys. */
  lemma NewKeyDomain(keyOf: string -> string, labelOf: string -> string,
                     grouped: map<string, Bucket>, keys: seq<string>, date: string)
    requires SameKeys(grouped, keys)
    requires keyOf(date) !in grouped
    ensures keyOf(date) !in keys
    ensures SameKeys(grouped[keyOf(date) := Bucket(labelOf(date), [date])], keys + [keyOf(date)])
  {
  }

  /** A date with a new key is the only date of its new bucket; the other
      buckets keep their dates. */
  lemma NewKeyBuckets(dates: seq<string>, keyOf: string -> string, labelOf: string -> string,
                      grouped: map<string, Bucket>, keys: seq<string>, date: string)
    requires BucketsHold(dates, keyOf, grouped)
    requires keys == Dedup(KeysOf(dates, keyOf))
    requires keyOf(date) !in keys
    ensures BucketsHold(dates + [date], keyOf, grouped[keyOf(date) := Bucket(labelOf(date), [date])])
  {
    var g := grouped[keyOf(date) := Bucket(labelOf(date), [date])];
    DatesWithKeyEmpty(dates, keyOf, keyOf(date));
    forall k | k in g ensures g[k].dates == DatesWithKey(dates + [date], keyOf, k) {
      DatesWithKeySnoc(dates, keyOf, date, k);
    }
  }

  /** The new bucket is labelled from its only date. */
  lemma NewKeyLabels(keyOf: string -> string, labelOf: string -> string,
                     grouped: map<string, Bucket>, date: string)
    requires Labelled(labelOf, grouped)
    ensures Labelled(labelOf, grouped[keyOf(date) := Bucket(labelOf(date), [date])])
  {
  }

  /** A date with a new key opens a bucket labelled from it. */
  lemma GroupingNewKey(dates: seq<string>, keyOf: string -> string, labelOf: string -> string,
                       grouped: map<string, Bucket>, keys: seq<string>, date: string)
    requires Grouping(dates, keyOf, labelOf, grouped, keys)
    requires keyOf(date) !in grouped
    ensures Grouping(dates + [date], keyOf, labelOf,
                     grouped[keyOf(date) := Bucket(labelOf(date), [date])], keys + [keyOf(date)])
  {
    NewKeyDomain(keyOf, labelOf, grouped, keys, date);
    NewKeyKeys(dates, keyOf, keys, date);
    NewKeyBuckets(dates, keyOf, labelOf, grouped, keys, date);
    NewKeyLabels(keyOf, labelOf, grouped, date);
  }

  /** A date with a known key adds no key. */
  lemma KnownKeyKeys(dates: seq<string>, keyOf: string -> string, keys: seq<string>, date: string)
    requires keys == Dedup(KeysOf(dates, keyOf))
    requires keyOf(date) in keys
    ensures keys == Dedup(KeysOf(dates + [date], keyOf))
  {
    KeysOfSnoc(dates, keyOf, date);
    DedupSnoc(KeysOf(dates, keyOf), keyOf(date));
  }

  /** Growing a bucket: the buckets are still exactly the keys. */
  lemma KnownKeyDomain(keyOf: string -> string, grouped: map<string, Bucket>, keys: seq<string>, date: string)
    requires SameKeys(grouped, keys)
    requires keyOf(date) in grouped
    ensures keyOf(date) in keys
    ensures SameKeys(grouped[keyOf(date) := grouped[keyOf(date)].(dates := grouped[keyOf(date)].dates + [date])], keys)
  {
  }

  /** A date with a known key goes to the end of that key's bucket only. */
  lemma KnownKeyBuckets(dates: seq<string>, keyOf: string -> string,
                        grouped: map<string, Bucket>, date: string)
    requires BucketsHold(dates, keyOf, grouped)
    requires keyOf(date) in grouped
    ensures BucketsHold(dates + [date], keyOf,
                        grouped[keyOf(date) := grouped[keyOf(date)].(dates := grouped[keyOf(date)].dates + [date])])
  {
    var g := grouped[keyOf(date) := grouped[keyOf(date)].(dates := grouped[keyOf(date)].dates + [date])];
    forall k | k in g ensures g[k].dates == DatesWithKey(dates + [date], keyOf, k) {
      DatesWithKeySnoc(dates, keyOf, date, k);
    }
  }

  /** A bucket keeps its label and its first date as dates join it. */
  lemma KnownKeyLabels(keyOf: string -> string, labelOf: string -> string,
                       grouped: map<string, Bucket>, date: string)
    requires Labelled(labelOf, grouped)
    requires keyOf(date) in grouped
    ensures Labelled(labelOf, grouped[keyOf(date) := grouped[keyOf(date)].(dates := grouped[keyOf(date)].dates + [date])])
  {
    assert (grouped[keyOf(date)].dates + [date])[0] == grouped[keyOf(date)].dates[0];
  }

  /** A date with a known key joins the end of its bucket. */
  lemma GroupingKnownKey(dates: seq<string>, keyOf: string -> string, labelOf: string -> string,
                         grouped: map<string, Bucket>, keys: seq<string>, date: string)
    requires Grouping(dates, keyOf, labelOf, grouped, keys)
    requires keyOf(date) in grouped
    ensures Grouping(dates + [date], keyOf, labelOf,
                     grouped[keyOf(date) := grouped[keyOf(date)].(dates := grouped[keyOf(date)].dates + [date])], keys)
  {
    KnownKeyDomain(keyOf, grouped, keys, date);
    KnownKeyKeys(dates, keyOf, keys, date);
    KnownKeyBuckets(dates, keyOf, grouped, date);
    KnownKeyLabels(keyOf, labelOf, grouped, date);
  }

  /** The `grouped` reduce for given key and label functions. */
  method Bucketize(dates: seq<string>, keyOf: string -> string, labelOf: string -> string)
    returns (grouped: map<string, Bucket>, keys: seq<string>)
    ensures Grouping(dates, keyOf, labelOf, grouped, keys)
  {
    grouped := map[];
    keys := [];
    for i := 0 to |dates|
      invariant Grouping(dates[..i], keyOf, labelOf, grouped, keys)
    {
      var date := dates[i];
      var key := keyOf(date);
      var monthLabel := labelOf(date);
      assert dates[..i + 1] == dates[..i] + [date];
      if key !in grouped {
        GroupingNewKey(dates[..i], keyOf, labelOf, grouped, keys, date);
        grouped := grouped[key := Bucket(monthLabel, [date])];
        keys := keys + [key];
      } else {
        GroupingKnownKey(dates[..i], keyOf, labelOf, grouped, keys, date);
        grouped := grouped[key := grouped[key].(dates := grouped[key].dates + [date])];
      }
    }
    assert dates[..|dates|] == dates;
  }

  /** The picker's `grouped` and `months`: dates bucketed by month key and
      labelled by month, and the keys sorted as strings. */
  method GroupDates(dates: seq<string>) returns (grouped: map<string, Bucket>, months: seq<string>)
    ensures forall k :: k in grouped <==> exists i :: 0 <= i < |dates| && GetMonthKey(dates[i]) == k
    ensures forall k :: k in grouped ==> grouped[k].dates == DatesWithKey(dates, GetMonthKey, k)
    ensures forall k :: k in grouped ==>
              grouped[k].dates != [] && grouped[k].monthLabel == GetMonthLabel(grouped[k].dates[0])
    ensures months == SortStrings(Dedup(KeysOf(dates, GetMonthKey)))
  {
    var keys;
    grouped, keys := Bucketize(dates, GetMonthKey, GetMonthLabel);
    forall k ensures k in grouped <==> exists i :: 0 <= i < |dates| && GetMonthKey(dates[i]) == k {
      KeysOfMembers(dates, GetMonthKey, k);
    }
    months := SortStrings(keys);
  }

  /** The sorted month keys hold each key of the input exactly once, in
      ascending string order. */
  lemma MonthsSortedDistinct(dates: seq<string>)
    ensures var months := SortStrings(Dedup(KeysOf(dates, GetMonthKey)));
      && SortedStrings(months)
      && Distinct(months)
      && forall k :: k in months <==> exists i :: 0 <= i < |dates| && GetMonthKey(dates[i]) == k
  {
    var keys := Dedup(KeysOf(dates, GetMonthKey));
    var months := SortStrings(keys);
    DistinctPermutation(keys, months);
    forall k ensures k in months <==> exists i :: 0 <= i < |dates| && GetMonthKey(dates[i]) == k {
      KeysOfMembers(dates, GetMonthKey, k);
      assert k in months <==> k in multiset(months);
      assert k in keys <==> k in multiset(keys);
    }
  }

  /** Rearranging a list without repetitions gives one without repetitions. */
  lemma DistinctPermutation(xs: seq<string>, ys: seq<string>)
    requires Distinct(xs) && multiset(ys) == multiset(xs)
    ensures Distinct(ys)
  {
    forall i, j | 0 <= i < j < |ys| ensures ys[i] != ys[j] {
      if ys[i] == ys[j] {
        var x := ys[i];
        assert ys == ys[..i] + [x] + ys[i + 1..j] + [x] + ys[j + 1..];
        assert multiset(ys)[x] >= 2;
        DistinctOnce(xs, x);
      }
    }
  }

  lemma {:induction false} DistinctOnce(xs: seq<string>, x: string)
    requires Distinct(xs)
    ensures multiset(xs)[x] <= 1
    decreases |xs|
  {
    if xs != [] {
      assert xs == [xs[0]] + xs[1..];
      DistinctTail(xs);
      DistinctOnce(xs[1..], x);
    }
  }
}
