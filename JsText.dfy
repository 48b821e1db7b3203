/**
 * The JavaScript string and number primitives the chat parser and its
 * helpers rely on: the `\s` class, `trim`, `split`, `Number` on digit
 * strings, number-to-string conversion, `padStart`, string comparison and
 * the default `Array.prototype.sort` on strings.
 */
module JsText {

  /** `\s` in a JavaScript regular expression (WhiteSpace and LineTerminator);
      `String.prototype.trim` strips exactly this set too. */
  predicate IsSpace(c: char)
  {
    if c <= ' ' then
      c == ' ' || '\t' <= c <= '\r'
    else
      && '\U{00A0}' <= c
      && (|| c == '\U{00A0}' || c == '\U{1680}' || '\U{2000}' <= c <= '\U{200A}'
          || c == '\U{2028}' || c == '\U{2029}' || c == '\U{202F}' || c == '\U{205F}'
          || c == '\U{3000}' || c == '\U{FEFF}')
  }

  /** The characters `.` does not match in a pattern without the `s` flag. */
  predicate IsLineTerminator(c: char)
  {
    c == '\n' || c == '\r' || c == '\U{2028}' || c == '\U{2029}'
  }

  predicate IsDigit(c: char)
  {
    '0' <= c <= '9'
  }

  predicate AllDigits(s: string)
  {
    forall i :: 0 <= i < |s| ==> IsDigit(s[i])
  }

  /** Case folding of a `/i` pattern without the `u` flag, restricted to what
      matters when the pattern itself is ASCII: a non-ASCII character never
      folds onto an ASCII one, so only `a`-`z` need mapping. */
  function AsciiUpper(c: char): char
  {
    if 'a' <= c <= 'z' then (c as int - 32) as char else c
  }

  function AsciiUpperString(s: string): (r: string)
    ensures |r| == |s|
    ensures forall i :: 0 <= i < |s| ==> r[i] == AsciiUpper(s[i])
    ensures forall i :: 0 <= i < |r| ==> !('a' <= r[i] <= 'z')
    ensures forall i :: 0 <= i < |s| && !('a' <= s[i] <= 'z') ==> r[i] == s[i]
    ensures s in {"AM", "PM", "am", "pm"} ==> r == (if s[0] == 'a' || s[0] == 'A' then "AM" else "PM")
  {
    seq(|s|, i requires 0 <= i < |s| => AsciiUpper(s[i]))
  }

  // ---------------------------------------------------------------- trim

  /** Leading whitespace removed. */
  function TrimStart(s: string): (r: string)
    ensures |r| <= |s| && r == s[|s| - |r|..]
    ensures forall i :: 0 <= i < |s| - |r| ==> IsSpace(s[i])
    ensures r != [] ==> !IsSpace(r[0])
    decreases |s|
  {
    if s != [] && IsSpace(s[0]) then TrimStart(s[1..]) else s
  }

  /** Trailing whitespace removed. */
  function TrimEnd(s: string): (r: string)
    ensures |r| <= |s| && r == s[..|r|]
    ensures forall i :: |r| <= i < |s| ==> IsSpace(s[i])
    ensures r != [] ==> !IsSpace(r[|r| - 1])
    decreases |s|
  {
    if s != [] && IsSpace(s[|s| - 1]) then TrimEnd(s[..|s| - 1]) else s
  }

  /** `String.prototype.trim`. */
  function Trim(s: string): (r: string)
    ensures |r| <= |s|
    ensures r != [] ==> !IsSpace(r[0]) && !IsSpace(r[|r| - 1])
    ensures r == [] <==> forall i :: 0 <= i < |s| ==> IsSpace(s[i])
    ensures exists i: nat, j: nat :: i <= j <= |s| && r == s[i..j] && Blank(s[..i]) && Blank(s[j..])
  {
    var t := TrimStart(s);
    var r := TrimEnd(t);
    assert r == [] ==> t == [];
    TrimSlice(s, t, r);
    r
  }

  /** A suffix `t` of `s` after whitespace, and a prefix `r` of `t` before
      whitespace, is a slice of `s` with only whitespace around it. */
  lemma TrimSlice(s: string, t: string, r: string)
    requires |t| <= |s| && t == s[|s| - |t|..] && forall k :: 0 <= k < |s| - |t| ==> IsSpace(s[k])
    requires |r| <= |t| && r == t[..|r|] && forall k :: |r| <= k < |t| ==> IsSpace(t[k])
    ensures exists i: nat, j: nat :: i <= j <= |s| && r == s[i..j] && Blank(s[..i]) && Blank(s[j..])
  {
    var i: nat, j: nat := |s| - |t|, |s| - |t| + |r|;
    assert r == s[i..j];
    assert Blank(s[..i]);
    assert s[j..] == t[|r|..];
  }

  /** Every character is whitespace. */
  predicate Blank(s: string)
  {
    forall k :: 0 <= k < |s| ==> IsSpace(s[k])
  }

  // ---------------------------------------------------------------- split and join

  /** Number of characters of `s` that belong to `seps`. */
  function CountIn(s: string, seps: set<char>): nat
    decreases |s|
  {
    if s == [] then 0 else (if s[0] in seps then 1 else 0) + CountIn(s[1..], seps)
  }

  predicate Avoids(s: string, seps: set<char>)
  {
    forall i :: 0 <= i < |s| ==> s[i] !in seps
  }

  /** `s.split(/[...]/)` for a character class `seps`: the maximal pieces between
      separators, so `n` separators give `n + 1` pieces, none of which holds a
      separator. */
  function Split(s: string, seps: set<char>): (parts: seq<string>)
    ensures |parts| == 1 + CountIn(s, seps)
    ensures forall k :: 0 <= k < |parts| ==> Avoids(parts[k], seps)
    decreases |s|
  {
    if s == [] then [[]]
    else
      var rest := Split(s[1..], seps);
      if s[0] in seps then [[]] + rest
      else
        assert Avoids([s[0]] + rest[0], seps) by {
          assert Avoids(rest[0], seps);
        }
        [[s[0]] + rest[0]] + rest[1..]
  }

  /** `parts.join(sep)` for a one-character separator. */
  function Join(parts: seq<string>, sep: char): string
    requires |parts| >= 1
    decreases |parts|
  {
    if |parts| == 1 then parts[0] else parts[0] + [sep] + Join(parts[1..], sep)
  }

  /** A piece free of separators is split into itself. */
  lemma {:induction false} SplitAvoiding(a: string, seps: set<char>)
    requires Avoids(a, seps)
    ensures Split(a, seps) == [a]
    decreases |a|
  {
    if a != [] {
      SplitAvoiding(a[1..], seps);
      assert a[0] !in seps;
      assert [a[0]] + a[1..] == a;
    }
  }

  /** Splitting peels off a separator-free first piece. */
  lemma {:induction false} SplitCons(a: string, c: char, rest: string, seps: set<char>)
    requires Avoids(a, seps) && c in seps
    ensures Split(a + [c] + rest, seps) == [a] + Split(rest, seps)
    decreases |a|
  {
    if a == [] {
      assert a + [c] + rest == [c] + rest;
    } else {
      assert (a + [c] + rest)[1..] == a[1..] + [c] + rest;
      assert (a + [c] + rest)[0] == a[0] && a[0] !in seps;
      SplitCons(a[1..], c, rest, seps);
      var r := Split(a[1..] + [c] + rest, seps);
      assert r[0] == a[1..] && r[1..] == Split(rest, seps);
      assert [a[0]] + a[1..] == a;
    }
  }

  /** Joining the pieces of a split with the separator gives the string back. */
  lemma {:induction false} JoinSplit(s: string, sep: char)
    ensures Join(Split(s, {sep}), sep) == s
    decreases |s|
  {
    if s != [] {
      JoinSplit(s[1..], sep);
      var rest := Split(s[1..], {sep});
      if s[0] == sep {
        assert Split(s, {sep}) == [[]] + rest;
        assert ([[]] + rest)[1..] == rest;
      } else {
        var parts := Split(s, {sep});
        assert parts == [[s[0]] + rest[0]] + rest[1..];
        if |rest| == 1 {
          assert Join(parts, sep) == [s[0]] + rest[0];
        } else {
          assert parts[1..] == rest[1..];
          assert Join(rest, sep) == rest[0] + [sep] + Join(rest[1..], sep);
        }
      }
    }
  }

  /** Splitting the join of separator-free pieces gives the pieces back. */
  lemma {:induction false} SplitJoin(parts: seq<string>, sep: char)
    requires |parts| >= 1
    requires forall k :: 0 <= k < |parts| ==> Avoids(parts[k], {sep})
    ensures Split(Join(parts, sep), {sep}) == parts
    decreases |parts|
  {
    if |parts| == 1 {
      SplitAvoiding(parts[0], {sep});
    } else {
      SplitJoin(parts[1..], sep);
      SplitCons(parts[0], sep, Join(parts[1..], sep), {sep});
    }
  }

  // ---------------------------------------------------------------- numbers

  /** A JavaScript number as far as this model needs one: an integer or NaN. */
  datatype Num = NaN | Int(value: int)

  function DigitValue(c: char): nat
    requires IsDigit(c)
  {
    c as int - '0' as int
  }

  function DigitChar(d: nat): (c: char)
    requires d < 10
    ensures IsDigit(c) && DigitValue(c) == d
  {
    ('0' as int + d) as char
  }

  /** The decimal value of a string of ASCII digits; the empty string is 0, as
      `Number("")` is. */
  function DigitsValue(s: string): nat
    requires AllDigits(s)
    decreases |s|
  {
    if s == [] then 0 else 10 * DigitsValue(s[..|s| - 1]) + DigitValue(s[|s| - 1])
  }

  /** `Number(s)` for the strings this model meets: a string of ASCII digits
      has its decimal value, anything else is NaN. */
  function ToNumber(s: string): (n: Num)
    ensures AllDigits(s) <==> n.Int?
    ensures n.Int? ==> n.value >= 0 && n.value == DigitsValue(s)
  {
    if AllDigits(s) then Int(DigitsValue(s)) else NaN
  }

  /** `String(n)` for a natural number: its shortest decimal spelling. */
  function DecimalString(n: nat): (r: string)
    ensures |r| >= 1 && AllDigits(r)
    ensures DigitsValue(r) == n
    ensures r[0] == '0' ==> n == 0
    decreases n
  {
    if n < 10 then [DigitChar(n)]
    else
      var r := DecimalString(n / 10) + [DigitChar(n % 10)];
      assert r[..|r| - 1] == DecimalString(n / 10);
      r
  }

  /** The decimal spelling grows by one digit exactly at each power of ten. */
  lemma {:induction false} DecimalStringLength(n: nat)
    ensures n < 10 ==> |DecimalString(n)| == 1
    ensures 10 <= n < 100 ==> |DecimalString(n)| == 2
    ensures 100 <= n < 1000 ==> |DecimalString(n)| == 3
    ensures 1000 <= n < 10000 ==> |DecimalString(n)| == 4
  {
    if n >= 10 {
      DecimalStringLength(n / 10);
    }
  }

  /** String conversion of a number in a template literal. */
  function NumToString(n: Num): string
  {
    match n
    case NaN => "NaN"
    case Int(v) => if v >= 0 then DecimalString(v) else "-" + DecimalString(-v)
  }

  /** `s.padStart(width, fill)` with a one-character fill. */
  function PadStart(s: string, width: nat, fill: char): (r: string)
    ensures |r| == if |s| >= width then |s| else width
    ensures r[|r| - |s|..] == s
    ensures forall i :: 0 <= i < |r| - |s| ==> r[i] == fill
  {
    if |s| >= width then s else seq(width - |s|, _ => fill) + s
  }

  // ---------------------------------------------------------------- ordering and sort

  /** `a < b` on strings: lexicographic comparison of characters, a proper
      prefix coming first. */
  predicate Below(a: string, b: string)
    decreases |a|
  {
    if a == [] then b != []
    else if b == [] then false
    else if a[0] != b[0] then a[0] < b[0]
    else Below(a[1..], b[1..])
  }

  lemma {:induction false} BelowIrreflexive(a: string)
    ensures !Below(a, a)
    decreases |a|
  {
    if a != [] {
      BelowIrreflexive(a[1..]);
    }
  }

  lemma {:induction false} BelowTransitive(a: string, b: string, c: string)
    requires Below(a, b) && Below(b, c)
    ensures Below(a, c)
    decreases |a|
  {
    if a != [] && b != [] && c != [] && a[0] == b[0] && b[0] == c[0] {
      BelowTransitive(a[1..], b[1..], c[1..]);
    }
  }

  /** Any two different strings are ordered one way or the other, and not both. */
  lemma {:induction false} BelowTotal(a: string, b: string)
    ensures a != b <==> (Below(a, b) || Below(b, a))
    ensures !(Below(a, b) && Below(b, a))
    decreases |a|
  {
    if a == [] || b == [] {
    } else if a[0] != b[0] {
    } else {
      BelowTotal(a[1..], b[1..]);
      assert a == [a[0]] + a[1..] && b == [b[0]] + b[1..];
    }
  }

  /** Non-decreasing in string order. */
  predicate SortedStrings(xs: seq<string>)
  {
    forall i, j :: 0 <= i < j < |xs| ==> !Below(xs[j], xs[i])
  }

  lemma SortedCons(x: string, xs: seq<string>)
    requires SortedStrings(xs)
    requires xs != [] ==> !Below(xs[0], x)
    ensures SortedStrings([x] + xs)
  {
    forall j | 0 < j < |[x] + xs| ensures !Below(([x] + xs)[j], x) {
      var y := xs[j - 1];
      if Below(y, x) {
        if j - 1 == 0 {
        } else {
          assert !Below(y, xs[0]);
          BelowTotal(y, xs[0]);
          if y != xs[0] {
            BelowTransitive(xs[0], y, x);
          }
        }
      }
    }
  }

  function Insert(x: string, xs: seq<string>): (r: seq<string>)
    requires SortedStrings(xs)
    ensures SortedStrings(r)
    ensures multiset(r) == multiset(xs) + multiset{x}
    ensures r != [] && (r[0] == x || (xs != [] && r[0] == xs[0]))
    decreases |xs|
  {
    if xs == [] then [x]
    else if !Below(xs[0], x) then
      SortedCons(x, xs);
      [x] + xs
    else
      var tail := Insert(x, xs[1..]);
      assert xs == [xs[0]] + xs[1..];
      assert !Below(tail[0], xs[0]) by {
        BelowTotal(x, xs[0]);
        if tail[0] != x {
          assert !Below(xs[1], xs[0]);
        }
      }
      SortedCons(xs[0], tail);
      [xs[0]] + tail
  }

  /** `Array.prototype.sort()` on strings: the same strings in ascending order. */
  function SortStrings(xs: seq<string>): (r: seq<string>)
    ensures SortedStrings(r)
    ensures multiset(r) == multiset(xs)
    decreases |xs|
  {
    if xs == [] then []
    else
      assert xs == [xs[0]] + xs[1..];
      Insert(xs[0], SortStrings(xs[1..]))
  }
}
