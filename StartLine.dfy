/**
 * The pattern that recognises the first line of a chat entry
 * (`MESSAGE_START_REGEX` in src/utils/parseChat.js), as a hand-written
 * matcher over characters. In order, a start line holds:
 *
 *   - an optional `[`;
 *   - the date: 1-2 digits, a separator from `/ - .`, 1-2 digits, a separator,
 *     2-4 digits (captured);
 *   - an optional `,` and exactly one whitespace character;
 *   - the time: 1-2 digits, `:` or `.`, 2 digits, and optionally `:` or `.`
 *     with 2 more digits (captured);
 *   - an optional whitespace character, an optional meridiem spelled `AM`,
 *     `PM`, `am` or `pm` (captured; no case folding), an optional `]`, an
 *     optional whitespace character;
 *   - a hyphen, en dash or em dash, then an optional whitespace character;
 *   - the body: everything up to the first line terminator (captured).
 *
 * The pattern is anchored at the start of the line but not at its end.
 *
 * Each digit group is followed by a token that cannot match a digit, so
 * backtracking into a group never helps: a group matches exactly when the
 * whole run of digits at that point has an allowed length. The optional parts
 * after the time are tried "with" before "without", as a backtracking
 * matcher does, which fixes the captures.
 */
module StartLine {
  import opened Wrappers
  import opened JsText

  const DateSeps: set<char> := {'/', '-', '.'}
  const TimeSeps: set<char> := {':', '.'}
  const Meridiems: set<string> := {"AM", "PM", "am", "pm"}

  /** Hyphen, en dash, em dash. */
  predicate IsDash(c: char)
  {
    c == '-' || c == '\U{2013}' || c == '\U{2014}'
  }

  /** What a start line captures: the date token, the time token, the meridiem
      as written, and the first line of the body. */
  datatype StartMatch = StartMatch(date: string, time: string, meridiem: Option<string>, body: string)

  /** Length of the run of ASCII digits in `s` from `i`. */
  function DigitRun(s: string, i: nat): (n: nat)
    requires i <= |s|
    ensures i + n <= |s|
    ensures i + n < |s| ==> !IsDigit(s[i + n])
    decreases |s| - i
  {
    if i < |s| && IsDigit(s[i]) then 1 + DigitRun(s, i + 1) else 0
  }

  /** Every character of the run is a digit. */
  lemma {:induction false} DigitRunDigits(s: string, i: nat, k: nat)
    requires i <= |s| && i <= k < i + DigitRun(s, i)
    ensures IsDigit(s[k])
    decreases k - i
  {
    if k > i {
      DigitRunDigits(s, i + 1, k);
    }
  }

  /** The text before the first line terminator: what a greedy `.*` takes. */
  function UpToTerminator(s: string): (r: string)
    ensures r <= s
    ensures forall k :: 0 <= k < |r| ==> !IsLineTerminator(r[k])
    ensures |r| < |s| ==> IsLineTerminator(s[|r|])
  {
    if s == [] || IsLineTerminator(s[0]) then [] else [s[0]] + UpToTerminator(s[1..])
  }

  /** The two characters spell `AM`, `PM`, `am` or `pm`. */
  predicate IsMeridiem(c0: char, c1: char)
  {
    ((c0 == 'A' || c0 == 'P') && c1 == 'M') || ((c0 == 'a' || c0 == 'p') && c1 == 'm')
  }

  predicate MeridiemAt(line: string, q: nat)
  {
    q + 2 <= |line| && IsMeridiem(line[q], line[q + 1])
  }

  /** Where a start line's parts lie: the date token, the time token, the
      meridiem (two characters, if any) and the start of the body. */
  datatype Span = Span(dateStart: nat, dateEnd: nat, timeStart: nat, timeEnd: nat,
                       meridiemAt: Option<nat>, bodyStart: nat)
  {
    /** The parts lie in order within a line of length `n`. */
    predicate Ordered(n: nat)
    {
      && dateStart <= dateEnd <= timeStart <= timeEnd <= bodyStart <= n
      && (meridiemAt.Some? ==> timeEnd <= meridiemAt.value && meridiemAt.value + 2 <= bodyStart)
    }
  }

  // The pattern is matched part by part. Each function below matches one
  // stretch of it at position `i` and gives the position where that stretch
  // ends (or `None` when it cannot match there); `Locate` chains them.
  //
  // Each digit group is followed by a character that cannot be a digit, so a
  // group matches exactly when the whole run of digits there has an allowed
  // length. Every optional part is taken when it is there, as a backtracking
  // matcher tries it first; leaving it out cannot rescue a failed match,
  // because what comes next cannot start with it: a date does not start with
  // `[`, a whitespace character is not `,`, the tail after the time does not
  // start with `:` or `.`, a meridiem starts with a letter, and `]` is neither
  // whitespace nor a dash. A whitespace character after the time is the one
  // exception: leaving it out lets the dash part take it instead, which
  // succeeds exactly when taking it does, with the same captures.

  /** The position after the optional `[` that may open the line. */
  function AfterOpen(line: string): (i: nat)
    ensures i <= |line|
  {
    if |line| > 0 && line[0] == '[' then 1 else 0
  }

  /** The date token: one or two digits, a date separator, one or two digits,
      a date separator, and two to four digits; where it ends. */
  function DateEnd(line: string, i: nat): (r: Option<nat>)
    requires i <= |line|
    ensures r.Some? ==> i < r.value <= |line|
  {
    var n1 := DigitRun(line, i);
    if !(1 <= n1 <= 2 && i + n1 < |line| && line[i + n1] in DateSeps) then None
    else
      var j := i + n1 + 1;
      var n2 := DigitRun(line, j);
      if !(1 <= n2 <= 2 && j + n2 < |line| && line[j + n2] in DateSeps) then None
      else
        var k := j + n2 + 1;
        var n3 := DigitRun(line, k);
        if 2 <= n3 <= 4 then Some(k + n3) else None
  }

  /** After the date: an optional `,` and exactly one whitespace character;
      where the time starts. */
  function TimeStart(line: string, i: nat): (r: Option<nat>)
    requires i <= |line|
    ensures r.Some? ==> i < r.value <= |line|
  {
    var j := if i < |line| && line[i] == ',' then i + 1 else i;
    if j < |line| && IsSpace(line[j]) then Some(j + 1) else None
  }

  /** The time token: one or two digits, `:` or `.`, two digits, and
      optionally `:` or `.` with two more digits; where it ends. */
  function TimeEnd(line: string, i: nat): (r: Option<nat>)
    requires i <= |line|
    ensures r.Some? ==> i < r.value <= |line|
  {
    var n := DigitRun(line, i);
    if !(1 <= n <= 2 && i + n < |line| && line[i + n] in TimeSeps && DigitRun(line, i + n + 1) == 2) then None
    else
      var k := i + n + 3;
      var sep := k < |line| && line[k] in TimeSeps;
      if sep && !(k + 2 < |line| && IsDigit(line[k + 1]) && IsDigit(line[k + 2])) then None
      else Some(if sep then k + 3 else k)
  }

  /** An optional whitespace character. */
  function GapEnd(line: string, i: nat): (j: nat)
    requires i <= |line|
    ensures i <= j <= |line|
  {
    if i < |line| && IsSpace(line[i]) then i + 1 else i
  }

  /** An optional `]`. */
  function CloseEnd(line: string, i: nat): (j: nat)
    requires i <= |line|
    ensures i <= j <= |line|
  {
    if i < |line| && line[i] == ']' then i + 1 else i
  }

  /** A hyphen, en dash or em dash, with an optional whitespace character
      before it; where it ends. */
  function DashEnd(line: string, i: nat): (r: Option<nat>)
    requires i <= |line|
    ensures r.Some? ==> i < r.value <= |line|
  {
    if i + 1 < |line| && IsSpace(line[i]) && IsDash(line[i + 1]) then Some(i + 2)
    else if i < |line| && IsDash(line[i]) then Some(i + 1)
    else None
  }

  /** Where the meridiem lies, if there is one, and where the body starts. */
  datatype Tail = Tail(meridiemAt: Option<nat>, bodyStart: nat)

  /** After the time: an optional whitespace character, an optional
      meridiem (recorded where it starts), an optional `]`, the dash, and an
      optional whitespace character before the body. */
  function TailEnd(line: string, i: nat): (r: Option<Tail>)
    requires i <= |line|
    ensures r.Some? ==> i <= r.value.bodyStart <= |line|
    ensures r.Some? && r.value.meridiemAt.Some? ==>
              i <= r.value.meridiemAt.value && r.value.meridiemAt.value + 2 <= r.value.bodyStart
    ensures r.Some? && r.value.meridiemAt.Some? ==> MeridiemAt(line, r.value.meridiemAt.value)
  {
    var q := GapEnd(line, i);
    var m := MeridiemAt(line, q);
    match DashEnd(line, CloseEnd(line, if m then q + 2 else q))
    case None => None
    case Some(k) => Some(Tail(if m then Some(q) else None, GapEnd(line, k)))
  }

  /** Runs the pattern on `line`: where its parts lie, or `None` when the line
      is not the first line of an entry. */
  function Locate(line: string): (r: Option<Span>)
    ensures r.Some? ==> r.value.Ordered(|line|)
    ensures r.Some? && r.value.meridiemAt.Some? ==> MeridiemAt(line, r.value.meridiemAt.value)
  {
    var p := AfterOpen(line);
    match DateEnd(line, p)
    case None => None
    case Some(d) =>
      match TimeStart(line, d)
      case None => None
      case Some(t) =>
        match TimeEnd(line, t)
        case None => None
        case Some(e) =>
          match TailEnd(line, e)
          case None => None
          case Some(tail) => Some(Span(p, d, t, e, tail.meridiemAt, tail.bodyStart))
  }

  /** Two characters that spell a meridiem are one of the four spellings. */
  lemma MeridiemSpelled(line: string, q: nat)
    requires MeridiemAt(line, q)
    ensures line[q..q + 2] in Meridiems
  {
    var w := line[q..q + 2];
    assert w == [line[q], line[q + 1]];
  }

  /** The captures of a match whose parts lie at `sp`. A meridiem capture is
      one of the four spellings, and the body holds no line terminator. */
  function Captures(line: string, sp: Span): (m: StartMatch)
    requires sp.Ordered(|line|)
    requires sp.meridiemAt.Some? ==> MeridiemAt(line, sp.meridiemAt.value)
    ensures m.meridiem.Some? ==> m.meridiem.value in Meridiems
    ensures forall k :: 0 <= k < |m.body| ==> !IsLineTerminator(m.body[k])
  {
    var mer := if sp.meridiemAt.Some? then
                 MeridiemSpelled(line, sp.meridiemAt.value);
                 Some(line[sp.meridiemAt.value..sp.meridiemAt.value + 2])
               else None;
    StartMatch(line[sp.dateStart..sp.dateEnd], line[sp.timeStart..sp.timeEnd], mer,
               UpToTerminator(line[sp.bodyStart..]))
  }

  /** `line.match(MESSAGE_START_REGEX)`: the captures, or `None` when the line
      is not the first line of an entry. */
  function MatchStart(line: string): (r: Option<StartMatch>)
    ensures r.Some? && r.value.meridiem.Some? ==> r.value.meridiem.value in Meridiems
    ensures r.Some? ==> forall k :: 0 <= k < |r.value.body| ==> !IsLineTerminator(r.value.body[k])
  {
    match Locate(line)
    case None => None
    case Some(sp) => Some(Captures(line, sp))
  }

  /** Whether the line opens a new entry. */
  predicate IsStart(line: string)
  {
    MatchStart(line).Some?
  }

  // ---------------------------------------------------------------------------
  // What the pattern accepts and rejects, stated on the characters of a line.
  // A `Layout` says where each part of a line lies and which optional parts
  // it has; `Laid` checks a layout against the line, part by part. A line is
  // a start line exactly when it has a layout (`StartIff`): every laid-out
  // line matches, with the captures its layout gives (`LaidMatches`), and
  // every start line has a layout giving its captures (`StartIsLaid`).
  //
  // The bracketed layout `[date, time[ meridiem]] sender: text` (the iOS
  // export layout), which the comment above the pattern lists among the
  // forms it handles, is not recognised at all, because no dash follows the
  // `]` (`BracketLayoutIsNotStart`).

  /** Where the parts of a start line lie, and which optional parts it has.
      The optional `[` ends at `p`. The date groups have `a`, `b` and `c`
      digits and the date ends at `d`; `comma` says whether a `,` follows.
      The time starts at `t`, its hour has `h` digits, `sec` says whether it
      has seconds, and it ends at `e`. Then come the optional whitespace
      character `g1`, the optional meridiem (`mer`) from `q` to `r`, the
      optional `]` (`close`) ending at `s`, the optional whitespace character
      `g2`, and the dash at `u`. The body starts at `body`. */
  datatype Layout = Layout(p: nat, a: nat, b: nat, c: nat, d: nat, comma: bool, t: nat,
                           h: nat, sec: bool, e: nat,
                           g1: bool, q: nat, mer: bool, r: nat, close: bool, s: nat, g2: bool, u: nat,
                           body: nat)

  /** The date from `p`: digit groups of `a` (1-2), `b` (1-2) and `c` (2-4)
      digits with a date separator after each of the first two, ending at
      `d`; then an optional `,` and one whitespace character, so that the
      time starts at `t`. */
  predicate DateLaid(line: string, p: nat, a: nat, b: nat, c: nat, d: nat, comma: bool, t: nat)
  {
    && 1 <= a <= 2 && 1 <= b <= 2 && 2 <= c <= 4
    && d == p + a + 1 + b + 1 + c && t == (if comma then d + 2 else d + 1) && t <= |line|
    && DigitRun(line, p) == a && line[p + a] in DateSeps
    && DigitRun(line, p + a + 1) == b && line[p + a + 1 + b] in DateSeps
    && DigitRun(line, p + a + 1 + b + 1) == c
    && (comma ==> line[d] == ',')
    && IsSpace(line[t - 1])
  }

  /** The time from `t`: an hour of `h` (1-2) digits, `:` or `.`, two digits
      of minutes and, when `sec`, `:` or `.` and two digits of seconds,
      ending at `e`. */
  predicate TimeLaid(line: string, t: nat, h: nat, sec: bool, e: nat)
  {
    && 1 <= h <= 2 && e == (if sec then t + h + 6 else t + h + 3) && e <= |line|
    && DigitRun(line, t) == h && line[t + h] in TimeSeps
    && DigitRun(line, t + h + 1) == 2
    && (sec ==> line[t + h + 3] in TimeSeps && IsDigit(line[t + h + 4]) && IsDigit(line[t + h + 5]))
  }

  /** After the time at `e`: an optional whitespace character (`g1`), an
      optional meridiem from `q` to `r` (`mer`), an optional `]` ending at
      `s` (`close`), an optional whitespace character (`g2`), and a dash at
      `u`. The whitespace character after the dash is taken whenever it is
      there; the body starts after it. */
  predicate TailLaid(line: string, e: nat, g1: bool, q: nat, mer: bool, r: nat, close: bool,
                     s: nat, g2: bool, u: nat, body: nat)
  {
    && q == (if g1 then e + 1 else e)
    && r == (if mer then q + 2 else q)
    && s == (if close then r + 1 else r)
    && u == (if g2 then s + 1 else s)
    && u < |line|
    && (g1 ==> IsSpace(line[e]))
    && (mer ==> IsMeridiem(line[q], line[q + 1]))
    && (close ==> line[r] == ']')
    && (g2 ==> IsSpace(line[s]))
    && IsDash(line[u])
    && body == (if u + 1 < |line| && IsSpace(line[u + 1]) then u + 2 else u + 1)
  }

  /** `line` is laid out as `l` says: an optional `[`, the date, the time
      and the tail. */
  predicate Laid(line: string, l: Layout)
  {
    && (l.p == 0 || (l.p == 1 && |line| > 0 && line[0] == '['))
    && DateLaid(line, l.p, l.a, l.b, l.c, l.d, l.comma, l.t)
    && TimeLaid(line, l.t, l.h, l.sec, l.e)
    && TailLaid(line, l.e, l.g1, l.q, l.mer, l.r, l.close, l.s, l.g2, l.u, l.body)
  }

  /** The captures a layout gives: the date, the time, the two meridiem
      characters, and the body up to the first line terminator. */
  function LaidCaptures(line: string, l: Layout): StartMatch
    requires Laid(line, l)
  {
    StartMatch(line[l.p..l.d], line[l.t..l.e], if l.mer then Some(line[l.q..l.r]) else None,
               UpToTerminator(line[l.body..]))
  }

  // Each part, laid out, is found by its step of the matcher.

  lemma DateLaidEnds(line: string, p: nat, a: nat, b: nat, c: nat, d: nat, comma: bool, t: nat)
    requires DateLaid(line, p, a, b, c, d, comma, t)
    ensures DateEnd(line, p) == Some(d)
    ensures TimeStart(line, d) == Some(t)
  {
    if !comma {
      assert IsSpace(line[d]);
    }
  }

  lemma TimeLaidEnds(line: string, t: nat, h: nat, sec: bool, e: nat)
    requires TimeLaid(line, t, h, sec, e)
    requires sec || e == |line| || line[e] !in TimeSeps
    ensures TimeEnd(line, t) == Some(e)
  {
  }

  /** What follows the time is not a time separator. */
  lemma TailLaidApart(line: string, e: nat, g1: bool, q: nat, mer: bool, r: nat, close: bool,
                      s: nat, g2: bool, u: nat, body: nat)
    requires TailLaid(line, e, g1, q, mer, r, close, s, g2, u, body)
    ensures e < |line| && line[e] !in TimeSeps
  {
  }

  lemma TailLaidEnds(line: string, e: nat, g1: bool, q: nat, mer: bool, r: nat, close: bool,
                     s: nat, g2: bool, u: nat, body: nat)
    requires TailLaid(line, e, g1, q, mer, r, close, s, g2, u, body)
    ensures TailEnd(line, e) == Some(Tail(if mer then Some(q) else None, body))
  {
    assert !IsSpace(line[u]);
    if !g1 && !mer && !close && g2 {
      // The matcher takes this whitespace character before the meridiem
      // instead; the dash follows it directly, with the same result.
      assert GapEnd(line, e) == u;
      assert !MeridiemAt(line, u) && CloseEnd(line, u) == u;
      assert DashEnd(line, u) == Some(u + 1);
    } else {
      assert GapEnd(line, e) == q;
      assert MeridiemAt(line, q) == mer;
      assert CloseEnd(line, r) == s;
      assert DashEnd(line, s) == Some(u + 1);
    }
  }

  /** The parts found one after another make up the match. */
  lemma LocateParts(line: string, p: nat, d: nat, t: nat, e: nat, tail: Tail)
    requires p == AfterOpen(line)
    requires DateEnd(line, p) == Some(d)
    requires TimeStart(line, d) == Some(t)
    requires TimeEnd(line, t) == Some(e)
    requires TailEnd(line, e) == Some(tail)
    ensures Locate(line) == Some(Span(p, d, t, e, tail.meridiemAt, tail.bodyStart))
  {
  }

  /** The captures of a line found at the given positions. */
  lemma CapturesAt(line: string, sp: Span)
    requires Locate(line) == Some(sp)
    ensures sp.Ordered(|line|) && (sp.meridiemAt.Some? ==> MeridiemAt(line, sp.meridiemAt.value))
    ensures MatchStart(line) == Some(Captures(line, sp))
  {
  }

  /** The captures at given positions, sliced out of the line. */
  lemma CapturesSliced(line: string, p: nat, d: nat, t: nat, e: nat, mer: bool, q: nat, body: nat)
    requires p <= d <= t <= e <= body <= |line|
    requires mer ==> e <= q && q + 2 <= body && MeridiemAt(line, q)
    ensures Captures(line, Span(p, d, t, e, if mer then Some(q) else None, body))
         == StartMatch(line[p..d], line[t..e], if mer then Some(line[q..q + 2]) else None, UpToTerminator(line[body..]))
  {
  }

  /** A laid-out line is found where its layout says. */
  lemma LaidLocatesFlat(line: string, p: nat, a: nat, b: nat, c: nat, d: nat, comma: bool, t: nat,
                        h: nat, sec: bool, e: nat,
                        g1: bool, q: nat, mer: bool, r: nat, close: bool, s: nat, g2: bool, u: nat,
                        body: nat)
    requires p == 0 || (p == 1 && |line| > 0 && line[0] == '[')
    requires DateLaid(line, p, a, b, c, d, comma, t)
    requires TimeLaid(line, t, h, sec, e)
    requires TailLaid(line, e, g1, q, mer, r, close, s, g2, u, body)
    ensures Locate(line) == Some(Span(p, d, t, e, if mer then Some(q) else None, body))
  {
    assert DigitRun(line, p) >= 1;
    assert AfterOpen(line) == p;
    DateLaidEnds(line, p, a, b, c, d, comma, t);
    TailLaidApart(line, e, g1, q, mer, r, close, s, g2, u, body);
    TimeLaidEnds(line, t, h, sec, e);
    TailLaidEnds(line, e, g1, q, mer, r, close, s, g2, u, body);
    LocateParts(line, p, d, t, e, Tail(if mer then Some(q) else None, body));
  }

  /** Every laid-out line is a start line; its captures are the date, the
      time and the meridiem as written, and the body up to the first line
      terminator. */
  lemma LaidMatches(line: string, l: Layout)
    requires Laid(line, l)
    ensures MatchStart(line) == Some(LaidCaptures(line, l))
  {
    LaidLocatesFlat(line, l.p, l.a, l.b, l.c, l.d, l.comma, l.t, l.h, l.sec, l.e,
                    l.g1, l.q, l.mer, l.r, l.close, l.s, l.g2, l.u, l.body);
    CapturesAt(line, Span(l.p, l.d, l.t, l.e, if l.mer then Some(l.q) else None, l.body));
    CapturesSliced(line, l.p, l.d, l.t, l.e, l.mer, l.q, l.body);
  }

  // Each step of the matcher that succeeds has found its part laid out.

  lemma DateEndLaid(line: string, p: nat, d: nat, t: nat) returns (a: nat, b: nat, c: nat, comma: bool)
    requires p <= |line| && DateEnd(line, p) == Some(d) && TimeStart(line, d) == Some(t)
    ensures DateLaid(line, p, a, b, c, d, comma, t)
  {
    a := DigitRun(line, p);
    b := DigitRun(line, p + a + 1);
    c := DigitRun(line, p + a + 1 + b + 1);
    comma := line[d] == ',';
  }

  lemma TimeEndLaid(line: string, t: nat, e: nat) returns (h: nat, sec: bool)
    requires t <= |line| && TimeEnd(line, t) == Some(e)
    ensures TimeLaid(line, t, h, sec, e)
  {
    h := DigitRun(line, t);
    sec := e == t + h + 6;
  }

  lemma TailEndLaid(line: string, e: nat, tail: Tail)
    returns (g1: bool, q: nat, mer: bool, r: nat, close: bool, s: nat, g2: bool, u: nat)
    requires e <= |line| && TailEnd(line, e) == Some(tail)
    ensures TailLaid(line, e, g1, q, mer, r, close, s, g2, u, tail.bodyStart)
    ensures tail.meridiemAt == (if mer then Some(q) else None)
  {
    q := GapEnd(line, e);
    g1 := q == e + 1;
    mer := MeridiemAt(line, q);
    r := if mer then q + 2 else q;
    s := CloseEnd(line, r);
    close := s == r + 1;
    var k := DashEnd(line, s).value;
    assert k > s;
    u := k - 1;
    g2 := u == s + 1;
  }

  /** Parts laid out one after another make up a layout. */
  lemma LayoutLaid(line: string, p: nat, a: nat, b: nat, c: nat, d: nat, comma: bool, t: nat,
                   h: nat, sec: bool, e: nat,
                   g1: bool, q: nat, mer: bool, r: nat, close: bool, s: nat, g2: bool, u: nat,
                   body: nat)
    requires p == AfterOpen(line)
    requires DateLaid(line, p, a, b, c, d, comma, t)
    requires TimeLaid(line, t, h, sec, e)
    requires TailLaid(line, e, g1, q, mer, r, close, s, g2, u, body)
    ensures Laid(line, Layout(p, a, b, c, d, comma, t, h, sec, e, g1, q, mer, r, close, s, g2, u, body))
  {
  }

  /** The parts the matcher finds one after another make up a layout. */
  lemma StepsLaid(line: string, p: nat, d: nat, t: nat, e: nat, tail: Tail)
    requires p == AfterOpen(line)
    requires DateEnd(line, p) == Some(d)
    requires TimeStart(line, d) == Some(t)
    requires TimeEnd(line, t) == Some(e)
    requires TailEnd(line, e) == Some(tail)
    ensures exists l :: Laid(line, l)
  {
    var a, b, c, comma := DateEndLaid(line, p, d, t);
    var h, sec := TimeEndLaid(line, t, e);
    var g1, q, mer, r, close, s, g2, u := TailEndLaid(line, e, tail);
    LayoutLaid(line, p, a, b, c, d, comma, t, h, sec, e, g1, q, mer, r, close, s, g2, u, tail.bodyStart);
  }

  /** Every start line has a layout. */
  lemma StartHasLayout(line: string)
    requires IsStart(line)
    ensures exists l :: Laid(line, l)
  {
    var p := AfterOpen(line);
    var d := DateEnd(line, p).value;
    var t := TimeStart(line, d).value;
    var e := TimeEnd(line, t).value;
    StepsLaid(line, p, d, t, e, TailEnd(line, e).value);
  }

  /** Every start line has a layout, and its captures are the ones that
      layout gives. */
  lemma StartIsLaid(line: string)
    requires IsStart(line)
    ensures exists l :: Laid(line, l) && MatchStart(line) == Some(LaidCaptures(line, l))
  {
    StartHasLayout(line);
    var l :| Laid(line, l);
    LaidMatches(line, l);
  }

  /** A line starts an entry exactly when it has a layout. */
  lemma StartIff(line: string)
    ensures IsStart(line) <==> exists l :: Laid(line, l)
  {
    if IsStart(line) {
      StartIsLaid(line);
    }
    if l :| Laid(line, l) {
      LaidMatches(line, l);
    }
  }

  /** After the time at `e`: an optional whitespace character (`g1`), an
      optional meridiem from `q` to `r` (`mer`), and a `]` ending at `s`,
      after which comes neither a dash nor a whitespace character and a
      dash. */
  predicate BracketTailLaid(line: string, e: nat, g1: bool, q: nat, mer: bool, r: nat, s: nat)
  {
    && q == (if g1 then e + 1 else e)
    && r == (if mer then q + 2 else q)
    && s == r + 1 && s <= |line|
    && (g1 ==> IsSpace(line[e]))
    && (mer ==> IsMeridiem(line[q], line[q + 1]))
    && line[r] == ']'
    && (s < |line| ==> !IsDash(line[s]))
    && (s + 1 < |line| && IsSpace(line[s]) ==> !IsDash(line[s + 1]))
  }

  /** The `]` with no dash after it: the tail is missing. */
  lemma BracketTailNone(line: string, e: nat, g1: bool, q: nat, mer: bool, r: nat, s: nat)
    requires BracketTailLaid(line, e, g1, q, mer, r, s)
    ensures e < |line| && line[e] !in TimeSeps
    ensures TailEnd(line, e).None?
  {
    assert GapEnd(line, e) == q;
    assert MeridiemAt(line, q) == mer;
    assert CloseEnd(line, r) == s;
  }

  /** Parts found up to the time, then no tail: the line is not a start line. */
  lemma LocateNoTail(line: string, p: nat, d: nat, t: nat, e: nat)
    requires p == AfterOpen(line)
    requires DateEnd(line, p) == Some(d)
    requires TimeStart(line, d) == Some(t)
    requires TimeEnd(line, t) == Some(e)
    requires TailEnd(line, e).None?
    ensures !IsStart(line)
  {
  }

  /** The bracketed layout `[date,? time[ meridiem]] rest`, where `rest`
      does not start with a dash, after an optional whitespace character, is
      not a start line: the line is a continuation of the entry before it,
      or dropped when no entry is open. */
  lemma BracketLayoutIsNotStart(line: string, a: nat, b: nat, c: nat, d: nat, comma: bool, t: nat,
                                h: nat, sec: bool, e: nat, g1: bool, q: nat, mer: bool, r: nat, s: nat)
    requires |line| > 0 && line[0] == '['
    requires DateLaid(line, 1, a, b, c, d, comma, t)
    requires TimeLaid(line, t, h, sec, e)
    requires BracketTailLaid(line, e, g1, q, mer, r, s)
    ensures !IsStart(line)
  {
    DateLaidEnds(line, 1, a, b, c, d, comma, t);
    BracketTailNone(line, e, g1, q, mer, r, s);
    TimeLaidEnds(line, t, h, sec, e);
    LocateNoTail(line, 1, d, t, e);
  }

  /** A start line opens with a digit, or with `[` and a digit: any other
      line is a continuation line. */
  lemma StartOpensWithDigit(line: string)
    requires IsStart(line)
    ensures |line| > 0 && (IsDigit(line[0]) || (line[0] == '[' && |line| > 1 && IsDigit(line[1])))
  {
    var i := AfterOpen(line);
    assert DateEnd(line, i).Some?;
    assert DigitRun(line, i) >= 1;
  }
}
