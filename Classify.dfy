/**
 * Deciding whether the body of an entry is a system notice or a message
 * (src/utils/parseChat.js): the `Sender: text` split (`SENDER_MSG_REGEX`),
 * the table of system-notice signatures (`SYSTEM_PATTERNS`) and the test
 * that combines them (`isSystemMessage`).
 *
 * The signatures are case-insensitive patterns over plain words. They are a
 * table of `Pattern` values, each matched the way `RegExp.prototype.test`
 * does it: at the first position of the body where it fits. Case folding is
 * the ASCII one, which is exact here: every letter of every signature is
 * ASCII, and the folding of a `/i` pattern without the `u` flag never maps a
 * non-ASCII character onto an ASCII one.
 */
module Classify {
  import opened Wrappers
  import opened JsText

  // ---------------------------------------------------------------- sender split

  /** The position of the first `:` in `s`, if any. */
  function ColonIndex(s: string): (r: Option<nat>)
    ensures r.Some? ==> r.value < |s| && s[r.value] == ':'
    ensures r.Some? ==> forall j :: 0 <= j < r.value ==> s[j] != ':'
    ensures r.None? ==> forall j :: 0 <= j < |s| ==> s[j] != ':'
    decreases |s|
  {
    if s == [] then None
    else if s[0] == ':' then Some(0)
    else
      match ColonIndex(s[1..])
      case None => None
      case Some(k) => Some(k + 1)
  }

  /** `s` reads `sender: text` with the first `:` at `k`: a non-empty sender
      without a colon, the colon, and one whitespace character. */
  predicate SenderShapeAt(s: string, k: nat)
  {
    && 0 < k && k + 1 < |s| && s[k] == ':' && IsSpace(s[k + 1])
    && forall j :: 0 <= j < k ==> s[j] != ':'
  }

  /** `body.match(SENDER_MSG_REGEX)`: the sender and the text, or `None`.
      The sender part `[^:]+?` cannot pass a colon, so the only place the
      match can take the `:` is the first colon of the body. */
  function SenderSplit(body: string): (r: Option<(string, string)>)
    ensures r.Some? <==> exists k :: SenderShapeAt(body, k)
    ensures r.Some? ==> var (sender, text) := r.value;
      && SenderShapeAt(body, |sender|)
      && sender == body[..|sender|]
      && text == body[|sender| + 2..]
  {
    match ColonIndex(body)
    case None => None
    case Some(c) =>
      if c >= 1 && c + 1 < |body| && IsSpace(body[c + 1]) then
        assert SenderShapeAt(body, c);
        Some((body[..c], body[c + 2..]))
      else
        None
  }

  // ---------------------------------------------------------------- signatures

  /** The shapes of the signatures: a phrase anywhere; a phrase followed by a
      whitespace character (`added\s`); a phrase at the very end (`left$`);
      a phrase followed later on the same line by another
      (`your security code.*changed`). */
  datatype Pattern =
    | Phrase(w: string)
    | PhraseThenSpace(w: string)
    | PhraseAtEnd(w: string)
    | PhraseThenLater(first: string, second: string)

  /** `SYSTEM_PATTERNS`, in the order of the source. */
  const SystemPatterns: seq<Pattern> := [
    Phrase("messages and calls are end-to-end encrypted"),
    Phrase("changed the subject"),
    Phrase("changed this group"),
    Phrase("changed the group"),
    Phrase("created group"),
    PhraseThenSpace("added"),
    PhraseThenSpace("removed"),
    PhraseAtEnd("left"),
    Phrase("joined using"),
    Phrase("changed their phone number"),
    PhraseThenLater("your security code", "changed"),
    Phrase("disappeared"),
    Phrase("message timer"),
    Phrase("<media omitted>"),
    Phrase("you were added"),
    Phrase("waiting for this message")
  ]

  /** Two characters are equal up to ASCII case. */
  predicate FoldEq(c: char, d: char)
  {
    AsciiUpper(c) == AsciiUpper(d)
  }

  /** The phrase `w` occurs in `s` at `i`, up to ASCII case. */
  predicate OccursAt(s: string, i: nat, w: string)
  {
    i + |w| <= |s| && forall k :: 0 <= k < |w| ==> FoldEq(s[i + k], w[k])
  }

  /** `w` occurs at `j` or later, with no line terminator between `j` and
      where it starts: what `.*w` matches from `j`. */
  predicate OccursOnLineFrom(s: string, j: nat, w: string)
    decreases |s| - j
  {
    OccursAt(s, j, w) || (j < |s| && !IsLineTerminator(s[j]) && OccursOnLineFrom(s, j + 1, w))
  }

  /** Whether the pattern matches `s` starting at `i`. */
  predicate MatchesAt(p: Pattern, s: string, i: nat)
  {
    match p
    case Phrase(w) => OccursAt(s, i, w)
    case PhraseThenSpace(w) => OccursAt(s, i, w) && i + |w| < |s| && IsSpace(s[i + |w|])
    case PhraseAtEnd(w) => OccursAt(s, i, w) && i + |w| == |s|
    case PhraseThenLater(a, b) => OccursAt(s, i, a) && OccursOnLineFrom(s, i + |a|, b)
  }

  /** `pattern.test(s)` from position `i` on: tries each start in turn. */
  predicate SearchFrom(p: Pattern, s: string, i: nat): (r: bool)
    requires i <= |s|
    ensures r <==> exists j :: i <= j <= |s| && MatchesAt(p, s, j)
    decreases |s| - i
  {
    MatchesAt(p, s, i) || (i < |s| && SearchFrom(p, s, i + 1))
  }

  /** `pattern.test(s)`. */
  predicate Test(p: Pattern, s: string)
  {
    SearchFrom(p, s, 0)
  }

  /** `SYSTEM_PATTERNS.some((pattern) => pattern.test(body))` over a table. */
  predicate AnyMatches(patterns: seq<Pattern>, body: string): (r: bool)
    ensures r <==> exists k :: 0 <= k < |patterns| && Test(patterns[k], body)
    decreases |patterns|
  {
    if patterns == [] then false
    else Test(patterns[0], body) || AnyMatches(patterns[1..], body)
  }

  /** `isSystemMessage(body)`: the body has no `sender: text` shape, or a
      system-notice signature matches it. The signatures are tested against
      the whole body, sender included. */
  predicate IsSystemMessage(body: string)
  {
    SenderSplit(body).None? || AnyMatches(SystemPatterns, body)
  }

  // ---------------------------------------------------------------- properties

  /** A body without the `sender: text` shape is a system notice, and a body
      with it is one exactly when a signature matches. */
  lemma SystemIff(body: string)
    ensures IsSystemMessage(body)
        <==> (forall k :: !SenderShapeAt(body, k))
             || exists n :: 0 <= n < |SystemPatterns| && exists j :: 0 <= j <= |body| && MatchesAt(SystemPatterns[n], body, j)
  {
  }

  /** A phrase that occurs in `s` from `i` on is found by the search. */
  lemma {:induction false} PhraseFound(s: string, i: nat, w: string)
    requires OccursAt(s, i, w)
    ensures Test(Phrase(w), s)
  {
    assert MatchesAt(Phrase(w), s, i);
  }

  /** `w` occurs in `u + w + v` right after `u`, whatever the case of `u` and
      `v`. */
  lemma PhraseInside(u: string, w: string, v: string)
    ensures OccursAt(u + w + v, |u|, w)
  {
    var s := u + w + v;
    forall k | 0 <= k < |w| ensures FoldEq(s[|u| + k], w[k]) {
      assert s[|u| + k] == w[k];
    }
  }

  /** A message whose text contains the phrase "added " is classified as a
      system notice, sender or not: `John: I added salt` is a system
      notice. */
  lemma AddedIsSystem(u: string, v: string)
    requires v != [] && IsSpace(v[0])
    ensures IsSystemMessage(u + "added" + v)
  {
    var s := u + "added" + v;
    PhraseInside(u, "added", v);
    assert s[|u| + 5] == v[0];
    assert MatchesAt(PhraseThenSpace("added"), s, |u|);
    assert Test(SystemPatterns[5], s);
  }

  /** A body ending in "left" (any case) is a system notice: `Sam: I just
      left` is classified as one. */
  lemma LeftAtEndIsSystem(u: string)
    ensures IsSystemMessage(u + "left")
  {
    var s := u + "left";
    PhraseInside(u, "left", []);
    assert u + "left" + [] == s;
    assert MatchesAt(PhraseAtEnd("left"), s, |u|);
    assert Test(SystemPatterns[7], s);
  }

  /** A body without a colon, or whose first colon is not followed by a
      whitespace character, is a system notice. */
  lemma NoColonSpaceIsSystem(body: string)
    requires forall k :: 0 <= k < |body| - 1 && body[k] == ':' ==> !IsSpace(body[k + 1])
    ensures IsSystemMessage(body)
  {
  }
}
