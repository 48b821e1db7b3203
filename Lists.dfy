/**
 * Sequence helpers shared by the parser and the chat screen: ordered
 * de-duplication (what a `Set` plus `push`, or the insertion order of an
 * object's keys, produce), occurrence counts and the count dictionary.
 */
module Lists {

  predicate Distinct(xs: seq<string>)
  {
    forall i, j :: 0 <= i < j < |xs| ==> xs[i] != xs[j]
  }

  /** The tail of a list without repetitions has none, and lacks the head. */
  lemma DistinctTail(xs: seq<string>)
    requires xs != [] && Distinct(xs)
    ensures Distinct(xs[1..]) && xs[0] !in xs[1..]
  {
    forall i, j | 0 <= i < j < |xs[1..]| ensures xs[1..][i] != xs[1..][j] {
      assert xs[1..][i] == xs[i + 1] && xs[1..][j] == xs[j + 1];
    }
    forall j | 0 <= j < |xs[1..]| ensures xs[1..][j] != xs[0] {
      assert xs[1..][j] == xs[j + 1];
    }
  }

  /** The distinct elements of `xs`, each at the place of its first appearance. */
  function Dedup(xs: seq<string>): (r: seq<string>)
    ensures forall x :: x in r <==> x in xs
    ensures Distinct(r)
    ensures |r| <= |xs|
    decreases |xs|
  {
    if xs == [] then []
    else
      var r := Dedup(xs[..|xs| - 1]);
      var x := xs[|xs| - 1];
      assert xs == xs[..|xs| - 1] + [x];
      if x in r then r else r + [x]
  }

  /** First-appearance order: de-duplicating a prefix of `xs` gives a prefix of
      the de-duplication of `xs`, so an element that appears first earlier in
      `xs` comes earlier in the result. */
  lemma {:induction false} DedupPrefix(xs: seq<string>, k: nat)
    requires k <= |xs|
    ensures Dedup(xs[..k]) <= Dedup(xs)
    decreases |xs| - k
  {
    if k < |xs| {
      var n := |xs|;
      assert xs[..n] == xs;
      DedupPrefix(xs[..n - 1], k);
      assert xs[..n - 1][..k] == xs[..k];
      assert Dedup(xs[..n - 1]) <= Dedup(xs);
    } else {
      assert xs[..k] == xs;
    }
  }

  /** One more element extends the de-duplication only when it is new. */
  lemma DedupSnoc(xs: seq<string>, x: string)
    ensures Dedup(xs + [x]) == if x in xs then Dedup(xs) else Dedup(xs) + [x]
  {
    assert (xs + [x])[..|xs|] == xs;
  }

  /** How many times `x` occurs in `xs`. */
  function Occurrences(xs: seq<string>, x: string): (n: nat)
    ensures n <= |xs|
    ensures n > 0 <==> x in xs
    decreases |xs|
  {
    if xs == [] then 0
    else
      var init := xs[..|xs| - 1];
      assert xs == init + [xs[|xs| - 1]];
      Occurrences(init, x) + (if xs[|xs| - 1] == x then 1 else 0)
  }

  lemma OccurrencesSnoc(xs: seq<string>, y: string, x: string)
    ensures Occurrences(xs + [y], x) == Occurrences(xs, x) + (if y == x then 1 else 0)
  {
    assert (xs + [y])[..|xs|] == xs;
  }

  /** The dictionary that counts each element: `counts[x]` is the number of
      occurrences of `x`, and only elements that occur are keys. */
  function Tally(xs: seq<string>): (counts: map<string, nat>)
    ensures forall x :: x in counts <==> x in xs
    ensures forall x :: x in counts ==> counts[x] >= 1
    ensures forall x :: x in counts ==> counts[x] == Occurrences(xs, x)
  {
    map x | x in xs :: Occurrences(xs, x)
  }

  /** Counting one more element increments its entry, creating it at 1. */
  lemma TallySnoc(xs: seq<string>, x: string)
    ensures Tally(xs + [x]) == Tally(xs)[x := (if x in Tally(xs) then Tally(xs)[x] else 0) + 1]
  {
    var a := Tally(xs + [x]);
    var b := Tally(xs)[x := (if x in Tally(xs) then Tally(xs)[x] else 0) + 1];
    forall y | y in a ensures y in b && a[y] == b[y] {
      OccurrencesSnoc(xs, x, y);
    }
    assert a.Keys == b.Keys;
  }
}
