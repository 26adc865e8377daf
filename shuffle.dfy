/** `shuffleArray` of App.js: a Fisher–Yates shuffle in place. The random index
    drawn at each step is an input: `js[i]` is the index the loop swaps with
    when it is at position `i`. */
module Shuffle {

  /** `js` is a draw for shuffling `n` elements: at position i (from n - 1 down
      to 1) the swap index lies in [0, i]; `js[0]` is never read. */
  predicate ValidSwaps(js: seq<nat>, n: nat)
  {
    |js| == n && forall i :: 0 < i < n ==> js[i] <= i
  }

  function Swap<T>(s: seq<T>, i: nat, j: nat): (r: seq<T>)
    requires i < |s| && j < |s|
    ensures |r| == |s| && r[i] == s[j] && r[j] == s[i]
    ensures forall k :: 0 <= k < |s| && k != i && k != j ==> r[k] == s[k]
  {
    s[i := s[j]][j := s[i]]
  }

  lemma SwapPermutes<T>(s: seq<T>, i: nat, j: nat)
    requires i < |s| && j < |s|
    ensures multiset(Swap(s, i, j)) == multiset(s)
  {
    var t := s[i := s[j]];
    assert multiset(t) == multiset(s) - multiset{s[i]} + multiset{s[j]};
    assert multiset(t[j := s[i]]) == multiset(t) - multiset{t[j]} + multiset{s[i]};
  }

  /** What the loop has produced once it has run from position `i` down to 1, starting from `s`. */
  function ShuffledFrom<T>(s: seq<T>, js: seq<nat>, i: nat): (r: seq<T>)
    requires ValidSwaps(js, |s|) && i < |s|
    ensures |r| == |s|
    ensures forall k :: i < k < |s| ==> r[k] == s[k]
    decreases i
  {
    if i == 0 then s else ShuffledFrom(Swap(s, i, js[i]), js, i - 1)
  }

  /** The result of shuffling `s` with the draw `js`. */
  function Shuffled<T>(s: seq<T>, js: seq<nat>): (r: seq<T>)
    requires ValidSwaps(js, |s|)
    ensures |r| == |s|
    ensures |s| <= 1 ==> r == s
  {
    if |s| == 0 then s else ShuffledFrom(s, js, |s| - 1)
  }

  lemma {:induction false} ShuffledFromPermutes<T>(s: seq<T>, js: seq<nat>, i: nat)
    requires ValidSwaps(js, |s|) && i < |s|
    ensures multiset(ShuffledFrom(s, js, i)) == multiset(s)
    decreases i
  {
    if i > 0 {
      SwapPermutes(s, i, js[i]);
      ShuffledFromPermutes(Swap(s, i, js[i]), js, i - 1);
    }
  }

  /** Shuffling only rearranges: same length, same elements with the same multiplicities. */
  lemma ShuffledPermutes<T>(s: seq<T>, js: seq<nat>)
    requires ValidSwaps(js, |s|)
    ensures |Shuffled(s, js)| == |s|
    ensures multiset(Shuffled(s, js)) == multiset(s)
  {
    if |s| > 0 {
      ShuffledFromPermutes(s, js, |s| - 1);
    }
  }

  /** Shuffling keeps exactly the elements it was given. */
  lemma ShuffledMembers<T>(s: seq<T>, js: seq<nat>, x: T)
    requires ValidSwaps(js, |s|)
    ensures x in Shuffled(s, js) <==> x in s
  {
    ShuffledPermutes(s, js);
    assert x in Shuffled(s, js) <==> x in multiset(Shuffled(s, js));
    assert x in s <==> x in multiset(s);
  }

  /** `shuffleArray`: the loop runs i from the last index down to 1 and swaps a[i] with a[js[i]]. */
  method ShuffleArray<T>(a: array<T>, js: seq<nat>)
    requires ValidSwaps(js, a.Length)
    modifies a
    ensures a[..] == Shuffled(old(a[..]), js)
    ensures multiset(a[..]) == multiset(old(a[..]))
  {
    var i: int := a.Length - 1;
    while i > 0
      invariant -1 <= i < a.Length
      invariant i == -1 ==> a.Length == 0
      invariant 0 <= i ==> ShuffledFrom(a[..], js, i) == Shuffled(old(a[..]), js)
    {
      var j := js[i];
      ghost var before := a[..];
      a[i], a[j] := a[j], a[i];
      assert a[..] == Swap(before, i, j);
      i := i - 1;
    }
    ShuffledPermutes(old(a[..]), js);
  }
}
