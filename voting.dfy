/** The two library choices the stabilizers rest on: `np.argmax` over a
    probability vector and `Counter(...).most_common(1)` over the prediction
    history, with their tie-breaks made explicit. The functions carry only
    their range; what they compute is stated by the lemmas below them. */
module Voting {

  /** `np.argmax(probs)`. */
  function ArgMax(probs: seq<real>): (i: nat)
    requires |probs| > 0
    ensures i < |probs|
  {
    FirstMaxBefore(probs, |probs|)
  }

  /** The left-to-right scan of `np.argmax` over `probs[..n]`: the candidate is
      replaced only by a strictly larger value. */
  function FirstMaxBefore(probs: seq<real>, n: nat): (i: nat)
    requires 0 < n <= |probs|
    ensures i < n
  {
    if n == 1 then 0
    else
      var best := FirstMaxBefore(probs, n - 1);
      if probs[n - 1] > probs[best] then n - 1 else best
  }

  lemma {:induction false} FirstMaxBeforeIsFirstMax(probs: seq<real>, n: nat)
    requires 0 < n <= |probs|
    ensures var i := FirstMaxBefore(probs, n);
      && (forall j :: 0 <= j < n ==> probs[j] <= probs[i])
      && (forall j :: 0 <= j < i ==> probs[j] < probs[i])
  {
    if n > 1 {
      FirstMaxBeforeIsFirstMax(probs, n - 1);
    }
  }

  /** `np.argmax` picks a largest probability, and the lowest index among
      equal largest ones. */
  lemma ArgMaxIsFirstMax(probs: seq<real>)
    requires |probs| > 0
    ensures var i := ArgMax(probs);
      && (forall j :: 0 <= j < |probs| ==> probs[j] <= probs[i])
      && (forall j :: 0 <= j < i ==> probs[j] < probs[i])
  {
    FirstMaxBeforeIsFirstMax(probs, |probs|);
  }

  /** The confidence of a probability vector: its largest entry, `probs[np.argmax(probs)]`. */
  function Confidence(probs: seq<real>): (c: real)
    requires |probs| > 0
    ensures c in probs
    ensures forall j :: 0 <= j < |probs| ==> probs[j] <= c
  {
    ArgMaxIsFirstMax(probs);
    probs[ArgMax(probs)]
  }

  /** How often `x` occurs in `h`. */
  function Count(h: seq<nat>, x: nat): nat
  {
    multiset(h)[x]
  }

  /** `Counter(h).most_common(1)[0][0]`. */
  function MostCommon(h: seq<nat>): (m: nat)
    requires |h| > 0
    ensures m in h
  {
    h[MostCommonAt(h, |h|)]
  }

  /** The scan over the first `n` positions of `h`: the position of the entry
      of largest count, replaced only by a later entry of strictly larger
      count. */
  function MostCommonAt(h: seq<nat>, n: nat): (b: nat)
    requires 0 < n <= |h|
    ensures b < n
  {
    if n == 1 then 0
    else
      var best := MostCommonAt(h, n - 1);
      if Count(h, h[n - 1]) > Count(h, h[best]) then n - 1 else best
  }

  lemma {:induction false} MostCommonAtIsFirstOfLargest(h: seq<nat>, n: nat)
    requires 0 < n <= |h|
    ensures var b := MostCommonAt(h, n);
      && (forall j :: 0 <= j < n ==> Count(h, h[j]) <= Count(h, h[b]))
      && (forall j :: 0 <= j < n && Count(h, h[j]) == Count(h, h[b]) ==> b <= j)
  {
    if n > 1 {
      MostCommonAtIsFirstOfLargest(h, n - 1);
    }
  }

  /** A Counter keeps its keys in first-occurrence order and `most_common(1)`
      returns the first key of largest count: the majority occurs at least as
      often as every entry, and its first occurrence comes no later than that
      of any entry occurring equally often. */
  lemma MostCommonIsMajority(h: seq<nat>)
    requires |h| > 0
    ensures var m := MostCommon(h);
      && (forall j :: 0 <= j < |h| ==> Count(h, h[j]) <= Count(h, m))
      && (forall j :: 0 <= j < |h| && Count(h, h[j]) == Count(h, m) ==> m in h[..j + 1])
  {
    var b := MostCommonAt(h, |h|);
    MostCommonAtIsFirstOfLargest(h, |h|);
    forall j | 0 <= j < |h| && Count(h, h[j]) == Count(h, h[b])
      ensures h[b] in h[..j + 1]
    {
      assert h[..j + 1][b] == h[b];
    }
  }
}
