/** Values shared by both recognizer loops: optional values, the per-frame
    prediction triple, and the list operations the loops use on their FIFOs. */
module Common {

  datatype Option<T> = None | Some(value: T)

  /** What `update_prediction` and the frame loop report for one frame:
      the committed word ("" when nothing is committed this frame), the live
      label shown on screen, and the live confidence. */
  datatype Prediction = Prediction(committed: string, live: string, conf: real)

  /** Python's `xs[-n:]` for `n > 0`: the last `n` elements of `xs`, or all
      of them when there are fewer. */
  function KeepLast<T>(xs: seq<T>, n: nat): (r: seq<T>)
    ensures |r| == if |xs| <= n then |xs| else n
  {
    if |xs| <= n then xs else xs[|xs| - n..]
  }

  /** The kept elements are the trailing ones, in order. */
  lemma KeepLastIsSuffix<T>(xs: seq<T>, n: nat)
    ensures forall k :: 0 <= k < |KeepLast(xs, n)| ==>
      KeepLast(xs, n)[k] == xs[|xs| - |KeepLast(xs, n)| + k]
  {
  }

  /** Python's `sum(flags)` over a list of booleans: the number of True entries. */
  function CountTrue(flags: seq<bool>): (n: nat)
    ensures n <= |flags|
    ensures n == |flags| <==> forall k :: 0 <= k < |flags| ==> flags[k]
    ensures n == 0 <==> forall k :: 0 <= k < |flags| ==> !flags[k]
  {
    if flags == [] then 0
    else CountTrue(flags[..|flags| - 1]) + (if flags[|flags| - 1] then 1 else 0)
  }

  /** The presence test of the frame loop: the share of True entries in the
      presence history is at least `thresh`. */
  predicate HandsEnough(history: seq<bool>, thresh: real)
    requires |history| > 0
  {
    (CountTrue(history) as real) / (|history| as real) >= thresh
  }

  /** The presence test without the division: at least `thresh` times the
      number of frames in the history showed hands. */
  lemma HandsEnoughCount(history: seq<bool>, thresh: real)
    requires |history| > 0
    ensures HandsEnough(history, thresh) <==> (CountTrue(history) as real) >= thresh * (|history| as real)
  {
    RatioAtLeast(CountTrue(history) as real, |history| as real, thresh);
  }

  lemma RatioAtLeast(a: real, b: real, t: real)
    requires b > 0.0
    ensures a / b >= t <==> a >= t * b
  {
    var q := a / b;
    assert q * b == a;
    if q >= t {
      assert (q - t) * b >= 0.0;
    } else {
      assert (t - q) * b > 0.0;
    }
  }

  /** `np.zeros((n,))`: the feature vector the loop substitutes for a keypoint
      vector of the wrong length. */
  function Zeros(n: nat): (z: seq<real>)
    ensures |z| == n && forall k :: 0 <= k < n ==> z[k] == 0.0
  {
    seq(n, _ => 0.0)
  }
}
