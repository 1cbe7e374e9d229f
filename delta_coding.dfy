/** The d-gap (delta) view of a postings list and its inverse, the running sum.
    These functions are the specification that the loops in QmxGlue are proved against. */
module DeltaCoding {
  import opened Words

  /** Every document id is at least its predecessor: the condition under which the
      checked `u32` subtraction of the encoder never underflows. */
  predicate NonDecreasing(docs: seq<u32>) {
    forall i, j :: 0 <= i < j < |docs| ==> docs[i] <= docs[j]
  }

  /** A postings list proper: strictly ascending document ids. */
  predicate StrictlyIncreasing(docs: seq<u32>) {
    forall i, j :: 0 <= i < j < |docs| ==> docs[i] < docs[j]
  }

  /** The value the encoder's `prev` holds when it reaches position `i`. */
  function Prev(docs: seq<u32>, i: nat): u32
    requires i < |docs|
  {
    if i == 0 then 0 else docs[i - 1]
  }

  /** The d-gaps of a nondecreasing list: each id minus the one before it, the first minus 0. */
  function DGaps(docs: seq<u32>): (gaps: seq<u32>)
    requires NonDecreasing(docs)
    ensures |gaps| == |docs|
    ensures |docs| > 0 ==> gaps[0] == docs[0]
  {
    seq(|docs|, i requires 0 <= i < |docs| => docs[i] - Prev(docs, i))
  }

  /** The d-gaps as a release build computes them: wrapping subtraction, for any input. */
  function WrappingDGaps(docs: seq<u32>): (gaps: seq<u32>)
    ensures |gaps| == |docs|
    ensures |docs| > 0 ==> gaps[0] == docs[0]
  {
    seq(|docs|, i requires 0 <= i < |docs| => WrappingSub(docs[i], Prev(docs, i)))
  }

  /** The running sum `v[i] += v[i-1]` with 32-bit lanes, defined element by element
      from the left. */
  function RunningSum(v: seq<u32>): (sums: seq<u32>)
    ensures |sums| == |v|
    ensures |v| > 0 ==> sums[0] == v[0]
    decreases |v|
  {
    if |v| == 0 then []
    else if |v| == 1 then [v[0]]
    else
      var front := RunningSum(v[..|v| - 1]);
      front + [WrappingAdd(v[|v| - 1], front[|v| - 2])]
  }

  /** The exact (unbounded) sum of a sequence of gaps. */
  function Total(v: seq<u32>): int
    decreases |v|
  {
    if |v| == 0 then 0 else Total(v[..|v| - 1]) + v[|v| - 1] as int
  }

  /** The first position at which a list that is not nondecreasing goes down, searching
      from `k` on where everything before `k` is in order. */
  function FirstDescentFrom(docs: seq<u32>, k: nat): (d: nat)
    requires 1 <= k < |docs|
    requires NonDecreasing(docs[..k])
    requires !NonDecreasing(docs)
    ensures k <= d < |docs|
    ensures docs[d] < docs[d - 1] && NonDecreasing(docs[..d])
    decreases |docs| - k
  {
    if docs[k] < docs[k - 1] then k
    else
      NonDecreasingExtend(docs, k);
      assert docs[..|docs|] == docs;
      FirstDescentFrom(docs, k + 1)
  }

  /** An ordered prefix stays ordered when the next element is not below its last. */
  lemma NonDecreasingExtend(docs: seq<u32>, k: nat)
    requires k < |docs|
    requires NonDecreasing(docs[..k]) && (0 < k ==> docs[k - 1] <= docs[k])
    ensures NonDecreasing(docs[..k + 1])
  {
    var shorter, longer := docs[..k], docs[..k + 1];
    forall i, j | 0 <= i < j < |longer| ensures longer[i] <= longer[j] {
      if j < k {
        assert shorter[i] <= shorter[j];
      } else if i < k - 1 {
        assert shorter[i] <= shorter[k - 1];
      }
    }
  }

  /** The index at which the encoder's checked subtraction `docs[curr] - prev` panics. */
  function FirstDescent(docs: seq<u32>): (d: nat)
    requires !NonDecreasing(docs)
    ensures 0 < d < |docs|
    ensures docs[d] < docs[d - 1] && NonDecreasing(docs[..d])
  {
    assert docs[..1] == [docs[0]];
    FirstDescentFrom(docs, 1)
  }

  /** A descent with everything in order before it is the first descent. */
  lemma FirstDescentUnique(docs: seq<u32>, k: nat)
    requires 0 < k < |docs|
    requires NonDecreasing(docs[..k]) && docs[k] < docs[k - 1]
    ensures !NonDecreasing(docs) && FirstDescent(docs) == k
  {
  }

  /** A sequence holding `docs[i] - prev` at every position is the d-gaps. */
  lemma DGapsPointwise(docs: seq<u32>, gaps: seq<u32>)
    requires NonDecreasing(docs) && |gaps| == |docs|
    requires forall i :: 0 <= i < |docs| ==>
      gaps[i] as int == docs[i] as int - (if i == 0 then 0 else docs[i - 1] as int)
    ensures gaps == DGaps(docs)
  {
    forall i | 0 <= i < |docs| ensures gaps[i] == DGaps(docs)[i] {
    }
  }

  /** Taking the d-gaps commutes with taking a prefix. */
  lemma DGapsPrefix(docs: seq<u32>, n: nat)
    requires NonDecreasing(docs) && n <= |docs|
    ensures NonDecreasing(docs[..n])
    ensures DGaps(docs[..n]) == DGaps(docs)[..n]
  {
    var prefix := docs[..n];
    forall i, j | 0 <= i < j < |prefix| ensures prefix[i] <= prefix[j] {
      assert docs[i] <= docs[j];
    }
  }

  /** Decoding inverts encoding: the running sum of the d-gaps rebuilds the list. */
  lemma {:induction false} DGapsRoundTrip(docs: seq<u32>)
    requires NonDecreasing(docs)
    ensures RunningSum(DGaps(docs)) == docs
  {
    var n := |docs|;
    if n > 1 {
      var gaps := DGaps(docs);
      var init := docs[..n - 1];
      DGapsPrefix(docs, n - 1);
      DGapsRoundTrip(init);
      assert gaps[..n - 1] == DGaps(init);
      assert docs[n - 2] <= docs[n - 1];
      assert gaps[n - 1] as int == docs[n - 1] as int - docs[n - 2] as int;
      assert RunningSum(gaps) == init + [WrappingAdd(gaps[n - 1], init[n - 2])];
      assert docs == init + [docs[n - 1]];
    }
  }

  /** No intermediate sum of the reconstruction leaves the 32-bit range: the exact sum of
      the first `i + 1` gaps is `docs[i]`. */
  lemma {:induction false} DGapsPartialSums(docs: seq<u32>)
    requires NonDecreasing(docs)
    ensures forall i :: 0 <= i < |docs| ==> Total(DGaps(docs)[..i + 1]) == docs[i] as int
  {
    forall i | 0 <= i < |docs| ensures Total(DGaps(docs)[..i + 1]) == docs[i] as int {
      DGapsPrefix(docs, i + 1);
      DGapsTotal(docs[..i + 1]);
    }
  }

  /** The gaps of a nondecreasing list telescope to its last element. */
  lemma {:induction false} DGapsTotal(docs: seq<u32>)
    requires NonDecreasing(docs)
    ensures Total(DGaps(docs)) == if |docs| == 0 then 0 else docs[|docs| - 1] as int
  {
    var n := |docs|;
    if n > 1 {
      DGapsPrefix(docs, n - 1);
      DGapsTotal(docs[..n - 1]);
      assert DGaps(docs)[..n - 1] == DGaps(docs[..n - 1]);
    } else if n == 1 {
      assert DGaps(docs)[..0] == [];
    }
  }

  /** While the exact sum stays within 32 bits, each running sum is the exact prefix sum. */
  lemma {:induction false} RunningSumExact(v: seq<u32>)
    requires Total(v) < U32_LIMIT
    ensures forall i :: 0 <= i < |v| ==> RunningSum(v)[i] as int == Total(v[..i + 1])
  {
    var n := |v|;
    if n == 1 {
      assert v[..1] == v;
      assert v[..0] == [];
    } else if n > 1 {
      var front := v[..n - 1];
      TotalMonotone(v);
      RunningSumExact(front);
      assert v[..n] == v;
      forall i | 0 <= i < n ensures RunningSum(v)[i] as int == Total(v[..i + 1]) {
        if i < n - 1 {
          assert v[..i + 1] == front[..i + 1];
        } else {
          assert front[..n - 1] == front;
          TotalNonNegative(front);
        }
      }
    }
  }

  /** Exact sums of gaps are never negative. */
  lemma {:induction false} TotalNonNegative(v: seq<u32>)
    ensures Total(v) >= 0
    decreases |v|
  {
    if |v| > 0 {
      TotalNonNegative(v[..|v| - 1]);
    }
  }

  /** Dropping the last gap cannot increase the exact sum. */
  lemma TotalMonotone(v: seq<u32>)
    requires |v| > 0
    ensures Total(v[..|v| - 1]) <= Total(v)
  {
  }



  /** Encoding inverts decoding: the running sum of gaps whose exact sum fits in 32 bits
      is a nondecreasing list whose d-gaps are those gaps again. */
  lemma {:induction false} RunningSumRoundTrip(v: seq<u32>)
    requires Total(v) < U32_LIMIT
    ensures NonDecreasing(RunningSum(v))
    ensures DGaps(RunningSum(v)) == v
  {
    var sums := RunningSum(v);
    RunningSumOrdered(v);
    forall i | 0 <= i < |v| ensures DGaps(sums)[i] == v[i] {
      if i > 0 {
        RunningSumStep(v, i);
      }
    }
  }

  /** Without wrap-around, each running sum exceeds the one before it by exactly one gap. */
  lemma RunningSumStep(v: seq<u32>, i: nat)
    requires Total(v) < U32_LIMIT && 0 < i < |v|
    ensures RunningSum(v)[i] as int == RunningSum(v)[i - 1] as int + v[i] as int
  {
    RunningSumExact(v);
    assert v[..i + 1][..i] == v[..i];
  }

  /** Without wrap-around, the running sums never go down. */
  lemma RunningSumOrdered(v: seq<u32>)
    requires Total(v) < U32_LIMIT
    ensures NonDecreasing(RunningSum(v))
  {
    var sums := RunningSum(v);
    forall i, j | 0 <= i < j < |v| ensures sums[i] <= sums[j] {
      RunningSumChain(v, i, j);
    }
  }

  /** Without wrap-around, a later running sum is at least an earlier one. */
  lemma {:induction false} RunningSumChain(v: seq<u32>, i: nat, j: nat)
    requires Total(v) < U32_LIMIT && i <= j < |v|
    ensures RunningSum(v)[i] <= RunningSum(v)[j]
    decreases j - i
  {
    if i < j {
      RunningSumStep(v, j);
      RunningSumChain(v, i, j - 1);
    }
  }

  /** A nondecreasing list is a strict postings list exactly when every gap after the
      first is positive. */
  lemma StrictGapsPositive(docs: seq<u32>)
    requires NonDecreasing(docs)
    ensures StrictlyIncreasing(docs) <==> forall i :: 0 < i < |docs| ==> DGaps(docs)[i] > 0
  {
    var gaps := DGaps(docs);
    forall i | 0 < i < |docs| ensures gaps[i] as int == docs[i] as int - docs[i - 1] as int {
    }
    if forall i :: 0 < i < |docs| ==> gaps[i] > 0 {
      forall i, j | 0 <= i < j < |docs| ensures docs[i] < docs[j] {
        StepUp(docs, gaps, i, j);
      }
    }
  }

  /** Positive gaps from `i + 1` to `j` lift `docs[j]` strictly above `docs[i]`. */
  lemma {:induction false} StepUp(docs: seq<u32>, gaps: seq<u32>, i: nat, j: nat)
    requires NonDecreasing(docs) && gaps == DGaps(docs)
    requires i < j < |docs|
    requires forall k :: 0 < k < |docs| ==> gaps[k] > 0
    ensures docs[i] < docs[j]
    decreases j - i
  {
    assert gaps[j] as int == docs[j] as int - docs[j - 1] as int;
    if i < j - 1 {
      StepUp(docs, gaps, i, j - 1);
    }
  }

  /** In a release build the wrapping gaps round-trip for every input, in order or not. */
  lemma {:induction false} WrappingDGapsRoundTrip(docs: seq<u32>)
    ensures RunningSum(WrappingDGaps(docs)) == docs
  {
    var n := |docs|;
    if n > 1 {
      var gaps := WrappingDGaps(docs);
      assert gaps[..n - 1] == WrappingDGaps(docs[..n - 1]);
      WrappingDGapsRoundTrip(docs[..n - 1]);
      assert WrappingAdd(gaps[n - 1], docs[n - 2]) == docs[n - 1];
      assert docs == docs[..n - 1] + [docs[n - 1]];
    }
  }

  /** On input the debug build accepts, the release build computes the same gaps. */
  lemma WrappingDGapsAgree(docs: seq<u32>)
    requires NonDecreasing(docs)
    ensures WrappingDGaps(docs) == DGaps(docs)
  {
  }
}
