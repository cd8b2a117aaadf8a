/** Which blocks a synopsis takes off a list, in closed form. */
module SyncSynopsis {
  import opened Bits
  import opened BlockIds
  import opened SyncPeers

  /** The height at which the distance to the end of the list has been halved `k` times. */
  ghost function HalfwayHeight(low: int, high: int, k: nat): int
    requires low <= high
  {
    high + 1 - (high - low + 1) / Pow2(k)
  }

  lemma NotHalved(low: int, high: int)
    requires low <= high
    ensures HalfwayHeight(low, high, 0) == low
  {
  }

  lemma HalvedOnce(low: int, high: int, k: nat)
    requires low <= high && k > 0
    ensures var next := NextHeight(low, high);
            HalfwayHeight(low, high, k) == if next <= high then HalfwayHeight(next, high, k - 1) else high + 1
  {
    var d := high - low + 1;
    DivideTwice(d, 2, Pow2(k - 1));
    if d / 2 == 0 {
      assert 0 / Pow2(k - 1) == 0;
    }
  }

  /** The sample takes the block at each such height that is on the list. */
  lemma {:induction false} HalfwayIsSampled(ids: seq<BlockId>, first: nat, low: int, high: int, k: nat)
    requires low <= high < first + |ids| && first <= HalfwayHeight(low, high, k) <= high
    ensures ids[HalfwayHeight(low, high, k) - first] in Sampled(ids, first, low, high)
    decreases k
  {
    hide NextHeight, HalfwayHeight, Sampled;
    SampledStep(ids, first, low, high);
    if k == 0 {
      NotHalved(low, high);
    } else {
      HalvedOnce(low, high, k);
      HalfwayIsSampled(ids, first, NextHeight(low, high), high, k - 1);
    }
  }

  /** And it takes no others. */
  lemma {:induction false} SampledIsHalfway(ids: seq<BlockId>, first: nat, low: int, high: int, i: nat) returns (k: nat)
    requires low <= high < first + |ids| && i < |Sampled(ids, first, low, high)|
    ensures first <= HalfwayHeight(low, high, k) <= high
    ensures Sampled(ids, first, low, high)[i] == ids[HalfwayHeight(low, high, k) - first]
    decreases high - low
  {
    hide NextHeight, HalfwayHeight, Sampled;
    SampledStep(ids, first, low, high);
    if low >= first && i == 0 {
      k := 0;
      NotHalved(low, high);
    } else {
      var next, rest := NextHeight(low, high), if low >= first then i - 1 else i;
      if next > high {
        NothingSampled(ids, first, next, high);
      }
      k := SampledIsHalfway(ids, first, next, high, rest);
      HalvedOnce(low, high, k + 1);
      k := k + 1;
    }
  }
}
