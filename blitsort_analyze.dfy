/*
 * blit_analyze and the BlitSort entry point: a sampling pass over the
 * array that counts descending neighbours from both ends in 32-pair chunks
 * and then either leaves an ordered array alone, reverses a strictly
 * descending one, or picks the adaptive sort to run.
 */
module BlitSortAnalyze {
  import opened SortSpec
  import opened BlitSortTail

  /** What blit_analyze does with one part of a split array. */
  datatype Action = Partition | Quadsort | Leave

  /**
   * blit_analyze's decision. Split holds the size of the front part (the
   * pairs the front counters looked at) and what is done to each part
   * before blit_merge_block joins them.
   */
  datatype Plan =
    | AlreadySorted
    | Reversed
    | Split(block: nat, front: Action, back: Action)
    | QuadsortAll
    | PartitionAll

  /** A 32-pair chunk with no descents or only descents is a streak. */
  function Streak(sum: nat): nat
  {
    if sum == 0 || sum == 32 then 1 else 0
  }

  /** Streaks among the first c chunks counted from the front. */
  function StreaksUp(s: seq<int>, c: nat): nat
    requires 32 * c < |s|
  {
    if c == 0 then 0 else StreaksUp(s, c - 1) + Streak(Descents(s, 32 * (c - 1), 32 * c))
  }

  /** Streaks among the first c chunks counted from the back. */
  function StreaksDown(s: seq<int>, c: nat): nat
    requires 32 * c < |s|
  {
    if c == 0 then 0
    else StreaksDown(s, c - 1) + Streak(Descents(s, |s| - 1 - 32 * c, |s| - 1 - 32 * (c - 1)))
  }

  /** What is done to one part: a partition when it has few streaks, else a merge sort unless it is in order. */
  function PartAction(streaks: nat, balance: nat, nmemb: nat): Action
  {
    if streaks < nmemb / 128 then Partition else if balance != 0 then Quadsort else Leave
  }

  /** The decision from the counts. */
  function Decide(nmemb: nat, block: nat, abalance: nat, zbalance: nat, astreaks: nat, zstreaks: nat): Plan
  {
    if abalance + zbalance == 0 then AlreadySorted
    else if abalance + zbalance == nmemb - 1 then Reversed
    else if astreaks + zstreaks > nmemb / 80 then
      if nmemb >= 1024 then Split(block, PartAction(astreaks, abalance, nmemb), PartAction(zstreaks, zbalance, nmemb))
      else QuadsortAll
    else PartitionAll
  }

  /** The number of 64-element chunk pairs the main counting loop takes. */
  function Chunks(nmemb: nat): nat
  {
    if nmemb == 0 then 0 else (nmemb - 1) / 64
  }

  /**
   * The decision blit_analyze takes on s: the front counters cover the
   * pairs below 32 * Chunks, the back counters all pairs above.
   */
  function AnalyzePlan(s: seq<int>): Plan
    requires 1 <= |s|
  {
    var c := Chunks(|s|);
    Decide(|s|, 32 * c, Descents(s, 0, 32 * c), Descents(s, 32 * c, |s| - 1), StreaksUp(s, c), StreaksDown(s, c))
  }

  /** No descents in a range is the same as the range being in order. */
  lemma {:induction false} NoDescentsIffSorted(s: seq<int>, lo: nat, hi: nat)
    requires lo <= hi < |s|
    ensures Descents(s, lo, hi) == 0 <==> Sorted(s[lo..hi + 1])
    decreases hi - lo
  {
    if Descents(s, lo, hi) == 0 {
      NoDescents(s, lo, hi);
      AdjacentRange(s, lo, hi + 1);
    }
    if Sorted(s[lo..hi + 1]) && lo < hi {
      SortedSlice(s[lo..hi + 1], 0, hi - lo);
      assert s[lo..hi + 1][..hi - lo] == s[lo..hi];
      NoDescentsIffSorted(s, lo, hi - 1);
      assert s[hi - 1] == s[lo..hi + 1][hi - 1 - lo] && s[hi] == s[lo..hi + 1][hi - lo];
    }
  }

  /** The plan leaves the array alone exactly when it is in order. */
  lemma PlanSortedIff(s: seq<int>)
    requires 1 <= |s|
    ensures AnalyzePlan(s) == AlreadySorted <==> Sorted(s)
  {
    var c := Chunks(|s|);
    DescentsSplit(s, 0, 32 * c, |s| - 1);
    NoDescentsIffSorted(s, 0, |s| - 1);
    assert s[0..|s|] == s;
  }

  /** The plan reverses the array exactly when every neighbour descends. */
  lemma PlanReversedIff(s: seq<int>)
    requires 1 <= |s|
    ensures AnalyzePlan(s) == Reversed <==> 2 <= |s| && forall i :: 0 <= i < |s| - 1 ==> s[i] > s[i + 1]
  {
    var c := Chunks(|s|);
    DescentsSplit(s, 0, 32 * c, |s| - 1);
    var total := Descents(s, 0, |s| - 1);
    if total == |s| - 1 {
      AllDescents(s, 0, |s| - 1);
    }
    if 2 <= |s| && forall i :: 0 <= i < |s| - 1 ==> s[i] > s[i + 1] {
      AllDescentsCount(s, 0, |s| - 1);
    }
  }

  lemma {:induction false} AllDescentsCount(s: seq<int>, lo: nat, hi: nat)
    requires lo <= hi < |s| && forall i :: lo <= i < hi ==> s[i] > s[i + 1]
    ensures Descents(s, lo, hi) == hi - lo
    decreases hi - lo
  {
    if lo < hi {
      AllDescentsCount(s, lo, hi - 1);
    }
  }

  /**
   * A split is taken only on arrays of 1024 or more elements, at the end of
   * the front counters' chunks; a part is left alone only when it is in
   * order, and merge sorted only when it is not.
   */
  lemma PlanSplit(s: seq<int>)
    requires 1 <= |s| && AnalyzePlan(s).Split?
    ensures var p := AnalyzePlan(s);
      1024 <= |s| && p.block == 32 * ((|s| - 1) / 64) && p.block < |s|
      && (p.front == Leave ==> Sorted(s[..p.block + 1]))
      && (p.front == Quadsort ==> !Sorted(s[..p.block + 1]))
      && (p.back == Leave ==> Sorted(s[p.block..]))
      && (p.back == Quadsort ==> !Sorted(s[p.block..]))
  {
    var c := Chunks(|s|);
    var block := 32 * c;
    var abalance, zbalance := Descents(s, 0, block), Descents(s, block, |s| - 1);
    var p := Decide(|s|, block, abalance, zbalance, StreaksUp(s, c), StreaksDown(s, c));
    assert AnalyzePlan(s) == p;
    DecideSplit(|s|, block, abalance, zbalance, StreaksUp(s, c), StreaksDown(s, c));
    NoDescentsIffSorted(s, 0, block);
    NoDescentsIffSorted(s, block, |s| - 1);
    assert s[0..block + 1] == s[..block + 1];
    assert s[block..|s| - 1 + 1] == s[block..];
  }

  /** A split decision names its parts' actions after their descent counts. */
  lemma DecideSplit(nmemb: nat, block: nat, abalance: nat, zbalance: nat, astreaks: nat, zstreaks: nat)
    requires Decide(nmemb, block, abalance, zbalance, astreaks, zstreaks).Split?
    ensures var p := Decide(nmemb, block, abalance, zbalance, astreaks, zstreaks);
      1024 <= nmemb && p.block == block
      && (p.front == Leave ==> abalance == 0) && (p.front == Quadsort ==> abalance != 0)
      && (p.back == Leave ==> zbalance == 0) && (p.back == Quadsort ==> zbalance != 0)
  {
  }

  /** The whole array goes to the merge sort only when it is shorter than 1024. */
  lemma PlanQuadsortAll(s: seq<int>)
    requires 1 <= |s| && AnalyzePlan(s).QuadsortAll?
    ensures |s| < 1024 && !Sorted(s)
  {
    PlanSortedIff(s);
  }

  /**
   * blit_analyze: counts, runs the reversal when every neighbour
   * descends, and returns the decision it takes; the adaptive sorts the
   * decision names are not part of this model.
   */
  method BlitAnalyze(a: array<int>, nmemb: nat) returns (plan: Plan)
    requires 1 <= nmemb <= a.Length
    modifies a
    ensures plan == AnalyzePlan(old(a[..nmemb]))
    ensures plan == Reversed ==> a[..] == Reverse(old(a[..nmemb])) + old(a[nmemb..])
    ensures plan != Reversed ==> a[..] == old(a[..])
  {
    var block, abalance, zbalance, astreaks, zstreaks := CountDescents(a, nmemb);
    plan := Decide(nmemb, block, abalance, zbalance, astreaks, zstreaks);
    if plan == Reversed {
      ReverseFront(a, nmemb);
    }
  }

  /**
   * The counting loops of blit_analyze: 32-pair chunks from both ends
   * while more than 64 elements are left, then the remaining pairs on the
   * back counter.
   */
  method CountDescents(a: array<int>, nmemb: nat)
    returns (block: nat, abalance: nat, zbalance: nat, astreaks: nat, zstreaks: nat)
    requires 1 <= nmemb <= a.Length
    ensures var s, c := a[..nmemb], Chunks(nmemb);
      block == 32 * c && block < nmemb
      && abalance == Descents(s, 0, block) && zbalance == Descents(s, block, nmemb - 1)
      && astreaks == StreaksUp(s, c) && zstreaks == StreaksDown(s, c)
  {
    ghost var s := a[..nmemb];
    abalance, zbalance, astreaks, zstreaks := 0, 0, 0, 0;
    var pta: nat := 0;
    var ptz: int := nmemb - 2;
    var cnt: nat := nmemb;
    ghost var c: nat := 0;
    while cnt > 64
      invariant 1 <= cnt && cnt + 64 * c == nmemb && pta == 32 * c && ptz == nmemb - 2 - 32 * c
      invariant ChunksCounted(s, c, abalance, zbalance, astreaks, zstreaks)
    {
      abalance, zbalance, astreaks, zstreaks := CountChunk(a, nmemb, s, c, pta, ptz, abalance, zbalance, astreaks, zstreaks);
      pta, ptz, cnt, c := pta + 32, ptz - 32, cnt - 64, c + 1;
    }
    assert c == Chunks(nmemb);
    block := pta;
    zbalance := CountRest(a, nmemb, s, pta, ptz, cnt, zbalance);
  }

  /** The counters after c rounds of the chunk loop. */
  ghost predicate ChunksCounted(s: seq<int>, c: nat, abalance: nat, zbalance: nat, astreaks: nat, zstreaks: nat)
  {
    64 * c < |s| && abalance == Descents(s, 0, 32 * c) && zbalance == Descents(s, |s| - 1 - 32 * c, |s| - 1)
    && astreaks == StreaksUp(s, c) && zstreaks == StreaksDown(s, c)
  }

  /** One round of the chunk loop: the next 32 pairs from the front and from the back. */
  method CountChunk(a: array<int>, nmemb: nat, ghost s: seq<int>, ghost c: nat, pta: nat, ptz: int,
                    abalance: nat, zbalance: nat, astreaks: nat, zstreaks: nat)
    returns (abalance': nat, zbalance': nat, astreaks': nat, zstreaks': nat)
    requires nmemb <= a.Length && s == a[..nmemb] && 64 * (c + 1) < nmemb
    requires pta == 32 * c && ptz == nmemb - 2 - 32 * c
    requires ChunksCounted(s, c, abalance, zbalance, astreaks, zstreaks)
    ensures ChunksCounted(s, c + 1, abalance', zbalance', astreaks', zstreaks')
  {
    var asum, zsum := ChunkSums(a, nmemb, pta, ptz);
    var ahi, zlo := pta + 32, ptz - 31;
    DescentsSplit(s, 0, pta, ahi);
    DescentsSplit(s, zlo, ptz + 1, nmemb - 1);
    StreaksUpNext(s, c, pta, ahi);
    StreaksDownNext(s, c, zlo, ptz + 1);
    astreaks' := astreaks + Streak(asum);
    zstreaks' := zstreaks + Streak(zsum);
    abalance' := abalance + asum;
    zbalance' := zbalance + zsum;
  }

  /** One more chunk from the front adds its streak. */
  lemma StreaksUpNext(s: seq<int>, c: nat, lo: nat, hi: nat)
    requires 32 * (c + 1) < |s| && lo == 32 * c && hi == lo + 32
    ensures StreaksUp(s, c + 1) == StreaksUp(s, c) + Streak(Descents(s, lo, hi))
  {
  }

  /** One more chunk from the back adds its streak. */
  lemma StreaksDownNext(s: seq<int>, c: nat, lo: nat, hi: nat)
    requires 32 * (c + 1) < |s| && hi == |s| - 1 - 32 * c && lo + 32 == hi
    ensures StreaksDown(s, c + 1) == StreaksDown(s, c) + Streak(Descents(s, lo, hi))
  {
  }

  /** The last loop of the count: the pairs left between the two chunk cursors go to the back counter. */
  method CountRest(a: array<int>, nmemb: nat, ghost s: seq<int>, pta: nat, ptz: int, cnt: nat, zbalance: nat)
    returns (zbalance': nat)
    requires nmemb <= a.Length && s == a[..nmemb] && 1 <= cnt && ptz == pta + cnt - 2 && ptz + 2 <= nmemb
    requires zbalance == Descents(s, ptz + 1, nmemb - 1)
    ensures zbalance' == Descents(s, pta, nmemb - 1)
  {
    var p, left := ptz, cnt - 1;
    zbalance' := zbalance;
    while left > 0
      invariant p == pta + left - 1
      invariant zbalance' == Descents(s, p + 1, nmemb - 1)
    {
      DescentsFromLow(s, p, nmemb - 1);
      zbalance' := zbalance' + (if a[p] > a[p + 1] then 1 else 0);
      p, left := p - 1, left - 1;
    }
  }

  /** The inner counting loop: 32 pairs upwards from pta and 32 downwards from ptz. */
  method ChunkSums(a: array<int>, nmemb: nat, pta: nat, ptz: nat) returns (asum: nat, zsum: nat)
    requires nmemb <= a.Length && pta + 32 < nmemb && 31 <= ptz && ptz + 1 < nmemb
    ensures asum == Descents(a[..nmemb], pta, pta + 32) && asum <= 32
    ensures zsum == Descents(a[..nmemb], ptz - 31, ptz + 1) && zsum <= 32
  {
    ghost var s := a[..nmemb];
    asum, zsum := 0, 0;
    var loop: nat := 32;
    while loop > 0
      invariant loop <= 32
      invariant asum == Descents(s, pta, pta + 32 - loop)
      invariant zsum == Descents(s, ptz + 1 - (32 - loop), ptz + 1)
    {
      var i, j := pta + 32 - loop, ptz - (32 - loop);
      asum := asum + (if a[i] > a[i + 1] then 1 else 0);
      DescentsFromLow(s, j, ptz + 1);
      zsum := zsum + (if a[j] > a[j + 1] then 1 else 0);
      loop := loop - 1;
    }
    DescentsAtMost(s, pta, pta + 32);
    DescentsAtMost(s, ptz - 31, ptz + 1);
  }

  /** The reversal loop: swaps a[i] and a[nmemb - 1 - i] for i below nmemb / 2. */
  method ReverseFront(a: array<int>, nmemb: nat)
    requires 2 <= nmemb <= a.Length
    modifies a
    ensures a[..] == Reverse(old(a[..nmemb])) + old(a[nmemb..])
  {
    ghost var s := a[..];
    var pta: nat, ptz: nat := 0, nmemb;
    var cnt := nmemb / 2;
    while cnt > 0
      invariant pta + cnt == nmemb / 2 && ptz == nmemb - pta
      invariant SwappedEnds(a[..], s, nmemb, pta)
    {
      SwapEnds(a, nmemb, pta, s);
      pta, ptz, cnt := pta + 1, ptz - 1, cnt - 1;
    }
    SwappedAll(a[..], s, nmemb, pta);
  }

  /**
   * x is s with its first p elements below nmemb swapped with their mirror
   * images about the middle of the first nmemb.
   */
  ghost predicate SwappedEnds(x: seq<int>, s: seq<int>, nmemb: nat, p: nat)
  {
    |x| == |s| && 2 * p <= nmemb <= |s|
    && (forall k :: 0 <= k < p ==> x[k] == s[nmemb - 1 - k] && x[nmemb - 1 - k] == s[k])
    && (forall k :: p <= k < nmemb - p ==> x[k] == s[k])
    && x[nmemb..] == s[nmemb..]
  }

  /** One round of the reversal loop: a[p] and a[nmemb - 1 - p] trade places. */
  method SwapEnds(a: array<int>, nmemb: nat, p: nat, ghost s: seq<int>)
    requires 2 * p + 2 <= nmemb && SwappedEnds(a[..], s, nmemb, p)
    modifies a
    ensures SwappedEnds(a[..], s, nmemb, p + 1)
  {
    var q := nmemb - 1 - p;
    var tmp := a[p];
    a[p] := a[q];
    a[q] := tmp;
  }

  /** Once every mirror pair is swapped, the first nmemb elements are reversed. */
  lemma SwappedAll(x: seq<int>, s: seq<int>, nmemb: nat, p: nat)
    requires SwappedEnds(x, s, nmemb, p) && p == nmemb / 2
    ensures x == Reverse(s[..nmemb]) + s[nmemb..]
  {
    var r := Reverse(s[..nmemb]);
    forall k | 0 <= k < nmemb
      ensures x[k] == r[k]
    {
      if k < p {
      } else if k < nmemb - p {
        assert k == nmemb - 1 - k;
      } else {
        assert x[nmemb - 1 - (nmemb - 1 - k)] == s[nmemb - 1 - k];
      }
    }
    assert x == x[..nmemb] + x[nmemb..];
  }

  /**
   * BlitSort: short arrays go to tail_swap, longer ones to blit_analyze
   * with a 512-element swap buffer. Returns whether the array is now in
   * order; when it is not, the analysis chose one of the adaptive sorts,
   * which this model does not carry out, and the array is unchanged.
   */
  method BlitSort(a: array<int>, count: nat) returns (done: bool)
    requires count <= a.Length
    modifies a
    ensures done <==> count < 32 || AnalyzePlan(old(a[..count])) in {AlreadySorted, Reversed}
    ensures done ==> Sorted(a[..count]) && Permutes(old(a[..]), a[..], 0, count)
    ensures !done ==> a[..] == old(a[..])
  {
    if count < 32 {
      TailSwap(a, count);
      return true;
    }
    ghost var s := a[..];
    var plan := BlitAnalyze(a, count);
    done := plan == AlreadySorted || plan == Reversed;
    if plan == AlreadySorted {
      PlanSortedIff(s[..count]);
      assert a[..count] == s[..count];
    } else if plan == Reversed {
      PlanReversedIff(s[..count]);
      ReverseDescending(s[..count]);
      assert a[..count] == Reverse(s[..count]);
      assert a[count..] == s[count..];
    }
  }
}
