// The earlier Vulkan backend: its queue and memory-type searches, the merge
// of queues that landed on the same family, the single-cursor bump allocator
// and the per-queue command-buffer managers rotated by a generation counter.
// Queue structs are values held in the backend's queue array.

module GfxBackendVk {
  import opened Wrappers
  import opened GfxBackend

  /** VkDeviceSize(-1): the bump allocator's failure value. */
  const InvalidDeviceSize: nat := 0xFFFF_FFFF_FFFF_FFFF
  const MaxCommandBuffersPerManager: nat := 0xFFFF

  // ---------------------------------------------------------------------------------
  // Queues

  /** Command buffers and fences of one queue for one frame in flight. */
  datatype CommandBufferManager = CommandBufferManager(
    cmdBufferFreeList: seq<Handle>,
    cmdBuffers: seq<Handle>,
    fenceFreeList: seq<Handle>,
    fences: seq<Handle>)
  {
    function OwnedCmdBuffers(): multiset<Handle>
    {
      multiset(cmdBuffers) + multiset(cmdBufferFreeList)
    }

    function OwnedFences(): multiset<Handle>
    {
      multiset(fences) + multiset(fenceFreeList)
    }
  }

  datatype BackendQueue = BackendQueue(
    qtype: bv32,
    familyIdx: nat,
    cmdBufferGeneration: nat,
    cmdBufferManagerIndex: nat,
    cmdBufferManagers: seq<CommandBufferManager>)
  {
    ghost predicate Valid()
    {
      cmdBufferGeneration < Uint32Range && cmdBufferManagerIndex == cmdBufferGeneration % FramesInFlight &&
      |cmdBufferManagers| == FramesInFlight
    }
  }

  /** The first queue whose type has all the requested bits, or NotFound. */
  method GetQueueIndex(queues: seq<BackendQueue>, qtype: bv32) returns (index: nat)
    requires |queues| < NotFound
    ensures index == if FirstWithBits(BackendQueueTypes(queues), qtype) < |queues| then FirstWithBits(BackendQueueTypes(queues), qtype) else NotFound
  {
    var i := 0;
    while i < |queues|
      invariant 0 <= i <= |queues|
      invariant forall j :: 0 <= j < i ==> !IsBitsSet(queues[j].qtype, qtype)
    {
      if IsBitsSet(queues[i].qtype, qtype) {
        FirstWithBitsIsLeast(BackendQueueTypes(queues), qtype, i);
        return i;
      }
      i := i + 1;
    }
    FirstWithBitsIsLeast(BackendQueueTypes(queues), qtype, |queues|);
    return NotFound;
  }

  /**
   * The masks of the queues, in order. `BackendQueue` is this backend's queue
   * record (family, command-buffer generation, managers), a different struct
   * from `GfxBackend.Queue` (command-buffer contexts, semaphore banks,
   * dependents), so `GfxBackend.QueueTypes` does not apply to it.
   */
  function BackendQueueTypes(queues: seq<BackendQueue>): (types: seq<bv32>)
    ensures |types| == |queues| && forall k :: 0 <= k < |queues| ==> types[k] == queues[k].qtype
  {
    seq(|queues|, k requires 0 <= k < |queues| => queues[k].qtype)
  }

  /**
   * The family chosen for a queue: the lowest family with the bits, queues
   * left and (when preferNotHave is not None) without the unwanted bits; when
   * there is none, the same search without the preference; else NotFound.
   */
  method AssignQueueFamily(families: seq<QueueFamily>, qtype: bv32, preferNotHave: bv32) returns (familyIndex: nat)
    requires 0 < |families| < NotFound
    ensures familyIndex != NotFound ==> familyIndex < |families| && FamilyAcceptable(families, familyIndex, qtype, QueueNone, [])
    ensures familyIndex == NotFound <==> forall i :: 0 <= i < |families| ==> !FamilyAcceptable(families, i, qtype, QueueNone, [])
    ensures (exists i :: 0 <= i < |families| && FamilyAcceptable(families, i, qtype, preferNotHave, [])) ==>
              familyIndex < |families| && FamilyAcceptable(families, familyIndex, qtype, preferNotHave, []) &&
              forall j :: 0 <= j < familyIndex ==> !FamilyAcceptable(families, j, qtype, preferNotHave, [])
    ensures (forall i :: 0 <= i < |families| ==> !FamilyAcceptable(families, i, qtype, preferNotHave, [])) && familyIndex != NotFound ==>
              forall j :: 0 <= j < familyIndex ==> !FamilyAcceptable(families, j, qtype, QueueNone, [])
    decreases if preferNotHave != QueueNone then 1 else 0
  {
    familyIndex := NotFound;
    var i := 0;
    while i < |families|
      invariant 0 <= i <= |families|
      invariant forall j :: 0 <= j < i ==> !FamilyAcceptable(families, j, qtype, preferNotHave, [])
    {
      if IsBitsSet(families[i].qtype, qtype) && families[i].count > 0 {
        if preferNotHave != QueueNone {
          if !IsBitsSet(families[i].qtype, preferNotHave) {
            familyIndex := i;
            break;
          }
        } else {
          familyIndex := i;
          break;
        }
      }
      i := i + 1;
    }
    if familyIndex == NotFound && preferNotHave != QueueNone {
      familyIndex := AssignQueueFamily(families, qtype, QueueNone);
    } else if familyIndex != NotFound {
      assert FamilyAcceptable(families, familyIndex, qtype, preferNotHave, []);
      assert FamilyAcceptable(families, familyIndex, qtype, QueueNone, []);
    }
  }

  // ---------------------------------------------------------------------------------
  // Merging queues that share a family

  /** The first queue in [k, i) of the same family as queue i. */
  function SameFamilyBefore(qs: seq<BackendQueue>, i: nat, k: nat): (r: Option<nat>)
    requires i < |qs| && k <= i
    ensures r.Some? ==> k <= r.value < i && qs[r.value].familyIdx == qs[i].familyIdx &&
                        forall j :: k <= j < r.value ==> qs[j].familyIdx != qs[i].familyIdx
    ensures r.None? ==> forall j :: k <= j < i ==> qs[j].familyIdx != qs[i].familyIdx
    decreases i - k
  {
    if k == i then None
    else if qs[k].familyIdx == qs[i].familyIdx then Some(k)
    else SameFamilyBefore(qs, i, k + 1)
  }

  function Swap<T>(s: seq<T>, a: nat, b: nat): (r: seq<T>)
    requires a < |s| && b < |s|
    ensures |r| == |s|
  {
    s[a := s[b]][b := s[a]]
  }

  /**
   * The merge loop from queue i on, over the first n queues: a queue whose
   * family already occurs earlier (at k) takes over k's type bits, k is
   * swapped with the last queue, the count shrinks and queue i is examined
   * again. Returns the queue array and the final count.
   */
  function MergeQueuesFrom(qs: seq<BackendQueue>, n: nat, i: nat): (r: (seq<BackendQueue>, nat))
    requires n <= |qs| && 1 <= i
    ensures |r.0| == |qs| && r.1 <= n && r.0[n..] == qs[n..]
    decreases n - i
  {
    if i >= n then (qs, n)
    else
      match SameFamilyBefore(qs, i, 0)
      case None => MergeQueuesFrom(qs, n, i + 1)
      case Some(k) =>
        var merged := qs[i := qs[i].(qtype := TypeUnion(qs[i].qtype, qs[k].qtype))];
        var swapped := if k != n - 1 then Swap(merged, k, n - 1) else merged;
        MergeQueuesFrom(swapped, n - 1, i)
  }

  /** The first queue before queue i that has the same family. */
  method FindSameFamily(queues: array<BackendQueue>, i: nat) returns (k: Option<nat>)
    requires i < queues.Length
    ensures k == SameFamilyBefore(queues[..], i, 0)
  {
    var j := 0;
    while j < i
      invariant 0 <= j <= i
      invariant SameFamilyBefore(queues[..], i, 0) == SameFamilyBefore(queues[..], i, j)
    {
      if queues[j].familyIdx == queues[i].familyIdx {
        return Some(j);
      }
      j := j + 1;
    }
    return None;
  }

  /** The queues after setup: those sharing a family are merged into one. */
  method MergeQueues(queues: array<BackendQueue>) returns (numQueues: nat)
    modifies queues
    ensures (queues[..], numQueues) == MergeQueuesFrom(old(queues[..]), queues.Length, 1)
  {
    ghost var result := MergeQueuesFrom(queues[..], queues.Length, 1);
    numQueues := queues.Length;
    var i := 1;
    while i < numQueues
      invariant 1 <= i && numQueues <= queues.Length
      invariant result == MergeQueuesFrom(queues[..], numQueues, i)
      decreases numQueues - i
    {
      i, numQueues := MergeStep(queues, i, numQueues, result);
    }
  }

  /** One round of the merge loop: merges queue i into an earlier queue of its family, or moves past it. */
  method MergeStep(queues: array<BackendQueue>, i: nat, n: nat, ghost result: (seq<BackendQueue>, nat))
    returns (i': nat, n': nat)
    requires 1 <= i < n <= queues.Length && result == MergeQueuesFrom(queues[..], n, i)
    modifies queues
    ensures 1 <= i' && n' <= n && n' - i' < n - i
    ensures result == MergeQueuesFrom(queues[..], n', i')
  {
    var same := FindSameFamily(queues, i);
    if same.Some? {
      MergeInto(queues, i, same.value, n, result);
      i', n' := i, n - 1;
    } else {
      SkippedFrom(queues[..], n, i);
      i', n' := i + 1, n;
    }
  }

  /** Unfolds one step of the merge loop that finds no earlier queue of the same family. */
  lemma SkippedFrom(qs: seq<BackendQueue>, n: nat, i: nat)
    requires 1 <= i < n <= |qs| && SameFamilyBefore(qs, i, 0) == None
    ensures MergeQueuesFrom(qs, n, i) == MergeQueuesFrom(qs, n, i + 1)
  {
  }

  /** Unfolds one merge of the merge loop. */
  lemma MergedFrom(qs: seq<BackendQueue>, n: nat, i: nat, k: nat, qs': seq<BackendQueue>)
    requires 1 <= i < n <= |qs| && SameFamilyBefore(qs, i, 0) == Some(k)
    requires k < i && qs' == MergeAt(qs, i, k, n)
    ensures MergeQueuesFrom(qs, n, i) == MergeQueuesFrom(qs', n - 1, i)
  {
  }

  /** The queues after one merge: queue i takes over queue k's type bits, then k is swapped with the last of the n queues. */
  function MergeAt(qs: seq<BackendQueue>, i: nat, k: nat, n: nat): (r: seq<BackendQueue>)
    requires k < i < n <= |qs|
    ensures |r| == |qs| && r[n..] == qs[n..]
  {
    var merged := qs[i := qs[i].(qtype := TypeUnion(qs[i].qtype, qs[k].qtype))];
    if k != n - 1 then Swap(merged, k, n - 1) else merged
  }

  /** One merge: queue i takes over queue k's type bits, then k is swapped with the last of the n queues. */
  method MergeInto(queues: array<BackendQueue>, i: nat, k: nat, n: nat, ghost result: (seq<BackendQueue>, nat))
    requires k < i < n <= queues.Length && SameFamilyBefore(queues[..], i, 0) == Some(k)
    requires result == MergeQueuesFrom(queues[..], n, i)
    modifies queues
    ensures result == MergeQueuesFrom(queues[..], n - 1, i)
  {
    ghost var qs := queues[..];
    ghost var merged := queues[..][i := queues[i].(qtype := TypeUnion(queues[i].qtype, queues[k].qtype))];
    queues[i] := queues[i].(qtype := TypeUnion(queues[i].qtype, queues[k].qtype));
    assert queues[..] == merged;
    if k != n - 1 {
      queues[k], queues[n - 1] := queues[n - 1], queues[k];
      assert queues[..] == Swap(merged, k, n - 1);
    }
    MergedFrom(qs, n, i, k, queues[..]);
  }

  /** The type bits of two merged queues. */
  function TypeUnion(x: bv32, y: bv32): bv32
  {
    x | y
  }

  /** The families of the first n queues. */
  function Families(qs: seq<BackendQueue>, n: nat): set<nat>
    requires n <= |qs|
  {
    set j | 0 <= j < n :: qs[j].familyIdx
  }

  /** The type bits queue q contributes to family f. */
  function TypeIn(q: BackendQueue, f: nat): bv32
  {
    if q.familyIdx == f then q.qtype else 0
  }

  /** The union of the type bits of all queues of family f. */
  function FamilyType(qs: seq<BackendQueue>, f: nat): bv32
  {
    if qs == [] then 0 else TypeUnion(TypeIn(qs[0], f), FamilyType(qs[1..], f))
  }

  lemma FamiliesOfFirst(qs: seq<BackendQueue>, n: nat)
    requires 1 <= n <= 3 && n <= |qs|
    ensures Families(qs, n) == if n == 1 then {qs[0].familyIdx}
                               else if n == 2 then {qs[0].familyIdx, qs[1].familyIdx}
                               else {qs[0].familyIdx, qs[1].familyIdx, qs[2].familyIdx}
  {
    var s := if n == 1 then {qs[0].familyIdx}
             else if n == 2 then {qs[0].familyIdx, qs[1].familyIdx}
             else {qs[0].familyIdx, qs[1].familyIdx, qs[2].familyIdx};
    forall x | x in s
      ensures x in Families(qs, n)
    {
      var j :| 0 <= j < n && qs[j].familyIdx == x;
    }
  }

  lemma FamilyTypeOfTwo(qs: seq<BackendQueue>, f: nat)
    requires |qs| == 2
    ensures FamilyType(qs, f) == TypeUnion(TypeIn(qs[0], f), TypeIn(qs[1], f))
  {
    var rest := qs[1..];
    assert rest[0] == qs[1] && rest[1..] == [];
    assert FamilyType(rest, f) == TypeUnion(TypeIn(qs[1], f), 0) == TypeIn(qs[1], f);
  }

  lemma FamilyTypeOfThree(qs: seq<BackendQueue>, f: nat)
    requires |qs| == 3
    ensures FamilyType(qs, f) == TypeUnion(TypeIn(qs[0], f), TypeUnion(TypeIn(qs[1], f), TypeIn(qs[2], f)))
  {
    var rest := qs[1..];
    assert rest[0] == qs[1] && rest[1] == qs[2];
    FamilyTypeOfTwo(rest, f);
  }

  /** The merged queues have distinct families, cover all the original ones, and carry each family's union of types. */
  ghost predicate MergedCorrectly(qs: seq<BackendQueue>, r: seq<BackendQueue>, n: nat)
    requires n <= |r|
  {
    (forall a, b :: 0 <= a < b < n ==> r[a].familyIdx != r[b].familyIdx) &&
    Families(r, n) == Families(qs, |qs|) &&
    forall a :: 0 <= a < n ==> r[a].qtype == FamilyType(qs, r[a].familyIdx)
  }

  /**
   * For the three queues the backend creates (graphics, transfer, compute),
   * or fewer, the merge leaves one queue per distinct family carrying the
   * union of the merged queues' types.
   */
  lemma MergeQueuesCorrect(qs: seq<BackendQueue>)
    requires |qs| <= 3
    ensures var m := MergeQueuesFrom(qs, |qs|, 1);
            MergedCorrectly(qs, m.0, m.1)
  {
    var r, n := MergeQueuesFrom(qs, |qs|, 1).0, MergeQueuesFrom(qs, |qs|, 1).1;
    if |qs| == 0 {
      assert Families(r, n) == {} == Families(qs, |qs|);
    } else if |qs| == 1 {
      assert Families(r, n) == {qs[0].familyIdx} == Families(qs, |qs|);
      assert qs[1..] == [];
    } else if |qs| == 2 {
      MergeTwo(qs);
    } else {
      MergeThree(qs);
    }
  }

  /** Identities of the union of type bits, given to the solver explicitly. */
  lemma OrFacts(x: bv32, y: bv32, z: bv32)
    ensures TypeUnion(x, 0) == x && TypeUnion(0, x) == x && TypeUnion(x, y) == TypeUnion(y, x)
    ensures TypeUnion(TypeUnion(x, y), z) == TypeUnion(x, TypeUnion(y, z))
  {
  }

  lemma MergeTwo(qs: seq<BackendQueue>)
    requires |qs| == 2
    ensures var m := MergeQueuesFrom(qs, 2, 1);
            MergedCorrectly(qs, m.0, m.1)
  {
    if qs[0].familyIdx == qs[1].familyIdx {
      MergeTwoSameFamily(qs);
    } else {
      MergeTwoOfTwoFamilies(qs);
      MergedTwoDistinct(qs);
    }
  }

  lemma MergeTwoSameFamily(qs: seq<BackendQueue>)
    requires |qs| == 2 && qs[0].familyIdx == qs[1].familyIdx
    ensures var m := MergeQueuesFrom(qs, 2, 1);
            MergedCorrectly(qs, m.0, m.1)
  {
    MergeTwoOfOneFamily(qs);
    MergedTwoIntoOne(qs, MergeQueuesFrom(qs, 2, 1).0);
  }

  lemma MergeThree(qs: seq<BackendQueue>)
    requires |qs| == 3
    ensures var m := MergeQueuesFrom(qs, 3, 1);
            MergedCorrectly(qs, m.0, m.1)
  {
    var fa, fb, fc := qs[0].familyIdx, qs[1].familyIdx, qs[2].familyIdx;
    if fa == fb && fb == fc {
      MergeThreeSameFamily(qs);
    } else if fa == fb {
      MergeThreeFirstTwo(qs);
    } else if fa == fc {
      MergeThreeFirstAndLast(qs);
    } else if fb == fc {
      MergeThreeLastTwo(qs);
    } else {
      MergeThreeOfThreeFamilies(qs);
      MergedThreeDistinct(qs);
    }
  }

  lemma MergeThreeSameFamily(qs: seq<BackendQueue>)
    requires |qs| == 3 && qs[0].familyIdx == qs[1].familyIdx == qs[2].familyIdx
    ensures var m := MergeQueuesFrom(qs, 3, 1);
            MergedCorrectly(qs, m.0, m.1)
  {
    MergeThreeOfOneFamily(qs);
    MergedThreeIntoOne(qs, MergeQueuesFrom(qs, 3, 1).0);
  }

  lemma MergeTwoOfOneFamily(qs: seq<BackendQueue>)
    requires |qs| == 2 && qs[0].familyIdx == qs[1].familyIdx
    ensures var m := MergeQueuesFrom(qs, 2, 1);
            m.1 == 1 && |m.0| == 2 && m.0[0].familyIdx == qs[0].familyIdx &&
            m.0[0].qtype == TypeUnion(qs[1].qtype, qs[0].qtype)
  {
    assert SameFamilyBefore(qs, 1, 0) == Some(0);
    var r := [qs[1].(qtype := TypeUnion(qs[1].qtype, qs[0].qtype)), qs[0]];
    assert Swap(qs[1 := r[0]], 0, 1) == r;
    assert MergeQueuesFrom(qs, 2, 1) == (r, 1);
  }

  lemma MergeTwoOfTwoFamilies(qs: seq<BackendQueue>)
    requires |qs| == 2 && qs[0].familyIdx != qs[1].familyIdx
    ensures MergeQueuesFrom(qs, 2, 1) == (qs, 2)
  {
    assert SameFamilyBefore(qs, 1, 0) == None;
  }

  lemma MergeThreeOfOneFamily(qs: seq<BackendQueue>)
    requires |qs| == 3 && qs[0].familyIdx == qs[1].familyIdx == qs[2].familyIdx
    ensures var m := MergeQueuesFrom(qs, 3, 1);
            m.1 == 1 && |m.0| == 3 && m.0[0].familyIdx == qs[0].familyIdx &&
            m.0[0].qtype == TypeUnion(TypeUnion(qs[1].qtype, qs[0].qtype), qs[2].qtype)
  {
    var ab := TypeUnion(qs[1].qtype, qs[0].qtype);
    var s1 := [qs[2], qs[1].(qtype := ab), qs[0]];
    assert SameFamilyBefore(qs, 1, 0) == Some(0);
    assert Swap(qs[1 := s1[1]], 0, 2) == s1;
    assert MergeQueuesFrom(qs, 3, 1) == MergeQueuesFrom(s1, 2, 1);
    var r := [s1[1].(qtype := TypeUnion(ab, qs[2].qtype)), qs[2], qs[0]];
    assert SameFamilyBefore(s1, 1, 0) == Some(0);
    assert Swap(s1[1 := r[0]], 0, 1) == r;
    assert MergeQueuesFrom(s1, 2, 1) == (r, 1);
  }

  lemma MergeThreeOfThreeFamilies(qs: seq<BackendQueue>)
    requires |qs| == 3
    requires qs[0].familyIdx != qs[1].familyIdx && qs[0].familyIdx != qs[2].familyIdx && qs[1].familyIdx != qs[2].familyIdx
    ensures MergeQueuesFrom(qs, 3, 1) == (qs, 3)
  {
    assert SameFamilyBefore(qs, 1, 0) == None;
    assert SameFamilyBefore(qs, 2, 0) == None;
  }

  /** Three queues whose first two share a family and the third does not. */
  lemma MergeThreeFirstTwo(qs: seq<BackendQueue>)
    requires |qs| == 3 && qs[0].familyIdx == qs[1].familyIdx != qs[2].familyIdx
    ensures var m := MergeQueuesFrom(qs, 3, 1);
            MergedCorrectly(qs, m.0, m.1)
  {
    var a, b, c := qs[0], qs[1], qs[2];
    var m := MergeQueuesFrom(qs, 3, 1);
    assert m.1 == 2 && |m.0| == 3 && m.0[0] == c && m.0[1].familyIdx == a.familyIdx &&
           m.0[1].qtype == TypeUnion(b.qtype, a.qtype) by {
      var s1 := [c, b.(qtype := TypeUnion(b.qtype, a.qtype)), a];
      assert SameFamilyBefore(qs, 1, 0) == Some(0);
      assert Swap(qs[1 := s1[1]], 0, 2) == s1;
      assert MergeQueuesFrom(qs, 3, 1) == MergeQueuesFrom(s1, 2, 1);
      assert SameFamilyBefore(s1, 1, 0) == None;
      assert m == (s1, 2);
    }
    MergedIntoTwo(qs, m.0, 2, 0, 1);
  }

  /** Three queues whose first and last share a family and the middle one does not. */
  lemma MergeThreeFirstAndLast(qs: seq<BackendQueue>)
    requires |qs| == 3 && qs[0].familyIdx == qs[2].familyIdx != qs[1].familyIdx
    ensures var m := MergeQueuesFrom(qs, 3, 1);
            MergedCorrectly(qs, m.0, m.1)
  {
    var a, b, c := qs[0], qs[1], qs[2];
    var m := MergeQueuesFrom(qs, 3, 1);
    assert m.1 == 2 && |m.0| == 3 && m.0[1] == b && m.0[0].familyIdx == a.familyIdx &&
           m.0[0].qtype == TypeUnion(c.qtype, a.qtype) by {
      var r := [c.(qtype := TypeUnion(c.qtype, a.qtype)), b, a];
      assert SameFamilyBefore(qs, 1, 0) == None;
      assert SameFamilyBefore(qs, 2, 0) == Some(0);
      assert Swap(qs[2 := r[0]], 0, 2) == r;
      assert m == (r, 2);
    }
    MergedIntoTwo(qs, m.0, 1, 0, 2);
  }

  /** Three queues whose last two share a family and the first does not. */
  lemma MergeThreeLastTwo(qs: seq<BackendQueue>)
    requires |qs| == 3 && qs[1].familyIdx == qs[2].familyIdx != qs[0].familyIdx
    ensures var m := MergeQueuesFrom(qs, 3, 1);
            MergedCorrectly(qs, m.0, m.1)
  {
    var a, b, c := qs[0], qs[1], qs[2];
    var m := MergeQueuesFrom(qs, 3, 1);
    assert m.1 == 2 && |m.0| == 3 && m.0[0] == a && m.0[1].familyIdx == b.familyIdx &&
           m.0[1].qtype == TypeUnion(c.qtype, b.qtype) by {
      var r := [a, c.(qtype := TypeUnion(c.qtype, b.qtype)), b];
      assert SameFamilyBefore(qs, 1, 0) == None;
      SkippedFrom(qs, 3, 1);
      assert SameFamilyBefore(qs, 2, 0) == Some(1);
      assert Swap(qs[2 := r[1]], 1, 2) == r;
      MergedFrom(qs, 3, 2, 1, r);
      assert MergeQueuesFrom(r, 2, 2) == (r, 2);
    }
    MergedIntoTwo(qs, m.0, 0, 1, 2);
  }

  /** Two queues of one family: r[0] carries the union of their types. */
  lemma MergedTwoIntoOne(qs: seq<BackendQueue>, r: seq<BackendQueue>)
    requires |qs| == 2 && 1 <= |r|
    requires qs[0].familyIdx == r[0].familyIdx && qs[1].familyIdx == r[0].familyIdx
    requires r[0].qtype == TypeUnion(qs[1].qtype, qs[0].qtype)
    ensures MergedCorrectly(qs, r, 1)
  {
    FamiliesOfFirst(r, 1);
    FamiliesOfFirst(qs, 2);
    FamilyTypeOfTwo(qs, r[0].familyIdx);
    OrFacts(qs[0].qtype, qs[1].qtype, 0);
  }

  /** Three queues of one family: r[0] carries the union of their types. */
  lemma MergedThreeIntoOne(qs: seq<BackendQueue>, r: seq<BackendQueue>)
    requires |qs| == 3 && 1 <= |r|
    requires qs[0].familyIdx == r[0].familyIdx && qs[1].familyIdx == r[0].familyIdx && qs[2].familyIdx == r[0].familyIdx
    requires r[0].qtype == TypeUnion(TypeUnion(qs[1].qtype, qs[0].qtype), qs[2].qtype)
    ensures MergedCorrectly(qs, r, 1)
  {
    FamiliesOfFirst(r, 1);
    FamiliesOfFirst(qs, 3);
    FamilyTypeOfThree(qs, r[0].familyIdx);
    OrFacts(qs[0].qtype, qs[1].qtype, qs[2].qtype);
    OrFacts(qs[1].qtype, qs[0].qtype, qs[2].qtype);
  }

  /**
   * Three queues of two families: queue `single` alone in its family, queues
   * p < q in the other. The merge leaves queue single in one of the first two
   * slots and, in the other, a queue of p's family carrying q's type or p's.
   */
  lemma MergedIntoTwo(qs: seq<BackendQueue>, r: seq<BackendQueue>, single: nat, p: nat, q: nat)
    requires |qs| == 3 && |r| == 3 && p < q < 3 && single < 3 && single != p && single != q
    requires qs[p].familyIdx == qs[q].familyIdx != qs[single].familyIdx
    requires var pos := if single == 1 then 0 else 1;
             r[1 - pos] == qs[single] && r[pos].familyIdx == qs[p].familyIdx &&
             r[pos].qtype == TypeUnion(qs[q].qtype, qs[p].qtype)
    ensures MergedCorrectly(qs, r, 2)
  {
    var a, b, c := qs[0], qs[1], qs[2];
    var fs, fp := qs[single].familyIdx, qs[p].familyIdx;
    FamiliesOfFirst(r, 2);
    FamiliesOfFirst(qs, 3);
    FamilyTypeOfThree(qs, fs);
    FamilyTypeOfThree(qs, fp);
    OrFacts(qs[single].qtype, 0, 0);
    OrFacts(0, qs[single].qtype, 0);
    OrFacts(0, 0, 0);
    OrFacts(qs[p].qtype, qs[q].qtype, 0);
    OrFacts(0, qs[q].qtype, 0);
    OrFacts(qs[p].qtype, 0, qs[q].qtype);
  }

  /** Two queues of distinct families are left as they are. */
  lemma MergedTwoDistinct(qs: seq<BackendQueue>)
    requires |qs| == 2 && qs[0].familyIdx != qs[1].familyIdx
    ensures MergedCorrectly(qs, qs, 2)
  {
    FamiliesOfFirst(qs, 2);
    assert qs[0].qtype == FamilyType(qs, qs[0].familyIdx) by {
      FamilyTypeOfTwo(qs, qs[0].familyIdx);
      OrFacts(qs[0].qtype, 0, 0);
    }
    assert qs[1].qtype == FamilyType(qs, qs[1].familyIdx) by {
      FamilyTypeOfTwo(qs, qs[1].familyIdx);
      OrFacts(qs[1].qtype, 0, 0);
    }
  }

  /** Three queues of pairwise distinct families are left as they are. */
  lemma MergedThreeDistinct(qs: seq<BackendQueue>)
    requires |qs| == 3
    requires qs[0].familyIdx != qs[1].familyIdx && qs[0].familyIdx != qs[2].familyIdx && qs[1].familyIdx != qs[2].familyIdx
    ensures MergedCorrectly(qs, qs, 3)
  {
    FamiliesOfFirst(qs, 3);
    assert qs[0].qtype == FamilyType(qs, qs[0].familyIdx) by {
      FamilyTypeOfThree(qs, qs[0].familyIdx);
      OrFacts(qs[0].qtype, 0, 0);
      OrFacts(0, 0, 0);
    }
    assert qs[1].qtype == FamilyType(qs, qs[1].familyIdx) by {
      FamilyTypeOfThree(qs, qs[1].familyIdx);
      OrFacts(qs[1].qtype, 0, 0);
    }
    assert qs[2].qtype == FamilyType(qs, qs[2].familyIdx) by {
      FamilyTypeOfThree(qs, qs[2].familyIdx);
      OrFacts(qs[2].qtype, 0, 0);
      OrFacts(0, qs[2].qtype, 0);
    }
  }

  /**
   * With four queues the merge can leave two queues of one family: a queue
   * swapped in from the end is not compared with the queues before it.
   */
  lemma MergeNeedsAtMostThreeQueues()
    ensures var qs := [BackendQueue(1, 0, 0, 0, []), BackendQueue(2, 1, 0, 0, []),
                       BackendQueue(4, 0, 0, 0, []), BackendQueue(8, 1, 0, 0, [])];
            var (r, n) := MergeQueuesFrom(qs, 4, 1);
            n == 3 && r[0].familyIdx == r[1].familyIdx
  {
    var qs := [BackendQueue(1, 0, 0, 0, []), BackendQueue(2, 1, 0, 0, []),
               BackendQueue(4, 0, 0, 0, []), BackendQueue(8, 1, 0, 0, [])];
    assert SameFamilyBefore(qs, 1, 0) == None;
    assert SameFamilyBefore(qs, 2, 0) == Some(0);
    var s := [qs[3], qs[1], qs[2].(qtype := 5), qs[0]];
    assert MergeQueuesFrom(qs, 4, 1) == MergeQueuesFrom(qs, 4, 2);
    assert Swap(qs[2 := qs[2].(qtype := TypeUnion(qs[2].qtype, qs[0].qtype))], 0, 3) == s;
    assert MergeQueuesFrom(qs, 4, 2) == MergeQueuesFrom(s, 3, 2);
    assert SameFamilyBefore(s, 2, 0) == None;
  }

  // ---------------------------------------------------------------------------------
  // Memory-type search as written

  /**
   * The overlapping pass as written skips the types whose heap IS device
   * local when a device-local heap is requested (the exact pass skips those
   * whose heap is not).
   */
  predicate OverlapPassAllowsAsWritten(props: MemoryProperties, localDeviceHeap: bool, i: nat)
    requires props.Valid() && i < |props.memoryTypes|
  {
    !(localDeviceHeap && props.heapFlags[props.memoryTypes[i].heapIndex] & MemoryHeapDeviceLocalBit != 0)
  }

  /** The least index from `from` on accepted by the overlapping pass as written. */
  function FirstOverlapAsWritten(props: MemoryProperties, flags: bv32, localDeviceHeap: bool, from: nat): (r: Option<nat>)
    requires props.Valid() && from <= |props.memoryTypes|
    ensures r.Some? ==> from <= r.value < |props.memoryTypes| &&
                        OverlapPassAllowsAsWritten(props, localDeviceHeap, r.value) &&
                        HasAnyBits(props.memoryTypes[r.value].propertyFlags, flags)
    ensures r.None? ==> forall j :: from <= j < |props.memoryTypes| ==>
              !(OverlapPassAllowsAsWritten(props, localDeviceHeap, j) && HasAnyBits(props.memoryTypes[j].propertyFlags, flags))
    decreases |props.memoryTypes| - from
  {
    if from == |props.memoryTypes| then None
    else if OverlapPassAllowsAsWritten(props, localDeviceHeap, from) && HasAnyBits(props.memoryTypes[from].propertyFlags, flags)
    then Some(from)
    else FirstOverlapAsWritten(props, flags, localDeviceHeap, from + 1)
  }

  function PreferredTypeAsWritten(props: MemoryProperties, flags: bv32, localDeviceHeap: bool): Option<nat>
    requires props.Valid()
  {
    var exact := FirstMatch(props, flags, localDeviceHeap, true, 0);
    if exact.Some? then exact else FirstOverlapAsWritten(props, flags, localDeviceHeap, 0)
  }

  function MemoryTypeForAsWritten(props: MemoryProperties, flags: bv32, localDeviceHeap: bool, fallbackFlags: bv32): Option<nat>
    requires props.Valid()
  {
    var r := PreferredTypeAsWritten(props, flags, localDeviceHeap);
    if r.None? && fallbackFlags != 0 then PreferredTypeAsWritten(props, fallbackFlags, localDeviceHeap) else r
  }

  /** The memory-type search of this backend, with its overlapping pass as written. */
  method FindDeviceMemoryTypeAsWritten(props: MemoryProperties, flags: bv32, localDeviceHeap: bool, fallbackFlags: bv32)
    returns (index: nat)
    requires props.Valid()
    ensures MemoryTypeForAsWritten(props, flags, localDeviceHeap, fallbackFlags).Some? ==>
              index == MemoryTypeForAsWritten(props, flags, localDeviceHeap, fallbackFlags).value
    ensures MemoryTypeForAsWritten(props, flags, localDeviceHeap, fallbackFlags).None? ==> index == NotFound
    decreases if fallbackFlags != 0 then 1 else 0
  {
    var found := SearchMemoryTypes(props, flags, localDeviceHeap, true);
    if found.Some? {
      return found.value;
    }
    var i := 0;
    while i < |props.memoryTypes|
      invariant 0 <= i <= |props.memoryTypes|
      invariant FirstOverlapAsWritten(props, flags, localDeviceHeap, 0) == FirstOverlapAsWritten(props, flags, localDeviceHeap, i)
    {
      var t := props.memoryTypes[i];
      if localDeviceHeap && props.heapFlags[t.heapIndex] & MemoryHeapDeviceLocalBit != 0 {
        i := i + 1;
        continue;
      }
      if HasAnyBits(t.propertyFlags, flags) {
        return i;
      }
      i := i + 1;
    }
    if fallbackFlags != 0 {
      index := FindDeviceMemoryTypeAsWritten(props, fallbackFlags, localDeviceHeap, 0);
      return;
    }
    return NotFound;
  }

  /**
   * Asked for host-visible memory on a device-local heap, the search as
   * written picks the host-visible type of the system-memory heap although a
   * device-local host-visible type exists; the corrected search picks that one.
   */
  lemma FindDeviceMemoryTypeAsWrittenIgnoresLocalHeap()
    ensures var props := MemoryProperties([MemoryType(0x2, 1), MemoryType(0x3, 0)], [MemoryHeapDeviceLocalBit, 0]);
            props.Valid() &&
            MemoryTypeForAsWritten(props, 0x2, true, 0) == Some(0) && !HeapAllowed(props, true, 0) &&
            MemoryTypeFor(props, 0x2, true, 0) == Some(1) && HeapAllowed(props, true, 1)
  {
    var props := MemoryProperties([MemoryType(0x2, 1), MemoryType(0x3, 0)], [MemoryHeapDeviceLocalBit, 0]);
    assert !Matches(props, 0x2, true, true, 0) && !Matches(props, 0x2, true, true, 1);
    assert FirstMatch(props, 0x2, true, true, 0) == None;
    assert OverlapPassAllowsAsWritten(props, true, 0) && HasAnyBits(0x2, 0x2);
    assert Matches(props, 0x2, true, false, 1) && !Matches(props, 0x2, true, false, 0);
  }

  // ---------------------------------------------------------------------------------
  // Single-cursor bump allocator

  /**
   * One allocation from a cursor: the offset is the cursor aligned up, and the
   * cursor moves past the request before the capacity is checked, so it moves
   * also when the allocation fails. Returns (new cursor, offset or InvalidDeviceSize).
   */
  function BumpMalloc(offset: nat, capacity: nat, size: nat, alignment: nat): (r: (nat, nat))
    requires alignment > 0 && capacity < InvalidDeviceSize
    ensures r.0 == AlignedCursor(offset, alignment) + size && r.0 >= offset + size
    ensures r.1 == InvalidDeviceSize <==> r.0 > capacity
    ensures r.1 != InvalidDeviceSize ==> r.1 % alignment == 0 && offset <= r.1 && r.1 + size <= capacity
  {
    var aligned := AlignedCursor(offset, alignment);
    if aligned + size > capacity then (aligned + size, InvalidDeviceSize) else (aligned + size, aligned)
  }

  /** Once an allocation fails, every later one fails until the allocator is reset. */
  lemma FailedMallocFailsUntilReset(offset: nat, capacity: nat, size: nat, alignment: nat, size2: nat, alignment2: nat)
    requires alignment > 0 && alignment2 > 0 && capacity < InvalidDeviceSize
    requires BumpMalloc(offset, capacity, size, alignment).1 == InvalidDeviceSize
    ensures BumpMalloc(BumpMalloc(offset, capacity, size, alignment).0, capacity, size2, alignment2).1 == InvalidDeviceSize
  {
  }

  /** Two allocations in a row never overlap: the second starts where the first ends or later. */
  lemma ConsecutiveMallocsDisjoint(offset: nat, capacity: nat, size: nat, alignment: nat, size2: nat, alignment2: nat)
    requires alignment > 0 && alignment2 > 0 && capacity < InvalidDeviceSize
    requires BumpMalloc(offset, capacity, size, alignment).1 != InvalidDeviceSize
    requires BumpMalloc(BumpMalloc(offset, capacity, size, alignment).0, capacity, size2, alignment2).1 != InvalidDeviceSize
    ensures BumpMalloc(offset, capacity, size, alignment).1 + size <=
            BumpMalloc(BumpMalloc(offset, capacity, size, alignment).0, capacity, size2, alignment2).1
  {
  }

  /** A linear allocator over one device-memory block of a single memory type. */
  class MemoryBumpAllocator {
    const capacity: nat
    const memTypeIndex: nat
    var offset: nat

    constructor (capacity: nat, memTypeIndex: nat)
      requires memTypeIndex < 32 && capacity < InvalidDeviceSize
      ensures this.capacity == capacity && this.memTypeIndex == memTypeIndex && offset == 0
    {
      this.capacity, this.memTypeIndex, offset := capacity, memTypeIndex, 0;
    }

    /** Fails without a change when the memory type is not allowed; otherwise a BumpMalloc step. */
    method Malloc(memoryTypeBits: bv32, size: nat, alignment: nat) returns (r: nat)
      requires memTypeIndex < 32 && alignment > 0 && capacity < InvalidDeviceSize
      modifies this
      ensures !TypeBitSet(memoryTypeBits, memTypeIndex) ==> r == InvalidDeviceSize && offset == old(offset)
      ensures TypeBitSet(memoryTypeBits, memTypeIndex) ==> (offset, r) == BumpMalloc(old(offset), capacity, size, alignment)
    {
      if !TypeBitSet(memoryTypeBits, memTypeIndex) {
        return InvalidDeviceSize;
      }
      var cursor := offset;
      if cursor % alignment != 0 {
        cursor := AlignValue(cursor, alignment);
      }
      offset := cursor + size;
      if offset > capacity {
        return InvalidDeviceSize;
      }
      return cursor;
    }

    method Reset()
      modifies this
      ensures offset == 0
    {
      offset := 0;
    }
  }

  // ---------------------------------------------------------------------------------
  // Command-buffer managers

  /**
   * Starts a new frame on the queue: advances its 32-bit generation, selects
   * the next manager and returns that manager's fences and command buffers to
   * its free lists; the other manager is untouched.
   */
  function ResetQueue(q: BackendQueue): (r: BackendQueue)
    requires q.Valid()
    ensures r.Valid() && r.qtype == q.qtype && r.familyIdx == q.familyIdx
    ensures r.cmdBufferGeneration == NextGeneration(q.cmdBufferGeneration) && r.cmdBufferManagerIndex != q.cmdBufferManagerIndex
    ensures var (m, m0) := (r.cmdBufferManagers[r.cmdBufferManagerIndex], q.cmdBufferManagers[r.cmdBufferManagerIndex]);
            m.cmdBuffers == [] && m.fences == [] &&
            m.cmdBufferFreeList == m0.cmdBufferFreeList + m0.cmdBuffers && m.fenceFreeList == m0.fenceFreeList + m0.fences &&
            m.OwnedCmdBuffers() == m0.OwnedCmdBuffers() && m.OwnedFences() == m0.OwnedFences()
    ensures r.cmdBufferManagers[q.cmdBufferManagerIndex] == q.cmdBufferManagers[q.cmdBufferManagerIndex]
  {
    FrameIndexAlternates(q.cmdBufferGeneration);
    var generation := NextGeneration(q.cmdBufferGeneration);
    var index := generation % FramesInFlight;
    var m := q.cmdBufferManagers[index];
    var m := if m.fences != [] then m.(fenceFreeList := m.fenceFreeList + m.fences, fences := []) else m;
    var m := m.(cmdBufferFreeList := m.cmdBufferFreeList + m.cmdBuffers, cmdBuffers := []);
    q.(cmdBufferGeneration := generation, cmdBufferManagerIndex := index,
       cmdBufferManagers := q.cmdBufferManagers[index := m])
  }

  /** A recorded command buffer: the queue's generation, its index in the manager, and the queue. */
  datatype CommandBuffer = CommandBuffer(generation: nat, cmdBufferIndex: nat, queueIndex: nat)

  /**
   * A command buffer for a manager: the last free one, else a newly allocated
   * one (`allocationOk` is the allocation's outcome, `created` its handle).
   * None when the allocation fails.
   */
  function TakeCommandBuffer(m: CommandBufferManager, created: Handle, allocationOk: bool): (r: Option<(CommandBufferManager, Handle)>)
    ensures r.None? <==> m.cmdBufferFreeList == [] && !allocationOk
    ensures r.Some? ==> r.value.0.cmdBuffers == m.cmdBuffers + [r.value.1] && r.value.0.fences == m.fences &&
                        r.value.0.fenceFreeList == m.fenceFreeList
    ensures r.Some? && m.cmdBufferFreeList != [] ==>
              r.value.1 == m.cmdBufferFreeList[|m.cmdBufferFreeList| - 1] &&
              r.value.0.cmdBufferFreeList == m.cmdBufferFreeList[..|m.cmdBufferFreeList| - 1] &&
              r.value.0.OwnedCmdBuffers() == m.OwnedCmdBuffers()
    ensures r.Some? && m.cmdBufferFreeList == [] ==>
              r.value.1 == created && r.value.0.OwnedCmdBuffers() == m.OwnedCmdBuffers() + multiset{created}
  {
    var free := m.cmdBufferFreeList;
    if free != [] then
      assert free == free[..|free| - 1] + [free[|free| - 1]];
      Some((m.(cmdBufferFreeList := free[..|free| - 1], cmdBuffers := m.cmdBuffers + [free[|free| - 1]]), free[|free| - 1]))
    else if allocationOk then
      Some((m.(cmdBuffers := m.cmdBuffers + [created]), created))
    else None
  }

  /** The backend's queues. */
  class Queues {
    var queues: seq<BackendQueue>

    ghost predicate Valid()
      reads this
    {
      |queues| < NotFound && forall k :: 0 <= k < |queues| ==> queues[k].Valid()
    }

    /** Every queue starts a new frame. */
    method ResetQueues()
      requires Valid()
      modifies this
      ensures Valid() && |queues| == |old(queues)|
      ensures forall k :: 0 <= k < |queues| ==> queues[k] == ResetQueue(old(queues[k]))
    {
      var i := 0;
      while i < |queues|
        invariant 0 <= i <= |queues| == |old(queues)|
        invariant forall k :: 0 <= k < i ==> queues[k] == ResetQueue(old(queues[k]))
        invariant forall k :: i <= k < |queues| ==> queues[k] == old(queues[k])
      {
        queues := queues[i := ResetQueue(queues[i])];
        i := i + 1;
      }
    }

    /**
     * Starts a command buffer on the first queue of the given type (the caller
     * guarantees one exists and that its current manager has fewer than 65535
     * command buffers). It is numbered by the manager's count before the call
     * and stamped with the queue's generation; the failed allocation of a new
     * one yields None and changes nothing.
     */
    method NewCommandBuffer(qtype: bv32, created: Handle, allocationOk: bool) returns (cmd: Option<CommandBuffer>)
      requires Valid() && FirstWithBits(BackendQueueTypes(queues), qtype) < |queues|
      requires var q := queues[FirstWithBits(BackendQueueTypes(queues), qtype)];
               |q.cmdBufferManagers[q.cmdBufferManagerIndex].cmdBuffers| < MaxCommandBuffersPerManager
      modifies this
      ensures Valid()
      ensures var k := FirstWithBits(BackendQueueTypes(old(queues)), qtype);
              var q := old(queues)[k];
              var m := q.cmdBufferManagers[q.cmdBufferManagerIndex];
              match TakeCommandBuffer(m, created, allocationOk)
              case None => cmd == None && queues == old(queues)
              case Some((m', _)) =>
                cmd == Some(CommandBuffer(q.cmdBufferGeneration, |m.cmdBuffers|, k)) &&
                queues == old(queues)[k := q.(cmdBufferManagers := q.cmdBufferManagers[q.cmdBufferManagerIndex := m'])]
    {
      var queueIndex := GetQueueIndex(queues, qtype);
      var q := queues[queueIndex];
      var m := q.cmdBufferManagers[q.cmdBufferManagerIndex];
      var result := CommandBuffer(q.cmdBufferGeneration, |m.cmdBuffers|, queueIndex);
      var taken := TakeCommandBuffer(m, created, allocationOk);
      if taken.None? {
        return None;
      }
      queues := queues[queueIndex := q.(cmdBufferManagers := q.cmdBufferManagers[q.cmdBufferManagerIndex := taken.value.0])];
      cmd := Some(result);
    }
  }
}
