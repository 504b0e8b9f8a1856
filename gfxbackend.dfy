// Bookkeeping of the Vulkan backend: the swapchain orientation transform,
// frame-age garbage collection, the block bump allocator, memory-type and
// queue-family searches, and the per-frame free lists of command buffers,
// fences and semaphores with the generation counter that selects them.
// Vulkan objects are opaque handles; creating one is a parameter of the
// operation that would create it.

module GfxBackend {
  import opened Wrappers
  import opened MathVector

  type Handle = nat

  const FramesInFlight: nat := 2
  const MaxGarbageCollectPerFrame: nat := 32
  const NotFound: nat := 0xFFFF_FFFF
  const Uint32Range: nat := 0x1_0000_0000

  // ---------------------------------------------------------------------------------
  // Orientation transform

  datatype FramebufferTransform = TransformNone | Rotate90 | Rotate180 | Rotate270

  /**
   * Maps a rectangle given in the application's view to the swapchain's
   * pre-rotated framebuffer of size bufferWidth x bufferHeight; rectangles not
   * aimed at the swapchain are returned as they are. Returns (position, size).
   */
  function TransformRectangle(x: int, y: int, w: int, h: int, isSwapchain: bool,
                              transform: FramebufferTransform, bufferWidth: int, bufferHeight: int): (r: (Int2, Int2))
    ensures !isSwapchain || transform == TransformNone ==> r == (Int2(x, y), Int2(w, h))
    ensures isSwapchain && (transform == Rotate90 || transform == Rotate270) ==> r.1 == Int2(h, w)
    ensures transform == Rotate180 ==> r.1 == Int2(w, h)
  {
    if !isSwapchain then (Int2(x, y), Int2(w, h))
    else
      match transform
      case TransformNone => (Int2(x, y), Int2(w, h))
      case Rotate90 =>
        var (bw, bh) := (bufferHeight, bufferWidth);
        (Int2(bw - h - y, x), Int2(h, w))
      case Rotate180 => (Int2(bufferWidth - w - x, bufferHeight - h - y), Int2(w, h))
      case Rotate270 =>
        var (bw, bh) := (bufferHeight, bufferWidth);
        (Int2(y, bh - w - x), Int2(h, w))
  }

  /**
   * Rotating by 90 degrees and then by 270 degrees in the rotated framebuffer
   * (whose sides are swapped) gives back the original rectangle.
   */
  lemma Rotate270UndoesRotate90(x: int, y: int, w: int, h: int, bw: int, bh: int)
    ensures var r := TransformRectangle(x, y, w, h, true, Rotate90, bw, bh);
            TransformRectangle(r.0.x, r.0.y, r.1.x, r.1.y, true, Rotate270, bh, bw) == (Int2(x, y), Int2(w, h))
  {
  }

  /** Rotating by 180 degrees twice in the same framebuffer is the identity. */
  lemma Rotate180IsInvolution(x: int, y: int, w: int, h: int, bw: int, bh: int)
    ensures var r := TransformRectangle(x, y, w, h, true, Rotate180, bw, bh);
            TransformRectangle(r.0.x, r.0.y, r.1.x, r.1.y, true, Rotate180, bw, bh) == (Int2(x, y), Int2(w, h))
  {
  }

  /**
   * A rectangle inside the bw x bh view lands inside the framebuffer: of the
   * same size for 180 degrees, of swapped size for 90 and 270 degrees.
   */
  lemma TransformKeepsRectangleInside(x: int, y: int, w: int, h: int, t: FramebufferTransform, bw: int, bh: int)
    requires 0 <= x && 0 <= y && 0 <= w && 0 <= h && x + w <= bw && y + h <= bh
    ensures var r := TransformRectangle(x, y, w, h, true, t, bw, bh);
            var (fw, fh) := if t == Rotate90 || t == Rotate270 then (bh, bw) else (bw, bh);
            0 <= r.0.x && r.0.x + r.1.x <= fw && 0 <= r.0.y && r.0.y + r.1.y <= fh
  {
  }

  // ---------------------------------------------------------------------------------
  // Garbage collection

  datatype GarbageType = Pipeline | PipelineLayout | DescriptorSetLayout | Buffer | Image | Sampler | ImageView

  /** A Vulkan object whose destruction waits until the GPU can no longer use it. */
  datatype Garbage = Garbage(kind: GarbageType, frameIdx: nat, handle: Handle)

  /** An entry may be destroyed when forced, or once more than FramesInFlight frames have passed. */
  predicate Expired(g: Garbage, frameIdx: nat, force: bool)
  {
    force || frameIdx > g.frameIdx + FramesInFlight
  }

  /**
   * One collection pass over `entries`, `count` entries having been destroyed
   * already: returns the entries kept, in order, and those destroyed. Unless
   * forced, the pass stops once MaxGarbageCollectPerFrame are destroyed.
   */
  function Collect(entries: seq<Garbage>, frameIdx: nat, force: bool, count: nat): (seq<Garbage>, seq<Garbage>)
    decreases |entries|
  {
    if entries == [] || (count >= MaxGarbageCollectPerFrame && !force) then (entries, [])
    else
      var rest := Collect(entries[1..], frameIdx, force, if Expired(entries[0], frameIdx, force) then count + 1 else count);
      if Expired(entries[0], frameIdx, force) then (rest.0, [entries[0]] + rest.1)
      else ([entries[0]] + rest.0, rest.1)
  }

  /**
   * A pass loses and invents nothing: kept and destroyed entries together are
   * the original ones; only expired entries are destroyed; and unless forced
   * at most MaxGarbageCollectPerFrame are destroyed in a frame.
   */
  lemma {:induction false} CollectPartitions(entries: seq<Garbage>, frameIdx: nat, force: bool, count: nat)
    ensures var r := Collect(entries, frameIdx, force, count);
            multiset(r.0) + multiset(r.1) == multiset(entries) &&
            (forall g :: g in r.1 ==> Expired(g, frameIdx, force)) &&
            (!force ==> count + |r.1| <= Max(count, MaxGarbageCollectPerFrame))
    decreases |entries|
  {
    if entries != [] && (count < MaxGarbageCollectPerFrame || force) {
      var expired := Expired(entries[0], frameIdx, force);
      CollectPartitions(entries[1..], frameIdx, force, if expired then count + 1 else count);
      assert entries == [entries[0]] + entries[1..];
    }
  }

  /** A forced collection destroys every entry. */
  lemma {:induction false} ForcedCollectDestroysAll(entries: seq<Garbage>, frameIdx: nat, count: nat)
    ensures Collect(entries, frameIdx, true, count) == ([], entries)
    decreases |entries|
  {
    if entries != [] {
      ForcedCollectDestroysAll(entries[1..], frameIdx, count + 1);
      assert entries == [entries[0]] + entries[1..];
    }
  }

  /** An entry that has not expired is never destroyed: it is kept. */
  lemma {:induction false} CollectKeepsLiveEntries(entries: seq<Garbage>, frameIdx: nat, force: bool, count: nat, g: Garbage)
    requires g in entries && !Expired(g, frameIdx, force)
    ensures g in Collect(entries, frameIdx, force, count).0
    decreases |entries|
  {
    var r := Collect(entries, frameIdx, force, count);
    CollectPartitions(entries, frameIdx, force, count);
    assert g in multiset(r.0) + multiset(r.1);
    if g in r.1 {
      assert false;
    }
  }

  /**
   * When fewer than MaxGarbageCollectPerFrame entries are expired, a pass
   * destroys exactly the expired ones and keeps the others in order.
   */
  lemma {:induction false} CollectUnderLimit(entries: seq<Garbage>, frameIdx: nat, count: nat)
    requires count + |Expireds(entries, frameIdx)| < MaxGarbageCollectPerFrame
    ensures Collect(entries, frameIdx, false, count) == (Lives(entries, frameIdx), Expireds(entries, frameIdx))
    decreases |entries|
  {
    if entries != [] {
      var c := if Expired(entries[0], frameIdx, false) then count + 1 else count;
      CollectUnderLimit(entries[1..], frameIdx, c);
    }
  }

  /** The entries that have not expired, in order. */
  function Lives(entries: seq<Garbage>, frameIdx: nat): seq<Garbage>
  {
    if entries == [] then []
    else if Expired(entries[0], frameIdx, false) then Lives(entries[1..], frameIdx)
    else [entries[0]] + Lives(entries[1..], frameIdx)
  }

  /** The expired entries, in order. */
  function Expireds(entries: seq<Garbage>, frameIdx: nat): seq<Garbage>
  {
    if entries == [] then []
    else if Expired(entries[0], frameIdx, false) then [entries[0]] + Expireds(entries[1..], frameIdx)
    else Expireds(entries[1..], frameIdx)
  }

  /** The backend's list of objects awaiting destruction. */
  class GarbageList {
    var garbage: seq<Garbage>

    constructor ()
      ensures garbage == []
    {
      garbage := [];
    }

    /**
     * Walks the list, destroying (and removing in place, keeping the order of
     * the rest) every expired entry, at most MaxGarbageCollectPerFrame of them
     * unless forced. Returns the destroyed entries.
     */
    method CollectGarbage(frameIdx: nat, force: bool) returns (destroyed: seq<Garbage>)
      modifies this
      ensures (garbage, destroyed) == Collect(old(garbage), frameIdx, force, 0)
    {
      garbage, destroyed := CollectEntries(garbage, frameIdx, force);
    }
  }

  /**
   * The collection pass over the list: every expired entry is destroyed and
   * removed in place, the rest keep their order; at most
   * MaxGarbageCollectPerFrame entries are destroyed unless forced.
   */
  method CollectEntries(entries: seq<Garbage>, frameIdx: nat, force: bool) returns (kept: seq<Garbage>, destroyed: seq<Garbage>)
    ensures (kept, destroyed) == Collect(entries, frameIdx, force, 0)
  {
    kept, destroyed := entries, [];
    var destroyCount := 0;
    var i := 0;
    ghost var keptAll := Collect(entries, frameIdx, force, 0).0;
    ghost var destroyedAll := Collect(entries, frameIdx, force, 0).1;
    assert kept[..0] + keptAll == keptAll && [] + destroyedAll == destroyedAll && kept[0..] == kept;
    while i < |kept| && (destroyCount < MaxGarbageCollectPerFrame || force)
      invariant 0 <= i <= |kept| && destroyCount == |destroyed|
      invariant keptAll == kept[..i] + Collect(kept[i..], frameIdx, force, destroyCount).0
      invariant destroyedAll == destroyed + Collect(kept[i..], frameIdx, force, destroyCount).1
      decreases |kept| - i
    {
      if Expired(kept[i], frameIdx, force) {
        CollectDropStep(kept, i, frameIdx, force, destroyCount);
        destroyed := destroyed + [kept[i]];
        kept := kept[..i] + kept[i + 1..];
        destroyCount := destroyCount + 1;
      } else {
        CollectKeepStep(kept, i, frameIdx, force, destroyCount);
        i := i + 1;
      }
    }
    assert Collect(kept[i..], frameIdx, force, destroyCount) == (kept[i..], []);
    assert kept[..i] + kept[i..] == kept && destroyed + [] == destroyed;
  }

  /** Keeping the live entry at i moves it from the unscanned part to the kept prefix. */
  lemma CollectKeepStep(entries: seq<Garbage>, i: nat, frameIdx: nat, force: bool, count: nat)
    requires i < |entries| && (count < MaxGarbageCollectPerFrame || force) && !Expired(entries[i], frameIdx, force)
    ensures entries[..i] + Collect(entries[i..], frameIdx, force, count).0 ==
            entries[..i + 1] + Collect(entries[i + 1..], frameIdx, force, count).0
    ensures Collect(entries[i..], frameIdx, force, count).1 == Collect(entries[i + 1..], frameIdx, force, count).1
  {
    CollectStep(entries[i..], frameIdx, force, count);
    assert entries[i..][1..] == entries[i + 1..];
    assert entries[..i + 1] == entries[..i] + [entries[i]];
  }

  /** Destroying the expired entry at i removes it and moves it to the destroyed list. */
  lemma CollectDropStep(entries: seq<Garbage>, i: nat, frameIdx: nat, force: bool, count: nat)
    requires i < |entries| && (count < MaxGarbageCollectPerFrame || force) && Expired(entries[i], frameIdx, force)
    ensures var next := entries[..i] + entries[i + 1..];
            next[..i] == entries[..i] && next[i..] == entries[i + 1..] &&
            Collect(entries[i..], frameIdx, force, count).0 == Collect(entries[i + 1..], frameIdx, force, count + 1).0 &&
            Collect(entries[i..], frameIdx, force, count).1 == [entries[i]] + Collect(entries[i + 1..], frameIdx, force, count + 1).1
  {
    CollectStep(entries[i..], frameIdx, force, count);
    assert entries[i..][1..] == entries[i + 1..];
    RemoveAtSlices(entries, i);
  }

  /** Removing the element at i leaves the prefix before it and the suffix after it. */
  lemma RemoveAtSlices<T>(s: seq<T>, i: nat)
    requires i < |s|
    ensures (s[..i] + s[i + 1..])[..i] == s[..i] && (s[..i] + s[i + 1..])[i..] == s[i + 1..]
  {
  }

  /** One step of a collection pass that has not stopped yet. */
  lemma CollectStep(entries: seq<Garbage>, frameIdx: nat, force: bool, count: nat)
    requires entries != [] && (count < MaxGarbageCollectPerFrame || force)
    ensures var e := entries[0];
            var expired := Expired(e, frameIdx, force);
            var rest := Collect(entries[1..], frameIdx, force, if expired then count + 1 else count);
            Collect(entries, frameIdx, force, count) == if expired then (rest.0, [e] + rest.1) else ([e] + rest.0, rest.1)
  {
  }

  // ---------------------------------------------------------------------------------
  // Block bump allocator

  /** Bit `index` of a memory-type mask. */
  predicate TypeBitSet(bits: bv32, index: nat)
    requires index < 32
  {
    (bits >> index) & 1 != 0
  }

  /** The cursor rounded up to the alignment when it is not already aligned. */
  function AlignedCursor(offset: nat, alignment: nat): (r: nat)
    requires alignment > 0
    ensures r % alignment == 0 && offset <= r < offset + alignment
  {
    if offset % alignment != 0 then AlignValue(offset, alignment) else offset
  }

  /**
   * The block chosen for an allocation: the highest-numbered block below i
   * whose aligned cursor leaves room for size bytes, with that aligned offset.
   */
  function FindFit(offsets: seq<nat>, blockSize: nat, size: nat, alignment: nat, i: nat): (r: Option<(nat, nat)>)
    requires alignment > 0 && i <= |offsets|
    ensures r.Some? ==> r.value.0 < i && r.value.1 == AlignedCursor(offsets[r.value.0], alignment) &&
                        r.value.1 + size <= blockSize &&
                        forall j :: r.value.0 < j < i ==> AlignedCursor(offsets[j], alignment) + size > blockSize
    ensures r.None? ==> forall j :: 0 <= j < i ==> AlignedCursor(offsets[j], alignment) + size > blockSize
  {
    if i == 0 then None
    else if AlignedCursor(offsets[i - 1], alignment) + size <= blockSize then Some((i - 1, AlignedCursor(offsets[i - 1], alignment)))
    else FindFit(offsets, blockSize, size, alignment, i - 1)
  }

  /** A sub-allocation: the block it lives in and its offset there. */
  datatype DeviceMemory = DeviceMemory(block: nat, offset: nat)

  /**
   * Linear allocator over a growing list of fixed-size device-memory blocks of
   * one memory type; only the blocks' cursors are modelled.
   */
  class MemoryBumpAllocator {
    const blockSize: nat
    const memTypeIndex: nat
    var blockOffsets: seq<nat>
    var capacity: nat

    ghost predicate Valid()
      reads this
    {
      memTypeIndex < 32 && forall b :: 0 <= b < |blockOffsets| ==> blockOffsets[b] <= blockSize
    }

    /** Initialisation with its first block (whose creation succeeded). */
    constructor (blockSize: nat, memTypeIndex: nat)
      requires memTypeIndex < 32
      ensures Valid() && blockOffsets == [0] && capacity == blockSize
      ensures this.blockSize == blockSize && this.memTypeIndex == memTypeIndex
    {
      this.blockSize, this.memTypeIndex := blockSize, memTypeIndex;
      blockOffsets, capacity := [0], blockSize;
    }

    /**
     * Allocates size bytes at the given alignment. Fails without a change when
     * the memory type is not allowed or the request is larger than a block.
     * Otherwise tries the blocks from the last to the first; if none has room a
     * new block is appended (its creation may fail, `blockCreated`), and the
     * allocation goes at its start. The chosen block's cursor moves past it.
     */
    method Malloc(memoryTypeBits: bv32, size: nat, alignment: nat, blockCreated: bool) returns (mem: Option<DeviceMemory>)
      requires Valid() && alignment > 0
      modifies this
      ensures Valid()
      ensures !TypeBitSet(memoryTypeBits, memTypeIndex) || size > blockSize ==>
                mem == None && blockOffsets == old(blockOffsets) && capacity == old(capacity)
      ensures TypeBitSet(memoryTypeBits, memTypeIndex) && size <= blockSize ==>
                match FindFit(old(blockOffsets), blockSize, size, alignment, |old(blockOffsets)|)
                case Some((b, offset)) =>
                  mem == Some(DeviceMemory(b, offset)) && blockOffsets == old(blockOffsets)[b := offset + size] &&
                  capacity == old(capacity)
                case None =>
                  if blockCreated then
                    mem == Some(DeviceMemory(|old(blockOffsets)|, 0)) && blockOffsets == old(blockOffsets) + [size] &&
                    capacity == old(capacity) + blockSize
                  else
                    mem == None && blockOffsets == old(blockOffsets) + [0] && capacity == old(capacity)
    {
      if !TypeBitSet(memoryTypeBits, memTypeIndex) || size > blockSize {
        return None;
      }
      var found := false;
      var block, offset := 0, 0;
      var i := |blockOffsets|;
      while i > 0
        invariant 0 <= i <= |blockOffsets|
        invariant FindFit(blockOffsets, blockSize, size, alignment, |blockOffsets|) ==
                  FindFit(blockOffsets, blockSize, size, alignment, i)
        decreases i
      {
        i := i - 1;
        offset := blockOffsets[i];
        if offset % alignment != 0 {
          offset := AlignValue(offset, alignment);
        }
        if offset + size <= blockSize {
          block, found := i, true;
          break;
        }
      }
      if !found {
        blockOffsets := blockOffsets + [0];
        if !blockCreated {
          return None;
        }
        capacity := capacity + blockSize;
        block, offset := |blockOffsets| - 1, 0;
      }
      blockOffsets := blockOffsets[block := offset + size];
      mem := Some(DeviceMemory(block, offset));
    }

    /** Rewinds every block's cursor to 0, keeping the blocks. */
    method Reset()
      requires Valid()
      modifies this
      ensures Valid() && |blockOffsets| == |old(blockOffsets)| && capacity == old(capacity)
      ensures forall b :: 0 <= b < |blockOffsets| ==> blockOffsets[b] == 0
    {
      blockOffsets := seq(|blockOffsets|, b => 0);
    }
  }

  /**
   * The device-memory manager's per-frame part: one transient CPU allocator per
   * frame-in-flight slot, and the slot whose allocator staging uploads use.
   */
  class DeviceMemoryManager {
    const transientCPU: seq<MemoryBumpAllocator>
    var stagingIndex: nat

    ghost predicate Valid()
      reads this, transientCPU
    {
      |transientCPU| == FramesInFlight && stagingIndex < FramesInFlight &&
      (forall i :: 0 <= i < |transientCPU| ==> transientCPU[i].Valid()) &&
      forall i, j :: 0 <= i < j < |transientCPU| ==> transientCPU[i] != transientCPU[j]
    }

    /** Initialisation (every allocator creation succeeded): a fresh transient allocator per slot, staging on slot 0. */
    constructor (blockSize: nat, memTypeIndex: nat)
      requires memTypeIndex < 32
      ensures Valid() && stagingIndex == 0
      ensures forall i :: 0 <= i < |transientCPU| ==> fresh(transientCPU[i]) && transientCPU[i].blockOffsets == [0]
    {
      var a0 := new MemoryBumpAllocator(blockSize, memTypeIndex);
      var a1 := new MemoryBumpAllocator(blockSize, memTypeIndex);
      transientCPU := [a0, a1];
      stagingIndex := 0;
    }

    /**
     * Makes the slot's transient memory reusable: its allocator's cursors go back
     * to 0 and staging moves to that slot. The other slot's allocator is untouched.
     */
    method ResetTransientAllocators(frameIndex: nat)
      requires Valid() && frameIndex < FramesInFlight
      modifies this, transientCPU[frameIndex]
      ensures Valid() && stagingIndex == frameIndex
      ensures |transientCPU[frameIndex].blockOffsets| == |old(transientCPU[frameIndex].blockOffsets)|
      ensures forall b :: 0 <= b < |transientCPU[frameIndex].blockOffsets| ==> transientCPU[frameIndex].blockOffsets[b] == 0
      ensures forall j :: 0 <= j < |transientCPU| && j != frameIndex ==> unchanged(transientCPU[j])
    {
      transientCPU[frameIndex].Reset();
      stagingIndex := frameIndex;
    }
  }

  /**
   * An allocation the allocator hands out is aligned, lies inside its block
   * and starts at or after the block's previous cursor, so it cannot overlap
   * an earlier allocation of the same frame.
   */
  lemma FindFitIsFreshAndAligned(offsets: seq<nat>, blockSize: nat, size: nat, alignment: nat)
    requires alignment > 0
    requires FindFit(offsets, blockSize, size, alignment, |offsets|).Some?
    ensures var (b, offset) := FindFit(offsets, blockSize, size, alignment, |offsets|).value;
            b < |offsets| && offset % alignment == 0 && offsets[b] <= offset && offset + size <= blockSize
  {
  }

  // ---------------------------------------------------------------------------------
  // Memory-type search

  const MemoryHeapDeviceLocalBit: bv32 := 0x1

  datatype MemoryType = MemoryType(propertyFlags: bv32, heapIndex: nat)

  /** The device's memory types and the flags of its heaps. */
  datatype MemoryProperties = MemoryProperties(memoryTypes: seq<MemoryType>, heapFlags: seq<bv32>)
  {
    ghost predicate Valid()
    {
      |memoryTypes| < NotFound && forall i :: 0 <= i < |memoryTypes| ==> memoryTypes[i].heapIndex < |heapFlags|
    }
  }

  /** Type i may be used: either any heap will do, or its heap is device-local. */
  predicate HeapAllowed(props: MemoryProperties, localDeviceHeap: bool, i: nat)
    requires props.Valid() && i < |props.memoryTypes|
  {
    !localDeviceHeap || props.heapFlags[props.memoryTypes[i].heapIndex] & MemoryHeapDeviceLocalBit != 0
  }

  /** The two masks share at least one bit. */
  predicate HasAnyBits(flags: bv32, bits: bv32)
  {
    flags & bits != 0
  }

  /** Type i is a candidate of the exact pass (exact) or of the overlapping pass (!exact). */
  predicate Matches(props: MemoryProperties, flags: bv32, localDeviceHeap: bool, exact: bool, i: nat)
    requires props.Valid() && i < |props.memoryTypes|
  {
    HeapAllowed(props, localDeviceHeap, i) &&
    if exact then props.memoryTypes[i].propertyFlags == flags else HasAnyBits(props.memoryTypes[i].propertyFlags, flags)
  }

  /** The least candidate index from `from` on, if there is one. */
  function FirstMatch(props: MemoryProperties, flags: bv32, localDeviceHeap: bool, exact: bool, from: nat): (r: Option<nat>)
    requires props.Valid() && from <= |props.memoryTypes|
    ensures r.Some? ==> from <= r.value < |props.memoryTypes| && Matches(props, flags, localDeviceHeap, exact, r.value) &&
                        forall j :: from <= j < r.value ==> !Matches(props, flags, localDeviceHeap, exact, j)
    ensures r.None? ==> forall j :: from <= j < |props.memoryTypes| ==> !Matches(props, flags, localDeviceHeap, exact, j)
    decreases |props.memoryTypes| - from
  {
    if from == |props.memoryTypes| then None
    else if Matches(props, flags, localDeviceHeap, exact, from) then Some(from)
    else FirstMatch(props, flags, localDeviceHeap, exact, from + 1)
  }

  /** One search for the flags: the first exact match, else the first overlapping one. */
  function PreferredType(props: MemoryProperties, flags: bv32, localDeviceHeap: bool): Option<nat>
    requires props.Valid()
  {
    var exact := FirstMatch(props, flags, localDeviceHeap, true, 0);
    if exact.Some? then exact else FirstMatch(props, flags, localDeviceHeap, false, 0)
  }

  /** The type chosen for the flags, searching again with the fallback flags when they are non-zero. */
  function MemoryTypeFor(props: MemoryProperties, flags: bv32, localDeviceHeap: bool, fallbackFlags: bv32): Option<nat>
    requires props.Valid()
  {
    var r := PreferredType(props, flags, localDeviceHeap);
    if r.None? && fallbackFlags != 0 then PreferredType(props, fallbackFlags, localDeviceHeap) else r
  }

  /**
   * One pass of the memory-type search: the first type, skipping those of
   * non-device-local heaps when asked, whose flags equal (exact) or share a
   * bit with (!exact) the requested ones.
   */
  method SearchMemoryTypes(props: MemoryProperties, flags: bv32, localDeviceHeap: bool, exact: bool) returns (index: Option<nat>)
    requires props.Valid()
    ensures index == FirstMatch(props, flags, localDeviceHeap, exact, 0)
  {
    var i := 0;
    while i < |props.memoryTypes|
      invariant 0 <= i <= |props.memoryTypes|
      invariant FirstMatch(props, flags, localDeviceHeap, exact, 0) == FirstMatch(props, flags, localDeviceHeap, exact, i)
    {
      var t := props.memoryTypes[i];
      if localDeviceHeap && props.heapFlags[t.heapIndex] & MemoryHeapDeviceLocalBit == 0 {
        assert !Matches(props, flags, localDeviceHeap, exact, i);
        i := i + 1;
        continue;
      }
      if (exact && t.propertyFlags == flags) || (!exact && HasAnyBits(t.propertyFlags, flags)) {
        assert Matches(props, flags, localDeviceHeap, exact, i);
        return Some(i);
      }
      i := i + 1;
    }
    return None;
  }

  /**
   * The memory-type search: an exact flag match first, then any overlapping
   * match; failing both, the same search with the fallback flags; else NotFound.
   */
  method FindDeviceMemoryType(props: MemoryProperties, flags: bv32, localDeviceHeap: bool, fallbackFlags: bv32) returns (index: nat)
    requires props.Valid()
    ensures MemoryTypeFor(props, flags, localDeviceHeap, fallbackFlags).Some? ==>
              index == MemoryTypeFor(props, flags, localDeviceHeap, fallbackFlags).value
    ensures MemoryTypeFor(props, flags, localDeviceHeap, fallbackFlags).None? ==> index == NotFound
    decreases if fallbackFlags != 0 then 1 else 0
  {
    var found := SearchMemoryTypes(props, flags, localDeviceHeap, true);
    if found.Some? {
      return found.value;
    }
    found := SearchMemoryTypes(props, flags, localDeviceHeap, false);
    if found.Some? {
      return found.value;
    }
    if fallbackFlags != 0 {
      index := FindDeviceMemoryType(props, fallbackFlags, localDeviceHeap, 0);
      return;
    }
    return NotFound;
  }

  /**
   * What the search promises: the type found is allowed and carries exactly,
   * or shares some of, the requested or the fallback flags; an exact match,
   * when one exists, wins; and nothing is found only when no allowed type
   * shares a bit with the flags (nor with non-zero fallback flags).
   */
  lemma MemoryTypeForSound(props: MemoryProperties, flags: bv32, localDeviceHeap: bool, fallbackFlags: bv32)
    requires props.Valid()
    ensures var r := MemoryTypeFor(props, flags, localDeviceHeap, fallbackFlags);
            r.Some? ==> r.value < |props.memoryTypes| && HeapAllowed(props, localDeviceHeap, r.value) &&
                        (Matches(props, flags, localDeviceHeap, true, r.value) ||
                         Matches(props, flags, localDeviceHeap, false, r.value) ||
                         Matches(props, fallbackFlags, localDeviceHeap, true, r.value) ||
                         Matches(props, fallbackFlags, localDeviceHeap, false, r.value))
    ensures forall i :: 0 <= i < |props.memoryTypes| && Matches(props, flags, localDeviceHeap, true, i) ==>
              var r := MemoryTypeFor(props, flags, localDeviceHeap, fallbackFlags);
              r.Some? && r.value <= i && Matches(props, flags, localDeviceHeap, true, r.value)
    ensures MemoryTypeFor(props, flags, localDeviceHeap, fallbackFlags).None? ==>
              forall i :: 0 <= i < |props.memoryTypes| ==>
                !Matches(props, flags, localDeviceHeap, false, i) &&
                (fallbackFlags != 0 ==> !Matches(props, fallbackFlags, localDeviceHeap, false, i))
  {
  }

  // ---------------------------------------------------------------------------------
  // Queue families and queues

  const QueueNone: bv32 := 0x0
  const QueueGraphics: bv32 := 0x1
  const QueueCompute: bv32 := 0x2
  const QueueComputeAsync: bv32 := 0x4
  const QueueTransfer: bv32 := 0x8
  const QueuePresent: bv32 := 0x10

  /** All bits of `bits` are set in `flags`. */
  predicate IsBitsSet(flags: bv32, bits: bv32)
  {
    flags & bits == bits
  }

  datatype QueueFamily = QueueFamily(qtype: bv32, count: nat)

  /** Family i can serve the request: it has the type bits and queues, is not excluded and lacks the unwanted bits. */
  predicate FamilyAcceptable(families: seq<QueueFamily>, i: nat, qtype: bv32, preferNotHave: bv32, excludes: seq<nat>)
    requires i < |families|
  {
    IsBitsSet(families[i].qtype, qtype) && families[i].count > 0 && i !in excludes &&
    (preferNotHave == QueueNone || !IsBitsSet(families[i].qtype, preferNotHave))
  }

  /** The lowest acceptable family index, or NotFound. */
  method AssignQueueFamily(families: seq<QueueFamily>, qtype: bv32, preferNotHave: bv32, excludes: seq<nat>)
    returns (familyIndex: nat)
    requires 0 < |families| < NotFound
    ensures familyIndex == NotFound <==> forall i :: 0 <= i < |families| ==> !FamilyAcceptable(families, i, qtype, preferNotHave, excludes)
    ensures familyIndex != NotFound ==>
              familyIndex < |families| && FamilyAcceptable(families, familyIndex, qtype, preferNotHave, excludes) &&
              forall j :: 0 <= j < familyIndex ==> !FamilyAcceptable(families, j, qtype, preferNotHave, excludes)
  {
    familyIndex := NotFound;
    var i := 0;
    while i < |families|
      invariant 0 <= i <= |families|
      invariant forall j :: 0 <= j < i ==> !FamilyAcceptable(families, j, qtype, preferNotHave, excludes)
    {
      if IsBitsSet(families[i].qtype, qtype) && families[i].count > 0 {
        var isExcluded := false;
        var k := 0;
        while k < |excludes|
          invariant 0 <= k <= |excludes|
          invariant isExcluded <==> i in excludes[..k]
        {
          if excludes[k] == i {
            isExcluded := true;
            assert i in excludes[..k + 1];
            break;
          }
          assert excludes[..k + 1] == excludes[..k] + [excludes[k]];
          k := k + 1;
        }
        assert !isExcluded ==> excludes[..k] == excludes;
        if !isExcluded {
          assert i !in excludes;
          if preferNotHave != QueueNone {
            if !IsBitsSet(families[i].qtype, preferNotHave) {
              assert FamilyAcceptable(families, i, qtype, preferNotHave, excludes);
              return i;
            }
          } else {
            assert FamilyAcceptable(families, i, qtype, preferNotHave, excludes);
            return i;
          }
        }
      }
      i := i + 1;
    }
  }

  /** The position of the first mask that has all the requested bits, |types| when there is none. */
  function FirstWithBits(types: seq<bv32>, qtype: bv32): (r: nat)
    ensures r <= |types| && (r < |types| ==> IsBitsSet(types[r], qtype))
    ensures forall j :: 0 <= j < r ==> !IsBitsSet(types[j], qtype)
  {
    if types == [] then 0
    else if IsBitsSet(types[0], qtype) then 0
    else 1 + FirstWithBits(types[1..], qtype)
  }

  /** The first queue whose type has all the requested bits, or NotFound. */
  method FindQueue(queueTypes: seq<bv32>, qtype: bv32) returns (index: nat)
    requires |queueTypes| < NotFound
    ensures index == if FirstWithBits(queueTypes, qtype) < |queueTypes| then FirstWithBits(queueTypes, qtype) else NotFound
  {
    var i := 0;
    while i < |queueTypes|
      invariant 0 <= i <= |queueTypes|
      invariant forall j :: 0 <= j < i ==> !IsBitsSet(queueTypes[j], qtype)
    {
      if IsBitsSet(queueTypes[i], qtype) {
        FirstWithBitsIsLeast(queueTypes, qtype, i);
        return i;
      }
      i := i + 1;
    }
    FirstWithBitsIsLeast(queueTypes, qtype, |queueTypes|);
    return NotFound;
  }

  /** A position before which no mask has the bits, and which has them (or is the end), is the first. */
  lemma FirstWithBitsIsLeast(types: seq<bv32>, qtype: bv32, k: nat)
    requires k <= |types| && (k < |types| ==> IsBitsSet(types[k], qtype))
    requires forall j :: 0 <= j < k ==> !IsBitsSet(types[j], qtype)
    ensures FirstWithBits(types, qtype) == k
  {
  }

  // ---------------------------------------------------------------------------------
  // Per-frame free lists
  //
  // A queue holds, by value, one command-buffer context and one semaphore bank
  // per frame in flight, and the manager holds its queues by value: they are
  // datatypes here, and the manager's methods reassign them.

  /** Semaphores of one queue and frame: those handed out this frame and those free for reuse. */
  datatype SemaphoreBank = SemaphoreBank(semaphores: seq<Handle>, semaphoreFreeList: seq<Handle>)
  {
    /** Every semaphore the bank owns. */
    function Owned(): multiset<Handle>
    {
      multiset(semaphores) + multiset(semaphoreFreeList)
    }
  }

  /**
   * Takes the last free semaphore, or the newly `created` one when none is
   * free, and records it as in use. Returns the new bank and the semaphore.
   */
  function GetSemaphore(bank: SemaphoreBank, created: Handle): (r: (SemaphoreBank, Handle))
    ensures r.0.semaphores == bank.semaphores + [r.1]
    ensures bank.semaphoreFreeList != [] ==>
              r.1 == bank.semaphoreFreeList[|bank.semaphoreFreeList| - 1] && r.1 in bank.semaphoreFreeList &&
              r.0.semaphoreFreeList == bank.semaphoreFreeList[..|bank.semaphoreFreeList| - 1] &&
              r.0.Owned() == bank.Owned()
    ensures bank.semaphoreFreeList == [] ==>
              r.1 == created && r.0.semaphoreFreeList == [] && r.0.Owned() == bank.Owned() + multiset{created}
  {
    var free := bank.semaphoreFreeList;
    if free != [] then
      assert free == free[..|free| - 1] + [free[|free| - 1]];
      (SemaphoreBank(bank.semaphores + [free[|free| - 1]], free[..|free| - 1]), free[|free| - 1])
    else
      (SemaphoreBank(bank.semaphores + [created], []), created)
  }

  /** Returns every in-use semaphore to the free list: none is in use afterwards and none is lost. */
  function ResetSemaphores(bank: SemaphoreBank): (r: SemaphoreBank)
    ensures r.semaphores == [] && r.Owned() == bank.Owned()
    ensures r.semaphoreFreeList == bank.semaphoreFreeList + bank.semaphores
  {
    SemaphoreBank([], bank.semaphoreFreeList + bank.semaphores)
  }

  /** The command buffers and fences of one queue for one frame in flight. */
  datatype CommandBufferContext = CommandBufferContext(
    cmdBufferFreeList: seq<Handle>,
    cmdBuffers: seq<Handle>,
    fenceFreeList: seq<Handle>,
    fences: seq<Handle>,
    /** cmdBuffers[..cmdBufferIndex] have been submitted. */
    cmdBufferIndex: nat)
  {
    ghost predicate Valid()
    {
      cmdBufferIndex <= |cmdBuffers|
    }

    /** Every command buffer the context owns. */
    function OwnedCmdBuffers(): multiset<Handle>
    {
      multiset(cmdBuffers) + multiset(cmdBufferFreeList)
    }

    /** Every fence the context owns. */
    function OwnedFences(): multiset<Handle>
    {
      multiset(fences) + multiset(fenceFreeList)
    }
  }

  /**
   * The context's part of BeginFrame once its fences have signalled: all
   * fences and command buffers go back to the free lists (nothing is lost)
   * and nothing is pending.
   */
  function ResetForFrame(c: CommandBufferContext): (r: CommandBufferContext)
    ensures r.Valid() && r.cmdBuffers == [] && r.fences == [] && r.cmdBufferIndex == 0
    ensures r.fenceFreeList == c.fenceFreeList + c.fences && r.cmdBufferFreeList == c.cmdBufferFreeList + c.cmdBuffers
    ensures r.OwnedCmdBuffers() == c.OwnedCmdBuffers() && r.OwnedFences() == c.OwnedFences()
  {
    var c := if c.fences != [] then c.(fenceFreeList := c.fenceFreeList + c.fences, fences := []) else c;
    c.(cmdBufferFreeList := c.cmdBufferFreeList + c.cmdBuffers, cmdBuffers := [], cmdBufferIndex := 0)
  }

  /**
   * Takes the command buffers recorded since the last submit. Yields None and
   * the same context when there are none; otherwise the new context, in which
   * they are all marked submitted, with the batch and its fence: the last free
   * fence, else the newly `created` one, now in use.
   */
  function TakeSubmission(c: CommandBufferContext, created: Handle): (r: (CommandBufferContext, Option<(seq<Handle>, Handle)>))
    requires c.Valid()
    ensures r.0.Valid() && r.0.cmdBufferIndex == |r.0.cmdBuffers|
    ensures c.cmdBufferIndex == |c.cmdBuffers| <==> r.1 == None
    ensures r.1 == None ==> r.0 == c
    ensures r.1.Some? ==>
              r.1.value.0 == c.cmdBuffers[c.cmdBufferIndex..] && |r.1.value.0| > 0 &&
              r.0.cmdBuffers == c.cmdBuffers && r.0.cmdBufferFreeList == c.cmdBufferFreeList &&
              r.0.fences == c.fences + [r.1.value.1] &&
              (c.fenceFreeList != [] ==> r.1.value.1 == c.fenceFreeList[|c.fenceFreeList| - 1] && r.0.OwnedFences() == c.OwnedFences()) &&
              (c.fenceFreeList == [] ==> r.1.value.1 == created && r.0.OwnedFences() == c.OwnedFences() + multiset{created})
  {
    if |c.cmdBuffers| - c.cmdBufferIndex == 0 then (c, None)
    else
      var submitted := c.cmdBuffers[c.cmdBufferIndex..];
      var free := c.fenceFreeList;
      var (fence, freeAfter) := if free != [] then (free[|free| - 1], free[..|free| - 1]) else (created, free);
      assert free != [] ==> free == freeAfter + [fence];
      (c.(cmdBufferIndex := |c.cmdBuffers|, fenceFreeList := freeAfter, fences := c.fences + [fence]), Some((submitted, fence)))
  }

  /** The next value of the 32-bit frame generation counter. */
  function NextGeneration(generation: nat): (g: nat)
    requires generation < Uint32Range
    ensures g < Uint32Range && (generation + 1 < Uint32Range ==> g == generation + 1)
  {
    (generation + 1) % Uint32Range
  }

  /**
   * Consecutive frames always use different frame-in-flight slots, also when
   * the 32-bit generation counter wraps around (2^32 is even).
   */
  lemma FrameIndexAlternates(generation: nat)
    requires generation < Uint32Range
    ensures NextGeneration(generation) % FramesInFlight != generation % FramesInFlight
    ensures NextGeneration(NextGeneration(generation)) % FramesInFlight == generation % FramesInFlight
  {
    if generation + 1 == Uint32Range {
      assert NextGeneration(generation) == 0;
    }
    if generation + 2 >= Uint32Range {
      assert NextGeneration(NextGeneration(generation)) == generation + 2 - Uint32Range;
    }
  }

  /** What the submission thread receives for one batch. */
  datatype SubmitRequest = SubmitRequest(qtype: bv32, cmdBuffers: seq<Handle>, dependents: bv32, fence: Handle, semaphore: Handle)

  /** A queue with one command-buffer context and one semaphore bank per frame in flight. */
  datatype Queue = Queue(
    qtype: bv32,
    cmdBufferContexts: seq<CommandBufferContext>,
    semaphoreBanks: seq<SemaphoreBank>,
    /** Queues that must wait for this queue's next submission. */
    internalDependents: bv32)
  {
    ghost predicate Valid()
    {
      |cmdBufferContexts| == FramesInFlight && |semaphoreBanks| == FramesInFlight &&
      forall k :: 0 <= k < FramesInFlight ==> cmdBufferContexts[k].Valid()
    }
  }

  /**
   * A queue at the start of a frame that uses `slot`: the slot's context and
   * bank are recycled and nothing of the other slot, still in flight, changes.
   */
  function BeginFrameQueue(q: Queue, slot: nat): (r: Queue)
    requires q.Valid() && slot < FramesInFlight
    ensures r.Valid() && r.qtype == q.qtype && r.internalDependents == q.internalDependents
    ensures r.cmdBufferContexts[slot] == ResetForFrame(q.cmdBufferContexts[slot])
    ensures r.semaphoreBanks[slot] == ResetSemaphores(q.semaphoreBanks[slot])
    ensures forall k :: 0 <= k < FramesInFlight && k != slot ==>
              r.cmdBufferContexts[k] == q.cmdBufferContexts[k] && r.semaphoreBanks[k] == q.semaphoreBanks[k]
  {
    q.(cmdBufferContexts := q.cmdBufferContexts[slot := ResetForFrame(q.cmdBufferContexts[slot])],
       semaphoreBanks := q.semaphoreBanks[slot := ResetSemaphores(q.semaphoreBanks[slot])])
  }

  /**
   * Submission on one queue: the pending command buffers of the slot's
   * context, the requested and the queue's injected dependents (which are
   * then cleared), a fence and a semaphore from the slot. No request, and no
   * change, when nothing is pending.
   */
  function SubmitOnQueue(q: Queue, slot: nat, qtype: bv32, dependentQueues: bv32, createdFence: Handle, createdSemaphore: Handle)
    : (r: (Queue, Option<SubmitRequest>))
    requires q.Valid() && slot < FramesInFlight
    ensures r.0.Valid() && r.0.qtype == q.qtype
    ensures var c := q.cmdBufferContexts[slot];
            (c.cmdBufferIndex == |c.cmdBuffers| <==> r.1 == None) &&
            (r.1 == None ==> r.0 == q)
    ensures r.1.Some? ==>
              var c := q.cmdBufferContexts[slot];
              r.1.value.qtype == qtype && r.1.value.cmdBuffers == c.cmdBuffers[c.cmdBufferIndex..] &&
              r.1.value.dependents == dependentQueues | q.internalDependents && r.0.internalDependents == QueueNone &&
              r.0.cmdBufferContexts[slot].fences == c.fences + [r.1.value.fence] &&
              r.0.semaphoreBanks[slot].semaphores == q.semaphoreBanks[slot].semaphores + [r.1.value.semaphore] &&
              forall k :: 0 <= k < FramesInFlight && k != slot ==>
                r.0.cmdBufferContexts[k] == q.cmdBufferContexts[k] && r.0.semaphoreBanks[k] == q.semaphoreBanks[k]
  {
    var (ctx, batch) := TakeSubmission(q.cmdBufferContexts[slot], createdFence);
    match batch
    case None => (q, None)
    case Some((cmdBuffers, fence)) =>
      var (bank, sem) := GetSemaphore(q.semaphoreBanks[slot], createdSemaphore);
      (q.(cmdBufferContexts := q.cmdBufferContexts[slot := ctx], semaphoreBanks := q.semaphoreBanks[slot := bank],
          internalDependents := QueueNone),
       Some(SubmitRequest(qtype, cmdBuffers, dependentQueues | q.internalDependents, fence, sem)))
  }

  /** The queues' type masks, in queue order. */
  function QueueTypes(queues: seq<Queue>): (types: seq<bv32>)
    ensures |types| == |queues| && forall k :: 0 <= k < |queues| ==> types[k] == queues[k].qtype
  {
    seq(|queues|, k requires 0 <= k < |queues| => queues[k].qtype)
  }

  /** Every queue at the start of a frame that uses `slot`, in queue order. */
  method BeginFrameQueues(qs: seq<Queue>, slot: nat) returns (r: seq<Queue>)
    requires slot < FramesInFlight && forall k :: 0 <= k < |qs| ==> qs[k].Valid()
    ensures |r| == |qs| && forall k :: 0 <= k < |qs| ==> r[k] == BeginFrameQueue(qs[k], slot)
    ensures forall k :: 0 <= k < |qs| ==> r[k].Valid()
  {
    r := qs;
    var i := 0;
    while i < |r|
      invariant 0 <= i <= |r| == |qs|
      invariant forall k :: 0 <= k < i ==> r[k] == BeginFrameQueue(qs[k], slot)
      invariant forall k :: i <= k < |r| ==> r[k] == qs[k]
    {
      r := r[i := BeginFrameQueue(r[i], slot)];
      i := i + 1;
    }
  }

  /** The queues with the frame generation counter and the frame-in-flight slot it selects. */
  class QueueManager {
    var generation: nat
    var frameIndex: nat
    var queues: seq<Queue>
    /** Requests waiting for the submission thread, oldest first. */
    var submitRequests: seq<SubmitRequest>

    ghost predicate Valid()
      reads this
    {
      generation < Uint32Range && frameIndex == generation % FramesInFlight && |queues| < NotFound &&
      forall k :: 0 <= k < |queues| ==> queues[k].Valid()
    }

    /**
     * Starts a frame: advances the 32-bit generation, selects the other slot
     * and, for every queue, recycles that slot's fences, command buffers and
     * semaphores; then the memory manager resets that slot's transient
     * allocator and stages on it.
     */
    method BeginFrame(memMan: DeviceMemoryManager)
      requires Valid() && memMan.Valid()
      modifies this, memMan, memMan.transientCPU
      ensures Valid() && |queues| == |old(queues)| && submitRequests == old(submitRequests)
      ensures generation == NextGeneration(old(generation)) && frameIndex != old(frameIndex)
      ensures forall k :: 0 <= k < |queues| ==> queues[k] == BeginFrameQueue(old(queues[k]), frameIndex)
      ensures memMan.Valid() && memMan.stagingIndex == frameIndex
      ensures var a := memMan.transientCPU[frameIndex];
              |a.blockOffsets| == |old(a.blockOffsets)| && forall b :: 0 <= b < |a.blockOffsets| ==> a.blockOffsets[b] == 0
      ensures forall j :: 0 <= j < |memMan.transientCPU| && j != frameIndex ==> unchanged(memMan.transientCPU[j])
    {
      FrameIndexAlternates(generation);
      generation := NextGeneration(generation);
      frameIndex := generation % FramesInFlight;
      queues := BeginFrameQueues(queues, frameIndex);
      memMan.ResetTransientAllocators(frameIndex);
    }

    /**
     * Submits, on the first queue of the given type (the caller guarantees
     * there is one), the command buffers recorded since its last submit; the
     * request joins the submission list. Nothing happens when none are pending.
     */
    method SubmitQueue(qtype: bv32, dependentQueues: bv32, createdFence: Handle, createdSemaphore: Handle)
      requires Valid() && FirstWithBits(QueueTypes(queues), qtype) < |queues|
      modifies this
      ensures Valid() && generation == old(generation) && frameIndex == old(frameIndex)
      ensures var k := FirstWithBits(QueueTypes(old(queues)), qtype);
              var (q, req) := SubmitOnQueue(old(queues)[k], frameIndex, qtype, dependentQueues, createdFence, createdSemaphore);
              queues == old(queues)[k := q] &&
              submitRequests == old(submitRequests) + (if req.Some? then [req.value] else [])
    {
      var queueIndex := FindQueue(QueueTypes(queues), qtype);
      var (q, req) := SubmitOnQueue(queues[queueIndex], frameIndex, qtype, dependentQueues, createdFence, createdSemaphore);
      queues := queues[queueIndex := q];
      if req.Some? {
        submitRequests := submitRequests + [req.value];
      }
    }
  }
}
