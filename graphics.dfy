// Bookkeeping of the graphics front end: the API-version test, swap-remove
// garbage collection, the per-mip copy regions of an image upload, the
// de-duplicated queue families of the logical device, the swapchain image
// count, the hash-keyed ref-counted layout caches and the descriptor budget
// counters. Vulkan objects are opaque handles; whether a Vulkan call succeeds
// is a parameter of the operation that makes it.

module Graphics {
  import opened Wrappers
  import GfxBackend

  // ---------------------------------------------------------------------------------
  // API version

  const Vulkan_1_0: nat := 100
  const Vulkan_1_1: nat := 110
  const Vulkan_1_2: nat := 120
  const Vulkan_1_3: nat := 130
  /** The enum's sentinel, one past the last Vulkan version. */
  const VulkanSentinel: nat := 131

  /** The device's API version is at least `version` and is a Vulkan version at all. */
  predicate HasVulkanVersion(apiVersion: nat, version: nat)
  {
    apiVersion >= version && apiVersion < VulkanSentinel
  }

  /**
   * Having a version implies having every older one, and on a Vulkan device
   * the known versions present are exactly those up to the device's own.
   */
  lemma HasVulkanVersionMonotone(apiVersion: nat, version: nat, older: nat)
    requires HasVulkanVersion(apiVersion, version) && older <= version
    ensures HasVulkanVersion(apiVersion, older)
  {
  }

  lemma HasVulkanVersionOnVulkanDevice(apiVersion: nat, version: nat)
    requires apiVersion in {Vulkan_1_0, Vulkan_1_1, Vulkan_1_2, Vulkan_1_3}
    ensures HasVulkanVersion(apiVersion, version) <==> version <= apiVersion
  {
  }

  // ---------------------------------------------------------------------------------
  // Garbage collection by swap-remove

  /**
   * Walks the garbage list and destroys every entry that has expired, each
   * removed by moving the last entry into its place, so the order of the
   * kept entries may change. There is no per-frame limit here.
   */
  method CollectGarbageSwap(entries: seq<GfxBackend.Garbage>, frameIdx: nat, force: bool)
    returns (kept: seq<GfxBackend.Garbage>, destroyed: seq<GfxBackend.Garbage>)
    ensures multiset(kept) + multiset(destroyed) == multiset(entries)
    ensures forall k :: 0 <= k < |kept| ==> !GfxBackend.Expired(kept[k], frameIdx, force)
    ensures forall k :: 0 <= k < |destroyed| ==> GfxBackend.Expired(destroyed[k], frameIdx, force)
  {
    kept, destroyed := entries, [];
    var i := 0;
    while i < |kept|
      invariant 0 <= i <= |kept|
      invariant multiset(kept) + multiset(destroyed) == multiset(entries)
      invariant forall k :: 0 <= k < i ==> !GfxBackend.Expired(kept[k], frameIdx, force)
      invariant forall k :: 0 <= k < |destroyed| ==> GfxBackend.Expired(destroyed[k], frameIdx, force)
      decreases |kept| - i
    {
      if GfxBackend.Expired(kept[i], frameIdx, force) {
        destroyed := destroyed + [kept[i]];
        SwapRemoveMultiset(kept, i);
        kept := SwapRemove(kept, i);
      } else {
        i := i + 1;
      }
    }
  }

  /** The array with its element at i replaced by the last one, and one shorter. */
  function SwapRemove<T>(s: seq<T>, i: nat): (r: seq<T>)
    requires i < |s|
    ensures |r| == |s| - 1 && r[..i] == s[..i]
  {
    s[i := s[|s| - 1]][..|s| - 1]
  }

  /** Swap-removing the element at i loses exactly that element. */
  lemma SwapRemoveMultiset<T>(s: seq<T>, i: nat)
    requires i < |s|
    ensures multiset(SwapRemove(s, i)) + multiset{s[i]} == multiset(s)
  {
    var last := |s| - 1;
    if i == last {
      assert s == s[..last] + [s[last]];
    } else {
      assert s == s[..i] + [s[i]] + s[i + 1..last] + [s[last]];
      assert SwapRemove(s, i) == s[..i] + [s[last]] + s[i + 1..last];
    }
  }

  /** The entries swap-remove collection keeps are the live ones, whatever their order. */
  lemma SwapCollectKeepsLives(entries: seq<GfxBackend.Garbage>, frameIdx: nat, kept: seq<GfxBackend.Garbage>,
                              destroyed: seq<GfxBackend.Garbage>)
    requires multiset(kept) + multiset(destroyed) == multiset(entries)
    requires forall k :: 0 <= k < |kept| ==> !GfxBackend.Expired(kept[k], frameIdx, false)
    requires forall k :: 0 <= k < |destroyed| ==> GfxBackend.Expired(destroyed[k], frameIdx, false)
    ensures multiset(kept) == multiset(GfxBackend.Lives(entries, frameIdx))
    ensures multiset(destroyed) == multiset(GfxBackend.Expireds(entries, frameIdx))
  {
    LivesExpiredsSplit(entries, frameIdx);
    SplitByPredicateUnique(kept, destroyed, GfxBackend.Lives(entries, frameIdx), GfxBackend.Expireds(entries, frameIdx), frameIdx);
  }

  /** The ordered split of a list into live and expired entries. */
  lemma {:induction false} LivesExpiredsSplit(entries: seq<GfxBackend.Garbage>, frameIdx: nat)
    ensures multiset(GfxBackend.Lives(entries, frameIdx)) + multiset(GfxBackend.Expireds(entries, frameIdx)) == multiset(entries)
    ensures forall g :: g in GfxBackend.Lives(entries, frameIdx) ==> !GfxBackend.Expired(g, frameIdx, false)
    ensures forall g :: g in GfxBackend.Expireds(entries, frameIdx) ==> GfxBackend.Expired(g, frameIdx, false)
    decreases |entries|
  {
    if entries != [] {
      LivesExpiredsSplit(entries[1..], frameIdx);
      assert entries == [entries[0]] + entries[1..];
    }
  }

  /** Two splits of the same multiset by the same predicate have the same parts. */
  lemma SplitByPredicateUnique(a: seq<GfxBackend.Garbage>, b: seq<GfxBackend.Garbage>,
                               c: seq<GfxBackend.Garbage>, d: seq<GfxBackend.Garbage>, frameIdx: nat)
    requires multiset(a) + multiset(b) == multiset(c) + multiset(d)
    requires forall k :: 0 <= k < |a| ==> !GfxBackend.Expired(a[k], frameIdx, false)
    requires forall k :: 0 <= k < |b| ==> GfxBackend.Expired(b[k], frameIdx, false)
    requires forall g :: g in c ==> !GfxBackend.Expired(g, frameIdx, false)
    requires forall g :: g in d ==> GfxBackend.Expired(g, frameIdx, false)
    ensures multiset(a) == multiset(c) && multiset(b) == multiset(d)
  {
    forall g
      ensures multiset(a)[g] == multiset(c)[g] && multiset(b)[g] == multiset(d)[g]
    {
      assert (multiset(a) + multiset(b))[g] == (multiset(c) + multiset(d))[g];
      if GfxBackend.Expired(g, frameIdx, false) {
        assert g !in a && g !in c;
        assert multiset(a)[g] == 0 && multiset(c)[g] == 0;
      } else {
        assert g !in b && g !in d;
        assert multiset(b)[g] == 0 && multiset(d)[g] == 0;
      }
    }
  }

  // ---------------------------------------------------------------------------------
  // Mip copy regions

  const MaxMips: nat := 16

  /** One buffer-to-image copy region: where the mip's texels start in the buffer, the mip, its extent. */
  datatype CopyRegion = CopyRegion(bufferOffset: nat, mipLevel: nat, width: nat, height: nat)

  /** The extent of mip `level` of a side of length `size`: halved per level, never below 1. */
  function MipExtent(size: nat, level: nat): nat
  {
    if level == 0 then size else Max(MipExtent(size, level - 1) / 2, 1)
  }

  /**
   * The copy regions of an upload of numMips mips of a width x height image.
   * A single mip is read from the start of the buffer, several from their
   * given offsets.
   */
  method MipCopyRegions(width: nat, height: nat, numMips: nat, mipOffsets: seq<nat>) returns (regions: seq<CopyRegion>)
    requires numMips <= MaxMips && (numMips > 1 ==> numMips <= |mipOffsets|)
    ensures |regions| == numMips
    ensures forall i :: 0 <= i < numMips ==>
              regions[i] == CopyRegion(if numMips > 1 then mipOffsets[i] else 0, i, MipExtent(width, i), MipExtent(height, i))
  {
    regions := [];
    var w, h := width, height;
    var i := 0;
    while i < numMips
      invariant 0 <= i <= numMips && |regions| == i
      invariant w == MipExtent(width, i) && h == MipExtent(height, i)
      invariant forall k :: 0 <= k < i ==> regions[k] == MipRegion(width, height, numMips, mipOffsets, k)
    {
      regions := regions + [CopyRegion(if numMips > 1 then mipOffsets[i] else 0, i, w, h)];
      assert regions[i] == MipRegion(width, height, numMips, mipOffsets, i);
      w := Max(w / 2, 1);
      h := Max(h / 2, 1);
      i := i + 1;
    }
  }

  /** The copy region of mip i. */
  function MipRegion(width: nat, height: nat, numMips: nat, mipOffsets: seq<nat>, i: nat): CopyRegion
    requires i < numMips && (numMips > 1 ==> numMips <= |mipOffsets|)
  {
    CopyRegion(if numMips > 1 then mipOffsets[i] else 0, i, MipExtent(width, i), MipExtent(height, i))
  }

  function Pow2(n: nat): (r: nat)
    ensures r >= 1
  {
    if n == 0 then 1 else 2 * Pow2(n - 1)
  }

  /** Below the top level the extent of a non-empty side is its size divided by 2^level, at least 1. */
  lemma {:induction false} MipExtentClosedForm(size: nat, level: nat)
    requires size >= 1
    ensures MipExtent(size, level) == Max(size / Pow2(level), 1)
  {
    if level > 0 {
      MipExtentClosedForm(size, level - 1);
      var p := Pow2(level - 1);
      DivHalf(size, p);
      if size / p == 0 {
        assert size / (p * 2) == 0;
      }
    }
  }

  /** Halving a quotient is dividing by twice the divisor. */
  lemma DivHalf(a: nat, b: nat)
    requires b >= 1
    ensures (a / b) / 2 == a / (b * 2)
  {
    var q, r := a / b, a % b;
    var q2, r2 := q / 2, q % 2;
    assert a == q2 * (b * 2) + (r2 * b + r) by {
      assert a == q * b + r;
      assert q == q2 * 2 + r2;
    }
    assert 0 <= r2 * b + r < b * 2;
    DivUnique(a, b * 2, q2, r2 * b + r);
  }

  lemma DivUnique(a: nat, d: nat, q: nat, r: nat)
    requires d >= 1 && a == q * d + r && r < d
    ensures a / d == q
  {
    var q', r' := a / d, a % d;
    var x := q - q';
    assert x * d == r' - r by {
      assert q * d + r == q' * d + r';
    }
  }

  /** Every mip below the top is at least 1 texel wide, and no mip is larger than the image. */
  lemma {:induction false} MipExtentBounds(size: nat, level: nat)
    ensures level > 0 ==> MipExtent(size, level) >= 1
    ensures size >= 1 ==> MipExtent(size, level) <= size
  {
    if level > 0 {
      MipExtentBounds(size, level - 1);
    }
  }

  // ---------------------------------------------------------------------------------
  // Queue families of the logical device

  /** The values of `s` in the order they first occur. */
  function FirstOccurrences(s: seq<nat>): seq<nat>
  {
    if s == [] then []
    else
      var prefix := FirstOccurrences(s[..|s| - 1]);
      if s[|s| - 1] in s[..|s| - 1] then prefix else prefix + [s[|s| - 1]]
  }

  /** Each family appears once among the queue-create infos, and every requested family appears. */
  lemma {:induction false} FirstOccurrencesDistinct(s: seq<nat>)
    ensures var r := FirstOccurrences(s);
            (forall a, b :: 0 <= a < b < |r| ==> r[a] != r[b]) && (forall v :: v in r <==> v in s)
    decreases |s|
  {
    if s != [] {
      var init := s[..|s| - 1];
      FirstOccurrencesDistinct(init);
      assert s == init + [s[|s| - 1]];
    }
  }

  /**
   * Builds the queue-create list of the logical device: a family index is
   * added unless an earlier entry of the request list has the same index.
   */
  method UniqueQueueFamilies(familyIndexes: seq<nat>) returns (createInfos: seq<nat>)
    ensures createInfos == FirstOccurrences(familyIndexes)
  {
    createInfos := [];
    var i := 0;
    while i < |familyIndexes|
      invariant 0 <= i <= |familyIndexes|
      invariant createInfos == FirstOccurrences(familyIndexes[..i])
    {
      var queueIndex := familyIndexes[i];
      var duplicateIndex := false;
      var k := i;
      while k > 0
        invariant 0 <= k <= i
        invariant !duplicateIndex ==> queueIndex !in familyIndexes[k..i]
        invariant duplicateIndex ==> queueIndex in familyIndexes[..i]
      {
        k := k - 1;
        if queueIndex == familyIndexes[k] {
          duplicateIndex := true;
          break;
        }
      }
      assert familyIndexes[..i + 1][..i] == familyIndexes[..i];
      assert duplicateIndex <==> queueIndex in familyIndexes[..i] by {
        if !duplicateIndex {
          assert k == 0 && familyIndexes[0..i] == familyIndexes[..i];
        }
      }
      if !duplicateIndex {
        createInfos := createInfos + [queueIndex];
      }
      i := i + 1;
    }
    assert familyIndexes[..i] == familyIndexes;
  }

  // ---------------------------------------------------------------------------------
  // Swapchain image count

  const MaxSwapchainImages: nat := 3

  /** v limited to [lo, hi], the upper bound applied last. */
  function Clamp(v: int, lo: int, hi: int): int
  {
    Min(Max(v, lo), hi)
  }

  /**
   * As written: one image more than the surface's minimum, limited to the
   * surface's maximum and to MaxSwapchainImages.
   */
  function MinImagesAsWritten(minImageCount: nat, maxImageCount: nat): int
  {
    Min(Clamp(minImageCount + 1, 1, maxImageCount), MaxSwapchainImages)
  }

  /** Clamp read the other way, with the lower bound applied last. */
  function ClampLowerLast(v: int, lo: int, hi: int): int
  {
    Max(Min(v, hi), lo)
  }

  /**
   * A surface with no upper limit on its image count reports maxImageCount 0
   * (the Vulkan specification, VkSurfaceCapabilitiesKHR); the count asked for
   * is then 0, and 1 if Clamp applies its lower bound last: either way below
   * the surface's minimum, which no surface accepts.
   */
  lemma MinImagesAsWrittenWithoutLimit(minImageCount: nat)
    requires minImageCount >= 2
    ensures MinImagesAsWritten(minImageCount, 0) == 0
    ensures Min(ClampLowerLast(minImageCount + 1, 1, 0), MaxSwapchainImages) == 1 < minImageCount
  {
  }

  /**
   * The image count with maxImageCount 0 read as "no limit": one more than
   * the minimum, limited by the maximum when there is one and by
   * MaxSwapchainImages.
   */
  function MinImages(minImageCount: nat, maxImageCount: nat): (r: nat)
    requires maxImageCount == 0 || minImageCount <= maxImageCount
    ensures 1 <= r <= MaxSwapchainImages && (maxImageCount == 0 || r <= maxImageCount)
    ensures minImageCount <= MaxSwapchainImages - 1 && (maxImageCount == 0 || minImageCount < maxImageCount) ==> r == minImageCount + 1
    ensures minImageCount <= MaxSwapchainImages ==> r >= minImageCount
  {
    if maxImageCount == 0 then Min(Max(minImageCount + 1, 1), MaxSwapchainImages)
    else Min(Clamp(minImageCount + 1, 1, maxImageCount), MaxSwapchainImages)
  }

  /** The two agree whenever the surface states a maximum. */
  lemma MinImagesAgreeWithLimit(minImageCount: nat, maxImageCount: nat)
    requires 1 <= maxImageCount && minImageCount <= maxImageCount
    ensures MinImages(minImageCount, maxImageCount) == MinImagesAsWritten(minImageCount, maxImageCount)
  {
  }

  // ---------------------------------------------------------------------------------
  // Ref-counted layout caches

  /** A cached layout: the hash of its description, its owners and its handle. */
  datatype Layout = Layout(hash: nat, refCount: nat, handle: GfxBackend.Handle)

  /** The position of the first layout with the given hash. */
  function FindLayout(layouts: seq<Layout>, hash: nat): (r: Option<nat>)
    ensures r.Some? ==> r.value < |layouts| && layouts[r.value].hash == hash &&
                        forall k :: 0 <= k < r.value ==> layouts[k].hash != hash
    ensures r.None? <==> forall k :: 0 <= k < |layouts| ==> layouts[k].hash != hash
    decreases |layouts|
  {
    if layouts == [] then None
    else if layouts[0].hash == hash then Some(0)
    else
      match FindLayout(layouts[1..], hash)
      case None => None
      case Some(k) => Some(k + 1)
  }

  /** The position of the layout with the given handle. */
  function FindHandle(layouts: seq<Layout>, handle: GfxBackend.Handle): (r: Option<nat>)
    ensures r.Some? ==> r.value < |layouts| && layouts[r.value].handle == handle
    ensures r.None? <==> forall k :: 0 <= k < |layouts| ==> layouts[k].handle != handle
    decreases |layouts|
  {
    if layouts == [] then None
    else if layouts[0].handle == handle then Some(0)
    else
      match FindHandle(layouts[1..], handle)
      case None => None
      case Some(k) => Some(k + 1)
  }

  /** The owners of the layout with the given hash; 0 when there is none. */
  function Owners(layouts: seq<Layout>, hash: nat): nat
  {
    match FindLayout(layouts, hash)
    case None => 0
    case Some(k) => layouts[k].refCount
  }

  /** At most one layout per hash, each with an owner and a handle already given out. */
  ghost predicate PoolValid(layouts: seq<Layout>, nextHandle: GfxBackend.Handle)
  {
    (forall a, b :: 0 <= a < b < |layouts| ==> layouts[a].hash != layouts[b].hash) &&
    (forall k :: 0 <= k < |layouts| ==> layouts[k].refCount >= 1 && layouts[k].handle < nextHandle)
  }

  /** Removing a layout keeps the pool valid. */
  lemma RemovedPoolValid(layouts: seq<Layout>, nextHandle: GfxBackend.Handle, k: nat)
    requires PoolValid(layouts, nextHandle) && k < |layouts|
    ensures PoolValid(layouts[..k] + layouts[k + 1..], nextHandle)
  {
    var r := layouts[..k] + layouts[k + 1..];
    assert forall a :: 0 <= a < |r| ==> r[a] == if a < k then layouts[a] else layouts[a + 1];
  }

  /** A new layout with a hash not yet cached and the next handle keeps the pool valid. */
  lemma AppendedPoolValid(layouts: seq<Layout>, nextHandle: GfxBackend.Handle, hash: nat)
    requires PoolValid(layouts, nextHandle) && FindLayout(layouts, hash).None?
    ensures PoolValid(layouts + [Layout(hash, 1, nextHandle)], nextHandle + 1)
    ensures Owners(layouts + [Layout(hash, 1, nextHandle)], hash) == Owners(layouts, hash) + 1
  {
    AppendFind(layouts, Layout(hash, 1, nextHandle));
  }

  /** One more owner of a cached layout keeps the pool valid. */
  lemma IncrementedPoolValid(layouts: seq<Layout>, nextHandle: GfxBackend.Handle, hash: nat, k: nat)
    requires PoolValid(layouts, nextHandle) && FindLayout(layouts, hash) == Some(k)
    ensures var l := layouts[k];
      PoolValid(layouts[k := l.(refCount := l.refCount + 1)], nextHandle) &&
      Owners(layouts[k := l.(refCount := l.refCount + 1)], hash) == Owners(layouts, hash) + 1
  {
    var l := layouts[k];
    SameHashesFind(layouts, layouts[k := l.(refCount := l.refCount + 1)], hash);
  }

  /**
   * The pool of descriptor-set layouts (and, with the same protocol, of
   * pipeline layouts): at most one per hash, each with at least one owner.
   */
  class LayoutCache {
    var layouts: seq<Layout>
    /** The handle the pool gives the next new layout. */
    var nextHandle: GfxBackend.Handle

    ghost predicate Valid()
      reads this
    {
      PoolValid(layouts, nextHandle)
    }

    constructor ()
      ensures Valid() && layouts == []
    {
      layouts := [];
      nextHandle := 1;
    }

    /**
     * Returns the layout with the given hash with one more owner, or creates
     * it with one owner when there is none; creation fails (None) when the
     * Vulkan object cannot be created.
     */
    method CreateLayout(hash: nat, created: bool) returns (handle: Option<GfxBackend.Handle>)
      requires Valid()
      modifies this
      ensures Valid()
      ensures match FindLayout(old(layouts), hash)
              case Some(k) =>
                handle == Some(old(layouts)[k].handle) &&
                layouts == old(layouts)[k := old(layouts)[k].(refCount := old(layouts)[k].refCount + 1)]
              case None =>
                if created then handle == Some(old(nextHandle)) && layouts == old(layouts) + [Layout(hash, 1, old(nextHandle))]
                else handle == None && layouts == old(layouts)
      ensures handle.Some? ==> Owners(layouts, hash) == Owners(old(layouts), hash) + 1
    {
      var found := FindLayout(layouts, hash);
      match found {
        case Some(k) =>
          IncrementedPoolValid(layouts, nextHandle, hash, k);
          handle := Some(layouts[k].handle);
          layouts := layouts[k := layouts[k].(refCount := layouts[k].refCount + 1)];
        case None =>
          if created {
            AppendedPoolValid(layouts, nextHandle, hash);
            handle := Some(nextHandle);
            layouts := layouts + [Layout(hash, 1, nextHandle)];
            nextHandle := nextHandle + 1;
          } else {
            handle := None;
          }
      }
    }

    /**
     * Drops one owner of a layout; the layout goes when its last owner does.
     * An invalid (None) handle is ignored.
     */
    method DestroyLayout(handle: Option<GfxBackend.Handle>)
      requires Valid() && (handle.Some? ==> FindHandle(layouts, handle.value).Some?)
      modifies this
      ensures Valid() && nextHandle == old(nextHandle)
      ensures handle.None? ==> layouts == old(layouts)
      ensures handle.Some? ==>
                var k := FindHandle(old(layouts), handle.value).value;
                var l := old(layouts)[k];
                if l.refCount == 1 then layouts == old(layouts)[..k] + old(layouts)[k + 1..]
                else layouts == old(layouts)[k := l.(refCount := l.refCount - 1)]
    {
      if handle.None? {
        return;
      }
      var k := FindHandle(layouts, handle.value).value;
      var l := layouts[k];
      if l.refCount - 1 == 0 {
        RemovedPoolValid(layouts, nextHandle, k);
        layouts := layouts[..k] + layouts[k + 1..];
      } else {
        layouts := layouts[k := l.(refCount := l.refCount - 1)];
      }
    }
  }

  /** Changing a layout's owners keeps every hash where it was. */
  lemma {:induction false} SameHashesFind(a: seq<Layout>, b: seq<Layout>, hash: nat)
    requires |a| == |b| && forall k :: 0 <= k < |a| ==> a[k].hash == b[k].hash
    ensures FindLayout(a, hash) == FindLayout(b, hash)
    decreases |a|
  {
    if a != [] {
      SameHashesFind(a[1..], b[1..], hash);
    }
  }

  /** A new layout with a hash not yet cached is found at the end. */
  lemma {:induction false} AppendFind(a: seq<Layout>, l: Layout)
    requires FindLayout(a, l.hash).None?
    ensures FindLayout(a + [l], l.hash) == Some(|a|)
    decreases |a|
  {
    if a != [] {
      assert (a + [l])[1..] == a[1..] + [l];
      AppendFind(a[1..], l);
    }
  }

  // ---------------------------------------------------------------------------------
  // Descriptor budget counters

  datatype DescriptorType = UniformBuffer | UniformBufferDynamic | SampledImage | Sampler | CombinedImageSampler | OtherDescriptor

  /** The live descriptors of each counted type. */
  datatype DescriptorStats = DescriptorStats(numUniformBuffers: nat, numDynUniformBuffers: nat, numSampledImages: nat,
                                             numSamplers: nat, numCombinedImageSamplers: nat)

  const NoDescriptors := DescriptorStats(0, 0, 0, 0, 0)

  /** The counter of one descriptor type; other types are not counted. */
  function Counter(s: DescriptorStats, t: DescriptorType): nat
  {
    match t
    case UniformBuffer => s.numUniformBuffers
    case UniformBufferDynamic => s.numDynUniformBuffers
    case SampledImage => s.numSampledImages
    case Sampler => s.numSamplers
    case CombinedImageSampler => s.numCombinedImageSamplers
    case OtherDescriptor => 0
  }

  /** One more descriptor of type t. */
  function Inc(s: DescriptorStats, t: DescriptorType): (r: DescriptorStats)
    ensures t != OtherDescriptor ==> Counter(r, t) == Counter(s, t) + 1
    ensures forall u :: u != t ==> Counter(r, u) == Counter(s, u)
    ensures t == OtherDescriptor ==> r == s
  {
    match t
    case UniformBuffer => s.(numUniformBuffers := s.numUniformBuffers + 1)
    case UniformBufferDynamic => s.(numDynUniformBuffers := s.numDynUniformBuffers + 1)
    case SampledImage => s.(numSampledImages := s.numSampledImages + 1)
    case Sampler => s.(numSamplers := s.numSamplers + 1)
    case CombinedImageSampler => s.(numCombinedImageSamplers := s.numCombinedImageSamplers + 1)
    case OtherDescriptor => s
  }

  /** One descriptor of type t fewer; a counted type must have one. */
  function Dec(s: DescriptorStats, t: DescriptorType): (r: DescriptorStats)
    requires t != OtherDescriptor ==> Counter(s, t) > 0
    ensures t != OtherDescriptor ==> Counter(r, t) == Counter(s, t) - 1
    ensures forall u :: u != t ==> Counter(r, u) == Counter(s, u)
    ensures t == OtherDescriptor ==> r == s
  {
    match t
    case UniformBuffer => s.(numUniformBuffers := s.numUniformBuffers - 1)
    case UniformBufferDynamic => s.(numDynUniformBuffers := s.numDynUniformBuffers - 1)
    case SampledImage => s.(numSampledImages := s.numSampledImages - 1)
    case Sampler => s.(numSamplers := s.numSamplers - 1)
    case CombinedImageSampler => s.(numCombinedImageSamplers := s.numCombinedImageSamplers - 1)
    case OtherDescriptor => s
  }

  /** Two stats agree on every counter exactly when they are equal. */
  lemma StatsExtensional(a: DescriptorStats, b: DescriptorStats)
    requires forall t :: Counter(a, t) == Counter(b, t)
    ensures a == b
  {
    assert Counter(a, UniformBuffer) == Counter(b, UniformBuffer);
    assert Counter(a, UniformBufferDynamic) == Counter(b, UniformBufferDynamic);
    assert Counter(a, SampledImage) == Counter(b, SampledImage);
    assert Counter(a, Sampler) == Counter(b, Sampler);
    assert Counter(a, CombinedImageSampler) == Counter(b, CombinedImageSampler);
  }

  /** The number of bindings of type t. */
  function CountOf(bindings: seq<DescriptorType>, t: DescriptorType): (n: nat)
    ensures n <= |bindings|
  {
    if bindings == [] then 0
    else CountOf(bindings[..|bindings| - 1], t) + (if bindings[|bindings| - 1] == t then 1 else 0)
  }

  /**
   * Creating a descriptor set counts each of its layout's bindings. The
   * counters move before the set is allocated, so they count sets whose
   * allocation fails too.
   */
  method CountCreatedSet(stats: DescriptorStats, bindings: seq<DescriptorType>) returns (r: DescriptorStats)
    ensures forall t :: t != OtherDescriptor ==> Counter(r, t) == Counter(stats, t) + CountOf(bindings, t)
  {
    r := stats;
    var i := 0;
    while i < |bindings|
      invariant 0 <= i <= |bindings|
      invariant forall t :: t != OtherDescriptor ==> Counter(r, t) == Counter(stats, t) + CountOf(bindings[..i], t)
    {
      assert bindings[..i + 1][..i] == bindings[..i];
      r := Inc(r, bindings[i]);
      i := i + 1;
    }
    assert bindings[..i] == bindings;
  }

  /**
   * Destroying a descriptor set removes each of its layout's bindings from
   * the counters; every counted type must have enough live descriptors.
   */
  method CountDestroyedSet(stats: DescriptorStats, bindings: seq<DescriptorType>) returns (r: DescriptorStats)
    requires forall t :: t != OtherDescriptor ==> Counter(stats, t) >= CountOf(bindings, t)
    ensures forall t :: t != OtherDescriptor ==> Counter(r, t) == Counter(stats, t) - CountOf(bindings, t)
  {
    r := stats;
    var i := 0;
    while i < |bindings|
      invariant 0 <= i <= |bindings|
      invariant forall t :: t != OtherDescriptor ==> Counter(r, t) == Counter(stats, t) - CountOf(bindings[..i], t)
      invariant forall t :: t != OtherDescriptor ==> CountOf(bindings[..i], t) <= CountOf(bindings, t)
    {
      assert bindings[..i + 1][..i] == bindings[..i];
      CountOfPrefix(bindings, i + 1, bindings[i]);
      r := Dec(r, bindings[i]);
      i := i + 1;
    }
    assert bindings[..i] == bindings;
  }

  /** A prefix holds no more bindings of a type than the whole list. */
  lemma {:induction false} CountOfPrefix(bindings: seq<DescriptorType>, n: nat, t: DescriptorType)
    requires n <= |bindings|
    ensures CountOf(bindings[..n], t) <= CountOf(bindings, t)
    decreases |bindings| - n
  {
    if n < |bindings| {
      CountOfPrefix(bindings, n + 1, t);
      assert bindings[..n + 1][..n] == bindings[..n];
    } else {
      assert bindings[..n] == bindings;
    }
  }

  /** Destroying a set after creating it leaves the counters as they were. */
  lemma CreateThenDestroyRestores(stats: DescriptorStats, created: DescriptorStats, destroyed: DescriptorStats,
                                  bindings: seq<DescriptorType>)
    requires forall t :: t != OtherDescriptor ==> Counter(created, t) == Counter(stats, t) + CountOf(bindings, t)
    requires forall t :: t != OtherDescriptor ==> Counter(destroyed, t) == Counter(created, t) - CountOf(bindings, t)
    ensures destroyed == stats
  {
    StatsExtensional(destroyed, stats);
  }
}
