// Bookkeeping of the GLTF model baker and loader: sampler and vertex-attribute
// tables, index rebasing and submesh ranges, buffer offset layout, material
// de-duplication, node lookup, texture dependencies and the cache-hash check.
// The GLTF parser itself is not modelled: its output reaches these members as
// plain values (primitive vertex and index counts, index lists, material hashes,
// node names, texture paths).

module ModelBake {
  import opened Wrappers

  const MaxVertexAttributes: nat := 8
  const MaxVertexBuffersPerShader: nat := 4

  // ---------------------------------------------------------------------------------
  // Sampler modes

  datatype SamplerFilterMode =
    | FilterDefault | Nearest | Linear
    | NearestMipmapNearest | LinearMipmapNearest | NearestMipmapLinear | LinearMipmapLinear

  datatype SamplerWrapMode = WrapDefault | ClampToEdge | MirroredRepeat | Repeat

  const GLTF_FILTER_NEAREST: int := 9728
  const GLTF_FILTER_LINEAR: int := 9729
  const GLTF_FILTER_NEAREST_MIPMAP_NEAREST: int := 9984
  const GLTF_FILTER_LINEAR_MIPMAP_NEAREST: int := 9985
  const GLTF_FILTER_NEAREST_MIPMAP_LINEAR: int := 9986
  const GLTF_FILTER_LINEAR_MIPMAP_LINEAR: int := 9987

  const GLTF_WRAP_CLAMP_TO_EDGE: int := 33071
  const GLTF_WRAP_MIRRORED_REPEAT: int := 33648
  const GLTF_WRAP_REPEAT: int := 10497

  /** The GLTF constant that names a (non-default) filter mode. */
  function GltfFilterCode(m: SamplerFilterMode): int
    requires m != FilterDefault
  {
    match m
    case Nearest => GLTF_FILTER_NEAREST
    case Linear => GLTF_FILTER_LINEAR
    case NearestMipmapNearest => GLTF_FILTER_NEAREST_MIPMAP_NEAREST
    case LinearMipmapNearest => GLTF_FILTER_LINEAR_MIPMAP_NEAREST
    case NearestMipmapLinear => GLTF_FILTER_NEAREST_MIPMAP_LINEAR
    case LinearMipmapLinear => GLTF_FILTER_LINEAR_MIPMAP_LINEAR
  }

  /** The GLTF constant that names a (non-default) wrap mode. */
  function GltfWrapCode(m: SamplerWrapMode): int
    requires m != WrapDefault
  {
    match m
    case ClampToEdge => GLTF_WRAP_CLAMP_TO_EDGE
    case MirroredRepeat => GLTF_WRAP_MIRRORED_REPEAT
    case Repeat => GLTF_WRAP_REPEAT
  }

  /** Maps a GLTF filter constant to the sampler mode it names; any other value gives the default mode. */
  function GetFilter(filter: int): (m: SamplerFilterMode)
    ensures m != FilterDefault ==> GltfFilterCode(m) == filter
    ensures m == FilterDefault ==> forall k: SamplerFilterMode :: k != FilterDefault ==> GltfFilterCode(k) != filter
  {
    if filter == GLTF_FILTER_NEAREST then Nearest
    else if filter == GLTF_FILTER_LINEAR then Linear
    else if filter == GLTF_FILTER_NEAREST_MIPMAP_NEAREST then NearestMipmapNearest
    else if filter == GLTF_FILTER_LINEAR_MIPMAP_NEAREST then LinearMipmapNearest
    else if filter == GLTF_FILTER_NEAREST_MIPMAP_LINEAR then NearestMipmapLinear
    else if filter == GLTF_FILTER_LINEAR_MIPMAP_LINEAR then LinearMipmapLinear
    else FilterDefault
  }

  /** Maps a GLTF wrap constant to the sampler mode it names; any other value gives the default mode. */
  function GetWrap(wrap: int): (m: SamplerWrapMode)
    ensures m != WrapDefault ==> GltfWrapCode(m) == wrap
    ensures m == WrapDefault ==> forall k: SamplerWrapMode :: k != WrapDefault ==> GltfWrapCode(k) != wrap
  {
    if wrap == GLTF_WRAP_CLAMP_TO_EDGE then ClampToEdge
    else if wrap == GLTF_WRAP_MIRRORED_REPEAT then MirroredRepeat
    else if wrap == GLTF_WRAP_REPEAT then Repeat
    else WrapDefault
  }

  /** Decoding the constant of a mode gives that mode back. */
  lemma GetFilterWrapRoundTrip(f: SamplerFilterMode, w: SamplerWrapMode)
    ensures f != FilterDefault ==> GetFilter(GltfFilterCode(f)) == f
    ensures w != WrapDefault ==> GetWrap(GltfWrapCode(w)) == w
  {
  }

  // ---------------------------------------------------------------------------------
  // Vertex attributes

  datatype AttributeType = Invalid | Position | Normal | Tangent | Texcoord | Color | Joints | Weights | Custom

  /** A layout attribute: an empty semantic means "not supported / end of list". */
  datatype VertexAttribute = VertexAttribute(semantic: string, index: nat)

  /** Position, normal, tangent, joints and weights are supported at index 0; texcoord and color at indices 0-3. */
  predicate IsSupportedAttribute(t: AttributeType, index: nat)
  {
    match t
    case Position | Normal | Tangent | Joints | Weights => index == 0
    case Texcoord | Color => index < 4
    case Invalid | Custom => false
  }

  function SemanticName(t: AttributeType): string
  {
    match t
    case Position => "POSITION"
    case Normal => "NORMAL"
    case Tangent => "TANGENT"
    case Texcoord => "TEXCOORD"
    case Color => "COLOR"
    case Joints => "BLENDINDICES"
    case Weights => "BLENDWEIGHT"
    case Invalid | Custom => ""
  }

  /**
   * Maps a GLTF attribute to the layout semantic: supported pairs get the
   * type's semantic, texcoords keep their index, every other semantic index
   * is 0, and unsupported pairs get the empty attribute.
   */
  function ConvertVertexAttribute(t: AttributeType, index: nat): (r: VertexAttribute)
    ensures r.semantic == "" <==> !IsSupportedAttribute(t, index)
    ensures IsSupportedAttribute(t, index) ==> r.semantic == SemanticName(t)
    ensures r.index == (if t == Texcoord && index < 4 then index else 0)
  {
    if t == Position && index == 0 then VertexAttribute("POSITION", 0)
    else if t == Normal && index == 0 then VertexAttribute("NORMAL", 0)
    else if t == Tangent && index == 0 then VertexAttribute("TANGENT", 0)
    else if t == Texcoord then
      (if index < 4 then VertexAttribute("TEXCOORD", index) else VertexAttribute("", 0))
    else if t == Color then
      (if index < 4 then VertexAttribute("COLOR", 0) else VertexAttribute("", 0))
    else if t == Joints && index == 0 then VertexAttribute("BLENDINDICES", 0)
    else if t == Weights && index == 0 then VertexAttribute("BLENDWEIGHT", 0)
    else VertexAttribute("", 0)
  }

  /** All four color sets collapse onto COLOR 0, so a layout can only ever bind one of them. */
  lemma ColorSetsShareSemantic(i: nat, j: nat)
    requires i < 4 && j < 4
    ensures ConvertVertexAttribute(Color, i) == ConvertVertexAttribute(Color, j)
  {
  }

  /**
   * The tangent scan of the vertex layout as written: it walks the attribute
   * array until an empty semantic, with no bound. None stands for the read
   * past the end of the array that happens when every slot is filled and none
   * is a tangent.
   */
  function LayoutHasTangentsAsWritten(semantics: seq<string>, i: nat): (r: Option<bool>)
    requires i <= |semantics|
    ensures r == None <==> forall k :: i <= k < |semantics| ==> semantics[k] != "" && semantics[k] != "TANGENT"
    decreases |semantics| - i
  {
    if i == |semantics| then None
    else if semantics[i] == "" then Some(false)
    else if semantics[i] == "TANGENT" then Some(true)
    else LayoutHasTangentsAsWritten(semantics, i + 1)
  }

  /** A full eight-slot layout without a tangent makes the as-written scan read past the array. */
  lemma LayoutHasTangentsReadsPastEnd()
    ensures LayoutHasTangentsAsWritten(
              ["POSITION", "NORMAL", "TEXCOORD", "TEXCOORD", "TEXCOORD", "TEXCOORD", "COLOR", "BLENDWEIGHT"], 0) == None
  {
    var s := ["POSITION", "NORMAL", "TEXCOORD", "TEXCOORD", "TEXCOORD", "TEXCOORD", "COLOR", "BLENDWEIGHT"];
    assert forall k :: 0 <= k < |s| ==> s[k] != "" && s[k] != "TANGENT";
  }

  /**
   * Corrected tangent scan, bounded by the layout's slot count: true exactly
   * when a TANGENT appears before the first empty slot.
   */
  method LayoutHasTangents(semantics: seq<string>) returns (b: bool)
    requires |semantics| == MaxVertexAttributes
    ensures b <==> exists k :: 0 <= k < |semantics| && semantics[k] == "TANGENT" &&
                              forall j :: 0 <= j < k ==> semantics[j] != ""
  {
    var i := 0;
    while i < |semantics| && semantics[i] != ""
      invariant 0 <= i <= |semantics|
      invariant forall j :: 0 <= j < i ==> semantics[j] != "" && semantics[j] != "TANGENT"
    {
      if semantics[i] == "TANGENT" {
        return true;
      }
      i := i + 1;
    }
    return false;
  }

  /** Where the as-written scan stays inside the array it agrees with the corrected one. */
  lemma LayoutHasTangentsAgree(semantics: seq<string>, i: nat)
    requires i <= |semantics|
    requires LayoutHasTangentsAsWritten(semantics, i) != None
    ensures LayoutHasTangentsAsWritten(semantics, i) == Some(
              exists k :: i <= k < |semantics| && semantics[k] == "TANGENT" &&
                          forall j :: i <= j < k ==> semantics[j] != "")
    decreases |semantics| - i
  {
    if i < |semantics| && semantics[i] != "" && semantics[i] != "TANGENT" {
      LayoutHasTangentsAgree(semantics, i + 1);
    }
  }

  // ---------------------------------------------------------------------------------
  // Vertex buffer count

  /**
   * The vertex buffer count as written: it counts strides until a zero one,
   * with no bound; None stands for the read of strides[4] that happens when
   * all four strides are non-zero.
   */
  function NumVertexBuffersAsWritten(strides: seq<nat>, i: nat): (r: Option<nat>)
    requires i <= |strides|
    ensures r == None <==> forall k :: i <= k < |strides| ==> strides[k] != 0
    ensures r.Some? ==> i <= r.value < |strides| && strides[r.value] == 0
    decreases |strides| - i
  {
    if i == |strides| then None
    else if strides[i] == 0 then Some(i)
    else NumVertexBuffersAsWritten(strides, i + 1)
  }

  /** A layout that uses all four vertex buffers makes the as-written count read past the stride array. */
  lemma NumVertexBuffersReadsPastEnd()
    ensures NumVertexBuffersAsWritten([12, 8, 16, 4], 0) == None
  {
    var s: seq<nat> := [12, 8, 16, 4];
    assert forall k :: 0 <= k < |s| ==> s[k] != 0;
  }

  /**
   * Corrected count: the number of leading non-zero strides, bounded by the
   * array's length. The source requires at least one.
   */
  method NumVertexBuffers(strides: seq<nat>) returns (n: nat)
    requires |strides| == MaxVertexBuffersPerShader && strides[0] != 0
    ensures 1 <= n <= |strides|
    ensures forall k :: 0 <= k < n ==> strides[k] != 0
    ensures n < |strides| ==> strides[n] == 0
  {
    n := 0;
    while n < |strides| && strides[n] != 0
      invariant 0 <= n <= |strides|
      invariant forall k :: 0 <= k < n ==> strides[k] != 0
    {
      n := n + 1;
    }
  }

  /** Where the as-written count stays inside the array it gives the same count. */
  lemma NumVertexBuffersAgree(strides: seq<nat>, n: nat)
    requires n <= |strides|
    requires forall k :: 0 <= k < n ==> strides[k] != 0
    requires n < |strides| && strides[n] == 0
    ensures NumVertexBuffersAsWritten(strides, 0) == Some(n)
  {
    NumVertexBuffersFrom(strides, 0, n);
  }

  lemma {:induction false} NumVertexBuffersFrom(strides: seq<nat>, i: nat, n: nat)
    requires i <= n < |strides| && strides[n] == 0
    requires forall k :: i <= k < n ==> strides[k] != 0
    ensures NumVertexBuffersAsWritten(strides, i) == Some(n)
    decreases n - i
  {
    if i < n {
      NumVertexBuffersFrom(strides, i + 1, n);
    }
  }

  // ---------------------------------------------------------------------------------
  // Primitives, submeshes and index rebasing

  /** A GLTF primitive as the baker sees it: the element count of each attribute, and its index list. */
  datatype Primitive = Primitive(attributeCounts: seq<nat>, indices: seq<nat>)

  datatype Submesh = Submesh(startIndex: nat, numIndices: nat)

  /** The vertex count of a primitive: the first non-zero attribute count (0 when there is none). */
  function VertexCount(counts: seq<nat>): (n: nat)
    ensures n != 0 ==> exists i :: 0 <= i < |counts| && counts[i] == n && forall k :: 0 <= k < i ==> counts[k] == 0
    ensures n == 0 <==> forall k :: 0 <= k < |counts| ==> counts[k] == 0
  {
    if counts == [] then 0
    else if counts[0] != 0 then counts[0]
    else VertexCount(counts[1..])
  }

  /** The attribute counts of a primitive agree: every count after a non-zero one equals it. */
  predicate CountsAgree(counts: seq<nat>)
  {
    forall i, k :: 0 <= i < k < |counts| && counts[i] != 0 ==> counts[k] == counts[i]
  }

  /** When the counts agree, every non-zero count is the vertex count. */
  lemma VertexCountOfAgreeing(counts: seq<nat>, i: nat)
    requires CountsAgree(counts)
    requires i < |counts| && counts[i] != 0
    ensures VertexCount(counts) == counts[i]
  {
    var j :| 0 <= j < |counts| && counts[j] == VertexCount(counts) && forall k :: 0 <= k < j ==> counts[k] == 0;
    assert j <= i;
  }

  /** Sum of the index counts of the primitives before primitive i. */
  function IndicesBefore(prims: seq<Primitive>, i: nat): nat
    requires i <= |prims|
  {
    if i == 0 then 0 else IndicesBefore(prims, i - 1) + |prims[i - 1].indices|
  }

  /** Sum of the vertex counts of the primitives before primitive i. */
  function VerticesBefore(prims: seq<Primitive>, i: nat): nat
    requires i <= |prims|
  {
    if i == 0 then 0 else VerticesBefore(prims, i - 1) + VertexCount(prims[i - 1].attributeCounts)
  }

  /** The index range of an earlier primitive ends no later than a later primitive's range begins. */
  lemma {:induction false} IndexRangesOrdered(prims: seq<Primitive>, i: nat, j: nat)
    requires i < j <= |prims|
    ensures IndicesBefore(prims, i) + |prims[i].indices| <= IndicesBefore(prims, j)
    decreases j - i
  {
    if j > i + 1 {
      IndexRangesOrdered(prims, i, j - 1);
    }
  }

  /** Primitive i's submesh: its range in the mesh's index buffer. */
  function SubmeshOf(prims: seq<Primitive>, i: nat): Submesh
    requires i < |prims|
  {
    Submesh(IndicesBefore(prims, i), |prims[i].indices|)
  }

  /** The indices of a primitive, each increased by base. */
  function Rebase(src: seq<nat>, base: nat): (r: seq<nat>)
    ensures |r| == |src|
  {
    seq(|src|, k requires 0 <= k < |src| => src[k] + base)
  }

  /** The mesh index buffer after the first i primitives have been copied. */
  function RebasedIndices(prims: seq<Primitive>, i: nat): (r: seq<nat>)
    requires i <= |prims|
    ensures |r| == IndicesBefore(prims, i)
  {
    if i == 0 then [] else RebasedIndices(prims, i - 1) + Rebase(prims[i - 1].indices, VerticesBefore(prims, i - 1))
  }

  /**
   * In the index buffer, primitive j's k-th index sits at IndicesBefore(j) + k
   * and is increased by the vertex count of the primitives before j.
   */
  lemma {:induction false} RebasedIndicesAt(prims: seq<Primitive>, i: nat, j: nat, k: nat)
    requires j < i <= |prims| && k < |prims[j].indices|
    ensures IndicesBefore(prims, j) + k < IndicesBefore(prims, i)
    ensures RebasedIndices(prims, i)[IndicesBefore(prims, j) + k] == prims[j].indices[k] + VerticesBefore(prims, j)
    decreases i
  {
    if j < i - 1 {
      RebasedIndicesAt(prims, i - 1, j, k);
      assert RebasedIndices(prims, i)[..IndicesBefore(prims, i - 1)] == RebasedIndices(prims, i - 1);
    }
  }

  /**
   * Copies every primitive's indices into the mesh's index buffer, one
   * primitive after the other, each index increased by the number of vertices
   * of the earlier primitives; submesh i covers exactly primitive i's range.
   */
  method SetupBuffers(prims: seq<Primitive>, indexBuffer: array<nat>) returns (submeshes: seq<Submesh>)
    requires indexBuffer.Length == IndicesBefore(prims, |prims|)
    modifies indexBuffer
    ensures |submeshes| == |prims|
    ensures forall i :: 0 <= i < |prims| ==> submeshes[i] == SubmeshOf(prims, i)
    ensures indexBuffer[..] == RebasedIndices(prims, |prims|)
  {
    submeshes := [];
    var startIndex, startVertex := 0, 0;
    var i := 0;
    while i < |prims|
      invariant 0 <= i <= |prims|
      invariant startIndex == IndicesBefore(prims, i) && startVertex == VerticesBefore(prims, i)
      invariant startIndex <= indexBuffer.Length
      invariant |submeshes| == i
      invariant forall j :: 0 <= j < i ==> submeshes[j] == SubmeshOf(prims, j)
      invariant indexBuffer[..startIndex] == RebasedIndices(prims, i)
    {
      var src := prims[i].indices;
      CopyPrimitive(prims, i, indexBuffer, startIndex, startVertex);
      submeshes := submeshes + [Submesh(startIndex, |src|)];
      startIndex := startIndex + |src|;
      startVertex := startVertex + VertexCount(prims[i].attributeCounts);
      i := i + 1;
    }
    assert indexBuffer[..] == indexBuffer[..startIndex];
  }

  /** Copies primitive i's rebased indices after those of the primitives before it. */
  method CopyPrimitive(prims: seq<Primitive>, i: nat, indexBuffer: array<nat>, startIndex: nat, startVertex: nat)
    requires i < |prims| && indexBuffer.Length == IndicesBefore(prims, |prims|)
    requires startIndex == IndicesBefore(prims, i) && startVertex == VerticesBefore(prims, i)
    requires startIndex <= indexBuffer.Length && indexBuffer[..startIndex] == RebasedIndices(prims, i)
    modifies indexBuffer
    ensures IndicesBefore(prims, i + 1) <= indexBuffer.Length
    ensures indexBuffer[..IndicesBefore(prims, i + 1)] == RebasedIndices(prims, i + 1)
  {
    var src := prims[i].indices;
    IndexRangesOrdered(prims, i, |prims|);
    CopyRebased(indexBuffer, startIndex, src, startVertex);
    assert indexBuffer[..startIndex + |src|] == indexBuffer[..startIndex] + indexBuffer[startIndex..startIndex + |src|];
  }

  /** Writes src rebased by base into buf[start..start + |src|], leaving the rest of buf as it was. */
  method CopyRebased(buf: array<nat>, start: nat, src: seq<nat>, base: nat)
    requires start + |src| <= buf.Length
    modifies buf
    ensures buf[start..start + |src|] == Rebase(src, base)
    ensures buf[..start] == old(buf[..start]) && buf[start + |src|..] == old(buf[start + |src|..])
  {
    var k := 0;
    while k < |src|
      invariant 0 <= k <= |src|
      invariant forall m :: 0 <= m < k ==> buf[start + m] == src[m] + base
      invariant forall p :: 0 <= p < buf.Length && !(start <= p < start + k) ==> buf[p] == old(buf[p])
    {
      buf[start + k] := src[k] + base;
      k := k + 1;
    }
  }

  /**
   * The per-mesh totals: sums of the primitives' vertex and index counts. `ok` is
   * false where one of the source's ASSERT_ALWAYS stops the bake: a primitive's
   * attribute counts disagree, or the mesh has no vertices or no indices.
   */
  method CountMeshTotals(prims: seq<Primitive>) returns (ok: bool, numVertices: nat, numIndices: nat)
    ensures ok <==> (forall p :: 0 <= p < |prims| ==> CountsAgree(prims[p].attributeCounts)) &&
                    VerticesBefore(prims, |prims|) != 0 && IndicesBefore(prims, |prims|) != 0
    ensures (forall p :: 0 <= p < |prims| ==> CountsAgree(prims[p].attributeCounts)) ==>
              numVertices == VerticesBefore(prims, |prims|) && numIndices == IndicesBefore(prims, |prims|)
  {
    numVertices, numIndices := 0, 0;
    var pi := 0;
    while pi < |prims|
      invariant 0 <= pi <= |prims|
      invariant numVertices == VerticesBefore(prims, pi) && numIndices == IndicesBefore(prims, pi)
      invariant forall p :: 0 <= p < pi ==> CountsAgree(prims[p].attributeCounts)
    {
      var agree, count := FirstNonZeroCount(prims[pi].attributeCounts);
      if !agree {
        assert !CountsAgree(prims[pi].attributeCounts);
        return false, numVertices, numIndices;
      }
      numVertices := numVertices + count;
      numIndices := numIndices + |prims[pi].indices|;
      pi := pi + 1;
    }
    ok := numVertices != 0 && numIndices != 0;
  }

  /**
   * The vertex count of one primitive: the first attribute count that is not 0.
   * `agree` is false, and the scan stops, at the first count that differs from it.
   */
  method FirstNonZeroCount(counts: seq<nat>) returns (agree: bool, count: nat)
    ensures agree <==> CountsAgree(counts)
    ensures agree ==> count == VertexCount(counts)
  {
    count := 0;
    var ai := 0;
    while ai < |counts|
      invariant 0 <= ai <= |counts|
      invariant count == VertexCount(counts[..ai])
      invariant CountsAgree(counts[..ai])
    {
      VertexCountExtend(counts, ai);
      if count == 0 {
        count := counts[ai];
      }
      if count != counts[ai] {
        DisagreeingCount(counts, ai);
        return false, count;
      }
      AgreeingCountsExtend(counts, ai);
      ai := ai + 1;
    }
    assert counts[..ai] == counts;
    return true, count;
  }

  /** A non-zero running count that differs from the next count breaks the agreement. */
  lemma DisagreeingCount(counts: seq<nat>, ai: nat)
    requires ai < |counts|
    requires VertexCount(counts[..ai]) != 0 && counts[ai] != VertexCount(counts[..ai])
    ensures !CountsAgree(counts)
  {
    var pre := counts[..ai];
    var i :| 0 <= i < |pre| && pre[i] == VertexCount(pre) && forall k :: 0 <= k < i ==> pre[k] == 0;
    assert counts[i] != 0 && counts[ai] != counts[i];
  }

  /** A count equal to the running count keeps the prefix's agreement. */
  lemma AgreeingCountsExtend(counts: seq<nat>, ai: nat)
    requires ai < |counts| && CountsAgree(counts[..ai])
    requires VertexCount(counts[..ai]) == 0 || counts[ai] == VertexCount(counts[..ai])
    ensures CountsAgree(counts[..ai + 1])
  {
    var pre, ext := counts[..ai], counts[..ai + 1];
    forall i, k | 0 <= i < k < |ext| && ext[i] != 0
      ensures ext[k] == ext[i]
    {
      if k < ai {
        assert pre[i] != 0;
      } else {
        assert pre[i] != 0;
        VertexCountOfAgreeing(pre, i);
      }
    }
  }

  /** Extending the scanned prefix by one count changes the vertex count only if it was still 0. */
  lemma {:induction false} VertexCountExtend(counts: seq<nat>, n: nat)
    requires n < |counts|
    ensures VertexCount(counts[..n + 1]) ==
            if VertexCount(counts[..n]) == 0 then counts[n] else VertexCount(counts[..n])
  {
    if n > 0 {
      if counts[0] == 0 {
        assert counts[..n + 1][1..] == counts[1..][..n];
        assert counts[..n][1..] == counts[1..][..n - 1];
        VertexCountExtend(counts[1..], n - 1);
      }
    }
  }

  // ---------------------------------------------------------------------------------
  // Buffer offsets

  datatype MeshCounts = MeshCounts(numVertices: nat, numIndices: nat)

  /** Bytes a mesh takes in the vertex buffer of the given stride. */
  function VertexBytes(meshes: seq<MeshCounts>, stride: nat): (sizes: seq<nat>)
    ensures |sizes| == |meshes|
  {
    seq(|meshes|, i requires 0 <= i < |meshes| => stride * meshes[i].numVertices)
  }

  /** Bytes a mesh takes in the index buffer (32-bit indices). */
  function IndexBytes(meshes: seq<MeshCounts>): (sizes: seq<nat>)
    ensures |sizes| == |meshes|
  {
    seq(|meshes|, i requires 0 <= i < |meshes| => 4 * meshes[i].numIndices)
  }

  /** The running buffer size before mesh i: each mesh is appended, then the total is rounded up to 16. */
  function BufferOffset(sizes: seq<nat>, i: nat): nat
    requires i <= |sizes|
  {
    if i == 0 then 0 else AlignValue(BufferOffset(sizes, i - 1) + sizes[i - 1], 16)
  }

  /** Every mesh's offset is 16-byte aligned and its range ends before any later mesh's range starts. */
  lemma {:induction false} BufferRangesDisjoint(sizes: seq<nat>, i: nat, j: nat)
    requires i < j <= |sizes|
    ensures BufferOffset(sizes, i) % 16 == 0 && BufferOffset(sizes, j) % 16 == 0
    ensures BufferOffset(sizes, i) + sizes[i] <= BufferOffset(sizes, j)
    decreases j - i
  {
    if j > i + 1 {
      BufferRangesDisjoint(sizes, i, j - 1);
    }
    if i == 0 {
      assert BufferOffset(sizes, 0) == 0;
    }
  }

  /** The offset of mesh i in the vertex buffer of the given stride. */
  function VertexOffset(meshes: seq<MeshCounts>, stride: nat, i: nat): nat
    requires i <= |meshes|
  {
    BufferOffset(VertexBytes(meshes, stride), i)
  }

  /** The offset of mesh i in the index buffer. */
  function IndexOffset(meshes: seq<MeshCounts>, i: nat): nat
    requires i <= |meshes|
  {
    BufferOffset(IndexBytes(meshes), i)
  }

  /**
   * Appends mesh i to every vertex buffer: returns the offsets it gets (the
   * sizes before it) and the buffer sizes after it.
   */
  method AppendMeshVertices(meshes: seq<MeshCounts>, strides: seq<nat>, i: nat, sizes: seq<nat>)
    returns (offsets: seq<nat>, newSizes: seq<nat>)
    requires i < |meshes| && |sizes| == |strides|
    requires forall b :: 0 <= b < |strides| ==> sizes[b] == VertexOffset(meshes, strides[b], i)
    ensures |offsets| == |strides| && |newSizes| == |strides|
    ensures forall b :: 0 <= b < |strides| ==> offsets[b] == VertexOffset(meshes, strides[b], i)
    ensures forall b :: 0 <= b < |strides| ==> newSizes[b] == VertexOffset(meshes, strides[b], i + 1)
  {
    offsets, newSizes := sizes, sizes;
    var b := 0;
    while b < |strides|
      invariant 0 <= b <= |strides| && |newSizes| == |strides|
      invariant forall c :: 0 <= c < b ==> newSizes[c] == VertexOffset(meshes, strides[c], i + 1)
      invariant forall c :: b <= c < |strides| ==> newSizes[c] == sizes[c]
    {
      var size := strides[b] * meshes[i].numVertices;
      assert VertexBytes(meshes, strides[b])[i] == size;
      newSizes := newSizes[b := AlignValue(newSizes[b] + size, 16)];
      b := b + 1;
    }
  }

  /** The offsets and sizes after the first i meshes are laid out. */
  ghost predicate LaidOut(meshes: seq<MeshCounts>, strides: seq<nat>, i: nat, vertexOffsets: seq<seq<nat>>,
                          vertexSizes: seq<nat>, indexOffsets: seq<nat>, indexSize: nat)
  {
    i <= |meshes| && |vertexOffsets| == i && |indexOffsets| == i && |vertexSizes| == |strides|
    && (forall j :: 0 <= j < i ==> |vertexOffsets[j]| == |strides|)
    && (forall j, b :: 0 <= j < i && 0 <= b < |strides| ==> vertexOffsets[j][b] == VertexOffset(meshes, strides[b], j))
    && (forall b :: 0 <= b < |strides| ==> vertexSizes[b] == VertexOffset(meshes, strides[b], i))
    && (forall j :: 0 <= j < i ==> indexOffsets[j] == IndexOffset(meshes, j))
    && indexSize == IndexOffset(meshes, i)
  }

  /**
   * Lays the meshes out in the model's buffers: for each mesh and each vertex
   * buffer, the offset is the running total before the mesh; the index buffer
   * likewise with 4 bytes per index. Returns the offsets and the final sizes.
   */
  method LayoutBuffers(meshes: seq<MeshCounts>, strides: seq<nat>)
    returns (vertexOffsets: seq<seq<nat>>, vertexSizes: seq<nat>, indexOffsets: seq<nat>, indexSize: nat)
    ensures |vertexOffsets| == |meshes| && |indexOffsets| == |meshes| && |vertexSizes| == |strides|
    ensures forall i :: 0 <= i < |meshes| ==> |vertexOffsets[i]| == |strides|
    ensures forall i, b :: 0 <= i < |meshes| && 0 <= b < |strides| ==>
              vertexOffsets[i][b] == VertexOffset(meshes, strides[b], i)
    ensures forall b :: 0 <= b < |strides| ==> vertexSizes[b] == VertexOffset(meshes, strides[b], |meshes|)
    ensures forall i :: 0 <= i < |meshes| ==> indexOffsets[i] == IndexOffset(meshes, i)
    ensures indexSize == IndexOffset(meshes, |meshes|)
  {
    vertexSizes := seq(|strides|, b => 0);
    vertexOffsets, indexOffsets, indexSize := [], [], 0;
    var i := 0;
    while i < |meshes|
      invariant LaidOut(meshes, strides, i, vertexOffsets, vertexSizes, indexOffsets, indexSize)
    {
      vertexOffsets, vertexSizes, indexOffsets, indexSize :=
        AppendMesh(meshes, strides, i, vertexOffsets, vertexSizes, indexOffsets, indexSize);
      i := i + 1;
    }
  }

  /** One round of the layout loop: mesh i gets the running totals as offsets, and the totals grow past it. */
  method AppendMesh(meshes: seq<MeshCounts>, strides: seq<nat>, i: nat, vertexOffsets: seq<seq<nat>>,
                    vertexSizes: seq<nat>, indexOffsets: seq<nat>, indexSize: nat)
    returns (vertexOffsets': seq<seq<nat>>, vertexSizes': seq<nat>, indexOffsets': seq<nat>, indexSize': nat)
    requires i < |meshes| && LaidOut(meshes, strides, i, vertexOffsets, vertexSizes, indexOffsets, indexSize)
    ensures LaidOut(meshes, strides, i + 1, vertexOffsets', vertexSizes', indexOffsets', indexSize')
    ensures vertexOffsets' == vertexOffsets + [vertexOffsets'[i]] && indexOffsets' == indexOffsets + [indexSize]
  {
    var offsets;
    offsets, vertexSizes' := AppendMeshVertices(meshes, strides, i, vertexSizes);
    vertexOffsets' := vertexOffsets + [offsets];
    indexOffsets' := indexOffsets + [indexSize];
    assert IndexBytes(meshes)[i] == 4 * meshes[i].numIndices;
    indexSize' := AlignValue(indexSize + 4 * meshes[i].numIndices, 16);
  }

  // ---------------------------------------------------------------------------------
  // Material de-duplication

  /** One entry of the de-duplicated material list: its 1-based id and its content hash. */
  datatype MaterialData = MaterialData(id: nat, hash: nat)

  /** Ids are 1-based positions (IndexToId). */
  function IndexToId(index: nat): nat
  {
    index + 1
  }

  /**
   * De-duplicates the materials of all primitives by hash. `hashes` holds one
   * hash per primitive that has a material, in primitive order. Each distinct
   * hash gets one entry, in order of first appearance, with id IndexToId of
   * its position; materialsMap sends each primitive to its entry.
   */
  method DedupMaterials(hashes: seq<nat>) returns (materials: seq<MaterialData>, materialsMap: seq<nat>)
    ensures |materialsMap| == |hashes|
    ensures forall i :: 0 <= i < |hashes| ==>
              materialsMap[i] < |materials| && materials[materialsMap[i]].hash == hashes[i]
    ensures forall i, j :: 0 <= i < j < |materials| ==> materials[i].hash != materials[j].hash
    ensures forall k :: 0 <= k < |materials| ==> materials[k].id == IndexToId(k)
    ensures forall k :: 0 <= k < |materials| ==> materials[k].hash in hashes
    ensures forall i, j :: 0 <= i < |hashes| && 0 <= j < |hashes| ==>
              (materialsMap[i] == materialsMap[j] <==> hashes[i] == hashes[j])
  {
    materials, materialsMap := [], [];
    var i := 0;
    while i < |hashes|
      invariant 0 <= i <= |hashes| && |materialsMap| == i
      invariant forall p :: 0 <= p < i ==> materialsMap[p] < |materials| && materials[materialsMap[p]].hash == hashes[p]
      invariant forall p, q :: 0 <= p < q < |materials| ==> materials[p].hash != materials[q].hash
      invariant forall k :: 0 <= k < |materials| ==> materials[k].id == IndexToId(k)
      invariant forall k :: 0 <= k < |materials| ==> materials[k].hash in hashes[..i]
    {
      var hash := hashes[i];
      var index := FindMaterial(materials, hash);
      if index == |materials| {
        materials := materials + [MaterialData(IndexToId(index), hash)];
      }
      assert hashes[..i + 1] == hashes[..i] + [hash];
      materialsMap := materialsMap + [index];
      i := i + 1;
    }
    assert hashes[..i] == hashes;
  }

  /** The position of the material with the given hash, or the length of the list when there is none. */
  method FindMaterial(materials: seq<MaterialData>, hash: nat) returns (index: nat)
    ensures index <= |materials|
    ensures index < |materials| ==> materials[index].hash == hash
    ensures forall k :: 0 <= k < index ==> materials[k].hash != hash
  {
    index := 0;
    while index < |materials| && materials[index].hash != hash
      invariant 0 <= index <= |materials|
      invariant forall k :: 0 <= k < index ==> materials[k].hash != hash
    {
      index := index + 1;
    }
  }

  // ---------------------------------------------------------------------------------
  // Node lookup

  /** The id (IndexToId) of the first node called `name`, or 0 when there is none. */
  method FindNodeByName(names: seq<string>, name: string) returns (id: nat)
    ensures id == 0 <==> name !in names
    ensures id != 0 ==> id <= |names| && names[id - 1] == name && name !in names[..id - 1]
  {
    var ni := 0;
    while ni < |names|
      invariant 0 <= ni <= |names|
      invariant name !in names[..ni]
    {
      if names[ni] == name {
        return IndexToId(ni);
      }
      assert names[..ni + 1] == names[..ni] + [names[ni]];
      ni := ni + 1;
    }
    assert names[..ni] == names;
    return 0;
  }

  // ---------------------------------------------------------------------------------
  // Material textures and asset dependencies

  /** The parts of a GLTF material the loader reads: the PBR flag and the four texture references. */
  datatype GltfMaterial = GltfMaterial(
    hasPbrMetallicRoughness: bool,
    baseColorTexture: Option<string>,
    metallicRoughnessTexture: Option<string>,
    normalTexture: Option<string>,
    occlusionTexture: Option<string>)

  /** A baked material: a texture path per slot, None when the slot is empty. */
  datatype Material = Material(
    baseColorTex: Option<string>,
    metallicRoughnessTex: Option<string>,
    normalTex: Option<string>,
    occlusionTex: Option<string>)

  /** The texture paths of a material that are set, in the order the dependencies are gathered. */
  function TexturePaths(m: Material): (paths: seq<string>)
    ensures |paths| <= 4
  {
    (if m.baseColorTex.Some? then [m.baseColorTex.value] else []) +
    (if m.metallicRoughnessTex.Some? then [m.metallicRoughnessTex.value] else []) +
    (if m.normalTex.Some? then [m.normalTex.value] else []) +
    (if m.occlusionTex.Some? then [m.occlusionTex.value] else [])
  }

  /** A primitive without a GLTF material gets a default material: no textures. */
  function DefaultMaterial(): (m: Material)
    ensures TexturePaths(m) == []
  {
    Material(None, None, None, None)
  }

  /**
   * Builds the baked material: the four textures are read only when the
   * material has PBR metallic-roughness data. Returns the material and how
   * many textures were loaded, which is the number of paths it holds.
   */
  function CreateMaterial(g: GltfMaterial): (r: (Material, nat))
    ensures r.1 == |TexturePaths(r.0)| && r.1 <= 4
    ensures !g.hasPbrMetallicRoughness ==> r.1 == 0
  {
    if g.hasPbrMetallicRoughness then
      var m := Material(g.baseColorTexture, g.metallicRoughnessTexture, g.normalTexture, g.occlusionTexture);
      (m, (if m.baseColorTex.Some? then 1 else 0) + (if m.metallicRoughnessTex.Some? then 1 else 0) +
          (if m.normalTex.Some? then 1 else 0) + (if m.occlusionTex.Some? then 1 else 0))
    else
      (DefaultMaterial(), 0)
  }

  /** The dependency paths of the submesh materials, in submesh order. */
  function DependencyPaths(materials: seq<Material>): seq<string>
  {
    if materials == [] then [] else DependencyPaths(materials[..|materials| - 1]) + TexturePaths(materials[|materials| - 1])
  }

  /** The texture count of the loaded submesh materials. */
  function TextureCount(gltf: seq<Option<GltfMaterial>>): nat
  {
    if gltf == [] then 0
    else TextureCount(gltf[..|gltf| - 1]) +
         (match gltf[|gltf| - 1] case Some(g) => CreateMaterial(g).1 case None => 0)
  }

  /** The baked submesh materials: created from the GLTF material, or the default. */
  function BakedMaterials(gltf: seq<Option<GltfMaterial>>): (ms: seq<Material>)
    ensures |ms| == |gltf|
  {
    seq(|gltf|, i requires 0 <= i < |gltf| =>
      match gltf[i] case Some(g) => CreateMaterial(g).0 case None => DefaultMaterial())
  }

  /** One dependency is gathered per texture counted while loading: the two counts agree. */
  lemma {:induction false} DependencyCountMatchesTextureCount(gltf: seq<Option<GltfMaterial>>)
    ensures |DependencyPaths(BakedMaterials(gltf))| == TextureCount(gltf)
    decreases |gltf|
  {
    if gltf != [] {
      var init := gltf[..|gltf| - 1];
      assert BakedMaterials(gltf)[..|gltf| - 1] == BakedMaterials(init);
      DependencyCountMatchesTextureCount(init);
    }
  }

  /** Gathers one dependency per set texture path of every submesh material. */
  method GatherDependencies(materials: seq<Material>) returns (depends: seq<string>)
    ensures depends == DependencyPaths(materials)
  {
    depends := [];
    var i := 0;
    while i < |materials|
      invariant 0 <= i <= |materials|
      invariant depends == DependencyPaths(materials[..i])
    {
      var m := materials[i];
      var added: seq<string> := [];
      if m.baseColorTex.Some? { added := added + [m.baseColorTex.value]; }
      if m.metallicRoughnessTex.Some? { added := added + [m.metallicRoughnessTex.value]; }
      if m.normalTex.Some? { added := added + [m.normalTex.value]; }
      if m.occlusionTex.Some? { added := added + [m.occlusionTex.value]; }
      assert added == TexturePaths(m);
      assert materials[..i + 1][..i] == materials[..i];
      depends := depends + added;
      i := i + 1;
    }
    assert materials[..i] == materials;
  }

  /** The loaded model as far as the asset result is concerned. */
  datatype LoadedModel = LoadedModel(submeshMaterials: seq<Option<GltfMaterial>>)

  datatype AssetResult = AssetResult(obj: Option<LoadedModel>, depends: seq<string>, cacheHash: nat)

  /**
   * The loader's cache check: an unchanged hash returns only the hash; a failed
   * load returns an empty result; otherwise the model with one dependency per
   * texture it counted.
   */
  function Load(newCacheHash: nat, cacheHash: nat, loaded: Option<LoadedModel>): (r: AssetResult)
    ensures newCacheHash == cacheHash ==> r == AssetResult(None, [], newCacheHash)
    ensures newCacheHash != cacheHash && loaded.None? ==> r == AssetResult(None, [], 0)
    ensures newCacheHash != cacheHash && loaded.Some? ==>
              r.obj == loaded && r.cacheHash == newCacheHash &&
              |r.depends| == TextureCount(loaded.value.submeshMaterials)
    ensures newCacheHash != cacheHash && loaded.Some? ==>
              r.depends == DependencyPaths(BakedMaterials(loaded.value.submeshMaterials))
  {
    if newCacheHash != cacheHash then
      match loaded
      case None => AssetResult(None, [], 0)
      case Some(model) =>
        DependencyCountMatchesTextureCount(model.submeshMaterials);
        if TextureCount(model.submeshMaterials) > 0 then
          AssetResult(loaded, DependencyPaths(BakedMaterials(model.submeshMaterials)), newCacheHash)
        else
          AssetResult(loaded, [], newCacheHash)
    else
      AssetResult(None, [], newCacheHash)
  }
}
