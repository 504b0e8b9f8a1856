// Frame bookkeeping of the forward renderer: the vertex layout it hands to
// model loading, the MSAA setting check, light-culling tile counts and the
// sentinel fill of the visible-light buffer, and the per-view list of geometry
// chunks with their sub-chunk arrays. GPU commands, matrices and colours are
// not modelled.

module Render {
  import opened Wrappers
  import opened GfxFormats

  const LightCullTileSize: nat := 16
  const LightCullMaxLightsPerTile: nat := 64
  const NoLightSentinel: bv32 := 0xffff_ffff

  // ---------------------------------------------------------------------------------
  // Vertex layout

  datatype VertexInputAttribute = VertexInputAttribute(
    semantic: string, semanticIdx: nat, binding: nat, format: GfxFormat, offset: nat)

  /** The renderer's vertex layout: positions in buffer 0, normal and texcoord interleaved in buffer 1. */
  const RVertexAttributes: seq<VertexInputAttribute> := [
    VertexInputAttribute("POSITION", 0, 0, R32G32B32_SFLOAT, 0),
    VertexInputAttribute("NORMAL", 0, 1, R32G32B32_SFLOAT, 0),
    VertexInputAttribute("TEXCOORD", 0, 1, R32G32_SFLOAT, 12)
  ]

  /** Bytes per vertex of each buffer: one float3, then a float3 and a float2. */
  const RVertexBufferStrides: seq<nat> := [12, 20]

  /**
   * The layout is self-consistent: every attribute names an existing buffer,
   * fits inside that buffer's stride, and attributes sharing a buffer do not
   * overlap.
   */
  lemma RVertexLayoutConsistent()
    ensures forall k :: 0 <= k < |RVertexAttributes| ==>
              RVertexAttributes[k].binding < |RVertexBufferStrides| &&
              0 < VertexStride(RVertexAttributes[k].format) &&
              RVertexAttributes[k].offset + VertexStride(RVertexAttributes[k].format)
                <= RVertexBufferStrides[RVertexAttributes[k].binding]
    ensures forall k, m :: (0 <= k < m < |RVertexAttributes| &&
                            RVertexAttributes[k].binding == RVertexAttributes[m].binding) ==>
              RVertexAttributes[k].offset + VertexStride(RVertexAttributes[k].format) <= RVertexAttributes[m].offset
  {
  }

  /**
   * Copies the first min(maxAttributes, 3) attributes and min(maxStrides, 2)
   * strides of the renderer's layout, in order; the rest of the output arrays
   * is left alone.
   */
  method GetCompatibleLayout(maxAttributes: nat, outAtts: array<VertexInputAttribute>,
                             maxStrides: nat, outStrides: array<nat>)
    requires maxAttributes > 0 && maxStrides > 0
    requires outAtts.Length >= maxAttributes && outStrides.Length >= maxStrides
    modifies outAtts, outStrides
    ensures outAtts[..Min(maxAttributes, |RVertexAttributes|)] == RVertexAttributes[..Min(maxAttributes, |RVertexAttributes|)]
    ensures outAtts[Min(maxAttributes, |RVertexAttributes|)..] == old(outAtts[Min(maxAttributes, |RVertexAttributes|)..])
    ensures outStrides[..Min(maxStrides, |RVertexBufferStrides|)] == RVertexBufferStrides[..Min(maxStrides, |RVertexBufferStrides|)]
    ensures outStrides[Min(maxStrides, |RVertexBufferStrides|)..] == old(outStrides[Min(maxStrides, |RVertexBufferStrides|)..])
  {
    var numAttributes := Min(maxAttributes, |RVertexAttributes|);
    var numStrides := Min(maxStrides, |RVertexBufferStrides|);
    forall k | 0 <= k < numAttributes {
      outAtts[k] := RVertexAttributes[k];
    }
    forall k | 0 <= k < numStrides {
      outStrides[k] := RVertexBufferStrides[k];
    }
  }

  // ---------------------------------------------------------------------------------
  // MSAA setting

  function Pow2(k: nat): nat
  {
    if k == 0 then 1 else 2 * Pow2(k - 1)
  }

  /** The MSAA check of the renderer's initialisation: the sample count is one of 1, 2, 4, 8, 16. */
  function MsaaIsValid(msaa: nat): (ok: bool)
    ensures ok <==> exists k :: 0 <= k <= 4 && msaa == Pow2(k)
  {
    assert Pow2(0) == 1 && Pow2(1) == 2 && Pow2(2) == 4 && Pow2(3) == 8 && Pow2(4) == 16;
    msaa == 1 || msaa == 2 || msaa == 4 || msaa == 8 || msaa == 16
  }

  // ---------------------------------------------------------------------------------
  // Light-culling tiles

  /** Number of 16-pixel tiles covering `pixels`: the least count whose tiles reach past the last pixel. */
  function TileCount(pixels: nat): (n: nat)
    ensures n * LightCullTileSize >= pixels
    ensures n == 0 || (n - 1) * LightCullTileSize < pixels
  {
    (pixels + LightCullTileSize - 1) / LightCullTileSize
  }

  /** Number of uint32 slots of the visible-light index buffer: 64 per tile. */
  function VisibleLightSlots(width: nat, height: nat): nat
  {
    TileCount(width) * TileCount(height) * LightCullMaxLightsPerTile
  }

  /** Size in bytes of the visible-light index buffer created for a framebuffer. */
  function VisibleLightBufferBytes(width: nat, height: nat): (bytes: nat)
    ensures bytes == 4 * VisibleLightSlots(width, height)
  {
    4 * TileCount(width) * TileCount(height) * LightCullMaxLightsPerTile
  }

  /** The row-major tile index of a pixel. */
  function TileOfPixel(width: nat, x: nat, y: nat): nat
  {
    (y / LightCullTileSize) * TileCount(width) + x / LightCullTileSize
  }

  /**
   * Every pixel of the framebuffer falls in a tile whose 64 light slots lie
   * inside the visible-light buffer.
   */
  lemma PixelTileInBuffer(width: nat, height: nat, x: nat, y: nat)
    requires x < width && y < height
    ensures TileOfPixel(width, x, y) < TileCount(width) * TileCount(height)
    ensures (TileOfPixel(width, x, y) + 1) * LightCullMaxLightsPerTile <= VisibleLightSlots(width, height)
  {
    var tx, ty := TileCount(width), TileCount(height);
    var cx, cy := x / LightCullTileSize, y / LightCullTileSize;
    assert cx < tx && cy < ty;
    var t := cy * tx + cx;
    assert t < ty * tx by {
      assert cy * tx <= (ty - 1) * tx by { MulMonotone(cy, ty - 1, tx); }
      assert (ty - 1) * tx + tx == ty * tx;
    }
    assert ty * tx == tx * ty;
    assert (t + 1) * LightCullMaxLightsPerTile <= tx * ty * LightCullMaxLightsPerTile by {
      MulMonotone(t + 1, tx * ty, LightCullMaxLightsPerTile);
    }
  }

  lemma MulMonotone(a: nat, b: nat, c: nat)
    requires a <= b
    ensures a * c <= b * c
  {
  }

  /**
   * With no lights in view, the first slot of every tile's light list is set
   * to the end-of-list sentinel; nothing else is written.
   */
  method FillSentinels(indices: array<bv32>, numTiles: nat)
    requires numTiles * LightCullMaxLightsPerTile <= indices.Length
    modifies indices
    ensures forall i :: 0 <= i < numTiles ==> indices[i * LightCullMaxLightsPerTile] == NoLightSentinel
    ensures forall p :: 0 <= p < indices.Length && (p % LightCullMaxLightsPerTile != 0 || p >= numTiles * LightCullMaxLightsPerTile) ==>
              indices[p] == old(indices[p])
  {
    var i := 0;
    while i < numTiles
      invariant 0 <= i <= numTiles
      invariant forall j :: 0 <= j < i ==> indices[j * LightCullMaxLightsPerTile] == NoLightSentinel
      invariant forall p :: 0 <= p < indices.Length && (p % LightCullMaxLightsPerTile != 0 || p >= i * LightCullMaxLightsPerTile) ==>
                  indices[p] == old(indices[p])
    {
      indices[i * LightCullMaxLightsPerTile] := NoLightSentinel;
      i := i + 1;
    }
  }

  // ---------------------------------------------------------------------------------
  // Geometry chunks

  /** A draw of numIndices indices from startIndex, with a base colour image handle (0 = none). */
  datatype SubChunk = SubChunk(startIndex: nat, numIndices: nat, baseColorImg: nat)

  /** The number of indices drawn for a list of sub-chunks. */
  function SumIndices(subs: seq<SubChunk>): nat
  {
    if subs == [] then 0 else SumIndices(subs[..|subs| - 1]) + subs[|subs| - 1].numIndices
  }

  /** The draw count of two concatenated sub-chunk lists is the sum of their draw counts. */
  lemma {:induction false} SumIndicesAppend(a: seq<SubChunk>, b: seq<SubChunk>)
    ensures SumIndices(a + b) == SumIndices(a) + SumIndices(b)
    decreases |b|
  {
    if b == [] {
      assert a + b == a;
    } else {
      assert (a + b)[..|a + b| - 1] == a + b[..|b| - 1];
      SumIndicesAppend(a, b[..|b| - 1]);
    }
  }

  /** A chunk of geometry recorded for a view in the current frame. */
  class GeometryChunk {
    var nextChunk: GeometryChunk?
    var subChunks: seq<SubChunk>
    var numSubChunks: nat

    /** A freshly allocated chunk is zeroed: no successor and no sub-chunks. */
    constructor ()
      ensures nextChunk == null && subChunks == [] && numSubChunks == 0
    {
      nextChunk, subChunks, numSubChunks := null, [], 0;
    }

    ghost predicate Valid()
      reads this
    {
      numSubChunks == |subChunks|
    }

    /** Appends one sub-chunk after the existing ones. */
    method AddSubChunk(subChunk: SubChunk)
      requires Valid()
      modifies this
      ensures Valid()
      ensures subChunks == old(subChunks) + [subChunk] && numSubChunks == old(numSubChunks) + 1
      ensures nextChunk == old(nextChunk)
    {
      subChunks := subChunks + [subChunk];
      numSubChunks := numSubChunks + 1;
    }

    /** Appends a non-empty run of sub-chunks after the existing ones, in order. */
    method AddSubChunks(newSubChunks: seq<SubChunk>)
      requires Valid() && |newSubChunks| > 0
      modifies this
      ensures Valid()
      ensures subChunks == old(subChunks) + newSubChunks && numSubChunks == old(numSubChunks) + |newSubChunks|
      ensures nextChunk == old(nextChunk)
    {
      subChunks := subChunks + newSubChunks;
      numSubChunks := numSubChunks + |newSubChunks|;
    }

    /** The Z-prepass draw count of the chunk: the indices of all its sub-chunks. */
    method DrawCount() returns (numIndices: nat)
      requires Valid()
      ensures numIndices == SumIndices(subChunks)
    {
      numIndices := 0;
      var sc := 0;
      while sc < numSubChunks
        invariant 0 <= sc <= numSubChunks
        invariant numIndices == SumIndices(subChunks[..sc])
      {
        assert subChunks[..sc + 1][..sc] == subChunks[..sc];
        numIndices := numIndices + subChunks[sc].numIndices;
        sc := sc + 1;
      }
      assert subChunks[..sc] == subChunks;
    }
  }

  /** Appending sub-chunks grows the chunk's draw count by exactly theirs. */
  lemma AddSubChunksDrawCount(before: seq<SubChunk>, added: seq<SubChunk>)
    ensures SumIndices(before + added) == SumIndices(before) + SumIndices(added)
    ensures SumIndices(before + added) >= SumIndices(before)
  {
    SumIndicesAppend(before, added);
  }

  datatype LightBounds = LightBounds(lightIndex: nat)
  datatype LightProps = LightProps(lightIndex: nat)

  /**
   * The per-frame part of a view: its light arrays (an empty array stands for
   * a null reference) and its singly linked list of geometry chunks with head,
   * tail and count.
   */
  class ViewData {
    var lightBounds: seq<LightBounds>
    var lightProps: seq<LightProps>
    var numLights: nat
    var chunkList: GeometryChunk?
    var lastChunk: GeometryChunk?
    var numGeometryChunks: nat
    /** The chunks of the list, from head to tail. */
    ghost var chunks: seq<GeometryChunk>

    /** The list is well formed: head, tail and count agree with the chunks, which are linked in order. */
    ghost predicate Valid()
      reads this, chunks
    {
      numGeometryChunks == |chunks| &&
      (chunks == [] ==> chunkList == null && lastChunk == null) &&
      (chunks != [] ==> chunkList == chunks[0] && lastChunk == chunks[|chunks| - 1] &&
                        chunks[|chunks| - 1].nextChunk == null) &&
      (forall i :: 0 <= i < |chunks| - 1 ==> chunks[i].nextChunk == chunks[i + 1]) &&
      (forall i, j :: 0 <= i < j < |chunks| ==> chunks[i] != chunks[j])
    }

    /** A view created with no lights and no geometry. */
    constructor ()
      ensures Valid() && chunks == [] && numLights == 0 && lightBounds == [] && lightProps == []
    {
      lightBounds, lightProps, numLights := [], [], 0;
      chunkList, lastChunk, numGeometryChunks := null, null, 0;
      chunks := [];
    }

    /**
     * Allocates a zeroed chunk and appends it at the tail: the head is set on
     * the first append, the tail becomes the new chunk and the count grows by
     * one; the existing chunks keep their sub-chunks.
     */
    method NewGeometryChunk() returns (chunk: GeometryChunk)
      requires Valid()
      modifies this, chunks
      ensures Valid() && fresh(chunk)
      ensures chunks == old(chunks) + [chunk]
      ensures numGeometryChunks == old(numGeometryChunks) + 1
      ensures old(chunkList) == null ==> chunkList == chunk
      ensures old(chunkList) != null ==> chunkList == old(chunkList)
      ensures lastChunk == chunk
      ensures chunk.subChunks == [] && chunk.numSubChunks == 0
      ensures forall c :: c in old(chunks) ==> c.subChunks == old(c.subChunks) && c.numSubChunks == old(c.numSubChunks)
      ensures lightBounds == old(lightBounds) && lightProps == old(lightProps) && numLights == old(numLights)
    {
      chunk := new GeometryChunk();
      if lastChunk != null {
        lastChunk.nextChunk := chunk;
      } else {
        chunkList := chunk;
      }
      lastChunk := chunk;
      numGeometryChunks := numGeometryChunks + 1;
      chunks := chunks + [chunk];
    }

    /**
     * The draw counts the Z-prepass issues: it walks the list from the head
     * and draws each chunk with the sum of its sub-chunks' indices.
     */
    method DrawCounts() returns (counts: seq<nat>)
      requires Valid()
      requires forall c :: c in chunks ==> c.Valid()
      ensures |counts| == numGeometryChunks
      ensures forall i :: 0 <= i < |counts| ==> counts[i] == SumIndices(chunks[i].subChunks)
    {
      counts := [];
      var chunk := chunkList;
      while chunk != null
        invariant |counts| <= |chunks|
        invariant chunk == (if |counts| < |chunks| then chunks[|counts|] else null)
        invariant forall i :: 0 <= i < |counts| ==> counts[i] == SumIndices(chunks[i].subChunks)
        decreases |chunks| - |counts|
      {
        var n := chunk.DrawCount();
        counts := counts + [n];
        chunk := chunk.nextChunk;
      }
    }

    /** The per-view part of a new frame: no chunks, no lights. */
    method ResetForFrame()
      modifies this
      ensures Valid() && chunks == []
      ensures chunkList == null && lastChunk == null && numGeometryChunks == 0
      ensures lightBounds == [] && lightProps == [] && numLights == 0
    {
      chunkList, lastChunk := null, null;
      lightBounds, lightProps := [], [];
      numLights, numGeometryChunks := 0, 0;
      chunks := [];
    }
  }

  /** Starts a new frame: every view's chunk list, light arrays and counts are cleared. */
  method NewFrame(views: seq<ViewData>)
    modifies set v | v in views
    ensures forall v :: v in views ==>
              v.Valid() && v.chunks == [] && v.numGeometryChunks == 0 && v.numLights == 0 &&
              v.lightBounds == [] && v.lightProps == []
  {
    var i := 0;
    while i < |views|
      invariant 0 <= i <= |views|
      invariant forall k :: 0 <= k < i ==>
                  views[k].Valid() && views[k].chunks == [] && views[k].numGeometryChunks == 0 &&
                  views[k].numLights == 0 && views[k].lightBounds == [] && views[k].lightProps == []
    {
      views[i].ResetForFrame();
      i := i + 1;
    }
  }
}
