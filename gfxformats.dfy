// Pixel and vertex formats of the graphics layer. `GfxFormat` is the engine's
// numeric format enum (the Vulkan format numbers); only the members the modelled
// code names get a constant here.

module GfxFormats {

  type GfxFormat = nat

  const R8G8B8A8_UNORM: GfxFormat := 37
  const R8G8B8A8_SNORM: GfxFormat := 38
  const R8G8B8A8_UINT: GfxFormat := 41
  const R8G8B8A8_SINT: GfxFormat := 42
  const R16G16_UNORM: GfxFormat := 77
  const R16G16_SNORM: GfxFormat := 78
  const R16G16_UINT: GfxFormat := 81
  const R16G16_SINT: GfxFormat := 82
  const R16G16B16A16_UNORM: GfxFormat := 91
  const R16G16B16A16_SNORM: GfxFormat := 92
  const R16G16B16A16_UINT: GfxFormat := 95
  const R16G16B16A16_SINT: GfxFormat := 96
  const R32_SFLOAT: GfxFormat := 100
  const R32G32_SFLOAT: GfxFormat := 103
  const R32G32B32_SFLOAT: GfxFormat := 106
  const R32G32B32A32_SFLOAT: GfxFormat := 109
  const D32_SFLOAT: GfxFormat := 126
  const S8_UINT: GfxFormat := 127
  const D16_UNORM_S8_UINT: GfxFormat := 128
  const D24_UNORM_S8_UINT: GfxFormat := 129
  const D32_SFLOAT_S8_UINT: GfxFormat := 130

  /** Formats that carry a depth channel. */
  predicate HasDepth(fmt: GfxFormat)
  {
    fmt == D32_SFLOAT || fmt == D16_UNORM_S8_UINT || fmt == D24_UNORM_S8_UINT || fmt == D32_SFLOAT_S8_UINT
  }

  /** Formats that carry a stencil channel. */
  predicate HasStencil(fmt: GfxFormat)
  {
    fmt == D24_UNORM_S8_UINT || fmt == D16_UNORM_S8_UINT || fmt == D32_SFLOAT_S8_UINT || fmt == S8_UINT
  }

  /** A depth/stencil format is one with a depth channel, a stencil channel or both. */
  function IsDepthStencil(fmt: GfxFormat): (b: bool)
    ensures b <==> HasDepth(fmt) || HasStencil(fmt)
  {
    fmt == D32_SFLOAT || fmt == D16_UNORM_S8_UINT || fmt == D24_UNORM_S8_UINT ||
    fmt == D32_SFLOAT_S8_UINT || fmt == S8_UINT
  }

  /** The formats accepted for vertex attributes when baking models. */
  predicate IsVertexFormat(fmt: GfxFormat)
  {
    fmt in {R32_SFLOAT, R32G32_SFLOAT, R32G32B32_SFLOAT, R32G32B32A32_SFLOAT,
            R8G8B8A8_SINT, R8G8B8A8_SNORM, R8G8B8A8_UINT, R8G8B8A8_UNORM,
            R16G16_SINT, R16G16_UNORM, R16G16_SNORM, R16G16_UINT,
            R16G16B16A16_SNORM, R16G16B16A16_UNORM, R16G16B16A16_SINT, R16G16B16A16_UINT}
  }

  /** Number of channels, read off the format's name (R, RG, RGB, RGBA). */
  function ChannelCount(fmt: GfxFormat): nat
    requires IsVertexFormat(fmt)
  {
    if fmt == R32_SFLOAT then 1
    else if fmt in {R32G32_SFLOAT, R16G16_SINT, R16G16_UNORM, R16G16_SNORM, R16G16_UINT} then 2
    else if fmt == R32G32B32_SFLOAT then 3
    else 4
  }

  /** Bits per channel, read off the format's name (8, 16 or 32). */
  function ChannelBits(fmt: GfxFormat): nat
    requires IsVertexFormat(fmt)
  {
    if fmt in {R8G8B8A8_SINT, R8G8B8A8_SNORM, R8G8B8A8_UINT, R8G8B8A8_UNORM} then 8
    else if fmt in {R32_SFLOAT, R32G32_SFLOAT, R32G32B32_SFLOAT, R32G32B32A32_SFLOAT} then 32
    else 16
  }

  /**
   * Byte size of one vertex element of the format, 0 for a format the baker
   * does not accept: always channel count times channel size.
   */
  function VertexStride(fmt: GfxFormat): (r: nat)
    ensures IsVertexFormat(fmt) ==> r == ChannelCount(fmt) * (ChannelBits(fmt) / 8)
    ensures !IsVertexFormat(fmt) ==> r == 0
  {
    if fmt == R32_SFLOAT then 4
    else if fmt == R32G32_SFLOAT then 4 * 2
    else if fmt == R32G32B32_SFLOAT then 4 * 3
    else if fmt == R32G32B32A32_SFLOAT then 4 * 4
    else if fmt == R8G8B8A8_SINT || fmt == R8G8B8A8_SNORM || fmt == R8G8B8A8_UINT || fmt == R8G8B8A8_UNORM then 1 * 4
    else if fmt == R16G16_SINT || fmt == R16G16_UNORM || fmt == R16G16_SNORM || fmt == R16G16_UINT then 2 * 2
    else if fmt == R16G16B16A16_SNORM || fmt == R16G16B16A16_UNORM || fmt == R16G16B16A16_SINT || fmt == R16G16B16A16_UINT then 2 * 4
    else 0
  }

  /** Every accepted vertex format has a whole, 4-byte aligned size of at most 16 bytes. */
  lemma VertexStrideBounds(fmt: GfxFormat)
    ensures VertexStride(fmt) % 4 == 0 && VertexStride(fmt) <= 16
    ensures VertexStride(fmt) > 0 <==> IsVertexFormat(fmt)
  {
  }
}
