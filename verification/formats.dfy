/** The closed set of formats and errors the texture loader deals in. */
module DdsTypes {

  /** The engine pixel formats the resolver can produce (Unity's `GraphicsFormat` names);
      `None` is the "unresolved" value the texture constructor rejects. */
  datatype GraphicsFormat =
    | None
    | RGBA_DXT1_UNorm | RGBA_DXT1_SRGB
    | RGBA_DXT3_UNorm | RGBA_DXT3_SRGB
    | RGBA_DXT5_UNorm | RGBA_DXT5_SRGB
    | R_BC4_UNorm | R_BC4_SNorm
    | RG_BC5_UNorm | RG_BC5_SNorm
    | RGB_BC6H_UFloat | RGB_BC6H_SFloat
    | RGBA_BC7_UNorm | RGBA_BC7_SRGB
    | R8_UNorm | R8G8_UNorm | R8G8B8A8_UNorm | B8G8R8A8_UNorm
    | R16_SFloat | R16G16_SFloat | R16G16B16_SFloat | R16G16B16A16_SFloat
    | R16G16B16A16_UNorm | R16G16B16A16_SNorm
    | R32_SFloat | R32G32_SFloat | R32G32B32A32_SFloat
  {
    /** The sRGB block-compressed formats. */
    predicate IsSrgb() {
      RGBA_DXT1_SRGB? || RGBA_DXT3_SRGB? || RGBA_DXT5_SRGB? || RGBA_BC7_SRGB?
    }

    /** The block-compressed formats. */
    predicate IsBlockCompressed() {
      || RGBA_DXT1_UNorm? || RGBA_DXT1_SRGB? || RGBA_DXT3_UNorm? || RGBA_DXT3_SRGB?
      || RGBA_DXT5_UNorm? || RGBA_DXT5_SRGB? || R_BC4_UNorm? || R_BC4_SNorm?
      || RG_BC5_UNorm? || RG_BC5_SNorm? || RGB_BC6H_UFloat? || RGB_BC6H_SFloat?
      || RGBA_BC7_UNorm? || RGBA_BC7_SRGB?
    }

    /** The formats that carry an alpha channel. */
    predicate HasAlpha() {
      || RGBA_DXT1_UNorm? || RGBA_DXT1_SRGB? || RGBA_DXT3_UNorm? || RGBA_DXT3_SRGB?
      || RGBA_DXT5_UNorm? || RGBA_DXT5_SRGB? || RGBA_BC7_UNorm? || RGBA_BC7_SRGB?
      || R8G8B8A8_UNorm? || B8G8R8A8_UNorm? || R16G16B16A16_SFloat? || R16G16B16A16_UNorm?
      || R16G16B16A16_SNorm? || R32G32B32A32_SFloat?
    }

    /** Bits per pixel of an uncompressed format (0 for the others). */
    function BitsPerPixel(): nat {
      match this
      case R8_UNorm => 8
      case R8G8_UNorm => 16
      case R16_SFloat => 16
      case R8G8B8A8_UNorm => 32
      case B8G8R8A8_UNorm => 32
      case R16G16_SFloat => 32
      case R32_SFloat => 32
      case R16G16B16_SFloat => 48
      case R16G16B16A16_SFloat => 64
      case R16G16B16A16_UNorm => 64
      case R16G16B16A16_SNorm => 64
      case R32G32_SFloat => 64
      case R32G32B32A32_SFloat => 128
      case _ => 0
    }
  }

  /** Unity's texture creation options, as far as the loader sets them. */
  datatype TextureCreationFlags = None | MipChain

  /** Why a load did not produce a texture. The first two make `FromFile` return `null`;
      the others leave it as exceptions. */
  datatype LoadError =
    | ReadFailed                          // File.ReadAllBytes threw
    | NotDds                              // the magic word is not "DDS "
    | Truncated(offset: nat)              // a read at `offset` lies past the end of the buffer
    | NoLongerSupported(format: string)   // a recognised code the engine dropped
    | UnknownFourCC(code: bv32)           // a four-character code outside the table
    | UnsupportedBitCount(bits: bv32)     // an uncompressed bit depth outside the table
    | EngineFailed                        // the texture constructor or upload threw
  {
    /** The errors `FromFile` reports by returning `null` rather than throwing. */
    predicate ReturnsNull() {
      ReadFailed? || NotDds?
    }
  }
}

/** The DXGI_FORMAT enumeration as the loader declares it: every member takes its implicit
    ordinal, i.e. its position in the declaration. */
module Dxgi {

  /** The members in declaration order: `Names[k]` is the member whose value is `k`. */
  const Names: seq<string> :=
      ["DXGI_FORMAT_UNKNOWN", "DXGI_FORMAT_R32G32B32A32_TYPELESS", "DXGI_FORMAT_R32G32B32A32_FLOAT", "DXGI_FORMAT_R32G32B32A32_UINT", "DXGI_FORMAT_R32G32B32A32_SINT",
       "DXGI_FORMAT_R32G32B32_TYPELESS", "DXGI_FORMAT_R32G32B32_FLOAT", "DXGI_FORMAT_R32G32B32_UINT", "DXGI_FORMAT_R32G32B32_SINT", "DXGI_FORMAT_R16G16B16A16_TYPELESS"] +
      ["DXGI_FORMAT_R16G16B16A16_FLOAT", "DXGI_FORMAT_R16G16B16A16_UNORM", "DXGI_FORMAT_R16G16B16A16_UINT", "DXGI_FORMAT_R16G16B16A16_SNORM", "DXGI_FORMAT_R16G16B16A16_SINT",
       "DXGI_FORMAT_R32G32_TYPELESS", "DXGI_FORMAT_R32G32_FLOAT", "DXGI_FORMAT_R32G32_UINT", "DXGI_FORMAT_R32G32_SINT", "DXGI_FORMAT_R32G8X24_TYPELESS"] +
      ["DXGI_FORMAT_D32_FLOAT_S8X24_UINT", "DXGI_FORMAT_R32_FLOAT_X8X24_TYPELESS", "DXGI_FORMAT_X32_TYPELESS_G8X24_UINT", "DXGI_FORMAT_R10G10B10A2_TYPELESS", "DXGI_FORMAT_R10G10B10A2_UNORM",
       "DXGI_FORMAT_R10G10B10A2_UINT", "DXGI_FORMAT_R11G11B10_FLOAT", "DXGI_FORMAT_R8G8B8A8_TYPELESS", "DXGI_FORMAT_R8G8B8A8_UNORM", "DXGI_FORMAT_R8G8B8A8_UNORM_SRGB"] +
      ["DXGI_FORMAT_R8G8B8A8_UINT", "DXGI_FORMAT_R8G8B8A8_SNORM", "DXGI_FORMAT_R8G8B8A8_SINT", "DXGI_FORMAT_R16G16_TYPELESS", "DXGI_FORMAT_R16G16_FLOAT",
       "DXGI_FORMAT_R16G16_UNORM", "DXGI_FORMAT_R16G16_UINT", "DXGI_FORMAT_R16G16_SNORM", "DXGI_FORMAT_R16G16_SINT", "DXGI_FORMAT_R32_TYPELESS"] +
      ["DXGI_FORMAT_D32_FLOAT", "DXGI_FORMAT_R32_FLOAT", "DXGI_FORMAT_R32_UINT", "DXGI_FORMAT_R32_SINT", "DXGI_FORMAT_R24G8_TYPELESS",
       "DXGI_FORMAT_D24_UNORM_S8_UINT", "DXGI_FORMAT_R24_UNORM_X8_TYPELESS", "DXGI_FORMAT_X24_TYPELESS_G8_UINT", "DXGI_FORMAT_R8G8_TYPELESS", "DXGI_FORMAT_R8G8_UNORM"] +
      ["DXGI_FORMAT_R8G8_UINT", "DXGI_FORMAT_R8G8_SNORM", "DXGI_FORMAT_R8G8_SINT", "DXGI_FORMAT_R16_TYPELESS", "DXGI_FORMAT_R16_FLOAT",
       "DXGI_FORMAT_D16_UNORM", "DXGI_FORMAT_R16_UNORM", "DXGI_FORMAT_R16_UINT", "DXGI_FORMAT_R16_SNORM", "DXGI_FORMAT_R16_SINT"] +
      ["DXGI_FORMAT_R8_TYPELESS", "DXGI_FORMAT_R8_UNORM", "DXGI_FORMAT_R8_UINT", "DXGI_FORMAT_R8_SNORM", "DXGI_FORMAT_R8_SINT",
       "DXGI_FORMAT_A8_UNORM", "DXGI_FORMAT_R1_UNORM", "DXGI_FORMAT_R9G9B9E5_SHAREDEXP", "DXGI_FORMAT_R8G8_B8G8_UNORM", "DXGI_FORMAT_G8R8_G8B8_UNORM"] +
      ["DXGI_FORMAT_BC1_TYPELESS", "DXGI_FORMAT_BC1_UNORM", "DXGI_FORMAT_BC1_UNORM_SRGB", "DXGI_FORMAT_BC2_TYPELESS", "DXGI_FORMAT_BC2_UNORM",
       "DXGI_FORMAT_BC2_UNORM_SRGB", "DXGI_FORMAT_BC3_TYPELESS", "DXGI_FORMAT_BC3_UNORM", "DXGI_FORMAT_BC3_UNORM_SRGB", "DXGI_FORMAT_BC4_TYPELESS"] +
      ["DXGI_FORMAT_BC4_UNORM", "DXGI_FORMAT_BC4_SNORM", "DXGI_FORMAT_BC5_TYPELESS", "DXGI_FORMAT_BC5_UNORM", "DXGI_FORMAT_BC5_SNORM",
       "DXGI_FORMAT_B5G6R5_UNORM", "DXGI_FORMAT_B5G5R5A1_UNORM", "DXGI_FORMAT_B8G8R8A8_UNORM", "DXGI_FORMAT_B8G8R8X8_UNORM", "DXGI_FORMAT_R10G10B10_XR_BIAS_A2_UNORM"] +
      ["DXGI_FORMAT_B8G8R8A8_TYPELESS", "DXGI_FORMAT_B8G8R8A8_UNORM_SRGB", "DXGI_FORMAT_B8G8R8X8_TYPELESS", "DXGI_FORMAT_B8G8R8X8_UNORM_SRGB", "DXGI_FORMAT_BC6H_TYPELESS",
       "DXGI_FORMAT_BC6H_UF16", "DXGI_FORMAT_BC6H_SF16", "DXGI_FORMAT_BC7_TYPELESS", "DXGI_FORMAT_BC7_UNORM", "DXGI_FORMAT_BC7_UNORM_SRGB"] +
      ["DXGI_FORMAT_AYUV", "DXGI_FORMAT_Y410", "DXGI_FORMAT_Y416", "DXGI_FORMAT_NV12", "DXGI_FORMAT_P010",
       "DXGI_FORMAT_P016", "DXGI_FORMAT_420_OPAQUE", "DXGI_FORMAT_YUY2", "DXGI_FORMAT_Y210", "DXGI_FORMAT_Y216"] +
      ["DXGI_FORMAT_NV11", "DXGI_FORMAT_AI44", "DXGI_FORMAT_IA44", "DXGI_FORMAT_P8", "DXGI_FORMAT_A8P8",
       "DXGI_FORMAT_B4G4R4A4_UNORM", "DXGI_FORMAT_P208", "DXGI_FORMAT_V208", "DXGI_FORMAT_V408", "DXGI_FORMAT_SAMPLER_FEEDBACK_MIN_MIP_OPAQUE"] +
      ["DXGI_FORMAT_SAMPLER_FEEDBACK_MIP_REGION_USED_OPAQUE", "DXGI_FORMAT_FORCE_UINT"]

  /** The block-compressed members the resolver names, by ordinal. */
  const BC1_TYPELESS: bv32 := 70
  const BC1_UNORM: bv32 := 71
  const BC1_UNORM_SRGB: bv32 := 72
  const BC2_TYPELESS: bv32 := 73
  const BC2_UNORM: bv32 := 74
  const BC2_UNORM_SRGB: bv32 := 75
  const BC3_TYPELESS: bv32 := 76
  const BC3_UNORM: bv32 := 77
  const BC3_UNORM_SRGB: bv32 := 78
  const BC4_TYPELESS: bv32 := 79
  const BC4_UNORM: bv32 := 80
  const BC4_SNORM: bv32 := 81
  const BC5_TYPELESS: bv32 := 82
  const BC5_UNORM: bv32 := 83
  const BC5_SNORM: bv32 := 84
  const BC6H_TYPELESS: bv32 := 94
  const BC6H_UF16: bv32 := 95
  const BC6H_SF16: bv32 := 96
  const BC7_TYPELESS: bv32 := 97
  const BC7_UNORM: bv32 := 98
  const BC7_UNORM_SRGB: bv32 := 99

  /** Each ordinal constant is the position of the member of that name. The constants agree
      with Microsoft's DXGI_FORMAT numbering (BC1_TYPELESS = 70, BC7_UNORM_SRGB = 99). */
  lemma OrdinalsFollowDeclarationOrder()
    ensures |Names| == 122
    ensures BC1_TYPELESS == 70 && Names[70] == "DXGI_FORMAT_BC1_TYPELESS"
    ensures BC1_UNORM == 71 && Names[71] == "DXGI_FORMAT_BC1_UNORM"
    ensures BC1_UNORM_SRGB == 72 && Names[72] == "DXGI_FORMAT_BC1_UNORM_SRGB"
    ensures BC2_TYPELESS == 73 && Names[73] == "DXGI_FORMAT_BC2_TYPELESS"
    ensures BC2_UNORM == 74 && Names[74] == "DXGI_FORMAT_BC2_UNORM"
    ensures BC2_UNORM_SRGB == 75 && Names[75] == "DXGI_FORMAT_BC2_UNORM_SRGB"
    ensures BC3_TYPELESS == 76 && Names[76] == "DXGI_FORMAT_BC3_TYPELESS"
    ensures BC3_UNORM == 77 && Names[77] == "DXGI_FORMAT_BC3_UNORM"
    ensures BC3_UNORM_SRGB == 78 && Names[78] == "DXGI_FORMAT_BC3_UNORM_SRGB"
    ensures BC4_TYPELESS == 79 && Names[79] == "DXGI_FORMAT_BC4_TYPELESS"
    ensures BC4_UNORM == 80 && Names[80] == "DXGI_FORMAT_BC4_UNORM"
    ensures BC4_SNORM == 81 && Names[81] == "DXGI_FORMAT_BC4_SNORM"
    ensures BC5_TYPELESS == 82 && Names[82] == "DXGI_FORMAT_BC5_TYPELESS"
    ensures BC5_UNORM == 83 && Names[83] == "DXGI_FORMAT_BC5_UNORM"
    ensures BC5_SNORM == 84 && Names[84] == "DXGI_FORMAT_BC5_SNORM"
    ensures BC6H_TYPELESS == 94 && Names[94] == "DXGI_FORMAT_BC6H_TYPELESS"
    ensures BC6H_UF16 == 95 && Names[95] == "DXGI_FORMAT_BC6H_UF16"
    ensures BC6H_SF16 == 96 && Names[96] == "DXGI_FORMAT_BC6H_SF16"
    ensures BC7_TYPELESS == 97 && Names[97] == "DXGI_FORMAT_BC7_TYPELESS"
    ensures BC7_UNORM == 98 && Names[98] == "DXGI_FORMAT_BC7_UNORM"
    ensures BC7_UNORM_SRGB == 99 && Names[99] == "DXGI_FORMAT_BC7_UNORM_SRGB"
  {
    var names := Names;
    assert names[70] == "DXGI_FORMAT_BC1_TYPELESS";
    assert names[71] == "DXGI_FORMAT_BC1_UNORM";
    assert names[72] == "DXGI_FORMAT_BC1_UNORM_SRGB";
    assert names[73] == "DXGI_FORMAT_BC2_TYPELESS";
    assert names[74] == "DXGI_FORMAT_BC2_UNORM";
    assert names[75] == "DXGI_FORMAT_BC2_UNORM_SRGB";
    assert names[76] == "DXGI_FORMAT_BC3_TYPELESS";
    assert names[77] == "DXGI_FORMAT_BC3_UNORM";
    assert names[78] == "DXGI_FORMAT_BC3_UNORM_SRGB";
    assert names[79] == "DXGI_FORMAT_BC4_TYPELESS";
    assert names[80] == "DXGI_FORMAT_BC4_UNORM";
    assert names[81] == "DXGI_FORMAT_BC4_SNORM";
    assert names[82] == "DXGI_FORMAT_BC5_TYPELESS";
    assert names[83] == "DXGI_FORMAT_BC5_UNORM";
    assert names[84] == "DXGI_FORMAT_BC5_SNORM";
    assert names[94] == "DXGI_FORMAT_BC6H_TYPELESS";
    assert names[95] == "DXGI_FORMAT_BC6H_UF16";
    assert names[96] == "DXGI_FORMAT_BC6H_SF16";
    assert names[97] == "DXGI_FORMAT_BC7_TYPELESS";
    assert names[98] == "DXGI_FORMAT_BC7_UNORM";
    assert names[99] == "DXGI_FORMAT_BC7_UNORM_SRGB";
  }
}
