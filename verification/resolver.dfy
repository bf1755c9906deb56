/** GetDDSFormat: the decision table from the header's pixel-format block to an engine
    format. Three branches: a four-character code (with "DX10" deferring to the DXGI code
    of the extended header), and, without the DDPF_FOURCC flag, the RGB bit count. */
module FormatResolver {
  import opened Wrappers
  import opened LittleEndian
  import opened DdsTypes
  import opened DdsHeader
  import Dxgi

  const DXT1: bv32 := 0x3154_5844
  const DXT2: bv32 := 0x3254_5844
  const DXT3: bv32 := 0x3354_5844
  const DXT4: bv32 := 0x3454_5844
  const DXT5: bv32 := 0x3554_5844
  const BC4U: bv32 := 0x5534_4342
  const BC4S: bv32 := 0x5334_4342
  const ATI2: bv32 := 0x3249_5441
  const BC5S: bv32 := 0x5335_4342
  const RGBG: bv32 := 0x4742_4752
  const GRGB: bv32 := 0x4247_5247
  const UYVY: bv32 := 0x5956_5955
  const YUY2: bv32 := 0x3259_5559

  // Each constant is the FC2I packing of the tag it is named after. Character codes are
  // established first and a few at a time, which keeps each proof obligation small.

  lemma DigitCodes()
    ensures CharWord('0') == 0x30 && CharWord('1') == 0x31 && CharWord('2') == 0x32
    ensures CharWord('3') == 0x33 && CharWord('4') == 0x34 && CharWord('5') == 0x35
  {
    assert CharWord('0') == 0x30 && CharWord('1') == 0x31 && CharWord('2') == 0x32;
  }

  lemma DxtLetterCodes()
    ensures CharWord('D') == 0x44 && CharWord('X') == 0x58 && CharWord('T') == 0x54
  {
  }

  lemma BcLetterCodes()
    ensures CharWord('B') == 0x42 && CharWord('C') == 0x43 && CharWord('U') == 0x55
    ensures CharWord('S') == 0x53 && CharWord('A') == 0x41 && CharWord('I') == 0x49
  {
    assert CharWord('B') == 0x42 && CharWord('C') == 0x43 && CharWord('U') == 0x55;
  }

  lemma OtherLetterCodes()
    ensures CharWord('R') == 0x52 && CharWord('G') == 0x47 && CharWord('Y') == 0x59 && CharWord('V') == 0x56
  {
  }

  /** The extended-header sentinel. */
  lemma Dx10IsPacked()
    ensures DX10 == FC2I("DX10")
  {
    DigitCodes();
    DxtLetterCodes();
  }

  /** The DXTn tags. */
  lemma DxtCodesArePacked()
    ensures DXT1 == FC2I("DXT1")
    ensures DXT2 == FC2I("DXT2")
    ensures DXT3 == FC2I("DXT3")
    ensures DXT4 == FC2I("DXT4")
    ensures DXT5 == FC2I("DXT5")
  {
    DigitCodes();
    DxtLetterCodes();
  }

  /** The BC4 and BC5 tags. */
  lemma BcCodesArePacked()
    ensures BC4U == FC2I("BC4U")
    ensures BC4S == FC2I("BC4S")
    ensures ATI2 == FC2I("ATI2")
    ensures BC5S == FC2I("BC5S")
  {
    DigitCodes();
    DxtLetterCodes();
    BcLetterCodes();
  }

  /** The packed-pixel and YUV tags. */
  lemma OtherCodesArePacked()
    ensures RGBG == FC2I("RGBG")
    ensures GRGB == FC2I("GRGB")
    ensures UYVY == FC2I("UYVY")
    ensures YUY2 == FC2I("YUY2")
  {
    DigitCodes();
    BcLetterCodes();
    OtherLetterCodes();
  }

  /** The codes the legacy table maps to a format. */
  const SupportedFourCCs: set<bv32> :=
    {DXT1, DXT3, DXT5, BC4U, BC4S, ATI2, BC5S, RGBG, GRGB, 36, 110, 111, 112, 113, 114, 115, 116}

  /** The codes the legacy table rejects as no longer supported by the engine. */
  const RetiredFourCCs: set<bv32> := {DXT2, DXT4, UYVY, YUY2, 117}

  /** The legacy part of the four-character-code switch (every case but "DX10"). */
  function LegacyFourCCFormat(code: bv32): (r: Result<GraphicsFormat, LoadError>)
    ensures r.Ok? <==> code in SupportedFourCCs
    ensures r.Err? && r.error.NoLongerSupported? <==> code in RetiredFourCCs
    ensures r == Err(UnknownFourCC(code)) <==> code !in SupportedFourCCs && code !in RetiredFourCCs
    ensures r.Ok? ==> r.value != GraphicsFormat.None && !r.value.IsSrgb()
  {
    if code == DXT1 then Ok(RGBA_DXT1_UNorm)
    else if code == DXT3 then Ok(RGBA_DXT3_UNorm)
    else if code == DXT5 then Ok(RGBA_DXT5_UNorm)
    else if code == BC4U then Ok(R_BC4_UNorm)
    else if code == BC4S then Ok(R_BC4_SNorm)
    else if code == ATI2 then Ok(RG_BC5_UNorm)
    else if code == BC5S then Ok(RG_BC5_SNorm)
    else if code == RGBG then Ok(R8G8B8A8_UNorm)
    else if code == GRGB then Ok(R8G8B8A8_UNorm)
    else if code == 36 then Ok(R16G16B16A16_UNorm)
    else if code == 110 then Ok(R16G16B16A16_SNorm)
    else if code == 111 then Ok(R16_SFloat)
    else if code == 112 then Ok(R16G16_SFloat)
    else if code == 113 then Ok(R16G16B16A16_SFloat)
    else if code == 114 then Ok(R32_SFloat)
    else if code == 115 then Ok(R32G32_SFloat)
    else if code == 116 then Ok(R32G32B32A32_SFloat)
    else if code == DXT2 then Err(NoLongerSupported("DXT2"))
    else if code == DXT4 then Err(NoLongerSupported("DXT4"))
    else if code == UYVY then Err(NoLongerSupported("UYVY"))
    else if code == YUY2 then Err(NoLongerSupported("YUY2"))
    else if code == 117 then Err(NoLongerSupported("CxV8U8"))
    else Err(UnknownFourCC(code))
  }

  /** The tags of the legacy block-compressed families resolve to the matching engine
      formats: DXT1/3/5 to BC1/2/3, BC4U/BC4S to BC4, ATI2/BC5S to BC5. The constants are
      the packed tags by `DxtCodesArePacked` and `BcCodesArePacked`. */
  lemma LegacyBlockCompressedCodes()
    ensures LegacyFourCCFormat(DXT1) == Ok(RGBA_DXT1_UNorm)
    ensures LegacyFourCCFormat(DXT3) == Ok(RGBA_DXT3_UNorm)
    ensures LegacyFourCCFormat(DXT5) == Ok(RGBA_DXT5_UNorm)
    ensures LegacyFourCCFormat(BC4U) == Ok(R_BC4_UNorm)
    ensures LegacyFourCCFormat(BC4S) == Ok(R_BC4_SNorm)
    ensures LegacyFourCCFormat(ATI2) == Ok(RG_BC5_UNorm)
    ensures LegacyFourCCFormat(BC5S) == Ok(RG_BC5_SNorm)
  {
  }

  /** The legacy tags that are not block-compressed: the packed RGBG and GRGB read as
      RGBA8, and the numeric D3DFMT codes 36 and 110 to 116 as their 16- and 32-bit
      engine formats. */
  lemma LegacyUncompressedCodes()
    ensures LegacyFourCCFormat(RGBG) == Ok(R8G8B8A8_UNorm)
    ensures LegacyFourCCFormat(GRGB) == Ok(R8G8B8A8_UNorm)
    ensures LegacyFourCCFormat(36) == Ok(R16G16B16A16_UNorm)
    ensures LegacyFourCCFormat(110) == Ok(R16G16B16A16_SNorm)
    ensures LegacyFourCCFormat(111) == Ok(R16_SFloat)
    ensures LegacyFourCCFormat(112) == Ok(R16G16_SFloat)
    ensures LegacyFourCCFormat(113) == Ok(R16G16B16A16_SFloat)
    ensures LegacyFourCCFormat(114) == Ok(R32_SFloat)
    ensures LegacyFourCCFormat(115) == Ok(R32G32_SFloat)
    ensures LegacyFourCCFormat(116) == Ok(R32G32B32A32_SFloat)
  {
  }

  /** The DXGI switch of the extended header. Every code it does not list resolves to the
      engine's `None` format rather than to an error. */
  function Dx10Format(code: bv32): (r: GraphicsFormat)
    ensures r != GraphicsFormat.None <==> (70 <= code <= 84 || 94 <= code <= 99)
    ensures r.IsSrgb() <==> code in {72, 75, 78, 99}
    ensures r != GraphicsFormat.None ==> r.IsBlockCompressed()
  {
    if code == Dxgi.BC1_TYPELESS then RGBA_DXT1_UNorm
    else if code == Dxgi.BC1_UNORM then RGBA_DXT1_UNorm
    else if code == Dxgi.BC1_UNORM_SRGB then RGBA_DXT1_SRGB
    else if code == Dxgi.BC2_TYPELESS then RGBA_DXT3_UNorm
    else if code == Dxgi.BC2_UNORM then RGBA_DXT3_UNorm
    else if code == Dxgi.BC2_UNORM_SRGB then RGBA_DXT3_SRGB
    else if code == Dxgi.BC3_TYPELESS then RGBA_DXT5_UNorm
    else if code == Dxgi.BC3_UNORM then RGBA_DXT5_UNorm
    else if code == Dxgi.BC3_UNORM_SRGB then RGBA_DXT5_SRGB
    else if code == Dxgi.BC4_TYPELESS then R_BC4_UNorm
    else if code == Dxgi.BC4_SNORM then R_BC4_SNorm
    else if code == Dxgi.BC4_UNORM then R_BC4_UNorm
    else if code == Dxgi.BC5_TYPELESS then RG_BC5_UNorm
    else if code == Dxgi.BC5_SNORM then RG_BC5_SNorm
    else if code == Dxgi.BC5_UNORM then RG_BC5_UNorm
    else if code == Dxgi.BC6H_TYPELESS then RGB_BC6H_SFloat
    else if code == Dxgi.BC6H_UF16 then RGB_BC6H_UFloat
    else if code == Dxgi.BC6H_SF16 then RGB_BC6H_SFloat
    else if code == Dxgi.BC7_TYPELESS then RGBA_BC7_UNorm
    else if code == Dxgi.BC7_UNORM then RGBA_BC7_UNorm
    else if code == Dxgi.BC7_UNORM_SRGB then RGBA_BC7_SRGB
    else GraphicsFormat.None
  }

  /** The DXGI codes that are neither TYPELESS nor plain UNORM: the sRGB members of BC1 to
      BC3, the signed BC4 and BC5 members, and the unsigned BC6H member. */
  lemma Dx10SrgbAndSignedCodes()
    ensures Dx10Format(Dxgi.BC1_UNORM_SRGB) == RGBA_DXT1_SRGB
    ensures Dx10Format(Dxgi.BC2_UNORM_SRGB) == RGBA_DXT3_SRGB
    ensures Dx10Format(Dxgi.BC3_UNORM_SRGB) == RGBA_DXT5_SRGB
    ensures Dx10Format(Dxgi.BC4_SNORM) == R_BC4_SNorm
    ensures Dx10Format(Dxgi.BC5_SNORM) == RG_BC5_SNorm
    ensures Dx10Format(Dxgi.BC6H_UF16) == RGB_BC6H_UFloat
  {
  }

  /** A TYPELESS code reads as its UNORM sibling; for BC6H, whose members are UF16 and SF16,
      as the signed one. */
  lemma TypelessReadsAsUnorm()
    ensures Dx10Format(Dxgi.BC1_TYPELESS) == Dx10Format(Dxgi.BC1_UNORM)
    ensures Dx10Format(Dxgi.BC2_TYPELESS) == Dx10Format(Dxgi.BC2_UNORM)
    ensures Dx10Format(Dxgi.BC3_TYPELESS) == Dx10Format(Dxgi.BC3_UNORM)
    ensures Dx10Format(Dxgi.BC4_TYPELESS) == Dx10Format(Dxgi.BC4_UNORM)
    ensures Dx10Format(Dxgi.BC5_TYPELESS) == Dx10Format(Dxgi.BC5_UNORM)
    ensures Dx10Format(Dxgi.BC6H_TYPELESS) == Dx10Format(Dxgi.BC6H_SF16)
    ensures Dx10Format(Dxgi.BC7_TYPELESS) == Dx10Format(Dxgi.BC7_UNORM)
  {
    ColorTypelessReadsAsUnorm();
    ChannelTypelessReadsAsUnorm();
  }

  lemma ColorTypelessReadsAsUnorm()
    ensures Dx10Format(Dxgi.BC1_TYPELESS) == Dx10Format(Dxgi.BC1_UNORM) == RGBA_DXT1_UNorm
    ensures Dx10Format(Dxgi.BC2_TYPELESS) == Dx10Format(Dxgi.BC2_UNORM) == RGBA_DXT3_UNorm
    ensures Dx10Format(Dxgi.BC3_TYPELESS) == Dx10Format(Dxgi.BC3_UNORM) == RGBA_DXT5_UNorm
    ensures Dx10Format(Dxgi.BC7_TYPELESS) == Dx10Format(Dxgi.BC7_UNORM) == RGBA_BC7_UNorm
  {
  }

  lemma ChannelTypelessReadsAsUnorm()
    ensures Dx10Format(Dxgi.BC4_TYPELESS) == Dx10Format(Dxgi.BC4_UNORM) == R_BC4_UNorm
    ensures Dx10Format(Dxgi.BC5_TYPELESS) == Dx10Format(Dxgi.BC5_UNORM) == RG_BC5_UNorm
    ensures Dx10Format(Dxgi.BC6H_TYPELESS) == Dx10Format(Dxgi.BC6H_SF16) == RGB_BC6H_SFloat
  {
  }

  /** The uncompressed switch on DDS_PIXELFORMAT's RGB bit count. */
  function UncompressedFormat(bits: bv32, alpha: bool): (r: Result<GraphicsFormat, LoadError>)
    ensures r.Ok? <==> bits in {8, 16, 24, 32, 48, 64, 128}
    ensures r.Err? ==> r.error == UnsupportedBitCount(bits)
    ensures r.Ok? ==> !r.value.IsBlockCompressed() && r.value != GraphicsFormat.None
    ensures r.Ok? && bits != 24 ==> r.value.BitsPerPixel() == bits as int
    ensures r.Ok? && (bits == 32 || bits == 64) ==> (r.value.HasAlpha() <==> alpha)
  {
    if bits == 8 then Ok(R8_UNorm)
    else if bits == 16 then Ok(R16_SFloat)
    else if bits == 24 then Ok(R8G8_UNorm)
    else if bits == 32 then (if alpha then Ok(B8G8R8A8_UNorm) else Ok(R16G16_SFloat))
    else if bits == 48 then Ok(R16G16B16_SFloat)
    else if bits == 64 then (if alpha then Ok(R16G16B16A16_SFloat) else Ok(R32G32_SFloat))
    else if bits == 128 then Ok(R32G32B32A32_SFloat)
    else Err(UnsupportedBitCount(bits))
  }

  /** The alpha flag decides the format for 32- and 64-bit pixels and for no other width. */
  lemma AlphaDecidesOnlyAt32And64(bits: bv32)
    ensures UncompressedFormat(bits, true) != UncompressedFormat(bits, false) <==> bits == 32 || bits == 64
  {
  }

  /** A 24-bit pixel resolves to a two-channel format of 16 bits per pixel, whatever the
      alpha flag. */
  lemma Rgb24ReadAsTwoChannels(alpha: bool)
    ensures UncompressedFormat(24, alpha) == Ok(R8G8_UNorm)
    ensures R8G8_UNorm.BitsPerPixel() == 16
  {
  }

  /** The decision GetDDSFormat takes, on the words of the pixel-format block: with the
      DDPF_FOURCC flag the code decides (and "DX10" defers to the DXGI word), without it the
      RGB bit count and the DDPF_ALPHAPIXELS flag do. */
  function ResolveFields(flags: bv32, fourCC: bv32, bitCount: bv32, dxgiFormat: bv32): (r: Result<GraphicsFormat, LoadError>)
    ensures r.Ok? && r.value.IsSrgb() ==> flags & FourCCFlag == FourCCFlag && fourCC == DX10
    ensures r.Ok? && r.value.IsBlockCompressed() ==> flags & FourCCFlag == FourCCFlag
    ensures r.Err? ==> !r.error.Truncated? && !r.error.NotDds? && !r.error.ReadFailed?
    ensures r.Err? && (r.error.UnknownFourCC? || r.error.NoLongerSupported?) ==>
              flags & FourCCFlag == FourCCFlag && fourCC != DX10
    ensures r.Err? && r.error.UnsupportedBitCount? ==> flags & FourCCFlag != FourCCFlag
    ensures r == Ok(GraphicsFormat.None) ==> flags & FourCCFlag == FourCCFlag && fourCC == DX10
  {
    if flags & FourCCFlag == FourCCFlag then
      if fourCC == DX10 then Ok(Dx10Format(dxgiFormat)) else LegacyFourCCFormat(fourCC)
    else
      UncompressedFormat(bitCount, flags & AlphaPixelsFlag == AlphaPixelsFlag)
  }

  /** Each branch reads only its own words: with the flag set the bit count is never
      consulted, a legacy code never consults the DXGI word, and without the flag neither
      the code nor the DXGI word matters. */
  lemma BranchesReadOnlyTheirWords(flags: bv32, fourCC: bv32, fourCC': bv32, bits: bv32, bits': bv32,
                                   dxgi: bv32, dxgi': bv32)
    ensures flags & FourCCFlag == FourCCFlag ==>
      ResolveFields(flags, fourCC, bits, dxgi) == ResolveFields(flags, fourCC, bits', dxgi)
    ensures flags & FourCCFlag == FourCCFlag && fourCC != DX10 ==>
      ResolveFields(flags, fourCC, bits, dxgi) == ResolveFields(flags, fourCC, bits, dxgi')
    ensures flags & FourCCFlag != FourCCFlag ==>
      ResolveFields(flags, fourCC, bits, dxgi) == ResolveFields(flags, fourCC', bits, dxgi')
  {
  }

  /** GetDDSFormat over the whole file: flags at byte 80, code at 84, then either the DXGI
      word at 124 + 4 = 128 or the RGB bit count at 88, each read only on its branch. */
  function GetDDSFormat(b: seq<byte>): (r: Result<GraphicsFormat, LoadError>)
    ensures |b| < 88 ==> r.Err? && r.error.Truncated?
    ensures r.Ok? && r.value.IsSrgb() ==> |b| >= 132 && ReadU32(b, 84) == DX10
    ensures r.Err? && (r.error.UnknownFourCC? || r.error.NoLongerSupported?) ==>
              ReadU32(b, 80) & FourCCFlag == FourCCFlag
    ensures r.Err? && r.error.UnsupportedBitCount? ==> ReadU32(b, 80) & FourCCFlag != FourCCFlag
    ensures r == Ok(GraphicsFormat.None) ==> ReadU32(b, 84) == DX10
    ensures |b| >= 132 ==>
      r == ResolveFields(ReadU32(b, 80), ReadU32(b, 84), ReadU32(b, 88), ReadU32(b, 128))
    ensures 92 <= |b| && !(ReadU32(b, 80) & FourCCFlag == FourCCFlag && ReadU32(b, 84) == DX10) ==>
      r == ResolveFields(ReadU32(b, 80), ReadU32(b, 84), ReadU32(b, 88), 0)
    ensures 88 <= |b| && ReadU32(b, 80) & FourCCFlag == FourCCFlag && ReadU32(b, 84) != DX10 ==>
      r == LegacyFourCCFormat(ReadU32(b, 84))
    ensures 88 <= |b| < 132 && ReadU32(b, 80) & FourCCFlag == FourCCFlag && ReadU32(b, 84) == DX10 ==>
      r == Err(Truncated(128))
    ensures 88 <= |b| < 92 && ReadU32(b, 80) & FourCCFlag != FourCCFlag ==>
      r == Err(Truncated(88))
  {
    var flags :- ReadField(b, FlagsOffset);
    var fourCC :- ReadField(b, FourCCOffset);
    var usesFourCC := flags & FourCCFlag == FourCCFlag;
    var bitCount :- if usesFourCC then Ok(0) else ReadField(b, BitCountOffset);
    var dxgiFormat :- if usesFourCC && fourCC == DX10 then ReadField(b, DxgiFormatOffset) else Ok(0);
    ResolveFields(flags, fourCC, bitCount, dxgiFormat)
  }
}
