/** The fixed-offset header of a DirectDraw Surface file: a "DDS " magic word, a 124-byte
    DDS_HEADER (holding a DDS_PIXELFORMAT block at word 18) and, when the four-character
    code is "DX10", a DDS_HEADER_DXT10 block starting at byte 124 of the header proper. */
module DdsHeader {
  import opened Wrappers
  import opened LittleEndian
  import opened DdsTypes

  /** "DDS " read as a little-endian word. */
  const Magic: bv32 := 0x2053_4444
  /** FC2I("DX10"): the code that announces the extended header. */
  const DX10: bv32 := 0x3031_5844

  const BytesPerInt := 4
  /** Word index of DDS_PIXELFORMAT within the file. */
  const PixelFormatIntOffset := 18
  /** Byte offset of the DDS_HEADER_DXT10 block as the loader counts it. */
  const Dx10HeaderByteOffset := 124

  const HeightOffset := BytesPerInt * 3                      // 12
  const WidthOffset := BytesPerInt * 4                       // 16
  const MipChainOffset := BytesPerInt * 7                    // 28
  const FlagsOffset := BytesPerInt * (PixelFormatIntOffset + 2)     // 80
  const FourCCOffset := BytesPerInt * (PixelFormatIntOffset + 3)    // 84
  const BitCountOffset := BytesPerInt * (PixelFormatIntOffset + 4)  // 88
  const DxgiFormatOffset := Dx10HeaderByteOffset + BytesPerInt      // 128

  const BaseHeaderSize := 128
  const ExtendedHeaderSize := 148

  /** DDPF_FOURCC and DDPF_ALPHAPIXELS of the pixel-format flags. */
  const FourCCFlag: bv32 := 4
  const AlphaPixelsFlag: bv32 := 1

  /** The fields every `FromFile` overload reads. */
  datatype Header = Header(width: bv32, height: bv32, mipChain: bv32, pixelFlags: bv32, fourCC: bv32)

  /** A checked `Marshal.ReadInt32`: the word at `off`, or `Truncated(off)` past the end. */
  function ReadField(b: seq<byte>, off: nat): (r: Result<bv32, LoadError>)
    ensures r.Ok? <==> off + 4 <= |b|
    ensures r.Ok? ==> r.value == ReadU32(b, off)
    ensures r.Err? ==> r.error == Truncated(off)
  {
    if off + 4 <= |b| then Ok(ReadU32(b, off)) else Err(Truncated(off))
  }

  /** Checks the magic word, then reads width, height, mip-chain word and four-character
      code in the order the loader does. */
  function ParseHeader(b: seq<byte>): (r: Result<Header, LoadError>)
    ensures r.Ok? <==> |b| >= 88 && ReadU32(b, 0) == Magic
    ensures r == Err(NotDds) <==> |b| >= 4 && ReadU32(b, 0) != Magic
    ensures r.Err? ==> r.error.NotDds? || r.error.Truncated?
    ensures r.Ok? ==> r.value.height == ReadU32(b, 12) && r.value.width == ReadU32(b, 16)
    ensures r.Ok? ==> r.value.mipChain == ReadU32(b, 28)
    ensures r.Ok? ==> r.value.pixelFlags == ReadU32(b, 80) && r.value.fourCC == ReadU32(b, 84)
  {
    var magic :- ReadField(b, 0);
    if magic != Magic then Err(NotDds)
    else
      var width :- ReadField(b, WidthOffset);
      var height := ReadU32(b, HeightOffset);     // below the width word: already in bounds
      var mipChain :- ReadField(b, MipChainOffset);
      var fourCC :- ReadField(b, FourCCOffset);
      var flags := ReadU32(b, FlagsOffset);       // below the four-character code
      Ok(Header(width, height, mipChain, flags, fourCC))
  }

  /** Where the pixel payload starts. */
  function HeaderSize(h: Header): (r: nat)
    ensures r == ExtendedHeaderSize <==> h.fourCC == DX10
    ensures r == BaseHeaderSize <==> h.fourCC != DX10
  {
    if h.fourCC == DX10 then ExtendedHeaderSize else BaseHeaderSize
  }

  /** The size of the header depends on the four-character code alone: the DDPF_FOURCC
      flag, the dimensions and the mip word play no part. */
  lemma HeaderSizeIgnoresFlags(h: Header, flags: bv32, mipChain: bv32)
    ensures HeaderSize(h.(pixelFlags := flags)) == HeaderSize(h)
    ensures HeaderSize(h.(mipChain := mipChain)) == HeaderSize(h)
  {
  }

  /** The bytes handed to the engine: everything after the header, `|b| - headerSize` long. */
  function Payload(b: seq<byte>, h: Header): (r: Result<seq<byte>, LoadError>)
    ensures r.Ok? <==> HeaderSize(h) <= |b|
    ensures r.Ok? ==> |r.value| == |b| - HeaderSize(h) && b == b[..HeaderSize(h)] + r.value
    ensures r.Err? ==> r.error == Truncated(HeaderSize(h))
  {
    var size := HeaderSize(h);
    if size <= |b| then Ok(b[size..]) else Err(Truncated(size))
  }

  /** A zero mip-chain word creates the texture without mips, any other value with them. */
  function CreationFlags(h: Header): (r: TextureCreationFlags)
    ensures r == TextureCreationFlags.MipChain <==> h.mipChain != 0
  {
    if h.mipChain == 0 then TextureCreationFlags.None else TextureCreationFlags.MipChain
  }

  /** A header image as a writer would lay it out: magic, the header fields, the bit count
      of DDS_PIXELFORMAT and, with a "DX10" code, the DXGI format word of the extension. */
  function EncodeHeader(h: Header, bitCount: bv32, dxgiFormat: bv32): (r: seq<byte>)
    ensures |r| == HeaderSize(h)
  {
    var size := HeaderSize(h);
    var b := Write32(LeadingWords(h, size), FlagsOffset, h.pixelFlags);
    var b := Write32(b, FourCCOffset, h.fourCC);
    var b := Write32(b, BitCountOffset, bitCount);
    if size == ExtendedHeaderSize then Write32(b, DxgiFormatOffset, dxgiFormat) else b
  }

  /** `size` zero bytes with the magic word, the dimensions and the mip word written. */
  function LeadingWords(h: Header, size: nat): (r: seq<byte>)
    requires size >= BaseHeaderSize
    ensures |r| == size
    ensures ReadU32(r, 0) == Magic && ReadU32(r, WidthOffset) == h.width
    ensures ReadU32(r, HeightOffset) == h.height && ReadU32(r, MipChainOffset) == h.mipChain
  {
    var b0 := Write32(seq(size, _ => 0 as byte), 0, Magic);
    var b1 := Write32(b0, WidthOffset, h.width);
    var b2 := Write32(b1, HeightOffset, h.height);
    ReadPastWrite(b0, WidthOffset, h.width, 0);
    ReadPastWrite(b1, HeightOffset, h.height, 0);
    ReadPastWrite(b1, HeightOffset, h.height, WidthOffset);
    ReadPastWrite(b2, MipChainOffset, h.mipChain, 0);
    ReadPastWrite(b2, MipChainOffset, h.mipChain, WidthOffset);
    ReadPastWrite(b2, MipChainOffset, h.mipChain, HeightOffset);
    Write32(b2, MipChainOffset, h.mipChain)
  }

  /** A later write leaves the four leading words in place. */
  lemma LeadingWordsKept(b: seq<byte>, off: nat, w: bv32, h: Header)
    requires |b| >= BaseHeaderSize && off >= 32 && off + 4 <= |b|
    requires ReadU32(b, 0) == Magic && ReadU32(b, WidthOffset) == h.width
    requires ReadU32(b, HeightOffset) == h.height && ReadU32(b, MipChainOffset) == h.mipChain
    ensures var r := Write32(b, off, w);
      && ReadU32(r, 0) == Magic && ReadU32(r, WidthOffset) == h.width
      && ReadU32(r, HeightOffset) == h.height && ReadU32(r, MipChainOffset) == h.mipChain
  {
    ReadPastWrite(b, off, w, 0);
    ReadPastWrite(b, off, w, WidthOffset);
    ReadPastWrite(b, off, w, HeightOffset);
    ReadPastWrite(b, off, w, MipChainOffset);
  }

  /** Every field sits at its own offset of an encoded header. */
  lemma EncodedFields(h: Header, bitCount: bv32, dxgiFormat: bv32)
    ensures var e := EncodeHeader(h, bitCount, dxgiFormat);
      && ReadU32(e, 0) == Magic
      && ReadU32(e, WidthOffset) == h.width && ReadU32(e, HeightOffset) == h.height
      && ReadU32(e, MipChainOffset) == h.mipChain && ReadU32(e, FlagsOffset) == h.pixelFlags
      && ReadU32(e, FourCCOffset) == h.fourCC && ReadU32(e, BitCountOffset) == bitCount
      && (HeaderSize(h) == ExtendedHeaderSize ==> ReadU32(e, DxgiFormatOffset) == dxgiFormat)
  {
    var size := HeaderSize(h);
    var b3 := LeadingWords(h, size);
    var b4 := Write32(b3, FlagsOffset, h.pixelFlags);
    var b5 := Write32(b4, FourCCOffset, h.fourCC);
    var b6 := Write32(b5, BitCountOffset, bitCount);
    LeadingWordsKept(b3, FlagsOffset, h.pixelFlags, h);
    LeadingWordsKept(b4, FourCCOffset, h.fourCC, h);
    LeadingWordsKept(b5, BitCountOffset, bitCount, h);
    ReadPastWrite(b4, FourCCOffset, h.fourCC, FlagsOffset);
    ReadPastWrite(b5, BitCountOffset, bitCount, FlagsOffset);
    ReadPastWrite(b5, BitCountOffset, bitCount, FourCCOffset);
    if size == ExtendedHeaderSize {
      LeadingWordsKept(b6, DxgiFormatOffset, dxgiFormat, h);
      ReadPastWrite(b6, DxgiFormatOffset, dxgiFormat, FlagsOffset);
      ReadPastWrite(b6, DxgiFormatOffset, dxgiFormat, FourCCOffset);
      ReadPastWrite(b6, DxgiFormatOffset, dxgiFormat, BitCountOffset);
    }
  }

  /** Appending bytes does not change a word read inside the original buffer. */
  lemma ReadInPrefix(e: seq<byte>, p: seq<byte>, off: nat)
    requires off + 4 <= |e|
    ensures ReadU32(e + p, off) == ReadU32(e, off)
  {
    assert (e + p)[off..off + 4] == e[off..off + 4];
    ReadSameBytes(e + p, off, e, off);
  }

  /** Round trip: parsing an encoded header followed by a payload gives back the header,
      and the payload the engine receives is exactly the appended bytes. */
  lemma ParseEncodedHeader(h: Header, bitCount: bv32, dxgiFormat: bv32, payload: seq<byte>)
    ensures var b := EncodeHeader(h, bitCount, dxgiFormat) + payload;
      && ParseHeader(b) == Ok(h)
      && Payload(b, h) == Ok(payload)
  {
    var e := EncodeHeader(h, bitCount, dxgiFormat);
    var b := e + payload;
    EncodedFields(h, bitCount, dxgiFormat);
    ReadInPrefix(e, payload, 0);
    ReadInPrefix(e, payload, WidthOffset);
    ReadInPrefix(e, payload, HeightOffset);
    ReadInPrefix(e, payload, MipChainOffset);
    ReadInPrefix(e, payload, FlagsOffset);
    ReadInPrefix(e, payload, FourCCOffset);
    assert b[HeaderSize(h)..] == payload;
  }
}
