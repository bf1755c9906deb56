/** DDSLoader.FromFile: the three overloads, the content-keyed texture cache in front of
    them, and what they ask the engine to create. File reading and the engine are
    parameters: a file is `Some(bytes)` or `None` when it cannot be read, and the engine is
    a function from a creation request to a texture, or `None` when it throws. */
module DdsLoader {
  import opened Wrappers
  import opened LittleEndian
  import opened DdsTypes
  import opened DdsHeader
  import opened FormatResolver
  import ContentHash

  /** An engine texture, known to the loader only by identity. */
  datatype Texture = Texture(id: nat)

  /** Which `FromFile` overload is called. */
  datatype Overload =
    | AutoFormat
    | WithTextureFormat(textureFormat: int)
    | WithGraphicsFormat(format: GraphicsFormat, flags: TextureCreationFlags)

  /** The `Texture2D` constructor call plus the raw data loaded into it. The texture-format
      constructor takes a `mipChain` boolean, passed as `mipchain == 0`. */
  datatype TextureRequest =
    | ByGraphicsFormat(width: bv32, height: bv32, format: GraphicsFormat,
                       flags: TextureCreationFlags, data: seq<byte>)
    | ByTextureFormat(width: bv32, height: bv32, textureFormat: int, mipChain: bool,
                      data: seq<byte>)

  /** ReferenceCache: textures by the hash of the file's bytes. */
  type Cache = map<ContentHash.Word, Texture>

  datatype Loaded = Loaded(result: Result<Texture, LoadError>, cache: Cache)

  /** What one overload asks the engine for, given the bytes of a file that missed the
      cache. Only the automatic overload consults GetDDSFormat, and it does so before the
      payload is cut off. */
  function BuildRequest(b: seq<byte>, overload: Overload): (r: Result<TextureRequest, LoadError>)
    ensures ParseHeader(b).Err? ==> r == Err(ParseHeader(b).error)
    ensures r.Ok? ==> |b| >= 88 && ReadU32(b, 0) == Magic
    ensures r.Ok? ==> r.value.width == ReadU32(b, 16) && r.value.height == ReadU32(b, 12)
    ensures r.Ok? ==> var size := if ReadU32(b, 84) == DX10 then 148 else 128;
              size <= |b| && r.value.data == b[size..]
    ensures r.Ok? ==> (r.value.ByGraphicsFormat? <==> !overload.WithTextureFormat?)
    ensures r.Ok? && overload.AutoFormat? ==>
              GetDDSFormat(b) == Ok(r.value.format)
              && (r.value.flags == TextureCreationFlags.MipChain <==> ReadU32(b, 28) != 0)
    ensures r.Ok? && overload.WithGraphicsFormat? ==>
              r.value.format == overload.format && r.value.flags == overload.flags
    ensures r.Ok? && overload.WithTextureFormat? ==>
              r.value.textureFormat == overload.textureFormat
              && (r.value.mipChain <==> ReadU32(b, 28) == 0)
    ensures r.Err? && ParseHeader(b).Ok? && !overload.AutoFormat? ==> r.error.Truncated?
    ensures (ParseHeader(b).Ok? && (if ReadU32(b, 84) == DX10 then 148 else 128) <= |b|
             && (overload.AutoFormat? ==> GetDDSFormat(b).Ok?)) ==> r.Ok?
    ensures overload.AutoFormat? && ParseHeader(b).Ok? && GetDDSFormat(b).Err? ==>
              r == Err(GetDDSFormat(b).error)
  {
    var h :- ParseHeader(b);
    match overload
    case AutoFormat =>
      var format :- GetDDSFormat(b);
      var data :- Payload(b, h);
      Ok(ByGraphicsFormat(h.width, h.height, format, CreationFlags(h), data))
    case WithTextureFormat(textureFormat) =>
      var data :- Payload(b, h);
      Ok(ByTextureFormat(h.width, h.height, textureFormat, h.mipChain == 0, data))
    case WithGraphicsFormat(format, flags) =>
      var data :- Payload(b, h);
      Ok(ByGraphicsFormat(h.width, h.height, format, flags, data))
  }

  /** Which fingerprint keys the cache: `GetByteArrayHashCode` with its loop bounds as
      written, or with every fragment folded as evidently intended. */
  datatype HashVersion = AsWrittenHash | CorrectedHash

  /** The fingerprint used by `FromFile`: the worker count (`Environment.ProcessorCount`)
      and the hash version. */
  datatype Hasher = Hasher(threads: nat, version: HashVersion)

  /** The cache key of a file's bytes. */
  function Key(b: seq<byte>, hasher: Hasher): ContentHash.Word
    requires hasher.threads >= 1
  {
    match hasher.version
    case AsWrittenHash => ContentHash.HashAsWritten(b, hasher.threads)
    case CorrectedHash => ContentHash.Hash(b, hasher.threads)
  }

  /** One `FromFile` call: read, look up the cache, decode, create, cache. */
  function Load(cache: Cache, file: Option<seq<byte>>, hasher: Hasher, overload: Overload,
                engine: TextureRequest -> Option<Texture>): (r: Loaded)
    requires hasher.threads >= 1
    ensures file.None? ==> r == Loaded(Err(ReadFailed), cache)
    ensures file.Some? && Key(file.value, hasher) in cache ==>
              r == Loaded(Ok(cache[Key(file.value, hasher)]), cache)
    ensures r.result.Err? ==> r.cache == cache
    ensures r.result.Ok? ==> file.Some? && r.cache == cache[Key(file.value, hasher) := r.result.value]
    ensures r.cache != cache ==>
              file.Some? && Key(file.value, hasher) !in cache
              && BuildRequest(file.value, overload).Ok?
              && engine(BuildRequest(file.value, overload).value) == Some(r.result.value)
    ensures r.result.Err? && r.result.error == NotDds ==>
              file.Some? && |file.value| >= 4 && ReadU32(file.value, 0) != Magic
    ensures file.Some? && Key(file.value, hasher) !in cache && BuildRequest(file.value, overload).Err? ==>
              r == Loaded(Err(BuildRequest(file.value, overload).error), cache)
    ensures file.Some? && Key(file.value, hasher) !in cache && BuildRequest(file.value, overload).Ok? ==>
              match engine(BuildRequest(file.value, overload).value)
              case None => r == Loaded(Err(EngineFailed), cache)
              case Some(t) => r == Loaded(Ok(t), cache[Key(file.value, hasher) := t])
  {
    match file
    case None => Loaded(Err(ReadFailed), cache)
    case Some(b) =>
      var key := Key(b, hasher);
      if key in cache then Loaded(Ok(cache[key]), cache)
      else
        match BuildRequest(b, overload)
        case Err(e) => Loaded(Err(e), cache)
        case Ok(request) =>
          match engine(request)
          case None => Loaded(Err(EngineFailed), cache)
          case Some(t) => Loaded(Ok(t), cache[key := t])
  }

  /** Loading the same bytes again returns the texture of the first load, whatever the
      overload or the engine of the second call, and leaves the cache as it was. */
  lemma SecondLoadHitsCache(cache: Cache, b: seq<byte>, hasher: Hasher,
                            overload: Overload, engine: TextureRequest -> Option<Texture>,
                            overload': Overload, engine': TextureRequest -> Option<Texture>)
    requires hasher.threads >= 1
    requires Load(cache, Some(b), hasher, overload, engine).result.Ok?
    ensures var first := Load(cache, Some(b), hasher, overload, engine);
      Load(first.cache, Some(b), hasher, overload', engine') == first
  {
  }

  /** With the hash as written and one worker every file has the key 0: once one file has
      loaded, `FromFile` returns its texture for every other file, without decoding it. */
  lemma OneWorkerServesFirstTexture(cache: Cache, a: seq<byte>, b: seq<byte>,
                                    overload: Overload, engine: TextureRequest -> Option<Texture>,
                                    overload': Overload, engine': TextureRequest -> Option<Texture>)
    requires Load(cache, Some(a), Hasher(1, AsWrittenHash), overload, engine).result.Ok?
    ensures var first := Load(cache, Some(a), Hasher(1, AsWrittenHash), overload, engine);
      Load(first.cache, Some(b), Hasher(1, AsWrittenHash), overload', engine') == first
  {
    ContentHash.AsWrittenHashesFirstFragmentOnly(a, 1);
    ContentHash.AsWrittenHashesFirstFragmentOnly(b, 1);
  }

  /** With the hash as written and several workers, a file of the same length as one
      already loaded and agreeing with it on the first fragment is served that file's
      texture. */
  lemma LaterFragmentsServeFirstTexture(cache: Cache, a: seq<byte>, b: seq<byte>, threads: nat,
                                        overload: Overload, engine: TextureRequest -> Option<Texture>,
                                        overload': Overload, engine': TextureRequest -> Option<Texture>)
    requires threads >= 2 && |a| == |b|
    requires a[..ContentHash.Min(|a|, ContentHash.FragLength(|a|, threads))]
             == b[..ContentHash.Min(|b|, ContentHash.FragLength(|b|, threads))]
    requires Load(cache, Some(a), Hasher(threads, AsWrittenHash), overload, engine).result.Ok?
    ensures var first := Load(cache, Some(a), Hasher(threads, AsWrittenHash), overload, engine);
      Load(first.cache, Some(b), Hasher(threads, AsWrittenHash), overload', engine') == first
  {
    ContentHash.AsWrittenIgnoresLaterFragments(a, b, threads);
  }

  /** With the corrected hash, a file differing from one already loaded in a single byte
      misses the cache: it gets exactly what it would get had the first file never been
      loaded. */
  lemma CorrectedKeySeparatesFiles(cache: Cache, a: seq<byte>, b: seq<byte>, threads: nat, k: nat,
                                   overload: Overload, engine: TextureRequest -> Option<Texture>,
                                   overload': Overload, engine': TextureRequest -> Option<Texture>)
    requires threads >= 1 && |a| == |b| && k < |a| && a[k] != b[k]
    requires forall i :: 0 <= i < |a| && i != k ==> a[i] == b[i]
    requires Key(b, Hasher(threads, CorrectedHash)) !in cache
    ensures var first := Load(cache, Some(a), Hasher(threads, CorrectedHash), overload, engine);
      Load(first.cache, Some(b), Hasher(threads, CorrectedHash), overload', engine').result
      == Load(cache, Some(b), Hasher(threads, CorrectedHash), overload', engine').result
  {
    ContentHash.HashSeesEveryByte(a, b, threads, k);
  }

  /** Successive calls, threading the cache through; the results in call order. */
  function LoadAll(cache: Cache, files: seq<Option<seq<byte>>>, hasher: Hasher, overload: Overload,
                   engine: TextureRequest -> Option<Texture>): (r: (seq<Result<Texture, LoadError>>, Cache))
    requires hasher.threads >= 1
    ensures |r.0| == |files|
    decreases |files|
  {
    if |files| == 0 then ([], cache)
    else
      var prefix := LoadAll(cache, files[..|files| - 1], hasher, overload, engine);
      var last := Load(prefix.1, files[|files| - 1], hasher, overload, engine);
      (prefix.0 + [last.result], last.cache)
  }

  /** `after` keeps every entry of `before`, and each key it adds is the key of a file
      among `files` whose call succeeded. */
  predicate GrewBy(before: Cache, after: Cache, files: seq<Option<seq<byte>>>,
                   results: seq<Result<Texture, LoadError>>, hasher: Hasher)
    requires hasher.threads >= 1 && |results| == |files|
  {
    && (forall k :: k in before ==> k in after && after[k] == before[k])
    && (forall k :: k in after && k !in before ==>
          exists i :: 0 <= i < |files| && files[i].Some? && Key(files[i].value, hasher) == k && results[i].Ok?)
  }

  /** Across any sequence of calls the cache only grows: no entry is ever replaced, which
      is why `Dictionary.Add` never meets a duplicate key, and every new key is the key of
      a file that loaded. */
  lemma {:induction false} CacheOnlyGrows(cache: Cache, files: seq<Option<seq<byte>>>, hasher: Hasher,
                                          overload: Overload, engine: TextureRequest -> Option<Texture>)
    requires hasher.threads >= 1
    ensures var r := LoadAll(cache, files, hasher, overload, engine);
      GrewBy(cache, r.1, files, r.0, hasher)
    decreases |files|, 1
  {
    if |files| > 0 {
      CacheGrowsWithLastCall(cache, files, hasher, overload, engine);
    }
  }

  /** The inductive step: the calls before the last, then the last. */
  lemma CacheGrowsWithLastCall(cache: Cache, files: seq<Option<seq<byte>>>, hasher: Hasher,
                               overload: Overload, engine: TextureRequest -> Option<Texture>)
    requires hasher.threads >= 1 && |files| > 0
    ensures var r := LoadAll(cache, files, hasher, overload, engine);
      GrewBy(cache, r.1, files, r.0, hasher)
    decreases |files|, 0
  {
    var n := |files| - 1;
    var prefix := LoadAll(cache, files[..n], hasher, overload, engine);
    var r := LoadAll(cache, files, hasher, overload, engine);
    CacheOnlyGrows(cache, files[..n], hasher, overload, engine);
    LastCallGrows(cache, files, hasher, overload, engine);
    GrewByOneMore(cache, prefix.1, r.1, files, prefix.0, r.0[n], hasher);
    assert prefix.0 + [r.0[n]] == r.0;
  }

  /** The last of a sequence of calls keeps the entries the earlier ones left and adds at
      most the key of its own file. */
  lemma LastCallGrows(cache: Cache, files: seq<Option<seq<byte>>>, hasher: Hasher,
                      overload: Overload, engine: TextureRequest -> Option<Texture>)
    requires hasher.threads >= 1 && |files| > 0
    ensures var n := |files| - 1;
      var prefix := LoadAll(cache, files[..n], hasher, overload, engine);
      var r := LoadAll(cache, files, hasher, overload, engine);
      && r.0 == prefix.0 + [r.0[n]]
      && StepGrew(prefix.1, r.1, files[n], r.0[n], hasher)
  {
    var n := |files| - 1;
    var prefix := LoadAll(cache, files[..n], hasher, overload, engine);
    LoadKeepsEntries(prefix.1, files[n], hasher, overload, engine);
  }

  /** Growth over a prefix of calls and over the last call is growth over all of them. */
  lemma GrewByOneMore(cache: Cache, mid: Cache, after: Cache, files: seq<Option<seq<byte>>>,
                      results: seq<Result<Texture, LoadError>>, last: Result<Texture, LoadError>, hasher: Hasher)
    requires hasher.threads >= 1 && |files| == |results| + 1
    requires GrewBy(cache, mid, files[..|results|], results, hasher)
    requires StepGrew(mid, after, files[|results|], last, hasher)
    ensures GrewBy(cache, after, files, results + [last], hasher)
  {
    var n := |results|;
    var all := results + [last];
    forall k | k in after && k !in cache
      ensures exists i :: 0 <= i < |files| && files[i].Some? && Key(files[i].value, hasher) == k && all[i].Ok?
    {
      if k in mid {
        var i :| 0 <= i < n && files[..n][i].Some? && Key(files[..n][i].value, hasher) == k && results[i].Ok?;
        assert files[i] == files[..n][i] && all[i] == results[i];
      } else {
        assert all[n] == last;
      }
    }
  }

  /** One call keeps every entry and adds at most the key of a file that loaded. */
  lemma LoadKeepsEntries(cache: Cache, file: Option<seq<byte>>, hasher: Hasher, overload: Overload,
                         engine: TextureRequest -> Option<Texture>)
    requires hasher.threads >= 1
    ensures var l := Load(cache, file, hasher, overload, engine);
      StepGrew(cache, l.cache, file, l.result, hasher)
  {
  }

  /** One call's growth: every entry kept, and at most the key of its file added when it
      loaded. */
  predicate StepGrew(before: Cache, after: Cache, file: Option<seq<byte>>, result: Result<Texture, LoadError>, hasher: Hasher)
    requires hasher.threads >= 1
  {
    && (forall k :: k in before ==> k in after && after[k] == before[k])
    && (forall k :: k in after && k !in before ==> file.Some? && Key(file.value, hasher) == k && result.Ok?)
  }

  /** Decoding a file laid out by `EncodeHeader`: each overload's request carries the
      encoded dimensions and exactly the bytes after the header, and the automatic overload
      takes the format the resolver assigns to the encoded words. */
  lemma EncodedFileRequest(h: Header, bitCount: bv32, dxgiFormat: bv32, payload: seq<byte>,
                           textureFormat: int, format: GraphicsFormat, flags: TextureCreationFlags)
    ensures var b := EncodeHeader(h, bitCount, dxgiFormat) + payload;
      var resolved := ResolveFields(h.pixelFlags, h.fourCC, bitCount, dxgiFormat);
      && BuildRequest(b, AutoFormat) ==
           (if resolved.Ok? then Ok(ByGraphicsFormat(h.width, h.height, resolved.value, CreationFlags(h), payload))
            else Err(resolved.error))
      && BuildRequest(b, WithTextureFormat(textureFormat)) ==
           Ok(ByTextureFormat(h.width, h.height, textureFormat, h.mipChain == 0, payload))
      && BuildRequest(b, WithGraphicsFormat(format, flags)) ==
           Ok(ByGraphicsFormat(h.width, h.height, format, flags, payload))
  {
    ParseEncodedHeader(h, bitCount, dxgiFormat, payload);
    EncodedFileFormat(h, bitCount, dxgiFormat, payload);
  }

  /** GetDDSFormat reads back the words `EncodeHeader` wrote. */
  lemma EncodedFileFormat(h: Header, bitCount: bv32, dxgiFormat: bv32, payload: seq<byte>)
    ensures GetDDSFormat(EncodeHeader(h, bitCount, dxgiFormat) + payload)
            == ResolveFields(h.pixelFlags, h.fourCC, bitCount, dxgiFormat)
  {
    var e := EncodeHeader(h, bitCount, dxgiFormat);
    var b := e + payload;
    EncodedFields(h, bitCount, dxgiFormat);
    ReadInPrefix(e, payload, FlagsOffset);
    ReadInPrefix(e, payload, FourCCOffset);
    ReadInPrefix(e, payload, BitCountOffset);
    if h.fourCC == DX10 {
      ReadInPrefix(e, payload, DxgiFormatOffset);
    } else {
      var d := if |b| >= 132 then ReadU32(b, 128) else 0;
      BranchesReadOnlyTheirWords(h.pixelFlags, h.fourCC, h.fourCC, bitCount, bitCount, dxgiFormat, d);
    }
  }

  /** The automatic overload on an encoded file whose pixel-format words resolve. */
  lemma EncodedAutoRequest(h: Header, bitCount: bv32, dxgiFormat: bv32, payload: seq<byte>, format: GraphicsFormat)
    requires ResolveFields(h.pixelFlags, h.fourCC, bitCount, dxgiFormat) == Ok(format)
    ensures BuildRequest(EncodeHeader(h, bitCount, dxgiFormat) + payload, AutoFormat)
            == Ok(ByGraphicsFormat(h.width, h.height, format, CreationFlags(h), payload))
  {
    EncodedFileRequest(h, bitCount, dxgiFormat, payload, 0, GraphicsFormat.None, TextureCreationFlags.None);
  }

  /** The automatic overload on an encoded file whose pixel-format words do not resolve. */
  lemma EncodedAutoError(h: Header, bitCount: bv32, dxgiFormat: bv32, payload: seq<byte>, e: LoadError)
    requires ResolveFields(h.pixelFlags, h.fourCC, bitCount, dxgiFormat) == Err(e)
    ensures BuildRequest(EncodeHeader(h, bitCount, dxgiFormat) + payload, AutoFormat) == Err(e)
  {
    EncodedFileRequest(h, bitCount, dxgiFormat, payload, 0, GraphicsFormat.None, TextureCreationFlags.None);
  }

  /** A DXT1 file: a 128-byte header, the payload handed over from byte 128 on. */
  lemma Dxt1Example(width: bv32, height: bv32, payload: seq<byte>)
    ensures var h := Header(width, height, 0, FourCCFlag, DXT1);
      var b := EncodeHeader(h, 0, 0) + payload;
      && |EncodeHeader(h, 0, 0)| == 128
      && BuildRequest(b, AutoFormat)
         == Ok(ByGraphicsFormat(width, height, RGBA_DXT1_UNorm, TextureCreationFlags.None, payload))
  {
    LegacyBlockCompressedCodes();
    var h := Header(width, height, 0, FourCCFlag, DXT1);
    EncodedAutoRequest(h, 0, 0, payload, RGBA_DXT1_UNorm);
  }

  /** A DX10 file declaring BC7 sRGB (DXGI code 99): a 148-byte header. */
  lemma Bc7SrgbExample(width: bv32, height: bv32, mipChain: bv32, payload: seq<byte>)
    requires mipChain != 0
    ensures var h := Header(width, height, mipChain, FourCCFlag, DX10);
      var b := EncodeHeader(h, 0, Dxgi.BC7_UNORM_SRGB) + payload;
      && |EncodeHeader(h, 0, Dxgi.BC7_UNORM_SRGB)| == 148
      && BuildRequest(b, AutoFormat)
         == Ok(ByGraphicsFormat(width, height, RGBA_BC7_SRGB, TextureCreationFlags.MipChain, payload))
  {
    var h := Header(width, height, mipChain, FourCCFlag, DX10);
    assert Dx10Format(Dxgi.BC7_UNORM_SRGB) == RGBA_BC7_SRGB;
    EncodedAutoRequest(h, 0, Dxgi.BC7_UNORM_SRGB, payload, RGBA_BC7_SRGB);
  }

  /** An uncompressed 32-bit file: the alpha flag chooses between BGRA8 and RG16 float. */
  lemma Uncompressed32Example(payload: seq<byte>)
    ensures var plain := Header(4, 4, 0, 0, 0);
      var alpha := Header(4, 4, 0, AlphaPixelsFlag, 0);
      && BuildRequest(EncodeHeader(alpha, 32, 0) + payload, AutoFormat)
         == Ok(ByGraphicsFormat(4, 4, B8G8R8A8_UNorm, TextureCreationFlags.None, payload))
      && BuildRequest(EncodeHeader(plain, 32, 0) + payload, AutoFormat)
         == Ok(ByGraphicsFormat(4, 4, R16G16_SFloat, TextureCreationFlags.None, payload))
  {
    assert ResolveFields(AlphaPixelsFlag, 0, 32, 0) == Ok(B8G8R8A8_UNorm);
    EncodedAutoRequest(Header(4, 4, 0, AlphaPixelsFlag, 0), 32, 0, payload, B8G8R8A8_UNorm);
    assert ResolveFields(0, 0, 32, 0) == Ok(R16G16_SFloat);
    EncodedAutoRequest(Header(4, 4, 0, 0, 0), 32, 0, payload, R16G16_SFloat);
  }

  /** The DDPF_FOURCC flag with an all-zero code is an unknown code, and nothing is cached. */
  lemma ZeroFourCCExample(cache: Cache, payload: seq<byte>, hasher: Hasher, engine: TextureRequest -> Option<Texture>)
    requires hasher.threads >= 1
    requires Key(EncodeHeader(Header(4, 4, 0, FourCCFlag, 0), 0, 0) + payload, hasher) !in cache
    ensures var b := EncodeHeader(Header(4, 4, 0, FourCCFlag, 0), 0, 0) + payload;
      Load(cache, Some(b), hasher, AutoFormat, engine) == Loaded(Err(UnknownFourCC(0)), cache)
  {
    assert LegacyFourCCFormat(0) == Err(UnknownFourCC(0));
    EncodedAutoError(Header(4, 4, 0, FourCCFlag, 0), 0, 0, payload, UnknownFourCC(0));
  }

  /** A file whose first word is not "DDS " is rejected after the cache lookup; a miss
      leaves the cache as it was. */
  lemma BadMagicExample(cache: Cache, b: seq<byte>, hasher: Hasher, overload: Overload,
                        engine: TextureRequest -> Option<Texture>)
    requires hasher.threads >= 1 && |b| >= 4 && ReadU32(b, 0) != Magic && Key(b, hasher) !in cache
    ensures Load(cache, Some(b), hasher, overload, engine) == Loaded(Err(NotDds), cache)
    ensures NotDds.ReturnsNull()
  {
  }
}
