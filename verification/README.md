# KerwisChineseAerospacePack: DDS loader and shader-module start-up, in Dafny

This project models two pieces of the mod.

**The DDS texture loader (`KerwisDDSLoader.DDSLoader`).**
- A file's bytes are fingerprinted by a chunked `h * 31 + byte` hash.
- A fingerprint already in `ReferenceCache` returns the cached texture.
- Otherwise the header is read at fixed offsets: magic, height, width, mip count, pixel-format flags, FourCC, RGB bit count, and the DXGI word of the DX10 extension.
- `GetDDSFormat` maps those words to a Unity `GraphicsFormat` through its decision table.
- The payload after the 128- or 148-byte header goes to the engine's `Texture2D` constructor.
- The result is cached.

**The string handling of `KerwisShader.OnStart` and `ChangeTexture`.**
- Renderers are grouped by material name with `" (Instance)"` removed.
- The `ShaderType` and `MatTexMapping` settings (`key:value;key:value`) are read into dictionaries.
- The `MatParams` setting (`Transform:kind:value,kind:value;…`) is read into per-transform parameters.
- Each renderer's material (`renderer.sharedMaterial`) is assigned the renderer's shader and floats. Renderers that share a material write to the same material.
- The texture-variant list is trimmed and split.
- `ChangeTexture` hands each renderer the `.dds` files whose names hold its material's search key and the current variant, in the slot their name selects (BaseMap, MaskMap, Normal, Emissive, in that order of precedence).

The module layout follows the program:

| module | models |
|---|---|
| `Wrappers` | `Result`/`Option` |
| `LittleEndian` | `Marshal.ReadInt32` on a byte buffer, and its inverse `Write32` |
| `DdsTypes`, `Dxgi` | `GraphicsFormat`, `TextureCreationFlags`, the loader's errors, the `DXGI_FORMAT` ordinals |
| `DdsHeader` | header fields, header size, payload, creation flags, and an encoder used as the parser's partner |
| `FormatResolver` | `FC2I` and `GetDDSFormat` |
| `ContentHash` | `GetByteArrayHashCode` as written, and the hash it evidently means to compute |
| `DdsLoader` | the three `FromFile` overloads and the cache |
| `Text` | `Replace`, `Split`, `Trim`, `Contains` on strings |
| `PartConfig` | `ShaderType`, `MatTexMapping`, shader names, variant options |
| `MaterialParams` | `MatParams`, as written and corrected |
| `MaterialGroups` | the material dictionary and `ChangeTexture` |
| `PartSetup` | `OnStart` |

Integers that the source keeps in C# `int` are modelled as follows:
- Header words are `bv32`, the raw bit pattern.
- Hash words are integers modulo 2^32. C#'s wrap-around on `h * 31 + x` is the same bit pattern read unsigned.

`Marshal.ReadInt32` past the end of the array is undefined in the source. The model returns `Truncated(offset)` there instead.

The fragment loop of `GetByteArrayHashCode` is evidently meant to fold every fragment into its own slot. As written it folds only the first fragment, and with one worker none at all (see Findings). The model gives both: `ContentHash.HashAsWritten` follows the code, and `ContentHash.Hash` folds every fragment. Either one still depends on the worker count. The loader takes the hash version as a parameter (`DdsLoader.Hasher`): with `AsWrittenHash` it is the program, and with `CorrectedHash` it is the evident intent. In the same way `OnStart` takes the `MatParams` reader as a parameter: `AsWritten` is the program's field index, `Corrected` the evident intent. Every lemma about the loader or `OnStart` holds for both versions unless it names one.

## Model

| member | source | states |
|---|---|---|
| LittleEndian.Write32 | DDSLoader/DDSLoader.cs:91-94 | writing a word changes only its four bytes, and `Marshal.ReadInt32` at that offset reads the word back |
| LittleEndian.ReadPastWrite | DDSLoader/DDSLoader.cs:91-94 | a word written at one offset leaves the word read at any non-overlapping offset unchanged |
| LittleEndian.BytesOfRead | DDSLoader/DDSLoader.cs:85 | the four bytes of a word read from the buffer are exactly the buffer's bytes at that offset (little-endian) |
| DdsHeader.ParseHeader | DDSLoader/DDSLoader.cs:85-94 | the header parses exactly when the buffer has the words read and starts with the magic `DDS `; "not a dds file" exactly when the first word is present and differs; height from offset 12, width from 16, mip count from 28, flags from 80, FourCC from 84 |
| DdsHeader.HeaderSize | DDSLoader/DDSLoader.cs:95 | the header is 148 bytes exactly when the FourCC word is `DX10`, 128 otherwise |
| DdsHeader.Payload | DDSLoader/DDSLoader.cs:102 | the data handed to `LoadRawTextureData` is everything after the header, and header plus payload is the file; a file shorter than its header fails |
| DdsHeader.CreationFlags | DDSLoader/DDSLoader.cs:97-99 | `MipChain` exactly when the mip count is non-zero |
| DdsHeader.EncodedFields | DDSLoader/DDSLoader.cs:85-95 | a header written by the encoder holds each field at the offset the loader reads it from, the DXGI word included when the header is extended |
| DdsHeader.ParseEncodedHeader | DDSLoader/DDSLoader.cs:85-102 | round trip: parsing an encoded header followed by any payload gives back the header and exactly that payload |
| FormatResolver.Dx10IsPacked | DDSLoader/DDSLoader.cs:95 | the `DX10` constant is `FC2I("DX10")`, the first character in the low byte |
| FormatResolver.DxtCodesArePacked | DDSLoader/DDSLoader.cs:200-236 | the DXT1 to DXT5 constants are the packed four-character codes the switch compares with |
| FormatResolver.BcCodesArePacked | DDSLoader/DDSLoader.cs:200-222 | the BC4U, BC4S, ATI2 and BC5S constants are the packed codes of those names |
| FormatResolver.OtherCodesArePacked | DDSLoader/DDSLoader.cs:200-236 | the RGBG, GRGB, UYVY and YUY2 constants are the packed codes of those names |
| FormatResolver.LegacyFourCCFormat | DDSLoader/DDSLoader.cs:213-238 | a FourCC gives a format exactly when it is one of the supported codes, a "no longer supported" error exactly for the retired ones, and "unknown FourCC" with the code for every other value; no legacy code yields an sRGB format or `None` |
| FormatResolver.LegacyBlockCompressedCodes | DDSLoader/DDSLoader.cs:216-222 | the block-compressed FourCCs map to DXT1/3/5 UNorm, BC4 UNorm/SNorm and BC5 UNorm/SNorm |
| FormatResolver.LegacyUncompressedCodes | DDSLoader/DDSLoader.cs:223-232 | RGBG and GRGB read as `R8G8B8A8_UNorm`; the numeric codes 36 and 110 to 116 read as the 16-bit UNorm/SNorm and 16/32-bit float formats the switch names |
| FormatResolver.Dx10Format | DDSLoader/DDSLoader.cs:240-264 | a DXGI ordinal gives a real format exactly for BC1 to BC5 (70 to 84) and BC6H to BC7 (94 to 99), all of them block-compressed; sRGB exactly for the three `_UNORM_SRGB` BC1 to BC3 ordinals and BC7 `_UNORM_SRGB` |
| FormatResolver.Dx10SrgbAndSignedCodes | DDSLoader/DDSLoader.cs:244-258 | the BC1 to BC3 sRGB ordinals read as the DXT1/3/5 sRGB formats, BC4 and BC5 SNorm as their signed formats, and BC6H UF16 as the unsigned BC6H format |
| FormatResolver.TypelessReadsAsUnorm | DDSLoader/DDSLoader.cs:242-261 | each `_TYPELESS` ordinal is read like its UNorm sibling (BC6H like SF16) |
| FormatResolver.UncompressedFormat | DDSLoader/DDSLoader.cs:266-285 | an uncompressed file gives a format exactly for bit counts 8, 16, 24, 32, 48, 64, 128, never block-compressed, with the stated bits per pixel except at 24; otherwise "unsupported bit count" with the count; at 32 and 64 the alpha flag decides whether the format has alpha |
| FormatResolver.AlphaDecidesOnlyAt32And64 | DDSLoader/DDSLoader.cs:268-283 | the alpha flag changes the result exactly at bit counts 32 and 64 |
| FormatResolver.Rgb24ReadAsTwoChannels | DDSLoader/DDSLoader.cs:275 | a 24-bit file is read as the 16-bit two-channel `R8G8_UNorm`, whatever the alpha flag |
| FormatResolver.ResolveFields | DDSLoader/DDSLoader.cs:203-286 | an sRGB result needs the FourCC flag and a `DX10` code; block compression needs the FourCC flag; FourCC errors only on the flagged path with a non-`DX10` code; bit-count errors only on the unflagged path; `None` only from the DXGI table |
| FormatResolver.BranchesReadOnlyTheirWords | DDSLoader/DDSLoader.cs:211-286 | the flagged path never reads the bit count, the legacy path never reads the DXGI word, and the unflagged path reads neither the FourCC nor the DXGI word |
| FormatResolver.GetDDSFormat | DDSLoader/DDSLoader.cs:201-287 | for a file long enough, the format is the decision table applied to the words at offsets 80, 84, 88 and 128; a legacy code needs only the words up to 88; a file under 88 bytes, a flagged `DX10` file under 132 bytes, and an unflagged file under 92 bytes fail as truncated at the word they lack; an sRGB result implies an extended header |
| Dxgi.OrdinalsFollowDeclarationOrder | DDSLoader/DDSLoader.cs:295-419 | the 122 enum members, in declaration order, give the BC ordinals the resolver uses (BC1_TYPELESS = 70 … BC7_UNORM_SRGB = 99) |
| ContentHash.FragLength | DDSLoader/DDSLoader.cs:41 | the fragment length is the length divided by the worker count, rounded up: the smallest length whose multiple covers the buffer |
| ContentHash.HashAsWrittenLoops | DDSLoader/DDSLoader.cs:32-56 | the loops as written compute `HashAsWritten`, which is 0 whatever the bytes when there is one worker |
| ContentHash.SlotLoop | DDSLoader/DDSLoader.cs:42-47 | the parallel loop as written fills every slot with `SlotAsWritten` |
| ContentHash.AsWrittenHashesFirstFragmentOnly | DDSLoader/DDSLoader.cs:41-50 | as written, the hash is the fold of the first fragment multiplied by 31 once per later slot; with one worker it is 0 |
| ContentHash.AsWrittenIgnoresLaterFragments | DDSLoader/DDSLoader.cs:41-50 | as written, two buffers of the same length that agree on the first fragment hash alike |
| ContentHash.AsWrittenCollision | DDSLoader/DDSLoader.cs:41-50 | as written with two workers, the buffers `[0, 0]` and `[0, 1]` hash alike |
| ContentHash.FragmentsPartitionBuffer | DDSLoader/DDSLoader.cs:41-47 | the corrected fragments, in order, concatenate to the whole buffer: no byte dropped or repeated |
| ContentHash.SingleWorkerHashesWholeBuffer | DDSLoader/DDSLoader.cs:46-50 | with one worker the corrected hash is the rolling hash of the whole buffer |
| ContentHash.StepInjective | DDSLoader/DDSLoader.cs:46 | `h * 31 + x` modulo 2^32 determines `h` from the result and `x` |
| ContentHash.FoldSeesEveryWord | DDSLoader/DDSLoader.cs:46-50 | two sequences differing in exactly one word fold to different values |
| ContentHash.HashSeesEveryByte | DDSLoader/DDSLoader.cs:32-56 | with the corrected loop, two buffers differing in exactly one byte get different hashes, for any worker count |
| DdsLoader.BuildRequest | DDSLoader/DDSLoader.cs:83-104 | a request is built exactly when the header parses, the file holds the whole 128/148-byte header and, for the automatic overload, `GetDDSFormat` succeeds; a header error or the automatic overload's format error is returned as it is; on success the request carries the width and height read from the file and the bytes after the 128/148-byte header; only the automatic overload consults `GetDDSFormat` and derives the flags from the mip count; the other overloads pass the caller's format and flags, or `mipchain == 0` as the texture-format constructor's boolean |
| DdsLoader.Load | DDSLoader/DDSLoader.cs:62-108 | an unreadable file fails; a fingerprint in the cache returns the cached texture and leaves the cache alone; on a miss a decoding error is returned with the cache unchanged, an engine failure gives "engine failed", and a created texture is returned and added under the file's fingerprint; the cache changes only in that last case |
| DdsLoader.OneWorkerServesFirstTexture | DDSLoader/DDSLoader.cs:41-50 | with the hash as written and one worker, once any file has loaded, every other file is served that file's texture and the cache stays as it is |
| DdsLoader.LaterFragmentsServeFirstTexture | DDSLoader/DDSLoader.cs:41-81 | with the hash as written and several workers, a file of the same length that agrees with an already loaded file on the first fragment is served that file's texture |
| DdsLoader.CorrectedKeySeparatesFiles | DDSLoader/DDSLoader.cs:32-81 | with the corrected hash, a file differing from an already loaded one in a single byte misses the cache and gets what it would get on its own |
| DdsLoader.SecondLoadHitsCache | DDSLoader/DDSLoader.cs:77-81 | loading the same bytes again returns the first texture and leaves the cache as it was, whatever the overload or engine of the second call |
| DdsLoader.CacheOnlyGrows | DDSLoader/DDSLoader.cs:26-31 | over any sequence of calls the cache keeps every entry, and each new key is the fingerprint of a file whose call succeeded |
| DdsLoader.EncodedFileRequest | DDSLoader/DDSLoader.cs:62-199 | for any encoded file, each overload asks the engine for the header's width and height and exactly the payload; the automatic overload uses the decision table's format and the mip-count flags, or fails with its error |
| DdsLoader.EncodedFileFormat | DDSLoader/DDSLoader.cs:96 | `GetDDSFormat` of an encoded file is the decision table applied to the encoded fields |
| DdsLoader.Dxt1Example | DDSLoader/DDSLoader.cs:216 | a DXT1 file without mipmaps is requested as `RGBA_DXT1_UNorm` with no creation flags, after a 128-byte header |
| DdsLoader.Bc7SrgbExample | DDSLoader/DDSLoader.cs:262 | a DX10 file with `BC7_UNORM_SRGB` and mipmaps is requested as `RGBA_BC7_SRGB` with `MipChain`, after a 148-byte header |
| DdsLoader.Uncompressed32Example | DDSLoader/DDSLoader.cs:276-278 | a 32-bit uncompressed file is `B8G8R8A8_UNorm` with the alpha flag and `R16G16_SFloat` without |
| DdsLoader.ZeroFourCCExample | DDSLoader/DDSLoader.cs:238 | a flagged FourCC of 0 fails with "unknown FourCC 0" and leaves the cache alone |
| DdsLoader.BadMagicExample | DDSLoader/DDSLoader.cs:85-90 | a file not starting with `DDS ` fails with "not a dds file", which `FromFile` reports as null, and leaves the cache alone |
| Text.Contains | KerwisShader/KerwisShader.cs:365 | `String.Contains` holds exactly when the pattern occurs at some position (the empty pattern always does) |
| Text.RemoveAllUnchanged | KerwisShader/KerwisShader.cs:169 | `Replace(pattern, "")` returns the string unchanged exactly when the pattern does not occur in it |
| Text.RemoveCharIsWithout | KerwisShader/KerwisShader.cs:210 | `Replace(" ", "")` removes every space and keeps every other character in order |
| Text.Split | KerwisShader/KerwisShader.cs:210 | `Split` gives at least one part, none holding the separator, and joining the parts with it gives the string back |
| Text.SplitJoin | KerwisShader/KerwisShader.cs:210-214 | round trip: splitting a join of separator-free parts gives the parts back |
| Text.Trim | KerwisShader/KerwisShader.cs:337 | `Trim(c)` leaves the middle of the string with no `c` at either end, having cut only copies of `c` |
| MaterialGroups.InstanceSharesKey | KerwisShader/KerwisShader.cs:169 | an instanced material `X (Instance)` has the same dictionary key as `X` |
| MaterialGroups.PlainNameIsKey | KerwisShader/KerwisShader.cs:169 | a material name is its own key exactly when it does not contain `" (Instance)"` |
| MaterialGroups.GroupsByMaterialKey | KerwisShader/KerwisShader.cs:166-173 | the dictionary has one entry per distinct key, none empty; a renderer is listed under a key exactly when its material has that key; it is empty exactly when the part has no renderers |
| MaterialGroups.SlotForName | KerwisShader/KerwisShader.cs:366-377 | a file goes into the first slot, in the order BaseMap, MaskMap, Normal, Emissive, whose tag its name holds, and into none exactly when it holds no tag |
| MaterialGroups.SearchKey | KerwisShader/KerwisShader.cs:365 | the MatTexMapping entry for the material key when there is one, otherwise the key |
| MaterialGroups.EmptyVariantMatchesEveryFile | KerwisShader/KerwisShader.cs:331-365 | with no variant chosen, a file applies exactly when its name holds the search key |
| MaterialGroups.ChangeTextureAssigns | KerwisShader/KerwisShader.cs:359-379 | a renderer receives a file in a slot exactly when the file is in the folder, its name holds the renderer's search key and the variant, and the slot is the one its name selects |
| PartConfig.KeptPairsAreTwoPartSegments | KerwisShader/KerwisShader.cs:212-217 | the pairs kept are exactly the segments that split on ':' into two parts; the others are skipped silently |
| PartConfig.AddAll | KerwisShader/KerwisShader.cs:217-235 | `Dictionary.Add` over the pairs succeeds exactly when no key repeats; then every key is present with its pair's value; otherwise it fails on a key that occurs twice |
| PartConfig.ParsePairs | KerwisShader/KerwisShader.cs:210-240 | keys and values of a parsed setting hold no space, ';' or ':' |
| PartConfig.FormatParsesBack | KerwisShader/KerwisShader.cs:210-240 | round trip: pairs with distinct keys written as `key:value;…` parse back to exactly those pairs |
| PartConfig.EmptySettingHasNoPairs | KerwisShader/KerwisShader.cs:225-226 | an empty setting gives an empty dictionary |
| PartConfig.ShaderNamesRoundTrip | KerwisShader/KerwisShader.cs:296-301 | each shader's configuration name selects that shader |
| PartConfig.ShaderFor | KerwisShader/KerwisShader.cs:291-310 | an object without an entry gets Lit and no error; an entry naming no shader gets Lit and an error; otherwise the shader named |
| PartConfig.VariantOptions | KerwisShader/KerwisShader.cs:337 | the options hold no space or ';', joined with ';' they are the setting without spaces and trimmed of ';', and the first and last are non-empty when anything is left |
| PartConfig.CurrentVariant | KerwisShader/KerwisShader.cs:327-340 | a blank persisted value gives the empty variant, any other gives the first option |
| PartConfig.VariantOptionsRoundTrip | KerwisShader/KerwisShader.cs:337-339 | round trip: names written between semicolons, with stray ';' and spaces at the ends, come back as the option list |
| MaterialParams.ParamNamesRoundTrip | KerwisShader/KerwisShader.cs:264-268 | each parameter's configuration name selects that parameter |
| MaterialParams.PropertyNamesDistinct | KerwisShader/KerwisShader.cs:318-322 | no two parameters are written to the same material property |
| MaterialParams.ReadToken | KerwisShader/KerwisShader.cs:261-275 | an empty token is skipped; a read parameter's name is field `at` and its value field `at + 1`; an unknown name is skipped only when field `at` exists |
| MaterialParams.FieldIndex | KerwisShader/KerwisShader.cs:258-276 | as written the index is 1 until the first parameter is read; as intended it is 1 exactly in the first token |
| MaterialParams.ReadParams | KerwisShader/KerwisShader.cs:259-281 | the parameters read have distinct kinds; a failure is a token too short for its index or a kind given twice for the transform |
| MaterialParams.ParamsComeFromTokens | KerwisShader/KerwisShader.cs:259-277 | every parameter read comes from some token, read at field 0 or 1 |
| MaterialParams.CorrectedReadsEveryParam | KerwisShader/KerwisShader.cs:258-281 | with the corrected index, reading succeeds exactly when no token is too short and no kind repeats, and then yields exactly the parameters the tokens name |
| MaterialParams.AsWrittenMisreadsAfterUnknownName | KerwisShader/KerwisShader.cs:258-276 | as written, `T:foo:1,metallic:0.5` sets nothing, while the corrected reader sets metallic to `0.5` |
| MaterialParams.AsWrittenSkipsRepeatAfterUnknownName | KerwisShader/KerwisShader.cs:258-277 | as written, `T:foo:1,metallic:0.5,metallic:0.7` reads nothing and throws nothing, while the corrected reader throws on the repeated kind |
| MaterialParams.ReadersAgreeWhenFirstTokenReads | KerwisShader/KerwisShader.cs:258-276 | when the first token names a known parameter, the two readers agree |
| MaterialParams.ReadSegments | KerwisShader/KerwisShader.cs:252-257 | the transforms read are distinct, every non-empty segment's transform is among them, and each entry is read from a segment with its name |
| MaterialParams.ParseMatParams | KerwisShader/KerwisShader.cs:245-283 | transform names are distinct and hold no space, ';', ':' or ',' |
| MaterialParams.RepeatedTransformFails | KerwisShader/KerwisShader.cs:252-257 | two non-empty segments naming the same transform make the read throw, as the second `Dictionary.Add` of that name does |
| MaterialParams.RepeatedTransformSettingFails | KerwisShader/KerwisShader.cs:245-257 | a MatParams setting whose segments name one transform twice fails to parse |
| MaterialParams.EmptySettingHasNoTransforms | KerwisShader/KerwisShader.cs:245 | an empty setting configures no transform |
| MaterialParams.WrittenSettingReadsBack | KerwisShader/KerwisShader.cs:243-283 | round trip: transforms written in the documented `Transform:kind:value,kind:value;…` form read back as those transforms, with either reader |
| PartSetup.ParamsFor | KerwisShader/KerwisShader.cs:312 | a transform's parameters are found exactly when MatParams names it |
| PartSetup.FloatsFollowParams | KerwisShader/KerwisShader.cs:317-323 | a float is set exactly when a parameter gives it, under that parameter's property, and no property twice |
| PartSetup.OnStart | KerwisShader/KerwisShader.cs:161-341 | a start succeeds exactly when the part has renderers, the texture folder exists, ShaderType and MatTexMapping hold no repeated key and MatParams parses (read with the given reader); a repeated key or a MatParams error stops it with that error, checked in that order; a successful start groups the renderers by material key, holds the parsed MatTexMapping, the variant and the folder's files, gives the setups of ShaderType and MatParams and the first `ChangeTexture`'s assignments |
| PartSetup.NoMaterialsExactlyWithoutRenderers | KerwisShader/KerwisShader.cs:174-178 | `OnStart` stops with "no materials" exactly when the part has no renderers |
| PartSetup.TextureFolderMissingExactlyWithoutFolder | KerwisShader/KerwisShader.cs:186-191 | `OnStart` stops with "texture folder missing" exactly when the part has renderers but the folder does not exist |
| PartSetup.EveryRendererIsSetUp | KerwisShader/KerwisShader.cs:285-326 | after a successful start, with either MatParams reader (the as-written one included), the setups are one per renderer of the part, with the shader ShaderType gives its object and the floats MatParams, read with that reader, gives it |
| PartSetup.FloatsOfConfiguredTransform | KerwisShader/KerwisShader.cs:312-323 | with either MatParams reader, a renderer whose object MatParams configures receives exactly that transform's parameters as floats, no property twice |
| PartSetup.UnconfiguredObjectGetsNoFloats | KerwisShader/KerwisShader.cs:312 | an object MatParams does not name receives no floats |
| PartSetup.FirstTexturesApplied | KerwisShader/KerwisShader.cs:341-379 | with either MatParams reader, the first `ChangeTexture` gives a renderer a file exactly when the file is in the texture folder, its name holds the renderer's search key and the current variant, and it names the slot |

## Left out

- File system, Unity and KSP calls become parameters or records:
  - `File.ReadAllBytes`, `DirectoryInfo` and `GetFiles`: a file is `Some(bytes)` or `None`, and the folder is an optional list of file names.
  - The `Texture2D` constructor, `LoadRawTextureData` and `Apply`: an engine function from a creation request to a texture, `None` when it throws.
  - `SetTexture` and `SetFloat`: the model records these calls instead of making them.
  - Shader assets: a `Shader` value.
- `Parallel.For` scheduling: the workers write disjoint slots, so the slots are computed one after another with the same result.
- Log messages: only the "unknown shader" error is recorded, as a flag; the other `Debug.Log`/`LogError` text is left out.
- `#if DEBUG` code is not modelled: the empty-folder check, the timing stopwatch, and the metallic, smoothness and ambient editing handlers.
- `float.Parse`: parameter values stay the text that would be parsed; a value that does not parse as a float, which would throw, is not modelled.
- The `Fields[CurrentTextureVariant]` lookup and the UI wiring (`uiControlEditor`, `onFieldChanged`, `options`): KSP's field table is not part of this model. The lookup uses the variant's value, not the field name, so it most likely throws whenever the saved variant is not blank and not itself a field name; the model assumes it succeeds and keeps only the options list and the current variant it sets.
- Loading the textures `ChangeTexture` assigns: this needs the files' bytes, which are I/O. Assignments name the file and are not chained into `DdsLoader.Load`.
- PartSetup.EveryRendererIsSetUp: the setups record the writes made for each renderer (the `.shader` assignment and the `SetFloat` calls), not the resulting state of the material. The writes go to `renderer.sharedMaterial`, so when several renderers share one material, the last write in the order the dictionary is walked wins, and the material ends with that renderer's shader and floats.
- PartSetup.FirstTexturesApplied / MaterialGroups.ChangeTextureAssigns: the "exactly when" assumes that no `DDSLoader.FromFile` call inside the walk throws. A `DDSFormatException` from the format resolver, or an engine exception from `Texture2D`, leaves `ChangeTexture` and `OnStart`, and only the `SetTexture` calls made before the throwing file happen.
- DdsHeader.Payload: a file that holds a valid header's first 88 bytes but is shorter than its 128- or 148-byte header fails as `Truncated` before the engine is called. The code builds the texture and then fails in `LoadRawTextureData` with a negative length, an engine exception. Both throw and leave the cache unchanged.
- MaterialGroups.ChangeTextureAssigns: states which `SetTexture` calls happen, not their order. Of several files matching one slot the last one wins in the engine; the model does not say which that is.
- DdsLoader.Load: concurrent first-time requests for the same fingerprint are not modelled; calls are sequential.
- ContentHash.Hash: depends on the worker count, like the code. A count-independent fingerprint would need a different algorithm, not a fix of this one.
- The texture-format overload passes `mipchain == 0` as the constructor's `mipChain` boolean. It is modelled exactly as written, with no claim about whether the inversion is intended.
- Width and height are kept as raw 32-bit words. A negative C# `int` handed to the engine is the engine's concern.
- `PartMusic/PartMusic.cs` is not part of this model.

## Findings

| source | as written | input that shows it | evidently intended | confidence | as-written member | corrected member |
|---|---|---|---|---|---|---|
| DDSLoader/DDSLoader.cs:41-50 | `Parallel.For(0, threads-1, …)` skips the last worker. Each inner loop stops at `remain<fragLength?remain:fragLength`, a length rather than an end index, so only worker 0 folds any bytes (its first fragment). With one worker nothing is folded and every file hashes to 0. | two workers, buffers `[0, 0]` and `[0, 1]`: equal hashes. At the cache level, `DdsLoader.LaterFragmentsServeFirstTexture` and, for one worker, `DdsLoader.OneWorkerServesFirstTexture` show the second file served the first file's texture | every fragment `[j*fragLength, min((j+1)*fragLength, length))` folded into slot `j`, then the slots combined | not executed; the arithmetic is proved | ContentHash.AsWrittenCollision | ContentHash.HashSeesEveryByte |
| KerwisShader/KerwisShader.cs:258-276 | `isFirstToken` drops to 0 only after a parameter is read. An unknown name in the first token keeps it at 1, so the next token's name is taken from its value field. | `MatParams = T:foo:1,metallic:0.5`: metallic is skipped as the unknown name `0.5` | field 1 in the first token, which carries the transform name, and field 0 in every later token | not executed; proved on the model | MaterialParams.AsWrittenMisreadsAfterUnknownName | MaterialParams.CorrectedReadsEveryParam |
