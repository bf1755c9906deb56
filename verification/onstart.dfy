/** `OnStart` of the shader module: group the part's renderers by material, find the
    texture folder, read the ShaderType, MatTexMapping and MatParams settings, give every
    renderer its shader and float parameters, choose the texture variant and apply the
    textures once. */
module PartSetup {
  import opened Wrappers
  import opened Text
  import PartConfig
  import MaterialParams
  import opened MaterialGroups

  /** Why `OnStart` stops: it logs and returns, or a dictionary `Add` throws. */
  datatype StartError =
    | NoMaterials
    | TextureFolderMissing
    | ShaderTypeDuplicate(key: string)
    | MatTexMappingDuplicate(key: string)
    | MatParamsFailed(error: MaterialParams.ParamError)

  /** One `SetFloat` call on a renderer's material. */
  datatype FloatSetting = FloatSetting(property: string, value: string)

  /** What `OnStart` does to one renderer: the shader it installs and the floats it sets. */
  datatype Setup = Setup(renderer: Renderer, shader: PartConfig.ShaderChoice, floats: seq<FloatSetting>)

  /** The state `OnStart` leaves behind, and the texture calls its first `ChangeTexture` makes. */
  datatype Started = Started(
    groups: seq<Group>,
    mapping: map<string, string>,
    files: seq<string>,
    variant: string,
    setups: seq<Setup>,
    assignments: seq<Assignment>)

  /** The parameters MatParams gives the transform `name`, if it names one. */
  function ParamsFor(entries: seq<MaterialParams.TransformParams>, name: string): (r: Option<seq<MaterialParams.Param>>)
    ensures r.None? <==> name !in MaterialParams.Transforms(entries)
    ensures r.Some? ==> MaterialParams.TransformParams(name, r.value) in entries
    decreases |entries|
  {
    if |entries| == 0 then None
    else if entries[0].transform == name then Some(entries[0].params)
    else
      assert entries == [entries[0]] + entries[1..];
      ParamsFor(entries[1..], name)
  }

  /** With no transform named twice, the lookup finds the one entry for the name. */
  lemma ParamsForFindsEntry(entries: seq<MaterialParams.TransformParams>, e: MaterialParams.TransformParams)
    requires MaterialParams.DistinctTransforms(entries) && e in entries
    ensures ParamsFor(entries, e.transform) == Some(e.params)
  {
    var r := ParamsFor(entries, e.transform);
    assert e.transform in MaterialParams.Transforms(entries);
    var i :| 0 <= i < |entries| && entries[i] == e;
    var j :| 0 <= j < |entries| && entries[j] == MaterialParams.TransformParams(e.transform, r.value);
    assert i == j;
  }

  /** The `SetFloat` calls for a transform's parameters, in the order they were read. */
  function Floats(ps: seq<MaterialParams.Param>): (r: seq<FloatSetting>)
    ensures |r| == |ps|
    ensures forall i :: 0 <= i < |ps| ==> r[i] == FloatSetting(MaterialParams.PropertyName(ps[i].kind), ps[i].value)
  {
    seq(|ps|, i requires 0 <= i < |ps| => FloatSetting(MaterialParams.PropertyName(ps[i].kind), ps[i].value))
  }

  /** A float is set exactly when a parameter gives it, and with kinds distinct no property
      is set twice. */
  lemma FloatsFollowParams(ps: seq<MaterialParams.Param>)
    requires MaterialParams.DistinctKinds(ps)
    ensures forall f :: f in Floats(ps) <==>
      exists p :: p in ps && f == FloatSetting(MaterialParams.PropertyName(p.kind), p.value)
    ensures forall i, j :: 0 <= i < j < |ps| ==> Floats(ps)[i].property != Floats(ps)[j].property
  {
    var fs := Floats(ps);
    forall f | f in fs
      ensures exists p :: p in ps && f == FloatSetting(MaterialParams.PropertyName(p.kind), p.value)
    {
      var i :| 0 <= i < |fs| && fs[i] == f;
      assert ps[i] in ps;
    }
    forall p | p in ps
      ensures FloatSetting(MaterialParams.PropertyName(p.kind), p.value) in fs
    {
      var i :| 0 <= i < |ps| && ps[i] == p;
      assert fs[i] == FloatSetting(MaterialParams.PropertyName(p.kind), p.value);
    }
    forall i, j | 0 <= i < j < |ps|
      ensures fs[i].property != fs[j].property
    {
      MaterialParams.PropertyNamesDistinct(ps[i].kind, ps[j].kind);
    }
  }

  /** The setup of one renderer: the shader ShaderType gives its object (Lit by default),
      and the floats MatParams gives it when its object is a configured transform. */
  function SetupOf(x: Renderer, shaderPairs: map<string, string>, entries: seq<MaterialParams.TransformParams>): Setup {
    var floats := match ParamsFor(entries, x.objectName)
      case None => []
      case Some(ps) => Floats(ps);
    Setup(x, PartConfig.ShaderFor(shaderPairs, x.objectName), floats)
  }

  /** The setups, group by group and member by member, as the dictionary is walked. */
  function GroupSetups(groups: seq<Group>, shaderPairs: map<string, string>, entries: seq<MaterialParams.TransformParams>): (r: seq<Setup>)
    ensures forall s :: s in r <==>
      (exists g :: g in groups && s.renderer in g.members) && s == SetupOf(s.renderer, shaderPairs, entries)
    decreases |groups|
  {
    if |groups| == 0 then []
    else
      var n := |groups| - 1;
      var g := groups[n];
      assert groups == groups[..n] + [g];
      var own := seq(|g.members|, i requires 0 <= i < |g.members| => SetupOf(g.members[i], shaderPairs, entries));
      assert forall i :: 0 <= i < |g.members| ==> own[i] == SetupOf(g.members[i], shaderPairs, entries);
      GroupSetups(groups[..n], shaderPairs, entries) + own
  }

  /** `OnStart`, with the part's renderers, the `.dds` file names of the texture folder
      (`None` when the folder is missing) and the module's settings as inputs. MatParams is
      read with `reader`: `AsWritten` is the program, `Corrected` the evident intent. */
  function OnStart(
    rs: seq<Renderer>,
    folder: Option<seq<string>>,
    shaderType: string,
    matTexMapping: string,
    matParams: string,
    reader: MaterialParams.Reader,
    current: string,
    variantKeys: string): (r: Result<Started, StartError>)
    ensures r.Ok? ==> rs != [] && folder.Some? && r.value.files == folder.value
    ensures r.Ok? ==> r.value.groups == Groups(rs) && r.value.variant == PartConfig.CurrentVariant(current, variantKeys)
    ensures r.Ok? ==> PartConfig.ParsePairs(matTexMapping) == Ok(r.value.mapping)
    ensures r.Ok? ==> PartConfig.ParsePairs(shaderType).Ok?
                      && MaterialParams.ParseMatParams(reader, matParams).Ok?
                      && r.value.setups == GroupSetups(r.value.groups, PartConfig.ParsePairs(shaderType).value,
                                                       MaterialParams.ParseMatParams(reader, matParams).value)
    ensures r.Ok? ==> r.value.assignments == ChangeTexture(r.value.groups, r.value.mapping, r.value.files, r.value.variant)
    ensures r.Ok? <==> rs != [] && folder.Some? && PartConfig.ParsePairs(shaderType).Ok?
                       && PartConfig.ParsePairs(matTexMapping).Ok? && MaterialParams.ParseMatParams(reader, matParams).Ok?
    ensures rs != [] && folder.Some? && PartConfig.ParsePairs(shaderType).Err? ==>
              r == Err(ShaderTypeDuplicate(PartConfig.ParsePairs(shaderType).error))
    ensures rs != [] && folder.Some? && PartConfig.ParsePairs(shaderType).Ok? && PartConfig.ParsePairs(matTexMapping).Err? ==>
              r == Err(MatTexMappingDuplicate(PartConfig.ParsePairs(matTexMapping).error))
    ensures rs != [] && folder.Some? && PartConfig.ParsePairs(shaderType).Ok? && PartConfig.ParsePairs(matTexMapping).Ok?
            && MaterialParams.ParseMatParams(reader, matParams).Err? ==>
              r == Err(MatParamsFailed(MaterialParams.ParseMatParams(reader, matParams).error))
  {
    GroupsByMaterialKey(rs);
    var groups := Groups(rs);
    if groups == [] then Err(NoMaterials)
    else if folder.None? then Err(TextureFolderMissing)
    else
      match PartConfig.ParsePairs(shaderType)
      case Err(k) => Err(ShaderTypeDuplicate(k))
      case Ok(shaderPairs) =>
        match PartConfig.ParsePairs(matTexMapping)
        case Err(k) => Err(MatTexMappingDuplicate(k))
        case Ok(mapping) =>
          match MaterialParams.ParseMatParams(reader, matParams)
          case Err(e) => Err(MatParamsFailed(e))
          case Ok(entries) =>
            var variant := PartConfig.CurrentVariant(current, variantKeys);
            Ok(Started(groups, mapping, folder.value, variant,
                       GroupSetups(groups, shaderPairs, entries),
                       ChangeTexture(groups, mapping, folder.value, variant)))
  }

  /** A part without renderers stops first, and only such a part stops for that reason. */
  lemma NoMaterialsExactlyWithoutRenderers(
    rs: seq<Renderer>, folder: Option<seq<string>>, shaderType: string, matTexMapping: string,
    matParams: string, reader: MaterialParams.Reader, current: string, variantKeys: string)
    ensures OnStart(rs, folder, shaderType, matTexMapping, matParams, reader, current, variantKeys) == Err(NoMaterials)
            <==> rs == []
  {
    GroupsByMaterialKey(rs);
  }

  /** A part with renderers but no texture folder stops next, and only such a part stops
      for that reason. */
  lemma TextureFolderMissingExactlyWithoutFolder(
    rs: seq<Renderer>, folder: Option<seq<string>>, shaderType: string, matTexMapping: string,
    matParams: string, reader: MaterialParams.Reader, current: string, variantKeys: string)
    ensures OnStart(rs, folder, shaderType, matTexMapping, matParams, reader, current, variantKeys) == Err(TextureFolderMissing)
            <==> rs != [] && folder.None?
  {
    GroupsByMaterialKey(rs);
  }

  /** Every renderer of the part, and nothing else, is set up once `OnStart` succeeds: its
      shader comes from ShaderType and its floats from MatParams. */
  lemma EveryRendererIsSetUp(
    rs: seq<Renderer>, folder: Option<seq<string>>, shaderType: string, matTexMapping: string,
    matParams: string, reader: MaterialParams.Reader, current: string, variantKeys: string, s: Setup)
    requires OnStart(rs, folder, shaderType, matTexMapping, matParams, reader, current, variantKeys).Ok?
    ensures var started := OnStart(rs, folder, shaderType, matTexMapping, matParams, reader, current, variantKeys).value;
      s in started.setups <==>
        s.renderer in rs
        && s.shader == PartConfig.ShaderFor(PartConfig.ParsePairs(shaderType).value, s.renderer.objectName)
        && s == SetupOf(s.renderer, PartConfig.ParsePairs(shaderType).value,
                        MaterialParams.ParseMatParams(reader, matParams).value)
  {
    var started := OnStart(rs, folder, shaderType, matTexMapping, matParams, reader, current, variantKeys).value;
    var shaderPairs := PartConfig.ParsePairs(shaderType).value;
    var entries := MaterialParams.ParseMatParams(reader, matParams).value;
    assert started.setups == GroupSetups(Groups(rs), shaderPairs, entries);
    GroupsByMaterialKey(rs);
    SetupsThroughGroups(rs, Groups(rs), shaderPairs, entries, s);
  }

  /** The setups of any grouping that lists each renderer exactly under its key are one per
      renderer. */
  lemma SetupsThroughGroups(
    rs: seq<Renderer>, groups: seq<Group>, shaderPairs: map<string, string>,
    entries: seq<MaterialParams.TransformParams>, s: Setup)
    requires forall x :: x in rs ==> KeyOf(x) in Keys(groups)
    requires forall g, x :: g in groups ==> (x in g.members <==> x in rs && KeyOf(x) == g.key)
    ensures s in GroupSetups(groups, shaderPairs, entries) <==>
      s.renderer in rs && s == SetupOf(s.renderer, shaderPairs, entries)
  {
    if s.renderer in rs {
      var g :| g in groups && g.key == KeyOf(s.renderer);
      assert s.renderer in g.members;
    }
  }

  /** The floats a renderer receives are exactly the parameters MatParams gives its object,
      each under its own property name, and no property is set twice. */
  lemma FloatsOfConfiguredTransform(
    x: Renderer, shaderPairs: map<string, string>, matParams: string, reader: MaterialParams.Reader,
    e: MaterialParams.TransformParams)
    requires MaterialParams.ParseMatParams(reader, matParams).Ok?
    requires e in MaterialParams.ParseMatParams(reader, matParams).value
    requires e.transform == x.objectName
    ensures var floats := SetupOf(x, shaderPairs, MaterialParams.ParseMatParams(reader, matParams).value).floats;
      && (forall f :: f in floats <==>
            exists p :: p in e.params && f == FloatSetting(MaterialParams.PropertyName(p.kind), p.value))
      && (forall i, j :: 0 <= i < j < |floats| ==> floats[i].property != floats[j].property)
  {
    var entries := MaterialParams.ParseMatParams(reader, matParams).value;
    ParamsForFindsEntry(entries, e);
    ParsedParamsDistinct(matParams, reader, e);
    FloatsFollowParams(e.params);
  }

  /** An object MatParams does not name gets no floats. */
  lemma UnconfiguredObjectGetsNoFloats(x: Renderer, shaderPairs: map<string, string>, entries: seq<MaterialParams.TransformParams>)
    requires x.objectName !in MaterialParams.Transforms(entries)
    ensures SetupOf(x, shaderPairs, entries).floats == []
  {
  }

  /** Each transform's parameters were read into a dictionary keyed by kind. */
  lemma ParsedParamsDistinct(matParams: string, reader: MaterialParams.Reader, e: MaterialParams.TransformParams)
    requires MaterialParams.ParseMatParams(reader, matParams).Ok?
    requires e in MaterialParams.ParseMatParams(reader, matParams).value
    ensures MaterialParams.DistinctKinds(e.params)
  {
    var segments := PartConfig.Segments(matParams);
    var s :| s in segments && s != "" && e.transform == MaterialParams.TransformName(s)
             && MaterialParams.ReadParams(reader, e.transform, Split(s, ',')) == Ok(e.params);
  }

  /** The first `ChangeTexture` gives a renderer a file exactly when the file is in the
      folder, its name holds the search key of the renderer's material and the chosen
      variant, and it names a slot. */
  lemma FirstTexturesApplied(
    rs: seq<Renderer>, folder: Option<seq<string>>, shaderType: string, matTexMapping: string,
    matParams: string, reader: MaterialParams.Reader, current: string, variantKeys: string, a: Assignment)
    requires OnStart(rs, folder, shaderType, matTexMapping, matParams, reader, current, variantKeys).Ok?
    ensures var started := OnStart(rs, folder, shaderType, matTexMapping, matParams, reader, current, variantKeys).value;
      a in started.assignments <==>
        a.renderer in rs && a.file in folder.value
        && Applies(a.file, SearchKey(PartConfig.ParsePairs(matTexMapping).value, KeyOf(a.renderer)),
                   PartConfig.CurrentVariant(current, variantKeys))
        && SlotForName(a.file) == Some(a.slot)
  {
    var started := OnStart(rs, folder, shaderType, matTexMapping, matParams, reader, current, variantKeys).value;
    assert started.assignments == ChangeTexture(Groups(rs), started.mapping, folder.value, started.variant);
    ChangeTextureAssigns(rs, started.mapping, folder.value, started.variant, a);
  }
}
