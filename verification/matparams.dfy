/** The MatParams setting: per-transform material parameters, written as
    `Transform:kind:value,kind:value;Transform:kind:value;…`. Values stay the raw text
    that would be handed to `float.Parse`. */
module MaterialParams {
  import opened Wrappers
  import opened Text
  import PartConfig

  /** The three parameters a transform may set, in `MatParamType` order. */
  datatype ParamType = Metallic | Smoothness | Ambient

  /** The configuration name of each parameter. */
  function ParamName(k: ParamType): string {
    match k
    case Metallic => "metallic"
    case Smoothness => "smoothness"
    case Ambient => "ambient"
  }

  /** The parameter a configuration name selects, if any. */
  function ParamNamed(name: string): (r: Option<ParamType>)
    ensures r.Some? ==> ParamName(r.value) == name
    ensures r.None? ==> forall k: ParamType :: ParamName(k) != name
  {
    if name == "metallic" then Some(Metallic)
    else if name == "smoothness" then Some(Smoothness)
    else if name == "ambient" then Some(Ambient)
    else None
  }

  /** The material property a parameter is written to. */
  function PropertyName(k: ParamType): string {
    match k
    case Metallic => "_Metallic"
    case Smoothness => "_Smoothness"
    case Ambient => "_AmbientMultiplier"
  }

  lemma ParamNamesRoundTrip(k: ParamType)
    ensures ParamNamed(ParamName(k)) == Some(k)
  {
  }

  /** No two parameters write the same property. */
  lemma PropertyNamesDistinct(k: ParamType, k': ParamType)
    ensures PropertyName(k) == PropertyName(k') <==> k == k'
  {
    if k != k' {
      assert PropertyName(k)[1] != PropertyName(k')[1];
    }
  }

  datatype Param = Param(kind: ParamType, value: string)

  /** Why reading the setting throws: a token too short for the field index it is read
      at, a parameter given twice for one transform, or a transform given twice. */
  datatype ParamError =
    | MissingField(token: string)
    | DuplicateParam(transform: string, kind: ParamType)
    | DuplicateTransform(transform: string)

  /** What one ','-token says when its fields are read from index `at`. */
  datatype TokenReading = Blank | UnknownName | TooFewFields | Read(param: Param)

  /** An empty token is skipped; otherwise field `at` names the parameter and field
      `at + 1` holds its value. An unknown name is skipped before its value is looked
      at. */
  function ReadToken(token: string, at: nat): (r: TokenReading)
    ensures r.Blank? <==> token == ""
    ensures r.Read? ==> at + 1 < |Split(token, ':')|
                        && ParamName(r.param.kind) == Split(token, ':')[at]
                        && r.param.value == Split(token, ':')[at + 1]
    ensures r.UnknownName? ==> at < |Split(token, ':')|
                               && forall k :: ParamName(k) != Split(token, ':')[at]
  {
    if token == "" then Blank
    else
      var fields := Split(token, ':');
      if at >= |fields| then TooFewFields
      else match ParamNamed(fields[at])
        case None => UnknownName
        case Some(k) => if at + 1 >= |fields| then TooFewFields else Read(Param(k, fields[at + 1]))
  }

  /** Two ways of choosing the field index of each token: as the loop is written, the
      index starts at 1 (the first token also carries the transform name) and drops to 0
      only once a parameter has been read; as intended, it is 1 in the first token and 0
      in every later one. */
  datatype Reader = AsWritten | Corrected

  /** The field index of the token at `position`, given the parameters read before it. */
  function FieldIndex(reader: Reader, position: nat, readSoFar: seq<Param>): (r: nat)
    ensures r <= 1
    ensures reader.Corrected? ==> (r == 1 <==> position == 0)
    ensures reader.AsWritten? ==> (r == 1 <==> readSoFar == [])
  {
    match reader
    case AsWritten => if readSoFar == [] then 1 else 0
    case Corrected => if position == 0 then 1 else 0
  }

  /** The parameter kinds in a list. */
  function Kinds(ps: seq<Param>): set<ParamType> {
    set p | p in ps :: p.kind
  }

  predicate DistinctKinds(ps: seq<Param>) {
    forall i, j :: 0 <= i < j < |ps| ==> ps[i].kind != ps[j].kind
  }

  /** The parameters of one transform, read token by token into a dictionary keyed by
      kind: the first token too short for its index, or the first kind given twice,
      throws. */
  function ReadParams(reader: Reader, transform: string, tokens: seq<string>): (r: Result<seq<Param>, ParamError>)
    ensures r.Ok? ==> DistinctKinds(r.value) && |r.value| <= |tokens|
    ensures r.Err? ==> r.error.MissingField? || (r.error.DuplicateParam? && r.error.transform == transform)
    ensures r.Err? && r.error.MissingField? ==> r.error.token in tokens
    decreases |tokens|
  {
    if |tokens| == 0 then Ok([])
    else
      var n := |tokens| - 1;
      assert forall j :: 0 <= j < n ==> tokens[..n][j] == tokens[j];
      var ps :- ReadParams(reader, transform, tokens[..n]);
      match ReadToken(tokens[n], FieldIndex(reader, n, ps))
      case Blank => Ok(ps)
      case UnknownName => Ok(ps)
      case TooFewFields => Err(MissingField(tokens[n]))
      case Read(p) =>
        if p.kind in Kinds(ps) then Err(DuplicateParam(transform, p.kind))
        else Ok(ps + [p])
  }

  /** Under either reader, every parameter read comes from some token, read at index 0
      or 1. */
  lemma {:induction false} ParamsComeFromTokens(reader: Reader, transform: string, tokens: seq<string>)
    ensures ReadParams(reader, transform, tokens).Ok? ==>
              forall p :: p in ReadParams(reader, transform, tokens).value ==>
                exists j, at :: 0 <= j < |tokens| && at <= 1 && ReadToken(tokens[j], at) == Read(p)
    decreases |tokens|
  {
    if |tokens| > 0 {
      var n := |tokens| - 1;
      var prefix := tokens[..n];
      ParamsComeFromTokens(reader, transform, prefix);
      var r := ReadParams(reader, transform, prefix);
      if r.Ok? && ReadParams(reader, transform, tokens).Ok? {
        var at := FieldIndex(reader, n, r.value);
        forall p | p in ReadParams(reader, transform, tokens).value
          ensures exists j, at :: 0 <= j < |tokens| && at <= 1 && ReadToken(tokens[j], at) == Read(p)
        {
          if p in r.value {
            var j, at' :| 0 <= j < n && at' <= 1 && ReadToken(prefix[j], at') == Read(p);
            assert prefix[j] == tokens[j];
          } else {
            assert ReadToken(tokens[n], at) == Read(p);
          }
        }
      }
    }
  }

  /** What the corrected reader makes of the token at `j`. */
  function CorrectedReading(tokens: seq<string>, j: nat): TokenReading
    requires j < |tokens|
  {
    ReadToken(tokens[j], if j == 0 then 1 else 0)
  }

  /** Every token reads without running out of fields, and no kind is read twice. */
  predicate TokensAccepted(tokens: seq<string>) {
    (forall j :: 0 <= j < |tokens| ==> !CorrectedReading(tokens, j).TooFewFields?)
    && forall i, j :: 0 <= i < j < |tokens| && CorrectedReading(tokens, i).Read? && CorrectedReading(tokens, j).Read?
         ==> CorrectedReading(tokens, i).param.kind != CorrectedReading(tokens, j).param.kind
  }

  /** The corrected reader succeeds exactly when no token is short and no kind repeats,
      and then it holds exactly the parameters the tokens name. */
  lemma {:induction false} CorrectedReadsEveryParam(transform: string, tokens: seq<string>)
    ensures ReadParams(Corrected, transform, tokens).Ok? <==> TokensAccepted(tokens)
    ensures ReadParams(Corrected, transform, tokens).Ok? ==>
              forall p :: p in ReadParams(Corrected, transform, tokens).value <==>
                exists j :: 0 <= j < |tokens| && CorrectedReading(tokens, j) == Read(p)
    decreases |tokens|
  {
    if |tokens| > 0 {
      var n := |tokens| - 1;
      var prefix := tokens[..n];
      PrefixReadings(tokens, n);
      CorrectedReadsEveryParam(transform, prefix);
      var r := ReadParams(Corrected, transform, prefix);
      if r.Ok? {
        assert FieldIndex(Corrected, n, r.value) == (if n == 0 then 1 else 0);
        AcceptedStep(tokens, r.value);
      }
    }
  }

  /** The readings of a prefix are those of the whole, and so is its acceptance. */
  lemma PrefixReadings(tokens: seq<string>, n: nat)
    requires n <= |tokens|
    ensures forall j :: 0 <= j < n ==> CorrectedReading(tokens[..n], j) == CorrectedReading(tokens, j)
    ensures TokensAccepted(tokens) ==> TokensAccepted(tokens[..n])
  {
    assert forall j :: 0 <= j < n ==> tokens[..n][j] == tokens[j];
  }

  /** One more token keeps the tokens accepted unless it is short or repeats a kind read
      before it; whatever it reads is then the only new parameter. */
  lemma AcceptedStep(tokens: seq<string>, ps: seq<Param>)
    requires |tokens| > 0 && TokensAccepted(tokens[..|tokens| - 1])
    requires forall j :: 0 <= j < |tokens| - 1 ==> CorrectedReading(tokens[..|tokens| - 1], j) == CorrectedReading(tokens, j)
    requires forall p :: p in ps <==> exists j :: 0 <= j < |tokens| - 1 && CorrectedReading(tokens, j) == Read(p)
    ensures var last := CorrectedReading(tokens, |tokens| - 1);
      TokensAccepted(tokens) <==> !last.TooFewFields? && !(last.Read? && last.param.kind in Kinds(ps))
  {
    var n := |tokens| - 1;
    var last := CorrectedReading(tokens, n);
    if last.Read? && last.param.kind in Kinds(ps) {
      var q :| q in ps && q.kind == last.param.kind;
      var i :| 0 <= i < n && CorrectedReading(tokens, i) == Read(q);
      assert CorrectedReading(tokens, i).Read?;
    }
  }

  /** As written, a first token whose name is unknown leaves the field index at 1, so the
      next token is read from its value field: `metallic:0.5` reads the name `0.5` and is
      skipped. The corrected reader reads it. */
  lemma AsWrittenMisreadsAfterUnknownName()
    ensures ReadParams(AsWritten, "T", ["T:foo:1", "metallic:0.5"]) == Ok([])
    ensures ReadParams(Corrected, "T", ["T:foo:1", "metallic:0.5"]) == Ok([Param(Metallic, "0.5")])
  {
    UnknownFirstName();
    MetallicToken();
    MisreadAfterUnknown(["T:foo:1", "metallic:0.5"], Param(Metallic, "0.5"));
  }

  /** The same misreading hides a repeated kind: as written the two `metallic` tokens are
      both skipped and nothing throws, while the corrected reader reads both and its
      dictionary `Add` throws on the second. */
  lemma AsWrittenSkipsRepeatAfterUnknownName()
    ensures ReadParams(AsWritten, "T", ["T:foo:1", "metallic:0.5", "metallic:0.7"]) == Ok([])
    ensures ReadParams(Corrected, "T", ["T:foo:1", "metallic:0.5", "metallic:0.7"])
            == Err(DuplicateParam("T", Metallic))
  {
    UnknownFirstName();
    MetallicToken();
    SecondMetallicToken();
    MisreadHidesRepeat(["T:foo:1", "metallic:0.5", "metallic:0.7"], Param(Metallic, "0.5"), Param(Metallic, "0.7"));
  }

  /** Three tokens: an unknown name, then two tokens naming the same kind at index 0 and
      nothing at index 1. */
  lemma MisreadHidesRepeat(tokens: seq<string>, p: Param, q: Param)
    requires |tokens| == 3 && ReadToken(tokens[0], 1) == UnknownName
    requires ReadToken(tokens[1], 1) == UnknownName && ReadToken(tokens[1], 0) == Read(p)
    requires ReadToken(tokens[2], 1) == UnknownName && ReadToken(tokens[2], 0) == Read(q)
    requires p.kind == q.kind
    ensures ReadParams(AsWritten, "T", tokens) == Ok([])
    ensures ReadParams(Corrected, "T", tokens) == Err(DuplicateParam("T", p.kind))
  {
    MisreadAfterUnknown(tokens[..2], p);
    assert p.kind in Kinds([p]);
    ThirdToken(AsWritten, tokens, []);
    ThirdToken(Corrected, tokens, [p]);
  }

  lemma SecondMetallicToken()
    ensures ReadToken("metallic:0.7", 1) == UnknownName
    ensures ReadToken("metallic:0.7", 0) == Read(Param(Metallic, "0.7"))
  {
    SplitTwo("metallic", "0.7", ':');
    assert "metallic:0.7" == "metallic" + [':'] + "0.7";
  }

  /** The third token, read after the first two gave `ps`. */
  lemma ThirdToken(reader: Reader, tokens: seq<string>, ps: seq<Param>)
    requires |tokens| == 3 && ReadParams(reader, "T", tokens[..2]) == Ok(ps)
    ensures ReadParams(reader, "T", tokens) ==
      match ReadToken(tokens[2], FieldIndex(reader, 2, ps))
      case Blank => Ok(ps)
      case UnknownName => Ok(ps)
      case TooFewFields => Err(MissingField(tokens[2]))
      case Read(p) => if p.kind in Kinds(ps) then Err(DuplicateParam("T", p.kind)) else Ok(ps + [p])
  {
    assert tokens[..|tokens| - 1] == tokens[..2];
  }

  lemma UnknownFirstName()
    ensures ReadToken("T:foo:1", 1) == UnknownName
  {
    SplitThree("T", "foo", "1", ':');
    assert "T:foo:1" == "T" + [':'] + "foo" + [':'] + "1";
  }

  lemma MetallicToken()
    ensures ReadToken("metallic:0.5", 1) == UnknownName
    ensures ReadToken("metallic:0.5", 0) == Read(Param(Metallic, "0.5"))
  {
    SplitTwo("metallic", "0.5", ':');
    assert "metallic:0.5" == "metallic" + [':'] + "0.5";
  }

  /** Two tokens, the first with an unknown name and the second naming `p` at index 0 but
      not at index 1. */
  lemma MisreadAfterUnknown(tokens: seq<string>, p: Param)
    requires |tokens| == 2 && ReadToken(tokens[0], 1) == UnknownName
    requires ReadToken(tokens[1], 1) == UnknownName && ReadToken(tokens[1], 0) == Read(p)
    ensures ReadParams(AsWritten, "T", tokens) == Ok([])
    ensures ReadParams(Corrected, "T", tokens) == Ok([p])
  {
    SecondTokenAt(AsWritten, tokens, 1);
    SecondTokenAt(Corrected, tokens, 0);
  }

  /** After a first token with an unknown name, the second token is read at index 1 as
      written and at index 0 as intended. */
  lemma SecondTokenAt(reader: Reader, tokens: seq<string>, at: nat)
    requires |tokens| == 2 && ReadToken(tokens[0], 1) == UnknownName
    requires at == if reader.AsWritten? then 1 else 0
    ensures ReadParams(reader, "T", tokens) ==
      match ReadToken(tokens[1], at)
      case Blank => Ok([])
      case UnknownName => Ok([])
      case TooFewFields => Err(MissingField(tokens[1]))
      case Read(p) => Ok([p])
  {
    FirstTokenUnknown(reader, tokens);
    assert tokens[..|tokens| - 1] == tokens[..1];
    assert FieldIndex(reader, 1, []) == at;
    assert Kinds([]) == {};
    assert forall p: Param :: [] + [p] == [p];
  }

  /** A first token whose name is unknown reads nothing under either reader. */
  lemma FirstTokenUnknown(reader: Reader, tokens: seq<string>)
    requires |tokens| >= 1 && ReadToken(tokens[0], 1) == UnknownName
    ensures ReadParams(reader, "T", tokens[..1]) == Ok([])
  {
    var one := tokens[..1];
    assert one[..|one| - 1] == [] && one[0] == tokens[0];
    assert ReadParams(reader, "T", []) == Ok([]);
    assert FieldIndex(reader, 0, []) == 1;
  }

  /** Once the first token reads a parameter the two readers agree: the misreading needs
      an unknown name in the token that carries the transform name. */
  lemma {:induction false} ReadersAgreeWhenFirstTokenReads(transform: string, tokens: seq<string>)
    requires |tokens| >= 1 && CorrectedReading(tokens, 0).Read?
    ensures ReadParams(AsWritten, transform, tokens) == ReadParams(Corrected, transform, tokens)
    ensures ReadParams(Corrected, transform, tokens).Ok? ==> ReadParams(Corrected, transform, tokens).value != []
    decreases |tokens|
  {
    var n := |tokens| - 1;
    var prefix := tokens[..n];
    if n == 0 {
      assert prefix == [];
    } else {
      assert prefix[0] == tokens[0];
      ReadersAgreeWhenFirstTokenReads(transform, prefix);
    }
  }

  /** Tokens that each read, at the corrected index, the next of a list of parameters
      with distinct kinds give that list back under either reader. */
  lemma {:induction false} TokensReadBack(reader: Reader, transform: string, tokens: seq<string>, ps: seq<Param>)
    requires |tokens| == |ps| && DistinctKinds(ps)
    requires forall j :: 0 <= j < |tokens| ==> CorrectedReading(tokens, j) == Read(ps[j])
    ensures ReadParams(reader, transform, tokens) == Ok(ps)
    decreases |tokens|
  {
    if |tokens| > 0 {
      var n := |tokens| - 1;
      PrefixReadings(tokens, n);
      assert forall j :: 0 <= j < n ==> ps[..n][j] == ps[j];
      TokensReadBack(reader, transform, tokens[..n], ps[..n]);
      assert ps[n].kind !in Kinds(ps[..n]);
      ReadOneMore(reader, transform, tokens, ps);
    }
  }

  lemma ReadOneMore(reader: Reader, transform: string, tokens: seq<string>, ps: seq<Param>)
    requires |tokens| == |ps| >= 1
    requires ReadParams(reader, transform, tokens[..|tokens| - 1]) == Ok(ps[..|ps| - 1])
    requires ps[|ps| - 1].kind !in Kinds(ps[..|ps| - 1])
    requires CorrectedReading(tokens, |tokens| - 1) == Read(ps[|ps| - 1])
    ensures ReadParams(reader, transform, tokens) == Ok(ps)
  {
    var n := |tokens| - 1;
    assert ps[..n] == [] <==> n == 0;
    assert ps[..n] + [ps[n]] == ps;
  }

  /** The name a segment gives its transform: the text before the first ':' of its first
      ','-token. */
  function TransformName(segment: string): (r: string)
    ensures ':' !in r && ',' !in r
  {
    var tokens := Split(segment, ',');
    var fields := Split(tokens[0], ':');
    assert forall c :: c in fields[0] ==> c in tokens[0];
    fields[0]
  }

  datatype TransformParams = TransformParams(transform: string, params: seq<Param>)

  function Transforms(entries: seq<TransformParams>): set<string> {
    set e | e in entries :: e.transform
  }

  predicate DistinctTransforms(entries: seq<TransformParams>) {
    forall i, j :: 0 <= i < j < |entries| ==> entries[i].transform != entries[j].transform
  }

  /** The segments in order, each non-empty one adding its transform (a repeated name
      throws before its tokens are read) and then its parameters. */
  function ReadSegments(reader: Reader, segments: seq<string>): (r: Result<seq<TransformParams>, ParamError>)
    ensures r.Ok? ==> EntriesOf(reader, segments, r.value)
    decreases |segments|
  {
    if |segments| == 0 then Ok([])
    else
      var n := |segments| - 1;
      var s := segments[n];
      var entries :- ReadSegments(reader, segments[..n]);
      if s == "" then
        EmptySegmentStep(reader, segments, entries);
        Ok(entries)
      else
        var name := TransformName(s);
        if name in Transforms(entries) then Err(DuplicateTransform(name))
        else
          var ps :- ReadParams(reader, name, Split(s, ','));
          SegmentStep(reader, segments, entries, ps);
          Ok(entries + [TransformParams(name, ps)])
  }

  /** What the entries read from some segments promise: one per transform name, every
      non-empty segment's name among them, each read from a segment with its name. */
  predicate EntriesOf(reader: Reader, segments: seq<string>, entries: seq<TransformParams>) {
    && DistinctTransforms(entries)
    && (forall s :: s in segments && s != "" ==> TransformName(s) in Transforms(entries))
    && forall e :: e in entries ==>
         exists s :: s in segments && s != "" && e.transform == TransformName(s)
                     && ReadParams(reader, e.transform, Split(s, ',')) == Ok(e.params)
  }

  /** An empty last segment adds nothing. */
  lemma EmptySegmentStep(reader: Reader, segments: seq<string>, entries: seq<TransformParams>)
    requires |segments| > 0 && segments[|segments| - 1] == ""
    requires EntriesOf(reader, segments[..|segments| - 1], entries)
    ensures EntriesOf(reader, segments, entries)
  {
    var n := |segments| - 1;
    assert segments == segments[..n] + [segments[n]];
  }

  /** A last segment with a new transform name adds its entry. */
  lemma SegmentStep(reader: Reader, segments: seq<string>, entries: seq<TransformParams>, ps: seq<Param>)
    requires |segments| > 0 && segments[|segments| - 1] != ""
    requires EntriesOf(reader, segments[..|segments| - 1], entries)
    requires TransformName(segments[|segments| - 1]) !in Transforms(entries)
    requires ReadParams(reader, TransformName(segments[|segments| - 1]), Split(segments[|segments| - 1], ',')) == Ok(ps)
    ensures EntriesOf(reader, segments, entries + [TransformParams(TransformName(segments[|segments| - 1]), ps)])
  {
    var n := |segments| - 1;
    var prefix, last := segments[..n], segments[n];
    var e := TransformParams(TransformName(last), ps);
    assert segments == prefix + [last];
    DistinctStep(entries, e);
    forall s | s in segments && s != "" ensures TransformName(s) in Transforms(entries + [e]) {
      if s != last { assert s in prefix; }
    }
    ReadsStep(reader, prefix, last, entries, e);
  }

  /** A new name keeps the names distinct. */
  lemma DistinctStep(entries: seq<TransformParams>, e: TransformParams)
    requires DistinctTransforms(entries) && e.transform !in Transforms(entries)
    ensures DistinctTransforms(entries + [e])
  {
    var r := entries + [e];
    forall i, j | 0 <= i < j < |r| ensures r[i].transform != r[j].transform {
      if j == |entries| { assert r[i] in entries; } else { assert r[i] == entries[i] && r[j] == entries[j]; }
    }
  }

  /** An entry read from a last segment joins the entries read from the segments before. */
  lemma ReadsStep(reader: Reader, prefix: seq<string>, last: string, entries: seq<TransformParams>, e: TransformParams)
    requires last != "" && e.transform == TransformName(last)
    requires ReadParams(reader, e.transform, Split(last, ',')) == Ok(e.params)
    requires forall x :: x in entries ==>
      exists s :: s in prefix && s != "" && x.transform == TransformName(s)
                  && ReadParams(reader, x.transform, Split(s, ',')) == Ok(x.params)
    ensures forall x :: x in entries + [e] ==>
      exists s :: s in prefix + [last] && s != "" && x.transform == TransformName(s)
                  && ReadParams(reader, x.transform, Split(s, ',')) == Ok(x.params)
  {
    forall x | x in entries + [e]
      ensures exists s :: s in prefix + [last] && s != "" && x.transform == TransformName(s)
                          && ReadParams(reader, x.transform, Split(s, ',')) == Ok(x.params)
    {
      if x in entries {
        var s :| s in prefix && s != "" && x.transform == TransformName(s)
                 && ReadParams(reader, x.transform, Split(s, ',')) == Ok(x.params);
        assert s in prefix + [last];
      } else {
        assert x == e && last in prefix + [last];
      }
    }
  }

    /** A transform named in two non-empty segments throws: the second `Add` of its name
      into the dictionary fails, whatever the tokens. */
  lemma {:induction false} RepeatedTransformFails(reader: Reader, segments: seq<string>, i: nat, j: nat)
    requires i < j < |segments| && segments[i] != "" && segments[j] != ""
    requires TransformName(segments[i]) == TransformName(segments[j])
    ensures ReadSegments(reader, segments).Err?
    decreases |segments|
  {
    var n := |segments| - 1;
    if j < n {
      var prefix := segments[..n];
      assert prefix[i] == segments[i] && prefix[j] == segments[j];
      RepeatedTransformFails(reader, prefix, i, j);
      PrefixErrorStays(reader, segments);
    } else {
      LastSegmentRepeats(reader, segments, i);
    }
  }

  /** A failure among the earlier segments is the failure of the whole. */
  lemma PrefixErrorStays(reader: Reader, segments: seq<string>)
    requires |segments| > 0 && ReadSegments(reader, segments[..|segments| - 1]).Err?
    ensures ReadSegments(reader, segments).Err?
  {
  }

  /** A last segment naming the transform of an earlier non-empty segment fails. */
  lemma LastSegmentRepeats(reader: Reader, segments: seq<string>, i: nat)
    requires i < |segments| - 1 && segments[i] != "" && segments[|segments| - 1] != ""
    requires TransformName(segments[i]) == TransformName(segments[|segments| - 1])
    ensures ReadSegments(reader, segments).Err?
  {
    var prefix := segments[..|segments| - 1];
    if ReadSegments(reader, prefix).Ok? {
      var entries := ReadSegments(reader, prefix).value;
      assert prefix[i] == segments[i];
      assert TransformName(segments[i]) in Transforms(entries);
    }
  }

  /** The same for the whole setting: a transform named in two non-empty segments makes
      reading MatParams throw. */
  lemma RepeatedTransformSettingFails(reader: Reader, text: string, i: nat, j: nat)
    requires i < j < |PartConfig.Segments(text)|
    requires PartConfig.Segments(text)[i] != "" && PartConfig.Segments(text)[j] != ""
    requires TransformName(PartConfig.Segments(text)[i]) == TransformName(PartConfig.Segments(text)[j])
    ensures ParseMatParams(reader, text).Err?
  {
    RepeatedTransformFails(reader, PartConfig.Segments(text), i, j);
  }

/** The whole setting: spaces removed, split on ';', empty segments skipped. */
  function ParseMatParams(reader: Reader, text: string): (r: Result<seq<TransformParams>, ParamError>)
    ensures r.Ok? ==> DistinctTransforms(r.value)
    ensures r.Ok? ==> forall e :: e in r.value ==>
              ' ' !in e.transform && ';' !in e.transform && ':' !in e.transform && ',' !in e.transform
  {
    var segments := PartConfig.Segments(text);
    var r := ReadSegments(reader, segments);
    if r.Ok? then
      TransformNamesAvoid(segments, r.value, reader);
      r
    else r
  }

  lemma TransformNamesAvoid(segments: seq<string>, entries: seq<TransformParams>, reader: Reader)
    requires forall i :: 0 <= i < |segments| ==> ' ' !in segments[i] && ';' !in segments[i]
    requires ReadSegments(reader, segments) == Ok(entries)
    ensures forall e :: e in entries ==> ' ' !in e.transform && ';' !in e.transform
  {
    forall e | e in entries
      ensures ' ' !in e.transform && ';' !in e.transform
    {
      var s :| s in segments && s != "" && e.transform == TransformName(s);
      var tokens := Split(s, ',');
      assert forall c :: c in tokens[0] ==> c in s;
      var fields := Split(tokens[0], ':');
      assert forall c :: c in fields[0] ==> c in tokens[0];
    }
  }

  /** An empty setting configures no transform. */
  lemma EmptySettingHasNoTransforms(reader: Reader)
    ensures ParseMatParams(reader, "") == Ok([])
  {
    assert RemoveAll("", " ") == "";
    assert PartConfig.Segments("") == [""];
  }

  // ---------------------------------------------------------------- writing the setting

  /** A parameter as `kind:value`. */
  function FormatParam(p: Param): string {
    ParamName(p.kind) + ":" + p.value
  }

  /** The ','-tokens of a transform's entry; the first one carries the transform name. */
  function ParamTokens(e: TransformParams): seq<string> {
    seq(|e.params|, j requires 0 <= j < |e.params| =>
      (if j == 0 then e.transform + ":" else "") + FormatParam(e.params[j]))
  }

  /** The setting text for a list of transforms. */
  function FormatMatParams(entries: seq<TransformParams>): string {
    Join(seq(|entries|, i requires 0 <= i < |entries| => Join(ParamTokens(entries[i]), ',')), ';')
  }

  /** Free of every character the setting's syntax uses. */
  predicate Plain(x: string) {
    ' ' !in x && ';' !in x && ',' !in x && ':' !in x
  }

  /** Entries that can be written as text: at least one transform, names distinct, every
      transform with at least one parameter and no kind twice, names and values plain. */
  predicate Writable(entries: seq<TransformParams>) {
    |entries| >= 1 && DistinctTransforms(entries)
    && forall e :: e in entries ==>
         |e.params| >= 1 && DistinctKinds(e.params) && Plain(e.transform)
         && forall p :: p in e.params ==> Plain(p.value)
  }

  /** Writing transforms out and reading the text back gives the same transforms, with
      either reader. */
  lemma WrittenSettingReadsBack(reader: Reader, entries: seq<TransformParams>)
    requires Writable(entries)
    ensures ParseMatParams(reader, FormatMatParams(entries)) == Ok(entries)
  {
    var segs := seq(|entries|, i requires 0 <= i < |entries| => Join(ParamTokens(entries[i]), ','));
    forall i | 0 <= i < |segs|
      ensures ' ' !in segs[i] && ';' !in segs[i]
      ensures SegmentReads(reader, segs[i], entries[i])
    {
      assert entries[i] in entries;
      SegmentReadsBack(reader, entries[i]);
    }
    PartConfig.SegmentsOfJoin(segs);
    SegmentsReadBack(reader, segs, entries);
  }

  /** One transform's entry, written as a segment, reads back. */
  lemma SegmentReadsBack(reader: Reader, e: TransformParams)
    requires |e.params| >= 1 && DistinctKinds(e.params) && Plain(e.transform)
    requires forall p :: p in e.params ==> Plain(p.value)
    ensures var seg := Join(ParamTokens(e), ',');
      && ' ' !in seg && ';' !in seg && seg != ""
      && TransformName(seg) == e.transform
      && ReadParams(reader, e.transform, Split(seg, ',')) == Ok(e.params)
  {
    var tokens := ParamTokens(e);
    forall j | 0 <= j < |tokens|
      ensures ' ' !in tokens[j] && ';' !in tokens[j] && ',' !in tokens[j]
      ensures CorrectedReading(tokens, j) == Read(e.params[j])
      ensures j == 0 ==> Split(tokens[j], ':')[0] == e.transform
    {
      assert e.params[j] in e.params;
      TokenReadsBack(e, j);
    }
    JoinAvoids(tokens, ',', ' ');
    JoinAvoids(tokens, ',', ';');
    SplitJoin(tokens, ',');
    TokensReadBack(reader, e.transform, tokens, e.params);
  }

  /** Each token of a written entry is plain apart from its ':'s, and reads its parameter
      at the corrected index. */
  lemma TokenReadsBack(e: TransformParams, j: nat)
    requires j < |e.params| && Plain(e.transform) && Plain(e.params[j].value)
    ensures var token := ParamTokens(e)[j];
      && ' ' !in token && ';' !in token && ',' !in token
      && CorrectedReading(ParamTokens(e), j) == Read(e.params[j])
      && (j == 0 ==> Split(token, ':')[0] == e.transform)
  {
    var p := e.params[j];
    var name := ParamName(p.kind);
    var token := ParamTokens(e)[j];
    assert Plain(name) by {
      match p.kind
      case Metallic =>
      case Smoothness =>
      case Ambient =>
    }
    ParamNamesRoundTrip(p.kind);
    if j == 0 {
      assert token == e.transform + [':'] + name + [':'] + p.value;
      SplitThree(e.transform, name, p.value, ':');
    } else {
      assert token == name + [':'] + p.value;
      SplitTwo(name, p.value, ':');
    }
  }

  /** Segments that each read back as the matching entry, with distinct names, read back
      as the entries. */
  lemma {:induction false} SegmentsReadBack(reader: Reader, segs: seq<string>, entries: seq<TransformParams>)
    requires |segs| == |entries| && DistinctTransforms(entries)
    requires forall i :: 0 <= i < |segs| ==> SegmentReads(reader, segs[i], entries[i])
    ensures ReadSegments(reader, segs) == Ok(entries)
    decreases |segs|
  {
    if |segs| > 0 {
      var n := |segs| - 1;
      var segsBefore, before := segs[..n], entries[..n];
      assert forall i :: 0 <= i < n ==> segsBefore[i] == segs[i];
      assert forall i :: 0 <= i < n ==> before[i] == entries[i];
      SegmentsReadBack(reader, segsBefore, before);
      NewTransformLast(entries);
      SegmentOneMore(reader, segs, entries);
    }
  }

  /** With distinct names, the last name is not among the earlier ones. */
  lemma NewTransformLast(entries: seq<TransformParams>)
    requires |entries| >= 1 && DistinctTransforms(entries)
    ensures entries[|entries| - 1].transform !in Transforms(entries[..|entries| - 1])
  {
  }

  /** `segment` is non-empty and reads as `e`. */
  predicate SegmentReads(reader: Reader, segment: string, e: TransformParams) {
    segment != "" && TransformName(segment) == e.transform
    && ReadParams(reader, e.transform, Split(segment, ',')) == Ok(e.params)
  }

  lemma SegmentOneMore(reader: Reader, segs: seq<string>, entries: seq<TransformParams>)
    requires |segs| == |entries| >= 1
    requires ReadSegments(reader, segs[..|segs| - 1]) == Ok(entries[..|entries| - 1])
    requires entries[|entries| - 1].transform !in Transforms(entries[..|entries| - 1])
    requires SegmentReads(reader, segs[|segs| - 1], entries[|entries| - 1])
    ensures ReadSegments(reader, segs) == Ok(entries)
  {
    var n := |segs| - 1;
    assert entries[..n] + [TransformParams(entries[n].transform, entries[n].params)] == entries;
  }
}
