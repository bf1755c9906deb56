/** The part module's `key:value;key:value` settings (ShaderType and MatTexMapping), the
    shader names they select, and the texture-variant option list. */
module PartConfig {
  import opened Wrappers
  import opened Text

  datatype Pair = Pair(key: string, value: string)

  /** The segments of a setting: spaces removed, then split on ';'. */
  function Segments(text: string): (r: seq<string>)
    ensures |r| >= 1
    ensures forall i :: 0 <= i < |r| ==> ' ' !in r[i] && ';' !in r[i]
  {
    RemoveCharIsWithout(text, ' ');
    Split(RemoveAll(text, " "), ';')
  }

  /** The segments that split on ':' into exactly two parts, as pairs, in order; every
      other segment is dropped without complaint. */
  function KeptPairs(segments: seq<string>): (r: seq<Pair>)
    ensures |r| <= |segments|
    decreases |segments|
  {
    if |segments| == 0 then []
    else
      var n := |segments| - 1;
      var parts := Split(segments[n], ':');
      if |parts| == 2 then KeptPairs(segments[..n]) + [Pair(parts[0], parts[1])]
      else KeptPairs(segments[..n])
  }

  /** The kept pairs are exactly the segments with one ':'. */
  lemma {:induction false} KeptPairsAreTwoPartSegments(segments: seq<string>)
    ensures forall p :: p in KeptPairs(segments) <==>
              exists i :: 0 <= i < |segments| && Split(segments[i], ':') == [p.key, p.value]
    decreases |segments|
  {
    if |segments| > 0 {
      var n := |segments| - 1;
      KeptPairsAreTwoPartSegments(segments[..n]);
      assert forall i :: 0 <= i < n ==> segments[..n][i] == segments[i];
      var parts := Split(segments[n], ':');
      if |parts| == 2 {
        assert parts == [parts[0], parts[1]];
      }
    }
  }

  /** No two pairs share a key. */
  predicate DistinctKeys(pairs: seq<Pair>) {
    forall i, j :: 0 <= i < j < |pairs| ==> pairs[i].key != pairs[j].key
  }

  /** `Dictionary.Add` for each pair in order: the first repeated key throws. */
  function AddAll(pairs: seq<Pair>): (r: Result<map<string, string>, string>)
    ensures r.Ok? <==> DistinctKeys(pairs)
    ensures r.Ok? ==> r.value.Keys == (set p | p in pairs :: p.key)
    ensures r.Ok? ==> forall p :: p in pairs ==> r.value[p.key] == p.value
    ensures r.Err? ==> exists i, j :: 0 <= i < j < |pairs| && pairs[i].key == pairs[j].key == r.error
    decreases |pairs|
  {
    if |pairs| == 0 then Ok(map[])
    else
      var n := |pairs| - 1;
      var last := pairs[n];
      DistinctWithLast(pairs);
      match AddAll(pairs[..n])
      case Err(k) =>
        PrefixRepeatStays(pairs, pairs[..n], k);
        Err(k)
      case Ok(m) =>
        if last.key in m then
          LastRepeats(pairs, last.key);
          Err(last.key)
        else
          LastAdded(pairs, m);
          Ok(m[last.key := last.value])
  }

  /** Keys are distinct exactly when the prefix's are and the last key is new. */
  lemma DistinctWithLast(pairs: seq<Pair>)
    requires |pairs| > 0
    ensures DistinctKeys(pairs) <==>
              (DistinctKeys(pairs[..|pairs| - 1]) && forall p :: p in pairs[..|pairs| - 1] ==> p.key != pairs[|pairs| - 1].key)
  {
    var n := |pairs| - 1;
    assert forall i :: 0 <= i < n ==> pairs[..n][i] == pairs[i];
    if DistinctKeys(pairs[..n]) && forall p :: p in pairs[..n] ==> p.key != pairs[n].key {
      forall i, j | 0 <= i < j < |pairs| ensures pairs[i].key != pairs[j].key {
        if j == n { assert pairs[i] in pairs[..n]; }
      }
    }
  }

  /** A key repeated in the prefix is repeated in the whole sequence. */
  lemma PrefixRepeatStays(pairs: seq<Pair>, prefix: seq<Pair>, k: string)
    requires |pairs| > 0 && prefix == pairs[..|pairs| - 1]
    requires exists i, j :: 0 <= i < j < |prefix| && prefix[i].key == prefix[j].key == k
    ensures exists i, j :: 0 <= i < j < |pairs| && pairs[i].key == pairs[j].key == k
  {
    var i, j :| 0 <= i < j < |prefix| && prefix[i].key == prefix[j].key == k;
    assert pairs[i] == prefix[i] && pairs[j] == prefix[j];
  }

  /** A last key already among the prefix's keys is a repeat. */
  lemma LastRepeats(pairs: seq<Pair>, k: string)
    requires |pairs| > 0 && pairs[|pairs| - 1].key == k
    requires k in (set p | p in pairs[..|pairs| - 1] :: p.key)
    ensures exists i, j :: 0 <= i < j < |pairs| && pairs[i].key == pairs[j].key == k
  {
    var n := |pairs| - 1;
    var p :| p in pairs[..n] && p.key == k;
    var i :| 0 <= i < n && pairs[..n][i] == p;
    assert pairs[i] == p;
  }

  /** Adding a new last key to the prefix's dictionary gives the whole sequence's. */
  lemma LastAdded(pairs: seq<Pair>, m: map<string, string>)
    requires |pairs| > 0
    requires m.Keys == (set p | p in pairs[..|pairs| - 1] :: p.key)
    requires forall p :: p in pairs[..|pairs| - 1] ==> m[p.key] == p.value
    requires pairs[|pairs| - 1].key !in m
    ensures var last := pairs[|pairs| - 1];
      && m[last.key := last.value].Keys == (set p | p in pairs :: p.key)
      && forall p :: p in pairs ==> m[last.key := last.value][p.key] == p.value
  {
    var n := |pairs| - 1;
    assert pairs == pairs[..n] + [pairs[n]];
  }

  /** The ShaderType or MatTexMapping setting as a dictionary, or the key `Add` threw on. */
  function ParsePairs(text: string): (r: Result<map<string, string>, string>)
    ensures r.Ok? ==> forall k :: k in r.value ==> ' ' !in k && ';' !in k && ':' !in k
    ensures r.Ok? ==> forall k :: k in r.value ==> ' ' !in r.value[k] && ';' !in r.value[k] && ':' !in r.value[k]
  {
    var segments := Segments(text);
    var pairs := KeptPairs(segments);
    var r := AddAll(pairs);
    if r.Ok? then
      PairsHaveNoSeparators(segments, pairs);
      r
    else r
  }

  lemma PairsHaveNoSeparators(segments: seq<string>, pairs: seq<Pair>)
    requires forall i :: 0 <= i < |segments| ==> ' ' !in segments[i] && ';' !in segments[i]
    requires pairs == KeptPairs(segments)
    ensures forall p :: p in pairs ==> ' ' !in p.key + p.value && ';' !in p.key + p.value
    ensures forall p :: p in pairs ==> ':' !in p.key && ':' !in p.value
  {
    KeptPairsAreTwoPartSegments(segments);
    forall p | p in pairs
      ensures ' ' !in p.key + p.value && ';' !in p.key + p.value
      ensures ':' !in p.key && ':' !in p.value
    {
      var i :| 0 <= i < |segments| && Split(segments[i], ':') == [p.key, p.value];
      var parts := Split(segments[i], ':');
      assert parts[0] == p.key && parts[1] == p.value;
    }
  }

  /** An empty setting parses to an empty dictionary. */
  lemma EmptySettingHasNoPairs()
    ensures ParsePairs("") == Ok(map[])
  {
    assert RemoveAll("", " ") == "";
    assert Split("", ';') == [""];
    assert Split("", ':') == [""];
    assert KeptPairs([""]) == [];
  }

  /** A pair written back as text. */
  function Format(p: Pair): string {
    p.key + ":" + p.value
  }

  /** Text written as `key:value;key:value` from pairs with distinct keys, free of spaces
      and separators, parses back to exactly those pairs. */
  lemma {:induction false} FormatParsesBack(pairs: seq<Pair>)
    requires |pairs| >= 1 && DistinctKeys(pairs)
    requires forall p :: p in pairs ==> ' ' !in p.key + p.value && ';' !in p.key + p.value
    requires forall p :: p in pairs ==> ':' !in p.key && ':' !in p.value
    ensures var text := Join(seq(|pairs|, i requires 0 <= i < |pairs| => Format(pairs[i])), ';');
      && ParsePairs(text).Ok?
      && ParsePairs(text).value.Keys == (set p | p in pairs :: p.key)
      && forall p :: p in pairs ==> ParsePairs(text).value[p.key] == p.value
  {
    var segs := seq(|pairs|, i requires 0 <= i < |pairs| => Format(pairs[i]));
    var text := Join(segs, ';');
    forall i | 0 <= i < |segs|
      ensures ';' !in segs[i] && ' ' !in segs[i]
      ensures Split(segs[i], ':') == [pairs[i].key, pairs[i].value]
    {
      assert pairs[i] in pairs;
      SplitAfterPart(pairs[i].key, pairs[i].value, ':');
      SplitWithoutSeparator(pairs[i].value, ':');
    }
    SegmentsOfJoin(segs);
    KeptAllPairs(segs, pairs);
  }

  /** Segments free of spaces and ';', joined with ';', are the segments of the result. */
  lemma SegmentsOfJoin(segs: seq<string>)
    requires |segs| >= 1 && forall i :: 0 <= i < |segs| ==> ' ' !in segs[i] && ';' !in segs[i]
    ensures Segments(Join(segs, ';')) == segs
  {
    var text := Join(segs, ';');
    JoinAvoids(segs, ';', ' ');
    RemoveCharIsWithout(text, ' ');
    WithoutAbsent(text, ' ');
    SplitJoin(segs, ';');
  }

  lemma {:induction false} KeptAllPairs(segs: seq<string>, pairs: seq<Pair>)
    requires |segs| == |pairs|
    requires forall i :: 0 <= i < |segs| ==> Split(segs[i], ':') == [pairs[i].key, pairs[i].value]
    ensures KeptPairs(segs) == pairs
    decreases |segs|
  {
    if |segs| > 0 {
      var n := |segs| - 1;
      var prefix, last := segs[..n], segs[n];
      assert forall i :: 0 <= i < n ==> prefix[i] == segs[i];
      assert forall i :: 0 <= i < n ==> pairs[..n][i] == pairs[i];
      KeptAllPairs(prefix, pairs[..n]);
      assert KeptPairs(segs) == KeptPairs(prefix) + [Pair(pairs[n].key, pairs[n].value)];
      assert pairs == pairs[..n] + [pairs[n]];
    }
  }

  // ---------------------------------------------------------------- shaders

  datatype Shader = Lit | Cutout | Transparent | BlackBody

  /** The configuration name of each shader. */
  function ShaderName(s: Shader): string {
    match s
    case Lit => "lit"
    case Cutout => "cutout"
    case Transparent => "transparent"
    case BlackBody => "blackbody"
  }

  /** The shader a configuration name selects, if any. */
  function ShaderNamed(name: string): (r: Option<Shader>)
    ensures r.Some? ==> ShaderName(r.value) == name
    ensures r.None? ==> forall s: Shader :: ShaderName(s) != name
  {
    if name == "cutout" then Some(Cutout)
    else if name == "transparent" then Some(Transparent)
    else if name == "blackbody" then Some(BlackBody)
    else if name == "lit" then Some(Lit)
    else None
  }

  lemma ShaderNamesRoundTrip(s: Shader)
    ensures ShaderNamed(ShaderName(s)) == Some(s)
  {
  }

  /** The shader a renderer gets, and whether an error was logged for it. */
  datatype ShaderChoice = ShaderChoice(shader: Shader, loggedError: bool)

  /** A renderer whose object has no entry gets Lit; an entry naming no known shader gets
      Lit and an error. */
  function ShaderFor(pairs: map<string, string>, objectName: string): (r: ShaderChoice)
    ensures objectName !in pairs ==> r == ShaderChoice(Lit, false)
    ensures objectName in pairs ==> (r.loggedError <==> forall s: Shader :: ShaderName(s) != pairs[objectName])
    ensures r.loggedError ==> r.shader == Lit
    ensures objectName in pairs && !r.loggedError ==> ShaderName(r.shader) == pairs[objectName]
  {
    if objectName in pairs then
      match ShaderNamed(pairs[objectName])
      case Some(s) => ShaderChoice(s, false)
      case None => ShaderChoice(Lit, true)
    else
      ShaderChoice(Lit, false)
  }

  // ---------------------------------------------------------------- variants

  /** The variant options: spaces removed, leading and trailing ';' trimmed, split on ';'. */
  function VariantOptions(keys: string): (r: seq<string>)
    ensures |r| >= 1
    ensures forall i :: 0 <= i < |r| ==> ' ' !in r[i] && ';' !in r[i]
    ensures Join(r, ';') == Trim(Without(keys, ' '), ';')
    ensures Trim(Without(keys, ' '), ';') != "" ==> r[0] != "" && r[|r| - 1] != ""
  {
    RemoveCharIsWithout(keys, ' ');
    var r := Split(Trim(RemoveAll(keys, " "), ';'), ';');
    VariantOptionsFacts(keys, r);
    r
  }

  lemma VariantOptionsFacts(keys: string, r: seq<string>)
    requires r == Split(Trim(Without(keys, ' '), ';'), ';')
    ensures |r| >= 1
    ensures forall i :: 0 <= i < |r| ==> ' ' !in r[i] && ';' !in r[i]
    ensures Join(r, ';') == Trim(Without(keys, ' '), ';')
    ensures Trim(Without(keys, ' '), ';') != "" ==> r[0] != "" && r[|r| - 1] != ""
  {
    TrimKeepsOut(Without(keys, ' '), ';', ' ');
    if Trim(Without(keys, ' '), ';') != "" {
      JoinEnds(r, ';');
    }
  }

  /** Trimming adds no character. */
  lemma TrimKeepsOut(s: string, c: char, x: char)
    requires x !in s
    ensures x !in Trim(s, c)
  {
    var t := Trim(s, c);
    var lo :| TrimmedAt(s, t, c, lo);
    forall i | 0 <= i < |t|
      ensures t[i] != x
    {
      assert t[i] == s[lo + i];
    }
  }

  /** Where a join starts and ends: in its first and last part, unless that part is empty
      and the separator is there instead. */
  lemma {:induction false} JoinEnds(parts: seq<string>, sep: char)
    requires |parts| >= 1 && Join(parts, sep) != ""
    ensures parts[0] == "" ==> Join(parts, sep)[0] == sep
    ensures parts[|parts| - 1] == "" ==> Join(parts, sep)[|Join(parts, sep)| - 1] == sep
    decreases |parts|
  {
    if |parts| > 1 {
      var rest := Join(parts[1..], sep);
      if |parts| > 2 {
        JoinEnds(parts[1..], sep);
      }
    }
  }

  /** The current variant: empty when the persisted value is blank, otherwise the first
      option. */
  function CurrentVariant(current: string, keys: string): (r: string)
    ensures IsBlank(current) ==> r == ""
    ensures !IsBlank(current) ==> r == VariantOptions(keys)[0]
    ensures ' ' !in r && ';' !in r
  {
    if IsBlank(current) then "" else VariantOptions(keys)[0]
  }

  /** Variant names written between semicolons, with stray spaces and semicolons at the
      ends, come back as the option list, the first one current. */
  lemma VariantOptionsRoundTrip(names: seq<string>)
    requires |names| >= 1
    requires forall i :: 0 <= i < |names| ==> names[i] != "" && ' ' !in names[i] && ';' !in names[i]
    ensures VariantOptions(";" + Join(names, ';') + "; ") == names
  {
    var text := Join(names, ';');
    var keys := ";" + text + "; ";
    JoinAvoids(names, ';', ' ');
    JoinEnds(names, ';');
    FramedWithoutSpaces(text);
    RemoveCharIsWithout(keys, ' ');
    assert RemoveAll(keys, " ") == ";" + text + ";";
    TrimFramed(text);
    assert VariantOptions(keys) == Split(text, ';');
    SplitJoin(names, ';');
  }

  lemma FramedWithoutSpaces(text: string)
    requires ' ' !in text
    ensures Without(";" + text + "; ", ' ') == ";" + text + ";"
  {
    WithoutAppend(";" + text, "; ", ' ');
    WithoutAppend(";", text, ' ');
    WithoutAbsent(text, ' ');
    assert Without("; ", ' ') == ";";
  }

  lemma {:induction false} WithoutAppend(a: string, b: string, c: char)
    ensures Without(a + b, c) == Without(a, c) + Without(b, c)
    decreases |a|
  {
    if |a| == 0 {
      assert a + b == b;
    } else {
      assert (a + b)[0] == a[0];
      assert (a + b)[1..] == a[1..] + b;
      WithoutAppend(a[1..], b, c);
      var head := if a[0] == c then "" else [a[0]];
      assert Without(a + b, c) == head + Without(a[1..] + b, c);
      assert Without(a, c) == head + Without(a[1..], c);
      assert head + (Without(a[1..], c) + Without(b, c)) == (head + Without(a[1..], c)) + Without(b, c);
    }
  }

  /** Trimming ';' off `";" + text + ";"` leaves `text` when `text` neither starts nor
      ends with ';'. */
  lemma TrimFramed(text: string)
    requires text != "" && text[0] != ';' && text[|text| - 1] != ';'
    ensures Trim(";" + text + ";", ';') == text
  {
    var s := ";" + text + ";";
    var t := Trim(s, ';');
    var lo :| TrimmedAt(s, t, ';', lo);
    assert s[0] == ';' && s[1] == text[0] && s[|s| - 2] == text[|text| - 1] && s[|s| - 1] == ';';
    assert lo == 1;
    assert lo + |t| == |s| - 1;
    assert t == s[1..|s| - 1] == text;
  }
}
