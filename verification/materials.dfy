/** The part's renderers grouped by material, and the texture files `ChangeTexture` applies
    to each group: a file goes to a group when its name holds the group's search key and
    the current variant, into the first slot whose tag the name holds. */
module MaterialGroups {
  import opened Wrappers
  import opened Text

  /** The suffix the engine appends to the name of an instantiated material. */
  const InstanceSuffix := " (Instance)"

  /** The dictionary key of a material: its name with every `" (Instance)"` removed. */
  function MaterialKey(materialName: string): string {
    RemoveAll(materialName, InstanceSuffix)
  }

  /** An instance of a material lands in the same group as the material itself. */
  lemma InstanceSharesKey(materialName: string)
    ensures MaterialKey(materialName + InstanceSuffix) == MaterialKey(materialName)
  {
    assert HeadIsUnique(InstanceSuffix) by {
      forall j | 0 < j < |InstanceSuffix|
        ensures InstanceSuffix[j] != InstanceSuffix[0]
      {
      }
    }
    RemoveAllDropsSuffix(materialName, InstanceSuffix);
  }

  /** A name without the suffix is its own key. */
  lemma PlainNameIsKey(materialName: string)
    ensures MaterialKey(materialName) == materialName <==> !Contains(materialName, InstanceSuffix)
  {
    RemoveAllUnchanged(materialName, InstanceSuffix);
  }

  /** What a renderer contributes: the name of its game object and of its material. */
  datatype Renderer = Renderer(objectName: string, materialName: string)

  function KeyOf(r: Renderer): string {
    MaterialKey(r.materialName)
  }

  /** A renderer with its material key worked out, as the grouping loop sees it. */
  datatype Member = Member(key: string, renderer: Renderer)

  function Keyed(rs: seq<Renderer>): (ms: seq<Member>)
    ensures |ms| == |rs|
    ensures forall i :: 0 <= i < |rs| ==> ms[i] == Member(KeyOf(rs[i]), rs[i])
  {
    seq(|rs|, i requires 0 <= i < |rs| => Member(KeyOf(rs[i]), rs[i]))
  }

  /** The renderers among `ms` whose key is `key`, in order. */
  function WithKey(ms: seq<Member>, key: string): seq<Renderer>
    decreases |ms|
  {
    if |ms| == 0 then []
    else
      var n := |ms| - 1;
      WithKey(ms[..n], key) + (if ms[n].key == key then [ms[n].renderer] else [])
  }

  /** `WithKey` keeps exactly the renderers with the key. */
  lemma {:induction false} WithKeyMembers(ms: seq<Member>, key: string)
    ensures forall x :: x in WithKey(ms, key) <==> Member(key, x) in ms
    decreases |ms|
  {
    if |ms| > 0 {
      var n := |ms| - 1;
      WithKeyMembers(ms[..n], key);
      assert ms == ms[..n] + [ms[n]];
    }
  }

  /** No member has the key, so none is kept. */
  lemma {:induction false} WithKeyAbsent(ms: seq<Member>, key: string)
    requires forall m :: m in ms ==> m.key != key
    ensures WithKey(ms, key) == []
    decreases |ms|
  {
    if |ms| > 0 {
      var n := |ms| - 1;
      assert ms[n] in ms;
      WithKeyAbsent(ms[..n], key);
    }
  }

  /** One entry of the material dictionary. */
  datatype Group = Group(key: string, members: seq<Renderer>)

  function Keys(groups: seq<Group>): set<string> {
    set g | g in groups :: g.key
  }

  predicate DistinctKeys(groups: seq<Group>) {
    forall i, j :: 0 <= i < j < |groups| ==> groups[i].key != groups[j].key
  }

  /** `materialDict[key].Add(r)`, creating the list first when the key is new. */
  function AddMember(groups: seq<Group>, m: Member): seq<Group> {
    if m.key in Keys(groups) then
      seq(|groups|, i requires 0 <= i < |groups| =>
        if groups[i].key == m.key then Group(m.key, groups[i].members + [m.renderer]) else groups[i])
    else groups + [Group(m.key, [m.renderer])]
  }

  /** Group `i` holds exactly the renderers of `ms` with its key, and at least one. */
  predicate GroupHolds(ms: seq<Member>, groups: seq<Group>, i: int)
    requires 0 <= i < |groups|
  {
    groups[i].members != [] && groups[i].members == WithKey(ms, groups[i].key)
  }

  /** The grouping loop over renderers with their keys: one group per key, no key twice,
      every key present, each group holding exactly the renderers with its key in their
      original order. */
  function GroupMembers(ms: seq<Member>): (r: seq<Group>)
    ensures DistinctKeys(r)
    ensures forall m :: m in ms ==> m.key in Keys(r)
    ensures forall i :: 0 <= i < |r| ==> GroupHolds(ms, r, i)
    decreases |ms|
  {
    if |ms| == 0 then []
    else
      var n := |ms| - 1;
      var groups := GroupMembers(ms[..n]);
      AddMemberKeepsGroups(ms[..n], ms[n], groups);
      assert ms == ms[..n] + [ms[n]];
      AddMember(groups, ms[n])
  }

  /** The material dictionary built from the part's renderers. */
  function Groups(rs: seq<Renderer>): seq<Group> {
    GroupMembers(Keyed(rs))
  }

  /** The dictionary has one entry per distinct material key, none empty, and a renderer
      is listed under a key exactly when its material has that key. */
  lemma GroupsByMaterialKey(rs: seq<Renderer>)
    ensures DistinctKeys(Groups(rs))
    ensures forall x :: x in rs ==> KeyOf(x) in Keys(Groups(rs))
    ensures forall g, x :: g in Groups(rs) ==> (x in g.members <==> x in rs && KeyOf(x) == g.key)
    ensures forall g :: g in Groups(rs) ==> g.members != []
    ensures Groups(rs) == [] <==> rs == []
  {
    var ms := Keyed(rs);
    var groups := Groups(rs);
    forall x | x in rs
      ensures KeyOf(x) in Keys(groups)
    {
      var i :| 0 <= i < |rs| && rs[i] == x;
      assert ms[i] in ms;
    }
    forall g | g in groups
      ensures g.members != []
      ensures forall x :: x in g.members <==> x in rs && KeyOf(x) == g.key
    {
      var i :| 0 <= i < |groups| && groups[i] == g;
      assert GroupHolds(ms, groups, i);
      WithKeyMembers(ms, g.key);
      forall x
        ensures x in g.members <==> x in rs && KeyOf(x) == g.key
      {
        if Member(g.key, x) in ms {
          var j :| 0 <= j < |ms| && ms[j] == Member(g.key, x);
          assert rs[j] == x;
        }
        if x in rs && KeyOf(x) == g.key {
          var j :| 0 <= j < |rs| && rs[j] == x;
          assert ms[j] == Member(g.key, x);
        }
      }
    }
    if rs != [] {
      assert rs[0] in rs;
    }
  }

  /** The dictionary facts survive adding the next renderer. */
  lemma AddMemberKeepsGroups(prefix: seq<Member>, m: Member, groups: seq<Group>)
    requires DistinctKeys(groups)
    requires forall x :: x in prefix ==> x.key in Keys(groups)
    requires forall i :: 0 <= i < |groups| ==> GroupHolds(prefix, groups, i)
    ensures var result := AddMember(groups, m);
      && DistinctKeys(result)
      && (forall x :: x in prefix + [m] ==> x.key in Keys(result))
      && (forall i :: 0 <= i < |result| ==> GroupHolds(prefix + [m], result, i))
  {
    var ms := prefix + [m];
    var result := AddMember(groups, m);
    assert ms[..|ms| - 1] == prefix;
    if m.key in Keys(groups) {
      ExistingKey(groups, m);
      forall i | 0 <= i < |result|
        ensures GroupHolds(ms, result, i)
      {
        ExistingKeyMember(ms, groups, i);
      }
    } else {
      NewKey(groups, m);
      forall i | 0 <= i < |result|
        ensures GroupHolds(ms, result, i)
      {
        NewKeyMember(ms, groups, i);
      }
    }
  }

  /** Group `i` after adding a renderer whose key is already present. */
  lemma ExistingKeyMember(ms: seq<Member>, groups: seq<Group>, i: int)
    requires |ms| >= 1 && DistinctKeys(groups) && ms[|ms| - 1].key in Keys(groups)
    requires 0 <= i < |groups| && GroupHolds(ms[..|ms| - 1], groups, i)
    ensures i < |AddMember(groups, ms[|ms| - 1])| && GroupHolds(ms, AddMember(groups, ms[|ms| - 1]), i)
  {
    ExistingKey(groups, ms[|ms| - 1]);
  }

  /** Group `i` after adding a renderer whose key is new: the old groups are unchanged and
      the new last group holds just that renderer. */
  lemma NewKeyMember(ms: seq<Member>, groups: seq<Group>, i: int)
    requires |ms| >= 1 && ms[|ms| - 1].key !in Keys(groups)
    requires forall m :: m in ms[..|ms| - 1] ==> m.key in Keys(groups)
    requires 0 <= i <= |groups|
    requires i < |groups| ==> GroupHolds(ms[..|ms| - 1], groups, i)
    ensures i < |AddMember(groups, ms[|ms| - 1])| && GroupHolds(ms, AddMember(groups, ms[|ms| - 1]), i)
  {
    var n := |ms| - 1;
    var m := ms[n];
    if i < |groups| {
      assert groups[i] in groups;
    } else {
      WithKeyAbsent(ms[..n], m.key);
    }
  }

  /** Adding a renderer whose key is new appends one group. */
  lemma NewKey(groups: seq<Group>, m: Member)
    requires DistinctKeys(groups) && m.key !in Keys(groups)
    ensures AddMember(groups, m) == groups + [Group(m.key, [m.renderer])]
    ensures Keys(AddMember(groups, m)) == Keys(groups) + {m.key}
    ensures DistinctKeys(AddMember(groups, m))
  {
    var result := groups + [Group(m.key, [m.renderer])];
    forall i | 0 <= i < |groups|
      ensures groups[i].key != m.key
    {
      assert groups[i] in groups;
    }
  }

  /** Adding a renderer whose key is present extends that one group and keeps the keys. */
  lemma ExistingKey(groups: seq<Group>, m: Member)
    requires DistinctKeys(groups) && m.key in Keys(groups)
    ensures var result := AddMember(groups, m);
      && |result| == |groups|
      && (forall i :: 0 <= i < |groups| ==> result[i].key == groups[i].key)
      && (forall i :: 0 <= i < |groups| && groups[i].key == m.key ==> result[i].members == groups[i].members + [m.renderer])
      && (forall i :: 0 <= i < |groups| && groups[i].key != m.key ==> result[i] == groups[i])
      && Keys(result) == Keys(groups)
      && DistinctKeys(result)
  {
    var result := AddMember(groups, m);
    forall k | k in Keys(groups)
      ensures k in Keys(result)
    {
      var g :| g in groups && g.key == k;
      var i :| 0 <= i < |groups| && groups[i] == g;
      assert result[i].key == k;
    }
  }

  // ---------------------------------------------------------------- texture slots

  /** The texture slots `ChangeTexture` fills, in the order it tests them. */
  datatype Slot = BaseMap | MaskMap | NormalMap | EmissiveMap

  /** The text a file name must hold to go into a slot. */
  function SlotTag(s: Slot): string {
    match s
    case BaseMap => "BaseMap"
    case MaskMap => "MaskMap"
    case NormalMap => "Normal"
    case EmissiveMap => "Emissive"
  }

  /** The material property a slot's texture is written to. */
  function SlotProperty(s: Slot): string {
    match s
    case BaseMap => "_BaseMap"
    case MaskMap => "_MaskMap"
    case NormalMap => "_NormalMap"
    case EmissiveMap => "_EmissiveMap"
  }

  /** The position of a slot in the order the tags are tested. */
  function Rank(s: Slot): nat {
    match s
    case BaseMap => 0
    case MaskMap => 1
    case NormalMap => 2
    case EmissiveMap => 3
  }

  /** The slot a file goes into: the first whose tag its name holds, or none. */
  function SlotForName(fileName: string): (r: Option<Slot>)
    ensures r.Some? ==> Contains(fileName, SlotTag(r.value))
    ensures r.Some? ==> forall s :: Rank(s) < Rank(r.value) ==> !Contains(fileName, SlotTag(s))
    ensures r.None? <==> forall s :: !Contains(fileName, SlotTag(s))
  {
    if Contains(fileName, "BaseMap") then Some(BaseMap)
    else if Contains(fileName, "MaskMap") then Some(MaskMap)
    else if Contains(fileName, "Normal") then Some(NormalMap)
    else if Contains(fileName, "Emissive") then Some(EmissiveMap)
    else None
  }

  /** The text file names are searched for: the MatTexMapping entry for the material key
      when there is one, otherwise the key itself. */
  function SearchKey(mapping: map<string, string>, key: string): (r: string)
    ensures key in mapping ==> r == mapping[key]
    ensures key !in mapping ==> r == key
  {
    if key in mapping then mapping[key] else key
  }

  /** A file applies to a group when its name holds the search key and the variant. */
  predicate Applies(fileName: string, searchKey: string, variant: string) {
    Contains(fileName, searchKey) && Contains(fileName, variant)
  }

  /** The empty variant, used when none is chosen, is held by every name. */
  lemma EmptyVariantMatchesEveryFile(fileName: string, searchKey: string)
    ensures Applies(fileName, searchKey, "") <==> Contains(fileName, searchKey)
  {
    assert OccursAt(fileName, "", 0);
  }

  /** One `SetTexture` call: the texture loaded from `file` goes into `slot` of the
      renderer's material. */
  datatype Assignment = Assignment(renderer: Renderer, slot: Slot, file: string)

  /** The calls one file makes on one group: for every member, in order, when the file
      applies and has a slot; none otherwise. */
  function AssignFile(g: Group, searchKey: string, file: string, variant: string): (r: seq<Assignment>)
    ensures forall a :: a in r <==>
      a.renderer in g.members && a.file == file && Applies(file, searchKey, variant)
      && SlotForName(file) == Some(a.slot)
  {
    var slot := SlotForName(file);
    if Applies(file, searchKey, variant) && slot.Some? then
      var r := seq(|g.members|, i requires 0 <= i < |g.members| => Assignment(g.members[i], slot.value, file));
      assert forall i :: 0 <= i < |g.members| ==> r[i] == Assignment(g.members[i], slot.value, file);
      r
    else []
  }

  /** The calls of every file, in order, on one group. */
  function AssignGroup(g: Group, searchKey: string, files: seq<string>, variant: string): (r: seq<Assignment>)
    ensures forall a :: a in r <==> a.file in files && a in AssignFile(g, searchKey, a.file, variant)
    decreases |files|
  {
    if |files| == 0 then []
    else
      var n := |files| - 1;
      assert files == files[..n] + [files[n]];
      AssignGroup(g, searchKey, files[..n], variant) + AssignFile(g, searchKey, files[n], variant)
  }

  /** `ChangeTexture`: for each group in order, for each file in order, every member of the
      group receives the file in its slot. */
  function ChangeTexture(groups: seq<Group>, mapping: map<string, string>, files: seq<string>, variant: string): (r: seq<Assignment>)
    ensures forall a :: a in r <==> exists g :: g in groups && a in AssignGroup(g, SearchKey(mapping, g.key), files, variant)
    decreases |groups|
  {
    if |groups| == 0 then []
    else
      var n := |groups| - 1;
      assert groups == groups[..n] + [groups[n]];
      ChangeTexture(groups[..n], mapping, files, variant) + AssignGroup(groups[n], SearchKey(mapping, groups[n].key), files, variant)
  }

  /** A renderer receives a file exactly when the file is in the folder, its name holds the
      search key of the renderer's material and the variant, and it names a slot; the
      slot is the first whose tag the name holds. */
  lemma ChangeTextureAssigns(rs: seq<Renderer>, mapping: map<string, string>, files: seq<string>, variant: string, a: Assignment)
    ensures a in ChangeTexture(Groups(rs), mapping, files, variant) <==>
      a.renderer in rs && a.file in files
      && Applies(a.file, SearchKey(mapping, KeyOf(a.renderer)), variant)
      && SlotForName(a.file) == Some(a.slot)
  {
    GroupsByMaterialKey(rs);
    AssignsThroughGroups(rs, Groups(rs), mapping, files, variant, a);
  }

  /** The same, for any grouping that lists each renderer exactly under its key. */
  lemma AssignsThroughGroups(rs: seq<Renderer>, groups: seq<Group>, mapping: map<string, string>, files: seq<string>, variant: string, a: Assignment)
    requires forall x :: x in rs ==> KeyOf(x) in Keys(groups)
    requires forall g, x :: g in groups ==> (x in g.members <==> x in rs && KeyOf(x) == g.key)
    ensures a in ChangeTexture(groups, mapping, files, variant) <==>
      a.renderer in rs && a.file in files
      && Applies(a.file, SearchKey(mapping, KeyOf(a.renderer)), variant)
      && SlotForName(a.file) == Some(a.slot)
  {
    if a in ChangeTexture(groups, mapping, files, variant) {
      var g :| g in groups && a in AssignGroup(g, SearchKey(mapping, g.key), files, variant);
      assert a in AssignFile(g, SearchKey(mapping, g.key), a.file, variant);
    }
    if a.renderer in rs {
      var key := KeyOf(a.renderer);
      var g :| g in groups && g.key == key;
      assert a.renderer in g.members;
      if a.file in files && Applies(a.file, SearchKey(mapping, key), variant) && SlotForName(a.file) == Some(a.slot) {
        assert a in AssignFile(g, SearchKey(mapping, g.key), a.file, variant);
        assert a in AssignGroup(g, SearchKey(mapping, g.key), files, variant);
      }
    }
  }
}
