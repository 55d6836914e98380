/**
 * The scene side of the construction-stage tool: objects whose custom-property
 * dictionaries and names the operators update in place, the face selection on a
 * mesh, the traversal of an object's descendants, the tagging of a detached mesh,
 * the bulk application of the panel's settings, the merge-target filter, the
 * group operators and the ColliderMeshGroups aggregation.
 *
 * The host's mesh kernel (split, separate, join), viewport queries and the
 * parenting matrices are not modelled: their outcomes are inputs.
 */
module ConstructionScene {
  import opened PyStr
  import opened ConstructionRules

  // ---------------------------------------------------------------------------
  // Data model
  // ---------------------------------------------------------------------------

  datatype ObjectType = Mesh | NotMesh(typeName: string)

  /** A custom-property value: the strings the tool writes, or the bool tagging flag. */
  datatype PropValue = Text(text: string) | Flag(flag: bool)

  type Props = map<string, PropValue>

  function Get(props: Props, key: string): Option<PropValue>
  {
    if key in props then Some(props[key]) else None
  }

  /** Python truthiness of a looked-up value (`None`, `""` and `False` are false). */
  predicate Truthy(v: Option<PropValue>)
  {
    match v
    case None => false
    case Some(Text(s)) => s != ""
    case Some(Flag(b)) => b
  }

  /** `str(value)`. */
  function StrOf(v: PropValue): string
  {
    match v
    case Text(s) => s
    case Flag(b) => if b then "True" else "False"
  }

  datatype Polygon = Polygon(materialIndex: nat, select: bool)

  /** `obj.data`: material slots by name and the polygons with their selection flags. */
  class MeshData {
    const materials: seq<string>
    const polygons: array<Polygon>

    constructor (materials: seq<string>, polys: seq<Polygon>)
      ensures this.materials == materials && fresh(polygons) && polygons[..] == polys
    {
      this.materials := materials;
      polygons := new Polygon[|polys|](i requires 0 <= i < |polys| => polys[i]);
    }
  }

  /** A scene object. Viewport state (`visible_get`, `hide_viewport`, `hide_get`) is a fixed input. */
  class BlendObject {
    var name: string
    var props: Props
    const objType: ObjectType
    const visible: bool
    const hideViewport: bool
    const hidden: bool
    const data: MeshData?

    constructor (name: string, objType: ObjectType, visible: bool, hideViewport: bool, hidden: bool,
                 props: Props, data: MeshData?)
      ensures this.name == name && this.props == props && this.objType == objType
      ensures this.visible == visible && this.hideViewport == hideViewport && this.hidden == hidden
      ensures this.data == data
    {
      this.name := name;
      this.props := props;
      this.objType := objType;
      this.visible := visible;
      this.hideViewport := hideViewport;
      this.hidden := hidden;
      this.data := data;
    }
  }

  /** `obj.children`, recursively: the parent-child tree below an object. */
  datatype Hierarchy = Node(obj: BlendObject, children: seq<Hierarchy>)

  const TypeKey := "ConstructionMeshType"
  const VisibilityKey := "ConstructionMeshVisibility"
  const PresetKey := "ConstructionMeshPreset"
  const OrderIdKey := "ConstructionMeshOrderId"
  const OrderDurationKey := "ConstructionMeshOrderDuration"
  const GroupKey := "Group"
  const LegacyGroupKey := "group"
  const ColliderKey := "ColliderMeshGroups"
  const TaggedFlag := "_already_tagged_hide_support"

  // ---------------------------------------------------------------------------
  // get_all_mesh_children
  // ---------------------------------------------------------------------------

  /** The mesh-typed objects strictly below `h`, depth first, each before its own descendants. */
  function MeshDescendants(h: Hierarchy): seq<BlendObject>
    decreases h, |h.children| + 1
  {
    ChildrenFrom(h, 0)
  }

  /** `MeshDescendants` restricted to the subtrees of children `i` onward. */
  function ChildrenFrom(h: Hierarchy, i: nat): seq<BlendObject>
    requires i <= |h.children|
    decreases h, |h.children| - i
  {
    if i == |h.children| then []
    else
      var c := h.children[i];
      (if c.obj.objType == Mesh then [c.obj] else []) + MeshDescendants(c) + ChildrenFrom(h, i + 1)
  }

  /** `d` sits somewhere below `h`. */
  ghost predicate Descendant(d: Hierarchy, h: Hierarchy)
  {
    exists i :: 0 <= i < |h.children| && (h.children[i] == d || Descendant(d, h.children[i]))
  }

  lemma {:induction false} InChildrenFrom(h: Hierarchy, i: nat, x: BlendObject)
    requires i <= |h.children|
    ensures x in ChildrenFrom(h, i) <==>
      exists j :: i <= j < |h.children| &&
        ((h.children[j].obj == x && x.objType == Mesh) || x in MeshDescendants(h.children[j]))
    decreases |h.children| - i
  {
    if i < |h.children| {
      InChildrenFrom(h, i + 1, x);
    }
  }

  /**
   * The traversal finds exactly the mesh-typed descendants, also those below a
   * child that is not a mesh.
   */
  lemma {:induction false} MeshDescendantsExact(h: Hierarchy, x: BlendObject)
    ensures x in MeshDescendants(h) <==> exists d :: Descendant(d, h) && d.obj == x && x.objType == Mesh
    decreases h
  {
    InChildrenFrom(h, 0, x);
    forall j | 0 <= j < |h.children| {
      MeshDescendantsExact(h.children[j], x);
    }
    if x in MeshDescendants(h) {
      var j :| 0 <= j < |h.children| &&
        ((h.children[j].obj == x && x.objType == Mesh) || x in MeshDescendants(h.children[j]));
      if h.children[j].obj == x && x.objType == Mesh {
        assert Descendant(h.children[j], h);
      } else {
        var d :| Descendant(d, h.children[j]) && d.obj == x && x.objType == Mesh;
        assert Descendant(d, h);
      }
    }
    if exists d :: Descendant(d, h) && d.obj == x && x.objType == Mesh {
      var d :| Descendant(d, h) && d.obj == x && x.objType == Mesh;
      var j :| 0 <= j < |h.children| && (h.children[j] == d || Descendant(d, h.children[j]));
      assert (h.children[j].obj == x && x.objType == Mesh) || x in MeshDescendants(h.children[j]);
    }
  }

  /** `get_all_mesh_children(obj)`. */
  method GetAllMeshChildren(root: Hierarchy) returns (children: seq<BlendObject>)
    ensures children == MeshDescendants(root)
  {
    children := AppendMeshDescendants(root, []);
  }

  /** The inner `recurse(current)`: appends the mesh descendants of `current` to the list. */
  method AppendMeshDescendants(current: Hierarchy, acc: seq<BlendObject>) returns (r: seq<BlendObject>)
    ensures r == acc + MeshDescendants(current)
    decreases current
  {
    r := acc;
    for i := 0 to |current.children|
      invariant r + ChildrenFrom(current, i) == acc + MeshDescendants(current)
    {
      var child := current.children[i];
      ghost var before := r;
      if child.obj.objType == Mesh {
        r := r + [child.obj];
      }
      r := AppendMeshDescendants(child, r);
      assert r + ChildrenFrom(current, i + 1) == before + ChildrenFrom(current, i);
    }
  }

  // ---------------------------------------------------------------------------
  // select_faces_by_material
  // ---------------------------------------------------------------------------

  /** A polygon belongs to the set when its slot exists and that slot's material is named in the set. */
  predicate PolygonMatches(materials: seq<string>, p: Polygon, names: set<string>)
  {
    p.materialIndex < |materials| && materials[p.materialIndex] in names
  }

  /** `select_faces_by_material(obj, names)` on `obj.data`. */
  method SelectFacesByMaterial(mesh: MeshData, names: set<string>)
    modifies mesh.polygons
    ensures forall i :: 0 <= i < mesh.polygons.Length ==>
      mesh.polygons[i] == old(mesh.polygons[i]).(select := PolygonMatches(mesh.materials, old(mesh.polygons[i]), names))
  {
    var polys := mesh.polygons;
    for i := 0 to polys.Length
      invariant forall k :: 0 <= k < i ==> polys[k] == old(polys[k]).(select := false)
      invariant forall k :: i <= k < polys.Length ==> polys[k] == old(polys[k])
    {
      polys[i] := polys[i].(select := false);
    }
    for i := 0 to polys.Length
      invariant forall k :: 0 <= k < i ==>
        polys[k] == old(polys[k]).(select := PolygonMatches(mesh.materials, old(polys[k]), names))
      invariant forall k :: i <= k < polys.Length ==> polys[k] == old(polys[k]).(select := false)
    {
      var matIndex := polys[i].materialIndex;
      if matIndex < |mesh.materials| {
        var matName := mesh.materials[matIndex];
        if matName in names {
          polys[i] := polys[i].(select := true);
        }
      }
    }
  }

  /** `any(p.select for p in obj.data.polygons)` after the selection above. */
  method AnySelected(mesh: MeshData) returns (any: bool)
    ensures any <==> exists i :: 0 <= i < mesh.polygons.Length && mesh.polygons[i].select
  {
    any := false;
    var i := 0;
    while i < mesh.polygons.Length && !any
      invariant 0 <= i <= mesh.polygons.Length
      invariant any <==> exists k :: 0 <= k < i && mesh.polygons[k].select
    {
      any := mesh.polygons[i].select;
      i := i + 1;
    }
  }

  // ---------------------------------------------------------------------------
  // detach_faces_with_suffix: naming and tagging
  // ---------------------------------------------------------------------------

  const HideOrSupport: set<string> := {"Hide", "Support"}

  /** The keys the tagging step may write on the detached object and on the source object. */
  const DetachedWrites: set<string> := {TypeKey, VisibilityKey, PresetKey, GroupKey, ColliderKey}
  const OriginalWrites: set<string> := {TypeKey, VisibilityKey, TaggedFlag, GroupKey}

  /** The detached object's properties after naming and preset assignment. */
  function TagDetached(props: Props, base: string, preset: Option<string>): Props
  {
    var p0 := props - {ColliderKey};
    if preset.None? || preset.value !in PresetMap then p0
    else DetachedWithEntry(p0, base, preset.value, PresetMap[preset.value])
  }

  /** The writes on the detached object for preset `pn` with table row `e`. */
  function DetachedWithEntry(props: Props, base: string, pn: string, e: PresetEntry): Props
  {
    var p1 := props[TypeKey := Text(e.meshType)][VisibilityKey := Text(e.visibility)];
    var p2 := if e.tick then p1[PresetKey := Text(e.preset)] else p1 - {PresetKey};
    var g := GroupName(base, pn);
    if GroupTagged(g) then p2[GroupKey := Text(g)] else p2
  }

  /** The source object's properties after the same step (Hide/Support type, or the group of the others). */
  function TagOriginal(props: Props, base: string, preset: Option<string>): Props
  {
    if preset.None? || preset.value !in PresetMap then props
    else OriginalWithEntry(props, base, preset.value, PresetMap[preset.value])
  }

  /** The writes on the source object for preset `pn` with table row `e`. */
  function OriginalWithEntry(props: Props, base: string, pn: string, e: PresetEntry): Props
  {
    var g := GroupName(base, pn);
    var p1 :=
      if pn in HideOrSupport && !Truthy(Get(props, TaggedFlag)) then
        props[TypeKey := Text(e.meshType)][VisibilityKey := Text(e.visibility)][TaggedFlag := Flag(true)]
      else props;
    if pn !in HideOrSupport && GroupTagged(g) then p1[GroupKey := Text(g)] else p1
  }

  function ClearFlag(props: Props): Props
  {
    props - {TaggedFlag}
  }

  /**
   * What the tagging step writes on the detached object: the table's type and
   * visibility, the preset only when its tick is set, never a ColliderMeshGroups,
   * and a Group exactly when the source name has the Fracture prefix.
   */
  lemma TagDetachedEffect(props: Props, name: string, suffix: string)
    ensures var r := TagDetached(props, BasePrefix(name), NormalisedPreset(suffix));
      && ColliderKey !in r
      && (NormalisedPreset(suffix).None? ==> r == props - {ColliderKey})
      && (NormalisedPreset(suffix).Some? ==>
            var pn := NormalisedPreset(suffix).value;
            var e := PresetMap[pn];
            && r[TypeKey] == Text(e.meshType) && r[VisibilityKey] == Text(e.visibility)
            && (PresetKey in r <==> e.tick)
            && (e.tick ==> r[PresetKey] == Text(e.preset))
            && (FracturePrefix(name).Some? ==>
                  r[GroupKey] == Text(GroupName(FracturePrefix(name).value, pn)))
            && (FracturePrefix(name).None? ==> Get(r, GroupKey) == Get(props, GroupKey)))
      && (forall k :: k !in DetachedWrites ==> Get(r, k) == Get(props, k))
  {
    var p0 := props - {ColliderKey};
    var preset := NormalisedPreset(suffix);
    if preset.Some? {
      DetachedEntryEffect(p0, name, preset.value, PresetMap[preset.value]);
    }
  }

  /** The same writes for any table row `e`. */
  lemma DetachedEntryEffect(props: Props, name: string, pn: string, e: PresetEntry)
    ensures var r := DetachedWithEntry(props, BasePrefix(name), pn, e);
      && (ColliderKey in r <==> ColliderKey in props)
      && r[TypeKey] == Text(e.meshType) && r[VisibilityKey] == Text(e.visibility)
      && (PresetKey in r <==> e.tick)
      && (e.tick ==> r[PresetKey] == Text(e.preset))
      && (FracturePrefix(name).Some? ==> r[GroupKey] == Text(GroupName(FracturePrefix(name).value, pn)))
      && (FracturePrefix(name).None? ==> Get(r, GroupKey) == Get(props, GroupKey))
      && (forall k :: k !in DetachedWrites ==> Get(r, k) == Get(props, k))
  {
    DetachGroupTaggedIffPrefixed(name, pn);
  }

  /**
   * What the tagging step writes on the source object: a Hide or Support preset
   * sets type, visibility and the tagged flag unless the flag is already set, and
   * writes no Group; any other preset writes a Group exactly when the name has
   * the Fracture prefix; no other key changes.
   */
  lemma TagOriginalEffect(props: Props, name: string, suffix: string)
    ensures var preset := NormalisedPreset(suffix);
      var r := TagOriginal(props, BasePrefix(name), preset);
      && (preset.None? ==> r == props)
      && (preset.Some? ==>
            var pn := preset.value;
            var e := PresetMap[pn];
            var marks := pn in HideOrSupport && !Truthy(Get(props, TaggedFlag));
            && (marks ==> r[TypeKey] == Text(e.meshType) && r[VisibilityKey] == Text(e.visibility)
                          && r[TaggedFlag] == Flag(true))
            && (!marks ==> Get(r, TypeKey) == Get(props, TypeKey)
                           && Get(r, VisibilityKey) == Get(props, VisibilityKey)
                           && Get(r, TaggedFlag) == Get(props, TaggedFlag))
            && (pn !in HideOrSupport && FracturePrefix(name).Some? ==>
                  r[GroupKey] == Text(GroupName(FracturePrefix(name).value, pn)))
            && (pn in HideOrSupport || FracturePrefix(name).None? ==> Get(r, GroupKey) == Get(props, GroupKey)))
      && (forall k :: k !in OriginalWrites ==> Get(r, k) == Get(props, k))
      && TagOriginal(r, BasePrefix(name), preset) == r
  {
    var preset := NormalisedPreset(suffix);
    if preset.Some? {
      var pn, e := preset.value, PresetMap[preset.value];
      OriginalEntryEffect(props, name, pn, e);
      OriginalEntryEffect(OriginalWithEntry(props, BasePrefix(name), pn, e), name, pn, e);
    }
  }

  /** The same writes for any table row `e`; a second application changes nothing. */
  lemma OriginalEntryEffect(props: Props, name: string, pn: string, e: PresetEntry)
    ensures var r := OriginalWithEntry(props, BasePrefix(name), pn, e);
      var marks := pn in HideOrSupport && !Truthy(Get(props, TaggedFlag));
      && (marks ==> r[TypeKey] == Text(e.meshType) && r[VisibilityKey] == Text(e.visibility)
                    && r[TaggedFlag] == Flag(true))
      && (!marks ==> Get(r, TypeKey) == Get(props, TypeKey)
                     && Get(r, VisibilityKey) == Get(props, VisibilityKey)
                     && Get(r, TaggedFlag) == Get(props, TaggedFlag))
      && (pn !in HideOrSupport && FracturePrefix(name).Some? ==>
            r[GroupKey] == Text(GroupName(FracturePrefix(name).value, pn)))
      && (pn in HideOrSupport || FracturePrefix(name).None? ==> Get(r, GroupKey) == Get(props, GroupKey))
      && (forall k :: k !in OriginalWrites ==> Get(r, k) == Get(props, k))
      && OriginalWithEntry(r, BasePrefix(name), pn, e) == r
  {
    DetachGroupTaggedIffPrefixed(name, pn);
  }

  /** `switch` and every unknown suffix write nothing but drop ColliderMeshGroups; the Hide variants agree. */
  lemma HideVariantsTagAlike(props: Props, name: string, suffix: string)
    requires suffix in HideSuffixes
    ensures TagDetached(props, BasePrefix(name), NormalisedPreset(suffix))
         == TagDetached(props, BasePrefix(name), NormalisedPreset("hide"))
    ensures TagDetached(props, BasePrefix(name), NormalisedPreset("switch")) == props - {ColliderKey}
  {
    NormalisedPresetTable(suffix);
    NormalisedPresetTable("hide");
    NormalisedPresetTable("switch");
  }

  /** The reset loop over the scene's objects: drops the tagging flag everywhere. */
  method ClearTaggedFlag(scene: seq<BlendObject>)
    modifies scene
    ensures forall o :: o in scene ==> o.props == ClearFlag(old(o.props)) && o.name == old(o.name)
  {
    for i := 0 to |scene|
      invariant forall o :: o in scene[..i] ==> o.props == ClearFlag(old(o.props))
      invariant forall o :: o in scene && o !in scene[..i] ==> o.props == old(o.props)
      invariant forall o :: o in scene ==> o.name == old(o.name)
    {
      var sceneObj := scene[i];
      if TaggedFlag in sceneObj.props {
        sceneObj.props := sceneObj.props - {TaggedFlag};
      }
      assert scene[..i + 1] == scene[..i] + [sceneObj];
    }
  }

  /** After the selection, some polygon is selected exactly when some polygon matched the material set. */
  lemma SelectionHits(materials: seq<string>, before: seq<Polygon>, after: seq<Polygon>, names: set<string>)
    requires |after| == |before|
    requires forall i :: 0 <= i < |after| ==>
      after[i] == before[i].(select := PolygonMatches(materials, before[i], names))
    ensures (exists i :: 0 <= i < |after| && after[i].select) <==>
            exists i :: 0 <= i < |before| && PolygonMatches(materials, before[i], names)
  {
    if exists i :: 0 <= i < |before| && PolygonMatches(materials, before[i], names) {
      var i :| 0 <= i < |before| && PolygonMatches(materials, before[i], names);
      assert after[i].select;
    }
  }

  /** `any` of the selection: whether the material set hits a polygon of the mesh. */
  ghost predicate HitsMaterial(mesh: MeshData, names: set<string>)
    reads mesh.polygons
  {
    exists i :: 0 <= i < mesh.polygons.Length && PolygonMatches(mesh.materials, mesh.polygons[i], names)
  }

  /**
   * `detach_faces_with_suffix(obj, names, suffix)`. The host's split and separate
   * are abstracted: `separated` is the object they produce (null when they fail).
   */
  method DetachFacesWithSuffix(obj: BlendObject, names: set<string>, suffix: string,
                               separated: BlendObject?, scene: seq<BlendObject>)
      returns (newObj: BlendObject?)
    requires obj.data != null
    requires separated != obj
    modifies obj, obj.data.polygons, separated, scene
    ensures forall i :: 0 <= i < obj.data.polygons.Length ==>
      obj.data.polygons[i] ==
        old(obj.data.polygons[i]).(select := PolygonMatches(obj.data.materials, old(obj.data.polygons[i]), names))
    ensures newObj == (if old(HitsMaterial(obj.data, names)) then separated else null)
    ensures obj.name == old(obj.name)
    ensures newObj != null ==> newObj.name == DetachedName(old(obj.name), suffix)
    ensures newObj == null ==> obj.props == old(obj.props) - {LegacyGroupKey}
    ensures newObj == null ==> forall o :: o in scene && o != obj ==> o.props == old(o.props) && o.name == old(o.name)
    ensures newObj == null && separated != null ==> separated.props == old(separated.props)
    ensures newObj != null ==>
      var base, preset := BasePrefix(old(obj.name)), NormalisedPreset(suffix);
      var reset := preset.Some?;
      var tagged := TagOriginal(old(obj.props) - {LegacyGroupKey}, base, preset);
      var detached := TagDetached(old(newObj.props), base, preset);
      && obj.props == (if reset && obj in scene then ClearFlag(tagged) else tagged)
      && newObj.props == (if reset && newObj in scene then ClearFlag(detached) else detached)
      && forall o :: o in scene && o != obj && o != newObj ==>
           o.props == (if reset then ClearFlag(old(o.props)) else old(o.props)) && o.name == old(o.name)
  {
    ghost var before := obj.data.polygons[..];
    ghost var hit := HitsMaterial(obj.data, names);
    assert hit <==> exists i :: 0 <= i < |before| && PolygonMatches(obj.data.materials, before[i], names);
    SelectFacesByMaterial(obj.data, names);
    SelectionHits(obj.data.materials, before, obj.data.polygons[..], names);
    DeleteProp(obj, LegacyGroupKey);
    ghost var stripped := obj.props;
    var any := AnySelected(obj.data);
    if !any {
      return null;
    }
    if separated == null {
      return null;
    }
    newObj := separated;
    NameAndTag(obj, newObj, suffix, scene);
    assert stripped == old(obj.props) - {LegacyGroupKey};
  }

  /** `if key in obj: del obj[key]`. */
  method DeleteProp(obj: BlendObject, key: string)
    modifies obj
    ensures obj.name == old(obj.name)
    ensures obj.props == old(obj.props) - {key}
  {
    if key in obj.props {
      obj.props := obj.props - {key};
    } else {
      assert obj.props == old(obj.props) - {key};
    }
  }

  /** The part of the step after a successful separate: the new name, both objects' tags and the flag reset. */
  method NameAndTag(obj: BlendObject, newObj: BlendObject, suffix: string, scene: seq<BlendObject>)
    requires newObj != obj
    modifies obj, newObj, scene
    ensures obj.name == old(obj.name)
    ensures newObj.name == DetachedName(old(obj.name), suffix)
    ensures
      var base, preset := BasePrefix(old(obj.name)), NormalisedPreset(suffix);
      var reset := preset.Some?;
      var tagged := TagOriginal(old(obj.props), base, preset);
      var detached := TagDetached(old(newObj.props), base, preset);
      && obj.props == (if reset && obj in scene then ClearFlag(tagged) else tagged)
      && newObj.props == (if reset && newObj in scene then ClearFlag(detached) else detached)
      && forall o :: o in scene && o != obj && o != newObj ==>
           o.props == (if reset then ClearFlag(old(o.props)) else old(o.props)) && o.name == old(o.name)
  {
    var basePrefix := BasePrefix(obj.name);
    newObj.name := basePrefix + "_" + SuffixLabel(suffix);
    var presetName := NormalisedPreset(suffix);
    TagNewObject(newObj, basePrefix, presetName);
    TagSourceObject(obj, basePrefix, presetName);
    if presetName.Some? && presetName.value in PresetMap {
      ClearTaggedFlag(scene);
    }
  }

  /** The detached object's side of the step: ColliderMeshGroups dropped, the preset's properties and group written. */
  method TagNewObject(newObj: BlendObject, basePrefix: string, presetName: Option<string>)
    modifies newObj
    ensures newObj.name == old(newObj.name)
    ensures newObj.props == TagDetached(old(newObj.props), basePrefix, presetName)
  {
    if ColliderKey in newObj.props {
      newObj.props := newObj.props - {ColliderKey};
    }
    assert newObj.props == old(newObj.props) - {ColliderKey};
    if presetName.Some? && presetName.value in PresetMap {
      WriteDetachedEntry(newObj, basePrefix, presetName.value, PresetMap[presetName.value]);
    }
  }

  method WriteDetachedEntry(newObj: BlendObject, basePrefix: string, pn: string, e: PresetEntry)
    modifies newObj
    ensures newObj.name == old(newObj.name)
    ensures newObj.props == DetachedWithEntry(old(newObj.props), basePrefix, pn, e)
  {
    newObj.props := newObj.props[TypeKey := Text(e.meshType)][VisibilityKey := Text(e.visibility)];
    ghost var p1 := newObj.props;
    if e.tick {
      newObj.props := newObj.props[PresetKey := Text(e.preset)];
    } else if PresetKey in newObj.props {
      newObj.props := newObj.props - {PresetKey};
    }
    assert newObj.props == if e.tick then p1[PresetKey := Text(e.preset)] else p1 - {PresetKey};
    var groupName := if pn in SuffixedGroups then basePrefix + "_" + pn else basePrefix;
    if FracturePrefix(groupName).Some? {
      newObj.props := newObj.props[GroupKey := Text(groupName)];
    }
  }

  /** The source object's side: Hide/Support type and the tagging flag, or the group of the other presets. */
  method TagSourceObject(obj: BlendObject, basePrefix: string, presetName: Option<string>)
    modifies obj
    ensures obj.name == old(obj.name)
    ensures obj.props == TagOriginal(old(obj.props), basePrefix, presetName)
  {
    if presetName.Some? && presetName.value in PresetMap {
      WriteSourceEntry(obj, basePrefix, presetName.value, PresetMap[presetName.value]);
    }
  }

  method WriteSourceEntry(obj: BlendObject, basePrefix: string, pn: string, e: PresetEntry)
    modifies obj
    ensures obj.name == old(obj.name)
    ensures obj.props == OriginalWithEntry(old(obj.props), basePrefix, pn, e)
  {
    var groupName := if pn in SuffixedGroups then basePrefix + "_" + pn else basePrefix;
    var alreadyTagged := Truthy(Get(obj.props, TaggedFlag));
    if pn in HideOrSupport && !alreadyTagged {
      obj.props := obj.props[TypeKey := Text(e.meshType)][VisibilityKey := Text(e.visibility)];
      obj.props := obj.props[TaggedFlag := Flag(true)];
    }
    if pn !in HideOrSupport && FracturePrefix(groupName).Some? {
      obj.props := obj.props[GroupKey := Text(groupName)];
    }
  }

  // ---------------------------------------------------------------------------
  // The panel's settings (ConstructionPropertySettings)
  // ---------------------------------------------------------------------------

  /** The five tick boxes and the values they control. */
  datatype Ticks = Ticks(
    applyType: bool, meshType: string,
    applyVisibility: bool, visibility: string,
    applyPreset: bool, preset: string,
    applyOrderId: bool, orderId: string,
    applyOrderDuration: bool, orderDuration: string)

  class ConstructionSettings {
    var selectedPreset: string
    var selectAll: bool
    var applyType: bool
    var applyVisibility: bool
    var applyPreset: bool
    var applyOrderId: bool
    var applyOrderDuration: bool
    var meshType: string
    var visibility: string
    var preset: string
    var orderId: string
    var orderDuration: string
    var mergeToExisting: bool
    var makeParentOnDetach: bool

    /** The property declarations' defaults. */
    constructor ()
      ensures selectedPreset == "Default" && meshType == "Default" && visibility == "AlwaysVisible"
      ensures preset == "" && orderId == "" && orderDuration == ""
      ensures !selectAll && !applyType && !applyVisibility && !applyPreset && !applyOrderId && !applyOrderDuration
      ensures !mergeToExisting && !makeParentOnDetach
    {
      selectedPreset, selectAll := "Default", false;
      applyType, applyVisibility, applyPreset, applyOrderId, applyOrderDuration := false, false, false, false, false;
      meshType, visibility, preset, orderId, orderDuration := "Default", "AlwaysVisible", "", "", "";
      mergeToExisting, makeParentOnDetach := false, false;
    }

    function TickState(): Ticks
      reads this
    {
      Ticks(applyType, meshType, applyVisibility, visibility, applyPreset, preset,
            applyOrderId, orderId, applyOrderDuration, orderDuration)
    }

    /** `update_selected_preset`: loads the chosen preset's row into the panel. */
    method UpdateSelectedPreset()
      modifies this
      ensures selectedPreset == old(selectedPreset) && selectAll == old(selectAll)
      ensures mergeToExisting == old(mergeToExisting) && makeParentOnDetach == old(makeParentOnDetach)
      ensures old(selectedPreset) !in PresetMap ==> TickState() == old(TickState())
      ensures old(selectedPreset) in PresetMap ==>
        var e := PresetMap[old(selectedPreset)];
        var grating := old(selectedPreset) == "GratingMetallic";
        TickState() == Ticks(true, e.meshType, true, e.visibility,
                             if grating then false else e.tick, if grating then "" else e.preset,
                             false, "", false, "")
    {
      var chosen := selectedPreset;
      if chosen in PresetMap {
        LoadEntry(PresetMap[chosen], chosen == "GratingMetallic");
      }
    }

    /** The writes for one table row; `grating` is the GratingMetallic override that clears the preset. */
    method LoadEntry(e: PresetEntry, grating: bool)
      modifies this
      ensures selectedPreset == old(selectedPreset) && selectAll == old(selectAll)
      ensures mergeToExisting == old(mergeToExisting) && makeParentOnDetach == old(makeParentOnDetach)
      ensures TickState() == Ticks(true, e.meshType, true, e.visibility,
                                   if grating then false else e.tick, if grating then "" else e.preset,
                                   false, "", false, "")
    {
      meshType, visibility := e.meshType, e.visibility;
      preset, applyPreset := if grating then "" else e.preset, if grating then false else e.tick;
      applyType, applyVisibility := true, true;
      ClearOrder();
    }

    /** Both order fields emptied and unticked. */
    method ClearOrder()
      modifies this
      ensures TickState() == old(TickState()).(applyOrderId := false, orderId := "",
                                              applyOrderDuration := false, orderDuration := "")
      ensures selectedPreset == old(selectedPreset) && selectAll == old(selectAll)
      ensures mergeToExisting == old(mergeToExisting) && makeParentOnDetach == old(makeParentOnDetach)
    {
      applyOrderId, applyOrderDuration := false, false;
      orderId, orderDuration := "", "";
    }

    /** `set_all(value)`, run when the "select all" box changes. */
    method SetAll(value: bool)
      modifies this
      ensures TickState() == old(TickState()).(applyType := value, applyVisibility := value,
        applyPreset := value, applyOrderId := value, applyOrderDuration := value)
      ensures selectedPreset == old(selectedPreset) && selectAll == old(selectAll)
      ensures mergeToExisting == old(mergeToExisting) && makeParentOnDetach == old(makeParentOnDetach)
    {
      applyType := value;
      applyVisibility := value;
      applyPreset := value;
      applyOrderId := value;
      applyOrderDuration := value;
    }
  }

  /** Every preset loads type and visibility ticked, order fields cleared; only Hide and GratingMetallic untick the preset. */
  lemma PresetLoadsTicks(name: string)
    requires name in PresetMap
    ensures var e := PresetMap[name];
      (name != "GratingMetallic" && e.tick) <==> name != "GratingMetallic" && name != "Hide"
  {
  }

  // ---------------------------------------------------------------------------
  // apply_properties_to_object and merge_into_existing
  // ---------------------------------------------------------------------------

  function SetOrRemove(props: Props, key: string, tick: bool, value: string): Props
  {
    if tick then props[key := Text(value)] else props - {key}
  }

  /** The five tick-controlled keys written or removed. */
  function ApplyTicks(props: Props, t: Ticks): Props
  {
    var p1 := SetOrRemove(props, TypeKey, t.applyType, t.meshType);
    var p2 := SetOrRemove(p1, VisibilityKey, t.applyVisibility, t.visibility);
    var p3 := SetOrRemove(p2, PresetKey, t.applyPreset, t.preset);
    var p4 := SetOrRemove(p3, OrderIdKey, t.applyOrderId, t.orderId);
    SetOrRemove(p4, OrderDurationKey, t.applyOrderDuration, t.orderDuration)
  }

  const TickKeys: set<string> := {TypeKey, VisibilityKey, PresetKey, OrderIdKey, OrderDurationKey}

  /** Each ticked key holds the panel's value, each unticked key is absent, every other key is untouched. */
  lemma ApplyTicksEffect(props: Props, t: Ticks)
    ensures var r := ApplyTicks(props, t);
      && (TypeKey in r <==> t.applyType) && (t.applyType ==> r[TypeKey] == Text(t.meshType))
      && (VisibilityKey in r <==> t.applyVisibility) && (t.applyVisibility ==> r[VisibilityKey] == Text(t.visibility))
      && (PresetKey in r <==> t.applyPreset) && (t.applyPreset ==> r[PresetKey] == Text(t.preset))
      && (OrderIdKey in r <==> t.applyOrderId) && (t.applyOrderId ==> r[OrderIdKey] == Text(t.orderId))
      && (OrderDurationKey in r <==> t.applyOrderDuration)
      && (t.applyOrderDuration ==> r[OrderDurationKey] == Text(t.orderDuration))
      && forall k :: k !in TickKeys ==> Get(r, k) == Get(props, k)
  {
  }

  /** `name` is where the rename loop for `target` stops, given the names already taken. */
  ghost predicate FirstFreeName(name: string, target: string, taken: set<string>)
  {
    name !in taken &&
    exists k: nat :: name == NameCandidate(target, k) && forall j :: 0 <= j < k ==> NameCandidate(target, j) in taken
  }

  /**
   * `apply_properties_to_object(obj, preset, props)`; `taken` holds the names of
   * `bpy.data.objects` at the time of the call.
   */
  method ApplyPropertiesToObject(obj: BlendObject, presetName: string, settings: ConstructionSettings,
                                 taken: set<string>)
    modifies obj
    ensures var ticked := ApplyTicks(old(obj.props), settings.TickState());
      match FracturePrefix(old(obj.name))
      case None => obj.props == ticked && obj.name == old(obj.name)
      case Some(base) =>
        var target := TargetName(base, presetName);
        var renamed := old(obj.name) != target;
        && (renamed ==> FirstFreeName(obj.name, target, taken))
        && (!renamed ==> obj.name == old(obj.name))
        && obj.props == (if renamed then ticked - {ColliderKey} else ticked)[GroupKey := Text(GroupName(base, presetName))]
  {
    ApplyTicksTo(obj, settings);
    var baseMatch := FracturePrefix(obj.name);
    if baseMatch.None? {
      return;
    }
    RenameAndGroup(obj, baseMatch.value, presetName, taken);
  }

  /** The Fracture-prefixed branch: rename to the target when it differs, then write the group. */
  method RenameAndGroup(obj: BlendObject, base: string, presetName: string, taken: set<string>)
    requires FracturePrefix(obj.name) == Some(base)
    modifies obj
    ensures var target := TargetName(base, presetName);
      var renamed := old(obj.name) != target;
      && (renamed ==> FirstFreeName(obj.name, target, taken))
      && (!renamed ==> obj.name == old(obj.name))
      && obj.props == (if renamed then old(obj.props) - {ColliderKey} else old(obj.props))[GroupKey := Text(GroupName(base, presetName))]
  {
    var targetName := TargetName(base, presetName);
    if obj.name != targetName {
      DeleteProp(obj, ColliderKey);
      var newName := UniqueName(targetName, taken);
      obj.name := newName;
    }
    var groupName := GroupName(base, presetName);
    ApplyGroupAlwaysTagged(old(obj.name), presetName);
    if GroupTagged(groupName) {
      obj.props := obj.props[GroupKey := Text(groupName)];
    }
  }

  /** The five tick-controlled writes and deletions at the start of `apply_properties_to_object`. */
  method ApplyTicksTo(obj: BlendObject, settings: ConstructionSettings)
    modifies obj
    ensures obj.name == old(obj.name)
    ensures obj.props == ApplyTicks(old(obj.props), settings.TickState())
  {
    obj.props := SetOrRemove(obj.props, TypeKey, settings.applyType, settings.meshType);
    obj.props := SetOrRemove(obj.props, VisibilityKey, settings.applyVisibility, settings.visibility);
    obj.props := SetOrRemove(obj.props, PresetKey, settings.applyPreset, settings.preset);
    obj.props := SetOrRemove(obj.props, OrderIdKey, settings.applyOrderId, settings.orderId);
    obj.props := SetOrRemove(obj.props, OrderDurationKey, settings.applyOrderDuration, settings.orderDuration);
  }

  /** A renamed object keeps the prefix it was renamed after, `.NNN` or not. */
  lemma RenameKeepsPrefix(name: string, presetName: string, k: nat)
    requires FracturePrefix(name).Some?
    ensures FracturePrefix(NameCandidate(TargetName(FracturePrefix(name).value, presetName), k)) == FracturePrefix(name)
  {
    var base := FracturePrefix(name).value;
    var target := TargetName(base, presetName);
    ApplyGroupAlwaysTagged(name, presetName);
    if k > 0 {
      var rest := if presetName == "Default" then "" else if presetName == "FractureCut" then "_Cut" else "_" + presetName;
      assert target == base + rest by {
        if presetName != "Default" && presetName != "FractureCut" {
          ConcatAssoc(base, "_", presetName);
        }
      }
      var number := Pad3(k);
      assert NameCandidate(target, k) == base + (rest + "." + number) by {
        ConcatAssoc(base, rest, ".");
        ConcatAssoc(base, rest + ".", number);
      }
      PrefixSurvivesTail(name, rest + "." + number);
    }
  }

  /** `is_valid_target(candidate)` inside `merge_into_existing`. */
  predicate IsValidTarget(c: BlendObject, obj: BlendObject, baseName: string)
    reads c, obj
  {
    && c != obj
    && StartsWith(c.name, baseName)
    && c.visible && !c.hideViewport && !c.hidden
    && Get(c.props, TypeKey) == Get(obj.props, TypeKey)
    && Get(c.props, VisibilityKey) == Get(obj.props, VisibilityKey)
    && (if PresetKey in c.props then c.props[PresetKey] else Text(""))
       == (if PresetKey in obj.props then obj.props[PresetKey] else Text(""))
  }

  /** `[o for o in bpy.data.objects if is_valid_target(o)]`. */
  function MergeCandidates(obj: BlendObject, baseName: string, all: seq<BlendObject>): (r: seq<BlendObject>)
    reads obj, all
    ensures forall i :: 0 <= i < |r| ==> r[i] in all && IsValidTarget(r[i], obj, baseName)
    ensures forall i :: 0 <= i < |all| && IsValidTarget(all[i], obj, baseName) ==> all[i] in r
  {
    if all == [] then []
    else
      var rest := MergeCandidates(obj, baseName, all[1..]);
      if IsValidTarget(all[0], obj, baseName) then [all[0]] + rest else rest
  }

  /** The first candidate is the first valid target in scene order. */
  lemma {:induction false} FirstCandidate(obj: BlendObject, baseName: string, all: seq<BlendObject>) returns (i: nat)
    requires MergeCandidates(obj, baseName, all) != []
    ensures i < |all| && all[i] == MergeCandidates(obj, baseName, all)[0]
    ensures IsValidTarget(all[i], obj, baseName)
    ensures forall j :: 0 <= j < i ==> !IsValidTarget(all[j], obj, baseName)
  {
    if IsValidTarget(all[0], obj, baseName) {
      i := 0;
    } else {
      var k := FirstCandidate(obj, baseName, all[1..]);
      i := k + 1;
      assert all[i] == all[1..][k];
      forall j | 0 <= j < i ensures !IsValidTarget(all[j], obj, baseName) {
        if j > 0 { assert all[j] == all[1..][j - 1]; }
      }
    }
  }

  /**
   * `merge_into_existing`: applies the settings, then picks the first valid
   * target in `all` (the join itself is the host's). Null when the object has no
   * prefix or no target qualifies.
   */
  method MergeIntoExisting(obj: BlendObject, presetName: string, settings: ConstructionSettings,
                           all: seq<BlendObject>, taken: set<string>)
      returns (target: BlendObject?)
    modifies obj
    ensures var ticked := ApplyTicks(old(obj.props), settings.TickState());
      match FracturePrefix(old(obj.name))
      case None => obj.props == ticked && obj.name == old(obj.name)
      case Some(base) =>
        var wanted := TargetName(base, presetName);
        var renamed := old(obj.name) != wanted;
        && (renamed ==> FirstFreeName(obj.name, wanted, taken))
        && (!renamed ==> obj.name == old(obj.name))
        && obj.props == (if renamed then ticked - {ColliderKey} else ticked)[GroupKey := Text(GroupName(base, presetName))]
    ensures FracturePrefix(old(obj.name)).None? ==> target == null
    ensures FracturePrefix(old(obj.name)).Some? ==>
      FracturePrefix(obj.name) == FracturePrefix(old(obj.name))
      && var candidates := MergeCandidates(obj, FracturePrefix(old(obj.name)).value, all);
         target == (if candidates == [] then null else candidates[0])
  {
    ApplyPropertiesToObject(obj, presetName, settings, taken);
    if FracturePrefix(old(obj.name)).Some? {
      var base := FracturePrefix(old(obj.name)).value;
      var target := TargetName(base, presetName);
      if old(obj.name) != target {
        var k: nat :| obj.name == NameCandidate(target, k);
        RenameKeepsPrefix(old(obj.name), presetName, k);
      }
    }
    var baseMatch := FracturePrefix(obj.name);
    if baseMatch.None? {
      return null;
    }
    var candidates := MergeCandidates(obj, baseMatch.value, all);
    if candidates == [] {
      return null;
    }
    target := candidates[0];
  }

  // ---------------------------------------------------------------------------
  // OBJECT_OT_SetFractureGroup{Default,Hide,Support,FrameCut}
  // ---------------------------------------------------------------------------

  /** What one group operator leaves in a mesh object's properties. */
  function GroupOperatorProps(props: Props, name: string, v: GroupVariant): Props
  {
    match VariantGroup(name, v)
    case None => props
    case Some(g) => (props - {LegacyGroupKey})[GroupKey := Text(g)]
  }

  /** A prefixed mesh ends with `Group` = prefix + the operator's suffix and no lower-case `group`. */
  lemma GroupOperatorEffect(props: Props, name: string, v: GroupVariant)
    ensures FracturePrefix(name).None? ==> GroupOperatorProps(props, name, v) == props
    ensures FracturePrefix(name).Some? ==>
      var r := GroupOperatorProps(props, name, v);
      && LegacyGroupKey !in r
      && r[GroupKey] == Text(FracturePrefix(name).value + VariantSuffix(v))
      && forall k :: k != GroupKey && k != LegacyGroupKey ==> Get(r, k) == Get(props, k)
  {
    if FracturePrefix(name).Some? {
      var g := FracturePrefix(name).value + VariantSuffix(v);
      assert VariantGroup(name, v) == Some(g);
      StoreGroupEffect(props, g);
    }
  }

  /** Writing `Group` after deleting `group` touches no other key. */
  lemma StoreGroupEffect(props: Props, g: string)
    ensures var r := (props - {LegacyGroupKey})[GroupKey := Text(g)];
      && LegacyGroupKey !in r && r[GroupKey] == Text(g)
      && forall k :: k != GroupKey && k != LegacyGroupKey ==> Get(r, k) == Get(props, k)
  {
    var r := (props - {LegacyGroupKey})[GroupKey := Text(g)];
    forall k | k != GroupKey && k != LegacyGroupKey ensures Get(r, k) == Get(props, k) {
      assert k in r <==> k in props;
    }
  }

  lemma GroupOperatorIdempotent(props: Props, name: string, v: GroupVariant)
    ensures GroupOperatorProps(GroupOperatorProps(props, name, v), name, v) == GroupOperatorProps(props, name, v)
  {
  }

  /** One of the four `OBJECT_OT_SetFractureGroup*` operators over the selected objects. */
  method SetFractureGroup(v: GroupVariant, selected: seq<BlendObject>)
    modifies selected
    ensures forall o :: o in selected ==> o.name == old(o.name)
    ensures forall o :: o in selected ==>
      o.props == if o.objType == Mesh then GroupOperatorProps(old(o.props), o.name, v) else old(o.props)
  {
    ghost var want := map o | o in selected ::
      if o.objType == Mesh then GroupOperatorProps(o.props, o.name, v) else o.props;
    for i := 0 to |selected|
      invariant forall o :: o in selected ==> o.name == old(o.name)
      invariant forall o :: o in selected[..i] ==> o.props == want[o]
      invariant forall o :: o in selected && o !in selected[..i] ==> o.props == old(o.props)
    {
      var obj := selected[i];
      if obj.objType == Mesh {
        if obj in selected[..i] {
          GroupOperatorIdempotent(old(obj.props), obj.name, v);
        }
        SetGroupOn(obj, v);
      }
      assert selected[..i + 1] == selected[..i] + [obj];
    }
    assert selected[..|selected|] == selected;
  }

  /** The body of the operators' loop for one mesh object. */
  method SetGroupOn(obj: BlendObject, v: GroupVariant)
    modifies obj
    ensures obj.name == old(obj.name)
    ensures obj.props == GroupOperatorProps(old(obj.props), obj.name, v)
  {
    var m := FracturePrefix(obj.name);
    if m.Some? {
      var groupName := m.value + VariantSuffix(v);
      DeleteProp(obj, LegacyGroupKey);
      obj.props := obj.props[GroupKey := Text(groupName)];
    }
  }

  // ---------------------------------------------------------------------------
  // OBJECT_OT_SetColliderMeshGroups
  // ---------------------------------------------------------------------------

  /** `obj.get("Group") or obj.get("group")`, then `str(...).strip()` when it is truthy. */
  function StrippedGroup(props: Props): Option<string>
  {
    StrippedOf(GroupEntries(props))
  }

  /** The two group keys' entries, `Group` first. */
  function GroupEntries(props: Props): (Option<PropValue>, Option<PropValue>)
  {
    (Get(props, GroupKey), Get(props, LegacyGroupKey))
  }

  function StrippedOf(entries: (Option<PropValue>, Option<PropValue>)): Option<string>
  {
    var g := if Truthy(entries.0) then entries.0 else entries.1;
    if Truthy(g) then Some(Strip(StrOf(g.value))) else None
  }

  /** Whether `other` contributes its group while `obj` is processed with root prefix `root`. */
  predicate Contributes(other: BlendObject, obj: BlendObject, root: string)
    reads other
  {
    other != obj && other.objType == Mesh && other.visible
    && StrippedGroup(other.props).Some? && StartsWith(StrippedGroup(other.props).value, root)
  }

  /** The group `other` adds to the set, if any. */
  function Contribution(other: BlendObject, obj: BlendObject, root: string): set<string>
    reads other
  {
    if Contributes(other, obj, root) then {StrippedGroup(other.props).value} else {}
  }

  /** The groups the other objects in `objs` contribute, in iteration order. */
  function MatchingGroups(obj: BlendObject, root: string, objs: seq<BlendObject>): set<string>
    reads objs
  {
    if objs == [] then {}
    else
      MatchingGroups(obj, root, objs[..|objs| - 1]) + Contribution(objs[|objs| - 1], obj, root)
  }

  /** The `collected` set: the object's own group and the matching groups of the other visible meshes. */
  function Collected(obj: BlendObject, base: string, root: string, all: seq<BlendObject>): (r: set<string>)
    reads all
    ensures base in r
  {
    {base} + MatchingGroups(obj, root, all)
  }

  /** Every group an object contributes is in the set. */
  lemma {:induction false} ContributionIncluded(obj: BlendObject, root: string, objs: seq<BlendObject>, i: nat, g: string)
    requires i < |objs| && g in Contribution(objs[i], obj, root)
    ensures g in MatchingGroups(obj, root, objs)
    decreases |objs|
  {
    var init, last := objs[..|objs| - 1], objs[|objs| - 1];
    MatchingStep(obj, root, objs);
    if i < |objs| - 1 {
      assert init[i] == objs[i];
      ContributionIncluded(obj, root, init, i, g);
    }
  }

  /** One step of the loop over the objects: the last object's contribution joins the set. */
  lemma MatchingStep(obj: BlendObject, root: string, objs: seq<BlendObject>)
    requires objs != []
    ensures MatchingGroups(obj, root, objs) ==
      MatchingGroups(obj, root, objs[..|objs| - 1]) + Contribution(objs[|objs| - 1], obj, root)
  {
  }

  /** A group no object contributes is not in the set. */
  lemma {:induction false} OnlyContributions(obj: BlendObject, root: string, objs: seq<BlendObject>, g: string)
    requires forall i :: 0 <= i < |objs| ==> g !in Contribution(objs[i], obj, root)
    ensures g !in MatchingGroups(obj, root, objs)
    decreases |objs|
  {
    if objs != [] {
      var init, last := objs[..|objs| - 1], objs[|objs| - 1];
      MatchingStep(obj, root, objs);
      forall i | 0 <= i < |init| ensures g !in Contribution(init[i], obj, root) {
        assert init[i] == objs[i];
      }
      OnlyContributions(obj, root, init, g);
    }
  }

  /**
   * The collected set is exactly the object's own group and the stripped groups
   * of the contributing objects, all of which start with the root prefix.
   */
  lemma CollectedShareRoot(obj: BlendObject, base: string, all: seq<BlendObject>, g: string)
    requires FracturePrefix(base).Some?
    ensures var root := FracturePrefix(base).value;
      g in Collected(obj, base, root, all) <==>
        g == base || exists i :: 0 <= i < |all| && g in Contribution(all[i], obj, root)
    ensures g in Collected(obj, base, FracturePrefix(base).value, all) ==> StartsWith(g, FracturePrefix(base).value)
  {
    var root := FracturePrefix(base).value;
    if !exists i :: 0 <= i < |all| && g in Contribution(all[i], obj, root) {
      OnlyContributions(obj, root, all, g);
    }
    if exists i :: 0 <= i < |all| && g in Contribution(all[i], obj, root) {
      var i :| 0 <= i < |all| && g in Contribution(all[i], obj, root);
      ContributionIncluded(obj, root, all, i, g);
    }
  }

  /** The prefix test is a plain `startswith`: with root `Fracture_1`, a `Fracture_10_Hide` group is collected. */
  lemma RootPrefixIsPlainStartsWith()
    ensures StartsWith("Fracture_10_Hide", "Fracture_1")
    ensures FracturePrefix("Fracture_10_Hide") == Some("Fracture_10")
  {
    var p := "Fracture_10";
    assert p[..9] == FractureHead && IsDigit(p[9]) && IsDigit(p[10]);
    assert FracturePrefix(p) == Some(p) by {
      assert StartsWith(p, FractureHead) && |p| > 9;
      var r := FracturePrefix(p).value;
      assert StartsWith(p, r) && |r| > 9;
      assert |r| == 11;
      assert r == p[..11] == p;
    }
    PrefixSurvivesTail(p, "_Hide");
    assert p + "_Hide" == "Fracture_10_Hide";
  }

  /** The inner loop over `bpy.data.objects`. */
  method CollectGroups(obj: BlendObject, base: string, root: string, all: seq<BlendObject>)
      returns (collected: set<string>)
    ensures collected == Collected(obj, base, root, all)
  {
    collected := {base};
    for i := 0 to |all|
      invariant collected == {base} + MatchingGroups(obj, root, all[..i])
    {
      var added := GroupOfOther(all[i], obj, root);
      MatchingPrefixStep(obj, root, all, i);
      ghost var before := MatchingGroups(obj, root, all[..i]);
      assert collected + added == {base} + (before + added);
      collected := collected + added;
    }
    assert all[..|all|] == all;
  }

  /** The loop's step over a prefix of the objects. */
  lemma MatchingPrefixStep(obj: BlendObject, root: string, all: seq<BlendObject>, i: nat)
    requires i < |all|
    ensures MatchingGroups(obj, root, all[..i + 1]) ==
      MatchingGroups(obj, root, all[..i]) + Contribution(all[i], obj, root)
  {
    var prefix := all[..i + 1];
    assert prefix[..i] == all[..i] && prefix[i] == all[i];
    MatchingStep(obj, root, prefix);
  }

  /** One pass of that loop: the group `other` adds, after the four `continue` tests. */
  method GroupOfOther(other: BlendObject, obj: BlendObject, root: string) returns (added: set<string>)
    ensures added == Contribution(other, obj, root)
  {
    added := {};
    if other == obj || other.objType != Mesh {
      return;
    }
    if !other.visible {
      return;
    }
    var g := if Truthy(Get(other.props, GroupKey)) then Get(other.props, GroupKey) else Get(other.props, LegacyGroupKey);
    assert StrippedGroup(other.props) == if Truthy(g) then Some(Strip(StrOf(g.value))) else None;
    if !Truthy(g) {
      return;
    }
    var otherGroup := Strip(StrOf(g.value));
    if StartsWith(otherGroup, root) {
      added := {otherGroup};
    }
  }

  /** The value written to `ColliderMeshGroups`: the sorted groups joined with `|`. */
  ghost function ColliderValue(obj: BlendObject, base: string, all: seq<BlendObject>): string
    reads all
    requires FracturePrefix(base).Some?
  {
    Join(SortedSet(Collected(obj, base, FracturePrefix(base).value, all)), "|")
  }

  /** Splitting the written value at `|` gives back the sorted, duplicate-free groups, own group included. */
  lemma ColliderValueSplits(obj: BlendObject, base: string, all: seq<BlendObject>)
    requires FracturePrefix(base).Some?
    requires forall g :: g in Collected(obj, base, FracturePrefix(base).value, all) ==> '|' !in g
    ensures var groups := SortedSet(Collected(obj, base, FracturePrefix(base).value, all));
      && Split(ColliderValue(obj, base, all), '|') == groups
      && StrictlySorted(groups) && base in groups
  {
    var groups := SortedSet(Collected(obj, base, FracturePrefix(base).value, all));
    assert base in Elems(groups);
    forall i | 0 <= i < |groups| ensures '|' !in groups[i] {
      assert groups[i] in Elems(groups);
    }
    SplitJoin(groups, '|');
  }

  /**
   * Whether the operator writes `ColliderMeshGroups` on `obj`, and from which
   * group: a visible mesh whose stripped group carries the Fracture prefix.
   */
  function ColliderBase(obj: BlendObject): Option<string>
    reads obj
  {
    if obj.objType != Mesh || !obj.visible then None
    else match StrippedGroup(obj.props)
      case None => None
      case Some(b) => if FracturePrefix(b).Some? then Some(b) else None
  }

  /** An object's properties once the operator has visited it. */
  ghost function ColliderProps(obj: BlendObject, all: seq<BlendObject>): Props
    reads obj, all
  {
    match ColliderBase(obj)
    case None => obj.props
    case Some(b) => obj.props[ColliderKey := Text(ColliderValue(obj, b, all))]
  }

  lemma StrippedGroupIgnoresCollider(props: Props, v: PropValue)
    ensures GroupEntries(props[ColliderKey := v]) == GroupEntries(props)
  {
    assert Get(props[ColliderKey := v], GroupKey) == Get(props, GroupKey);
    assert Get(props[ColliderKey := v], LegacyGroupKey) == Get(props, LegacyGroupKey);
  }

  /** Changing properties other than the two group keys leaves the contributed groups alone. */
  twostate lemma {:induction false} MatchingGroupsStable(new obj: BlendObject, new root: string, objs: seq<BlendObject>)
    requires old(allocated(obj))
    requires forall o :: o in objs ==> GroupEntries(o.props) == GroupEntries(old(o.props))
    ensures MatchingGroups(obj, root, objs) == old(MatchingGroups(obj, root, objs))
  {
    if objs != [] {
      MatchingGroupsStable(obj, root, objs[..|objs| - 1]);
      assert objs[|objs| - 1] in objs;
    }
  }

  /** `OBJECT_OT_SetColliderMeshGroups.execute`: `all` is `bpy.data.objects`. */
  method SetColliderMeshGroups(selected: seq<BlendObject>, all: seq<BlendObject>)
    requires forall a, b :: 0 <= a < b < |selected| ==> selected[a] != selected[b]
    modifies selected
    ensures forall o :: o in selected ==> o.name == old(o.name)
    ensures forall o :: o in selected ==> o.props == old(ColliderProps(o, all))
  {
    ghost var want := map o | o in selected :: ColliderProps(o, all);
    for i := 0 to |selected|
      invariant forall o :: o in selected ==> o.name == old(o.name)
      invariant forall o :: o in all ==> GroupEntries(o.props) == GroupEntries(old(o.props))
      invariant forall o :: o in selected ==> GroupEntries(o.props) == GroupEntries(old(o.props))
      invariant forall o :: o in selected[..i] ==> o.props == want[o]
      invariant forall o :: o in selected && o !in selected[..i] ==> o.props == old(o.props)
    {
      var obj := selected[i];
      assert selected[..i + 1] == selected[..i] + [obj];
      assert obj !in selected[..i];
      ColliderPropsStable(obj, all);
      SetColliderOn(obj, all);
    }
    forall o | o in selected ensures o.props == old(ColliderProps(o, all)) {
      assert o in selected[..|selected|];
    }
  }

  /**
   * Between visits only `ColliderMeshGroups` changes, so an object's expected
   * properties are the same whether computed before the loop or when it is reached.
   */
  twostate lemma ColliderPropsStable(new obj: BlendObject, new all: seq<BlendObject>)
    requires old(allocated(obj)) && old(allocated(all))
    requires obj.props == old(obj.props)
    requires forall o :: o in all ==> GroupEntries(o.props) == GroupEntries(old(o.props))
    ensures ColliderProps(obj, all) == old(ColliderProps(obj, all))
  {
    assert ColliderBase(obj) == old(ColliderBase(obj));
    if ColliderBase(obj).Some? {
      var b := ColliderBase(obj).value;
      MatchingGroupsStable(obj, FracturePrefix(b).value, all);
      assert ColliderValue(obj, b, all) == old(ColliderValue(obj, b, all));
    }
  }

  /** `"|".join(sorted(collected))`. */
  method JoinSorted(collected: set<string>) returns (value: string)
    ensures value == Join(SortedSet(collected), "|")
  {
    var uniqueSorted := SortSet(collected);
    value := Join(uniqueSorted, "|");
  }

  /** The body of the operator's loop for one selected object. */
  method SetColliderOn(obj: BlendObject, all: seq<BlendObject>)
    modifies obj
    ensures obj.name == old(obj.name)
    ensures GroupEntries(obj.props) == GroupEntries(old(obj.props))
    ensures obj.props == old(ColliderProps(obj, all))
  {
    ghost var target := ColliderProps(obj, all);
    var found := ColliderBase(obj);
    if found.None? {
      return;
    }
    var baseGroup := found.value;
    var rootPrefix := FracturePrefix(baseGroup).value;
    ghost var groups := Collected(obj, baseGroup, rootPrefix, all);
    ghost var expected := ColliderValue(obj, baseGroup, all);
    var collected := CollectGroups(obj, baseGroup, rootPrefix, all);
    assert collected == groups;
    var colliderVal := JoinSorted(collected);
    assert colliderVal == expected;
    ghost var before := obj.props;
    obj.props := obj.props[ColliderKey := Text(colliderVal)];
    StrippedGroupIgnoresCollider(before, Text(colliderVal));
    assert obj.props == target;
  }
}
