/** The masking menus: selection masks (object and component), display
    masks in a model panel, and the camera quick-switch menu. Every host
    command is modelled by the arguments it is called with. */
module MaskingMenus {
  import opened Base
  import opened QuickMenuUtils

  // ---------------------------------------------------------------------
  // Scene objects as the menus see them

  /** A node: its type and its inheritance list, root type first and its
      own type last (what `nodeType(inherited=True)` reports). */
  datatype DagNode = DagNode(nodeType: string, inherited: seq<string>)

  /** A selected object and its shapes (only transforms have shapes). */
  datatype SceneObject = SceneObject(node: DagNode, shapes: seq<DagNode>)

  // ---------------------------------------------------------------------
  // Selection masks

  /** SelectionMaskingMenu.allkeys */
  const ObjectMaskKeys: seq<string> := [
    "handle", "ikHandle", "joint", "nurbsCurve",
    "cos", "stroke", "nurbsSurface", "polymesh",
    "subdiv", "plane", "lattice", "cluster",
    "sculpt", "nonlinear", "particleShape", "emitter",
    "field", "spring", "rigidBody", "fluid",
    "hairSystem", "follicle", "rigidConstraint", "collisionModel",
    "light", "camera", "texture", "ikEndEffector",
    "locator", "dimension", "nCloth", "nRigid", "dynamicConstraint"
  ]

  /** ComponentSelectionMaskingMenu.allkeys */
  const ComponentMaskKeys: seq<string> := [
    "cv", "vertex", "subdivMeshPoint", "latticePoint",
    "particle", "editPoint", "curveParameterPoint",
    "surfaceParameterPoint", "puv", "polymeshEdge",
    "subdivMeshEdge", "isoparm", "surfaceEdge", "surfaceFace",
    "springComponent", "facet", "subdivMeshFace", "hull",
    "rotatePivot", "scalePivot", "jointPivot", "selectHandle",
    "localRotationAxis", "imagePlane", "surfaceUV"
  ]

  datatype SelectMode = ObjectMode | ComponentMode

  /** One `selectMode` + `selectType` pair of host calls. */
  datatype SelectTypeCall = SelectTypeCall(mode: SelectMode, flags: map<string, bool>)

  /** The keyword arguments `{k: value for k in keys}`, built as the source
      builds them, one key at a time. */
  method BuildKwargs(keys: seq<string>, value: bool) returns (kwargs: map<string, bool>)
    ensures kwargs.Keys == set k | k in keys
    ensures forall k :: k in kwargs ==> kwargs[k] == value
  {
    kwargs := map[];
    for i := 0 to |keys|
      invariant kwargs.Keys == set k | k in keys[..i]
      invariant forall k :: k in kwargs ==> kwargs[k] == value
    {
      assert keys[..i + 1] == keys[..i] + [keys[i]];
      kwargs := kwargs[keys[i] := value];
    }
    assert keys[..|keys|] == keys;
  }

  /** `setObjectSelectType`: object mode, exactly the given keys set to
      `enabled`. */
  method SetObjectSelectType(enabled: bool, keys: seq<string>) returns (call: SelectTypeCall)
    ensures call.mode == ObjectMode
    ensures call.flags.Keys == set k | k in keys
    ensures forall k :: k in call.flags ==> call.flags[k] == enabled
  {
    var kwargs := BuildKwargs(keys, enabled);
    call := SelectTypeCall(ObjectMode, kwargs);
  }

  /** `for k in others: if k not in kwargs: kwargs[k] = value` */
  method AddMissing(kwargs0: map<string, bool>, others: seq<string>, value: bool) returns (kwargs: map<string, bool>)
    ensures kwargs.Keys == kwargs0.Keys + (set k | k in others)
    ensures forall k :: k in kwargs0 ==> kwargs[k] == kwargs0[k]
    ensures forall k :: k in others && k !in kwargs0 ==> kwargs[k] == value
  {
    kwargs := kwargs0;
    for i := 0 to |others|
      invariant kwargs.Keys == kwargs0.Keys + (set k | k in others[..i])
      invariant forall k :: k in kwargs0 ==> kwargs[k] == kwargs0[k]
      invariant forall k :: k in others[..i] && k !in kwargs0 ==> kwargs[k] == value
    {
      var k := others[i];
      assert others[..i + 1] == others[..i] + [k];
      if k !in kwargs {
        kwargs := kwargs[k := value];
      }
    }
    assert others[..|others|] == others;
  }

  /** `setComponentSelectType`: component mode, the given keys set to
      `enabled` and every other component mask to the opposite. */
  method SetComponentSelectType(enabled: bool, keys: seq<string>) returns (call: SelectTypeCall)
    ensures call.mode == ComponentMode
    ensures call.flags.Keys == (set k | k in keys) + (set k | k in ComponentMaskKeys)
    ensures forall k :: k in keys ==> call.flags[k] == enabled
    ensures forall k :: k in ComponentMaskKeys && k !in keys ==> call.flags[k] == !enabled
  {
    var kwargs := BuildKwargs(keys, enabled);
    kwargs := AddMissing(kwargs, ComponentMaskKeys, !enabled);
    call := SelectTypeCall(ComponentMode, kwargs);
  }

  /** The shape types whose own name is the selection mask they turn on. */
  const SameNameMasks: seq<string> := ["nurbsSurface", "subdiv", "joint", "camera", "locator"]

  /** The selection mask a shape type turns on, if any: the five same-name
      masks, `polymesh` for a mesh, `light` for any other type whose name
      contains "light" in any case, and `curve` for a NURBS curve. */
  function MaskKeyForShape(shapeType: string): (r: Option<string>)
    ensures r.Some? ==> r.value in ObjectMaskKeys || r.value == "curve"
    ensures shapeType in SameNameMasks ==> r == Some(shapeType)
    ensures shapeType == "mesh" ==> r == Some("polymesh")
    ensures shapeType !in SameNameMasks && shapeType != "mesh" && Contains(Lower(shapeType), "light")
            ==> r == Some("light")
    ensures shapeType == "nurbsCurve" ==> r == Some("curve")
    ensures r.None? <==> shapeType !in SameNameMasks && shapeType != "mesh" && shapeType != "nurbsCurve"
                         && !Contains(Lower(shapeType), "light")
  {
    NurbsCurveIsNotLight();
    if shapeType in SameNameMasks then Some(shapeType)
    else if shapeType == "mesh" then Some("polymesh")
    else if Contains(Lower(shapeType), "light") then Some("light")
    else if shapeType == "nurbsCurve" then Some("curve")
    else None
  }

  /** "nurbsCurve" does not contain "light" in any case. */
  lemma NurbsCurveIsNotLight()
    ensures !Contains(Lower("nurbsCurve"), "light")
  {
    var low := Lower("nurbsCurve");
    assert low == "nurbscurve";
    NotContainsFirst(low, "light");
  }

  /** The mask an object contributes: that of a transform's first shape. */
  function SelectionMaskKey(obj: SceneObject): Option<string> {
    if obj.node.nodeType == "transform" && |obj.shapes| > 0 then MaskKeyForShape(obj.shapes[0].nodeType)
    else None
  }

  /** The set of masks a selection contributes. */
  function SelectionMaskKeys(sel: seq<SceneObject>): (r: set<string>)
    ensures forall k :: k in r <==> exists i :: 0 <= i < |sel| && SelectionMaskKey(sel[i]) == Some(k)
  {
    if sel == [] then {}
    else
      var front := sel[..|sel| - 1];
      var rest := SelectionMaskKeys(front);
      var last := sel[|sel| - 1];
      var r := rest + (if SelectionMaskKey(last).Some? then {SelectionMaskKey(last).value} else {});
      assert forall k :: (exists i :: 0 <= i < |sel| && SelectionMaskKey(sel[i]) == Some(k)) ==> k in r by {
        forall k, i | 0 <= i < |sel| && SelectionMaskKey(sel[i]) == Some(k) ensures k in r {
          if i < |sel| - 1 {
            assert front[i] == sel[i];
          }
        }
      }
      assert forall k :: k in rest ==> exists i :: 0 <= i < |sel| && SelectionMaskKey(sel[i]) == Some(k) by {
        forall k | k in rest ensures exists i :: 0 <= i < |sel| && SelectionMaskKey(sel[i]) == Some(k) {
          var i :| 0 <= i < |front| && SelectionMaskKey(front[i]) == Some(k);
          assert sel[i] == front[i];
        }
      }
      r
  }

  /** `setMaskingToSelection`: every object mask off, then the masks of the
      selection's shape types on; when nothing is recognised the second call
      is not made and every mask stays off. */
  method SetMaskingToSelection(sel: seq<SceneObject>) returns (calls: seq<SelectTypeCall>)
    ensures 1 <= |calls| <= 2
    ensures calls[0].mode == ObjectMode && calls[0].flags.Keys == set k | k in ObjectMaskKeys
    ensures forall k :: k in calls[0].flags ==> !calls[0].flags[k]
    ensures |calls| == 2 <==> SelectionMaskKeys(sel) != {}
    ensures |calls| == 2 ==> calls[1].mode == ObjectMode && calls[1].flags.Keys == SelectionMaskKeys(sel)
                             && forall k :: k in calls[1].flags ==> calls[1].flags[k]
  {
    var allOff := SetObjectSelectType(false, ObjectMaskKeys);
    var keys: seq<string> := [];
    for i := 0 to |sel|
      invariant (set k | k in keys) == SelectionMaskKeys(sel[..i])
    {
      assert sel[..i + 1][..i] == sel[..i];
      var obj := sel[i];
      if obj.node.nodeType == "transform" {
        var shapes := obj.shapes;
        if |shapes| > 0 {
          var selType := MaskKeyForShape(shapes[0].nodeType);
          if selType.Some? && selType.value !in keys {
            keys := keys + [selType.value];
          }
        }
      }
    }
    assert sel[..|sel|] == sel;
    assert (set k | k in keys) == SelectionMaskKeys(sel);
    if |keys| == 0 {
      assert keys == [] && (set k | k in keys) == {};
      return [allOff];
    }
    assert keys[0] in (set k | k in keys);
    assert keys[0] in SelectionMaskKeys(sel);
    var enable := SetObjectSelectType(true, keys);
    calls := [allOff, enable];
  }

  // ---------------------------------------------------------------------
  // Shape types

  /** The most derived type of an inheritance list that is an option. */
  function MostDerivedIn(inherited: seq<string>, options: set<string>): (r: Option<string>)
    ensures r.None? <==> forall t :: t in inherited ==> t !in options
    ensures r.Some? ==> r.value in inherited && r.value in options
  {
    if inherited == [] then None
    else
      var last := inherited[|inherited| - 1];
      var front := inherited[..|inherited| - 1];
      assert forall t :: t in inherited ==> t in front || t == last;
      if last in options then Some(last)
      else MostDerivedIn(front, options)
  }

  /** One type per shape: its most derived type that is an option. */
  function ShapeTypes(shapes: seq<DagNode>, options: set<string>): (r: seq<string>)
    ensures |r| <= |shapes|
    ensures forall t :: t in r ==> t in options
    ensures forall t :: t in r <==> exists s :: s in shapes && MostDerivedIn(s.inherited, options) == Some(t)
  {
    if shapes == [] then []
    else
      var front := shapes[..|shapes| - 1];
      var last := shapes[|shapes| - 1];
      var rest := ShapeTypes(front, options);
      assert forall s :: s in shapes <==> s in front || s == last;
      match MostDerivedIn(last.inherited, options)
      case None => rest
      case Some(t) => rest + [t]
  }

  /** What `getShapeTypes` is evidently meant to return: the object's own type
      when it is an option, else one type per shape of a transform, or for
      any other node the most derived option among its own types. */
  function ObjectShapeTypes(obj: SceneObject, options: set<string>): (r: seq<string>)
    ensures forall t :: t in r ==> t in options
    ensures obj.node.nodeType in options ==> r == [obj.node.nodeType]
    ensures obj.node.nodeType !in options && obj.node.nodeType == "transform" ==>
              forall t :: t in r <==> exists s :: s in obj.shapes && MostDerivedIn(s.inherited, options) == Some(t)
    ensures obj.node.nodeType !in options && obj.node.nodeType != "transform" ==>
              r == match MostDerivedIn(obj.node.inherited, options) case None => [] case Some(t) => [t]
  {
    if obj.node.nodeType in options then [obj.node.nodeType]
    else if obj.node.nodeType == "transform" then ShapeTypes(obj.shapes, options)
    else
      assert [obj.node][..0] == [];
      ShapeTypes([obj.node], options)
  }

  /** `getShapeTypes` as written: for a node that is neither a transform nor
      an option it puts the type NAME in the shape list and then asks that
      string for its inherited types, which raises AttributeError. */
  function ObjectShapeTypesAsWritten(obj: SceneObject, options: set<string>): (r: Result<seq<string>>)
    ensures r.Err? <==> obj.node.nodeType !in options && obj.node.nodeType != "transform"
    ensures r.Ok? ==> r.value == ObjectShapeTypes(obj, options)
  {
    if obj.node.nodeType in options then Ok([obj.node.nodeType])
    else if obj.node.nodeType == "transform" then Ok(ShapeTypes(obj.shapes, options))
    else Err(AttributeError)
  }

  /** A point light selected directly (not its transform) crashes the
      as-written lookup, while its inheritance reaches the "light" entry of
      the display table. */
  lemma PointLightShapeTypes()
    ensures ObjectShapeTypesAsWritten(PointLight(), NodeTypeDisplayFlag.Keys) == Err(AttributeError)
    ensures ObjectShapeTypes(PointLight(), NodeTypeDisplayFlag.Keys) == ["light"]
    ensures GetDisplayKeys(PointLight()) == ["lights"]
  {
    LightTypesInTable();
    PointLightMostDerived();
    assert [PointLight().node][..0] == [];
    assert ShapeTypes([PointLight().node], NodeTypeDisplayFlag.Keys) == ["light"];
  }

  lemma PointLightMostDerived()
    ensures MostDerivedIn(PointLight().node.inherited, NodeTypeDisplayFlag.Keys) == Some("light")
  {
    var inh := PointLight().node.inherited;
    LightTypesInTable();
    forall j | 4 < j < |inh| ensures inh[j] !in NodeTypeDisplayFlag.Keys {
    }
    MostDerivedAt(inh, NodeTypeDisplayFlag.Keys, 4);
  }

  /** The most derived option is the last entry that is an option. */
  lemma {:induction false} MostDerivedAt(inherited: seq<string>, options: set<string>, i: nat)
    requires i < |inherited| && inherited[i] in options
    requires forall j :: i < j < |inherited| ==> inherited[j] !in options
    ensures MostDerivedIn(inherited, options) == Some(inherited[i])
    decreases |inherited|
  {
    if i < |inherited| - 1 {
      var front := inherited[..|inherited| - 1];
      assert front[i] == inherited[i];
      MostDerivedAt(front, options, i);
    }
  }

  /** Of a point light's types only "light" is in the display table. */
  lemma LightTypesInTable()
    ensures "light" in NodeTypeDisplayFlag && NodeTypeDisplayFlag["light"] == "lights"
    ensures "pointLight" !in NodeTypeDisplayFlag && "renderLight" !in NodeTypeDisplayFlag
    ensures "nonAmbientLightShapeNode" !in NodeTypeDisplayFlag && "nonExtendedLightShapeNode" !in NodeTypeDisplayFlag
  {
    PointLightNotInTable();
    RenderLightNotInTable();
    NonAmbientNotInTable();
    NonExtendedNotInTable();
  }

  lemma PointLightNotInTable() ensures "pointLight" !in NodeTypeDisplayFlag { }
  lemma RenderLightNotInTable() ensures "renderLight" !in NodeTypeDisplayFlag { }
  lemma NonAmbientNotInTable() ensures "nonAmbientLightShapeNode" !in NodeTypeDisplayFlag { }
  lemma NonExtendedNotInTable() ensures "nonExtendedLightShapeNode" !in NodeTypeDisplayFlag { }

  /** A point light shape node, with the inheritance the host reports for it. */
  function PointLight(): SceneObject {
    SceneObject(DagNode("pointLight", ["containerBase", "entity", "dagNode", "shape", "light",
                                       "renderLight", "nonAmbientLightShapeNode",
                                       "nonExtendedLightShapeNode", "pointLight"]), [])
  }

  /** `getShapeTypes`, with the evident intent for non-transform nodes: the
      node itself is analysed as its only shape. */
  method GetShapeTypes(obj: SceneObject, options: set<string>) returns (types: seq<string>)
    ensures types == ObjectShapeTypes(obj, options)
  {
    var objtype := obj.node.nodeType;
    if objtype in options {
      return [objtype];
    }
    var shapes := if objtype == "transform" then obj.shapes else [obj.node];
    types := [];
    for i := 0 to |shapes|
      invariant types == ShapeTypes(shapes[..i], options)
    {
      ShapeTypesStep(shapes, options, i);
      var t := MostDerivedType(shapes[i].inherited, options);
      if t.Some? {
        types := types + [t.value];
      }
    }
    assert shapes[..|shapes|] == shapes;
  }

  /** The inner loop of `getShapeTypes`: walk a shape's inherited types from
      the most derived one and stop at the first that is an option. */
  method MostDerivedType(inherited: seq<string>, options: set<string>) returns (t: Option<string>)
    ensures t == MostDerivedIn(inherited, options)
  {
    var j := |inherited|;
    assert inherited[..j] == inherited;
    while j > 0
      invariant 0 <= j <= |inherited|
      invariant MostDerivedIn(inherited, options) == MostDerivedIn(inherited[..j], options)
    {
      MostDerivedStep(inherited, options, j);
      if inherited[j - 1] in options {
        return Some(inherited[j - 1]);
      }
      j := j - 1;
    }
    assert inherited[..j] == [];
    return None;
  }

  lemma MostDerivedStep(inherited: seq<string>, options: set<string>, j: nat)
    requires 0 < j <= |inherited|
    ensures MostDerivedIn(inherited[..j], options)
            == if inherited[j - 1] in options then Some(inherited[j - 1]) else MostDerivedIn(inherited[..j - 1], options)
  {
    assert inherited[..j][..j - 1] == inherited[..j - 1];
  }

  lemma ShapeTypesStep(shapes: seq<DagNode>, options: set<string>, i: nat)
    requires i < |shapes|
    ensures ShapeTypes(shapes[..i + 1], options)
            == ShapeTypes(shapes[..i], options)
               + match MostDerivedIn(shapes[i].inherited, options) case None => [] case Some(t) => [t]
  {
    assert shapes[..i + 1][..i] == shapes[..i];
  }

  // ---------------------------------------------------------------------
  // Display masks

  /** The node type -> display flag table of `getDisplayKeys`. */
  const NodeTypeDisplayFlag: map<string, string> := map[
    "nurbsCurve" := "nurbsCurves",
    "nurbsSurface" := "nurbsSurfaces",
    "mesh" := "polymeshes",
    "subdiv" := "subdivSurfaces",
    "plane" := "planes",
    "light" := "lights",
    "camera" := "cameras",
    "controlVertices" := "controlVertices",
    "grid" := "grid",
    "hulls" := "hulls",
    "joint" := "joints",
    "ikHandle" := "ikHandles",
    "lattice" := "deformers",
    "clusterHandle" := "deformers",
    "softModHandle" := "deformers",
    "deformFunc" := "deformers",
    "implicitSphere" := "deformers",
    "particle" := "dynamics",
    "pointEmitter" := "dynamics",
    "rigidBody" := "dynamics",
    "field" := "dynamics",
    "rigidConstraint" := "dynamics",
    "fluidShape" := "fluids",
    "hairSystem" := "hairSystems",
    "follicle" := "follicles",
    "nCloth" := "nCloths",
    "nParticle" := "nParticles",
    "nRigid" := "nRigids",
    "dynamicConstraint" := "dynamicConstraints",
    "locator" := "locators",
    "manipulators" := "manipulators",
    "dimensionShape" := "dimensions",
    "handle" := "handles",
    "pivot" := "pivots",
    "place3dTexture" := "textures",
    "place2dTexture" := "textures",
    "pfxGeometry" := "strokes"
  ]

  /** `getDisplayKeys`: one display flag per shape type of the object; a
      flag is returned exactly when the table gives it for one of those
      types, so every key it returns is a flag of the table. */
  function GetDisplayKeys(obj: SceneObject): (r: seq<string>)
    ensures var types := ObjectShapeTypes(obj, NodeTypeDisplayFlag.Keys);
      && |r| == |types|
      && forall k :: k in r <==> exists t :: t in types && t in NodeTypeDisplayFlag && NodeTypeDisplayFlag[t] == k
    ensures forall k :: k in r ==> k in NodeTypeDisplayFlag.Values
  {
    var types := ObjectShapeTypes(obj, NodeTypeDisplayFlag.Keys);
    var r := seq(|types|, i requires 0 <= i < |types| => NodeTypeDisplayFlag[types[i]]);
    forall k | k in r
      ensures k in NodeTypeDisplayFlag.Values
      ensures exists t :: t in types && t in NodeTypeDisplayFlag && NodeTypeDisplayFlag[t] == k
    {
      var i :| 0 <= i < |r| && r[i] == k;
      assert types[i] in types;
    }
    forall k | exists t :: t in types && t in NodeTypeDisplayFlag && NodeTypeDisplayFlag[t] == k
      ensures k in r
    {
      var t :| t in types && t in NodeTypeDisplayFlag && NodeTypeDisplayFlag[t] == k;
      var i :| 0 <= i < |types| && types[i] == t;
      assert r[i] == k;
    }
    r
  }

  /** The display flags of each selected object, in selection order. */
  function DisplayKeysOf(sel: seq<SceneObject>): (r: seq<seq<string>>)
    ensures |r| == |sel| && forall i :: 0 <= i < |sel| ==> r[i] == GetDisplayKeys(sel[i])
  {
    seq(|sel|, i requires 0 <= i < |sel| => GetDisplayKeys(sel[i]))
  }

  /** The display flags of a whole selection: a flag is in the union exactly
      when some selected object has it. */
  function DisplayKeyUnion(sel: seq<SceneObject>): (r: set<string>)
    ensures forall k :: k in r <==> exists i :: 0 <= i < |sel| && k in GetDisplayKeys(sel[i])
    ensures forall k :: k in r ==> k in NodeTypeDisplayFlag.Values
  {
    var parts := DisplayKeysOf(sel);
    var r := UnionOf(parts);
    assert forall k :: k in r ==> k in NodeTypeDisplayFlag.Values by {
      forall k | k in r ensures k in NodeTypeDisplayFlag.Values {
        var i :| 0 <= i < |parts| && k in parts[i];
        assert k in GetDisplayKeys(sel[i]);
      }
    }
    r
  }

  lemma DisplayKeyUnionStep(sel: seq<SceneObject>, i: nat)
    requires i < |sel|
    ensures DisplayKeyUnion(sel[..i + 1]) == DisplayKeyUnion(sel[..i]) + set k | k in GetDisplayKeys(sel[i])
  {
    var parts := DisplayKeysOf(sel[..i + 1]);
    assert parts[..i] == DisplayKeysOf(sel[..i]);
    assert parts[i] == GetDisplayKeys(sel[i]);
  }

  /** The inner loop of `hideSelected`: append the keys not yet listed. */
  method AddNewKeys(keys: seq<string>, objkeys: seq<string>) returns (r: seq<string>)
    ensures (set k | k in r) == (set k | k in keys) + (set k | k in objkeys)
  {
    r := keys;
    for j := 0 to |objkeys|
      invariant (set k | k in r) == (set k | k in keys) + (set k | k in objkeys[..j])
    {
      ghost var seen, next := objkeys[..j], objkeys[..j + 1];
      assert next == seen + [objkeys[j]];
      assert (set k | k in next) == (set k | k in seen) + {objkeys[j]};
      if objkeys[j] !in r {
        ghost var r0 := r;
        r := r + [objkeys[j]];
        assert (set k | k in r) == (set k | k in r0) + {objkeys[j]};
      }
    }
    assert objkeys[..|objkeys|] == objkeys;
  }

  /** `hideSelected`: the model editor is told to turn off every display
      flag of the selection, and is not called when there is none. */
  method HideSelected(sel: seq<SceneObject>) returns (call: Option<map<string, bool>>)
    ensures call.None? <==> DisplayKeyUnion(sel) == {}
    ensures call.Some? ==> call.value.Keys == DisplayKeyUnion(sel)
                           && forall k :: k in call.value ==> !call.value[k]
  {
    var keys: seq<string> := [];
    for i := 0 to |sel|
      invariant (set k | k in keys) == DisplayKeyUnion(sel[..i])
    {
      DisplayKeyUnionStep(sel, i);
      var objkeys := GetDisplayKeys(sel[i]);
      keys := AddNewKeys(keys, objkeys);
    }
    assert sel[..|sel|] == sel;
    assert (set k | k in keys) == DisplayKeyUnion(sel);
    if |keys| == 0 {
      assert keys == [] && (set k | k in keys) == {};
      return None;
    }
    assert keys[0] in (set k | k in keys);
    assert keys[0] in DisplayKeyUnion(sel);
    var kwargs := BuildKwargs(keys, false);
    call := Some(kwargs);
  }

  // ---------------------------------------------------------------------
  // Camera quick switch

  /** Python's string order: character by character, a proper prefix first. */
  predicate StrLessEq(a: string, b: string)
    decreases |a|
  {
    a == [] || (b != [] && (a[0] < b[0] || (a[0] == b[0] && StrLessEq(a[1..], b[1..]))))
  }

  lemma {:induction false} StrLessEqTotal(a: string, b: string)
    ensures StrLessEq(a, b) || StrLessEq(b, a)
    decreases |a|
  {
    if a != [] && b != [] && a[0] == b[0] {
      StrLessEqTotal(a[1..], b[1..]);
    }
  }

  lemma {:induction false} StrLessEqTrans(a: string, b: string, c: string)
    requires StrLessEq(a, b) && StrLessEq(b, c)
    ensures StrLessEq(a, c)
    decreases |a|
  {
    if a != [] && a[0] == b[0] && b[0] == c[0] {
      StrLessEqTrans(a[1..], b[1..], c[1..]);
    }
  }

  /** A camera shape: its name, its transform (the menu label) and whether
      it is orthographic. */
  datatype Camera = Camera(name: string, parent: string, ortho: bool)

  predicate SortedByName(cs: seq<Camera>) {
    forall i, j :: 0 <= i < j < |cs| ==> StrLessEq(cs[i].name, cs[j].name)
  }

  /** Places `c` before the first camera whose name is strictly greater. */
  function InsertCamera(sorted: seq<Camera>, c: Camera): seq<Camera> {
    if sorted == [] then [c]
    else if !StrLessEq(sorted[0].name, c.name) then [c] + sorted
    else [sorted[0]] + InsertCamera(sorted[1..], c)
  }

  lemma {:induction false} InsertCameraSorted(sorted: seq<Camera>, c: Camera)
    requires SortedByName(sorted)
    ensures SortedByName(InsertCamera(sorted, c))
    ensures multiset(InsertCamera(sorted, c)) == multiset(sorted) + multiset{c}
    decreases |sorted|
  {
    if sorted == [] {
    } else if !StrLessEq(sorted[0].name, c.name) {
      StrLessEqTotal(sorted[0].name, c.name);
      var r := [c] + sorted;
      forall i, j | 0 <= i < j < |r| ensures StrLessEq(r[i].name, r[j].name) {
        assert r[j] == sorted[j - 1];
        if i > 0 {
          assert r[i] == sorted[i - 1];
        } else if j > 1 {
          StrLessEqTrans(c.name, sorted[0].name, sorted[j - 1].name);
        }
      }
    } else {
      var tail := sorted[1..];
      InsertCameraSorted(tail, c);
      var rest := InsertCamera(tail, c);
      var r := [sorted[0]] + rest;
      assert sorted == [sorted[0]] + tail;
      forall i, j | 0 <= i < j < |r| ensures StrLessEq(r[i].name, r[j].name) {
        assert r[j] == rest[j - 1];
        if i > 0 {
          assert r[i] == rest[i - 1];
        } else {
          assert r[j] in multiset(rest);
          if r[j] != c {
            assert r[j] in multiset(tail);
            var k :| 0 <= k < |tail| && tail[k] == r[j];
            assert sorted[k + 1] == r[j];
          }
        }
      }
    }
  }

  /** `sorted(cameras)`: ordered by name, the same cameras. */
  function SortCameras(cs: seq<Camera>): (r: seq<Camera>)
    ensures SortedByName(r)
    ensures multiset(r) == multiset(cs)
    decreases |cs|
  {
    if cs == [] then []
    else
      var front := cs[..|cs| - 1];
      assert cs == front + [cs[|cs| - 1]];
      InsertCameraSorted(SortCameras(front), cs[|cs| - 1]);
      InsertCamera(SortCameras(front), cs[|cs| - 1])
  }

  /** The cameras whose ortho flag is `ortho`, in scene order. */
  function WithOrtho(cs: seq<Camera>, ortho: bool): (r: seq<Camera>)
    ensures forall c :: c in r <==> c in cs && c.ortho == ortho
  {
    if cs == [] then []
    else if cs[0].ortho == ortho then [cs[0]] + WithOrtho(cs[1..], ortho)
    else WithOrtho(cs[1..], ortho)
  }

  /** The two groups split the scene's cameras: each camera is in exactly
      one, as often as it occurs. */
  lemma {:induction false} WithOrthoPartition(cs: seq<Camera>, ortho: bool)
    ensures multiset(WithOrtho(cs, ortho)) + multiset(WithOrtho(cs, !ortho)) == multiset(cs)
    decreases |cs|
  {
    if cs != [] {
      var rest := cs[1..];
      WithOrthoPartition(rest, ortho);
      assert cs == [cs[0]] + rest;
      assert multiset(cs) == multiset{cs[0]} + multiset(rest);
      if cs[0].ortho == ortho {
        assert WithOrtho(cs, ortho) == [cs[0]] + WithOrtho(rest, ortho);
        assert WithOrtho(cs, !ortho) == WithOrtho(rest, !ortho);
      } else {
        assert WithOrtho(cs, ortho) == WithOrtho(rest, ortho);
        assert WithOrtho(cs, !ortho) == [cs[0]] + WithOrtho(rest, !ortho);
      }
    }
  }

  datatype CameraMenuItem =
    | CameraItem(camera: Camera, position: Option<Compass>, radio: bool)
    | Divider

  /** The menu's item list: `similar` on `positions` (the item of `camera`
      is the radio item), a divider after them when there are more than eight, then
      `dissimilar` as plain items. */
  predicate CameraMenuLayout(items: seq<CameraMenuItem>, similar: seq<Camera>, positions: seq<Option<Compass>>,
                             dissimilar: seq<Camera>, camera: Camera)
    requires |positions| == |similar|
  {
    var d := if |similar| > 8 then 1 else 0;
    && |items| == |similar| + d + |dissimilar|
    && (forall i :: 0 <= i < |similar| ==> items[i] == CameraItem(similar[i], positions[i], similar[i] == camera))
    && (d == 1 ==> items[|similar|] == Divider)
    && (forall i :: 0 <= i < |dissimilar| ==> items[|similar| + d + i] == CameraItem(dissimilar[i], None, false))
  }

  lemma LayoutConcat(radio: seq<CameraMenuItem>, divider: seq<CameraMenuItem>, plain: seq<CameraMenuItem>,
                     similar: seq<Camera>, positions: seq<Option<Compass>>, dissimilar: seq<Camera>, camera: Camera)
    requires |positions| == |similar| == |radio| && |plain| == |dissimilar|
    requires divider == if |similar| > 8 then [Divider] else []
    requires forall i :: 0 <= i < |similar| ==> radio[i] == CameraItem(similar[i], positions[i], similar[i] == camera)
    requires forall i :: 0 <= i < |dissimilar| ==> plain[i] == CameraItem(dissimilar[i], None, false)
    ensures CameraMenuLayout(radio + divider + plain, similar, positions, dissimilar, camera)
  {
    var items := radio + divider + plain;
    var d := |divider|;
    forall i | 0 <= i < |dissimilar| ensures items[|similar| + d + i] == CameraItem(dissimilar[i], None, false) {
      assert items[|similar| + d + i] == plain[i];
    }
  }

  /** `CameraQuickSwitchMenu.buildMenuItems`: the cameras with the current
      camera's ortho flag, sorted by name, on the radial layout for their
      count (the current one as the checked radio item); a divider when there
      are more than eight of them; then the other cameras, sorted. No current
      camera, no items. */
  method CameraMenuItems(cameras: seq<Camera>, current: Option<Camera>) returns (items: seq<CameraMenuItem>)
    ensures current.None? ==> items == []
    ensures current.Some? ==>
      var similar := SortCameras(WithOrtho(cameras, current.value.ortho));
      var layout := RadialLayout(|similar|);
      |layout| == |similar| &&
      CameraMenuLayout(items, similar, layout, SortCameras(WithOrtho(cameras, !current.value.ortho)), current.value)
  {
    if current.None? {
      return [];
    }
    var camera := current.value;
    var similar := SortCameras(WithOrtho(cameras, camera.ortho));
    var rps := GetRadialMenuPositions(|similar|);
    var radio := RadioItems(similar, rps.value, camera);
    var divider := if |similar| > 8 then [Divider] else [];
    var dissimilar := SortCameras(WithOrtho(cameras, !camera.ortho));
    var plain := PlainItems(dissimilar);
    LayoutConcat(radio, divider, plain, similar, rps.value, dissimilar, camera);
    items := radio + divider + plain;
  }

  /** The loop over `zip(similar, rps)`. */
  method RadioItems(similar: seq<Camera>, positions: seq<Option<Compass>>, camera: Camera)
    returns (items: seq<CameraMenuItem>)
    requires |positions| == |similar|
    ensures |items| == |similar|
    ensures forall i :: 0 <= i < |similar| ==>
      items[i] == CameraItem(similar[i], positions[i], similar[i] == camera)
  {
    items := [];
    for i := 0 to |similar|
      invariant |items| == i
      invariant forall k :: 0 <= k < i ==> items[k] == CameraItem(similar[k], positions[k], similar[k] == camera)
    {
      items := items + [CameraItem(similar[i], positions[i], similar[i] == camera)];
    }
  }

  /** The loop over the dissimilar cameras: plain items, no position. */
  method PlainItems(cameras: seq<Camera>) returns (items: seq<CameraMenuItem>)
    ensures |items| == |cameras|
    ensures forall i :: 0 <= i < |cameras| ==> items[i] == CameraItem(cameras[i], None, false)
  {
    items := [];
    for i := 0 to |cameras|
      invariant |items| == i
      invariant forall k :: 0 <= k < i ==> items[k] == CameraItem(cameras[k], None, false)
    {
      items := items + [CameraItem(cameras[i], None, false)];
    }
  }
}
