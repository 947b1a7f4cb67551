/** The quick-select data model: named collections of quick-select sets,
    each set a list of scene-node names with an optional title and an
    optional radial position, stored on a collection node in the scene. */
module QuickSelect {
  import opened Base
  import opened QuickMenuUtils

  /** Collection nodes are named this prefix followed by the collection name. */
  const CollectionPrefix := "quickSelectCollection_"
  const DefaultCollectionName := "Default"
  const AbbreviateMaxLen := 15

  // ---------------------------------------------------------------------
  // Collection names

  /** `node.nodeName()[len(COLLECTION_PREFIX):]`: a name shorter than the
      prefix slices to "". The result is always a suffix of the node name,
      and a node named with the prefix is the prefix followed by it. */
  function CollectionNameFromNode(nodeName: string): (r: string)
    ensures |r| <= |nodeName| && r == nodeName[|nodeName| - |r|..]
    ensures CollectionPrefix <= nodeName ==> nodeName == CollectionPrefix + r
    ensures |nodeName| < |CollectionPrefix| ==> r == ""
  {
    if |nodeName| >= |CollectionPrefix| then nodeName[|CollectionPrefix|..] else ""
  }

  /** The node created for a collection gives back the collection's name. */
  lemma CollectionNameRoundTrip(name: string)
    ensures CollectionNameFromNode(CollectionPrefix + name) == name
  {
    assert (CollectionPrefix + name)[|CollectionPrefix|..] == name;
  }

  // ---------------------------------------------------------------------
  // Titles

  /** `n.split('|')[-1]`: the short name of a DAG path. */
  function ShortName(n: string): (r: string)
    ensures '|' !in r
  {
    var parts := Split(n, '|');
    assert parts[|parts| - 1] in parts;
    parts[|parts| - 1]
  }

  function ShortNames(nodes: seq<string>): (r: seq<string>)
    ensures |r| == |nodes|
    ensures forall i :: 0 <= i < |nodes| ==> r[i] == ShortName(nodes[i])
  {
    seq(|nodes|, i requires 0 <= i < |nodes| => ShortName(nodes[i]))
  }

  /** Every character of a join comes from a part or from the separator. */
  lemma {:induction false} JoinChars(parts: seq<string>, sep: string, c: char)
    requires c in Join(parts, sep)
    ensures c in sep || exists p :: p in parts && c in p
    decreases |parts|
  {
    if |parts| > 1 {
      var rest := Join(parts[1..], sep);
      assert Join(parts, sep) == parts[0] + sep + rest;
      if c in parts[0] {
        assert parts[0] in parts;
      } else if c !in sep {
        assert c in rest;
        JoinChars(parts[1..], sep, c);
        var p :| p in parts[1..] && c in p;
        assert p in parts;
      }
    } else if |parts| == 1 {
      assert parts[0] in parts;
    }
  }

  /** `abbreviate`: the short names joined with ", ", cut to its first ten
      characters and "..." when longer than `maxLen`. */
  function Abbreviate(nodes: seq<string>, maxLen: int): (r: string)
    ensures var full := Join(ShortNames(nodes), ", ");
      && (|full| <= maxLen ==> r == full)
      && (|full| > maxLen ==>
            && 3 <= |r| <= 13 && r[|r| - 3..] == "..."
            && r[..|r| - 3] <= full
            && (|full| >= 10 ==> |r| == 13)
            && (|full| < 10 ==> r[..|r| - 3] == full))
  {
    var full := Join(ShortNames(nodes), ", ");
    if |full| > maxLen then full[..if |full| < 10 then |full| else 10] + "..." else full
  }

  /** The default abbreviation is never longer than 15 characters and holds
      only short names: no '|' survives. */
  lemma AbbreviateShort(nodes: seq<string>)
    ensures |Abbreviate(nodes, AbbreviateMaxLen)| <= AbbreviateMaxLen
    ensures '|' !in Abbreviate(nodes, AbbreviateMaxLen)
  {
    var full := Join(ShortNames(nodes), ", ");
    if '|' in full {
      JoinChars(ShortNames(nodes), ", ", '|');
    }
  }

  // ---------------------------------------------------------------------
  // Quick-select sets

  /** What `setNodes` is given: a scene node (stored by its long name) or
      anything else (stored as its string form). */
  datatype NodeRef = SceneNode(longName: string) | Text(text: string)

  function NodeString(n: NodeRef): string {
    match n
    case SceneNode(longName) => longName
    case Text(text) => text
  }

  /** The stored form of a set, as written to the collection node. */
  datatype SetData = SetData(nodes: seq<string>, title: Option<string>, position: Option<Compass>)

  function TextRefs(names: seq<string>): (r: seq<NodeRef>)
    ensures |r| == |names|
    ensures forall i :: 0 <= i < |names| ==> r[i] == Text(names[i])
  {
    seq(|names|, i requires 0 <= i < |names| => Text(names[i]))
  }

  class QuickSelectSet {
    var nodes: seq<string>
    var title: Option<string>
    var position: Option<Compass>

    constructor (newNodes: seq<NodeRef>, title: Option<string>, position: Option<Compass>)
      ensures |nodes| == |newNodes| && forall i :: 0 <= i < |newNodes| ==> nodes[i] == NodeString(newNodes[i])
      ensures this.title == title && this.position == position
    {
      nodes := [];
      this.title := title;
      this.position := position;
      new;
      SetNodes(newNodes);
    }

    /** Stores each node by its long name, anything else by its string form,
        in order. */
    method SetNodes(newNodes: seq<NodeRef>)
      modifies this
      ensures |nodes| == |newNodes| && forall i :: 0 <= i < |newNodes| ==> nodes[i] == NodeString(newNodes[i])
      ensures title == old(title) && position == old(position)
    {
      nodes := [];
      for i := 0 to |newNodes|
        invariant |nodes| == i
        invariant forall j :: 0 <= j < i ==> nodes[j] == NodeString(newNodes[j])
        invariant title == old(title) && position == old(position)
      {
        match newNodes[i]
        case SceneNode(longName) => nodes := nodes + [longName];
        case Text(text) => nodes := nodes + [text];
      }
    }

    function AsDict(): (d: SetData)
      reads this
      ensures d.nodes == nodes && d.title == title && d.position == position
    {
      SetData(nodes, title, position)
    }

    /** The title when set (neither None nor ""), else the abbreviated node
        names. */
    function GetTitle(): (r: string)
      reads this
      ensures title.Some? && title.value != "" ==> r == title.value
      ensures title.None? || title.value == "" ==>
        r == Abbreviate(nodes, AbbreviateMaxLen) && |r| <= AbbreviateMaxLen && '|' !in r
    {
      AbbreviateShort(nodes);
      if title.Some? && title.value != "" then title.value else Abbreviate(nodes, AbbreviateMaxLen)
    }
  }

  /** `QuickSelectSet(**data)`: loading a stored set gives back the same
      nodes, title and position. */
  method SetFromDict(d: SetData) returns (s: QuickSelectSet)
    ensures fresh(s) && s.AsDict() == d
  {
    s := new QuickSelectSet(TextRefs(d.nodes), d.title, d.position);
  }

  /** A set saved and loaded again holds what it held. */
  method SetRoundTrip(s: QuickSelectSet) returns (t: QuickSelectSet)
    ensures fresh(t) && t.AsDict() == s.AsDict()
  {
    t := SetFromDict(s.AsDict());
  }

  // ---------------------------------------------------------------------
  // Positions and vacancies

  /** Non-null positions never repeat. */
  predicate PositionsDistinct(ps: seq<Option<Compass>>) {
    forall i, j :: 0 <= i < j < |ps| && ps[i].Some? ==> ps[i] != ps[j]
  }

  /** The index of the first set at `p`. */
  function FirstAt(ps: seq<Option<Compass>>, p: Option<Compass>): (r: Option<nat>)
    ensures r.None? <==> p !in ps
    ensures r.Some? ==> r.value < |ps| && ps[r.value] == p && p !in ps[..r.value]
  {
    if ps == [] then None
    else if ps[0] == p then Some(0)
    else
      match FirstAt(ps[1..], p)
      case None => None
      case Some(i) =>
        assert ps[..i + 1] == [ps[0]] + ps[1..][..i];
        Some(i + 1)
  }

  /** The first index holding `p` is the one with no `p` before it. */
  lemma FirstAtIs(ps: seq<Option<Compass>>, p: Option<Compass>, i: nat)
    requires i < |ps| && ps[i] == p && p !in ps[..i]
    ensures FirstAt(ps, p) == Some(i)
  {
  }

  /** The positions of `s` that no entry of `occupied` takes, in order. */
  function Keep(s: seq<Compass>, occupied: seq<Option<Compass>>): (r: seq<Compass>)
    ensures forall x :: x in r <==> x in s && Some(x) !in occupied
  {
    if s == [] then []
    else if Some(s[0]) !in occupied then [s[0]] + Keep(s[1..], occupied)
    else Keep(s[1..], occupied)
  }

  /** `list.remove(x)` when present. */
  function RemoveCompass(s: seq<Compass>, x: Compass): seq<Compass> {
    if s == [] then []
    else if s[0] == x then s[1..]
    else [s[0]] + RemoveCompass(s[1..], x)
  }

  lemma {:induction false} KeepExtraAbsent(s: seq<Compass>, occupied: seq<Option<Compass>>, x: Compass)
    requires x !in s
    ensures Keep(s, occupied + [Some(x)]) == Keep(s, occupied)
    decreases |s|
  {
    if s != [] {
      assert Some(s[0]) in occupied + [Some(x)] <==> Some(s[0]) in occupied;
      KeepExtraAbsent(s[1..], occupied, x);
    }
  }

  lemma {:induction false} KeepRemove(s: seq<Compass>, occupied: seq<Option<Compass>>, x: Compass)
    requires NoDup(s)
    ensures RemoveCompass(Keep(s, occupied), x) == Keep(s, occupied + [Some(x)])
    decreases |s|
  {
    if s != [] {
      var t := s[1..];
      assert NoDup(t) && s[0] !in t by {
        forall i, j | 0 <= i < j < |t| ensures t[i] != t[j] {
          assert t[i] == s[i + 1] && t[j] == s[j + 1];
        }
      }
      if s[0] == x {
        KeepExtraAbsent(t, occupied, x);
        if Some(x) in occupied {
          assert x !in Keep(t, occupied);
          RemoveCompassAbsent(Keep(t, occupied), x);
        }
      } else {
        assert Some(s[0]) in occupied + [Some(x)] <==> Some(s[0]) in occupied;
        KeepRemove(t, occupied, x);
      }
    }
  }

  lemma {:induction false} RemoveCompassAbsent(s: seq<Compass>, x: Compass)
    requires x !in s
    ensures RemoveCompass(s, x) == s
    decreases |s|
  {
    if s != [] {
      RemoveCompassAbsent(s[1..], x);
    }
  }

  /** The eight positions minus the occupied ones, in compass order. */
  function Vacancies(occupied: seq<Option<Compass>>): (r: seq<Compass>)
    ensures forall p :: p in r <==> Some(p) !in occupied
  {
    AllCompassPoints();
    Keep(RadialPositions, occupied)
  }

  /** Every compass point is one of the eight radial positions. */
  lemma AllCompassPoints()
    ensures forall p: Compass :: p in RadialPositions
  {
    forall p: Compass ensures p in RadialPositions {
      match p
      case N => assert RadialPositions[0] == p;
      case NE => assert RadialPositions[1] == p;
      case E => assert RadialPositions[2] == p;
      case SE => assert RadialPositions[3] == p;
      case S => assert RadialPositions[4] == p;
      case SW => assert RadialPositions[5] == p;
      case W => assert RadialPositions[6] == p;
      case NW => assert RadialPositions[7] == p;
    }
  }

  lemma {:induction false} KeepNothingOccupied(s: seq<Compass>)
    ensures Keep(s, []) == s
    decreases |s|
  {
    if s != [] {
      KeepNothingOccupied(s[1..]);
    }
  }

  // ---------------------------------------------------------------------
  // Collections and the scene store

  /** The collection nodes of the scene, by collection name, with the sets
      each one holds. */
  class CollectionStore {
    var collections: map<string, seq<SetData>>

    constructor ()
      ensures collections == map[]
    {
      collections := map[];
    }
  }

  /** Anything `addSet` may be handed. */
  datatype SetArg = QuickSet(quickSet: QuickSelectSet) | NotASet

  class QuickSelectCollection {
    var name: string
    var sets: seq<QuickSelectSet>
    const store: CollectionStore

    ghost predicate Valid()
      reads this, sets
    {
      PositionsDistinct(Positions())
    }

    function Positions(): (r: seq<Option<Compass>>)
      reads this, sets
      ensures |r| == |sets| && forall i :: 0 <= i < |sets| ==> r[i] == sets[i].position
    {
      seq(|sets|, i reads this, sets requires 0 <= i < |sets| => sets[i].position)
    }

    /** The stored form of every set, in order. */
    function SetsData(): (r: seq<SetData>)
      reads this, sets
      ensures |r| == |sets| && forall i :: 0 <= i < |sets| ==> r[i] == sets[i].AsDict()
    {
      seq(|sets|, i reads this, sets requires 0 <= i < |sets| => sets[i].AsDict())
    }

    constructor (name: string, store: CollectionStore)
      ensures Valid() && this.name == name && sets == [] && this.store == store
    {
      this.name := name;
      sets := [];
      this.store := store;
    }

    /** Writes the sets to the collection's node, creating the node under the
        prefixed name when missing. */
    method Save()
      modifies store
      ensures store.collections == old(store.collections)[name := SetsData()]
    {
      store.collections := store.collections[name := SetsData()];
    }

    /** Replaces the sets with those stored on the collection's node, if any. */
    method Load()
      modifies this
      ensures name == old(name)
      ensures name in store.collections ==>
                SetsData() == store.collections[name] && forall s :: s in sets ==> fresh(s)
      ensures name !in store.collections ==> sets == old(sets)
    {
      if name !in store.collections {
        return;
      }
      var data := store.collections[name];
      var loaded: seq<QuickSelectSet> := [];
      for i := 0 to |data|
        invariant name == old(name) && sets == old(sets)
        invariant |loaded| == i
        invariant forall j :: 0 <= j < i ==> fresh(loaded[j]) && loaded[j].AsDict() == data[j]
      {
        var s := SetFromDict(data[i]);
        loaded := loaded + [s];
      }
      sets := loaded;
    }

    /** Appends a set and saves; anything but a set is a TypeError, and a set
        whose position is already taken is a ValueError. Only the new set's
        position is checked, so distinct positions are kept, not restored. */
    method AddSet(arg: SetArg) returns (r: Outcome)
      modifies this, store
      ensures old(Valid()) ==> Valid()
      ensures name == old(name)
      ensures arg.NotASet? ==> r == Fail(TypeError)
      ensures arg.QuickSet? ==> (r.Fail? <==> arg.quickSet.position.Some? && arg.quickSet.position in old(Positions()))
      ensures r.Fail? ==> sets == old(sets) && store.collections == old(store.collections)
      ensures r.Fail? && arg.QuickSet? ==> r.error == ValueError
      ensures r.Pass? ==> sets == old(sets) + [arg.quickSet]
                          && store.collections == old(store.collections)[name := SetsData()]
    {
      if arg.NotASet? {
        return Fail(TypeError);
      }
      var quickSet := arg.quickSet;
      if quickSet.position.Some? {
        for i := 0 to |sets|
          invariant forall j :: 0 <= j < i ==> sets[j].position != quickSet.position
        {
          if sets[i].position == quickSet.position {
            return Fail(ValueError);
          }
        }
      }
      sets := sets + [quickSet];
      Save();
      return Pass;
    }

    /** Removes the first set at `position` and saves; no set there, no
        change. */
    method RemoveSetAtPosition(position: Option<Compass>)
      modifies this, store
      ensures old(Valid()) ==> Valid()
      ensures name == old(name)
      ensures match FirstAt(old(Positions()), position)
        case None => sets == old(sets) && store.collections == old(store.collections)
        case Some(i) => sets == old(sets)[..i] + old(sets)[i + 1..]
                        && store.collections == old(store.collections)[name := SetsData()]
    {
      var at := IndexOfPosition(position);
      if at.Some? {
        RemoveSetAtIndex(at.value);
      }
    }

    /** The loop looking for the first set at `position`. */
    method IndexOfPosition(position: Option<Compass>) returns (at: Option<nat>)
      ensures at == FirstAt(Positions(), position)
    {
      for i := 0 to |sets|
        invariant position !in Positions()[..i]
      {
        if sets[i].position == position {
          FirstAtIs(Positions(), position, i);
          return Some(i);
        }
        assert Positions()[..i + 1] == Positions()[..i] + [sets[i].position];
      }
      assert Positions()[..|sets|] == Positions();
      return None;
    }

    /** Removes the set at `index` and saves; an index out of range changes
        nothing. */
    method RemoveSetAtIndex(index: int)
      modifies this, store
      ensures old(Valid()) ==> Valid()
      ensures name == old(name)
      ensures 0 <= index < |old(sets)| ==>
                sets == old(sets)[..index] + old(sets)[index + 1..] && store.collections == old(store.collections)[name := SetsData()]
      ensures !(0 <= index < |old(sets)|) ==> sets == old(sets) && store.collections == old(store.collections)
    {
      if index >= 0 && index < |sets| {
        sets := sets[..index] + sets[index + 1..];
        Save();
      }
    }

    /** `addSetFromSelection`: a set of the selected nodes at `position` is
        added unless the selection is empty. */
    method AddSetFromSelection(selected: seq<NodeRef>, position: Option<Compass>) returns (r: Outcome)
      modifies this, store
      ensures old(Valid()) ==> Valid()
      ensures name == old(name)
      ensures |selected| == 0 ==> r == Pass && sets == old(sets) && store.collections == old(store.collections)
      ensures |selected| > 0 ==>
        && (r.Fail? <==> position.Some? && position in old(Positions()))
        && (r.Fail? ==> r.error == ValueError && sets == old(sets) && store.collections == old(store.collections))
        && (r.Pass? ==> |sets| == |old(sets)| + 1 && sets[..|old(sets)|] == old(sets)
                        && fresh(sets[|old(sets)|]) && sets[|old(sets)|].position == position
                        && |sets[|old(sets)|].nodes| == |selected|
                        && (forall i :: 0 <= i < |selected| ==> sets[|old(sets)|].nodes[i] == NodeString(selected[i]))
                        && sets[|old(sets)|].title == None
                        && SetsData() == old(SetsData()) + [SelectionData(selected, position)]
                        && store.collections == old(store.collections)[name := SetsData()])
    {
      var s := new QuickSelectSet(selected, None, position);
      if |s.nodes| == 0 {
        return Pass;
      }
      ghost var before := SetsData();
      r := AddSet(QuickSet(s));
      if r.Pass? {
        assert s.nodes == SelectionData(selected, position).nodes;
        assert SetsData() == before + [SelectionData(selected, position)];
      }
    }

    method ClearSets()
      modifies this, store
      ensures Valid() && name == old(name) && sets == []
      ensures store.collections == old(store.collections)[name := []]
    {
      sets := [];
      Save();
    }

    /** The compass positions no set takes, in compass order. */
    method GetRadialVacancies() returns (r: seq<Compass>)
      ensures r == Vacancies(Positions())
    {
      var ps := Positions();
      r := RadialPositions;
      VacanciesStart(ps);
      for i := 0 to |ps|
        invariant r == Vacancies(ps[..i])
      {
        VacanciesStep(r, ps, i);
        if ps[i].Some? && ps[i].value in r {
          r := RemoveCompass(r, ps[i].value);
        }
      }
      assert ps[..|ps|] == ps;
    }
  }

  lemma VacanciesStart(ps: seq<Option<Compass>>)
    ensures Vacancies(ps[..0]) == RadialPositions
  {
    assert ps[..0] == [];
    KeepNothingOccupied(RadialPositions);
  }

  /** One step of the vacancy loop: removing the next occupied position (when
      still vacant) is the same as counting it as occupied. */
  lemma VacanciesStep(r: seq<Compass>, ps: seq<Option<Compass>>, i: nat)
    requires i < |ps| && r == Vacancies(ps[..i])
    ensures Vacancies(ps[..i + 1])
            == if ps[i].Some? && ps[i].value in r then RemoveCompass(r, ps[i].value) else r
  {
    RadialPositionsDistinct();
    assert ps[..i + 1] == ps[..i] + [ps[i]];
    if ps[i].Some? {
      KeepRemove(RadialPositions, ps[..i], ps[i].value);
      if ps[i].value !in r {
        RemoveCompassAbsent(r, ps[i].value);
      }
    } else {
      assert forall x :: Some(x) in ps[..i + 1] <==> Some(x) in ps[..i];
      KeepSameOccupied(RadialPositions, ps[..i], ps[..i + 1]);
    }
  }

  lemma {:induction false} KeepSameOccupied(s: seq<Compass>, occ1: seq<Option<Compass>>, occ2: seq<Option<Compass>>)
    requires forall x :: Some(x) in occ1 <==> Some(x) in occ2
    ensures Keep(s, occ1) == Keep(s, occ2)
    decreases |s|
  {
    if s != [] {
      KeepSameOccupied(s[1..], occ1, occ2);
    }
  }

  // ---------------------------------------------------------------------
  // The active collection (ACTIVE_COLLECTION)

  /** The collection `getActiveCollection` settles on: the active one when
      its node exists, the default one otherwise. */
  function ActiveCollectionName(active: Option<string>, collections: map<string, seq<SetData>>): string {
    var wanted := if active.None? then DefaultCollectionName else active.value;
    if wanted in collections then wanted else DefaultCollectionName
  }

  /** The sets stored under `name`, none when there is no such node. */
  function StoredSets(collections: map<string, seq<SetData>>, name: string): seq<SetData> {
    if name in collections then collections[name] else []
  }

  /** The stored form of `QuickSelectSet(pm.selected(), position=position)`. */
  function SelectionData(selected: seq<NodeRef>, position: Option<Compass>): (d: SetData)
    ensures |d.nodes| == |selected| && forall i :: 0 <= i < |selected| ==> d.nodes[i] == NodeString(selected[i])
    ensures d.title == None && d.position == position
  {
    SetData(seq(|selected|, i requires 0 <= i < |selected| => NodeString(selected[i])), None, position)
  }

  function DataPositions(data: seq<SetData>): (r: seq<Option<Compass>>)
    ensures |r| == |data| && forall i :: 0 <= i < |data| ==> r[i] == data[i].position
  {
    seq(|data|, i requires 0 <= i < |data| => data[i].position)
  }

  class QuickSelectState {
    /** ACTIVE_COLLECTION: a collection name, or None */
    var activeName: Option<string>
    const store: CollectionStore

    constructor (store: CollectionStore)
      ensures activeName == Some(DefaultCollectionName) && this.store == store
    {
      activeName := Some(DefaultCollectionName);
      this.store := store;
    }

    predicate IsActive(coll: QuickSelectCollection)
      reads this, coll
    {
      activeName == Some(coll.name)
    }

    method MakeActive(coll: QuickSelectCollection)
      modifies this
      ensures IsActive(coll) && activeName == Some(coll.name)
    {
      activeName := Some(coll.name);
    }

    /** The active collection, loaded from the scene; when none is active or
        it is gone from the scene, the default collection (created empty if
        missing) becomes active. */
    method GetActiveCollection() returns (coll: QuickSelectCollection)
      modifies this, store
      ensures fresh(coll) && coll.store == store && IsActive(coll)
      ensures var wanted := if old(activeName).None? then DefaultCollectionName else old(activeName).value;
        && (wanted in old(store.collections) ==> coll.name == wanted && store.collections == old(store.collections))
        && (wanted !in old(store.collections) ==>
              && coll.name == DefaultCollectionName
              && store.collections == (if DefaultCollectionName in old(store.collections) then old(store.collections)
                                       else old(store.collections)[DefaultCollectionName := []]))
      ensures coll.name in store.collections && coll.SetsData() == store.collections[coll.name]
    {
      if activeName.None? {
        activeName := Some(DefaultCollectionName);
      }
      var wanted := activeName.value;
      if wanted in store.collections {
        coll := new QuickSelectCollection(wanted, store);
        coll.Load();
        return;
      }
      coll := new QuickSelectCollection(DefaultCollectionName, store);
      if DefaultCollectionName in store.collections {
        coll.Load();
      } else {
        coll.Save();
      }
      activeName := Some(coll.name);
    }

    /** The quick-select menu's vacancy slot: the menu shows the active
        collection, and picking the slot adds the selection there. */
    method AddSelectionToActive(selected: seq<NodeRef>, position: Option<Compass>)
      returns (coll: QuickSelectCollection, r: Outcome)
      modifies this, store
      ensures fresh(coll) && coll.store == store && IsActive(coll)
      ensures coll.name == ActiveCollectionName(old(activeName), old(store.collections))
      ensures coll.name in store.collections && store.collections[coll.name] == coll.SetsData()
      ensures var loaded := StoredSets(old(store.collections), coll.name);
        && (r.Fail? <==> |selected| > 0 && position.Some? && position in DataPositions(loaded))
        && (r.Fail? ==> r.error == ValueError)
        && (r.Fail? || |selected| == 0 ==> store.collections == old(store.collections)[coll.name := loaded])
        && (r.Pass? && |selected| > 0 ==>
              store.collections == old(store.collections)[coll.name := loaded + [SelectionData(selected, position)]])
    {
      coll := GetActiveCollection();
      ghost var loaded := coll.SetsData();
      assert coll.Positions() == DataPositions(loaded);
      r := coll.AddSetFromSelection(selected, position);
    }
  }
}
