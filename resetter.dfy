/** The resetter: each node may carry a string attribute, `brstDefaults`,
    holding a dictionary of default values for its other attributes. The
    module stores those defaults, reads them back (validating and filtering
    what it finds), removes them, and resets nodes to them, falling back to
    the identity transform when a node has none. */
module Resetter {
  import opened Base

  /** The attribute that holds a node's stored defaults. */
  const DefaultsAttrName := "brstDefaults"

  /** An attribute value as `attr.get()` returns it. */
  datatype Value =
    | Int(i: int)
    | Float(r: real)
    | Bool(b: bool)
    | Str(s: string)
    | Tuple(items: seq<Value>)

  /** `type(v)` */
  datatype Kind = IntKind | FloatKind | BoolKind | StrKind | TupleKind

  function KindOf(v: Value): Kind {
    match v
    case Int(_) => IntKind
    case Float(_) => FloatKind
    case Bool(_) => BoolKind
    case Str(_) => StrKind
    case Tuple(_) => TupleKind
  }

  /** An ordinary attribute of a node. `value` is None for a complex
      attribute whose `get()` raises. `channelBox` marks a non-keyable
      attribute shown in the channel box. */
  datatype Attr = Attr(value: Option<Value>, settable: bool, keyable: bool, channelBox: bool, locked: bool)

  /** What `eval` makes of the defaults attribute's string: a dictionary,
      or anything else (including text that does not parse). */
  datatype Stored = Dict(entries: map<string, Value>) | NotADict

  datatype DefaultsAttr = DefaultsAttr(stored: Stored, locked: bool)

  /** A dependency node: its ordinary attributes in `listAttr` order, its
      lock and read-only flags, and its defaults attribute if it has one. */
  datatype Node = Node(attrNames: seq<string>, attrs: map<string, Attr>, locked: bool, readOnly: bool,
                       defaults: Option<DefaultsAttr>)

  /** The attribute names are listed once each, and the defaults attribute
      is kept apart from the ordinary attributes. */
  predicate NodeValid(n: Node) {
    && NoDup(n.attrNames)
    && (forall a :: a in n.attrs ==> a in n.attrNames)
    && (forall a :: a in n.attrNames ==> a in n.attrs)
    && DefaultsAttrName !in n.attrs
  }

  /** `node.hasAttr(a)` */
  predicate HasAttr(n: Node, a: string) {
    a in n.attrs || (a == DefaultsAttrName && n.defaults.Some?)
  }

  /** A reference to attribute `name` of node `node` (a pymel Attribute). */
  datatype AttrRef = AttrRef(node: string, name: string)

  // ---------------------------------------------------------------------
  // Reading stored defaults

  /** A stored key that `getDefaults` keeps: not the defaults attribute
      itself, and naming an attribute the node has. */
  predicate Kept(n: Node, k: string) {
    k != DefaultsAttrName && k in n.attrs
  }

  /** Backwards compatibility: a value whose type differs from the
      attribute's current value, and which is a one-element tuple, is
      unwrapped. */
  function Restored(current: Value, v: Value): (r: Value)
    ensures KindOf(current) == KindOf(v) ==> r == v
    ensures !v.Tuple? ==> r == v
    ensures KindOf(current) != KindOf(v) && v.Tuple? && |v.items| == 1 ==> r == v.items[0]
    ensures v.Tuple? && |v.items| != 1 ==> r == v
  {
    if KindOf(current) != KindOf(v) && v.Tuple? && |v.items| == 1 then v.items[0] else v
  }

  /** The defaults `getDefaults` returns for a node: none when there is no
      defaults attribute or it does not hold a dictionary; otherwise the kept
      keys, restored; an error when a kept key names an attribute whose
      value cannot be read. */
  function DefaultsOf(n: Node): Result<map<string, Value>> {
    if n.defaults.None? || n.defaults.value.stored.NotADict? then Ok(map[])
    else RestoredFrom(n, n.defaults.value.stored.entries)
  }

  /** The stored dictionary `stored` checked against the current values
      of `n`: the kept entries, restored, or a RuntimeError when one of
      their attributes cannot be read. */
  function RestoredFrom(n: Node, stored: map<string, Value>): Result<map<string, Value>> {
    if exists k :: k in stored && Kept(n, k) && n.attrs[k].value.None? then Err(RuntimeError)
    else Ok(map k | k in stored && Kept(n, k) :: Restored(n.attrs[k].value.value, stored[k]))
  }

  /** The loop of `getDefaults` over the stored dictionary. */
  method RestoreDefaults(n: Node, stored: map<string, Value>) returns (r: Result<map<string, Value>>)
    ensures r == RestoredFrom(n, stored)
  {
    var defaults: map<string, Value> := map[];
    var pending := stored.Keys;
    while pending != {}
      invariant pending <= stored.Keys
      invariant forall k :: k in stored && k !in pending && Kept(n, k) ==> n.attrs[k].value.Some?
      invariant defaults ==
                map k | k in stored && k !in pending && Kept(n, k) :: Restored(n.attrs[k].value.value, stored[k])
      decreases pending
    {
      var k :| k in pending;
      pending := pending - {k};
      if k == DefaultsAttrName {
        continue;
      }
      if k !in n.attrs {
        continue;
      }
      var current := n.attrs[k].value;
      if current.None? {
        return Err(RuntimeError);
      }
      var v := stored[k];
      if KindOf(current.value) != KindOf(v) {
        if v.Tuple? && |v.items| == 1 {
          v := v.items[0];
        }
      }
      defaults := defaults[k := v];
    }
    assert !exists k :: k in stored && Kept(n, k) && n.attrs[k].value.None?;
    assert defaults == map k | k in stored && Kept(n, k) :: Restored(n.attrs[k].value.value, stored[k]);
    return Ok(defaults);
  }

  // ---------------------------------------------------------------------
  // Writing stored defaults

  /** The attribute names among `refs` that belong to `node`. */
  function NamesOn(refs: seq<AttrRef>, node: string): set<string> {
    set r | r in refs && r.node == node :: r.name
  }

  /** The current values of the named attributes of `n` that can hold a
      default: ordinary attributes whose value can be read. */
  function Collected(n: Node, names: set<string>): map<string, Value> {
    map a | a in names && Kept(n, a) && n.attrs[a].value.Some? :: n.attrs[a].value.value
  }

  /** Storing defaults on `n` writes something: its defaults attribute
      exists and is unlocked, or can be created on an unlocked, writable
      node. */
  predicate Writable(n: Node) {
    if n.defaults.None? then !n.locked && !n.readOnly else !n.defaults.value.locked
  }

  /** What storing `d` does to a node: the defaults attribute is created
      when missing (unless the node is locked or read-only, when nothing is
      written), and a locked defaults attribute is left alone. */
  function StoreDefaults(n: Node, d: map<string, Value>): (r: Node)
    ensures Writable(n) ==> r.defaults.Some? && r.defaults.value.stored == Dict(d) && !r.defaults.value.locked
    ensures !Writable(n) ==> r == n
    ensures r.attrs == n.attrs && r.attrNames == n.attrNames && r.locked == n.locked && r.readOnly == n.readOnly
  {
    if n.defaults.None? then
      if n.locked || n.readOnly then n
      else n.(defaults := Some(DefaultsAttr(Dict(d), false)))
    else if n.defaults.value.locked then n
    else n.(defaults := Some(n.defaults.value.(stored := Dict(d))))
  }

  /** `setDefaultsForAttrs` as written: on a locked or read-only node
      without a defaults attribute, `getDefaultsAttr(node, True)` returns
      None and the following `dattr.isLocked()` raises AttributeError. */
  function StoreDefaultsAsWritten(n: Node, d: map<string, Value>): Result<Node> {
    if n.defaults.None? && (n.locked || n.readOnly) then Err(AttributeError)
    else Ok(StoreDefaults(n, d))
  }

  /** A locked node without defaults: the code as written raises, the
      corrected store writes nothing. */
  lemma LockedNodeStoreFails()
    ensures var n := Node([], map[], true, false, None);
            StoreDefaultsAsWritten(n, map[]) == Err(AttributeError) && StoreDefaults(n, map[]) == n
  {
  }

  /** Round trip: what `setDefaultsForAttrs` stores, `getDefaults` returns
      unchanged whenever the store was written. */
  lemma {:induction false} StoreThenRead(n: Node, names: set<string>)
    requires NodeValid(n) && Writable(n)
    ensures DefaultsOf(StoreDefaults(n, Collected(n, names))) == Ok(Collected(n, names))
  {
    var d := Collected(n, names);
    var m := StoreDefaults(n, d);
    assert forall k :: k in d ==> Kept(m, k) && m.attrs[k].value.Some?;
    assert (map k | k in d && Kept(m, k) :: Restored(m.attrs[k].value.value, d[k])) == d;
  }

  lemma {:induction false} NamesOnStep(refs: seq<AttrRef>, node: string, i: nat)
    requires i < |refs|
    ensures NamesOn(refs[..i + 1], node) ==
            NamesOn(refs[..i], node) + (if refs[i].node == node then {refs[i].name} else {})
  {
    assert refs[..i + 1] == refs[..i] + [refs[i]];
  }

  lemma {:induction false} CollectedAdd(n: Node, names: set<string>, a: string)
    ensures Collected(n, names + {a}) ==
            if Kept(n, a) && n.attrs[a].value.Some? then Collected(n, names)[a := n.attrs[a].value.value]
            else Collected(n, names)
  {
  }

  // ---------------------------------------------------------------------
  // Removing stored defaults

  /** `removeDefaults` deletes a node's defaults when the node is neither
      locked nor read-only and has them. */
  predicate Removable(n: Node) {
    !n.locked && !n.readOnly && n.defaults.Some?
  }

  function RemovedDefaults(n: Node): (r: Node)
    ensures r.attrs == n.attrs && r.attrNames == n.attrNames
    ensures r.defaults.Some? <==> n.defaults.Some? && !Removable(n)
  {
    if n.locked || n.readOnly then n else n.(defaults := None)
  }

  /** The nodes after removing the defaults of each of `names`. */
  function RemovedIn(nodes: map<string, Node>, names: seq<string>): map<string, Node> {
    map m | m in nodes :: if m in names then RemovedDefaults(nodes[m]) else nodes[m]
  }

  lemma {:induction false} RemovedInStep(nodes: map<string, Node>, names: seq<string>, i: nat)
    requires i < |names| && names[i] in nodes
    ensures RemovedIn(nodes, names[..i + 1]) ==
            RemovedIn(nodes, names[..i])[names[i] := RemovedDefaults(nodes[names[i]])]
  {
    assert names[..i + 1] == names[..i] + [names[i]];
  }

  /** Removing the defaults of one more node: a node already handled is
      no longer removable, so removing it again changes nothing. */
  lemma RemovedInSnoc(nodes: map<string, Node>, names: seq<string>, i: nat)
    requires i < |names| && names[i] in nodes
    ensures var prev := RemovedIn(nodes, names[..i]);
            && names[i] in prev
            && RemovedIn(nodes, names[..i + 1]) == prev[names[i] := RemovedDefaults(prev[names[i]])]
            && (Removable(prev[names[i]]) <==> names[i] !in names[..i] && Removable(nodes[names[i]]))
  {
    RemovedInStep(nodes, names, i);
  }

  // ---------------------------------------------------------------------
  // Choosing the attributes whose defaults `setDefaults` stores

  /** `listAttr(unlocked=True, k=True)` */
  predicate UnlockedKeyable(a: Attr) {
    !a.locked && a.keyable
  }

  /** `listAttr(unlocked=True, cb=True)` */
  predicate UnlockedChannelBox(a: Attr) {
    !a.locked && a.channelBox
  }

  /** `node.listAttr(**query)` over `names`: those, in order, whose
      attribute the query matches. */
  function AttrsMatching(n: Node, names: seq<string>, query: Attr -> bool): (r: seq<string>)
    requires forall a :: a in names ==> a in n.attrs
    ensures forall a :: a in r <==> a in names && query(n.attrs[a])
    ensures forall a :: a in r ==> a in n.attrs
  {
    if names == [] then []
    else (if query(n.attrs[names[0]]) then [names[0]] else []) + AttrsMatching(n, names[1..], query)
  }

  /** `[a for a in names if node.hasAttr(a)]` */
  function ExistingAttrs(n: Node, names: seq<string>): (r: seq<string>)
    ensures forall a :: a in r <==> a in names && HasAttr(n, a)
  {
    if names == [] then []
    else (if HasAttr(n, names[0]) then [names[0]] else []) + ExistingAttrs(n, names[1..])
  }

  /** An extra `listAttr` query: which ordinary attributes it lists, and,
      given the lock state of the node's string defaults attribute, whether
      it lists that one too (`ud=True` does, `k=True` does not). */
  datatype AttrQuery = AttrQuery(matches: Attr -> bool, matchesDefaults: bool -> bool)

  /** The options of `setDefaults`: extra attribute names, whether to list
      unlocked keyable and unlocked channel-box attributes, whether to use
      the channel-box selection instead, and an extra `listAttr` query. */
  datatype DefaultsOptions = DefaultsOptions(attrList: seq<string>, key: bool, nonkey: bool, cbsel: bool,
                                             attrQuery: Option<AttrQuery>)

  /** The extra query lists the node's defaults attribute. */
  predicate QueryListsDefaults(n: Node, opts: DefaultsOptions) {
    opts.attrQuery.Some? && n.defaults.Some? && opts.attrQuery.value.matchesDefaults(n.defaults.value.locked)
  }

  /** `getAttrs(node)` in `setDefaults`: the node's channel-box selection
      when `cbsel` is set; otherwise every listed query's attributes
      followed by the named attributes the node has. */
  function AttrsForDefaults(n: Node, name: string, opts: DefaultsOptions, selAttrs: map<string, seq<string>>)
    : (r: seq<string>)
    requires NodeValid(n)
    ensures opts.cbsel ==> r == if name in selAttrs then selAttrs[name] else []
    ensures !opts.cbsel ==> forall a :: a in r <==>
      || (a in n.attrs && opts.key && UnlockedKeyable(n.attrs[a]))
      || (a in n.attrs && opts.nonkey && UnlockedChannelBox(n.attrs[a]))
      || (a in n.attrs && opts.attrQuery.Some? && opts.attrQuery.value.matches(n.attrs[a]))
      || (a == DefaultsAttrName && QueryListsDefaults(n, opts))
      || (a in opts.attrList && HasAttr(n, a))
  {
    if opts.cbsel then (if name in selAttrs then selAttrs[name] else [])
    else
      (if opts.key then AttrsMatching(n, n.attrNames, UnlockedKeyable) else [])
      + (if opts.nonkey then AttrsMatching(n, n.attrNames, UnlockedChannelBox) else [])
      + (if opts.attrQuery.Some? then AttrsMatching(n, n.attrNames, opts.attrQuery.value.matches) else [])
      + (if QueryListsDefaults(n, opts) then [DefaultsAttrName] else [])
      + ExistingAttrs(n, opts.attrList)
  }

  /** What `setDefaults` does to one node given its chosen attributes:
      store their values, or, when none were chosen, remove the node's
      defaults. */
  function SetDefaultsOnNode(n: Node, attrs: seq<string>): (r: Node)
    ensures r.attrs == n.attrs && r.attrNames == n.attrNames
    ensures |attrs| > 0 && NodeValid(n) && Writable(n) ==> DefaultsOf(r) == Ok(Collected(n, set a | a in attrs))
    ensures |attrs| > 0 && !Writable(n) ==> r == n
    ensures |attrs| == 0 ==> r == RemovedDefaults(n) && (r.defaults.None? <==> n.defaults.None? || Removable(n))
  {
    if |attrs| > 0 then
      if NodeValid(n) && Writable(n) then
        StoreThenRead(n, set a | a in attrs);
        StoreDefaults(n, Collected(n, set a | a in attrs))
      else StoreDefaults(n, Collected(n, set a | a in attrs))
    else RemovedDefaults(n)
  }

  /** What `setDefaults` does to the node `name` when it is handled: its
      attributes are chosen, then stored or its defaults removed. */
  function ChosenStored(n: Node, name: string, opts: DefaultsOptions, selAttrs: map<string, seq<string>>): (r: Node)
    requires NodeValid(n)
    ensures NodeValid(r) && r.attrs == n.attrs && r.attrNames == n.attrNames
  {
    SetDefaultsOnNode(n, AttrsForDefaults(n, name, opts, selAttrs))
  }

  /** Choosing again on a node whose attributes are the same picks the same
      attributes, except perhaps the defaults attribute, which is chosen
      when the node has it and `attrList` names it or the query lists it. */
  lemma AttrsChosenAgain(n: Node, n1: Node, name: string, opts: DefaultsOptions, selAttrs: map<string, seq<string>>)
    requires NodeValid(n) && NodeValid(n1) && n1.attrs == n.attrs && n1.attrNames == n.attrNames
    ensures var attrs, attrs1 := AttrsForDefaults(n, name, opts, selAttrs), AttrsForDefaults(n1, name, opts, selAttrs);
      && (forall a :: a != DefaultsAttrName ==> (a in attrs1 <==> a in attrs))
      && (opts.cbsel ==> attrs1 == attrs)
      && (!opts.cbsel ==> (DefaultsAttrName in attrs <==>
                             (DefaultsAttrName in opts.attrList && n.defaults.Some?) || QueryListsDefaults(n, opts)))
      && (!opts.cbsel ==> (DefaultsAttrName in attrs1 <==>
                             (DefaultsAttrName in opts.attrList && n1.defaults.Some?) || QueryListsDefaults(n1, opts)))
  {
  }

  /** The defaults attribute is never collected. */
  lemma CollectedIgnoresDefaults(n: Node, n1: Node, names: set<string>, names1: set<string>)
    requires n1.attrs == n.attrs
    requires forall a :: a != DefaultsAttrName ==> (a in names1 <==> a in names)
    ensures Collected(n1, names1) == Collected(n, names)
  {
  }

  /** A query that lists only the node's defaults attribute (`ud=True` on a
      node with no other user-defined attribute) still counts as a choice:
      `{}` is stored and the defaults attribute stays. */
  lemma QueryOfDefaultsOnly(n: Node, name: string, q: AttrQuery, selAttrs: map<string, seq<string>>)
    requires NodeValid(n) && n.defaults.Some? && !n.defaults.value.locked
    requires forall a :: a in n.attrs ==> !q.matches(n.attrs[a])
    requires q.matchesDefaults(false)
    ensures var opts := DefaultsOptions([], false, false, false, Some(q));
      && AttrsForDefaults(n, name, opts, selAttrs) == [DefaultsAttrName]
      && ChosenStored(n, name, opts, selAttrs).defaults == Some(DefaultsAttr(Dict(map[]), false))
  {
    var opts := DefaultsOptions([], false, false, false, Some(q));
    NoneMatching(n, n.attrNames, q.matches);
    assert QueryListsDefaults(n, opts);
    assert ExistingAttrs(n, []) == [];
    var attrs := AttrsForDefaults(n, name, opts, selAttrs);
    assert attrs == [DefaultsAttrName];
    assert (set a | a in attrs) == {DefaultsAttrName};
    assert Collected(n, {DefaultsAttrName}).Keys == {};
  }

  /** A query matching none of the names lists nothing. */
  lemma {:induction false} NoneMatching(n: Node, names: seq<string>, query: Attr -> bool)
    requires forall a :: a in names ==> a in n.attrs && !query(n.attrs[a])
    ensures AttrsMatching(n, names, query) == []
  {
    if names != [] {
      NoneMatching(n, names[1..], query);
    }
  }

  /** Storing the same dictionary twice is storing it once. */
  lemma StoreTwice(n: Node, d: map<string, Value>)
    ensures StoreDefaults(StoreDefaults(n, d), d) == StoreDefaults(n, d)
  {
  }

  /** Choosing and storing again changes nothing: the attributes chosen the
      second time differ at most in the defaults attribute, which is never
      collected, and storing or removing twice is storing or removing once. */
  lemma ChosenStoredTwice(n: Node, name: string, opts: DefaultsOptions, selAttrs: map<string, seq<string>>)
    requires NodeValid(n)
    ensures var n1 := ChosenStored(n, name, opts, selAttrs);
            ChosenStored(n1, name, opts, selAttrs) == n1
  {
    var attrs := AttrsForDefaults(n, name, opts, selAttrs);
    var n1 := ChosenStored(n, name, opts, selAttrs);
    var attrs1 := AttrsForDefaults(n1, name, opts, selAttrs);
    AttrsChosenAgain(n, n1, name, opts, selAttrs);
    assert n1.defaults.Some? ==> n.defaults.Some? || |attrs| > 0;
    assert |attrs| > 0 ==> n.defaults.Some? ==> n1.defaults.Some?;
    if |attrs| > 0 {
      var b := attrs[0];
      assert b in attrs && b in attrs1;
      CollectedIgnoresDefaults(n, n1, set a | a in attrs, set a | a in attrs1);
      StoreTwice(n, Collected(n, set a | a in attrs));
    }
    if |attrs1| > 0 {
      var b := attrs1[0];
      assert b in attrs1;
      assert b in attrs || |attrs| > 0;
    }
  }

  /** `setDefaults` over `names`, one node after the other. Every listed
      node ends as `SetDefaultsOnNode` leaves it when handled alone, however
      often and in whatever order the nodes are listed. */
  function SetDefaultsAll(nodes: map<string, Node>, names: seq<string>, opts: DefaultsOptions,
                          selAttrs: map<string, seq<string>>): (r: map<string, Node>)
    requires forall m :: m in names ==> m in nodes
    requires forall m :: m in nodes ==> NodeValid(nodes[m])
    ensures r.Keys == nodes.Keys
    ensures forall m :: m in r ==> r[m].attrs == nodes[m].attrs && NodeValid(r[m])
    ensures forall m :: m in nodes && m !in names ==> r[m] == nodes[m]
    ensures forall m :: m in names ==> r[m] == ChosenStored(nodes[m], m, opts, selAttrs)
    decreases |names|
  {
    if names == [] then nodes
    else
      var m0 := names[0];
      var nodes1 := SetDefaultsStep(nodes, m0, opts, selAttrs);
      var r := SetDefaultsAll(nodes1, names[1..], opts, selAttrs);
      assert forall m :: m in names ==> r[m] == ChosenStored(nodes[m], m, opts, selAttrs) by {
        forall m | m in names ensures r[m] == ChosenStored(nodes[m], m, opts, selAttrs) {
          if m != m0 {
            assert m in names[1..];
          } else if m0 in names[1..] {
            ChosenStoredTwice(nodes[m0], m0, opts, selAttrs);
          }
        }
      }
      r
  }

  /** `setDefaults` on the one node `name`. */
  function SetDefaultsStep(nodes: map<string, Node>, name: string, opts: DefaultsOptions,
                           selAttrs: map<string, seq<string>>): (r: map<string, Node>)
    requires name in nodes
    requires forall m :: m in nodes ==> NodeValid(nodes[m])
    ensures r.Keys == nodes.Keys
    ensures forall m :: m in r ==> r[m].attrs == nodes[m].attrs && NodeValid(r[m])
    ensures forall m :: m in nodes && m != name ==> r[m] == nodes[m]
  {
    nodes[name := ChosenStored(nodes[name], name, opts, selAttrs)]
  }

  /** Each attribute `selAttrs` lists is the defaults attribute or an
      attribute of its node, and the node exists. */
  predicate RefsExist(nodes: map<string, Node>, selAttrs: map<string, seq<string>>) {
    forall o :: o in selAttrs ==> o in nodes && forall a :: a in selAttrs[o] ==> a == DefaultsAttrName || a in nodes[o].attrs
  }

  /** Replacing a node by one with the same attributes keeps the
      references valid. */
  lemma RefsExistUpdate(nodes: map<string, Node>, selAttrs: map<string, seq<string>>, name: string, n: Node)
    requires RefsExist(nodes, selAttrs) && name in nodes && n.attrs == nodes[name].attrs
    ensures RefsExist(nodes[name := n], selAttrs)
  {
  }

  /** `[node.attr(a) for a in attrs]` */
  function RefsOn(node: string, attrs: seq<string>): (r: seq<AttrRef>)
    ensures |r| == |attrs|
    ensures forall i :: 0 <= i < |r| ==> r[i] == AttrRef(node, attrs[i])
  {
    seq(|attrs|, i requires 0 <= i < |attrs| => AttrRef(node, attrs[i]))
  }

  lemma RefsOnNames(node: string, attrs: seq<string>)
    ensures NamesOn(RefsOn(node, attrs), node) == set a | a in attrs
  {
    var refs := RefsOn(node, attrs);
    forall a | a in attrs ensures a in NamesOn(refs, node) {
      var i :| 0 <= i < |attrs| && attrs[i] == a;
      assert refs[i] in refs;
    }
  }

  // ---------------------------------------------------------------------
  // The channel-box selection

  /** One section of the channel box (main, shape, outputs, history):
      whether it is queried, and what its object-list and
      selected-attribute queries return. */
  datatype ChannelBoxSection = ChannelBoxSection(enabled: bool, objects: Option<seq<string>>, selected: Option<seq<string>>)

  /** A section that adds to the selection. */
  predicate Contributes(s: ChannelBoxSection) {
    s.enabled && s.objects.Some? && s.selected.Some?
  }

  /** The objects the channel box lists are nodes of the scene. */
  predicate SectionsListNodes(sections: seq<ChannelBoxSection>, nodes: map<string, Node>) {
    forall i, o :: 0 <= i < |sections| && sections[i].objects.Some? && o in sections[i].objects.value ==> o in nodes
  }

  /** Every selected object is a node, and every selected attribute one it
      has. */
  predicate SelectionValid(sel: map<string, seq<string>>, nodes: map<string, Node>) {
    forall o :: o in sel ==> o in nodes && forall a :: a in sel[o] ==> HasAttr(nodes[o], a)
  }

  /** The entries of `r` are those of `result` extended by the attributes
      each object of `objs` has among `attrs`. */
  ghost predicate MergedFrom(r: map<string, seq<string>>, result: map<string, seq<string>>, objs: seq<string>,
                             attrs: seq<string>, nodes: map<string, Node>) {
    forall o, a :: o in r ==> MergedEntry(r, result, objs, attrs, nodes, o, a)
  }

  /** Attribute `a` is in the entry of `o` exactly when it was before or
      `o` is listed and has `a` among `attrs`. */
  predicate MergedEntry(r: map<string, seq<string>>, result: map<string, seq<string>>, objs: seq<string>,
                        attrs: seq<string>, nodes: map<string, Node>, o: string, a: string)
    requires o in r
  {
    a in r[o] <==> (o in result && a in result[o]) || (o in objs && o in nodes && a in attrs && HasAttr(nodes[o], a))
  }

  /** The inner loop: each listed object gets the selected attributes it
      has appended to its entry. */
  function MergeObjects(result: map<string, seq<string>>, objs: seq<string>, attrs: seq<string>,
                        nodes: map<string, Node>): (r: map<string, seq<string>>)
    requires forall o :: o in objs ==> o in nodes
    ensures forall o :: o in r <==> o in result || o in objs
    ensures forall o :: o in r && o !in objs ==> r[o] == result[o]
    ensures MergedFrom(r, result, objs, attrs, nodes)
    ensures SelectionValid(result, nodes) ==> SelectionValid(r, nodes)
    decreases |objs|
  {
    if objs == [] then result
    else
      var o := objs[|objs| - 1];
      var front := objs[..|objs| - 1];
      var prev := MergeObjects(result, front, attrs, nodes);
      assert forall x :: x in objs <==> x in front || x == o;
      MergedStep(prev, result, front, objs, o, attrs, nodes);
      prev[o := (if o in prev then prev[o] else []) + ExistingAttrs(nodes[o], attrs)]
  }

  lemma MergedStep(prev: map<string, seq<string>>, result: map<string, seq<string>>, front: seq<string>,
                   objs: seq<string>, o: string, attrs: seq<string>, nodes: map<string, Node>)
    requires o in nodes && forall x :: x in objs <==> x in front || x == o
    requires forall x :: x in prev <==> x in result || x in front
    requires MergedFrom(prev, result, front, attrs, nodes)
    ensures MergedFrom(prev[o := (if o in prev then prev[o] else []) + ExistingAttrs(nodes[o], attrs)],
                       result, objs, attrs, nodes)
  {
    var extra := ExistingAttrs(nodes[o], attrs);
    var r := prev[o := (if o in prev then prev[o] else []) + extra];
    forall p, a | p in r
      ensures MergedEntry(r, result, objs, attrs, nodes, p, a)
    {
      MergedAt(prev, result, front, objs, o, attrs, nodes, p, a);
    }
  }

  lemma MergedAt(prev: map<string, seq<string>>, result: map<string, seq<string>>, front: seq<string>,
                 objs: seq<string>, o: string, attrs: seq<string>, nodes: map<string, Node>, p: string, a: string)
    requires o in nodes && forall x :: x in objs <==> x in front || x == o
    requires forall x :: x in prev <==> x in result || x in front
    requires MergedFrom(prev, result, front, attrs, nodes)
    requires p in prev || p == o
    ensures var r := prev[o := (if o in prev then prev[o] else []) + ExistingAttrs(nodes[o], attrs)];
      MergedEntry(r, result, objs, attrs, nodes, p, a)
  {
    var extra := ExistingAttrs(nodes[o], attrs);
    ExtendedAt(prev, o, extra, p, a);
    assert a in extra <==> a in attrs && HasAttr(nodes[o], a);
    if p in prev {
      assert MergedEntry(prev, result, front, attrs, nodes, p, a);
    }
  }

  /** After `result[key].extend(items)` (from [] for a new key), an entry
      holds what it held and, for `key`, the items. */
  lemma ExtendedAt(result: map<string, seq<string>>, key: string, items: seq<string>, p: string, a: string)
    requires p in result || p == key
    ensures var r := result[key := (if key in result then result[key] else []) + items];
            a in r[p] <==> (p in result && a in result[p]) || (p == key && a in items)
  {
  }

  /** Merging one more object appends the attributes it has to its entry. */
  lemma MergeObjectsSnoc(result0: map<string, seq<string>>, objs: seq<string>, j: nat, attrs: seq<string>,
                         nodes: map<string, Node>)
    requires j < |objs| && forall o :: o in objs ==> o in nodes
    ensures var prev := MergeObjects(result0, objs[..j], attrs, nodes);
            MergeObjects(result0, objs[..j + 1], attrs, nodes)
              == prev[objs[j] := (if objs[j] in prev then prev[objs[j]] else []) + ExistingAttrs(nodes[objs[j]], attrs)]
  {
    ghost var seen := objs[..j + 1];
    assert seen[..j] == objs[..j];
  }

  /** `result.setdefault(key, []).extend(items)`, in the two steps the
      source takes. */
  method ExtendEntry(result0: map<string, seq<string>>, key: string, items: seq<string>)
    returns (result: map<string, seq<string>>)
    ensures result == result0[key := (if key in result0 then result0[key] else []) + items]
  {
    result := result0;
    if key !in result {
      result := result[key := []];
    }
    result := result[key := result[key] + items];
  }

  /** One section of `getChannelBoxSelection`: the loop over its objects. */
  method MergeSection(result0: map<string, seq<string>>, objs: seq<string>, attrs: seq<string>,
                      nodes: map<string, Node>)
    returns (result: map<string, seq<string>>)
    requires forall o :: o in objs ==> o in nodes
    ensures result == MergeObjects(result0, objs, attrs, nodes)
  {
    result := result0;
    for j := 0 to |objs|
      invariant result == MergeObjects(result0, objs[..j], attrs, nodes)
    {
      MergeObjectsSnoc(result0, objs, j, attrs, nodes);
      var pyobj := objs[j];
      result := ExtendEntry(result, pyobj, ExistingAttrs(nodes[pyobj], attrs));
    }
    assert objs[..|objs|] == objs;
  }

  /** `getChannelBoxSelection()`: for every contributing section, each
      listed object maps to the selected attributes it has, sections
      concatenated in order. */
  function ChannelBoxSelection(sections: seq<ChannelBoxSection>, nodes: map<string, Node>)
    : (r: map<string, seq<string>>)
    requires SectionsListNodes(sections, nodes)
    ensures SelectionValid(r, nodes)
    ensures forall o :: o in r <==> ListedIn(sections, o)
    ensures forall o, a :: o in r ==> SelectionEntry(r, sections, nodes, o, a)
    decreases |sections|
  {
    if sections == [] then map[]
    else
      var last := sections[|sections| - 1];
      var front := sections[..|sections| - 1];
      assert SectionsListNodes(front, nodes);
      var prev := ChannelBoxSelection(front, nodes);
      if Contributes(last) then
        assert forall o :: o in last.objects.value ==> o in nodes;
        var r := MergeObjects(prev, last.objects.value, last.selected.value, nodes);
        SelectionMerged(sections, nodes, prev, r);
        r
      else
        SelectionSkipped(sections, nodes, prev);
        prev
  }

  /** Some queried section lists object `o`. */
  predicate ListedIn(sections: seq<ChannelBoxSection>, o: string) {
    exists i :: 0 <= i < |sections| && Contributes(sections[i]) && o in sections[i].objects.value
  }

  lemma ListedInSnoc(sections: seq<ChannelBoxSection>)
    requires |sections| > 0
    ensures var front, last := sections[..|sections| - 1], sections[|sections| - 1];
            forall o :: ListedIn(sections, o) <==> ListedIn(front, o) || (Contributes(last) && o in last.objects.value)
  {
    var front, last := sections[..|sections| - 1], sections[|sections| - 1];
    forall o ensures ListedIn(sections, o) <==> ListedIn(front, o) || (Contributes(last) && o in last.objects.value) {
      if ListedIn(front, o) {
        var i :| 0 <= i < |front| && Contributes(front[i]) && o in front[i].objects.value;
        assert sections[i] == front[i];
      }
      if ListedIn(sections, o) {
        var i :| 0 <= i < |sections| && Contributes(sections[i]) && o in sections[i].objects.value;
        if i < |front| {
          assert sections[i] == front[i];
        }
      }
    }
  }

  /** The entry of `o` in `r` holds exactly the attributes selected for it. */
  predicate SelectionEntry(r: map<string, seq<string>>, sections: seq<ChannelBoxSection>, nodes: map<string, Node>,
                           o: string, a: string)
    requires o in r
  {
    a in r[o] <==> SelectedIn(sections, nodes, o, a)
  }

  /** Merging a contributing last section into the selection of the
      sections before it gives the selection of all of them. */
  lemma SelectionMerged(sections: seq<ChannelBoxSection>, nodes: map<string, Node>,
                        prev: map<string, seq<string>>, r: map<string, seq<string>>)
    requires |sections| > 0 && Contributes(sections[|sections| - 1])
    requires var front := sections[..|sections| - 1];
             && (forall o :: o in prev <==> ListedIn(front, o))
             && forall o, a :: o in prev ==> SelectionEntry(prev, front, nodes, o, a)
    requires var last := sections[|sections| - 1];
             && (forall o :: o in last.objects.value ==> o in nodes)
             && r == MergeObjects(prev, last.objects.value, last.selected.value, nodes)
    ensures forall o :: o in r <==> ListedIn(sections, o)
    ensures forall o, a :: o in r ==> SelectionEntry(r, sections, nodes, o, a)
  {
    var front, last := sections[..|sections| - 1], sections[|sections| - 1];
    ListedInSnoc(sections);
    SelectedInSnoc(sections, nodes);
    assert MergedFrom(r, prev, last.objects.value, last.selected.value, nodes);
    forall o, a | o in r ensures SelectionEntry(r, sections, nodes, o, a) {
      assert MergedEntry(r, prev, last.objects.value, last.selected.value, nodes, o, a);
      if o in prev {
        assert SelectionEntry(prev, front, nodes, o, a);
      }
      assert SelectedIn(front, nodes, o, a) ==> ListedIn(front, o);
    }
  }

  /** A last section that does not contribute leaves the selection as it is. */
  lemma SelectionSkipped(sections: seq<ChannelBoxSection>, nodes: map<string, Node>, prev: map<string, seq<string>>)
    requires |sections| > 0 && !Contributes(sections[|sections| - 1])
    requires var front := sections[..|sections| - 1];
             && (forall o :: o in prev <==> ListedIn(front, o))
             && forall o, a :: o in prev ==> SelectionEntry(prev, front, nodes, o, a)
    ensures forall o :: o in prev <==> ListedIn(sections, o)
    ensures forall o, a :: o in prev ==> SelectionEntry(prev, sections, nodes, o, a)
  {
    var front := sections[..|sections| - 1];
    ListedInSnoc(sections);
    SelectedInSnoc(sections, nodes);
    forall o, a | o in prev ensures SelectionEntry(prev, sections, nodes, o, a) {
      assert SelectionEntry(prev, front, nodes, o, a);
    }
  }

  /** Attribute `a` of object `o` is selected in some queried section that
      lists the object, and the object has it. */
  predicate SelectedIn(sections: seq<ChannelBoxSection>, nodes: map<string, Node>, o: string, a: string) {
    && o in nodes
    && exists i :: 0 <= i < |sections| && Contributes(sections[i]) && o in sections[i].objects.value
                   && a in sections[i].selected.value && HasAttr(nodes[o], a)
  }

  lemma SelectedInSnoc(sections: seq<ChannelBoxSection>, nodes: map<string, Node>)
    requires |sections| > 0
    ensures var front, last := sections[..|sections| - 1], sections[|sections| - 1];
            forall o, a :: SelectedIn(sections, nodes, o, a) <==>
              SelectedIn(front, nodes, o, a)
              || (o in nodes && Contributes(last) && o in last.objects.value && a in last.selected.value && HasAttr(nodes[o], a))
  {
    var front, last := sections[..|sections| - 1], sections[|sections| - 1];
    forall o, a ensures SelectedIn(sections, nodes, o, a) <==>
              SelectedIn(front, nodes, o, a)
              || (o in nodes && Contributes(last) && o in last.objects.value && a in last.selected.value && HasAttr(nodes[o], a)) {
      if SelectedIn(front, nodes, o, a) {
        var i :| 0 <= i < |front| && Contributes(front[i]) && o in front[i].objects.value
                 && a in front[i].selected.value && HasAttr(nodes[o], a);
        assert sections[i] == front[i];
      }
      if SelectedIn(sections, nodes, o, a) {
        var i :| 0 <= i < |sections| && Contributes(sections[i]) && o in sections[i].objects.value
                 && a in sections[i].selected.value && HasAttr(nodes[o], a);
        if i < |front| {
          assert sections[i] == front[i];
        }
      }
    }
  }

  lemma {:induction false} ChannelBoxSelectionStep(sections: seq<ChannelBoxSection>, nodes: map<string, Node>, i: nat)
    requires SectionsListNodes(sections, nodes)
    requires i < |sections|
    ensures SectionsListNodes(sections[..i], nodes) && SectionsListNodes(sections[..i + 1], nodes)
    ensures sections[i].objects.Some? ==> forall o :: o in sections[i].objects.value ==> o in nodes
    ensures ChannelBoxSelection(sections[..i + 1], nodes) ==
            if Contributes(sections[i]) then
              MergeObjects(ChannelBoxSelection(sections[..i], nodes), sections[i].objects.value,
                           sections[i].selected.value, nodes)
            else ChannelBoxSelection(sections[..i], nodes)
  {
    assert sections[..i + 1][..i] == sections[..i];
    if sections[i].objects.Some? {
      forall o | o in sections[i].objects.value ensures o in nodes {
        assert 0 <= i < |sections| && sections[i].objects.Some? && o in sections[i].objects.value;
      }
    }
  }

  // ---------------------------------------------------------------------
  // Resetting

  /** The argument of `reset`: a list of nodes, one node, or anything else. */
  datatype NodesArg = NodeList(names: seq<string>) | NodeName(name: string) | NotANode

  /** `[i+j for i in 'trs' for j in 'xyz']` */
  const TransformAttrs: seq<string> := ["tx", "ty", "tz", "rx", "ry", "rz", "sx", "sy", "sz"]

  /** The basic transform reset: each translate, rotate and scale channel
      the node has and can set, to 1 for scale and 0 otherwise. */
  function BasicDefaults(n: Node): map<string, Value> {
    map a | a in TransformAttrs && a in n.attrs && n.attrs[a].settable :: if 's' in a then Int(1) else Int(0)
  }

  /** The values a reset starts from: the stored defaults, or the basic
      transform reset when asked for and there are none. */
  function ResetTargets(n: Node, d: map<string, Value>, useBasicDefaults: bool): (r: map<string, Value>)
    ensures |d| > 0 ==> r == d
    ensures useBasicDefaults && |d| == 0 ==> r == BasicDefaults(n)
    ensures !useBasicDefaults ==> r == d
  {
    if useBasicDefaults && |d| == 0 then BasicDefaults(n) else d
  }

  /** The entries of `vals` for the attributes in `keep`. */
  function Trimmed(vals: map<string, Value>, keep: seq<string>): map<string, Value> {
    map a | a in vals && a in keep :: vals[a]
  }

  /** Setting each value on its attribute when the attribute is settable. */
  function WriteAll(n: Node, vals: map<string, Value>): (r: Node)
    ensures r.attrNames == n.attrNames && r.locked == n.locked && r.readOnly == n.readOnly
    ensures r.defaults == n.defaults && r.attrs.Keys == n.attrs.Keys
    ensures forall a :: a in n.attrs && a in vals && n.attrs[a].settable ==>
              r.attrs[a] == n.attrs[a].(value := Some(vals[a]))
    ensures forall a :: a in n.attrs && (a !in vals || !n.attrs[a].settable) ==> r.attrs[a] == n.attrs[a]
  {
    n.(attrs := map a | a in n.attrs ::
                  if a in vals && n.attrs[a].settable then n.attrs[a].(value := Some(vals[a])) else n.attrs[a])
  }

  /** The attributes a reset of node `name` is limited to: none when the
      channel box is not used, the node's selected attributes otherwise. */
  function KeepFor(selection: Option<map<string, seq<string>>>, name: string): Option<seq<string>> {
    match selection
    case None => None
    case Some(sel) => Some(if name in sel then sel[name] else [])
  }

  /** Resetting one node: read its defaults, fall back to the basic reset,
      trim to the channel-box selection, write what is settable. */
  function ResetNode(n: Node, useBasicDefaults: bool, keep: Option<seq<string>>): Result<Node> {
    match DefaultsOf(n)
    case Err(e) => Err(e)
    case Ok(d) =>
      var targets := ResetTargets(n, d, useBasicDefaults);
      Ok(WriteAll(n, if keep.Some? then Trimmed(targets, keep.value) else targets))
  }

  /** `reset` over `names`, one node after the other, stopping at the first
      node whose defaults cannot be read. */
  function ResetAll(nodes: map<string, Node>, names: seq<string>, useBasicDefaults: bool,
                    selection: Option<map<string, seq<string>>>): (r: (map<string, Node>, Outcome))
    requires forall m :: m in names ==> m in nodes
    ensures r.0.Keys == nodes.Keys
    ensures forall m :: m in nodes && m !in names ==> r.0[m] == nodes[m]
    ensures forall m :: m in nodes ==> r.0[m].attrNames == nodes[m].attrNames && r.0[m].defaults == nodes[m].defaults
    ensures forall m :: m in nodes ==> r.0[m].attrs.Keys == nodes[m].attrs.Keys
    decreases |names|
  {
    if names == [] then (nodes, Pass)
    else
      match ResetNode(nodes[names[0]], useBasicDefaults, KeepFor(selection, names[0]))
      case Err(e) => (nodes, Fail(e))
      case Ok(n) => ResetAll(nodes[names[0] := n], names[1..], useBasicDefaults, selection)
  }

  /** `reset` keeps its promise for every node of a list without repeats:
      when it passes, each listed node is its own reset; when it fails,
      the error is that of some listed node whose defaults cannot be read. */
  lemma {:induction false} ResetAllResets(nodes: map<string, Node>, names: seq<string>, useBasicDefaults: bool,
                                          selection: Option<map<string, seq<string>>>)
    requires forall m :: m in names ==> m in nodes
    ensures var r := ResetAll(nodes, names, useBasicDefaults, selection);
      NoDup(names) && r.1.Pass? ==>
        forall m :: m in names ==> ResetNode(nodes[m], useBasicDefaults, KeepFor(selection, m)) == Ok(r.0[m])
    ensures var r := ResetAll(nodes, names, useBasicDefaults, selection);
      NoDup(names) && r.1.Fail? ==>
        exists m :: m in names && ResetNode(nodes[m], useBasicDefaults, KeepFor(selection, m)) == Err(r.1.error)
    decreases |names|
  {
    if names != [] && NoDup(names) {
      var h, t := names[0], names[1..];
      match ResetNode(nodes[h], useBasicDefaults, KeepFor(selection, h))
      case Err(e) =>
      case Ok(n) =>
        var nodes' := nodes[h := n];
        assert h !in t by {
          forall j | 0 <= j < |t| ensures t[j] != h { assert names[j + 1] == t[j]; }
        }
        assert NoDup(t) by {
          forall i, j | 0 <= i < j < |t| ensures t[i] != t[j] { assert names[i + 1] == t[i] && names[j + 1] == t[j]; }
        }
        ResetAllResets(nodes', t, useBasicDefaults, selection);
        forall m | m in t ensures nodes'[m] == nodes[m] { }
    }
  }

  /** The loop adding the basic transform reset values. */
  method BasicResetValues(n: Node) returns (vals: map<string, Value>)
    ensures forall a :: a in vals <==> a in TransformAttrs && a in n.attrs && n.attrs[a].settable
    ensures forall a :: a in vals ==> vals[a] == if a[0] == 's' then Int(1) else Int(0)
    ensures vals == BasicDefaults(n)
  {
    vals := ChannelResets(n, TransformAttrs);
    ScaleChannelsStartWithS();
  }

  /** The loop over a list of channels, keeping those the node has and can
      set, each mapped to 1 for a scale channel and 0 otherwise. */
  method ChannelResets(n: Node, channels: seq<string>) returns (vals: map<string, Value>)
    ensures vals == map a | a in channels && a in n.attrs && n.attrs[a].settable ::
                       if 's' in a then Int(1) else Int(0)
  {
    vals := map[];
    for i := 0 to |channels|
      invariant vals == map a | a in channels[..i] && a in n.attrs && n.attrs[a].settable ::
                          if 's' in a then Int(1) else Int(0)
    {
      var a := channels[i];
      if a in n.attrs && n.attrs[a].settable {
        vals := vals[a := if 's' in a then Int(1) else Int(0)];
      }
      assert channels[..i + 1] == channels[..i] + [a];
    }
    assert channels[..|channels|] == channels;
  }

  /** Among the transform channels, the scale ones are exactly those
      whose name starts with `s`. */
  lemma ScaleChannelsStartWithS()
    ensures forall a :: a in TransformAttrs ==> |a| > 0 && ('s' in a <==> a[0] == 's')
  {
  }

  /** The loop deleting every value whose attribute is not in `keep`. */
  method TrimToSelection(vals: map<string, Value>, keep: seq<string>) returns (trimmed: map<string, Value>)
    ensures trimmed.Keys == vals.Keys * (set a | a in keep)
    ensures forall a :: a in trimmed ==> trimmed[a] == vals[a]
    ensures trimmed == Trimmed(vals, keep)
  {
    trimmed := vals;
    var delAttrs := set a | a in vals && a !in keep;
    while delAttrs != {}
      invariant delAttrs <= vals.Keys
      invariant forall a :: a in delAttrs ==> a !in keep
      invariant trimmed == map a | a in vals && (a in keep || a in delAttrs) :: vals[a]
      decreases delAttrs
    {
      var a :| a in delAttrs;
      delAttrs := delAttrs - {a};
      trimmed := map k | k in trimmed && k != a :: trimmed[k];
    }
  }

  /** The entries of `vals` whose attribute is in `done`. */
  function Restrict(vals: map<string, Value>, done: set<string>): map<string, Value> {
    map a | a in vals && a in done :: vals[a]
  }

  lemma {:induction false} WriteAllStep(n: Node, vals: map<string, Value>, done: set<string>, a: string)
    requires a in vals && a !in done && a in n.attrs
    ensures var m := WriteAll(n, Restrict(vals, done));
            WriteAll(n, Restrict(vals, done + {a})) ==
              if n.attrs[a].settable then m.(attrs := m.attrs[a := m.attrs[a].(value := Some(vals[a]))]) else m
  {
    var v := Restrict(vals, done);
    assert Restrict(vals, done + {a}) == v[a := vals[a]];
    WriteAllUpdate(n, v, a, vals[a]);
  }

  lemma WriteAllUpdate(n: Node, v: map<string, Value>, a: string, x: Value)
    requires a in n.attrs
    ensures var m := WriteAll(n, v);
            WriteAll(n, v[a := x]) ==
              if n.attrs[a].settable then m.(attrs := m.attrs[a := m.attrs[a].(value := Some(x))]) else m
  {
    if n.attrs[a].settable {
      WriteAllUpdateSettable(n, v, a, x);
    } else {
      WriteAllUpdateFixed(n, v, a, x);
    }
  }

  lemma WriteAllUpdateSettable(n: Node, v: map<string, Value>, a: string, x: Value)
    requires a in n.attrs && n.attrs[a].settable
    ensures WriteAll(n, v[a := x]).attrs == WriteAll(n, v).attrs[a := n.attrs[a].(value := Some(x))]
  {
    var m := WriteAll(n, v).attrs;
    var m' := WriteAll(n, v[a := x]).attrs;
    forall k | k in m'
      ensures m'[k] == m[a := n.attrs[a].(value := Some(x))][k]
    {
    }
  }

  lemma WriteAllUpdateFixed(n: Node, v: map<string, Value>, a: string, x: Value)
    requires a in n.attrs && !n.attrs[a].settable
    ensures WriteAll(n, v[a := x]).attrs == WriteAll(n, v).attrs
  {
    var m := WriteAll(n, v).attrs;
    var m' := WriteAll(n, v[a := x]).attrs;
    forall k | k in m'
      ensures m'[k] == m[k]
    {
    }
  }

  /** The loop of `reset` that sets each value on its attribute when the
      attribute is settable. */
  method WriteNode(n0: Node, vals: map<string, Value>) returns (n: Node)
    requires forall a :: a in vals ==> a in n0.attrs
    ensures n == WriteAll(n0, vals)
  {
    n := n0;
    var pending := vals.Keys;
    ghost var done: set<string> := {};
    assert Restrict(vals, done) == map[];
    assert WriteAll(n0, map[]).attrs == n0.attrs;
    while pending != {}
      invariant pending <= vals.Keys && done == vals.Keys - pending
      invariant n == WriteAll(n0, Restrict(vals, done))
      decreases pending
    {
      var a :| a in pending;
      WriteAllStep(n0, vals, done, a);
      pending := pending - {a};
      done := done + {a};
      var attr := n.attrs[a];
      if attr.settable {
        n := n.(attrs := n.attrs[a := attr.(value := Some(vals[a]))]);
      }
    }
    assert Restrict(vals, done) == vals;
  }

  /** Whether `reset` limits itself to the channel-box selection. */
  function ResetSelection(useCBSelection: bool, selAttrs: map<string, seq<string>>): Option<map<string, seq<string>>> {
    if useCBSelection && |selAttrs| > 0 then Some(selAttrs) else None
  }

  /** The nodes named by a `reset` argument. */
  function ArgNames(arg: NodesArg): seq<string>
    requires !arg.NotANode?
  {
    if arg.NodeList? then arg.names else [arg.name]
  }

  /** A node left out of a non-empty channel-box selection is not changed
      by a reset (its defaults may still fail to read). */
  lemma UnselectedNodeUntouched(n: Node, useBasicDefaults: bool, sel: map<string, seq<string>>, name: string)
    requires name !in sel
    ensures ResetNode(n, useBasicDefaults, KeepFor(Some(sel), name)).Ok? ==>
            ResetNode(n, useBasicDefaults, KeepFor(Some(sel), name)) == Ok(n)
  {
    if DefaultsOf(n).Ok? {
      var targets := ResetTargets(n, DefaultsOf(n).value, useBasicDefaults);
      assert Trimmed(targets, []) == map[];
      assert WriteAll(n, map[]).attrs == n.attrs;
    }
  }

  // ---------------------------------------------------------------------
  // The scene

  /** The nodes of the scene, by name. */
  class Scene {
    var nodes: map<string, Node>

    predicate Valid()
      reads this
    {
      forall name :: name in nodes ==> NodeValid(nodes[name])
    }

    /** `attr` refers to an attribute of an existing node. References to
        the defaults attribute are skipped wherever they are used, so they
        are accepted whether or not the node has one. */
    predicate AttrExists(attr: AttrRef)
      reads this
    {
      attr.node in nodes && (attr.name == DefaultsAttrName || attr.name in nodes[attr.node].attrs)
    }

    constructor (initial: map<string, Node>)
      requires forall name :: name in initial ==> NodeValid(initial[name])
      ensures Valid() && nodes == initial
    {
      nodes := initial;
    }

    /** `getDefaultsAttr(node, create)`: whether the node has the defaults
        attribute, after creating it (holding `{}`) when `create` is set and
        the node is neither locked nor read-only. */
    method GetDefaultsAttr(name: string, create: bool) returns (r: Result<bool>)
      requires Valid()
      modifies this
      ensures Valid()
      ensures name !in old(nodes) ==> r == Err(NodeNotFound) && nodes == old(nodes)
      ensures name in old(nodes) ==>
        var n := old(nodes)[name];
        var created := create && n.defaults.None? && !n.locked && !n.readOnly;
        && r == Ok(n.defaults.Some? || created)
        && nodes == if created then old(nodes)[name := n.(defaults := Some(DefaultsAttr(Dict(map[]), false)))]
                    else old(nodes)
    {
      if name !in nodes {
        return Err(NodeNotFound);
      }
      var n := nodes[name];
      if create && n.defaults.None? {
        if n.readOnly || n.locked {
          return Ok(false);
        }
        nodes := nodes[name := n.(defaults := Some(DefaultsAttr(Dict(map[]), false)))];
      }
      return Ok(nodes[name].defaults.Some?);
    }

    /** `getDefaults(node)`: the stored defaults of a node, validated and
        filtered; `{}` when there are none or they are not a dictionary. */
    method GetDefaults(name: string) returns (r: Result<map<string, Value>>)
      requires Valid()
      ensures name !in nodes ==> r == Err(NodeNotFound)
      ensures name in nodes ==> r == DefaultsOf(nodes[name])
      ensures name in nodes && (nodes[name].defaults.None? || nodes[name].defaults.value.stored.NotADict?) ==>
                r == Ok(map[])
      ensures r.Ok? ==> DefaultsAttrName !in r.value && forall k :: k in r.value ==> k in nodes[name].attrs
    {
      if name !in nodes {
        return Err(NodeNotFound);
      }
      var n := nodes[name];
      if n.defaults.None? || n.defaults.value.stored.NotADict? {
        return Ok(map[]);
      }
      r := RestoreDefaults(n, n.defaults.value.stored.entries);
    }

    /** The loop of `setDefaultsForAttrs` that reads the current values of
        the attributes of `node`, skipping the defaults attribute and
        attributes whose value cannot be read. */
    method CollectDefaults(refs: seq<AttrRef>, node: string) returns (d: map<string, Value>)
      requires Valid()
      requires forall i :: 0 <= i < |refs| ==> AttrExists(refs[i])
      requires node in nodes
      ensures d == Collected(nodes[node], NamesOn(refs, node))
    {
      var n := nodes[node];
      d := map[];
      for i := 0 to |refs|
        invariant d == Collected(n, NamesOn(refs[..i], node))
      {
        NamesOnStep(refs, node, i);
        var attr := refs[i];
        if attr.name == DefaultsAttrName {
          continue;
        }
        if attr.node == node {
          CollectedAdd(n, NamesOn(refs[..i], node), attr.name);
          var v := n.attrs[attr.name].value;
          if v.Some? {
            d := d[attr.name := v.value];
          }
        }
      }
      assert refs[..|refs|] == refs;
    }

    /** `setDefaultsForAttrs(attrs)`: stores the current values of the given
        attributes of the first attribute's node as that node's defaults.
        Attributes of other nodes and the defaults attribute are skipped;
        nothing is written when the defaults attribute is locked or cannot
        be created. */
    method SetDefaultsForAttrs(attrs: Option<seq<AttrRef>>) returns (r: Outcome)
      requires Valid()
      requires attrs.Some? ==> forall i :: 0 <= i < |attrs.value| ==> AttrExists(attrs.value[i])
      modifies this
      ensures Valid()
      ensures attrs.None? ==> r == Pass && nodes == old(nodes)
      ensures attrs == Some([]) ==> r == Fail(IndexError) && nodes == old(nodes)
      ensures attrs.Some? && attrs.value != [] ==>
        var node := attrs.value[0].node;
        && r == Pass
        && node in old(nodes)
        && nodes == old(nodes)[node := StoreDefaults(old(nodes)[node], Collected(old(nodes)[node], NamesOn(attrs.value, node)))]
    {
      if attrs.None? {
        return Pass;
      }
      var refs := attrs.value;
      if |refs| == 0 {
        return Fail(IndexError);
      }
      var node := refs[0].node;
      var defaults := CollectDefaults(refs, node);
      WriteDefaults(node, defaults);
      return Pass;
    }

    /** The store step of `setDefaultsForAttrs`: fetch or create the
        defaults attribute of `node` and write `defaults` into it unless it
        is locked. */
    method WriteDefaults(node: string, defaults: map<string, Value>)
      requires Valid() && node in nodes
      modifies this
      ensures Valid()
      ensures nodes == old(nodes)[node := StoreDefaults(old(nodes)[node], defaults)]
    {
      var present := GetDefaultsAttr(node, true);
      if !present.value {
        // the node is locked or read-only: warn and write nothing
        return;
      }
      var n := nodes[node];
      if n.defaults.value.locked {
        return;
      }
      nodes := nodes[node := n.(defaults := Some(n.defaults.value.(stored := Dict(defaults))))];
    }

    /** `removeDefaults(nodes)`: deletes the defaults of every listed node
        that is neither locked nor read-only, and returns exactly the nodes
        whose defaults were deleted. */
    method RemoveDefaults(names: seq<string>) returns (removed: seq<string>)
      requires Valid()
      requires forall m :: m in names ==> m in nodes
      modifies this
      ensures Valid()
      ensures nodes == RemovedIn(old(nodes), names)
      ensures forall m :: m in removed <==> m in names && Removable(old(nodes)[m])
      ensures NoDup(removed)
    {
      removed := [];
      for i := 0 to |names|
        invariant Valid()
        invariant nodes == RemovedIn(old(nodes), names[..i])
        invariant forall m :: m in removed <==> m in names[..i] && Removable(old(nodes)[m])
        invariant NoDup(removed)
      {
        var name := names[i];
        RemovedInSnoc(old(nodes), names, i);
        ghost var seen := names[..i];
        assert names[..i + 1] == seen + [name];
        var did := RemoveDefaultsOf(name);
        if did {
          assert name !in removed;
          removed := removed + [name];
        }
      }
      assert names[..|names|] == names;
    }

    /** `getObjectsWithDefaults(nodes)`: the listed nodes that have a
        defaults attribute, in order. */
    function ObjectsWithDefaults(names: seq<string>): (r: seq<string>)
      reads this
      requires forall m :: m in names ==> m in nodes
      ensures forall m :: m in r <==> m in names && HasAttr(nodes[m], DefaultsAttrName)
      ensures |r| <= |names|
    {
      if names == [] then []
      else (if HasAttr(nodes[names[0]], DefaultsAttrName) then [names[0]] else []) + ObjectsWithDefaults(names[1..])
    }

    /** `getChannelBoxSelection()`: the selected attributes of each object
        listed by a contributing channel-box section. */
    method GetChannelBoxSelection(sections: seq<ChannelBoxSection>) returns (result: map<string, seq<string>>)
      requires SectionsListNodes(sections, nodes)
      ensures result == ChannelBoxSelection(sections, nodes)
    {
      result := map[];
      for i := 0 to |sections|
        invariant result == ChannelBoxSelection(sections[..i], nodes)
      {
        ChannelBoxSelectionStep(sections, nodes, i);
        var section := sections[i];
        if section.enabled && section.objects.Some? && section.selected.Some? {
          result := MergeSection(result, section.objects.value, section.selected.value, nodes);
        }
      }
      assert sections[..|sections|] == sections;
    }

    /** The channel-box selection names attributes of existing nodes. */
    predicate SelectionRefsExist(selAttrs: map<string, seq<string>>)
      reads this
    {
      RefsExist(nodes, selAttrs)
    }

    /** `setDefaults(nodes, attrList, key, nonkey, cbsel, attrQuery)`: for
        each node, stores the defaults of the chosen attributes, or removes
        its defaults when no attribute was chosen. */
    method SetDefaults(names: seq<string>, opts: DefaultsOptions, channelBox: seq<ChannelBoxSection>)
      requires Valid()
      requires forall m :: m in names ==> m in nodes
      requires SectionsListNodes(channelBox, nodes)
      modifies this
      ensures Valid()
      ensures nodes == SetDefaultsAll(old(nodes), names, opts, ChannelBoxSelection(channelBox, old(nodes)))
    {
      if |names| == 0 {
        return;
      }
      var selAttrs := GetChannelBoxSelection(channelBox);
      for i := 0 to |names|
        invariant Valid()
        invariant nodes.Keys == old(nodes).Keys
        invariant forall m :: m in nodes ==> nodes[m].attrs == old(nodes)[m].attrs
        invariant SelectionRefsExist(selAttrs)
        invariant SetDefaultsAll(nodes, names[i..], opts, selAttrs) == SetDefaultsAll(old(nodes), names, opts, selAttrs)
      {
        assert names[i..][1..] == names[i + 1..];
        SetDefaultsOn(names[i], opts, selAttrs);
      }
    }

    /** One node of `setDefaults`. */
    method SetDefaultsOn(name: string, opts: DefaultsOptions, selAttrs: map<string, seq<string>>)
      requires Valid() && name in nodes && SelectionRefsExist(selAttrs)
      modifies this
      ensures Valid() && SelectionRefsExist(selAttrs)
      ensures nodes == SetDefaultsStep(old(nodes), name, opts, selAttrs)
    {
      var n := nodes[name];
      var attrs := AttrsForDefaults(n, name, opts, selAttrs);
      ChosenAttrsExist(name, opts, selAttrs);
      if |attrs| > 0 {
        StoreChosen(name, attrs);
      } else {
        var _ := RemoveDefaultsOf(name);
      }
      RefsExistUpdate(old(nodes), selAttrs, name, nodes[name]);
    }

    /** `removeDefaults` on the single node `name`: reports whether its
        defaults were deleted. */
    method RemoveDefaultsOf(name: string) returns (did: bool)
      requires Valid() && name in nodes
      modifies this
      ensures Valid()
      ensures did == Removable(old(nodes)[name])
      ensures nodes == old(nodes)[name := RemovedDefaults(old(nodes)[name])]
    {
      var n := nodes[name];
      if n.readOnly || n.locked {
        return false;
      }
      var dattr := GetDefaultsAttr(name, false);
      did := dattr.value;
      if did {
        nodes := nodes[name := n.(defaults := None)];
      }
    }

    lemma ChosenAttrsExist(name: string, opts: DefaultsOptions, selAttrs: map<string, seq<string>>)
      requires Valid() && name in nodes && SelectionRefsExist(selAttrs)
      ensures forall a :: a in AttrsForDefaults(nodes[name], name, opts, selAttrs) ==> AttrExists(AttrRef(name, a))
    {
    }

    /** `setDefaultsForAttrs` on the chosen attributes of one node. */
    method StoreChosen(name: string, attrs: seq<string>)
      requires Valid() && name in nodes && |attrs| > 0
      requires forall a :: a in attrs ==> AttrExists(AttrRef(name, a))
      modifies this
      ensures Valid()
      ensures nodes == old(nodes)[name := StoreDefaults(old(nodes)[name], Collected(old(nodes)[name], set a | a in attrs))]
    {
      var refs := RefsOn(name, attrs);
      RefsOnNames(name, attrs);
      assert forall i :: 0 <= i < |refs| ==> refs[i].name in attrs;
      var _ := SetDefaultsForAttrs(Some(refs));
    }

    /** The writes of `reset` on node `name`. */
    method WriteValues(name: string, vals: map<string, Value>)
      requires Valid() && name in nodes
      requires forall a :: a in vals ==> a in nodes[name].attrs
      modifies this
      ensures Valid()
      ensures nodes == old(nodes)[name := WriteAll(old(nodes)[name], vals)]
    {
      var n := WriteNode(nodes[name], vals);
      nodes := nodes[name := n];
    }

    /** One node of `reset`. */
    method ResetOne(name: string, useBasicDefaults: bool, keep: Option<seq<string>>) returns (r: Outcome)
      requires Valid() && name in nodes
      modifies this
      ensures Valid()
      ensures ResetNode(old(nodes)[name], useBasicDefaults, keep).Err? ==>
                r == Fail(ResetNode(old(nodes)[name], useBasicDefaults, keep).error) && nodes == old(nodes)
      ensures ResetNode(old(nodes)[name], useBasicDefaults, keep).Ok? ==>
                r == Pass && nodes == old(nodes)[name := ResetNode(old(nodes)[name], useBasicDefaults, keep).value]
    {
      var defaults := GetDefaults(name);
      if defaults.Err? {
        return Fail(defaults.error);
      }
      var vals := defaults.value;
      if useBasicDefaults && |vals| == 0 {
        vals := BasicResetValues(nodes[name]);
      }
      if keep.Some? {
        vals := TrimToSelection(vals, keep.value);
      }
      WriteValues(name, vals);
      return Pass;
    }

    /** `reset(nodes, useBasicDefaults, useCBSelection)`: resets each node to
        its stored defaults, or to the basic transform values when it has
        none and `useBasicDefaults` is set, limited to the node's selected
        attributes when the channel box is used and has a selection. */
    method Reset(arg: NodesArg, useBasicDefaults: bool, useCBSelection: bool, channelBox: seq<ChannelBoxSection>)
      returns (r: Outcome)
      requires Valid() && SectionsListNodes(channelBox, nodes)
      modifies this
      ensures Valid()
      ensures arg.NotANode? ==> r == Fail(TypeError) && nodes == old(nodes)
      ensures !arg.NotANode? && (exists m :: m in ArgNames(arg) && m !in old(nodes)) ==>
                r == Fail(NodeNotFound) && nodes == old(nodes)
      ensures !arg.NotANode? && (forall m :: m in ArgNames(arg) ==> m in old(nodes)) ==>
                (nodes, r) == ResetAll(old(nodes), ArgNames(arg), useBasicDefaults,
                                       ResetSelection(useCBSelection, ChannelBoxSelection(channelBox, old(nodes))))
    {
      if arg.NotANode? {
        return Fail(TypeError);
      }
      var names := if arg.NodeList? then arg.names else [arg.name];
      var found := CheckNodes(names);
      if !found {
        return Fail(NodeNotFound);
      }
      var selAttrs := GetChannelBoxSelection(channelBox);
      var selection := ResetSelection(useCBSelection, selAttrs);
      r := ResetEach(names, useBasicDefaults, selection);
    }

    /** Whether every name is a node of the scene (`PyNode` raises otherwise). */
    method CheckNodes(names: seq<string>) returns (found: bool)
      ensures found <==> forall m :: m in names ==> m in nodes
    {
      for i := 0 to |names|
        invariant forall m :: m in names[..i] ==> m in nodes
      {
        if names[i] !in nodes {
          return false;
        }
        assert names[..i + 1] == names[..i] + [names[i]];
      }
      assert names[..|names|] == names;
      return true;
    }

    /** The loop of `reset`: each node in turn, stopping at the first error. */
    method ResetEach(names: seq<string>, useBasicDefaults: bool, selection: Option<map<string, seq<string>>>)
      returns (r: Outcome)
      requires Valid() && forall m :: m in names ==> m in nodes
      modifies this
      ensures Valid()
      ensures (nodes, r) == ResetAll(old(nodes), names, useBasicDefaults, selection)
    {
      for i := 0 to |names|
        invariant Valid() && nodes.Keys == old(nodes).Keys
        invariant ResetAll(nodes, names[i..], useBasicDefaults, selection) ==
                  ResetAll(old(nodes), names, useBasicDefaults, selection)
      {
        assert names[i..][1..] == names[i + 1..];
        r := ResetOne(names[i], useBasicDefaults, KeepFor(selection, names[i]));
        if r.Fail? {
          return;
        }
      }
      return Pass;
    }
  }
}
