/** The quick-menus core: a registry of marking-menu classes by menu name,
    the build/destroy life cycle that runs on hotkey press and release, and
    the hotkey bookkeeping (runtime-command ids, hotkey-set choice, key
    bindings) in the host. */
module QuickMenusCore {
  import opened Base
  import opened QuickMenuUtils
  import RmbMenuHook

  // ---------------------------------------------------------------------
  // Menu classes

  /** What a registered class is: a plain `MarkingMenu` subclass, an
      `rmbmenuhook.Menu` subclass, or an `RMBMarkingMenu` subclass (itself an
      `rmbmenuhook.Menu`). */
  datatype MenuKind = Marking | RmbHook | RmbMarking

  /** A menu class, identified by name; `popupMenuId` is what its instances
      set in their initialiser (None when a subclass forgets to). */
  datatype MenuClass = MenuClass(name: string, kind: MenuKind, popupMenuId: Option<string>)

  /** `issubclass(cls, rmbmenuhook.Menu)` */
  predicate IsRmbMenu(cls: MenuClass) {
    cls.kind != Marking
  }

  /** The `if not self.popupMenuId` guard: None and "" are both unset. */
  predicate HasPopupMenuId(cls: MenuClass) {
    cls.popupMenuId.Some? && cls.popupMenuId.value != ""
  }

  // ---------------------------------------------------------------------
  // Registry of menu classes by name

  type MenuRegistry = map<string, seq<MenuClass>>

  /** What registration keeps true: no name maps to an empty or duplicated
      list of classes. */
  predicate RegistryValid(reg: MenuRegistry) {
    forall n :: n in reg ==> reg[n] != [] && NoDup(reg[n])
  }

  /** `list.remove(x)` when `x` is present (removes its first occurrence),
      nothing otherwise. */
  function RemoveFirst(s: seq<MenuClass>, x: MenuClass): (r: seq<MenuClass>)
    ensures x !in s ==> r == s
    ensures x in s ==> |r| == |s| - 1
    ensures forall c :: c in r ==> c in s
    ensures forall c :: c in s && c != x ==> c in r
    ensures NoDup(s) ==> NoDup(r) && x !in r
  {
    if s == [] then []
    else if s[0] == x then s[1..]
    else
      var r := [s[0]] + RemoveFirst(s[1..], x);
      assert NoDup(s) ==> NoDup(s[1..]) && s[0] !in s[1..] by {
        if NoDup(s) {
          forall i, j | 0 <= i < j < |s[1..]| ensures s[1..][i] != s[1..][j] {
            assert s[1..][i] == s[i + 1] && s[1..][j] == s[j + 1];
          }
        }
      }
      r
  }

  /** `getRegisteredMenus`: a copy of the name's classes, or []. In a valid
      registry the list is empty exactly for an unknown name and never holds
      a class twice. */
  function RegisteredMenus(reg: MenuRegistry, name: string): (r: seq<MenuClass>)
    ensures name in reg ==> r == reg[name]
    ensures name !in reg ==> r == []
    ensures RegistryValid(reg) ==> NoDup(r) && (r == [] <==> name !in reg)
  {
    if name in reg then reg[name] else []
  }

  /** `registerMenu`: adds `cls` to the name's classes unless it is already
      there. The source rebuilds the list through a set, so its order is
      unspecified; this model keeps the existing order and appends. */
  function RegisterIn(reg: MenuRegistry, name: string, cls: MenuClass): (r: MenuRegistry)
    ensures r.Keys == reg.Keys + {name}
    ensures forall n :: n in reg && n != name ==> r[n] == reg[n]
    ensures forall c :: c in r[name] <==> c in RegisteredMenus(reg, name) || c == cls
    ensures RegistryValid(reg) ==> RegistryValid(r)
    ensures cls in RegisteredMenus(reg, name) ==> r == reg
  {
    var existing := RegisteredMenus(reg, name);
    if cls in existing then reg
    else
      var r := reg[name := existing + [cls]];
      assert RegistryValid(reg) ==> NoDup(existing + [cls]) by {
        if RegistryValid(reg) {
          forall i, j | 0 <= i < j < |existing + [cls]| ensures (existing + [cls])[i] != (existing + [cls])[j] {
            if j == |existing| {
              assert (existing + [cls])[i] == existing[i];
            }
          }
        }
      }
      r
  }

  /** `unregisterMenu`: without `cls` and without `all` it is a ValueError;
      `all` drops every class of the name, otherwise `cls` is removed; a
      name left without classes is deleted. */
  function UnregisterIn(reg: MenuRegistry, name: string, cls: Option<MenuClass>, all: bool): (r: Result<MenuRegistry>)
    ensures r.Err? <==> cls.None? && !all
    ensures r.Err? ==> r.error == ValueError
    ensures r.Ok? && name !in reg ==> r.value == reg
    ensures r.Ok? ==> r.value.Keys <= reg.Keys
    ensures r.Ok? ==> forall n :: n in reg && n != name ==> n in r.value && r.value[n] == reg[n]
    ensures r.Ok? && all ==> name !in r.value
    ensures r.Ok? && !all && name in reg && NoDup(reg[name]) ==>
              forall c :: c in RegisteredMenus(r.value, name) <==> c in reg[name] && c != cls.value
    ensures r.Ok? && RegistryValid(reg) ==> RegistryValid(r.value)
  {
    if cls.None? && !all then Err(ValueError)
    else if name !in reg then Ok(reg)
    else
      var remaining := if all then [] else RemoveFirst(reg[name], cls.value);
      if remaining == [] then Ok(reg - {name})
      else Ok(reg[name := remaining])
  }

  /** Registering a class makes `getRegisteredMenus` list it, and
      unregistering it, or the whole name, takes it out again; other names
      read back unchanged. */
  lemma RegisterThenGet(reg: MenuRegistry, name: string, cls: MenuClass, other: string)
    requires RegistryValid(reg)
    ensures cls in RegisteredMenus(RegisterIn(reg, name, cls), name)
    ensures other != name ==> RegisteredMenus(RegisterIn(reg, name, cls), other) == RegisteredMenus(reg, other)
    ensures var u := UnregisterIn(RegisterIn(reg, name, cls), name, Some(cls), false);
      u.Ok? && cls !in RegisteredMenus(u.value, name)
    ensures var u := UnregisterIn(reg, name, None, true);
      u.Ok? && RegisteredMenus(u.value, name) == []
  {
    var reg' := RegisterIn(reg, name, cls);
    assert RegistryValid(reg') && name in reg';
    assert NoDup(reg'[name]);
  }

  /** The classes that `buildMenus` instantiates and builds, in order: the
      non-RMB classes whose `shouldBuild` accepts. */
  function Buildable(classes: seq<MenuClass>, shouldBuild: MenuClass -> bool): (r: seq<MenuClass>)
    ensures forall c :: c in r <==> c in classes && !IsRmbMenu(c) && shouldBuild(c)
  {
    if classes == [] then []
    else if !IsRmbMenu(classes[0]) && shouldBuild(classes[0]) then [classes[0]] + Buildable(classes[1..], shouldBuild)
    else Buildable(classes[1..], shouldBuild)
  }

  lemma {:induction false} BuildableSnoc(classes: seq<MenuClass>, c: MenuClass, shouldBuild: MenuClass -> bool)
    ensures Buildable(classes + [c], shouldBuild)
            == Buildable(classes, shouldBuild) + (if !IsRmbMenu(c) && shouldBuild(c) then [c] else [])
    decreases |classes|
  {
    if classes == [] {
      assert [] + [c] == [c];
    } else {
      assert (classes + [c])[1..] == classes[1..] + [c];
      BuildableSnoc(classes[1..], c, shouldBuild);
    }
  }

  /** The last RMB class of a list: each RMB class overwrites the previous
      one's registration with the RMB hook. */
  function LastRmbMenu(classes: seq<MenuClass>): (r: Option<MenuClass>)
    ensures r.None? <==> forall c :: c in classes ==> !IsRmbMenu(c)
    ensures r.Some? ==> exists i :: 0 <= i < |classes| && classes[i] == r.value && IsRmbMenu(r.value)
                          && forall j :: i < j < |classes| ==> !IsRmbMenu(classes[j])
  {
    if classes == [] then None
    else
      var last := classes[|classes| - 1];
      if IsRmbMenu(last) then Some(last)
      else
        var r := LastRmbMenu(classes[..|classes| - 1]);
        assert forall c :: c in classes ==> c in classes[..|classes| - 1] || c == last;
        r
  }

  /** The RMB hook entry a menu name ends up with. */
  function HookEntry(classes: seq<MenuClass>): Option<RmbMenuHook.Entry<MenuClass>> {
    match LastRmbMenu(classes)
    case None => None
    case Some(c) => Some(RmbMenuHook.Entry(c, 0))
  }

  /** The RMB hook's registrations after handing it the RMB classes of
      `classes`, one after the other, under `name`. */
  function HookMenus(menus0: seq<RmbMenuHook.Registration<MenuClass>>, name: string, classes: seq<MenuClass>)
    : (r: seq<RmbMenuHook.Registration<MenuClass>>)
    requires RmbMenuHook.NamesDistinct(menus0)
    ensures RmbMenuHook.NamesDistinct(r)
  {
    if classes == [] then menus0
    else
      var prev := HookMenus(menus0, name, classes[..|classes| - 1]);
      var last := classes[|classes| - 1];
      if IsRmbMenu(last) then RmbMenuHook.Put(prev, name, RmbMenuHook.Entry(last, 0)) else prev
  }

  lemma HookMenusStep(menus0: seq<RmbMenuHook.Registration<MenuClass>>, name: string, classes: seq<MenuClass>, i: int)
    requires RmbMenuHook.NamesDistinct(menus0) && 0 <= i < |classes|
    ensures HookMenus(menus0, name, classes[..i + 1])
            == if IsRmbMenu(classes[i]) then RmbMenuHook.Put(HookMenus(menus0, name, classes[..i]), name, RmbMenuHook.Entry(classes[i], 0))
               else HookMenus(menus0, name, classes[..i])
  {
    assert classes[..i + 1][..i] == classes[..i];
  }

  /** Only `name` changes in the hook, and it ends up with the last RMB
      class, if there is one. */
  lemma {:induction false} HookMenusLookup(menus0: seq<RmbMenuHook.Registration<MenuClass>>, name: string, classes: seq<MenuClass>)
    requires RmbMenuHook.NamesDistinct(menus0)
    ensures forall n :: n != name ==> RmbMenuHook.Lookup(HookMenus(menus0, name, classes), n) == RmbMenuHook.Lookup(menus0, n)
    ensures RmbMenuHook.Lookup(HookMenus(menus0, name, classes), name)
            == if LastRmbMenu(classes).Some? then HookEntry(classes) else RmbMenuHook.Lookup(menus0, name)
  {
    if classes != [] {
      var front := classes[..|classes| - 1];
      HookMenusLookup(menus0, name, front);
    }
  }

  /** Extending the built prefix of `classes` by `classes[i]`. */
  lemma BuildPrefixStep(classes: seq<MenuClass>, i: int, shouldBuild: MenuClass -> bool)
    requires 0 <= i < |classes|
    ensures Buildable(classes[..i + 1], shouldBuild)
            == Buildable(classes[..i], shouldBuild) + (if !IsRmbMenu(classes[i]) && shouldBuild(classes[i]) then [classes[i]] else [])
    ensures HookEntry(classes[..i + 1])
            == if IsRmbMenu(classes[i]) then Some(RmbMenuHook.Entry(classes[i], 0)) else HookEntry(classes[..i])
  {
    assert classes[..i + 1] == classes[..i] + [classes[i]];
    assert classes[..i + 1][..i] == classes[..i];
    BuildableSnoc(classes[..i], classes[i], shouldBuild);
  }

  /** The hook and the built classes after `InstantiateMenu` handled
      `classes[i]` are those of the prefix that includes it. */
  lemma HandledState(menus0: seq<RmbMenuHook.Registration<MenuClass>>, name: string, classes: seq<MenuClass>, i: int,
                     shouldBuild: MenuClass -> bool, hook0: seq<RmbMenuHook.Registration<MenuClass>>,
                     hook1: seq<RmbMenuHook.Registration<MenuClass>>, instantiated: bool)
    requires RmbMenuHook.NamesDistinct(menus0) && 0 <= i < |classes|
    requires hook0 == HookMenus(menus0, name, classes[..i])
    requires hook1 == if IsRmbMenu(classes[i]) then RmbMenuHook.Put(hook0, name, RmbMenuHook.Entry(classes[i], 0)) else hook0
    requires instantiated <==> !IsRmbMenu(classes[i]) && shouldBuild(classes[i])
    ensures hook1 == HookMenus(menus0, name, classes[..i + 1])
    ensures Buildable(classes[..i + 1], shouldBuild)
            == Buildable(classes[..i], shouldBuild) + (if instantiated then [classes[i]] else [])
  {
    BuildPrefixStep(classes, i, shouldBuild);
    HookMenusStep(menus0, name, classes, i);
  }

  /** Every class built so far has a popup id, as long as `classes[i]` has
      one whenever it is built. */
  lemma PopupIdsStep(classes: seq<MenuClass>, i: int, shouldBuild: MenuClass -> bool)
    requires 0 <= i < |classes|
    requires forall c :: c in Buildable(classes[..i], shouldBuild) ==> HasPopupMenuId(c)
    requires !IsRmbMenu(classes[i]) && shouldBuild(classes[i]) ==> HasPopupMenuId(classes[i])
    ensures forall c :: c in Buildable(classes[..i + 1], shouldBuild) ==> HasPopupMenuId(c)
  {
    BuildPrefixStep(classes, i, shouldBuild);
  }

  /** A buildable class without a popup id makes the whole build fail. */
  lemma BuildFailed(classes: seq<MenuClass>, shouldBuild: MenuClass -> bool, activeClasses: seq<MenuClass>,
                    hookEntry: Option<RmbMenuHook.Entry<MenuClass>>, i: int)
    requires 0 <= i < |classes| && !IsRmbMenu(classes[i]) && shouldBuild(classes[i])
    requires !HasPopupMenuId(classes[i])
    requires forall c :: c in Buildable(classes[..i], shouldBuild) ==> HasPopupMenuId(c)
    requires activeClasses == Buildable(classes[..i + 1], shouldBuild)
    requires hookEntry == HookEntry(classes[..i + 1])
    ensures BuildOutcome(classes, shouldBuild, Fail(NotImplementedError), activeClasses, hookEntry)
  {
    assert classes[i] in classes;
    assert FailedAt(classes, shouldBuild, activeClasses, hookEntry, i);
  }

  /** A build that went through every class. */
  lemma BuildPassed(classes: seq<MenuClass>, shouldBuild: MenuClass -> bool, activeClasses: seq<MenuClass>,
                    hookEntry: Option<RmbMenuHook.Entry<MenuClass>>)
    requires activeClasses == Buildable(classes, shouldBuild) && hookEntry == HookEntry(classes)
    requires forall c :: c in Buildable(classes, shouldBuild) ==> HasPopupMenuId(c)
    ensures BuildOutcome(classes, shouldBuild, Pass, activeClasses, hookEntry)
  {
  }

  /** What the loop of `buildMenus` reports, read as a `BuildOutcome`, with
      the RMB hook starting without an entry for the name. */
  lemma BuildConcluded(menus0: seq<RmbMenuHook.Registration<MenuClass>>, name: string, classes: seq<MenuClass>,
                       shouldBuild: MenuClass -> bool, r: Outcome, done: nat, activeClasses: seq<MenuClass>,
                       menus: seq<RmbMenuHook.Registration<MenuClass>>)
    requires RmbMenuHook.NamesDistinct(menus0) && RmbMenuHook.Lookup(menus0, name) == None
    requires done <= |classes|
    requires r.Pass? ==> done == |classes| && forall c :: c in Buildable(classes, shouldBuild) ==> HasPopupMenuId(c)
    requires r.Fail? ==> 0 < done && r.error == NotImplementedError
                         && !IsRmbMenu(classes[done - 1]) && shouldBuild(classes[done - 1])
                         && !HasPopupMenuId(classes[done - 1])
                         && forall c :: c in Buildable(classes[..done - 1], shouldBuild) ==> HasPopupMenuId(c)
    requires activeClasses == Buildable(classes[..done], shouldBuild)
    requires menus == HookMenus(menus0, name, classes[..done])
    ensures BuildOutcome(classes, shouldBuild, r, activeClasses, RmbMenuHook.Lookup(menus, name))
    ensures forall n :: n != name ==> RmbMenuHook.Lookup(menus, n) == RmbMenuHook.Lookup(menus0, n)
  {
    HookMenusLookup(menus0, name, classes[..done]);
    if r.Fail? {
      assert classes[..done - 1 + 1] == classes[..done];
      BuildFailed(classes, shouldBuild, activeClasses, RmbMenuHook.Lookup(menus, name), done - 1);
    } else {
      assert classes[..done] == classes;
      BuildPassed(classes, shouldBuild, activeClasses, RmbMenuHook.Lookup(menus, name));
    }
  }

  /** Building stopped at `classes[i]`: a buildable, non-RMB class without
      a popup id, the first such one. The buildable classes up to it are
      active and the RMB hook holds the last RMB class before it. */
  predicate FailedAt(classes: seq<MenuClass>, shouldBuild: MenuClass -> bool, activeClasses: seq<MenuClass>,
                     hookEntry: Option<RmbMenuHook.Entry<MenuClass>>, i: int) {
    && 0 <= i < |classes|
    && !IsRmbMenu(classes[i]) && shouldBuild(classes[i]) && !HasPopupMenuId(classes[i])
    && (forall c :: c in Buildable(classes[..i], shouldBuild) ==> HasPopupMenuId(c))
    && activeClasses == Buildable(classes[..i + 1], shouldBuild)
    && hookEntry == HookEntry(classes[..i + 1])
  }

  /** What `buildMenus` leaves behind for a name's classes: either every
      buildable class is active and built and the RMB hook holds the last RMB
      class, or a buildable class without a popup id raised
      NotImplementedError and stopped the build there. */
  predicate BuildOutcome(classes: seq<MenuClass>, shouldBuild: MenuClass -> bool, r: Outcome,
                         activeClasses: seq<MenuClass>, hookEntry: Option<RmbMenuHook.Entry<MenuClass>>)
  {
    && (r.Pass? <==> forall c :: c in Buildable(classes, shouldBuild) ==> HasPopupMenuId(c))
    && (r.Pass? ==> activeClasses == Buildable(classes, shouldBuild) && hookEntry == HookEntry(classes))
    && (r.Fail? ==> r.error == NotImplementedError && exists i :: 0 <= i < |classes| && FailedAt(classes, shouldBuild, activeClasses, hookEntry, i))
  }

  // ---------------------------------------------------------------------
  // Menu instances

  /** A built (non-RMB) marking menu. */
  class MarkingMenu {
    const cls: MenuClass
    /** Whether this menu was ever shown. */
    var wasInvoked: bool

    constructor (cls: MenuClass)
      ensures this.cls == cls && !wasInvoked
    {
      this.cls := cls;
      wasInvoked := false;
    }

    /** Building requires a popup menu id; the popup itself is a host effect. */
    method Build() returns (r: Outcome)
      ensures r.Fail? <==> !HasPopupMenuId(cls)
      ensures r.Fail? ==> r.error == NotImplementedError
    {
      if cls.popupMenuId.None? || cls.popupMenuId.value == "" {
        return Fail(NotImplementedError);
      }
      return Pass;
    }

    /** Called by the host just before the popup shows. */
    method OnMenuWillShow()
      modifies this
      ensures wasInvoked
    {
      wasInvoked := true;
    }
  }

  /** None of the menus was shown yet. */
  ghost predicate NoneShown(menus: seq<MarkingMenu>)
    reads menus
  {
    forall j :: 0 <= j < |menus| ==> !menus[j].wasInvoked
  }

  lemma NoneShownSnoc(menus: seq<MarkingMenu>, m: MarkingMenu)
    requires NoneShown(menus) && !m.wasInvoked
    ensures NoneShown(menus + [m])
  {
  }

  /** The classes of a list of instances. */
  function ActiveClasses(menus: seq<MarkingMenu>): (r: seq<MenuClass>)
    ensures |r| == |menus|
    ensures forall i :: 0 <= i < |menus| ==> r[i] == menus[i].cls
  {
    seq(|menus|, i requires 0 <= i < |menus| => menus[i].cls)
  }

  lemma ActiveClassesSnoc(menus: seq<MarkingMenu>, m: MarkingMenu)
    ensures ActiveClasses(menus + [m]) == ActiveClasses(menus) + [m.cls]
  {
  }

  /** Whether any of the menus was shown. */
  function AnyInvoked(menus: seq<MarkingMenu>): (r: bool)
    reads menus
    ensures r <==> exists i :: 0 <= i < |menus| && menus[i].wasInvoked
  {
    if menus == [] then false
    else AnyInvoked(menus[..|menus| - 1]) || menus[|menus| - 1].wasInvoked
  }

  /** The loop of `buildMenus`: each class is handed to `InstantiateMenu`
      until one fails to build. `done` counts the classes handled, the
      failing one included; `built` are the new active menus. */
  method BuildAll(hook: RmbMenuHook.Registry<MenuClass>, name: string, classes: seq<MenuClass>,
                  shouldBuild: MenuClass -> bool)
    returns (built: seq<MarkingMenu>, r: Outcome, done: nat)
    requires hook.Valid()
    modifies hook
    ensures hook.Valid()
    ensures done <= |classes|
    ensures r.Pass? ==> done == |classes| && forall c :: c in Buildable(classes, shouldBuild) ==> HasPopupMenuId(c)
    ensures r.Fail? ==> 0 < done && r.error == NotImplementedError
                        && !IsRmbMenu(classes[done - 1]) && shouldBuild(classes[done - 1])
                        && !HasPopupMenuId(classes[done - 1])
                        && forall c :: c in Buildable(classes[..done - 1], shouldBuild) ==> HasPopupMenuId(c)
    ensures ActiveClasses(built) == Buildable(classes[..done], shouldBuild)
    ensures hook.menus == HookMenus(old(hook.menus), name, classes[..done])
    ensures fresh(set m | m in built)
    ensures NoneShown(built)
  {
    built, r := [], Pass;
    for i := 0 to |classes|
      invariant r.Pass? && hook.Valid()
      invariant fresh(set m | m in built)
      invariant NoneShown(built)
      invariant ActiveClasses(built) == Buildable(classes[..i], shouldBuild)
      invariant forall c :: c in Buildable(classes[..i], shouldBuild) ==> HasPopupMenuId(c)
      invariant hook.menus == HookMenus(old(hook.menus), name, classes[..i])
    {
      built, r := BuildOne(hook, old(hook.menus), name, classes, i, shouldBuild, built);
      if r.Fail? {
        return built, r, i + 1;
      }
      PopupIdsStep(classes, i, shouldBuild);
    }
    assert classes[..|classes|] == classes;
    done := |classes|;
  }

  /** The body of the loop of `buildMenus`, for `classes[i]`. */
  method BuildOne(hook: RmbMenuHook.Registry<MenuClass>, ghost menus0: seq<RmbMenuHook.Registration<MenuClass>>,
                  name: string, classes: seq<MenuClass>, i: nat, shouldBuild: MenuClass -> bool,
                  built: seq<MarkingMenu>)
    returns (built': seq<MarkingMenu>, r: Outcome)
    requires hook.Valid() && RmbMenuHook.NamesDistinct(menus0) && i < |classes|
    requires NoneShown(built)
    requires ActiveClasses(built) == Buildable(classes[..i], shouldBuild)
    requires hook.menus == HookMenus(menus0, name, classes[..i])
    modifies hook
    ensures hook.Valid()
    ensures fresh((set m | m in built') - (set m | m in built))
    ensures NoneShown(built')
    ensures ActiveClasses(built') == Buildable(classes[..i + 1], shouldBuild)
    ensures hook.menus == HookMenus(menus0, name, classes[..i + 1])
    ensures r.Fail? <==> !IsRmbMenu(classes[i]) && shouldBuild(classes[i]) && !HasPopupMenuId(classes[i])
    ensures r.Fail? ==> r.error == NotImplementedError
  {
    ghost var hookBefore := hook.menus;
    var inst;
    inst, r := InstantiateMenu(hook, name, classes[i], shouldBuild);
    HandledState(menus0, name, classes, i, shouldBuild, hookBefore, hook.menus, inst.Some?);
    built' := built;
    if inst.Some? {
      NoneShownSnoc(built, inst.value);
      ActiveClassesSnoc(built, inst.value);
      built' := built + [inst.value];
    }
  }

  /** One step of `buildMenus`: an RMB class is handed to the RMB hook under
      the menu name with priority 0; any other class is instantiated and,
      when its `shouldBuild` accepts, returned to be made active, and built. */
  method InstantiateMenu(hook: RmbMenuHook.Registry<MenuClass>, name: string, menuCls: MenuClass,
                         shouldBuild: MenuClass -> bool)
    returns (inst: Option<MarkingMenu>, r: Outcome)
    requires hook.Valid()
    modifies hook
    ensures hook.Valid()
    ensures inst.Some? <==> !IsRmbMenu(menuCls) && shouldBuild(menuCls)
    ensures inst.Some? ==> fresh(inst.value) && inst.value.cls == menuCls && !inst.value.wasInvoked
    ensures r.Fail? <==> !IsRmbMenu(menuCls) && shouldBuild(menuCls) && !HasPopupMenuId(menuCls)
    ensures r.Fail? ==> r.error == NotImplementedError
    ensures hook.menus
              == if IsRmbMenu(menuCls) then RmbMenuHook.Put(old(hook.menus), name, RmbMenuHook.Entry(menuCls, 0)) else old(hook.menus)
  {
    r, inst := Pass, None;
    if IsRmbMenu(menuCls) {
      hook.RegisterMenu(name, menuCls, 0);
    } else {
      var menu := new MarkingMenu(menuCls);
      if shouldBuild(menuCls) {
        inst := Some(menu);
        r := menu.Build();
      }
    }
  }

  // ---------------------------------------------------------------------
  // The module state: REGISTERED_MENUS, ACTIVE_MENUS, RMBMarkingMenu.wasInvoked

  class MenuManager {
    /** REGISTERED_MENUS */
    var registered: MenuRegistry
    /** ACTIVE_MENUS */
    var active: seq<MarkingMenu>
    /** The class attribute RMBMarkingMenu.wasInvoked */
    var rmbWasInvoked: bool
    /** The RMB hook's registry, which RMB menu classes are handed to. */
    const hook: RmbMenuHook.Registry<MenuClass>

    ghost predicate Valid()
      reads this, hook
    {
      RegistryValid(registered) && hook.Valid()
    }

    constructor (hook: RmbMenuHook.Registry<MenuClass>)
      requires hook.Valid()
      ensures Valid() && this.hook == hook
      ensures registered == map[] && active == [] && !rmbWasInvoked
    {
      this.hook := hook;
      registered := map[];
      active := [];
      rmbWasInvoked := false;
    }

    function GetRegisteredMenus(name: string): (r: seq<MenuClass>)
      reads this
      ensures r == RegisteredMenus(registered, name)
      ensures RegistryValid(registered) ==> NoDup(r) && (r == [] <==> name !in registered)
    {
      RegisteredMenus(registered, name)
    }

    method RegisterMenu(name: string, cls: MenuClass)
      requires Valid()
      modifies this
      ensures Valid()
      ensures registered == RegisterIn(old(registered), name, cls)
      ensures active == old(active) && rmbWasInvoked == old(rmbWasInvoked)
    {
      registered := RegisterIn(registered, name, cls);
    }

    method UnregisterMenu(name: string, cls: Option<MenuClass>, all: bool) returns (r: Outcome)
      requires Valid()
      modifies this
      ensures Valid()
      ensures var u := UnregisterIn(old(registered), name, cls, all);
        && (r.Fail? <==> u.Err?)
        && (r.Fail? ==> r.error == u.error && registered == old(registered))
        && (r.Pass? ==> registered == u.value)
      ensures active == old(active) && rmbWasInvoked == old(rmbWasInvoked)
    {
      var u := UnregisterIn(registered, name, cls, all);
      if u.Err? {
        return Fail(u.error);
      }
      registered := u.value;
      return Pass;
    }

    /** Tears down every active menu and reports whether any of them, or an
        RMB marking menu, was shown; afterwards nothing is active, the RMB
        flag is down and the name is gone from the RMB hook. */
    method DestroyMenus(name: string) returns (wasAnyInvoked: bool)
      requires Valid()
      modifies this, hook
      ensures Valid()
      ensures wasAnyInvoked == (AnyInvoked(old(active)) || old(rmbWasInvoked))
      ensures active == [] && !rmbWasInvoked
      ensures registered == old(registered)
      ensures hook.menus == RmbMenuHook.Delete(old(hook.menus), name)
    {
      wasAnyInvoked := false;
      for i := 0 to |active|
        invariant wasAnyInvoked == AnyInvoked(active[..i])
      {
        assert active[..i + 1][..i] == active[..i];
        wasAnyInvoked := wasAnyInvoked || active[i].wasInvoked;
      }
      assert active[..|active|] == active;
      active := [];
      wasAnyInvoked := wasAnyInvoked || rmbWasInvoked;
      rmbWasInvoked := false;
      hook.UnregisterMenu(name);
    }

    /** Destroys what is built, then instantiates the name's classes in
        order: RMB classes go to the RMB hook (priority 0); every other class
        whose `shouldBuild` accepts becomes active and is built. Building a
        class without a popup id raises NotImplementedError and stops. */
    method BuildMenus(name: string, shouldBuild: MenuClass -> bool) returns (r: Outcome)
      requires Valid()
      modifies this, hook
      ensures Valid()
      ensures registered == old(registered) && !rmbWasInvoked
      ensures forall m :: m in active ==> fresh(m)
      ensures NoneShown(active)
      ensures BuildOutcome(RegisteredMenus(old(registered), name), shouldBuild, r, ActiveClasses(active),
                           hook.GetRegisteredMenu(name))
      ensures forall n :: n != name ==> hook.GetRegisteredMenu(n) == old(hook.GetRegisteredMenu(n))
    {
      var _ := DestroyMenus(name);
      var classes := GetRegisteredMenus(name);
      r := BuildClasses(name, classes, shouldBuild);
    }

    /** The loop of `buildMenus`, run after everything was destroyed. */
    method BuildClasses(name: string, classes: seq<MenuClass>, shouldBuild: MenuClass -> bool) returns (r: Outcome)
      requires Valid()
      requires active == [] && hook.GetRegisteredMenu(name) == None
      modifies this, hook
      ensures Valid()
      ensures registered == old(registered) && rmbWasInvoked == old(rmbWasInvoked)
      ensures forall m :: m in active ==> fresh(m)
      ensures NoneShown(active)
      ensures BuildOutcome(classes, shouldBuild, r, ActiveClasses(active), hook.GetRegisteredMenu(name))
      ensures forall n :: n != name ==> hook.GetRegisteredMenu(n) == old(hook.GetRegisteredMenu(n))
    {
      ghost var menus0 := hook.menus;
      var built, done;
      built, r, done := BuildAll(hook, name, classes, shouldBuild);
      active := built;
      BuildConcluded(menus0, name, classes, shouldBuild, r, done, ActiveClasses(built), hook.menus);
    }

    /** The RMB hook opens its menu: the first accepting class in priority
        order is built, and building an RMBMarkingMenu raises the class flag. */
    method InvokeRmbMenu(shouldBuild: MenuClass -> bool) returns (built: Option<MenuClass>)
      requires Valid()
      modifies this
      ensures Valid()
      ensures built.Some? ==> shouldBuild(built.value) && built.value in hook.GetPrioritizedMenuClasses()
      ensures rmbWasInvoked == (old(rmbWasInvoked) || (built.Some? && built.value.kind == RmbMarking))
      ensures registered == old(registered) && active == old(active)
    {
      built := hook.BuildMenu(shouldBuild);
      if built.Some? && built.value.kind == RmbMarking {
        rmbWasInvoked := true;
      }
    }
  }

  // ---------------------------------------------------------------------
  // Hotkeys

  const DefaultHotkeySet := "Maya_Default"
  const DuplicateHotkeySet := "Maya_Default_Duplicate"

  datatype CommandAction = Build | Destroy

  function ActionName(a: CommandAction): string {
    match a
    case Build => "build"
    case Destroy => "destroy"
  }

  /** "quickMenus_{action}_{menuName}" */
  function RuntimeCommandId(a: CommandAction, menuName: string): string {
    "quickMenus_" + ActionName(a) + "_" + menuName
  }

  /** "quickMenus_{action}_{menuName}_nameCmd" */
  function NamedCommandId(a: CommandAction, menuName: string): string {
    RuntimeCommandId(a, menuName) + "_nameCmd"
  }

  /** The menu name can be read back from a runtime-command id, so two menus
      never share an id and build and destroy ids never collide. */
  lemma RuntimeCommandIdInjective(a1: CommandAction, m1: string, a2: CommandAction, m2: string)
    ensures RuntimeCommandId(a1, m1) == RuntimeCommandId(a2, m2) <==> a1 == a2 && m1 == m2
  {
    var id1, id2 := RuntimeCommandId(a1, m1), RuntimeCommandId(a2, m2);
    if id1 == id2 {
      assert id1[11] == id2[11];
      assert a1 == a2;
      var p := |"quickMenus_" + ActionName(a1) + "_"|;
      assert m1 == id1[p..];
      assert m2 == id2[p..];
    }
  }

  lemma NamedCommandIdInjective(a1: CommandAction, m1: string, a2: CommandAction, m2: string)
    ensures NamedCommandId(a1, m1) == NamedCommandId(a2, m2) <==> a1 == a2 && m1 == m2
  {
    var id1, id2 := NamedCommandId(a1, m1), NamedCommandId(a2, m2);
    if id1 == id2 {
      assert RuntimeCommandId(a1, m1) == id1[..|id1| - 8];
      assert RuntimeCommandId(a2, m2) == id2[..|id2| - 8];
      RuntimeCommandIdInjective(a1, m1, a2, m2);
    }
  }

  /** What `_switchToNonDefaultHotkeySet` does to the host's hotkey sets. */
  datatype HotkeySetAction = NoChange | SwitchTo(setName: string) | CreateDuplicate

  /** The first set that is not the default one. */
  function FirstNonDefault(existing: seq<string>): (r: Option<string>)
    ensures r.None? <==> forall e :: e in existing ==> e == DefaultHotkeySet
    ensures r.Some? ==> exists i :: 0 <= i < |existing| && existing[i] == r.value && r.value != DefaultHotkeySet
                          && forall j :: 0 <= j < i ==> existing[j] == DefaultHotkeySet
  {
    if existing == [] then None
    else if existing[0] != DefaultHotkeySet then
      assert existing[0] in existing;
      Some(existing[0])
    else
      var r := FirstNonDefault(existing[1..]);
      assert forall e :: e in existing ==> e == existing[0] || e in existing[1..];
      if r.Some? then
        var i :| 0 <= i < |existing[1..]| && existing[1..][i] == r.value && r.value != DefaultHotkeySet
                 && forall j :: 0 <= j < i ==> existing[1..][j] == DefaultHotkeySet;
        assert existing[i + 1] == r.value && existing[i + 1] in existing;
        r
      else r
  }

  /** The hotkey-set choice: only the default set is left, for the common
      duplicate, then for any other set, else a new duplicate is made. A host
      without hotkey sets changes nothing. */
  function HotkeySetChoice(hasHotkeySets: bool, current: string, existing: seq<string>): HotkeySetAction {
    if !hasHotkeySets || current != DefaultHotkeySet then NoChange
    else if DuplicateHotkeySet in existing then SwitchTo(DuplicateHotkeySet)
    else if |existing| > 1 then
      match FirstNonDefault(existing)
      case Some(e) => SwitchTo(e)
      case None => NoChange
    else CreateDuplicate
  }

  /** The choice never switches to the default set, and it leaves the
      default set whenever some other set exists or at most one set does. */
  lemma HotkeySetChoiceLeavesDefault(current: string, existing: seq<string>)
    requires current == DefaultHotkeySet
    requires |existing| <= 1 || exists e :: e in existing && e != DefaultHotkeySet
    ensures HotkeySetChoice(true, current, existing) != NoChange
    ensures forall s :: HotkeySetChoice(true, current, existing) == SwitchTo(s) ==> s != DefaultHotkeySet && s in existing
  {
    var fnd := FirstNonDefault(existing);
    if DuplicateHotkeySet !in existing && |existing| > 1 {
      assert fnd.Some?;
    }
  }

  /** The current set and the list of sets after the hotkey-set choice was
      carried out from `current0` and `sets0`. */
  predicate SwitchedSets(hasHotkeySets: bool, current0: string, sets0: seq<string>, current: string, sets: seq<string>) {
    match HotkeySetChoice(hasHotkeySets, current0, sets0)
    case NoChange => current == current0 && sets == sets0
    case SwitchTo(s) => current == s && sets == sets0
    case CreateDuplicate => current == DuplicateHotkeySet && sets == sets0 + [DuplicateHotkeySet]
  }

  /** The host's hotkey state (hotkeys live in the current hotkey set; the
      sets themselves are not told apart here). */
  class HotkeyHost {
    /** `hasattr(pm, 'hotkeySet')` */
    const hasHotkeySets: bool
    var currentSet: string
    var sets: seq<string>
    var runtimeCommands: set<string>
    /** named command -> the runtime command it runs */
    var namedCommands: map<string, string>
    /** key chord -> named command run on press / on release */
    var pressBindings: map<HotkeyKwargs, string>
    var releaseBindings: map<HotkeyKwargs, string>

    constructor (hasHotkeySets: bool, currentSet: string, sets: seq<string>)
      ensures this.hasHotkeySets == hasHotkeySets && this.currentSet == currentSet && this.sets == sets
      ensures runtimeCommands == {} && namedCommands == map[] && pressBindings == map[] && releaseBindings == map[]
    {
      this.hasHotkeySets := hasHotkeySets;
      this.currentSet := currentSet;
      this.sets := sets;
      runtimeCommands := {};
      namedCommands := map[];
      pressBindings := map[];
      releaseBindings := map[];
    }

    /** `_switchToNonDefaultHotkeySet` */
    method SwitchToNonDefaultHotkeySet()
      modifies this
      ensures SwitchedSets(hasHotkeySets, old(currentSet), old(sets), currentSet, sets)
      ensures runtimeCommands == old(runtimeCommands) && namedCommands == old(namedCommands)
      ensures pressBindings == old(pressBindings) && releaseBindings == old(releaseBindings)
    {
      if !hasHotkeySets {
        return;
      }
      if currentSet == DefaultHotkeySet {
        var existing := sets;
        if DuplicateHotkeySet in existing {
          currentSet := DuplicateHotkeySet;
        } else if |existing| > 1 {
          var i := 0;
          while i < |existing|
            invariant 0 <= i <= |existing|
            invariant forall j :: 0 <= j < i ==> existing[j] == DefaultHotkeySet
            invariant currentSet == DefaultHotkeySet && sets == existing
          {
            if existing[i] != DefaultHotkeySet {
              FirstNonDefaultAt(existing, i);
              currentSet := existing[i];
              break;
            }
            i := i + 1;
          }
        } else {
          sets := sets + [DuplicateHotkeySet];
          currentSet := DuplicateHotkeySet;
        }
      }
    }
  }

  lemma FirstNonDefaultAt(existing: seq<string>, i: nat)
    requires i < |existing| && existing[i] != DefaultHotkeySet
    requires forall j :: 0 <= j < i ==> existing[j] == DefaultHotkeySet
    ensures FirstNonDefault(existing) == Some(existing[i])
  {
    var r := FirstNonDefault(existing);
    assert existing[i] in existing;
    assert r.Some?;
    var k :| 0 <= k < |existing| && existing[k] == r.value && r.value != DefaultHotkeySet
             && forall j :: 0 <= j < k ==> existing[j] == DefaultHotkeySet;
    assert k == i;
  }

  /** `registerMenuHotkeys`: creates (or re-creates) the build and destroy
      runtime commands and their named commands, leaves the default hotkey
      set, and binds the build command to the key press and the destroy
      command to its release. An invalid hotkey string changes nothing. */
  method RegisterMenuHotkeys(host: HotkeyHost, menuName: string, hotkey: string) returns (r: Outcome)
    modifies host
    ensures var keys := ParseHotkey(hotkey);
      && (r.Fail? <==> keys.Err?)
      && (r.Fail? ==> r.error == ValueError && host.pressBindings == old(host.pressBindings)
                      && host.releaseBindings == old(host.releaseBindings)
                      && host.runtimeCommands == old(host.runtimeCommands)
                      && host.namedCommands == old(host.namedCommands)
                      && host.currentSet == old(host.currentSet) && host.sets == old(host.sets))
      && (r.Pass? ==>
            && SwitchedSets(host.hasHotkeySets, old(host.currentSet), old(host.sets), host.currentSet, host.sets)
            && host.runtimeCommands == old(host.runtimeCommands)
                 + {RuntimeCommandId(Build, menuName), RuntimeCommandId(Destroy, menuName)}
            && host.namedCommands == old(host.namedCommands)
                 [NamedCommandId(Build, menuName) := RuntimeCommandId(Build, menuName)]
                 [NamedCommandId(Destroy, menuName) := RuntimeCommandId(Destroy, menuName)]
            && host.pressBindings == old(host.pressBindings)[keys.value := NamedCommandId(Build, menuName)]
            && host.releaseBindings == old(host.releaseBindings)[keys.value := NamedCommandId(Destroy, menuName)])
  {
    var keyKwargs := GetHotkeyKwargs(hotkey);
    if keyKwargs.Err? {
      return Fail(keyKwargs.error);
    }
    var buildRtCmdId := RuntimeCommandId(Build, menuName);
    host.runtimeCommands := host.runtimeCommands - {buildRtCmdId} + {buildRtCmdId};
    var buildNameCmdId := NamedCommandId(Build, menuName);
    host.namedCommands := host.namedCommands[buildNameCmdId := buildRtCmdId];

    var destroyRtCmdId := RuntimeCommandId(Destroy, menuName);
    host.runtimeCommands := host.runtimeCommands - {destroyRtCmdId} + {destroyRtCmdId};
    var destroyNameCmdId := NamedCommandId(Destroy, menuName);
    host.namedCommands := host.namedCommands[destroyNameCmdId := destroyRtCmdId];

    host.SwitchToNonDefaultHotkeySet();

    host.pressBindings := host.pressBindings[keyKwargs.value := buildNameCmdId];
    host.releaseBindings := host.releaseBindings[keyKwargs.value := destroyNameCmdId];
    return Pass;
  }

  /** `removeMenuHotkeys`: deletes both runtime commands, then clears the
      press and release bindings of the chord only where they still run this
      menu's named commands. A hotkey string without a key is a KeyError
      raised after the runtime commands are gone. */
  method RemoveMenuHotkeys(host: HotkeyHost, menuName: string, hotkey: string) returns (r: Outcome)
    modifies host
    ensures host.namedCommands == old(host.namedCommands)
    ensures host.currentSet == old(host.currentSet) && host.sets == old(host.sets)
    ensures var keys := ParseHotkey(hotkey);
      && (r.Fail? <==> keys.Err? || keys.value.k.None?)
      && (keys.Err? ==> r == Fail(ValueError) && host.runtimeCommands == old(host.runtimeCommands))
      && (keys.Ok? ==> host.runtimeCommands == old(host.runtimeCommands)
                         - {RuntimeCommandId(Build, menuName), RuntimeCommandId(Destroy, menuName)})
      && (keys.Ok? && keys.value.k.None? ==> r == Fail(KeyError))
      && (r.Fail? ==> host.pressBindings == old(host.pressBindings) && host.releaseBindings == old(host.releaseBindings))
      && (r.Pass? ==>
            && host.pressBindings ==
                 (if keys.value in old(host.pressBindings) && old(host.pressBindings)[keys.value] == NamedCommandId(Build, menuName)
                  then old(host.pressBindings)[keys.value := ""] else old(host.pressBindings))
            && host.releaseBindings ==
                 (if keys.value in old(host.releaseBindings) && old(host.releaseBindings)[keys.value] == NamedCommandId(Destroy, menuName)
                  then old(host.releaseBindings)[keys.value := ""] else old(host.releaseBindings)))
  {
    var keyKwargs := GetHotkeyKwargs(hotkey);
    if keyKwargs.Err? {
      return Fail(keyKwargs.error);
    }
    var buildRtCmdId := RuntimeCommandId(Build, menuName);
    host.runtimeCommands := host.runtimeCommands - {buildRtCmdId};
    var destroyRtCmdId := RuntimeCommandId(Destroy, menuName);
    host.runtimeCommands := host.runtimeCommands - {destroyRtCmdId};

    var buildNameCmdId := NamedCommandId(Build, menuName);
    var destroyNameCmdId := NamedCommandId(Destroy, menuName);
    if keyKwargs.value.k.None? {
      return Fail(KeyError);
    }
    ClearChord(host, keyKwargs.value, buildNameCmdId, destroyNameCmdId);
    return Pass;
  }

  /** Clears the press binding of `chord` if it runs `pressCmd` and the
      release binding if it runs `releaseCmd`. */
  method ClearChord(host: HotkeyHost, chord: HotkeyKwargs, pressCmd: string, releaseCmd: string)
    modifies host
    ensures host.namedCommands == old(host.namedCommands) && host.runtimeCommands == old(host.runtimeCommands)
    ensures host.currentSet == old(host.currentSet) && host.sets == old(host.sets)
    ensures host.pressBindings ==
              if chord in old(host.pressBindings) && old(host.pressBindings)[chord] == pressCmd
              then old(host.pressBindings)[chord := ""] else old(host.pressBindings)
    ensures host.releaseBindings ==
              if chord in old(host.releaseBindings) && old(host.releaseBindings)[chord] == releaseCmd
              then old(host.releaseBindings)[chord := ""] else old(host.releaseBindings)
  {
    if chord in host.pressBindings && host.pressBindings[chord] == pressCmd {
      host.pressBindings := host.pressBindings[chord := ""];
    }
    if chord in host.releaseBindings && host.releaseBindings[chord] == releaseCmd {
      host.releaseBindings := host.releaseBindings[chord := ""];
    }
  }
}
