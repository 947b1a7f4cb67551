# workflowtools core, modelled in Dafny

This project models the bookkeeping and string logic beneath the Maya
workflow tools (`workflowtools`). Maya itself is abstracted away: scene
nodes are records of attributes and flags, and every host command
(`popupMenu`, `menuItem`, `selectType`, `modelEditor`, `runTimeCommand`,
`hotkey`, `channelBox`, ...) is either a value the model returns or an
input the caller passes. The modules are:

- `Base` (`base.dfy`): `Option`, `Result` and `Outcome`; the Python
  exceptions the scripts raise; ASCII `lower`, `split` and `join`.
- `QuickMenuUtils` (`utils.dfy`): the modifier bitmask decoder, the
  hotkey-string parser and the radial (compass) layout of menu items.
- `RmbMenuHook` (`rmbmenuhook.dfy`): the registry of right-mouse-button
  menus by name and priority, the priority order, and building the first
  menu that accepts.
- `QuickMenusCore` (`quickmenus_core.dfy`): the registry of marking-menu
  classes, the build/destroy lifecycle of the active menus and the RMB
  "was invoked" flag, the `build` guard of a marking menu, the hotkey-set
  choice, and the runtime and named command ids behind menu hotkeys.
- `QuickSelect` (`quickselect.dfy`): quick-select sets and collections,
  i.e. sets of nodes placed on compass positions, kept free of position
  collisions. Covers saving and loading through an abstract store, radial
  vacancies, titles and abbreviations, and the active collection.
- `MaskingMenus` (`masking.dfy`): the selection-masking and display-masking
  menus (which mask keys to turn on or off for a selection, the node-type
  table, the most-derived shape type) and the camera quick-switch layout.
- `Resetter` (`resetter.dfy`): stored per-node defaults (the `brstDefaults`
  attribute), reading, writing and removing them, and the reset policy.

Stateful parts of the source are classes: `RmbMenuHook.Registry`,
`QuickMenusCore.MenuManager` (the module globals `REGISTERED_MENUS`,
`ACTIVE_MENUS` and `RMBMarkingMenu.wasInvoked`), `QuickMenusCore.MarkingMenu`,
`QuickMenusCore.HotkeyHost` (the host's hotkey sets, commands and
bindings), `QuickSelect.QuickSelectSet`, `QuickSelect.QuickSelectCollection`,
`QuickSelect.CollectionStore` (the scene's persisted collection data),
`QuickSelect.QuickSelectState` (the global `ACTIVE_COLLECTION`), and
`Resetter.Scene` (the scene's nodes). Loops in the source are loops here,
each proved against a specification function whose properties are lemmas.

## Model

| member | source | states |
|---|---|---|
| QuickMenuUtils.GetModifiersOfMask | src/workflowtools/scripts/quickmenus/utils.py:19-23 | shift, ctrl and alt are reported exactly when bits 1, 4 and 8 are set, whatever the other bits |
| QuickMenuUtils.GetHotkeyKwargs | src/workflowtools/scripts/quickmenus/utils.py:26-49 | the string is lower-cased and split on `+`; alt/shift/ctrl/command set their flags in any order; the first other token is the key; a second non-modifier token gives ValueError |
| QuickMenuUtils.HotkeyKeyIsLowerToken | src/workflowtools/scripts/quickmenus/utils.py:33-48 | the parsed key is lower-case and contains no `+` |
| QuickMenuUtils.KeyTokens | src/workflowtools/scripts/quickmenus/utils.py:44-48 | the key tokens are exactly the non-modifier tokens, in order |
| QuickMenuUtils.GetRadialMenuPositions | src/workflowtools/scripts/quickmenus/utils.py:52-75 | ValueError exactly for a negative count; otherwise exactly `count` slots, the fixed table for 0-4 and the compass order beyond |
| QuickMenuUtils.RadialLayoutShape | src/workflowtools/scripts/quickmenus/utils.py:62-75 | a layout has `count` slots, slot i is a compass point iff i < 8, and no two slots share a point |
| QuickMenuUtils.RadialPositionsDistinct | src/workflowtools/scripts/quickmenus/utils.py:65 | the eight compass points are distinct |
| RmbMenuHook.Put | src/workflowtools/scripts/rmbmenuhook/menu.py:39-45 | after registering, the name maps to exactly the new (class, priority) and every other name is unchanged |
| RmbMenuHook.Delete | src/workflowtools/scripts/rmbmenuhook/menu.py:47-54 | only the named entry goes; an absent name changes nothing |
| RmbMenuHook.Registry.RegisterMenu | src/workflowtools/scripts/rmbmenuhook/menu.py:39-45 | the registry becomes `Put` of the old one: the lookup of the name is the new entry, other lookups unchanged |
| RmbMenuHook.Registry.UnregisterMenu | src/workflowtools/scripts/rmbmenuhook/menu.py:47-54 | the registry becomes `Delete` of the old one: the name is absent, other lookups unchanged |
| RmbMenuHook.Lookup | src/workflowtools/scripts/rmbmenuhook/menu.py:56-63 | None exactly when the name is absent, otherwise the stored entry |
| RmbMenuHook.Registry.GetRegisteredMenu | src/workflowtools/scripts/rmbmenuhook/menu.py:56-63 | None exactly when no registration has the name, otherwise the stored (class, priority) |
| RmbMenuHook.SortByPriority | src/workflowtools/scripts/rmbmenuhook/menu.py:79-81 | the ascending sort by priority: the result is ascending and a permutation of its input |
| RmbMenuHook.InsertSorted | src/workflowtools/scripts/rmbmenuhook/menu.py:79-81 | inserting into an ascending list keeps it ascending |
| RmbMenuHook.InsertPermutes | src/workflowtools/scripts/rmbmenuhook/menu.py:79-81 | inserting adds exactly the new element and keeps every other |
| RmbMenuHook.ReverseMultiset | src/workflowtools/scripts/rmbmenuhook/menu.py:82 | reversing keeps the same elements |
| RmbMenuHook.PrioritizedEntries | src/workflowtools/scripts/rmbmenuhook/menu.py:72-84 | a permutation of the registered entries with non-increasing priorities |
| RmbMenuHook.Registry.GetPrioritizedMenuClasses | src/workflowtools/scripts/rmbmenuhook/menu.py:72-84 | the classes of the entries in non-increasing priority order; each registered class appears exactly as often as it is registered |
| RmbMenuHook.SortClasses | src/workflowtools/scripts/rmbmenuhook/menu.py:79-84 | sorting by priority reorders the classes and adds or drops none |
| RmbMenuHook.Registry.BuildMenu | src/workflowtools/scripts/rmbmenuhook/menu.py:88-104 | builds the first class in priority order whose `shouldBuild` accepts, and reports none exactly when no class accepts |
| QuickMenusCore.RemoveFirst | src/workflowtools/scripts/quickmenus/core.py:270-271 | `list.remove`: one occurrence goes, others stay, a duplicate-free list stays duplicate-free and loses the class |
| QuickMenusCore.RegisteredMenus | src/workflowtools/scripts/quickmenus/core.py:286-288 | in a valid registry, the list holds no class twice and is empty exactly for an unknown name |
| QuickMenusCore.RegisterIn | src/workflowtools/scripts/quickmenus/core.py:248-250 | the class is registered under the name, other names are untouched, registering again changes nothing, and lists stay non-empty and duplicate-free |
| QuickMenusCore.UnregisterIn | src/workflowtools/scripts/quickmenus/core.py:263-274 | ValueError exactly without a class and without `all`; an unknown name is a no-op; `all` removes the name; otherwise the class goes; no name is left with an empty list |
| QuickMenusCore.RegisterThenGet | src/workflowtools/scripts/quickmenus/core.py:248-288 | a registered class is listed by `getRegisteredMenus` and other names are unaffected; unregistering it, or everything, removes it from the list |
| QuickMenusCore.MenuManager.RegisterMenu | src/workflowtools/scripts/quickmenus/core.py:238-250 | `REGISTERED_MENUS` becomes `RegisterIn` of the old registry; the active menus are untouched |
| QuickMenusCore.MenuManager.UnregisterMenu | src/workflowtools/scripts/quickmenus/core.py:253-274 | the outcome and new registry are those of `UnregisterIn` |
| QuickMenusCore.MenuManager.GetRegisteredMenus | src/workflowtools/scripts/quickmenus/core.py:277-288 | the classes of the name in `REGISTERED_MENUS`, with no class twice; empty exactly when the name is unknown |
| QuickMenusCore.Buildable | src/workflowtools/scripts/quickmenus/core.py:193-207 | exactly the non-RMB classes whose `shouldBuild` accepts |
| QuickMenusCore.LastRmbMenu | src/workflowtools/scripts/quickmenus/core.py:196-198 | none exactly when no class is an RMB menu; otherwise an RMB class of the list |
| QuickMenusCore.MenuManager.DestroyMenus | src/workflowtools/scripts/quickmenus/core.py:210-232 | returns the OR of every active menu's `wasInvoked` and the RMB flag; afterwards no menu is active, the flag is false and the RMB hook entry is gone |
| QuickMenusCore.MenuManager.BuildMenus | src/workflowtools/scripts/quickmenus/core.py:183-207 | after destroying, either every buildable class has a popup id, is active as a fresh instance and the RMB hook holds the last RMB class; or the first buildable class without a popup id raises NotImplementedError, the buildable classes up to it are active and the hook holds the last RMB class before it |
| QuickMenusCore.MenuManager.BuildClasses | src/workflowtools/scripts/quickmenus/core.py:193-207 | the build loop: success exactly when every buildable class has a popup id; the active classes and the hook entry are those of the classes handled, up to and including the first failing one |
| QuickMenusCore.BuildAll | src/workflowtools/scripts/quickmenus/core.py:198-207 | the loop stops at the first failing class; the built menus are fresh instances of exactly the buildable classes up to there, none shown, and the RMB hook holds the hook entries of those classes |
| QuickMenusCore.InstantiateMenu | src/workflowtools/scripts/quickmenus/core.py:199-207 | an RMB class is registered with the hook at priority 0 and nothing is instantiated; any other class yields a fresh, unshown instance exactly when `shouldBuild` accepts, and fails exactly when it is built without a popup id |
| QuickMenusCore.MarkingMenu.Build | src/workflowtools/scripts/quickmenus/core.py:339-355 | fails with NotImplementedError exactly when the class has no popup menu id |
| QuickMenusCore.MarkingMenu.OnMenuWillShow | src/workflowtools/scripts/quickmenus/core.py:364-369 | marks the menu as invoked |
| QuickMenusCore.MenuManager.InvokeRmbMenu | src/workflowtools/scripts/quickmenus/core.py:388-403 | building an RMB marking menu through the hook sets the class-level invoked flag |
| QuickMenusCore.RuntimeCommandIdInjective | src/workflowtools/scripts/quickmenus/core.py:99-101 | `quickMenus_build_<name>` / `quickMenus_destroy_<name>` ids are equal exactly for the same action and name |
| QuickMenusCore.NamedCommandIdInjective | src/workflowtools/scripts/quickmenus/core.py:123-139 | the `_nameCmd` ids are equal exactly for the same action and name |
| QuickMenusCore.FirstNonDefault | src/workflowtools/scripts/quickmenus/core.py:76-80 | none exactly when every set is the default; otherwise an existing non-default set |
| QuickMenusCore.FirstNonDefaultAt | src/workflowtools/scripts/quickmenus/core.py:76-80 | the choice is the first non-default set |
| QuickMenusCore.HotkeySetChoiceLeavesDefault | src/workflowtools/scripts/quickmenus/core.py:63-83 | from the default set the choice always leaves it, and switches only to an existing non-default set |
| QuickMenusCore.HotkeyHost.SwitchToNonDefaultHotkeySet | src/workflowtools/scripts/quickmenus/core.py:63-83 | no change off the default set; otherwise the duplicate if it exists, else the first other set, else a new duplicate |
| QuickMenusCore.RegisterMenuHotkeys | src/workflowtools/scripts/quickmenus/core.py:86-145 | a bad hotkey fails with ValueError and changes nothing; otherwise the hotkey set is switched as `switchToNonDefaultHotkeySet` chooses, both runtime and named commands exist and press/release are bound to the build/destroy named commands |
| QuickMenusCore.RemoveMenuHotkeys | src/workflowtools/scripts/quickmenus/core.py:148-177 | the runtime commands are deleted; a binding is cleared only if it points to this menu's named command; no key gives KeyError |
| QuickMenusCore.ClearChord | src/workflowtools/scripts/quickmenus/core.py:173-176 | a press or release binding of the chord is cleared only when it runs the given command; everything else is unchanged |
| QuickSelect.CollectionNameFromNode | src/workflowtools/scripts/quickmenus/fmenus/menus.py:96-97 | the result is a suffix of the node name; for a name with the `quickSelectCollection_` prefix it is everything after the prefix, and a name shorter than the prefix gives the empty string |
| QuickSelect.CollectionNameRoundTrip | src/workflowtools/scripts/quickmenus/fmenus/menus.py:96-97 | a node named `quickSelectCollection_` + n yields the collection name n |
| QuickSelect.Abbreviate | src/workflowtools/scripts/quickmenus/fmenus/menus.py:276-280 | the joined names when they fit the limit; otherwise a prefix of at most 10 characters of the joined names (all of them when shorter) followed by `...` |
| QuickSelect.AbbreviateShort | src/workflowtools/scripts/quickmenus/fmenus/menus.py:276-280 | an abbreviation is at most 15 characters and holds no `|` |
| QuickSelect.QuickSelectSet.constructor | src/workflowtools/scripts/quickmenus/fmenus/menus.py:236-242 | nodes are stored as strings; title and position as given |
| QuickSelect.QuickSelectSet.SetNodes | src/workflowtools/scripts/quickmenus/fmenus/menus.py:264-270 | the node list becomes the string form of the new nodes; title and position are unchanged |
| QuickSelect.QuickSelectSet.GetTitle | src/workflowtools/scripts/quickmenus/fmenus/menus.py:244-248 | the title when set; otherwise an abbreviation of the nodes of at most 15 characters holding no `|` |
| QuickSelect.SetRoundTrip | src/workflowtools/scripts/quickmenus/fmenus/menus.py:236-270 | a set rebuilt from `asDict()` has the same nodes, title and position |
| QuickSelect.FirstAt | src/workflowtools/scripts/quickmenus/fmenus/menus.py:206-211 | none exactly when no set has the position; otherwise the first index holding it |
| QuickSelect.Vacancies | src/workflowtools/scripts/quickmenus/fmenus/menus.py:222-227 | a compass point is vacant exactly when no set occupies it |
| QuickSelect.QuickSelectCollection.GetRadialVacancies | src/workflowtools/scripts/quickmenus/fmenus/menus.py:222-227 | the loop removing occupied points from the compass list, proved equal to `Vacancies` |
| QuickSelect.QuickSelectCollection.AddSet | src/workflowtools/scripts/quickmenus/fmenus/menus.py:196-204 | TypeError for a non-set; ValueError exactly when its position is taken; otherwise appended and saved; positions that were distinct stay distinct (only the new set is checked) |
| QuickSelect.QuickSelectCollection.RemoveSetAtPosition | src/workflowtools/scripts/quickmenus/fmenus/menus.py:206-211 | removes only the first set at the position and saves; a no-op if there is none; distinct positions stay distinct |
| QuickSelect.QuickSelectCollection.IndexOfPosition | src/workflowtools/scripts/quickmenus/fmenus/menus.py:207-208 | the search loop finds the first set at the position, proved equal to `FirstAt` |
| QuickSelect.QuickSelectCollection.RemoveSetAtIndex | src/workflowtools/scripts/quickmenus/fmenus/menus.py:213-216 | removes exactly that element, keeping the rest in order, and saves; a no-op out of range |
| QuickSelect.QuickSelectCollection.AddSetFromSelection | src/workflowtools/scripts/quickmenus/fmenus/menus.py:332-335 | an empty selection changes nothing; otherwise ValueError exactly when the position is taken, changing nothing, or a fresh untitled set holding the selected nodes' string forms in order at the position is appended and the collection saved |
| QuickSelect.QuickSelectCollection.ClearSets | src/workflowtools/scripts/quickmenus/fmenus/menus.py:218-220 | no sets remain and the empty list is saved |
| QuickSelect.QuickSelectCollection.Save | src/workflowtools/scripts/quickmenus/fmenus/menus.py:160-168 | the store holds the dictionaries of the sets under the collection's name |
| QuickSelect.QuickSelectCollection.Load | src/workflowtools/scripts/quickmenus/fmenus/menus.py:152-158 | the sets are rebuilt from the stored dictionaries |
| QuickSelect.QuickSelectState.MakeActive | src/workflowtools/scripts/quickmenus/fmenus/menus.py:173-178 | afterwards the collection is the active one |
| QuickSelect.QuickSelectState.GetActiveCollection | src/workflowtools/scripts/quickmenus/fmenus/menus.py:76-89 | the active collection if it exists, otherwise the default one (created empty when missing), which becomes active |
| QuickSelect.QuickSelectState.AddSelectionToActive | src/workflowtools/scripts/quickmenus/fmenus/menus.py:301-335 | the menu path: the collection is the active one when stored, else the default; ValueError exactly when the selection is non-empty and its position is taken among the loaded sets; on success with a selection the store holds the loaded sets followed by the selection's set, and otherwise the loaded sets |
| MaskingMenus.BuildKwargs | src/workflowtools/scripts/quickmenus/qmenus/menus.py:87-92 | exactly the given keys, each mapped to the value |
| MaskingMenus.SetObjectSelectType | src/workflowtools/scripts/quickmenus/qmenus/menus.py:87-92 | an object-mode call with exactly the given keys mapped to `enabled` |
| MaskingMenus.SetComponentSelectType | src/workflowtools/scripts/quickmenus/qmenus/menus.py:344-352 | the given keys map to `enabled` and every other component key to `not enabled` |
| MaskingMenus.AddMissing | src/workflowtools/scripts/quickmenus/qmenus/menus.py:349-351 | every key of the list is added with the given value unless already present; present keys keep their values |
| MaskingMenus.MaskKeyForShape | src/workflowtools/scripts/quickmenus/qmenus/menus.py:108-117 | `nurbsSurface`, `subdiv`, `joint`, `camera` and `locator` keep their name; `mesh` gives `polymesh`; a type containing `light` gives `light`; `nurbsCurve` gives `curve`; no key for any other type |
| MaskingMenus.SelectionMaskKeys | src/workflowtools/scripts/quickmenus/qmenus/menus.py:104-117 | a key is in the result exactly when some selected object has it as its mask key |
| MaskingMenus.SetMaskingToSelection | src/workflowtools/scripts/quickmenus/qmenus/menus.py:99-119 | first every object mask is turned off; a second call turning on the selection's keys exists exactly when there are any |
| MaskingMenus.MostDerivedIn | src/workflowtools/scripts/quickmenus/qmenus/menus.py:252-258 | none exactly when no inherited type is an option; otherwise an inherited option |
| MaskingMenus.MostDerivedAt | src/workflowtools/scripts/quickmenus/qmenus/menus.py:252-258 | the result is the last (most derived) inherited type that is an option |
| MaskingMenus.MostDerivedType | src/workflowtools/scripts/quickmenus/qmenus/menus.py:255-258 | the reverse scan with `break` over the inherited types, proved equal to `MostDerivedIn` |
| MaskingMenus.ShapeTypes | src/workflowtools/scripts/quickmenus/qmenus/menus.py:251-259 | a type is reported exactly when it is the most-derived option of some shape; each shape contributes at most one |
| MaskingMenus.ObjectShapeTypes | src/workflowtools/scripts/quickmenus/qmenus/menus.py:243-259 | an object whose own type is an option reports just that type; a transform reports exactly the most-derived options of its shapes; any other object reports its own most-derived option, if any |
| MaskingMenus.GetShapeTypes | src/workflowtools/scripts/quickmenus/qmenus/menus.py:237-259 | the nested loop with `break`, proved equal to the corrected `ObjectShapeTypes` |
| MaskingMenus.ObjectShapeTypesAsWritten | src/workflowtools/scripts/quickmenus/qmenus/menus.py:243-250 | AttributeError exactly for a non-transform object whose type is not an option; otherwise the corrected result |
| MaskingMenus.PointLightShapeTypes | src/workflowtools/scripts/quickmenus/qmenus/menus.py:243-250 | a point light fails as written, but is reported as `light` (display key `lights`) once corrected |
| MaskingMenus.GetDisplayKeys | src/workflowtools/scripts/quickmenus/qmenus/menus.py:192-235 | for the corrected program (see Findings): one key per shape type of the object, and a key is returned exactly when the node-type table maps one of those types to it |
| MaskingMenus.DisplayKeyUnion | src/workflowtools/scripts/quickmenus/qmenus/menus.py:182-185 | a key is in the union exactly when it is a display key of some selected object; every key is a value of the node-type table |
| MaskingMenus.AddNewKeys | src/workflowtools/scripts/quickmenus/qmenus/menus.py:185-186 | the keys afterwards are exactly the old keys together with the object's keys |
| MaskingMenus.HideSelected | src/workflowtools/scripts/quickmenus/qmenus/menus.py:180-190 | for the corrected program (see Findings): no editor call exactly when the union is empty; otherwise exactly the union keys, all turned off |
| MaskingMenus.StrLessEqTotal | src/workflowtools/scripts/quickmenus/qmenus/menus.py:284-285 | any two names are ordered |
| MaskingMenus.StrLessEqTrans | src/workflowtools/scripts/quickmenus/qmenus/menus.py:284-285 | the name order is transitive |
| MaskingMenus.InsertCameraSorted | src/workflowtools/scripts/quickmenus/qmenus/menus.py:284-285 | inserting into a sorted list keeps it sorted and adds exactly one camera |
| MaskingMenus.SortCameras | src/workflowtools/scripts/quickmenus/qmenus/menus.py:284-285 | sorted by name and a permutation |
| MaskingMenus.WithOrtho | src/workflowtools/scripts/quickmenus/qmenus/menus.py:284-300 | exactly the cameras with the given ortho flag |
| MaskingMenus.WithOrthoPartition | src/workflowtools/scripts/quickmenus/qmenus/menus.py:284-300 | the two groups together are exactly the scene's cameras |
| MaskingMenus.CameraMenuItems | src/workflowtools/scripts/quickmenus/qmenus/menus.py:267-303 | no camera, no items; otherwise same-ortho cameras sorted on the radial layout (current one as the radio item), a divider iff more than eight, then the others sorted |
| MaskingMenus.RadioItems | src/workflowtools/scripts/quickmenus/qmenus/menus.py:287-296 | one item per same-ortho camera, at its slot, checked exactly for the current camera |
| MaskingMenus.PlainItems | src/workflowtools/scripts/quickmenus/qmenus/menus.py:300-303 | one plain item per other camera, in order |
| Resetter.Restored | src/workflowtools/scripts/resetter/core.py:161-166 | a value of the attribute type, or one that is not a tuple, is kept as it is; a one-element tuple for an attribute of another type is unwrapped to its element; other tuples are kept |
| Resetter.Scene.GetDefaultsAttr | src/workflowtools/scripts/resetter/core.py:122-135 | NodeNotFound for an unknown node; with `create`, the attribute is added (holding `{}`) unless the node is locked or read-only; reports whether it exists |
| Resetter.Scene.GetDefaults | src/workflowtools/scripts/resetter/core.py:137-169 | `{}` without a defaults attribute or a dictionary; never the `brstDefaults` key, only keys naming the node's attributes; equal to `DefaultsOf` |
| Resetter.RestoreDefaults | src/workflowtools/scripts/resetter/core.py:151-168 | the loop over the stored dictionary, proved equal to `RestoredFrom`: RuntimeError when a kept attribute cannot be read, otherwise the kept entries restored |
| Resetter.StoreDefaults | src/workflowtools/scripts/resetter/core.py:104-109 | writes the dictionary exactly when the store is writable, otherwise leaves the node as it was |
| Resetter.StoreThenRead | src/workflowtools/scripts/resetter/core.py:85-169 | what `setDefaultsForAttrs` stores, `getDefaults` reads back unchanged |
| Resetter.Scene.CollectDefaults | src/workflowtools/scripts/resetter/core.py:93-103 | the readable attributes of the first attribute's node, other nodes' attributes and the defaults attribute skipped |
| Resetter.Scene.SetDefaultsForAttrs | src/workflowtools/scripts/resetter/core.py:85-109 | for the corrected program (see Findings): IndexError for an empty list; only the first attribute node changes, by `StoreDefaults` of the collected values |
| Resetter.Scene.WriteDefaults | src/workflowtools/scripts/resetter/core.py:104-109 | the node becomes `StoreDefaults` of its old state; no other node changes |
| Resetter.StoreDefaultsAsWritten | src/workflowtools/scripts/resetter/core.py:104-105 | AttributeError for a locked or read-only node without a defaults attribute |
| Resetter.LockedNodeStoreFails | src/workflowtools/scripts/resetter/core.py:104-105 | a locked node without defaults raises as written and is left unchanged once corrected |
| Resetter.RemovedDefaults | src/workflowtools/scripts/resetter/core.py:186-192 | the defaults attribute goes exactly when the node is neither locked nor read-only |
| Resetter.Scene.RemoveDefaults | src/workflowtools/scripts/resetter/core.py:174-193 | locked and read-only nodes are skipped; the result is exactly the listed nodes that had defaults and could lose them, each once |
| Resetter.Scene.RemoveDefaultsOf | src/workflowtools/scripts/resetter/core.py:186-192 | reports a removal exactly when the node was removable, and only that node changes, by `RemovedDefaults` |
| Resetter.Scene.ObjectsWithDefaults | src/workflowtools/scripts/resetter/core.py:113-120 | exactly the listed nodes with a defaults attribute |
| Resetter.AttrsMatching | src/workflowtools/scripts/resetter/core.py:72 | `listAttr` with a query: exactly the node's attributes it matches |
| Resetter.ExistingAttrs | src/workflowtools/scripts/resetter/core.py:73 | exactly the named attributes the node has |
| Resetter.AttrsForDefaults | src/workflowtools/scripts/resetter/core.py:68-74 | the channel-box selection with `cbsel`; otherwise an attribute is chosen exactly when the keyable, channel-box or custom query lists it (the custom query may list the defaults attribute) or it is named and the node has it |
| Resetter.SetDefaultsOnNode | src/workflowtools/scripts/resetter/core.py:77-82 | with chosen attributes, a node whose defaults attribute is writable (or can be created) reads back exactly the collected values of those attributes, and any other node is unchanged; with none, the defaults go exactly when the node is removable |
| Resetter.ChosenStoredTwice | src/workflowtools/scripts/resetter/core.py:76-82 | handling a node a second time leaves it as the first time left it |
| Resetter.QueryOfDefaultsOnly | src/workflowtools/scripts/resetter/core.py:68-82 | a custom query that lists only the defaults attribute still counts as a choice: `{}` is stored and the defaults attribute stays |
| Resetter.SetDefaultsAll | src/workflowtools/scripts/resetter/core.py:76-82 | each listed node ends as `SetDefaultsOnNode` of its chosen attributes leaves it, however often it is listed; nodes not listed are untouched; attributes are never changed |
| Resetter.Scene.SetDefaults | src/workflowtools/scripts/resetter/core.py:37-83 | for the corrected program (see Findings): the scene becomes `SetDefaultsAll` of the old scene, with the channel-box selection taken before any change |
| Resetter.MergeObjects | src/workflowtools/scripts/resetter/core.py:295-300 | the listed objects gain entries and other entries stay; an attribute is in an entry exactly when it was before or the object is listed, has the attribute, and the attribute is among those given |
| Resetter.MergeSection | src/workflowtools/scripts/resetter/core.py:295-300 | the loop over a section's objects, proved equal to `MergeObjects` |
| Resetter.ChannelBoxSelection | src/workflowtools/scripts/resetter/core.py:267-302 | an object has an entry exactly when a queried section lists it; an attribute is in its entry exactly when some queried section listing the object selects it and the object has it |
| Resetter.SelectionMerged | src/workflowtools/scripts/resetter/core.py:295-300 | merging a queried section into the selection of the earlier sections gives the selection of all of them |
| Resetter.Scene.GetChannelBoxSelection | src/workflowtools/scripts/resetter/core.py:290-302 | the nested loops, proved equal to `ChannelBoxSelection` |
| Resetter.ResetTargets | src/workflowtools/scripts/resetter/core.py:236-243 | stored defaults suppress the basic reset; without them and with `useBasicDefaults` the basic reset |
| Resetter.BasicResetValues | src/workflowtools/scripts/resetter/core.py:239-243 | tx..sz that exist and are settable, 1 for scale and 0 otherwise |
| Resetter.ChannelResets | src/workflowtools/scripts/resetter/core.py:240-243 | exactly the listed channels the node has and can set, each mapped to 1 when its name contains `s` and to 0 otherwise |
| Resetter.TrimToSelection | src/workflowtools/scripts/resetter/core.py:245-249 | only values of selected attributes remain, unchanged |
| Resetter.WriteAll | src/workflowtools/scripts/resetter/core.py:251-259 | only settable attributes change, and each only to its target value |
| Resetter.WriteNode | src/workflowtools/scripts/resetter/core.py:251-259 | the write loop, proved equal to `WriteAll` |
| Resetter.UnselectedNodeUntouched | src/workflowtools/scripts/resetter/core.py:245-249 | a node absent from a non-empty channel-box selection is left unchanged |
| Resetter.ResetAll | src/workflowtools/scripts/resetter/core.py:233-259 | nodes not listed are untouched; no node gains or loses attributes or defaults |
| Resetter.ResetAllResets | src/workflowtools/scripts/resetter/core.py:233-259 | for a list without repeats: on success every listed node ends as its own reset (`ResetNode` of its old state, limited to its channel-box selection), and a failure carries the error of a listed node whose defaults cannot be read |
| Resetter.Scene.Reset | src/workflowtools/scripts/resetter/core.py:212-259 | TypeError for a non-node argument and NodeNotFound for an unknown name, both changing nothing; otherwise the nodes are reset one after the other as `ResetAll` says |
| Resetter.Scene.CheckNodes | src/workflowtools/scripts/resetter/core.py:230 | reports true exactly when every name is a node of the scene |
| Resetter.Scene.ResetEach | src/workflowtools/scripts/resetter/core.py:233-259 | the loop over the nodes, proved equal to `ResetAll` |

## Left out

- Host effects are not modelled: menus and menu items, `selectType` and `modelEditor` calls, runtime commands, hotkeys, deleting UI, and node creation. Where an effect matters, it is a returned value (select-type calls, editor flags, camera menu items) or a field of a host class (`HotkeyHost`, `CollectionStore`, `Scene`).
- Logging and warnings are not modelled; a warning path is modelled as its outcome.
- `resetter/view.py`, `rmbmenuhook/core.py`, `quickmenus/qmenus/core.py` and `quickmenus/fmenus/core.py` are not part of this model. They hold UI layout, MEL sourcing and fixed sequences of registration calls.
- Dialog-driven flows are not modelled: prompts, set and collection editing, and renaming.
- `Lower` is ASCII-only, not Unicode case folding.
- Python dictionaries become Dafny maps, and the RMB registry is a list of registrations in insertion order. Where iteration order is unobservable, it is not modelled.
- QuickMenusCore.RegisterIn: the source rebuilds the list through `set(...)`, whose order is unspecified. The model appends a new class and keeps the order otherwise; its contract is stated on membership and on having no duplicates.
- Radial positions are a `Compass` datatype, and a set's position is `Option<Compass>`. Other position strings are not modelled.
- QuickSelect.QuickSelectCollection.Save: pymetanode persistence is a map from collection name to the sets' dictionaries. Node creation, renaming and name clashes are not modelled.
- Resetter: the `str(dict)`/`eval` serialisation of defaults is not modelled. A stored value is either an already parsed dictionary or not a dictionary.
- Resetter.Scene.Reset: a `set` that Maya rejects on a settable attribute is logged and skipped in the source. The model treats every set on a settable attribute as succeeding and does not convert values between numeric types.
- Resetter.Scene.Reset and Resetter.Scene.SetDefaults: `nodes=None` (use the scene selection) is not modelled; the caller passes the selection as a list. For `setDefaults`, only node objects are modelled: a plain name string reaches `listAttr`/`isReadOnly` in the source.
- Resetter.AttrsForDefaults: `attrQuery` keyword arguments for `listAttr` are modelled as a predicate on an ordinary attribute together with a predicate on the lock state of the defaults attribute, which says whether the query lists that one too. The position of the defaults attribute within the query result is not modelled; it is placed last.
- RmbMenuHook.SortByPriority, RmbMenuHook.Registry.GetPrioritizedMenuClasses, Resetter.ChannelBoxSelection, Resetter.Scene.GetChannelBoxSelection and Resetter.Scene.Reset: these model the Python 2 meaning of `dict.values()` followed by `list.sort` and of `dict.has_key`: a sort and a membership test. Under Python 3 those calls raise AttributeError; that error is not modelled.
- Resetter.ResetAllResets: a list that names a node twice resets it twice, and a second reset can differ from the first because restored values depend on the current ones; the lemma covers lists without repeats only.
- Resetter.ChannelBoxSelection: the queried sections are inputs in the order given. The order of the source's `opts` dictionary is not modelled.
- Resetter: `resetAll` and `removeAllDefaults` (the whole-scene variants, which list every node) are not modelled separately. They are `Reset`/`RemoveDefaults` over the names `ObjectsWithDefaults` returns.
- Resetter: `setDefaultsNonkeyable` and `setDefaultsCBSelection` are not modelled separately; they are `SetDefaults` with fixed options.
- `getAllRegisteredMenus` (RMB hook), `getAllCollections`, `getCollection`, `getDefaultCollection` and `createCollection` are scene or dictionary listings and are not modelled separately; the collection lookups appear inside `QuickSelect.QuickSelectState.GetActiveCollection`.
- Resetter.Scene.GetDefaultsAttr: only node names are modelled, so the TypeError for a non-node argument is out of scope.
- MaskingMenus.SortCameras: cameras are sorted by name; the source sorts PyNode objects.
- QuickMenusCore.HotkeyHost: the host keeps one binding table for all hotkey sets. Bindings that stay behind in the previous set after a switch are not modelled.
- MaskingMenus.CameraMenuItems: finding the camera under the pointer is an input (`current`), and its failure is `None`. Menu labels (the camera's transform) are kept in the `Camera` record.

## Findings

| source | as written | input that shows it | evidently intended | confidence | as-written member | corrected member |
|---|---|---|---|---|---|---|
| src/workflowtools/scripts/quickmenus/qmenus/menus.py:249-250 | for an object that is not a transform and whose own type is not an option, `shapes = [objtype]` is a list holding a string, and `s.nodeType(i=True)` then raises AttributeError | a selected point light: type `pointLight`, not in the node-type table, not a transform | analyse the object itself (`shapes = [obj]`), so that its most-derived listed type (`light`) is used | high, not executed | MaskingMenus.ObjectShapeTypesAsWritten, MaskingMenus.PointLightShapeTypes | MaskingMenus.ObjectShapeTypes, MaskingMenus.GetShapeTypes |
| src/workflowtools/scripts/resetter/core.py:104-105 | on a locked or read-only node without a defaults attribute, `getDefaultsAttr(node, True)` warns and returns None, and `dattr.isLocked()` raises AttributeError | `setDefaultsForAttrs` on the attributes of a locked node that has never stored defaults | warn and write nothing, as for a locked defaults attribute | high, not executed | Resetter.StoreDefaultsAsWritten, Resetter.LockedNodeStoreFails | Resetter.StoreDefaults, Resetter.Scene.SetDefaultsForAttrs |
