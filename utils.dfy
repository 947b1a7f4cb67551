/** The quick-menu helpers: decoding the host's modifier bitmask, parsing a
    hotkey string such as "Alt+Shift+Q" into the keyword arguments of the
    host's `hotkey` command, and laying out menu items on radial (compass)
    positions. */
module QuickMenuUtils {
  import opened Base

  // ---------------------------------------------------------------------
  // Modifier keys

  /** (isShiftPressed, isCtrlPressed, isAltPressed) */
  datatype Modifiers = Modifiers(shift: bool, ctrl: bool, alt: bool)

  /** Decodes the bitmask the host reports for the modifier keys:
      shift is bit value 1, ctrl 4 and alt 8. */
  function GetModifiers(mods: bv32): Modifiers {
    Modifiers(mods & 1 != 0, mods & 4 != 0, mods & 8 != 0)
  }

  /** The bitmask in which exactly the given modifiers are pressed. */
  function ModifierMask(m: Modifiers): bv32 {
    (if m.shift then 1 else 0) | (if m.ctrl then 4 else 0) | (if m.alt then 8 else 0)
  }

  /** Decoding recovers the pressed modifiers from any mask that contains
      theirs, whatever other bits (caps lock = 2, command = 16, ...) are set. */
  lemma GetModifiersOfMask(m: Modifiers, others: bv32)
    requires others & 13 == 0
    ensures GetModifiers(ModifierMask(m) | others) == m
  {
    var mask := ModifierMask(m) | others;
    assert (mask & 1 != 0) == m.shift;
    assert (mask & 4 != 0) == m.ctrl;
    assert (mask & 8 != 0) == m.alt;
  }

  // ---------------------------------------------------------------------
  // Hotkey strings

  /** The keyword arguments for the host's `hotkey` command. A modifier flag
      that is false stands for a key absent from the source's dict. */
  datatype HotkeyKwargs = HotkeyKwargs(alt: bool, sht: bool, ctl: bool, cmd: bool, k: Option<string>)

  predicate IsModifierToken(t: string) {
    t == "alt" || t == "shift" || t == "ctrl" || t == "command"
  }

  /** The tokens that are not modifier names, in order. */
  function KeyTokens(tokens: seq<string>): (r: seq<string>)
    ensures forall t :: t in r <==> t in tokens && !IsModifierToken(t)
    ensures |r| <= |tokens|
  {
    if tokens == [] then []
    else if IsModifierToken(tokens[0]) then KeyTokens(tokens[1..])
    else [tokens[0]] + KeyTokens(tokens[1..])
  }

  /** The tokens of a hotkey string: lower-cased, split on '+'. */
  function HotkeyTokens(keyString: string): seq<string> {
    Split(Lower(keyString), '+')
  }

  /** The parse of a hotkey string, as a value. */
  function ParseHotkey(keyString: string): Result<HotkeyKwargs> {
    var tokens := HotkeyTokens(keyString);
    var keys := KeyTokens(tokens);
    if |keys| > 1 then Err(ValueError)
    else Ok(HotkeyKwargs("alt" in tokens, "shift" in tokens, "ctrl" in tokens, "command" in tokens,
                         if keys == [] then None else Some(keys[0])))
  }

  /** Parses a hotkey string. Each of alt/shift/ctrl/command (in any case and
      any order) sets its flag; the first other token, lower-cased, is the
      key; a second non-modifier token is a ValueError. */
  method GetHotkeyKwargs(keyString: string) returns (r: Result<HotkeyKwargs>)
    ensures var tokens := HotkeyTokens(keyString);
      && (r.Ok? <==> |KeyTokens(tokens)| <= 1)
      && (r.Err? ==> r.error == ValueError)
      && (r.Ok? ==>
            && r.value.alt == ("alt" in tokens)
            && r.value.sht == ("shift" in tokens)
            && r.value.ctl == ("ctrl" in tokens)
            && r.value.cmd == ("command" in tokens)
            && r.value.k == (if KeyTokens(tokens) == [] then None else Some(KeyTokens(tokens)[0])))
    ensures r == ParseHotkey(keyString)
  {
    var split := Split(Lower(keyString), '+');
    var kwargs := HotkeyKwargs(false, false, false, false, None);
    var i := 0;
    while i < |split|
      invariant 0 <= i <= |split|
      invariant Scanned(kwargs, split[..i])
    {
      var s := split[i];
      ghost var kwargs0, seen := kwargs, split[..i];
      assert split[..i + 1] == seen + [s];
      if s == "alt" {
        kwargs := kwargs.(alt := true);
      } else if s == "shift" {
        kwargs := kwargs.(sht := true);
      } else if s == "ctrl" {
        kwargs := kwargs.(ctl := true);
      } else if s == "command" {
        kwargs := kwargs.(cmd := true);
      } else {
        if kwargs.k.None? {
          kwargs := kwargs.(k := Some(s));
        } else {
          KeyTokensSnoc(seen, s);
          KeyTokensPrefix(split, i + 1);
          r := Err(ValueError);
          ParsedAs(keyString, r);
          return;
        }
      }
      ScannedSnoc(kwargs0, seen, s, kwargs);
      i := i + 1;
    }
    assert split[..i] == split;
    r := Ok(kwargs);
    ParsedAs(keyString, r);
  }

  /** One more token keeps the scan in step: a modifier name sets its
      flag, any other token becomes the key while there is none. */
  lemma ScannedSnoc(kwargs: HotkeyKwargs, seen: seq<string>, s: string, kwargs': HotkeyKwargs)
    requires Scanned(kwargs, seen)
    requires kwargs'.alt == (kwargs.alt || s == "alt")
    requires kwargs'.sht == (kwargs.sht || s == "shift")
    requires kwargs'.ctl == (kwargs.ctl || s == "ctrl")
    requires kwargs'.cmd == (kwargs.cmd || s == "command")
    requires IsModifierToken(s) ==> kwargs'.k == kwargs.k
    requires !IsModifierToken(s) ==> kwargs.k.None? && kwargs'.k == Some(s)
    ensures Scanned(kwargs', seen + [s])
  {
    KeyTokensSnoc(seen, s);
  }

  /** What a parse result says about the hotkey string's tokens. */
  lemma ParsedAs(keyString: string, r: Result<HotkeyKwargs>)
    requires r == ParseHotkey(keyString)
    ensures var tokens := HotkeyTokens(keyString);
      && (r.Ok? <==> |KeyTokens(tokens)| <= 1)
      && (r.Err? ==> r.error == ValueError)
      && (r.Ok? ==>
            && r.value.alt == ("alt" in tokens)
            && r.value.sht == ("shift" in tokens)
            && r.value.ctl == ("ctrl" in tokens)
            && r.value.cmd == ("command" in tokens)
            && r.value.k == (if KeyTokens(tokens) == [] then None else Some(KeyTokens(tokens)[0])))
  {
  }

  /** The flags and key collected from the tokens seen so far, none of
      which has been a second key. */
  ghost predicate Scanned(kwargs: HotkeyKwargs, seen: seq<string>) {
    && kwargs.alt == ("alt" in seen)
    && kwargs.sht == ("shift" in seen)
    && kwargs.ctl == ("ctrl" in seen)
    && kwargs.cmd == ("command" in seen)
    && |KeyTokens(seen)| <= 1
    && kwargs.k == (if KeyTokens(seen) == [] then None else Some(KeyTokens(seen)[0]))
  }

  lemma {:induction false} KeyTokensSnoc(tokens: seq<string>, t: string)
    ensures KeyTokens(tokens + [t]) == KeyTokens(tokens) + (if IsModifierToken(t) then [] else [t])
    decreases |tokens|
  {
    if tokens == [] {
      assert [] + [t] == [t];
    } else {
      assert (tokens + [t])[1..] == tokens[1..] + [t];
      KeyTokensSnoc(tokens[1..], t);
    }
  }

  /** A prefix of the tokens has no more key tokens than the whole. */
  lemma {:induction false} KeyTokensPrefix(tokens: seq<string>, n: nat)
    requires n <= |tokens|
    ensures |KeyTokens(tokens[..n])| <= |KeyTokens(tokens)|
    decreases |tokens| - n
  {
    if n == |tokens| {
      assert tokens[..n] == tokens;
    } else {
      KeyTokensPrefix(tokens, n + 1);
      assert tokens[..n + 1] == tokens[..n] + [tokens[n]];
      KeyTokensSnoc(tokens[..n], tokens[n]);
    }
  }

  /** A parsed key is a single lower-case token: it holds no '+' and no
      upper-case ASCII letter. */
  lemma HotkeyKeyIsLowerToken(keyString: string, t: string)
    requires t in KeyTokens(HotkeyTokens(keyString))
    ensures '+' !in t
    ensures Lower(t) == t
  {
    var low := Lower(keyString);
    forall i | 0 <= i < |t| ensures LowerChar(t[i]) == t[i] {
      assert t[i] in t;
      assert t[i] in low;
      var j :| 0 <= j < |low| && low[j] == t[i];
    }
  }

  // ---------------------------------------------------------------------
  // Radial positions

  datatype Compass = N | NE | E | SE | S | SW | W | NW

  /** The eight radial positions in compass order. */
  const RadialPositions: seq<Compass> := [N, NE, E, SE, S, SW, W, NW]

  /** Hand-spread layouts for fewer than five items. */
  const SpreadLayouts: seq<seq<Option<Compass>>> := [
    [], [Some(N)], [Some(N), Some(S)], [Some(N), Some(E), Some(W)],
    [Some(N), Some(E), Some(S), Some(W)]
  ]

  /** The layout for `count` items: a spread table below five, otherwise
      the compass points in order and no position past the eighth. */
  function RadialLayout(count: nat): seq<Option<Compass>> {
    if count < |SpreadLayouts| then SpreadLayouts[count]
    else seq(count, i requires 0 <= i < count =>
               if i < |RadialPositions| then Some(RadialPositions[i]) else None)
  }

  lemma RadialPositionsDistinct()
    ensures NoDup(RadialPositions)
  {
  }

  /** Every layout has one slot per item and never puts two items on the same
      compass position. */
  lemma RadialLayoutShape(count: nat)
    ensures |RadialLayout(count)| == count
    ensures forall i, j :: 0 <= i < j < count && RadialLayout(count)[i].Some? ==>
              RadialLayout(count)[i] != RadialLayout(count)[j]
    ensures forall i :: 0 <= i < count ==> (RadialLayout(count)[i].Some? <==> i < 8)
  {
  }

  /** Returns the radial position of each of `count` items; a negative count
      is a ValueError. */
  method GetRadialMenuPositions(count: int) returns (r: Result<seq<Option<Compass>>>)
    ensures r.Err? <==> count < 0
    ensures r.Err? ==> r.error == ValueError
    ensures r.Ok? ==> |r.value| == count && r.value == RadialLayout(count)
  {
    if count < 0 {
      return Err(ValueError);
    }
    if count < |SpreadLayouts| {
      return Ok(SpreadLayouts[count]);
    }
    var results: seq<Option<Compass>> := [];
    for i := 0 to count
      invariant |results| == i
      invariant forall j :: 0 <= j < i ==>
                  results[j] == if j < |RadialPositions| then Some(RadialPositions[j]) else None
    {
      if i < |RadialPositions| {
        results := results + [Some(RadialPositions[i])];
      } else {
        results := results + [None];
      }
    }
    r := Ok(results);
  }
}
