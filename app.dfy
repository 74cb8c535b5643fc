/** The application shell (src/main.py): the global hotkey string parser and
    the guard that turns a selected screen region into a processing command. */
module App {
  import opened Common
  import Text
  import Pipeline

  /** The Windows `RegisterHotKey` modifier flags. */
  const ModAlt: bv8 := 0x1
  const ModControl: bv8 := 0x2
  const ModShift: bv8 := 0x4
  const ModWin: bv8 := 0x8

  /** Virtual-key code of F1; F<n> is `0x70 + n - 1`. */
  const VkF1: int := 0x70

  /** A parsed hotkey: the modifier mask and the virtual-key code. */
  datatype Hotkey = Hotkey(modifiers: bv8, vk: int)

  /** The parts of a hotkey string: split on `+`, each part stripped. */
  function HotkeyParts(hotkey: string): (parts: seq<string>)
    ensures |parts| == |Text.Split(hotkey, '+')|
    ensures forall i :: 0 <= i < |parts| ==> parts[i] == Text.Strip(Text.Split(hotkey, '+')[i])
  {
    var pieces := Text.Split(hotkey, '+');
    seq(|pieces|, i requires 0 <= i < |pieces| => Text.Strip(pieces[i]))
  }

  /** The modifier a part names, compared case-insensitively, if any. */
  function ModifierFlag(part: string): Option<bv8> {
    ModifierNamed(Text.Lower(part))
  }

  /** The modifier a lower-case part names, if any. */
  function ModifierNamed(p: string): Option<bv8> {
    if p == "ctrl" || p == "control" then Some(ModControl)
    else if p == "shift" then Some(ModShift)
    else if p == "alt" then Some(ModAlt)
    else if p == "win" then Some(ModWin)
    else None
  }

  /** The key a part that is not a modifier gives: a single character is its
      upper-case code; `f` followed by one or two characters that `int()`
      accepts is that function key; anything else gives no key. */
  function KeyCode(part: string): Option<int> {
    if |part| == 1 then Some(Text.Upper(part)[0] as int)
    else FunctionKey(Text.Lower(part))
  }

  /** The function key a lower-case part of two or more characters names:
      `f` and at most two more characters that `int()` reads as `n` give
      `VK_F1 + n - 1`. */
  function FunctionKey(p: string): Option<int> {
    if 1 <= |p| <= 3 && p[0] == 'f' then
      match Text.ParseInt(p[1..])
      case Some(n) => Some(VkF1 + n - 1)
      case None => None
    else None
  }

  /** What a part contributes as a key: modifiers never do. */
  function PartKey(part: string): Option<int> {
    if ModifierFlag(part).Some? then None else KeyCode(part)
  }

  /** The flag each part ORs into the mask (0 for a non-modifier). */
  function Flags(parts: seq<string>): seq<bv8> {
    seq(|parts|, i requires 0 <= i < |parts| => ModifierFlag(parts[i]).GetOr(0))
  }

  /** The key each part contributes, if any. */
  function Keys(parts: seq<string>): seq<Option<int>> {
    seq(|parts|, i requires 0 <= i < |parts| => PartKey(parts[i]))
  }

  /** The OR of a list of flags. */
  function OrAll(flags: seq<bv8>): bv8 {
    if flags == [] then 0 else OrAll(flags[..|flags| - 1]) | flags[|flags| - 1]
  }

  /** The last key present in a list, if any. */
  function LastSome(keys: seq<Option<int>>): Option<int> {
    if keys == [] then None
    else if keys[|keys| - 1].Some? then keys[|keys| - 1]
    else LastSome(keys[..|keys| - 1])
  }

  /** The hotkey a list of parts describes: the OR of the modifier flags and
      the key of the last part that gives one, or nothing without a key. */
  function HotkeyOfParts(parts: seq<string>): Option<Hotkey> {
    match LastSome(Keys(parts))
    case None => None
    case Some(vk) => Some(Hotkey(OrAll(Flags(parts)), vk))
  }

  /** The hotkey a hotkey string describes. */
  function HotkeyOf(hotkey: string): Option<Hotkey> {
    HotkeyOfParts(HotkeyParts(hotkey))
  }

  /** `HotkeyWindow`: the hidden window that owns the global hotkey. */
  class HotkeyWindow {
    const hotkeyStr: string
    /** What the window registered with `RegisterHotKey`, if anything. */
    var registration: Option<Hotkey>

    /** `__init__`: keeps the hotkey string and registers it at once. */
    constructor (hotkey: string)
      ensures hotkeyStr == hotkey
      ensures registration == HotkeyOf(hotkey)
    {
      hotkeyStr := hotkey;
      new;
      registration := RegisterHotkey();
    }

    /** The parsing part of `register_hotkey`: goes through the parts in
        order, OR-ing in modifier flags and overwriting the key with every part
        that gives one. It yields what would be passed to `RegisterHotKey`, or
        nothing (a warning, no registration) when no key was found. */
    method RegisterHotkey() returns (request: Option<Hotkey>)
      ensures request == HotkeyOf(hotkeyStr)
    {
      var parts := HotkeyParts(hotkeyStr);
      var modifiers: bv8 := 0;
      var vkCode: Option<int> := None;
      var i := 0;
      while i < |parts|
        invariant 0 <= i <= |parts|
        invariant modifiers == OrAll(Flags(parts)[..i])
        invariant vkCode == LastSome(Keys(parts)[..i])
      {
        var part := parts[i];
        FoldStep(parts, i);
        var flag := ModifierFlag(part);
        if flag.Some? {
          modifiers := modifiers | flag.value;
        } else {
          var key := KeyCode(part);
          if key.Some? {
            vkCode := key;
          }
        }
        i := i + 1;
      }
      assert Flags(parts)[..i] == Flags(parts) && Keys(parts)[..i] == Keys(parts);
      if vkCode.None? {
        return None;
      }
      return Some(Hotkey(modifiers, vkCode.value));
    }
  }

  /** One more part ORs in its flag and, when it gives a key, replaces the
      key found so far. */
  lemma FoldStep(parts: seq<string>, i: nat)
    requires i < |parts|
    ensures OrAll(Flags(parts)[..i + 1]) == OrAll(Flags(parts)[..i]) | ModifierFlag(parts[i]).GetOr(0)
    ensures LastSome(Keys(parts)[..i + 1]) ==
      if PartKey(parts[i]).Some? then PartKey(parts[i]) else LastSome(Keys(parts)[..i])
  {
    assert Flags(parts)[..i + 1][..i] == Flags(parts)[..i];
    assert Keys(parts)[..i + 1][..i] == Keys(parts)[..i];
  }

  predicate IsModifierFlag(bit: bv8) {
    bit == ModAlt || bit == ModControl || bit == ModShift || bit == ModWin
  }

  /** In a list of flags that are each 0 or one modifier flag, a modifier bit
      is set in the OR exactly when it occurs, and the high bits stay clear. */
  lemma {:induction false} OrAllFlags(flags: seq<bv8>, bit: bv8)
    requires IsModifierFlag(bit)
    requires forall i :: 0 <= i < |flags| ==> flags[i] == 0 || IsModifierFlag(flags[i])
    ensures (OrAll(flags) & bit != 0) <==> bit in flags
    ensures OrAll(flags) & 0xF0 == 0
  {
    if flags != [] {
      var init := flags[..|flags| - 1];
      OrAllFlags(init, bit);
      assert flags == init + [flags[|flags| - 1]];
    }
  }

  /** Each of the four flags is set exactly when some part names that
      modifier, and no other bit is ever set; so repeating a modifier changes
      nothing. */
  lemma ModifiersNamed(parts: seq<string>, bit: bv8)
    requires IsModifierFlag(bit)
    ensures (OrAll(Flags(parts)) & bit != 0) <==>
      exists i :: 0 <= i < |parts| && ModifierFlag(parts[i]) == Some(bit)
    ensures OrAll(Flags(parts)) & 0xF0 == 0
  {
    var flags := Flags(parts);
    OrAllFlags(flags, bit);
    if bit in flags {
      var i :| 0 <= i < |flags| && flags[i] == bit;
      assert ModifierFlag(parts[i]) == Some(bit);
    }
    if exists i :: 0 <= i < |parts| && ModifierFlag(parts[i]) == Some(bit) {
      var i :| 0 <= i < |parts| && ModifierFlag(parts[i]) == Some(bit);
      assert flags[i] == bit;
    }
  }

  /** The last key of a list is the key at some position with no key after
      it, and there is none exactly when no position has a key. */
  lemma {:induction false} LastSomeIsLast(keys: seq<Option<int>>)
    ensures LastSome(keys).None? <==> forall i :: 0 <= i < |keys| ==> keys[i].None?
    ensures LastSome(keys).Some? ==>
      exists i :: 0 <= i < |keys| && keys[i] == LastSome(keys) && forall j :: i < j < |keys| ==> keys[j].None?
  {
    if keys != [] {
      var n := |keys| - 1;
      var init := keys[..n];
      LastSomeIsLast(init);
      if keys[n].Some? {
        assert keys[n] == LastSome(keys);
      } else {
        assert LastSome(keys) == LastSome(init);
        assert forall i :: 0 <= i < n ==> init[i] == keys[i];
        if LastSome(init).Some? {
          var i :| 0 <= i < n && init[i] == LastSome(init) && forall j :: i < j < n ==> init[j].None?;
          assert keys[i] == LastSome(keys);
          assert forall j :: i < j < |keys| ==> keys[j].None?;
        } else {
          assert forall i :: 0 <= i < |keys| ==> keys[i].None?;
        }
      }
    }
  }

  /** The key is the one of the last part that gives a key, and there is no
      hotkey exactly when no part gives one. */
  lemma LastKeyWins(parts: seq<string>)
    ensures HotkeyOfParts(parts).None? <==> forall i :: 0 <= i < |parts| ==> PartKey(parts[i]).None?
    ensures HotkeyOfParts(parts).Some? ==>
      exists i :: 0 <= i < |parts| && PartKey(parts[i]) == Some(HotkeyOfParts(parts).value.vk) &&
        forall j :: i < j < |parts| ==> PartKey(parts[j]).None?
  {
    var keys := Keys(parts);
    LastSomeIsLast(keys);
    assert forall i :: 0 <= i < |parts| ==> keys[i] == PartKey(parts[i]);
    if LastSome(keys).Some? {
      var i :| 0 <= i < |keys| && keys[i] == LastSome(keys) && forall j :: i < j < |keys| ==> keys[j].None?;
      assert PartKey(parts[i]) == Some(HotkeyOfParts(parts).value.vk);
    }
  }

  /** Writing any part twice in a row describes the same hotkey as writing it
      once. */
  lemma RepeatedPartHarmless(parts: seq<string>, part: string)
    ensures HotkeyOfParts(parts + [part, part]) == HotkeyOfParts(parts + [part])
  {
    var once, twice := parts + [part], parts + [part, part];
    var n := |parts|;
    FoldStep(twice, n + 1);
    FoldStep(once, n);
    PrefixParts(twice, once);
    PrefixParts(once, parts);
    PrefixParts(twice, twice);
    PrefixParts(once, once);
    assert twice[n + 1] == part && once[n] == part;
  }

  /** The flags and keys of a prefix of the parts are the prefix of their
      flags and keys. */
  lemma PrefixParts(parts: seq<string>, prefix: seq<string>)
    requires |prefix| <= |parts| && parts[..|prefix|] == prefix
    ensures Flags(parts)[..|prefix|] == Flags(prefix)
    ensures Keys(parts)[..|prefix|] == Keys(prefix)
  {
    assert forall i :: 0 <= i < |prefix| ==> parts[i] == prefix[i];
  }

  lemma ControlPart()
    ensures ModifierFlag("Ctrl") == Some(ModControl) && PartKey("Ctrl") == None
  {
    assert Text.Lower("Ctrl") == "ctrl";
  }

  lemma ShiftPart()
    ensures ModifierFlag("Shift") == Some(ModShift) && PartKey("Shift") == None
  {
    assert Text.Lower("Shift") == "shift";
  }

  lemma LetterPart()
    ensures ModifierFlag("J") == None && PartKey("J") == Some(74)
  {
    assert Text.Lower("J") == "j";
  }

  lemma FunctionKeyPart()
    ensures ModifierFlag("F5") == None && PartKey("F5") == Some(0x74)
  {
    assert "F5"[1..] == "5" && Text.AllDigits("5") && "5"[..0] == [];
    FunctionKeyCode("F5");
  }

  lemma FxPart()
    ensures ModifierFlag("Fx") == None && PartKey("Fx") == None
  {
    assert Text.Lower("Fx") == "fx";
    assert Text.Strip("x") == "x";
  }

  /** A part of one character is never a modifier; its key is the code of
      the character in upper case. */
  lemma SingleCharacterKey(c: char)
    ensures ModifierFlag([c]) == None
    ensures PartKey([c]) == Some(Text.UpperChar(c) as int)
  {
    assert |Text.Lower([c])| == 1;
  }

  /** A part of `F` or `f` followed by one or two decimal digits naming `n` is
      the function key `VK_F1 + n - 1`, with no range check on `n`. */
  lemma FunctionKeyCode(part: string)
    requires 2 <= |part| <= 3 && (part[0] == 'F' || part[0] == 'f')
    requires Text.AllDigits(part[1..])
    ensures ModifierFlag(part) == None
    ensures PartKey(part) == Some(VkF1 + Text.DigitsValue(part[1..]) - 1)
  {
    var digits := part[1..];
    var p := Text.Lower(part);
    LowerFunctionKeyPart(part);
    assert p[1] == part[1] && Text.IsDigit(p[1]);
    NotModifierName(p);
    Text.ParseDecimal(digits);
    FunctionKeyOf(digits, Text.DigitsValue(digits));
    KeyOfLongPart(part, p);
  }

  /** Lower-casing `F` or `f` followed by digits gives `f` and the same digits. */
  lemma LowerFunctionKeyPart(part: string)
    requires |part| >= 1 && (part[0] == 'F' || part[0] == 'f')
    requires Text.AllDigits(part[1..])
    ensures Text.Lower(part) == ['f'] + part[1..]
  {
    var p := Text.Lower(part);
    forall i | 0 <= i < |part|
      ensures p[i] == (['f'] + part[1..])[i]
    {
      if i > 0 {
        assert part[i] == part[1..][i - 1];
      }
    }
  }

  /** A part of two or more characters that names no modifier and whose
      lower-case form starts with `f` gives a key exactly when it has at most
      three characters and `int()` accepts what follows the `f`: a suffix
      `int()` rejects gives no key. */
  lemma BadFunctionKeyPart(part: string)
    requires |part| >= 2 && ModifierFlag(part).None? && Text.Lower(part)[0] == 'f'
    ensures PartKey(part).None? <==> |part| > 3 || Text.ParseInt(Text.Lower(part)[1..]).None?
  {
  }

  /** A part of two or more characters gives the function key its lower-case
      form names. */
  lemma KeyOfLongPart(part: string, p: string)
    requires |part| >= 2 && Text.Lower(part) == p
    ensures KeyCode(part) == FunctionKey(p)
  {
  }

  lemma FunctionKeyOf(suffix: string, n: int)
    requires 1 <= |suffix| <= 2
    requires Text.ParseInt(suffix) == Some(n)
    ensures FunctionKey(['f'] + suffix) == Some(VkF1 + n - 1)
  {
    var p := ['f'] + suffix;
    assert p[1..] == suffix;
    assert 1 <= |p| <= 3 && p[0] == 'f';
    assert Text.ParseInt(p[1..]) == Some(n);
  }

  /** No modifier name has a digit as its second character. */
  lemma NotModifierName(p: string)
    requires |p| >= 2 && Text.IsDigit(p[1])
    ensures ModifierNamed(p) == None
  {
    NamesDiffer(p);
  }

  lemma NamesDiffer(p: string)
    requires |p| >= 2 && Text.IsDigit(p[1])
    ensures p != "ctrl" && p != "control" && p != "shift" && p != "alt" && p != "win"
  {
    NoDigitAt1(p, "ctrl");
    NoDigitAt1(p, "control");
    NoDigitAt1(p, "shift");
    NoDigitAt1(p, "alt");
    NoDigitAt1(p, "win");
  }

  lemma NoDigitAt1(p: string, name: string)
    requires |p| >= 2 && Text.IsDigit(p[1])
    requires |name| >= 2 && !Text.IsDigit(name[1])
    ensures p != name
  {
  }

  lemma OrAllOfOne(a: bv8)
    ensures OrAll([a]) == a
  {
    assert [a][..0] == [];
  }

  lemma OrAllOfTwo(a: bv8, b: bv8)
    ensures OrAll([a, b]) == a | b
  {
    assert [a, b][..1] == [a];
    OrAllOfOne(a);
  }

  lemma OrAllOfThree(a: bv8, b: bv8, c: bv8)
    ensures OrAll([a, b, c]) == a | b | c
  {
    assert [a, b, c][..2] == [a, b];
    OrAllOfTwo(a, b);
  }

  lemma LastSomeOfTwo(a: Option<int>, b: Option<int>)
    ensures LastSome([a, b]) == if b.Some? then b else a
  {
    assert [a, b][..1] == [a] && [a][..0] == [];
    assert LastSome([a]) == a;
  }

  lemma LastSomeOfThree(a: Option<int>, b: Option<int>, c: Option<int>)
    ensures LastSome([a, b, c]) == if c.Some? then c else if b.Some? then b else a
  {
    assert [a, b, c][..2] == [a, b];
    LastSomeOfTwo(a, b);
  }

  /** A part with no separator and no white space at either end. */
  predicate PlainPart(s: string) {
    '+' !in s && (s != [] ==> !Text.IsSpace(s[0]) && !Text.IsSpace(s[|s| - 1]))
  }

  /** A plain part is its own strip. */
  lemma StripPlain(s: string)
    requires PlainPart(s)
    ensures Text.Strip(s) == s
  {
  }

  lemma PartsOfTwo(a: string, b: string)
    requires PlainPart(a) && PlainPart(b)
    ensures HotkeyParts(a + ['+'] + b) == [a, b]
  {
    Text.SplitAround(a, b, '+');
    Text.SplitPlain(b, '+');
    StripPlain(a);
    StripPlain(b);
  }

  lemma PartsOfThree(a: string, b: string, c: string)
    requires PlainPart(a) && PlainPart(b) && PlainPart(c)
    ensures HotkeyParts(a + ['+'] + b + ['+'] + c) == [a, b, c]
  {
    assert a + ['+'] + b + ['+'] + c == a + ['+'] + (b + ['+'] + c);
    Text.SplitAround(a, b + ['+'] + c, '+');
    Text.SplitAround(b, c, '+');
    Text.SplitPlain(c, '+');
    StripPlain(a);
    StripPlain(b);
    StripPlain(c);
  }

  lemma PartsOfCtrlJ()
    ensures HotkeyParts("Ctrl+J") == ["Ctrl", "J"]
  {
    assert "Ctrl+J" == "Ctrl" + ['+'] + "J";
    PartsOfTwo("Ctrl", "J");
  }

  lemma PartsOfCtrlShiftF5()
    ensures HotkeyParts("Ctrl+Shift+F5") == ["Ctrl", "Shift", "F5"]
  {
    assert "Ctrl+Shift+F5" == "Ctrl" + ['+'] + "Shift" + ['+'] + "F5";
    PartsOfThree("Ctrl", "Shift", "F5");
  }

  /** "Ctrl+J" is Control with the key 'J' (74). */
  lemma CtrlJ()
    ensures HotkeyOf("Ctrl+J") == Some(Hotkey(ModControl, 74))
  {
    PartsOfCtrlJ();
    ControlPart();
    LetterPart();
    var parts := ["Ctrl", "J"];
    assert Flags(parts) == [ModControl, 0] && Keys(parts) == [None, Some(74)];
    OrAllOfTwo(ModControl, 0);
    LastSomeOfTwo(None, Some(74));
  }

  lemma FlagsOfThree(a: string, b: string, c: string)
    ensures Flags([a, b, c]) ==
      [ModifierFlag(a).GetOr(0), ModifierFlag(b).GetOr(0), ModifierFlag(c).GetOr(0)]
  {
  }

  lemma KeysOfThree(a: string, b: string, c: string)
    ensures Keys([a, b, c]) == [PartKey(a), PartKey(b), PartKey(c)]
  {
  }

  lemma FlagsOfCtrlShiftF5()
    ensures Flags(["Ctrl", "Shift", "F5"]) == [ModControl, ModShift, 0]
  {
    FlagsOfThree("Ctrl", "Shift", "F5");
    ControlPart();
    ShiftPart();
    FunctionKeyPart();
  }

  lemma KeysOfCtrlShiftF5()
    ensures Keys(["Ctrl", "Shift", "F5"]) == [None, None, Some(0x74)]
  {
    KeysOfThree("Ctrl", "Shift", "F5");
    ControlPart();
    ShiftPart();
    FunctionKeyPart();
  }

  /** "Ctrl+Shift+F5" is Control and Shift (6) with F5 (0x74). */
  lemma CtrlShiftF5()
    ensures HotkeyOf("Ctrl+Shift+F5") == Some(Hotkey(ModControl | ModShift, 0x74))
  {
    PartsOfCtrlShiftF5();
    FlagsOfCtrlShiftF5();
    KeysOfCtrlShiftF5();
    OrAllOfThree(ModControl, ModShift, 0);
    LastSomeOfThree(None, None, Some(0x74));
  }

  /** A function-key part whose suffix `int()` rejects is ignored: the parts
      "Ctrl", "J", "Fx" still give Control with 'J'. */
  lemma BadFunctionKeyIgnored()
    ensures HotkeyOfParts(["Ctrl", "J", "Fx"]) == Some(Hotkey(ModControl, 74))
  {
    ControlPart();
    LetterPart();
    FxPart();
    var parts := ["Ctrl", "J", "Fx"];
    assert Flags(parts) == [ModControl, 0, 0] && Keys(parts) == [None, Some(74), None];
    OrAllOfThree(ModControl, 0, 0);
    LastSomeOfThree(None, Some(74), None);
  }

  /** The region in physical pixels: every coordinate scaled by the device
      pixel ratio and truncated by `int()`. */
  function PhysicalRegion(x: int, y: int, width: int, height: int, ratio: real): Region {
    Region(Trunc(x as real * ratio), Trunc(y as real * ratio),
           Trunc(width as real * ratio), Trunc(height as real * ratio))
  }

  /** `ScreenTranslatorApp`: the side of the command queue the application
      writes. */
  class ScreenTranslatorApp {
    /** Commands put on the command queue, oldest first. */
    var commandQueue: seq<Pipeline.Command>

    constructor ()
      ensures commandQueue == []
    {
      commandQueue := [];
    }

    /** `on_region_selected`: a selection with a non-positive logical width or
        height puts nothing; any other puts exactly one region request carrying
        the physical region. */
    method OnRegionSelected(x: int, y: int, width: int, height: int, ratio: real)
      modifies this
      ensures width <= 0 || height <= 0 ==> commandQueue == old(commandQueue)
      ensures width > 0 && height > 0 ==>
        commandQueue == old(commandQueue) + [Pipeline.ProcessRegion(PhysicalRegion(x, y, width, height, ratio))]
    {
      if width <= 0 || height <= 0 {
        return;
      }
      var region := Region(Trunc(x as real * ratio), Trunc(y as real * ratio),
                           Trunc(width as real * ratio), Trunc(height as real * ratio));
      commandQueue := commandQueue + [Pipeline.ProcessRegion(region)];
    }
  }

  /** With a device pixel ratio of at least 1 an accepted selection stays
      non-empty in physical pixels, at least as large as in logical ones. */
  lemma ScaledRegionNonEmpty(x: int, y: int, width: int, height: int, ratio: real)
    requires width > 0 && height > 0 && ratio >= 1.0
    ensures var r := PhysicalRegion(x, y, width, height, ratio);
      r.width >= width >= 1 && r.height >= height >= 1
  {
    ScaleUp(width, ratio);
    ScaleUp(height, ratio);
  }

  lemma ScaleUp(n: int, ratio: real)
    requires n > 0 && ratio >= 1.0
    ensures Trunc(n as real * ratio) >= n
  {
    var p := n as real * ratio;
    assert p - n as real == n as real * (ratio - 1.0);
    assert p >= n as real;
  }

  /** The guard looks at logical sizes only: a one-pixel selection at a ratio
      of 0.5 passes it and is sent with a physical width and height of 0. */
  lemma GuardIsOnLogicalSize()
    ensures PhysicalRegion(3, 3, 1, 1, 0.5) == Region(1, 1, 0, 0)
  {
  }
}
