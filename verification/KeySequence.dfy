/**
  Key sequences as text: names joined by "+", modifiers before the key. Keys are Qt's key codes and
  modifier flags; how Unicode letters become lower-case is a parameter.
*/
module KeySequences {
  import opened Options
  import opened Texts

  /** One UTF-16 unit. */
  type Unit = x: int | 0 <= x < 0x1_0000
  type LowerCase = Unit -> Unit

  const SPACE := 0x20
  const F1 := 0x0100_0030
  const F35 := 0x0100_0052
  const SHIFT := 0x0200_0000
  const CONTROL := 0x0400_0000
  const ALT := 0x0800_0000
  const META := 0x1000_0000
  const KEYPAD := 0x2000_0000

  /** The key of a name in the table; 0 if there is none. */
  function NamedKey(name: string): int {
    match name
    case "Space" => 0x20
    case "Escape" => 0x0100_0000
    case "Tab" => 0x0100_0001
    case "LeftTab" => 0x0100_0002
    case "BackSpace" => 0x0100_0003
    case "Return" => 0x0100_0004
    case "Insert" => 0x0100_0006
    case "Delete" => 0x0100_0007
    case "Pause" => 0x0100_0008
    case "Print" => 0x0100_0009
    case "SysReq" => 0x0100_000A
    case "Home" => 0x0100_0010
    case "End" => 0x0100_0011
    case "Left" => 0x0100_0012
    case "Up" => 0x0100_0013
    case "Right" => 0x0100_0014
    case "Down" => 0x0100_0015
    case "PageUp" => 0x0100_0016
    case "PageDown" => 0x0100_0017
    case "CapsLock" => 0x0100_0024
    case "NumLock" => 0x0100_0025
    case "ScrollLock" => 0x0100_0026
    case "Menu" => 0x0100_0055
    case "Help" => 0x0100_0058
    case "KP_Enter" => 0x0100_0005
    case "Clear" => 0x0100_000B
    case "Comma" => 0x2C
    case "Semicolon" => 0x3B
    case "WWWBack" => 0x0100_0061
    case "WWWForward" => 0x0100_0062
    case "WWWStop" => 0x0100_0063
    case "WWWRefresh" => 0x0100_0064
    case "AudioDown" => 0x0100_0070
    case "AudioMute" => 0x0100_0071
    case "AudioUp" => 0x0100_0072
    case "AudioPlay" => 0x0100_0080
    case "AudioStop" => 0x0100_0081
    case "AudioPrev" => 0x0100_0082
    case "AudioNext" => 0x0100_0083
    case "WWWHome" => 0x0100_0090
    case "WWWFavorites" => 0x0100_0091
    case "WWWSearch" => 0x0100_0092
    case "Sleep" => 0x0100_0093
    case "AppMail" => 0x0100_00A0
    case "AppMedia" => 0x0100_00A1
    case "AppUser1" => 0x0100_00A2
    case "AppUser2" => 0x0100_00A3
    case "Select" => 0x0101_0000
    case _ => 0
  }

  function NameOfKey(key: int): string {
    match key
    case 0x20 => "Space"
    case 0x0100_0000 => "Escape"
    case 0x0100_0001 => "Tab"
    case 0x0100_0002 => "LeftTab"
    case 0x0100_0003 => "BackSpace"
    case 0x0100_0004 => "Return"
    case 0x0100_0006 => "Insert"
    case 0x0100_0007 => "Delete"
    case 0x0100_0008 => "Pause"
    case 0x0100_0009 => "Print"
    case 0x0100_000A => "SysReq"
    case 0x0100_0010 => "Home"
    case 0x0100_0011 => "End"
    case 0x0100_0012 => "Left"
    case 0x0100_0013 => "Up"
    case 0x0100_0014 => "Right"
    case 0x0100_0015 => "Down"
    case 0x0100_0016 => "PageUp"
    case 0x0100_0017 => "PageDown"
    case 0x0100_0024 => "CapsLock"
    case 0x0100_0025 => "NumLock"
    case 0x0100_0026 => "ScrollLock"
    case 0x0100_0055 => "Menu"
    case 0x0100_0058 => "Help"
    case 0x0100_0005 => "KP_Enter"
    case 0x0100_000B => "Clear"
    case 0x2C => "Comma"
    case 0x3B => "Semicolon"
    case 0x0100_0061 => "WWWBack"
    case 0x0100_0062 => "WWWForward"
    case 0x0100_0063 => "WWWStop"
    case 0x0100_0064 => "WWWRefresh"
    case 0x0100_0070 => "AudioDown"
    case 0x0100_0071 => "AudioMute"
    case 0x0100_0072 => "AudioUp"
    case 0x0100_0080 => "AudioPlay"
    case 0x0100_0081 => "AudioStop"
    case 0x0100_0082 => "AudioPrev"
    case 0x0100_0083 => "AudioNext"
    case 0x0100_0090 => "WWWHome"
    case 0x0100_0091 => "WWWFavorites"
    case 0x0100_0092 => "WWWSearch"
    case 0x0100_0093 => "Sleep"
    case 0x0100_00A0 => "AppMail"
    case 0x0100_00A1 => "AppMedia"
    case 0x0100_00A2 => "AppUser1"
    case 0x0100_00A3 => "AppUser2"
    case 0x0101_0000 => "Select"
    case _ => ""
  }

  // ---------------------------------------------------------------------------
  // Numbers
  // ---------------------------------------------------------------------------

  function Digit(d: int): char
    requires 0 <= d < 16
  {
    if d < 10 then '0' + d as char else 'a' + (d - 10) as char
  }

  function DigitValue(c: char): int {
    if '0' <= c <= '9' then c as int - '0' as int
    else if 'a' <= c <= 'f' then c as int - 'a' as int + 10
    else if 'A' <= c <= 'F' then c as int - 'A' as int + 10
    else 16
  }

  function Number(text: string, base: int): Option<nat>
    requires 0 < base <= 16
  {
    if text == "" then None
    else
      var last := DigitValue(text[|text| - 1]);
      if last >= base then None
      else if |text| == 1 then Some(last)
      else
        match Number(text[..|text| - 1], base)
        case None => None
        case Some(value) => Some(value * base + last)
  }

  function Decimal(n: int): (text: string)
    requires 0 <= n < 100
    ensures text != ""
  {
    if n < 10 then [Digit(n)] else [Digit(n / 10), Digit(n % 10)]
  }

  function Hexadecimal(u: Unit): (text: string)
    ensures |text| == 4
  {
    [Digit(u / 0x1000), Digit(u / 0x100 % 16), Digit(u / 16 % 16), Digit(u % 16)]
  }

  lemma NumberOfDecimal(n: int)
    requires 0 <= n < 100
    ensures Number(Decimal(n), 10) == Some(n)
  {
    if n >= 10 {
      assert Decimal(n)[..1] == [Digit(n / 10)];
    }
  }

  lemma NumberOfHexadecimal(u: Unit)
    ensures Number(Hexadecimal(u), 16) == Some(u)
  {
    hide Digit, Number;
    var a, b, c, d := u / 0x1000, u / 0x100 % 16, u / 16 % 16, u % 16;
    NumberSnoc("", a, 16);
    assert "" + [Digit(a)] == [Digit(a)];
    NumberSnoc([Digit(a)], b, 16);
    assert [Digit(a)] + [Digit(b)] == [Digit(a), Digit(b)];
    NumberSnoc([Digit(a), Digit(b)], c, 16);
    assert [Digit(a), Digit(b)] + [Digit(c)] == [Digit(a), Digit(b), Digit(c)];
    NumberSnoc([Digit(a), Digit(b), Digit(c)], d, 16);
    assert [Digit(a), Digit(b), Digit(c)] + [Digit(d)] == Hexadecimal(u);
    assert a * 16 + b == u / 0x100 && u / 0x100 * 16 + c == u / 16;
  }

  lemma NumberSnoc(text: string, d: int, base: int)
    requires 0 <= d < base <= 16 && (text == "" || Number(text, base).Some?)
    ensures Number(text + [Digit(d)], base) == Some((if text == "" then 0 else Number(text, base).value) * base + d)
  {
    assert (text + [Digit(d)])[..|text|] == text;
  }

  function Power16(n: nat): nat {
    if n == 0 then 1 else 16 * Power16(n - 1)
  }

  lemma {:induction false} NumberBelow(text: string)
    requires Number(text, 16).Some?
    ensures Number(text, 16).value < Power16(|text|)
  {
    if |text| > 1 {
      NumberBelow(text[..|text| - 1]);
    }
  }

  // ---------------------------------------------------------------------------
  // Single keys
  // ---------------------------------------------------------------------------

  predicate HasFlag(key: int, flag: int)
    requires flag > 0
  {
    key / flag % 2 == 1
  }

  function MouseButtonToString(button: int): string {
    match button
    case 1 => "1"
    case 2 => "2"
    case 4 => "3"
    case _ => "4"
  }

  function MouseButtonFromString(name: string): int {
    match name
    case "1" => 1
    case "2" => 2
    case "3" => 4
    case "4" => 8
    case _ => 0
  }

  function ModifierFromString(name: string): int {
    match name
    case "Shift" => SHIFT
    case "Control" => CONTROL
    case "Alt" => ALT
    case "Meta" => META
    case _ => 0
  }

  function Lower7(c: int): int { if 'A' as int <= c <= 'Z' as int then c + 32 else c }
  function Upper7(c: int): int { if 'a' as int <= c <= 'z' as int then c - 32 else c }

  function KeyToString(key: int, lower: LowerCase): string {
    if key == 0 then ""
    else if key < SPACE then MouseButtonToString(key)
    else if HasFlag(key, SHIFT) then "Shift"
    else if HasFlag(key, CONTROL) then "Control"
    else if HasFlag(key, ALT) then "Alt"
    else if HasFlag(key, META) then "Meta"
    else PlainKeyToString(if HasFlag(key, KEYPAD) then key - KEYPAD else key, lower)
  }

  function PlainKeyToString(key: int, lower: LowerCase): string
    requires key >= 0
  {
    if NameOfKey(key) != "" then NameOfKey(key)
    else if key < 0x80 then [Lower7(key) as char]
    else if F1 <= key <= F35 then "F" + Decimal(key - F1 + 1)
    else if key < 0x1_0000 then "\\u" + Hexadecimal(lower(key))
    else ""
  }

  function KeyFromString(name: string): int {
    if NamedKey(name) != 0 then NamedKey(name)
    else if |name| == 1 && 0x20 < name[0] as int < 0x80 then Upper7(name[0] as int)
    else
      var function' := if |name| > 1 && name[0] == 'F' then Number(name[1..], 10) else None;
      if function'.Some? && 1 <= function'.value <= 35 then F1 + function'.value - 1
      else
        var code := if |name| == 6 && name[..2] == "\\u" then Number(name[2..], 16) else None;
        if code.Some? && code.value >= 0x80 then code.value else 0
  }

  /** The keys that a name can stand for. */
  predicate IsBuiltKey(key: int) {
    || NameOfKey(key) != ""
    || (0x21 <= key < 0x80 && Upper7(key) == key)
    || F1 <= key <= F35
    || 0x80 <= key < 0x1_0000
  }

  /** The keys whose printed name stands for them: letters beyond 7 bits have to be lower-case. */
  predicate IsReadableKey(key: int, lower: LowerCase) {
    IsBuiltKey(key) && (0x80 <= key < 0x1_0000 ==> lower(key) == key)
  }

  lemma NamedKeyOfName(key: int)
    requires NameOfKey(key) != ""
    ensures NamedKey(NameOfKey(key)) == key && SPACE <= key <= 0x0101_0000 && !(0x80 <= key < 0x1_0000)
    ensures !(F1 <= key <= F35)
  {
  }

  lemma NameOfNamedKey(name: string)
    requires NamedKey(name) != 0
    ensures NameOfKey(NamedKey(name)) == name && name != ""
  {
  }

  lemma NotNamed(name: string)
    requires |name| == 1 || (|name| > 1 && (name[0] == 'F' || name[0] == '\\'))
    ensures NamedKey(name) == 0
  {
  }

  lemma FlagsOfSmall(key: int)
    requires 0 <= key < SHIFT
    ensures !HasFlag(key, SHIFT) && !HasFlag(key, CONTROL) && !HasFlag(key, ALT) && !HasFlag(key, META)
    ensures !HasFlag(key, KEYPAD)
  {
  }

  lemma BuiltKeyIsSmall(key: int)
    requires IsBuiltKey(key)
    ensures SPACE <= key < SHIFT
  {
    hide NameOfKey;
    if NameOfKey(key) != "" {
      NamedKeyOfName(key);
    }
  }

  lemma BuiltKeyToString(key: int, lower: LowerCase)
    requires IsBuiltKey(key)
    ensures KeyToString(key, lower) == PlainKeyToString(key, lower) && key >= SPACE
  {
    hide NameOfKey, PlainKeyToString, HasFlag;
    BuiltKeyIsSmall(key);
    FlagsOfSmall(key);
  }

  lemma FromStringIsBuilt(name: string)
    requires KeyFromString(name) != 0
    ensures IsBuiltKey(KeyFromString(name))
  {
    hide NameOfKey, NamedKey, Number;
    if NamedKey(name) != 0 {
      NameOfNamedKey(name);
    } else if |name| == 6 && name[..2] == "\\u" && Number(name[2..], 16).Some? {
      NumberBelow(name[2..]);
      assert Power16(4) == 0x1_0000;
    }
  }

  lemma PlainKeyRoundTrip(key: int, lower: LowerCase)
    requires IsBuiltKey(key) && key >= SPACE
    ensures KeyFromString(PlainKeyToString(key, lower)) == key <==> IsReadableKey(key, lower)
  {
    hide NameOfKey, NamedKey, Number, Decimal, Hexadecimal;
    if NameOfKey(key) != "" {
      NamedKeyOfName(key);
    } else {
      NotNamed(PlainKeyToString(key, lower));
      if 0x80 <= key < 0x1_0000 {
        var name := "\\u" + Hexadecimal(lower(key));
        assert name[2..] == Hexadecimal(lower(key)) && name[..2] == "\\u";
        NumberOfHexadecimal(lower(key));
      } else if key >= F1 {
        var name := "F" + Decimal(key - F1 + 1);
        assert name[1..] == Decimal(key - F1 + 1);
        NumberOfDecimal(key - F1 + 1);
      } else {
        var name := [Lower7(key) as char];
        assert name[0] as int == Lower7(key);
      }
    }
  }

  /** A printed key is read back as itself exactly if it is one that names stand for, and lower-case. */
  lemma KeyRoundTrip(key: int, lower: LowerCase)
    requires key != 0
    ensures KeyFromString(KeyToString(key, lower)) == key <==> IsReadableKey(key, lower)
  {
    hide IsBuiltKey, KeyFromString, KeyToString, PlainKeyToString;
    if KeyFromString(KeyToString(key, lower)) == key {
      FromStringIsBuilt(KeyToString(key, lower));
    }
    if IsBuiltKey(key) {
      BuiltKeyToString(key, lower);
      PlainKeyRoundTrip(key, lower);
    }
  }

  /** Keys of the key pad are printed like the others; several modifiers at once like the first of them. */
  lemma FlagsArePrinted(key: int, control: bool, alt: bool, lower: LowerCase)
    requires IsBuiltKey(key)
    ensures KeyToString(key + 0x2000_0000, lower) == KeyToString(key, lower)
    ensures var more := (if control then 0x0400_0000 else 0) + (if alt then 0x0800_0000 else 0);
            && KeyToString(0x0200_0000 + more, lower) == "Shift"
            && KeyToString(0x0400_0000 + (if alt then 0x0800_0000 else 0), lower) == "Control"
            && KeyToString(0x0800_0000 + 0x1000_0000, lower) == "Alt"
  {
    hide PlainKeyToString, NameOfKey;
    BuiltKeyIsSmall(key);
    FlagsOfSmall(key);
  }

  /** Letters are printed small, function keys by their number, and buttons beyond the third as the fourth. */
  lemma NumbersArePrinted(letter: int, n: int, button: int, lower: LowerCase)
    requires 'A' as int <= letter <= 'Z' as int && 1 <= n <= 35
    requires 0 < button < 0x20 && button != 1 && button != 2 && button != 4
    ensures KeyToString(letter, lower) == [(letter + 32) as char]
    ensures KeyToString(0x0100_002F + n, lower)
            == "F" + if n < 10 then [('0' as int + n) as char]
                     else [('0' as int + n / 10) as char, ('0' as int + n % 10) as char]
    ensures KeyToString(button, lower) == "4"
  {
    hide NameOfKey, Hexadecimal;
    LetterIsNotNamed(letter);
    FunctionKeyIsNotNamed(0x0100_002F + n);
    FlagsOfSmall(letter);
    FlagsOfSmall(0x0100_002F + n);
  }

  lemma LetterIsNotNamed(key: int)
    requires 'A' as int <= key <= 'Z' as int
    ensures NameOfKey(key) == ""
  {
  }

  lemma FunctionKeyIsNotNamed(key: int)
    requires F1 <= key <= F35
    ensures NameOfKey(key) == ""
  {
  }

  /** A key beyond 7 bits is printed as the code of the lower-case letter, in four small digits. */
  lemma CodesArePrinted(key: int, lower: LowerCase)
    requires 0x80 <= key < 0x1_0000
    ensures var text := KeyToString(key, lower);
            && |text| == 6 && text[..2] == "\\u" && Number(text[2..], 16) == Some(lower(key))
            && forall i :: 2 <= i < 6 ==> '0' <= text[i] <= '9' || 'a' <= text[i] <= 'f'
  {
    hide NameOfKey, Number;
    CodeIsNotNamed(key);
    FlagsOfSmall(key);
    NumberOfHexadecimal(lower(key));
    assert KeyToString(key, lower)[2..] == Hexadecimal(lower(key));
  }

  lemma CodeIsNotNamed(key: int)
    requires 0x80 <= key < 0x1_0000
    ensures NameOfKey(key) == ""
  {
  }

  // ---------------------------------------------------------------------------
  // The characters of key names
  // ---------------------------------------------------------------------------

  predicate IsWordCharacter(c: char) {
    'a' <= c <= 'z' || 'A' <= c <= 'Z' || '0' <= c <= '9' || c == '_' || c == '\\'
  }

  predicate IsWord(text: string) {
    forall i :: 0 <= i < |text| ==> IsWordCharacter(text[i])
  }

  lemma FirstNamesAreWords(key: int)
    requires key < 0x0100_0010
    ensures IsWord(NameOfKey(key))
  {
  }

  lemma MiddleNamesAreWords(key: int)
    requires 0x0100_0010 <= key < 0x0100_0060
    ensures IsWord(NameOfKey(key))
  {
  }

  lemma MediaNamesAreWords(key: int)
    requires 0x0100_0060 <= key < 0x0100_0084
    ensures IsWord(NameOfKey(key))
  {
  }

  lemma LastNamesAreWords(key: int)
    requires 0x0100_0084 <= key
    ensures IsWord(NameOfKey(key))
  {
  }

  lemma NamesAreWords(key: int)
    ensures IsWord(NameOfKey(key))
  {
    hide NameOfKey, IsWord;
    if key < 0x0100_0010 {
      FirstNamesAreWords(key);
    } else if key < 0x0100_0060 {
      MiddleNamesAreWords(key);
    } else if key < 0x0100_0084 {
      MediaNamesAreWords(key);
    } else {
      LastNamesAreWords(key);
    }
  }

  lemma DigitsAreWords(n: int, u: Unit)
    requires 0 <= n < 100
    ensures IsWord("F" + Decimal(n)) && IsWord("\\u" + Hexadecimal(u))
  {
  }

  predicate IsOwnCharacter(name: string, key: int) {
    0x21 <= key < 0x80 && name == [key as char] && key != ',' as int && key != ';' as int
  }

  /** A key is printed as a word or as one character, its own. */
  lemma KeyNameIs(key: int, lower: LowerCase)
    requires IsBuiltKey(key)
    ensures KeyToString(key, lower) != ""
    ensures IsWord(KeyToString(key, lower)) || IsOwnCharacter(KeyToString(key, lower), key)
  {
    hide NameOfKey, Decimal, Hexadecimal, IsWord;
    BuiltKeyToString(key, lower);
    NamesAreWords(key);
    if NameOfKey(key) == "" {
      if key < 0x80 {
        assert NameOfKey(0x2C) != "" && NameOfKey(0x3B) != "" by { CommaIsNamed(); }
        LettersAreWords(key);
      } else if key < 0x1_0000 {
        DigitsAreWords(0, lower(key));
      } else {
        DigitsAreWords(key - F1 + 1, 0);
      }
    }
  }

  lemma CommaIsNamed()
    ensures NameOfKey(0x2C) != "" && NameOfKey(0x3B) != ""
  {
  }

  lemma LettersAreWords(key: int)
    requires 0x21 <= key < 0x80
    ensures Lower7(key) == key || IsWord([Lower7(key) as char])
  {
  }

  /** A separator is not part of the name of any key but its own. */
  lemma KeyNameLacks(key: int, lower: LowerCase, c: char)
    requires IsBuiltKey(key) && !IsWordCharacter(c)
    requires key != c as int || c == ',' || c == ';' || IsSpace(c)
    ensures Lacks(KeyToString(key, lower), c)
  {
    hide IsBuiltKey, KeyToString;
    KeyNameIs(key, lower);
  }

  // ---------------------------------------------------------------------------
  // Sequences
  // ---------------------------------------------------------------------------

  datatype KeySequence = KeySequence(keys: seq<int>, modifiers: set<int>, valid: bool) {
    predicate IsMouseButton() {
      keys != [] && keys[|keys| - 1] < SPACE
    }
  }

  const EMPTY := KeySequence([], {}, false)
  const MAX_KEYS := 4

  function KeyNames(keys: seq<int>, lower: LowerCase): (names: seq<string>)
    ensures |names| == |keys|
  {
    if keys == [] then [] else [KeyToString(keys[0], lower)] + KeyNames(keys[1..], lower)
  }

  function ToString(keys: seq<int>, lower: LowerCase): string {
    if keys == [] then "" else Join(KeyNames(keys, lower), "+")
  }

  /** The modifiers of the names, no two of them the same, none of them seen before. */
  function Modifiers(names: seq<string>, seen: set<int>): Option<seq<int>> {
    if names == [] then Some([])
    else
      var modifier := ModifierFromString(names[0]);
      if modifier == 0 || modifier in seen then None
      else
        match Modifiers(names[1..], seen + {modifier})
        case None => None
        case Some(modifiers) => Some([modifier] + modifiers)
  }

  function AsSet(keys: seq<int>): set<int> {
    set key | key in keys
  }

  function FromString(text: string, mouseButton: bool): Option<KeySequence> {
    var names := Split(text, '+');
    var last := names[|names| - 1];
    var key := if mouseButton then MouseButtonFromString(last) else KeyFromString(last);
    if |names| > MAX_KEYS then None
    else
      match Modifiers(names[..|names| - 1], {})
      case None => None
      case Some(modifiers) => if key == 0 then None else Some(KeySequence(modifiers + [key], AsSet(modifiers), true))
  }

  predicate IsModifier(key: int) {
    key == SHIFT || key == CONTROL || key == ALT || key == META
  }

  predicate AreModifiers(keys: seq<int>, seen: set<int>) {
    && (forall i :: 0 <= i < |keys| ==> IsModifier(keys[i]) && keys[i] !in seen)
    && (forall i, j :: 0 <= i < j < |keys| ==> keys[i] != keys[j])
  }

  predicate IsLast(key: int, mouseButton: bool) {
    if mouseButton then key == 1 || key == 2 || key == 4 || key == 8 else IsBuiltKey(key) && key != '+' as int
  }

  /** The sequences that can be read: up to three different modifiers, and a key or mouse button. */
  predicate IsBuilt(sequence: KeySequence, mouseButton: bool) {
    && 0 < |sequence.keys| <= MAX_KEYS
    && var last := |sequence.keys| - 1;
    && AreModifiers(sequence.keys[..last], {})
    && IsLast(sequence.keys[last], mouseButton)
    && sequence.modifiers == AsSet(sequence.keys[..last]) && sequence.valid
  }

  predicate IsReadable(sequence: KeySequence, mouseButton: bool, lower: LowerCase) {
    IsBuilt(sequence, mouseButton) && (!mouseButton ==> IsReadableKey(sequence.keys[|sequence.keys| - 1], lower))
  }

  lemma ModifierRoundTrip(modifier: int, lower: LowerCase)
    requires IsModifier(modifier)
    ensures ModifierFromString(KeyToString(modifier, lower)) == modifier && IsWord(KeyToString(modifier, lower))
  {
    hide PlainKeyToString;
  }

  lemma NamedModifier(name: string)
    requires ModifierFromString(name) != 0
    ensures IsModifier(ModifierFromString(name))
  {
  }

  lemma ButtonRoundTrip(button: int, lower: LowerCase)
    requires IsLast(button, true)
    ensures MouseButtonFromString(KeyToString(button, lower)) == button && IsWord(KeyToString(button, lower))
  {
  }

  lemma NamedButton(name: string)
    requires MouseButtonFromString(name) != 0
    ensures IsLast(MouseButtonFromString(name), true)
  {
  }

  lemma {:induction false} ModifiersRoundTrip(keys: seq<int>, seen: set<int>, lower: LowerCase)
    requires AreModifiers(keys, seen)
    ensures Modifiers(KeyNames(keys, lower), seen) == Some(keys)
  {
    hide KeyToString, ModifierFromString, IsModifier;
    if keys != [] {
      ModifierRoundTrip(keys[0], lower);
      assert !IsModifier(0) by { ZeroIsNone(); }
      ModifiersRoundTrip(keys[1..], seen + {keys[0]}, lower);
      assert keys == [keys[0]] + keys[1..];
      assert KeyNames(keys, lower)[1..] == KeyNames(keys[1..], lower);
    }
  }

  lemma ZeroIsNone()
    ensures !IsModifier(0) && !IsBuiltKey(0)
  {
  }

  lemma {:induction false} ModifiersAreBuilt(names: seq<string>, seen: set<int>)
    requires Modifiers(names, seen).Some?
    ensures AreModifiers(Modifiers(names, seen).value, seen) && |Modifiers(names, seen).value| == |names|
  {
    hide ModifierFromString, IsModifier;
    if names != [] {
      NamedModifier(names[0]);
      ModifiersAreBuilt(names[1..], seen + {ModifierFromString(names[0])});
    }
  }

  /** Whatever is read is built of different modifiers and a key. */
  lemma FromStringBuilds(text: string, mouseButton: bool)
    requires FromString(text, mouseButton).Some?
    ensures IsBuilt(FromString(text, mouseButton).value, mouseButton)
  {
    hide KeyFromString, MouseButtonFromString, Modifiers, IsBuiltKey, AreModifiers;
    var names := Split(text, '+');
    var last := names[|names| - 1];
    ModifiersAreBuilt(names[..|names| - 1], {});
    if mouseButton {
      NamedButton(last);
    } else {
      FromStringIsBuilt(last);
      PartsLack(text, '+');
      PlusIsNoName(last);
    }
    var sequence := FromString(text, mouseButton).value;
    assert sequence.keys[..|sequence.keys| - 1] == Modifiers(names[..|names| - 1], {}).value;
  }

  lemma PlusIsNoName(name: string)
    requires Lacks(name, '+')
    ensures KeyFromString(name) != '+' as int
  {
    hide NameOfKey, NamedKey, Number;
    if NamedKey(name) == '+' as int {
      NameOfNamedKey(name);
      PlusIsNotNamed();
    }
  }

  lemma PlusIsNotNamed()
    ensures NameOfKey('+' as int) == ""
  {
  }

  lemma {:induction false} PartsLack(text: string, separator: char)
    ensures forall i :: 0 <= i < |Split(text, separator)| ==> Lacks(Split(text, separator)[i], separator)
  {
    if text != "" {
      PartsLack(text[1..], separator);
      var parts := Split(text[1..], separator);
      if text[0] != separator {
        assert Lacks([text[0]] + parts[0], separator);
      }
    }
  }

  lemma {:induction false} NamesLackPlus(keys: seq<int>, lower: LowerCase)
    requires forall i :: 0 <= i < |keys| ==> Lacks(KeyToString(keys[i], lower), '+')
    ensures forall i :: 0 <= i < |keys| ==> Lacks(KeyNames(keys, lower)[i], '+')
  {
    hide KeyToString, Lacks;
    if keys != [] {
      NamesLackPlus(keys[1..], lower);
    }
  }

  lemma SplitNames(names: seq<string>)
    requires names != [] && forall i :: 0 <= i < |names| ==> Lacks(names[i], '+')
    ensures Split(Join(names, "+"), '+') == names
  {
    forall k | 0 <= k < |names|
      ensures IsWhole(names[k], '+', false, 0) && DepthAfter(names[k], false, 0) == 0
    {
      WholeWithout(names[k], '+', false, 0);
      DepthWithout(names[k], false, 0);
    }
    PartsOfJoin(names, '+', false);
  }

  lemma SequenceLacks(sequence: KeySequence, mouseButton: bool, lower: LowerCase, c: char, i: nat)
    requires IsBuilt(sequence, mouseButton) && i < |sequence.keys| && !IsWordCharacter(c)
    requires mouseButton || sequence.keys[|sequence.keys| - 1] != c as int || c == ',' || c == ';' || IsSpace(c)
    ensures Lacks(KeyToString(sequence.keys[i], lower), c)
  {
    hide KeyToString, IsBuiltKey;
    var last := |sequence.keys| - 1;
    if i < last {
      assert sequence.keys[..last][i] == sequence.keys[i];
      ModifierRoundTrip(sequence.keys[i], lower);
    } else if mouseButton {
      ButtonRoundTrip(sequence.keys[i], lower);
    } else {
      KeyNameLacks(sequence.keys[i], lower, c);
    }
  }

  lemma {:induction false} JoinLacks(keys: seq<int>, lower: LowerCase, c: char)
    requires keys != [] && c != '+' && forall i :: 0 <= i < |keys| ==> Lacks(KeyToString(keys[i], lower), c)
    ensures Lacks(ToString(keys, lower), c)
  {
    hide KeyToString;
    assert Lacks(KeyToString(keys[0], lower), c);
    if |keys| > 1 {
      JoinLacks(keys[1..], lower, c);
    }
  }

  /** A separator is not part of a printed sequence unless its key is that character. */
  lemma ToStringLacks(sequence: KeySequence, mouseButton: bool, lower: LowerCase, c: char)
    requires IsBuilt(sequence, mouseButton) && !IsWordCharacter(c) && c != '+'
    requires mouseButton || sequence.keys[|sequence.keys| - 1] != c as int || c == ',' || c == ';' || IsSpace(c)
    ensures Lacks(ToString(sequence.keys, lower), c)
  {
    hide IsBuilt, KeyToString, ToString, Lacks;
    BuiltHasKeys(sequence, mouseButton);
    forall i | 0 <= i < |sequence.keys|
      ensures Lacks(KeyToString(sequence.keys[i], lower), c)
    {
      SequenceLacks(sequence, mouseButton, lower, c, i);
    }
    JoinLacks(sequence.keys, lower, c);
  }

  lemma BuiltHasKeys(sequence: KeySequence, mouseButton: bool)
    requires IsBuilt(sequence, mouseButton)
    ensures sequence.keys != []
    ensures sequence.IsMouseButton() <==> mouseButton
  {
    hide AreModifiers;
    if !mouseButton {
      BuiltKeyIsSmall(sequence.keys[|sequence.keys| - 1]);
    }
  }

  /** A printed sequence has no white space at its ends. */
  lemma ToStringIsTrimmed(sequence: KeySequence, mouseButton: bool, lower: LowerCase)
    requires IsBuilt(sequence, mouseButton)
    ensures IsTrimmed(ToString(sequence.keys, lower))
  {
    hide IsBuilt, ToString;
    var text := ToString(sequence.keys, lower);
    if text != "" {
      var first, last := text[0], text[|text| - 1];
      if IsSpace(first) {
        ToStringLacks(sequence, mouseButton, lower, first);
      }
      if IsSpace(last) {
        ToStringLacks(sequence, mouseButton, lower, last);
      }
    }
  }

  lemma KeyNamesSplit(keys: seq<int>, key: int, lower: LowerCase)
    ensures KeyNames(keys + [key], lower) == KeyNames(keys, lower) + [KeyToString(key, lower)]
    decreases |keys|
  {
    if keys == [] {
      assert keys + [key] == [key];
    } else {
      assert (keys + [key])[1..] == keys[1..] + [key];
      KeyNamesSplit(keys[1..], key, lower);
    }
  }

  /** A sequence that can be read is restored exactly when its key is printed in lower-case. */
  lemma SequenceRoundTrip(sequence: KeySequence, mouseButton: bool, lower: LowerCase)
    requires IsBuilt(sequence, mouseButton)
    ensures FromString(ToString(sequence.keys, lower), mouseButton) == Some(sequence)
            <==> IsReadable(sequence, mouseButton, lower)
  {
    hide KeyToString, KeyFromString, MouseButtonFromString, Modifiers, IsBuiltKey, IsReadableKey, AreModifiers,
         Lacks, Join, Parts;
    var last := |sequence.keys| - 1;
    var modifiers, key := sequence.keys[..last], sequence.keys[last];
    assert sequence.keys == modifiers + [key];
    KeyNamesSplit(modifiers, key, lower);
    forall i | 0 <= i < |sequence.keys|
      ensures Lacks(KeyToString(sequence.keys[i], lower), '+')
    {
      SequenceLacks(sequence, mouseButton, lower, '+', i);
    }
    NamesLackPlus(sequence.keys, lower);
    var names := KeyNames(sequence.keys, lower);
    SplitNames(names);
    assert names[..last] == KeyNames(modifiers, lower) && names[last] == KeyToString(key, lower);
    ModifiersRoundTrip(modifiers, {}, lower);
    if mouseButton {
      ButtonRoundTrip(key, lower);
    } else {
      ZeroIsNone();
      KeyRoundTrip(key, lower);
    }
  }

  // ---------------------------------------------------------------------------
  // Keys that are printed as a character of their own
  // ---------------------------------------------------------------------------

  /** What is printed before the key. */
  function Front(keys: seq<int>, lower: LowerCase): string {
    if |keys| <= 1 then "" else ToString(keys[..|keys| - 1], lower) + "+"
  }

  lemma {:induction false} JoinLast(names: seq<string>, last: string)
    requires names != []
    ensures Join(names + [last], "+") == Join(names, "+") + "+" + last
  {
    assert (names + [last])[1..] == names[1..] + [last];
    if |names| > 1 {
      JoinLast(names[1..], last);
    } else {
      assert Join([last], "+") == last;
    }
  }

  lemma FrontAndKey(keys: seq<int>, lower: LowerCase)
    requires keys != []
    ensures ToString(keys, lower) == Front(keys, lower) + KeyToString(keys[|keys| - 1], lower)
  {
    hide KeyToString;
    var n := |keys| - 1;
    assert keys == keys[..n] + [keys[n]];
    KeyNamesSplit(keys[..n], keys[n], lower);
    if n > 0 {
      JoinLast(KeyNames(keys[..n], lower), KeyToString(keys[n], lower));
    } else {
      assert KeyNames(keys, lower) == [KeyToString(keys[n], lower)];
    }
  }

  lemma PunctuationIsItself(c: char, lower: LowerCase)
    requires c == '(' || c == ')' || c == '='
    ensures KeyToString(c as int, lower) == [c] && IsBuiltKey(c as int)
  {
    hide Decimal, Hexadecimal;
  }

  lemma {:induction false} ModifiersLack(keys: seq<int>, lower: LowerCase, c: char)
    requires AreModifiers(keys, {}) && !IsWordCharacter(c) && c != '+'
    ensures Lacks(ToString(keys, lower), c)
  {
    hide KeyToString, IsModifier;
    if keys != [] {
      forall i | 0 <= i < |keys|
        ensures Lacks(KeyToString(keys[i], lower), c)
      {
        ModifierRoundTrip(keys[i], lower);
      }
      JoinLacks(keys, lower, c);
    }
  }

  /** What is printed before the key has no separators but "+", and is no sequence of its own. */
  lemma FrontIsNoSequence(sequence: KeySequence, lower: LowerCase, c: char)
    requires IsBuilt(sequence, false) && !IsWordCharacter(c) && c != '+'
    ensures Lacks(Front(sequence.keys, lower), c)
    ensures FromString(Front(sequence.keys, lower), false) == None
  {
    hide ToString, IsBuiltKey, AreModifiers, Modifiers;
    var n := |sequence.keys| - 1;
    var front, modifiers := Front(sequence.keys, lower), ToString(sequence.keys[..n], lower);
    ModifiersLack(sequence.keys[..n], lower, c);
    NothingIsNoKey();
    if n == 0 {
      assert Split(front, '+') == [""];
    } else {
      DepthWithout(modifiers, false, 0);
      SplitInTwo(modifiers, '+', false, 0, "");
      assert front == modifiers + ['+'] + "";
      assert Parts("", '+', false, 0) == [""];
    }
  }

  lemma NothingIsNoKey()
    ensures KeyFromString("") == 0
  {
  }

  // ---------------------------------------------------------------------------
  // What is read as what
  // ---------------------------------------------------------------------------

  /** The digits of a number, each below the base, in either case; leading zeros are allowed. */
  ghost predicate AreDigits(text: string, base: int, value: int) {
    && text != ""
    && exists digits: seq<int> ::
         && |digits| == |text| && Value(digits, base) == value
         && forall i :: 0 <= i < |text| ==> 0 <= digits[i] < base && IsDigit(text[i], digits[i])
  }

  predicate IsDigit(c: char, d: int) {
    || (0 <= d <= 9 && c as int == '0' as int + d)
    || (10 <= d <= 15 && (c as int == 'a' as int + (d - 10) || c as int == 'A' as int + (d - 10)))
  }

  function Value(digits: seq<int>, base: int): int {
    if digits == [] then 0 else Value(digits[..|digits| - 1], base) * base + digits[|digits| - 1]
  }

  lemma DigitExactly(c: char, d: int)
    requires d < 16
    ensures DigitValue(c) == d <==> IsDigit(c, d)
  {
  }

  lemma DigitsOfFront(text: string, base: int, value: int) returns (more: int, last: int)
    requires AreDigits(text, base, value) && 0 < base <= 16
    ensures var n := |text| - 1;
            && 0 <= last < base && IsDigit(text[n], last) && value == more * base + last
            && (if n == 0 then more == 0 else AreDigits(text[..n], base, more))
  {
    hide IsDigit;
    var n := |text| - 1;
    var digits: seq<int> :| |digits| == |text| && Value(digits, base) == value
      && forall i :: 0 <= i < |text| ==> 0 <= digits[i] < base && IsDigit(text[i], digits[i]);
    more, last := Value(digits[..n], base), digits[n];
    if n == 0 {
      assert digits[..0] == [];
    } else {
      assert forall i :: 0 <= i < n ==> text[..n][i] == text[i] && digits[..n][i] == digits[i];
    }
  }

  lemma DigitsSnoc(text: string, base: int, more: int, last: int)
    requires text != "" && 0 <= last < base && IsDigit(text[|text| - 1], last)
    requires var n := |text| - 1; if n == 0 then more == 0 else AreDigits(text[..n], base, more)
    ensures AreDigits(text, base, more * base + last)
  {
    hide IsDigit;
    var n := |text| - 1;
    var digits: seq<int> := [];
    if n > 0 {
      digits :| |digits| == n && Value(digits, base) == more
        && forall i :: 0 <= i < n ==> 0 <= digits[i] < base && IsDigit(text[..n][i], digits[i]);
    }
    assert (digits + [last])[..n] == digits && forall i :: 0 <= i < n ==> text[..n][i] == text[i];
    assert Value(digits + [last], base) == more * base + last;
  }

  lemma {:induction false} NumberExactly(text: string, base: int, value: int)
    requires 0 < base <= 16
    ensures Number(text, base) == Some(value) <==> AreDigits(text, base, value)
    decreases |text|
  {
    hide DigitValue, IsDigit, AreDigits;
    if text == "" {
      NothingHasNoDigits(base, value);
    } else {
      var n := |text| - 1;
      if AreDigits(text, base, value) {
        var more, last := DigitsOfFront(text, base, value);
        DigitExactly(text[n], last);
        if n > 0 {
          NumberExactly(text[..n], base, more);
        }
      }
      if Number(text, base) == Some(value) {
        var last := DigitValue(text[n]);
        DigitExactly(text[n], last);
        DigitIsNotNegative(text[n]);
        var more := if n == 0 then 0 else Number(text[..n], base).value;
        if n > 0 {
          NumberExactly(text[..n], base, more);
        }
        DigitsSnoc(text, base, more, last);
      }
    }
  }

  lemma NothingHasNoDigits(base: int, value: int)
    ensures !AreDigits("", base, value)
  {
  }

  lemma DigitIsNotNegative(c: char)
    ensures DigitValue(c) >= 0
  {
  }

  /** A name of a key: from the table, one character, a function key, or a code of four digits. */
  ghost predicate IsNameOf(name: string, key: int) {
    || (name != "" && NameOfKey(key) == name)
    || (|name| == 1 && '!' <= name[0] <= '~' && !('a' <= name[0] <= 'z') && key == name[0] as int)
    || (|name| == 1 && 'a' <= name[0] <= 'z' && key == name[0] as int - 'a' as int + 'A' as int)
    || (|name| == 1 && name[0] as int == 0x7f == key)
    || (|name| > 1 && name[0] == 'F' && 1 <= key - F1 + 1 <= 35 && AreDigits(name[1..], 10, key - F1 + 1))
    || (|name| == 6 && name[..2] == "\\u" && 0x80 <= key && AreDigits(name[2..], 16, key))
  }

  predicate IsButtonName(name: string, button: int) {
    || (name == "1" && button == 1) || (name == "2" && button == 2)
    || (name == "3" && button == 4) || (name == "4" && button == 8)
  }

  predicate IsModifierName(name: string, modifier: int) {
    || (name == "Shift" && modifier == 0x0200_0000) || (name == "Control" && modifier == 0x0400_0000)
    || (name == "Alt" && modifier == 0x0800_0000) || (name == "Meta" && modifier == 0x1000_0000)
  }

  lemma KeyExactly(name: string, key: int)
    requires key != 0
    ensures KeyFromString(name) == key <==> IsNameOf(name, key)
  {
    hide NameOfKey, NamedKey, Number, AreDigits;
    if name != "" && NameOfKey(key) == name {
      NamedKeyOfName(key);
    } else if NamedKey(name) != 0 {
      NameOfNamedKey(name);
      if |name| == 1 || (|name| > 1 && (name[0] == 'F' || name[0] == '\\')) {
        NotNamed(name);
      }
    } else {
      UnnamedKeyExactly(name, key);
    }
  }

  lemma UnnamedKeyExactly(name: string, key: int)
    requires key != 0 && NamedKey(name) == 0 && (name == "" || NameOfKey(key) != name)
    ensures KeyFromString(name) == key <==> IsNameOf(name, key)
  {
    hide NameOfKey, NamedKey, Number, AreDigits;
    if |name| > 1 && name[0] == 'F' {
      NumberExactly(name[1..], 10, key - F1 + 1);
    }
    if |name| == 6 && name[..2] == "\\u" {
      NumberExactly(name[2..], 16, key);
    }
  }

  /** What a list of names stands for: different modifiers and, at the end, a key or a button. */
  ghost predicate AreNamesOf(names: seq<string>, mouseButton: bool, sequence: KeySequence) {
    && |names| == |sequence.keys| > 0
    && var last := |names| - 1;
    && (forall i :: 0 <= i < last ==> IsModifierName(names[i], sequence.keys[i]))
    && (forall i, j :: 0 <= i < j < last ==> sequence.keys[i] != sequence.keys[j])
    && (if mouseButton then IsButtonName(names[last], sequence.keys[last])
        else sequence.keys[last] != 0 && IsNameOf(names[last], sequence.keys[last]))
    && sequence.modifiers == AsSet(sequence.keys[..last]) && sequence.valid
  }

  /** Up to four such names with a plus sign between each two. */
  ghost predicate IsSequence(text: string, mouseButton: bool, sequence: KeySequence) {
    exists names: seq<string> ::
      && 0 < |names| <= 4 && Join(names, "+") == text
      && (forall i :: 0 <= i < |names| ==> Lacks(names[i], '+'))
      && AreNamesOf(names, mouseButton, sequence)
  }

  lemma ModifierExactly(name: string, modifier: int)
    requires modifier != 0
    ensures ModifierFromString(name) == modifier <==> IsModifierName(name, modifier)
  {
  }

  lemma ButtonNameExactly(name: string, button: int)
    requires button != 0
    ensures MouseButtonFromString(name) == button <==> IsButtonName(name, button)
  {
  }

  lemma {:induction false} ModifiersExactly(names: seq<string>, seen: set<int>, modifiers: seq<int>)
    ensures Modifiers(names, seen) == Some(modifiers)
            <==> |names| == |modifiers| && AreModifiers(modifiers, seen)
                 && forall i :: 0 <= i < |names| ==> IsModifierName(names[i], modifiers[i])
  {
    hide ModifierFromString, IsModifierName, IsModifier;
    if names != [] {
      if modifiers == [] {
      } else {
        var first, rest := modifiers[0], modifiers[1..];
        ModifiersExactly(names[1..], seen + {first}, rest);
        assert modifiers == [first] + rest;
        assert forall i :: 0 < i < |names| ==> names[i] == names[1..][i - 1];
        assert forall i :: 0 < i < |modifiers| ==> modifiers[i] == rest[i - 1];
        ZeroIsNone();
        NamesOfModifiers(names[0], first);
        ModifiersCons(first, rest, seen);
      }
    }
  }

  lemma NamesOfModifiers(name: string, modifier: int)
    ensures IsModifierName(name, modifier) ==> IsModifier(modifier)
    ensures modifier != 0 ==> (ModifierFromString(name) == modifier <==> IsModifierName(name, modifier))
  {
  }

  lemma ModifiersCons(first: int, rest: seq<int>, seen: set<int>)
    ensures AreModifiers([first] + rest, seen)
            <==> IsModifier(first) && first !in seen && AreModifiers(rest, seen + {first})
  {
    hide IsModifier;
    var keys := [first] + rest;
    assert keys[0] == first && forall i :: 0 < i < |keys| ==> keys[i] == rest[i - 1];
    if AreModifiers(keys, seen) {
      forall i | 0 <= i < |rest|
        ensures IsModifier(rest[i]) && rest[i] !in seen + {first}
      {
        assert keys[i + 1] == rest[i];
      }
      forall i, j | 0 <= i < j < |rest|
        ensures rest[i] != rest[j]
      {
        assert keys[i + 1] == rest[i] && keys[j + 1] == rest[j];
      }
    }
  }

  lemma NamesExactly(names: seq<string>, mouseButton: bool, sequence: KeySequence)
    requires 0 < |names| == |sequence.keys|
    ensures var last := |names| - 1;
            var key := if mouseButton then MouseButtonFromString(names[last]) else KeyFromString(names[last]);
            && Modifiers(names[..last], {}) == Some(sequence.keys[..last])
            && key == sequence.keys[last] != 0
            && sequence.modifiers == AsSet(sequence.keys[..last]) && sequence.valid
            <==> AreNamesOf(names, mouseButton, sequence)
  {
    hide KeyFromString, MouseButtonFromString, Modifiers, IsModifierName, IsModifier, IsNameOf, IsButtonName;
    var last := |names| - 1;
    var fronts, keys, key := names[..last], sequence.keys[..last], sequence.keys[last];
    ModifiersExactly(fronts, {}, keys);
    if key != 0 {
      KeyExactly(names[last], key);
      ButtonNameExactly(names[last], key);
    }
    ButtonsAreNotZero(names[last]);
    assert forall i :: 0 <= i < last ==> fronts[i] == names[i] && keys[i] == sequence.keys[i];
    forall i | 0 <= i < last
      ensures IsModifierName(names[i], keys[i]) ==> IsModifier(keys[i])
    {
      NamesOfModifiers(names[i], keys[i]);
    }
  }

  lemma ButtonsAreNotZero(name: string)
    ensures !IsButtonName(name, 0)
  {
  }

  /** A text is read as a sequence exactly if it consists of names of its keys. */
  lemma ReadExactly(text: string, mouseButton: bool, sequence: KeySequence)
    ensures FromString(text, mouseButton) == Some(sequence) <==> IsSequence(text, mouseButton, sequence)
  {
    hide KeyFromString, MouseButtonFromString, Modifiers, AreNamesOf, Parts, Join, Lacks, AsSet;
    var names := Split(text, '+');
    var last := |names| - 1;
    SplitExactly(text, '+', false, names);
    LackingAreWhole(names, '+');
    if FromString(text, mouseButton) == Some(sequence) {
      var modifiers := Modifiers(names[..last], {}).value;
      ModifiersExactly(names[..last], {}, modifiers);
      assert sequence.keys[..last] == modifiers && sequence.keys[last] != 0;
      NamesExactly(names, mouseButton, sequence);
    }
    if IsSequence(text, mouseButton, sequence) {
      var parts: seq<string> :| 0 < |parts| <= 4 && Join(parts, "+") == text
        && (forall i :: 0 <= i < |parts| ==> Lacks(parts[i], '+')) && AreNamesOf(parts, mouseButton, sequence);
      LackingAreWhole(parts, '+');
      SplitExactly(text, '+', false, parts);
      NamesAreAsMany(parts, mouseButton, sequence);
      NamesExactly(parts, mouseButton, sequence);
      assert sequence.keys == sequence.keys[..last] + [sequence.keys[last]];
    }
  }

  lemma NamesAreAsMany(names: seq<string>, mouseButton: bool, sequence: KeySequence)
    requires AreNamesOf(names, mouseButton, sequence)
    ensures |names| == |sequence.keys| > 0
  {
  }

  // ---------------------------------------------------------------------------
  // The operations
  // ---------------------------------------------------------------------------

  method Print(sequence: KeySequence, lower: LowerCase) returns (text: string)
    ensures text == ToString(sequence.keys, lower)
  {
    hide KeyToString, ToString;
    text := "";
    var keys := sequence.keys;
    assert keys[0..] == keys && ToString([], lower) == "" by { NothingPrinted(lower); }
    for i := 0 to |keys|
      invariant text + ToString(keys[i..], lower) == ToString(keys, lower)
    {
      NextKeyPrinted(keys, i, lower);
      text := text + KeyToString(keys[i], lower);
      if i != |keys| - 1 {
        text := text + "+";
      }
    }
    assert keys[|keys|..] == [];
  }

  lemma NothingPrinted(lower: LowerCase)
    ensures ToString([], lower) == ""
  {
  }

  lemma NextKeyPrinted(keys: seq<int>, i: nat, lower: LowerCase)
    requires i < |keys|
    ensures ToString(keys[i..], lower)
            == KeyToString(keys[i], lower) + (if i + 1 < |keys| then "+" else "") + ToString(keys[i + 1..], lower)
  {
    hide KeyToString;
    assert keys[i..][0] == keys[i] && keys[i..][1..] == keys[i + 1..];
    if i + 1 == |keys| {
      assert KeyNames(keys[i..], lower) == [KeyToString(keys[i], lower)];
    }
  }

  method Read(text: string, mouseButton: bool) returns (result: Option<KeySequence>)
    ensures result == FromString(text, mouseButton)
  {
    hide ModifierFromString, KeyFromString, MouseButtonFromString, Parts;
    var names := Split(text, '+');
    if |names| > MAX_KEYS {
      return None;
    }
    var last := |names| - 1;
    var sequence := EMPTY;
    NothingPrepended(Modifiers(names[..last], {}));
    assert names[0..last] == names[..last];
    for i := 0 to last
      invariant sequence.modifiers == AsSet(sequence.keys)
      invariant Modifiers(names[..last], {}) == Prepended(sequence.keys, Modifiers(names[i..last], sequence.modifiers))
    {
      assert names[i..last][0] == names[i] && names[i..last][1..] == names[i + 1..last];
      var modifier := ModifierFromString(names[i]);
      if modifier == 0 || modifier in sequence.modifiers {
        return None;
      }
      PrependedTwice(sequence.keys, modifier, Modifiers(names[i + 1..last], sequence.modifiers + {modifier}));
      sequence := KeySequence(sequence.keys + [modifier], sequence.modifiers + {modifier}, false);
    }
    assert sequence.keys + [] == sequence.keys;
    var key := if mouseButton then MouseButtonFromString(names[last]) else KeyFromString(names[last]);
    if key == 0 {
      return None;
    }
    return Some(KeySequence(sequence.keys + [key], sequence.modifiers, true));
  }
}
