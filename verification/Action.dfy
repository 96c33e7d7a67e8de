/** Actions of hotkeys as text: a name and, for most, arguments in parentheses. */
module Actions {
  import opened Options
  import opened Texts
  import opened KeySequences

  datatype Action = Action(
    sequence: KeySequence, kind: nat, screens: seq<string>, switchScreen: string,
    direction: nat, mode: nat, onRelease: bool, haveScreens: bool)

  const KEYSTROKE: nat := 2
  const SWITCH_TO_SCREEN: nat := 3
  const TOGGLE_SCREEN: nat := 4
  const SWITCH_IN_DIRECTION: nat := 5
  const LOCK_CURSOR: nat := 6
  const MOUSE_DOWN: nat := 7

  const TYPE_NAMES: seq<string> := [
    "keyDown", "keyUp", "keystroke", "switchToScreen", "toggleScreen", "switchInDirection", "lockCursorToScreen",
    "mouseDown", "mouseUp", "mousebutton"]
  const DIRECTION_NAMES: seq<string> := ["left", "right", "up", "down"]
  const MODE_NAMES: seq<string> := ["toggle", "on", "off"]

  const DEFAULT := Action(EMPTY, KEYSTROKE, [], "", 0, 0, false, false)

  function IndexOfName(names: seq<string>, name: string): (index: nat)
    ensures index <= |names| && (index < |names| ==> names[index] == name)
  {
    if names == [] || names[0] == name then 0 else 1 + IndexOfName(names[1..], name)
  }

  // ---------------------------------------------------------------------------
  // Printing
  // ---------------------------------------------------------------------------

  /** The names of the tables that the action needs exist. */
  predicate IsPrintable(action: Action) {
    && action.direction < |DIRECTION_NAMES| && action.mode < |MODE_NAMES|
    && action.kind < MOUSE_DOWN && (action.sequence.IsMouseButton() ==> action.kind <= KEYSTROKE)
  }

  function TypeIndex(action: Action): nat {
    if action.sequence.IsMouseButton() then action.kind + MOUSE_DOWN else action.kind
  }

  function ScreensText(action: Action): string {
    if action.haveScreens && action.screens != [] then Join(action.screens, ":") else "*"
  }

  /** What the action is printed with in parentheses; None for an action without arguments. */
  function Arguments(action: Action, lower: LowerCase): Option<string>
    requires IsPrintable(action)
  {
    if action.kind <= KEYSTROKE then
      var keys := ToString(action.sequence.keys, lower);
      Some(if action.sequence.IsMouseButton() then keys else keys + "," + ScreensText(action))
    else if action.kind == SWITCH_TO_SCREEN then Some(action.switchScreen)
    else if action.kind == SWITCH_IN_DIRECTION then Some(DIRECTION_NAMES[action.direction])
    else if action.kind == LOCK_CURSOR then Some(MODE_NAMES[action.mode])
    else None
  }

  function Call(name: string, arguments: Option<string>): string {
    match arguments
    case None => name
    case Some(text) => name + "(" + text + ")"
  }

  function Text(action: Action, lower: LowerCase): string
    requires IsPrintable(action)
  {
    Call(TYPE_NAMES[TypeIndex(action)], Arguments(action, lower))
  }

  // ---------------------------------------------------------------------------
  // Parsing
  // ---------------------------------------------------------------------------

  function FirstOf(text: string, c: char): (index: nat)
    ensures index <= |text| && Lacks(text[..index], c) && (index < |text| ==> text[index] == c)
  {
    if text == "" || text[0] == c then 0 else 1 + FirstOf(text[1..], c)
  }

  datatype ParsedCall = ParsedCall(name: string, arguments: Option<string>)

  function ParseCall(text: string): Option<ParsedCall> {
    var name := Trim(text);
    var open := FirstOf(name, '(');
    if open == |name| then Some(ParsedCall(name, None))
    else if name[|name| - 1] != ')' then None
    else Some(ParsedCall(Trim(name[..open]), Some(Trim(name[open + 1..|name| - 1]))))
  }

  function ScreensFromText(parts: seq<string>): Option<seq<string>> {
    if parts == [] then Some([])
    else if Trim(parts[0]) == "" then None
    else
      match ScreensFromText(parts[1..])
      case None => None
      case Some(screens) => Some([Trim(parts[0])] + screens)
  }

  function KeyAction(kind: nat, arguments: string, onRelease: bool): Option<Action> {
    var parts := Split(arguments, ',');
    if |parts| > 2 then None
    else
      match FromString(Trim(parts[0]), false)
      case None => None
      case Some(sequence) =>
        var action := DEFAULT.(kind := kind, sequence := sequence, onRelease := onRelease);
        if |parts| == 2 && Trim(parts[1]) != "*" then
          match ScreensFromText(Split(parts[1], ':'))
          case None => None
          case Some(screens) => Some(action.(haveScreens := true, screens := screens))
        else Some(action)
  }

  function MouseAction(kind: nat, arguments: string, onRelease: bool): Option<Action> {
    match FromString(arguments, true)
    case None => None
    case Some(sequence) => Some(DEFAULT.(kind := kind, sequence := sequence, onRelease := onRelease))
  }

  function OtherAction(kind: nat, call: ParsedCall, onRelease: bool): Option<Action> {
    var action := DEFAULT.(kind := kind, onRelease := onRelease);
    var arguments := if call.arguments.Some? then call.arguments.value else "";
    if kind == SWITCH_TO_SCREEN then
      if arguments == "" then None else Some(action.(switchScreen := arguments))
    else if kind == TOGGLE_SCREEN then
      if call.arguments.Some? then None else Some(action)
    else if kind == SWITCH_IN_DIRECTION then
      var direction := IndexOfName(DIRECTION_NAMES, arguments);
      if direction == |DIRECTION_NAMES| then None else Some(action.(direction := direction))
    else
      var mode := IndexOfName(MODE_NAMES, arguments);
      if mode == |MODE_NAMES| then None else Some(action.(mode := mode))
  }

  function FromCall(call: ParsedCall, onRelease: bool): Option<Action> {
    var arguments := if call.arguments.Some? then call.arguments.value else "";
    var kind := IndexOfName(TYPE_NAMES, call.name);
    if kind <= KEYSTROKE then KeyAction(kind, arguments, onRelease)
    else if MOUSE_DOWN <= kind < |TYPE_NAMES| then MouseAction(kind - MOUSE_DOWN, arguments, onRelease)
    else if kind == |TYPE_NAMES| then None
    else OtherAction(kind, call, onRelease)
  }

  function FromText(text: string, onRelease: bool): Option<Action> {
    match ParseCall(text)
    case None => None
    case Some(call) => FromCall(call, onRelease)
  }

  // ---------------------------------------------------------------------------
  // Parsing what was printed
  // ---------------------------------------------------------------------------

  predicate IsName(name: string) {
    name != "" && IsTrimmed(name)
  }

  predicate IsScreenName(name: string) {
    IsName(name) && Lacks(name, ',') && Lacks(name, ':')
  }

  /** The actions that text can hold. */
  predicate IsReadableAction(action: Action, lower: LowerCase) {
    && IsPrintable(action)
    && (action.kind <= KEYSTROKE ==>
          && IsReadable(action.sequence, action.sequence.IsMouseButton(), lower)
          && (!action.sequence.IsMouseButton() && action.haveScreens ==>
                action.screens != ["*"] && AreScreenNames(action.screens)))
    && (action.kind == SWITCH_TO_SCREEN ==> IsName(action.switchScreen))
  }

  predicate AreScreenNames(screens: seq<string>) {
    forall i :: 0 <= i < |screens| ==> IsScreenName(screens[i])
  }

  /** No separator in the arguments is outside all parentheses, given the one before them. */
  predicate AreInside(arguments: Option<string>) {
    arguments.Some? ==> IsWhole(arguments.value, ',', true, 1) && IsWhole(arguments.value, ';', true, 1)
  }

  /** An action that can be the last one: nothing in it is mistaken for a separator. */
  predicate IsWholeAction(action: Action, lower: LowerCase) {
    IsReadableAction(action, lower) && AreInside(Arguments(action, lower))
  }

  /** An action that can be followed by others: its parentheses are closed as well. */
  predicate IsPlainAction(action: Action, lower: LowerCase) {
    && IsWholeAction(action, lower)
    && (Arguments(action, lower).Some? ==> DepthAfter(Arguments(action, lower).value, true, 1) == 1)
  }

  /** The action without what its kind has no use for. */
  function Cleared(action: Action): Action {
    var blank := DEFAULT.(kind := action.kind, onRelease := action.onRelease);
    if action.kind <= KEYSTROKE then
      var keyed := blank.(sequence := action.sequence);
      if !action.sequence.IsMouseButton() && action.haveScreens && action.screens != []
      then keyed.(haveScreens := true, screens := action.screens) else keyed
    else if action.kind == SWITCH_TO_SCREEN then blank.(switchScreen := action.switchScreen)
    else if action.kind == SWITCH_IN_DIRECTION then blank.(direction := action.direction)
    else if action.kind == LOCK_CURSOR then blank.(mode := action.mode)
    else blank
  }

  lemma {:induction false} FirstOfAfter(text: string, c: char, rest: string)
    requires Lacks(text, c)
    ensures FirstOf(text + [c] + rest, c) == |text|
  {
    if text != "" {
      assert (text + [c] + rest)[1..] == text[1..] + [c] + rest;
      FirstOfAfter(text[1..], c, rest);
    }
  }

  lemma {:induction false} FirstOfNone(text: string, c: char)
    requires Lacks(text, c)
    ensures FirstOf(text, c) == |text|
  {
    if text != "" {
      FirstOfNone(text[1..], c);
    }
  }

  lemma WordIsPlain(name: string)
    requires IsWord(name) && name != ""
    ensures IsTrimmed(name) && LacksParentheses(name)
  {
  }

  /** A printed call is parsed into its name and arguments, whatever white space is around it. */
  lemma CallRoundTrip(name: string, arguments: Option<string>, before: string, after: string)
    requires IsWord(name) && name != "" && AllSpaces(before) && AllSpaces(after)
    requires arguments.Some? ==> IsTrimmed(arguments.value)
    ensures ParseCall(before + Call(name, arguments) + after) == Some(ParsedCall(name, arguments))
  {
    hide Trim, FirstOf, IsWord, LacksParentheses;
    var text := Call(name, arguments);
    WordIsPlain(name);
    CallIsTrimmed(name, arguments);
    TrimOf(before, text, after);
    WordLacksOpening(name);
    if arguments.None? {
      FirstOfNone(name, '(');
    } else {
      var rest := arguments.value + ")";
      assert text == name + ['('] + rest;
      FirstOfAfter(name, '(', rest);
      assert text[..|name|] == name && text[|name| + 1..|text| - 1] == arguments.value;
      TrimTrimmed(name);
      TrimTrimmed(arguments.value);
    }
  }

  lemma WordLacksOpening(name: string)
    requires IsWord(name)
    ensures Lacks(name, '(')
  {
  }

  lemma CallIsTrimmed(name: string, arguments: Option<string>)
    requires IsTrimmed(name) && name != ""
    ensures IsTrimmed(Call(name, arguments)) && Call(name, arguments) != ""
  {
    if arguments.Some? {
      var text := Call(name, arguments);
      assert text[0] == name[0] && text[|text| - 1] == ')';
    }
  }

  lemma {:induction false} FirstIndexIsFound(names: seq<string>, k: nat)
    requires k < |names| && forall j :: 0 <= j < k ==> names[j] != names[k]
    ensures IndexOfName(names, names[k]) == k
  {
    if k > 0 {
      FirstIndexIsFound(names[1..], k - 1);
    }
  }

  lemma TypeNamesDiffer(j: nat, k: nat)
    requires j < k < |TYPE_NAMES|
    ensures TYPE_NAMES[j] != TYPE_NAMES[k]
  {
  }

  lemma TypeNamesAreWords(kind: nat)
    requires kind < |TYPE_NAMES|
    ensures IsWord(TYPE_NAMES[kind]) && TYPE_NAMES[kind] != ""
  {
  }

  lemma TypeNamesAreFound(kind: nat)
    requires kind < |TYPE_NAMES|
    ensures IndexOfName(TYPE_NAMES, TYPE_NAMES[kind]) == kind && IsWord(TYPE_NAMES[kind]) && TYPE_NAMES[kind] != ""
  {
    hide IndexOfName, IsWord;
    TypeNamesAreWords(kind);
    forall j: nat | j < kind
      ensures TYPE_NAMES[j] != TYPE_NAMES[kind]
    {
      TypeNamesDiffer(j, kind);
    }
    FirstIndexIsFound(TYPE_NAMES, kind);
  }

  lemma DirectionNamesAreFound(direction: nat)
    requires direction < |DIRECTION_NAMES|
    ensures IndexOfName(DIRECTION_NAMES, DIRECTION_NAMES[direction]) == direction
    ensures IsName(DIRECTION_NAMES[direction]) && LacksParentheses(DIRECTION_NAMES[direction])
  {
  }

  lemma ModeNamesAreFound(mode: nat)
    requires mode < |MODE_NAMES|
    ensures IndexOfName(MODE_NAMES, MODE_NAMES[mode]) == mode
    ensures IsName(MODE_NAMES[mode]) && LacksParentheses(MODE_NAMES[mode])
  {
  }

  // ---------------------------------------------------------------------------
  // Screens of a key action
  // ---------------------------------------------------------------------------

  lemma {:induction false} ScreensAreRead(screens: seq<string>)
    requires AreScreenNames(screens)
    ensures ScreensFromText(screens) == Some(screens)
  {
    hide Trim, Lacks;
    if screens != [] {
      ScreenNameIsTrimmed(screens[0]);
      ScreensAreRead(screens[1..]);
      assert screens == [screens[0]] + screens[1..];
    }
  }

  lemma ScreenNameIsTrimmed(name: string)
    requires IsScreenName(name)
    ensures Trim(name) == name != ""
  {
    hide Trim;
    TrimTrimmed(name);
  }

  lemma {:induction false} JoinedScreens(screens: seq<string>)
    requires AreScreenNames(screens) && screens != []
    ensures var text := Join(screens, ":");
            text != "" && IsTrimmed(text) && Lacks(text, ',')
    ensures Join(screens, ":") == "*" ==> screens == ["*"]
  {
    assert IsScreenName(screens[0]);
    if |screens| > 1 {
      JoinedScreens(screens[1..]);
      var text, rest := Join(screens, ":"), Join(screens[1..], ":");
      assert text[0] == screens[0][0] && text[|text| - 1] == rest[|rest| - 1];
      assert |text| > 1;
    }
  }

  lemma SplitScreens(screens: seq<string>)
    requires AreScreenNames(screens) && screens != []
    ensures Split(Join(screens, ":"), ':') == screens
  {
    hide Lacks;
    forall k | 0 <= k < |screens|
      ensures IsWhole(screens[k], ':', false, 0) && DepthAfter(screens[k], false, 0) == 0
    {
      assert IsScreenName(screens[k]);
      WholeWithout(screens[k], ':', false, 0);
      DepthWithout(screens[k], false, 0);
    }
    PartsOfJoin(screens, ':', false);
  }

  lemma SplitAtComma(keys: string, screens: string)
    requires Lacks(keys, ',') && Lacks(screens, ',')
    ensures Split(keys + "," + screens, ',') == [keys, screens]
  {
    WholeWithout(keys, ',', false, 0);
    DepthWithout(keys, false, 0);
    FirstPart(keys, ',', false, 0, screens);
    WholeWithout(screens, ',', false, 0);
    WholeText(screens, ',', false, 0);
  }

  // ---------------------------------------------------------------------------
  // Actions of each kind
  // ---------------------------------------------------------------------------

  lemma ReadableSequenceText(sequence: KeySequence, mouseButton: bool, lower: LowerCase)
    requires IsReadable(sequence, mouseButton, lower)
    ensures var text := ToString(sequence.keys, lower); Lacks(text, ',') && IsTrimmed(text)
    ensures FromString(ToString(sequence.keys, lower), mouseButton) == Some(sequence)
  {
    hide IsBuilt, IsReadableKey, ToString, Lacks, FromString;
    ToStringLacks(sequence, mouseButton, lower, ',');
    ToStringIsTrimmed(sequence, mouseButton, lower);
    SequenceRoundTrip(sequence, mouseButton, lower);
  }

  /** What an action is printed with has no white space at its ends. */
  lemma ArgumentsAreTrimmed(action: Action, lower: LowerCase)
    requires IsReadableAction(action, lower)
    ensures var arguments := Arguments(action, lower); arguments.Some? ==> IsTrimmed(arguments.value)
  {
    hide IsReadable, ToString, Trim;
    if action.kind <= KEYSTROKE {
      ReadableSequenceText(action.sequence, action.sequence.IsMouseButton(), lower);
      if !action.sequence.IsMouseButton() {
        ReadableScreensText(action, lower);
        JoinedWithComma(ToString(action.sequence.keys, lower), ScreensText(action));
      }
    } else if action.kind == SWITCH_IN_DIRECTION {
      DirectionNamesAreFound(action.direction);
    } else if action.kind == LOCK_CURSOR {
      ModeNamesAreFound(action.mode);
    }
  }

  lemma ReadableScreensText(action: Action, lower: LowerCase)
    requires IsReadableAction(action, lower) && action.kind <= KEYSTROKE && !action.sequence.IsMouseButton()
    ensures var text := ScreensText(action); text != "" && IsTrimmed(text) && Lacks(text, ',')
    ensures ScreensText(action) == "*" <==> !(action.haveScreens && action.screens != [])
  {
    hide IsReadable, IsScreenName;
    if action.haveScreens && action.screens != [] {
      JoinedScreens(action.screens);
    }
  }

  lemma JoinedWithComma(keys: string, screens: string)
    requires IsTrimmed(keys) && IsTrimmed(screens) && screens != ""
    ensures IsTrimmed(keys + "," + screens)
  {
    var text := keys + "," + screens;
    assert text[0] == if keys == "" then ',' else keys[0];
    assert text[|text| - 1] == screens[|screens| - 1];
  }

  lemma KeyActionRoundTrip(action: Action, lower: LowerCase)
    requires IsReadableAction(action, lower) && action.kind <= KEYSTROKE && !action.sequence.IsMouseButton()
    ensures KeyAction(action.kind, Arguments(action, lower).value, action.onRelease) == Some(Cleared(action))
  {
    hide IsReadable, ToString, Trim, FromString, IsScreenName, Parts, Join, Lacks, ScreensFromText;
    var keys, screens := ToString(action.sequence.keys, lower), ScreensText(action);
    ReadableSequenceText(action.sequence, false, lower);
    ReadableScreensText(action, lower);
    SplitAtComma(keys, screens);
    TrimTrimmed(keys);
    TrimTrimmed(screens);
    if action.haveScreens && action.screens != [] {
      SplitScreens(action.screens);
      ScreensAreRead(action.screens);
    }
  }

  /** Parsing what was printed gives the action back, up to what its kind has no use for. */
  lemma ActionRoundTrip(action: Action, lower: LowerCase, before: string, after: string)
    requires IsReadableAction(action, lower) && AllSpaces(before) && AllSpaces(after)
    ensures FromText(before + Text(action, lower) + after, action.onRelease) == Some(Cleared(action))
  {
    hide ParseCall, Arguments, IsReadableAction, AllSpaces, Call, IsTrimmed, IndexOfName, FromCall, IsWord;
    ReadableIsPrintable(action, lower);
    var arguments := Arguments(action, lower);
    ArgumentsAreTrimmed(action, lower);
    TypeNamesAreFound(TypeIndex(action));
    CallRoundTrip(TYPE_NAMES[TypeIndex(action)], arguments, before, after);
    CallIsRead(action, lower);
  }

  lemma ReadableIsPrintable(action: Action, lower: LowerCase)
    requires IsReadableAction(action, lower)
    ensures IsPrintable(action) && TypeIndex(action) < |TYPE_NAMES|
  {
  }

  lemma WholeIsReadable(action: Action, lower: LowerCase)
    requires IsWholeAction(action, lower)
    ensures IsReadableAction(action, lower) && IsPrintable(action)
  {
  }

  lemma CallIsRead(action: Action, lower: LowerCase)
    requires IsReadableAction(action, lower)
    ensures FromCall(ParsedCall(TYPE_NAMES[TypeIndex(action)], Arguments(action, lower)), action.onRelease)
            == Some(Cleared(action))
  {
    hide IndexOfName, IsWord, KeyAction, FromString, IsReadable, ToString, IsScreenName, IsTrimmed;
    TypeNamesAreFound(TypeIndex(action));
    if action.kind <= KEYSTROKE {
      if action.sequence.IsMouseButton() {
        ReadableSequenceText(action.sequence, true, lower);
      } else {
        KeyActionRoundTrip(action, lower);
      }
    } else if action.kind == SWITCH_IN_DIRECTION {
      DirectionNamesAreFound(action.direction);
    } else if action.kind == LOCK_CURSOR {
      ModeNamesAreFound(action.mode);
    }
  }

  // ---------------------------------------------------------------------------
  // Parentheses in arguments
  // ---------------------------------------------------------------------------

  predicate NamesLack(action: Action, c: char) {
    && (action.kind == SWITCH_TO_SCREEN ==> Lacks(action.switchScreen, c))
    && (action.kind <= KEYSTROKE ==> forall i :: 0 <= i < |action.screens| ==> Lacks(action.screens[i], c))
  }

  /** The action is on this key of the keyboard. */
  predicate IsOn(action: Action, c: char) {
    && action.kind <= KEYSTROKE && !action.sequence.IsMouseButton() && action.sequence.keys != []
    && action.sequence.keys[|action.sequence.keys| - 1] == c as int
  }

  lemma {:induction false} JoinedScreensLack(screens: seq<string>, c: char)
    requires screens != [] && c != ':' && forall i :: 0 <= i < |screens| ==> Lacks(screens[i], c)
    ensures Lacks(Join(screens, ":"), c)
  {
    assert Lacks(screens[0], c);
    if |screens| > 1 {
      JoinedScreensLack(screens[1..], c);
    }
  }

  lemma ArgumentsLack(action: Action, lower: LowerCase, c: char)
    requires IsReadableAction(action, lower) && NamesLack(action, c) && !IsOn(action, c) && (c == '(' || c == ')')
    ensures var arguments := Arguments(action, lower); arguments.Some? ==> Lacks(arguments.value, c)
  {
    hide IsBuilt, IsReadableKey, ToString, IsScreenName;
    if action.kind <= KEYSTROKE {
      BuiltHasKeys(action.sequence, action.sequence.IsMouseButton());
      ToStringLacks(action.sequence, action.sequence.IsMouseButton(), lower, c);
      if action.haveScreens && action.screens != [] {
        JoinedScreensLack(action.screens, c);
      }
    } else if action.kind == SWITCH_IN_DIRECTION {
      DirectionNamesAreFound(action.direction);
    } else if action.kind == LOCK_CURSOR {
      ModeNamesAreFound(action.mode);
    }
  }

  /** Without parentheses in names, an action is whole unless it is on ")", and plain if it is not on "(" either. */
  lemma WithoutParentheses(action: Action, lower: LowerCase)
    requires IsReadableAction(action, lower) && NamesLack(action, '(') && NamesLack(action, ')')
    requires !IsOn(action, ')')
    ensures IsWholeAction(action, lower)
    ensures !IsOn(action, '(') ==> IsPlainAction(action, lower)
  {
    hide IsReadableAction, NamesLack, IsOn, Arguments, IsWhole, DepthAfter;
    ReadableIsPrintable(action, lower);
    ArgumentsLack(action, lower, ')');
    var arguments := Arguments(action, lower);
    if arguments.Some? {
      WholeInside(arguments.value, ',', 1);
      WholeInside(arguments.value, ';', 1);
      if !IsOn(action, '(') {
        ArgumentsLack(action, lower, '(');
        DepthWithout(arguments.value, true, 1);
      }
    }
  }

  /** A printed action is cut neither between actions nor between phases. */
  lemma TextIsWhole(action: Action, lower: LowerCase, separator: char)
    requires IsWholeAction(action, lower) && (separator == ',' || separator == ';')
    ensures IsPrintable(action) && IsWhole(Text(action, lower), separator, true, 0)
    ensures IsPlainAction(action, lower) ==> DepthAfter(Text(action, lower), true, 0) == 0
  {
    hide Arguments, IsReadableAction, Call, IsWord, IsWhole, DepthAfter;
    ReadableIsPrintable(action, lower);
    TypeNamesAreFound(TypeIndex(action));
    CallIsWhole(TYPE_NAMES[TypeIndex(action)], Arguments(action, lower), separator);
  }

  lemma CallIsWhole(name: string, arguments: Option<string>, separator: char)
    requires IsWord(name) && name != "" && (separator == ',' || separator == ';')
    requires arguments.Some? ==> IsWhole(arguments.value, separator, true, 1)
    ensures IsWhole(Call(name, arguments), separator, true, 0)
    ensures (arguments.Some? ==> DepthAfter(arguments.value, true, 1) == 1)
            ==> DepthAfter(Call(name, arguments), true, 0) == 0
  {
    hide IsWhole, DepthAfter, LacksParentheses;
    WordIsPlain(name);
    WordLacks(name, separator);
    WholeWithout(name, separator, true, 0);
    DepthWithout(name, true, 0);
    if arguments.Some? {
      var text := arguments.value;
      ParenthesesAreWhole(separator, DepthAfter(text, true, 1));
      WholeOfBoth(name, "(", separator, true, 0);
      DepthOfBoth(name, "(", true, 0);
      WholeOfBoth(name + "(", text, separator, true, 0);
      DepthOfBoth(name + "(", text, true, 0);
      WholeOfBoth(name + "(" + text, ")", separator, true, 0);
      DepthOfBoth(name + "(" + text, ")", true, 0);
    }
  }

  lemma WordLacks(name: string, c: char)
    requires IsWord(name) && !IsWordCharacter(c)
    ensures Lacks(name, c)
  {
  }

  lemma ParenthesesAreWhole(separator: char, depth: int)
    requires separator == ',' || separator == ';'
    ensures IsWhole("(", separator, true, 0) && DepthAfter("(", true, 0) == 1
    ensures IsWhole(")", separator, true, depth) && DepthAfter(")", true, depth) == depth - 1
  {
    assert "("[1..] == "" && ")"[1..] == "";
  }

  // ---------------------------------------------------------------------------
  // Whatever is parsed
  // ---------------------------------------------------------------------------

  /** The actions that parsing makes: nothing is set that their kind has no use for. */
  predicate IsBuiltAction(action: Action) {
    && IsPrintable(action) && Cleared(action) == action
    && (action.kind <= KEYSTROKE ==> IsBuilt(action.sequence, action.sequence.IsMouseButton()))
    && (action.kind == SWITCH_TO_SCREEN ==> action.switchScreen != "")
  }

  lemma {:induction false} ScreensAreNamed(parts: seq<string>)
    requires ScreensFromText(parts).Some?
    ensures |ScreensFromText(parts).value| == |parts|
    ensures forall i :: 0 <= i < |parts| ==> ScreensFromText(parts).value[i] == Trim(parts[i]) != ""
  {
    hide Trim;
    if parts != [] {
      ScreensAreNamed(parts[1..]);
    }
  }

  lemma KeyActionIsBuilt(kind: nat, arguments: string, onRelease: bool)
    requires kind <= KEYSTROKE && KeyAction(kind, arguments, onRelease).Some?
    ensures var action := KeyAction(kind, arguments, onRelease).value;
            IsBuiltAction(action) && action.onRelease == onRelease
  {
    hide Trim, Parts, FromString, IsBuilt, ScreensFromText;
    var parts := Split(arguments, ',');
    var sequence := FromString(Trim(parts[0]), false).value;
    FromStringBuilds(Trim(parts[0]), false);
    BuiltHasKeys(sequence, false);
    if |parts| == 2 && Trim(parts[1]) != "*" {
      ScreensAreNamed(Split(parts[1], ':'));
    }
  }

  lemma MouseActionIsBuilt(kind: nat, arguments: string, onRelease: bool)
    requires kind <= KEYSTROKE && MouseAction(kind, arguments, onRelease).Some?
    ensures var action := MouseAction(kind, arguments, onRelease).value;
            IsBuiltAction(action) && action.onRelease == onRelease
  {
    hide FromString, IsBuilt;
    FromStringBuilds(arguments, true);
    BuiltHasKeys(FromString(arguments, true).value, true);
  }

  /** Whatever text is parsed, the action is in the caller's phase, and has what its kind needs and no more. */
  lemma ParsedActionIsBuilt(text: string, onRelease: bool)
    requires FromText(text, onRelease).Some?
    ensures IsBuiltAction(FromText(text, onRelease).value) && FromText(text, onRelease).value.onRelease == onRelease
  {
    hide ParseCall, IndexOfName, KeyAction, MouseAction, IsBuilt;
    var call := ParseCall(text).value;
    var arguments := if call.arguments.Some? then call.arguments.value else "";
    var kind := IndexOfName(TYPE_NAMES, call.name);
    if kind <= KEYSTROKE {
      KeyActionIsBuilt(kind, arguments, onRelease);
    } else if MOUSE_DOWN <= kind < |TYPE_NAMES| {
      MouseActionIsBuilt(kind - MOUSE_DOWN, arguments, onRelease);
    }
  }

  lemma SpacesAreNoAction(text: string, onRelease: bool)
    requires AllSpaces(text)
    ensures FromText(text, onRelease) == None
  {
    hide Trim;
    TrimIsBlank(text);
    assert FirstOf("", '(') == 0;
    TypeNamesAreNotEmpty();
  }

  lemma TypeNamesAreNotEmpty()
    ensures IndexOfName(TYPE_NAMES, "") == |TYPE_NAMES|
  {
    var index := IndexOfName(TYPE_NAMES, "");
    if index < |TYPE_NAMES| {
      TypeNamesAreWords(index);
    }
  }

  // ---------------------------------------------------------------------------
  // What is read as what
  // ---------------------------------------------------------------------------

  /** Names between colons, each with something other than white space. */
  ghost predicate AreScreens(text: string, screens: seq<string>) {
    exists parts: seq<string> :: parts != [] && Join(parts, ":") == text && AreNamed(parts, screens)
  }

  predicate AreNamed(parts: seq<string>, screens: seq<string>) {
    && |parts| == |screens|
    && forall k :: 0 <= k < |parts| ==> Lacks(parts[k], ':') && Trim(parts[k]) == screens[k] != ""
  }

  /** A key by itself, a key and "*", or a key and names of screens. */
  ghost predicate MeansKeys(kind: nat, text: string, onRelease: bool, action: Action) {
    var plain := DEFAULT.(kind := kind, onRelease := onRelease, sequence := action.sequence);
    || (Lacks(text, ',') && FromString(Trim(text), false) == Some(action.sequence) && action == plain)
    || exists i: nat :: i < |text| && text[i] == ',' && Lacks(text[..i], ',') && Lacks(text[i + 1..], ',')
         && FromString(Trim(text[..i]), false) == Some(action.sequence)
         && if Trim(text[i + 1..]) == "*" then action == plain
            else action == plain.(haveScreens := true, screens := action.screens)
                 && AreScreens(text[i + 1..], action.screens)
  }

  predicate MeansButton(kind: nat, text: string, onRelease: bool, action: Action) {
    && FromString(text, true) == Some(action.sequence)
    && action == DEFAULT.(kind := kind, onRelease := onRelease, sequence := action.sequence)
  }

  predicate MeansDirection(text: string, onRelease: bool, action: Action) {
    var turn := DEFAULT.(kind := 5, onRelease := onRelease);
    match text
    case "left" => action == turn.(direction := 0)
    case "right" => action == turn.(direction := 1)
    case "up" => action == turn.(direction := 2)
    case "down" => action == turn.(direction := 3)
    case _ => false
  }

  predicate MeansLock(text: string, onRelease: bool, action: Action) {
    var lock := DEFAULT.(kind := 6, onRelease := onRelease);
    match text
    case "toggle" => action == lock.(mode := 0)
    case "on" => action == lock.(mode := 1)
    case "off" => action == lock.(mode := 2)
    case _ => false
  }

  /** What a name, followed by arguments in parentheses or not, stands for. */
  ghost predicate Means(name: string, arguments: Option<string>, onRelease: bool, action: Action) {
    var text := if arguments.Some? then arguments.value else "";
    var blank := DEFAULT.(onRelease := onRelease);
    match name
    case "keyDown" => MeansKeys(0, text, onRelease, action)
    case "keyUp" => MeansKeys(1, text, onRelease, action)
    case "keystroke" => MeansKeys(2, text, onRelease, action)
    case "mouseDown" => MeansButton(0, text, onRelease, action)
    case "mouseUp" => MeansButton(1, text, onRelease, action)
    case "mousebutton" => MeansButton(2, text, onRelease, action)
    case "switchToScreen" => text != "" && action == blank.(kind := 3, switchScreen := text)
    case "toggleScreen" => arguments == None && action == blank.(kind := 4)
    case "switchInDirection" => MeansDirection(text, onRelease, action)
    case "lockCursorToScreen" => MeansLock(text, onRelease, action)
    case _ => false
  }

  /** The text is a call of that meaning, with any white space around it, its name and its arguments. */
  ghost predicate IsReadAs(text: string, onRelease: bool, action: Action) {
    var call := Trim(text);
    || (Lacks(call, '(') && Means(call, None, onRelease, action))
    || exists i: nat :: i < |call| - 1 && call[i] == '(' && call[|call| - 1] == ')' && Lacks(call[..i], '(')
         && Means(Trim(call[..i]), Some(Trim(call[i + 1..|call| - 1])), onRelease, action)
  }

  lemma {:induction false} NamesExactly(parts: seq<string>, screens: seq<string>)
    ensures ScreensFromText(parts) == Some(screens)
            <==> |parts| == |screens| && forall k :: 0 <= k < |parts| ==> Trim(parts[k]) == screens[k] != ""
  {
    hide Trim;
    if parts != [] {
      if screens == [] {
      } else {
        NamesExactly(parts[1..], screens[1..]);
        assert screens == [screens[0]] + screens[1..];
        assert forall k :: 0 < k < |parts| ==> parts[k] == parts[1..][k - 1];
        assert forall k :: 0 < k < |screens| ==> screens[k] == screens[1..][k - 1];
      }
    }
  }

  lemma ScreensExactly(text: string, screens: seq<string>)
    ensures ScreensFromText(Split(text, ':')) == Some(screens) <==> AreScreens(text, screens)
  {
    hide Trim, Parts, Join, Lacks, AreWhole, ScreensFromText;
    var parts := Split(text, ':');
    NamesExactly(parts, screens);
    SplitExactly(text, ':', false, parts);
    LackingAreWhole(parts, ':');
    if AreScreens(text, screens) {
      var ps: seq<string> :| ps != [] && Join(ps, ":") == text && AreNamed(ps, screens);
      LackingAreWhole(ps, ':');
      SplitExactly(text, ':', false, ps);
    }
  }

  /** Splitting at a comma of which there is at most one. */
  lemma CommaExactly(text: string)
    ensures |Split(text, ',')| == 1 <==> Lacks(text, ',')
    ensures Lacks(text, ',') ==> Split(text, ',') == [text]
    ensures forall i: nat :: i < |text| && text[i] == ',' && Lacks(text[..i], ',') && Lacks(text[i + 1..], ',')
              ==> Split(text, ',') == [text[..i], text[i + 1..]]
    ensures |Split(text, ',')| == 2 ==>
              exists i: nat :: i < |text| && text[i] == ',' && Lacks(text[..i], ',') && Lacks(text[i + 1..], ',')
  {
    hide Parts, Lacks, AreWhole;
    var parts := Split(text, ',');
    SplitExactly(text, ',', false, parts);
    SplitExactly(text, ',', false, [text]);
    LackingAreWhole(parts, ',');
    LackingAreWhole([text], ',');
    assert [text][0] == text;
    forall i: nat | i < |text| && text[i] == ',' && Lacks(text[..i], ',') && Lacks(text[i + 1..], ',')
      ensures Split(text, ',') == [text[..i], text[i + 1..]]
    {
      SplitAtComma(text[..i], text[i + 1..]);
      assert text[..i] + "," + text[i + 1..] == text;
    }
    if |parts| == 2 {
      var i := |parts[0]|;
      assert parts[1..] == [parts[1]];
      assert text == parts[0] + "," + parts[1];
      assert text[..i] == parts[0] && text[i + 1..] == parts[1] && text[i] == ',';
    }
  }

  lemma KeysExactly(kind: nat, text: string, onRelease: bool, action: Action)
    ensures KeyAction(kind, text, onRelease) == Some(action) <==> MeansKeys(kind, text, onRelease, action)
  {
    hide Trim, Parts, FromString, ScreensFromText, Lacks, AreScreens;
    CommaExactly(text);
    var parts := Split(text, ',');
    if |parts| == 2 {
      ScreensExactly(parts[1], action.screens);
    }
  }

  lemma ButtonExactly(kind: nat, text: string, onRelease: bool, action: Action)
    ensures MouseAction(kind, text, onRelease) == Some(action) <==> MeansButton(kind, text, onRelease, action)
  {
    hide FromString;
  }

  lemma DirectionExactly(text: string, onRelease: bool, action: Action)
    ensures OtherAction(SWITCH_IN_DIRECTION, ParsedCall("", Some(text)), onRelease) == Some(action)
            <==> MeansDirection(text, onRelease, action)
  {
    var names := DIRECTION_NAMES;
    assert IndexOfName(names[3..], text) == (if text == "down" then 0 else 1);
    assert names[2..][1..] == names[3..] && names[1..][1..] == names[2..];
    assert IndexOfName(names[2..], text) == (if text == "up" then 0 else 1 + IndexOfName(names[3..], text));
    assert IndexOfName(names[1..], text) == (if text == "right" then 0 else 1 + IndexOfName(names[2..], text));
  }

  lemma LockExactly(text: string, onRelease: bool, action: Action)
    ensures OtherAction(LOCK_CURSOR, ParsedCall("", Some(text)), onRelease) == Some(action)
            <==> MeansLock(text, onRelease, action)
  {
    var names := MODE_NAMES;
    assert IndexOfName(names[2..], text) == (if text == "off" then 0 else 1);
    assert names[1..][1..] == names[2..];
    assert IndexOfName(names[1..], text) == (if text == "on" then 0 else 1 + IndexOfName(names[2..], text));
  }

  /** The number of a name of an action, where it has one. */
  lemma TypeIndexExactly(name: string)
    ensures IndexOfName(TYPE_NAMES, name) == (match name
                                              case "keyDown" => 0
                                              case "keyUp" => 1
                                              case "keystroke" => 2
                                              case "switchToScreen" => 3
                                              case "toggleScreen" => 4
                                              case "switchInDirection" => 5
                                              case "lockCursorToScreen" => 6
                                              case "mouseDown" => 7
                                              case "mouseUp" => 8
                                              case "mousebutton" => 9
                                              case _ => 10)
  {
    hide IndexOfName, IsWord;
    forall k: nat | k < |TYPE_NAMES|
      ensures IndexOfName(TYPE_NAMES, TYPE_NAMES[k]) == k
    {
      TypeNamesAreFound(k);
    }
    assert TYPE_NAMES[0] == "keyDown" && TYPE_NAMES[1] == "keyUp" && TYPE_NAMES[2] == "keystroke";
    assert TYPE_NAMES[3] == "switchToScreen" && TYPE_NAMES[4] == "toggleScreen";
    assert TYPE_NAMES[5] == "switchInDirection" && TYPE_NAMES[6] == "lockCursorToScreen";
    assert TYPE_NAMES[7] == "mouseDown" && TYPE_NAMES[8] == "mouseUp" && TYPE_NAMES[9] == "mousebutton";
  }

  lemma CallExactly(call: ParsedCall, onRelease: bool, action: Action)
    ensures FromCall(call, onRelease) == Some(action) <==> Means(call.name, call.arguments, onRelease, action)
  {
    hide IndexOfName, KeyAction, MouseAction, MeansKeys, MeansButton, MeansDirection, MeansLock;
    var text := if call.arguments.Some? then call.arguments.value else "";
    TypeIndexExactly(call.name);
    forall kind: nat
      ensures KeyAction(kind, text, onRelease) == Some(action) <==> MeansKeys(kind, text, onRelease, action)
      ensures MouseAction(kind, text, onRelease) == Some(action) <==> MeansButton(kind, text, onRelease, action)
    {
      KeysExactly(kind, text, onRelease, action);
      ButtonExactly(kind, text, onRelease, action);
    }
    DirectionExactly(text, onRelease, action);
    LockExactly(text, onRelease, action);
  }

  lemma FirstOfExactly(text: string, c: char, i: nat)
    ensures i < |text| && text[i] == c && Lacks(text[..i], c) <==> i < |text| && FirstOf(text, c) == i
    ensures FirstOf(text, c) == |text| <==> Lacks(text, c)
  {
    if i < |text| && text[i] == c && Lacks(text[..i], c) {
      FirstOfAfter(text[..i], c, text[i + 1..]);
      assert text[..i] + [c] + text[i + 1..] == text;
    }
    if Lacks(text, c) {
      FirstOfNone(text, c);
    }
    assert text[..|text|] == text;
  }

  /** A text is read as an action exactly if it is a call that has that meaning. */
  lemma ReadExactly(text: string, onRelease: bool, action: Action)
    ensures FromText(text, onRelease) == Some(action) <==> IsReadAs(text, onRelease, action)
  {
    hide Trim, FirstOf, Lacks, FromCall, Means;
    var name := Trim(text);
    var open := FirstOf(name, '(');
    FirstOfExactly(name, '(', open);
    if open == |name| {
      CallExactly(ParsedCall(name, None), onRelease, action);
      forall i: nat | i < |name|
        ensures !(name[i] == '(' && Lacks(name[..i], '('))
      {
        FirstOfExactly(name, '(', i);
      }
    } else {
      if name[|name| - 1] == ')' {
        CallExactly(ParsedCall(Trim(name[..open]), Some(Trim(name[open + 1..|name| - 1]))), onRelease, action);
      }
      forall i: nat | i < |name| && name[i] == '(' && Lacks(name[..i], '(')
        ensures i == open
      {
        FirstOfExactly(name, '(', i);
      }
    }
  }

  /** A key action may leave out its screens; it is then read as with "*". */
  lemma KeyWithoutScreens(sequence: KeySequence, onRelease: bool, lower: LowerCase)
    requires IsReadable(sequence, false, lower)
    ensures var keys := ToString(sequence.keys, lower);
            var action := DEFAULT.(kind := 2, sequence := sequence, onRelease := onRelease);
            && FromText("keystroke(" + keys + ")", onRelease) == Some(action)
            && FromText("keystroke(" + keys + ",*)", onRelease) == Some(action)
  {
    hide IsReadable, ToString, Trim, FromString, ParseCall, FromCall, IsTrimmed, Lacks;
    var keys := ToString(sequence.keys, lower);
    var action := DEFAULT.(kind := 2, sequence := sequence, onRelease := onRelease);
    ReadableSequenceText(sequence, false, lower);
    KeystrokeRead(keys, onRelease);
    StarIsTrimmed(keys);
    KeystrokeRead(keys + ",*", onRelease);
    assert "keystroke(" + (keys + ",*") + ")" == "keystroke(" + keys + ",*)";
    TrimTrimmed(keys);
    KeysExactly(2, keys, onRelease, action);
    var text, i := keys + ",*", |keys|;
    assert text[..i] == keys && text[i + 1..] == "*" && text[i] == ',';
    StarLacksComma();
    TrimTrimmed("*");
    KeysExactly(2, text, onRelease, action);
  }

  /** A key action without screens is nevertheless printed with "*". */
  lemma AllScreensArePrinted(action: Action, lower: LowerCase)
    requires IsPrintable(action) && action.kind == 2 && !action.sequence.IsMouseButton()
    requires !action.haveScreens || action.screens == []
    ensures Text(action, lower) == "keystroke(" + ToString(action.sequence.keys, lower) + ",*)"
  {
    hide ToString;
    var keys := ToString(action.sequence.keys, lower);
    assert "keystroke" + "(" + (keys + "," + "*") + ")" == "keystroke(" + keys + ",*)";
  }

  lemma StarLacksComma()
    ensures Lacks("*", ',') && IsTrimmed("*")
  {
  }

  lemma StarIsTrimmed(keys: string)
    requires IsTrimmed(keys)
    ensures IsTrimmed(keys + ",*")
  {
    StarLacksComma();
    JoinedWithComma(keys, "*");
    assert keys + "," + "*" == keys + ",*";
  }

  lemma KeystrokeRead(arguments: string, onRelease: bool)
    requires IsTrimmed(arguments)
    ensures FromText("keystroke(" + arguments + ")", onRelease) == KeyAction(2, arguments, onRelease)
  {
    hide Trim, KeyAction, IsTrimmed, ParseCall, IndexOfName;
    TypeNamesAreFound(2);
    var text := "keystroke(" + arguments + ")";
    CallRoundTrip("keystroke", Some(arguments), "", "");
    assert "" + Call("keystroke", Some(arguments)) + "" == text;
  }

  // ---------------------------------------------------------------------------
  // The operations
  // ---------------------------------------------------------------------------

  method PrintAction(action: Action, lower: LowerCase) returns (text: string)
    requires IsPrintable(action)
    ensures text == Text(action, lower)
  {
    hide ToString, KeyToString;
    text := TYPE_NAMES[TypeIndex(action)];
    if action.kind <= KEYSTROKE {
      var arguments := ToString(action.sequence.keys, lower);
      if !action.sequence.IsMouseButton() {
        if action.haveScreens && action.screens != [] {
          var list := "";
          for i := 0 to |action.screens|
            invariant list + Rest(action.screens, i) == Join(action.screens, ":")
          {
            RestNext(action.screens, i);
            list := list + action.screens[i];
            if i != |action.screens| - 1 {
              list := list + ":";
            }
          }
          arguments := arguments + "," + list;
        } else {
          arguments := arguments + ",*";
        }
      }
      text := text + "(" + arguments + ")";
    } else if action.kind == SWITCH_TO_SCREEN {
      text := text + "(" + action.switchScreen + ")";
    } else if action.kind == SWITCH_IN_DIRECTION {
      text := text + "(" + DIRECTION_NAMES[action.direction] + ")";
    } else if action.kind == LOCK_CURSOR {
      text := text + "(" + MODE_NAMES[action.mode] + ")";
    }
  }

  /** What is printed of the screens from an index on. */
  function Rest(screens: seq<string>, i: nat): string
    requires i <= |screens|
  {
    if i == |screens| then "" else Join(screens[i..], ":")
  }

  lemma RestNext(screens: seq<string>, i: nat)
    requires i < |screens|
    ensures Rest(screens, i) == screens[i] + (if i + 1 < |screens| then ":" else "") + Rest(screens, i + 1)
  {
    assert screens[i..][0] == screens[i] && screens[i..][1..] == screens[i + 1..];
  }

  method ReadScreens(text: string) returns (screens: Option<seq<string>>)
    ensures screens == ScreensFromText(Split(text, ':'))
  {
    hide Trim, Parts;
    var parts := Split(text, ':');
    var names := [];
    assert parts[0..] == parts;
    NothingPrepended(ScreensFromText(parts));
    for i := 0 to |parts|
      invariant ScreensFromText(parts) == Prepended(names, ScreensFromText(parts[i..]))
    {
      assert parts[i..][0] == parts[i] && parts[i..][1..] == parts[i + 1..];
      if Trim(parts[i]) == "" {
        return None;
      }
      PrependedTwice(names, Trim(parts[i]), ScreensFromText(parts[i + 1..]));
      names := names + [Trim(parts[i])];
    }
    assert names + [] == names;
    screens := Some(names);
  }

  method FindName(names: seq<string>, name: string) returns (index: int)
    ensures index == -1 <==> IndexOfName(names, name) == |names|
    ensures index != -1 ==> index == IndexOfName(names, name)
  {
    for i := 0 to |names|
      invariant IndexOfName(names, name) == i + IndexOfName(names[i..], name)
    {
      assert names[i..][0] == names[i] && names[i..][1..] == names[i + 1..];
      if names[i] == name {
        return i;
      }
    }
    return -1;
  }
}
