/**
  Hotkeys as text: a condition, "=", and actions. Those after ";" happen on release; the printer
  writes a ";" before each of them, the parser reads one as the beginning of a second phase.
*/
module Hotkeys {
  import opened Options
  import opened Texts
  import opened KeySequences
  import opened Actions

  datatype Hotkey = Hotkey(sequence: KeySequence, actions: seq<Action>)

  const KEYSTROKE_PREFIX := "keystroke("
  const MOUSE_PREFIX := "mousebutton("

  // ---------------------------------------------------------------------------
  // Printing
  // ---------------------------------------------------------------------------

  function Condition(sequence: KeySequence, lower: LowerCase): string {
    (if sequence.IsMouseButton() then MOUSE_PREFIX else KEYSTROKE_PREFIX) + ToString(sequence.keys, lower) + ")"
  }

  predicate ArePrintable(actions: seq<Action>) {
    forall i :: 0 <= i < |actions| ==> IsPrintable(actions[i])
  }

  function PhasedText(action: Action, lower: LowerCase): string
    requires IsPrintable(action)
  {
    if action.onRelease then ";" + Text(action, lower) else Text(action, lower)
  }

  function ActionsText(actions: seq<Action>, lower: LowerCase): string
    requires ArePrintable(actions)
  {
    if actions == [] then ""
    else if |actions| == 1 then PhasedText(actions[0], lower)
    else PhasedText(actions[0], lower) + ", " + ActionsText(actions[1..], lower)
  }

  function HotkeyText(hotkey: Hotkey, lower: LowerCase): string
    requires ArePrintable(hotkey.actions)
  {
    if hotkey.actions == [] then ""
    else "\t" + Condition(hotkey.sequence, lower) + " = " + ActionsText(hotkey.actions, lower) + "\n"
  }

  // ---------------------------------------------------------------------------
  // Parsing
  // ---------------------------------------------------------------------------

  function ConditionFromText(condition: string): Option<KeySequence> {
    if condition == "" || condition[|condition| - 1] != ')' then None
    else if KEYSTROKE_PREFIX <= condition then
      FromString(Trim(condition[|KEYSTROKE_PREFIX|..|condition| - 1]), false)
    else if MOUSE_PREFIX <= condition then
      FromString(Trim(condition[|MOUSE_PREFIX|..|condition| - 1]), true)
    else None
  }

  function ActionsFromTexts(texts: seq<string>, onRelease: bool): Option<seq<Action>> {
    if texts == [] then Some([])
    else
      match Actions.FromText(texts[0], onRelease)
      case None => None
      case Some(action) =>
        match ActionsFromTexts(texts[1..], onRelease)
        case None => None
        case Some(actions) => Some([action] + actions)
  }

  function PhaseFromText(phase: string, onRelease: bool): Option<seq<Action>> {
    if Trim(phase) == "" then Some([]) else ActionsFromTexts(SplitTopLevel(phase, ','), onRelease)
  }

  function PhasesFromText(phases: seq<string>): Option<seq<Action>>
    requires phases != []
  {
    if |phases| > 2 then None
    else
      match PhaseFromText(phases[0], false)
      case None => None
      case Some(pressed) =>
        match if |phases| == 2 then PhaseFromText(phases[1], true) else Some([])
        case None => None
        case Some(released) => Some(pressed + released)
  }

  function HotkeyFromText(text: string): Option<Hotkey> {
    var equals := FirstOf(text, '=');
    if equals == |text| then None
    else
      match ConditionFromText(Trim(text[..equals]))
      case None => None
      case Some(sequence) =>
        match PhasesFromText(SplitTopLevel(text[equals + 1..], ';'))
        case None => None
        case Some(actions) => if actions == [] then None else Some(Hotkey(sequence, actions))
  }

  // ---------------------------------------------------------------------------
  // The condition
  // ---------------------------------------------------------------------------

  /** A trigger that can be read back, and whose text has no "=". */
  predicate IsPlainCondition(sequence: KeySequence, lower: LowerCase) {
    IsReadable(sequence, sequence.IsMouseButton(), lower) && sequence.keys[|sequence.keys| - 1] != '=' as int
  }

  lemma ConditionRoundTrip(sequence: KeySequence, lower: LowerCase)
    requires IsReadable(sequence, sequence.IsMouseButton(), lower)
    ensures ConditionFromText(Condition(sequence, lower)) == Some(sequence)
  {
    hide IsBuilt, IsReadableKey, FromString, ToString, Trim, IsTrimmed;
    var mouseButton, keys := sequence.IsMouseButton(), ToString(sequence.keys, lower);
    var condition, prefix := Condition(sequence, lower), if mouseButton then MOUSE_PREFIX else KEYSTROKE_PREFIX;
    SequenceRoundTrip(sequence, mouseButton, lower);
    ToStringIsTrimmed(sequence, mouseButton, lower);
    TrimTrimmed(keys);
    assert condition[..|prefix|] == prefix && condition[|prefix|..|condition| - 1] == keys;
    assert condition[0] == prefix[0];
  }

  lemma ConditionIsFound(sequence: KeySequence, lower: LowerCase, rest: string)
    requires IsPlainCondition(sequence, lower)
    ensures var text := Condition(sequence, lower) + " = " + rest;
            var equals := FirstOf(text, '=');
            && equals < |text| && Trim(text[..equals]) == Condition(sequence, lower) && text[equals + 1..] == " " + rest
    ensures var text := "\t" + Condition(sequence, lower) + " = " + rest;
            var equals := FirstOf(text, '=');
            && equals < |text| && Trim(text[..equals]) == Condition(sequence, lower) && text[equals + 1..] == " " + rest
  {
    hide IsPlainCondition, Trim, FirstOf;
    ConditionIsFoundAfter("", sequence, lower, rest);
    ConditionIsFoundAfter("\t", sequence, lower, rest);
    var text := Condition(sequence, lower) + " = " + rest;
    assert "" + Condition(sequence, lower) + " = " + rest == text;
  }

  lemma ConditionIsFoundAfter(before: string, sequence: KeySequence, lower: LowerCase, rest: string)
    requires IsPlainCondition(sequence, lower) && AllSpaces(before)
    ensures var text := before + Condition(sequence, lower) + " = " + rest;
            var equals := FirstOf(text, '=');
            && equals < |text| && Trim(text[..equals]) == Condition(sequence, lower) && text[equals + 1..] == " " + rest
  {
    hide IsBuilt, IsReadableKey, ToString, Trim, FirstOf;
    var condition := Condition(sequence, lower);
    var left := before + condition + " ";
    var text := before + condition + " = " + rest;
    ToStringLacks(sequence, sequence.IsMouseButton(), lower, '=');
    assert Lacks(left, '=');
    assert text == left + ['='] + (" " + rest);
    FirstOfAfter(left, '=', " " + rest);
    assert text[..|left|] == left && text[|left| + 1..] == " " + rest;
    TrimOf(before, condition, " ");
  }

  // ---------------------------------------------------------------------------
  // Actions of one phase
  // ---------------------------------------------------------------------------

  /** The actions are whole, and all but the last close their parentheses. */
  predicate ArePlain(actions: seq<Action>, lower: LowerCase) {
    forall i :: 0 <= i < |actions| ==>
      IsWholeAction(actions[i], lower) && (i + 1 < |actions| ==> IsPlainAction(actions[i], lower))
  }

  predicate AllInPhase(actions: seq<Action>, onRelease: bool) {
    forall i :: 0 <= i < |actions| ==> actions[i].onRelease == onRelease
  }

  function AllCleared(actions: seq<Action>): (cleared: seq<Action>)
    ensures |cleared| == |actions|
    ensures forall i :: 0 <= i < |actions| ==> cleared[i] == Cleared(actions[i])
  {
    if actions == [] then [] else [Cleared(actions[0])] + AllCleared(actions[1..])
  }

  /** The printed actions of the first phase, as they lie between commas. */
  function Padded(actions: seq<Action>, lower: LowerCase, before: string, after: string): (texts: seq<string>)
    requires ArePrintable(actions) && actions != []
    ensures |texts| == |actions|
  {
    if |actions| == 1 then [before + Text(actions[0], lower) + after]
    else [before + Text(actions[0], lower)] + Padded(actions[1..], lower, " ", after)
  }

  lemma PlainArePrintable(actions: seq<Action>, lower: LowerCase)
    requires ArePlain(actions, lower)
    ensures ArePrintable(actions)
  {
    forall i | 0 <= i < |actions|
      ensures IsPrintable(actions[i])
    {
      WholeIsReadable(actions[i], lower);
    }
  }

  /** The texts of actions of one phase. */
  function Listed(actions: seq<Action>, lower: LowerCase): string
    requires ArePrintable(actions)
  {
    if actions == [] then ""
    else if |actions| == 1 then Text(actions[0], lower)
    else Text(actions[0], lower) + ", " + Listed(actions[1..], lower)
  }

  lemma {:induction false} JoinOfPadded(actions: seq<Action>, lower: LowerCase, before: string, after: string)
    requires ArePrintable(actions) && actions != []
    ensures Join(Padded(actions, lower, before, after), ",") == before + Listed(actions, lower) + after
  {
    hide Text;
    if |actions| > 1 {
      var more := actions[1..];
      JoinOfPadded(more, lower, " ", after);
      var first := before + Text(actions[0], lower);
      assert Padded(actions, lower, before, after)[1..] == Padded(more, lower, " ", after);
      assert first + "," + (" " + Listed(more, lower) + after)
          == before + (Text(actions[0], lower) + ", " + Listed(more, lower)) + after;
    }
  }

  lemma {:induction false} PressedAreListed(actions: seq<Action>, lower: LowerCase)
    requires ArePrintable(actions) && AllInPhase(actions, false)
    ensures ActionsText(actions, lower) == Listed(actions, lower)
  {
    hide Text;
    if |actions| > 1 {
      PressedAreListed(actions[1..], lower);
    }
  }

  lemma WholePadding(text: string, separator: char, before: string, after: string)
    requires IsWhole(text, separator, true, 0)
    requires LacksParentheses(before) && LacksParentheses(after) && Lacks(before, separator) && Lacks(after, separator)
    ensures IsWhole(before + text + after, separator, true, 0)
    ensures DepthAfter(before + text + after, true, 0) == DepthAfter(text, true, 0)
  {
    hide IsWhole, DepthAfter, LacksParentheses, Lacks;
    var depth := DepthAfter(text, true, 0);
    WholeWithout(before, separator, true, 0);
    DepthWithout(before, true, 0);
    WholeWithout(after, separator, true, depth);
    DepthWithout(after, true, depth);
    WholeOfBoth(before, text, separator, true, 0);
    DepthOfBoth(before, text, true, 0);
    WholeOfBoth(before + text, after, separator, true, 0);
    DepthOfBoth(before + text, after, true, 0);
  }

  /** White space that may stand around an action. */
  predicate IsPadding(text: string) {
    text == "" || text == " " || text == "\n"
  }

  lemma PaddingIsPlain(text: string)
    requires IsPadding(text)
    ensures AllSpaces(text) && LacksParentheses(text) && Lacks(text, ',') && Lacks(text, ';')
  {
  }

  lemma PaddedActionIsWhole(action: Action, lower: LowerCase, separator: char, before: string, after: string)
    requires IsWholeAction(action, lower) && (separator == ',' || separator == ';')
    requires IsPadding(before) && IsPadding(after)
    ensures IsPrintable(action) && IsWhole(before + Text(action, lower) + after, separator, true, 0)
    ensures IsPlainAction(action, lower) ==> DepthAfter(before + Text(action, lower) + after, true, 0) == 0
  {
    hide IsWholeAction, IsPlainAction, Text, IsWhole, DepthAfter, LacksParentheses, Lacks;
    TextIsWhole(action, lower, separator);
    PaddingIsPlain(before);
    PaddingIsPlain(after);
    WholePadding(Text(action, lower), separator, before, after);
  }

  lemma {:induction false} PaddedAreWhole(actions: seq<Action>, lower: LowerCase, separator: char, before: string,
                                          after: string)
    requires ArePlain(actions, lower) && actions != [] && IsPadding(before) && IsPadding(after)
    requires separator == ',' || separator == ';'
    ensures ArePrintable(actions) && AreWhole(Padded(actions, lower, before, after), separator, true)
  {
    hide IsWholeAction, IsPlainAction, Text, IsWhole, DepthAfter;
    PlainArePrintable(actions, lower);
    PaddedActionIsWhole(actions[0], lower, separator, before, after);
    if |actions| > 1 {
      PaddedActionIsWhole(actions[0], lower, separator, before, "");
      assert before + Text(actions[0], lower) + "" == before + Text(actions[0], lower);
      PaddedAreWhole(actions[1..], lower, separator, " ", after);
    }
  }

  lemma {:induction false} JoinIsWhole(texts: seq<string>, separator: char)
    requires AreWhole(texts, separator, true) && separator == ';' && texts != []
    ensures IsWhole(Join(texts, ","), separator, true, 0)
  {
    hide IsWhole, DepthAfter;
    if |texts| > 1 {
      var first, rest := texts[0], Join(texts[1..], ",");
      JoinIsWhole(texts[1..], separator);
      CommaIsWhole();
      WholeOfBoth(first, ",", separator, true, 0);
      DepthOfBoth(first, ",", true, 0);
      WholeOfBoth(first + ",", rest, separator, true, 0);
    }
  }

  lemma CommaIsWhole()
    ensures IsWhole(",", ';', true, 0) && DepthAfter(",", true, 0) == 0
  {
    assert ","[1..] == "";
  }

  lemma {:induction false} PaddedAreRead(actions: seq<Action>, lower: LowerCase, before: string, after: string,
                                         onRelease: bool)
    requires ArePlain(actions, lower) && actions != [] && AllInPhase(actions, onRelease) && IsPadding(before)
    requires IsPadding(after)
    ensures ArePrintable(actions)
    ensures ActionsFromTexts(Padded(actions, lower, before, after), onRelease) == Some(AllCleared(actions))
  {
    hide IsWholeAction, IsPlainAction, Text, Actions.FromText, Cleared, AllSpaces;
    PlainArePrintable(actions, lower);
    PaddingIsPlain(before);
    PaddingIsPlain(after);
    PaddingIsPlain("");
    WholeIsReadable(actions[0], lower);
    if |actions| == 1 {
      ActionRoundTrip(actions[0], lower, before, after);
      assert Padded(actions, lower, before, after)[1..] == [];
    } else {
      ActionRoundTrip(actions[0], lower, before, "");
      assert before + Text(actions[0], lower) + "" == before + Text(actions[0], lower);
      PaddedAreRead(actions[1..], lower, " ", after, onRelease);
      assert Padded(actions, lower, before, after)[1..] == Padded(actions[1..], lower, " ", after);
    }
  }

  /** The actions of one phase are read back from their text. */
  lemma PhaseRoundTrip(actions: seq<Action>, lower: LowerCase, before: string, after: string, onRelease: bool)
    requires ArePlain(actions, lower) && actions != [] && AllInPhase(actions, onRelease) && IsPadding(before)
    requires IsPadding(after)
    ensures ArePrintable(actions)
    ensures PhaseFromText(Join(Padded(actions, lower, before, after), ","), onRelease) == Some(AllCleared(actions))
  {
    hide IsWholeAction, IsPlainAction, Text, Trim, ActionsFromTexts, Padded, IsWhole, DepthAfter, Parts, Join;
    PlainArePrintable(actions, lower);
    var texts := Padded(actions, lower, before, after);
    PaddedAreWhole(actions, lower, ',', before, after);
    PartsOfJoin(texts, ',', true);
    PaddedAreRead(actions, lower, before, after, onRelease);
    JoinIsNotBlank(actions, lower, before, after);
  }

  lemma TextStartsWithWord(action: Action, lower: LowerCase)
    requires IsPrintable(action)
    ensures Text(action, lower) != "" && !IsSpace(Text(action, lower)[0])
  {
    hide Arguments;
    TypeNamesAreWords(TypeIndex(action));
  }

  lemma JoinIsNotBlank(actions: seq<Action>, lower: LowerCase, before: string, after: string)
    requires actions != [] && ArePrintable(actions)
    ensures Trim(Join(Padded(actions, lower, before, after), ",")) != ""
  {
    hide Trim, Text;
    var text := Join(Padded(actions, lower, before, after), ",");
    TextStartsWithWord(actions[0], lower);
    assert text[|before|] == Text(actions[0], lower)[0];
    TrimIsBlank(text);
  }

  // ---------------------------------------------------------------------------
  // Whole hotkeys
  // ---------------------------------------------------------------------------

  predicate IsPlainHotkey(hotkey: Hotkey, lower: LowerCase) {
    IsPlainCondition(hotkey.sequence, lower) && hotkey.actions != [] && ArePlain(hotkey.actions, lower)
  }

  lemma PressedAreRead(actions: seq<Action>, lower: LowerCase)
    requires ArePlain(actions, lower) && actions != [] && AllInPhase(actions, false)
    ensures ArePrintable(actions)
    ensures PhasesFromText(SplitTopLevel(" " + ActionsText(actions, lower) + "\n", ';')) == Some(AllCleared(actions))
  {
    hide IsWholeAction, IsPlainAction, ActionsText, Listed, Padded, PhaseFromText, IsWhole, DepthAfter, Parts, Join;
    PlainArePrintable(actions, lower);
    var texts := Padded(actions, lower, " ", "\n");
    PaddedAreWhole(actions, lower, ';', " ", "\n");
    JoinIsWhole(texts, ';');
    WholeText(Join(texts, ","), ';', true, 0);
    JoinOfPadded(actions, lower, " ", "\n");
    PressedAreListed(actions, lower);
    PhaseRoundTrip(actions, lower, " ", "\n", false);
    assert AllCleared(actions) + [] == AllCleared(actions);
  }

  lemma ReleasedIsRead(action: Action, lower: LowerCase)
    requires IsWholeAction(action, lower) && action.onRelease
    ensures IsPrintable(action)
    ensures PhasesFromText(SplitTopLevel(" " + ActionsText([action], lower) + "\n", ';')) == Some(AllCleared([action]))
  {
    hide IsWholeAction, IsPlainAction, PhaseFromText, IsWhole, DepthAfter, Parts, Text;
    WholeIsReadable(action, lower);
    var rest := Text(action, lower) + "\n";
    BlankIsWhole();
    FirstPart(" ", ';', true, 0, rest);
    assert " " + ActionsText([action], lower) + "\n" == " " + [';'] + rest;
    PaddedActionIsWhole(action, lower, ';', "", "\n");
    assert "" + Text(action, lower) + "\n" == rest;
    WholeText(rest, ';', true, 0);
    BlankPhase();
    PhaseRoundTrip([action], lower, "", "\n", true);
    assert Join(Padded([action], lower, "", "\n"), ",") == rest;
    assert [] + AllCleared([action]) == AllCleared([action]);
  }

  lemma BlankIsWhole()
    ensures IsWhole(" ", ';', true, 0) && DepthAfter(" ", true, 0) == 0
  {
    assert " "[1..] == "";
  }

  lemma BlankPhase()
    ensures PhaseFromText(" ", false) == Some([])
  {
    TrimIsBlank(" ");
  }

  /** What is printed before an action, and what follows the ";" of one on release. */
  function TextBefore(actions: seq<Action>, lower: LowerCase, i: nat): string
    requires ArePrintable(actions) && i < |actions|
  {
    if i == 0 then "" else PhasedText(actions[0], lower) + ", " + TextBefore(actions[1..], lower, i - 1)
  }

  function TextAfter(actions: seq<Action>, lower: LowerCase, i: nat): string
    requires ArePrintable(actions) && i < |actions|
  {
    Text(actions[i], lower) + if i + 1 < |actions| then ", " + ActionsText(actions[i + 1..], lower) else ""
  }

  lemma {:induction false} TextAroundRelease(actions: seq<Action>, lower: LowerCase, i: nat)
    requires ArePrintable(actions) && i < |actions| && actions[i].onRelease
    ensures ActionsText(actions, lower) == TextBefore(actions, lower, i) + ";" + TextAfter(actions, lower, i)
  {
    hide Text;
    if i > 0 {
      TextAroundRelease(actions[1..], lower, i - 1);
      assert actions[1..][i..] == actions[i + 1..];
      assert PhasedText(actions[0], lower) + ", "
          + (TextBefore(actions[1..], lower, i - 1) + ";" + TextAfter(actions[1..], lower, i - 1))
          == TextBefore(actions, lower, i) + ";" + TextAfter(actions, lower, i);
    }
  }

  lemma DepthOfPhased(action: Action, lower: LowerCase)
    requires IsPlainAction(action, lower)
    ensures IsPrintable(action)
    ensures DepthAfter(PhasedText(action, lower) + ", ", true, 0) == 0
  {
    hide IsWholeAction, Text, DepthAfter, IsWhole;
    TextIsWhole(action, lower, ';');
    DepthWithout(";", true, 0);
    DepthWithout(", ", true, 0);
    DepthOfBoth(";", Text(action, lower), true, 0);
    DepthOfBoth(PhasedText(action, lower), ", ", true, 0);
  }

  predicate PlainUpTo(actions: seq<Action>, lower: LowerCase, i: nat) {
    forall k :: 0 <= k < i && k < |actions| ==> IsPlainAction(actions[k], lower)
  }

  lemma {:induction false} DepthBefore(actions: seq<Action>, lower: LowerCase, i: nat)
    requires PlainUpTo(actions, lower, i) && i < |actions| && ArePrintable(actions)
    ensures DepthAfter(TextBefore(actions, lower, i), true, 0) == 0
  {
    hide IsWholeAction, IsPlainAction, PhasedText, DepthAfter;
    if i == 0 {
      DepthWithout("", true, 0);
    } else {
      DepthOfPhased(actions[0], lower);
      DepthBefore(actions[1..], lower, i - 1);
      DepthOfBoth(PhasedText(actions[0], lower) + ", ", TextBefore(actions[1..], lower, i - 1), true, 0);
    }
  }

  /** An action on release always begins another phase. */
  lemma SplitAtRelease(actions: seq<Action>, lower: LowerCase, i: nat, after: string)
    requires PlainUpTo(actions, lower, i) && i < |actions| && ArePrintable(actions) && actions[i].onRelease
    ensures SplitTopLevel(" " + ActionsText(actions, lower) + after, ';')
            == SplitTopLevel(" " + TextBefore(actions, lower, i), ';')
               + SplitTopLevel(TextAfter(actions, lower, i) + after, ';')
  {
    hide PlainUpTo, TextBefore, TextAfter, ActionsText, DepthAfter, Parts;
    var before, rest := TextBefore(actions, lower, i), TextAfter(actions, lower, i) + after;
    TextAroundRelease(actions, lower, i);
    DepthBefore(actions, lower, i);
    DepthWithout(" ", true, 0);
    DepthOfBoth(" ", before, true, 0);
    SplitInTwo(" " + before, ';', true, 0, rest);
    assert " " + ActionsText(actions, lower) + after == " " + before + [';'] + rest;
  }

  predicate EndsInComma(text: string) {
    |text| >= 2 && text[|text| - 2..] == ", "
  }

  lemma EndsInCommaToo(front: string, text: string)
    requires EndsInComma(text)
    ensures EndsInComma(front + text)
  {
    var both := front + text;
    assert both[|both| - 2..] == text[|text| - 2..];
  }

  lemma {:induction false} BeforeIsSeparated(actions: seq<Action>, lower: LowerCase, i: nat)
    requires 0 < i < |actions| && ArePrintable(actions)
    ensures EndsInComma(TextBefore(actions, lower, i))
  {
    hide PhasedText, EndsInComma;
    var first := PhasedText(actions[0], lower);
    if i == 1 {
      assert TextBefore(actions[1..], lower, 0) == "";
      assert TextBefore(actions, lower, 1) == first + ", ";
      assert EndsInComma(", ") by { CommaEndsInComma(); }
      EndsInCommaToo(first, ", ");
    } else {
      BeforeIsSeparated(actions[1..], lower, i - 1);
      EndsInCommaToo(first + ", ", TextBefore(actions[1..], lower, i - 1));
    }
  }

  lemma CommaEndsInComma()
    ensures EndsInComma(", ")
  {
  }

  lemma BeforeEndsInComma(actions: seq<Action>, lower: LowerCase, i: nat)
    requires PlainUpTo(actions, lower, i) && 0 < i < |actions| && ArePrintable(actions)
    ensures var before := TextBefore(actions, lower, i);
            && |before| >= 2 && before[|before| - 2..] == ", "
            && DepthAfter(before[..|before| - 2], true, 0) == 0
  {
    hide PlainUpTo, TextBefore, DepthAfter;
    var before := TextBefore(actions, lower, i);
    BeforeIsSeparated(actions, lower, i);
    var front := before[..|before| - 2];
    DepthBefore(actions, lower, i);
    assert before == front + ", ";
    DepthOfBoth(front, ", ", true, 0);
    DepthWithout(", ", true, DepthAfter(front, true, 0));
  }

  lemma {:induction false} BlankActionFails(texts: seq<string>, onRelease: bool)
    requires texts != [] && AllSpaces(texts[|texts| - 1])
    ensures ActionsFromTexts(texts, onRelease) == None
  {
    hide Actions.FromText, AllSpaces;
    if |texts| == 1 {
      SpacesAreNoAction(texts[0], onRelease);
    } else {
      BlankActionFails(texts[1..], onRelease);
    }
  }

  /** Actions before one on release end in a comma with no action after it. */
  lemma PhaseBeforeReleaseFails(actions: seq<Action>, lower: LowerCase, i: nat)
    requires PlainUpTo(actions, lower, i) && 0 < i < |actions| && ArePrintable(actions)
    ensures PhaseFromText(" " + TextBefore(actions, lower, i), false) == None
  {
    hide PlainUpTo, ActionsFromTexts, TextBefore, Trim, DepthAfter, Parts;
    var before := TextBefore(actions, lower, i);
    var phase := " " + before;
    BeforeEndsInComma(actions, lower, i);
    var text := " " + before[..|before| - 2];
    DepthWithout(" ", true, 0);
    DepthOfBoth(" ", before[..|before| - 2], true, 0);
    assert before == before[..|before| - 2] + ", ";
    assert phase == text + [','] + " ";
    SplitInTwo(text, ',', true, 0, " ");
    WholeWithout(" ", ',', true, 0);
    WholeText(" ", ',', true, 0);
    BlankActionFails(SplitTopLevel(phase, ','), false);
    assert phase[|text|] == ',';
    TrimIsBlank(phase);
  }

  lemma JoinOfOne(text: string)
    ensures |SplitTopLevel(text, ';')| == 1 ==> SplitTopLevel(text, ';') == [text]
  {
    JoinOfParts(text, ';', true, 0);
  }

  lemma ReleaseAfterOthersFails(actions: seq<Action>, lower: LowerCase, i: nat)
    requires PlainUpTo(actions, lower, i) && 0 < i < |actions| && ArePrintable(actions) && actions[i].onRelease
    ensures PhasesFromText(SplitTopLevel(" " + ActionsText(actions, lower) + "\n", ';')) == None
  {
    hide PlainUpTo, ActionsText, TextBefore, TextAfter, PhaseFromText, Parts;
    SplitAtRelease(actions, lower, i, "\n");
    JoinOfOne(" " + TextBefore(actions, lower, i));
    PhaseBeforeReleaseFails(actions, lower, i);
  }

  predicate AreBuilt(actions: seq<Action>) {
    forall i :: 0 <= i < |actions| ==> IsBuiltAction(actions[i])
  }

  lemma {:induction false} PhaseIsKept(texts: seq<string>, onRelease: bool)
    requires ActionsFromTexts(texts, onRelease).Some?
    ensures AllInPhase(ActionsFromTexts(texts, onRelease).value, onRelease)
    ensures AreBuilt(ActionsFromTexts(texts, onRelease).value)
  {
    hide Actions.FromText, IsBuiltAction;
    if texts != [] {
      ParsedActionIsBuilt(texts[0], onRelease);
      PhaseIsKept(texts[1..], onRelease);
    }
  }

  lemma PhaseTextIsKept(phase: string, onRelease: bool)
    requires PhaseFromText(phase, onRelease).Some?
    ensures AllInPhase(PhaseFromText(phase, onRelease).value, onRelease)
    ensures AreBuilt(PhaseFromText(phase, onRelease).value)
  {
    hide ActionsFromTexts, Trim, Parts, IsBuiltAction;
    if Trim(phase) != "" {
      PhaseIsKept(SplitTopLevel(phase, ','), onRelease);
    }
  }

  /** After a first action on release, everything is read as on release. */
  lemma ReleaseFirstSpreads(actions: seq<Action>, lower: LowerCase)
    requires actions != [] && ArePrintable(actions) && actions[0].onRelease
    ensures var read := PhasesFromText(SplitTopLevel(" " + ActionsText(actions, lower) + "\n", ';'));
            read.Some? ==> AllInPhase(read.value, true)
  {
    hide ActionsText, TextAfter, PhaseFromText, Parts;
    SplitAtRelease(actions, lower, 0, "\n");
    var phases := SplitTopLevel(" " + ActionsText(actions, lower) + "\n", ';');
    BlankIsWhole();
    WholeText(" ", ';', true, 0);
    assert " " + TextBefore(actions, lower, 0) == " ";
    BlankPhase();
    if |phases| == 2 && PhaseFromText(phases[1], true).Some? {
      PhaseTextIsKept(phases[1], true);
    }
  }

  /** Actions for pressing come before those for releasing. */
  ghost predicate InPhases(actions: seq<Action>) {
    exists k: nat :: k <= |actions| && AllInPhase(actions[..k], false) && AllInPhase(actions[k..], true)
  }

  lemma ParsedPhasesAreBuilt(phases: seq<string>)
    requires phases != [] && PhasesFromText(phases).Some?
    ensures InPhases(PhasesFromText(phases).value) && AreBuilt(PhasesFromText(phases).value)
  {
    hide PhaseFromText, IsBuiltAction;
    var actions, pressed := PhasesFromText(phases).value, PhaseFromText(phases[0], false).value;
    PhaseTextIsKept(phases[0], false);
    if |phases| == 2 {
      PhaseTextIsKept(phases[1], true);
    }
    assert actions[..|pressed|] == pressed;
  }

  /** Whatever text is parsed, the hotkey has actions, in order of phase, and each could be made by parsing. */
  lemma ParsedHotkeyIsBuilt(text: string)
    requires HotkeyFromText(text).Some?
    ensures var hotkey := HotkeyFromText(text).value;
            && hotkey.actions != [] && InPhases(hotkey.actions) && AreBuilt(hotkey.actions)
            && IsBuilt(hotkey.sequence, hotkey.sequence.IsMouseButton())
  {
    hide PhasesFromText, ConditionFromText, Trim, FirstOf, Parts, InPhases, AreBuilt, IsBuilt;
    var equals := FirstOf(text, '=');
    ParsedPhasesAreBuilt(SplitTopLevel(text[equals + 1..], ';'));
    ParsedConditionIsBuilt(Trim(text[..equals]));
  }

  lemma ParsedConditionIsBuilt(condition: string)
    requires ConditionFromText(condition).Some?
    ensures var sequence := ConditionFromText(condition).value; IsBuilt(sequence, sequence.IsMouseButton())
  {
    hide FromString, IsBuilt, Trim;
    var keys := if KEYSTROKE_PREFIX <= condition then condition[|KEYSTROKE_PREFIX|..|condition| - 1]
                else condition[|MOUSE_PREFIX|..|condition| - 1];
    var mouseButton := !(KEYSTROKE_PREFIX <= condition);
    FromStringBuilds(Trim(keys), mouseButton);
    BuiltHasKeys(FromString(Trim(keys), mouseButton).value, mouseButton);
  }

  /** The printed actions are read back exactly if none is on release, or it is the only one. */
  lemma ActionsRoundTrip(actions: seq<Action>, lower: LowerCase)
    requires ArePlain(actions, lower) && actions != []
    ensures ArePrintable(actions)
    ensures PhasesFromText(SplitTopLevel(" " + ActionsText(actions, lower) + "\n", ';')) == Some(AllCleared(actions))
            <==> AllInPhase(actions, false) || |actions| == 1
  {
    hide ArePlain, ActionsText, PhasesFromText, Parts, ArePrintable;
    PlainArePrintable(actions, lower);
    if AllInPhase(actions, false) {
      PressedAreRead(actions, lower);
    } else if |actions| == 1 {
      SingleIsRead(actions, lower);
    } else {
      SeveralAreNotRead(actions, lower);
    }
  }

  lemma SingleIsRead(actions: seq<Action>, lower: LowerCase)
    requires ArePlain(actions, lower) && |actions| == 1 && !AllInPhase(actions, false)
    ensures ArePrintable(actions)
    ensures PhasesFromText(SplitTopLevel(" " + ActionsText(actions, lower) + "\n", ';')) == Some(AllCleared(actions))
  {
    hide ActionsText, PhasesFromText, Parts, IsWholeAction, IsPlainAction, IsPrintable;
    PlainArePrintable(actions, lower);
    assert actions == [actions[0]];
    ReleasedIsRead(actions[0], lower);
  }

  lemma PlainAreUpTo(actions: seq<Action>, lower: LowerCase)
    requires ArePlain(actions, lower)
    ensures forall i: nat | i < |actions| :: PlainUpTo(actions, lower, i)
  {
    hide IsWholeAction, IsPlainAction;
  }

  lemma SeveralAreNotRead(actions: seq<Action>, lower: LowerCase)
    requires ArePlain(actions, lower) && |actions| > 1 && ArePrintable(actions) && !AllInPhase(actions, false)
    ensures PhasesFromText(SplitTopLevel(" " + ActionsText(actions, lower) + "\n", ';')) != Some(AllCleared(actions))
  {
    hide ActionsText, PhasesFromText, Parts, ArePlain, PlainUpTo, ArePrintable;
    PlainAreUpTo(actions, lower);
    var i: nat :| i < |actions| && actions[i].onRelease;
    if i > 0 {
      ReleaseAfterOthersFails(actions, lower, i);
    } else if actions[1].onRelease {
      ReleaseAfterOthersFails(actions, lower, 1);
    } else {
      ReleaseFirstSpreads(actions, lower);
      assert !AllCleared(actions)[1].onRelease;
    }
  }

  /**
    Parsing a printed hotkey gives it back, up to what its actions have no use for, exactly if
    no action is on release, or the only one is.
  */
  lemma HotkeyRoundTrip(hotkey: Hotkey, lower: LowerCase)
    requires IsPlainHotkey(hotkey, lower)
    ensures ArePrintable(hotkey.actions)
    ensures HotkeyFromText(HotkeyText(hotkey, lower)) == Some(Hotkey(hotkey.sequence, AllCleared(hotkey.actions)))
            <==> AllInPhase(hotkey.actions, false) || |hotkey.actions| == 1
  {
    hide IsReadable, ArePlain, ActionsText, PhasesFromText, Condition, ConditionFromText, Trim, FirstOf, Parts,
         AllInPhase;
    PlainArePrintable(hotkey.actions, lower);
    var rest := ActionsText(hotkey.actions, lower) + "\n";
    ConditionIsFound(hotkey.sequence, lower, rest);
    ConditionRoundTrip(hotkey.sequence, lower);
    ActionsRoundTrip(hotkey.actions, lower);
    assert HotkeyText(hotkey, lower) == "\t" + Condition(hotkey.sequence, lower) + " = " + rest;
    assert " " + ActionsText(hotkey.actions, lower) + "\n" == " " + rest;
  }

  /** The layout of the line that is printed for a hotkey, and that there is none without actions. */
  lemma TwoAreListed(sequence: KeySequence, a: Action, b: Action, lower: LowerCase)
    requires IsPrintable(a) && IsPrintable(b)
    ensures HotkeyText(Hotkey(sequence, [a, b]), lower)
            == "\t" + Condition(sequence, lower) + " = " + (if a.onRelease then ";" else "") + Text(a, lower) + ", "
               + (if b.onRelease then ";" else "") + Text(b, lower) + "\n"
    ensures HotkeyText(Hotkey(sequence, []), lower) == ""
  {
    hide Text, Condition, PhasedText;
    TwoActionsListed(a, b, lower);
    PhasedIs(a, lower);
    PhasedIs(b, lower);
    var head, first := "\t" + Condition(sequence, lower) + " = ", if a.onRelease then ";" else "";
    Regrouped(head, first, Text(a, lower), if b.onRelease then ";" else "", Text(b, lower));
  }

  lemma Regrouped(head: string, first: string, a: string, second: string, b: string)
    ensures head + ((first + a) + ", " + (second + b)) + "\n" == head + first + a + ", " + second + b + "\n"
  {
  }

  lemma PhasedIs(action: Action, lower: LowerCase)
    requires IsPrintable(action)
    ensures PhasedText(action, lower) == (if action.onRelease then ";" else "") + Text(action, lower)
  {
    hide Text;
    assert "" + Text(action, lower) == Text(action, lower);
  }

  lemma TwoActionsListed(a: Action, b: Action, lower: LowerCase)
    requires IsPrintable(a) && IsPrintable(b)
    ensures ActionsText([a, b], lower) == PhasedText(a, lower) + ", " + PhasedText(b, lower)
  {
    hide PhasedText;
    assert [a, b][1..] == [b];
  }

  // ---------------------------------------------------------------------------
  // Actions before and after ";"
  // ---------------------------------------------------------------------------

  /** All actions close their parentheses, so that something else can follow. */
  predicate AreClosed(actions: seq<Action>, lower: LowerCase) {
    forall i :: 0 <= i < |actions| ==> IsPlainAction(actions[i], lower)
  }

  lemma ClosedArePlain(actions: seq<Action>, lower: LowerCase)
    requires AreClosed(actions, lower)
    ensures ArePlain(actions, lower) && ArePrintable(actions)
  {
    hide IsWholeAction;
    PlainArePrintable(actions, lower);
  }

  lemma PhaseIsRead(actions: seq<Action>, lower: LowerCase, before: string, after: string, onRelease: bool)
    requires ArePlain(actions, lower) && AllInPhase(actions, onRelease) && IsPadding(before) && IsPadding(after)
    ensures ArePrintable(actions)
    ensures PhaseFromText(before + Listed(actions, lower) + after, onRelease) == Some(AllCleared(actions))
  {
    hide IsWholeAction, IsPlainAction, Trim, ActionsFromTexts, Padded, Listed, Join;
    PlainArePrintable(actions, lower);
    if actions == [] {
      NothingListed(lower);
      PaddingIsPlain(before);
      PaddingIsPlain(after);
      TrimIsBlank(before + "" + after);
    } else {
      JoinOfPadded(actions, lower, before, after);
      PhaseRoundTrip(actions, lower, before, after, onRelease);
    }
  }

  lemma NothingListed(lower: LowerCase)
    ensures Listed([], lower) == ""
  {
  }

  lemma PhaseIsWhole(actions: seq<Action>, lower: LowerCase, before: string, after: string)
    requires ArePlain(actions, lower) && IsPadding(before) && IsPadding(after)
    ensures ArePrintable(actions)
    ensures IsWhole(before + Listed(actions, lower) + after, ';', true, 0)
    ensures AreClosed(actions, lower) ==> DepthAfter(before + Listed(actions, lower) + after, true, 0) == 0
  {
    hide IsWholeAction, IsPlainAction, Padded, Listed, Join, IsWhole, DepthAfter, LacksParentheses, Lacks;
    PlainArePrintable(actions, lower);
    if actions == [] {
      NothingListed(lower);
      PaddingIsPlain(before);
      PaddingIsPlain(after);
      WholeWithout("", ';', true, 0);
      DepthWithout("", true, 0);
      WholePadding("", ';', before, after);
    } else {
      PaddedAreWhole(actions, lower, ';', before, after);
      JoinIsWhole(Padded(actions, lower, before, after), ';');
      JoinOfPadded(actions, lower, before, after);
      if AreClosed(actions, lower) {
        PaddedAreClosed(actions, lower, before, after);
      }
    }
  }

  lemma {:induction false} PaddedAreClosed(actions: seq<Action>, lower: LowerCase, before: string, after: string)
    requires AreClosed(actions, lower) && actions != [] && IsPadding(before) && IsPadding(after)
    ensures ArePrintable(actions)
    ensures DepthAfter(Join(Padded(actions, lower, before, after), ","), true, 0) == 0
  {
    hide IsWholeAction, IsPlainAction, Text, IsWhole, DepthAfter;
    ClosedArePlain(actions, lower);
    ClosedIsWhole(actions[0], lower);
    if |actions| == 1 {
      PaddedActionIsWhole(actions[0], lower, ';', before, after);
    } else {
      var first, more := before + Text(actions[0], lower), Padded(actions[1..], lower, " ", after);
      PaddedActionIsWhole(actions[0], lower, ';', before, "");
      assert before + Text(actions[0], lower) + "" == first;
      PaddedAreClosed(actions[1..], lower, " ", after);
      CommaIsWhole();
      DepthOfBoth(first, ",", true, 0);
      DepthOfBoth(first + ",", Join(more, ","), true, 0);
      assert Padded(actions, lower, before, after)[1..] == more;
    }
  }

  lemma ClosedIsWhole(action: Action, lower: LowerCase)
    requires IsPlainAction(action, lower)
    ensures IsWholeAction(action, lower)
  {
  }

  /** Both phases are read, the one before the ";" as on press and the one after it as on release. */
  lemma PhasesAreRead(pressed: seq<Action>, released: seq<Action>, lower: LowerCase, after: string)
    requires AreClosed(pressed, lower) && ArePlain(released, lower) && IsPadding(after)
    requires AllInPhase(pressed, false) && AllInPhase(released, true)
    ensures ArePrintable(pressed) && ArePrintable(released)
    ensures PhasesFromText(SplitTopLevel(" " + Listed(pressed, lower) + "; " + Listed(released, lower) + after, ';'))
            == Some(AllCleared(pressed) + AllCleared(released))
  {
    hide AreClosed, ArePlain, Listed, PhaseFromText, IsWhole, DepthAfter, Parts;
    ClosedArePlain(pressed, lower);
    PlainArePrintable(released, lower);
    var first, second := " " + Listed(pressed, lower), " " + Listed(released, lower) + after;
    assert " " + Listed(pressed, lower) + "" == first;
    PhaseIsWhole(pressed, lower, " ", "");
    PhaseIsWhole(released, lower, " ", after);
    FirstPart(first, ';', true, 0, second);
    WholeText(second, ';', true, 0);
    assert " " + Listed(pressed, lower) + "; " + Listed(released, lower) + after == first + [';'] + second;
    PhaseIsRead(pressed, lower, " ", "", false);
    PhaseIsRead(released, lower, " ", after, true);
  }

  lemma {:induction false} PartsAreMore(text: string, separator: char, depth: int)
    requires !IsWhole(text, separator, true, depth)
    ensures |Parts(text, separator, true, depth)| >= 2
  {
    if !IsCut(text[0], separator, true, depth) {
      PartsAreMore(text[1..], separator, Deeper(text[0], true, depth));
    }
  }

  /** A hotkey has at most two phases. */
  lemma ThirdPhaseFails(first: string, second: string, rest: string)
    requires DepthAfter(first, true, 0) == 0 && DepthAfter(second, true, 0) == 0
    ensures PhasesFromText(SplitTopLevel(first + ";" + second + ";" + rest, ';')) == None
  {
    hide PhaseFromText, Parts, DepthAfter;
    var more := second + [';'] + rest;
    SplitInTwo(first, ';', true, 0, more);
    SplitInTwo(second, ';', true, 0, rest);
    assert first + ";" + second + ";" + rest == first + [';'] + more;
  }

  /**
    A hotkey with actions for both phases: what its parts stand for, in order, whichever of the two
    lists is empty. With both empty it is no hotkey.
  */
  lemma BothPhasesAreRead(sequence: KeySequence, pressed: seq<Action>, released: seq<Action>, lower: LowerCase)
    requires IsPlainCondition(sequence, lower) && AreClosed(pressed, lower) && ArePlain(released, lower)
    requires AllInPhase(pressed, false) && AllInPhase(released, true)
    ensures ArePrintable(pressed) && ArePrintable(released)
    ensures HotkeyFromText(Condition(sequence, lower) + " = " + Listed(pressed, lower) + "; " + Listed(released, lower))
            == if pressed == [] && released == [] then None
               else Some(Hotkey(sequence, AllCleared(pressed) + AllCleared(released)))
  {
    hide IsReadable, ArePlain, AreClosed, Listed, PhasesFromText, Condition, ConditionFromText, Trim, FirstOf, Parts,
         AllInPhase;
    ClosedArePlain(pressed, lower);
    PlainArePrintable(released, lower);
    var rest := Listed(pressed, lower) + "; " + Listed(released, lower);
    ConditionIsFound(sequence, lower, rest);
    ConditionRoundTrip(sequence, lower);
    PhasesAreRead(pressed, released, lower, "");
    assert Condition(sequence, lower) + " = " + Listed(pressed, lower) + "; " + Listed(released, lower)
        == Condition(sequence, lower) + " = " + rest;
    assert " " + Listed(pressed, lower) + "; " + Listed(released, lower) + "" == " " + rest;
  }

  // ---------------------------------------------------------------------------
  // What is read as what
  // ---------------------------------------------------------------------------

  /** The condition is a call of one of two names, with a trigger in parentheses. */
  ghost predicate IsTrigger(condition: string, sequence: KeySequence) {
    || (exists keys: string ::
          condition == "keystroke(" + keys + ")" && FromString(Trim(keys), false) == Some(sequence))
    || (exists keys: string ::
          condition == "mousebutton(" + keys + ")" && FromString(Trim(keys), true) == Some(sequence))
  }

  predicate AreReadAs(texts: seq<string>, onRelease: bool, actions: seq<Action>) {
    && |texts| == |actions|
    && forall i :: 0 <= i < |texts| ==> Actions.FromText(texts[i], onRelease) == Some(actions[i])
  }

  /** Blank, or texts of actions with commas between them, none of them with a comma outside parentheses. */
  ghost predicate IsPhase(text: string, onRelease: bool, actions: seq<Action>) {
    || (AllSpaces(text) && actions == [])
    || exists texts: seq<string> :: texts != [] && Join(texts, ",") == text && AreWhole(texts, ',', true)
         && AreReadAs(texts, onRelease, actions)
  }

  /** At i is the one semicolon outside parentheses. */
  predicate IsTurn(text: string, i: nat) {
    && i < |text| && text[i] == ';' && DepthAfter(text[..i], true, 0) == 0
    && IsWhole(text[..i], ';', true, 0) && IsWhole(text[i + 1..], ';', true, 0)
  }

  /** Actions on press, or actions on press, a semicolon, and actions on release. */
  ghost predicate ArePhases(text: string, actions: seq<Action>) {
    || (IsWhole(text, ';', true, 0) && IsPhase(text, false, actions))
    || exists i: nat, k: nat :: i < |text| && IsTurn(text, i) && k <= |actions|
         && IsPhase(text[..i], false, actions[..k]) && IsPhase(text[i + 1..], true, actions[k..])
  }

  lemma TriggerExactly(condition: string, sequence: KeySequence)
    ensures ConditionFromText(condition) == Some(sequence) <==> IsTrigger(condition, sequence)
  {
    hide FromString, Trim;
    CalledWith(condition, KEYSTROKE_PREFIX);
    CalledWith(condition, MOUSE_PREFIX);
    var n := |condition| - 1;
    if KEYSTROKE_PREFIX <= condition && condition[n] == ')' {
      assert condition == "keystroke(" + condition[|KEYSTROKE_PREFIX|..n] + ")";
    } else if MOUSE_PREFIX <= condition && condition[n] == ')' {
      assert condition == "mousebutton(" + condition[|MOUSE_PREFIX|..n] + ")";
    }
  }

  lemma CalledWith(condition: string, prefix: string)
    requires prefix == KEYSTROKE_PREFIX || prefix == MOUSE_PREFIX
    ensures forall keys: string :: condition == prefix + keys + ")" ==>
              && prefix <= condition && condition != "" && condition[|condition| - 1] == ')'
              && condition[|prefix|..|condition| - 1] == keys && condition[0] == prefix[0]
  {
    forall keys: string | condition == prefix + keys + ")"
      ensures prefix <= condition && condition != "" && condition[|condition| - 1] == ')'
      ensures condition[|prefix|..|condition| - 1] == keys && condition[0] == prefix[0]
    {
      assert condition == prefix + (keys + ")");
    }
  }

  lemma {:induction false} AreReadExactly(texts: seq<string>, onRelease: bool, actions: seq<Action>)
    ensures ActionsFromTexts(texts, onRelease) == Some(actions) <==> AreReadAs(texts, onRelease, actions)
  {
    hide Actions.FromText;
    if texts != [] {
      if actions == [] {
      } else {
        AreReadExactly(texts[1..], onRelease, actions[1..]);
        assert actions == [actions[0]] + actions[1..];
        assert forall i :: 0 < i < |texts| ==> texts[i] == texts[1..][i - 1];
        assert forall i :: 0 < i < |actions| ==> actions[i] == actions[1..][i - 1];
      }
    }
  }

  lemma BlankIsNoAction(text: string, onRelease: bool, texts: seq<string>, actions: seq<Action>)
    requires AllSpaces(text) && texts != [] && Join(texts, ",") == text
    ensures !AreReadAs(texts, onRelease, actions)
  {
    hide Actions.FromText;
    if |texts| == 1 {
      SpacesAreNoAction(texts[0], onRelease);
    } else {
      CommaIsNotBlank(texts[0], Join(texts[1..], ","));
    }
  }

  lemma CommaIsNotBlank(before: string, after: string)
    ensures !AllSpaces(before + "," + after)
  {
    assert (before + "," + after)[|before|] == ',';
  }

  lemma PhaseExactly(text: string, onRelease: bool, actions: seq<Action>)
    ensures PhaseFromText(text, onRelease) == Some(actions) <==> IsPhase(text, onRelease, actions)
  {
    hide Trim, AllSpaces, Parts, Join, AreWhole, ActionsFromTexts, AreReadAs;
    TrimIsBlank(text);
    var parts := SplitTopLevel(text, ',');
    SplitExactly(text, ',', true, parts);
    AreReadExactly(parts, onRelease, actions);
    forall texts: seq<string> | texts != [] && Join(texts, ",") == text && AreWhole(texts, ',', true)
      ensures texts == parts
      ensures AllSpaces(text) ==> !AreReadAs(texts, onRelease, actions)
    {
      SplitExactly(text, ',', true, texts);
      if AllSpaces(text) {
        BlankIsNoAction(text, onRelease, texts, actions);
      }
    }
  }

  /** One phase, or two around the semicolon, or else more than two. */
  lemma TurnsExactly(text: string)
    ensures var phases := SplitTopLevel(text, ';');
            && (|phases| == 1 <==> IsWhole(text, ';', true, 0))
            && (|phases| == 1 ==> phases == [text])
            && (|phases| == 2 ==> exists i: nat :: i < |text| && IsTurn(text, i))
            && (forall i: nat :: IsTurn(text, i) ==> phases == [text[..i], text[i + 1..]])
  {
    hide Parts, IsWhole, DepthAfter;
    var phases := SplitTopLevel(text, ';');
    SplitExactly(text, ';', true, phases);
    SplitExactly(text, ';', true, [text]);
    assert phases[0..] == phases && [text][0] == text;
    if |phases| == 1 {
      assert phases == [phases[0]];
    }
    if |phases| == 2 {
      var i := |phases[0]|;
      assert phases[1..] == [phases[1]] && text == phases[0] + ";" + phases[1];
      assert text[..i] == phases[0] && text[i + 1..] == phases[1];
      assert IsTurn(text, i);
    }
    forall i: nat | IsTurn(text, i)
      ensures phases == [text[..i], text[i + 1..]]
    {
      assert text == text[..i] + [';'] + text[i + 1..];
      FirstPart(text[..i], ';', true, 0, text[i + 1..]);
      WholeText(text[i + 1..], ';', true, 0);
    }
  }

  lemma PhasesExactly(text: string, actions: seq<Action>)
    ensures PhasesFromText(SplitTopLevel(text, ';')) == Some(actions) <==> ArePhases(text, actions)
  {
    hide Parts, PhasesFromText, ArePhases;
    var phases := SplitTopLevel(text, ';');
    if |phases| == 1 {
      OnePhaseExactly(text, actions);
    } else if |phases| == 2 {
      TwoPhasesExactly(text, actions);
    } else {
      ManyPhasesFail(text, actions);
    }
  }

  lemma OnePhaseExactly(text: string, actions: seq<Action>)
    requires |SplitTopLevel(text, ';')| == 1
    ensures PhasesFromText(SplitTopLevel(text, ';')) == Some(actions) <==> ArePhases(text, actions)
  {
    hide Parts, PhaseFromText, IsWhole, DepthAfter, IsPhase, IsTurn;
    TurnsExactly(text);
    PhaseExactly(text, false, actions);
    assert actions + [] == actions;
    var phase := PhaseFromText(text, false);
    assert phase.Some? ==> phase.value + [] == phase.value;
  }

  lemma ManyPhasesFail(text: string, actions: seq<Action>)
    requires |SplitTopLevel(text, ';')| > 2
    ensures PhasesFromText(SplitTopLevel(text, ';')) == None && !ArePhases(text, actions)
  {
    hide Parts, PhaseFromText, IsWhole, DepthAfter, IsPhase, IsTurn;
    TurnsExactly(text);
  }

  lemma TwoPhasesExactly(text: string, actions: seq<Action>)
    requires |SplitTopLevel(text, ';')| == 2
    ensures PhasesFromText(SplitTopLevel(text, ';')) == Some(actions) <==> ArePhases(text, actions)
  {
    hide Parts, PhaseFromText, IsWhole, DepthAfter, IsPhase, IsTurn;
    var phases := SplitTopLevel(text, ';');
    TurnsExactly(text);
    var i: nat :| i < |text| && IsTurn(text, i);
    forall a: seq<Action>
      ensures PhaseFromText(phases[0], false) == Some(a) <==> IsPhase(text[..i], false, a)
      ensures PhaseFromText(phases[1], true) == Some(a) <==> IsPhase(text[i + 1..], true, a)
    {
      PhaseExactly(text[..i], false, a);
      PhaseExactly(text[i + 1..], true, a);
    }
    if PhasesFromText(phases) == Some(actions) {
      var pressed := PhaseFromText(phases[0], false).value;
      var k := |pressed|;
      assert actions[..k] == pressed && actions[k..] == PhaseFromText(phases[1], true).value;
      assert IsPhase(text[..i], false, actions[..k]) && IsPhase(text[i + 1..], true, actions[k..]);
    }
    if ArePhases(text, actions) {
      var j: nat, k: nat :| j < |text| && IsTurn(text, j) && k <= |actions|
        && IsPhase(text[..j], false, actions[..k]) && IsPhase(text[j + 1..], true, actions[k..]);
      assert phases == [text[..j], text[j + 1..]];
      assert PhaseFromText(phases[0], false) == Some(actions[..k]);
      assert PhaseFromText(phases[1], true) == Some(actions[k..]);
      assert actions == actions[..k] + actions[k..];
    }
  }

  /**
    A text is read as a hotkey exactly if it is a trigger, the first "=", and phases with at least one
    action: nothing else is accepted, and what is accepted is read as what it says.
  */
  lemma ReadExactly(text: string, hotkey: Hotkey)
    ensures HotkeyFromText(text) == Some(hotkey)
            <==> hotkey.actions != []
                 && exists i: nat :: i < |text| && text[i] == '=' && Lacks(text[..i], '=')
                      && IsTrigger(Trim(text[..i]), hotkey.sequence) && ArePhases(text[i + 1..], hotkey.actions)
  {
    hide Trim, FirstOf, Lacks, Parts, ConditionFromText, PhasesFromText, IsTrigger, ArePhases;
    var equals := FirstOf(text, '=');
    FirstOfExactly(text, '=', equals);
    forall i: nat | i < |text| && text[i] == '=' && Lacks(text[..i], '=')
      ensures i == equals
    {
      FirstOfExactly(text, '=', i);
    }
    if equals < |text| {
      TriggerExactly(Trim(text[..equals]), hotkey.sequence);
      PhasesExactly(text[equals + 1..], hotkey.actions);
    }
  }

  // ---------------------------------------------------------------------------
  // The operations
  // ---------------------------------------------------------------------------

  function WithFront(front: string, parts: seq<string>): seq<string>
    requires parts != []
  {
    [front + parts[0]] + parts[1..]
  }

  /** The scan adds one character to the part in front of it, or ends that part. */
  lemma ScanNext(text: string, separator: char, depth: int, start: nat, i: nat)
    requires start <= i < |text|
    ensures var parts := Parts(text[i + 1..], separator, true, Deeper(text[i], true, depth));
            WithFront(text[start..i], Parts(text[i..], separator, true, depth))
            == if IsCut(text[i], separator, true, depth) then [text[start..i]] + parts
               else WithFront(text[start..i + 1], parts)
  {
    var parts := Parts(text[i + 1..], separator, true, Deeper(text[i], true, depth));
    assert text[i..][0] == text[i] && text[i..][1..] == text[i + 1..];
    if IsCut(text[i], separator, true, depth) {
      assert ([""] + parts)[1..] == parts && text[start..i] + "" == text[start..i];
    } else {
      assert text[start..i] + ([text[i]] + parts[0]) == text[start..i + 1] + parts[0];
    }
  }

  lemma NothingInFront(text: string, parts: seq<string>, i: nat)
    requires parts != [] && i <= |text|
    ensures WithFront(text[i..i], parts) == parts
  {
    assert text[i..i] + parts[0] == parts[0];
  }

  method SplitOutside(text: string, separator: char) returns (parts: seq<string>)
    requires separator != '(' && separator != ')'
    ensures parts == SplitTopLevel(text, separator)
  {
    hide Parts, WithFront;
    parts := [];
    var depth := 0;
    var start := 0;
    assert text[0..] == text;
    NothingInFront(text, SplitTopLevel(text, separator), 0);
    for i := 0 to |text|
      invariant start <= i
      invariant parts + WithFront(text[start..i], Parts(text[i..], separator, true, depth))
                == SplitTopLevel(text, separator)
    {
      ScanNext(text, separator, depth, start, i);
      ghost var more := Parts(text[i + 1..], separator, true, Deeper(text[i], true, depth));
      if text[i] == '(' {
        depth := depth + 1;
      } else if text[i] == ')' {
        depth := depth - 1;
      } else if text[i] == separator && depth == 0 {
        assert parts + ([text[start..i]] + more) == parts + [text[start..i]] + more;
        parts := parts + [text[start..i]];
        start := i + 1;
        NothingInFront(text, more, i + 1);
      }
    }
    LastPart(text, separator, depth, start);
    parts := parts + [text[start..]];
  }

  lemma LastPart(text: string, separator: char, depth: int, start: nat)
    requires start <= |text|
    ensures WithFront(text[start..|text|], Parts(text[|text|..], separator, true, depth)) == [text[start..]]
  {
    assert text[|text|..] == "" && text[start..|text|] + "" == text[start..];
  }

  method PrintHotkey(hotkey: Hotkey, lower: LowerCase) returns (text: string)
    requires ArePrintable(hotkey.actions)
    ensures text == HotkeyText(hotkey, lower)
  {
    hide Condition, Text, ActionsText;
    var actions := hotkey.actions;
    assert actions[0..] == actions;
    text := "";
    if |actions| == 0 {
      return;
    }
    text := "\t" + Condition(hotkey.sequence, lower) + " = ";
    ghost var head := text;
    for i := 0 to |actions|
      invariant text + ActionsText(actions[i..], lower) == head + ActionsText(actions, lower)
    {
      NextActionPrinted(actions, lower, i);
      if actions[i].onRelease {
        text := text + ";";
      }
      text := text + Text(actions[i], lower);
      if i != |actions| - 1 {
        text := text + ", ";
      }
    }
    NoActionsPrinted(lower);
    text := text + "\n";
  }

  lemma NoActionsPrinted(lower: LowerCase)
    ensures ActionsText([], lower) == ""
  {
  }

  lemma NextActionPrinted(actions: seq<Action>, lower: LowerCase, i: nat)
    requires ArePrintable(actions) && i < |actions|
    ensures ActionsText(actions[i..], lower)
            == (if actions[i].onRelease then ";" else "") + Text(actions[i], lower)
               + (if i + 1 < |actions| then ", " else "") + ActionsText(actions[i + 1..], lower)
  {
    hide Text;
    assert PhasedText(actions[i], lower) == (if actions[i].onRelease then ";" else "") + Text(actions[i], lower);
    assert actions[i..][0] == actions[i] && actions[i..][1..] == actions[i + 1..];
  }

  method ReadActions(phase: string, onRelease: bool) returns (actions: Option<seq<Action>>)
    ensures actions == ActionsFromTexts(SplitTopLevel(phase, ','), onRelease)
  {
    hide Parts, Actions.FromText;
    var texts := SplitOutside(phase, ',');
    var read := [];
    assert texts[0..] == texts;
    NothingPrepended(ActionsFromTexts(texts, onRelease));
    for i := 0 to |texts|
      invariant ActionsFromTexts(texts, onRelease) == Prepended(read, ActionsFromTexts(texts[i..], onRelease))
    {
      assert texts[i..][0] == texts[i] && texts[i..][1..] == texts[i + 1..];
      var action := Actions.FromText(texts[i], onRelease);
      if action == None {
        return None;
      }
      PrependedTwice(read, action.value, ActionsFromTexts(texts[i + 1..], onRelease));
      read := read + [action.value];
    }
    assert read + [] == read;
    actions := Some(read);
  }

  method ReadHotkey(text: string) returns (hotkey: Option<Hotkey>)
    ensures hotkey == HotkeyFromText(text)
  {
    hide Trim, ActionsFromTexts, ConditionFromText, Parts;
    var equals := FirstOf(text, '=');
    if equals == |text| {
      return None;
    }
    var sequence := ConditionFromText(Trim(text[..equals]));
    if sequence == None {
      return None;
    }
    var phases := SplitOutside(text[equals + 1..], ';');
    if |phases| > 2 {
      return None;
    }
    var actions := [];
    for phase := 0 to |phases|
      invariant phase == 0 ==> actions == []
      invariant phase >= 1 ==> PhaseFromText(phases[0], false).Some?
      invariant phase == 1 ==> actions == PhaseFromText(phases[0], false).value
      invariant phase == 2 ==> PhaseFromText(phases[1], true).Some?
      invariant phase == 2 ==> actions == PhaseFromText(phases[0], false).value + PhaseFromText(phases[1], true).value
    {
      if Trim(phases[phase]) != "" {
        var more := ReadActions(phases[phase], phase == 1);
        if more == None {
          return None;
        }
        actions := actions + more.value;
      }
    }
    assert actions + [] == actions;
    if actions == [] {
      return None;
    }
    hotkey := Some(Hotkey(sequence.value, actions));
  }
}
