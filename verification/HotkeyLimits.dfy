/**
  Which hotkeys are read back from their text, exactly: beside the phases, it is the keys "=", "(" and
  ")" that the parser can mistake, the first in the condition and the others in actions.
*/
module HotkeyLimits {
  import opened Options
  import opened Texts
  import opened KeySequences
  import opened Actions
  import opened Hotkeys

  /** Everything but the keys and phases is as it should be; names hold no parentheses. */
  predicate IsReadableHotkey(hotkey: Hotkey, lower: LowerCase) {
    && IsReadable(hotkey.sequence, hotkey.sequence.IsMouseButton(), lower)
    && hotkey.actions != [] && AreReadable(hotkey.actions, lower)
  }

  predicate AreReadable(actions: seq<Action>, lower: LowerCase) {
    forall i :: 0 <= i < |actions| ==>
      IsReadableAction(actions[i], lower) && NamesLack(actions[i], '(') && NamesLack(actions[i], ')')
  }

  predicate IsOnEquals(sequence: KeySequence) {
    !sequence.IsMouseButton() && sequence.keys != [] && sequence.keys[|sequence.keys| - 1] == '=' as int
  }

  /** The key of the action is taken for a parenthesis around text, and that changes what is read. */
  predicate IsMistaken(actions: seq<Action>, i: nat)
    requires i < |actions|
  {
    IsOn(actions[i], ')') || (i + 1 < |actions| && IsOn(actions[i], '('))
  }

  predicate NoneMistaken(actions: seq<Action>) {
    forall i :: 0 <= i < |actions| ==> !IsMistaken(actions, i)
  }

  // ---------------------------------------------------------------------------
  // The condition
  // ---------------------------------------------------------------------------

  lemma UnclosedFails(condition: string, rest: string)
    requires condition != "" && IsTrimmed(condition) && Lacks(condition, '=') && condition[|condition| - 1] != ')'
    ensures HotkeyFromText("\t" + condition + "=" + rest) == None
  {
    hide Trim, FirstOf, PhasesFromText, Lacks;
    var left := "\t" + condition;
    var text := "\t" + condition + "=" + rest;
    assert text == left + ['='] + rest;
    assert Lacks(left, '=') by { TabIsNoEquals(condition); }
    FirstOfAfter(left, '=', rest);
    assert text[..|left|] == "\t" + condition + "";
    TrimOf("\t", condition, "");
  }

  lemma TabIsNoEquals(condition: string)
    requires Lacks(condition, '=')
    ensures Lacks("\t" + condition, '=')
  {
  }

  /** The first "=" is the key, and the condition before it is not closed. */
  lemma EqualsTriggerFails(hotkey: Hotkey, lower: LowerCase)
    requires IsReadable(hotkey.sequence, false, lower) && IsOnEquals(hotkey.sequence)
    requires hotkey.actions != [] && ArePrintable(hotkey.actions)
    ensures HotkeyFromText(HotkeyText(hotkey, lower)) == None
  {
    hide ActionsText, Front, ToString, IsBuilt, IsReadableKey, HotkeyFromText, FromString, KeyToString;
    var front := Front(hotkey.sequence.keys, lower);
    var condition := KEYSTROKE_PREFIX + front;
    BuiltHasKeys(hotkey.sequence, false);
    FrontAndKey(hotkey.sequence.keys, lower);
    PunctuationIsItself('=', lower);
    FrontIsNoSequence(hotkey.sequence, lower, '=');
    FrontEnds(hotkey.sequence.keys, lower);
    UnclosedFails(condition, ") = " + ActionsText(hotkey.actions, lower) + "\n");
    assert HotkeyText(hotkey, lower)
        == "\t" + condition + "=" + (") = " + ActionsText(hotkey.actions, lower) + "\n");
  }

  lemma FrontEnds(keys: seq<int>, lower: LowerCase)
    ensures Front(keys, lower) != "" ==> Front(keys, lower)[|Front(keys, lower)| - 1] == '+'
  {
  }

  // ---------------------------------------------------------------------------
  // Actions on parentheses
  // ---------------------------------------------------------------------------

  lemma FrontIsTrimmed(sequence: KeySequence, lower: LowerCase)
    requires IsBuilt(sequence, false)
    ensures IsTrimmed(Front(sequence.keys, lower))
  {
    hide IsBuilt, Front, FromString;
    var front := Front(sequence.keys, lower);
    if front != "" {
      if IsSpace(front[0]) {
        FrontIsNoSequence(sequence, lower, front[0]);
      }
      if IsSpace(front[|front| - 1]) {
        FrontIsNoSequence(sequence, lower, front[|front| - 1]);
      }
    }
  }

  lemma KeyActionText(action: Action, lower: LowerCase, c: char)
    requires IsReadableAction(action, lower) && IsOn(action, c) && (c == '(' || c == ')')
    ensures IsPrintable(action) && IsBuilt(action.sequence, false)
    ensures Text(action, lower)
            == TYPE_NAMES[action.kind]
               + "(" + (Front(action.sequence.keys, lower) + [c] + "," + ScreensText(action)) + ")"
    ensures Arguments(action, lower) == Some(Front(action.sequence.keys, lower) + [c] + "," + ScreensText(action))
  {
    hide IsBuilt, ToString, Front, KeyToString, IsReadableKey, ScreensText;
    FrontAndKey(action.sequence.keys, lower);
    PunctuationIsItself(c, lower);
  }

  /** What is read of an action on ")" when the key closes the parenthesis. */
  lemma ClosedEarlyFails(action: Action, lower: LowerCase, spaces: string, onRelease: bool)
    requires IsReadableAction(action, lower) && IsOn(action, ')') && AllSpaces(spaces)
    ensures var front := Front(action.sequence.keys, lower);
            Actions.FromText(spaces + Call(TYPE_NAMES[action.kind], Some(front)), onRelease) == None
  {
    hide IsBuilt, Front, ParseCall, Call, IndexOfName, FromString, Trim, Parts, Lacks, IsTrimmed, AllSpaces, IsWord;
    var name, front := TYPE_NAMES[action.kind], Front(action.sequence.keys, lower);
    KeyActionText(action, lower, ')');
    TypeNamesAreFound(action.kind);
    FrontIsTrimmed(action.sequence, lower);
    NothingIsSpaces();
    CallRoundTrip(name, Some(front), spaces, "");
    assert spaces + Call(name, Some(front)) + "" == spaces + Call(name, Some(front));
    FrontIsNoSequence(action.sequence, lower, ',');
    WholeWithout(front, ',', false, 0);
    WholeText(front, ',', false, 0);
    TrimTrimmed(front);
  }

  lemma NothingIsSpaces()
    ensures AllSpaces("")
  {
  }

  /** A call whose arguments begin with `inside` and go on in some way is parsed as such, if it is closed. */
  lemma ParsedOpen(name: string, inside: string, spaces: string, more: string)
    requires IsWord(name) && name != "" && AllSpaces(spaces) && inside != "" && inside[|inside| - 1] == ','
    ensures var call := ParseCall(spaces + (name + "(" + inside) + more);
            call.Some? ==>
              && call.value.name == name && TrimRight(more) != ""
              && call.value.arguments == Some(Trim(inside + TrimRight(more)[..|TrimRight(more)| - 1]))
  {
    hide Trim, FirstOf, IsWord, TrimRight;
    WordIsPlain(name);
    var head, tail := name + "(" + inside, TrimRight(more);
    assert head[0] == name[0] && head[|head| - 1] == ',';
    TrimOfBoth(spaces, head, more);
    var text := head + tail;
    assert text == name + ['('] + (inside + tail);
    FirstOfAfter(name, '(', inside + tail);
    TrimTrimmed(name);
    if tail == "" {
      assert text[|text| - 1] == ',';
    } else {
      assert text[..|name|] == name && text[|name| + 1..|text| - 1] == inside + tail[..|tail| - 1];
    }
  }

  /** What is read of an action on "(" when the key keeps the next comma inside. */
  lemma KeptOpenFails(action: Action, lower: LowerCase, spaces: string, more: string, onRelease: bool)
    requires IsReadableAction(action, lower) && IsOn(action, '(') && AllSpaces(spaces)
    ensures IsPrintable(action)
    ensures Actions.FromText(spaces + (Text(action, lower) + ",") + more, onRelease) == None
  {
    hide IsBuilt, Front, IndexOfName, KeyAction, Trim, ParseCall, Text, Arguments, ScreensText, AllSpaces, IsWord,
         TrimRight, IsReadable;
    var name, front := TYPE_NAMES[action.kind], Front(action.sequence.keys, lower);
    KeyActionText(action, lower, '(');
    TypeNamesAreFound(action.kind);
    var keys, screens, tail := front + "(", ScreensText(action) + ")", TrimRight(more);
    var inside := keys + "," + screens + ",";
    assert Text(action, lower) + "," == name + "(" + inside;
    ParsedOpen(name, inside, spaces, more);
    if tail != "" {
      InsideHasCommas(action, lower, keys, screens, tail[..|tail| - 1], onRelease);
    }
  }

  lemma InsideHasCommas(action: Action, lower: LowerCase, keys: string, screens: string, rest: string, onRelease: bool)
    requires IsBuilt(action.sequence, false) && keys == Front(action.sequence.keys, lower) + "("
    ensures KeyAction(action.kind, Trim(keys + "," + screens + "," + rest), onRelease) == None
  {
    hide IsBuilt, Front, Trim, FromString, Parts, ScreensFromText;
    var front, more := keys + "," + screens + ",", TrimRight(rest);
    FrontIsTrimmed(action.sequence, lower);
    NothingIsSpaces();
    assert front[0] == keys[0] && front[|front| - 1] == ',';
    TrimOfBoth("", front, rest);
    assert "" + front + rest == keys + "," + screens + "," + rest;
    assert front + more == keys + [','] + (screens + [','] + more);
    DepthWithout(keys, false, 0);
    DepthWithout(screens, false, 0);
    SplitInTwo(keys, ',', false, 0, screens + [','] + more);
    SplitInTwo(screens, ',', false, 0, more);
  }

  /**
    The beginning of an action that is mistaken: whatever comes after the comma, the first part is read
    as no action, and no phase ends before the comma.
  */
  ghost predicate IsBadHead(head: string, onRelease: bool) {
    && head != "" && !IsSpace(head[0])
    && IsWhole(head + ",", ';', true, 0)
    && forall spaces, more | AllSpaces(spaces) ::
         Actions.FromText(spaces + SplitTopLevel(head + "," + more, ',')[0], onRelease) == None
  }

  lemma ClosedEarlyIsBad(action: Action, lower: LowerCase)
    requires IsReadableAction(action, lower) && IsOn(action, ')')
    ensures IsBadHead(Call(TYPE_NAMES[action.kind], Some(Front(action.sequence.keys, lower))), action.onRelease)
  {
    hide IsBuilt, Front, Parts, IsWhole, DepthAfter, IsWord, Actions.FromText, LacksParentheses;
    var name, front := TYPE_NAMES[action.kind], Front(action.sequence.keys, lower);
    var head := Call(name, Some(front));
    KeyActionText(action, lower, ')');
    TypeNamesAreFound(action.kind);
    WordIsPlain(name);
    assert head[0] == name[0];
    FrontIsWhole(action.sequence, lower);
    CallIsWhole(name, Some(front), ',');
    CallIsWhole(name, Some(front), ';');
    CommaIsWhole();
    WholeOfBoth(head, ",", ';', true, 0);
    forall spaces, more | AllSpaces(spaces)
      ensures Actions.FromText(spaces + SplitTopLevel(head + "," + more, ',')[0], action.onRelease) == None
    {
      FirstPart(head, ',', true, 0, more);
      assert head + [','] + more == head + "," + more;
      ClosedEarlyFails(action, lower, spaces, action.onRelease);
    }
  }

  lemma FrontIsWhole(sequence: KeySequence, lower: LowerCase)
    requires IsBuilt(sequence, false)
    ensures var front := Front(sequence.keys, lower);
            && IsWhole(front, ',', true, 1) && IsWhole(front, ';', true, 1) && DepthAfter(front, true, 1) == 1
  {
    hide IsBuilt, Front, IsWhole, DepthAfter, FromString;
    FrontIsNoSequence(sequence, lower, '(');
    FrontIsNoSequence(sequence, lower, ')');
    WholeInside(Front(sequence.keys, lower), ',', 1);
    WholeInside(Front(sequence.keys, lower), ';', 1);
    DepthWithout(Front(sequence.keys, lower), true, 1);
  }

  lemma KeptOpenIsBad(action: Action, lower: LowerCase)
    requires IsReadableAction(action, lower) && IsOn(action, '(') && NamesLack(action, '(') && NamesLack(action, ')')
    ensures IsPrintable(action) && IsBadHead(Text(action, lower), action.onRelease)
  {
    hide IsBuilt, Front, Parts, IsWhole, DepthAfter, Actions.FromText, IsReadableAction, NamesLack, Arguments, Glued;
    KeyActionText(action, lower, '(');
    var head := Text(action, lower);
    TextStartsWithWord(action, lower);
    WithoutParentheses(action, lower);
    TextIsWhole(action, lower, ',');
    TextIsWhole(action, lower, ';');
    StaysOpen(action, lower);
    CommaInside();
    WholeOfBoth(head, ",", ';', true, 0);
    WholeOfBoth(head, ",", ',', true, 0);
    WholeText(head + ",", ',', true, 0);
    forall spaces, more | AllSpaces(spaces)
      ensures Actions.FromText(spaces + SplitTopLevel(head + "," + more, ',')[0], action.onRelease) == None
    {
      var rest := Parts(more, ',', true, DepthAfter(head + ",", true, 0));
      PartsOfBoth(head + ",", more, ',', true, 0);
      GluedToOne(head + ",", rest);
      KeptOpenFails(action, lower, spaces, rest[0], action.onRelease);
      assert spaces + (head + "," + rest[0]) == spaces + (head + ",") + rest[0];
    }
  }

  lemma CommaInside()
    ensures IsWhole(",", ';', true, 1) && IsWhole(",", ',', true, 1)
  {
    assert ","[1..] == "";
  }

  lemma StaysOpen(action: Action, lower: LowerCase)
    requires IsReadableAction(action, lower) && IsOn(action, '(') && NamesLack(action, '(') && NamesLack(action, ')')
    ensures IsPrintable(action) && DepthAfter(Text(action, lower), true, 0) == 1
  {
    hide IsBuilt, Front, DepthAfter, IsWhole, Text, Arguments, FromString, IsScreenName, IsReadable, IsWord;
    var name, front, screens := TYPE_NAMES[action.kind], Front(action.sequence.keys, lower), "," + ScreensText(action);
    KeyActionText(action, lower, '(');
    TypeNamesAreFound(action.kind);
    WordIsPlain(name);
    FrontIsWhole(action.sequence, lower);
    if action.haveScreens && action.screens != [] {
      JoinedScreensLack(action.screens, '(');
      JoinedScreensLack(action.screens, ')');
    }
    DepthWithout(name, true, 0);
    DepthWithout(screens, true, 2);
    ParenthesesAreDeep();
    DepthOfBoth(name, "(", true, 0);
    DepthOfBoth(name + "(", front, true, 0);
    DepthOfBoth(name + "(" + front, "(", true, 0);
    DepthOfBoth(name + "(" + front + "(", screens, true, 0);
    DepthOfBoth(name + "(" + front + "(" + screens, ")", true, 0);
    assert Text(action, lower) == name + "(" + front + "(" + screens + ")";
  }

  lemma ParenthesesAreDeep()
    ensures DepthAfter("(", true, 0) == 1 && DepthAfter("(", true, 1) == 2 && DepthAfter(")", true, 2) == 1
  {
    assert "("[1..] == "" && ")"[1..] == "";
  }

  // ---------------------------------------------------------------------------
  // Phases with such an action
  // ---------------------------------------------------------------------------

  lemma {:induction false} FailingPart(texts: seq<string>, k: nat, onRelease: bool)
    requires k < |texts| && Actions.FromText(texts[k], onRelease) == None
    ensures ActionsFromTexts(texts, onRelease) == None
  {
    hide Actions.FromText;
    if k > 0 {
      FailingPart(texts[1..], k - 1, onRelease);
    }
  }

  /** The text before an action: no phase ends in it, and the action begins in a new part. */
  ghost predicate LeadsIn(before: string) {
    && IsWhole(before, ';', true, 0) && DepthAfter(before, true, 0) == 0
    && var parts := SplitTopLevel(before, ','); AllSpaces(parts[|parts| - 1])
  }

  lemma BadPhaseFails(before: string, head: string, more: string, onRelease: bool)
    requires LeadsIn(before) && IsBadHead(head, onRelease)
    ensures PhaseFromText(before + (head + "," + more), onRelease) == None
  {
    hide Parts, IsWhole, DepthAfter, ActionsFromTexts, Trim, Actions.FromText, Glued, AllSpaces;
    var parts, rest := SplitTopLevel(before, ','), SplitTopLevel(head + "," + more, ',');
    var phase := before + (head + "," + more);
    PartsOfBoth(before, head + "," + more, ',', true, 0);
    FailingPart(SplitTopLevel(phase, ','), |parts| - 1, onRelease);
    assert phase[|before|] == head[0];
    NotBlank(phase, |before|);
  }

  lemma NotBlank(text: string, i: nat)
    requires i < |text| && !IsSpace(text[i])
    ensures Trim(text) != ""
  {
    TrimIsBlank(text);
  }

  lemma BadPressFails(before: string, head: string, more: string)
    requires LeadsIn(before) && IsBadHead(head, false)
    ensures PhasesFromText(SplitTopLevel(before + (head + "," + more), ';')) == None
  {
    hide Parts, IsWhole, DepthAfter, PhaseFromText, Actions.FromText, Glued, AllSpaces;
    var front := before + (head + ",");
    var rest := Parts(more, ';', true, DepthAfter(front, true, 0));
    WholeOfBoth(before, head + ",", ';', true, 0);
    WholeText(front, ';', true, 0);
    PartsOfBoth(front, more, ';', true, 0);
    GluedToOne(front, rest);
    assert front + more == before + (head + "," + more);
    assert front + rest[0] == before + (head + "," + rest[0]);
    BadPhaseFails(before, head, rest[0], false);
  }

  lemma BadReleaseFails(head: string, more: string)
    requires IsBadHead(head, true)
    ensures PhasesFromText(SplitTopLevel(" ;" + (head + "," + more), ';')) == None
  {
    hide Parts, IsWhole, DepthAfter, PhaseFromText, Actions.FromText, Glued, AllSpaces;
    var rest := Parts(more, ';', true, DepthAfter(head + ",", true, 0));
    BlankIsWhole();
    FirstPart(" ", ';', true, 0, head + "," + more);
    assert " " + [';'] + (head + "," + more) == " ;" + (head + "," + more);
    WholeText(head + ",", ';', true, 0);
    PartsOfBoth(head + ",", more, ';', true, 0);
    GluedToOne(head + ",", rest);
    assert head + "," + more == (head + ",") + more && "" + (head + "," + rest[0]) == head + "," + rest[0];
    NothingLeadsIn();
    BadPhaseFails("", head, rest[0], true);
  }

  lemma NothingLeadsIn()
    ensures LeadsIn("")
  {
  }

  lemma {:induction false} TextAround(actions: seq<Action>, lower: LowerCase, i: nat)
    requires ArePrintable(actions) && i < |actions|
    ensures ActionsText(actions, lower)
            == TextBefore(actions, lower, i) + PhasedText(actions[i], lower)
               + if i + 1 < |actions| then ", " + ActionsText(actions[i + 1..], lower) else ""
  {
    hide PhasedText;
    if i > 0 {
      var rest := actions[1..];
      TextAround(rest, lower, i - 1);
      assert rest[i..] == actions[i + 1..];
      var more := if i + 1 < |actions| then ", " + ActionsText(actions[i + 1..], lower) else "";
      var first, text := PhasedText(actions[0], lower), PhasedText(actions[i], lower);
      var before := TextBefore(rest, lower, i - 1);
      assert first + ", " + (before + text + more) == (first + ", " + before) + text + more;
    }
  }

  predicate PressedUpTo(actions: seq<Action>, i: nat) {
    forall k :: 0 <= k < i && k < |actions| ==> !actions[k].onRelease
  }

  lemma {:induction false} BeforeIsWhole(actions: seq<Action>, lower: LowerCase, i: nat)
    requires PlainUpTo(actions, lower, i) && PressedUpTo(actions, i) && i < |actions| && ArePrintable(actions)
    ensures IsWhole(TextBefore(actions, lower, i), ';', true, 0)
  {
    hide IsWholeAction, Text, DepthAfter, IsWhole;
    if i == 0 {
      WholeWithout("", ';', true, 0);
    } else {
      var text := Text(actions[0], lower);
      assert IsPlainAction(actions[0], lower);
      TextIsWhole(actions[0], lower, ';');
      WholeWithout(", ", ';', true, 0);
      DepthWithout(", ", true, 0);
      WholeOfBoth(text, ", ", ';', true, 0);
      DepthOfBoth(text, ", ", true, 0);
      BeforeIsWhole(actions[1..], lower, i - 1);
      WholeOfBoth(text + ", ", TextBefore(actions[1..], lower, i - 1), ';', true, 0);
    }
  }

  lemma BeforeLeadsIn(actions: seq<Action>, lower: LowerCase, i: nat)
    requires PlainUpTo(actions, lower, i) && PressedUpTo(actions, i) && i < |actions| && ArePrintable(actions)
    ensures LeadsIn(" " + TextBefore(actions, lower, i))
  {
    hide PlainUpTo, TextBefore, DepthAfter, IsWhole, Parts;
    var before := TextBefore(actions, lower, i);
    BeforeIsWhole(actions, lower, i);
    DepthBefore(actions, lower, i);
    BlankIsWhole();
    WholeOfBoth(" ", before, ';', true, 0);
    DepthOfBoth(" ", before, true, 0);
    WholeWithout(" ", ',', true, 0);
    WholeText(" ", ',', true, 0);
    if i == 0 {
      assert " " + before == " " by { NothingBefore(actions, lower); }
    } else {
      BeforeEndsInComma(actions, lower, i);
      var text := " " + before[..|before| - 2];
      DepthOfBoth(" ", before[..|before| - 2], true, 0);
      assert before == before[..|before| - 2] + ", ";
      assert " " + before == text + [','] + " ";
      SplitInTwo(text, ',', true, 0, " ");
    }
  }

  lemma NothingBefore(actions: seq<Action>, lower: LowerCase)
    requires actions != [] && ArePrintable(actions)
    ensures TextBefore(actions, lower, 0) == ""
  {
  }

  /** Where the text of a mistaken action goes wrong. */
  lemma MistakenHead(actions: seq<Action>, lower: LowerCase, i: nat) returns (head: string, more: string)
    requires AreReadable(actions, lower) && ArePrintable(actions) && i < |actions| && IsMistaken(actions, i)
    ensures IsBadHead(head, actions[i].onRelease)
    ensures ActionsText(actions, lower) + "\n"
            == TextBefore(actions, lower, i) + (if actions[i].onRelease then ";" else "") + (head + "," + more)
  {
    hide IsBadHead, Text, TextBefore, ActionsText, Front, IsReadableAction, ScreensText, IsOn, NamesLack, Call,
         PhasedText, IsPrintable;
    var action, phase := actions[i], if actions[i].onRelease then ";" else "";
    var before := TextBefore(actions, lower, i);
    TextAround(actions, lower, i);
    PhasedIs(action, lower);
    if IsOn(action, ')') {
      var after := if i + 1 < |actions| then ", " + ActionsText(actions[i + 1..], lower) else "";
      ClosedEarlyIsBad(action, lower);
      ClosedEarlyText(action, lower);
      head := Call(TYPE_NAMES[action.kind], Some(Front(action.sequence.keys, lower)));
      more := ScreensText(action) + ")" + after + "\n";
      assert before + (phase + (head + "," + (ScreensText(action) + ")"))) + after + "\n"
          == before + phase + (head + "," + more);
    } else {
      KeptOpenIsBad(action, lower);
      head := Text(action, lower);
      more := " " + ActionsText(actions[i + 1..], lower) + "\n";
      assert before + (phase + head) + (", " + ActionsText(actions[i + 1..], lower)) + "\n"
          == before + phase + (head + "," + more);
    }
  }

  lemma PhasedIs(action: Action, lower: LowerCase)
    requires IsPrintable(action)
    ensures PhasedText(action, lower) == (if action.onRelease then ";" else "") + Text(action, lower)
  {
  }

  lemma ClosedEarlyText(action: Action, lower: LowerCase)
    requires IsReadableAction(action, lower) && IsOn(action, ')')
    ensures IsPrintable(action) && action.kind < |TYPE_NAMES|
    ensures Text(action, lower)
            == Call(TYPE_NAMES[action.kind], Some(Front(action.sequence.keys, lower)))
               + "," + (ScreensText(action) + ")")
  {
    hide IsReadableAction, Text, Arguments, Front, ScreensText;
    KeyActionText(action, lower, ')');
  }

  /** The first action that is mistaken makes the text unreadable. */
  lemma MistakenFails(actions: seq<Action>, lower: LowerCase, i: nat)
    requires AreReadable(actions, lower) && ArePrintable(actions) && i < |actions| && IsMistaken(actions, i)
    requires PlainUpTo(actions, lower, i) && PressedUpTo(actions, i) && (actions[i].onRelease ==> i == 0)
    ensures PhasesFromText(SplitTopLevel(" " + ActionsText(actions, lower) + "\n", ';')) == None
  {
    hide AreReadable, IsMistaken, PlainUpTo, ActionsText, TextBefore, PhasesFromText, Parts, IsBadHead, LeadsIn;
    var head, more := MistakenHead(actions, lower, i);
    var text := ActionsText(actions, lower);
    assert " " + text + "\n" == " " + (text + "\n");
    if actions[i].onRelease {
      NothingBefore(actions, lower);
      BadReleaseFails(head, more);
      assert " " + (text + "\n") == " ;" + (head + "," + more);
    } else {
      BeforeLeadsIn(actions, lower, i);
      BadPressFails(" " + TextBefore(actions, lower, i), head, more);
      assert " " + (text + "\n") == " " + TextBefore(actions, lower, i) + (head + "," + more);
    }
  }

  // ---------------------------------------------------------------------------
  // Exactly the hotkeys that survive
  // ---------------------------------------------------------------------------

  lemma ReadableArePrintable(actions: seq<Action>, lower: LowerCase)
    requires AreReadable(actions, lower)
    ensures ArePrintable(actions)
  {
    forall i | 0 <= i < |actions|
      ensures IsPrintable(actions[i])
    {
      ReadableIsPrintable(actions[i], lower);
    }
  }

  lemma PlainUnlessMistaken(actions: seq<Action>, lower: LowerCase, i: nat)
    requires AreReadable(actions, lower) && i < |actions| && !IsMistaken(actions, i)
    ensures IsWholeAction(actions[i], lower) && (i + 1 < |actions| ==> IsPlainAction(actions[i], lower))
  {
    hide IsReadableAction, NamesLack, IsWholeAction, IsPlainAction;
    WithoutParentheses(actions[i], lower);
  }

  predicate IsTrouble(actions: seq<Action>, i: nat)
    requires i < |actions|
  {
    IsMistaken(actions, i) || actions[i].onRelease
  }

  lemma {:induction false} LeastTrouble(actions: seq<Action>, from: nat, some: nat) returns (least: nat)
    requires from <= some < |actions| && IsTrouble(actions, some)
    ensures from <= least <= some && IsTrouble(actions, least)
    ensures forall k :: from <= k < least ==> !IsTrouble(actions, k)
    decreases some - from
  {
    if IsTrouble(actions, from) {
      least := from;
    } else {
      least := LeastTrouble(actions, from + 1, some);
    }
  }

  lemma TroubleFails(actions: seq<Action>, lower: LowerCase, i: nat)
    requires AreReadable(actions, lower) && ArePrintable(actions) && i < |actions| && IsTrouble(actions, i)
    requires PlainUpTo(actions, lower, i) && PressedUpTo(actions, i)
    requires |actions| > 1 || IsMistaken(actions, i)
    ensures PhasesFromText(SplitTopLevel(" " + ActionsText(actions, lower) + "\n", ';')) != Some(AllCleared(actions))
  {
    hide AreReadable, IsMistaken, PlainUpTo, ActionsText, PhasesFromText, Parts, ArePrintable, IsWholeAction,
         IsPlainAction;
    if actions[i].onRelease && i > 0 {
      ReleaseAfterOthersFails(actions, lower, i);
    } else if IsMistaken(actions, i) {
      MistakenFails(actions, lower, i);
    } else if actions[1].onRelease {
      PlainUnlessMistaken(actions, lower, 0);
      assert PlainUpTo(actions, lower, 1) by { OnlyFirst(actions, lower); }
      ReleaseAfterOthersFails(actions, lower, 1);
    } else {
      ReleaseFirstSpreads(actions, lower);
      assert !AllCleared(actions)[1].onRelease;
    }
  }

  lemma OnlyFirst(actions: seq<Action>, lower: LowerCase)
    requires actions != [] && IsPlainAction(actions[0], lower)
    ensures PlainUpTo(actions, lower, 1)
  {
  }

  lemma ActionsExactly(actions: seq<Action>, lower: LowerCase)
    requires AreReadable(actions, lower) && actions != []
    ensures ArePrintable(actions)
    ensures PhasesFromText(SplitTopLevel(" " + ActionsText(actions, lower) + "\n", ';')) == Some(AllCleared(actions))
            <==> (AllInPhase(actions, false) || |actions| == 1) && NoneMistaken(actions)
  {
    hide AreReadable, IsMistaken, ActionsText, PhasesFromText, Parts, IsWholeAction, IsPlainAction, IsPrintable;
    ReadableArePrintable(actions, lower);
    forall i | 0 <= i < |actions| && !IsMistaken(actions, i)
      ensures IsWholeAction(actions[i], lower) && (i + 1 < |actions| ==> IsPlainAction(actions[i], lower))
    {
      PlainUnlessMistaken(actions, lower, i);
    }
    if NoneMistaken(actions) {
      ActionsRoundTrip(actions, lower);
    } else {
      var some: nat :| some < |actions| && IsMistaken(actions, some);
      var i := LeastTrouble(actions, 0, some);
      forall k: nat | k < i
        ensures !IsMistaken(actions, k) && !actions[k].onRelease
      {
        assert !IsTrouble(actions, k);
      }
      TroubleFails(actions, lower, i);
    }
  }

  /**
    A printed hotkey is read back, up to what its actions have no use for, if and only if its trigger is
    not on "=", none of its actions is on release unless it is the only one, none is on ")", and none
    but the last is on "(".
  */
  lemma HotkeyExactly(hotkey: Hotkey, lower: LowerCase)
    requires IsReadableHotkey(hotkey, lower)
    ensures ArePrintable(hotkey.actions)
    ensures HotkeyFromText(HotkeyText(hotkey, lower)) == Some(Hotkey(hotkey.sequence, AllCleared(hotkey.actions)))
            <==> && !IsOnEquals(hotkey.sequence)
                 && (AllInPhase(hotkey.actions, false) || |hotkey.actions| == 1)
                 && NoneMistaken(hotkey.actions)
  {
    hide IsReadable, AreReadable, ActionsText, PhasesFromText, Condition, ConditionFromText, Trim, FirstOf, Parts,
         AllInPhase, NoneMistaken;
    ReadableArePrintable(hotkey.actions, lower);
    if IsOnEquals(hotkey.sequence) {
      EqualsTriggerFails(hotkey, lower);
    } else {
      var rest := ActionsText(hotkey.actions, lower) + "\n";
      ConditionIsPlain(hotkey.sequence, lower);
      ConditionIsFound(hotkey.sequence, lower, rest);
      ConditionRoundTrip(hotkey.sequence, lower);
      ActionsExactly(hotkey.actions, lower);
      assert HotkeyText(hotkey, lower) == "\t" + Condition(hotkey.sequence, lower) + " = " + rest;
      assert " " + ActionsText(hotkey.actions, lower) + "\n" == " " + rest;
    }
  }

  lemma ConditionIsPlain(sequence: KeySequence, lower: LowerCase)
    requires IsReadable(sequence, sequence.IsMouseButton(), lower) && !IsOnEquals(sequence)
    ensures IsPlainCondition(sequence, lower)
  {
    hide IsReadableKey;
    BuiltHasKeys(sequence, sequence.IsMouseButton());
  }

  lemma {:induction false} ClearedAreThemselves(actions: seq<Action>)
    requires AreBuilt(actions)
    ensures AllCleared(actions) == actions
  {
    hide IsPrintable, IsBuilt;
    if actions != [] {
      ClearedAreThemselves(actions[1..]);
    }
  }

  /** For hotkeys that come from text, printing and parsing is then the identity. */
  lemma ParsedHotkeySurvives(text: string, lower: LowerCase)
    requires HotkeyFromText(text).Some? && IsReadableHotkey(HotkeyFromText(text).value, lower)
    ensures var hotkey := HotkeyFromText(text).value;
            && ArePrintable(hotkey.actions)
            && (HotkeyFromText(HotkeyText(hotkey, lower)) == Some(hotkey)
                <==> && !IsOnEquals(hotkey.sequence)
                     && (AllInPhase(hotkey.actions, false) || |hotkey.actions| == 1)
                     && NoneMistaken(hotkey.actions))
  {
    hide HotkeyFromText, HotkeyText, IsReadableHotkey, InPhases, AreBuilt, ArePrintable;
    var hotkey := HotkeyFromText(text).value;
    ParsedHotkeyIsBuilt(text);
    ClearedAreThemselves(hotkey.actions);
    HotkeyExactly(hotkey, lower);
  }

  /** F1 toggles the screen when it is pressed, and again when it is released. */
  lemma PressThenReleaseIsNotRead(lower: LowerCase)
    ensures var toggle := DEFAULT.(kind := TOGGLE_SCREEN);
            var hotkey := Hotkey(KeySequence([F1], {}, true), [toggle, toggle.(onRelease := true)]);
            ArePrintable(hotkey.actions) && HotkeyFromText(HotkeyText(hotkey, lower)) == None
  {
    hide HotkeyText, NameOfKey, PhasesFromText, Parts, ActionsText, Text, Condition, ConditionFromText, Trim, FirstOf;
    var toggle := DEFAULT.(kind := TOGGLE_SCREEN);
    var sequence, actions := KeySequence([F1], {}, true), [toggle, toggle.(onRelease := true)];
    assert IsReadable(sequence, false, lower);
    assert !sequence.IsMouseButton();
    assert PlainUpTo(actions, lower, 1);
    ReleaseAfterOthersFails(actions, lower, 1);
    var rest := ActionsText(actions, lower) + "\n";
    ConditionIsPlain(sequence, lower);
    ConditionIsFound(sequence, lower, rest);
    TextIs(Hotkey(sequence, actions), lower);
    assert " " + ActionsText(actions, lower) + "\n" == " " + rest;
  }

  lemma TextIs(hotkey: Hotkey, lower: LowerCase)
    requires ArePrintable(hotkey.actions) && hotkey.actions != []
    ensures HotkeyText(hotkey, lower)
            == "\t" + Condition(hotkey.sequence, lower) + " = " + (ActionsText(hotkey.actions, lower) + "\n")
  {
    hide Condition, ActionsText;
  }
}
