/** Trimming, splitting and joining texts. */
module Texts {

  predicate IsSpace(c: char) {
    var u := c as int;
    || 0x09 <= u <= 0x0D || u == 0x20 || u == 0x85 || u == 0xA0 || u == 0x1680
    || 0x2000 <= u <= 0x200A || u == 0x2028 || u == 0x2029 || u == 0x202F || u == 0x205F || u == 0x3000
  }

  predicate AllSpaces(text: string) {
    forall i :: 0 <= i < |text| ==> IsSpace(text[i])
  }

  predicate IsTrimmed(text: string) {
    text != "" ==> !IsSpace(text[0]) && !IsSpace(text[|text| - 1])
  }

  function TrimLeft(text: string): string {
    if text != "" && IsSpace(text[0]) then TrimLeft(text[1..]) else text
  }

  function TrimRight(text: string): string {
    if text != "" && IsSpace(text[|text| - 1]) then TrimRight(text[..|text| - 1]) else text
  }

  function Trim(text: string): string {
    TrimRight(TrimLeft(text))
  }

  lemma {:induction false} TrimLeftOf(before: string, text: string)
    requires AllSpaces(before) && (text != "" ==> !IsSpace(text[0]))
    ensures TrimLeft(before + text) == text
  {
    if before == "" {
      assert before + text == text;
    } else {
      assert (before + text)[1..] == before[1..] + text;
      TrimLeftOf(before[1..], text);
    }
  }

  lemma {:induction false} TrimRightOf(text: string, after: string)
    requires AllSpaces(after) && (text != "" ==> !IsSpace(text[|text| - 1]))
    ensures TrimRight(text + after) == text
  {
    if after == "" {
      assert text + after == text;
    } else {
      var all := text + after;
      assert all[..|all| - 1] == text + after[..|after| - 1];
      TrimRightOf(text, after[..|after| - 1]);
    }
  }

  lemma TrimOf(before: string, text: string, after: string)
    requires AllSpaces(before) && AllSpaces(after) && IsTrimmed(text) && text != ""
    ensures Trim(before + text + after) == text
  {
    assert before + text + after == before + (text + after);
    TrimLeftOf(before, text + after);
    TrimRightOf(text, after);
  }

  lemma {:induction false} TrimLeftKeeps(text: string)
    ensures TrimLeft(text) == "" <==> AllSpaces(text)
    ensures TrimLeft(text) != "" ==> !IsSpace(TrimLeft(text)[0])
  {
    if text != "" && IsSpace(text[0]) {
      TrimLeftKeeps(text[1..]);
      assert forall i :: 0 < i < |text| ==> text[i] == text[1..][i - 1];
    }
  }

  lemma {:induction false} TrimRightKeeps(text: string)
    requires text != "" && !IsSpace(text[0])
    ensures TrimRight(text) != ""
  {
    if IsSpace(text[|text| - 1]) {
      TrimRightKeeps(text[..|text| - 1]);
    }
  }

  /** Only white space is trimmed to nothing. */
  lemma TrimIsBlank(text: string)
    ensures Trim(text) == "" <==> AllSpaces(text)
  {
    TrimLeftKeeps(text);
    if TrimLeft(text) != "" {
      TrimRightKeeps(TrimLeft(text));
    }
  }

  lemma TrimTrimmed(text: string)
    requires IsTrimmed(text)
    ensures Trim(text) == text
  {
    if text != "" {
      assert "" + text + "" == text;
      TrimOf("", text, "");
    }
  }

  // ---------------------------------------------------------------------------
  // Splitting
  // ---------------------------------------------------------------------------

  /** How deep in parentheses the text is after a character, if those count. */
  function Deeper(c: char, nested: bool, depth: int): int {
    if !nested then depth else if c == '(' then depth + 1 else if c == ')' then depth - 1 else depth
  }

  function DepthAfter(text: string, nested: bool, depth: int): int {
    if text == "" then depth else DepthAfter(text[1..], nested, Deeper(text[0], nested, depth))
  }

  /** The text is cut before this character: a separator that no parenthesis holds, if those count. */
  predicate IsCut(c: char, separator: char, nested: bool, depth: int) {
    c == separator && (nested ==> c != '(' && c != ')' && depth == 0)
  }

  /** The parts of a text with one more character in front of it. */
  function WithFirst(c: char, cut: bool, parts: seq<string>): (parts': seq<string>)
    requires parts != []
    ensures parts' != []
  {
    if cut then [""] + parts else [[c] + parts[0]] + parts[1..]
  }

  lemma WithFirstOfBoth(c: char, cut: bool, parts: seq<string>, more: seq<string>)
    requires parts != []
    ensures WithFirst(c, cut, parts + more) == WithFirst(c, cut, parts) + more
  {
    assert (parts + more)[1..] == parts[1..] + more;
  }

  /** The parts between separators; with `nested`, only between those outside parentheses. */
  function Parts(text: string, separator: char, nested: bool, depth: int): (parts: seq<string>)
    ensures parts != []
  {
    if text == "" then [""]
    else
      WithFirst(text[0], IsCut(text[0], separator, nested, depth),
                Parts(text[1..], separator, nested, Deeper(text[0], nested, depth)))
  }

  function Split(text: string, separator: char): (parts: seq<string>)
    ensures parts != []
  {
    Parts(text, separator, false, 0)
  }

  function SplitTopLevel(text: string, separator: char): (parts: seq<string>)
    ensures parts != []
  {
    Parts(text, separator, true, 0)
  }

  function Join(parts: seq<string>, separator: string): string
    requires parts != []
  {
    if |parts| == 1 then parts[0] else parts[0] + separator + Join(parts[1..], separator)
  }

  /** The text is not cut anywhere. */
  predicate IsWhole(text: string, separator: char, nested: bool, depth: int) {
    text != "" ==>
      !IsCut(text[0], separator, nested, depth) && IsWhole(text[1..], separator, nested, Deeper(text[0], nested, depth))
  }

  lemma {:induction false} WholeText(text: string, separator: char, nested: bool, depth: int)
    requires IsWhole(text, separator, nested, depth)
    ensures Parts(text, separator, nested, depth) == [text]
  {
    if text != "" {
      WholeText(text[1..], separator, nested, Deeper(text[0], nested, depth));
      assert [text[0]] + text[1..] == text;
    }
  }

  lemma SplitAtOnce(separator: char, nested: bool, depth: int, rest: string)
    requires separator != '(' && separator != ')' && (nested ==> depth == 0)
    ensures Parts([separator] + rest, separator, nested, depth)
            == Parts("", separator, nested, depth) + Parts(rest, separator, nested, depth)
  {
    assert ([separator] + rest)[1..] == rest;
  }

  /** A separator outside all parentheses splits the text in two that are split on their own. */
  lemma {:induction false} SplitInTwo(text: string, separator: char, nested: bool, depth: int, rest: string)
    requires separator != '(' && separator != ')'
    requires nested ==> DepthAfter(text, nested, depth) == 0
    ensures Parts(text + [separator] + rest, separator, nested, depth)
            == Parts(text, separator, nested, depth) + Parts(rest, separator, nested, DepthAfter(text, nested, depth))
  {
    hide WithFirst;
    var all := text + [separator] + rest;
    if text == "" {
      SplitAtOnce(separator, nested, depth, rest);
      assert all == [separator] + rest;
    } else {
      assert all[0] == text[0] && all[1..] == text[1..] + [separator] + rest;
      var depth' := Deeper(text[0], nested, depth);
      SplitInTwo(text[1..], separator, nested, depth', rest);
      WithFirstOfBoth(text[0], IsCut(text[0], separator, nested, depth), Parts(text[1..], separator, nested, depth'),
                      Parts(rest, separator, nested, DepthAfter(text, nested, depth)));
    }
  }

  /** A whole text that ends outside all parentheses, and a separator, are split off. */
  lemma FirstPart(text: string, separator: char, nested: bool, depth: int, rest: string)
    requires IsWhole(text, separator, nested, depth) && separator != '(' && separator != ')'
    requires nested ==> DepthAfter(text, nested, depth) == 0
    ensures Parts(text + [separator] + rest, separator, nested, depth)
            == [text] + Parts(rest, separator, nested, DepthAfter(text, nested, depth))
  {
    SplitInTwo(text, separator, nested, depth, rest);
    WholeText(text, separator, nested, depth);
  }

  lemma {:induction false} DepthOfBoth(a: string, b: string, nested: bool, depth: int)
    ensures DepthAfter(a + b, nested, depth) == DepthAfter(b, nested, DepthAfter(a, nested, depth))
  {
    if a == "" {
      assert a + b == b;
    } else {
      assert (a + b)[1..] == a[1..] + b;
      DepthOfBoth(a[1..], b, nested, Deeper(a[0], nested, depth));
    }
  }

  lemma {:induction false} WholeOfBoth(a: string, b: string, separator: char, nested: bool, depth: int)
    ensures IsWhole(a + b, separator, nested, depth)
            <==> IsWhole(a, separator, nested, depth) && IsWhole(b, separator, nested, DepthAfter(a, nested, depth))
  {
    if a == "" {
      assert a + b == b;
    } else {
      assert (a + b)[1..] == a[1..] + b;
      WholeOfBoth(a[1..], b, separator, nested, Deeper(a[0], nested, depth));
    }
  }

  predicate Lacks(text: string, c: char) {
    forall i :: 0 <= i < |text| ==> text[i] != c
  }

  predicate LacksParentheses(text: string) {
    Lacks(text, '(') && Lacks(text, ')')
  }

  lemma {:induction false} WholeWithout(text: string, separator: char, nested: bool, depth: int)
    requires Lacks(text, separator)
    ensures IsWhole(text, separator, nested, depth)
  {
    if text != "" {
      WholeWithout(text[1..], separator, nested, Deeper(text[0], nested, depth));
    }
  }

  lemma {:induction false} WholeInside(text: string, separator: char, depth: int)
    requires Lacks(text, ')') && depth > 0
    ensures IsWhole(text, separator, true, depth)
  {
    if text != "" {
      WholeInside(text[1..], separator, Deeper(text[0], true, depth));
    }
  }

  lemma {:induction false} DepthWithout(text: string, nested: bool, depth: int)
    requires nested ==> LacksParentheses(text)
    ensures DepthAfter(text, nested, depth) == depth
  {
    if text != "" {
      DepthWithout(text[1..], nested, depth);
    }
  }

  /** Splitting loses no text. */
  lemma {:induction false} JoinOfParts(text: string, separator: char, nested: bool, depth: int)
    ensures Join(Parts(text, separator, nested, depth), [separator]) == text
  {
    if text != "" {
      var parts := Parts(text[1..], separator, nested, Deeper(text[0], nested, depth));
      JoinOfParts(text[1..], separator, nested, Deeper(text[0], nested, depth));
      if IsCut(text[0], separator, nested, depth) {
        assert ([""] + parts)[1..] == parts;
      } else {
        var parts' := [[text[0]] + parts[0]] + parts[1..];
        assert parts'[1..] == parts[1..];
        if |parts| > 1 {
          assert [text[0]] + (parts[0] + [separator] + Join(parts[1..], [separator]))
              == [text[0]] + parts[0] + [separator] + Join(parts[1..], [separator]);
        }
      }
    }
  }

  /** No part holds a separator outside parentheses, and all but the last end outside parentheses. */
  predicate AreTopLevel(parts: seq<string>, separator: char, depth: int)
    requires parts != []
  {
    && IsWhole(parts[0], separator, true, depth)
    && (|parts| > 1 ==> DepthAfter(parts[0], true, depth) == 0 && AreTopLevel(parts[1..], separator, 0))
  }

  /** The text is cut at every separator outside parentheses, and nowhere else. */
  lemma {:induction false} CutsAtTopLevel(text: string, separator: char, depth: int)
    requires separator != '(' && separator != ')'
    ensures AreTopLevel(Parts(text, separator, true, depth), separator, depth)
  {
    if text != "" {
      var depth' := Deeper(text[0], true, depth);
      var parts := Parts(text[1..], separator, true, depth');
      CutsAtTopLevel(text[1..], separator, depth');
      if IsCut(text[0], separator, true, depth) {
        assert ([""] + parts)[1..] == parts;
      } else {
        var first := [text[0]] + parts[0];
        assert first[0] == text[0] && first[1..] == parts[0];
        assert ([first] + parts[1..])[1..] == parts[1..];
      }
    }
  }

  /** The parts are whole, and all but the last end outside all parentheses. */
  predicate AreWhole(parts: seq<string>, separator: char, nested: bool) {
    forall k :: 0 <= k < |parts| ==>
      IsWhole(parts[k], separator, nested, 0) && (k + 1 < |parts| ==> DepthAfter(parts[k], nested, 0) == 0)
  }

  /** What splitting gives is whole: between the cuts there is none. */
  lemma {:induction false} PartsAreWhole(text: string, separator: char, nested: bool, depth: int)
    requires separator != '(' && separator != ')' && (!nested ==> depth == 0)
    ensures var parts := Parts(text, separator, nested, depth);
            && IsWhole(parts[0], separator, nested, depth)
            && (|parts| > 1 ==> DepthAfter(parts[0], nested, depth) == 0 && AreWhole(parts[1..], separator, nested))
  {
    if text != "" {
      var depth' := Deeper(text[0], nested, depth);
      var parts := Parts(text[1..], separator, nested, depth');
      PartsAreWhole(text[1..], separator, nested, depth');
      if IsCut(text[0], separator, nested, depth) {
        assert ([""] + parts)[1..] == parts;
        FirstAndRestAreWhole(parts, separator, nested);
      } else {
        var first := [text[0]] + parts[0];
        assert first[0] == text[0] && first[1..] == parts[0];
        assert ([first] + parts[1..])[1..] == parts[1..];
      }
    }
  }

  lemma FirstAndRestAreWhole(parts: seq<string>, separator: char, nested: bool)
    requires parts != [] && IsWhole(parts[0], separator, nested, 0)
    requires |parts| > 1 ==> DepthAfter(parts[0], nested, 0) == 0 && AreWhole(parts[1..], separator, nested)
    ensures AreWhole(parts, separator, nested)
  {
    hide IsWhole, DepthAfter;
    assert forall k :: 0 < k < |parts| ==> parts[k] == parts[1..][k - 1];
  }

  /** Splitting gives the one sequence of whole parts that joined with separators are the text. */
  lemma SplitExactly(text: string, separator: char, nested: bool, parts: seq<string>)
    requires parts != [] && separator != '(' && separator != ')'
    ensures Parts(text, separator, nested, 0) == parts
            <==> Join(parts, [separator]) == text && AreWhole(parts, separator, nested)
  {
    hide Parts, Join, AreWhole;
    if Parts(text, separator, nested, 0) == parts {
      JoinOfParts(text, separator, nested, 0);
      PartsAreWhole(text, separator, nested, 0);
      FirstAndRestAreWhole(parts, separator, nested);
    }
    if Join(parts, [separator]) == text && AreWhole(parts, separator, nested) {
      PartsOfJoin(parts, separator, nested);
    }
  }

  lemma {:induction false} WholeIsLacking(text: string, separator: char)
    ensures IsWhole(text, separator, false, 0) <==> Lacks(text, separator)
    ensures DepthAfter(text, false, 0) == 0
  {
    if text != "" {
      WholeIsLacking(text[1..], separator);
      assert forall i :: 0 < i < |text| ==> text[i] == text[1..][i - 1];
    }
  }

  lemma LackingAreWhole(parts: seq<string>, separator: char)
    ensures AreWhole(parts, separator, false) <==> forall k :: 0 <= k < |parts| ==> Lacks(parts[k], separator)
  {
    hide IsWhole, DepthAfter, Lacks;
    forall k | 0 <= k < |parts|
      ensures IsWhole(parts[k], separator, false, 0) <==> Lacks(parts[k], separator)
      ensures DepthAfter(parts[k], false, 0) == 0
    {
      WholeIsLacking(parts[k], separator);
    }
  }

  /** Joined parts that a split would leave whole are split again. */
  lemma {:induction false} PartsOfJoin(parts: seq<string>, separator: char, nested: bool)
    requires parts != [] && separator != '(' && separator != ')'
    requires AreWhole(parts, separator, nested)
    ensures Parts(Join(parts, [separator]), separator, nested, 0) == parts
  {
    WholeText(parts[0], separator, nested, 0);
    if |parts| > 1 {
      FirstPart(parts[0], separator, nested, 0, Join(parts[1..], [separator]));
      PartsOfJoin(parts[1..], separator, nested);
    }
  }

  // ---------------------------------------------------------------------------
  // Parts of a text in two pieces
  // ---------------------------------------------------------------------------

  /** The last part of one text continues in the first part of the other. */
  function Glued(a: seq<string>, b: seq<string>): (parts: seq<string>)
    requires a != [] && b != []
    ensures |parts| == |a| + |b| - 1 && parts[|a| - 1] == a[|a| - 1] + b[0]
  {
    a[..|a| - 1] + [a[|a| - 1] + b[0]] + b[1..]
  }

  lemma WithFirstOfGlued(c: char, cut: bool, a: seq<string>, b: seq<string>)
    requires a != [] && b != []
    ensures WithFirst(c, cut, Glued(a, b)) == Glued(WithFirst(c, cut, a), b)
  {
    var front := WithFirst(c, cut, a);
    if cut {
      assert front == [""] + a && Glued(front, b) == [""] + Glued(a, b);
    } else if |a| == 1 {
      assert front == [[c] + a[0]] && [c] + (a[0] + b[0]) == [c] + a[0] + b[0];
    } else {
      assert front == [[c] + a[0]] + a[1..] && Glued(a, b)[0] == a[0];
      assert Glued(a, b)[1..] == a[1..|a| - 1] + [a[|a| - 1] + b[0]] + b[1..];
      assert front[..|front| - 1] == [[c] + a[0]] + a[1..|a| - 1] && front[|front| - 1] == a[|a| - 1];
    }
  }

  /** Splitting goes on where it is after the first piece. */
  lemma {:induction false} PartsOfBoth(a: string, b: string, separator: char, nested: bool, depth: int)
    ensures Parts(a + b, separator, nested, depth)
            == Glued(Parts(a, separator, nested, depth), Parts(b, separator, nested, DepthAfter(a, nested, depth)))
  {
    hide WithFirst, Glued;
    if a == "" {
      assert a + b == b;
      GluedToNothing(Parts(b, separator, nested, depth));
    } else {
      var depth' := Deeper(a[0], nested, depth);
      assert (a + b)[0] == a[0] && (a + b)[1..] == a[1..] + b;
      PartsOfBoth(a[1..], b, separator, nested, depth');
      WithFirstOfGlued(a[0], IsCut(a[0], separator, nested, depth), Parts(a[1..], separator, nested, depth'),
                       Parts(b, separator, nested, DepthAfter(a, nested, depth)));
    }
  }

  lemma GluedToNothing(parts: seq<string>)
    requires parts != []
    ensures Glued([""], parts) == parts
  {
    assert "" + parts[0] == parts[0];
  }

  lemma GluedToOne(text: string, parts: seq<string>)
    requires parts != []
    ensures Glued([text], parts)[0] == text + parts[0]
  {
  }

  /** Trimming the end leaves alone whatever is followed by something else than white space. */
  lemma {:induction false} TrimRightOfBoth(front: string, text: string)
    requires front != "" && !IsSpace(front[|front| - 1])
    ensures TrimRight(front + text) == front + TrimRight(text)
    decreases |text|
  {
    if text == "" {
      assert front + text == front;
    } else {
      var all, last := front + text, text[|text| - 1];
      assert all[|all| - 1] == last && all[..|all| - 1] == front + text[..|text| - 1];
      if IsSpace(last) {
        TrimRightOfBoth(front, text[..|text| - 1]);
      }
    }
  }

  lemma TrimOfBoth(before: string, front: string, text: string)
    requires AllSpaces(before) && front != "" && !IsSpace(front[0]) && !IsSpace(front[|front| - 1])
    ensures Trim(before + front + text) == front + TrimRight(text)
  {
    assert before + front + text == before + (front + text);
    TrimLeftOf(before, front + text);
    TrimRightOfBoth(front, text);
  }
}
