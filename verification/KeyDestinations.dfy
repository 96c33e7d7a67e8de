/**
  The screens that a key event is meant for, kept as one string: each name between colons, "*" for
  all screens and the empty string for none in particular. Strings here hold no NUL.
*/
module KeyDestinations {
  const ALL: string := "*"

  predicate ColonFree(name: string) {
    forall i :: 0 <= i < |name| ==> name[i] != ':'
  }

  predicate AllColonFree(names: seq<string>) {
    forall i :: 0 <= i < |names| ==> ColonFree(names[i])
  }

  /** The names, each followed by a colon. */
  function Closed(names: seq<string>): string {
    if names == [] then "" else names[0] + ":" + Closed(names[1..])
  }

  function Join(destinations: seq<string>): string {
    if ALL in destinations then ALL else if destinations == [] then "" else ":" + Closed(destinations)
  }

  function FirstColon(text: string): (position: nat)
    ensures position <= |text| && ColonFree(text[..position])
    ensures position < |text| ==> text[position] == ':'
  {
    if text == "" || text[0] == ':' then 0 else 1 + FirstColon(text[1..])
  }

  /** The names that a string of closed names holds; a rest without a colon is not a name. */
  function Names(text: string): seq<string>
    decreases |text|
  {
    var j := FirstColon(text);
    if j == |text| then [] else [text[..j]] + Names(text[j + 1..])
  }

  /** strstr finds the pattern. */
  ghost predicate Occurs(text: string, pattern: string) {
    exists i: nat :: OccursAt(text, pattern, i)
  }

  predicate OccursAt(text: string, pattern: string, i: nat) {
    i + |pattern| <= |text| && text[i..i + |pattern|] == pattern
  }

  /** What the two readers demand of a string that they did not make themselves. */
  predicate IsClosed(screens: string) {
    |screens| <= 1 || screens[0] == '*' || screens[|screens| - 1] == ':'
  }

  predicate IsDefault(screens: string) {
    screens == ""
  }

  ghost predicate Contains(screens: string, name: string) {
    !IsDefault(screens) && (screens[0] == '*' || Occurs(screens, ":" + name + ":"))
  }

  function Split(screens: string): set<string> {
    if IsDefault(screens) then {}
    else if screens[0] == '*' then {ALL}
    else Listed(Names(screens[1..]))
  }

  function Listed(names: seq<string>): set<string> {
    set n | n in names
  }

  // ---------------------------------------------------------------------------
  // Splitting undoes joining
  // ---------------------------------------------------------------------------

  lemma {:induction false} FirstColonAfter(name: string, rest: string)
    requires ColonFree(name)
    ensures FirstColon(name + ":" + rest) == |name|
  {
    var text := name + ":" + rest;
    if name != "" {
      assert text[0] == name[0] && text[1..] == name[1..] + ":" + rest;
      FirstColonAfter(name[1..], rest);
    }
  }

  lemma {:induction false} NamesOfClosed(names: seq<string>)
    requires AllColonFree(names)
    ensures Names(Closed(names)) == names
  {
    if names != [] {
      FirstColonAfter(names[0], Closed(names[1..]));
      NamesOfClosed(names[1..]);
      assert Closed(names)[..|names[0]|] == names[0];
      assert Closed(names)[|names[0]| + 1..] == Closed(names[1..]);
    }
  }

  lemma {:induction false} NamesAreColonFree(text: string)
    ensures AllColonFree(Names(text))
    decreases |text|
  {
    if FirstColon(text) < |text| {
      NamesAreColonFree(text[FirstColon(text) + 1..]);
    }
  }

  /** Joining and splitting gives the destinations back if and only if no name has a colon in it. */
  lemma SplitOfJoin(destinations: seq<string>)
    ensures Split(Join(destinations)) == (if ALL in destinations then {ALL} else Listed(destinations))
            <==> ALL in destinations || AllColonFree(destinations)
  {
    if ALL !in destinations && destinations != [] {
      var screens := Join(destinations);
      assert screens[1..] == Closed(destinations);
      NamesAreColonFree(screens[1..]);
      if AllColonFree(destinations) {
        NamesOfClosed(destinations);
      } else {
        var i :| 0 <= i < |destinations| && !ColonFree(destinations[i]);
        assert destinations[i] in Listed(destinations) && destinations[i] !in Listed(Names(screens[1..]));
      }
    }
  }

  // ---------------------------------------------------------------------------
  // What searching finds
  // ---------------------------------------------------------------------------

  lemma {:induction false} ClosedEnds(names: seq<string>)
    requires names != []
    ensures var text := Closed(names); text != "" && text[|text| - 1] == ':'
  {
    if |names| > 1 {
      ClosedEnds(names[1..]);
    }
  }

  lemma ClosedFirst(name: string, names: seq<string>)
    ensures Closed([name] + names) == name + ":" + Closed(names)
  {
  }

  /** Text that ends in a colon is its names, closed. */
  lemma {:induction false} ClosedOfNames(text: string)
    requires text != "" ==> text[|text| - 1] == ':'
    ensures Closed(Names(text)) == text
    decreases |text|
  {
    hide Closed, Names, FirstColon;
    if text == "" {
      NothingClosedOrNamed();
    } else {
      var j := FirstColon(text);
      ColonIsLeft(text);
      NamesUnfold(text);
      ClosedOfNames(text[j + 1..]);
      ClosedFirst(text[..j], Names(text[j + 1..]));
      assert text == text[..j] + ":" + text[j + 1..];
    }
  }

  lemma NothingClosedOrNamed()
    ensures Closed([]) == "" && Names("") == []
  {
  }

  /** Two texts that begin with a colon-free name and a colon: one begins with the other exactly if their names do. */
  lemma FirstMatches(first: string, rest: string, name: string, more: string)
    requires ColonFree(first) && ColonFree(name)
    ensures name + ":" + more <= first + ":" + rest <==> name == first && more <= rest
  {
    var text, pattern := first + ":" + rest, name + ":" + more;
    assert text[|first|] == ':' && pattern[|name|] == ':';
    if |first| < |name| {
      assert pattern[|first|] == name[|first|];
    } else if |name| < |first| {
      assert text[|name|] == first[|name|];
    }
    if pattern <= text {
      assert forall k :: 0 <= k < |pattern| ==> text[k] == pattern[k];
      assert forall k :: 0 <= k < |name| ==> first[k] == text[k] && name[k] == pattern[k];
      assert name == first && more == pattern[|name| + 1..] && rest == text[|name| + 1..];
    }
    if name == first && more <= rest {
      assert text == pattern + rest[|more|..];
    }
  }

  lemma {:induction false} ClosedPrefix(names: seq<string>, part: seq<string>)
    requires AllColonFree(names) && AllColonFree(part)
    ensures Closed(part) <= Closed(names) <==> part <= names
  {
    if part != [] && names != [] {
      FirstMatches(names[0], Closed(names[1..]), part[0], Closed(part[1..]));
      ClosedPrefix(names[1..], part[1..]);
      assert part == [part[0]] + part[1..] && names == [names[0]] + names[1..];
    }
  }

  lemma SliceOfRest(text: string, from: nat, k: nat, length: nat)
    requires from + k + length <= |text|
    ensures text[from..][k..k + length] == text[from + k..from + k + length]
  {
  }

  /** A match beyond the first name is one in what follows it. */
  lemma MatchBeyondFirst(first: string, tail: string, rest: string, i: nat)
    requires ColonFree(first) && i > 0
    ensures OccursAt(":" + first + ":" + rest, ":" + tail, i)
            <==> i > |first| && OccursAt(":" + rest, ":" + tail, i - |first| - 1)
  {
    var text, pattern := ":" + first + ":" + rest, ":" + tail;
    assert text[|first| + 1..] == ":" + rest;
    if i <= |first| {
      assert text[i] == first[i - 1];
    }
    if i + |pattern| <= |text| {
      assert text[i..i + |pattern|][0] == text[i];
    }
    if i > |first| && i + |pattern| <= |text| {
      var k := i - |first| - 1;
      SliceOfRest(text, |first| + 1, k, |pattern|);
    }
  }

  /** The names occur in the others side by side, in order. */
  ghost predicate Within(part: seq<string>, names: seq<string>) {
    exists i: nat :: WithinAt(part, names, i)
  }

  predicate WithinAt(part: seq<string>, names: seq<string>, i: nat) {
    i + |part| <= |names| && names[i..i + |part|] == part
  }

  lemma WithinRest(part: seq<string>, names: seq<string>)
    requires names != []
    ensures Within(part, names) <==> part <= names || Within(part, names[1..])
  {
    if Within(part, names) {
      var i: nat :| WithinAt(part, names, i);
      if i > 0 {
        assert names[1..][i - 1..i - 1 + |part|] == names[i..i + |part|];
        assert WithinAt(part, names[1..], i - 1);
      }
    }
    if part <= names {
      assert WithinAt(part, names, 0);
    }
    if Within(part, names[1..]) {
      var i: nat :| WithinAt(part, names[1..], i);
      assert names[1..][i..i + |part|] == names[i + 1..i + 1 + |part|];
      assert WithinAt(part, names, i + 1);
    }
  }

  lemma OccursAtStart(text: string, tail: string)
    ensures OccursAt(":" + text, ":" + tail, 0) <==> tail <= text
  {
    var whole, pattern := ":" + text, ":" + tail;
    if tail <= text {
      assert whole[..|pattern|] == pattern;
    }
    if OccursAt(whole, pattern, 0) {
      assert whole[1..|pattern|] == pattern[1..] == tail;
      assert text[..|tail|] == tail;
    }
  }

  lemma OccursInRest(names: seq<string>, tail: string)
    requires AllColonFree(names) && names != []
    ensures Occurs(":" + Closed(names), ":" + tail)
            <==> tail <= Closed(names) || Occurs(":" + Closed(names[1..]), ":" + tail)
  {
    hide OccursAt, ColonFree;
    var first, rest, text, pattern := names[0], Closed(names[1..]), ":" + Closed(names), ":" + tail;
    assert text == ":" + first + ":" + rest;
    OccursAtStart(Closed(names), tail);
    forall i: nat | i > 0
      ensures OccursAt(text, pattern, i) <==> i > |first| && OccursAt(":" + rest, pattern, i - |first| - 1)
    {
      MatchBeyondFirst(first, tail, rest, i);
    }
    forall j: nat | OccursAt(":" + rest, pattern, j)
      ensures Occurs(text, pattern)
    {
      assert OccursAt(text, pattern, j + |first| + 1);
    }
  }

  /** Closed names occur in closed names if and only if they are some of them, side by side. */
  lemma {:induction false} OccursIfWithin(names: seq<string>, part: seq<string>)
    requires AllColonFree(names) && AllColonFree(part) && part != []
    ensures Occurs(":" + Closed(names), ":" + Closed(part)) <==> Within(part, names)
  {
    if names == [] {
      assert |Closed(part)| > 0;
    } else {
      OccursInRest(names, Closed(part));
      ClosedPrefix(names, part);
      OccursIfWithin(names[1..], part);
      WithinRest(part, names);
    }
  }

  /** The names that a destination adds to the joined string: itself, or what lies between its colons. */
  function Pieces(name: string): seq<string> {
    Names(name + ":")
  }

  /**
    Whatever the names: a search succeeds if and only if all screens are meant, or the pieces of the
    name are some of the pieces of the destinations, side by side.
  */
  lemma ContainsExactly(destinations: seq<string>, name: string)
    ensures Contains(Join(destinations), name)
            <==> ALL in destinations || Within(Pieces(name), Names(Closed(destinations)))
  {
    hide Names, FirstColon, Closed, Occurs, Within;
    var pieces := Pieces(name);
    NamesAreColonFree(name + ":");
    ClosedOfNames(name + ":");
    NothingClosedOrNamed();
    NothingIsWithin(pieces);
    if destinations != [] && ALL !in destinations {
      var names := Names(Closed(destinations));
      NamesAreColonFree(Closed(destinations));
      ClosedEnds(destinations);
      ClosedOfNames(Closed(destinations));
      OccursIfWithin(names, pieces);
      assert ":" + name + ":" == ":" + Closed(pieces);
    }
  }

  lemma NothingIsWithin(part: seq<string>)
    requires part != []
    ensures !Within(part, [])
  {
  }

  lemma PiecesOfColonFree(name: string)
    requires ColonFree(name)
    ensures Pieces(name) == [name]
  {
    assert Closed([name]) == name + ":";
    NamesOfClosed([name]);
  }

  lemma OneWithin(name: string, names: seq<string>)
    ensures Within([name], names) <==> name in names
  {
    if Within([name], names) {
      var i: nat :| WithinAt([name], names, i);
      assert names[i] == name;
    }
    if name in names {
      var i: nat :| i < |names| && names[i] == name;
      assert WithinAt([name], names, i);
    }
  }

  /** A colon-free name is found if and only if splitting the joined string gives it, or all screens. */
  lemma ContainsIfSplit(destinations: seq<string>, name: string)
    requires ColonFree(name)
    ensures Contains(Join(destinations), name) <==> ALL in destinations || name in Split(Join(destinations))
  {
    ContainsExactly(destinations, name);
    PiecesOfColonFree(name);
    OneWithin(name, Names(Closed(destinations)));
    if destinations != [] && ALL !in destinations {
      assert Join(destinations)[1..] == Closed(destinations);
    }
  }

  /** A name is found exactly when it is a destination or all screens are. */
  lemma ContainsOfJoin(destinations: seq<string>, name: string)
    requires AllColonFree(destinations) && ColonFree(name)
    ensures Contains(Join(destinations), name) <==> name in destinations || ALL in destinations
  {
    ContainsIfSplit(destinations, name);
    SplitOfJoin(destinations);
  }

  lemma NamesFirstOf(name: string, rest: string)
    requires ColonFree(name)
    ensures Names(name + ":" + rest) == [name] + Names(rest)
  {
    hide Names, FirstColon;
    var text := name + ":" + rest;
    FirstColonAfter(name, rest);
    NamesUnfold(text);
    assert text[..|name|] == name && text[|name| + 1..] == rest;
  }

  lemma {:induction false} NamesInTwo(name: string, rest: string)
    ensures Names(name + ":" + rest) == Names(name + ":") + Names(rest)
    decreases |name|
  {
    hide Names, FirstColon, ColonFree;
    var j := FirstColon(name);
    if j == |name| {
      assert name[..j] == name && name + ":" + "" == name + ":";
      NamesFirstOf(name, rest);
      NamesFirstOf(name, "");
      NothingClosedOrNamed();
    } else {
      var before, after := name[..j], name[j + 1..];
      assert name == before + ":" + after;
      assert name + ":" + rest == before + ":" + (after + ":" + rest) && name + ":" == before + ":" + (after + ":");
      NamesFirstOf(before, after + ":" + rest);
      NamesFirstOf(before, after + ":");
      NamesInTwo(after, rest);
    }
  }

  lemma {:induction false} PieceOfSome(destinations: seq<string>, name: string)
    ensures name in Names(Closed(destinations)) <==> exists d :: d in destinations && name in Pieces(d)
  {
    hide Names, FirstColon, Closed;
    if destinations == [] {
      NothingClosedOrNamed();
    } else {
      var first, rest := destinations[0], destinations[1..];
      assert destinations == [first] + rest;
      ClosedFirst(first, rest);
      NamesInTwo(first, Closed(rest));
      PieceOfSome(rest, name);
      assert Names(Closed(destinations)) == Pieces(first) + Names(Closed(rest));
      assert first in destinations && forall d :: d in rest ==> d in destinations;
    }
  }

  /** A colon-free name is found although it is no destination if and only if it is a piece of one with a colon. */
  lemma FoundByMistake(destinations: seq<string>, name: string)
    requires ColonFree(name) && ALL !in destinations && name !in destinations
    ensures Contains(Join(destinations), name)
            <==> exists d :: d in destinations && !ColonFree(d) && name in Pieces(d)
  {
    ContainsExactly(destinations, name);
    PiecesOfColonFree(name);
    OneWithin(name, Names(Closed(destinations)));
    PieceOfSome(destinations, name);
    forall d | d in destinations && name in Pieces(d)
      ensures !ColonFree(d)
    {
      if ColonFree(d) {
        PiecesOfColonFree(d);
        assert false;
      }
    }
  }

  /** With a colon in the name, a match may run across two names. */
  lemma ColonMatchesAcross()
    ensures Contains(Join(["a", "b"]), "a:b") && "a:b" !in ["a", "b"]
    ensures Contains(Join(["a:b"]), "b") && "b" !in ["a:b"]
  {
    assert Closed(["a", "b"]) == "a:b:" by { assert Closed(["b"]) == "b:"; }
    assert Closed(["a:b"]) == "a:b:";
    assert ":" + "a:b" + ":" == ":a:b:" && ":" + "b" + ":" == ":b:";
    assert OccursAt(":a:b:", ":a:b:", 0);
    assert OccursAt(":a:b:", ":b:", 2);
    assert Join(["a", "b"]) == ":a:b:" && Join(["a:b"]) == ":a:b:";
  }

  // ---------------------------------------------------------------------------
  // The operations
  // ---------------------------------------------------------------------------

  /** The destinations come in the order of the set that holds them. */
  method JoinDestinations(destinations: seq<string>) returns (screens: string)
    ensures screens == Join(destinations)
  {
    hide Join;
    screens := "";
    NothingJoined();
    for i := 0 to |destinations|
      invariant ALL !in destinations[..i]
      invariant screens == Join(destinations[..i])
    {
      assert destinations[..i + 1] == destinations[..i] + [destinations[i]];
      if destinations[i] == ALL {
        screens := ALL;
        AllDecides(destinations, i);
        return;
      }
      JoinSnoc(destinations[..i], destinations[i]);
      if screens == "" {
        screens := ":";
      }
      screens := screens + destinations[i];
      screens := screens + ":";
    }
    assert destinations[..|destinations|] == destinations;
  }

  lemma AllDecides(destinations: seq<string>, i: nat)
    requires i < |destinations| && destinations[i] == ALL
    ensures Join(destinations) == ALL
  {
  }

  lemma JoinSnoc(names: seq<string>, last: string)
    requires ALL !in names && last != ALL
    ensures ALL !in names + [last]
    ensures Join(names + [last]) == (if Join(names) == "" then ":" else Join(names)) + last + ":"
  {
    hide Closed;
    ClosedSnoc(names, last);
    if names == [] {
      NothingClosed();
    }
  }

  lemma NothingJoined()
    ensures Join([]) == ""
  {
  }

  lemma NothingClosed()
    ensures Closed([]) == ""
  {
  }

  lemma {:induction false} ClosedSnoc(names: seq<string>, last: string)
    ensures Closed(names + [last]) == Closed(names) + last + ":"
  {
    if names == [] {
      assert Closed([last]) == last + ":" + Closed([]);
    } else {
      assert (names + [last])[1..] == names[1..] + [last];
      ClosedSnoc(names[1..], last);
    }
  }

  method SplitScreens(screens: string) returns (destinations: set<string>)
    requires IsClosed(screens)
    ensures destinations == Split(screens)
  {
    hide Names, FirstColon, Listed;
    destinations := {};
    if IsDefault(screens) {
      return;
    }
    if screens[0] == '*' {
      return {ALL};
    }
    var i := 1;
    while i < |screens|
      invariant 1 <= i <= |screens|
      invariant destinations + Listed(Names(screens[i..])) == Split(screens)
    {
      var rest := screens[i..];
      var j := FirstColon(rest);
      ColonIsLeft(rest);
      NamesFirst(rest);
      assert rest[j + 1..] == screens[i + j + 1..];
      destinations := destinations + {rest[..j]};
      i := i + j + 1;
    }
    assert screens[i..] == "";
    NothingListed();
  }

  lemma {:induction false} ColonIsLeft(text: string)
    requires text != "" && text[|text| - 1] == ':'
    ensures FirstColon(text) < |text|
  {
    if text[0] != ':' {
      ColonIsLeft(text[1..]);
    }
  }

  lemma NothingListed()
    ensures Listed(Names("")) == {}
  {
  }

  lemma NamesFirst(text: string)
    requires FirstColon(text) < |text|
    ensures var j := FirstColon(text); Listed(Names(text)) == {text[..j]} + Listed(Names(text[j + 1..]))
  {
    hide Listed, Names, FirstColon;
    var j := FirstColon(text);
    NamesUnfold(text);
    ListedPrepended(text[..j], Names(text[j + 1..]));
  }

  lemma NamesUnfold(text: string)
    requires FirstColon(text) < |text|
    ensures var j := FirstColon(text); Names(text) == [text[..j]] + Names(text[j + 1..])
  {
    hide FirstColon;
  }

  lemma ListedPrepended(name: string, names: seq<string>)
    ensures Listed([name] + names) == {name} + Listed(names)
  {
  }
}
