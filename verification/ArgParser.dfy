/**
  Splitting a command line into arguments and assembling one from arguments. An argument with a
  space is written in double quotes; the splitter looks for pairs of quotes ahead of the spaces,
  and a search that fails starts over at the beginning and finds old pairs again.
*/
module ArgParser {
  import opened Options

  const QUOTE := '\"'
  const SPACE := ' '

  // ---------------------------------------------------------------------------
  // Strings
  // ---------------------------------------------------------------------------

  /** std::string::find of one character; None for npos. */
  function Find(s: string, c: char, start: nat): (r: Option<nat>)
    ensures r.Some? ==> start <= r.value < |s| && s[r.value] == c
    ensures r.Some? ==> forall i :: start <= i < r.value ==> s[i] != c
    ensures r.None? ==> forall i :: start <= i < |s| ==> s[i] != c
    decreases |s| - start
  {
    if start >= |s| then None
    else if s[start] == c then Some(start)
    else Find(s, c, start + 1)
  }

  lemma FindIs(s: string, c: char, start: nat, at: nat)
    requires start <= at < |s| && s[at] == c
    requires forall i :: start <= i < at ==> s[i] != c
    ensures Find(s, c, start) == Some(at)
  {
  }

  lemma FindNone(s: string, c: char, start: nat)
    requires forall i :: start <= i < |s| ==> s[i] != c
    ensures Find(s, c, start) == None
  {
  }

  // ---------------------------------------------------------------------------
  // Splitting
  // ---------------------------------------------------------------------------

  /** The positions of a pair of quotes; 0 and 0 after a search that failed. */
  datatype Quotes = Quotes(left: nat, right: nat)

  function SearchDoubleQuotes(s: string, start: nat): (q: Quotes)
    ensures s != "" ==> q.right < |s|
  {
    var left := Find(s, QUOTE, start);
    if left.None? then Quotes(0, 0)
    else
      var right := Find(s, QUOTE, left.value + 1);
      if right.None? then Quotes(0, 0) else Quotes(left.value, right.value)
  }

  function RemoveDoubleQuotes(arg: string): string {
    if arg == "" || arg[0] != QUOTE || arg[|arg| - 1] != QUOTE then arg
    else if |arg| == 1 then ""
    else arg[1..|arg| - 1]
  }

  /** The space is between the two quotes of the pair. */
  predicate Ignored(q: Quotes, space: nat) {
    q.left < space < q.right
  }

  /** The pair the splitter holds after a cut at p. */
  function AfterCut(s: string, q: Quotes, p: nat): (q': Quotes)
    requires s != "" && q.right < |s|
    ensures q'.right < |s|
  {
    if p > q.right then SearchDoubleQuotes(s, q.right + 1) else q
  }

  /**
    The stretches the splitter cuts s[start..] into when it has found the pair q and the next
    space, before quotes are removed.
  */
  function Pieces(s: string, q: Quotes, start: nat, space: Option<nat>): (ps: seq<string>)
    requires start <= |s| && s != "" && q.right < |s|
    requires space.Some? ==> start <= space.value < |s|
    ensures ps != []
    decreases if space.Some? then |s| - space.value else 0
  {
    if space.None? then [s[start..]]
    else if Ignored(q, space.value) then
      Pieces(s, q, start, Find(s, SPACE, q.right + 1))
    else
      var p := space.value;
      [s[start..p]] + Pieces(s, AfterCut(s, q, p), p + 1, Find(s, SPACE, p + 1))
  }

  function Unquoted(ps: seq<string>): (args: seq<string>)
    ensures |args| == |ps|
    decreases |ps|
  {
    if ps == [] then [] else [RemoveDoubleQuotes(ps[0])] + Unquoted(ps[1..])
  }

  function Split(command: string): seq<string> {
    if command == "" then []
    else Unquoted(Pieces(command, SearchDoubleQuotes(command, 0), 0, Find(command, SPACE, 0)))
  }

  // ---------------------------------------------------------------------------
  // Assembling
  // ---------------------------------------------------------------------------

  function Quoted(arg: string): (r: string)
    ensures |arg| <= |r| <= |arg| + 2
  {
    if SPACE in arg then [QUOTE] + arg + [QUOTE] else arg
  }

  function QuotedAll(args: seq<string>): (qs: seq<string>)
    ensures |qs| == |args|
    decreases |args|
  {
    if args == [] then [] else [Quoted(args[0])] + QuotedAll(args[1..])
  }

  /** The parts with one space between each two. */
  function Join(parts: seq<string>): string
    decreases |parts|
  {
    if parts == [] then ""
    else if |parts| == 1 then parts[0]
    else parts[0] + [SPACE] + Join(parts[1..])
  }

  /** The arguments that are not ignored: `ignoreArg` goes with the `skip` arguments after it. */
  function Kept(args: seq<string>, ignoreArg: string, skip: nat): seq<string>
    decreases |args|
  {
    if args == [] then []
    else if args[0] == ignoreArg then
      if skip + 1 <= |args| then Kept(args[skip + 1..], ignoreArg, skip) else []
    else [args[0]] + Kept(args[1..], ignoreArg, skip)
  }

  function Command(args: seq<string>): string {
    Join(QuotedAll(args))
  }

  // ---------------------------------------------------------------------------
  // Splitting loses no text
  // ---------------------------------------------------------------------------

  lemma PiecesSkip(s: string, q: Quotes, start: nat, p: nat)
    requires start <= p < |s| && q.right < |s| && Ignored(q, p)
    ensures Pieces(s, q, start, Some(p)) == Pieces(s, q, start, Find(s, SPACE, q.right + 1))
  {
    hide Find;
  }

  lemma PiecesCut(s: string, q: Quotes, start: nat, p: nat)
    requires start <= p < |s| && q.right < |s| && !Ignored(q, p)
    ensures Pieces(s, q, start, Some(p))
            == [s[start..p]] + Pieces(s, AfterCut(s, q, p), p + 1, Find(s, SPACE, p + 1))
  {
    hide Find, AfterCut, SearchDoubleQuotes, Ignored;
  }

  lemma LastPieceOnly(s: string, q: Quotes, start: nat)
    requires start <= |s| && s != "" && q.right < |s|
    ensures Pieces(s, q, start, None) == [s[start..]] && Join([s[start..]]) == s[start..]
  {
  }

  lemma JoinPrepend(part: string, rest: seq<string>)
    requires rest != []
    ensures Join([part] + rest) == part + [SPACE] + Join(rest)
  {
    assert ([part] + rest)[1..] == rest;
  }

  /** Whatever the command, putting the spaces back between the pieces gives its text. */
  lemma {:induction false} PiecesLoseNothing(s: string, q: Quotes, start: nat, space: Option<nat>)
    requires start <= |s| && s != "" && q.right < |s|
    requires space.Some? ==> start <= space.value < |s| && s[space.value] == SPACE
    ensures Join(Pieces(s, q, start, space)) == s[start..]
    decreases if space.Some? then |s| - space.value else 0
  {
    hide Find, Pieces, Join, AfterCut;
    if space.None? {
      LastPieceOnly(s, q, start);
    } else {
      var p := space.value;
      if Ignored(q, p) {
        PiecesSkip(s, q, start, p);
        PiecesLoseNothing(s, q, start, Find(s, SPACE, q.right + 1));
      } else {
        PiecesCut(s, q, start, p);
        var q' := AfterCut(s, q, p);
        PiecesLoseNothing(s, q', p + 1, Find(s, SPACE, p + 1));
        JoinPrepend(s[start..p], Pieces(s, q', p + 1, Find(s, SPACE, p + 1)));
        assert s[start..] == s[start..p] + [SPACE] + s[p + 1..];
      }
    }
  }

  // ---------------------------------------------------------------------------
  // Splitting undoes assembling
  // ---------------------------------------------------------------------------

  predicate QuoteFree(args: seq<string>) {
    forall i :: 0 <= i < |args| ==> QUOTE !in args[i]
  }

  /** An argument as it stands on a command line; part of it may be in quotes. */
  datatype Written = Bare(text: string) | InQuotes(before: string, text: string, after: string)

  /** There are no quotes other than those around `text`, and spaces solely between these. */
  predicate IsWellWritten(w: Written) {
    && QUOTE !in w.text
    && (w.Bare? ==> SPACE !in w.text)
    && (w.InQuotes? ==> QUOTE !in w.before && SPACE !in w.before && QUOTE !in w.after && SPACE !in w.after)
  }

  predicate WellWritten(ws: seq<Written>) {
    forall i :: 0 <= i < |ws| ==> IsWellWritten(ws[i])
  }

  lemma WellWrittenParts(ws: seq<Written>)
    requires WellWritten(ws) && ws != []
    ensures IsWellWritten(ws[0]) && WellWritten(ws[1..])
  {
  }

  function Text(w: Written): string {
    match w
    case Bare(text) => text
    case InQuotes(before, text, after) => before + [QUOTE] + text + [QUOTE] + after
  }

  /** What is meant: quotes around the whole do not belong to the argument, others do. */
  function Argument(w: Written): string {
    if w.InQuotes? && w.before == w.after == "" then w.text else Text(w)
  }

  function TextsOf(ws: seq<Written>): (ts: seq<string>)
    ensures |ts| == |ws|
    decreases |ws|
  {
    if ws == [] then [] else [Text(ws[0])] + TextsOf(ws[1..])
  }

  function Line(ws: seq<Written>): string {
    Join(TextsOf(ws))
  }

  function Arguments(ws: seq<Written>): (args: seq<string>)
    ensures |args| == |ws|
    decreases |ws|
  {
    if ws == [] then [] else [Argument(ws[0])] + Arguments(ws[1..])
  }

  /**
    What the splitter knows about quotes when it is about to read the arguments ws, written from
    `start` on: no quote is left and the pair it holds, found again or not, lies behind it; or the
    pair it holds is the next one.
  */
  ghost predicate KnowsQuotes(s: string, start: nat, q: Quotes) {
    var next := Find(s, QUOTE, start);
    if next.None? then q.right <= start
    else q.left == next.value && Find(s, QUOTE, next.value + 1) == Some(q.right)
  }

  lemma JoinCons(ws: seq<Written>)
    requires |ws| > 1
    ensures Line(ws) == Text(ws[0]) + [SPACE] + Line(ws[1..])
  {
    assert TextsOf(ws)[1..] == TextsOf(ws[1..]);
  }

  lemma JoinOne(ws: seq<Written>)
    requires |ws| == 1
    ensures Line(ws) == Text(ws[0])
  {
    assert TextsOf(ws) == [Text(ws[0])];
  }

  /** In such a line the first quote, if there is one, has a partner. */
  lemma {:induction false} QuotesComeInPairs(s: string, start: nat, ws: seq<Written>)
    requires start <= |s| && s[start..] == Line(ws) && WellWritten(ws)
    ensures var next := Find(s, QUOTE, start); next.Some? ==> Find(s, QUOTE, next.value + 1).Some?
    decreases |ws|
  {
    hide Find, Line, Text;
    if ws == [] {
      LineOfNone();
    } else if ws[0].InQuotes? {
      FirstQuoted(s, start, ws);
    } else {
      NoQuoteInBare(s, start, ws);
      if |ws| > 1 {
        FirstArgument(s, start, ws);
        QuotesComeInPairs(s, start + |ws[0].text| + 1, ws[1..]);
      }
    }
  }

  lemma LineOfNone()
    ensures Line([]) == ""
  {
  }

  lemma BareText(w: Written)
    requires w.Bare?
    ensures Text(w) == w.text
  {
  }

  /** Neither a bare argument nor the space after it, if another one follows, is a quote. */
  lemma NoQuoteInBare(s: string, start: nat, ws: seq<Written>)
    requires start <= |s| && ws != [] && s[start..] == Line(ws) && WellWritten(ws) && ws[0].Bare?
    ensures Text(ws[0]) == ws[0].text
    ensures |ws| > 1 ==> Find(s, QUOTE, start) == Find(s, QUOTE, start + |ws[0].text| + 1)
    ensures |ws| == 1 ==> Find(s, QUOTE, start) == None
  {
    hide Find, Line, Text;
    BareText(ws[0]);
    StartsWithFirst(s, start, ws);
    var p := start + |ws[0].text|;
    assert forall i :: start <= i < p ==> s[i] == s[start..p][i - start] == ws[0].text[i - start];
    if |ws| > 1 {
      FirstArgument(s, start, ws);
      SameFind(s, QUOTE, start, p + 1);
    } else {
      JoinOne(ws);
      FindNone(s, QUOTE, start);
    }
  }

  lemma {:induction false} SameFind(s: string, c: char, start: nat, later: nat)
    requires start <= later && forall i :: start <= i < later && i < |s| ==> s[i] != c
    ensures Find(s, c, start) == Find(s, c, later)
    decreases later - start
  {
    if start < later {
      SameFind(s, c, start + 1, later);
    }
  }

  lemma StartsWithFirst(s: string, start: nat, ws: seq<Written>)
    requires start <= |s| && ws != [] && s[start..] == Line(ws)
    ensures var p := start + |Text(ws[0])|; p <= |s| && s[start..p] == Text(ws[0])
  {
    hide Line, Text;
    if |ws| > 1 {
      JoinCons(ws);
    } else {
      JoinOne(ws);
    }
    var q := Text(ws[0]);
    assert s[start..][..|q|] == q;
    assert s[start..start + |q|] == s[start..][..|q|];
  }

  /** Where the quotes of an argument are; what is around them has neither quotes nor spaces. */
  lemma AroundQuotes(s: string, start: nat, w: Written)
    requires w.InQuotes? && IsWellWritten(w)
    requires start + |Text(w)| <= |s| && s[start..start + |Text(w)|] == Text(w)
    ensures var left, right := start + |w.before|, start + |w.before| + |w.text| + 1;
            && right < |s| && s[left] == s[right] == QUOTE
            && (forall i :: start <= i < left ==> s[i] != QUOTE && s[i] != SPACE)
            && (forall i :: left < i < right ==> s[i] == w.text[i - left - 1])
            && (forall i :: right < i < start + |Text(w)| ==> s[i] != QUOTE && s[i] != SPACE)
  {
    var t := Text(w);
    var l := |w.before|;
    var r := l + |w.text| + 1;
    assert forall i :: start <= i < start + |t| ==> s[i] == s[start..start + |t|][i - start] == t[i - start];
    assert t[l] == t[r] == QUOTE;
    assert forall i :: 0 <= i < l ==> t[i] == w.before[i];
    assert forall i :: l < i < r ==> t[i] == w.text[i - l - 1];
    assert forall i :: r < i < |t| ==> t[i] == w.after[i - r - 1];
  }

  /** The pair of quotes of the first argument is the one the splitter looks for. */
  lemma FirstQuoted(s: string, start: nat, ws: seq<Written>)
    requires start <= |s| && ws != [] && s[start..] == Line(ws) && WellWritten(ws) && ws[0].InQuotes?
    ensures var left, right := start + |ws[0].before|, start + |ws[0].before| + |ws[0].text| + 1;
            && right < |s| && Find(s, QUOTE, start) == Some(left) && Find(s, QUOTE, left + 1) == Some(right)
  {
    hide Find, Line, Text;
    StartsWithFirst(s, start, ws);
    AroundQuotes(s, start, ws[0]);
    var left := start + |ws[0].before|;
    FindIs(s, QUOTE, start, left);
    FindIs(s, QUOTE, left + 1, left + |ws[0].text| + 1);
  }

  lemma SearchIsNext(s: string, start: nat, ws: seq<Written>, from: nat)
    requires start <= |s| && s != "" && s[start..] == Line(ws) && WellWritten(ws)
    requires from <= start && forall i :: from <= i < start ==> s[i] != QUOTE
    ensures KnowsQuotes(s, start, SearchDoubleQuotes(s, from))
  {
    QuotesComeInPairs(s, start, ws);
    SameFind(s, QUOTE, from, start);
  }

  /** Where the first argument ends, when others follow, and that a space follows it. */
  lemma FirstArgument(s: string, start: nat, ws: seq<Written>)
    requires start <= |s| && |ws| > 1 && s[start..] == Line(ws)
    ensures var p := start + |Text(ws[0])|;
            p < |s| && s[p] == SPACE && s[start..p] == Text(ws[0]) && s[p + 1..] == Line(ws[1..])
  {
    hide Line, Text;
    JoinCons(ws);
    StartsWithFirst(s, start, ws);
    var q := Text(ws[0]);
    var p := start + |q|;
    assert s[start..][|q|] == SPACE && s[start..][|q| + 1..] == Line(ws[1..]);
    assert s[p + 1..] == s[start..][|q| + 1..];
  }

  /** The first argument, when it has no space, ends at the next space, which is never ignored. */
  lemma SplitPlain(s: string, start: nat, ws: seq<Written>, q: Quotes)
    requires start <= |s| && s != "" && q.right < |s| && |ws| > 1
    requires s[start..] == Line(ws) && WellWritten(ws) && KnowsQuotes(s, start, q) && ws[0].Bare?
    ensures var p := start + |ws[0].text|;
            && p < |s| && Find(s, SPACE, start) == Some(p) && !Ignored(q, p)
            && KnowsQuotes(s, p + 1, AfterCut(s, q, p))
  {
    hide Line, Find, Text;
    BareText(ws[0]);
    FirstArgument(s, start, ws);
    var p := start + |ws[0].text|;
    assert forall i :: start <= i < p ==> s[i] == s[start..p][i - start];
    FindIs(s, SPACE, start, p);
    SameFind(s, QUOTE, start, p + 1);
  }

  lemma KnowsFirst(s: string, start: nat, ws: seq<Written>, q: Quotes)
    requires start <= |s| && ws != [] && s[start..] == Line(ws) && WellWritten(ws) && ws[0].InQuotes?
    requires KnowsQuotes(s, start, q)
    ensures q == Quotes(start + |ws[0].before|, start + |ws[0].before| + |ws[0].text| + 1)
  {
    hide Find, Line;
    FirstQuoted(s, start, ws);
  }

  /** The spaces between the quotes, if there are any, come first, and the pair is held then. */
  lemma FirstSpace(s: string, start: nat, w: Written, q: Quotes)
    requires w.InQuotes? && IsWellWritten(w)
    requires start + |Text(w)| <= |s| && s[start..start + |Text(w)|] == Text(w)
    requires q == Quotes(start + |w.before|, start + |w.before| + |w.text| + 1)
    ensures var end := start + |Text(w)|;
            && q.right < end
            && Find(s, SPACE, q.right + 1) == Find(s, SPACE, end)
            && (SPACE !in w.text ==> Find(s, SPACE, start) == Find(s, SPACE, end))
            && (SPACE in w.text ==> var space := Find(s, SPACE, start); space.Some? && Ignored(q, space.value))
  {
    var end := start + |Text(w)|;
    AroundQuotes(s, start, w);
    hide Find;
    SameFind(s, SPACE, q.right + 1, end);
    if SPACE in w.text {
      var i :| 0 <= i < |w.text| && w.text[i] == SPACE;
      assert s[q.left + 1 + i] == SPACE;
    } else {
      SameFind(s, SPACE, start, end);
    }
  }

  /** The first argument, when part of it is quoted, ends at the first space after these quotes. */
  lemma SplitQuoted(s: string, start: nat, ws: seq<Written>, q: Quotes)
    requires start <= |s| && s != "" && q.right < |s| && |ws| > 1
    requires s[start..] == Line(ws) && WellWritten(ws) && KnowsQuotes(s, start, q) && ws[0].InQuotes?
    ensures var p := start + |Text(ws[0])|;
            && p < |s| && !Ignored(q, p) && Find(s, SPACE, q.right + 1) == Some(p)
            && (if SPACE in ws[0].text then var space := Find(s, SPACE, start); space.Some? && Ignored(q, space.value)
                else Find(s, SPACE, start) == Some(p))
            && KnowsQuotes(s, p + 1, AfterCut(s, q, p))
  {
    hide Line, Find, KnowsQuotes, Text, WellWritten, IsWellWritten;
    WellWrittenParts(ws);
    KnowsFirst(s, start, ws, q);
    FirstArgument(s, start, ws);
    FirstSpace(s, start, ws[0], q);
    AroundQuotes(s, start, ws[0]);
    var p := start + |Text(ws[0])|;
    FindIs(s, SPACE, p, p);
    SearchIsNext(s, p + 1, ws[1..], q.right + 1);
  }

  lemma QuotesComeOff(w: Written)
    requires IsWellWritten(w)
    ensures RemoveDoubleQuotes(Text(w)) == Argument(w)
  {
    if w.InQuotes? {
      var t, r := Text(w), |w.before| + |w.text| + 1;
      assert w.before != "" ==> t[0] == w.before[0];
      assert w.after != "" ==> t[|t| - 1] == w.after[|w.after| - 1];
      assert w.before == "" ==> t[0] == QUOTE;
      assert w.after == "" ==> t[|t| - 1] == QUOTE;
      assert w.before == w.after == "" ==> t[1..|t| - 1] == w.text;
    }
  }

  lemma UnquotedPrepend(part: string, rest: seq<string>)
    ensures Unquoted([part] + rest) == [RemoveDoubleQuotes(part)] + Unquoted(rest)
  {
    assert ([part] + rest)[1..] == rest;
  }

  /** What the splitter does with the first argument when others follow. */
  lemma FirstCut(s: string, start: nat, ws: seq<Written>, q: Quotes)
    requires start <= |s| && s != "" && q.right < |s| && |ws| > 1
    requires s[start..] == Line(ws) && WellWritten(ws) && KnowsQuotes(s, start, q)
    ensures var p := start + |Text(ws[0])|;
            var q' := AfterCut(s, q, p);
            && p < |s| && s[p + 1..] == Line(ws[1..]) && KnowsQuotes(s, p + 1, q')
            && Unquoted(Pieces(s, q, start, Find(s, SPACE, start)))
               == [RemoveDoubleQuotes(Text(ws[0]))] + Unquoted(Pieces(s, q', p + 1, Find(s, SPACE, p + 1)))
  {
    hide Pieces, Find, Unquoted, Line, KnowsQuotes, AfterCut, Ignored, Text, RemoveDoubleQuotes, WellWritten;
    FirstArgument(s, start, ws);
    if ws[0].InQuotes? {
      SplitQuoted(s, start, ws, q);
      if SPACE in ws[0].text {
        PiecesSkip(s, q, start, Find(s, SPACE, start).value);
      }
    } else {
      BareText(ws[0]);
      SplitPlain(s, start, ws, q);
    }
    CutUnquoted(s, q, start, start + |Text(ws[0])|);
  }

  /**
    The loop of the splitter on such a line: from any state in which it knows the quotes, it reads
    back the arguments that are left.
  */
  lemma {:induction false} SplitLoop(s: string, start: nat, ws: seq<Written>, q: Quotes)
    requires start <= |s| && s != "" && q.right < |s| && ws != []
    requires s[start..] == Line(ws) && WellWritten(ws) && KnowsQuotes(s, start, q)
    ensures Unquoted(Pieces(s, q, start, Find(s, SPACE, start))) == Arguments(ws)
    decreases |ws|
  {
    hide Pieces, Find, Unquoted, Line, KnowsQuotes, AfterCut, Text, Argument, RemoveDoubleQuotes, WellWritten,
      IsWellWritten;
    WellWrittenParts(ws);
    QuotesComeOff(ws[0]);
    if |ws| == 1 {
      LastPiece(s, start, ws, q);
      UnquotedPrepend(Text(ws[0]), []);
      NothingUnquoted();
      assert [Text(ws[0])] + [] == [Text(ws[0])];
    } else {
      var p := start + |Text(ws[0])|;
      FirstCut(s, start, ws, q);
      SplitLoop(s, p + 1, ws[1..], AfterCut(s, q, p));
    }
  }

  lemma NothingUnquoted()
    ensures Unquoted([]) == []
  {
  }

  lemma LastPiece(s: string, start: nat, ws: seq<Written>, q: Quotes)
    requires start <= |s| && s != "" && q.right < |s| && |ws| == 1
    requires s[start..] == Line(ws) && WellWritten(ws) && KnowsQuotes(s, start, q)
    ensures Pieces(s, q, start, Find(s, SPACE, start)) == [Text(ws[0])]
  {
    JoinOne(ws);
    assert s[start..|s|] == s[start..];
    hide Line, Text;
    if ws[0].InQuotes? {
      KnowsFirst(s, start, ws, q);
      FirstSpace(s, start, ws[0], q);
    } else {
      BareText(ws[0]);
      assert forall i :: start <= i < |s| ==> s[i] == s[start..][i - start];
      FindNone(s, SPACE, start);
    }
  }

  /**
    Splitting a line gives its arguments back, written in quotes or not, for every line other than
    the one that has only an empty argument without quotes. Spaces may be anywhere inside quotes;
    empty arguments survive too. Quotes in the middle of an argument stay in it.
  */
  lemma SplitLine(ws: seq<Written>)
    requires WellWritten(ws)
    ensures Split(Line(ws)) == Arguments(ws) <==> ws != [Bare("")]
  {
    var s := Line(ws);
    if ws == [] {
    } else if s == "" {
      if |ws| > 1 {
        JoinCons(ws);
      } else {
        JoinOne(ws);
        assert ws == [ws[0]];
      }
    } else {
      assert s[0..] == s;
      SearchIsNext(s, 0, ws, 0);
      SplitLoop(s, 0, ws, SearchDoubleQuotes(s, 0));
    }
  }

  /** How assembleCommand writes the arguments: in quotes if there is a space. */
  function Assembled(args: seq<string>): (ws: seq<Written>)
    ensures |ws| == |args|
    decreases |args|
  {
    if args == [] then []
    else [if SPACE in args[0] then InQuotes("", args[0], "") else Bare(args[0])] + Assembled(args[1..])
  }

  lemma {:induction false} AssembledLine(args: seq<string>)
    ensures TextsOf(Assembled(args)) == QuotedAll(args) && Arguments(Assembled(args)) == args
    ensures QuoteFree(args) ==> WellWritten(Assembled(args))
    decreases |args|
  {
    if args != [] {
      AssembledLine(args[1..]);
      WholeQuoted(args[0]);
    }
  }

  lemma WholeQuoted(arg: string)
    ensures Text(InQuotes("", arg, "")) == [QUOTE] + arg + [QUOTE]
  {
  }

  /**
    Splitting an assembled command gives the arguments back, for every list of arguments without
    quotes other than the list of one empty argument.
  */
  lemma SplitCommand(args: seq<string>)
    requires QuoteFree(args)
    ensures Split(Command(args)) == args <==> args != [""]
  {
    AssembledLine(args);
    SplitLine(Assembled(args));
  }

  /** A pair of quotes further on in an argument is not seen in time, and its first space cuts. */
  lemma SecondPairIsCut()
    ensures Split("\"a b\"\"c d\"") == ["\"a b\"\"c", "d\""]
  {
    hide Find, Pieces, Unquoted, RemoveDoubleQuotes;
    var s := "\"a b\"\"c d\"";
    FindIs(s, QUOTE, 0, 0);
    FindIs(s, QUOTE, 1, 4);
    FindIs(s, SPACE, 0, 2);
    FindIs(s, SPACE, 5, 7);
    FindNone(s, SPACE, 8);
    CutPieces(s);
  }

  lemma CutPieces(s: string)
    requires s == "\"a b\"\"c d\"" && SearchDoubleQuotes(s, 0) == Quotes(0, 4)
    requires Find(s, SPACE, 0) == Some(2) && Find(s, SPACE, 5) == Some(7) && Find(s, SPACE, 8) == None
    ensures Split(s) == ["\"a b\"\"c", "d\""]
  {
    hide Find, Pieces, Unquoted, AfterCut, SearchDoubleQuotes;
    var q := Quotes(0, 4);
    PiecesSkip(s, q, 0, 2);
    PiecesCut(s, q, 0, 7);
    LastCut(s, AfterCut(s, q, 7), 8);
    UnquotedPrepend(s[0..7], Pieces(s, AfterCut(s, q, 7), 8, None));
    assert s[0..7] == "\"a b\"\"c" && s[8..] == "d\"";
  }

  /** A quote without partner is paired with one before it, and the space between them does not cut. */
  lemma UnclosedQuoteGlues()
    ensures Split("\"a b\" c d \"e f") == ["a b", "c", "d \"e", "f"]
  {
    hide Find, Pieces, Unquoted, RemoveDoubleQuotes;
    var s := "\"a b\" c d \"e f";
    FindIs(s, QUOTE, 0, 0);
    FindIs(s, QUOTE, 1, 4);
    FindIs(s, QUOTE, 5, 10);
    FindNone(s, QUOTE, 11);
    FindIs(s, SPACE, 0, 2);
    FindIs(s, SPACE, 5, 5);
    FindIs(s, SPACE, 6, 7);
    FindIs(s, SPACE, 8, 9);
    FindIs(s, SPACE, 11, 12);
    FindNone(s, SPACE, 13);
    assert SearchDoubleQuotes(s, 0) == Quotes(0, 4) && SearchDoubleQuotes(s, 5) == Quotes(0, 0);
    assert SearchDoubleQuotes(s, 1) == Quotes(4, 10);
    GluedPieces(s);
  }

  lemma GluedPieces(s: string)
    requires s == "\"a b\" c d \"e f"
    requires SearchDoubleQuotes(s, 0) == Quotes(0, 4) && SearchDoubleQuotes(s, 5) == Quotes(0, 0)
    requires SearchDoubleQuotes(s, 1) == Quotes(4, 10)
    requires Find(s, SPACE, 0) == Some(2) && Find(s, SPACE, 5) == Some(5) && Find(s, SPACE, 6) == Some(7)
    requires Find(s, SPACE, 8) == Some(9) && Find(s, SPACE, 11) == Some(12) && Find(s, SPACE, 13) == None
    ensures Split(s) == ["a b", "c", "d \"e", "f"]
  {
    hide Find, Pieces, Unquoted, SearchDoubleQuotes;
    PiecesSkip(s, Quotes(0, 4), 0, 2);
    PiecesCut(s, Quotes(0, 4), 0, 5);
    PiecesCut(s, Quotes(0, 0), 6, 7);
    PiecesSkip(s, Quotes(4, 10), 8, 9);
    PiecesCut(s, Quotes(4, 10), 8, 12);
    var last := AfterCut(s, Quotes(4, 10), 12);
    LastCut(s, last, 13);
    var ps := Pieces(s, last, 13, None);
    UnquotedPrepend(s[8..12], ps);
    UnquotedPrepend(s[6..7], [s[8..12]] + ps);
    UnquotedPrepend(s[0..5], [s[6..7]] + ([s[8..12]] + ps));
    assert s[0..5] == "\"a b\"" && s[0..5][1..4] == "a b";
    assert s[6..7] == "c" && s[8..12] == "d \"e" && s[13..] == "f";
  }

  /** An argument that is a single quote is split into an empty one. */
  lemma LoneQuoteIsEmpty()
    ensures Split([QUOTE]) == [""]
  {
    FindNone([QUOTE], SPACE, 0);
    assert [QUOTE][0..] == [QUOTE];
    LastCut([QUOTE], SearchDoubleQuotes([QUOTE], 0), 0);
  }

  // ---------------------------------------------------------------------------
  // Ignored arguments
  // ---------------------------------------------------------------------------

  /**
    An ignored argument takes the parameters after it along, whatever they are, also if they are the
    ignored argument again; in the vector all of these stay as they are.
  */
  lemma {:induction false} IgnoredWithParameters(
    before: seq<string>, ignoreArg: string, params: seq<string>, after: seq<string>
  )
    requires ignoreArg !in before
    ensures var args := before + [ignoreArg] + params + after;
            && Kept(args, ignoreArg, |params|) == before + Kept(after, ignoreArg, |params|)
            && InPlace(args, ignoreArg, |params|)
               == QuotedAll(before) + [ignoreArg] + params + InPlace(after, ignoreArg, |params|)
    ensures Kept(before, ignoreArg, |params|) == before
    ensures InPlace(before, ignoreArg, |params|) == QuotedAll(before)
    decreases |before|
  {
    hide Kept, InPlace, QuotedAll;
    var args, skip := before + [ignoreArg] + params + after, |params|;
    if before == [] {
      assert args == [ignoreArg] + params + after;
      FirstIgnored(ignoreArg, params, after);
      NothingKept(ignoreArg, skip);
    } else {
      var rest := before[1..];
      IgnoredWithParameters(rest, ignoreArg, params, after);
      assert args == [before[0]] + (rest + [ignoreArg] + params + after);
      FirstKept(before[0], rest + [ignoreArg] + params + after, ignoreArg, skip);
      FirstKept(before[0], rest, ignoreArg, skip);
      FirstQuotedToo(before[0], rest);
      assert before == [before[0]] + rest;
    }
  }

  lemma FirstIgnored(ignoreArg: string, params: seq<string>, after: seq<string>)
    ensures var args := [ignoreArg] + params + after;
            && Kept(args, ignoreArg, |params|) == Kept(after, ignoreArg, |params|)
            && InPlace(args, ignoreArg, |params|) == [ignoreArg] + params + InPlace(after, ignoreArg, |params|)
  {
    var args := [ignoreArg] + params + after;
    assert args[|params| + 1..] == after && args[..|params| + 1] == [ignoreArg] + params;
  }

  lemma FirstKept(arg: string, rest: seq<string>, ignoreArg: string, skip: nat)
    requires arg != ignoreArg
    ensures Kept([arg] + rest, ignoreArg, skip) == [arg] + Kept(rest, ignoreArg, skip)
    ensures InPlace([arg] + rest, ignoreArg, skip) == [Quoted(arg)] + InPlace(rest, ignoreArg, skip)
  {
    hide Quoted;
    assert ([arg] + rest)[1..] == rest;
  }

  lemma FirstQuotedToo(arg: string, rest: seq<string>)
    ensures QuotedAll([arg] + rest) == [Quoted(arg)] + QuotedAll(rest)
  {
    hide Quoted;
    assert ([arg] + rest)[1..] == rest;
  }

  lemma NothingKept(ignoreArg: string, skip: nat)
    ensures Kept([], ignoreArg, skip) == [] && InPlace([], ignoreArg, skip) == [] && QuotedAll([]) == []
  {
  }

  lemma {:induction false} KeptWithoutIgnored(args: seq<string>)
    requires "" !in args
    ensures Kept(args, "", 0) == args
    decreases |args|
  {
    if args != [] {
      KeptWithoutIgnored(args[1..]);
    }
  }

  lemma {:induction false} KeptDropsIgnored(args: seq<string>, ignoreArg: string, skip: nat)
    ensures ignoreArg !in Kept(args, ignoreArg, skip)
    ensures |Kept(args, ignoreArg, skip)| <= |args|
    ensures ignoreArg in args ==> |Kept(args, ignoreArg, skip)| < |args|
    ensures forall k :: k in Kept(args, ignoreArg, skip) ==> k in args
    decreases |args|
  {
    if args != [] {
      if args[0] == ignoreArg {
        if skip + 1 <= |args| {
          KeptDropsIgnored(args[skip + 1..], ignoreArg, skip);
        }
      } else {
        KeptDropsIgnored(args[1..], ignoreArg, skip);
      }
    }
  }

  /**
    With the default arguments, which ignore the empty argument, assembling and splitting is the
    identity on a list of quote-free arguments exactly when none of them is empty.
  */
  lemma SplitDefaultCommand(args: seq<string>)
    requires QuoteFree(args)
    ensures Split(Command(Kept(args, "", 0))) == args <==> "" !in args
  {
    var kept := Kept(args, "", 0);
    KeptDropsIgnored(args, "", 0);
    assert QuoteFree(kept) by {
      forall i | 0 <= i < |kept|
        ensures QUOTE !in kept[i]
      {
        assert kept[i] in args;
      }
    }
    SplitCommand(kept);
    if "" !in args {
      KeptWithoutIgnored(args);
    } else {
      assert kept != [""];
    }
  }

  // ---------------------------------------------------------------------------
  // The original's code
  // ---------------------------------------------------------------------------

  /** ArgParser::searchDoubleQuotes. */
  method SearchQuotes(command: string, startPos: nat) returns (left: nat, right: nat, result: bool)
    ensures Quotes(left, right) == SearchDoubleQuotes(command, startPos)
    ensures result ==> left < right < |command| && command[left] == command[right] == QUOTE
    ensures !result ==> left == 0 && right == 0
  {
    left, right, result := 0, 0, false;
    var l := Find(command, QUOTE, startPos);
    if l.Some? {
      var r := Find(command, QUOTE, l.value + 1);
      if r.Some? {
        left, right, result := l.value, r.value, true;
      }
    }
  }

  lemma CutUnquoted(s: string, q: Quotes, start: nat, p: nat)
    requires start <= p < |s| && q.right < |s| && !Ignored(q, p)
    ensures Unquoted(Pieces(s, q, start, Some(p)))
            == [RemoveDoubleQuotes(s[start..p])] + Unquoted(Pieces(s, AfterCut(s, q, p), p + 1, Find(s, SPACE, p + 1)))
  {
    hide Find, Pieces, Unquoted, AfterCut, RemoveDoubleQuotes;
    PiecesCut(s, q, start, p);
    UnquotedPrepend(s[start..p], Pieces(s, AfterCut(s, q, p), p + 1, Find(s, SPACE, p + 1)));
  }

  /** ArgParser::splitCommandString. */
  method SplitCommandString(command: string) returns (argv: seq<string>)
    ensures argv == Split(command)
  {
    hide Find, Pieces, Unquoted, SearchDoubleQuotes, RemoveDoubleQuotes;
    argv := [];
    if command == "" {
      return;
    }
    var left: nat, right: nat, found: bool;
    left, right, found := SearchQuotes(command, 0);
    var startPos: nat := 0;
    var space := Find(command, SPACE, startPos);
    while space.Some?
      invariant startPos <= |command| && right < |command|
      invariant space.Some? ==> startPos <= space.value < |command| && command[space.value] == SPACE
      invariant argv + Unquoted(Pieces(command, Quotes(left, right), startPos, space)) == Split(command)
      decreases if space.Some? then |command| - space.value else 0
    {
      ghost var q, p, start, before := Quotes(left, right), space.value, startPos, argv;
      var ignoreThisSpace := false;
      if space.value > left && space.value < right {
        ignoreThisSpace := true;
      } else if space.value > right {
        left, right, found := SearchQuotes(command, right + 1);
      }

      if !ignoreThisSpace {
        var subString := command[startPos..space.value];
        argv := argv + [RemoveDoubleQuotes(subString)];
      }

      if ignoreThisSpace {
        space := Find(command, SPACE, right + 1);
        PiecesSkip(command, q, start, p);
      } else {
        startPos := space.value + 1;
        space := Find(command, SPACE, startPos);
        CutUnquoted(command, q, start, p);
        ghost var rest := Unquoted(Pieces(command, Quotes(left, right), startPos, space));
        assert argv + rest == before + ([RemoveDoubleQuotes(command[start..p])] + rest);
      }
    }
    LastCut(command, Quotes(left, right), startPos);
    var subString := command[startPos..];
    argv := argv + [RemoveDoubleQuotes(subString)];
  }

  lemma LastCut(s: string, q: Quotes, start: nat)
    requires start <= |s| && s != "" && q.right < |s|
    ensures Unquoted(Pieces(s, q, start, None)) == [RemoveDoubleQuotes(s[start..])]
  {
    LastPieceOnly(s, q, start);
    UnquotedPrepend(s[start..], []);
    assert [s[start..]] + [] == [s[start..]];
  }

  /** What assembleCommand leaves in its argument array: kept arguments with a space are quoted in place. */
  function InPlace(args: seq<string>, ignoreArg: string, skip: nat): (r: seq<string>)
    ensures |r| == |args|
    decreases |args|
  {
    if args == [] then []
    else if args[0] == ignoreArg then
      if skip + 1 <= |args| then args[..skip + 1] + InPlace(args[skip + 1..], ignoreArg, skip) else args
    else [Quoted(args[0])] + InPlace(args[1..], ignoreArg, skip)
  }

  /** Every ignored argument has the parameters it is ignored with. */
  predicate ParametersPresent(args: seq<string>, ignoreArg: string, skip: nat)
    decreases |args|
  {
    if args == [] then true
    else if args[0] == ignoreArg then
      skip + 1 <= |args| && ParametersPresent(args[skip + 1..], ignoreArg, skip)
    else ParametersPresent(args[1..], ignoreArg, skip)
  }

  /** The parts with a space after each. */
  function Spaced(parts: seq<string>): string
    decreases |parts|
  {
    if parts == [] then "" else parts[0] + [SPACE] + Spaced(parts[1..])
  }

  lemma {:induction false} SpacedIsJoin(parts: seq<string>)
    requires parts != []
    ensures Spaced(parts) == Join(parts) + [SPACE]
    decreases |parts|
  {
    if |parts| > 1 {
      SpacedIsJoin(parts[1..]);
    }
  }

  lemma KeptStep(args: seq<string>, ignoreArg: string, skip: nat)
    requires args != [] && ParametersPresent(args, ignoreArg, skip)
    ensures var n := if args[0] == ignoreArg then skip + 1 else 1;
            && n <= |args| && ParametersPresent(args[n..], ignoreArg, skip)
            && Spaced(QuotedAll(Kept(args, ignoreArg, skip)))
               == (if args[0] == ignoreArg then "" else Quoted(args[0]) + [SPACE])
                  + Spaced(QuotedAll(Kept(args[n..], ignoreArg, skip)))
            && InPlace(args, ignoreArg, skip)
               == (if args[0] == ignoreArg then args[..n] else [Quoted(args[0])]) + InPlace(args[n..], ignoreArg, skip)
  {
    hide Quoted;
    if args[0] != ignoreArg {
      var rest := Kept(args[1..], ignoreArg, skip);
      assert ([args[0]] + rest)[1..] == rest;
      assert QuotedAll([args[0]] + rest)[1..] == QuotedAll(rest);
    }
  }

  /** What is still to come from the arguments from `it` on. */
  function TextFrom(args: seq<string>, it: nat, ignoreArg: string, skip: nat): string
    requires it <= |args|
  {
    Spaced(QuotedAll(Kept(args[it..], ignoreArg, skip)))
  }

  /** The argument array when the arguments before `it` have been dealt with. */
  function ArrayAt(args: seq<string>, it: nat, ignoreArg: string, skip: nat): seq<string>
    requires it <= |args|
  {
    InPlace(args, ignoreArg, skip)[..it] + args[it..]
  }

  lemma ArrayAtStart(args: seq<string>, ignoreArg: string, skip: nat)
    ensures ArrayAt(args, 0, ignoreArg, skip) == args
  {
  }

  lemma ArrayAtAhead(args: seq<string>, it: nat, ignoreArg: string, skip: nat)
    requires it < |args|
    ensures |ArrayAt(args, it, ignoreArg, skip)| == |args| && ArrayAt(args, it, ignoreArg, skip)[it] == args[it]
  {
  }

  lemma AdvanceIgnored(args: seq<string>, it: nat, ignoreArg: string, skip: nat)
    requires it < |args| && ParametersPresent(args[it..], ignoreArg, skip) && args[it] == ignoreArg
    requires InPlace(args, ignoreArg, skip)[it..] == InPlace(args[it..], ignoreArg, skip)
    ensures var next := it + skip + 1;
            && next <= |args| && ParametersPresent(args[next..], ignoreArg, skip)
            && TextFrom(args, it, ignoreArg, skip) == TextFrom(args, next, ignoreArg, skip)
            && ArrayAt(args, it, ignoreArg, skip) == ArrayAt(args, next, ignoreArg, skip)
            && InPlace(args, ignoreArg, skip)[next..] == InPlace(args[next..], ignoreArg, skip)
  {
    hide Quoted, Kept, QuotedAll, Spaced, InPlace, ParametersPresent;
    var rest, n := args[it..], skip + 1;
    KeptStep(rest, ignoreArg, skip);
    assert rest[n..] == args[it + n..];
    var whole := InPlace(args, ignoreArg, skip);
    assert whole[it..][..n] == rest[..n] && whole[it..][n..] == whole[it + n..];
    assert whole[..it + n] == whole[..it] + whole[it..][..n];
    assert args[it..] == rest[..n] + args[it + n..];
  }

  lemma AdvanceKept(args: seq<string>, it: nat, ignoreArg: string, skip: nat)
    requires it < |args| && ParametersPresent(args[it..], ignoreArg, skip) && args[it] != ignoreArg
    requires InPlace(args, ignoreArg, skip)[it..] == InPlace(args[it..], ignoreArg, skip)
    ensures ParametersPresent(args[it + 1..], ignoreArg, skip)
    ensures TextFrom(args, it, ignoreArg, skip) == Quoted(args[it]) + [SPACE] + TextFrom(args, it + 1, ignoreArg, skip)
    ensures ArrayAt(args, it + 1, ignoreArg, skip) == ArrayAt(args, it, ignoreArg, skip)[it := Quoted(args[it])]
    ensures InPlace(args, ignoreArg, skip)[it + 1..] == InPlace(args[it + 1..], ignoreArg, skip)
  {
    hide Quoted, Kept, QuotedAll, Spaced, InPlace, ParametersPresent;
    var rest := args[it..];
    KeptStep(rest, ignoreArg, skip);
    assert rest[1..] == args[it + 1..];
    var whole := InPlace(args, ignoreArg, skip);
    assert whole[it..][0] == Quoted(args[it]) && whole[it..][1..] == whole[it + 1..];
    assert whole[..it + 1] == whole[..it] + [Quoted(args[it])];
    assert args[it..] == [args[it]] + args[it + 1..];
  }

  /**
    ArgParser::assembleCommand: the command made of the arguments that are not ignored; in the
    caller's vector, returned as argsArray, those with a space are quoted too.
  */
  method AssembleCommand(args: seq<string>, ignoreArg: string, parametersRequired: nat)
    returns (result: string, argsArray: seq<string>)
    requires ParametersPresent(args, ignoreArg, parametersRequired)
    ensures result == Command(Kept(args, ignoreArg, parametersRequired))
    ensures argsArray == InPlace(args, ignoreArg, parametersRequired)
  {
    hide Quoted, Kept, QuotedAll, Spaced, Join, InPlace, ParametersPresent, TextFrom, ArrayAt, Find;
    argsArray := args;
    ArrayAtStart(args, ignoreArg, parametersRequired);
    result := "";
    var it: nat := 0;
    assert args[0..] == args;
    while it < |argsArray|
      invariant it <= |args| == |argsArray|
      invariant ParametersPresent(args[it..], ignoreArg, parametersRequired)
      invariant InPlace(args, ignoreArg, parametersRequired)[it..] == InPlace(args[it..], ignoreArg, parametersRequired)
      invariant argsArray == ArrayAt(args, it, ignoreArg, parametersRequired)
      invariant result + TextFrom(args, it, ignoreArg, parametersRequired)
                == TextFrom(args, 0, ignoreArg, parametersRequired)
    {
      ArrayAtAhead(args, it, ignoreArg, parametersRequired);
      if argsArray[it] == ignoreArg {
        AdvanceIgnored(args, it, ignoreArg, parametersRequired);
        it := it + parametersRequired;
        it := it + 1;
        continue;
      }
      AdvanceKept(args, it, ignoreArg, parametersRequired);
      QuotedWhenSpaced(args[it]);
      ghost var before, rest := result, TextFrom(args, it + 1, ignoreArg, parametersRequired);
      if Find(argsArray[it], SPACE, 0).Some? {
        argsArray := argsArray[it := [QUOTE] + argsArray[it] + [QUOTE]];
      }
      result := result + argsArray[it];
      result := result + [SPACE];
      assert result + rest == before + (Quoted(args[it]) + [SPACE] + rest);
      it := it + 1;
    }
    NothingLeft(args, ignoreArg, parametersRequired);
    TrimmedSpaced(QuotedAll(Kept(args, ignoreArg, parametersRequired)));
    if result != "" {
      result := result[..|result| - 1];
    }
  }

  lemma QuotedWhenSpaced(arg: string)
    ensures Quoted(arg) == if Find(arg, SPACE, 0).Some? then [QUOTE] + arg + [QUOTE] else arg
  {
  }

  lemma NothingLeft(args: seq<string>, ignoreArg: string, skip: nat)
    ensures TextFrom(args, |args|, ignoreArg, skip) == ""
    ensures TextFrom(args, 0, ignoreArg, skip) == Spaced(QuotedAll(Kept(args, ignoreArg, skip)))
    ensures ArrayAt(args, |args|, ignoreArg, skip) == InPlace(args, ignoreArg, skip)
  {
    assert args[0..] == args;
  }

  lemma TrimmedSpaced(parts: seq<string>)
    ensures Spaced(parts) == "" <==> parts == []
    ensures Join(parts) == if Spaced(parts) == "" then "" else Spaced(parts)[..|Spaced(parts)| - 1]
  {
    if parts != [] {
      SpacedIsJoin(parts);
    }
  }
}
