/** Laying out the screens that links connect. */
module ScreenLayout {
  import opened Options
  import opened ScreenLinks

  // ---------------------------------------------------------------------------
  // Which screens a drawing puts together
  // ---------------------------------------------------------------------------

  predicate LeadsFrom(link: ScreenLink, current: string) {
    link.source == current || link.target == current
  }

  /** The link as seen from one of its screens. */
  function Outward(link: ScreenLink, current: string): ScreenLink
    requires LeadsFrom(link, current)
  {
    if link.source == current then link else link.Reversed()
  }

  predicate Leads(link: ScreenLink, a: string, b: string) {
    LeadsFrom(link, a) && Outward(link, a).target == b
  }

  predicate Adjacent(links: seq<ScreenLink>, a: string, b: string) {
    exists link :: link in links && Leads(link, a, b)
  }

  /** A walk along links in either direction, through listed screens only. */
  ghost predicate Walk(links: seq<ScreenLink>, listed: set<string>, path: seq<string>) {
    && path != []
    && (forall i :: 0 <= i < |path| ==> path[i] in listed)
    && (forall i :: 0 < i < |path| ==> Adjacent(links, path[i - 1], path[i]))
  }

  ghost predicate Connected(links: seq<ScreenLink>, listed: set<string>, a: string, b: string) {
    exists path :: Walk(links, listed, path) && path[0] == a && path[|path| - 1] == b
  }

  /** No link leads from one of `names` to a listed screen outside. */
  ghost predicate Closed(links: seq<ScreenLink>, listed: set<string>, names: set<string>) {
    forall a, b | a in names && b in listed && Adjacent(links, a, b) :: b in names
  }

  lemma AdjacentSymmetric(links: seq<ScreenLink>, a: string, b: string)
    requires Adjacent(links, a, b)
    ensures Adjacent(links, b, a)
  {
    var link :| link in links && Leads(link, a, b);
    assert Leads(link, b, a);
  }

  lemma ConnectedToItself(links: seq<ScreenLink>, listed: set<string>, a: string)
    requires a in listed
    ensures Connected(links, listed, a, a)
  {
    assert Walk(links, listed, [a]);
  }

  lemma ConnectedStep(links: seq<ScreenLink>, listed: set<string>, a: string, b: string, c: string)
    requires Connected(links, listed, a, b) && c in listed && Adjacent(links, b, c)
    ensures Connected(links, listed, a, c)
  {
    var path :| Walk(links, listed, path) && path[0] == a && path[|path| - 1] == b;
    var longer := path + [c];
    assert Walk(links, listed, longer);
  }

  lemma {:induction false} WalkStaysInside(links: seq<ScreenLink>, listed: set<string>, names: set<string>,
                                           path: seq<string>)
    requires Walk(links, listed, path) && path[0] in names && Closed(links, listed, names)
    ensures path[|path| - 1] in names
  {
    if |path| > 1 {
      var shorter := path[..|path| - 1];
      WalkStaysInside(links, listed, names, shorter);
      assert Adjacent(links, shorter[|shorter| - 1], path[|path| - 1]);
    }
  }

  lemma ConnectedStaysInside(links: seq<ScreenLink>, listed: set<string>, names: set<string>, a: string, b: string)
    requires Connected(links, listed, a, b) && a in names && Closed(links, listed, names)
    ensures b in names
  {
    var path :| Walk(links, listed, path) && path[0] == a && path[|path| - 1] == b;
    WalkStaysInside(links, listed, names, path);
  }

  lemma ConnectedSymmetric(links: seq<ScreenLink>, listed: set<string>, a: string, b: string)
    requires Connected(links, listed, a, b)
    ensures Connected(links, listed, b, a)
  {
    var path :| Walk(links, listed, path) && path[0] == a && path[|path| - 1] == b;
    var back := seq(|path|, i requires 0 <= i < |path| => path[|path| - 1 - i]);
    forall i | 0 < i < |back|
      ensures Adjacent(links, back[i - 1], back[i])
    {
      AdjacentSymmetric(links, path[|path| - 1 - i], path[|path| - i]);
    }
    assert Walk(links, listed, back);
  }

  lemma ConnectedTransitive(links: seq<ScreenLink>, listed: set<string>, a: string, b: string, c: string)
    requires Connected(links, listed, a, b) && Connected(links, listed, b, c)
    ensures Connected(links, listed, a, c)
  {
    var reached := set n | n in listed && Connected(links, listed, a, n);
    forall m, n | m in reached && n in listed && Adjacent(links, m, n)
      ensures n in reached
    {
      ConnectedStep(links, listed, a, m, n);
    }
    ConnectedStaysInside(links, listed, reached, b, c);
  }

  /** Once whole groups are placed, no link leads from an unplaced listed screen to a placed one. */
  lemma PlacedIsNeverReached(links: seq<ScreenLink>, listed: set<string>, placed: set<string>, a: string, b: string)
    requires Closed(links, listed, placed) && a in listed && a !in placed && Adjacent(links, a, b)
    ensures b !in placed
  {
    AdjacentSymmetric(links, a, b);
  }

  // ---------------------------------------------------------------------------
  // Drawings
  // ---------------------------------------------------------------------------

  type Drawing = map<string, Rect>

  const GAP: real := 3.0

  /** The screen is drawn against the other one, along the link between them. */
  predicate PlacedAlong(link: ScreenLink, drawing: Drawing, from: string, to: string) {
    && from in drawing && to in drawing
    && Leads(link, from, to) && Outward(link, from).HasStretches()
    && drawing[to] == PlaceAgainst(drawing[from], Outward(link, from))
  }

  /** The order in which links are followed: name by name, and for each name link by link. */
  predicate Before(j: nat, i: nat, j': nat, i': nat) {
    j < j' || (j == j' && i < i')
  }

  /** The k-th name is first reached from the j-th one, by the i-th link. */
  ghost predicate ReachedAt(links: seq<ScreenLink>, names: seq<string>, k: nat, j: nat, i: nat) {
    && j < k < |names| && i < |links|
    && Leads(links[i], names[j], names[k])
    && NotReachedBefore(links, names, names[k], j, i)
  }

  ghost predicate NotReachedBefore(links: seq<ScreenLink>, names: seq<string>, to: string, j: nat, i: nat)
    requires j < |names| && i < |links|
  {
    && (forall i' | 0 <= i' < i :: !Leads(links[i'], names[j], to))
    && (forall j' | 0 <= j' < j :: !Adjacent(links, names[j'], to))
  }

  /** Names that are reached earlier come earlier: the order of a breadth-first search. */
  ghost predicate BreadthFirst(links: seq<ScreenLink>, names: seq<string>) {
    forall k: nat, j: nat, i: nat, k': nat, j': nat, i': nat
      | ReachedAt(links, names, k, j, i) && ReachedAt(links, names, k', j', i') && k < k' :: Before(j, i, j', i')
  }

  ghost predicate PlacedWhereReached(links: seq<ScreenLink>, drawing: Drawing, names: seq<string>, k: nat) {
    exists j: nat, i: nat :: ReachedAt(links, names, k, j, i) && PlacedAlong(links[i], drawing, names[j], names[k])
  }

  /** Names in the order of placement, each screen placed against the one it is first reached from. */
  ghost predicate PlacedInOrder(links: seq<ScreenLink>, drawing: Drawing, names: seq<string>) {
    && names != []
    && (forall i :: 0 <= i < |names| ==> names[i] in drawing)
    && (forall i, j :: 0 <= i < j < |names| ==> names[i] != names[j])
    && drawing[names[0]].w == WIDTH && drawing[names[0]].h == HEIGHT
    && (forall k :: 0 < k < |names| ==> PlacedWhereReached(links, drawing, names, k))
    && BreadthFirst(links, names)
  }

  /** The smallest horizontal extent that holds the named screens, and their top. */
  predicate Extends(drawing: Drawing, names: seq<string>, left: real, right: real, top: real) {
    && (forall n :: n in names ==> n in drawing)
    && (forall n :: n in names ==> left <= drawing[n].x && drawing[n].RightX() <= right && top <= drawing[n].y)
    && (exists n :: n in names && drawing[n].x == left)
    && (exists n :: n in names && drawing[n].RightX() == right)
    && (exists n :: n in names && drawing[n].y == top)
  }

  predicate Agree(drawing: Drawing, other: Drawing, names: seq<string>) {
    forall n :: n in names ==> n in drawing && n in other && drawing[n] == other[n]
  }

  function Moved(drawing: Drawing, dx: real, dy: real): (moved: Drawing)
    ensures moved.Keys == drawing.Keys
  {
    map n | n in drawing :: drawing[n].Translated(dx, dy)
  }

  lemma PlacedAlongMoved(link: ScreenLink, drawing: Drawing, from: string, to: string, dx: real, dy: real)
    requires PlacedAlong(link, drawing, from, to)
    ensures PlacedAlong(link, Moved(drawing, dx, dy), from, to)
  {
    hide PlaceAgainst;
    PlaceAgainstTranslated(drawing[from], Outward(link, from), dx, dy);
  }

  /** Moving a group as a whole keeps every screen against the one it was placed from. */
  lemma PlacedInOrderMoved(links: seq<ScreenLink>, drawing: Drawing, names: seq<string>, dx: real, dy: real)
    requires PlacedInOrder(links, drawing, names)
    ensures PlacedInOrder(links, Moved(drawing, dx, dy), names)
  {
    hide PlacedAlong, BreadthFirst, NotReachedBefore;
    forall k | 0 < k < |names|
      ensures PlacedWhereReached(links, Moved(drawing, dx, dy), names, k)
    {
      assert PlacedWhereReached(links, drawing, names, k);
      var j: nat, i: nat :| ReachedAt(links, names, k, j, i) && PlacedAlong(links[i], drawing, names[j], names[k]);
      PlacedAlongMoved(links[i], drawing, names[j], names[k], dx, dy);
    }
  }

  lemma PlacedInOrderAgrees(links: seq<ScreenLink>, drawing: Drawing, other: Drawing, names: seq<string>)
    requires PlacedInOrder(links, drawing, names) && Agree(drawing, other, names)
    ensures PlacedInOrder(links, other, names)
  {
    hide BreadthFirst, NotReachedBefore;
    forall k | 0 < k < |names|
      ensures PlacedWhereReached(links, other, names, k)
    {
      assert PlacedWhereReached(links, drawing, names, k);
      var j: nat, i: nat :| ReachedAt(links, names, k, j, i) && PlacedAlong(links[i], drawing, names[j], names[k]);
      assert PlacedAlong(links[i], other, names[j], names[k]);
    }
  }

  lemma ExtendsMoved(drawing: Drawing, names: seq<string>, left: real, right: real, top: real, dx: real, dy: real)
    requires Extends(drawing, names, left, right, top)
    ensures Extends(Moved(drawing, dx, dy), names, left + dx, right + dx, top + dy)
  {
    var moved := Moved(drawing, dx, dy);
    var l :| l in names && drawing[l].x == left;
    var r :| r in names && drawing[r].RightX() == right;
    var t :| t in names && drawing[t].y == top;
    assert moved[l].x == left + dx && moved[r].RightX() == right + dx && moved[t].y == top + dy;
  }

  lemma ExtendsAgrees(drawing: Drawing, other: Drawing, names: seq<string>, left: real, right: real, top: real)
    requires Extends(drawing, names, left, right, top) && Agree(drawing, other, names)
    ensures Extends(other, names, left, right, top)
  {
    var l :| l in names && drawing[l].x == left;
    var r :| r in names && drawing[r].RightX() == right;
    var t :| t in names && drawing[t].y == top;
    assert other[l].x == left && other[r].RightX() == right && other[t].y == top;
  }

  /** A screen touches the one it was placed against, along the link between them. */
  lemma PlacedAlongTouches(link: ScreenLink, drawing: Drawing, from: string, to: string)
    requires PlacedAlong(link, drawing, from, to)
    ensures Touches(drawing, Outward(link, from))
  {
    hide PlaceAgainst, StretchPoint, Drawable;
    PlacedAgainstTouches(drawing[from], Outward(link, from));
  }

  /** Both stretches start together, and end together unless the target is drawn smaller or larger. */
  predicate Touches(drawing: Drawing, link: ScreenLink) {
    && link.source in drawing && link.target in drawing && link.HasStretches()
    && var from, to := drawing[link.source], drawing[link.target];
    && StretchPoint(to, Opposite(link.side), link.targetStart) == StretchPoint(from, link.side, link.sourceStart)
    && (StretchPoint(to, Opposite(link.side), link.targetEnd) == StretchPoint(from, link.side, link.sourceEnd)
        <==> Drawable(from, link))
  }

  // ---------------------------------------------------------------------------
  // Layouts
  // ---------------------------------------------------------------------------

  /** The screens of a group in the order of placement, and the extent the group takes up. */
  datatype Group = Group(names: seq<string>, left: real, right: real)

  function Listed(order: seq<string>): set<string> {
    set n | n in order
  }

  ghost predicate IsComponent(links: seq<ScreenLink>, listed: set<string>, names: seq<string>) {
    && names != []
    && forall n :: n in names <==> Connected(links, listed, names[0], n)
  }

  ghost predicate IsGroup(links: seq<ScreenLink>, listed: set<string>, layout: Drawing, group: Group) {
    && IsComponent(links, listed, group.names)
    && PlacedInOrder(links, layout, group.names)
    && Extends(layout, group.names, group.left, group.right, 0.0)
  }

  ghost predicate NamedIn(groups: seq<Group>, name: string) {
    exists i :: 0 <= i < |groups| && name in groups[i].names
  }

  /** The groups are drawn side by side from left to right, a gap apart. */
  predicate SideBySide(groups: seq<Group>) {
    && (groups != [] ==> groups[0].left == 0.0)
    && (forall i :: 0 < i < |groups| ==> groups[i].left == groups[i - 1].right + GAP)
    && (forall i :: 0 <= i < |groups| ==> groups[i].left < groups[i].right)
  }

  /** Each group starts with the first screen of the order that no earlier group holds. */
  ghost predicate StartsFirst(order: seq<string>, groups: seq<Group>, i: nat)
    requires i < |groups| && groups[i].names != []
  {
    exists k :: 0 <= k < |order| && order[k] == groups[i].names[0]
                && forall j :: 0 <= j < k ==> NamedIn(groups[..i], order[j])
  }

  ghost predicate LaidOut(links: seq<ScreenLink>, order: seq<string>, layout: Drawing, groups: seq<Group>) {
    && (forall i :: 0 <= i < |groups| ==> IsGroup(links, Listed(order), layout, groups[i]))
    && (forall i :: 0 <= i < |groups| ==> StartsFirst(order, groups, i))
    && SideBySide(groups)
    && layout.Keys <= Listed(order)
    && (forall n :: n in layout <==> NamedIn(groups, n))
  }

  lemma ComponentIsConnected(links: seq<ScreenLink>, listed: set<string>, names: seq<string>, a: string, b: string)
    requires IsComponent(links, listed, names) && a in names
    ensures b in names <==> Connected(links, listed, a, b)
  {
    hide Connected;
    if b in names {
      ConnectedSymmetric(links, listed, names[0], a);
      ConnectedTransitive(links, listed, a, names[0], b);
    }
    if Connected(links, listed, a, b) {
      ConnectedTransitive(links, listed, names[0], a, b);
    }
  }

  /** Two listed screens are in the same group if and only if links connect them. */
  lemma SameGroupIfConnected(links: seq<ScreenLink>, order: seq<string>, layout: Drawing, groups: seq<Group>,
                             a: string, b: string)
    requires LaidOut(links, order, layout, groups) && layout.Keys == Listed(order)
    requires a in order && b in order
    ensures Connected(links, Listed(order), a, b)
            <==> exists i :: 0 <= i < |groups| && a in groups[i].names && b in groups[i].names
  {
    hide Connected, IsComponent, PlacedInOrder, Extends, StartsFirst, SideBySide;
    var listed := Listed(order);
    assert a in layout;
    var i :| 0 <= i < |groups| && a in groups[i].names;
    assert IsGroup(links, listed, layout, groups[i]);
    ComponentIsConnected(links, listed, groups[i].names, a, b);
    forall k | 0 <= k < |groups| && a in groups[k].names && b in groups[k].names
      ensures Connected(links, listed, a, b)
    {
      assert IsGroup(links, listed, layout, groups[k]);
      ComponentIsConnected(links, listed, groups[k].names, a, b);
    }
  }

  lemma {:induction false} LaterGroupsAreFurtherRight(groups: seq<Group>, i: nat, j: nat)
    requires SideBySide(groups) && i < j < |groups|
    ensures groups[i].right + GAP <= groups[j].left
  {
    if i + 1 < j {
      LaterGroupsAreFurtherRight(groups, i, j - 1);
    }
  }

  lemma GroupsAreApart(links: seq<ScreenLink>, listed: set<string>, layout: Drawing, groups: seq<Group>,
                       i: nat, j: nat, a: string, b: string)
    requires i < |groups| && j < |groups| && i != j && SideBySide(groups)
    requires a in groups[i].names && IsGroup(links, listed, layout, groups[i])
    requires b in groups[j].names && IsGroup(links, listed, layout, groups[j])
    ensures layout[a].RightX() + GAP <= layout[b].x || layout[b].RightX() + GAP <= layout[a].x
  {
    hide IsComponent, PlacedInOrder, SideBySide;
    if i < j {
      LaterGroupsAreFurtherRight(groups, i, j);
    } else {
      LaterGroupsAreFurtherRight(groups, j, i);
    }
  }

  /** Screens that no links connect are drawn at least a gap apart, one beside the other. */
  lemma UnconnectedAreApart(links: seq<ScreenLink>, order: seq<string>, layout: Drawing, groups: seq<Group>,
                            a: string, b: string)
    requires LaidOut(links, order, layout, groups)
    requires a in layout && b in layout && !Connected(links, Listed(order), a, b)
    ensures layout[a].RightX() + GAP <= layout[b].x || layout[b].RightX() + GAP <= layout[a].x
  {
    hide Connected, IsComponent, PlacedInOrder, Extends, StartsFirst, SideBySide;
    var listed := Listed(order);
    var i :| 0 <= i < |groups| && a in groups[i].names;
    var j :| 0 <= j < |groups| && b in groups[j].names;
    assert IsGroup(links, listed, layout, groups[i]) && IsGroup(links, listed, layout, groups[j]);
    ComponentIsConnected(links, listed, groups[i].names, a, b);
    GroupsAreApart(links, listed, layout, groups, i, j, a, b);
  }

  /** Every screen but the first of its group touches the screen it is first reached from. */
  lemma LinkedScreensTouch(links: seq<ScreenLink>, order: seq<string>, layout: Drawing, groups: seq<Group>, g: nat,
                           k: nat)
    requires LaidOut(links, order, layout, groups) && g < |groups| && 0 < k < |groups[g].names|
    ensures var names := groups[g].names;
            exists j: nat, i: nat :: ReachedAt(links, names, k, j, i) && Touches(layout, Outward(links[i], names[j]))
  {
    hide Touches, PlacedAlong, BreadthFirst, NotReachedBefore, IsComponent, Extends, StartsFirst, SideBySide;
    var names := groups[g].names;
    assert IsGroup(links, Listed(order), layout, groups[g]);
    assert PlacedWhereReached(links, layout, names, k);
    var j: nat, i: nat :| ReachedAt(links, names, k, j, i) && PlacedAlong(links[i], layout, names[j], names[k]);
    PlacedAlongTouches(links[i], layout, names[j], names[k]);
  }

  /** The drawing begins in the origin: nothing lies beyond, the topmost screens of all groups lie at 0. */
  lemma DrawnFromOrigin(links: seq<ScreenLink>, order: seq<string>, layout: Drawing, groups: seq<Group>)
    requires LaidOut(links, order, layout, groups)
    ensures forall n :: n in layout ==> layout[n].x >= 0.0 && layout[n].y >= 0.0
    ensures forall i :: 0 <= i < |groups| ==> exists n :: n in groups[i].names && n in layout && layout[n].y == 0.0
    ensures groups != [] ==> exists n :: n in groups[0].names && n in layout && layout[n].x == 0.0
  {
    hide IsComponent, PlacedInOrder, SideBySide, StartsFirst, NamedIn;
    forall n | n in layout
      ensures layout[n].x >= 0.0 && layout[n].y >= 0.0
    {
      var i := GroupOf(links, order, layout, groups, n);
      assert IsGroup(links, Listed(order), layout, groups[i]);
      GroupsStartAtZero(groups, i);
    }
    forall i | 0 <= i < |groups|
      ensures exists n :: n in groups[i].names && n in layout && layout[n].y == 0.0
    {
      assert IsGroup(links, Listed(order), layout, groups[i]);
    }
    if groups != [] {
      assert IsGroup(links, Listed(order), layout, groups[0]);
      FirstGroupAtZero(groups);
    }
  }

  lemma GroupOf(links: seq<ScreenLink>, order: seq<string>, layout: Drawing, groups: seq<Group>, n: string)
    returns (i: nat)
    requires LaidOut(links, order, layout, groups) && n in layout
    ensures i < |groups| && n in groups[i].names
  {
    hide IsGroup, StartsFirst, SideBySide;
    assert NamedIn(groups, n);
    i :| 0 <= i < |groups| && n in groups[i].names;
  }

  lemma FirstGroupAtZero(groups: seq<Group>)
    requires SideBySide(groups) && groups != []
    ensures groups[0].left == 0.0
  {
  }

  lemma {:induction false} GroupsStartAtZero(groups: seq<Group>, i: nat)
    requires SideBySide(groups) && i < |groups|
    ensures groups[i].left >= 0.0
  {
    if i > 0 {
      GroupsStartAtZero(groups, i - 1);
    }
  }

  /** A group lies three units to the right of the one before it: of some screen of that, and of none less. */
  lemma GapIsExact(links: seq<ScreenLink>, order: seq<string>, layout: Drawing, groups: seq<Group>, i: nat)
    requires LaidOut(links, order, layout, groups) && 0 < i < |groups|
    ensures exists a, b :: a in groups[i].names && b in groups[i - 1].names && a in layout && b in layout
                           && layout[a].x == layout[b].RightX() + 3.0
    ensures forall a, b :: a in groups[i].names && b in groups[i - 1].names ==>
              a in layout && b in layout && layout[a].x >= layout[b].RightX() + 3.0
  {
    hide IsComponent, PlacedInOrder, StartsFirst, NamedIn;
    assert IsGroup(links, Listed(order), layout, groups[i]);
    assert IsGroup(links, Listed(order), layout, groups[i - 1]);
    var a :| a in groups[i].names && layout[a].x == groups[i].left;
    var b :| b in groups[i - 1].names && layout[b].RightX() == groups[i - 1].right;
    assert layout[a].x == layout[b].RightX() + 3.0;
  }

  /** The first screen of the order, the server's if it is listed, is in the first group and of the usual size. */
  lemma FirstIsUsual(links: seq<ScreenLink>, order: seq<string>, layout: Drawing, groups: seq<Group>)
    requires LaidOut(links, order, layout, groups) && layout.Keys == Listed(order) && order != []
    ensures groups != [] && groups[0].names != [] && groups[0].names[0] == order[0]
    ensures order[0] in layout && layout[order[0]].w == 16.0 && layout[order[0]].h == 9.0
  {
    hide IsComponent, SideBySide, Extends, BreadthFirst;
    assert order[0] in layout;
    assert NamedIn(groups, order[0]);
    assert IsGroup(links, Listed(order), layout, groups[0]) && StartsFirst(order, groups, 0);
    assert !NamedIn(groups[..0], order[0]);
    var k :| 0 <= k < |order| && order[k] == groups[0].names[0]
      && forall j :: 0 <= j < k ==> NamedIn(groups[..0], order[j]);
    assert k == 0;
  }

  // ---------------------------------------------------------------------------
  // There is one layout
  // ---------------------------------------------------------------------------

  ghost predicate IsReached(links: seq<ScreenLink>, names: seq<string>, k: nat) {
    exists j: nat, i: nat :: ReachedAt(links, names, k, j, i)
  }

  lemma LeadsToOne(link: ScreenLink, a: string, b: string, c: string)
    requires Leads(link, a, b) && Leads(link, a, c)
    ensures b == c
  {
  }

  /** A screen is first reached from one screen and by one link. */
  lemma ReachedOnce(links: seq<ScreenLink>, names: seq<string>, k: nat, j: nat, i: nat, j': nat, i': nat)
    requires ReachedAt(links, names, k, j, i) && ReachedAt(links, names, k, j', i')
    ensures j == j' && i == i'
  {
    assert links[i] in links && links[i'] in links;
    assert Adjacent(links, names[j], names[k]) && Adjacent(links, names[j'], names[k]);
  }

  /** What is reached first by way of (j, i) is not reached later than any other way to it. */
  lemma ReachedNoLater(links: seq<ScreenLink>, names: seq<string>, k: nat, j: nat, i: nat, j': nat, i': nat)
    requires ReachedAt(links, names, k, j, i)
    requires j' < |names| && i' < |links| && Leads(links[i'], names[j'], names[k])
    ensures (j == j' && i == i') || Before(j, i, j', i')
  {
    assert links[i'] in links && Adjacent(links, names[j'], names[k]);
  }

  /** Of two ways to search from the same beginning, none can reach its next screen before the other does. */
  lemma NextIsNoEarlier(links: seq<ScreenLink>, names: seq<string>, other: seq<string>, k: nat,
                        j: nat, i: nat, j': nat, i': nat)
    requires k < |names| && k < |other| && names[..k] == other[..k]
    requires ReachedAt(links, names, k, j, i) && ReachedAt(links, other, k, j', i')
    requires BreadthFirst(links, other) && names[k] in other && names[k] !in names[..k]
    requires forall m: nat :: 0 < m < |other| ==> IsReached(links, other, m)
    requires other[0] == names[0]
    ensures names[k] == other[k] || !Before(j, i, j', i')
  {
    hide BreadthFirst, NotReachedBefore, Leads;
    if names[k] != other[k] {
      assert forall l :: 0 <= l < k ==> other[l] == other[..k][l] == names[..k][l];
      var m: nat :| m < |other| && other[m] == names[k];
      assert IsReached(links, other, m);
      var a: nat, b: nat :| ReachedAt(links, other, m, a, b);
      assert names[..k][j] == other[..k][j];
      ReachedNoLater(links, other, m, a, b, j, i);
      LaterIsReachedLater(links, other, k, j', i', m, a, b);
    }
  }

  lemma LaterIsReachedLater(links: seq<ScreenLink>, names: seq<string>, k: nat, j: nat, i: nat, k': nat, j': nat,
                            i': nat)
    requires BreadthFirst(links, names) && ReachedAt(links, names, k, j, i) && ReachedAt(links, names, k', j', i')
    requires k < k'
    ensures Before(j, i, j', i')
  {
  }

  /** What makes a list of names the order of a search: the names of a component, each reached as it is. */
  ghost predicate IsSearch(links: seq<ScreenLink>, names: seq<string>) {
    && names != []
    && (forall i, j :: 0 <= i < j < |names| ==> names[i] != names[j])
    && (forall k: nat :: 0 < k < |names| ==> IsReached(links, names, k))
    && BreadthFirst(links, names)
  }

  lemma PlacedIsSearch(links: seq<ScreenLink>, drawing: Drawing, names: seq<string>)
    requires PlacedInOrder(links, drawing, names)
    ensures IsSearch(links, names)
  {
    hide BreadthFirst, NotReachedBefore, PlacedAlong;
    forall k: nat | 0 < k < |names|
      ensures IsReached(links, names, k)
    {
      assert PlacedWhereReached(links, drawing, names, k);
    }
  }

  lemma SameNext(links: seq<ScreenLink>, names: seq<string>, other: seq<string>, k: nat)
    requires IsSearch(links, names) && IsSearch(links, other)
    requires (forall n :: n in names <==> n in other)
    requires 0 < k < |names| && k < |other| && names[..k] == other[..k]
    ensures names[k] == other[k]
  {
    hide BreadthFirst, ReachedAt;
    assert IsReached(links, names, k) && IsReached(links, other, k);
    var j: nat, i: nat :| ReachedAt(links, names, k, j, i);
    var j': nat, i': nat :| ReachedAt(links, other, k, j', i');
    assert names[..k][0] == other[..k][0];
    assert names[k] in other && other[k] in names;
    assert names[k] !in names[..k] && other[k] !in other[..k];
    NextIsNoEarlier(links, names, other, k, j, i, j', i');
    NextIsNoEarlier(links, other, names, k, j', i', j, i);
    if names[k] != other[k] {
      SameWay(links, names, other, k, j, i, j', i');
    }
  }

  lemma SameWay(links: seq<ScreenLink>, names: seq<string>, other: seq<string>, k: nat,
                j: nat, i: nat, j': nat, i': nat)
    requires k < |names| && k < |other| && names[..k] == other[..k]
    requires ReachedAt(links, names, k, j, i) && ReachedAt(links, other, k, j', i')
    requires !Before(j, i, j', i') && !Before(j', i', j, i)
    ensures names[k] == other[k]
  {
    assert names[..k][j] == other[..k][j];
    LeadsToOne(links[i], names[j], names[k], other[k]);
  }

  lemma {:induction false} SamePrefix(links: seq<ScreenLink>, names: seq<string>, other: seq<string>, k: nat)
    requires IsSearch(links, names) && IsSearch(links, other) && names[0] == other[0]
    requires (forall n :: n in names <==> n in other)
    requires 0 < k <= |names| && k <= |other|
    ensures names[..k] == other[..k]
    decreases k
  {
    hide IsSearch;
    if k > 1 {
      SamePrefix(links, names, other, k - 1);
      SameNext(links, names, other, k - 1);
      assert names[..k] == names[..k - 1] + [names[k - 1]] && other[..k] == other[..k - 1] + [other[k - 1]];
    }
  }

  lemma {:induction false} DistinctAreCounted(names: seq<string>)
    requires forall i, j :: 0 <= i < j < |names| ==> names[i] != names[j]
    ensures |Listed(names)| == |names|
  {
    if names != [] {
      var rest, last := names[..|names| - 1], names[|names| - 1];
      DistinctAreCounted(rest);
      assert last !in rest;
      assert forall n :: n in names <==> n in rest || n == last;
      assert Listed(names) == Listed(rest) + {last};
    } else {
      assert Listed(names) == {};
    }
  }

  lemma SameNames(names: seq<string>, other: seq<string>)
    requires forall i, j :: 0 <= i < j < |names| ==> names[i] != names[j]
    requires forall i, j :: 0 <= i < j < |other| ==> other[i] != other[j]
    requires forall n :: n in names <==> n in other
    ensures |names| == |other|
  {
    DistinctAreCounted(names);
    DistinctAreCounted(other);
    assert Listed(names) == Listed(other);
  }

  /** The breadth-first order of a component from one of its screens is unique. */
  lemma SameSearch(links: seq<ScreenLink>, names: seq<string>, other: seq<string>)
    requires IsSearch(links, names) && IsSearch(links, other) && names[0] == other[0]
    requires (forall n :: n in names <==> n in other)
    ensures names == other
  {
    hide BreadthFirst, IsReached;
    SameNames(names, other);
    SamePrefix(links, names, other, |names|);
    assert names[..|names|] == names && other[..|other|] == other;
  }

  /** Drawings of a search that start with moved first screens are moved altogether. */
  lemma {:induction false} MovedAltogether(links: seq<ScreenLink>, drawing: Drawing, other: Drawing,
                                           names: seq<string>, dx: real, dy: real, k: nat)
    requires PlacedInOrder(links, drawing, names) && PlacedInOrder(links, other, names) && k < |names|
    requires other[names[0]] == drawing[names[0]].Translated(dx, dy)
    ensures other[names[k]] == drawing[names[k]].Translated(dx, dy)
    decreases k
  {
    hide BreadthFirst, NotReachedBefore, PlaceAgainst;
    if k > 0 {
      assert PlacedWhereReached(links, drawing, names, k) && PlacedWhereReached(links, other, names, k);
      var j: nat, i: nat :| ReachedAt(links, names, k, j, i) && PlacedAlong(links[i], drawing, names[j], names[k]);
      var j': nat, i': nat :| ReachedAt(links, names, k, j', i') && PlacedAlong(links[i'], other, names[j'], names[k]);
      ReachedOnce(links, names, k, j, i, j', i');
      MovedAltogether(links, drawing, other, names, dx, dy, j);
      PlaceAgainstTranslated(drawing[names[j]], Outward(links[i], names[j]), dx, dy);
    }
  }

  lemma SameExtent(drawing: Drawing, other: Drawing, names: seq<string>, dx: real, dy: real,
                   left: real, right: real, left': real, right': real)
    requires Extends(drawing, names, left, right, 0.0) && Extends(other, names, left', right', 0.0)
    requires forall n :: n in names ==> other[n] == drawing[n].Translated(dx, dy)
    ensures dy == 0.0 && left' == left + dx && right' == right + dx
  {
    var l :| l in names && drawing[l].x == left;
    var r :| r in names && drawing[r].RightX() == right;
    var t :| t in names && drawing[t].y == 0.0;
    var l' :| l' in names && other[l'].x == left';
    var r' :| r' in names && other[r'].RightX() == right';
    var t' :| t' in names && other[t'].y == 0.0;
    assert other[l].x == left + dx && other[r].RightX() == right + dx && other[t].y == dy;
    assert drawing[l'].x == left' - dx && drawing[r'].RightX() == right' - dx && drawing[t'].y == -dy;
  }

  /** Groups with the same first screen and the same left end are the same, and drawn the same. */
  lemma SameGroup(links: seq<ScreenLink>, listed: set<string>, layout: Drawing, other: Drawing, g: Group, h: Group)
    requires IsGroup(links, listed, layout, g) && IsGroup(links, listed, other, h)
    requires g.names[0] == h.names[0] && g.left == h.left
    ensures g == h && forall n :: n in g.names ==> other[n] == layout[n]
  {
    hide Connected, Extends, BreadthFirst, PlacedWhereReached;
    PlacedIsSearch(links, layout, g.names);
    PlacedIsSearch(links, other, h.names);
    SameSearch(links, g.names, h.names);
    var names := g.names;
    var dx, dy := other[names[0]].x - layout[names[0]].x, other[names[0]].y - layout[names[0]].y;
    forall k: nat | k < |names|
      ensures other[names[k]] == layout[names[k]].Translated(dx, dy)
    {
      MovedAltogether(links, layout, other, names, dx, dy, k);
    }
    SameExtent(layout, other, names, dx, dy, g.left, g.right, h.left, h.right);
  }

  lemma SameFirst(order: seq<string>, groups: seq<Group>, other: seq<Group>, i: nat)
    requires i < |groups| && i < |other| && groups[..i] == other[..i]
    requires groups[i].names != [] && other[i].names != []
    requires StartsFirst(order, groups, i) && StartsFirst(order, other, i)
    requires !NamedIn(groups[..i], groups[i].names[0]) && !NamedIn(other[..i], other[i].names[0])
    ensures groups[i].names[0] == other[i].names[0]
  {
    hide NamedIn;
    var k :| 0 <= k < |order| && order[k] == groups[i].names[0]
      && forall j :: 0 <= j < k ==> NamedIn(groups[..i], order[j]);
    var l :| 0 <= l < |order| && order[l] == other[i].names[0]
      && forall j :: 0 <= j < l ==> NamedIn(other[..i], order[j]);
    assert !(k < l) && !(l < k);
  }

  lemma FirstIsElsewhere(links: seq<ScreenLink>, order: seq<string>, layout: Drawing, groups: seq<Group>, i: nat,
                         j: nat)
    requires LaidOut(links, order, layout, groups) && j < i < |groups|
    ensures groups[i].names != [] && groups[i].names[0] !in groups[j].names
  {
    hide IsComponent, StartsFirst, BreadthFirst, PlacedWhereReached, SideBySide;
    var listed := Listed(order);
    assert IsGroup(links, listed, layout, groups[i]) && IsGroup(links, listed, layout, groups[j]);
    var first := groups[i].names[0];
    assert layout[first].w == WIDTH;
    if first in groups[j].names {
      GroupsAreApart(links, listed, layout, groups, j, i, first, first);
    }
  }

  /** No group holds the first screen of a later one. */
  lemma FirstIsNew(links: seq<ScreenLink>, order: seq<string>, layout: Drawing, groups: seq<Group>, i: nat)
    requires LaidOut(links, order, layout, groups) && i < |groups|
    ensures groups[i].names != [] && !NamedIn(groups[..i], groups[i].names[0])
  {
    hide IsComponent, StartsFirst, PlacedInOrder, SideBySide, Extends;
    GroupIsNamed(links, Listed(order), layout, groups[i]);
    forall j | 0 <= j < i
      ensures groups[i].names[0] !in groups[..i][j].names
    {
      FirstIsElsewhere(links, order, layout, groups, i, j);
    }
  }

  lemma GroupIsNamed(links: seq<ScreenLink>, listed: set<string>, layout: Drawing, group: Group)
    requires IsGroup(links, listed, layout, group)
    ensures group.names != []
  {
  }

  lemma SameLeft(groups: seq<Group>, other: seq<Group>, i: nat)
    requires SideBySide(groups) && SideBySide(other) && i < |groups| && i < |other| && groups[..i] == other[..i]
    ensures groups[i].left == other[i].left
  {
    if i > 0 {
      assert groups[..i][i - 1] == other[..i][i - 1];
    }
  }

  lemma {:induction false} SameGroups(links: seq<ScreenLink>, order: seq<string>, layout: Drawing, other: Drawing,
                                      groups: seq<Group>, groups': seq<Group>, i: nat)
    requires LaidOut(links, order, layout, groups) && LaidOut(links, order, other, groups')
    requires i <= |groups| && i <= |groups'|
    ensures groups[..i] == groups'[..i]
    ensures forall j, n :: 0 <= j < i && n in groups[j].names ==> n in layout && n in other && other[n] == layout[n]
    decreases i
  {
    hide IsComponent, StartsFirst, PlacedInOrder, Extends, SideBySide, NamedIn;
    if i > 0 {
      var k := i - 1;
      SameGroups(links, order, layout, other, groups, groups', k);
      var listed := Listed(order);
      assert IsGroup(links, listed, layout, groups[k]) && IsGroup(links, listed, other, groups'[k]);
      FirstIsNew(links, order, layout, groups, k);
      FirstIsNew(links, order, other, groups', k);
      SameFirst(order, groups, groups', k);
      SameLeft(groups, groups', k);
      SameGroup(links, listed, layout, other, groups[k], groups'[k]);
      GroupIsDrawn(links, listed, layout, groups[k]);
      GroupIsDrawn(links, listed, other, groups'[k]);
      assert groups[..i] == groups[..k] + [groups[k]] && groups'[..i] == groups'[..k] + [groups'[k]];
    }
  }

  lemma GroupIsDrawn(links: seq<ScreenLink>, listed: set<string>, layout: Drawing, group: Group)
    requires IsGroup(links, listed, layout, group)
    ensures forall n :: n in group.names ==> n in layout
  {
  }

  /** All listed screens are named in the groups, so that there cannot be one more. */
  lemma NoMoreGroups(links: seq<ScreenLink>, order: seq<string>, layout: Drawing, other: Drawing,
                     groups: seq<Group>, groups': seq<Group>)
    requires LaidOut(links, order, layout, groups) && LaidOut(links, order, other, groups')
    requires layout.Keys == Listed(order) == other.Keys
    ensures |groups'| <= |groups|
  {
    hide IsComponent, StartsFirst, PlacedInOrder, Extends, SideBySide;
    var n := |groups|;
    if n < |groups'| {
      SameGroups(links, order, layout, other, groups, groups', n);
      assert IsGroup(links, Listed(order), other, groups'[n]);
      GroupIsNamed(links, Listed(order), other, groups'[n]);
      GroupIsDrawn(links, Listed(order), other, groups'[n]);
      assert groups'[n].names[0] in layout && NamedIn(groups, groups'[n].names[0]);
      assert groups[..n] == groups;
      FirstIsNew(links, order, other, groups', n);
    }
  }

  /** The links and the order of the screens determine the drawing: there is no other layout. */
  lemma OneLayout(links: seq<ScreenLink>, order: seq<string>, layout: Drawing, other: Drawing,
                  groups: seq<Group>, groups': seq<Group>)
    requires LaidOut(links, order, layout, groups) && LaidOut(links, order, other, groups')
    requires layout.Keys == Listed(order) == other.Keys
    ensures groups == groups' && layout == other
  {
    hide IsComponent, StartsFirst, PlacedInOrder, Extends, SideBySide;
    NoMoreGroups(links, order, layout, other, groups, groups');
    NoMoreGroups(links, order, other, layout, groups', groups);
    SameGroups(links, order, layout, other, groups, groups', |groups|);
    assert groups[..|groups|] == groups && groups'[..|groups|] == groups';
    forall n | n in layout
      ensures other[n] == layout[n]
    {
      assert NamedIn(groups, n);
      var j :| 0 <= j < |groups| && n in groups[j].names;
    }
  }

  // ---------------------------------------------------------------------------
  // The view
  // ---------------------------------------------------------------------------

  /** The order of layout: screens of the server's name go to the front, the others to the back. */
  function LayoutOrder(screens: seq<string>, isServer: string -> bool): seq<string> {
    if screens == [] then []
    else
      var last := screens[|screens| - 1];
      var order := LayoutOrder(screens[..|screens| - 1], isServer);
      if isServer(last) then [last] + order else order + [last]
  }

  lemma {:induction false} OrderHasServerFirst(screens: seq<string>, isServer: string -> bool)
    ensures multiset(LayoutOrder(screens, isServer)) == multiset(screens)
    ensures var order := LayoutOrder(screens, isServer);
            forall i, j :: 0 <= i < j < |order| && isServer(order[j]) ==> isServer(order[i])
  {
    if screens != [] {
      var rest := screens[..|screens| - 1];
      OrderHasServerFirst(rest, isServer);
      assert screens == rest + [screens[|screens| - 1]];
    }
  }

  /** The screens of the server's name, or the others, in the order in which they are listed. */
  function Chosen(screens: seq<string>, isServer: string -> bool, server: bool): seq<string> {
    if screens == [] then []
    else (if isServer(screens[0]) == server then [screens[0]] else []) + Chosen(screens[1..], isServer, server)
  }

  lemma {:induction false} ChosenSnoc(screens: seq<string>, last: string, isServer: string -> bool, server: bool)
    ensures Chosen(screens + [last], isServer, server)
            == Chosen(screens, isServer, server) + if isServer(last) == server then [last] else []
  {
    if screens == [] {
      assert screens + [last] == [last] && Chosen([], isServer, server) == [];
    } else {
      assert (screens + [last])[1..] == screens[1..] + [last];
      ChosenSnoc(screens[1..], last, isServer, server);
    }
  }

  /** The others keep their order; of several screens of the server's name, a later one comes earlier. */
  lemma {:induction false} OrderOfOthersIsKept(screens: seq<string>, isServer: string -> bool)
    ensures var servers, order := Chosen(screens, isServer, true), LayoutOrder(screens, isServer);
            && |servers| <= |order| && order[|servers|..] == Chosen(screens, isServer, false)
            && forall i :: 0 <= i < |servers| ==> order[i] == servers[|servers| - 1 - i]
  {
    if screens != [] {
      var rest, last := screens[..|screens| - 1], screens[|screens| - 1];
      OrderOfOthersIsKept(rest, isServer);
      ChosenSnoc(rest, last, isServer, true);
      ChosenSnoc(rest, last, isServer, false);
      assert screens == rest + [last];
    }
  }

  lemma OrderListsScreens(screens: seq<string>, isServer: string -> bool)
    ensures Listed(LayoutOrder(screens, isServer)) == Listed(screens)
  {
    OrderHasServerFirst(screens, isServer);
    var order := LayoutOrder(screens, isServer);
    forall n
      ensures n in order <==> n in screens
    {
      assert n in order <==> n in multiset(order);
    }
  }

  predicate AllHaveStretches(links: seq<ScreenLink>) {
    forall i :: 0 <= i < |links| ==> links[i].HasStretches()
  }

  predicate AllHaveArea(drawing: Drawing) {
    forall n :: n in drawing ==> drawing[n].HasArea()
  }

  function Min(a: real, b: real): real { if a < b then a else b }
  function Max(a: real, b: real): real { if a < b then b else a }

  /** The smallest rectangle that holds both. */
  function United(a: Rect, b: Rect): Rect {
    var x, y := Min(a.x, b.x), Min(a.y, b.y);
    Rect(x, y, Max(a.RightX(), b.RightX()) - x, Max(a.BottomY(), b.BottomY()) - y)
  }

  /** The lowest bottom of the named screens. */
  predicate ReachesDown(drawing: Drawing, names: seq<string>, bottom: real) {
    && (forall n :: n in names ==> n in drawing && drawing[n].BottomY() <= bottom)
    && (exists n :: n in names && n in drawing && drawing[n].BottomY() == bottom)
  }

  method Bounds(drawing: Drawing, ghost names: seq<string>) returns (bounds: Rect)
    requires AllHaveArea(drawing) && names != [] && Listed(names) == drawing.Keys
    ensures Extends(drawing, names, bounds.x, bounds.RightX(), bounds.y)
    ensures ReachesDown(drawing, names, bounds.BottomY())
  {
    var rest := drawing.Keys;
    var first :| first in rest by { assert names[0] in drawing; }
    rest := rest - {first};
    bounds := drawing[first];
    assert first in names;
    while rest != {}
      invariant rest <= drawing.Keys
      invariant forall n :: n in drawing && n !in rest ==>
                  bounds.x <= drawing[n].x && drawing[n].RightX() <= bounds.RightX() && bounds.y <= drawing[n].y
      invariant exists n :: n in names && drawing[n].x == bounds.x
      invariant exists n :: n in names && drawing[n].RightX() == bounds.RightX()
      invariant exists n :: n in names && drawing[n].y == bounds.y
      invariant forall n :: n in drawing && n !in rest ==> drawing[n].BottomY() <= bounds.BottomY()
      invariant exists n :: n in names && drawing[n].BottomY() == bounds.BottomY()
    {
      var name :| name in rest;
      rest := rest - {name};
      assert name in names;
      bounds := United(bounds, drawing[name]);
    }
  }

  /** Every link from one of the first `done` names to a listed screen leads to one of the names. */
  ghost predicate Explored(links: seq<ScreenLink>, listed: set<string>, names: seq<string>, done: nat)
    requires done <= |names|
  {
    forall j, n | 0 <= j < done && n in listed && Adjacent(links, names[j], n) :: n in names
  }

  /** What holds of a group while it is laid out. */
  ghost predicate Growing(links: seq<ScreenLink>, listed: set<string>, layout: Drawing, first: string,
                          drawing: Drawing, names: seq<string>)
  {
    && PlacedInOrder(links, drawing, names) && names[0] == first
    && Listed(names) == drawing.Keys && AllHaveArea(drawing)
    && drawing.Keys <= listed && drawing.Keys !! layout.Keys
    && forall n :: n in names ==> Connected(links, listed, first, n)
  }

  lemma ReachedInLonger(links: seq<ScreenLink>, names: seq<string>, to: string, k: nat, j: nat, i: nat)
    requires k < |names|
    ensures ReachedAt(links, names + [to], k, j, i) <==> ReachedAt(links, names, k, j, i)
  {
    var names' := names + [to];
    if j < k {
      assert names'[k] == names[k] && names'[j] == names[j];
      assert forall j' | 0 <= j' < j :: names'[j'] == names[j'];
    }
  }

  /** Every name so far was reached before the i-th link of the j-th name. */
  ghost predicate ReachedBefore(links: seq<ScreenLink>, names: seq<string>, j: nat, i: nat) {
    forall k: nat, j': nat, i': nat | ReachedAt(links, names, k, j', i') :: Before(j', i', j, i)
  }

  lemma BreadthFirstGrows(links: seq<ScreenLink>, names: seq<string>, to: string, done: nat, i: nat)
    requires BreadthFirst(links, names) && ReachedBefore(links, names, done, i)
    requires ReachedAt(links, names + [to], |names|, done, i)
    ensures BreadthFirst(links, names + [to]) && ReachedBefore(links, names + [to], done, i + 1)
  {
    hide NotReachedBefore;
    var names' := names + [to];
    forall k: nat, j: nat, l: nat | ReachedAt(links, names', k, j, l)
      ensures k < |names| ==> ReachedAt(links, names, k, j, l) && Before(j, l, done, i)
      ensures k >= |names| ==> k == |names| && j == done && l == i
    {
      if k < |names| {
        ReachedInLonger(links, names, to, k, j, l);
      } else {
        ReachedOnce(links, names', k, j, l, done, i);
      }
    }
  }

  lemma PlacedInOrderGrows(links: seq<ScreenLink>, drawing: Drawing, names: seq<string>, to: string, done: nat, i: nat)
    requires PlacedInOrder(links, drawing, names) && to !in names
    requires BreadthFirst(links, names + [to])
    requires ReachedAt(links, names + [to], |names|, done, i) && PlacedAlong(links[i], drawing, names[done], to)
    ensures PlacedInOrder(links, drawing, names + [to])
  {
    hide PlacedAlong, BreadthFirst, NotReachedBefore;
    var names' := names + [to];
    forall k | 0 < k < |names'|
      ensures PlacedWhereReached(links, drawing, names', k)
    {
      if k < |names| {
        assert PlacedWhereReached(links, drawing, names, k);
        var j: nat, l: nat :| ReachedAt(links, names, k, j, l) && PlacedAlong(links[l], drawing, names[j], names[k]);
        ReachedInLonger(links, names, to, k, j, l);
        assert names'[j] == names[j] && names'[k] == names[k];
      } else {
        assert names'[done] == names[done] && names'[k] == to;
      }
    }
    assert to in drawing by { PlacedAlongDrawn(links[i], drawing, names[done], to); }
  }

  lemma PlacedAlongDrawn(link: ScreenLink, drawing: Drawing, from: string, to: string)
    requires PlacedAlong(link, drawing, from, to)
    ensures from in drawing && to in drawing
  {
  }

  /** A listed screen that is not yet among the names is first reached by the link that is followed now. */
  lemma ReachedNow(links: seq<ScreenLink>, listed: set<string>, names: seq<string>, to: string, done: nat, i: nat)
    requires done < |names| && i < |links| && Leads(links[i], names[done], to) && to in listed && to !in names
    requires Explored(links, listed, names, done) && Followed(links[..i], listed, names[done], names)
    ensures ReachedAt(links, names + [to], |names|, done, i)
  {
    var names' := names + [to];
    assert names'[|names|] == to && names'[done] == names[done];
    forall i' | 0 <= i' < i
      ensures !Leads(links[i'], names'[done], to)
    {
      var prefix := links[..i];
      assert prefix[i'] in prefix;
    }
    assert forall j' | 0 <= j' < done :: names'[j'] == names[j'];
  }

  lemma GrowsByLink(links: seq<ScreenLink>, listed: set<string>, layout: Drawing, first: string,
                    drawing: Drawing, names: seq<string>, done: nat, i: nat)
    requires Growing(links, listed, layout, first, drawing, names) && AllHaveStretches(links)
    requires done < |names| && i < |links| && LeadsFrom(links[i], names[done])
    requires Explored(links, listed, names, done) && Followed(links[..i], listed, names[done], names)
    requires ReachedBefore(links, names, done, i)
    requires var name := Outward(links[i], names[done]).target; name in listed && name !in drawing && name !in layout
    ensures var outward := Outward(links[i], names[done]);
            var names' := names + [outward.target];
            && Growing(links, listed, layout, first,
                       drawing[outward.target := PlaceAgainst(drawing[names[done]], outward)], names')
            && ReachedBefore(links, names', done, i + 1) && Explored(links, listed, names', done)
  {
    hide PlaceAgainst, PlacedInOrder, Connected, BreadthFirst, NotReachedBefore, ReachedBefore, Followed;
    var current := names[done];
    GrowingIsDrawn(links, listed, layout, first, drawing, names);
    var outward := Outward(links[i], current);
    var name := outward.target;
    var drawing' := drawing[name := PlaceAgainst(drawing[current], outward)];
    ReachedNow(links, listed, names, name, done, i);
    InOrderIsBreadthFirst(links, drawing, names);
    BreadthFirstGrows(links, names, name, done, i);
    ConnectedStep(links, listed, first, current, name);
    assert PlacedAlong(links[i], drawing', current, name);
    PlacedInOrderAgrees(links, drawing, drawing', names);
    PlacedInOrderGrows(links, drawing', names, name, done, i);
    FirstOfLonger(links, drawing, names, drawing', name);
  }

  lemma InOrderIsBreadthFirst(links: seq<ScreenLink>, drawing: Drawing, names: seq<string>)
    requires PlacedInOrder(links, drawing, names)
    ensures BreadthFirst(links, names)
  {
  }

  lemma FirstOfLonger(links: seq<ScreenLink>, drawing: Drawing, names: seq<string>, drawing': Drawing, name: string)
    requires PlacedInOrder(links, drawing, names) && Listed(names) == drawing.Keys
    requires drawing'.Keys == drawing.Keys + {name}
    ensures (names + [name])[0] == names[0] && Listed(names + [name]) == drawing'.Keys
  {
  }

  lemma SingleGrows(links: seq<ScreenLink>, listed: set<string>, layout: Drawing, first: string)
    requires first in listed && first !in layout
    ensures Growing(links, listed, layout, first, map[first := Rect(0.0, 0.0, WIDTH, HEIGHT)], [first])
  {
    ConnectedToItself(links, listed, first);
  }

  lemma NothingReached(links: seq<ScreenLink>, listed: set<string>, first: string)
    ensures ReachedBefore(links, [first], 0, 0) && Explored(links, listed, [first], 0)
  {
  }

  /** Every one of the links that leads from the screen to a listed screen leads to one of the names. */
  ghost predicate Followed(links: seq<ScreenLink>, listed: set<string>, current: string, names: seq<string>) {
    forall link, n | link in links && n in listed && Leads(link, current, n) :: n in names
  }

  lemma FollowedOneMore(links: seq<ScreenLink>, listed: set<string>, layout: Drawing, current: string,
                        names: seq<string>, names': seq<string>, i: nat)
    requires i < |links| && Followed(links[..i], listed, current, names)
    requires current in listed && current !in layout && Closed(links, listed, layout.Keys)
    requires forall n :: n in names ==> n in names'
    requires LeadsFrom(links[i], current) ==>
               var name := Outward(links[i], current).target;
               name in names' || name in layout || name !in listed
    ensures Followed(links[..i + 1], listed, current, names')
  {
    hide Closed;
    var prefix := links[..i + 1];
    forall link, n | link in prefix && n in listed && Leads(link, current, n)
      ensures n in names'
    {
      if link !in links[..i] {
        assert link == links[i];
        assert Adjacent(links, current, n);
        PlacedIsNeverReached(links, listed, layout.Keys, current, n);
      }
    }
  }

  lemma ExploredOneMore(links: seq<ScreenLink>, listed: set<string>, names: seq<string>, done: nat)
    requires done < |names| && Explored(links, listed, names, done) && Followed(links, listed, names[done], names)
    requires ReachedBefore(links, names, done, |links|)
    ensures Explored(links, listed, names, done + 1) && ReachedBefore(links, names, done + 1, 0)
  {
    hide NotReachedBefore;
  }

  lemma ExploredIsComponent(links: seq<ScreenLink>, listed: set<string>, layout: Drawing, first: string,
                            drawing: Drawing, names: seq<string>)
    requires Growing(links, listed, layout, first, drawing, names) && Explored(links, listed, names, |names|)
    ensures IsComponent(links, listed, names) && Closed(links, listed, drawing.Keys)
  {
    hide Connected, PlacedWhereReached, BreadthFirst;
    assert Closed(links, listed, drawing.Keys) by {
      forall a, b | a in drawing.Keys && b in listed && Adjacent(links, a, b)
        ensures b in drawing.Keys
      {
        assert a in names;
        var j :| 0 <= j < |names| && names[j] == a;
        assert b in names;
      }
    }
    forall n | Connected(links, listed, first, n)
      ensures n in names
    {
      ConnectedStaysInside(links, listed, drawing.Keys, first, n);
    }
  }

  /** Places whatever the links lead to from `current` that no group holds yet. */
  method FollowLinks(links: seq<ScreenLink>, order: seq<string>, layout: Drawing, current: string,
                     group: Drawing, pending: seq<string>, ghost first: string, ghost names: seq<string>,
                     ghost done: nat)
    returns (group': Drawing, pending': seq<string>, ghost names': seq<string>)
    requires AllHaveStretches(links) && Closed(links, Listed(order), layout.Keys)
    requires Growing(links, Listed(order), layout, first, group, names) && done < |names| && current == names[done]
    requires Explored(links, Listed(order), names, done) && ReachedBefore(links, names, done, 0)
    ensures Growing(links, Listed(order), layout, first, group', names')
    ensures names <= names' && pending' == pending + names'[|names|..]
    ensures Explored(links, Listed(order), names', done + 1) && ReachedBefore(links, names', done + 1, 0)
    ensures (group'.Keys == group.Keys && pending' == pending) || group.Keys < group'.Keys
  {
    hide Closed, Growing, Followed, PlaceAgainst, ReachedBefore, Explored;
    group', pending', names' := group, pending, names;
    GrowingIsDrawn(links, Listed(order), layout, first, group, names);
    assert Followed(links[..0], Listed(order), current, names')
      by { NothingFollowed(links, Listed(order), current, names); }
    for i := 0 to |links|
      invariant Growing(links, Listed(order), layout, first, group', names')
      invariant names <= names' && pending' == pending + names'[|names|..]
      invariant Followed(links[..i], Listed(order), current, names')
      invariant Explored(links, Listed(order), names', done) && ReachedBefore(links, names', done, i)
      invariant (group'.Keys == group.Keys && pending' == pending) || group.Keys < group'.Keys
    {
      GrowingIsDrawn(links, Listed(order), layout, first, group', names');
      ghost var before := names';
      var link := links[i];
      ReachedBeforeNext(links, names', done, i);
      if LeadsFrom(link, current) {
        var outward := Outward(link, current);
        if !(outward.target in group' || outward.target in layout || outward.target !in order) {
          GrowsByLink(links, Listed(order), layout, first, group', names', done, i);
          group' := group'[outward.target := PlaceAgainst(group'[current], outward)];
          pending' := pending' + [outward.target];
          names' := names' + [outward.target];
        }
      }
      FollowedOneMore(links, Listed(order), layout, current, before, names', i);
    }
    assert links[..|links|] == links;
    ExploredOneMore(links, Listed(order), names', done);
  }

  lemma ReachedBeforeNext(links: seq<ScreenLink>, names: seq<string>, j: nat, i: nat)
    requires ReachedBefore(links, names, j, i)
    ensures ReachedBefore(links, names, j, i + 1)
  {
  }

  lemma NothingFollowed(links: seq<ScreenLink>, listed: set<string>, current: string, names: seq<string>)
    ensures Followed(links[..0], listed, current, names)
  {
  }

  lemma GrowingIsDrawn(links: seq<ScreenLink>, listed: set<string>, layout: Drawing, first: string,
                       drawing: Drawing, names: seq<string>)
    requires Growing(links, listed, layout, first, drawing, names)
    ensures forall n :: n in names <==> n in drawing
    ensures forall n :: n in names ==> n in listed && n !in layout
    ensures AllHaveArea(drawing)
    ensures names != [] && names[0] == first && Listed(names) == drawing.Keys
  {
    assert forall n :: n in names <==> n in Listed(names);
  }

  /** Lays out everything that links connect to the first screen, which is placed at the origin. */
  method PlaceGroup(links: seq<ScreenLink>, order: seq<string>, layout: Drawing, first: string)
    returns (group: Drawing, ghost names: seq<string>)
    requires AllHaveStretches(links) && Closed(links, Listed(order), layout.Keys)
    requires first in order && first !in layout
    ensures Growing(links, Listed(order), layout, first, group, names)
    ensures IsComponent(links, Listed(order), names) && Closed(links, Listed(order), group.Keys)
  {
    hide Closed, Growing, Followed, PlaceAgainst, ReachedBefore, Explored;
    group := map[first := Rect(0.0, 0.0, WIDTH, HEIGHT)];
    var pending := [first];
    names := [first];
    SingleGrows(links, Listed(order), layout, first);
    NothingReached(links, Listed(order), first);
    GrowingIsDrawn(links, Listed(order), layout, first, group, names);
    while pending != []
      invariant Growing(links, Listed(order), layout, first, group, names)
      invariant |pending| <= |names| && pending == names[|names| - |pending|..]
      invariant Explored(links, Listed(order), names, |names| - |pending|)
      invariant ReachedBefore(links, names, |names| - |pending|, 0)
      decreases Listed(order) - group.Keys, |pending|
    {
      ghost var done := |names| - |pending|;
      var current := pending[0];
      assert current == names[done] && pending[1..] == names[done + 1..];
      pending := pending[1..];
      GrowingIsDrawn(links, Listed(order), layout, first, group, names);
      group, pending, names := FollowLinks(links, order, layout, current, group, pending, first, names, done);
      GrowingIsDrawn(links, Listed(order), layout, first, group, names);
      assert pending == names[done + 1..];
    }
    ExploredIsComponent(links, Listed(order), layout, first, group, names);
  }

  function NextGroupX(groups: seq<Group>): real {
    if groups == [] then 0.0 else groups[|groups| - 1].right + GAP
  }

  /** The groups drawn so far, each with a whole component, and the screens they hold. */
  ghost predicate LaidOutSoFar(links: seq<ScreenLink>, order: seq<string>, layout: Drawing, groups: seq<Group>) {
    && LaidOut(links, order, layout, groups)
    && Closed(links, Listed(order), layout.Keys)
  }

  /** A finished group before it is moved into place. */
  ghost predicate Finished(links: seq<ScreenLink>, listed: set<string>, drawing: Drawing, group: Group, top: real) {
    && PlacedInOrder(links, drawing, group.names)
    && Listed(group.names) == drawing.Keys && drawing.Keys <= listed
    && IsComponent(links, listed, group.names) && Closed(links, listed, drawing.Keys)
    && Extends(drawing, group.names, group.left, group.right, top) && group.left < group.right
  }

  function MovedTo(group: Group, x: real): Group {
    Group(group.names, x, x + (group.right - group.left))
  }

  lemma OldGroupStays(links: seq<ScreenLink>, listed: set<string>, layout: Drawing, layout': Drawing, group: Group)
    requires IsGroup(links, listed, layout, group)
    requires forall n :: n in layout ==> n in layout' && layout'[n] == layout[n]
    ensures IsGroup(links, listed, layout', group)
  {
    hide IsComponent, PlacedInOrder;
    PlacedInOrderAgrees(links, layout, layout', group.names);
    ExtendsAgrees(layout, layout', group.names, group.left, group.right, 0.0);
  }

  lemma MovedAgrees(drawing: Drawing, names: seq<string>, other: Drawing, dx: real, dy: real)
    requires Listed(names) == drawing.Keys
    requires var moved := Moved(drawing, dx, dy); forall n :: n in moved ==> n in other && other[n] == moved[n]
    ensures Agree(Moved(drawing, dx, dy), other, names)
  {
    assert forall n :: n in names ==> n in Listed(names);
  }

  lemma ExtendsMovedTo(drawing: Drawing, group: Group, top: real, layout': Drawing, x: real)
    requires Extends(drawing, group.names, group.left, group.right, top)
    requires Agree(Moved(drawing, x - group.left, -top), layout', group.names)
    ensures Extends(layout', group.names, x, x + (group.right - group.left), 0.0)
  {
    hide Extends, Moved, Agree;
    ExtendsMoved(drawing, group.names, group.left, group.right, top, x - group.left, -top);
    assert group.right + (x - group.left) == x + (group.right - group.left);
    ExtendsAgrees(Moved(drawing, x - group.left, -top), layout', group.names, x, x + (group.right - group.left), 0.0);
  }

  lemma NewGroupMoved(links: seq<ScreenLink>, listed: set<string>, drawing: Drawing, group: Group, top: real,
                      layout': Drawing, x: real)
    requires IsComponent(links, listed, group.names) && PlacedInOrder(links, drawing, group.names)
    requires Extends(drawing, group.names, group.left, group.right, top)
    requires Agree(Moved(drawing, x - group.left, -top), layout', group.names)
    ensures IsGroup(links, listed, layout', MovedTo(group, x))
  {
    hide IsComponent, PlacedInOrder, Extends, Moved, Agree;
    PlacedInOrderMoved(links, drawing, group.names, x - group.left, -top);
    PlacedInOrderAgrees(links, Moved(drawing, x - group.left, -top), layout', group.names);
    ExtendsMovedTo(drawing, group, top, layout', x);
  }

  lemma NamedInLonger(groups: seq<Group>, group: Group, name: string)
    ensures NamedIn(groups + [group], name) <==> NamedIn(groups, name) || name in group.names
  {
    var longer := groups + [group];
    if NamedIn(groups, name) {
      var i :| 0 <= i < |groups| && name in groups[i].names;
      assert name in longer[i].names;
    }
    if name in group.names {
      assert name in longer[|groups|].names;
    }
  }

  lemma StartsFirstLonger(order: seq<string>, groups: seq<Group>, group: Group, i: nat)
    requires i < |groups| && groups[i].names != [] && StartsFirst(order, groups, i)
    ensures StartsFirst(order, groups + [group], i)
  {
    hide NamedIn;
    assert (groups + [group])[..i] == groups[..i];
  }

  lemma StartsFirstNew(order: seq<string>, groups: seq<Group>, group: Group, k: nat)
    requires group.names != [] && k < |order| && order[k] == group.names[0]
    requires forall j :: 0 <= j < k ==> NamedIn(groups, order[j])
    ensures StartsFirst(order, groups + [group], |groups|)
  {
    hide NamedIn;
    assert (groups + [group])[..|groups|] == groups;
  }

  lemma AllStartFirst(links: seq<ScreenLink>, order: seq<string>, layout: Drawing, groups: seq<Group>,
                      group: Group, k: nat)
    requires LaidOut(links, order, layout, groups)
    requires group.names != [] && k < |order| && order[k] == group.names[0]
    requires forall j :: 0 <= j < k ==> order[j] in layout
    ensures forall i :: 0 <= i < |groups + [group]| ==>
              (groups + [group])[i].names != [] && StartsFirst(order, groups + [group], i)
  {
    hide NamedIn, StartsFirst, PlacedInOrder, Extends, SideBySide;
    forall i | 0 <= i < |groups + [group]|
      ensures (groups + [group])[i].names != [] && StartsFirst(order, groups + [group], i)
    {
      if i < |groups| {
        StartsFirstLonger(order, groups, group, i);
      } else {
        StartsFirstNew(order, groups, group, k);
      }
    }
  }

  /** Drawing a finished group to the right of the others keeps everything laid out. */
  lemma GroupAdded(links: seq<ScreenLink>, order: seq<string>, layout: Drawing, groups: seq<Group>,
                   drawing: Drawing, group: Group, top: real, k: nat)
    requires LaidOutSoFar(links, order, layout, groups) && Finished(links, Listed(order), drawing, group, top)
    requires drawing.Keys !! layout.Keys && k < |order| && order[k] == group.names[0]
    requires forall j :: 0 <= j < k ==> order[j] in layout
    ensures var x := NextGroupX(groups);
            LaidOutSoFar(links, order, layout + Moved(drawing, x - group.left, -top), groups + [MovedTo(group, x)])
  {
    hide NamedIn, StartsFirst, IsGroup, PlacedInOrder, IsComponent, Extends, Listed;
    var x := NextGroupX(groups);
    var layout' := layout + Moved(drawing, x - group.left, -top);
    var groups' := groups + [MovedTo(group, x)];
    assert group.names != [] by { FinishedHasNames(links, Listed(order), drawing, group, top); }
    MovedAgrees(drawing, group.names, layout', x - group.left, -top);
    NewGroupMoved(links, Listed(order), drawing, group, top, layout', x);
    forall i | 0 <= i < |groups'|
      ensures IsGroup(links, Listed(order), layout', groups'[i])
    {
      if i < |groups| {
        OldGroupStays(links, Listed(order), layout, layout', groups[i]);
      }
    }
    AllStartFirst(links, order, layout, groups, MovedTo(group, x), k);
    forall n
      ensures n in layout' <==> NamedIn(groups', n)
    {
      NamedInLonger(groups, MovedTo(group, x), n);
      InListed(group.names, n);
    }
  }

  /** The extent of a drawn group is not empty. */
  lemma DrawnIsFinished(links: seq<ScreenLink>, listed: set<string>, layout: Drawing, first: string,
                        drawing: Drawing, names: seq<string>, left: real, right: real, top: real)
    requires Growing(links, listed, layout, first, drawing, names) && Extends(drawing, names, left, right, top)
    requires IsComponent(links, listed, names) && Closed(links, listed, drawing.Keys)
    ensures Finished(links, listed, drawing, Group(names, left, right), top)
    ensures names != [] && names[0] == first && Listed(names) == drawing.Keys && drawing.Keys !! layout.Keys
  {
    hide Connected, PlacedWhereReached, BreadthFirst, Adjacent;
    assert names[0] in names && drawing[names[0]].HasArea();
  }

  lemma NothingLaidOut(links: seq<ScreenLink>, order: seq<string>)
    ensures LaidOutSoFar(links, order, map[], [])
  {
  }

  lemma LaidOutInAll(links: seq<ScreenLink>, order: seq<string>, layout: Drawing, groups: seq<Group>)
    requires LaidOutSoFar(links, order, layout, groups)
    ensures LaidOut(links, order, layout, groups)
  {
  }

  lemma EverythingLaidOut(links: seq<ScreenLink>, order: seq<string>, layout: Drawing, groups: seq<Group>)
    requires LaidOutSoFar(links, order, layout, groups) && forall j :: 0 <= j < |order| ==> order[j] in layout
    ensures layout.Keys == Listed(order)
  {
  }

  lemma InListed(names: seq<string>, n: string)
    ensures n in names <==> n in Listed(names)
  {
  }

  lemma FinishedHasNames(links: seq<ScreenLink>, listed: set<string>, drawing: Drawing, group: Group, top: real)
    requires Finished(links, listed, drawing, group, top)
    ensures group.names != []
  {
  }

  method OrderScreens(screens: seq<string>, isServer: string -> bool) returns (order: seq<string>)
    ensures order == LayoutOrder(screens, isServer) && Listed(order) == Listed(screens)
  {
    order := [];
    for i := 0 to |screens|
      invariant order == LayoutOrder(screens[..i], isServer)
    {
      assert screens[..i + 1][..i] == screens[..i];
      if isServer(screens[i]) {
        order := [screens[i]] + order;
      } else {
        order := order + [screens[i]];
      }
    }
    assert screens[..|screens|] == screens;
    OrderListsScreens(screens, isServer);
  }

  datatype Configuration = Configuration(screens: seq<string>, links: seq<ScreenLink>, isServer: string -> bool)

  class ScreenLayoutView {
    var configuration: Option<Configuration>
    var layout: Drawing

    ghost predicate Valid()
      reads this
    {
      configuration.Some? ==> AllHaveStretches(configuration.value.links)
    }

    constructor ()
      ensures Valid() && configuration == None && layout == map[]
    {
      configuration := None;
      layout := map[];
    }

    method SetConfiguration(screens: seq<string>, links: seq<ScreenLink>, isServer: string -> bool)
      requires AllHaveStretches(links)
      modifies this
      ensures Valid() && configuration == Some(Configuration(screens, links, isServer))
      ensures layout.Keys == Listed(screens)
      ensures exists groups :: LaidOut(links, LayoutOrder(screens, isServer), layout, groups)
    {
      configuration := Some(Configuration(screens, links, isServer));
      var _ := LayoutScreens();
    }

    method LayoutScreens() returns (ghost groups: seq<Group>)
      requires Valid()
      modifies this`layout
      ensures configuration == None ==> layout == map[]
      ensures configuration.Some? ==>
                var Configuration(screens, links, isServer) := configuration.value;
                && layout.Keys == Listed(screens)
                && LaidOut(links, LayoutOrder(screens, isServer), layout, groups)
    {
      hide LaidOutSoFar;
      layout := map[];
      groups := [];
      if configuration == None {
        return;
      }
      var links := configuration.value.links;
      var order := OrderScreens(configuration.value.screens, configuration.value.isServer);
      var nextGroupX := 0.0;
      NothingLaidOut(links, order);
      for i := 0 to |order|
        invariant LaidOutSoFar(links, order, layout, groups) && nextGroupX == NextGroupX(groups)
        invariant forall j :: 0 <= j < i ==> order[j] in layout
      {
        if order[i] !in layout {
          nextGroupX, groups := AddGroup(links, order, i, nextGroupX, groups);
        }
      }
      LaidOutInAll(links, order, layout, groups);
      EverythingLaidOut(links, order, layout, groups);
    }

    /** Lays out the group of a screen of the order beyond those already drawn. */
    method AddGroup(links: seq<ScreenLink>, order: seq<string>, i: nat, nextGroupX: real, ghost groups: seq<Group>)
      returns (nextGroupX': real, ghost groups': seq<Group>)
      requires AllHaveStretches(links) && LaidOutSoFar(links, order, layout, groups)
      requires nextGroupX == NextGroupX(groups) && i < |order| && order[i] !in layout
      requires forall j :: 0 <= j < i ==> order[j] in layout
      modifies this`layout
      ensures LaidOutSoFar(links, order, layout, groups') && nextGroupX' == NextGroupX(groups')
      ensures old(layout.Keys) <= layout.Keys && order[i] in layout
      ensures forall n :: n in old(layout) ==> layout[n] == old(layout)[n]
    {
      hide LaidOut, Closed, Growing, Extends, IsComponent, Finished, Moved;
      var group, names := PlaceGroup(links, order, layout, order[i]);
      GrowingIsDrawn(links, Listed(order), layout, order[i], group, names);
      var bounds := Bounds(group, names);
      ghost var drawn := Group(names, bounds.x, bounds.RightX());
      DrawnIsFinished(links, Listed(order), layout, order[i], group, names, bounds.x, bounds.RightX(), bounds.y);
      GroupAdded(links, order, layout, groups, group, drawn, bounds.y, i);
      groups' := groups + [MovedTo(drawn, nextGroupX)];
      InsertMoved(group, nextGroupX - bounds.x, -bounds.y);
      nextGroupX' := nextGroupX + bounds.w + GAP;
    }

    method InsertMoved(group: Drawing, dx: real, dy: real)
      modifies this`layout
      ensures layout == old(layout) + Moved(group, dx, dy)
    {
      var rest := group.Keys;
      while rest != {}
        invariant rest <= group.Keys
        invariant layout == old(layout) + Moved(group - rest, dx, dy)
      {
        var name :| name in rest;
        layout := layout[name := group[name].Translated(dx, dy)];
        rest := rest - {name};
      }
      assert group - rest == group;
    }
  }
}
