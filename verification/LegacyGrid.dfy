/**
  Importing the grid of older settings: links run between screens in cells that share an edge, over
  all of that edge. The grid is one sequence of rows; an empty name is an empty cell.
*/
module LegacyGrid {
  import opened Options
  import opened ScreenLinks

  datatype Grid = Grid(cells: seq<string>, columns: nat, rows: nat) {
    predicate Valid() {
      |cells| == columns * rows
    }

    predicate HasCell(column: int, row: int) {
      0 <= column < columns && 0 <= row < rows
    }
  }

  /** No two screens have the same name. */
  predicate DistinctNames(cells: seq<string>) {
    forall i, j :: 0 <= i < j < |cells| && cells[i] != "" ==> cells[i] != cells[j]
  }

  function Dx(side: Side): int {
    match side
    case Right => 1
    case Left => -1
    case _ => 0
  }

  function Dy(side: Side): int {
    match side
    case Up => -1
    case Down => 1
    case _ => 0
  }

  function WholeEdge(source: string, side: Side, target: string): ScreenLink {
    ScreenLink(source, side, 0.0, 100.0, target, 0.0, 100.0)
  }

  // ---------------------------------------------------------------------------
  // Cells and their numbers
  // ---------------------------------------------------------------------------

  lemma CellNumber(columns: nat, rows: nat, column: int, row: int)
    requires 0 <= column < columns && 0 <= row < rows
    ensures 0 <= row * columns + column < columns * rows
    ensures (row * columns + column) / columns == row && (row * columns + column) % columns == column
  {
    var i := row * columns + column;
    assert row * columns >= 0;
    assert (row + 1) * columns <= rows * columns;
    DivisionIsUnique(i, columns, row, column);
  }

  lemma DivisionIsUnique(i: int, d: int, q: int, r: int)
    requires 0 <= r < d && i == q * d + r
    ensures i / d == q && i % d == r
  {
    var delta := q - i / d;
    assert delta * d == i % d - r;
    assert -d < delta * d < d;
    assert delta >= 1 ==> delta * d >= d;
    assert delta <= -1 ==> delta * d <= -d;
  }

  lemma CellOfNumber(columns: nat, rows: nat, i: nat)
    requires i < columns * rows
    ensures columns > 0 && 0 <= i % columns < columns && 0 <= i / columns < rows
    ensures i / columns * columns + i % columns == i
  {
    assert columns > 0;
    var row := i / columns;
    assert row * columns <= i < rows * columns;
    assert row >= rows ==> row * columns >= rows * columns;
  }

  // ---------------------------------------------------------------------------
  // The links of a grid
  // ---------------------------------------------------------------------------

  function CellAt(grid: Grid, column: int, row: int): string
    requires grid.Valid() && grid.HasCell(column, row)
  {
    CellNumber(grid.columns, grid.rows, column, row);
    grid.cells[row * grid.columns + column]
  }

  /** The cell next to a cell, unless that would be outside or is empty. */
  function Neighbour(grid: Grid, i: nat, side: Side): Option<string>
    requires grid.Valid() && i < |grid.cells|
  {
    CellOfNumber(grid.columns, grid.rows, i);
    var column, row := i % grid.columns + Dx(side), i / grid.columns + Dy(side);
    if !grid.HasCell(column, row) || CellAt(grid, column, row) == "" then None else Some(CellAt(grid, column, row))
  }

  function LinkThrough(grid: Grid, i: nat, side: Side): seq<ScreenLink>
    requires grid.Valid() && i < |grid.cells|
  {
    match Neighbour(grid, i, side)
    case None => []
    case Some(name) => [WholeEdge(grid.cells[i], side, name)]
  }

  const SIDES: seq<Side> := [Right, Left, Up, Down]

  function LinksThrough(grid: Grid, i: nat, sides: nat): seq<ScreenLink>
    requires grid.Valid() && i < |grid.cells| && sides <= |SIDES|
  {
    if sides == 0 then [] else LinksThrough(grid, i, sides - 1) + LinkThrough(grid, i, SIDES[sides - 1])
  }

  function LinksOfCell(grid: Grid, i: nat): seq<ScreenLink>
    requires grid.Valid() && i < |grid.cells|
  {
    if grid.cells[i] == "" then [] else LinksThrough(grid, i, |SIDES|)
  }

  function LinksOf(grid: Grid, n: nat): seq<ScreenLink>
    requires grid.Valid() && n <= |grid.cells|
  {
    if n == 0 then [] else LinksOf(grid, n - 1) + LinksOfCell(grid, n - 1)
  }

  function ScreensOf(cells: seq<string>): seq<string> {
    if cells == [] then []
    else
      var last := cells[|cells| - 1];
      ScreensOf(cells[..|cells| - 1]) + if last == "" then [] else [last]
  }

  // ---------------------------------------------------------------------------
  // Exactly the links between neighbours
  // ---------------------------------------------------------------------------

  /** The link leads from a screen to the screen next to it, over all of the edge they share. */
  predicate Joins(grid: Grid, link: ScreenLink, column: int, row: int, side: Side)
    requires grid.Valid()
  {
    var column' := if side == Right then column + 1 else if side == Left then column - 1 else column;
    var row' := if side == Down then row + 1 else if side == Up then row - 1 else row;
    && grid.HasCell(column, row) && grid.HasCell(column', row')
    && CellAt(grid, column, row) != "" && CellAt(grid, column', row') != ""
    && link == ScreenLink(CellAt(grid, column, row), side, 0.0, 100.0, CellAt(grid, column', row'), 0.0, 100.0)
  }

  ghost predicate IsAdjacency(grid: Grid, link: ScreenLink)
    requires grid.Valid()
  {
    exists column, row, side :: Joins(grid, link, column, row, side)
  }

  lemma EverySideIsListed(side: Side)
    ensures exists s: nat :: s < |SIDES| && SIDES[s] == side
  {
    assert SIDES[0] == Right && SIDES[1] == Left && SIDES[2] == Up && SIDES[3] == Down;
  }

  lemma {:induction false} InLinksThrough(grid: Grid, i: nat, sides: nat, link: ScreenLink)
    requires grid.Valid() && i < |grid.cells| && sides <= |SIDES|
    ensures link in LinksThrough(grid, i, sides)
            <==> exists s: nat :: s < sides && link in LinkThrough(grid, i, SIDES[s])
  {
    hide LinkThrough;
    if sides > 0 {
      InLinksThrough(grid, i, sides - 1, link);
      assert link in LinkThrough(grid, i, SIDES[sides - 1])
        ==> exists s: nat :: s < sides && link in LinkThrough(grid, i, SIDES[s]);
    }
  }

  lemma LinkThroughJoins(grid: Grid, i: nat, side: Side, link: ScreenLink)
    requires grid.Valid() && i < |grid.cells| && grid.columns > 0
    ensures grid.cells[i] != "" && link in LinkThrough(grid, i, side)
            <==> Joins(grid, link, i % grid.columns, i / grid.columns, side)
  {
    CellOfNumber(grid.columns, grid.rows, i);
  }

  lemma InLinksOfCell(grid: Grid, i: nat, link: ScreenLink)
    requires grid.Valid() && i < |grid.cells|
    ensures grid.columns > 0
    ensures link in LinksOfCell(grid, i)
            <==> exists side :: Joins(grid, link, i % grid.columns, i / grid.columns, side)
  {
    hide LinkThrough, Joins, LinksThrough;
    CellOfNumber(grid.columns, grid.rows, i);
    InLinksThrough(grid, i, |SIDES|, link);
    forall side
      ensures grid.cells[i] != "" && link in LinkThrough(grid, i, side)
              <==> Joins(grid, link, i % grid.columns, i / grid.columns, side)
      ensures exists s: nat :: s < |SIDES| && SIDES[s] == side
    {
      LinkThroughJoins(grid, i, side, link);
      EverySideIsListed(side);
    }
  }

  lemma {:induction false} InLinksOf(grid: Grid, n: nat, link: ScreenLink)
    requires grid.Valid() && n <= |grid.cells|
    ensures link in LinksOf(grid, n) <==> exists i: nat :: i < n && link in LinksOfCell(grid, i)
  {
    hide LinksOfCell;
    if n > 0 {
      InLinksOf(grid, n - 1, link);
      assert link in LinksOfCell(grid, n - 1) ==> exists i: nat :: i < n && link in LinksOfCell(grid, i);
    }
  }

  /** The import makes exactly the links that lead from a screen to the screen next to it. */
  lemma LinksExactly(grid: Grid, link: ScreenLink)
    requires grid.Valid()
    ensures link in LinksOf(grid, |grid.cells|) <==> IsAdjacency(grid, link)
  {
    hide Joins, LinksOfCell;
    InLinksOf(grid, |grid.cells|, link);
    forall i: nat | i < |grid.cells|
      ensures link in LinksOfCell(grid, i) ==> IsAdjacency(grid, link)
    {
      InLinksOfCell(grid, i, link);
    }
    forall column, row, side | Joins(grid, link, column, row, side)
      ensures link in LinksOf(grid, |grid.cells|)
    {
      JoinsCells(grid, link, column, row, side);
      CellNumber(grid.columns, grid.rows, column, row);
      InLinksOfCell(grid, row * grid.columns + column, link);
    }
  }

  lemma JoinsCells(grid: Grid, link: ScreenLink, column: int, row: int, side: Side)
    requires grid.Valid() && Joins(grid, link, column, row, side)
    ensures grid.HasCell(column, row)
    ensures Joins(grid, link.Reversed(), column + Dx(side), row + Dy(side), Opposite(side))
  {
  }

  /** Every imported link can be crossed back. */
  lemma ReversedIsImported(grid: Grid, link: ScreenLink)
    requires grid.Valid() && link in LinksOf(grid, |grid.cells|)
    ensures link.Reversed() in LinksOf(grid, |grid.cells|)
  {
    hide Joins;
    LinksExactly(grid, link);
    LinksExactly(grid, link.Reversed());
    var column, row, side :| Joins(grid, link, column, row, side);
    JoinsCells(grid, link, column, row, side);
  }

  // ---------------------------------------------------------------------------
  // At most one link per screen and side
  // ---------------------------------------------------------------------------

  predicate OnePerSide(links: seq<ScreenLink>) {
    forall p, q :: 0 <= p < q < |links| ==> links[p].source != links[q].source || links[p].side != links[q].side
  }

  lemma {:induction false} OnePerSideThrough(grid: Grid, i: nat, sides: nat)
    requires grid.Valid() && i < |grid.cells| && sides <= |SIDES|
    ensures OnePerSide(LinksThrough(grid, i, sides))
    ensures forall p :: 0 <= p < |LinksThrough(grid, i, sides)| ==>
              LinksThrough(grid, i, sides)[p].source == grid.cells[i]
    ensures forall p :: 0 <= p < |LinksThrough(grid, i, sides)| ==>
              LinksThrough(grid, i, sides)[p].side in SIDES[..sides]
  {
    hide Neighbour;
    if sides > 0 {
      OnePerSideThrough(grid, i, sides - 1);
      assert SIDES[..sides] == SIDES[..sides - 1] + [SIDES[sides - 1]];
      assert SIDES[sides - 1] !in SIDES[..sides - 1];
    }
  }

  /** The links leave from screens among these cells. */
  predicate LeaveFrom(links: seq<ScreenLink>, cells: seq<string>) {
    forall p :: 0 <= p < |links| ==> links[p].source != "" && links[p].source in cells
  }

  lemma OnePerSideTogether(links: seq<ScreenLink>, more: seq<ScreenLink>, cells: seq<string>, source: string)
    requires OnePerSide(links) && OnePerSide(more) && LeaveFrom(links, cells)
    requires source !in cells && source != "" && forall p :: 0 <= p < |more| ==> more[p].source == source
    ensures OnePerSide(links + more) && LeaveFrom(links + more, cells + [source])
  {
  }

  lemma {:induction false} OnePerSideOf(grid: Grid, n: nat)
    requires grid.Valid() && DistinctNames(grid.cells) && n <= |grid.cells|
    ensures OnePerSide(LinksOf(grid, n)) && LeaveFrom(LinksOf(grid, n), grid.cells[..n])
  {
    hide LinksOfCell, OnePerSide, LeaveFrom, DistinctNames;
    if n == 0 {
      NoLinks(grid);
    } else {
      OnePerSideOf(grid, n - 1);
      OnePerSideNext(grid, n - 1, LinksOf(grid, n - 1));
    }
  }

  lemma OnePerSideNext(grid: Grid, i: nat, links: seq<ScreenLink>)
    requires grid.Valid() && DistinctNames(grid.cells) && i < |grid.cells|
    requires OnePerSide(links) && LeaveFrom(links, grid.cells[..i])
    ensures OnePerSide(links + LinksOfCell(grid, i)) && LeaveFrom(links + LinksOfCell(grid, i), grid.cells[..i + 1])
  {
    hide LinksThrough, OnePerSide, LeaveFrom;
    var cells, name := grid.cells[..i], grid.cells[i];
    assert grid.cells[..i + 1] == cells + [name];
    if name == "" {
      assert links + [] == links;
      LeaveFromMore(links, cells, name);
    } else {
      OnePerSideThrough(grid, i, |SIDES|);
      OnePerSideTogether(links, LinksOfCell(grid, i), cells, name);
    }
  }

  lemma LeaveFromMore(links: seq<ScreenLink>, cells: seq<string>, name: string)
    requires LeaveFrom(links, cells)
    ensures LeaveFrom(links + [], cells + [name])
  {
  }

  lemma NoLinks(grid: Grid)
    requires grid.Valid()
    ensures OnePerSide(LinksOf(grid, 0)) && LeaveFrom(LinksOf(grid, 0), grid.cells[..0])
  {
  }

  /** Leaving a screen through one of its sides leads to at most one screen. */
  lemma AtMostOneLinkPerSide(grid: Grid)
    requires grid.Valid() && DistinctNames(grid.cells)
    ensures OnePerSide(LinksOf(grid, |grid.cells|))
  {
    OnePerSideOf(grid, |grid.cells|);
  }

  // ---------------------------------------------------------------------------
  // The order of what is imported
  // ---------------------------------------------------------------------------

  /** The order of a screen's links. */
  function Rank(side: Side): nat {
    match side
    case Right => 0
    case Left => 1
    case Up => 2
    case Down => 3
  }

  predicate RankedUpTo(links: seq<ScreenLink>, ranks: nat) {
    && (forall p :: 0 <= p < |links| ==> Rank(links[p].side) < ranks)
    && (forall p, q :: 0 <= p < q < |links| ==> Rank(links[p].side) < Rank(links[q].side))
  }

  /** The links of one screen come in the order right, left, up, down. */
  lemma {:induction false} LinksThroughRanked(grid: Grid, i: nat, sides: nat)
    requires grid.Valid() && i < |grid.cells| && sides <= |SIDES|
    ensures RankedUpTo(LinksThrough(grid, i, sides), sides)
  {
    hide Neighbour;
    if sides > 0 {
      LinksThroughRanked(grid, i, sides - 1);
      assert Rank(SIDES[sides - 1]) == sides - 1;
    }
  }

  /** Each link comes from a cell, no link from a later cell than one after it, and the links of a cell by rank. */
  ghost predicate InOrder(grid: Grid, links: seq<ScreenLink>, from: seq<nat>)
    requires grid.Valid()
  {
    && |from| == |links|
    && (forall p :: 0 <= p < |links| ==> from[p] < |grid.cells| && links[p] in LinksOfCell(grid, from[p]))
    && (forall p, q :: 0 <= p < q < |links| ==>
          from[p] < from[q] || (from[p] == from[q] && Rank(links[p].side) < Rank(links[q].side)))
  }

  /** The import goes through the grid row by row. */
  lemma {:induction false} LinksInOrder(grid: Grid, n: nat) returns (from: seq<nat>)
    requires grid.Valid() && n <= |grid.cells|
    ensures InOrder(grid, LinksOf(grid, n), from)
    ensures forall p :: 0 <= p < |from| ==> from[p] < n
  {
    hide LinksOfCell;
    from := [];
    if n > 0 {
      var before := LinksInOrder(grid, n - 1);
      var more := LinksOfCell(grid, n - 1);
      CellLinksRanked(grid, n - 1);
      from := before + seq(|more|, _ => n - 1);
    }
  }

  lemma CellLinksRanked(grid: Grid, i: nat)
    requires grid.Valid() && i < |grid.cells|
    ensures RankedUpTo(LinksOfCell(grid, i), |SIDES|)
  {
    hide LinksThrough;
    LinksThroughRanked(grid, i, |SIDES|);
  }

  /** The screens are the cells that are not empty, in the order of the grid. */
  lemma {:induction false} ScreensOfBoth(cells: seq<string>, more: seq<string>)
    ensures ScreensOf(cells + more) == ScreensOf(cells) + ScreensOf(more)
    ensures ScreensOf([""]) == [] && forall name: string :: name != "" ==> ScreensOf([name]) == [name]
    decreases |more|
  {
    forall name: string
      ensures ScreensOf([name]) == if name == "" then [] else [name]
    {
      assert [name][..0] == [];
    }
    if more == [] {
      assert cells + more == cells;
    } else {
      var rest := more[..|more| - 1];
      assert (cells + more)[..|cells + more| - 1] == cells + rest;
      ScreensOfBoth(cells, rest);
    }
  }

  // ---------------------------------------------------------------------------
  // The import
  // ---------------------------------------------------------------------------

  lemma NothingImported(grid: Grid)
    requires grid.Valid()
    ensures LinksOf(grid, 0) == [] && ScreensOf(grid.cells[..0]) == []
  {
  }

  lemma OneMoreImported(grid: Grid, i: nat)
    requires grid.Valid() && i < |grid.cells|
    ensures grid.cells[i] == "" ==> LinksOf(grid, i + 1) == LinksOf(grid, i)
    ensures grid.cells[i] != "" ==> LinksOf(grid, i + 1) == LinksOf(grid, i) + LinksThrough(grid, i, |SIDES|)
    ensures ScreensOf(grid.cells[..i + 1])
            == ScreensOf(grid.cells[..i]) + if grid.cells[i] == "" then [] else [grid.cells[i]]
  {
    hide LinksThrough;
    assert grid.cells[..i + 1][..i] == grid.cells[..i];
  }

  class ServerConfig {
    var screens: seq<string>
    var links: seq<ScreenLink>

    constructor ()
      ensures screens == [] && links == []
    {
      screens, links := [], [];
    }

    method ImportGrid(grid: Grid)
      requires grid.Valid()
      modifies this
      ensures screens == old(screens) + ScreensOf(grid.cells)
      ensures links == old(links) + LinksOf(grid, |grid.cells|)
    {
      hide LinksThrough, LinksOf, ScreensOf;
      NothingImported(grid);
      for i := 0 to |grid.cells|
        invariant screens == old(screens) + ScreensOf(grid.cells[..i])
        invariant links == old(links) + LinksOf(grid, i)
      {
        OneMoreImported(grid, i);
        if grid.cells[i] != "" {
          screens := screens + [grid.cells[i]];
          LinkNeighbours(grid, i);
        }
      }
      assert grid.cells[..|grid.cells|] == grid.cells;
    }

    method LinkNeighbours(grid: Grid, i: nat)
      requires grid.Valid() && i < |grid.cells|
      modifies this`links
      ensures links == old(links) + LinksThrough(grid, i, |SIDES|)
    {
      hide LinkThrough;
      CellOfNumber(grid.columns, grid.rows, i);
      for s := 0 to |SIDES|
        invariant links == old(links) + LinksThrough(grid, i, s)
      {
        var column := i % grid.columns + Dx(SIDES[s]);
        var row := i / grid.columns + Dy(SIDES[s]);
        LinkThroughIs(grid, i, SIDES[s], column, row);
        if 0 <= column < grid.columns && 0 <= row < grid.rows {
          var neighbour := grid.cells[row * grid.columns + column];
          if neighbour != "" {
            links := links + [WholeEdge(grid.cells[i], SIDES[s], neighbour)];
          }
        }
      }
    }
  }

  lemma LinkThroughIs(grid: Grid, i: nat, side: Side, column: int, row: int)
    requires grid.Valid() && i < |grid.cells| && grid.columns > 0
    requires column == i % grid.columns + Dx(side) && row == i / grid.columns + Dy(side)
    ensures grid.HasCell(column, row) ==> 0 <= row * grid.columns + column < |grid.cells|
    ensures LinkThrough(grid, i, side)
            == if grid.HasCell(column, row) && grid.cells[row * grid.columns + column] != ""
               then [WholeEdge(grid.cells[i], side, grid.cells[row * grid.columns + column])] else []
  {
    if grid.HasCell(column, row) {
      CellNumber(grid.columns, grid.rows, column, row);
    }
  }
}
