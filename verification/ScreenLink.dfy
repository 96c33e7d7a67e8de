/** Links between screens, and placing a screen against another along a link. */
module ScreenLinks {

  datatype Side = Left | Right | Up | Down

  /** Stretches are given in per cent of the edge's length; a vertical edge begins at its top. */
  datatype ScreenLink = ScreenLink(
    source: string, side: Side, sourceStart: real, sourceEnd: real,
    target: string, targetStart: real, targetEnd: real)
  {
    /** The same link as the other screen sees it. */
    function Reversed(): ScreenLink {
      ScreenLink(target, Opposite(side), targetStart, targetEnd, source, sourceStart, sourceEnd)
    }

    predicate HasStretches() {
      sourceStart < sourceEnd && targetStart < targetEnd
    }
  }

  function Opposite(side: Side): Side {
    match side
    case Left => Right
    case Right => Left
    case Up => Down
    case Down => Up
  }

  lemma ReversedTwice(link: ScreenLink)
    ensures link.Reversed().Reversed() == link
    ensures link.HasStretches() ==> link.Reversed().HasStretches()
  {
  }

  // ---------------------------------------------------------------------------
  // Geometry
  // ---------------------------------------------------------------------------

  datatype Point = Point(x: real, y: real)

  datatype Rect = Rect(x: real, y: real, w: real, h: real) {
    function RightX(): real { x + w }
    function BottomY(): real { y + h }
    predicate HasArea() { w > 0.0 && h > 0.0 }
    function Translated(dx: real, dy: real): Rect { Rect(x + dx, y + dy, w, h) }
  }

  datatype Line = Line(p1: Point, p2: Point) {
    function PointAt(t: real): Point {
      Point(p1.x + t * (p2.x - p1.x), p1.y + t * (p2.y - p1.y))
    }
  }

  const WIDTH: real := 16.0
  const HEIGHT: real := 9.0

  predicate IsHorizontal(side: Side) {
    side.Up? || side.Down?
  }

  /** One of the rectangle's edges, in the direction in which stretches are counted. */
  function EdgeOf(rect: Rect, side: Side): Line {
    match side
    case Up => Line(Point(rect.x, rect.y), Point(rect.RightX(), rect.y))
    case Down => Line(Point(rect.x, rect.BottomY()), Point(rect.RightX(), rect.BottomY()))
    case Left => Line(Point(rect.x, rect.y), Point(rect.x, rect.BottomY()))
    case Right => Line(Point(rect.RightX(), rect.y), Point(rect.RightX(), rect.BottomY()))
  }

  function Clamp(v: real, low: real, high: real): real {
    if v < low then low else if high < v then high else v
  }

  function LengthOf(rect: Rect, side: Side): real {
    if IsHorizontal(side) then rect.w else rect.h
  }

  /** The length the target's edge needs for both stretches to be equally long. */
  function WantedLength(length: real, link: ScreenLink): real
    requires link.targetStart < link.targetEnd
  {
    length * (link.sourceEnd - link.sourceStart) / 100.0 / ((link.targetEnd - link.targetStart) / 100.0)
  }

  function BaseLength(side: Side): real {
    if IsHorizontal(side) then WIDTH else HEIGHT
  }

  /** The wanted size is neither too small nor too large to be drawn. */
  predicate Drawable(from: Rect, link: ScreenLink)
    requires link.targetStart < link.targetEnd
  {
    BaseLength(link.side) / 4.0 <= WantedLength(LengthOf(from, link.side), link) <= BaseLength(link.side) * 4.0
  }

  /** How much larger than usual the target is drawn. */
  function Scale(side: Side, wanted: real): (scale: real)
    ensures scale > 0.0
    ensures ScaledLength(side, scale) == wanted <==> BaseLength(side) / 4.0 <= wanted <= BaseLength(side) * 4.0
  {
    var base := BaseLength(side);
    Clamp(wanted, base / 4.0, base * 4.0) / base
  }

  /** The length of an edge of a screen that is drawn with a scale. */
  function ScaledLength(side: Side, scale: real): real {
    BaseLength(side) * scale
  }

  /** A screen beyond the edge, with its point `offset` along the opposite edge level with `start`. */
  function Moored(from: Rect, side: Side, start: Point, offset: real, scale: real): Rect {
    var w, h := WIDTH * scale, HEIGHT * scale;
    match side
    case Down => Rect(start.x - offset, from.BottomY(), w, h)
    case Up => Rect(start.x - offset, from.y - h, w, h)
    case Right => Rect(from.RightX(), start.y - offset, w, h)
    case Left => Rect(from.x - w, start.y - offset, w, h)
  }

  /** Where a stretch begins or ends on the drawing. */
  function StretchPoint(rect: Rect, side: Side, percentage: real): Point {
    EdgeOf(rect, side).PointAt(percentage / 100.0)
  }

  /** How far along an edge of the given length a percentage of it lies. */
  function Reach(percentage: real, length: real): real {
    percentage / 100.0 * length
  }

  function PlaceAgainst(from: Rect, link: ScreenLink): (to: Rect)
    requires link.targetStart < link.targetEnd
    ensures to.HasArea()
  {
    var scale := Scale(link.side, WantedLength(LengthOf(from, link.side), link));
    var start := StretchPoint(from, link.side, link.sourceStart);
    Moored(from, link.side, start, Reach(link.targetStart, ScaledLength(link.side, scale)), scale)
  }

  /** The point at a distance from the beginning of an edge. */
  function Along(rect: Rect, side: Side, distance: real): Point {
    match side
    case Up => Point(rect.x + distance, rect.y)
    case Down => Point(rect.x + distance, rect.BottomY())
    case Left => Point(rect.x, rect.y + distance)
    case Right => Point(rect.RightX(), rect.y + distance)
  }

  lemma PointAtBy(line: Line, t: real, dx: real, dy: real)
    requires line.p2 == Point(line.p1.x + dx, line.p1.y + dy)
    ensures line.PointAt(t) == Point(line.p1.x + t * dx, line.p1.y + t * dy)
  {
    assert line.p2.x - line.p1.x == dx && line.p2.y - line.p1.y == dy;
  }

  lemma EdgePoint(rect: Rect, side: Side, percentage: real)
    ensures StretchPoint(rect, side, percentage) == Along(rect, side, Reach(percentage, LengthOf(rect, side)))
  {
    var t := percentage / 100.0;
    if IsHorizontal(side) {
      PointAtBy(EdgeOf(rect, side), t, rect.w, 0.0);
    } else {
      PointAtBy(EdgeOf(rect, side), t, 0.0, rect.h);
    }
  }

  lemma QuotientIs(q: real, a: real, b: real)
    requires b > 0.0
    ensures q == a / b <==> q * b == a
  {
    assert a / b * b == a;
    if q * b == a {
      assert (q - a / b) * b == 0.0;
    }
  }

  /** The stretches are equally long if and only if the target's edge has the wanted length. */
  lemma StretchLengths(length: real, from: real, link: ScreenLink)
    requires link.targetStart < link.targetEnd
    ensures Reach(link.targetEnd, length) - Reach(link.targetStart, length)
            == Reach(link.sourceEnd, from) - Reach(link.sourceStart, from)
            <==> length == WantedLength(from, link)
  {
    var fraction := (link.targetEnd - link.targetStart) / 100.0;
    var stretch := from * (link.sourceEnd - link.sourceStart) / 100.0;
    QuotientIs(length, stretch, fraction);
    assert length * fraction == Reach(link.targetEnd, length) - Reach(link.targetStart, length);
    assert stretch == Reach(link.sourceEnd, from) - Reach(link.sourceStart, from);
  }

  lemma MooredMeets(from: Rect, side: Side, at: real, offset: real, p: real, q: real, scale: real)
    ensures var to := Moored(from, side, Along(from, side, at), offset, scale);
            && LengthOf(to, Opposite(side)) == ScaledLength(side, scale)
            && (Along(to, Opposite(side), q) == Along(from, side, p) <==> q - offset == p - at)
  {
  }

  lemma PlacedIsMoored(from: Rect, link: ScreenLink)
    requires link.targetStart < link.targetEnd
    ensures var scale := Scale(link.side, WantedLength(LengthOf(from, link.side), link));
            PlaceAgainst(from, link)
            == Moored(from, link.side, Along(from, link.side, Reach(link.sourceStart, LengthOf(from, link.side))),
                      Reach(link.targetStart, ScaledLength(link.side, scale)), scale)
  {
    hide Moored, WantedLength, Scale, StretchPoint, Along, Reach, LengthOf, ScaledLength;
    EdgePoint(from, link.side, link.sourceStart);
  }

  /**
    The placed screen touches the edge it is linked through: both stretches start at the same
    point, and they end at the same point exactly when the size did not have to be clamped.
  */
  lemma PlacedAgainstTouches(from: Rect, link: ScreenLink)
    requires link.HasStretches()
    ensures var to := PlaceAgainst(from, link);
            && StretchPoint(to, Opposite(link.side), link.targetStart)
               == StretchPoint(from, link.side, link.sourceStart)
            && (StretchPoint(to, Opposite(link.side), link.targetEnd) == StretchPoint(from, link.side, link.sourceEnd)
                <==> Drawable(from, link))
  {
    hide StretchPoint, Along, Moored, PlaceAgainst, WantedLength, Scale, Reach, LengthOf, ScaledLength;
    var from' := LengthOf(from, link.side);
    var scale := Scale(link.side, WantedLength(from', link));
    var length := ScaledLength(link.side, scale);
    var at, end := Reach(link.sourceStart, from'), Reach(link.sourceEnd, from');
    var offset, offset' := Reach(link.targetStart, length), Reach(link.targetEnd, length);
    var to := PlaceAgainst(from, link);
    PlacedIsMoored(from, link);
    MooredMeets(from, link.side, at, offset, at, offset, scale);
    MooredMeets(from, link.side, at, offset, end, offset', scale);
    EdgePoint(from, link.side, link.sourceStart);
    EdgePoint(from, link.side, link.sourceEnd);
    EdgePoint(to, Opposite(link.side), link.targetStart);
    EdgePoint(to, Opposite(link.side), link.targetEnd);
    StretchLengths(length, from', link);
  }

  lemma ScaleIsBounded(side: Side, wanted: real)
    ensures 0.25 <= Scale(side, wanted) <= 4.0
  {
  }

  /** Of all lengths that can be drawn, a quarter to four times the usual one, the nearest is drawn. */
  lemma ScaleIsNearest(side: Side, wanted: real, length: real)
    requires BaseLength(side) / 4.0 <= length <= BaseLength(side) * 4.0
    ensures var drawn := ScaledLength(side, Scale(side, wanted));
            && BaseLength(side) / 4.0 <= drawn <= BaseLength(side) * 4.0
            && (drawn == wanted || wanted < drawn <= length || length <= drawn < wanted)
  {
  }

  /** Every placed screen keeps its shape, 16 by 9, and is a quarter to four times as large as usual. */
  lemma PlacedKeepsShape(from: Rect, link: ScreenLink)
    requires link.targetStart < link.targetEnd
    ensures var to := PlaceAgainst(from, link);
            to.w * 9.0 == to.h * 16.0 && 4.0 <= to.w <= 64.0
  {
    hide Scale, WantedLength, StretchPoint, Reach;
    var scale := Scale(link.side, WantedLength(LengthOf(from, link.side), link));
    ScaleIsBounded(link.side, WantedLength(LengthOf(from, link.side), link));
    assert PlaceAgainst(from, link).w == WIDTH * scale && PlaceAgainst(from, link).h == HEIGHT * scale;
  }

  lemma MooredTranslated(from: Rect, side: Side, at: real, offset: real, scale: real, dx: real, dy: real)
    ensures var to := from.Translated(dx, dy);
            && LengthOf(to, side) == LengthOf(from, side)
            && Moored(to, side, Along(to, side, at), offset, scale)
               == Moored(from, side, Along(from, side, at), offset, scale).Translated(dx, dy)
  {
  }

  /** Placing commutes with moving the drawing. */
  lemma PlaceAgainstTranslated(from: Rect, link: ScreenLink, dx: real, dy: real)
    requires link.targetStart < link.targetEnd
    ensures PlaceAgainst(from.Translated(dx, dy), link) == PlaceAgainst(from, link).Translated(dx, dy)
  {
    hide Moored, Along, WantedLength, Scale, PlaceAgainst, Reach, ScaledLength;
    var from' := LengthOf(from, link.side);
    var scale := Scale(link.side, WantedLength(from', link));
    PlacedIsMoored(from, link);
    PlacedIsMoored(from.Translated(dx, dy), link);
    MooredTranslated(from, link.side, Reach(link.sourceStart, from'),
                     Reach(link.targetStart, ScaledLength(link.side, scale)), scale, dx, dy);
  }
}
