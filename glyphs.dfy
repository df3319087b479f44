/** The seven-segment glyphs of `drawDigit` and the colon of `drawColon`: a fixed table of
    lit segments per decimal character, seven mitred four-vertex polygons per digit cell,
    and two square dots. Coordinates are exact rationals. */
module Glyphs {
  import opened Js

  datatype Point = Point(x: real, y: real)

  /** An SVG primitive: a filled polygon, or a rectangle whose corners are rounded by
      `corner` (0 for square corners, which is what an absent `rx` draws). */
  datatype Shape =
    | Polygon(points: seq<Point>, fill: string)
    | Rect(x: real, y: real, width: real, height: real, fill: string, corner: real)

  // ---------------------------------------------------------------------------
  // The segment table

  /** `segmentStates`: for each decimal character, the flags of segments a..g. */
  const SegmentStates: map<char, seq<int>> := map[
    '0' := [1, 1, 1, 1, 1, 1, 0],
    '1' := [0, 1, 1, 0, 0, 0, 0],
    '2' := [1, 1, 0, 1, 1, 0, 1],
    '3' := [1, 1, 1, 1, 0, 0, 1],
    '4' := [0, 1, 1, 0, 0, 1, 1],
    '5' := [1, 0, 1, 1, 0, 1, 1],
    '6' := [1, 0, 1, 1, 1, 1, 1],
    '7' := [1, 1, 1, 0, 0, 0, 0],
    '8' := [1, 1, 1, 1, 1, 1, 1],
    '9' := [1, 1, 1, 1, 0, 1, 1]]

  /** `segmentStates[digit] || [0,0,0,0,0,0,0]`: a character outside the table lights
      nothing. */
  function Segments(c: char): (s: seq<int>)
    ensures |s| == 7 && forall i | 0 <= i < 7 :: s[i] == 0 || s[i] == 1
    ensures IsDigit(c) <==> c in SegmentStates
    ensures c !in SegmentStates ==> s == [0, 0, 0, 0, 0, 0, 0]
  {
    if c in SegmentStates then SegmentStates[c] else [0, 0, 0, 0, 0, 0, 0]
  }

  /** The conventional naming of the lit segments of each decimal digit, a..g running
      clockwise from the top with g in the middle. */
  function LitLetters(c: char): string {
    match c
    case '0' => "abcdef"
    case '1' => "bc"
    case '2' => "abdeg"
    case '3' => "abcdg"
    case '4' => "bcfg"
    case '5' => "acdfg"
    case '6' => "acdefg"
    case '7' => "abc"
    case '8' => "abcdefg"
    case '9' => "abcdfg"
    case _ => ""
  }

  /** The table lights segment i of a character exactly when the conventional naming lists
      the i-th letter; every other entry is 0, and unknown characters light nothing. */
  lemma TableMatchesLetters(c: char, i: nat)
    requires i < 7
    ensures Segments(c)[i] == 1 <==> "abcdefg"[i] in LitLetters(c)
    ensures Segments(c)[i] == 0 <==> "abcdefg"[i] !in LitLetters(c)
  {
  }

  /** The pattern the table gives each of the ten digits is different, and none is blank,
      so every digit can be read back from the segments that are lit. */
  lemma GlyphsAreDistinct(d1: nat, d2: nat)
    requires d1 < 10 && d2 < 10
    ensures Segments(DigitChar(d1)) == Segments(DigitChar(d2)) ==> d1 == d2
    ensures Segments(DigitChar(d1)) != [0, 0, 0, 0, 0, 0, 0]
  {
  }

  /** The digit, searched from `from` upwards, whose table pattern is `lit`. */
  function ReadDigitFrom(lit: seq<int>, from: nat): (r: Option<nat>)
    ensures r.Some? ==> from <= r.value < 10 && Segments(DigitChar(r.value)) == lit
    decreases 10 - from
  {
    if from >= 10 then None
    else if Segments(DigitChar(from)) == lit then Some(from)
    else ReadDigitFrom(lit, from + 1)
  }

  /** The digit a lit pattern shows, or `None` when no digit has that pattern. */
  function ReadDigit(lit: seq<int>): Option<nat> {
    ReadDigitFrom(lit, 0)
  }

  /** Reading a digit's pattern gives back the digit, and the blank pattern of a character
      outside the table reads as no digit. */
  lemma ReadDigitInverts(d: nat)
    requires d < 10
    ensures ReadDigit(Segments(DigitChar(d))) == Some(d)
    ensures ReadDigit([0, 0, 0, 0, 0, 0, 0]) == None
  {
    ReadDigitFromFinds(Segments(DigitChar(d)), 0, d);
    var blank := [0, 0, 0, 0, 0, 0, 0];
    if ReadDigit(blank).Some? {
      GlyphsAreDistinct(ReadDigit(blank).value, 0);
    }
  }

  lemma {:induction false} ReadDigitFromFinds(lit: seq<int>, from: nat, d: nat)
    requires from <= d < 10 && Segments(DigitChar(d)) == lit
    ensures ReadDigitFrom(lit, from) == Some(d)
    decreases 10 - from
  {
    if Segments(DigitChar(from)) == lit {
      GlyphsAreDistinct(from, d);
    } else {
      ReadDigitFromFinds(lit, from + 1, d);
    }
  }

  // ---------------------------------------------------------------------------
  // One digit cell

  /** The dimensions `drawDigit` reads: digit width and height and segment thickness. */
  datatype Cell = Cell(width: real, height: real, thickness: real)

  /** The outline of segment i (0..6 for a..g) of the cell at (x, y), with the mitred joins
      of the source, vertex by vertex; `o` is half the segment thickness. */
  function Outline(i: nat, x: real, y: real, cell: Cell): (pts: seq<Point>)
    requires i < 7
    ensures |pts| == 4
  {
    var w, h, o := cell.width, cell.height, cell.thickness / 2.0;
    match i
    case 0 => [Point(x + o, y), Point(x + w - o, y), Point(x + w - o + o, y + o), Point(x + o - o, y + o)]
    case 1 => [Point(x + w, y + o), Point(x + w, y + h / 2.0 - o), Point(x + w - o, y + h / 2.0),
               Point(x + w - o, y + o + o)]
    case 2 => [Point(x + w, y + h / 2.0 + o), Point(x + w, y + h), Point(x + w - o, y + h - o - o),
               Point(x + w - o, y + h / 2.0 + o - o)]
    case 3 => [Point(x, y + h), Point(x + w, y + h), Point(x + w - o, y + h - o), Point(x + o + o, y + h - o)]
    case 4 => [Point(x, y + h / 2.0 + o), Point(x, y + h), Point(x + o, y + h - o - o),
               Point(x + o, y + h / 2.0 + o - o)]
    case 5 => [Point(x, y + o), Point(x, y + h / 2.0 - o), Point(x + o, y + h / 2.0), Point(x + o, y + o + o)]
    case 6 => [Point(x + o + o, y + h / 2.0 - o), Point(x + w - o - o, y + h / 2.0 - o),
               Point(x + w - o, y + h / 2.0), Point(x + o, y + h / 2.0)]
  }

  /** `segments[i] ? digitColor : dimmedColor` */
  function SegmentFill(c: char, i: nat, digitColor: string, dimmedColor: string): string
    requires i < 7
  {
    if Segments(c)[i] != 0 then digitColor else dimmedColor
  }

  /** `drawDigit(x, y, c)`: segments a..g as polygons, in that order. */
  function DrawDigit(x: real, y: real, c: char, cell: Cell, digitColor: string, dimmedColor: string)
    : (shapes: seq<Shape>)
    ensures |shapes| == 7
  {
    seq(7, i requires 0 <= i < 7 =>
      Polygon(Outline(i, x, y, cell), SegmentFill(c, i, digitColor, dimmedColor)))
  }

  /** Seven four-vertex polygons, segment i outlined by `Outline(i, ...)` in the order a..g,
      whose vertices do not depend on the character; only the fills do, and fill i is the
      digit colour exactly when the table lights segment i. */
  lemma DigitStructure(x: real, y: real, c1: char, c2: char, cell: Cell, on: string, off: string)
    ensures forall i | 0 <= i < 7 :: DrawDigit(x, y, c1, cell, on, off)[i].points == Outline(i, x, y, cell)
    ensures forall i | 0 <= i < 7 ::
      var s1, s2 := DrawDigit(x, y, c1, cell, on, off)[i], DrawDigit(x, y, c2, cell, on, off)[i];
      s1.Polygon? && |s1.points| == 4 && s1.points == s2.points
    ensures forall i | 0 <= i < 7 ::
      DrawDigit(x, y, c1, cell, on, off)[i].fill == (if Segments(c1)[i] == 1 then on else off)
  {
    forall i | 0 <= i < 7
      ensures Segments(c1)[i] == 0 || Segments(c1)[i] == 1
    {
      TableMatchesLetters(c1, i);
    }
  }

  /** The letters of "NaN" are not in the table. */
  lemma NaNCharactersUnknown()
    ensures 'N' !in SegmentStates && 'a' !in SegmentStates
  {
  }

  /** A character outside the table, such as the 'N' and 'a' of "NaN", draws all seven
      segments in the dimmed colour. */
  lemma UnknownCharacterDimmed(x: real, y: real, c: char, cell: Cell, on: string, off: string)
    requires c !in SegmentStates
    ensures forall s | s in DrawDigit(x, y, c, cell, on, off) :: s.fill == off
  {
  }

  predicate InCell(p: Point, x: real, y: real, cell: Cell) {
    x <= p.x <= x + cell.width && y <= p.y <= y + cell.height
  }

  /** When the thickness is at most the width and the height, every vertex lies in the
      cell [x, x+dw] by [y, y+dh] ... */
  lemma VerticesInCell(x: real, y: real, cell: Cell, i: nat, k: nat)
    requires 0.0 <= cell.thickness <= cell.width && cell.thickness <= cell.height
    requires i < 7 && k < 4
    ensures InCell(Outline(i, x, y, cell)[k], x, y, cell)
  {
  }

  /** ... and the vertices reach all four sides, so their bounding box is the cell. */
  lemma CellIsBoundingBox(x: real, y: real, cell: Cell)
    ensures Outline(5, x, y, cell)[0].x == x && Outline(1, x, y, cell)[0].x == x + cell.width
    ensures Outline(0, x, y, cell)[0].y == y && Outline(3, x, y, cell)[0].y == y + cell.height
  {
  }

  /** Reflection in the vertical centre line of the cell. */
  function Mirror(p: Point, x: real, cell: Cell): (q: Point)
    ensures q.y == p.y && q.x - x == x + cell.width - p.x
  {
    Point(2.0 * x + cell.width - p.x, p.y)
  }

  function MirrorAll(pts: seq<Point>, x: real, cell: Cell): (r: seq<Point>)
    ensures |r| == |pts| && forall k | 0 <= k < |pts| :: r[k] == Mirror(pts[k], x, cell)
  {
    seq(|pts|, k requires 0 <= k < |pts| => Mirror(pts[k], x, cell))
  }

  /** The right-hand segments b and c are the mirror images of the left-hand f and e, vertex
      for vertex, and a and g are their own mirror images (vertices swapped in pairs). */
  lemma SidesMirror(x: real, y: real, cell: Cell)
    ensures MirrorAll(Outline(1, x, y, cell), x, cell) == Outline(5, x, y, cell)
    ensures MirrorAll(Outline(2, x, y, cell), x, cell) == Outline(4, x, y, cell)
    ensures var a, m := Outline(0, x, y, cell), MirrorAll(Outline(0, x, y, cell), x, cell);
      m == [a[1], a[0], a[3], a[2]]
    ensures var g, m := Outline(6, x, y, cell), MirrorAll(Outline(6, x, y, cell), x, cell);
      m == [g[1], g[0], g[3], g[2]]
  {
  }

  /** The bottom segment d is not its own mirror image: its inner edge is inset by the
      whole thickness on the left but by half of it on the right, so when the thickness is
      positive and below the width, the mirror image of its inner right vertex is not a
      vertex of d. */
  lemma BottomSegmentLopsided(x: real, y: real, cell: Cell)
    ensures var d := Outline(3, x, y, cell);
      d[3].x - x == cell.thickness && (x + cell.width) - d[2].x == cell.thickness / 2.0
    ensures 0.0 < cell.thickness < cell.width ==>
      var d := Outline(3, x, y, cell);
      Mirror(d[2], x, cell) !in d
  {
  }

  // ---------------------------------------------------------------------------
  // The colon

  /** `drawColon(x, y)`: two 8 by 8 squares, 5 to the right of x, centred at one third and
      two thirds of the digit height. */
  function DrawColon(x: real, y: real, digitHeight: real, digitColor: string): (shapes: seq<Shape>)
    ensures |shapes| == 2
  {
    var dotSize, spacing := 8.0, 5.0;
    [Rect(x + spacing, y + digitHeight / 3.0 - dotSize / 2.0, dotSize, dotSize, digitColor, 0.0),
     Rect(x + spacing, y + 2.0 * digitHeight / 3.0 - dotSize / 2.0, dotSize, dotSize, digitColor, 0.0)]
  }

  /** Both dots are 8 by 8 whatever the digit height, sit 5 right of x, are centred at
      heights dh/3 and 2dh/3 below y, carry the digit colour, and are disjoint once the
      digit height is at least 24. */
  lemma ColonDots(x: real, y: real, dh: real, color: string)
    ensures forall s | s in DrawColon(x, y, dh, color) ::
      s.Rect? && s.width == 8.0 && s.height == 8.0 && s.x == x + 5.0 && s.fill == color
    ensures DrawColon(x, y, dh, color)[0].y + 4.0 == y + dh / 3.0
    ensures DrawColon(x, y, dh, color)[1].y + 4.0 == y + 2.0 * dh / 3.0
    ensures dh >= 24.0 <==>
      DrawColon(x, y, dh, color)[0].y + 8.0 <= DrawColon(x, y, dh, color)[1].y
  {
  }
}
