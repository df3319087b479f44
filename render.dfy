/** `renderClock`: look the configured entity up among the states, derive the four
    display characters from its state, centre four digit cells and a colon in the
    background rectangle and draw them, or return a placeholder message. */
module Render {
  import opened Js
  import opened Config
  import opened Time
  import opened Glyphs

  /** Entity id to state string, as `hass.states[id].state` gives it. */
  type States = map<string, string>

  // ---------------------------------------------------------------------------
  // Geometry and layout

  /** The eight numbers the drawing reads, after `parseInt`. */
  datatype Geometry = Geometry(
    digitWidth: real, digitHeight: real, digitSpacing: real, segmentThickness: real,
    rectX: real, rectY: real, rectWidth: real, rectHeight: real)

  /** `parseInt(v)`: the value is converted to a string first. */
  function ParseField(v: JsValue): Option<int> {
    ParseInt(JsString(v))
  }

  /** Every geometry field parses to a number (none is NaN). */
  predicate GeometryModelled(c: CardConfig) {
    && ParseField(c.digitWidth).Some? && ParseField(c.digitHeight).Some?
    && ParseField(c.digitSpacing).Some? && ParseField(c.segmentThickness).Some?
    && ParseField(c.rectX).Some? && ParseField(c.rectY).Some?
    && ParseField(c.rectWidth).Some? && ParseField(c.rectHeight).Some?
  }

  /** The eight numbers; `parseInt` yields integers, so every one is whole. */
  function GeometryOf(c: CardConfig): (g: Geometry)
    requires GeometryModelled(c)
    ensures g.digitWidth.Floor as real == g.digitWidth && g.digitHeight.Floor as real == g.digitHeight
    ensures g.digitSpacing.Floor as real == g.digitSpacing
    ensures g.segmentThickness.Floor as real == g.segmentThickness
    ensures g.rectX.Floor as real == g.rectX && g.rectY.Floor as real == g.rectY
    ensures g.rectWidth.Floor as real == g.rectWidth && g.rectHeight.Floor as real == g.rectHeight
  {
    Geometry(
      ParseField(c.digitWidth).value as real, ParseField(c.digitHeight).value as real,
      ParseField(c.digitSpacing).value as real, ParseField(c.segmentThickness).value as real,
      ParseField(c.rectX).value as real, ParseField(c.rectY).value as real,
      ParseField(c.rectWidth).value as real, ParseField(c.rectHeight).value as real)
  }

  /** Where the block of four cells starts, where the colon goes, and the left edge of
      each digit cell (hours, hours, minutes, minutes). */
  datatype Layout = Layout(startX: real, startY: real, colonX: real, cellX: seq<real>)

  /** `4 * digitWidth + 3 * digitSpacing + segmentThickness` */
  function TotalWidth(g: Geometry): real {
    4.0 * g.digitWidth + 3.0 * g.digitSpacing + g.segmentThickness
  }

  /** The block starts at `startX` and its last cell ends `totalWidth` later. */
  function ComputeLayout(g: Geometry): (l: Layout)
    ensures |l.cellX| == 4 && l.cellX[0] == l.startX
    ensures l.cellX[3] + g.digitWidth == l.startX + TotalWidth(g)
  {
    var dw, ds, st := g.digitWidth, g.digitSpacing, g.segmentThickness;
    var startX := g.rectX + (g.rectWidth - TotalWidth(g)) / 2.0;
    var startY := g.rectY + (g.rectHeight - g.digitHeight) / 2.0;
    Layout(startX, startY, startX + 2.0 * dw + ds,
           [startX, startX + dw + ds, startX + 2.0 * (dw + ds) + st, startX + 3.0 * (dw + ds) + st])
  }

  /** The block is centred in the background rectangle: the last cell ends at
      startX + totalWidth, and the margins left and right, and above and below, are equal
      (negative when the block is larger than the rectangle; nothing is clamped). */
  lemma LayoutCentred(g: Geometry)
    ensures var l := ComputeLayout(g);
      && l.cellX[3] + g.digitWidth == l.startX + TotalWidth(g)
      && l.cellX[0] - g.rectX == (g.rectX + g.rectWidth) - (l.cellX[3] + g.digitWidth)
      && l.startY - g.rectY == (g.rectY + g.rectHeight) - (l.startY + g.digitHeight)
  {
  }

  /** Hour cells and minute cells are one pitch (width plus spacing) apart; the gap
      between the two pairs is wider by the segment thickness, and it holds the colon,
      which starts at the right edge of the second hour cell. */
  lemma CellPitch(g: Geometry)
    ensures var l, pitch := ComputeLayout(g), g.digitWidth + g.digitSpacing;
      && l.cellX[1] - l.cellX[0] == pitch && l.cellX[3] - l.cellX[2] == pitch
      && l.cellX[2] - l.cellX[1] == pitch + g.segmentThickness
      && l.colonX == l.cellX[1] + g.digitWidth
  {
  }

  /** The colon's dots (5 right of the colon position, 8 wide) lie inside the gap between
      the hour and minute cells exactly when spacing plus thickness is at least 13. */
  lemma ColonFitsGap(g: Geometry, color: string)
    ensures var l := ComputeLayout(g);
      var dot := DrawColon(l.colonX, l.startY, g.digitHeight, color)[0];
      (l.cellX[1] + g.digitWidth <= dot.x && dot.x + dot.width <= l.cellX[2])
        <==> g.digitSpacing + g.segmentThickness >= 13.0
  {
  }

  /** The geometry every revision uses when no geometry field is given. */
  const DefaultGeometry := Geometry(40.0, 75.0, 10.0, 8.0, 40.0, 10.0, 220.0, 100.0)

  /** With the default geometry the block starts 11 right of the rectangle, at (51, 22.5). */
  lemma DefaultLayout()
    ensures ComputeLayout(DefaultGeometry).startX == 51.0
    ensures ComputeLayout(DefaultGeometry).startY == 22.5
  {
  }

  /** A configuration that leaves every geometry field falsy resolves to the default
      geometry, which `parseInt` reads back from the numbers the defaults store. */
  lemma DefaultsGiveDefaultGeometry(rev: Revision, raw: RawConfig)
    requires !Truthy(Get(raw, Key.DigitWidth)) && !Truthy(Get(raw, Key.DigitHeight))
    requires !Truthy(Get(raw, Key.DigitSpacing)) && !Truthy(Get(raw, Key.SegmentThickness))
    requires !Truthy(Get(raw, Key.RectX)) && !Truthy(Get(raw, Key.RectY))
    requires !Truthy(Get(raw, Key.RectWidth)) && !Truthy(Get(raw, Key.RectHeight))
    ensures GeometryModelled(Defaults(rev, raw))
    ensures GeometryOf(Defaults(rev, raw)) == DefaultGeometry
  {
    var c := Defaults(rev, raw);
    assert c.digitWidth == Num(40) && c.digitHeight == Num(75);
    assert c.digitSpacing == Num(10) && c.segmentThickness == Num(8);
    assert c.rectX == Num(40) && c.rectY == Num(10);
    assert c.rectWidth == Num(220) && c.rectHeight == Num(100);
    ParseIntOfText(40);
    ParseIntOfText(75);
    ParseIntOfText(10);
    ParseIntOfText(8);
    ParseIntOfText(220);
    ParseIntOfText(100);
  }

  // ---------------------------------------------------------------------------
  // The rendered card

  /** The flex container's `justify-content`, `align-items` (earlier revision only) and
      `margin`. */
  datatype Style = Style(justifyContent: string, alignItems: Option<string>, margin: string)

  /** What `renderClock` returns: a placeholder message, or the container holding an SVG
      of the given width and height and its primitives in drawing order. */
  datatype Output =
    | Message(text: string)
    | Clock(style: Style, svgWidth: string, svgHeight: string, shapes: seq<Shape>)

  const NotConfigured := "Card not configured. Please add configuration."

  /** What a card's content element holds: nothing yet, or a rendering. */
  datatype Content = Blank | Shows(out: Output)

  function NotFound(id: string): string {
    "Entity " + id + " not found."
  }

  /** What the model needs to draw a found entity: parseable geometry and a modelled
      state. A missing entity is reported before either is read. */
  predicate Renderable(c: CardConfig, states: States) {
    JsString(c.entity) in states ==>
      GeometryModelled(c) && StateModelled(states[JsString(c.entity)])
  }

  /** The background rectangle, then the two hour digits, the colon and the two minute
      digits. */
  function DrawClock(c: CardConfig, digits: seq<char>): (shapes: seq<Shape>)
    requires GeometryModelled(c) && |digits| == 4
    ensures |shapes| == 31
  {
    var g := GeometryOf(c);
    var l := ComputeLayout(g);
    var cell := Cell(g.digitWidth, g.digitHeight, g.segmentThickness);
    var on, off := JsString(c.digitColor), JsString(c.dimmedColor);
    [Rect(g.rectX, g.rectY, g.rectWidth, g.rectHeight, JsString(c.backgroundColor), 5.0)]
    + DrawDigit(l.cellX[0], l.startY, digits[0], cell, on, off)
    + DrawDigit(l.cellX[1], l.startY, digits[1], cell, on, off)
    + DrawColon(l.colonX, l.startY, g.digitHeight, on)
    + DrawDigit(l.cellX[2], l.startY, digits[2], cell, on, off)
    + DrawDigit(l.cellX[3], l.startY, digits[3], cell, on, off)
  }

  /** `renderClock(hass)` once a configuration is in place: the not-found message for a
      missing entity; otherwise a container styled by the configuration's
      `justify_content`, `align_items` (earlier revision) and `margin_div`, holding an SVG
      of the configured width and height and the 31 shapes of the clock. */
  function RenderClock(c: CardConfig, states: States, now: LocalTime): (out: Output)
    requires ValidClock(now) && Renderable(c, states)
    ensures out.Message? <==> JsString(c.entity) !in states
    ensures out.Message? ==> out.text == NotFound(JsString(c.entity))
    ensures out.Clock? ==>
      && out.style.justifyContent == JsString(c.justifyContent)
      && out.style.margin == JsString(c.marginDiv)
      && (out.style.alignItems.Some? <==> c.alignItems.Some?)
      && (c.alignItems.Some? ==> out.style.alignItems.value == JsString(c.alignItems.value))
      && out.svgWidth == JsString(c.widthSvg) && out.svgHeight == JsString(c.heightSvg)
      && |out.shapes| == 31
  {
    var id := JsString(c.entity);
    if id !in states then Message(NotFound(id))
    else
      var t := TimeOfState(states[id], now);
      var digits := DisplayDigits(t, Truthy(c.use24hFormat));
      var align := if c.alignItems.Some? then Some(JsString(c.alignItems.value)) else None;
      Clock(Style(JsString(c.justifyContent), align, JsString(c.marginDiv)),
            JsString(c.widthSvg), JsString(c.heightSvg), DrawClock(c, digits))
  }

  /** The later revision's `renderClock`, which first checks that it is configured. */
  function RenderGuarded(initialized: bool, config: Option<CardConfig>, states: States, now: LocalTime)
    : (out: Output)
    requires ValidClock(now) && (initialized && config.Some? ==> Renderable(config.value, states))
    ensures !initialized || config.None? ==> out == Message(NotConfigured)
    ensures initialized && config.Some? ==> out == RenderClock(config.value, states, now)
  {
    if !initialized || config.None? then Message(NotConfigured)
    else RenderClock(config.value, states, now)
  }

  // ---------------------------------------------------------------------------
  // Properties of the rendered card

  /** A missing entity gives the not-found message, which carries the entity id. */
  lemma MissingEntityMessage(c: CardConfig, states: States, now: LocalTime)
    requires ValidClock(now) && Renderable(c, states)
    ensures var id := JsString(c.entity);
      (RenderClock(c, states, now).Message? <==> id !in states)
      && (id !in states ==>
            RenderClock(c, states, now) == Message(NotFound(id))
            && NotFound(id)[7..7 + |id|] == id)
  {
  }

  /** For a present entity: the background rectangle with corner 5, then digit, digit,
      colon, digit, digit, the digits being those of the time the state gives. */
  lemma ClockStructure(c: CardConfig, states: States, now: LocalTime)
    requires ValidClock(now) && Renderable(c, states) && JsString(c.entity) in states
    ensures var out := RenderClock(c, states, now);
      var g, l := GeometryOf(c), ComputeLayout(GeometryOf(c));
      var d := DisplayDigits(TimeOfState(states[JsString(c.entity)], now), Truthy(c.use24hFormat));
      var cell := Cell(g.digitWidth, g.digitHeight, g.segmentThickness);
      var on, off := JsString(c.digitColor), JsString(c.dimmedColor);
      && out.Clock? && |out.shapes| == 31
      && out.shapes[0] == Rect(g.rectX, g.rectY, g.rectWidth, g.rectHeight, JsString(c.backgroundColor), 5.0)
      && out.shapes[1..8] == DrawDigit(l.cellX[0], l.startY, d[0], cell, on, off)
      && out.shapes[8..15] == DrawDigit(l.cellX[1], l.startY, d[1], cell, on, off)
      && out.shapes[15..17] == DrawColon(l.colonX, l.startY, g.digitHeight, on)
      && out.shapes[17..24] == DrawDigit(l.cellX[2], l.startY, d[2], cell, on, off)
      && out.shapes[24..31] == DrawDigit(l.cellX[3], l.startY, d[3], cell, on, off)
  {
    var g, l := GeometryOf(c), ComputeLayout(GeometryOf(c));
    var d := DisplayDigits(TimeOfState(states[JsString(c.entity)], now), Truthy(c.use24hFormat));
    var cell := Cell(g.digitWidth, g.digitHeight, g.segmentThickness);
    var on, off := JsString(c.digitColor), JsString(c.dimmedColor);
    assert RenderClock(c, states, now).shapes == DrawClock(c, d);
    ConcatSlices(
      [Rect(g.rectX, g.rectY, g.rectWidth, g.rectHeight, JsString(c.backgroundColor), 5.0)],
      DrawDigit(l.cellX[0], l.startY, d[0], cell, on, off),
      DrawDigit(l.cellX[1], l.startY, d[1], cell, on, off),
      DrawColon(l.colonX, l.startY, g.digitHeight, on),
      DrawDigit(l.cellX[2], l.startY, d[2], cell, on, off),
      DrawDigit(l.cellX[3], l.startY, d[3], cell, on, off));
  }

  /** Only the earlier revision sets the container's `align-items`, to the configured
      value or 'center'; the later one leaves it out. Both size the SVG and justify and
      pad the container from the configuration. */
  lemma AlignItemsOnlyInEarlier(rev: Revision, raw: RawConfig, states: States, now: LocalTime)
    requires Resolvable(rev, raw) && ResolveConfig(rev, raw).Ok? && ValidClock(now)
    requires Renderable(ResolveConfig(rev, raw).value, states)
    requires JsString(ResolveConfig(rev, raw).value.entity) in states
    ensures var out := RenderClock(ResolveConfig(rev, raw).value, states, now);
      && out.Clock?
      && (out.style.alignItems.Some? <==> rev == Dist)
      && (rev == Dist ==> out.style.alignItems == Some(JsString(Or(Get(raw, Key.AlignItems), Str("center")))))
      && out.style.justifyContent == JsString(Or(Get(raw, Key.JustifyContent), Str("center")))
      && out.style.margin == JsString(Or(Get(raw, Key.MarginDiv), Str("0")))
      && out.svgWidth == JsString(Or(Get(raw, Key.WidthSvg), Str(if rev == Src then "50%" else "100%")))
      && out.svgHeight == JsString(Or(Get(raw, Key.HeightSvg), Str("120")))
  {
    var c := ResolveConfig(rev, raw).value;
    var d := Defaults(rev, raw);
    assert c == d.(dimmedColor := c.dimmedColor);
    assert c.alignItems == d.alignItems && c.justifyContent == d.justifyContent;
    assert c.marginDiv == d.marginDiv && c.widthSvg == d.widthSvg && c.heightSvg == d.heightSvg;
    var out := RenderClock(c, states, now);
    assert out.Clock?;
  }

  /** The pieces of the drawing can be sliced back out of it. */
  lemma ConcatSlices(bg: seq<Shape>, h1: seq<Shape>, h2: seq<Shape>, colon: seq<Shape>,
                     m1: seq<Shape>, m2: seq<Shape>)
    requires |bg| == 1 && |h1| == 7 && |h2| == 7 && |colon| == 2 && |m1| == 7 && |m2| == 7
    ensures var all := bg + h1 + h2 + colon + m1 + m2;
      && all[0] == bg[0] && all[1..8] == h1 && all[8..15] == h2 && all[15..17] == colon
      && all[17..24] == m1 && all[24..31] == m2
  {
    var all := bg + h1 + h2 + colon + m1 + m2;
    assert all[1..8] == h1;
    assert all[8..15] == h2;
    assert all[15..17] == colon;
    assert all[17..24] == m1;
    assert all[24..31] == m2;
  }

  /** Which segments of a seven-polygon cell carry the digit colour. */
  function LitPattern(cell: seq<Shape>, on: string): (lit: seq<int>)
    requires |cell| == 7
    ensures |lit| == 7
  {
    seq(7, i requires 0 <= i < 7 => if cell[i].fill == on then 1 else 0)
  }

  /** The segments lit in a drawn cell are the table pattern of its character, provided the
      digit and dimmed colours differ. */
  lemma DrawnCellPattern(x: real, y: real, ch: char, cell: Cell, on: string, off: string)
    requires on != off
    ensures LitPattern(DrawDigit(x, y, ch, cell, on, off), on) == Segments(ch)
  {
    DigitStructure(x, y, ch, ch, cell, on, off);
  }

  /** The four digits read off the rendered card: cell k shows `ReadDigit` of its lit
      segments. */
  function ReadClock(shapes: seq<Shape>, on: string): seq<Option<nat>>
    requires |shapes| == 31
  {
    [ReadDigit(LitPattern(shapes[1..8], on)), ReadDigit(LitPattern(shapes[8..15], on)),
     ReadDigit(LitPattern(shapes[17..24], on)), ReadDigit(LitPattern(shapes[24..31], on))]
  }

  /** End to end: when the digit and dimmed colours differ, a state that parses to a time
      is drawn so that the four cells read back as the tens and units of the hour (24-hour
      mode) and of the minute. */
  lemma RenderedTimeReadsBack(c: CardConfig, states: States, now: LocalTime)
    requires ValidClock(now) && Renderable(c, states) && JsString(c.entity) in states
    requires Truthy(c.use24hFormat) && JsString(c.digitColor) != JsString(c.dimmedColor)
    requires TimeOfState(states[JsString(c.entity)], now).At?
    ensures var t := TimeOfState(states[JsString(c.entity)], now);
      ReadClock(RenderClock(c, states, now).shapes, JsString(c.digitColor))
        == [Some(t.hour / 10), Some(t.hour % 10), Some(t.minute / 10), Some(t.minute % 10)]
  {
    var t := TimeOfState(states[JsString(c.entity)], now);
    var out := RenderClock(c, states, now);
    var g, l := GeometryOf(c), ComputeLayout(GeometryOf(c));
    var cell := Cell(g.digitWidth, g.digitHeight, g.segmentThickness);
    var on, off := JsString(c.digitColor), JsString(c.dimmedColor);
    var d := DisplayDigits(t, true);
    ClockStructure(c, states, now);
    PadTwoDigits(t.hour);
    PadTwoDigits(t.minute);
    assert d == [DigitChar(t.hour / 10), DigitChar(t.hour % 10), DigitChar(t.minute / 10), DigitChar(t.minute % 10)];
    DrawnCellPattern(l.cellX[0], l.startY, d[0], cell, on, off);
    DrawnCellPattern(l.cellX[1], l.startY, d[1], cell, on, off);
    DrawnCellPattern(l.cellX[2], l.startY, d[2], cell, on, off);
    DrawnCellPattern(l.cellX[3], l.startY, d[3], cell, on, off);
    ReadDigitInverts(t.hour / 10);
    ReadDigitInverts(t.hour % 10);
    ReadDigitInverts(t.minute / 10);
    ReadDigitInverts(t.minute % 10);
  }

  /** An unparseable state shows all four cells dimmed in 24-hour mode ("NaNa"), and
      "12" followed by two dimmed cells in 12-hour mode. */
  lemma InvalidTimeRendering(c: CardConfig, states: States, now: LocalTime)
    requires ValidClock(now) && Renderable(c, states) && JsString(c.entity) in states
    requires TimeOfState(states[JsString(c.entity)], now) == InvalidDate
    ensures var out := RenderClock(c, states, now);
      forall k | 17 <= k < 31 :: out.shapes[k].fill == JsString(c.dimmedColor)
    ensures var out := RenderClock(c, states, now);
      Truthy(c.use24hFormat) ==> forall k | 1 <= k < 15 :: out.shapes[k].fill == JsString(c.dimmedColor)
  {
    var out := RenderClock(c, states, now);
    var g, l := GeometryOf(c), ComputeLayout(GeometryOf(c));
    var cell := Cell(g.digitWidth, g.digitHeight, g.segmentThickness);
    var on, off := JsString(c.digitColor), JsString(c.dimmedColor);
    var d := DisplayDigits(InvalidDate, Truthy(c.use24hFormat));
    InvalidDateDigits();
    ClockStructure(c, states, now);
    NaNCellsDimmed(out.shapes, l, cell, on, off, d, Truthy(c.use24hFormat));
  }

  /** The cells of the "NaN" characters of an invalid time are dimmed throughout. */
  lemma NaNCellsDimmed(shapes: seq<Shape>, l: Layout, cell: Cell, on: string, off: string,
                       d: string, use24h: bool)
    requires |shapes| == 31 && |l.cellX| == 4
    requires d == if use24h then "NaNa" else "12Na"
    requires shapes[1..8] == DrawDigit(l.cellX[0], l.startY, d[0], cell, on, off)
    requires shapes[8..15] == DrawDigit(l.cellX[1], l.startY, d[1], cell, on, off)
    requires shapes[17..24] == DrawDigit(l.cellX[2], l.startY, d[2], cell, on, off)
    requires shapes[24..31] == DrawDigit(l.cellX[3], l.startY, d[3], cell, on, off)
    ensures forall k | 17 <= k < 31 :: shapes[k].fill == off
    ensures use24h ==> forall k | 1 <= k < 15 :: shapes[k].fill == off
  {
    NaNCharactersUnknown();
    CellDimmed(shapes, 17, l.cellX[2], l.startY, d[2], cell, on, off);
    CellDimmed(shapes, 24, l.cellX[3], l.startY, d[3], cell, on, off);
    if use24h {
      CellDimmed(shapes, 1, l.cellX[0], l.startY, d[0], cell, on, off);
      CellDimmed(shapes, 8, l.cellX[1], l.startY, d[1], cell, on, off);
    }
  }

  /** A cell drawn for a character outside the table, found at `at` in the drawing, is
      dimmed throughout. */
  lemma CellDimmed(shapes: seq<Shape>, at: nat, x: real, y: real, ch: char, cell: Cell,
                   on: string, off: string)
    requires ch !in SegmentStates && at + 7 <= |shapes|
    requires shapes[at..at + 7] == DrawDigit(x, y, ch, cell, on, off)
    ensures forall k | at <= k < at + 7 :: shapes[k].fill == off
  {
    forall k | at <= k < at + 7
      ensures shapes[k].fill == off
    {
      assert shapes[k] == shapes[at..at + 7][k - at];
    }
  }
}
