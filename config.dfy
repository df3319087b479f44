/** The configuration resolver of `setConfig`: validation of the entity, defaults
    for every field, and the dimmed colour derived when `dimmed_color` is 'none'.
    Both revisions share it; `Revision` selects the few places where they differ. */
module Config {
  import opened Js

  /** `Src` is src/digital-clock-card.js, `Dist` the earlier dist/digital-clock-card.js. */
  datatype Revision = Src | Dist

  /** `MissingEntity` is the Error `setConfig` throws; `NotAString` is the TypeError of
      calling `startsWith` on a digit colour that is a number or `true`. */
  datatype ConfigError = MissingEntity | NotAString

  datatype Result<T> = Ok(value: T) | Err(error: ConfigError)

  /** The resolved `this.config`, restricted to the fields rendering reads.
      `alignItems` exists only in `Dist`, `dimmedOpacity` only in `Src`. */
  datatype CardConfig = CardConfig(
    entity: JsValue,
    use24hFormat: JsValue,
    widthSvg: JsValue,
    heightSvg: JsValue,
    marginDiv: JsValue,
    alignItems: Option<JsValue>,
    justifyContent: JsValue,
    dimmedOpacity: Option<JsValue>,
    backgroundColor: JsValue,
    digitColor: JsValue,
    dimmedColor: JsValue,
    digitWidth: JsValue,
    digitHeight: JsValue,
    digitSpacing: JsValue,
    segmentThickness: JsValue,
    rectX: JsValue,
    rectY: JsValue,
    rectWidth: JsValue,
    rectHeight: JsValue)

  /** The object literal assigned to `this.config`, before the dimmed colour is derived.
      A truthy entity is kept, `use_24h_format` is never left undefined, and each revision
      has its own extra field. */
  function Defaults(rev: Revision, raw: RawConfig): (c: CardConfig)
    ensures Truthy(Get(raw, Key.Entity)) ==> c.entity == Get(raw, Key.Entity)
    ensures c.use24hFormat != Undefined
    ensures (rev == Src) == c.dimmedOpacity.Some? && (rev == Dist) == c.alignItems.Some?
    ensures c.dimmedOpacity.Some? ==> c.dimmedOpacity.value != Undefined
  {
    CardConfig(
      entity := Or(Get(raw, Key.Entity), Str("sensor.time")),
      use24hFormat := DefinedOr(Get(raw, Key.Use24hFormat), Bool(true)),
      widthSvg := Or(Get(raw, Key.WidthSvg), Str(if rev == Src then "50%" else "100%")),
      heightSvg := Or(Get(raw, Key.HeightSvg), Str("120")),
      marginDiv := Or(Get(raw, Key.MarginDiv), Str("0")),
      alignItems := if rev == Dist then Some(Or(Get(raw, Key.AlignItems), Str("center"))) else None,
      justifyContent := Or(Get(raw, Key.JustifyContent), Str("center")),
      dimmedOpacity := if rev == Src then Some(DefinedOr(Get(raw, Key.DimmedOpacity), Num(0))) else None,
      backgroundColor := Or(Get(raw, Key.BackgroundColor), Str("transparent")),
      digitColor := Or(Get(raw, Key.DigitColor), Str("white")),
      dimmedColor := Or(Get(raw, Key.DimmedColor), Str("rgba(255,255,255,0.3)")),
      digitWidth := Or(Get(raw, Key.DigitWidth), Num(40)),
      digitHeight := Or(Get(raw, Key.DigitHeight), Num(75)),
      digitSpacing := Or(Get(raw, Key.DigitSpacing), Num(10)),
      segmentThickness := Or(Get(raw, Key.SegmentThickness), Num(8)),
      rectX := Or(Get(raw, Key.RectX), Num(40)),
      rectY := Or(Get(raw, Key.RectY), Num(10)),
      rectWidth := Or(Get(raw, Key.RectWidth), Num(220)),
      rectHeight := Or(Get(raw, Key.RectHeight), Num(100)))
  }

  // ---------------------------------------------------------------------------
  // Dimmed colour derivation

  predicate StartsWithHash(s: string) {
    |s| > 0 && s[0] == '#'
  }

  /** `Number(v)` for the opacity, on the values the model knows. */
  function OpacityNumber(v: JsValue): Numeric
    requires v.Str? ==> NumberModelled(v.s)
  {
    match v
    case Undefined => NaN
    case Null => Finite(0)
    case Bool(b) => Finite(if b then 1 else 0)
    case Num(n) => Finite(n)
    case Str(s) => StringToNumber(s)
  }

  /** The raw `dimmed_opacity` is one whose `Number` the model knows. */
  predicate OpacityModelled(raw: RawConfig) {
    Get(raw, Key.DimmedOpacity).Str? ==> NumberModelled(Get(raw, Key.DimmedOpacity).s)
  }

  /** The raw configurations the model resolves: the opacity is only converted on the
      later revision's path that derives a colour from a string digit colour, and there
      it must be one whose `Number` the model knows. */
  predicate Resolvable(rev: Revision, raw: RawConfig) {
    (&& rev == Src && Truthy(Get(raw, Key.Entity))
     && Defaults(rev, raw).dimmedColor == Str("none") && Defaults(rev, raw).digitColor.Str?)
    ==> OpacityModelled(raw)
  }

  /** `${opacity / 100}` */
  function AlphaText(x: Numeric): string {
    match x
    case Finite(n) => HundredthsText(n)
    case NaN => "NaN"
  }

  /** `${c}` for a channel that `parseInt` produced; `None` is NaN. */
  function ChannelText(c: Option<int>): string {
    if c.Some? then IntText(c.value) else "NaN"
  }

  /** The text of the template `rgba(${r}, ${g}, ${b}, ${opacityDecimal})`. */
  function RgbaText(r: Option<int>, g: Option<int>, b: Option<int>, alpha: string): (s: string)
    ensures |s| > 5 && s[..5] == "rgba(" && s[|s| - 1] == ')'
  {
    "rgba(" + ChannelText(r) + ", " + ChannelText(g) + ", " + ChannelText(b) + ", " + alpha + ")"
  }

  /** The later revision's dimmed colour for a string digit colour: its red, green and
      blue hex pairs at opacity/100, or white at opacity/100. */
  function SrcDimmed(digit: string, opacity: JsValue): (r: string)
    requires opacity.Str? ==> NumberModelled(opacity.s)
    ensures |r| > 5 && r[..5] == "rgba(" && r[|r| - 1] == ')'
  {
    var alpha := AlphaText(OpacityNumber(opacity));
    if StartsWithHash(digit) then
      RgbaText(ParseIntHex(Slice(digit, 1, 3)), ParseIntHex(Slice(digit, 3, 5)),
               ParseIntHex(Slice(digit, 5, 7)), alpha)
    else if digit == "white" then
      RgbaText(Some(255), Some(255), Some(255), alpha)
    else
      RgbaText(Some(255), Some(255), Some(255), alpha)
  }

  /** The earlier revision's dimmed colour: the hex digit colour with alpha byte 4D, or a
      fixed translucent white. */
  function DistDimmed(digit: string): (r: string)
    ensures StartsWithHash(r) <==> StartsWithHash(digit)
    ensures StartsWithHash(digit) ==> |r| == |digit| + 2 && r[..|digit|] == digit
  {
    if StartsWithHash(digit) then digit + "4D" else "rgba(255,255,255,0.3)"
  }

  /** The colour that replaces a dimmed colour of 'none': a string whenever the digit
      colour is one, and the not-a-string error otherwise. */
  function DeriveDimmed(rev: Revision, raw: RawConfig, digitColor: JsValue): (r: Result<JsValue>)
    requires rev == Src && digitColor.Str? ==> OpacityModelled(raw)
    ensures r.Ok? <==> digitColor.Str?
    ensures r.Err? ==> r.error == NotAString
    ensures r.Ok? ==> r.value.Str? && r.value.s != "none" && Truthy(r.value)
  {
    match digitColor
    case Str(s) =>
      if rev == Src then Ok(Str(SrcDimmed(s, DefinedOr(Get(raw, Key.DimmedOpacity), Num(0)))))
      else Ok(Str(DistDimmed(s)))
    case _ => Err(NotAString)
  }

  /** What a successful `setConfig` leaves in `this.config`, or what it throws. A
      successful resolution differs from the defaulted object at most in the dimmed
      colour, and only where that was 'none'. */
  function ResolveConfig(rev: Revision, raw: RawConfig): (r: Result<CardConfig>)
    requires Resolvable(rev, raw)
    ensures r == Err(MissingEntity) <==> !Truthy(Get(raw, Key.Entity))
    ensures r.Ok? ==> r.value == Defaults(rev, raw).(dimmedColor := r.value.dimmedColor)
    ensures r.Ok? && Defaults(rev, raw).dimmedColor != Str("none") ==> r.value == Defaults(rev, raw)
    ensures r.Ok? ==> r.value.dimmedColor != Str("none")
  {
    if !Truthy(Get(raw, Key.Entity)) then Err(MissingEntity)
    else
      var base := Defaults(rev, raw);
      if base.dimmedColor != Str("none") then Ok(base)
      else
        match DeriveDimmed(rev, raw, base.digitColor)
        case Ok(d) => Ok(base.(dimmedColor := d))
        case Err(e) => Err(e)
  }

  // ---------------------------------------------------------------------------
  // Properties of the resolver

  /** Validation throws exactly when the entity is falsy; the `sensor.` prefix test
      in the same condition never decides anything, so `light.x` is accepted. */
  lemma RejectsExactlyFalsyEntity(rev: Revision, raw: RawConfig)
    requires Resolvable(rev, raw)
    ensures ResolveConfig(rev, raw) == Err(MissingEntity) <==> !Truthy(Get(raw, Key.Entity))
    ensures ResolveConfig(rev, raw) == Err(NotAString) <==>
      Truthy(Get(raw, Key.Entity)) && Defaults(rev, raw).dimmedColor == Str("none")
      && !Defaults(rev, raw).digitColor.Str?
    ensures ResolveConfig(rev, raw).Ok? ==> ResolveConfig(rev, raw).value.entity == Get(raw, Key.Entity)
  {
  }

  /** Fields resolved with `||` replace every falsy input (0, '', false, null,
      undefined) by the default, so `digit_spacing: 0` gives 10 and `rect_x: 0` gives 40;
      `use_24h_format` and `dimmed_opacity` keep any defined input, `false` and 0 included. */
  lemma FalsyInputsTakeDefaults(rev: Revision, raw: RawConfig, c: CardConfig)
    requires Resolvable(rev, raw)
    requires ResolveConfig(rev, raw) == Ok(c)
    ensures !Truthy(Get(raw, Key.DigitWidth)) ==> c.digitWidth == Num(40)
    ensures !Truthy(Get(raw, Key.DigitHeight)) ==> c.digitHeight == Num(75)
    ensures !Truthy(Get(raw, Key.DigitSpacing)) ==> c.digitSpacing == Num(10)
    ensures !Truthy(Get(raw, Key.SegmentThickness)) ==> c.segmentThickness == Num(8)
    ensures !Truthy(Get(raw, Key.RectX)) ==> c.rectX == Num(40)
    ensures !Truthy(Get(raw, Key.RectY)) ==> c.rectY == Num(10)
    ensures !Truthy(Get(raw, Key.RectWidth)) ==> c.rectWidth == Num(220)
    ensures !Truthy(Get(raw, Key.RectHeight)) ==> c.rectHeight == Num(100)
    ensures !Truthy(Get(raw, Key.DigitColor)) ==> c.digitColor == Str("white")
    ensures !Truthy(Get(raw, Key.BackgroundColor)) ==> c.backgroundColor == Str("transparent")
    ensures !Truthy(Get(raw, Key.HeightSvg)) ==> c.heightSvg == Str("120")
    ensures !Truthy(Get(raw, Key.MarginDiv)) ==> c.marginDiv == Str("0")
    ensures !Truthy(Get(raw, Key.JustifyContent)) ==> c.justifyContent == Str("center")
    ensures !Truthy(Get(raw, Key.WidthSvg)) ==> c.widthSvg == Str(if rev == Src then "50%" else "100%")
    ensures rev == Dist && !Truthy(Get(raw, Key.AlignItems)) ==> c.alignItems == Some(Str("center"))
    ensures Get(raw, Key.Use24hFormat) != Undefined ==> c.use24hFormat == Get(raw, Key.Use24hFormat)
    ensures Get(raw, Key.Use24hFormat) == Undefined ==> c.use24hFormat == Bool(true)
    ensures rev == Src ==> c.dimmedOpacity == Some(if Get(raw, Key.DimmedOpacity) != Undefined
                                                    then Get(raw, Key.DimmedOpacity) else Num(0))
  {
  }

  /** The other half of `raw.x || default`: a truthy input is kept as given, so
      `digit_width: 60` gives 60 whatever the other fields hold; a dimmed colour is
      kept too unless it is 'none', which the derivation replaces. */
  lemma TruthyInputsKept(rev: Revision, raw: RawConfig, c: CardConfig)
    requires Resolvable(rev, raw)
    requires ResolveConfig(rev, raw) == Ok(c)
    ensures Truthy(Get(raw, Key.DigitWidth)) ==> c.digitWidth == Get(raw, Key.DigitWidth)
    ensures Truthy(Get(raw, Key.DigitHeight)) ==> c.digitHeight == Get(raw, Key.DigitHeight)
    ensures Truthy(Get(raw, Key.DigitSpacing)) ==> c.digitSpacing == Get(raw, Key.DigitSpacing)
    ensures Truthy(Get(raw, Key.SegmentThickness)) ==> c.segmentThickness == Get(raw, Key.SegmentThickness)
    ensures Truthy(Get(raw, Key.RectX)) ==> c.rectX == Get(raw, Key.RectX)
    ensures Truthy(Get(raw, Key.RectY)) ==> c.rectY == Get(raw, Key.RectY)
    ensures Truthy(Get(raw, Key.RectWidth)) ==> c.rectWidth == Get(raw, Key.RectWidth)
    ensures Truthy(Get(raw, Key.RectHeight)) ==> c.rectHeight == Get(raw, Key.RectHeight)
    ensures Truthy(Get(raw, Key.DigitColor)) ==> c.digitColor == Get(raw, Key.DigitColor)
    ensures Truthy(Get(raw, Key.BackgroundColor)) ==> c.backgroundColor == Get(raw, Key.BackgroundColor)
    ensures Truthy(Get(raw, Key.WidthSvg)) ==> c.widthSvg == Get(raw, Key.WidthSvg)
    ensures Truthy(Get(raw, Key.HeightSvg)) ==> c.heightSvg == Get(raw, Key.HeightSvg)
    ensures Truthy(Get(raw, Key.MarginDiv)) ==> c.marginDiv == Get(raw, Key.MarginDiv)
    ensures Truthy(Get(raw, Key.JustifyContent)) ==> c.justifyContent == Get(raw, Key.JustifyContent)
    ensures rev == Dist && Truthy(Get(raw, Key.AlignItems)) ==> c.alignItems == Some(Get(raw, Key.AlignItems))
    ensures Truthy(Get(raw, Key.DimmedColor)) && Get(raw, Key.DimmedColor) != Str("none") ==>
      c.dimmedColor == Get(raw, Key.DimmedColor)
  {
  }

  /** Every field resolved with `||` is truthy afterwards. */
  predicate DefaultedFieldsTruthy(c: CardConfig) {
    && Truthy(c.entity) && Truthy(c.widthSvg) && Truthy(c.heightSvg) && Truthy(c.marginDiv)
    && (c.alignItems.Some? ==> Truthy(c.alignItems.value))
    && Truthy(c.justifyContent) && Truthy(c.backgroundColor) && Truthy(c.digitColor)
    && Truthy(c.dimmedColor) && Truthy(c.digitWidth) && Truthy(c.digitHeight)
    && Truthy(c.digitSpacing) && Truthy(c.segmentThickness) && Truthy(c.rectX)
    && Truthy(c.rectY) && Truthy(c.rectWidth) && Truthy(c.rectHeight)
  }

  /** The derived later-revision colour begins with "rgba(", so it is never 'none'. */
  lemma RgbaTextNotNone(r: Option<int>, g: Option<int>, b: Option<int>, alpha: string)
    ensures |RgbaText(r, g, b, alpha)| > 0 && RgbaText(r, g, b, alpha)[0] == 'r'
    ensures RgbaText(r, g, b, alpha) != "none"
  {
    var t := RgbaText(r, g, b, alpha);
    assert t[0] == "rgba("[0];
  }

  /** A resolved configuration has its defaulted fields truthy, and a dimmed colour
      other than 'none'. */
  lemma ResolvedIsSettled(rev: Revision, raw: RawConfig, c: CardConfig)
    requires Resolvable(rev, raw)
    requires ResolveConfig(rev, raw) == Ok(c)
    ensures DefaultedFieldsTruthy(c)
    ensures c.dimmedColor != Str("none")
    ensures c.use24hFormat != Undefined
    ensures (rev == Src) == c.dimmedOpacity.Some? && (rev == Dist) == c.alignItems.Some?
    ensures c.dimmedOpacity.Some? ==> c.dimmedOpacity.value != Undefined
  {
    var base := Defaults(rev, raw);
    if base.dimmedColor == Str("none") {
      var s := base.digitColor.s;
      if rev == Src {
        var o := DefinedOr(Get(raw, Key.DimmedOpacity), Num(0));
        var alpha := AlphaText(OpacityNumber(o));
        if StartsWithHash(s) {
          RgbaTextNotNone(ParseIntHex(Slice(s, 1, 3)), ParseIntHex(Slice(s, 3, 5)),
                          ParseIntHex(Slice(s, 5, 7)), alpha);
        } else {
          RgbaTextNotNone(Some(255), Some(255), Some(255), alpha);
        }
      } else if StartsWithHash(s) {
        assert (s + "4D")[0] == '#';
      }
    }
  }

  /** The keys a resolved configuration of either revision can hold. */
  const ConfigKeys: set<Key> := {
    Key.Entity, Key.Use24hFormat, Key.WidthSvg, Key.HeightSvg, Key.MarginDiv, Key.AlignItems,
    Key.JustifyContent, Key.DimmedOpacity, Key.BackgroundColor, Key.DigitColor,
    Key.DimmedColor, Key.DigitWidth, Key.DigitHeight, Key.DigitSpacing,
    Key.SegmentThickness, Key.RectX, Key.RectY, Key.RectWidth, Key.RectHeight}

  /** The value `this.config[k]` holds, if it has the property at all. */
  function Field(c: CardConfig, k: Key): Option<JsValue> {
    match k
    case Entity => Some(c.entity)
    case Use24hFormat => Some(c.use24hFormat)
    case WidthSvg => Some(c.widthSvg)
    case HeightSvg => Some(c.heightSvg)
    case MarginDiv => Some(c.marginDiv)
    case AlignItems => c.alignItems
    case JustifyContent => Some(c.justifyContent)
    case DimmedOpacity => c.dimmedOpacity
    case BackgroundColor => Some(c.backgroundColor)
    case DigitColor => Some(c.digitColor)
    case DimmedColor => Some(c.dimmedColor)
    case DigitWidth => Some(c.digitWidth)
    case DigitHeight => Some(c.digitHeight)
    case DigitSpacing => Some(c.digitSpacing)
    case SegmentThickness => Some(c.segmentThickness)
    case RectX => Some(c.rectX)
    case RectY => Some(c.rectY)
    case RectWidth => Some(c.rectWidth)
    case RectHeight => Some(c.rectHeight)
    case _ => None
  }

  /** `this.config` written back as a configuration object. */
  function ToRaw(c: CardConfig): RawConfig {
    map k | k in ConfigKeys && Field(c, k).Some? :: Field(c, k).value
  }

  lemma GetToRaw(c: CardConfig, k: Key)
    ensures Get(ToRaw(c), k) == if Field(c, k).Some? then Field(c, k).value else Undefined
  {
  }

  /** Each layout property of `ToRaw(c)` reads back as the field it came from. */
  lemma ToRawLayoutFields(c: CardConfig)
    ensures var r := ToRaw(c);
      && Get(r, Key.Entity) == c.entity && Get(r, Key.Use24hFormat) == c.use24hFormat
      && Get(r, Key.WidthSvg) == c.widthSvg && Get(r, Key.HeightSvg) == c.heightSvg
      && Get(r, Key.MarginDiv) == c.marginDiv
      && Get(r, Key.AlignItems) == (if c.alignItems.Some? then c.alignItems.value else Undefined)
      && Get(r, Key.JustifyContent) == c.justifyContent
      && Get(r, Key.DimmedOpacity) == (if c.dimmedOpacity.Some? then c.dimmedOpacity.value else Undefined)
  {
    GetToRaw(c, Key.Entity); GetToRaw(c, Key.Use24hFormat); GetToRaw(c, Key.WidthSvg);
    GetToRaw(c, Key.HeightSvg); GetToRaw(c, Key.MarginDiv); GetToRaw(c, Key.AlignItems);
    GetToRaw(c, Key.JustifyContent); GetToRaw(c, Key.DimmedOpacity);
  }

  /** Each colour and geometry property of `ToRaw(c)` reads back as the field it came from. */
  lemma ToRawDrawingFields(c: CardConfig)
    ensures var r := ToRaw(c);
      && Get(r, Key.BackgroundColor) == c.backgroundColor && Get(r, Key.DigitColor) == c.digitColor
      && Get(r, Key.DimmedColor) == c.dimmedColor && Get(r, Key.DigitWidth) == c.digitWidth
      && Get(r, Key.DigitHeight) == c.digitHeight && Get(r, Key.DigitSpacing) == c.digitSpacing
      && Get(r, Key.SegmentThickness) == c.segmentThickness && Get(r, Key.RectX) == c.rectX
      && Get(r, Key.RectY) == c.rectY && Get(r, Key.RectWidth) == c.rectWidth
      && Get(r, Key.RectHeight) == c.rectHeight
  {
    GetToRaw(c, Key.BackgroundColor); GetToRaw(c, Key.DigitColor); GetToRaw(c, Key.DimmedColor);
    GetToRaw(c, Key.DigitWidth); GetToRaw(c, Key.DigitHeight); GetToRaw(c, Key.DigitSpacing);
    GetToRaw(c, Key.SegmentThickness); GetToRaw(c, Key.RectX); GetToRaw(c, Key.RectY);
    GetToRaw(c, Key.RectWidth); GetToRaw(c, Key.RectHeight);
  }

  /** Re-reading a settled configuration through the defaults changes nothing. */
  lemma DefaultsOfSettled(rev: Revision, c: CardConfig)
    requires DefaultedFieldsTruthy(c) && c.use24hFormat != Undefined
    requires (rev == Src) == c.dimmedOpacity.Some? && (rev == Dist) == c.alignItems.Some?
    requires c.dimmedOpacity.Some? ==> c.dimmedOpacity.value != Undefined
    ensures Defaults(rev, ToRaw(c)) == c
  {
    ToRawLayoutFields(c);
    ToRawDrawingFields(c);
  }

  /** Resolving an already resolved configuration gives it back unchanged: the derived
      dimmed colour is idempotent and every default is a fixpoint. */
  lemma ResolveIsIdempotent(rev: Revision, raw: RawConfig, c: CardConfig)
    requires Resolvable(rev, raw)
    requires ResolveConfig(rev, raw) == Ok(c)
    ensures Resolvable(rev, ToRaw(c))
    ensures ResolveConfig(rev, ToRaw(c)) == Ok(c)
  {
    ResolvedIsSettled(rev, raw, c);
    DefaultsOfSettled(rev, c);
    ToRawLayoutFields(c);
    ToRawDrawingFields(c);
    if rev == Src {
      assert c.dimmedOpacity == Defaults(Src, raw).dimmedOpacity;
    }
  }

  // ---------------------------------------------------------------------------
  // The derived colour, case by case

  /** The channels of `#RRGGBB` are the values of its three hex pairs. */
  lemma HexChannels(s: string, o: JsValue)
    requires o.Str? ==> NumberModelled(o.s)
    requires |s| >= 7 && s[0] == '#'
    requires IsHexDigit(s[1]) && IsHexDigit(s[2]) && IsHexDigit(s[3])
    requires IsHexDigit(s[4]) && IsHexDigit(s[5]) && IsHexDigit(s[6])
    ensures SrcDimmed(s, o) == RgbaText(Some(16 * HexDigitValue(s[1]) + HexDigitValue(s[2])),
                                        Some(16 * HexDigitValue(s[3]) + HexDigitValue(s[4])),
                                        Some(16 * HexDigitValue(s[5]) + HexDigitValue(s[6])),
                                        AlphaText(OpacityNumber(o)))
  {
    var r, g, b := Slice(s, 1, 3), Slice(s, 3, 5), Slice(s, 5, 7);
    SrcDimmedOfHash(s, o);
    assert r[0] == s[1] && r[1] == s[2];
    assert g[0] == s[3] && g[1] == s[4];
    assert b[0] == s[5] && b[1] == s[6];
    ParseHexPair(r);
    ParseHexPair(g);
    ParseHexPair(b);
  }

  /** A digit colour starting with '#' is read as three hex pairs after it. */
  lemma SrcDimmedOfHash(s: string, o: JsValue)
    requires o.Str? ==> NumberModelled(o.s)
    requires |s| >= 1 && s[0] == '#'
    ensures SrcDimmed(s, o) == RgbaText(ParseIntHex(Slice(s, 1, 3)), ParseIntHex(Slice(s, 3, 5)),
                                        ParseIntHex(Slice(s, 5, 7)), AlphaText(OpacityNumber(o)))
  {
    assert StartsWithHash(s);
  }

  /** A three-digit colour such as '#FFF' is still cut at 1-3, 3-5 and 5-7: red reads
      'FF', green reads the single digit 'F' and blue reads an empty slice, which is NaN. */
  lemma ShortHexColour(o: JsValue)
    requires o.Str? ==> NumberModelled(o.s)
    ensures SrcDimmed("#FFF", o) == RgbaText(Some(255), Some(15), None, AlphaText(OpacityNumber(o)))
    ensures ChannelText(None) == "NaN"
  {
    var s := "#FFF";
    SrcDimmedOfHash(s, o);
    assert Slice(s, 1, 3) == "FF" && Slice(s, 3, 5) == "F" && Slice(s, 5, 7) == "";
    ShortHexPieces();
  }

  /** With `dimmed_color: 'none'` and a digit colour `#RRGGBB`, the later revision's dimmed
      colour is `rgba(r, g, b, opacity/100)` with each channel the value of its hex pair. */
  lemma SrcDimmedFromHex(raw: RawConfig, s: string, c: CardConfig)
    requires OpacityModelled(raw)
    requires Get(raw, Key.DimmedColor) == Str("none") && Get(raw, Key.DigitColor) == Str(s)
    requires |s| >= 7 && s[0] == '#' && forall i :: 1 <= i < 7 ==> IsHexDigit(s[i])
    requires ResolveConfig(Src, raw) == Ok(c)
    ensures var alpha := AlphaText(OpacityNumber(DefinedOr(Get(raw, Key.DimmedOpacity), Num(0))));
      c.dimmedColor == Str(RgbaText(Some(16 * HexDigitValue(s[1]) + HexDigitValue(s[2])),
                                    Some(16 * HexDigitValue(s[3]) + HexDigitValue(s[4])),
                                    Some(16 * HexDigitValue(s[5]) + HexDigitValue(s[6])), alpha))
    ensures 0 <= 16 * HexDigitValue(s[1]) + HexDigitValue(s[2]) <= 255
    ensures 0 <= 16 * HexDigitValue(s[3]) + HexDigitValue(s[4]) <= 255
    ensures 0 <= 16 * HexDigitValue(s[5]) + HexDigitValue(s[6]) <= 255
  {
    var o := DefinedOr(Get(raw, Key.DimmedOpacity), Num(0));
    assert Truthy(Str("none"));
    assert c.dimmedColor == Str(SrcDimmed(s, o));
    HexChannels(s, o);
  }

  /** Any string digit colour not starting with '#' (named white or anything else)
      dims to white at opacity/100; a digit colour that is not a string throws. */
  lemma SrcDimmedWithoutHash(raw: RawConfig)
    requires Resolvable(Src, raw) && Truthy(Get(raw, Key.Entity))
    requires Get(raw, Key.DimmedColor) == Str("none")
    ensures var d := Defaults(Src, raw).digitColor;
      d.Str? && !StartsWithHash(d.s) ==>
        var alpha := AlphaText(OpacityNumber(DefinedOr(Get(raw, Key.DimmedOpacity), Num(0))));
        ResolveConfig(Src, raw) == Ok(Defaults(Src, raw).(dimmedColor :=
          Str(RgbaText(Some(255), Some(255), Some(255), alpha))))
    ensures !Defaults(Src, raw).digitColor.Str? <==> ResolveConfig(Src, raw) == Err(NotAString)
  {
  }

  /** In the earlier revision 'none' becomes the hex digit colour with alpha byte 4D, or
      the fixed `rgba(255,255,255,0.3)`. */
  lemma DistDimmedCases(raw: RawConfig, s: string)
    requires Truthy(Get(raw, Key.Entity))
    requires Get(raw, Key.DimmedColor) == Str("none") && Defaults(Dist, raw).digitColor == Str(s)
    ensures StartsWithHash(s) ==> ResolveConfig(Dist, raw).value.dimmedColor == Str(s + "4D")
    ensures !StartsWithHash(s) ==>
      ResolveConfig(Dist, raw).value.dimmedColor == Str("rgba(255,255,255,0.3)")
  {
  }

  /** A dimmed colour other than 'none' is kept verbatim, and a falsy one becomes the
      fixed translucent white. */
  lemma DimmedKeptUnlessNone(rev: Revision, raw: RawConfig, c: CardConfig)
    requires Resolvable(rev, raw)
    requires ResolveConfig(rev, raw) == Ok(c)
    requires Get(raw, Key.DimmedColor) != Str("none")
    ensures Truthy(Get(raw, Key.DimmedColor)) ==> c.dimmedColor == Get(raw, Key.DimmedColor)
    ensures !Truthy(Get(raw, Key.DimmedColor)) ==> c.dimmedColor == Str("rgba(255,255,255,0.3)")
  {
  }

  /** A red digit colour at opacity 50 gives red at alpha 0.5. */
  lemma RedAtHalfOpacity()
    ensures SrcDimmed("#FF0000", Num(50)) == RgbaText(Some(255), Some(0), Some(0), HundredthsText(50))
  {
    var s := "#FF0000";
    assert IsHexDigit(s[1]) && IsHexDigit(s[2]) && IsHexDigit(s[3]);
    assert IsHexDigit(s[4]) && IsHexDigit(s[5]) && IsHexDigit(s[6]);
    HexChannels(s, Num(50));
    var r := 16 * HexDigitValue(s[1]) + HexDigitValue(s[2]);
    var g := 16 * HexDigitValue(s[3]) + HexDigitValue(s[4]);
    var b := 16 * HexDigitValue(s[5]) + HexDigitValue(s[6]);
    assert r == 255 && g == 0 && b == 0;
    assert AlphaText(OpacityNumber(Num(50))) == HundredthsText(50);
  }

  /** The text of that colour. */
  lemma RedAtHalfOpacityText()
    ensures RgbaText(Some(255), Some(0), Some(0), HundredthsText(50)) == "rgba(255, 0, 0, 0.5)"
  {
    assert NatText(255) == "255";
    var half := HundredthsText(50);
    assert NatText(0) == "0" && DigitChar(5) == '5';
    assert half == "0" + "." + ['5'];
  }

  // ---------------------------------------------------------------------------
  // The stub configuration offered by the card picker

  /** `getStubConfig()` of each revision. */
  function StubConfig(rev: Revision): (raw: RawConfig)
    ensures Truthy(Get(raw, Key.Entity)) && OpacityModelled(raw)
    ensures Get(raw, Key.DimmedColor) == Str("none") <==> rev == Src
  {
    if rev == Src then
      map[Key.Entity := Str("sensor.time"), Key.Use24hFormat := Bool(true),
          Key.BackgroundColor := Str("transparent"), Key.DigitColor := Str("white"),
          Key.DimmedColor := Str("none"), Key.DimmedOpacity := Num(0),
          Key.WidthSvg := Str("50%"), Key.HeightSvg := Str("120"),
          Key.JustifyContent := Str("center"), Key.MarginDiv := Str("0"),
          Key.ShowCardBackground := Bool(true)]
    else
      map[Key.Entity := Str("sensor.time"), Key.Use24hFormat := Bool(true),
          Key.BackgroundColor := Str("transparent"), Key.DigitColor := Str("white"),
          Key.DimmedColor := Str("rgba(255,255,255,0.3)"), Key.WidthSvg := Str("100%"),
          Key.HeightSvg := Str("120"), Key.JustifyContent := Str("center"),
          Key.MarginDiv := Str("0")]
  }

  /** The stub passes validation; in the later revision its 'none' resolves to fully
      transparent white, in the earlier one the dimmed colour is given outright. */
  lemma StubResolves(rev: Revision)
    ensures OpacityModelled(StubConfig(rev)) && ResolveConfig(rev, StubConfig(rev)).Ok?
    ensures ResolveConfig(rev, StubConfig(rev)).value.dimmedColor ==
      Str(if rev == Src then RgbaText(Some(255), Some(255), Some(255), HundredthsText(0))
          else "rgba(255,255,255,0.3)")
  {
    if rev == Src {
      LaterStubDimmed();
    } else {
      EarlierStubDimmed();
    }
  }

  /** The later stub's 'none' with the named colour white at opacity 0. */
  lemma LaterStubDimmed()
    ensures ResolveConfig(Src, StubConfig(Src)).Ok?
    ensures ResolveConfig(Src, StubConfig(Src)).value.dimmedColor ==
      Str(RgbaText(Some(255), Some(255), Some(255), HundredthsText(0)))
  {
    var raw := StubConfig(Src);
    assert Get(raw, Key.DigitColor) == Str("white") && Get(raw, Key.DimmedOpacity) == Num(0);
    WhiteAtNoOpacity(raw);
  }

  /** 'none' with the digit colour white and opacity 0 resolves to white at alpha 0/100. */
  lemma WhiteAtNoOpacity(raw: RawConfig)
    requires Truthy(Get(raw, Key.Entity)) && Get(raw, Key.DimmedColor) == Str("none")
    requires Get(raw, Key.DigitColor) == Str("white") && Get(raw, Key.DimmedOpacity) == Num(0)
    ensures ResolveConfig(Src, raw).Ok?
    ensures ResolveConfig(Src, raw).value.dimmedColor ==
      Str(RgbaText(Some(255), Some(255), Some(255), HundredthsText(0)))
  {
    assert Defaults(Src, raw).digitColor == Str("white");
    SrcDimmedWithoutHash(raw);
    assert AlphaText(OpacityNumber(Num(0))) == HundredthsText(0);
  }

  /** The earlier stub names its dimmed colour outright. */
  lemma EarlierStubDimmed()
    ensures ResolveConfig(Dist, StubConfig(Dist)).Ok?
    ensures ResolveConfig(Dist, StubConfig(Dist)).value.dimmedColor == Str("rgba(255,255,255,0.3)")
  {
    var raw := StubConfig(Dist);
    assert Get(raw, Key.DimmedColor) == Str("rgba(255,255,255,0.3)");
  }

  /** The text of the stub's derived colour. */
  lemma StubDimmedText()
    ensures RgbaText(Some(255), Some(255), Some(255), HundredthsText(0)) == "rgba(255, 255, 255, 0)"
  {
    assert NatText(255) == "255";
    assert HundredthsText(0) == "0";
  }
}
