# Digital clock card

A model of the Home Assistant "digital clock card": a custom element that reads a time
entity (a state such as `"13:05"` or `"13:05:42"`) and draws it as four seven-segment
digits and a colon inside a rectangle. The repository holds two revisions of the card,
and both are modelled:

- `src/digital-clock-card.js` is the later revision. It has a `configInitialized` flag and
  a not-configured placeholder. It derives a `dimmed_color` of `'none'` as
  `rgba(r, g, b, opacity/100)`.
- `dist/digital-clock-card.js` is the earlier revision. It has no flag. It derives
  `'none'` as the digit colour plus `4D`, and its container style carries `align_items`.

The modules follow the program's structure:

| module | file | what it holds |
|---|---|---|
| `Js` | `js_values.dfy` | JavaScript values and the conversions the card relies on. This covers truthiness, the logical-or default, `!== undefined` and `String(v)`. It also covers `n.toString()`, `padStart(2, '0')`, the text of `opacity / 100`, `Number(s)`, `parseInt(s)` and `parseInt(s, 16)`. |
| `Config` | `config.dfy` | `setConfig`'s resolution of a raw configuration: validation, defaults and the derived dimmed colour, for both revisions. Also `getStubConfig`. |
| `Time` | `time.dfy` | `state.split(':').map(Number)`, `Date.setHours`/`setMinutes` on a local clock, 24/12-hour formatting and the four display characters. |
| `Glyphs` | `glyphs.dfy` | `drawDigit`: the segment table, the seven polygon outlines and their fills. Also `drawColon`. |
| `Render` | `render.dfy` | `renderClock`: geometry (`parseInt` of the fields), centring layout, entity lookup, placeholders and the drawing. |
| `SrcCard` | `src_card.dfy` | The later card as a class with `config`, `configInitialized`, `_hass` and content. Its methods are `setConfig` and the `hass` setter. |
| `DistCard` | `dist_card.dfy` | The earlier card as a class, and the editor's `_config` with `_updateConfig`'s shallow merge. |

Modelling choices:

- A raw configuration is a map from property name to `JsValue`. A missing key reads as `undefined`.
- Numbers are integers. Coordinates are `real`, because the layout divides by 2 and by 3.
- The markup is modelled as a list of shapes in drawing order: the background `Rect` with corner 5, 7 polygons per digit and two colon `Rect`s.
- The wall clock (`new Date()`) is a parameter `now` of the render functions.
- `setConfig`'s throws are the `Err` results `MissingEntity` and `NotAString`.

Behaviours of the code worth noting:

- **Wall-clock fallback.** Only an EMPTY state uses the wall-clock time.
  - A non-empty state that does not parse is not replaced by the wall clock.
  - `setHours(NaN)` makes an Invalid Date, which prints as `NaN`. The digits become `"NaNa"` in 24-hour mode and `"12Na"` in 12-hour mode.
  - None of these characters is in the segment table, so every such cell is drawn dimmed.
  - A state with a single piece (`"13"`) gives `setMinutes(undefined)`, which is also an Invalid Date.
- **Short hex colours.** The later revision cuts a '#' colour at fixed positions, so '#FFF' gives green 15 and a NaN blue channel (`Config.ShortHexColour`).
- **Entity validation.** The check rejects only a falsy `entity`. The `startsWith('sensor.')` clause cannot change the outcome, so any truthy id is accepted.
- **Earlier revision without a configuration.** The `hass` setter throws there (`this.config.entity` of `undefined`) instead of showing a placeholder.

## Model

| member | source | states |
|---|---|---|
| `Js.NatTextRoundTrip` | src/digital-clock-card.js:175-177 | `n.toString()` is a non-empty string of decimal digits whose value is n. |
| `Js.PadTwoDigits` | src/digital-clock-card.js:174-177 | `padStart(2, '0')` of `n.toString()` for n < 100 is the tens digit followed by the units digit. |
| `Js.ParseHexPair` | src/digital-clock-card.js:97-99 | `parseInt` in base 16 of two hex digits is 16·hi + lo, which lies in 0..255. |
| `Js.ParseIntHex` | src/digital-clock-card.js:97-99 | `parseInt(s, 16)` of an empty or all-white-space string is NaN, and a negative value comes only from a leading '-'. |
| `Js.ParseInt` | src/digital-clock-card.js:195-204 | `parseInt(s)` of an empty or all-white-space string is NaN, and a negative value comes only from a leading '-'. |
| `Js.StringToNumber` | src/digital-clock-card.js:89-92 | `Number(s)` is NaN iff the string holds a character no numeral contains. |
| `Js.HundredthsTextDenotes` | src/digital-clock-card.js:92-100 | The printed `opacity / 100` is a decimal numeral, with an optional '-', whose value is exactly n/100. Its integer part has no redundant leading zero. It has a fractional part exactly when 100 does not divide n, and that part never ends in '0' (5 prints '0.05', 50 prints '0.5', 110 prints '1.1'). |
| `Js.HundredthsText` | src/digital-clock-card.js:92-100 | The text of n/100 is the plain decimal of n/100 when n is a non-negative multiple of 100, and starts with '-' when n is negative. |
| `Js.ParseIntOfText` | src/digital-clock-card.js:195-204 | `parseInt(String(n))` gives back the integer n for every integer, negative ones included. |
| `Config.Defaults` | src/digital-clock-card.js:46-84 | The object assigned to `this.config` keeps a truthy entity and never leaves `use_24h_format` undefined. `dimmed_opacity` is present exactly in src and `align_items` exactly in dist, and a present opacity is never undefined. Both halves of each `||` default are stated over the resolved configuration, by `Config.TruthyInputsKept` and `Config.FalsyInputsTakeDefaults`. |
| `Config.SrcDimmed` | src/digital-clock-card.js:87-106 | The later revision's derived colour is always an `rgba(...)` text. |
| `Config.DistDimmed` | dist/digital-clock-card.js:82-89 | The earlier revision's derived colour starts with '#' iff the digit colour does, and is then the digit colour followed by two characters. |
| `Config.DeriveDimmed` | src/digital-clock-card.js:88-106 | Deriving a colour for 'none' succeeds iff the digit colour is a string, and otherwise fails with the not-a-string error. A derived colour is a truthy string other than 'none'. |
| `Config.ResolveConfig` | src/digital-clock-card.js:41-107 | `setConfig` throws the missing-entity error iff the entity is falsy. A success differs from the defaulted object at most in the dimmed colour, equals it when that was not 'none', and never leaves 'none' behind. |
| `Config.RejectsExactlyFalsyEntity` | src/digital-clock-card.js:41-46 | Resolution fails with the missing-entity error iff `entity` is falsy, so any truthy id is accepted. It fails with the not-a-string error iff the entity is truthy, the resolved dimmed colour is 'none' and the digit colour is not a string. An accepted configuration keeps the given entity. |
| `Config.FalsyInputsTakeDefaults` | src/digital-clock-card.js:46-84 | Every field defaulted with a logical or takes its default when given a falsy value (0, '', false, null, undefined). The defaults are 40/75/10/8 for the digit, 40/10/220/100 for the rectangle, 'white' for the digit colour and 'transparent' for the background. The SVG gets '50%' (src) or '100%' (dist) wide and '120' high. The container gets margin '0', justify-content 'center' and dist's align-items 'center'. `use_24h_format` and `dimmed_opacity` keep any value other than undefined, `false` and `0` included. |
| `Config.TruthyInputsKept` | src/digital-clock-card.js:46-84 | Every field defaulted with a logical or keeps a truthy input exactly as given, whatever the other fields hold: the digit and rectangle geometry, the digit and background colours, the SVG size, the margin, justify-content and dist's align-items. So `{entity, digit_width: 60}` resolves with digit width 60. A truthy dimmed colour other than 'none' is kept too. |
| `Config.ResolvedIsSettled` | src/digital-clock-card.js:46-107 | A resolved configuration has every defaulted field truthy and a dimmed colour other than 'none'. Its revision-specific fields are present exactly in their revision. |
| `Config.DefaultsOfSettled` | dist/digital-clock-card.js:43-79 | Filling defaults into a settled configuration written back as an object changes nothing. |
| `Config.ResolveIsIdempotent` | dist/digital-clock-card.js:43-89 | Resolving an already-resolved configuration again gives the same configuration, in both revisions. |
| `Config.RgbaTextNotNone` | src/digital-clock-card.js:100 | The `rgba(...)` template text starts with 'r' and is never 'none'. |
| `Config.ShortHexColour` | src/digital-clock-card.js:95-100 | A three-digit colour '#FFF' is still cut at 1-3, 3-5 and 5-7: red is 255 from 'FF', green is 15 from the lone 'F', and blue is NaN from the empty slice, so the dimmed colour prints 'NaN' as its blue channel. |
| `Config.HexChannels` | src/digital-clock-card.js:95-100 | For a `#RRGGBB` digit colour, the derived colour is the rgba text of the three hex pairs' values at the opacity's alpha. |
| `Config.SrcDimmedFromHex` | src/digital-clock-card.js:87-100 | With `dimmed_color` 'none' and a `#RRGGBB` digit colour, the resolved dimmed colour is `rgba(r, g, b, opacity/100)`. Each channel lies in 0..255, and the opacity defaults to 0 when undefined. |
| `Config.SrcDimmedWithoutHash` | src/digital-clock-card.js:95-106 | Any string digit colour not starting with '#', 'white' or otherwise, gives `rgba(255, 255, 255, opacity/100)`. A digit colour that is not a string makes resolution fail. |
| `Config.DistDimmedCases` | dist/digital-clock-card.js:82-89 | In the earlier revision, with `dimmed_color` 'none', a digit colour starting with '#' gives the colour plus '4D'. Any other string gives 'rgba(255,255,255,0.3)'. |
| `Config.DimmedKeptUnlessNone` | src/digital-clock-card.js:67-88 | A dimmed colour other than 'none' is kept verbatim when truthy and replaced by 'rgba(255,255,255,0.3)' when falsy. |
| `Config.RedAtHalfOpacity` | src/digital-clock-card.js:89-100 | '#FF0000' at opacity 50 derives the channels 255, 0, 0 and the alpha text of 50/100. |
| `Config.RedAtHalfOpacityText` | src/digital-clock-card.js:100 | That colour reads 'rgba(255, 0, 0, 0.5)'. |
| `Config.StubConfig` | src/digital-clock-card.js:129-143 | Both stubs name an entity. The dimmed colour is 'none' exactly in the later revision's stub. |
| `Config.StubResolves` | src/digital-clock-card.js:129-143 | Both revisions' stub configurations pass validation. In the later one, 'none' with 'white' at opacity 0 resolves to white at alpha 0/100. The earlier stub's dimmed colour is kept. |
| `Config.LaterStubDimmed` | src/digital-clock-card.js:129-143 | The later stub resolves, and its 'none' becomes white at alpha 0/100. |
| `Config.WhiteAtNoOpacity` | src/digital-clock-card.js:88-102 | Any configuration with 'none', the digit colour 'white' and opacity 0 resolves to white at alpha 0/100. |
| `Config.EarlierStubDimmed` | dist/digital-clock-card.js:96-108 | The earlier stub resolves and keeps its dimmed colour 'rgba(255,255,255,0.3)'. |
| `Config.StubDimmedText` | src/digital-clock-card.js:135-136 | The later stub's dimmed colour reads 'rgba(255, 255, 255, 0)'. |
| `Time.Split` | src/digital-clock-card.js:167 | `split(':')` never returns an empty list. |
| `Time.SplitHasNoColon` | src/digital-clock-card.js:167 | No piece of `split(':')` contains a colon. |
| `Time.JoinSplit` | src/digital-clock-card.js:167 | Joining the pieces of `split(':')` with ':' gives back the state. |
| `Time.SplitJoin` | src/digital-clock-card.js:167 | Splitting colon-free pieces joined by ':' gives back exactly those pieces. |
| `Time.PartNumber` | src/digital-clock-card.js:167 | `Number(piece)` is NaN iff the piece holds a non-numeric character, and otherwise it is the piece's decimal value. |
| `Time.SetHours` | src/digital-clock-card.js:168 | `setHours(h)` keeps the minute and sets the hour to h mod 24. A NaN hour or an Invalid Date gives an Invalid Date. |
| `Time.SetMinutes` | src/digital-clock-card.js:169 | `setMinutes(m)` sets the minute of the day to (hour·60 + m) mod 1440, carrying into the hour. A NaN minute or an Invalid Date gives an Invalid Date. |
| `Time.TimeOfState` | src/digital-clock-card.js:161-170 | An empty state gives the wall-clock time. Any valid time it produces has hour < 24 and minute < 60. |
| `Time.HourText` | src/digital-clock-card.js:173-176 | The padded hour text has at least two characters, so `charAt(0)` and `charAt(1)` exist. For a valid time it is exactly two decimal digits. |
| `Time.MinuteText` | src/digital-clock-card.js:177 | The padded minute text has at least two characters, and for a valid time exactly two decimal digits. |
| `Time.Hour12` | src/digital-clock-card.js:176 | The 12-hour value (h mod 12, or 12 when that is 0) lies in 1..12 and agrees with h mod 12. |
| `Time.DisplayDigits` | src/digital-clock-card.js:180-183 | Four display characters are extracted. |
| `Time.DisplayReadsBack` | src/digital-clock-card.js:173-183 | For a valid time, all four characters are decimal digits. In 24-hour mode the first two read back as the hour and the last two as the minute. In 12-hour mode the first two read back as h mod 12, or 12 when that is 0. |
| `Time.TwelveHourRange` | src/digital-clock-card.js:174-176 | In 12-hour mode the hour shown is 01..12 and its first character is '0' or '1'. h and h+12 are displayed alike. |
| `Time.InvalidDateDigits` | src/digital-clock-card.js:164-183 | An Invalid Date displays "NaNa" in 24-hour mode and "12Na" in 12-hour mode. |
| `Time.ParsesHoursAndMinutes` | src/digital-clock-card.js:164-170 | A state `H:M[...]` of digit pieces gives hour (H + M div 60) mod 24 and minute M mod 60. |
| `Time.WellFormedState` | src/digital-clock-card.js:161-170 | A state `H:M` or `H:M:S` with H < 24 and M < 60 gives exactly H and M. |
| `Time.SecondsIgnored` | src/digital-clock-card.js:166-170 | Pieces after the minutes never change the time. |
| `Time.MalformedStates` | src/digital-clock-card.js:165-170 | A non-empty state with one piece, or with a non-numeric hour or minute piece, gives an Invalid Date instead of the wall-clock time. |
| `Time.OnePastOnePm` | dist/digital-clock-card.js:121-143 | "13:05" displays "1305" in 24-hour mode and "0105" in 12-hour mode, whatever the wall clock. |
| `Glyphs.Segments` | src/digital-clock-card.js:214-228 | A segment pattern has seven entries, each 0 or 1. The table holds exactly the decimal digits, and any other character falls back to all zeros. |
| `Glyphs.TableMatchesLetters` | src/digital-clock-card.js:214-228 | Entry i of a character's segment pattern is 1 iff the i-th segment letter is among the character's lit segments, and 0 otherwise. Characters outside the table light nothing. |
| `Glyphs.GlyphsAreDistinct` | src/digital-clock-card.js:214-225 | The ten digit patterns are pairwise different and none is blank. |
| `Glyphs.ReadDigitInverts` | src/digital-clock-card.js:214-228 | Reading a digit's pattern back gives the digit, and the blank fallback pattern reads as no digit. |
| `Glyphs.DrawDigit` | dist/digital-clock-card.js:173-227 | A digit is drawn as seven shapes. |
| `Glyphs.Outline` | src/digital-clock-card.js:231-262 | Every segment outline has four vertices. |
| `Glyphs.DigitStructure` | src/digital-clock-card.js:228-262 | The seven shapes are segments a to g in order, shape i outlined by `Outline(i, x, y, cell)`, so their vertices do not depend on the character. Fill i is the digit colour iff table entry i is 1, and the dimmed colour otherwise. |
| `Glyphs.UnknownCharacterDimmed` | src/digital-clock-card.js:228 | A character outside the table draws all seven segments dimmed. |
| `Glyphs.VerticesInCell` | src/digital-clock-card.js:231-262 | When 0 ≤ thickness ≤ width and thickness ≤ height, every vertex lies in the cell [x, x+dw] × [y, y+dh]. |
| `Glyphs.CellIsBoundingBox` | src/digital-clock-card.js:234-262 | Vertices reach x (segment f), x+dw (segment b), y (segment a) and y+dh (segment d), so the cell is the vertices' bounding box. |
| `Glyphs.SidesMirror` | src/digital-clock-card.js:234-262 | Mirroring the cell left to right maps segment b onto f and c onto e, and maps a and g onto themselves. |
| `Glyphs.BottomSegmentLopsided` | src/digital-clock-card.js:247-249 | The bottom segment's inner edge is inset by the full thickness on the left and half of it on the right. So when 0 < thickness < width, segment d is not mirror-symmetric. |
| `Glyphs.DrawColon` | src/digital-clock-card.js:269-277 | The colon is drawn as two shapes. |
| `Glyphs.ColonDots` | src/digital-clock-card.js:269-277 | The colon is two 8×8 squares in the digit colour at x+5, centred at one third and two thirds of the digit height. They are disjoint iff the digit height is at least 24. |
| `Render.GeometryOf` | src/digital-clock-card.js:195-204 | The eight numbers read with `parseInt` are all whole. |
| `Render.ComputeLayout` | src/digital-clock-card.js:207-209 | There are four digit cells. The first starts at startX, and the last ends totalWidth after startX. |
| `Render.LayoutCentred` | src/digital-clock-card.js:207-209 | The last cell ends at startX + totalWidth. The block's left and right margins to the rectangle are equal, as are its top and bottom margins. Nothing is clamped. |
| `Render.CellPitch` | src/digital-clock-card.js:280-305 | Cells are dw+ds apart within the hours and within the minutes. The minute cells are shifted by an extra thickness. The colon starts at the second cell's right edge. |
| `Render.ColonFitsGap` | src/digital-clock-card.js:269-280 | The colon dots lie between the second and third cells iff spacing + thickness ≥ 13. |
| `Render.DefaultLayout` | dist/digital-clock-card.js:168-170 | With the default geometry the block starts at x = 51 and y = 22.5. |
| `Render.DefaultsGiveDefaultGeometry` | dist/digital-clock-card.js:156-165 | When every geometry field is falsy, the defaults parse back to the default geometry 40/75/10/8/40/10/220/100. |
| `Render.DrawClock` | src/digital-clock-card.js:291-309 | A clock is drawn as 31 shapes. |
| `Render.RenderGuarded` | src/digital-clock-card.js:149-153 | The later revision returns the not-configured placeholder whenever the flag is down or no configuration is stored, before looking up the entity. Otherwise it renders exactly what `RenderClock` renders for the stored configuration. |
| `Render.RenderClock` | src/digital-clock-card.js:155-309 | The result is the not-found message iff the entity is missing. Otherwise the container is styled with the configured justify-content and margin, and with align-items exactly when the configuration has one. The SVG has the configured width and height, and the clock has 31 shapes. |
| `Render.MissingEntityMessage` | dist/digital-clock-card.js:115-118 | The result is a placeholder iff the entity is missing. The placeholder is "Entity <id> not found." and carries the id. |
| `Render.ClockStructure` | src/digital-clock-card.js:291-309 | A found entity draws the background rect (corner 5, background colour), then digit, digit, colon, digit, digit. The digits are drawn at the layout's cells from the four display characters. |
| `Render.AlignItemsOnlyInEarlier` | dist/digital-clock-card.js:244-255 | Only the earlier revision styles the container with align-items, and it uses the configured value or 'center'. In both revisions justify-content, margin and the SVG size are the configured values or their defaults. |
| `Render.RenderedTimeReadsBack` | src/digital-clock-card.js:161-305 | In 24-hour mode, with distinct digit and dimmed colours, reading the lit segments of the four drawn cells gives the time's hour tens, hour units, minute tens and minute units. |
| `Render.InvalidTimeRendering` | src/digital-clock-card.js:164-228 | An Invalid Date draws both minute cells fully dimmed, and in 24-hour mode the hour cells too. |
| `SrcCard.Card.constructor` | src/digital-clock-card.js:2-18 | A new card has no configuration, no states, a lowered flag and blank content. |
| `SrcCard.Card.SetConfig` | src/digital-clock-card.js:41-122 | The result is the resolver's. A missing entity changes nothing. A non-string digit colour stores the defaults with 'none' but leaves the flag and content. Success stores the configuration, raises the flag, and re-renders only when states are present. |
| `SrcCard.Card.SetHass` | src/digital-clock-card.js:312-323 | Stores the states. The content becomes the rendering when configured and the not-configured placeholder otherwise. |
| `SrcCard.HassBeforeConfig` | src/digital-clock-card.js:116-122 | States that arrive first show the placeholder. A later valid configuration renders them at once. |
| `SrcCard.RejectedConfigKeepsClock` | src/digital-clock-card.js:41-44 | A configuration rejected for its entity leaves a configured card showing its clock. |
| `DistCard.Card.SetConfig` | dist/digital-clock-card.js:38-90 | The result is the resolver's. A missing entity changes nothing. Otherwise the (possibly half-derived) configuration is stored, and the content is never touched. |
| `DistCard.Card.SetHass` | dist/digital-clock-card.js:274-279 | Stores the states and always renders. It throws iff no configuration is stored, and then the content is unchanged. |
| `DistCard.HassBeforeConfig` | dist/digital-clock-card.js:274-279 | States before a configuration throw, and the configuration alone leaves the card blank. |
| `DistCard.MergeConfig` | dist/digital-clock-card.js:503 | The merge has the union of the keys. Every key of the update has its new value, and every other key keeps its old value. |
| `DistCard.MergeReads` | dist/digital-clock-card.js:503 | Reading a merged configuration gives the update's value where it has the key, and the old reading otherwise. |
| `DistCard.MergeComposes` | dist/digital-clock-card.js:499-503 | Applying an update twice is applying it once. Two updates in a row equal one merged update where the later values win. |
| `DistCard.Editor.SetConfig` | dist/digital-clock-card.js:290-291 | The editor keeps a copy of the configuration. |
| `DistCard.Editor.UpdateConfig` | dist/digital-clock-card.js:499-511 | Without a configuration nothing happens and nothing is sent. Otherwise the configuration becomes the merge, and the merge is the event's configuration. |
| `DistCard.EditOneField` | dist/digital-clock-card.js:290-511 | Editing one field sends a configuration that differs from the original in that field only. |

## Left out

- The DOM is not modelled. This covers the shadow root, `ha-card`, the injected `<style>`, card background styling (`show_card_background`), `customElements.define` and `window.customCards`. These are side effects on the page with no result the card reads back.
- The editor's form, its listeners, `loadCardHelpers` and the `CustomEvent` dispatch are host-framework glue. Only the key merge of the earlier `_updateConfig` and the stored `_config` are modelled.
- The later revision's editor (`_updateConfig` and `_updateDimmedColorWithOpacity`) is not modelled. It builds the same shallow merge, without the guard for an unset configuration, and reconfigures a preview card. The opacity helper computes channels it then discards.
- `getCardSize` is a constant.
- The fields `show_name`, `show_icon`, `name`, `text_color` and `clock_center_x`/`clock_center_y` are resolved but never read by the drawing, so the configuration record omits them.
- The `if (!this.content) return` guard of the `hass` setters is not modelled. The constructor always creates the content element, so the guard never fires.
- The exact markup text is not modelled: whitespace, attribute order, and the decimal printing of fractional coordinates. The model yields structured shapes with `real` coordinates. The colour texts the card computes are modelled character for character.
- JavaScript doubles are modelled as exact numbers. Numbers are integers, and digit strings read by `parseInt` are exact even beyond 2^53. `dh/3` is an exact rational instead of a rounded double.
- `Js.StringToNumber` covers only two kinds of string: all-digit strings of at most 15 digits, and strings with a character no numeric literal can hold. Other opacity strings (signs, decimals, exponents, surrounding white space, `Infinity`) are excluded by `Config.OpacityModelled`. `Config.Resolvable` asks for this only where the opacity is read: in the later revision, with a truthy entity, a resolved dimmed colour of 'none' and a string digit colour.
- `Time.TimeOfState` covers only two kinds of time piece: digit strings of at most 6 digits, and pieces with a non-numeric character. Other pieces (" 5", "1.5", "0x1", longer numerals) are excluded by `Time.StateModelled`.
- Time zones and daylight-saving changes are not modelled. `setHours`/`setMinutes` roll over on a plain 24-hour day.
- `Render.RenderClock` requires every geometry field to parse to a number when the entity is found. A missing entity is reported before any field is parsed. A field whose `parseInt` is NaN would draw NaN coordinates, which the `real` geometry cannot represent.
- Property keys inherited from `Object.prototype` are not modelled. The states map holds only its own entity ids.
- Strings are sequences of characters, not UTF-16 code units.
- `Js.Key`: `Other(name)` stands for a property whose name is none of the listed configuration keys. The type does not enforce this, so `Other("entity")` would be a second, unrelated key rather than `Entity`. Raw configurations are meant to be built from distinct property names only.
