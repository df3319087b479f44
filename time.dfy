/** How `renderClock` turns an entity state such as "13:05" or "13:05:42" into the four
    characters the clock shows: `state.split(':').map(Number)`, `setHours`/`setMinutes`
    on the current date, then `getHours()` (or `getHours() % 12 || 12`) and
    `getMinutes()`, each zero-padded to two characters. */
module Time {
  import opened Js

  // ---------------------------------------------------------------------------
  // String.prototype.split(':') and its inverse

  /** `s.split(':')`: the pieces between the colons, never an empty list. */
  function Split(s: string): (parts: seq<string>)
    ensures |parts| >= 1
    decreases |s|
  {
    if s == [] then [""]
    else if s[0] == ':' then [""] + Split(s[1..])
    else
      var rest := Split(s[1..]);
      [[s[0]] + rest[0]] + rest[1..]
  }

  /** `parts.join(':')` */
  function Join(parts: seq<string>): string
    requires |parts| >= 1
    decreases |parts|
  {
    if |parts| == 1 then parts[0] else parts[0] + ":" + Join(parts[1..])
  }

  predicate NoColon(s: string) {
    forall i :: 0 <= i < |s| ==> s[i] != ':'
  }

  predicate AllNoColon(parts: seq<string>) {
    forall k :: 0 <= k < |parts| ==> NoColon(parts[k])
  }

  /** No piece of a split holds a colon. */
  lemma {:induction false} SplitHasNoColon(s: string)
    ensures AllNoColon(Split(s))
    decreases |s|
  {
    if s != [] {
      SplitHasNoColon(s[1..]);
      if s[0] != ':' {
        var rest := Split(s[1..]);
        var parts := Split(s);
        assert forall k | 1 <= k < |parts| :: parts[k] == rest[k];
        assert NoColon(rest[0]);
      }
    }
  }

  /** Joining the pieces of a split gives back the state. */
  lemma {:induction false} JoinSplit(s: string)
    ensures Join(Split(s)) == s
    decreases |s|
  {
    if s == [] {
    } else if s[0] == ':' {
      JoinSplit(s[1..]);
      assert Split(s)[1..] == Split(s[1..]);
    } else {
      JoinSplit(s[1..]);
      var rest := Split(s[1..]);
      var parts := Split(s);
      assert parts[1..] == rest[1..];
      if |rest| > 1 {
        assert Join(rest) == rest[0] + ":" + Join(rest[1..]);
      }
    }
  }

  /** Colon-free pieces joined with ':' split back into the same pieces. */
  lemma {:induction false} SplitJoin(parts: seq<string>)
    requires |parts| >= 1 && AllNoColon(parts)
    ensures Split(Join(parts)) == parts
    decreases |parts|, |parts[0]|
  {
    var p := parts[0];
    if p == [] {
      if |parts| > 1 {
        SplitJoin(parts[1..]);
        assert Join(parts) == ":" + Join(parts[1..]);
        assert Join(parts)[1..] == Join(parts[1..]);
      }
    } else {
      var tail := [p[1..]] + parts[1..];
      assert AllNoColon(tail) by {
        assert forall k | 1 <= k < |tail| :: tail[k] == parts[k];
      }
      SplitJoin(tail);
      assert tail[1..] == parts[1..];
      assert Join(parts) == [p[0]] + Join(tail);
      assert Join(parts)[1..] == Join(tail);
      assert [p[0]] + p[1..] == p;
    }
  }

  // ---------------------------------------------------------------------------
  // The local time a Date holds

  /** The hour and minute a `Date` reports, or an Invalid Date (a NaN time value). */
  datatype LocalTime = At(hour: nat, minute: nat) | InvalidDate

  predicate ValidClock(t: LocalTime) {
    t.At? && t.hour < 24 && t.minute < 60
  }

  /** `date.setHours(h)`: the minutes are kept and the hour rolls over into other days;
      a NaN hour, or a date that is already invalid, gives an Invalid Date. */
  function SetHours(t: LocalTime, h: Numeric): (r: LocalTime)
    requires t.At? ==> t.minute < 60
    ensures t.At? && h.Finite? ==> ValidClock(r) && r.minute == t.minute && r.hour == h.n % 24
    ensures t.InvalidDate? || h.NaN? ==> r == InvalidDate
  {
    if t.InvalidDate? || h.NaN? then InvalidDate else At(h.n % 24, t.minute)
  }

  /** `date.setMinutes(m)`: whole hours of m carry into the hour. */
  function SetMinutes(t: LocalTime, m: Numeric): (r: LocalTime)
    requires t.At? ==> t.hour < 24
    ensures t.At? && m.Finite? ==>
      ValidClock(r) && r.hour * 60 + r.minute == (t.hour * 60 + m.n) % 1440
    ensures t.InvalidDate? || m.NaN? ==> r == InvalidDate
  {
    if t.InvalidDate? || m.NaN? then InvalidDate
    else
      var total := (t.hour * 60 + m.n) % 1440;
      At(total / 60, total % 60)
  }

  /** The pieces of a state whose `Number(...)` the model knows: digit runs short enough
      that every `setHours`/`setMinutes` stays within a Date's range, and pieces with a
      character no numeral contains (NaN). */
  predicate PartModelled(p: string) {
    (AllDigits(p) && |p| <= 6) || HasNonNumericChar(p)
  }

  predicate StateModelled(state: string) {
    var parts := Split(state);
    state == "" || (PartModelled(parts[0]) && (|parts| >= 2 ==> PartModelled(parts[1])))
  }

  /** `Number` of a modelled piece. */
  function PartNumber(p: string): (r: Numeric)
    requires PartModelled(p)
    ensures r.NaN? <==> HasNonNumericChar(p)
    ensures r.Finite? ==> r.n == DigitsValue(p) && r.n >= 0
  {
    StringToNumber(p)
  }

  /** The time the card shows for an entity state: the wall clock `now` for the empty
      state, otherwise `now` with its hour and then its minute set from the first two
      pieces; a missing minute piece is `Number(undefined)`, NaN. */
  function TimeOfState(state: string, now: LocalTime): (t: LocalTime)
    requires ValidClock(now) && StateModelled(state)
    ensures state == "" ==> t == now
    ensures t.At? ==> ValidClock(t)
  {
    if state == "" then now
    else
      var parts := Split(state);
      var h := PartNumber(parts[0]);
      var m := if |parts| >= 2 then PartNumber(parts[1]) else NaN;
      SetMinutes(SetHours(now, h), m)
  }

  // ---------------------------------------------------------------------------
  // Four display characters

  /** `getHours()` (24-hour) or `getHours() % 12 || 12` (12-hour), as text padded to two
      characters; NaN prints as "NaN" and `NaN % 12 || 12` is 12. A valid time's hour is
      exactly two decimal digits. */
  function HourText(t: LocalTime, use24h: bool): (r: string)
    ensures |r| >= 2
    ensures ValidClock(t) ==> |r| == 2 && AllDigits(r)
  {
    match t
    case At(h, _) =>
      var shown := if use24h then h else Hour12(h);
      if shown < 100 then PadTwoDigits(shown); PadStart2(NatText(shown))
      else PadStart2(NatText(shown))
    case InvalidDate => if use24h then "NaN" else "12"
  }

  /** `getMinutes()` padded to two characters; a valid time's minute is exactly two
      decimal digits. */
  function MinuteText(t: LocalTime): (r: string)
    ensures |r| >= 2
    ensures ValidClock(t) ==> |r| == 2 && AllDigits(r)
  {
    match t
    case At(_, m) =>
      if m < 100 then PadTwoDigits(m); PadStart2(NatText(m))
      else PadStart2(NatText(m))
    case InvalidDate => "NaN"
  }

  /** `hours.charAt(0)`, `hours.charAt(1)`, `minutes.charAt(0)`, `minutes.charAt(1)`. */
  function DisplayDigits(t: LocalTime, use24h: bool): (d: seq<char>)
    ensures |d| == 4
  {
    var hh := HourText(t, use24h);
    var mm := MinuteText(t);
    [hh[0], hh[1], mm[0], mm[1]]
  }

  /** The hour shown in 12-hour mode. */
  function Hour12(h: nat): (r: nat)
    ensures 1 <= r <= 12 && r % 12 == h % 12
  {
    if h % 12 == 0 then 12 else h % 12
  }

  // ---------------------------------------------------------------------------
  // Properties

  /** The display of a valid time: four decimal characters that read back as the hour
      (24-hour), as `h % 12 || 12` (12-hour) and as the minute. */
  lemma DisplayReadsBack(t: LocalTime)
    requires ValidClock(t)
    ensures var d := DisplayDigits(t, true);
      AllDigits(d) && DigitsValue(d[..2]) == t.hour && DigitsValue(d[2..]) == t.minute
    ensures var d := DisplayDigits(t, false);
      AllDigits(d) && DigitsValue(d[..2]) == Hour12(t.hour) && DigitsValue(d[2..]) == t.minute
  {
    PadTwoDigits(t.hour);
    PadTwoDigits(Hour12(t.hour));
    PadTwoDigits(t.minute);
    TwoDigitsValue(t.hour);
    TwoDigitsValue(Hour12(t.hour));
    TwoDigitsValue(t.minute);
  }

  lemma TwoDigitsValue(n: nat)
    requires n < 100
    ensures AllDigits([DigitChar(n / 10), DigitChar(n % 10)])
    ensures DigitsValue([DigitChar(n / 10), DigitChar(n % 10)]) == n
  {
    var s := [DigitChar(n / 10), DigitChar(n % 10)];
    assert s[..1] == [DigitChar(n / 10)] && s[..1][..0] == [];
    assert DigitsValue(s[..1]) == n / 10;
    assert DigitsValue(s) == DigitsValue(s[..1]) * 10 + n % 10;
  }

  /** In 12-hour mode the hour reads 01..12, so it starts with '0' or '1'; an hour and the
      same hour twelve later look alike (there is no AM/PM marker). */
  lemma TwelveHourRange(t: LocalTime)
    requires ValidClock(t)
    ensures var d := DisplayDigits(t, false);
      (d[0] == '0' || d[0] == '1') && 1 <= DigitsValue(d[..2]) <= 12
    ensures t.hour < 12 ==> DisplayDigits(t, false) == DisplayDigits(At(t.hour + 12, t.minute), false)
  {
    DisplayReadsBack(t);
    PadTwoDigits(Hour12(t.hour));
  }

  /** An Invalid Date shows "NaNa" in 24-hour mode and "12Na" in 12-hour mode. */
  lemma InvalidDateDigits()
    ensures DisplayDigits(InvalidDate, true) == "NaNa"
    ensures DisplayDigits(InvalidDate, false) == "12Na"
  {
  }

  /** A state `H:M`, optionally followed by more colon-separated pieces, sets the hour and
      then the minute: whole hours of M carry, and the result wraps at midnight. */
  lemma ParsesHoursAndMinutes(parts: seq<string>, now: LocalTime)
    requires ValidClock(now) && |parts| >= 2 && AllNoColon(parts)
    requires AllDigits(parts[0]) && |parts[0]| <= 6 && AllDigits(parts[1]) && |parts[1]| <= 6
    ensures StateModelled(Join(parts))
    ensures var h, m := DigitsValue(parts[0]), DigitsValue(parts[1]);
      TimeOfState(Join(parts), now) == At((h + m / 60) % 24, m % 60)
  {
    SplitJoin(parts);
    var h, m := DigitsValue(parts[0]), DigitsValue(parts[1]);
    assert Join(parts) != "" by {
      assert Join(parts) == parts[0] + ":" + Join(parts[1..]);
    }
    var t := SetHours(now, Finite(h));
    assert t == At(h % 24, now.minute);
    assert TimeOfState(Join(parts), now) == SetMinutes(t, Finite(m));
    var total := ((h % 24) * 60 + m) % 1440;
    var hour, minute := (h + m / 60) % 24, m % 60;
    assert total == hour * 60 + minute by {
      HourMinuteCarry(h, m);
    }
    ClockOfMinutes(hour, minute);
    assert SetMinutes(t, Finite(m)) == At(total / 60, total % 60);
  }

  /** A minute of the day splits back into its hour and minute. */
  lemma ClockOfMinutes(hour: nat, minute: nat)
    requires minute < 60
    ensures (hour * 60 + minute) / 60 == hour && (hour * 60 + minute) % 60 == minute
  {
  }

  lemma HourMinuteCarry(h: nat, m: nat)
    ensures ((h % 24) * 60 + m) % 1440 == ((h + m / 60) % 24) * 60 + m % 60
  {
    var q, r := m / 60, m % 60;
    assert m == q * 60 + r;
    assert (h % 24) * 60 + m == ((h % 24) + q) * 60 + r;
    var a := (h % 24) + q;
    assert (a * 60 + r) % 1440 == (a % 24) * 60 + r by {
      assert a * 60 + r == (a / 24) * 1440 + ((a % 24) * 60 + r);
    }
    assert a % 24 == (h + q) % 24 by {
      assert h == (h / 24) * 24 + h % 24;
      assert h + q == (h / 24) * 24 + a;
    }
  }

  /** A well-formed `HH:MM` or `HH:MM:SS` with H < 24 and M < 60 shows exactly H and M. */
  lemma WellFormedState(parts: seq<string>, now: LocalTime)
    requires ValidClock(now) && (|parts| == 2 || |parts| == 3) && AllNoColon(parts)
    requires AllDigits(parts[0]) && |parts[0]| <= 6 && AllDigits(parts[1]) && |parts[1]| <= 6
    requires DigitsValue(parts[0]) < 24 && DigitsValue(parts[1]) < 60
    ensures StateModelled(Join(parts))
    ensures TimeOfState(Join(parts), now) == At(DigitsValue(parts[0]), DigitsValue(parts[1]))
  {
    ParsesHoursAndMinutes(parts, now);
    InRangeCarry(DigitsValue(parts[0]), DigitsValue(parts[1]));
  }

  /** An hour and minute already in range pass the carry unchanged. */
  lemma InRangeCarry(h: nat, m: nat)
    requires h < 24 && m < 60
    ensures (h + m / 60) % 24 == h && m % 60 == m
  {
    assert m / 60 == 0;
  }

  /** The seconds piece, and anything after it, never changes what is shown. */
  lemma SecondsIgnored(hm: seq<string>, rest: seq<string>, now: LocalTime)
    requires ValidClock(now) && |hm| == 2 && AllNoColon(hm + rest)
    requires AllDigits(hm[0]) && |hm[0]| <= 6 && AllDigits(hm[1]) && |hm[1]| <= 6
    ensures StateModelled(Join(hm)) && StateModelled(Join(hm + rest))
    ensures TimeOfState(Join(hm + rest), now) == TimeOfState(Join(hm), now)
  {
    assert AllNoColon(hm) by {
      assert forall k | 0 <= k < 2 :: hm[k] == (hm + rest)[k];
    }
    ParsesHoursAndMinutes(hm, now);
    ParsesHoursAndMinutes(hm + rest, now);
  }

  /** A non-empty state without a colon has no minute piece and gives an Invalid Date,
      and so does a state whose hour or minute piece holds a non-numeric character. */
  lemma MalformedStates(state: string, now: LocalTime)
    requires ValidClock(now) && StateModelled(state) && state != ""
    ensures |Split(state)| == 1 ==> TimeOfState(state, now) == InvalidDate
    ensures HasNonNumericChar(Split(state)[0]) ==> TimeOfState(state, now) == InvalidDate
    ensures |Split(state)| >= 2 && HasNonNumericChar(Split(state)[1]) ==>
      TimeOfState(state, now) == InvalidDate
  {
  }

  /** "13:05" shows 1305 in 24-hour mode and 0105 in 12-hour mode. */
  lemma OnePastOnePm(now: LocalTime)
    requires ValidClock(now)
    ensures StateModelled("13:05")
    ensures DisplayDigits(TimeOfState("13:05", now), true) == "1305"
    ensures DisplayDigits(TimeOfState("13:05", now), false) == "0105"
  {
    var parts := ["13", "05"];
    assert Join(parts) == "13:05";
    assert DigitsValue("13") == 13 && DigitsValue("05") == 5 by {
      assert "13"[..1] == "1" && "05"[..1] == "0" && "1"[..0] == [] && "0"[..0] == [];
    }
    WellFormedState(parts, now);
    assert parts[0] == "13" && parts[1] == "05";
    var t := TimeOfState(Join(parts), now);
    assert t == At(13, 5);
    assert HourText(t, true) == "13" by {
      PadTwoDigits(13);
    }
    assert HourText(t, false) == "01" by {
      assert Hour12(13) == 1;
      PadTwoDigits(1);
    }
    assert MinuteText(t) == "05" by {
      PadTwoDigits(5);
    }
  }
}
