// The clock shown in the toolbar of the time-scroll view: the current
// time, rounded to whole milliseconds, is printed as hours, minutes,
// seconds and milliseconds, zero-padded to 2, 2, 2 and 3 digits, as in
// "01:02:03.004"; with no current time a placeholder of dashes is shown.
// The rounding of the time in seconds to milliseconds is floating point
// and is not modelled: the time is given in whole milliseconds.

module TimeFormat {
  import opened Common

  const MsPerHour: int := 3600000
  const MsPerMinute: int := 60000
  const MsPerSecond: int := 1000

  const Placeholder: string := "--:--:--.---"

  /** JavaScript `a % b` for a positive divisor: the remainder takes the sign of `a`. */
  function JsRem(a: int, b: int): (r: int)
    requires b > 0
    ensures a >= 0 ==> r == a % b
    ensures -b < r < b
  {
    if a >= 0 then a % b else -((-a) % b)
  }

  /** `Math.floor(a / b)` for a positive divisor, which is Dafny's division. */
  function FloorDiv(a: int, b: int): (q: int)
    requires b > 0
    ensures q * b <= a < q * b + b
  {
    a / b
  }

  datatype Fields = Fields(hours: int, minutes: int, seconds: int, milliseconds: int)

  /** The milliseconds the four fields stand for. */
  function Total(f: Fields): int
  {
    f.hours * 3600000 + f.minutes * 60000 + f.seconds * 1000 + f.milliseconds
  }

  /** The four numbers `formatTime` computes from the total milliseconds. */
  function ClockFields(totalMs: int): Fields
  {
    Fields(FloorDiv(totalMs, MsPerHour),
           FloorDiv(JsRem(totalMs, MsPerHour), MsPerMinute),
           FloorDiv(JsRem(totalMs, MsPerMinute), MsPerSecond),
           JsRem(totalMs, MsPerSecond))
  }

  /** `n.toString().padStart(width, "0")`. */
  function Padded(n: int, width: nat): string
  {
    PadStart(IntToString(n), width, '0')
  }

  /** The template `h:m:s.ms` of `formatTime`. */
  function Render(f: Fields): string
  {
    Clock(Padded(f.hours, 2), Padded(f.minutes, 2), Padded(f.seconds, 2), Padded(f.milliseconds, 3))
  }

  function Clock(h: string, m: string, s: string, ms: string): string
  {
    Join([h, m, Join([s, ms], ".")], ":")
  }

  /**
   * `formatTime` as written, for a time in whole milliseconds. For a time
   * that is not negative it prints the clock as evidently meant.
   */
  function FormatTimeAsWritten(totalMs: int): (r: string)
    ensures totalMs >= 0 ==> r == FormatTime(totalMs)
  {
    Render(ClockFields(totalMs))
  }

  /**
   * For a time that is not negative, minutes and seconds are below 60 and
   * milliseconds below 1000, and the four fields add up to the time.
   */
  lemma ClockFieldsSpec(totalMs: nat)
    ensures var f := ClockFields(totalMs);
            && 0 <= f.hours && 0 <= f.minutes < 60 && 0 <= f.seconds < 60 && 0 <= f.milliseconds < 1000
            && Total(f) == totalMs
  {
    var h, r1 := totalMs / MsPerHour, totalMs % MsPerHour;
    var m, r2 := r1 / MsPerMinute, r1 % MsPerMinute;
    var s, ms := r2 / MsPerSecond, r2 % MsPerSecond;
    assert totalMs == h * MsPerHour + r1;
    assert r1 == m * MsPerMinute + r2;
    assert r2 == s * MsPerSecond + ms;
    DivModUnique(totalMs, MsPerMinute, h * 60 + m, r2);
    DivModUnique(totalMs, MsPerSecond, h * 3600 + m * 60 + s, ms);
    assert m < 60 by {
      DivBounds(r1, MsPerMinute);
    }
    assert s < 60 by {
      DivBounds(r2, MsPerSecond);
    }
  }

  /**
   * A negative time is printed with a sign on every field, and the fields do
   * not add up to it: -1.5 seconds gives "-1:-1:-2.-500".
   */
  lemma NegativeTimeMisread()
    ensures ClockFields(-1500) == Fields(-1, -1, -2, -500)
    ensures var f := ClockFields(-1500);
            Total(f) != -1500
    ensures FormatTimeAsWritten(-1500) == "-1:-1:-2.-500"
  {
    assert JsRem(-1500, MsPerHour) == -1500;
    assert JsRem(-1500, MsPerMinute) == -1500;
    assert JsRem(-1500, MsPerSecond) == -500;
    assert ClockFields(-1500) == Fields(-1, -1, -2, -500);
    NegativeFieldsRendered();
  }

  /** The text of the fields -1, -1, -2, -500. */
  lemma NegativeFieldsRendered()
    ensures Render(Fields(-1, -1, -2, -500)) == "-1:-1:-2.-500"
  {
    NegativePadded();
    NegativeClock();
  }

  /** `padStart` leaves "-1", "-2" and "-500" alone: they are already wide enough. */
  lemma NegativePadded()
    ensures Padded(-1, 2) == "-1" && Padded(-2, 2) == "-2" && Padded(-500, 3) == "-500"
  {
    assert IntToString(-1) == "-1" by {
      assert NatToString(1) == [DigitChar(1)];
    }
    assert IntToString(-2) == "-2" by {
      assert NatToString(2) == [DigitChar(2)];
    }
    assert IntToString(-500) == "-500" by {
      assert NatToString(5) == "5" by {
        assert NatToString(5) == [DigitChar(5)];
      }
      assert NatToString(50) == "50" by {
        assert NatToString(50) == NatToString(5) + [DigitChar(0)];
      }
      assert NatToString(500) == NatToString(50) + [DigitChar(0)];
    }
  }

  lemma NegativeClock()
    ensures Clock("-1", "-1", "-2", "-500") == "-1:-1:-2.-500"
  {
    var fraction := Join(["-2", "-500"], ".");
    assert fraction == "-2.-500" by {
      assert ["-2", "-500"][1..] == ["-500"];
      assert Join(["-500"], ".") == "-500";
    }
    var parts := ["-1", fraction];
    assert parts[1..] == [fraction];
    assert Join(parts[1..], ":") == fraction;
    var tail := Join(parts, ":");
    assert tail == "-1" + ":" + fraction;
    assert ["-1", "-1", fraction][1..] == parts;
  }

  /** The clock as evidently meant: a leading "-" and the fields of the magnitude. */
  function FormatTime(totalMs: int): string
  {
    if totalMs < 0 then "-" + Render(ClockFields(-totalMs)) else Render(ClockFields(totalMs))
  }

  /** The toolbar label: `formatTime` as written, or dashes when there is no current time. */
  function TimeLabel(currentTimeMs: Option<int>): string
  {
    if currentTimeMs.Some? then FormatTimeAsWritten(currentTimeMs.value) else Placeholder
  }

  // ---------------------------------------------------------------------
  // Reading a clock back
  // ---------------------------------------------------------------------

  /** The number a "h:mm:ss.mmm" clock stands for, with an optional leading "-". */
  function ParseClock(s: string): Option<int>
  {
    if |s| > 0 && s[0] == '-' then
      match ParseUnsigned(s[1..])
      case Some(v) => Some(-v)
      case None => None
    else ParseUnsigned(s)
  }

  /** The number an unsigned "h:mm:ss.mmm" clock stands for. */
  function ParseUnsigned(s: string): Option<int>
  {
    var parts := Split(s, ":");
    if |parts| != 3 then None else ParseFields(parts[0], parts[1], Split(parts[2], "."))
  }

  /** Hours, minutes and the seconds split at ".": all four must be digits. */
  function ParseFields(h: string, m: string, last: seq<string>): Option<int>
  {
    if |last| != 2 || !AllDigits(h) || !AllDigits(m) || !AllDigits(last[0]) || !AllDigits(last[1]) then None
    else Some(Total(Fields(ParseNat(h), ParseNat(m), ParseNat(last[0]), ParseNat(last[1]))))
  }

  lemma {:induction false} ParseNatZeros(z: string, s: string)
    requires forall k :: 0 <= k < |z| ==> z[k] == '0'
    requires AllDigits(s)
    ensures AllDigits(z + s) && ParseNat(z + s) == ParseNat(s)
    decreases |s| + |z|
  {
    if |s| > 0 {
      assert (z + s)[..|z + s| - 1] == z + s[..|s| - 1];
      ParseNatZeros(z, s[..|s| - 1]);
    } else if |z| > 0 {
      assert z + s == z;
      assert z[..|z| - 1] + "" == z[..|z| - 1];
      ParseNatZeros(z[..|z| - 1], s);
    } else {
      assert z + s == s;
    }
  }

  /** A padded number is all digits and reads back as the number. */
  lemma PaddedDigits(n: nat, width: nat)
    ensures AllDigits(Padded(n, width)) && ParseNat(Padded(n, width)) == n
  {
    var s := NatToString(n);
    ParseNatToString(n);
    if |s| < width {
      ParseNatZeros(seq(width - |s|, _ => '0'), s);
    }
  }

  lemma DigitsFree(s: string, c: char)
    requires AllDigits(s) && !IsDigit(c)
    ensures c !in s
  {
    forall k | 0 <= k < |s|
      ensures s[k] != c
    {
      assert IsDigit(s[k]);
    }
  }

  /** A clock made of pieces free of its separators splits back into them. */
  lemma ClockPieces(h: string, m: string, s: string, ms: string)
    requires ':' !in h && ':' !in m && ':' !in s && ':' !in ms && '.' !in s && '.' !in ms
    ensures Split(Clock(h, m, s, ms), ":") == [h, m, Join([s, ms], ".")]
    ensures Split(Join([s, ms], "."), ".") == [s, ms]
  {
    var tail := Join([s, ms], ".");
    assert [s, ms][1..] == [ms];
    assert Join([ms], ".") == ms;
    assert tail == s + "." + ms;
    assert ':' !in tail;
    JoinSingleChar([s, ms], '.');
    JoinSingleChar([h, m, tail], ':');
  }

  /** What `ParseUnsigned` reads from a clock made of four digit strings. */
  lemma ParseClockPieces(h: string, m: string, s: string, ms: string)
    requires AllDigits(h) && AllDigits(m) && AllDigits(s) && AllDigits(ms)
    ensures ParseUnsigned(Clock(h, m, s, ms)) ==
            Some(Total(Fields(ParseNat(h), ParseNat(m), ParseNat(s), ParseNat(ms))))
  {
    DigitsFree(h, ':');
    DigitsFree(m, ':');
    DigitsFree(s, ':');
    DigitsFree(ms, ':');
    DigitsFree(s, '.');
    DigitsFree(ms, '.');
    ClockPieces(h, m, s, ms);
  }

  /** A clock of four digit strings, the first non-empty, does not start with "-". */
  lemma ClockStartsWithDigit(h: string, m: string, s: string, ms: string)
    requires AllDigits(h) && |h| > 0
    ensures |Clock(h, m, s, ms)| > 0 && IsDigit(Clock(h, m, s, ms)[0])
  {
    var tail := Join([s, ms], ".");
    assert [h, m, tail][1..] == [m, tail];
    assert Clock(h, m, s, ms) == h + ":" + Join([m, tail], ":");
  }

  /** The rendered fields of a time that is not negative read back as that time. */
  lemma RenderParses(totalMs: nat)
    ensures var body := Render(ClockFields(totalMs));
            |body| > 0 && IsDigit(body[0]) && ParseUnsigned(body) == Some(totalMs)
  {
    var f := ClockFields(totalMs);
    ClockFieldsSpec(totalMs);
    var h, m, s, ms := Padded(f.hours, 2), Padded(f.minutes, 2), Padded(f.seconds, 2), Padded(f.milliseconds, 3);
    PaddedDigits(f.hours, 2);
    PaddedDigits(f.minutes, 2);
    PaddedDigits(f.seconds, 2);
    PaddedDigits(f.milliseconds, 3);
    ParseClockPieces(h, m, s, ms);
    ClockStartsWithDigit(h, m, s, ms);
  }

  /** A leading "-" negates what the rest reads as. */
  lemma ParseSigned(body: string, v: int)
    requires |body| > 0 && IsDigit(body[0]) && ParseUnsigned(body) == Some(v)
    ensures ParseClock(body) == Some(v) && ParseClock("-" + body) == Some(-v)
  {
    assert ("-" + body)[1..] == body;
  }

  /** The clock reads back as the time it was made from. */
  lemma FormatTimeRoundTrip(totalMs: int)
    ensures ParseClock(FormatTime(totalMs)) == Some(totalMs)
  {
    var magnitude := if totalMs < 0 then -totalMs else totalMs;
    RenderParses(magnitude);
    ParseSigned(Render(ClockFields(magnitude)), magnitude);
  }

  /**
   * With no current time the label is the dashes; the label of a time that
   * is not negative is a clock that reads back as exactly that time.
   */
  lemma TimeLabelSpec(currentTimeMs: Option<int>)
    ensures currentTimeMs.None? ==> TimeLabel(currentTimeMs) == Placeholder
    ensures currentTimeMs.Some? && currentTimeMs.value >= 0 ==>
              ParseClock(TimeLabel(currentTimeMs)) == Some(currentTimeMs.value)
  {
    if currentTimeMs.Some? && currentTimeMs.value >= 0 {
      FormatTimeRoundTrip(currentTimeMs.value);
    }
  }
}
