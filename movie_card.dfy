/**
 * The running time shown on a movie card: whole hours and the minutes left over, as
 * "2h 15m", or only the minutes when there is less than an hour.
 */
module MovieCard {
  import opened Text

  const MinutesPerHour: int := 60

  /** `Math.floor(minutes / 60)`: Dafny's division by a positive divisor already rounds down. */
  function Hours(minutes: int): (h: int)
    ensures h * MinutesPerHour <= minutes < h * MinutesPerHour + MinutesPerHour
  {
    minutes / MinutesPerHour
  }

  /** `minutes % 60` in JavaScript: the remainder takes the sign of the dividend. */
  function JsRemainder(minutes: int): (r: int)
    ensures minutes >= 0 ==> 0 <= r < MinutesPerHour
    ensures minutes < 0 ==> -MinutesPerHour < r <= 0
    ensures (minutes - r) % MinutesPerHour == 0
  {
    if minutes >= 0 then minutes % MinutesPerHour else -((-minutes) % MinutesPerHour)
  }

  /** `formatDuration`: "Hh Mm" when there is at least one whole hour, else "Mm". */
  function FormatDuration(minutes: int): (s: string)
    ensures |s| >= 2 && s[|s| - 1] == 'm'
  {
    var hours := Hours(minutes);
    var remaining := JsRemainder(minutes);
    if hours > 0 then IntToString(hours) + "h " + IntToString(remaining) + "m"
    else IntToString(remaining) + "m"
  }

  /** For a running time that is not negative, hours and minutes recompose it, and the minutes are below 60. */
  lemma DurationSplits(minutes: int)
    requires minutes >= 0
    ensures Hours(minutes) >= 0
    ensures Hours(minutes) * MinutesPerHour + JsRemainder(minutes) == minutes
    ensures 0 <= JsRemainder(minutes) < MinutesPerHour
  {
  }

  /** From 60 minutes on, the text is the hours, "h ", the minutes left over and "m". */
  lemma HoursShape(minutes: int)
    requires minutes >= MinutesPerHour
    ensures FormatDuration(minutes) ==
      NatToString(minutes / MinutesPerHour) + ("h " + NatToString(minutes % MinutesPerHour) + "m")
  {
    var h := Hours(minutes);
    assert h == minutes / MinutesPerHour && h > 0;
    assert JsRemainder(minutes) == minutes % MinutesPerHour;
    assert IntToString(h) == NatToString(h);
    assert IntToString(JsRemainder(minutes)) == NatToString(minutes % MinutesPerHour);
  }

  /** Below an hour, the text is the minutes and "m". */
  lemma MinutesShape(minutes: int)
    requires 0 <= minutes < MinutesPerHour
    ensures FormatDuration(minutes) == NatToString(minutes) + "m"
  {
    assert Hours(minutes) == 0;
    assert JsRemainder(minutes) == minutes;
  }

  /** A negative running time shows only its signed remainder, whatever its hours. */
  lemma NegativeShape(minutes: int)
    requires minutes < 0
    ensures FormatDuration(minutes) == IntToString(JsRemainder(minutes)) + "m"
  {
    assert Hours(minutes) < 0;
  }

  /** In two spellings of one string, a run of digits ends no later than a non-digit of the other. */
  lemma DigitsEndFirst(x: string, u: string, y: string, v: string)
    requires forall i :: 0 <= i < |x| ==> IsDigit(x[i])
    requires v != [] && !IsDigit(v[0])
    requires x + u == y + v
    ensures |x| <= |y|
  {
    assert (y + v)[|y|] == v[0];
  }

  /** Decimal digits followed by a non-digit determine the number and what follows. */
  lemma DigitsPrefix(a: nat, b: nat, u: string, v: string)
    requires u != [] && v != [] && !IsDigit(u[0]) && !IsDigit(v[0])
    requires NatToString(a) + u == NatToString(b) + v
    ensures a == b && u == v
  {
    var x := NatToString(a);
    var y := NatToString(b);
    DigitsEndFirst(x, u, y, v);
    DigitsEndFirst(y, v, x, u);
    assert x == (x + u)[..|x|] && y == (y + v)[..|y|];
    NatToStringInjective(a, b);
    assert u == (x + u)[|x|..] && v == (y + v)[|y|..];
  }

  /** Different running times that are not negative are shown differently. */
  lemma FormatDurationInjective(a: int, b: int)
    requires a >= 0 && b >= 0
    requires FormatDuration(a) == FormatDuration(b)
    ensures a == b
  {
    var ha, ra := a / MinutesPerHour, a % MinutesPerHour;
    var hb, rb := b / MinutesPerHour, b % MinutesPerHour;
    if a >= MinutesPerHour && b >= MinutesPerHour {
      HoursShape(a);
      HoursShape(b);
      DigitsPrefix(ha, hb, "h " + NatToString(ra) + "m", "h " + NatToString(rb) + "m");
      assert NatToString(ra) + "m" == ("h " + NatToString(ra) + "m")[2..];
      assert NatToString(rb) + "m" == ("h " + NatToString(rb) + "m")[2..];
      DigitsPrefix(ra, rb, "m", "m");
    } else if a >= MinutesPerHour {
      HoursShape(a);
      MinutesShape(b);
      DigitsPrefix(ha, b, "h " + NatToString(ra) + "m", "m");
      assert false;
    } else if b >= MinutesPerHour {
      HoursShape(b);
      MinutesShape(a);
      DigitsPrefix(hb, a, "h " + NatToString(rb) + "m", "m");
      assert false;
    } else {
      MinutesShape(a);
      MinutesShape(b);
      DigitsPrefix(a, b, "m", "m");
    }
  }
}
