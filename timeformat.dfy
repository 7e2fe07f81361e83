/**
 * The clock's text format: a millisecond count shown as `HH:MM:SS`, and the
 * edited `h:m:s` text read back into milliseconds.
 */
module TimeFormat {
  import opened Options
  import opened JsText

  const SECOND := 1000
  const MINUTE := SECOND * 60
  const HOUR := MINUTE * 60

  /** Left-pads the decimal form of `num` with zeros to at least two characters; it never truncates. */
  function ZeroPad(num: int): (r: string)
    ensures |r| == if |NumberToString(num)| >= 2 then |NumberToString(num)| else 2
    ensures r[|r| - |NumberToString(num)|..] == NumberToString(num)
  {
    PadStart(NumberToString(num), 2, '0')
  }

  /** The template `${a}:${b}:${c}` that both the display and the edit form use. */
  function Join3(a: string, b: string, c: string): string {
    a + ":" + b + ":" + c
  }

  function Display(hours: int, minutes: int, seconds: int): string {
    Join3(ZeroPad(hours), ZeroPad(minutes), ZeroPad(seconds))
  }

  /**
   * The display of `ms` in closed form: whole hours, then the whole minutes and
   * whole seconds of what is left; a negative count shows as all zeros.
   */
  function Formatted(ms: int): string {
    if ms < 0 then Display(0, 0, 0)
    else Display(ms / HOUR, ms % HOUR / MINUTE, ms % MINUTE / SECOND)
  }

  /** `formatTime`: peels off hours, then minutes, then seconds, truncating what is below a second. */
  method FormatTime(ms: int) returns (text: string)
    ensures text == Formatted(ms)
  {
    var rest := ms;
    var hours, minutes, seconds := 0, 0, 0;
    if rest >= HOUR {
      hours := rest / HOUR;
      rest := rest % HOUR;
    }
    if rest >= MINUTE {
      minutes := rest / MINUTE;
      rest := rest % MINUTE;
    }
    if rest >= SECOND {
      seconds := rest / SECOND;
    }
    assert hours == if ms < 0 then 0 else ms / HOUR;
    assert minutes == if ms < 0 then 0 else ms % HOUR / MINUTE;
    assert seconds == if ms < 0 then 0 else ms % MINUTE / SECOND by {
      if ms >= 0 { MinutesOfHourRemainder(ms); }
    }
    text := Display(hours, minutes, seconds);
  }

  /**
   * `convertValueToMilliseconds`: splits on ':' and reads the first three
   * fields with `parseInt`, ignoring any further field. `None` stands for the
   * `NaN` JavaScript computes when a field is missing or has no digits.
   */
  function ConvertValueToMilliseconds(value: string): Option<int> {
    var fields := Split(value, ':');
    if |fields| < 3 then None
    else Milliseconds(ParseInt(fields[0]), ParseInt(fields[1]), ParseInt(fields[2]))
  }

  /** The sum of the three fields in milliseconds, where `NaN` in any field makes the sum `NaN`. */
  function Milliseconds(hours: Option<int>, minutes: Option<int>, seconds: Option<int>): Option<int> {
    if hours.Some? && minutes.Some? && seconds.Some? then
      Some(Total(hours.value, minutes.value, seconds.value))
    else None
  }

  function Total(hours: int, minutes: int, seconds: int): int {
    hours * HOUR + minutes * MINUTE + seconds * SECOND
  }

  // ---------------------------------------------------------------------------
  // Arithmetic of the three fields

  lemma MinutesOfHourRemainder(ms: nat)
    ensures ms % HOUR % MINUTE == ms % MINUTE
  {
    var q, r := ms / HOUR, ms % HOUR;
    assert ms == q * HOUR + r;
    assert r == (r / MINUTE) * MINUTE + r % MINUTE;
    assert ms == (q * 60 + r / MINUTE) * MINUTE + r % MINUTE;
    RemainderOfMinutes(ms, q * 60 + r / MINUTE, r % MINUTE);
  }

  lemma RemainderOfMinutes(n: int, q: int, r: int)
    requires 0 <= r < MINUTE && n == q * MINUTE + r
    ensures n % MINUTE == r
  {
  }
}
