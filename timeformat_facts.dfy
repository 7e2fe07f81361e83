/**
 * What the clock's text format guarantees: the shape of the display, how the
 * edited text is read, and the round trips between the two.
 */
module TimeFormatFacts {
  import opened Options
  import opened JsText
  import opened TimeFormat

  // ---------------------------------------------------------------------------
  // Arithmetic of the three fields

  /** The three fields put back together are `ms` without its part below a second. */
  lemma FieldsRecombine(ms: nat)
    ensures Total(ms / HOUR, ms % HOUR / MINUTE, ms % MINUTE / SECOND) == ms - ms % SECOND
  {
    MinutesOfHourRemainder(ms);
    var r := ms % HOUR;
    assert ms == (ms / HOUR) * HOUR + r;
    assert r == (r / MINUTE) * MINUTE + r % MINUTE;
    var t := r % MINUTE;
    assert t == (t / SECOND) * SECOND + t % SECOND;
    assert ms % SECOND == t % SECOND by {
      assert ms == ((ms / HOUR) * 3600 + (r / MINUTE) * 60 + t / SECOND) * SECOND + t % SECOND;
    }
  }

  /** Canonical fields read off a millisecond count are the fields it was built from. */
  lemma FieldsOfCanonical(h: nat, m: nat, s: nat, sub: nat)
    requires m < 60 && s < 60 && sub < SECOND
    ensures var ms := Total(h, m, s) + sub;
      ms / HOUR == h && ms % HOUR / MINUTE == m && ms % MINUTE / SECOND == s
  {
    var ms := Total(h, m, s) + sub;
    var r := m * MINUTE + s * SECOND + sub;
    assert 0 <= r < HOUR;
    assert ms / HOUR == h && ms % HOUR == r;
    var t := s * SECOND + sub;
    assert 0 <= t < MINUTE;
    assert r / MINUTE == m && r % MINUTE == t;
    MinutesOfHourRemainder(ms);
    assert t / SECOND == s;
  }

  // ---------------------------------------------------------------------------
  // zeroPad

  /** A padded non-negative number is a digit string with that value; below 100 it is exactly two characters. */
  lemma ZeroPadDigits(n: nat)
    ensures AllDigits(ZeroPad(n)) && ZeroPad(n) != []
    ensures DigitsValue(ZeroPad(n)) == n
    ensures n < 100 <==> |ZeroPad(n)| == 2
  {
    var d := Decimal(n);
    DecimalValue(n);
    DecimalShape(n);
    assert NumberToString(n) == d;
    if |d| < 2 {
      assert ZeroPad(n) == Repeat('0', 1) + d;
      LeadingZerosValue(1, d);
    } else {
      assert ZeroPad(n) == d;
    }
  }

  lemma ZeroPadZero()
    ensures ZeroPad(0) == "00"
  {
    assert Decimal(0) == "0";
    assert NumberToString(0) == "0";
    assert Repeat('0', 1) + "0" == "00";
  }

  /** Padding is a minimum width: a hundred hours still shows all three digits. */
  lemma ZeroPadHundred()
    ensures ZeroPad(100) == "100"
  {
    assert Decimal(1) == "1";
    assert Decimal(10) == "10";
    assert Decimal(100) == "100";
    assert NumberToString(100) == "100";
  }

  lemma ZeroPadNoColon(n: int)
    ensures ':' !in ZeroPad(n)
  {
    var d := Decimal(if n < 0 then -n else n);
    var r := ZeroPad(n);
    forall i | 0 <= i < |r| ensures r[i] != ':' {
      var k := |r| - |NumberToString(n)|;
      if i < k {
        assert r[i] == '0';
      } else if n < 0 {
        assert r[i] == NumberToString(n)[i - k];
        assert NumberToString(n) == "-" + d;
        if i - k > 0 { assert NumberToString(n)[i - k] == d[i - k - 1]; }
      } else {
        assert r[i] == d[i - k];
      }
    }
  }

  // ---------------------------------------------------------------------------
  // Formatting

  /** Any count below one second, negative counts included, shows as all zeros. */
  lemma BelowOneSecond(ms: int)
    requires ms < SECOND
    ensures Formatted(ms) == "00:00:00"
  {
    assert Formatted(ms) == Display(0, 0, 0) by {
      if ms >= 0 {
        assert ms / HOUR == 0 && ms % HOUR / MINUTE == 0 && ms % MINUTE / SECOND == 0;
      }
    }
    assert Display(0, 0, 0) == "00:00:00" by {
      ZeroPadZero();
    }
  }

  lemma FormatOneAndAHalfSeconds()
    ensures Formatted(1500) == "00:00:01"
  {
    FormattedOfCanonical(0, 0, 1, 500);
    DisplayOneSecond();
  }

  lemma DisplayOneSecond()
    ensures Display(0, 0, 1) == "00:00:01"
  {
    ZeroPadZero();
    ZeroPadOne();
  }

  lemma FormatHundredHours()
    ensures Formatted(100 * HOUR) == "100:00:00"
  {
    FormattedOfCanonical(100, 0, 0, 0);
    DisplayHundredHours();
  }

  lemma DisplayHundredHours()
    ensures Display(100, 0, 0) == "100:00:00"
  {
    ZeroPadZero();
    ZeroPadHundred();
  }

  /** Canonical fields, with any part below a second, are shown as they are. */
  lemma FormattedOfCanonical(h: nat, m: nat, s: nat, sub: nat)
    requires m < 60 && s < 60 && sub < SECOND
    ensures Formatted(Total(h, m, s) + sub) == Display(h, m, s)
  {
    var ms := Total(h, m, s) + sub;
    FieldsOfCanonical(h, m, s, sub);
    FormattedNonNegative(ms);
  }

  lemma FormattedNonNegative(ms: nat)
    ensures Formatted(ms) == Display(ms / HOUR, ms % HOUR / MINUTE, ms % MINUTE / SECOND)
  {
  }

  /** Every field of the display is at least two characters wide. */
  lemma FormattedShape(ms: int)
    ensures var fields := Split(Formatted(ms), ':');
      |fields| == 3 && (forall i :: 0 <= i < 3 ==> |fields[i]| >= 2)
      && Join3(fields[0], fields[1], fields[2]) == Formatted(ms)
  {
    var (h, m, s) := if ms < 0 then (0, 0, 0) else (ms / HOUR, ms % HOUR / MINUTE, ms % MINUTE / SECOND);
    SplitDisplay(h, m, s);
  }

  lemma SplitDisplay(h: int, m: int, s: int)
    ensures Split(Display(h, m, s), ':') == [ZeroPad(h), ZeroPad(m), ZeroPad(s)]
  {
    ZeroPadNoColon(h);
    ZeroPadNoColon(m);
    ZeroPadNoColon(s);
    var parts := [ZeroPad(h), ZeroPad(m), ZeroPad(s)];
    assert JoinWith(parts, ':') == Display(h, m, s) by {
      JoinThree(ZeroPad(h), ZeroPad(m), ZeroPad(s));
    }
    SplitJoin(parts, ':');
  }

  // ---------------------------------------------------------------------------
  // Parsing

  /** Three digit fields read as hours, minutes and seconds, with no range check on any of them. */
  lemma ConvertDigitFields(a: string, b: string, c: string)
    requires a != [] && b != [] && c != []
    requires AllDigits(a) && AllDigits(b) && AllDigits(c)
    ensures ConvertValueToMilliseconds(Join3(a, b, c)) == Some(Total(DigitsValue(a), DigitsValue(b), DigitsValue(c)))
  {
    DigitsNoColon(a);
    DigitsNoColon(b);
    DigitsNoColon(c);
    SplitDisplayFree(a, b, c);
    ConvertThreeFields(Join3(a, b, c), a, b, c);
    ParseIntDigits(a);
    ParseIntDigits(b);
    ParseIntDigits(c);
  }

  /** Only the first three fields of the split are read. */
  lemma ConvertThreeFields(value: string, a: string, b: string, c: string)
    requires |Split(value, ':')| >= 3 && Split(value, ':')[..3] == [a, b, c]
    ensures ConvertValueToMilliseconds(value) == Milliseconds(ParseInt(a), ParseInt(b), ParseInt(c))
  {
    var fields := Split(value, ':');
    assert fields[0] == a && fields[1] == b && fields[2] == c by {
      assert fields[..3][0] == fields[0] && fields[..3][1] == fields[1] && fields[..3][2] == fields[2];
    }
  }

  lemma DigitsNoColon(s: string)
    requires AllDigits(s)
    ensures ':' !in s
  {
    forall i | 0 <= i < |s| ensures s[i] != ':' {
      assert IsDigit(s[i]);
    }
  }

  /** Fields after the third are ignored: the destructuring at index.js:170 binds only three. */
  lemma ExtraFieldsIgnored(a: string, b: string, c: string, more: string)
    requires ':' !in a && ':' !in b && ':' !in c
    ensures ConvertValueToMilliseconds(Join3(a, b, c) + ":" + more)
            == ConvertValueToMilliseconds(Join3(a, b, c))
  {
    SplitWithExtra(a, b, c, more);
    SplitDisplayFree(a, b, c);
    ConvertThreeFields(Join3(a, b, c) + ":" + more, a, b, c);
    ConvertThreeFields(Join3(a, b, c), a, b, c);
  }

  lemma SplitWithExtra(a: string, b: string, c: string, more: string)
    requires ':' !in a && ':' !in b && ':' !in c
    ensures Split(Join3(a, b, c) + ":" + more, ':') == [a, b, c] + Split(more, ':')
  {
    assert Join3(a, b, c) + ":" + more == a + [':'] + (b + [':'] + (c + [':'] + more));
    SplitAtSeparator(a, ':', b + [':'] + (c + [':'] + more));
    SplitAtSeparator(b, ':', c + [':'] + more);
    SplitAtSeparator(c, ':', more);
  }

  /** With fewer than two separators there are fewer than three fields, and the result is `NaN`. */
  lemma MissingFieldIsNaN(value: string)
    requires multiset(value)[':'] < 2
    ensures ConvertValueToMilliseconds(value) == None
  {
    SplitCount(value, ':');
  }

  /** A field without digits makes the whole result `NaN`. */
  lemma NonNumericHours()
    ensures ConvertValueToMilliseconds("abc:00:00") == None
  {
    var v := "abc:00:00";
    assert Split(v, ':') == ["abc", "00", "00"] by {
      assert v == Join3("abc", "00", "00");
      SplitDisplayFree("abc", "00", "00");
    }
    assert ParseInt("abc") == None by {
      assert !IsStrWhiteSpace('a');
      TrimStartNoWhiteSpace("abc");
      assert DigitPrefix("abc") == "";
    }
    ConvertThreeFields(v, "abc", "00", "00");
  }

  lemma JoinThree(a: string, b: string, c: string)
    ensures JoinWith([a, b, c], ':') == Join3(a, b, c)
  {
    assert [a, b, c][1..] == [b, c];
    assert [b, c][1..] == [c];
    assert JoinWith([c], ':') == c;
    assert JoinWith([b, c], ':') == b + [':'] + c;
  }

  lemma SplitDisplayFree(a: string, b: string, c: string)
    requires ':' !in a && ':' !in b && ':' !in c
    ensures Split(Join3(a, b, c), ':') == [a, b, c]
  {
    var parts := [a, b, c];
    JoinThree(a, b, c);
    SplitJoin(parts, ':');
  }

  // ---------------------------------------------------------------------------
  // Round trips

  /**
   * Reading back the display gives the count truncated to whole seconds (zero
   * for a negative count): this is what an edit that changes nothing stores.
   */
  lemma ParseFormatted(ms: int)
    ensures ConvertValueToMilliseconds(Formatted(ms)) == Some(if ms < 0 then 0 else ms - ms % SECOND)
  {
    if ms < 0 {
      ParseFormattedNegative(ms);
    } else {
      ParseFormattedNonNegative(ms);
    }
  }

  lemma ParseFormattedNegative(ms: int)
    requires ms < 0
    ensures ConvertValueToMilliseconds(Formatted(ms)) == Some(0)
  {
    ParseDisplay(0, 0, 0);
  }

  lemma ParseFormattedNonNegative(ms: nat)
    ensures ConvertValueToMilliseconds(Formatted(ms)) == Some(ms - ms % SECOND)
  {
    ParseFormattedFields(ms);
    ParseDisplayOfFields(ms);
    FieldsRecombineSome(ms);
  }

  // One step of ParseFormattedNonNegative, kept separate so that each proof stays small for the solver.
  lemma ParseDisplayOfFields(ms: nat)
    ensures ConvertValueToMilliseconds(Display(ms / HOUR, ms % HOUR / MINUTE, ms % MINUTE / SECOND))
            == Some(Total(ms / HOUR, ms % HOUR / MINUTE, ms % MINUTE / SECOND))
  {
    ParseDisplay(ms / HOUR, ms % HOUR / MINUTE, ms % MINUTE / SECOND);
  }

  // One step of ParseFormattedNonNegative, kept separate so that each proof stays small for the solver.
  lemma ParseFormattedFields(ms: nat)
    ensures ConvertValueToMilliseconds(Formatted(ms))
            == ConvertValueToMilliseconds(Display(ms / HOUR, ms % HOUR / MINUTE, ms % MINUTE / SECOND))
  {
    FormattedNonNegative(ms);
  }

  // One step of ParseFormattedNonNegative, kept separate so that each proof stays small for the solver.
  lemma FieldsRecombineSome(ms: nat)
    ensures Some(Total(ms / HOUR, ms % HOUR / MINUTE, ms % MINUTE / SECOND)) == Some(ms - ms % SECOND)
  {
    FieldsRecombine(ms);
  }

  /** The display of non-negative fields reads back as their total. */
  lemma ParseDisplay(h: nat, m: nat, s: nat)
    ensures ConvertValueToMilliseconds(Display(h, m, s)) == Some(Total(h, m, s))
  {
    ZeroPadDigits(h);
    ZeroPadDigits(m);
    ZeroPadDigits(s);
    ConvertDigitFields(ZeroPad(h), ZeroPad(m), ZeroPad(s));
  }

  /** A whole number of seconds survives formatting and parsing exactly. */
  lemma WholeSecondsRoundTrip(ms: nat)
    requires ms % SECOND == 0
    ensures ConvertValueToMilliseconds(Formatted(ms)) == Some(ms)
  {
    ParseFormatted(ms);
  }

  /**
   * Canonical text (zero-padded fields, minutes and seconds below 60) parses
   * to a count whose display is that same text.
   */
  lemma CanonicalTextRoundTrip(h: nat, m: nat, s: nat)
    requires m < 60 && s < 60
    ensures ConvertValueToMilliseconds(Display(h, m, s)) == Some(Total(h, m, s))
    ensures Formatted(Total(h, m, s)) == Display(h, m, s)
  {
    ParseDisplay(h, m, s);
    FormattedOfCanonical(h, m, s, 0);
  }

  /** Out-of-range fields are accepted, not clamped: ninety minutes shows again as an hour and a half. */
  lemma NinetyMinutes()
    ensures ConvertValueToMilliseconds("00:90:00") == Some(5400000)
    ensures Formatted(5400000) == "01:30:00"
  {
    ParseNinetyMinutes();
    FormattedOfCanonical(1, 30, 0, 0);
    DisplayHourAndHalf();
  }

  // The parsing half of NinetyMinutes, kept separate so that each proof stays small for the solver.
  lemma ParseNinetyMinutes()
    ensures ConvertValueToMilliseconds("00:90:00") == Some(Total(0, 90, 0))
  {
    assert "00:90:00" == Join3("00", "90", "00");
    DigitsZeroZero();
    DigitsNinety();
    ConvertDigitFields("00", "90", "00");
  }

  /** The text the editor produces for five seconds. */
  lemma FiveSeconds()
    ensures ConvertValueToMilliseconds("00:00:05") == Some(5000)
  {
    ParseFiveSeconds();
  }

  // The parsing half of FiveSeconds, kept separate so that each proof stays small for the solver.
  lemma ParseFiveSeconds()
    ensures ConvertValueToMilliseconds("00:00:05") == Some(Total(0, 0, 5))
  {
    assert "00:00:05" == Join3("00", "00", "05");
    DigitsZeroZero();
    DigitsFive();
    ConvertDigitFields("00", "00", "05");
  }

  lemma DigitsFive()
    ensures AllDigits("05") && DigitsValue("05") == 5
  {
    assert "05"[..1] == "0";
  }

  lemma DigitsZeroZero()
    ensures AllDigits("00") && DigitsValue("00") == 0
  {
    assert "00"[..1] == "0";
  }

  lemma DigitsNinety()
    ensures AllDigits("90") && DigitsValue("90") == 90
  {
    assert "90"[..1] == "9";
  }

  lemma DisplayHourAndHalf()
    ensures Display(1, 30, 0) == "01:30:00"
  {
    DisplayHourAndHalfFields();
  }

  // The padding step of DisplayHourAndHalf, kept separate so that each proof stays small for the solver.
  lemma DisplayHourAndHalfFields()
    ensures Display(1, 30, 0) == Join3("01", "30", "00")
  {
    ZeroPadZero();
    ZeroPadOne();
    ZeroPadThirty();
    DisplayIs(1, 30, 0, "01", "30", "00");
  }

  // Rewrites a display with known padded fields; it exists only to keep the literal-display proofs small for the solver.
  lemma DisplayIs(h: int, m: int, s: int, a: string, b: string, c: string)
    requires ZeroPad(h) == a && ZeroPad(m) == b && ZeroPad(s) == c
    ensures Display(h, m, s) == Join3(a, b, c)
  {
  }

  lemma ZeroPadOne()
    ensures ZeroPad(1) == "01"
  {
    assert NumberToString(1) == "1";
    assert Repeat('0', 1) + "1" == "01";
  }

  lemma ZeroPadThirty()
    ensures ZeroPad(30) == "30"
  {
    assert Decimal(3) == "3";
    assert Decimal(30) == "30";
  }
}
