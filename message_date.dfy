/**
 * MessageDate: the sensor API's .NET-style timestamp "\/Date(<epoch-ms>)\/", read into a
 * whole-second instant, and written back out as RFC 3339 or in the display layout.
 */
module MessageDates {
  import opened Common
  import opened Strings
  import opened Strconv
  import opened GoTime
  import opened TimeParse

  /** The wrapper around the milliseconds, quotes included, as raw JSON bytes. */
  const DatePrefix: string := "\"\\/Date("
  const DateSuffix: string := ")\\/\""

  /** Go's `ms / 1000` on int64: the quotient truncated toward zero, not floored. */
  function MillisToSeconds(ms: int): (s: int)
    ensures -1000 < ms - 1000 * s < 1000
    ensures ms >= 0 ==> 0 <= 1000 * s <= ms
    ensures ms <= 0 ==> ms <= 1000 * s <= 0
  {
    if ms >= 0 then ms / 1000 else -((-ms) / 1000)
  }

  /** What is left for ParseInt once the prefix and then the suffix are trimmed, each if present. */
  function DateText(b: string): (r: string)
    ensures |b| >= |DatePrefix| + |DateSuffix| && HasPrefix(b, DatePrefix) && HasSuffix(b, DateSuffix) ==>
              DatePrefix + r + DateSuffix == b
    ensures !HasPrefix(b, DatePrefix) && !HasSuffix(b, DateSuffix) ==> r == b
    ensures |r| <= |b|
  {
    TrimSuffix(TrimPrefix(b, DatePrefix), DateSuffix)
  }

  /**
   * MessageDate.UnmarshalJSON on a receiver holding `t`: the receiver afterwards, and the
   * error. The trimmed text must be an optional sign and digits within int64; the
   * milliseconds become whole seconds (truncated toward zero); on an error the receiver
   * keeps its value.
   */
  function UnmarshalJSON(t: Time, b: string): (r: (Time, Option<NumError>))
    ensures r.1.None? <==> IsIntText(DateText(b)) && MinInt64 <= IntTextValue(DateText(b)) <= MaxInt64
    ensures r.1.None? ==> r.0 == Unix(MillisToSeconds(IntTextValue(DateText(b))))
    ensures r.1.Some? ==> r.0 == t && r.1.value.num == DateText(b)
  {
    ParseIntCorrect(DateText(b));
    match ParseInt(DateText(b))
    case Err(e) => (t, Some(e))
    case Ok(ms) => (Unix(MillisToSeconds(ms as int)), None)
  }

  /** MessageDate.MarshalJSON: the RFC 3339 form in double quotes; it never fails. */
  function MarshalJSON(t: Time): (r: Result<string, Error>)
    ensures r.Ok?
    ensures |r.value| == |FormatRFC3339(t)| + 2 && r.value[0] == '"' && r.value[|r.value| - 1] == '"'
    ensures r.value[1..|r.value| - 1] == FormatRFC3339(t)
  {
    Ok("\"" + FormatRFC3339(t) + "\"")
  }

  /** MessageDate.String: the "Mon, 02 Jan 2006 15:04:05" layout. */
  function String(t: Time): (r: string)
    ensures |r| >= 25 && r[..3] == ShortDayNames[WeekdayOf(t)] && r[3..5] == ", "
    ensures FourDigitYear(t) ==> |r| == 25 && ParseDayLayout(r) == Some(t.sec)
  {
    var r := FormatDayLayout(t);
    DayLayoutShape(t);
    if FourDigitYear(t) then DayLayoutRoundTrip(t); r else r
  }

  // ---------------------------------------------------------------------------------------
  // Properties

  /** A text with no quote at either end is left alone by both trims. */
  lemma DateTextOfPlain(x: string)
    requires |x| > 0 && x[0] != '"' && x[|x| - 1] != '"'
    ensures DateText(DatePrefix + x + DateSuffix) == x
    ensures DateText(DatePrefix + x) == x
    ensures DateText(x + DateSuffix) == x
    ensures DateText(x) == x
  {
    var w := DatePrefix + x + DateSuffix;
    assert HasPrefix(w, DatePrefix) && w[|DatePrefix|..] == x + DateSuffix;
    assert HasSuffix(x + DateSuffix, DateSuffix) && (x + DateSuffix)[..|x|] == x;
    assert HasPrefix(DatePrefix + x, DatePrefix) && (DatePrefix + x)[|DatePrefix|..] == x;
    NotSuffixAt(x, DateSuffix, 1);
    NotPrefixAt(x + DateSuffix, DatePrefix, 0);
    NotPrefixAt(x, DatePrefix, 0);
  }

  /**
   * The wrapped form, the prefix or the suffix alone, and the bare decimal all parse to the
   * same instant, the milliseconds truncated toward zero: each trim applies only when its
   * text is present.
   */
  lemma WrapperIsOptional(t: Time, ms: int64)
    ensures var expected := (Unix(MillisToSeconds(ms as int)), None);
            && UnmarshalJSON(t, DatePrefix + Decimal(ms as int) + DateSuffix) == expected
            && UnmarshalJSON(t, DatePrefix + Decimal(ms as int)) == expected
            && UnmarshalJSON(t, Decimal(ms as int) + DateSuffix) == expected
            && UnmarshalJSON(t, Decimal(ms as int)) == expected
  {
    var x := Decimal(ms as int);
    DecimalRoundTrip(ms);
    ParseIntCorrect(x);
    PaddedDecimalShape(ms as int, 1);
    DateTextOfPlain(x);
  }

  /** The documented example: 1730328597000 ms is the Unix second 1730328597. */
  lemma ParsesDocumentedExample(t: Time)
    ensures UnmarshalJSON(t, DatePrefix + "1730328597000" + DateSuffix) == (Unix(1730328597), None)
  {
    var x := "1730328597000";
    DocumentedDigits();
    assert Unsigned(x) == x;
    assert IsIntText(x) && IntTextValue(x) == 1730328597000;
    assert MillisToSeconds(1730328597000) == 1730328597;
    DateTextOfPlain(x);
    assert DateText(DatePrefix + x + DateSuffix) == x;
  }

  lemma DocumentedDigits()
    ensures AllDigits("1730328597000") && DigitsValue("1730328597000") == 1730328597000
  {
    var s1 := "1";
    var s2 := s1 + ['7'];
    DigitsValueSnoc(s1, '7');
    var s3 := s2 + ['3'];
    DigitsValueSnoc(s2, '3');
    var s4 := s3 + ['0'];
    DigitsValueSnoc(s3, '0');
    var s5 := s4 + ['3'];
    DigitsValueSnoc(s4, '3');
    var s6 := s5 + ['2'];
    DigitsValueSnoc(s5, '2');
    var s7 := s6 + ['8'];
    DigitsValueSnoc(s6, '8');
    var s8 := s7 + ['5'];
    DigitsValueSnoc(s7, '5');
    var s9 := s8 + ['9'];
    DigitsValueSnoc(s8, '9');
    var s10 := s9 + ['7'];
    DigitsValueSnoc(s9, '7');
    var s11 := s10 + ['0'];
    DigitsValueSnoc(s10, '0');
    var s12 := s11 + ['0'];
    DigitsValueSnoc(s11, '0');
    var s13 := s12 + ['0'];
    DigitsValueSnoc(s12, '0');
    assert s13 == "1730328597000";
  }

  /** Negative milliseconds round toward zero: -1500 ms is second -1, where flooring gives -2. */
  lemma NegativeMillisTruncate(t: Time)
    ensures UnmarshalJSON(t, "-1500") == (Unix(-1), None)
    ensures Floor1000(-1500) == -2
  {
    var s1 := "1";
    var s2 := s1 + ['5'];
    DigitsValueSnoc(s1, '5');
    var s3 := s2 + ['0'];
    DigitsValueSnoc(s2, '0');
    var s4 := s3 + ['0'];
    DigitsValueSnoc(s3, '0');
    assert s4 == "1500";
    assert Unsigned("-1500") == "1500";
    assert IsIntText("-1500") && IntTextValue("-1500") == -1500;
    assert DateText("-1500") == "-1500" by {
      NotPrefixAt("-1500", DatePrefix, 0);
      NotSuffixAt("-1500", DateSuffix, 1);
    }
  }

  /** Floored division by 1000, the rounding Go's `/` does not do. */
  function Floor1000(ms: int): (s: int)
    ensures 1000 * s <= ms < 1000 * s + 1000
  {
    ms / 1000
  }

  /**
   * Re-parsing MarshalJSON's output (between its quotes) as RFC 3339 gives the Unix second
   * the instant holds, for every instant with a four-digit year.
   */
  lemma MarshalRoundTrip(t: Time)
    requires FourDigitYear(t)
    ensures var j := MarshalJSON(t).value;
            ParseRFC3339(j[1..|j| - 1]) == Some(t.sec)
  {
    RFC3339RoundTrip(t);
  }

  /**
   * For a timestamp UnmarshalJSON accepts, MarshalJSON writes the stored instant as an
   * RFC 3339 text that parses back to the input milliseconds truncated to whole seconds.
   */
  lemma UnmarshalThenMarshal(t: Time, b: string)
    requires UnmarshalJSON(t, b).1.None? && FourDigitYear(UnmarshalJSON(t, b).0)
    ensures var j := MarshalJSON(UnmarshalJSON(t, b).0).value;
            ParseRFC3339(j[1..|j| - 1]) == Some(MillisToSeconds(IntTextValue(DateText(b))))
  {
    MarshalRoundTrip(UnmarshalJSON(t, b).0);
  }

  /**
   * UnmarshalJSON refuses MarshalJSON's output and keeps the receiver: neither trim applies
   * and the text begins with a quote, so the two are not inverses.
   */
  lemma UnmarshalRejectsMarshal(receiver: Time, t: Time)
    ensures UnmarshalJSON(receiver, MarshalJSON(t).value).1.Some?
    ensures UnmarshalJSON(receiver, MarshalJSON(t).value).0 == receiver
  {
    var j := MarshalJSON(t).value;
    var f := FormatRFC3339(t);
    var y := YearText(DateOf(t).year);
    PaddedDecimalShape(DateOf(t).year, 4);
    assert f[0] == y[0];
    assert j[1] == f[0];
    NotPrefixAt(j, DatePrefix, 1);
    assert f[|f| - 1] == 'Z';
    assert j[|j| - 2] == 'Z';
    NotSuffixAt(j, DateSuffix, 2);
    assert DateText(j) == j;
    assert j[0] == '"';
  }
}
