/**
 * The ISO 8601 time-zone designator parser (macos/Thoughts/Extensions/TimeZone.swift).
 *
 * A string ending in `Z` is UTC (section 4.2.4 of ISO 8601:2004). Otherwise
 * the end-anchored pattern `T[\d:.,]+([\+±−-])(\d\d):?(\d\d)?$` is matched,
 * and the offset designators `±hh`, `±hhmm` and `±hh:mm` of section 4.2.5.1
 * give `hh * 3600 + mm * 60` seconds, negated for hyphen-minus and for U+2212
 * MINUS SIGN; U+00B1 PLUS-MINUS SIGN is accepted for a zero offset only.
 *
 * The pattern is written out twice: `Matches` says when it matches at given
 * positions, as the regular expression would, and `Parse` scans the string
 * from its end. `ParseSound` and `ParseComplete` show that the two agree.
 * The result is the number of seconds handed to `TimeZone(secondsFromGMT:)`.
 */
module TimeZones {
  import opened Wrappers

  const PlusMinus: char := '±'
  const MinusSign: char := '−'

  predicate IsDigit(c: char)
  {
    '0' <= c <= '9'
  }

  /** `[\d:.,]`, the characters of the time part. */
  predicate InTimeClass(c: char)
  {
    IsDigit(c) || c == ':' || c == '.' || c == ','
  }

  /** `[\+±−-]`. */
  predicate IsSign(c: char)
  {
    c == '+' || c == PlusMinus || c == MinusSign || c == '-'
  }

  /** The characters that may follow the sign. */
  predicate InOffsetClass(c: char)
  {
    IsDigit(c) || c == ':'
  }

  function DigitValue(c: char): (v: nat)
    requires IsDigit(c)
    ensures v <= 9
  {
    (c as int - '0' as int) as nat
  }

  /** `Int(_:)` on a two-digit capture. */
  function TwoDigits(a: char, b: char): (v: nat)
    requires IsDigit(a) && IsDigit(b)
    ensures v <= 99
  {
    DigitValue(a) * 10 + DigitValue(b)
  }

  /** The captures after the sign: the hours, and the minutes when present. */
  datatype Fields = Fields(hours: nat, minutes: Option<nat>)

  /** `(\d\d):?(\d\d)?$` on what follows the sign. */
  function OffsetFields(tail: string): (r: Option<Fields>)
    ensures r.Some? ==> 2 <= |tail| <= 5 && forall i :: 0 <= i < |tail| ==> InOffsetClass(tail[i])
    ensures r.Some? ==> r.value.hours <= 99 && (r.value.minutes.Some? ==> r.value.minutes.value <= 99)
  {
    if |tail| == 2 && IsDigit(tail[0]) && IsDigit(tail[1]) then
      Some(Fields(TwoDigits(tail[0], tail[1]), None))
    else if |tail| == 3 && IsDigit(tail[0]) && IsDigit(tail[1]) && tail[2] == ':' then
      Some(Fields(TwoDigits(tail[0], tail[1]), None))
    else if |tail| == 4 && IsDigit(tail[0]) && IsDigit(tail[1]) && IsDigit(tail[2]) && IsDigit(tail[3]) then
      Some(Fields(TwoDigits(tail[0], tail[1]), Some(TwoDigits(tail[2], tail[3]))))
    else if |tail| == 5 && IsDigit(tail[0]) && IsDigit(tail[1]) && tail[2] == ':' && IsDigit(tail[3]) && IsDigit(tail[4]) then
      Some(Fields(TwoDigits(tail[0], tail[1]), Some(TwoDigits(tail[3], tail[4]))))
    else
      None
  }

  /** The pattern matches with its `T` at `t` and its sign at `k`. */
  ghost predicate Matches(s: string, t: int, k: int)
  {
    && 0 <= t && t + 1 < k < |s|
    && s[t] == 'T'
    && (forall i :: t < i < k ==> InTimeClass(s[i]))
    && IsSign(s[k])
    && OffsetFields(s[k + 1..]).Some?
  }

  /** What a match captures: the sign and the fields after it. */
  datatype Designator = Designator(sign: char, fields: Fields)

  /** The last character that cannot follow a sign, or -1. */
  function LastOutsideOffset(s: string): (k: int)
    ensures -1 <= k < |s|
    ensures k >= 0 ==> !InOffsetClass(s[k])
    ensures forall j :: k < j < |s| ==> InOffsetClass(s[j])
  {
    if s == [] then -1
    else if !InOffsetClass(s[|s| - 1]) then |s| - 1
    else LastOutsideOffset(s[..|s| - 1])
  }

  /** Where the run of time-part characters ending just before `k` begins. */
  function RunStart(s: string, k: nat): (j: nat)
    requires k <= |s|
    ensures j <= k
    ensures forall i :: j <= i < k ==> InTimeClass(s[i])
    ensures j == 0 || !InTimeClass(s[j - 1])
  {
    if k == 0 || !InTimeClass(s[k - 1]) then k else RunStart(s, k - 1)
  }

  /** The pattern, found by scanning back from the end of the string. */
  function Parse(s: string): (r: Option<Designator>)
  {
    var k := LastOutsideOffset(s);
    if k < 0 || !IsSign(s[k]) then None
    else match OffsetFields(s[k + 1..]) {
      case None => None
      case Some(fields) =>
        var j := RunStart(s, k);
        if j == k || j == 0 || s[j - 1] != 'T' then None
        else Some(Designator(s[k], fields))
    }
  }

  predicate EndsWithZ(s: string)
  {
    |s| > 0 && s[|s| - 1] == 'Z'
  }

  /** `hours * 3600`, plus `minutes * 60` when the minutes were captured. */
  function Magnitude(f: Fields): (v: nat)
    ensures v == f.hours * 3600 + (if f.minutes.Some? then f.minutes.value * 60 else 0)
  {
    f.hours * 3600 + (match f.minutes { case Some(m) => m * 60 case None => 0 })
  }

  /** The sign switch: which signs negate, and which offsets `±` allows. */
  function Signed(sign: char, magnitude: nat): (r: Option<int>)
    ensures sign == '-' || sign == MinusSign ==> r == Some(-(magnitude as int))
    ensures sign == PlusMinus ==> (r.Some? <==> magnitude == 0) && (r.Some? ==> r.value == 0)
    ensures sign != '-' && sign != MinusSign && sign != PlusMinus ==> r == Some(magnitude)
  {
    if sign == MinusSign || sign == '-' then Some(-(magnitude as int))
    else if sign == PlusMinus && magnitude != 0 then None
    else Some(magnitude)
  }

  /** `TimeZone.init?(iso8601:)`: the offset from GMT in seconds, or `None`. */
  function TimeZoneFromIso8601(s: string): (r: Option<int>)
    ensures EndsWithZ(s) ==> r == Some(0)
  {
    if EndsWithZ(s) then Some(0)
    else match Parse(s) {
      case None => None
      case Some(d) => Signed(d.sign, Magnitude(d.fields))
    }
  }

  /** Whatever `Parse` finds is a match of the pattern, with the captures it reports. */
  lemma ParseSound(s: string)
    requires Parse(s).Some?
    ensures exists t, k :: Matches(s, t, k) && Parse(s).value == Designator(s[k], OffsetFields(s[k + 1..]).value)
  {
    var k := LastOutsideOffset(s);
    var j := RunStart(s, k);
    assert Matches(s, j - 1, k);
  }

  /** The sign of a match is the last character that cannot follow a sign. */
  lemma SignIsLastOutside(s: string, t: int, k: int)
    requires Matches(s, t, k)
    ensures LastOutsideOffset(s) == k
  {
    var tail := s[k + 1..];
    forall j | k < j < |s| ensures InOffsetClass(s[j]) {
      assert s[j] == tail[j - k - 1];
    }
    assert !InOffsetClass(s[k]);
  }

  /** The run before the sign starts right after the `T`. */
  lemma {:induction false} RunStartAfterT(s: string, t: int, k: nat)
    requires 0 <= t < k <= |s| && !InTimeClass(s[t])
    requires forall i :: t < i < k ==> InTimeClass(s[i])
    ensures RunStart(s, k) == t + 1
    decreases k
  {
    if k != t + 1 {
      assert InTimeClass(s[k - 1]);
      RunStartAfterT(s, t, k - 1);
    }
  }

  /** Every match of the pattern is found by `Parse`, with the same captures. */
  lemma ParseComplete(s: string, t: int, k: int)
    requires Matches(s, t, k)
    ensures Parse(s) == Some(Designator(s[k], OffsetFields(s[k + 1..]).value))
  {
    SignIsLastOutside(s, t, k);
    RunStartAfterT(s, t, k);
  }

  /** A string can match at one place at most: the captures are determined. */
  lemma MatchUnique(s: string, t: int, k: int, t': int, k': int)
    requires Matches(s, t, k) && Matches(s, t', k')
    ensures t == t' && k == k'
  {
    SignIsLastOutside(s, t, k);
    SignIsLastOutside(s, t', k');
    RunStartAfterT(s, t, k);
    RunStartAfterT(s, t', k');
  }

  /** Without a `Z` at the end, the result is the match's signed offset, and nothing without a match. */
  lemma OffsetOfMatch(s: string, t: int, k: int)
    requires !EndsWithZ(s) && Matches(s, t, k)
    ensures TimeZoneFromIso8601(s) == Signed(s[k], Magnitude(OffsetFields(s[k + 1..]).value))
  {
    ParseComplete(s, t, k);
  }

  lemma NoMatchNoZone(s: string)
    requires !EndsWithZ(s) && forall t, k :: !Matches(s, t, k)
    ensures TimeZoneFromIso8601(s) == None
  {
    if Parse(s).Some? {
      ParseSound(s);
    }
  }

  /** A string with no `T` has no time zone unless it ends in `Z`. */
  lemma NoTimePartNoZone(s: string)
    requires !EndsWithZ(s) && forall i :: 0 <= i < |s| ==> s[i] != 'T'
    ensures TimeZoneFromIso8601(s) == None
  {
    NoMatchNoZone(s);
  }

  /** An odd number of offset digits, `±hhm`, never matches. */
  lemma OddDigitsRejected(pre: string, sign: char, a: char, b: char, c: char)
    requires IsSign(sign) && IsDigit(a) && IsDigit(b) && IsDigit(c)
    ensures TimeZoneFromIso8601(pre + [sign, a, b, c]) == None
  {
    var s := pre + [sign, a, b, c];
    forall t, k | Matches(s, t, k) ensures false {
    }
    NoMatchNoZone(s);
  }

  /** Hyphen-minus and U+2212 in place of a matched `+` give the same zone, the negation of the `+` one. */
  lemma MinusSignsNegate(s: string, t: int, k: int)
    requires !EndsWithZ(s) && Matches(s, t, k) && s[k] == '+'
    ensures TimeZoneFromIso8601(s).Some?
    ensures TimeZoneFromIso8601(s[k := '-']) == Some(-TimeZoneFromIso8601(s).value)
    ensures TimeZoneFromIso8601(s[k := MinusSign]) == Some(-TimeZoneFromIso8601(s).value)
  {
    OffsetOfMatch(s, t, k);
    SwappedSign(s, t, k, '-');
    SwappedSign(s, t, k, MinusSign);
  }

  /** Putting another sign at `k` keeps the match and its offset fields. */
  lemma SwappedSign(s: string, t: int, k: int, sign: char)
    requires !EndsWithZ(s) && Matches(s, t, k) && IsSign(sign)
    ensures TimeZoneFromIso8601(s[k := sign]) == Signed(sign, Magnitude(OffsetFields(s[k + 1..]).value))
  {
    var swapped := s[k := sign];
    assert swapped[k + 1..] == s[k + 1..];
    assert swapped[|s| - 1] == s[|s| - 1];
    assert Matches(swapped, t, k);
    OffsetOfMatch(swapped, t, k);
  }

  /** `±` passes a zero offset and rejects any other. */
  lemma PlusMinusOnlyZero(s: string, t: int, k: int)
    requires !EndsWithZ(s) && Matches(s, t, k) && s[k] == PlusMinus
    ensures TimeZoneFromIso8601(s).Some? <==> Magnitude(OffsetFields(s[k + 1..]).value) == 0
    ensures TimeZoneFromIso8601(s).Some? ==> TimeZoneFromIso8601(s).value == 0
  {
    OffsetOfMatch(s, t, k);
  }

  /** A date, `T`, a time part, a sign and an offset: the designator the regular expression captures. */
  lemma OffsetOfParts(date: string, time: string, sign: char, tail: string)
    requires |time| > 0 && forall i :: 0 <= i < |time| ==> InTimeClass(time[i])
    requires IsSign(sign) && OffsetFields(tail).Some?
    ensures TimeZoneFromIso8601(date + "T" + time + [sign] + tail) == Signed(sign, Magnitude(OffsetFields(tail).value))
  {
    var s := date + "T" + time + [sign] + tail;
    var t, k := |date|, |date| + 1 + |time|;
    forall i | t < i < k ensures InTimeClass(s[i]) {
      assert s[i] == time[i - t - 1];
    }
    assert s[k + 1..] == tail;
    assert s[|s| - 1] == tail[|tail| - 1];
    assert Matches(s, t, k);
    OffsetOfMatch(s, t, k);
  }

  /** The unit test on `2019-10-21T08:40:45+01`. */
  lemma DesignatorPlusHours()
    ensures TimeZoneFromIso8601("2019-10-21T08:40:45+01") == Some(3600)
  {
    assert "2019-10-21" + "T" + "08:40:45" + ['+'] + "01" == "2019-10-21T08:40:45+01" by {
    }
    assert Signed('+', Magnitude(OffsetFields("01").value)) == Some(3600) by {
    }
    OffsetOfParts("2019-10-21", "08:40:45", '+', "01");
  }

  /** The unit test on `2019-10-21T08:40:45+01:00`. */
  lemma DesignatorPlusHoursColonMinutes()
    ensures TimeZoneFromIso8601("2019-10-21T08:40:45+01:00") == Some(3600)
  {
    assert "2019-10-21" + "T" + "08:40:45" + ['+'] + "01:00" == "2019-10-21T08:40:45+01:00" by {
    }
    assert Signed('+', Magnitude(OffsetFields("01:00").value)) == Some(3600) by {
    }
    OffsetOfParts("2019-10-21", "08:40:45", '+', "01:00");
  }

  /** The unit test on `2019-10-21T08:40:45.24+01:00`. */
  lemma DesignatorFractionPlusHoursColonMinutes()
    ensures TimeZoneFromIso8601("2019-10-21T08:40:45.24+01:00") == Some(3600)
  {
    assert "2019-10-21" + "T" + "08:40:45.24" + ['+'] + "01:00" == "2019-10-21T08:40:45.24+01:00" by {
    }
    assert Signed('+', Magnitude(OffsetFields("01:00").value)) == Some(3600) by {
    }
    OffsetOfParts("2019-10-21", "08:40:45.24", '+', "01:00");
  }

  /** The unit test on `2019-10-21T08:40:45+12:34`. */
  lemma DesignatorPlusTwelveColonThirtyFour()
    ensures TimeZoneFromIso8601("2019-10-21T08:40:45+12:34") == Some(12 * 3600 + 34 * 60)
  {
    assert "2019-10-21" + "T" + "08:40:45" + ['+'] + "12:34" == "2019-10-21T08:40:45+12:34" by {
    }
    assert Signed('+', Magnitude(OffsetFields("12:34").value)) == Some(12 * 3600 + 34 * 60) by {
    }
    OffsetOfParts("2019-10-21", "08:40:45", '+', "12:34");
  }

  /** The unit test on `2019-10-21T08:40:45.24+1234`. */
  lemma DesignatorFractionPlusTwelveThirtyFour()
    ensures TimeZoneFromIso8601("2019-10-21T08:40:45.24+1234") == Some(12 * 3600 + 34 * 60)
  {
    assert "2019-10-21" + "T" + "08:40:45.24" + ['+'] + "1234" == "2019-10-21T08:40:45.24+1234" by {
    }
    assert Signed('+', Magnitude(OffsetFields("1234").value)) == Some(12 * 3600 + 34 * 60) by {
    }
    OffsetOfParts("2019-10-21", "08:40:45.24", '+', "1234");
  }

  /** The unit test on `2019-10-21T08:40:45.24+12:34`. */
  lemma DesignatorFractionPlusTwelveColonThirtyFour()
    ensures TimeZoneFromIso8601("2019-10-21T08:40:45.24+12:34") == Some(12 * 3600 + 34 * 60)
  {
    assert "2019-10-21" + "T" + "08:40:45.24" + ['+'] + "12:34" == "2019-10-21T08:40:45.24+12:34" by {
    }
    assert Signed('+', Magnitude(OffsetFields("12:34").value)) == Some(12 * 3600 + 34 * 60) by {
    }
    OffsetOfParts("2019-10-21", "08:40:45.24", '+', "12:34");
  }

  /** The unit test on `2019-10-21T08:40:45.24\U{00B1}00`. */
  lemma DesignatorPlusMinusZero()
    ensures TimeZoneFromIso8601("2019-10-21T08:40:45.24\U{00B1}00") == Some(0)
  {
    assert "2019-10-21" + "T" + "08:40:45.24" + [PlusMinus] + "00" == "2019-10-21T08:40:45.24\U{00B1}00" by {
    }
    assert Signed(PlusMinus, Magnitude(OffsetFields("00").value)) == Some(0) by {
    }
    OffsetOfParts("2019-10-21", "08:40:45.24", PlusMinus, "00");
  }

  /** The unit test on `2019-10-21T08:40:45-12:34`. */
  lemma DesignatorHyphenTwelveColonThirtyFour()
    ensures TimeZoneFromIso8601("2019-10-21T08:40:45-12:34") == Some(-(12 * 3600 + 34 * 60))
  {
    assert "2019-10-21" + "T" + "08:40:45" + ['-'] + "12:34" == "2019-10-21T08:40:45-12:34" by {
    }
    assert Signed('-', Magnitude(OffsetFields("12:34").value)) == Some(-(12 * 3600 + 34 * 60)) by {
    }
    OffsetOfParts("2019-10-21", "08:40:45", '-', "12:34");
  }

  /** The unit test on `2019-10-21T08:40:45.24-1234`. */
  lemma DesignatorFractionHyphenTwelveThirtyFour()
    ensures TimeZoneFromIso8601("2019-10-21T08:40:45.24-1234") == Some(-(12 * 3600 + 34 * 60))
  {
    assert "2019-10-21" + "T" + "08:40:45.24" + ['-'] + "1234" == "2019-10-21T08:40:45.24-1234" by {
    }
    assert Signed('-', Magnitude(OffsetFields("1234").value)) == Some(-(12 * 3600 + 34 * 60)) by {
    }
    OffsetOfParts("2019-10-21", "08:40:45.24", '-', "1234");
  }

  /** The unit test on `2019-10-21T08:40:45.24-12:34`. */
  lemma DesignatorFractionHyphenTwelveColonThirtyFour()
    ensures TimeZoneFromIso8601("2019-10-21T08:40:45.24-12:34") == Some(-(12 * 3600 + 34 * 60))
  {
    assert "2019-10-21" + "T" + "08:40:45.24" + ['-'] + "12:34" == "2019-10-21T08:40:45.24-12:34" by {
    }
    assert Signed('-', Magnitude(OffsetFields("12:34").value)) == Some(-(12 * 3600 + 34 * 60)) by {
    }
    OffsetOfParts("2019-10-21", "08:40:45.24", '-', "12:34");
  }

  /** The unit test on `2019-10-21T08:40:45.24\U{2212}12:34`. */
  lemma DesignatorMinusSignTwelveColonThirtyFour()
    ensures TimeZoneFromIso8601("2019-10-21T08:40:45.24\U{2212}12:34") == Some(-(12 * 3600 + 34 * 60))
  {
    assert "2019-10-21" + "T" + "08:40:45.24" + [MinusSign] + "12:34" == "2019-10-21T08:40:45.24\U{2212}12:34" by {
    }
    assert Signed(MinusSign, Magnitude(OffsetFields("12:34").value)) == Some(-(12 * 3600 + 34 * 60)) by {
    }
    OffsetOfParts("2019-10-21", "08:40:45.24", MinusSign, "12:34");
  }

  /** The strings of the unit tests that end in `Z` are UTC. */
  lemma ZuluVectors()
    ensures TimeZoneFromIso8601("2019-10-21T08:40:45Z") == Some(0)
    ensures TimeZoneFromIso8601("2019-10-21T08:40:45.24Z") == Some(0)
  {
  }

  /** A bare date of the unit tests has no time zone. */
  lemma DateOnlyVector()
    ensures TimeZoneFromIso8601("2019-10-21") == None
  {
    NoTimePartNoZone("2019-10-21");
  }

  /** A time of the unit tests with no offset has no time zone. */
  lemma NoOffsetVector()
    ensures TimeZoneFromIso8601("2019-10-21T08:40:45.24") == None
  {
    var s := "2019-10-21T08:40:45.24";
    var k := LastOutsideOffset(s);
    assert s[19] == '.' && !InOffsetClass(s[19]) && InOffsetClass(s[20]) && InOffsetClass(s[21]);
    assert k == 19;
    assert Parse(s) == None;
  }

  /** The unit tests' `±` on a non-zero offset has no time zone. */
  lemma PlusMinusNonZeroVector()
    ensures TimeZoneFromIso8601("2019-10-21T08:40:45.24\U{00B1}01") == None
  {
    assert "2019-10-21" + "T" + "08:40:45.24" + [PlusMinus] + "01" == "2019-10-21T08:40:45.24\U{00B1}01";
    assert Signed(PlusMinus, Magnitude(OffsetFields("01").value)) == None;
    OffsetOfParts("2019-10-21", "08:40:45.24", PlusMinus, "01");
  }
}
