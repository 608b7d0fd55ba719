/**
 * `parseDurationString` (teamLogger.js, lines 50-53 and 70-92): reads the
 * trimmed text either as `h:mm:ss` / `hh:mm:ss` or as the time-only,
 * integer-component subset of the ISO 8601 duration format with designators,
 * `PT[nH][nM][nS]` (ISO 8601:2004 section 4.4.3.2), letters in either case.
 *
 * Each accepted form is specified by the text it is rendered from (HmsText,
 * IsoText); the parser is proved to accept exactly those texts, with the value
 * they denote. Minutes and seconds are not range-checked, and a bare `PT` is
 * accepted as zero, as in the source.
 */
module DurationString {
  import opened Wrappers
  import opened Text
  import opened DurationRules

  /** `toMilliseconds(h,'h') + toMilliseconds(m,'m') + toMilliseconds(s,'s')` on whole numbers. */
  function ClockMilliseconds(h: nat, m: nat, s: nat): (ms: nat)
    ensures ms as real == ToMilliseconds(h as real, Hours) + ToMilliseconds(m as real, Minutes)
                          + ToMilliseconds(s as real, Seconds)
  {
    h * 3600000 + m * 60000 + s * 1000
  }

  // ---------------------------------------------------------------- hh:mm:ss

  /** The digit strings of `^(\d{1,2}):(\d{2}):(\d{2})$`. */
  predicate HmsParts(h: string, m: string, s: string) {
    1 <= |h| <= 2 && |m| == 2 && |s| == 2 && AllDigits(h) && AllDigits(m) && AllDigits(s)
  }

  function HmsText(h: string, m: string, s: string): string {
    h + ":" + m + ":" + s
  }

  function HmsValue(h: string, m: string, s: string): nat
    requires HmsParts(h, m, s)
  {
    ClockMilliseconds(DecimalValue(h), DecimalValue(m), DecimalValue(s))
  }

  function ParseHms(t: string): Option<nat> {
    var n := |t|;
    if (n == 7 || n == 8) && t[n - 6] == ':' && t[n - 3] == ':'
       && AllDigits(t[..n - 6]) && AllDigits(t[n - 5..n - 3]) && AllDigits(t[n - 2..])
    then Some(HmsValue(t[..n - 6], t[n - 5..n - 3], t[n - 2..]))
    else None
  }

  lemma ParseHmsComplete(h: string, m: string, s: string)
    requires HmsParts(h, m, s)
    ensures ParseHms(HmsText(h, m, s)) == Some(HmsValue(h, m, s))
  {
    var t := HmsText(h, m, s);
    var n := |t|;
    assert t[..n - 6] == h && t[n - 5..n - 3] == m && t[n - 2..] == s;
  }

  lemma ParseHmsSound(t: string)
    requires ParseHms(t).Some?
    ensures exists h, m, s :: HmsParts(h, m, s) && t == HmsText(h, m, s) && ParseHms(t).value == HmsValue(h, m, s)
  {
    var n := |t|;
    var h, m, s := t[..n - 6], t[n - 5..n - 3], t[n - 2..];
    assert t == HmsText(h, m, s);
  }

  // ---------------------------------------------------------------- PT[nH][nM][nS]

  /** The three optional components of an ISO duration; `""` means absent. */
  datatype IsoFields = IsoFields(hours: string, minutes: string, seconds: string)

  predicate IsoWellFormed(f: IsoFields) {
    AllDigits(f.hours) && AllDigits(f.minutes) && AllDigits(f.seconds)
  }

  function Designated(digits: string, designator: char): string {
    if digits == "" then "" else digits + [designator]
  }

  /** The upper-case text of a duration: `PT`, then each present component with its designator. */
  function IsoText(f: IsoFields): string {
    "PT" + IsoComponentsText(f)
  }

  function IsoComponentsText(f: IsoFields): string {
    Designated(f.hours, 'H') + Designated(f.minutes, 'M') + Designated(f.seconds, 'S')
  }

  /** A missing component counts as zero. */
  function IsoValue(f: IsoFields): nat
    requires IsoWellFormed(f)
  {
    ClockMilliseconds(DecimalValue(f.hours), DecimalValue(f.minutes), DecimalValue(f.seconds))
  }

  /** The length of the run of digits that `r` starts with. */
  function DigitRun(r: string): (k: nat)
    ensures k <= |r| && AllDigits(r[..k])
    ensures k < |r| ==> !IsDigit(r[k])
  {
    if r != [] && IsDigit(r[0]) then 1 + DigitRun(r[1..]) else 0
  }

  /**
   * One optional `(?:(\d+)X)?` group on upper-case text: the digits and the
   * text after the designator when `r` starts with digits followed by
   * `designator`; otherwise no digits and `r` unchanged. Only the whole digit
   * run can be followed by a letter, so backtracking cannot do better.
   */
  function Component(r: string, designator: char): (string, string) {
    var k := DigitRun(r);
    if 0 < k < |r| && r[k] == designator then (r[..k], r[k + 1..]) else ("", r)
  }

  /** The three optional groups in order, and what is left after them. */
  function Components(r: string): (IsoFields, string) {
    var (h, r1) := Component(r, 'H');
    var (m, r2) := Component(r1, 'M');
    var (s, r3) := Component(r2, 'S');
    (IsoFields(h, m, s), r3)
  }

  /**
   * The case-insensitive pattern matched against `t` is the upper-case pattern
   * matched against `t` upper-cased: the groups capture digits, which
   * upper-casing leaves alone.
   */
  function ParseIso(t: string): Option<nat> {
    var u := UpperAscii(t);
    if |u| >= 2 && u[..2] == "PT" then
      var (f, rest) := Components(u[2..]);
      ComponentsShape(u[2..]);
      if rest == "" then Some(IsoValue(f)) else None
    else None
  }

  /** What one component step consumed. */
  lemma ComponentShape(r: string, designator: char)
    ensures AllDigits(Component(r, designator).0)
    ensures r == Designated(Component(r, designator).0, designator) + Component(r, designator).1
  {
    var k := DigitRun(r);
    if 0 < k < |r| && r[k] == designator {
      assert r == r[..k] + [r[k]] + r[k + 1..];
    }
  }

  lemma ComponentsShape(r: string)
    ensures IsoWellFormed(Components(r).0)
    ensures r == IsoComponentsText(Components(r).0) + Components(r).1
  {
    var c1 := Component(r, 'H');
    var c2 := Component(c1.1, 'M');
    var c3 := Component(c2.1, 'S');
    assert Components(r) == (IsoFields(c1.0, c2.0, c3.0), c3.1);
    var d1, d2, d3 := Designated(c1.0, 'H'), Designated(c2.0, 'M'), Designated(c3.0, 'S');
    assert AllDigits(c1.0) && r == d1 + c1.1 by { ComponentShape(r, 'H'); }
    assert AllDigits(c2.0) && c1.1 == d2 + c2.1 by { ComponentShape(c1.1, 'M'); }
    assert AllDigits(c3.0) && c2.1 == d3 + c3.1 by { ComponentShape(c2.1, 'S'); }
    ConcatChain(r, d1, c1.1, d2, c2.1, d3, c3.1);
  }

  /** A text starting with `PT` whose remainder is `rest` followed by nothing. */
  lemma PtPrefix(u: string, rest: string, tail: string)
    requires |u| >= 2 && u[..2] == "PT" && u[2..] == rest + tail && tail == ""
    ensures u == "PT" + rest
  {
    assert u == u[..2] + u[2..];
  }

  lemma ParseIsoSound(t: string)
    requires ParseIso(t).Some?
    ensures exists f :: IsoWellFormed(f) && UpperAscii(t) == IsoText(f) && ParseIso(t).value == IsoValue(f)
  {
    var u := UpperAscii(t);
    var c := Components(u[2..]);
    assert |u| >= 2 && u[..2] == "PT" && c.1 == "" && ParseIso(t) == Some(IsoValue(c.0));
    var f := c.0;
    ComponentsShape(u[2..]);
    PtPrefix(u, IsoComponentsText(f), c.1);
    assert IsoWellFormed(f) && UpperAscii(t) == IsoText(f) && ParseIso(t).value == IsoValue(f);
  }

  /** True when `u` starts with digits followed by `designator`. */
  predicate StartsDesignated(u: string, designator: char) {
    var k := DigitRun(u);
    0 < k < |u| && u[k] == designator
  }

  lemma DigitRunOfDesignated(digits: string, c: char, rest: string)
    requires AllDigits(digits) && !IsDigit(c)
    ensures DigitRun(digits + [c] + rest) == |digits|
  {
    if digits != [] {
      assert (digits + [c] + rest)[1..] == digits[1..] + [c] + rest;
      DigitRunOfDesignated(digits[1..], c, rest);
    }
  }

  /** One component step reads back the component that was rendered. */
  lemma ComponentOfDesignated(digits: string, designator: char, rest: string)
    requires AllDigits(digits) && !IsDigit(designator)
    requires digits == "" ==> !StartsDesignated(rest, designator)
    ensures Component(Designated(digits, designator) + rest, designator) == (digits, rest)
  {
    var r := Designated(digits, designator) + rest;
    if digits != "" {
      assert r == digits + [designator] + rest;
      DigitRunOfDesignated(digits, designator, rest);
      assert r[..|digits|] == digits;
      assert r[|digits| + 1..] == rest;
    } else {
      assert r == rest;
    }
  }

  lemma NotStartsDesignated(digits: string, c: char, rest: string, designator: char)
    requires digits != "" && AllDigits(digits) && !IsDigit(c) && c != designator
    ensures !StartsDesignated(Designated(digits, c) + rest, designator)
  {
    assert Designated(digits, c) + rest == digits + [c] + rest;
    DigitRunOfDesignated(digits, c, rest);
  }

  /** The rendered components are read back, whatever is present. */
  lemma ComponentsOfRendered(f: IsoFields)
    requires IsoWellFormed(f)
    ensures Components(IsoText(f)[2..]) == (f, "")
  {
    var sPart := Designated(f.seconds, 'S');
    var mPart := Designated(f.minutes, 'M') + sPart;
    assert IsoText(f)[2..] == IsoComponentsText(f);
    assert IsoComponentsText(f) == Designated(f.hours, 'H') + mPart;
    if f.minutes != "" {
      NotStartsDesignated(f.minutes, 'M', sPart, 'H');
    } else if f.seconds != "" {
      assert mPart == Designated(f.seconds, 'S') + "";
      NotStartsDesignated(f.seconds, 'S', "", 'H');
    }
    ComponentOfDesignated(f.hours, 'H', mPart);
    if f.seconds != "" {
      assert sPart == Designated(f.seconds, 'S') + "";
      NotStartsDesignated(f.seconds, 'S', "", 'M');
    }
    ComponentOfDesignated(f.minutes, 'M', sPart);
    assert sPart == Designated(f.seconds, 'S') + "";
    ComponentOfDesignated(f.seconds, 'S', "");
  }

  /** Every text whose upper case renders some components is read with their value. */
  lemma ParseIsoComplete(t: string, f: IsoFields)
    requires IsoWellFormed(f) && UpperAscii(t) == IsoText(f)
    ensures ParseIso(t) == Some(IsoValue(f))
  {
    ComponentsOfRendered(f);
  }

  // ---------------------------------------------------------------- the whole parser

  /** `parseDurationString` on a string argument; `None` is the source's `null`. */
  function ParseDurationString(value: string): Option<nat> {
    var trimmed := Trim(value);
    match ParseHms(trimmed)
    case Some(ms) => Some(ms)
    case None => ParseIso(trimmed)
  }

  /** A value is produced only for the two accepted forms, with the value they denote. */
  lemma ParseDurationStringSound(value: string)
    requires ParseDurationString(value).Some?
    ensures || (exists h, m, s :: HmsParts(h, m, s) && Trim(value) == HmsText(h, m, s)
                                  && ParseDurationString(value).value == HmsValue(h, m, s))
            || (exists f :: IsoWellFormed(f) && UpperAscii(Trim(value)) == IsoText(f)
                            && ParseDurationString(value).value == IsoValue(f))
  {
    if ParseHms(Trim(value)).Some? {
      ParseHmsSound(Trim(value));
    } else {
      ParseIsoSound(Trim(value));
    }
  }

  lemma ParseDurationStringHms(value: string, h: string, m: string, s: string)
    requires HmsParts(h, m, s) && Trim(value) == HmsText(h, m, s)
    ensures ParseDurationString(value) == Some(HmsValue(h, m, s))
  {
    ParseHmsComplete(h, m, s);
  }

  lemma ParseDurationStringIso(value: string, f: IsoFields)
    requires IsoWellFormed(f) && UpperAscii(Trim(value)) == IsoText(f)
    ensures ParseDurationString(value) == Some(IsoValue(f))
  {
    var t := Trim(value);
    var n := |t|;
    if n == 7 || n == 8 {
      assert UpperChar(t[0]) == 'P';
      assert !AllDigits(t[..n - 6]) by { assert t[..n - 6][0] == t[0]; }
    }
    ParseIsoComplete(t, f);
  }

  /** "02:30:00" is two and a half hours. */
  lemma HalfPastTwoExample(v: string)
    requires v == "02:30:00"
    ensures ParseDurationString(v) == Some(9000000)
  {
    TrimOfTrimmed(v);
    assert HmsText("02", "30", "00") == v;
    assert DecimalValue("02") == 2 && DecimalValue("30") == 30 && DecimalValue("00") == 0;
    ParseDurationStringHms(v, "02", "30", "00");
  }

  /** Minutes and seconds are not range-checked: "1:99:99" is read as written. */
  lemma UncheckedMinutesExample(v: string)
    requires v == "1:99:99"
    ensures ParseDurationString(v) == Some(3600000 + 99 * 60000 + 99 * 1000)
  {
    TrimOfTrimmed(v);
    assert HmsText("1", "99", "99") == v;
    assert DecimalValue("1") == 1 && DecimalValue("99") == 99;
    ParseDurationStringHms(v, "1", "99", "99");
  }

  /** Three hour digits are not an `h:mm:ss` time, nor anything else. */
  lemma LongHoursRejectedExample(v: string)
    requires v == "100:00:00"
    ensures ParseDurationString(v) == None
  {
    TrimOfTrimmed(v);
    assert UpperAscii(v)[..2] != "PT";
  }

  /** "PT1H30M" is an hour and a half; a missing seconds part counts as zero. */
  lemma HourAndHalfIsoExample(v: string)
    requires v == "PT1H30M"
    ensures ParseDurationString(v) == Some(5400000)
  {
    var f := IsoFields("1", "30", "");
    TrimOfTrimmed(v);
    assert IsoText(f) == v;
    assert UpperAscii(v) == v;
    assert DecimalValue("1") == 1 && DecimalValue("30") == 30 && DecimalValue("") == 0;
    ParseDurationStringIso(v, f);
  }

  lemma TrimmedPt45s(v: string)
    requires v == " pt45s\n"
    ensures Trim(v) == "pt45s"
  {
    assert v == " " + "pt45s" + "\n";
    TrimSurrounded(" ", "pt45s", "\n");
  }

  lemma UpperPt45s(t: string)
    requires t == "pt45s"
    ensures UpperAscii(t) == "PT45S"
  {
  }

  lemma Pt45sFields(f: IsoFields)
    requires f == IsoFields("", "", "45")
    ensures IsoWellFormed(f) && IsoText(f) == "PT45S" && IsoValue(f) == 45000
  {
    assert DecimalValue("45") == 45;
  }

  /** Letters may be lower case, and surrounding whitespace is trimmed. */
  lemma LowerCaseIsoExample(v: string)
    requires v == " pt45s\n"
    ensures ParseDurationString(v) == Some(45000)
  {
    var f := IsoFields("", "", "45");
    TrimmedPt45s(v);
    UpperPt45s(Trim(v));
    Pt45sFields(f);
    ParseDurationStringIso(v, f);
  }

  /** A bare "PT", which ISO 8601 does not allow, is accepted as zero. */
  lemma BarePtExample(v: string)
    requires v == "PT"
    ensures ParseDurationString(v) == Some(0)
  {
    var f := IsoFields("", "", "");
    TrimOfTrimmed(v);
    assert IsoText(f) == v;
    assert UpperAscii(v) == v;
    ParseDurationStringIso(v, f);
  }
}
