/**
 * The report half of teamLogger.js: reading the employee report out of the
 * payload (lines 163-213), the composite "total worked" figure of
 * `fetchTeamLoggerTotalTime` (lines 227-233 and 259-279), the suppression-flag
 * normaliser (lines 143-151) and `formatDuration` (lines 282-291).
 *
 * The HTTP request is not modelled: the parsed response body is a parameter.
 */
module TeamLogger {
  import opened Wrappers
  import opened Text
  import opened Json
  import opened DurationRules
  import opened DurationExtractor
  import DurationString

  // ------------------------------------------------------- suppression flag

  /**
   * `normaliseSuppressionFlag`: a boolean passes through; a string counts only
   * when, trimmed and lower-cased, it reads "true" or "false"; anything else is
   * false.
   */
  function NormaliseSuppressionFlag(flag: Json): (r: bool)
    ensures flag.Bool? ==> r == flag.b
    ensures flag.Str? ==> (r <==> LowerAscii(Trim(flag.s)) == "true")
    ensures !flag.Bool? && !flag.Str? ==> !r
  {
    match flag
    case Bool(b) => b
    case Str(s) =>
      var value := LowerAscii(Trim(s));
      if value == "true" then true
      else if value == "false" then false
      else false
    case _ => false
  }

  /** Normalising a flag that is already normalised changes nothing. */
  lemma SuppressionFlagIdempotent(flag: Json)
    ensures NormaliseSuppressionFlag(Bool(NormaliseSuppressionFlag(flag))) == NormaliseSuppressionFlag(flag)
  {
  }

  /** Whitespace around a string flag does not change its reading. */
  lemma SuppressionFlagIgnoresPadding(before: string, s: string, after: string)
    requires AllWhitespace(before) && AllWhitespace(after)
    ensures NormaliseSuppressionFlag(Str(before + s + after)) == NormaliseSuppressionFlag(Str(s))
  {
    TrimAbsorbsPadding(before, s, after);
  }

  lemma LowerTrue(t: string)
    requires t == "TRUE"
    ensures LowerAscii(t) == "true"
  {
  }

  /** `" TRUE\n"` reads as true. */
  lemma UpperCaseTrueExample(s: string)
    requires s == " TRUE\n"
    ensures NormaliseSuppressionFlag(Str(s))
  {
    assert Trim(s) == "TRUE" by {
      assert s == " " + "TRUE" + "\n";
      TrimSurrounded(" ", "TRUE", "\n");
    }
    LowerTrue(Trim(s));
  }

  // --------------------------------------------------- unit conversions

  /** `toMillisecondsFromHours`: `None` (not a finite number) stays `None`. */
  function ToMillisecondsFromHours(hours: Option<real>): (r: Option<real>)
    ensures r.Some? <==> hours.Some?
    ensures hours.Some? ==> r.value == ToMilliseconds(hours.value, Hours)
  {
    match hours
    case Some(h) => Some(h * 60.0 * 60.0 * 1000.0)
    case None => None
  }

  /** `toMillisecondsFromSeconds`. */
  function ToMillisecondsFromSeconds(seconds: Option<real>): (r: Option<real>)
    ensures r.Some? <==> seconds.Some?
    ensures seconds.Some? ==> r.value == ToMilliseconds(seconds.value, Seconds)
  {
    match seconds
    case Some(s) => Some(s * 1000.0)
    case None => None
  }

  // ------------------------------------------------------- report stats

  /** The `stats` record: `title`, `email` and `las` copied, the rest finite numbers or null. */
  datatype TimeReportStats = TimeReportStats(
    title: Json,
    email: Json,
    totalHours: Option<real>,
    activeMinutesRatio: Option<real>,
    activeSecondsRatio: Option<real>,
    totalSecondsCount: Option<real>,
    activeSecondsCount: Option<real>,
    inactiveSecondsCount: Option<real>,
    breakHours: Option<real>,
    spanHours: Option<real>,
    onComputerHours: Option<real>,
    meetingHours: Option<real>,
    idleHours: Option<real>,
    las: Json)

  /** `{ report, item, stats }`, `None` standing for `null`. */
  datatype ReportExtract = ReportExtract(report: Json, item: Option<Json>, stats: Option<TimeReportStats>)

  /** `o` is the field read `field` passed through `sanitiseNumber`. */
  predicate SanitisedFrom(o: Option<real>, field: Option<Json>) {
    (o.Some? <==> field.Some? && field.value.Num?) && (o.Some? ==> field == Some(Num(o.value)))
  }

  /** `o` is the field read `field` passed through `?? null`. */
  predicate CopiedFrom(o: Json, field: Option<Json>) {
    if field.Some? then o == field.value else o == Null
  }

  /** `sanitiseNumber`: a finite number, else null; never a default of 0. */
  function SanitiseNumber(field: Option<Json>): (o: Option<real>)
    ensures SanitisedFrom(o, field)
  {
    match field
    case Some(Num(x)) => Some(x)
    case _ => None
  }

  /** Every field of `stats` is read from `item` as the source reads it. */
  predicate StatsOf(item: Json, stats: TimeReportStats) {
    && CopiedFrom(stats.title, Get(item, "title"))
    && CopiedFrom(stats.email, Get(item, "email"))
    && SanitisedFrom(stats.totalHours, Get(item, "totalHours"))
    && SanitisedFrom(stats.activeMinutesRatio, Get(item, "activeMinutesRatio"))
    && SanitisedFrom(stats.activeSecondsRatio, Get(item, "activeSecondsRatio"))
    && SanitisedFrom(stats.totalSecondsCount, Get(item, "totalSecondsCount"))
    && SanitisedFrom(stats.activeSecondsCount, Get(item, "activeSecondsCount"))
    && SanitisedFrom(stats.inactiveSecondsCount, Get(item, "inactiveSecondsCount"))
    && SanitisedFrom(stats.breakHours, Get(item, "breakHours"))
    && SanitisedFrom(stats.spanHours, Get(item, "spanHours"))
    && SanitisedFrom(stats.onComputerHours, Get(item, "onComputerHours"))
    && SanitisedFrom(stats.meetingHours, Get(item, "meetingHours"))
    && SanitisedFrom(stats.idleHours, Get(item, "idleHours"))
    && CopiedFrom(stats.las, Get(item, "las"))
  }

  /** The `timeReportItems` array of a truthy report, when it is an array. */
  function ReportItems(report: Json): (items: Option<seq<Json>>)
    ensures items.Some? <==> Truthy(report) && Get(report, "timeReportItems").Some?
                             && Get(report, "timeReportItems").value.Arr?
    ensures items.Some? ==> Get(report, "timeReportItems") == Some(Arr(items.value))
  {
    if !Truthy(report) then None
    else match Get(report, "timeReportItems")
      case Some(Arr(elems)) => Some(elems)
      case _ => None
  }

  /** The index `find(entry => entry && typeof entry === 'object')` stops at. */
  function FirstObjectLike(items: seq<Json>): (r: Option<nat>)
    ensures r.Some? ==> r.value < |items| && IsObjectLike(items[r.value])
                        && forall j :: 0 <= j < r.value ==> !IsObjectLike(items[j])
    ensures r.None? ==> forall j :: 0 <= j < |items| ==> !IsObjectLike(items[j])
  {
    if items == [] then None
    else if IsObjectLike(items[0]) then Some(0)
    else match FirstObjectLike(items[1..])
      case Some(i) => Some(i + 1)
      case None => None
  }

  function ReadStats(item: Json): (stats: TimeReportStats)
    ensures StatsOf(item, stats)
  {
    TimeReportStats(
      Get(item, "title").GetOr(Null),
      Get(item, "email").GetOr(Null),
      SanitiseNumber(Get(item, "totalHours")),
      SanitiseNumber(Get(item, "activeMinutesRatio")),
      SanitiseNumber(Get(item, "activeSecondsRatio")),
      SanitiseNumber(Get(item, "totalSecondsCount")),
      SanitiseNumber(Get(item, "activeSecondsCount")),
      SanitiseNumber(Get(item, "inactiveSecondsCount")),
      SanitiseNumber(Get(item, "breakHours")),
      SanitiseNumber(Get(item, "spanHours")),
      SanitiseNumber(Get(item, "onComputerHours")),
      SanitiseNumber(Get(item, "meetingHours")),
      SanitiseNumber(Get(item, "idleHours")),
      Get(item, "las").GetOr(Null))
  }

  /**
   * `extractEmployeeReportStats`. The item is the first element of a truthy
   * report's `timeReportItems` array that is an object or an array; without
   * one, item and stats are both null. Arrays pass the `typeof` test, and every
   * field read from one is undefined, so an array item yields all-null stats.
   */
  function ExtractEmployeeReportStats(payload: Json): (r: ReportExtract)
    ensures r.report == Get(payload, "employeeTimeReport").GetOr(Null)
    ensures r.stats.Some? <==> r.item.Some?
    ensures r.item.None? <==>
            ReportItems(r.report).None? || forall e :: e in ReportItems(r.report).value ==> !IsObjectLike(e)
    ensures r.item.Some? ==>
            var items := ReportItems(r.report).value;
            exists i :: 0 <= i < |items| && items[i] == r.item.value && IsObjectLike(items[i])
                        && forall j :: 0 <= j < i ==> !IsObjectLike(items[j])
    ensures r.stats.Some? ==> StatsOf(r.item.value, r.stats.value)
  {
    var report := Get(payload, "employeeTimeReport").GetOr(Null);
    match ReportItems(report)
    case None => ReportExtract(report, None, None)
    case Some(items) =>
      if |items| == 0 then ReportExtract(report, None, None)
      else match FirstObjectLike(items)
        case None => ReportExtract(report, None, None)
        case Some(i) => ReportExtract(report, Some(items[i]), Some(ReadStats(items[i])))
  }

  /** A report whose items are all scalars (or that has none) yields no stats. */
  lemma NoObjectItemNoStats(payload: Json, items: seq<Json>)
    requires Get(payload, "employeeTimeReport").Some?
    requires Get(Get(payload, "employeeTimeReport").value, "timeReportItems") == Some(Arr(items))
    requires forall j :: 0 <= j < |items| ==> !IsObjectLike(items[j])
    ensures ExtractEmployeeReportStats(payload).stats.None?
  {
    var report := Get(payload, "employeeTimeReport").value;
    assert ReportItems(report) == Some(items);
    assert forall e :: e in items ==> !IsObjectLike(e);
  }

  // ------------------------------------------------------ composite total

  /**
   * The six candidates in source order: total, on-computer and span hours,
   * total and active seconds (each null when there are no stats), then the
   * payload scan.
   */
  function CandidateDurations(stats: Option<TimeReportStats>, scanned: real): (cs: seq<Option<real>>)
    ensures |cs| == 6 && cs[5] == Some(scanned)
    ensures stats.None? ==> forall i :: 0 <= i < 5 ==> cs[i] == None
    ensures stats.Some? ==>
            && cs[0] == ToMillisecondsFromHours(stats.value.totalHours)
            && cs[1] == ToMillisecondsFromHours(stats.value.onComputerHours)
            && cs[2] == ToMillisecondsFromHours(stats.value.spanHours)
            && cs[3] == ToMillisecondsFromSeconds(stats.value.totalSecondsCount)
            && cs[4] == ToMillisecondsFromSeconds(stats.value.activeSecondsCount)
  {
    var s := stats;
    [ ToMillisecondsFromHours(if s.Some? then s.value.totalHours else None),
      ToMillisecondsFromHours(if s.Some? then s.value.onComputerHours else None),
      ToMillisecondsFromHours(if s.Some? then s.value.spanHours else None),
      ToMillisecondsFromSeconds(if s.Some? then s.value.totalSecondsCount else None),
      ToMillisecondsFromSeconds(if s.Some? then s.value.activeSecondsCount else None),
      Some(scanned) ]
  }

  /** `.filter((value) => typeof value === 'number' && value >= 0)`. */
  function Surviving(cs: seq<Option<real>>): (r: seq<real>)
    ensures forall x :: x in r <==> Some(x) in cs && x >= 0.0
  {
    if cs == [] then []
    else
      var rest := Surviving(cs[1..]);
      assert forall x :: Some(x) in cs <==> Some(x) == cs[0] || Some(x) in cs[1..];
      if cs[0].Some? && cs[0].value >= 0.0 then [cs[0].value] + rest else rest
  }

  /** `Math.max(...xs)` on a non-empty list. */
  function MaxOf(xs: seq<real>): (m: real)
    requires xs != []
    ensures m in xs && forall x :: x in xs ==> m >= x
  {
    if |xs| == 1 then xs[0]
    else
      var rest := MaxOf(xs[1..]);
      assert forall x :: x in xs <==> x == xs[0] || x in xs[1..];
      Max(xs[0], rest)
  }

  /** The largest surviving candidate, or 0 when none survives. */
  function TotalWorkedMilliseconds(cs: seq<Option<real>>): (ms: real)
    ensures ms >= 0.0
    ensures forall x :: Some(x) in cs && x >= 0.0 ==> ms >= x
    ensures Some(ms) in cs || (ms == 0.0 && forall x :: Some(x) in cs ==> x < 0.0)
  {
    var survivors := Surviving(cs);
    if |survivors| > 0 then MaxOf(survivors) else 0.0
  }

  /** What `fetchTeamLoggerTotalTime` resolves to, past the request. */
  datatype TotalTime = TotalTime(
    raw: Json,
    totalWorkedMilliseconds: real,
    totalWorkedHours: real,
    employeeTimeReport: Json,
    employeeTimeReportItem: Option<Json>,
    stats: Option<TimeReportStats>)

  const TokenRequired := "A valid TeamLogger API token is required."
  const IdsRequired := "Both companyId and accountId must be provided."

  /**
   * `fetchTeamLoggerTotalTime` given the response body `payload`: the argument
   * guards, then the composite total.
   */
  function FetchTeamLoggerTotalTime(token: Json, companyId: Json, accountId: Json, payload: Json,
                                    parseFloat: string -> Option<real>): (r: Result<TotalTime>)
    ensures !Truthy(token) ==> r == Failure(TokenRequired)
    ensures Truthy(token) && !(Truthy(companyId) && Truthy(accountId)) ==> r == Failure(IdsRequired)
    ensures r.Success? <==> Truthy(token) && Truthy(companyId) && Truthy(accountId)
    ensures r.Success? ==>
            && r.value.raw == payload
            && r.value.totalWorkedHours * 3600000.0 == r.value.totalWorkedMilliseconds
            && r.value.totalWorkedMilliseconds >= ScanPayload(payload, parseFloat)
            && r.value.totalWorkedMilliseconds
               == TotalWorkedMilliseconds(CandidateDurations(r.value.stats, ScanPayload(payload, parseFloat)))
            && r.value.employeeTimeReport == ExtractEmployeeReportStats(payload).report
            && r.value.employeeTimeReportItem == ExtractEmployeeReportStats(payload).item
            && r.value.stats == ExtractEmployeeReportStats(payload).stats
  {
    if !Truthy(token) then Failure(TokenRequired)
    else if !Truthy(companyId) || !Truthy(accountId) then Failure(IdsRequired)
    else
      var extract := ExtractEmployeeReportStats(payload);
      var ms := TotalWorkedMilliseconds(CandidateDurations(extract.stats, ScanPayload(payload, parseFloat)));
      Success(TotalTime(payload, ms, ms / (60.0 * 60.0 * 1000.0), extract.report, extract.item, extract.stats))
  }

  /**
   * The scan of the payload is never negative, so at least one candidate always
   * survives: the total is the largest of the surviving candidates.
   */
  lemma TotalIsLargestCandidate(stats: Option<TimeReportStats>, scanned: real)
    requires scanned >= 0.0
    ensures var cs := CandidateDurations(stats, scanned);
            Some(TotalWorkedMilliseconds(cs)) in cs && TotalWorkedMilliseconds(cs) >= scanned
  {
    var cs := CandidateDurations(stats, scanned);
    assert Some(scanned) in cs;
  }

  /** A finite, non-negative `totalHours` bounds the total from below. */
  lemma TotalCoversTotalHours(stats: TimeReportStats, scanned: real)
    requires stats.totalHours.Some? && stats.totalHours.value >= 0.0
    ensures TotalWorkedMilliseconds(CandidateDurations(Some(stats), scanned)) >= stats.totalHours.value * 3600000.0
  {
    var cs := CandidateDurations(Some(stats), scanned);
    assert cs[0] == Some(stats.totalHours.value * 3600000.0);
  }

  /** A negative stat is dropped, not clamped: it never drags the total below the others. */
  lemma NegativeCandidateIgnored(cs: seq<Option<real>>, x: real)
    requires x < 0.0
    ensures TotalWorkedMilliseconds(cs + [Some(x)]) == TotalWorkedMilliseconds(cs)
  {
    var a := TotalWorkedMilliseconds(cs + [Some(x)]);
    var b := TotalWorkedMilliseconds(cs);
    assert forall y :: Some(y) in cs + [Some(x)] && y >= 0.0 <==> Some(y) in cs && y >= 0.0;
  }

  // ----------------------------------------------------- formatDuration

  /**
   * The whole hours and leftover minutes `formatDuration` shows: the duration
   * rounded down to the minute; nothing for a non-finite (`None`) or
   * non-positive input.
   */
  function DurationParts(ms: Option<real>): (p: (nat, nat))
    ensures p.1 < 60
    ensures ms.None? || ms.value <= 0.0 ==> p == (0, 0)
    ensures ms.Some? && ms.value > 0.0 ==> p.0 * 60 + p.1 == (ms.value / 60000.0).Floor
    ensures ms.Some? && ms.value > 0.0 ==>
            (p.0 * 60 + p.1) as real * 60000.0 <= ms.value < (p.0 * 60 + p.1 + 1) as real * 60000.0
  {
    if ms.None? || ms.value <= 0.0 then (0, 0)
    else
      var totalMinutes := (ms.value / (1000.0 * 60.0)).Floor;
      (totalMinutes / 60, totalMinutes % 60)
  }

  /** `formatDuration`: `"<hours>h <minutes>m"`. */
  function FormatDuration(ms: Option<real>): (s: string)
    ensures ms.None? || ms.value <= 0.0 ==> s == "0h 0m"
  {
    var (hours, minutes) := DurationParts(ms);
    NatToString(hours) + ("h " + (NatToString(minutes) + "m"))
  }

  /** Two digit strings followed by texts that start with a non-digit split the same way. */
  lemma SplitAfterDigits(x1: string, y1: string, x2: string, y2: string)
    requires AllDigits(x1) && AllDigits(x2) && x1 + y1 == x2 + y2
    requires y1 != [] && !IsDigit(y1[0]) && y2 != [] && !IsDigit(y2[0])
    ensures x1 == x2 && y1 == y2
  {
    assert x1 + y1 == x1 + [y1[0]] + y1[1..];
    assert x2 + y2 == x2 + [y2[0]] + y2[1..];
    DurationString.DigitRunOfDesignated(x1, y1[0], y1[1..]);
    DurationString.DigitRunOfDesignated(x2, y2[0], y2[1..]);
    assert x1 == (x1 + y1)[..|x1|] && x2 == (x2 + y2)[..|x2|];
    assert y1 == (x1 + y1)[|x1|..] && y2 == (x2 + y2)[|x2|..];
  }

  /** An "<h>h <m>m" text determines its two numbers. */
  lemma SplitFormatted(h1: nat, m1: nat, h2: nat, m2: nat)
    requires NatToString(h1) + ("h " + (NatToString(m1) + "m")) == NatToString(h2) + ("h " + (NatToString(m2) + "m"))
    ensures h1 == h2 && m1 == m2
  {
    var y1 := "h " + (NatToString(m1) + "m");
    var y2 := "h " + (NatToString(m2) + "m");
    SplitAfterDigits(NatToString(h1), y1, NatToString(h2), y2);
    assert NatToString(m1) + "m" == y1[2..] && NatToString(m2) + "m" == y2[2..];
    SplitAfterDigits(NatToString(m1), "m", NatToString(m2), "m");
    DecimalValueOfNatToString(h1);
    DecimalValueOfNatToString(h2);
    DecimalValueOfNatToString(m1);
    DecimalValueOfNatToString(m2);
  }

  /** The rendered text determines the hours and minutes it shows. */
  lemma FormatDurationInjective(a: Option<real>, b: Option<real>)
    requires FormatDuration(a) == FormatDuration(b)
    ensures DurationParts(a) == DurationParts(b)
  {
    var (h1, m1) := DurationParts(a);
    var (h2, m2) := DurationParts(b);
    SplitFormatted(h1, m1, h2, m2);
  }

  /** 9,000,000 ms is two and a half hours. */
  lemma HalfPastTwoFormatExample()
    ensures DurationParts(Some(9000000.0)) == (2, 30)
  {
  }
}
