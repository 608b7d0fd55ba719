/**
 * The key-name rules that decide in which unit a number found under a key is
 * read, and the unit conversion to milliseconds (teamLogger.js, lines 39-68).
 *
 * Each source rule is a case-insensitive regular expression of the form
 * `A.*B.*C` whose parts are alternations of literal words. It is modelled as a
 * sequence of groups of lower-case words: the key, ASCII-lower-cased, must
 * contain a word of each group in order, and because `.` does not match a line
 * terminator, no line terminator may lie between them. ASCII lower-casing is
 * exactly the case-insensitivity of a non-unicode JavaScript regular
 * expression whose literals are ASCII letters.
 */
module DurationRules {
  import opened Wrappers
  import opened Text

  datatype Unit = Milliseconds | Seconds | Minutes | Hours

  /** Milliseconds in one `unit`. */
  function UnitMilliseconds(unit: Unit): (f: real)
    ensures f >= 1.0
  {
    match unit
    case Milliseconds => 1.0
    case Seconds => 1000.0
    case Minutes => 60.0 * 1000.0
    case Hours => 60.0 * 60.0 * 1000.0
  }

  /** `toMilliseconds(value, unit)`: a reading in `unit` as milliseconds. */
  function ToMilliseconds(value: real, unit: Unit): (r: real)
    ensures r >= 0.0 <==> value >= 0.0
    ensures value >= 0.0 ==> r >= value
    ensures r / UnitMilliseconds(unit) == value
  {
    value * UnitMilliseconds(unit)
  }

  /** Larger readings in the same unit give larger millisecond values. */
  lemma ToMillisecondsMonotone(a: real, b: real, unit: Unit)
    requires a <= b
    ensures ToMilliseconds(a, unit) <= ToMilliseconds(b, unit)
  {
  }

  datatype KeyRule = KeyRule(groups: seq<seq<string>>, unit: Unit)

  /** `DURATION_KEY_PATTERNS`, in priority order. */
  const Rules: seq<KeyRule> := [
    KeyRule([["total"], ["work", "track"], ["millisecond", "ms"]], Milliseconds),
    KeyRule([["total"], ["work", "track"], ["second", "sec"]], Seconds),
    KeyRule([["total"], ["work", "track"], ["minute", "min"]], Minutes),
    KeyRule([["total"], ["work", "track"], ["hour", "hr"]], Hours),
    KeyRule([["worked", "tracked"], ["millisecond"]], Milliseconds),
    KeyRule([["worked", "tracked"], ["second"]], Seconds),
    KeyRule([["worked", "tracked"], ["minute"]], Minutes),
    KeyRule([["worked", "tracked"], ["hour"]], Hours)
  ]

  predicate OccursAt(s: string, w: string, i: nat) {
    i + |w| <= |s| && s[i..i + |w|] == w
  }

  predicate NoLineTerminator(s: string) {
    forall k :: 0 <= k < |s| ==> !IsLineTerminator(s[k])
  }

  /**
   * A word of each group occurs in `s`, in order, the first at or after `from`,
   * with no line terminator between `from` and the last word.
   */
  predicate MatchesFrom(s: string, groups: seq<seq<string>>, from: nat)
    requires from <= |s|
    decreases |groups|
  {
    || groups == []
    || exists i, w | from <= i <= |s| && w in groups[0] ::
         OccursAt(s, w, i) && NoLineTerminator(s[from..i]) && MatchesFrom(s, groups[1..], i + |w|)
  }

  /** `rule.regex.test(key)`. */
  predicate RuleMatches(rule: KeyRule, key: string) {
    var s := LowerAscii(key);
    exists start | 0 <= start <= |s| :: MatchesFrom(s, rule.groups, start)
  }

  /** The index of the first rule of `rules` (from `k` on) that matches `key`. */
  function FirstMatchFrom(rules: seq<KeyRule>, key: string, k: nat): (r: Option<nat>)
    requires k <= |rules|
    ensures r.Some? ==> k <= r.value < |rules| && RuleMatches(rules[r.value], key)
    ensures r.Some? ==> forall j :: k <= j < r.value ==> !RuleMatches(rules[j], key)
    ensures r.None? ==> forall j :: k <= j < |rules| ==> !RuleMatches(rules[j], key)
    decreases |rules| - k
  {
    if k == |rules| then None
    else if RuleMatches(rules[k], key) then Some(k)
    else FirstMatchFrom(rules, key, k + 1)
  }

  /**
   * The unit of the first rule, in priority order, whose pattern matches `key`
   * (the source's `for (const pattern of DURATION_KEY_PATTERNS)` search).
   */
  function UnitForKey(key: string): (u: Option<Unit>)
    ensures u.None? <==> forall j :: 0 <= j < |Rules| ==> !RuleMatches(Rules[j], key)
    ensures u.Some? ==> exists k :: 0 <= k < |Rules| && RuleMatches(Rules[k], key) && Rules[k].unit == u.value
                                   && forall j :: 0 <= j < k ==> !RuleMatches(Rules[j], key)
  {
    match FirstMatchFrom(Rules, key, 0)
    case Some(k) => Some(Rules[k].unit)
    case None => None
  }

  /**
   * If every word of one group contains a character the lower-cased key lacks,
   * the groups cannot match.
   */
  lemma {:induction false} MissingCharacterBlocks(s: string, groups: seq<seq<string>>, from: nat, g: nat, c: char)
    requires from <= |s| && g < |groups|
    requires forall w :: w in groups[g] ==> c in w
    requires c !in s
    ensures !MatchesFrom(s, groups, from)
    decreases |groups|
  {
    if MatchesFrom(s, groups, from) {
      var i, w :| from <= i <= |s| && w in groups[0] &&
        OccursAt(s, w, i) && NoLineTerminator(s[from..i]) && MatchesFrom(s, groups[1..], i + |w|);
      if g > 0 {
        MissingCharacterBlocks(s, groups[1..], i + |w|, g - 1, c);
      }
    }
  }

  /** One step of a match: a word of the first group at `i`, then the rest. */
  lemma MatchStep(s: string, groups: seq<seq<string>>, from: nat, i: nat, w: string)
    requires from <= i <= |s| && groups != [] && w in groups[0]
    requires OccursAt(s, w, i) && NoLineTerminator(s[from..i])
    requires MatchesFrom(s, groups[1..], i + |w|)
    ensures MatchesFrom(s, groups, from)
  {
  }

  /** Every rule's words are non-empty, so no rule matches the empty key. */
  lemma {:induction false} NothingMatchesEmpty(groups: seq<seq<string>>)
    requires groups != [] && forall w :: w in groups[0] ==> w != ""
    ensures !MatchesFrom("", groups, 0)
  {
  }

  /** No rule matches the empty key, so a number at the top level contributes nothing. */
  lemma NoRuleMatchesEmptyKey()
    ensures UnitForKey("") == None
  {
    assert LowerAscii("") == "";
    forall j | 0 <= j < |Rules|
      ensures !RuleMatches(Rules[j], "")
    {
      NothingMatchesEmpty(Rules[j].groups);
    }
  }

  /** The first rule, in priority order, that matches a key decides its unit. */
  lemma RuleDecides(key: string, k: nat)
    requires k < |Rules| && RuleMatches(Rules[k], key)
    requires forall j :: 0 <= j < k ==> !RuleMatches(Rules[j], key)
    ensures UnitForKey(key) == Some(Rules[k].unit)
  {
  }

  /** `totalTrackedMilliseconds` is read in milliseconds (the first rule). */
  lemma TotalTrackedMillisecondsKey()
    ensures UnitForKey("totalTrackedMilliseconds") == Some(Milliseconds)
  {
    LowerTotalTracked();
    TotalTrackedMatches();
    assert RuleMatches(Rules[0], "totalTrackedMilliseconds");
    RuleDecides("totalTrackedMilliseconds", 0);
  }

  lemma LowerTotalTracked()
    ensures LowerAscii("totalTrackedMilliseconds") == "totaltrackedmilliseconds"
  {
  }

  lemma TotalTrackedMatches()
    ensures MatchesFrom("totaltrackedmilliseconds", Rules[0].groups, 0)
  {
    var s := "totaltrackedmilliseconds";
    var groups := Rules[0].groups;
    assert groups == [["total"], ["work", "track"], ["millisecond", "ms"]];
    assert MatchesFrom(s, groups[3..], 23);
    assert s[12..23] == "millisecond";
    MatchStep(s, groups[2..], 12, 12, "millisecond");
    assert s[5..10] == "track";
    MatchStep(s, groups[1..], 5, 5, "track");
    assert s[0..5] == "total";
    MatchStep(s, groups, 0, 0, "total");
  }

  /** `spanHours` matches no rule: it has neither `total` nor `worked`/`tracked`. */
  lemma SpanHoursKey()
    ensures UnitForKey("spanHours") == None
  {
    var s := "spanhours";
    assert LowerAscii("spanHours") == s;
    forall j, start | 0 <= j < |Rules| && 0 <= start <= |s|
      ensures !MatchesFrom(s, Rules[j].groups, start)
    {
      MissingCharacterBlocks(s, Rules[j].groups, start, 0, if j < 4 then 'l' else 'k');
    }
  }

  lemma LowerTrackedHours(key: string)
    requires key == "trackedHours"
    ensures LowerAscii(key) == "trackedhours"
  {
  }

  /** `trackedHours` has no `l`, so none of the `total…` rules matches it. */
  lemma TrackedHoursSkipsTotalRules(key: string, j: nat)
    requires key == "trackedHours" && j < 4
    ensures !RuleMatches(Rules[j], key)
  {
    var s := LowerAscii(key);
    LowerTrackedHours(key);
    forall start | 0 <= start <= |s|
      ensures !MatchesFrom(s, Rules[j].groups, start)
    {
      MissingCharacterBlocks(s, Rules[j].groups, start, 0, 'l');
    }
  }

  /** `trackedHours` has no `n`, so no millisecond, second or minute rule matches it. */
  lemma TrackedHoursSkipsSmallerUnits(key: string, j: nat)
    requires key == "trackedHours" && 4 <= j < 7
    ensures !RuleMatches(Rules[j], key)
  {
    var s := LowerAscii(key);
    LowerTrackedHours(key);
    forall start | 0 <= start <= |s|
      ensures !MatchesFrom(s, Rules[j].groups, start)
    {
      MissingCharacterBlocks(s, Rules[j].groups, start, 1, 'n');
    }
  }

  /** `trackedHours` is read in hours: the last rule is the first that matches. */
  lemma TrackedHoursKey()
    ensures UnitForKey("trackedHours") == Some(Hours)
  {
    var key := "trackedHours";
    forall j | 0 <= j < 7
      ensures !RuleMatches(Rules[j], key)
    {
      if j < 4 {
        TrackedHoursSkipsTotalRules(key, j);
      } else {
        TrackedHoursSkipsSmallerUnits(key, j);
      }
    }
    assert RuleMatches(Rules[7], key) by {
      LowerTrackedHours(key);
      TrackedHoursMatches();
    }
    RuleDecides(key, 7);
  }

  lemma TrackedHoursMatches()
    ensures MatchesFrom("trackedhours", Rules[7].groups, 0)
  {
    var s := "trackedhours";
    var groups := Rules[7].groups;
    assert groups == [["worked", "tracked"], ["hour"]];
    assert MatchesFrom(s, groups[2..], 11);
    assert s[7..11] == "hour";
    MatchStep(s, groups[1..], 7, 7, "hour");
    assert s[0..7] == "tracked";
    MatchStep(s, groups, 0, 0, "tracked");
  }
}
