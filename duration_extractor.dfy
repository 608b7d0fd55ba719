/**
 * `findBestDurationCandidate` (teamLogger.js, lines 94-141): a walk over a
 * report payload that folds every duration it recognises into a running
 * maximum with `Math.max`.
 *
 * The walk is specified against an independent reference: the set of
 * candidate durations of a payload (Candidates). The walk returns the least
 * value that is at least the starting best and at least every candidate, so
 * the order in which array elements and object entries are visited does not
 * matter.
 *
 * `parseFloat` is not modelled; it is a parameter, `None` standing for `NaN`.
 */
module DurationExtractor {
  import opened Wrappers
  import opened Json
  import opened DurationRules
  import opened DurationString

  /** `Math.max(a, b)` on finite numbers. */
  function Max(a: real, b: real): (m: real)
    ensures m >= a && m >= b && (m == a || m == b)
  {
    if a >= b then a else b
  }

  /**
   * What one leaf under `key` contributes. A number is read in the unit of the
   * first rule matching its key, and contributes nothing when none matches. A
   * string under a matching key that `parseFloat` can read is read the same
   * way; any other string contributes its value as a duration string, if it is
   * one. Null, booleans, arrays and objects are not leaves.
   */
  function LeafCandidate(v: Json, key: string, parseFloat: string -> Option<real>): Option<real> {
    match v
    case Num(n) =>
      (match UnitForKey(key)
       case Some(unit) => Some(ToMilliseconds(n, unit))
       case None => None)
    case Str(s) =>
      var unit := UnitForKey(key);
      if unit.Some? && parseFloat(s).Some? then Some(ToMilliseconds(parseFloat(s).value, unit.value))
      else
        (match ParseDurationString(s)
         case Some(ms) => Some(ms as real)
         case None => None)
    case _ => None
  }

  /**
   * `findBestDurationCandidate(v, best, path)` where `key` is the last element
   * of `path`, or `""` when `path` is empty. Array elements inherit the key of
   * the array; object entries carry their own.
   */
  function FindBestDurationCandidate(v: Json, best: real, key: string, parseFloat: string -> Option<real>): (r: real)
    ensures r >= best
    decreases v
  {
    match v
    case Arr(elems) => FoldElements(elems, best, key, parseFloat)
    case Obj(members) => FoldMembers(members, best, parseFloat)
    case _ =>
      (match LeafCandidate(v, key, parseFloat)
       case Some(c) => Max(c, best)
       case None => best)
  }

  /** `value.reduce((best, item) => findBestDurationCandidate(item, best, path), currentBest)`. */
  function FoldElements(elems: seq<Json>, best: real, key: string, parseFloat: string -> Option<real>): (r: real)
    ensures r >= best
    decreases elems
  {
    if elems == [] then best
    else FoldElements(elems[1..], FindBestDurationCandidate(elems[0], best, key, parseFloat), key, parseFloat)
  }

  /** `Object.entries(value).reduce(..., currentBest)`, each entry under its own key. */
  function FoldMembers(members: seq<Member>, best: real, parseFloat: string -> Option<real>): (r: real)
    ensures r >= best
    decreases members
  {
    if members == [] then best
    else FoldMembers(members[1..],
                     FindBestDurationCandidate(members[0].value, best, members[0].key, parseFloat), parseFloat)
  }

  /** The whole-payload scan as the fetch pipeline calls it: from 0, with an empty path. */
  function ScanPayload(payload: Json, parseFloat: string -> Option<real>): (r: real)
    ensures r >= 0.0
  {
    FindBestDurationCandidate(payload, 0.0, "", parseFloat)
  }

  // ---------------------------------------------------------------- reference

  /** Every duration the payload offers, each leaf read under its own key. */
  ghost function Candidates(v: Json, key: string, parseFloat: string -> Option<real>): set<real>
    decreases v
  {
    match v
    case Arr(elems) => ElementCandidates(elems, key, parseFloat)
    case Obj(members) => MemberCandidates(members, parseFloat)
    case _ =>
      (match LeafCandidate(v, key, parseFloat)
       case Some(c) => {c}
       case None => {})
  }

  ghost function ElementCandidates(elems: seq<Json>, key: string, parseFloat: string -> Option<real>): set<real>
    decreases elems
  {
    if elems == [] then {} else Candidates(elems[0], key, parseFloat) + ElementCandidates(elems[1..], key, parseFloat)
  }

  ghost function MemberCandidates(members: seq<Member>, parseFloat: string -> Option<real>): set<real>
    decreases members
  {
    if members == [] then {}
    else Candidates(members[0].value, members[0].key, parseFloat) + MemberCandidates(members[1..], parseFloat)
  }

  /** `r` is the least upper bound of `best` and every candidate in `cs`. */
  ghost predicate IsBest(r: real, best: real, cs: set<real>) {
    r >= best && (forall c :: c in cs ==> r >= c) && (r == best || r in cs)
  }

  lemma BestIsUnique(r1: real, r2: real, best: real, cs: set<real>)
    requires IsBest(r1, best, cs) && IsBest(r2, best, cs)
    ensures r1 == r2
  {
  }

  lemma {:induction false} BestOfUnion(r1: real, r2: real, best: real, cs1: set<real>, cs2: set<real>)
    requires IsBest(r1, best, cs1) && IsBest(r2, r1, cs2)
    ensures IsBest(r2, best, cs1 + cs2)
  {
  }

  /** The walk returns exactly the maximum of the starting best and all candidates. */
  lemma {:induction false} WalkIsBest(v: Json, best: real, key: string, parseFloat: string -> Option<real>)
    ensures IsBest(FindBestDurationCandidate(v, best, key, parseFloat), best, Candidates(v, key, parseFloat))
    decreases v
  {
    match v
    case Arr(elems) => ElementsAreBest(elems, best, key, parseFloat);
    case Obj(members) => MembersAreBest(members, best, parseFloat);
    case _ =>
  }

  lemma {:induction false} ElementsAreBest(elems: seq<Json>, best: real, key: string, parseFloat: string -> Option<real>)
    ensures IsBest(FoldElements(elems, best, key, parseFloat), best, ElementCandidates(elems, key, parseFloat))
    decreases elems
  {
    if elems != [] {
      var mid := FindBestDurationCandidate(elems[0], best, key, parseFloat);
      WalkIsBest(elems[0], best, key, parseFloat);
      ElementsAreBest(elems[1..], mid, key, parseFloat);
      BestOfUnion(mid, FoldElements(elems, best, key, parseFloat), best,
                  Candidates(elems[0], key, parseFloat), ElementCandidates(elems[1..], key, parseFloat));
    }
  }

  lemma {:induction false} MembersAreBest(members: seq<Member>, best: real, parseFloat: string -> Option<real>)
    ensures IsBest(FoldMembers(members, best, parseFloat), best, MemberCandidates(members, parseFloat))
    decreases members
  {
    if members != [] {
      var m := members[0];
      var mid := FindBestDurationCandidate(m.value, best, m.key, parseFloat);
      WalkIsBest(m.value, best, m.key, parseFloat);
      MembersAreBest(members[1..], mid, parseFloat);
      BestOfUnion(mid, FoldMembers(members, best, parseFloat), best,
                  Candidates(m.value, m.key, parseFloat), MemberCandidates(members[1..], parseFloat));
    }
  }

  /** A candidate of the elements is a candidate of one of them, and conversely. */
  lemma {:induction false} ElementCandidatesMembership(elems: seq<Json>, key: string, parseFloat: string -> Option<real>, c: real)
    ensures c in ElementCandidates(elems, key, parseFloat) <==> exists e :: e in elems && c in Candidates(e, key, parseFloat)
    decreases elems
  {
    if elems != [] {
      ElementCandidatesMembership(elems[1..], key, parseFloat, c);
      if c in Candidates(elems[0], key, parseFloat) {
        assert elems[0] in elems;
      }
      if exists e :: e in elems[1..] && c in Candidates(e, key, parseFloat) {
        var e :| e in elems[1..] && c in Candidates(e, key, parseFloat);
        assert e in elems;
      }
      if exists e :: e in elems && c in Candidates(e, key, parseFloat) {
        var e :| e in elems && c in Candidates(e, key, parseFloat);
        assert e == elems[0] || e in elems[1..];
      }
    }
  }

  lemma {:induction false} MemberCandidatesMembership(members: seq<Member>, parseFloat: string -> Option<real>, c: real)
    ensures c in MemberCandidates(members, parseFloat) <==>
            exists m :: m in members && c in Candidates(m.value, m.key, parseFloat)
    decreases members
  {
    if members != [] {
      MemberCandidatesMembership(members[1..], parseFloat, c);
      if c in Candidates(members[0].value, members[0].key, parseFloat) {
        assert members[0] in members;
      }
      if exists m :: m in members[1..] && c in Candidates(m.value, m.key, parseFloat) {
        var m :| m in members[1..] && c in Candidates(m.value, m.key, parseFloat);
        assert m in members;
      }
      if exists m :: m in members && c in Candidates(m.value, m.key, parseFloat) {
        var m :| m in members && c in Candidates(m.value, m.key, parseFloat);
        assert m == members[0] || m in members[1..];
      }
    }
  }

  /** Reordering (or repeating) the elements of an array does not change the result. */
  lemma ArrayOrderIrrelevant(elems: seq<Json>, elems': seq<Json>, best: real, key: string, parseFloat: string -> Option<real>)
    requires multiset(elems) == multiset(elems')
    ensures FindBestDurationCandidate(Arr(elems), best, key, parseFloat)
         == FindBestDurationCandidate(Arr(elems'), best, key, parseFloat)
  {
    forall c ensures c in ElementCandidates(elems, key, parseFloat) <==> c in ElementCandidates(elems', key, parseFloat) {
      ElementCandidatesMembership(elems, key, parseFloat, c);
      ElementCandidatesMembership(elems', key, parseFloat, c);
      assert forall e :: e in elems <==> e in elems' by {
        forall e ensures e in elems <==> e in elems' {
          assert e in elems <==> e in multiset(elems);
          assert e in elems' <==> e in multiset(elems');
        }
      }
    }
    assert ElementCandidates(elems, key, parseFloat) == ElementCandidates(elems', key, parseFloat);
    ElementsAreBest(elems, best, key, parseFloat);
    ElementsAreBest(elems', best, key, parseFloat);
    BestIsUnique(FoldElements(elems, best, key, parseFloat), FoldElements(elems', best, key, parseFloat),
                 best, ElementCandidates(elems, key, parseFloat));
  }

  /** Visiting object entries in another order (as `Object.entries` may) does not change the result. */
  lemma MemberOrderIrrelevant(members: seq<Member>, members': seq<Member>, best: real, key: string,
                              parseFloat: string -> Option<real>)
    requires multiset(members) == multiset(members')
    ensures FindBestDurationCandidate(Obj(members), best, key, parseFloat)
         == FindBestDurationCandidate(Obj(members'), best, key, parseFloat)
  {
    forall c ensures c in MemberCandidates(members, parseFloat) <==> c in MemberCandidates(members', parseFloat) {
      MemberCandidatesMembership(members, parseFloat, c);
      MemberCandidatesMembership(members', parseFloat, c);
      assert forall m :: m in members <==> m in members' by {
        forall m ensures m in members <==> m in members' {
          assert m in members <==> m in multiset(members);
          assert m in members' <==> m in multiset(members');
        }
      }
    }
    assert MemberCandidates(members, parseFloat) == MemberCandidates(members', parseFloat);
    MembersAreBest(members, best, parseFloat);
    MembersAreBest(members', best, parseFloat);
    BestIsUnique(FoldMembers(members, best, parseFloat), FoldMembers(members', best, parseFloat),
                 best, MemberCandidates(members, parseFloat));
  }

  /** Scanning a payload twice, the second time from the first result, changes nothing. */
  lemma ScanIdempotent(v: Json, key: string, parseFloat: string -> Option<real>)
    ensures FindBestDurationCandidate(v, FindBestDurationCandidate(v, 0.0, key, parseFloat), key, parseFloat)
         == FindBestDurationCandidate(v, 0.0, key, parseFloat)
  {
    var r := FindBestDurationCandidate(v, 0.0, key, parseFloat);
    WalkIsBest(v, 0.0, key, parseFloat);
    WalkIsBest(v, r, key, parseFloat);
    var r2 := FindBestDurationCandidate(v, r, key, parseFloat);
    assert IsBest(r, r, Candidates(v, key, parseFloat));
    BestIsUnique(r2, r, r, Candidates(v, key, parseFloat));
  }

  /** A number at the top level of the payload (empty key) contributes nothing. */
  lemma TopLevelNumberIgnored(n: real, best: real, parseFloat: string -> Option<real>)
    ensures FindBestDurationCandidate(Num(n), best, "", parseFloat) == best
  {
    NoRuleMatchesEmptyKey();
  }

  /** `trackedHours: "02:30:00"` is read by `parseFloat` as 2 hours, not as a duration string. */
  lemma TrackedHoursStringExample(parseFloat: string -> Option<real>)
    requires parseFloat("02:30:00") == Some(2.0)
    ensures LeafCandidate(Str("02:30:00"), "trackedHours", parseFloat) == Some(7200000.0)
  {
    TrackedHoursKey();
  }

  /**
   * `{"totalTrackedMilliseconds": 7200000, "spanHours": 1.5}`: the first key is
   * read in milliseconds, the second matches no rule.
   */
  lemma TrackedMillisecondsExample(parseFloat: string -> Option<real>)
    ensures ScanPayload(Obj([Member("totalTrackedMilliseconds", Num(7200000.0)), Member("spanHours", Num(1.5))]),
                        parseFloat) == 7200000.0
  {
    TotalTrackedMillisecondsKey();
    SpanHoursKey();
    var ms := [Member("totalTrackedMilliseconds", Num(7200000.0)), Member("spanHours", Num(1.5))];
    assert FindBestDurationCandidate(Num(7200000.0), 0.0, "totalTrackedMilliseconds", parseFloat) == 7200000.0;
    assert FindBestDurationCandidate(Num(1.5), 7200000.0, "spanHours", parseFloat) == 7200000.0;
    assert ms[1..][1..] == [];
    assert FoldMembers(ms, 0.0, parseFloat) == FoldMembers(ms[1..], 7200000.0, parseFloat);
  }
}
