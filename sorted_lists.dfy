/**
 * The sorted, duplicate-free lists behind the weekend-day and holiday editors
 * (App.jsx, lines 570-590): removal is `filter`, insertion is
 * `[...prev, x].sort(...)` on a list that is already sorted and lacks `x`.
 */
module SortedLists {

  /** `less` is a strict total order. */
  ghost predicate IsStrictOrder<T(!new)>(less: (T, T) -> bool) {
    && (forall a :: !less(a, a))
    && (forall a, b, c :: less(a, b) && less(b, c) ==> less(a, c))
    && (forall a, b :: a != b ==> less(a, b) || less(b, a))
  }

  /** Strictly increasing, hence free of duplicates. */
  ghost predicate StrictlySorted<T(!new)>(less: (T, T) -> bool, s: seq<T>) {
    forall i, j :: 0 <= i < j < |s| ==> less(s[i], s[j])
  }

  /** `(a, b) => a - b` as the comparator of `sort`. */
  function IntLess(a: int, b: int): bool {
    a < b
  }

  lemma IntLessIsStrictOrder()
    ensures IsStrictOrder(IntLess)
  {
  }

  /**
   * The default `sort` order: strings compared character by character, a proper
   * prefix first.
   */
  function StringLess(a: string, b: string): bool {
    if a == [] then b != []
    else if b == [] then false
    else if a[0] == b[0] then StringLess(a[1..], b[1..])
    else a[0] < b[0]
  }

  lemma {:induction false} StringLessIrreflexive(a: string)
    ensures !StringLess(a, a)
  {
    if a != [] {
      StringLessIrreflexive(a[1..]);
    }
  }

  lemma {:induction false} StringLessTransitive(a: string, b: string, c: string)
    requires StringLess(a, b) && StringLess(b, c)
    ensures StringLess(a, c)
  {
    if a != [] && b != [] && c != [] && a[0] == b[0] && b[0] == c[0] {
      StringLessTransitive(a[1..], b[1..], c[1..]);
    }
  }

  lemma {:induction false} StringLessTotal(a: string, b: string)
    requires a != b
    ensures StringLess(a, b) || StringLess(b, a)
  {
    if a != [] && b != [] && a[0] == b[0] {
      assert a == [a[0]] + a[1..] && b == [b[0]] + b[1..];
      StringLessTotal(a[1..], b[1..]);
    }
  }

  lemma StringLessIsStrictOrder()
    ensures IsStrictOrder(StringLess)
  {
    forall a: string ensures !StringLess(a, a) {
      StringLessIrreflexive(a);
    }
    forall a: string, b: string, c: string | StringLess(a, b) && StringLess(b, c) ensures StringLess(a, c) {
      StringLessTransitive(a, b, c);
    }
    forall a: string, b: string | a != b ensures StringLess(a, b) || StringLess(b, a) {
      StringLessTotal(a, b);
    }
  }

  /** `s.filter((item) => item !== x)`. */
  function Remove<T(==,!new)>(s: seq<T>, x: T): (r: seq<T>)
    ensures forall y :: y in r <==> y in s && y != x
    ensures |r| <= |s|
  {
    if s == [] then []
    else (if s[0] == x then [] else [s[0]]) + Remove(s[1..], x)
  }

  /** Removal keeps the remaining elements in order. */
  lemma {:induction false} RemoveKeepsSorted<T(!new)>(less: (T, T) -> bool, s: seq<T>, x: T)
    requires StrictlySorted(less, s)
    ensures StrictlySorted(less, Remove(s, x))
  {
    if s != [] {
      RemoveKeepsSorted(less, s[1..], x);
      var rest := Remove(s[1..], x);
      forall j | 0 <= j < |rest| ensures less(s[0], rest[j]) {
        assert rest[j] in s[1..];
        var k :| 0 <= k < |s[1..]| && s[1..][k] == rest[j];
        assert s[k + 1] == rest[j];
      }
    }
  }

  /** Removing an absent element changes nothing. */
  lemma {:induction false} RemoveAbsent<T(!new)>(s: seq<T>, x: T)
    requires x !in s
    ensures Remove(s, x) == s
  {
    if s != [] {
      assert s[1..] == s[1..];
      RemoveAbsent(s[1..], x);
      assert s == [s[0]] + s[1..];
    }
  }

  /** The head of a strictly sorted list does not occur again. */
  lemma HeadNotInTail<T(!new)>(less: (T, T) -> bool, s: seq<T>)
    requires IsStrictOrder(less) && StrictlySorted(less, s) && s != []
    ensures s[0] !in s[1..]
  {
    forall k | 0 <= k < |s[1..]| ensures s[1..][k] != s[0] {
      assert less(s[0], s[k + 1]);
    }
  }

  lemma InTail<T(!new)>(s: seq<T>, x: T)
    requires x in s && s[0] != x
    ensures x in s[1..]
  {
    var k :| 0 <= k < |s| && s[k] == x;
    assert s[1..][k - 1] == x;
  }

  /** Removing a listed element from a duplicate-free list shortens it by one. */
  lemma {:induction false} RemoveOne<T(!new)>(less: (T, T) -> bool, s: seq<T>, x: T)
    requires IsStrictOrder(less) && StrictlySorted(less, s) && x in s
    ensures |Remove(s, x)| == |s| - 1
  {
    if s[0] == x {
      HeadNotInTail(less, s);
      RemoveAbsent(s[1..], x);
    } else {
      InTail(s, x);
      RemoveOne(less, s[1..], x);
    }
  }

  /** `[...s, x].sort(...)` on a sorted list without `x`: `x` put in its place. */
  function Insert<T(==,!new)>(less: (T, T) -> bool, s: seq<T>, x: T): (r: seq<T>)
    ensures multiset(r) == multiset(s) + multiset{x}
    ensures |r| == |s| + 1
  {
    if s == [] then [x]
    else if less(x, s[0]) then [x] + s
    else
      var rest := Insert(less, s[1..], x);
      assert s == [s[0]] + s[1..];
      [s[0]] + rest
  }

  lemma {:induction false} InsertKeepsSorted<T(!new)>(less: (T, T) -> bool, s: seq<T>, x: T)
    requires IsStrictOrder(less) && StrictlySorted(less, s) && x !in s
    ensures StrictlySorted(less, Insert(less, s, x))
  {
    if s != [] && !less(x, s[0]) {
      assert x != s[0];
      assert less(s[0], x);
      InsertKeepsSorted(less, s[1..], x);
      var rest := Insert(less, s[1..], x);
      forall j | 0 <= j < |rest| ensures less(s[0], rest[j]) {
        assert rest[j] in multiset(rest);
        assert rest[j] == x || rest[j] in multiset(s[1..]);
        if rest[j] != x {
          var k :| 0 <= k < |s[1..]| && s[1..][k] == rest[j];
          assert s[k + 1] == rest[j];
        }
      }
    }
  }

  /** Inserting then removing an absent element restores the list. */
  lemma {:induction false} RemoveInsert<T(!new)>(less: (T, T) -> bool, s: seq<T>, x: T)
    requires x !in s
    ensures Remove(Insert(less, s, x), x) == s
  {
    if s == [] {
    } else if less(x, s[0]) {
      RemoveAbsent(s, x);
      assert ([x] + s)[1..] == s;
    } else {
      RemoveInsert(less, s[1..], x);
      assert ([s[0]] + Insert(less, s[1..], x))[1..] == Insert(less, s[1..], x);
      assert s == [s[0]] + s[1..];
    }
  }

  /** Removing then re-inserting a listed element of a sorted list restores the list. */
  lemma {:induction false} InsertRemove<T(!new)>(less: (T, T) -> bool, s: seq<T>, x: T)
    requires IsStrictOrder(less) && StrictlySorted(less, s) && x in s
    ensures Insert(less, Remove(s, x), x) == s
  {
    var tail := s[1..];
    assert s == [s[0]] + tail;
    if s[0] == x {
      HeadNotInTail(less, s);
      RemoveAbsent(tail, x);
      assert Remove(s, x) == tail;
      if tail != [] {
        assert less(s[0], s[1]);
      }
    } else {
      InTail(s, x);
      assert less(s[0], x) by {
        var k :| 0 <= k < |tail| && tail[k] == x;
        assert s[k + 1] == x;
      }
      InsertRemove(less, tail, x);
      assert Remove(s, x) == [s[0]] + Remove(tail, x);
    }
  }

  /** `handleToggleWeekend`'s list update: remove when present, else insert in order. */
  function Toggle<T(==,!new)>(less: (T, T) -> bool, s: seq<T>, x: T): (r: seq<T>)
    ensures x in r <==> x !in s
    ensures forall y :: y != x ==> (y in r <==> y in s)
  {
    if x in s then Remove(s, x)
    else
      var r := Insert(less, s, x);
      assert forall y :: y in r <==> y in multiset(r);
      r
  }

  lemma ToggleKeepsSorted<T(!new)>(less: (T, T) -> bool, s: seq<T>, x: T)
    requires IsStrictOrder(less) && StrictlySorted(less, s)
    ensures StrictlySorted(less, Toggle(less, s, x))
  {
    if x in s {
      RemoveKeepsSorted(less, s, x);
    } else {
      InsertKeepsSorted(less, s, x);
    }
  }

  /** Toggling the same element twice restores a sorted list. */
  lemma ToggleTwice<T(!new)>(less: (T, T) -> bool, s: seq<T>, x: T)
    requires IsStrictOrder(less) && StrictlySorted(less, s)
    ensures Toggle(less, Toggle(less, s, x), x) == s
  {
    if x in s {
      InsertRemove(less, s, x);
    } else {
      RemoveInsert(less, s, x);
    }
  }
}
