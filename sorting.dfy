/**
 * The two sorts the checker performs: `list.sort()` on the
 * `(id, is_ok)` outcomes and `sorted(set)` on invalid repository ids.
 */
module Sorting {
  import opened Seqs
  import opened Ordering

  // ---------------------------------------------------------------------
  // list.sort() on outcomes

  ghost predicate SortedOutcomes(s: seq<Outcome>)
  {
    forall i, j :: 0 <= i < j < |s| ==> OutcomeLessEq(s[i], s[j])
  }

  /** Insert `x` into `s` in front of the first element not smaller than it. */
  function Insert(x: Outcome, s: seq<Outcome>): (r: seq<Outcome>)
    ensures |r| == |s| + 1
  {
    if s == [] then [x]
    else if OutcomeLessEq(x, s[0]) then [x] + s
    else [s[0]] + Insert(x, s[1..])
  }

  /**
   * The outcomes in ascending order, as `data.sort()` leaves them: sorted,
   * and holding every outcome with its multiplicity.
   */
  function SortOutcomes(s: seq<Outcome>): (r: seq<Outcome>)
    ensures |r| == |s|
  {
    if s == [] then [] else Insert(s[0], SortOutcomes(s[1..]))
  }

  /** `SortOutcomes` sorts, and keeps every outcome with its multiplicity. */
  lemma {:induction false} SortOutcomesCorrect(s: seq<Outcome>)
    ensures SortedOutcomes(SortOutcomes(s))
    ensures multiset(SortOutcomes(s)) == multiset(s)
  {
    if s != [] {
      var rest := SortOutcomes(s[1..]);
      SortOutcomesCorrect(s[1..]);
      InsertSorted(s[0], rest);
      InsertPermutes(s[0], rest);
      assert s == [s[0]] + s[1..];
    }
  }

  lemma {:induction false} InsertPermutes(x: Outcome, s: seq<Outcome>)
    ensures multiset(Insert(x, s)) == multiset(s) + multiset{x}
  {
    if s != [] && !OutcomeLessEq(x, s[0]) {
      InsertPermutes(x, s[1..]);
      assert s == [s[0]] + s[1..];
    }
  }

  lemma {:induction false} InsertSorted(x: Outcome, s: seq<Outcome>)
    requires SortedOutcomes(s)
    ensures SortedOutcomes(Insert(x, s))
  {
    if s == [] {
    } else if OutcomeLessEq(x, s[0]) {
      var r := [x] + s;
      forall i, j | 0 <= i < j < |r| ensures OutcomeLessEq(r[i], r[j]) {
        if i == 0 && j > 1 {
          OutcomeTransitive(x, s[0], s[j - 1]);
        }
      }
    } else {
      var t := s[1..];
      assert SortedOutcomes(t);
      InsertSorted(x, t);
      InsertPermutes(x, t);
      OutcomeTotal(x, s[0]);
      var rest := Insert(x, t);
      var r := [s[0]] + rest;
      forall j | 0 < j < |r| ensures OutcomeLessEq(s[0], r[j]) {
        var y := rest[j - 1];
        assert y in multiset(rest);
        if y != x {
          assert y in multiset(t);
          var k :| 0 <= k < |t| && t[k] == y;
          assert s[k + 1] == y;
        }
      }
    }
  }

  lemma SortedHeadIsLeast(s: seq<Outcome>, y: Outcome)
    requires SortedOutcomes(s) && y in multiset(s)
    ensures OutcomeLessEq(s[0], y)
  {
  }

  /** There is only one sorted arrangement of a multiset of outcomes. */
  lemma {:induction false} SortedUnique(a: seq<Outcome>, b: seq<Outcome>)
    requires SortedOutcomes(a) && SortedOutcomes(b)
    requires multiset(a) == multiset(b)
    ensures a == b
  {
    if a != [] {
      assert |b| > 0 by {
        assert a[0] in multiset(a);
      }
      assert a[0] in multiset(a) && b[0] in multiset(b);
      SortedHeadIsLeast(a, b[0]);
      SortedHeadIsLeast(b, a[0]);
      OutcomeAntisymmetric(a[0], b[0]);
      assert a[0] == b[0];
      assert a == [a[0]] + a[1..] && b == [b[0]] + b[1..];
      assert multiset(a) == multiset{a[0]} + multiset(a[1..]);
      assert multiset(b) == multiset{b[0]} + multiset(b[1..]);
      assert multiset(a[1..]) == multiset(a) - multiset{a[0]};
      assert multiset(b[1..]) == multiset(b) - multiset{b[0]};
      assert SortedOutcomes(a[1..]);
      assert SortedOutcomes(b[1..]);
      SortedUnique(a[1..], b[1..]);
    } else {
      assert |b| == |multiset(b)|;
    }
  }

  /** Sorting depends only on which outcomes there are, not on the order they arrive in. */
  lemma SortOutcomesOrderIndependent(a: seq<Outcome>, b: seq<Outcome>)
    requires multiset(a) == multiset(b)
    ensures SortOutcomes(a) == SortOutcomes(b)
  {
    SortOutcomesCorrect(a);
    SortOutcomesCorrect(b);
    SortedUnique(SortOutcomes(a), SortOutcomes(b));
  }

  // ---------------------------------------------------------------------
  // sorted(set(...)) on repository ids

  ghost predicate StrictlySorted(s: seq<string>)
  {
    forall i, j :: 0 <= i < j < |s| ==> Less(s[i], s[j])
  }

  /** Insert `x` into the strictly sorted `s` unless it is already there. */
  function InsertNew(x: string, s: seq<string>): seq<string>
  {
    if s == [] then [x]
    else if x == s[0] then s
    else if Less(x, s[0]) then [x] + s
    else [s[0]] + InsertNew(x, s[1..])
  }

  /** `sorted(set(s))`: each distinct element of `s` once, in strictly ascending order. */
  function SortedDistinct(s: seq<string>): (r: seq<string>)
    ensures StrictlySorted(r)
    ensures Elems(r) == Elems(s)
  {
    if s == [] then []
    else
      var rest := SortedDistinct(s[1..]);
      InsertNewSorted(s[0], rest);
      InsertNewElems(s[0], rest);
      assert s == [s[0]] + s[1..];
      ElemsCons(s[0], s[1..]);
      InsertNew(s[0], rest)
  }

  lemma {:induction false} InsertNewElems(x: string, s: seq<string>)
    ensures Elems(InsertNew(x, s)) == Elems(s) + {x}
  {
    if s != [] && x != s[0] && !Less(x, s[0]) {
      var t := s[1..];
      InsertNewElems(x, t);
      forall y ensures y in InsertNew(x, s) <==> y in s || y == x {
        assert y in Elems(InsertNew(x, t)) <==> y in Elems(t) || y == x;
        assert y in s <==> y == s[0] || y in t;
      }
    }
  }

  lemma {:induction false} InsertNewSorted(x: string, s: seq<string>)
    requires StrictlySorted(s)
    ensures StrictlySorted(InsertNew(x, s))
  {
    if s == [] {
    } else if x == s[0] {
    } else if Less(x, s[0]) {
      var r := [x] + s;
      forall i, j | 0 <= i < j < |r| ensures Less(r[i], r[j]) {
        if i == 0 && j > 1 {
          LessTransitive(x, s[0], s[j - 1]);
        }
      }
    } else {
      var t := s[1..];
      assert StrictlySorted(t);
      InsertNewSorted(x, t);
      InsertNewElems(x, t);
      LessTotal(x, s[0]);
      var rest := InsertNew(x, t);
      forall j | 0 <= j < |rest| ensures Less(s[0], rest[j]) {
        var y := rest[j];
        assert y in Elems(rest);
        if y != x {
          var k :| 0 <= k < |t| && t[k] == y;
          assert s[k + 1] == y;
        }
      }
      var r := [s[0]] + rest;
      forall i, j | 0 <= i < j < |r| ensures Less(r[i], r[j]) {
        if i > 0 {
          assert r[i] == rest[i - 1] && r[j] == rest[j - 1];
        } else {
          assert r[j] == rest[j - 1];
        }
      }
    }
  }

  lemma StrictHeadIsLeast(s: seq<string>, y: string)
    requires StrictlySorted(s) && y in s
    ensures LessEq(s[0], y)
  {
  }

  /** A set of strings has only one strictly ascending listing. */
  lemma {:induction false} StrictlySortedUnique(a: seq<string>, b: seq<string>)
    requires StrictlySorted(a) && StrictlySorted(b)
    requires Elems(a) == Elems(b)
    ensures a == b
  {
    if a != [] {
      assert a[0] in Elems(b);
      assert b[0] in Elems(a);
      StrictHeadIsLeast(a, b[0]);
      StrictHeadIsLeast(b, a[0]);
      if a[0] != b[0] {
        LessAsymmetric(a[0], b[0]);
      }
      var ta, tb := a[1..], b[1..];
      assert StrictlySorted(ta) && StrictlySorted(tb);
      forall y | y in ta ensures y in tb {
        var k :| 0 <= k < |ta| && ta[k] == y;
        assert a[k + 1] == y && Less(a[0], y);
        assert y in Elems(b);
        var m :| 0 <= m < |b| && b[m] == y;
        if m == 0 {
          LessIrreflexive(y);
        }
        assert tb[m - 1] == y;
      }
      forall y | y in tb ensures y in ta {
        var k :| 0 <= k < |tb| && tb[k] == y;
        assert b[k + 1] == y && Less(b[0], y);
        assert y in Elems(a);
        var m :| 0 <= m < |a| && a[m] == y;
        if m == 0 {
          LessIrreflexive(y);
        }
        assert ta[m - 1] == y;
      }
      assert Elems(ta) == Elems(tb);
      StrictlySortedUnique(ta, tb);
      assert a == [a[0]] + ta && b == [b[0]] + tb;
    } else {
      ElemsEmpty(a);
      ElemsEmpty(b);
    }
  }
}
