/**
 * Python's ordering of the values the checker sorts: `str` compared
 * lexicographically by character (a proper prefix first), and the
 * `(repository id, is ok)` tuples compared component by component,
 * with `False < True`.
 */
module Ordering {

  /** Python's `a < b` on strings. */
  predicate Less(a: string, b: string)
    decreases |a|
  {
    if |a| == 0 then |b| > 0
    else |b| > 0 && (a[0] < b[0] || (a[0] == b[0] && Less(a[1..], b[1..])))
  }

  /** Python's `a <= b` on strings. */
  predicate LessEq(a: string, b: string)
  {
    a == b || Less(a, b)
  }

  lemma {:induction false} LessIrreflexive(a: string)
    ensures !Less(a, a)
  {
    if |a| > 0 {
      LessIrreflexive(a[1..]);
    }
  }

  lemma {:induction false} LessAsymmetric(a: string, b: string)
    requires Less(a, b)
    ensures !Less(b, a)
  {
    if |a| > 0 && a[0] == b[0] && Less(a[1..], b[1..]) {
      LessAsymmetric(a[1..], b[1..]);
    }
  }

  lemma {:induction false} LessTransitive(a: string, b: string, c: string)
    requires Less(a, b) && Less(b, c)
    ensures Less(a, c)
  {
    if |a| > 0 && a[0] == b[0] && b[0] == c[0] {
      LessTransitive(a[1..], b[1..], c[1..]);
    }
  }

  /** Any two strings are equal or ordered one way or the other. */
  lemma {:induction false} LessTotal(a: string, b: string)
    ensures a == b || Less(a, b) || Less(b, a)
  {
    if |a| > 0 && |b| > 0 && a[0] == b[0] {
      LessTotal(a[1..], b[1..]);
      if a[1..] == b[1..] {
        assert a == [a[0]] + a[1..] && b == [b[0]] + b[1..];
      }
    }
  }

  /** One checked repository: its id and whether it is reachable. */
  type Outcome = (string, bool)

  /** Python's `<` on `(str, bool)` tuples. */
  predicate OutcomeLess(p: Outcome, q: Outcome)
  {
    Less(p.0, q.0) || (p.0 == q.0 && !p.1 && q.1)
  }

  /** Python's `<=` on `(str, bool)` tuples. */
  predicate OutcomeLessEq(p: Outcome, q: Outcome)
  {
    p == q || OutcomeLess(p, q)
  }

  lemma OutcomeTotal(p: Outcome, q: Outcome)
    ensures OutcomeLessEq(p, q) || OutcomeLessEq(q, p)
  {
    LessTotal(p.0, q.0);
  }

  lemma OutcomeAntisymmetric(p: Outcome, q: Outcome)
    requires OutcomeLessEq(p, q) && OutcomeLessEq(q, p)
    ensures p == q
  {
    if Less(p.0, q.0) {
      LessAsymmetric(p.0, q.0);
      LessIrreflexive(q.0);
    } else if Less(q.0, p.0) {
      LessAsymmetric(q.0, p.0);
      LessIrreflexive(p.0);
    }
  }

  lemma OutcomeTransitive(p: Outcome, q: Outcome, r: Outcome)
    requires OutcomeLessEq(p, q) && OutcomeLessEq(q, r)
    ensures OutcomeLessEq(p, r)
  {
    if p != q && q != r {
      if Less(p.0, q.0) && Less(q.0, r.0) {
        LessTransitive(p.0, q.0, r.0);
      }
    }
  }
}
