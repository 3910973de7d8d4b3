/**
 The order in which the grouped tables are sorted: `sort("branch", "year")`,
 branch first. Strings compare lexicographically by code point, which is the
 order of their UTF-8 bytes; a proper prefix comes first.
 */
module KeyOrder {
  import opened Records

  predicate StringLess(a: string, b: string)
    decreases |a|
  {
    if |b| == 0 then false
    else if |a| == 0 then true
    else a[0] < b[0] || (a[0] == b[0] && StringLess(a[1..], b[1..]))
  }

  lemma {:induction false} StringLessIrreflexive(a: string)
    ensures !StringLess(a, a)
  {
    if |a| > 0 {
      StringLessIrreflexive(a[1..]);
    }
  }

  lemma {:induction false} StringLessTransitive(a: string, b: string, c: string)
    requires StringLess(a, b) && StringLess(b, c)
    ensures StringLess(a, c)
  {
    if |a| > 0 && a[0] == b[0] && b[0] == c[0] {
      StringLessTransitive(a[1..], b[1..], c[1..]);
    }
  }

  lemma {:induction false} StringLessTotal(a: string, b: string)
    ensures a == b || StringLess(a, b) || StringLess(b, a)
  {
    if |a| > 0 && |b| > 0 && a[0] == b[0] {
      StringLessTotal(a[1..], b[1..]);
      if a[1..] == b[1..] {
        assert a == [a[0]] + a[1..];
        assert b == [b[0]] + b[1..];
      }
    }
  }

  /** `(branch, year)` lexicographic order on grouping keys. */
  predicate KeyLess(k: GroupKey, l: GroupKey) {
    StringLess(k.branch, l.branch) || (k.branch == l.branch && k.year < l.year)
  }

  lemma KeyLessIrreflexive(k: GroupKey)
    ensures !KeyLess(k, k)
  {
    StringLessIrreflexive(k.branch);
  }

  lemma KeyLessTransitive(k: GroupKey, l: GroupKey, m: GroupKey)
    requires KeyLess(k, l) && KeyLess(l, m)
    ensures KeyLess(k, m)
  {
    if StringLess(k.branch, l.branch) && StringLess(l.branch, m.branch) {
      StringLessTransitive(k.branch, l.branch, m.branch);
    }
  }

  lemma KeyLessTotal(k: GroupKey, l: GroupKey)
    ensures k == l || KeyLess(k, l) || KeyLess(l, k)
  {
    StringLessTotal(k.branch, l.branch);
  }

  /** Distinct keys compare one way only. */
  lemma KeyLessAsymmetric(k: GroupKey, l: GroupKey)
    requires KeyLess(k, l)
    ensures !KeyLess(l, k) && k != l
  {
    KeyLessIrreflexive(k);
    if KeyLess(l, k) {
      KeyLessTransitive(k, l, k);
    }
  }
}
