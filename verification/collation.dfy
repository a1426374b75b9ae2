/**
 The order in which listing entries are sorted. The page compares names with
 `localeCompare`, whose result depends on the host's locale tables; this model
 uses plain lexicographic order on character codes instead, and proves it is a
 total order, which is what a sort comparator needs.
 */
module Collation {
  import opened Text

  /** `a` sorts no later than `b`: a prefix comes first, otherwise the first
      differing character decides. */
  predicate LexLe(a: String, b: String)
    ensures StartsWith(b, a) ==> LexLe(a, b)
    ensures StartsWith(a, b) && |b| < |a| ==> !LexLe(a, b)
  {
    |a| == 0 || (|b| > 0 && (a[0] < b[0] || (a[0] == b[0] && LexLe(a[1..], b[1..]))))
  }

  /** Characterisation of `LexLe` by a common prefix: either `a` is a prefix of
      `b`, or at the first position where they differ `a` has the smaller
      character. */
  lemma {:induction false} LexLeIffPrefixOrSmaller(a: String, b: String)
    ensures LexLe(a, b) <==>
      (StartsWith(b, a) ||
       exists k :: 0 <= k < |a| && k < |b| && a[..k] == b[..k] && a[k] < b[k])
  {
    if |a| == 0 {
      assert StartsWith(b, a);
    } else if |b| == 0 {
      assert !StartsWith(b, a);
    } else {
      LexLeIffPrefixOrSmaller(a[1..], b[1..]);
      if a[0] < b[0] {
        assert a[..0] == b[..0];
      } else if a[0] == b[0] {
        if StartsWith(b[1..], a[1..]) {
          assert a == [a[0]] + a[1..];
          assert b[..|a|] == [b[0]] + b[1..][..|a| - 1];
        } else {
          assert !StartsWith(b, a);
        }
        if k :| 0 <= k < |a[1..]| && k < |b[1..]| && a[1..][..k] == b[1..][..k] && a[1..][k] < b[1..][k] {
          assert a[..k + 1] == [a[0]] + a[1..][..k];
          assert b[..k + 1] == [b[0]] + b[1..][..k];
        }
        if k :| 0 <= k < |a| && k < |b| && a[..k] == b[..k] && a[k] < b[k] {
          assert k != 0;
          assert a[1..][..k - 1] == a[..k][1..];
          assert b[1..][..k - 1] == b[..k][1..];
        }
      } else {
        assert !StartsWith(b, a);
      }
    }
  }

  lemma {:induction false} LexLeReflexive(a: String)
    ensures LexLe(a, a)
  {
    if |a| > 0 {
      LexLeReflexive(a[1..]);
    }
  }

  lemma {:induction false} LexLeTotal(a: String, b: String)
    ensures LexLe(a, b) || LexLe(b, a)
  {
    if |a| > 0 && |b| > 0 && a[0] == b[0] {
      LexLeTotal(a[1..], b[1..]);
    }
  }

  lemma {:induction false} LexLeAntisymmetric(a: String, b: String)
    requires LexLe(a, b) && LexLe(b, a)
    ensures a == b
  {
    if |a| > 0 && |b| > 0 {
      LexLeAntisymmetric(a[1..], b[1..]);
      assert a == [a[0]] + a[1..];
      assert b == [b[0]] + b[1..];
    }
  }

  lemma {:induction false} LexLeTransitive(a: String, b: String, c: String)
    requires LexLe(a, b) && LexLe(b, c)
    ensures LexLe(a, c)
  {
    if |a| > 0 && |b| > 0 && |c| > 0 && a[0] == b[0] == c[0] {
      LexLeTransitive(a[1..], b[1..], c[1..]);
    }
  }
}
