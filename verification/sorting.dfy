/**
 Sorting listing entries by name (pages/index.tsx, lines 44-46), as an
 insertion sort under `Collation.LexLe`. Nothing is promised about the relative
 order of entries with equal names.
 */
module Sorting {
  import opened Collation
  import opened Routes

  /** Every entry's name sorts no later than any entry after it. */
  ghost predicate SortedByName(s: seq<Bot>) {
    forall i, j :: 0 <= i < j < |s| ==> LexLe(s[i].name, s[j].name)
  }

  /** No two entries share a path. */
  ghost predicate PathsDistinct(s: seq<Bot>) {
    forall i, j :: 0 <= i < j < |s| ==> s[i].path != s[j].path
  }

  /** Places `b` before the first entry whose name it sorts no later than. */
  function InsertByName(b: Bot, s: seq<Bot>): (r: seq<Bot>)
    ensures multiset(r) == multiset(s) + multiset{b}
    ensures |r| == |s| + 1
    ensures forall x :: x in r <==> x == b || x in s
  {
    if |s| == 0 then
      [b]
    else if LexLe(b.name, s[0].name) then
      [b] + s
    else
      assert s == [s[0]] + s[1..];
      [s[0]] + InsertByName(b, s[1..])
  }

  /** Inserting into a sorted sequence keeps it sorted. */
  lemma {:induction false} InsertKeepsSorted(b: Bot, s: seq<Bot>)
    requires SortedByName(s)
    ensures SortedByName(InsertByName(b, s))
  {
    var r := InsertByName(b, s);
    if |s| == 0 {
    } else if LexLe(b.name, s[0].name) {
      forall j | 0 < j < |r|
        ensures LexLe(b.name, r[j].name)
      {
        if j > 1 {
          LexLeTransitive(b.name, s[0].name, s[j - 1].name);
        }
      }
    } else {
      var rest := InsertByName(b, s[1..]);
      InsertKeepsSorted(b, s[1..]);
      LexLeTotal(b.name, s[0].name);
      forall j | 0 < j < |r|
        ensures LexLe(s[0].name, r[j].name)
      {
        assert r[j] == rest[j - 1] && rest[j - 1] in rest;
        if rest[j - 1] != b {
          var k :| 0 <= k < |s[1..]| && s[1..][k] == rest[j - 1];
          assert s[k + 1] == rest[j - 1];
        }
      }
    }
  }

  /** Inserting an entry with a fresh path keeps paths distinct. */
  lemma {:induction false} InsertKeepsPathsDistinct(b: Bot, s: seq<Bot>)
    requires PathsDistinct(s)
    requires forall x :: x in s ==> x.path != b.path
    ensures PathsDistinct(InsertByName(b, s))
  {
    var r := InsertByName(b, s);
    if |s| == 0 {
    } else if LexLe(b.name, s[0].name) {
      assert forall j :: 0 < j < |r| ==> r[j] == s[j - 1] && s[j - 1] in s;
    } else {
      var rest := InsertByName(b, s[1..]);
      InsertKeepsPathsDistinct(b, s[1..]);
      forall j | 0 < j < |r|
        ensures r[0].path != r[j].path
      {
        assert r[j] == rest[j - 1] && rest[j - 1] in rest;
        if rest[j - 1] != b {
          var k :| 0 <= k < |s[1..]| && s[1..][k] == rest[j - 1];
          assert s[k + 1] == rest[j - 1];
        }
      }
    }
  }

  /** `Array.prototype.sort` with a name comparator: a sorted permutation. */
  function SortByName(s: seq<Bot>): (r: seq<Bot>)
    ensures multiset(r) == multiset(s)
    ensures |r| == |s|
    ensures forall x :: x in r <==> x in s
    ensures SortedByName(r)
    ensures PathsDistinct(s) ==> PathsDistinct(r)
  {
    if |s| == 0 then
      []
    else
      var sorted := SortByName(s[1..]);
      assert s == [s[0]] + s[1..];
      InsertKeepsSorted(s[0], sorted);
      assert PathsDistinct(s) ==> PathsDistinct(InsertByName(s[0], sorted)) by {
        if PathsDistinct(s) {
          assert PathsDistinct(s[1..]);
          assert forall x :: x in sorted ==> x.path != s[0].path;
          InsertKeepsPathsDistinct(s[0], sorted);
        }
      }
      InsertByName(s[0], sorted)
  }
}
