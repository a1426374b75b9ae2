/**
 The few JavaScript string operations the route listing relies on, stated over
 `seq<char>`: `includes`, an end-anchored suffix match (the `$` of a regular
 expression without the multiline flag), `substring(start)`, `charAt(index)`
 and `toUpperCase`, the last restricted to ASCII letters.
 */
module Text {

  type String = seq<char>

  /** `sub` occurs in `s` starting at index `i`. */
  ghost predicate OccursAt(s: String, sub: String, i: int) {
    0 <= i && i + |sub| <= |s| && s[i..i + |sub|] == sub
  }

  /** `s` begins with `p`. */
  predicate StartsWith(s: String, p: String) {
    |p| <= |s| && s[..|p|] == p
  }

  /** `s` ends with `suffix`: the match of a pattern anchored with `$`. */
  predicate EndsWith(s: String, suffix: String) {
    |suffix| <= |s| && s[|s| - |suffix|..] == suffix
  }

  /** `String.prototype.includes`: tries every start position from the left. */
  function Includes(s: String, sub: String): (b: bool)
    ensures b <==> exists i :: OccursAt(s, sub, i)
    decreases |s|
  {
    if StartsWith(s, sub) then
      assert OccursAt(s, sub, 0);
      true
    else if |s| == 0 then
      false
    else
      var rest := Includes(s[1..], sub);
      assert rest ==> exists i :: OccursAt(s, sub, i) by {
        if rest {
          var i :| OccursAt(s[1..], sub, i);
          assert s[1..][i..i + |sub|] == s[i + 1..i + 1 + |sub|];
          assert OccursAt(s, sub, i + 1);
        }
      }
      assert (exists i :: OccursAt(s, sub, i)) ==> rest by {
        if i :| OccursAt(s, sub, i) {
          assert i != 0;
          assert s[1..][i - 1..i - 1 + |sub|] == s[i..i + |sub|];
          assert OccursAt(s[1..], sub, i - 1);
        }
      }
      rest
  }

  /** Removes one trailing `suffix` when present, as a non-global `replace` of
      an end-anchored pattern by the empty string does. */
  function StripSuffix(s: String, suffix: String): (r: String)
    ensures EndsWith(s, suffix) ==> r + suffix == s
    ensures !EndsWith(s, suffix) ==> r == s
  {
    if EndsWith(s, suffix) then s[..|s| - |suffix|] else s
  }

  /** `String.prototype.substring(start)` for a non-negative start: an index
      past the end is clamped, giving the empty string. */
  function Substring(s: String, start: nat): (r: String)
    ensures start <= |s| ==> s[..start] + r == s
    ensures start >= |s| ==> r == []
  {
    if start < |s| then s[start..] else []
  }

  /** `String.prototype.charAt(index)`: the one-character string at `index`,
      or the empty string when `index` is out of range. */
  function CharAt(s: String, index: nat): (r: String)
    ensures |r| <= 1
    ensures index < |s| <==> |r| == 1
    ensures |r| == 1 ==> r[0] == s[index]
  {
    if index < |s| then [s[index]] else []
  }

  predicate IsLower(c: char) {
    'a' <= c <= 'z'
  }

  predicate IsUpper(c: char) {
    'A' <= c <= 'Z'
  }

  /** ASCII upper-casing of one character; every other character is kept. */
  function UpperChar(c: char): (u: char)
    ensures IsLower(c) ==> IsUpper(u) && u as int - 'A' as int == c as int - 'a' as int
    ensures !IsLower(c) ==> u == c
  {
    if IsLower(c) then (c as int - 'a' as int + 'A' as int) as char else c
  }

  /** `String.prototype.toUpperCase`, character by character. */
  function UpperCase(s: String): (r: String)
    ensures |r| == |s|
    ensures forall i :: 0 <= i < |s| ==> r[i] == UpperChar(s[i])
  {
    seq(|s|, i requires 0 <= i < |s| => UpperChar(s[i]))
  }
}
