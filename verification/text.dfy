/** The string primitives the engine relies on: Python truthiness of an
    optional string, lower-casing and the `in` substring test. */
module Text {
  import opened Wrappers

  /** Python truthiness of an optional string: present and not empty. */
  predicate Truthy(o: Option<string>) {
    o.Some? && o.value != ""
  }

  /** `str.lower()` on one character, restricted to ASCII letters. */
  function LowerChar(c: char): char {
    if 'A' <= c <= 'Z' then (c as int - 'A' as int + 'a' as int) as char else c
  }

  /** `str.lower()` on a whole string, restricted to ASCII letters. */
  function Lower(s: string): string {
    seq(|s|, i requires 0 <= i < |s| => LowerChar(s[i]))
  }

  predicate StartsWith(p: string, s: string) {
    |p| <= |s| && s[..|p|] == p
  }

  /** Python's `p in s` on strings: `p` is a contiguous piece of `s`. */
  predicate Occurs(p: string, s: string)
    decreases |s|
  {
    StartsWith(p, s) || (|s| > 0 && Occurs(p, s[1..]))
  }

  /** `p` sits in `s` starting at position `i`. */
  ghost predicate OccursAt(p: string, s: string, i: int) {
    0 <= i && i + |p| <= |s| && s[i..i + |p|] == p
  }

  /** The scanning definition of `Occurs` agrees with the positional one. */
  lemma {:induction false} OccursIffSomePosition(p: string, s: string)
    ensures Occurs(p, s) <==> exists i :: OccursAt(p, s, i)
    decreases |s|
  {
    if StartsWith(p, s) {
      assert OccursAt(p, s, 0);
    } else if |s| == 0 {
    } else {
      OccursIffSomePosition(p, s[1..]);
      if exists i :: OccursAt(p, s, i) {
        var i :| OccursAt(p, s, i);
        assert s[1..][i - 1..i - 1 + |p|] == s[i..i + |p|];
        assert OccursAt(p, s[1..], i - 1);
      }
      if exists j :: OccursAt(p, s[1..], j) {
        var j :| OccursAt(p, s[1..], j);
        assert s[1..][j..j + |p|] == s[j + 1..j + 1 + |p|];
        assert OccursAt(p, s, j + 1);
      }
    }
  }
}
