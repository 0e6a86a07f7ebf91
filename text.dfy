/**
 * The two string operations the karaoke title test relies on:
 * `String.prototype.toLowerCase`, modelled on ASCII letters only, and
 * `String.prototype.includes`, a substring search.
 */
module Text {

  /** `c` is an upper-case ASCII letter. */
  predicate IsUpper(c: char) {
    'A' <= c <= 'Z'
  }

  /** Lower-cases one character: ASCII `A`-`Z` map to `a`-`z`, every other character is kept. */
  function LowerChar(c: char): (d: char)
    ensures !IsUpper(d)
    ensures !IsUpper(c) ==> d == c
    ensures IsUpper(c) ==> 'a' <= d <= 'z' && d as int - c as int == 'a' as int - 'A' as int
  {
    if IsUpper(c) then (c as int + ('a' as int - 'A' as int)) as char else c
  }

  /** `toLowerCase`: lower-cases every character and keeps the length. */
  function Lower(s: string): (r: string)
    ensures |r| == |s|
    ensures forall i :: 0 <= i < |s| ==> r[i] == LowerChar(s[i])
  {
    if s == [] then [] else [LowerChar(s[0])] + Lower(s[1..])
  }

  /** A lower-cased string has no upper-case letter left, so lowering it again changes nothing. */
  lemma LowerIdempotent(s: string)
    ensures Lower(Lower(s)) == Lower(s)
  {
    var l := Lower(s);
    assert forall i :: 0 <= i < |l| ==> Lower(l)[i] == l[i];
  }

  /** Lowering works character by character, so it distributes over concatenation. */
  lemma LowerAppend(a: string, b: string)
    ensures Lower(a + b) == Lower(a) + Lower(b)
  {
    assert forall i :: 0 <= i < |a + b| ==> Lower(a + b)[i] == (Lower(a) + Lower(b))[i];
  }

  /** `sub` occurs in `s` starting at position `i`. */
  predicate OccursAt(s: string, sub: string, i: int) {
    0 <= i && i + |sub| <= |s| && s[i..i + |sub|] == sub
  }

  /**
   * `s.includes(sub)`: `sub` is a prefix of `s` or of one of its suffixes.
   * It holds exactly when `sub` occurs in `s` at some position.
   */
  function Contains(s: string, sub: string): (b: bool)
    ensures b <==> exists i :: OccursAt(s, sub, i)
    decreases |s|
  {
    if sub <= s then
      assert OccursAt(s, sub, 0);
      true
    else if s == [] then
      false
    else
      var rest := Contains(s[1..], sub);
      if rest then
        var j :| OccursAt(s[1..], sub, j);
        assert s[1..][j..j + |sub|] == s[j + 1..j + 1 + |sub|];
        assert OccursAt(s, sub, j + 1);
        true
      else
        assert !OccursAt(s, sub, 0) by {
          if |sub| <= |s| {
            assert s[0..|sub|] == s[..|sub|];
          }
        }
        forall i | OccursAt(s, sub, i) && i >= 1
          ensures OccursAt(s[1..], sub, i - 1)
        {
          assert s[1..][i - 1..i - 1 + |sub|] == s[i..i + |sub|];
        }
        false
  }

  /** A word occurs in `s` only if its first letter does. */
  lemma ContainsInitial(s: string, sub: string)
    requires sub != []
    ensures Contains(s, sub) ==> sub[0] in s
  {
    if Contains(s, sub) {
      var i :| OccursAt(s, sub, i);
      assert s[i..i + |sub|][0] == s[i];
    }
  }
}
