/**
  The two JavaScript string operations the dashboard's name search relies on:
  `String.prototype.toLowerCase`, modelled as ASCII lowering character by
  character, and `String.prototype.includes`, modelled as a left-to-right
  search for the needle at every position of the haystack.
 */
module Text {

  /** Lower-cases one character; only the ASCII letters A-Z change. */
  function LowerChar(c: char): (r: char)
    ensures r != c <==> 'A' <= c <= 'Z'
    ensures !('A' <= r <= 'Z')
    ensures 'A' <= c <= 'Z' ==> 'a' <= r <= 'z' && r as int - 'a' as int == c as int - 'A' as int
  {
    if 'A' <= c <= 'Z' then (c as int - 'A' as int + 'a' as int) as char else c
  }

  /** `s.toLowerCase()`: the string with every character lowered. */
  function ToLower(s: string): (r: string)
    ensures |r| == |s|
    ensures forall i :: 0 <= i < |s| ==> r[i] == LowerChar(s[i])
  {
    if s == [] then [] else [LowerChar(s[0])] + ToLower(s[1..])
  }

  /** A lower-case letter appears in the lowering only if it or its capital appears in the original. */
  lemma LowerAbsent(s: string, c: char)
    requires 'a' <= c <= 'z'
    requires c !in s && (c as int - 'a' as int + 'A' as int) as char !in s
    ensures c !in ToLower(s)
  {
  }

  /** No character of `s` is an upper-case ASCII letter. */
  predicate IsLower(s: string)
  {
    forall i :: 0 <= i < |s| ==> !('A' <= s[i] <= 'Z')
  }

  /** Lowering leaves no upper-case letter, and a lower-case string is its own lowering. */
  lemma ToLowerIsLower(s: string)
    ensures IsLower(ToLower(s))
    ensures IsLower(s) <==> ToLower(s) == s
  {
  }

  /** Lowering twice is lowering once. */
  lemma ToLowerIdempotent(s: string)
    ensures ToLower(ToLower(s)) == ToLower(s)
  {
  }

  /** `needle` starts at position `i` of `hay`. */
  predicate OccursAt(hay: string, needle: string, i: nat)
  {
    i + |needle| <= |hay| && hay[i..i + |needle|] == needle
  }

  /** `hay.includes(needle)`: try the needle at position 0, then search the rest. */
  function Includes(hay: string, needle: string): (found: bool)
    ensures needle == [] ==> found
    ensures needle == hay ==> found
    decreases |hay|
  {
    if needle <= hay then true
    else if hay == [] then false
    else Includes(hay[1..], needle)
  }

  /** `includes` answers true exactly when the needle occurs at some position. */
  lemma {:induction false} IncludesIffOccurs(hay: string, needle: string)
    ensures Includes(hay, needle) <==> exists i: nat :: i <= |hay| && OccursAt(hay, needle, i)
    decreases |hay|
  {
    if needle <= hay {
      assert OccursAt(hay, needle, 0);
    } else {
      // the needle is not a prefix, so it cannot start at position 0
      assert !OccursAt(hay, needle, 0);
      if hay != [] {
        var tail := hay[1..];
        IncludesIffOccurs(tail, needle);
        forall i: nat | 1 <= i <= |hay|
          ensures OccursAt(hay, needle, i) <==> OccursAt(tail, needle, i - 1)
        {
          if i + |needle| <= |hay| {
            var here, there := hay[i..i + |needle|], tail[i - 1..i - 1 + |needle|];
            forall k | 0 <= k < |needle| ensures here[k] == there[k] {
              assert hay[i + k] == tail[i - 1 + k];
            }
            assert here == there;
          }
        }
        if Includes(tail, needle) {
          var j: nat :| j <= |tail| && OccursAt(tail, needle, j);
          assert OccursAt(hay, needle, j + 1);
        }
      }
    }
  }

  /** A needle longer than the haystack is never found. */
  lemma {:induction false} IncludesNoLonger(hay: string, needle: string)
    requires Includes(hay, needle)
    ensures |needle| <= |hay|
    decreases |hay|
  {
    if !(needle <= hay) && hay != [] {
      IncludesNoLonger(hay[1..], needle);
    }
  }

  /** A needle whose first character never appears in the haystack is not found. */
  lemma {:induction false} IncludesNeedsFirstChar(hay: string, needle: string)
    requires needle != [] && needle[0] !in hay
    ensures !Includes(hay, needle)
    decreases |hay|
  {
    if hay != [] {
      IncludesNeedsFirstChar(hay[1..], needle);
    }
  }
}
