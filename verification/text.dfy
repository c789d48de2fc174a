/**
 The two string operations the page filter uses: lower-casing
 (`String.prototype.toLowerCase`, restricted here to ASCII letters) and
 substring search (`String.prototype.includes`).
 */
module Text {

  /** Maps 'A'..'Z' to 'a'..'z' and leaves every other character alone. */
  function LowerChar(c: char): char
  {
    if 'A' <= c <= 'Z' then (c as int - 'A' as int + 'a' as int) as char else c
  }

  /** Lower-cases every character of `s`. */
  function Lower(s: string): (r: string)
    ensures |r| == |s|
    ensures forall i :: 0 <= i < |s| ==> 'A' <= s[i] <= 'Z' || r[i] == s[i]
    ensures forall i :: 0 <= i < |r| ==> !('A' <= r[i] <= 'Z')
    ensures forall i :: 0 <= i < |s| && 'A' <= s[i] <= 'Z' ==>
      r[i] as int - 'a' as int == s[i] as int - 'A' as int
  {
    seq(|s|, i requires 0 <= i < |s| => LowerChar(s[i]))
  }

  /**
   Two characters are the same letter up to case: equal, or one is an
   upper-case ASCII letter and the other its lower-case counterpart.
   */
  predicate SameCharUpToCase(a: char, b: char)
  {
    || a == b
    || ('A' <= a <= 'Z' && b as int == a as int + ('a' as int - 'A' as int))
    || ('A' <= b <= 'Z' && a as int == b as int + ('a' as int - 'A' as int))
  }

  /** Two strings are equal up to the case of ASCII letters, position by position. */
  predicate SameUpToCase(s: string, t: string)
  {
    |s| == |t| && forall i :: 0 <= i < |s| ==> SameCharUpToCase(s[i], t[i])
  }

  /** Lower-casing identifies exactly the strings that are equal up to case. */
  lemma LowerEqualIffSameUpToCase(s: string, t: string)
    ensures Lower(s) == Lower(t) <==> SameUpToCase(s, t)
  {
    if Lower(s) == Lower(t) {
      forall i | 0 <= i < |s|
        ensures SameCharUpToCase(s[i], t[i])
      {
        assert Lower(s)[i] == Lower(t)[i];
      }
    }
    if SameUpToCase(s, t) {
      forall i | 0 <= i < |s|
        ensures Lower(s)[i] == Lower(t)[i]
      {
        assert SameCharUpToCase(s[i], t[i]);
      }
    }
  }

  /** Lower-casing an already lower-cased string changes nothing. */
  lemma LowerIdempotent(s: string)
    ensures Lower(Lower(s)) == Lower(s)
  {
  }

  /** `q` occurs in `s` starting at position `i`. */
  ghost predicate OccursAt(s: string, q: string, i: int)
  {
    0 <= i <= |s| - |q| && s[i..i + |q|] == q
  }

  /**
   `s.includes(q)`: `q` occurs in `s` as a contiguous block. The empty query
   occurs in every string.
   */
  function Includes(s: string, q: string): (b: bool)
    ensures b <==> exists i :: OccursAt(s, q, i)
    decreases |s|
  {
    if |s| < |q| then false
    else if s[..|q|] == q then assert OccursAt(s, q, 0); true
    else
      assert s != [];
      var b := Includes(s[1..], q);
      assert forall i :: OccursAt(s, q, i) <==> i >= 1 && OccursAt(s[1..], q, i - 1) by {
        forall i
          ensures OccursAt(s, q, i) <==> i >= 1 && OccursAt(s[1..], q, i - 1)
        {
          if 1 <= i <= |s| - |q| {
            var a, c := s[i..i + |q|], s[1..][i - 1..i - 1 + |q|];
            assert forall k :: 0 <= k < |q| ==> a[k] == s[i + k] == c[k];
            assert a == c;
          } else if i == 0 {
            assert s[0..|q|] == s[..|q|];
          }
        }
      }
      assert b ==> exists i :: OccursAt(s, q, i) by {
        if b {
          var j :| OccursAt(s[1..], q, j);
          assert OccursAt(s, q, j + 1);
        }
      }
      b
  }

  /** Every string includes the empty string. */
  lemma IncludesEmpty(s: string)
    ensures Includes(s, "")
  {
    assert OccursAt(s, "", 0);
  }

  /** A non-empty query whose first character never appears in `s` is not included in it. */
  lemma NotIncludedWithoutFirstChar(s: string, q: string)
    requires q != [] && q[0] !in s
    ensures !Includes(s, q)
  {
    forall i | 0 <= i <= |s| - |q|
      ensures s[i..i + |q|][0] == s[i]
    {
    }
  }
}
