/**
 * String helpers with the exact semantics the views and utilities rely on:
 * ASCII case folding (the case-insensitive match of `icontains`), substring
 * search, Python's `s.split(sep)[0]` and Python's prefix slice `s[:n]`.
 */
module Text {

  /** ASCII lower-casing of one character; every other character is kept. */
  function LowerChar(c: char): char
  {
    if 'A' <= c <= 'Z' then (c as int + 32) as char else c
  }

  function Lower(s: string): (r: string)
    ensures |r| == |s|
    ensures forall i :: 0 <= i < |s| ==> r[i] == LowerChar(s[i])
  {
    seq(|s|, i requires 0 <= i < |s| => LowerChar(s[i]))
  }

  /** Reference definition: `needle` occurs in `hay` starting at some position. */
  ghost predicate OccursIn(needle: string, hay: string)
  {
    exists i :: 0 <= i <= |hay| && needle <= hay[i..]
  }

  /** Substring search, scanning `hay` from the left. */
  predicate Contains(hay: string, needle: string)
    decreases |hay|
  {
    needle <= hay || (|hay| > 0 && Contains(hay[1..], needle))
  }

  /** The scan finds `needle` exactly when it occurs somewhere in `hay`. */
  lemma {:induction false} ContainsIffOccurs(hay: string, needle: string)
    ensures Contains(hay, needle) <==> OccursIn(needle, hay)
    decreases |hay|
  {
    if needle <= hay {
      assert hay[0..] == hay;
    } else if |hay| == 0 {
    } else {
      ContainsIffOccurs(hay[1..], needle);
      if OccursIn(needle, hay) {
        var i :| 0 <= i <= |hay| && needle <= hay[i..];
        assert i != 0 by { assert hay[0..] == hay; }
        assert hay[1..][i - 1..] == hay[i..];
      }
      if OccursIn(needle, hay[1..]) {
        var i :| 0 <= i <= |hay[1..]| && needle <= hay[1..][i..];
        assert hay[1..][i..] == hay[i + 1..];
      }
    }
  }

  /** A needle that is found fits in the haystack: a longer one is never found. */
  lemma {:induction false} NoRoomNoMatch(hay: string, needle: string)
    ensures Contains(hay, needle) ==> |needle| <= |hay|
    decreases |hay|
  {
    if |hay| > 0 {
      NoRoomNoMatch(hay[1..], needle);
    }
  }

  /** A needle whose first character does not occur in the haystack is never found. */
  lemma {:induction false} FirstCharAbsent(hay: string, needle: string)
    requires |needle| > 0 && needle[0] !in hay
    ensures !Contains(hay, needle)
    decreases |hay|
  {
    if |hay| > 0 {
      assert hay[0] in hay;
      assert forall c :: c in hay[1..] ==> c in hay;
      FirstCharAbsent(hay[1..], needle);
    }
  }

  /**
   * Case-insensitive containment: both sides are case-folded before the
   * search, as `icontains` upper-cases column and pattern before `LIKE`;
   * `Lower` folds ASCII letters only.
   */
  predicate ContainsIgnoreCase(hay: string, needle: string)
  {
    Contains(Lower(hay), Lower(needle))
  }

  /**
   * Python's `s.split(sep)[0]`: everything before the first `sep`, or the
   * whole of `s` when it holds no `sep`. Nothing is trimmed.
   */
  function FirstField(s: string, sep: char): (r: string)
    ensures r <= s
    ensures sep !in r
    ensures |r| < |s| ==> s[|r|] == sep
    ensures sep !in s ==> r == s
    decreases |s|
  {
    if s == [] || s[0] == sep then [] else [s[0]] + FirstField(s[1..], sep)
  }

  /** Python's `s[:n]` for a non-negative `n`. */
  function Truncate<T>(s: seq<T>, n: nat): (r: seq<T>)
    ensures |r| <= n
    ensures r <= s
    ensures |s| <= n ==> r == s
    ensures |s| > n ==> |r| == n
  {
    if |s| <= n then s else s[..n]
  }

  /** Two strings framed by the same prefix and suffix are equal when the framed wholes are. */
  lemma {:induction false} FramedEqual(pre: string, x: string, y: string, post: string)
    requires pre + x + post == pre + y + post
    ensures x == y
  {
    var w := pre + x + post;
    assert |x| == |y|;
    assert x == w[|pre|..|pre| + |x|];
    assert y == (pre + y + post)[|pre|..|pre| + |y|];
  }
}
