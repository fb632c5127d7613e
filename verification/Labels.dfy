/** Label names, which are compared without regard to case. */
module Labels {

  function LowerChar(c: char): char
  {
    if 'A' <= c <= 'Z' then 'a' + (c - 'A') else c
  }

  function Lower(s: string): (r: string)
    ensures |r| == |s|
  {
    seq(|s|, i requires 0 <= i < |s| => LowerChar(s[i]))
  }

  // ----- what it is for names to be the same -----

  /** The same character, or the capital and the small form of one of the letters A to Z. */
  ghost predicate SameLetter(x: char, y: char)
  {
    || x == y
    || ('A' <= x <= 'Z' && y as int == x as int + 32)
    || ('A' <= y <= 'Z' && x as int == y as int + 32)
  }

  /** Names that differ at most in the case of their letters. */
  ghost predicate SameName(a: string, b: string)
  {
    |a| == |b| && forall i :: 0 <= i < |a| ==> SameLetter(a[i], b[i])
  }

  ghost predicate HasNoCapital(s: string)
  {
    forall i :: 0 <= i < |s| ==> !('A' <= s[i] <= 'Z')
  }

  lemma LowerCharIffSameLetter(x: char, y: char)
    ensures LowerChar(x) == LowerChar(y) <==> SameLetter(x, y)
    ensures !('A' <= LowerChar(x) <= 'Z') && LowerChar(LowerChar(x)) == LowerChar(x)
  {
  }

  /** Lower-casing makes exactly those names equal. */
  lemma LowerIffSameName(a: string, b: string)
    ensures Lower(a) == Lower(b) <==> SameName(a, b)
  {
    if |a| == |b| {
      forall i | 0 <= i < |a|
        ensures Lower(a)[i] == Lower(b)[i] <==> SameLetter(a[i], b[i])
      {
        LowerCharIffSameLetter(a[i], b[i]);
      }
      assert (forall i :: 0 <= i < |a| ==> Lower(a)[i] == Lower(b)[i]) <==> Lower(a) == Lower(b);
    }
  }

  /** The lower-cased name is the one of them without a capital. */
  lemma LowerIsTheSmallName(a: string, b: string)
    ensures SameName(a, b) && HasNoCapital(b) <==> b == Lower(a)
  {
    if SameName(a, b) && HasNoCapital(b) {
      forall i | 0 <= i < |a|
        ensures b[i] == Lower(a)[i]
      {
        assert SameLetter(a[i], b[i]);
      }
    }
    forall i | 0 <= i < |a|
      ensures SameLetter(a[i], Lower(a)[i]) && !('A' <= Lower(a)[i] <= 'Z')
    {
      LowerCharIffSameLetter(a[i], Lower(a)[i]);
    }
  }

  lemma SameNames()
    ensures forall a: string, b: string :: SameName(a, b) <==> Lower(a) == Lower(b)
  {
    forall a: string, b: string
      ensures SameName(a, b) <==> Lower(a) == Lower(b)
    {
      LowerIffSameName(a, b);
    }
  }
}
