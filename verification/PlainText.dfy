/**
 White space as the text methods of the source language see it.
 */
module PlainText {
  const SPACES: seq<char> := [
    '\t', '\n', '\U{b}', '\U{c}', '\r', '\U{1c}', '\U{1d}', '\U{1e}', '\U{1f}', ' ', '\U{85}', '\U{a0}', '\U{1680}',
    '\U{2000}', '\U{2001}', '\U{2002}', '\U{2003}', '\U{2004}', '\U{2005}', '\U{2006}', '\U{2007}', '\U{2008}',
    '\U{2009}', '\U{200a}', '\U{2028}', '\U{2029}', '\U{202f}', '\U{205f}', '\U{3000}']

  predicate IsSpace(c: char) {
    c in SPACES
  }

  function Strip(s: string): (r: string)
    decreases |s|
  {
    if s == "" then s
    else if IsSpace(s[0]) then Strip(s[1..])
    else if IsSpace(s[|s| - 1]) then Strip(s[..|s| - 1])
    else s
  }

  /** Only white space goes, from both ends, and as much of it as stands there. */
  lemma {:induction false} StripMeans(s: string) returns (low: nat, high: nat)
    ensures low <= high <= |s| && Strip(s) == s[low..high]
    ensures forall i | 0 <= i < |s| && !(low <= i < high) :: IsSpace(s[i])
    ensures low < high ==> !IsSpace(s[low]) && !IsSpace(s[high - 1])
    decreases |s|
  {
    hide IsSpace;
    if s == "" {
      low, high := 0, 0;
    } else if IsSpace(s[0]) {
      low, high := StripMeans(s[1..]);
      low, high := low + 1, high + 1;
      assert s[1..][low - 1..high - 1] == s[low..high];
      forall i | 0 <= i < |s| && !(low <= i < high) ensures IsSpace(s[i]) {
        assert i > 0 ==> s[1..][i - 1] == s[i];
      }
    } else if IsSpace(s[|s| - 1]) {
      var front := s[..|s| - 1];
      low, high := StripMeans(front);
      assert front[low..high] == s[low..high];
      forall i | 0 <= i < |s| && !(low <= i < high) ensures IsSpace(s[i]) {
        assert i < |front| ==> front[i] == s[i];
      }
    } else {
      low, high := 0, |s|;
    }
  }
}
