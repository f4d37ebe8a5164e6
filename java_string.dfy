/** The part of java.lang.String that the score lookup relies on.
    A Java string is modelled as a Dafny `string`, a sequence of Unicode
    scalar values (not of UTF-16 code units, as in Java). */
module JavaString {

  /** `s.indexOf(c)`: the position of the first occurrence of `c` in `s`,
      or -1 when `c` does not occur in `s`. */
  function IndexOf(s: string, c: char): (r: int)
    ensures r == -1 <==> c !in s
    ensures r != -1 ==> 0 <= r < |s| && s[r] == c && c !in s[..r]
  {
    if |s| == 0 then -1
    else if s[0] == c then 0
    else
      var k := IndexOf(s[1..], c);
      if k == -1 then -1 else k + 1
  }

  /** Splitting a string at a character that its first part does not contain
      puts the first occurrence exactly at the split point. */
  lemma IndexOfSplit(prefix: string, c: char, suffix: string)
    requires c !in prefix
    ensures IndexOf(prefix + [c] + suffix, c) == |prefix|
  {
    assert (prefix + [c] + suffix)[|prefix|] == c;
  }
}
