/** Blank characters, and `str.strip`. */
module BlankText {

  /** The ranges of characters Python's `str.strip` removes. */
  const BLANKS: seq<(char, char)> := [
    ('\t', '\r'), ('\U{1C}', ' '), ('\U{85}', '\U{85}'), ('\U{A0}', '\U{A0}'), ('\U{1680}', '\U{1680}'),
    ('\U{2000}', '\U{200A}'), ('\U{2028}', '\U{2029}'), ('\U{202F}', '\U{202F}'), ('\U{205F}', '\U{205F}'),
    ('\U{3000}', '\U{3000}')]

  predicate InFirst(c: char, n: nat)
    requires n <= |BLANKS|
  {
    n > 0 && (BLANKS[n - 1].0 <= c <= BLANKS[n - 1].1 || InFirst(c, n - 1))
  }

  predicate Blank(c: char) { InFirst(c, |BLANKS|) }

  lemma SpaceIsBlank()
    ensures Blank(' ')
  {
    assert InFirst(' ', 2) && InFirst(' ', 4) && InFirst(' ', 6) && InFirst(' ', 8);
  }

  lemma PrintableIsNot(c: char)
    requires ' ' < c <= '~'
    ensures !Blank(c)
  {
    assert !InFirst(c, 1) && !InFirst(c, 2) && !InFirst(c, 3) && !InFirst(c, 4) && !InFirst(c, 5);
    assert !InFirst(c, 6) && !InFirst(c, 7) && !InFirst(c, 8) && !InFirst(c, 9) && !InFirst(c, 10);
  }

  function Leading(s: string): (n: nat)
    ensures n <= |s| && (forall i :: 0 <= i < n ==> Blank(s[i])) && (n < |s| ==> !Blank(s[n]))
  {
    if s == "" || !Blank(s[0]) then 0 else 1 + Leading(s[1..])
  }

  /** The end of the text once trailing blanks are gone. */
  function Trailing(s: string): (n: nat)
    ensures n <= |s| && (forall i :: n <= i < |s| ==> Blank(s[i])) && (n > 0 ==> !Blank(s[n - 1]))
  {
    if s == "" || !Blank(s[|s| - 1]) then |s| else Trailing(s[..|s| - 1])
  }

  function Strip(s: string): string {
    if Leading(s) >= Trailing(s) then "" else s[Leading(s)..Trailing(s)]
  }

  ghost predicate AllBlank(s: string) { forall i :: 0 <= i < |s| ==> Blank(s[i]) }

  /** Stripping keeps every character that is not blank in its place. */
  lemma StripKeepsPlace(s: string, k: nat)
    requires k < |s| && !Blank(s[k])
    ensures Leading(s) <= k < Leading(s) + |Strip(s)| && Strip(s)[k - Leading(s)] == s[k]
  {
    assert Leading(s) <= k < Trailing(s);
  }

  /** Only blank text strips to nothing. */
  lemma StripEmptyIff(s: string)
    ensures Strip(s) == "" <==> AllBlank(s)
  {
    if Leading(s) >= Trailing(s) {
      forall k | 0 <= k < |s| ensures Blank(s[k]) {
        assert k < Leading(s) || k >= Trailing(s);
      }
    } else {
      assert Leading(s) < |s| && !Blank(s[Leading(s)]);
    }
  }

  /** Stripped text neither starts nor ends blank, and stripping it again changes nothing. */
  lemma StrippedEnds(s: string, t: string)
    requires t == Strip(s) != ""
    ensures !Blank(t[0]) && !Blank(t[|t| - 1]) && Strip(t) == t
  {
    assert t[0] == s[Leading(s)] && t[|t| - 1] == s[Trailing(s) - 1];
    assert Leading(t) == 0;
    assert Trailing(t) == |t|;
  }
}
