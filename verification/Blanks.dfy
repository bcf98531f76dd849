/** The white space of Python's strings, and the letters and digits of ASCII. */
module Blanks {
  const LOWER: set<char> :=
    {'a', 'b', 'c', 'd', 'e', 'f', 'g', 'h', 'i', 'j', 'k', 'l', 'm', 'n', 'o', 'p', 'q', 'r', 's', 't', 'u', 'v',
     'w', 'x', 'y', 'z'}
  const UPPER: set<char> :=
    {'A', 'B', 'C', 'D', 'E', 'F', 'G', 'H', 'I', 'J', 'K', 'L', 'M', 'N', 'O', 'P', 'Q', 'R', 'S', 'T', 'U', 'V',
     'W', 'X', 'Y', 'Z'}
  const DIGITS: set<char> :=
    {'0', '1', '2', '3', '4', '5', '6', '7', '8', '9'}

  lemma RangesAre(c: char)
    ensures c in LOWER <==> 'a' <= c <= 'z'
    ensures c in UPPER <==> 'A' <= c <= 'Z'
    ensures c in DIGITS <==> '0' <= c <= '9'
  {
  }

  const SPACES: set<char> :=
    {'\t', '\n', '\U{b}', '\U{c}', '\r', '\U{1c}', '\U{1d}', '\U{1e}', '\U{1f}', ' ', '\U{85}', '\U{a0}', '\U{1680}',
     '\U{2000}', '\U{2001}', '\U{2002}', '\U{2003}', '\U{2004}', '\U{2005}', '\U{2006}', '\U{2007}', '\U{2008}', '\U{2009}',
     '\U{200a}', '\U{2028}', '\U{2029}', '\U{202f}', '\U{205f}', '\U{3000}'}

  lemma SpacesAre(c: char)
    ensures IsSpace(c) <==> c in SPACES
  {
  }

  predicate IsSpace(c: char) {
    || '\t' <= c <= '\r' || '\U{1c}' <= c <= ' ' || c == '\U{85}' || c == '\U{a0}' || c == '\U{1680}'
    || '\U{2000}' <= c <= '\U{200a}' || c == '\U{2028}' || c == '\U{2029}' || c == '\U{202f}'
    || c == '\U{205f}' || c == '\U{3000}'
  }

  function Strip(s: string): string
    decreases |s|
  {
    if s != "" && IsSpace(s[0]) then Strip(s[1..])
    else if s != "" && IsSpace(s[|s| - 1]) then Strip(s[..|s| - 1])
    else s
  }

  /** Everything in front of `l` and from `r` on is white space, and what is between starts and ends with none. */
  predicate StandsBetween(s: string, l: nat, r: nat) {
    && l <= r <= |s|
    && (forall i | 0 <= i < l :: s[i] in SPACES) && (forall i | r <= i < |s| :: s[i] in SPACES)
    && (l < r ==> s[l] !in SPACES && s[r - 1] !in SPACES)
  }

  lemma OneMoreInFront(s: string, l: nat, r: nat)
    requires s != "" && s[0] in SPACES && StandsBetween(s[1..], l, r)
    ensures StandsBetween(s, l + 1, r + 1) && s[1..][l..r] == s[l + 1..r + 1]
  {
    hide SPACES;
    assert forall i | 0 < i < |s| :: s[i] == s[1..][i - 1];
  }

  lemma OneMoreBehind(s: string, l: nat, r: nat)
    requires s != "" && s[|s| - 1] in SPACES && StandsBetween(s[..|s| - 1], l, r)
    ensures StandsBetween(s, l, r) && s[..|s| - 1][l..r] == s[l..r]
  {
    hide SPACES;
    assert forall i | 0 <= i < |s| - 1 :: s[i] == s[..|s| - 1][i];
  }

  /** Stripping cuts off exactly the white space at both ends. */
  lemma {:induction false} StripIs(s: string) returns (l: nat, r: nat)
    ensures StandsBetween(s, l, r) && Strip(s) == s[l..r]
    decreases |s|
  {
    l, r := 0, |s|;
    if s != "" {
      SpacesAre(s[0]);
      SpacesAre(s[|s| - 1]);
      hide IsSpace, SPACES;
      if IsSpace(s[0]) {
        l, r := StripIs(s[1..]);
        OneMoreInFront(s, l, r);
        l, r := l + 1, r + 1;
      } else if IsSpace(s[|s| - 1]) {
        l, r := StripIs(s[..|s| - 1]);
        OneMoreBehind(s, l, r);
      }
    }
  }
}
