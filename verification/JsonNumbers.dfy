/** The numbers that the parser of a script block reads are those of the grammar of section 6 of RFC 8259. */
module JsonNumbers {
  import opened ScriptJson

  predicate Digits(s: string) {
    s != "" && forall k | 0 <= k < |s| :: s[k] in "0123456789"
  }

  /** A zero, or digits without a leading zero. */
  predicate IntPart(s: string) { Digits(s) && (s[0] == '0' ==> s == "0") }

  predicate FracPart(s: string) { s == "" || (s[0] == '.' && Digits(s[1..])) }

  predicate ExpPart(s: string) {
    s == "" || (s[0] in "eE" && (Digits(s[1..]) || (|s| > 1 && s[1] in "+-" && Digits(s[2..]))))
  }

  lemma DigitIs(c: char)
    ensures IsDigit(c) <==> c in "0123456789"
  {
  }

  lemma {:induction false} DigitsEndAt(s: string, i: nat, e: nat)
    requires i <= e <= |s| && (forall k | i <= k < e :: IsDigit(s[k])) && (e == |s| || !IsDigit(s[e]))
    ensures DigitsEnd(s, i) == e
    decreases e - i
  {
    if i < e { DigitsEndAt(s, i + 1, e); }
  }

  /** Digits between two places of a text, as the parser sees them. */
  lemma DigitsAt(s: string, i: nat, e: nat)
    requires i <= e <= |s|
    ensures Digits(s[i..e]) <==> i < e && forall k | i <= k < e :: IsDigit(s[k])
  {
    var part := s[i..e];
    forall k | i <= k < e ensures IsDigit(s[k]) <==> part[k - i] in "0123456789" {
      DigitIs(s[k]);
    }
    if i < e && forall k | i <= k < e :: IsDigit(s[k]) {
      forall k | 0 <= k < |part| ensures part[k] in "0123456789" {
        assert part[k] == s[i + k];
      }
    }
  }

  /** Each part of the grammar stands between two places of the text. */
  predicate Splits(s: string, m: nat, i: nat, j: nat) {
    && m <= i <= j <= |s| && m == (if s != "" && s[0] == '-' then 1 else 0)
    && IntPart(s[m..i]) && FracPart(s[i..j]) && ExpPart(s[j..])
  }

  lemma IntEndAt(s: string, m: nat, i: nat, j: nat)
    requires Splits(s, m, i, j)
    ensures IntEnd(s) == i
  {
    DigitsAt(s, m, i);
    assert s[m..i][0] == s[m];
    if i < |s| {
      if i < j { assert s[i..j][0] == s[i]; } else { assert s[j..][0] == s[i]; }
      DigitIs(s[i]);
    }
    if s[m] == '0' {
      assert s[m..i] == "0";
    } else {
      DigitsEndAt(s, m, i);
    }
  }

  lemma FracEndAt(s: string, m: nat, i: nat, j: nat)
    requires Splits(s, m, i, j)
    ensures FracEnd(s, i) == j
  {
    if j < |s| {
      assert s[j..][0] == s[j];
      DigitIs(s[j]);
    }
    if i < j {
      assert s[i..j][0] == s[i] && s[i..j][1..] == s[i + 1..j];
      DigitsAt(s, i + 1, j);
      DigitsEndAt(s, i + 1, j);
    }
  }

  lemma ExpEndAt(s: string, m: nat, i: nat, j: nat)
    requires Splits(s, m, i, j)
    ensures ExpEnd(s, j) == |s|
  {
    if j < |s| {
      assert s[j..][0] == s[j] && s[j..][1..] == s[j + 1..|s|];
      DigitsAt(s, j + 1, |s|);
      if Digits(s[j..][1..]) {
        DigitIs(s[j + 1]);
        DigitsEndAt(s, j + 1, |s|);
      } else {
        assert s[j..][1] == s[j + 1] && s[j..][2..] == s[j + 2..|s|];
        DigitsAt(s, j + 2, |s|);
        DigitsEndAt(s, j + 2, |s|);
      }
    }
  }

  lemma NumberSplits(s: string)
    requires IsNumber(s)
    ensures Splits(s, if s[0] == '-' then 1 else 0, IntEnd(s), FracEnd(s, IntEnd(s)))
  {
    var m, i := if s[0] == '-' then 1 else 0, IntEnd(s);
    var j := FracEnd(s, i);
    DigitsAt(s, m, i);
    if i < j {
      DigitsAt(s, i + 1, j);
      assert s[i..j][1..] == s[i + 1..j];
    }
    if j < |s| {
      assert s[j..][0] == s[j];
      var k := if j + 1 < |s| && (s[j + 1] == '+' || s[j + 1] == '-') then j + 2 else j + 1;
      DigitsAt(s, k, |s|);
      assert s[j..][k - j..] == s[k..|s|];
    }
  }

  /** A literal is a number exactly where it is a sign, an integer, a fraction and an exponent as the grammar has them. */
  lemma NumberIsGrammar(s: string)
    ensures IsNumber(s) <==> exists m, i, j :: Splits(s, m, i, j)
  {
    if m, i, j :| Splits(s, m, i, j) {
      IntEndAt(s, m, i, j);
      FracEndAt(s, m, i, j);
      ExpEndAt(s, m, i, j);
    }
    if IsNumber(s) { NumberSplits(s); }
  }
}
