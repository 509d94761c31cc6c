/** Three octal digits for one byte: octalByte in vis.go and octalTriple in
    internal/escape/escape.go, which are the same loop. */
module Octal {
  import opened Bytes

  predicate IsOctal(c: char) {
    '0' <= c <= '7'
  }

  function Value(s: string): nat
    requires forall i :: 0 <= i < |s| ==> IsOctal(s[i])
  {
    if s == "" then 0
    else
      assert IsOctal(s[|s| - 1]);
      Value(s[..|s| - 1]) * 8 + DigitValue(s[|s| - 1])
  }

  // The byte written by exactly three octal digits at i, if they are there and fit in a byte.
  function At(s: string, i: nat): Option<char> {
    if i + 3 <= |s| && (forall j :: i <= j < i + 3 ==> IsOctal(s[j])) && Value(s[i..i + 3]) <= 0xFF
    then Some(Value(s[i..i + 3]) as char)
    else None
  }

  lemma AtSuffix(s: string, i: nat)
    requires i + 1 <= |s|
    ensures At(s[i..], 1) == At(s, i + 1)
  {
    if i + 4 <= |s| {
      assert s[i..][1..4] == s[i + 1..i + 4];
      assert forall j :: 1 <= j < 4 ==> s[i..][j] == s[i + j];
    }
  }

  method Read(s: string, i: nat) returns (b: Option<char>)
    ensures b == At(s, i)
  {
    if i + 3 > |s| {
      return None;
    }
    var n := 0;
    for j := i to i + 3
      invariant forall k :: i <= k < j ==> IsOctal(s[k])
      invariant n == Value(s[i..j])
    {
      if s[j] < '0' || s[j] > '7' {
        return None;
      }
      assert s[i..j + 1][..j - i] == s[i..j];
      n := n * 8 + DigitValue(s[j]);
    }
    if n > 0xFF {
      return None;
    }
    return Some(n as char);
  }

  function Digit(n: nat): char {
    ('0' as nat + n % 8) as char
  }

  function Write(c: char): string {
    var n := c as nat;
    [Digit(n / 64), Digit(n / 8), Digit(n)]
  }

  lemma ReadWrite(c: char, before: string, rest: string)
    requires c as int <= 0xFF
    ensures At(before + Write(c) + rest, |before|) == Some(c)
  {
    var s := before + Write(c) + rest;
    var i := |before|;
    var digits := s[i..i + 3];
    assert digits == Write(c);
    assert forall j :: i <= j < i + 3 ==> s[j] == digits[j - i];
    ValueOfWrite(c);
  }

  // And those are the only digits that are read as that byte.
  lemma ReadsOnlyWritten(s: string, i: nat)
    ensures match At(s, i)
            case Some(c) => c as int <= 0xFF && i + 3 <= |s| && s[i..i + 3] == Write(c)
            case None => forall c: char :: c as int <= 0xFF ==> i + 3 > |s| || s[i..i + 3] != Write(c)
  {
    if i + 3 <= |s| {
      var t := s[i..i + 3];
      assert t == [s[i], s[i + 1], s[i + 2]];
      if At(s, i).Some? {
        ValueOfThree(s[i], s[i + 1], s[i + 2]);
        DigitsBack(s[i], s[i + 1], s[i + 2]);
      } else {
        forall c: char | c as int <= 0xFF ensures t != Write(c) {
          assert s == s[..i] + t + s[i + 3..];
          if t == Write(c) {
            ReadWrite(c, s[..i], s[i + 3..]);
          }
        }
      }
    }
  }

  lemma DigitsBack(a: char, b: char, c: char)
    requires IsOctal(a) && IsOctal(b) && IsOctal(c)
    ensures var n := DigitValue(a) * 64 + DigitValue(b) * 8 + DigitValue(c);
            n <= 0xFF ==> Write(n as char) == [a, b, c]
  {
    var x, y, z := DigitValue(a), DigitValue(b), DigitValue(c);
    var n := x * 64 + y * 8 + z;
    assert n / 64 == x && n / 8 == x * 8 + y && n % 8 == z && (x * 8 + y) % 8 == y && x % 8 == x;
  }

  lemma ValueOfThree(a: char, b: char, c: char)
    requires IsOctal(a) && IsOctal(b) && IsOctal(c)
    ensures forall j :: 0 <= j < 3 ==> IsOctal([a, b, c][j])
    ensures Value([a, b, c]) == DigitValue(a) * 64 + DigitValue(b) * 8 + DigitValue(c)
  {
    assert [a, b, c][..2] == [a, b] && [a, b][..1] == [a] && [a][..0] == [];
    assert Value([a, b]) == Value([a]) * 8 + DigitValue(b);
  }

  lemma ValueOfWrite(c: char)
    requires c as int <= 0xFF
    ensures forall j :: 0 <= j < 3 ==> IsOctal(Write(c)[j])
    ensures Value(Write(c)) == c as int
  {
    var n := c as nat;
    assert n / 64 < 8 && (n / 8) % 8 == n / 8 - 8 * (n / 64);
    ValueOfThree(Digit(n / 64), Digit(n / 8), Digit(n));
  }
}
