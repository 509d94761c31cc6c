/** internal/escape/escape.go: the octal escaping of %output data. */
module Escape {
  import opened Bytes
  import Octal

  // What the front of src decodes to, and how much of src that takes.
  function UnescapeOne(src: string): (r: (char, nat))
    requires src != ""
    ensures 1 <= r.1 <= |src|
  {
    if src[0] == '\\' && Octal.At(src, 1).Some? then (Octal.At(src, 1).value, 4) else (src[0], 1)
  }

  function Unescaped(src: string): string {
    if src == "" then "" else [UnescapeOne(src).0] + Unescaped(src[UnescapeOne(src).1..])
  }

  lemma {:induction false} UnescapedNoLonger(src: string)
    ensures |Unescaped(src)| <= |src|
  {
    if src != "" {
      UnescapedNoLonger(src[UnescapeOne(src).1..]);
    }
  }

  function EscapedByte(c: char): string {
    if c < ' ' || c == '\\' then "\\" + Octal.Write(c) else [c]
  }

  function Escaped(src: string): string {
    if src == "" then "" else EscapedByte(src[0]) + Escaped(src[1..])
  }

  lemma {:induction false} EscapedSnoc(s: string, c: char)
    ensures Escaped(s + [c]) == Escaped(s) + EscapedByte(c)
  {
    if s == "" {
      assert s + [c] == [c];
    } else {
      assert (s + [c])[1..] == s[1..] + [c];
      EscapedSnoc(s[1..], c);
    }
  }

  lemma UnescapedAt(src: string, i: nat)
    requires i < |src|
    ensures var one := UnescapeOne(src[i..]);
            i + one.1 <= |src| && Unescaped(src[i..]) == [one.0] + Unescaped(src[i + one.1..])
  {
    assert src[i..][UnescapeOne(src[i..]).1..] == src[i + UnescapeOne(src[i..]).1..];
  }

  // The body of unescape's loop: the byte it appends at i, and where it reads next.
  method UnescapeNext(src: string, i: nat) returns (b: char, next: nat)
    requires i < |src|
    ensures i < next && (b, next - i) == UnescapeOne(src[i..])
  {
    var c := src[i];
    if c != '\\' {
      return c, i + 1;
    }
    Octal.AtSuffix(src, i);
    var o := Octal.Read(src, i + 1);
    if o.Some? {
      return o.value, i + 4;
    }
    return '\\', i + 1;
  }

  method Unescape(src: string) returns (dst: string)
    ensures dst == Unescaped(src)
  {
    dst := "";
    var i := 0;
    while i < |src|
      invariant 0 <= i <= |src|
      invariant dst + Unescaped(src[i..]) == Unescaped(src)
    {
      UnescapedAt(src, i);
      var b, next := UnescapeNext(src, i);
      assert dst + ([b] + Unescaped(src[next..])) == (dst + [b]) + Unescaped(src[next..]);
      dst, i := dst + [b], next;
    }
  }

  method EscapeBytes(src: string) returns (dst: string)
    ensures dst == Escaped(src)
  {
    dst := "";
    for i := 0 to |src|
      invariant dst == Escaped(src[..i])
    {
      EscapedSnoc(src[..i], src[i]);
      assert src[..i + 1] == src[..i] + [src[i]];
      var c := src[i];
      if c < ' ' || c == '\\' {
        dst := dst + ("\\" + Octal.Write(c));
      } else {
        dst := dst + [c];
      }
    }
    assert src[..|src|] == src;
  }

  lemma {:induction false} UnescapeEscape(b: string)
    ensures Unescaped(Escaped(b)) == b
  {
    if b != "" {
      var rest := Escaped(b[1..]);
      var e := EscapedByte(b[0]) + rest;
      if |EscapedByte(b[0])| > 1 {
        assert e == "\\" + Octal.Write(b[0]) + rest;
        Octal.ReadWrite(b[0], "\\", rest);
        assert e[4..] == rest;
      } else {
        assert e[1..] == rest;
      }
      UnescapeEscape(b[1..]);
      assert b == [b[0]] + b[1..];
    }
  }

  // What needs no escaping is written as it stands.
  lemma {:induction false} EscapedPlain(b: string)
    requires forall i :: 0 <= i < |b| ==> b[i] >= ' ' && b[i] != '\\'
    ensures Escaped(b) == b
  {
    if b != "" {
      EscapedPlain(b[1..]);
      assert b == [b[0]] + b[1..];
    }
  }

  /** Where no backslash stands before three octal digits of a byte, nothing is decoded. */
  lemma {:induction false} UnescapedPlain(src: string)
    requires forall i, c: char :: 0 <= i < |src| && src[i] == '\\' && c as int <= 0xFF ==>
                                    i + 4 > |src| || src[i + 1..i + 4] != Octal.Write(c)
    ensures Unescaped(src) == src
  {
    if src != "" {
      Octal.ReadsOnlyWritten(src, 1);
      forall i, c: char | 0 <= i < |src[1..]| && src[1..][i] == '\\' && c as int <= 0xFF
        ensures i + 4 > |src[1..]| || src[1..][i + 1..i + 4] != Octal.Write(c)
      {
        assert src[i + 1] == '\\';
        assert i + 4 <= |src[1..]| ==> src[1..][i + 1..i + 4] == src[i + 2..i + 5];
      }
      UnescapedPlain(src[1..]);
      assert UnescapeOne(src) == (src[0], 1);
    }
  }

  // Escaped data cannot end a line, nor be taken for one that ends in a carriage return.
  lemma {:induction false} EscapedClean(b: string)
    ensures forall i :: 0 <= i < |Escaped(b)| ==> Escaped(b)[i] >= ' '
  {
    if b != "" {
      EscapedClean(b[1..]);
      var e := EscapedByte(b[0]);
      assert forall i :: 0 <= i < |e| ==> e[i] >= ' ';
    }
  }
}
