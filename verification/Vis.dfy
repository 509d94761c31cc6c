/** vis.go: the vis(3) escaping tmux gives a name it stores and an option value it prints. */
module Vis {
  import opened Bytes
  import Octal

  const BEL := '\U{07}'
  const BS := '\U{08}'
  const VT := '\U{0B}'
  const FF := '\U{0C}'
  const DEL := '\U{7F}'

  // The byte a two-byte escape stands for.
  function Named(letter: char): Option<char> {
    match letter
    case 'a' => Some(BEL)
    case 'b' => Some(BS)
    case 'f' => Some(FF)
    case 'n' => Some('\n')
    case 'r' => Some('\r')
    case 't' => Some('\t')
    case 'v' => Some(VT)
    case 's' => Some(' ')
    case '\\' => Some('\\')
    case '"' => Some('"')
    case '\'' => Some('\'')
    case '$' => Some('$')
    case _ => None
  }

  // What the front of v decodes to, and how much of v that takes.
  function DecodeOne(v: string): (r: (string, nat))
    requires v != ""
    ensures 1 <= r.1 <= |v|
  {
    if v[0] != '\\' || |v| == 1 then ([v[0]], 1)
    else if Named(v[1]).Some? then ([Named(v[1]).value], 2)
    else if Octal.At(v, 1).Some? then ([Octal.At(v, 1).value], 4)
    else (['\\', v[1]], 2)
  }

  function Decode(v: string): string {
    if v == "" then "" else DecodeOne(v).0 + Decode(v[DecodeOne(v).1..])
  }

  lemma {:induction false} DecodePlain(v: string)
    requires '\\' !in v
    ensures Decode(v) == v
  {
    if v != "" {
      DecodePlain(v[1..]);
    }
  }

  lemma DecodeAt(v: string, i: nat)
    requires i < |v|
    ensures var one := DecodeOne(v[i..]);
            i + one.1 <= |v| && Decode(v[i..]) == one.0 + Decode(v[i + one.1..])
  {
    assert v[i..][DecodeOne(v[i..]).1..] == v[i + DecodeOne(v[i..]).1..];
  }

  // DecodeOne read at an index instead of at the front.
  lemma DecodeOneAt(v: string, i: nat)
    requires i < |v|
    ensures DecodeOne(v[i..]) ==
            if v[i] != '\\' || i + 1 == |v| then ([v[i]], 1)
            else if Named(v[i + 1]).Some? then ([Named(v[i + 1]).value], 2)
            else if Octal.At(v, i + 1).Some? then ([Octal.At(v, i + 1).value], 4)
            else (['\\', v[i + 1]], 2)
  {
    Octal.AtSuffix(v, i);
  }

  // The body of visDecode's loop: what it writes for the byte at i, and where it reads next.
  method DecodeNext(v: string, i: nat) returns (out: string, next: nat)
    requires i < |v|
    ensures i < next <= |v| && (out, next - i) == DecodeOne(v[i..])
  {
    DecodeOneAt(v, i);
    if v[i] != '\\' || i + 1 >= |v| {
      return [v[i]], i + 1;
    }
    var c := v[i + 1];
    var named := Named(c);
    if named.Some? {
      return [named.value], i + 2;
    }
    var o := Octal.Read(v, i + 1);
    if o.Some? {
      return [o.value], i + 4;
    }
    return ['\\', c], i + 2;
  }

  method VisDecode(v: string) returns (r: string)
    ensures r == Decode(v)
  {
    if '\\' !in v {
      DecodePlain(v);
      return v;
    }
    r := "";
    var i := 0;
    while i < |v|
      invariant 0 <= i <= |v|
      invariant r + Decode(v[i..]) == Decode(v)
    {
      var out, next := DecodeNext(v, i);
      DecodedSoFar(v, r, i, out, next);
      r, i := r + out, next;
    }
    assert v[i..] == "" && r + "" == r;
  }

  lemma DecodedSoFar(v: string, r: string, i: nat, out: string, next: nat)
    requires i < |v| && i < next <= |v| && (out, next - i) == DecodeOne(v[i..])
    ensures r + Decode(v[i..]) == r + out + Decode(v[next..])
  {
    DecodeAt(v, i);
    Assoc(r, out, Decode(v[next..]));
  }

  // --- Every encoding the decoder has to undo --------------------------------------------------

  // How one byte may be written: as it stands, by its two-byte escape, or in octal.
  datatype Form = Raw | Escaped(letter: char) | Digits

  predicate Fits(c: char, f: Form) {
    match f
    case Raw => c != '\\'
    case Escaped(letter) => Named(letter) == Some(c)
    case Digits => c as int <= 0xFF
  }

  function EncodeByte(c: char, f: Form): string {
    match f
    case Raw => [c]
    case Escaped(letter) => ['\\', letter]
    case Digits => "\\" + Octal.Write(c)
  }

  ghost predicate Fitting(s: string, forms: seq<Form>) {
    |forms| == |s| && forall i :: 0 <= i < |s| ==> Fits(s[i], forms[i])
  }

  function Encode(s: string, forms: seq<Form>): string
    requires |forms| == |s|
  {
    if s == "" then "" else EncodeByte(s[0], forms[0]) + Encode(s[1..], forms[1..])
  }

  lemma DecodeByte(c: char, f: Form, rest: string)
    requires Fits(c, f)
    ensures Decode(EncodeByte(c, f) + rest) == [c] + Decode(rest)
  {
    var e := EncodeByte(c, f) + rest;
    match f
    case Raw => assert e[1..] == rest;
    case Escaped(_) => assert e[2..] == rest;
    case Digits =>
      assert e == "\\" + Octal.Write(c) + rest;
      Octal.ReadWrite(c, "\\", rest);
      assert e[4..] == rest;
      assert Named(Octal.Write(c)[0]).None?;
  }

  /** The decoder recovers the bytes from every mixed encoding, whatever form each byte took. */
  lemma {:induction false} DecodeEncode(s: string, forms: seq<Form>)
    requires Fitting(s, forms)
    ensures Decode(Encode(s, forms)) == s
  {
    if s != "" {
      DecodeByte(s[0], forms[0], Encode(s[1..], forms[1..]));
      DecodeEncode(s[1..], forms[1..]);
      assert s == [s[0]] + s[1..];
    }
  }

  // The three escapes tmux's writer never uses.
  lemma DecodeUnwritten(rest: string)
    ensures Decode("\\s" + rest) == " " + Decode(rest)
    ensures Decode("\\\"" + rest) == "\"" + Decode(rest)
    ensures Decode("\\'" + rest) == "'" + Decode(rest)
  {
    DecodeByte(' ', Escaped('s'), rest);
    DecodeByte('"', Escaped('"'), rest);
    DecodeByte('\'', Escaped('\''), rest);
  }

  // A backslash before anything else is kept, and so is that.
  lemma DecodeKeeps(c: char, rest: string)
    requires c !in "abfnrtvs$\\\"'"
    requires forall b: char :: b as int <= 0xFF ==> !(Octal.Write(b) <= [c] + rest)
    ensures Decode(['\\', c] + rest) == ['\\', c] + Decode(rest)
    ensures Decode("\\") == "\\"
  {
    var v := ['\\', c] + rest;
    assert v[1..] == [c] + rest && v[2..] == rest;
    assert |v| >= 4 ==> v[1..4] == ([c] + rest)[..3];
    Octal.ReadsOnlyWritten(v, 1);
  }

  lemma {:induction false} EncodeNoShorter(s: string, forms: seq<Form>)
    requires |forms| == |s|
    ensures |Encode(s, forms)| >= |s|
  {
    if s != "" {
      EncodeNoShorter(s[1..], forms[1..]);
    }
  }

  // visEscape: "" for a byte tmux writes as it stands.
  function Escape(c: char): string {
    if c == '\\' then "\\\\"
    else if c == '$' then "\\$"
    else if c == BEL then "\\a"
    else if c == BS then "\\b"
    else if c == '\t' then "\\t"
    else if c == '\n' then "\\n"
    else if c == VT then "\\v"
    else if c == FF then "\\f"
    else if c == '\r' then "\\r"
    else if c >= ' ' && c != DEL then ""
    else "\\" + Octal.Write(c)
  }

  function Written(c: char): string {
    if Escape(c) != "" then Escape(c) else [c]
  }

  function WriteName(s: string): string {
    if s == "" then "" else Written(s[0]) + WriteName(s[1..])
  }

  lemma {:induction false} WriteNameSnoc(s: string, c: char)
    ensures WriteName(s + [c]) == WriteName(s) + Written(c)
  {
    if s == "" {
      assert s + [c] == [c];
    } else {
      assert (s + [c])[1..] == s[1..] + [c];
      WriteNameSnoc(s[1..], c);
    }
  }

  method VisEncode(s: string) returns (b: string)
    ensures b == WriteName(s)
  {
    var i := 0;
    while i < |s| && Escape(s[i]) == ""
      invariant 0 <= i <= |s|
      invariant WriteName(s[..i]) == s[..i]
    {
      assert s[..i + 1] == s[..i] + [s[i]];
      WriteNameSnoc(s[..i], s[i]);
      i := i + 1;
    }
    if i == |s| {
      assert s[..i] == s;
      return s;
    }
    b := s[..i];
    while i < |s|
      invariant 0 <= i <= |s|
      invariant b == WriteName(s[..i])
    {
      assert s[..i + 1] == s[..i] + [s[i]];
      WriteNameSnoc(s[..i], s[i]);
      var e := Escape(s[i]);
      b := b + if e != "" then e else [s[i]];
      i := i + 1;
    }
    assert s[..i] == s;
  }

  function FormOf(c: char): Form {
    if Escape(c) == "" then Raw
    else if |Escape(c)| == 2 then Escaped(Escape(c)[1])
    else Digits
  }

  function FormsOf(s: string): seq<Form> {
    if s == "" then [] else [FormOf(s[0])] + FormsOf(s[1..])
  }

  lemma {:induction false} WriteNameEncodes(s: string)
    ensures Fitting(s, FormsOf(s)) && Encode(s, FormsOf(s)) == WriteName(s)
  {
    if s != "" {
      WriteNameEncodes(s[1..]);
      var forms := FormsOf(s);
      assert forms[1..] == FormsOf(s[1..]);
      forall i | 1 <= i < |s| ensures Fits(s[i], forms[i]) {
        assert Fits(s[1..][i - 1], forms[1..][i - 1]);
      }
    }
  }

  lemma DecodeWriteName(s: string)
    ensures Decode(WriteName(s)) == s
  {
    WriteNameEncodes(s);
    DecodeEncode(s, FormsOf(s));
  }

  // What each byte of a name is written as: the printable ones as they stand, but for a backslash and a
  // '$', nine by a letter, and the rest in octal.
  lemma WrittenAs(c: char)
    ensures var w := Written(c);
            if c in "\\$\t\n\r" || c == BEL || c == BS || c == VT || c == FF then |w| == 2 && w[0] == '\\'
            else if ' ' <= c && c != DEL then w == [c]
            else w == "\\" + Octal.Write(c)
  {
  }

  // A stored name can end neither a row nor a column, and holds no bare '$'.
  lemma {:induction false} WriteNameClean(s: string)
    ensures forall i :: 0 <= i < |WriteName(s)| ==> ' ' <= WriteName(s)[i] != DEL
    ensures forall i :: 0 <= i < |WriteName(s)| && WriteName(s)[i] == '$' ==> i > 0 && WriteName(s)[i - 1] == '\\'
  {
    if s != "" {
      WriteNameClean(s[1..]);
      var w := Written(s[0]);
      assert forall i :: 0 <= i < |w| ==> ' ' <= w[i] != DEL;
    }
  }
}
