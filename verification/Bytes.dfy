/** The slice of Go's `strings` and `strconv` packages the client leans on.

    A byte is a `char`: the client never looks at anything but single bytes, so a Go string
    is a Dafny `string` and every statement about strings covers every byte string. */
module Bytes {
  datatype Option<+T> = None | Some(value: T)

  // ASCII white space, which is where strings.Fields and strings.TrimSpace cut.
  predicate IsSpace(c: char) {
    c == ' ' || '\t' <= c <= '\r'
  }

  predicate IsDigit(c: char) {
    '0' <= c <= '9'
  }

  predicate Blank(s: string) {
    forall i :: 0 <= i < |s| ==> IsSpace(s[i])
  }

  // strings.Cut with a one-byte separator.
  function CutByte(s: string, sep: char): (r: (string, string, bool))
    ensures r.2 <==> sep in s
    ensures r.2 ==> sep !in r.0 && s == r.0 + [sep] + r.1
    ensures !r.2 ==> r.0 == s && r.1 == ""
  {
    if s == "" then ("", "", false)
    else if s[0] == sep then ("", s[1..], true)
    else
      var (before, after, found) := CutByte(s[1..], sep);
      ([s[0]] + before, after, found)
  }

  // The cut falls at the first separator and nowhere else.
  lemma {:induction false} CutByteAt(a: string, sep: char, b: string)
    requires sep !in a
    ensures CutByte(a + [sep] + b, sep) == (a, b, true)
  {
    var s := a + [sep] + b;
    if a == "" {
      assert s == [sep] + b;
    } else {
      assert s[0] == a[0] && [a[0]] + a[1..] == a;
      assert s[1..] == a[1..] + [sep] + b;
      CutByteAt(a[1..], sep, b);
    }
  }

  // strings.Cut with a separator of more than one byte.
  function Cut(s: string, sep: string): (r: (string, string, bool))
    ensures r.2 ==> s == r.0 + sep + r.1
    ensures !r.2 ==> r.0 == s && r.1 == ""
  {
    if sep <= s then ("", s[|sep|..], true)
    else if s == "" then ("", "", false)
    else
      var (before, after, found) := Cut(s[1..], sep);
      ([s[0]] + before, after, found)
  }

  // The cut falls no later than any place the separator stands, so at the first.
  lemma {:induction false} CutNoLater(s: string, sep: string, at: nat)
    requires at <= |s| && sep <= s[at..]
    ensures Cut(s, sep).2 && |Cut(s, sep).0| <= at
  {
    if at == 0 {
      assert s[0..] == s;
    } else if !(sep <= s) {
      assert s[1..][at - 1..] == s[at..];
      CutNoLater(s[1..], sep, at - 1);
    }
  }

  lemma {:induction false} CutAt(a: string, sep: string, b: string)
    requires forall i :: 0 <= i < |a| ==> !(sep <= (a + sep + b)[i..])
    ensures Cut(a + sep + b, sep) == (a, b, true)
  {
    var s := a + sep + b;
    if a == "" {
      assert s == sep + b;
    } else {
      assert s[0..] == s;
      assert s[0] == a[0] && [a[0]] + a[1..] == a;
      assert s[1..] == a[1..] + sep + b;
      forall i | 0 <= i < |a[1..]| ensures !(sep <= s[1..][i..]) {
        assert s[1..][i..] == s[i + 1..];
      }
      CutAt(a[1..], sep, b);
    }
  }

  // strings.Split with a one-byte separator.
  function Split(s: string, sep: char): (parts: seq<string>)
    ensures parts != []
    decreases |s|
  {
    var (before, after, found) := CutByte(s, sep);
    if !found then [s]
    else
      assert |after| < |s|;
      [before] + Split(after, sep)
  }

  lemma Assoc(a: string, b: string, c: string)
    ensures a + (b + c) == a + b + c
  {
  }

  // strings.Join
  function Join(parts: seq<string>, sep: string): string {
    if parts == [] then ""
    else if |parts| == 1 then parts[0]
    else parts[0] + sep + Join(parts[1..], sep)
  }

  lemma {:induction false} JoinSplit(s: string, sep: char)
    ensures Join(Split(s, sep), [sep]) == s
    ensures forall p :: p in Split(s, sep) ==> sep !in p
    decreases |s|
  {
    var (before, after, found) := CutByte(s, sep);
    if found {
      JoinSplit(after, sep);
      assert Split(s, sep)[1..] == Split(after, sep);
    }
  }

  // Splitting is the only inverse joining has: no other list of separator-free parts joins to it.
  lemma {:induction false} SplitJoin(parts: seq<string>, sep: char)
    requires parts != []
    requires forall p :: p in parts ==> sep !in p
    ensures Split(Join(parts, [sep]), sep) == parts
  {
    if |parts| > 1 {
      var rest := Join(parts[1..], [sep]);
      CutByteAt(parts[0], sep, rest);
      SplitJoin(parts[1..], sep);
    }
  }

  lemma SplitTwo(a: string, sep: char, b: string)
    requires sep !in a && sep !in b
    ensures Split(a, sep) == [a]
    ensures Split(a + [sep] + b, sep) == [a, b]
  {
    CutByteAt(a, sep, b);
    assert Split(b, sep) == [b];
  }

  function TrimSuffix(s: string, suffix: char): string {
    if s != "" && s[|s| - 1] == suffix then s[..|s| - 1] else s
  }

  function TrimLeft(s: string): (t: string)
    ensures |t| <= |s|
    ensures t == "" || !IsSpace(t[0])
  {
    if s != "" && IsSpace(s[0]) then TrimLeft(s[1..]) else s
  }

  function TrimRight(s: string): (t: string)
    ensures t <= s
  {
    if s != "" && IsSpace(s[|s| - 1]) then TrimRight(s[..|s| - 1]) else s
  }

  // strings.TrimSpace
  function TrimSpace(s: string): string {
    TrimRight(TrimLeft(s))
  }

  // The longest space-free start of s.
  function Word(s: string): (w: string)
    ensures w <= s
    ensures forall i :: 0 <= i < |w| ==> !IsSpace(w[i])
    ensures |w| == |s| || IsSpace(s[|w|])
  {
    if s == "" || IsSpace(s[0]) then "" else [s[0]] + Word(s[1..])
  }

  // strings.Fields
  function Fields(s: string): (fields: seq<string>)
    decreases |s|
  {
    var t := TrimLeft(s);
    if t == "" then []
    else
      var w := Word(t);
      assert |w| > 0;
      [w] + Fields(t[|w|..])
  }

  predicate IsField(f: string) {
    f != "" && forall i :: 0 <= i < |f| ==> !IsSpace(f[i])
  }

  lemma {:induction false} WordThen(w: string, rest: string)
    requires forall i :: 0 <= i < |w| ==> !IsSpace(w[i])
    requires rest == "" || IsSpace(rest[0])
    ensures Word(w + rest) == w
  {
    if w == "" {
      assert w + rest == rest;
    } else {
      assert (w + rest)[0] == w[0];
      assert (w + rest)[1..] == w[1..] + rest;
      WordThen(w[1..], rest);
    }
  }

  // Fields undoes joining with single spaces.
  lemma {:induction false} FieldsJoin(fields: seq<string>)
    requires forall f :: f in fields ==> IsField(f)
    ensures Fields(Join(fields, " ")) == fields
    ensures fields != [] ==> Fields(" " + Join(fields, " ")) == fields
  {
    if fields != [] {
      var head := fields[0];
      var s := Join(fields, " ");
      var rest := if |fields| == 1 then "" else " " + Join(fields[1..], " ");
      assert head in fields;
      assert s == head + rest;
      assert s[0] == head[0];
      WordThen(head, rest);
      FieldsJoin(fields[1..]);
      assert s[|head|..] == rest;
      assert fields == [head] + fields[1..];
      assert (" " + s)[1..] == s;
      assert TrimLeft(s) == s;
      assert TrimLeft(" " + s) == s;
    }
  }

  // strconv.Itoa
  function Digits(n: nat): (s: string)
    ensures s != "" && forall i :: 0 <= i < |s| ==> IsDigit(s[i])
  {
    if n < 10 then [('0' as int + n) as char]
    else Digits(n / 10) + [('0' as int + n % 10) as char]
  }

  function Itoa(n: int): (s: string)
    ensures IsField(s)
  {
    if n < 0 then "-" + Digits(-n) else Digits(n)
  }

  predicate AllDigits(s: string) {
    s != "" && forall i :: 0 <= i < |s| ==> IsDigit(s[i])
  }

  function DigitValue(c: char): nat
    requires IsDigit(c)
  {
    c as int - '0' as int
  }

  function Decimal(s: string): nat
    requires forall i :: 0 <= i < |s| ==> IsDigit(s[i])
  {
    if s == "" then 0 else Decimal(s[..|s| - 1]) * 10 + DigitValue(s[|s| - 1])
  }

  lemma {:induction false} DecimalDigits(n: nat)
    ensures Decimal(Digits(n)) == n
  {
    var s := Digits(n);
    if n >= 10 {
      DecimalDigits(n / 10);
      assert s[..|s| - 1] == Digits(n / 10);
    } else {
      assert s[..|s| - 1] == "";
    }
  }

  const MIN_INT64 := -0x8000_0000_0000_0000
  const MAX_INT64 := 0x7fff_ffff_ffff_ffff

  predicate Int64(n: int) {
    MIN_INT64 <= n <= MAX_INT64
  }

  // strconv.ParseInt(s, 10, 64), and strconv.Atoi where int has 64 bits.
  function ParseInt(s: string): (r: Option<int>)
    ensures r.Some? ==> Int64(r.value)
  {
    var digits := if s != "" && (s[0] == '-' || s[0] == '+') then s[1..] else s;
    if !AllDigits(digits) then None
    else
      var n: int := if s[0] == '-' then 0 - Decimal(digits) else Decimal(digits);
      if Int64(n) then Some(n) else None
  }

  lemma ParseItoa(n: int)
    ensures ParseInt(Itoa(n)) == if Int64(n) then Some(n) else None
  {
    var s := Itoa(n);
    if n < 0 {
      DecimalDigits(-n);
      assert s[0] == '-' && s[1..] == Digits(-n);
    } else {
      DecimalDigits(n);
      assert s == Digits(n) && IsDigit(s[0]);
    }
  }
}
