/** tmuxopts.go: option names and values as show-options prints them. */
module Options {
  import opened Bytes
  import Dollar
  import Octal
  import Tables
  import Vis

  // checkOptionName, as far as its verdict goes: no byte at or below a space.
  ghost predicate PrintableName(name: string) {
    name != "" && forall i :: 0 <= i < |name| ==> name[i] > ' '
  }

  method CheckOptionName(name: string) returns (ok: bool)
    ensures ok <==> PrintableName(name)
    ensures ok <==> name != "" && forall i :: 0 <= i < |name| ==> name[i] > ' '
  {
    if name == "" {
      return false;
    }
    for i := 0 to |name|
      invariant forall j :: 0 <= j < i ==> name[j] > ' '
    {
      if name[i] <= ' ' {
        return false;
      }
    }
    return true;
  }

  const ARGS_ESCAPE_QUOTED := "#';${}%\""

  predicate QuoteDelimited(v: string) {
    |v| >= 2 && (v[0] == '"' || v[0] == '\'') && v[|v| - 1] == v[0]
  }

  function UnprefixOptionValue(v: string): string {
    if |v| < 2 || v[0] != '\\' then v
    else if v[1] == '~' || (|v| == 2 && v[1] in ARGS_ESCAPE_QUOTED) then v[1..]
    else v
  }

  function UnquoteOptionValue(v: string): string {
    Vis.Decode(UnprefixOptionValue(if QuoteDelimited(v) then v[1..|v| - 1] else v))
  }

  /** How tmux prints a value: quoted or not, with a backslash disarming a leading tilde or
      standing before a value of one character, over any vis(3) encoding of the rest. A value that
      holds a quote is never printed bare, since either one makes tmux quote it. */
  datatype Print = Bare | Quoted(quote: char) | Tilde | QuotedTilde(quote: char) | OneByte

  ghost predicate PrintFits(value: string, forms: seq<Vis.Form>, p: Print) {
    && Vis.Fitting(value, forms)
    && match p
       case Bare => '"' !in value && '\'' !in value
       case Quoted(q) => q == '"' || q == '\''
       case Tilde => value != "" && value[0] == '~' && forms[0] == Vis.Raw
       case QuotedTilde(q) => (q == '"' || q == '\'') && value != "" && value[0] == '~' && forms[0] == Vis.Raw
       case OneByte => |value| == 1 && value[0] in ARGS_ESCAPE_QUOTED && forms[0] == Vis.Raw
  }

  function Printed(value: string, forms: seq<Vis.Form>, p: Print): string
    requires |forms| == |value|
  {
    var e := Vis.Encode(value, forms);
    match p
    case Bare => e
    case Quoted(q) => [q] + e + [q]
    case Tilde => "\\" + e
    case QuotedTilde(q) => [q] + ("\\" + e) + [q]
    case OneByte => "\\" + e
  }

  // Taking the prefix off a plain encoding never changes what it decodes to.
  lemma UnprefixEncoded(value: string, forms: seq<Vis.Form>)
    requires Vis.Fitting(value, forms)
    ensures Vis.Decode(UnprefixOptionValue(Vis.Encode(value, forms))) == value
  {
    Vis.DecodeEncode(value, forms);
    var e := Vis.Encode(value, forms);
    if UnprefixOptionValue(e) != e {
      assert Vis.Fits(value[0], forms[0]);
      LoneEscape(value[0], forms[0], Vis.Encode(value[1..], forms[1..]));
      Vis.EncodeNoShorter(value[1..], forms[1..]);
      assert value == [value[0]];
      Vis.DecodePlain(value);
    }
  }

  // An encoded byte the prefix rule would shorten is an escape standing alone, and the letter is the byte.
  lemma LoneEscape(c: char, form: Vis.Form, rest: string)
    requires Vis.Fits(c, form)
    requires var e := Vis.EncodeByte(c, form) + rest; UnprefixOptionValue(e) != e
    ensures rest == "" && c != '\\' && UnprefixOptionValue(Vis.EncodeByte(c, form) + rest) == [c]
  {
    var first := Vis.EncodeByte(c, form);
    var e := first + rest;
    assert e[0] == first[0] && e[0] == '\\' && form != Vis.Raw;
    assert e[1] == first[1];
    assert form.Escaped? && e[1] != '~' && |e| == 2;
    assert e[1..] == [c];
  }

  lemma TildeStaysFirst(value: string, forms: seq<Vis.Form>)
    requires Vis.Fitting(value, forms)
    requires value != "" && value[0] == '~' && forms[0] == Vis.Raw
    ensures var v := "\\" + Vis.Encode(value, forms);
            !QuoteDelimited(v) && Vis.Decode(UnprefixOptionValue(v)) == value
  {
    var e := Vis.Encode(value, forms);
    assert Vis.EncodeByte(value[0], forms[0]) <= e;
    assert ("\\" + e)[1..] == e;
    Vis.DecodeEncode(value, forms);
  }

  lemma {:induction false} DecodeGrows(m: string, q: char)
    requires q == '"' || q == '\''
    ensures |Vis.Decode(m + [q])| >= |Vis.Decode(m)|
    decreases |m|
  {
    if m != "" {
      var used := Vis.DecodeOne(m).1;
      if m[0] == '\\' && |m| == 1 {
        assert (m + [q])[2..] == "";
        assert m[1..] == "";
      } else {
        assert Vis.Named.requires(m[0]);
        assert Vis.DecodeOne(m + [q]) == Vis.DecodeOne(m) by {
          if |m| == 3 && m[0] == '\\' {
            assert !Octal.IsOctal((m + [q])[3]);
          }
          if |m| >= 4 {
            assert (m + [q])[1..4] == m[1..4];
            assert forall j :: 1 <= j < 4 ==> (m + [q])[j] == m[j];
          }
        }
        assert (m + [q])[used..] == m[used..] + [q];
        DecodeGrows(m[used..], q);
      }
    }
  }

  lemma UnprefixNoLonger(m: string)
    ensures |Vis.Decode(UnprefixOptionValue(m))| <= |Vis.Decode(m)|
  {
    if UnprefixOptionValue(m) != m {
      var rest := m[2..];
      assert UnprefixOptionValue(m) == [m[1]] + rest;
      assert ([m[1]] + rest)[1..] == rest;
    }
  }

  lemma BareQuotesAreLost(e: string)
    requires QuoteDelimited(e)
    ensures |UnquoteOptionValue(e)| < |Vis.Decode(e)|
  {
    var m, q := e[1..|e| - 1], e[0];
    DecodeGrows(m, q);
    UnprefixNoLonger(m);
    assert e[1..] == m + [q];
    DecodePastQuote(e);
  }

  lemma DecodePastQuote(e: string)
    requires e != "" && e[0] != '\\'
    ensures Vis.Decode(e) == [e[0]] + Vis.Decode(e[1..])
  {
    assert Vis.DecodeOne(e) == ([e[0]], 1);
  }

  // A text between two equal quotes would lose them if it were bare, and only such a text would.
  lemma UnquoteBare(value: string, forms: seq<Vis.Form>)
    requires Vis.Fitting(value, forms)
    ensures var e := Vis.Encode(value, forms); UnquoteOptionValue(e) == value <==> !QuoteDelimited(e)
  {
    var e := Vis.Encode(value, forms);
    if QuoteDelimited(e) {
      BareQuotesAreLost(e);
      Vis.DecodeEncode(value, forms);
    } else {
      UnprefixEncoded(value, forms);
    }
  }

  lemma UnquoteQuoted(v: string, q: char)
    requires q == '"' || q == '\''
    ensures UnquoteOptionValue([q] + v + [q]) == Vis.Decode(UnprefixOptionValue(v))
  {
    var s := [q] + v + [q];
    assert s[1..|s| - 1] == v;
  }

  lemma UnquoteOneByte(c: char, forms: seq<Vis.Form>)
    requires c in ARGS_ESCAPE_QUOTED && forms == [Vis.Raw]
    ensures Vis.Encode([c], forms) == [c]
    ensures UnquoteOptionValue(['\\', c]) == [c]
  {
    assert Vis.Encode([c][1..], forms[1..]) == "";
    assert ['\\', c][1..] == [c];
    Vis.DecodePlain([c]);
  }

  /** A backslash comes off a single byte exactly where tmux puts one before it, and off every escape. */
  lemma UnquoteTwo(c: char)
    ensures UnquoteOptionValue(['\\', c]) ==
            if c in "#';${}%\"~\\" then [c]
            else match Vis.Named(c)
                 case Some(b) => [b]
                 case None => ['\\', c]
  {
    var v := ['\\', c];
    assert v[1..] == [c] && v[2..] == "";
    assert Octal.At(v, 1).None? && Vis.Decode(v) == Vis.DecodeOne(v).0 + Vis.Decode("");
    if c != '\\' {
      Vis.DecodePlain([c]);
    }
  }

  // A quote can only begin an encoding as the byte it is.
  lemma BareStartsPlain(value: string, forms: seq<Vis.Form>)
    requires PrintFits(value, forms, Bare)
    ensures !QuoteDelimited(Vis.Encode(value, forms))
  {
    if value != "" {
      var first := Vis.EncodeByte(value[0], forms[0]);
      assert Vis.Fits(value[0], forms[0]);
      assert first[0] == '\\' || first[0] == value[0];
      assert Vis.Encode(value, forms)[0] == first[0];
    }
  }

  /** A printed value reads back as the value it was printed from, in every form tmux prints. */
  lemma UnquotePrinted(value: string, forms: seq<Vis.Form>, p: Print)
    requires PrintFits(value, forms, p)
    ensures UnquoteOptionValue(Printed(value, forms, p)) == value
  {
    var e := Vis.Encode(value, forms);
    match p
    case Bare =>
      BareStartsPlain(value, forms);
      UnquoteBare(value, forms);
    case Quoted(q) =>
      UnquoteQuoted(e, q);
      UnprefixEncoded(value, forms);
    case Tilde =>
      TildeStaysFirst(value, forms);
    case QuotedTilde(q) =>
      UnquoteQuoted("\\" + e, q);
      TildeStaysFirst(value, forms);
    case OneByte =>
      assert value == [value[0]] && forms == [Vis.Raw];
      UnquoteOneByte(value[0], forms);
      assert "\\" + e == ['\\', value[0]];
  }

  // splitArrayElement: the "[index]" taken off a name tmux printed.
  function SplitArrayElement(printed: string): (r: (string, bool))
    ensures r.1 ==> r.0 < printed && r.0 != "" && printed[|r.0|] == '['
    ensures !r.1 ==> r.0 == printed
  {
    var open := LastIndex(printed, '[');
    if open <= 0 || printed[|printed| - 1] != ']' then (printed, false)
    else
      var index := printed[open + 1..|printed| - 1];
      if AllDigits(index) then (printed[..open], true) else (printed, false)
  }

  // strings.LastIndexByte
  function LastIndex(s: string, c: char): (i: int)
    ensures -1 <= i < |s|
    ensures i >= 0 ==> s[i] == c
    ensures forall j :: i < j < |s| ==> s[j] != c
  {
    if s == "" then -1
    else if s[|s| - 1] == c then |s| - 1
    else LastIndex(s[..|s| - 1], c)
  }

  lemma SplitIndexed(base: string, d: string)
    requires base != "" && AllDigits(d)
    ensures SplitArrayElement(base + "[" + d + "]") == (base, true)
  {
    var s := base + "[" + d + "]";
    var open := LastIndex(s, '[');
    assert s[|base|] == '[';
    assert forall j :: |base| < j < |s| - 1 ==> s[j] == d[j - |base| - 1] != '[';
    assert open == |base|;
    assert s[open + 1..|s| - 1] == d;
    assert s[..open] == base;
  }

  ghost predicate Indexed(printed: string, base: string, d: string) {
    base != "" && AllDigits(d) && printed == base + "[" + d + "]"
  }

  /** A decimal index in brackets after something, and only that, comes off a name. */
  lemma SplitExactly(printed: string)
    ensures var (base, split) := SplitArrayElement(printed);
            && (split <==> exists b, d :: Indexed(printed, b, d))
            && (if split then exists d :: Indexed(printed, base, d) else base == printed)
  {
    var (base, split) := SplitArrayElement(printed);
    if split {
      var d := printed[|base| + 1..|printed| - 1];
      assert base == printed[..|base|] && printed[|base|] == '[' && printed[|printed| - 1] == ']';
      assert printed == base + "[" + d + "]";
      assert Indexed(printed, base, d);
    }
    if b, d :| Indexed(printed, b, d) {
      SplitIndexed(b, d);
    }
  }

  // --- ShowOptions ---------------------------------------------------------------------------

  // The lines show-options prints, read into a map; the last line for a name wins.
  function ReadOptions(fault: bool, lines: seq<string>): map<string, string> {
    if lines == [] then map[]
    else
      var before := ReadOptions(fault, lines[..|lines| - 1]);
      var line := lines[|lines| - 1];
      if line == "" then before
      else
        var (name, value, found) := CutByte(line, ' ');
        before[Dollar.DecodeStored(fault, name) :=
               if found then Dollar.DecodeStored(fault, UnquoteOptionValue(value)) else ""]
  }

  method ShowOptions(fault: bool, lines: seq<string>) returns (opts: map<string, string>)
    ensures opts == ReadOptions(fault, lines)
  {
    opts := map[];
    for i := 0 to |lines|
      invariant opts == ReadOptions(fault, lines[..i])
    {
      assert lines[..i + 1][..i] == lines[..i];
      var line := lines[i];
      if line != "" {
        var (name, value, found) := CutByte(line, ' ');
        if !found {
          opts := opts[Dollar.DecodeStored(fault, line) := ""];
        } else {
          opts := opts[Dollar.DecodeStored(fault, name) :=
                       Dollar.DecodeStored(fault, UnquoteOptionValue(value))];
        }
      }
    }
    assert lines[..|lines|] == lines;
  }

  // An option as its owner knows it, and how tmux happens to print its stored value; a flag that is
  // set is printed as its name alone.
  datatype Setting =
    | Setting(name: string, given: string, forms: seq<Vis.Form>, form: Print)
    | Flag(name: string)
  {
    function Value(): string {
      if Flag? then "" else given
    }
  }

  ghost predicate Readable(fault: bool, o: Setting) {
    PrintableName(o.name) && (o.Setting? ==> PrintFits(Dollar.Stored(fault, o.given), o.forms, o.form))
  }

  function PrintLine(fault: bool, o: Setting): string
    requires o.Setting? ==> |o.forms| == |Dollar.Stored(fault, o.given)|
  {
    Dollar.Stored(fault, o.name)
    + if o.Flag? then "" else " " + Printed(Dollar.Stored(fault, o.given), o.forms, o.form)
  }

  // The lines that are not blank are these options', in order.
  ghost predicate Lists(fault: bool, opts: seq<Setting>, lines: seq<string>) {
    var full := Filled(lines);
    && |full| == |opts|
    && forall i :: 0 <= i < |opts| ==> Readable(fault, opts[i]) && full[i] == PrintLine(fault, opts[i])
  }

  function Filled(lines: seq<string>): seq<string> {
    if lines == [] then []
    else Filled(lines[..|lines| - 1]) + if lines[|lines| - 1] == "" then [] else [lines[|lines| - 1]]
  }

  ghost predicate DistinctNames(opts: seq<Setting>) {
    forall i, j :: 0 <= i < j < |opts| ==> opts[i].name != opts[j].name
  }

  function Pairs(opts: seq<Setting>): Tables.Entries {
    seq(|opts|, i requires 0 <= i < |opts| => (opts[i].name, opts[i].Value()))
  }

  // A stored name ends at the separator, or at the end of the line.
  lemma CutName(fault: bool, name: string, tail: string)
    requires PrintableName(name)
    ensures var stored := Dollar.Stored(fault, name);
            && stored != ""
            && CutByte(stored, ' ') == (stored, "", false)
            && CutByte(stored + " " + tail, ' ') == (stored, tail, true)
  {
    Dollar.InsertedBytes(name, ' ');
    assert ' ' !in Dollar.Stored(fault, name);
    CutByteAt(Dollar.Stored(fault, name), ' ', tail);
  }

  lemma CutFlag(fault: bool, name: string)
    requires PrintableName(name)
    ensures var line := PrintLine(fault, Flag(name));
            line != "" && CutByte(line, ' ') == (Dollar.Stored(fault, name), "", false)
  {
    CutName(fault, name, "");
    assert Dollar.Stored(fault, name) + "" == Dollar.Stored(fault, name);
  }

  lemma CutSetting(fault: bool, o: Setting)
    requires Readable(fault, o) && o.Setting?
    ensures var line := PrintLine(fault, o);
            && line != ""
            && CutByte(line, ' ') ==
               (Dollar.Stored(fault, o.name), Printed(Dollar.Stored(fault, o.given), o.forms, o.form), true)
  {
    var stored, value := Dollar.Stored(fault, o.name), Printed(Dollar.Stored(fault, o.given), o.forms, o.form);
    CutName(fault, o.name, value);
    Assoc(stored, " ", value);
  }

  // What the reader's cut finds on a printed line.
  lemma CutPrintLine(fault: bool, o: Setting)
    requires Readable(fault, o)
    ensures PrintLine(fault, o) != ""
    ensures var (name, value, found) := CutByte(PrintLine(fault, o), ' ');
            && name == Dollar.Stored(fault, o.name) && found == o.Setting?
            && (found ==> value == Printed(Dollar.Stored(fault, o.given), o.forms, o.form))
  {
    if o.Setting? {
      CutSetting(fault, o);
    } else {
      CutFlag(fault, o.name);
    }
  }

  lemma ReadPrintLine(fault: bool, o: Setting)
    requires Readable(fault, o)
    ensures var (name, value, found) := CutByte(PrintLine(fault, o), ' ');
            && Dollar.DecodeStored(fault, name) == o.name
            && found == o.Setting?
            && (found ==> Dollar.DecodeStored(fault, UnquoteOptionValue(value)) == o.given)
  {
    CutPrintLine(fault, o);
    Dollar.DecodeStoredInverts(fault, o.name);
    if o.Setting? {
      UnquotePrinted(Dollar.Stored(fault, o.given), o.forms, o.form);
      Dollar.DecodeStoredInverts(fault, o.given);
    }
  }

  lemma ReadLast(fault: bool, lines: seq<string>, o: Setting)
    requires Readable(fault, o) && lines != [] && lines[|lines| - 1] == PrintLine(fault, o)
    ensures ReadOptions(fault, lines) == ReadOptions(fault, lines[..|lines| - 1])[o.name := o.Value()]
  {
    CutPrintLine(fault, o);
    ReadPrintLine(fault, o);
  }

  lemma PairsLast(opts: seq<Setting>)
    requires opts != []
    ensures var k := |opts| - 1;
            Tables.Fill(Pairs(opts)) == Tables.Fill(Pairs(opts[..k]))[opts[k].name := opts[k].Value()]
  {
    var k := |opts| - 1;
    assert Pairs(opts) == Pairs(opts[..k]) + [(opts[k].name, opts[k].Value())];
    Tables.FillSnoc(Pairs(opts[..k]), opts[k].name, opts[k].Value());
  }

  lemma ListsFront(fault: bool, opts: seq<Setting>, lines: seq<string>)
    requires Lists(fault, opts, lines) && lines != []
    ensures var n, k := |lines| - 1, |opts| - 1;
            if lines[n] == "" then Lists(fault, opts, lines[..n])
            else
              opts != [] && Lists(fault, opts[..k], lines[..n])
              && Readable(fault, opts[k]) && lines[n] == PrintLine(fault, opts[k])
  {
    var n := |lines| - 1;
    if lines[n] == "" {
      assert Filled(lines[..n]) + [] == Filled(lines[..n]);
    }
  }

  lemma {:induction false} ReadFills(fault: bool, opts: seq<Setting>, lines: seq<string>)
    requires Lists(fault, opts, lines)
    ensures ReadOptions(fault, lines) == Tables.Fill(Pairs(opts))
    decreases |lines|
  {
    if lines != [] {
      var n, k := |lines| - 1, |opts| - 1;
      ListsFront(fault, opts, lines);
      if lines[n] == "" {
        ReadFills(fault, opts, lines[..n]);
      } else {
        ReadFills(fault, opts[..k], lines[..n]);
        ReadLast(fault, lines, opts[k]);
        PairsLast(opts);
      }
    }
  }

  /** A table of options whose names pass checkOptionName is read back whole, flags printed alone and
      blank lines included: the listing maps each name to its own value, and holds no other name. */
  lemma ShowOptionsInverts(fault: bool, opts: seq<Setting>, lines: seq<string>)
    requires Lists(fault, opts, lines) && DistinctNames(opts)
    ensures var m := ReadOptions(fault, lines);
            && (forall i :: 0 <= i < |opts| ==> opts[i].name in m && m[opts[i].name] == opts[i].Value())
            && (forall n :: n in m ==> exists i :: 0 <= i < |opts| && opts[i].name == n)
  {
    ReadFills(fault, opts, lines);
    var pairs := Pairs(opts);
    assert forall i :: 0 <= i < |opts| ==> pairs[i].0 == opts[i].name && pairs[i].1 == opts[i].Value();
    Tables.FillHolds(pairs);
  }
}
