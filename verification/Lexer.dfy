/** tmux's command-line lexer, as the comments in control.go and control_cmds.go state its rules,
    and the guards `Do` puts on a command line because of them. */
module Lexer {
  import opened Bytes

  // What the lexer is in the middle of. `start` says a byte would begin a token.
  datatype Mode = Plain(start: bool) | Single | Double | EscapedPlain | EscapedDouble

  function Next(m: Mode, c: char): Mode {
    match m
    case Plain(_) =>
      if c == '\\' then EscapedPlain
      else if c == '\'' then Single
      else if c == '"' then Double
      else Plain(c == ' ' || c == '\t')
    case Single => if c == '\'' then Plain(false) else Single
    case Double => if c == '\\' then EscapedDouble else if c == '"' then Plain(false) else Double
    case EscapedPlain => Plain(false)
    case EscapedDouble => Double
  }

  function Run(m: Mode, s: string): Mode
    decreases |s|
  {
    if s == "" then m else Run(Next(m, s[0]), s[1..])
  }

  // A byte that ends this command: a separator, or a brace opening a token.
  predicate Breaks(m: Mode, c: char) {
    m.Plain? && (c == ';' || (c == '{' && m.start))
  }

  predicate BreakAt(cmd: string, i: nat) {
    i < |cmd| && Breaks(Run(Plain(true), cmd[..i]), cmd[i])
  }

  ghost predicate OneCommand(cmd: string) {
    forall i: nat :: i < |cmd| ==> !BreakAt(cmd, i)
  }

  // Only blanks stand before a '#' at i, so the whole line is a comment.
  predicate CommentAt(cmd: string, i: nat) {
    i < |cmd| && cmd[i] == '#' && forall j :: 0 <= j < i ==> cmd[j] == ' ' || cmd[j] == '\t'
  }

  ghost predicate IsComment(cmd: string) {
    exists i: nat :: CommentAt(cmd, i)
  }

  function Grow(word: Option<string>, more: string): Option<string> {
    Some((if word.Some? then word.value else "") + more)
  }

  lemma GrowTwice(word: Option<string>, a: string, b: string)
    ensures Grow(Grow(word, a), b) == Grow(word, a + b)
  {
    var read := if word.Some? then word.value else "";
    assert (read + a) + b == read + (a + b);
  }

  // A letter or a digit after a backslash is a named escape. The only one whose meaning the
  // rules fix is \n inside double quotes.
  predicate Named(c: char) {
    'a' <= c <= 'z' || 'A' <= c <= 'Z' || IsDigit(c)
  }

  /** The arguments of the one command on the line, or None when the line is not one command made
      of literal bytes: a second command, a brace, a comment, a %directive, a home directory, an
      expansion, a named escape or an unfinished quote. `word` is the argument being read. */
  function Scan(s: string, m: Mode, word: Option<string>): Option<seq<string>> {
    if s == "" then
      if !m.Plain? then None else Some(if word.Some? then [word.value] else [])
    else
      var c := s[0];
      var next := Next(m, c);
      match m
      case Plain(start) =>
        if c == ' ' || c == '\t' then
          var rest := Scan(s[1..], next, None);
          if word.Some? && rest.Some? then Some([word.value] + rest.value) else rest
        else if Breaks(m, c) || c == '$' || (start && c in "#%~") then None
        else if c in "\\'\"" then Scan(s[1..], next, Grow(word, ""))
        else Scan(s[1..], next, Grow(word, [c]))
      case Single => Scan(s[1..], next, Grow(word, if c == '\'' then "" else [c]))
      case Double =>
        if c == '$' || c == '#' then None
        else Scan(s[1..], next, Grow(word, if c in "\\\"" then "" else [c]))
      case EscapedPlain =>
        if Named(c) then None else Scan(s[1..], next, Grow(word, [c]))
      case EscapedDouble =>
        if c == 'n' then Scan(s[1..], next, Grow(word, "\n"))
        else if Named(c) then None
        else Scan(s[1..], next, Grow(word, [c]))
  }

  function Lex(line: string): Option<seq<string>> {
    Scan(line, Plain(true), None)
  }

  // tmux reads one command per line, and reads it as a C string.
  function CLine(sent: string): (line: string)
    ensures '\n' !in sent && '\0' !in sent ==> line == sent
  {
    if sent == "" || sent[0] == '\n' || sent[0] == '\0' then ""
    else [sent[0]] + CLine(sent[1..])
  }

  lemma {:induction false} RunSnoc(m: Mode, s: string, i: nat)
    requires i < |s|
    ensures Run(m, s[..i + 1]) == Next(Run(m, s[..i]), s[i])
    decreases i
  {
    if i > 0 {
      assert s[..i + 1][1..] == s[1..][..i];
      assert s[..i][1..] == s[1..][..i - 1];
      RunSnoc(Next(m, s[0]), s[1..], i - 1);
    } else {
      assert s[..1][1..] == "";
    }
  }

  lemma {:induction false} ScanNoBreak(s: string, m: Mode, word: Option<string>, i: nat)
    requires Scan(s, m, word).Some?
    requires i < |s|
    ensures !Breaks(Run(m, s[..i]), s[i])
  {
    if i > 0 {
      assert s[..i][1..] == s[1..][..i - 1];
      var next := Next(m, s[0]);
      var w :| Scan(s[1..], next, w).Some?;
      ScanNoBreak(s[1..], next, w, i - 1);
    }
  }

  lemma {:induction false} ScanNoComment(s: string, i: nat)
    requires Scan(s, Plain(true), None).Some?
    ensures !CommentAt(s, i)
  {
    if i > 0 && i < |s| && (s[0] == ' ' || s[0] == '\t') {
      ScanNoComment(s[1..], i - 1);
    }
  }

  // A line the lexer reads as literal arguments never trips either guard on command counts.
  lemma LexedLinePasses(line: string)
    requires Lex(line).Some?
    ensures OneCommand(line) && !IsComment(line)
  {
    forall i: nat | i < |line| ensures !BreakAt(line, i) {
      ScanNoBreak(line, Plain(true), None, i);
    }
    forall i: nat ensures !CommentAt(line, i) {
      ScanNoComment(line, i);
    }
  }

  // --- What is refused ---------------------------------------------------------------------------

  // Somewhere in `s` the command ends.
  predicate Breaking(m: Mode, s: string)
    decreases |s|
  {
    s != "" && (Breaks(m, s[0]) || Breaking(Next(m, s[0]), s[1..]))
  }

  lemma {:induction false} BreakingAt(m: Mode, s: string)
    ensures Breaking(m, s) <==> exists i: nat :: i < |s| && Breaks(Run(m, s[..i]), s[i])
    decreases |s|
  {
    if s != "" {
      var next, rest := Next(m, s[0]), s[1..];
      BreakingAt(next, rest);
      if i: nat :| i < |rest| && Breaks(Run(next, rest[..i]), rest[i]) {
        assert s[..i + 1][1..] == rest[..i];
        assert i + 1 < |s| && Breaks(Run(m, s[..i + 1]), s[i + 1]);
      }
      if i: nat :| i < |s| && Breaks(Run(m, s[..i]), s[i]) && i > 0 {
        assert s[..i][1..] == rest[..i - 1];
      }
      assert Breaks(m, s[0]) ==> Breaks(Run(m, s[..0]), s[0]);
    }
  }

  lemma OneCommandUnbroken(cmd: string)
    ensures OneCommand(cmd) <==> !Breaking(Plain(true), cmd)
  {
    BreakingAt(Plain(true), cmd);
    assert forall i: nat :: i < |cmd| ==> (BreakAt(cmd, i) <==> Breaks(Run(Plain(true), cmd[..i]), cmd[i]));
  }

  // A stretch of a line: a byte outside quotes, a byte behind a backslash, or a quoted text.
  datatype Piece = Bare(c: char) | Escaped(c: char) | SingleQuoted(s: string) | DoubleQuoted(s: string)

  // In double quotes a backslash takes the byte after it along.
  predicate Closed(s: string)
    decreases |s|
  {
    || s == ""
    || (s[0] != '\\' && s[0] != '"' && Closed(s[1..]))
    || (s[0] == '\\' && |s| > 1 && Closed(s[2..]))
  }

  predicate WellFormed(p: Piece) {
    match p
    case Bare(c) => c != '\\' && c != '\'' && c != '"'
    case Escaped(_) => true
    case SingleQuoted(s) => '\'' !in s
    case DoubleQuoted(s) => Closed(s)
  }

  function PieceText(p: Piece): string {
    match p
    case Bare(c) => [c]
    case Escaped(c) => ['\\', c]
    case SingleQuoted(s) => "'" + s + "'"
    case DoubleQuoted(s) => "\"" + s + "\""
  }

  // A line that ends inside a quote, or with a backslash, is read to its end all the same.
  predicate Unfinished(tail: string) {
    || tail == "" || tail == "\\"
    || (tail[0] == '\'' && '\'' !in tail[1..])
    || (tail[0] == '"' && (Closed(tail[1..]) || (tail[|tail| - 1] == '\\' && Closed(tail[1..|tail| - 1]))))
  }

  function PiecesText(pieces: seq<Piece>): string {
    if pieces == [] then "" else PieceText(pieces[0]) + PiecesText(pieces[1..])
  }

  predicate IsBlank(p: Piece) {
    p == Bare(' ') || p == Bare('\t')
  }

  // The piece that ends the command, if `start` says that it opens a token.
  predicate Ends(p: Piece, start: bool) {
    p == Bare(';') || (p == Bare('{') && start)
  }

  predicate SomeEnds(pieces: seq<Piece>, start: bool)
    decreases |pieces|
  {
    pieces != [] && (Ends(pieces[0], start) || SomeEnds(pieces[1..], IsBlank(pieces[0])))
  }

  lemma {:induction false} SingleUnbroken(s: string, rest: string)
    requires '\'' !in s
    ensures Breaking(Single, s + "'" + rest) <==> Breaking(Plain(false), rest)
    ensures !Breaking(Single, s)
  {
    if s == "" {
      assert s + "'" + rest == "'" + rest;
    } else {
      SingleUnbroken(s[1..], rest);
      assert (s + "'" + rest)[1..] == s[1..] + "'" + rest;
      assert s == [s[0]] + s[1..];
    }
  }

  lemma {:induction false} DoubleUnbroken(s: string, rest: string)
    requires Closed(s)
    ensures Breaking(Double, s + "\"" + rest) <==> Breaking(Plain(false), rest)
    ensures !Breaking(Double, s) && !Breaking(Double, s + "\\")
    decreases |s|
  {
    var t := s + "\"" + rest;
    if s == "" {
      assert t == "\"" + rest && s + "\\" == "\\";
    } else if s[0] != '\\' {
      DoubleUnbroken(s[1..], rest);
      assert t[1..] == s[1..] + "\"" + rest && (s + "\\")[1..] == s[1..] + "\\";
    } else {
      DoubleUnbroken(s[2..], rest);
      assert t[1..][1..] == s[2..] + "\"" + rest && s[1..][1..] == s[2..] && (s + "\\")[1..][1..] == s[2..] + "\\";
    }
  }

  lemma PieceBreaks(p: Piece, start: bool, rest: string)
    requires WellFormed(p)
    ensures Breaking(Plain(start), PieceText(p) + rest) <==> Ends(p, start) || Breaking(Plain(IsBlank(p)), rest)
  {
    var t := PieceText(p) + rest;
    match p
    case Bare(c) => assert t[1..] == rest;
    case Escaped(c) => assert t[1..][1..] == rest;
    case SingleQuoted(s) =>
      SingleUnbroken(s, rest);
      assert t[1..] == s + "'" + rest;
    case DoubleQuoted(s) =>
      DoubleUnbroken(s, rest);
      assert t[1..] == s + "\"" + rest;
  }

  lemma TailUnbroken(tail: string, start: bool)
    requires Unfinished(tail)
    ensures !Breaking(Plain(start), tail)
  {
    if tail == "\\" {
      assert tail[1..] == "";
    } else if tail != "" && tail[0] == '\'' {
      SingleUnbroken(tail[1..], "");
    } else if tail != "" {
      if Closed(tail[1..]) {
        DoubleUnbroken(tail[1..], "");
      } else {
        DoubleUnbroken(tail[1..|tail| - 1], "");
        assert tail[1..] == tail[1..|tail| - 1] + "\\";
      }
    }
  }

  lemma {:induction false} PiecesBreak(pieces: seq<Piece>, start: bool, tail: string)
    requires Unfinished(tail) && forall i :: 0 <= i < |pieces| ==> WellFormed(pieces[i])
    ensures Breaking(Plain(start), PiecesText(pieces) + tail) <==> SomeEnds(pieces, start)
  {
    if pieces == [] {
      assert PiecesText(pieces) + tail == tail;
      TailUnbroken(tail, start);
    } else {
      var p, rest := pieces[0], PiecesText(pieces[1..]) + tail;
      assert PiecesText(pieces) + tail == PieceText(p) + rest;
      PieceBreaks(p, start, rest);
      PiecesBreak(pieces[1..], IsBlank(p), tail);
    }
  }

  predicate EndsAt(pieces: seq<Piece>, start: bool, i: nat) {
    i < |pieces| && Ends(pieces[i], if i == 0 then start else IsBlank(pieces[i - 1]))
  }

  lemma {:induction false} SomeEndsAt(pieces: seq<Piece>, start: bool)
    ensures SomeEnds(pieces, start) <==> exists i: nat :: EndsAt(pieces, start, i)
  {
    if pieces != [] {
      var rest, blank := pieces[1..], IsBlank(pieces[0]);
      SomeEndsAt(rest, blank);
      assert EndsAt(pieces, start, 0) <==> Ends(pieces[0], start);
      if i: nat :| EndsAt(rest, blank, i) {
        assert EndsAt(pieces, start, i + 1);
      }
      if i: nat :| EndsAt(pieces, start, i) && i > 0 {
        assert EndsAt(rest, blank, i - 1);
      }
    }
  }

  /** However the line is put together, of bytes outside quotes, escaped bytes and quoted texts, with a quote
      left open at its end or none, it is one command exactly when no semicolon stands outside quotes and
      no brace opens a token there. */
  lemma OneCommandExactly(pieces: seq<Piece>, tail: string)
    requires Unfinished(tail) && forall i :: 0 <= i < |pieces| ==> WellFormed(pieces[i])
    ensures OneCommand(PiecesText(pieces) + tail) <==> forall i: nat :: !EndsAt(pieces, true, i)
  {
    OneCommandUnbroken(PiecesText(pieces) + tail);
    PiecesBreak(pieces, true, tail);
    SomeEndsAt(pieces, true);
  }

  function Bares(cmd: string): seq<Piece> {
    seq(|cmd|, i requires 0 <= i < |cmd| => Bare(cmd[i]))
  }

  lemma {:induction false} BaresText(cmd: string)
    ensures PiecesText(Bares(cmd)) == cmd
  {
    if cmd != "" {
      BaresText(cmd[1..]);
      assert Bares(cmd)[1..] == Bares(cmd[1..]);
    }
  }

  predicate BareEnd(cmd: string, i: nat) {
    i < |cmd| && (cmd[i] == ';' || (cmd[i] == '{' && (i == 0 || cmd[i - 1] == ' ' || cmd[i - 1] == '\t')))
  }

  /** So of a text with no quote and no backslash the guard passes exactly what has no semicolon, and no
      brace at its start or behind a blank. */
  lemma PlainCommandExactly(cmd: string)
    requires '\'' !in cmd && '"' !in cmd && '\\' !in cmd
    ensures OneCommand(cmd) <==> forall i: nat :: !BareEnd(cmd, i)
  {
    var pieces := Bares(cmd);
    BaresText(cmd);
    assert cmd + "" == cmd;
    OneCommandExactly(pieces, "");
    forall i: nat ensures EndsAt(pieces, true, i) <==> BareEnd(cmd, i) {
      assert i < |cmd| && i > 0 ==> pieces[i - 1] == Bare(cmd[i - 1]);
    }
  }

  // control.go: commandBreak
  method CommandBreak(cmd: string) returns (b: char, at: int)
    ensures at >= 0 ==> BreakAt(cmd, at) && b == cmd[at] && forall j: nat :: j < at ==> !BreakAt(cmd, j)
    ensures at < 0 ==> at == -1 && b == '\0' && OneCommand(cmd)
  {
    var quote := '\0';
    var atTokenStart := true;
    var i := 0;
    while i < |cmd|
      invariant 0 <= i <= |cmd| + 1
      invariant quote == '\0' || quote == '\'' || quote == '"'
      invariant i <= |cmd| ==> Run(Plain(true), cmd[..i]) ==
                               if quote == '\'' then Single else if quote == '"' then Double
                               else Plain(atTokenStart)
      invariant forall j: nat :: j < i && j < |cmd| ==> !BreakAt(cmd, j)
    {
      var c := cmd[i];
      RunSnoc(Plain(true), cmd, i);
      if c == '\\' && quote != '\'' {
        if i + 1 < |cmd| {
          RunSnoc(Plain(true), cmd, i + 1);
        }
        i := i + 1;
        atTokenStart := false;
      } else if quote != '\0' {
        if c == quote {
          quote := '\0';
        }
        atTokenStart := false;
      } else if c == '\'' || c == '"' {
        quote := c;
        atTokenStart := false;
      } else if c == ';' {
        return ';', i;
      } else if c == '{' && atTokenStart {
        return '{', i;
      } else if c == ' ' || c == '\t' {
        atTokenStart := true;
      } else {
        atTokenStart := false;
      }
      i := i + 1;
    }
    return '\0', -1;
  }

  // control.go: commentStart
  method CommentStart(cmd: string) returns (at: int)
    ensures at >= 0 ==> CommentAt(cmd, at)
    ensures at < 0 ==> at == -1 && !IsComment(cmd)
  {
    for i := 0 to |cmd|
      invariant forall j :: 0 <= j < i ==> cmd[j] == ' ' || cmd[j] == '\t'
    {
      if cmd[i] == '#' {
        return i;
      }
      if cmd[i] != ' ' && cmd[i] != '\t' {
        assert forall k: nat :: CommentAt(cmd, k) ==> k <= i;
        return -1;
      }
    }
    return -1;
  }

  datatype Refusal = Accepted | Empty | Unsendable(at: nat) | Comment(at: nat) | SecondCommand(b: char, at: nat)

  predicate CutsLine(cmd: string, i: nat) {
    i < |cmd| && (cmd[i] == '\n' || cmd[i] == '\0')
  }

  ghost predicate Sendable(cmd: string) {
    !Blank(cmd) && '\n' !in cmd && '\0' !in cmd && !IsComment(cmd) && OneCommand(cmd)
  }

  // --- Which refusal ------------------------------------------------------------------------------

  // The line is a comment exactly when its first byte that is no blank is a '#'.
  lemma CommentExactly(cmd: string, at: nat)
    requires at <= |cmd| && forall j :: 0 <= j < at ==> cmd[j] == ' ' || cmd[j] == '\t'
    requires at < |cmd| ==> cmd[at] != ' ' && cmd[at] != '\t'
    ensures IsComment(cmd) <==> at < |cmd| && cmd[at] == '#'
    ensures IsComment(cmd) ==> CommentAt(cmd, at)
  {
    if at < |cmd| && cmd[at] == '#' {
      assert CommentAt(cmd, at);
    }
    assert forall i: nat :: CommentAt(cmd, i) ==> i == at;
  }

  // A line without a newline or a NUL is all that tmux gets to read of it, and any other is not.
  lemma {:induction false} CLineExactly(sent: string)
    ensures CLine(sent) <= sent
    ensures CLine(sent) == sent <==> '\n' !in sent && '\0' !in sent
  {
    if sent != "" {
      CLineExactly(sent[1..]);
      assert sent == [sent[0]] + sent[1..];
    }
  }

  lemma {:induction false} ScanEndsPlain(s: string, m: Mode, word: Option<string>)
    requires Scan(s, m, word).Some?
    ensures Run(m, s).Plain?
  {
    if s != "" {
      var next := Next(m, s[0]);
      var w :| Scan(s[1..], next, w).Some?;
      ScanEndsPlain(s[1..], next, w);
    }
  }

  // Behind literal arguments stands a byte that begins a second command: a semicolon, or a brace at the
  // start of the line or behind a blank.
  predicate SecondAt(cmd: string, at: nat) {
    && at < |cmd|
    && match cmd[at]
       case ';' => Lex(cmd[..at]).Some?
       case '{' => at == 0 || ((cmd[at - 1] == ' ' || cmd[at - 1] == '\t') && Lex(cmd[..at - 1]).Some?)
       case _ => false
  }

  lemma RunTo(cmd: string, at: nat)
    requires SecondAt(cmd, at)
    ensures Run(Plain(true), cmd[..at]).Plain?
    ensures cmd[at] == '{' ==> Run(Plain(true), cmd[..at]) == Plain(true)
  {
    if cmd[at] == ';' {
      ScanEndsPlain(cmd[..at], Plain(true), None);
    } else if at > 0 {
      ScanEndsPlain(cmd[..at - 1], Plain(true), None);
      RunSnoc(Plain(true), cmd, at - 1);
    }
  }

  lemma NoBreakBefore(cmd: string, at: nat)
    requires SecondAt(cmd, at)
    ensures forall j: nat :: j < at ==> !BreakAt(cmd, j)
    ensures !IsComment(cmd) && !Blank(cmd)
  {
    var end := if cmd[at] == ';' || at == 0 then at else at - 1;
    var a := cmd[..end];
    assert Scan("", Plain(true), None).Some?;
    forall j: nat | j < at ensures !BreakAt(cmd, j) {
      if j < end {
        ScanNoBreak(a, Plain(true), None, j);
        assert a[..j] == cmd[..j];
      }
    }
    forall i: nat ensures !CommentAt(cmd, i) {
      if i < end {
        ScanNoComment(a, i);
      }
    }
    assert !IsSpace(cmd[at]);
  }

  /** Whatever comes after it, such a byte is refused, and it is the first that is. */
  lemma SecondIsBreak(cmd: string, at: nat)
    requires SecondAt(cmd, at)
    ensures BreakAt(cmd, at) && forall j: nat :: j < at ==> !BreakAt(cmd, j)
    ensures !OneCommand(cmd) && !Sendable(cmd) && !IsComment(cmd) && !Blank(cmd)
  {
    RunTo(cmd, at);
    NoBreakBefore(cmd, at);
    assert BreakAt(cmd, at);
    assert !OneCommand(cmd);
  }

  // control.go: the checks Do makes before it writes anything, in their order.
  method CheckCommand(cmd: string) returns (r: Refusal)
    ensures r.Accepted? <==> Sendable(cmd)
    ensures r.Empty? <==> Blank(cmd)
    ensures r.Unsendable? ==> CutsLine(cmd, r.at) && forall j: nat :: j < r.at ==> !CutsLine(cmd, j)
    ensures r.Comment? ==> CommentAt(cmd, r.at) && '\n' !in cmd && '\0' !in cmd
    ensures r.SecondCommand? ==> BreakAt(cmd, r.at) && r.b == cmd[r.at] && !IsComment(cmd)
                                 && forall j: nat :: j < r.at ==> !BreakAt(cmd, j)
    ensures !Blank(cmd) && ('\n' in cmd || '\0' in cmd) ==> r.Unsendable?
    ensures '\n' !in cmd && '\0' !in cmd && IsComment(cmd) ==> r.Comment?
    ensures forall at: nat :: SecondAt(cmd, at) && '\n' !in cmd && '\0' !in cmd ==> r == SecondCommand(cmd[at], at)
  {
    forall at: nat | SecondAt(cmd, at)
      ensures !Blank(cmd) && !IsComment(cmd) && BreakAt(cmd, at) && forall j: nat :: j < at ==> !BreakAt(cmd, j)
    {
      SecondIsBreak(cmd, at);
    }
    var blank := true;
    for i := 0 to |cmd|
      invariant blank <==> forall j :: 0 <= j < i ==> IsSpace(cmd[j])
    {
      blank := blank && IsSpace(cmd[i]);
    }
    if blank {
      return Empty;
    }
    for i := 0 to |cmd|
      invariant forall j :: 0 <= j < i ==> cmd[j] != '\n' && cmd[j] != '\0'
    {
      if cmd[i] == '\n' || cmd[i] == '\0' {
        return Unsendable(i);
      }
    }
    var at := CommentStart(cmd);
    if at >= 0 {
      return Comment(at);
    }
    var b, brk := CommandBreak(cmd);
    if brk >= 0 {
      return SecondCommand(b, brk);
    }
    return Accepted;
  }
}
