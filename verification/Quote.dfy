/** control_cmds.go: how `DoArgs` renders arguments for tmux's lexer, and that the lexer reads
    back exactly the arguments it was given. */
module Quote {
  import opened Bytes
  import opened Lexer

  predicate SafeByte(c: char) {
    'a' <= c <= 'z' || 'A' <= c <= 'Z' || '0' <= c <= '9' || c in "_-./:=,+"
  }

  predicate AllSafe(s: string) {
    forall i :: 0 <= i < |s| ==> SafeByte(s[i])
  }

  method NeedsQuoting(s: string) returns (needs: bool)
    ensures needs <==> !AllSafe(s)
  {
    for i := 0 to |s|
      invariant AllSafe(s[..i])
    {
      if !SafeByte(s[i]) {
        return true;
      }
    }
    assert s[..|s|] == s;
    return false;
  }

  function EscapeUnsafe(s: string): string {
    if s == "" then ""
    else (if SafeByte(s[0]) then [s[0]] else ['\\', s[0]]) + EscapeUnsafe(s[1..])
  }

  lemma {:induction false} EscapeUnsafeSnoc(s: string, c: char)
    ensures EscapeUnsafe(s + [c]) == EscapeUnsafe(s) + if SafeByte(c) then [c] else ['\\', c]
  {
    if s == "" {
      assert s + [c] == [c];
    } else {
      assert (s + [c])[1..] == s[1..] + [c];
      EscapeUnsafeSnoc(s[1..], c);
    }
  }

  function QuoteToken(s: string): string {
    if AllSafe(s) then s else if '\'' !in s then "'" + s + "'" else EscapeUnsafe(s)
  }

  method RenderToken(s: string) returns (b: string)
    ensures b == QuoteToken(s)
    ensures var bare := forall i :: 0 <= i < |s| ==>
                          || 'a' <= s[i] <= 'z' || 'A' <= s[i] <= 'Z' || '0' <= s[i] <= '9'
                          || s[i] in "_-./:=,+";
            && (bare ==> b == s)
            && (!bare && '\'' !in s ==> b == "'" + s + "'")
            && (!bare && '\'' in s ==> b == EscapeUnsafe(s))
  {
    var needs := NeedsQuoting(s);
    if !needs {
      return s;
    }
    if '\'' !in s {
      return "'" + s + "'";
    }
    b := "";
    for i := 0 to |s|
      invariant b == EscapeUnsafe(s[..i])
    {
      EscapeUnsafeSnoc(s[..i], s[i]);
      assert s[..i + 1] == s[..i] + [s[i]];
      if !SafeByte(s[i]) {
        b := b + "\\";
      }
      b := b + [s[i]];
    }
    assert s[..|s|] == s;
  }

  const NEWLINE_CHUNK := "\"\\n\""

  // The runs between newlines, each quoted, with tmux's own escape between them.
  function QuoteRuns(runs: seq<string>): string {
    if runs == [] then ""
    else if |runs| == 1 then QuoteRun(runs[0])
    else QuoteRun(runs[0]) + NEWLINE_CHUNK + QuoteRuns(runs[1..])
  }

  function QuoteRun(run: string): string {
    if run == "" then "" else QuoteToken(run)
  }

  lemma {:induction false} QuoteRunsSnoc(runs: seq<string>, run: string)
    requires runs != []
    ensures QuoteRuns(runs + [run]) == QuoteRuns(runs) + NEWLINE_CHUNK + QuoteRun(run)
  {
    var all := runs + [run];
    assert all[0] == runs[0] && all[1..] == runs[1..] + [run];
    if |runs| == 1 {
      assert runs[1..] + [run] == [run];
      assert QuoteRuns([run]) == QuoteRun(run);
    } else {
      QuoteRunsSnoc(runs[1..], run);
      var head, middle := QuoteRun(runs[0]) + NEWLINE_CHUNK, QuoteRuns(runs[1..]);
      Assoc(head, middle + NEWLINE_CHUNK, QuoteRun(run));
      Assoc(head, middle, NEWLINE_CHUNK);
    }
  }

  function QuoteArg(s: string): string {
    if s == "" then "''" else QuoteRuns(Split(s, '\n'))
  }

  method RenderArg(s: string) returns (b: string)
    ensures b == QuoteArg(s)
  {
    if s == "" {
      return "''";
    }
    if '\n' !in s {
      assert Split(s, '\n') == [s];
      b := RenderToken(s);
      return;
    }
    var parts := Split(s, '\n');
    b := "";
    for i := 0 to |parts|
      invariant b == QuoteRuns(parts[..i])
    {
      assert parts[..i + 1] == parts[..i] + [parts[i]];
      if i > 0 {
        QuoteRunsSnoc(parts[..i], parts[i]);
        b := b + NEWLINE_CHUNK;
      }
      if parts[i] != "" {
        var token := RenderToken(parts[i]);
        b := b + token;
      }
    }
    assert parts[..|parts|] == parts;
  }

  function QuoteAll(args: seq<string>): seq<string> {
    seq(|args|, i requires 0 <= i < |args| => QuoteArg(args[i]))
  }

  function Compose(args: seq<string>): string {
    Join(QuoteAll(args), " ")
  }

  // control.go: DoArgs, up to the call of Do.
  method ComposeCommand(args: seq<string>) returns (line: Option<string>)
    ensures line == if args == [] then None else Some(Compose(args))
  {
    if args == [] {
      return None;
    }
    var parts: seq<string> := [];
    for i := 0 to |args|
      invariant |parts| == i
      invariant forall j :: 0 <= j < i ==> parts[j] == QuoteArg(args[j])
    {
      var part := RenderArg(args[i]);
      parts := parts + [part];
    }
    assert parts == QuoteAll(args);
    return Some(Join(parts, " "));
  }

  // --- What the lexer makes of each piece -----------------------------------------------------

  lemma {:induction false} ScanSafe(p: string, rest: string, start: bool, word: Option<string>)
    requires p != "" && AllSafe(p)
    ensures Scan(p + rest, Plain(start), word) == Scan(rest, Plain(false), Grow(word, p))
  {
    var s := p + rest;
    assert s[0] == p[0] && s[1..] == p[1..] + rest;
    assert p == [p[0]] + p[1..];
    if |p| > 1 {
      ScanSafe(p[1..], rest, false, Grow(word, [p[0]]));
      GrowTwice(word, [p[0]], p[1..]);
    } else {
      assert p == [p[0]] && s[1..] == rest;
    }
  }

  lemma {:induction false} ScanQuoted(p: string, rest: string, word: Option<string>)
    requires '\'' !in p && word.Some?
    ensures Scan(p + "'" + rest, Single, word) == Scan(rest, Plain(false), Grow(word, p))
  {
    var s := p + "'" + rest;
    if p == "" {
      assert s == "'" + rest;
    } else {
      assert s[0] == p[0] && s[1..] == p[1..] + "'" + rest;
      assert p == [p[0]] + p[1..];
      ScanQuoted(p[1..], rest, Grow(word, [p[0]]));
      GrowTwice(word, [p[0]], p[1..]);
    }
  }

  lemma {:induction false} ScanEscaped(p: string, rest: string, start: bool, word: Option<string>)
    requires p != ""
    ensures Scan(EscapeUnsafe(p) + rest, Plain(start), word) == Scan(rest, Plain(false), Grow(word, p))
  {
    var tail := EscapeUnsafe(p[1..]) + rest;
    var first := Grow(word, [p[0]]);
    assert p == [p[0]] + p[1..];
    GrowTwice(word, [p[0]], p[1..]);
    if SafeByte(p[0]) {
      assert EscapeUnsafe(p) + rest == [p[0]] + tail;
      ScanSafe([p[0]], tail, start, word);
    } else {
      assert EscapeUnsafe(p) + rest == "\\" + ([p[0]] + tail);
      assert Scan(EscapeUnsafe(p) + rest, Plain(start), word)
          == Scan([p[0]] + tail, EscapedPlain, Grow(word, ""));
      GrowTwice(word, "", [p[0]]);
      assert "" + [p[0]] == [p[0]];
    }
    if |p| > 1 {
      ScanEscaped(p[1..], rest, false, first);
    } else {
      assert p == [p[0]] && tail == rest;
    }
  }

  lemma ScanToken(p: string, rest: string, start: bool, word: Option<string>)
    requires p != ""
    ensures Scan(QuoteToken(p) + rest, Plain(start), word) == Scan(rest, Plain(false), Grow(word, p))
  {
    if AllSafe(p) {
      ScanSafe(p, rest, start, word);
    } else if '\'' !in p {
      assert QuoteToken(p) + rest == "'" + (p + "'" + rest);
      ScanQuoted(p, rest, Grow(word, ""));
      GrowTwice(word, "", p);
      assert "" + p == p;
    } else {
      ScanEscaped(p, rest, start, word);
    }
  }

  lemma ScanNewline(rest: string, start: bool, word: Option<string>)
    ensures Scan(NEWLINE_CHUNK + rest, Plain(start), word) == Scan(rest, Plain(false), Grow(word, "\n"))
  {
    assert NEWLINE_CHUNK + rest == "\"" + ("\\" + ("n" + ("\"" + rest)));
    var inside := Grow(word, "");
    GrowTwice(word, "", "");
    GrowTwice(word, "", "\n");
    GrowTwice(word, "\n", "");
    assert "" + "" == "" && "" + "\n" == "\n" && "\n" + "" == "\n";
    assert Scan("n" + ("\"" + rest), EscapedDouble, Grow(inside, ""))
        == Scan("\"" + rest, Double, Grow(Grow(inside, ""), "\n"));
    assert Scan("\\" + ("n" + ("\"" + rest)), Double, inside)
        == Scan("n" + ("\"" + rest), EscapedDouble, Grow(inside, ""));
  }

  lemma ScanRun(run: string, rest: string, start: bool, word: Option<string>)
    ensures Scan(QuoteRun(run) + rest, Plain(start), word) ==
            if run == "" then Scan(rest, Plain(start), word) else Scan(rest, Plain(false), Grow(word, run))
  {
    if run == "" {
      assert QuoteRun(run) + rest == rest;
    } else {
      ScanToken(run, rest, start, word);
    }
  }

  lemma ScanRunNewline(run: string, tail: string, start: bool, word: Option<string>)
    ensures Scan(QuoteRun(run) + (NEWLINE_CHUNK + tail), Plain(start), word) ==
            Scan(tail, Plain(false), Grow(word, run + "\n"))
  {
    ScanRun(run, NEWLINE_CHUNK + tail, start, word);
    if run == "" {
      ScanNewline(tail, start, word);
      assert run + "\n" == "\n";
    } else {
      ScanNewline(tail, false, Grow(word, run));
      GrowTwice(word, run, "\n");
    }
  }

  lemma RunsThen(runs: seq<string>, rest: string)
    requires |runs| > 1
    ensures QuoteRuns(runs) + rest == QuoteRun(runs[0]) + (NEWLINE_CHUNK + (QuoteRuns(runs[1..]) + rest))
  {
    var run, more := QuoteRun(runs[0]), QuoteRuns(runs[1..]);
    Assoc(run + NEWLINE_CHUNK, more, rest);
    Assoc(run, NEWLINE_CHUNK, more + rest);
  }

  lemma {:induction false} ScanRuns(runs: seq<string>, rest: string, start: bool, word: Option<string>)
    requires runs != []
    ensures var read := Join(runs, "\n");
            Scan(QuoteRuns(runs) + rest, Plain(start), word) ==
            if read == "" then Scan(rest, Plain(start), word) else Scan(rest, Plain(false), Grow(word, read))
  {
    if |runs| == 1 {
      ScanRun(runs[0], rest, start, word);
    } else {
      var tail, read, more := QuoteRuns(runs[1..]) + rest, runs[0] + "\n", Join(runs[1..], "\n");
      RunsThen(runs, rest);
      ScanRunNewline(runs[0], tail, start, word);
      ScanRuns(runs[1..], rest, false, Grow(word, read));
      GrowTwice(word, read, more);
      assert Join(runs, "\n") == read + more && (more == "" ==> read + more == read);
    }
  }

  // One quoted argument is one argument, whatever bytes it is made of.
  lemma ScanArg(a: string, rest: string)
    ensures Scan(QuoteArg(a) + rest, Plain(true), None) == Scan(rest, Plain(false), Some(a))
  {
    if a == "" {
      assert "''" + rest == "'" + ("" + "'" + rest);
      ScanQuoted("", rest, Some(""));
    } else {
      JoinSplit(a, '\n');
      ScanRuns(Split(a, '\n'), rest, true, None);
      assert ['\n'] == "\n";
      assert "" + a == a;
    }
  }

  lemma ScanSeparator(word: string, rest: string)
    ensures var tail := Scan(rest, Plain(true), None);
            Scan(" " + rest, Plain(false), Some(word)) == if tail.Some? then Some([word] + tail.value) else None
  {
    assert (" " + rest)[1..] == rest;
  }

  lemma ComposeCons(args: seq<string>)
    requires |args| > 1
    ensures Compose(args) == QuoteArg(args[0]) + (" " + Compose(args[1..]))
  {
    assert QuoteAll(args)[1..] == QuoteAll(args[1..]);
  }

  /** Lexing the line DoArgs composes gives back its argument list, for every list of every
      byte string. */
  lemma {:induction false} LexCompose(args: seq<string>)
    requires args != []
    ensures Lex(Compose(args)) == Some(args)
  {
    if |args| == 1 {
      ScanArg(args[0], "");
      assert Compose(args) == QuoteArg(args[0]) + "";
      assert args == [args[0]];
    } else {
      var tail := Compose(args[1..]);
      ComposeCons(args);
      ScanArg(args[0], " " + tail);
      LexCompose(args[1..]);
      ScanSeparator(args[0], tail);
      assert args == [args[0]] + args[1..];
    }
  }

  // --- What a composed line is made of --------------------------------------------------------

  lemma {:induction false} EscapeUnsafeBytes(p: string, c: char)
    requires c != '\\'
    ensures c in EscapeUnsafe(p) <==> c in p
  {
    if p != "" {
      EscapeUnsafeBytes(p[1..], c);
      assert p == [p[0]] + p[1..];
    }
  }

  lemma QuoteTokenBytes(p: string, c: char)
    requires c == '\n' || c == '\0'
    ensures c in QuoteToken(p) <==> c in p
  {
    EscapeUnsafeBytes(p, c);
  }

  lemma {:induction false} QuoteRunsBytes(runs: seq<string>, c: char)
    requires c == '\n' || c == '\0'
    ensures c in QuoteRuns(runs) <==> exists i :: 0 <= i < |runs| && c in runs[i]
  {
    if runs != [] {
      QuoteTokenBytes(runs[0], c);
      QuoteRunsBytes(runs[1..], c);
      assert c !in NEWLINE_CHUNK;
      var rest := runs[1..];
      assert (exists i :: 0 <= i < |rest| && c in rest[i]) ==> exists i :: 0 <= i < |runs| && c in runs[i] by {
        if i :| 0 <= i < |rest| && c in rest[i] {
          assert c in runs[i + 1];
        }
      }
      if i :| 0 <= i < |runs| && c in runs[i] && i > 0 {
        assert c in rest[i - 1];
      }
    }
  }

  lemma {:induction false} JoinBytes(parts: seq<string>, sep: char, c: char)
    requires c != sep
    ensures c in Join(parts, [sep]) <==> exists i :: 0 <= i < |parts| && c in parts[i]
  {
    if parts != [] {
      var rest := parts[1..];
      JoinBytes(rest, sep, c);
      if i :| 0 <= i < |rest| && c in rest[i] {
        assert c in parts[i + 1];
      }
      if i :| 0 <= i < |parts| && c in parts[i] && i > 0 {
        assert c in rest[i - 1];
      }
    }
  }

  // The quoted form has no newline ever, and a NUL exactly where the argument has one.
  lemma QuoteArgBytes(a: string)
    ensures '\n' !in QuoteArg(a)
    ensures '\0' in QuoteArg(a) <==> '\0' in a
  {
    if a != "" {
      var runs := Split(a, '\n');
      JoinSplit(a, '\n');
      QuoteRunsBytes(runs, '\n');
      QuoteRunsBytes(runs, '\0');
      JoinBytes(runs, '\n', '\0');
    }
  }

  lemma QuoteTokenStart(p: string)
    requires p != ""
    ensures QuoteToken(p) != "" && !IsSpace(QuoteToken(p)[0])
  {
    if AllSafe(p) {
      assert SafeByte(p[0]);
    } else if '\'' in p {
      assert EscapeUnsafe(p)[0] == if SafeByte(p[0]) then p[0] else '\\';
    }
  }

  lemma QuoteArgStart(a: string)
    ensures QuoteArg(a) != "" && !IsSpace(QuoteArg(a)[0])
  {
    if a != "" {
      var runs := Split(a, '\n');
      JoinSplit(a, '\n');
      if runs[0] != "" {
        QuoteTokenStart(runs[0]);
        assert QuoteToken(runs[0]) <= QuoteRuns(runs);
      } else {
        assert |runs| > 1;
        assert QuoteRuns(runs)[0] == NEWLINE_CHUNK[0];
      }
    }
  }

  /** Every composed line passes all of Do's guards, the NUL one exactly when no argument holds a
      NUL; and then tmux reads the argument list back. */
  lemma ComposedLinePasses(args: seq<string>)
    requires args != []
    ensures var line := Compose(args);
            && '\n' !in line && OneCommand(line) && !IsComment(line) && !Blank(line)
            && ('\0' in line <==> exists i :: 0 <= i < |args| && '\0' in args[i])
            && (Sendable(line) <==> forall i :: 0 <= i < |args| ==> '\0' !in args[i])
            && (Sendable(line) ==> Lex(CLine(line)) == Some(args))
  {
    var line := Compose(args);
    var quoted := QuoteAll(args);
    LexCompose(args);
    LexedLinePasses(line);
    forall i | 0 <= i < |args|
      ensures '\n' !in quoted[i] && ('\0' in quoted[i] <==> '\0' in args[i])
    {
      QuoteArgBytes(args[i]);
    }
    JoinBytes(quoted, ' ', '\n');
    JoinBytes(quoted, ' ', '\0');
    QuoteArgStart(args[0]);
    assert line[0] == quoted[0][0];
    assert (exists i :: 0 <= i < |quoted| && '\0' in quoted[i]) <==> (exists i :: 0 <= i < |args| && '\0' in args[i]);
  }
}
