/** client.go and format.go: splitting tmux's output into lines, and lines into rows. */
module Rows {
  import opened Bytes

  type Spec = seq<string>

  datatype Row = Row(spec: Spec, vals: seq<string>) {
    // Lookup: the value of the first column asked for under this name.
    function Lookup(name: string): Option<string> {
      Find(name, 0)
    }

    function Find(name: string, i: nat): (r: Option<string>)
      requires i <= |spec|
      decreases |spec| - i
    {
      if i == |spec| then None
      else if spec[i] == name && i < |vals| then Some(vals[i])
      else Find(name, i + 1)
    }
  }

  datatype Parsed = EmptySpec | ShortRow(line: nat, fields: nat) | Rows(rows: seq<Row>)

  function TrimAll(lines: seq<string>): seq<string> {
    seq(|lines|, i requires 0 <= i < |lines| => TrimSuffix(lines[i], '\r'))
  }

  function Lines(b: string): seq<string> {
    if b == "" then [] else TrimAll(Split(TrimSuffix(TrimSuffix(b, '\n'), '\r'), '\n'))
  }

  method SplitLines(b: string) returns (lines: seq<string>)
    ensures lines == Lines(b)
  {
    if b == "" {
      return [];
    }
    var s := TrimSuffix(TrimSuffix(b, '\n'), '\r');
    var parts := Split(s, '\n');
    lines := parts;
    for i := 0 to |parts|
      invariant |lines| == |parts|
      invariant forall j :: 0 <= j < i ==> lines[j] == TrimSuffix(parts[j], '\r')
      invariant forall j :: i <= j < |parts| ==> lines[j] == parts[j]
    {
      lines := lines[i := TrimSuffix(lines[i], '\r')];
    }
    assert lines == TrimAll(parts);
  }

  // Fields past the last column belong to it.
  function FoldTail(vals: seq<string>, columns: nat): seq<string>
    requires 0 < columns <= |vals|
  {
    if |vals| > columns then vals[..columns - 1] + [Join(vals[columns - 1..], "\t")] else vals
  }

  function RowsFrom(spec: Spec, lines: seq<string>, at: nat): (r: Parsed)
    requires spec != [] && at <= |lines|
    ensures !r.EmptySpec?
    decreases |lines| - at
  {
    if at == |lines| then Rows([])
    else if lines[at] == "" && |spec| > 1 then RowsFrom(spec, lines, at + 1)
    else
      var vals := Split(lines[at], '\t');
      if |vals| < |spec| then ShortRow(at + 1, |vals|)
      else
        var rest := RowsFrom(spec, lines, at + 1);
        if rest.Rows? then Rows([Row(spec, FoldTail(vals, |spec|))] + rest.rows) else rest
  }

  function ParseLines(spec: Spec, lines: seq<string>): Parsed {
    if spec == [] then EmptySpec else RowsFrom(spec, lines, 0)
  }

  // A blank line is skipped unless one column is asked for.
  predicate Skipped(spec: Spec, line: string) {
    line == "" && |spec| > 1
  }

  function Tabs(line: string): nat {
    if line == "" then 0 else (if line[0] == '\t' then 1 else 0) + Tabs(line[1..])
  }

  // A line has one field more than it has tabs, and may not have fewer than there are columns.
  predicate Enough(spec: Spec, line: string) {
    Skipped(spec, line) || Tabs(line) + 1 >= |spec|
  }

  lemma {:induction false} TabsConcat(a: string, b: string)
    ensures Tabs(a + b) == Tabs(a) + Tabs(b)
    ensures '\t' !in a ==> Tabs(a) == 0
  {
    if a == "" {
      assert a + b == b;
    } else {
      TabsConcat(a[1..], b);
      assert (a + b)[1..] == a[1..] + b;
    }
  }

  lemma {:induction false} FieldCount(line: string)
    ensures |Split(line, '\t')| == Tabs(line) + 1
    decreases |line|
  {
    var (before, after, found) := CutByte(line, '\t');
    if found {
      FieldCount(after);
      TabsConcat(before, ['\t'] + after);
      assert line == before + (['\t'] + after) && (['\t'] + after)[1..] == after;
    } else {
      TabsConcat(line, "");
    }
  }

  /** Lines are parsed exactly when each has enough fields, and otherwise the first that has not is the one
      complained of, counted from one, with the number of its fields. */
  lemma {:induction false} ShortRowExactly(spec: Spec, lines: seq<string>, at: nat)
    requires spec != [] && at <= |lines|
    ensures var r := RowsFrom(spec, lines, at);
            && (r.Rows? <==> forall i :: at <= i < |lines| ==> Enough(spec, lines[i]))
            && (r.ShortRow? ==>
                  && at < r.line <= |lines| && !Enough(spec, lines[r.line - 1])
                  && r.fields == Tabs(lines[r.line - 1]) + 1
                  && forall i :: at <= i < r.line - 1 ==> Enough(spec, lines[i]))
    decreases |lines| - at
  {
    if at < |lines| {
      FieldCount(lines[at]);
      ShortRowExactly(spec, lines, at + 1);
    }
  }

  function KeptLines(spec: Spec, lines: seq<string>): seq<string> {
    if lines == [] then []
    else (if Skipped(spec, lines[0]) then [] else [lines[0]]) + KeptLines(spec, lines[1..])
  }

  lemma FoldTailJoins(vals: seq<string>, columns: nat)
    requires 0 < columns <= |vals|
    ensures |FoldTail(vals, columns)| == columns && Join(FoldTail(vals, columns), "\t") == Join(vals, "\t")
  {
    if |vals| > columns {
      var last := Join(vals[columns - 1..], "\t");
      if columns > 1 {
        JoinConcat(vals[..columns - 1], [last], "\t");
        JoinConcat(vals[..columns - 1], vals[columns - 1..], "\t");
        assert vals == vals[..columns - 1] + vals[columns - 1..];
      } else {
        assert vals[..0] + [last] == [last] && vals[0..] == vals;
      }
    }
  }

  // A row that holds this line: as many values as columns, tabs in none but the last.
  ghost predicate Holds(row: Row, spec: Spec, line: string) {
    && row.spec == spec && |row.vals| == |spec|
    && Join(row.vals, "\t") == line
    && forall i :: 0 <= i < |row.vals| - 1 ==> '\t' !in row.vals[i]
  }

  lemma RowHolds(spec: Spec, line: string)
    requires spec != [] && |Split(line, '\t')| >= |spec|
    ensures Holds(Row(spec, FoldTail(Split(line, '\t'), |spec|)), spec, line)
  {
    var vals := Split(line, '\t');
    JoinSplit(line, '\t');
    FoldTailJoins(vals, |spec|);
    assert ['\t'] == "\t";
    assert forall i :: 0 <= i < |vals| ==> vals[i] in vals;
  }

  /** Whatever lines are parsed, there is a row for each that was not skipped, in order, and that line is
      what it holds. */
  lemma {:induction false} RowsHoldTheirLines(spec: Spec, lines: seq<string>, at: nat)
    requires spec != [] && at <= |lines| && RowsFrom(spec, lines, at).Rows?
    ensures var rows, kept := RowsFrom(spec, lines, at).rows, KeptLines(spec, lines[at..]);
            |rows| == |kept| && forall i :: 0 <= i < |rows| ==> Holds(rows[i], spec, kept[i])
    decreases |lines| - at
  {
    if at < |lines| {
      RowsHoldTheirLines(spec, lines, at + 1);
      assert lines[at..][1..] == lines[at + 1..];
      if !Skipped(spec, lines[at]) {
        RowHolds(spec, lines[at]);
      }
    }
  }

  method ParseRows(spec: Spec, lines: seq<string>) returns (r: Parsed)
    ensures r == ParseLines(spec, lines)
    ensures r.EmptySpec? <==> spec == []
    ensures r.Rows? <==> spec != [] && forall i :: 0 <= i < |lines| ==> Enough(spec, lines[i])
    ensures r.ShortRow? ==>
              && 0 < r.line <= |lines| && !Enough(spec, lines[r.line - 1])
              && r.fields == Tabs(lines[r.line - 1]) + 1
              && forall i :: 0 <= i < r.line - 1 ==> Enough(spec, lines[i])
  {
    if spec == [] {
      return EmptySpec;
    }
    ShortRowExactly(spec, lines, 0);
    var rows: seq<Row> := [];
    for i := 0 to |lines|
      invariant var rest := RowsFrom(spec, lines, i);
                ParseLines(spec, lines) == if rest.Rows? then Rows(rows + rest.rows) else rest
    {
      if lines[i] == "" && |spec| > 1 {
        continue;
      }
      var vals := Split(lines[i], '\t');
      if |vals| < |spec| {
        return ShortRow(i + 1, |vals|);
      }
      if |vals| > |spec| {
        vals := vals[..|spec| - 1] + [Join(vals[|spec| - 1..], "\t")];
      }
      ghost var rest := RowsFrom(spec, lines, i + 1);
      assert rest.Rows? ==> rows + ([Row(spec, vals)] + rest.rows) == (rows + [Row(spec, vals)]) + rest.rows;
      rows := rows + [Row(spec, vals)];
    }
    return Rows(rows);
  }

  // --- Rendering, which is tmux's half ---------------------------------------------------------

  function Line(vals: seq<string>): string {
    Join(vals, "\t")
  }

  function LinesOf(rows: seq<seq<string>>): seq<string> {
    seq(|rows|, i requires 0 <= i < |rows| => Line(rows[i]))
  }

  function Render(rows: seq<seq<string>>): string {
    if rows == [] then "" else Join(LinesOf(rows), "\n") + "\n"
  }

  function AsRows(spec: Spec, rows: seq<seq<string>>): seq<Row> {
    seq(|rows|, i requires 0 <= i < |rows| => Row(spec, rows[i]))
  }

  // A row the wire can carry: no newline anywhere, no tab before the last column.
  ghost predicate Sanitised(spec: Spec, vals: seq<string>) {
    && |vals| == |spec|
    && (forall v :: v in vals ==> '\n' !in v)
    && (forall i :: 0 <= i < |vals| - 1 ==> '\t' !in vals[i])
  }

  predicate EndsInCR(line: string) {
    line != "" && line[|line| - 1] == '\r'
  }

  // What stands before the last part of a joined list.
  function Head(parts: seq<string>, sep: string): string
    requires parts != []
  {
    if |parts| == 1 then "" else parts[0] + sep + Head(parts[1..], sep)
  }

  lemma {:induction false} JoinLast(parts: seq<string>, sep: string)
    requires parts != []
    ensures Join(parts, sep) == Head(parts, sep) + parts[|parts| - 1]
    ensures var head := Head(parts, sep);
            sep != "" && |parts| > 1 ==> head != "" && head[|head| - 1] == sep[|sep| - 1]
  {
    if |parts| > 1 {
      var rest := parts[1..];
      JoinLast(rest, sep);
      assert Head(parts, sep) + rest[|rest| - 1] == parts[0] + sep + (Head(rest, sep) + rest[|rest| - 1]);
    }
  }

  lemma {:induction false} HeadKeeps(parts: seq<string>, sep: string, last: string)
    requires parts != []
    ensures Head(parts[|parts| - 1 := last], sep) == Head(parts, sep)
  {
    if |parts| > 1 {
      assert parts[|parts| - 1 := last][1..] == parts[1..][|parts| - 2 := last];
      HeadKeeps(parts[1..], sep, last);
    }
  }

  lemma {:induction false} JoinLacks(parts: seq<string>, sep: char, c: char)
    requires c != sep && forall p :: p in parts ==> c !in p
    ensures c !in Join(parts, [sep])
  {
    if parts != [] {
      assert parts[0] in parts;
      JoinLacks(parts[1..], sep, c);
    }
  }

  lemma TrimJoined(parts: seq<string>, sep: string)
    requires parts != [] && sep != "" && sep[|sep| - 1] != '\r'
    ensures var k := |parts| - 1;
            TrimSuffix(Join(parts, sep), '\r') == Join(parts[k := TrimSuffix(parts[k], '\r')], sep)
    ensures EndsInCR(Join(parts, sep)) <==> EndsInCR(parts[|parts| - 1])
  {
    var k := |parts| - 1;
    var trimmed := parts[k := TrimSuffix(parts[k], '\r')];
    JoinLast(parts, sep);
    JoinLast(trimmed, sep);
    HeadKeeps(parts, sep, TrimSuffix(parts[k], '\r'));
    var head, out := Head(parts, sep), Join(parts, sep);
    if EndsInCR(parts[k]) {
      assert out[..|out| - 1] == head + parts[k][..|parts[k]| - 1];
    }
  }

  // Line by line, output comes back less one trailing carriage return, and the last less two.
  function Received(lines: seq<string>): seq<string>
    requires lines != []
  {
    var k := |lines| - 1;
    TrimAll(lines[k := TrimSuffix(lines[k], '\r')])
  }

  lemma LinesTerminated(out: string)
    ensures Lines(out + "\n") == TrimAll(Split(TrimSuffix(out, '\r'), '\n'))
  {
    assert (out + "\n")[..|out|] == out;
    assert TrimSuffix(out + "\n", '\n') == out;
  }

  // The newline at the end of the output makes no difference.
  lemma LinesUnterminated(out: string)
    requires out != "" && out[|out| - 1] != '\n'
    ensures Lines(out) == Lines(out + "\n")
  {
    LinesTerminated(out);
  }

  lemma TrimmedLacks(lines: seq<string>, k: nat)
    requires k < |lines| && forall i :: 0 <= i < |lines| ==> '\n' !in lines[i]
    ensures forall p :: p in lines[k := TrimSuffix(lines[k], '\r')] ==> '\n' !in p
  {
    assert TrimSuffix(lines[k], '\r') <= lines[k];
  }

  lemma SplitRendered(lines: seq<string>)
    requires lines != [] && forall i :: 0 <= i < |lines| ==> '\n' !in lines[i]
    ensures Lines(Join(lines, "\n") + "\n") == Received(lines)
  {
    var k := |lines| - 1;
    var trimmed := lines[k := TrimSuffix(lines[k], '\r')];
    LinesTerminated(Join(lines, "\n"));
    TrimJoined(lines, "\n");
    TrimmedLacks(lines, k);
    assert Split(Join(trimmed, "\n"), '\n') == trimmed by {
      SplitJoin(trimmed, '\n');
      assert ['\n'] == "\n";
    }
  }

  lemma {:induction false} SplitRow(vals: seq<string>)
    requires vals != [] && forall i :: 0 <= i < |vals| - 1 ==> '\t' !in vals[i]
    ensures var k := |vals| - 1;
            var fields := Split(Line(vals), '\t');
            |fields| >= |vals| && fields[..k] == vals[..k] && fields[k..] == Split(vals[k], '\t')
  {
    var k := |vals| - 1;
    var fields := Split(Line(vals), '\t');
    if k > 0 {
      var rest := vals[1..];
      var more := Split(Line(rest), '\t');
      SplitFirst(vals);
      SplitRow(rest);
      Shift(vals[0], rest, more);
      assert vals == [vals[0]] + rest;
    }
  }

  lemma Shift(first: string, a: seq<string>, b: seq<string>)
    requires 0 < |a| <= |b| && b[..|a| - 1] == a[..|a| - 1]
    ensures ([first] + b)[..|a|] == ([first] + a)[..|a|] && ([first] + b)[|a|..] == b[|a| - 1..]
  {
    assert ([first] + b)[..|a|] == [first] + b[..|a| - 1] && ([first] + a)[..|a|] == [first] + a[..|a| - 1];
  }

  lemma SplitFirst(vals: seq<string>)
    requires |vals| > 1 && '\t' !in vals[0]
    ensures Split(Line(vals), '\t') == [vals[0]] + Split(Line(vals[1..]), '\t')
  {
    CutByteAt(vals[0], '\t', Line(vals[1..]));
    assert Line(vals) == vals[0] + ['\t'] + Line(vals[1..]);
  }

  lemma FoldRow(vals: seq<string>)
    requires vals != [] && forall i :: 0 <= i < |vals| - 1 ==> '\t' !in vals[i]
    ensures var fields := Split(Line(vals), '\t');
            |fields| >= |vals| && FoldTail(fields, |vals|) == vals
  {
    var k := |vals| - 1;
    var last := Split(vals[k], '\t');
    SplitRow(vals);
    var fields := Split(Line(vals), '\t');
    JoinSplit(vals[k], '\t');
    assert vals == vals[..k] + [vals[k]];
    if |last| == 1 {
      assert fields == fields[..k] + fields[k..];
      assert last == [vals[k]];
    }
  }

  lemma {:induction false} TabInLine(vals: seq<string>)
    requires |vals| > 1
    ensures Line(vals) != ""
  {
    assert Line(vals)[|vals[0]|] == '\t';
  }

  lemma RowOfLine(spec: Spec, lines: seq<string>, at: nat, vals: seq<string>)
    requires spec != [] && at < |lines| && Sanitised(spec, vals) && lines[at] == Line(vals)
    ensures var rest := RowsFrom(spec, lines, at + 1);
            RowsFrom(spec, lines, at) == if rest.Rows? then Rows([Row(spec, vals)] + rest.rows) else rest
  {
    if |spec| > 1 {
      TabInLine(vals);
    }
    FoldRow(vals);
  }

  lemma {:induction false} RowsOfLines(spec: Spec, rows: seq<seq<string>>, at: nat)
    requires spec != [] && at <= |rows|
    requires forall i :: 0 <= i < |rows| ==> Sanitised(spec, rows[i])
    ensures RowsFrom(spec, LinesOf(rows), at) == Rows(AsRows(spec, rows)[at..])
    decreases |rows| - at
  {
    if at < |rows| {
      RowOfLine(spec, LinesOf(rows), at, rows[at]);
      RowsOfLines(spec, rows, at + 1);
      assert AsRows(spec, rows)[at..] == [Row(spec, rows[at])] + AsRows(spec, rows)[at + 1..];
    }
  }

  lemma {:induction false} JoinConcat(a: seq<string>, b: seq<string>, sep: string)
    requires a != [] && b != []
    ensures Join(a + b, sep) == Join(a, sep) + sep + Join(b, sep)
  {
    if |a| == 1 {
      assert (a + b)[1..] == b;
    } else {
      assert (a + b)[1..] == a[1..] + b;
      JoinConcat(a[1..], b, sep);
    }
  }

  lemma RenderedLines(spec: Spec, rows: seq<seq<string>>)
    requires rows != [] && forall i :: 0 <= i < |rows| ==> Sanitised(spec, rows[i])
    ensures Lines(Render(rows)) == Received(LinesOf(rows))
  {
    var lines := LinesOf(rows);
    forall i | 0 <= i < |lines| ensures '\n' !in lines[i] {
      JoinLacks(rows[i], '\t', '\n');
    }
    SplitRendered(lines);
  }

  // A row as it comes back: its last value less one carriage return at its end.
  function Back(vals: seq<string>): seq<string> {
    if vals == [] then [] else vals[|vals| - 1 := TrimSuffix(vals[|vals| - 1], '\r')]
  }

  // A table as it comes back, the final row having been trimmed twice.
  function AllBack(rows: seq<seq<string>>): seq<seq<string>> {
    seq(|rows|, i requires 0 <= i < |rows| => Back(if i == |rows| - 1 then Back(rows[i]) else rows[i]))
  }

  lemma BackSanitised(spec: Spec, vals: seq<string>)
    requires spec != [] && Sanitised(spec, vals)
    ensures Sanitised(spec, Back(vals)) && Line(Back(vals)) == TrimSuffix(Line(vals), '\r')
  {
    var back := Back(vals);
    TrimJoined(vals, "\t");
    forall v | v in back ensures '\n' !in v {
      var i :| 0 <= i < |back| && back[i] == v;
      assert back[i] <= vals[i] && '\n' !in vals[i];
    }
  }

  lemma AllBackSanitised(spec: Spec, rows: seq<seq<string>>, i: nat)
    requires spec != [] && i < |rows| && Sanitised(spec, rows[i])
    ensures Sanitised(spec, AllBack(rows)[i]) && Line(AllBack(rows)[i]) == Received(LinesOf(rows))[i]
  {
    BackSanitised(spec, rows[i]);
    BackSanitised(spec, Back(rows[i]));
  }

  /** What is read of any table the wire can carry: every row in its place, each less one carriage
      return at its end, and the final one less two. */
  lemma RowsReceived(spec: Spec, rows: seq<seq<string>>)
    requires spec != [] && forall i :: 0 <= i < |rows| ==> Sanitised(spec, rows[i])
    ensures ParseLines(spec, Lines(Render(rows))) == Rows(AsRows(spec, AllBack(rows)))
  {
    if rows == [] {
      assert AsRows(spec, AllBack(rows)) == [];
    } else {
      var back := AllBack(rows);
      forall i | 0 <= i < |rows|
        ensures Sanitised(spec, back[i]) && LinesOf(back)[i] == Received(LinesOf(rows))[i]
      {
        AllBackSanitised(spec, rows, i);
      }
      RenderedLines(spec, rows);
      assert LinesOf(back) == Received(LinesOf(rows));
      RowsOfLines(spec, back, 0);
      assert AsRows(spec, back)[0..] == AsRows(spec, back);
    }
  }

  // A row is changed on its way exactly when it ends in a carriage return.
  lemma BackSame(vals: seq<string>)
    requires vals != []
    ensures Back(vals) == vals <==> !EndsInCR(Line(vals))
    ensures |Back(vals)| == |vals| && |Back(vals)[|vals| - 1]| <= |vals[|vals| - 1]|
  {
    TrimJoined(vals, "\t");
  }

  lemma AllBackSame(rows: seq<seq<string>>, i: nat)
    requires i < |rows| && rows[i] != []
    ensures AllBack(rows)[i] == rows[i] <==> !EndsInCR(Line(rows[i]))
  {
    var vals := rows[i];
    BackSame(vals);
    BackSame(Back(vals));
    if EndsInCR(Line(vals)) {
      TrimJoined(vals, "\t");
      assert |Back(vals)[|vals| - 1]| < |vals[|vals| - 1]|;
    }
  }

  /** Rendered rows come back unchanged, empty values and trailing-column tabs included, exactly
      when no row ends in a carriage return. */
  lemma RowsRoundTrip(spec: Spec, rows: seq<seq<string>>)
    requires spec != [] && forall i :: 0 <= i < |rows| ==> Sanitised(spec, rows[i])
    ensures ParseLines(spec, Lines(Render(rows))) == Rows(AsRows(spec, rows))
            <==> forall i :: 0 <= i < |rows| ==> !EndsInCR(Line(rows[i]))
  {
    RowsReceived(spec, rows);
    var back, same := AsRows(spec, AllBack(rows)), AsRows(spec, rows);
    forall i | 0 <= i < |rows| ensures back[i] == same[i] <==> !EndsInCR(Line(rows[i])) {
      AllBackSame(rows, i);
    }
    if back == same {
      assert forall i :: 0 <= i < |rows| ==> back[i] == same[i];
    }
  }

  const ENDING: seq<seq<string>> := [["a\r"], ["b\r\r"]]

  lemma EndingBack()
    ensures Back(["a\r"]) == ["a"] && Back(["b\r\r"]) == ["b\r"] && Back(["b\r"]) == ["b"]
  {
    assert "a\r"[..1] == "a" && "b\r\r"[..2] == "b\r" && "b\r"[..1] == "b";
  }

  // Two rows that end in carriage returns: one is lost from the first, two from the last.
  lemma CarriageReturnsAreLost()
    ensures ParseLines(["v"], Lines(Render(ENDING))) == Rows(AsRows(["v"], [["a"], ["b"]]))
  {
    assert Sanitised(["v"], ENDING[0]) && Sanitised(["v"], ENDING[1]);
    RowsReceived(["v"], ENDING);
    EndingBack();
    assert AllBack(ENDING) == [["a"], ["b"]];
  }
}
