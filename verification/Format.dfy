/** format.go: the -F template a spec is rendered as, tmux's reading of it, and the doubling of
    '#' that keeps a name from being read as a format. */
module Format {
  import opened Bytes
  import opened Rows

  predicate IsBareVar(f: string) {
    f != "" && forall i :: 0 <= i < |f| ==>
                             'a' <= f[i] <= 'z' || 'A' <= f[i] <= 'Z' || IsDigit(f[i]) || f[i] in "_-@"
  }

  const DROP_TAB := "s/\t/ /"
  const DROP_NEWLINE := "s/\n/ /"

  function Substitutions(dropTab: bool): string {
    if dropTab then DROP_TAB + ";" + DROP_NEWLINE else DROP_NEWLINE
  }

  function RowSafeVar(f: string, dropTab: bool): string {
    "#{" + Substitutions(dropTab) + ":" + f + "}"
  }

  function FormatVar(f: string): string {
    if '#' in f then f else "#{" + f + "}"
  }

  function Column(spec: Spec, i: nat): string
    requires i < |spec|
  {
    if IsBareVar(spec[i]) then RowSafeVar(spec[i], i < |spec| - 1) else FormatVar(spec[i])
  }

  /** What each entry is asked for as: a bare variable by a substitution that leaves it no newline, and no tab
      unless it is last; a format as it stands; any other text as a variable. */
  lemma ColumnExactly(spec: Spec, i: nat)
    requires i < |spec|
    ensures var f := spec[i];
            var bare := f != "" && forall j :: 0 <= j < |f| ==>
                          || 'a' <= f[j] <= 'z' || 'A' <= f[j] <= 'Z' || '0' <= f[j] <= '9'
                          || f[j] == '_' || f[j] == '-' || f[j] == '@';
            Column(spec, i) ==
            if bare && i + 1 < |spec| then "#{s/\t/ /;s/\n/ /:" + f + "}"
            else if bare then "#{s/\n/ /:" + f + "}"
            else if '#' in f then f
            else "#{" + f + "}"
  {
    var f := spec[i];
    if IsBareVar(f) {
      assert "#{" + (DROP_TAB + ";" + DROP_NEWLINE) + ":" == "#{s/\t/ /;s/\n/ /:";
      assert "#{" + DROP_NEWLINE + ":" == "#{s/\n/ /:";
    }
  }

  function Columns(spec: Spec): seq<string> {
    seq(|spec|, i requires 0 <= i < |spec| => Column(spec, i))
  }

  function Template(spec: Spec): string {
    Join(Columns(spec), "\t")
  }

  method Arg(spec: Spec) returns (template: string)
    ensures template == Template(spec)
    ensures forall parts: seq<string> ::
              |parts| == |spec| && (forall i :: 0 <= i < |spec| ==> parts[i] == Column(spec, i)) ==>
                template == Join(parts, "\t")
  {
    var parts: seq<string> := [];
    for i := 0 to |spec|
      invariant |parts| == i
      invariant forall j :: 0 <= j < i ==> parts[j] == Column(spec, j)
    {
      if IsBareVar(spec[i]) {
        parts := parts + [RowSafeVar(spec[i], i < |spec| - 1)];
      } else {
        parts := parts + [FormatVar(spec[i])];
      }
    }
    assert parts == Columns(spec);
    forall same: seq<string> | |same| == |spec| && forall i :: 0 <= i < |spec| ==> same[i] == Column(spec, i)
      ensures same == parts
    {
    }
    return Join(parts, "\t");
  }

  // --- tmux's side: variables, and the substitution modifier ----------------------------------

  function Replace(v: string, from: char): string {
    if v == "" then "" else (if v[0] == from then " " else [v[0]]) + Replace(v[1..], from)
  }

  lemma {:induction false} ReplaceGone(v: string, from: char, kept: char)
    requires from != ' '
    ensures from !in Replace(v, from)
    ensures kept != ' ' && kept !in v ==> kept !in Replace(v, from)
    ensures from !in v ==> Replace(v, from) == v
  {
    if v != "" {
      ReplaceGone(v[1..], from, kept);
    }
  }

  // One "s/X/ /" applied to a value.
  function Substitute(sub: string, v: string): string {
    if |sub| == 6 && sub[..2] == "s/" && sub[3..] == "/ /" then Replace(v, sub[2]) else v
  }

  function Apply(subs: seq<string>, v: string): string {
    if subs == [] then v else Apply(subs[1..], Substitute(subs[0], v))
  }

  type Values = map<string, string>

  function Lookup(env: Values, name: string): string {
    if name in env then env[name] else ""
  }

  function Value(body: string, env: Values): string {
    var (modifiers, name, found) := CutByte(body, ':');
    if found then Apply(Split(modifiers, ';'), Lookup(env, name)) else Lookup(env, body)
  }

  function Expand(t: string, env: Values): string
    decreases |t|
  {
    if t == "" then ""
    else if "#{" <= t then
      var (body, rest, found) := CutByte(t[2..], '}');
      Value(body, env) + if found then Expand(rest, env) else ""
    else [t[0]] + Expand(t[1..], env)
  }

  // What a column of one object comes to.
  function Cell(spec: Spec, i: nat, env: Values): string
    requires i < |spec|
  {
    Drop(Lookup(env, spec[i]), i < |spec| - 1)
  }

  function Cells(spec: Spec, env: Values): seq<string> {
    seq(|spec|, i requires 0 <= i < |spec| => Cell(spec, i, env))
  }

  function Drop(v: string, dropTab: bool): string {
    Replace(if dropTab then Replace(v, '\t') else v, '\n')
  }

  lemma SubstituteNewline(v: string)
    ensures Substitute(DROP_NEWLINE, v) == Replace(v, '\n')
  {
    assert DROP_NEWLINE[..2] == "s/" && DROP_NEWLINE[3..] == "/ /";
  }

  lemma SubstituteTab(v: string)
    ensures Substitute(DROP_TAB, v) == Replace(v, '\t')
  {
    assert DROP_TAB[..2] == "s/" && DROP_TAB[3..] == "/ /";
  }

  lemma ApplyBoth(v: string)
    ensures Apply([DROP_TAB, DROP_NEWLINE], v) == Apply([DROP_NEWLINE], Substitute(DROP_TAB, v))
  {
    assert [DROP_TAB, DROP_NEWLINE][1..] == [DROP_NEWLINE];
  }

  lemma ApplySubstitutions(v: string, dropTab: bool)
    ensures Apply(Split(Substitutions(dropTab), ';'), v) == Drop(v, dropTab)
  {
    var w := if dropTab then Substitute(DROP_TAB, v) else v;
    SubstituteTab(v);
    SubstituteNewline(w);
    ApplyLast(DROP_NEWLINE, w);
    if dropTab {
      SplitTwo(DROP_TAB, ';', DROP_NEWLINE);
      ApplyBoth(v);
    } else {
      SplitTwo(DROP_NEWLINE, ';', DROP_NEWLINE);
    }
  }

  lemma ApplyLast(sub: string, v: string)
    ensures Apply([sub], v) == Substitute(sub, v)
  {
    assert [sub][1..] == [];
  }

  lemma ValueOfColumn(f: string, dropTab: bool, env: Values)
    ensures Value(Substitutions(dropTab) + ":" + f, env) == Drop(Lookup(env, f), dropTab)
  {
    assert ':' !in DROP_TAB && ':' !in DROP_NEWLINE && ':' !in Substitutions(dropTab);
    CutByteAt(Substitutions(dropTab), ':', f);
    ApplySubstitutions(Lookup(env, f), dropTab);
  }

  lemma BareVarBytes(f: string, dropTab: bool)
    requires IsBareVar(f)
    ensures '}' !in Substitutions(dropTab) + ":" + f
  {
    assert '}' !in DROP_TAB && '}' !in DROP_NEWLINE;
  }

  lemma ExpandColumn(f: string, dropTab: bool, env: Values, rest: string)
    requires IsBareVar(f)
    ensures Expand(RowSafeVar(f, dropTab) + rest, env) == Drop(Lookup(env, f), dropTab) + Expand(rest, env)
  {
    var body := Substitutions(dropTab) + ":" + f;
    var t := RowSafeVar(f, dropTab) + rest;
    assert t == "#{" + (body + "}" + rest);
    assert t[2..] == body + ['}'] + rest;
    BareVarBytes(f, dropTab);
    CutByteAt(body, '}', rest);
    ValueOfColumn(f, dropTab, env);
  }

  lemma ExpandTab(tail: string, env: Values)
    ensures Expand("\t" + tail, env) == "\t" + Expand(tail, env)
  {
    assert ("\t" + tail)[0] == '\t' && ("\t" + tail)[1..] == tail;
  }

  lemma {:induction false} ExpandColumns(spec: Spec, env: Values, at: nat)
    requires at < |spec| && forall i :: 0 <= i < |spec| ==> IsBareVar(spec[i])
    ensures Expand(Join(Columns(spec)[at..], "\t"), env) == Line(Cells(spec, env)[at..])
    decreases |spec| - at
  {
    var columns, cells := Columns(spec)[at..], Cells(spec, env)[at..];
    if at == |spec| - 1 {
      assert Join(columns, "\t") == Column(spec, at) + "";
      ExpandColumn(spec[at], false, env, "");
      assert Line(cells) == Cell(spec, at, env) == Cell(spec, at, env) + "";
    } else {
      var tail := Join(Columns(spec)[at + 1..], "\t");
      assert columns[1..] == Columns(spec)[at + 1..] && cells[1..] == Cells(spec, env)[at + 1..];
      Assoc(Column(spec, at), "\t", tail);
      ExpandColumn(spec[at], true, env, "\t" + tail);
      ExpandTab(tail, env);
      ExpandColumns(spec, env, at + 1);
      var more := Line(Cells(spec, env)[at + 1..]);
      Assoc(Cell(spec, at, env), "\t", more);
    }
  }

  lemma CellsSanitised(spec: Spec, env: Values)
    ensures Sanitised(spec, Cells(spec, env))
    ensures forall i :: 0 <= i < |spec| && '\t' !in Lookup(env, spec[i]) && '\n' !in Lookup(env, spec[i])
                        ==> Cells(spec, env)[i] == Lookup(env, spec[i])
  {
    forall i | 0 <= i < |spec|
      ensures '\n' !in Cell(spec, i, env) && (i < |spec| - 1 ==> '\t' !in Cell(spec, i, env))
      ensures var v := Lookup(env, spec[i]); '\t' !in v && '\n' !in v ==> Cell(spec, i, env) == v
    {
      var v := Lookup(env, spec[i]);
      ReplaceGone(v, '\t', '\n');
      ReplaceGone(Replace(v, '\t'), '\n', '\t');
      ReplaceGone(v, '\n', '\t');
    }
  }

  function Table(spec: Spec, objects: seq<Values>): seq<seq<string>> {
    seq(|objects|, i requires 0 <= i < |objects| => Cells(spec, objects[i]))
  }

  // A listing: tmux expands the template once per object and ends each with a newline.
  function Listing(template: string, objects: seq<Values>): string {
    if objects == [] then ""
    else Listing(template, objects[..|objects| - 1]) + Expand(template, objects[|objects| - 1]) + "\n"
  }

  lemma ExpandTemplate(spec: Spec, env: Values)
    requires spec != [] && forall i :: 0 <= i < |spec| ==> IsBareVar(spec[i])
    ensures Expand(Template(spec), env) == Line(Cells(spec, env))
  {
    ExpandColumns(spec, env, 0);
    assert Columns(spec)[0..] == Columns(spec);
    assert Cells(spec, env)[0..] == Cells(spec, env);
  }

  lemma RenderSnoc(rows: seq<seq<string>>, row: seq<string>)
    ensures Render(rows + [row]) == Render(rows) + Line(row) + "\n"
  {
    assert LinesOf(rows + [row]) == LinesOf(rows) + [Line(row)];
    if rows != [] {
      JoinConcat(LinesOf(rows), [Line(row)], "\n");
    } else {
      assert LinesOf(rows) + [Line(row)] == [Line(row)];
    }
  }

  lemma {:induction false} ListingRenders(spec: Spec, objects: seq<Values>)
    requires spec != [] && forall i :: 0 <= i < |spec| ==> IsBareVar(spec[i])
    ensures Listing(Template(spec), objects) == Render(Table(spec, objects))
  {
    if objects != [] {
      var k := |objects| - 1;
      var before := objects[..k];
      ListingRenders(spec, before);
      ExpandTemplate(spec, objects[k]);
      assert Table(spec, objects) == Table(spec, before) + [Cells(spec, objects[k])];
      RenderSnoc(Table(spec, before), Cells(spec, objects[k]));
    }
  }

  lemma TableSanitised(spec: Spec, objects: seq<Values>)
    ensures forall i :: 0 <= i < |objects| ==> Sanitised(spec, Table(spec, objects)[i])
  {
    forall i | 0 <= i < |objects| ensures Sanitised(spec, Table(spec, objects)[i]) {
      CellsSanitised(spec, objects[i]);
    }
  }

  /** What is read of a listing, whatever bytes the values hold: one row per object, every column in
      place, and nothing lost but the carriage returns at the very end of a row. */
  lemma QueryReceived(spec: Spec, objects: seq<Values>)
    requires spec != [] && forall i :: 0 <= i < |spec| ==> IsBareVar(spec[i])
    ensures ParseLines(spec, Lines(Listing(Template(spec), objects))) ==
            Rows(AsRows(spec, AllBack(Table(spec, objects))))
  {
    ListingRenders(spec, objects);
    TableSanitised(spec, objects);
    RowsReceived(spec, Table(spec, objects));
  }

  /** Whatever bytes the values hold, a listing asked for through Arg and read through ParseRows
      has one row per object, every column in place: a tab in any column but the last and a newline
      in any column arrive as a space, and nothing else changes, unless a row ends in a carriage
      return. */
  lemma QueryRoundTrip(spec: Spec, objects: seq<Values>)
    requires spec != [] && forall i :: 0 <= i < |spec| ==> IsBareVar(spec[i])
    ensures ParseLines(spec, Lines(Listing(Template(spec), objects))) == Rows(AsRows(spec, Table(spec, objects)))
            <==> forall i :: 0 <= i < |objects| ==> !EndsInCR(Line(Cells(spec, objects[i])))
  {
    ListingRenders(spec, objects);
    TableSanitised(spec, objects);
    var rows := Table(spec, objects);
    RowsRoundTrip(spec, rows);
    assert |rows| == |objects| && forall i :: 0 <= i < |objects| ==> rows[i] == Cells(spec, objects[i]);
  }

  // --- escapeFormat ---------------------------------------------------------------------------

  // strings.ReplaceAll(s, "#", "##")
  function EscapeFormat(s: string): string {
    if s == "" then "" else (if s[0] == '#' then "##" else [s[0]]) + EscapeFormat(s[1..])
  }

  // format_expand on a name: "##" is a '#', and a '#' before anything else is a format, whose
  // value the rules here do not fix.
  function ExpandName(s: string): Option<string> {
    if s == "" then Some("")
    else if s[0] != '#' then
      var rest := ExpandName(s[1..]);
      if rest.Some? then Some([s[0]] + rest.value) else None
    else if |s| > 1 && s[1] == '#' then
      var rest := ExpandName(s[2..]);
      if rest.Some? then Some("#" + rest.value) else None
    else None
  }

  lemma {:induction false} ExpandEscapeFormat(s: string)
    ensures ExpandName(EscapeFormat(s)) == Some(s)
  {
    if s != "" {
      var rest := EscapeFormat(s[1..]);
      ExpandEscapeFormat(s[1..]);
      assert s == [s[0]] + s[1..];
      if s[0] == '#' {
        assert ("##" + rest)[2..] == rest;
      } else {
        assert ([s[0]] + rest)[1..] == rest;
      }
    }
  }
}
