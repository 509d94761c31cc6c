/** hooks.go: the two-pass merge of what show-hooks prints. */
module Hooks {
  import opened Bytes
  import Dollar
  import Options
  import Tables

  datatype Hook = Hook(printed: string, base: string, command: string)

  function ParseHook(line: string): Option<Hook> {
    var (printed, command, found) := CutByte(line, ' ');
    if line == "" || !found then None
    else Some(Hook(printed, Options.SplitArrayElement(printed).0, command))
  }

  function ParseHooks(lines: seq<string>): seq<Hook> {
    if lines == [] then []
    else
      var before := ParseHooks(lines[..|lines| - 1]);
      var h := ParseHook(lines[|lines| - 1]);
      if h.Some? then before + [h.value] else before
  }

  function Elements(hooks: seq<Hook>, base: string): nat {
    if hooks == [] then 0
    else Elements(hooks[..|hooks| - 1], base) + if hooks[|hooks| - 1].base == base then 1 else 0
  }

  // The name a hook is reported under: its index comes off when its base has no other element.
  function Key(fault: bool, all: seq<Hook>, h: Hook): string {
    Dollar.DecodeStored(fault, if Elements(all, h.base) > 1 then h.printed else h.base)
  }

  function Entries(fault: bool, all: seq<Hook>): Tables.Entries {
    seq(|all|, i requires 0 <= i < |all| => (Key(fault, all, all[i]), Dollar.DecodeStored(fault, all[i].command)))
  }

  function Merge(fault: bool, hooks: seq<Hook>): map<string, string> {
    Tables.Fill(Entries(fault, hooks))
  }

  lemma ElementsSnoc(hooks: seq<Hook>, h: Hook)
    ensures forall b :: Elements(hooks + [h], b) == Elements(hooks, b) + if h.base == b then 1 else 0
  {
    assert (hooks + [h])[..|hooks|] == hooks;
  }

  lemma ParseHooksSnoc(lines: seq<string>, i: nat)
    requires i < |lines|
    ensures var h := ParseHook(lines[i]);
            ParseHooks(lines[..i + 1]) == if h.Some? then ParseHooks(lines[..i]) + [h.value] else ParseHooks(lines[..i])
  {
    assert lines[..i + 1][..i] == lines[..i];
  }

  // The first pass: what was printed, and how many elements each base name turned out to have.
  method CountElements(lines: seq<string>) returns (parsed: seq<Hook>, elements: map<string, nat>)
    ensures parsed == ParseHooks(lines)
    ensures forall b :: (if b in elements then elements[b] else 0) == Elements(parsed, b)
  {
    parsed, elements := [], map[];
    for i := 0 to |lines|
      invariant parsed == ParseHooks(lines[..i])
      invariant forall b :: (if b in elements then elements[b] else 0) == Elements(parsed, b)
    {
      ParseHooksSnoc(lines, i);
      var h := ParseHook(lines[i]);
      if h.None? {
        continue;
      }
      ElementsSnoc(parsed, h.value);
      parsed := parsed + [h.value];
      var seen := if h.value.base in elements then elements[h.value.base] else 0;
      elements := elements[h.value.base := seen + 1];
    }
    assert lines[..|lines|] == lines;
  }

  method ReadHooks(fault: bool, lines: seq<string>) returns (hooks: map<string, string>)
    ensures hooks == Merge(fault, ParseHooks(lines))
  {
    var parsed, elements := CountElements(lines);
    ghost var entries := Entries(fault, parsed);
    hooks := map[];
    for i := 0 to |parsed|
      invariant hooks == Tables.Fill(entries[..i])
    {
      var h := parsed[i];
      ElementsPositive(parsed, i);
      var command := Dollar.DecodeStored(fault, h.command);
      assert entries[..i + 1] == entries[..i] + [(Key(fault, parsed, h), command)];
      Tables.FillSnoc(entries[..i], Key(fault, parsed, h), command);
      if elements[h.base] > 1 {
        hooks := hooks[Dollar.DecodeStored(fault, h.printed) := command];
        continue;
      }
      hooks := hooks[Dollar.DecodeStored(fault, h.base) := command];
    }
    assert entries[..|parsed|] == entries;
  }

  lemma {:induction false} ElementsPositive(hooks: seq<Hook>, i: nat)
    requires i < |hooks|
    ensures Elements(hooks, hooks[i].base) >= 1
  {
    if i < |hooks| - 1 {
      ElementsPositive(hooks[..|hooks| - 1], i);
    }
  }

  lemma {:induction false} ElementsTwice(hooks: seq<Hook>, i: nat, j: nat)
    requires i < j < |hooks| && hooks[i].base == hooks[j].base
    ensures Elements(hooks, hooks[i].base) >= 2
  {
    if j < |hooks| - 1 {
      ElementsTwice(hooks[..|hooks| - 1], i, j);
    } else {
      ElementsPositive(hooks[..|hooks| - 1], i);
    }
  }

  // Hooks as tmux prints the ones that are set: distinct names, each as it is stored.
  ghost predicate Printed(fault: bool, hooks: seq<Hook>) {
    && (forall i :: 0 <= i < |hooks| ==> Dollar.IsStored(fault, hooks[i].printed))
    && (forall i :: 0 <= i < |hooks| ==> hooks[i].base == Options.SplitArrayElement(hooks[i].printed).0)
    && (forall i, j :: 0 <= i < j < |hooks| ==> hooks[i].printed != hooks[j].printed)
  }

  // A lone hook whose stripped name is the printed name of an element of an array.
  ghost predicate Clash(hooks: seq<Hook>, i: nat, j: nat) {
    && i < |hooks| && j < |hooks|
    && Elements(hooks, hooks[i].base) == 1
    && Elements(hooks, hooks[j].base) > 1
    && hooks[i].base == hooks[j].printed
  }

  // The name a hook is reported under, before it is decoded.
  function Shown(all: seq<Hook>, h: Hook): string {
    if Elements(all, h.base) > 1 then h.printed else h.base
  }

  lemma KeysMeet(fault: bool, hooks: seq<Hook>, i: nat, j: nat)
    requires Printed(fault, hooks) && i < |hooks| && j < |hooks| && i != j
    ensures Key(fault, hooks, hooks[i]) == Key(fault, hooks, hooks[j])
            <==> Clash(hooks, i, j) || Clash(hooks, j, i)
  {
    var a, b := hooks[i], hooks[j];
    assert a.base <= a.printed && b.base <= b.printed;
    Dollar.DecodeStoredApart(fault, a.printed, b.printed, Shown(hooks, a), Shown(hooks, b));
    ElementsPositive(hooks, i);
    ElementsPositive(hooks, j);
    if a.base == b.base {
      ElementsTwice(hooks, if i < j then i else j, if i < j then j else i);
    }
  }

  lemma DistinctUnlessClash(fault: bool, hooks: seq<Hook>)
    requires Printed(fault, hooks)
    ensures Tables.DistinctKeys(Entries(fault, hooks)) <==> forall i: nat, j: nat :: !Clash(hooks, i, j)
  {
    var entries := Entries(fault, hooks);
    if i: nat, j: nat :| Clash(hooks, i, j) {
      assert i != j;
      KeysMeet(fault, hooks, i, j);
      assert entries[i].0 == entries[j].0;
    }
    if i, j :| 0 <= i < j < |hooks| && entries[i].0 == entries[j].0 {
      KeysMeet(fault, hooks, i, j);
    }
  }

  /** The merged map holds one entry per set hook exactly when no lone hook's stripped name is an
      array element's printed name; then each hook is found under its own key with its own
      command. */
  lemma MergeKeepsHooks(fault: bool, hooks: seq<Hook>)
    requires Printed(fault, hooks)
    ensures var m := Merge(fault, hooks);
            && (|m| == |hooks| <==> forall i: nat, j: nat :: !Clash(hooks, i, j))
            && (|m| == |hooks| ==>
                  forall i :: 0 <= i < |hooks| ==>
                                var k := Key(fault, hooks, hooks[i]);
                                k in m && m[k] == Dollar.DecodeStored(fault, hooks[i].command))
  {
    var entries := Entries(fault, hooks);
    Tables.FillHolds(entries);
    DistinctUnlessClash(fault, hooks);
    assert forall i :: 0 <= i < |hooks| ==>
                         entries[i] == (Key(fault, hooks, hooks[i]), Dollar.DecodeStored(fault, hooks[i].command));
  }

  // No clash is possible while no base name itself ends in a bracketed index.
  lemma PlainBasesNeverClash(fault: bool, hooks: seq<Hook>, i: nat, j: nat)
    requires Printed(fault, hooks)
    requires forall k :: 0 <= k < |hooks| ==> !Options.SplitArrayElement(hooks[k].base).1
    ensures !Clash(hooks, i, j)
  {
    if i < |hooks| && j < |hooks| && hooks[i].base == hooks[j].printed {
      assert hooks[j].base == hooks[j].printed;
    }
  }

  const ARRAY_HEAD := Hook("a[0]", "a", "x")
  const ARRAY_NEXT := Hook("a[1]", "a", "y")
  const LONE := Hook("a[0][0]", "a[0]", "z")

  lemma LostHooksArePrinted(fault: bool)
    ensures Printed(fault, [ARRAY_HEAD, ARRAY_NEXT, LONE])
  {
    LostHooksSplit();
    var hooks := [ARRAY_HEAD, ARRAY_NEXT, LONE];
    assert ARRAY_HEAD.printed[2] != ARRAY_NEXT.printed[2];
    assert |ARRAY_HEAD.printed| == |ARRAY_NEXT.printed| == 4 && |LONE.printed| == 7;
    forall i | 0 <= i < 3
      ensures Dollar.IsStored(fault, hooks[i].printed) && hooks[i].base == Options.SplitArrayElement(hooks[i].printed).0
    {
      assert hooks[i] == ARRAY_HEAD || hooks[i] == ARRAY_NEXT || hooks[i] == LONE;
      PlainIsStored(fault, hooks[i].printed);
    }
  }

  lemma PlainIsStored(fault: bool, name: string)
    requires '$' !in name
    ensures Dollar.IsStored(fault, name)
  {
    Dollar.InsertedPlain(name);
    assert name == Dollar.Stored(fault, name);
  }

  lemma LostHooksSplit()
    ensures Options.SplitArrayElement(ARRAY_HEAD.printed).0 == ARRAY_HEAD.base
    ensures Options.SplitArrayElement(ARRAY_NEXT.printed).0 == ARRAY_NEXT.base
    ensures Options.SplitArrayElement(LONE.printed).0 == LONE.base
  {
    Options.SplitIndexed("a", "0");
    Options.SplitIndexed("a", "1");
    Options.SplitIndexed("a[0]", "0");
    assert "a" + "[" + "0" + "]" == "a[0]" && "a" + "[" + "1" + "]" == "a[1]";
    assert "a[0]" + "[" + "0" + "]" == "a[0][0]";
  }

  // With such a base name the merge loses a hook: a[0], a[1] and a lone a[0][0] are two entries.
  lemma AHookIsLost(fault: bool)
    ensures var hooks := [ARRAY_HEAD, ARRAY_NEXT, LONE]; Printed(fault, hooks) && |Merge(fault, hooks)| < |hooks|
  {
    var hooks := [ARRAY_HEAD, ARRAY_NEXT, LONE];
    LostHooksArePrinted(fault);
    ThreeHooks(ARRAY_HEAD, ARRAY_NEXT, LONE);
    assert |LONE.base| != |ARRAY_HEAD.base|;
    assert Clash(hooks, 2, 0);
    MergeKeepsHooks(fault, hooks);
    Tables.FillSize(Entries(fault, hooks));
  }

  lemma ThreeHooks(a: Hook, b: Hook, c: Hook)
    ensures forall base :: Elements([a, b, c], base) ==
                           (if a.base == base then 1 else 0) + (if b.base == base then 1 else 0)
                           + (if c.base == base then 1 else 0)
  {
    assert [a] == [] + [a] && [a, b] == [a] + [b] && [a, b, c] == [a, b] + [c];
    ElementsSnoc([], a);
    ElementsSnoc([a], b);
    ElementsSnoc([a, b], c);
  }

  // --- From the hooks that were set to the map that is read ---------------------------------------

  // A hook as its owner set it.
  datatype Given = Given(name: string, command: string)

  function HookOf(fault: bool, g: Given): Hook {
    var printed := Dollar.Stored(fault, g.name);
    Hook(printed, Options.SplitArrayElement(printed).0, Dollar.Stored(fault, g.command))
  }

  function HooksOf(fault: bool, given: seq<Given>): seq<Hook> {
    seq(|given|, i requires 0 <= i < |given| => HookOf(fault, given[i]))
  }

  // The lines of hooks that are set; a hook of the global table that is not is printed alone.
  function SetLines(lines: seq<string>): seq<string> {
    if lines == [] then []
    else SetLines(lines[..|lines| - 1]) + if ' ' in lines[|lines| - 1] then [lines[|lines| - 1]] else []
  }

  ghost predicate Shows(fault: bool, given: seq<Given>, lines: seq<string>) {
    var shown := SetLines(lines);
    && |shown| == |given|
    && forall i :: 0 <= i < |given| ==>
         && Options.PrintableName(given[i].name)
         && shown[i] == Dollar.Stored(fault, given[i].name) + " " + Dollar.Stored(fault, given[i].command)
  }

  ghost predicate DistinctGiven(given: seq<Given>) {
    forall i, j :: 0 <= i < j < |given| ==> given[i].name != given[j].name
  }

  lemma ParseShown(fault: bool, g: Given)
    requires Options.PrintableName(g.name)
    ensures ParseHook(Dollar.Stored(fault, g.name) + " " + Dollar.Stored(fault, g.command)) == Some(HookOf(fault, g))
  {
    Options.CutName(fault, g.name, Dollar.Stored(fault, g.command));
  }

  lemma NoHook(line: string)
    requires ' ' !in line
    ensures ParseHook(line).None?
  {
  }

  lemma HooksOfLast(fault: bool, given: seq<Given>)
    requires given != []
    ensures var k := |given| - 1; HooksOf(fault, given) == HooksOf(fault, given[..k]) + [HookOf(fault, given[k])]
  {
  }

  lemma ShowsFront(fault: bool, given: seq<Given>, lines: seq<string>)
    requires Shows(fault, given, lines) && lines != []
    ensures var n, k := |lines| - 1, |given| - 1;
            if ' ' !in lines[n] then Shows(fault, given, lines[..n])
            else
              && given != [] && Shows(fault, given[..k], lines[..n]) && Options.PrintableName(given[k].name)
              && lines[n] == Dollar.Stored(fault, given[k].name) + " " + Dollar.Stored(fault, given[k].command)
  {
    var n := |lines| - 1;
    if ' ' !in lines[n] {
      assert SetLines(lines[..n]) + [] == SetLines(lines[..n]);
    }
  }

  lemma {:induction false} ParseAllShown(fault: bool, given: seq<Given>, lines: seq<string>)
    requires Shows(fault, given, lines)
    ensures ParseHooks(lines) == HooksOf(fault, given)
    decreases |lines|
  {
    if lines != [] {
      var n, k := |lines| - 1, |given| - 1;
      ShowsFront(fault, given, lines);
      assert lines[..n + 1] == lines;
      ParseHooksSnoc(lines, n);
      if ' ' !in lines[n] {
        NoHook(lines[n]);
        ParseAllShown(fault, given, lines[..n]);
      } else {
        ParseAllShown(fault, given[..k], lines[..n]);
        ParseShown(fault, given[k]);
        HooksOfLast(fault, given);
      }
    }
  }

  lemma GivenArePrinted(fault: bool, given: seq<Given>)
    requires DistinctGiven(given)
    ensures Printed(fault, HooksOf(fault, given))
  {
    var hooks := HooksOf(fault, given);
    forall i | 0 <= i < |hooks| ensures Dollar.IsStored(fault, hooks[i].printed) {
      assert hooks[i].printed == Dollar.Stored(fault, given[i].name);
    }
    forall i, j | 0 <= i < j < |hooks| ensures hooks[i].printed != hooks[j].printed {
      Dollar.DecodeStoredInverts(fault, given[i].name);
      Dollar.DecodeStoredInverts(fault, given[j].name);
    }
  }

  /** What was set is what is read: from the lines of show-hooks, unset hooks and blank lines among
      them, the map holds one entry per hook exactly when no lone hook's stripped name is another's
      printed one; then each stands, with the command it was given, under its own name if its base has
      other elements, and under its base if not. */
  lemma ShowHooksInverts(fault: bool, given: seq<Given>, lines: seq<string>)
    requires Shows(fault, given, lines) && DistinctGiven(given)
    ensures var m, hooks := Merge(fault, ParseHooks(lines)), HooksOf(fault, given);
            && (|m| == |given| <==> forall i: nat, j: nat :: !Clash(hooks, i, j))
            && (|m| == |given| ==> forall i :: 0 <= i < |given| ==>
                  var k := if Elements(hooks, hooks[i].base) > 1 then given[i].name
                           else Dollar.DecodeStored(fault, hooks[i].base);
                  k in m && m[k] == given[i].command)
  {
    var hooks := HooksOf(fault, given);
    ParseAllShown(fault, given, lines);
    GivenArePrinted(fault, given);
    MergeKeepsHooks(fault, hooks);
    forall i | 0 <= i < |given|
      ensures Key(fault, hooks, hooks[i]) ==
              if Elements(hooks, hooks[i].base) > 1 then given[i].name else Dollar.DecodeStored(fault, hooks[i].base)
      ensures Dollar.DecodeStored(fault, hooks[i].command) == given[i].command
    {
      Dollar.DecodeStoredInverts(fault, given[i].name);
      Dollar.DecodeStoredInverts(fault, given[i].command);
    }
  }

  // --- The index taken off a name the fault has been over ------------------------------------------

  // The fault, on a text that something is to follow.
  function InsertedAll(v: string): string {
    if v == "" then "" else (if v[0] == '$' then "\\$" else [v[0]]) + InsertedAll(v[1..])
  }

  lemma {:induction false} InsertedConcat(a: string, b: string)
    requires b != ""
    ensures Dollar.Inserted(a + b) == InsertedAll(a) + Dollar.Inserted(b)
  {
    if a == "" {
      assert a + b == b;
    } else {
      var first := if a[0] == '$' then "\\$" else [a[0]];
      InsertedConcat(a[1..], b);
      assert (a + b)[0] == a[0] && (a + b)[1..] == a[1..] + b;
      assert Dollar.Inserted(a + b) == first + Dollar.Inserted(a[1..] + b);
      Assoc(first, InsertedAll(a[1..]), Dollar.Inserted(b));
    }
  }

  lemma {:induction false} UndoneTail(a: string, tail: string) returns (y: string)
    requires tail != "" && '$' !in tail && '\\' !in tail
    ensures Dollar.Undone(a + tail) == y + tail && (a != "" ==> y != "")
  {
    if a == "" {
      y := "";
      assert a + tail == tail == y + tail;
      Dollar.UndonePlain(tail);
    } else {
      var v := a + tail;
      assert v[0] == a[0] && v[1..] == a[1..] + tail;
      var rest := UndoneTail(a[1..], tail);
      if v[0] == '\\' && |v| > 2 && v[1] == '$' {
        y := rest;
        assert |a| > 1;
      } else {
        y := [a[0]] + rest;
      }
    }
  }

  lemma Brackets(base: string, d: string)
    ensures base + ("[" + d + "]") == base + "[" + d + "]"
  {
    Assoc(base, "[" + d, "]");
    Assoc(base, "[", d);
  }

  lemma IndexStays(base: string, d: string)
    requires base != "" && AllDigits(d)
    ensures Options.SplitArrayElement(Dollar.Inserted(base + "[" + d + "]")) == (InsertedAll(base), true)
  {
    Brackets(base, d);
    Brackets(InsertedAll(base), d);
    InsertedConcat(base, "[" + d + "]");
    assert '$' !in "[" + d + "]";
    Dollar.InsertedPlain("[" + d + "]");
    assert InsertedAll(base) != "";
    Options.SplitIndexed(InsertedAll(base), d);
  }

  lemma NoIndexAppears(name: string, b: string, d: string)
    requires Options.Indexed(Dollar.Inserted(name), b, d)
    ensures exists y :: Options.Indexed(name, y, d)
  {
    var tail := "[" + d + "]";
    Brackets(b, d);
    var y := UndoneTail(b, tail);
    Dollar.UndoInserted(name);
    Brackets(y, d);
    assert Options.Indexed(name, y, d);
  }

  // The fault neither makes an index nor hides one.
  lemma StoredIndex(name: string)
    ensures var (base, split) := Options.SplitArrayElement(name);
            Options.SplitArrayElement(Dollar.Inserted(name)) ==
            if split then (InsertedAll(base), true) else (Dollar.Inserted(name), false)
  {
    var (base, split) := Options.SplitArrayElement(name);
    Options.SplitExactly(name);
    if split {
      var d :| Options.Indexed(name, base, d);
      IndexStays(base, d);
    } else {
      Options.SplitExactly(Dollar.Inserted(name));
      if b, d :| Options.Indexed(Dollar.Inserted(name), b, d) {
        NoIndexAppears(name, b, d);
      }
    }
  }

  // A base that ends in '$' is stored with a backslash before it, since its index follows, and read
  // without its index, where nothing does.
  predicate EndsInDollar(base: string) {
    base != "" && base[|base| - 1] == '$'
  }

  /** A lone hook is read under the base of the name it was given, exactly unless the fault has put a
      backslash before a '$' at that base's end. */
  lemma LoneKey(fault: bool, name: string)
    ensures var (base, split) := Options.SplitArrayElement(name);
            var read := Dollar.DecodeStored(fault, Options.SplitArrayElement(Dollar.Stored(fault, name)).0);
            && (read == base <==> !(fault && split && EndsInDollar(base)))
            && (read != base ==> read == base[..|base| - 1] + "\\$")
  {
    var (base, split) := Options.SplitArrayElement(name);
    StoredIndex(name);
    Dollar.UndoInserted(name);
    if split {
      UndoneAll(base);
      assert |base[..|base| - 1] + "\\$"| != |base|;
    }
  }

  lemma UndoneAll(base: string)
    requires base != ""
    ensures Dollar.Undone(InsertedAll(base)) ==
            if EndsInDollar(base) then base[..|base| - 1] + "\\$" else base
  {
    var k := |base| - 1;
    var front, last := base[..k], base[k..];
    assert base == front + last && last == [base[k]];
    InsertedAllConcat(front, last);
    if base[k] == '$' {
      LastDollar(last);
      InsertedConcat(front, "\\$");
      Dollar.UndoInserted(front + "\\$");
    } else {
      InsertedConcat(front, last);
      Dollar.UndoInserted(base);
    }
  }

  lemma LastDollar(last: string)
    requires last == "$"
    ensures InsertedAll(last) == "\\$" == Dollar.Inserted("\\$")
  {
    assert "\\$"[1..] == "$";
  }

  lemma {:induction false} InsertedAllConcat(a: string, b: string)
    ensures InsertedAll(a + b) == InsertedAll(a) + InsertedAll(b)
  {
    if a == "" {
      assert a + b == b;
    } else {
      var first := if a[0] == '$' then "\\$" else [a[0]];
      InsertedAllConcat(a[1..], b);
      assert (a + b)[0] == a[0] && (a + b)[1..] == a[1..] + b;
      Assoc(first, InsertedAll(a[1..]), InsertedAll(b));
    }
  }
}
