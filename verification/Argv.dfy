/** client.go: the one byte that crosses out of an argv element, and tmux's own argv parser. */
module Argv {
  import opened Bytes

  predicate Ends(a: string) {
    a != "" && a[|a| - 1] == ';'
  }

  function Disarm(a: string): string {
    if Ends(a) then a[..|a| - 1] + "\\;" else a
  }

  function DisarmAll(args: seq<string>): seq<string> {
    seq(|args|, i requires 0 <= i < |args| => Disarm(args[i]))
  }

  /** escapeTrailingSemicolon: the caller's own array is handed back when nothing ends in ';', and
      is never written to. */
  method EscapeTrailingSemicolon(args: array<string>) returns (out: array<string>)
    ensures out[..] == DisarmAll(args[..])
    ensures args[..] == old(args[..])
    ensures if exists i :: 0 <= i < args.Length && Ends(args[i]) then fresh(out) else out == args
  {
    var copied := false;
    out := args;
    for i := 0 to args.Length
      invariant copied <==> exists j :: 0 <= j < i && Ends(args[j])
      invariant if copied then fresh(out) else out == args
      invariant out.Length == args.Length
      invariant args[..] == old(args[..])
      invariant forall j :: 0 <= j < i ==> out[j] == Disarm(args[j])
      invariant forall j :: i <= j < args.Length ==> out[j] == args[j]
    {
      var a := args[i];
      if !Ends(a) {
        continue;
      }
      if !copied {
        out := new string[args.Length](j requires 0 <= j < args.Length reads args => args[j]);
        copied := true;
      }
      out[i] := a[..|a| - 1] + "\\;";
    }
  }

  /** tmux's argv parser: a final ';' is taken off an element; a backslash that has become last is
      rewritten as that ';', and otherwise the command ends there. */
  function Commands(args: seq<string>, command: seq<string>): seq<seq<string>> {
    if args == [] then Finish(command)
    else
      var a := args[0];
      if a == "" || a[|a| - 1] != ';' then Commands(args[1..], command + [a])
      else
        var left := a[..|a| - 1];
        if left != "" && left[|left| - 1] == '\\' then
          Commands(args[1..], command + [left[..|left| - 1] + ";"])
        else Finish(if left == "" then command else command + [left]) + Commands(args[1..], [])
  }

  function Finish(command: seq<string>): seq<seq<string>> {
    if command == [] then [] else [command]
  }

  lemma {:induction false} CommandsDisarmed(args: seq<string>, command: seq<string>)
    ensures Commands(DisarmAll(args), command) == Finish(command + args)
  {
    if args == [] {
      assert command + args == command;
    } else {
      var sent := DisarmAll(args);
      assert sent[1..] == DisarmAll(args[1..]);
      if Ends(args[0]) {
        var left := sent[0][..|sent[0]| - 1];
        assert left[..|left| - 1] + ";" == args[0];
      }
      CommandsDisarmed(args[1..], command + [args[0]]);
      assert command + args == (command + [args[0]]) + args[1..];
    }
  }

  /** The escape is exact for every argument vector: tmux makes one command of it, holding every
      element byte for byte. */
  lemma ArgvKeepsElements(args: seq<string>)
    requires args != []
    ensures Commands(DisarmAll(args), []) == [args]
  {
    CommandsDisarmed(args, []);
    assert [] + args == args;
  }

  function Size(args: seq<string>): nat {
    if args == [] then 0 else |args[0]| + Size(args[1..])
  }

  function TotalSize(commands: seq<seq<string>>): nat {
    if commands == [] then 0 else Size(commands[0]) + TotalSize(commands[1..])
  }

  lemma {:induction false} BytesAppend(a: seq<string>, b: seq<string>)
    ensures Size(a + b) == Size(a) + Size(b)
  {
    if a == [] {
      assert a + b == b;
    } else {
      assert (a + b)[1..] == a[1..] + b;
      BytesAppend(a[1..], b);
    }
  }

  lemma FinishBytes(command: seq<string>, rest: seq<seq<string>>)
    ensures TotalSize(Finish(command) + rest) == Size(command) + TotalSize(rest)
  {
    if command == [] {
      assert Finish(command) + rest == rest;
    } else {
      assert (Finish(command) + rest)[1..] == rest;
    }
  }

  // Each ';' the parser takes is a byte no command gets back.
  lemma {:induction false} CommandsLoseBytes(args: seq<string>, command: seq<string>)
    ensures TotalSize(Commands(args, command)) <= Size(command) + Size(args)
    ensures (exists i :: 0 <= i < |args| && Ends(args[i]))
            ==> TotalSize(Commands(args, command)) < Size(command) + Size(args)
    ensures (forall i :: 0 <= i < |args| ==> !Ends(args[i])) ==> Commands(args, command) == Finish(command + args)
    decreases |args|
  {
    if args == [] {
      FinishBytes(command, []);
      assert Finish(command) + [] == Finish(command);
      assert command + args == command;
    } else {
      var a, rest := args[0], args[1..];
      var left := if Ends(a) then a[..|a| - 1] else a;
      assert command + args == (command + [a]) + rest;
      assert forall i :: 0 < i < |args| ==> args[i] == rest[i - 1];
      if Ends(a) && !(left != "" && left[|left| - 1] == '\\') {
        var done := if left == "" then command else command + [left];
        BytesAppend(command, [left]);
        CommandsLoseBytes(rest, []);
        FinishBytes(done, Commands(rest, []));
      } else {
        var kept := if Ends(a) then left[..|left| - 1] + ";" else a;
        BytesAppend(command, [kept]);
        CommandsLoseBytes(rest, command + [kept]);
      }
    }
  }

  // Without the escape the vector survives exactly when no element ends in ';'.
  lemma ArgvUnescaped(args: seq<string>)
    requires args != []
    ensures Commands(args, []) == [args] <==> forall i :: 0 <= i < |args| ==> !Ends(args[i])
  {
    CommandsLoseBytes(args, []);
    assert [] + args == args;
    assert [args][1..] == [];
  }
}
