/** session.go and window.go, end to end: a window name from NewSessionOptions.WindowName to the
    tmux that stores it and back through a listing. */
module WindowName {
  import opened Bytes
  import opened CtlParse
  import opened Protocol
  import Argv
  import Dollar
  import Format
  import Names
  import Rows
  import Vis

  const COLUMN := "window_name"

  // What args puts after -n.
  function Element(name: string): string {
    Format.EscapeFormat(Vis.WriteName(name))
  }

  // What new-session -n keeps of the element its argv parser hands it; `fault` is tmux 3.4's.
  function StoredName(fault: bool, element: string): Option<string> {
    var name := Format.ExpandName(element);
    if name.Some? then Some(Dollar.Stored(fault, name.value)) else None
  }

  // The fault passes through the name's own escaping to the name.
  lemma {:induction false} DecodeInserted(name: string)
    ensures Vis.Decode(Dollar.Inserted(Vis.WriteName(name))) == Dollar.Inserted(name)
  {
    if name != "" {
      var rest := Vis.WriteName(name[1..]);
      DecodeInserted(name[1..]);
      WriteNameEmpty(name[1..]);
      DecodeFirst(name[0], rest);
    }
  }

  lemma DecodeFirst(c: char, rest: string)
    ensures Vis.Decode(Dollar.Inserted(Vis.Written(c) + rest)) ==
            (if c == '$' && rest != "" then "\\$" else [c]) + Vis.Decode(Dollar.Inserted(rest))
  {
    var tail := Dollar.Inserted(rest);
    InsertedFirst(c, rest);
    if c == '$' && rest != "" {
      DecodeTwice(tail);
    } else {
      Vis.DecodeByte(c, Vis.FormOf(c), tail);
    }
  }

  lemma DecodeTwice(tail: string)
    ensures Vis.Decode("\\\\$" + tail) == "\\$" + Vis.Decode(tail)
  {
    assert "\\\\$" + tail == Vis.EncodeByte('\\', Vis.Escaped('\\')) + ("$" + tail);
    Vis.DecodeByte('\\', Vis.Escaped('\\'), "$" + tail);
    assert "$" + tail == Vis.EncodeByte('$', Vis.Raw) + tail;
    Vis.DecodeByte('$', Vis.Raw, tail);
  }

  lemma WriteNameEmpty(name: string)
    ensures Vis.WriteName(name) == "" <==> name == ""
  {
  }

  lemma WrittenPlain(c: char)
    ensures Vis.EncodeByte(c, Vis.FormOf(c)) == Vis.Written(c)
    ensures c != '$' ==> '$' !in Vis.Written(c)
  {
  }

  lemma InsertedDollar(rest: string)
    ensures Dollar.Inserted("\\$" + rest) == (if rest != "" then "\\\\$" else "\\$") + Dollar.Inserted(rest)
  {
    assert "\\$" + rest == "\\" + ("$" + rest);
    assert ("$" + rest)[1..] == rest && ("\\" + ("$" + rest))[1..] == "$" + rest;
  }

  // What the fault makes of one written byte and what follows it.
  lemma InsertedFirst(c: char, rest: string)
    ensures Dollar.Inserted(Vis.Written(c) + rest) ==
            (if c == '$' && rest != "" then "\\\\$" else Vis.EncodeByte(c, Vis.FormOf(c))) + Dollar.Inserted(rest)
  {
    WrittenPlain(c);
    if c == '$' {
      InsertedDollar(rest);
    } else {
      InsertedPast(Vis.Written(c), rest);
    }
  }

  lemma {:induction false} InsertedPast(plain: string, rest: string)
    requires '$' !in plain
    ensures Dollar.Inserted(plain + rest) == plain + Dollar.Inserted(rest)
  {
    if plain == "" {
      assert plain + rest == rest;
    } else {
      InsertedPast(plain[1..], rest);
      assert (plain + rest)[0] == plain[0] && (plain + rest)[1..] == plain[1..] + rest;
      assert plain == [plain[0]] + plain[1..];
    }
  }

  lemma StoredIsStorable(fault: bool, name: string)
    ensures Names.Storable(Dollar.Stored(fault, Vis.WriteName(name)))
  {
    var w := Vis.WriteName(name);
    Vis.WriteNameClean(name);
    var stored := Dollar.Stored(fault, w);
    forall i | 0 <= i < |stored| ensures stored[i] >= ' ' {
      if stored[i] != '\\' {
        Dollar.InsertedBytes(w, stored[i]);
      }
    }
  }

  /** For every byte string given as a window name, with the fault of tmux 3.4 or without, whatever
      stands around it on the command line and whatever is listed beside it: tmux makes one command
      of the argument vector, the element after -n reaches it whole and expands to one name, and
      every listing that includes the window and has its column reads back the name that was given. */
  lemma WindowNameRoundTrip(fault: bool, name: string, before: seq<string>, after: seq<string>, spec: Rows.Spec,
                            objects: seq<Format.Values>, window: nat)
    requires forall i :: 0 <= i < |spec| ==> Format.IsBareVar(spec[i])
    requires COLUMN in spec
    requires window < |objects| && COLUMN in objects[window]
    requires Some(objects[window][COLUMN]) == StoredName(fault, Element(name))
    ensures var args := before + ["-n", Element(name)] + after;
            Argv.Commands(Argv.DisarmAll(args), []) == [args]
    ensures var listed := Rows.ParseLines(spec, Rows.Lines(Format.Listing(Format.Template(spec), objects)));
            && listed.Rows? && |listed.rows| == |objects|
            && Names.ReadName(fault, listed.rows[window], COLUMN) == name
  {
    Argv.ArgvKeepsElements(before + ["-n", Element(name)] + after);
    Format.ExpandEscapeFormat(Vis.WriteName(name));
    StoredIsStorable(fault, name);
    Names.ListedName(fault, spec, objects, window, COLUMN);
    StoredNameRead(fault, name);
  }

  lemma StoredNameRead(fault: bool, name: string)
    ensures Dollar.DecodeStored(fault, Vis.Decode(Dollar.Stored(fault, Vis.WriteName(name)))) == name
  {
    Vis.DecodeWriteName(name);
    DecodeInserted(name);
    Dollar.UndoInserted(name);
  }

  // A '$' that is not the last byte: what tmux 3.4 puts a backslash before.
  predicate DollarWithin(v: string, i: nat) {
    i + 1 < |v| && v[i] == '$'
  }

  ghost predicate HoldsDollarWithin(v: string) {
    exists i: nat :: DollarWithin(v, i)
  }

  // Of such a window a notification tells the name that was given exactly when tmux has not the
  // fault, or nothing follows a '$' in the name.
  lemma NotifiedAsGiven(fault: bool, name: string)
    ensures Vis.Decode(Dollar.Stored(fault, Vis.WriteName(name))) == name <==> !fault || !HoldsDollarWithin(name)
  {
    Vis.DecodeWriteName(name);
    DecodeInserted(name);
    InsertedLonger(name);
  }

  lemma {:induction false} InsertedLonger(v: string)
    ensures |Dollar.Inserted(v)| >= |v|
    ensures Dollar.Inserted(v) == v <==> !HoldsDollarWithin(v)
    ensures HoldsDollarWithin(v) ==> |Dollar.Inserted(v)| > |v|
  {
    if v != "" {
      InsertedLonger(v[1..]);
      assert HoldsDollarWithin(v) <==> DollarWithin(v, 0) || HoldsDollarWithin(v[1..]) by {
        if i: nat :| DollarWithin(v[1..], i) {
          assert DollarWithin(v, i + 1);
        }
        if i: nat :| DollarWithin(v, i) {
          assert i == 0 || DollarWithin(v[1..], i - 1);
        }
      }
    }
  }

  // "$a", set under the fault: the listing says what was given, and the notification what was stored.
  lemma ADollarIsTwoNames(id: string)
    requires IsID(id, '$')
    ensures var stored := Dollar.Stored(true, Vis.WriteName("$a"));
            && Dollar.DecodeStored(true, Vis.Decode(stored)) == "$a"
            && Names.Notified(id, stored) == Emit(SessionChanged(id, "\\$a"))
  {
    StoredNameRead(true, "$a");
    DecodeInserted("$a");
    assert Dollar.Inserted("$a") == "\\$a" by {
      assert "$a"[1..] == "a" && Dollar.Inserted("a") == "a";
    }
    Names.NotifiedName(id, Dollar.Stored(true, Vis.WriteName("$a")));
  }
}
