/** client.go: the backslash tmux 3.4 stores in front of a '$', and taking it off again. */
module Dollar {
  import opened Bytes

  // tmux 3.4's fault: one backslash before each '$' that has a byte after it.
  function Inserted(v: string): string {
    if v == "" then ""
    else (if v[0] == '$' && |v| > 1 then "\\$" else [v[0]]) + Inserted(v[1..])
  }

  function Undone(v: string): string {
    if v == "" then ""
    else if v[0] == '\\' && |v| > 2 && v[1] == '$' then Undone(v[1..])
    else [v[0]] + Undone(v[1..])
  }

  lemma {:induction false} UndonePlain(v: string)
    requires forall i :: 0 <= i < |v| - 1 ==> !(v[i] == '\\' && v[i + 1] == '$')
    ensures Undone(v) == v
  {
    if v != "" {
      UndonePlain(v[1..]);
    }
  }

  method UndoDollarEscape(v: string) returns (b: string)
    ensures b == Undone(v)
  {
    var found := false;
    for i := 0 to |v|
      invariant found <==> exists j :: 0 <= j < i && j < |v| - 1 && v[j] == '\\' && v[j + 1] == '$'
    {
      found := found || (i + 1 < |v| && v[i] == '\\' && v[i + 1] == '$');
    }
    if !found {
      UndonePlain(v);
      return v;
    }
    b := "";
    for i := 0 to |v|
      invariant b + Undone(v[i..]) == Undone(v)
    {
      assert v[i..][1..] == v[i + 1..];
      if !(v[i] == '\\' && i + 2 < |v| && v[i + 1] == '$') {
        b := b + [v[i]];
      }
    }
  }

  /** Undoing is an exact left inverse of the fault on every byte string. */
  lemma {:induction false} UndoInserted(v: string)
    ensures Undone(Inserted(v)) == v
  {
    if v != "" {
      var rest := Inserted(v[1..]);
      UndoInserted(v[1..]);
      assert v == [v[0]] + v[1..];
      if v[0] == '$' && |v| > 1 {
        assert Inserted(v) == "\\" + ("$" + rest);
        assert ("\\" + ("$" + rest))[1..] == "$" + rest;
        assert ("$" + rest)[1..] == rest;
        assert |v[1..]| > 0 && |rest| > 0;
      } else {
        assert Inserted(v) == [v[0]] + rest;
        assert ([v[0]] + rest)[1..] == rest;
      }
    }
  }

  // A name keeps its shape: the fault adds only backslashes.
  lemma {:induction false} InsertedBytes(v: string, c: char)
    requires c != '\\'
    ensures c in Inserted(v) <==> c in v
    ensures |Inserted(v)| >= |v|
  {
    if v != "" {
      InsertedBytes(v[1..], c);
      assert v == [v[0]] + v[1..];
    }
  }

  // What tmux holds for a value it was given, and Client.decodeStored; `fault` is
  // Version.EscapesDollarOnWrite.
  function Stored(fault: bool, v: string): string {
    if fault then Inserted(v) else v
  }

  function DecodeStored(fault: bool, v: string): string {
    if fault then Undone(v) else v
  }

  // Every '$' that something follows has a backslash before it, as in whatever the fault has passed
  // over, and in every prefix of it.
  ghost predicate Passed(v: string) {
    forall i :: 0 <= i < |v| - 1 && v[i] == '$' ==> i > 0 && v[i - 1] == '\\'
  }

  lemma {:induction false} InsertedPassed(v: string)
    ensures Passed(Inserted(v)) && (v != "" ==> Inserted(v) != "")
  {
    if v != "" {
      InsertedPassed(v[1..]);
      var rest := Inserted(v[1..]);
      if v[0] == '$' && |v| > 1 {
        assert Inserted(v) == "\\$" + rest;
        assert |v[1..]| > 0;
        assert forall i :: 2 <= i < |Inserted(v)| ==> Inserted(v)[i] == rest[i - 2];
        assert rest[0] == '$' ==> |rest| == 1;
      } else {
        assert forall i :: 1 <= i < |Inserted(v)| ==> Inserted(v)[i] == rest[i - 1];
      }
    }
  }

  lemma {:induction false} InsertedPlain(v: string)
    requires '$' !in v
    ensures Inserted(v) == v
  {
    if v != "" {
      InsertedPlain(v[1..]);
    }
  }

  // On such strings undoing loses nothing, so no two of them come to the same.
  lemma {:induction false} InsertedUndone(v: string)
    requires Passed(v)
    ensures Inserted(Undone(v)) == v
    ensures v != "" ==> Undone(v) != ""
  {
    if v == "" {
    } else if v[0] == '\\' && |v| > 2 && v[1] == '$' {
      var w := v[2..];
      assert v[1..][1..] == w && v == "\\$" + w;
      assert forall i :: 0 <= i < |w| ==> w[i] == v[i + 2];
      InsertedUndone(w);
      assert Undone(v) == "$" + Undone(w);
      assert ("$" + Undone(w))[1..] == Undone(w);
    } else {
      var w := v[1..];
      assert forall i :: 0 <= i < |w| ==> w[i] == v[i + 1];
      InsertedUndone(w);
      assert Undone(v) == [v[0]] + Undone(w) && ([v[0]] + Undone(w))[1..] == Undone(w);
    }
  }

  // What tmux prints of a name it was given.
  ghost predicate IsStored(fault: bool, v: string) {
    exists given :: v == Stored(fault, given)
  }

  /** Two names tmux prints, or prefixes of them, are decoded to the same only if they are the same. */
  lemma DecodeStoredApart(fault: bool, a: string, b: string, a': string, b': string)
    requires IsStored(fault, a) && IsStored(fault, b) && a' <= a && b' <= b
    ensures DecodeStored(fault, a') == DecodeStored(fault, b') <==> a' == b'
  {
    if fault {
      var x :| a == Stored(fault, x);
      var y :| b == Stored(fault, y);
      InsertedPassed(x);
      InsertedPassed(y);
      assert forall i :: 0 <= i < |a'| ==> a'[i] == a[i];
      assert forall i :: 0 <= i < |b'| ==> b'[i] == b[i];
      InsertedUndone(a');
      InsertedUndone(b');
    }
  }

  lemma DecodeStoredInverts(fault: bool, v: string)
    ensures DecodeStored(fault, Stored(fault, v)) == v
  {
    UndoInserted(v);
  }
}
