/** A stored name on its two ways back: through a listing, in session.go and window.go, and through a
    notification, in control_reader.go. */
module Names {
  import opened Bytes
  import opened CtlParse
  import opened Protocol
  import Dollar
  import Format
  import Rows
  import Vis

  // The name column of a row, as the row's reader decodes it and then the listing's loop.
  function ReadName(fault: bool, row: Rows.Row, column: string): string {
    var v := row.Lookup(column);
    Dollar.DecodeStored(fault, Vis.Decode(if v.Some? then v.value else ""))
  }

  // What tmux stores has no byte that could end a row or a column.
  ghost predicate Storable(stored: string) {
    forall i :: 0 <= i < |stored| ==> stored[i] >= ' '
  }

  lemma {:induction false} FindColumn(row: Rows.Row, name: string, i: nat, at: nat, value: string)
    requires i <= at < |row.spec| && |row.vals| == |row.spec|
    requires row.spec[at] == name
    requires forall j :: i <= j < |row.spec| && row.spec[j] == name ==> row.vals[j] == value
    ensures row.Find(name, i) == Some(value)
    decreases at - i
  {
    if row.spec[i] != name {
      FindColumn(row, name, i + 1, at, value);
    }
  }

  // A storable value comes through its own columns whole, whatever a row loses at its end.
  lemma BackKeeps(vals: seq<string>, i: nat)
    requires i < |vals| && Storable(vals[i])
    ensures |Rows.Back(vals)| == |vals| && Rows.Back(vals)[i] == vals[i]
  {
  }

  lemma ColumnReceived(spec: Rows.Spec, objects: seq<Format.Values>, at: nat, i: nat)
    requires at < |objects| && i < |spec| && Storable(Format.Lookup(objects[at], spec[i]))
    ensures var vals := Rows.AllBack(Format.Table(spec, objects))[at];
            |vals| == |spec| && vals[i] == Format.Lookup(objects[at], spec[i])
  {
    var cells := Format.Cells(spec, objects[at]);
    Format.CellsSanitised(spec, objects[at]);
    BackKeeps(cells, i);
    BackKeeps(Rows.Back(cells), i);
  }

  /** Every listing that has a name's column reads it, through every row whose own name is storable,
      whatever else is in that row and in the others. */
  lemma ListedName(fault: bool, spec: Rows.Spec, objects: seq<Format.Values>, at: nat, column: string)
    requires forall i :: 0 <= i < |spec| ==> Format.IsBareVar(spec[i])
    requires column in spec && at < |objects| && Storable(Format.Lookup(objects[at], column))
    ensures var listed := Rows.ParseLines(spec, Rows.Lines(Format.Listing(Format.Template(spec), objects)));
            && listed.Rows? && |listed.rows| == |objects|
            && ReadName(fault, listed.rows[at], column) ==
               Dollar.DecodeStored(fault, Vis.Decode(Format.Lookup(objects[at], column)))
  {
    Format.QueryReceived(spec, objects);
    var k :| 0 <= k < |spec| && spec[k] == column;
    var stored := Format.Lookup(objects[at], column);
    var vals := Rows.AllBack(Format.Table(spec, objects))[at];
    ColumnReceived(spec, objects, at, k);
    forall j | 0 <= j < |spec| && spec[j] == column ensures vals[j] == stored {
      ColumnReceived(spec, objects, at, j);
    }
    FindColumn(Rows.Row(spec, vals), column, 0, k, stored);
  }

  // A backslash that undoing takes off.
  predicate Undoable(v: string, i: nat) {
    i + 2 < |v| && v[i] == '\\' && v[i + 1] == '$'
  }

  ghost predicate HoldsUndoable(v: string) {
    exists i: nat :: Undoable(v, i)
  }

  lemma {:induction false} UndoneShorter(v: string)
    ensures |Dollar.Undone(v)| <= |v|
    ensures HoldsUndoable(v) ==> |Dollar.Undone(v)| < |v|
  {
    if v != "" {
      UndoneShorter(v[1..]);
      if HoldsUndoable(v) {
        var i: nat :| Undoable(v, i);
        assert i > 0 ==> Undoable(v[1..], i - 1);
      }
    }
  }

  lemma UndoneSame(v: string)
    ensures Dollar.Undone(v) == v <==> !HoldsUndoable(v)
  {
    UndoneShorter(v);
    if !HoldsUndoable(v) {
      forall i | 0 <= i < |v| - 2 ensures !(v[i] == '\\' && v[i + 1] == '$') {
        assert !Undoable(v, i);
      }
      UndonePlainButLast(v);
    }
  }

  lemma {:induction false} UndonePlainButLast(v: string)
    requires forall i :: 0 <= i < |v| - 2 ==> !(v[i] == '\\' && v[i + 1] == '$')
    ensures Dollar.Undone(v) == v
  {
    if v != "" {
      UndonePlainButLast(v[1..]);
    }
  }

  // What the client says on "%session-changed id name".
  function Notified(id: string, stored: string): Effect {
    HandleSession(INITIAL, Line(Notification, "", 0, 0, 0, false, "session-changed", id + " " + stored, false)).1
  }

  lemma NotifiedName(id: string, stored: string)
    requires IsID(id, '$')
    ensures Notified(id, stored) == Emit(SessionChanged(id, Vis.Decode(stored)))
  {
    CutByteAt(id, ' ', stored);
    assert id + " " + stored == id + [' '] + stored;
  }

  /** control_reader.go holds that a caller who lists and then follows the notifications sees one
      name. So it does, for every stored name, unless tmux has the fault and the decoded name holds a
      backslash it would have put there: only the listing takes that off. */
  lemma ListingAndNotificationAgree(fault: bool, spec: Rows.Spec, objects: seq<Format.Values>, at: nat,
                                    column: string, id: string)
    requires forall i :: 0 <= i < |spec| ==> Format.IsBareVar(spec[i])
    requires column in spec && at < |objects| && Storable(Format.Lookup(objects[at], column)) && IsID(id, '$')
    ensures var stored := Format.Lookup(objects[at], column);
            var listed := Rows.ParseLines(spec, Rows.Lines(Format.Listing(Format.Template(spec), objects)));
            && listed.Rows? && |listed.rows| == |objects|
            && (Notified(id, stored) == Emit(SessionChanged(id, ReadName(fault, listed.rows[at], column)))
                <==> !fault || !HoldsUndoable(Vis.Decode(stored)))
  {
    var stored := Format.Lookup(objects[at], column);
    ListedName(fault, spec, objects, at, column);
    NotifiedName(id, stored);
    UndoneSame(Vis.Decode(stored));
  }
}
