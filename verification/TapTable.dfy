/** The taps as the client keeps them: a map from pane to tap, and taps that change in place. Proved
    against Taps, whose laws then hold of it. */
module TapTable {
  import opened Bytes
  import opened CtlParse
  import T = Taps

  /** A tap and its channel, which is a bounded buffer. A close or a send after a close would panic;
      here they are counted. */
  class PaneTap {
    const size: nat
    ghost const id: nat
    ghost const pane: string
    var buffer: seq<string>
    var drops: nat
    var total: nat
    var closed: bool
    ghost var reported: nat
    ghost var closes: nat
    ghost var lateSends: nat
    ghost var taken: seq<string>     // what the consumer has received
    ghost var slots: seq<T.Slot>     // what became of each chunk

    // A tap asked for once the connection has ended comes closed.
    constructor (size: nat, ended: bool, ghost id: nat, ghost pane: string)
      ensures this.id == id
      ensures Value() == T.Tap(pane, size, [], 0, 0, 0, ended, if ended then 1 else 0, 0, [], [])
    {
      this.size, this.id, this.pane := size, id, pane;
      buffer, drops, total, closed := [], 0, 0, ended;
      reported, closes, lateSends, taken, slots := 0, 0, 0, [], [];
      new;
      if ended {
        CloseChannel();
      }
    }

    ghost function Value(): T.Tap
      reads this
    {
      T.Tap(pane, size, buffer, drops, total, reported, closed, closes, lateSends, taken, slots)
    }

    method CloseChannel()
      modifies this`closes
      ensures closes == old(closes) + 1
    {
      closes := closes + 1;
    }

    method TrySend(data: string) returns (sent: bool)
      modifies this`buffer, this`lateSends
      ensures sent == (|old(buffer)| < size)
      ensures buffer == if sent then old(buffer) + [data] else old(buffer)
      ensures lateSends == old(lateSends) + if closes > 0 then 1 else 0
    {
      lateSends := lateSends + if closes > 0 then 1 else 0;
      sent := |buffer| < size;
      if sent {
        buffer := buffer + [data];
      }
    }

    // One chunk sent or lost, and the losses a send has now made room to report.
    method Send(data: string) returns (recovered: nat)
      modifies this
      ensures (Value(), recovered) == T.Send(old(Value()), data)
      ensures if |old(buffer)| < size
              then buffer == old(buffer) + [data] && recovered == old(drops) && drops == 0 && total == old(total)
              else buffer == old(buffer) && recovered == 0 && drops == old(drops) + 1 && total == old(total) + 1
    {
      recovered := 0;
      var sent := TrySend(data);
      slots := slots + [if sent then T.Kept(data) else T.Lost(data)];
      if sent {
        recovered := drops;
        reported := reported + drops;
        drops := 0;
      } else {
        drops := drops + 1;
        total := total + 1;
      }
    }

    // The losses not yet reported, which are about to be.
    method GiveUp() returns (n: nat)
      modifies this`drops, this`reported
      ensures n == old(drops) && Value() == old(Value()).(drops := 0, reported := old(reported) + n)
    {
      n := drops;
      reported := reported + n;
      drops := 0;
    }

    method Close()
      modifies this
      ensures Value() == if old(closed) then old(Value()) else T.CloseTap(old(Value()))
    {
      if !closed {
        closed := true;
        CloseChannel();
      }
    }
  }

  // What a walk of the map has flagged when the panes in `left` are still to come.
  ghost predicate Flagged(was: T.Table, ids: seq<nat>, left: set<string>) {
    && T.Distinct(ids)
    && (forall i :: 0 <= i < |ids| ==>
          && ids[i] < |was.taps| && Goes(was, was.taps[ids[i]].pane, ids[i])
          && was.taps[ids[i]].pane !in left)
    && (forall pane :: pane in was.at.Keys - left ==> !Goes(was, pane, was.at[pane]) || was.at[pane] in ids)
  }

  // The map takes the pane to this tap, which is open.
  ghost predicate Goes(was: T.Table, pane: string, id: nat) {
    pane in was.at && was.at[pane] == id && id < |was.taps| && !was.taps[id].closed
  }

  lemma FlagNext(was: T.Table, ids: seq<nat>, left: set<string>, pane: string)
    requires T.InTable(was) && Flagged(was, ids, left) && pane in left && pane in was.at
    ensures was.at[pane] !in ids
    ensures Flagged(was, if was.taps[was.at[pane]].closed then ids else ids + [was.at[pane]], left - {pane})
  {
    var id := was.at[pane];
    var more := if was.taps[id].closed then ids else ids + [id];
    assert was.taps[id].pane == pane;
    assert id !in ids;
    forall p | p in was.at.Keys - (left - {pane}) ensures !Goes(was, p, was.at[p]) || was.at[p] in more {
      assert p != pane ==> p in was.at.Keys - left;
    }
  }

  lemma ListsFlagged(was: T.Table, ids: seq<nat>)
    requires T.InTable(was) && Flagged(was, ids, {})
    ensures T.Lists(was, ids)
  {
    forall id: nat ensures id in ids <==> T.Held(was, id) {
      if T.Held(was, id) {
        var pane :| pane in was.at && was.at[pane] == id && !was.taps[id].closed;
        assert pane in was.at.Keys - {} && Goes(was, pane, id);
      }
    }
  }

  class TapTable {
    const size: nat
    var taps: map<string, PaneTap>
    ghost var handed: seq<PaneTap>   // every tap there has been
    ghost var table: T.Table
    ghost var ops: seq<T.Op>         // and what has been done with them

    ghost function Owned(): set<PaneTap>
      reads this
    {
      set p | p in handed
    }

    ghost predicate Ties(p: PaneTap, i: nat)
      requires i < |table.taps|
      reads this, p
    {
      p.id == i && p.Value() == table.taps[i]
    }

    ghost predicate Valid()
      reads this, Owned()
    {
      Tied() && T.Run(T.Start(size), ops, table)
    }

    ghost predicate Tied()
      reads this, Owned()
    {
      && T.InTable(table) && table.size == size
      && |handed| == |table.taps|
      && (forall i :: 0 <= i < |handed| ==> Ties(handed[i], i))
      && taps.Keys == table.at.Keys
      && (forall pane :: pane in taps ==> taps[pane] == handed[table.at[pane]])
    }

    constructor (size: nat)
      ensures Valid() && fresh(Owned()) && ops == [] && this.size == size
    {
      this.size := size;
      taps, handed, ops, table := map[], [], [], T.Start(size);
    }

    // Tied, but for this tap, which has changed.
    ghost predicate TiedBut(t: PaneTap)
      reads this, t, Owned()
    {
      && T.InTable(table) && table.size == size
      && |handed| == |table.taps|
      && t.id < |handed| && handed[t.id] == t && t.pane == table.taps[t.id].pane
      && (forall i :: 0 <= i < |handed| && i != t.id ==> Ties(handed[i], i))
      && taps.Keys == table.at.Keys
      && (forall pane :: pane in taps ==> taps[pane] == handed[table.at[pane]])
    }

    // The table follows a tap that has changed.
    ghost method Follow(t: PaneTap)
      requires TiedBut(t)
      modifies this`table
      ensures Tied() && table == old(table).(taps := old(table).taps[t.id := t.Value()])
    {
      table := table.(taps := table.taps[t.id := t.Value()]);
    }

    // And the teardown's progress.
    ghost method Enter(phase: T.Phase)
      requires Tied() && T.InTable(table.(phase := phase))
      modifies this`table
      ensures Tied() && table == old(table).(phase := phase)
    {
      table := table.(phase := phase);
    }

    // One more operation, of which the taps already tell.
    ghost method Record(was: T.Table, op: T.Op)
      requires Tied() && T.Run(T.Start(size), ops, was)
      requires T.InTable(was) && T.Enabled(was, op) && table == T.Step(was, op)
      modifies this`ops
      ensures Valid() && ops == old(ops) + [op]
    {
      T.RunSnoc(T.Start(size), ops, was, op);
      ops := ops + [op];
    }

    // What a pane identifier is checked for, and the tap it gets. `closed` is the client's own flag.
    method Output(pane: string, closed: bool) returns (tap: Option<PaneTap>)
      requires Valid() && closed == table.closed
      modifies this
      ensures Valid() && fresh(Owned() - old(Owned()))
      ensures table == T.Output(old(table), pane).0 && ops == old(ops) + [T.OutputOp(pane)]
      ensures var id := T.Output(old(table), pane).1;
              if id.None? then tap.None? else tap.Some? && id.value < |handed| && tap.value == handed[id.value]
      ensures tap.None? <==> !IsID(pane, '%')
      ensures tap.Some? ==> pane in taps && taps[pane] == tap.value
      ensures tap.Some? && pane in old(taps) ==> taps == old(taps)
      ensures tap.Some? && pane !in old(taps) ==>
                fresh(tap.value) && tap.value.closed == closed && tap.value.buffer == []
    {
      ghost var was := table;
      tap := None;
      var ok := HasSigilAndDigits(pane, '%');
      if ok {
        if pane !in taps {
          Register(pane, closed);
        }
        tap := Some(taps[pane]);
      }
      Record(was, T.OutputOp(pane));
    }

    method Register(pane: string, closed: bool)
      requires Tied() && closed == table.closed && IsID(pane, '%') && pane !in taps
      modifies this`taps, this`handed, this`table
      ensures Tied() && fresh(Owned() - old(Owned())) && pane in taps
      ensures table == T.Output(old(table), pane).0
      ensures fresh(taps[pane]) && taps[pane].closed == closed && taps[pane].buffer == []
    {
      var t := new PaneTap(size, closed, |handed|, pane);
      HandOut(t);
      Enlist(pane, t);
    }

    method Enlist(pane: string, t: PaneTap)
      requires Tied() && pane !in taps && t.id < |handed| && handed[t.id] == t && t.pane == pane
      modifies this`taps, this`table
      ensures Tied() && taps == old(taps)[pane := t]
      ensures table == old(table).(at := old(table).at[pane := t.id])
    {
      assert Ties(t, t.id);
      taps := taps[pane := t];
      table := table.(at := table.at[pane := t.id]);
    }

    ghost method HandOut(t: PaneTap)
      requires Tied() && t.id == |handed| && (forall p :: p in handed ==> p != t)
      modifies this`handed, this`table
      ensures Tied() && handed == old(handed) + [t]
      ensures table == old(table).(taps := old(table).taps + [t.Value()])
    {
      handed := handed + [t];
      table := table.(taps := table.taps + [t.Value()]);
    }

    method Untap(pane: string)
      requires Valid()
      modifies this, Owned()
      ensures Valid() && handed == old(handed)
      ensures table == T.Untap(old(table), pane) && ops == old(ops) + [T.UntapOp(pane)]
      ensures IsID(pane, '%') ==> pane !in taps
    {
      ghost var was := table;
      var ok := HasSigilAndDigits(pane, '%');
      if ok && pane in taps {
        Remove(pane);
      }
      Record(was, T.UntapOp(pane));
    }

    method Remove(pane: string)
      requires Tied() && IsID(pane, '%') && pane in taps
      modifies this`taps, this`table, Owned()
      ensures Tied() && table == T.Untap(old(table), pane)
    {
      var t := taps[pane];
      assert Ties(t, table.at[pane]);
      Forget(pane);
      t.Close();
      Follow(t);
    }

    method Forget(pane: string)
      requires Tied() && pane in taps
      modifies this`taps, this`table
      ensures Tied() && table == old(table).(at := old(table).at - {pane})
    {
      taps := taps - {pane};
      table := table.(at := table.at - {pane});
    }

    // deliverOutput's half of the taps: the loss it can now report, if any.
    method Deliver(pane: string, data: string) returns (recovered: nat)
      requires Valid() && table.phase == T.Reading
      modifies this, Owned()
      ensures Valid() && handed == old(handed)
      ensures (table, recovered) == T.Deliver(old(table), pane, data) && ops == old(ops) + [T.DeliverOp(pane, data)]
      ensures pane in taps && !old(taps[pane].closed) ==> Sent(taps[pane], data, recovered)
    {
      ghost var was := table;
      recovered := 0;
      if pane in taps {
        assert Ties(taps[pane], table.at[pane]);
        if !taps[pane].closed {
          recovered := SendTo(pane, data);
        }
      }
      Record(was, T.DeliverOp(pane, data));
    }

    // What became of a chunk for a tap: last in its channel if that had room, and otherwise counted.
    twostate predicate Sent(t: PaneTap, data: string, recovered: nat)
      reads t
    {
      if |old(t.buffer)| < t.size then
        && t.buffer == old(t.buffer) + [data] && recovered == old(t.drops)
        && t.drops == 0 && t.total == old(t.total)
      else
        && t.buffer == old(t.buffer) && recovered == 0
        && t.drops == old(t.drops) + 1 && t.total == old(t.total) + 1
    }

    method SendTo(pane: string, data: string) returns (recovered: nat)
      requires Tied() && pane in taps && !taps[pane].closed
      modifies this`table, Owned()
      ensures Tied() && (table, recovered) == T.Deliver(old(table), pane, data)
      ensures Sent(taps[pane], data, recovered)
    {
      var t := taps[pane];
      assert Ties(t, table.at[pane]);
      recovered := t.Send(data);
      Follow(t);
    }

    // A tap's consumer receives one chunk, if there is one.
    method Receive(t: PaneTap) returns (data: Option<string>)
      requires Valid() && t in handed
      modifies t, this`table, this`ops
      ensures Valid() && table == T.TakeFrom(old(table), t.id) && ops == old(ops) + [T.TakeOp(t.id)]
      ensures data == if old(t.buffer) == [] then None else Some(old(t.buffer)[0])
      ensures data.Some? ==> t.buffer == old(t.buffer)[1..] && t.taken == old(t.taken) + [data.value]
    {
      ghost var was := table;
      data := ReceiveFrom(t);
      Record(was, T.TakeOp(t.id));
    }

    method ReceiveFrom(t: PaneTap) returns (data: Option<string>)
      requires Tied() && t in handed
      modifies t, this`table
      ensures Tied() && t.id < |old(table).taps| && table == T.TakeFrom(old(table), t.id)
      ensures data == if old(t.buffer) == [] then None else Some(old(t.buffer)[0])
      ensures data.Some? ==> t.buffer == old(t.buffer)[1..] && t.taken == old(t.taken) + [data.value]
    {
      assert Ties(t, t.id);
      data := None;
      if t.buffer != [] {
        data := Some(t.buffer[0]);
        t.taken, t.buffer := t.taken + [t.buffer[0]], t.buffer[1..];
        Follow(t);
      }
    }

    // Close, as far as the taps can tell: one asked for from now on comes closed.
    ghost method Ended()
      requires Valid()
      modifies this`table, this`ops
      ensures Valid()
      ensures table == old(table).(closed := true) && ops == old(ops) + [T.CloseOp]
    {
      ghost var was := table;
      table := table.(closed := true);
      Record(was, T.CloseOp);
    }

    ghost predicate Marked(was: T.Table, ids: seq<nat>)
      reads this, Owned()
    {
      && |handed| == |was.taps|
      && forall i :: 0 <= i < |handed| ==>
           handed[i].id == i && handed[i].Value() == if i in ids then was.taps[i].(closed := true) else was.taps[i]
    }

    ghost predicate Maps(was: T.Table)
      reads this
    {
      && T.InTable(was) && |handed| == |was.taps|
      && taps.Keys == was.at.Keys
      && (forall pane :: pane in taps ==> taps[pane] == handed[was.at[pane]])
    }

    ghost predicate Names(closing: seq<(string, PaneTap)>, ids: seq<nat>)
      reads this
    {
      && |closing| == |ids|
      && forall i :: 0 <= i < |ids| ==>
           ids[i] < |handed| && closing[i].1 == handed[ids[i]] && closing[i].0 == closing[i].1.pane
    }

    // How far a walk of the map has come.
    ghost predicate Walked(was: T.Table, ids: seq<nat>, left: set<string>)
      reads this, Owned()
    {
      Maps(was) && Marked(was, ids) && Flagged(was, ids, left) && left <= taps.Keys
    }

    lemma WalkStarts()
      requires Tied()
      ensures Walked(table, [], taps.Keys)
    {
      assert forall i :: 0 <= i < |handed| ==> Ties(handed[i], i);
    }

    // The next pane of the walk, which may go through the map in whatever order it likes.
    method MarkNext(pane: string, ghost was: T.Table, before: seq<(string, PaneTap)>, ghost ids: seq<nat>,
                    ghost left: set<string>)
        returns (closing: seq<(string, PaneTap)>, ghost more: seq<nat>)
      requires Walked(was, ids, left) && Names(before, ids) && pane in left
      modifies Owned()
      ensures Walked(was, more, left - {pane}) && Names(closing, more)
    {
      closing, more := before, ids;
      var t := taps[pane];
      ghost var id := was.at[pane];
      FlagNext(was, ids, left, pane);
      assert handed[id] == t && t.Value() == was.taps[id] && t.pane == pane;
      NamesNext(before, ids, pane, t, id);
      if !t.closed {
        Mark(t, was, ids, id);
        closing, more := before + [(pane, t)], ids + [id];
      }
    }

    lemma NamesNext(before: seq<(string, PaneTap)>, ids: seq<nat>, pane: string, t: PaneTap, id: nat)
      requires Names(before, ids) && id < |handed| && t == handed[id] && pane == t.pane
      ensures Names(before + [(pane, t)], ids + [id])
    {
    }

    method Mark(t: PaneTap, ghost was: T.Table, ghost ids: seq<nat>, ghost id: nat)
      requires Marked(was, ids) && id < |handed| && t == handed[id] && id !in ids
      modifies t`closed
      ensures Marked(was, ids + [id])
    {
      t.closed := true;
    }

    method MarkEach() returns (closing: seq<(string, PaneTap)>, ghost ids: seq<nat>)
      requires Tied()
      modifies Owned()
      ensures Walked(table, ids, {}) && Names(closing, ids)
    {
      closing, ids := [], [];
      WalkStarts();
      var panes := taps.Keys;
      ghost var was := table;
      while panes != {}
        invariant Walked(was, ids, panes) && Names(closing, ids)
        decreases panes
      {
        var pane :| pane in panes;
        closing, ids := MarkNext(pane, was, closing, ids, panes);
        panes := panes - {pane};
      }
    }

    // finishReader, under its lock.
    method MarkAll() returns (closing: seq<(string, PaneTap)>, ghost ids: seq<nat>)
      requires Valid() && table.phase == T.Reading
      modifies this`table, this`ops, Owned()
      ensures Valid() && handed == old(handed) && Names(closing, ids)
      ensures T.Lists(old(table), ids) && table == T.MarkAll(old(table), ids) && ops == old(ops) + [T.MarkOp(ids)]
    {
      closing, ids := MarkEach();
      MarkTable(ids);
    }

    ghost method MarkTable(ids: seq<nat>)
      requires Walked(table, ids, {}) && table.size == size
      requires table.phase == T.Reading && T.Run(T.Start(size), ops, table)
      modifies this`table, this`ops
      ensures Valid() && T.Lists(old(table), ids)
      ensures table == T.MarkAll(old(table), ids) && ops == old(ops) + [T.MarkOp(ids)]
    {
      ghost var was := table;
      ListsFlagged(table, ids);
      MarkTied(ids);
      table := T.MarkAll(table, ids);
      Record(was, T.MarkOp(ids));
    }

    lemma MarkTied(ids: seq<nat>)
      requires Walked(table, ids, {})
      ensures var t := T.MarkAll(table, ids);
              && T.InTable(t) && t.size == table.size && |t.taps| == |handed| && t.at == table.at
              && forall i :: 0 <= i < |handed| ==> handed[i].id == i && handed[i].Value() == t.taps[i]
    {
    }

    // One flagged tap's losses, which the teardown is about to report.
    method SwapDrops(t: PaneTap) returns (n: nat)
      requires Valid() && table.phase.Reporting? && table.phase.done < |table.phase.closing|
      requires t == handed[table.phase.closing[table.phase.done]]
      modifies this`table, this`ops, Owned()
      ensures Valid() && handed == old(handed) && table == T.ReportNext(old(table)) && ops == old(ops) + [T.ReportOp]
      ensures n == old(table).taps[t.id].drops
    {
      ghost var was := table;
      n := ReportTap(t);
      Record(was, T.ReportOp);
    }

    method ReportTap(t: PaneTap) returns (n: nat)
      requires Tied() && table.phase.Reporting? && table.phase.done < |table.phase.closing|
      requires t == handed[table.phase.closing[table.phase.done]]
      modifies this`table, t
      ensures Tied() && table == T.ReportNext(old(table))
      ensures t.id < |old(table).taps| && n == old(table).taps[t.id].drops
    {
      assert Ties(t, table.phase.closing[table.phase.done]);
      n := t.GiveUp();
      Follow(t);
      Enter(T.Reporting(table.phase.closing, table.phase.done + 1));
    }

    method Shut(t: PaneTap)
      requires Valid() && table.phase.Shutting? && table.phase.done < |table.phase.closing|
      requires t == handed[table.phase.closing[table.phase.done]]
      modifies this`table, this`ops, Owned()
      ensures Valid() && handed == old(handed) && table == T.ShutNext(old(table)) && ops == old(ops) + [T.ShutOp]
    {
      ghost var was := table;
      ShutTap(t);
      Record(was, T.ShutOp);
    }

    method ShutTap(t: PaneTap)
      requires Tied() && table.phase.Shutting? && table.phase.done < |table.phase.closing|
      requires t == handed[table.phase.closing[table.phase.done]]
      modifies this`table, t
      ensures Tied() && table == T.ShutNext(old(table))
    {
      assert Ties(t, table.phase.closing[table.phase.done]);
      t.CloseChannel();
      Follow(t);
      Enter(T.Shutting(table.phase.closing, table.phase.done + 1));
    }

    // The teardown moves on once it is done with every tap it flagged.
    ghost method MoveOn()
      requires Valid() && (table.phase.Reporting? || table.phase.Shutting?)
      requires table.phase.done == |table.phase.closing|
      modifies this`table, this`ops
      ensures Valid()
      ensures var phase := old(table).phase;
              table == old(table).(phase := if phase.Reporting? then T.Shutting(phase.closing, 0) else T.Down)
    {
      ghost var was := table;
      if table.phase.Reporting? {
        Enter(T.Shutting(table.phase.closing, 0));
        Record(was, T.ReportOp);
      } else {
        Enter(T.Down);
        Record(was, T.ShutOp);
      }
    }

    method Dropped(pane: string) returns (n: nat)
      requires Valid()
      ensures n == if pane in table.at then table.taps[table.at[pane]].total else 0
    {
      if pane in taps {
        assert Ties(taps[pane], table.at[pane]);
        return taps[pane].total;
      }
      return 0;
    }
  }

  /** Of the taps themselves, whatever calls have been made: nothing was ever sent on a closed channel,
      none was closed twice, no chunk was lost uncounted or came out of turn, and after the teardown
      every tap ever handed out has been closed. */
  lemma TapLaws(t: TapTable, i: nat)
    requires t.Valid() && i < |t.handed|
    ensures var p := t.handed[i];
            && p.lateSends == 0 && p.closes <= 1
            && p.total == p.drops + p.reported
            && p.taken + p.buffer == T.KeptOf(p.slots) && p.total == |p.slots| - |T.KeptOf(p.slots)|
            && (t.table.phase == T.Down ==> p.closes == 1)
  {
    assert t.Ties(t.handed[i], i);
    T.TapsAreClosedOnce(t.size, t.ops, t.table, i);
    T.OnlyCountedLosses(t.size, t.ops, t.table, i);
  }
}
