/** control_reader.go: the reader itself. It frames the stream, hands each line to the client, carries
    out what the line asks for, and tears everything down at the end. */
module Connection {
  import opened Bytes
  import opened CtlParse
  import opened P = Protocol
  import E = Events
  import T = Taps
  import W = Wire
  import opened Channel
  import opened TapTable
  import opened Client

  // What carrying out one effect does to the taps, and to the events offered so far.
  ghost function Performed(effect: Effect, t: T.Table, asked: seq<Event>): (T.Table, seq<Event>)
    requires T.InTable(t)
  {
    if effect.Emit? then (t, asked + [effect.ev])
    else
      var (u, lost) := T.Deliver(t, effect.pane, effect.data);
      (u, asked + [PaneOutput(effect.pane, effect.data, effect.extended, effect.ageMS)]
            + if lost > 0 then [OutputDropped(effect.pane, lost)] else [])
  }

  lemma DeliverInTable(t: T.Table, pane: string, data: string)
    requires T.InTable(t)
    ensures var u := T.Deliver(t, pane, data).0; T.InTable(u) && u.phase == t.phase && u.closed == t.closed
  {
  }

  ghost function PerformedAll(effects: seq<Effect>, t: T.Table, asked: seq<Event>): (r: (T.Table, seq<Event>))
    requires T.InTable(t)
    ensures T.InTable(r.0) && r.0.phase == t.phase && r.0.closed == t.closed
  {
    if effects == [] then (t, asked)
    else
      var k := |effects| - 1;
      var (u, more) := PerformedAll(effects[..k], t, asked);
      if effects[k].Deliver? then DeliverInTable(u, effects[k].pane, effects[k].data);
        Performed(effects[k], u, more)
      else Performed(effects[k], u, more)
  }

  lemma {:induction false} PerformedMore(a: seq<Effect>, b: seq<Effect>, t: T.Table, asked: seq<Event>)
    requires T.InTable(t)
    ensures var (u, more) := PerformedAll(a, t, asked);
            PerformedAll(a + b, t, asked) == PerformedAll(b, u, more)
  {
    if b == [] {
      assert a + b == a;
    } else {
      var k := |b| - 1;
      assert (a + b)[..|a| + k] == a + b[..k];
      PerformedMore(a, b[..k], t, asked);
    }
  }

  // The report of what a tap lost, if it lost anything.
  function Owed(p: T.Tap): seq<Event> {
    if p.drops > 0 then [OutputDropped(p.pane, p.drops)] else []
  }

  function AllOwed(t: T.Table, ids: seq<nat>): seq<Event>
    requires forall i :: 0 <= i < |ids| ==> ids[i] < |t.taps|
  {
    if ids == [] then []
    else AllOwed(t, ids[..|ids| - 1]) + Owed(t.taps[ids[|ids| - 1]])
  }

  lemma {:induction false} AllOwedMarked(t: T.Table, ids: seq<nat>, all: seq<nat>)
    requires forall i :: 0 <= i < |ids| ==> ids[i] < |t.taps|
    ensures AllOwed(T.MarkAll(t, all), ids) == AllOwed(t, ids)
  {
    if ids != [] {
      AllOwedMarked(t, ids[..|ids| - 1], all);
    }
  }

  lemma AllOwedNext(t: T.Table, ids: seq<nat>, i: nat)
    requires i < |ids| && forall j :: 0 <= j < |ids| ==> ids[j] < |t.taps|
    ensures AllOwed(t, ids[..i + 1]) == AllOwed(t, ids[..i]) + Owed(t.taps[ids[i]])
  {
    assert ids[..i + 1][..i] == ids[..i];
  }

  // The events these effects are for, but for the losses of taps.
  function Published(effects: seq<Effect>): seq<Event> {
    if effects == [] then []
    else
      var effect := effects[|effects| - 1];
      Published(effects[..|effects| - 1])
      + [if effect.Emit? then effect.ev
         else PaneOutput(effect.pane, effect.data, effect.extended, effect.ageMS)]
  }

  function WithoutLosses(asked: seq<Event>): seq<Event> {
    if asked == [] then []
    else
      var ev := asked[|asked| - 1];
      WithoutLosses(asked[..|asked| - 1]) + if ev.OutputDropped? then [] else [ev]
  }

  // And what they do with the taps.
  function ToTaps(effects: seq<Effect>): seq<T.Op> {
    if effects == [] then []
    else
      var effect := effects[|effects| - 1];
      ToTaps(effects[..|effects| - 1]) + if effect.Emit? then [] else [T.DeliverOp(effect.pane, effect.data)]
  }

  lemma WithoutLossesSnoc(asked: seq<Event>, ev: Event)
    ensures WithoutLosses(asked + [ev]) == WithoutLosses(asked) + if ev.OutputDropped? then [] else [ev]
  {
    assert (asked + [ev])[..|asked|] == asked;
  }

  lemma PerformedPublishes(effect: Effect, t: T.Table, asked: seq<Event>)
    requires T.InTable(t) && (effect.Emit? ==> !effect.ev.OutputDropped?)
    ensures var (u, more) := Performed(effect, t, asked);
            WithoutLosses(more) ==
            WithoutLosses(asked) + [if effect.Emit? then effect.ev
                                    else PaneOutput(effect.pane, effect.data, effect.extended, effect.ageMS)]
  {
    if effect.Emit? {
      WithoutLossesSnoc(asked, effect.ev);
    } else {
      var first := PaneOutput(effect.pane, effect.data, effect.extended, effect.ageMS);
      var lost := T.Deliver(t, effect.pane, effect.data).1;
      WithoutLossesSnoc(asked, first);
      WithoutLossesSnoc(asked + [first], OutputDropped(effect.pane, lost));
      assert asked + [first] + [] == asked + [first];
    }
  }

  lemma PublishedJoined(a: seq<Event>, b: seq<Event>, c: seq<Event>)
    ensures a + b + c == a + (b + c)
  {
  }

  lemma {:induction false} PerformedAllPublishes(effects: seq<Effect>, t: T.Table, asked: seq<Event>)
    requires T.InTable(t) && AllOrdinary(effects)
    ensures WithoutLosses(PerformedAll(effects, t, asked).1) == WithoutLosses(asked) + Published(effects)
  {
    if effects == [] {
      assert WithoutLosses(asked) + [] == WithoutLosses(asked);
    } else {
      var k := |effects| - 1;
      var front := effects[..k];
      PerformedAllPublishes(front, t, asked);
      var (u, more) := PerformedAll(front, t, asked);
      PerformedPublishes(effects[k], u, more);
      PublishedJoined(WithoutLosses(asked), Published(front), Published(effects)[|Published(front)|..]);
    }
  }

  lemma {:induction false} PerformedAllDelivers(effects: seq<Effect>, t: T.Table, asked: seq<Event>)
    requires T.InTable(t) && t.phase == T.Reading
    ensures T.Run(t, ToTaps(effects), PerformedAll(effects, t, asked).0)
  {
    if effects != [] {
      var k := |effects| - 1;
      PerformedAllDelivers(effects[..k], t, asked);
      var u := PerformedAll(effects[..k], t, asked).0;
      if effects[k].Deliver? {
        T.RunSnoc(t, ToTaps(effects[..k]), u, T.DeliverOp(effects[k].pane, effects[k].data));
      } else {
        assert ToTaps(effects[..k]) + [] == ToTaps(effects[..k]);
      }
    }
  }

  /** Whatever is carried out: every event it calls for is offered, in order, every chunk with one of its own,
      and nothing but losses besides; and every chunk is delivered to the taps, in order. */
  lemma PerformedAllExactly(effects: seq<Effect>, t: T.Table, asked: seq<Event>)
    requires T.InTable(t) && t.phase == T.Reading && AllOrdinary(effects)
    ensures var (u, more) := PerformedAll(effects, t, asked);
            WithoutLosses(more) == WithoutLosses(asked) + Published(effects) && T.Run(t, ToTaps(effects), u)
  {
    PerformedAllPublishes(effects, t, asked);
    PerformedAllDelivers(effects, t, asked);
  }

  // The output among these items that is for the pane.
  function DataFor(items: seq<W.Item>, pane: string): seq<string> {
    if items == [] then []
    else (if W.IsChunk(items[0]) && items[0].pane == pane then [items[0].data] else []) + DataFor(items[1..], pane)
  }

  lemma {:induction false} ToTapsConcat(a: seq<Effect>, b: seq<Effect>)
    ensures ToTaps(a + b) == ToTaps(a) + ToTaps(b)
  {
    if b == [] {
      assert a + b == a;
    } else {
      var k := |b| - 1;
      assert (a + b)[..|a| + k] == a + b[..k];
      ToTapsConcat(a, b[..k]);
    }
  }

  lemma {:induction false} ChunksConcat(a: seq<T.Op>, b: seq<T.Op>, pane: string)
    ensures T.ChunksFor(a + b, pane) == T.ChunksFor(a, pane) + T.ChunksFor(b, pane)
  {
    if a == [] {
      assert a + b == b;
    } else {
      assert (a + b)[0] == a[0] && (a + b)[1..] == a[1..] + b;
      ChunksConcat(a[1..], b, pane);
    }
  }

  lemma ItemToTaps(item: W.Item, pane: string)
    ensures T.ChunksFor(ToTaps(W.Delivered(item)), pane) == DataFor([item], pane)
    ensures forall i :: 0 <= i < |ToTaps(W.Delivered(item))| ==> ToTaps(W.Delivered(item))[i].DeliverOp?
  {
    var effects := W.Delivered(item);
    if effects != [] {
      assert effects[..0] == [] && effects == [effects[0]];
      assert ToTaps(effects) == [] + if effects[0].Emit? then [] else [T.DeliverOp(effects[0].pane, effects[0].data)];
      if effects[0].Deliver? {
        assert ToTaps(effects)[1..] == [];
      }
    }
    assert [item][1..] == [];
  }

  lemma {:induction false} ItemsToTaps(c: P.Client, items: seq<W.Item>, pane: string)
    requires P.InRange(c)
    ensures var ops := ToTaps(W.MeantAll(c, items).1);
            T.ChunksFor(ops, pane) == DataFor(items, pane) && forall i :: 0 <= i < |ops| ==> ops[i].DeliverOp?
    decreases |items|
  {
    if items != [] {
      W.MeantInRange(c, items[0]);
      var d := W.Meant(c, items[0]);
      var first, rest := W.Delivered(items[0]), W.MeantAll(d, items[1..]).1;
      ItemsToTaps(d, items[1..], pane);
      ItemToTaps(items[0], pane);
      ToTapsConcat(first, rest);
      ChunksConcat(ToTaps(first), ToTaps(rest), pane);
      assert [items[0]][1..] == [];
      assert DataFor(items, pane) == DataFor([items[0]], pane) + DataFor(items[1..], pane);
    }
  }

  /** From the bytes to a tap: of all tmux writes while no block is open exactly its output for the pane is
      offered to the pane's tap, and of that exactly the chunks arrive that find room in it, in order. */
  lemma StreamReachesTap(c: P.Client, items: seq<W.Item>, cr: bool, first: bool, t: T.Table, asked: seq<Event>,
                         pane: string)
    requires W.IsLive(c) && c.current == P.NoBlock && !W.Introduces(items, first)
    requires forall i :: 0 <= i < |items| ==> W.Written(items[i], cr)
    requires T.Inv(t) && t.phase == T.Reading && pane in t.at && !t.taps[t.at[pane]].closed
    ensures var r := W.Read(W.HearLine, c, W.Text(W.AllLines(items), cr), first);
            var u := PerformedAll(r.effects, t, asked).0;
            var id := t.at[pane];
            && r.goOn && id < |u.taps|
            && T.Gets(t.taps[id], u.taps[id], DataFor(items, pane), T.ChunksThatFit(t, ToTaps(r.effects), pane))
  {
    var s := W.Text(W.AllLines(items), cr);
    assert s + "" == s;
    W.StreamIsRead(c, items, cr, "", first);
    var effects := W.MeantAll(c, items).1;
    assert effects + [] == effects;
    ItemsToTaps(c, items, pane);
    PerformedAllDelivers(effects, t, asked);
    T.ExactlyTheFittingArrive(t, ToTaps(effects), PerformedAll(effects, t, asked).0, pane);
  }

  // The terminal event came, once and last.
  ghost predicate Delivered(sent: seq<Event>, exit: Event) {
    && sent != [] && sent[|sent| - 1] == exit
    && forall i :: 0 <= i < |sent| - 1 ==> !sent[i].Exited?
  }

  ghost predicate AllOrdinary(effects: seq<Effect>) {
    forall i :: 0 <= i < |effects| ==> effects[i].Emit? ==> E.Ordinary(effects[i].ev) && !effects[i].ev.OutputDropped?
  }

  // --- The losses reported for a pane -------------------------------------------------------------

  // What the events say was lost of a pane's output.
  function CountFor(asked: seq<Event>, pane: string): nat {
    if asked == [] then 0
    else
      var ev := asked[|asked| - 1];
      CountFor(asked[..|asked| - 1], pane) + if ev.OutputDropped? && ev.pane == pane then ev.count else 0
  }

  // What a pane's taps have given up to be reported.
  function ReportedFor(taps: seq<T.Tap>, pane: string): nat {
    if taps == [] then 0
    else
      var p := taps[|taps| - 1];
      ReportedFor(taps[..|taps| - 1], pane) + if p.pane == pane then p.reported else 0
  }

  ghost predicate Balanced(t: T.Table, asked: seq<Event>) {
    forall pane :: CountFor(asked, pane) == ReportedFor(t.taps, pane)
  }

  // From one table to the other, these events are what was given up.
  ghost predicate Settles(t: T.Table, u: T.Table, said: seq<Event>) {
    forall pane :: ReportedFor(u.taps, pane) == ReportedFor(t.taps, pane) + CountFor(said, pane)
  }

  lemma {:induction false} CountConcat(a: seq<Event>, b: seq<Event>, pane: string)
    ensures CountFor(a + b, pane) == CountFor(a, pane) + CountFor(b, pane)
  {
    if b == [] {
      assert a + b == a;
    } else {
      var k := |b| - 1;
      assert (a + b)[..|a| + k] == a + b[..k];
      CountConcat(a, b[..k], pane);
    }
  }

  lemma CountOne(ev: Event, pane: string)
    ensures CountFor([ev], pane) == if ev.OutputDropped? && ev.pane == pane then ev.count else 0
  {
    assert [ev][..0] == [];
  }

  lemma CountOwed(p: T.Tap, pane: string)
    ensures CountFor(Owed(p), pane) == if p.pane == pane then p.drops else 0
  {
    CountOne(OutputDropped(p.pane, p.drops), pane);
  }

  lemma {:induction false} ReportedUpdate(taps: seq<T.Tap>, id: nat, p: T.Tap, pane: string)
    requires id < |taps| && p.pane == taps[id].pane
    ensures ReportedFor(taps[id := p], pane) ==
            ReportedFor(taps, pane) + if p.pane == pane then p.reported - taps[id].reported else 0
  {
    var k := |taps| - 1;
    if id == k {
      assert taps[id := p][..k] == taps[..k];
    } else {
      assert taps[id := p][..k] == taps[..k][id := p];
      ReportedUpdate(taps[..k], id, p, pane);
    }
  }

  lemma {:induction false} ReportedSame(a: seq<T.Tap>, b: seq<T.Tap>, pane: string)
    requires |a| == |b| && forall i :: 0 <= i < |a| ==> a[i].pane == b[i].pane && a[i].reported == b[i].reported
    ensures ReportedFor(a, pane) == ReportedFor(b, pane)
  {
    if a != [] {
      ReportedSame(a[..|a| - 1], b[..|b| - 1], pane);
    }
  }

  // A delivery gives up what its tap owed, and says so.
  lemma DeliverSettles(t: T.Table, pane: string, data: string)
    requires T.InTable(t)
    ensures var (u, lost) := T.Deliver(t, pane, data);
            Settles(t, u, if lost > 0 then [OutputDropped(pane, lost)] else [])
  {
    var (u, lost) := T.Deliver(t, pane, data);
    forall q ensures ReportedFor(u.taps, q) ==
                     ReportedFor(t.taps, q) + CountFor(if lost > 0 then [OutputDropped(pane, lost)] else [], q)
    {
      CountOne(OutputDropped(pane, lost), q);
      if pane in t.at && !t.taps[t.at[pane]].closed {
        ReportedUpdate(t.taps, t.at[pane], T.Send(t.taps[t.at[pane]], data).0, q);
      }
    }
  }

  lemma ReportSettles(t: T.Table)
    requires T.InTable(t) && t.phase.Reporting? && t.phase.done < |t.phase.closing|
    ensures Settles(t, T.ReportNext(t), Owed(t.taps[t.phase.closing[t.phase.done]]))
  {
    var id := t.phase.closing[t.phase.done];
    var p := t.taps[id];
    forall q ensures ReportedFor(T.ReportNext(t).taps, q) == ReportedFor(t.taps, q) + CountFor(Owed(p), q) {
      CountOwed(p, q);
      ReportedUpdate(t.taps, id, p.(drops := 0, reported := p.reported + p.drops), q);
    }
  }

  // Handing a tap out, untapping, receiving and closing give up nothing.
  lemma OthersSettleNothing(t: T.Table, op: T.Op)
    requires T.InTable(t) && T.Enabled(t, op) && !op.DeliverOp? && !op.ReportOp?
    ensures Settles(t, T.Step(t, op), [])
  {
    if op.OutputOp? {
      OutputSettlesNothing(t, op.pane);
    } else {
      NothingSettled(t, T.Step(t, op));
    }
  }

  lemma OutputSettlesNothing(t: T.Table, pane: string)
    ensures Settles(t, T.Output(t, pane).0, [])
  {
    var u := T.Output(t, pane).0;
    if |u.taps| > |t.taps| {
      assert u.taps[..|t.taps|] == t.taps && u.taps[|t.taps|].reported == 0;
    }
  }

  // What an operation on the taps has the client say of losses.
  ghost function SaidAt(t: T.Table, op: T.Op): seq<Event>
    requires T.InTable(t) && T.Enabled(t, op)
  {
    if op.DeliverOp? then
      var lost := T.Deliver(t, op.pane, op.data).1;
      if lost > 0 then [OutputDropped(op.pane, lost)] else []
    else if op.ReportOp? && t.phase.done < |t.phase.closing| then Owed(t.taps[t.phase.closing[t.phase.done]])
    else []
  }

  ghost function SaidOver(t: T.Table, ops: seq<T.Op>): seq<Event>
    decreases |ops|
  {
    if ops == [] || !T.InTable(t) || !T.Enabled(t, ops[0]) then []
    else SaidAt(t, ops[0]) + SaidOver(T.Step(t, ops[0]), ops[1..])
  }

  lemma StepSettles(t: T.Table, op: T.Op)
    requires T.InTable(t) && T.Enabled(t, op)
    ensures Settles(t, T.Step(t, op), SaidAt(t, op))
  {
    match op
    case DeliverOp(pane, data) => DeliverSettles(t, pane, data);
    case ReportOp =>
      if t.phase.done < |t.phase.closing| {
        ReportSettles(t);
      } else {
        NothingSettled(t, T.ReportNext(t));
      }
    case _ => OthersSettleNothing(t, op);
  }

  lemma {:induction false} RunSettles(t: T.Table, ops: seq<T.Op>, u: T.Table)
    requires T.Run(t, ops, u)
    ensures Settles(t, u, SaidOver(t, ops))
    decreases |ops|
  {
    if ops == [] {
      NothingSettled(t, t);
    } else {
      var v := T.Step(t, ops[0]);
      StepSettles(t, ops[0]);
      RunSettles(v, ops[1..], u);
      SettlesMore(t, v, u, SaidAt(t, ops[0]), SaidOver(v, ops[1..]));
    }
  }

  /** Over every interleaving of Output, Untap, delivery, receiving, Close and teardown: the losses the
      events offered tell of a pane's output add up to what its taps, those still there and those gone,
      gave up to be reported. */
  lemma LossesAreSaidOnce(size: nat, ops: seq<T.Op>, u: T.Table)
    requires T.Run(T.Start(size), ops, u)
    ensures forall pane :: CountFor(SaidOver(T.Start(size), ops), pane) == ReportedFor(u.taps, pane)
  {
    RunSettles(T.Start(size), ops, u);
  }

  lemma SettlesMore(t: T.Table, u: T.Table, v: T.Table, a: seq<Event>, b: seq<Event>)
    requires Settles(t, u, a) && Settles(u, v, b)
    ensures Settles(t, v, a + b)
  {
    forall pane ensures ReportedFor(v.taps, pane) == ReportedFor(t.taps, pane) + CountFor(a + b, pane) {
      CountConcat(a, b, pane);
    }
  }

  lemma NothingSettled(t: T.Table, u: T.Table)
    requires |t.taps| == |u.taps|
    requires forall i :: 0 <= i < |t.taps| ==>
                           t.taps[i].pane == u.taps[i].pane && t.taps[i].reported == u.taps[i].reported
    ensures Settles(t, u, [])
  {
    forall pane ensures ReportedFor(u.taps, pane) == ReportedFor(t.taps, pane) + CountFor([], pane) {
      ReportedSame(t.taps, u.taps, pane);
    }
  }

  lemma SettledBalances(t: T.Table, u: T.Table, asked: seq<Event>, said: seq<Event>)
    requires Balanced(t, asked) && Settles(t, u, said)
    ensures Balanced(u, asked + said)
  {
    forall pane ensures CountFor(asked + said, pane) == ReportedFor(u.taps, pane) {
      CountConcat(asked, said, pane);
    }
  }

  lemma PerformedBalances(effect: Effect, t: T.Table, asked: seq<Event>)
    requires T.InTable(t) && Balanced(t, asked) && (effect.Emit? ==> !effect.ev.OutputDropped?)
    ensures var (u, more) := Performed(effect, t, asked); Balanced(u, more)
  {
    var first := if effect.Emit? then effect.ev
                 else PaneOutput(effect.pane, effect.data, effect.extended, effect.ageMS);
    forall pane ensures CountFor([first], pane) == 0 {
      CountOne(first, pane);
    }
    SettledBalances(t, t, asked, [first]);
    if effect.Deliver? {
      var (u, lost) := T.Deliver(t, effect.pane, effect.data);
      DeliverSettles(t, effect.pane, effect.data);
      SettledBalances(t, u, asked + [first], if lost > 0 then [OutputDropped(effect.pane, lost)] else []);
    }
  }

  /** Whatever lines are handled, what the events say was lost of each pane's output is what its taps
      gave up to be reported. */
  lemma {:induction false} PerformedAllBalances(effects: seq<Effect>, t: T.Table, asked: seq<Event>)
    requires T.InTable(t) && Balanced(t, asked) && AllOrdinary(effects)
    ensures var (u, more) := PerformedAll(effects, t, asked); Balanced(u, more)
  {
    if effects != [] {
      var k := |effects| - 1;
      PerformedAllBalances(effects[..k], t, asked);
      var (u, more) := PerformedAll(effects[..k], t, asked);
      PerformedBalances(effects[k], u, more);
    }
  }

  lemma SettlesNext(t: T.Table, u: T.Table, ids: seq<nat>, i: nat)
    requires T.InTable(u) && u.phase == T.Reporting(ids, i) && i < |ids|
    requires forall j :: 0 <= j < |ids| ==> ids[j] < |t.taps|
    requires u.taps[ids[i]] == t.taps[ids[i]] && Settles(t, u, AllOwed(t, ids[..i]))
    ensures Settles(t, T.ReportNext(u), AllOwed(t, ids[..i + 1]))
  {
    AllOwedNext(t, ids, i);
    ReportSettles(u);
    SettlesMore(t, u, T.ReportNext(u), AllOwed(t, ids[..i]), Owed(u.taps[ids[i]]));
  }

  // The teardown, step by step.
  lemma TearDownSettles(t: T.Table, marked: T.Table, reported: T.Table, shutting: T.Table, shut: T.Table,
                        down: T.Table, ids: seq<nat>, owed: seq<Event>)
    requires marked == T.MarkAll(t, ids) && Settles(marked, reported, owed)
    requires shutting == reported.(phase := shutting.phase) && Settles(shutting, shut, [])
    requires down == shut.(phase := down.phase)
    ensures Settles(t, down, owed)
  {
    NothingSettled(t, marked);
    SettlesMore(t, marked, reported, [], owed);
    assert [] + owed == owed;
    assert Settles(t, shutting, owed);
    SettlesMore(t, shutting, shut, owed, []);
    assert owed + [] == owed;
  }

  class Streams {
    const events: EventChannel
    const taps: TapTable

    constructor (events: EventChannel, taps: TapTable)
      ensures this.events == events && this.taps == taps
    {
      this.events, this.taps := events, taps;
    }

    ghost predicate Valid()
      reads events, taps, taps.Owned()
    {
      events.Valid() && taps.Valid()
    }

    method Emit(ev: Event)
      requires events.Valid() && E.Ordinary(ev)
      modifies events
      ensures events.Valid()
      ensures E.Asked(events.played) == E.Asked(old(events.played)) + [ev]
    {
      ghost var g := events.Emit(ev);
    }

    // deliverOutput: the firehose, then the pane's own tap, then the loss it can now report.
    method DeliverOutput(pane: string, data: string, extended: bool, ageMS: int) returns (recovered: nat)
      requires Valid() && taps.table.phase == T.Reading
      modifies events, taps, taps.Owned()
      ensures Valid() && taps.handed == old(taps.handed)
      ensures (taps.table, recovered) == T.Deliver(old(taps.table), pane, data)
      ensures E.Asked(events.played) ==
              E.Asked(old(events.played)) + [PaneOutput(pane, data, extended, ageMS)]
              + if recovered > 0 then [OutputDropped(pane, recovered)] else []
    {
      Emit(PaneOutput(pane, data, extended, ageMS));
      recovered := taps.Deliver(pane, data);
      EmitLoss(pane, recovered);
    }

    method EmitLoss(pane: string, lost: nat)
      requires Valid()
      modifies events
      ensures Valid()
      ensures E.Asked(events.played) ==
              E.Asked(old(events.played)) + if lost > 0 then [OutputDropped(pane, lost)] else []
    {
      if lost > 0 {
        Emit(OutputDropped(pane, lost));
      }
    }

    method Perform(effect: Effect)
      requires Valid() && taps.table.phase == T.Reading && (effect.Emit? ==> E.Ordinary(effect.ev))
      modifies events, taps, taps.Owned()
      ensures Valid() && taps.handed == old(taps.handed)
      ensures (taps.table, E.Asked(events.played)) ==
              Performed(effect, old(taps.table), E.Asked(old(events.played)))
    {
      match effect
      case Emit(ev) =>
        Emit(ev);
      case Deliver(pane, data, extended, ageMS) =>
        var recovered := DeliverOutput(pane, data, extended, ageMS);
    }

    method PerformAll(effects: seq<Effect>)
      requires Valid() && taps.table.phase == T.Reading
      requires AllOrdinary(effects)
      modifies events, taps, taps.Owned()
      ensures Valid() && taps.handed == old(taps.handed)
      ensures (taps.table, E.Asked(events.played)) ==
              PerformedAll(effects, old(taps.table), E.Asked(old(events.played)))
    {
      for i := 0 to |effects|
        invariant Valid() && taps.handed == old(taps.handed) && taps.table.phase == T.Reading
        invariant (taps.table, E.Asked(events.played)) ==
                  PerformedAll(effects[..i], old(taps.table), E.Asked(old(events.played)))
      {
        assert effects[..i + 1][..i] == effects[..i];
        Perform(effects[i]);
      }
      assert effects[..|effects|] == effects;
    }

    // One flagged tap's losses, said while there is still someone to say it to.
    method SayLoss(pane: string, t: PaneTap, ghost ids: seq<nat>, ghost i: nat)
      requires Valid() && taps.table.phase == T.Reporting(ids, i) && i < |ids|
      requires ids[i] < |taps.handed| && t == taps.handed[ids[i]] && pane == t.pane
      modifies events, taps, taps.Owned()
      ensures Valid() && taps.handed == old(taps.handed) && taps.table == T.ReportNext(old(taps.table))
      ensures E.Asked(events.played) == E.Asked(old(events.played)) + Owed(old(taps.table).taps[ids[i]])
    {
      assert taps.Ties(t, ids[i]);
      var lost := taps.SwapDrops(t);
      if lost > 0 {
        Emit(OutputDropped(pane, lost));
      }
    }

    // How far the reports have come: those of the first i flagged taps have been made, and no others.
    ghost predicate Said(was: T.Table, asked: seq<Event>, ids: seq<nat>, i: nat)
      reads events, taps
    {
      && i <= |ids| && T.Distinct(ids) && taps.table.phase == T.Reporting(ids, i)
      && |taps.table.taps| == |was.taps| && (forall j :: 0 <= j < |ids| ==> ids[j] < |was.taps|)
      && (forall j :: i <= j < |ids| ==> taps.table.taps[ids[j]] == was.taps[ids[j]])
      && E.Asked(events.played) == asked + AllOwed(was, ids[..i])
      && Settles(was, taps.table, AllOwed(was, ids[..i]))
    }

    method ReportLoss(pane: string, t: PaneTap, ghost was: T.Table, ghost asked: seq<Event>, ghost ids: seq<nat>,
                      ghost i: nat)
      requires Valid() && Said(was, asked, ids, i) && i < |ids|
      requires ids[i] < |taps.handed| && t == taps.handed[ids[i]] && pane == t.pane
      modifies events, taps, taps.Owned()
      ensures Valid() && taps.handed == old(taps.handed) && Said(was, asked, ids, i + 1)
    {
      AllOwedNext(was, ids, i);
      SettlesNext(was, taps.table, ids, i);
      SayLoss(pane, t, ids, i);
    }

    method ReportLosses(closing: seq<(string, PaneTap)>, ghost ids: seq<nat>)
      requires Valid() && taps.table.phase == T.Reporting(ids, 0) && taps.Names(closing, ids) && T.Distinct(ids)
      modifies events, taps, taps.Owned()
      ensures Valid() && taps.handed == old(taps.handed) && taps.table.phase == T.Reporting(ids, |ids|)
      ensures E.Asked(events.played) == E.Asked(old(events.played)) + AllOwed(old(taps.table), ids)
      ensures Settles(old(taps.table), taps.table, AllOwed(old(taps.table), ids))
    {
      ghost var was, asked := taps.table, E.Asked(events.played);
      NothingSettled(was, was);
      assert asked + AllOwed(was, ids[..0]) == asked;
      for i := 0 to |closing|
        invariant Valid() && taps.handed == old(taps.handed)
        invariant Said(was, asked, ids, i)
      {
        ReportLoss(closing[i].0, closing[i].1, was, asked, ids, i);
      }
      assert ids[..|ids|] == ids;
    }

    method ShutAll(closing: seq<(string, PaneTap)>, ghost ids: seq<nat>)
      requires taps.Valid() && taps.table.phase == T.Shutting(ids, 0) && taps.Names(closing, ids)
      modifies taps, taps.Owned()
      ensures taps.Valid() && taps.handed == old(taps.handed) && taps.table.phase == T.Shutting(ids, |ids|)
      ensures Settles(old(taps.table), taps.table, [])
    {
      NothingSettled(taps.table, taps.table);
      for i := 0 to |closing|
        invariant taps.Valid() && taps.handed == old(taps.handed) && taps.table.phase == T.Shutting(ids, i)
        invariant Settles(old(taps.table), taps.table, [])
      {
        NothingSettled(taps.table, T.ShutNext(taps.table));
        SettlesMore(old(taps.table), taps.table, T.ShutNext(taps.table), [], []);
        taps.Shut(closing[i].1);
      }
    }

    method CloseEvents(exit: Event)
      requires events.Valid() && exit.Exited?
      modifies events
      ensures events.played == old(events.played) && events.closed
      ensures Delivered(events.Value().Sent(), exit)
      ensures events.totalDrops == E.Reported(events.Value().Sent()) + old(events.pendingDrops)
    {
      ghost var pops := events.EmitReservedAndClose(exit);
      E.ExitIsDelivered(events.size, events.played, exit, pops);
    }

    // finishReader's half of the streams: the taps' losses, the last word, and every channel closed.
    method TearDown(exit: Event) returns (ghost ids: seq<nat>)
      requires Valid() && taps.table.phase == T.Reading && exit.Exited?
      modifies events, taps, taps.Owned()
      ensures taps.Valid() && taps.handed == old(taps.handed) && taps.table.phase == T.Down
      ensures T.Lists(old(taps.table), ids) && forall i :: 0 <= i < |ids| ==> ids[i] < |old(taps.table).taps|
      ensures E.Asked(events.played) == E.Asked(old(events.played)) + AllOwed(old(taps.table), ids)
      ensures Settles(old(taps.table), taps.table, AllOwed(old(taps.table), ids))
      ensures events.closed && Delivered(events.Value().Sent(), exit)
    {
      var closing;
      closing, ids := taps.MarkAll();
      AllOwedMarked(old(taps.table), ids, ids);
      ghost var marked := taps.table;
      ReportLosses(closing, ids);
      ghost var reported := taps.table;
      taps.MoveOn();
      ghost var shutting := taps.table;
      CloseEvents(exit);
      ShutAll(closing, ids);
      ghost var shut := taps.table;
      taps.MoveOn();
      TearDownSettles(old(taps.table), marked, reported, shutting, shut, taps.table, ids, AllOwed(marked, ids));
    }
  }

  lemma NewsOrdinary(c: P.Client, cl: Line)
    ensures AllOrdinary(HandleNotification(c, cl).effects)
  {
  }

  lemma OutsideOrdinary(c: P.Client, cl: Line, firstLine: bool)
    requires P.InRange(c)
    ensures AllOrdinary(HandleOutside(c, cl, firstLine).effects)
  {
    if !cl.malformed && cl.kind == Notification {
      NewsOrdinary(c, cl);
    }
  }

  lemma OrdinaryEffects(c: P.Client, cl: Line)
    requires P.InRange(c)
    ensures AllOrdinary(HandleLine(c, cl).effects)
  {
    OutsideOrdinary(FirstLine(c, cl), cl, !c.sawFirstLine);
  }

  // Only %exit stops the reader, and it says so.
  lemma OutsideGoesOn(c: P.Client, cl: Line, firstLine: bool)
    requires P.InRange(c) && !c.sawExit
    ensures var h := P.HandleOutside(c, cl, firstLine); h.goOn ==> !h.client.sawExit
  {
  }

  lemma GoesOn(c: P.Client, cl: Line)
    requires P.InRange(c) && !c.sawExit
    ensures var h := P.HandleLine(c, cl); h.goOn ==> !h.client.sawExit
  {
    OutsideGoesOn(P.FirstLine(c, cl), cl, !c.sawFirstLine);
  }

  // What a reader in this state is yet to make of the rest of its stream.
  ghost function Ahead(c: P.Client, done: seq<Effect>, goOn: bool, rest: string, first: bool): W.Fed<P.Client> {
    if goOn then W.Then(W.Fed(c, done, true), W.Read(W.HearLine, c, rest, first)) else W.Fed(c, done, false)
  }

  lemma NothingDone<S>(c: S, r: W.Fed<S>)
    ensures W.Then(W.Fed(c, [], true), r) == r
  {
    assert [] + r.effects == r.effects;
  }

  /** How a connection ends that was read from a client a run has led to: by an %exit between blocks with its
      reason, and by a stream without one with none, after a Close or not. */
  lemma HowItEnds(c: P.Client, actions: seq<P.Action>, stdout: string)
    requires P.Run(P.INITIAL, actions, c) && !c.sawExit
    ensures var end := W.Read(W.HearLine, c, stdout, true).state;
            && (end.userClose <==> P.Close in actions)
            && (forall args :: W.EndsInExit(stdout, args) && c.current == P.NoBlock ==>
                  end.sawExit && end.exitMsg == P.ExitReason(W.Given(args)))
            && (W.NoExit(stdout) || (W.JustStops(stdout) && c.current == P.NoBlock) ==>
                  !end.sawExit && end.exitMsg == "")
  {
    P.RunKeeps(P.INITIAL, actions, c);
    P.EndIsRemembered(actions, c);
    W.ReadKeepsClose(c, stdout, true);
    forall args | W.EndsInExit(stdout, args) && c.current == P.NoBlock
      ensures var end := W.Read(W.HearLine, c, stdout, true).state;
              end.sawExit && end.exitMsg == P.ExitReason(W.Given(args))
    {
      W.ExitIsTheEnd(c, stdout, args);
    }
    if W.NoExit(stdout) {
      W.NoExitNoReason(c, stdout, true);
    } else if W.JustStops(stdout) && c.current == P.NoBlock {
      W.StoppingIsNoExit(c, stdout);
    }
  }

  /** Exited came once and last, and says how a connection ended that was read from between blocks or inside
      one, and that Close had been called on or had not: after an %exit with its reason and no error; on a
      stream without one, but perhaps in the bodies of replies, with no reason, and an error unless there was
      a Close; and after a Close never with an error. */
  ghost predicate SaysHow(sent: seq<Event>, stdout: string, failure: string, between: bool, closed: bool) {
    && (forall args :: between && W.EndsInExit(stdout, args) ==>
          Delivered(sent, Exited(P.ExitReason(W.Given(args)), None)))
    && (W.NoExit(stdout) || (between && W.JustStops(stdout)) ==>
          Delivered(sent, Exited("", if closed then None else Some(failure))))
    && (closed ==> exists reason :: Delivered(sent, Exited(reason, None)))
  }

  lemma HowIsSaid(c: P.Client, actions: seq<P.Action>, stdout: string, failure: string, sent: seq<Event>)
    requires P.Run(P.INITIAL, actions, c) && !c.sawExit
    requires var end := W.Read(W.HearLine, c, stdout, true).state;
             Delivered(sent, Exited(end.exitMsg, if end.sawExit || end.userClose then None else Some(failure)))
    ensures SaysHow(sent, stdout, failure, c.current == P.NoBlock, P.Close in actions)
  {
    HowItEnds(c, actions, stdout);
  }

  class Reader {
    const client: ControlClient
    const streams: Streams

    constructor (client: ControlClient, streams: Streams)
      ensures this.client == client && this.streams == streams
    {
      this.client, this.streams := client, streams;
    }

    ghost predicate Ready()
      reads client, client.Owned()
    {
      client.Valid() && !client.finished
    }

    ghost predicate Flowing()
      reads streams.events, streams.taps, streams.taps.Owned()
    {
      streams.Valid() && streams.taps.table.phase == T.Reading
    }

    method HandleLine(line: string) returns (effects: seq<Effect>, goOn: bool)
      requires Ready() && !client.sawExit && Flowing()
      modifies client, client.Owned(), streams.events, streams.taps, streams.taps.Owned()
      ensures Ready() && (goOn ==> !client.sawExit) && client.OnlyRead()
      ensures W.Fed(client.state, effects, goOn) == W.HearLine(old(client.state), line) && AllOrdinary(effects)
      ensures Flowing() && streams.taps.handed == old(streams.taps.handed)
      ensures (streams.taps.table, E.Asked(streams.events.played)) ==
              PerformedAll(effects, old(streams.taps.table), E.Asked(old(streams.events.played)))
    {
      effects, goOn := TakeLine(line);
      CarryOut(effects);
    }

    method CarryOut(effects: seq<Effect>)
      requires Ready() && Flowing() && AllOrdinary(effects)
      modifies streams.events, streams.taps, streams.taps.Owned()
      ensures Ready() && client.OnlyRead()
      ensures Flowing() && streams.taps.handed == old(streams.taps.handed)
      ensures (streams.taps.table, E.Asked(streams.events.played)) ==
              PerformedAll(effects, old(streams.taps.table), E.Asked(old(streams.events.played)))
    {
      streams.PerformAll(effects);
    }

    // readLoop, on a stream that holds exactly `stdout`; `failure` is what an end nobody asked for is called.
    method ReadLoop(stdout: string, failure: string) returns (ghost ids: seq<nat>)
      requires Ready() && !client.sawExit && Flowing()
      modifies client, client.Owned(), streams.events, streams.taps, streams.taps.Owned()
      ensures client.Valid()
      ensures var r := W.Read(W.HearLine, old(client.state), stdout, true);
              && client.state == P.FinishReader(r.state)
              && Ended(r, old(streams.taps.table), E.Asked(old(streams.events.played)), ids)
      ensures Balanced(old(streams.taps.table), E.Asked(old(streams.events.played))) ==>
                Balanced(streams.taps.table, E.Asked(streams.events.played))
      ensures streams.taps.Valid() && streams.taps.table.phase == T.Down && streams.events.closed
      ensures SaysHow(streams.events.Value().Sent(), stdout, failure, old(client.state).current == P.NoBlock,
                      P.Close in old(client.actions))
    {
      ghost var was, actions := client.state, client.actions;
      ids := ReadToEnd(stdout, failure);
      HowIsSaid(was, actions, stdout, failure, streams.events.Value().Sent());
    }

    // What was offered by the time everything is closed: all that the stream called for, and then every loss
    // still owed to an open tap.
    ghost predicate Ended(r: W.Fed<P.Client>, table: T.Table, asked: seq<Event>, ids: seq<nat>)
      requires T.InTable(table)
      reads streams.events
    {
      var (t, more) := PerformedAll(r.effects, table, asked);
      && T.Lists(t, ids) && (forall i :: 0 <= i < |ids| ==> ids[i] < |t.taps|)
      && E.Asked(streams.events.played) == more + AllOwed(t, ids)
    }

    method ReadToEnd(stdout: string, failure: string) returns (ghost ids: seq<nat>)
      requires Ready() && !client.sawExit && Flowing()
      modifies client, client.Owned(), streams.events, streams.taps, streams.taps.Owned()
      ensures client.Valid()
      ensures var r := W.Read(W.HearLine, old(client.state), stdout, true);
              && client.state == P.FinishReader(r.state)
              && Ended(r, old(streams.taps.table), E.Asked(old(streams.events.played)), ids)
              && Delivered(streams.events.Value().Sent(),
                           Exited(r.state.exitMsg,
                                  if r.state.sawExit || r.state.userClose then None else Some(failure)))
      ensures Balanced(old(streams.taps.table), E.Asked(old(streams.events.played))) ==>
                Balanced(streams.taps.table, E.Asked(streams.events.played))
      ensures streams.taps.Valid() && streams.taps.table.phase == T.Down && streams.events.closed
    {
      ghost var done;
      var goOn;
      done, goOn := ReadLines(stdout);
      ghost var table, asked := streams.taps.table, E.Asked(streams.events.played);
      ids := FinishReader(failure);
      if Balanced(old(streams.taps.table), E.Asked(old(streams.events.played))) {
        PerformedAllBalances(done, old(streams.taps.table), E.Asked(old(streams.events.played)));
        SettledBalances(table, streams.taps.table, asked, AllOwed(table, ids));
      }
    }

    method FinishReader(failure: string) returns (ghost ids: seq<nat>)
      requires Ready() && Flowing()
      modifies client, client.Owned(), streams.events, streams.taps, streams.taps.Owned()
      ensures client.Valid() && client.state == P.FinishReader(old(client.state))
      ensures Delivered(streams.events.Value().Sent(),
                        Exited(old(client.exitMsg),
                               if old(client.sawExit) || old(client.userClose) then None else Some(failure)))
      ensures P.Close in old(client.actions) ==>
                Delivered(streams.events.Value().Sent(), Exited(old(client.exitMsg), None))
      ensures P.Close !in old(client.actions)
              && (forall cl :: P.Recv(cl) in old(client.actions) ==> !P.SaysExit(cl)) ==>
                Delivered(streams.events.Value().Sent(), Exited("", Some(failure)))
      ensures T.Lists(old(streams.taps.table), ids)
      ensures forall i :: 0 <= i < |ids| ==> ids[i] < |old(streams.taps.table).taps|
      ensures E.Asked(streams.events.played) ==
              E.Asked(old(streams.events.played)) + AllOwed(old(streams.taps.table), ids)
      ensures Settles(old(streams.taps.table), streams.taps.table, AllOwed(old(streams.taps.table), ids))
      ensures streams.taps.Valid() && streams.taps.table.phase == T.Down && streams.events.closed
    {
      P.EndIsRemembered(client.actions, client.state);
      var exit := Exited(client.exitMsg, if client.sawExit || client.userClose then None else Some(failure));
      FinishClient();
      ids := TearDown(exit);
    }

    method FinishClient()
      requires Ready() && Flowing()
      modifies client, client.Owned()
      ensures Flowing() && client.Valid() && client.state == P.FinishReader(old(client.state))
    {
      client.FinishReader();
      assert unchanged(streams.events) && unchanged(streams.taps);
      assert forall p :: p in streams.taps.handed ==> unchanged(p);
    }

    method TearDown(exit: Event) returns (ghost ids: seq<nat>)
      requires client.Valid() && Flowing() && exit.Exited?
      modifies streams.events, streams.taps, streams.taps.Owned()
      ensures client.Valid()
      ensures streams.taps.Valid() && streams.taps.table.phase == T.Down && streams.events.closed
      ensures T.Lists(old(streams.taps.table), ids)
      ensures forall i :: 0 <= i < |ids| ==> ids[i] < |old(streams.taps.table).taps|
      ensures E.Asked(streams.events.played) ==
              E.Asked(old(streams.events.played)) + AllOwed(old(streams.taps.table), ids)
      ensures Settles(old(streams.taps.table), streams.taps.table, AllOwed(old(streams.taps.table), ids))
      ensures Delivered(streams.events.Value().Sent(), exit)
    {
      ids := streams.TearDown(exit);
    }

    // Where the loop is: what is yet to come of the stream completes `total`, and what was done so
    // far was done to the taps and the events it found.
    ghost predicate Along(done: seq<Effect>, goOn: bool, rest: string, first: bool, total: W.Fed<P.Client>,
                          table: T.Table, asked: seq<Event>)
      reads client, streams.taps, streams.events
    {
      && Ahead(client.state, done, goOn, rest, first) == total
      && T.InTable(table)
      && AllOrdinary(done)
      && PerformedAll(done, table, asked) == (streams.taps.table, E.Asked(streams.events.played))
    }

    // The lines of the stream, up to its end or the one that stops the reader.
    method ReadLines(stdout: string) returns (ghost done: seq<Effect>, goOn: bool)
      requires Ready() && !client.sawExit && Flowing()
      modifies client, client.Owned(), streams.events, streams.taps, streams.taps.Owned()
      ensures Ready() && client.OnlyRead()
      ensures Flowing() && streams.taps.handed == old(streams.taps.handed)
      ensures W.Fed(client.state, done, goOn) == W.Read(W.HearLine, old(client.state), stdout, true)
      ensures AllOrdinary(done)
      ensures (streams.taps.table, E.Asked(streams.events.played)) ==
              PerformedAll(done, old(streams.taps.table), E.Asked(old(streams.events.played)))
    {
      ghost var total := W.Read(W.HearLine, client.state, stdout, true);
      NothingDone(client.state, total);
      done, goOn := ReadRest(stdout, total, streams.taps.table, E.Asked(streams.events.played));
      assert done + [] == done;
    }

    method ReadRest(stdout: string, ghost total: W.Fed<P.Client>, ghost table: T.Table, ghost asked: seq<Event>)
        returns (ghost done: seq<Effect>, goOn: bool)
      requires Ready() && !client.sawExit && Flowing() && Along([], true, stdout, true, total, table, asked)
      modifies client, client.Owned(), streams.events, streams.taps, streams.taps.Owned()
      ensures Ready() && client.OnlyRead()
      ensures Flowing() && streams.taps.handed == old(streams.taps.handed)
      ensures exists rest, first :: (goOn ==> rest == "") && Along(done, goOn, rest, first, total, table, asked)
    {
      done, goOn := [], true;
      var rest, first := stdout, true;
      while goOn && rest != ""
        invariant Ready() && (goOn ==> !client.sawExit) && client.OnlyRead()
        invariant Flowing() && streams.taps.handed == old(streams.taps.handed)
        invariant Along(done, goOn, rest, first, total, table, asked)
        decreases |rest|
      {
        rest, goOn, done := ReadNext(rest, first, done, total, table, asked);
        first := false;
      }
    }

    // One turn of the loop.
    method ReadNext(rest: string, first: bool, ghost done: seq<Effect>, ghost total: W.Fed<P.Client>,
                    ghost table: T.Table, ghost asked: seq<Event>)
        returns (more: string, goOn: bool, ghost all: seq<Effect>)
      requires Ready() && !client.sawExit && Flowing()
      requires rest != "" && Along(done, true, rest, first, total, table, asked)
      modifies client, client.Owned(), streams.events, streams.taps, streams.taps.Owned()
      ensures Ready() && (goOn ==> !client.sawExit) && client.OnlyRead()
      ensures Flowing() && streams.taps.handed == old(streams.taps.handed)
      ensures |more| < |rest| && Along(all, goOn, more, false, total, table, asked)
    {
      var (raw, tail, ended) := CutByte(rest, '\n');
      W.ReadNext(W.HearLine, done, client.state, rest, first);
      var effects;
      effects, goOn := HandleLine(W.Clean(raw, first));
      PerformedMore(done, effects, table, asked);
      more, all := tail, done + effects;
    }

    method TakeLine(line: string) returns (effects: seq<Effect>, goOn: bool)
      requires Ready() && !client.sawExit && Flowing()
      modifies client, client.Owned()
      ensures Flowing() && Ready() && (goOn ==> !client.sawExit) && client.OnlyRead()
      ensures W.Fed(client.state, effects, goOn) == W.HearLine(old(client.state), line)
      ensures AllOrdinary(effects)
    {
      effects, goOn := ClientLine(line);
      assert unchanged(streams.events) && unchanged(streams.taps);
      assert forall p :: p in streams.taps.handed ==> unchanged(p);
    }

    method ClientLine(line: string) returns (effects: seq<Effect>, goOn: bool)
      requires Ready() && !client.sawExit
      modifies client, client.Owned()
      ensures Ready() && (goOn ==> !client.sawExit) && client.OnlyRead()
      ensures W.Fed(client.state, effects, goOn) == W.HearLine(old(client.state), line)
      ensures AllOrdinary(effects)
    {
      client.Reachable();
      OrdinaryEffects(client.state, Classify(line));
      W.StillReading(client.state, Classify(line));
      GoesOn(client.state, Classify(line));
      effects, goOn := client.HandleLine(line);
    }
  }
}
