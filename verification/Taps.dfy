/** control.go and control_reader.go: the per-pane taps, from Output to teardown. Every step is one
    the source takes under its lock, or one it takes alone after the lock; consumers, Output, Untap
    and Close may come between any two. */
module Taps {
  import opened Bytes
  import opened CtlParse

  // What became of a chunk that came while the tap was open.
  datatype Slot = Kept(data: string) | Lost(data: string)

  /** A tap that was handed out. `closed` is the tap's own flag; `closes` counts the closes of its
      channel, and `lateSends` the sends made after one. `reported` adds up the counts of the
      OutputDropped events offered for it. `taken` is what its consumer has received, and `slots`
      every chunk it was there for. */
  datatype Tap = Tap(pane: string, size: nat, buffer: seq<string>, drops: nat, total: nat, reported: nat,
                     closed: bool, closes: nat, lateSends: nat, taken: seq<string>, slots: seq<Slot>)

  function KeptOf(slots: seq<Slot>): seq<string> {
    if slots == [] then []
    else KeptOf(slots[..|slots| - 1]) + if slots[|slots| - 1].Kept? then [slots[|slots| - 1].data] else []
  }

  function AllData(slots: seq<Slot>): seq<string> {
    seq(|slots|, i requires 0 <= i < |slots| => slots[i].data)
  }

  lemma KeptSnoc(slots: seq<Slot>, s: Slot)
    ensures KeptOf(slots + [s]) == KeptOf(slots) + if s.Kept? then [s.data] else []
  {
    assert (slots + [s])[..|slots|] == slots;
  }

  // How far the teardown has come: which taps it is closing, and how many it is done with.
  datatype Phase = Reading | Reporting(closing: seq<nat>, done: nat) | Shutting(closing: seq<nat>, done: nat) | Down

  /** Taps are named by the order they were handed out in; `at` is the client's own map. */
  datatype Table = Table(taps: seq<Tap>, at: map<string, nat>, closed: bool, phase: Phase, size: nat)

  function Start(size: nat): Table {
    Table([], map[], false, Reading, size)
  }

  function NewTap(t: Table, pane: string): Tap {
    Tap(pane, t.size, [], 0, 0, 0, t.closed, if t.closed then 1 else 0, 0, [], [])
  }

  // Output: None for an identifier that is not one, or else the tap handed out.
  function Output(t: Table, pane: string): (Table, Option<nat>) {
    if !IsID(pane, '%') then (t, None)
    else if pane in t.at then (t, Some(t.at[pane]))
    else (t.(taps := t.taps + [NewTap(t, pane)], at := t.at[pane := |t.taps|]), Some(|t.taps|))
  }

  function CloseTap(p: Tap): Tap {
    p.(closed := true, closes := p.closes + 1)
  }

  ghost predicate InTable(t: Table) {
    && (forall pane :: pane in t.at ==> t.at[pane] < |t.taps| && t.taps[t.at[pane]].pane == pane)
    && match t.phase
       case Reporting(ids, done) => done <= |ids| && forall i :: 0 <= i < |ids| ==> ids[i] < |t.taps|
       case Shutting(ids, done) => done <= |ids| && forall i :: 0 <= i < |ids| ==> ids[i] < |t.taps|
       case _ => true
  }

  function Untap(t: Table, pane: string): Table
    requires InTable(t)
  {
    if !IsID(pane, '%') || pane !in t.at then t
    else
      var id := t.at[pane];
      var p := t.taps[id];
      t.(at := t.at - {pane}, taps := if p.closed then t.taps else t.taps[id := CloseTap(p)])
  }

  predicate Full(p: Tap) {
    |p.buffer| >= p.size
  }

  // One send on a tap's channel, which never blocks; the second result is the loss it can now report.
  function Send(p: Tap, data: string): (Tap, nat) {
    var q := if p.closes > 0 then p.(lateSends := p.lateSends + 1) else p;
    if Full(p) then (q.(drops := p.drops + 1, total := p.total + 1, slots := p.slots + [Lost(data)]), 0)
    else
      var sent := q.(buffer := p.buffer + [data], slots := p.slots + [Kept(data)]);
      (sent.(drops := 0, reported := p.reported + p.drops), p.drops)
  }

  // deliverOutput's half of the taps, and the loss it goes on to report.
  function Deliver(t: Table, pane: string, data: string): (Table, nat)
    requires InTable(t)
  {
    if pane !in t.at || t.taps[t.at[pane]].closed then (t, 0)
    else
      var id := t.at[pane];
      var (p, recovered) := Send(t.taps[id], data);
      (t.(taps := t.taps[id := p]), recovered)
  }

  function TakeFrom(t: Table, id: nat): Table
    requires id < |t.taps|
  {
    var p := t.taps[id];
    if p.buffer == [] then t
    else t.(taps := t.taps[id := p.(buffer := p.buffer[1..], taken := p.taken + [p.buffer[0]])])
  }

  // The taps the client still holds open.
  ghost predicate Held(t: Table, id: nat)
    requires InTable(t)
  {
    exists pane :: pane in t.at && t.at[pane] == id && !t.taps[id].closed
  }

  // The order in which a Go map is walked is anything.
  ghost predicate Lists(t: Table, ids: seq<nat>)
    requires InTable(t)
  {
    && (forall i, j :: 0 <= i < j < |ids| ==> ids[i] != ids[j])
    && (forall id :: id in ids <==> Held(t, id))
  }

  // finishReader, under its lock: no more taps are opened, and every open one is flagged.
  function MarkAll(t: Table, ids: seq<nat>): Table {
    t.(closed := true, phase := Reporting(ids, 0),
       taps := seq(|t.taps|, i requires 0 <= i < |t.taps| =>
         if i in ids then t.taps[i].(closed := true) else t.taps[i]))
  }

  // Then what each one lost is reported, then each channel is closed.
  function ReportNext(t: Table): Table
    requires InTable(t) && t.phase.Reporting?
  {
    var Reporting(ids, done) := t.phase;
    if done == |ids| then t.(phase := Shutting(ids, 0))
    else
      var p := t.taps[ids[done]];
      t.(phase := Reporting(ids, done + 1),
         taps := t.taps[ids[done] := p.(drops := 0, reported := p.reported + p.drops)])
  }

  function ShutNext(t: Table): Table
    requires InTable(t) && t.phase.Shutting?
  {
    var Shutting(ids, done) := t.phase;
    if done == |ids| then t.(phase := Down)
    else
      var p := t.taps[ids[done]];
      t.(phase := Shutting(ids, done + 1), taps := t.taps[ids[done] := p.(closes := p.closes + 1)])
  }

  datatype Op =
    | OutputOp(pane: string)
    | UntapOp(pane: string)
    | DeliverOp(pane: string, data: string)
    | TakeOp(id: nat)
    | CloseOp
    | MarkOp(ids: seq<nat>)
    | ReportOp
    | ShutOp

  // Only the reader delivers and tears down, and it does the one before the other.
  ghost predicate Enabled(t: Table, op: Op)
    requires InTable(t)
  {
    match op
    case DeliverOp(_, _) => t.phase == Reading
    case TakeOp(id) => id < |t.taps|
    case MarkOp(ids) => t.phase == Reading && Lists(t, ids)
    case ReportOp => t.phase.Reporting?
    case ShutOp => t.phase.Shutting?
    case _ => true
  }

  ghost function Step(t: Table, op: Op): Table
    requires InTable(t) && Enabled(t, op)
  {
    match op
    case OutputOp(pane) => Output(t, pane).0
    case UntapOp(pane) => Untap(t, pane)
    case DeliverOp(pane, data) => Deliver(t, pane, data).0
    case TakeOp(id) => TakeFrom(t, id)
    case CloseOp => t.(closed := true)
    case MarkOp(ids) => MarkAll(t, ids)
    case ReportOp => ReportNext(t)
    case ShutOp => ShutNext(t)
  }

  ghost predicate Run(t: Table, ops: seq<Op>, u: Table)
    decreases |ops|
  {
    if ops == [] then t == u
    else InTable(t) && Enabled(t, ops[0]) && Run(Step(t, ops[0]), ops[1..], u)
  }

  // --- What every run keeps -------------------------------------------------------------------

  // The taps flagged by the teardown whose channels it has yet to close, and whose losses it has
  // yet to report.
  ghost predicate ToShut(t: Table, id: nat) {
    match t.phase
    case Reporting(ids, _) => id in ids
    case Shutting(ids, done) => id in ids[Min(done, |ids|)..]
    case _ => false
  }

  ghost predicate ToReport(t: Table, id: nat) {
    match t.phase
    case Reporting(ids, done) => id in ids[Min(done, |ids|)..]
    case _ => false
  }

  ghost predicate Closing(t: Table, id: nat) {
    match t.phase
    case Reporting(ids, _) => id in ids
    case Shutting(ids, _) => id in ids
    case _ => false
  }

  function Min(a: nat, b: nat): nat {
    if a < b then a else b
  }

  ghost predicate Distinct(ids: seq<nat>) {
    forall i, j :: 0 <= i < j < |ids| ==> ids[i] != ids[j]
  }

  ghost predicate TapInv(t: Table, id: nat)
    requires id < |t.taps|
  {
    var p := t.taps[id];
    && p.lateSends == 0
    && p.closes <= 1
    && p.total == p.drops + p.reported
    && |p.buffer| <= p.size && p.size == t.size
    && (p.closed <==> p.closes == 1 || ToShut(t, id))
    && (ToShut(t, id) ==> p.closes == 0)
    && (Closing(t, id) && !ToReport(t, id) ==> p.drops == 0)
  }

  ghost predicate Inv(t: Table) {
    && InTable(t)
    && (forall id :: 0 <= id < |t.taps| ==> TapInv(t, id))
    && (forall id :: 0 <= id < |t.taps| ==>
          t.taps[id].closed || (t.taps[id].pane in t.at && t.at[t.taps[id].pane] == id))
    && (t.phase != Reading ==> t.closed && forall id :: 0 <= id < |t.taps| ==> t.taps[id].closed)
    && match t.phase
       case Reporting(ids, _) => Distinct(ids)
       case Shutting(ids, _) => Distinct(ids)
       case _ => true
  }

  lemma OutputKeeps(t: Table, pane: string)
    requires Inv(t)
    ensures Inv(Output(t, pane).0)
  {
    var u := Output(t, pane).0;
    forall k | 0 <= k < |u.taps| ensures TapInv(u, k) {
      if k < |t.taps| {
        assert TapInv(t, k) && u.taps[k] == t.taps[k];
      } else {
        assert !ToShut(u, k) && !Closing(u, k);
      }
    }
  }

  lemma UntapKeeps(t: Table, pane: string)
    requires Inv(t)
    ensures Inv(Untap(t, pane))
  {
    var u := Untap(t, pane);
    if u != t {
      var id := t.at[pane];
      assert TapInv(t, id);
      forall k | 0 <= k < |u.taps| ensures TapInv(u, k) {
        assert TapInv(t, k);
      }
    }
  }

  lemma DeliverKeeps(t: Table, pane: string, data: string)
    requires Inv(t) && t.phase == Reading
    ensures Inv(Deliver(t, pane, data).0)
  {
    var u := Deliver(t, pane, data).0;
    forall k | 0 <= k < |u.taps| ensures TapInv(u, k) {
      assert TapInv(t, k);
    }
  }

  lemma TakeKeeps(t: Table, id: nat)
    requires Inv(t) && id < |t.taps|
    ensures Inv(TakeFrom(t, id))
  {
    var u := TakeFrom(t, id);
    forall k | 0 <= k < |u.taps| ensures TapInv(u, k) {
      assert TapInv(t, k);
    }
  }

  lemma MarkKeeps(t: Table, ids: seq<nat>)
    requires Inv(t) && t.phase == Reading && Lists(t, ids)
    ensures Inv(MarkAll(t, ids))
  {
    var u := MarkAll(t, ids);
    forall i | 0 <= i < |ids| ensures ids[i] < |t.taps| {
      assert Held(t, ids[i]);
    }
    assert ids[Min(0, |ids|)..] == ids;
    forall k | 0 <= k < |u.taps| ensures TapInv(u, k) && u.taps[k].closed {
      assert TapInv(t, k);
      assert k in ids <==> Held(t, k);
      assert !t.taps[k].closed ==> t.at[t.taps[k].pane] == k;
    }
  }

  lemma ReportTap(t: Table, k: nat)
    requires Inv(t) && t.phase.Reporting? && t.phase.done < |t.phase.closing| && k < |t.taps|
    ensures TapInv(ReportNext(t), k)
  {
    var ids, done := t.phase.closing, t.phase.done;
    assert TapInv(t, k);
    OneFewer(ids, done, k);
    assert ToShut(ReportNext(t), k) == ToShut(t, k) && Closing(ReportNext(t), k) == Closing(t, k);
  }

  lemma OneFewer(ids: seq<nat>, done: nat, k: nat)
    requires done < |ids| && Distinct(ids)
    ensures k in ids[done + 1..] <==> k in ids[done..] && k != ids[done]
  {
    assert ids[done..] == [ids[done]] + ids[done + 1..];
  }

  lemma ReportKeeps(t: Table)
    requires Inv(t) && t.phase.Reporting?
    ensures Inv(ReportNext(t))
  {
    var ids, done, u := t.phase.closing, t.phase.done, ReportNext(t);
    assert done == |ids| ==> ids[Min(0, |ids|)..] == ids && ids[done..] == [];
    forall k | 0 <= k < |u.taps| ensures TapInv(u, k) {
      if done < |ids| {
        ReportTap(t, k);
      } else {
        assert TapInv(t, k);
      }
    }
  }

  lemma ShutTap(t: Table, k: nat)
    requires Inv(t) && t.phase.Shutting? && t.phase.done < |t.phase.closing| && k < |t.taps|
    ensures TapInv(ShutNext(t), k)
  {
    var ids, done := t.phase.closing, t.phase.done;
    assert TapInv(t, k);
    OneFewer(ids, done, k);
  }

  lemma ShutKeeps(t: Table)
    requires Inv(t) && t.phase.Shutting?
    ensures Inv(ShutNext(t))
  {
    var ids, done, u := t.phase.closing, t.phase.done, ShutNext(t);
    assert done == |ids| ==> ids[done..] == [];
    forall k | 0 <= k < |u.taps| ensures TapInv(u, k) {
      if done < |ids| {
        ShutTap(t, k);
      } else {
        assert TapInv(t, k);
      }
    }
  }

  lemma StepKeeps(t: Table, op: Op)
    requires Inv(t) && Enabled(t, op)
    ensures Inv(Step(t, op))
  {
    match op
    case OutputOp(pane) => OutputKeeps(t, pane);
    case UntapOp(pane) => UntapKeeps(t, pane);
    case DeliverOp(pane, data) => DeliverKeeps(t, pane, data);
    case TakeOp(id) => TakeKeeps(t, id);
    case CloseOp =>
      forall k | 0 <= k < |t.taps| ensures TapInv(t.(closed := true), k) {
        assert TapInv(t, k);
      }
    case MarkOp(ids) => MarkKeeps(t, ids);
    case ReportOp => ReportKeeps(t);
    case ShutOp => ShutKeeps(t);
  }

  lemma {:induction false} RunKeeps(t: Table, ops: seq<Op>, u: Table)
    requires Inv(t) && Run(t, ops, u)
    ensures Inv(u)
    decreases |ops|
  {
    if ops != [] {
      StepKeeps(t, ops[0]);
      RunKeeps(Step(t, ops[0]), ops[1..], u);
    }
  }

  lemma {:induction false} RunSnoc(t: Table, ops: seq<Op>, u: Table, op: Op)
    requires Run(t, ops, u) && InTable(u) && Enabled(u, op)
    ensures Run(t, ops + [op], Step(u, op))
    decreases |ops|
  {
    if ops == [] {
      assert ([] + [op])[1..] == [];
    } else {
      RunSnoc(Step(t, ops[0]), ops[1..], u, op);
      assert (ops + [op])[0] == ops[0] && (ops + [op])[1..] == ops[1..] + [op];
    }
  }

  /** Over every interleaving: nothing is ever sent on a closed tap channel, no channel is closed
      twice, a tap's total is what is still owed plus what was reported for it; and once the
      teardown is done every tap ever handed out has been closed, exactly once. */
  lemma TapsAreClosedOnce(size: nat, ops: seq<Op>, t: Table, id: nat)
    requires Run(Start(size), ops, t) && id < |t.taps|
    ensures var p := t.taps[id];
            && p.lateSends == 0 && p.closes <= 1
            && p.total == p.drops + p.reported
            && (t.phase == Down ==> p.closes == 1)
  {
    RunKeeps(Start(size), ops, t);
    assert TapInv(t, id);
  }

  predicate Content(p: Tap) {
    p.taken + p.buffer == KeptOf(p.slots) && p.total == |p.slots| - |KeptOf(p.slots)|
  }

  ghost predicate Contents(t: Table) {
    forall id :: 0 <= id < |t.taps| ==> Content(t.taps[id])
  }

  lemma SendContent(p: Tap, data: string)
    requires Content(p)
    ensures Content(Send(p, data).0)
  {
    KeptSnoc(p.slots, Kept(data));
    KeptSnoc(p.slots, Lost(data));
  }

  lemma StepContent(t: Table, op: Op)
    requires InTable(t) && Enabled(t, op) && Contents(t)
    ensures Contents(Step(t, op))
  {
    match op
    case DeliverOp(pane, data) =>
      if pane in t.at {
        SendContent(t.taps[t.at[pane]], data);
      }
    case TakeOp(id) =>
      var p := t.taps[id];
      if p.buffer != [] {
        assert p.taken + [p.buffer[0]] + p.buffer[1..] == p.taken + p.buffer;
      }
    case _ =>
  }

  lemma {:induction false} RunContent(t: Table, ops: seq<Op>, u: Table)
    requires Run(t, ops, u) && Contents(t)
    ensures Contents(u)
    decreases |ops|
  {
    if ops != [] {
      StepContent(t, ops[0]);
      RunContent(Step(t, ops[0]), ops[1..], u);
    }
  }

  /** What a tap's consumer has received, with what is still in its channel, is every chunk that
      came while the tap was open but the ones counted as lost, in order. */
  lemma OnlyCountedLosses(size: nat, ops: seq<Op>, t: Table, id: nat)
    requires Run(Start(size), ops, t) && id < |t.taps|
    ensures var p := t.taps[id];
            && p.taken + p.buffer == KeptOf(p.slots)
            && p.total == |p.slots| - |KeptOf(p.slots)|
  {
    RunContent(Start(size), ops, t);
  }

  // The chunks that came for a pane.
  function ChunksFor(ops: seq<Op>, pane: string): seq<string> {
    if ops == [] then []
    else (if ops[0].DeliverOp? && ops[0].pane == pane then [ops[0].data] else []) + ChunksFor(ops[1..], pane)
  }

  lemma StepOffers(t: Table, op: Op, pane: string)
    requires Inv(t) && Enabled(t, op) && pane in t.at && !t.taps[t.at[pane]].closed
    requires op != UntapOp(pane) && !op.MarkOp? && t.phase == Reading
    ensures var u, id := Step(t, op), t.at[pane];
            && u.phase == Reading && pane in u.at && u.at[pane] == id && id < |u.taps| && !u.taps[id].closed
            && AllData(u.taps[id].slots) == AllData(t.taps[id].slots) + ChunksFor([op], pane)
  {
    var u, id := Step(t, op), t.at[pane];
    assert [op][1..] == [] && ChunksFor([op], pane) == if op.DeliverOp? && op.pane == pane then [op.data] else [];
    if op.DeliverOp? && op.pane == pane {
      assert AllData(u.taps[id].slots) == AllData(t.taps[id].slots) + [op.data];
    } else {
      assert AllData(t.taps[id].slots) + [] == AllData(t.taps[id].slots);
    }
  }

  /** And those are all of them: until it is untapped or the connection ends, a tap is offered every
      chunk that comes for its pane, in order, whatever else is going on. */
  lemma {:induction false} EveryChunkIsOffered(t: Table, ops: seq<Op>, u: Table, pane: string)
    requires Inv(t) && Run(t, ops, u) && t.phase == Reading && pane in t.at && !t.taps[t.at[pane]].closed
    requires forall i :: 0 <= i < |ops| ==> ops[i] != UntapOp(pane) && !ops[i].MarkOp?
    ensures pane in u.at && u.at[pane] == t.at[pane] && u.at[pane] < |u.taps|
    ensures AllData(u.taps[u.at[pane]].slots) == AllData(t.taps[t.at[pane]].slots) + ChunksFor(ops, pane)
    decreases |ops|
  {
    if ops != [] {
      StepKeeps(t, ops[0]);
      StepOffers(t, ops[0], pane);
      EveryChunkIsOffered(Step(t, ops[0]), ops[1..], u, pane);
      assert [ops[0]][1..] == [];
      assert ChunksFor(ops, pane) == ChunksFor([ops[0]], pane) + ChunksFor(ops[1..], pane);
    }
  }

  // A chunk for the pane, come while fewer than a tap holds were waiting in its tap.
  ghost predicate Fits(t: Table, op: Op, pane: string) {
    && op.DeliverOp? && op.pane == pane
    && pane in t.at && t.at[pane] < |t.taps| && |t.taps[t.at[pane]].buffer| < t.size
  }

  ghost function ChunksThatFit(t: Table, ops: seq<Op>, pane: string): seq<string>
    decreases |ops|
  {
    if ops == [] || !InTable(t) || !Enabled(t, ops[0]) then []
    else (if Fits(t, ops[0], pane) then [ops[0].data] else []) + ChunksThatFit(Step(t, ops[0]), ops[1..], pane)
  }

  // What has come to a tap, received or still waiting.
  function Arrived(p: Tap): seq<string> {
    p.taken + p.buffer
  }

  // From one tap to the other exactly these chunks arrived, of those that came.
  ghost predicate Gets(p: Tap, q: Tap, came: seq<string>, fit: seq<string>) {
    Arrived(q) == Arrived(p) + fit && q.total == p.total + |came| - |fit|
  }

  lemma StepGets(t: Table, op: Op, pane: string)
    requires Inv(t) && Enabled(t, op) && pane in t.at && !t.taps[t.at[pane]].closed
    requires op != UntapOp(pane) && !op.MarkOp? && t.phase == Reading
    ensures var u, id := Step(t, op), t.at[pane];
            && id < |u.taps|
            && Gets(t.taps[id], u.taps[id], ChunksFor([op], pane), if Fits(t, op, pane) then [op.data] else [])
  {
    var id := t.at[pane];
    var p := t.taps[id];
    assert TapInv(t, id);
    assert [op][1..] == [] && ChunksFor([op], pane) == if op.DeliverOp? && op.pane == pane then [op.data] else [];
    assert Arrived(p) + [] == Arrived(p);
    match op
    case DeliverOp(_, data) =>
      assert p.taken + (p.buffer + [data]) == p.taken + p.buffer + [data];
    case TakeOp(k) =>
      if k == id && p.buffer != [] {
        assert p.taken + [p.buffer[0]] + p.buffer[1..] == p.taken + p.buffer;
      }
    case _ =>
  }

  lemma GetsMore(p: Tap, q: Tap, r: Tap, came: seq<string>, fit: seq<string>, came': seq<string>, fit': seq<string>)
    requires Gets(p, q, came, fit) && Gets(q, r, came', fit')
    ensures Gets(p, r, came + came', fit + fit')
  {
    assert Arrived(p) + (fit + fit') == Arrived(p) + fit + fit';
  }

  /** A chunk is lost when, and only when, as many as the tap holds are waiting in it: over every run until
      the pane is untapped or the connection ends, exactly the other chunks for the pane arrive, in order,
      and each one lost is counted. */
  lemma {:induction false} ExactlyTheFittingArrive(t: Table, ops: seq<Op>, u: Table, pane: string)
    requires Inv(t) && Run(t, ops, u) && t.phase == Reading && pane in t.at && !t.taps[t.at[pane]].closed
    requires forall i :: 0 <= i < |ops| ==> ops[i] != UntapOp(pane) && !ops[i].MarkOp?
    ensures pane in u.at && u.at[pane] == t.at[pane] && u.at[pane] < |u.taps|
    ensures Gets(t.taps[t.at[pane]], u.taps[u.at[pane]], ChunksFor(ops, pane), ChunksThatFit(t, ops, pane))
    decreases |ops|
  {
    if ops == [] {
      assert Arrived(t.taps[t.at[pane]]) + [] == Arrived(t.taps[t.at[pane]]);
    } else {
      var v, id := Step(t, ops[0]), t.at[pane];
      StepKeeps(t, ops[0]);
      StepOffers(t, ops[0], pane);
      StepGets(t, ops[0], pane);
      ExactlyTheFittingArrive(v, ops[1..], u, pane);
      assert [ops[0]][1..] == [];
      assert ChunksFor(ops, pane) == ChunksFor([ops[0]], pane) + ChunksFor(ops[1..], pane);
      GetsMore(t.taps[id], v.taps[id], u.taps[id], ChunksFor([ops[0]], pane),
               if Fits(t, ops[0], pane) then [ops[0].data] else [],
               ChunksFor(ops[1..], pane), ChunksThatFit(v, ops[1..], pane));
    }
  }

  // A consumer that never leaves as many waiting as the tap holds when a chunk comes.
  ghost predicate KeepsUp(t: Table, ops: seq<Op>, pane: string)
    decreases |ops|
  {
    || ops == [] || !InTable(t) || !Enabled(t, ops[0])
    || ((ops[0].DeliverOp? && ops[0].pane == pane ==> Fits(t, ops[0], pane))
        && KeepsUp(Step(t, ops[0]), ops[1..], pane))
  }

  lemma {:induction false} AllFit(t: Table, ops: seq<Op>, u: Table, pane: string)
    requires Run(t, ops, u) && KeepsUp(t, ops, pane)
    ensures ChunksThatFit(t, ops, pane) == ChunksFor(ops, pane)
    decreases |ops|
  {
    if ops != [] {
      AllFit(Step(t, ops[0]), ops[1..], u, pane);
    }
  }

  /** A tap first asked for at any point of a run, whose consumer keeps up, gets every chunk that then comes
      for its pane, in order, and has lost none. */
  lemma KeepingUpLosesNothing(size: nat, before: seq<Op>, t: Table, pane: string, ops: seq<Op>, u: Table)
    requires Run(Start(size), before, t) && !t.closed && IsID(pane, '%') && pane !in t.at
    requires Run(Output(t, pane).0, ops, u) && KeepsUp(Output(t, pane).0, ops, pane)
    requires forall i :: 0 <= i < |ops| ==> ops[i] != UntapOp(pane) && !ops[i].MarkOp?
    ensures pane in u.at && u.at[pane] == |t.taps| < |u.taps|
    ensures var p := u.taps[|t.taps|];
            p.taken + p.buffer == ChunksFor(ops, pane) && p.total == 0 && p.drops == 0
  {
    var v := Output(t, pane).0;
    RunKeeps(Start(size), before, t);
    OutputKeeps(t, pane);
    ExactlyTheFittingArrive(v, ops, u, pane);
    AllFit(v, ops, u, pane);
    RunKeeps(v, ops, u);
    assert TapInv(u, |t.taps|);
    assert Arrived(v.taps[|t.taps|]) + ChunksFor(ops, pane) == ChunksFor(ops, pane);
  }

  /** A delivery that finds room puts the chunk last in the channel and gives up exactly what was owed; one
      that finds none leaves the channel as it was and owes one chunk more. No other tap is touched. */
  lemma DeliveryExactly(t: Table, pane: string, data: string)
    requires Inv(t) && t.phase == Reading && pane in t.at && !t.taps[t.at[pane]].closed
    ensures var (u, lost) := Deliver(t, pane, data);
            var id := t.at[pane];
            var p, q := t.taps[id], u.taps[id];
            && |u.taps| == |t.taps| && (forall k :: 0 <= k < |t.taps| && k != id ==> u.taps[k] == t.taps[k])
            && if |p.buffer| < t.size
               then q.buffer == p.buffer + [data] && lost == p.drops && q.drops == 0 && q.total == p.total
               else q.buffer == p.buffer && lost == 0 && q.drops == p.drops + 1 && q.total == p.total + 1
  {
    assert TapInv(t, t.at[pane]);
  }

  /** An untapped pane is forgotten and its tap closed; asked for again, it has a new tap, empty and, while
      the client is open, open. */
  lemma UntappedIsForgotten(t: Table, pane: string)
    requires Inv(t) && IsID(pane, '%')
    ensures var u := Untap(t, pane);
            var (v, id) := Output(u, pane);
            && pane !in u.at && (pane in t.at ==> u.taps[t.at[pane]].closed)
            && (forall other :: other in t.at && other != pane ==> other in u.at && u.at[other] == t.at[other])
            && id == Some(|t.taps|) && |v.taps| == |t.taps| + 1 && v.at[pane] == |t.taps|
            && v.taps[|t.taps|] == NewTap(t, pane) && v.taps[|t.taps|].closed == t.closed
            && Arrived(v.taps[|t.taps|]) == []
  {
  }

  // A pane that has a tap keeps it, whoever else asks, and nothing else has one.
  lemma AskedAgain(t: Table, pane: string)
    requires Inv(t)
    ensures var (u, id) := Output(t, pane);
            && (id.None? <==> !IsID(pane, '%')) && (id.None? ==> u == t)
            && (id.Some? ==> pane in u.at && u.at[pane] == id.value && Output(u, pane) == (u, id))
            && (IsID(pane, '%') && pane in t.at ==> u == t)
  {
  }

  // The last step of the teardown leaves nothing owed for the taps it closed.
  lemma NothingIsOwedForClosedTaps(size: nat, ops: seq<Op>, t: Table)
    requires Run(Start(size), ops, t) && t.phase.Shutting? && t.phase.done == |t.phase.closing|
    ensures InTable(t) && ShutNext(t).phase == Down
    ensures forall id :: id in t.phase.closing ==>
                           && id < |t.taps| && t.taps[id].drops == 0
                           && t.taps[id].total == t.taps[id].reported && t.taps[id].closes == 1
  {
    RunKeeps(Start(size), ops, t);
    forall id | id in t.phase.closing
      ensures id < |t.taps| && t.taps[id].drops == 0
              && t.taps[id].total == t.taps[id].reported && t.taps[id].closes == 1
    {
      assert TapInv(t, id);
    }
  }

  /** A tap first asked for once the client is closed, by Close or by the teardown, comes closed, and
      once the teardown has begun so does every other: ranging over it ends at once. */
  lemma LateTapComesClosed(size: nat, ops: seq<Op>, t: Table, pane: string)
    requires Run(Start(size), ops, t) && IsID(pane, '%')
    ensures var (u, id) := Output(t, pane);
            && id.Some? && id.value < |u.taps| && u.taps[id.value].pane == pane
            && ((t.closed && pane !in t.at) || t.phase != Reading ==> u.taps[id.value].closed)
            && (t.closed && pane !in t.at ==> u.taps[id.value].closes == 1)
  {
    RunKeeps(Start(size), ops, t);
  }
}
