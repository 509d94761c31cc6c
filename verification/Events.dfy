/** control_reader.go: the lossy, bounded event channel, its loss reports and its two reserved slots.
    The consumer may take events between any two looks the reader has at the channel. */
module Events {
  import opened Bytes
  import opened Protocol

  /** `size` is the buffer the caller asked for; the channel has two slots more. `taken` is what the
      consumer has received, `buffer` what is still in the channel. */
  datatype Stream = Stream(size: nat, taken: seq<Event>, buffer: seq<Event>, pending: nat, total: nat, closed: bool) {
    function Sent(): seq<Event> {
      taken + buffer
    }
  }

  function Fresh(size: nat): Stream {
    Stream(size, [], [], 0, 0, false)
  }

  function Min(a: nat, b: nat): nat {
    if a < b then a else b
  }

  // The consumer receives up to k events.
  function Take(s: Stream, k: nat): (t: Stream)
    ensures t.Sent() == s.Sent() && |t.buffer| <= |s.buffer| && t == s.(taken := t.taken, buffer := t.buffer)
  {
    var n := Min(k, |s.buffer|);
    if n == 0 then s else s.(taken := s.taken + s.buffer[..n], buffer := s.buffer[n..])
  }

  // A non-blocking send: it goes through while the channel has room.
  predicate HasRoom(s: Stream) {
    |s.buffer| < s.size + 2
  }

  function Push(s: Stream, ev: Event): Stream {
    s.(buffer := s.buffer + [ev])
  }

  // An event that found no room is counted, and owed to the next report.
  function Drop(s: Stream): Stream {
    s.(total := s.total + 1, pending := s.pending + 1)
  }

  // How many events the consumer takes at each of the points where it can get in.
  datatype Pops = Pops(beforeLen: nat, beforeSend: nat)

  function FlushDrops(s: Stream, p: Pops): Stream {
    if s.pending == 0 then s
    else
      var a := Take(s.(pending := 0), p.beforeLen);
      if |a.buffer| > s.size then a.(pending := s.pending)
      else
        var b := Take(a, p.beforeSend);
        if HasRoom(b) then Push(b, EventsDropped(s.pending)) else b.(pending := s.pending)
  }

  datatype Gaps = Gaps(flush: Pops, send: Pops, again: Pops)

  const QUIET := Gaps(Pops(0, 0), Pops(0, 0), Pops(0, 0))

  // The state emit looks at the channel in, once what was owed has been reported or not.
  function AtLen(s: Stream, g: Gaps): Stream {
    Take(FlushDrops(s, g.flush), g.send.beforeLen)
  }

  predicate Sends(s: Stream, g: Gaps) {
    |AtLen(s, g).buffer| < s.size && HasRoom(Take(AtLen(s, g), g.send.beforeSend))
  }

  function Emit(s: Stream, ev: Event, g: Gaps): Stream {
    var a := AtLen(s, g);
    if Sends(s, g) then Push(Take(a, g.send.beforeSend), ev)
    else FlushDrops(Drop(a), g.again)
  }

  function EmitReserved(s: Stream, ev: Event, pops: nat): Stream {
    var a := Take(s, pops);
    if HasRoom(a) then Push(a, ev) else a.(total := a.total + 1)
  }

  // --- Runs -------------------------------------------------------------------------------------

  datatype Op = Consume(k: nat) | Offer(ev: Event, gaps: Gaps)

  function Apply(s: Stream, op: Op): Stream {
    match op
    case Consume(k) => Take(s, k)
    case Offer(ev, g) => Emit(s, ev, g)
  }

  function Play(s: Stream, ops: seq<Op>): Stream {
    if ops == [] then s else Apply(Play(s, ops[..|ops| - 1]), ops[|ops| - 1])
  }

  // The events emit was given, in order.
  function Asked(ops: seq<Op>): seq<Event> {
    if ops == [] then []
    else Asked(ops[..|ops| - 1]) + if ops[|ops| - 1].Offer? then [ops[|ops| - 1].ev] else []
  }

  lemma AskedSnoc(ops: seq<Op>, op: Op)
    ensures Asked(ops + [op]) == Asked(ops) + if op.Offer? then [op.ev] else []
  {
    assert (ops + [op])[..|ops|] == ops;
  }

  // What became of each event offered: kept in its place, or a hole.
  datatype Slot = Kept(ev: Event) | Lost

  function SlotOf(s: Stream, ev: Event, g: Gaps): Slot {
    if Sends(s, g) then Kept(ev) else Lost
  }

  function Offered(s: Stream, ops: seq<Op>): seq<Slot> {
    if ops == [] then []
    else
      var k := |ops| - 1;
      var before := Offered(s, ops[..k]);
      if ops[k].Consume? then before else before + [SlotOf(Play(s, ops[..k]), ops[k].ev, ops[k].gaps)]
  }

  // Events the client offers are never themselves reports or the last word.
  predicate Ordinary(ev: Event) {
    !ev.EventsDropped? && !ev.Exited?
  }

  ghost predicate AllOrdinary(ops: seq<Op>) {
    forall i :: 0 <= i < |ops| ==> ops[i].Offer? ==> Ordinary(ops[i].ev)
  }

  function Holes(n: nat): seq<Slot> {
    seq(n, _ => Lost)
  }

  // A stream with each loss report replaced by as many holes as it reports.
  function Filled(sent: seq<Event>): seq<Slot> {
    if sent == [] then []
    else
      var ev := sent[|sent| - 1];
      Filled(sent[..|sent| - 1]) + if ev.EventsDropped? then Holes(ev.count) else [Kept(ev)]
  }

  function Reported(sent: seq<Event>): nat {
    if sent == [] then 0
    else
      var ev := sent[|sent| - 1];
      Reported(sent[..|sent| - 1]) + if ev.EventsDropped? then ev.count else 0
  }

  // The events themselves, without loss reports, and without holes.
  function Genuine(sent: seq<Event>): seq<Event> {
    if sent == [] then []
    else
      var ev := sent[|sent| - 1];
      Genuine(sent[..|sent| - 1]) + if ev.EventsDropped? then [] else [ev]
  }

  function KeptOf(slots: seq<Slot>): seq<Event> {
    if slots == [] then []
    else
      var s := slots[|slots| - 1];
      KeptOf(slots[..|slots| - 1]) + if s.Kept? then [s.ev] else []
  }

  lemma Snoc(sent: seq<Event>, ev: Event)
    ensures Filled(sent + [ev]) == Filled(sent) + if ev.EventsDropped? then Holes(ev.count) else [Kept(ev)]
    ensures Reported(sent + [ev]) == Reported(sent) + if ev.EventsDropped? then ev.count else 0
    ensures Genuine(sent + [ev]) == Genuine(sent) + if ev.EventsDropped? then [] else [ev]
  {
    assert (sent + [ev])[..|sent|] == sent;
  }

  lemma KeptSnoc(slots: seq<Slot>, s: Slot)
    ensures KeptOf(slots + [s]) == KeptOf(slots) + if s.Kept? then [s.ev] else []
  {
    assert (slots + [s])[..|slots|] == slots;
  }

  // --- What holds whatever the consumer does ------------------------------------------------------

  ghost predicate Sound(s: Stream, slots: seq<Slot>) {
    && |s.buffer| <= s.size + 1
    && s.total == Reported(s.Sent()) + s.pending
    && Genuine(s.Sent()) == KeptOf(slots)
    && (forall i :: 0 <= i < |s.Sent()| ==> !s.Sent()[i].Exited?)
    && !s.closed
  }

  // All that flushDrops does: a report of everything owed, after what was sent before, or nothing.
  lemma FlushSent(s: Stream, p: Pops)
    ensures var f := FlushDrops(s, p);
            && f == s.(taken := f.taken, buffer := f.buffer, pending := f.pending)
            && if f.pending == s.pending then f.Sent() == s.Sent() && |f.buffer| <= |s.buffer|
               else
                 && f.pending == 0 && f.Sent() == s.Sent() + [EventsDropped(s.pending)]
                 && |f.buffer| <= s.size + 1
  {
    if s.pending > 0 {
      var b := Take(Take(s.(pending := 0), p.beforeLen), p.beforeSend);
      assert Push(b, EventsDropped(s.pending)).Sent() == b.Sent() + [EventsDropped(s.pending)];
    }
  }

  lemma FlushSound(s: Stream, p: Pops, slots: seq<Slot>)
    requires Sound(s, slots)
    ensures Sound(FlushDrops(s, p), slots)
    ensures var f := FlushDrops(s, p);
            f == s.(taken := f.taken, buffer := f.buffer, pending := f.pending)
  {
    FlushSent(s, p);
    Snoc(s.Sent(), EventsDropped(s.pending));
  }

  lemma PushSound(s: Stream, ev: Event, slots: seq<Slot>)
    requires Sound(s, slots) && Ordinary(ev) && |s.buffer| < s.size
    ensures Sound(Push(s, ev), slots + [Kept(ev)])
  {
    KeptSnoc(slots, Kept(ev));
    Snoc(s.Sent(), ev);
    assert Push(s, ev).Sent() == s.Sent() + [ev];
  }

  lemma DropSound(s: Stream, slots: seq<Slot>)
    requires Sound(s, slots)
    ensures Sound(Drop(s), slots + [Lost])
  {
    KeptSnoc(slots, Lost);
    assert Drop(s).Sent() == s.Sent();
  }

  lemma EmitSound(s: Stream, ev: Event, g: Gaps, slots: seq<Slot>)
    requires Sound(s, slots) && Ordinary(ev)
    ensures Sound(Emit(s, ev, g), slots + [SlotOf(s, ev, g)])
    ensures Emit(s, ev, g).size == s.size
  {
    FlushSound(s, g.flush, slots);
    var a := AtLen(s, g);
    assert Sound(a, slots);
    if Sends(s, g) {
      PushSound(Take(a, g.send.beforeSend), ev, slots);
    } else {
      DropSound(a, slots);
      FlushSound(Drop(a), g.again, slots + [Lost]);
    }
  }

  lemma {:induction false} PlaySound(size: nat, ops: seq<Op>)
    requires AllOrdinary(ops)
    ensures Sound(Play(Fresh(size), ops), Offered(Fresh(size), ops))
    ensures Play(Fresh(size), ops).size == size
  {
    if ops != [] {
      var k := |ops| - 1;
      PlaySound(size, ops[..k]);
      var s, slots := Play(Fresh(size), ops[..k]), Offered(Fresh(size), ops[..k]);
      match ops[k]
      case Consume(_) =>
      case Offer(ev, g) => EmitSound(s, ev, g, slots);
    }
  }

  /** Whatever the consumer takes and whenever it gets in: nothing ever blocks, since an ordinary
      send never finds the channel full; the events that were kept arrive in order, each once; and
      the losses counted are the losses reported plus the ones still owed. */
  lemma LossesAreAccountedFor(size: nat, ops: seq<Op>)
    requires AllOrdinary(ops)
    ensures var s := Play(Fresh(size), ops);
            && |s.buffer| <= size + 1
            && s.total == Reported(s.Sent()) + s.pending
            && Genuine(s.Sent()) == KeptOf(Offered(Fresh(size), ops))
  {
    PlaySound(size, ops);
  }

  // --- When an event is lost, and when that is said -------------------------------------------------

  // What is owed is reported as soon as no more wait than the caller asked room for.
  lemma FlushExactly(s: Stream, p: Pops)
    requires |s.buffer| <= s.size + 1
    ensures var f := FlushDrops(s, p);
            if s.pending > 0 && |Take(s, p.beforeLen).buffer| <= s.size
            then f.pending == 0 && f.Sent() == s.Sent() + [EventsDropped(s.pending)]
            else f.pending == s.pending && f.Sent() == s.Sent()
  {
    FlushSent(s, p);
    if s.pending > 0 {
      var a := Take(s.(pending := 0), p.beforeLen);
      assert a.buffer == Take(s, p.beforeLen).buffer;
      assert HasRoom(Take(a, p.beforeSend)) || |a.buffer| > s.size;
    }
  }

  /** An event is lost when, and only when, emit finds as many waiting as the caller asked room for; if not it
      is the last thing sent, and if so it is counted once. */
  lemma EmitExactly(s: Stream, ev: Event, g: Gaps)
    requires |s.buffer| <= s.size + 1
    ensures var f, t := FlushDrops(s, g.flush), Emit(s, ev, g);
            && (Sends(s, g) <==> |Take(f, g.send.beforeLen).buffer| < s.size)
            && (if Sends(s, g) then t.Sent() == f.Sent() + [ev] && t.total == s.total
                else f.Sent() <= t.Sent() && t.total == s.total + 1)
  {
    FlushSent(s, g.flush);
    var a := AtLen(s, g);
    if Sends(s, g) {
      var b := Take(a, g.send.beforeSend);
      assert Push(b, ev).Sent() == b.Sent() + [ev];
    } else {
      FlushSent(Drop(a), g.again);
      DropSent(FlushDrops(s, g.flush), g.send.beforeLen);
    }
  }

  /** After any emit losses are still owed only if the channel is full but for the slot of the terminal
      event, or the event went past them. */
  lemma OwedOnlyWhileFull(s: Stream, ev: Event, g: Gaps)
    requires |s.buffer| <= s.size + 1
    ensures var t := Emit(s, ev, g); t.pending > 0 ==> |t.buffer| == s.size + 1 || Overtakes(s, g)
  {
    OvertakesWhen(s, g);
    FlushSent(s, g.flush);
    if !Sends(s, g) {
      var d := Drop(AtLen(s, g));
      if FlushDrops(d, g.again).pending > 0 {
        FlushFull(d, g.again);
      }
    }
  }

  lemma FlushFull(s: Stream, p: Pops)
    requires s.pending > 0 && |s.buffer| <= s.size + 1 && FlushDrops(s, p).pending > 0
    ensures |FlushDrops(s, p).buffer| == s.size + 1
  {
  }

  // A consumer that never leaves as many waiting, when an event is offered, as the caller asked room for.
  ghost predicate KeepsUp(s: Stream, ops: seq<Op>) {
    forall i :: 0 <= i < |ops| && ops[i].Offer? ==> |Play(s, ops[..i]).buffer| < s.size
  }

  lemma EmitInRoom(s: Stream, ev: Event, g: Gaps)
    requires s.pending == 0 && |s.buffer| < s.size
    ensures var t := Emit(s, ev, g);
            t.Sent() == s.Sent() + [ev] && t.pending == 0 && t.total == s.total && t.size == s.size
  {
    var b := Take(AtLen(s, g), g.send.beforeSend);
    assert Push(b, ev).Sent() == b.Sent() + [ev];
  }

  /** For such a consumer every event offered is sent, in order, with nothing in between and no loss. */
  lemma {:induction false} KeepingUpLosesNothing(size: nat, ops: seq<Op>)
    requires KeepsUp(Fresh(size), ops)
    ensures var s := Play(Fresh(size), ops);
            s.Sent() == Asked(ops) && s.pending == 0 && s.total == 0 && s.size == size
  {
    if ops != [] {
      var k := |ops| - 1;
      var before := ops[..k];
      forall i | 0 <= i < k && before[i].Offer? ensures |Play(Fresh(size), before[..i]).buffer| < size {
        assert before[..i] == ops[..i];
      }
      KeepingUpLosesNothing(size, before);
      if ops[k].Offer? {
        assert ops[..k] == before;
        EmitInRoom(Play(Fresh(size), before), ops[k].ev, ops[k].gaps);
      }
    }
  }

  // --- Order, and what breaks it ------------------------------------------------------------------

  /** Losses are owed, the channel is full but for the slot kept for the terminal event, the consumer
      takes nothing until flushDrops has looked at it, and two events or more before emit looks too. */
  predicate Overtakes(s: Stream, g: Gaps) {
    && s.pending > 0
    && s.size > 0 && |s.buffer| == s.size + 1
    && g.flush.beforeLen == 0 && g.send.beforeLen >= 2
  }

  // That is when, and only when, an event goes out while losses before it are still owed.
  lemma OvertakesWhen(s: Stream, g: Gaps)
    requires |s.buffer| <= s.size + 1
    ensures Overtakes(s, g) <==> Sends(s, g) && FlushDrops(s, g.flush).pending > 0
  {
    if s.pending > 0 {
      var a := Take(s.(pending := 0), g.flush.beforeLen);
      assert |a.buffer| <= s.size <==> |s.buffer| <= s.size || g.flush.beforeLen > 0;
    }
  }

  ghost predicate InOrder(s: Stream, slots: seq<Slot>) {
    Filled(s.Sent()) + Holes(s.pending) == slots
  }

  // The two already differ at a place both have reached, so they always will.
  ghost predicate OutOfOrder(s: Stream, slots: seq<Slot>) {
    exists i :: 0 <= i < |Filled(s.Sent())| && i < |slots| && Filled(s.Sent())[i] != slots[i]
  }

  lemma FlushOrder(s: Stream, p: Pops)
    ensures var f := FlushDrops(s, p);
            && Filled(f.Sent()) + Holes(f.pending) == Filled(s.Sent()) + Holes(s.pending)
            && Filled(s.Sent()) <= Filled(f.Sent())
            && (f.pending == 0 || f.pending == s.pending)
            && (f.pending > 0 ==> f.Sent() == s.Sent())
  {
    FlushSent(s, p);
    Snoc(s.Sent(), EventsDropped(s.pending));
  }

  lemma PushOrder(s: Stream, ev: Event)
    requires Ordinary(ev)
    ensures Filled(Push(s, ev).Sent()) == Filled(s.Sent()) + [Kept(ev)]
  {
    Snoc(s.Sent(), ev);
    assert Push(s, ev).Sent() == s.Sent() + [ev];
  }

  // What one emit adds to the filled-in stream: nothing is ever rewritten.
  lemma SendExtends(s: Stream, ev: Event, g: Gaps)
    requires Ordinary(ev) && Sends(s, g)
    ensures var f, t := FlushDrops(s, g.flush), Emit(s, ev, g);
            Filled(t.Sent()) == Filled(f.Sent()) + [Kept(ev)] && t.pending == f.pending
  {
    PushOrder(Take(AtLen(s, g), g.send.beforeSend), ev);
  }

  lemma DropExtends(s: Stream, ev: Event, g: Gaps)
    requires !Sends(s, g)
    ensures var f, t := FlushDrops(s, g.flush), Emit(s, ev, g);
            && Filled(f.Sent()) <= Filled(t.Sent())
            && Filled(t.Sent()) + Holes(t.pending) == Filled(f.Sent()) + Holes(f.pending) + [Lost]
  {
    var f, d := FlushDrops(s, g.flush), Drop(AtLen(s, g));
    assert Emit(s, ev, g) == FlushDrops(d, g.again);
    DropSent(f, g.send.beforeLen);
    FlushOrder(d, g.again);
    OneMoreHole(Filled(f.Sent()), f.pending);
  }

  lemma DropSent(s: Stream, k: nat)
    ensures var d := Drop(Take(s, k)); d.Sent() == s.Sent() && d.pending == s.pending + 1
  {
  }

  lemma OneMoreHole(filled: seq<Slot>, owed: nat)
    ensures filled + Holes(owed + 1) == filled + Holes(owed) + [Lost]
  {
    assert Holes(owed + 1) == Holes(owed) + [Lost];
  }

  lemma EmitInOrder(s: Stream, ev: Event, g: Gaps, slots: seq<Slot>)
    requires Ordinary(ev) && InOrder(s, slots) && |s.buffer| <= s.size + 1
    ensures var t, more := Emit(s, ev, g), slots + [SlotOf(s, ev, g)];
            if Overtakes(s, g) then OutOfOrder(t, more) else InOrder(t, more)
  {
    OvertakesWhen(s, g);
    FlushOrder(s, g.flush);
    var f := FlushDrops(s, g.flush);
    if Sends(s, g) {
      SendExtends(s, ev, g);
      SendOrder(Emit(s, ev, g), Filled(f.Sent()), f.pending, ev, slots);
    } else {
      DropExtends(s, ev, g);
    }
  }

  lemma SendOrder(t: Stream, filled: seq<Slot>, owed: nat, ev: Event, slots: seq<Slot>)
    requires filled + Holes(owed) == slots
    requires Filled(t.Sent()) == filled + [Kept(ev)] && t.pending == owed
    ensures if owed > 0 then OutOfOrder(t, slots + [Kept(ev)]) else InOrder(t, slots + [Kept(ev)])
  {
    var more := slots + [Kept(ev)];
    if owed > 0 {
      assert more[|filled|] == Lost && Filled(t.Sent())[|filled|] == Kept(ev);
    } else {
      assert Holes(0) == [] && filled + [] == filled;
      assert Filled(t.Sent()) + [] == more;
    }
  }

  lemma EmitOutOfOrder(s: Stream, ev: Event, g: Gaps, slots: seq<Slot>)
    requires Ordinary(ev) && OutOfOrder(s, slots)
    ensures OutOfOrder(Emit(s, ev, g), slots + [SlotOf(s, ev, g)])
  {
    FlushOrder(s, g.flush);
    if Sends(s, g) {
      SendExtends(s, ev, g);
    } else {
      DropExtends(s, ev, g);
    }
    var t, more := Emit(s, ev, g), slots + [SlotOf(s, ev, g)];
    var i :| 0 <= i < |Filled(s.Sent())| && i < |slots| && Filled(s.Sent())[i] != slots[i];
    assert Filled(t.Sent())[i] == Filled(s.Sent())[i] && more[i] == slots[i];
  }

  ghost predicate NoneOvertakes(s: Stream, ops: seq<Op>) {
    forall i :: 0 <= i < |ops| && ops[i].Offer? ==> !Overtakes(Play(s, ops[..i]), ops[i].gaps)
  }

  lemma NoneOvertakesSnoc(s: Stream, ops: seq<Op>)
    requires ops != []
    ensures var k := |ops| - 1;
            NoneOvertakes(s, ops) <==>
            NoneOvertakes(s, ops[..k]) && (ops[k].Offer? ==> !Overtakes(Play(s, ops[..k]), ops[k].gaps))
  {
    var k := |ops| - 1;
    assert forall i :: 0 <= i < k ==> ops[..k][i] == ops[i] && ops[..k][..i] == ops[..i];
  }

  lemma {:induction false} PlayOrder(size: nat, ops: seq<Op>)
    requires AllOrdinary(ops)
    ensures var s := Fresh(size);
            var t, slots := Play(s, ops), Offered(s, ops);
            if NoneOvertakes(s, ops) then InOrder(t, slots) else OutOfOrder(t, slots)
  {
    var s := Fresh(size);
    if ops != [] {
      var k := |ops| - 1;
      PlaySound(size, ops[..k]);
      PlayOrder(size, ops[..k]);
      NoneOvertakesSnoc(s, ops);
      var before, slots := Play(s, ops[..k]), Offered(s, ops[..k]);
      match ops[k]
      case Consume(_) =>
      case Offer(ev, g) =>
        if NoneOvertakes(s, ops[..k]) {
          EmitInOrder(before, ev, g, slots);
        } else {
          EmitOutOfOrder(before, ev, g, slots);
        }
    }
  }

  lemma OrderIsNotBoth(s: Stream, slots: seq<Slot>)
    requires OutOfOrder(s, slots)
    ensures !InOrder(s, slots)
  {
    var i :| 0 <= i < |Filled(s.Sent())| && i < |slots| && Filled(s.Sent())[i] != slots[i];
    assert (Filled(s.Sent()) + Holes(s.pending))[i] == Filled(s.Sent())[i];
  }

  /** Put as many holes as each report says in its place, and what is still owed at the end: that is
      the sequence of events offered with the dropped ones as holes, in order, exactly when emit was
      never called on a full channel with losses owed and a consumer that took two events or more
      between its two looks and none before. */
  lemma HolesAreWhereTheLossesWere(size: nat, ops: seq<Op>)
    requires AllOrdinary(ops)
    ensures InOrder(Play(Fresh(size), ops), Offered(Fresh(size), ops)) <==> NoneOvertakes(Fresh(size), ops)
  {
    PlayOrder(size, ops);
    if !NoneOvertakes(Fresh(size), ops) {
      OrderIsNotBoth(Play(Fresh(size), ops), Offered(Fresh(size), ops));
    }
  }

  // A consumer that takes at most one event between emit's two looks at the channel, as one that
  // takes events only between emits does.
  ghost predicate Unhurried(ops: seq<Op>) {
    forall i :: 0 <= i < |ops| && ops[i].Offer? ==> ops[i].gaps.send.beforeLen <= 1
  }

  /** For such a consumer the holes are where the losses were, over every run. */
  lemma UnhurriedRunsKeepOrder(size: nat, ops: seq<Op>)
    requires AllOrdinary(ops) && Unhurried(ops)
    ensures InOrder(Play(Fresh(size), ops), Offered(Fresh(size), ops))
  {
    HolesAreWhereTheLossesWere(size, ops);
    assert NoneOvertakes(Fresh(size), ops);
  }

  // What an undisturbed emit with nothing owed makes of a channel with room, of a full one, and of one
  // that is full up to the slot for the terminal event.
  lemma QuietEmit(s: Stream, ev: Event)
    requires s.pending == 0 && s.size > 0 && |s.buffer| <= s.size + 1
    ensures Emit(s, ev, QUIET) ==
            if |s.buffer| < s.size then Push(s, ev)
            else if |s.buffer| == s.size then Push(s.(total := s.total + 1), EventsDropped(1))
            else Drop(s)
    ensures SlotOf(s, ev, QUIET) == if |s.buffer| < s.size then Kept(ev) else Lost
  {
  }

  const TAKES_TWO := Gaps(Pops(0, 0), Pops(2, 0), Pops(0, 0))

  lemma TakeAll(s: Stream, k: nat)
    requires k >= |s.buffer|
    ensures Take(s, k) == s.(taken := s.taken + s.buffer, buffer := [])
  {
    assert s.buffer[..|s.buffer|] == s.buffer && s.buffer[|s.buffer|..] == [];
  }

  lemma FlushNothing(s: Stream, p: Pops)
    requires |s.buffer| > s.size && p.beforeLen == 0
    ensures FlushDrops(s, p) == s
  {
  }

  // Of a full channel of two, with a loss owed, the consumer takes both, and the event goes in.
  lemma EmitPastLoss(s: Stream, ev: Event)
    requires s.pending > 0 && s.size == 1 && |s.buffer| == 2
    ensures Emit(s, ev, TAKES_TWO) == s.(taken := s.taken + s.buffer, buffer := [ev])
    ensures SlotOf(s, ev, TAKES_TWO) == Kept(ev)
  {
    FlushNothing(s, Pops(0, 0));
    TakeAll(s, 2);
    var a := s.(taken := s.taken + s.buffer, buffer := []);
    assert AtLen(s, TAKES_TWO) == a;
  }

  // Such a consumer can misplace them: the loss of the second event is reported after the third.
  lemma AnEventOvertakes(a: Event, b: Event, c: Event)
    requires Ordinary(a) && Ordinary(b) && Ordinary(c)
    ensures var ops := [Offer(a, QUIET), Offer(b, QUIET), Offer(b, QUIET), Offer(c, TAKES_TWO)];
            var s := Play(Fresh(1), ops);
            && s.Sent() == [a, EventsDropped(1), c]
            && Offered(Fresh(1), ops) == [Kept(a), Lost, Lost, Kept(c)]
            && s.pending == 1
  {
    TwoAreLost(a, b);
    var s3 := Stream(1, [], [a, EventsDropped(1)], 1, 2, false);
    var s4 := Stream(1, [a, EventsDropped(1)], [c], 1, 2, false);
    EmitPastLoss(s3, c);
    assert [] + [a, EventsDropped(1)] == [a, EventsDropped(1)];
    var o, p, q := Offer(a, QUIET), Offer(b, QUIET), Offer(c, TAKES_TWO);
    assert [o, p, p] + [q] == [o, p, p, q];
    OneMore(Fresh(1), [o, p, p], q, s3, s4, [Kept(a), Lost, Lost], Kept(c));
  }

  // A channel of one, and nobody there: the first of three events is kept, and the second loss is owed.
  lemma TwoAreLost(a: Event, b: Event)
    requires Ordinary(a) && Ordinary(b)
    ensures var ops := [Offer(a, QUIET), Offer(b, QUIET), Offer(b, QUIET)];
            && Play(Fresh(1), ops) == Stream(1, [], [a, EventsDropped(1)], 1, 2, false)
            && Offered(Fresh(1), ops) == [Kept(a), Lost, Lost]
  {
    var s2, s3 := Stream(1, [], [a, EventsDropped(1)], 0, 1, false), Stream(1, [], [a, EventsDropped(1)], 1, 2, false);
    OneIsLost(a, b);
    QuietEmit(s2, b);
    var o, p := Offer(a, QUIET), Offer(b, QUIET);
    assert [o, p] + [p] == [o, p, p];
    OneMore(Fresh(1), [o, p], p, s2, s3, [Kept(a), Lost], Lost);
  }

  lemma OneIsLost(a: Event, b: Event)
    requires Ordinary(a) && Ordinary(b)
    ensures var ops := [Offer(a, QUIET), Offer(b, QUIET)];
            && Play(Fresh(1), ops) == Stream(1, [], [a, EventsDropped(1)], 0, 1, false)
            && Offered(Fresh(1), ops) == [Kept(a), Lost]
  {
    var s0, s1 := Fresh(1), Stream(1, [], [a], 0, 0, false);
    QuietEmit(s0, a);
    QuietEmit(s1, b);
    assert Push(s0, a) == s1 && Push(s1.(total := 1), EventsDropped(1)).buffer == [a, EventsDropped(1)];
    var o, p := Offer(a, QUIET), Offer(b, QUIET);
    assert [] + [o] == [o] && [o] + [p] == [o, p];
    OneMore(s0, [], o, s0, s1, [], Kept(a));
    OneMore(s0, [o], p, s1, Stream(1, [], [a, EventsDropped(1)], 0, 1, false), [Kept(a)], Lost);
  }

  // One more offer, after a run that left the channel so.
  lemma OneMore(s: Stream, ops: seq<Op>, op: Op, before: Stream, after: Stream, slots: seq<Slot>, slot: Slot)
    requires op.Offer? && Play(s, ops) == before && Offered(s, ops) == slots
    requires Emit(before, op.ev, op.gaps) == after && SlotOf(before, op.ev, op.gaps) == slot
    ensures Play(s, ops + [op]) == after && Offered(s, ops + [op]) == slots + [slot]
  {
    PlaysTo(s, ops, op);
  }

  lemma PlaysTo(s: Stream, ops: seq<Op>, op: Op)
    ensures Play(s, ops + [op]) == Apply(Play(s, ops), op)
    ensures Offered(s, ops + [op]) ==
            if op.Consume? then Offered(s, ops) else Offered(s, ops) + [SlotOf(Play(s, ops), op.ev, op.gaps)]
  {
    assert (ops + [op])[..|ops|] == ops;
  }

  // --- Teardown -----------------------------------------------------------------------------------

  // finishReader's last words: the taps' losses, the terminal event into its reserved slot, close.
  function TearDown(s: Stream, reports: seq<Op>, exit: Event, pops: nat): Stream {
    EmitReserved(Play(s, reports), exit, pops).(closed := true)
  }

  lemma LastSent(before: Stream, exit: Event, pops: nat)
    requires |before.buffer| <= before.size + 1 && exit.Exited?
    requires forall i :: 0 <= i < |before.Sent()| ==> !before.Sent()[i].Exited?
    requires before.total == Reported(before.Sent()) + before.pending
    ensures var sent, last := before.Sent(), EmitReserved(before, exit, pops);
            && last.Sent() == sent + [exit]
            && (forall i :: 0 <= i < |sent| + 1 ==> ((sent + [exit])[i].Exited? <==> i == |sent|))
            && last.total == Reported(sent + [exit]) + before.pending
  {
    var a := Take(before, pops);
    assert Push(a, exit).Sent() == a.Sent() + [exit];
    Snoc(before.Sent(), exit);
  }

  /** Over every run and every consumer, the terminal event is delivered, once and last, and losses
      counted but never reported are exactly the ones still owed when it was. */
  lemma ExitIsDelivered(size: nat, ops: seq<Op>, exit: Event, pops: nat)
    requires AllOrdinary(ops) && exit.Exited?
    ensures var before, s := Play(Fresh(size), ops), TearDown(Fresh(size), ops, exit, pops);
            && s.Sent() == before.Sent() + [exit]
            && (forall i :: 0 <= i < |s.Sent()| ==> (s.Sent()[i].Exited? <==> i == |s.Sent()| - 1))
            && s.total == Reported(s.Sent()) + before.pending
  {
    PlaySound(size, ops);
    LastSent(Play(Fresh(size), ops), exit, pops);
  }
}
