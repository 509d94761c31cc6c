/** The event channel as the reader works it: a buffer and two counters changed step by step, with
    the consumer getting in wherever it can. Proved against Events, whose laws then hold of it. */
module Channel {
  import opened Protocol
  import E = Events

  class EventChannel {
    const size: nat
    var buffer: seq<Event>
    var closed: bool
    var pendingDrops: nat
    var totalDrops: nat
    ghost var taken: seq<Event>      // what the consumer has received
    ghost var played: seq<E.Op>      // what emit was asked for, and what the consumer did between

    ghost function Value(): E.Stream
      reads this
    {
      E.Stream(size, taken, buffer, pendingDrops, totalDrops, closed)
    }

    // The channel is where a run of Events would have left it.
    ghost predicate Valid()
      reads this
    {
      E.AllOrdinary(played) && Value() == E.Play(E.Fresh(size), played)
    }

    constructor (size: nat)
      ensures Valid() && this.size == size && played == []
    {
      this.size := size;
      buffer, closed, pendingDrops, totalDrops := [], false, 0, 0;
      taken, played := [], [];
    }

    // The consumer, who may come at any moment and receive any number of events.
    method Consumer() returns (ghost k: nat)
      modifies this`buffer, this`taken
      ensures Value() == E.Take(old(Value()), k)
    {
      var n: nat :| n <= |buffer|;
      taken := taken + buffer[..n];
      buffer := buffer[n..];
      k := n;
    }

    method Receive() returns (ghost k: nat)
      requires Valid()
      modifies this`buffer, this`taken, this`played
      ensures Valid() && played == old(played) + [E.Consume(k)]
      ensures E.Asked(played) == E.Asked(old(played))
    {
      k := Consumer();
      E.AskedSnoc(played, E.Consume(k));
      E.PlaysTo(E.Fresh(size), played, E.Consume(k));
      played := played + [E.Consume(k)];
    }

    method FlushDrops() returns (ghost p: E.Pops)
      modifies this`buffer, this`taken, this`pendingDrops
      ensures Value() == E.FlushDrops(old(Value()), p)
    {
      p := E.Pops(0, 0);
      var n := pendingDrops;
      pendingDrops := 0;
      if n == 0 {
        return;
      }
      ghost var first := Consumer();
      p := E.Pops(first, 0);
      if |buffer| <= size {
        ghost var second := Consumer();
        p := E.Pops(first, second);
        if |buffer| < size + 2 {
          buffer := buffer + [EventsDropped(n)];
          return;
        }
      }
      pendingDrops := pendingDrops + n;
    }

    // An ordinary event may fill the buffer the caller asked for, and no more.
    method TrySend(ev: Event) returns (sent: bool, ghost p: E.Pops)
      modifies this`buffer, this`taken
      ensures var a := E.Take(old(Value()), p.beforeLen);
              var b := E.Take(a, p.beforeSend);
              && sent == (|a.buffer| < size && E.HasRoom(b))
              && Value() == if sent then E.Push(b, ev) else a
    {
      sent := false;
      ghost var first := Consumer();
      p := E.Pops(first, 0);
      if |buffer| < size {
        ghost var second := Consumer();
        p := E.Pops(first, second);
        if |buffer| < size + 2 {
          buffer := buffer + [ev];
          sent := true;
        }
      }
    }

    method Publish(ev: Event) returns (ghost g: E.Gaps)
      modifies this`buffer, this`taken, this`pendingDrops, this`totalDrops
      ensures Value() == E.Emit(old(Value()), ev, g)
    {
      ghost var before := Value();
      ghost var flush := FlushDrops();
      ghost var flushed := Value();
      var sent; ghost var send;
      sent, send := TrySend(ev);
      g := E.Gaps(flush, send, E.Pops(0, 0));
      assert sent == E.Sends(before, g);
      if !sent {
        totalDrops := totalDrops + 1;
        pendingDrops := pendingDrops + 1;
        assert Value() == E.Drop(E.AtLen(before, g));
        ghost var again := FlushDrops();
        g := E.Gaps(flush, send, again);
        assert E.AtLen(before, g) == E.AtLen(before, E.Gaps(flush, send, E.Pops(0, 0)));
      }
    }

    // Nothing is lost of a channel in which fewer wait than the caller asked room for, with nothing owed.
    method Emit(ev: Event) returns (ghost g: E.Gaps)
      requires Valid() && E.Ordinary(ev)
      modifies this
      ensures Valid() && played == old(played) + [E.Offer(ev, g)]
      ensures E.Asked(played) == E.Asked(old(played)) + [ev]
      ensures old(pendingDrops) == 0 && |old(buffer)| < size ==>
                taken + buffer == old(taken + buffer) + [ev] && pendingDrops == 0 && totalDrops == old(totalDrops)
      ensures totalDrops == old(totalDrops) || totalDrops == old(totalDrops) + 1
    {
      ghost var was := Value();
      E.PlaySound(size, played);
      g := Publish(ev);
      E.EmitExactly(was, ev, g);
      if was.pending == 0 && |was.buffer| < size {
        E.EmitInRoom(was, ev, g);
      }
      E.PlaysTo(E.Fresh(size), played, E.Offer(ev, g));
      E.AskedSnoc(played, E.Offer(ev, g));
      played := played + [E.Offer(ev, g)];
    }

    // The terminal event, into the slot kept for it, and the close after it.
    method EmitReservedAndClose(ev: Event) returns (ghost pops: nat)
      modifies this`buffer, this`taken, this`totalDrops, this`closed
      ensures Value() == E.EmitReserved(old(Value()), ev, pops).(closed := true)
    {
      pops := Consumer();
      if |buffer| < size + 2 {
        buffer := buffer + [ev];
      } else {
        totalDrops := totalDrops + 1;
      }
      closed := true;
    }
  }

  /** Of the channel itself, whatever was emitted and whenever the consumer came: there is room for
      the terminal event, and every loss is reported or still owed. */
  lemma ChannelLaws(c: EventChannel)
    requires c.Valid()
    ensures |c.buffer| <= c.size + 1
    ensures c.totalDrops == E.Reported(c.taken + c.buffer) + c.pendingDrops
    ensures E.Genuine(c.taken + c.buffer) == E.KeptOf(E.Offered(E.Fresh(c.size), c.played))
  {
    E.LossesAreAccountedFor(c.size, c.played);
    assert c.Value().Sent() == c.taken + c.buffer;
  }
}
