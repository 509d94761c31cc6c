/** The control client as an object: its queue, its open block and its flags, changed in place under
    one lock. Proved against Protocol, whose laws then hold of it: every call a caller, the timer or
    the reader makes is one action of a run. */
module Client {
  import opened Bytes
  import opened CtlParse
  import P = Protocol
  import Escape
  import L = Lexer
  import Vis

  /** A command on its way, or an orphan block that answers none. */
  class Pending {
    ghost const id: nat
    const cmd: string
    const orphan: bool
    const unnumbered: bool
    var number: int
    var lines: seq<string>
    var flags: int
    var replyTime: int
    var failed: bool
    var answered: bool
    var err: Option<string>
    ghost var finishes: nat
    ghost var writeFailed: bool
    ghost var withdrawn: bool

    constructor (cmd: string, ghost wrote: bool, ghost id: nat)
      ensures this.id == id && !orphan && !unnumbered && this.cmd == cmd && Value() == P.New(cmd, wrote)
    {
      this.id, this.cmd, orphan, unnumbered := id, cmd, false, false;
      number, lines, flags, replyTime, failed, answered, err := 0, [], 0, 0, false, false, None;
      finishes, writeFailed, withdrawn := 0, !wrote, false;
    }

    constructor Orphan(number: int, unnumbered: bool)
      ensures orphan && this.number == number && this.unnumbered == unnumbered
    {
      this.id, this.cmd, orphan, this.unnumbered := 0, "", true, unnumbered;
      this.number, lines, flags, replyTime, failed, answered, err := number, [], 0, 0, false, false, None;
      finishes, writeFailed, withdrawn := 0, false, false;
    }

    ghost function Value(): P.Command
      reads this
    {
      P.Command(cmd, number, lines, flags, replyTime, failed, answered, err, finishes, writeFailed, withdrawn)
    }

    method Finish()
      modifies this
      ensures Value() == old(Value()).(finishes := old(finishes) + 1)
    {
      finishes := finishes + 1;
    }

    method Answer(cl: Line, failed: bool)
      modifies this
      ensures Value() == old(Value()).(failed := failed, answered := true, flags := cl.flags, time := cl.time)
    {
      this.failed := failed;
      answered := true;
      flags := cl.flags;
      replyTime := cl.time;
    }

    method Append(line: string)
      modifies this
      ensures number == old(number)
      ensures Value() == old(Value()).(lines := old(lines) + [line])
    {
      lines := lines + [line];
    }
  }

  lemma {:induction false} WithoutAbsent(queue: seq<nat>, id: nat)
    requires forall j :: 0 <= j < |queue| ==> queue[j] != id
    ensures id !in queue && P.Without(queue, id) == queue
  {
    if queue != [] {
      WithoutAbsent(queue[1..], id);
    }
  }

  class ControlClient {
    var queue: seq<Pending>
    var current: Pending?
    var started: bool
    var sawFirstLine: bool
    var closed: bool
    var userClose: bool
    var sawExit: bool
    var attached: string
    var exitMsg: string
    ghost var finished: bool
    ghost var accepted: seq<Pending>        // every command Do has taken
    ghost var state: P.Client
    ghost var actions: seq<P.Action>        // everything that has happened

    ghost function Owned(): set<Pending>
      reads this
    {
      (set p | p in accepted) + if current == null then {} else {current}
    }

    // No command was accepted meanwhile, and the open block is none, a command's, the one there was or
    // a new orphan.
    twostate predicate OnlyRead()
      reads this
    {
      && accepted == old(accepted)
      && (current == null || current in accepted || current == old(current) || fresh(current))
    }

    ghost predicate Ties(p: Pending, i: nat)
      requires i < |state.cmds|
      reads this, p
    {
      p.id == i && !p.orphan && !p.unnumbered && p.Value() == state.cmds[i]
    }

    ghost predicate TiesBlock()
      reads this, Owned()
    {
      match state.current
      case NoBlock => current == null
      case Reply(id) => id < |accepted| && current == accepted[id]
      case Orphan(number, unnumbered) =>
        current != null && current.orphan && current.number == number && current.unnumbered == unnumbered
    }

    ghost predicate TiesFlags()
      reads this
    {
      && state.started == started && state.sawFirstLine == sawFirstLine
      && state.closed == closed && state.userClose == userClose && state.sawExit == sawExit
      && state.attached == attached && state.exitMsg == exitMsg && state.finished == finished
    }

    // The fields hold what the value says.
    ghost predicate Tied()
      reads this, Owned()
    {
      && |accepted| == |state.cmds|
      && (forall i :: 0 <= i < |accepted| ==> Ties(accepted[i], i))
      && |queue| == |state.queue|
      && (forall i :: 0 <= i < |queue| ==> state.queue[i] < |accepted| && queue[i] == accepted[state.queue[i]])
      && TiesBlock()
      && TiesFlags()
    }

    // The client is where a run of Protocol would have left it.
    ghost predicate Valid()
      reads this, Owned()
    {
      Tied() && P.Run(P.INITIAL, actions, state)
    }

    constructor ()
      ensures Valid() && fresh(Owned()) && state == P.INITIAL && actions == []
    {
      queue, current, accepted := [], null, [];
      started, sawFirstLine, closed, userClose, sawExit, finished := false, false, false, false, false, false;
      attached, exitMsg := "", "";
      state, actions := P.INITIAL, [];
    }

    // The fields hold what the value says but for this command, which has changed.
    ghost predicate TiedBut(p: Pending)
      reads this, p, Owned()
    {
      && |accepted| == |state.cmds|
      && p.id < |accepted| && accepted[p.id] == p && !p.orphan && !p.unnumbered
      && (forall i :: 0 <= i < |accepted| && i != p.id ==> Ties(accepted[i], i))
      && |queue| == |state.queue|
      && (forall i :: 0 <= i < |queue| ==> state.queue[i] < |accepted| && queue[i] == accepted[state.queue[i]])
      && TiesBlock()
      && TiesFlags()
    }

    // The value follows a command that has changed.
    ghost method Follow(p: Pending)
      requires TiedBut(p)
      modifies this`state
      ensures Tied() && state == old(state).(cmds := old(state).cmds[p.id := p.Value()])
    {
      state := state.(cmds := state.cmds[p.id := p.Value()]);
    }

    // The i-th command waiting leaves the queue.
    method TakeOut(i: nat) returns (p: Pending)
      requires Tied() && i < |queue|
      modifies this`queue, this`state
      ensures Tied() && p == old(queue)[i] && p.id == old(state).queue[i] && p in accepted
      ensures state == old(state).(queue := old(state).queue[..i] + old(state).queue[i + 1..])
    {
      p := queue[i];
      assert Ties(p, state.queue[i]);
      queue := queue[..i] + queue[i + 1..];
      state := state.(queue := state.queue[..i] + state.queue[i + 1..]);
    }

    // The block the reader has open becomes this command's, or none.
    method Open(p: Pending?)
      requires Tied() && (p != null ==> p in accepted)
      modifies this`current, this`state
      ensures Tied() && state == old(state).(current := if p == null then P.NoBlock else P.Reply(p.id))
      ensures current == p
    {
      assert p != null ==> Ties(p, p.id);
      current := p;
      state := state.(current := if p == null then P.NoBlock else P.Reply(p.id));
    }

    method OpenOrphan(number: int, unnumbered: bool)
      requires Tied()
      modifies this`current, this`state
      ensures Tied() && fresh(Owned() - old(Owned()))
      ensures state == old(state).(current := P.Orphan(number, unnumbered))
    {
      current := new Pending.Orphan(number, unnumbered);
      state := state.(current := P.Orphan(number, unnumbered));
    }

    method LiftBarrier()
      requires Tied()
      modifies this`started, this`state
      ensures Tied() && state == old(state).(started := true)
    {
      started := true;
      state := state.(started := true);
    }

    // One more action, of which the fields already tell.
    ghost method Record(was: P.Client, a: P.Action)
      requires Tied() && P.Run(P.INITIAL, actions, was)
      requires P.InRange(was) && P.Enabled(was, a) && state == P.Step(was, a).0
      modifies this`actions
      ensures Valid() && actions == old(actions) + [a]
    {
      P.RunSnoc(P.INITIAL, actions, was, a);
      actions := actions + [a];
    }

    lemma Reachable()
      requires Valid()
      ensures P.Inv(state)
    {
      P.RunKeeps(P.INITIAL, actions, state);
    }

    // Do, under its lock, once the barrier is lifted; `wrote` is how the write that follows ends.
    method Enqueue(cmd: string, ghost wrote: bool) returns (p: Pending?)
      requires Valid() && started
      modifies this
      ensures Valid() && fresh(Owned() - old(Owned()))
      ensures state == P.Enqueue(old(state), cmd, wrote) && actions == old(actions) + [P.Do(cmd, wrote)]
      ensures p != null <==> !old(closed)
      ensures p != null ==> fresh(p) && p.cmd == cmd && accepted == old(accepted) + [p] && queue == old(queue) + [p]
      ensures p == null ==> accepted == old(accepted) && queue == old(queue)
    {
      ghost var was := state;
      p := AddPending(cmd, wrote);
      Record(was, P.Do(cmd, wrote));
    }

    method AddPending(cmd: string, ghost wrote: bool) returns (p: Pending?)
      requires Tied()
      modifies this`queue, this`accepted, this`state
      ensures Tied() && fresh(Owned() - old(Owned()))
      ensures state == P.Enqueue(old(state), cmd, wrote)
      ensures p != null <==> !old(closed)
      ensures p != null ==> fresh(p) && p.cmd == cmd && accepted == old(accepted) + [p] && queue == old(queue) + [p]
      ensures p == null ==> accepted == old(accepted) && queue == old(queue)
    {
      if closed {
        return null;
      }
      var q := new Pending(cmd, wrote, |accepted|);
      queue := queue + [q];
      accepted := accepted + [q];
      state := P.Enqueue(state, cmd, wrote);
      return q;
    }

    method Check(cmd: string) returns (refusal: L.Refusal)
      ensures refusal.Accepted? <==> L.Sendable(cmd)
    {
      refusal := L.CheckCommand(cmd);
    }

    // Do, up to where it waits for its reply, with nothing in between: a refused line changes nothing,
    // and neither does a command whose write failed, but for having been accepted.
    method Do(cmd: string, wrote: bool) returns (refusal: L.Refusal, p: Pending?)
      requires Valid() && started
      modifies this
      ensures Valid() && fresh(Owned() - old(Owned()))
      ensures refusal.Accepted? <==> L.Sendable(cmd)
      ensures !refusal.Accepted? ==> state == old(state) && actions == old(actions)
      ensures refusal.Accepted? ==>
                var after := P.Enqueue(old(state), cmd, wrote);
                state == if old(closed) || wrote then after else P.Unqueue(after, |old(state).cmds|)
      ensures p != null <==> refusal.Accepted? && !old(closed)
      ensures if p == null then accepted == old(accepted) && queue == old(queue) else Taken(p, cmd, wrote)
    {
      p := null;
      refusal := Check(cmd);
      if refusal.Accepted? {
        p := Write(cmd, wrote);
      }
    }

    // What Do hands back: the command, new, behind all the others, and no longer queued if its write failed.
    twostate predicate Taken(new p: Pending, cmd: string, wrote: bool)
      reads this, p
    {
      && fresh(p) && p.cmd == cmd && accepted == old(accepted) + [p]
      && queue == (if wrote then old(queue) + [p] else old(queue))
      && (p.withdrawn <==> !wrote)
    }

    // The command queued and written, and off the queue again if its write failed.
    method Write(cmd: string, wrote: bool) returns (p: Pending?)
      requires Valid() && started
      modifies this
      ensures Valid() && fresh(Owned() - old(Owned()))
      ensures var after := P.Enqueue(old(state), cmd, wrote);
              state == if old(closed) || wrote then after else P.Unqueue(after, |old(state).cmds|)
      ensures p != null <==> !old(closed)
      ensures if p == null then accepted == old(accepted) && queue == old(queue) else Taken(p, cmd, wrote)
    {
      p := Enqueue(cmd, wrote);
      if p != null {
        ghost var id := |accepted| - 1;
        assert Ties(accepted[id], id) && p.Value() == state.cmds[id];
        if !wrote {
          UnqueueLast(p);
        }
      }
    }

    // The command just queued is last, so it is the last that leaves.
    method UnqueueLast(p: Pending)
      requires Valid() && p in accepted && p.writeFailed && !p.withdrawn && queue != [] && queue[|queue| - 1] == p
      modifies this, p
      ensures Valid() && Owned() == old(Owned()) && accepted == old(accepted)
      ensures state == P.Unqueue(old(state), p.id) && actions == old(actions) + [P.Withdraw(p.id)]
      ensures queue == old(queue)[..|old(queue)| - 1] && p.withdrawn
    {
      Reachable();
      ghost var k := |queue| - 1;
      assert Ties(queue[k], state.queue[k]);
      P.UnqueueExactly(state, p.id);
      assert state.queue[..k] + state.queue[k + 1..] == state.queue[..k];
      Unqueue(p);
      assert Ties(p, p.id);
    }

    // A command that was never written leaves the queue, if it is still there.
    method Unqueue(p: Pending)
      requires Valid() && p in accepted && p.writeFailed
      modifies this, p
      ensures Valid() && Owned() == old(Owned()) && accepted == old(accepted)
      ensures state == P.Unqueue(old(state), p.id) && actions == old(actions) + [P.Withdraw(p.id)]
    {
      ghost var was := state;
      assert Ties(p, p.id);
      RemovePending(p);
      Record(was, P.Withdraw(p.id));
    }

    method RemovePending(p: Pending)
      requires Tied() && p in accepted
      modifies this`queue, this`state, p
      ensures Tied() && Owned() == old(Owned()) && accepted == old(accepted)
      ensures state == P.Unqueue(old(state), p.id)
    {
      assert Ties(p, p.id);
      for i := 0 to |queue|
        invariant forall j :: 0 <= j < i ==> state.queue[j] != p.id
      {
        assert Ties(queue[i], state.queue[i]);
        if queue[i] == p {
          RemoveAt(i, p);
          return;
        }
      }
      WithoutAbsent(state.queue, p.id);
    }

    method RemoveAt(i: nat, p: Pending)
      requires Tied() && i < |queue| && p in accepted && queue[i] == p
      requires forall j :: 0 <= j < i ==> state.queue[j] != p.id
      modifies this`queue, this`state, p
      ensures Tied() && Owned() == old(Owned()) && accepted == old(accepted)
      ensures state == P.Unqueue(old(state), p.id)
    {
      assert Ties(p, state.queue[i]);
      P.WithoutAt(state.queue, p.id, i);
      var q := TakeOut(i);
      q.withdrawn := true;
      Follow(q);
    }

    // The grace timer's call of releaseStartup.
    method ReleaseStartup()
      requires Valid()
      modifies this`started, this`state, this`actions
      ensures Valid() && state == old(state).(started := true) && actions == old(actions) + [P.Grace]
    {
      ghost var was := state;
      LiftBarrier();
      Record(was, P.Grace);
    }

    method BeginBlock(cl: Line)
      requires Tied() && current == null
      modifies this, Owned()
      ensures Tied() && fresh(Owned() - old(Owned())) && accepted == old(accepted)
      ensures state == P.BeginBlock(old(state), cl)
    {
      if !started || P.UnsolicitedBlock(cl) || queue == [] {
        OpenOrphan(cl.number, false);
      } else {
        BindHead(cl);
      }
    }

    method BindHead(cl: Line)
      requires Tied() && current == null && started && !P.UnsolicitedBlock(cl) && queue != []
      modifies this, Owned()
      ensures Tied() && Owned() == old(Owned()) && accepted == old(accepted)
      ensures state == P.BeginBlock(old(state), cl)
    {
      var p := TakeHead();
      p.number := cl.number;
      Follow(p);
      Open(p);
    }

    method TakeHead() returns (p: Pending)
      requires Tied() && queue != []
      modifies this`queue, this`state
      ensures Tied() && p == old(queue)[0] && p.id == old(state).queue[0] && p in accepted
      ensures state == old(state).(queue := old(state).queue[1..])
    {
      assert state.queue[..0] + state.queue[1..] == state.queue[1..];
      p := TakeOut(0);
    }

    method BeginUnnumberedBlock()
      requires Tied() && current == null
      modifies this`current, this`state
      ensures Tied() && fresh(Owned() - old(Owned()))
      ensures state == old(state).(current := P.Orphan(0, true))
    {
      OpenOrphan(0, true);
    }

    method FailHead(line: string)
      requires Tied()
      modifies this, Owned()
      ensures Tied() && Owned() == old(Owned()) && accepted == old(accepted)
      ensures state == P.FailHead(old(state), line)
    {
      if queue != [] {
        var p := TakeHead();
        FailCommand(p, line);
      }
    }

    method FailCommand(p: Pending, line: string)
      requires Tied() && p in accepted
      modifies p, this`state
      ensures Tied() && p.id < |old(state).cmds|
      ensures var was := old(state).cmds[p.id];
              var now := was.(err := Some(line), finishes := was.finishes + 1);
              state == old(state).(cmds := old(state).cmds[p.id := now])
    {
      assert Ties(p, p.id);
      p.err := Some(line);
      p.Finish();
      Follow(p);
    }

    // What closes the open block, if there is one: the command to wake, or that there was none.
    method CloseBlock(cl: Line) returns (stray: bool)
      requires Tied()
      modifies this, Owned()
      ensures Tied() && Owned() <= old(Owned()) && accepted == old(accepted)
      ensures state == P.EndBlock(old(state), cl).0 && stray == old(state).current.NoBlock?
    {
      stray := current == null;
      if current == null {
        LiftBarrier();
      } else if current.orphan {
        CloseOrphan(cl);
      } else {
        AnswerCommand(cl);
      }
    }

    method CloseOrphan(cl: Line)
      requires Tied() && current != null && current.orphan
      modifies this, current
      ensures Tied() && Owned() <= old(Owned()) && accepted == old(accepted)
      ensures state == P.EndBlock(old(state), cl).0
    {
      current.Answer(cl, cl.kind == Error);
      Open(null);
      LiftBarrier();
    }

    method AnswerCommand(cl: Line)
      requires Tied() && current != null && !current.orphan
      modifies this, Owned()
      ensures Tied() && Owned() <= old(Owned()) && accepted == old(accepted)
      ensures state == P.EndBlock(old(state), cl).0
    {
      var p := current;
      assert Ties(p, state.current.id);
      Open(null);
      Settle(p, cl);
      LiftBarrier();
    }

    method Settle(p: Pending, cl: Line)
      requires Tied() && p in accepted
      modifies p, this`state
      ensures Tied() && p.id < |old(state).cmds|
      ensures var was := old(state).cmds[p.id];
              var now := was.(failed := cl.kind == Error, answered := true, flags := cl.flags, time := cl.time,
                              finishes := was.finishes + 1);
              state == old(state).(cmds := old(state).cmds[p.id := now])
    {
      assert Ties(p, p.id);
      p.Answer(cl, cl.kind == Error);
      p.Finish();
      Follow(p);
    }

    // Whether the line was taken as part of the open block.
    method AddToBlock(line: string) returns (taken: bool)
      requires Tied()
      modifies Owned(), this`state
      ensures Tied() && Owned() == old(Owned()) && accepted == old(accepted)
      ensures state == P.DataLine(old(state), line).0 && taken == (old(state).current != P.NoBlock)
    {
      taken := current != null;
      if current != null {
        var p := current;
        assert !p.orphan ==> Ties(p, state.current.id);
        p.Append(line);
        if !p.orphan {
          Follow(p);
        }
      }
    }

    // closesBlock, on the block the reader has open.
    method ClosesOpen(cl: Line) returns (closes: bool)
      requires Tied() && current != null
      ensures closes == P.Closes(state, cl)
    {
      assert !current.orphan ==> Ties(current, state.current.id);
      return P.ClosesBlock(cl, current.number, !current.unnumbered);
    }

    // --- One line ---------------------------------------------------------------------------------

    method EndBlock(cl: Line) returns (effects: seq<P.Effect>)
      requires Tied()
      modifies this, Owned()
      ensures Tied() && Owned() <= old(Owned()) && accepted == old(accepted)
      ensures (state, effects) == P.EndBlock(old(state), cl)
    {
      effects := [];
      var stray := CloseBlock(cl);
      if stray {
        effects := [P.Emit(P.ProtocolError(cl.raw, P.StrayTerminator))];
      }
    }

    method DataLine(line: string) returns (effects: seq<P.Effect>)
      requires Tied()
      modifies Owned(), this`state
      ensures Tied() && Owned() == old(Owned()) && accepted == old(accepted)
      ensures (state, effects) == P.DataLine(old(state), line)
    {
      effects := [];
      var taken := AddToBlock(line);
      if !taken && line != "" {
        effects := [P.Emit(P.ProtocolError(line, P.StrayOutput))];
      }
    }

    method HandleSessionChanged(cl: Line) returns (effect: P.Effect)
      requires Tied()
      modifies this`attached, this`state
      ensures Tied() && (state, effect) == P.HandleSession(old(state), cl)
    {
      var s := P.ParseSession(cl.args);
      if s.None? {
        return P.BadNotification(cl);
      }
      attached := s.value.0;
      state := state.(attached := attached);
      var name := Vis.VisDecode(s.value.1);
      return P.Emit(P.SessionChanged(attached, name));
    }

    method HandleOutput(cl: Line, o: Option<Output>) returns (effect: P.Effect)
      ensures effect == P.OutputEffect(cl, o)
    {
      if o.None? {
        return P.BadNotification(cl);
      }
      var data := Escape.Unescape(o.value.data);
      return P.Deliver(o.value.pane, data, o.value.extended, o.value.ageMS);
    }

    method Exit(cl: Line)
      requires Tied()
      modifies this`sawExit, this`exitMsg, this`state
      ensures Tied() && state == P.HandleExit(old(state), cl)
    {
      sawExit := true;
      exitMsg := P.ExitReason(cl.args);
      state := P.HandleExit(state, cl);
    }

    // handleNotification; false means tmux said %exit.
    method HandleNotification(cl: Line) returns (effects: seq<P.Effect>, goOn: bool)
      requires Tied()
      modifies this`attached, this`sawExit, this`exitMsg, this`state
      ensures Tied() && P.Handled(state, effects, goOn) == P.HandleNotification(old(state), cl)
    {
      effects, goOn := [], true;
      if cl.name == "output" {
        var effect := HandleOutput(cl, ParseOutput(cl.args));
        effects := [effect];
      } else if cl.name == "extended-output" {
        var effect := HandleOutput(cl, ParseExtendedOutput(cl.args));
        effects := [effect];
      } else if cl.name == "session-changed" {
        var effect := HandleSessionChanged(cl);
        effects := [effect];
      } else if cl.name == "exit" {
        Exit(cl);
        goOn := false;
      } else {
        effects := [P.Emit(P.OtherNotification(cl.name, cl.args))];
      }
    }

    // A header or terminator whose arguments do not parse, outside any block.
    method HandleRuined(cl: Line, firstLine: bool) returns (effects: seq<P.Effect>)
      requires Tied() && current == null
      modifies this, Owned()
      ensures Tied() && fresh(Owned() - old(Owned())) && accepted == old(accepted)
      ensures P.Handled(state, effects, true) == P.HandleRuined(old(state), cl, firstLine)
    {
      effects := [P.Emit(P.ProtocolError(cl.raw, P.RuinedHeader(cl.kind)))];
      if cl.kind == Begin {
        if !firstLine {
          FailHead(cl.raw);
        }
        BeginUnnumberedBlock();
      }
    }

    method HandleOutside(cl: Line, firstLine: bool) returns (effects: seq<P.Effect>, goOn: bool)
      requires Tied() && current == null
      modifies this, Owned()
      ensures Tied() && fresh(Owned() - old(Owned())) && accepted == old(accepted)
      ensures P.Handled(state, effects, goOn) == P.HandleOutside(old(state), cl, firstLine)
    {
      effects, goOn := [], true;
      if cl.malformed {
        effects := HandleRuined(cl, firstLine);
      } else {
        match cl.kind
        case Begin => BeginBlock(cl);
        case Notification => effects, goOn := HandleNotification(cl);
        case Data => effects := DataLine(cl.raw);
        case _ => effects := EndBlock(cl);
      }
    }

    // The first line settles whether there is a startup block to absorb.
    method FirstLine(cl: Line) returns (firstLine: bool)
      requires Tied()
      modifies this`sawFirstLine, this`started, this`state
      ensures Tied() && state == P.FirstLine(old(state), cl) && firstLine == !old(sawFirstLine)
    {
      firstLine := !sawFirstLine;
      if firstLine {
        sawFirstLine := true;
        if cl.kind != Begin {
          started := true;
        }
      }
      state := P.FirstLine(state, cl);
    }

    // While a block is open every line is its body, but for the terminator that is its own.
    method HandleInside(cl: Line) returns (effects: seq<P.Effect>)
      requires Tied() && current != null
      modifies this, Owned()
      ensures Tied() && Owned() <= old(Owned()) && accepted == old(accepted)
      ensures (state, effects) ==
              if P.Closes(old(state), cl) then P.EndBlock(old(state), cl) else P.DataLine(old(state), cl.raw)
    {
      var closes := ClosesOpen(cl);
      if closes {
        effects := EndBlock(cl);
      } else {
        effects := DataLine(cl.raw);
      }
    }

    // handleLine; false means tmux said %exit.
    method HandleLine(line: string) returns (effects: seq<P.Effect>, goOn: bool)
      requires Valid() && !finished && !sawExit
      modifies this, Owned()
      ensures Valid() && fresh(Owned() - old(Owned())) && accepted == old(accepted)
      ensures P.Handled(state, effects, goOn) == P.HandleLine(old(state), Classify(line))
      ensures actions == old(actions) + [P.Recv(Classify(line))]
    {
      var cl := ClassifyLine(line);
      ghost var was, done := state, actions;
      effects, goOn := HandleClassified(cl);
      RecordLine(was, done, cl);
    }

    ghost method RecordLine(was: P.Client, done: seq<P.Action>, cl: Line)
      requires Tied() && P.Run(P.INITIAL, done, was)
      requires P.InRange(was) && !was.finished && !was.sawExit && state == P.HandleLine(was, cl).client
      modifies this`actions
      ensures Valid() && actions == done + [P.Recv(cl)]
    {
      actions := done;
      Record(was, P.Recv(cl));
    }

    method HandleClassified(cl: Line) returns (effects: seq<P.Effect>, goOn: bool)
      requires Tied()
      modifies this, Owned()
      ensures Tied() && fresh(Owned() - old(Owned())) && accepted == old(accepted)
      ensures P.Handled(state, effects, goOn) == P.HandleLine(old(state), cl)
    {
      var firstLine := FirstLine(cl);
      if current == null {
        effects, goOn := HandleOutside(cl, firstLine);
      } else {
        goOn := true;
        effects := HandleInside(cl);
      }
    }

    // --- The end ----------------------------------------------------------------------------------

    // The commands as they were, but for the ones already woken.
    ghost predicate Woken(was: seq<P.Command>, done: seq<Pending>)
      reads this, Owned()
    {
      && |accepted| == |was|
      && forall k :: 0 <= k < |accepted| ==>
           && accepted[k].id == k && !accepted[k].orphan && !accepted[k].unnumbered
           && accepted[k].Value() == if accepted[k] in done then was[k].(finishes := was[k].finishes + 1) else was[k]
    }

    method WakeNext(waiting: seq<Pending>, i: nat, ghost was: seq<P.Command>)
      requires i < |waiting| && Woken(was, waiting[..i])
      requires waiting[i] !in waiting[..i] && (waiting[i].orphan || waiting[i] in accepted)
      modifies waiting[i]
      ensures Woken(was, waiting[..i + 1])
    {
      var p := waiting[i];
      assert waiting[..i + 1] == waiting[..i] + [p];
      if !p.orphan {
        p.Finish();
      }
    }

    method WakeAll(waiting: seq<Pending>, ghost was: seq<P.Command>)
      requires Woken(was, [])
      requires forall i, j :: 0 <= i < j < |waiting| ==> waiting[i] != waiting[j]
      requires forall i :: 0 <= i < |waiting| ==> waiting[i].orphan || waiting[i] in accepted
      modifies waiting
      ensures Woken(was, waiting)
    {
      assert waiting[..0] == [];
      for i := 0 to |waiting|
        invariant Woken(was, waiting[..i])
      {
        WakeNext(waiting, i, was);
      }
      assert waiting[..|waiting|] == waiting;
    }

    function Unanswered(): seq<Pending>
      reads this
    {
      queue + if current == null then [] else [current]
    }

    lemma QueueHolds(k: nat)
      requires Tied() && k < |accepted|
      ensures accepted[k] in queue <==> k in state.queue
      ensures current == accepted[k] <==> state.current == P.Reply(k)
    {
      assert Ties(accepted[k], k);
      if accepted[k] in queue {
        var i :| 0 <= i < |queue| && queue[i] == accepted[k];
        assert Ties(queue[i], state.queue[i]);
      }
      if k in state.queue {
        var i :| 0 <= i < |queue| && state.queue[i] == k;
        assert queue[i] == accepted[k];
      }
      if state.current.Reply? {
        assert Ties(accepted[state.current.id], state.current.id);
      }
    }

    lemma UnansweredOnce()
      requires Tied() && P.Inv(state)
      ensures var waiting := Unanswered();
              && (forall i, j :: 0 <= i < j < |waiting| ==> waiting[i] != waiting[j])
              && (forall i :: 0 <= i < |waiting| ==> waiting[i].orphan || waiting[i] in accepted)
    {
      forall i | 0 <= i < |queue| ensures queue[i] in accepted && queue[i] != current
        ensures forall j :: 0 <= j < i ==> queue[j] != queue[i]
      {
        assert Ties(queue[i], state.queue[i]);
        QueueHolds(state.queue[i]);
        assert P.Fates(state, state.queue[i]) == 1;
        forall j | 0 <= j < i ensures queue[j] != queue[i] {
          assert Ties(queue[j], state.queue[j]);
        }
      }
    }

    lemma UnansweredIds(k: nat)
      requires Tied() && k < |accepted|
      ensures accepted[k] in Unanswered() <==> k in P.Waiting(state)
    {
      QueueHolds(k);
    }

    ghost predicate Holds(cmds: seq<P.Command>)
      reads this, Owned()
    {
      && |accepted| == |cmds|
      && forall k :: 0 <= k < |accepted| ==>
           accepted[k].id == k && !accepted[k].orphan && !accepted[k].unnumbered && accepted[k].Value() == cmds[k]
    }

    // Every command that will now never be answered.
    method WakeUnanswered()
      requires Tied() && P.Inv(state)
      modifies Owned()
      ensures Holds(P.FinishAll(state.cmds, P.Waiting(state)))
    {
      var waiting := Unanswered();
      UnansweredOnce();
      ghost var was, ids := state.cmds, P.Waiting(state);
      forall k | 0 <= k < |accepted| ensures accepted[k] in waiting <==> k in ids {
        UnansweredIds(k);
      }
      assert Woken(was, []) by {
        assert forall k :: 0 <= k < |accepted| ==> Ties(accepted[k], k);
      }
      WakeAll(waiting, was);
    }

    // finishReader, as far as commands go: no more are taken, and the waiting ones are woken.
    method FinishReader()
      requires Valid() && !finished
      modifies this, Owned()
      ensures Valid() && Owned() <= old(Owned()) && accepted == old(accepted)
      ensures state == P.FinishReader(old(state)) && actions == old(actions) + [P.EndOfInput]
    {
      ghost var was := state;
      Reachable();
      WakeUnanswered();
      EndState();
      Record(was, P.EndOfInput);
    }

    method EndState()
      requires Holds(P.FinishAll(state.cmds, P.Waiting(state))) && TiesFlags()
      modifies this`closed, this`started, this`finished, this`queue, this`current, this`state
      ensures Tied() && Owned() <= old(Owned()) && accepted == old(accepted)
      ensures state == P.FinishReader(old(state))
    {
      closed, started, finished := true, true, true;
      queue, current := [], null;
      state := P.FinishReader(state);
    }

    // Close, as far as the flags that everything else looks at go.
    method CloseFlags()
      requires Valid()
      modifies this`closed, this`userClose, this`state, this`actions
      ensures Valid() && state == old(state).(closed := true, userClose := true)
      ensures actions == old(actions) + [P.Close]
    {
      ghost var was := state;
      closed, userClose := true, true;
      state := state.(closed := true, userClose := true);
      Record(was, P.Close);
    }
  }

  /** Of the client itself, whatever calls have been made on it: no command is finished twice, nothing
      waits before the barrier lifts, and once the reader has finished every command it ever accepted
      was finished or withdrawn, and nothing is queued or open. */
  lemma ClientLaws(c: ControlClient, i: nat)
    requires c.Valid() && i < |c.accepted|
    ensures var p := c.accepted[i];
            && p.finishes <= 1
            && (p.answered || p.err.Some? ==> p.finishes == 1 && !p.withdrawn && p !in c.queue && p != c.current)
            && !(p.answered && p.err.Some?)
            && (c.finished ==> (p.finishes == 1) != p.withdrawn)
    ensures c.started && (c.finished ==> c.closed && c.queue == [] && c.current == null)
  {
    c.Reachable();
    P.CommandFates(c.actions, c.state);
    assert c.Ties(c.accepted[i], i);
    assert P.Fates(c.state, i) == 1;
    c.QueueHolds(i);
  }

  /** And the object's own flags and commands tell of the calls made on it: it is closed once there was a Close
      or the reader ended, and its commands are the ones asked for before that, in order. */
  lemma ClientHistory(c: ControlClient)
    requires c.Valid()
    ensures c.userClose <==> P.Close in c.actions
    ensures c.closed <==> P.Close in c.actions || P.EndOfInput in c.actions
    ensures !c.sawExit ==> c.exitMsg == ""
    ensures |c.accepted| == |P.AskedFor(c.actions)|
    ensures forall i :: 0 <= i < |c.accepted| ==>
                          c.accepted[i].cmd == P.AskedFor(c.actions)[i].0
                          && c.accepted[i].writeFailed != P.AskedFor(c.actions)[i].1
  {
    P.EndIsRemembered(c.actions, c.state);
    P.AcceptedUntilClosed(c.actions, c.state);
    forall i | 0 <= i < |c.accepted|
      ensures c.accepted[i].cmd == P.AskedFor(c.actions)[i].0
              && c.accepted[i].writeFailed != P.AskedFor(c.actions)[i].1
    {
      assert c.Ties(c.accepted[i], i);
      assert P.Texts(c.state.cmds)[i] == P.AskedFor(c.actions)[i];
    }
  }
}
