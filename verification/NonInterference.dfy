/** Inside an open block every line but its terminator is some command's output, and reaches
    nothing but that command's reply. */
module NonInterference {
  import opened Bytes
  import opened CtlParse
  import opened Protocol

  // A command apart from the text of its reply.
  predicate SameFate(p: Command, q: Command) {
    p.(lines := []) == q.(lines := [])
  }

  // Equal in everything but the text of replies: queue, open block, barrier, attached session,
  // exit state and how far each command has got.
  ghost predicate Same(c: Client, d: Client) {
    && d == c.(cmds := d.cmds)
    && |d.cmds| == |c.cmds|
    && forall i :: 0 <= i < |c.cmds| ==> SameFate(c.cmds[i], d.cmds[i])
  }

  ghost predicate IsBody(c: Client, a: Action)
    requires InRange(c)
  {
    a.Recv? && c.current != NoBlock && !Closes(c, a.cl)
  }

  // The same run without the lines that arrive inside an open block and do not close it.
  ghost function Skeleton(c: Client, actions: seq<Action>): seq<Action>
    decreases |actions|
  {
    if actions == [] || !InRange(c) || !Enabled(c, actions[0]) then actions
    else
      var rest := Skeleton(Step(c, actions[0]).0, actions[1..]);
      if IsBody(c, actions[0]) then rest else [actions[0]] + rest
  }

  // What a run emits to the event stream and delivers to taps, in order.
  ghost function Effects(c: Client, actions: seq<Action>): seq<Effect>
    decreases |actions|
  {
    if actions == [] || !InRange(c) || !Enabled(c, actions[0]) then []
    else Step(c, actions[0]).1 + Effects(Step(c, actions[0]).0, actions[1..])
  }

  lemma BodyOnlyGrows(c: Client, a: Action)
    requires Inv(c) && Enabled(c, a) && IsBody(c, a)
    ensures Same(c, Step(c, a).0) && Step(c, a).1 == []
  {
  }

  // A notification asks the same of the client whatever its state is.
  lemma EffectsSame(c: Client, d: Client, cl: Line)
    ensures HandleNotification(c, cl).effects == HandleNotification(d, cl).effects
  {
  }

  // And does the same to what does not regard commands.
  lemma FlagsSame(c: Client, d: Client, cl: Line)
    requires c.attached == d.attached && c.sawExit == d.sawExit && c.exitMsg == d.exitMsg
    ensures var h, e := HandleNotification(c, cl).client, HandleNotification(d, cl).client;
            h.attached == e.attached && h.sawExit == e.sawExit && h.exitMsg == e.exitMsg
  {
    NotificationIs(c, cl);
    NotificationIs(d, cl);
    var session, exit := cl.name == "session-changed", cl.name == "exit";
    NoticedSame(c, d, HandleSession(c, cl).0, HandleSession(d, cl).0, HandleExit(c, cl), HandleExit(d, cl),
                ParseSession(cl.args), ExitReason(cl.args), session, exit);
  }

  lemma NoticedSame(c: Client, d: Client, sc: Client, sd: Client, ec: Client, ed: Client,
                    parsed: Option<(string, string)>, reason: string, session: bool, exit: bool)
    requires c.attached == d.attached && c.sawExit == d.sawExit && c.exitMsg == d.exitMsg
    requires sc == if parsed.None? then c else c.(attached := parsed.value.0)
    requires sd == if parsed.None? then d else d.(attached := parsed.value.0)
    requires ec == c.(sawExit := true, exitMsg := reason) && ed == d.(sawExit := true, exitMsg := reason)
    ensures var h, e := if session then sc else if exit then ec else c, if session then sd else if exit then ed else d;
            h.attached == e.attached && h.sawExit == e.sawExit && h.exitMsg == e.exitMsg
  {
  }

  lemma NotificationSame(c: Client, d: Client, cl: Line)
    requires Same(c, d)
    ensures var h, e := HandleNotification(c, cl), HandleNotification(d, cl);
            Same(h.client, e.client) && h.effects == e.effects
  {
    EffectsSame(c, d, cl);
    FlagsSame(c, d, cl);
  }

  lemma EndBlockSame(c: Client, d: Client, cl: Line)
    requires InRange(c) && Same(c, d)
    ensures Same(EndBlock(c, cl).0, EndBlock(d, cl).0) && EndBlock(c, cl).1 == EndBlock(d, cl).1
  {
    if c.current.Reply? {
      AnsweredSame(c.cmds, d.cmds, c.current.id, cl);
    }
  }

  lemma AnsweredSame(c: seq<Command>, d: seq<Command>, id: nat, cl: Line)
    requires |c| == |d| && id < |c| && forall i :: 0 <= i < |c| ==> SameFate(c[i], d[i])
    ensures var failed := cl.kind == Error;
            var p := c[id].(failed := failed, answered := true, flags := cl.flags, time := cl.time);
            var q := d[id].(failed := failed, answered := true, flags := cl.flags, time := cl.time);
            var e, f := c[id := p.(finishes := p.finishes + 1)], d[id := q.(finishes := q.finishes + 1)];
            forall i :: 0 <= i < |e| ==> SameFate(e[i], f[i])
  {
    assert SameFate(c[id], d[id]);
  }

  lemma FailHeadSame(c: Client, d: Client, line: string)
    requires InRange(c) && Same(c, d)
    ensures Same(FailHead(c, line), FailHead(d, line))
  {
  }

  lemma BeginBlockSame(c: Client, d: Client, cl: Line)
    requires InRange(c) && Same(c, d)
    ensures Same(BeginBlock(c, cl), BeginBlock(d, cl))
  {
    if c.started && !UnsolicitedBlock(cl) && c.queue != [] {
      var id := c.queue[0];
      NumberedSame(c.cmds, d.cmds, id, cl.number);
    }
  }

  lemma NumberedSame(c: seq<Command>, d: seq<Command>, id: nat, number: int)
    requires |c| == |d| && id < |c| && forall i :: 0 <= i < |c| ==> SameFate(c[i], d[i])
    ensures var e, f := c[id := c[id].(number := number)], d[id := d[id].(number := number)];
            forall i :: 0 <= i < |e| ==> SameFate(e[i], f[i])
  {
    assert SameFate(c[id], d[id]);
  }

  lemma OpenSame(c: Client, d: Client, b: Block)
    requires Same(c, d)
    ensures Same(c.(current := b), d.(current := b))
  {
  }

  lemma DataLineSame(c: Client, d: Client, line: string)
    requires InRange(c) && Same(c, d)
    ensures Same(DataLine(c, line).0, DataLine(d, line).0) && DataLine(c, line).1 == DataLine(d, line).1
  {
  }

  lemma RuinedSame(c: Client, d: Client, cl: Line, firstLine: bool)
    requires InRange(c) && Same(c, d)
    ensures Same(HandleRuined(c, cl, firstLine).client, HandleRuined(d, cl, firstLine).client)
    ensures HandleRuined(c, cl, firstLine).effects == HandleRuined(d, cl, firstLine).effects
  {
    FailHeadSame(c, d, cl.raw);
    OpenSame(FailHead(c, cl.raw), FailHead(d, cl.raw), Orphan(0, true));
    OpenSame(c, d, Orphan(0, true));
  }

  lemma OutsideSame(c: Client, d: Client, cl: Line, firstLine: bool)
    requires InRange(c) && Same(c, d)
    ensures Same(HandleOutside(c, cl, firstLine).client, HandleOutside(d, cl, firstLine).client)
    ensures HandleOutside(c, cl, firstLine).effects == HandleOutside(d, cl, firstLine).effects
  {
    if cl.malformed {
      RuinedSame(c, d, cl, firstLine);
    } else {
      match cl.kind
      case Begin => BeginBlockSame(c, d, cl);
      case Notification => NotificationSame(c, d, cl);
      case Data => DataLineSame(c, d, cl.raw);
      case _ => EndBlockSame(c, d, cl);
    }
  }

  lemma ClosesSame(c: Client, d: Client, cl: Line)
    requires InRange(c) && Same(c, d)
    ensures Closes(c, cl) <==> Closes(d, cl)
  {
    if c.current.Reply? {
      assert SameFate(c.cmds[c.current.id], d.cmds[c.current.id]);
    }
  }

  lemma HandleLineSame(c: Client, d: Client, cl: Line)
    requires InRange(c) && Same(c, d)
    ensures Same(HandleLine(c, cl).client, HandleLine(d, cl).client)
    ensures HandleLine(c, cl).effects == HandleLine(d, cl).effects
  {
    var c', d' := FirstLine(c, cl), FirstLine(d, cl);
    assert Same(c', d');
    ClosesSame(c', d', cl);
    if c'.current == NoBlock {
      OutsideSame(c', d', cl, !c.sawFirstLine);
    } else if Closes(c', cl) {
      EndBlockSame(c', d', cl);
    } else {
      DataLineSame(c', d', cl.raw);
    }
  }

  lemma UnqueueSame(c: Client, d: Client, id: nat)
    requires Same(c, d) && id < |c.cmds|
    ensures Same(Unqueue(c, id), Unqueue(d, id))
  {
  }

  lemma FinishReaderSame(c: Client, d: Client)
    requires Same(c, d)
    ensures Same(FinishReader(c), FinishReader(d))
  {
    var ids := Waiting(c);
    assert ids == Waiting(d);
    var e, f := FinishAll(c.cmds, ids), FinishAll(d.cmds, ids);
    forall i | 0 <= i < |c.cmds| ensures SameFate(e[i], f[i]) {
      assert SameFate(c.cmds[i], d.cmds[i]);
    }
  }

  // No step looks at the text of a reply.
  lemma StepSame(c: Client, d: Client, a: Action)
    requires InRange(c) && Same(c, d)
    ensures Enabled(d, a) <==> Enabled(c, a)
    ensures Enabled(c, a) ==> Same(Step(c, a).0, Step(d, a).0) && Step(c, a).1 == Step(d, a).1
  {
    match a
    case Withdraw(id) =>
      if id < |c.cmds| {
        assert SameFate(c.cmds[id], d.cmds[id]);
        UnqueueSame(c, d, id);
      }
    case Recv(cl) => HandleLineSame(c, d, cl);
    case EndOfInput => FinishReaderSame(c, d);
    case _ =>
  }

  lemma SameChains(c: Client, d: Client, e: Client)
    requires Same(c, d)
    ensures Same(d, c)
    ensures Same(d, e) ==> Same(c, e)
  {
  }

  lemma {:induction false} SkeletonRuns(c: Client, e: Client, actions: seq<Action>, d: Client) returns (f: Client)
    requires Inv(c) && Inv(e) && Same(c, e) && Run(c, actions, d)
    ensures Run(e, Skeleton(c, actions), f) && Same(d, f)
    ensures Effects(e, Skeleton(c, actions)) == Effects(c, actions)
    decreases |actions|
  {
    if actions == [] {
      f := e;
    } else {
      var a := actions[0];
      var c' := Step(c, a).0;
      StepKeeps(c, a);
      if IsBody(c, a) {
        BodyOnlyGrows(c, a);
        SameChains(c, c', e);
        SameChains(c', c, e);
        f := SkeletonRuns(c', e, actions[1..], d);
      } else {
        StepSame(c, e, a);
        StepKeeps(e, a);
        f := SkeletonRuns(c', Step(e, a).0, actions[1..], d);
        var rest := Skeleton(c', actions[1..]);
        assert ([a] + rest)[1..] == rest;
      }
    }
  }

  lemma {:induction false} RunIsOne(c: Client, actions: seq<Action>, d: Client, e: Client)
    requires Run(c, actions, d) && Run(c, actions, e)
    ensures d == e
    decreases |actions|
  {
    if actions != [] {
      RunIsOne(Step(c, actions[0]).0, actions[1..], d, e);
    }
  }

  /** Two runs that differ only in lines inside open blocks, numbered, orphan or ruined, however
      many and whatever they look like, have the same effects and end in states that differ in
      nothing but the text of replies. */
  lemma BodiesDoNotInterfere(one: seq<Action>, two: seq<Action>, c: Client, d: Client)
    requires Run(INITIAL, one, c) && Run(INITIAL, two, d)
    requires Skeleton(INITIAL, one) == Skeleton(INITIAL, two)
    ensures Effects(INITIAL, one) == Effects(INITIAL, two)
    ensures Same(c, d)
  {
    var e := SkeletonRuns(INITIAL, INITIAL, one, c);
    var f := SkeletonRuns(INITIAL, INITIAL, two, d);
    RunIsOne(INITIAL, Skeleton(INITIAL, one), e, f);
    SameChains(d, f, c);
    SameChains(c, e, d);
  }

  // These lines, received one after the other.
  function RecvAll(lines: seq<string>): seq<Action> {
    if lines == [] then [] else [Recv(Classify(lines[0]))] + RecvAll(lines[1..])
  }

  function Grown(p: Command, lines: seq<string>): Command {
    p.(lines := p.lines + lines)
  }

  function WithLines(c: Client, id: nat, lines: seq<string>): Client
    requires id < |c.cmds|
  {
    c.(cmds := c.cmds[id := Grown(c.cmds[id], lines)])
  }

  lemma LineIsBody(c: Client, line: string)
    requires Inv(c) && c.current.Reply? && !Closes(c, Classify(line))
    ensures var h := HandleLine(c, Classify(line));
            h.effects == [] && h.client == WithLines(c, c.current.id, [line])
  {
    assert Classify(line).raw == line;
  }

  lemma WithLinesTwice(c: Client, id: nat, line: string, rest: seq<string>)
    requires id < |c.cmds|
    ensures WithLines(WithLines(c, id, [line]), id, rest) == WithLines(c, id, [line] + rest)
  {
    var p := c.cmds[id];
    assert p.lines + [line] + rest == p.lines + ([line] + rest);
    assert Grown(Grown(p, [line]), rest) == Grown(p, [line] + rest);
  }

  lemma WithNoLines(c: Client, id: nat)
    requires id < |c.cmds|
    ensures WithLines(c, id, []) == c
  {
    assert Grown(c.cmds[id], []) == c.cmds[id];
    assert c.cmds[id := c.cmds[id]] == c.cmds;
  }

  /** Whatever the lines of a reply look like, forged notifications and exits and other commands'
      terminators among them, they are its lines, every one in its place, and nothing else comes of them. */
  lemma {:induction false} ForgedLinesAreBody(c: Client, lines: seq<string>)
    requires Inv(c) && !c.finished && !c.sawExit && c.current.Reply?
    requires forall i :: 0 <= i < |lines| ==> !ClosesBlock(Classify(lines[i]), c.cmds[c.current.id].number, true)
    ensures Run(c, RecvAll(lines), WithLines(c, c.current.id, lines))
    ensures Effects(c, RecvAll(lines)) == []
    decreases |lines|
  {
    var id := c.current.id;
    if lines == [] {
      WithNoLines(c, id);
    } else {
      var line, rest := lines[0], lines[1..];
      LineIsBody(c, line);
      HandleLineKeeps(c, Classify(line));
      ForgedLinesAreBody(WithLines(c, id, [line]), rest);
      WithLinesTwice(c, id, line, rest);
      assert lines == [line] + rest && RecvAll(lines)[1..] == RecvAll(rest);
    }
  }

  // The grace timer has not fired, the stream goes on, and no terminator has come.
  predicate Quiet(a: Action) {
    !a.Grace? && !a.EndOfInput? && (a.Recv? ==> !IsTerminator(a.cl))
  }

  // A client whose first line was a ruined header, whatever has been asked of it since.
  predicate AtTheBarrier(c: Client) {
    c == INITIAL.(sawFirstLine := true, current := Orphan(0, true), closed := c.closed, userClose := c.userClose)
  }

  lemma BarrierStands(c: Client, a: Action)
    requires AtTheBarrier(c) && InRange(c) && Enabled(c, a) && Quiet(a)
    ensures AtTheBarrier(Step(c, a).0) && Step(c, a).1 == []
  {
  }

  lemma {:induction false} BarrierHolds(c: Client, actions: seq<Action>, d: Client)
    requires AtTheBarrier(c) && Run(c, actions, d)
    requires forall i :: 0 <= i < |actions| ==> Quiet(actions[i])
    ensures AtTheBarrier(d) && Effects(c, actions) == []
    decreases |actions|
  {
    if actions != [] {
      BarrierStands(c, actions[0]);
      BarrierHolds(Step(c, actions[0]).0, actions[1..], d);
    }
  }

  /** A ruined %begin on the connection's first line is reported and does not lift the startup
      barrier: nothing does but the grace timer, the end of the stream or a terminator, and
      the first terminator of any shape does. Until then no command can have been written, and every
      line is the orphan's. */
  lemma RuinedFirstLineHoldsTheBarrier(header: Line, actions: seq<Action>, d: Client, end: Line)
    requires header.kind == Begin && header.malformed && IsTerminator(end)
    requires Run(INITIAL, [Recv(header)] + actions, d)
    requires forall i :: 0 <= i < |actions| ==> Quiet(actions[i])
    ensures Effects(INITIAL, [Recv(header)] + actions) == [Emit(ProtocolError(header.raw, RuinedHeader(Begin)))]
    ensures d == INITIAL.(sawFirstLine := true, current := Orphan(0, true), closed := d.closed,
                          userClose := d.userClose)
    ensures var h := HandleLine(d, end);
            h.client == d.(started := true, current := NoBlock) && h.effects == []
  {
    var c := HandleLine(INITIAL, header).client;
    assert ([Recv(header)] + actions)[1..] == actions;
    assert AtTheBarrier(c);
    BarrierHolds(c, actions, d);
  }
}
