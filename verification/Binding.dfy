/** Every reply reaches the command that earned it: the client of Protocol against a tmux described
    on its own terms, over every interleaving of the two. */
module Binding {
  import opened Bytes
  import opened CtlParse
  import opened Protocol

  // The k-th reply, as tmux sent it; a ruined one had a header whose arguments do not parse.
  datatype TmuxReply =
    | Answer(number: int, body: seq<string>, failed: bool, flags: int, time: int)
    | Ruined

  datatype TmuxBlock =
    | Idle
    | Answering(number: int, body: seq<string>)
    | RuinedAnswer
    | Own(number: int)
    | RuinedOwn

  /** What tmux has been sent and has said: `written` command lines reached it, `broken` says the
      pipe to it is, `replies` are the ones it has finished with. */
  datatype Tmux = Tmux(written: nat, broken: bool, replies: seq<TmuxReply>, open: TmuxBlock)

  const FRESH := Tmux(0, false, [], Idle)

  // One line of tmux's, and the part tmux meant it to play.
  datatype Said =
    | ReplyHeader(cl: Line)
    | OwnHeader(cl: Line)
    | BodyLine(cl: Line)
    | Terminator(cl: Line)
    | Outside(cl: Line)

  datatype Move = Local(action: Action) | Heard(said: Said)

  function Begun(t: Tmux): nat {
    |t.replies| + if t.open.Answering? then 1 else 0
  }

  // A well-formed %end or %error with this number.
  predicate Bears(cl: Line, number: int) {
    IsTerminator(cl) && !cl.malformed && cl.number == number
  }

  // How tmux writes: a reply answers a command already written, and blocks are contiguous.
  predicate Speaks(t: Tmux, s: Said) {
    match s
    case ReplyHeader(cl) => t.open == Idle && cl.kind == Begin && Begun(t) < t.written
    case OwnHeader(cl) => t.open == Idle && cl.kind == Begin
    case BodyLine(_) => t.open != Idle
    case Terminator(_) => t.open != Idle
    case Outside(_) => t.open == Idle
  }

  // A line the open block is closed by.
  predicate Ends(t: Tmux, cl: Line) {
    match t.open
    case Idle => false
    case Answering(n, _) => Bears(cl, n)
    case Own(n) => Bears(cl, n)
    case _ => IsTerminator(cl)
  }

  /** What a client has to be able to tell. A reply is marked as one by its flags word or has none,
      and its header, if ruined, is not the connection's first line. A block tmux opened by itself is
      marked so, or comes while no command can have been written or none is queued; if its header is
      ruined, it is the first line or no written command is waiting. A body holds no terminator that
      would be taken for its own, and a block's terminator is one. */
  predicate Tells(c: Client, t: Tmux, s: Said) {
    match s
    case ReplyHeader(cl) => if cl.malformed then c.sawFirstLine else !UnsolicitedBlock(cl)
    case OwnHeader(cl) =>
      if cl.malformed then !c.sawFirstLine || Begun(t) == t.written
      else UnsolicitedBlock(cl) || !c.started || c.queue == []
    case BodyLine(cl) => !Ends(t, cl)
    case Terminator(cl) => Ends(t, cl)
    case Outside(cl) => cl.kind != Begin
  }

  // The tmux this client can be used with.
  predicate Says(c: Client, t: Tmux, s: Said) {
    Speaks(t, s) && Tells(c, t, s)
  }

  function Hear(t: Tmux, s: Said): Tmux {
    var cl := s.cl;
    match s
    case ReplyHeader(_) =>
      if cl.malformed then t.(open := RuinedAnswer, replies := t.replies + [Ruined])
      else t.(open := Answering(cl.number, []))
    case OwnHeader(_) => t.(open := if cl.malformed then RuinedOwn else Own(cl.number))
    case BodyLine(_) =>
      if t.open.Answering? then t.(open := Answering(t.open.number, t.open.body + [cl.raw])) else t
    case Terminator(_) =>
      if t.open.Answering? then
        t.(open := Idle,
           replies := t.replies + [Answer(t.open.number, t.open.body, cl.kind == Error, cl.flags, cl.time)])
      else t.(open := Idle)
    case Outside(_) => t
  }

  // A write that succeeds is one more line for tmux; one that fails means no later one succeeds.
  function Written(c: Client, t: Tmux, a: Action): Tmux {
    if a.Do? && !c.closed then
      if a.wrote then t.(written := t.written + 1) else t.(broken := true)
    else t
  }

  predicate Possible(c: Client, t: Tmux, m: Move) {
    match m
    case Local(a) => !a.Recv? && Enabled(c, a) && (a.Do? && a.wrote ==> !t.broken)
    case Heard(s) => Enabled(c, Recv(s.cl)) && Says(c, t, s)
  }

  function MoveClient(c: Client, m: Move): Client
    requires InRange(c) && (m.Local? ==> Enabled(c, m.action))
  {
    match m
    case Local(a) => Step(c, a).0
    case Heard(s) => HandleLine(c, s.cl).client
  }

  function MoveTmux(c: Client, t: Tmux, m: Move): Tmux {
    match m
    case Local(a) => Written(c, t, a)
    case Heard(s) => Hear(t, s)
  }

  ghost predicate Together(c: Client, t: Tmux, moves: seq<Move>, c': Client, t': Tmux)
    decreases |moves|
  {
    if moves == [] then c == c' && t == t'
    else
      && InRange(c) && Possible(c, t, moves[0])
      && Together(MoveClient(c, moves[0]), MoveTmux(c, t, moves[0]), moves[1..], c', t')
  }

  // --- What the two keep between them -----------------------------------------------------------

  // The command ended as the reply says.
  predicate Got(p: Command, r: TmuxReply) {
    match r
    case Ruined => p.err.Some? && !p.answered && p.lines == []
    case Answer(number, body, failed, flags, time) =>
      p.answered && p.err.None? && p.number == number && p.lines == body
      && p.failed == failed && p.flags == flags && p.time == time
  }

  predicate Unanswered(p: Command) {
    !p.answered && p.err.None?
  }

  // The reader's open block is the one tmux has open.
  predicate SameBlock(c: Client, t: Tmux)
    requires InRange(c)
  {
    match t.open
    case Idle => c.current == NoBlock
    case Answering(n, body) => c.current == Reply(|t.replies|) && c.cmds[|t.replies|].number == n
    case Own(n) => c.current == Orphan(n, false)
    case _ => c.current == Orphan(0, true)
  }

  ghost predicate QueueIsWaiting(c: Client, t: Tmux) {
    var n := t.written - Begun(t);
    && 0 <= n <= |c.queue|
    && (!t.broken ==> n == |c.queue|)
    && (forall i :: 0 <= i < n ==> c.queue[i] == Begun(t) + i)
    && (forall i :: n <= i < |c.queue| ==> c.queue[i] >= t.written)
  }

  ghost predicate Outcomes(c: Client, t: Tmux) {
    && Begun(t) <= t.written <= |c.cmds|
    && (!t.broken ==> t.written == |c.cmds|)
    && (forall k :: 0 <= k < |c.cmds| ==> (c.cmds[k].writeFailed <==> k >= t.written))
    && (forall k :: 0 <= k < t.written ==> !c.cmds[k].withdrawn)
    && (forall k :: 0 <= k < |t.replies| ==> Got(c.cmds[k], t.replies[k]))
    && (forall k :: |t.replies| <= k < t.written ==> Unanswered(c.cmds[k]))
    && (forall k :: Begun(t) <= k < t.written ==> c.cmds[k].lines == [])
    && (t.open.Answering? ==> c.cmds[|t.replies|].lines == t.open.body)
  }

  ghost predicate InStep(c: Client, t: Tmux)
    requires InRange(c)
  {
    Outcomes(c, t) && (!c.finished ==> SameBlock(c, t) && QueueIsWaiting(c, t))
  }

  ghost predicate Matches(c: Client, t: Tmux) {
    Inv(c) && InStep(c, t)
  }

  lemma EnqueueInStep(c: Client, t: Tmux, text: string, wrote: bool)
    requires InRange(c) && InStep(c, t) && !c.closed && (wrote ==> !t.broken)
    ensures var d := Enqueue(c, text, wrote);
            && InRange(d)
            && InStep(d, if wrote then t.(written := t.written + 1) else t.(broken := true))
  {
    var d, u := Enqueue(c, text, wrote), if wrote then t.(written := t.written + 1) else t.(broken := true);
    assert forall k :: 0 <= k < |c.cmds| ==> d.cmds[k] == c.cmds[k];
    assert Outcomes(d, u);
    assert !c.finished ==> QueueIsWaiting(d, u);
  }

  lemma DoMatches(c: Client, t: Tmux, text: string, wrote: bool)
    requires Matches(c, t) && Possible(c, t, Local(Do(text, wrote)))
    ensures Matches(Enqueue(c, text, wrote), Written(c, t, Do(text, wrote)))
  {
    EnqueueKeeps(c, text, wrote);
    if !c.closed {
      EnqueueInStep(c, t, text, wrote);
    }
  }

  lemma {:induction false} WithoutTail(queue: seq<nat>, id: nat, n: nat)
    requires n <= |queue| && (forall i :: 0 <= i < n ==> queue[i] < id)
    ensures n <= |Without(queue, id)| && Without(queue, id)[..n] == queue[..n]
    ensures forall x :: x in Without(queue, id)[n..] ==> x in queue[n..]
  {
    if n > 0 {
      WithoutTail(queue[1..], id, n - 1);
      assert Without(queue, id) == [queue[0]] + Without(queue[1..], id);
      assert Without(queue, id)[n..] == Without(queue[1..], id)[n - 1..];
      assert queue[n..] == queue[1..][n - 1..];
    } else {
      WithoutSubset(queue, id);
      assert Without(queue, id)[0..] == Without(queue, id) && queue[0..] == queue;
    }
  }

  lemma {:induction false} WithoutSubset(queue: seq<nat>, id: nat)
    ensures forall x :: x in Without(queue, id) ==> x in queue
  {
    if queue != [] {
      WithoutSubset(queue[1..], id);
    }
  }

  lemma WithdrawMatches(c: Client, t: Tmux, id: nat)
    requires Matches(c, t) && Possible(c, t, Local(Withdraw(id)))
    ensures Matches(Unqueue(c, id), t)
  {
    UnqueueKeeps(c, id);
    if id in c.queue {
      assert Outcomes(Unqueue(c, id), t);
      if !c.finished {
        WithdrawWaiting(c, t, id);
        assert SameBlock(Unqueue(c, id), t);
      }
    }
  }

  // A command that was not written stands behind the ones that were.
  lemma WithdrawWaiting(c: Client, t: Tmux, id: nat)
    requires QueueIsWaiting(c, t) && id >= t.written && !(!t.broken && id in c.queue)
    ensures QueueIsWaiting(c.(queue := Without(c.queue, id)), t)
  {
    var n := t.written - Begun(t);
    WithoutTail(c.queue, id, n);
    var q := Without(c.queue, id);
    forall i | 0 <= i < n ensures q[i] == Begun(t) + i {
      assert q[..n][i] == c.queue[..n][i];
    }
    forall i | n <= i < |q| ensures q[i] >= t.written {
      assert q[n..][i - n] in c.queue[n..];
    }
    if !t.broken {
      WithoutAbsent(c.queue, id);
    }
  }

  lemma {:induction false} WithoutAbsent(queue: seq<nat>, id: nat)
    requires id !in queue
    ensures Without(queue, id) == queue
  {
    if queue != [] {
      WithoutAbsent(queue[1..], id);
    }
  }

  lemma LocalMatches(c: Client, t: Tmux, a: Action)
    requires Matches(c, t) && Possible(c, t, Local(a))
    ensures Matches(Step(c, a).0, Written(c, t, a))
  {
    match a
    case Do(text, wrote) => DoMatches(c, t, text, wrote);
    case Withdraw(id) => WithdrawMatches(c, t, id);
    case Grace => FlagsMatch(c, c.(started := true), t);
    case Close => FlagsMatch(c, c.(closed := true, userClose := true), t);
    case EndOfInput => FinishMatches(c, t);
    case Cancel(_) =>
    case Recv(_) =>
  }

  lemma FlagsMatch(c: Client, d: Client, t: Tmux)
    requires Matches(c, t) && d == c.(started := d.started, closed := d.closed, userClose := d.userClose)
    requires (c.started ==> d.started) && (c.closed ==> d.closed)
    ensures Matches(d, t)
  {
    SameCommands(c, d);
  }

  lemma FinishMatches(c: Client, t: Tmux)
    requires Matches(c, t)
    ensures Matches(FinishReader(c), t)
  {
    FinishReaderKeeps(c);
    FinishOutcomes(c, t, FinishAll(c.cmds, Waiting(c)));
  }

  // Waking commands tells nothing of how they ended.
  lemma FinishOutcomes(c: Client, t: Tmux, cmds: seq<Command>)
    requires Outcomes(c, t) && |cmds| == |c.cmds|
    requires forall k :: 0 <= k < |cmds| ==> cmds[k] == c.cmds[k].(finishes := cmds[k].finishes)
    ensures Outcomes(c.(closed := true, started := true, finished := true, queue := [], current := NoBlock,
                        cmds := cmds), t)
  {
  }

  // The first line only ever lifts the barrier.
  lemma FirstLineMatches(c: Client, t: Tmux, cl: Line)
    requires Matches(c, t)
    ensures Matches(FirstLine(c, cl), t)
  {
    SameCommands(c, FirstLine(c, cl));
  }

  // A reply's header finds its own command at the head of the queue.
  lemma HeadIsNext(c: Client, t: Tmux)
    requires Matches(c, t) && !c.finished && Begun(t) < t.written && t.open == Idle
    ensures c.started && c.queue != [] && c.queue[0] == |t.replies|
    ensures forall i :: 0 <= i < |c.queue| - 1 ==> c.queue[1..][i] == c.queue[i + 1]
  {
  }

  lemma BeginReplyMatches(c: Client, t: Tmux, cl: Line)
    requires Matches(c, t) && !c.finished && c.sawFirstLine
    requires t.open == Idle && Begun(t) < t.written && !UnsolicitedBlock(cl)
    ensures Matches(BeginBlock(c, cl), t.(open := Answering(cl.number, [])))
  {
    HeadIsNext(c, t);
    BeginBlockKeeps(c, cl);
  }

  lemma RuinedReplyMatches(c: Client, t: Tmux, cl: Line)
    requires Matches(c, t) && !c.finished && c.sawFirstLine && cl.kind == Begin
    requires t.open == Idle && Begun(t) < t.written
    ensures Matches(HandleRuined(c, cl, false).client, t.(open := RuinedAnswer, replies := t.replies + [Ruined]))
  {
    HeadIsNext(c, t);
    HandleRuinedKeeps(c, cl, false);
    var d, u := HandleRuined(c, cl, false).client, t.(open := RuinedAnswer, replies := t.replies + [Ruined]);
    assert d.cmds == c.cmds[|t.replies| := d.cmds[|t.replies|]];
    assert Outcomes(d, u);
  }

  lemma ReplyHeaderMatches(c: Client, t: Tmux, cl: Line)
    requires Matches(c, t) && Possible(c, t, Heard(ReplyHeader(cl)))
    ensures Matches(HandleLine(c, cl).client, Hear(t, ReplyHeader(cl)))
  {
    FirstLineMatches(c, t, cl);
    if cl.malformed {
      RuinedReplyMatches(FirstLine(c, cl), t, cl);
    } else {
      BeginReplyMatches(FirstLine(c, cl), t, cl);
    }
  }

  lemma OwnHeaderMatches(c: Client, t: Tmux, cl: Line)
    requires Matches(c, t) && Possible(c, t, Heard(OwnHeader(cl)))
    ensures Matches(HandleLine(c, cl).client, Hear(t, OwnHeader(cl)))
  {
    FirstLineMatches(c, t, cl);
    if cl.malformed {
      RuinedOwnMatches(FirstLine(c, cl), t, cl, !c.sawFirstLine);
    } else {
      OwnBlockMatches(FirstLine(c, cl), t, cl);
    }
  }

  lemma OwnBlockMatches(c: Client, t: Tmux, cl: Line)
    requires Matches(c, t) && !c.finished && c.sawFirstLine && t.open == Idle
    requires UnsolicitedBlock(cl) || !c.started || c.queue == []
    ensures Matches(BeginBlock(c, cl), t.(open := Own(cl.number)))
  {
    BeginBlockKeeps(c, cl);
  }

  // With no written command waiting, only one whose write failed can be at the head.
  lemma RuinedOwnMatches(c: Client, t: Tmux, cl: Line, firstLine: bool)
    requires Matches(c, t) && !c.finished && c.sawFirstLine && t.open == Idle && cl.kind == Begin
    requires firstLine || Begun(t) == t.written
    ensures Matches(HandleRuined(c, cl, firstLine).client, t.(open := RuinedOwn))
  {
    HandleRuinedKeeps(c, cl, firstLine);
    var d, u := HandleRuined(c, cl, firstLine).client, t.(open := RuinedOwn);
    if !firstLine && c.queue != [] {
      var id := c.queue[0];
      assert id >= t.written && d.cmds == c.cmds[id := d.cmds[id]];
      assert forall i :: 0 <= i < |d.queue| ==> d.queue[i] == c.queue[i + 1];
    }
    assert Outcomes(d, u);
  }

  lemma DataLineMatches(c: Client, t: Tmux, cl: Line)
    requires Matches(c, t) && !c.finished && t.open != Idle
    ensures Matches(DataLine(c, cl.raw).0, Hear(t, BodyLine(cl)))
  {
    DataLineKeeps(c, cl.raw);
    DataLineInStep(c, t, cl);
  }

  lemma DataLineInStep(c: Client, t: Tmux, cl: Line)
    requires InRange(c) && InStep(c, t) && !c.finished && t.open != Idle
    ensures var d := DataLine(c, cl.raw).0; InRange(d) && InStep(d, Hear(t, BodyLine(cl)))
  {
    var k, d, u := |t.replies|, DataLine(c, cl.raw).0, Hear(t, BodyLine(cl));
    if t.open.Answering? {
      assert c.current == Reply(k) && d.cmds == c.cmds[k := d.cmds[k]];
    }
    assert Outcomes(d, u);
  }

  lemma BodyMatches(c: Client, t: Tmux, cl: Line)
    requires Matches(c, t) && Possible(c, t, Heard(BodyLine(cl)))
    ensures Matches(HandleLine(c, cl).client, Hear(t, BodyLine(cl)))
  {
    DataLineMatches(c, t, cl);
    assert !Closes(c, cl);
  }

  lemma AnswerOutcomes(c: Client, t: Tmux, cl: Line)
    requires InRange(c) && InStep(c, t) && !c.finished && t.open.Answering? && IsTerminator(cl)
    ensures Outcomes(EndBlock(c, cl).0, Hear(t, Terminator(cl)))
  {
    var k := |t.replies|;
    var d, u := EndBlock(c, cl).0, Hear(t, Terminator(cl));
    assert c.current == Reply(k) && d.cmds == c.cmds[k := d.cmds[k]];
    assert u.replies[..k] == t.replies && Got(d.cmds[k], u.replies[k]);
    assert Begun(u) == Begun(t);
  }

  lemma EndBlockMatches(c: Client, t: Tmux, cl: Line)
    requires Matches(c, t) && !c.finished && t.open != Idle && IsTerminator(cl)
    ensures Matches(EndBlock(c, cl).0, Hear(t, Terminator(cl)))
  {
    EndBlockKeeps(c, cl);
    EndBlockInStep(c, t, cl);
  }

  lemma EndBlockInStep(c: Client, t: Tmux, cl: Line)
    requires InRange(c) && InStep(c, t) && !c.finished && t.open != Idle && IsTerminator(cl)
    ensures var d := EndBlock(c, cl).0; InRange(d) && InStep(d, Hear(t, Terminator(cl)))
  {
    if t.open.Answering? {
      AnswerOutcomes(c, t, cl);
    }
    var d, u := EndBlock(c, cl).0, Hear(t, Terminator(cl));
    assert Begun(u) == Begun(t) && d.queue == c.queue;
  }

  lemma TerminatorMatches(c: Client, t: Tmux, cl: Line)
    requires Matches(c, t) && Possible(c, t, Heard(Terminator(cl)))
    ensures Matches(HandleLine(c, cl).client, Hear(t, Terminator(cl)))
  {
    FirstLineMatches(c, t, cl);
    EndBlockMatches(FirstLine(c, cl), t, cl);
  }

  lemma OutsideMatches(c: Client, t: Tmux, cl: Line)
    requires Matches(c, t) && Possible(c, t, Heard(Outside(cl)))
    ensures Matches(HandleLine(c, cl).client, t)
  {
    FirstLineMatches(c, t, cl);
    IdleMatches(FirstLine(c, cl), t, cl, !c.sawFirstLine);
  }

  // Between blocks a line that opens none moves no command.
  lemma IdleMatches(c: Client, t: Tmux, cl: Line, firstLine: bool)
    requires Matches(c, t) && !c.finished && c.sawFirstLine && t.open == Idle && cl.kind != Begin
    ensures Matches(HandleOutside(c, cl, firstLine).client, t)
  {
    HandleOutsideKeeps(c, cl, firstLine);
    if cl.kind == Notification && !cl.malformed {
      NotificationOnly(c, cl);
    }
    var d := HandleOutside(c, cl, firstLine).client;
    assert d.cmds == c.cmds && d.queue == c.queue && d.current == c.current && d.finished == c.finished;
  }

  // A ruined header that answers a command, or one of tmux's own while a command waits: the command at
  // the head is failed, or is not, and tmux says otherwise.
  lemma RuinedMistaken(c: Client, t: Tmux, cl: Line, firstLine: bool)
    requires Matches(c, t) && !c.finished && t.open == Idle && cl.kind == Begin && Begun(t) < t.written
    ensures var e := HandleRuined(c, cl, firstLine).client;
            && (firstLine ==> !Outcomes(e, t.(open := RuinedAnswer, replies := t.replies + [Ruined])))
            && (!firstLine ==> !Outcomes(e, t.(open := RuinedOwn)))
  {
    HeadIsNext(c, t);
    var e, k := HandleRuined(c, cl, firstLine).client, |t.replies|;
    assert Unanswered(c.cmds[k]);
    if firstLine {
      assert (t.replies + [Ruined])[k] == Ruined && e.cmds == c.cmds;
    } else {
      assert e.cmds[k].err.Some?;
    }
  }

  // A header taken for the other kind opens the wrong block.
  lemma BlockMistaken(c: Client, t: Tmux, cl: Line)
    requires Matches(c, t) && !c.finished && t.open == Idle
    ensures var d := BeginBlock(c, cl);
            && InRange(d)
            && (UnsolicitedBlock(cl) ==> !SameBlock(d, t.(open := Answering(cl.number, []))))
            && (!UnsolicitedBlock(cl) && c.started && c.queue != [] ==> !SameBlock(d, t.(open := Own(cl.number))))
  {
    if c.queue != [] {
      assert forall i :: 0 <= i < |c.queue[1..]| ==> c.queue[1..][i] == c.queue[i + 1];
    }
  }

  lemma HeaderMistaken(c: Client, t: Tmux, s: Said)
    requires Matches(c, t) && !c.finished && Speaks(t, s) && !Tells(c, t, s) && (s.ReplyHeader? || s.OwnHeader?)
    ensures !Matches(HandleLine(c, s.cl).client, Hear(t, s))
  {
    var d := FirstLine(c, s.cl);
    FirstLineMatches(c, t, s.cl);
    if s.cl.malformed {
      RuinedMistaken(d, t, s.cl, !c.sawFirstLine);
    } else {
      BlockMistaken(d, t, s.cl);
    }
  }

  // A line of a block taken for the end of it, or the end for a line.
  lemma InsideMistaken(c: Client, t: Tmux, s: Said)
    requires Matches(c, t) && !c.finished && t.open != Idle && !Tells(c, t, s) && (s.BodyLine? || s.Terminator?)
    ensures !Matches(HandleLine(c, s.cl).client, Hear(t, s))
  {
    assert c.sawFirstLine && Closes(c, s.cl) == Ends(t, s.cl);
    var d := HandleLine(c, s.cl).client;
    assert d.current == NoBlock <==> Ends(t, s.cl);
    assert Hear(t, s).open == Idle <==> s.Terminator?;
  }

  // And a block that opens where tmux opened none.
  lemma OutsideMistaken(c: Client, t: Tmux, cl: Line)
    requires Matches(c, t) && !c.finished && t.open == Idle && cl.kind == Begin
    ensures !Matches(HandleLine(c, cl).client, t)
  {
    assert HandleLine(c, cl).client.current != NoBlock;
  }

  /** Line by line the assumption is exact: however tmux speaks, the client and tmux stay in step over
      a line if and only if the client can tell from it what it is. */
  lemma TellingIsExact(c: Client, t: Tmux, s: Said)
    requires Matches(c, t) && Enabled(c, Recv(s.cl)) && Speaks(t, s)
    ensures Matches(HandleLine(c, s.cl).client, Hear(t, s)) <==> Tells(c, t, s)
  {
    if Tells(c, t, s) {
      MoveMatches(c, t, Heard(s));
    } else if s.ReplyHeader? || s.OwnHeader? {
      HeaderMistaken(c, t, s);
    } else if s.Outside? {
      OutsideMistaken(c, t, s.cl);
    } else {
      InsideMistaken(c, t, s);
    }
  }

  lemma MoveMatches(c: Client, t: Tmux, m: Move)
    requires Matches(c, t) && Possible(c, t, m)
    ensures Matches(MoveClient(c, m), MoveTmux(c, t, m))
  {
    match m
    case Local(a) => LocalMatches(c, t, a);
    case Heard(ReplyHeader(cl)) => ReplyHeaderMatches(c, t, cl);
    case Heard(OwnHeader(cl)) => OwnHeaderMatches(c, t, cl);
    case Heard(BodyLine(cl)) => BodyMatches(c, t, cl);
    case Heard(Terminator(cl)) => TerminatorMatches(c, t, cl);
    case Heard(Outside(cl)) => OutsideMatches(c, t, cl);
  }

  lemma {:induction false} TogetherMatches(c: Client, t: Tmux, moves: seq<Move>, c': Client, t': Tmux)
    requires Matches(c, t) && Together(c, t, moves, c', t')
    ensures Matches(c', t')
    decreases |moves|
  {
    if moves != [] {
      MoveMatches(c, t, moves[0]);
      TogetherMatches(MoveClient(c, moves[0]), MoveTmux(c, t, moves[0]), moves[1..], c', t');
    }
  }

  // What Do returns once its command is finished.
  datatype DoResult = ReplyTo(number: int, body: seq<string>, flags: int, time: int)
                    | ControlError(number: int, body: seq<string>, flags: int, time: int)
                    | Abandoned | Ended(partial: seq<string>)

  function Result(p: Command): DoResult {
    if p.err.Some? then Abandoned
    else if !p.answered then Ended(p.lines)
    else if p.failed then ControlError(p.number, p.lines, p.flags, p.time)
    else ReplyTo(p.number, p.lines, p.flags, p.time)
  }

  function Expected(r: TmuxReply): DoResult {
    match r
    case Ruined => Abandoned
    case Answer(number, body, failed, flags, time) =>
      if failed then ControlError(number, body, flags, time) else ReplyTo(number, body, flags, time)
  }

  /** Over every interleaving of Do, failing writes, cancelled callers, the grace timer, Close, the
      end of the stream and tmux's own lines: the k-th command written returns exactly the k-th
      reply, body, success and all; the ones whose reply header was ruined, and only they, are
      abandoned; a command tmux has not finished answering is still waiting, or was woken by the
      teardown with whatever part of its body had come. */
  lemma EachCommandGetsItsReply(moves: seq<Move>, c: Client, t: Tmux)
    requires Together(INITIAL, FRESH, moves, c, t)
    ensures |t.replies| <= t.written <= |c.cmds|
    ensures forall k :: 0 <= k < |t.replies| ==>
                          c.cmds[k].finishes == 1 && Result(c.cmds[k]) == Expected(t.replies[k])
    ensures forall k :: |t.replies| <= k < t.written ==>
                          && c.cmds[k].finishes == (if c.finished then 1 else 0)
                          && Result(c.cmds[k]) ==
                             Ended(if k == |t.replies| && t.open.Answering? then t.open.body else [])
    ensures !c.finished && t.open == Idle ==> forall k: nat :: k < t.written ==> (k in c.queue <==> k >= |t.replies|)
  {
    TogetherMatches(INITIAL, FRESH, moves, c, t);
    forall k | 0 <= k < |t.replies|
      ensures c.cmds[k].finishes == 1 && Result(c.cmds[k]) == Expected(t.replies[k])
    {
      AnsweredAsSaid(c, t, k);
    }
    MatchedWait(c, t);
  }

  lemma MatchedWait(c: Client, t: Tmux)
    requires Matches(c, t)
    ensures forall k :: |t.replies| <= k < t.written ==>
                          && c.cmds[k].finishes == (if c.finished then 1 else 0)
                          && Result(c.cmds[k]) ==
                             Ended(if k == |t.replies| && t.open.Answering? then t.open.body else [])
    ensures !c.finished && t.open == Idle ==> forall k: nat :: k < t.written ==> (k in c.queue <==> k >= |t.replies|)
  {
    forall k | |t.replies| <= k < t.written
      ensures c.cmds[k].finishes == if c.finished then 1 else 0
      ensures Result(c.cmds[k]) == Ended(if k == |t.replies| && t.open.Answering? then t.open.body else [])
    {
      NotYetAnswered(c, t, k);
    }
    if !c.finished && t.open == Idle {
      forall k: nat | k < t.written ensures k in c.queue <==> k >= |t.replies| {
        WaitsItsTurn(c, t, k);
      }
    }
  }

  lemma AnsweredAsSaid(c: Client, t: Tmux, k: nat)
    requires Matches(c, t) && k < |t.replies|
    ensures k < |c.cmds| && c.cmds[k].finishes == 1 && Result(c.cmds[k]) == Expected(t.replies[k])
  {
    assert Got(c.cmds[k], t.replies[k]) && Fates(c, k) == 1;
  }

  lemma NotYetAnswered(c: Client, t: Tmux, k: nat)
    requires Matches(c, t) && |t.replies| <= k < t.written
    ensures k < |c.cmds| && c.cmds[k].finishes == if c.finished then 1 else 0
    ensures Result(c.cmds[k]) == Ended(if k == |t.replies| && t.open.Answering? then t.open.body else [])
  {
    assert Fates(c, k) == 1 && Unanswered(c.cmds[k]) && !c.cmds[k].withdrawn;
    if !c.finished && k >= Begun(t) {
      assert c.queue[k - Begun(t)] == k;
    }
  }

  lemma WaitsItsTurn(c: Client, t: Tmux, k: nat)
    requires Matches(c, t) && !c.finished && t.open == Idle && k < t.written
    ensures k in c.queue <==> k >= |t.replies|
  {
    if k >= |t.replies| {
      assert c.queue[k - Begun(t)] == k;
    } else {
      assert Got(c.cmds[k], t.replies[k]) && Fates(c, k) == 1;
    }
  }

  // A line marked as a reply that no written command earned.
  predicate ExtraBlock(c: Client, cl: Line) {
    cl.kind == Begin && !cl.malformed && !UnsolicitedBlock(cl) && c.started && c.queue != []
  }

  /** Without the assumption on tmux the binding does shift: whenever a command is waiting, a
      well-formed block nobody earned takes it, and that command is answered with the block's body
      and no error. */
  lemma ExtraBlockTakesTheHead(c: Client, header: Line, end: Line)
    requires Inv(c) && !c.finished && c.current == NoBlock && c.sawFirstLine && ExtraBlock(c, header)
    requires end.kind == End && !end.malformed && end.number == header.number
    ensures var id := c.queue[0];
            var d := HandleLine(HandleLine(c, header).client, end).client;
            && d.queue == c.queue[1..]
            && d.cmds[id].finishes == 1
            && Result(d.cmds[id]) == ReplyTo(header.number, c.cmds[id].lines, end.flags, end.time)
  {
    var id := c.queue[0];
    assert Fates(c, id) == 1;
    HandleLineKeeps(c, header);
  }

  /** A ruined header is taken for a reply's. When tmux had opened that block by itself, the command
      at the head is failed though tmux will answer it, and its answer goes to the one behind. */
  lemma AWrongGuessShifts(c: Client, ruined: Line, stop: Line, header: Line, end: Line)
    requires Inv(c) && !c.finished && c.current == NoBlock && c.sawFirstLine && c.started && |c.queue| >= 2
    requires ruined.kind == Begin && ruined.malformed && IsTerminator(stop)
    requires header.kind == Begin && !header.malformed && !UnsolicitedBlock(header)
    requires end.kind == End && !end.malformed && end.number == header.number
    ensures var (first, second) := (c.queue[0], c.queue[1]);
            var d := HandleLine(HandleLine(c, ruined).client, stop).client;
            var e := HandleLine(HandleLine(d, header).client, end).client;
            && Result(d.cmds[first]) == Abandoned && d.cmds[first].finishes == 1
            && Result(e.cmds[second]) == ReplyTo(header.number, c.cmds[second].lines, end.flags, end.time)
  {
    var d := RuinedAndStopped(c, ruined, stop);
    ExtraBlockTakesTheHead(d, header, end);
  }

  lemma RuinedAndStopped(c: Client, ruined: Line, stop: Line) returns (d: Client)
    requires Inv(c) && !c.finished && c.current == NoBlock && c.sawFirstLine && c.started && |c.queue| >= 2
    requires ruined.kind == Begin && ruined.malformed && IsTerminator(stop)
    ensures d == HandleLine(HandleLine(c, ruined).client, stop).client
    ensures Inv(d) && !d.finished && d.current == NoBlock && d.sawFirstLine && d.started && d.queue == c.queue[1..]
    ensures d.cmds == c.cmds[c.queue[0] := d.cmds[c.queue[0]]]
    ensures Result(d.cmds[c.queue[0]]) == Abandoned && d.cmds[c.queue[0]].finishes == 1
    ensures c.queue[0] != c.queue[1]
  {
    var e := HandleLine(c, ruined).client;
    HandleLineKeeps(c, ruined);
    HandleLineKeeps(e, stop);
    d := HandleLine(e, stop).client;
    assert Fates(c, c.queue[0]) == 1;
  }
}
