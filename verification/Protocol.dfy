/** control.go and control_reader.go: the command queue, the startup barrier and the open block, as
    one state and the steps that change it. Each step is what the source does under its lock. */
module Protocol {
  import opened Bytes
  import opened CtlParse
  import Escape
  import Vis

  // Why a line is reported as a protocol error.
  datatype Fault = RuinedHeader(kind: Kind) | StrayTerminator | StrayOutput | BadArguments(name: string)

  /** The events this model tells apart. Every notification it does not name becomes OtherNotification. */
  datatype Event =
    | PaneOutput(pane: string, data: string, extended: bool, ageMS: int)
    | SessionChanged(session: string, name: string)
    | OtherNotification(name: string, args: string)
    | ProtocolError(line: string, fault: Fault)
    | OutputDropped(pane: string, count: nat)
    | EventsDropped(count: nat)
    | Exited(reason: string, err: Option<string>)

  // What handling a line asks of the rest of the client, in order.
  datatype Effect = Emit(ev: Event) | Deliver(pane: string, data: string, extended: bool, ageMS: int)

  /** A `pending`: a command accepted by Do. `finishes` counts the calls of finish, and is not held
      at one by a sync.Once. `withdrawn` says unqueue took it off the queue. */
  datatype Command = Command(text: string, number: int, lines: seq<string>, flags: int, time: int,
                             failed: bool, answered: bool, err: Option<string>, finishes: nat,
                             writeFailed: bool, withdrawn: bool)

  datatype Block = NoBlock | Reply(id: nat) | Orphan(number: int, unnumbered: bool)

  /** Commands are named by the order Do accepted them in; `cmds` holds every one there has been. */
  datatype Client = Client(cmds: seq<Command>, queue: seq<nat>, current: Block, started: bool,
                           sawFirstLine: bool, closed: bool, userClose: bool, sawExit: bool,
                           attached: string, exitMsg: string, finished: bool)

  const INITIAL := Client([], [], NoBlock, false, false, false, false, false, "", "", false)

  function New(text: string, wrote: bool): Command {
    Command(text, 0, [], 0, 0, false, false, None, 0, !wrote, false)
  }

  // --- Do, unqueue, Close and the grace timer -------------------------------------------------

  function Enqueue(c: Client, text: string, wrote: bool): Client {
    if c.closed then c
    else c.(cmds := c.cmds + [New(text, wrote)], queue := c.queue + [|c.cmds|])
  }

  function Without(queue: seq<nat>, id: nat): seq<nat> {
    if queue == [] then []
    else if queue[0] == id then queue[1..]
    else [queue[0]] + Without(queue[1..], id)
  }

  function Unqueue(c: Client, id: nat): Client
    requires id < |c.cmds|
  {
    if id !in c.queue then c
    else c.(queue := Without(c.queue, id), cmds := c.cmds[id := c.cmds[id].(withdrawn := true)])
  }

  // --- The reader's handlers -------------------------------------------------------------------

  predicate IsTerminator(cl: Line) {
    cl.kind == End || cl.kind == Error
  }

  // closesBlock
  predicate ClosesBlock(cl: Line, number: int, numbered: bool) {
    IsTerminator(cl) && (numbered ==> !cl.malformed && cl.number == number)
  }

  predicate Closes(c: Client, cl: Line)
    requires c.current.Reply? ==> c.current.id < |c.cmds|
  {
    match c.current
    case NoBlock => false
    case Reply(id) => ClosesBlock(cl, c.cmds[id].number, true)
    case Orphan(number, unnumbered) => ClosesBlock(cl, number, !unnumbered)
  }

  predicate UnsolicitedBlock(cl: Line) {
    cl.hasFlags && cl.flags == 0
  }

  ghost predicate InRange(c: Client) {
    && (forall i :: 0 <= i < |c.queue| ==> c.queue[i] < |c.cmds|)
    && (c.current.Reply? ==> c.current.id < |c.cmds|)
  }

  function BeginBlock(c: Client, cl: Line): Client
    requires InRange(c)
  {
    if !c.started || UnsolicitedBlock(cl) || c.queue == [] then c.(current := Orphan(cl.number, false))
    else
      var id := c.queue[0];
      c.(queue := c.queue[1..], current := Reply(id), cmds := c.cmds[id := c.cmds[id].(number := cl.number)])
  }

  function FailHead(c: Client, line: string): Client
    requires InRange(c)
  {
    if c.queue == [] then c
    else
      var id := c.queue[0];
      var p := c.cmds[id];
      c.(queue := c.queue[1..], cmds := c.cmds[id := p.(err := Some(line), finishes := p.finishes + 1)])
  }

  function EndBlock(c: Client, cl: Line): (Client, seq<Effect>)
    requires InRange(c)
  {
    var open := c.(started := true, current := NoBlock);
    match c.current
    case NoBlock => (open, [Emit(ProtocolError(cl.raw, StrayTerminator))])
    case Orphan(_, _) => (open, [])
    case Reply(id) =>
      var p := c.cmds[id].(failed := cl.kind == Error, answered := true, flags := cl.flags, time := cl.time);
      (open.(cmds := c.cmds[id := p.(finishes := p.finishes + 1)]), [])
  }

  function DataLine(c: Client, line: string): (Client, seq<Effect>)
    requires InRange(c)
  {
    match c.current
    case NoBlock => (c, if line == "" then [] else [Emit(ProtocolError(line, StrayOutput))])
    case Orphan(_, _) => (c, [])
    case Reply(id) => (c.(cmds := c.cmds[id := c.cmds[id].(lines := c.cmds[id].lines + [line])]), [])
  }

  // "$id name": ParseIDAndName with the identifier checked.
  function ParseSession(args: string): Option<(string, string)> {
    var (id, name, _) := CutByte(args, ' ');
    if IsID(id, '$') then Some((id, name)) else None
  }

  const DCS_EXIT := "\U{1B}\\"

  function TrimSuffixString(s: string, suffix: string): string {
    if |suffix| <= |s| && s[|s| - |suffix|..] == suffix then s[..|s| - |suffix|] else s
  }

  function ExitReason(args: string): string {
    TrimSpace(TrimSuffixString(TrimSpace(args), DCS_EXIT))
  }

  datatype Handled = Handled(client: Client, effects: seq<Effect>, goOn: bool)

  // Neither a blank nor the terminator of -CC at either end.
  predicate PlainReason(reason: string) {
    TrimSpace(reason) == reason && TrimSuffixString(reason, DCS_EXIT) == reason
  }

  // Where trimming leaves a text as it is, no blank stands at either end of it.
  lemma TrimmedEnds(s: string)
    requires TrimSpace(s) == s && s != ""
    ensures !IsSpace(s[0]) && !IsSpace(s[|s| - 1])
  {
    assert |TrimSpace(s)| <= |TrimLeft(s)|;
  }

  lemma {:induction false} TrimLeftBlank(before: string, s: string)
    requires Blank(before) && (s == "" || !IsSpace(s[0]))
    ensures TrimLeft(before + s) == s
  {
    if before == "" {
      assert before + s == s;
    } else {
      assert (before + s)[1..] == before[1..] + s;
      TrimLeftBlank(before[1..], s);
    }
  }

  lemma {:induction false} TrimRightBlank(s: string, after: string)
    requires Blank(after) && (s == "" || !IsSpace(s[|s| - 1]))
    ensures TrimRight(s + after) == s
  {
    if after == "" {
      assert s + after == s;
    } else {
      var k := |after| - 1;
      assert (s + after)[..|s| + k] == s + after[..k];
      TrimRightBlank(s, after[..k]);
    }
  }

  lemma TrimPadded(before: string, s: string, after: string)
    requires Blank(before) && Blank(after)
    requires s == "" || (!IsSpace(s[0]) && !IsSpace(s[|s| - 1]))
    ensures TrimSpace(before + s + after) == s
  {
    if s == "" {
      assert before + s + after == before + after + "";
      TrimLeftBlank(before + after, "");
    } else {
      assert before + s + after == before + (s + after);
      TrimLeftBlank(before, s + after);
      TrimRightBlank(s, after);
    }
  }

  lemma ReasonAlone(before: string, reason: string, after: string)
    requires PlainReason(reason) && Blank(before) && Blank(after)
    ensures ExitReason(before + reason + after) == reason
  {
    if reason != "" {
      TrimmedEnds(reason);
    }
    TrimPadded(before, reason, after);
  }

  lemma ReasonTerminated(before: string, text: string, after: string)
    requires Blank(before) && Blank(after) && (text == "" || !IsSpace(text[0]))
    ensures ExitReason(before + (text + DCS_EXIT) + after) == TrimSpace(text)
  {
    var s := text + DCS_EXIT;
    assert s[|s| - 1] == '\\' && s[0] == if text == "" then '\U{1B}' else text[0];
    TrimPadded(before, s, after);
    assert s[|s| - |DCS_EXIT|..] == DCS_EXIT && s[..|s| - |DCS_EXIT|] == text;
  }

  /** tmux's reason for exiting is read as tmux gave it, under -CC and without, whatever blanks stand
      around it. */
  lemma ExitReasonRead(before: string, reason: string, gap: string, after: string)
    requires PlainReason(reason) && Blank(before) && Blank(gap) && Blank(after)
    ensures ExitReason(before + reason + after) == reason
    ensures ExitReason(before + (reason + gap + DCS_EXIT) + after) == reason
  {
    ReasonAlone(before, reason, after);
    if reason == "" {
      ReasonTerminated(before + gap, "", after);
      assert before + (reason + gap + DCS_EXIT) + after == before + gap + ("" + DCS_EXIT) + after;
    } else {
      TrimmedEnds(reason);
      ReasonTerminated(before, reason + gap, after);
      TrimPadded("", reason, gap);
      assert "" + reason + gap == reason + gap;
    }
  }

  function BadNotification(cl: Line): Effect {
    Emit(ProtocolError(cl.raw, BadArguments(cl.name)))
  }

  function OutputEffect(cl: Line, o: Option<Output>): Effect {
    if o.None? then BadNotification(cl)
    else Deliver(o.value.pane, Escape.Unescaped(o.value.data), o.value.extended, o.value.ageMS)
  }

  function HandleSession(c: Client, cl: Line): (Client, Effect) {
    var s := ParseSession(cl.args);
    if s.None? then (c, BadNotification(cl))
    else (c.(attached := s.value.0), Emit(SessionChanged(s.value.0, Vis.Decode(s.value.1))))
  }

  function HandleExit(c: Client, cl: Line): Client {
    c.(sawExit := true, exitMsg := ExitReason(cl.args))
  }

  // A notification moves no command, and only %exit stops the reader.
  function HandleNotification(c: Client, cl: Line): (h: Handled)
    ensures h.client == c.(attached := h.client.attached, sawExit := h.client.sawExit, exitMsg := h.client.exitMsg)
    ensures h.goOn ==> h.client.sawExit == c.sawExit
  {
    if cl.name == "output" then Handled(c, [OutputEffect(cl, ParseOutput(cl.args))], true)
    else if cl.name == "extended-output" then Handled(c, [OutputEffect(cl, ParseExtendedOutput(cl.args))], true)
    else if cl.name == "session-changed" then
      var (d, effect) := HandleSession(c, cl);
      Handled(d, [effect], true)
    else if cl.name == "exit" then Handled(HandleExit(c, cl), [], false)
    else Handled(c, [Emit(OtherNotification(cl.name, cl.args))], true)
  }

  // The first line settles whether there is a startup block to absorb.
  function FirstLine(c: Client, cl: Line): Client {
    if c.sawFirstLine then c
    else c.(sawFirstLine := true, started := c.started || cl.kind != Begin)
  }

  function HandleRuined(c: Client, cl: Line, firstLine: bool): Handled
    requires InRange(c)
  {
    var report := [Emit(ProtocolError(cl.raw, RuinedHeader(cl.kind)))];
    if cl.kind != Begin then Handled(c, report, true)
    else
      var d := if firstLine then c else FailHead(c, cl.raw);
      Handled(d.(current := Orphan(0, true)), report, true)
  }

  function HandleOutside(c: Client, cl: Line, firstLine: bool): Handled
    requires InRange(c)
  {
    if cl.malformed then HandleRuined(c, cl, firstLine)
    else
      match cl.kind
      case Begin => Handled(BeginBlock(c, cl), [], true)
      case Notification => HandleNotification(c, cl)
      case Data => var (d, effects) := DataLine(c, cl.raw); Handled(d, effects, true)
      case _ => var (d, effects) := EndBlock(c, cl); Handled(d, effects, true)
  }

  // handleLine, on the classified line.
  function HandleLine(c: Client, cl: Line): Handled
    requires InRange(c)
  {
    var d := FirstLine(c, cl);
    if d.current == NoBlock then HandleOutside(d, cl, !c.sawFirstLine)
    else
      var (e, effects) := if Closes(d, cl) then EndBlock(d, cl) else DataLine(d, cl.raw);
      Handled(e, effects, true)
  }

  function FinishAll(cmds: seq<Command>, ids: set<nat>): seq<Command> {
    seq(|cmds|, i requires 0 <= i < |cmds| =>
      if i in ids then cmds[i].(finishes := cmds[i].finishes + 1) else cmds[i])
  }

  function Waiting(c: Client): set<nat> {
    (set id | id in c.queue) + if c.current.Reply? then {c.current.id} else {}
  }

  // finishReader, as far as commands go.
  function FinishReader(c: Client): Client {
    c.(closed := true, started := true, finished := true, queue := [], current := NoBlock,
       cmds := FinishAll(c.cmds, Waiting(c)))
  }

  // --- Runs -----------------------------------------------------------------------------------

  /** Everything that can happen, in any order: `Withdraw` is the unqueue of a command whose write
      failed, which runs some time after the write; `Cancel` is a caller's context ending;
      `EndOfInput` is the end of the stream or the line after %exit. */
  datatype Action =
    | Do(text: string, wrote: bool)
    | Withdraw(id: nat)
    | Cancel(id: nat)
    | Grace
    | Recv(cl: Line)
    | Close
    | EndOfInput

  predicate Enabled(c: Client, a: Action) {
    match a
    case Do(_, _) => c.started
    case Withdraw(id) => id < |c.cmds| && c.cmds[id].writeFailed
    case Recv(_) => !c.finished && !c.sawExit
    case EndOfInput => !c.finished
    case _ => true
  }

  function Step(c: Client, a: Action): (Client, seq<Effect>)
    requires InRange(c) && Enabled(c, a)
  {
    match a
    case Do(text, wrote) => (Enqueue(c, text, wrote), [])
    case Withdraw(id) => (Unqueue(c, id), [])
    case Cancel(_) => (c, [])
    case Grace => (c.(started := true), [])
    case Recv(cl) => var h := HandleLine(c, cl); (h.client, h.effects)
    case Close => (c.(closed := true, userClose := true), [])
    case EndOfInput => (FinishReader(c), [])
  }

  // --- What every run keeps --------------------------------------------------------------------

  predicate TornDown(p: Command) {
    p.finishes == 1 && !p.answered && p.err.None?
  }

  // How many of the six fates a command has: queued, open, answered, failed, torn down, withdrawn.
  function Fates(c: Client, id: nat): nat
    requires id < |c.cmds|
  {
    var p := c.cmds[id];
    (if id in c.queue then 1 else 0) + (if c.current == Reply(id) then 1 else 0)
    + (if p.answered then 1 else 0) + (if p.err.Some? then 1 else 0)
    + (if TornDown(p) then 1 else 0) + (if p.withdrawn then 1 else 0)
  }

  predicate Settled(p: Command) {
    p.answered || p.err.Some? || TornDown(p)
  }

  ghost predicate OneFate(c: Client) {
    forall id :: 0 <= id < |c.cmds| ==>
                   Fates(c, id) == 1 && c.cmds[id].finishes == if Settled(c.cmds[id]) then 1 else 0
  }

  ghost predicate Ascending(queue: seq<nat>) {
    forall i, j :: 0 <= i < j < |queue| ==> queue[i] < queue[j]
  }

  ghost predicate Inv(c: Client) {
    && InRange(c)
    && Ascending(c.queue)
    && OneFate(c)
    && (!c.started ==> c.cmds == [] && c.queue == [])
    && (c.current != NoBlock ==> c.sawFirstLine)
    && (c.finished ==> c.closed && c.started && c.queue == [] && c.current == NoBlock)
  }

  lemma {:induction false} WithoutMembers(queue: seq<nat>, id: nat, x: nat)
    requires Ascending(queue)
    ensures x in Without(queue, id) <==> x in queue && x != id
  {
    if queue != [] {
      var rest := queue[1..];
      assert queue == [queue[0]] + rest;
      WithoutMembers(rest, id, x);
      assert forall y :: y in rest ==> y > queue[0];
    }
  }

  lemma {:induction false} WithoutAscends(queue: seq<nat>, id: nat)
    requires Ascending(queue)
    ensures Ascending(Without(queue, id))
  {
    if queue != [] && queue[0] != id {
      var rest := queue[1..];
      var w := Without(rest, id);
      WithoutAscends(rest, id);
      forall i | 0 <= i < |w| ensures w[i] > queue[0] {
        WithoutMembers(rest, id, w[i]);
        assert w[i] in rest;
      }
    }
  }

  lemma WithoutHolds(queue: seq<nat>, id: nat)
    requires Ascending(queue)
    ensures Ascending(Without(queue, id))
    ensures forall x :: x in Without(queue, id) <==> x in queue && x != id
  {
    WithoutAscends(queue, id);
    forall x: nat ensures x in Without(queue, id) <==> x in queue && x != id {
      WithoutMembers(queue, id, x);
    }
  }

  lemma EnqueueKeeps(c: Client, text: string, wrote: bool)
    requires Inv(c) && c.started
    ensures Inv(Enqueue(c, text, wrote))
  {
    if !c.closed {
      var d := Enqueue(c, text, wrote);
      assert forall id :: 0 <= id < |c.cmds| ==> Fates(d, id) == Fates(c, id);
    }
  }

  lemma UnqueueKeeps(c: Client, id: nat)
    requires Inv(c) && id < |c.cmds|
    ensures Inv(Unqueue(c, id))
  {
    WithoutHolds(c.queue, id);
    var d := Unqueue(c, id);
    forall k | 0 <= k < |c.cmds|
      ensures Fates(d, k) == 1 && d.cmds[k].finishes == if Settled(d.cmds[k]) then 1 else 0
    {
      assert Fates(c, k) == 1;
    }
    forall i | 0 <= i < |d.queue| ensures d.queue[i] < |d.cmds| {
      assert d.queue[i] in c.queue;
    }
  }

  // Taking the head off the queue leaves the others where they were.
  lemma HeadLeaves(c: Client)
    requires Inv(c) && c.queue != []
    ensures c.queue[0] !in c.queue[1..] && forall x :: x != c.queue[0] ==> (x in c.queue[1..] <==> x in c.queue)
  {
    assert c.queue == [c.queue[0]] + c.queue[1..];
  }

  lemma BeginBlockKeeps(c: Client, cl: Line)
    requires Inv(c) && c.current == NoBlock && c.sawFirstLine && !c.finished
    ensures Inv(BeginBlock(c, cl))
  {
    var d := BeginBlock(c, cl);
    if d.current.Reply? {
      HeadLeaves(c);
    }
    forall k | 0 <= k < |c.cmds|
      ensures Fates(d, k) == 1 && d.cmds[k].finishes == if Settled(d.cmds[k]) then 1 else 0
    {
      assert Fates(c, k) == 1;
    }
  }

  lemma FailHeadKeeps(c: Client, line: string)
    requires Inv(c)
    ensures Inv(FailHead(c, line))
  {
    var d := FailHead(c, line);
    if c.queue != [] {
      HeadLeaves(c);
    }
    forall k | 0 <= k < |c.cmds|
      ensures Fates(d, k) == 1 && d.cmds[k].finishes == if Settled(d.cmds[k]) then 1 else 0
    {
      assert Fates(c, k) == 1;
    }
  }

  lemma EndBlockKeeps(c: Client, cl: Line)
    requires Inv(c)
    ensures Inv(EndBlock(c, cl).0)
  {
    var d := EndBlock(c, cl).0;
    forall k | 0 <= k < |c.cmds|
      ensures Fates(d, k) == 1 && d.cmds[k].finishes == if Settled(d.cmds[k]) then 1 else 0
    {
      assert Fates(c, k) == 1;
    }
  }

  lemma DataLineKeeps(c: Client, line: string)
    requires Inv(c)
    ensures Inv(DataLine(c, line).0)
  {
    var d := DataLine(c, line).0;
    forall k | 0 <= k < |c.cmds|
      ensures Fates(d, k) == 1 && d.cmds[k].finishes == if Settled(d.cmds[k]) then 1 else 0
    {
      assert Fates(c, k) == 1;
    }
  }

  // Flags that no fate depends on.
  lemma SameCommands(c: Client, d: Client)
    requires Inv(c) && d.cmds == c.cmds && d.queue == c.queue
    requires d.current == c.current || (d.current.Orphan? && !c.current.Reply?)
    requires (c.started ==> d.started) && (d.current != NoBlock ==> d.sawFirstLine)
    requires d.finished ==> d.closed && d.started && d.queue == [] && d.current == NoBlock
    ensures Inv(d)
  {
    assert forall k :: 0 <= k < |c.cmds| ==> Fates(d, k) == Fates(c, k);
  }

  lemma SessionOnly(c: Client, cl: Line)
    ensures HandleSession(c, cl).0 == c.(attached := HandleSession(c, cl).0.attached)
  {
  }

  // The four things a notification does to the client.
  lemma NotificationIs(c: Client, cl: Line)
    ensures HandleNotification(c, cl).client ==
            if cl.name == "session-changed" then HandleSession(c, cl).0
            else if cl.name == "exit" then HandleExit(c, cl)
            else c
  {
    if cl.name == "output" || cl.name == "extended-output" {
      assert |cl.name| == 6 || |cl.name| == 15;
      assert cl.name[0] != 's';
    }
  }

  // A notification moves no command.
  lemma NotificationOnly(c: Client, cl: Line)
    ensures var d := HandleNotification(c, cl).client;
            d == c.(attached := d.attached, sawExit := d.sawExit, exitMsg := d.exitMsg)
  {
    var d := HandleNotification(c, cl).client;
    if cl.name == "output" || cl.name == "extended-output" {
      assert d == c;
    } else if cl.name == "session-changed" {
      SessionOnly(c, cl);
      assert d == HandleSession(c, cl).0;
    } else if cl.name == "exit" {
      assert d == HandleExit(c, cl);
    }
  }

  lemma HandleRuinedKeeps(c: Client, cl: Line, firstLine: bool)
    requires Inv(c) && c.current == NoBlock && c.sawFirstLine && !c.finished
    ensures Inv(HandleRuined(c, cl, firstLine).client)
  {
    if cl.kind == Begin {
      FailHeadKeeps(c, cl.raw);
      SameCommands(if firstLine then c else FailHead(c, cl.raw), HandleRuined(c, cl, firstLine).client);
    }
  }

  lemma HandleOutsideKeeps(c: Client, cl: Line, firstLine: bool)
    requires Inv(c) && c.current == NoBlock && c.sawFirstLine && !c.finished
    ensures Inv(HandleOutside(c, cl, firstLine).client)
  {
    if cl.malformed {
      HandleRuinedKeeps(c, cl, firstLine);
    } else {
      match cl.kind
      case Begin => BeginBlockKeeps(c, cl);
      case Notification =>
        NotificationOnly(c, cl);
        SameCommands(c, HandleNotification(c, cl).client);
      case Data => DataLineKeeps(c, cl.raw);
      case _ => EndBlockKeeps(c, cl);
    }
  }

  lemma HandleLineKeeps(c: Client, cl: Line)
    requires Inv(c) && !c.finished
    ensures Inv(HandleLine(c, cl).client)
  {
    var d := FirstLine(c, cl);
    SameCommands(c, d);
    if d.current == NoBlock {
      HandleOutsideKeeps(d, cl, !c.sawFirstLine);
    } else {
      EndBlockKeeps(d, cl);
      DataLineKeeps(d, cl.raw);
    }
  }

  lemma FinishReaderKeeps(c: Client)
    requires Inv(c)
    ensures Inv(FinishReader(c))
  {
    var d := FinishReader(c);
    forall k | 0 <= k < |c.cmds|
      ensures Fates(d, k) == 1 && d.cmds[k].finishes == if Settled(d.cmds[k]) then 1 else 0
    {
      assert Fates(c, k) == 1;
    }
  }

  lemma StepKeeps(c: Client, a: Action)
    requires Inv(c) && Enabled(c, a)
    ensures Inv(Step(c, a).0)
  {
    match a
    case Do(text, wrote) => EnqueueKeeps(c, text, wrote);
    case Withdraw(id) => UnqueueKeeps(c, id);
    case Recv(cl) => HandleLineKeeps(c, cl);
    case EndOfInput => FinishReaderKeeps(c);
    case _ => SameCommands(c, Step(c, a).0);
  }

  // `c` leads to `d` through these actions, each one possible where it happens.
  ghost predicate Run(c: Client, actions: seq<Action>, d: Client)
    decreases |actions|
  {
    if actions == [] then c == d
    else InRange(c) && Enabled(c, actions[0]) && Run(Step(c, actions[0]).0, actions[1..], d)
  }

  lemma {:induction false} RunKeeps(c: Client, actions: seq<Action>, d: Client)
    requires Inv(c) && Run(c, actions, d)
    ensures Inv(d)
    decreases |actions|
  {
    if actions != [] {
      StepKeeps(c, actions[0]);
      RunKeeps(Step(c, actions[0]).0, actions[1..], d);
    }
  }

  lemma {:induction false} RunSnoc(c: Client, actions: seq<Action>, d: Client, a: Action)
    requires Run(c, actions, d) && InRange(d) && Enabled(d, a)
    ensures Run(c, actions + [a], Step(d, a).0)
    decreases |actions|
  {
    if actions == [] {
      assert ([] + [a])[1..] == [];
    } else {
      RunSnoc(Step(c, actions[0]).0, actions[1..], d, a);
      assert (actions + [a])[0] == actions[0] && (actions + [a])[1..] == actions[1..] + [a];
    }
  }

  /** Over every run: each accepted command has exactly one fate and was finished at most once,
      with or without the sync.Once; before the barrier is lifted there is no command at all; and
      once the reader has finished, every command was finished or withdrawn and no more is taken. */
  lemma CommandFates(actions: seq<Action>, d: Client)
    requires Run(INITIAL, actions, d)
    ensures forall id :: 0 <= id < |d.cmds| ==> Fates(d, id) == 1 && d.cmds[id].finishes <= 1
    ensures !d.started ==> d.cmds == [] && d.queue == []
    ensures d.finished ==> forall id :: 0 <= id < |d.cmds| ==> (d.cmds[id].finishes == 1) != d.cmds[id].withdrawn
    ensures d.finished ==> d.started && forall text, wrote :: Enqueue(d, text, wrote) == d
  {
    RunKeeps(INITIAL, actions, d);
    if d.finished {
      forall id | 0 <= id < |d.cmds| ensures (d.cmds[id].finishes == 1) != d.cmds[id].withdrawn {
        assert Fates(d, id) == 1;
      }
    }
  }

  // --- How a connection ends ---------------------------------------------------------------------

  predicate SaysExit(cl: Line) {
    cl.kind == Notification && !cl.malformed && cl.name == "exit"
  }

  // What no line changes but one that says %exit.
  predicate SameEnd(c: Client, d: Client) {
    d.userClose == c.userClose && d.closed == c.closed && d.finished == c.finished
    && d.sawExit == c.sawExit && d.exitMsg == c.exitMsg
  }

  lemma BlocksSameEnd(c: Client, cl: Line)
    requires InRange(c)
    ensures SameEnd(c, BeginBlock(c, cl)) && SameEnd(c, EndBlock(c, cl).0) && SameEnd(c, DataLine(c, cl.raw).0)
  {
  }

  lemma HeadSameEnd(c: Client, line: string)
    requires InRange(c)
    ensures SameEnd(c, FailHead(c, line))
  {
  }

  lemma RuinedSameEnd(c: Client, cl: Line, firstLine: bool)
    requires InRange(c)
    ensures var h := HandleRuined(c, cl, firstLine); h.goOn && SameEnd(c, h.client)
  {
    HeadSameEnd(c, cl.raw);
  }

  lemma NoticeEnd(c: Client, cl: Line)
    ensures var h := HandleNotification(c, cl);
            if cl.name == "exit" then h == Handled(c.(sawExit := true, exitMsg := ExitReason(cl.args)), [], false)
            else h.goOn && SameEnd(c, h.client)
  {
    assert |"exit"| == 4 && |"output"| == 6 && |"extended-output"| == 15 && |"session-changed"| == 15;
    SessionOnly(c, cl);
  }

  lemma OutsideEnd(c: Client, cl: Line, firstLine: bool)
    requires InRange(c)
    ensures var h := HandleOutside(c, cl, firstLine);
            if SaysExit(cl) then h == Handled(c.(sawExit := true, exitMsg := ExitReason(cl.args)), [], false)
            else h.goOn && SameEnd(c, h.client)
  {
    if cl.malformed {
      RuinedSameEnd(c, cl, firstLine);
    } else if cl.kind == Notification {
      NoticeEnd(c, cl);
    } else {
      BlocksSameEnd(c, cl);
    }
  }

  lemma InsideEnd(c: Client, cl: Line)
    requires InRange(c) && c.current != NoBlock && c.sawFirstLine
    ensures var h := HandleLine(c, cl); h.goOn && SameEnd(c, h.client)
  {
    BlocksSameEnd(c, cl);
  }

  /** The reader stops at an %exit that comes while no block is open, which alone sets the reason; any other
      line, one that looks like it inside a block included, leaves both as they were. */
  lemma ExitExactly(c: Client, cl: Line)
    requires InRange(c)
    ensures var h := HandleLine(c, cl);
            if c.current == NoBlock && SaysExit(cl) then
              && !h.goOn && h.client.sawExit && h.client.exitMsg == ExitReason(cl.args)
              && SameEnd(c.(sawExit := true, exitMsg := ExitReason(cl.args)), h.client)
            else h.goOn && SameEnd(c, h.client)
  {
    var d := FirstLine(c, cl);
    if d.current == NoBlock {
      OutsideEnd(d, cl, !c.sawFirstLine);
    } else {
      InsideEnd(d, cl);
    }
  }

  // What an action other than a line makes of how the connection ends.
  lemma ActionEnd(c: Client, a: Action)
    requires InRange(c) && Enabled(c, a) && !a.Recv?
    ensures var d := Step(c, a).0;
            && d.userClose == (c.userClose || a.Close?) && d.finished == (c.finished || a.EndOfInput?)
            && d.closed == (c.closed || a.Close? || a.EndOfInput?)
            && d.sawExit == c.sawExit && d.exitMsg == c.exitMsg
  {
    match a
    case Do(_, _) =>
    case Withdraw(id) => assert Unqueue(c, id) == c.(queue := Unqueue(c, id).queue, cmds := Unqueue(c, id).cmds);
    case _ =>
  }

  lemma LineEnd(c: Client, cl: Line)
    requires InRange(c)
    ensures var d := HandleLine(c, cl).client;
            && d.userClose == c.userClose && d.finished == c.finished && d.closed == c.closed
            && (!SaysExit(cl) ==> d.sawExit == c.sawExit && d.exitMsg == c.exitMsg)
            && (d.sawExit || d.exitMsg == c.exitMsg)
  {
    ExitExactly(c, cl);
  }

  lemma {:induction false} RunEnd(c: Client, actions: seq<Action>, d: Client)
    requires Run(c, actions, d)
    ensures d.userClose <==> c.userClose || Close in actions
    ensures d.finished <==> c.finished || EndOfInput in actions
    ensures d.closed <==> c.closed || Close in actions || EndOfInput in actions
    ensures (forall cl :: Recv(cl) in actions ==> !SaysExit(cl)) ==> d.sawExit == c.sawExit && d.exitMsg == c.exitMsg
    ensures (!c.sawExit ==> c.exitMsg == "") ==> !d.sawExit ==> d.exitMsg == ""
    decreases |actions|
  {
    if actions != [] {
      var a, e := actions[0], Step(c, actions[0]).0;
      if a.Recv? {
        LineEnd(c, a.cl);
        assert Recv(a.cl) in actions;
      } else {
        ActionEnd(c, a);
      }
      RunEnd(e, actions[1..], d);
      assert actions == [a] + actions[1..];
      assert forall b :: b in actions <==> b == a || b in actions[1..];
      assert c.sawExit ==> e.sawExit;
    }
  }

  /** Over every run: Close is remembered, the connection is closed by it and by the end of input and by
      nothing else, and while no %exit has been taken in there is no reason. */
  lemma EndIsRemembered(actions: seq<Action>, d: Client)
    requires Run(INITIAL, actions, d)
    ensures d.userClose <==> Close in actions
    ensures d.finished <==> EndOfInput in actions
    ensures d.closed <==> Close in actions || EndOfInput in actions
    ensures (forall cl :: Recv(cl) in actions ==> !SaysExit(cl)) ==> !d.sawExit
    ensures !d.sawExit ==> d.exitMsg == ""
  {
    RunEnd(INITIAL, actions, d);
  }

  // --- What was accepted --------------------------------------------------------------------------

  // A command's text, and whether it was written.
  function Texts(cmds: seq<Command>): seq<(string, bool)> {
    seq(|cmds|, i requires 0 <= i < |cmds| => (cmds[i].text, !cmds[i].writeFailed))
  }

  // The commands asked for before the connection was closed.
  function AskedFor(actions: seq<Action>): seq<(string, bool)> {
    if actions == [] || actions[0].Close? || actions[0].EndOfInput? then []
    else (if actions[0].Do? then [(actions[0].text, actions[0].wrote)] else []) + AskedFor(actions[1..])
  }

  lemma BlocksSameTexts(c: Client, cl: Line)
    requires InRange(c)
    ensures Texts(BeginBlock(c, cl).cmds) == Texts(c.cmds) && Texts(FailHead(c, cl.raw).cmds) == Texts(c.cmds)
  {
  }

  lemma BodySameTexts(c: Client, cl: Line)
    requires InRange(c)
    ensures Texts(EndBlock(c, cl).0.cmds) == Texts(c.cmds) && Texts(DataLine(c, cl.raw).0.cmds) == Texts(c.cmds)
  {
  }

  lemma OutsideSameTexts(c: Client, cl: Line, firstLine: bool)
    requires InRange(c)
    ensures Texts(HandleOutside(c, cl, firstLine).client.cmds) == Texts(c.cmds)
  {
    if cl.malformed || cl.kind == Begin {
      BlocksSameTexts(c, cl);
    } else if cl.kind == Notification {
      NotificationOnly(c, cl);
    } else {
      BodySameTexts(c, cl);
    }
  }

  lemma LineSameTexts(c: Client, cl: Line)
    requires InRange(c)
    ensures Texts(HandleLine(c, cl).client.cmds) == Texts(c.cmds)
  {
    var d := FirstLine(c, cl);
    if d.current == NoBlock {
      OutsideSameTexts(d, cl, !c.sawFirstLine);
    } else {
      BodySameTexts(d, cl);
    }
  }

  lemma StepTexts(c: Client, a: Action)
    requires InRange(c) && Enabled(c, a)
    ensures Texts(Step(c, a).0.cmds) ==
            Texts(c.cmds) + if a.Do? && !c.closed then [(a.text, a.wrote)] else []
  {
    if a.Recv? {
      LineSameTexts(c, a.cl);
    }
  }

  lemma {:induction false} RunTextsClosed(c: Client, actions: seq<Action>, d: Client)
    requires Run(c, actions, d) && c.closed
    ensures Texts(d.cmds) == Texts(c.cmds)
    decreases |actions|
  {
    if actions != [] {
      StepTexts(c, actions[0]);
      StaysClosed(c, actions[0]);
      RunTextsClosed(Step(c, actions[0]).0, actions[1..], d);
    }
  }

  lemma StaysClosed(c: Client, a: Action)
    requires InRange(c) && Enabled(c, a)
    ensures Step(c, a).0.closed == (c.closed || a.Close? || a.EndOfInput?)
  {
    if a.Recv? {
      LineEnd(c, a.cl);
    } else {
      ActionEnd(c, a);
    }
  }

  lemma TextsJoined(a: seq<(string, bool)>, b: seq<(string, bool)>, c: seq<(string, bool)>)
    ensures a + (b + c) == a + b + c
  {
  }

  lemma {:induction false} RunTexts(c: Client, actions: seq<Action>, d: Client)
    requires Run(c, actions, d) && !c.closed
    ensures Texts(d.cmds) == Texts(c.cmds) + AskedFor(actions)
    decreases |actions|
  {
    if actions != [] {
      var a, e := actions[0], Step(c, actions[0]).0;
      StepTexts(c, a);
      StaysClosed(c, a);
      if a.Close? || a.EndOfInput? {
        RunTextsClosed(e, actions[1..], d);
        assert Texts(c.cmds) + [] == Texts(c.cmds);
      } else {
        RunTexts(e, actions[1..], d);
        var one := if a.Do? then [(a.text, a.wrote)] else [];
        TextsJoined(Texts(c.cmds), one, AskedFor(actions[1..]));
        assert AskedFor(actions) == one + AskedFor(actions[1..]);
        assert Texts(e.cmds) == Texts(c.cmds) + one;
      }
    }
  }

  lemma NoTexts(texts: seq<(string, bool)>)
    ensures Texts([]) + texts == texts
  {
  }

  /** Over every run the commands there are, in order and with their texts, are the ones asked for before
      Close and the end of input, and no other. */
  lemma AcceptedUntilClosed(actions: seq<Action>, d: Client)
    requires Run(INITIAL, actions, d)
    ensures Texts(d.cmds) == AskedFor(actions)
  {
    RunTexts(INITIAL, actions, d);
    NoTexts(AskedFor(actions));
  }

  /** A command taken back leaves the queue, in which the others keep their order, and nothing else about it
      or them changes; one that is no longer queued is left as it is. */
  lemma UnqueueExactly(c: Client, id: nat)
    requires Inv(c) && id < |c.cmds|
    ensures var d := Unqueue(c, id);
            && d == c.(queue := d.queue, cmds := d.cmds)
            && (id !in c.queue ==> d == c)
            && (forall i :: 0 <= i < |c.queue| && c.queue[i] == id ==>
                  && d.queue == c.queue[..i] + c.queue[i + 1..] && id !in d.queue
                  && d.cmds == c.cmds[id := c.cmds[id].(withdrawn := true)])
  {
    WithoutHolds(c.queue, id);
    forall i | 0 <= i < |c.queue| && c.queue[i] == id
      ensures Without(c.queue, id) == c.queue[..i] + c.queue[i + 1..]
    {
      WithoutAt(c.queue, id, i);
    }
  }

  lemma {:induction false} WithoutAt(queue: seq<nat>, id: nat, i: nat)
    requires i < |queue| && queue[i] == id && forall j :: 0 <= j < i ==> queue[j] != id
    ensures Without(queue, id) == queue[..i] + queue[i + 1..]
  {
    if i == 0 {
      assert queue[..0] + queue[1..] == queue[1..];
    } else {
      WithoutAt(queue[1..], id, i - 1);
      assert [queue[0]] + (queue[1..][..i - 1] + queue[1..][i..]) == queue[..i] + queue[i + 1..];
    }
  }
}
