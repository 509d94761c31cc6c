/** control_reader.go, readLoop: from the bytes tmux writes to the commands answered and the output
    delivered, through the framing, the classifier, the parsers and the octal codec. */
module Wire {
  import opened Bytes
  import opened CtlParse
  import opened Protocol
  import Escape
  import Vis

  const DCS_ENTER := "\U{1B}P1000p"

  // A line as readLoop hands it on, its newline already gone.
  function Clean(raw: string, first: bool): string {
    var line := TrimSuffix(raw, '\r');
    if first && DCS_ENTER <= line then line[|DCS_ENTER|..] else line
  }

  // What handling lines makes of a reader, in state `state`: what it asked for, and whether to go on.
  datatype Fed<+S> = Fed(state: S, effects: seq<Effect>, goOn: bool)

  function Then<S>(f: Fed<S>, g: Fed<S>): Fed<S> {
    Fed(g.state, f.effects + g.effects, g.goOn)
  }

  lemma ThenThen<S>(f: Fed<S>, g: Fed<S>, h: Fed<S>)
    ensures Then(f, Then(g, h)) == Then(Then(f, g), h)
  {
    assert f.effects + (g.effects + h.effects) == f.effects + g.effects + h.effects;
  }

  // The reader's loop over a stream that holds exactly `s`, whatever it is that handles a line.
  ghost function Read<S>(step: (S, string) -> Fed<S>, c: S, s: string, first: bool): Fed<S>
    decreases |s|
  {
    if s == "" then Fed(c, [], true)
    else
      var (raw, rest, ended) := CutByte(s, '\n');
      var h := step(c, Clean(raw, first));
      if !h.goOn then h else Then(h, Read(step, h.state, rest, false))
  }

  // The loop turned once, with `done` behind it.
  lemma ReadNext<S>(step: (S, string) -> Fed<S>, done: seq<Effect>, c: S, s: string, first: bool)
    requires s != ""
    ensures var (raw, rest, ended) := CutByte(s, '\n');
            var h := Then(Fed(c, done, true), step(c, Clean(raw, first)));
            Then(Fed(c, done, true), Read(step, c, s, first)) ==
            if h.goOn then Then(h, Read(step, h.state, rest, false)) else h
  {
    var (raw, rest, ended) := CutByte(s, '\n');
    var h := step(c, Clean(raw, first));
    if h.goOn {
      ThenThen(Fed(c, done, true), h, Read(step, h.state, rest, false));
    }
  }

  ghost function Feed<S>(step: (S, string) -> Fed<S>, c: S, lines: seq<string>): Fed<S>
    decreases |lines|
  {
    if lines == [] then Fed(c, [], true)
    else
      var h := step(c, lines[0]);
      if !h.goOn then h else Then(h, Feed(step, h.state, lines[1..]))
  }

  // What handling a line needs of the client, and leaves.
  ghost predicate IsLive(c: Client) {
    InRange(c) && (c.current != NoBlock ==> c.sawFirstLine)
  }

  lemma QueueTail(c: Client)
    requires InRange(c) && c.queue != []
    ensures forall i :: 0 <= i < |c.queue[1..]| ==> c.queue[1..][i] < |c.cmds|
  {
    assert forall i :: 0 <= i < |c.queue[1..]| ==> c.queue[1..][i] == c.queue[i + 1];
  }

  lemma HeadLive(c: Client, cl: Line)
    requires IsLive(c)
    ensures IsLive(FailHead(c, cl.raw)) && FailHead(c, cl.raw).current == c.current
    ensures c.sawFirstLine ==> IsLive(BeginBlock(c, cl))
  {
    if c.queue != [] {
      QueueTail(c);
    }
  }

  lemma BodyLive(c: Client, cl: Line)
    requires IsLive(c)
    ensures IsLive(EndBlock(c, cl).0) && IsLive(DataLine(c, cl.raw).0)
  {
  }

  lemma OutsideLive(c: Client, cl: Line, firstLine: bool)
    requires IsLive(c) && c.sawFirstLine
    ensures IsLive(HandleOutside(c, cl, firstLine).client)
  {
    if cl.malformed || cl.kind == Begin {
      HeadLive(c, cl);
    } else {
      BodyLive(c, cl);
    }
  }

  lemma StillLive(c: Client, cl: Line)
    requires IsLive(c)
    ensures IsLive(HandleLine(c, cl).client)
  {
    var d := FirstLine(c, cl);
    OutsideLive(d, cl, !c.sawFirstLine);
  }

  // No line finds the client in any other state.
  ghost function HearLine(c: Client, line: string): Fed<Client> {
    if !IsLive(c) then Fed(c, [], false)
    else
      var h := HandleLine(c, Classify(line));
      Fed(h.client, h.effects, h.goOn)
  }

  lemma BlockStillReading(c: Client, cl: Line)
    requires InRange(c)
    ensures BeginBlock(c, cl).finished == c.finished
  {
  }

  lemma BodyStillReading(c: Client, cl: Line)
    requires InRange(c)
    ensures EndBlock(c, cl).0.finished == c.finished && DataLine(c, cl.raw).0.finished == c.finished
  {
  }

  lemma OutsideStillReading(c: Client, cl: Line, firstLine: bool)
    requires InRange(c)
    ensures HandleOutside(c, cl, firstLine).client.finished == c.finished
  {
    if !cl.malformed && cl.kind != Notification {
      BlockStillReading(c, cl);
      BodyStillReading(c, cl);
    }
  }

  lemma StillReading(c: Client, cl: Line)
    requires InRange(c)
    ensures HandleLine(c, cl).client.finished == c.finished
  {
    OutsideStillReading(FirstLine(c, cl), cl, !c.sawFirstLine);
  }

  // --- What tmux writes ---------------------------------------------------------------------------

  /** Everything tmux may write while no block is open: output, blocks, the client's own session, any
      notification this client knows no better, and what is no part of the protocol or cannot be read. A
      block may be ruined: its header has no time and number, and any terminator ends it. */
  datatype Item =
    | Chunk(pane: string, data: string)
    | AgedChunk(pane: string, age: int, reserved: seq<string>, data: string)
    | Block(header: Stamp, body: seq<string>, failed: bool, footer: Stamp)
    | RuinedBlock(fields: seq<string>, body: seq<string>, failed: bool, ending: seq<string>)
    | Session(id: string, stored: Option<string>)
    | Notice(name: string, args: Option<string>)
    | Unreadable(name: string, args: Option<string>)
    | Stray(line: string)
    | StrayEnd(failed: bool, ending: seq<string>)

  datatype Stamp = Stamp(time: int, number: int, flags: Option<int>)

  function Stamped(name: string, s: Stamp): string {
    "%" + name + " " + Join(HeaderFields(s.time, s.number, s.flags), " ")
  }

  // The first or last line of a block with these fields, whatever they are.
  function Worded(word: string, fields: seq<string>): string {
    "%" + word + " " + Join(fields, " ")
  }

  function EndWord(failed: bool): string {
    if failed then "error" else "end"
  }

  function NoticeLine(name: string, args: Option<string>): string {
    "%" + name + if args.Some? then " " + args.value else ""
  }

  function Given(args: Option<string>): string {
    if args.Some? then args.value else ""
  }

  // The session, and its name if it is told.
  function SessionArgs(id: string, stored: Option<string>): string {
    if stored.Some? then id + " " + stored.value else id
  }

  const OUTPUT := "output"
  const EXTENDED_OUTPUT := "extended-output"
  const SESSION_CHANGED := "session-changed"

  function Lines(item: Item): seq<string> {
    match item
    case Chunk(pane, data) => ["%" + OUTPUT + " " + (pane + " " + Escape.Escaped(data))]
    case AgedChunk(pane, age, reserved, data) =>
      ["%" + EXTENDED_OUTPUT + " " + ExtendedArgs(pane, age, reserved, Escape.Escaped(data))]
    case Block(header, body, failed, footer) =>
      [Stamped("begin", header)] + body + [Stamped(EndWord(failed), footer)]
    case RuinedBlock(fields, body, failed, ending) =>
      [Worded("begin", fields)] + body + [Worded(EndWord(failed), ending)]
    case Session(id, stored) => [NoticeLine(SESSION_CHANGED, Some(SessionArgs(id, stored)))]
    case Notice(name, args) => [NoticeLine(name, args)]
    case Unreadable(name, args) => [NoticeLine(name, args)]
    case Stray(line) => [line]
    case StrayEnd(failed, ending) => [Worded(EndWord(failed), ending)]
  }

  function Eol(cr: bool): string {
    if cr then "\r\n" else "\n"
  }

  function Text(lines: seq<string>, cr: bool): string {
    if lines == [] then "" else lines[0] + Eol(cr) + Text(lines[1..], cr)
  }

  function AllLines(items: seq<Item>): seq<string> {
    if items == [] then [] else Lines(items[0]) + AllLines(items[1..])
  }

  // One line, which a reader that drops a carriage return from its end can still tell.
  predicate Plain(line: string, cr: bool) {
    '\n' !in line && (cr || line == "" || line[|line| - 1] != '\r')
  }

  predicate StampOk(s: Stamp) {
    Int64(s.time) && Int64(s.number) && (s.flags.Some? ==> Int64(s.flags.value))
  }

  ghost predicate AllFields(fields: seq<string>) {
    forall f :: f in fields ==> IsField(f)
  }

  // A well-formed terminator with this number.
  predicate Bears(cl: Line, number: int) {
    (cl.kind == End || cl.kind == Error) && !cl.malformed && cl.number == number
  }

  // The arguments of the three notifications this client reads, when it cannot.
  predicate CannotRead(name: string, args: string) {
    || (name == OUTPUT && ParseOutput(args).None?)
    || (name == EXTENDED_OUTPUT && ParseExtendedOutput(args).None?)
    || (name == SESSION_CHANGED && !IsID(CutByte(args, ' ').0, '$'))
  }

  const HANDLED := {"output", "extended-output", "session-changed", "exit"}

  // What tmux may write: real identifiers, names that look like names, and no body line that ends its
  // own block.
  ghost predicate Written(item: Item, cr: bool) {
    match item
    case Chunk(pane, _) => IsID(pane, '%')
    case AgedChunk(pane, age, reserved, _) =>
      && IsID(pane, '%') && Int64(age)
      && (forall f :: f in reserved ==> IsField(f) && f != ":")
    case Block(header, body, _, footer) =>
      && StampOk(header) && StampOk(footer) && footer.number == header.number
      && (forall line :: line in body ==> Plain(line, cr) && !Bears(Classify(line), header.number))
    case RuinedBlock(fields, body, _, ending) =>
      && AllFields(fields) && !Numbered(fields) && AllFields(ending)
      && (forall line :: line in body ==>
            Plain(line, cr) && Classify(line).kind != End && Classify(line).kind != Error)
    case Session(id, _) => IsID(id, '$') && Plain(Lines(item)[0], cr)
    case Notice(name, args) =>
      LooksLikeName(name) && BlockKind(name).None? && name !in HANDLED && Plain(Lines(item)[0], cr)
    case Unreadable(name, args) => CannotRead(name, Given(args)) && Plain(Lines(item)[0], cr)
    case Stray(line) => Classify(line).kind == Data && Plain(line, cr)
    case StrayEnd(_, ending) => AllFields(ending)
  }

  // A command once this block has answered it, or its header was ruined.
  function Answered(p: Command, item: Item): Command
    requires IsReply(item)
  {
    match item
    case Block(header, body, failed, footer) =>
      p.(number := header.number, lines := p.lines + body, failed := failed, answered := true,
         flags := if footer.flags.Some? then footer.flags.value else 0, time := footer.time,
         finishes := p.finishes + 1)
    case RuinedBlock(fields, _, _, _) =>
      p.(err := Some(Worded("begin", fields)), finishes := p.finishes + 1)
  }

  // A block that is a reply, or with a ruined header was one.
  predicate IsReply(item: Item) {
    item.Block? || item.RuinedBlock?
  }

  // The head of the queue, which a block is for.
  function TakesTurn(c: Client, item: Item): Client
    requires InRange(c) && c.queue != [] && IsReply(item)
  {
    var id := c.queue[0];
    c.(queue := c.queue[1..], cmds := c.cmds[id := Answered(c.cmds[id], item)])
  }

  // The first line lifts the startup barrier unless it opens a block, whose end does.
  function Heard(c: Client): Client {
    c.(sawFirstLine := true, started := c.started || !c.sawFirstLine)
  }

  // What each item is for: bytes for a pane, a reply for the command at the head of the queue unless it
  // answers nothing this client sent, a session, or news.
  function Meant(c: Client, item: Item): Client
    requires InRange(c)
  {
    match item
    case Block(header, _, _, _) =>
      var d := if !c.started || header.flags == Some(0) || c.queue == [] then c else TakesTurn(c, item);
      d.(sawFirstLine := true, started := true)
    case RuinedBlock(_, _, _, _) =>
      var d := if !c.sawFirstLine || c.queue == [] then c else TakesTurn(c, item);
      d.(sawFirstLine := true, started := true)
    case Session(id, _) => Heard(c).(attached := id)
    case StrayEnd(_, ending) => if Numbered(ending) then Heard(c).(started := true) else Heard(c)
    case _ => Heard(c)
  }

  function Report(line: string, fault: Fault): seq<Effect> {
    [Emit(ProtocolError(line, fault))]
  }

  function Delivered(item: Item): seq<Effect> {
    match item
    case Chunk(pane, data) => [Deliver(pane, data, false, 0)]
    case AgedChunk(pane, age, _, data) => [Deliver(pane, data, true, age)]
    case Block(_, _, _, _) => []
    case RuinedBlock(_, _, _, _) => Report(Lines(item)[0], RuinedHeader(Begin))
    case Session(id, stored) => [Emit(SessionChanged(id, Vis.Decode(Given(stored))))]
    case Notice(name, args) => [Emit(OtherNotification(name, Given(args)))]
    case Unreadable(name, _) => Report(Lines(item)[0], BadArguments(name))
    case Stray(line) => if line == "" then [] else Report(line, StrayOutput)
    case StrayEnd(failed, ending) =>
      Report(Lines(item)[0], if Numbered(ending) then StrayTerminator else RuinedHeader(if failed then Error else End))
  }

  ghost function MeantAll(c: Client, items: seq<Item>): (Client, seq<Effect>)
    requires InRange(c)
    decreases |items|
  {
    if items == [] then (c, [])
    else
      MeantInRange(c, items[0]);
      var (d, effects) := MeantAll(Meant(c, items[0]), items[1..]);
      (d, Delivered(items[0]) + effects)
  }

  lemma TurnInRange(c: Client, item: Item)
    requires InRange(c) && c.queue != [] && IsReply(item)
    ensures InRange(TakesTurn(c, item))
  {
    var d := TakesTurn(c, item);
    assert forall i :: 0 <= i < |d.queue| ==> d.queue[i] == c.queue[i + 1];
  }

  lemma MeantInRange(c: Client, item: Item)
    requires InRange(c)
    ensures InRange(Meant(c, item))
  {
    if IsReply(item) && c.queue != [] {
      TurnInRange(c, item);
    }
  }

  // --- Line by line -------------------------------------------------------------------------------

  lemma {:induction false} FeedConcat<S>(step: (S, string) -> Fed<S>, c: S, a: seq<string>, b: seq<string>)
    requires Feed(step, c, a).goOn
    ensures var f := Feed(step, c, a);
            Feed(step, c, a + b) == Then(f, Feed(step, f.state, b))
    decreases |a|
  {
    if a == [] {
      assert a + b == b;
    } else {
      var h := step(c, a[0]);
      FeedConcat(step, h.state, a[1..], b);
      var f := Feed(step, h.state, a[1..]);
      ThenThen(h, f, Feed(step, f.state, b));
      assert (a + b)[0] == a[0] && (a + b)[1..] == a[1..] + b;
    }
  }

  lemma FeedThen<S>(step: (S, string) -> Fed<S>, c: S, a: seq<string>, b: seq<string>, f: Fed<S>, g: Fed<S>)
    requires Feed(step, c, a) == f && f.goOn && Feed(step, f.state, b) == g
    ensures Feed(step, c, a + b) == Then(f, g)
  {
    FeedConcat(step, c, a, b);
  }

  lemma FeedOne<S>(step: (S, string) -> Fed<S>, c: S, line: string)
    ensures Feed(step, c, [line]) == step(c, line)
  {
    assert [line][1..] == [];
    assert step(c, line).effects + [] == step(c, line).effects;
  }

  // A quiet line, and quiet lines after it.
  lemma FeedQuiet<S>(step: (S, string) -> Fed<S>, c: S, line: string, rest: seq<string>, d: S, e: S)
    requires step(c, line) == Fed(d, [], true) && Feed(step, d, rest) == Fed(e, [], true)
    ensures Feed(step, c, [line] + rest) == Fed(e, [], true)
  {
    assert ([line] + rest)[1..] == rest;
  }

  // A line, some lines and a line, all of them quiet but perhaps the first.
  lemma FeedBlock<S>(step: (S, string) -> Fed<S>, c: S, first: string, body: seq<string>, last: string,
                     said: seq<Effect>, open: S, full: S, end: S)
    requires step(c, first) == Fed(open, said, true)
    requires Feed(step, open, body) == Fed(full, [], true)
    requires step(full, last) == Fed(end, [], true)
    ensures Feed(step, c, [first] + body + [last]) == Fed(end, said, true)
  {
    var lines := [first] + body + [last];
    assert lines[0] == first && lines[1..] == body + [last];
    FeedOne(step, full, last);
    FeedThen(step, open, body, [last], Fed(full, [], true), Fed(end, [], true));
    assert said + [] == said;
  }

  lemma CleanPlain(line: string, cr: bool, first: bool)
    requires Plain(line, cr) && (first ==> !(DCS_ENTER <= line))
    ensures Clean(line + if cr then "\r" else "", first) == line
  {
    assert line + "" == line;
    assert cr ==> (line + "\r")[..|line|] == line;
  }

  lemma CutLine(line: string, cr: bool, rest: string)
    requires '\n' !in line
    ensures var end := if cr then "\r" else "";
            CutByte(line + Eol(cr) + rest, '\n') == (line + end, rest, true)
  {
    var end := if cr then "\r" else "";
    assert '\n' !in end && Eol(cr) == end + ['\n'];
    assert line + (end + ['\n']) + rest == line + end + ['\n'] + rest;
    CutByteAt(line + end, '\n', rest);
  }

  lemma ReadLine<S>(step: (S, string) -> Fed<S>, c: S, line: string, cr: bool, tail: string, first: bool)
    requires Plain(line, cr) && (first ==> !(DCS_ENTER <= line))
    ensures Read(step, c, line + Eol(cr) + tail, first) ==
            var h := step(c, line);
            if !h.goOn then h else Then(h, Read(step, h.state, tail, false))
  {
    CutLine(line, cr, tail);
    CleanPlain(line, cr, first);
  }

  /** Whatever the lines are, the stream that holds them is read as those lines, one by one, and
      then as what follows; after a line that stops the reader nothing that follows matters. */
  lemma {:induction false} ReadText<S>(step: (S, string) -> Fed<S>, c: S, lines: seq<string>, cr: bool,
                                       rest: string, first: bool)
    requires forall i :: 0 <= i < |lines| ==> Plain(lines[i], cr)
    requires first && lines != [] ==> !(DCS_ENTER <= lines[0])
    ensures var f := Feed(step, c, lines);
            Read(step, c, Text(lines, cr) + rest, first) ==
            if !f.goOn then f else Then(f, Read(step, f.state, rest, first && lines == []))
    decreases |lines|
  {
    if lines == [] {
      assert Text(lines, cr) + rest == rest;
    } else {
      var line, tail := lines[0], Text(lines[1..], cr) + rest;
      assert Text(lines, cr) + rest == line + Eol(cr) + tail;
      assert Plain(line, cr);
      ReadLine(step, c, line, cr, tail, first);
      var h := step(c, line);
      if h.goOn {
        ReadText(step, h.state, lines[1..], cr, rest, false);
        var f := Feed(step, h.state, lines[1..]);
        ThenThen(h, f, Read(step, f.state, rest, false));
      }
    }
  }

  lemma ReadThen<S>(step: (S, string) -> Fed<S>, c: S, lines: seq<string>, cr: bool, rest: string, first: bool,
                    f: Fed<S>)
    requires forall i :: 0 <= i < |lines| ==> Plain(lines[i], cr)
    requires first && lines != [] ==> !(DCS_ENTER <= lines[0])
    requires Feed(step, c, lines) == f && f.goOn
    ensures Read(step, c, Text(lines, cr) + rest, first) == Then(f, Read(step, f.state, rest, first && lines == []))
  {
    ReadText(step, c, lines, cr, rest, first);
  }

  // --- Item by item -------------------------------------------------------------------------------

  lemma NamedLine(name: string, args: Option<string>)
    requires LooksLikeName(name) && BlockKind(name).None?
    ensures var raw := NoticeLine(name, args);
            Classify(raw) == Line(Notification, raw, 0, 0, 0, false, name, Given(args), false)
  {
    if args.Some? {
      assert NoticeLine(name, args) == "%" + name + " " + args.value;
      ClassifyNamed(name, args.value);
    } else {
      assert NoticeLine(name, args) == "%" + name;
      ClassifyBare(name);
    }
  }

  // A line that opens no block, while none is open.
  lemma OutsideHeard(c: Client, cl: Line)
    requires IsLive(c) && c.current == NoBlock && cl.kind != Begin
    ensures HandleLine(c, cl) == HandleOutside(Heard(c), cl, !c.sawFirstLine)
  {
    assert FirstLine(c, cl) == Heard(c);
  }

  // Once the line is known for what it is, and what it does is known.
  lemma NoticeLineIsMeant(c: Client, item: Item, name: string, args: Option<string>)
    requires IsLive(c) && c.current == NoBlock && Lines(item) == [NoticeLine(name, args)]
    requires LooksLikeName(name) && BlockKind(name).None?
    requires var cl := Line(Notification, NoticeLine(name, args), 0, 0, 0, false, name, Given(args), false);
             HandleNotification(Heard(c), cl) == Handled(Meant(c, item), Delivered(item), true)
    ensures IsLive(Meant(c, item)) && Feed(HearLine, c, Lines(item)) == Fed(Meant(c, item), Delivered(item), true)
  {
    NamedLine(name, args);
    LineIsMeant(c, item, Line(Notification, NoticeLine(name, args), 0, 0, 0, false, name, Given(args), false));
  }

  lemma LineIsMeant(c: Client, item: Item, cl: Line)
    requires IsLive(c) && c.current == NoBlock && Lines(item) == [cl.raw] && Classify(cl.raw) == cl && cl.kind != Begin
    requires HandleOutside(Heard(c), cl, !c.sawFirstLine) == Handled(Meant(c, item), Delivered(item), true)
    ensures IsLive(Meant(c, item)) && Feed(HearLine, c, Lines(item)) == Fed(Meant(c, item), Delivered(item), true)
  {
    OutsideHeard(c, cl);
    StillLive(c, cl);
    FeedOne(HearLine, c, cl.raw);
  }

  lemma OutputHandled(c: Client, cl: Line, o: Output)
    requires if o.extended then cl.name == EXTENDED_OUTPUT && ParseExtendedOutput(cl.args) == Some(o)
             else cl.name == OUTPUT && ParseOutput(cl.args) == Some(o) && o.ageMS == 0
    ensures HandleNotification(c, cl) ==
            Handled(c, [Deliver(o.pane, Escape.Unescaped(o.data), o.extended, o.ageMS)], true)
  {
    if o.extended {
      assert cl.name == "extended-output" && |cl.name| != |"output"|;
    } else {
      assert cl.name == "output";
    }
  }

  lemma ChunkRead(c: Client, item: Item, cl: Line)
    requires item.Chunk? && IsID(item.pane, '%') && cl.name == OUTPUT
    requires cl.args == item.pane + " " + Escape.Escaped(item.data)
    ensures HandleNotification(c, cl) == Handled(c, Delivered(item), true)
  {
    var data := Escape.Escaped(item.data);
    OutputRoundTrip(item.pane, data);
    Escape.UnescapeEscape(item.data);
    OutputHandled(c, cl, Output(item.pane, data, false, 0));
  }

  lemma ChunkIsMeant(c: Client, item: Item)
    requires IsLive(c) && c.current == NoBlock && item.Chunk? && IsID(item.pane, '%')
    ensures IsLive(Meant(c, item)) && Feed(HearLine, c, Lines(item)) == Fed(Meant(c, item), Delivered(item), true)
  {
    var args := item.pane + " " + Escape.Escaped(item.data);
    var raw := NoticeLine(OUTPUT, Some(args));
    assert LooksLikeName(OUTPUT) && raw == "%" + OUTPUT + " " + args;
    ChunkRead(Heard(c), item, Line(Notification, raw, 0, 0, 0, false, OUTPUT, args, false));
    NoticeLineIsMeant(c, item, OUTPUT, Some(args));
  }

  lemma AgedChunkRead(c: Client, item: Item, cl: Line)
    requires item.AgedChunk? && Written(item, true) && cl.name == EXTENDED_OUTPUT
    requires cl.args == ExtendedArgs(item.pane, item.age, item.reserved, Escape.Escaped(item.data))
    ensures HandleNotification(c, cl) == Handled(c, Delivered(item), true)
  {
    var data := Escape.Escaped(item.data);
    ExtendedOutputRoundTrip(item.pane, item.age, item.reserved, data);
    Escape.UnescapeEscape(item.data);
    OutputHandled(c, cl, Output(item.pane, data, true, item.age));
  }

  lemma AgedChunkIsMeant(c: Client, item: Item)
    requires IsLive(c) && c.current == NoBlock && item.AgedChunk? && Written(item, true)
    ensures IsLive(Meant(c, item)) && Feed(HearLine, c, Lines(item)) == Fed(Meant(c, item), Delivered(item), true)
  {
    var args := ExtendedArgs(item.pane, item.age, item.reserved, Escape.Escaped(item.data));
    var raw := NoticeLine(EXTENDED_OUTPUT, Some(args));
    assert LooksLikeName(EXTENDED_OUTPUT) && raw == "%" + EXTENDED_OUTPUT + " " + args;
    AgedChunkRead(Heard(c), item, Line(Notification, raw, 0, 0, 0, false, EXTENDED_OUTPUT, args, false));
    NoticeLineIsMeant(c, item, EXTENDED_OUTPUT, Some(args));
  }

  lemma NoticeHandled(c: Client, cl: Line)
    requires cl.name !in HANDLED
    ensures HandleNotification(c, cl) == Handled(c, [Emit(OtherNotification(cl.name, cl.args))], true)
  {
  }

  lemma NoticeIsMeant(c: Client, item: Item, cr: bool)
    requires IsLive(c) && c.current == NoBlock && item.Notice? && Written(item, cr)
    ensures IsLive(Meant(c, item)) && Feed(HearLine, c, Lines(item)) == Fed(Meant(c, item), Delivered(item), true)
  {
    var raw := NoticeLine(item.name, item.args);
    NoticeHandled(Heard(c), Line(Notification, raw, 0, 0, 0, false, item.name, Given(item.args), false));
    NoticeLineIsMeant(c, item, item.name, item.args);
  }

  lemma SessionHandled(c: Client, cl: Line, id: string, stored: string)
    requires cl.name == SESSION_CHANGED && ParseSession(cl.args) == Some((id, stored))
    ensures HandleNotification(c, cl) ==
            Handled(c.(attached := id), [Emit(SessionChanged(id, Vis.Decode(stored)))], true)
  {
    assert |SESSION_CHANGED| == |EXTENDED_OUTPUT| && SESSION_CHANGED[0] != EXTENDED_OUTPUT[0];
    assert |SESSION_CHANGED| != |OUTPUT|;
  }

  lemma SessionRead(id: string, stored: Option<string>)
    requires IsID(id, '$')
    ensures ParseSession(SessionArgs(id, stored)) == Some((id, Given(stored)))
  {
    assert forall i :: 1 <= i < |id| ==> IsDigit(id[i]);
    assert ' ' !in id;
    if stored.Some? {
      assert SessionArgs(id, stored) == id + [' '] + stored.value;
      CutByteAt(id, ' ', stored.value);
    }
  }

  lemma SessionIsMeant(c: Client, item: Item, cr: bool)
    requires IsLive(c) && c.current == NoBlock && item.Session? && Written(item, cr)
    ensures IsLive(Meant(c, item)) && Feed(HearLine, c, Lines(item)) == Fed(Meant(c, item), Delivered(item), true)
  {
    var args := SessionArgs(item.id, item.stored);
    var raw := NoticeLine(SESSION_CHANGED, Some(args));
    assert LooksLikeName(SESSION_CHANGED);
    SessionRead(item.id, item.stored);
    SessionHandled(Heard(c), Line(Notification, raw, 0, 0, 0, false, SESSION_CHANGED, args, false),
                   item.id, Given(item.stored));
    NoticeLineIsMeant(c, item, SESSION_CHANGED, Some(args));
  }

  lemma UnreadableHandled(c: Client, cl: Line)
    requires CannotRead(cl.name, cl.args)
    ensures HandleNotification(c, cl) == Handled(c, Report(cl.raw, BadArguments(cl.name)), true)
  {
    assert |SESSION_CHANGED| == |EXTENDED_OUTPUT| && SESSION_CHANGED[0] != EXTENDED_OUTPUT[0];
    assert |SESSION_CHANGED| != |OUTPUT| && |OUTPUT| != |EXTENDED_OUTPUT|;
  }

  lemma UnreadableNames(name: string, args: string)
    requires CannotRead(name, args)
    ensures LooksLikeName(name) && BlockKind(name).None?
  {
    assert LooksLikeName(OUTPUT) && LooksLikeName(EXTENDED_OUTPUT) && LooksLikeName(SESSION_CHANGED);
  }

  lemma UnreadableIsMeant(c: Client, item: Item, cr: bool)
    requires IsLive(c) && c.current == NoBlock && item.Unreadable? && Written(item, cr)
    ensures IsLive(Meant(c, item)) && Feed(HearLine, c, Lines(item)) == Fed(Meant(c, item), Delivered(item), true)
  {
    UnreadableNames(item.name, Given(item.args));
    var raw := NoticeLine(item.name, item.args);
    UnreadableHandled(Heard(c), Line(Notification, raw, 0, 0, 0, false, item.name, Given(item.args), false));
    NoticeLineIsMeant(c, item, item.name, item.args);
  }

  lemma StrayIsMeant(c: Client, item: Item, cr: bool)
    requires IsLive(c) && c.current == NoBlock && item.Stray? && Written(item, cr)
    ensures IsLive(Meant(c, item)) && Feed(HearLine, c, Lines(item)) == Fed(Meant(c, item), Delivered(item), true)
  {
    ClassifiedBy(item.line);
    LineIsMeant(c, item, Classify(item.line));
  }

  lemma StrayEndHandled(c: Client, cl: Line, firstLine: bool)
    requires InRange(c) && c.current == NoBlock && IsTerminator(cl)
    ensures HandleOutside(c, cl, firstLine) ==
            if cl.malformed then Handled(c, Report(cl.raw, RuinedHeader(cl.kind)), true)
            else Handled(c.(started := true), Report(cl.raw, StrayTerminator), true)
  {
    assert c.(started := true, current := NoBlock) == c.(started := true);
  }

  lemma StrayEndMeans(c: Client, item: Item, cl: Line)
    requires IsLive(c) && c.current == NoBlock && item.StrayEnd? && cl.raw == Lines(item)[0]
    requires cl.kind == (if item.failed then Error else End) && (cl.malformed <==> !Numbered(item.ending))
    ensures HandleOutside(Heard(c), cl, !c.sawFirstLine) == Handled(Meant(c, item), Delivered(item), true)
  {
    StrayEndHandled(Heard(c), cl, !c.sawFirstLine);
  }

  lemma StrayEndIsMeant(c: Client, item: Item, cr: bool)
    requires IsLive(c) && c.current == NoBlock && item.StrayEnd? && Written(item, cr)
    ensures IsLive(Meant(c, item)) && Feed(HearLine, c, Lines(item)) == Fed(Meant(c, item), Delivered(item), true)
  {
    RuinedExactly(EndWord(item.failed), if item.failed then Error else End, item.ending);
    var cl := Classify(Worded(EndWord(item.failed), item.ending));
    StrayEndMeans(c, item, cl);
    LineIsMeant(c, item, cl);
  }

  lemma StampRead(name: string, kind: Kind, s: Stamp)
    requires BlockKind(name) == Some(kind) && StampOk(s)
    ensures Classify(Stamped(name, s)) ==
            Line(kind, Stamped(name, s), s.time, s.number, if s.flags.Some? then s.flags.value else 0,
                 s.flags.Some?, "", "", false)
  {
    HeaderRoundTrip(name, kind, s.time, s.number, s.flags);
  }

  // What an open block becomes when these lines are its body.
  function WithBody(c: Client, body: seq<string>): Client
    requires InRange(c)
  {
    if !c.current.Reply? then c
    else
      var p := c.cmds[c.current.id];
      c.(cmds := c.cmds[c.current.id := p.(lines := p.lines + body)])
  }

  predicate OpenNumber(c: Client, number: int)
    requires InRange(c)
  {
    match c.current
    case NoBlock => false
    case Reply(id) => c.cmds[id].number == number
    case Orphan(n, unnumbered) => n == number && !unnumbered
  }

  lemma BodyLineHandled(c: Client, cl: Line, number: int)
    requires IsLive(c) && OpenNumber(c, number) && !ClosesBlock(cl, number, true)
    ensures HandleLine(c, cl) == Handled(WithBody(c, [cl.raw]), [], true)
  {
  }

  lemma WithBodyTwice(c: Client, line: string, rest: seq<string>, number: int)
    requires IsLive(c) && OpenNumber(c, number)
    ensures var d := WithBody(c, [line]);
            InRange(d) && OpenNumber(d, number) && WithBody(d, rest) == WithBody(c, [line] + rest)
  {
    if c.current.Reply? {
      var lines := c.cmds[c.current.id].lines;
      assert lines + [line] + rest == lines + ([line] + rest);
    }
  }

  lemma NoBody(c: Client)
    requires InRange(c)
    ensures WithBody(c, []) == c
  {
    if c.current.Reply? {
      var p := c.cmds[c.current.id];
      assert p.(lines := p.lines + []) == p;
      assert c.cmds[c.current.id := p] == c.cmds;
    }
  }

  lemma BodyLineHeard(c: Client, line: string, number: int)
    requires IsLive(c) && OpenNumber(c, number) && !ClosesBlock(Classify(line), number, true)
    ensures HearLine(c, line) == Fed(WithBody(c, [line]), [], true) && IsLive(WithBody(c, [line]))
  {
    StillLive(c, Classify(line));
    BodyLineHandled(c, Classify(line), number);
  }

  lemma WithBodyStays(c: Client, body: seq<string>, number: int)
    requires IsLive(c) && OpenNumber(c, number)
    ensures IsLive(WithBody(c, body)) && OpenNumber(WithBody(c, body), number)
  {
  }

  predicate Ignored(line: string, number: int) {
    !ClosesBlock(Classify(line), number, true)
  }

  ghost predicate IsBodyOf(body: seq<string>, number: int) {
    forall i :: 0 <= i < |body| ==> Ignored(body[i], number)
  }

  lemma BodyTail(body: seq<string>, number: int)
    requires body != [] && IsBodyOf(body, number)
    ensures Ignored(body[0], number) && IsBodyOf(body[1..], number)
    ensures body == [body[0]] + body[1..]
  {
    var rest := body[1..];
    forall i | 0 <= i < |rest| ensures Ignored(rest[i], number) {
      assert Ignored(body[i + 1], number);
    }
  }

  lemma {:induction false} FeedBody(c: Client, body: seq<string>, number: int)
    requires IsLive(c) && OpenNumber(c, number) && IsBodyOf(body, number)
    ensures Feed(HearLine, c, body) == Fed(WithBody(c, body), [], true)
    decreases |body|
  {
    if body == [] {
      NoBody(c);
    } else {
      var line, rest := body[0], body[1..];
      var d := WithBody(c, [line]);
      BodyTail(body, number);
      BodyLineHeard(c, line, number);
      WithBodyTwice(c, line, rest, number);
      FeedBody(d, rest, number);
      FeedQuiet(HearLine, c, line, rest, d, WithBody(c, body));
    }
  }

  lemma HeaderHandled(c: Client, cl: Line)
    requires IsLive(c) && c.current == NoBlock && cl.kind == Begin && !cl.malformed
    ensures HandleLine(c, cl) == Handled(BeginBlock(c.(sawFirstLine := true), cl), [], true)
  {
  }

  lemma FooterHandled(c: Client, cl: Line, number: int)
    requires IsLive(c) && OpenNumber(c, number) && ClosesBlock(cl, number, true)
    ensures HandleLine(c, cl) == Handled(EndBlock(c, cl).0, [], true)
  {
  }

  // The three stretches of a block, put together.
  lemma BlockOpened(c: Client, item: Item, begin: Line, end: Line)
    requires IsLive(c) && c.current == NoBlock && item.Block? && begin.number == item.header.number
    requires begin.hasFlags == item.header.flags.Some? && (begin.hasFlags ==> begin.flags == item.header.flags.value)
    requires IsTerminator(end) && item.failed == (end.kind == Error) && end.time == item.footer.time
    requires end.flags == if item.footer.flags.Some? then item.footer.flags.value else 0
    ensures var open := BeginBlock(c.(sawFirstLine := true), begin);
            && IsLive(open) && OpenNumber(open, begin.number)
            && EndBlock(WithBody(open, item.body), end).0 == Meant(c, item)
  {
    var open := BeginBlock(c.(sawFirstLine := true), begin);
    HeadLive(c.(sawFirstLine := true), begin);
    if open.current.Reply? {
      ReplyMeant(c, item, begin, end);
    }
  }

  lemma ReplyMeant(c: Client, item: Item, begin: Line, end: Line)
    requires InRange(c) && c.current == NoBlock && c.queue != [] && c.started && !UnsolicitedBlock(begin)
    requires item.Block? && item.header.flags != Some(0) && begin.number == item.header.number
    requires IsTerminator(end) && item.failed == (end.kind == Error) && end.time == item.footer.time
    requires end.flags == if item.footer.flags.Some? then item.footer.flags.value else 0
    requires InRange(BeginBlock(c.(sawFirstLine := true), begin))
    ensures EndBlock(WithBody(BeginBlock(c.(sawFirstLine := true), begin), item.body), end).0 == Meant(c, item)
  {
    var id := c.queue[0];
    var open := BeginBlock(c.(sawFirstLine := true), begin);
    CommandAnswered(c.cmds[id], item, begin, end);
    Thrice(c.cmds, id, open.cmds[id], WithBody(open, item.body).cmds[id], Answered(c.cmds[id], item));
  }

  // One command through a block: its number, its body, its outcome.
  lemma CommandAnswered(p: Command, item: Item, begin: Line, end: Line)
    requires item.Block? && begin.number == item.header.number
    requires item.failed == (end.kind == Error) && end.time == item.footer.time
    requires end.flags == if item.footer.flags.Some? then item.footer.flags.value else 0
    ensures var q := p.(number := begin.number);
            var r := q.(lines := q.lines + item.body);
            r.(failed := end.kind == Error, answered := true, flags := end.flags, time := end.time,
               finishes := r.finishes + 1) == Answered(p, item)
  {
  }

  lemma Thrice(cmds: seq<Command>, id: nat, p: Command, q: Command, r: Command)
    requires id < |cmds|
    ensures cmds[id := p][id := q][id := r] == cmds[id := r]
  {
  }

  function Header(item: Item): string
    requires item.Block?
  {
    Stamped("begin", item.header)
  }

  function Footer(item: Item): string
    requires item.Block?
  {
    Stamped(EndWord(item.failed), item.footer)
  }

  lemma HeaderHeard(c: Client, item: Item)
    requires IsLive(c) && c.current == NoBlock && item.Block? && StampOk(item.header)
    ensures var open := BeginBlock(c.(sawFirstLine := true), Classify(Header(item)));
            HearLine(c, Header(item)) == Fed(open, [], true) && IsLive(open)
  {
    StampRead("begin", Begin, item.header);
    HeaderHandled(c, Classify(Header(item)));
    HeadLive(c.(sawFirstLine := true), Classify(Header(item)));
  }

  lemma FooterHeard(full: Client, item: Item)
    requires item.Block? && StampOk(item.footer)
    requires IsLive(full) && OpenNumber(full, item.footer.number)
    ensures HearLine(full, Footer(item)) == Fed(EndBlock(full, Classify(Footer(item))).0, [], true)
  {
    StampRead(EndWord(item.failed), if item.failed then Error else End, item.footer);
    FooterHandled(full, Classify(Footer(item)), item.footer.number);
  }

  lemma BlockMeans(c: Client, item: Item)
    requires IsLive(c) && c.current == NoBlock && item.Block? && Written(item, true)
    ensures var open := BeginBlock(c.(sawFirstLine := true), Classify(Header(item)));
            && IsLive(open) && OpenNumber(open, item.header.number)
            && EndBlock(WithBody(open, item.body), Classify(Footer(item))).0 == Meant(c, item)
  {
    StampRead("begin", Begin, item.header);
    StampRead(EndWord(item.failed), if item.failed then Error else End, item.footer);
    BlockOpened(c, item, Classify(Header(item)), Classify(Footer(item)));
  }

  lemma MeantLive(c: Client, item: Item)
    requires IsLive(c)
    ensures IsLive(Meant(c, item))
  {
    MeantInRange(c, item);
  }

  lemma BlockIsMeant(c: Client, item: Item)
    requires IsLive(c) && c.current == NoBlock && item.Block? && Written(item, true)
    ensures IsLive(Meant(c, item)) && Feed(HearLine, c, Lines(item)) == Fed(Meant(c, item), Delivered(item), true)
  {
    var open := BeginBlock(c.(sawFirstLine := true), Classify(Header(item)));
    HeaderHeard(c, item);
    BlockMeans(c, item);
    WithBodyStays(open, item.body, item.header.number);
    FeedBody(open, item.body, item.header.number);
    FooterHeard(WithBody(open, item.body), item);
    MeantLive(c, item);
    FeedBlock(HearLine, c, Header(item), item.body, Footer(item), [], open, WithBody(open, item.body), Meant(c, item));
  }

  // Nothing but a terminator gets out of a block without a number.
  lemma SwallowedHandled(c: Client, cl: Line, number: int)
    requires IsLive(c) && c.current == Orphan(number, true) && !IsTerminator(cl)
    ensures HandleLine(c, cl) == Handled(c, [], true)
  {
  }

  lemma {:induction false} FeedSwallowed(c: Client, body: seq<string>, number: int)
    requires IsLive(c) && c.current == Orphan(number, true)
    requires forall i :: 0 <= i < |body| ==> !IsTerminator(Classify(body[i]))
    ensures Feed(HearLine, c, body) == Fed(c, [], true)
    decreases |body|
  {
    if body != [] {
      SwallowedHandled(c, Classify(body[0]), number);
      FeedSwallowed(c, body[1..], number);
    }
  }

  // The client after a ruined header: its head abandoned, unless this is the first line of all.
  function Abandons(c: Client, item: Item): Client
    requires InRange(c) && item.RuinedBlock?
  {
    (if !c.sawFirstLine || c.queue == [] then c else TakesTurn(c, item)).(sawFirstLine := true)
  }

  lemma RuinedHeaderHandled(c: Client, cl: Line)
    requires IsLive(c) && c.current == NoBlock && cl.kind == Begin && cl.malformed
    ensures HandleLine(c, cl) ==
            var d := if c.sawFirstLine then FailHead(c, cl.raw) else c;
            Handled(d.(sawFirstLine := true, current := Orphan(0, true)), Report(cl.raw, RuinedHeader(Begin)), true)
  {
  }

  lemma HeadAbandoned(c: Client, item: Item)
    requires InRange(c) && item.RuinedBlock?
    ensures (if c.sawFirstLine then FailHead(c, Worded("begin", item.fields)) else c).(sawFirstLine := true)
            == Abandons(c, item)
  {
  }

  lemma RuinedHeaderHeard(c: Client, item: Item, cr: bool)
    requires IsLive(c) && c.current == NoBlock && item.RuinedBlock? && Written(item, cr)
    ensures var open := Abandons(c, item).(current := Orphan(0, true));
            HearLine(c, Worded("begin", item.fields)) == Fed(open, Delivered(item), true) && IsLive(open)
  {
    RuinedExactly("begin", Begin, item.fields);
    var cl := Classify(Worded("begin", item.fields));
    RuinedHeaderHandled(c, cl);
    HeadAbandoned(c, item);
    StillLive(c, cl);
  }

  lemma AnyEndHandled(c: Client, cl: Line, number: int)
    requires IsLive(c) && c.current == Orphan(number, true) && IsTerminator(cl)
    ensures HandleLine(c, cl) == Handled(c.(started := true, current := NoBlock), [], true)
  {
  }

  lemma AnyEndHeard(c: Client, item: Item)
    requires IsLive(c) && c.current == Orphan(0, true) && item.RuinedBlock? && AllFields(item.ending)
    ensures HearLine(c, Worded(EndWord(item.failed), item.ending)) ==
            Fed(c.(started := true, current := NoBlock), [], true)
  {
    RuinedExactly(EndWord(item.failed), if item.failed then Error else End, item.ending);
    AnyEndHandled(c, Classify(Worded(EndWord(item.failed), item.ending)), 0);
  }

  lemma RuinedBlockIsMeant(c: Client, item: Item, cr: bool)
    requires IsLive(c) && c.current == NoBlock && item.RuinedBlock? && Written(item, cr)
    ensures IsLive(Meant(c, item)) && Feed(HearLine, c, Lines(item)) == Fed(Meant(c, item), Delivered(item), true)
  {
    var open := Abandons(c, item).(current := Orphan(0, true));
    var last := Worded(EndWord(item.failed), item.ending);
    RuinedHeaderHeard(c, item, cr);
    FeedSwallowed(open, item.body, 0);
    AnyEndHeard(open, item);
    MeantLive(c, item);
    assert open.(started := true, current := NoBlock) == Meant(c, item);
    FeedBlock(HearLine, c, Worded("begin", item.fields), item.body, last, Delivered(item), open, open, Meant(c, item));
  }

  lemma ItemIsMeant(c: Client, item: Item, cr: bool)
    requires IsLive(c) && c.current == NoBlock && Written(item, cr)
    ensures IsLive(Meant(c, item)) && Meant(c, item).current == NoBlock
    ensures Feed(HearLine, c, Lines(item)) == Fed(Meant(c, item), Delivered(item), true)
  {
    match item
    case Chunk(_, _) => ChunkIsMeant(c, item);
    case AgedChunk(_, _, _, _) => AgedChunkIsMeant(c, item);
    case Block(_, _, _, _) => BlockIsMeant(c, item);
    case RuinedBlock(_, _, _, _) => RuinedBlockIsMeant(c, item, cr);
    case Session(_, _) => SessionIsMeant(c, item, cr);
    case Notice(_, _) => NoticeIsMeant(c, item, cr);
    case Unreadable(_, _) => UnreadableIsMeant(c, item, cr);
    case Stray(_) => StrayIsMeant(c, item, cr);
    case StrayEnd(_, _) => StrayEndIsMeant(c, item, cr);
  }

  // --- The whole stream ---------------------------------------------------------------------------

  ghost predicate OneLine(s: string) {
    forall i :: 0 <= i < |s| ==> s[i] != '\n' && s[i] != '\r'
  }

  lemma {:induction false} JoinOneLine(fields: seq<string>)
    requires forall i :: 0 <= i < |fields| ==> IsField(fields[i])
    ensures OneLine(Join(fields, " "))
  {
    if |fields| > 1 {
      JoinOneLine(fields[1..]);
      assert IsField(fields[0]);
    } else if |fields| == 1 {
      assert IsField(fields[0]);
    }
  }

  lemma StampedOneLine(name: string, s: Stamp)
    requires OneLine(name)
    ensures OneLine(Stamped(name, s)) && Stamped(name, s)[0] == '%'
  {
    JoinOneLine(HeaderFields(s.time, s.number, s.flags));
  }

  lemma OneLineConcat(a: string, b: string)
    requires OneLine(a) && OneLine(b)
    ensures OneLine(a + b)
  {
  }

  lemma ChunkOneLine(pane: string, data: string)
    requires OneLine(pane) && OneLine(data)
    ensures OneLine("%" + OUTPUT + " " + (pane + " " + data))
  {
    OneLineConcat(pane, " ");
    OneLineConcat(pane + " ", data);
    OneLineConcat("%" + OUTPUT + " ", pane + " " + data);
  }

  lemma AgedChunkOneLine(pane: string, meta: string, data: string)
    requires OneLine(pane) && OneLine(meta) && OneLine(data)
    ensures OneLine("%" + EXTENDED_OUTPUT + " " + (pane + " " + meta + COLON + data))
  {
    OneLineConcat(pane, " ");
    OneLineConcat(pane + " ", meta);
    OneLineConcat(pane + " " + meta, COLON);
    OneLineConcat(pane + " " + meta + COLON, data);
    OneLineConcat("%" + EXTENDED_OUTPUT + " ", pane + " " + meta + COLON + data);
  }

  predicate IsChunk(item: Item) {
    item.Chunk? || item.AgedChunk?
  }

  lemma WordedOneLine(word: string, fields: seq<string>)
    requires OneLine(word) && AllFields(fields)
    ensures OneLine(Worded(word, fields)) && Worded(word, fields)[0] == '%'
  {
    JoinOneLine(fields);
  }

  // All but a stray line begin with a percent sign.
  lemma LinesStart(item: Item)
    ensures Lines(item) != [] && (item.Stray? ==> Lines(item)[0] == item.line)
    ensures !item.Stray? ==> Lines(item)[0] != "" && Lines(item)[0][0] == '%'
  {
  }

  lemma OutputOneLine(item: Item)
    requires IsChunk(item) && Written(item, true)
    ensures OneLine(Lines(item)[0])
  {
    var data := Escape.Escaped(item.data);
    Escape.EscapedClean(item.data);
    assert OneLine(data) && OneLine(item.pane);
    if item.AgedChunk? {
      JoinOneLine([Itoa(item.age)] + item.reserved);
      AgedChunkOneLine(item.pane, Join([Itoa(item.age)] + item.reserved, " "), data);
    } else {
      ChunkOneLine(item.pane, data);
    }
  }

  lemma LinesPlain(item: Item, cr: bool)
    requires Written(item, cr)
    ensures forall i :: 0 <= i < |Lines(item)| ==> Plain(Lines(item)[i], cr)
  {
    match item
    case Block(header, _, failed, footer) =>
      StampedOneLine("begin", header);
      StampedOneLine(EndWord(failed), footer);
    case RuinedBlock(fields, _, failed, ending) =>
      WordedOneLine("begin", fields);
      WordedOneLine(EndWord(failed), ending);
    case StrayEnd(failed, ending) => WordedOneLine(EndWord(failed), ending);
    case Session(_, _) =>
    case Notice(_, _) =>
    case Unreadable(_, _) =>
    case Stray(_) =>
    case _ => OutputOneLine(item);
  }

  // What stands first in the stream is not taken for the introduction of -CC.
  ghost predicate Introduces(items: seq<Item>, first: bool) {
    first && items != [] && items[0].Stray? && DCS_ENTER <= items[0].line
  }

  lemma {:induction false} AllLinesPlain(items: seq<Item>, cr: bool)
    requires forall i :: 0 <= i < |items| ==> Written(items[i], cr)
    ensures var lines := AllLines(items);
            && (forall i :: 0 <= i < |lines| ==> Plain(lines[i], cr))
            && (lines == [] <==> items == [])
            && (items != [] && !Introduces(items, true) ==> !(DCS_ENTER <= lines[0]))
  {
    if items != [] {
      LinesStart(items[0]);
      LinesPlain(items[0], cr);
      AllLinesPlain(items[1..], cr);
      assert DCS_ENTER[0] != '%';
    }
  }

  // What reads every item as it was meant.
  ghost predicate ReadsItems(step: (Client, string) -> Fed<Client>, cr: bool) {
    forall c: Client, item :: IsLive(c) && c.current == NoBlock && Written(item, cr) ==>
      && IsLive(Meant(c, item)) && Meant(c, item).current == NoBlock
      && Feed(step, c, Lines(item)) == Fed(Meant(c, item), Delivered(item), true)
  }

  lemma HearLineReadsItems(cr: bool)
    ensures ReadsItems(HearLine, cr)
  {
    forall c: Client, item | IsLive(c) && c.current == NoBlock && Written(item, cr)
      ensures IsLive(Meant(c, item)) && Meant(c, item).current == NoBlock
      ensures Feed(HearLine, c, Lines(item)) == Fed(Meant(c, item), Delivered(item), true)
    {
      ItemIsMeant(c, item, cr);
    }
  }

  lemma {:induction false} ItemsFed(step: (Client, string) -> Fed<Client>, c: Client, items: seq<Item>, cr: bool)
    requires IsLive(c) && ReadsItems(step, cr) && c.current == NoBlock
    requires forall i :: 0 <= i < |items| ==> Written(items[i], cr)
    ensures var (d, effects) := MeantAll(c, items);
            IsLive(d) && d.current == NoBlock && Feed(step, c, AllLines(items)) == Fed(d, effects, true)
    decreases |items|
  {
    if items != [] {
      var item := items[0];
      var e := Meant(c, item);
      assert Written(item, cr);
      ItemsFed(step, e, items[1..], cr);
      var (d, effects) := MeantAll(e, items[1..]);
      FeedThen(step, c, Lines(item), AllLines(items[1..]), Fed(e, Delivered(item), true), Fed(d, effects, true));
    }
  }

  lemma ItemsRead(step: (Client, string) -> Fed<Client>, c: Client, items: seq<Item>, cr: bool, rest: string,
                  first: bool)
    requires IsLive(c) && ReadsItems(step, cr) && c.current == NoBlock && !Introduces(items, first)
    requires forall i :: 0 <= i < |items| ==> Written(items[i], cr)
    ensures var (d, effects) := MeantAll(c, items);
            && IsLive(d) && d.current == NoBlock
            && Read(step, c, Text(AllLines(items), cr) + rest, first) ==
               Then(Fed(d, effects, true), Read(step, d, rest, first && items == []))
  {
    ItemsFed(step, c, items, cr);
    AllLinesPlain(items, cr);
    var (d, effects) := MeantAll(c, items);
    ReadThen(step, c, AllLines(items), cr, rest, first, Fed(d, effects, true));
  }

  /** Whatever tmux writes while no block is open, in any order and with either line ending, is read back as
      it was meant: the same bytes for the same panes; each block's body, outcome and numbers to the command
      whose turn it was, and a ruined one's error; every notification as its event, in its place; and all
      that is no part of the protocol reported. */
  lemma StreamIsRead(c: Client, items: seq<Item>, cr: bool, rest: string, first: bool)
    requires IsLive(c) && c.current == NoBlock && !Introduces(items, first)
    requires forall i :: 0 <= i < |items| ==> Written(items[i], cr)
    ensures var (d, effects) := MeantAll(c, items);
            && IsLive(d) && d.current == NoBlock
            && Read(HearLine, c, Text(AllLines(items), cr) + rest, first) ==
               Then(Fed(d, effects, true), Read(HearLine, d, rest, first && items == []))
  {
    HearLineReadsItems(cr);
    ItemsRead(HearLine, c, items, cr, rest, first);
  }

  lemma EnteredRaw(raw: string)
    requires !(DCS_ENTER <= raw)
    ensures Clean(DCS_ENTER + raw, true) == Clean(raw, true)
  {
    var t := DCS_ENTER + raw;
    assert DCS_ENTER[|DCS_ENTER| - 1] != '\r';
    assert raw != "" ==> t[|t| - 1] == raw[|raw| - 1];
    assert TrimSuffix(t, '\r') == DCS_ENTER + TrimSuffix(raw, '\r');
    assert TrimSuffix(raw, '\r') <= raw;
  }

  lemma EnteredCut(s: string)
    ensures var (raw, rest, ended) := CutByte(s, '\n');
            CutByte(DCS_ENTER + s, '\n') == (DCS_ENTER + raw, rest, ended)
  {
    var (raw, rest, ended) := CutByte(s, '\n');
    assert '\n' !in DCS_ENTER;
    if ended {
      CutByteAt(DCS_ENTER + raw, '\n', rest);
      assert DCS_ENTER + s == DCS_ENTER + raw + ['\n'] + rest;
    } else {
      assert '\n' !in DCS_ENTER + s;
    }
  }

  const EXIT := "exit"

  function ExitLine(args: Option<string>): string {
    NoticeLine(EXIT, args)
  }

  function Stopped(c: Client, args: Option<string>): Client {
    Heard(c).(sawExit := true, exitMsg := ExitReason(Given(args)))
  }

  lemma ExitHandled(c: Client, args: Option<string>)
    requires IsLive(c) && c.current == NoBlock
    ensures HearLine(c, ExitLine(args)) == Fed(Stopped(c, args), [], false)
  {
    assert LooksLikeName(EXIT);
    NamedLine(EXIT, args);
    var cl := Classify(ExitLine(args));
    OutsideHeard(c, cl);
    NoticeEnd(Heard(c), cl);
  }

  /** %exit is the last thing read: nothing that follows it in the stream, however it is shaped, answers a
      command, delivers a byte or changes the reason. */
  lemma NothingIsReadAfterExit(c: Client, items: seq<Item>, args: Option<string>, cr: bool, rest: string,
                               first: bool)
    requires IsLive(c) && c.current == NoBlock && !Introduces(items, first) && Plain(ExitLine(args), cr)
    requires forall i :: 0 <= i < |items| ==> Written(items[i], cr)
    ensures var (d, effects) := MeantAll(c, items);
            Read(HearLine, c, Text(AllLines(items) + [ExitLine(args)], cr) + rest, first) ==
            Fed(Stopped(d, args), effects, false)
  {
    HearLineReadsItems(cr);
    ItemsFed(HearLine, c, items, cr);
    var d := MeantAll(c, items).0;
    ExitHandled(d, args);
    ItemsStopped(HearLine, c, items, ExitLine(args), cr, rest, Stopped(d, args), first);
  }

  lemma ItemsStopped(step: (Client, string) -> Fed<Client>, c: Client, items: seq<Item>, line: string, cr: bool,
                     rest: string, end: Client, first: bool)
    requires IsLive(c) && ReadsItems(step, cr) && c.current == NoBlock && !Introduces(items, first)
    requires forall i :: 0 <= i < |items| ==> Written(items[i], cr)
    requires Plain(line, cr) && line != "" && line[0] == '%' && step(MeantAll(c, items).0, line) == Fed(end, [], false)
    ensures Read(step, c, Text(AllLines(items) + [line], cr) + rest, first) == Fed(end, MeantAll(c, items).1, false)
  {
    var (d, effects) := MeantAll(c, items);
    ItemsFed(step, c, items, cr);
    AllLinesPlain(items, cr);
    assert DCS_ENTER[0] != '%';
    ReadStopped(step, c, AllLines(items), line, cr, rest, Fed(d, effects, true), first);
    assert effects + [] == effects;
  }

  lemma ReadStopped<S>(step: (S, string) -> Fed<S>, c: S, lines: seq<string>, line: string, cr: bool,
                       rest: string, f: Fed<S>, first: bool)
    requires forall i :: 0 <= i < |lines| ==> Plain(lines[i], cr)
    requires first ==> !(DCS_ENTER <= (lines + [line])[0])
    requires Plain(line, cr) && Feed(step, c, lines) == f && f.goOn && !step(f.state, line).goOn
    ensures Read(step, c, Text(lines + [line], cr) + rest, first) == Then(f, step(f.state, line))
  {
    var stop := step(f.state, line);
    assert Feed(step, f.state, [line]) == stop;
    FeedThen(step, c, lines, [line], f, stop);
    ReadText(step, c, lines + [line], cr, rest, first);
  }

  /** Such a stream: anything tmux may write, then an %exit with these arguments, then anything at all. */
  ghost predicate EndsInExit(stdout: string, args: Option<string>) {
    exists items, cr, rest :: ExitAfter(stdout, args, items, cr, rest)
  }

  ghost predicate ExitAfter(stdout: string, args: Option<string>, items: seq<Item>, cr: bool, rest: string) {
    && (forall i :: 0 <= i < |items| ==> Written(items[i], cr)) && !Introduces(items, true)
    && Plain(ExitLine(args), cr)
    && stdout == Text(AllLines(items) + [ExitLine(args)], cr) + rest
  }

  lemma ItemKeepsEnd(c: Client, item: Item)
    requires InRange(c)
    ensures SameEnd(c, Meant(c, item))
  {
    if IsReply(item) && c.queue != [] {
      assert SameEnd(c, TakesTurn(c, item));
    }
  }

  lemma {:induction false} MeantKeepsEnd(c: Client, items: seq<Item>)
    requires InRange(c)
    ensures SameEnd(c, MeantAll(c, items).0)
    decreases |items|
  {
    if items != [] {
      MeantInRange(c, items[0]);
      ItemKeepsEnd(c, items[0]);
      MeantKeepsEnd(Meant(c, items[0]), items[1..]);
    }
  }

  lemma ExitIsTheEnd(c: Client, stdout: string, args: Option<string>)
    requires IsLive(c) && c.current == NoBlock && EndsInExit(stdout, args)
    ensures var f := Read(HearLine, c, stdout, true);
            !f.goOn && f.state.sawExit && f.state.exitMsg == ExitReason(Given(args)) && f.state.userClose == c.userClose
  {
    var items, cr, rest :| ExitAfter(stdout, args, items, cr, rest);
    NothingIsReadAfterExit(c, items, args, cr, rest, true);
    MeantKeepsEnd(c, items);
  }

  /** And one that just stops: anything tmux may write, the bodies of blocks whatever they look like, and
      nothing more. */
  ghost predicate JustStops(stdout: string) {
    exists items, cr :: StopsAfter(stdout, items, cr)
  }

  ghost predicate StopsAfter(stdout: string, items: seq<Item>, cr: bool) {
    && (forall i :: 0 <= i < |items| ==> Written(items[i], cr)) && !Introduces(items, true)
    && stdout == Text(AllLines(items), cr)
  }

  lemma StoppingIsNoExit(c: Client, stdout: string)
    requires IsLive(c) && c.current == NoBlock && JustStops(stdout)
    ensures var f := Read(HearLine, c, stdout, true); f.goOn && SameEnd(c, f.state)
  {
    var items, cr :| StopsAfter(stdout, items, cr);
    assert stdout + "" == stdout;
    StreamIsRead(c, items, cr, "", true);
    MeantKeepsEnd(c, items);
  }

  // --- A stream in which tmux does not say %exit --------------------------------------------------

  // The lines of a stream, as the reader takes them.
  function Framed(s: string, first: bool): seq<string>
    decreases |s|
  {
    if s == "" then []
    else
      var (raw, rest, ended) := CutByte(s, '\n');
      [Clean(raw, first)] + Framed(rest, false)
  }

  predicate IsExit(line: string) {
    line == "%exit" || "%exit " <= line
  }

  lemma ExitSaid(args: Option<string>)
    ensures SaysExit(Classify(ExitLine(args)))
  {
    assert LooksLikeName(EXIT);
    NamedLine(EXIT, args);
  }

  lemma ExitNamed(line: string)
    requires NameOf(line) == EXIT
    ensures IsExit(line)
  {
    var (name, args, found) := CutByte(line[1..], ' ');
    assert line == ['%'] + line[1..];
    if found {
      assert line == "%exit " + args;
    } else {
      assert line == "%exit";
    }
  }

  lemma SaysExitNamed(line: string)
    requires SaysExit(Classify(line))
    ensures NameOf(line) == EXIT
  {
    ClassifiedBy(line);
  }

  lemma ExitArgs(line: string) returns (args: Option<string>)
    requires IsExit(line)
    ensures ExitLine(args) == line
  {
    if line == "%exit" {
      args := None;
    } else {
      args := Some(line[6..]);
      assert "%" + EXIT + (" " + line[6..]) == "%exit " + line[6..];
      assert line == line[..6] + line[6..] && line[..6] == "%exit ";
    }
  }

  lemma ExitShape(line: string)
    ensures SaysExit(Classify(line)) <==> IsExit(line)
  {
    if SaysExit(Classify(line)) {
      SaysExitNamed(line);
      ExitNamed(line);
    }
    if IsExit(line) {
      var args := ExitArgs(line);
      ExitSaid(args);
    }
  }

  // No line closes the connection on its caller's behalf.
  lemma {:induction false} ReadKeepsClose(c: Client, s: string, first: bool)
    requires IsLive(c)
    ensures Read(HearLine, c, s, first).state.userClose == c.userClose
    decreases |s|
  {
    if s != "" {
      var (raw, rest, ended) := CutByte(s, '\n');
      var cl := Classify(Clean(raw, first));
      ExitExactly(c, cl);
      StillLive(c, cl);
      ReadKeepsClose(HandleLine(c, cl).client, rest, false);
    }
  }

  ghost predicate NoExit(stdout: string) {
    forall line :: line in Framed(stdout, true) ==> !IsExit(line)
  }

  /** Whatever else the stream holds, without a line that says %exit it is read to its end and leaves no
      reason. */
  lemma {:induction false} NoExitNoReason(c: Client, s: string, first: bool)
    requires IsLive(c) && forall line :: line in Framed(s, first) ==> !IsExit(line)
    ensures var f := Read(HearLine, c, s, first); f.goOn && SameEnd(c, f.state)
    decreases |s|
  {
    if s != "" {
      var (raw, rest, ended) := CutByte(s, '\n');
      var line := Clean(raw, first);
      var cl := Classify(line);
      assert line in Framed(s, first) && forall l :: l in Framed(rest, false) ==> l in Framed(s, first);
      ExitShape(line);
      ExitExactly(c, cl);
      StillLive(c, cl);
      NoExitNoReason(HandleLine(c, cl).client, rest, false);
    }
  }

  // The introduction tmux -CC writes is no part of the first line, whatever that line is.
  lemma EnteredStream<S>(step: (S, string) -> Fed<S>, c: S, s: string)
    requires s != "" && !(DCS_ENTER <= s)
    ensures Read(step, c, DCS_ENTER + s, true) == Read(step, c, s, true)
  {
    EnteredCut(s);
    CutFront(s);
    EnteredRaw(CutByte(s, '\n').0);
    ReadFirst(step, c, s);
    ReadFirst(step, c, DCS_ENTER + s);
  }

  lemma CutFront(s: string)
    ensures CutByte(s, '\n').0 <= s
  {
    var (raw, rest, ended) := CutByte(s, '\n');
    assert ended ==> s == raw + (['\n'] + rest);
  }

  lemma ReadFirst<S>(step: (S, string) -> Fed<S>, c: S, s: string)
    requires s != ""
    ensures var (raw, rest, ended) := CutByte(s, '\n');
            var h := step(c, Clean(raw, true));
            Read(step, c, s, true) == if h.goOn then Then(h, Read(step, h.state, rest, false)) else h
  {
  }

  function Deliveries(chunks: seq<Item>): seq<Effect> {
    if chunks == [] then [] else Delivered(chunks[0]) + Deliveries(chunks[1..])
  }

  lemma {:induction false} ChunksMeant(c: Client, chunks: seq<Item>)
    requires InRange(c) && forall i :: 0 <= i < |chunks| ==> IsChunk(chunks[i])
    ensures MeantAll(c, chunks) == (if chunks == [] then c else Heard(c), Deliveries(chunks))
    decreases |chunks|
  {
    if chunks != [] {
      MeantInRange(c, chunks[0]);
      ChunksMeant(Heard(c), chunks[1..]);
    }
  }

  /** Pane output survives the whole way: every sequence of chunks sent while no block is open is
      delivered chunk for chunk, in order, and disturbs nothing else. */
  lemma OutputArrives(c: Client, chunks: seq<Item>, cr: bool)
    requires IsLive(c) && c.current == NoBlock && c.sawFirstLine
    requires forall i :: 0 <= i < |chunks| ==> IsChunk(chunks[i]) && Written(chunks[i], cr)
    ensures Read(HearLine, c, Text(AllLines(chunks), cr), false) == Fed(c, Deliveries(chunks), true)
  {
    StreamIsRead(c, chunks, cr, "", false);
    ChunksMeant(c, chunks);
    var s := Text(AllLines(chunks), cr);
    assert s + "" == s;
    assert Deliveries(chunks) + [] == Deliveries(chunks);
  }

  function Replies(items: seq<Item>): seq<Item> {
    if items == [] then []
    else (if IsReply(items[0]) then [items[0]] else []) + Replies(items[1..])
  }

  ghost predicate AnswersSomething(item: Item) {
    item.RuinedBlock? || (item.Block? && item.header.flags != Some(0))
  }

  // The k-th reply changed the k-th waiting command, and nothing else changed.
  ghost predicate EachInTurn(c: Client, replies: seq<Item>, d: Client)
    requires InRange(c) && |replies| <= |c.queue|
  {
    && d.queue == c.queue[|replies|..] && |d.cmds| == |c.cmds|
    && (forall k :: 0 <= k < |replies| ==>
          IsReply(replies[k]) && d.cmds[c.queue[k]] == Answered(c.cmds[c.queue[k]], replies[k]))
    && (forall id :: 0 <= id < |c.cmds| && id !in c.queue[..|replies|] ==> d.cmds[id] == c.cmds[id])
  }

  // The first of the queue, and the first of what is left of it.
  lemma QueueFront(queue: seq<nat>, n: nat)
    requires n < |queue| && Ascending(queue)
    ensures queue[..n + 1] == [queue[0]] + queue[1..][..n] && queue[1..][n..] == queue[n + 1..]
    ensures queue[0] !in queue[1..][..n]
    ensures forall k :: 0 <= k < n ==> queue[1..][k] == queue[k + 1]
  {
  }

  // Taking a turn and then the rest of them is taking them all; `e` is the client in between.
  lemma TurnTaken(c: Client, e: Client, item: Item, replies: seq<Item>, d: Client)
    requires InRange(c) && InRange(e) && Ascending(c.queue) && |replies| < |c.queue| && IsReply(item)
    requires e.queue == c.queue[1..] && e.cmds == c.cmds[c.queue[0] := Answered(c.cmds[c.queue[0]], item)]
    requires EachInTurn(e, replies, d)
    ensures EachInTurn(c, [item] + replies, d)
  {
    var all := [item] + replies;
    QueueFront(c.queue, |replies|);
    forall k | 0 <= k < |all|
      ensures IsReply(all[k]) && d.cmds[c.queue[k]] == Answered(c.cmds[c.queue[k]], all[k])
    {
      if k > 0 {
        assert all[k] == replies[k - 1] && e.queue[k - 1] == c.queue[k];
      }
    }
    forall id | 0 <= id < |c.cmds| && id !in c.queue[..|all|] ensures d.cmds[id] == c.cmds[id] {
      assert id !in e.queue[..|replies|] && id != c.queue[0];
    }
  }

  lemma TurnStarts(c: Client, item: Item)
    requires IsLive(c) && Ascending(c.queue) && c.sawFirstLine && c.started
    ensures var e := Meant(c, item);
            && IsLive(e) && Ascending(e.queue) && e.sawFirstLine && e.started
            && (AnswersSomething(item) && c.queue != [] ==>
                  e.queue == c.queue[1..] && e.cmds == c.cmds[c.queue[0] := Answered(c.cmds[c.queue[0]], item)])
            && (!IsReply(item) ==> e.queue == c.queue && e.cmds == c.cmds)
  {
    MeantLive(c, item);
    var q := Meant(c, item).queue;
    assert q == c.queue || (c.queue != [] && q == c.queue[1..]);
    assert q != c.queue ==> forall i :: 0 <= i < |q| ==> q[i] == c.queue[i + 1];
  }

  lemma RepliesFirst(items: seq<Item>)
    requires items != []
    ensures Replies(items) == if IsReply(items[0]) then [items[0]] + Replies(items[1..]) else Replies(items[1..])
  {
    assert [] + Replies(items[1..]) == Replies(items[1..]);
  }

  // Where nothing but flags tells two clients apart the replies are taken alike.
  lemma SameTurns(c: Client, e: Client, replies: seq<Item>, d: Client)
    requires InRange(c) && InRange(e) && e.queue == c.queue && e.cmds == c.cmds && |replies| <= |c.queue|
    requires EachInTurn(e, replies, d)
    ensures EachInTurn(c, replies, d)
  {
  }

  lemma {:induction false} RepliesMeant(c: Client, items: seq<Item>)
    requires IsLive(c) && Ascending(c.queue) && c.sawFirstLine && c.started
    requires |Replies(items)| <= |c.queue|
    requires forall i :: 0 <= i < |items| && IsReply(items[i]) ==> AnswersSomething(items[i])
    ensures EachInTurn(c, Replies(items), MeantAll(c, items).0)
    decreases |items|
  {
    if items == [] {
      assert c.queue[0..] == c.queue;
    } else {
      var item, rest := items[0], items[1..];
      var e := Meant(c, item);
      TurnStarts(c, item);
      RepliesFirst(items);
      RepliesMeant(e, rest);
      if IsReply(item) {
        TurnTaken(c, e, item, Replies(rest), MeantAll(e, rest).0);
      } else {
        SameTurns(c, e, Replies(rest), MeantAll(e, rest).0);
      }
    }
  }

  /** Byte for byte, with anything tmux writes between them: the k-th reply in the stream answers the k-th
      command waiting, with its body, outcome and numbers, or abandons it if its header is ruined, and no
      other command changes. */
  lemma RepliesArrive(c: Client, items: seq<Item>, cr: bool)
    requires Inv(c) && c.current == NoBlock && c.sawFirstLine && c.started
    requires |Replies(items)| <= |c.queue|
    requires forall i :: 0 <= i < |items| ==>
                           Written(items[i], cr) && (IsReply(items[i]) ==> AnswersSomething(items[i]))
    ensures EachInTurn(c, Replies(items), Read(HearLine, c, Text(AllLines(items), cr), false).state)
  {
    StreamIsRead(c, items, cr, "", false);
    RepliesMeant(c, items);
    assert Text(AllLines(items), cr) + "" == Text(AllLines(items), cr);
  }
}
