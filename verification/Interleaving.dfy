/** control_reader.go and control.go together: the bytes tmux writes, with callers, timer and Close
    getting in between any two lines of them. */
module Interleaving {
  import opened Bytes
  import opened CtlParse
  import opened Protocol
  import opened Binding
  import W = Wire

  // A reader with all that is going to happen, in order: `ahead` holds the lines still to be read
  // only to say what comes between them.
  datatype Reader = Reader(client: Client, ahead: seq<Move>)

  // What happens before the next line.
  ghost function Locals(r: Reader): Reader
    decreases |r.ahead|
  {
    if r.ahead == [] || r.ahead[0].Heard? || !InRange(r.client) || !Enabled(r.client, r.ahead[0].action) then r
    else Locals(Reader(Step(r.client, r.ahead[0].action).0, r.ahead[1..]))
  }

  // One turn of readLoop: everything that comes before the line, and then the line.
  ghost function Turn(r: Reader, line: string): W.Fed<Reader> {
    var s := Locals(r);
    if s.ahead == [] || !InRange(s.client) then W.Fed(s, [], true)
    else
      var h := HandleLine(s.client, Classify(line));
      W.Fed(Reader(h.client, s.ahead[1..]), h.effects, h.goOn)
  }

  // The lines among the moves, as they stand in the stream.
  function Raw(moves: seq<Move>): seq<string> {
    if moves == [] then []
    else (if moves[0].Heard? then [moves[0].said.cl.raw] else []) + Raw(moves[1..])
  }

  // Each of them is the line the client is to take it for, and can be framed.
  ghost predicate Legible(moves: seq<Move>, cr: bool) {
    forall i :: 0 <= i < |moves| && moves[i].Heard? ==>
                  var cl := moves[i].said.cl;
                  Classify(cl.raw) == cl && W.Plain(cl.raw, cr)
  }

  lemma {:induction false} RawPlain(moves: seq<Move>, cr: bool)
    requires Legible(moves, cr)
    ensures forall i :: 0 <= i < |Raw(moves)| ==> W.Plain(Raw(moves)[i], cr)
  {
    if moves != [] {
      RawPlain(moves[1..], cr);
    }
  }

  lemma RawLocal(moves: seq<Move>)
    requires moves != [] && moves[0].Local?
    ensures Raw(moves) == Raw(moves[1..])
  {
    assert [] + Raw(moves[1..]) == Raw(moves[1..]);
  }

  // Nothing a caller does takes back the exit.
  lemma LocalKeepsExit(c: Client, a: Action)
    requires InRange(c) && Enabled(c, a) && !a.Recv?
    ensures Step(c, a).0.sawExit == c.sawExit
  {
  }

  lemma {:induction false} NothingHeardAfterExit(c: Client, t: Tmux, moves: seq<Move>, d: Client, u: Tmux)
    requires Together(c, t, moves, d, u) && c.sawExit
    ensures Raw(moves) == [] && Locals(Reader(c, moves)) == Reader(d, [])
    decreases |moves|
  {
    if moves != [] {
      var m := moves[0];
      assert m.Local?;
      LocalKeepsExit(c, m.action);
      RawLocal(moves);
      NothingHeardAfterExit(MoveClient(c, m), MoveTmux(c, t, m), moves[1..], d, u);
    }
  }

  // A line that stops the reader is %exit.
  lemma StopsAtExit(c: Client, cl: Line)
    requires InRange(c) && !HandleLine(c, cl).goOn
    ensures HandleLine(c, cl).client.sawExit
  {
  }

  // One move fewer ahead, and the rest fed as before.
  lemma FeedLocal(r: Reader, lines: seq<string>)
    requires r.ahead != [] && r.ahead[0].Local? && InRange(r.client) && Enabled(r.client, r.ahead[0].action)
    ensures var s := Reader(Step(r.client, r.ahead[0].action).0, r.ahead[1..]);
            if lines == [] then W.Feed(Turn, r, lines) == W.Fed(r, [], true)
            else W.Feed(Turn, r, lines) == W.Feed(Turn, s, lines)
  {
  }

  /** Fed the lines, with everything else where it happened, the reader ends where the run does. */
  lemma {:induction false} FeedIsTogether(c: Client, t: Tmux, moves: seq<Move>, d: Client, u: Tmux, cr: bool)
    requires Together(c, t, moves, d, u) && Legible(moves, cr)
    ensures Locals(W.Feed(Turn, Reader(c, moves), Raw(moves)).state) == Reader(d, [])
    decreases |moves|
  {
    if moves != [] {
      var m, rest := moves[0], moves[1..];
      var e, v := MoveClient(c, m), MoveTmux(c, t, m);
      FeedIsTogether(e, v, rest, d, u, cr);
      if m.Local? {
        RawLocal(moves);
        FeedLocal(Reader(c, moves), Raw(rest));
      } else {
        FeedHeard(c, moves, e);
        if !HandleLine(c, m.said.cl).goOn {
          StopsAtExit(c, m.said.cl);
          NothingHeardAfterExit(e, v, rest, d, u);
        }
      }
    }
  }

  lemma FeedHeard(c: Client, moves: seq<Move>, e: Client)
    requires InRange(c) && moves != [] && moves[0].Heard? && Classify(moves[0].said.cl.raw) == moves[0].said.cl
    requires e == HandleLine(c, moves[0].said.cl).client
    ensures var h := HandleLine(c, moves[0].said.cl);
            var next := Reader(e, moves[1..]);
            W.Feed(Turn, Reader(c, moves), Raw(moves)).state ==
            if h.goOn then W.Feed(Turn, next, Raw(moves[1..])).state else next
  {
    var lines := Raw(moves);
    assert lines[0] == moves[0].said.cl.raw && lines[1..] == Raw(moves[1..]);
    assert Locals(Reader(c, moves)) == Reader(c, moves);
  }

  // Nothing is left in the stream when its lines are read.
  lemma ReadIsFeed<S>(step: (S, string) -> W.Fed<S>, c: S, lines: seq<string>, cr: bool)
    requires forall i :: 0 <= i < |lines| ==> W.Plain(lines[i], cr)
    requires lines != [] ==> !(W.DCS_ENTER <= lines[0])
    ensures W.Read(step, c, W.Text(lines, cr), true).state == W.Feed(step, c, lines).state
  {
    W.ReadText(step, c, lines, cr, "", true);
    assert W.Text(lines, cr) + "" == W.Text(lines, cr);
  }

  /** From the bytes: whatever tmux writes on the terms of Binding, and whatever callers, failing writes,
      the timer and Close do between any two lines of it, the k-th command written returns exactly the
      k-th reply. */
  lemma BytesGetTheirReplies(moves: seq<Move>, c: Client, t: Tmux, cr: bool)
    requires Together(INITIAL, FRESH, moves, c, t) && Legible(moves, cr)
    requires Raw(moves) != [] ==> !(W.DCS_ENTER <= Raw(moves)[0])
    ensures var stream := W.Text(Raw(moves), cr);
            Locals(W.Read(Turn, Reader(INITIAL, moves), stream, true).state) == Reader(c, [])
    ensures |t.replies| <= t.written <= |c.cmds|
    ensures forall k :: 0 <= k < |t.replies| ==>
                          c.cmds[k].finishes == 1 && Result(c.cmds[k]) == Expected(t.replies[k])
  {
    RawPlain(moves, cr);
    ReadIsFeed(Turn, Reader(INITIAL, moves), Raw(moves), cr);
    FeedIsTogether(INITIAL, FRESH, moves, c, t, cr);
    EachCommandGetsItsReply(moves, c, t);
  }
}
