# gotmucks, modelled and proved in Dafny

gotmucks drives tmux two ways: over a long-lived control-mode connection, and one command at a time
with the output parsed back. This project models the core of both.

**The control connection.** Callers append commands to a queue. One reader takes tmux's lines and
binds each reply to a command by the order of the queue, behind a barrier that waits for tmux's own
opening block. Events go to a bounded channel that loses rather than blocks, with two reserved slots;
pane output also goes to per-pane taps.

- `Protocol` is that state and its steps, and what every run of them keeps. `Binding` sets it against
  a tmux described on its own terms and proves who gets which reply. `NonInterference` compares runs.
- `Events` is the event channel with the consumer free to act between any two looks the reader takes
  at it; `Taps` is the tap table from `Output` to teardown.
- `Wire` goes from bytes to commands answered, output delivered, news told and faults reported: framing,
  classifying, parsing and unescaping composed, up to the %exit or the end of the stream. `Interleaving` puts callers, timer and Close between the lines of such a stream and
  proves `Binding`'s result of the bytes.
- `Client`, `Channel`, `TapTable` and `Connection` are the same things as objects changed in place,
  each method proved to do exactly the step those modules reason about, and each object to be where a
  run of those steps leaves it, so that their laws hold of it. `Connection.Reader.ReadLoop` is the
  reader's loop and its teardown, proved against `Wire`. `SyncBuffer` is the capped buffer for standard
  error.

**The codecs.** Each is set against a small reference for the other party, written from the rules the
source states: tmux's control-mode lexer (`Lexer`), its argument-vector parser (`Argv`), its format
expansion (`Format`), the forms it prints option values in (`Options`), and its two escapings (`Vis`,
`Escape`). `Quote`, `Dollar`, `Rows`, `Hooks` and `CtlParse` hold the rest; `WindowName` composes six
of them end to end, and `Names` compares the two ways a name comes back. `Bytes`, `Octal` and `Tables`
are shared helpers.

A byte string is a `string`, one character a byte. Where a law also holds of characters above 255
nothing excludes them.

Locks are atomic steps, a cancelled context is a step that changes nothing, and a failed write and
the removal of its command from the queue are two steps with anything in between.

Where code and comments disagree the code is followed:

- control_reader.go:312-315 says a ruined header on the first line lifts the startup barrier. It does
  not: the terminator of the orphan block it opens does (`NonInterference.RuinedFirstLineHoldsTheBarrier`).
- version.go:123-126 calls the 3.4 fault a vis(3) pass. client.go:67-97 describes and undoes an
  insertion before `$` alone, and that is what `Dollar` models.
- control_reader.go:397-400 says that a listing and the notifications give one name. On 3.4 they need
  not, since only the listing calls `decodeStored` (`Names.ListingAndNotificationAgree`).

Some laws one would like are false of the code. Each is proved with the exact condition it holds under, a
condition on what goes in, and for inputs that fail it a lemma says what comes of them:

- Loss reports do not always stand where the losses were: on a full channel with losses owed, a consumer
  that takes two events between emit's two looks lets a later event overtake them
  (`Events.HolesAreWhereTheLossesWere`, `Events.AnEventOvertakes`).
- A lone hook whose base name is an element's printed name is merged away (`Hooks.MergeKeepsHooks`,
  `Hooks.AHookIsLost`), and on 3.4 one whose base ends in `$` is read under a name with a backslash too
  many (`Hooks.LoneKey`, which says exactly when).
- A row that ends in a carriage return loses it (`Rows.RowsRoundTrip`; `Rows.RowsReceived` says what is
  read of every table, and `Rows.CarriageReturnsAreLost` reads one).
- A lone colon among the reserved fields of a notification cuts it short (`CtlParse.ExtendedOutputRoundTrip`,
  `CtlParse.SubscriptionFieldsRead`, `CtlParse.ALoneColonIsData`, `CtlParse.ALoneColonIsValue`).
- On 3.4 a listing and a notification disagree about some names (`Names.ListingAndNotificationAgree`,
  `WindowName.NotifiedAsGiven`; `WindowName.ADollarIsTwoNames` is `$a` under both).

What is said of hooks and indexes is said of the text that is read. tmux refuses a name like `@a[1]`
(tmuxopts.go:160-162), so the lists in which hooks are lost, and hook names that hold a `$`, come from no tmux
that is known; `Hooks.PlainBasesNeverClash` is the case that arises, and there nothing is lost.

Reply binding is of another kind, since it rests on what tmux does: it is proved over every run of a tmux
that keeps to `Binding.Says`. Line by line that assumption is exact (`Binding.TellingIsExact`). Over whole
runs no exact condition is given; that breaking it does shift replies is shown for the two ways the source
names, a block nobody earned and a ruined header of tmux's own (`Binding.ExtraBlockTakesTheHead`,
`Binding.AWrongGuessShifts`).

## Model

| member | source | states |
|---|---|---|
| Binding.EachCommandGetsItsReply | control_reader.go:89-179 | over every interleaving of Do, failing writes, cancels, the grace timer, Close, end of input and tmux's lines, the k-th command written returns exactly the k-th reply: body, success, number, flags and time; those whose reply header was ruined, and only those, are abandoned; the rest wait, or end with the part of a body they had |
| Interleaving.BytesGetTheirReplies | control_reader.go:25-66 | the same from the bytes: with any of those actions between any two lines of a stream tmux writes on those terms, reading the stream leaves that client, and the k-th command has the k-th reply |
| Binding.TellingIsExact | control_reader.go:221-264 | while blocks are contiguous and replies answer written commands, client and tmux stay in step over a line exactly when the client can tell from it what it is |
| Binding.TogetherMatches | control_reader.go:221-264 | the queue is the written commands whose replies have not begun, in order, and the open block is the one tmux has open, whatever the two do |
| Binding.ExtraBlockTakesTheHead | control.go:638-661 | without the assumptions replies do shift: a block marked as a reply that no command earned answers the head of the queue, with no error |
| Binding.AWrongGuessShifts | control_reader.go:295-310 | when the ruined header was tmux's own, the head is failed though tmux will answer it, and its answer goes to the command behind |
| Protocol.CommandFates | control.go:632-661 | over every run each accepted command has exactly one of six fates (queued, open, answered, failed, torn down, withdrawn) and is finished at most once without the sync.Once; before the barrier lifts there is none; after the teardown all are finished or withdrawn and no more is taken |
| Protocol.StepKeeps | control_reader.go:334-362 | every single step keeps the invariant behind that |
| NonInterference.BodiesDoNotInterfere | control_reader.go:104-111 | two runs that differ only in lines inside open blocks, of any kind and any number, have the same effects and end in states that differ in nothing but the text of replies |
| NonInterference.ForgedLinesAreBody | control_reader.go:72-88 | any lines at all that do not carry the open block's own terminator become the lines of its reply, in order, and have no other effect |
| NonInterference.RuinedFirstLineHoldsTheBarrier | control_reader.go:151-164 | from the start, a ruined header on the first line is reported and leaves the barrier standing through every interleaving without the grace timer, the end of input or a terminator, and the first terminator of any shape lifts it |
| Events.LossesAreAccountedFor | control_reader.go:677-721 | whatever the consumer does and when: the channel never holds more than the buffer and one, the events kept arrive in order and once each, and losses counted are losses reported plus losses owed |
| Events.EmitExactly | control_reader.go:677-691 | an event is lost exactly when as many are waiting as the caller asked room for; else it is the last thing sent |
| Events.OwedOnlyWhileFull | control_reader.go:708-721 | after an emit losses are still owed only if the channel is full but for the terminal slot, or the event went past them |
| Events.KeepingUpLosesNothing | control_reader.go:677-691 | over every run whose consumer never leaves that many waiting, what is sent is exactly what was offered, and nothing is lost or reported |
| Events.HolesAreWhereTheLossesWere | control_reader.go:708-721 | with each report replaced by that many holes, and the owed ones at the end, the stream is the sequence offered, exactly when emit is never called on a channel that is full with losses owed while the consumer takes nothing before the first look and two events or more before the second |
| Events.OvertakesWhen | control_reader.go:677-687 | that state of the channel and those moves of the consumer are exactly when an event goes out past losses still owed |
| Events.UnhurriedRunsKeepOrder | control_reader.go:677-691 | so the holes are in place over every run whose consumer takes at most one event between the two looks, as one that takes events only between emits does |
| Events.AnEventOvertakes | control_reader.go:680-686 | one that takes two can misplace them: a run of four events whose second loss is reported after the event that followed it |
| Events.ExitIsDelivered | control_reader.go:774-791 | the terminal event is delivered over every run, once and last, and losses never reported are those still owed at that moment |
| Taps.TapsAreClosedOnce | control.go:479-527 | over every interleaving of Output, Untap, delivery, Close and teardown: no send on a closed channel, no second close, total = owed + reported, and after the teardown every tap ever handed out closed exactly once |
| Taps.OnlyCountedLosses | control_reader.go:644-656 | what a tap's consumer received, with what is still in the channel, is every chunk offered to it less exactly the ones counted, in order |
| Taps.EveryChunkIsOffered | control_reader.go:634-660 | until it is untapped or the connection ends a tap is offered every chunk that comes for its pane, in order, whatever else goes on |
| Taps.ExactlyTheFittingArrive | control_reader.go:644-656 | over every such run a chunk is lost when, and only when, as many as the tap holds are waiting in it: exactly the others arrive, in order, and each lost one is counted |
| Taps.KeepingUpLosesNothing | control_reader.go:634-656 | a tap first asked for anywhere in a run, whose consumer keeps up, gets every chunk that then comes for its pane, in order, and has lost none |
| Taps.DeliveryExactly | control_reader.go:644-656 | a delivery that finds room puts the chunk last in the channel and gives up exactly what was owed; one that finds none owes one more; no other tap is touched |
| Taps.UntappedIsForgotten | control.go:510-527 | an untapped pane is forgotten and its tap closed, and asked for again has a new tap, empty and, while the client is open, open |
| Taps.AskedAgain | control.go:479-503 | an identifier that is not one has no tap, and a pane keeps the tap it got |
| Taps.NothingIsOwedForClosedTaps | control_reader.go:774-790 | the teardown leaves nothing unreported for the taps it closes |
| Taps.LateTapComesClosed | control.go:489-501 | a tap first asked for once the client is closed, by Close or by the teardown, comes closed, and so does every one asked for once the teardown has begun |
| Wire.StreamIsRead | control_reader.go:25-66 | every stream of what tmux may write between commands, with either line ending and in any order, is read as it was meant: output to its pane byte for byte; each block's body, outcome and numbers to the command whose turn it was, and an error to the one whose header is ruined; the session both as its event and as the one attached; every other notification as its event, in its place; stray output, stray terminators, ruined ones and unreadable arguments reported |
| Wire.OutputArrives | internal/escape/escape.go:36-100 | any sequence of chunks sent between blocks is framed, classified, parsed and unescaped back to exactly those chunks in order, and changes nothing else |
| Wire.RepliesArrive | control_reader.go:245-260 | byte for byte, with anything tmux writes in between, the k-th reply in the stream answers the k-th command waiting, one with a ruined header abandons it, and no other command changes |
| Wire.NothingIsReadAfterExit | control_reader.go:592-598 | from any client between blocks, the first line of the stream or a later one: nothing that follows %exit has any effect |
| Wire.NoExitNoReason | control_reader.go:31-66 | a stream without a line that says %exit is read to its end, whatever it holds, and leaves no reason |
| Wire.StoppingIsNoExit | control_reader.go:72-88 | and so is one that holds the word only in the bodies of blocks |
| Protocol.ExitReasonRead | control_reader.go:592-598 | the reason tmux gives is read as given, with the -CC terminator after it and without, whatever blanks stand around either |
| Protocol.ExitExactly | control_reader.go:89-179 | the reader stops at an %exit that comes while no block is open, and at no other line, and that alone sets the reason |
| Protocol.EndIsRemembered | control_reader.go:726-734 | over every run: a Close is remembered, Close and the end of input close the connection and nothing else does, and there is no reason before an %exit |
| Protocol.AcceptedUntilClosed | control.go:632-641 | over every run the commands there are, in order and with their texts, are the ones asked for before Close and the end of input |
| Protocol.UnqueueExactly | control.go:887-896 | the command leaves the queue, the others keep their order, and nothing else changes |
| Wire.ReadText | control_reader.go:31-55 | the framing is exact for every list of lines, whatever handles them, and stops where the handler says to |
| Wire.EnteredStream | control_reader.go:15-17 | the introduction of -CC changes nothing of what is read |
| Connection.Reader.ReadLoop | control_reader.go:25-66 | the loop and the teardown leave exactly the client `Wire` says; emit was given what the effects call for and then every loss still owed to an open tap; every channel is closed; Exited came once and last and says how it ended (`Connection.HowIsSaid`); and if the losses reported for each pane were those its taps gave up to be reported, they still are |
| Connection.HowIsSaid | control_reader.go:726-786 | from the bytes and the run before them: a stream that comes to "%exit args" ends with that reason and no error; one that just stops with no reason, and the failure for its error unless Close was called; and after a Close there never is an error |
| Connection.PerformedAllExactly | control_reader.go:634-660 | whatever lines are handled, the events they call for are offered in order, each chunk with one of its own, with nothing but losses besides, and the taps see every chunk in order |
| Connection.StreamReachesTap | control_reader.go:634-656 | from the bytes to a tap: of any stream exactly the output for the pane is offered to its tap, and exactly what finds room in it arrives, in order |
| Connection.LossesAreSaidOnce | control_reader.go:644-660 | over every interleaving of Output, Untap, delivery, receiving, Close and teardown, the OutputDropped counts offered for each pane add up to what its taps, gone ones included, gave up to be reported |
| Connection.PerformedAllBalances | control_reader.go:634-660 | whatever lines are handled, the OutputDropped counts offered for each pane add up to what its taps gave up to be reported |
| Connection.Reader.ReadLines | control_reader.go:31-54 | line after line, client, taps and events move exactly as the specification of the stream says |
| Connection.Reader.FinishReader | control_reader.go:726-797 | the waiting commands are woken once, the taps shut and Exited delivered once and last: without an error if %exit was read or Close called, and else with the failure |
| Connection.Streams.TearDown | control_reader.go:751-791 | every loss owed to an open tap is offered, once for each tap, before the terminal event, and is then what the tap has given up |
| Connection.Streams.DeliverOutput | control_reader.go:634-660 | the tap gets the chunk, and the stream the event and, after it, the loss that a successful send can now report |
| Client.ControlClient.Do | control.go:590-648 | a line is refused exactly when it is not one sendable command, and then nothing changes; if it is taken the command handed back is new, bears that text and is last in the queue; a failed write takes it off again and leaves the queue as it was |
| Client.ClientLaws | control.go:632-661 | in every state of the client object each accepted command is finished at most once, and is out of the queue and the open block once it is answered or failed; after the teardown each was finished or withdrawn, and nothing is queued or open |
| Client.ClientHistory | control.go:632-641 | in every state of the client object its flags and its commands, with their texts and in order, are what the calls made on it say |
| Client.ControlClient.Unqueue | control.go:887-896 | the loop removes that command and no other, if it is still queued |
| Client.ControlClient.FinishReader | control_reader.go:726-772 | no more commands are taken, and the waiting ones are woken, once each |
| Client.ControlClient.HandleLine | control_reader.go:89-179 | the object's fields move exactly as the protocol's step for that line, with its effects and its verdict |
| Client.ControlClient.BeginBlock | control_reader.go:245-260 | the head of the queue is bound, or an orphan opened |
| Client.ControlClient.FailHead | control_reader.go:316-328 | the head alone is failed and leaves the queue |
| Client.ControlClient.WakeUnanswered | control_reader.go:743-772 | every queued and open command is finished exactly once more, and no other |
| Channel.EventChannel.Emit | control_reader.go:677-691 | one emit, with the consumer anywhere inside it, is one step of `Events` |
| Channel.ChannelLaws | control_reader.go:662-721 | so in every state of the channel there is room for the terminal event and every loss is reported or owed |
| TapTable.TapTable.Output | control.go:479-503 | an identifier that is not one is refused; a second call returns the same tap; a new tap is empty, and closed if the connection is |
| TapTable.TapTable.Dropped | control.go:440-449 | the lifetime total of the pane's tap, and zero where there is none |
| TapTable.TapTable.Untap | control.go:510-527 | the tap leaves the map and is closed if it was not |
| TapTable.TapTable.MarkAll | control_reader.go:757-763 | walking the map in any order flags every open tap, each once |
| TapTable.TapTable.SendTo | control_reader.go:644-656 | a chunk goes last into a channel with room, and the earlier losses are claimed; into a full one it does not, and is counted; this is the step of `Taps` |
| TapTable.TapLaws | control_reader.go:626-656 | in every state of the table no channel was closed twice or sent on after a close, no chunk was lost uncounted or came out of turn, and after the teardown each tap was closed |
| SyncBuffer.SyncBuffer.Write | control.go:1114-1132 | what is kept is a prefix of all ever written: all of it up to 64 KiB and exactly that much beyond; the rest is counted, and a write is never short |
| Quote.LexCompose | control.go:850-859 | tmux's lexer reads the line DoArgs composes back as exactly the argument list, for every list of byte strings |
| Quote.ComposedLinePasses | control_cmds.go:247-321 | every composed line passes all of Do's guards, the NUL one exactly when no argument holds one, and is then read back |
| Quote.ComposeCommand | control.go:850-859 | the loop composes that line, or none for no arguments |
| Quote.RenderArg | control_cmds.go:247-269 | the splicing loop computes the quoting those laws are about |
| Quote.RenderToken | control_cmds.go:271-287 | bare if every byte is a letter, a digit or one of nine others, else in single quotes if it holds none, else backslashed byte by byte |
| Lexer.CommandBreak | control.go:763-791 | the loop agrees with the lexer automaton and reports the least index that breaks the line |
| Lexer.CommentStart | control.go:717-728 | reports the `#` with only blanks before it, exactly when there is one |
| Lexer.CheckCommand | control.go:593-625 | accepts exactly the sendable lines, and otherwise reports the first offence in the order Do asks; where literal arguments are followed by a second command it says so, and where |
| Lexer.LexedLinePasses | control.go:763-791 | a line the lexer reads as literal arguments trips neither guard |
| Lexer.OneCommandExactly | control.go:763-791 | a line of bytes outside quotes, escaped bytes and quoted texts, with a quote left open at its end or not, is one command exactly when no semicolon stands outside quotes and no brace opens a token there |
| Lexer.PlainCommandExactly | control.go:763-791 | so a text with no quote and no backslash is exactly when it has no semicolon, and no brace at its start or behind a blank |
| Lexer.SecondIsBreak | control.go:763-791 | behind literal arguments a semicolon, or a brace that opens a token, is refused whatever follows, and is the first offence there is |
| Lexer.CommentExactly | control.go:717-728 | a line is a comment exactly when its first byte that is no blank is a `#` |
| Lexer.CLineExactly | control.go:596-617 | what tmux reads of a line is all of it exactly when it holds no newline and no NUL |
| Vis.DecodeEncode | vis.go:37-105 | the decoder recovers the bytes from every mixed encoding that writes each byte raw, by a named escape or in octal |
| Vis.DecodeWriteName | vis.go:131-184 | in particular from visEncode's |
| Vis.DecodeKeeps | vis.go:37-87 | a backslash before what is no escape is kept, and so is that |
| Vis.VisDecode | vis.go:37-87 | the decoding loop, its shortcut included, computes that decoding |
| Vis.VisEncode | vis.go:131-153 | the encoding loop, its shortcut included, writes each byte as visEscape has it |
| Vis.WriteNameClean | vis.go:157-184 | a stored name holds no control byte and no DEL |
| Escape.UnescapeEscape | internal/escape/escape.go:36-100 | unescaping undoes escaping for every byte string |
| Escape.EscapedClean | internal/escape/escape.go:87-100 | escaped data has no byte below space |
| Escape.UnescapedNoLonger | internal/escape/escape.go:36-57 | decoding never lengthens arbitrary input |
| Escape.UnescapedPlain | internal/escape/escape.go:36-57 | where no backslash stands before the three octal digits of a byte nothing is decoded |
| Escape.Unescape | internal/escape/escape.go:36-57 | the loop computes that decoding |
| Escape.EscapeBytes | internal/escape/escape.go:87-100 | the loop computes that encoding |
| Octal.Read | vis.go:90-105 | exactly three octal digits that fit in a byte |
| Octal.ReadsOnlyWritten | vis.go:90-105 | the digits read as a byte are the ones that byte is written as, and no others are read |
| Dollar.UndoInserted | client.go:67-97 | removing the backslashes is an exact left inverse of inserting one before each `$` that something follows |
| Dollar.DecodeStoredApart | client.go:60-97 | two names tmux prints, or stripped of an index, decode to the same only if they are the same |
| Dollar.InsertedUndone | client.go:82-97 | and on whatever 3.4 has stored, inserting the backslashes again gives back what was undone |
| Dollar.UndoDollarEscape | client.go:82-97 | the loop, its shortcut included, computes that inverse |
| Options.UnquotePrinted | tmuxopts.go:452-504 | every printed form of a value, over any encoding of it, reads back as the value |
| Options.UnquoteBare | tmuxopts.go:452-457 | were a value printed bare whatever it holds, it would read back exactly when its text did not stand between two equal quotes |
| Options.UnquoteTwo | tmuxopts.go:452-504 | a backslash comes off one byte exactly where tmux puts it before one, and off every escape |
| Options.ShowOptionsInverts | tmuxopts.go:417-434 | a listing of options with distinct acceptable names is read back whole, flags printed alone and blank lines included: each name with its own value, and no other name |
| Options.CheckOptionName | tmuxopts.go:166-181 | accepts exactly the names of bytes above space |
| Options.ShowOptions | tmuxopts.go:417-434 | the loop over the lines fills that map |
| Options.SplitExactly | tmuxopts.go:340-355 | a decimal index in brackets comes off exactly when there is one with something before it, and otherwise the name is left as it is |
| Rows.RowsRoundTrip | format.go:335-360 | rendered rows come back unchanged, empty values and trailing tabs included, exactly when no row ends in a carriage return |
| Rows.RowsReceived | client.go:265-277 | what is read of any table: every row in its place, each less one carriage return at its end, the last less two |
| Rows.SplitLines | client.go:265-277 | the loop drops one newline and the carriage returns it should |
| Rows.ParseRows | format.go:335-360 | the loop splits each line and folds what is past the last column into it, and complains of the first line that is short |
| Rows.ShortRowExactly | format.go:335-360 | lines are parsed exactly when each has enough tabs; otherwise the first that has not is the one complained of, counted from one, with the number of its fields |
| Rows.RowsHoldTheirLines | format.go:335-360 | and then there is a row for each line that was not skipped, in order, and joined with tabs it is that line |
| Format.QueryRoundTrip | format.go:70-124 | a listing asked for through Arg, expanded by tmux and read back has one row per object and every column in place, whatever the values hold, exactly when no row ends in a carriage return |
| Format.QueryReceived | format.go:335-360 | and if one does, nothing is lost but the carriage returns at the ends of rows |
| Format.ExpandEscapeFormat | format.go:160-165 | doubling `#` is undone by one expansion |
| Format.Arg | format.go:70-80 | the loop builds that template |
| Format.ColumnExactly | format.go:70-124 | a bare variable is asked for by a substitution that leaves it no newline, and no tab unless it is last; a format as it stands; other text as a variable |
| Argv.ArgvKeepsElements | client.go:229-246 | tmux makes one command of every escaped argument vector, every element byte for byte |
| Argv.ArgvUnescaped | client.go:197-205 | without the escape that holds exactly when no element ends in `;` |
| Argv.EscapeTrailingSemicolon | client.go:229-246 | the caller's array is left unchanged, and copied exactly when something in it must change |
| WindowName.WindowNameRoundTrip | session.go:173-175 | for every window name, with the 3.4 fault or without: encoded, doubled, disarmed, parsed by tmux, expanded, stored, listed beside anything, read back and decoded as the listing decodes it, it is the name given |
| WindowName.DecodeInserted | window.go:79-125 | the fault passes through the name's own escaping: decoding what it made of an escaped name gives what it would make of the name |
| WindowName.NotifiedAsGiven | control_reader.go:392-402 | the decoding a notification's name gets makes of such a window's stored name the name given, exactly unless tmux has the fault and something follows a `$` in it |
| WindowName.ADollarIsTwoNames | control_reader.go:392-402 | the stored form of `$a` under the fault: the listing says `$a`, the notification `\$a` |
| Names.ListedName | window.go:114-130 | every listing that has a name's column reads the stored name through it whole and decodes it, whatever else is in that row or the others |
| Names.ListingAndNotificationAgree | control_reader.go:392-402 | for every stored name the listing and %session-changed tell the same name, exactly unless tmux has the fault and the decoded name holds a backslash it would have inserted |
| Hooks.MergeKeepsHooks | hooks.go:271-307 | for all distinct names and with the 3.4 fault or without, the merged map holds one entry per set hook, each with its own command, exactly when no lone hook's stripped name is an element's printed name |
| Hooks.ShowHooksInverts | hooks.go:267-307 | from the lines of the hooks that were set, unset ones and blank lines among them, the map has one entry for each, under the same condition, with the command it was given, under its own name or its base |
| Hooks.LoneKey | tmuxopts.go:340-355 | a lone hook is read under the base of the name it was given, exactly unless the fault has put a backslash before a `$` at that base's end, and then with that backslash |
| Hooks.PlainBasesNeverClash | tmuxopts.go:340-355 | which cannot be while no base name itself ends in an index |
| Hooks.AHookIsLost | hooks.go:271-307 | three printed hooks that merge into two entries |
| Hooks.ReadHooks | hooks.go:267-307 | the two passes compute that merge |
| Hooks.CountElements | hooks.go:267-286 | the first pass counts each base name's elements |
| CtlParse.HeaderRoundTrip | internal/ctlparse/ctlparse.go:174-256 | a block header, with its flags or without, is read back field by field |
| CtlParse.RuinedExactly | internal/ctlparse/ctlparse.go:204-256 | whatever follows begin, end or error, the line is ruined exactly when it has fewer than two fields or one of the first two is no decimal of 64 bits; else both are read, and the third is the flags exactly when it is a decimal |
| CtlParse.ClassifiedBy | internal/ctlparse/ctlparse.go:174-214 | a line is data exactly unless it begins with a percent sign and a name, and the name says which of the others it is |
| CtlParse.ClassifyLine | internal/ctlparse/ctlparse.go:174-214 | filling the record field by field classifies the line as specified |
| CtlParse.OutputRoundTrip | internal/ctlparse/ctlparse.go:273-281 | %output arguments parse back |
| CtlParse.OutputReadsOnly | internal/ctlparse/ctlparse.go:273-281 | and nothing else parses |
| CtlParse.ExtendedOutputRoundTrip | internal/ctlparse/ctlparse.go:289-322 | %extended-output arguments parse back for every pane, age and data, exactly when no reserved field is a lone colon |
| CtlParse.UnseparatedOutputRoundTrip | internal/ctlparse/ctlparse.go:302-316 | without the separator the data is what follows the age |
| CtlParse.ExtendedReadsOnly | internal/ctlparse/ctlparse.go:289-322 | and nothing but these two forms parses |
| CtlParse.ALoneColonIsData | internal/ctlparse/ctlparse.go:289-322 | with a lone colon for a reserved field, the data read begins at it |
| CtlParse.ALoneColonIsValue | internal/ctlparse/ctlparse.go:342-377 | with a lone colon after the first field, the value read begins at it |
| CtlParse.SubscriptionFieldsRead | internal/ctlparse/ctlparse.go:342-377 | whatever the metadata, it is collected by sigil and the value comes back whole, exactly when no field but the first is a lone colon |
| CtlParse.SubscriptionRoundTrip | internal/ctlparse/ctlparse.go:342-377 | every subscription tmux can report parses back |
| CtlParse.IndexStays | internal/ctlparse/ctlparse.go:342-377 | the first window index among the fields stays, whatever follows it |
| CtlParse.ParseSubscriptionChanged | internal/ctlparse/ctlparse.go:342-377 | the loop over the fields collects as specified |
| CtlParse.CheckSubscribeName | control_cmds.go:105-117 | accepts exactly the names without a separator or control byte |
| CtlParse.HasSigilAndDigits | internal/ctlparse/ctlparse.go:437-447 | accepts a sigil and at least one digit, and nothing else |

## Left out

- Starting tmux, pipes, the environment, Connect, reap, kill and close timeouts: I/O and wall-clock time.
- Error texts, String methods, typed row conversions, version parsing: each maps one value to another, and no other operation's law rests on it.
- The one-shot command builders: they assemble arguments for a program that is not part of this model.
- The table from notification name to event type: `output`, `extended-output`, `session-changed` and `exit` are modelled, every other is one generic event.
- `ErrServerExited` and the text of standard error in it: the error of an end nobody asked for is a parameter of the reader.
- A zero ControlClient and `ensure`: every client here came from the constructor.
- White space above ASCII in strings.Fields and strings.TrimSpace: only the six ASCII bytes are blank here.
- tmux's own option, hook and variable tables, and its regular expressions: a substitution's pattern here is one literal byte.
- Format.QueryRoundTrip: is about specs of bare variables, whose columns Arg makes safe; what any other format entry expands to is its caller's own business, as format.go:66-69 has it.
- Format.QueryReceived: the same.
- WindowName.NotifiedAsGiven: states the decoding alone, since the window notifications are generic events here.
- Names.ListingAndNotificationAgree: the session's name stands for every name a notification carries, since the others are decoded alike.
- Connection.Reader.HandleLine: events and output a line asks for are carried out when the line has been handled, not within the handlers, so which of an event and a woken command is seen first on one line is not modelled.
- Connection.Reader.ReadLoop: reads a stream that is all there, with no other goroutine between lines; what comes between lines is in Protocol, Binding and Taps.
- Client.ControlClient.Do: is taken from where the barrier has lifted, and returns where the caller starts to wait; the failed write and the removal come together here, and apart in Protocol.
- Binding.EachCommandGetsItsReply: the assumptions on tmux are those of Binding.Says, and a failed write means that no later one succeeds.
- TapTable.TapTable.Output: the caller passes the client's closed flag, which the source reads under the same lock.
- Channels are bounded sequences; a close or a send after a close, which would panic, is counted instead and proved never to happen.
- Connection.PerformedAllBalances: is about one reader's lines with nothing in between; Connection.LossesAreSaidOnce is about every interleaving.
