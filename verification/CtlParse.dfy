/** internal/ctlparse/ctlparse.go: what one control-mode line is. */
module CtlParse {
  import opened Bytes

  datatype Kind = Data | Begin | End | Error | Notification

  datatype Line = Line(kind: Kind, raw: string, time: int, number: int, flags: int, hasFlags: bool,
                       name: string, args: string, malformed: bool)

  const KNOWN: set<string> := {
    "begin", "end", "error", "output", "extended-output", "pause", "continue", "exit",
    "sessions-changed", "session-changed", "session-renamed", "session-window-changed",
    "window-add", "window-close", "window-renamed", "window-pane-changed", "unlinked-window-add",
    "unlinked-window-close", "unlinked-window-renamed", "pane-mode-changed", "layout-change",
    "client-session-changed", "client-detached", "subscription-changed", "message",
    "config-error", "paste-buffer-changed", "paste-buffer-deleted"
  }

  predicate NameByte(c: char, first: bool) {
    'a' <= c <= 'z' || (c == '-' && !first)
  }

  predicate LooksLikeName(name: string) {
    name != "" && forall i :: 0 <= i < |name| ==> NameByte(name[i], i == 0)
  }

  method LooksLikeNotificationName(name: string) returns (looks: bool)
    ensures looks == LooksLikeName(name)
  {
    for i := 0 to |name|
      invariant forall j :: 0 <= j < i ==> NameByte(name[j], j == 0)
    {
      var c := name[i];
      if 'a' <= c <= 'z' {
        continue;
      }
      if c == '-' && i > 0 {
        continue;
      }
      return false;
    }
    return |name| > 0;
  }

  // A name is lowercase letters, with hyphens anywhere but at its start.
  lemma NameShape(name: string)
    ensures LooksLikeName(name) <==>
            name != "" && name[0] != '-' && forall i :: 0 <= i < |name| ==> 'a' <= name[i] <= 'z' || name[i] == '-'
  {
    if LooksLikeName(name) {
      assert forall i :: 0 <= i < |name| ==> NameByte(name[i], i == 0);
    }
  }

  function WithBlockArgs(l: Line, args: string): (m: Line)
    ensures m.raw == l.raw
  {
    WithFields(l, Fields(args))
  }

  function WithFields(l: Line, fields: seq<string>): (m: Line)
    ensures m.raw == l.raw
  {
    if |fields| < 2 || ParseInt(fields[0]).None? || ParseInt(fields[1]).None? then l.(malformed := true)
    else
      var m := l.(time := ParseInt(fields[0]).value, number := ParseInt(fields[1]).value);
      if |fields| >= 3 && ParseInt(fields[2]).Some?
      then m.(flags := ParseInt(fields[2]).value, hasFlags := true)
      else m
  }

  function BlockKind(name: string): Option<Kind> {
    if name == "begin" then Some(Begin)
    else if name == "end" then Some(End)
    else if name == "error" then Some(Error)
    else None
  }

  function Classify(line: string): (l: Line)
    ensures l.raw == line
  {
    var l := Line(Data, line, 0, 0, 0, false, "", "", false);
    if line == "" || line[0] != '%' then l
    else
      var (name, args, _) := CutByte(line[1..], ' ');
      if name == "" || IsDigit(name[0]) || (name !in KNOWN && !LooksLikeName(name)) then l
      else
        var kind := BlockKind(name);
        if kind.Some? then WithBlockArgs(l.(kind := kind.value), args)
        else l.(kind := Notification, name := name, args := args)
  }

  method ClassifyLine(line: string) returns (l: Line)
    ensures l == Classify(line)
  {
    l := Line(Data, line, 0, 0, 0, false, "", "", false);
    if line == "" || line[0] != '%' {
      return;
    }
    var (name, args, _) := CutByte(line[1..], ' ');
    if name == "" || IsDigit(name[0]) {
      return;
    }
    var looks := LooksLikeNotificationName(name);
    if name !in KNOWN && !looks {
      return;
    }
    var kind := BlockKind(name);
    if kind.Some? {
      l := l.(kind := kind.value);
      var fields := Fields(args);
      if |fields| < 2 || ParseInt(fields[0]).None? || ParseInt(fields[1]).None? {
        l := l.(malformed := true);
        return;
      }
      l := l.(time := ParseInt(fields[0]).value, number := ParseInt(fields[1]).value);
      if |fields| >= 3 && ParseInt(fields[2]).Some? {
        l := l.(flags := ParseInt(fields[2]).value, hasFlags := true);
      }
    } else {
      l := l.(kind := Notification, name := name, args := args);
    }
  }

  // The name a line begins with, if it is a notification or part of a block.
  function NameOf(line: string): string {
    if line == "" || line[0] != '%' then "" else CutByte(line[1..], ' ').0
  }

  // A name tmux is known to use, or one of the shape of a name.
  predicate IsName(name: string) {
    name in KNOWN || LooksLikeName(name)
  }

  lemma NoNameStartsSo(name: string)
    requires IsName(name)
    ensures name != "" && !IsDigit(name[0])
  {
    if name !in KNOWN {
      assert NameByte(name[0], true);
    }
  }

  /** Every line is data but those that begin with a percent sign and a name, and then the name alone
      says which of the others it is. */
  lemma ClassifiedBy(line: string)
    ensures var kind := Classify(line).kind;
            && (kind == Data <==> !IsName(NameOf(line)))
            && (kind == Begin <==> NameOf(line) == "begin")
            && (kind == End <==> NameOf(line) == "end")
            && (kind == Error <==> NameOf(line) == "error")
    ensures Classify(line).kind == Data ==> Classify(line) == Line(Data, line, 0, 0, 0, false, "", "", false)
    ensures Classify(line).kind == Notification ==> !Classify(line).malformed && Classify(line).name == NameOf(line)
  {
    var name := NameOf(line);
    if IsName(name) {
      NoNameStartsSo(name);
    }
  }

  // A line "%name args" whose name has the shape of one.
  lemma ClassifyNamed(name: string, args: string)
    requires LooksLikeName(name)
    ensures var raw := "%" + name + " " + args;
            var l := Line(Data, raw, 0, 0, 0, false, "", "", false);
            Classify(raw) == match BlockKind(name)
                             case Some(kind) => WithBlockArgs(l.(kind := kind), args)
                             case None => l.(kind := Notification, name := name, args := args)
  {
    var raw := "%" + name + " " + args;
    assert raw[1..] == name + [' '] + args;
    assert forall i :: 0 <= i < |name| ==> name[i] != ' ' by {
      assert forall i :: 0 <= i < |name| ==> NameByte(name[i], i == 0);
    }
    CutByteAt(name, ' ', args);
    assert NameByte(name[0], true);
  }

  // And a line "%name", which has no arguments.
  lemma ClassifyBare(name: string)
    requires LooksLikeName(name)
    ensures var l := Line(Data, "%" + name, 0, 0, 0, false, "", "", false);
            Classify("%" + name) == match BlockKind(name)
                                    case Some(kind) => WithBlockArgs(l.(kind := kind), "")
                                    case None => l.(kind := Notification, name := name)
  {
    assert ("%" + name)[1..] == name;
    assert forall i :: 0 <= i < |name| ==> name[i] != ' ' by {
      assert forall i :: 0 <= i < |name| ==> NameByte(name[i], i == 0);
    }
    assert NameByte(name[0], true);
  }

  // The fields of a block header, as tmux writes them.
  function HeaderFields(time: int, number: int, flags: Option<int>): seq<string> {
    [Itoa(time), Itoa(number)] + if flags.Some? then [Itoa(flags.value)] else []
  }

  lemma BlockArgsRead(l: Line, time: int, number: int, flags: Option<int>)
    requires Int64(time) && Int64(number) && (flags.Some? ==> Int64(flags.value))
    ensures var m := l.(time := time, number := number);
            WithBlockArgs(l, Join(HeaderFields(time, number, flags), " ")) ==
            if flags.Some? then m.(flags := flags.value, hasFlags := true) else m
  {
    FieldsJoin(HeaderFields(time, number, flags));
    ParseItoa(time);
    ParseItoa(number);
    if flags.Some? {
      ParseItoa(flags.value);
    }
  }

  /** A header tmux writes, with its flags word or without, is read back field by field. */
  lemma HeaderRoundTrip(name: string, kind: Kind, time: int, number: int, flags: Option<int>)
    requires BlockKind(name) == Some(kind)
    requires Int64(time) && Int64(number) && (flags.Some? ==> Int64(flags.value))
    ensures var raw := "%" + name + " " + Join(HeaderFields(time, number, flags), " ");
            Classify(raw) == Line(kind, raw, time, number, if flags.Some? then flags.value else 0,
                                  flags.Some?, "", "", false)
  {
    var args := Join(HeaderFields(time, number, flags), " ");
    var l := Line(kind, "%" + name + " " + args, 0, 0, 0, false, "", "", false);
    BlockArgsRead(l, time, number, flags);
    BlockNames(name);
    ClassifyNamed(name, args);
  }

  lemma BlockNames(name: string)
    requires BlockKind(name).Some?
    ensures LooksLikeName(name)
  {
  }

  // Neither the time nor the number of a block can be missing, and both are decimals of 64 bits.
  predicate Numbered(fields: seq<string>) {
    |fields| >= 2 && ParseInt(fields[0]).Some? && ParseInt(fields[1]).Some?
  }

  lemma FieldsExactly(l: Line, fields: seq<string>)
    requires !l.malformed && !l.hasFlags && l.flags == 0
    ensures var m := WithFields(l, fields);
            && (m.malformed <==> !Numbered(fields))
            && (Numbered(fields) ==> m.time == ParseInt(fields[0]).value && m.number == ParseInt(fields[1]).value)
            && (m.hasFlags <==> Numbered(fields) && |fields| > 2 && ParseInt(fields[2]).Some?)
            && m.flags == (if m.hasFlags then ParseInt(fields[2]).value else 0)
            && (m.malformed ==> m == l.(malformed := true))
            && m.kind == l.kind && m.raw == l.raw
  {
  }

  /** Whatever stands after the word of a block, the line is ruined exactly when it has not got a time and a
      number; if it has them they are read, and its third argument is its flags exactly when it is a
      decimal. */
  lemma RuinedExactly(word: string, kind: Kind, fields: seq<string>)
    requires BlockKind(word) == Some(kind) && forall f :: f in fields ==> IsField(f)
    ensures var raw := "%" + word + " " + Join(fields, " ");
            var l := Classify(raw);
            && l.kind == kind && (l.malformed <==> !Numbered(fields))
            && (Numbered(fields) ==> l.time == ParseInt(fields[0]).value && l.number == ParseInt(fields[1]).value)
            && (l.hasFlags <==> Numbered(fields) && |fields| > 2 && ParseInt(fields[2]).Some?)
            && l.flags == (if l.hasFlags then ParseInt(fields[2]).value else 0)
            && (l.malformed ==> l == Line(kind, raw, 0, 0, 0, false, "", "", true))
  {
    var raw := "%" + word + " " + Join(fields, " ");
    FieldsJoin(fields);
    FieldsExactly(Line(kind, raw, 0, 0, 0, false, "", "", false), fields);
    BlockNames(word);
    ClassifyNamed(word, Join(fields, " "));
  }

  // A block's word alone is ruined.
  lemma BareWordIsRuined(word: string, kind: Kind)
    requires BlockKind(word) == Some(kind)
    ensures Classify("%" + word) == Line(kind, "%" + word, 0, 0, 0, false, "", "", true)
  {
    BlockNames(word);
    ClassifyBare(word);
  }

  // --- Notification payloads -------------------------------------------------------------------

  predicate IsID(s: string, sigil: char) {
    |s| >= 2 && s[0] == sigil && forall i :: 1 <= i < |s| ==> IsDigit(s[i])
  }

  method HasSigilAndDigits(s: string, sigil: char) returns (ok: bool)
    ensures ok == IsID(s, sigil)
  {
    if |s| < 2 || s[0] != sigil {
      return false;
    }
    for i := 1 to |s|
      invariant forall j :: 1 <= j < i ==> IsDigit(s[j])
    {
      if s[i] < '0' || s[i] > '9' {
        return false;
      }
    }
    return true;
  }

  // An identifier is its sigil and a number after it.
  lemma IDShape(s: string, sigil: char)
    ensures IsID(s, sigil) <==> s != "" && s[0] == sigil && AllDigits(s[1..])
  {
    if IsID(s, sigil) {
      assert forall i :: 0 <= i < |s[1..]| ==> s[1..][i] == s[i + 1];
    }
    if s != "" && AllDigits(s[1..]) {
      assert forall i :: 1 <= i < |s| ==> s[i] == s[1..][i - 1];
    }
  }

  datatype Output = Output(pane: string, data: string, extended: bool, ageMS: int)

  function ParseOutput(args: string): Option<Output> {
    var (pane, data, _) := CutByte(args, ' ');
    if IsID(pane, '%') then Some(Output(pane, data, false, 0)) else None
  }

  lemma OutputRoundTrip(pane: string, data: string)
    requires IsID(pane, '%')
    ensures ParseOutput(pane + " " + data) == Some(Output(pane, data, false, 0))
  {
    CutByteAt(pane, ' ', data);
  }

  lemma BarePaneRead(pane: string)
    requires IsID(pane, '%')
    ensures ParseOutput(pane) == Some(Output(pane, "", false, 0))
  {
    assert forall i :: 0 <= i < |pane| ==> pane[i] != ' ' by {
      assert forall i :: 1 <= i < |pane| ==> IsDigit(pane[i]);
    }
  }

  // And nothing else is: what was read is how the arguments began, and all that followed.
  lemma OutputReadsOnly(args: string)
    requires ParseOutput(args).Some?
    ensures var o := ParseOutput(args).value;
            && IsID(o.pane, '%') && !o.extended && o.ageMS == 0
            && (args == o.pane + " " + o.data || (args == o.pane && o.data == ""))
  {
    var o := ParseOutput(args).value;
    if ' ' in args {
      assert args == o.pane + [' '] + o.data;
    }
  }

  function ParseExtendedOutput(args: string): Option<Output> {
    var (pane, rest, ok) := CutByte(args, ' ');
    if !ok || !IsID(pane, '%') then None
    else
      var (meta, data, sep) := Cut(rest, " : ");
      if sep then
        var fields := Fields(meta);
        if fields == [] || ParseInt(fields[0]).None? then None
        else Some(Output(pane, data, true, ParseInt(fields[0]).value))
      else
        var (age, d, ok2) := CutByte(rest, ' ');
        if !ok2 || ParseInt(age).None? then None
        else Some(Output(pane, d, true, ParseInt(age).value))
  }

  const COLON := " : "

  // A separator inside joined fields has to be a field of its own, and not the first.
  lemma {:induction false} NoEarlyColon(fields: seq<string>, value: string, i: nat)
    requires fields != [] && forall f :: f in fields ==> IsField(f)
    requires ":" !in fields[1..]
    requires i < |Join(fields, " ")|
    ensures !(COLON <= (Join(fields, " ") + COLON + value)[i..])
    decreases |fields|
  {
    var head := fields[0];
    assert head in fields;
    var s := Join(fields, " ") + COLON + value;
    assert forall j :: 0 <= j < |head| ==> s[j] == head[j] && head[j] != ' ';
    if i >= |head| {
      var rest := fields[1..];
      var t := Join(rest, " ") + COLON + value;
      assert Join(fields, " ") == head + " " + Join(rest, " ");
      assert s == head + " " + t;
      assert rest[0] in fields && rest[0] in rest && rest[0] <= Join(rest, " ");
      if i == |head| {
        assert s[i..][1] == t[0] == rest[0][0];
        if |rest[0]| > 1 {
          assert s[i..][2] == t[1] == rest[0][1];
          assert COLON[2] == ' ';
        } else {
          assert rest[0] == [rest[0][0]];
          assert COLON[1] == ':';
        }
      } else {
        NoEarlyColon(rest, value, i - |head| - 1);
        assert s[i..] == t[i - |head| - 1..];
      }
    } else {
      assert s[i..][0] == head[i];
    }
  }

  lemma {:induction false} EarlyColon(fields: seq<string>, value: string) returns (i: nat)
    requires fields != [] && ":" in fields[1..]
    ensures i < |Join(fields, " ")|
    ensures COLON <= (Join(fields, " ") + COLON + value)[i..]
    decreases |fields|
  {
    var head, rest := fields[0], fields[1..];
    var t := Join(rest, " ") + COLON + value;
    var s := Join(fields, " ") + COLON + value;
    assert s == head + " " + t;
    if rest[0] == ":" {
      i := |head|;
      assert t[0] == ':' && t[1] == ' ';
      assert s[i..][..3] == COLON;
    } else {
      i := EarlyColon(rest, value);
      assert s[|head| + 1 + i..] == t[i..];
      i := |head| + 1 + i;
    }
  }

  // The fields before the separator are told from the value after it exactly when no field but
  // the first is a lone colon; otherwise the value read is too long.
  lemma CutMeta(fields: seq<string>, value: string)
    requires fields != [] && forall f :: f in fields ==> IsField(f)
    ensures var meta := Join(fields, " ");
            var r := Cut(meta + COLON + value, COLON);
            if ":" in fields[1..] then r.2 && |r.1| > |value| else r == (meta, value, true)
  {
    var meta := Join(fields, " ");
    var s := meta + COLON + value;
    if ":" in fields[1..] {
      var i := EarlyColon(fields, value);
      CutNoLater(s, COLON, i);
    } else {
      forall i: nat | i < |meta| ensures !(COLON <= s[i..]) {
        NoEarlyColon(fields, value, i);
      }
      CutAt(meta, COLON, value);
    }
  }

  function ExtendedArgs(pane: string, age: int, reserved: seq<string>, data: string): string {
    pane + " " + Join([Itoa(age)] + reserved, " ") + COLON + data
  }

  /** %extended-output is read back for every pane, age, reserved fields and data, colons in the
      data included, exactly when no reserved field is a lone colon. */
  lemma ExtendedOutputRoundTrip(pane: string, age: int, reserved: seq<string>, data: string)
    requires IsID(pane, '%') && Int64(age) && forall f :: f in reserved ==> IsField(f)
    ensures ParseExtendedOutput(ExtendedArgs(pane, age, reserved, data)) == Some(Output(pane, data, true, age))
            <==> ":" !in reserved
  {
    var fields := [Itoa(age)] + reserved;
    assert fields[1..] == reserved;
    var rest := Join(fields, " ") + COLON + data;
    assert ExtendedArgs(pane, age, reserved, data) == pane + [' '] + rest;
    CutByteAt(pane, ' ', rest);
    CutMeta(fields, data);
    FieldsJoin(fields);
    ParseItoa(age);
  }

  /** Without the separator the data is what follows the age. */
  lemma UnseparatedOutputRoundTrip(pane: string, age: int, data: string)
    requires IsID(pane, '%') && Int64(age) && !Cut(Itoa(age) + " " + data, COLON).2
    ensures ParseExtendedOutput(pane + " " + (Itoa(age) + " " + data)) == Some(Output(pane, data, true, age))
  {
    var rest := Itoa(age) + " " + data;
    assert pane + " " + rest == pane + [' '] + rest;
    CutByteAt(pane, ' ', rest);
    CutByteAt(Itoa(age), ' ', data);
    ParseItoa(age);
  }

  // The two forms in which %extended-output can say that of a pane.
  ghost predicate SaysExtended(args: string, meta: string, o: Output) {
    || (args == o.pane + " " + (meta + COLON + o.data)
        && Fields(meta) != [] && ParseInt(Fields(meta)[0]) == Some(o.ageMS))
    || (args == o.pane + " " + (meta + " " + o.data)
        && !Cut(meta + " " + o.data, COLON).2 && ParseInt(meta) == Some(o.ageMS))
  }

  // Nothing else is read of it.
  lemma ExtendedReadsOnly(args: string)
    requires ParseExtendedOutput(args).Some?
    ensures var o := ParseExtendedOutput(args).value;
            IsID(o.pane, '%') && o.extended && exists meta :: SaysExtended(args, meta, o)
  {
    var o := ParseExtendedOutput(args).value;
    var (pane, rest, ok) := CutByte(args, ' ');
    var (meta, data, sep) := Cut(rest, COLON);
    assert args == pane + " " + rest;
    if sep {
      assert SaysExtended(args, meta, o);
    } else {
      var (age, d, ok2) := CutByte(rest, ' ');
      assert rest == age + " " + d;
      assert SaysExtended(args, age, o);
    }
  }

  // A first field, a lone colon and a value: the colon is taken for the separator.
  lemma ColonCutsShort(first: string, value: string)
    requires IsField(first)
    ensures Cut(Join([first, ":"], " ") + COLON + value, COLON) == (first, ": " + value, true)
    ensures Fields(first) == [first]
  {
    assert [first, ":"][1..] == [":"] && Join([first, ":"], " ") == first + " " + ":" && Join([first], " ") == first;
    assert first + " " + ":" + COLON + value == first + COLON + (": " + value);
    CutMeta([first], ": " + value);
    FieldsJoin([first]);
  }

  // With a lone colon for a reserved field, the data that is read starts at it.
  lemma ALoneColonIsData(pane: string, age: int, data: string)
    requires IsID(pane, '%') && Int64(age)
    ensures ParseExtendedOutput(ExtendedArgs(pane, age, [":"], data)) == Some(Output(pane, ": " + data, true, age))
  {
    var rest := Join([Itoa(age), ":"], " ") + COLON + data;
    assert [Itoa(age)] + [":"] == [Itoa(age), ":"];
    assert ExtendedArgs(pane, age, [":"], data) == pane + [' '] + rest;
    CutByteAt(pane, ' ', rest);
    ColonCutsShort(Itoa(age), data);
    ParseItoa(age);
  }

  datatype Subscription = Subscription(name: string, session: string, window: string, pane: string,
                                       windowIndex: int, value: string)

  function AddField(sub: Subscription, f: string): Subscription {
    if IsID(f, '$') then sub.(session := f)
    else if IsID(f, '@') then sub.(window := f)
    else if IsID(f, '%') then sub.(pane := f)
    else if ParseInt(f).Some? && sub.windowIndex < 0 then sub.(windowIndex := ParseInt(f).value)
    else sub
  }

  function AddFields(sub: Subscription, fields: seq<string>): Subscription
    decreases |fields|
  {
    if fields == [] then sub else AddFields(AddField(sub, fields[0]), fields[1..])
  }

  function ParseSubscription(args: string): Option<Subscription> {
    var (name, rest, ok) := CutByte(args, ' ');
    if name == "" then None
    else
      var sub := Subscription(name, "", "", "", -1, "");
      if !ok then Some(sub)
      else
        var (meta, value, sep) := Cut(rest, COLON);
        if !sep then Some(sub.(value := rest))
        else Some(AddFields(sub.(value := value), Fields(meta)))
  }

  // What is read where there is no metadata: a name, and all that follows it.
  lemma SubscriptionUnseparated(name: string, value: string)
    requires ' ' !in name
    ensures ParseSubscription(name) ==
            if name == "" then None else Some(Subscription(name, "", "", "", -1, ""))
    ensures !Cut(value, COLON).2 ==>
              ParseSubscription(name + " " + value) ==
              if name == "" then None else Some(Subscription(name, "", "", "", -1, value))
  {
    assert name + " " + value == name + [' '] + value;
    CutByteAt(name, ' ', value);
  }

  method ParseSubscriptionChanged(args: string) returns (r: Option<Subscription>)
    ensures r == ParseSubscription(args)
  {
    var (name, rest, ok) := CutByte(args, ' ');
    if name == "" {
      return None;
    }
    var sub := Subscription(name, "", "", "", -1, "");
    if !ok {
      return Some(sub);
    }
    var (meta, value, sep) := Cut(rest, COLON);
    if !sep {
      return Some(sub.(value := rest));
    }
    sub := sub.(value := value);
    var fields := Fields(meta);
    ghost var start := sub;
    for i := 0 to |fields|
      invariant AddFields(sub, fields[i..]) == AddFields(start, fields)
    {
      var f := fields[i];
      assert fields[i..][1..] == fields[i + 1..];
      var session := HasSigilAndDigits(f, '$');
      var window := HasSigilAndDigits(f, '@');
      var pane := HasSigilAndDigits(f, '%');
      if session {
        sub := sub.(session := f);
      } else if window {
        sub := sub.(window := f);
      } else if pane {
        sub := sub.(pane := f);
      } else if ParseInt(f).Some? && sub.windowIndex < 0 {
        sub := sub.(windowIndex := ParseInt(f).value);
      }
    }
    return Some(sub);
  }

  // checkSubscribeName's verdict.
  ghost predicate SubscribeName(name: string) {
    name != "" && forall i :: 0 <= i < |name| ==> name[i] > ' ' && name[i] != '\U{7F}' && name[i] != ':'
  }

  method CheckSubscribeName(name: string) returns (ok: bool)
    ensures ok <==> SubscribeName(name)
    ensures ok <==> name != "" && forall i :: 0 <= i < |name| ==> name[i] > ' ' && name[i] !in "\U{7F}:"
  {
    if name == "" {
      return false;
    }
    for i := 0 to |name|
      invariant forall j :: 0 <= j < i ==> name[j] > ' ' && name[j] != '\U{7F}' && name[j] != ':'
    {
      var c := name[i];
      if c <= ' ' || c == '\U{7F}' || c == ':' {
        return false;
      }
    }
    return true;
  }

  // tmux writes each identifier or a dash, in this order.
  function OrDash(field: string): string {
    if field == "" then "-" else field
  }

  function SubscriptionFields(sub: Subscription): seq<string> {
    [OrDash(sub.session), OrDash(sub.window), if sub.windowIndex < 0 then "-" else Itoa(sub.windowIndex),
     OrDash(sub.pane)]
  }

  predicate Describes(sub: Subscription) {
    && (sub.session == "" || IsID(sub.session, '$'))
    && (sub.window == "" || IsID(sub.window, '@'))
    && (sub.pane == "" || IsID(sub.pane, '%'))
    && -1 <= sub.windowIndex <= MAX_INT64
  }

  function SubscriptionArgs(name: string, fields: seq<string>, value: string): string {
    name + " " + Join(fields, " ") + COLON + value
  }

  // Whatever the metadata fields are, they are collected by sigil and the value comes back whole.
  lemma SubscriptionFieldsRead(name: string, fields: seq<string>, value: string)
    requires name != "" && ' ' !in name && fields != [] && forall f :: f in fields ==> IsField(f)
    ensures ParseSubscription(SubscriptionArgs(name, fields, value)) ==
            Some(AddFields(Subscription(name, "", "", "", -1, value), fields))
            <==> ":" !in fields[1..]
  {
    var rest := Join(fields, " ") + COLON + value;
    assert SubscriptionArgs(name, fields, value) == name + [' '] + rest;
    CutByteAt(name, ' ', rest);
    CutMeta(fields, value);
    FieldsJoin(fields);
    var (meta, read, sep) := Cut(rest, COLON);
    AddFieldsKeeps(Subscription(name, "", "", "", -1, read), Fields(meta));
    AddFieldsKeeps(Subscription(name, "", "", "", -1, value), fields);
  }

  // With a lone colon after the first field, the value that is read starts at it.
  lemma ALoneColonIsValue(name: string, session: string, value: string)
    requires name != "" && ' ' !in name && IsID(session, '$')
    ensures ParseSubscription(SubscriptionArgs(name, [session, ":"], value)) ==
            Some(Subscription(name, session, "", "", -1, ": " + value))
  {
    var rest := Join([session, ":"], " ") + COLON + value;
    assert SubscriptionArgs(name, [session, ":"], value) == name + [' '] + rest;
    CutByteAt(name, ' ', rest);
    ColonCutsShort(session, value);
    var sub := Subscription(name, "", "", "", -1, ": " + value);
    AddOneField(sub, session);
    assert AddFields(sub, [session]) == AddField(sub, session);
  }

  lemma {:induction false} AddFieldsKeeps(sub: Subscription, fields: seq<string>)
    ensures AddFields(sub, fields).value == sub.value && AddFields(sub, fields).name == sub.name
    decreases |fields|
  {
    if fields != [] {
      AddFieldsKeeps(AddField(sub, fields[0]), fields[1..]);
    }
  }

  // The first index that is told stays, whatever else is among the fields.
  lemma {:induction false} IndexStays(sub: Subscription, fields: seq<string>)
    requires sub.windowIndex >= 0
    ensures AddFields(sub, fields).windowIndex == sub.windowIndex
    decreases |fields|
  {
    if fields != [] {
      IndexStays(AddField(sub, fields[0]), fields[1..]);
    }
  }

  lemma AddFour(sub: Subscription, a: string, b: string, c: string, d: string)
    ensures AddFields(sub, [a, b, c, d]) == AddField(AddField(AddField(AddField(sub, a), b), c), d)
  {
    assert [a, b, c, d][1..] == [b, c, d] && [b, c, d][1..] == [c, d] && [c, d][1..] == [d] && [d][1..] == [];
    var s1 := AddField(sub, a);
    var s2 := AddField(s1, b);
    var s3 := AddField(s2, c);
    assert AddFields(s1, [b, c, d]) == AddFields(s2, [c, d]) == AddFields(s3, [d]) == AddField(s3, d);
  }

  lemma AddDash(sub: Subscription)
    ensures AddField(sub, "-") == sub
  {
    assert !AllDigits("-"[1..]);
  }

  lemma AddOneField(sub: Subscription, f: string)
    ensures IsID(f, '$') ==> AddField(sub, f) == sub.(session := f)
    ensures IsID(f, '@') ==> AddField(sub, f) == sub.(window := f)
    ensures IsID(f, '%') ==> AddField(sub, f) == sub.(pane := f)
  {
  }

  lemma AddIndex(sub: Subscription, index: int)
    requires 0 <= index <= MAX_INT64 && sub.windowIndex < 0
    ensures AddField(sub, Itoa(index)) == sub.(windowIndex := index)
  {
    ParseItoa(index);
    assert IsDigit(Itoa(index)[0]);
  }

  lemma FieldsCollect(sub: Subscription)
    requires Describes(sub)
    ensures AddFields(Subscription(sub.name, "", "", "", -1, sub.value), SubscriptionFields(sub)) == sub
  {
    var s0 := Subscription(sub.name, "", "", "", -1, sub.value);
    var s1 := s0.(session := sub.session);
    var s2 := s1.(window := sub.window);
    var s3 := s2.(windowIndex := sub.windowIndex);
    var fields := SubscriptionFields(sub);
    AddDash(s0);
    AddDash(s1);
    AddDash(s2);
    AddDash(s3);
    AddOneField(s0, sub.session);
    AddOneField(s1, sub.window);
    AddOneField(s3, sub.pane);
    if sub.windowIndex >= 0 {
      AddIndex(s2, sub.windowIndex);
    }
    AddFour(s0, fields[0], fields[1], fields[2], fields[3]);
  }

  lemma FieldsAreFields(sub: Subscription)
    requires Describes(sub)
    ensures forall f :: f in SubscriptionFields(sub) ==> IsField(f)
    ensures ":" !in SubscriptionFields(sub)[1..]
  {
    var fields := SubscriptionFields(sub);
    assert Itoa(sub.windowIndex)[0] != ':';
    assert forall i :: 0 <= i < 4 ==> fields[i][0] != ':';
  }

  /** For every name without a space, which takes in every name checkSubscribeName accepts, any
      identifiers and any value, what tmux writes parses back to what was subscribed. */
  lemma SubscriptionRoundTrip(sub: Subscription)
    requires sub.name != "" && ' ' !in sub.name && Describes(sub)
    ensures var args := SubscriptionArgs(sub.name, SubscriptionFields(sub), sub.value);
            ParseSubscription(args) == Some(sub)
  {
    FieldsAreFields(sub);
    FieldsCollect(sub);
    SubscriptionFieldsRead(sub.name, SubscriptionFields(sub), sub.value);
  }
}
