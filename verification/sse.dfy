/** The server-sent-events message of server/src/sse.rs: its builder, its
    serialization, and the event-stream reader of the HTML standard
    (section 9.2.6, "Interpreting an event stream") that the serialization
    is written for. Bytes are modelled as the characters they encode. */
module ServerSentEvents {
  import opened Wrappers
  import opened Text

  newtype u32 = x: int | 0 <= x < 0x1_0000_0000

  /** `Message`: the optional `event`, `id`, `data` and `retry` fields. */
  datatype Message = Message(event: Option<string>, id: Option<string>, data: Option<string>, retry: Option<u32>)

  /** `Message::data(data)`: a message carrying only data. */
  function DataMessage(data: string): (m: Message)
    ensures m.data == Some(data) && m.event.None? && m.id.None? && m.retry.None?
  {
    Message(None, None, Some(data), None)
  }

  /** A character the event-stream format treats as ending a line. */
  predicate IsBreak(c: char) {
    c == '\r' || c == '\n'
  }

  /** The text holds no line break at all. */
  predicate LineSafe(s: string) {
    forall k :: 0 <= k < |s| ==> !IsBreak(s[k])
  }

  /** Rust's `str::lines`: pieces end at `\n`, a `\r` right before that `\n`
      is dropped, and a final line ending does not start another piece. A
      `\r` anywhere else stays in its piece. */
  function Lines(s: string): (r: seq<string>)
    ensures s == "" <==> r == []
    ensures forall k :: 0 <= k < |r| ==> '\n' !in r[k]
    decreases |s|
  {
    if s == "" then []
    else if '\n' !in s then [s]
    else
      var i := FirstIndex(s, '\n');
      var line := s[..i];
      [if |line| > 0 && line[|line| - 1] == '\r' then line[..|line| - 1] else line] + Lines(s[i + 1..])
  }

  /** `text` followed by a newline, for each of `lines` in turn. */
  function Emit(lines: seq<string>): string {
    if |lines| == 0 then "" else lines[0] + "\n" + Emit(lines[1..])
  }

  /** One `data: ` line per piece. */
  function DataLines(pieces: seq<string>): (r: seq<string>)
    ensures |r| == |pieces|
    ensures forall k :: 0 <= k < |r| ==> r[k] == "data: " + pieces[k]
  {
    if |pieces| == 0 then [] else ["data: " + pieces[0]] + DataLines(pieces[1..])
  }

  /** `Message::serialize`: `event: E` if set, `id: I` if set, one `data: L`
      per line of the data, each ended by a newline, then the newline that
      ends the message. `retry` is not written. */
  function Serialize(m: Message): (r: string)
    ensures r == Emit(FieldLines(m, DataPieces(m)))
  {
    var ev := match m.event case Some(e) => ["event: " + e] case None => [];
    var id := match m.id case Some(i) => ["id: " + i] case None => [];
    var data := DataLines(DataPieces(m));
    EmitAppend(ev + id + data, [""]);
    EmitAppend(ev + id, data);
    EmitAppend(ev, id);
    assert Emit([""]) == "\n";
    assert m.event.Some? ==> Emit(ev) == "event: " + m.event.value + "\n";
    assert m.id.Some? ==> Emit(id) == "id: " + m.id.value + "\n";
    assert FieldLines(m, DataPieces(m)) == ev + id + data + [""];
    (match m.event case Some(e) => "event: " + e + "\n" case None => "")
    + (match m.id case Some(i) => "id: " + i + "\n" case None => "")
    + (match m.data case Some(d) => Emit(DataLines(Lines(d))) case None => "")
    + "\n"
  }

  /** The lines `Serialize` writes, blank terminator included. */
  function FieldLines(m: Message, pieces: seq<string>): seq<string> {
    (match m.event case Some(e) => ["event: " + e] case None => [])
    + (match m.id case Some(i) => ["id: " + i] case None => [])
    + DataLines(pieces)
    + [""]
  }

  /** The pieces of the message's data, none when it has no data. */
  function DataPieces(m: Message): seq<string> {
    match m.data case Some(d) => Lines(d) case None => []
  }

  lemma {:induction false} EmitAppend(a: seq<string>, b: seq<string>)
    ensures Emit(a + b) == Emit(a) + Emit(b)
    decreases |a|
  {
    if |a| == 0 {
      assert a + b == b;
    } else {
      assert (a + b)[1..] == a[1..] + b;
      EmitAppend(a[1..], b);
    }
  }

  /** An all-empty message is a lone newline, and every serialization ends
      with the blank line that terminates the message. */
  lemma SerializeShape(m: Message)
    ensures m.event.None? && m.id.None? && m.data.None? ==> Serialize(m) == "\n"
    ensures EndsWith(Serialize(m), "\n")
    ensures Serialize(m.(retry := None)) == Serialize(m)
  {
  }

  // ---------------------------------------------------------------------
  // Builder

  /** `MessageBuilder`: the message under construction. */
  datatype Builder = Builder(message: Message)

  /** `Message::build()`: every field absent. */
  const Empty := Builder(Message(None, None, None, None))

  /** `MessageBuilder::event`: panics on a line break. */
  function SetEvent(b: Builder, event: string): (r: Result<Builder, string>)
    ensures r.Success? <==> LineSafe(event)
    ensures r.Success? ==> r.value.message == b.message.(event := Some(event))
  {
    if exists k :: 0 <= k < |event| && IsBreak(event[k]) then Failure("event cannot contain newlines")
    else Success(Builder(b.message.(event := Some(event))))
  }

  /** `MessageBuilder::id`: panics on a line break. */
  function SetId(b: Builder, id: string): (r: Result<Builder, string>)
    ensures r.Success? <==> LineSafe(id)
    ensures r.Success? ==> r.value.message == b.message.(id := Some(id))
  {
    if exists k :: 0 <= k < |id| && IsBreak(id[k]) then Failure("id cannot contain newlines")
    else Success(Builder(b.message.(id := Some(id))))
  }

  /** `MessageBuilder::data`: any text. */
  function SetData(b: Builder, data: string): (r: Builder)
    ensures r.message == b.message.(data := Some(data))
  {
    Builder(b.message.(data := Some(data)))
  }

  /** `MessageBuilder::retry`. */
  function SetRetry(b: Builder, retry: u32): (r: Builder)
    ensures r.message == b.message.(retry := Some(retry))
  {
    Builder(b.message.(retry := Some(retry)))
  }

  /** A builder call. */
  datatype BuilderCall = Event(event: string) | Id(id: string) | Data(data: string) | Retry(retry: u32)

  function Call(b: Builder, c: BuilderCall): Result<Builder, string> {
    match c
    case Event(e) => SetEvent(b, e)
    case Id(i) => SetId(b, i)
    case Data(d) => Success(SetData(b, d))
    case Retry(n) => Success(SetRetry(b, n))
  }

  /** A chain of builder calls, stopping at the first panic. */
  function Chain(b: Builder, calls: seq<BuilderCall>): Result<Builder, string>
    decreases |calls|
  {
    if |calls| == 0 then Success(b)
    else match Call(b, calls[0])
      case Failure(e) => Failure(e)
      case Success(b') => Chain(b', calls[1..])
  }

  /** The message's `event` and `id` hold no line breaks. */
  predicate HeaderSafe(m: Message) {
    (m.event.Some? ==> LineSafe(m.event.value)) && (m.id.Some? ==> LineSafe(m.id.value))
  }

  /** Every message a chain of builder calls produces without panicking has
      break-free `event` and `id`, so those fields stay on one line each. */
  lemma {:induction false} BuiltMessagesAreHeaderSafe(b: Builder, calls: seq<BuilderCall>)
    requires HeaderSafe(b.message)
    requires Chain(b, calls).Success?
    ensures HeaderSafe(Chain(b, calls).value.message)
    decreases |calls|
  {
    if |calls| > 0 {
      var b' := Call(b, calls[0]).value;
      assert HeaderSafe(b'.message);
      BuiltMessagesAreHeaderSafe(b', calls[1..]);
    }
  }

  // ---------------------------------------------------------------------
  // The reader side of the event-stream format

  /** The first line break of a stream: where it starts and how long it is
      (`\r\n` counts as one break of two characters). */
  function FirstBreak(s: string): (r: Option<(nat, nat)>)
    ensures r.Some? ==> r.value.0 + r.value.1 <= |s| && 1 <= r.value.1 <= 2
    ensures r.Some? ==> LineSafe(s[..r.value.0])
    ensures r.None? ==> LineSafe(s)
    decreases |s|
  {
    if |s| == 0 then None
    else if s[0] == '\n' then Some((0, 1))
    else if s[0] == '\r' then Some((0, if |s| > 1 && s[1] == '\n' then 2 else 1))
    else match FirstBreak(s[1..])
      case Some(b) => Some((b.0 + 1, b.1))
      case None => None
  }

  /** The complete lines of a stream; a final line without its break is
      pending and not yet read. */
  function StreamLines(s: string): seq<string>
    decreases |s|
  {
    match FirstBreak(s)
    case None => []
    case Some(b) => [s[..b.0]] + StreamLines(s[b.0 + b.1..])
  }

  /** A dispatched `MessageEvent`: its type, data and last event ID. */
  datatype Dispatched = Dispatched(eventType: string, data: string, lastEventId: string)

  /** The reader's buffers and the events dispatched so far. */
  datatype Reader = Reader(eventType: string, data: string, lastEventId: string, events: seq<Dispatched>)

  const FreshReader := Reader("", "", "", [])

  /** Drop one leading space from a field value. */
  function Unspace(v: string): string {
    if |v| > 0 && v[0] == ' ' then v[1..] else v
  }

  /** A blank line: dispatch, unless no data arrived. */
  function DispatchEvent(r: Reader): Reader {
    if r.data == "" then r.(eventType := "", data := "")
    else
      var data := if r.data[|r.data| - 1] == '\n' then r.data[..|r.data| - 1] else r.data;
      var kind := if r.eventType == "" then "message" else r.eventType;
      Reader("", "", r.lastEventId, r.events + [Dispatched(kind, data, r.lastEventId)])
  }

  /** One field: `event` sets the type, `data` appends a line, `id` sets the
      last event ID unless it holds NUL; any other field is ignored
      (including `retry`, which the serializer never writes). */
  function ProcessField(r: Reader, field: string, value: string): Reader {
    if field == "event" then r.(eventType := value)
    else if field == "data" then r.(data := r.data + value + "\n")
    else if field == "id" then (if '\0' in value then r else r.(lastEventId := value))
    else r
  }

  /** One line of the stream. */
  function ProcessLine(r: Reader, line: string): Reader {
    if line == "" then DispatchEvent(r)
    else if line[0] == ':' then r
    else if ':' in line then
      var c := FirstIndex(line, ':');
      ProcessField(r, line[..c], Unspace(line[c + 1..]))
    else ProcessField(r, line, "")
  }

  function ProcessLines(r: Reader, lines: seq<string>): Reader
    decreases |lines|
  {
    if |lines| == 0 then r else ProcessLines(ProcessLine(r, lines[0]), lines[1..])
  }

  /** What a fresh reader makes of a stream. */
  function Interpret(stream: string): Reader {
    ProcessLines(FreshReader, StreamLines(stream))
  }

  /** The event a reader should see for a message whose data pieces are
      `pieces`: none without data lines; otherwise the type (`message` by
      default), the pieces joined by newlines and the id. */
  function Expected(m: Message, pieces: seq<string>): seq<Dispatched> {
    if |pieces| == 0 then []
    else
      var kind := match m.event case Some(e) => (if e == "" then "message" else e) case None => "message";
      [Dispatched(kind, Join(pieces, '\n'), m.id.GetOr(""))]
  }

  // ---------------------------------------------------------------------
  // Round trip

  lemma {:induction false} FirstBreakAfterSafe(l: string, rest: string)
    requires LineSafe(l)
    ensures FirstBreak(l + "\n" + rest) == Some((|l|, 1))
    decreases |l|
  {
    var s := l + "\n" + rest;
    if |l| > 0 {
      assert s[1..] == l[1..] + "\n" + rest;
      FirstBreakAfterSafe(l[1..], rest);
    } else {
      assert s[0] == '\n';
    }
  }

  /** Break-free lines, each ended by a newline, are read back as they are. */
  lemma {:induction false} StreamLinesOfEmit(lines: seq<string>)
    requires forall k :: 0 <= k < |lines| ==> LineSafe(lines[k])
    ensures StreamLines(Emit(lines)) == lines
    decreases |lines|
  {
    if |lines| > 0 {
      var s := Emit(lines);
      assert s == lines[0] + "\n" + Emit(lines[1..]);
      FirstBreakAfterSafe(lines[0], Emit(lines[1..]));
      assert s[|lines[0]| + 1..] == Emit(lines[1..]);
      assert s[..|lines[0]|] == lines[0];
      StreamLinesOfEmit(lines[1..]);
    }
  }

  lemma {:induction false} ProcessLinesAppend(r: Reader, a: seq<string>, b: seq<string>)
    ensures ProcessLines(r, a + b) == ProcessLines(ProcessLines(r, a), b)
    decreases |a|
  {
    if |a| == 0 {
      assert a + b == b;
    } else {
      assert (a + b)[1..] == a[1..] + b;
      ProcessLinesAppend(ProcessLine(r, a[0]), a[1..], b);
    }
  }

  /** A `name: value` line is read as field `name` with that value, when the
      name has no colon. */
  lemma FieldLineRead(r: Reader, name: string, prefix: string, value: string)
    requires |name| > 0 && name[0] != ':' && ':' !in name
    requires prefix == name + ": "
    ensures ProcessLine(r, prefix + value) == ProcessField(r, name, value)
  {
    var line := prefix + value;
    assert line == name + ": " + value;
    assert line[|name|] == ':';
    assert line[..|name|] == name;
    var c := FirstIndex(line, ':');
    assert c == |name| by {
      assert ':' !in line[..|name|];
    }
    assert line[c + 1..] == " " + value;
  }

  /** The data lines append each piece and a newline to the data buffer. */
  lemma {:induction false} DataLinesRead(r: Reader, pieces: seq<string>)
    ensures ProcessLines(r, DataLines(pieces)) == r.(data := r.data + Emit(pieces))
    decreases |pieces|
  {
    if |pieces| > 0 {
      var lines := DataLines(pieces);
      FieldLineRead(r, "data", "data: ", pieces[0]);
      var r' := r.(data := r.data + pieces[0] + "\n");
      assert ProcessLine(r, lines[0]) == r' by {
        assert lines[0] == "data: " + pieces[0];
        assert ProcessField(r, "data", pieces[0]) == r';
      }
      assert lines[1..] == DataLines(pieces[1..]);
      DataLinesRead(r', pieces[1..]);
      assert ProcessLines(r, lines) == r'.(data := r'.data + Emit(pieces[1..]));
      assert Emit(pieces) == pieces[0] + "\n" + Emit(pieces[1..]);
      assert r.data + pieces[0] + "\n" + Emit(pieces[1..]) == r.data + Emit(pieces);
    }
  }

  /** Joining pieces by newlines is emitting them and dropping the last
      newline. */
  lemma {:induction false} EmitIsJoinPlusNewline(pieces: seq<string>)
    requires |pieces| > 0
    ensures Emit(pieces) == Join(pieces, '\n') + "\n"
    decreases |pieces|
  {
    if |pieces| > 1 {
      EmitIsJoinPlusNewline(pieces[1..]);
    }
  }

  lemma ConcatSafe(a: string, b: string)
    requires LineSafe(a) && LineSafe(b)
    ensures LineSafe(a + b)
  {
    forall k | 0 <= k < |a + b|
      ensures !IsBreak((a + b)[k])
    {
      if k < |a| {
        assert (a + b)[k] == a[k];
      } else {
        assert (a + b)[k] == b[k - |a|];
      }
    }
  }

  /** Every line `Serialize` writes is free of breaks when the headers and
      the data pieces are. */
  lemma FieldLinesSafe(m: Message, pieces: seq<string>)
    requires HeaderSafe(m)
    requires forall k :: 0 <= k < |pieces| ==> LineSafe(pieces[k])
    ensures forall k :: 0 <= k < |FieldLines(m, pieces)| ==> LineSafe(FieldLines(m, pieces)[k])
  {
    var ev := match m.event case Some(e) => ["event: " + e] case None => [];
    var id := match m.id case Some(i) => ["id: " + i] case None => [];
    var data := DataLines(pieces);
    var lines := ev + id + data + [""];
    assert lines == FieldLines(m, pieces);
    if m.event.Some? {
      ConcatSafe("event: ", m.event.value);
    }
    if m.id.Some? {
      ConcatSafe("id: ", m.id.value);
    }
    forall k | 0 <= k < |data|
      ensures LineSafe(data[k])
    {
      ConcatSafe("data: ", pieces[k]);
    }
    forall k | 0 <= k < |lines|
      ensures LineSafe(lines[k])
    {
      if k < |ev| {
        assert lines[k] == ev[k];
      } else if k < |ev| + |id| {
        assert lines[k] == id[k - |ev|];
      } else if k < |ev| + |id| + |data| {
        assert lines[k] == data[k - |ev| - |id|];
      } else {
        assert lines[k] == "";
      }
    }
  }

  lemma OneLine(r: Reader, l: string)
    ensures ProcessLines(r, [l]) == ProcessLine(r, l)
  {
    assert [l][1..] == [];
  }

  /** An `event:` line sets the type buffer. */
  lemma EventLineRead(r: Reader, e: string)
    ensures ProcessLines(r, ["event: " + e]) == r.(eventType := e)
  {
    OneLine(r, "event: " + e);
    FieldLineRead(r, "event", "event: ", e);
  }

  /** An `id:` line without NUL sets the last-event-ID buffer. */
  lemma IdLineRead(r: Reader, i: string)
    requires '\0' !in i
    ensures ProcessLines(r, ["id: " + i]) == r.(lastEventId := i)
  {
    OneLine(r, "id: " + i);
    FieldLineRead(r, "id", "id: ", i);
  }

  /** The `event` and `id` lines set the type and id buffers of a fresh reader. */
  lemma HeaderLinesRead(m: Message)
    requires m.id.Some? ==> '\0' !in m.id.value
    ensures var ev := match m.event case Some(e) => ["event: " + e] case None => [];
            var id := match m.id case Some(i) => ["id: " + i] case None => [];
            ProcessLines(FreshReader, ev + id) == Reader(m.event.GetOr(""), "", m.id.GetOr(""), [])
  {
    var ev: seq<string> := if m.event.Some? then ["event: " + m.event.value] else [];
    var id: seq<string> := if m.id.Some? then ["id: " + m.id.value] else [];
    ProcessLinesAppend(FreshReader, ev, id);
    var r1 := Reader(m.event.GetOr(""), "", "", []);
    if m.event.Some? {
      EventLineRead(FreshReader, m.event.value);
    }
    if m.id.Some? {
      IdLineRead(r1, m.id.value);
    }
  }

  /** After the headers, the data lines and the blank line dispatch the
      expected event. */
  lemma BodyLinesRead(m: Message, pieces: seq<string>)
    ensures ProcessLines(Reader(m.event.GetOr(""), "", m.id.GetOr(""), []), DataLines(pieces) + [""]).events
            == Expected(m, pieces)
  {
    var r2 := Reader(m.event.GetOr(""), "", m.id.GetOr(""), []);
    ProcessLinesAppend(r2, DataLines(pieces), [""]);
    DataLinesRead(r2, pieces);
    var r3 := r2.(data := "" + Emit(pieces));
    assert "" + Emit(pieces) == Emit(pieces);
    OneLine(r3, "");
    var r4 := DispatchEvent(r3);
    assert ProcessLines(r2, DataLines(pieces) + [""]) == r4;
    var kind := if r3.eventType == "" then "message" else r3.eventType;
    if |pieces| > 0 {
      EmitIsJoinPlusNewline(pieces);
      var e := Emit(pieces);
      assert e[..|e| - 1] == Join(pieces, '\n');
      assert r4.events == [Dispatched(kind, Join(pieces, '\n'), m.id.GetOr(""))];
    } else {
      assert Emit(pieces) == "";
      assert r4.events == [];
    }
  }

  /** The reader's side of the serialization, for any data pieces that are
      free of line breaks: a fresh reader dispatches exactly the expected
      event, and only when there is a data line. */
  lemma ReadFieldLines(m: Message, pieces: seq<string>)
    requires HeaderSafe(m) && (m.id.Some? ==> '\0' !in m.id.value)
    requires forall k :: 0 <= k < |pieces| ==> LineSafe(pieces[k])
    ensures StreamLines(Emit(FieldLines(m, pieces))) == FieldLines(m, pieces)
    ensures ProcessLines(FreshReader, FieldLines(m, pieces)).events == Expected(m, pieces)
  {
    FieldLinesSafe(m, pieces);
    StreamLinesOfEmit(FieldLines(m, pieces));
    var ev := match m.event case Some(e) => ["event: " + e] case None => [];
    var id := match m.id case Some(i) => ["id: " + i] case None => [];
    assert FieldLines(m, pieces) == (ev + id) + (DataLines(pieces) + [""]);
    ProcessLinesAppend(FreshReader, ev + id, DataLines(pieces) + [""]);
    HeaderLinesRead(m);
    BodyLinesRead(m, pieces);
  }

  /** Round trip, as written: a message whose `event` and `id` are line-safe
      (as the builder guarantees) and whose data pieces are line-safe is
      read back as its type, its id, and its data pieces joined by
      newlines. */
  lemma SerializeRoundTrip(m: Message)
    requires HeaderSafe(m) && (m.id.Some? ==> '\0' !in m.id.value)
    requires forall k :: 0 <= k < |DataPieces(m)| ==> LineSafe(DataPieces(m)[k])
    ensures Interpret(Serialize(m)).events == Expected(m, DataPieces(m))
  {
    ReadFieldLines(m, DataPieces(m));
  }

  /** A bare `\r` after a line-safe prefix is a break of length one. */
  lemma {:induction false} FirstBreakAtBareCR(l: string, rest: string)
    requires LineSafe(l) && (|rest| == 0 || rest[0] != '\n')
    ensures FirstBreak(l + "\r" + rest) == Some((|l|, 1))
    decreases |l|
  {
    var s := l + "\r" + rest;
    if |l| > 0 {
      assert s[1..] == l[1..] + "\r" + rest;
      FirstBreakAtBareCR(l[1..], rest);
    } else {
      assert s[0] == '\r';
      assert |s| > 1 ==> s[1] == rest[0];
    }
  }

  /** `a\rb` is one `str::lines` piece, written as one `data:` line. */
  lemma BareCarriageReturnWritten()
    ensures Lines("a\rb") == ["a\rb"]
    ensures Serialize(DataMessage("a\rb")) == "data: a" + "\r" + Emit(["b", ""])
  {
    assert "a\rb"[0] != '\n' && "a\rb"[1] != '\n' && "a\rb"[2] != '\n';
    assert '\n' !in "a\rb";
    assert "data: " + "a\rb" == "data: a\rb";
    assert DataLines(["a\rb"]) == ["data: a\rb"];
    assert Emit(["data: a\rb"]) == "data: a\rb" + "\n" + Emit([]);
    assert Emit(["b", ""]) == "b" + "\n" + ("" + "\n" + Emit([]));
  }

  /** The reader splits that line at the `\r`. */
  lemma BareCarriageReturnRead()
    ensures StreamLines("data: a" + "\r" + Emit(["b", ""])) == ["data: a", "b", ""]
  {
    var rest := Emit(["b", ""]);
    assert rest[0] == 'b';
    ConcatSafe("data: ", "a");
    FirstBreakAtBareCR("data: a", rest);
    var s := "data: a" + "\r" + rest;
    assert s[..7] == "data: a";
    assert s[8..] == rest;
    StreamLinesOfEmit(["b", ""]);
  }

  /** A line naming no known field is ignored. */
  lemma UnknownFieldIgnored(r: Reader, line: string)
    requires line != "" && line[0] != ':' && ':' !in line
    requires line !in {"event", "data", "id"}
    ensures ProcessLine(r, line) == r
  {
  }

  /** The line `data: a` puts `a` and a newline in the data buffer. */
  lemma DataLineOfA()
    ensures ProcessLine(FreshReader, "data: a") == FreshReader.(data := "a\n")
  {
    DataLineOf(FreshReader, "a");
    assert "data: " + "a" == "data: a";
    assert FreshReader.data + "a" + "\n" == "a\n";
  }

  lemma DataLineOf(r: Reader, value: string)
    ensures ProcessLine(r, "data: " + value) == r.(data := r.data + value + "\n")
  {
    FieldLineRead(r, "data", "data: ", value);
  }

  /** The line `b` names an unknown field and changes nothing. */
  lemma LineBIgnored(r1: Reader)
    ensures ProcessLine(r1, "b") == r1
  {
    assert "b"[0] == 'b';
    UnknownFieldIgnored(r1, "b");
  }

  /** The blank line dispatches `a` as a `message` event. */
  lemma BlankDispatchesA(r1: Reader)
    requires r1 == FreshReader.(data := "a\n")
    ensures DispatchEvent(r1).events == [Dispatched("message", "a", "")]
  {
    assert r1.data[|r1.data| - 1] == '\n';
    assert r1.data[..|r1.data| - 1] == "a";
  }

  /** What a fresh reader makes of the lines `data: a`, `b` and a blank. */
  lemma BareCarriageReturnDispatched()
    ensures ProcessLines(FreshReader, ["data: a", "b", ""]).events == [Dispatched("message", "a", "")]
  {
    var r1 := FreshReader.(data := "a\n");
    DataLineOfA();
    LineBIgnored(r1);
    BlankDispatchesA(r1);
    var first := ["data: a"];
    var rest := ["b", ""];
    assert first + rest == ["data: a", "b", ""];
    ProcessLinesAppend(FreshReader, first, rest);
    OneLine(FreshReader, "data: a");
    assert ["b"] + [""] == rest;
    ProcessLinesAppend(r1, ["b"], [""]);
    OneLine(r1, "b");
    OneLine(r1, "");
  }

  /** The finding, as written: `str::lines` leaves a bare `\r` inside a data
      piece, and the reader ends the line there; `a\rb` arrives as `a`. */
  lemma BareCarriageReturnTruncatesData()
    ensures Lines("a\rb") == ["a\rb"]
    ensures Interpret(Serialize(DataMessage("a\rb"))).events == [Dispatched("message", "a", "")]
  {
    BareCarriageReturnWritten();
    BareCarriageReturnRead();
    BareCarriageReturnDispatched();
  }

  // ---------------------------------------------------------------------
  // Corrected data splitting

  /** Data split at every line break the reader recognises (`\r\n`, `\n` or
      a bare `\r`); as with `str::lines`, a final break does not start
      another piece. */
  function BreakLines(s: string): (r: seq<string>)
    ensures s == "" <==> r == []
    ensures forall k :: 0 <= k < |r| ==> LineSafe(r[k])
    decreases |s|
  {
    if s == "" then []
    else match FirstBreak(s)
      case None => [s]
      case Some(b) => [s[..b.0]] + BreakLines(s[b.0 + b.1..])
  }

  /** The serialization as evidently intended: one `data:` line per piece of
      `BreakLines`. */
  function SerializeIntended(m: Message): string {
    (match m.event case Some(e) => "event: " + e + "\n" case None => "")
    + (match m.id case Some(i) => "id: " + i + "\n" case None => "")
    + (match m.data case Some(d) => Emit(DataLines(BreakLines(d))) case None => "")
    + "\n"
  }

  /** With the intended splitting, every line-safe `event`/`id` message is
      read back whole: its data arrives with each line break normalised to
      `\n`, whatever characters it holds. */
  lemma IntendedRoundTrip(m: Message)
    requires HeaderSafe(m) && (m.id.Some? ==> '\0' !in m.id.value)
    ensures var pieces := match m.data case Some(d) => BreakLines(d) case None => [];
            Interpret(SerializeIntended(m)).events == Expected(m, pieces)
  {
    var pieces := match m.data case Some(d) => BreakLines(d) case None => [];
    var ev := match m.event case Some(e) => ["event: " + e] case None => [];
    var id := match m.id case Some(i) => ["id: " + i] case None => [];
    var data := DataLines(pieces);
    EmitAppend(ev + id + data, [""]);
    EmitAppend(ev + id, data);
    EmitAppend(ev, id);
    assert Emit([""]) == "\n";
    if m.event.Some? {
      assert Emit(ev) == "event: " + m.event.value + "\n";
    }
    if m.id.Some? {
      assert Emit(id) == "id: " + m.id.value + "\n";
    }
    assert FieldLines(m, pieces) == ev + id + data + [""];
    assert SerializeIntended(m) == Emit(FieldLines(m, pieces));
    ReadFieldLines(m, pieces);
  }

  /** For data without any `\r` the two splittings agree, so the corrected
      serialization changes nothing the reader already received correctly. */
  lemma {:induction false} SplittingsAgreeWithoutCarriageReturn(s: string)
    requires '\r' !in s
    ensures BreakLines(s) == Lines(s)
    decreases |s|
  {
    if s != "" {
      if '\n' in s {
        var i := FirstIndex(s, '\n');
        NoCarriageReturnBreak(s);
        var line := s[..i];
        assert |line| > 0 ==> line[|line| - 1] != '\r' by {
          if |line| > 0 {
            assert line[|line| - 1] == s[i - 1];
            assert s[i - 1] in s;
          }
        }
        SplittingsAgreeWithoutCarriageReturn(s[i + 1..]);
      } else {
        NoCarriageReturnBreak(s);
      }
    }
  }

  /** Without `\r`, the first line break is the first `\n`, one character long. */
  lemma {:induction false} NoCarriageReturnBreak(s: string)
    requires '\r' !in s
    ensures '\n' in s ==> FirstBreak(s) == Some((FirstIndex(s, '\n'), 1))
    ensures '\n' !in s ==> FirstBreak(s).None?
    decreases |s|
  {
    if |s| > 0 && s[0] != '\n' {
      assert ('\n' in s) == ('\n' in s[1..]) by {
        if '\n' in s {
          var k :| 0 <= k < |s| && s[k] == '\n';
          assert s[1..][k - 1] == '\n';
        }
      }
      NoCarriageReturnBreak(s[1..]);
    }
  }
}
