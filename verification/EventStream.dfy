/** The event-stream reader of the chat client: text arrives in arbitrary chunks, is cut at
    blank lines, and every complete frame becomes one named event. */
module EventStream {
  import opened Text

  datatype Event = Event(name: string, data: string)

  /** What JavaScript's `trim` removes. */
  predicate JsSpace(c: char) {
    || '\U{9}' <= c <= '\U{d}' || c == ' ' || c == '\U{a0}' || c == '\U{feff}' || c == '\U{1680}'
    || '\U{2000}' <= c <= '\U{200a}' || c in {'\U{2028}', '\U{2029}', '\U{202f}', '\U{205f}', '\U{3000}'}
  }

  /** The characters concerned, by number: the white space and line terminators of ECMAScript. */
  lemma JsSpaceIs(c: char)
    ensures JsSpace(c) <==>
      c as int in {9, 10, 11, 12, 13, 32, 160, 5760, 8192, 8193, 8194, 8195, 8196, 8197, 8198, 8199, 8200, 8201, 8202,
                   8232, 8233, 8239, 8287, 12288, 65279}
  {
  }

  // ----- Framing: where the text is cut -----

  predicate BlankLineAt(s: string, i: nat) {
    i + 1 < |s| && s[i] == '\n' && s[i + 1] == '\n'
  }

  predicate NoBlankLine(s: string) {
    forall i: nat | i < |s| :: !BlankLineAt(s, i)
  }

  /** `s.indexOf('\n\n')`. */
  function IndexOfBlankLine(s: string): (i: int)
    ensures -1 <= i < |s| - 1 || i == -1
  {
    if |s| < 2 then -1
    else if BlankLineAt(s, 0) then 0
    else
      var i := IndexOfBlankLine(s[1..]);
      if i == -1 then -1 else i + 1
  }

  /** It finds the leftmost blank line, and fails exactly when there is none. */
  lemma {:induction false} IndexOfBlankLineIsLeftmost(s: string)
    ensures IndexOfBlankLine(s) == -1 <==> NoBlankLine(s)
    ensures var i := IndexOfBlankLine(s); i >= 0 ==> BlankLineAt(s, i) && NoBlankLine(s[..i + 1])
    decreases |s|
  {
    var i := IndexOfBlankLine(s);
    if |s| >= 2 && !BlankLineAt(s, 0) {
      var t := s[1..];
      IndexOfBlankLineIsLeftmost(t);
      forall j: nat | j < |t| ensures BlankLineAt(t, j) == BlankLineAt(s, j + 1) {}
      if i >= 0 {
        var cut := s[..i + 1];
        forall j: nat | j < |cut| ensures !BlankLineAt(cut, j) {
          assert j > 0 ==> !BlankLineAt(t[..i], j - 1);
        }
      } else {
        forall j: nat | j < |s| ensures !BlankLineAt(s, j) {
          assert j > 0 ==> !BlankLineAt(t, j - 1);
        }
      }
    }
  }

  /** The frames followed by their blank lines. */
  function Glue(frames: seq<string>): string {
    if frames == [] then "" else frames[0] + "\n\n" + Glue(frames[1..])
  }

  /** A frame cut at the leftmost blank line: no blank line starts inside it. */
  predicate Frame(f: string) {
    NoBlankLine(f + "\n")
  }

  /** `text` is these frames, each closed by the first blank line there is, and a tail without one. */
  ghost predicate IsFraming(text: string, frames: seq<string>, rest: string) {
    && text == Glue(frames) + rest
    && NoBlankLine(rest)
    && forall f | f in frames :: Frame(f)
  }

  lemma FirstFrameIsForced(f: string, tail: string)
    requires Frame(f)
    ensures IndexOfBlankLine(f + "\n\n" + tail) == |f|
  {
    var t := f + "\n\n" + tail;
    var i := IndexOfBlankLine(t);
    IndexOfBlankLineIsLeftmost(t);
    assert BlankLineAt(t, |f|);
    forall j: nat | j < |f| ensures !BlankLineAt(t, j) {
      assert !BlankLineAt(f + "\n", j);
    }
    assert i > |f| ==> BlankLineAt(t[..i + 1], |f|);
  }

  /** There is only one way to cut a text. */
  lemma {:induction false} FramingIsUnique(text: string, fs: seq<string>, r: string, gs: seq<string>, q: string)
    requires IsFraming(text, fs, r) && IsFraming(text, gs, q)
    ensures fs == gs && r == q
    decreases |fs|
  {
    IndexOfBlankLineIsLeftmost(text);
    if fs == [] {
      assert text == r;
    } else {
      FirstFrameIsForced(fs[0], Glue(fs[1..]) + r);
      assert text == fs[0] + "\n\n" + (Glue(fs[1..]) + r);
    }
    if gs == [] {
      assert text == q;
    } else {
      FirstFrameIsForced(gs[0], Glue(gs[1..]) + q);
      assert text == gs[0] + "\n\n" + (Glue(gs[1..]) + q);
    }
    if fs != [] && gs != [] {
      var n := |fs[0]|;
      assert text[..n] == fs[0] == gs[0];
      var cut := text[n + 2..];
      assert cut == Glue(fs[1..]) + r == Glue(gs[1..]) + q;
      FramingIsUnique(cut, fs[1..], r, gs[1..], q);
      assert fs == [fs[0]] + fs[1..] && gs == [gs[0]] + gs[1..];
    }
  }

  function Frames(text: string): seq<string>
    decreases |text|
  {
    var i := IndexOfBlankLine(text);
    if i == -1 then [] else [text[..i]] + Frames(text[i + 2..])
  }

  function Rest(text: string): string
    decreases |text|
  {
    var i := IndexOfBlankLine(text);
    if i == -1 then text else Rest(text[i + 2..])
  }

  lemma CutIsFrame(text: string)
    requires IndexOfBlankLine(text) != -1
    ensures var i := IndexOfBlankLine(text); Frame(text[..i]) && text == text[..i] + "\n\n" + text[i + 2..]
  {
    var i := IndexOfBlankLine(text);
    IndexOfBlankLineIsLeftmost(text);
    assert text[..i] + "\n" == text[..i + 1];
  }

  lemma {:induction false} GlueAppend(fs: seq<string>, gs: seq<string>)
    ensures Glue(fs + gs) == Glue(fs) + Glue(gs)
    decreases |fs|
  {
    if fs == [] {
      assert fs + gs == gs;
    } else {
      assert (fs + gs)[1..] == fs[1..] + gs;
      GlueAppend(fs[1..], gs);
    }
  }

  /** Framing a text, then its tail with more text behind it, frames the whole. */
  lemma FramingExtends(a: string, fs: seq<string>, r: string, b: string, gs: seq<string>, q: string)
    requires IsFraming(a, fs, r) && IsFraming(r + b, gs, q)
    ensures IsFraming(a + b, fs + gs, q)
  {
    GlueAppend(fs, gs);
    assert a + b == Glue(fs) + (r + b);
    assert Glue(fs) + (Glue(gs) + q) == (Glue(fs) + Glue(gs)) + q;
  }

  /** Cutting the whole text at leftmost blank lines is the framing. */
  lemma {:induction false} FramesAreFraming(text: string)
    ensures IsFraming(text, Frames(text), Rest(text))
    decreases |text|
  {
    var i := IndexOfBlankLine(text);
    IndexOfBlankLineIsLeftmost(text);
    if i == -1 {
      assert Glue([]) + text == text;
    } else {
      var f, tail := text[..i], text[i + 2..];
      CutIsFrame(text);
      FramesAreFraming(tail);
      assert Glue([f]) == f + "\n\n" + Glue([]);
      assert IsFraming(f + "\n\n", [f], "");
      assert "" + tail == tail;
      FramingExtends(f + "\n\n", [f], "", tail, Frames(tail), Rest(tail));
    }
  }

  /** Framing a prefix first and its leftover together with what follows later gives the
      framing of the whole: no cut of the network can show in the frames. */
  lemma FramingIsIncremental(a: string, b: string)
    ensures Frames(a + b) == Frames(a) + Frames(Rest(a) + b)
    ensures Rest(a + b) == Rest(Rest(a) + b)
  {
    FramesAreFraming(a);
    FramesAreFraming(Rest(a) + b);
    FramesAreFraming(a + b);
    FramingExtends(a, Frames(a), Rest(a), b, Frames(Rest(a) + b), Rest(Rest(a) + b));
    FramingIsUnique(a + b, Frames(a) + Frames(Rest(a) + b), Rest(Rest(a) + b), Frames(a + b), Rest(a + b));
  }

  // ----- Fields: what one frame says -----

  const EVENT := "event:"
  const DATA := "data:"

  /** The last `event:` line names the event; without one it is a "message". */
  function EventName(lines: seq<string>): string {
    if lines == [] then "message"
    else
      var last := lines[|lines| - 1];
      if EVENT <= last then Trim(JsSpace, last[|EVENT|..]) else EventName(lines[..|lines| - 1])
  }

  function DataLines(lines: seq<string>): seq<string> {
    if lines == [] then []
    else
      var last := lines[|lines| - 1];
      DataLines(lines[..|lines| - 1]) + if DATA <= last then [Trim(JsSpace, last[|DATA|..])] else []
  }

  /** The event of one frame, if it carries any data. */
  function Dispatch(frame: string): seq<Event> {
    var lines := Split(frame, '\n');
    var data := DataLines(lines);
    if data == [] then [] else [Event(EventName(lines), Join(data, "\n"))]
  }

  function DispatchAll(frames: seq<string>): seq<Event> {
    if frames == [] then [] else Dispatch(frames[0]) + DispatchAll(frames[1..])
  }

  function Events(text: string): seq<Event> {
    DispatchAll(Frames(text))
  }

  lemma {:induction false} DispatchAppend(fs: seq<string>, gs: seq<string>)
    ensures DispatchAll(fs + gs) == DispatchAll(fs) + DispatchAll(gs)
    decreases |fs|
  {
    if fs == [] {
      assert fs + gs == gs;
    } else {
      assert (fs + gs)[1..] == fs[1..] + gs;
      DispatchAppend(fs[1..], gs);
    }
  }

  method ParseFrame(rawEvent: string) returns (events: seq<Event>)
    ensures events == Dispatch(rawEvent)
  {
    var eventName := "message";
    var dataLines: seq<string> := [];
    var lines := Split(rawEvent, '\n');
    for k := 0 to |lines|
      invariant eventName == EventName(lines[..k])
      invariant dataLines == DataLines(lines[..k])
    {
      assert lines[..k + 1][..k] == lines[..k];
      assert (EVENT <= lines[k] ==> lines[k][0] == 'e') && (DATA <= lines[k] ==> lines[k][0] == 'd');
      if EVENT <= lines[k] {
        eventName := Trim(JsSpace, lines[k][|EVENT|..]);
      } else if DATA <= lines[k] {
        dataLines := dataLines + [Trim(JsSpace, lines[k][|DATA|..])];
      }
    }
    assert lines[..|lines|] == lines;
    events := if |dataLines| == 0 then [] else [Event(eventName, Join(dataLines, "\n"))];
  }

  // ----- The reader -----

  function Concat(chunks: seq<string>): string {
    if chunks == [] then "" else Concat(chunks[..|chunks| - 1]) + chunks[|chunks| - 1]
  }

  lemma EventsAreIncremental(a: string, b: string)
    ensures Events(a + b) == Events(a) + Events(Rest(a) + b)
  {
    FramingIsIncremental(a, b);
    DispatchAppend(Frames(a), Frames(Rest(a) + b));
  }

  lemma DispatchCons(done: seq<Event>, f: string, fs: seq<string>)
    ensures done + DispatchAll([f] + fs) == (done + Dispatch(f)) + DispatchAll(fs)
  {
    var all := [f] + fs;
    assert all[0] == f && all[1..] == fs;
    assert DispatchAll(all) == Dispatch(f) + DispatchAll(fs);
  }

  lemma CutOne(done: seq<Event>, buffer: string)
    requires IndexOfBlankLine(buffer) != -1
    ensures var i := IndexOfBlankLine(buffer);
            && done + Events(buffer) == (done + Dispatch(buffer[..i])) + Events(buffer[i + 2..])
            && Rest(buffer) == Rest(buffer[i + 2..])
  {
    var i := IndexOfBlankLine(buffer);
    DispatchCons(done, buffer[..i], Frames(buffer[i + 2..]));
  }

  /** The read loop: what it dispatches and what it leaves in the buffer depend on the
      concatenated text alone, however the text was cut into chunks. */
  method StreamChatMessage(chunks: seq<string>) returns (dispatched: seq<Event>, buffer: string)
    ensures dispatched == Events(Concat(chunks))
    ensures buffer == Rest(Concat(chunks))
    ensures forall sent: seq<Event> |
      (forall e | e in sent :: Sendable(e)) && Concat(chunks) == ServerText(sent) :: dispatched == sent && buffer == ""
  {
    hide Sendable, ServerText;
    dispatched, buffer := [], "";
    for k := 0 to |chunks|
      invariant dispatched == Events(Concat(chunks[..k]))
      invariant buffer == Rest(Concat(chunks[..k]))
    {
      ghost var text := Concat(chunks[..k]) + chunks[k];
      assert chunks[..k + 1][..k] == chunks[..k];
      FramingIsIncremental(Concat(chunks[..k]), chunks[k]);
      EventsAreIncremental(Concat(chunks[..k]), chunks[k]);
      buffer := buffer + chunks[k];
      var boundary := IndexOfBlankLine(buffer);
      while boundary != -1
        invariant boundary == IndexOfBlankLine(buffer)
        invariant dispatched + Events(buffer) == Events(text)
        invariant Rest(buffer) == Rest(text)
        decreases |buffer|
      {
        CutOne(dispatched, buffer);
        var rawEvent := buffer[..boundary];
        buffer := buffer[boundary + 2..];
        boundary := IndexOfBlankLine(buffer);
        var events := ParseFrame(rawEvent);
        dispatched := dispatched + events;
      }
    }
    assert chunks[..|chunks|] == chunks;
    forall sent: seq<Event> | (forall e | e in sent :: Sendable(e)) && Concat(chunks) == ServerText(sent)
      ensures dispatched == sent && buffer == ""
    {
      ServerEventsArrive(sent, chunks);
    }
  }

  // ----- Round trip with the writer -----

  function PrintData(lines: seq<string>): (r: seq<string>)
    ensures |r| == |lines|
  {
    if lines == [] then []
    else PrintData(lines[..|lines| - 1]) + [DATA + " " + lines[|lines| - 1]]
  }

  function PrintLines(e: Event): seq<string> {
    [EVENT + " " + e.name] + PrintData(Split(e.data, '\n'))
  }

  /** How an event is written: an `event:` line, a `data:` line per line of data, a blank line. */
  function Print(e: Event): string {
    Join(PrintLines(e), "\n") + "\n\n"
  }

  function PrintAll(events: seq<Event>): string {
    if events == [] then "" else Print(events[0]) + PrintAll(events[1..])
  }

  predicate TrimmedLine(s: string) {
    Trimmed(JsSpace, s) && '\n' !in s
  }

  /** Events that survive printing: no line of theirs starts or ends with white space. */
  predicate WellFormed(e: Event) {
    TrimmedLine(e.name) && forall l | l in Split(e.data, '\n') :: Trimmed(JsSpace, l)
  }

  lemma {:induction false} FieldsAreTrimmed(lines: seq<string>)
    requires forall l | l in lines :: '\n' !in l
    ensures TrimmedLine(EventName(lines))
    ensures forall d | d in DataLines(lines) :: TrimmedLine(d)
    decreases |lines|
  {
    if lines != [] {
      FieldsAreTrimmed(lines[..|lines| - 1]);
      var last := lines[|lines| - 1];
      assert last in lines;
      if EVENT <= last {
        TrimIsTrimmed(JsSpace, last[|EVENT|..]);
        TrimKeepsOut(JsSpace, last[|EVENT|..], '\n');
      }
      if DATA <= last {
        TrimIsTrimmed(JsSpace, last[|DATA|..]);
        TrimKeepsOut(JsSpace, last[|DATA|..], '\n');
      }
    }
  }

  lemma DispatchedIsWellFormed(frame: string, e: Event)
    requires e in Dispatch(frame)
    ensures WellFormed(e)
  {
    JoinSplit(frame, '\n');
    var lines := Split(frame, '\n');
    FieldsAreTrimmed(lines);
    SplitJoin(DataLines(lines), '\n');
  }

  lemma {:induction false} EventsAreWellFormed(frames: seq<string>, e: Event)
    requires e in DispatchAll(frames)
    ensures WellFormed(e)
    decreases |frames|
  {
    if e in Dispatch(frames[0]) {
      DispatchedIsWellFormed(frames[0], e);
    } else {
      EventsAreWellFormed(frames[1..], e);
    }
  }

  lemma PrintedFieldParses(prefix: string, value: string)
    requires Trimmed(JsSpace, value)
    ensures Trim(JsSpace, (prefix + " " + value)[|prefix|..]) == value
  {
    TrimPadded(JsSpace, " ", value, "");
    assert (prefix + " " + value)[|prefix|..] == " " + value + "";
  }

  /** The last printed data line, and what parsing it behind other lines adds. */
  lemma LastDataLineParses(lines: seq<string>, data: seq<string>) returns (line: string)
    requires data != [] && Trimmed(JsSpace, data[|data| - 1])
    ensures PrintData(data) == PrintData(data[..|data| - 1]) + [line]
    ensures EventName(lines + [line]) == EventName(lines)
    ensures DataLines(lines + [line]) == DataLines(lines) + [data[|data| - 1]]
  {
    hide Trim, JsSpace;
    line := DATA + " " + data[|data| - 1];
    PrintedFieldParses(DATA, data[|data| - 1]);
    assert (lines + [line])[..|lines|] == lines;
    assert line[0] == 'd' && EVENT[0] == 'e';
  }

  lemma NameLineParses(name: string)
    requires Trimmed(JsSpace, name)
    ensures EventName([EVENT + " " + name]) == name && DataLines([EVENT + " " + name]) == []
  {
    hide Trim, JsSpace;
    var head := EVENT + " " + name;
    PrintedFieldParses(EVENT, name);
    assert head[0] == 'e' && DATA[0] == 'd';
    assert DataLines([head][..0]) == [];
  }

  lemma {:induction false} PrintedLinesParse(name: string, data: seq<string>)
    requires Trimmed(JsSpace, name) && forall l | l in data :: Trimmed(JsSpace, l)
    ensures var lines := [EVENT + " " + name] + PrintData(data); EventName(lines) == name && DataLines(lines) == data
    decreases |data|
  {
    hide Trim, JsSpace, Trimmed;
    var head := EVENT + " " + name;
    if data == [] {
      NameLineParses(name);
      assert [head] + PrintData(data) == [head] && data == DataLines([head]);
    } else {
      hide EventName, DataLines, PrintData;
      var front := data[..|data| - 1];
      var before := [head] + PrintData(front);
      PrintedLinesParse(name, front);
      var line := LastDataLineParses(before, data);
      assert [head] + PrintData(data) == before + [line];
      assert data == front + [data[|data| - 1]];
    }
  }

  lemma {:induction false} PrintedDataIsPlain(data: seq<string>)
    requires forall l | l in data :: '\n' !in l
    ensures forall l | l in PrintData(data) :: '\n' !in l && l != ""
    decreases |data|
  {
    if data != [] { PrintedDataIsPlain(data[..|data| - 1]); }
  }

  lemma {:induction false} JoinedLinesAreFrame(lines: seq<string>)
    requires |lines| > 0 && forall l | l in lines :: '\n' !in l && l != ""
    ensures Frame(Join(lines, "\n")) && Join(lines, "\n") != "" && Join(lines, "\n")[0] != '\n'
    decreases |lines|
  {
    var f := Join(lines, "\n");
    assert lines[0] in lines;
    assert lines[0][0] in lines[0];
    if |lines| > 1 {
      var tail := Join(lines[1..], "\n");
      assert forall l | l in lines[1..] :: l in lines;
      JoinedLinesAreFrame(lines[1..]);
      var n := |lines[0]|;
      forall i: nat | i < |f + "\n"| ensures !BlankLineAt(f + "\n", i) {
        if i < n {
          assert (f + "\n")[i] == lines[0][i];
        } else if i > n {
          assert BlankLineAt(f + "\n", i) == BlankLineAt(tail + "\n", i - n - 1);
        } else {
          assert (f + "\n")[n + 1] == tail[0];
        }
      }
    } else {
      forall i: nat | i < |f + "\n"| ensures !BlankLineAt(f + "\n", i) {
        if i < |f| { assert f[i] in f; }
      }
    }
  }

  /** One printed event is one frame, and the frame dispatches the event. */
  lemma PrintIsOneFrame(e: Event)
    requires WellFormed(e)
    ensures Frame(Join(PrintLines(e), "\n"))
    ensures Dispatch(Join(PrintLines(e), "\n")) == [e]
  {
    var data := Split(e.data, '\n');
    JoinSplit(e.data, '\n');
    PrintedDataIsPlain(data);
    var lines := PrintLines(e);
    assert lines[0] == EVENT + " " + e.name;
    JoinedLinesAreFrame(lines);
    SplitJoin(lines, '\n');
    PrintedLinesParse(e.name, data);
  }

  lemma FirstFrameLeads(f: string, tail: string)
    requires Frame(f)
    ensures Events(f + "\n\n" + tail) == Dispatch(f) + Events(tail)
    ensures Rest(f + "\n\n" + tail) == Rest(tail)
  {
    var text := f + "\n\n" + tail;
    FirstFrameIsForced(f, tail);
    CutOne([], text);
    assert text[..|f|] == f && text[|f| + 2..] == tail;
  }

  lemma {:induction false} PrintedEventsComeBack(events: seq<Event>)
    requires forall e | e in events :: WellFormed(e)
    ensures Events(PrintAll(events)) == events && Rest(PrintAll(events)) == ""
    decreases |events|
  {
    if events != [] {
      var e, more := events[0], events[1..];
      var f, tail := Join(PrintLines(e), "\n"), PrintAll(more);
      PrintIsOneFrame(e);
      PrintedEventsComeBack(more);
      FirstFrameLeads(f, tail);
      assert PrintAll(events) == f + "\n\n" + tail;
      assert [e] + more == events;
    }
  }

  /** A list of events comes back from its printed form, whatever the chunks, exactly when
      every event in it is well formed. */
  lemma RoundTrip(events: seq<Event>, chunks: seq<string>)
    requires Concat(chunks) == PrintAll(events)
    ensures Events(Concat(chunks)) == events <==> forall e | e in events :: WellFormed(e)
  {
    if forall e | e in events :: WellFormed(e) {
      PrintedEventsComeBack(events);
    } else if Events(PrintAll(events)) == events {
      var e :| e in events && !WellFormed(e);
      EventsAreWellFormed(Frames(PrintAll(events)), e);
    }
  }

  /** What the chat endpoint sends for one event: the data is a single line of JSON. */
  function SseEvent(name: string, json: string): string {
    "event: " + name + "\n" + ("data: " + json) + "\n\n"
  }

  function ServerText(sent: seq<Event>): string {
    if sent == [] then "" else SseEvent(sent[0].name, sent[0].data) + ServerText(sent[1..])
  }

  /** What the server sends: a name of letters, and a JSON object on one line. */
  predicate Sendable(e: Event) {
    && (forall i | 0 <= i < |e.name| :: 'a' <= e.name[i] <= 'z' || 'A' <= e.name[i] <= 'Z')
    && |e.data| >= 2 && e.data[0] == '{' && e.data[|e.data| - 1] == '}' && '\n' !in e.data
  }

  /** A name of the characters 65 to 90 and 97 to 122, and anything on one line between braces. */
  lemma SendableIs(name: string, json: string)
    ensures Sendable(Event(name, json)) <==>
      && (forall c: char :: c in name ==> 65 <= c as int <= 90 || 97 <= c as int <= 122)
      && exists body: string :: json == "{" + body + "}" && forall c: char :: c in body ==> c as int != 10
  {
    assert forall i | 0 <= i < |name| :: name[i] in name;
    if Sendable(Event(name, json)) {
      var body := json[1..|json| - 1];
      assert json == "{" + body + "}" && forall c: char | c in body :: c in json;
      forall c: char | c in name ensures 65 <= c as int <= 90 || 97 <= c as int <= 122 {
        var i :| 0 <= i < |name| && name[i] == c;
      }
    }
  }

  lemma SseEventIsPrint(name: string, json: string)
    requires '\n' !in json
    ensures SseEvent(name, json) == Print(Event(name, json))
  {
    SplitNone(json, '\n');
    var line := DATA + " " + json;
    var lines := PrintLines(Event(name, json));
    assert PrintData([json]) == [line] by { assert [json][..0] == []; }
    assert lines[0] == EVENT + " " + name && lines[1..] == [line];
    assert Join(lines, "\n") == lines[0] + "\n" + Join([line], "\n");
    assert "event: " == EVENT + " " && "data: " == DATA + " ";
  }

  lemma SendableIsWellFormed(e: Event)
    requires Sendable(e)
    ensures WellFormed(e)
  {
    SplitNone(e.data, '\n');
    assert e.name != "" ==> !JsSpace(e.name[0]) && !JsSpace(e.name[|e.name| - 1]);
  }

  lemma {:induction false} ServerTextIsPrint(sent: seq<Event>)
    requires forall e | e in sent :: Sendable(e)
    ensures ServerText(sent) == PrintAll(sent)
    decreases |sent|
  {
    hide Print, SseEvent;
    if sent != [] {
      assert sent[0] in sent;
      SseEventIsPrint(sent[0].name, sent[0].data);
      ServerTextIsPrint(sent[1..]);
    }
  }

  /** Whatever the server sends is dispatched unchanged, however the network cuts it. */
  lemma ServerEventsArrive(sent: seq<Event>, chunks: seq<string>)
    requires forall e | e in sent :: Sendable(e)
    requires Concat(chunks) == ServerText(sent)
    ensures Events(Concat(chunks)) == sent && Rest(Concat(chunks)) == ""
  {
    hide WellFormed, Sendable;
    forall e | e in sent ensures WellFormed(e) { SendableIsWellFormed(e); }
    ServerTextIsPrint(sent);
    PrintedEventsComeBack(sent);
  }
}
