/** The incremental server-sent-events parser, against a whole-text reading of the
    same input. Deviations from section 9.2.6 of the WHATWG HTML Living Standard
    are kept as coded: every leading white space of a value is trimmed, a line
    ends only at a line feed, and an unfinished last event is emitted. */
module EventStream {
  import opened Options

  datatype StreamEvent = StreamEvent(id: Option<string>, event: string, data: string)

  /** The accumulators: `currentId`, `currentEvent`, `dataLines`. */
  datatype Fields = Fields(id: Option<string>, event: string, data: seq<string>)

  const NO_FIELDS := Fields(None, "", [])

  // ----- Text -----

  /** The characters `trimStart` removes. */
  predicate IsSpace(c: char) {
    var n := c as int;
    0x09 <= n <= 0x0D || n == 0x20 || n == 0xA0 || n == 0x1680 || 0x2000 <= n <= 0x200A
    || n == 0x2028 || n == 0x2029 || n == 0x202F || n == 0x205F || n == 0x3000 || n == 0xFEFF
  }

  /** White space and line terminators as sections 12.2 and 12.3 of ECMA-262 list them. */
  lemma SpacesAre(c: char)
    ensures IsSpace(c) <==>
            c as int in {0x09, 0x0A, 0x0B, 0x0C, 0x0D, 0x20, 0xA0, 0x1680, 0x2000, 0x2001, 0x2002, 0x2003, 0x2004,
                         0x2005, 0x2006, 0x2007, 0x2008, 0x2009, 0x200A, 0x2028, 0x2029, 0x202F, 0x205F, 0x3000, 0xFEFF}
  {
  }

  function TrimStart(s: string): string {
    if s != "" && IsSpace(s[0]) then TrimStart(s[1..]) else s
  }

  function ConsLine(c: char, lines: seq<string>): (r: seq<string>)
    requires lines != []
    ensures r != []
  {
    [[c] + lines[0]] + lines[1..]
  }

  /** `s.split('\n')`: never empty. */
  function Split(s: string): (lines: seq<string>)
    ensures lines != []
  {
    if s == "" then [""]
    else
      var rest := Split(s[1..]);
      if s[0] == '\n' then [""] + rest else ConsLine(s[0], rest)
  }

  /** `lines.join('\n')`. */
  function Join(lines: seq<string>): string {
    if lines == [] then "" else if |lines| == 1 then lines[0] else lines[0] + "\n" + Join(lines[1..])
  }

  function Front<T>(xs: seq<T>): seq<T>
    requires xs != []
  {
    xs[..|xs| - 1]
  }

  function Last<T>(xs: seq<T>): T
    requires xs != []
  {
    xs[|xs| - 1]
  }

  function DropCR(line: string): string {
    if line != "" && Last(line) == '\r' then Front(line) else line
  }

  predicate StartsWith(s: string, prefix: string) {
    prefix <= s
  }

  // ----- Lines and events -----

  /** One field line. Comments and unknown fields change nothing. */
  function FieldLine(f: Fields, line: string): Fields {
    if StartsWith(line, ":") then f
    else if StartsWith(line, "event:") then f.(event := TrimStart(line[6..]))
    else if StartsWith(line, "id:") then f.(id := Some(TrimStart(line[3..])))
    else if StartsWith(line, "data:") then f.(data := f.data + [TrimStart(line[5..])])
    else f
  }

  /** `emit`: nothing to emit leaves the accumulators, and so a lone id, alone. */
  function Emit(f: Fields): (Fields, seq<StreamEvent>) {
    if f.event == "" && f.data == [] then (f, [])
    else (NO_FIELDS, [StreamEvent(f.id, if f.event == "" then "message" else f.event, Join(f.data))])
  }

  function Line(f: Fields, rawLine: string): (Fields, seq<StreamEvent>) {
    var line := DropCR(rawLine);
    if line == "" then Emit(f) else (FieldLine(f, line), [])
  }

  function Lines(f: Fields, rawLines: seq<string>): (Fields, seq<StreamEvent>) {
    if rawLines == [] then (f, [])
    else
      var (mid, events) := Lines(f, Front(rawLines));
      var (end, more) := Line(mid, Last(rawLines));
      (end, events + more)
  }

  /** The whole text at once: all complete lines, then what follows the last line feed, then a final emit. */
  function Parse(text: string): seq<StreamEvent> {
    var lines := Split(text);
    var (f, events) := Lines(NO_FIELDS, Front(lines));
    events + Emit(FieldLine(f, DropCR(Last(lines)))).1
  }

  function Concat(chunks: seq<string>): string {
    if chunks == [] then "" else Concat(Front(chunks)) + Last(chunks)
  }

  // ----- Chunks -----

  lemma SplitCons(c: char, s: string)
    ensures Split([c] + s) == if c == '\n' then [""] + Split(s) else ConsLine(c, Split(s))
  {
    assert ([c] + s)[1..] == s;
  }

  lemma LastOfCons(c: char, lines: seq<string>, more: seq<string>)
    requires lines != [] && more != []
    ensures Last([""] + lines) == Last(lines) && Front([""] + lines) == [""] + Front(lines)
    ensures |lines| > 1 ==> Last(ConsLine(c, lines)) == Last(lines)
    ensures |lines| > 1 ==> Front(ConsLine(c, lines)) + more == ConsLine(c, Front(lines) + more)
    ensures |lines| == 1 ==> Last(ConsLine(c, lines)) == [c] + Last(lines) && Front(ConsLine(c, lines)) + more == more
  {
  }

  /** Splitting a longer text only continues the last line. */
  lemma {:induction false} SplitAppend(a: string, b: string)
    ensures Split(a + b) == Front(Split(a)) + Split(Last(Split(a)) + b)
  {
    hide Split, ConsLine;
    if a == "" {
      SplitNothing();
      assert a + b == b && Last(Split(a)) + b == b && Front(Split(a)) == [];
    } else {
      var c, rest := a[0], a[1..];
      SplitAppend(rest, b);
      assert a == [c] + rest && a + b == [c] + (rest + b);
      SplitCons(c, rest);
      SplitCons(c, rest + b);
      var lines := Split(rest);
      var more := Split(Last(lines) + b);
      LastOfCons(c, lines, more);
      if c == '\n' {
        assert [""] + (Front(lines) + more) == [""] + Front(lines) + more;
      } else if |lines| == 1 {
        assert Front(lines) + more == more;
        assert [c] + Last(lines) + b == [c] + (Last(lines) + b);
        SplitCons(c, Last(lines) + b);
        LastOfCons(c, lines, Split([c] + Last(lines) + b));
      }
    }
  }

  lemma SplitNothing()
    ensures Split("") == [""]
  {
  }

  lemma {:induction false} LinesAppend(f: Fields, a: seq<string>, b: seq<string>)
    ensures var (mid, events) := Lines(f, a); var (end, more) := Lines(mid, b);
            Lines(f, a + b) == (end, events + more)
    decreases |b|
  {
    if b == [] {
      var events := Lines(f, a).1;
      assert a + b == a && events + [] == events;
    } else {
      LinesAppend(f, a, Front(b));
      assert Front(a + b) == a + Front(b) && Last(a + b) == Last(b);
      var (mid, events) := Lines(f, a);
      var (late, more) := Lines(mid, Front(b));
      var last := Line(late, Last(b)).1;
      assert events + more + last == events + (more + last);
    }
  }

  /** The parser's state after a text: the unfinished line, the accumulators, the events. */
  ghost predicate HasRead(text: string, buffer: string, f: Fields, events: seq<StreamEvent>) {
    buffer == Last(Split(text)) && (f, events) == Lines(NO_FIELDS, Front(Split(text)))
  }

  lemma ReadNothing()
    ensures HasRead(Concat([]), "", NO_FIELDS, [])
  {
  }

  lemma ReadMore(chunks: seq<string>, i: nat, buffer: string, f: Fields, events: seq<StreamEvent>)
    requires i < |chunks| && HasRead(Concat(chunks[..i]), buffer, f, events)
    ensures var lines := Split(buffer + chunks[i]);
            var (end, more) := Lines(f, Front(lines));
            HasRead(Concat(chunks[..i + 1]), Last(lines), end, events + more)
  {
    hide Split, Lines;
    var before := Concat(chunks[..i]);
    assert Front(chunks[..i + 1]) == chunks[..i] && Last(chunks[..i + 1]) == chunks[i];
    SplitAppend(before, chunks[i]);
    var complete, lines := Front(Split(before)), Split(buffer + chunks[i]);
    LinesAppend(NO_FIELDS, complete, Front(lines));
    assert Front(complete + lines) == complete + Front(lines) && Last(complete + lines) == Last(lines);
  }

  method ReadLines(f0: Fields, rawLines: seq<string>) returns (f: Fields, events: seq<StreamEvent>)
    ensures (f, events) == Lines(f0, rawLines)
  {
    f, events := f0, [];
    for j := 0 to |rawLines|
      invariant (f, events) == Lines(f0, rawLines[..j])
    {
      assert Front(rawLines[..j + 1]) == rawLines[..j];
      var (next, emitted) := Line(f, rawLines[j]);
      f, events := next, events + emitted;
    }
    assert rawLines[..|rawLines|] == rawLines;
  }

  /** The read loop. Whatever the chunks, it yields the events of the whole text read. */
  method ParseEventStream(chunks: seq<string>) returns (events: seq<StreamEvent>)
    ensures events == Parse(Concat(chunks))
  {
    hide HasRead, Split, Lines, Concat;
    var buffer, f := "", NO_FIELDS;
    events := [];
    ReadNothing();
    assert chunks[..0] == [];
    for i := 0 to |chunks|
      invariant HasRead(Concat(chunks[..i]), buffer, f, events)
    {
      ReadMore(chunks, i, buffer, f, events);
      buffer := buffer + chunks[i];
      var lines := Split(buffer);
      var emitted;
      f, emitted := ReadLines(f, Front(lines));
      events := events + emitted;
      buffer := Last(lines);
    }
    assert chunks[..|chunks|] == chunks;
    ReadAll(chunks, buffer, f, events);
    f := FieldLine(f, DropCR(buffer));
    events := events + Emit(f).1;
  }

  lemma ReadAll(chunks: seq<string>, buffer: string, f: Fields, events: seq<StreamEvent>)
    requires HasRead(Concat(chunks), buffer, f, events)
    ensures Parse(Concat(chunks)) == events + Emit(FieldLine(f, DropCR(buffer))).1
  {
  }

  // ----- A missing final newline -----

  predicate OneLine(s: string) {
    '\n' !in s
  }

  lemma {:induction false} SplitLineThen(line: string, rest: string)
    requires OneLine(line)
    ensures Split(line + "\n" + rest) == [line] + Split(rest)
  {
    hide Split;
    if line == "" {
      assert line + "\n" + rest == ['\n'] + rest;
      SplitCons('\n', rest);
    } else {
      SplitLineThen(line[1..], rest);
      assert line + "\n" + rest == [line[0]] + (line[1..] + "\n" + rest);
      SplitCons(line[0], line[1..] + "\n" + rest);
      assert [line[0]] + line[1..] == line;
    }
  }

  lemma {:induction false} SplitLinesAreLines(s: string)
    ensures forall line :: line in Split(s) ==> OneLine(line)
  {
    if s != "" {
      SplitLinesAreLines(s[1..]);
      assert OneLine(Split(s[1..])[0]);
    }
  }

  /** A missing final newline changes nothing, and neither does an extra one. */
  lemma FinalNewline(text: string)
    ensures Parse(text + "\n") == Parse(text)
  {
    hide Split, Lines;
    var lines := Split(text);
    var last := Last(lines);
    SplitLinesAreLines(text);
    SplitAppend(text, "\n");
    SplitLineThen(last, "");
    SplitNothing();
    assert last + "\n" + "" == last + "\n";
    assert lines == Front(lines) + [last];
    assert Split(text + "\n") == lines + [""];
    assert Front(lines + [""]) == lines;
    LinesAppend(NO_FIELDS, Front(lines), [last]);
    OneRawLine(Lines(NO_FIELDS, Front(lines)).0, last);
  }

  lemma OneRawLine(f: Fields, raw: string)
    ensures Lines(f, [raw]) == Line(f, raw)
  {
    assert Front([raw]) == [] && Lines(f, []) == (f, []);
    var events := Line(f, raw).1;
    assert [] + events == events;
  }

  // ----- What a block of lines says -----

  /** The line gives the field that value: its name, a colon, and the value behind any white space. A comment begins
      with the colon, so it gives no field. */
  ghost predicate Gives(line: string, name: string, value: string) {
    exists spaces: string ::
      (forall c :: c in spaces ==> IsSpace(c)) && (value != "" ==> !IsSpace(value[0]))
      && line == name + ":" + spaces + value
  }

  lemma {:induction false} TrimStartMeans(spaces: string, value: string)
    requires (forall c :: c in spaces ==> IsSpace(c)) && (value != "" ==> !IsSpace(value[0]))
    ensures TrimStart(spaces + value) == value
  {
    if spaces == "" {
      assert spaces + value == value;
    } else {
      assert spaces[0] in spaces && (spaces + value)[1..] == spaces[1..] + value;
      TrimStartMeans(spaces[1..], value);
    }
  }

  lemma {:induction false} TrimStartSplits(s: string) returns (spaces: string)
    ensures s == spaces + TrimStart(s) && forall c :: c in spaces ==> IsSpace(c)
    ensures TrimStart(s) != "" ==> !IsSpace(TrimStart(s)[0])
  {
    spaces := "";
    if s != "" && IsSpace(s[0]) {
      spaces := TrimStartSplits(s[1..]);
      spaces := [s[0]] + spaces;
    }
  }

  lemma GivesExactly(line: string, name: string, value: string)
    ensures Gives(line, name, value) <==>
            name + ":" <= line && value == TrimStart(line[|name| + 1..])
  {
    var prefix := name + ":";
    if prefix <= line {
      var tail := line[|prefix|..];
      assert line == prefix + tail;
      var spaces := TrimStartSplits(tail);
      assert prefix + (spaces + TrimStart(tail)) == prefix + spaces + TrimStart(tail);
    }
    if Gives(line, name, value) {
      var spaces: string :| (forall c :: c in spaces ==> IsSpace(c)) && (value != "" ==> !IsSpace(value[0]))
          && line == name + ":" + spaces + value;
      assert line == prefix + (spaces + value) && line[|prefix|..] == spaces + value;
      TrimStartMeans(spaces, value);
    }
  }

  /** The value that the lines give the field last, if any does. */
  ghost predicate LastGiven(lines: seq<string>, name: string, value: string) {
    exists i :: 0 <= i < |lines| && Gives(lines[i], name, value)
        && forall j, other :: i < j < |lines| ==> !Gives(lines[j], name, other)
  }

  ghost predicate NoneGiven(lines: seq<string>, name: string) {
    forall j, value :: 0 <= j < |lines| ==> !Gives(lines[j], name, value)
  }

  /** The values of the data lines, in order. */
  ghost predicate DataGiven(lines: seq<string>, values: seq<string>) {
    if lines == [] then values == []
    else if exists value :: Gives(Last(lines), "data", value)
    then values != [] && Gives(Last(lines), "data", Last(values)) && DataGiven(Front(lines), Front(values))
    else DataGiven(Front(lines), values)
  }

  /** The accumulators after a block say exactly what its lines give. */
  ghost predicate Says(f: Fields, lines: seq<string>) {
    && (if f.id.Some? then LastGiven(lines, "id", f.id.value) else NoneGiven(lines, "id"))
    && (LastGiven(lines, "event", f.event) || (f.event == "" && NoneGiven(lines, "event")))
    && DataGiven(lines, f.data)
  }

  lemma OneFieldPerLine(line: string)
    ensures !("event:" <= line && "id:" <= line) && !("event:" <= line && "data:" <= line)
    ensures !("id:" <= line && "data:" <= line)
    ensures StartsWith(line, ":") ==> !("event:" <= line) && !("id:" <= line) && !("data:" <= line)
  {
    assert "event:"[0] == 'e' && "id:"[0] == 'i' && "data:"[0] == 'd' && ":"[0] == ':';
  }

  lemma SaysMore(f: Fields, lines: seq<string>, line: string)
    requires Says(f, lines)
    ensures Says(FieldLine(f, line), lines + [line])
  {
    var longer, g := lines + [line], FieldLine(f, line);
    assert Front(longer) == lines && Last(longer) == line;
    OneFieldPerLine(line);
    assert "event" + ":" == "event:" && "id" + ":" == "id:" && "data" + ":" == "data:";
    forall value ensures Gives(line, "event", value) <==> "event:" <= line && value == TrimStart(line[6..]) {
      GivesExactly(line, "event", value);
    }
    forall value ensures Gives(line, "id", value) <==> "id:" <= line && value == TrimStart(line[3..]) {
      GivesExactly(line, "id", value);
    }
    forall value ensures Gives(line, "data", value) <==> "data:" <= line && value == TrimStart(line[5..]) {
      GivesExactly(line, "data", value);
    }
    hide Gives, TrimStart;
    GivenLater(lines, line, "id");
    GivenLater(lines, line, "event");
    if "data:" <= line {
      assert Gives(line, "data", TrimStart(line[5..]));
      assert Front(g.data) == f.data;
    }
    hide DataGiven, LastGiven, NoneGiven;
  }

  lemma GivenLater(lines: seq<string>, line: string, name: string)
    ensures forall value :: Gives(line, name, value) ==> LastGiven(lines + [line], name, value)
    ensures (forall value :: !Gives(line, name, value)) ==>
              && (NoneGiven(lines, name) ==> NoneGiven(lines + [line], name))
              && forall value :: LastGiven(lines, name, value) ==> LastGiven(lines + [line], name, value)
  {
    hide Gives;
    var longer := lines + [line];
    forall value | Gives(line, name, value) ensures LastGiven(longer, name, value) {
      assert longer[|lines|] == line;
    }
    if forall value :: !Gives(line, name, value) {
      forall value | LastGiven(lines, name, value) ensures LastGiven(longer, name, value) {
        var i :| 0 <= i < |lines| && Gives(lines[i], name, value)
            && forall j, other :: i < j < |lines| ==> !Gives(lines[j], name, other);
        assert longer[i] == lines[i];
        forall j, other | i < j < |longer| ensures !Gives(longer[j], name, other) {
          assert longer[j] == if j < |lines| then lines[j] else line;
        }
      }
    }
  }

  /** A block without blank lines, read from the start or after an event, leaves the accumulators that its lines
      describe, whatever comments and unknown fields stand between. */
  lemma {:induction false} BlockIsRead(rawLines: seq<string>, lines: seq<string>)
    requires |lines| == |rawLines|
    requires forall i :: 0 <= i < |rawLines| ==> lines[i] == DropCR(rawLines[i]) && lines[i] != ""
    ensures Says(Lines(NO_FIELDS, rawLines).0, lines) && Lines(NO_FIELDS, rawLines).1 == []
    decreases |rawLines|
  {
    hide FieldLine, Says;
    if rawLines == [] {
      NothingSaid();
    } else {
      BlockIsRead(Front(rawLines), Front(lines));
      SaysMore(Lines(NO_FIELDS, Front(rawLines)).0, Front(lines), Last(lines));
      assert lines == Front(lines) + [Last(lines)];
    }
  }

  lemma NothingSaid()
    ensures Says(NO_FIELDS, [])
  {
  }

  /** A blank line after such a block: the event that the block describes, called a message when it is not named, its
      data lines joined by line feeds; or nothing, and the id is kept, when the block has neither name nor data. */
  lemma BlankLineEmits(f: Fields, blank: string)
    requires blank == "" || blank == "\r"
    ensures var (g, events) := Line(f, blank);
            if f.event != "" || f.data != [] then
              && g.id.None? && g.event == "" && g.data == [] && |events| == 1
              && events[0].id == f.id && events[0].event == (if f.event == "" then "message" else f.event)
              && (f.data != [] && (forall d <- f.data :: OneLine(d)) ==> Split(events[0].data) == f.data)
              && (f.data == [] ==> events[0].data == "")
            else g == f && events == []
  {
    hide Split;
    if f.data != [] && forall d <- f.data :: OneLine(d) {
      SplitJoin(f.data);
    }
  }

  // ----- Printing -----

  /** A value some field line can carry: one line that does not start with white
      space, nor, where lines end in a bare line feed, end in a carriage return. */
  predicate Carried(v: string, cr: bool) {
    OneLine(v) && (v != "" ==> !IsSpace(v[0]) && (cr || Last(v) != '\r'))
  }

  ghost predicate WellFormed(e: StreamEvent, cr: bool) {
    && (e.id.Some? ==> Carried(e.id.value, cr))
    && e.event != "" && Carried(e.event, cr)
    && forall line :: line in Split(e.data) ==> Carried(line, cr)
  }

  /** A line without its line feed. */
  function Raw(line: string, cr: bool): string {
    if cr then line + "\r" else line
  }

  function DataLines(lines: seq<string>, cr: bool): seq<string> {
    if lines == [] then [] else DataLines(Front(lines), cr) + [Raw("data: " + Last(lines), cr)]
  }

  function EventLines(e: StreamEvent, cr: bool): seq<string> {
    (if e.id.Some? then [Raw("id: " + e.id.value, cr)] else [])
    + [Raw("event: " + e.event, cr)] + DataLines(Split(e.data), cr) + [Raw("", cr)]
  }

  function AllLines(es: seq<StreamEvent>, cr: bool): seq<string> {
    if es == [] then [] else AllLines(Front(es), cr) + EventLines(Last(es), cr)
  }

  /** Each line followed by a line feed. */
  function Terminated(lines: seq<string>): string {
    if lines == [] then "" else lines[0] + "\n" + Terminated(lines[1..])
  }

  function Print(es: seq<StreamEvent>, cr: bool): string {
    Terminated(AllLines(es, cr))
  }

  lemma {:induction false} SplitTerminated(lines: seq<string>)
    requires forall line :: line in lines ==> OneLine(line)
    ensures Split(Terminated(lines)) == lines + [""]
  {
    if lines != [] {
      SplitTerminated(lines[1..]);
      SplitLineThen(lines[0], Terminated(lines[1..]));
      assert [lines[0]] + (lines[1..] + [""]) == lines + [""];
    }
  }

  lemma DropPrinted(line: string, cr: bool)
    requires line == "" || cr || Last(line) != '\r'
    ensures DropCR(Raw(line, cr)) == line
  {
    if cr {
      assert Last(line + "\r") == '\r' && Front(line + "\r") == line;
    }
  }

  lemma TrimPrinted(v: string)
    requires v != "" ==> !IsSpace(v[0])
    ensures TrimStart(" " + v) == v
  {
    assert (" " + v)[1..] == v && IsSpace(' ');
  }

  lemma EventLine(f: Fields, v: string, cr: bool)
    requires Carried(v, cr)
    ensures Line(f, Raw("event: " + v, cr)) == (f.(event := v), [])
  {
    var line := "event: " + v;
    assert v != "" ==> Last(line) == Last(v);
    DropPrinted(line, cr);
    assert "event:" <= line && line[0] == 'e' && line[6..] == " " + v;
    TrimPrinted(v);
  }

  lemma IdLine(f: Fields, v: string, cr: bool)
    requires Carried(v, cr)
    ensures Line(f, Raw("id: " + v, cr)) == (f.(id := Some(v)), [])
  {
    var line := "id: " + v;
    assert v != "" ==> Last(line) == Last(v);
    DropPrinted(line, cr);
    assert "id:" <= line && line[0] == 'i' && line[3..] == " " + v;
    TrimPrinted(v);
  }

  lemma DataLine(f: Fields, v: string, cr: bool)
    requires Carried(v, cr)
    ensures Line(f, Raw("data: " + v, cr)) == (f.(data := f.data + [v]), [])
  {
    var line := "data: " + v;
    assert v != "" ==> Last(line) == Last(v);
    DropPrinted(line, cr);
    assert "data:" <= line && line[0] == 'd' && line[5..] == " " + v;
    TrimPrinted(v);
  }

  lemma {:induction false} ReadDataLines(f: Fields, lines: seq<string>, cr: bool)
    requires forall line :: line in lines ==> Carried(line, cr)
    ensures Lines(f, DataLines(lines, cr)) == (f.(data := f.data + lines), [])
  {
    hide Line, Carried;
    if lines == [] {
      assert f.data + lines == f.data;
    } else {
      var front, last := Front(lines), Last(lines);
      assert lines == front + [last];
      ReadDataLines(f, front, cr);
      DataLine(f.(data := f.data + front), last, cr);
      assert f.data + front + [last] == f.data + lines;
      var raws := DataLines(lines, cr);
      assert Front(raws) == DataLines(front, cr) && Last(raws) == Raw("data: " + last, cr);
      var none: seq<StreamEvent> := [];
      assert none + none == none;
    }
  }

  lemma {:induction false} JoinSplit(s: string)
    ensures Join(Split(s)) == s
  {
    if s != "" {
      JoinSplit(s[1..]);
      var rest := Split(s[1..]);
      if s[0] == '\n' {
        assert ([""] + rest)[1..] == rest;
      } else {
        assert ConsLine(s[0], rest)[1..] == rest[1..];
      }
    }
  }

  lemma {:induction false} SplitJoin(lines: seq<string>)
    requires lines != [] && forall line :: line in lines ==> OneLine(line)
    ensures Split(Join(lines)) == lines
  {
    if |lines| == 1 {
      SplitLineThen(lines[0], "");
      SplitAppend(lines[0], "\n");
      SplitOneLine(lines[0]);
    } else {
      SplitJoin(lines[1..]);
      SplitLineThen(lines[0], Join(lines[1..]));
    }
  }

  lemma {:induction false} SplitOneLine(line: string)
    requires OneLine(line)
    ensures Split(line) == [line]
  {
    if line != "" {
      SplitOneLine(line[1..]);
      assert [line[0]] + line[1..] == line;
    }
  }

  lemma ReadEvent(e: StreamEvent, cr: bool)
    requires WellFormed(e, cr)
    ensures Lines(NO_FIELDS, EventLines(e, cr)) == (NO_FIELDS, [e])
  {
    hide Line, Carried, Lines, Split, DataLines, Emit;
    var ids := if e.id.Some? then [Raw("id: " + e.id.value, cr)] else [];
    var f1 := NO_FIELDS.(id := e.id);
    assert Lines(NO_FIELDS, ids) == (f1, []) by {
      if e.id.Some? {
        OneRawLine(NO_FIELDS, ids[0]);
        IdLine(NO_FIELDS, e.id.value, cr);
      } else {
        NoLines(NO_FIELDS);
      }
    }
    var event, data, blank := [Raw("event: " + e.event, cr)], DataLines(Split(e.data), cr), [Raw("", cr)];
    var f2 := f1.(event := e.event);
    OneRawLine(f1, event[0]);
    EventLine(f1, e.event, cr);
    LinesAppend(NO_FIELDS, ids, event);
    ReadDataLines(f2, Split(e.data), cr);
    LinesAppend(NO_FIELDS, ids + event, data);
    var f3 := f2.(data := Split(e.data));
    assert [] + Split(e.data) == Split(e.data);
    OneRawLine(f3, blank[0]);
    BlankLine(f3, cr);
    LinesAppend(NO_FIELDS, ids + event + data, blank);
    JoinSplit(e.data);
    EmitFull(f3);
    assert EventLines(e, cr) == ids + event + data + blank;
    var none: seq<StreamEvent> := [];
    assert none + none == none && none + [e] == [e];
  }

  lemma NoLines(f: Fields)
    ensures Lines(f, []) == (f, [])
  {
  }

  lemma BlankLine(f: Fields, cr: bool)
    ensures Line(f, Raw("", cr)) == Emit(f)
  {
    DropPrinted("", cr);
  }

  lemma EmitFull(f: Fields)
    requires f.event != ""
    ensures Emit(f) == (NO_FIELDS, [StreamEvent(f.id, f.event, Join(f.data))])
  {
  }

  lemma {:induction false} ReadAllLines(es: seq<StreamEvent>, cr: bool)
    requires forall e :: e in es ==> WellFormed(e, cr)
    ensures Lines(NO_FIELDS, AllLines(es, cr)) == (NO_FIELDS, es)
  {
    hide Lines, EventLines, WellFormed;
    if es == [] {
      NoLines(NO_FIELDS);
    } else {
      ReadAllLines(Front(es), cr);
      ReadEvent(Last(es), cr);
      LinesAppend(NO_FIELDS, AllLines(Front(es), cr), EventLines(Last(es), cr));
      assert Front(es) + [Last(es)] == es;
    }
  }

  lemma {:induction false} PrintedDataIsLines(lines: seq<string>, cr: bool)
    requires forall line :: line in lines ==> Carried(line, cr)
    ensures forall line :: line in DataLines(lines, cr) ==> OneLine(line)
  {
    if lines != [] {
      PrintedDataIsLines(Front(lines), cr);
      assert Last(lines) in lines;
    }
  }

  lemma {:induction false} PrintedIsLines(es: seq<StreamEvent>, cr: bool)
    requires forall e :: e in es ==> WellFormed(e, cr)
    ensures forall line :: line in AllLines(es, cr) ==> OneLine(line)
  {
    if es != [] {
      PrintedIsLines(Front(es), cr);
      var e := Last(es);
      assert WellFormed(e, cr);
      PrintedDataIsLines(Split(e.data), cr);
      forall line | line in EventLines(e, cr) ensures OneLine(line) {
      }
    }
  }

  /** Printing well-formed events in the field format, with either line ending, and parsing gives them back. */
  lemma PrintThenParse(es: seq<StreamEvent>, cr: bool)
    requires forall e :: e in es ==> WellFormed(e, cr)
    ensures Parse(Print(es, cr)) == es
  {
    hide Split, Lines, AllLines, WellFormed;
    var lines := AllLines(es, cr);
    PrintedIsLines(es, cr);
    SplitTerminated(lines);
    assert Front(lines + [""]) == lines;
    ReadAllLines(es, cr);
  }

  // ----- Everything the parser yields can be printed -----

  ghost predicate Clean(f: Fields) {
    && (f.id.Some? ==> Carried(f.id.value, true)) && Carried(f.event, true)
    && forall line :: line in f.data ==> Carried(line, true)
  }

  lemma {:induction false} TrimIsCarried(s: string)
    requires OneLine(s)
    ensures Carried(TrimStart(s), true)
  {
    if s != "" && IsSpace(s[0]) {
      TrimIsCarried(s[1..]);
    }
  }

  lemma LineStaysClean(f: Fields, raw: string)
    requires Clean(f) && OneLine(raw)
    ensures var (next, events) := Line(f, raw); Clean(next) && forall e :: e in events ==> WellFormed(e, true)
  {
    var line := DropCR(raw);
    if line == "" {
      EmitIsWellFormed(f);
    } else {
      FieldStaysClean(f, line);
    }
  }

  lemma OneLineDrop(raw: string)
    requires OneLine(raw)
    ensures OneLine(DropCR(raw))
  {
  }

  lemma FieldStaysClean(f: Fields, line: string)
    requires Clean(f) && OneLine(line)
    ensures Clean(FieldLine(f, line))
  {
    if StartsWith(line, "event:") {
      TrimIsCarried(line[6..]);
    } else if StartsWith(line, "id:") {
      TrimIsCarried(line[3..]);
    } else if StartsWith(line, "data:") {
      TrimIsCarried(line[5..]);
    }
  }

  lemma EmitIsWellFormed(f: Fields)
    requires Clean(f)
    ensures Clean(Emit(f).0) && forall e :: e in Emit(f).1 ==> WellFormed(e, true)
  {
    if f.data == [] {
      SplitNothing();
    } else {
      SplitJoin(f.data);
    }
    assert Carried("message", true);
  }

  lemma {:induction false} LinesStayClean(f: Fields, raws: seq<string>)
    requires Clean(f) && forall raw :: raw in raws ==> OneLine(raw)
    ensures var (next, events) := Lines(f, raws); Clean(next) && forall e :: e in events ==> WellFormed(e, true)
  {
    hide Clean, WellFormed, Line;
    if raws != [] {
      LinesStayClean(f, Front(raws));
      LineStaysClean(Lines(f, Front(raws)).0, Last(raws));
    }
  }

  /** Whatever was parsed survives printing (with carriage returns) and parsing again. */
  lemma ParseThenPrint(text: string)
    ensures forall e :: e in Parse(text) ==> WellFormed(e, true)
    ensures Parse(Print(Parse(text), true)) == Parse(text)
  {
    hide Split, Lines, WellFormed, Emit, FieldLine;
    var lines := Split(text);
    SplitLinesAreLines(text);
    assert Clean(NO_FIELDS);
    hide Clean;
    LinesStayClean(NO_FIELDS, Front(lines));
    var f := Lines(NO_FIELDS, Front(lines)).0;
    assert Last(lines) in lines;
    OneLineDrop(Last(lines));
    FieldStaysClean(f, DropCR(Last(lines)));
    EmitIsWellFormed(FieldLine(f, DropCR(Last(lines))));
    PrintThenParse(Parse(text), true);
  }
}
