/** `_parse_sse`: the data events of a server-sent event stream.  The JSON decoder is a parameter. */
module EventStream {

  datatype Decoded<V> = NotJson | NotAnObject | Object(value: V)

  datatype Parsed<V> = Events(values: seq<V>) | InvalidJson | RootNotAnObject | NoDataEvents

  // ---- Text and lines ----

  /** `replace("\r\n", "\n")` */
  function CollapsePairs(text: string): string {
    if |text| <= 1 then text
    else if text[0] == '\r' && text[1] == '\n' then "\n" + CollapsePairs(text[2..])
    else [text[0]] + CollapsePairs(text[1..])
  }

  /** `replace("\r", "\n")` */
  function ReplaceReturns(text: string): string {
    if text == "" then "" else [if text[0] == '\r' then '\n' else text[0]] + ReplaceReturns(text[1..])
  }

  function Normalise(text: string): string {
    ReplaceReturns(CollapsePairs(text))
  }

  /** `split("\n")` */
  function Split(text: string): (lines: seq<string>)
    ensures lines != []
  {
    if text == "" then [""]
    else
      var rest := Split(text[1..]);
      if text[0] == '\n' then [""] + rest else [[text[0]] + rest[0]] + rest[1..]
  }

  function Join(separator: string, lines: seq<string>): string {
    if lines == [] then ""
    else if |lines| == 1 then lines[0]
    else lines[0] + separator + Join(separator, lines[1..])
  }

  predicate OneLine(text: string) {
    forall i :: 0 <= i < |text| ==> text[i] != '\r' && text[i] != '\n'
  }

  predicate OneLineEach(lines: seq<string>) {
    forall i :: 0 <= i < |lines| ==> OneLine(lines[i])
  }

  /** The three line endings of the format. */
  predicate Ending(e: string) {
    e == "\n" || e == "\r\n" || e == "\r"
  }

  lemma CollapseChar(c: char, rest: string)
    requires c != '\r'
    ensures CollapsePairs([c] + rest) == [c] + CollapsePairs(rest)
  {
    assert ([c] + rest)[1..] == rest;
    if rest == "" {
      assert [c] + rest == [c];
    }
  }

  lemma {:induction false} CollapseLine(line: string, rest: string)
    requires OneLine(line)
    ensures CollapsePairs(line + rest) == line + CollapsePairs(rest)
  {
    if line == "" {
      assert line + rest == rest;
    } else {
      var tail := line[1..];
      assert line + rest == [line[0]] + (tail + rest);
      CollapseChar(line[0], tail + rest);
      CollapseLine(tail, rest);
      assert [line[0]] + (tail + CollapsePairs(rest)) == line + CollapsePairs(rest);
    }
  }

  lemma {:induction false} ReplaceLine(line: string, rest: string)
    requires OneLine(line)
    ensures ReplaceReturns(line + rest) == line + ReplaceReturns(rest)
  {
    if line == "" {
      assert line + rest == rest;
    } else {
      assert (line + rest)[1..] == line[1..] + rest;
      ReplaceLine(line[1..], rest);
    }
  }

  lemma {:induction false} SplitLine(line: string, rest: string)
    requires OneLine(line)
    ensures Split(line + "\n" + rest) == [line] + Split(rest)
  {
    var all := line + "\n" + rest;
    if line == "" {
      assert all[1..] == rest;
    } else {
      assert all[1..] == line[1..] + "\n" + rest;
      SplitLine(line[1..], rest);
      assert line == [line[0]] + line[1..];
    }
  }

  lemma {:induction false} SplitLast(line: string)
    requires OneLine(line)
    ensures Split(line) == [line]
  {
    if line == "" {
    } else {
      SplitLast(line[1..]);
      assert line == [line[0]] + line[1..];
    }
  }

  /** A text that does not begin with a line feed stays apart from a carriage return in front of it. */
  lemma {:induction false} CollapseReturn(rest: string)
    requires rest == "" || rest[0] != '\n'
    ensures CollapsePairs("\r" + rest) == "\r" + CollapsePairs(rest)
  {
    assert ("\r" + rest)[1..] == rest;
    if rest == "" {
      assert "\r" + rest == "\r";
    }
  }

  lemma CollapseEnding(e: string, rest: string)
    requires Ending(e) && (e == "\r" ==> rest == "" || rest[0] != '\n')
    ensures ReplaceReturns(CollapsePairs(e + rest)) == "\n" + Normalise(rest)
  {
    if e == "\r\n" {
      assert (e + rest)[2..] == rest;
      assert ReplaceReturns("\n" + CollapsePairs(rest)) == "\n" + Normalise(rest) by {
        assert ("\n" + CollapsePairs(rest))[1..] == CollapsePairs(rest);
      }
    } else if e == "\r" {
      CollapseReturn(rest);
      assert ("\r" + CollapsePairs(rest))[1..] == CollapsePairs(rest);
    } else {
      assert (e + rest)[1..] == rest;
      if rest == "" {
        assert e + rest == e;
      }
      assert ("\n" + CollapsePairs(rest))[1..] == CollapsePairs(rest);
    }
  }

  lemma JoinStart(e: string, lines: seq<string>)
    requires Ending(e) && OneLineEach(lines) && e == "\r"
    ensures Join(e, lines) == "" || Join(e, lines)[0] != '\n'
  {
    if |lines| > 1 {
      assert lines[0] == "" ==> Join(e, lines)[0] == '\r';
      assert lines[0] != "" ==> Join(e, lines)[0] == lines[0][0];
    }
  }

  /** Joining lines with any one ending and splitting again gives the lines back. */
  lemma {:induction false} SplitJoin(e: string, lines: seq<string>)
    requires Ending(e) && lines != [] && OneLineEach(lines)
    ensures Split(Normalise(Join(e, lines))) == lines
  {
    if |lines| == 1 {
      var line := lines[0];
      CollapseLine(line, "");
      ReplaceLine(line, "");
      assert line + "" == line;
      SplitLast(line);
    } else {
      var line, rest := lines[0], Join(e, lines[1..]);
      SplitJoin(e, lines[1..]);
      if e == "\r" {
        JoinStart(e, lines[1..]);
      }
      assert Join(e, lines) == line + (e + rest);
      NormaliseLine(e, line, rest);
      SplitLine(line, Normalise(rest));
    }
  }

  lemma NormaliseLine(e: string, line: string, rest: string)
    requires Ending(e) && OneLine(line) && (e == "\r" ==> rest == "" || rest[0] != '\n')
    ensures Normalise(line + (e + rest)) == line + "\n" + Normalise(rest)
  {
    CollapseLine(line, e + rest);
    ReplaceLine(line, CollapsePairs(e + rest));
    CollapseEnding(e, rest);
    assert line + ("\n" + Normalise(rest)) == line + "\n" + Normalise(rest);
  }

  // ---- The parser ----

  /** The value of a `data:` line, without one leading space. */
  predicate IsData(line: string) {
    |line| >= 5 && line[..5] == "data:"
  }

  function DataOf(line: string): string
    requires IsData(line)
  {
    if |line| >= 6 && line[5] == ' ' then line[6..] else line[5..]
  }

  /** Position of the first colon, or the length of the line. */
  function Colon(line: string): (n: nat)
    ensures n <= |line| && (n < |line| ==> line[n] == ':') && forall i :: 0 <= i < n ==> line[i] != ':'
  {
    if line == "" || line[0] == ':' then 0 else 1 + Colon(line[1..])
  }

  /** `flush_event` */
  function Flush<V>(decode: string -> Decoded<V>, pending: seq<string>, events: seq<V>): Parsed<V> {
    if pending == [] then Events(events)
    else
      match decode(Join("\n", pending))
      case NotJson => InvalidJson
      case NotAnObject => RootNotAnObject
      case Object(value) => Events(events + [value])
  }

  /** What the rest of the lines adds to the events so far and the pending data lines. */
  function ParseLines<V>(decode: string -> Decoded<V>, lines: seq<string>, pending: seq<string>,
      events: seq<V>): Parsed<V> {
    if lines == [] then Flush(decode, pending, events)
    else if lines[0] == "" then
      var flushed := Flush(decode, pending, events);
      if flushed.Events? then ParseLines(decode, lines[1..], [], flushed.values) else flushed
    else if IsData(lines[0]) then ParseLines(decode, lines[1..], pending + [DataOf(lines[0])], events)
    else ParseLines(decode, lines[1..], pending, events)
  }

  function ParseText<V>(decode: string -> Decoded<V>, text: string): Parsed<V> {
    var parsed := ParseLines(decode, Split(Normalise(text)), [], []);
    if parsed == Events([]) then NoDataEvents else parsed
  }

  lemma DataHasColon(line: string)
    requires IsData(line)
    ensures Colon(line) == 4 && line[..4] == "data"
  {
    var head := line[..5];
    assert head[0] == 'd' && head[1] == 'a' && head[2] == 't' && head[3] == 'a' && head[4] == ':';
    assert line[0] == 'd' && line[1] == 'a' && line[2] == 't' && line[3] == 'a' && line[4] == ':';
    assert line[..4] == "data:"[..4];
  }

  lemma ColonOfData(line: string)
    ensures IsData(line) <==> Colon(line) < |line| && line[..Colon(line)] == "data"
  {
    if IsData(line) {
      DataHasColon(line);
    }
    if Colon(line) < |line| && line[..Colon(line)] == "data" {
      assert line[..5] == line[..4] + [line[4]];
    }
  }

  /** `_parse_sse` */
  method ParseSse<V(==)>(decode: string -> Decoded<V>, text: string) returns (r: Parsed<V>)
    ensures r == ParseText(decode, text)
  {
    var lines := Split(Normalise(text));
    var events: seq<V>, dataLines: seq<string> := [], [];
    for i := 0 to |lines|
      invariant ParseLines(decode, lines, [], []) == ParseLines(decode, lines[i..], dataLines, events)
    {
      var rawLine := lines[i];
      assert lines[i..][0] == rawLine && lines[i..][1..] == lines[i + 1..];
      ColonOfData(rawLine);
      if rawLine == "" {
        var flushed := Flush(decode, dataLines, events);
        if !flushed.Events? {
          return flushed;
        }
        events, dataLines := flushed.values, [];
        continue;
      }
      if rawLine[0] == ':' {
        continue;
      }
      var colon := Colon(rawLine);
      if colon == |rawLine| || rawLine[..colon] != "data" {
        continue;
      }
      var value := rawLine[colon + 1..];
      dataLines := dataLines + [if value != "" && value[0] == ' ' then value[1..] else value];
    }
    r := Flush(decode, dataLines, events);
    if r == Events([]) {
      r := NoDataEvents;
    }
  }

  // ---- Streams ----

  /** A line of an event that is not blank: data, with or without the optional space, a comment, or another field. */
  datatype Line = Data(value: string, spaced: bool) | Comment(text: string) | OtherField(text: string)

  /** The lines of an event and the blank lines behind it. */
  datatype Block = Block(lines: seq<Line>, blanks: nat)

  predicate LegalLine(line: Line) {
    match line
    case Data(value, spaced) => OneLine(value) && (!spaced ==> value == "" || value[0] != ' ')
    case Comment(text) => OneLine(text)
    case OtherField(text) => OneLine(text) && text != "" && !IsData(text)
  }

  function Render(line: Line): string {
    match line
    case Data(value, spaced) => if spaced then "data: " + value else "data:" + value
    case Comment(text) => ":" + text
    case OtherField(text) => text
  }

  function RenderLines(lines: seq<Line>): seq<string> {
    seq(|lines|, i requires 0 <= i < |lines| => Render(lines[i]))
  }

  function Blanks(n: nat): seq<string> {
    seq(n, i => "")
  }

  function RenderBlocks(blocks: seq<Block>): seq<string> {
    if blocks == [] then []
    else RenderLines(blocks[0].lines) + Blanks(blocks[0].blanks) + RenderBlocks(blocks[1..])
  }

  /** Events are separated by at least one blank line; none is needed after the last. */
  predicate LegalStream(blocks: seq<Block>) {
    (forall i, j :: 0 <= i < |blocks| && 0 <= j < |blocks[i].lines| ==> LegalLine(blocks[i].lines[j]))
    && forall i :: 0 <= i < |blocks| - 1 ==> blocks[i].blanks > 0
  }

  /** The data lines of an event. */
  function Texts(lines: seq<Line>): seq<string> {
    if lines == [] then []
    else (if lines[0].Data? then [lines[0].value] else []) + Texts(lines[1..])
  }

  /** What a stream means: one object per event that has data, up to the first that is not one. */
  function Meaning<V>(decode: string -> Decoded<V>, blocks: seq<Block>, events: seq<V>): Parsed<V> {
    if blocks == [] then Events(events)
    else
      var flushed := Flush(decode, Texts(blocks[0].lines), events);
      if flushed.Events? then Meaning(decode, blocks[1..], flushed.values) else flushed
  }

  lemma RenderedLine(line: Line)
    requires LegalLine(line)
    ensures Render(line) != "" && OneLine(Render(line))
    ensures IsData(Render(line)) <==> line.Data?
    ensures line.Data? ==> DataOf(Render(line)) == line.value
  {
    match line
    case Data(value, spaced) =>
      var text := Render(line);
      assert text[..5] == "data:";
      if spaced {
        assert text[6..] == value;
      } else {
        assert text[5..] == value;
      }
    case Comment(text) =>
      assert |Render(line)| >= 5 ==> Render(line)[..5][0] == ':';
    case OtherField(text) =>
  }

  lemma {:induction false} ParseBlockLines<V>(
      decode: string -> Decoded<V>, lines: seq<Line>, rest: seq<string>, pending: seq<string>, events: seq<V>)
    requires forall i :: 0 <= i < |lines| ==> LegalLine(lines[i])
    ensures ParseLines(decode, RenderLines(lines) + rest, pending, events)
         == ParseLines(decode, rest, pending + Texts(lines), events)
  {
    if lines == [] {
      assert RenderLines(lines) + rest == rest && pending + Texts(lines) == pending;
    } else {
      RenderedLine(lines[0]);
      var all := RenderLines(lines) + rest;
      assert all[0] == Render(lines[0]) && all[1..] == RenderLines(lines[1..]) + rest;
      var next := if lines[0].Data? then pending + [lines[0].value] else pending;
      ParseBlockLines(decode, lines[1..], rest, next, events);
      assert next + Texts(lines[1..]) == pending + Texts(lines);
    }
  }

  lemma {:induction false} ParseBlanks<V>(decode: string -> Decoded<V>, n: nat, rest: seq<string>, events: seq<V>)
    ensures ParseLines(decode, Blanks(n) + rest, [], events) == ParseLines(decode, rest, [], events)
  {
    if n == 0 {
      assert Blanks(n) + rest == rest;
    } else {
      var all := Blanks(n) + rest;
      assert all[0] == "" && all[1..] == Blanks(n - 1) + rest;
      ParseBlanks(decode, n - 1, rest, events);
    }
  }

  /** A block followed by a blank line is flushed before the rest is read. */
  lemma ParseBlock<V>(decode: string -> Decoded<V>, block: Block, rest: seq<string>, events: seq<V>)
    requires block.blanks > 0 && forall i :: 0 <= i < |block.lines| ==> LegalLine(block.lines[i])
    ensures
      var flushed := Flush(decode, Texts(block.lines), events);
      ParseLines(decode, RenderLines(block.lines) + Blanks(block.blanks) + rest, [], events)
      == if flushed.Events? then ParseLines(decode, rest, [], flushed.values) else flushed
  {
    var tail := Blanks(block.blanks) + rest;
    assert RenderLines(block.lines) + Blanks(block.blanks) + rest == RenderLines(block.lines) + tail;
    ParseBlockLines(decode, block.lines, tail, [], events);
    assert [] + Texts(block.lines) == Texts(block.lines);
    assert tail[0] == "" && tail[1..] == Blanks(block.blanks - 1) + rest;
    var flushed := Flush(decode, Texts(block.lines), events);
    if flushed.Events? {
      ParseBlanks(decode, block.blanks - 1, rest, flushed.values);
    }
  }

  lemma {:induction false} ParseBlocks<V>(decode: string -> Decoded<V>, blocks: seq<Block>, events: seq<V>)
    requires LegalStream(blocks)
    ensures ParseLines(decode, RenderBlocks(blocks), [], events) == Meaning(decode, blocks, events)
  {
    if blocks == [] {
    } else {
      var block, rest := blocks[0], RenderBlocks(blocks[1..]);
      var flushed := Flush(decode, Texts(block.lines), events);
      assert LegalStream(blocks[1..]);
      if flushed.Events? {
        ParseBlocks(decode, blocks[1..], flushed.values);
      }
      if block.blanks > 0 {
        ParseBlock(decode, block, rest, events);
      } else {
        assert |blocks| == 1 && rest == [];
        assert RenderBlocks(blocks) == RenderLines(block.lines) + [];
        ParseBlockLines(decode, block.lines, [], [], events);
        assert [] + Texts(block.lines) == Texts(block.lines);
      }
    }
  }

  lemma {:induction false} RenderedOneLine(blocks: seq<Block>)
    requires LegalStream(blocks)
    ensures OneLineEach(RenderBlocks(blocks))
  {
    if blocks == [] {
    } else {
      RenderedOneLine(blocks[1..]);
      forall j | 0 <= j < |blocks[0].lines|
        ensures OneLine(Render(blocks[0].lines[j]))
      {
        RenderedLine(blocks[0].lines[j]);
      }
    }
  }

  /** Printed with any one line ending, with comments, other fields and extra blank lines, and with or without a blank
      line at the end, a stream is parsed to its meaning. */
  lemma PrintedStreamParses<V>(decode: string -> Decoded<V>, blocks: seq<Block>, e: string)
    requires LegalStream(blocks) && Ending(e) && RenderBlocks(blocks) != []
    ensures ParseText(decode, Join(e, RenderBlocks(blocks)))
         == if Meaning(decode, blocks, []) == Events([]) then NoDataEvents else Meaning(decode, blocks, [])
  {
    RenderedOneLine(blocks);
    SplitJoin(e, RenderBlocks(blocks));
    ParseBlocks(decode, blocks, []);
  }

  /** The blocks that carry data; comments, other fields and blank lines by themselves are not events. */
  function DataBlocks(blocks: seq<Block>): seq<Block> {
    if blocks == [] then []
    else (if Texts(blocks[0].lines) != [] then [blocks[0]] else []) + DataBlocks(blocks[1..])
  }

  /** The i-th block decodes to the i-th object. */
  ghost predicate DecodeTo<V>(decode: string -> Decoded<V>, blocks: seq<Block>, values: seq<V>) {
    |blocks| == |values|
    && forall i :: 0 <= i < |blocks| ==> decode(Join("\n", Texts(blocks[i].lines))) == Object(values[i])
  }

  lemma DecodeRest<V>(decode: string -> Decoded<V>, first: Block, rest: seq<Block>, values: seq<V>)
    requires DecodeTo(decode, [first] + rest, values)
    ensures values != [] && decode(Join("\n", Texts(first.lines))) == Object(values[0])
    ensures DecodeTo(decode, rest, values[1..])
  {
    var blocks := [first] + rest;
    assert blocks[0] == first;
    forall i | 0 <= i < |rest|
      ensures decode(Join("\n", Texts(rest[i].lines))) == Object(values[1..][i])
    {
      assert rest[i] == blocks[i + 1];
    }
  }

  lemma {:induction false} MeaningOfObjects<V>(decode: string -> Decoded<V>, blocks: seq<Block>, values: seq<V>,
      events: seq<V>)
    requires DecodeTo(decode, DataBlocks(blocks), values)
    ensures Meaning(decode, blocks, events) == Events(events + values)
  {
    if blocks == [] {
      assert events + values == events;
    } else if Texts(blocks[0].lines) == [] {
      assert DataBlocks(blocks) == DataBlocks(blocks[1..]);
      MeaningOfObjects(decode, blocks[1..], values, events);
    } else {
      var rest := DataBlocks(blocks[1..]);
      assert DataBlocks(blocks) == [blocks[0]] + rest;
      DecodeRest(decode, blocks[0], rest, values);
      MeaningOfObjects(decode, blocks[1..], values[1..], events + [values[0]]);
      assert events + [values[0]] + values[1..] == events + values;
    }
  }

  lemma {:induction false} DataIsRendered(blocks: seq<Block>)
    requires DataBlocks(blocks) != []
    ensures RenderBlocks(blocks) != []
  {
    if Texts(blocks[0].lines) != [] {
      assert RenderBlocks(blocks)[0] == Render(blocks[0].lines[0]);
    } else {
      DataIsRendered(blocks[1..]);
    }
  }

  /** Round trip: the events whose data decode to objects come back as exactly these objects, in order, whatever
      comments, other fields and blank lines stand before, between and after them. */
  lemma RoundTrip<V>(decode: string -> Decoded<V>, blocks: seq<Block>, values: seq<V>, e: string)
    requires LegalStream(blocks) && Ending(e) && values != []
    requires DecodeTo(decode, DataBlocks(blocks), values)
    ensures ParseText(decode, Join(e, RenderBlocks(blocks))) == Events(values)
  {
    DataIsRendered(blocks);
    MeaningOfObjects(decode, blocks, values, []);
    assert [] + values == values;
    PrintedStreamParses(decode, blocks, e);
  }
}
