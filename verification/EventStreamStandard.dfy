/** Section 9.2.6 ("Interpreting an event stream") of the WHATWG HTML Living Standard, as far as the data of messages
    goes, and exactly when `_parse_sse` reads the same messages. */
module EventStreamStandard {
  import opened Outcomes
  import opened EventStream

  const BYTE_ORDER_MARK := '\U{FEFF}'

  /** The data of a message from its data lines; without any, nothing is dispatched. */
  function Message(pending: seq<string>): Option<string> {
    if pending == [] then None else Some(Join("\n", pending))
  }

  /** What is dispatched at each line and, last, at the end of the input, as `_parse_sse` reads the lines. */
  function CodeTrace(lines: seq<string>, pending: seq<string>): seq<Option<string>> {
    if lines == [] then [Message(pending)]
    else if lines[0] == "" then [Message(pending)] + CodeTrace(lines[1..], [])
    else [None] + CodeTrace(lines[1..], pending + if IsData(lines[0]) then [DataOf(lines[0])] else [])
  }

  /** A field `data` without a colon has the empty value. */
  function StandardData(line: string): seq<string> {
    if IsData(line) then [DataOf(line)] else if line == "data" then [""] else []
  }

  /** The same as the standard has it: the piece behind the last line ending is not a line, and a message that is
      pending at the end of the input is discarded. */
  function StandardTrace(lines: seq<string>, pending: seq<string>): seq<Option<string>> {
    if lines == [] then [None]
    else if |lines| == 1 then [None, None]
    else if lines[0] == "" then [Message(pending)] + StandardTrace(lines[1..], [])
    else [None] + StandardTrace(lines[1..], pending + StandardData(lines[0]))
  }

  /** One leading byte order mark is not part of the stream. */
  function WithoutMark(text: string): string {
    if text != "" && text[0] == BYTE_ORDER_MARK then text[1..] else text
  }

  function CodeReads(text: string): seq<Option<string>> {
    CodeTrace(Split(Normalise(text)), [])
  }

  function StandardReads(text: string): seq<Option<string>> {
    StandardTrace(Split(Normalise(WithoutMark(text))), [])
  }

  // ---- The trace is what the parser decodes ----

  function Dispatched(trace: seq<Option<string>>): seq<string> {
    if trace == [] then []
    else (if trace[0].Some? then [trace[0].value] else []) + Dispatched(trace[1..])
  }

  /** Decoding messages in order, up to the first that is not an object. */
  function DecodeAll<V>(decode: string -> Decoded<V>, messages: seq<string>, events: seq<V>): Parsed<V> {
    if messages == [] then Events(events)
    else
      match decode(messages[0])
      case NotJson => InvalidJson
      case NotAnObject => RootNotAnObject
      case Object(value) => DecodeAll(decode, messages[1..], events + [value])
  }

  /** The parser decodes exactly the messages of its trace. */
  lemma {:induction false} ParserDecodesTrace<V>(
      decode: string -> Decoded<V>, lines: seq<string>, pending: seq<string>, events: seq<V>)
    ensures ParseLines(decode, lines, pending, events)
      == DecodeAll(decode, Dispatched(CodeTrace(lines, pending)), events)
  {
    var messages := Dispatched(CodeTrace(lines, pending));
    if lines == [] {
      assert CodeTrace(lines, pending)[1..] == [];
      if pending != [] {
        assert messages == [Join("\n", pending)];
        FirstMessage(decode, pending, [], events);
      }
    } else if lines[0] == "" {
      var rest := CodeTrace(lines[1..], []);
      assert CodeTrace(lines, pending)[1..] == rest;
      if pending == [] {
        assert messages == Dispatched(rest);
        ParserDecodesTrace(decode, lines[1..], [], events);
      } else {
        assert messages == [Join("\n", pending)] + Dispatched(rest);
        FirstMessage(decode, pending, Dispatched(rest), events);
        var flushed := Flush(decode, pending, events);
        if flushed.Events? {
          ParserDecodesTrace(decode, lines[1..], [], flushed.values);
        }
      }
    } else {
      var next := pending + if IsData(lines[0]) then [DataOf(lines[0])] else [];
      assert CodeTrace(lines, pending)[1..] == CodeTrace(lines[1..], next);
      assert messages == Dispatched(CodeTrace(lines[1..], next));
      ParserDecodesTrace(decode, lines[1..], next, events);
      assert !IsData(lines[0]) ==> next == pending;
    }
  }

  lemma FirstMessage<V>(decode: string -> Decoded<V>, pending: seq<string>, rest: seq<string>, events: seq<V>)
    requires pending != []
    ensures DecodeAll(decode, [Join("\n", pending)] + rest, events)
         == var flushed := Flush(decode, pending, events);
            if flushed.Events? then DecodeAll(decode, rest, flushed.values) else flushed
  {
    var messages := [Join("\n", pending)] + rest;
    assert messages[0] == Join("\n", pending) && messages[1..] == rest;
  }

  /** Where code and standard read the same, the events are the decoded messages of the standard. */
  lemma AgreementDecodes<V>(decode: string -> Decoded<V>, text: string)
    requires CodeReads(text) == StandardReads(text)
    ensures
      var all := DecodeAll(decode, Dispatched(StandardReads(text)), []);
      ParseText(decode, text) == if all == Events([]) then NoDataEvents else all
  {
    ParserDecodesTrace(decode, Split(Normalise(text)), [], []);
  }

  // ---- Exactly when they agree ----

  /** A blank line, ended by a line ending, comes after line `i`. */
  predicate Completed(lines: seq<string>, i: int) {
    exists j :: 0 <= j < |lines| - 1 && i < j && lines[j] == ""
  }

  /** Every data line belongs to a completed event, and no completed event has a bare `data` line. */
  predicate Conforms(lines: seq<string>) {
    forall i :: 0 <= i < |lines| ==>
      (IsData(lines[i]) ==> Completed(lines, i)) && (lines[i] == "data" ==> !Completed(lines, i))
  }

  function Chars(pending: seq<string>): nat {
    if pending == [] then 0 else |pending[0]| + Chars(pending[1..])
  }

  lemma {:induction false} CharsAppend(pending: seq<string>, more: seq<string>)
    ensures Chars(pending + more) == Chars(pending) + Chars(more)
  {
    if pending == [] {
      assert pending + more == more;
    } else {
      assert (pending + more)[1..] == pending[1..] + more;
      CharsAppend(pending[1..], more);
    }
  }

  lemma {:induction false} JoinedLength(pending: seq<string>)
    requires pending != []
    ensures |Join("\n", pending)| == Chars(pending) + |pending| - 1
  {
    if |pending| <= 1 {
    } else {
      JoinedLength(pending[1..]);
    }
  }

  /** The pending lines of the standard are those of the code, or more of them. */
  ghost predicate Ahead(code: seq<string>, standard: seq<string>) {
    |code| <= |standard| && Chars(code) <= Chars(standard) && (|code| == |standard| ==> code == standard)
  }

  lemma MessagesDiffer(code: seq<string>, standard: seq<string>)
    requires Ahead(code, standard)
    ensures Message(code) == Message(standard) <==> |code| == |standard|
  {
    if code != [] && standard != [] {
      JoinedLength(code);
      JoinedLength(standard);
    }
  }

  lemma StaysAhead(code: seq<string>, standard: seq<string>, line: string)
    requires Ahead(code, standard)
    ensures
      var code', standard' := code + (if IsData(line) then [DataOf(line)] else []), standard + StandardData(line);
      Ahead(code', standard') && (|code'| == |standard'| <==> |code| == |standard| && line != "data")
  {
    CharsAppend(code, if IsData(line) then [DataOf(line)] else []);
    CharsAppend(standard, StandardData(line));
  }

  /** What agreement asks for while lines are pending: pending data must be dispatched, pending differences must not. */
  predicate Settles(lines: seq<string>, code: seq<string>, standard: seq<string>) {
    Conforms(lines) && (code != [] ==> Completed(lines, -1)) && (|code| < |standard| ==> !Completed(lines, -1))
  }

  lemma CompletedLater(lines: seq<string>, i: int)
    requires lines != [] && i >= 0
    ensures Completed(lines, i) <==> Completed(lines[1..], i - 1)
  {
    var rest := lines[1..];
    if Completed(lines, i) {
      var j :| i < j < |lines| - 1 && lines[j] == "";
      assert rest[j - 1] == "";
    }
    if Completed(rest, i - 1) {
      var j :| i - 1 < j < |rest| - 1 && rest[j] == "";
      assert lines[j + 1] == "";
    }
  }

  lemma CompletedFromHere(lines: seq<string>)
    requires |lines| > 1
    ensures Completed(lines, -1) <==> lines[0] == "" || Completed(lines, 0)
  {
    if Completed(lines, -1) {
      var j :| -1 < j < |lines| - 1 && lines[j] == "";
    }
  }

  lemma ConformsLater(lines: seq<string>)
    requires lines != []
    ensures Conforms(lines)
      <==> (IsData(lines[0]) ==> Completed(lines, 0)) && (lines[0] == "data" ==> !Completed(lines, 0))
           && Conforms(lines[1..])
  {
    var rest := lines[1..];
    forall i | 0 <= i < |rest|
      ensures lines[i + 1] == rest[i] && (Completed(lines, i + 1) <==> Completed(rest, i))
    {
      CompletedLater(lines, i + 1);
    }
    if Conforms(lines) {
      forall i | 0 <= i < |rest|
        ensures (IsData(rest[i]) ==> Completed(rest, i)) && (rest[i] == "data" ==> !Completed(rest, i))
      {
        assert lines[i + 1] == rest[i];
      }
    }
    if Conforms(rest) {
      forall i | 1 <= i < |lines|
        ensures (IsData(lines[i]) ==> Completed(lines, i)) && (lines[i] == "data" ==> !Completed(lines, i))
      {
        assert lines[i] == rest[i - 1];
      }
    }
  }

  lemma {:induction false} TracesAgree(lines: seq<string>, code: seq<string>, standard: seq<string>)
    requires lines != [] && Ahead(code, standard)
    ensures CodeTrace(lines, code) == StandardTrace(lines, standard) <==> Settles(lines, code, standard)
  {
    ConformsLater(lines);
    if |lines| == 1 {
      LastPiece(lines[0], code, standard);
    } else {
      CompletedFromHere(lines);
      CompletedLater(lines, 0);
      var line, rest := lines[0], lines[1..];
      if line == "" {
        MessagesDiffer(code, standard);
        TracesAgree(rest, [], []);
        assert CodeTrace(lines, code)[0] == Message(code) && CodeTrace(lines, code)[1..] == CodeTrace(rest, []);
        assert StandardTrace(lines, standard)[0] == Message(standard)
            && StandardTrace(lines, standard)[1..] == StandardTrace(rest, []);
      } else {
        StaysAhead(code, standard, line);
        var code', standard' := code + (if IsData(line) then [DataOf(line)] else []), standard + StandardData(line);
        TracesAgree(rest, code', standard');
        assert CodeTrace(lines, code)[1..] == CodeTrace(rest, code');
        assert StandardTrace(lines, standard)[1..] == StandardTrace(rest, standard');
        assert CodeTrace(lines, code)[0] == StandardTrace(lines, standard)[0];
      }
    }
  }

  lemma LastPiece(line: string, code: seq<string>, standard: seq<string>)
    ensures CodeTrace([line], code) == StandardTrace([line], standard) <==> Settles([line], code, standard)
  {
    var next := code + if IsData(line) then [DataOf(line)] else [];
    assert [line][1..] == [] && [line][0] == line;
    assert !Completed([line], -1) && !Completed([line], 0);
    ConformsLater([line]);
    assert Conforms([line]) <==> !IsData(line);
    var trace := CodeTrace([line], code);
    if line == "" {
      assert trace == [Message(code)] + CodeTrace([], []) && trace[0] == Message(code) && trace[1] == None;
      assert trace == [None, None] <==> code == [];
    } else {
      assert trace == [None] + CodeTrace([], next) && trace[0] == None && trace[1] == Message(next);
      assert trace == [None, None] <==> next == [];
    }
  }

  // ---- The byte order mark ----

  lemma MarkStaysInFront(rest: string)
    ensures
      var with, without := Split(Normalise([BYTE_ORDER_MARK] + rest)), Split(Normalise(rest));
      with == [[BYTE_ORDER_MARK] + without[0]] + without[1..]
  {
    CollapseChar(BYTE_ORDER_MARK, rest);
    var text := [BYTE_ORDER_MARK] + CollapsePairs(rest);
    assert text[1..] == CollapsePairs(rest);
    assert ReplaceReturns(text) == [BYTE_ORDER_MARK] + Normalise(rest);
    assert ([BYTE_ORDER_MARK] + Normalise(rest))[1..] == Normalise(rest);
  }

  predicate Marked(text: string) {
    text != "" && text[0] == BYTE_ORDER_MARK
  }

  /** A mark hides the first line from the code: it must not be a data line of a completed event. */
  predicate MarkHarmless(text: string) {
    Marked(text) ==>
      var lines := Split(Normalise(text[1..]));
      StandardData(lines[0]) != [] ==> !Completed(lines, 0)
  }

  lemma MarkedFirstLine(line: string)
    ensures
      var marked := [BYTE_ORDER_MARK] + line;
      marked != "" && !IsData(marked) && marked != "data"
  {
    var marked := [BYTE_ORDER_MARK] + line;
    assert marked[0] == BYTE_ORDER_MARK;
    assert |marked| >= 5 ==> marked[..5][0] == BYTE_ORDER_MARK && "data:"[0] == 'd';
    assert "data"[0] == 'd';
  }

  /** Code and standard dispatch the same messages at the same lines exactly when every data line belongs to a completed
      event, no completed event has a bare `data` line, and a byte order mark hides nothing. */
  lemma AgreesExactlyWhen(text: string)
    ensures CodeReads(text) == StandardReads(text) <==> Conforms(Split(Normalise(text))) && MarkHarmless(text)
  {
    if Marked(text) {
      assert text == [BYTE_ORDER_MARK] + text[1..];
      MarkStaysInFront(text[1..]);
      var without := Split(Normalise(text[1..]));
      MarkedAgrees(Split(Normalise(text)), without);
    } else {
      TracesAgree(Split(Normalise(text)), [], []);
    }
  }

  lemma MarkedAgrees(with: seq<string>, without: seq<string>)
    requires without != [] && with == [[BYTE_ORDER_MARK] + without[0]] + without[1..]
    ensures CodeTrace(with, []) == StandardTrace(without, [])
      <==> Conforms(with) && (StandardData(without[0]) != [] ==> !Completed(without, 0))
  {
    var rest := without[1..];
    assert with[1..] == rest && with[0] == [BYTE_ORDER_MARK] + without[0];
    MarkedFirstLine(without[0]);
    ConformsLater(with);
    assert CodeTrace(with, []) == [None] + CodeTrace(rest, []);
    if rest == [] {
      assert CodeTrace(rest, []) == [None];
      assert !Completed(without, 0);
    } else {
      var pending := StandardData(without[0]);
      CompletedLater(without, 0);
      var standard := if without[0] == "" then [] else pending;
      assert StandardTrace(without, []) == [None] + StandardTrace(rest, standard) by {
        assert [] + pending == pending;
      }
      TracesAgree(rest, [], standard);
      assert CodeTrace(with, [])[1..] == CodeTrace(rest, []);
      assert StandardTrace(without, [])[1..] == StandardTrace(rest, standard);
    }
  }

  // ---- An example of each difference ----

  /** A text of one line and a blank one. */
  lemma OneEventLines(line: string)
    requires OneLine(line)
    ensures Split(Normalise(line + "\n\n")) == [line, "", ""]
  {
    var lines := [line, "", ""];
    assert lines[1..] == ["", ""] && lines[1..][1..] == [""];
    assert Join("\n", lines[1..]) == "" + "\n" + "";
    assert Join("\n", lines) == line + "\n\n";
    SplitJoin("\n", lines);
  }

  lemma OneEventTraces(line: string)
    requires line != ""
    ensures CodeTrace([line, "", ""], []) == [None, Message(if IsData(line) then [DataOf(line)] else []), None, None]
    ensures StandardTrace([line, "", ""], []) == [None, Message(StandardData(line)), None, None]
  {
    var lines := [line, "", ""];
    var code := if IsData(line) then [DataOf(line)] else [];
    BlankTraces(code);
    BlankTraces(StandardData(line));
    assert lines[1..] == ["", ""];
    assert [] + code == code && [] + StandardData(line) == StandardData(line);
  }

  lemma BlankTraces(pending: seq<string>)
    ensures CodeTrace(["", ""], pending) == [Message(pending), None, None]
    ensures StandardTrace(["", ""], pending) == [Message(pending), None, None]
  {
    assert ["", ""][1..] == [""] && [""][1..] == [];
    assert CodeTrace([""], []) == [None, None];
  }

  lemma OneMessage(message: Option<string>)
    ensures Dispatched([None, message, None, None]) == if message.Some? then [message.value] else []
  {
    var trace := [None, message, None, None];
    assert trace[1..] == [message, None, None] && trace[1..][1..] == [None, None] && trace[1..][1..][1..] == [None];
    assert Dispatched([None, None]) == [];
  }

  /** What code and standard dispatch for one line, a data field or not, with a blank line behind it. */
  lemma OneEventReads(line: string)
    requires OneLine(line) && line != "" && line[0] != BYTE_ORDER_MARK
    ensures Dispatched(CodeReads(line + "\n\n")) == if IsData(line) then [DataOf(line)] else []
    ensures Dispatched(StandardReads(line + "\n\n")) == StandardData(line)
  {
    OneEventLines(line);
    OneEventTraces(line);
    OneMessage(Message(if IsData(line) then [DataOf(line)] else []));
    OneMessage(Message(StandardData(line)));
    assert WithoutMark(line + "\n\n") == line + "\n\n";
  }

  /** A bare `data` line is a message to the standard and nothing to the code. */
  lemma BareDataDiffers()
    ensures Dispatched(CodeReads("data" + "\n\n")) == [] && Dispatched(StandardReads("data" + "\n\n")) == [""]
  {
    OneEventReads("data");
  }

  /** A data line without a blank line behind it is a message to the code and nothing to the standard. */
  lemma IncompleteEventDiffers(line: string)
    requires OneLine(line) && IsData(line)
    ensures Dispatched(CodeReads(line)) == [DataOf(line)] && Dispatched(StandardReads(line)) == []
  {
    SplitJoin("\n", [line]);
    assert Join("\n", [line]) == line;
    assert line[..5][0] == 'd' && WithoutMark(line) == line;
    assert [line][1..] == [] && [] + [DataOf(line)] == [DataOf(line)];
    assert CodeTrace([line], []) == [None, Some(DataOf(line))];
    assert StandardTrace([line], []) == [None, None];
    LastMessage(Some(DataOf(line)));
    LastMessage(None);
  }

  lemma LastMessage(message: Option<string>)
    ensures Dispatched([None, message]) == if message.Some? then [message.value] else []
  {
    var trace := [None, message];
    assert trace[1..] == [message] && [message][1..] == [];
    assert Dispatched([]) == [] && Dispatched([message]) == if message.Some? then [message.value] else [];
  }

  /** A byte order mark hides the first line from the code. */
  lemma MarkDiffers(line: string)
    requires OneLine(line) && IsData(line)
    ensures
      var text := [BYTE_ORDER_MARK] + (line + "\n\n");
      Dispatched(CodeReads(text)) == [] && Dispatched(StandardReads(text)) == [DataOf(line)]
  {
    var text, marked := [BYTE_ORDER_MARK] + (line + "\n\n"), [BYTE_ORDER_MARK] + line;
    OneEventLines(line);
    MarkStaysInFront(line + "\n\n");
    MarkedFirstLine(line);
    assert WithoutMark(text) == line + "\n\n";
    assert [line, "", ""][1..] == ["", ""] && [marked] + ["", ""] == [marked, "", ""];
    OneEventTraces(line);
    OneEventTraces(marked);
    OneMessage(None);
    OneMessage(Message(StandardData(line)));
  }

  lemma FourReads(a: Option<string>, b: Option<string>)
    ensures Dispatched([None, a, None, b])
         == (if a.Some? then [a.value] else []) + (if b.Some? then [b.value] else [])
  {
    var trace := [None, a, None, b];
    assert trace[1..] == [a, None, b] && [a, None, b][1..] == [None, b];
    LastMessage(b);
  }

  lemma BareThenUnfinished()
    ensures CodeTrace(["data", "", "data:"], []) == [None, None, None, Some("")]
    ensures StandardTrace(["data", "", "data:"], []) == [None, Some(""), None, None]
  {
    assert ["data", "", "data:"][1..] == ["", "data:"] && ["", "data:"][1..] == ["data:"] && ["data:"][1..] == [];
    assert [] + [""] == [""];
    assert CodeTrace(["data:"], []) == [None, Some("")];
    assert CodeTrace(["", "data:"], []) == [None, None, Some("")];
    assert StandardTrace(["data:"], []) == [None, None];
    assert StandardTrace(["", "data:"], [""]) == [Some(""), None, None];
  }

  /** Agreement is about lines: here both dispatch one empty message, the standard for the bare line, the code for the
      line that no blank line follows. */
  lemma SameMessagesAtOtherLines()
    ensures
      var text := "data\n\ndata:";
      Dispatched(CodeReads(text)) == [""] && Dispatched(StandardReads(text)) == [""]
      && CodeReads(text) != StandardReads(text)
  {
    var lines := ["data", "", "data:"];
    assert lines[1..] == ["", "data:"] && lines[1..][1..] == ["data:"] && ["data:"][1..] == [];
    assert Join("\n", lines[1..]) == "" + "\n" + "data:";
    assert Join("\n", lines) == "data\n\ndata:";
    SplitJoin("\n", lines);
    BareThenUnfinished();
    FourReads(None, Some(""));
    FourReads(Some(""), None);
  }
}
