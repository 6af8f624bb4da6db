/** Event streams as the standard interprets them (WHATWG HTML, section 9.2.6), for lines
    that end in a line feed, and what the subscription makes of them. */
module EventStreams {
  import opened Sequences
  import opened Strings
  import opened StreamParsers

  /** The event type and the data gathered since the last event; no data until a line
      brings some. */
  datatype Buffers = Buffers(event: string, data: Option<string>)

  const EMPTY := Buffers("", None)

  /** A field's value, without the one space that may follow the colon. */
  function FieldValue(rest: string): string {
    if rest != "" && rest[0] == ' ' then rest[1..] else rest
  }

  function WithData(b: Buffers, value: string): Buffers {
    b.(data := Some(if b.data.None? then value else b.data.value + "\n" + value))
  }

  /** What a line that is not blank adds. */
  function Buffered(b: Buffers, line: string): Buffers {
    if StartsWith(line, "event:") then b.(event := FieldValue(line[6..]))
    else if StartsWith(line, "data:") then WithData(b, FieldValue(line[5..]))
    else if line == "event" then b.(event := "")
    else if line == "data" then WithData(b, "")
    else b
  }

  /** One space behind the colon belongs to the field, any further one to its value. */
  lemma ValueTells(b: Buffers, value: string)
    ensures Buffered(b, "data: " + value) == WithData(b, value)
    ensures Buffered(b, "event: " + value) == b.(event := value)
    ensures value == "" || value[0] != ' ' ==>
              Buffered(b, "data:" + value) == WithData(b, value) && Buffered(b, "event:" + value) == b.(event := value)
  {
    var d, e := "data: " + value, "event: " + value;
    assert d[5..] == " " + value && e[6..] == " " + value;
    assert ("data:" + value)[5..] == value && ("event:" + value)[6..] == value;
    assert d[0] == 'd' && ("data:" + value)[0] == 'd';
  }

  function Dispatched(b: Buffers): seq<Message> {
    if b.data.None? then [] else [Message(if b.event == "" then "message" else b.event, b.data.value)]
  }

  datatype Reading = Reading(events: seq<Message>, buffers: Buffers)

  const START := Reading([], EMPTY)

  /** A blank line dispatches what is buffered. */
  function Read(r: Reading, line: string): Reading {
    if line == "" then Reading(r.events + Dispatched(r.buffers), EMPTY) else r.(buffers := Buffered(r.buffers, line))
  }

  function ReadAll(r: Reading, lines: seq<string>): Reading {
    if lines == [] then r else Read(ReadAll(r, Init(lines)), Last(lines))
  }

  /** The events of a stream; an unfinished line or event at its end is discarded. */
  function StandardEvents(text: string): seq<Message> {
    ReadAll(START, Init(Split(text, "\n"))).events
  }

  /** Those of the lines between two blank ones. */
  function BlockEvents(block: string): seq<Message> {
    ReadAll(START, Split(block, "\n") + [""]).events
  }

  function AllEvents(blocks: seq<string>): seq<Message> {
    if blocks == [] then [] else BlockEvents(blocks[0]) + AllEvents(blocks[1..])
  }

  lemma {:induction false} ReadAppend(r: Reading, a: seq<string>, b: seq<string>)
    ensures ReadAll(r, a + b) == ReadAll(ReadAll(r, a), b)
  {
    hide Read;
    if b == [] {
      assert a + b == a;
    } else {
      ReadAppend(r, a, Init(b));
      assert Init(a + b) == a + Init(b);
    }
  }

  lemma {:induction false} ReadAfter(events: seq<Message>, lines: seq<string>)
    ensures var r := ReadAll(START, lines);
            ReadAll(Reading(events, EMPTY), lines) == Reading(events + r.events, r.buffers)
  {
    if lines == [] {
      assert events + [] == events;
    } else {
      ReadAfter(events, Init(lines));
    }
  }

  lemma {:induction false} SplitAppend(a: string, c: string)
    ensures Split(a + "\n" + c, "\n") == Split(a, "\n") + Split(c, "\n")
    decreases |a|
  {
    hide IndexOf;
    var at := IndexOf(a, "\n");
    SplitWhole(a, "\n");
    SplitWhole(a + "\n" + c, "\n");
    if at < 0 {
      NoneIn(a);
      FirstSeparator(a, c, '\n');
    } else {
      IndexStays(a, "\n" + c, "\n");
      assert a + "\n" + c == a + ("\n" + c);
      var rest := a[at + 1..];
      SplitAppend(rest, c);
      assert (a + "\n" + c)[..at] == a[..at] && (a + "\n" + c)[at + 1..] == rest + "\n" + c;
    }
  }

  lemma NoneIn(a: string)
    requires IndexOf(a, "\n") < 0
    ensures '\n' !in a
  {
    forall i | 0 <= i < |a| ensures a[i] != '\n' {
      assert !OccursAt(a, "\n", i) && a[i..i + 1] == [a[i]];
    }
  }

  ghost predicate OnlyEndsBlank(lines: seq<string>) {
    forall i :: 0 < i < |lines| - 1 ==> lines[i] != ""
  }

  /** Where no two line feeds meet, only the first line and the last can be blank. */
  lemma {:induction false} FewBlanks(text: string)
    requires IndexOf(text, "\n\n") < 0
    ensures OnlyEndsBlank(Split(text, "\n"))
    decreases |text|
  {
    hide IndexOf;
    var at := IndexOf(text, "\n");
    SplitWhole(text, "\n");
    if at >= 0 {
      var rest := text[at + 1..];
      NoPairs(text, at);
      FewBlanks(rest);
      SplitWhole(rest, "\n");
      Leftmost(text, "\n");
      var lines, more := Split(text, "\n"), Split(rest, "\n");
      if |more| > 1 && more[0] == "" {
        Leftmost(rest, "\n");
        assert text[at..at + 1] == "\n" && rest[0..1] == "\n";
        assert text[at..at + 2] == "\n\n" by { assert text[at + 1] == rest[0]; }
        NoOccurrence(text, at);
      }
      assert forall i :: 0 < i < |lines| ==> lines[i] == more[i - 1];
    }
  }

  lemma NoOccurrence(text: string, at: nat)
    requires IndexOf(text, "\n\n") < 0
    ensures !OccursAt(text, "\n\n", at)
  {
  }

  lemma NoPairs(text: string, at: nat)
    requires IndexOf(text, "\n\n") < 0 && at < |text|
    ensures IndexOf(text[at + 1..], "\n\n") < 0
  {
    var rest := text[at + 1..];
    forall k: nat ensures !OccursAt(rest, "\n\n", k) {
      assert !OccursAt(text, "\n\n", at + 1 + k);
      if k + 2 <= |rest| { assert rest[k..k + 2] == text[at + 1 + k..at + 1 + k + 2]; }
    }
  }

  lemma {:induction false} NothingDispatched(lines: seq<string>)
    requires forall i :: 0 < i < |lines| ==> lines[i] != ""
    ensures ReadAll(START, lines).events == []
  {
    if lines != [] {
      NothingDispatched(Init(lines));
      if |lines| == 1 { assert ReadAll(START, Init(lines)) == START; }
    }
  }

  lemma EndDropped(lines: seq<string>)
    requires lines != [] && OnlyEndsBlank(lines)
    ensures forall i :: 0 < i < |Init(lines)| ==> Init(lines)[i] != ""
  {
    forall i | 0 < i < |Init(lines)| ensures Init(lines)[i] != "" {
      assert Init(lines)[i] == lines[i];
    }
  }

  lemma NoPairNoEvent(text: string)
    requires IndexOf(text, "\n\n") < 0
    ensures StandardEvents(text) == []
  {
    hide IndexOf;
    FewBlanks(text);
    var lines := Split(text, "\n");
    EndDropped(lines);
    NothingDispatched(Init(lines));
  }

  /** The events are those of the blocks that the subscription splits the stream into, but
      the last. */
  lemma {:induction false} ByBlocks(text: string)
    ensures StandardEvents(text) == AllEvents(Init(Split(text, "\n\n")))
    decreases |text|
  {
    hide IndexOf, Read;
    var at := IndexOf(text, "\n\n");
    SplitWhole(text, "\n\n");
    if at < 0 {
      NoPairNoEvent(text);
    } else {
      Leftmost(text, "\n\n");
      var block, rest := text[..at], text[at + 2..];
      ByBlocks(rest);
      LinesOfBoth(text, at);
      var first, more := Split(block, "\n") + [""], Split(rest, "\n");
      ReadAppend(START, first, Init(more));
      Cleared(Split(block, "\n"));
      ReadAfter(BlockEvents(block), Init(more));
      var blocks := Split(rest, "\n\n");
      assert Init([block] + blocks) == [block] + Init(blocks);
    }
  }

  lemma {:induction false} LinesOfBoth(text: string, at: nat)
    requires OccursAt(text, "\n\n", at)
    ensures var first, more := Split(text[..at], "\n") + [""], Split(text[at + 2..], "\n");
            Split(text, "\n") == first + more && Init(first + more) == first + Init(more)
  {
    hide Split;
    var block, rest := text[..at], text[at + 2..];
    assert text == block + "\n" + ("" + "\n" + rest) by { assert text == block + text[at..at + 2] + rest; }
    SplitAppend(block, "" + "\n" + rest);
    SplitAppend("", rest);
    EmptySplit();
    assert Split(block, "\n") + ([""] + Split(rest, "\n")) == Split(block, "\n") + [""] + Split(rest, "\n");
  }

  lemma EmptySplit()
    ensures Split("", "\n") == [""]
  {
  }

  lemma {:induction false} Cleared(lines: seq<string>)
    ensures ReadAll(START, lines + [""]).buffers == EMPTY
  {
    assert Last(lines + [""]) == "";
  }

  // ------------------------------------------------------------- lost events

  /** A line on which both agree what it is: comments, other fields, and event and data
      fields whose value has no more white space around it than the standard drops. */
  predicate Clean(line: string) {
    && line !in {"", "event", "data"}
    && (StartsWith(line, "event:") ==> Trim(line[6..]) == FieldValue(line[6..]))
    && (StartsWith(line, "data:") ==> Trim(line[5..]) == FieldValue(line[5..]))
  }

  /** A block of clean lines; a blank line more in front does not matter. */
  ghost predicate Regular(block: string) {
    var body := Trim(block);
    && body != "" && (block == body || block == "\n" + body)
    && forall l :: l in Split(body, "\n") ==> Clean(l)
  }

  function Buffering(lines: seq<string>): Buffers {
    if lines == [] then EMPTY else Buffered(Buffering(Init(lines)), Last(lines))
  }

  /** The values of the data lines. */
  function DataOf(lines: seq<string>): seq<string> {
    if lines == [] then []
    else DataOf(Init(lines)) + if StartsWith(Last(lines), "data:") then [After(Last(lines), "data:")] else []
  }

  function Lines(values: seq<string>): string {
    if values == [] then "" else if |values| == 1 then values[0] else Lines(Init(values)) + "\n" + Last(values)
  }

  lemma {:induction false} BufferedLines(lines: seq<string>)
    requires forall l :: l in lines ==> l != ""
    ensures ReadAll(START, lines) == Reading([], Buffering(lines))
  {
    hide Buffered;
    if lines != [] {
      assert forall l :: l in Init(lines) ==> l in lines;
      BufferedLines(Init(lines));
      assert Last(lines) in lines;
    }
  }

  lemma RegularEvents(block: string)
    requires Regular(block)
    ensures BlockEvents(block) == Dispatched(Buffering(Split(Trim(block), "\n")))
  {
    hide Trim, Split, Buffering, Clean;
    var body := Trim(block);
    var lines := Split(body, "\n");
    CleanIsThere(lines);
    BufferedLines(lines);
    assert Init(lines + [""]) == lines && Last(lines + [""]) == "";
    if block != body {
      SplitAppend("", body);
      EmptySplit();
      assert "" + "\n" + body == block;
      assert [""] + lines + [""] == [""] + (lines + [""]);
      ReadAppend(START, [""], lines + [""]);
      BlankFirst();
    }
  }

  lemma BlankFirst()
    ensures ReadAll(START, [""]) == START
  {
    assert Init([""]) == [];
  }

  lemma CleanIsThere(lines: seq<string>)
    requires forall l :: l in lines ==> Clean(l)
    ensures forall l :: l in lines ==> l != ""
  {
  }

  /** The subscription's fields of clean lines, beside the standard's buffers. */
  lemma {:induction false} FieldsBeside(lines: seq<string>)
    requires forall l :: l in lines ==> Clean(l)
    ensures var m, b := Fields(lines), Buffering(lines);
            && (m.event == b.event || (m.event == "message" && b.event == ""))
            && m.data == Concat(DataOf(lines))
            && b.data == if DataOf(lines) == [] then None else Some(Lines(DataOf(lines)))
  {
    hide Trim, FieldValue, Concat, Lines;
    NoLines();
    if lines != [] {
      var line := Last(lines);
      assert forall l :: l in Init(lines) ==> l in lines;
      FieldsBeside(Init(lines));
      assert line in lines && Clean(line);
      assert StartsWith(line, "data:") ==> line[0] == 'd';
      assert StartsWith(line, "event:") ==> line[0] == 'e';
      var values := DataOf(Init(lines));
      if StartsWith(line, "data:") {
        OneMoreLine(values, After(line, "data:"));
      } else {
        assert values + [] == values;
      }
    }
  }

  lemma {:induction false} OneMoreLine(values: seq<string>, value: string)
    ensures Concat(values + [value]) == Concat(values) + value
    ensures Lines(values + [value]) == if values == [] then value else Lines(values) + "\n" + value
  {
    assert Init(values + [value]) == values;
  }

  function Called<T>(call: Option<(string, T)>): seq<(string, T)> {
    if call.Some? then [call.value] else []
  }

  /** Of a regular block the subscription delivers what the standard does, unless it begins
      with a comment, when it delivers nothing; or its data lines mean another thing run
      together than line by line. A blank payload is taken not to parse. */
  lemma LostExactly<T>(block: string, parse: string -> Option<T>)
    requires Regular(block) && forall s :: parse(s).Some? ==> s != ""
    ensures var lines := Split(Trim(block), "\n");
            var standard := Delivered(BlockEvents(block), CallOf(parse));
            Called(FromBlock(parse)(block)) == standard
            <==> if Trim(block)[0] == ':' then standard == []
                 else Fields(lines).event in {"progress", "chunk", "complete", "error"} ==>
                        parse(Concat(DataOf(lines))) == parse(Lines(DataOf(lines)))
  {
    hide Trim, Split, Fields, DataOf, Concat, Lines, Buffering, BlockEvents, Regular, FromBlock, CallOf, Delivered;
    hide Clean;
    var lines := Split(Trim(block), "\n");
    RegularEvents(block);
    RegularLines(block);
    FieldsBeside(lines);
    NoLines();
    OneDelivered(Buffering(lines), parse);
    TakenFromBlock(block, parse);
    CallIs(parse);
  }

  lemma RegularLines(block: string)
    requires Regular(block)
    ensures Trim(block) != "" && forall l :: l in Split(Trim(block), "\n") ==> Clean(l)
  {
  }

  lemma NoLines()
    ensures Lines([]) == "" && Concat([]) == ""
  {
  }

  lemma OneDelivered<T>(b: Buffers, parse: string -> Option<T>)
    ensures Delivered(Dispatched(b), CallOf(parse))
            == if b.data.None? then []
               else Called(CallOf(parse)(Message(if b.event == "" then "message" else b.event, b.data.value)))
  {
    hide CallOf;
    if b.data.Some? {
      var m := Message(if b.event == "" then "message" else b.event, b.data.value);
      DeliveredSnoc([], m, CallOf(parse));
      DeliveredNothing(CallOf(parse));
      assert [] + [m] == [m];
    }
  }

  /** With one data line at most, the comments in front alone lose events. */
  lemma OneDataLine<T>(block: string, parse: string -> Option<T>)
    requires Regular(block) && (forall s :: parse(s).Some? ==> s != "") && |DataOf(Split(Trim(block), "\n"))| <= 1
    ensures var standard := Delivered(BlockEvents(block), CallOf(parse));
            Called(FromBlock(parse)(block)) == standard <==> (Trim(block)[0] == ':' ==> standard == [])
  {
    hide Trim, Split, Fields, DataOf, BlockEvents, Regular, CallOf, FromBlock, Clean;
    LostExactly(block, parse);
    RegularLines(block);
    var values := DataOf(Split(Trim(block), "\n"));
    NoLines();
    if |values| == 1 {
      OneMoreLine([], values[0]);
      assert [] + [values[0]] == values && "" + values[0] == values[0];
    }
  }

  /** The failing input: an event that a comment precedes. */
  lemma CommentLosesEvent(parse: string -> Option<int>)
    requires parse("1") == Some(1)
    ensures var block := ":c\nevent:progress\ndata:1";
            FromBlock(parse)(block) == None && Delivered(BlockEvents(block), CallOf(parse)) == [("progress", 1)]
  {
    hide Split, Trim, CallOf, Read, ReadAll, FromBlock, Delivered, Join;
    var block := ":c\nevent:progress\ndata:1";
    var a, b, c := ":c", "event:progress", "data:1";
    ThreeJoined(a, b, c);
    assert block == a + "\n" + b + "\n" + c;
    SplitUndoesJoin([a, b, c], '\n');
    TrimKeeps(block);
    TakenFromBlock(block, parse);
    CallIs(parse);
    FourLines(START, a, b, c);
    ReadsThree();
    OneDelivered(Buffers("progress", Some("1")), parse);
  }

  lemma ThreeJoined(a: string, b: string, c: string)
    ensures Join([a, b, c], "\n") == a + "\n" + b + "\n" + c
  {
    assert [a, b, c][1..] == [b, c] && [b, c][1..] == [c];
    assert Join([b, c], "\n") == b + "\n" + c;
  }

  lemma TrimKeeps(s: string)
    requires s != "" && !IsSpace(s[0]) && !IsSpace(s[|s| - 1])
    ensures Trim(s) == s
  {
  }

  lemma ReadsThree()
    ensures Read(Read(Read(Read(START, ":c"), "event:progress"), "data:1"), "")
            == Reading(Dispatched(Buffers("progress", Some("1"))), EMPTY)
  {
    var b, c := "event:progress", "data:1";
    assert Read(START, ":c") == START by { assert ":c"[0] == ':'; }
    assert Read(START, b) == Reading([], Buffers("progress", None)) by {
      assert b[..6] == "event:" && b[6..] == "progress";
    }
    assert Read(Reading([], Buffers("progress", None)), c) == Reading([], Buffers("progress", Some("1"))) by {
      assert c[..5] == "data:" && c[5..] == "1" && c[0] == 'd';
    }
  }

  lemma {:induction false} FourLines(r: Reading, a: string, b: string, c: string)
    ensures ReadAll(r, [a, b, c] + [""]) == Read(Read(Read(Read(r, a), b), c), "")
  {
    hide Read;
    assert Init([a, b, c] + [""]) == [a, b, c] && Init([a, b, c]) == [a, b] && Init([a, b]) == [a] && Init([a]) == [];
    assert ReadAll(r, [a]) == Read(ReadAll(r, []), a);
    assert ReadAll(r, [a, b]) == Read(ReadAll(r, [a]), b);
    assert ReadAll(r, [a, b, c]) == Read(ReadAll(r, [a, b]), c);
  }

  lemma {:induction false} DeliveredCons<T>(blocks: seq<string>, take: string -> Option<(string, T)>)
    requires blocks != []
    ensures Delivered(blocks, take) == Called(take(blocks[0])) + Delivered(blocks[1..], take)
  {
    DeliveredAppend([blocks[0]], blocks[1..], take);
    DeliveredSnoc([], blocks[0], take);
    assert [blocks[0]] + blocks[1..] == blocks && [] + [blocks[0]] == [blocks[0]];
  }

  lemma {:induction false} BlocksAgree<T>(blocks: seq<string>, parse: string -> Option<T>)
    requires forall b :: b in blocks ==> Called(FromBlock(parse)(b)) == Delivered(BlockEvents(b), CallOf(parse))
    ensures Delivered(blocks, FromBlock(parse)) == Delivered(AllEvents(blocks), CallOf(parse))
  {
    hide FromBlock, CallOf, BlockEvents, Delivered, Called;
    if blocks == [] {
      DeliveredNothing(CallOf(parse));
      DeliveredNothing(FromBlock(parse));
    } else {
      BlocksAgree(blocks[1..], parse);
      DeliveredCons(blocks, FromBlock(parse));
      DeliveredAppend(BlockEvents(blocks[0]), AllEvents(blocks[1..]), CallOf(parse));
      assert blocks[0] in blocks;
    }
  }

  /** A stream all of whose blocks are delivered as by the standard is. */
  lemma {:induction false} StreamAgrees<T>(text: string, parse: string -> Option<T>)
    requires forall b :: b in Init(Split(text, "\n\n")) ==>
        Called(FromBlock(parse)(b)) == Delivered(BlockEvents(b), CallOf(parse))
    ensures Events(text, parse) == Delivered(StandardEvents(text), CallOf(parse))
  {
    ByBlocks(text);
    BlocksAgree(Init(Split(text, "\n\n")), parse);
  }
}
