/** Parsers of streamed text: what they deliver does not depend on how the text was
    cut into chunks on its way. */
module StreamParsers {
  import opened Sequences
  import opened Strings

  function Init<T>(s: seq<T>): seq<T>
    requires s != []
  {
    s[..|s| - 1]
  }

  function Last<T>(s: seq<T>): T
    requires s != []
  {
    s[|s| - 1]
  }

  function Concat(chunks: seq<string>): string {
    if chunks == [] then "" else Concat(Init(chunks)) + Last(chunks)
  }

  /** What a chunk adds: all pieces but the last are final, the last is the buffer
      that the next chunk continues. */
  lemma {:induction false} SplitContinues(a: string, b: string, sep: string)
    requires sep != ""
    ensures Split(a + b, sep) == Init(Split(a, sep)) + Split(Last(Split(a, sep)) + b, sep)
    decreases |a|
  {
    hide IndexOf;
    var at := IndexOf(a, sep);
    if at >= 0 {
      Leftmost(a, sep);
      IndexStays(a, b, sep);
      var rest := a[at + |sep|..];
      SplitContinues(rest, b, sep);
      assert (a + b)[..at] == a[..at];
      assert (a + b)[at + |sep|..] == rest + b;
      assert Init(Split(a, sep)) == [a[..at]] + Init(Split(rest, sep));
      assert Last(Split(a, sep)) == Last(Split(rest, sep));
    }
  }

  lemma {:induction false} ChunkStep(chunks: seq<string>, i: nat, done: seq<string>, buffer: string, sep: string)
    requires sep != "" && i < |chunks| && done + [buffer] == Split(Concat(chunks[..i]), sep)
    ensures done + Split(buffer + chunks[i], sep) == Split(Concat(chunks[..i + 1]), sep)
  {
    hide Split;
    SplitContinues(Concat(chunks[..i]), chunks[i], sep);
    assert Init(done + [buffer]) == done;
    assert Init(chunks[..i + 1]) == chunks[..i];
  }

  lemma {:induction false} NoChunks(sep: string)
    requires sep != ""
    ensures Split(Concat([]), sep) == [""]
  {
  }

  lemma {:induction false} AllChunks(chunks: seq<string>)
    ensures Concat(chunks[..|chunks|]) == Concat(chunks)
  {
    assert chunks[..|chunks|] == chunks;
  }

  /** What is delivered of a list of pieces, some of which give nothing. */
  function Delivered<A, T>(pieces: seq<A>, take: A -> Option<T>): seq<T> {
    if pieces == [] then []
    else
      var item := take(Last(pieces));
      Delivered(Init(pieces), take) + if item.Some? then [item.value] else []
  }

  lemma {:induction false} DeliveredSnoc<A, T>(pieces: seq<A>, p: A, take: A -> Option<T>)
    ensures Delivered(pieces + [p], take)
            == Delivered(pieces, take) + if take(p).Some? then [take(p).value] else []
  {
    assert Init(pieces + [p]) == pieces;
  }

  /** One record of a line: blank lines and malformed ones give none. */
  function FromTrimmed<T>(parse: string -> Option<T>): string -> Option<T> {
    (line: string) => if Trim(line) == "" then None else parse(Trim(line))
  }

  function FromUntrimmed<T>(parse: string -> Option<T>): string -> Option<T> {
    (line: string) => if Trim(line) == "" then None else parse(line)
  }

  lemma {:induction false} DeliveredAppend<A, T>(a: seq<A>, b: seq<A>, take: A -> Option<T>)
    ensures Delivered(a + b, take) == Delivered(a, take) + Delivered(b, take)
  {
    if b == [] {
      assert a + b == a;
    } else {
      DeliveredAppend(a, Init(b), take);
      assert Init(a + b) == a + Init(b);
    }
  }

  /** Delivers the complete lines of the buffer and keeps the rest. */
  method TakeLines<T>(text: string, parse: string -> Option<T>) returns (items: seq<T>, buffer: string)
    ensures items == Delivered(Init(Split(text, "\n")), FromTrimmed(parse)) && buffer == Last(Split(text, "\n"))
  {
    hide *;
    ghost var lines: seq<string> := [];
    buffer, items := text, [];
    DeliveredNothing(FromTrimmed(parse));
    var newlineIdx := IndexOf(buffer, "\n");
    SplitWhole(buffer, "\n");
    while newlineIdx != -1
      invariant newlineIdx == IndexOf(buffer, "\n") && -1 <= newlineIdx < |buffer| + 1
      invariant lines + Split(buffer, "\n") == Split(text, "\n")
      invariant items == Delivered(lines, FromTrimmed(parse))
      decreases |buffer|
    {
      SplitWhole(buffer, "\n");
      DeliveredSnoc(lines, buffer[..newlineIdx], FromTrimmed(parse));
      TakenTrimmed(buffer[..newlineIdx], parse);
      lines := lines + [buffer[..newlineIdx]];
      var line := Trim(buffer[..newlineIdx]);
      buffer := buffer[newlineIdx + 1..];
      newlineIdx := IndexOf(buffer, "\n");
      SplitWhole(buffer, "\n");
      if line != "" && parse(line).Some? { items := items + [parse(line).value]; }
    }
    SplitWhole(buffer, "\n");
    InitLast(lines, buffer);
  }

  method StreamNdjson<T>(chunks: seq<string>, parse: string -> Option<T>) returns (items: seq<T>)
    ensures items == Delivered(Split(Concat(chunks), "\n"), FromTrimmed(parse))
  {
    hide *;
    ghost var take, lines: seq<string> := FromTrimmed(parse), [];
    var buffer := "";
    items := [];
    NoChunks("\n");
    DeliveredNothing(take);
    for i := 0 to |chunks|
      invariant lines + [buffer] == Split(Concat(chunks[..i]), "\n")
      invariant items == Delivered(lines, take)
    {
      ChunkStep(chunks, i, lines, buffer, "\n");
      ghost var pieces := Split(buffer + chunks[i], "\n");
      var more, rest := TakeLines(buffer + chunks[i], parse);
      DeliveredAppend(lines, Init(pieces), take);
      FromInitLast(pieces);
      assert lines + Init(pieces) + [rest] == lines + pieces;
      lines, items, buffer := lines + Init(pieces), items + more, rest;
    }
    AllChunks(chunks);
    var remaining := Trim(buffer);
    DeliveredSnoc(lines, buffer, take);
    TakenTrimmed(buffer, parse);
    if remaining != "" && parse(remaining).Some? { items := items + [parse(remaining).value]; }
  }

  lemma InitLast(pieces: seq<string>, last: string)
    ensures Init(pieces + [last]) == pieces && Last(pieces + [last]) == last
  {
  }

  lemma FromInitLast(pieces: seq<string>)
    requires pieces != []
    ensures pieces == Init(pieces) + [Last(pieces)]
  {
  }

  lemma DeliveredNothing<A, T>(take: A -> Option<T>)
    ensures Delivered([], take) == []
  {
  }

  lemma TakenTrimmed<T>(line: string, parse: string -> Option<T>)
    ensures FromTrimmed(parse)(line) == if Trim(line) == "" then None else parse(Trim(line))
  {
  }

  lemma {:induction false} SplitWhole(s: string, sep: string)
    requires sep != ""
    ensures var at := IndexOf(s, sep);
            && -1 <= at
            && (at < 0 ==> Split(s, sep) == [s])
            && (at >= 0 ==> at + |sep| <= |s| && Split(s, sep) == [s[..at]] + Split(s[at + |sep|..], sep))
  {
  }

  predicate NotBlank(line: string) {
    Trim(line) != ""
  }

  lemma {:induction false} BlankGivesNone<T>(all: seq<string>, parse: string -> Option<T>)
    ensures Delivered(Filter(all, NotBlank), parse) == Delivered(all, FromUntrimmed(parse))
  {
    hide Trim;
    if all != [] {
      BlankGivesNone(Init(all), parse);
      var kept := Filter(Init(all), NotBlank);
      DeliveredSnoc(kept, Last(all), parse);
      assert Filter(all, NotBlank) == if NotBlank(Last(all)) then kept + [Last(all)] else kept;
    }
  }

  /** The way without streaming: the whole text at once. */
  method ReadNdjson<T>(text: string, parse: string -> Option<T>) returns (items: seq<T>)
    ensures items == Delivered(Split(text, "\n"), FromUntrimmed(parse))
  {
    hide Split, Trim;
    var all := Split(text, "\n");
    var lines := Filter(all, NotBlank);
    items := [];
    for i := 0 to |lines|
      invariant items == Delivered(lines[..i], parse)
    {
      assert lines[..i + 1] == lines[..i] + [lines[i]];
      DeliveredSnoc(lines[..i], lines[i], parse);
      if parse(lines[i]).Some? { items := items + [parse(lines[i]).value]; }
    }
    assert lines[..|lines|] == lines;
    BlankGivesNone(all, parse);
  }

  /** Streaming and the fallback agree exactly when each line that parses once trimmed
      parses as it stands; trimming is taken never to spoil a line or change it. */
  lemma {:induction false} FallbackAgrees<T>(text: string, parse: string -> Option<T>)
    requires forall l :: parse(l).Some? ==> parse(l) == parse(Trim(l))
    ensures Delivered(Split(text, "\n"), FromTrimmed(parse)) == Delivered(Split(text, "\n"), FromUntrimmed(parse))
            <==> forall l :: l in Split(text, "\n") && Trim(l) != "" && parse(Trim(l)).Some? ==> parse(l).Some?
  {
    DeliveredAlike(Split(text, "\n"), parse);
  }

  ghost predicate ParseAsTheyStand<T>(lines: seq<string>, parse: string -> Option<T>) {
    forall l :: l in lines && Trim(l) != "" && parse(Trim(l)).Some? ==> parse(l).Some?
  }

  lemma {:induction false} DeliveredAlike<T>(lines: seq<string>, parse: string -> Option<T>)
    requires forall l :: parse(l).Some? ==> parse(l) == parse(Trim(l))
    ensures var (streamed, whole) := (Delivered(lines, FromTrimmed(parse)), Delivered(lines, FromUntrimmed(parse)));
            && |whole| <= |streamed|
            && (ParseAsTheyStand(lines, parse) ==> streamed == whole)
            && (|whole| == |streamed| ==> ParseAsTheyStand(lines, parse))
  {
    hide Trim;
    if lines != [] {
      DeliveredAlike(Init(lines), parse);
      assert forall l :: l in lines <==> l in Init(lines) || l == Last(lines);
    }
  }

  datatype Message = Message(event: string, data: string)

  predicate StartsWith(s: string, prefix: string) {
    prefix <= s
  }

  function After(s: string, prefix: string): string
    requires StartsWith(s, prefix)
  {
    Trim(s[|prefix|..])
  }

  /** The fields after so many lines: the last event named, and all data run together. */
  function Fields(lines: seq<string>): Message {
    if lines == [] then Message("message", "")
    else
      var m, line := Fields(Init(lines)), Last(lines);
      if StartsWith(line, "event:") then m.(event := After(line, "event:"))
      else if StartsWith(line, "data:") then m.(data := m.data + After(line, "data:"))
      else m
  }

  function MessageOf(block: string): Option<Message> {
    var m := Fields(Split(block, "\n"));
    if m.data == "" then None else Some(m)
  }

  method ParseSseBlock(block: string) returns (m: Option<Message>)
    ensures m == MessageOf(block)
  {
    hide Split, Trim;
    var lines := Split(block, "\n");
    var event, data := "message", "";
    for i := 0 to |lines|
      invariant Message(event, data) == Fields(lines[..i])
    {
      assert Init(lines[..i + 1]) == lines[..i];
      var line := lines[i];
      if StartsWith(line, "event:") {
        event := After(line, "event:");
      } else if StartsWith(line, "data:") {
        data := data + After(line, "data:");
      }
    }
    assert lines[..|lines|] == lines;
    return if data == "" then None else Some(Message(event, data));
  }

  /** A block makes no message exactly when no data line of it says anything. */
  lemma {:induction false} NoMessageExactly(lines: seq<string>)
    ensures Fields(lines).data == ""
            <==> forall l :: l in lines && StartsWith(l, "data:") ==> After(l, "data:") == ""
  {
    hide After;
    if lines != [] {
      NoMessageExactly(Init(lines));
      assert forall l :: l in lines <==> l in Init(lines) || l == Last(lines);
      assert StartsWith(Last(lines), "event:") ==> Last(lines)[0] == 'e';
      assert StartsWith(Last(lines), "data:") ==> Last(lines)[0] == 'd';
    }
  }

  /** A line of a field: its name and a colon in front. */
  predicate Names(line: string, field: string) {
    |line| >= |field| && line[..|field|] == field
  }

  lemma {:induction false} EventNamed(lines: seq<string>) returns (i: int)
    ensures -1 <= i < |lines| && forall j :: i < j < |lines| ==> !Names(lines[j], "event:")
    ensures i < 0 ==> Fields(lines).event == "message"
    ensures i >= 0 ==> Names(lines[i], "event:") && Fields(lines).event == Trim(lines[i][6..])
  {
    hide Trim;
    if lines == [] {
      i := -1;
    } else {
      i := EventNamed(Init(lines));
      var line := Last(lines);
      assert StartsWith(line, "event:") <==> Names(line, "event:");
      if Names(line, "event:") { i := |lines| - 1; }
    }
  }

  /** A block makes no message exactly when each of its data lines is blank behind the
      colon; the event of one it makes is the last that a line names, or `message`. */
  lemma MessageTells(block: string) returns (i: int)
    ensures var lines, m := Split(block, "\n"), MessageOf(block);
            && (m.None? <==> forall l :: l in lines && Names(l, "data:") ==> Trim(l[5..]) == "")
            && -1 <= i < |lines| && (forall j :: i < j < |lines| ==> !Names(lines[j], "event:"))
            && (m.Some? && i < 0 ==> m.value.event == "message")
            && (m.Some? && i >= 0 ==> Names(lines[i], "event:") && m.value.event == Trim(lines[i][6..]))
  {
    hide Trim, Split;
    var lines := Split(block, "\n");
    NoMessageExactly(lines);
    assert forall l :: StartsWith(l, "data:") <==> Names(l, "data:");
    i := EventNamed(lines);
  }

  /** What a handler is called with for a block, if one is. */
  function FromBlock<T>(parse: string -> Option<T>): string -> Option<(string, T)> {
    (block: string) =>
      var trimmed := Trim(block);
      if trimmed == "" || trimmed[0] == ':' then None
      else
        var m := MessageOf(trimmed);
        if m.None? then None else CallOf(parse)(m.value)
  }

  /** What one is called with for a message. */
  function CallOf<T>(parse: string -> Option<T>): Message -> Option<(string, T)> {
    (m: Message) =>
      if m.event !in {"progress", "chunk", "complete", "error"} then None
      else
        var payload := parse(m.data);
        if payload.None? then None else Some((m.event, payload.value))
  }

  lemma TakenFromBlock<T>(block: string, parse: string -> Option<T>)
    ensures var trimmed := Trim(block);
            FromBlock(parse)(block) == if trimmed == "" || trimmed[0] == ':' || MessageOf(trimmed).None? then None
                                       else CallOf(parse)(MessageOf(trimmed).value)
  {
    hide Trim, MessageOf;
  }

  lemma CallIs<T>(parse: string -> Option<T>)
    ensures forall m :: CallOf(parse)(m) == if m.event in {"progress", "chunk", "complete", "error"}
        && parse(m.data).Some?
                                            then Some((m.event, parse(m.data).value)) else None
  {
  }

  /** The events of a stream: those of all its blocks but the last, which no blank
      line ended (WHATWG HTML, section 9.2.6). */
  function Events<T>(text: string, parse: string -> Option<T>): seq<(string, T)> {
    Delivered(Init(Split(text, "\n\n")), FromBlock(parse))
  }

  method HandleBlocks<T>(blocks: seq<string>, parse: string -> Option<T>) returns (calls: seq<(string, T)>)
    ensures calls == Delivered(blocks, FromBlock(parse))
  {
    hide Trim, MessageOf, FromBlock, CallOf;
    calls := [];
    CallIs(parse);
    for j := 0 to |blocks|
      invariant calls == Delivered(blocks[..j], FromBlock(parse))
    {
      assert blocks[..j + 1] == blocks[..j] + [blocks[j]];
      DeliveredSnoc(blocks[..j], blocks[j], FromBlock(parse));
      TakenFromBlock(blocks[j], parse);
      var trimmed := Trim(blocks[j]);
      if trimmed == "" || trimmed[0] == ':' { continue; }
      var m := ParseSseBlock(trimmed);
      if m == None { continue; }
      if m.value.event in {"progress", "chunk", "complete", "error"} && parse(m.value.data).Some? {
        calls := calls + [(m.value.event, parse(m.value.data).value)];
      }
    }
    assert blocks[..|blocks|] == blocks;
  }

  method SubscribeToSse<T>(chunks: seq<string>, parse: string -> Option<T>) returns (calls: seq<(string, T)>)
    ensures calls == Events(Concat(chunks), parse)
  {
    hide Split, Delivered, FromBlock, Concat, IndexOf, OccursAt;
    ghost var done: seq<string> := [];
    var buffer := "";
    calls := [];
    NoChunks("\n\n");
    DeliveredNothing(FromBlock(parse));
    for i := 0 to |chunks|
      invariant done + [buffer] == Split(Concat(chunks[..i]), "\n\n")
      invariant calls == Delivered(done, FromBlock(parse))
    {
      ChunkStep(chunks, i, done, buffer, "\n\n");
      var pieces := Split(buffer + chunks[i], "\n\n");
      var blocks := Init(pieces);
      buffer := Last(pieces);
      var more := HandleBlocks(blocks, parse);
      DeliveredAppend(done, blocks, FromBlock(parse));
      assert done + blocks + [buffer] == done + pieces;
      done, calls := done + blocks, calls + more;
    }
    AllChunks(chunks);
    assert Init(done + [buffer]) == done;
  }

  /** A tail that no blank line ends changes nothing. */
  lemma {:induction false} TailDiscarded<T>(text: string, tail: string, parse: string -> Option<T>)
    requires IndexOf(Last(Split(text, "\n\n")) + tail, "\n\n") < 0
    ensures Events(text + tail, parse) == Events(text, parse)
  {
    hide IndexOf, FromBlock;
    SplitContinues(text, tail, "\n\n");
    SplitWhole(Last(Split(text, "\n\n")) + tail, "\n\n");
    var pieces := Init(Split(text, "\n\n"));
    assert Init(pieces + [Last(Split(text, "\n\n")) + tail]) == pieces;
  }

  /** Of a stream whose lines end in CR LF, which the standard allows, nothing is
      ever delivered. */
  lemma CarriageReturnsDeliverNothing<T>(text: string, parse: string -> Option<T>)
    requires forall i :: 0 <= i < |text| && text[i] == '\n' ==> i > 0 && text[i - 1] == '\r'
    ensures Events(text, parse) == []
  {
    forall k: nat ensures !OccursAt(text, "\n\n", k) {
      if k + 2 <= |text| {
        assert text[k..k + 2][0] == text[k] && text[k..k + 2][1] == text[k + 1];
      }
    }
    SplitWhole(text, "\n\n");
    assert Init([text]) == [];
  }
}
