/** Server-sent events: reading blocks, and delivering progress up to the first terminal event. */
module SseEvents {
  import opened Wrappers
  import opened Text
  import opened SseSplitting

  datatype StreamEvent = StreamEvent(event: string, data: string)

  datatype Progress = Progress(
    jobId: string, repositoryId: string, stage: string, percentage: real, message: string, timestamp: string)

  /** How consuming a stream ended. */
  datatype Ending = Terminal | Malformed | Disconnected

  // ---------- Blocks ----------

  function StripReturn(line: string): string {
    if line != "" && line[|line| - 1] == '\r' then line[..|line| - 1] else line
  }

  /** The lines of a block; a line end is `\n`, with a `\r` before it taken along. */
  function Lines(block: string): (lines: seq<string>)
    ensures |lines| >= 1
  {
    var parts := Split(block, '\n');
    seq(|parts|, i requires 0 <= i < |parts| => if i == |parts| - 1 then parts[i] else StripReturn(parts[i]))
  }

  function FieldValue(line: string, field: string): Option<string> {
    if field + ":" <= line then
      var value := line[|field| + 1..];
      Some(if value != "" && value[0] == ' ' then value[1..] else value)
    else None
  }

  predicate Skipped(line: string) { line == "" || line[0] == ':' }

  /** The values of a field on the lines that carry it, in order. */
  function Values(lines: seq<string>, field: string): seq<string> {
    if lines == [] then []
    else
      var last := lines[|lines| - 1];
      Values(lines[..|lines| - 1], field) +
        if Skipped(last) || FieldValue(last, field).None? then [] else [FieldValue(last, field).value]
  }

  /** The last event name, where an empty or missing one is "message". */
  function EventName(names: seq<string>): string {
    if names == [] || names[|names| - 1] == "" then "message" else names[|names| - 1]
  }

  /** What a block says: its last event name, and all its data values on lines of their own. */
  function BlockEvent(block: string): Option<StreamEvent> {
    var data := Values(Lines(block), "data");
    if data == [] then None else Some(StreamEvent(EventName(Values(Lines(block), "event")), Join(data, '\n')))
  }

  method ParseSseBlock(block: string) returns (result: Option<StreamEvent>)
    ensures result == BlockEvent(block)
  {
    hide FieldValue, Skipped;
    var event, data := "message", [];
    var lines := Lines(block);
    for i := 0 to |lines|
      invariant event == EventName(Values(lines[..i], "event"))
      invariant data == Values(lines[..i], "data")
    {
      var line := lines[i];
      assert lines[..i + 1][..i] == lines[..i];
      if Skipped(line) {
        continue;
      }
      var eventValue := FieldValue(line, "event");
      if eventValue.Some? {
        event := if eventValue.value == "" then "message" else eventValue.value;
      }
      var dataValue := FieldValue(line, "data");
      if dataValue.Some? {
        data := data + [dataValue.value];
      }
    }
    assert lines[..|lines|] == lines;
    result := if data == [] then None else Some(StreamEvent(event, Join(data, '\n')));
  }

  // ---------- Delivery ----------

  predicate IsTerminal(event: StreamEvent, progress: Progress) {
    event.event == "completed" || event.event == "failed" || progress.stage == "completed" || progress.stage == "failed"
  }

  predicate Ignored(event: Option<StreamEvent>) { event.None? || event.value.event == "heartbeat" }

  /**
   One event after what was delivered before it. `parse` reads the data of an
   event, `None` when it is malformed.
   */
  function DeliverNext(before: (seq<Progress>, Ending), event: Option<StreamEvent>, parse: string -> Option<Progress>)
    : (seq<Progress>, Ending)
  {
    if before.1 != Disconnected || Ignored(event) then before
    else
      match parse(event.value.data)
      case None => (before.0, Malformed)
      case Some(progress) =>
        (before.0 + [progress], if IsTerminal(event.value, progress) then Terminal else Disconnected)
  }

  /**
   What the blocks deliver: the progress of each event that is not ignored, up
   to and including the first terminal one, or up to the first malformed one.
   */
  function Delivered(blocks: seq<string>, parse: string -> Option<Progress>): (seq<Progress>, Ending) {
    if blocks == [] then ([], Disconnected)
    else DeliverNext(Delivered(blocks[..|blocks| - 1], parse), BlockEvent(blocks[|blocks| - 1]), parse)
  }

  /** Once delivery has ended, further blocks add nothing. */
  lemma {:induction false} EndedStaysEnded(blocks: seq<string>, more: seq<string>, parse: string -> Option<Progress>)
    ensures Delivered(blocks, parse).1 != Disconnected ==> Delivered(blocks + more, parse) == Delivered(blocks, parse)
  {
    if more == [] {
      assert blocks + more == blocks;
    } else {
      assert (blocks + more)[..|blocks + more| - 1] == blocks + more[..|more| - 1];
      EndedStaysEnded(blocks, more[..|more| - 1], parse);
    }
  }

  /**
   The consuming loop. The signal is aborted after `rounds` chunks, or never
   before the stream is done when there are fewer.
   */
  method ConsumeStream(chunks: seq<string>, rounds: nat, parse: string -> Option<Progress>)
    returns (delivered: seq<Progress>, ending: Ending)
    ensures (delivered, ending) == Delivered(Blocks(Concat(chunks[..Min(rounds, |chunks|)])), parse)
  {
    hide Blocks, Rest, Delivered, BlockEvent, Concat;
    var buffer, i := "", 0;
    delivered, ending := [], Disconnected;
    assert Fed(chunks[..0]) == ([], "");
    assert Delivered([], parse) == ([], Disconnected) by { NothingDelivered(parse); }
    ghost var blocks := [];
    while i < rounds && i < |chunks|
      invariant i <= |chunks| && i <= rounds
      invariant Fed(chunks[..i]) == (blocks, buffer)
      invariant (delivered, ending) == Delivered(blocks, parse) && ending == Disconnected
    {
      var text := buffer + chunks[i];
      assert chunks[..i + 1][..i] == chunks[..i];
      var complete := Blocks(text);
      delivered, ending := DeliverBlocks(delivered, blocks, complete, parse);
      ghost var all := blocks + complete;
      if ending != Disconnected {
        BlocksAreReached(chunks, i + 1, Min(rounds, |chunks|), all, parse);
        return;
      }
      buffer := Rest(text);
      blocks := all;
      i := i + 1;
    }
    assert i == Min(rounds, |chunks|);
    ChunksDoNotMatter(chunks[..i]);
  }

  lemma NothingDelivered(parse: string -> Option<Progress>)
    ensures Delivered([], parse) == ([], Disconnected)
  {
  }

  /** When delivery ends early, the chunks not read would not have changed it. */
  lemma BlocksAreReached(chunks: seq<string>, i: nat, n: nat, blocks: seq<string>, parse: string -> Option<Progress>)
    requires i <= n <= |chunks|
    ensures Fed(chunks[..i]).0 == blocks && Delivered(blocks, parse).1 != Disconnected ==>
      Delivered(Blocks(Concat(chunks[..n])), parse) == Delivered(blocks, parse)
  {
    hide Blocks, Rest, Delivered;
    ChunksDoNotMatter(chunks[..i]);
    ConcatOfMore(chunks, i, n);
    var more := Concat(chunks[..n])[|Concat(chunks[..i])|..];
    BlocksOfMore(Concat(chunks[..i]), more);
    EndedStaysEnded(blocks, Blocks(Rest(Concat(chunks[..i])) + more), parse);
  }

  lemma {:induction false} ConcatOfMore(chunks: seq<string>, i: nat, n: nat)
    requires i <= n <= |chunks|
    ensures |Concat(chunks[..i])| <= |Concat(chunks[..n])|
    ensures Concat(chunks[..n]) == Concat(chunks[..i]) + Concat(chunks[..n])[|Concat(chunks[..i])|..]
    decreases n
  {
    if i < n {
      ConcatOfMore(chunks, i, n - 1);
      assert chunks[..n][..n - 1] == chunks[..n - 1];
    }
  }

  /** Delivers the blocks of one chunk after those of earlier chunks. */
  method DeliverBlocks(
    before: seq<Progress>, ghost earlier: seq<string>, blocks: seq<string>, parse: string -> Option<Progress>)
    returns (delivered: seq<Progress>, ending: Ending)
    requires Delivered(earlier, parse) == (before, Disconnected)
    ensures (delivered, ending) == Delivered(earlier + blocks, parse)
  {
    hide BlockEvent, IsTerminal;
    delivered, ending := before, Disconnected;
    assert earlier + blocks[..0] == earlier;
    for i := 0 to |blocks|
      invariant Delivered(earlier + blocks[..i], parse) == (delivered, ending) && ending == Disconnected
    {
      assert (earlier + blocks[..i + 1])[..|earlier| + i] == earlier + blocks[..i];
      assert earlier + blocks == earlier + blocks[..i + 1] + blocks[i + 1..];
      var parsed := ParseSseBlock(blocks[i]);
      if Ignored(parsed) {
        continue;
      }
      var progress := parse(parsed.value.data);
      if progress.None? {
        ending := Malformed;
        EndedStaysEnded(earlier + blocks[..i + 1], blocks[i + 1..], parse);
        return;
      }
      delivered := delivered + [progress.value];
      if IsTerminal(parsed.value, progress.value) {
        ending := Terminal;
        EndedStaysEnded(earlier + blocks[..i + 1], blocks[i + 1..], parse);
        return;
      }
    }
    assert blocks[..|blocks|] == blocks;
  }

  // ---------- What a sender writes is what is delivered ----------

  /** The two line ends. */
  const LINE_ENDS: set<string> := {"\n", "\r\n"}

  /** Lines with line ends between them. */
  function Ended(lines: seq<string>, ends: seq<string>): (s: string)
    requires |lines| == |ends| + 1
    ensures ends == [] ==> s == lines[0]
  {
    if ends == [] then lines[0] else lines[0] + ends[0] + Ended(lines[1..], ends[1..])
  }

  /** A line that ends in `\r\n` keeps its `\r` when the text is split at `\n`. */
  function WithReturns(lines: seq<string>, ends: seq<string>): (r: seq<string>)
    requires |lines| == |ends| + 1
    ensures |r| == |lines|
  {
    seq(|lines|, i requires 0 <= i < |lines| =>
      if i < |ends| && ends[i] == "\r\n" then lines[i] + "\r" else lines[i])
  }

  lemma {:induction false} EndedIsJoined(lines: seq<string>, ends: seq<string>)
    requires |lines| == |ends| + 1 && forall i :: 0 <= i < |ends| ==> ends[i] in LINE_ENDS
    ensures Ended(lines, ends) == Join(WithReturns(lines, ends), '\n')
  {
    var joined := WithReturns(lines, ends);
    if ends != [] {
      EndedIsJoined(lines[1..], ends[1..]);
      assert joined[1..] == WithReturns(lines[1..], ends[1..]);
      assert lines[0] + ends[0] == joined[0] + "\n";
    }
  }

  /** With either line end the same lines are read. */
  lemma LinesOfEnded(lines: seq<string>, ends: seq<string>)
    requires |lines| == |ends| + 1 && forall i :: 0 <= i < |ends| ==> ends[i] in LINE_ENDS
    requires AllLack(lines, '\n') && AllLack(lines, '\r')
    ensures Lines(Ended(lines, ends)) == lines
  {
    var joined := WithReturns(lines, ends);
    EndedIsJoined(lines, ends);
    forall i | 0 <= i < |lines| ensures Lacks(joined[i], '\n') && (i < |ends| ==> StripReturn(joined[i]) == lines[i]) {
      assert Lacks(lines[i], '\n') && Lacks(lines[i], '\r');
    }
    SplitOfJoin(joined, '\n');
  }

  /** A line of a block: a name, a colon, an optional space and a value. Without a name it is a comment. */
  datatype Field = Field(name: string, spaced: bool, value: string)

  predicate ValidField(f: Field) {
    && Lacks(f.name, '\n') && Lacks(f.name, '\r') && Lacks(f.name, ':')
    && Lacks(f.value, '\n') && Lacks(f.value, '\r')
    && (f.spaced || f.value == "" || f.value[0] != ' ')
  }

  function FieldText(f: Field): string { f.name + (if f.spaced then ": " else ":") + f.value }

  function FieldTexts(fields: seq<Field>): (r: seq<string>)
    ensures |r| == |fields| && forall i :: 0 <= i < |r| ==> r[i] == FieldText(fields[i])
  {
    seq(|fields|, i requires 0 <= i < |fields| => FieldText(fields[i]))
  }

  /** The values of the fields of a name, in order. */
  function ValuesNamed(fields: seq<Field>, name: string): seq<string> {
    if fields == [] then []
    else
      var last := fields[|fields| - 1];
      ValuesNamed(fields[..|fields| - 1], name) + if last.name == name then [last.value] else []
  }

  /** A line carries the field it was written for and no other, with or without the space. */
  lemma FieldExactly(f: Field, name: string)
    requires ValidField(f) && Lacks(name, ':')
    ensures FieldValue(FieldText(f), name) == if f.name == name then Some(f.value) else None
    ensures Skipped(FieldText(f)) <==> f.name == ""
  {
    var line := FieldText(f);
    assert line[|f.name|] == ':' && line[..|f.name|] == f.name;
    assert line[|f.name| + 1..] == if f.spaced then " " + f.value else f.value;
    if name + ":" <= line {
      assert line[|name|] == (name + ":")[|name|];
      assert forall j :: 0 <= j < |name| ==> line[j] == (name + ":")[j] && line[j] != ':';
      assert forall j :: 0 <= j < |f.name| ==> line[j] == f.name[j] && line[j] != ':';
      assert name == line[..|name|];
    }
  }

  lemma {:induction false} ValuesOfFields(fields: seq<Field>, name: string)
    requires (forall i :: 0 <= i < |fields| ==> ValidField(fields[i])) && name != "" && Lacks(name, ':')
    ensures Values(FieldTexts(fields), name) == ValuesNamed(fields, name)
  {
    hide FieldValue, Skipped, FieldText, ValidField, Lacks;
    if fields != [] {
      var last := |fields| - 1;
      ValuesOfFields(fields[..last], name);
      FieldExactly(fields[last], name);
      assert FieldTexts(fields)[..last] == FieldTexts(fields[..last]);
    }
  }

  /** Where the last field of a name stands, its value is the last one. */
  lemma {:induction false} LastNamed(fields: seq<Field>, name: string, i: nat)
    requires i < |fields| && fields[i].name == name && forall j :: i < j < |fields| ==> fields[j].name != name
    ensures var values := ValuesNamed(fields, name); values != [] && values[|values| - 1] == fields[i].value
  {
    if i < |fields| - 1 {
      LastNamed(fields[..|fields| - 1], name, i);
    }
  }

  lemma {:induction false} NoneNamed(fields: seq<Field>, name: string)
    ensures ValuesNamed(fields, name) == [] <==> forall i :: 0 <= i < |fields| ==> fields[i].name != name
  {
    if fields != [] {
      NoneNamed(fields[..|fields| - 1], name);
      assert fields[|fields| - 1].name != name || ValuesNamed(fields, name) != [];
    }
  }

  predicate ValidFields(fields: seq<Field>, ends: seq<string>) {
    && |fields| == |ends| + 1
    && (forall i :: 0 <= i < |fields| ==> ValidField(fields[i]))
    && (forall i :: 0 <= i < |ends| ==> ends[i] in LINE_ENDS)
  }

  lemma FieldTextsAreLines(fields: seq<Field>)
    requires forall i :: 0 <= i < |fields| ==> ValidField(fields[i])
    ensures AllLack(FieldTexts(fields), '\n') && AllLack(FieldTexts(fields), '\r')
    ensures forall i :: 0 <= i < |fields| ==> FieldTexts(fields)[i] != ""
  {
    forall i | 0 <= i < |fields| ensures Lacks(FieldTexts(fields)[i], '\n') && Lacks(FieldTexts(fields)[i], '\r') {
      assert ValidField(fields[i]);
    }
  }

  /**
   A block of any fields with any line ends is read as its data values on
   lines of their own under its last event name, "message" where that is
   missing or empty. Comments and other fields say nothing, and neither does
   a block without data.
   */
  lemma FieldsAreRead(fields: seq<Field>, ends: seq<string>, i: nat)
    requires ValidFields(fields, ends)
    ensures var event := BlockEvent(Ended(FieldTexts(fields), ends));
      && (event.None? <==> forall j :: 0 <= j < |fields| ==> fields[j].name != "data")
      && (event.Some? ==> event.value.data == Join(ValuesNamed(fields, "data"), '\n'))
      && (event.Some? && (forall j :: 0 <= j < |fields| ==> fields[j].name != "event") ==>
            event.value.event == "message")
      && (event.Some? && i < |fields| && fields[i].name == "event" &&
          (forall j :: i < j < |fields| ==> fields[j].name != "event") ==>
            event.value.event == if fields[i].value == "" then "message" else fields[i].value)
  {
    hide Ended, Lines, Values, ValuesNamed, Join, Lacks, FieldTexts;
    NamesLackColons();
    FieldTextsAreLines(fields);
    LinesOfEnded(FieldTexts(fields), ends);
    ValuesOfFields(fields, "data");
    ValuesOfFields(fields, "event");
    NoneNamed(fields, "data");
    NoneNamed(fields, "event");
    if i < |fields| && fields[i].name == "event" && forall j :: i < j < |fields| ==> fields[j].name != "event" {
      LastNamed(fields, "event", i);
    }
  }

  lemma NamesLackColons()
    ensures Lacks("event", ':') && Lacks("data", ':')
  {
  }

  // ---------- Events as frames ----------

  /** The fields of an event: its name, then each line of its data. */
  function EventFields(e: StreamEvent): (r: seq<Field>)
    ensures |r| >= 1
  {
    [Field("event", true, e.event)] + DataFields(Split(e.data, '\n'))
  }

  function DataFields(lines: seq<string>): (r: seq<Field>)
    ensures |r| == |lines| && forall i :: 0 <= i < |r| ==> r[i] == Field("data", true, lines[i])
  {
    seq(|lines|, i requires 0 <= i < |lines| => Field("data", true, lines[i]))
  }

  /** The frame of an event, each line but the last with a line end of its own. */
  function Frame(e: StreamEvent, ends: seq<string>): string
    requires |EventFields(e)| == |ends| + 1
  {
    Ended(FieldTexts(EventFields(e)), ends)
  }

  /** Names are not empty and one line; carriage returns cannot be sent. */
  predicate Sendable(e: StreamEvent) {
    e.event != "" && Lacks(e.event, '\n') && Lacks(e.event, '\r') && Lacks(e.data, '\r')
  }

  /** Line ends a frame of the event can be written with. */
  predicate EndsFor(e: StreamEvent, ends: seq<string>) {
    |EventFields(e)| == |ends| + 1 && forall i :: 0 <= i < |ends| ==> ends[i] in LINE_ENDS
  }

  lemma {:induction false} PiecesLackReturn(s: string)
    requires Lacks(s, '\r')
    ensures AllLack(Split(s, '\n'), '\r')
    decreases |s|
  {
    var k := Find(s, '\n');
    if k < |s| {
      PiecesLackReturn(s[k + 1..]);
    }
  }

  lemma FrameIsValid(e: StreamEvent, ends: seq<string>)
    requires Sendable(e) && EndsFor(e, ends)
    ensures ValidFields(EventFields(e), ends)
  {
    hide Split;
    var texts := Split(e.data, '\n');
    JoinOfSplit(e.data, '\n');
    PiecesLackReturn(e.data);
    forall i | 0 <= i < |texts| ensures ValidField(DataFields(texts)[i]) {
      assert Lacks(texts[i], '\n') && Lacks(texts[i], '\r');
    }
  }

  lemma {:induction false} NamedDataFields(first: string, texts: seq<string>)
    ensures ValuesNamed([Field("event", true, first)] + DataFields(texts), "data") == texts
  {
    var fields := [Field("event", true, first)] + DataFields(texts);
    if texts == [] {
      assert fields[..0] == [];
    } else {
      assert fields[..|fields| - 1] == [Field("event", true, first)] + DataFields(texts[..|texts| - 1]);
      NamedDataFields(first, texts[..|texts| - 1]);
    }
  }

  /** Reading a frame gives the event it was made from, whatever line ends it has. */
  lemma FrameIsRead(e: StreamEvent, ends: seq<string>)
    requires Sendable(e) && EndsFor(e, ends)
    ensures BlockEvent(Frame(e, ends)) == Some(e)
  {
    hide BlockEvent, Ended, Join, Split, ValidFields, ValuesNamed;
    FrameIsValid(e, ends);
    FieldsAreRead(EventFields(e), ends, 0);
    NamedDataFields(e.event, Split(e.data, '\n'));
    JoinOfSplit(e.data, '\n');
    assert EventFields(e)[1].name == "data";
  }

  /** A line before a block is a block with it. */
  lemma LineBeforeBlock(line: string, end: string, rest: string)
    requires Lacks(line, '\n') && Lacks(line, '\r') && end in LINE_ENDS
    requires IsBlock(rest) && rest != "" && rest[0] != '\n' && rest[0] != '\r'
    ensures IsBlock(line + end + rest)
  {
    var s, n := line + end + rest, |line| + |end|;
    forall i | 0 <= i <= |s| ensures SeparatorAt(s, i) == 0 {
      if i < |line| {
        assert s[i] == line[i];
      } else if i >= n {
        assert s[n..] == rest;
        assert SeparatorAt(rest, i - n) == 0;
        assert forall j :: i <= j < |s| ==> s[j] == rest[j - n];
      } else {
        assert s[n] == rest[0] && s[i] == end[i - |line|] && s[n - 1] == end[|end| - 1];
      }
    }
  }

  lemma {:induction false} EndedIsBlock(lines: seq<string>, ends: seq<string>)
    requires |lines| == |ends| + 1 && forall i :: 0 <= i < |ends| ==> ends[i] in LINE_ENDS
    requires AllLack(lines, '\n') && AllLack(lines, '\r') && forall i :: 0 <= i < |lines| ==> lines[i] != ""
    ensures IsBlock(Ended(lines, ends))
    ensures var s := Ended(lines, ends); s != "" && s[0] != '\n' && s[0] != '\r'
  {
    assert Lacks(lines[0], '\n') && Lacks(lines[0], '\r');
    if ends != [] {
      hide IsBlock;
      EndedIsBlock(lines[1..], ends[1..]);
      LineBeforeBlock(lines[0], ends[0], Ended(lines[1..], ends[1..]));
    }
  }

  lemma FrameIsBlock(e: StreamEvent, ends: seq<string>)
    requires Sendable(e) && EndsFor(e, ends)
    ensures IsBlock(Frame(e, ends))
  {
    FrameIsValid(e, ends);
    FieldTextsAreLines(EventFields(e));
    EndedIsBlock(FieldTexts(EventFields(e)), ends);
  }

  /** Frames of the events, each with line ends of its own. */
  ghost predicate AreFrames(frames: seq<string>, events: seq<StreamEvent>) {
    |frames| == |events| && forall i :: 0 <= i < |events| ==> IsFrame(frames[i], events[i])
  }

  ghost predicate IsFrame(frame: string, e: StreamEvent) {
    exists ends :: EndsFor(e, ends) && frame == Frame(e, ends)
  }

  lemma AnyFrame(frame: string, e: StreamEvent)
    requires IsFrame(frame, e) && Sendable(e)
    ensures BlockEvent(frame) == Some(e) && IsBlock(frame)
  {
    hide BlockEvent, IsBlock, Frame, Sendable;
    var ends :| EndsFor(e, ends) && frame == Frame(e, ends);
    FrameIsRead(e, ends);
    FrameIsBlock(e, ends);
  }

  /** What a list of events delivers. */
  function Meaning(events: seq<StreamEvent>, parse: string -> Option<Progress>): (seq<Progress>, Ending) {
    if events == [] then ([], Disconnected)
    else DeliverNext(Meaning(events[..|events| - 1], parse), Some(events[|events| - 1]), parse)
  }

  lemma {:induction false} DeliveredFrames(
    frames: seq<string>, events: seq<StreamEvent>, parse: string -> Option<Progress>)
    requires AreFrames(frames, events) && forall i :: 0 <= i < |events| ==> Sendable(events[i])
    ensures Delivered(frames, parse) == Meaning(events, parse)
  {
    hide IsFrame, BlockEvent, DeliverNext, Sendable, Delivered;
    if events == [] {
      NothingDelivered(parse);
    } else {
      var last := |events| - 1;
      DeliveredFrames(frames[..last], events[..last], parse);
      assert frames == frames[..last] + [frames[last]];
      DeliveredOneMore(frames[..last], frames[last], parse);
      AnyFrame(frames[last], events[last]);
    }
  }

  lemma DeliveredOneMore(blocks: seq<string>, block: string, parse: string -> Option<Progress>)
    ensures Delivered(blocks + [block], parse) == DeliverNext(Delivered(blocks, parse), BlockEvent(block), parse)
  {
    assert (blocks + [block])[..|blocks|] == blocks;
  }

  /**
   End to end: whatever events are sent, with any line ends, and however the
   stream is cut into chunks, exactly their progress up to the first terminal
   one is delivered.
   */
  lemma SentIsDelivered(
    events: seq<StreamEvent>, frames: seq<string>, separators: seq<string>, chunks: seq<string>,
    parse: string -> Option<Progress>)
    requires AreFrames(frames, events) && forall i :: 0 <= i < |events| ==> Sendable(events[i])
    requires |separators| == |frames| && forall i :: 0 <= i < |separators| ==> separators[i] in SEPARATORS
    requires Concat(chunks) == Written(frames, separators)
    ensures Delivered(Fed(chunks).0, parse) == Meaning(events, parse)
  {
    hide IsFrame, Delivered, Fed, Pieces, Sendable, IsBlock, Concat, Written, Meaning;
    forall i | 0 <= i < |events| ensures IsBlock(frames[i]) {
      AnyFrame(frames[i], events[i]);
    }
    ChunksDoNotMatter(chunks);
    BlocksOfWritten(frames, separators);
    DeliveredFrames(frames, events, parse);
  }

  // ---------- Which events are delivered ----------

  /** The progress of the events that are no heartbeats, in order. */
  function ProgressOf(events: seq<StreamEvent>, parse: string -> Option<Progress>): seq<Progress> {
    if events == [] then []
    else
      var last := events[|events| - 1];
      ProgressOf(events[..|events| - 1], parse) +
        if last.event == "heartbeat" || parse(last.data).None? then [] else [parse(last.data).value]
  }

  /** Nothing in this event ends delivery. */
  predicate GoesOn(e: StreamEvent, parse: string -> Option<Progress>) {
    || e.event == "heartbeat"
    || (e.event !in {"completed", "failed"} && parse(e.data).Some?
        && parse(e.data).value.stage !in {"completed", "failed"})
  }

  lemma NextExactly(before: seq<Progress>, e: StreamEvent, parse: string -> Option<Progress>)
    ensures DeliverNext((before, Disconnected), Some(e), parse) == (before + ProgressOf([e], parse),
      if GoesOn(e, parse) then Disconnected else if parse(e.data).None? then Malformed else Terminal)
  {
    assert [e][..0] == [] && before + [] == before;
    assert ProgressOf([e], parse) ==
      if e.event == "heartbeat" || parse(e.data).None? then [] else [parse(e.data).value];
  }

  lemma ProgressOfOneMore(events: seq<StreamEvent>, parse: string -> Option<Progress>)
    requires events != []
    ensures var last := |events| - 1;
      ProgressOf(events, parse) == ProgressOf(events[..last], parse) + ProgressOf([events[last]], parse)
  {
    assert [events[|events| - 1]][..0] == [];
  }

  /** Delivery ends at the first event that reports completion or failure, or whose data is malformed. */
  lemma {:induction false} DeliveredExactly(events: seq<StreamEvent>, n: nat, parse: string -> Option<Progress>)
    requires n <= |events| && forall i :: 0 <= i < n ==> GoesOn(events[i], parse)
    ensures n == |events| ==> Meaning(events, parse) == (ProgressOf(events, parse), Disconnected)
    ensures n < |events| && !GoesOn(events[n], parse) ==>
      Meaning(events, parse) == (ProgressOf(events[..n + 1], parse),
        if parse(events[n].data).None? then Malformed else Terminal)
  {
    hide ProgressOf, GoesOn;
    if events == [] {
      assert ProgressOf([], parse) == [] by { NothingSent(parse); }
    } else {
      var last := |events| - 1;
      var before := Meaning(events[..last], parse).0;
      DeliveredExactly(events[..last], if n < last then n else last, parse);
      if n >= last {
        hide DeliverNext;
        assert events[..last + 1] == events;
        NextExactly(before, events[last], parse);
        ProgressOfOneMore(events, parse);
      } else {
        assert events[..last][..n + 1] == events[..n + 1];
      }
    }
  }

  lemma NothingSent(parse: string -> Option<Progress>)
    ensures ProgressOf([], parse) == []
  {
  }
}
