/** The event stream's text: the Hub's printer (apps/hub/src/app.ts) and the Node's framing and
    parser (apps/node/src/events.ts). The format is section 9.2.6 of the WHATWG HTML standard. */
module Sse {
  import opened Wrappers
  import Cursors

  const MAX_BUFFER: nat := 1024 * 1024

  // ----- printing -----

  /** What a frame says; `data` is JSON text. */
  datatype Frame = Message(id: Option<nat>, event: string, data: string) | Keepalive

  /** JSON text and event names hold no line ends. */
  predicate OneLine(text: string) { forall i :: 0 <= i < |text| ==> text[i] != '\n' && text[i] != '\r' }

  predicate Printable(frame: Frame) {
    frame.Message? ==>
      OneLine(frame.event) && OneLine(frame.data) && (frame.id.Some? ==> frame.id.value <= Cursors.MAX_SAFE_INTEGER)
  }

  function Chars(codes: Cursors.Text): string
    requires Cursors.AllDigits(codes)
  {
    seq(|codes|, i requires 0 <= i < |codes| => codes[i] as char)
  }

  function Codes(text: string): Cursors.Text { seq(|text|, i requires 0 <= i < |text| => text[i] as nat) }

  function IdText(id: nat): string {
    Cursors.DecimalIsDigits(id);
    Chars(Cursors.Decimal(id))
  }

  function IdLine(id: Option<nat>): string { if id.Some? then "id: " + IdText(id.value) + "\n" else "" }

  /** A frame without the blank line that ends it. */
  function Body(frame: Frame): string {
    match frame
    case Message(id, event, data) => IdLine(id) + ("event: " + event + "\n" + ("data: " + data))
    case Keepalive => ": keepalive"
  }

  /** sseEvent(), and the keepalive comment. */
  function Print(frame: Frame): string { Body(frame) + "\n\n" }

  function PrintAll(frames: seq<Frame>): string {
    if frames == [] then "" else Print(frames[0]) + PrintAll(frames[1..])
  }

  // ----- framing -----

  /** indexOf("\n\n"), and the length if there is none. */
  function BlankLine(text: string): (r: nat)
    ensures r <= |text| && (r < |text| ==> r + 1 < |text| && text[r] == '\n' && text[r + 1] == '\n')
  {
    if |text| < 2 then |text|
    else if text[0] == '\n' && text[1] == '\n' then 0
    else 1 + BlankLine(text[1..])
  }

  datatype Split = Split(blocks: seq<string>, rest: string)

  /** Cut a text at every blank line, from the front. */
  function SplitBlocks(text: string): Split
    decreases |text|
  {
    var boundary := BlankLine(text);
    if boundary == |text| then Split([], text)
    else Prepend([text[..boundary]], SplitBlocks(text[boundary + 2..]))
  }

  function Prepend(blocks: seq<string>, split: Split): Split { Split(blocks + split.blocks, split.rest) }

  lemma PrependNothing(split: Split)
    ensures Prepend([], split) == split
  {
    assert [] + split.blocks == split.blocks;
  }

  lemma PrependTwice(a: seq<string>, b: seq<string>, split: Split)
    ensures Prepend(a, Prepend(b, split)) == Prepend(a + b, split)
  {
    assert a + (b + split.blocks) == a + b + split.blocks;
  }

  function ConcatAll(chunks: seq<string>): string { if chunks == [] then "" else chunks[0] + ConcatAll(chunks[1..]) }

  /** replaceAll("\r\n", "\n") */
  function Normalize(text: string): string {
    if |text| < 2 then text
    else if text[0] == '\r' && text[1] == '\n' then ['\n'] + Normalize(text[2..])
    else [text[0]] + Normalize(text[1..])
  }

  predicate NoCarriageReturn(text: string) { forall i :: 0 <= i < |text| ==> text[i] != '\r' }

  /** The blocks taken from a buffer and the chunks that follow it; none if the buffer overflows. */
  function Feed(buffer: string, chunks: seq<string>): Option<Split>
    decreases |chunks|
  {
    if chunks == [] then Some(Split([], buffer))
    else
      var longer := buffer + Normalize(chunks[0]);
      if |longer| > MAX_BUFFER then None
      else
        var now := SplitBlocks(longer);
        PrependIf(now.blocks, Feed(now.rest, chunks[1..]))
  }

  method TakeBlocks(text: string) returns (blocks: seq<string>, buffer: string)
    ensures Split(blocks, buffer) == SplitBlocks(text)
  {
    hide BlankLine, Prepend;
    blocks, buffer := [], text;
    PrependNothing(SplitBlocks(text));
    while BlankLine(buffer) < |buffer|
      invariant SplitBlocks(text) == Prepend(blocks, SplitBlocks(buffer))
      decreases |buffer|
    {
      var boundary := BlankLine(buffer);
      var block := buffer[..boundary];
      PrependTwice(blocks, [block], SplitBlocks(buffer[boundary + 2..]));
      buffer := buffer[boundary + 2..];
      blocks := blocks + [block];
    }
    PrependToRest(blocks, buffer);
  }

  lemma PrependToRest(blocks: seq<string>, rest: string)
    ensures Prepend(blocks, Split([], rest)) == Split(blocks, rest)
  {
    assert blocks + [] == blocks;
  }

  function PrependIf(blocks: seq<string>, later: Option<Split>): Option<Split> {
    if later.None? then None else Some(Prepend(blocks, later.value))
  }

  lemma PrependIfTwice(a: seq<string>, b: seq<string>, later: Option<Split>)
    ensures PrependIf(a, PrependIf(b, later)) == PrependIf(a + b, later)
    ensures PrependIf([], later) == later
  {
    if later.Some? {
      PrependTwice(a, b, later.value);
      PrependNothing(later.value);
    }
  }

  /** The reading loop of consume(), up to what it does with each block. */
  method ReadBlocks(chunks: seq<string>) returns (r: Option<Split>)
    ensures r == Feed("", chunks)
  {
    hide SplitBlocks, PrependIf;
    var buffer := "";
    var blocks: seq<string> := [];
    assert chunks[0..] == chunks;
    PrependIfTwice([], [], Feed("", chunks));
    for k := 0 to |chunks|
      invariant Feed("", chunks) == PrependIf(blocks, Feed(buffer, chunks[k..]))
    {
      assert chunks[k..][0] == chunks[k] && chunks[k..][1..] == chunks[k + 1..];
      buffer := buffer + Normalize(chunks[k]);
      if |buffer| > MAX_BUFFER {
        PrependIfNone(blocks);
        return None;
      }
      var taken: seq<string>;
      taken, buffer := TakeBlocks(buffer);
      PrependIfTwice(blocks, taken, Feed(buffer, chunks[k + 1..]));
      blocks := blocks + taken;
    }
    PrependIfRest(blocks, buffer);
    r := Some(Split(blocks, buffer));
  }

  lemma PrependIfNone(blocks: seq<string>)
    ensures PrependIf(blocks, None) == None
  {
  }

  lemma PrependIfRest(blocks: seq<string>, rest: string)
    ensures PrependIf(blocks, Some(Split([], rest))) == Some(Split(blocks, rest))
  {
    PrependToRest(blocks, rest);
  }

  // ----- framing does not depend on the chunks -----

  lemma {:induction false} BlankLineStays(text: string, more: string)
    requires BlankLine(text) < |text|
    ensures BlankLine(text + more) == BlankLine(text)
  {
    if text[0] != '\n' || text[1] != '\n' {
      BlankLineStays(text[1..], more);
      assert (text + more)[1..] == text[1..] + more;
    }
  }

  /** Cutting early and cutting later give the same blocks. */
  lemma {:induction false} SplitInTwo(text: string, more: string)
    ensures SplitBlocks(text + more) == Prepend(SplitBlocks(text).blocks, SplitBlocks(SplitBlocks(text).rest + more))
    decreases |text|
  {
    hide BlankLine;
    var boundary := BlankLine(text);
    if boundary < |text| {
      BlankLineStays(text, more);
      var tail := text[boundary + 2..];
      SplitInTwo(tail, more);
      assert (text + more)[boundary + 2..] == tail + more;
      assert (text + more)[..boundary] == text[..boundary];
      PrependTwice([text[..boundary]], SplitBlocks(tail).blocks, SplitBlocks(SplitBlocks(tail).rest + more));
    } else {
      PrependNothing(SplitBlocks(text + more));
    }
  }

  lemma {:induction false} NormalizeIsIdle(text: string)
    requires NoCarriageReturn(text)
    ensures Normalize(text) == text
  {
    if |text| >= 2 { NormalizeIsIdle(text[1..]); }
  }

  function NormalizedAll(chunks: seq<string>): string {
    if chunks == [] then "" else Normalize(chunks[0]) + NormalizedAll(chunks[1..])
  }

  /** As long as the buffer does not overflow, the blocks are those of the chunks' replaced texts,
      joined. */
  lemma {:induction false} FeedSplitsAll(buffer: string, chunks: seq<string>)
    requires BlankLine(buffer) == |buffer| && Feed(buffer, chunks).Some?
    ensures Feed(buffer, chunks).value == SplitBlocks(buffer + NormalizedAll(chunks))
    decreases |chunks|
  {
    hide BlankLine, Normalize, Prepend;
    if chunks == [] {
      assert buffer + "" == buffer;
    } else {
      var longer := buffer + Normalize(chunks[0]);
      RestHasNoBlankLine(longer);
      FeedSplitsAll(SplitBlocks(longer).rest, chunks[1..]);
      SplitInTwo(longer, NormalizedAll(chunks[1..]));
      assert buffer + NormalizedAll(chunks) == longer + NormalizedAll(chunks[1..]);
    }
  }

  /** A line end CR LF lies across the border of two texts. */
  predicate CutsALineEnd(text: string, more: string) {
    text != "" && more != "" && text[|text| - 1] == '\r' && more[0] == '\n'
  }

  /** Some chunk that is not empty ends in CR and is followed by text that starts with LF. */
  predicate ALineEndIsCut(chunks: seq<string>) {
    chunks != [] && (CutsALineEnd(chunks[0], ConcatAll(chunks[1..])) || ALineEndIsCut(chunks[1..]))
  }

  lemma {:induction false} NormalizeJoins(text: string, more: string)
    ensures !CutsALineEnd(text, more) ==> Normalize(text + more) == Normalize(text) + Normalize(more)
    ensures CutsALineEnd(text, more) ==> |Normalize(text + more)| + 1 == |Normalize(text)| + |Normalize(more)|
    decreases |text|
  {
    var all := text + more;
    if text == "" {
      NothingToReplace();
      assert all == more;
    } else if |text| == 1 {
      OneCharacterJoins(text, more);
    } else {
      var n := if text[0] == '\r' && text[1] == '\n' then 2 else 1;
      var head := if n == 2 then ['\n'] else [text[0]];
      assert all[n..] == text[n..] + more && all[0] == text[0] && all[1] == text[1];
      assert Normalize(text) == head + Normalize(text[n..]) && Normalize(all) == head + Normalize(all[n..]);
      NormalizeJoins(text[n..], more);
      if n == |text| { NothingToReplace(); assert !CutsALineEnd(text, more); }
      Associates(head, Normalize(text[n..]), Normalize(more));
    }
  }

  lemma OneCharacterJoins(text: string, more: string)
    requires |text| == 1
    ensures !CutsALineEnd(text, more) ==> Normalize(text + more) == Normalize(text) + Normalize(more)
    ensures CutsALineEnd(text, more) ==> |Normalize(text + more)| + 1 == |Normalize(text)| + |Normalize(more)|
  {
    var all := text + more;
    if more == "" {
      NothingToReplace();
      assert all == text;
    } else {
      assert all[1..] == more && all[0] == text[0] && all[1] == more[0];
      if CutsALineEnd(text, more) { LineFeedFirst(more); assert all[2..] == more[1..]; }
    }
  }

  lemma Associates(a: string, b: string, c: string)
    ensures a + (b + c) == (a + b) + c
  {
  }

  lemma LineFeedFirst(text: string)
    requires text != "" && text[0] == '\n'
    ensures Normalize(text) == ['\n'] + Normalize(text[1..])
  {
    if |text| == 1 { assert text == ['\n'] + text[1..]; }
  }

  /** Replacing in the chunks is replacing in the whole text exactly if no line end is cut; each one
      cut leaves a character too many. */
  lemma {:induction false} ReplacingChunkByChunk(chunks: seq<string>)
    ensures !ALineEndIsCut(chunks) ==> NormalizedAll(chunks) == Normalize(ConcatAll(chunks))
    ensures ALineEndIsCut(chunks) ==> |NormalizedAll(chunks)| > |Normalize(ConcatAll(chunks))|
    ensures |NormalizedAll(chunks)| >= |Normalize(ConcatAll(chunks))|
    decreases |chunks|
  {
    hide Normalize, CutsALineEnd;
    if chunks != [] {
      ReplacingChunkByChunk(chunks[1..]);
      NormalizeJoins(chunks[0], ConcatAll(chunks[1..]));
    } else {
      NothingToReplace();
    }
  }

  lemma NothingToReplace()
    ensures Normalize("") == ""
  {
  }

  /** A text is put together again from its blocks. */
  function Unsplit(split: Split): string
    decreases |split.blocks|
  {
    if split.blocks == [] then split.rest else split.blocks[0] + "\n\n" + Unsplit(Split(split.blocks[1..], split.rest))
  }

  lemma {:induction false} SplitLosesNothing(text: string)
    ensures Unsplit(SplitBlocks(text)) == text
    decreases |text|
  {
    hide BlankLine;
    var boundary := BlankLine(text);
    if boundary < |text| {
      var tail := text[boundary + 2..];
      SplitLosesNothing(tail);
      var later := SplitBlocks(tail);
      assert ([text[..boundary]] + later.blocks)[1..] == later.blocks;
      assert text == text[..boundary] + "\n\n" + tail;
    }
  }

  /** As long as the buffer does not overflow, the blocks are those of the whole text with its line
      ends replaced, exactly if no chunk border cuts a line end. */
  lemma ChunksDoNotMatterExactlyWhenNoLineEndIsCut(chunks: seq<string>)
    requires Feed("", chunks).Some?
    ensures Feed("", chunks).value == SplitBlocks(Normalize(ConcatAll(chunks))) <==> !ALineEndIsCut(chunks)
  {
    hide Feed, SplitBlocks, Normalize, NormalizedAll, ConcatAll, ALineEndIsCut, Unsplit;
    FeedSplitsAll("", chunks);
    assert "" + NormalizedAll(chunks) == NormalizedAll(chunks);
    ReplacingChunkByChunk(chunks);
    SplitLosesNothing(NormalizedAll(chunks));
    SplitLosesNothing(Normalize(ConcatAll(chunks)));
  }

  lemma {:induction false} NoReturnIsCut(chunks: seq<string>)
    requires forall k :: 0 <= k < |chunks| ==> NoCarriageReturn(chunks[k])
    ensures !ALineEndIsCut(chunks)
    decreases |chunks|
  {
    hide ConcatAll;
    if chunks != [] { NoReturnIsCut(chunks[1..]); }
  }

  /** A text without carriage returns may be cut anywhere. */
  lemma ChunksDoNotMatter(chunks: seq<string>)
    requires NoCarriageReturn(ConcatAll(chunks)) && Feed("", chunks).Some?
    ensures Feed("", chunks).value == SplitBlocks(ConcatAll(chunks))
  {
    hide Feed, SplitBlocks, Normalize, ConcatAll, ALineEndIsCut;
    ChunksHaveNoReturn(chunks);
    NoReturnIsCut(chunks);
    ChunksDoNotMatterExactlyWhenNoLineEndIsCut(chunks);
    NormalizeIsIdle(ConcatAll(chunks));
  }

  lemma {:induction false} RestHasNoBlankLine(text: string)
    ensures BlankLine(SplitBlocks(text).rest) == |SplitBlocks(text).rest|
    decreases |text|
  {
    var boundary := BlankLine(text);
    if boundary < |text| { RestHasNoBlankLine(text[boundary + 2..]); }
  }

  // ----- parsing one block -----

  function IndexOf(text: string, c: char): (r: nat)
    ensures r <= |text| && (r < |text| ==> text[r] == c) && forall i :: 0 <= i < r ==> text[i] != c
  {
    if text == "" || text[0] == c then 0 else 1 + IndexOf(text[1..], c)
  }

  /** split("\n") */
  function Lines(text: string): seq<string>
    decreases |text|
  {
    var end := IndexOf(text, '\n');
    if end == |text| then [text] else [text[..end]] + Lines(text[end + 1..])
  }

  datatype Fields = Fields(event: string, id: Option<nat>, data: seq<string>)

  datatype Parsed = Parsed(id: Option<nat>, event: string, data: string)

  function WithoutReturn(line: string): string {
    if line != "" && line[|line| - 1] == '\r' then line[..|line| - 1] else line
  }

  function ValueAfter(line: string, separator: nat): string {
    if separator >= |line| then ""
    else
      var value := line[separator + 1..];
      if value != "" && value[0] == ' ' then value[1..] else value
  }

  function ReadId(value: string): Option<nat> {
    var codes := Codes(value);
    if value == "" || |value| > 16 || !Cursors.AllDigits(codes) then None
    else if Cursors.ParseDecimal(codes) <= Cursors.MAX_SAFE_INTEGER then Some(Cursors.ParseDecimal(codes))
    else None
  }

  /** One line of a block. */
  function ReadLine(fields: Fields, rawLine: string): Fields {
    var line := WithoutReturn(rawLine);
    if line == "" || line[0] == ':' then fields
    else
      var separator := IndexOf(line, ':');
      var field, value := line[..separator], ValueAfter(line, separator);
      if field == "event" then fields.(event := value)
      else if field == "id" then if ReadId(value).Some? then fields.(id := ReadId(value)) else fields
      else if field == "data" then fields.(data := fields.data + [value])
      else fields
  }

  function ReadLines(fields: Fields, lines: seq<string>): Fields
    decreases |lines|
  {
    if lines == [] then fields else ReadLines(ReadLine(fields, lines[0]), lines[1..])
  }

  function Join(data: seq<string>): string {
    if data == [] then "" else if |data| == 1 then data[0] else data[0] + "\n" + Join(data[1..])
  }

  const NO_FIELDS := Fields("message", None, [])

  function ParseOf(block: string): Option<Parsed> {
    var fields := ReadLines(NO_FIELDS, Lines(block));
    if fields.data == [] then None else Some(Parsed(fields.id, fields.event, Join(fields.data)))
  }

  method ParseBlock(block: string) returns (r: Option<Parsed>)
    ensures r == ParseOf(block)
  {
    hide ReadLine, Lines, Join;
    var event := "message";
    var id: Option<nat> := None;
    var data: seq<string> := [];
    var lines := Lines(block);
    for k := 0 to |lines|
      invariant ReadLines(NO_FIELDS, lines) == ReadLines(Fields(event, id, data), lines[k..])
    {
      var fields := ReadLine(Fields(event, id, data), lines[k]);
      event, id, data := fields.event, fields.id, fields.data;
    }
    r := if data == [] then None else Some(Parsed(id, event, Join(data)));
  }

  // ----- printing and parsing undo each other -----

  lemma {:induction false} FirstIndex(text: string, c: char, more: string)
    requires forall i :: 0 <= i < |text| ==> text[i] != c
    ensures IndexOf(text + [c] + more, c) == |text|
    ensures IndexOf(text, c) == |text|
  {
    if text != "" {
      FirstIndex(text[1..], c, more);
      assert (text + [c] + more)[1..] == text[1..] + [c] + more;
    }
  }

  lemma LinesOfTwo(line: string, more: string)
    requires OneLine(line)
    ensures Lines(line + "\n" + more) == [line] + Lines(more) && Lines(line) == [line]
  {
    FirstIndex(line, '\n', more);
    var text := line + "\n" + more;
    assert text == line + ['\n'] + more;
    assert text[..|line|] == line && text[|line| + 1..] == more;
  }

  /** A printed field reads as its value. */
  lemma FieldReads(name: string, value: string)
    requires OneLine(value) && OneLine(name) && name != "" && forall i :: 0 <= i < |name| ==> name[i] != ':'
    ensures var line := name + ": " + value;
            && WithoutReturn(line) == line && line != "" && line[0] != ':'
            && IndexOf(line, ':') == |name| && line[..|name|] == name && ValueAfter(line, |name|) == value
  {
    var line := name + ": " + value;
    FirstIndex(name, ':', " " + value);
    assert line == name + [':'] + (" " + value);
    assert line[|name| + 1..] == " " + value;
    assert (" " + value)[1..] == value;
    if value != "" { assert line[|line| - 1] == value[|value| - 1]; }
  }

  lemma IdReads(id: nat)
    requires id <= Cursors.MAX_SAFE_INTEGER
    ensures OneLine(IdText(id)) && ReadId(IdText(id)) == Some(id)
  {
    Cursors.DecimalIsDigits(id);
    Cursors.SafeIntegersAreShort(id);
    var codes := Cursors.Decimal(id);
    forall i | 0 <= i < |codes| ensures IdText(id)[i] != '\n' && IdText(id)[i] != '\r' {
      assert Cursors.IsDigit(codes[i]);
    }
    assert Codes(IdText(id)) == codes;
  }

  /** The last two lines of a message. */
  function Tail(event: string, data: string): string { "event: " + event + "\n" + ("data: " + data) }

  lemma TailReads(fields: Fields, event: string, data: string)
    requires OneLine(event) && OneLine(data)
    ensures ReadLines(fields, Lines(Tail(event, data))) == fields.(event := event, data := fields.data + [data])
  {
    hide ReadLine, Lines;
    var first, second := "event: " + event, "data: " + data;
    EventLineReads(fields, event);
    DataLineReads(fields.(event := event), data);
    DataIsOneLine(data);
    EventIsOneLine(event);
    LinesOfTwo(first, second);
    LinesOfTwo(second, "");
    assert Tail(event, data) == first + "\n" + second;
    TwoLines(fields, first, second);
  }

  lemma TwoLines(fields: Fields, first: string, second: string)
    ensures ReadLines(fields, [first] + [second]) == ReadLine(ReadLine(fields, first), second)
  {
    hide ReadLine;
    var lines := [first] + [second];
    assert lines[1..] == [second] && lines[1..][1..] == [];
    assert ReadLines(ReadLine(fields, first), lines[1..]) ==
           ReadLines(ReadLine(ReadLine(fields, first), second), lines[1..][1..]);
  }

  lemma EventIsOneLine(event: string)
    requires OneLine(event)
    ensures OneLine("event: " + event)
  {
  }

  lemma DataIsOneLine(data: string)
    requires OneLine(data)
    ensures OneLine("data: " + data)
  {
  }

  lemma EventLineReads(fields: Fields, event: string)
    requires OneLine(event)
    ensures ReadLine(fields, "event: " + event) == fields.(event := event)
  {
    hide WithoutReturn, ValueAfter, IndexOf;
    FieldReads("event", event);
    assert "event: " + event == "event" + ": " + event;
  }

  lemma DataLineReads(fields: Fields, data: string)
    requires OneLine(data)
    ensures ReadLine(fields, "data: " + data) == fields.(data := fields.data + [data])
  {
    hide WithoutReturn, ValueAfter, IndexOf;
    FieldReads("data", data);
    assert "data: " + data == "data" + ": " + data;
  }

  lemma IdLineReads(id: nat, more: string)
    requires id <= Cursors.MAX_SAFE_INTEGER
    ensures ReadLines(NO_FIELDS, Lines("id: " + IdText(id) + "\n" + more)) ==
            ReadLines(Fields("message", Some(id), []), Lines(more))
  {
    hide IdText, ReadId, Lines;
    IdReads(id);
    FieldReads("id", IdText(id));
    var line := "id: " + IdText(id);
    assert line == "id" + ": " + IdText(id);
    LinesOfTwo(line, more);
    assert ([line] + Lines(more))[1..] == Lines(more);
    assert ReadLine(NO_FIELDS, line) == Fields("message", Some(id), []);
  }

  /** What the Node makes of a frame: a message is read as it was printed, a keepalive as nothing. */
  function Expected(frame: Frame): Option<Parsed> {
    match frame
    case Message(id, event, data) => Some(Parsed(id, event, data))
    case Keepalive => None
  }

  lemma PrintedBlocksParse(frame: Frame)
    requires Printable(frame)
    ensures ParseOf(Body(frame)) == Expected(frame)
  {
    hide ReadLine, IdText;
    match frame
    case Message(id, event, data) =>
      assert Body(frame) == IdLine(id) + Tail(event, data);
      if id.Some? {
        assert Body(frame) == "id: " + IdText(id.value) + "\n" + Tail(event, data);
        IdLineReads(id.value, Tail(event, data));
        TailReads(Fields("message", id, []), event, data);
      } else {
        assert Body(frame) == Tail(event, data);
        TailReads(NO_FIELDS, event, data);
      }
    case Keepalive =>
      LinesOfTwo(": keepalive", "");
      KeepaliveIsAComment();
  }

  lemma KeepaliveIsAComment()
    ensures ReadLine(NO_FIELDS, ": keepalive") == NO_FIELDS
  {
  }

  // ----- a stream of frames -----

  function Bodies(frames: seq<Frame>): seq<string> { seq(|frames|, i requires 0 <= i < |frames| => Body(frames[i])) }

  /** No blank line inside, and no line end at either end. */
  predicate Tight(text: string) {
    && text != "" && text[0] != '\n' && text[|text| - 1] != '\n'
    && forall i :: 0 <= i < |text| - 1 ==> text[i] != '\n' || text[i + 1] != '\n'
  }

  lemma {:induction false} BlankLineAt(body: string, rest: string)
    requires body == ""
             || (body[|body| - 1] != '\n' && forall i :: 0 <= i < |body| - 1 ==> body[i] != '\n' || body[i + 1] != '\n')
    ensures BlankLine(body + "\n\n" + rest) == |body|
  {
    var text := body + "\n\n" + rest;
    if body != "" {
      BlankLineAt(body[1..], rest);
      assert text[1..] == body[1..] + "\n\n" + rest;
      assert text[0] == body[0] && (|body| > 1 ==> text[1] == body[1]);
    }
  }

  lemma JoinIsTight(line: string, more: string)
    requires OneLine(line) && line != "" && Tight(more)
    ensures Tight(line + "\n" + more)
  {
    var text := line + "\n" + more;
    forall i | 0 <= i < |text| - 1 ensures text[i] != '\n' || text[i + 1] != '\n' {
      if i < |line| { assert text[i] == line[i]; }
      else if i == |line| { assert text[i + 1] == more[0]; }
      else { assert text[i] == more[i - |line| - 1] && text[i + 1] == more[i - |line|]; }
    }
  }

  lemma LineIsTight(line: string)
    requires OneLine(line) && line != ""
    ensures Tight(line)
  {
  }

  lemma BodyIsTight(frame: Frame)
    requires Printable(frame)
    ensures Tight(Body(frame))
  {
    hide Tight, IdText;
    match frame
    case Message(id, event, data) =>
      EventIsOneLine(event);
      DataIsOneLine(data);
      LineIsTight("data: " + data);
      JoinIsTight("event: " + event, "data: " + data);
      assert Tail(event, data) == "event: " + event + "\n" + ("data: " + data);
      if id.Some? {
        IdReads(id.value);
        JoinIsTight("id: " + IdText(id.value), Tail(event, data));
        assert Body(frame) == "id: " + IdText(id.value) + "\n" + Tail(event, data);
      } else {
        assert Body(frame) == Tail(event, data);
      }
    case Keepalive => LineIsTight(": keepalive");
  }

  ghost predicate AllPrintable(frames: seq<Frame>) { forall i :: 0 <= i < |frames| ==> Printable(frames[i]) }

  /** A printed stream splits into its frames and nothing else. */
  lemma {:induction false} PrintedStreamSplits(frames: seq<Frame>)
    requires AllPrintable(frames)
    ensures SplitBlocks(PrintAll(frames)) == Split(Bodies(frames), "")
    decreases |frames|
  {
    hide BlankLine, Body;
    if frames != [] {
      var body, rest := Body(frames[0]), PrintAll(frames[1..]);
      BodyIsTight(frames[0]);
      BlankLineAt(body, rest);
      PrintedStreamSplits(frames[1..]);
      var text := PrintAll(frames);
      assert text == body + "\n\n" + rest;
      assert text[..|body|] == body && text[|body| + 2..] == rest;
      assert Bodies(frames) == [body] + Bodies(frames[1..]);
    } else {
      EmptySplits();
    }
  }

  lemma EmptySplits()
    ensures SplitBlocks("") == Split([], "")
  {
  }

  lemma TightHasNoReturn(frame: Frame)
    requires Printable(frame)
    ensures NoCarriageReturn(Print(frame))
  {
    hide IdText, NoCarriageReturn;
    match frame
    case Message(id, event, data) =>
      OneLineHasNoReturn(event);
      OneLineHasNoReturn(data);
      LineHasNoReturn("event: ", event, "\n");
      LineHasNoReturn("data: ", data, "");
      if id.Some? {
        IdReads(id.value);
        OneLineHasNoReturn(IdText(id.value));
        LineHasNoReturn("id: ", IdText(id.value), "\n");
      } else {
        OneLineHasNoReturn("");
      }
      assert "data: " + data + "" == "data: " + data;
      LineHasNoReturn(IdLine(id), "event: " + event + "\n", "data: " + data);
      assert Body(frame) == IdLine(id) + ("event: " + event + "\n") + ("data: " + data);
      LineHasNoReturn(Body(frame), "\n", "\n");
      assert Print(frame) == Body(frame) + "\n" + "\n";
    case Keepalive => OneLineEnds();
  }

  lemma OneLineEnds()
    ensures NoCarriageReturn(Print(Keepalive))
  {
  }

  lemma OneLineHasNoReturn(text: string)
    requires OneLine(text)
    ensures NoCarriageReturn(text) && NoCarriageReturn("\n") && NoCarriageReturn("")
    ensures NoCarriageReturn("id: ") && NoCarriageReturn("event: ") && NoCarriageReturn("data: ")
  {
  }

  lemma LineHasNoReturn(a: string, b: string, c: string)
    requires NoCarriageReturn(a) && NoCarriageReturn(b) && NoCarriageReturn(c)
    ensures NoCarriageReturn(a + b + c)
  {
  }

  lemma {:induction false} StreamHasNoReturn(frames: seq<Frame>)
    requires AllPrintable(frames)
    ensures NoCarriageReturn(PrintAll(frames))
    decreases |frames|
  {
    hide Print;
    if frames != [] {
      TightHasNoReturn(frames[0]);
      StreamHasNoReturn(frames[1..]);
    }
  }

  lemma {:induction false} ChunksHaveNoReturn(chunks: seq<string>)
    requires NoCarriageReturn(ConcatAll(chunks))
    ensures forall k :: 0 <= k < |chunks| ==> NoCarriageReturn(chunks[k])
    decreases |chunks|
  {
    if chunks != [] {
      var all, rest := ConcatAll(chunks), ConcatAll(chunks[1..]);
      assert forall i :: 0 <= i < |rest| ==> rest[i] == all[|chunks[0]| + i];
      assert forall i :: 0 <= i < |chunks[0]| ==> chunks[0][i] == all[i];
      ChunksHaveNoReturn(chunks[1..]);
      forall k | 0 <= k < |chunks| ensures NoCarriageReturn(chunks[k]) {
        if k > 0 { assert chunks[k] == chunks[1..][k - 1]; }
      }
    }
  }

  /** Whatever the chunks, a reader whose buffer does not overflow sees exactly the frames that
      were printed, in order, and reads each as it was printed. */
  lemma FramesSurviveAnyChunking(frames: seq<Frame>, chunks: seq<string>)
    requires AllPrintable(frames) && ConcatAll(chunks) == PrintAll(frames) && Feed("", chunks).Some?
    ensures Feed("", chunks).value == Split(Bodies(frames), "")
    ensures forall i :: 0 <= i < |frames| ==> ParseOf(Feed("", chunks).value.blocks[i]) == Expected(frames[i])
  {
    hide Feed, SplitBlocks, ParseOf, Print, Body;
    StreamHasNoReturn(frames);
    ChunksDoNotMatter(chunks);
    PrintedStreamSplits(frames);
    forall i | 0 <= i < |frames| ensures ParseOf(Body(frames[i])) == Expected(frames[i]) {
      PrintedBlocksParse(frames[i]);
    }
  }

  // ----- when the buffer does not overflow -----

  lemma {:induction false} TooShortForABlankLine(body: string, n: nat)
    requires Tight(body) && n < |body| + 2
    ensures BlankLine((body + "\n\n")[..n]) == n
    decreases n
  {
    ShortHasNone((body + "\n\n")[..n], body);
  }

  lemma {:induction false} ShortHasNone(text: string, body: string)
    requires Tight(body) && |text| < |body| + 2 && text <= body + "\n\n"
    ensures BlankLine(text) == |text|
  {
    forall i | 0 <= i < |text| - 1 ensures text[i] != '\n' || text[i + 1] != '\n' {
      assert text[i] == (body + "\n\n")[i] == body[i];
      if i + 1 < |body| { assert text[i + 1] == (body + "\n\n")[i + 1] == body[i + 1]; }
    }
  }

  /** What is left in the buffer is the start of one frame. */
  lemma {:induction false} RestIsPartOfAFrame(frames: seq<Frame>, text: string, longest: nat)
    requires AllPrintable(frames) && text <= PrintAll(frames)
    requires forall i :: 0 <= i < |frames| ==> |Print(frames[i])| <= longest
    ensures |SplitBlocks(text).rest| <= longest
    decreases |frames|
  {
    hide BlankLine, Body;
    if frames == [] {
      EmptySplits();
    } else {
      var body, printed := Body(frames[0]), Print(frames[0]);
      BodyIsTight(frames[0]);
      assert PrintAll(frames) == printed + PrintAll(frames[1..]);
      if |text| < |printed| {
        assert text == printed[..|text|];
        TooShortForABlankLine(body, |text|);
      } else {
        var rest := text[|printed|..];
        assert text == body + "\n\n" + rest;
        BlankLineAt(body, rest);
        assert text[|body| + 2..] == rest;
        RestIsPartOfAFrame(frames[1..], rest, longest);
      }
    }
  }

  /** If a longest frame and a longest chunk fit the buffer together, it never overflows. */
  lemma {:induction false} LongestFrameAndChunkFit(frames: seq<Frame>, read: string, chunks: seq<string>, longest: nat,
                                                   chunk: nat)
    requires AllPrintable(frames) && read + ConcatAll(chunks) == PrintAll(frames)
    requires forall i :: 0 <= i < |frames| ==> |Print(frames[i])| <= longest
    requires forall k :: 0 <= k < |chunks| ==> |chunks[k]| <= chunk
    requires longest + chunk <= MAX_BUFFER
    ensures Feed(SplitBlocks(read).rest, chunks).Some?
    decreases |chunks|
  {
    hide SplitBlocks, Print, PrintAll, Normalize, Prepend, BlankLine;
    if chunks != [] {
      StreamHasNoReturn(frames);
      assert NoCarriageReturn(chunks[0]) by {
        forall i | 0 <= i < |chunks[0]| ensures chunks[0][i] != '\r' {
          assert chunks[0][i] == PrintAll(frames)[|read| + i];
        }
      }
      NormalizeIsIdle(chunks[0]);
      assert read <= PrintAll(frames);
      RestIsPartOfAFrame(frames, read, longest);
      SplitInTwo(read, chunks[0]);
      assert (read + chunks[0]) + ConcatAll(chunks[1..]) == PrintAll(frames);
      LongestFrameAndChunkFit(frames, read + chunks[0], chunks[1..], longest, chunk);
      SameRest(SplitBlocks(read).blocks, SplitBlocks(SplitBlocks(read).rest + chunks[0]));
    }
  }

  lemma SameRest(blocks: seq<string>, split: Split)
    ensures Prepend(blocks, split).rest == split.rest
  {
  }

  /** With carriage returns chunks do matter: a line end cut in two is not replaced, and the
      blank line after `x` is missed. */
  lemma ACutLineEndHidesABlankLine()
    ensures Feed("", ["x\r\n\r\n"]) == Some(Split(["x"], ""))
    ensures Feed("", ["x\r\n\r", "\n"]) == Some(Split([], "x\n\r\n"))
  {
    hide Feed, Prepend, PrependIf, SplitBlocks, BlankLine;
    assert Normalize("x\r\n\r\n") == "x\n\n" by {
      assert "x\r\n\r\n"[1..] == "\r\n\r\n" && "\r\n\r\n"[2..] == "\r\n" && "\r\n"[2..] == "";
    }
    assert Normalize("x\r\n\r") == "x\n\r" by { assert "x\r\n\r"[1..] == "\r\n\r" && "\r\n\r"[2..] == "\r"; }
    FedWhole();
    FedCut();
  }

  lemma FedWhole()
    requires Normalize("x\r\n\r\n") == "x\n\n"
    ensures Feed("", ["x\r\n\r\n"]) == Some(Split(["x"], ""))
  {
    hide Normalize;
    var text := "x\n\n";
    assert text[1..] == "\n\n" && text[..1] == "x" && text[3..] == "";
    assert SplitBlocks(text) == Split(["x"], "");
    assert "" + text == text;
  }

  lemma FedCut()
    requires Normalize("x\r\n\r") == "x\n\r"
    ensures Feed("", ["x\r\n\r", "\n"]) == Some(Split([], "x\n\r\n"))
  {
    hide Normalize;
    var first, whole := "x\n\r", "x\n\r\n";
    NoBlankLine(first);
    NoBlankLine(whole);
    NormalizeIsIdle("\n");
    var chunks := ["x\r\n\r", "\n"];
    assert chunks[1..] == ["\n"] && chunks[1..][1..] == [];
    assert "" + first == first && first + "\n" == whole;
    var end := Feed(whole, chunks[1..][1..]);
    assert end == Some(Split([], whole));
    PrependIfTwice([], [], end);
    PrependIfTwice([], [], Feed(first, chunks[1..]));
    assert Feed(first, chunks[1..]) == PrependIf([], end);
  }

  lemma NoBlankLine(text: string)
    requires forall i :: 0 <= i < |text| - 1 ==> text[i] != '\n' || text[i + 1] != '\n'
    ensures SplitBlocks(text) == Split([], text)
  {
  }
}
