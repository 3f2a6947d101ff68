/** From the frames the Hub's pump writes to the frames the Node's consumer handles, through the
    text of the stream. JSON is an encoding on one line that undoes itself. */
module WireText {
  import opened Wrappers
  import opened JobLog
  import opened EventStream
  import Cursors
  import Sse

  datatype Payload = Envelope(row: AuditRow) | ResetNotice(latest: nat)

  type Encoder = Payload -> string
  type Decoder = string -> Option<Payload>

  ghost predicate IsJson(encode: Encoder, decode: Decoder) {
    forall payload: Payload :: Sse.OneLine(encode(payload)) && decode(encode(payload)) == Some(payload)
  }

  function Rendered(frame: Frame, encode: Encoder): Sse.Frame {
    match frame
    case Coordination(row) => Sse.Message(Some(row.Cursor()), "coordination", encode(Envelope(row)))
    case Reset(latest) => Sse.Message(None, "reset", encode(ResetNotice(latest)))
    case Keepalive => Sse.Keepalive
  }

  function RenderedAll(wire: seq<Frame>, encode: Encoder): seq<Sse.Frame> {
    seq(|wire|, i requires 0 <= i < |wire| => Rendered(wire[i], encode))
  }

  /** What consume() does with a block: a frame to handle, nothing, or an error. */
  datatype Reading = Handle(frame: Frame) | Ignore | Malformed

  function ReadingOf(parsed: Option<Sse.Parsed>, decode: Decoder): Reading {
    if parsed.None? then Ignore
    else
      var payload := decode(parsed.value.data);
      if payload.None? then Malformed
      else if parsed.value.event == "reset" then
        if payload.value.ResetNotice? && payload.value.latest <= Cursors.MAX_SAFE_INTEGER then
          Handle(Reset(payload.value.latest))
        else Malformed
      else if parsed.value.event != "coordination" then Ignore
      else if payload.value.Envelope? && payload.value.row.Cursor() >= 1
              && parsed.value.id == Some(payload.value.row.Cursor())
      then Handle(Coordination(payload.value.row))
      else Malformed
  }

  predicate SafeCursors(wire: seq<Frame>) {
    && (forall i :: 0 <= i < |wire| && wire[i].Coordination? ==> 1 <= wire[i].row.Cursor() <= Cursors.MAX_SAFE_INTEGER)
    && (forall i :: 0 <= i < |wire| && wire[i].Reset? ==> wire[i].latest <= Cursors.MAX_SAFE_INTEGER)
  }

  lemma RenderedIsPrintable(wire: seq<Frame>, encode: Encoder, decode: Decoder)
    requires IsJson(encode, decode) && SafeCursors(wire)
    ensures Sse.AllPrintable(RenderedAll(wire, encode))
  {
    var frames := RenderedAll(wire, encode);
    forall i | 0 <= i < |frames| ensures Sse.Printable(frames[i]) {
      match wire[i]
      case Coordination(row) => assert Sse.OneLine(encode(Envelope(row)));
      case Reset(latest) => assert Sse.OneLine(encode(ResetNotice(latest)));
      case Keepalive =>
    }
  }

  lemma RenderedReadsBack(frame: Frame, encode: Encoder, decode: Decoder)
    requires IsJson(encode, decode) && SafeCursors([frame])
    ensures ReadingOf(Sse.Expected(Rendered(frame, encode)), decode) == if frame.Keepalive? then Ignore
                                                                        else Handle(frame)
  {
    assert [frame][0] == frame;
    match frame
    case Coordination(row) => assert decode(encode(Envelope(row))) == Some(Envelope(row));
    case Reset(latest) => assert decode(encode(ResetNotice(latest))) == Some(ResetNotice(latest));
    case Keepalive =>
  }

  /** The Node handles exactly the frames that were written, in order, however their text is cut
      into chunks; every row arrives under its own cursor. */
  lemma TheNodeReadsTheWire(wire: seq<Frame>, chunks: seq<string>, encode: Encoder, decode: Decoder)
    requires IsJson(encode, decode) && SafeCursors(wire)
    requires Sse.ConcatAll(chunks) == Sse.PrintAll(RenderedAll(wire, encode)) && Sse.Feed("", chunks).Some?
    ensures var blocks := Sse.Feed("", chunks).value.blocks;
            && |blocks| == |wire|
            && forall i :: 0 <= i < |wire| ==>
                 ReadingOf(Sse.ParseOf(blocks[i]), decode) == if wire[i].Keepalive? then Ignore else Handle(wire[i])
  {
    hide IsJson, Sse.Feed, Sse.ParseOf, Sse.PrintAll, Sse.ConcatAll, ReadingOf, Rendered;
    var frames := RenderedAll(wire, encode);
    RenderedIsPrintable(wire, encode, decode);
    Sse.FramesSurviveAnyChunking(frames, chunks);
    var blocks := Sse.Feed("", chunks).value.blocks;
    forall i | 0 <= i < |wire|
      ensures ReadingOf(Sse.ParseOf(blocks[i]), decode) == if wire[i].Keepalive? then Ignore else Handle(wire[i])
    {
      assert frames[i] == Rendered(wire[i], encode);
      RenderedReadsBack(wire[i], encode, decode);
    }
  }
}
