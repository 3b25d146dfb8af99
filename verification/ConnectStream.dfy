/**
 Connect server-stream framing (omnicraft/antigravity_native_rpc.py): the
 incremental decoder of `stream_agent_state_updates`, after the Connect
 Protocol Reference, section "Streaming RPCs".
 */
module ConnectStream {
  import opened Wrappers
  import opened JsonValues

  type byte = x: int | 0 <= x < 256

  const HEADER_LEN := 5
  const TWO_TO_32 := 0x1_0000_0000

  /** `json.loads` on bytes: a value, a `JSONDecodeError`, or bytes that are not text at all. */
  datatype Parsed = Value(v: Json) | NotJson | NotText

  type Parser = seq<byte> -> Parsed

  /** How a stream ends; `Closed` carries the bytes left in the buffer. */
  datatype Ending =
    | CleanTrailer
    | TrailerError(error: Json)
    | TrailerUndecodable
    | CompressedFrame(flag: byte)
    | MalformedFrame
    | UndecodableFrame
    | Closed(rest: seq<byte>)

  datatype Decoded = Decoded(updates: seq<map<string, Json>>, ending: Ending)

  predicate HasCompressedBit(flag: byte) { flag % 2 == 1 }
  predicate HasTrailerBit(flag: byte) { (flag / 2) % 2 == 1 }

  function BigEndian32(b: seq<byte>): (n: nat)
    requires |b| == 4
    ensures n < TWO_TO_32
  {
    (b[0] as int) * 0x100_0000 + (b[1] as int) * 0x1_0000 + (b[2] as int) * 0x100 + b[3] as int
  }

  function PackBigEndian32(n: nat): (b: seq<byte>)
    requires n < TWO_TO_32
    ensures |b| == 4
  {
    [n / 0x100_0000, n / 0x1_0000 % 256, n / 0x100 % 256, n % 256]
  }

  lemma PackRoundTrip(n: nat)
    requires n < TWO_TO_32
    ensures BigEndian32(PackBigEndian32(n)) == n
  {
    var n1 := n / 0x100;
    var n2 := n / 0x1_0000;
    assert n2 == n1 / 0x100;
    assert n / 0x100_0000 == n2 / 0x100;
  }

  /** `_encode_connect_envelope`; a payload of 2^32 bytes or more is a `struct.error`. */
  function EncodeEnvelope(raw: seq<byte>): Option<seq<byte>> {
    if |raw| < TWO_TO_32 then Some([0] + PackBigEndian32(|raw|) + raw) else None
  }

  /** The bytes of the first frame, when all of it is there. */
  function FrameEnd(buffer: seq<byte>): (end: Option<nat>)
    ensures end.Some? ==> HEADER_LEN <= end.value <= |buffer|
  {
    if |buffer| < HEADER_LEN then None
    else
      var end := HEADER_LEN + BigEndian32(buffer[1..HEADER_LEN]);
      if |buffer| < end then None else Some(end)
  }

  /** `_connect_trailer_error`: the error of a trailer, `None` for a clean end. */
  function TrailerErrorOf(parse: Parser, payload: seq<byte>): Option<Json> {
    if payload == [] then None
    else
      match parse(payload)
      case Value(Dict(fields)) => if Truthy(Get(fields, "error")) then Some(Get(fields, "error")) else None
      case _ => None
  }

  /** What one frame does: it ends the stream, or yields the unwrapped update, or nothing. */
  datatype FrameEffect = Stop(ending: Ending) | Yield(update: map<string, Json>) | Skip

  function Effect(parse: Parser, flag: byte, payload: seq<byte>): FrameEffect {
    if HasCompressedBit(flag) then Stop(CompressedFrame(flag))
    else if HasTrailerBit(flag) then
      if payload != [] && parse(payload).NotText? then Stop(TrailerUndecodable)
      else
        match TrailerErrorOf(parse, payload)
        case Some(error) => Stop(TrailerError(error))
        case None => Stop(CleanTrailer)
    else
      match parse(payload)
      case NotJson => Stop(MalformedFrame)
      case NotText => Stop(UndecodableFrame)
      case Value(Dict(fields)) =>
        Yield(if Get(fields, "update").Dict? then Get(fields, "update").fields else fields)
      case Value(_) => Skip
  }

  function Prepend(updates: seq<map<string, Json>>, d: Decoded): Decoded {
    Decoded(updates + d.updates, d.ending)
  }

  /** The reference: one parse of the whole byte string. */
  function Parse(parse: Parser, bytes: seq<byte>): Decoded
    decreases |bytes|
  {
    match FrameEnd(bytes)
    case None => Decoded([], Closed(bytes))
    case Some(end) =>
      match Effect(parse, bytes[0], bytes[HEADER_LEN..end])
      case Stop(ending) => Decoded([], ending)
      case Yield(update) => Prepend([update], Parse(parse, bytes[end..]))
      case Skip => Parse(parse, bytes[end..])
  }

  function Flatten(chunks: seq<seq<byte>>): seq<byte> {
    if chunks == [] then [] else chunks[0] + Flatten(chunks[1..])
  }

  /** The frame loop: chunks go into a buffer, and whole frames are cut off its front. */
  method DecodeStream(parse: Parser, chunks: seq<seq<byte>>)
    returns (updates: seq<map<string, Json>>, ending: Ending)
    ensures Decoded(updates, ending) == Parse(parse, Flatten(chunks))
  {
    updates := [];
    var buffer: seq<byte> := [];
    for i := 0 to |chunks|
      invariant Parse(parse, Flatten(chunks[..i])) == Decoded(updates, Closed(buffer))
    {
      FlattenSplit(chunks, i);
      FlattenSplit(chunks, i + 1);
      FlattenSnoc(chunks, i);
      ParseExtends(parse, Flatten(chunks[..i]), chunks[i]);
      ParseExtends(parse, Flatten(chunks[..i + 1]), Flatten(chunks[i + 1..]));
      var got, rest, end := CutFrames(parse, buffer + chunks[i]);
      updates := updates + got;
      buffer := rest;
      if end.Some? {
        return updates, end.value;
      }
    }
    assert chunks[..|chunks|] == chunks;
    ending := Closed(buffer);
  }

  /** The inner loop: every whole frame now in the buffer, until one of them ends the stream. */
  method CutFrames(parse: Parser, bytes: seq<byte>)
    returns (updates: seq<map<string, Json>>, buffer: seq<byte>, end: Option<Ending>)
    ensures Decoded(updates, end.GetOr(Closed(buffer))) == Parse(parse, bytes)
    ensures end.Some? ==> !end.value.Closed?
  {
    buffer := bytes;
    updates := [];
    end := None;
    while |buffer| >= HEADER_LEN
      invariant Parse(parse, bytes) == Prepend(updates, Parse(parse, buffer))
      decreases |buffer|
    {
      var flag := buffer[0];
      var frameEnd := HEADER_LEN + BigEndian32(buffer[1..HEADER_LEN]);
      if |buffer| < frameEnd {
        break;
      }
      var payload := buffer[HEADER_LEN..frameEnd];
      buffer := buffer[frameEnd..];
      if HasCompressedBit(flag) {
        end := Some(CompressedFrame(flag));
        return;
      }
      if HasTrailerBit(flag) {
        if payload != [] && parse(payload).NotText? {
          end := Some(TrailerUndecodable);
          return;
        }
        var error := TrailerErrorOf(parse, payload);
        if error.Some? {
          end := Some(TrailerError(error.value));
          return;
        }
        end := Some(CleanTrailer);
        return;
      }
      var parsed := parse(payload);
      if parsed.NotJson? {
        end := Some(MalformedFrame);
        return;
      }
      if parsed.NotText? {
        end := Some(UndecodableFrame);
        return;
      }
      if parsed.v.Dict? {
        var inner := Get(parsed.v.fields, "update");
        var update := if inner.Dict? then inner.fields else parsed.v.fields;
        PrependAssoc(updates, [update], Parse(parse, buffer));
        updates := updates + [update];
      }
    }
  }

  lemma {:induction false} FlattenSnoc(chunks: seq<seq<byte>>, i: nat)
    requires i < |chunks|
    ensures Flatten(chunks[..i + 1]) == Flatten(chunks[..i]) + chunks[i]
  {
    FlattenSplit(chunks[..i + 1], i);
    assert chunks[..i + 1][..i] == chunks[..i];
    assert chunks[..i + 1][i..] == [chunks[i]];
    assert Flatten([chunks[i]]) == chunks[i] + Flatten([chunks[i]][1..]);
  }

  lemma PrependAssoc(a: seq<map<string, Json>>, b: seq<map<string, Json>>, d: Decoded)
    ensures Prepend(a, Prepend(b, d)) == Prepend(a + b, d)
  {
    assert a + (b + d.updates) == (a + b) + d.updates;
  }

  /** A whole frame at the front of the buffer is the same frame whatever bytes follow. */
  lemma FrontFrame(buffer: seq<byte>, rest: seq<byte>)
    requires FrameEnd(buffer).Some?
    ensures FrameEnd(buffer + rest) == FrameEnd(buffer)
    ensures var end := FrameEnd(buffer).value;
            && (buffer + rest)[0] == buffer[0]
            && (buffer + rest)[HEADER_LEN..end] == buffer[HEADER_LEN..end]
            && (buffer + rest)[end..] == buffer[end..] + rest
  {
    assert (buffer + rest)[1..HEADER_LEN] == buffer[1..HEADER_LEN];
  }

  /**
   Parsing is incremental: bytes that arrive later never change what earlier
   bytes gave, and continue from the bytes left over.
   */
  lemma {:induction false} ParseExtends(parse: Parser, a: seq<byte>, b: seq<byte>)
    ensures var first := Parse(parse, a);
            Parse(parse, a + b) ==
            if first.ending.Closed? then Prepend(first.updates, Parse(parse, first.ending.rest + b)) else first
    decreases |a|
  {
    match FrameEnd(a)
    case None =>
    case Some(end) =>
      FrontFrame(a, b);
      match Effect(parse, a[0], a[HEADER_LEN..end])
      case Stop(_) =>
      case Skip => ParseExtends(parse, a[end..], b);
      case Yield(update) =>
        ParseExtends(parse, a[end..], b);
        var tail := Parse(parse, a[end..]);
        if tail.ending.Closed? {
          PrependAssoc([update], tail.updates, Parse(parse, tail.ending.rest + b));
        }
  }

  /** The updates yielded after any chunk are the frames complete in the bytes received so far. */
  lemma ChunksYieldPrefixes(parse: Parser, chunks: seq<seq<byte>>, i: nat)
    requires i <= |chunks|
    ensures Parse(parse, Flatten(chunks[..i])).updates <= Parse(parse, Flatten(chunks)).updates
    ensures !Parse(parse, Flatten(chunks[..i])).ending.Closed?
            ==> Parse(parse, Flatten(chunks)) == Parse(parse, Flatten(chunks[..i]))
  {
    FlattenSplit(chunks, i);
    ParseExtends(parse, Flatten(chunks[..i]), Flatten(chunks[i..]));
  }

  lemma {:induction false} FlattenSplit(chunks: seq<seq<byte>>, i: nat)
    requires i <= |chunks|
    ensures Flatten(chunks) == Flatten(chunks[..i]) + Flatten(chunks[i..])
  {
    if i == 0 {
      assert chunks[0..] == chunks;
    } else {
      FlattenSplit(chunks[1..], i - 1);
      assert chunks[..i][1..] == chunks[1..][..i - 1];
      assert chunks[i..] == chunks[1..][i - 1..];
    }
  }

  // ----- what a stream of frames comes to, by the bits of their flags and the fields of their payloads -----

  datatype Frame = Frame(flag: byte, payload: seq<byte>)

  predicate Fits(f: Frame) {
    |f.payload| < TWO_TO_32
  }

  function FrameBytes(f: Frame): seq<byte>
    requires Fits(f)
  {
    [f.flag] + PackBigEndian32(|f.payload|) + f.payload
  }

  function StreamBytes(frames: seq<Frame>): seq<byte>
    requires forall f | f in frames :: Fits(f)
  {
    if frames == [] then [] else FrameBytes(frames[0]) + StreamBytes(frames[1..])
  }

  /** A frame that carries data: neither bit set, and a payload that parses. */
  predicate IsData(parse: Parser, f: Frame) {
    f.flag % 4 == 0 && parse(f.payload).Value?
  }

  /** The update a payload stands for: the object under `update`, or else the payload; nothing if it is no object. */
  function Unwrapped(v: Json): seq<map<string, Json>> {
    match v
    case Dict(fields) => [if "update" in fields && fields["update"].Dict? then fields["update"].fields else fields]
    case _ => []
  }

  function UpdatesOf(parse: Parser, frames: seq<Frame>): seq<map<string, Json>>
    requires forall f | f in frames :: IsData(parse, f)
  {
    if frames == [] then []
    else
      assert IsData(parse, frames[0]);
      Unwrapped(parse(frames[0].payload).v) + UpdatesOf(parse, frames[1..])
  }

  /** How a frame that carries no data ends the stream. */
  predicate Ends(parse: Parser, f: Frame, ending: Ending) {
    if f.flag % 2 == 1 then ending == CompressedFrame(f.flag)
    else if f.flag % 4 == 0 then ending == if parse(f.payload).NotJson? then MalformedFrame else UndecodableFrame
    else if f.payload == [] then ending == CleanTrailer
    else
      match parse(f.payload)
      case NotText => ending == TrailerUndecodable
      case NotJson => ending == CleanTrailer
      case Value(v) =>
        if v.Dict? && "error" in v.fields && v.fields["error"] !in NOTHING
        then ending == TrailerError(v.fields["error"])
        else ending == CleanTrailer
  }

  /** An encoded frame in front of other bytes is that frame. */
  lemma FrameInFront(f: Frame, rest: seq<byte>)
    requires Fits(f)
    ensures var frame := FrameBytes(f);
            && FrameEnd(frame + rest) == Some(|frame|)
            && (frame + rest)[0] == f.flag
            && (frame + rest)[HEADER_LEN..|frame|] == f.payload
            && (frame + rest)[|frame|..] == rest
  {
    var frame := FrameBytes(f);
    PackRoundTrip(|f.payload|);
    assert frame[1..HEADER_LEN] == PackBigEndian32(|f.payload|);
    assert FrameEnd(frame) == Some(|frame|);
    FrontFrame(frame, rest);
  }

  lemma OneFrame(parse: Parser, f: Frame, rest: seq<byte>)
    requires Fits(f) && IsData(parse, f)
    ensures Parse(parse, FrameBytes(f) + rest) == Prepend(Unwrapped(parse(f.payload).v), Parse(parse, rest))
  {
    FrameInFront(f, rest);
    assert [] + Parse(parse, rest).updates == Parse(parse, rest).updates;
  }

  /** Data frames in front give their updates in order, and what follows is decoded as if it stood alone. */
  lemma {:induction false} DataFramesYield(parse: Parser, frames: seq<Frame>, tail: seq<byte>)
    requires forall f | f in frames :: Fits(f) && IsData(parse, f)
    ensures Parse(parse, StreamBytes(frames) + tail) == Prepend(UpdatesOf(parse, frames), Parse(parse, tail))
  {
    if frames == [] {
      assert StreamBytes(frames) + tail == tail;
    } else {
      var rest := StreamBytes(frames[1..]) + tail;
      assert StreamBytes(frames) + tail == FrameBytes(frames[0]) + rest;
      OneFrame(parse, frames[0], rest);
      DataFramesYield(parse, frames[1..], tail);
      PrependAssoc(Unwrapped(parse(frames[0].payload).v), UpdatesOf(parse, frames[1..]), Parse(parse, tail));
    }
  }

  lemma LastFrame(parse: Parser, f: Frame, tail: seq<byte>, ending: Ending)
    requires Fits(f) && !IsData(parse, f) && Ends(parse, f, ending)
    ensures Parse(parse, FrameBytes(f) + tail) == Decoded([], ending)
  {
    FrameInFront(f, tail);
    if f.flag % 4 == 2 && f.payload != [] && parse(f.payload).Value? && parse(f.payload).v.Dict? {
      TruthyExactly(Get(parse(f.payload).v.fields, "error"));
    }
  }

  /**
   After any data frames the first frame that carries none ends the stream,
   with the updates so far and whatever bytes follow: an odd flag as compressed,
   a payload that does not parse as malformed or undecodable, and a trailer as
   an error exactly when its payload is an object with an `error` that says anything.
   */
  lemma FirstOtherFrameEnds(parse: Parser, frames: seq<Frame>, last: Frame, tail: seq<byte>, ending: Ending)
    requires forall f | f in frames :: Fits(f) && IsData(parse, f)
    requires Fits(last) && !IsData(parse, last) && Ends(parse, last, ending)
    ensures Parse(parse, StreamBytes(frames) + (FrameBytes(last) + tail)) == Decoded(UpdatesOf(parse, frames), ending)
  {
    DataFramesYield(parse, frames, FrameBytes(last) + tail);
    LastFrame(parse, last, tail, ending);
  }

  /** While no frame has ended it, a stream that closes leaves the bytes of the frame that was cut off. */
  lemma CutOffFrameIsLeft(parse: Parser, frames: seq<Frame>, last: Frame, n: nat)
    requires forall f | f in frames :: Fits(f) && IsData(parse, f)
    requires Fits(last) && n < |FrameBytes(last)|
    ensures Parse(parse, StreamBytes(frames) + FrameBytes(last)[..n])
            == Decoded(UpdatesOf(parse, frames), Closed(FrameBytes(last)[..n]))
  {
    var cut := FrameBytes(last)[..n];
    DataFramesYield(parse, frames, cut);
    PackRoundTrip(|last.payload|);
    assert FrameBytes(last)[1..HEADER_LEN] == PackBigEndian32(|last.payload|);
    assert n >= HEADER_LEN ==> cut[1..HEADER_LEN] == FrameBytes(last)[1..HEADER_LEN];
    assert UpdatesOf(parse, frames) + [] == UpdatesOf(parse, frames);
  }

  // ----- encoded envelopes -----

  function EncodeAll(raws: seq<seq<byte>>): seq<byte>
    requires forall raw | raw in raws :: |raw| < TWO_TO_32
  {
    if raws == [] then [] else EncodeEnvelope(raws[0]).value + EncodeAll(raws[1..])
  }

  function Envelopes(raws: seq<seq<byte>>): seq<Frame> {
    if raws == [] then [] else [Frame(0, raws[0])] + Envelopes(raws[1..])
  }

  /** Encoding makes one frame without flags of each payload. */
  lemma {:induction false} EncodingFrames(raws: seq<seq<byte>>)
    requires forall raw | raw in raws :: |raw| < TWO_TO_32
    ensures forall f | f in Envelopes(raws) :: f.flag == 0 && f.payload in raws
    ensures EncodeAll(raws) == StreamBytes(Envelopes(raws))
  {
    if raws != [] {
      EncodingFrames(raws[1..]);
      assert Envelopes(raws)[1..] == Envelopes(raws[1..]);
    }
  }

  /**
   Decoding a concatenation of encoded envelopes, in whatever chunks, gives
   the payloads back in order and consumes every byte; what follows them is
   decoded as if it stood alone.
   */
  lemma EnvelopesRoundTrip(parse: Parser, raws: seq<seq<byte>>, tail: seq<byte>)
    requires forall raw | raw in raws :: |raw| < TWO_TO_32 && parse(raw).Value?
    ensures forall f | f in Envelopes(raws) :: IsData(parse, f)
    ensures Parse(parse, EncodeAll(raws) + tail) == Prepend(UpdatesOf(parse, Envelopes(raws)), Parse(parse, tail))
  {
    EncodingFrames(raws);
    DataFramesYield(parse, Envelopes(raws), tail);
  }
}
