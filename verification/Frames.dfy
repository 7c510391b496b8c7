/**
 KHU1: the owner's reassembly of control frames from a stream socket.

 A frame has a header of twelve bytes and a payload of 200 bytes for kind 2 and 32 bytes for
 every other kind.  Each receive asks for no more than the current frame still needs.
 */
module Frames {
  import opened Bytes

  const HEADER: nat := 12
  const MAGIC: seq<Byte> := [75, 72, 85, 49]

  datatype Frame = Frame(kind: nat, payload: seq<Byte>)

  function ReadTwo(low: Byte, high: Byte): nat {
    low + 256 * (high as int)
  }

  function PayloadLength(kind: nat): nat {
    if kind == 2 then 200 else 32
  }

  predicate KnownKind(kind: nat) {
    kind == 2 || kind == 4 || kind == 6 || kind == 8
  }

  predicate HeaderOk(bytes: seq<Byte>)
    requires |bytes| >= HEADER
  {
    var kind := ReadTwo(bytes[6], bytes[7]);
    && bytes[..4] == MAGIC && ReadTwo(bytes[4], bytes[5]) == 1
    && KnownKind(kind) && Assemble(bytes[8..12]) == PayloadLength(kind)
  }

  // ------------------------------------------------- the specification, byte by byte

  /** What a connection has come to: the frames dispatched, and the unfinished frame or the refusal. */
  datatype Progress = Progress(dispatched: seq<Frame>, pending: seq<Byte>, refused: bool)

  const START := Progress([], [], false)

  function Step(p: Progress, byte: Byte): Progress {
    var bytes := p.pending + [byte];
    if p.refused || |bytes| < HEADER then p.(pending := if p.refused then p.pending else bytes)
    else if !HeaderOk(bytes) then p.(pending := bytes, refused := true)
    else
      var kind := ReadTwo(bytes[6], bytes[7]);
      if |bytes| < HEADER + PayloadLength(kind) then p.(pending := bytes)
      else p.(dispatched := p.dispatched + [Frame(kind, bytes[HEADER..])], pending := [])
  }

  /** The bytes of a stream, one after the other. */
  function Fed(p: Progress, stream: seq<Byte>): Progress {
    if stream == [] then p else Step(Fed(p, stream[..|stream| - 1]), stream[|stream| - 1])
  }

  lemma {:induction false} FedConcat(p: Progress, a: seq<Byte>, b: seq<Byte>)
    ensures Fed(p, a + b) == Fed(Fed(p, a), b)
  {
    hide Step;
    if b == [] {
      assert a + b == a;
    } else {
      FedConcat(p, a, b[..|b| - 1]);
      assert (a + b)[..|a + b| - 1] == a + b[..|b| - 1];
    }
  }

  // ------------------------------------------------------------------ the receiver

  /** An unfinished frame: its header, once complete, has been checked. */
  predicate Unfinished(p: Progress) {
    !p.refused &&
    (|p.pending| >= HEADER ==>
       HeaderOk(p.pending) && |p.pending| < HEADER + PayloadLength(ReadTwo(p.pending[6], p.pending[7])))
  }

  /** How many bytes the next receive asks for. */
  function Wanted(pending: seq<Byte>): int {
    if |pending| < HEADER then HEADER - |pending|
    else HEADER + PayloadLength(ReadTwo(pending[6], pending[7])) - |pending|
  }

  /** Inside one frame the bytes only accumulate; the last of them decides. */
  lemma {:induction false} FedInsideFrame(p: Progress, chunk: seq<Byte>)
    requires Unfinished(p) && |chunk| < Wanted(p.pending)
    ensures Fed(p, chunk) == p.(pending := p.pending + chunk)
  {
    if chunk == [] {
      assert p.pending + chunk == p.pending;
    } else {
      var shorter := chunk[..|chunk| - 1];
      FedInsideFrame(p, shorter);
      assert p.pending + shorter + [chunk[|chunk| - 1]] == p.pending + chunk;
      if |p.pending| >= HEADER { HeaderStays(p.pending, chunk); }
    }
  }

  lemma HeaderStays(pending: seq<Byte>, chunk: seq<Byte>)
    requires |pending| >= HEADER
    ensures (pending + chunk)[6] == pending[6] && (pending + chunk)[7] == pending[7]
    ensures HeaderOk(pending + chunk) <==> HeaderOk(pending)
  {
    assert (pending + chunk)[..4] == pending[..4] && (pending + chunk)[8..12] == pending[8..12];
  }

  lemma LastByte(p: Progress, chunk: seq<Byte>)
    requires Unfinished(p) && chunk != [] && |chunk| <= Wanted(p.pending)
    ensures Fed(p, chunk) == Step(p.(pending := p.pending + chunk[..|chunk| - 1]), chunk[|chunk| - 1])
  {
    hide Step;
    FedInsideFrame(p, chunk[..|chunk| - 1]);
  }

  /** The stream is refused with exactly this many bytes taken from it. */
  ghost predicate RefusedAt(stream: seq<Byte>, offset: nat) {
    && 0 < offset <= |stream|
    && Fed(START, stream[..offset]).refused && !Fed(START, stream[..offset - 1]).refused
  }

  lemma ChunkIsFed(received: seq<Byte>, p: Progress, chunk: seq<Byte>)
    requires Fed(START, received) == p && Unfinished(p)
    requires 1 <= |chunk| <= Wanted(p.pending)
    ensures Fed(START, received + chunk) == Step(p.(pending := p.pending + chunk[..|chunk| - 1]), chunk[|chunk| - 1])
    ensures Fed(START, received + chunk).refused ==> RefusedAt(received + chunk, |received + chunk|)
  {
    hide Step;
    var shorter, whole := chunk[..|chunk| - 1], received + chunk;
    FedConcat(START, received, chunk);
    LastByte(p, chunk);
    FedInsideFrame(p, shorter);
    FedConcat(START, received, shorter);
    assert whole[..|whole|] == whole && whole[..|whole| - 1] == received + shorter;
  }

  lemma RefusedInPrefix(stream: seq<Byte>, offset: nat)
    requires offset <= |stream| && RefusedAt(stream[..offset], offset)
    ensures RefusedAt(stream, offset)
  {
    assert stream[..offset][..offset] == stream[..offset];
    assert stream[..offset][..offset - 1] == stream[..offset - 1];
  }

  class Receiver {
    var dispatched: seq<Frame>
    var pending: seq<Byte>
    var refused: bool
    ghost var received: seq<Byte>

    ghost predicate Valid()
      reads this
    {
      && Progress(dispatched, pending, refused) == Fed(START, received)
      && (!refused ==> Unfinished(Progress(dispatched, pending, refused)))
    }

    constructor ()
      ensures Valid() && received == [] && !refused
    {
      dispatched, pending, refused, received := [], [], false, [];
    }

    /**
     One receive: any number of bytes up to what was asked for.  At most one frame is completed,
     and then nothing of the next one has been taken.
     */
    method Receive(chunk: seq<Byte>)
      requires Valid() && !refused
      requires 1 <= |chunk| <= Wanted(pending)
      modifies this
      ensures Valid() && received == old(received) + chunk
      ensures |dispatched| <= |old(dispatched)| + 1
      ensures |dispatched| > |old(dispatched)| ==> pending == []
      ensures refused ==> RefusedAt(received, |received|)
    {
      hide Fed, HeaderOk, RefusedAt;
      ChunkIsFed(received, Progress(dispatched, pending, refused), chunk);
      assert pending + chunk[..|chunk| - 1] + [chunk[|chunk| - 1]] == pending + chunk;
      received := received + chunk;
      pending := pending + chunk;
      if |pending| < HEADER { return; }
      if !HeaderOk(pending) {
        refused := true;
        return;
      }
      var kind := ReadTwo(pending[6], pending[7]);
      if |pending| < HEADER + PayloadLength(kind) { return; }
      dispatched, pending := dispatched + [Frame(kind, pending[HEADER..])], [];
    }
  }

  /**
   However the stream is cut into receives, the dispatched frames, the unfinished rest and the
   offset of a refusal are those of the byte-by-byte specification.
   */
  method ReceiveStream(stream: seq<Byte>, sizes: nat -> nat) returns (progress: Progress, offset: nat)
    ensures offset <= |stream| && progress == Fed(START, stream[..offset])
    ensures if progress.refused then RefusedAt(stream, offset) else offset == |stream|
  {
    var receiver := new Receiver();
    hide Fed, HeaderOk, RefusedAt;
    offset := 0;
    var round := 0;
    while offset < |stream| && !receiver.refused
      invariant 0 <= offset <= |stream| && fresh(receiver) && receiver.Valid()
      invariant receiver.received == stream[..offset]
      invariant receiver.refused ==> RefusedAt(stream, offset)
    {
      var limit := Wanted(receiver.pending);
      if |stream| - offset < limit { limit := |stream| - offset; }
      var count := if 1 <= sizes(round) <= limit then sizes(round) else limit;
      assert stream[..offset + count] == stream[..offset] + stream[offset..offset + count];
      receiver.Receive(stream[offset..offset + count]);
      if receiver.refused { RefusedInPrefix(stream, offset + count); }
      offset, round := offset + count, round + 1;
    }
    progress := Progress(receiver.dispatched, receiver.pending, receiver.refused);
  }

  lemma {:induction false} RefusalIsFinal(p: Progress, more: seq<Byte>)
    requires p.refused
    ensures Fed(p, more) == p
  {
    if more != [] { RefusalIsFinal(p, more[..|more| - 1]); }
  }

  /** There is one such offset at most, so it does not depend on how the stream was cut. */
  lemma RefusalOffsetIsUnique(stream: seq<Byte>, a: nat, b: nat)
    requires RefusedAt(stream, a) && RefusedAt(stream, b)
    ensures a == b
  {
    hide Fed;
    if a < b {
      RefusalStays(stream, a, b - 1);
    } else if b < a {
      RefusalStays(stream, b, a - 1);
    }
  }

  lemma RefusalStays(stream: seq<Byte>, a: nat, b: nat)
    requires a <= b <= |stream| && Fed(START, stream[..a]).refused
    ensures Fed(START, stream[..b]).refused
  {
    hide Fed;
    assert stream[..b] == stream[..a] + stream[a..b];
    FedConcat(START, stream[..a], stream[a..b]);
    RefusalIsFinal(Fed(START, stream[..a]), stream[a..b]);
  }

  /** A refusal comes with the last byte of a header, never earlier and never later. */
  lemma {:induction false} RefusedAtHeader(stream: seq<Byte>)
    ensures var p := Fed(START, stream);
            && (p.refused ==> |p.pending| == HEADER && !HeaderOk(p.pending))
            && (!p.refused ==> Unfinished(p))
  {
    if stream != [] {
      var shorter := stream[..|stream| - 1];
      RefusedAtHeader(shorter);
      var p := Fed(START, shorter);
      if !p.refused && |p.pending| >= HEADER { HeaderStays(p.pending, [stream[|stream| - 1]]); }
    }
  }

  // ------------------------------------------------------------- encoding and decoding

  predicate Sendable(frame: Frame) {
    KnownKind(frame.kind) && |frame.payload| == PayloadLength(frame.kind)
  }

  function EncodeHeader(kind: nat): (h: seq<Byte>)
    requires KnownKind(kind)
    ensures |h| == HEADER
  {
    MAGIC + [1, 0] + [kind, 0] + LittleEndian(PayloadLength(kind))
  }

  function Encode(frame: Frame): seq<Byte>
    requires Sendable(frame)
  {
    EncodeHeader(frame.kind) + frame.payload
  }

  function EncodeAll(frames: seq<Frame>): seq<Byte>
    requires forall i | 0 <= i < |frames| :: Sendable(frames[i])
  {
    if frames == [] then [] else EncodeAll(frames[..|frames| - 1]) + Encode(frames[|frames| - 1])
  }

  lemma EncodedHeader(frame: Frame)
    requires Sendable(frame)
    ensures var code := Encode(frame);
            HeaderOk(code) && ReadTwo(code[6], code[7]) == frame.kind && code[HEADER..] == frame.payload
  {
    var h, code := EncodeHeader(frame.kind), Encode(frame);
    Reassembled(PayloadLength(frame.kind));
    assert h[..4] == MAGIC && h[8..12] == LittleEndian(PayloadLength(frame.kind));
    assert code[..4] == h[..4] && code[8..12] == h[8..12];
    assert code[4] == 1 && code[5] == 0 && code[6] == frame.kind && code[7] == 0;
  }

  lemma HeaderIsTaken(p: Progress, header: seq<Byte>)
    requires !p.refused && p.pending == [] && |header| == HEADER && HeaderOk(header)
    ensures Fed(p, header) == p.(pending := header) && Unfinished(p.(pending := header))
  {
    hide HeaderOk;
    LastByte(p, header);
    assert [] + header[..HEADER - 1] + [header[HEADER - 1]] == header;
  }

  lemma FrameIsDispatched(p: Progress, frame: Frame)
    requires !p.refused && p.pending == [] && Sendable(frame)
    ensures Fed(p, Encode(frame)) == p.(dispatched := p.dispatched + [frame])
  {
    hide Fed, HeaderOk, Encode;
    var code := Encode(frame);
    EncodedHeader(frame);
    EncodedLength(frame);
    var header, body := code[..HEADER], code[HEADER..];
    assert code == header + body;
    HeaderStays(header, body);
    HeaderIsTaken(p, header);
    FedConcat(p, header, body);
    LastByte(p.(pending := header), body);
    assert header + body[..|body| - 1] + [body[|body| - 1]] == code;
  }

  lemma EncodedLength(frame: Frame)
    requires Sendable(frame)
    ensures |Encode(frame)| == HEADER + PayloadLength(frame.kind)
  {
  }

  lemma OneMoreFrame(code: seq<Byte>, before: seq<Frame>, last: Frame)
    requires Fed(START, code) == Progress(before, [], false) && Sendable(last)
    ensures Fed(START, code + Encode(last)) == Progress(before + [last], [], false)
  {
    hide Fed, Encode, Sendable;
    FedConcat(START, code, Encode(last));
    FrameIsDispatched(Progress(before, [], false), last);
  }

  /** Frames written to the stream are the frames dispatched, in order and nothing else. */
  lemma {:induction false} SentFramesAreDispatched(frames: seq<Frame>)
    requires forall i | 0 <= i < |frames| :: Sendable(frames[i])
    ensures Fed(START, EncodeAll(frames)) == Progress(frames, [], false)
  {
    hide Encode, Step, Sendable;
    if frames != [] {
      var before, last := frames[..|frames| - 1], frames[|frames| - 1];
      SentFramesAreDispatched(before);
      OneMoreFrame(EncodeAll(before), before, last);
      assert before + [last] == frames;
    }
  }

  // --------------------------------------------------------------- the format in bytes

  /** "KHU1", version 1, the kind, and the length of its payload. */
  function HeaderBytes(kind: Byte, length: Byte): seq<Byte> {
    [75, 72, 85, 49, 1, 0, kind, 0, length, 0, 0, 0]
  }

  /** These four headers are admitted, and no other. */
  lemma HeaderIsLiteral(bytes: seq<Byte>)
    requires |bytes| >= 12
    ensures HeaderOk(bytes) <==>
              || bytes[..12] == HeaderBytes(2, 200) || bytes[..12] == HeaderBytes(4, 32)
              || bytes[..12] == HeaderBytes(6, 32) || bytes[..12] == HeaderBytes(8, 32)
  {
    var header := bytes[..12];
    SmallLength(bytes[8..12], 200);
    SmallLength(bytes[8..12], 32);
    assert header[..4] == bytes[..4] && header[8..12] == bytes[8..12];
    assert header == header[..4] + [header[4], header[5], header[6], header[7]] + header[8..12];
    forall kind: Byte, length: Byte
      ensures HeaderBytes(kind, length)[..4] == MAGIC && HeaderBytes(kind, length)[8..12] == [length, 0, 0, 0]
    {
    }
    assert ReadTwo(header[4], header[5]) == 1 <==> header[4] == 1 && header[5] == 0;
    assert KnownKind(ReadTwo(header[6], header[7])) ==> header[7] == 0;
    if HeaderOk(bytes) {
      assert header == HeaderBytes(header[6], header[8]);
    }
  }

  lemma SmallLength(b: seq<Byte>, n: Byte)
    requires |b| == 4
    ensures Assemble(b) == n <==> b == [n, 0, 0, 0]
  {
  }

  /** A frame of kind 2 has 212 bytes, one of another kind 44; each of them is dispatched whole. */
  lemma LiteralFrames(payload: seq<Byte>, kind: Byte)
    ensures |payload| == 200 ==> Fed(START, HeaderBytes(2, 200) + payload) == Progress([Frame(2, payload)], [], false)
    ensures |payload| == 32 && (kind == 4 || kind == 6 || kind == 8) ==>
              Fed(START, HeaderBytes(kind, 32) + payload) == Progress([Frame(kind, payload)], [], false)
  {
    hide Fed;
    if |payload| == 200 {
      assert Encode(Frame(2, payload)) == HeaderBytes(2, 200) + payload;
      FrameIsDispatched(START, Frame(2, payload));
    }
    if |payload| == 32 && (kind == 4 || kind == 6 || kind == 8) {
      assert Encode(Frame(kind, payload)) == HeaderBytes(kind, 32) + payload;
      FrameIsDispatched(START, Frame(kind, payload));
    }
  }
}
