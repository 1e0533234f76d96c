/**
  mojo::Message: one buffer holding a 48-byte v2 header and the payload behind it, plus the
  attached handles. Building, patching, and normalizing bytes that came in with an older header.
 */
module Messages {
  import opened Ast
  import opened Bytes
  import opened Wrappers

  const HEADER: nat := 48

  /** Overwrites the bytes from `at` on. */
  function Patch(buf: seq<byte>, at: nat, piece: seq<byte>): (r: seq<byte>)
    requires at + |piece| <= |buf|
    ensures |r| == |buf|
    ensures forall i :: 0 <= i < |r| ==> r[i] == if at <= i < at + |piece| then piece[i - at] else buf[i]
  {
    buf[..at] + piece + buf[at + |piece|..]
  }

  lemma PatchKeeps(buf: seq<byte>, at: nat, piece: seq<byte>, from: nat, to: nat)
    requires at + |piece| <= |buf| && from <= to <= |buf|
    requires to <= at || at + |piece| <= from
    ensures Patch(buf, at, piece)[from..to] == buf[from..to]
  {
  }

  function Field(buf: seq<byte>, at: nat, width: nat): nat
    requires at + width <= |buf|
  {
    FromLittleEndian(buf[at..at + width])
  }

  // Header layout: StructHeader, MessageHeader, MessageHeaderV1, MessageHeaderV2.
  const NUM_BYTES: nat := 0
  const VERSION: nat := 4
  const INTERFACE_ID: nat := 8
  const NAME: nat := 12
  const FLAGS: nat := 16
  const TRACE_NONCE: nat := 20
  const REQUEST_ID: nat := 24
  const PAYLOAD_FIELD: nat := 32
  const INTERFACE_IDS_FIELD: nat := 40
  const V2_PAYLOAD_OFFSET: nat := 16

  /** A v2 header right in front of its payload, whatever its byte count says. */
  predicate V2Form(buf: seq<byte>) {
    && |buf| >= HEADER
    && buf[4..8] == LittleEndian(4, 2)
    && buf[32..40] == LittleEndian(8, V2_PAYLOAD_OFFSET)
    && buf[40..48] == LittleEndian(8, 0)
  }

  /** The bytes of a message this library built. */
  predicate WellFormed(buf: seq<byte>) {
    && V2Form(buf)
    && buf[..4] == LittleEndian(4, |buf|)
  }

  function HeaderSize(version: nat): nat {
    if version == 0 then 24 else if version == 1 then 32 else HEADER
  }

  /** Where `&v2->payload + offset` points, relative to the buffer; 64-bit addresses wrap. */
  function PointerTarget(offset: nat): int {
    PAYLOAD_FIELD + if offset < U64 / 2 then offset else offset - U64
  }

  /** Where the payload of incoming bytes starts, or None when they are not a message. */
  function IncomingPayload(bytes: seq<byte>): (start: Option<nat>)
    ensures start.Some? ==> |bytes| >= 24 && start.value <= |bytes| && |bytes| >= HeaderSize(Field(bytes, VERSION, 4))
  {
    if |bytes| < 24 || Field(bytes, VERSION, 4) > 2 || |bytes| < HeaderSize(Field(bytes, VERSION, 4)) then None
    else if Field(bytes, VERSION, 4) < 2 || Field(bytes, PAYLOAD_FIELD, 8) == 0 then
      Some(HeaderSize(Field(bytes, VERSION, 4)))
    else
      var target := PointerTarget(Field(bytes, PAYLOAD_FIELD, 8));
      if 0 <= target <= |bytes| then Some(target) else None
  }

  /** The v2 header that replaces whatever header the bytes came with, behind a byte count. */
  function NormalHeader(bytes: seq<byte>, count: seq<byte>): (r: seq<byte>)
    requires IncomingPayload(bytes).Some? && |count| == 4
    ensures |r| == HEADER
  {
    count + LittleEndian(4, 2) + bytes[8..24] +
    (if Field(bytes, VERSION, 4) >= 1 then bytes[24..32] else LittleEndian(8, 0)) +
    LittleEndian(8, V2_PAYLOAD_OFFSET) + LittleEndian(8, 0)
  }

  /**
    WrapWireBytes as a function of the bytes; the null message has no bytes. The new byte count
    is written through a pointer taken before the payload went in: it arrives only when there is
    no payload, and otherwise the count the bytes came with stays.
   */
  function Normalize(bytes: seq<byte>): (out: seq<byte>)
    ensures if IncomingPayload(bytes).Some? then |out| >= HEADER else out == []
  {
    match IncomingPayload(bytes)
    case None => []
    case Some(start) =>
      var payload := bytes[start..start + (|bytes| - start) % U32];
      NormalHeader(bytes, if payload == [] then LittleEndian(4, HEADER) else bytes[..4]) + payload
  }

  class Message {
    var buffer: seq<byte>
    var handles: seq<nat>

    predicate Valid()
      reads this`buffer
    {
      WellFormed(buffer)
    }

    function Payload(): seq<byte>
      reads this`buffer
      requires Valid()
    {
      buffer[HEADER..]
    }

    /** Everything in the header but its byte count. */
    function Routing(): seq<byte>
      reads this`buffer
      requires Valid()
    {
      buffer[4..HEADER]
    }

    constructor (name: uint32, flags: uint32, interfaceId: uint32)
      ensures Valid() && Payload() == [] && handles == []
      ensures Field(buffer, NAME, 4) == name
      ensures Field(buffer, FLAGS, 4) == flags
      ensures Field(buffer, INTERFACE_ID, 4) == interfaceId
      ensures Field(buffer, REQUEST_ID, 8) == 0
      ensures buffer[8..12] == LittleEndian(4, interfaceId) && buffer[12..16] == LittleEndian(4, name)
      ensures buffer[16..20] == LittleEndian(4, flags) && buffer[20..24] == LittleEndian(4, 0)
    {
      hide LittleEndian, FromLittleEndian, Span;
      buffer := LittleEndian(4, HEADER) + LittleEndian(4, 2) + LittleEndian(4, interfaceId) + LittleEndian(4, name) +
        LittleEndian(4, flags) + LittleEndian(4, 0) + LittleEndian(8, 0) + LittleEndian(8, V2_PAYLOAD_OFFSET) +
        LittleEndian(8, 0);
      handles := [];
      new;
      Spans();
      LoadStore(4, name);
      LoadStore(4, flags);
      LoadStore(4, interfaceId);
      LoadStore(8, 0);
      assert buffer[8..12] == LittleEndian(4, interfaceId);
      assert buffer[12..16] == LittleEndian(4, name);
      assert buffer[16..20] == LittleEndian(4, flags);
      assert buffer[20..24] == LittleEndian(4, 0);
      assert buffer[24..32] == LittleEndian(8, 0);
    }

    /** Appends to the payload; the header's byte count follows. */
    method WritePayload(data: seq<byte>)
      requires Valid()
      modifies this`buffer
      ensures Valid()
      ensures Payload() == old(Payload()) + data
      ensures Routing() == old(Routing())
    {
      hide LittleEndian;
      buffer := buffer + data;
      buffer := Patch(buffer, NUM_BYTES, LittleEndian(4, |buffer|));
      PatchKeeps(old(buffer) + data, 0, LittleEndian(4, |buffer|), 4, 8);
      PatchKeeps(old(buffer) + data, 0, LittleEndian(4, |buffer|), 32, 40);
      PatchKeeps(old(buffer) + data, 0, LittleEndian(4, |buffer|), 40, 48);
      assert (old(buffer) + data)[4..8] == old(buffer)[4..8];
      assert (old(buffer) + data)[32..40] == old(buffer)[32..40];
      assert (old(buffer) + data)[40..48] == old(buffer)[40..48];
      assert buffer[..4] == LittleEndian(4, |buffer|);
    }

    /** Overwrites part of the payload in place, through mutable_payload(). */
    method PatchPayload(at: nat, piece: seq<byte>)
      requires Valid() && at + |piece| <= |Payload()|
      modifies this`buffer
      ensures Valid()
      ensures Payload() == Patch(old(Payload()), at, piece)
      ensures Routing() == old(Routing())
    {
      hide LittleEndian;
      buffer := Patch(buffer, HEADER + at, piece);
      PatchKeeps(old(buffer), HEADER + at, piece, 0, 4);
      PatchKeeps(old(buffer), HEADER + at, piece, 4, 8);
      PatchKeeps(old(buffer), HEADER + at, piece, 32, 40);
      PatchKeeps(old(buffer), HEADER + at, piece, 40, 48);
    }

    method AttachHandle(handle: nat)
      modifies this`handles
      ensures handles == old(handles) + [handle]
    {
      handles := handles + [handle];
    }

    method TakeHandles() returns (taken: seq<nat>)
      modifies this`handles
      ensures taken == old(handles) && handles == []
    {
      taken := handles;
      handles := [];
    }
  }

  lemma SliceOfSlice(s: seq<byte>, lo: nat, hi: nat, i: nat, j: nat)
    requires lo <= hi <= |s| && i <= j <= hi - lo
    ensures s[lo..hi][i..j] == s[lo + i..lo + j]
  {
    var a, b := s[lo..hi][i..j], s[lo + i..lo + j];
    assert |a| == |b| && forall k :: 0 <= k < |a| ==> a[k] == s[lo + i + k] == b[k];
  }

  /** A header as its six pieces: count, version, routing, request id, payload offset, interface ids. */
  predicate Pieces(h: seq<byte>, count: seq<byte>, version: seq<byte>, routing: seq<byte>, request: seq<byte>,
                   payload: seq<byte>, ids: seq<byte>) {
    && |h| == HEADER && |count| == |version| == 4 && |routing| == 16 && |request| == |payload| == |ids| == 8
    && h[..4] == count && h[4..8] == version && h[8..24] == routing
    && h[24..32] == request && h[32..40] == payload && h[40..48] == ids
  }

  lemma PatchPiece(h: seq<byte>, a: seq<byte>, b: seq<byte>, c: seq<byte>, d: seq<byte>, e: seq<byte>, f: seq<byte>,
                   x: seq<byte>)
    requires Pieces(h, a, b, c, d, e, f)
    ensures |x| == 4 ==> Pieces(Patch(h, VERSION, x), a, x, c, d, e, f)
    ensures |x| == 8 ==> Pieces(Patch(h, REQUEST_ID, x), a, b, c, x, e, f)
    ensures |x| == 8 ==> Pieces(Patch(h, PAYLOAD_FIELD, x), a, b, c, d, x, f)
    ensures |x| == 8 ==> Pieces(Patch(h, INTERFACE_IDS_FIELD, x), a, b, c, d, e, x)
  {
  }

  lemma JoinPieces(h: seq<byte>, a: seq<byte>, b: seq<byte>, c: seq<byte>, d: seq<byte>, e: seq<byte>, f: seq<byte>)
    requires Pieces(h, a, b, c, d, e, f)
    ensures h == a + b + c + d + e + f
  {
    assert h == h[..4] + h[4..8] + h[8..24] + h[24..32] + h[32..40] + h[40..48];
  }

  /** The header WrapWireBytes writes field by field, over a copy of the incoming one. */
  lemma PatchedHeader(bytes: seq<byte>, zeros: seq<byte>)
    requires IncomingPayload(bytes).Some? && |zeros| == HEADER
    ensures var version := Field(bytes, VERSION, 4);
            var a := Patch(zeros, 0, bytes[..24]);
            var b := Patch(a, VERSION, LittleEndian(4, 2));
            var c := Patch(b, REQUEST_ID, if version >= 1 then bytes[24..32] else LittleEndian(8, 0));
            var d := Patch(c, PAYLOAD_FIELD, LittleEndian(8, V2_PAYLOAD_OFFSET));
            Patch(d, INTERFACE_IDS_FIELD, LittleEndian(8, 0)) == NormalHeader(bytes, bytes[..4])
  {
    hide LittleEndian, FromLittleEndian, Patch, Pieces, IncomingPayload;
    var two, request := LittleEndian(4, 2), if Field(bytes, VERSION, 4) >= 1 then bytes[24..32] else LittleEndian(8, 0);
    var offset, ids := LittleEndian(8, V2_PAYLOAD_OFFSET), LittleEndian(8, 0);
    var count, routing := bytes[..4], bytes[8..24];
    var x, y, z := zeros[24..32], zeros[32..40], zeros[40..48];
    var a := Patch(zeros, 0, bytes[..24]);
    CopiedPieces(bytes, zeros);
    PatchPiece(a, count, bytes[4..8], routing, x, y, z, two);
    var b := Patch(a, VERSION, two);
    PatchPiece(b, count, two, routing, x, y, z, request);
    var c := Patch(b, REQUEST_ID, request);
    PatchPiece(c, count, two, routing, request, y, z, offset);
    var d := Patch(c, PAYLOAD_FIELD, offset);
    PatchPiece(d, count, two, routing, request, offset, z, ids);
    JoinPieces(Patch(d, INTERFACE_IDS_FIELD, ids), count, two, routing, request, offset, ids);
  }

  lemma CopiedPieces(bytes: seq<byte>, zeros: seq<byte>)
    requires |bytes| >= 24 && |zeros| == HEADER
    ensures Pieces(Patch(zeros, 0, bytes[..24]), bytes[..4], bytes[4..8], bytes[8..24],
                   zeros[24..32], zeros[32..40], zeros[40..48])
  {
  }

  lemma PatchedCount(bytes: seq<byte>, count: seq<byte>)
    requires IncomingPayload(bytes).Some? && |count| == 4
    ensures Patch(NormalHeader(bytes, bytes[..4]), NUM_BYTES, count) == NormalHeader(bytes, count)
  {
    hide LittleEndian, FromLittleEndian;
  }

  /** The block once its count is written, and the buffer with the payload behind the header. */
  lemma BufferIsNormal(bytes: seq<byte>, block: seq<byte>, buffer: seq<byte>)
    requires IncomingPayload(bytes).Some?
    requires var start := IncomingPayload(bytes).value;
             buffer == NormalHeader(bytes, bytes[..4]) + bytes[start..start + (|bytes| - start) % U32]
    requires block == Patch(NormalHeader(bytes, bytes[..4]), NUM_BYTES, LittleEndian(4, |buffer|))
    ensures Normalize(bytes) == if (|bytes| - IncomingPayload(bytes).value) % U32 == 0 then block else buffer
    ensures Normalize(bytes) != []
  {
    hide LittleEndian, FromLittleEndian, Patch, NormalHeader, IncomingPayload;
    PatchedCount(bytes, LittleEndian(4, |buffer|));
    var normal := NormalHeader(bytes, LittleEndian(4, HEADER));
    assert normal + [] == normal;
  }

  /** The checks on incoming bytes. */
  method FindPayload(bytes: seq<byte>) returns (start: Option<nat>)
    ensures start == IncomingPayload(bytes)
  {
    hide FromLittleEndian;
    if |bytes| < 24 { return None; }
    var version := Field(bytes, VERSION, 4);
    if version > 2 { return None; }
    var header := HeaderSize(version);
    if |bytes| < header { return None; }
    if version >= 2 && Field(bytes, PAYLOAD_FIELD, 8) != 0 {
      var target := PointerTarget(Field(bytes, PAYLOAD_FIELD, 8));
      if target < 0 || target > |bytes| { return None; }
      return Some(target);
    }
    start := Some(header);
  }

  /**
    Builds a message from wire bytes, step by step: None for a null message. `block` is what the
    code's header pointer points into. A 48-byte vector is full, so inserting any payload moves the
    buffer to a new block, and the last write goes to the old one.
   */
  method WrapWireBytes(bytes: seq<byte>, handles: seq<nat>) returns (m: Option<Message>)
    ensures m.None? <==> Normalize(bytes) == []
    ensures m.Some? ==> fresh(m.value) && m.value.buffer == Normalize(bytes) && m.value.handles == handles
  {
    hide LittleEndian, FromLittleEndian, Patch, NormalHeader, Normalize, IncomingPayload;
    var incoming := FindPayload(bytes);
    if incoming.None? { return None; }
    var version, start := Field(bytes, VERSION, 4), incoming.value;
    var size := (|bytes| - start) % U32;
    var block := seq(HEADER, _ => 0);
    block := Patch(block, 0, bytes[..24]);
    block := Patch(block, VERSION, LittleEndian(4, 2));
    block := Patch(block, REQUEST_ID, if version >= 1 then bytes[24..32] else LittleEndian(8, 0));
    block := Patch(block, PAYLOAD_FIELD, LittleEndian(8, V2_PAYLOAD_OFFSET));
    block := Patch(block, INTERFACE_IDS_FIELD, LittleEndian(8, 0));
    PatchedHeader(bytes, seq(HEADER, _ => 0));
    var buffer := block + bytes[start..start + size];
    block := Patch(block, NUM_BYTES, LittleEndian(4, |buffer|));
    BufferIsNormal(bytes, block, buffer);
    if size == 0 { buffer := block; }
    var message := new Message(0, 0, 0);
    message.buffer, message.handles := buffer, handles;
    m := Some(message);
  }

  // ----- normalization -----

  /** What a message with its payload at `start` becomes, piece by piece. */
  predicate Rewritten(bytes: seq<byte>, version: nat, start: nat, out: seq<byte>)
    requires |bytes| >= 24 && start <= |bytes| && (version >= 1 ==> |bytes| >= 32)
  {
    && V2Form(out)
    && out[..4] == (if |out| == HEADER then LittleEndian(4, HEADER) else bytes[..4])
    && out[8..24] == bytes[8..24]
    && out[24..32] == (if version >= 1 then bytes[24..32] else LittleEndian(8, 0))
    && out[HEADER..] == bytes[start..start + (|bytes| - start) % U32]
  }

  lemma NormalizeSlices(bytes: seq<byte>)
    requires IncomingPayload(bytes).Some?
    ensures Rewritten(bytes, Field(bytes, VERSION, 4), IncomingPayload(bytes).value, Normalize(bytes))
  {
    hide LittleEndian, FromLittleEndian;
  }

  /** Which bytes are accepted, and where their payload starts, by version and payload pointer. */
  lemma AcceptedBytes(bytes: seq<byte>)
    ensures |bytes| < 24 ==> Normalize(bytes) == []
    ensures |bytes| >= 24 ==>
      var version := FromLittleEndian(bytes[4..8]);
      && (version == 0 ==> IncomingPayload(bytes) == Some(24))
      && (version == 1 ==> IncomingPayload(bytes) == if |bytes| >= 32 then Some(32) else None)
      && (version == 2 && |bytes| < 48 ==> IncomingPayload(bytes) == None)
      && (version > 2 ==> IncomingPayload(bytes) == None)
    ensures |bytes| >= 48 && FromLittleEndian(bytes[4..8]) == 2 ==>
      var pointer := FromLittleEndian(bytes[32..40]);
      && (pointer == 0 ==> IncomingPayload(bytes) == Some(48))
      && (0 < pointer < 0x8000_0000_0000_0000 ==>
            IncomingPayload(bytes) == if 32 + pointer <= |bytes| then Some(32 + pointer) else None)
      && (pointer >= 0x8000_0000_0000_0000 ==>
            var back := 0x1_0000_0000_0000_0000 - pointer;
            IncomingPayload(bytes) == if back <= 32 && 32 - back <= |bytes| then Some(32 - back) else None)
  {
    hide FromLittleEndian;
    if |bytes| >= 48 { PointerIsBelow(bytes); }
  }

  lemma PointerIsBelow(bytes: seq<byte>)
    requires |bytes| >= 48
    ensures FromLittleEndian(bytes[32..40]) < 0x1_0000_0000_0000_0000
  {
    hide FromLittleEndian;
    Spans();
  }

  /**
    Whatever header an accepted message came with, its routing fields and its payload survive
    behind a v2 header; a v0 message gets request id 0.
   */
  lemma NormalizeKeeps(bytes: seq<byte>)
    requires IncomingPayload(bytes).Some?
    ensures var out, start := Normalize(bytes), IncomingPayload(bytes).value;
            && V2Form(out)
            && Field(out, NAME, 4) == Field(bytes, NAME, 4)
            && Field(out, FLAGS, 4) == Field(bytes, FLAGS, 4)
            && Field(out, INTERFACE_ID, 4) == Field(bytes, INTERFACE_ID, 4)
            && Field(out, TRACE_NONCE, 4) == Field(bytes, TRACE_NONCE, 4)
            && Field(out, REQUEST_ID, 8) ==
                 (if Field(bytes, VERSION, 4) == 0 then 0 else Field(bytes, REQUEST_ID, 8))
            && out[HEADER..] <= bytes[start..]
            && (out[HEADER..] == bytes[start..] <==> |bytes| - start < U32)
  {
    hide LittleEndian, FromLittleEndian, Normalize;
    NormalizeSlices(bytes);
    var out := Normalize(bytes);
    Spans();
    LoadStore(8, 0);
    forall at | at in [8, 12, 16, 20] ensures out[at..at + 4] == bytes[at..at + 4] {
      SliceOfSlice(out, 8, 24, at - 8, at - 4);
      SliceOfSlice(bytes, 8, 24, at - 8, at - 4);
    }
    assert NAME in [8, 12, 16, 20] && FLAGS in [8, 12, 16, 20] && INTERFACE_ID in [8, 12, 16, 20] && TRACE_NONCE in [8, 12, 16, 20];
  }

  /**
    The byte count of a wrapped message is its length exactly when it has no payload or the bytes
    already came with that count.
   */
  lemma CountIsRight(bytes: seq<byte>)
    requires IncomingPayload(bytes).Some?
    ensures var out := Normalize(bytes);
            WellFormed(out) <==> |out| == HEADER || bytes[..4] == LittleEndian(4, |out|)
  {
    hide LittleEndian, FromLittleEndian, Normalize;
    NormalizeSlices(bytes);
  }

  /** So a v0 or v1 message with a payload loses its count, be it of the header or of the whole. */
  lemma OlderCountGoesStale(bytes: seq<byte>)
    requires IncomingPayload(bytes).Some? && Field(bytes, VERSION, 4) < 2
    requires HeaderSize(Field(bytes, VERSION, 4)) < |bytes| < U32 - HEADER
    requires var count := Field(bytes, NUM_BYTES, 4);
             count == HeaderSize(Field(bytes, VERSION, 4)) || count == |bytes|
    ensures !WellFormed(Normalize(bytes))
    ensures Field(Normalize(bytes), NUM_BYTES, 4) == Field(bytes, NUM_BYTES, 4) < |Normalize(bytes)|
  {
    hide LittleEndian, FromLittleEndian, Normalize;
    Spans();
    NormalizeSlices(bytes);
    LoadStore(4, |Normalize(bytes)|);
    assert |Normalize(bytes)| == HEADER + |Normalize(bytes)[HEADER..]|;
  }

  /** A v0 header and one byte behind it: 49 bytes come out, and the header says 24. */
  lemma StaleCountExample()
    ensures var bytes := LittleEndian(4, 24) + LittleEndian(4, 0) + seq(16, _ => 0) + [1];
            && IncomingPayload(bytes) == Some(24)
            && |Normalize(bytes)| == 49 && Field(Normalize(bytes), NUM_BYTES, 4) == 24
  {
    hide LittleEndian, FromLittleEndian, Normalize;
    var bytes := LittleEndian(4, 24) + LittleEndian(4, 0) + seq(16, _ => 0) + [1];
    assert bytes[0..4] == LittleEndian(4, 24) && bytes[4..8] == LittleEndian(4, 0);
    Spans();
    LoadStore(4, 24);
    LoadStore(4, 0);
    NormalizeSlices(bytes);
    OlderCountGoesStale(bytes);
    assert |Normalize(bytes)| == HEADER + |Normalize(bytes)[HEADER..]|;
  }

  /** The fixed points of wrapping: a v2 header in front of its payload, and alone with its own size. */
  predicate Settled(buf: seq<byte>) {
    && V2Form(buf) && |buf| - HEADER < U32
    && (|buf| == HEADER ==> buf[..4] == LittleEndian(4, HEADER))
  }

  lemma SettledIsNormal(buf: seq<byte>)
    requires Settled(buf)
    ensures Normalize(buf) == buf
  {
    hide LittleEndian, FromLittleEndian;
    Spans();
    LoadStore(4, 2);
    LoadStore(8, V2_PAYLOAD_OFFSET);
    assert IncomingPayload(buf) == Some(HEADER);
    assert buf == buf[..4] + buf[4..8] + buf[8..24] + buf[24..32] + buf[32..40] + buf[40..48] + buf[48..];
  }

  /** A message built here is its own normal form: what one side builds the other gets byte for byte. */
  lemma BuiltIsNormal(buf: seq<byte>)
    requires WellFormed(buf) && |buf| - HEADER < U32
    ensures Normalize(buf) == buf
  {
    hide LittleEndian, Normalize;
    SettledIsNormal(buf);
  }

  /** Normalizing twice is normalizing once, on accepted and on rejected bytes. */
  lemma NormalizeIdempotent(bytes: seq<byte>)
    ensures Normalize(Normalize(bytes)) == Normalize(bytes)
    ensures (Normalize(bytes) == [] <==> IncomingPayload(bytes).None?)
  {
    hide LittleEndian, FromLittleEndian;
    if IncomingPayload(bytes).Some? {
      NormalizeSlices(bytes);
      SettledIsNormal(Normalize(bytes));
    }
  }

  /** The messages wrapping leaves as they are, exactly. */
  lemma NormalForms(buf: seq<byte>)
    ensures Normalize(buf) == buf <==> buf == [] || Settled(buf)
  {
    hide LittleEndian, FromLittleEndian, V2Form;
    if Settled(buf) {
      SettledIsNormal(buf);
    } else if IncomingPayload(buf).Some? {
      NormalizeSlices(buf);
    }
  }
}
