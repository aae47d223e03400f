/**
 The three steps every stub and every branch of the servlet takes to frame a message: compute its
 size, allocate a buffer of header plus size, and write header and message through a cursor. The
 cursor ends where the buffer ends.
 */
module Framing {
  import opened Machine
  import opened Models
  import opened Memory
  import opened Codec
  import opened Sizes
  import opened Serializers
  import opened Wire

  /** `malloc(size)`; the contents are whatever they are. */
  method AllocBuffer(heap: Heap, size: nat) returns (buf: Ptr<array<byte>>)
    requires heap.Valid()
    modifies heap
    ensures heap.Valid() && buf.Ptr? && fresh(buf.block) && buf.block.Length == size
    ensures buf.id == old(heap.next) && heap.next == buf.id + 1
    ensures heap.live == old(heap.live) + {buf.id} && |heap.live| == |old(heap.live)| + 1
  {
    var id := heap.Malloc();
    var data := new byte[size];
    buf := Ptr(id, data);
  }

  lemma SizedOpenRequest(r: OpenRequest)
    requires |EncOpenRequest(r)| < WORD && |r.qos.mimetype| < MIMETYPE_MAX
    ensures SizeofOpenRequest(r) == Some(|EncOpenRequest(r)|)
  {
    OpenRequestSize(r);
  }

  method FrameOpenRequest(heap: Heap, r: OpenRequest) returns (buf: Ptr<array<byte>>)
    requires heap.Valid() && |EncOpenRequest(r)| < WORD && |r.qos.mimetype| < MIMETYPE_MAX
    modifies heap
    ensures heap.Valid() && buf.Ptr? && fresh(buf.block) && buf.block[..] == FrameOf(OPEN_CONNECT_REQUEST, EncOpenRequest(r))
    ensures buf.id == old(heap.next) && heap.next == buf.id + 1
    ensures heap.live == old(heap.live) + {buf.id} && |heap.live| == |old(heap.live)| + 1
  {
    SizedOpenRequest(r);
    var size := SizeofOpenRequest(r).value;
    var header := MakeHeader(OPEN_CONNECT_REQUEST, PayloadSize(size));
    buf := AllocBuffer(heap, HEADER_SIZE + header.payloadSize);
    var stream := new OutStream(heap, buf);
    stream.PutHeader(header);
    stream.PutOpenRequest(r);
    assert stream.written == EncHeader(header) + EncOpenRequest(r);
    stream.Full();
  }

  lemma SizedOpenResponse(r: OpenResponse)
    requires |r.qos.mimetype| < MIMETYPE_MAX
    ensures SizeofOpenResponse(r) == Some(|EncOpenResponse(r)|) && |EncOpenResponse(r)| < WORD
  {
    OpenResponseSize(r);
  }

  method FrameOpenResponse(heap: Heap, r: OpenResponse) returns (buf: Ptr<array<byte>>)
    requires heap.Valid() && |r.qos.mimetype| < MIMETYPE_MAX
    modifies heap
    ensures heap.Valid() && buf.Ptr? && fresh(buf.block) && buf.block[..] == FrameOf(OPEN_CONNECT_RESPONSE, EncOpenResponse(r))
    ensures buf.id == old(heap.next) && heap.next == buf.id + 1
    ensures heap.live == old(heap.live) + {buf.id} && |heap.live| == |old(heap.live)| + 1
  {
    SizedOpenResponse(r);
    var size := SizeofOpenResponse(r).value;
    var header := MakeHeader(OPEN_CONNECT_RESPONSE, PayloadSize(size));
    buf := AllocBuffer(heap, HEADER_SIZE + header.payloadSize);
    var stream := new OutStream(heap, buf);
    stream.PutHeader(header);
    stream.PutOpenResponse(r);
    assert stream.written == EncHeader(header) + EncOpenResponse(r);
    stream.Full();
  }

  lemma SizedGetKeyRequest(r: GetKeyRequest)
    requires |EncGetKeyRequest(r)| < WORD
    ensures SizeofGetKeyRequest(r) == PayloadSize(SizeofGetKeyRequest(r)) == |EncGetKeyRequest(r)|
  {
    GetKeyRequestSize(r);
  }

  method FrameGetKeyRequest(heap: Heap, r: GetKeyRequest) returns (buf: Ptr<array<byte>>)
    requires heap.Valid() && |EncGetKeyRequest(r)| < WORD
    modifies heap
    ensures heap.Valid() && buf.Ptr? && fresh(buf.block) && buf.block[..] == FrameOf(GET_KEY_REQUEST, EncGetKeyRequest(r))
    ensures buf.id == old(heap.next) && heap.next == buf.id + 1
    ensures heap.live == old(heap.live) + {buf.id} && |heap.live| == |old(heap.live)| + 1
  {
    SizedGetKeyRequest(r);
    var size := SizeofGetKeyRequest(r);
    var header := MakeHeader(GET_KEY_REQUEST, PayloadSize(size));
    buf := AllocBuffer(heap, HEADER_SIZE + header.payloadSize);
    var stream := new OutStream(heap, buf);
    stream.PutHeader(header);
    stream.PutGetKeyRequest(r);
    assert stream.written == EncHeader(header) + EncGetKeyRequest(r);
    stream.Full();
  }

  lemma SizedGetKeyResponse(r: GetKeyResponse)
    requires |EncGetKeyResponse(r)| < WORD
    ensures SizeofGetKeyResponse(r) == PayloadSize(SizeofGetKeyResponse(r)) == |EncGetKeyResponse(r)|
  {
    GetKeyResponseSize(r);
  }

  method FrameGetKeyResponse(heap: Heap, r: GetKeyResponse) returns (buf: Ptr<array<byte>>)
    requires heap.Valid() && |EncGetKeyResponse(r)| < WORD
    modifies heap
    ensures heap.Valid() && buf.Ptr? && fresh(buf.block) && buf.block[..] == FrameOf(GET_KEY_RESPONSE, EncGetKeyResponse(r))
    ensures buf.id == old(heap.next) && heap.next == buf.id + 1
    ensures heap.live == old(heap.live) + {buf.id} && |heap.live| == |old(heap.live)| + 1
  {
    SizedGetKeyResponse(r);
    var size := SizeofGetKeyResponse(r);
    var header := MakeHeader(GET_KEY_RESPONSE, PayloadSize(size));
    buf := AllocBuffer(heap, HEADER_SIZE + header.payloadSize);
    var stream := new OutStream(heap, buf);
    stream.PutHeader(header);
    stream.PutGetKeyResponse(r);
    assert stream.written == EncHeader(header) + EncGetKeyResponse(r);
    stream.Full();
  }

  lemma SizedCloseRequest(r: CloseRequest)
    ensures SizeofCloseRequest(r) == |EncCloseRequest(r)| && |EncCloseRequest(r)| < WORD
  {
    CloseRequestSize(r);
  }

  method FrameCloseRequest(heap: Heap, r: CloseRequest) returns (buf: Ptr<array<byte>>)
    requires heap.Valid()
    modifies heap
    ensures heap.Valid() && buf.Ptr? && fresh(buf.block) && buf.block[..] == FrameOf(CLOSE_REQUEST, EncCloseRequest(r))
    ensures buf.id == old(heap.next) && heap.next == buf.id + 1
    ensures heap.live == old(heap.live) + {buf.id} && |heap.live| == |old(heap.live)| + 1
  {
    SizedCloseRequest(r);
    var size := SizeofCloseRequest(r);
    var header := MakeHeader(CLOSE_REQUEST, PayloadSize(size));
    buf := AllocBuffer(heap, HEADER_SIZE + header.payloadSize);
    var stream := new OutStream(heap, buf);
    stream.PutHeader(header);
    stream.PutCloseRequest(r);
    assert stream.written == EncHeader(header) + EncCloseRequest(r);
    stream.Full();
  }

  lemma SizedCloseResponse(r: CloseResponse)
    ensures SizeofCloseResponse(r) == |EncCloseResponse(r)| && |EncCloseResponse(r)| < WORD
  {
    CloseResponseSize(r);
  }

  method FrameCloseResponse(heap: Heap, r: CloseResponse) returns (buf: Ptr<array<byte>>)
    requires heap.Valid()
    modifies heap
    ensures heap.Valid() && buf.Ptr? && fresh(buf.block) && buf.block[..] == FrameOf(CLOSE_RESPONSE, EncCloseResponse(r))
    ensures buf.id == old(heap.next) && heap.next == buf.id + 1
    ensures heap.live == old(heap.live) + {buf.id} && |heap.live| == |old(heap.live)| + 1
  {
    SizedCloseResponse(r);
    var size := SizeofCloseResponse(r);
    var header := MakeHeader(CLOSE_RESPONSE, PayloadSize(size));
    buf := AllocBuffer(heap, HEADER_SIZE + header.payloadSize);
    var stream := new OutStream(heap, buf);
    stream.PutHeader(header);
    stream.PutCloseResponse(r);
    assert stream.written == EncHeader(header) + EncCloseResponse(r);
    stream.Full();
  }
}
