/**
 The size calculators, which know the wire format a second time, and the machine words the sizes
 travel in. `size_t` is taken as unbounded; `uint32_t` and `int` are not.
 */
module Sizes {
  import opened Machine
  import opened Models
  import opened Codec

  /** `(int) sizeof(data.size) + data.size` is evaluated in 32 bits. */
  function SizeofBytes(data: Blob): uint32 {
    Trunc32(4 + |data|)
  }

  function SizeofStr(str: CString): nat {
    |str| + 1
  }

  /** `None` is the call of `abort`. */
  function SizeofMimetype(mimetype: CString): Option<nat> {
    var len := SizeofStr(mimetype);
    if len > MIMETYPE_MAX then None else Some(len)
  }

  function SizeofQos(qos: Qos): Option<nat> {
    match SizeofMimetype(qos.mimetype)
    case None => None
    case Some(len) => Some(7 * 4 + len)
  }

  function SizeofOpenRequest(r: OpenRequest): Option<nat> {
    match SizeofQos(r.qos)
    case None => None
    case Some(len) => Some(SizeofStr(r.source) + SizeofStr(r.destination) + len + UUID_SIZE)
  }

  function SizeofOpenResponse(r: OpenResponse): Option<nat> {
    match SizeofQos(r.qos)
    case None => None
    case Some(len) => Some(4 + len + UUID_SIZE)
  }

  function SizeofGetKeyRequest(r: GetKeyRequest): nat {
    UUID_SIZE + 4 + SizeofBytes(r.metadata)
  }

  function SizeofGetKeyResponse(r: GetKeyResponse): nat {
    4 + 4 + SizeofBytes(r.key) + SizeofBytes(r.metadata)
  }

  function SizeofCloseRequest(r: CloseRequest): nat {
    UUID_SIZE
  }

  function SizeofCloseResponse(r: CloseResponse): nat {
    4
  }

  /** Longest byte field whose computed size does not wrap. */
  const BYTES_MAX: int := WORD - 5

  lemma QosLength(q: Qos)
    ensures |EncQos(q)| == 28 + |q.mimetype| + 1
  {
  }

  lemma SizeofBytesExact(data: Blob)
    ensures SizeofBytes(data) == |EncBlob(data)| <==> |data| <= BYTES_MAX
  {
  }

  /** The computed size is the length of the encoding exactly when nothing aborts. */
  lemma OpenRequestSize(r: OpenRequest)
    ensures |r.qos.mimetype| <= 255 <==> SizeofOpenRequest(r) == Some(|EncOpenRequest(r)|)
    ensures |r.qos.mimetype| > 255 <==> SizeofOpenRequest(r) == None
  {
    QosLength(r.qos);
  }

  lemma OpenResponseSize(r: OpenResponse)
    ensures |r.qos.mimetype| <= 255 <==> SizeofOpenResponse(r) == Some(|EncOpenResponse(r)|)
    ensures |r.qos.mimetype| > 255 <==> SizeofOpenResponse(r) == None
  {
    QosLength(r.qos);
  }

  /** The computed size is the length of the encoding exactly when no 32-bit sum wraps. */
  lemma GetKeyRequestSize(r: GetKeyRequest)
    ensures SizeofGetKeyRequest(r) == |EncGetKeyRequest(r)| <==> |r.metadata| <= BYTES_MAX
  {
  }

  lemma GetKeyResponseSize(r: GetKeyResponse)
    ensures SizeofGetKeyResponse(r) == |EncGetKeyResponse(r)| <==> |r.key| <= BYTES_MAX && |r.metadata| <= BYTES_MAX
  {
  }

  lemma CloseRequestSize(r: CloseRequest)
    ensures SizeofCloseRequest(r) == |EncCloseRequest(r)|
  {
  }

  lemma CloseResponseSize(r: CloseResponse)
    ensures SizeofCloseResponse(r) == |EncCloseResponse(r)|
  {
  }

  // ----- the words that carry a size ---------------------------------------------------------

  /** `size_t` assigned to the `payload_size` of the header. */
  function PayloadSize(total: nat): uint32 {
    Trunc32(total)
  }

  /** `sizeof(qkd_header_t) + payload_size`, the argument of `malloc`. */
  function FrameSize(total: nat): nat {
    HEADER_SIZE + PayloadSize(total)
  }

  /** The frame size through the `uint32_t` of `socket_data_t` and the `int` of `SSL_write`. */
  function SendSize(total: nat): int {
    var size := Trunc32(FrameSize(total));
    if size < 0x8000_0000 then size else size - WORD
  }

  /** The header tells the truth below 2^32, the send call below 2^31. */
  lemma WordsCarrySize(total: nat)
    ensures FrameSize(total) == HEADER_SIZE + total <==> total < WORD
    ensures SendSize(total) == HEADER_SIZE + total <==> HEADER_SIZE + total < 0x8000_0000
  {
  }

  /** The block allocated for a frame is as long as what is written to it exactly below 2^32. */
  lemma OpenRequestFrame(r: OpenRequest)
    requires |r.qos.mimetype| < MIMETYPE_MAX
    ensures SizeofOpenRequest(r).Some?
    ensures FrameSize(SizeofOpenRequest(r).value) == HEADER_SIZE + |EncOpenRequest(r)| <==> |EncOpenRequest(r)| < WORD
  {
    OpenRequestSize(r);
  }

  lemma GetKeyRequestFrame(r: GetKeyRequest)
    ensures FrameSize(SizeofGetKeyRequest(r)) == HEADER_SIZE + |EncGetKeyRequest(r)| <==> |EncGetKeyRequest(r)| < WORD
  {
    GetKeyRequestSize(r);
  }

  lemma GetKeyResponseFrame(r: GetKeyResponse)
    ensures FrameSize(SizeofGetKeyResponse(r)) == HEADER_SIZE + |EncGetKeyResponse(r)| <==> |EncGetKeyResponse(r)| < WORD
  {
    GetKeyResponseSize(r);
  }
}
