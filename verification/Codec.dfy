/**
 The wire format as pure functions: an encoder and a partial decoder for every message, which are
 inverse to each other whatever bytes follow.
 */
module Codec {
  import opened Machine
  import opened Models

  /** Decoding either runs off the data or yields a value and the bytes after it. */
  datatype Decoded<+T> = Malformed | Decoded(value: T, rest: bytes) {
    predicate IsFailure() {
      Malformed?
    }

    function PropagateFailure<U>(): Decoded<U>
      requires Malformed?
    {
      Malformed
    }

    function Extract(): (T, bytes)
      requires Decoded?
    {
      (value, rest)
    }
  }

  // ----- fields ------------------------------------------------------------------------------

  function EncUint32(n: uint32): (e: bytes)
    ensures |e| == 4
  {
    [n / 0x100_0000, n / 0x1_0000 % 256, n / 0x100 % 256, n % 256]
  }

  function BigEndian(a: byte, b: byte, c: byte, d: byte): uint32 {
    256 * (256 * (256 * (a as int) + b) + c) + d
  }

  function DecUint32(s: bytes): Decoded<uint32> {
    if |s| < 4 then Malformed else Decoded(BigEndian(s[0], s[1], s[2], s[3]), s[4..])
  }

  function DecUuid(s: bytes): Decoded<Uuid> {
    if |s| < UUID_SIZE then Malformed else Decoded(s[..UUID_SIZE], s[UUID_SIZE..])
  }

  function EncBlob(data: Blob): bytes {
    EncUint32(|data|) + data
  }

  function DecBlob(s: bytes): Decoded<Blob> {
    var (size, s1) :- DecUint32(s);
    if |s1| < size then Malformed else Decoded(s1[..size], s1[size..])
  }

  function EncString(text: CString): bytes {
    text + [0]
  }

  function DecString(s: bytes): Decoded<CString> {
    if s == [] then Malformed
    else if s[0] == 0 then Decoded([], s[1..])
    else
      var (text, rest) :- DecString(s[1..]);
      Decoded([s[0]] + text, rest)
  }

  function EncQos(q: Qos): bytes {
    EncUint32(q.keyChunkSize) + EncUint32(q.maxBps) + EncUint32(q.minBps) + EncUint32(q.jitter) +
    EncUint32(q.priority) + EncUint32(q.timeout) + EncUint32(q.ttl) + EncString(q.mimetype)
  }

  function DecQos(s: bytes): Decoded<Qos> {
    var (keyChunkSize, s1) :- DecUint32(s);
    var (maxBps, s2) :- DecUint32(s1);
    var (minBps, s3) :- DecUint32(s2);
    var (jitter, s4) :- DecUint32(s3);
    var (priority, s5) :- DecUint32(s4);
    var (timeout, s6) :- DecUint32(s5);
    var (ttl, s7) :- DecUint32(s6);
    var (mimetype, s8) :- DecString(s7);
    Decoded(QosOf(keyChunkSize, maxBps, minBps, jitter, priority, timeout, ttl, mimetype), s8)
  }

  // ----- messages ----------------------------------------------------------------------------

  datatype Message =
    | OpenReq(openReq: OpenRequest)
    | OpenResp(openResp: OpenResponse)
    | GetReq(getReq: GetKeyRequest)
    | GetResp(getResp: GetKeyResponse)
    | CloseReq(closeReq: CloseRequest)
    | CloseResp(closeResp: CloseResponse)
    | Head(header: Header)

  datatype Kind = KOpenReq | KOpenResp | KGetReq | KGetResp | KCloseReq | KCloseResp | KHead

  function KindOf(m: Message): Kind {
    match m
    case OpenReq(_) => KOpenReq
    case OpenResp(_) => KOpenResp
    case GetReq(_) => KGetReq
    case GetResp(_) => KGetResp
    case CloseReq(_) => KCloseReq
    case CloseResp(_) => KCloseResp
    case Head(_) => KHead
  }

  function EncOpenRequest(r: OpenRequest): bytes {
    EncString(r.source) + EncString(r.destination) + EncQos(r.qos) + r.ksid
  }

  function DecOpenRequest(s: bytes): Decoded<OpenRequest> {
    var (source, s1) :- DecString(s);
    var (destination, s2) :- DecString(s1);
    var (qos, s3) :- DecQos(s2);
    var (ksid, s4) :- DecUuid(s3);
    Decoded(OpenRequest(source, destination, qos, ksid), s4)
  }

  function EncOpenResponse(r: OpenResponse): bytes {
    EncUint32(r.status) + EncQos(r.qos) + r.ksid
  }

  function DecOpenResponse(s: bytes): Decoded<OpenResponse> {
    var (status, s1) :- DecUint32(s);
    var (qos, s2) :- DecQos(s1);
    var (ksid, s3) :- DecUuid(s2);
    Decoded(OpenResponse(status, qos, ksid), s3)
  }

  function EncGetKeyRequest(r: GetKeyRequest): bytes {
    r.ksid + EncUint32(r.index) + EncBlob(r.metadata)
  }

  function DecGetKeyRequest(s: bytes): Decoded<GetKeyRequest> {
    var (ksid, s1) :- DecUuid(s);
    var (index, s2) :- DecUint32(s1);
    var (metadata, s3) :- DecBlob(s2);
    Decoded(GetKeyRequest(ksid, index, metadata), s3)
  }

  function EncGetKeyResponse(r: GetKeyResponse): bytes {
    EncUint32(r.status) + EncUint32(r.index) + EncBlob(r.key) + EncBlob(r.metadata)
  }

  function DecGetKeyResponse(s: bytes): Decoded<GetKeyResponse> {
    var (status, s1) :- DecUint32(s);
    var (index, s2) :- DecUint32(s1);
    var (key, s3) :- DecBlob(s2);
    var (metadata, s4) :- DecBlob(s3);
    Decoded(GetKeyResponse(status, index, key, metadata), s4)
  }

  function EncCloseRequest(r: CloseRequest): bytes {
    r.ksid
  }

  function DecCloseRequest(s: bytes): Decoded<CloseRequest> {
    var (ksid, s1) :- DecUuid(s);
    Decoded(CloseRequest(ksid), s1)
  }

  function EncCloseResponse(r: CloseResponse): bytes {
    EncUint32(r.status)
  }

  function DecCloseResponse(s: bytes): Decoded<CloseResponse> {
    var (status, s1) :- DecUint32(s);
    Decoded(CloseResponse(status), s1)
  }

  /** `memcpy` of the packed struct with its last field in network order. */
  function EncHeader(h: Header): (e: bytes)
    ensures |e| == HEADER_SIZE
  {
    [h.major, h.minor, h.micro, h.service] + EncUint32(h.payloadSize)
  }

  function DecHeader(s: bytes): Decoded<Header> {
    if |s| < 4 then Malformed else
    var (payloadSize, s1) :- DecUint32(s[4..]);
    Decoded(Header(s[0], s[1], s[2], s[3], payloadSize), s1)
  }

  function Enc(m: Message): bytes {
    match m
    case OpenReq(r) => EncOpenRequest(r)
    case OpenResp(r) => EncOpenResponse(r)
    case GetReq(r) => EncGetKeyRequest(r)
    case GetResp(r) => EncGetKeyResponse(r)
    case CloseReq(r) => EncCloseRequest(r)
    case CloseResp(r) => EncCloseResponse(r)
    case Head(h) => EncHeader(h)
  }

  function Dec(kind: Kind, s: bytes): Decoded<Message> {
    match kind
    case KOpenReq => var (r, rest) :- DecOpenRequest(s); Decoded(OpenReq(r), rest)
    case KOpenResp => var (r, rest) :- DecOpenResponse(s); Decoded(OpenResp(r), rest)
    case KGetReq => var (r, rest) :- DecGetKeyRequest(s); Decoded(GetReq(r), rest)
    case KGetResp => var (r, rest) :- DecGetKeyResponse(s); Decoded(GetResp(r), rest)
    case KCloseReq => var (r, rest) :- DecCloseRequest(s); Decoded(CloseReq(r), rest)
    case KCloseResp => var (r, rest) :- DecCloseResponse(s); Decoded(CloseResp(r), rest)
    case KHead => var (h, rest) :- DecHeader(s); Decoded(Head(h), rest)
  }

  // ----- the two directions, field by field --------------------------------------------------

  lemma BigEndianDigits(n: uint32, a: byte, b: byte, c: byte, d: byte)
    ensures BigEndian(a, b, c, d) == n <==> EncUint32(n) == [a, b, c, d]
  {
    assert n / 0x1_0000 == 256 * (n / 0x100_0000) + n / 0x1_0000 % 256;
    assert n / 0x100 == 256 * (n / 0x1_0000) + n / 0x100 % 256;
    if BigEndian(a, b, c, d) == n {
      assert n / 0x100 == 256 * (256 * (a as int) + b) + c;
      assert n / 0x1_0000 == 256 * (a as int) + b;
    }
  }

  lemma Uint32Inverse(s: bytes, n: uint32, rest: bytes)
    ensures DecUint32(s) == Decoded(n, rest) <==> s == EncUint32(n) + rest
  {
    if |s| >= 4 {
      BigEndianDigits(n, s[0], s[1], s[2], s[3]);
      assert s == [s[0], s[1], s[2], s[3]] + s[4..];
      if s == EncUint32(n) + rest {
        assert s[..4] == EncUint32(n) && s[4..] == rest;
        assert s[..4] == [s[0], s[1], s[2], s[3]];
      }
    }
  }

  lemma UuidInverse(s: bytes, id: Uuid, rest: bytes)
    ensures DecUuid(s) == Decoded(id, rest) <==> s == id + rest
  {
  }

  lemma Regroup2(a: bytes, b: bytes, rest: bytes)
    ensures a + b + rest == a + (b + rest)
  {
  }

  lemma BlobInverse(s: bytes, data: Blob, rest: bytes)
    ensures DecBlob(s) == Decoded(data, rest) <==> s == EncBlob(data) + rest
  {
    var e, tail := EncUint32(|data|), data + rest;
    Regroup2(e, data, rest);
    Uint32Inverse(s, |data|, tail);
    if s == e + tail {
      assert tail[..|data|] == data && tail[|data|..] == rest;
    }
    if DecBlob(s) == Decoded(data, rest) {
      var d := DecUint32(s);
      assert d.rest == d.rest[..d.value] + d.rest[d.value..] == tail;
    }
  }

  lemma {:induction false} StringInverse(s: bytes, text: CString, rest: bytes)
    ensures DecString(s) == Decoded(text, rest) <==> s == EncString(text) + rest
  {
    if s == [] {
    } else if s[0] == 0 {
      if text != [] {
        assert (EncString(text) + rest)[0] == text[0];
      }
    } else {
      if text != [] {
        StringInverse(s[1..], text[1..], rest);
        assert text == [text[0]] + text[1..];
        assert EncString(text) + rest == [text[0]] + (EncString(text[1..]) + rest);
        assert s == [s[0]] + s[1..];
        if DecString(s) == Decoded(text, rest) {
          assert text[1..] == DecString(s[1..]).value;
        }
      }
    }
  }

  lemma Regroup(a: bytes, b: bytes, c: bytes, d: bytes, rest: bytes)
    ensures a + b + c + d + rest == a + (b + (c + (d + rest)))
  {
  }

  lemma Regroup3(a: bytes, b: bytes, c: bytes, rest: bytes)
    ensures a + b + c + rest == a + (b + (c + rest))
  {
  }

  lemma QosNested(q: Qos, rest: bytes)
    ensures EncQos(q) + rest ==
      EncUint32(q.keyChunkSize) + (EncUint32(q.maxBps) + (EncUint32(q.minBps) + (EncUint32(q.jitter) +
      (EncUint32(q.priority) + (EncUint32(q.timeout) + (EncUint32(q.ttl) + (EncString(q.mimetype) + rest)))))))
  {
    var a, b, c, d := EncUint32(q.keyChunkSize), EncUint32(q.maxBps), EncUint32(q.minBps), EncUint32(q.jitter);
    var e, f, g, h := EncUint32(q.priority), EncUint32(q.timeout), EncUint32(q.ttl), EncString(q.mimetype);
    Regroup(a + b + c + d + e, f, g, h, rest);
    Regroup(a, b, c, d, e + (f + (g + (h + rest))));
    assert a + b + c + d + e + (f + (g + (h + rest))) == a + b + c + d + (e + (f + (g + (h + rest))));
  }

  lemma QosRoundTrip(q: Qos, rest: bytes)
    ensures DecQos(EncQos(q) + rest) == Decoded(q, rest)
  {
    QosNested(q, rest);
    var s7 := EncString(q.mimetype) + rest;
    var s6 := EncUint32(q.ttl) + s7;
    var s5 := EncUint32(q.timeout) + s6;
    var s4 := EncUint32(q.priority) + s5;
    var s3 := EncUint32(q.jitter) + s4;
    var s2 := EncUint32(q.minBps) + s3;
    var s1 := EncUint32(q.maxBps) + s2;
    Uint32Inverse(EncUint32(q.keyChunkSize) + s1, q.keyChunkSize, s1);
    Uint32Inverse(s1, q.maxBps, s2);
    Uint32Inverse(s2, q.minBps, s3);
    Uint32Inverse(s3, q.jitter, s4);
    Uint32Inverse(s4, q.priority, s5);
    Uint32Inverse(s5, q.timeout, s6);
    Uint32Inverse(s6, q.ttl, s7);
    StringInverse(s7, q.mimetype, rest);
  }

  lemma QosCanonical(s: bytes)
    requires DecQos(s).Decoded?
    ensures s == EncQos(DecQos(s).value) + DecQos(s).rest
  {
    var d1 := DecUint32(s);
    var d2 := DecUint32(d1.rest);
    var d3 := DecUint32(d2.rest);
    var d4 := DecUint32(d3.rest);
    var d5 := DecUint32(d4.rest);
    var d6 := DecUint32(d5.rest);
    var d7 := DecUint32(d6.rest);
    var d8 := DecString(d7.rest);
    Uint32Inverse(s, d1.value, d1.rest);
    Uint32Inverse(d1.rest, d2.value, d2.rest);
    Uint32Inverse(d2.rest, d3.value, d3.rest);
    Uint32Inverse(d3.rest, d4.value, d4.rest);
    Uint32Inverse(d4.rest, d5.value, d5.rest);
    Uint32Inverse(d5.rest, d6.value, d6.rest);
    Uint32Inverse(d6.rest, d7.value, d7.rest);
    StringInverse(d7.rest, d8.value, d8.rest);
    QosNested(DecQos(s).value, d8.rest);
  }

  // ----- whole messages ----------------------------------------------------------------------

  lemma OpenRequestRoundTrip(r: OpenRequest, rest: bytes)
    ensures DecOpenRequest(EncOpenRequest(r) + rest) == Decoded(r, rest)
  {
    var s3 := r.ksid + rest;
    var s2 := EncQos(r.qos) + s3;
    var s1 := EncString(r.destination) + s2;
    Regroup(EncString(r.source), EncString(r.destination), EncQos(r.qos), r.ksid, rest);
    StringInverse(EncString(r.source) + s1, r.source, s1);
    StringInverse(s1, r.destination, s2);
    QosRoundTrip(r.qos, s3);
    UuidInverse(s3, r.ksid, rest);
  }

  lemma OpenResponseRoundTrip(r: OpenResponse, rest: bytes)
    ensures DecOpenResponse(EncOpenResponse(r) + rest) == Decoded(r, rest)
  {
    var s2 := r.ksid + rest;
    var s1 := EncQos(r.qos) + s2;
    Regroup3(EncUint32(r.status), EncQos(r.qos), r.ksid, rest);
    Uint32Inverse(EncUint32(r.status) + s1, r.status, s1);
    QosRoundTrip(r.qos, s2);
    UuidInverse(s2, r.ksid, rest);
  }

  lemma GetKeyRequestRoundTrip(r: GetKeyRequest, rest: bytes)
    ensures DecGetKeyRequest(EncGetKeyRequest(r) + rest) == Decoded(r, rest)
  {
    var s2 := EncBlob(r.metadata) + rest;
    var s1 := EncUint32(r.index) + s2;
    Regroup3(r.ksid, EncUint32(r.index), EncBlob(r.metadata), rest);
    UuidInverse(r.ksid + s1, r.ksid, s1);
    Uint32Inverse(s1, r.index, s2);
    BlobInverse(s2, r.metadata, rest);
  }

  lemma GetKeyResponseRoundTrip(r: GetKeyResponse, rest: bytes)
    ensures DecGetKeyResponse(EncGetKeyResponse(r) + rest) == Decoded(r, rest)
  {
    var s3 := EncBlob(r.metadata) + rest;
    var s2 := EncBlob(r.key) + s3;
    var s1 := EncUint32(r.index) + s2;
    Regroup(EncUint32(r.status), EncUint32(r.index), EncBlob(r.key), EncBlob(r.metadata), rest);
    Uint32Inverse(EncUint32(r.status) + s1, r.status, s1);
    Uint32Inverse(s1, r.index, s2);
    BlobInverse(s2, r.key, s3);
    BlobInverse(s3, r.metadata, rest);
  }

  lemma HeaderRoundTrip(h: Header, rest: bytes)
    ensures DecHeader(EncHeader(h) + rest) == Decoded(h, rest)
  {
    assert (EncHeader(h) + rest)[4..] == EncUint32(h.payloadSize) + rest;
    Uint32Inverse(EncUint32(h.payloadSize) + rest, h.payloadSize, rest);
  }

  /** Decoding an encoded message followed by anything returns the message and stops at the rest. */
  lemma RoundTrip(m: Message, rest: bytes)
    ensures Dec(KindOf(m), Enc(m) + rest) == Decoded(m, rest)
  {
    match m
    case OpenReq(r) => OpenRequestRoundTrip(r, rest);
    case OpenResp(r) => OpenResponseRoundTrip(r, rest);
    case GetReq(r) => GetKeyRequestRoundTrip(r, rest);
    case GetResp(r) => GetKeyResponseRoundTrip(r, rest);
    case CloseReq(r) => UuidInverse(r.ksid + rest, r.ksid, rest);
    case CloseResp(r) => Uint32Inverse(EncUint32(r.status) + rest, r.status, rest);
    case Head(h) => HeaderRoundTrip(h, rest);
  }

  lemma OpenRequestCanonical(s: bytes)
    requires DecOpenRequest(s).Decoded?
    ensures s == EncOpenRequest(DecOpenRequest(s).value) + DecOpenRequest(s).rest
  {
    var d := DecString(s);
    var e := DecString(d.rest);
    var q := DecQos(e.rest);
    var u := DecUuid(q.rest);
    assert DecOpenRequest(s) == Decoded(OpenRequest(d.value, e.value, q.value, u.value), u.rest);
    assert s == EncString(d.value) + d.rest by { StringInverse(s, d.value, d.rest); }
    assert d.rest == EncString(e.value) + e.rest by { StringInverse(d.rest, e.value, e.rest); }
    assert e.rest == EncQos(q.value) + q.rest by { QosCanonical(e.rest); }
    assert q.rest == u.value + u.rest by { UuidInverse(q.rest, u.value, u.rest); }
    Regroup(EncString(d.value), EncString(e.value), EncQos(q.value), u.value, u.rest);
  }

  lemma OpenResponseCanonical(s: bytes)
    requires DecOpenResponse(s).Decoded?
    ensures s == EncOpenResponse(DecOpenResponse(s).value) + DecOpenResponse(s).rest
  {
    var d := DecUint32(s);
    var q := DecQos(d.rest);
    var u := DecUuid(q.rest);
    assert DecOpenResponse(s) == Decoded(OpenResponse(d.value, q.value, u.value), u.rest);
    assert s == EncUint32(d.value) + d.rest by { Uint32Inverse(s, d.value, d.rest); }
    assert d.rest == EncQos(q.value) + q.rest by { QosCanonical(d.rest); }
    assert q.rest == u.value + u.rest by { UuidInverse(q.rest, u.value, u.rest); }
    Regroup3(EncUint32(d.value), EncQos(q.value), u.value, u.rest);
  }

  lemma GetKeyRequestCanonical(s: bytes)
    requires DecGetKeyRequest(s).Decoded?
    ensures s == EncGetKeyRequest(DecGetKeyRequest(s).value) + DecGetKeyRequest(s).rest
  {
    var d := DecUuid(s);
    var e := DecUint32(d.rest);
    var f := DecBlob(e.rest);
    assert DecGetKeyRequest(s) == Decoded(GetKeyRequest(d.value, e.value, f.value), f.rest);
    assert s == d.value + d.rest by { UuidInverse(s, d.value, d.rest); }
    assert d.rest == EncUint32(e.value) + e.rest by { Uint32Inverse(d.rest, e.value, e.rest); }
    assert e.rest == EncBlob(f.value) + f.rest by { BlobInverse(e.rest, f.value, f.rest); }
    Regroup3(d.value, EncUint32(e.value), EncBlob(f.value), f.rest);
  }

  lemma GetKeyResponseCanonical(s: bytes)
    requires DecGetKeyResponse(s).Decoded?
    ensures s == EncGetKeyResponse(DecGetKeyResponse(s).value) + DecGetKeyResponse(s).rest
  {
    var d := DecUint32(s);
    var e := DecUint32(d.rest);
    var f := DecBlob(e.rest);
    var g := DecBlob(f.rest);
    assert DecGetKeyResponse(s) == Decoded(GetKeyResponse(d.value, e.value, f.value, g.value), g.rest);
    assert s == EncUint32(d.value) + d.rest by { Uint32Inverse(s, d.value, d.rest); }
    assert d.rest == EncUint32(e.value) + e.rest by { Uint32Inverse(d.rest, e.value, e.rest); }
    assert e.rest == EncBlob(f.value) + f.rest by { BlobInverse(e.rest, f.value, f.rest); }
    assert f.rest == EncBlob(g.value) + g.rest by { BlobInverse(f.rest, g.value, g.rest); }
    Regroup(EncUint32(d.value), EncUint32(e.value), EncBlob(f.value), EncBlob(g.value), g.rest);
  }

  lemma HeaderCanonical(s: bytes)
    requires DecHeader(s).Decoded?
    ensures s == EncHeader(DecHeader(s).value) + DecHeader(s).rest
  {
    var d := DecUint32(s[4..]);
    Uint32Inverse(s[4..], d.value, d.rest);
    var front := [s[0], s[1], s[2], s[3]];
    assert s == front + s[4..];
    assert front + EncUint32(d.value) + d.rest == front + (EncUint32(d.value) + d.rest);
  }

  /** Whatever decodes is the encoding of the value found, followed by the rest. */
  lemma Canonical(kind: Kind, s: bytes)
    requires Dec(kind, s).Decoded?
    ensures KindOf(Dec(kind, s).value) == kind
    ensures s == Enc(Dec(kind, s).value) + Dec(kind, s).rest
  {
    match kind
    case KOpenReq => OpenRequestCanonical(s);
    case KOpenResp => OpenResponseCanonical(s);
    case KGetReq => GetKeyRequestCanonical(s);
    case KGetResp => GetKeyResponseCanonical(s);
    case KCloseReq =>
    case KCloseResp => Uint32Inverse(s, DecUint32(s).value, DecUint32(s).rest);
    case KHead => HeaderCanonical(s);
  }

  /** The decoder accepts exactly the encodings. */
  lemma DecodesExactlyEncodings(kind: Kind, s: bytes, m: Message, rest: bytes)
    ensures Dec(kind, s) == Decoded(m, rest) <==> KindOf(m) == kind && s == Enc(m) + rest
  {
    RoundTrip(m, rest);
    if Dec(kind, s).Decoded? { Canonical(kind, s); }
  }

  /** Data no longer than the encoding decodes to the message only if it is the encoding. */
  lemma ExactPayload(m: Message, payload: bytes)
    requires |payload| <= |Enc(m)|
    ensures Dec(KindOf(m), payload).Decoded? && Dec(KindOf(m), payload).value == m <==> payload == Enc(m)
  {
    assert Enc(m) + [] == Enc(m);
    RoundTrip(m, []);
    var d := Dec(KindOf(m), payload);
    if d.Decoded? && d.value == m { Canonical(KindOf(m), payload); }
  }

  // ----- concatenations ----------------------------------------------------------------------

  function EncAll(ms: seq<Message>): bytes {
    if ms == [] then [] else Enc(ms[0]) + EncAll(ms[1..])
  }

  function KindsOf(ms: seq<Message>): seq<Kind> {
    seq(|ms|, i requires 0 <= i < |ms| => KindOf(ms[i]))
  }

  /** Read one message per kind, in order. */
  function DecAll(kinds: seq<Kind>, s: bytes): Decoded<seq<Message>> {
    if kinds == [] then Decoded([], s)
    else
      var (m, s1) :- Dec(kinds[0], s);
      var (ms, s2) :- DecAll(kinds[1..], s1);
      Decoded([m] + ms, s2)
  }

  lemma DecAllStep(kinds: seq<Kind>, s: bytes, d: Decoded<Message>, e: Decoded<seq<Message>>)
    requires kinds != [] && Dec(kinds[0], s) == d && d.Decoded?
    requires DecAll(kinds[1..], d.rest) == e && e.Decoded?
    ensures DecAll(kinds, s) == Decoded([d.value] + e.value, e.rest)
  {
  }

  lemma EncAllStep(m: Message, ms: seq<Message>, rest: bytes)
    ensures EncAll([m] + ms) + rest == Enc(m) + (EncAll(ms) + rest)
  {
    assert ([m] + ms)[1..] == ms;
    Regroup2(Enc(m), EncAll(ms), rest);
  }

  lemma KindsStep(m: Message, ms: seq<Message>)
    ensures KindsOf([m] + ms) == [KindOf(m)] + KindsOf(ms)
  {
  }

  lemma {:induction false} StreamRoundTrip(ms: seq<Message>, rest: bytes)
    ensures DecAll(KindsOf(ms), EncAll(ms) + rest) == Decoded(ms, rest)
  {
    if ms != [] {
      var m, ms' := ms[0], ms[1..];
      assert ms == [m] + ms';
      EncAllStep(m, ms', rest);
      KindsStep(m, ms');
      StreamRoundTrip(ms', rest);
      RoundTrip(m, EncAll(ms') + rest);
      DecAllStep(KindsOf(ms), EncAll(ms) + rest, Decoded(m, EncAll(ms') + rest), Decoded(ms', rest));
    }
  }

  lemma {:induction false} StreamCanonical(kinds: seq<Kind>, s: bytes)
    requires DecAll(kinds, s).Decoded?
    ensures KindsOf(DecAll(kinds, s).value) == kinds
    ensures s == EncAll(DecAll(kinds, s).value) + DecAll(kinds, s).rest
    decreases |kinds|
  {
    if kinds != [] {
      var d := Dec(kinds[0], s);
      Canonical(kinds[0], s);
      var e := DecAll(kinds[1..], d.rest);
      StreamCanonical(kinds[1..], d.rest);
      DecAllStep(kinds, s, d, e);
      EncAllStep(d.value, e.value, e.rest);
      KindsStep(d.value, e.value);
    }
  }

  /** A stream of messages has one reading by the matching decoders, and reading inverts writing. */
  lemma StreamInverse(kinds: seq<Kind>, s: bytes, ms: seq<Message>, rest: bytes)
    ensures DecAll(kinds, s) == Decoded(ms, rest) <==> KindsOf(ms) == kinds && s == EncAll(ms) + rest
  {
    StreamRoundTrip(ms, rest);
    if DecAll(kinds, s).Decoded? { StreamCanonical(kinds, s); }
  }

  /** No encoding is a proper prefix of another one of its kind. */
  lemma PrefixFree(m: Message, m': Message, rest: bytes, rest': bytes)
    requires KindOf(m) == KindOf(m')
    ensures Enc(m) + rest == Enc(m') + rest' <==> m == m' && rest == rest'
  {
    RoundTrip(m, rest);
    RoundTrip(m', rest');
  }
}
