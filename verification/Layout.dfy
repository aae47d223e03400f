/**
 The wire format byte by byte: which bytes stand where in an encoded message, stated without the
 encoders. Words are big-endian.
 */
module Layout {
  import opened Machine
  import opened Models
  import opened Codec

  /** `part` stands in `s` from offset `i` on. */
  predicate IsAt(part: bytes, s: bytes, i: nat) {
    i + |part| <= |s| && s[i..i + |part|] == part
  }

  /** The four bytes from offset `i` on are `n`, most significant first. */
  predicate WordIsAt(n: uint32, s: bytes, i: nat) {
    i + 4 <= |s| && 0x100_0000 * (s[i] as int) + 0x1_0000 * (s[i + 1] as int) + 0x100 * (s[i + 2] as int) + s[i + 3] == n
  }

  lemma Uint32IsBigEndian(n: uint32)
    ensures var e := EncUint32(n);
      0x100_0000 * (e[0] as int) + 0x1_0000 * (e[1] as int) + 0x100 * (e[2] as int) + e[3] == n
  {
    assert n / 0x1_0000 == 256 * (n / 0x100_0000) + n / 0x1_0000 % 256;
    assert n / 0x100 == 256 * (n / 0x1_0000) + n / 0x100 % 256;
  }

  lemma WordAt(n: uint32, s: bytes, i: nat)
    requires IsAt(EncUint32(n), s, i)
    ensures WordIsAt(n, s, i)
  {
    Uint32IsBigEndian(n);
    var e := s[i..i + 4];
    assert e[0] == s[i] && e[1] == s[i + 1] && e[2] == s[i + 2] && e[3] == s[i + 3];
  }

  lemma AtEnd(front: bytes, part: bytes)
    ensures IsAt(part, front + part, |front|)
  {
  }

  lemma Grows(part: bytes, s: bytes, i: nat, more: bytes)
    requires IsAt(part, s, i)
    ensures IsAt(part, s + more, i)
  {
  }

  lemma WordGrows(n: uint32, s: bytes, i: nat, more: bytes)
    requires WordIsAt(n, s, i)
    ensures WordIsAt(n, s + more, i)
  {
  }

  lemma WordAtEnd(front: bytes, n: uint32)
    ensures WordIsAt(n, front + EncUint32(n), |front|)
  {
    AtEnd(front, EncUint32(n));
    WordAt(n, front + EncUint32(n), |front|);
  }

  /** Words that follow each other, from offset 0 on. */
  predicate WordsAt(ns: seq<uint32>, s: bytes) {
    forall k :: 0 <= k < |ns| ==> WordIsAt(ns[k], s, 4 * k)
  }

  lemma WordsStep(ns: seq<uint32>, s: bytes, n: uint32)
    requires WordsAt(ns, s) && |s| == 4 * |ns|
    ensures WordsAt(ns + [n], s + EncUint32(n)) && |s + EncUint32(n)| == 4 * |ns + [n]|
  {
    WordAtEnd(s, n);
    forall k | 0 <= k < |ns| ensures WordIsAt(ns[k], s + EncUint32(n), 4 * k) {
      WordGrows(ns[k], s, 4 * k, EncUint32(n));
    }
  }

  lemma WordsGrow(ns: seq<uint32>, s: bytes, more: bytes)
    requires WordsAt(ns, s)
    ensures WordsAt(ns, s + more)
  {
    forall k | 0 <= k < |ns| ensures WordIsAt(ns[k], s + more, 4 * k) {
      WordGrows(ns[k], s, 4 * k, more);
    }
  }

  lemma Two(a: uint32, b: uint32)
    ensures WordsAt([a, b], EncUint32(a) + EncUint32(b))
  {
    assert [] + EncUint32(a) == EncUint32(a) && [a] == [] + [a] && [a, b] == [a] + [b];
    WordsStep([], [], a);
    WordsStep([a], EncUint32(a), b);
  }

  lemma Four(a: uint32, b: uint32, c: uint32, d: uint32)
    ensures WordsAt([a, b, c, d], EncUint32(a) + EncUint32(b) + EncUint32(c) + EncUint32(d))
  {
    Two(a, b);
    var s := EncUint32(a) + EncUint32(b);
    assert [a, b, c] == [a, b] + [c] && [a, b, c, d] == [a, b, c] + [d];
    WordsStep([a, b], s, c);
    WordsStep([a, b, c], s + EncUint32(c), d);
  }

  /** A QoS is seven words and the mimetype with its NUL. */
  lemma QosLayout(q: Qos)
    ensures |EncQos(q)| == 28 + |q.mimetype| + 1
    ensures WordsAt([q.keyChunkSize, q.maxBps, q.minBps, q.jitter, q.priority, q.timeout, q.ttl], EncQos(q))
    ensures IsAt(q.mimetype + [0], EncQos(q), 28)
  {
    var four := [q.keyChunkSize, q.maxBps, q.minBps, q.jitter];
    Four(q.keyChunkSize, q.maxBps, q.minBps, q.jitter);
    var s4 := EncUint32(q.keyChunkSize) + EncUint32(q.maxBps) + EncUint32(q.minBps) + EncUint32(q.jitter);
    var s5 := s4 + EncUint32(q.priority);
    var s6 := s5 + EncUint32(q.timeout);
    WordsStep(four, s4, q.priority);
    WordsStep(four + [q.priority], s5, q.timeout);
    WordsStep(four + [q.priority] + [q.timeout], s6, q.ttl);
    assert four + [q.priority] + [q.timeout] + [q.ttl] ==
      [q.keyChunkSize, q.maxBps, q.minBps, q.jitter, q.priority, q.timeout, q.ttl];
    WordsGrow(four + [q.priority] + [q.timeout] + [q.ttl], s6 + EncUint32(q.ttl), EncString(q.mimetype));
    AtEnd(s6 + EncUint32(q.ttl), EncString(q.mimetype));
  }

  /** Byte fields are their length as a word and then the bytes. */
  lemma BlobLayout(data: Blob)
    ensures |EncBlob(data)| == 4 + |data| && WordIsAt(|data|, EncBlob(data), 0) && IsAt(data, EncBlob(data), 4)
  {
    WordAtEnd([], |data|);
    assert [] + EncUint32(|data|) == EncUint32(|data|);
    WordGrows(|data|, EncUint32(|data|), 0, data);
    AtEnd(EncUint32(|data|), data);
  }

  /** Source and destination with their NULs, the QoS, the id. */
  lemma OpenRequestLayout(r: OpenRequest)
    ensures var e, d := EncOpenRequest(r), |r.source| + 1;
      var q := d + |r.destination| + 1;
      && IsAt(r.source + [0], e, 0) && IsAt(r.destination + [0], e, d) && IsAt(EncQos(r.qos), e, q)
      && IsAt(r.ksid, e, q + |EncQos(r.qos)|) && |e| == q + |EncQos(r.qos)| + 16
  {
    var s1 := EncString(r.source);
    var s2 := s1 + EncString(r.destination);
    var s3 := s2 + EncQos(r.qos);
    assert IsAt(s1, s1, 0);
    AtEnd(s1, EncString(r.destination));
    AtEnd(s2, EncQos(r.qos));
    AtEnd(s3, r.ksid);
    Grows(s1, s1, 0, EncString(r.destination));
    Grows(s1, s2, 0, EncQos(r.qos));
    Grows(s1, s3, 0, r.ksid);
    Grows(EncString(r.destination), s2, |s1|, EncQos(r.qos));
    Grows(EncString(r.destination), s3, |s1|, r.ksid);
    Grows(EncQos(r.qos), s3, |s2|, r.ksid);
  }

  /** The status, the QoS, the id. */
  lemma OpenResponseLayout(r: OpenResponse)
    ensures var e := EncOpenResponse(r);
      && WordIsAt(r.status, e, 0) && IsAt(EncQos(r.qos), e, 4)
      && IsAt(r.ksid, e, 4 + |EncQos(r.qos)|) && |e| == 4 + |EncQos(r.qos)| + 16
  {
    var s1 := EncUint32(r.status);
    var s2 := s1 + EncQos(r.qos);
    assert IsAt(s1, s1, 0);
    WordAt(r.status, s1, 0);
    WordGrows(r.status, s1, 0, EncQos(r.qos));
    WordGrows(r.status, s2, 0, r.ksid);
    AtEnd(s1, EncQos(r.qos));
    Grows(EncQos(r.qos), s2, 4, r.ksid);
    AtEnd(s2, r.ksid);
  }

  /** The id, the index, the metadata. */
  lemma GetKeyRequestLayout(r: GetKeyRequest)
    ensures var e := EncGetKeyRequest(r);
      && IsAt(r.ksid, e, 0) && WordIsAt(r.index, e, 16)
      && WordIsAt(|r.metadata|, e, 20) && IsAt(r.metadata, e, 24) && |e| == 24 + |r.metadata|
  {
    var s2 := r.ksid + EncUint32(r.index);
    var s3 := s2 + EncUint32(|r.metadata|);
    var e := EncGetKeyRequest(r);
    Regroup2(s2, EncUint32(|r.metadata|), r.metadata);
    assert e == s3 + r.metadata;
    assert e[..16] == r.ksid;
    WordAtEnd(r.ksid, r.index);
    WordGrows(r.index, s2, 16, EncUint32(|r.metadata|));
    WordGrows(r.index, s3, 16, r.metadata);
    WordAtEnd(s2, |r.metadata|);
    WordGrows(|r.metadata|, s3, 20, r.metadata);
    AtEnd(s3, r.metadata);
  }

  /** The status, the index, the key, the metadata. */
  lemma GetKeyResponseLayout(r: GetKeyResponse)
    ensures var e, m := EncGetKeyResponse(r), 12 + |r.key|;
      && WordIsAt(r.status, e, 0) && WordIsAt(r.index, e, 4)
      && WordIsAt(|r.key|, e, 8) && IsAt(r.key, e, 12)
      && WordIsAt(|r.metadata|, e, m) && IsAt(r.metadata, e, m + 4) && |e| == m + 4 + |r.metadata|
  {
    var s2 := EncUint32(r.status) + EncUint32(r.index);
    var s3 := s2 + EncUint32(|r.key|);
    var s4 := s3 + r.key;
    var s5 := s4 + EncUint32(|r.metadata|);
    var e := EncGetKeyResponse(r);
    Regroup2(s2, EncUint32(|r.key|), r.key);
    Regroup2(s4, EncUint32(|r.metadata|), r.metadata);
    assert e == s5 + r.metadata;
    Three(r.status, r.index, |r.key|);
    ThreeGrow(r.status, r.index, |r.key|, s3, r.key);
    ThreeGrow(r.status, r.index, |r.key|, s4, EncUint32(|r.metadata|));
    ThreeGrow(r.status, r.index, |r.key|, s5, r.metadata);
    AtEnd(s3, r.key);
    Grows(r.key, s4, 12, EncUint32(|r.metadata|));
    Grows(r.key, s5, 12, r.metadata);
    WordAtEnd(s4, |r.metadata|);
    WordGrows(|r.metadata|, s5, |s4|, r.metadata);
    AtEnd(s5, r.metadata);
  }

  lemma Three(a: uint32, b: uint32, c: uint32)
    ensures var s := EncUint32(a) + EncUint32(b) + EncUint32(c);
      WordIsAt(a, s, 0) && WordIsAt(b, s, 4) && WordIsAt(c, s, 8)
  {
    Two(a, b);
    var s := EncUint32(a) + EncUint32(b);
    assert WordIsAt([a, b][0], s, 4 * 0) && WordIsAt([a, b][1], s, 4 * 1);
    WordGrows(a, s, 0, EncUint32(c));
    WordGrows(b, s, 4, EncUint32(c));
    WordAtEnd(s, c);
  }

  lemma ThreeGrow(a: uint32, b: uint32, c: uint32, s: bytes, more: bytes)
    requires WordIsAt(a, s, 0) && WordIsAt(b, s, 4) && WordIsAt(c, s, 8)
    ensures WordIsAt(a, s + more, 0) && WordIsAt(b, s + more, 4) && WordIsAt(c, s + more, 8)
  {
    WordGrows(a, s, 0, more);
    WordGrows(b, s, 4, more);
    WordGrows(c, s, 8, more);
  }

  lemma CloseLayout(request: CloseRequest, response: CloseResponse)
    ensures EncCloseRequest(request) == request.ksid
    ensures |EncCloseResponse(response)| == 4 && WordIsAt(response.status, EncCloseResponse(response), 0)
  {
    Uint32IsBigEndian(response.status);
  }

  /** Version, service, and the payload size in network order. */
  lemma HeaderLayout(h: Header)
    ensures var e := EncHeader(h);
      |e| == 8 && e[0] == h.major && e[1] == h.minor && e[2] == h.micro && e[3] == h.service && WordIsAt(h.payloadSize, e, 4)
  {
    WordAtEnd([h.major, h.minor, h.micro, h.service], h.payloadSize);
  }
}
