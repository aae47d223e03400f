/**
 The serializers as the C code has them: a cursor that walks over a fixed buffer. Writers fill the
 buffer in place; readers allocate a block for every string and byte field. Each one is proved
 against the pure format of module Codec.
 */
module Serializers {
  import opened Machine
  import opened Models
  import opened Memory
  import opened Codec
  import opened Layout
  import opened Sizes

  type QosPtr = QosOf<Ptr<CString>>

  /** The value a QoS struct points to. */
  function QosValue(q: QosPtr): Qos
    requires q.mimetype.Ptr?
  {
    QosOf(q.keyChunkSize, q.maxBps, q.minBps, q.jitter, q.priority, q.timeout, q.ttl, q.mimetype.block)
  }

  lemma QosValueKeepsFields(q: QosPtr)
    requires q.mimetype.Ptr?
    ensures var v := QosValue(q);
      && v.keyChunkSize == q.keyChunkSize && v.maxBps == q.maxBps && v.minBps == q.minBps && v.jitter == q.jitter
      && v.priority == q.priority && v.timeout == q.timeout && v.ttl == q.ttl && v.mimetype == q.mimetype.block
  {
  }

  /** The same, read through a pointer that must be live. */
  function LoadQos(heap: Heap, q: QosPtr): (v: Qos)
    requires heap.Live(q.mimetype)
    reads heap
    ensures v == QosValue(q)
  {
    QosOf(q.keyChunkSize, q.maxBps, q.minBps, q.jitter, q.priority, q.timeout, q.ttl, heap.Load(q.mimetype))
  }

  datatype OpenRequestPtr = OpenRequestPtr(source: Ptr<CString>, destination: Ptr<CString>, qos: QosPtr, ksid: Uuid)
  datatype OpenResponsePtr = OpenResponsePtr(status: uint32, qos: QosPtr, ksid: Uuid)
  datatype GetKeyRequestPtr = GetKeyRequestPtr(ksid: Uuid, index: uint32, metadata: Ptr<Blob>)

  /** `K` is what the key pointer points to: an array where the key is made, its bytes where it is read. */
  datatype GetKeyResponseOf<+K> = GetKeyResponseOf(status: uint32, index: uint32, key: Ptr<K>, metadata: Ptr<Blob>)

  lemma LeftRegroup(w: bytes, a: bytes, b: bytes, c: bytes, d: bytes)
    ensures w + a + b + c + d == w + (a + b + c + d)
  {
  }

  /**
   `stream_t` over a buffer being filled from its start. The cursor is `pos`; everything before it
   was written through the cursor and everything from it on is as it was.
   */
  class OutStream {
    ghost const heap: Heap
    ghost const id: nat
    const buf: array<byte>
    var pos: nat
    ghost var written: bytes
    ghost const initially: bytes

    ghost predicate Valid()
      reads this, heap, buf
    {
      && id in heap.live
      && pos == |written| <= buf.Length == |initially|
      && buf[..] == written + initially[pos..]
    }

    constructor (heap: Heap, p: Ptr<array<byte>>)
      requires heap.Live(p)
      ensures Valid() && this.heap == heap && this.buf == p.block && written == []
    {
      this.heap, this.id, this.buf := heap, p.id, p.block;
      pos, written, initially := 0, [], p.block[..];
    }

    /** A cursor at the end of its buffer has written all of it. */
    lemma Full()
      requires Valid() && |written| == buf.Length
      ensures buf[..] == written
    {
    }

    /** `memcpy(*stream, src, |src|); *stream += |src|`. */
    method Copy(src: bytes)
      requires Valid() && pos + |src| <= buf.Length
      modifies this, buf
      ensures Valid() && written == old(written) + src
    {
      forall i | 0 <= i < |src| {
        buf[pos + i] := src[i];
      }
      pos := pos + |src|;
      written := written + src;
      assert buf[..] == written + initially[pos..];
    }

    method PutUint32(n: uint32)
      requires Valid() && pos + 4 <= buf.Length
      modifies this, buf
      ensures Valid() && written == old(written) + EncUint32(n)
      ensures old(pos) + 4 == pos <= buf.Length
      ensures 0x100_0000 * (buf[old(pos)] as int) + 0x1_0000 * (buf[old(pos) + 1] as int) +
        0x100 * (buf[old(pos) + 2] as int) + buf[old(pos) + 3] == n
    {
      Copy(EncUint32(n));
      Uint32IsBigEndian(n);
      Last(EncUint32(n));
    }

    /** What has just been written stands before the cursor. */
    lemma Last(part: bytes)
      requires Valid() && |part| <= |written| && written[|written| - |part|..] == part
      ensures forall k :: 0 <= k < |part| ==> buf[pos - |part| + k] == part[k]
    {
      forall k | 0 <= k < |part| ensures buf[pos - |part| + k] == part[k] {
        assert buf[pos - |part| + k] == buf[..][pos - |part| + k];
        assert part[k] == written[|written| - |part|..][k];
      }
    }

    method PutUuid(id: Uuid)
      requires Valid() && pos + UUID_SIZE <= buf.Length
      modifies this, buf
      ensures Valid() && written == old(written) + id
    {
      Copy(id);
    }

    method PutBlob(data: Blob)
      requires Valid() && pos + |EncBlob(data)| <= buf.Length
      modifies this, buf
      ensures Valid() && written == old(written) + EncBlob(data)
    {
      ghost var w := written;
      PutUint32(|data|);
      Copy(data);
      Regroup2(w, EncUint32(|data|), data);
    }

    method PutString(str: CString)
      requires Valid() && pos + SizeofStr(str) <= buf.Length
      modifies this, buf
      ensures Valid() && written == old(written) + EncString(str)
    {
      Copy(str + [0]);
    }

    method PutQos(q: Qos)
      requires Valid() && pos + |EncQos(q)| <= buf.Length
      modifies this, buf
      ensures Valid() && written == old(written) + EncQos(q)
    {
      ghost var w := written;
      PutUint32(q.keyChunkSize);
      PutUint32(q.maxBps);
      PutUint32(q.minBps);
      PutUint32(q.jitter);
      ghost var a, b, c, d := EncUint32(q.keyChunkSize), EncUint32(q.maxBps), EncUint32(q.minBps), EncUint32(q.jitter);
      LeftRegroup(w, a, b, c, d);
      PutUint32(q.priority);
      PutUint32(q.timeout);
      PutUint32(q.ttl);
      PutString(q.mimetype);
      ghost var e, f, g, h := EncUint32(q.priority), EncUint32(q.timeout), EncUint32(q.ttl), EncString(q.mimetype);
      LeftRegroup(w + (a + b + c + d), e, f, g, h);
      Regroup2(w, a + b + c + d, e + f + g + h);
      LeftRegroup(a + b + c + d, e, f, g, h);
    }

    method PutOpenRequest(r: OpenRequest)
      requires Valid() && pos + |EncOpenRequest(r)| <= buf.Length
      modifies this, buf
      ensures Valid() && written == old(written) + EncOpenRequest(r)
    {
      ghost var w := written;
      PutString(r.source);
      PutString(r.destination);
      PutQos(r.qos);
      PutUuid(r.ksid);
      LeftRegroup(w, EncString(r.source), EncString(r.destination), EncQos(r.qos), r.ksid);
    }

    method PutOpenResponse(r: OpenResponse)
      requires Valid() && pos + |EncOpenResponse(r)| <= buf.Length
      modifies this, buf
      ensures Valid() && written == old(written) + EncOpenResponse(r)
    {
      ghost var w := written;
      PutUint32(r.status);
      PutQos(r.qos);
      PutUuid(r.ksid);
      LeftRegroup(w, EncUint32(r.status), EncQos(r.qos), r.ksid, []);
    }

    method PutGetKeyRequest(r: GetKeyRequest)
      requires Valid() && pos + |EncGetKeyRequest(r)| <= buf.Length
      modifies this, buf
      ensures Valid() && written == old(written) + EncGetKeyRequest(r)
    {
      ghost var w := written;
      PutUuid(r.ksid);
      PutUint32(r.index);
      PutBlob(r.metadata);
      LeftRegroup(w, r.ksid, EncUint32(r.index), EncBlob(r.metadata), []);
    }

    method PutGetKeyResponse(r: GetKeyResponse)
      requires Valid() && pos + |EncGetKeyResponse(r)| <= buf.Length
      modifies this, buf
      ensures Valid() && written == old(written) + EncGetKeyResponse(r)
    {
      ghost var w := written;
      PutUint32(r.status);
      PutUint32(r.index);
      PutBlob(r.key);
      PutBlob(r.metadata);
      LeftRegroup(w, EncUint32(r.status), EncUint32(r.index), EncBlob(r.key), EncBlob(r.metadata));
    }

    method PutCloseRequest(r: CloseRequest)
      requires Valid() && pos + UUID_SIZE <= buf.Length
      modifies this, buf
      ensures Valid() && written == old(written) + EncCloseRequest(r)
    {
      PutUuid(r.ksid);
    }

    method PutCloseResponse(r: CloseResponse)
      requires Valid() && pos + 4 <= buf.Length
      modifies this, buf
      ensures Valid() && written == old(written) + EncCloseResponse(r)
    {
      PutUint32(r.status);
    }

    method PutHeader(h: Header)
      requires Valid() && pos + HEADER_SIZE <= buf.Length
      modifies this, buf
      ensures Valid() && written == old(written) + EncHeader(h)
      ensures old(pos) + 8 == pos <= buf.Length
      ensures buf[old(pos)] == h.major && buf[old(pos) + 1] == h.minor && buf[old(pos) + 2] == h.micro
      ensures buf[old(pos) + 3] == h.service
      ensures 0x100_0000 * (buf[old(pos) + 4] as int) + 0x1_0000 * (buf[old(pos) + 5] as int) +
        0x100 * (buf[old(pos) + 6] as int) + buf[old(pos) + 7] == h.payloadSize
    {
      Copy(EncHeader(h));
      HeaderLayout(h);
      Last(EncHeader(h));
    }
  }

  /**
   `stream_t` over a received buffer, which must still be live. Reading past the end is what the
   preconditions exclude.
   */
  class InStream {
    const heap: Heap
    ghost const id: nat
    const buf: array<byte>
    var pos: nat

    ghost predicate Valid()
      reads this, heap
    {
      heap.Valid() && id in heap.live && pos <= buf.Length
    }

    ghost function Rest(): bytes
      requires Valid()
      reads this, heap, buf
    {
      buf[pos..]
    }

    constructor (heap: Heap, p: Ptr<array<byte>>)
      requires heap.Valid() && heap.Live(p)
      ensures Valid() && this.heap == heap && Rest() == p.block[..]
    {
      this.heap, this.id, this.buf := heap, p.id, p.block;
      pos := 0;
    }

    /** `memcpy(dst, *stream, n); *stream += n`. */
    method Take(n: nat) returns (dst: bytes)
      requires Valid() && n <= |Rest()|
      modifies this
      ensures Valid() && dst == old(Rest())[..n] && Rest() == old(Rest())[n..]
    {
      dst := buf[pos..pos + n];
      pos := pos + n;
    }

    method GetUint32() returns (n: uint32)
      requires Valid() && DecUint32(Rest()).Decoded?
      modifies this
      ensures Valid() && DecUint32(old(Rest())) == Decoded(n, Rest())
    {
      var b := Take(4);
      n := BigEndian(b[0], b[1], b[2], b[3]);
    }

    /** The id comes in a block of its own, which the caller frees. */
    method GetUuid() returns (id: Uuid)
      requires Valid() && DecUuid(Rest()).Decoded?
      modifies this, heap
      ensures Valid() && DecUuid(old(Rest())) == Decoded(id, Rest())
      ensures heap.live == old(heap.live) && heap.next > old(heap.next)
    {
      var block := heap.Malloc();
      var bytes := Take(UUID_SIZE);
      var p := Ptr(block, bytes);
      id := heap.Load(p);
      heap.Free(p);
    }

    method GetBlob() returns (p: Ptr<Blob>)
      requires Valid() && DecBlob(Rest()).Decoded?
      modifies this, heap
      ensures Valid() && p.Ptr? && DecBlob(old(Rest())) == Decoded(p.block, Rest())
      ensures p.id == old(heap.next) < heap.next
      ensures heap.live == old(heap.live) + {p.id} && |heap.live| == |old(heap.live)| + 1
    {
      var size := GetUint32();
      var block := heap.Malloc();
      var data := Take(size);
      p := Ptr(block, data);
    }

    /** `strlen` of the bytes at the cursor. */
    method Strlen() returns (n: nat)
      requires Valid() && DecString(Rest()).Decoded?
      ensures n < |Rest()| && 0 !in Rest()[..n]
      ensures DecString(Rest()) == Decoded(Rest()[..n], Rest()[n + 1..])
    {
      ghost var s := Rest();
      StringInverse(s, DecString(s).value, DecString(s).rest);
      ghost var text := DecString(s).value;
      assert forall i :: 0 <= i < |text| ==> s[i] == EncString(text)[i] == text[i];
      assert s[|text|] == EncString(text)[|text|] == 0;
      n := 0;
      while buf[pos + n] != 0
        invariant 0 <= n <= |text|
        decreases |text| - n
      {
        n := n + 1;
      }
      assert s[..n] == text;
    }

    method GetString() returns (p: Ptr<CString>)
      requires Valid() && DecString(Rest()).Decoded?
      modifies this, heap
      ensures Valid() && p.Ptr? && DecString(old(Rest())) == Decoded(p.block, Rest())
      ensures p.id == old(heap.next) < heap.next
      ensures heap.live == old(heap.live) + {p.id} && |heap.live| == |old(heap.live)| + 1
    {
      var n := Strlen();
      var block := heap.Malloc();
      var b := Take(n + 1);
      assert b[..n] == old(Rest())[..n];
      p := Ptr(block, b[..n]);
    }

    method GetQos() returns (q: QosPtr)
      requires Valid() && DecQos(Rest()).Decoded?
      modifies this, heap
      ensures Valid() && q.mimetype.Ptr? && DecQos(old(Rest())) == Decoded(QosValue(q), Rest())
      ensures q.mimetype.id == old(heap.next) < heap.next
      ensures heap.live == old(heap.live) + {q.mimetype.id} && |heap.live| == |old(heap.live)| + 1
    {
      var keyChunkSize := GetUint32();
      var maxBps := GetUint32();
      var minBps := GetUint32();
      var jitter := GetUint32();
      var priority := GetUint32();
      var timeout := GetUint32();
      var ttl := GetUint32();
      var mimetype := GetString();
      q := QosOf(keyChunkSize, maxBps, minBps, jitter, priority, timeout, ttl, mimetype);
    }

    method GetOpenRequest() returns (r: OpenRequestPtr)
      requires Valid() && DecOpenRequest(Rest()).Decoded?
      modifies this, heap
      ensures Valid() && r.source.Ptr? && r.destination.Ptr? && r.qos.mimetype.Ptr?
      ensures DecOpenRequest(old(Rest())) ==
        Decoded(OpenRequest(r.source.block, r.destination.block, QosValue(r.qos), r.ksid), Rest())
      ensures old(heap.next) <= r.source.id < r.destination.id < r.qos.mimetype.id < heap.next
      ensures heap.live == old(heap.live) + {r.source.id, r.destination.id, r.qos.mimetype.id}
      ensures |heap.live| == |old(heap.live)| + 3
    {
      var source := GetString();
      var destination := GetString();
      var qos := GetQos();
      var ksid := GetUuid();
      r := OpenRequestPtr(source, destination, qos, ksid);
    }

    method GetOpenResponse() returns (r: OpenResponsePtr)
      requires Valid() && DecOpenResponse(Rest()).Decoded?
      modifies this, heap
      ensures Valid() && r.qos.mimetype.Ptr?
      ensures DecOpenResponse(old(Rest())) == Decoded(OpenResponse(r.status, QosValue(r.qos), r.ksid), Rest())
      ensures old(heap.next) <= r.qos.mimetype.id < heap.next
      ensures heap.live == old(heap.live) + {r.qos.mimetype.id} && |heap.live| == |old(heap.live)| + 1
    {
      var status := GetUint32();
      var qos := GetQos();
      var ksid := GetUuid();
      r := OpenResponsePtr(status, qos, ksid);
    }

    method GetGetKeyRequest() returns (r: GetKeyRequestPtr)
      requires Valid() && DecGetKeyRequest(Rest()).Decoded?
      modifies this, heap
      ensures Valid() && r.metadata.Ptr?
      ensures DecGetKeyRequest(old(Rest())) == Decoded(GetKeyRequest(r.ksid, r.index, r.metadata.block), Rest())
      ensures old(heap.next) <= r.metadata.id < heap.next
      ensures heap.live == old(heap.live) + {r.metadata.id} && |heap.live| == |old(heap.live)| + 1
    {
      var ksid := GetUuid();
      var index := GetUint32();
      var metadata := GetBlob();
      r := GetKeyRequestPtr(ksid, index, metadata);
    }

    method GetGetKeyResponse() returns (r: GetKeyResponseOf<Blob>)
      requires Valid() && DecGetKeyResponse(Rest()).Decoded?
      modifies this, heap
      ensures Valid() && r.key.Ptr? && r.metadata.Ptr?
      ensures DecGetKeyResponse(old(Rest())) ==
        Decoded(GetKeyResponse(r.status, r.index, r.key.block, r.metadata.block), Rest())
      ensures old(heap.next) <= r.key.id < r.metadata.id < heap.next
      ensures heap.live == old(heap.live) + {r.key.id, r.metadata.id} && |heap.live| == |old(heap.live)| + 2
    {
      var status := GetUint32();
      var index := GetUint32();
      var key := GetBlob();
      var metadata := GetBlob();
      r := GetKeyResponseOf(status, index, key, metadata);
    }

    method GetCloseRequest() returns (r: CloseRequest)
      requires Valid() && DecCloseRequest(Rest()).Decoded?
      modifies this, heap
      ensures Valid() && DecCloseRequest(old(Rest())) == Decoded(r, Rest())
      ensures heap.live == old(heap.live) && heap.next > old(heap.next)
    {
      var ksid := GetUuid();
      r := CloseRequest(ksid);
    }

    method GetCloseResponse() returns (r: CloseResponse)
      requires Valid() && DecCloseResponse(Rest()).Decoded?
      modifies this
      ensures Valid() && DecCloseResponse(old(Rest())) == Decoded(r, Rest())
    {
      var status := GetUint32();
      r := CloseResponse(status);
    }

    method GetHeader() returns (h: Header)
      requires Valid() && DecHeader(Rest()).Decoded?
      modifies this
      ensures Valid() && DecHeader(old(Rest())) == Decoded(h, Rest())
    {
      ghost var s := Rest();
      var b := Take(HEADER_SIZE);
      h := Header(b[0], b[1], b[2], b[3], BigEndian(b[4], b[5], b[6], b[7]));
      assert s[4..][4..] == s[8..];
    }
  }
}
