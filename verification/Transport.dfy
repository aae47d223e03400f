/**
 The byte stream under the protocol. A TLS connection delivers records; one read returns bytes of
 one record. The receive loop of the source is modelled as written: every read lands at the start
 of the buffer.
 */
module Transport {
  import opened Machine
  import opened Memory

  /** `SSL3_RT_MAX_PLAIN_LENGTH`, the largest record payload (section 5.1 of RFC 8446). */
  const RECORD_MAX := 16384

  ghost predicate NonEmptyRecords(records: seq<bytes>) {
    forall i :: 0 <= i < |records| ==> records[i] != []
  }

  /** The records that `SSL_write` makes of a buffer. */
  function Records(data: bytes): (records: seq<bytes>)
    ensures NonEmptyRecords(records)
    ensures forall i :: 0 <= i < |records| ==> |records[i]| <= RECORD_MAX
  {
    if data == [] then []
    else if |data| <= RECORD_MAX then [data]
    else [data[..RECORD_MAX]] + Records(data[RECORD_MAX..])
  }

  function Flatten(records: seq<bytes>): bytes {
    if records == [] then [] else records[0] + Flatten(records[1..])
  }

  /** Writing neither loses nor reorders bytes. */
  lemma {:induction false} RecordsFlatten(data: bytes)
    ensures Flatten(Records(data)) == data
  {
    if |data| > RECORD_MAX {
      RecordsFlatten(data[RECORD_MAX..]);
      assert data == data[..RECORD_MAX] + data[RECORD_MAX..];
      var rest := Records(data[RECORD_MAX..]);
      assert ([data[..RECORD_MAX]] + rest)[1..] == rest;
    } else if data != [] {
      assert Flatten([data]) == data + Flatten([]);
    }
  }

  // ----- one read ----------------------------------------------------------------------------

  datatype Reading = Reading(chunk: bytes, rest: seq<bytes>)

  /** `SSL_read`: at most `max` bytes of the first record; no bytes once the peer has closed. */
  function Read(records: seq<bytes>, max: nat): Reading {
    if records == [] then Reading([], [])
    else if |records[0]| <= max then Reading(records[0], records[1..])
    else Reading(records[0][..max], [records[0][max..]] + records[1..])
  }

  lemma ReadConsumes(records: seq<bytes>, max: nat)
    requires NonEmptyRecords(records)
    ensures var r := Read(records, max);
      && r.chunk + Flatten(r.rest) == Flatten(records) && NonEmptyRecords(r.rest) && |r.chunk| <= max
      && (max > 0 && records != [] ==> r.chunk != [])
  {
    if records != [] && |records[0]| > max {
      var r := Read(records, max);
      assert r.rest[1..] == records[1..];
      assert records[0] == r.chunk + r.rest[0];
      assert r.chunk + (r.rest[0] + Flatten(records[1..])) == r.chunk + r.rest[0] + Flatten(records[1..]);
    }
  }

  // ----- the receive loop --------------------------------------------------------------------

  datatype Received = PeerClosed | Received(data: bytes, rest: seq<bytes>)

  /** `SSL_read` into `buf`: whatever `got` is, the chunk goes to the front. */
  function Overlay(buf: bytes, chunk: bytes): (r: bytes)
    requires |chunk| <= |buf|
    ensures |r| == |buf|
  {
    chunk + buf[|chunk|..]
  }

  /** The loop, from the point where `got` bytes have been counted. */
  function RecvLoop(records: seq<bytes>, buf: bytes, got: nat): Received
    requires got <= |buf| && NonEmptyRecords(records)
    decreases |buf| - got
  {
    if got == |buf| then Received(buf, records)
    else
      ReadConsumes(records, |buf| - got);
      var r := Read(records, |buf| - got);
      if r.chunk == [] then PeerClosed
      else if |buf| == RECORD_MAX then Received(Overlay(buf, r.chunk)[..got + |r.chunk|], r.rest)
      else RecvLoop(r.rest, Overlay(buf, r.chunk), got + |r.chunk|)
  }

  /** A request for 0 bytes is a request for one full record. */
  function BufferSize(n: nat): nat {
    if n == 0 then RECORD_MAX else n
  }

  /** The uninitialised stack buffer: `BufferSize(n)` bytes of junk. */
  function Junk(junk: bytes, n: nat): (buf: bytes)
    ensures |buf| == BufferSize(n)
  {
    var size := BufferSize(n);
    if |junk| >= size then junk[..size] else junk + seq(size - |junk|, _ => 0)
  }

  function Recv(records: seq<bytes>, n: nat, junk: bytes): Received
    requires NonEmptyRecords(records)
  {
    RecvLoop(records, Junk(junk, n), 0)
  }

  // ----- what the loop delivers --------------------------------------------------------------

  /** The chunks that the successive reads of a request for `n` bytes return. */
  function Chunks(records: seq<bytes>, n: nat): seq<bytes>
    requires NonEmptyRecords(records)
    decreases n
  {
    if n == 0 then []
    else
      ReadConsumes(records, n);
      var r := Read(records, n);
      if r.chunk == [] then [] else [r.chunk] + Chunks(r.rest, n - |r.chunk|)
  }

  ghost predicate Fit(chunks: seq<bytes>, n: nat) {
    forall i :: 0 <= i < |chunks| ==> |chunks[i]| <= n
  }

  /** All chunks written to the front of `buf`, one after the other. */
  function OverlayAll(buf: bytes, chunks: seq<bytes>): bytes
    requires Fit(chunks, |buf|)
    decreases |chunks|
  {
    if chunks == [] then buf else OverlayAll(Overlay(buf, chunks[0]), chunks[1..])
  }

  lemma SplitBehind(a: bytes, b: bytes, n: nat)
    requires |a| <= n <= |a| + |b|
    ensures (a + b)[..n] == a + b[..n - |a|] && (a + b)[n..] == b[n - |a|..]
  {
  }

  lemma {:induction false} ChunksConsume(records: seq<bytes>, n: nat)
    requires NonEmptyRecords(records) && n <= |Flatten(records)|
    ensures Fit(Chunks(records, n), n)
    ensures Flatten(Chunks(records, n)) == Flatten(records)[..n]
    decreases n
  {
    if n > 0 {
      ReadConsumes(records, n);
      var r := Read(records, n);
      var more := Chunks(r.rest, n - |r.chunk|);
      ChunksConsume(r.rest, n - |r.chunk|);
      assert ([r.chunk] + more)[1..] == more;
      SplitBehind(r.chunk, Flatten(r.rest), n);
    }
  }

  lemma OverlayStep(buf: bytes, chunk: bytes, chunks: seq<bytes>)
    requires |chunk| <= |buf| && Fit(chunks, |buf|)
    ensures Fit([chunk] + chunks, |buf|)
    ensures OverlayAll(buf, [chunk] + chunks) == OverlayAll(Overlay(buf, chunk), chunks)
  {
    assert ([chunk] + chunks)[1..] == chunks;
  }

  /**
   With enough bytes in the stream and no break after the first read, the loop stops with exactly
   the `n` bytes counted, takes exactly `n` bytes from the stream, and leaves in the buffer the
   overlay of all chunks.
   */
  lemma {:induction false} RecvDelivers(records: seq<bytes>, buf: bytes, got: nat)
    requires NonEmptyRecords(records) && got <= |buf| <= got + |Flatten(records)| && |buf| != RECORD_MAX
    ensures Fit(Chunks(records, |buf| - got), |buf|)
    ensures var r := RecvLoop(records, buf, got);
      && r.Received? && |r.data| == |buf| && Flatten(r.rest) == Flatten(records)[|buf| - got..]
      && r.data == OverlayAll(buf, Chunks(records, |buf| - got))
    decreases |buf| - got
  {
    var n := |buf| - got;
    if n > 0 {
      assert records != [];
      ReadConsumes(records, n);
      var r := Read(records, n);
      var more := Chunks(r.rest, n - |r.chunk|);
      assert Chunks(records, n) == [r.chunk] + more;
      RecvDelivers(r.rest, Overlay(buf, r.chunk), got + |r.chunk|);
      OverlayStep(buf, r.chunk, more);
      SplitBehind(r.chunk, Flatten(r.rest), n);
    }
  }

  /** A byte that no chunk reaches keeps its initial value. */
  lemma {:induction false} OverlayMisses(buf: bytes, chunks: seq<bytes>, k: nat)
    requires Fit(chunks, k) && k < |buf|
    ensures |OverlayAll(buf, chunks)| == |buf| && OverlayAll(buf, chunks)[k] == buf[k]
    decreases |chunks|
  {
    if chunks != [] {
      OverlayMisses(Overlay(buf, chunks[0]), chunks[1..], k);
    }
  }

  /** A byte holds what the last chunk that reaches it brought. */
  lemma {:induction false} OverlayHolds(buf: bytes, chunks: seq<bytes>, i: nat, k: nat)
    requires Fit(chunks, |buf|) && i < |chunks| && k < |chunks[i]|
    requires forall j :: i < j < |chunks| ==> |chunks[j]| <= k
    ensures |OverlayAll(buf, chunks)| == |buf| && OverlayAll(buf, chunks)[k] == chunks[i][k]
    decreases i
  {
    if i == 0 {
      OverlayMisses(Overlay(buf, chunks[0]), chunks[1..], k);
    } else {
      OverlayHolds(Overlay(buf, chunks[0]), chunks[1..], i - 1, k);
    }
  }

  lemma {:induction false} ChunkPosition(chunks: seq<bytes>, i: nat, k: nat)
    requires i < |chunks| && k < |chunks[i]|
    ensures |Flatten(chunks[..i])| + k < |Flatten(chunks)|
    ensures chunks[i][k] == Flatten(chunks)[|Flatten(chunks[..i])| + k]
    decreases i
  {
    if i > 0 {
      ChunkPosition(chunks[1..], i - 1, k);
      assert chunks[..i][1..] == chunks[1..][..i - 1];
    }
  }

  /**
   Byte by byte, what a request for `n` bytes receives: byte `k` is the byte of the stream that the
   last read to return more than `k` bytes found at its position `k`, and if no read did, it is junk.
   */
  lemma RecvByte(records: seq<bytes>, n: nat, junk: bytes, i: nat, k: nat)
    requires NonEmptyRecords(records) && 0 < n <= |Flatten(records)| && n != RECORD_MAX && |junk| == n && k < n
    requires i <= |Chunks(records, n)| && (i < |Chunks(records, n)| ==> k < |Chunks(records, n)[i]|)
    requires var chunks := Chunks(records, n);
      if i < |chunks| then forall j :: i < j < |chunks| ==> |chunks[j]| <= k
      else forall j :: 0 <= j < |chunks| ==> |chunks[j]| <= k
    ensures var r, chunks := Recv(records, n, junk), Chunks(records, n);
      && r.Received? && |r.data| == n
      && if i < |chunks| then |Flatten(chunks[..i])| + k < n && r.data[k] == Flatten(records)[|Flatten(chunks[..i])| + k]
         else r.data[k] == junk[k]
  {
    var chunks := Chunks(records, n);
    assert Junk(junk, n) == junk;
    RecvDelivers(records, junk, 0);
    ChunksConsume(records, n);
    if i < |chunks| {
      OverlayHolds(junk, chunks, i, k);
      ChunkPosition(chunks, i, k);
    } else {
      OverlayMisses(junk, chunks, k);
    }
  }

  lemma FirstReadSuffices(records: seq<bytes>, n: nat, junk: bytes)
    requires NonEmptyRecords(records) && records != [] && 0 < n <= |records[0]| && |junk| == n
    ensures Recv(records, n, junk) == Received(Flatten(records)[..n], Read(records, n).rest)
  {
    var r := Read(records, n);
    ReadConsumes(records, n);
    assert r.chunk == records[0][..n];
    assert r.chunk == Flatten(records)[..n];
    assert Junk(junk, n) == junk;
    assert Overlay(junk, r.chunk) == r.chunk;
    if n == RECORD_MAX {
      assert r.chunk[..n] == r.chunk;
    } else {
      assert RecvLoop(r.rest, r.chunk, n) == Received(r.chunk, r.rest);
    }
  }

  lemma TwoReadsKeepJunk(records: seq<bytes>, n: nat, junk: bytes)
    requires NonEmptyRecords(records) && records != [] && |records[0]| < n <= |Flatten(records)|
    requires n != RECORD_MAX && |junk| == n
    ensures Recv(records, n, junk).Received? && |Recv(records, n, junk).data| == n
    ensures Recv(records, n, junk).data[n - 1] == junk[n - 1]
  {
    assert Junk(junk, n) == junk;
    RecvDelivers(records, junk, 0);
    var chunks := Chunks(records, n);
    SecondChunkIsShort(records, n);
    OverlayMisses(junk, chunks, n - 1);
  }

  lemma SecondChunkIsShort(records: seq<bytes>, n: nat)
    requires NonEmptyRecords(records) && records != [] && |records[0]| < n <= |Flatten(records)|
    ensures Fit(Chunks(records, n), n - 1)
  {
    ReadConsumes(records, n);
    var left := n - |records[0]|;
    var more := Chunks(records[1..], left);
    assert Chunks(records, n) == [records[0]] + more;
    ChunksConsume(records[1..], left);
  }

  /** The message received is the next `n` bytes of the stream. */
  ghost predicate Delivers(records: seq<bytes>, n: nat, junk: bytes)
    requires NonEmptyRecords(records) && n <= |Flatten(records)|
  {
    var r := Recv(records, n, junk);
    r.Received? && r.data == Flatten(records)[..n]
  }

  lemma JunkEndingNot(n: nat, last: byte) returns (junk: bytes)
    requires n > 0
    ensures |junk| == n && junk[n - 1] != last
  {
    var other: byte := if last == 0 then 1 else 0;
    junk := seq(n, _ => other);
  }

  lemma ShortFirstReadFails(records: seq<bytes>, n: nat, junk: bytes)
    requires NonEmptyRecords(records) && records != [] && |records[0]| < n <= |Flatten(records)|
    requires |junk| == n && junk[n - 1] != Flatten(records)[n - 1]
    ensures !Delivers(records, n, junk)
  {
    if n == RECORD_MAX {
      ReadConsumes(records, n);
      assert |Recv(records, n, junk).data| == |records[0]|;
    } else {
      TwoReadsKeepJunk(records, n, junk);
      assert Flatten(records)[..n][n - 1] == Flatten(records)[n - 1];
    }
  }

  /**
   The buffer holds the bytes sent, whatever was in it before, exactly when the first read already
   delivers all of them.
   */
  lemma RecvExactIff(records: seq<bytes>, n: nat)
    requires NonEmptyRecords(records) && 0 < n <= |Flatten(records)|
    ensures records != []
    ensures (forall junk: bytes :: |junk| == n ==> Delivers(records, n, junk)) <==> |records[0]| >= n
  {
    if |records[0]| >= n {
      forall junk: bytes | |junk| == n ensures Delivers(records, n, junk) {
        FirstReadSuffices(records, n, junk);
      }
    } else {
      var junk := JunkEndingNot(n, Flatten(records)[n - 1]);
      ShortFirstReadFails(records, n, junk);
    }
  }

  /** A request for 0 or for 16384 bytes ends after one read, however little that returned. */
  lemma FullRecordRequest(records: seq<bytes>, n: nat, junk: bytes)
    requires NonEmptyRecords(records) && records != [] && BufferSize(n) == RECORD_MAX
    ensures Recv(records, n, junk) == Received(Read(records, RECORD_MAX).chunk, Read(records, RECORD_MAX).rest)
  {
    ReadConsumes(records, RECORD_MAX);
    var chunk := Read(records, RECORD_MAX).chunk;
    assert Overlay(Junk(junk, n), chunk)[..|chunk|] == chunk;
  }

  /** Writing each chunk behind the last one instead would reassemble every fragmentation. */
  function RecvWithOffset(records: seq<bytes>, buf: bytes, got: nat): Received
    requires got <= |buf| && NonEmptyRecords(records)
    decreases |buf| - got
  {
    if got == |buf| then Received(buf, records)
    else
      ReadConsumes(records, |buf| - got);
      var r := Read(records, |buf| - got);
      if r.chunk == [] then PeerClosed
      else
        var buf' := buf[..got] + r.chunk + buf[got + |r.chunk|..];
        RecvWithOffset(r.rest, buf', got + |r.chunk|)
  }

  lemma Reassociate(a: bytes, b: bytes, c: bytes)
    ensures a + b + c == a + (b + c)
  {
  }

  /** What has been received, and in the order it was sent, does not change by one more read. */
  lemma OffsetStep(records: seq<bytes>, buf: bytes, got: nat)
    requires NonEmptyRecords(records) && got < |buf| <= got + |Flatten(records)|
    ensures var r := Read(records, |buf| - got);
      && records != [] && 0 < |r.chunk| <= |buf| - got && NonEmptyRecords(r.rest)
      && |buf| <= got + |r.chunk| + |Flatten(r.rest)|
      && (buf[..got] + r.chunk + buf[got + |r.chunk|..])[..got + |r.chunk|] + Flatten(r.rest)[..|buf| - got - |r.chunk|] ==
         buf[..got] + Flatten(records)[..|buf| - got]
      && Flatten(r.rest)[|buf| - got - |r.chunk|..] == Flatten(records)[|buf| - got..]
  {
    var n := |buf| - got;
    assert records != [];
    ReadConsumes(records, n);
    var r := Read(records, n);
    SplitBehind(r.chunk, Flatten(r.rest), n);
    assert (buf[..got] + r.chunk + buf[got + |r.chunk|..])[..got + |r.chunk|] == buf[..got] + r.chunk;
    Reassociate(buf[..got], r.chunk, Flatten(r.rest)[..n - |r.chunk|]);
  }

  lemma {:induction false} OffsetReassembles(records: seq<bytes>, buf: bytes, got: nat)
    requires NonEmptyRecords(records) && got <= |buf| <= got + |Flatten(records)|
    ensures var r := RecvWithOffset(records, buf, got);
      && r.Received? && r.data == buf[..got] + Flatten(records)[..|buf| - got]
      && Flatten(r.rest) == Flatten(records)[|buf| - got..]
    decreases |buf| - got
  {
    if got < |buf| {
      OffsetStep(records, buf, got);
      var r := Read(records, |buf| - got);
      OffsetReassembles(r.rest, buf[..got] + r.chunk + buf[got + |r.chunk|..], got + |r.chunk|);
    }
  }

  // ----- the imperative side -----------------------------------------------------------------

  /** One direction of a connection. */
  class Pipe {
    var records: seq<bytes>

    constructor ()
      ensures records == []
    {
      records := [];
    }

    /** `SSL_write` of a whole buffer. */
    method Write(data: bytes)
      modifies this
      ensures records == old(records) + Records(data)
    {
      records := records + Records(data);
    }

    /** `SSL_read` of at most `max` bytes to the front of `buf`. */
    method ReadTo(buf: array<byte>, max: nat) returns (n: nat)
      requires max <= buf.Length
      modifies this, buf
      ensures var r := Read(old(records), max);
        records == r.rest && n == |r.chunk| <= max && buf[..] == Overlay(old(buf[..]), r.chunk)
    {
      var r := Read(records, max);
      n, records := |r.chunk|, r.rest;
      forall i | 0 <= i < n {
        buf[i] := r.chunk[i];
      }
    }
  }

  /** One turn of the loop. */
  lemma RecvTurn(records: seq<bytes>, buf: bytes, got: nat)
    requires got < |buf| && NonEmptyRecords(records)
    ensures var r := Read(records, |buf| - got);
      && |r.chunk| <= |buf| - got && NonEmptyRecords(r.rest)
      && RecvLoop(records, buf, got) ==
         if r.chunk == [] then PeerClosed
         else if |buf| == RECORD_MAX then Received(Overlay(buf, r.chunk)[..got + |r.chunk|], r.rest)
         else RecvLoop(r.rest, Overlay(buf, r.chunk), got + |r.chunk|)
  {
    ReadConsumes(records, |buf| - got);
  }

  /** The loop of `socket_ssl_recv`; `closed` stands for the exit of the process when the peer has closed. */
  method ReadLoop(pipe: Pipe, buf: array<byte>) returns (closed: bool, len: nat)
    requires NonEmptyRecords(pipe.records)
    modifies pipe, buf
    ensures closed == RecvLoop(old(pipe.records), old(buf[..]), 0).PeerClosed?
    ensures !closed ==> len <= buf.Length && RecvLoop(old(pipe.records), old(buf[..]), 0) == Received(buf[..len], pipe.records)
  {
    closed, len := false, 0;
    ghost var goal := RecvLoop(pipe.records, buf[..], 0);
    while len < buf.Length
      invariant 0 <= len <= buf.Length && NonEmptyRecords(pipe.records)
      invariant RecvLoop(pipe.records, buf[..], len) == goal
      decreases buf.Length - len
    {
      RecvTurn(pipe.records, buf[..], len);
      var n := pipe.ReadTo(buf, buf.Length - len);
      if n == 0 {
        closed := true;
        return;
      }
      len := len + n;
      if buf.Length == RECORD_MAX {
        return;
      }
    }
    assert buf[..len] == buf[..];
  }

  /** `socket_ssl_recv`, with the junk that was in its buffer; NULL when the peer has closed. */
  method SocketRecv(heap: Heap, pipe: Pipe, n: nat) returns (msg: Ptr<array<byte>>, ghost junk: bytes)
    requires heap.Valid() && NonEmptyRecords(pipe.records)
    modifies heap, pipe
    ensures heap.Valid() && |junk| == BufferSize(n)
    ensures msg.Null? <==> Recv(old(pipe.records), n, junk).PeerClosed?
    ensures msg.Null? ==> heap.live == old(heap.live) && heap.next == old(heap.next)
    ensures msg.Ptr? ==>
      && fresh(msg.block) && Recv(old(pipe.records), n, junk) == Received(msg.block[..], pipe.records)
      && msg.id == old(heap.next) && heap.next == msg.id + 1
      && heap.live == old(heap.live) + {msg.id} && |heap.live| == |old(heap.live)| + 1
  {
    var buf := new byte[BufferSize(n)];
    junk := buf[..];
    assert Junk(junk, n) == junk;
    var closed, len := ReadLoop(pipe, buf);
    if closed {
      msg := Null;
      return;
    }
    var id := heap.Malloc();
    var data := new byte[len];
    forall i | 0 <= i < len {
      data[i] := buf[i];
    }
    assert data[..] == buf[..len];
    msg := Ptr(id, data);
  }
}
