/**
 The client stubs. Each frames its request, lets the server serve one connection, receives the
 response and hands out its fields; the contracts tie what the caller finds to the direct call. The
 client process has a heap of its own, in which every call leaves the header buffer unfreed.
 */
module Client {
  import opened Machine
  import opened Models
  import opened Memory
  import opened Codec
  import opened Serializers
  import opened Ownership
  import opened KeyServer
  import opened Registry
  import opened Transport
  import opened Wire
  import opened Framing
  import opened Servlet

  /** Both frames of the call fit one record. */
  ghost predicate Passes(server: Server, call: AnyCall)
    reads server, server.gen, server.list
  {
    Defined(server.Value(), call) && WithinBounds(server.world, server.Value(), call)
  }

  /** Receive a header and decode it; its buffer is never freed. */
  method ReceiveHeader(client: Heap, pipe: Pipe, ghost h: Header, ghost body: bytes) returns (header: Header)
    requires client.Valid() && pipe.records == Records(EncHeader(h) + body)
    modifies client, pipe
    ensures client.Valid() && header == h && pipe.records == BodyRecords(h, body)
    ensures client.live == old(client.live) + {old(client.next)} && |client.live| == |old(client.live)| + 1
    ensures old(client.next) < client.next
  {
    ghost var junk;
    var data;
    data, junk := SocketRecv(client, pipe, HEADER_SIZE);
    HeaderArrives(h, body, junk);
    HeaderAlone(h);
    var stream := new InStream(client, data);
    header := stream.GetHeader();
  }

  /** Receive a response that fits one record. Nothing of this touches the server. */
  method ReceiveResponse(ghost server: Server, client: Heap, pipe: Pipe, ghost h: Header, ghost body: bytes)
    returns (payload: Ptr<array<byte>>)
    requires server.Valid() && client != server.heap && client.Valid() && pipe.records == Records(EncHeader(h) + body)
    requires h.payloadSize == |body| && body != [] && HEADER_SIZE + |body| <= RECORD_MAX
    modifies client, pipe
    ensures server.Valid() && server.Value() == old(server.Value())
    ensures client.Valid() && payload.Ptr? && payload.block[..] == body
    ensures old(client.next) < payload.id < client.next && client.Live(payload)
    ensures client.live >= old(client.live) && |client.live| == |old(client.live)| + 2
  {
    var header := ReceiveHeader(client, pipe, h, body);
    payload := ReceiveBody(client, pipe, header.payloadSize, h, body);
  }

  lemma ResponseFits(w: World, st: State, call: AnyCall)
    requires Defined(st, call) && WithinBounds(w, st, call)
    ensures var m := ResponseOf(Step(w, st, call).1);
      && HeaderOf(m).payloadSize == |Enc(m)| && Enc(m) != [] && HEADER_SIZE + |Enc(m)| <= RECORD_MAX
      && Frame(m) == EncHeader(HeaderOf(m)) + Enc(m)
  {
    BoundsDecide(w, st, call);
    FrameFacts(ResponseOf(Step(w, st, call).1));
  }

  /** Send a frame on a new connection, and let the server serve it. */
  method SendRequest(server: Server, frame: seq<byte>, now: uint32, ghost call: AnyCall)
    returns (pipe: Pipe, ghost h: Header, ghost body: bytes)
    requires server.Valid() && Passes(server, call)
    requires frame == Frame(RequestOf(call)) && (call.OpenCall? ==> now == call.now)
    modifies server, server.heap, server.gen, server.list, server.list.m.repr
    ensures server.Valid() && fresh(pipe)
    ensures forall n :: n in server.list.m.repr ==> n in old(server.list.m.repr) || fresh(n)
    ensures var (st, o) := Step(server.world, old(server.Value()), call);
      server.Value() == st && body == Enc(ResponseOf(o))
    ensures pipe.records == Records(EncHeader(h) + body)
    ensures h.payloadSize == |body| && body != [] && HEADER_SIZE + |body| <= RECORD_MAX
    ensures |server.heap.live| == |old(server.heap.live)| + Growth(server.world, old(server.Value()), call)
  {
    ghost var m := ResponseOf(Step(server.world, server.Value(), call).1);
    h, body := HeaderOf(m), Enc(m);
    BoundsDecide(server.world, server.Value(), call);
    ResponseFits(server.world, server.Value(), call);
    var conn := new Connection();
    conn.toServer.Write(frame);
    var finished := ServeConnection(server, conn, now, Request(call));
    pipe := conn.toClient;
  }

  /** `client_perform_request`, with the server at work between sending and receiving. */
  method PerformRequest(server: Server, client: Heap, request: Ptr<array<byte>>, now: uint32, ghost call: AnyCall)
    returns (payload: Ptr<array<byte>>)
    requires server.Valid() && client.Valid() && client != server.heap && Passes(server, call)
    requires client.Live(request) && request.block[..] == Frame(RequestOf(call))
    requires call.OpenCall? ==> now == call.now
    modifies client, server, server.heap, server.gen, server.list, server.list.m.repr
    ensures server.Valid() && client.Valid()
    ensures forall n :: n in server.list.m.repr ==> n in old(server.list.m.repr) || fresh(n)
    ensures server.Value() == Step(server.world, old(server.Value()), call).0
    ensures payload.Ptr?
    ensures payload.block[..] == Enc(ResponseOf(Step(server.world, old(server.Value()), call).1))
    ensures old(client.next) < payload.id < client.next && client.Live(payload)
    ensures client.live >= old(client.live) && |client.live| == |old(client.live)| + 2
  {
    var pipe;
    ghost var h, body;
    pipe, h, body := SendRequest(server, client.Load(request)[..], now, call);
    payload := ReceiveResponse(server, client, pipe, h, body);
  }

  /** Frame a request, perform it, and keep the request buffer. */
  method ExchangeOpen(server: Server, client: Heap, r: OpenRequest, now: uint32)
    returns (request: Ptr<array<byte>>, payload: Ptr<array<byte>>)
    requires server.Valid() && client.Valid() && client != server.heap && Passes(server, OpenCall(r, now))
    modifies client, server, server.heap, server.gen, server.list, server.list.m.repr
    ensures server.Valid() && client.Valid()
    ensures forall n :: n in server.list.m.repr ==> n in old(server.list.m.repr) || fresh(n)
    ensures server.Value() == Open(server.world, old(server.Value()), r, now).0
    ensures client.Live(request) && client.Live(payload) && old(client.next) <= request.id < payload.id
    ensures payload.block[..] == EncOpenResponse(Open(server.world, old(server.Value()), r, now).1)
    ensures client.live >= old(client.live) && |client.live| == |old(client.live)| + 3
  {
    BoundsDecide(server.world, server.Value(), OpenCall(r, now));
    request := FrameOpenRequest(client, r);
    payload := PerformRequest(server, client, request, now, OpenCall(r, now));
  }

  method StubOpenConnect(server: Server, client: Heap, source: CString, destination: CString, qos: QosPtr, ksid: Uuid, now: uint32)
    returns (status: uint32, qos': QosPtr, ksid': Uuid)
    requires server.Valid() && client.Valid() && client != server.heap && client.Live(qos.mimetype)
    requires Passes(server, OpenCall(OpenRequest(source, destination, QosValue(qos), ksid), now))
    modifies client, server, server.heap, server.gen, server.list, server.list.m.repr
    ensures server.Valid() && client.Valid() && client.Live(qos'.mimetype)
    ensures forall n :: n in server.list.m.repr ==> n in old(server.list.m.repr) || fresh(n)
    ensures Open(server.world, old(server.Value()), OpenRequest(source, destination, QosValue(qos), ksid), now)
         == (server.Value(), OpenResponse(status, QosValue(qos'), ksid'))
    ensures |client.live| == |old(client.live)| + 2
  {
    var r := OpenRequest(source, destination, LoadQos(client, qos), ksid);
    var request, payload := ExchangeOpen(server, client, r, now);
    status, qos', ksid' := FinishStubOpen(client, qos, request, payload, Open(server.world, old(server.Value()), r, now).1);
  }

  /** From the received payload to the out-parameters of OPEN_CONNECT. */
  method FinishStubOpen(client: Heap, qos: QosPtr, request: Ptr<array<byte>>, payload: Ptr<array<byte>>, ghost r: OpenResponse)
    returns (status: uint32, qos': QosPtr, ksid': Uuid)
    requires client.Valid() && client.Live(qos.mimetype) && client.Live(request) && client.Live(payload)
    requires qos.mimetype.id < request.id < payload.id && payload.block[..] == EncOpenResponse(r)
    modifies client
    ensures client.Valid() && client.Live(qos'.mimetype)
    ensures r == OpenResponse(status, QosValue(qos'), ksid')
    ensures |client.live| == |old(client.live)| - 1
  {
    client.Free(request);
    var stream := new InStream(client, payload);
    assert EncOpenResponse(r) + [] == EncOpenResponse(r);
    OpenResponseRoundTrip(r, []);
    var response := stream.GetOpenResponse();
    status, ksid' := response.status, response.ksid;
    qos' := CopyQos(client, qos, response.qos);
    client.Free(payload);
  }

  method ExchangeGet(server: Server, client: Heap, r: GetKeyRequest)
    returns (request: Ptr<array<byte>>, payload: Ptr<array<byte>>, ghost o: GetKeyResponse)
    requires server.Valid() && client.Valid() && client != server.heap
    requires Passes(server, GetCall(r))
    modifies client, server, server.heap, server.gen, server.list, server.list.m.repr
    ensures server.Valid() && client.Valid()
    ensures forall n :: n in server.list.m.repr ==> n in old(server.list.m.repr) || fresh(n)
    ensures GetKey(server.world, old(server.Value()), r) == (server.Value(), o)
    ensures client.Live(request) && client.Live(payload) && old(client.next) <= request.id < payload.id
    ensures payload.block[..] == EncGetKeyResponse(o)
    ensures client.live >= old(client.live) && |client.live| == |old(client.live)| + 3
  {
    o := GetKey(server.world, server.Value(), r).1;
    BoundsDecide(server.world, server.Value(), GetCall(r));
    request := FrameGetKeyRequest(client, r);
    payload := PerformRequest(server, client, request, 0, GetCall(r));
  }

  method CallGetKey(server: Server, client: Heap, ksid: Uuid, index: uint32, metadata: Ptr<Blob>)
    returns (status: uint32, index': uint32, key: Ptr<Blob>, metadata': Ptr<Blob>)
    requires server.Valid() && client.Valid() && client != server.heap && client.Live(metadata)
    requires Passes(server, GetCall(GetKeyRequest(ksid, index, metadata.block)))
    modifies client, server, server.heap, server.gen, server.list, server.list.m.repr
    ensures server.Valid() && client.Valid() && client.Live(key) && client.Live(metadata')
    ensures forall n :: n in server.list.m.repr ==> n in old(server.list.m.repr) || fresh(n)
    ensures GetKey(server.world, old(server.Value()), GetKeyRequest(ksid, index, metadata.block))
         == (server.Value(), GetKeyResponse(status, index', key.block, metadata'.block))
    ensures |client.live| == |old(client.live)| + 3
  {
    var r := GetKeyRequest(ksid, index, client.Load(metadata));
    var request, payload;
    ghost var o;
    request, payload, o := ExchangeGet(server, client, r);
    status, index', key, metadata' := FinishStubGet(client, request, payload, o);
  }

  /** The stub assigns the key buffer even when the server function would have left it alone. */
  method StubGetKey(server: Server, client: Heap, ksid: Uuid, index: uint32, key: Ptr<Blob>, metadata: Ptr<Blob>)
    returns (status: uint32, index': uint32, key': Ptr<Blob>, metadata': Ptr<Blob>)
    requires server.Valid() && client.Valid() && client != server.heap && client.Live(metadata)
    requires Passes(server, GetCall(GetKeyRequest(ksid, index, metadata.block)))
    modifies client, server, server.heap, server.gen, server.list, server.list.m.repr
    ensures server.Valid() && client.Valid() && client.Live(key') && client.Live(metadata')
    ensures forall n :: n in server.list.m.repr ==> n in old(server.list.m.repr) || fresh(n)
    ensures GetKey(server.world, old(server.Value()), GetKeyRequest(ksid, index, metadata.block))
         == (server.Value(), GetKeyResponse(status, index', key'.block, metadata'.block))
    ensures GetKeyOuts(status, index', key'.block, metadata'.block)
         == ServerGetKeyOuts(server.world, old(server.Value()), GetKeyRequest(ksid, index, metadata.block), BlobOf(key))
      <==> ReadsMetadata(old(server.Value()), GetKeyRequest(ksid, index, metadata.block)) || BlobOf(key) == []
    ensures |client.live| == |old(client.live)| + 3
  {
    OutParametersAgreeIff(server.world, server.Value(), GetKeyRequest(ksid, index, client.Load(metadata)), BlobOf(key));
    status, index', key', metadata' := CallGetKey(server, client, ksid, index, metadata);
  }

  /** The contents of a key buffer: none behind a NULL pointer. */
  ghost function BlobOf(key: Ptr<Blob>): Blob {
    if key.Ptr? then key.block else []
  }

  /** From the received payload to the out-parameters of GET_KEY, whose blocks now belong to the caller. */
  method FinishStubGet(client: Heap, request: Ptr<array<byte>>, payload: Ptr<array<byte>>, ghost r: GetKeyResponse)
    returns (status: uint32, index: uint32, key: Ptr<Blob>, metadata: Ptr<Blob>)
    requires client.Valid() && client.Live(request) && client.Live(payload) && request.id < payload.id
    requires payload.block[..] == EncGetKeyResponse(r)
    modifies client
    ensures client.Valid() && client.Live(key) && client.Live(metadata)
    ensures r == GetKeyResponse(status, index, key.block, metadata.block)
    ensures |client.live| == |old(client.live)|
  {
    client.Free(request);
    var stream := new InStream(client, payload);
    assert EncGetKeyResponse(r) + [] == EncGetKeyResponse(r);
    GetKeyResponseRoundTrip(r, []);
    var response := stream.GetGetKeyResponse();
    status, index, key, metadata := response.status, response.index, response.key, response.metadata;
    client.Free(payload);
  }

  method ExchangeClose(server: Server, client: Heap, r: CloseRequest)
    returns (request: Ptr<array<byte>>, payload: Ptr<array<byte>>)
    requires server.Valid() && client.Valid() && client != server.heap
    modifies client, server, server.heap, server.gen, server.list, server.list.m.repr
    ensures server.Valid() && client.Valid()
    ensures forall n :: n in server.list.m.repr ==> n in old(server.list.m.repr) || fresh(n)
    ensures server.Value() == Close(old(server.Value()), r).0
    ensures client.Live(request) && client.Live(payload) && old(client.next) <= request.id < payload.id
    ensures payload.block[..] == EncCloseResponse(Close(old(server.Value()), r).1)
    ensures client.live >= old(client.live) && |client.live| == |old(client.live)| + 3
  {
    request := FrameCloseRequest(client, r);
    payload := PerformRequest(server, client, request, 0, CloseCall(r));
  }

  method StubClose(server: Server, client: Heap, ksid: Uuid) returns (status: uint32)
    requires server.Valid() && client.Valid() && client != server.heap
    modifies client, server, server.heap, server.gen, server.list, server.list.m.repr
    ensures server.Valid() && client.Valid()
    ensures forall n :: n in server.list.m.repr ==> n in old(server.list.m.repr) || fresh(n)
    ensures Close(old(server.Value()), CloseRequest(ksid)) == (server.Value(), CloseResponse(status))
    ensures status == 0
    ensures |client.live| == |old(client.live)| + 1
  {
    var request, payload := ExchangeClose(server, client, CloseRequest(ksid));
    status := FinishStubClose(client, request, payload, CloseResponse(STATUS_SUCCESSFUL));
  }

  method FinishStubClose(client: Heap, request: Ptr<array<byte>>, payload: Ptr<array<byte>>, ghost r: CloseResponse)
    returns (status: uint32)
    requires client.Valid() && client.Live(request) && client.Live(payload) && request.id < payload.id
    requires payload.block[..] == EncCloseResponse(r)
    modifies client
    ensures client.Valid() && r == CloseResponse(status)
    ensures |client.live| == |old(client.live)| - 2
  {
    client.Free(request);
    var stream := new InStream(client, payload);
    assert EncCloseResponse(r) + [] == EncCloseResponse(r);
    RoundTrip(CloseResp(r), []);
    var response := stream.GetCloseResponse();
    status := response.status;
    client.Free(payload);
  }

  // ----- a client program --------------------------------------------------------------------

  /** Make the arguments of a call, and call the stub. */
  method Perform(server: Server, client: Heap, call: Call) returns (o: Outcome)
    requires server.Valid() && client.Valid() && client != server.heap && Passes(server, call)
    modifies client, server, server.heap, server.gen, server.list, server.list.m.repr
    ensures server.Valid() && client.Valid()
    ensures forall n :: n in server.list.m.repr ==> n in old(server.list.m.repr) || fresh(n)
    ensures Step(server.world, old(server.Value()), call) == (server.Value(), o)
  {
    match call
    case OpenCall(r, now) => o := PerformOpen(server, client, r, now);
    case GetCall(r) => o := PerformGet(server, client, r);
    case CloseCall(r) =>
      var status := StubClose(server, client, r.ksid);
      o := Closed(CloseResponse(status));
  }

  method PerformOpen(server: Server, client: Heap, r: OpenRequest, now: uint32) returns (o: Outcome)
    requires server.Valid() && client.Valid() && client != server.heap && Passes(server, OpenCall(r, now))
    modifies client, server, server.heap, server.gen, server.list, server.list.m.repr
    ensures server.Valid() && client.Valid()
    ensures forall n :: n in server.list.m.repr ==> n in old(server.list.m.repr) || fresh(n)
    ensures o.Opened? && Open(server.world, old(server.Value()), r, now) == (server.Value(), o.oc)
  {
    var id := client.Malloc();
    var q := r.qos;
    var qos: QosPtr := QosOf(q.keyChunkSize, q.maxBps, q.minBps, q.jitter, q.priority, q.timeout, q.ttl, Ptr(id, q.mimetype));
    assert QosValue(qos) == q;
    var status, qos', ksid := StubOpenConnect(server, client, r.source, r.destination, qos, r.ksid, now);
    o := Opened(OpenResponse(status, LoadQos(client, qos'), ksid));
  }

  method PerformGet(server: Server, client: Heap, r: GetKeyRequest) returns (o: Outcome)
    requires server.Valid() && client.Valid() && client != server.heap
    requires Passes(server, GetCall(r))
    modifies client, server, server.heap, server.gen, server.list, server.list.m.repr
    ensures server.Valid() && client.Valid()
    ensures forall n :: n in server.list.m.repr ==> n in old(server.list.m.repr) || fresh(n)
    ensures o.Got? && GetKey(server.world, old(server.Value()), r) == (server.Value(), o.gk)
  {
    var id := client.Malloc();
    var status, index, key, metadata := StubGetKey(server, client, r.ksid, r.index, Null, Ptr(id, r.metadata));
    o := Got(GetKeyResponse(status, index, client.Load(key), client.Load(metadata)));
  }

  lemma {:induction false} RunStep(w: World, st: State, calls: seq<Call>, i: nat)
    requires i < |calls|
    ensures Step(w, After(w, st, calls[..i]), calls[i]) == (After(w, st, calls[..i + 1]), OutcomeAt(w, st, calls, i))
  {
    assert calls[..i + 1][..i] == calls[..i];
  }

  /**
   Any sequence of calls through the stubs reports the outcomes and leaves the state of the same
   sequence of direct calls.
   */
  method RemoteRun(server: Server, client: Heap, calls: seq<Call>) returns (outcomes: seq<Outcome>)
    requires server.Valid() && client.Valid() && client != server.heap
    requires AllWithinBounds(server.world, server.Value(), calls)
    modifies client, server, server.heap, server.gen, server.list, server.list.m.repr
    ensures server.Valid() && client.Valid() && |outcomes| == |calls|
    ensures server.Value() == After(server.world, old(server.Value()), calls)
    ensures forall i :: 0 <= i < |calls| ==> outcomes[i] == OutcomeAt(server.world, old(server.Value()), calls, i)
  {
    ghost var st := server.Value();
    outcomes := [];
    for i := 0 to |calls|
      invariant server.Valid() && client.Valid() && |outcomes| == i
      invariant forall n :: n in server.list.m.repr ==> n in old(server.list.m.repr) || fresh(n)
      invariant server.Value() == After(server.world, st, calls[..i])
      invariant forall j :: 0 <= j < i ==> outcomes[j] == OutcomeAt(server.world, st, calls, j)
    {
      RunStep(server.world, st, calls, i);
      var o := Perform(server, client, calls[i]);
      outcomes := outcomes + [o];
    }
    assert calls[..|calls|] == calls;
  }
}
