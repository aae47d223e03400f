/**
 The servlet that serves one connection, and what that does to the heap: of all blocks it allocates,
 four to a new stream and the request metadata of a successful GET_KEY stay live.
 */
module Servlet {
  import opened Machine
  import opened Models
  import opened Memory
  import opened Codec
  import opened Serializers
  import opened Ownership
  import opened KeyServer
  import opened Registry
  import opened Interfaces
  import opened Transport
  import opened Wire
  import opened Framing

  /** Every live block outside the given range of numbers stays live. */
  ghost predicate KeepsOutside(live: set<nat>, live': set<nat>, lo: nat, hi: nat) {
    forall id :: id in live && (id < lo || hi <= id) ==> id in live'
  }

  lemma FreedBetween(live: set<nat>, freed: set<nat>, lo: nat, hi: nat)
    requires forall id :: id in freed ==> lo <= id < hi
    ensures KeepsOutside(live, live - freed, lo, hi)
  {
  }

  lemma LiveOutside(nodes: seq<KsidInfo>, live: set<nat>, live': set<nat>, lo: nat, hi: nat)
    requires AllLive(nodes, live) && NoneBetween(nodes, lo, hi) && KeepsOutside(live, live', lo, hi)
    ensures AllLive(nodes, live')
  {
    forall i | 0 <= i < |nodes|
      ensures forall id: nat :: nodes[i].entry.id <= id < nodes[i].entry.id + 4 && id in live ==> id in live'
    {
      forall id: nat | nodes[i].entry.id <= id < nodes[i].entry.id + 4 && id in live ensures id in live' {
        assert lo <= id < hi ==> Foreign(nodes, id);
      }
    }
  }

  /** The two releases after an OPEN_CONNECT, as they change the heap. */
  method FreeOpenStructs(heap: Heap, request: OpenRequestPtr, response: OpenResponsePtr)
    requires heap.Valid() && heap.Live(request.source) && heap.Live(request.destination)
    requires heap.Live(request.qos.mimetype) && heap.Live(response.qos.mimetype)
    requires request.source.id < request.destination.id < request.qos.mimetype.id < response.qos.mimetype.id
    modifies heap
    ensures heap.Valid() && heap.next == old(heap.next)
    ensures KeepsOutside(old(heap.live), heap.live, request.source.id, response.qos.mimetype.id + 1)
    ensures |heap.live| == |old(heap.live)| - 4
  {
    var request' := FreeOpenRequest(heap, request);
    var response' := FreeOpenResponse(heap, response);
    ghost var freed :=
      {request.source.id, request.destination.id, request.qos.mimetype.id, response.qos.mimetype.id};
    assert heap.live == old(heap.live) - freed;
    FreedBetween(old(heap.live), freed, request.source.id, response.qos.mimetype.id + 1);
  }

  /** Release of the two structs of an OPEN_CONNECT, none of whose blocks belongs to the registry. */
  method ReleaseOpen(server: Server, request: OpenRequestPtr, response: OpenResponsePtr)
    requires server.Valid() && server.heap.Live(request.source) && server.heap.Live(request.destination)
    requires server.heap.Live(request.qos.mimetype) && server.heap.Live(response.qos.mimetype)
    requires request.source.id < request.destination.id < request.qos.mimetype.id < response.qos.mimetype.id
    requires NoneBetween(server.list.m.nodes, request.source.id, response.qos.mimetype.id + 1)
    modifies server.heap
    ensures server.Valid() && server.heap.next == old(server.heap.next)
    ensures KeepsOutside(old(server.heap.live), server.heap.live, request.source.id, response.qos.mimetype.id + 1)
    ensures |server.heap.live| == |old(server.heap.live)| - 4
  {
    ghost var live := server.heap.live;
    FreeOpenStructs(server.heap, request, response);
    LiveOutside(server.list.m.nodes, live, server.heap.live, request.source.id, response.qos.mimetype.id + 1);
  }

  method ParseOpen(heap: Heap, payload: Ptr<array<byte>>, ghost r: OpenRequest) returns (request: OpenRequestPtr)
    requires heap.Valid() && heap.Live(payload) && payload.block[..] == EncOpenRequest(r)
    modifies heap
    ensures heap.Valid() && heap.Live(request.source) && heap.Live(request.destination) && heap.Live(request.qos.mimetype)
    ensures r == OpenRequest(request.source.block, request.destination.block, QosValue(request.qos), request.ksid)
    ensures old(heap.next) <= request.source.id < request.destination.id < request.qos.mimetype.id < heap.next
    ensures heap.live >= old(heap.live) && |heap.live| == |old(heap.live)| + 3
  {
    var stream := new InStream(heap, payload);
    assert EncOpenRequest(r) + [] == EncOpenRequest(r);
    OpenRequestRoundTrip(r, []);
    request := stream.GetOpenRequest();
  }

  /** The response value is copied out of the blocks it points to, which must be live. */
  method FrameOpen(server: Server, resp: OpenResponsePtr) returns (buf: Ptr<array<byte>>)
    requires server.Valid() && server.heap.Live(resp.qos.mimetype) && |resp.qos.mimetype.block| < MIMETYPE_MAX
    modifies server.heap
    ensures server.Valid() && buf.Ptr? && fresh(buf.block)
    ensures buf.block[..] ==
      FrameOf(OPEN_CONNECT_RESPONSE, EncOpenResponse(OpenResponse(resp.status, QosValue(resp.qos), resp.ksid)))
    ensures buf.id == old(server.heap.next) && server.heap.next == buf.id + 1
    ensures server.heap.live >= old(server.heap.live) && buf.id in server.heap.live
    ensures |server.heap.live| == |old(server.heap.live)| + 1
  {
    ghost var live := server.heap.live;
    buf := FrameOpenResponse(server.heap, OpenResponse(resp.status, LoadQos(server.heap, resp.qos), resp.ksid));
    LiveGrows(server.list.m.nodes, live, server.heap.live);
  }

  /** Serve a parsed OPEN_CONNECT and frame the response. */
  method AnswerOpen(server: Server, request: OpenRequestPtr, now: uint32)
    returns (response: OpenResponsePtr, buf: Ptr<array<byte>>)
    requires server.Valid() && server.heap.Live(request.source) && server.heap.Live(request.destination)
    requires server.heap.Live(request.qos.mimetype)
    requires |request.qos.mimetype.block| < MIMETYPE_MAX
    modifies server, server.heap, server.gen, server.list, server.list.m.repr
    ensures server.Valid()
    ensures forall n :: n in server.list.m.repr ==> n in old(server.list.m.repr) || fresh(n)
    ensures server.Value() == Open(server.world, old(server.Value()), OpenRequestOf(request), now).0
    ensures buf.Ptr? && fresh(buf.block)
    ensures buf.block[..] ==
      FrameOf(OPEN_CONNECT_RESPONSE, EncOpenResponse(Open(server.world, old(server.Value()), OpenRequestOf(request), now).1))
    ensures server.heap.Live(response.qos.mimetype) && response.qos.mimetype.id == old(server.heap.next)
    ensures NoneBetween(server.list.m.nodes, old(server.list.m.ceiling), response.qos.mimetype.id + 1)
    ensures server.heap.Live(buf) && server.list.m.ceiling <= buf.id && response.qos.mimetype.id < buf.id
    ensures server.heap.live >= old(server.heap.live)
    ensures |server.heap.live| ==
      |old(server.heap.live)| + 2 + 4 * (|server.Value().streams| - |old(server.Value()).streams|)
  {
    response := OpenConnectStruct(server, request, now);
    buf := FrameOpen(server, response);
  }

  ghost function OpenRequestOf(request: OpenRequestPtr): OpenRequest
    requires request.source.Ptr? && request.destination.Ptr? && request.qos.mimetype.Ptr?
  {
    OpenRequest(request.source.block, request.destination.block, QosValue(request.qos), request.ksid)
  }

  /** Serve, frame, and release the structs: the response buffer is what is left. */
  method FinishOpen(server: Server, request: OpenRequestPtr, now: uint32) returns (buf: Ptr<array<byte>>)
    requires server.Valid() && server.heap.Live(request.source) && server.heap.Live(request.destination)
    requires server.heap.Live(request.qos.mimetype)
    requires server.list.m.ceiling <= request.source.id < request.destination.id < request.qos.mimetype.id
    requires |request.qos.mimetype.block| < MIMETYPE_MAX
    modifies server, server.heap, server.gen, server.list, server.list.m.repr
    ensures server.Valid()
    ensures forall n :: n in server.list.m.repr ==> n in old(server.list.m.repr) || fresh(n)
    ensures server.Value() == Open(server.world, old(server.Value()), OpenRequestOf(request), now).0
    ensures buf.Ptr? && fresh(buf.block)
    ensures buf.block[..] ==
      FrameOf(OPEN_CONNECT_RESPONSE, EncOpenResponse(Open(server.world, old(server.Value()), OpenRequestOf(request), now).1))
    ensures NoneBetween(server.list.m.nodes, old(server.list.m.ceiling), old(server.heap.next))
    ensures server.heap.Live(buf) && server.list.m.ceiling <= buf.id && old(server.heap.next) <= buf.id
    ensures forall id :: id in old(server.heap.live) && id < request.source.id ==> id in server.heap.live
    ensures |server.heap.live| ==
      |old(server.heap.live)| - 2 + 4 * (|server.Value().streams| - |old(server.Value()).streams|)
  {
    var response;
    response, buf := AnswerOpen(server, request, now);
    ReleaseOpen(server, request, response);
  }

  method ServeOpen(server: Server, payload: Ptr<array<byte>>, now: uint32, ghost r: OpenRequest)
    returns (buf: Ptr<array<byte>>)
    requires server.Valid() && server.heap.Live(payload) && server.list.m.ceiling <= payload.id
    requires payload.block[..] == EncOpenRequest(r)
    requires |r.qos.mimetype| < MIMETYPE_MAX
    modifies server, server.heap, server.gen, server.list, server.list.m.repr
    ensures server.Valid()
    ensures forall n :: n in server.list.m.repr ==> n in old(server.list.m.repr) || fresh(n)
    ensures server.Value() == Open(server.world, old(server.Value()), r, now).0
    ensures buf.Ptr? && fresh(buf.block)
    ensures buf.block[..] ==
      FrameOf(OPEN_CONNECT_RESPONSE, EncOpenResponse(Open(server.world, old(server.Value()), r, now).1))
    ensures server.heap.Live(buf) && server.heap.Live(payload) && buf.id != payload.id
    ensures server.list.m.ceiling <= buf.id && Foreign(server.list.m.nodes, payload.id)
    ensures |server.heap.live| ==
      |old(server.heap.live)| + 1 + 4 * (|server.Value().streams| - |old(server.Value()).streams|)
  {
    ghost var live := server.heap.live;
    var request := ParseOpen(server.heap, payload, r);
    LiveGrows(server.list.m.nodes, live, server.heap.live);
    buf := FinishOpen(server, request, now);
  }

  method ParseGet(heap: Heap, payload: Ptr<array<byte>>, ghost r: GetKeyRequest) returns (request: GetKeyRequestPtr)
    requires heap.Valid() && heap.Live(payload) && payload.block[..] == EncGetKeyRequest(r)
    modifies heap
    ensures heap.Valid() && heap.Live(request.metadata) && r == GetKeyRequestOf(request)
    ensures old(heap.next) <= request.metadata.id < heap.next
    ensures heap.live >= old(heap.live) && |heap.live| == |old(heap.live)| + 1
  {
    var stream := new InStream(heap, payload);
    assert EncGetKeyRequest(r) + [] == EncGetKeyRequest(r);
    GetKeyRequestRoundTrip(r, []);
    request := stream.GetGetKeyRequest();
  }

  ghost function GetKeyRequestOf(request: GetKeyRequestPtr): GetKeyRequest
    requires request.metadata.Ptr?
  {
    GetKeyRequest(request.ksid, request.index, request.metadata.block)
  }

  ghost predicate MetadataReadable(server: Server, request: GetKeyRequestPtr)
    requires request.metadata.Ptr?
    reads server, server.gen, server.list
  {
    ReadsMetadata(server.Value(), GetKeyRequestOf(request)) ==> |request.metadata.block| >= 2
  }

  /** The response value is copied out of the blocks it points to, which must be live. */
  method FrameGetKey(server: Server, resp: GetKeyResponseOf<array<byte>>) returns (buf: Ptr<array<byte>>)
    requires server.Valid() && server.heap.Live(resp.metadata) && (resp.key.Ptr? ==> server.heap.Live(resp.key))
    requires resp.key.Ptr? ==> resp.key.block.Length < WORD
    requires |EncGetKeyResponse(GetKeyResponse(resp.status, resp.index, KeyBytes(resp.key), resp.metadata.block))| < WORD
    modifies server.heap
    ensures server.Valid() && buf.Ptr? && fresh(buf.block)
    ensures buf.block[..] == FrameOf(GET_KEY_RESPONSE,
      EncGetKeyResponse(GetKeyResponse(resp.status, resp.index, KeyBytes(resp.key), resp.metadata.block)))
    ensures buf.id == old(server.heap.next) && server.heap.next == buf.id + 1
    ensures server.heap.live >= old(server.heap.live) && buf.id in server.heap.live
    ensures |server.heap.live| == |old(server.heap.live)| + 1
  {
    ghost var live := server.heap.live;
    var key: Blob := [];
    if resp.key.Ptr? {
      key := server.heap.Load(resp.key)[..];
    }
    var r := GetKeyResponse(resp.status, resp.index, key, server.heap.Load(resp.metadata));
    buf := FrameGetKeyResponse(server.heap, r);
    LiveGrows(server.list.m.nodes, live, server.heap.live);
  }

  /** Serve a parsed GET_KEY and frame the response. */
  method AnswerGet(server: Server, request: GetKeyRequestPtr)
    returns (response: GetKeyResponseOf<array<byte>>, buf: Ptr<array<byte>>)
    requires server.Valid() && server.heap.Live(request.metadata) && MetadataReadable(server, request)
    requires |EncGetKeyResponse(GetKey(server.world, server.Value(), GetKeyRequestOf(request)).1)| < WORD
    modifies server.heap, server.gen, server.list`m, server.list.m.repr
    ensures server.Valid() && server.list.m == old(server.list.m).(streams := server.list.m.streams)
    ensures server.Value() == GetKey(server.world, old(server.Value()), GetKeyRequestOf(request)).0
    ensures response.status == GetKey(server.world, old(server.Value()), GetKeyRequestOf(request)).1.status
    ensures buf.Ptr? && fresh(buf.block)
    ensures buf.block[..] == FrameOf(GET_KEY_RESPONSE,
      EncGetKeyResponse(GetKey(server.world, old(server.Value()), GetKeyRequestOf(request)).1))
    ensures server.heap.Live(buf) && server.heap.Live(response.metadata) && server.heap.live >= old(server.heap.live)
    ensures old(server.heap.next) <= buf.id
    ensures response.status == STATUS_SUCCESSFUL ==>
      && server.heap.Live(response.key) && old(server.heap.next) <= response.key.id < response.metadata.id < buf.id
      && |server.heap.live| == |old(server.heap.live)| + 3
    ensures response.status != STATUS_SUCCESSFUL ==>
      response.key.Null? && response.metadata == request.metadata && |server.heap.live| == |old(server.heap.live)| + 1
  {
    response := GetKeyStruct(server, request);
    buf := FrameGetKey(server, response);
  }

  /**
   Release of the two structs of a GET_KEY. On success this frees the new key and metadata and
   forgets the metadata of the request; on failure the response still points to that metadata, and
   it is freed once.
   */
  method ReleaseGet(server: Server, request: GetKeyRequestPtr, response: GetKeyResponseOf<array<byte>>, ghost lo: nat)
    requires server.Valid() && server.heap.Live(response.metadata) && lo <= response.metadata.id
    requires response.key.Ptr? ==> server.heap.Live(response.key) && lo <= response.key.id < response.metadata.id
    requires server.list.m.ceiling <= lo
    modifies server.heap
    ensures server.Valid() && server.heap.next == old(server.heap.next)
    ensures KeepsOutside(old(server.heap.live), server.heap.live, lo, response.metadata.id + 1)
    ensures |server.heap.live| == |old(server.heap.live)| - if response.key.Ptr? then 2 else 1
  {
    ghost var live := server.heap.live;
    var request' := FreeGetKeyRequest(server.heap, request);
    var response' := FreeGetKeyResponse(server.heap, response);
    ghost var freed := if response.key.Ptr? then {response.key.id, response.metadata.id} else {response.metadata.id};
    assert server.heap.live == live - freed;
    FreedBetween(live, freed, lo, response.metadata.id + 1);
    AboveCeiling(server.list.m.nodes, server.list.m.ceiling, response.metadata.id + 1);
    LiveOutside(server.list.m.nodes, live, server.heap.live, lo, response.metadata.id + 1);
  }

  /** The heap blocks a GET_KEY leaves behind. */
  function Leak(st: State, r: GetKeyRequest): nat {
    if ReadsMetadata(st, r) then 1 else 0
  }

  /** Serve, frame, and release the structs: the response buffer is what is left, and the leaked metadata. */
  method FinishGet(server: Server, request: GetKeyRequestPtr) returns (buf: Ptr<array<byte>>)
    requires server.Valid() && server.heap.Live(request.metadata) && MetadataReadable(server, request)
    requires server.list.m.ceiling <= request.metadata.id
    requires |EncGetKeyResponse(GetKey(server.world, server.Value(), GetKeyRequestOf(request)).1)| < WORD
    modifies server.heap, server.gen, server.list`m, server.list.m.repr
    ensures server.Valid() && server.list.m == old(server.list.m).(streams := server.list.m.streams)
    ensures server.Value() == GetKey(server.world, old(server.Value()), GetKeyRequestOf(request)).0
    ensures buf.Ptr? && fresh(buf.block)
    ensures buf.block[..] == FrameOf(GET_KEY_RESPONSE,
      EncGetKeyResponse(GetKey(server.world, old(server.Value()), GetKeyRequestOf(request)).1))
    ensures server.heap.Live(buf) && old(server.heap.next) <= buf.id
    ensures var hi := request.metadata.id + Leak(old(server.Value()), GetKeyRequestOf(request));
      forall id :: id in old(server.heap.live) && id < hi ==> id in server.heap.live
    ensures |server.heap.live| == |old(server.heap.live)| + Leak(old(server.Value()), GetKeyRequestOf(request))
  {
    ghost var lo := request.metadata.id + Leak(server.Value(), GetKeyRequestOf(request));
    var response;
    response, buf := AnswerGet(server, request);
    ReleaseGet(server, request, response, lo);
  }

  method ServeGet(server: Server, payload: Ptr<array<byte>>, ghost r: GetKeyRequest) returns (buf: Ptr<array<byte>>)
    requires server.Valid() && server.heap.Live(payload) && server.list.m.ceiling <= payload.id
    requires payload.block[..] == EncGetKeyRequest(r) && (ReadsMetadata(server.Value(), r) ==> |r.metadata| >= 2)
    requires |EncGetKeyResponse(GetKey(server.world, server.Value(), r).1)| < WORD
    modifies server.heap, server.gen, server.list`m, server.list.m.repr
    ensures server.Valid() && server.list.m == old(server.list.m).(streams := server.list.m.streams)
    ensures server.Value() == GetKey(server.world, old(server.Value()), r).0
    ensures buf.Ptr? && fresh(buf.block)
    ensures buf.block[..] ==
      FrameOf(GET_KEY_RESPONSE, EncGetKeyResponse(GetKey(server.world, old(server.Value()), r).1))
    ensures server.heap.Live(buf) && server.heap.Live(payload) && payload.id < buf.id
    ensures Foreign(server.list.m.nodes, payload.id)
    ensures |server.heap.live| == |old(server.heap.live)| + 1 + Leak(old(server.Value()), r)
  {
    ghost var live := server.heap.live;
    var request := ParseGet(server.heap, payload, r);
    LiveGrows(server.list.m.nodes, live, server.heap.live);
    buf := FinishGet(server, request);
  }

  method ParseClose(heap: Heap, payload: Ptr<array<byte>>, ghost r: CloseRequest) returns (request: CloseRequest)
    requires heap.Valid() && heap.Live(payload) && payload.block[..] == EncCloseRequest(r)
    modifies heap
    ensures heap.Valid() && request == r && heap.live == old(heap.live) && heap.next >= old(heap.next)
  {
    var stream := new InStream(heap, payload);
    assert EncCloseRequest(r) + [] == EncCloseRequest(r);
    UuidInverse(r.ksid + [], r.ksid, []);
    request := stream.GetCloseRequest();
  }

  method AnswerClose(server: Server, request: CloseRequest) returns (buf: Ptr<array<byte>>)
    requires server.Valid()
    modifies server.heap
    ensures server.Valid()
    ensures server.Value() == Close(old(server.Value()), request).0
    ensures buf.Ptr? && fresh(buf.block)
    ensures buf.block[..] == FrameOf(CLOSE_RESPONSE, EncCloseResponse(Close(old(server.Value()), request).1))
    ensures buf.id == old(server.heap.next) && server.heap.Live(buf)
    ensures server.heap.live >= old(server.heap.live) && |server.heap.live| == |old(server.heap.live)| + 1
  {
    ghost var live := server.heap.live;
    var response := CloseStruct(server, request);
    buf := FrameCloseResponse(server.heap, response);
    LiveGrows(server.list.m.nodes, live, server.heap.live);
  }

  method ServeClose(server: Server, payload: Ptr<array<byte>>, ghost r: CloseRequest) returns (buf: Ptr<array<byte>>)
    requires server.Valid() && server.heap.Live(payload) && server.list.m.ceiling <= payload.id
    requires payload.block[..] == EncCloseRequest(r)
    modifies server.heap
    ensures server.Valid()
    ensures server.Value() == Close(old(server.Value()), r).0
    ensures buf.Ptr? && fresh(buf.block)
    ensures buf.block[..] == FrameOf(CLOSE_RESPONSE, EncCloseResponse(Close(old(server.Value()), r).1))
    ensures server.heap.Live(buf) && server.heap.Live(payload) && payload.id < buf.id
    ensures Foreign(server.list.m.nodes, payload.id)
    ensures |server.heap.live| == |old(server.heap.live)| + 1
  {
    var request := ParseClose(server.heap, payload, r);
    buf := AnswerClose(server, request);
  }

  // ----- one connection ----------------------------------------------------------------------

  class Connection {
    const toServer: Pipe
    const toClient: Pipe

    constructor ()
      ensures fresh(toServer) && fresh(toClient) && toServer != toClient
      ensures toServer.records == [] && toClient.records == []
    {
      toServer := new Pipe();
      toClient := new Pipe();
    }
  }

  /** What a client sends on a connection: the order to stop, or the request of a stub. */
  datatype Incoming = Shutdown(header: Header) | Request(call: AnyCall)

  ghost predicate Carries(records: seq<bytes>, inc: Incoming) {
    match inc
    case Shutdown(header) => header.service == CLOSE_SERVER && records == Records(EncHeader(header) + [])
    case Request(call) => OneRecord(RequestOf(call)) && records == Records(Frame(RequestOf(call)))
  }

  /** The servlet neither aborts nor wraps on the response. */
  ghost predicate Answerable(server: Server, inc: Incoming)
    reads server, server.gen, server.list
  {
    inc.Request? ==> Defined(server.Value(), inc.call) && Sendable(ResponseOf(Step(server.world, server.Value(), inc.call).1))
  }

  /** Receive a header, decode it and free its buffer. */
  method ReceiveHeader(heap: Heap, pipe: Pipe, ghost h: Header, ghost body: bytes) returns (header: Header)
    requires heap.Valid() && pipe.records == Records(EncHeader(h) + body)
    modifies heap, pipe
    ensures heap.Valid() && header == h && pipe.records == BodyRecords(h, body)
    ensures heap.live == old(heap.live) && heap.next >= old(heap.next)
  {
    ghost var junk;
    var data;
    data, junk := SocketRecv(heap, pipe, HEADER_SIZE);
    HeaderArrives(h, body, junk);
    HeaderAlone(h);
    var stream := new InStream(heap, data);
    header := stream.GetHeader();
    heap.Free(data);
  }

  /** Receive the payload that a header announced. */
  method ReceiveBody(heap: Heap, pipe: Pipe, n: nat, ghost h: Header, ghost body: bytes)
    returns (payload: Ptr<array<byte>>)
    requires heap.Valid() && pipe.records == BodyRecords(h, body)
    requires n == |body| && body != [] && HEADER_SIZE + |body| <= RECORD_MAX
    modifies heap, pipe
    ensures heap.Valid() && payload.Ptr? && fresh(payload.block) && payload.block[..] == body
    ensures payload.id == old(heap.next) < heap.next
    ensures heap.live == old(heap.live) + {payload.id} && |heap.live| == |old(heap.live)| + 1
  {
    BodyRecordsShape(h, body);
    ghost var junk;
    payload, junk := SocketRecv(heap, pipe, n);
    FitBodyArrives(h, body, junk);
  }

  /** The branches that create no stream. */
  method DispatchOther(server: Server, service: byte, payload: Ptr<array<byte>>, ghost call: AnyCall)
    returns (buf: Ptr<array<byte>>)
    requires !call.OpenCall?
    requires server.Valid() && server.heap.Live(payload) && server.list.m.ceiling <= payload.id
    requires service == Service(RequestOf(call)) && payload.block[..] == Enc(RequestOf(call))
    requires Answerable(server, Request(call))
    modifies server.heap, server.gen, server.list`m, server.list.m.repr
    ensures server.Valid()
    ensures server.list.m == old(server.list.m).(streams := server.list.m.streams)
    ensures server.Value() == Step(server.world, old(server.Value()), call).0
    ensures buf.Ptr? && fresh(buf.block)
    ensures buf.block[..] == Frame(ResponseOf(Step(server.world, old(server.Value()), call).1))
    ensures server.heap.Live(buf) && server.heap.Live(payload) && buf.id != payload.id
    ensures server.list.m.ceiling <= buf.id && Foreign(server.list.m.nodes, payload.id)
    ensures |server.heap.live| == |old(server.heap.live)| + 1 + Growth(server.world, old(server.Value()), call)
  {
    if service == GET_KEY_REQUEST {
      buf := ServeGet(server, payload, call.get);
    } else {
      buf := ServeClose(server, payload, call.close);
    }
  }

  /** The branch on the service of the request. */
  method Dispatch(server: Server, service: byte, payload: Ptr<array<byte>>, now: uint32, ghost call: AnyCall)
    returns (buf: Ptr<array<byte>>)
    requires server.Valid() && server.heap.Live(payload) && server.list.m.ceiling <= payload.id
    requires service == Service(RequestOf(call)) && payload.block[..] == Enc(RequestOf(call))
    requires call.OpenCall? ==> now == call.now
    requires Answerable(server, Request(call))
    modifies server, server.heap, server.gen, server.list, server.list.m.repr
    ensures server.Valid()
    ensures forall n :: n in server.list.m.repr ==> n in old(server.list.m.repr) || fresh(n)
    ensures server.Value() == Step(server.world, old(server.Value()), call).0
    ensures buf.Ptr? && fresh(buf.block)
    ensures buf.block[..] == Frame(ResponseOf(Step(server.world, old(server.Value()), call).1))
    ensures server.heap.Live(buf) && server.heap.Live(payload) && buf.id != payload.id
    ensures server.list.m.ceiling <= buf.id && Foreign(server.list.m.nodes, payload.id)
    ensures |server.heap.live| == |old(server.heap.live)| + 1 + Growth(server.world, old(server.Value()), call)
  {
    if service == OPEN_CONNECT_REQUEST {
      buf := ServeOpen(server, payload, now, call.open);
    } else {
      buf := DispatchOther(server, service, payload, call);
    }
  }

  /** Heap blocks that serving a call leaves behind: four to a new stream, one to a successful GET_KEY. */
  function Growth(w: World, st: State, call: AnyCall): int
    requires Defined(st, call)
  {
    4 * (|Step(w, st, call).0.streams| - |st.streams|) + if Succeeds(st, call) then 1 else 0
  }

  /** `free` of a block that the registry does not own. */
  method FreeBlock(server: Server, p: Ptr<array<byte>>)
    requires server.Valid() && server.heap.Live(p) && Foreign(server.list.m.nodes, p.id)
    modifies server.heap
    ensures server.Valid() && server.heap.next == old(server.heap.next)
    ensures KeepsOutside(old(server.heap.live), server.heap.live, p.id, p.id + 1)
    ensures |server.heap.live| == |old(server.heap.live)| - 1
  {
    ghost var live := server.heap.live;
    server.heap.Free(p);
    FreedBetween(live, {p.id}, p.id, p.id + 1);
    LiveOutside(server.list.m.nodes, live, server.heap.live, p.id, p.id + 1);
  }

  /** Receive the payload of a request on the heap of the server. */
  method ReceivePayload(server: Server, pipe: Pipe, header: Header, ghost m: Message) returns (payload: Ptr<array<byte>>)
    requires server.Valid() && OneRecord(m)
    requires header == HeaderOf(m) && pipe.records == BodyRecords(header, Enc(m))
    modifies server.heap, pipe
    ensures server.Valid() && server.heap.Live(payload) && server.list.m.ceiling <= payload.id
    ensures payload.block[..] == Enc(m) && |server.heap.live| == |old(server.heap.live)| + 1
  {
    FrameFacts(m);
    ghost var live := server.heap.live;
    payload := ReceiveBody(server.heap, pipe, header.payloadSize, header, Enc(m));
    LiveGrows(server.list.m.nodes, live, server.heap.live);
  }

  /** From a received payload to the framed response, after which only the response buffer is left. */
  method AnswerPayload(server: Server, service: byte, payload: Ptr<array<byte>>, now: uint32, ghost call: AnyCall)
    returns (buf: Ptr<array<byte>>)
    requires server.Valid() && server.heap.Live(payload) && server.list.m.ceiling <= payload.id
    requires service == Service(RequestOf(call)) && payload.block[..] == Enc(RequestOf(call))
    requires (call.OpenCall? ==> now == call.now) && Answerable(server, Request(call))
    modifies server, server.heap, server.gen, server.list, server.list.m.repr
    ensures server.Valid()
    ensures forall n :: n in server.list.m.repr ==> n in old(server.list.m.repr) || fresh(n)
    ensures server.Value() == Step(server.world, old(server.Value()), call).0
    ensures buf.Ptr? && fresh(buf.block)
    ensures buf.block[..] == Frame(ResponseOf(Step(server.world, old(server.Value()), call).1))
    ensures server.heap.Live(buf) && server.list.m.ceiling <= buf.id
    ensures |server.heap.live| == |old(server.heap.live)| + Growth(server.world, old(server.Value()), call)
  {
    buf := Dispatch(server, service, payload, now, call);
    FreeBlock(server, payload);
  }

  /** Receive the payload of a request, and answer it. */
  method ServeRequest(server: Server, pipe: Pipe, header: Header, now: uint32, ghost call: AnyCall)
    returns (buf: Ptr<array<byte>>)
    requires server.Valid() && Answerable(server, Request(call))
    requires OneRecord(RequestOf(call)) && (call.OpenCall? ==> now == call.now)
    requires header == HeaderOf(RequestOf(call)) && pipe.records == BodyRecords(header, Enc(RequestOf(call)))
    modifies server, server.heap, server.gen, server.list, server.list.m.repr, pipe
    ensures server.Valid()
    ensures forall n :: n in server.list.m.repr ==> n in old(server.list.m.repr) || fresh(n)
    ensures server.Value() == Step(server.world, old(server.Value()), call).0
    ensures buf.Ptr? && fresh(buf.block)
    ensures buf.block[..] == Frame(ResponseOf(Step(server.world, old(server.Value()), call).1))
    ensures server.heap.Live(buf) && server.list.m.ceiling <= buf.id
    ensures |server.heap.live| == |old(server.heap.live)| + 1 + Growth(server.world, old(server.Value()), call)
  {
    var payload := ReceivePayload(server, pipe, header, RequestOf(call));
    buf := AnswerPayload(server, header.service, payload, now, call);
  }

  /** `socket_ssl_send` of the response, and its release. */
  method SendAndFree(server: Server, pipe: Pipe, buf: Ptr<array<byte>>)
    requires server.Valid() && server.heap.Live(buf) && server.list.m.ceiling <= buf.id
    modifies server.heap, pipe
    ensures server.Valid() && pipe.records == old(pipe.records) + Records(old(buf.block[..]))
    ensures |server.heap.live| == |old(server.heap.live)| - 1
  {
    pipe.Write(server.heap.Load(buf)[..]);
    AboveCeiling(server.list.m.nodes, server.list.m.ceiling, buf.id + 1);
    FreeBlock(server, buf);
  }

  /** From the payload to the response on its way. */
  method AnswerRequest(server: Server, conn: Connection, header: Header, now: uint32, ghost call: AnyCall)
    requires server.Valid() && Answerable(server, Request(call)) && conn.toServer != conn.toClient
    requires OneRecord(RequestOf(call)) && (call.OpenCall? ==> now == call.now)
    requires header == HeaderOf(RequestOf(call)) && conn.toServer.records == BodyRecords(header, Enc(RequestOf(call)))
    modifies server, server.heap, server.gen, server.list, server.list.m.repr, conn.toServer, conn.toClient
    ensures server.Valid()
    ensures forall n :: n in server.list.m.repr ==> n in old(server.list.m.repr) || fresh(n)
    ensures var (st, o) := Step(server.world, old(server.Value()), call);
      server.Value() == st && conn.toClient.records == old(conn.toClient.records) + Records(Frame(ResponseOf(o)))
    ensures |server.heap.live| == |old(server.heap.live)| + Growth(server.world, old(server.Value()), call)
  {
    var buf := ServeRequest(server, conn.toServer, header, now, call);
    SendAndFree(server, conn.toClient, buf);
  }

  /**
   `qkd_servlet`: serve one connection. A request is answered by one response frame; the order to
   stop is not answered and stops the server.
   */
  method ServeConnection(server: Server, conn: Connection, now: uint32, ghost inc: Incoming) returns (finished: bool)
    requires server.Valid() && conn.toServer != conn.toClient && Carries(conn.toServer.records, inc)
    requires Answerable(server, inc) && (inc.Request? && inc.call.OpenCall? ==> now == inc.call.now)
    modifies server, server.heap, server.gen, server.list, server.list.m.repr, conn.toServer, conn.toClient
    ensures server.Valid()
    ensures forall n :: n in server.list.m.repr ==> n in old(server.list.m.repr) || fresh(n)
    ensures finished == inc.Shutdown?
    ensures inc.Shutdown? ==>
      && server.Value() == old(server.Value()) && server.heap.live == old(server.heap.live)
      && conn.toClient.records == old(conn.toClient.records)
    ensures inc.Request? ==>
      var (st, o) := Step(server.world, old(server.Value()), inc.call);
      && server.Value() == st
      && conn.toClient.records == old(conn.toClient.records) + Records(Frame(ResponseOf(o)))
      && |server.heap.live| == |old(server.heap.live)| + Growth(server.world, old(server.Value()), inc.call)
  {
    ghost var h := if inc.Shutdown? then inc.header else HeaderOf(RequestOf(inc.call));
    ghost var body := if inc.Shutdown? then [] else Enc(RequestOf(inc.call));
    var header := ReceiveHeader(server.heap, conn.toServer, h, body);
    if header.service == CLOSE_SERVER {
      finished := true;
    } else {
      finished := false;
      AnswerRequest(server, conn, header, now, inc.call);
    }
  }
}
