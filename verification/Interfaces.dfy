/**
 The struct-to-struct form of the three operations: a response struct is seeded with the in/out
 parameters of the request, deep for the QoS, shallow for the metadata, and passed to the server.
 */
module Interfaces {
  import opened Machine
  import opened Models
  import opened Memory
  import opened Serializers
  import opened Ownership
  import opened KeyServer
  import opened Registry

  method OpenConnectStruct(server: Server, r: OpenRequestPtr, now: uint32) returns (resp: OpenResponsePtr)
    requires server.Valid()
    requires server.heap.Live(r.source) && server.heap.Live(r.destination) && server.heap.Live(r.qos.mimetype)
    modifies server, server.heap, server.gen, server.list, server.list.m.repr
    ensures server.Valid()
    ensures forall n :: n in server.list.m.repr ==> n in old(server.list.m.repr) || fresh(n)
    ensures server.heap.Live(resp.qos.mimetype) && resp.qos.mimetype.id == old(server.heap.next)
    ensures Open(server.world, old(server.Value()),
                 OpenRequest(r.source.block, r.destination.block, QosValue(r.qos), r.ksid), now)
         == (server.Value(), OpenResponse(resp.status, QosValue(resp.qos), resp.ksid))
    ensures NoneBetween(server.list.m.nodes, old(server.list.m.ceiling), resp.qos.mimetype.id + 1)
    ensures server.heap.live >= old(server.heap.live) && server.heap.next > resp.qos.mimetype.id
    ensures |server.heap.live| ==
      |old(server.heap.live)| + 1 + 4 * (|server.Value().streams| - |old(server.Value()).streams|)
  {
    var noQos := QosOf(0, 0, 0, 0, 0, 0, 0, Null);
    var qos := CopyQos(server.heap, noQos, r.qos);
    var status, ksid := server.OpenConnect(r.source, r.destination, qos, r.ksid, now);
    resp := OpenResponsePtr(status, qos, ksid);
  }

  /** On failure the response keeps the metadata pointer of the request. */
  method GetKeyStruct(server: Server, r: GetKeyRequestPtr) returns (resp: GetKeyResponseOf<array<byte>>)
    requires server.Valid() && server.heap.Live(r.metadata)
    requires ReadsMetadata(server.Value(), GetKeyRequest(r.ksid, r.index, r.metadata.block)) ==>
      |r.metadata.block| >= 2
    modifies server.heap, server.gen, server.list`m, server.list.m.repr
    ensures server.Valid() && server.list.m == old(server.list.m).(streams := server.list.m.streams)
    ensures resp.metadata.Ptr? && server.heap.next >= old(server.heap.next)
    ensures resp.key.Ptr? ==> resp.key.block.Length < WORD && fresh(resp.key.block)
    ensures KeyServer.GetKey(server.world, old(server.Value()), GetKeyRequest(r.ksid, r.index, r.metadata.block))
         == (server.Value(), GetKeyResponse(resp.status, resp.index, KeyBytes(resp.key), resp.metadata.block))
    ensures resp.status == STATUS_SUCCESSFUL ==>
      && resp.key.Ptr? && old(server.heap.next) <= resp.key.id < resp.metadata.id < server.heap.next
      && server.heap.live == old(server.heap.live) + {resp.key.id, resp.metadata.id}
      && |server.heap.live| == |old(server.heap.live)| + 2
    ensures resp.status != STATUS_SUCCESSFUL ==>
      resp.key.Null? && resp.metadata == r.metadata && server.heap.live == old(server.heap.live)
  {
    var status, key, metadata := server.GetKey(r.ksid, r.index, Null, r.metadata);
    resp := GetKeyResponseOf(status, r.index, key, metadata);
  }

  method CloseStruct(server: Server, r: CloseRequest) returns (resp: CloseResponse)
    requires server.Valid()
    ensures KeyServer.Close(server.Value(), r) == (server.Value(), resp) && resp.status == 0
  {
    var status := server.Close(r.ksid);
    resp := CloseResponse(status);
  }
}
