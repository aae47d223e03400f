/** Deep copies of strings and QoS structs, and the release of request and response structs. */
module Ownership {
  import opened Models
  import opened Memory
  import opened Serializers

  /** The old block of `dst` is gone before `src` is read, so the two must differ. */
  method CopyStr(heap: Heap, dst: Ptr<CString>, src: Ptr<CString>) returns (copy: Ptr<CString>)
    requires heap.Valid() && heap.Live(src)
    requires dst.Ptr? ==> heap.Live(dst) && dst.id != src.id
    modifies heap
    ensures heap.Valid() && copy.Ptr? && copy.block == src.block
    ensures copy.id == old(heap.next) && heap.next == copy.id + 1
    ensures dst.Null? ==> heap.live == old(heap.live) + {copy.id} && |heap.live| == |old(heap.live)| + 1
    ensures dst.Ptr? ==> heap.live == old(heap.live) - {dst.id} + {copy.id} && |heap.live| == |old(heap.live)|
  {
    if dst.Ptr? {
      heap.Free(dst);
    }
    var id := heap.Malloc();
    copy := Ptr(id, heap.Load(src));
  }

  method CopyQos(heap: Heap, dst: QosPtr, src: QosPtr) returns (copy: QosPtr)
    requires heap.Valid() && heap.Live(src.mimetype)
    requires dst.mimetype.Ptr? ==> heap.Live(dst.mimetype) && dst.mimetype.id != src.mimetype.id
    modifies heap
    ensures heap.Valid() && copy.mimetype.Ptr? && QosValue(copy) == QosValue(src)
    ensures copy.mimetype.id == old(heap.next) && heap.next == copy.mimetype.id + 1
    ensures dst.mimetype.Null? ==>
      heap.live == old(heap.live) + {copy.mimetype.id} && |heap.live| == |old(heap.live)| + 1
    ensures dst.mimetype.Ptr? ==>
      heap.live == old(heap.live) - {dst.mimetype.id} + {copy.mimetype.id} && |heap.live| == |old(heap.live)|
  {
    var mimetype := CopyStr(heap, dst.mimetype, src.mimetype);
    copy := QosOf(src.keyChunkSize, src.maxBps, src.minBps, src.jitter, src.priority, src.timeout, src.ttl, mimetype);
  }

  method FreeQos(heap: Heap, q: QosPtr) returns (q': QosPtr)
    requires heap.Valid() && heap.Live(q.mimetype)
    modifies heap
    ensures heap.Valid() && heap.next == old(heap.next)
    ensures heap.live == old(heap.live) - {q.mimetype.id} && |heap.live| == |old(heap.live)| - 1
    ensures q' == q.(mimetype := Null)
  {
    heap.Free(q.mimetype);
    q' := q.(mimetype := Null);
  }

  method FreeOpenRequest(heap: Heap, r: OpenRequestPtr) returns (r': OpenRequestPtr)
    requires heap.Valid() && heap.Live(r.source) && heap.Live(r.destination) && heap.Live(r.qos.mimetype)
    requires r.source.id < r.destination.id < r.qos.mimetype.id
    modifies heap
    ensures heap.Valid() && heap.next == old(heap.next)
    ensures heap.live == old(heap.live) - {r.source.id, r.destination.id, r.qos.mimetype.id}
    ensures |heap.live| == |old(heap.live)| - 3
    ensures r' == r.(source := Null, destination := Null, qos := r.qos.(mimetype := Null))
  {
    heap.Free(r.source);
    r' := r.(source := Null);
    heap.Free(r.destination);
    r' := r'.(destination := Null);
    var qos := FreeQos(heap, r'.qos);
    r' := r'.(qos := qos);
  }

  method FreeOpenResponse(heap: Heap, r: OpenResponsePtr) returns (r': OpenResponsePtr)
    requires heap.Valid() && heap.Live(r.qos.mimetype)
    modifies heap
    ensures heap.Valid() && heap.next == old(heap.next)
    ensures heap.live == old(heap.live) - {r.qos.mimetype.id} && |heap.live| == |old(heap.live)| - 1
    ensures r' == r.(qos := r.qos.(mimetype := Null))
  {
    var qos := FreeQos(heap, r.qos);
    r' := r.(qos := qos);
  }

  /** The release of the request metadata is commented out in the source: nothing happens here. */
  method FreeGetKeyRequest(heap: Heap, r: GetKeyRequestPtr) returns (r': GetKeyRequestPtr)
    ensures r' == r
  {
    r' := r;
  }

  /** The key pointer is NULL when GET_KEY failed. */
  method FreeGetKeyResponse<K>(heap: Heap, r: GetKeyResponseOf<K>) returns (r': GetKeyResponseOf<K>)
    requires heap.Valid() && heap.Live(r.metadata)
    requires r.key.Ptr? ==> heap.Live(r.key) && r.key.id != r.metadata.id
    modifies heap
    ensures heap.Valid() && heap.next == old(heap.next)
    ensures r.key.Null? ==>
      heap.live == old(heap.live) - {r.metadata.id} && |heap.live| == |old(heap.live)| - 1
    ensures r.key.Ptr? ==>
      heap.live == old(heap.live) - {r.key.id, r.metadata.id} && |heap.live| == |old(heap.live)| - 2
    ensures r' == r.(key := Null, metadata := Null)
  {
    heap.Free(r.key);
    r' := r.(key := Null);
    heap.Free(r'.metadata);
    r' := r'.(metadata := Null);
  }
}
