/**
 The example key server with its registry as the linked list it is, refining module KeyServer.
 Every entry owns four live heap blocks that it shares with nobody.
 */
module Registry {
  import opened Machine
  import opened Models
  import opened Memory
  import opened KeyMaterial
  import opened Serializers
  import opened Ownership
  import opened KeyServer

  /** What is written once, when a node is made: the number of its own block and what it stores. */
  datatype Entry = Entry(id: nat, ksid: Uuid, qos: QosPtr, source: Ptr<CString>, destination: Ptr<CString>)

  /** A list node. */
  class KsidInfo {
    const entry: Entry
    var currentIndex: int
    var next: KsidInfo?

    constructor (entry: Entry)
      ensures this.entry == entry && currentIndex == 0 && next == null
    {
      this.entry := entry;
      currentIndex, next := 0, null;
    }
  }

  /** The entry stores stream `s`; its node and the three strings were allocated in a row. */
  ghost predicate Mirrors(e: Entry, s: Stream) {
    && e.qos.mimetype.Ptr? && e.source.Ptr? && e.destination.Ptr?
    && e.qos.mimetype.id == e.id + 1 && e.source.id == e.id + 2 && e.destination.id == e.id + 3
    && e.ksid == s.ksid && QosValue(e.qos) == s.qos && e.source.block == s.source && e.destination.block == s.destination
  }

  ghost predicate MirrorAll(nodes: seq<KsidInfo>, streams: seq<Stream>) {
    |nodes| == |streams| && forall i :: 0 <= i < |nodes| ==> Mirrors(nodes[i].entry, streams[i])
  }

  /** No two nodes share a block, and all blocks are numbered below `ceiling`. */
  ghost predicate Apart(nodes: seq<KsidInfo>, ceiling: nat) {
    && (forall i :: 0 <= i < |nodes| ==> nodes[i].entry.id + 4 <= ceiling)
    && (forall i, j {:trigger nodes[i].entry.id, nodes[j].entry.id} :: 0 <= i < j < |nodes| ==> nodes[i].entry.id + 4 <= nodes[j].entry.id)
  }

  /** No block of a node has been freed. */
  ghost predicate AllLive(nodes: seq<KsidInfo>, live: set<nat>) {
    forall i :: 0 <= i < |nodes| ==>
      nodes[i].entry.id in live && nodes[i].entry.id + 1 in live && nodes[i].entry.id + 2 in live && nodes[i].entry.id + 3 in live
  }

  lemma ApartAppend(nodes: seq<KsidInfo>, ceiling: nat, n: KsidInfo)
    requires Apart(nodes, ceiling) && ceiling <= n.entry.id
    ensures Apart(nodes + [n], n.entry.id + 4) && n !in nodes
  {
    assert forall i :: 0 <= i < |nodes| ==> nodes[i].entry.id < n.entry.id;
  }

  lemma LastIsUnique(nodes: seq<KsidInfo>, ceiling: nat)
    requires Apart(nodes, ceiling)
    ensures forall i :: 0 <= i < |nodes| - 1 ==> nodes[i] != nodes[|nodes| - 1]
  {
    assert forall i :: 0 <= i < |nodes| - 1 ==> nodes[i].entry.id < nodes[|nodes| - 1].entry.id;
  }

  lemma MirrorAppend(nodes: seq<KsidInfo>, streams: seq<Stream>, n: KsidInfo, s: Stream)
    requires MirrorAll(nodes, streams) && Mirrors(n.entry, s)
    ensures MirrorAll(nodes + [n], streams + [s])
  {
  }

  lemma LiveAppend(nodes: seq<KsidInfo>, n: KsidInfo, live: set<nat>, live': set<nat>)
    requires AllLive(nodes, live) && live <= live' && AllLive([n], live')
    ensures AllLive(nodes, live') && AllLive(nodes + [n], live')
  {
    assert [n][0] == n;
  }

  lemma LiveGrows(nodes: seq<KsidInfo>, live: set<nat>, live': set<nat>)
    requires AllLive(nodes, live) && live <= live'
    ensures AllLive(nodes, live')
  {
  }

  /** Block `id` belongs to no node. */
  ghost predicate Foreign(nodes: seq<KsidInfo>, id: nat) {
    forall i :: 0 <= i < |nodes| ==> id < nodes[i].entry.id || nodes[i].entry.id + 4 <= id
  }

  /** No block numbered from `lo` up to `hi` belongs to a node. */
  ghost predicate NoneBetween(nodes: seq<KsidInfo>, lo: nat, hi: nat) {
    forall id: nat :: lo <= id < hi ==> Foreign(nodes, id)
  }

  lemma AboveCeiling(nodes: seq<KsidInfo>, ceiling: nat, hi: nat)
    requires Apart(nodes, ceiling)
    ensures NoneBetween(nodes, ceiling, hi)
  {
  }

  lemma AppendLeavesGap(nodes: seq<KsidInfo>, ceiling: nat, n: KsidInfo)
    requires Apart(nodes, ceiling)
    ensures NoneBetween(nodes + [n], ceiling, n.entry.id)
  {
    AboveCeiling(nodes, ceiling, n.entry.id);
    forall id: nat | ceiling <= id < n.entry.id ensures Foreign(nodes + [n], id) {
      assert Foreign(nodes, id);
    }
  }

  /** What a list is, apart from its pointers and counters. */
  datatype Model = Model(nodes: seq<KsidInfo>, streams: seq<Stream>, repr: set<KsidInfo>, ceiling: nat)

  /** The linked list of the server. */
  class StreamList {
    var head: KsidInfo?
    ghost var m: Model

    constructor ()
      ensures Valid() && m == Model([], [], {}, 0)
    {
      head, m := null, Model([], [], {}, 0);
    }

    /** The pointers from `head` on run through `nodes`, in order, and end: no cycle, nothing lost. */
    ghost predicate Linked(nodes: seq<KsidInfo>, repr: set<KsidInfo>)
      reads this, repr
    {
      && (forall i :: 0 <= i < |nodes| ==> nodes[i] in repr)
      && head == (if nodes == [] then null else nodes[0])
      && (nodes != [] ==> nodes[|nodes| - 1].next == null)
      && (forall i {:trigger nodes[i].next} :: 0 <= i < |nodes| - 1 ==> nodes[i].next == nodes[i + 1])
    }

    ghost predicate Valid()
      reads this, m.repr
    {
      && Apart(m.nodes, m.ceiling) && MirrorAll(m.nodes, m.streams)
      && Linked(m.nodes, m.repr)
      && (forall i :: 0 <= i < |m.nodes| ==> m.nodes[i].currentIndex == m.streams[i].currentIndex)
    }

    /** The search of OPEN_CONNECT: a matching node, or else the last one. */
    method SearchPair(heap: Heap, source: Ptr<CString>, destination: Ptr<CString>)
      returns (found: bool, list: KsidInfo?)
      requires Valid() && AllLive(m.nodes, heap.live)
      requires heap.Live(source) && heap.Live(destination)
      ensures found <==> FindPair(m.streams, source.block, destination.block) < |m.nodes|
      ensures found ==> list == m.nodes[FindPair(m.streams, source.block, destination.block)]
      ensures !found ==> list == if m.nodes == [] then null else m.nodes[|m.nodes| - 1]
    {
      found, list := false, head;
      ghost var i := 0;
      while list != null
        invariant m.nodes == [] ==> list == null
        invariant m.nodes != [] ==> 0 <= i < |m.nodes| && list == m.nodes[i]
        invariant forall j :: 0 <= j < i && j < |m.streams| ==>
          m.streams[j].source != source.block || m.streams[j].destination != destination.block
        decreases |m.nodes| - i
      {
        assert Mirrors(list.entry, m.streams[i]);
        if heap.Load(list.entry.source) == heap.Load(source) && heap.Load(list.entry.destination) == heap.Load(destination) {
          assert FindPair(m.streams, source.block, destination.block) == i;
          found := true;
          return;
        }
        if list.next == null {
          break;
        }
        list := list.next;
        i := i + 1;
      }
      assert FindPair(m.streams, source.block, destination.block) == |m.nodes|;
    }

    /** The search of GET_KEY: the matching node, or null. */
    method SearchKsid(ksid: Uuid) returns (list: KsidInfo?)
      requires Valid()
      ensures var i := FindKsid(m.streams, ksid);
        list == if i < |m.nodes| then m.nodes[i] else null
    {
      list := head;
      ghost var i := 0;
      while list != null
        invariant 0 <= i <= |m.nodes| && list == if i < |m.nodes| then m.nodes[i] else null
        invariant forall j :: 0 <= j < i ==> m.streams[j].ksid != ksid
        decreases |m.nodes| - i
      {
        assert Mirrors(list.entry, m.streams[i]);
        if ksid == list.entry.ksid {
          break;
        }
        list := list.next;
        i := i + 1;
      }
      assert FindKsid(m.streams, ksid) == i;
    }

    /** Insert as the first element, or behind the last one reached from `list`. */
    method Link(node: KsidInfo, list: KsidInfo?, ghost k: nat)
      requires Linked(m.nodes, m.repr) && node !in m.nodes && node.next == null
      requires forall i :: 0 <= i < |m.nodes| - 1 ==> m.nodes[i] != m.nodes[|m.nodes| - 1]
      requires if m.nodes == [] then list == null else k < |m.nodes| && list == m.nodes[k]
      modifies this`head, m.repr
      ensures Linked(m.nodes + [node], m.repr + {node})
      ensures forall n :: n in m.repr || n == node ==> n.currentIndex == old(n.currentIndex)
    {
      if list == null {
        head := node;
      } else {
        var last := list;
        ghost var j := k;
        while last.next != null
          invariant 0 <= j < |m.nodes| && last == m.nodes[j]
          decreases |m.nodes| - j
        {
          last := last.next;
          j := j + 1;
        }
        last.next := node;
      }
    }

    method Append(node: KsidInfo, list: KsidInfo?, ghost k: nat, ghost s: Stream)
      requires Valid() && node.next == null && Mirrors(node.entry, s) && node.currentIndex == s.currentIndex
      requires m.ceiling <= node.entry.id
      requires if m.nodes == [] then list == null else k < |m.nodes| && list == m.nodes[k]
      modifies this, m.repr
      ensures Valid()
      ensures m == Model(old(m).nodes + [node], old(m).streams + [s], old(m).repr + {node}, node.entry.id + 4)
    {
      ApartAppend(m.nodes, m.ceiling, node);
      LastIsUnique(m.nodes, m.ceiling);
      MirrorAppend(m.nodes, m.streams, node, s);
      Link(node, list, k);
      m := Model(m.nodes + [node], m.streams + [s], m.repr + {node}, node.entry.id + 4);
    }

    /** `ksid_info_list->current_index++`. */
    method Count(list: KsidInfo, ghost i: nat)
      requires Valid() && i < |m.nodes| && list == m.nodes[i]
      modifies this`m, m.repr
      ensures Valid()
      ensures var s := old(m).streams[i];
        m == old(m).(streams := old(m).streams[i := s.(currentIndex := Increment(s.currentIndex))])
    {
      assert forall j :: 0 <= j < |m.nodes| && j != i ==> m.nodes[j].entry.id != list.entry.id;
      list.currentIndex := Increment(list.currentIndex);
      m := m.(streams := m.streams[i := m.streams[i].(currentIndex := list.currentIndex)]);
    }
  }

  /** `calloc` of a node and deep copies of what it points to. */
  method MakeNode(heap: Heap, ksid: Uuid, source: Ptr<CString>, destination: Ptr<CString>, qos: QosPtr)
    returns (node: KsidInfo)
    requires heap.Valid() && heap.Live(source) && heap.Live(destination) && heap.Live(qos.mimetype)
    modifies heap
    ensures heap.Valid() && fresh(node) && node.next == null
    ensures Mirrors(node.entry, Stream(ksid, QosValue(qos), source.block, destination.block, 0)) && node.currentIndex == 0
    ensures node.entry.id == old(heap.next) && heap.next == node.entry.id + 4
    ensures heap.live >= old(heap.live) && AllLive([node], heap.live)
    ensures |heap.live| == |old(heap.live)| + 4
  {
    var id := heap.Malloc();
    var noQos := QosOf(0, 0, 0, 0, 0, 0, 0, Null);
    var qosCopy := CopyQos(heap, noQos, qos);
    var sourceCopy := CopyStr(heap, Null, source);
    var destinationCopy := CopyStr(heap, Null, destination);
    node := new KsidInfo(Entry(id, ksid, qosCopy, sourceCopy, destinationCopy));
  }

  lemma OpenIs(w: World, st: State, r: OpenRequest, now: uint32, streams: seq<Stream>, minted: nat, ksid: Uuid)
    requires var i := FindPair(st.streams, r.source, r.destination);
      if r.ksid != NIL_UUID then ksid == r.ksid && streams == st.streams && minted == st.minted
      else if i < |st.streams| then ksid == st.streams[i].ksid && streams == st.streams && minted == st.minted
      else
        && ksid == w.uuids(st.minted) && minted == st.minted + 1
        && streams == st.streams + [Stream(ksid, r.qos, r.source, r.destination, 0)]
    ensures Open(w, st, r, now)
         == (State(streams, w.prng.seed(now), minted), OpenResponse(STATUS_SUCCESSFUL, r.qos, ksid))
  {
  }

  class Server {
    const world: World
    const heap: Heap
    const gen: Generator
    const list: StreamList
    var minted: nat

    ghost predicate Valid()
      reads this, heap, gen, list, list.m.repr
    {
      gen.prng == world.prng && heap.Valid() && list.Valid() && AllLive(list.m.nodes, heap.live) && list.m.ceiling <= heap.next
    }

    ghost function Value(): State
      reads this, gen, list
    {
      State(list.m.streams, gen.state, minted)
    }

    constructor (world: World, heap: Heap)
      requires heap.Valid()
      ensures Valid() && this.world == world && this.heap == heap
      ensures Value() == INITIAL && fresh(gen) && fresh(list) && list.m.repr == {}
    {
      this.world, this.heap := world, heap;
      gen := new Generator(world.prng);
      list := new StreamList();
      minted := 0;
    }

    method OpenConnect(source: Ptr<CString>, destination: Ptr<CString>, qos: QosPtr, ksid: Uuid, now: uint32)
      returns (status: uint32, ksid': Uuid)
      requires Valid() && heap.Live(source) && heap.Live(destination) && heap.Live(qos.mimetype)
      modifies this, heap, gen, list, list.m.repr
      ensures Valid() && forall n :: n in list.m.repr ==> n in old(list.m.repr) || fresh(n)
      ensures NoneBetween(list.m.nodes, old(list.m.ceiling), old(heap.next))
      ensures Open(world, old(Value()), OpenRequest(source.block, destination.block, QosValue(qos), ksid), now)
           == (Value(), OpenResponse(status, QosValue(qos), ksid'))
      ensures heap.live >= old(heap.live) && heap.next >= old(heap.next)
      ensures |heap.live| == |old(heap.live)| + 4 * (|Value().streams| - |old(Value()).streams|)
    {
      ghost var st := Value();
      status := STATUS_SUCCESSFUL;
      gen.Srand(now);
      ksid' := Resolve(source, destination, qos, ksid);
      OpenIs(world, st, OpenRequest(source.block, destination.block, QosValue(qos), ksid), now,
             list.m.streams, minted, ksid');
    }

    /** A nil id asks for the stream of the pair; any other id is taken as it is. */
    method Resolve(source: Ptr<CString>, destination: Ptr<CString>, qos: QosPtr, ksid: Uuid) returns (ksid': Uuid)
      requires Valid() && heap.Live(source) && heap.Live(destination) && heap.Live(qos.mimetype)
      modifies this, heap, list, list.m.repr
      ensures Valid() && forall n :: n in list.m.repr ==> n in old(list.m.repr) || fresh(n)
      ensures NoneBetween(list.m.nodes, old(list.m.ceiling), old(heap.next))
      ensures var i := FindPair(old(list.m.streams), source.block, destination.block);
        if ksid != NIL_UUID then
          ksid' == ksid && list.m.streams == old(list.m.streams) && minted == old(minted)
        else if i < |old(list.m.streams)| then
          ksid' == old(list.m.streams)[i].ksid && list.m.streams == old(list.m.streams) && minted == old(minted)
        else
          && ksid' == world.uuids(old(minted)) && minted == old(minted) + 1
          && list.m.streams ==
             old(list.m.streams) + [Stream(ksid', QosValue(qos), source.block, destination.block, 0)]
      ensures heap.live >= old(heap.live) && heap.next >= old(heap.next)
      ensures |heap.live| == |old(heap.live)| + 4 * (|list.m.streams| - |old(list.m.streams)|)
    {
      ksid' := ksid;
      if ksid == NIL_UUID {
        ksid' := GetOrCreate(source, destination, qos);
      } else {
        AboveCeiling(list.m.nodes, list.m.ceiling, heap.next);
      }
    }

    /** The stream of the pair, a new one if there is none. */
    method GetOrCreate(source: Ptr<CString>, destination: Ptr<CString>, qos: QosPtr) returns (ksid: Uuid)
      requires Valid() && heap.Live(source) && heap.Live(destination) && heap.Live(qos.mimetype)
      modifies this, heap, list, list.m.repr
      ensures Valid() && forall n :: n in list.m.repr ==> n in old(list.m.repr) || fresh(n)
      ensures NoneBetween(list.m.nodes, old(list.m.ceiling), old(heap.next))
      ensures var i := FindPair(old(list.m.streams), source.block, destination.block);
        if i < |old(list.m.streams)| then
          ksid == old(list.m.streams)[i].ksid && list.m.streams == old(list.m.streams) && minted == old(minted)
        else
          && ksid == world.uuids(old(minted)) && minted == old(minted) + 1
          && list.m.streams ==
             old(list.m.streams) + [Stream(ksid, QosValue(qos), source.block, destination.block, 0)]
      ensures heap.live >= old(heap.live) && heap.next >= old(heap.next)
      ensures |heap.live| == |old(heap.live)| + 4 * (|list.m.streams| - |old(list.m.streams)|)
    {
      var found, node := list.SearchPair(heap, source, destination);
      if found {
        AboveCeiling(list.m.nodes, list.m.ceiling, heap.next);
        assert Mirrors(node.entry, list.m.streams[FindPair(list.m.streams, source.block, destination.block)]);
        ksid := node.entry.ksid;
      } else {
        ksid := GenerateUuid();
        AddNode(ksid, source, destination, qos, node);
      }
    }

    /** `uuid_generate_random`. */
    method GenerateUuid() returns (ksid: Uuid)
      modifies this
      ensures ksid == world.uuids(old(minted)) && minted == old(minted) + 1
    {
      ksid := world.uuids(minted);
      minted := minted + 1;
    }

    /** Make a node out of copies and hang it behind `last`. */
    method AddNode(ksid: Uuid, source: Ptr<CString>, destination: Ptr<CString>, qos: QosPtr, last: KsidInfo?)
      requires Valid() && heap.Live(source) && heap.Live(destination) && heap.Live(qos.mimetype)
      requires last == if list.m.nodes == [] then null else list.m.nodes[|list.m.nodes| - 1]
      modifies heap, list, list.m.repr
      ensures Valid() && forall n :: n in list.m.repr ==> n in old(list.m.repr) || fresh(n)
      ensures NoneBetween(list.m.nodes, old(list.m.ceiling), old(heap.next))
      ensures list.m.streams ==
        old(list.m.streams) + [Stream(ksid, QosValue(qos), source.block, destination.block, 0)]
      ensures heap.live >= old(heap.live) && heap.next >= old(heap.next)
      ensures |heap.live| == |old(heap.live)| + 4
    {
      var node := MakeNode(heap, ksid, source, destination, qos);
      LiveAppend(list.m.nodes, node, old(heap.live), heap.live);
      AppendLeavesGap(list.m.nodes, list.m.ceiling, node);
      list.Append(node, last, if list.m.nodes == [] then 0 else |list.m.nodes| - 1,
                  Stream(ksid, QosValue(qos), source.block, destination.block, 0));
    }

    /** The key of a found stream, in place in a new block. */
    method MakeKey(node: KsidInfo, index: uint32, keyType: byte, keyRole: byte, ghost s: Stream)
      returns (key: Ptr<array<byte>>)
      requires heap.Valid() && gen.prng == world.prng
      requires Mirrors(node.entry, s) && heap.Live(node.entry.source) && heap.Live(node.entry.destination)
      modifies heap, gen
      ensures heap.Valid() && key.Ptr? && fresh(key.block)
      ensures key.block[..] == KeyOf(world, s, index, keyType, keyRole)
      ensures key.id == old(heap.next) && heap.next == key.id + 1
      ensures heap.live == old(heap.live) + {key.id} && |heap.live| == |old(heap.live)| + 1
      ensures gen.state == Draw(world.prng, StreamSeed(world, s, index), s.qos.keyChunkSize)
    {
      var keySize := node.entry.qos.keyChunkSize;
      var source, destination := heap.Load(node.entry.source), heap.Load(node.entry.destination);
      var data;
      if keyType == KEY_TYPE_SYMMETRIC {
        data := gen.PseudorandomKey(source, destination, keySize, index);
      } else {
        if keyRole == KEY_ROLE_SENDER {
          data := gen.ObliviousKey(source, destination, keySize, index, 1);
        } else {
          data := gen.ObliviousKey(source, destination, keySize, index, 2);
        }
      }
      var id := heap.Malloc();
      key := Ptr(id, data);
    }

    /** The device information, in a new block. */
    method MakeMetadata() returns (metadata: Ptr<Blob>)
      requires heap.Valid()
      modifies heap
      ensures heap.Valid() && metadata.Ptr? && metadata.block == world.deviceInfo + [0]
      ensures metadata.id == old(heap.next) && heap.next == metadata.id + 1
      ensures heap.live == old(heap.live) + {metadata.id} && |heap.live| == |old(heap.live)| + 1
    {
      var id := heap.Malloc();
      metadata := Ptr(id, world.deviceInfo + [0]);
    }

    /** Key and device information for a found stream, in two new blocks. */
    method MakeReply(node: KsidInfo, index: uint32, metadata: Ptr<Blob>, ghost s: Stream)
      returns (key: Ptr<array<byte>>, metadata': Ptr<Blob>)
      requires heap.Valid() && gen.prng == world.prng && Mirrors(node.entry, s) && AllLive([node], heap.live)
      requires heap.Live(metadata) && |metadata.block| >= 2
      modifies heap, gen
      ensures heap.Valid() && key.Ptr? && fresh(key.block) && metadata'.Ptr? && metadata'.block == world.deviceInfo + [0]
      ensures key.block[..] == KeyOf(world, s, index, metadata.block[0], metadata.block[1])
      ensures old(heap.next) <= key.id < metadata'.id < heap.next
      ensures heap.live == old(heap.live) + {key.id, metadata'.id} && |heap.live| == |old(heap.live)| + 2
      ensures gen.state == Draw(world.prng, StreamSeed(world, s, index), s.qos.keyChunkSize)
    {
      var info := heap.Load(metadata);
      assert [node][0] == node;
      key := MakeKey(node, index, info[0], info[1], s);
      metadata' := MakeMetadata();
    }

    /** The counter of a found stream. */
    method CountServed(node: KsidInfo, ghost i: nat)
      requires Valid() && i < |list.m.nodes| && node == list.m.nodes[i]
      modifies list`m, list.m.repr
      ensures Valid()
      ensures var s := old(list.m.streams)[i];
        list.m == old(list.m).(streams := old(list.m.streams)[i := s.(currentIndex := Increment(s.currentIndex))])
    {
      list.Count(node, i);
    }

    /** Key and device information of a found stream, seen from the whole server. */
    method MakeReplyFor(node: KsidInfo, ghost i: nat, index: uint32, metadata: Ptr<Blob>)
      returns (key: Ptr<array<byte>>, metadata': Ptr<Blob>)
      requires Valid() && heap.Live(metadata) && |metadata.block| >= 2
      requires i < |list.m.nodes| && node == list.m.nodes[i]
      modifies heap, gen
      ensures Valid() && key.Ptr? && fresh(key.block) && metadata'.Ptr? && metadata'.block == world.deviceInfo + [0]
      ensures key.block[..] == KeyOf(world, list.m.streams[i], index, metadata.block[0], metadata.block[1])
      ensures gen.state == Draw(world.prng, StreamSeed(world, list.m.streams[i], index), list.m.streams[i].qos.keyChunkSize)
      ensures old(heap.next) <= key.id < metadata'.id < heap.next
      ensures heap.live == old(heap.live) + {key.id, metadata'.id} && |heap.live| == |old(heap.live)| + 2
    {
      assert Mirrors(node.entry, list.m.streams[i]);
      key, metadata' := MakeReply(node, index, metadata, list.m.streams[i]);
      LiveGrows(list.m.nodes, old(heap.live), heap.live);
    }

    /** GET_KEY on a stream that exists. */
    method ServeKey(node: KsidInfo, ghost i: nat, index: uint32, metadata: Ptr<Blob>)
      returns (key: Ptr<array<byte>>, metadata': Ptr<Blob>)
      requires Valid() && heap.Live(metadata) && |metadata.block| >= 2
      requires i < |list.m.nodes| && node == list.m.nodes[i]
      modifies heap, gen, list`m, list.m.repr
      ensures Valid() && key.Ptr? && fresh(key.block) && metadata'.Ptr? && metadata'.block == world.deviceInfo + [0]
      ensures var s := old(list.m.streams)[i];
        && key.block[..] == KeyOf(world, s, index, metadata.block[0], metadata.block[1])
        && list.m == old(list.m).(streams := old(list.m.streams)[i := s.(currentIndex := Increment(s.currentIndex))])
        && gen.state == Draw(world.prng, StreamSeed(world, s, index), s.qos.keyChunkSize)
      ensures old(heap.next) <= key.id < metadata'.id < heap.next
      ensures heap.live == old(heap.live) + {key.id, metadata'.id} && |heap.live| == |old(heap.live)| + 2
    {
      key, metadata' := MakeReplyFor(node, i, index, metadata);
      CountServed(node, i);
    }

    /** On failure the pointers are handed back as they came; on success they point to new blocks. */
    method GetKey(ksid: Uuid, index: uint32, key: Ptr<array<byte>>, metadata: Ptr<Blob>)
      returns (status: uint32, key': Ptr<array<byte>>, metadata': Ptr<Blob>)
      requires Valid() && heap.Live(metadata) && (key.Ptr? ==> key.block.Length < WORD)
      requires ReadsMetadata(Value(), GetKeyRequest(ksid, index, metadata.block)) ==> |metadata.block| >= 2
      modifies heap, gen, list`m, list.m.repr
      ensures Valid() && metadata'.Ptr? && heap.next >= old(heap.next)
      ensures list.m == old(list.m).(streams := list.m.streams)
      ensures key'.Ptr? ==> key'.block.Length < WORD
      ensures Value() == KeyServer.GetKey(world, old(Value()), GetKeyRequest(ksid, index, metadata.block)).0
      ensures GetKeyOuts(status, index, KeyBytes(key'), metadata'.block)
           == ServerGetKeyOuts(world, old(Value()), GetKeyRequest(ksid, index, metadata.block), old(KeyBytes(key)))
      ensures status == STATUS_SUCCESSFUL ==>
        && key'.Ptr? && fresh(key'.block) && old(heap.next) <= key'.id < metadata'.id
        && heap.live == old(heap.live) + {key'.id, metadata'.id} && |heap.live| == |old(heap.live)| + 2
      ensures status != STATUS_SUCCESSFUL ==> key' == key && metadata' == metadata && heap.live == old(heap.live)
    {
      var node := list.SearchKsid(ksid);
      if node == null {
        status, key', metadata' := STATUS_PEER_NOT_CONNECTED, key, metadata;
      } else {
        key', metadata' := ServeKey(node, FindKsid(list.m.streams, ksid), index, metadata);
        status := STATUS_SUCCESSFUL;
      }
    }

    /** The source leaves the stream where it is. */
    method Close(ksid: Uuid) returns (status: uint32)
      requires Valid()
      ensures KeyServer.Close(Value(), CloseRequest(ksid)) == (Value(), CloseResponse(status))
      ensures status == 0
    {
      status := STATUS_SUCCESSFUL;
    }
  }

  /** The key field of a response: size 0 for a NULL pointer. */
  ghost function KeyBytes(key: Ptr<array<byte>>): Blob
    requires key.Ptr? ==> key.block.Length < WORD
    reads if key.Ptr? then {key.block} else {}
  {
    if key.Ptr? then key.block[..] else []
  }
}
