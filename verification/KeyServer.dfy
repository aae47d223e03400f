/**
 The example key server as a state machine on values: what OPEN_CONNECT, GET_KEY and CLOSE do to
 the registry of key streams and to the PRNG they share, and what holds over every run of calls.
 */
module KeyServer {
  import opened Machine
  import opened Models
  import opened KeyMaterial
  import opened Uuids

  /** What the registry remembers of one stream. */
  datatype Stream = Stream(ksid: Uuid, qos: Qos, source: CString, destination: CString, currentIndex: int)

  datatype State = State(streams: seq<Stream>, rng: nat, minted: nat)

  type DeviceInfo = s: CString | |s| < 16384

  /**
   What the server takes from its surroundings: the PRNG of the C library, the supply of random
   UUIDs, and the device information its configuration prints to.
   */
  datatype World = World(prng: Prng, uuids: nat -> Uuid, deviceInfo: DeviceInfo) {
    /** The first `n` generated UUIDs are not nil and do not repeat (RFC 4122, sections 4.1.7 and 4.4). */
    ghost predicate FreshIds(n: nat) {
      AllFresh(uuids, n)
    }
  }

  const INITIAL := State([], 0, 0)

  // ----- the three operations ----------------------------------------------------------------

  /** Position of the first stream from `source` to `destination`, or the number of streams. */
  function FindPair(streams: seq<Stream>, source: CString, destination: CString): (i: nat)
    ensures i <= |streams|
    ensures i < |streams| ==> streams[i].source == source && streams[i].destination == destination
    ensures forall j :: 0 <= j < i ==> streams[j].source != source || streams[j].destination != destination
  {
    if streams == [] then 0
    else if streams[0].source == source && streams[0].destination == destination then 0
    else 1 + FindPair(streams[1..], source, destination)
  }

  /** Position of the first stream named `ksid`, or the number of streams. */
  function FindKsid(streams: seq<Stream>, ksid: Uuid): (i: nat)
    ensures i <= |streams|
    ensures i < |streams| ==> streams[i].ksid == ksid
    ensures forall j :: 0 <= j < i ==> streams[j].ksid != ksid
  {
    if streams == [] then 0
    else if streams[0].ksid == ksid then 0
    else 1 + FindKsid(streams[1..], ksid)
  }

  function Open(w: World, st: State, r: OpenRequest, now: uint32): (State, OpenResponse) {
    var st1 := st.(rng := w.prng.seed(now));
    if r.ksid != NIL_UUID then (st1, OpenResponse(STATUS_SUCCESSFUL, r.qos, r.ksid))
    else
      var i := FindPair(st.streams, r.source, r.destination);
      if i < |st.streams| then (st1, OpenResponse(STATUS_SUCCESSFUL, r.qos, st.streams[i].ksid))
      else
        var ksid := w.uuids(st.minted);
        var stream := Stream(ksid, r.qos, r.source, r.destination, 0);
        (st1.(streams := st.streams + [stream], minted := st.minted + 1),
         OpenResponse(STATUS_SUCCESSFUL, r.qos, ksid))
  }

  /** The seed of a key of stream `s`. */
  function StreamSeed(w: World, s: Stream, index: uint32): nat {
    w.prng.seed(Seed(s.source, s.destination, index))
  }

  /** The sender's view of the key at `index`. */
  function RawKeyOf(w: World, s: Stream, index: uint32): (key: Blob) {
    RawKey(w.prng, StreamSeed(w, s, index), s.qos.keyChunkSize)
  }

  /** The key a caller gets who asks with the given type and role. */
  function KeyOf(w: World, s: Stream, index: uint32, keyType: byte, keyRole: byte): (key: Blob)
    ensures |key| == s.qos.keyChunkSize
  {
    var raw := RawKeyOf(w, s, index);
    if keyType == KEY_TYPE_SYMMETRIC || keyRole == KEY_ROLE_SENDER then raw else Masked(raw)
  }

  /** `current_index++` on an `int`; C leaves the last step undefined, two's complement wraps. */
  function Increment(n: int): int {
    if n == 0x7FFF_FFFF then -0x8000_0000 else n + 1
  }

  /** The metadata is read only when the stream exists. */
  predicate ReadsMetadata(st: State, r: GetKeyRequest) {
    FindKsid(st.streams, r.ksid) < |st.streams|
  }

  function GetKey(w: World, st: State, r: GetKeyRequest): (State, GetKeyResponse)
    requires ReadsMetadata(st, r) ==> |r.metadata| >= 2
  {
    var i := FindKsid(st.streams, r.ksid);
    if i == |st.streams| then (st, GetKeyResponse(STATUS_PEER_NOT_CONNECTED, r.index, [], r.metadata))
    else
      var s := st.streams[i];
      var key := KeyOf(w, s, r.index, r.metadata[0], r.metadata[1]);
      (st.(streams := st.streams[i := s.(currentIndex := Increment(s.currentIndex))],
           rng := Draw(w.prng, StreamSeed(w, s, r.index), s.qos.keyChunkSize)),
       GetKeyResponse(STATUS_SUCCESSFUL, r.index, key, w.deviceInfo + [0]))
  }

  function Close(st: State, r: CloseRequest): (State, CloseResponse) {
    (st, CloseResponse(STATUS_SUCCESSFUL))
  }

  // ----- runs --------------------------------------------------------------------------------

  datatype AnyCall =
    | OpenCall(open: OpenRequest, now: uint32)
    | GetCall(get: GetKeyRequest)
    | CloseCall(close: CloseRequest)

  /** GET_KEY metadata starts with the key type and the key role. */
  type Call = c: AnyCall | c.GetCall? ==> |c.get.metadata| >= 2 witness CloseCall(CloseRequest(NIL_UUID))

  /** Shorter metadata is harmless where it is not read. */
  predicate Defined(st: State, call: AnyCall) {
    call.GetCall? && ReadsMetadata(st, call.get) ==> |call.get.metadata| >= 2
  }

  datatype Outcome =
    | Opened(oc: OpenResponse)
    | Got(gk: GetKeyResponse)
    | Closed(cl: CloseResponse)

  function Step(w: World, st: State, call: AnyCall): (State, Outcome)
    requires Defined(st, call)
  {
    match call
    case OpenCall(r, now) => var (st', o) := Open(w, st, r, now); (st', Opened(o))
    case GetCall(r) => var (st', o) := GetKey(w, st, r); (st', Got(o))
    case CloseCall(r) => var (st', o) := Close(st, r); (st', Closed(o))
  }

  /** State after a run. */
  function After(w: World, st: State, calls: seq<Call>): State {
    if calls == [] then st
    else Step(w, After(w, st, calls[..|calls| - 1]), calls[|calls| - 1]).0
  }

  /** What call `i` of a run returns. */
  function OutcomeAt(w: World, st: State, calls: seq<Call>, i: nat): Outcome
    requires i < |calls|
  {
    Step(w, After(w, st, calls[..i]), calls[i]).1
  }

  /** A run that starts in the initial state. */
  function Reached(w: World, calls: seq<Call>): State {
    After(w, INITIAL, calls)
  }

  // ----- the registry invariant --------------------------------------------------------------

  ghost predicate DistinctPairs(streams: seq<Stream>) {
    forall i, j :: 0 <= i < j < |streams| ==>
      streams[i].source != streams[j].source || streams[i].destination != streams[j].destination
  }

  ghost predicate RegistryInvariant(w: World, st: State) {
    && st.minted == |st.streams|
    && (forall i :: 0 <= i < |st.streams| ==> st.streams[i].ksid == w.uuids(i))
    && DistinctPairs(st.streams)
  }

  /** All but the counter of a stream is fixed for life. */
  predicate SameIdentity(a: Stream, b: Stream) {
    a.(currentIndex := b.currentIndex) == b
  }

  /** `later` lost, reordered and renamed nothing of `earlier`. */
  ghost predicate Extends(earlier: seq<Stream>, later: seq<Stream>) {
    && |earlier| <= |later|
    && forall i :: 0 <= i < |earlier| ==> SameIdentity(earlier[i], later[i])
  }

  /** One step keeps the invariant and the identities and adds at most one stream, at the end. */
  lemma {:induction false} StepKeepsRegistry(w: World, st: State, call: AnyCall)
    requires RegistryInvariant(w, st) && Defined(st, call)
    ensures RegistryInvariant(w, Step(w, st, call).0)
    ensures Extends(st.streams, Step(w, st, call).0.streams)
    ensures |Step(w, st, call).0.streams| <= |st.streams| + 1
    ensures |Step(w, st, call).0.streams| == |st.streams| + 1 <==>
      call.OpenCall? && call.open.ksid == NIL_UUID &&
      forall i :: 0 <= i < |st.streams| ==>
        st.streams[i].source != call.open.source || st.streams[i].destination != call.open.destination
  {
  }

  lemma {:induction false} RunKeepsRegistry(w: World, st: State, calls: seq<Call>)
    requires RegistryInvariant(w, st)
    ensures RegistryInvariant(w, After(w, st, calls))
    ensures Extends(st.streams, After(w, st, calls).streams)
  {
    if calls != [] {
      var init := calls[..|calls| - 1];
      RunKeepsRegistry(w, st, init);
      StepKeepsRegistry(w, After(w, st, init), calls[|calls| - 1]);
    }
  }

  /** A stream of the pair is registered. */
  predicate Registered(st: State, source: CString, destination: CString) {
    FindPair(st.streams, source, destination) < |st.streams|
  }

  lemma {:induction false} RegisteredMeans(st: State, source: CString, destination: CString, i: nat)
    requires i < |st.streams| && st.streams[i].source == source && st.streams[i].destination == destination
    ensures Registered(st, source, destination)
  {
  }

  lemma {:induction false} StepRegisters(w: World, st: State, call: AnyCall, source: CString, destination: CString)
    requires RegistryInvariant(w, st) && Defined(st, call)
    ensures Registered(Step(w, st, call).0, source, destination) <==>
      Registered(st, source, destination) || OpensPair(call, source, destination)
  {
    var st' := Step(w, st, call).0;
    StepKeepsRegistry(w, st, call);
    var i := FindPair(st.streams, source, destination);
    if i < |st.streams| {
      RegisteredMeans(st', source, destination, i);
    } else if OpensPair(call, source, destination) {
      RegisteredMeans(st', source, destination, |st.streams|);
    }
  }

  ghost predicate OpenedIn(calls: seq<Call>, source: CString, destination: CString) {
    exists i :: 0 <= i < |calls| && OpensPair(calls[i], source, destination)
  }

  lemma {:induction false} OpenedInStep(calls: seq<Call>, source: CString, destination: CString)
    requires calls != []
    ensures OpenedIn(calls, source, destination) <==>
      OpenedIn(calls[..|calls| - 1], source, destination) || OpensPair(calls[|calls| - 1], source, destination)
  {
    var init := calls[..|calls| - 1];
    assert forall i :: 0 <= i < |init| ==> calls[i] == init[i];
  }

  /** The pairs registered after a run are those registered before it and those opened with the nil id in it. */
  lemma {:induction false} RunRegisters(w: World, st: State, calls: seq<Call>, source: CString, destination: CString)
    requires RegistryInvariant(w, st)
    ensures Registered(After(w, st, calls), source, destination) <==>
      Registered(st, source, destination) || OpenedIn(calls, source, destination)
  {
    if calls != [] {
      var init := calls[..|calls| - 1];
      RunRegisters(w, st, init, source, destination);
      RunKeepsRegistry(w, st, init);
      StepRegisters(w, After(w, st, init), calls[|calls| - 1], source, destination);
      OpenedInStep(calls, source, destination);
    }
  }

  // ----- fresh ids ---------------------------------------------------------------------------

  /** The ids that a run mints are not nil and do not repeat. */
  ghost predicate FreshRun(w: World, calls: seq<Call>) {
    w.FreshIds(Reached(w, calls).minted)
  }

  lemma {:induction false} FreshPrefix(w: World, calls: seq<Call>, i: nat)
    requires i <= |calls| && FreshRun(w, calls)
    ensures FreshRun(w, calls[..i])
  {
    RunKeepsRegistry(w, INITIAL, calls[..i]);
    Between(w, INITIAL, calls, i, |calls|);
    assert calls[..|calls|] == calls;
    RunKeepsRegistry(w, Reached(w, calls[..i]), calls[i..]);
  }

  lemma {:induction false} MintedAtMost(w: World, calls: seq<Call>)
    ensures Reached(w, calls).minted <= |calls|
  {
    if calls != [] { MintedAtMost(w, calls[..|calls| - 1]); }
  }

  /** A world of fresh ids exists for every run that mints fewer than 2^128, and for no other. */
  lemma {:induction false} FreshRunsExist(w: World, calls: seq<Call>)
    ensures FreshRun(w.(uuids := Nth), calls) <==> Reached(w.(uuids := Nth), calls).minted <= NON_NIL
    ensures |calls| <= NON_NIL ==> FreshRun(w.(uuids := Nth), calls)
    ensures FreshRun(w, calls) ==> Reached(w, calls).minted <= NON_NIL
  {
    var n := Reached(w.(uuids := Nth), calls).minted;
    if n <= NON_NIL {
      NthIsFresh(n);
    } else if FreshRun(w.(uuids := Nth), calls) {
      SupplyIsFinite(Nth, n);
    }
    MintedAtMost(w.(uuids := Nth), calls);
    if FreshRun(w, calls) { SupplyIsFinite(w.uuids, Reached(w, calls).minted); }
  }

  /**
   In every reachable state there is at most one stream per ordered pair, and the stream ids are
   distinct and not nil.
   */
  lemma {:induction false} ReachableRegistry(w: World, calls: seq<Call>)
    requires FreshRun(w, calls)
    ensures var streams := Reached(w, calls).streams;
      && DistinctPairs(streams)
      && (forall i :: 0 <= i < |streams| ==> streams[i].ksid != NIL_UUID)
      && (forall i, j :: 0 <= i < j < |streams| ==> streams[i].ksid != streams[j].ksid)
  {
    RunKeepsRegistry(w, INITIAL, calls);
  }

  lemma {:induction false} AfterConcat(w: World, st: State, a: seq<Call>, b: seq<Call>)
    ensures After(w, st, a + b) == After(w, After(w, st, a), b)
  {
    if b == [] {
      assert a + b == a;
    } else {
      var b' := b[..|b| - 1];
      assert (a + b)[..|a + b| - 1] == a + b';
      AfterConcat(w, st, a, b');
    }
  }

  /** The state before a later call of a run is reached from the state before an earlier one. */
  lemma {:induction false} Between(w: World, st: State, calls: seq<Call>, i: nat, j: nat)
    requires i <= j <= |calls|
    ensures After(w, st, calls[..j]) == After(w, After(w, st, calls[..i]), calls[i..j])
  {
    assert calls[..i] + calls[i..j] == calls[..j];
    AfterConcat(w, st, calls[..i], calls[i..j]);
  }

  // ----- lookups in valid registries ---------------------------------------------------------

  lemma {:induction false} FindKsidIs(w: World, st: State, i: nat)
    requires w.FreshIds(|st.streams|) && RegistryInvariant(w, st) && i < |st.streams|
    ensures FindKsid(st.streams, st.streams[i].ksid) == i
  {
    var j := FindKsid(st.streams, st.streams[i].ksid);
    assert w.uuids(i) == w.uuids(j);
  }

  lemma {:induction false} FindPairIs(streams: seq<Stream>, i: nat)
    requires DistinctPairs(streams) && i < |streams|
    ensures FindPair(streams, streams[i].source, streams[i].destination) == i
  {
  }

  // ----- OPEN_CONNECT is a stable get-or-create ----------------------------------------------

  /** The OPEN_CONNECT call of an application that does not know a stream id. */
  predicate OpensPair(call: AnyCall, source: CString, destination: CString) {
    call.OpenCall? && call.open.ksid == NIL_UUID && call.open.source == source && call.open.destination == destination
  }

  /** After the pair has been opened, its stream sits in the registry under the id returned. */
  lemma {:induction false} OpenedStream(w: World, st: State, call: Call, source: CString, destination: CString) returns (i: nat)
    requires RegistryInvariant(w, st) && OpensPair(call, source, destination)
    ensures var (st', o) := Step(w, st, call);
      && i < |st'.streams| && o.Opened? && o.oc.status == STATUS_SUCCESSFUL
      && st'.streams[i].ksid == o.oc.ksid
      && st'.streams[i].source == source && st'.streams[i].destination == destination
  {
    i := FindPair(st.streams, source, destination);
  }

  /**
   Once OPEN_CONNECT returned a stream for a pair, every later one for the pair returns the same
   stream, whatever QoS it asks for, and leaves the registry alone.
   */
  lemma {:induction false} OpenIsStable(w: World, calls: seq<Call>, source: CString, destination: CString, i: nat, j: nat)
    requires i < j < |calls|
    requires OpensPair(calls[i], source, destination) && OpensPair(calls[j], source, destination)
    ensures OutcomeAt(w, INITIAL, calls, i).Opened?
    ensures OutcomeAt(w, INITIAL, calls, j) ==
      Opened(OpenResponse(STATUS_SUCCESSFUL, calls[j].open.qos, OutcomeAt(w, INITIAL, calls, i).oc.ksid))
    ensures Reached(w, calls[..j + 1]).streams == Reached(w, calls[..j]).streams
  {
    var k := PersistentStream(w, calls, source, destination, i, j);
    FindPairIs(Reached(w, calls[..j]).streams, k);
    assert calls[..j + 1][..j] == calls[..j];
  }

  /** A GET_KEY on stream `k` succeeds and yields a key of its chunk size. */
  lemma {:induction false} KnownStreamServes(w: World, st: State, r: GetKeyRequest, k: nat)
    requires w.FreshIds(|st.streams|) && RegistryInvariant(w, st) && k < |st.streams|
    requires r.ksid == st.streams[k].ksid && |r.metadata| >= 2
    ensures var o := GetKey(w, st, r).1;
      o.status == STATUS_SUCCESSFUL && |o.key| == st.streams[k].qos.keyChunkSize
  {
    FindKsidIs(w, st, k);
  }

  /**
   Every later GET_KEY on the stream that an OPEN_CONNECT returned succeeds with a key of the chunk
   size the stream was created with: the one asked for, if this OPEN_CONNECT created it, or else
   the one registered before.
   */
  lemma {:induction false} ChunkSizeIsStable(w: World, calls: seq<Call>, source: CString, destination: CString, i: nat, j: nat)
    requires FreshRun(w, calls) && i < j < |calls| && OpensPair(calls[i], source, destination) && calls[j].GetCall?
    requires OutcomeAt(w, INITIAL, calls, i).Opened?
    requires calls[j].get.ksid == OutcomeAt(w, INITIAL, calls, i).oc.ksid
    ensures var o, before := OutcomeAt(w, INITIAL, calls, j), Reached(w, calls[..i]);
      && o.Got? && o.gk.status == STATUS_SUCCESSFUL
      && |o.gk.key| ==
         (if Registered(before, source, destination)
          then before.streams[FindPair(before.streams, source, destination)].qos.keyChunkSize
          else calls[i].open.qos.keyChunkSize)
  {
    var k := PersistentStream(w, calls, source, destination, i, j);
    FreshPrefix(w, calls, j);
    KnownStreamServes(w, Reached(w, calls[..j]), calls[j].get, k);
    CreatedBy(w, calls, source, destination, i, k);
  }

  /** The chunk size of the stream that the pair has once it has been opened. */
  lemma {:induction false} CreatedBy(w: World, calls: seq<Call>, source: CString, destination: CString, i: nat, k: nat)
    requires i < |calls| && OpensPair(calls[i], source, destination)
    requires var first := Reached(w, calls[..i + 1]).streams;
      k < |first| && first[k].source == source && first[k].destination == destination
    ensures var before, first := Reached(w, calls[..i]), Reached(w, calls[..i + 1]).streams;
      first[k].qos.keyChunkSize ==
        (if Registered(before, source, destination)
         then before.streams[FindPair(before.streams, source, destination)].qos.keyChunkSize
         else calls[i].open.qos.keyChunkSize)
  {
    assert calls[..i + 1][..i] == calls[..i];
    RunKeepsRegistry(w, INITIAL, calls[..i]);
    RunKeepsRegistry(w, INITIAL, calls[..i + 1]);
    FindPairIs(Reached(w, calls[..i + 1]).streams, k);
    if Registered(Reached(w, calls[..i]), source, destination) {
      StepKeepsRegistry(w, Reached(w, calls[..i]), calls[i]);
      FindPairIs(Reached(w, calls[..i + 1]).streams, FindPair(Reached(w, calls[..i]).streams, source, destination));
    }
  }

  /** The stream opened by call `i` is found at one position ever after. */
  lemma {:induction false} PersistentStream(w: World, calls: seq<Call>, source: CString, destination: CString, i: nat, j: nat)
    returns (k: nat)
    requires i < j <= |calls|
    requires OpensPair(calls[i], source, destination)
    ensures OutcomeAt(w, INITIAL, calls, i).Opened?
    ensures var first, later := Reached(w, calls[..i + 1]), Reached(w, calls[..j]);
      && RegistryInvariant(w, later)
      && k < |first.streams| <= |later.streams|
      && SameIdentity(first.streams[k], later.streams[k])
      && first.streams[k].source == source && first.streams[k].destination == destination
      && later.streams[k].ksid == OutcomeAt(w, INITIAL, calls, i).oc.ksid
      && later.streams[k].source == source && later.streams[k].destination == destination
  {
    var before := Reached(w, calls[..i]);
    RunKeepsRegistry(w, INITIAL, calls[..i]);
    k := OpenedStream(w, before, calls[i], source, destination);
    assert calls[..i + 1][..i] == calls[..i];
    StepKeepsRegistry(w, before, calls[i]);
    Between(w, INITIAL, calls, i + 1, j);
    RunKeepsRegistry(w, Reached(w, calls[..i + 1]), calls[i + 1..j]);
  }

  // ----- keys --------------------------------------------------------------------------------

  /**
   A successful GET_KEY returns a key that depends on the identity of the stream, the index and
   the requested type and role. The PRNG state, the counters and all other streams do not matter.
   */
  lemma {:induction false} KeysIgnoreHistory(w: World, calls: seq<Call>, i: nat, j: nat)
    requires FreshRun(w, calls) && i <= j < |calls|
    requires calls[i].GetCall? && calls[j].GetCall?
    requires calls[i].get.ksid == calls[j].get.ksid && calls[i].get.index == calls[j].get.index
    requires calls[i].get.metadata[..2] == calls[j].get.metadata[..2]
    requires OutcomeAt(w, INITIAL, calls, i).gk.status == STATUS_SUCCESSFUL
    ensures OutcomeAt(w, INITIAL, calls, j) == OutcomeAt(w, INITIAL, calls, i)
  {
    var before, later := Reached(w, calls[..i]), Reached(w, calls[..j]);
    RunKeepsRegistry(w, INITIAL, calls[..i]);
    Between(w, INITIAL, calls, i, j);
    RunKeepsRegistry(w, before, calls[i..j]);
    var k := FindKsid(before.streams, calls[i].get.ksid);
    FreshPrefix(w, calls, j);
    FindKsidIs(w, later, k);
    var m, m' := calls[i].get.metadata, calls[j].get.metadata;
    assert m[0] == m[..2][0] == m'[0] && m[1] == m[..2][1] == m'[1];
  }

  /** Callers who ask with this type and role hold the key as it was generated. */
  predicate HoldsRaw(keyType: byte, keyRole: byte) {
    keyType == 0 || keyRole == 16
  }

  /** How the keys of two parties of one stream relate: symmetric and sender keys are the same key. */
  ghost predicate KeysAgree(a: bytes, aType: byte, aRole: byte, b: bytes, bType: byte, bRole: byte) {
    if HoldsRaw(aType, aRole) == HoldsRaw(bType, bRole) then a == b
    else if HoldsRaw(aType, aRole) then CorrelatedKeys(a, b)
    else CorrelatedKeys(b, a)
  }

  lemma {:induction false} SameStreamKeysAgree(w: World, s: Stream, t: Stream, index: uint32, aType: byte, aRole: byte, bType: byte, bRole: byte)
    requires SameIdentity(s, t)
    ensures KeysAgree(KeyOf(w, s, index, aType, aRole), aType, aRole, KeyOf(w, t, index, bType, bRole), bType, bRole)
  {
    MaskedIsCorrelated(RawKeyOf(w, s, index), Masked(RawKeyOf(w, s, index)));
  }

  /**
   Two applications that each open the pair without knowing a stream id, in any interleaving with
   any other calls, hold the same stream id, and their GET_KEYs for one index succeed with equal
   symmetric keys or with obliviously correlated ones.
   */
  lemma {:induction false} TwoPartyAgreement(w: World, calls: seq<Call>, source: CString, destination: CString,
                          openA: nat, openB: nat, getA: nat, getB: nat)
    requires FreshRun(w, calls)
    requires openA < getA < |calls| && openB < getB < |calls|
    requires OpensPair(calls[openA], source, destination) && OpensPair(calls[openB], source, destination)
    requires calls[getA].GetCall? && calls[getB].GetCall? && calls[getA].get.index == calls[getB].get.index
    requires calls[getA].get.ksid == OutcomeAt(w, INITIAL, calls, openA).oc.ksid
    requires calls[getB].get.ksid == OutcomeAt(w, INITIAL, calls, openB).oc.ksid
    ensures calls[getA].get.ksid == calls[getB].get.ksid
    ensures var a, b := OutcomeAt(w, INITIAL, calls, getA), OutcomeAt(w, INITIAL, calls, getB);
      var ma, mb := calls[getA].get.metadata, calls[getB].get.metadata;
      && a.Got? && a.gk.status == STATUS_SUCCESSFUL && b.Got? && b.gk.status == STATUS_SUCCESSFUL
      && KeysAgree(a.gk.key, ma[0], ma[1], b.gk.key, mb[0], mb[1])
  {
    var k := PersistentStream(w, calls, source, destination, openA, getA);
    var l := PersistentStream(w, calls, source, destination, openB, getB);
    var stA, stB := Reached(w, calls[..getA]), Reached(w, calls[..getB]);
    SameAcrossStates(w, calls, getA, getB);
    assert k == l && SameIdentity(stA.streams[k], stB.streams[k]) by {
      if getA <= getB { FindPairIs(stB.streams, k); FindPairIs(stB.streams, l); }
      else { FindPairIs(stA.streams, k); FindPairIs(stA.streams, l); }
    }
    FreshPrefix(w, calls, getA);
    FreshPrefix(w, calls, getB);
    FindKsidIs(w, stA, k);
    FindKsidIs(w, stB, k);
    var ma, mb := calls[getA].get.metadata, calls[getB].get.metadata;
    SameStreamKeysAgree(w, stA.streams[k], stB.streams[k], calls[getA].get.index, ma[0], ma[1], mb[0], mb[1]);
  }

  /** Two applications open a pair, then each asks for the key at `index`. */
  function Meeting(w: World, r: OpenRequest, index: uint32, a: Blob, b: Blob): (calls: seq<Call>)
    requires |a| >= 2 && |b| >= 2
  {
    [OpenCall(r.(ksid := NIL_UUID), 0), OpenCall(r.(ksid := NIL_UUID), 0),
     GetCall(GetKeyRequest(w.uuids(0), index, a)), GetCall(GetKeyRequest(w.uuids(0), index, b))]
  }

  /** The states of a meeting, up to the PRNG. */
  lemma {:induction false} MeetingStates(w: World, r: OpenRequest, index: uint32, a: Blob, b: Blob)
    requires |a| >= 2 && |b| >= 2
    ensures var calls, s := Meeting(w, r, index, a, b), Stream(w.uuids(0), r.qos, r.source, r.destination, 0);
      && Reached(w, calls[..0]) == INITIAL
      && Reached(w, calls[..1]).streams == Reached(w, calls[..2]).streams == [s]
      && Reached(w, calls[..3]).streams == [s.(currentIndex := 1)]
      && Reached(w, calls[..4]).streams == [s.(currentIndex := 2)] && Reached(w, calls[..4]).minted == 1
  {
    var calls := Meeting(w, r, index, a, b);
    assert calls[..1][..0] == calls[..0] && calls[..2][..1] == calls[..1];
    assert calls[..3][..2] == calls[..2] && calls[..4][..3] == calls[..3];
    assert Reached(w, calls[..0]) == INITIAL;
    var st1 := Step(w, INITIAL, calls[0]).0;
    assert |calls[..1]| == 1 && calls[..1][0] == calls[0];
    assert Reached(w, calls[..1]) == st1;
    var st2 := Step(w, st1, calls[1]).0;
    assert Reached(w, calls[..2]) == st2;
    var st3 := Step(w, st2, calls[2]).0;
    assert Reached(w, calls[..3]) == st3;
    assert Reached(w, calls[..4]) == Step(w, st3, calls[3]).0;
  }

  /** Such a run meets all that two-party agreement asks for whenever one id is fresh. */
  lemma {:induction false} MeetingAgrees(w: World, r: OpenRequest, index: uint32, a: Blob, b: Blob)
    requires w.FreshIds(1) && |a| >= 2 && |b| >= 2
    ensures var calls := Meeting(w, r, index, a, b);
      && FreshRun(w, calls)
      && OutcomeAt(w, INITIAL, calls, 0) == OutcomeAt(w, INITIAL, calls, 1)
      && OutcomeAt(w, INITIAL, calls, 0).Opened? && OutcomeAt(w, INITIAL, calls, 0).oc.ksid == w.uuids(0)
      && OutcomeAt(w, INITIAL, calls, 2).Got? && OutcomeAt(w, INITIAL, calls, 3).Got?
      && KeysAgree(OutcomeAt(w, INITIAL, calls, 2).gk.key, a[0], a[1], OutcomeAt(w, INITIAL, calls, 3).gk.key, b[0], b[1])
  {
    var calls := Meeting(w, r, index, a, b);
    MeetingStates(w, r, index, a, b);
    assert calls[..4] == calls;
    TwoPartyAgreement(w, calls, r.source, r.destination, 0, 1, 2, 3);
  }

  lemma {:induction false} SameAcrossStates(w: World, calls: seq<Call>, i: nat, j: nat)
    requires i <= |calls| && j <= |calls|
    ensures i <= j ==> Extends(Reached(w, calls[..i]).streams, Reached(w, calls[..j]).streams)
    ensures j <= i ==> Extends(Reached(w, calls[..j]).streams, Reached(w, calls[..i]).streams)
  {
    var lo, hi := if i <= j then i else j, if i <= j then j else i;
    RunKeepsRegistry(w, INITIAL, calls[..lo]);
    Between(w, INITIAL, calls, lo, hi);
    RunKeepsRegistry(w, Reached(w, calls[..lo]), calls[lo..hi]);
  }

  /**
   Opening a pair in both directions gives two streams with different ids and, for equal chunk
   sizes, the same keys; for different ones the shorter key is a prefix of the longer.
   */
  lemma {:induction false} DirectionsShareKeys(w: World, calls: seq<Call>, i: nat, j: nat, index: uint32, keyType: byte, keyRole: byte)
    requires FreshRun(w, calls)
    requires i < j < |Reached(w, calls).streams|
    requires var s, t := Reached(w, calls).streams[i], Reached(w, calls).streams[j];
      s.source == t.destination && s.destination == t.source
    ensures var s, t := Reached(w, calls).streams[i], Reached(w, calls).streams[j];
      && s.ksid != t.ksid
      && (s.qos.keyChunkSize <= t.qos.keyChunkSize ==>
            KeyOf(w, s, index, keyType, keyRole) <= KeyOf(w, t, index, keyType, keyRole))
      && (t.qos.keyChunkSize <= s.qos.keyChunkSize ==>
            KeyOf(w, t, index, keyType, keyRole) <= KeyOf(w, s, index, keyType, keyRole))
  {
    var s, t := Reached(w, calls).streams[i], Reached(w, calls).streams[j];
    ReachableRegistry(w, calls);
    SeedSymmetric(s.source, s.destination, index);
    ShorterKeyIsPrefix(w, s, t, index, keyType, keyRole);
    ShorterKeyIsPrefix(w, t, s, index, keyType, keyRole);
  }

  /** Streams that seed alike hand out prefixes of one key, masked or not. */
  lemma {:induction false} ShorterKeyIsPrefix(w: World, s: Stream, t: Stream, index: uint32, keyType: byte, keyRole: byte)
    requires StreamSeed(w, s, index) == StreamSeed(w, t, index)
    ensures s.qos.keyChunkSize <= t.qos.keyChunkSize ==>
      KeyOf(w, s, index, keyType, keyRole) <= KeyOf(w, t, index, keyType, keyRole)
  {
    if s.qos.keyChunkSize <= t.qos.keyChunkSize {
      RawKeyPrefix(w.prng, StreamSeed(w, s, index), s.qos.keyChunkSize, t.qos.keyChunkSize);
      MaskedPrefix(RawKeyOf(w, s, index), RawKeyOf(w, t, index));
    }
  }

  // ----- what the operations return ----------------------------------------------------------

  /** A symmetric caller gets the key of the sender, whatever role it names. */
  lemma {:induction false} SymmetricIsSenders(w: World, s: Stream, index: uint32, role: byte, keyType: byte)
    ensures KeyOf(w, s, index, 0, role) == KeyOf(w, s, index, keyType, 16)
  {
  }

  /**
   Every byte of a key, from the names of the stream and the index: the generator's byte for symmetric
   and sender callers, and for the others the one byte that is correlated with it.
   */
  lemma {:induction false} KeyByteIs(w: World, s: Stream, index: uint32, keyType: byte, keyRole: byte, k: nat)
    requires k < s.qos.keyChunkSize
    ensures |KeyOf(w, s, index, keyType, keyRole)| == s.qos.keyChunkSize
    ensures var key := KeyOf(w, s, index, keyType, keyRole);
      var b: byte := w.prng.value(Draw(w.prng, w.prng.seed(Seed(s.source, s.destination, index)), k + 1)) % 256;
      if keyType == 0 || keyRole == 16 then key[k] == b else Correlated(k, b, key[k])
  {
    RawKeyAt(w.prng, StreamSeed(w, s, index), s.qos.keyChunkSize, k);
    MaskCorrelates(k, RawKeyOf(w, s, index)[k]);
  }

  /**
   A successful GET_KEY returns the index, the key and the device information with its NUL, and
   leaves everything but one counter and the PRNG as it was.
   */
  lemma {:induction false} GetKeySucceeds(w: World, st: State, r: GetKeyRequest, i: nat)
    requires i < |st.streams| && st.streams[i].ksid == r.ksid && |r.metadata| >= 2
    requires forall j :: 0 <= j < i ==> st.streams[j].ksid != r.ksid
    ensures var (st', o) := GetKey(w, st, r);
      && o.status == 0 && o.index == r.index && o.metadata == w.deviceInfo + [0]
      && o.key == KeyOf(w, st.streams[i], r.index, r.metadata[0], r.metadata[1])
      && st'.minted == st.minted && |st'.streams| == |st.streams|
      && (forall j :: 0 <= j < |st.streams| && j != i ==> st'.streams[j] == st.streams[j])
      && SameIdentity(st'.streams[i], st.streams[i])
      && st'.rng == Draw(w.prng, StreamSeed(w, st.streams[i], r.index), st.streams[i].qos.keyChunkSize)
  {
    assert FindKsid(st.streams, r.ksid) == i;
  }

  lemma {:induction false} GetKeyFails(w: World, st: State, r: GetKeyRequest)
    requires forall j :: 0 <= j < |st.streams| ==> st.streams[j].ksid != r.ksid
    ensures GetKey(w, st, r) == (st, GetKeyResponse(3, r.index, [], r.metadata))
  {
    assert FindKsid(st.streams, r.ksid) == |st.streams|;
  }

  /** OPEN_CONNECT with an id returns the id and the QoS, and reseeds the PRNG. */
  lemma {:induction false} OpenKnown(w: World, st: State, r: OpenRequest, now: uint32)
    requires r.ksid != NIL_UUID
    ensures Open(w, st, r, now) == (State(st.streams, w.prng.seed(now), st.minted), OpenResponse(0, r.qos, r.ksid))
  {
  }

  /** Without one it returns the first stream of the pair, or makes one of what it was given. */
  lemma {:induction false} OpenPair(w: World, st: State, r: OpenRequest, now: uint32, i: nat)
    requires r.ksid == NIL_UUID && i <= |st.streams|
    requires forall j :: 0 <= j < i ==> st.streams[j].source != r.source || st.streams[j].destination != r.destination
    requires i < |st.streams| ==> st.streams[i].source == r.source && st.streams[i].destination == r.destination
    ensures var (st', o) := Open(w, st, r, now);
      && o.status == 0 && o.qos == r.qos && st'.rng == w.prng.seed(now)
      && o.ksid == st'.streams[i].ksid
      && (i < |st.streams| ==> st'.streams == st.streams && st'.minted == st.minted)
      && (i == |st.streams| ==>
            && st'.streams == st.streams + [Stream(w.uuids(st.minted), r.qos, r.source, r.destination, 0)]
            && st'.minted == st.minted + 1)
  {
    assert FindPair(st.streams, r.source, r.destination) == i;
  }

  /** CLOSE reports success for every id, and does nothing. */
  lemma {:induction false} CloseDoesNothing(w: World, st: State, r: CloseRequest)
    ensures Close(st, r) == (st, CloseResponse(0))
    ensures Step(w, st, CloseCall(r)) == (st, Closed(CloseResponse(0)))
  {
  }

  // ----- accounting --------------------------------------------------------------------------

  /** Successful GET_KEYs of a run on one stream id. */
  function ServedOn(w: World, st: State, calls: seq<Call>, ksid: Uuid): nat {
    if calls == [] then 0
    else
      var n := |calls| - 1;
      ServedOn(w, st, calls[..n], ksid) +
      if Succeeds(After(w, st, calls[..n]), calls[n]) && calls[n].get.ksid == ksid then 1 else 0
  }

  /** Successful GET_KEYs of a run. */
  function Served(w: World, st: State, calls: seq<Call>): nat {
    if calls == [] then 0
    else
      var n := |calls| - 1;
      Served(w, st, calls[..n]) + if Succeeds(After(w, st, calls[..n]), calls[n]) then 1 else 0
  }

  predicate Succeeds(st: State, call: AnyCall) {
    call.GetCall? && ReadsMetadata(st, call.get)
  }

  /** These are the calls whose response says so. */
  lemma {:induction false} SucceedsIff(w: World, st: State, call: AnyCall)
    requires Defined(st, call)
    ensures Succeeds(st, call) <==> Step(w, st, call).1.Got? && Step(w, st, call).1.gk.status == STATUS_SUCCESSFUL
    ensures Succeeds(st, call) <==> Step(w, st, call).0.streams != st.streams && call.GetCall?
  {
    if Succeeds(st, call) {
      var i := FindKsid(st.streams, call.get.ksid);
      assert Step(w, st, call).0.streams[i].currentIndex != st.streams[i].currentIndex;
    }
  }

  function IndexSum(streams: seq<Stream>): int {
    if streams == [] then 0 else IndexSum(streams[..|streams| - 1]) + streams[|streams| - 1].currentIndex
  }

  /** `n` increments of an `int` that starts at 0. */
  function Counted(n: nat): int {
    if n == 0 then 0 else Increment(Counted(n - 1))
  }

  lemma {:induction false} CountedExact(n: nat)
    requires n < 0x8000_0000
    ensures Counted(n) == n
  {
    if n > 0 { CountedExact(n - 1); }
  }

  /** What one call does to the counter of stream `k`, and where a new one starts. */
  lemma {:induction false} StepCounter(w: World, st: State, call: AnyCall, k: nat)
    requires Defined(st, call) && w.FreshIds(|st.streams|) && RegistryInvariant(w, st)
    requires k < |Step(w, st, call).0.streams|
    ensures var s := Step(w, st, call).0.streams[k];
      s.currentIndex ==
        if k == |st.streams| then 0
        else if Succeeds(st, call) && call.get.ksid == s.ksid then Increment(st.streams[k].currentIndex)
        else st.streams[k].currentIndex
  {
    if k < |st.streams| { FindKsidIs(w, st, k); }
  }

  /** A stream's counter counts the successful GET_KEYs on it, in the arithmetic of `int`. */
  lemma {:induction false} CounterCountsServed(w: World, calls: seq<Call>, k: nat)
    requires FreshRun(w, calls) && k < |Reached(w, calls).streams|
    ensures var s := Reached(w, calls).streams[k];
      && s.currentIndex == Counted(ServedOn(w, INITIAL, calls, s.ksid))
      && (ServedOn(w, INITIAL, calls, s.ksid) < 0x8000_0000 ==> s.currentIndex == ServedOn(w, INITIAL, calls, s.ksid))
  {
    var n := |calls| - 1;
    var before := Reached(w, calls[..n]);
    var s := Reached(w, calls).streams[k];
    RunKeepsRegistry(w, INITIAL, calls[..n]);
    FreshPrefix(w, calls, n);
    StepKeepsRegistry(w, before, calls[n]);
    StepCounter(w, before, calls[n], k);
    if k < |before.streams| {
      assert SameIdentity(before.streams[k], s);
      CounterCountsServed(w, calls[..n], k);
    } else {
      NewIdIsUnknown(w, before, calls[n]);
      NeverServed(w, calls[..n], s.ksid);
    }
    if ServedOn(w, INITIAL, calls, s.ksid) < 0x8000_0000 { CountedExact(ServedOn(w, INITIAL, calls, s.ksid)); }
  }

  lemma {:induction false} NewIdIsUnknown(w: World, st: State, call: Call)
    requires w.FreshIds(|st.streams| + 1) && RegistryInvariant(w, st) && |Step(w, st, call).0.streams| > |st.streams|
    ensures FindKsid(st.streams, Step(w, st, call).0.streams[|st.streams|].ksid) == |st.streams|
    ensures !Succeeds(st, call)
  {
    var n := |st.streams|;
    assert forall i: nat :: i < n ==> w.uuids(i) != w.uuids(n);
  }

  lemma {:induction false} NeverServed(w: World, calls: seq<Call>, ksid: Uuid)
    requires FindKsid(Reached(w, calls).streams, ksid) == |Reached(w, calls).streams|
    ensures ServedOn(w, INITIAL, calls, ksid) == 0
  {
    if calls != [] {
      var n := |calls| - 1;
      var before, later := Reached(w, calls[..n]), Reached(w, calls);
      RunKeepsRegistry(w, INITIAL, calls[..n]);
      StepKeepsRegistry(w, before, calls[n]);
      forall i | 0 <= i < |before.streams| ensures before.streams[i].ksid != ksid {
        assert SameIdentity(before.streams[i], later.streams[i]);
      }
      NeverServed(w, calls[..n], ksid);
    }
  }

  lemma {:induction false} IndexSumUpdate(streams: seq<Stream>, i: nat, s: Stream)
    requires i < |streams|
    ensures IndexSum(streams[i := s]) == IndexSum(streams) - streams[i].currentIndex + s.currentIndex
  {
    var n := |streams| - 1;
    if i == n {
      assert streams[i := s][..n] == streams[..n];
    } else {
      assert streams[i := s][..n] == streams[..n][i := s];
      IndexSumUpdate(streams[..n], i, s);
    }
  }

  lemma {:induction false} IndexBounds(streams: seq<Stream>, i: nat)
    requires i < |streams|
    requires forall j :: 0 <= j < |streams| ==> 0 <= streams[j].currentIndex
    ensures 0 <= IndexSum(streams[..i]) && streams[i].currentIndex <= IndexSum(streams)
  {
    var n := |streams| - 1;
    if i < n {
      assert streams[..n][..i] == streams[..i];
      IndexBounds(streams[..n], i);
    } else if n > 0 {
      assert streams[..n][..n - 1] == streams[..n - 1];
      IndexBounds(streams[..n], n - 1);
    }
  }

  ghost predicate NonNegative(streams: seq<Stream>) {
    forall j :: 0 <= j < |streams| ==> 0 <= streams[j].currentIndex
  }

  lemma {:induction false} SuccessCounts(w: World, st: State, call: Call)
    requires NonNegative(st.streams) && IndexSum(st.streams) < 0x7FFF_FFFF && Succeeds(st, call)
    ensures NonNegative(Step(w, st, call).0.streams)
    ensures IndexSum(Step(w, st, call).0.streams) == IndexSum(st.streams) + 1
  {
    var later := Step(w, st, call).0.streams;
    var i := FindKsid(st.streams, call.get.ksid);
    IndexBounds(st.streams, i);
    IndexSumUpdate(st.streams, i, later[i]);
  }

  /** Below `int` overflow, the counters of the registry add up to the GET_KEYs served. */
  lemma {:induction false} CountersAddUp(w: World, calls: seq<Call>)
    requires Served(w, INITIAL, calls) < 0x8000_0000
    ensures NonNegative(Reached(w, calls).streams)
    ensures IndexSum(Reached(w, calls).streams) == Served(w, INITIAL, calls)
  {
    if calls != [] {
      var n := |calls| - 1;
      var before := Reached(w, calls[..n]);
      CountersAddUp(w, calls[..n]);
      if Succeeds(before, calls[n]) {
        SuccessCounts(w, before, calls[n]);
      } else {
        OthersKeepCounters(w, before, calls[n]);
      }
    }
  }

  lemma {:induction false} OthersKeepCounters(w: World, st: State, call: Call)
    requires NonNegative(st.streams) && !Succeeds(st, call)
    ensures NonNegative(Step(w, st, call).0.streams)
    ensures IndexSum(Step(w, st, call).0.streams) == IndexSum(st.streams)
  {
    var later := Step(w, st, call).0.streams;
    if |later| > |st.streams| { assert later[..|st.streams|] == st.streams; }
  }

  // ----- out-parameters ----------------------------------------------------------------------

  /** What a GET_KEY caller finds in its variables afterwards. */
  datatype GetKeyOuts = GetKeyOuts(status: uint32, index: uint32, key: Blob, metadata: Blob)

  /** The server function leaves the key buffer alone when there is no stream. */
  function ServerGetKeyOuts(w: World, st: State, r: GetKeyRequest, key: Blob): GetKeyOuts
    requires ReadsMetadata(st, r) ==> |r.metadata| >= 2
  {
    var o := GetKey(w, st, r).1;
    GetKeyOuts(o.status, o.index, if o.status == STATUS_SUCCESSFUL then o.key else key, o.metadata)
  }

  /** The stub assigns every field of the response. */
  function StubGetKeyOuts(o: GetKeyResponse): GetKeyOuts {
    GetKeyOuts(o.status, o.index, o.key, o.metadata)
  }

  /** Stub and server function agree on all out-parameters unless a failing call found a key in the buffer. */
  lemma OutParametersAgreeIff(w: World, st: State, r: GetKeyRequest, key: Blob)
    requires ReadsMetadata(st, r) ==> |r.metadata| >= 2
    ensures StubGetKeyOuts(GetKey(w, st, r).1) == ServerGetKeyOuts(w, st, r, key) <==>
      ReadsMetadata(st, r) || key == []
  {
  }
}
