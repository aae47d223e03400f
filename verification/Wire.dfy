/**
 One remote call as a function from bytes to bytes: the client stub frames its request, the servlet
 receives, decodes, serves and frames a response, and the stub receives and decodes that. The
 theorems say when all this is the same as calling the server.
 */
module Wire {
  import opened Machine
  import opened Models
  import opened Codec
  import opened Layout
  import opened Sizes
  import opened Transport
  import opened KeyServer

  // ----- frames ------------------------------------------------------------------------------

  function Service(m: Message): byte {
    match m
    case OpenReq(_) => OPEN_CONNECT_REQUEST
    case OpenResp(_) => OPEN_CONNECT_RESPONSE
    case GetReq(_) => GET_KEY_REQUEST
    case GetResp(_) => GET_KEY_RESPONSE
    case CloseReq(_) => CLOSE_REQUEST
    case CloseResp(_) => CLOSE_RESPONSE
    case Head(_) => 0
  }

  /** Version 2.1.1 with service and payload size, and the body behind it. */
  function FrameOf(service: byte, body: bytes): bytes {
    EncHeader(MakeHeader(service, PayloadSize(|body|))) + body
  }

  function HeaderOf(m: Message): Header {
    MakeHeader(Service(m), PayloadSize(|Enc(m)|))
  }

  function Frame(m: Message): bytes {
    FrameOf(Service(m), Enc(m))
  }

  /** A frame is version 2.1.1, the code of the service, the payload size in network order, and the payload. */
  lemma FrameLayout(m: Message)
    requires !m.Head? && |Enc(m)| < WORD
    ensures var f := Frame(m);
      && |f| == 8 + |Enc(m)| && f[0] == 2 && f[1] == 1 && f[2] == 1
      && f[3] == (match m
                  case OpenReq(_) => 2
                  case OpenResp(_) => 3
                  case GetReq(_) => 4
                  case GetResp(_) => 5
                  case CloseReq(_) => 8
                  case CloseResp(_) => 9
                  case Head(_) => 0)
      && WordIsAt(|Enc(m)|, f, 4) && IsAt(Enc(m), f, 8)
  {
    HeaderLayout(HeaderOf(m));
    WordGrows(|Enc(m)|, EncHeader(HeaderOf(m)), 4, Enc(m));
    AtEnd(EncHeader(HeaderOf(m)), Enc(m));
  }

  /** No size calculator aborts or wraps, and the length survives the `int` of `SSL_write`. */
  predicate Sendable(m: Message) {
    && HEADER_SIZE + |Enc(m)| < 0x8000_0000
    && (m.OpenReq? ==> |m.openReq.qos.mimetype| < MIMETYPE_MAX)
    && (m.OpenResp? ==> |m.openResp.qos.mimetype| < MIMETYPE_MAX)
  }

  /** The frame goes into one TLS record. */
  predicate OneRecord(m: Message) {
    HEADER_SIZE + |Enc(m)| <= RECORD_MAX
  }

  datatype Arrival = Lost | Arrival(header: Header, payload: bytes)

  /** Both receivers read a header and then as many bytes as it announces. */
  function RecvFrame(records: seq<bytes>, junk: bytes, junk': bytes): Arrival
    requires NonEmptyRecords(records)
  {
    RecvKeepsRecords(records, Junk(junk, HEADER_SIZE), 0);
    match Recv(records, HEADER_SIZE, junk)
    case PeerClosed => Lost
    case Received(h, rest) =>
      match DecHeader(h)
      case Malformed => Lost
      case Decoded(header, _) =>
        match Recv(rest, header.payloadSize, junk')
        case PeerClosed => Lost
        case Received(payload, _) => Arrival(header, payload)
  }

  lemma {:induction false} RecvKeepsRecords(records: seq<bytes>, buf: bytes, got: nat)
    requires got <= |buf| && NonEmptyRecords(records)
    ensures RecvLoop(records, buf, got).Received? ==> NonEmptyRecords(RecvLoop(records, buf, got).rest)
    decreases |buf| - got
  {
    if got < |buf| {
      ReadConsumes(records, |buf| - got);
      var r := Read(records, |buf| - got);
      if r.chunk != [] && |buf| != RECORD_MAX {
        RecvKeepsRecords(r.rest, Overlay(buf, r.chunk), got + |r.chunk|);
      }
    }
  }

  function ArrivalOf(header: Header, received: Received): Arrival {
    match received
    case PeerClosed => Lost
    case Received(payload, _) => Arrival(header, payload)
  }

  /** What is left of a frame after its header has been read. */
  function BodyRecords(h: Header, body: bytes): seq<bytes> {
    Read(Records(EncHeader(h) + body), HEADER_SIZE).rest
  }

  lemma BodyRecordsShape(h: Header, body: bytes)
    ensures var records := BodyRecords(h, body);
      && NonEmptyRecords(records) && Flatten(records) == body
      && (body != [] ==> records != [])
      && (body != [] ==> |records[0]| == if HEADER_SIZE + |body| <= RECORD_MAX then |body| else RECORD_MAX - HEADER_SIZE)
  {
    var f := EncHeader(h) + body;
    var records := Records(f);
    RecordsFlatten(f);
    ReadConsumes(records, HEADER_SIZE);
    var r := Read(records, HEADER_SIZE);
    assert r.chunk == f[..HEADER_SIZE] && f[HEADER_SIZE..] == body;
    assert Flatten(r.rest) == (r.chunk + Flatten(r.rest))[HEADER_SIZE..];
  }

  lemma HeaderArrives(h: Header, body: bytes, junk: bytes)
    ensures Recv(Records(EncHeader(h) + body), HEADER_SIZE, junk) == Received(EncHeader(h), BodyRecords(h, body))
  {
    var f := EncHeader(h) + body;
    var buf := Junk(junk, HEADER_SIZE);
    RecordsFlatten(f);
    FirstReadSuffices(Records(f), HEADER_SIZE, buf);
    assert Junk(buf, HEADER_SIZE) == buf;
    assert f[..HEADER_SIZE] == EncHeader(h);
  }

  lemma HeaderAlone(h: Header)
    ensures DecHeader(EncHeader(h)) == Decoded(h, [])
  {
    HeaderRoundTrip(h, []);
    assert EncHeader(h) + [] == EncHeader(h);
  }

  /** The header always gets through, so the arrival hangs on the body. */
  lemma FrameReduces(h: Header, body: bytes, junk: bytes, junk': bytes)
    ensures NonEmptyRecords(BodyRecords(h, body))
    ensures RecvFrame(Records(EncHeader(h) + body), junk, junk') ==
      ArrivalOf(h, Recv(BodyRecords(h, body), h.payloadSize, junk'))
  {
    BodyRecordsShape(h, body);
    HeaderArrives(h, body, junk);
    HeaderAlone(h);
  }

  /** A body arrives intact over whatever junk if its frame fits one record. */
  lemma FitBodyArrives(h: Header, body: bytes, junk': bytes)
    requires body != [] && HEADER_SIZE + |body| <= RECORD_MAX
    ensures NonEmptyRecords(BodyRecords(h, body))
    ensures var r := Recv(BodyRecords(h, body), |body|, junk');
      r.Received? && r.data == body
  {
    var n, records := |body|, BodyRecords(h, body);
    BodyRecordsShape(h, body);
    var buf := Junk(junk', n);
    FirstReadSuffices(records, n, buf);
    assert Junk(buf, n) == buf;
    assert body[..n] == body;
  }

  lemma FitArrives(h: Header, body: bytes, junk: bytes, junk': bytes)
    requires h.payloadSize == |body| && body != [] && HEADER_SIZE + |body| <= RECORD_MAX
    ensures RecvFrame(Records(EncHeader(h) + body), junk, junk') == Arrival(h, body)
  {
    FrameReduces(h, body, junk, junk');
    FitBodyArrives(h, body, junk');
  }

  /** A frame that does not fit arrives with a wrong body, or not at all, over some junk. */
  lemma UnfitSpoils(h: Header, body: bytes) returns (junk': bytes)
    requires h.payloadSize == |body| && body != [] && HEADER_SIZE + |body| > RECORD_MAX
    ensures var a := RecvFrame(Records(EncHeader(h) + body), [], junk');
      a.Arrival? ==> a.header == h && |a.payload| <= |body| && a.payload != body
  {
    var n, records := |body|, BodyRecords(h, body);
    junk' := JunkEndingNot(n, body[n - 1]);
    BodyRecordsShape(h, body);
    FrameReduces(h, body, [], junk');
    ShortFirstReadFails(records, n, junk');
    assert body[..n] == body;
    RecvNeverLonger(records, Junk(junk', n), 0);
  }

  lemma {:induction false} RecvNeverLonger(records: seq<bytes>, buf: bytes, got: nat)
    requires got <= |buf| && NonEmptyRecords(records)
    ensures RecvLoop(records, buf, got).Received? ==> |RecvLoop(records, buf, got).data| <= |buf|
    decreases |buf| - got
  {
    if got < |buf| {
      ReadConsumes(records, |buf| - got);
      var r := Read(records, |buf| - got);
      if r.chunk != [] && |buf| != RECORD_MAX {
        RecvNeverLonger(r.rest, Overlay(buf, r.chunk), got + |r.chunk|);
      }
    }
  }

  // ----- the exchange ------------------------------------------------------------------------

  function RequestOf(call: AnyCall): Message {
    match call
    case OpenCall(r, _) => OpenReq(r)
    case GetCall(r) => GetReq(r)
    case CloseCall(r) => CloseReq(r)
  }

  /** What the clock of the server shows during the call; only OPEN_CONNECT looks at it. */
  function Clock(call: AnyCall): uint32 {
    match call
    case OpenCall(_, now) => now
    case GetCall(_) => 0
    case CloseCall(_) => 0
  }

  function ResponseOf(o: Outcome): Message {
    match o
    case Opened(r) => OpenResp(r)
    case Got(r) => GetResp(r)
    case Closed(r) => CloseResp(r)
  }

  /** The servlet decodes by the service of the header; `None` is input outside the protocol. */
  function Understand(header: Header, payload: bytes, now: uint32): Option<AnyCall> {
    if header.service == OPEN_CONNECT_REQUEST then
      match DecOpenRequest(payload)
      case Malformed => None
      case Decoded(r, _) => Some(OpenCall(r, now))
    else if header.service == GET_KEY_REQUEST then
      match DecGetKeyRequest(payload)
      case Malformed => None
      case Decoded(r, _) => Some(GetCall(r))
    else if header.service == CLOSE_REQUEST then
      match DecCloseRequest(payload)
      case Malformed => None
      case Decoded(r, _) => Some(CloseCall(r))
    else None
  }

  /** The stub decodes the response to the call it made. */
  function Interpret(call: AnyCall, payload: bytes): Option<Outcome> {
    match call
    case OpenCall(_, _) =>
      (match DecOpenResponse(payload)
       case Malformed => None
       case Decoded(r, _) => Some(Opened(r)))
    case GetCall(_) =>
      (match DecGetKeyResponse(payload)
       case Malformed => None
       case Decoded(r, _) => Some(Got(r)))
    case CloseCall(_) =>
      (match DecCloseResponse(payload)
       case Malformed => None
       case Decoded(r, _) => Some(Closed(r)))
  }

  /** The junk in the four receive buffers of one exchange. */
  datatype Stack = Stack(serverHeader: bytes, serverPayload: bytes, clientHeader: bytes, clientPayload: bytes)

  /** The call as the servlet understands it, from the frame the stub sends. */
  function Understood(call: AnyCall, stack: Stack): Option<AnyCall> {
    match RecvFrame(Records(Frame(RequestOf(call))), stack.serverHeader, stack.serverPayload)
    case Lost => None
    case Arrival(header, payload) => Understand(header, payload, Clock(call))
  }

  /** The outcome as the stub reports it, from the frame the servlet sends. */
  function Reported(call: AnyCall, o: Outcome, stack: Stack): Option<Outcome> {
    match RecvFrame(Records(Frame(ResponseOf(o))), stack.clientHeader, stack.clientPayload)
    case Lost => None
    case Arrival(_, payload) => Interpret(call, payload)
  }

  /** The call the servlet understood, the state it left, and the outcome the stub reports. */
  datatype Exchange = Broken | Exchange(understood: AnyCall, state: State, outcome: Outcome)

  function CallOverWire(w: World, st: State, call: AnyCall, stack: Stack): Exchange {
    match Understood(call, stack)
    case None => Broken
    case Some(understood) =>
      if !Defined(st, understood) then Broken else
      var (st', o) := Step(w, st, understood);
      match Reported(call, o, stack)
      case None => Broken
      case Some(outcome) => Exchange(understood, st', outcome)
  }

  /** What an exchange should be: the call itself, made on the server. */
  function DirectCall(w: World, st: State, call: AnyCall): Exchange
    requires Defined(st, call)
  {
    var (st', o) := Step(w, st, call);
    Exchange(call, st', o)
  }

  ghost predicate Sized(w: World, st: State, call: AnyCall)
    requires Defined(st, call)
  {
    Sendable(RequestOf(call)) && Sendable(ResponseOf(Step(w, st, call).1))
  }

  predicate Fits(w: World, st: State, call: AnyCall)
    requires Defined(st, call)
  {
    OneRecord(RequestOf(call)) && OneRecord(ResponseOf(Step(w, st, call).1))
  }

  lemma EncNonEmpty(m: Message)
    ensures Enc(m) != []
  {
  }

  lemma FrameFacts(m: Message)
    requires OneRecord(m)
    ensures HeaderOf(m).payloadSize == |Enc(m)| && Enc(m) != [] && Frame(m) == EncHeader(HeaderOf(m)) + Enc(m)
  {
    EncNonEmpty(m);
  }

  lemma FittingMessageArrives(m: Message, junk: bytes, junk': bytes)
    requires OneRecord(m)
    ensures RecvFrame(Records(Frame(m)), junk, junk') == Arrival(HeaderOf(m), Enc(m))
  {
    EncNonEmpty(m);
    FitArrives(HeaderOf(m), Enc(m), junk, junk');
  }

  lemma UnfitMessageSpoils(m: Message) returns (junk': bytes)
    requires |Enc(m)| < WORD && !OneRecord(m)
    ensures var a := RecvFrame(Records(Frame(m)), [], junk');
      a.Arrival? ==> a.header == HeaderOf(m) && |a.payload| <= |Enc(m)| && a.payload != Enc(m)
  {
    EncNonEmpty(m);
    junk' := UnfitSpoils(HeaderOf(m), Enc(m));
  }

  lemma UnderstandInverse(call: AnyCall, payload: bytes)
    requires |payload| <= |Enc(RequestOf(call))|
    ensures Understand(HeaderOf(RequestOf(call)), payload, Clock(call)) == Some(call) <==> payload == Enc(RequestOf(call))
  {
    var m := RequestOf(call);
    ExactPayload(m, payload);
    match call
    case OpenCall(r, _) =>
    case GetCall(r) =>
    case CloseCall(r) =>
  }

  /** `o` is an outcome of the operation that `call` calls. */
  predicate Answers(call: AnyCall, o: Outcome) {
    && (call.OpenCall? <==> o.Opened?)
    && (call.GetCall? <==> o.Got?)
    && (call.CloseCall? <==> o.Closed?)
  }

  lemma StepAnswers(w: World, st: State, call: AnyCall)
    requires Defined(st, call)
    ensures Answers(call, Step(w, st, call).1)
  {
  }

  lemma InterpretInverse(call: AnyCall, o: Outcome, payload: bytes)
    requires Answers(call, o) && |payload| <= |Enc(ResponseOf(o))|
    ensures Interpret(call, payload) == Some(o) <==> payload == Enc(ResponseOf(o))
  {
    var m := ResponseOf(o);
    ExactPayload(m, payload);
    match o
    case Opened(r) =>
    case Got(r) =>
    case Closed(r) =>
  }

  /** The servlet understands the call over every junk exactly when the request fits one record. */
  lemma UnderstoodIff(call: AnyCall)
    requires Sendable(RequestOf(call))
    ensures (forall stack: Stack :: Understood(call, stack) == Some(call)) <==> OneRecord(RequestOf(call))
  {
    var m := RequestOf(call);
    if OneRecord(m) {
      forall stack: Stack ensures Understood(call, stack) == Some(call) {
        FittingMessageArrives(m, stack.serverHeader, stack.serverPayload);
        UnderstandInverse(call, Enc(m));
      }
    } else {
      var junk := UnfitMessageSpoils(m);
      var a := RecvFrame(Records(Frame(m)), [], junk);
      if a.Arrival? { UnderstandInverse(call, a.payload); }
      assert Understood(call, Stack([], junk, [], [])) != Some(call);
    }
  }

  /** The stub reports the outcome over every junk exactly when the response fits one record. */
  lemma ReportedIff(call: AnyCall, o: Outcome)
    requires Answers(call, o) && Sendable(ResponseOf(o))
    ensures (forall stack: Stack :: Reported(call, o, stack) == Some(o)) <==> OneRecord(ResponseOf(o))
  {
    var m := ResponseOf(o);
    if OneRecord(m) {
      forall stack: Stack ensures Reported(call, o, stack) == Some(o) {
        FittingMessageArrives(m, stack.clientHeader, stack.clientPayload);
        InterpretInverse(call, o, Enc(m));
      }
    } else {
      var junk := UnfitMessageSpoils(m);
      var a := RecvFrame(Records(Frame(m)), [], junk);
      if a.Arrival? { InterpretInverse(call, o, a.payload); }
      assert Reported(call, o, Stack([], [], [], junk)) != Some(o);
    }
  }

  lemma FittingCallIsDirect(w: World, st: State, call: AnyCall, stack: Stack)
    requires Defined(st, call) && Sized(w, st, call) && Fits(w, st, call)
    ensures CallOverWire(w, st, call, stack) == DirectCall(w, st, call)
  {
    StepAnswers(w, st, call);
    UnderstoodIff(call);
    ReportedIff(call, Step(w, st, call).1);
    assert Understood(call, stack) == Some(call);
  }

  /**
   Transparency of one call: the servlet understands the call that was made, leaves the state that
   the call leaves and the stub reports its outcome, over every junk, exactly when request and
   response each fit one record.
   */
  lemma TransparentIff(w: World, st: State, call: AnyCall)
    requires Defined(st, call) && Sized(w, st, call)
    ensures (forall stack: Stack :: CallOverWire(w, st, call, stack) == DirectCall(w, st, call)) <==> Fits(w, st, call)
  {
    if Fits(w, st, call) {
      forall stack: Stack ensures CallOverWire(w, st, call, stack) == DirectCall(w, st, call) {
        FittingCallIsDirect(w, st, call, stack);
      }
    } else {
      StepAnswers(w, st, call);
      UnderstoodIff(call);
      ReportedIff(call, Step(w, st, call).1);
      if !OneRecord(RequestOf(call)) {
        var stack: Stack :| Understood(call, stack) != Some(call);
        assert CallOverWire(w, st, call, stack) != DirectCall(w, st, call);
      } else {
        var stack: Stack :| Reported(call, Step(w, st, call).1, stack) != Some(Step(w, st, call).1);
        assert Understood(call, stack) == Some(call);
        assert CallOverWire(w, st, call, stack) != DirectCall(w, st, call);
      }
    }
  }

  // ----- what a caller can check -------------------------------------------------------------

  /** The bounds on the arguments, and for GET_KEY on the stream, under which both frames fit. */
  predicate WithinBounds(w: World, st: State, call: AnyCall) {
    match call
    case OpenCall(r, _) =>
      && |r.qos.mimetype| <= 255
      && |r.source| + |r.destination| + |r.qos.mimetype| <= 16329
    case GetCall(r) =>
      && |r.metadata| <= 16352
      && (var i := FindKsid(st.streams, r.ksid);
          i < |st.streams| ==> st.streams[i].qos.keyChunkSize + |w.deviceInfo| + 1 <= 16360)
    case CloseCall(_) => true
  }

  lemma BoundsDecide(w: World, st: State, call: AnyCall)
    requires Defined(st, call)
    ensures WithinBounds(w, st, call) <==>
      Sendable(RequestOf(call)) && Sendable(ResponseOf(Step(w, st, call).1)) && Fits(w, st, call)
  {
    match call
    case OpenCall(r, now) => QosLength(r.qos);
    case GetCall(r) =>
    case CloseCall(r) =>
  }

  // ----- whole runs --------------------------------------------------------------------------

  /** The server state after a run of remote calls. */
  function WireAfter(w: World, st: State, calls: seq<Call>, stacks: seq<Stack>): Option<State>
    requires |stacks| == |calls|
    decreases |calls|
  {
    if calls == [] then Some(st)
    else
      var n := |calls| - 1;
      match WireAfter(w, st, calls[..n], stacks[..n])
      case None => None
      case Some(before) =>
        match CallOverWire(w, before, calls[n], stacks[n])
        case Broken => None
        case Exchange(_, st', _) => Some(st')
  }

  /** What call `i` of a run of remote calls reports. */
  function WireOutcomeAt(w: World, st: State, calls: seq<Call>, stacks: seq<Stack>, i: nat): Option<Outcome>
    requires |stacks| == |calls| && i < |calls|
  {
    match WireAfter(w, st, calls[..i], stacks[..i])
    case None => None
    case Some(before) =>
      match CallOverWire(w, before, calls[i], stacks[i])
      case Broken => None
      case Exchange(_, _, o) => Some(o)
  }

  ghost predicate AllWithinBounds(w: World, st: State, calls: seq<Call>) {
    forall i :: 0 <= i < |calls| ==> WithinBounds(w, After(w, st, calls[..i]), calls[i])
  }

  lemma {:induction false} RunStateIsDirect(w: World, st: State, calls: seq<Call>, stacks: seq<Stack>)
    requires |stacks| == |calls| && AllWithinBounds(w, st, calls)
    ensures WireAfter(w, st, calls, stacks) == Some(After(w, st, calls))
    decreases |calls|
  {
    if calls != [] {
      var n := |calls| - 1;
      forall i | 0 <= i < n ensures WithinBounds(w, After(w, st, calls[..n][..i]), calls[..n][i]) {
        assert calls[..n][..i] == calls[..i];
      }
      RunStateIsDirect(w, st, calls[..n], stacks[..n]);
      var before := After(w, st, calls[..n]);
      BoundsDecide(w, before, calls[n]);
      FittingCallIsDirect(w, before, calls[n], stacks[n]);
    }
  }

  lemma AllWithinBoundsPrefix(w: World, st: State, calls: seq<Call>, i: nat)
    requires i <= |calls| && AllWithinBounds(w, st, calls)
    ensures AllWithinBounds(w, st, calls[..i])
  {
    forall j | 0 <= j < i ensures WithinBounds(w, After(w, st, calls[..i][..j]), calls[..i][j]) {
      assert calls[..i][..j] == calls[..j];
    }
  }

  /** Transparency of runs: remote calls leave the states and report the outcomes of direct calls. */
  lemma RunIsTransparent(w: World, st: State, calls: seq<Call>, stacks: seq<Stack>)
    requires |stacks| == |calls| && AllWithinBounds(w, st, calls)
    ensures WireAfter(w, st, calls, stacks) == Some(After(w, st, calls))
    ensures forall i: nat :: i < |calls| ==>
      WireOutcomeAt(w, st, calls, stacks, i) == Some(OutcomeAt(w, st, calls, i))
  {
    RunStateIsDirect(w, st, calls, stacks);
    forall i: nat | i < |calls|
      ensures WireOutcomeAt(w, st, calls, stacks, i) == Some(OutcomeAt(w, st, calls, i))
    {
      AllWithinBoundsPrefix(w, st, calls, i);
      RunStateIsDirect(w, st, calls[..i], stacks[..i]);
      var before := After(w, st, calls[..i]);
      BoundsDecide(w, before, calls[i]);
      FittingCallIsDirect(w, before, calls[i], stacks[i]);
    }
  }

  /** Two applications that talk to the server over the network end up with agreeing keys. */
  lemma RemoteTwoPartyAgreement(w: World, calls: seq<Call>, stacks: seq<Stack>, source: CString, destination: CString,
                                openA: nat, openB: nat, getA: nat, getB: nat)
    requires FreshRun(w, calls) && |stacks| == |calls| && AllWithinBounds(w, INITIAL, calls)
    requires openA < getA < |calls| && openB < getB < |calls|
    requires OpensPair(calls[openA], source, destination) && OpensPair(calls[openB], source, destination)
    requires calls[getA].GetCall? && calls[getB].GetCall? && calls[getA].get.index == calls[getB].get.index
    requires WireOutcomeAt(w, INITIAL, calls, stacks, openA).Some? && WireOutcomeAt(w, INITIAL, calls, stacks, openB).Some?
    requires var o := WireOutcomeAt(w, INITIAL, calls, stacks, openA).value; o.Opened? && calls[getA].get.ksid == o.oc.ksid
    requires var o := WireOutcomeAt(w, INITIAL, calls, stacks, openB).value; o.Opened? && calls[getB].get.ksid == o.oc.ksid
    ensures calls[getA].get.ksid == calls[getB].get.ksid
    ensures var a, b := WireOutcomeAt(w, INITIAL, calls, stacks, getA), WireOutcomeAt(w, INITIAL, calls, stacks, getB);
      var ma, mb := calls[getA].get.metadata, calls[getB].get.metadata;
      && a.Some? && a.value.Got? && b.Some? && b.value.Got?
      && KeysAgree(a.value.gk.key, ma[0], ma[1], b.value.gk.key, mb[0], mb[1])
  {
    RunIsTransparent(w, INITIAL, calls, stacks);
    TwoPartyAgreement(w, calls, source, destination, openA, openB, getA, getB);
  }

  /** What bounds a meeting is bounds on its arguments. */
  lemma {:induction false} MeetingWithinBounds(w: World, r: OpenRequest, index: uint32, a: Blob, b: Blob)
    requires 2 <= |a| <= 16352 && 2 <= |b| <= 16352 && |r.qos.mimetype| <= 255
    requires |r.source| + |r.destination| + |r.qos.mimetype| <= 16329
    requires r.qos.keyChunkSize + |w.deviceInfo| + 1 <= 16360
    ensures AllWithinBounds(w, INITIAL, Meeting(w, r, index, a, b))
  {
    MeetingStates(w, r, index, a, b);
  }

  /** Two applications that meet over the network hold agreeing keys. */
  lemma {:induction false} RemoteMeetingAgrees(w: World, r: OpenRequest, index: uint32, a: Blob, b: Blob, stacks: seq<Stack>)
    requires w.FreshIds(1) && |stacks| == 4
    requires 2 <= |a| <= 16352 && 2 <= |b| <= 16352 && |r.qos.mimetype| <= 255
    requires |r.source| + |r.destination| + |r.qos.mimetype| <= 16329
    requires r.qos.keyChunkSize + |w.deviceInfo| + 1 <= 16360
    ensures var calls := Meeting(w, r, index, a, b);
      var x, y := WireOutcomeAt(w, INITIAL, calls, stacks, 2), WireOutcomeAt(w, INITIAL, calls, stacks, 3);
      && x.Some? && x.value.Got? && y.Some? && y.value.Got?
      && KeysAgree(x.value.gk.key, a[0], a[1], y.value.gk.key, b[0], b[1])
  {
    var calls := Meeting(w, r, index, a, b);
    MeetingWithinBounds(w, r, index, a, b);
    MeetingAgrees(w, r, index, a, b);
    RunIsTransparent(w, INITIAL, calls, stacks);
    RemoteTwoPartyAgreement(w, calls, stacks, r.source, r.destination, 0, 1, 2, 3);
  }
}
