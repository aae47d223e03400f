/**
 The accept loop of the server: one connection after the other until a client orders it to stop.
 */
module AcceptLoop {
  import opened Machine
  import opened Models
  import opened Memory
  import opened KeyServer
  import opened Registry
  import opened Transport
  import opened Wire
  import opened Servlet

  /** A connection whose TLS handshake failed is closed unserved. */
  datatype Attempt = HandshakeFailed | Accepted(inc: Arriving)

  /** The requests of a run carry key type and role. */
  type Arriving = i: Incoming | i.Request? && i.call.GetCall? ==> |i.call.get.metadata| >= 2
    witness Request(CloseCall(CloseRequest(NIL_UUID)))

  predicate IsRequest(a: Attempt) {
    a.Accepted? && a.inc.Request?
  }

  /** The server still listens after these connections. */
  predicate Up(attempts: seq<Attempt>) {
    attempts == [] ||
    var n := |attempts| - 1;
    Up(attempts[..n]) && !(attempts[n].Accepted? && attempts[n].inc.Shutdown?)
  }

  /** The server listens until the first order to stop, and does not come back. */
  lemma {:induction false} UpIff(attempts: seq<Attempt>)
    ensures Up(attempts) <==> forall i :: 0 <= i < |attempts| ==> !(attempts[i].Accepted? && attempts[i].inc.Shutdown?)
  {
    if attempts != [] {
      var init := attempts[..|attempts| - 1];
      UpIff(init);
      assert forall i :: 0 <= i < |init| ==> init[i] == attempts[i];
    }
  }

  /** The requests among them that are served. */
  function Calls(attempts: seq<Attempt>): seq<Call> {
    if attempts == [] then []
    else
      var n := |attempts| - 1;
      if Up(attempts[..n]) && IsRequest(attempts[n]) then Calls(attempts[..n]) + [attempts[n].inc.call]
      else Calls(attempts[..n])
  }

  /** The state in which connection `i` is served. */
  function StateAt(w: World, st: State, attempts: seq<Attempt>, i: nat): State
    requires i <= |attempts|
  {
    After(w, st, Calls(attempts[..i]))
  }

  /** What goes back on connection `i`. */
  function Sent(w: World, st: State, attempts: seq<Attempt>, i: nat): seq<bytes>
    requires i < |attempts|
  {
    if Up(attempts[..i]) && IsRequest(attempts[i]) then
      Records(Frame(ResponseOf(Step(w, StateAt(w, st, attempts, i), attempts[i].inc.call).1)))
    else []
  }

  lemma {:induction false} NothingAfterShutdown(attempts: seq<Attempt>, i: nat)
    requires i <= |attempts| && !Up(attempts[..i])
    ensures !Up(attempts) && Calls(attempts) == Calls(attempts[..i])
  {
    if i < |attempts| {
      var n := |attempts| - 1;
      assert attempts[..n][..i] == attempts[..i];
      NothingAfterShutdown(attempts[..n], i);
    } else {
      assert attempts[..i] == attempts;
    }
  }

  lemma CallsStep(attempts: seq<Attempt>, i: nat)
    requires i < |attempts| && Up(attempts[..i])
    ensures Up(attempts[..i + 1]) == !(attempts[i].Accepted? && attempts[i].inc.Shutdown?)
    ensures Calls(attempts[..i + 1]) ==
      if IsRequest(attempts[i]) then Calls(attempts[..i]) + [attempts[i].inc.call] else Calls(attempts[..i])
  {
    assert attempts[..i + 1][..i] == attempts[..i];
  }

  /** While the server is up, every request is served, in order, and nothing else is. */
  lemma {:induction false} CallsAre(attempts: seq<Attempt>, calls: seq<Call>)
    requires Up(attempts) && |attempts| == |calls|
    requires forall i :: 0 <= i < |attempts| ==> IsRequest(attempts[i]) && attempts[i].inc.call == calls[i]
    ensures Calls(attempts) == calls
  {
    if attempts != [] {
      var n := |attempts| - 1;
      CallsAre(attempts[..n], calls[..n]);
      assert calls == calls[..n] + [calls[n]];
    }
  }

  lemma AfterStep(w: World, st: State, calls: seq<Call>, call: Call)
    ensures After(w, st, calls + [call]) == Step(w, After(w, st, calls), call).0
    ensures Served(w, st, calls + [call]) == Served(w, st, calls) + if Succeeds(After(w, st, calls), call) then 1 else 0
  {
    assert (calls + [call])[..|calls|] == calls;
  }

  /** Growth of the heap over a run: four blocks to a new stream, one to a successful GET_KEY. */
  function HeapGrowth(w: World, st: State, calls: seq<Call>): int {
    4 * (|After(w, st, calls).streams| - |st.streams|) + Served(w, st, calls)
  }

  lemma HeapGrowthStep(w: World, st: State, calls: seq<Call>, call: Call)
    ensures HeapGrowth(w, st, calls + [call]) == HeapGrowth(w, st, calls) + Growth(w, After(w, st, calls), call)
  {
    AfterStep(w, st, calls, call);
  }

  /** What one served connection adds to the account of a run. */
  lemma AccountStep(w: World, st: State, attempts: seq<Attempt>, i: nat)
    requires i < |attempts| && Up(attempts[..i])
    ensures var before, a := StateAt(w, st, attempts, i), attempts[i];
      if IsRequest(a) then
        && StateAt(w, st, attempts, i + 1) == Step(w, before, a.inc.call).0
        && HeapGrowth(w, st, Calls(attempts[..i + 1])) ==
           HeapGrowth(w, st, Calls(attempts[..i])) + Growth(w, before, a.inc.call)
        && Sent(w, st, attempts, i) == Records(Frame(ResponseOf(Step(w, before, a.inc.call).1)))
      else
        && StateAt(w, st, attempts, i + 1) == before
        && HeapGrowth(w, st, Calls(attempts[..i + 1])) == HeapGrowth(w, st, Calls(attempts[..i]))
        && Sent(w, st, attempts, i) == []
  {
    CallsStep(attempts, i);
    if IsRequest(attempts[i]) {
      AfterStep(w, st, Calls(attempts[..i]), attempts[i].inc.call);
      HeapGrowthStep(w, st, Calls(attempts[..i]), attempts[i].inc.call);
    }
  }

  /** Connection `i` brings what `attempts[i]` says, and nothing has been sent on it yet. */
  ghost predicate Ready(conn: Connection, a: Attempt)
    reads conn.toServer, conn.toClient
  {
    conn.toClient.records == [] && (a.Accepted? ==> Carries(conn.toServer.records, a.inc))
  }

  ghost predicate SharesNoPipe(conns: seq<Connection>, i: nat)
    requires i < |conns|
  {
    && conns[i].toServer != conns[i].toClient
    && forall j :: 0 <= j < |conns| && j != i ==>
         && conns[j].toServer != conns[i].toServer && conns[j].toServer != conns[i].toClient
         && conns[j].toClient != conns[i].toServer && conns[j].toClient != conns[i].toClient
  }

  ghost predicate AnswerableAt(w: World, st: State, attempts: seq<Attempt>, i: nat)
    requires i < |attempts|
  {
    Up(attempts[..i]) && IsRequest(attempts[i]) ==>
      Sendable(ResponseOf(Step(w, StateAt(w, st, attempts, i), attempts[i].inc.call).1))
  }

  /** One turn of the loop. */
  method Turn(server: Server, conn: Connection, handshake: bool, now: uint32, ghost a: Attempt) returns (finished: bool)
    requires server.Valid() && conn.toServer != conn.toClient && Ready(conn, a)
    requires handshake == a.Accepted?
    requires IsRequest(a) ==> Answerable(server, a.inc) && (a.inc.call.OpenCall? ==> now == a.inc.call.now)
    modifies server, server.heap, server.gen, server.list, server.list.m.repr, conn.toServer, conn.toClient
    ensures server.Valid()
    ensures forall n :: n in server.list.m.repr ==> n in old(server.list.m.repr) || fresh(n)
    ensures finished == (a.Accepted? && a.inc.Shutdown?)
    ensures !IsRequest(a) ==>
      server.Value() == old(server.Value()) && server.heap.live == old(server.heap.live) && conn.toClient.records == []
    ensures IsRequest(a) ==>
      var (st, o) := Step(server.world, old(server.Value()), a.inc.call);
      && server.Value() == st && conn.toClient.records == Records(Frame(ResponseOf(o)))
      && |server.heap.live| == |old(server.heap.live)| + Growth(server.world, old(server.Value()), a.inc.call)
  {
    finished := false;
    if handshake {
      finished := ServeConnection(server, conn, now, a.inc);
    }
  }

  /** Turn `i` of a run that started in state `st`. */
  method TurnAt(server: Server, conn: Connection, handshake: bool, now: uint32,
                ghost st: State, ghost attempts: seq<Attempt>, ghost i: nat) returns (listening: bool)
    requires server.Valid() && i < |attempts| && Up(attempts[..i])
    requires server.Value() == StateAt(server.world, st, attempts, i) && AnswerableAt(server.world, st, attempts, i)
    requires conn.toServer != conn.toClient && Ready(conn, attempts[i]) && handshake == attempts[i].Accepted?
    requires IsRequest(attempts[i]) && attempts[i].inc.call.OpenCall? ==> now == attempts[i].inc.call.now
    modifies server, server.heap, server.gen, server.list, server.list.m.repr, conn.toServer, conn.toClient
    ensures server.Valid() && listening == Up(attempts[..i + 1])
    ensures forall n :: n in server.list.m.repr ==> n in old(server.list.m.repr) || fresh(n)
    ensures server.Value() == StateAt(server.world, st, attempts, i + 1)
    ensures conn.toClient.records == Sent(server.world, st, attempts, i)
    ensures |server.heap.live| - HeapGrowth(server.world, st, Calls(attempts[..i + 1]))
         == |old(server.heap.live)| - HeapGrowth(server.world, st, Calls(attempts[..i]))
  {
    CallsStep(attempts, i);
    AccountStep(server.world, st, attempts, i);
    var finished := Turn(server, conn, handshake, now, attempts[i]);
    listening := !finished;
  }

  lemma SilentAfterShutdown(w: World, st: State, attempts: seq<Attempt>, i: nat)
    requires i <= |attempts| && !Up(attempts[..i])
    ensures !Up(attempts) && Calls(attempts) == Calls(attempts[..i])
    ensures forall j: nat :: i <= j < |attempts| ==> Sent(w, st, attempts, j) == []
  {
    NothingAfterShutdown(attempts, i);
    forall j: nat | i <= j < |attempts| ensures Sent(w, st, attempts, j) == [] {
      assert attempts[..j][..i] == attempts[..i];
      NothingAfterShutdown(attempts[..j], i);
    }
  }

  ghost predicate AllReady(conns: seq<Connection>, attempts: seq<Attempt>, from: nat, pipes: set<Pipe>)
    requires |conns| == |attempts| && forall i :: 0 <= i < |conns| ==> conns[i].toServer in pipes && conns[i].toClient in pipes
    reads pipes
  {
    forall i :: from <= i < |conns| ==> Ready(conns[i], attempts[i])
  }

  ghost predicate SentUpTo(conns: seq<Connection>, w: World, st: State, attempts: seq<Attempt>, to: nat, pipes: set<Pipe>)
    requires |conns| == |attempts| && forall i :: 0 <= i < |conns| ==> conns[i].toServer in pipes && conns[i].toClient in pipes
    reads pipes
  {
    forall i :: 0 <= i < to && i < |conns| ==> conns[i].toClient.records == Sent(w, st, attempts, i)
  }

  /** Turn `i` seen from all connections: the others keep what they carry. */
  method TurnAmong(server: Server, conns: seq<Connection>, i: nat, handshake: bool, now: uint32,
                   ghost st: State, ghost attempts: seq<Attempt>, ghost pipes: set<Pipe>)
    returns (listening: bool)
    requires server.Valid() && i < |conns| == |attempts| && SharesNoPipe(conns, i) && Up(attempts[..i])
    requires forall i :: 0 <= i < |conns| ==> conns[i].toServer in pipes && conns[i].toClient in pipes
    requires server.Value() == StateAt(server.world, st, attempts, i) && AnswerableAt(server.world, st, attempts, i)
    requires AllReady(conns, attempts, i, pipes) && SentUpTo(conns, server.world, st, attempts, i, pipes)
    requires handshake == attempts[i].Accepted?
    requires IsRequest(attempts[i]) && attempts[i].inc.call.OpenCall? ==> now == attempts[i].inc.call.now
    modifies server, server.heap, server.gen, server.list, server.list.m.repr, pipes
    ensures server.Valid() && listening == Up(attempts[..i + 1])
    ensures forall n :: n in server.list.m.repr ==> n in old(server.list.m.repr) || fresh(n)
    ensures server.Value() == StateAt(server.world, st, attempts, i + 1)
    ensures AllReady(conns, attempts, i + 1, pipes) && SentUpTo(conns, server.world, st, attempts, i + 1, pipes)
    ensures |server.heap.live| - HeapGrowth(server.world, st, Calls(attempts[..i + 1]))
         == |old(server.heap.live)| - HeapGrowth(server.world, st, Calls(attempts[..i]))
  {
    listening := TurnAt(server, conns[i], handshake, now, st, attempts, i);
    forall j | 0 <= j < |conns| && j != i
      ensures conns[j].toServer.records == old(conns[j].toServer.records)
      ensures conns[j].toClient.records == old(conns[j].toClient.records)
    {
    }
  }

  /**
   `socket_server_init` from the first `accept` on, over the connections that clients make. It
   leaves the state of the served requests, one response on each of their connections and none on
   any other, and a heap grown by four blocks to a new stream and one to a successful GET_KEY.
   */
  method Run(server: Server, conns: seq<Connection>, handshakes: seq<bool>, clock: seq<uint32>,
             ghost attempts: seq<Attempt>, ghost pipes: set<Pipe>)
    returns (listening: bool)
    requires server.Valid() && |conns| == |handshakes| == |clock| == |attempts|
    requires forall i: nat :: i < |conns| ==> SharesNoPipe(conns, i)
    requires forall i :: 0 <= i < |conns| ==> conns[i].toServer in pipes && conns[i].toClient in pipes
    requires AllReady(conns, attempts, 0, pipes)
    requires forall i :: 0 <= i < |conns| ==>
      && handshakes[i] == attempts[i].Accepted?
      && (IsRequest(attempts[i]) && attempts[i].inc.call.OpenCall? ==> clock[i] == attempts[i].inc.call.now)
    requires forall i: nat :: i < |attempts| ==> AnswerableAt(server.world, server.Value(), attempts, i)
    modifies server, server.heap, server.gen, server.list, server.list.m.repr, pipes
    ensures server.Valid() && listening == Up(attempts)
    ensures server.Value() == After(server.world, old(server.Value()), Calls(attempts))
    ensures |server.heap.live| == |old(server.heap.live)| + HeapGrowth(server.world, old(server.Value()), Calls(attempts))
    ensures SentUpTo(conns, server.world, old(server.Value()), attempts, |conns|, pipes)
  {
    listening := true;
    ghost var st := server.Value();
    var i := 0;
    while listening && i < |conns|
      invariant 0 <= i <= |conns| && server.Valid() && listening == Up(attempts[..i])
      invariant forall n :: n in server.list.m.repr ==> n in old(server.list.m.repr) || fresh(n)
      invariant server.Value() == StateAt(server.world, st, attempts, i)
      invariant |server.heap.live| ==
        |old(server.heap.live)| + HeapGrowth(server.world, st, Calls(attempts[..i]))
      invariant SentUpTo(conns, server.world, st, attempts, i, pipes)
      invariant AllReady(conns, attempts, i, pipes)
    {
      listening := TurnAmong(server, conns, i, handshakes[i], clock[i], st, attempts, pipes);
      i := i + 1;
    }
    assert attempts[..|attempts|] == attempts;
    if !listening {
      SilentAfterShutdown(server.world, st, attempts, i);
    }
  }

  /** The response to a request carries the service code that follows the request's. */
  lemma ReplyService(w: World, st: State, call: Call)
    ensures HeaderOf(ResponseOf(Step(w, st, call).1)).service == HeaderOf(RequestOf(call)).service + 1
  {
  }

  /**
   Exactly the requests made while the server is up are answered, each by one frame. Of the known
   services only the order to stop is never answered, and it alone ends the loop.
   */
  lemma RepliesAccounted(w: World, st: State, attempts: seq<Attempt>, i: nat)
    requires i < |attempts|
    ensures Sent(w, st, attempts, i) != [] <==> Up(attempts[..i]) && IsRequest(attempts[i])
    ensures Up(attempts[..i]) && IsRequest(attempts[i]) ==>
      Flatten(Sent(w, st, attempts, i)) ==
      Frame(ResponseOf(Step(w, StateAt(w, st, attempts, i), attempts[i].inc.call).1))
    ensures Up(attempts[..i]) && !Up(attempts[..i + 1]) <==>
      Up(attempts[..i]) && attempts[i].Accepted? && attempts[i].inc.Shutdown?
  {
    if Up(attempts[..i]) {
      CallsStep(attempts, i);
      if IsRequest(attempts[i]) {
        var m := ResponseOf(Step(w, StateAt(w, st, attempts, i), attempts[i].inc.call).1);
        RecordsFlatten(Frame(m));
        EncNonEmpty(m);
        assert Frame(m) != [];
      }
    }
  }

  /**
   From an empty registry and below `int` overflow, the heap growth of a run is four blocks to
   every registered stream and one to every GET_KEY that the counters count.
   */
  lemma HeapFollowsRegistry(w: World, calls: seq<Call>)
    requires Served(w, INITIAL, calls) < 0x8000_0000
    ensures HeapGrowth(w, INITIAL, calls) == 4 * |Reached(w, calls).streams| + IndexSum(Reached(w, calls).streams)
  {
    CountersAddUp(w, calls);
  }

  /**
   The server program: from an empty registry and an empty heap, over every sequence of connections.
   What is live afterwards are four blocks to a registered stream and one to a GET_KEY served.
   */
  method Program(world: World, conns: seq<Connection>, handshakes: seq<bool>, clock: seq<uint32>,
                 ghost attempts: seq<Attempt>, ghost pipes: set<Pipe>)
    returns (server: Server, listening: bool)
    requires |conns| == |handshakes| == |clock| == |attempts|
    requires forall i: nat :: i < |conns| ==> SharesNoPipe(conns, i)
    requires forall i :: 0 <= i < |conns| ==> conns[i].toServer in pipes && conns[i].toClient in pipes
    requires AllReady(conns, attempts, 0, pipes)
    requires forall i :: 0 <= i < |conns| ==>
      && handshakes[i] == attempts[i].Accepted?
      && (IsRequest(attempts[i]) && attempts[i].inc.call.OpenCall? ==> clock[i] == attempts[i].inc.call.now)
    requires forall i: nat :: i < |attempts| ==> AnswerableAt(world, INITIAL, attempts, i)
    modifies pipes
    ensures server.Valid() && listening == Up(attempts)
    ensures server.Value() == Reached(world, Calls(attempts))
    ensures SentUpTo(conns, world, INITIAL, attempts, |conns|, pipes)
    ensures Served(world, INITIAL, Calls(attempts)) < 0x8000_0000 ==>
      |server.heap.live| == 4 * |server.Value().streams| + IndexSum(server.Value().streams)
  {
    var heap := new Heap();
    server := new Server(world, heap);
    listening := Run(server, conns, handshakes, clock, attempts, pipes);
    if Served(world, INITIAL, Calls(attempts)) < 0x8000_0000 {
      HeapFollowsRegistry(world, Calls(attempts));
    }
  }
}
