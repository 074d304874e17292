/**
 The RDMA example as two processes that share nothing but a socket and the network adapters.
 Each process runs its fixed list of calls; in between, the adapters work on posted requests
 at their own pace. Every interleaving of the two processes and the adapters is a run.

 The queue pair states and their order are those of section 10.3.1 of the InfiniBand
 Architecture Specification, Volume 1.
 */
module RdmaExchange {
  import opened Bits

  /** The contents of a message buffer: zeros, or one of the three texts. */
  datatype Text = Blank | SEND_MSG | RDMA_MSG_R | RDMA_MSG_W

  datatype QpState = Reset | Initialized | ReadyToReceive | ReadyToSend

  /** How the peer's buffer and queue pair are addressed. */
  datatype Address = Address(addr: nat, rkey: nat, qpNum: nat)

  datatype Message = ConnectionData(a: Address) | Dummy(c: char)

  datatype Opcode = Send | RdmaRead | RdmaWrite

  /** One call of a process. A sync is a write to the socket followed by a read. */
  datatype Call =
    | PutConnectionData
    | GetConnectionData
    | PutChar(c: char)
    | GetChar
    | ModifyQp(to: QpState)
    | PostReceive
    | PostSend(op: Opcode)
    | Poll
    | Copy(text: Text)
    | Print

  const SERVER_CALLS := 15
  const CLIENT_CALLS := 20

  /** What the server does, from the connection of the queue pairs to the final print. */
  function ServerCall(pc: nat): Call {
    match pc
    case 0 => PutConnectionData
    case 1 => GetConnectionData
    case 2 => ModifyQp(Initialized)
    case 3 => ModifyQp(ReadyToReceive)
    case 4 => ModifyQp(ReadyToSend)
    case 5 => PutChar('Q')
    case 6 => GetChar
    case 7 => PostSend(Send)
    case 8 => Poll
    case 9 => Copy(RDMA_MSG_R)
    case 10 => PutChar('R')
    case 11 => GetChar
    case 12 => PutChar('W')
    case 13 => GetChar
    case _ => Print
  }

  /** What the client does. */
  function ClientCall(pc: nat): Call {
    match pc
    case 0 => PutConnectionData
    case 1 => GetConnectionData
    case 2 => ModifyQp(Initialized)
    case 3 => PostReceive
    case 4 => ModifyQp(ReadyToReceive)
    case 5 => ModifyQp(ReadyToSend)
    case 6 => PutChar('Q')
    case 7 => GetChar
    case 8 => Poll
    case 9 => Print
    case 10 => PutChar('R')
    case 11 => GetChar
    case 12 => PostSend(RdmaRead)
    case 13 => Poll
    case 14 => Print
    case 15 => Copy(RDMA_MSG_W)
    case 16 => PostSend(RdmaWrite)
    case 17 => Poll
    case 18 => PutChar('W')
    case _ => GetChar
  }

  /** A request between posting and completion. The payload is gathered after posting. */
  datatype Request =
    | NoRequest
    | Posted(op: Opcode)
    | InTransit(op: Opcode, data: Text)
    | Acknowledged(op: Opcode)

  datatype Host = Host(
    pc: nat,
    address: Address,
    qp: QpState,
    remote: Option<Address>,
    receives: nat,
    completions: nat,
    request: Request,
    buf: Text,
    inbox: seq<Message>,
    output: seq<Text>)

  /** `failed` is set by any call or transfer that the hardware would refuse. */
  datatype State = State(server: Host, client: Host, failed: bool)

  datatype Action = Run(client: bool) | Gather(client: bool) | Transfer(client: bool) | Complete(client: bool)

  function CallAt(client: bool, pc: nat): Call {
    if client then ClientCall(pc) else ServerCall(pc)
  }

  function Get(s: State, client: bool): Host {
    if client then s.client else s.server
  }

  function Put(s: State, client: bool, h: Host): State {
    if client then s.(client := h) else s.(server := h)
  }

  predicate Finished(h: Host, client: bool) {
    h.pc >= if client then CLIENT_CALLS else SERVER_CALLS
  }

  /** A read blocks on an empty socket, a poll on an empty completion queue. */
  predicate Blocked(h: Host, c: Call) {
    match c
    case GetConnectionData => h.inbox == []
    case GetChar => h.inbox == []
    case Poll => h.completions == 0
    case _ => false
  }

  predicate Enabled(s: State, a: Action) {
    var h := Get(s, a.client);
    match a
    case Run(client) => !Finished(h, client) && !Blocked(h, CallAt(client, h.pc))
    case Gather(_) => h.request.Posted?
    case Transfer(_) => h.request.InTransit?
    case Complete(_) => h.request.Acknowledged?
  }

  function Fail(s: State): State {
    s.(failed := true)
  }

  predicate NextQp(q: QpState, to: QpState) {
    match q
    case Reset => to == Initialized
    case Initialized => to == ReadyToReceive
    case ReadyToReceive => to == ReadyToSend
    case ReadyToSend => false
  }

  /** Deliver a message to the peer's end of the socket. */
  function Tell(s: State, client: bool, m: Message): State {
    var peer := Get(s, !client);
    Put(s, !client, peer.(inbox := peer.inbox + [m]))
  }

  function RunCall(s: State, client: bool, c: Call): State
    requires !Blocked(Get(s, client), c)
  {
    var h := Get(s, client);
    var h' := h.(pc := h.pc + 1);
    match c
    case PutConnectionData => Tell(Put(s, client, h'), client, ConnectionData(h.address))
    case GetConnectionData =>
      if h.inbox[0].ConnectionData?
      then Put(s, client, h'.(inbox := h.inbox[1..], remote := Some(h.inbox[0].a)))
      else Fail(s)
    case PutChar(ch) => Tell(Put(s, client, h'), client, Dummy(ch))
    case GetChar =>
      if h.inbox[0].Dummy? then Put(s, client, h'.(inbox := h.inbox[1..])) else Fail(s)
    case ModifyQp(to) =>
      if NextQp(h.qp, to) && h.remote.Some? then Put(s, client, h'.(qp := to)) else Fail(s)
    case PostReceive =>
      if h.qp != Reset && h.receives == 0 then Put(s, client, h'.(receives := 1)) else Fail(s)
    case PostSend(op) =>
      if h.qp == ReadyToSend && h.request.NoRequest? && h.remote.Some?
      then Put(s, client, h'.(request := Posted(op))) else Fail(s)
    case Poll => Put(s, client, h'.(completions := h.completions - 1))
    case Copy(text) => Put(s, client, h'.(buf := text))
    case Print => Put(s, client, h'.(output := h.output + [h.buf]))
  }

  /** A completion that finds the queue full is lost. */
  function AddCompletion(s: State, client: bool): State {
    var h := Get(s, client);
    if h.completions >= 1 then Fail(s) else Put(s, client, h.(completions := h.completions + 1))
  }

  /** The adapter reads the payload: for a read, from the peer's buffer. */
  function GatherData(s: State, client: bool): State
    requires Get(s, client).request.Posted?
  {
    var h, peer := Get(s, client), Get(s, !client);
    var op := h.request.op;
    Put(s, client, h.(request := InTransit(op, if op.RdmaRead? then peer.buf else h.buf)))
  }

  /**
   The payload arrives. A send needs a posted receive, the one-sided operations the peer's
   current address; in each case the peer's queue pair must be able to receive.
   */
  function TransferData(s: State, client: bool): State
    requires Get(s, client).request.InTransit?
  {
    var h, peer := Get(s, client), Get(s, !client);
    var op, data := h.request.op, h.request.data;
    var s1 := Put(s, client, h.(request := Acknowledged(op)));
    if peer.qp.Reset? || peer.qp.Initialized? || h.remote != Some(peer.address) then Fail(s)
    else match op
         case Send =>
           if peer.receives == 0 then Fail(s)
           else AddCompletion(Put(s1, !client, peer.(buf := data, receives := peer.receives - 1)),
                              !client)
         case RdmaWrite => Put(s1, !client, peer.(buf := data))
         case RdmaRead =>
           Put(s, client, h.(request := Acknowledged(op), buf := data))
  }

  function Next(s: State, a: Action): State
    requires Enabled(s, a)
  {
    var h := Get(s, a.client);
    match a
    case Run(client) => RunCall(s, client, CallAt(client, h.pc))
    case Gather(client) => GatherData(s, client)
    case Transfer(client) => TransferData(s, client)
    case Complete(client) =>
      AddCompletion(Put(s, client, h.(request := NoRequest)), client)
  }

  function NewHost(a: Address, text: Text): Host {
    Host(0, a, Reset, None, 0, 0, NoRequest, text, [], [])
  }

  function Initial(server: Address, client: Address): State {
    State(NewHost(server, SEND_MSG), NewHost(client, Blank), false)
  }

  /** Any two addresses, any interleaving; an action that is not enabled does nothing. */
  datatype History = Start(serverAddress: Address, clientAddress: Address)
                   | Then(past: History, action: Action)

  function Reached(h: History): State {
    match h
    case Start(sa, ca) => Initial(sa, ca)
    case Then(past, a) => if Enabled(Reached(past), a) then Next(Reached(past), a) else Reached(past)
  }

  // What holds in every reachable state.

  /** Messages that a process has written to the socket, and read from it. */
  function Sent(client: bool, pc: nat): nat {
    if client then (if pc <= 0 then 0 else if pc <= 6 then 1 else if pc <= 10 then 2
                    else if pc <= 18 then 3 else 4)
    else (if pc <= 0 then 0 else if pc <= 5 then 1 else if pc <= 10 then 2
          else if pc <= 12 then 3 else 4)
  }

  function Received(client: bool, pc: nat): nat {
    if client then (if pc <= 1 then 0 else if pc <= 7 then 1 else if pc <= 11 then 2
                    else if pc <= 19 then 3 else 4)
    else (if pc <= 1 then 0 else if pc <= 6 then 1 else if pc <= 11 then 2
          else if pc <= 13 then 3 else 4)
  }

  /** All messages of a process, in order. */
  function Messages(a: Address): (r: seq<Message>)
    ensures |r| == 4
  {
    [ConnectionData(a), Dummy('Q'), Dummy('R'), Dummy('W')]
  }

  /** What is in the socket is what one side has written and the other not yet read. */
  ghost predicate Synchronized(from: Host, to: Host, toClient: bool) {
    && Received(toClient, to.pc) <= Sent(!toClient, from.pc)
    && to.inbox == Messages(from.address)[Received(toClient, to.pc)..Sent(!toClient, from.pc)]
  }

  predicate Landed(r: Request) {
    r.NoRequest? || r.Acknowledged?
  }

  /** The server's message has reached the client. */
  predicate Delivered(server: Host) {
    server.pc > 8 || (server.pc == 8 && Landed(server.request))
  }

  /** The client's write has reached the server. */
  predicate Written(client: Host) {
    client.pc > 17 || (client.pc == 17 && Landed(client.request))
  }

  predicate Fetched(client: Host) {
    client.pc > 13 || (client.pc == 13 && Landed(client.request))
  }

  /** A request of kind `op` that carries `data`, at any stage. */
  predicate Underway(r: Request, op: Opcode, data: Text) {
    r == NoRequest || r == Posted(op) || r == InTransit(op, data) || r == Acknowledged(op)
  }

  function One(b: bool): nat {
    if b then 1 else 0
  }

  predicate ServerOk(h: Host, client: Host) {
    && h.pc <= SERVER_CALLS
    && h.qp == (if h.pc <= 2 then Reset else if h.pc == 3 then Initialized
                else if h.pc == 4 then ReadyToReceive else ReadyToSend)
    && h.remote == (if h.pc <= 1 then None else Some(client.address))
    && h.receives == 0
    && h.completions == One(h.pc == 8 && h.request.NoRequest?)
    && (if h.pc == 8 then Underway(h.request, Send, SEND_MSG) else h.request == NoRequest)
    && h.buf == (if h.pc <= 9 then SEND_MSG else if Written(client) then RDMA_MSG_W else RDMA_MSG_R)
    && h.output == (if h.pc <= 14 then [] else [RDMA_MSG_W])
  }

  predicate ClientOk(h: Host, server: Host) {
    && h.pc <= CLIENT_CALLS
    && h.qp == (if h.pc <= 2 then Reset else if h.pc <= 4 then Initialized
                else if h.pc == 5 then ReadyToReceive else ReadyToSend)
    && h.remote == (if h.pc <= 1 then None else Some(server.address))
    && h.receives == One(h.pc > 3 && !Delivered(server))
    && (h.pc > 8 ==> Delivered(server))
    && h.completions == One((h.pc <= 8 && Delivered(server)) ||
                            ((h.pc == 13 || h.pc == 17) && h.request.NoRequest?))
    && (if h.pc == 13 then Underway(h.request, RdmaRead, RDMA_MSG_R)
        else if h.pc == 17 then Underway(h.request, RdmaWrite, RDMA_MSG_W)
        else h.request == NoRequest)
    && h.buf == (if h.pc >= 16 then RDMA_MSG_W else if Fetched(h) then RDMA_MSG_R
                 else if Delivered(server) then SEND_MSG else Blank)
    && h.output == (if h.pc <= 9 then [] else if h.pc <= 14 then [SEND_MSG]
                    else [SEND_MSG, RDMA_MSG_R])
  }

  ghost predicate Inv(s: State) {
    && !s.failed
    && Synchronized(s.server, s.client, true) && Synchronized(s.client, s.server, false)
    && ServerOk(s.server, s.client) && ClientOk(s.client, s.server)
  }

  predicate Puts(c: Call) {
    c.PutConnectionData? || c.PutChar?
  }

  predicate Gets(c: Call) {
    c.GetConnectionData? || c.GetChar?
  }

  predicate UsesSocket(c: Call) {
    Puts(c) || Gets(c)
  }

  /** The message counts follow the calls. */
  lemma CountCalls(client: bool, pc: nat)
    requires pc < if client then CLIENT_CALLS else SERVER_CALLS
    ensures Sent(client, pc + 1) == Sent(client, pc) + One(Puts(CallAt(client, pc)))
    ensures Received(client, pc + 1) == Received(client, pc) + One(Gets(CallAt(client, pc)))
  {
  }

  lemma CountBound(client: bool, pc: nat)
    ensures Received(client, pc) <= Sent(client, pc) <= 4
  {
  }

  /** Each socket call handles the message that is next in line. */
  lemma NextMessage(client: bool, pc: nat, own: Address, peer: Address)
    requires pc < if client then CLIENT_CALLS else SERVER_CALLS
    ensures
      var c, n := CallAt(client, pc), Sent(client, pc);
      && (c.PutConnectionData? ==> n < 4 && Messages(own)[n] == ConnectionData(own))
      && (c.PutChar? ==> n < 4 && Messages(own)[n] == Dummy(c.c))
    ensures
      var c, n := CallAt(client, pc), Received(client, pc);
      && (c.GetConnectionData? ==> n < 4 && Messages(peer)[n] == ConnectionData(peer))
      && (c.GetChar? ==> n < 4 && Messages(peer)[n].Dummy?)
  {
  }

  lemma SliceGrow(ms: seq<Message>, from: nat, to: nat)
    requires from <= to < |ms|
    ensures ms[from..to] + [ms[to]] == ms[from..to + 1]
  {
  }

  lemma PutKeepsSync(s: State, client: bool)
    requires Inv(s) && Enabled(s, Run(client)) && Puts(CallAt(client, Get(s, client).pc))
    ensures var s' := Next(s, Run(client));
            && !s'.failed
            && Synchronized(Get(s', client), Get(s', !client), !client)
            && Synchronized(Get(s', !client), Get(s', client), client)
  {
    hide CallAt, Sent, Received, Messages, ServerOk, ClientOk;
    var h, peer := Get(s, client), Get(s, !client);
    CountCalls(client, h.pc);
    CountBound(client, h.pc + 1);
    NextMessage(client, h.pc, h.address, peer.address);
    SliceGrow(Messages(h.address), Received(!client, peer.pc), Sent(client, h.pc));
  }

  lemma GetKeepsSync(s: State, client: bool)
    requires Inv(s) && Enabled(s, Run(client)) && Gets(CallAt(client, Get(s, client).pc))
    ensures var s' := Next(s, Run(client));
            && !s'.failed
            && Synchronized(Get(s', client), Get(s', !client), !client)
            && Synchronized(Get(s', !client), Get(s', client), client)
  {
    hide CallAt, Sent, Received, Messages, ServerOk, ClientOk;
    var h, peer := Get(s, client), Get(s, !client);
    CountCalls(client, h.pc);
    CountBound(!client, peer.pc);
    NextMessage(client, h.pc, h.address, peer.address);
  }

  /** What the counts of messages say about how far the two sides are apart. */
  ghost predicate InStep(server: nat, client: nat) {
    Received(true, client) <= Sent(false, server) && Received(false, server) <= Sent(true, client)
  }

  ghost predicate Ok(s: State) {
    && !s.failed && InStep(s.server.pc, s.client.pc)
    && ServerOk(s.server, s.client) && ClientOk(s.client, s.server)
  }

  /** The state after a call that reads or writes the socket, sockets aside. */
  function Advance(s: State, client: bool): State {
    var h, peer := Get(s, client), Get(s, !client);
    Put(s, client, h.(pc := h.pc + 1,
                      remote := if h.pc == 1 then Some(peer.address) else h.remote))
  }

  lemma ServerAdvances(s: State)
    requires Ok(s) && s.server.pc < SERVER_CALLS && UsesSocket(ServerCall(s.server.pc))
    requires InStep(s.server.pc + 1, s.client.pc)
    ensures Ok(Advance(s, false))
  {
  }

  lemma ClientAdvances(s: State)
    requires Ok(s) && s.client.pc < CLIENT_CALLS && UsesSocket(ClientCall(s.client.pc))
    requires InStep(s.server.pc, s.client.pc + 1)
    ensures Ok(Advance(s, true))
  {
  }

  lemma ServerRunsLocally(s: State)
    requires Ok(s) && Enabled(s, Run(false)) && !UsesSocket(ServerCall(s.server.pc))
    ensures Ok(Next(s, Run(false)))
  {
    hide ClientCall;
  }

  lemma ClientPolls(s: State)
    requires Ok(s) && Enabled(s, Run(true)) && ClientCall(s.client.pc).Poll?
    ensures Ok(Next(s, Run(true)))
  {
    hide ServerCall;
  }

  lemma ClientPosts(s: State)
    requires Ok(s) && Enabled(s, Run(true))
    requires ClientCall(s.client.pc).PostReceive? || ClientCall(s.client.pc).PostSend?
    ensures Ok(Next(s, Run(true)))
  {
    hide ServerCall;
  }

  lemma ClientRunsLocally(s: State)
    requires Ok(s) && Enabled(s, Run(true)) && !UsesSocket(ClientCall(s.client.pc))
    ensures Ok(Next(s, Run(true)))
  {
    hide ServerCall;
    if ClientCall(s.client.pc).Poll? {
      ClientPolls(s);
    } else if ClientCall(s.client.pc).PostReceive? || ClientCall(s.client.pc).PostSend? {
      ClientPosts(s);
    }
  }

  /** Apart from the socket, a socket call is an advance. */
  lemma SocketCallAdvances(s: State, client: bool)
    requires Inv(s) && Enabled(s, Run(client))
    requires UsesSocket(CallAt(client, Get(s, client).pc))
    ensures var s', t := Next(s, Run(client)), Advance(s, client);
            && s'.failed == t.failed
            && s'.server.(inbox := []) == t.server.(inbox := [])
            && s'.client.(inbox := []) == t.client.(inbox := [])
  {
    hide Sent, Received, Messages, ServerOk, ClientOk;
    var h, peer := Get(s, client), Get(s, !client);
    CountBound(!client, peer.pc);
    NextMessage(client, h.pc, h.address, peer.address);
  }

  lemma SocketCallKeepsInv(s: State, client: bool)
    requires Inv(s) && Enabled(s, Run(client))
    requires UsesSocket(CallAt(client, Get(s, client).pc))
    ensures Inv(Next(s, Run(client)))
  {
    hide Sent, Received, Messages, Next, ServerCall, ClientCall;
    if Puts(CallAt(client, Get(s, client).pc)) {
      PutKeepsSync(s, client);
    } else {
      GetKeepsSync(s, client);
    }
    SocketCallAdvances(s, client);
    if client {
      ClientAdvances(s);
    } else {
      ServerAdvances(s);
    }
  }

  lemma LocalCallKeepsSync(s: State, client: bool)
    requires Inv(s) && Enabled(s, Run(client))
    requires !UsesSocket(CallAt(client, Get(s, client).pc))
    requires !Next(s, Run(client)).failed
    ensures var s' := Next(s, Run(client));
            Synchronized(s'.server, s'.client, true) && Synchronized(s'.client, s'.server, false)
  {
    hide Sent, Received, Messages, ServerOk, ClientOk, CallAt;
    CountCalls(client, Get(s, client).pc);
  }

  lemma RunKeepsInv(s: State, client: bool)
    requires Inv(s) && Enabled(s, Run(client))
    ensures Inv(Next(s, Run(client)))
  {
    hide Sent, Received, Messages, ServerOk, ClientOk, Next, ServerCall, ClientCall;
    if UsesSocket(CallAt(client, Get(s, client).pc)) {
      SocketCallKeepsInv(s, client);
    } else {
      if client {
        ClientRunsLocally(s);
      } else {
        ServerRunsLocally(s);
      }
      LocalCallKeepsSync(s, client);
    }
  }

  lemma ServerAdapterActs(s: State, a: Action)
    requires Ok(s) && Enabled(s, a) && !a.Run? && !a.client
    ensures Ok(Next(s, a))
  {
    hide ServerCall, ClientCall;
  }

  lemma ClientAdapterActs(s: State, a: Action)
    requires Ok(s) && Enabled(s, a) && !a.Run? && a.client
    ensures Ok(Next(s, a))
  {
    hide ServerCall, ClientCall;
  }

  /** An adapter touches neither the sockets nor the program counters. */
  lemma AdapterFrame(s: State, a: Action)
    requires Enabled(s, a) && !a.Run?
    ensures
      var s' := Next(s, a);
      && s'.server.pc == s.server.pc && s'.client.pc == s.client.pc
      && s'.server.inbox == s.server.inbox && s'.client.inbox == s.client.inbox
      && s'.server.address == s.server.address && s'.client.address == s.client.address
  {
  }

  lemma NextKeepsInv(s: State, a: Action)
    requires Inv(s) && Enabled(s, a)
    ensures Inv(Next(s, a))
  {
    hide Sent, Received, Messages, ServerOk, ClientOk, Next;
    if a.Run? {
      RunKeepsInv(s, a.client);
    } else {
      AdapterFrame(s, a);
      if a.client {
        ClientAdapterActs(s, a);
      } else {
        ServerAdapterActs(s, a);
      }
    }
  }

  lemma {:induction false} ReachedInv(h: History)
    ensures Inv(Reached(h))
  {
    if h.Then? {
      hide Next, Enabled, Inv;
      ReachedInv(h.past);
      if Enabled(Reached(h.past), h.action) {
        NextKeepsInv(Reached(h.past), h.action);
      }
    }
  }

  // The promises.

  /** How many of the four exchanges a process has completed. */
  function Passed(h: Host, client: bool): nat {
    Received(client, h.pc)
  }

  /**
   In every interleaving: no call or transfer is ever refused, each completion queue holds at
   most one entry, and neither side is more than one exchange ahead.
   */
  lemma NeverFails(h: History)
    ensures
      var s := Reached(h);
      && !s.failed
      && s.server.completions <= 1 && s.client.completions <= 1
      && Passed(s.server, false) <= Passed(s.client, true) + 1
      && Passed(s.client, true) <= Passed(s.server, false) + 1
  {
    ReachedInv(h);
  }

  /** When the server's message is in transit, the client has a receive posted for it. */
  lemma SendFindsReceive(h: History)
    requires Reached(h).server.request.Posted? || Reached(h).server.request.InTransit?
    ensures
      var c := Reached(h).client;
      c.receives == 1 && (c.qp.ReadyToReceive? || c.qp.ReadyToSend?)
  {
    ReachedInv(h);
  }

  /** The buffers have the contents that each stage of the exchange counts on. */
  lemma BuffersAsExpected(h: History)
    ensures
      var s := Reached(h);
      && (s.client.request.InTransit? && s.client.request.op.RdmaRead? ==>
            s.client.request.data == RDMA_MSG_R)
      && (Written(s.client) ==> s.server.buf == RDMA_MSG_W)
  {
    ReachedInv(h);
  }

  ghost predicate Stuck(s: State) {
    forall a :: !Enabled(s, a)
  }

  /** No deadlock: a run can only stop with both processes finished and the texts printed. */
  lemma StopsOnlyWhenDone(h: History)
    requires Stuck(Reached(h))
    ensures
      var s := Reached(h);
      && Finished(s.server, false) && Finished(s.client, true)
      && s.server.output == [RDMA_MSG_W]
      && s.client.output == [SEND_MSG, RDMA_MSG_R]
  {
    var s := Reached(h);
    ReachedInv(h);
    assert !Enabled(s, Run(false)) && !Enabled(s, Run(true));
    assert !Enabled(s, Gather(false)) && !Enabled(s, Gather(true));
    assert !Enabled(s, Transfer(false)) && !Enabled(s, Transfer(true));
    assert !Enabled(s, Complete(false)) && !Enabled(s, Complete(true));
  }

  function Stage(r: Request): nat {
    match r
    case NoRequest => 0
    case Acknowledged(_) => 1
    case InTransit(_, _) => 2
    case Posted(_) => 3
  }

  /** An upper bound on the actions still to come. */
  function Remaining(s: State): int {
    4 * (SERVER_CALLS - s.server.pc) + 4 * (CLIENT_CALLS - s.client.pc)
    + Stage(s.server.request) + Stage(s.client.request)
  }

  lemma CallProgress(s: State, client: bool, c: Call)
    requires !Blocked(Get(s, client), c) && !RunCall(s, client, c).failed
    ensures Remaining(RunCall(s, client, c)) < Remaining(s)
  {
  }

  lemma ActionProgress(s: State, a: Action)
    requires Enabled(s, a) && !Next(s, a).failed
    ensures Remaining(Next(s, a)) < Remaining(s)
  {
    hide CallAt, RunCall;
    if a.Run? {
      CallProgress(s, a.client, CallAt(a.client, Get(s, a.client).pc));
    }
  }

  lemma RemainingBound(s: State)
    requires Inv(s)
    ensures 0 <= Remaining(s) <= 140
  {
  }

  /** The actions of a run that were enabled when they came up. */
  function Effective(h: History): nat {
    match h
    case Start(_, _) => 0
    case Then(past, a) => Effective(past) + One(Enabled(Reached(past), a))
  }

  /** Every action makes progress, so every run ends, after at most 140 actions. */
  lemma {:induction false} RunsEnd(h: History)
    ensures Effective(h) + Remaining(Reached(h)) <= 140
    ensures Effective(h) <= 140
  {
    hide Next, Enabled, Inv;
    ReachedInv(h);
    RemainingBound(Reached(h));
    if h.Then? {
      var s := Reached(h.past);
      RunsEnd(h.past);
      if Enabled(s, h.action) {
        NotFailed(Reached(h));
        ActionProgress(s, h.action);
      }
    }
  }

  lemma NotFailed(s: State)
    requires Inv(s)
    ensures !s.failed
  {
  }
}
