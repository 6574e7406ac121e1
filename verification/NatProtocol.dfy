// The whole NAT check protocol as a transition system: the client, one worker for
// every TCP connection at the two regular servers, one worker for every bounce
// request at server 3, and the datagrams ever sent, each of which may be lost,
// delayed, reordered or delivered again.
module NatProtocol {
  import opened NatClient

  // The client's public endpoints: the NAT keeps one for every socket and
  // destination. `lets` are the sources whose datagrams it lets in unsolicited,
  // `letsTcp` those whose connections it does.
  datatype Nat = Nat(tcpTo1: Endpoint, tcpTo2: Endpoint, udpTo1: Endpoint, udpTo2: Endpoint, probe: Endpoint,
                     lets: set<Endpoint>, letsTcp: set<Endpoint>)

  predicate IsServer(e: Endpoint) {
    e == SERVER1 || e == SERVER2 || e == SERVER3 || e == BOUNCER
  }

  predicate Ours(n: Nat, e: Endpoint) {
    e == n.udpTo1 || e == n.udpTo2
  }

  predicate ValidNat(n: Nat) {
    && Public(n.tcpTo1) && Public(n.tcpTo2) && Public(n.udpTo1) && Public(n.udpTo2)
    && !IsServer(n.udpTo1) && !IsServer(n.udpTo2) && !IsServer(n.probe)
  }

  datatype Option<T> = None | Some(value: T)

  // A connection at server 1 or 2 and how far its worker is.
  datatype Conn = Conn(server: nat, peer: Endpoint, asked: bool, answer: Option<Endpoint>, stage: Stage)
  datatype Stage = Forked | Heard | Bouncing(b: nat) | Waiting(b: nat) | Told | Answered | Gone

  // A connection from server 2's worker `owner` to server 3's private port, and
  // how far server 3's worker is; `closed` is what the owner waits for.
  datatype Bounce = Bounce(owner: nat, request: Option<Endpoint>, closed: bool, stage: BounceStage)
  datatype BounceStage = Fresh | Read(target: Endpoint) | Dialling(target: Endpoint) | Late(target: Endpoint)
                       | Up(target: Endpoint, corked: bool) | Pushed(target: Endpoint, corked: bool)
                       | Done(target: Endpoint)

  datatype Body = Request | Answer(pub: Endpoint) | BounceRequest(pub: Endpoint) | LoopProbe | Other
  datatype Datagram = Datagram(src: Endpoint, dst: Endpoint, body: Body)

  // `conn1` and `conn2` are the client's own connections; `dialled` and `replied`
  // are the endpoints server 3 has called connect for and has sent a reply to.
  datatype System = System(client: Client, conns: map<nat, Conn>, bounces: map<nat, Bounce>,
                           conn1: Option<nat>, conn2: Option<nat>, dialled: set<Endpoint>, replied: set<Endpoint>,
                           sent: set<Datagram>)

  datatype Action =
    | ClientStep(e: Event)
    | Connects(id: nat, server: nat, peer: Endpoint, own: bool)
    | StrangerAsks(id: nat)
    | WorkerHears(id: nat)
    | WorkerDrops(id: nat)
    | WorkerDials3(id: nat, b: nat)
    | WorkerAsks3(id: nat)
    | WorkerToldToGoOn(id: nat)
    | WorkerAnswers(id: nat)
    | BounceHears(b: nat)
    | BounceDials(b: nat)
    | BounceTimesOut(b: nat)
    | BounceTooEarly(b: nat)
    | BounceConnected(b: nat)
    | BounceReplies(b: nat)
    | BounceFinishes(b: nat)
    | BounceDies(b: nat)
    | ServeUdp(at: Endpoint, d: Datagram)
    | BounceUdp(d: Datagram)
    | StrangerSends(d: Datagram)

  // ---------------------------------------------------------------------------
  // What the network can hand the client
  // ---------------------------------------------------------------------------

  function OwnConn(s: System, w: Which): Option<nat> {
    match w
    case T1 => s.conn1
    case T2 => s.conn2
    case _ => None
  }

  predicate CanAnswer(s: System, w: Which, pub: Endpoint) {
    match w
    case T1 => s.conn1.Some? && s.conn1.value in s.conns && s.conns[s.conn1.value].answer == Some(pub)
    case T2 => s.conn2.Some? && s.conn2.value in s.conns && s.conns[s.conn2.value].answer == Some(pub)
    case _ => pub in s.replied
  }

  // The NAT lets a datagram in if our socket has sent the other way, or anyway.
  predicate LetIn(n: Nat, s: System, d: Datagram) {
    && Ours(n, d.dst)
    && (d.src in n.lets || exists r :: r in s.sent && r.src == d.dst && r.dst == d.src)
  }

  predicate CanArrive(n: Nat, s: System, a: Arrival) {
    a.payload.Report? && IsServer(a.from) ==>
      exists d :: d in s.sent && d.src == a.from && d.body == Answer(a.payload.pub) && LetIn(n, s, d)
  }

  // A connection from server 3's address is there to be accepted only if server 3
  // has called connect, and the NAT lets it in if our socket has done so the other
  // way, or anyway.
  predicate CanConnect(n: Nat, s: System, from: Endpoint) {
    from == SERVER3 ==> s.dialled != {} && (s.client.found.dialled3 || SERVER3 in n.letsTcp)
  }

  predicate ClientGuard(n: Nat, s: System, e: Event) {
    && Enabled(s.client, e)
    && (e.Listen? ==> forall a :: a in e.accepted ==> CanConnect(n, s, a.from))
    && (e.Check? && Socket(s.client.fds, s.client.pc.w) in s.client.fds.wfds && e.answers.connect == Sent
        && s.client.pc.w in {T1, T2} ==>
          OwnConn(s, s.client.pc.w).Some? && OwnConn(s, s.client.pc.w).value in s.conns)
    && (e.Check? && e.answers.recv.Reply? ==> CanAnswer(s, s.client.pc.w, e.answers.recv.pub))
    && (e.Datagrams? ==> forall a :: a in e.arrivals ==> CanArrive(n, s, a))
  }

  // ---------------------------------------------------------------------------
  // Guards and effects
  // ---------------------------------------------------------------------------

  predicate At(s: System, id: nat, stage: Stage) {
    id in s.conns && s.conns[id].stage == stage
  }

  predicate Guard(n: Nat, s: System, a: Action) {
    match a
    case ClientStep(e) => ClientGuard(n, s, e)
    case Connects(id, server, peer, own) =>
      && id !in s.conns && server in {1, 2}
      && (own && server == 1 ==> s.conn1 == None && peer == n.tcpTo1)
      && (own && server == 2 ==> s.conn2 == None && peer == n.tcpTo2)
    case StrangerAsks(id) => id in s.conns && s.conn1 != Some(id) && s.conn2 != Some(id)
    case WorkerHears(id) => At(s, id, Forked) && s.conns[id].asked
    case WorkerDrops(id) => id in s.conns
    case WorkerDials3(id, b) => At(s, id, Heard) && s.conns[id].server == 2 && b !in s.bounces
    case WorkerAsks3(id) => id in s.conns && s.conns[id].stage.Bouncing? && s.conns[id].stage.b in s.bounces
    case WorkerToldToGoOn(id) =>
      && id in s.conns && s.conns[id].stage.Waiting?
      && s.conns[id].stage.b in s.bounces && s.bounces[s.conns[id].stage.b].closed
    case WorkerAnswers(id) => At(s, id, Told) || (At(s, id, Heard) && s.conns[id].server == 1)
    case BounceHears(b) => b in s.bounces && s.bounces[b].stage == Fresh && s.bounces[b].request.Some?
    case BounceDials(b) => b in s.bounces && s.bounces[b].stage.Read?
    case BounceTimesOut(b) => b in s.bounces && s.bounces[b].stage.Dialling?
    case BounceTooEarly(b) => b in s.bounces && s.bounces[b].stage.Dialling?
    case BounceConnected(b) => b in s.bounces && s.bounces[b].stage.Late?
    case BounceReplies(b) => b in s.bounces && s.bounces[b].stage.Up?
    case BounceFinishes(b) => b in s.bounces && s.bounces[b].stage.Pushed?
    // server 3's worker does not die before its connect
    case BounceDies(b) => b in s.bounces && !s.bounces[b].stage.Fresh? && !s.bounces[b].stage.Read?
    case ServeUdp(server, d) => server in {SERVER1, SERVER2} && d in s.sent && d.dst == server && d.body == Request
    case BounceUdp(d) => d in s.sent && d.dst == BOUNCER && d.body.BounceRequest?
    // nobody else sends from our or the servers' endpoints
    case StrangerSends(d) => !IsServer(d.src) && !Ours(n, d.src)
  }

  function SetConn(s: System, id: nat, c: Conn): System {
    s.(conns := s.conns[id := c])
  }

  function SetStage(s: System, id: nat, stage: Stage): System
    requires id in s.conns
  {
    SetConn(s, id, s.conns[id].(stage := stage))
  }

  function SetBounce(s: System, b: nat, c: Bounce): System {
    s.(bounces := s.bounces[b := c])
  }

  // The datagrams of one try: a request to servers 1 and 2, and once our public
  // endpoint is known, a probe to it from the second socket.
  function TryDatagrams(n: Nat, c: Client): set<Datagram> {
    {Datagram(n.udpTo1, SERVER1, Request), Datagram(n.udpTo2, SERVER2, Request)}
    + if c.found.myu2.addr != 0 then {Datagram(n.probe, c.found.myu2, LoopProbe)} else {}
  }

  // What the network makes of the program's sends.
  function SourceOf(n: Nat, m: Send): Endpoint {
    if m.sock == Udp2 then n.probe else if m.to == SERVER1 then n.udpTo1 else n.udpTo2
  }

  function Outgoing(n: Nat, sends: seq<Send>): set<Datagram> {
    set m | m in sends :: Datagram(SourceOf(n, m), m.to, if m.magic == ReqMagic then Request else LoopProbe)
  }

  lemma TrySendsDatagrams(n: Nat, c: Client, sends: seq<Send>)
    requires sends == [Send(Udp1, SERVER1, ReqMagic), Send(Udp1, SERVER2, ReqMagic)]
                      + if c.found.myu2.addr != 0 then [Send(Udp2, c.found.myu2, LoopMagic)] else []
    ensures Outgoing(n, sends) == TryDatagrams(n, c)
  {
    assert sends[0] in sends && sends[1] in sends && (|sends| > 2 ==> sends[2] in sends);
    forall d
      ensures d in Outgoing(n, sends) <==> d in TryDatagrams(n, c)
    {
    }
  }

  function ClientEffect(n: Nat, s: System, e: Event): System
    requires ClientGuard(n, s, e)
  {
    var c := Step(s.client, e);
    match e
    case Try => s.(client := c, sent := s.sent + TryDatagrams(n, s.client))
    case Check(a) =>
      var w := s.client.pc.w;
      if Socket(s.client.fds, w) in s.client.fds.wfds && a.connect == Sent && w in {T1, T2} then
        var id := OwnConn(s, w).value;
        SetConn(s, id, s.conns[id].(asked := true)).(client := c)
      else s.(client := c)
    case _ => s.(client := c)
  }

  function Effect(n: Nat, s: System, a: Action): System
    requires Guard(n, s, a)
  {
    match a
    case ClientStep(e) => ClientEffect(n, s, e)
    case Connects(id, server, peer, own) =>
      var t := SetConn(s, id, Conn(server, peer, false, None, Forked));
      if !own then t else if server == 1 then t.(conn1 := Some(id)) else t.(conn2 := Some(id))
    case StrangerAsks(id) => SetConn(s, id, s.conns[id].(asked := true))
    case WorkerHears(id) => SetStage(s, id, Heard)
    case WorkerDrops(id) => SetStage(s, id, Gone)
    case WorkerDials3(id, b) => SetBounce(SetStage(s, id, Bouncing(b)), b, Bounce(id, None, false, Fresh))
    case WorkerAsks3(id) =>
      var b := s.conns[id].stage.b;
      SetBounce(SetStage(s, id, Waiting(b)), b, s.bounces[b].(request := Some(s.conns[id].peer)))
    case WorkerToldToGoOn(id) => SetStage(s, id, Told)
    case WorkerAnswers(id) => SetConn(s, id, s.conns[id].(answer := Some(s.conns[id].peer), stage := Answered))
    case BounceHears(b) => SetBounce(s, b, s.bounces[b].(stage := Read(s.bounces[b].request.value)))
    case BounceDials(b) =>
      var t := s.bounces[b].stage.target;
      SetBounce(s, b, s.bounces[b].(stage := Dialling(t))).(dialled := s.dialled + {t})
    case BounceTimesOut(b) => SetBounce(s, b, s.bounces[b].(stage := Late(s.bounces[b].stage.target), closed := true))
    case BounceTooEarly(b) => SetBounce(s, b, s.bounces[b].(stage := Up(s.bounces[b].stage.target, true)))
    case BounceConnected(b) => SetBounce(s, b, s.bounces[b].(stage := Up(s.bounces[b].stage.target, false)))
    case BounceReplies(b) =>
      var t := s.bounces[b].stage;
      SetBounce(s, b, s.bounces[b].(stage := Pushed(t.target, t.corked))).(replied := s.replied + {t.target})
    case BounceFinishes(b) => SetBounce(s, b, s.bounces[b].(stage := Done(s.bounces[b].stage.target), closed := true))
    case BounceDies(b) => SetBounce(s, b, s.bounces[b].(stage := Done(s.bounces[b].stage.target), closed := true))
    case ServeUdp(server, d) =>
      s.(sent := s.sent + {Datagram(server, d.src, Answer(d.src))}
                        + if server == SERVER2 then {Datagram(server, BOUNCER, BounceRequest(d.src))} else {})
    case BounceUdp(d) => s.(sent := s.sent + {Datagram(SERVER3, d.body.pub, Answer(d.body.pub))})
    case StrangerSends(d) => s.(sent := s.sent + {d})
  }

  ghost predicate Start(n: Nat, s: System) {
    && ValidNat(n) && Initial(s.client)
    && s.conns == map[] && s.bounces == map[] && s.conn1 == None && s.conn2 == None
    && s.dialled == {} && s.replied == {} && s.sent == {}
  }

  ghost predicate Run(n: Nat, s: System, actions: seq<Action>, t: System)
    decreases |actions|
  {
    if actions == [] then s == t
    else Guard(n, s, actions[0]) && Run(n, Effect(n, s, actions[0]), actions[1..], t)
  }

  // ---------------------------------------------------------------------------
  // TCP: server 3 has dialled before the client hears from server 2
  // ---------------------------------------------------------------------------

  predicate ConnSound(s: System, id: nat, c: Conn) {
    && (c.stage.Bouncing? ==>
          && c.stage.b in s.bounces && s.bounces[c.stage.b].owner == id
          && s.bounces[c.stage.b].request == None)
    && (c.stage.Waiting? ==>
          && c.stage.b in s.bounces && s.bounces[c.stage.b].owner == id
          && s.bounces[c.stage.b].request == Some(c.peer))
    && (c.stage == Told ==> c.peer in s.dialled)
    && (c.answer.Some? ==> c.answer.value == c.peer && (c.server == 2 ==> c.peer in s.dialled))
  }

  predicate BounceSound(s: System, c: Bounce) {
    match c.stage
    case Fresh => !c.closed
    case Read(t) => !c.closed && c.request == Some(t)
    case Dialling(t) => c.request == Some(t) && t in s.dialled
    case Late(t) => c.request == Some(t) && t in s.dialled
    case Up(t, _) => c.request == Some(t) && t in s.dialled
    case Pushed(t, _) => c.request == Some(t) && t in s.dialled
    case Done(t) => c.request == Some(t) && t in s.dialled
  }

  predicate OwnSound(n: Nat, s: System) {
    && (s.conn1.Some? ==>
          && s.conn1.value in s.conns
          && s.conns[s.conn1.value].server == 1 && s.conns[s.conn1.value].peer == n.tcpTo1)
    && (s.conn2.Some? ==>
          && s.conn2.value in s.conns
          && s.conns[s.conn2.value].server == 2 && s.conns[s.conn2.value].peer == n.tcpTo2)
  }

  predicate RecordedTcp(n: Nat, s: System) {
    var r := s.client.found;
    && (r.myt1.addr != 0 ==> r.myt1 == n.tcpTo1)
    && (r.myt2.addr != 0 ==> r.myt2 == n.tcpTo2 && n.tcpTo2 in s.dialled)
    && (r.dialled3 ==> n.tcpTo2 in s.dialled)
    && (r.myt3.addr != 0 ==> r.myt3 in s.replied)
  }

  ghost predicate TcpInv(n: Nat, s: System) {
    && (forall id :: id in s.conns ==> ConnSound(s, id, s.conns[id]))
    && (forall b :: b in s.bounces ==> BounceSound(s, s.bounces[b]))
    && OwnSound(n, s) && RecordedTcp(n, s) && s.replied <= s.dialled
  }

  predicate WorkerAction(a: Action) {
    a.Connects? || a.StrangerAsks? || a.WorkerHears? || a.WorkerDrops? || a.WorkerDials3? || a.WorkerAsks3?
    || a.WorkerToldToGoOn? || a.WorkerAnswers?
  }

  lemma ConnectingKeepsTcpInv(n: Nat, s: System, a: Action)
    requires Guard(n, s, a) && a.Connects? && TcpInv(n, s)
    ensures TcpInv(n, Effect(n, s, a))
  {
  }

  lemma WorkersKeepTcpInv(n: Nat, s: System, a: Action)
    requires Guard(n, s, a) && WorkerAction(a) && !a.WorkerDials3? && !a.WorkerAsks3? && TcpInv(n, s)
    ensures TcpInv(n, Effect(n, s, a))
  {
    if a.Connects? { ConnectingKeepsTcpInv(n, s, a); }
  }

  lemma AskingServer3KeepsTcpInv(n: Nat, s: System, a: Action)
    requires Guard(n, s, a) && (a.WorkerDials3? || a.WorkerAsks3?) && TcpInv(n, s)
    ensures TcpInv(n, Effect(n, s, a))
  {
  }

  predicate BounceAction(a: Action) {
    a.BounceTimesOut? || a.BounceTooEarly? || a.BounceConnected? || a.BounceReplies? || a.BounceFinishes?
    || a.BounceDies?
  }

  lemma DiallingKeepsTcpInv(n: Nat, s: System, a: Action)
    requires Guard(n, s, a) && (a.BounceHears? || a.BounceDials?) && TcpInv(n, s)
    ensures TcpInv(n, Effect(n, s, a))
  {
  }

  lemma BouncersGoingOnKeepTcpInv(n: Nat, s: System, a: Action)
    requires Guard(n, s, a) && (a.BounceTimesOut? || a.BounceTooEarly? || a.BounceConnected?) && TcpInv(n, s)
    ensures TcpInv(n, Effect(n, s, a))
  {
  }

  lemma BouncersKeepTcpInv(n: Nat, s: System, a: Action)
    requires Guard(n, s, a) && BounceAction(a) && TcpInv(n, s)
    ensures TcpInv(n, Effect(n, s, a))
  {
    if a.BounceTimesOut? || a.BounceTooEarly? || a.BounceConnected? { BouncersGoingOnKeepTcpInv(n, s, a); }
  }

  lemma DatagramsKeepTcpInv(n: Nat, s: System, a: Action)
    requires Guard(n, s, a) && (a.ServeUdp? || a.BounceUdp? || a.StrangerSends?) && TcpInv(n, s)
    ensures TcpInv(n, Effect(n, s, a))
  {
    var t := Effect(n, s, a);
    assert t == s.(sent := t.sent);
  }

  // Sending the request marks our own connection as asked, and does nothing else.
  lemma CheckKeepsServers(n: Nat, s: System, a: TcpAnswers)
    requires ClientGuard(n, s, Check(a))
    ensures var t := ClientEffect(n, s, Check(a));
      && t == s.(client := t.client, conns := t.conns)
      && t.conns.Keys == s.conns.Keys
      && forall id :: id in s.conns ==> t.conns[id] == s.conns[id].(asked := t.conns[id].asked)
  {
  }

  lemma CheckKeepsTcpInv(n: Nat, s: System, a: TcpAnswers)
    requires ClientGuard(n, s, Check(a)) && TcpInv(n, s)
    ensures TcpInv(n, ClientEffect(n, s, Check(a)))
  {
    CheckKeepsServers(n, s, a);
    CheckRecordsReply(s.client, s.client.pc.w, a);
    var t := ClientEffect(n, s, Check(a));
    assert t.client.found == CheckTcp(s.client, s.client.pc.w, a).found;
    assert RecordedTcp(n, t);
    forall id | id in t.conns
      ensures ConnSound(t, id, t.conns[id])
    {
      assert ConnSound(s, id, s.conns[id]);
    }
  }

  // The other client steps leave TCP's findings alone, but for the flags.
  lemma OtherStepsKeepTcp(c: Client, e: Event)
    requires Enabled(c, e) && !e.Check?
    ensures var r, q := c.found, Step(c, e).found;
      q.myt1 == r.myt1 && q.myt2 == r.myt2 && q.myt3 == r.myt3 && q.dialled3 == r.dialled3
  {
    if e.Datagrams? {
      RecvUdpKeepsTcp(c.found, e.arrivals);
    }
  }

  lemma ClientKeepsTcpInv(n: Nat, s: System, e: Event)
    requires ClientGuard(n, s, e) && TcpInv(n, s)
    ensures TcpInv(n, ClientEffect(n, s, e))
  {
    if e.Check? {
      CheckKeepsTcpInv(n, s, e.answers);
    } else {
      OtherStepsKeepTcp(s.client, e);
      var t := ClientEffect(n, s, e);
      assert t.conns == s.conns && t.bounces == s.bounces && t.dialled == s.dialled && t.replied == s.replied;
    }
  }

  lemma ActionKeepsTcpInv(n: Nat, s: System, a: Action)
    requires Guard(n, s, a) && TcpInv(n, s)
    ensures TcpInv(n, Effect(n, s, a))
  {
    if a.ClientStep? {
      ClientKeepsTcpInv(n, s, a.e);
    } else if a.WorkerDials3? || a.WorkerAsks3? {
      AskingServer3KeepsTcpInv(n, s, a);
    } else if WorkerAction(a) {
      WorkersKeepTcpInv(n, s, a);
    } else if a.BounceHears? || a.BounceDials? {
      DiallingKeepsTcpInv(n, s, a);
    } else if BounceAction(a) {
      BouncersKeepTcpInv(n, s, a);
    } else {
      DatagramsKeepTcpInv(n, s, a);
    }
  }

  lemma {:induction false} RunKeepsTcpInv(n: Nat, s: System, actions: seq<Action>, t: System)
    requires TcpInv(n, s) && Run(n, s, actions, t)
    ensures TcpInv(n, t)
    decreases |actions|
  {
    if actions != [] {
      ActionKeepsTcpInv(n, s, actions[0]);
      RunKeepsTcpInv(n, Effect(n, s, actions[0]), actions[1..], t);
    }
  }

  // In every interleaving: when the client records server 2's reply or calls
  // connect for server 3, server 3 has already called connect for the public
  // endpoint that server 2 saw and reported.
  lemma Server3DialsFirst(n: Nat, s: System, actions: seq<Action>, t: System)
    requires Start(n, s) && Run(n, s, actions, t)
    ensures t.client.found.myt2.addr != 0 || t.client.found.dialled3 ==> n.tcpTo2 in t.dialled
    ensures t.client.found.myt2.addr != 0 ==> t.client.found.myt2 == n.tcpTo2
  {
    RunKeepsTcpInv(n, s, actions, t);
  }

  // And it was so before the step that records it.
  lemma Server3DialledBeforeReply(n: Nat, s: System, actions: seq<Action>, t: System, e: Event)
    requires Start(n, s) && Run(n, s, actions, t) && ClientGuard(n, t, e)
    requires t.client.found.myt2.addr == 0 && ClientEffect(n, t, e).client.found.myt2.addr != 0
    ensures n.tcpTo2 in t.dialled
  {
    RunKeepsTcpInv(n, s, actions, t);
    ClientKeepsTcpInv(n, t, e);
    assert ClientEffect(n, t, e).dialled == t.dialled;
  }

  // The client's own invariant holds in every run of the whole system.
  lemma {:induction false} RunKeepsSystemClientInv(n: Nat, s: System, actions: seq<Action>, t: System)
    requires ClientInv(s.client) && Run(n, s, actions, t)
    ensures ClientInv(t.client)
    decreases |actions|
  {
    if actions != [] {
      var a := actions[0];
      if a.ClientStep? {
        StepKeepsClientInv(s.client, a.e);
        assert Effect(n, s, a).client == Step(s.client, a.e);
      } else {
        assert Effect(n, s, a).client == s.client;
      }
      RunKeepsSystemClientInv(n, Effect(n, s, a), actions[1..], t);
    }
  }

  // ---------------------------------------------------------------------------
  // UDP: the verdicts follow the NAT's mapping and filter
  // ---------------------------------------------------------------------------

  // What any datagram ever sent looks like.
  predicate DatagramSound(n: Nat, d: Datagram) {
    && (Ours(n, d.src) ==>
          || d == Datagram(n.udpTo1, SERVER1, Request)
          || d == Datagram(n.udpTo2, SERVER2, Request)
          || (d.body == LoopProbe && !IsServer(d.dst)))
    && (d.body.Answer? && IsServer(d.src) ==> d.dst == d.body.pub)
    && (d.body.Answer? && d.src == SERVER1 && Ours(n, d.dst) ==> d.dst == n.udpTo1)
    && (d.body.Answer? && d.src == SERVER2 && Ours(n, d.dst) ==> d.dst == n.udpTo2)
    && (d.body.BounceRequest? && d.src == SERVER2 && Ours(n, d.body.pub) ==> d.body.pub == n.udpTo2)
    && (d.body.BounceRequest? && IsServer(d.src) ==> d.src == SERVER2 && d.dst == BOUNCER)
  }

  predicate RecordedUdp(n: Nat, r: Found) {
    && (r.myu1.addr != 0 ==> r.myu1 == n.udpTo1)
    && (r.myu2.addr != 0 ==> r.myu2 == n.udpTo2)
    && (r.myu3.addr != 0 ==> Ours(n, r.myu3) && SERVER3 in n.lets)
    && r.warned <= {3}
  }

  ghost predicate UdpInv(n: Nat, s: System) {
    ValidNat(n) && (forall d :: d in s.sent ==> DatagramSound(n, d)) && RecordedUdp(n, s.client.found)
  }

  lemma ServersKeepUdpInv(n: Nat, s: System, a: Action)
    requires Guard(n, s, a) && !a.ClientStep? && UdpInv(n, s)
    ensures UdpInv(n, Effect(n, s, a))
  {
    match a {
      case ServeUdp(at, d) => assert DatagramSound(n, d);
      case BounceUdp(d) => assert DatagramSound(n, d);
      case _ =>
    }
  }

  // A server's report that gets in is about the endpoint that server sees; one
  // from server 3 gets in only through a NAT that lets it in unsolicited.
  lemma ArrivalTellsMapping(n: Nat, s: System, a: Arrival)
    requires UdpInv(n, s) && CanArrive(n, s, a)
    ensures TellsMapping(n, a)
  {
    if a.payload.Report? && IsServer(a.from) {
      var d :| d in s.sent && d.src == a.from && d.body == Answer(a.payload.pub) && LetIn(n, s, d);
      assert DatagramSound(n, d);
      assert forall r :: r in s.sent && r.src == d.dst ==> DatagramSound(n, r);
    }
  }

  predicate TellsMapping(n: Nat, a: Arrival) {
    a.payload.Report? ==>
      && (a.from == SERVER1 ==> a.payload.pub == n.udpTo1)
      && (a.from == SERVER2 ==> a.payload.pub == n.udpTo2)
      && (a.from == SERVER3 ==> Ours(n, a.payload.pub) && SERVER3 in n.lets)
  }

  lemma ArrivalKeepsRecorded(n: Nat, r: Found, a: Arrival)
    requires RecordedUdp(n, r) && TellsMapping(n, a)
    ensures RecordedUdp(n, RecvOne(r, a))
  {
  }

  lemma {:induction false} ArrivalsKeepRecorded(n: Nat, s: System, r: Found, arrivals: seq<Arrival>)
    requires UdpInv(n, s) && RecordedUdp(n, r) && forall a :: a in arrivals ==> CanArrive(n, s, a)
    ensures RecordedUdp(n, RecvUdp(r, arrivals))
    decreases |arrivals|
  {
    if arrivals != [] {
      ArrivalTellsMapping(n, s, arrivals[0]);
      ArrivalKeepsRecorded(n, r, arrivals[0]);
      ArrivalsKeepRecorded(n, s, RecvOne(r, arrivals[0]), arrivals[1..]);
    }
  }

  predicate SameUdp(r: Found, q: Found) {
    r.myu1 == q.myu1 && r.myu2 == q.myu2 && r.myu3 == q.myu3 && r.warned == q.warned
  }

  lemma OtherStepsKeepUdp(c: Client, e: Event)
    requires Enabled(c, e) && !e.Datagrams?
    ensures SameUdp(c.found, Step(c, e).found)
  {
    match e {
      case Check(a) => CheckKeepsUdp(c, c.pc.w, a);
      case Loopback(a) => LoopbackKeepsUdp(c, a);
      case _ =>
    }
  }

  lemma CheckKeepsUdp(c: Client, w: Which, a: TcpAnswers)
    ensures SameUdp(c.found, CheckTcp(c, w, a).found)
  {
    CheckRecordsReply(c, w, a);
  }

  lemma LoopbackKeepsUdp(c: Client, a: LoopAnswers)
    ensures SameUdp(c.found, CheckLoopback(c, a).found)
  {
  }

  lemma ClientKeepsUdpInv(n: Nat, s: System, e: Event)
    requires ClientGuard(n, s, e) && UdpInv(n, s)
    ensures UdpInv(n, ClientEffect(n, s, e))
  {
    if e.Datagrams? {
      ArrivalsKeepRecorded(n, s, s.client.found, e.arrivals);
    } else {
      OtherStepsKeepUdp(s.client, e);
      if e.Try? {
        forall d | d in TryDatagrams(n, s.client)
          ensures DatagramSound(n, d)
        {
        }
      }
    }
  }

  lemma {:induction false} RunKeepsUdpInv(n: Nat, s: System, actions: seq<Action>, t: System)
    requires UdpInv(n, s) && Run(n, s, actions, t)
    ensures UdpInv(n, t)
    decreases |actions|
  {
    if actions != [] {
      if actions[0].ClientStep? {
        ClientKeepsUdpInv(n, s, actions[0].e);
      } else {
        ServersKeepUdpInv(n, s, actions[0]);
      }
      RunKeepsUdpInv(n, Effect(n, s, actions[0]), actions[1..], t);
    }
  }

  // ---------------------------------------------------------------------------
  // The report
  // ---------------------------------------------------------------------------

  // A run that gets to the verdicts reports consistent translation exactly when
  // the NAT maps the socket alike towards both servers, for TCP and for UDP.
  lemma ConsistencyVerdicts(n: Nat, s: System, actions: seq<Action>, t: System)
    requires Start(n, s) && Run(n, s, actions, t)
    ensures var v := FinalReport(t.client.found);
      v.Verdict? ==> (v.udpConsistent <==> n.udpTo1 == n.udpTo2) && (v.tcpConsistent <==> n.tcpTo1 == n.tcpTo2)
    ensures t.client.found.warned <= {3}
  {
    RunKeepsTcpInv(n, s, actions, t);
    RunKeepsUdpInv(n, s, actions, t);
  }

  // It reports unsolicited datagrams as not filtered only if the NAT lets server 3
  // in unsolicited, and nothing was ever sent from our endpoints to server 3.
  lemma UdpFilterVerdict(n: Nat, s: System, actions: seq<Action>, t: System)
    requires Start(n, s) && Run(n, s, actions, t)
    ensures var v := FinalReport(t.client.found); v.Verdict? && !v.udpFiltered ==> SERVER3 in n.lets
    ensures forall d :: d in t.sent && Ours(n, d.src) ==> !(d.dst == SERVER3)
  {
    RunKeepsUdpInv(n, s, actions, t);
  }

  // ---------------------------------------------------------------------------
  // Server 3's reports are consistent unless somebody else writes to its private port
  // ---------------------------------------------------------------------------

  predicate Genuine(sent: set<Datagram>) {
    forall d :: d in sent && d.dst == BOUNCER && d.body.BounceRequest? ==> d.src == SERVER2
  }

  predicate FromThird(n: Nat, d: Datagram) {
    d.src == SERVER3 && d.body.Answer? && Ours(n, d.dst) ==> d.dst == n.udpTo2
  }

  predicate RecordedThird(n: Nat, r: Found) {
    (r.myu3.addr != 0 ==> r.myu3 == n.udpTo2) && 3 !in r.warned
  }

  ghost predicate ThirdInv(n: Nat, s: System) {
    (forall d :: d in s.sent ==> FromThird(n, d)) && RecordedThird(n, s.client.found)
  }

  lemma ThirdArrivalTells(n: Nat, s: System, a: Arrival)
    requires UdpInv(n, s) && ThirdInv(n, s) && CanArrive(n, s, a) && a.from == SERVER3 && a.payload.Report?
    ensures a.payload.pub == n.udpTo2
  {
    var d :| d in s.sent && d.src == a.from && d.body == Answer(a.payload.pub) && LetIn(n, s, d);
    assert FromThird(n, d) && DatagramSound(n, d);
  }

  lemma {:induction false} ArrivalsKeepThird(n: Nat, s: System, r: Found, arrivals: seq<Arrival>)
    requires UdpInv(n, s) && ThirdInv(n, s) && RecordedThird(n, r)
    requires forall a :: a in arrivals ==> CanArrive(n, s, a)
    ensures RecordedThird(n, RecvUdp(r, arrivals))
    decreases |arrivals|
  {
    if arrivals != [] {
      var a := arrivals[0];
      if a.from == SERVER3 && a.payload.Report? { ThirdArrivalTells(n, s, a); }
      assert RecordedThird(n, RecvOne(r, a));
      ArrivalsKeepThird(n, s, RecvOne(r, a), arrivals[1..]);
    }
  }

  lemma ClientKeepsThirdInv(n: Nat, s: System, e: Event)
    requires ClientGuard(n, s, e) && UdpInv(n, s) && ThirdInv(n, s)
    ensures ThirdInv(n, ClientEffect(n, s, e))
  {
    if e.Datagrams? {
      ArrivalsKeepThird(n, s, s.client.found, e.arrivals);
    } else {
      OtherStepsKeepUdp(s.client, e);
    }
  }

  lemma ServersKeepThirdInv(n: Nat, s: System, a: Action)
    requires Guard(n, s, a) && !a.ClientStep? && UdpInv(n, s) && ThirdInv(n, s) && Genuine(s.sent)
    ensures ThirdInv(n, Effect(n, s, a))
  {
    if a.BounceUdp? { assert DatagramSound(n, a.d); }
  }

  lemma {:induction false} RunKeepsThirdInv(n: Nat, s: System, actions: seq<Action>, t: System)
    requires UdpInv(n, s) && ThirdInv(n, s) && Run(n, s, actions, t) && Genuine(t.sent)
    ensures ThirdInv(n, t) && s.sent <= t.sent
    decreases |actions|
  {
    if actions != [] {
      var a, u := actions[0], Effect(n, s, actions[0]);
      SentGrows(n, u, actions[1..], t);
      assert s.sent <= u.sent;
      if a.ClientStep? {
        ClientKeepsUdpInv(n, s, a.e);
        ClientKeepsThirdInv(n, s, a.e);
      } else {
        ServersKeepUdpInv(n, s, a);
        ServersKeepThirdInv(n, s, a);
      }
      RunKeepsThirdInv(n, u, actions[1..], t);
    }
  }

  lemma {:induction false} SentGrows(n: Nat, s: System, actions: seq<Action>, t: System)
    requires Run(n, s, actions, t)
    ensures s.sent <= t.sent
    decreases |actions|
  {
    if actions != [] {
      var u := Effect(n, s, actions[0]);
      assert s.sent <= u.sent;
      SentGrows(n, u, actions[1..], t);
    }
  }

  // No server is ever reported to be inconsistent, server 3 neither unless somebody
  // but server 2 has written to its private port.
  lemma WarnedOnlyOfForgery(n: Nat, s: System, actions: seq<Action>, t: System)
    requires Start(n, s) && Run(n, s, actions, t) && t.client.found.warned != {}
    ensures t.client.found.warned == {3} && !Genuine(t.sent)
  {
    RunKeepsUdpInv(n, s, actions, t);
    if Genuine(t.sent) { RunKeepsThirdInv(n, s, actions, t); }
  }

  // ---------------------------------------------------------------------------
  // Unsolicited connections
  // ---------------------------------------------------------------------------

  // A connection from server 3 accepted before we dialled it came through a NAT
  // that lets it in.
  ghost predicate InboundInv(n: Nat, c: Client) {
    && (c.fds.incb >= 0 && !c.found.dialled3 ==> SERVER3 in n.letsTcp)
    && (c.found.inbound3 && ThreeBeforeTwo(c.found) ==> SERVER3 in n.letsTcp)
    && (c.found.inbound3 ==> c.found.heard3 > 0)
  }

  lemma {:induction false} CallbackFromThird(f: Fds, accepted: seq<Accepted>)
    requires f.incb < 0 && AcceptAll(f, accepted).incb >= 0
    ensures exists a :: a in accepted && a.from == SERVER3
    decreases |accepted|
  {
    if accepted[0].from == SERVER3 {
      assert accepted[0] in accepted;
    } else {
      CallbackFromThird(AcceptOne(f, accepted[0]), accepted[1..]);
    }
  }

  // What a reply handler leaves of the callback's socket.
  lemma CheckForgetsCallback(c: Client, w: Which, a: TcpAnswers)
    ensures var d := CheckTcp(c, w, a);
      (d.fds.incb >= 0 ==> d.fds.incb == c.fds.incb) && (c.found.dialled3 ==> d.found.dialled3)
  {
  }

  lemma CheckKeepsInbound(n: Nat, c: Client, a: TcpAnswers)
    requires Enabled(c, Check(a)) && ClientInv(c) && InboundInv(n, c)
    ensures InboundInv(n, Step(c, Check(a)))
  {
    var w := c.pc.w;
    CheckForgetsCallback(c, w, a);
    CheckRecordsReply(c, w, a);
    var d := CheckTcp(c, w, a);
    if d.found != c.found {
      ReplyIdle(c.fds, w, c.found.dialled3);
      assert NatClient.Heard(c.found, c.round);
    }
  }

  lemma LoopbackKeepsInbound(c: Client, a: LoopAnswers)
    ensures var d := CheckLoopback(c, a); d.fds.incb == c.fds.incb && SameTcp(c.found, d.found)
  {
  }

  lemma ClientKeepsInbound(n: Nat, s: System, e: Event)
    requires ClientGuard(n, s, e) && ClientInv(s.client) && InboundInv(n, s.client)
    ensures InboundInv(n, Step(s.client, e))
  {
    var c := s.client;
    match e {
      case Listen(accepted, _) =>
        if c.fds.incb < 0 && AcceptAll(c.fds, accepted).incb >= 0 { CallbackFromThird(c.fds, accepted); }
      case Check(a) => CheckKeepsInbound(n, c, a);
      case Loopback(a) => LoopbackKeepsInbound(c, a);
      case Datagrams(ds) => RecvUdpKeepsTcp(c.found, ds);
      case _ =>
    }
  }

  lemma {:induction false} RunKeepsInbound(n: Nat, s: System, actions: seq<Action>, t: System)
    requires ClientInv(s.client) && InboundInv(n, s.client) && Run(n, s, actions, t)
    ensures InboundInv(n, t.client)
    decreases |actions|
  {
    if actions != [] {
      var a, u := actions[0], Effect(n, s, actions[0]);
      if a.ClientStep? {
        StepKeepsClientInv(s.client, a.e);
        ClientKeepsInbound(n, s, a.e);
        assert u.client == Step(s.client, a.e);
      } else {
        assert u.client == s.client;
      }
      RunKeepsInbound(n, u, actions[1..], t);
    }
  }

  // The report says that unsolicited connections are not filtered exactly if reply 3
  // was recorded in an earlier round than reply 2; then it was really sent by server
  // 3, came over an accepted connection before the client called connect for server
  // 3, and the NAT lets server 3 connect in unsolicited.
  lemma TcpFilterVerdict(n: Nat, s: System, actions: seq<Action>, t: System)
    requires Start(n, s) && Run(n, s, actions, t) && t.client.pc == AtReport
    ensures var r, v := t.client.found, FinalReport(t.client.found);
      v.Verdict? ==>
        && (!v.tcpFiltered <==> 0 < r.heard3 < r.heard2)
        && (!v.tcpFiltered ==> r.inbound3 && r.myt3 in t.replied && SERVER3 in n.letsTcp)
  {
    RunKeepsTcpInv(n, s, actions, t);
    InitialInv(s.client);
    RunKeepsSystemClientInv(n, s, actions, t);
    RunKeepsInbound(n, s, actions, t);
  }
}
