// The NAT check client: its descriptors and descriptor sets, the addresses it
// records and the flags it raises. Every system call answer is an input; the
// functions say what each handler does with it, the class does it on the
// program's variables.
module NatClient {

  datatype Endpoint = Endpoint(addr: nat, port: nat)

  const UNKNOWN := Endpoint(0, 0)

  predicate Public(e: Endpoint) {
    e.addr != 0 && e.port != 0
  }

  const NTRIES: nat := 20
  const SERVPORT: nat := 9856
  const PRIVPORT: nat := 9857
  const SERVER1 := Endpoint(0xC0A80189, SERVPORT)
  const SERVER2 := Endpoint(0xC0A8018A, SERVPORT)
  const SERVER3 := Endpoint(0xC0A8018B, SERVPORT)
  const BOUNCER := Endpoint(0xC0A8018B, PRIVPORT)

  // The socket variables that are read for a server's TCP reply.
  datatype Which = T1 | T2 | T3 | Callback

  // Where the main loop is.
  datatype Pc = AtTry | AtSelect | AtListen | AtCheck(w: Which) | AtJudge | AtLoopback | AtUdp | AtReport | Dead

  // The socket variables and the sets given to select, with the descriptors the
  // process has open.
  datatype Fds = Fds(
    tcp0: int, tcp1: int, tcp2: int, tcp3: int, tcp4: int, udp1: int, udp2: int, incb: int, inloop: int,
    maxsock: int, rfds: set<int>, wfds: set<int>, open: set<int>)

  // What the program has found out. Not program variables are dialled3, whether
  // connect was called for server 3; inbound3, whether server 3's reply came over
  // an accepted connection; heard2 and heard3, the rounds of the inner loop in
  // which replies 2 and 3 were recorded; and warned, the servers that were printed
  // to report our address inconsistently.
  datatype Found = Found(
    myt1: Endpoint, myt2: Endpoint, myt3: Endpoint, myu1: Endpoint, myu2: Endpoint, myu3: Endpoint,
    tcploop: bool, udploop: bool, t3toosoon: bool, warned: set<nat>,
    dialled3: bool, inbound3: bool, heard2: nat, heard3: nat)

  datatype Client = Client(fds: Fds, found: Found, tries: nat, timeout: bool, round: nat, pc: Pc)

  // ---------------------------------------------------------------------------
  // Answers of the operating system and the network
  // ---------------------------------------------------------------------------

  datatype ConnectAnswer = Pending | Refused | SendBlocked | SendFailed | Sent
  datatype RecvAnswer = NothingYet | RecvFailed | Unusable | Reply(pub: Endpoint)
  datatype OpenAnswer = Started | InUse | Failed
  datatype TcpAnswers = TcpAnswers(connect: ConnectAnswer, recv: RecvAnswer, open3: OpenAnswer, loop4: OpenAnswer)

  datatype Accepted = Accepted(fd: int, from: Endpoint)

  datatype LoopAnswers = LoopAnswers(connect: ConnectAnswer, recv: LoopRecv)
  datatype LoopRecv = NoData | Data(loopMagic: bool)

  datatype Payload = Probe | Report(pub: Endpoint) | Junk
  datatype Arrival = Arrival(from: Endpoint, payload: Payload)

  // What the program hands its two UDP sockets.
  datatype UdpSocket = Udp1 | Udp2
  datatype Magic = ReqMagic | LoopMagic
  datatype Send = Send(sock: UdpSocket, to: Endpoint, magic: Magic)

  // ---------------------------------------------------------------------------
  // Descriptors
  // ---------------------------------------------------------------------------

  function Max(a: int, b: int): int {
    if a > b then a else b
  }

  function Watch(f: Fds, fd: int): Fds {
    f.(wfds := f.wfds + {fd}, maxsock := Max(f.maxsock, fd))
  }

  function Socket(f: Fds, w: Which): int {
    match w
    case T1 => f.tcp1
    case T2 => f.tcp2
    case T3 => f.tcp3
    case Callback => f.incb
  }

  // The request is sent: now wait for the reply.
  function AwaitReply(f: Fds, sock: int): Fds {
    f.(wfds := f.wfds - {sock}, rfds := f.rfds + {sock})
  }

  // Stop watching a socket and forget it; its descriptor stays open.
  function Forget(f: Fds, w: Which): Fds {
    var g := f.(rfds := f.rfds - {Socket(f, w)});
    match w
    case T1 => g.(tcp1 := -1)
    case T2 => g.(tcp2 := -1)
    case T3 => g.(tcp3 := -1)
    case Callback => g.(incb := -1)
  }

  // A connection that finds its variable taken is closed again.
  function AcceptOne(f: Fds, a: Accepted): Fds {
    if a.from == SERVER3 then (if f.incb < 0 then AcceptCallback(f, a.fd) else f)
    else (if f.inloop < 0 then AcceptLoop(f, a.fd) else f)
  }

  function AcceptCallback(f: Fds, fd: int): Fds {
    f.(incb := fd, rfds := f.rfds + {fd}, maxsock := Max(f.maxsock, fd), open := f.open + {fd})
  }

  function AcceptLoop(f: Fds, fd: int): Fds {
    f.(inloop := fd, rfds := f.rfds + {fd}, maxsock := Max(f.maxsock, fd), open := f.open + {fd})
  }

  function AcceptAll(f: Fds, accepted: seq<Accepted>): Fds
    decreases |accepted|
  {
    if accepted == [] then f else AcceptAll(AcceptOne(f, accepted[0]), accepted[1..])
  }

  // After server 2's reply: connect to server 3 and to our own public address.
  function Dial(f: Fds, open3: OpenAnswer): Fds {
    var g := if open3 == Started then Watch(f, f.tcp3) else f;
    Forget(Watch(g, g.tcp4), T2)
  }

  function CloseLoopOut(f: Fds): Fds {
    f.(wfds := f.wfds - {f.tcp4}, open := f.open - {f.tcp4}, tcp4 := -1)
  }

  function CloseLoopIn(f: Fds): Fds {
    f.(rfds := f.rfds - {f.inloop}, open := f.open - {f.inloop}, inloop := -1)
  }

  // ---------------------------------------------------------------------------
  // The handlers
  // ---------------------------------------------------------------------------

  function Mine(r: Found, w: Which): Endpoint {
    match w
    case T1 => r.myt1
    case T2 => r.myt2
    case T3 => r.myt3
    case Callback => r.myt3
  }

  function Record(r: Found, w: Which, e: Endpoint, round: nat): Found {
    match w
    case T1 => r.(myt1 := e)
    case T2 => r.(myt2 := e, heard2 := round, dialled3 := true)
    case T3 => r.(myt3 := e, heard3 := round)
    case Callback => r.(myt3 := e, heard3 := round, inbound3 := true)
  }

  function Died(c: Client): Client {
    c.(pc := Dead)
  }

  // accept is repeated until nothing is waiting; an error ends the program.
  function ListenTcp(c: Client, accepted: seq<Accepted>, blocked: bool): Client {
    var d := c.(fds := AcceptAll(c.fds, accepted));
    if blocked then d else Died(d)
  }

  function CheckTcp(c: Client, w: Which, a: TcpAnswers): Client {
    var sock := Socket(c.fds, w);
    if sock < 0 then c
    else if sock in c.fds.wfds then TrySend(c, sock, a.connect)
    else if sock in c.fds.rfds then TakeReply(c, w, a)
    else c
  }

  // connect again, and once connected send the request.
  function TrySend(c: Client, sock: int, connect: ConnectAnswer): Client {
    match connect
    case Pending => c
    case Refused => Died(c)
    case SendBlocked => c
    case SendFailed => Died(c)
    case Sent => c.(fds := AwaitReply(c.fds, sock))
  }

  // Only a whole reply, and only the first one, is recorded.
  function TakeReply(c: Client, w: Which, a: TcpAnswers): Client {
    match a.recv
    case NothingYet => c
    case RecvFailed => Died(c)
    case Unusable => c.(fds := Forget(c.fds, w))
    case Reply(pub) =>
      if Mine(c.found, w).addr != 0 then c.(fds := Forget(c.fds, w))
      else UseReply(c, w, pub, a)
  }

  function UseReply(c: Client, w: Which, pub: Endpoint, a: TcpAnswers): Client {
    var found := Record(c.found, w, pub, c.round);
    if w != T2 then c.(fds := Forget(c.fds, w), found := found)
    else if a.loop4 != Started then Died(c.(found := found))
    else c.(fds := Dial(c.fds, a.open3), found := found)
  }

  function Judge(c: Client): Client {
    if c.found.myt3.port != 0 && c.found.myt2.port == 0 then c.(found := c.found.(t3toosoon := true)) else c
  }

  function LoopOut(c: Client, connect: ConnectAnswer): Client {
    if c.fds.tcp4 >= 0 && c.fds.tcp4 in c.fds.wfds then
      match connect
      case Pending => c
      case Refused => Died(c)
      case SendBlocked => c
      case _ => c.(fds := CloseLoopOut(c.fds))
    else c
  }

  function LoopIn(c: Client, recv: LoopRecv): Client {
    if c.fds.inloop >= 0 && recv.Data? then
      c.(fds := CloseLoopIn(c.fds), found := c.found.(tcploop := c.found.tcploop || recv.loopMagic))
    else c
  }

  function CheckLoopback(c: Client, a: LoopAnswers): Client {
    var d := LoopOut(c, a.connect);
    if d.pc == Dead then d else LoopIn(d, a.recv)
  }

  // The first report is recorded; a later one that differs draws a warning.
  function CheckUdp(mine: Endpoint, pub: Endpoint): Endpoint {
    if mine.addr != 0 then mine else pub
  }

  function Warn(warned: set<nat>, server: nat, mine: Endpoint, pub: Endpoint): set<nat> {
    if mine.addr != 0 && mine != pub then warned + {server} else warned
  }

  function RecvOne(r: Found, d: Arrival): Found {
    match d.payload
    case Probe => r.(udploop := true)
    case Junk => r
    case Report(pub) =>
      if d.from == SERVER1 then r.(myu1 := CheckUdp(r.myu1, pub), warned := Warn(r.warned, 1, r.myu1, pub))
      else if d.from == SERVER2 then r.(myu2 := CheckUdp(r.myu2, pub), warned := Warn(r.warned, 2, r.myu2, pub))
      else if d.from == SERVER3 then r.(myu3 := CheckUdp(r.myu3, pub), warned := Warn(r.warned, 3, r.myu3, pub))
      else r
  }

  function RecvUdp(r: Found, arrivals: seq<Arrival>): Found
    decreases |arrivals|
  {
    if arrivals == [] then r else RecvUdp(RecvOne(r, arrivals[0]), arrivals[1..])
  }

  // ---------------------------------------------------------------------------
  // The main loop as a step machine
  // ---------------------------------------------------------------------------

  datatype Event =
    | Try
    | Select(expired: bool)
    | Listen(accepted: seq<Accepted>, blocked: bool)
    | Check(answers: TcpAnswers)
    | Compare
    | Loopback(loop: LoopAnswers)
    | Datagrams(arrivals: seq<Arrival>)

  function After(w: Which): Pc {
    match w
    case T1 => AtCheck(T2)
    case T2 => AtCheck(T3)
    case T3 => AtCheck(Callback)
    case Callback => AtJudge
  }

  function Next(c: Client, pc: Pc): Client {
    if c.pc == Dead then c else c.(pc := pc)
  }

  predicate Enabled(c: Client, e: Event) {
    match e
    case Try => c.pc == AtTry
    case Select(_) => c.pc == AtSelect
    case Listen(accepted, _) => c.pc == AtListen && FreshDescriptors(c.fds, accepted)
    case Check(a) => c.pc.AtCheck? && (a.recv.Reply? ==> Public(a.recv.pub))
    case Compare => c.pc == AtJudge
    case Loopback(_) => c.pc == AtLoopback
    case Datagrams(ds) => c.pc == AtUdp && forall d :: d in ds && d.payload.Report? ==> Public(d.payload.pub)
  }

  // accept returns a descriptor that is not open at that time.
  predicate FreshDescriptors(f: Fds, accepted: seq<Accepted>)
    decreases |accepted|
  {
    accepted != [] ==>
      accepted[0].fd >= 0 && accepted[0].fd !in f.open && FreshDescriptors(AcceptOne(f, accepted[0]), accepted[1..])
  }

  function Step(c: Client, e: Event): Client
    requires Enabled(c, e)
  {
    match e
    case Try => c.(timeout := false, pc := AtSelect)
    case Select(expired) => c.(timeout := expired, round := c.round + 1, pc := AtListen)
    case Listen(accepted, blocked) => Next(ListenTcp(c, accepted, blocked), AtCheck(T1))
    case Check(a) => Next(CheckTcp(c, c.pc.w, a), After(c.pc.w))
    case Compare => Judge(c).(pc := AtLoopback)
    case Loopback(a) => Next(CheckLoopback(c, a), AtUdp)
    case Datagrams(ds) => EndOfRound(c.(found := RecvUdp(c.found, ds)))
  }

  function EndOfRound(c: Client): Client {
    if !c.timeout then c.(pc := AtSelect)
    else c.(tries := c.tries + 1, pc := if c.tries < NTRIES then AtTry else AtReport)
  }

  // ---------------------------------------------------------------------------
  // What the report says
  // ---------------------------------------------------------------------------

  datatype Verdict =
    | NoContact(server: nat, tcp: bool)
    | Verdict(tcpConsistent: bool, simultaneousOpen: bool, tcpLoopback: bool, tcpFiltered: bool,
              udpConsistent: bool, udpLoopback: bool, udpFiltered: bool)

  function FinalReport(r: Found): Verdict {
    if r.myt1.addr == 0 then NoContact(1, true)
    else if r.myt2.addr == 0 then NoContact(2, true)
    else if r.myu1.addr == 0 then NoContact(1, false)
    else if r.myu2.addr == 0 then NoContact(2, false)
    else Verdict(r.myt1 == r.myt2, r.myt3.port != 0, r.tcploop, !r.t3toosoon,
                 r.myu1 == r.myu2, r.udploop, r.myu3.addr == 0)
  }

  // ---------------------------------------------------------------------------
  // Invariants of the client, whatever the system and the network answer
  // ---------------------------------------------------------------------------

  predicate Apart(a: int, b: int) {
    a < 0 || a != b
  }

  // No descriptor is in two of the variables.
  predicate Distinct(f: Fds) {
    && f.tcp0 != f.udp1 && f.tcp0 != f.udp2 && f.udp1 != f.udp2
    && ApartFromTcp(f.tcp0, f) && ApartFromTcp(f.udp1, f) && ApartFromTcp(f.udp2, f)
    && Apart(f.tcp1, f.tcp2) && Apart(f.tcp1, f.tcp3) && Apart(f.tcp1, f.tcp4)
    && Apart(f.tcp1, f.incb) && Apart(f.tcp1, f.inloop)
    && Apart(f.tcp2, f.tcp3) && Apart(f.tcp2, f.tcp4) && Apart(f.tcp2, f.incb) && Apart(f.tcp2, f.inloop)
    && Apart(f.tcp3, f.tcp4) && Apart(f.tcp3, f.incb) && Apart(f.tcp3, f.inloop)
    && Apart(f.tcp4, f.incb) && Apart(f.tcp4, f.inloop) && Apart(f.incb, f.inloop)
  }

  predicate ApartFromTcp(fd: int, f: Fds) {
    fd != f.tcp1 && fd != f.tcp2 && fd != f.tcp3 && fd != f.tcp4 && fd != f.incb && fd != f.inloop
  }

  // Every descriptor in a variable is open.
  predicate Held(f: Fds) {
    && f.tcp0 in f.open && f.udp1 in f.open && f.udp2 in f.open
    && (f.tcp1 < 0 || f.tcp1 in f.open) && (f.tcp2 < 0 || f.tcp2 in f.open)
    && (f.tcp3 < 0 || f.tcp3 in f.open) && (f.tcp4 < 0 || f.tcp4 in f.open)
    && (f.incb < 0 || f.incb in f.open) && (f.inloop < 0 || f.inloop in f.open)
  }

  predicate Readable(f: Fds, fd: int) {
    || fd == f.tcp0 || fd == f.udp1 || fd == f.tcp1 || fd == f.tcp2 || fd == f.tcp3
    || fd == f.incb || fd == f.inloop
  }

  predicate Writable(f: Fds, fd: int) {
    fd == f.tcp1 || fd == f.tcp2 || fd == f.tcp3 || fd == f.tcp4
  }

  // The watched sets are disjoint, hold only descriptors of live variables, and
  // stay within maxsock.
  ghost predicate Watched(f: Fds) {
    && f.tcp0 >= 0 && f.udp1 >= 0 && f.udp2 >= 0
    && Distinct(f) && Held(f)
    && (forall fd :: fd in f.rfds ==> 0 <= fd <= f.maxsock && Readable(f, fd) && fd !in f.wfds)
    && (forall fd :: fd in f.wfds ==> 0 <= fd <= f.maxsock && Writable(f, fd))
  }

  // Until server 2's reply the two sockets it makes us connect are idle.
  ghost predicate Idle(f: Fds, dialled3: bool) {
    && (dialled3 ==> f.tcp2 < 0)
    && (!dialled3 ==> f.tcp3 >= 0 && f.tcp4 >= 0)
    && (!dialled3 ==> f.tcp3 !in f.rfds && f.tcp3 !in f.wfds && f.tcp4 !in f.rfds && f.tcp4 !in f.wfds)
  }

  ghost predicate Descriptors(c: Client) {
    c.pc == Dead || (Watched(c.fds) && Idle(c.fds, c.found.dialled3))
  }

  lemma AcceptCallbackWatched(f: Fds, fd: int)
    requires Watched(f) && fd >= 0 && fd !in f.open && f.incb < 0
    ensures Watched(AcceptCallback(f, fd))
  {
    assert !Readable(f, fd) && !Writable(f, fd);
  }

  lemma AcceptLoopWatched(f: Fds, fd: int)
    requires Watched(f) && fd >= 0 && fd !in f.open && f.inloop < 0
    ensures Watched(AcceptLoop(f, fd))
  {
    assert !Readable(f, fd) && !Writable(f, fd);
  }

  lemma {:induction false} AcceptAllWatched(f: Fds, accepted: seq<Accepted>, dialled3: bool)
    requires Watched(f) && Idle(f, dialled3) && FreshDescriptors(f, accepted)
    ensures Watched(AcceptAll(f, accepted)) && Idle(AcceptAll(f, accepted), dialled3)
    decreases |accepted|
  {
    if accepted != [] {
      var a := accepted[0];
      if a.from == SERVER3 && f.incb < 0 { AcceptCallbackWatched(f, a.fd); }
      if a.from != SERVER3 && f.inloop < 0 { AcceptLoopWatched(f, a.fd); }
      AcceptAllWatched(AcceptOne(f, a), accepted[1..], dialled3);
    }
  }

  lemma ForgetWatched(f: Fds, w: Which)
    requires Watched(f) && Socket(f, w) in f.rfds
    ensures Watched(Forget(f, w))
  {
    match w {
      case T1 => ForgetFirst(f);
      case T2 => ForgetSecond(f);
      case T3 => ForgetThird(f);
      case Callback => ForgetCallback(f);
    }
  }

  lemma ForgetFirst(f: Fds)
    requires Watched(f) && f.tcp1 in f.rfds
    ensures Watched(f.(rfds := f.rfds - {f.tcp1}, tcp1 := -1))
  {
  }

  lemma ForgetSecond(f: Fds)
    requires Watched(f) && f.tcp2 in f.rfds
    ensures Watched(f.(rfds := f.rfds - {f.tcp2}, tcp2 := -1))
  {
  }

  lemma ForgetThird(f: Fds)
    requires Watched(f) && f.tcp3 in f.rfds
    ensures Watched(f.(rfds := f.rfds - {f.tcp3}, tcp3 := -1))
  {
  }

  lemma ForgetCallback(f: Fds)
    requires Watched(f) && f.incb in f.rfds
    ensures Watched(f.(rfds := f.rfds - {f.incb}, incb := -1))
  {
  }

  lemma WatchWatched(f: Fds, fd: int)
    requires Watched(f) && fd >= 0 && fd !in f.rfds && Writable(f, fd)
    ensures Watched(Watch(f, fd))
  {
  }

  lemma DialWatched(f: Fds, open3: OpenAnswer)
    requires Watched(f) && Idle(f, false) && f.tcp2 in f.rfds
    ensures Watched(Dial(f, open3)) && Idle(Dial(f, open3), true)
    ensures Dial(f, open3).wfds == f.wfds + {f.tcp4} + (if open3 == Started then {f.tcp3} else {})
  {
    if open3 == Started { WatchWatched(f, f.tcp3); }
    var g := if open3 == Started then Watch(f, f.tcp3) else f;
    WatchWatched(g, g.tcp4);
    ForgetWatched(Watch(g, g.tcp4), T2);
  }

  lemma AwaitWatched(f: Fds, w: Which)
    requires Watched(f) && Socket(f, w) in f.wfds
    ensures Watched(AwaitReply(f, Socket(f, w)))
  {
  }

  lemma CloseLoopOutWatched(f: Fds)
    requires Watched(f) && f.tcp4 >= 0 && f.tcp4 in f.wfds
    ensures Watched(CloseLoopOut(f))
  {
  }

  lemma CloseLoopInWatched(f: Fds)
    requires Watched(f) && f.inloop >= 0
    ensures Watched(CloseLoopIn(f))
  {
  }

  lemma ReplyIdle(f: Fds, w: Which, dialled3: bool)
    requires Watched(f) && Idle(f, dialled3) && Socket(f, w) in f.rfds
    ensures Watched(Forget(f, w)) && Idle(Forget(f, w), dialled3)
    ensures w == T3 ==> dialled3
    ensures w == T2 ==> !dialled3
  {
    ForgetWatched(f, w);
  }

  lemma AwaitIdle(f: Fds, w: Which, dialled3: bool)
    requires Watched(f) && Idle(f, dialled3) && Socket(f, w) in f.wfds
    ensures Watched(AwaitReply(f, Socket(f, w))) && Idle(AwaitReply(f, Socket(f, w)), dialled3)
  {
    AwaitWatched(f, w);
  }

  lemma SendingKeepsDescriptors(c: Client, w: Which, connect: ConnectAnswer)
    requires Descriptors(c) && c.pc != Dead && Socket(c.fds, w) in c.fds.wfds
    ensures Descriptors(TrySend(c, Socket(c.fds, w), connect))
  {
    AwaitIdle(c.fds, w, c.found.dialled3);
  }

  lemma ForgettingKeepsDescriptors(c: Client, w: Which)
    requires Descriptors(c) && c.pc != Dead && Socket(c.fds, w) in c.fds.rfds
    ensures Descriptors(c.(fds := Forget(c.fds, w)))
  {
    ReplyIdle(c.fds, w, c.found.dialled3);
  }

  lemma UsingKeepsDescriptors(c: Client, w: Which, pub: Endpoint, a: TcpAnswers)
    requires Descriptors(c) && c.pc != Dead && Socket(c.fds, w) in c.fds.rfds
    ensures Descriptors(UseReply(c, w, pub, a))
  {
    ReplyIdle(c.fds, w, c.found.dialled3);
    if w == T2 { DialWatched(c.fds, a.open3); }
  }

  lemma ReplyKeepsDescriptors(c: Client, w: Which, a: TcpAnswers)
    requires Descriptors(c) && c.pc != Dead && Socket(c.fds, w) in c.fds.rfds
    ensures Descriptors(TakeReply(c, w, a))
  {
    if a.recv == Unusable || (a.recv.Reply? && Mine(c.found, w).addr != 0) {
      ForgettingKeepsDescriptors(c, w);
    } else if a.recv.Reply? {
      UsingKeepsDescriptors(c, w, a.recv.pub, a);
    }
  }

  lemma CheckKeepsDescriptors(c: Client, w: Which, a: TcpAnswers)
    requires Descriptors(c) && c.pc != Dead
    ensures Descriptors(CheckTcp(c, w, a))
  {
    var sock := Socket(c.fds, w);
    if sock >= 0 {
      if sock in c.fds.wfds {
        SendingKeepsDescriptors(c, w, a.connect);
      } else if sock in c.fds.rfds {
        ReplyKeepsDescriptors(c, w, a);
      }
    }
  }

  lemma LoopbackKeepsDescriptors(c: Client, a: LoopAnswers)
    requires Descriptors(c) && c.pc != Dead
    ensures Descriptors(CheckLoopback(c, a))
  {
    if c.fds.tcp4 >= 0 && c.fds.tcp4 in c.fds.wfds { CloseLoopOutWatched(c.fds); }
    var d := LoopOut(c, a.connect);
    if d.pc != Dead && d.fds.inloop >= 0 { CloseLoopInWatched(d.fds); }
  }

  lemma StepKeepsDescriptors(c: Client, e: Event)
    requires Enabled(c, e) && Descriptors(c)
    ensures Descriptors(Step(c, e))
  {
    match e {
      case Listen(accepted, _) => AcceptAllWatched(c.fds, accepted, c.found.dialled3);
      case Check(a) => CheckKeepsDescriptors(c, c.pc.w, a);
      case Loopback(a) => LoopbackKeepsDescriptors(c, a);
      case Datagrams(ds) => RecvUdpKeepsTcp(c.found, ds);
      case _ =>
    }
  }

  // Datagrams do not touch what TCP has found out.
  predicate SameTcp(r: Found, q: Found) {
    && r.myt1 == q.myt1 && r.myt2 == q.myt2 && r.myt3 == q.myt3 && r.t3toosoon == q.t3toosoon
    && r.dialled3 == q.dialled3 && r.inbound3 == q.inbound3 && r.heard2 == q.heard2 && r.heard3 == q.heard3
  }

  lemma {:induction false} RecvUdpKeepsTcp(r: Found, ds: seq<Arrival>)
    ensures SameTcp(r, RecvUdp(r, ds))
    decreases |ds|
  {
    if ds != [] {
      assert SameTcp(r, RecvOne(r, ds[0]));
      RecvUdpKeepsTcp(RecvOne(r, ds[0]), ds[1..]);
    }
  }

  // When replies 2 and 3 were heard, and what was known then.
  predicate Heard(r: Found, round: nat) {
    && r.heard2 <= round && r.heard3 <= round
    && (r.dialled3 <==> r.heard2 > 0)
    && (if r.heard2 > 0 then Public(r.myt2) else r.myt2 == UNKNOWN)
    && (if r.heard3 > 0 then Public(r.myt3) else r.myt3 == UNKNOWN)
    // over our own connection server 3 can only answer after we dialled it
    && (r.heard3 > 0 && !r.inbound3 ==> 0 < r.heard2 <= r.heard3)
  }

  // Server 3 was heard in an earlier round than server 2, or server 2 not at all.
  predicate ThreeBeforeTwo(r: Found) {
    r.heard3 > 0 && (r.heard2 == 0 || r.heard3 < r.heard2)
  }

  predicate JudgedBefore(r: Found, round: nat) {
    r.t3toosoon <==> ThreeBeforeTwo(r) && r.heard3 < round
  }

  // The flag is exact, except that a reply of the running round is not judged yet.
  predicate Judged(c: Client) {
    if c.pc in {AtListen, AtJudge} || c.pc.AtCheck? then JudgedBefore(c.found, c.round)
    else c.found.t3toosoon <==> ThreeBeforeTwo(c.found)
  }

  // What a raised flag says.
  predicate Meant(r: Found) {
    && (r.dialled3 <==> r.heard2 > 0)
    && (r.t3toosoon ==> r.inbound3 && ThreeBeforeTwo(r))
  }

  ghost predicate ClientInv(c: Client) {
    && Meant(c.found)
    && (c.pc == Dead
        || (&& Descriptors(c) && Heard(c.found, c.round) && Judged(c)
            && (c.pc == AtListen || c.pc.AtCheck? ==> c.round > 0)))
  }

  ghost predicate Initial(c: Client) {
    var f := c.fds;
    && f.tcp0 >= 0 && f.udp1 >= 0 && f.udp2 >= 0 && f.tcp1 >= 0 && f.tcp2 >= 0 && f.tcp3 >= 0 && f.tcp4 >= 0
    && f.incb == -1 && f.inloop == -1 && Distinct(f) && Held(f)
    && f.rfds == {f.tcp0, f.udp1} && f.wfds == {f.tcp1, f.tcp2}
    && f.maxsock == Max(Max(Max(f.tcp0, f.udp1), f.tcp1), f.tcp2)
    && c.found == Found(UNKNOWN, UNKNOWN, UNKNOWN, UNKNOWN, UNKNOWN, UNKNOWN,
                        false, false, false, {}, false, false, 0, 0)
    && c.tries == 1 && c.round == 0 && c.pc == AtTry
  }

  lemma InitialWatched(f: Fds)
    requires f.tcp0 >= 0 && f.udp1 >= 0 && f.udp2 >= 0 && f.tcp1 >= 0 && f.tcp2 >= 0 && Distinct(f) && Held(f)
    requires f.rfds == {f.tcp0, f.udp1} && f.wfds == {f.tcp1, f.tcp2}
    requires f.maxsock == Max(Max(Max(f.tcp0, f.udp1), f.tcp1), f.tcp2)
    ensures Watched(f)
  {
  }

  lemma InitialInv(c: Client)
    requires Initial(c)
    ensures ClientInv(c)
  {
    InitialWatched(c.fds);
  }

  // A reply handler changes the findings only by recording the reply it was given.
  lemma CheckRecordsReply(c: Client, w: Which, a: TcpAnswers)
    ensures var d := CheckTcp(c, w, a);
      && d.round == c.round && (d.pc == c.pc || d.pc == Dead)
      && (d.found == c.found
          || (a.recv.Reply? && Socket(c.fds, w) in c.fds.rfds && Mine(c.found, w).addr == 0
              && d.found == Record(c.found, w, a.recv.pub, c.round)))
  {
  }

  lemma RecordKeepsHeard(r: Found, w: Which, e: Endpoint, round: nat)
    requires Heard(r, round) && Meant(r) && JudgedBefore(r, round) && round > 0
    requires Mine(r, w).addr == 0 && Public(e) && (w == T3 ==> r.dialled3)
    ensures var q := Record(r, w, e, round); Heard(q, round) && Meant(q) && JudgedBefore(q, round)
  {
  }

  lemma CheckKeepsHeard(c: Client, a: TcpAnswers)
    requires Enabled(c, Check(a)) && ClientInv(c)
    ensures var d := Step(c, Check(a)); Meant(d.found) && (d.pc == Dead || (Heard(d.found, d.round) && Judged(d)))
  {
    var w := c.pc.w;
    CheckRecordsReply(c, w, a);
    if CheckTcp(c, w, a).found != c.found {
      ReplyIdle(c.fds, w, c.found.dialled3);
      RecordKeepsHeard(c.found, w, a.recv.pub, c.round);
    }
  }

  lemma OthersKeepHeard(c: Client, e: Event)
    requires Enabled(c, e) && !e.Check? && ClientInv(c)
    ensures var d := Step(c, e); Meant(d.found) && (d.pc == Dead || (Heard(d.found, d.round) && Judged(d)))
  {
    match e {
      case Datagrams(ds) => RecvUdpKeepsTcp(c.found, ds);
      case Loopback(a) => LoopbackKeepsTcp(c, a);
      case _ =>
    }
  }

  lemma LoopbackKeepsTcp(c: Client, a: LoopAnswers)
    ensures var d := CheckLoopback(c, a); d.round == c.round && SameTcp(c.found, d.found)
  {
  }

  // Every step of the client keeps the invariant, whatever it is answered.
  lemma StepKeepsClientInv(c: Client, e: Event)
    requires Enabled(c, e) && ClientInv(c)
    ensures ClientInv(Step(c, e))
  {
    StepKeepsDescriptors(c, e);
    if e.Check? {
      CheckKeepsHeard(c, e.answers);
    } else {
      OthersKeepHeard(c, e);
    }
    RoundCounted(c, e);
  }

  lemma RoundCounted(c: Client, e: Event)
    requires Enabled(c, e) && (c.pc == AtListen || c.pc.AtCheck? ==> c.round > 0)
    ensures var d := Step(c, e); d.pc == AtListen || d.pc.AtCheck? ==> d.round > 0
  {
    if e.Check? { CheckRecordsReply(c, c.pc.w, e.answers); }
  }

  // d is where the client gets from c by the events es.
  ghost predicate Reaches(c: Client, es: seq<Event>, d: Client)
    decreases |es|
  {
    if es == [] then c == d else Enabled(c, es[0]) && Reaches(Step(c, es[0]), es[1..], d)
  }

  lemma {:induction false} RunKeepsClientInv(c: Client, es: seq<Event>, d: Client)
    requires ClientInv(c) && Reaches(c, es, d)
    ensures ClientInv(d)
    decreases |es|
  {
    if es != [] {
      StepKeepsClientInv(c, es[0]);
      RunKeepsClientInv(Step(c, es[0]), es[1..], d);
    }
  }

  // The inputs of one round of the inner loop, and its steps in order.
  datatype RoundInput = RoundInput(expired: bool, accepted: seq<Accepted>, blocked: bool, reply1: TcpAnswers,
    reply2: TcpAnswers, reply3: TcpAnswers, callback: TcpAnswers, loop: LoopAnswers, arrivals: seq<Arrival>)

  function RoundEvents(i: RoundInput): (es: seq<Event>)
    ensures |es| == 9
  {
    [Select(i.expired), Listen(i.accepted, i.blocked), Check(i.reply1), Check(i.reply2), Check(i.reply3),
     Check(i.callback), Compare, Loopback(i.loop), Datagrams(i.arrivals)]
  }

  predicate PublicReply(a: TcpAnswers) {
    a.recv.Reply? ==> Public(a.recv.pub)
  }

  predicate PublicInput(i: RoundInput) {
    && PublicReply(i.reply1) && PublicReply(i.reply2) && PublicReply(i.reply3) && PublicReply(i.callback)
    && (forall d :: d in i.arrivals && d.payload.Report? ==> Public(d.payload.pub))
  }

  // Run the events from the k-th on, until one is fatal.
  ghost function RunFrom(c: Client, es: seq<Event>, k: nat): Client
    requires k <= |es|
    decreases |es| - k
  {
    if k == |es| || c.pc == Dead || !Enabled(c, es[k]) then c else RunFrom(Step(c, es[k]), es, k + 1)
  }

  lemma RunFromStep(c: Client, es: seq<Event>, k: nat)
    requires k < |es| && c.pc != Dead && Enabled(c, es[k])
    ensures RunFrom(c, es, k) == RunFrom(Step(c, es[k]), es, k + 1)
  {
  }

  lemma {:induction false} RunFromKeepsClientInv(c: Client, es: seq<Event>, k: nat)
    requires k <= |es| && ClientInv(c)
    ensures ClientInv(RunFrom(c, es, k))
    decreases |es| - k
  {
    if k < |es| && c.pc != Dead && Enabled(c, es[k]) {
      StepKeepsClientInv(c, es[k]);
      RunFromKeepsClientInv(Step(c, es[k]), es, k + 1);
    }
  }

  lemma ReachableInv(c: Client, es: seq<Event>, d: Client)
    requires Initial(c) && Reaches(c, es, d)
    ensures ClientInv(d)
  {
    InitialInv(c);
    RunKeepsClientInv(c, es, d);
  }

  // The select sets are disjoint, hold live socket variables only, each in one
  // variable, and lie within maxsock; the callback, for which no address to connect
  // to is given, is never waiting for a connect.
  ghost predicate Sound(f: Fds) {
    && (forall fd :: fd in f.rfds ==> fd !in f.wfds)
    && (forall fd :: fd in f.rfds ==> 0 <= fd <= f.maxsock && Readable(f, fd) && fd in f.open)
    && (forall fd :: fd in f.wfds ==> 0 <= fd <= f.maxsock && Writable(f, fd) && fd in f.open)
    && Distinct(f) && f.incb !in f.wfds
  }

  lemma InvSound(c: Client)
    requires ClientInv(c) && c.pc != Dead
    ensures Sound(c.fds)
  {
  }

  // So they are in every state of every run.
  lemma SelectSetsSound(c: Client, es: seq<Event>, d: Client)
    requires Initial(c) && Reaches(c, es, d) && d.pc != Dead
    ensures Sound(d.fds)
  {
    ReachableInv(c, es, d);
    InvSound(d);
  }

  // A raised flag means that server 3 was heard in an earlier round than server 2
  // was, if ever: its reply came over an accepted connection, and connect for
  // server 3 had not been called when it came. After the test of a round it is
  // raised exactly then; before it, exactly if that was so in an earlier round.
  lemma TooSoonExactly(c: Client, es: seq<Event>, d: Client)
    requires Initial(c) && Reaches(c, es, d)
    ensures d.found.t3toosoon ==>
      d.found.inbound3 && d.found.heard3 > 0 && (!d.found.dialled3 || d.found.heard3 < d.found.heard2)
    ensures d.pc in {AtTry, AtSelect, AtLoopback, AtUdp, AtReport} ==>
      (d.found.t3toosoon <==> d.found.heard3 > 0 && (!d.found.dialled3 || d.found.heard3 < d.found.heard2))
    ensures d.pc == AtListen || d.pc.AtCheck? || d.pc == AtJudge ==>
      (d.found.t3toosoon <==>
       0 < d.found.heard3 < d.round && (!d.found.dialled3 || d.found.heard3 < d.found.heard2))
  {
    ReachableInv(c, es, d);
  }

  predicate Keeps(e: Endpoint, e': Endpoint) {
    e.addr != 0 ==> e' == e
  }

  // A recorded address is never written again.
  predicate WrittenOnce(r: Found, q: Found) {
    && Keeps(r.myt1, q.myt1) && Keeps(r.myt2, q.myt2) && Keeps(r.myt3, q.myt3)
    && Keeps(r.myu1, q.myu1) && Keeps(r.myu2, q.myu2) && Keeps(r.myu3, q.myu3)
  }

  lemma {:induction false} RecvUdpWritesOnce(r: Found, ds: seq<Arrival>)
    ensures WrittenOnce(r, RecvUdp(r, ds))
    decreases |ds|
  {
    if ds != [] {
      assert WrittenOnce(r, RecvOne(r, ds[0]));
      RecvUdpWritesOnce(RecvOne(r, ds[0]), ds[1..]);
    }
  }

  lemma CheckWritesOnce(c: Client, w: Which, a: TcpAnswers)
    ensures WrittenOnce(c.found, CheckTcp(c, w, a).found)
  {
  }

  lemma AddressesWrittenOnce(c: Client, e: Event)
    requires Enabled(c, e)
    ensures WrittenOnce(c.found, Step(c, e).found)
  {
    match e {
      case Datagrams(ds) => RecvUdpWritesOnce(c.found, ds);
      case Listen(_, _) => assert Step(c, e).found == c.found;
      case Check(a) => CheckWritesOnce(c, c.pc.w, a);
      case _ =>
    }
  }

  lemma StepsWriteOnce(p: Found, q: Found, r: Found)
    requires WrittenOnce(p, q) && WrittenOnce(q, r)
    ensures WrittenOnce(p, r)
  {
  }

  lemma {:induction false} RunFromWritesOnce(c: Client, es: seq<Event>, k: nat)
    requires k <= |es|
    ensures WrittenOnce(c.found, RunFrom(c, es, k).found)
    decreases |es| - k
  {
    if k < |es| && c.pc != Dead && Enabled(c, es[k]) {
      var d := Step(c, es[k]);
      AddressesWrittenOnce(c, es[k]);
      RunFromWritesOnce(d, es, k + 1);
      StepsWriteOnce(c.found, d.found, RunFrom(d, es, k + 1).found);
    }
  }

  // ---------------------------------------------------------------------------
  // Whole runs of the program
  // ---------------------------------------------------------------------------

  predicate Over(c: Client) {
    c.pc == Dead || c.pc == AtReport
  }

  function BegunTry(c: Client): Client {
    if c.pc == AtTry then Step(c, Try) else c
  }

  ghost function AfterRound(c: Client, input: RoundInput): Client {
    RunFrom(BegunTry(c), RoundEvents(input), 0)
  }

  // Where the answers of the rounds lead; without an answer it waits in select.
  ghost function Driven(c: Client, inputs: seq<RoundInput>): Client
    decreases |inputs|
  {
    if Over(c) then c
    else if inputs == [] then BegunTry(c)
    else Driven(AfterRound(c, inputs[0]), inputs[1..])
  }

  // Answers the system and the servers can give.
  ghost predicate Possible(c: Client, inputs: seq<RoundInput>)
    decreases |inputs|
  {
    Over(c) || inputs == []
    || (&& FreshDescriptors(c.fds, inputs[0].accepted) && PublicInput(inputs[0])
        && Possible(AfterRound(c, inputs[0]), inputs[1..]))
  }

  lemma DrivenTry(c: Client, inputs: seq<RoundInput>)
    requires c.pc == AtTry
    ensures Driven(c, inputs) == Driven(Step(c, Try), inputs)
    ensures Possible(c, inputs) == Possible(Step(c, Try), inputs)
  {
  }

  lemma DrivenRound(c: Client, inputs: seq<RoundInput>, k: nat)
    requires c.pc == AtSelect && k < |inputs|
    ensures var d := RunFrom(c, RoundEvents(inputs[k]), 0);
      && Driven(c, inputs[k..]) == Driven(d, inputs[k + 1..])
      && (Possible(c, inputs[k..]) ==>
          FreshDescriptors(c.fds, inputs[k].accepted) && PublicInput(inputs[k]) && Possible(d, inputs[k + 1..]))
  {
    assert inputs[k..][0] == inputs[k] && inputs[k..][1..] == inputs[k + 1..];
  }

  lemma {:induction false} ReachesOn(c: Client, es: seq<Event>, d: Client, fs: seq<Event>, e: Client)
    requires Reaches(c, es, d) && Reaches(d, fs, e)
    ensures Reaches(c, es + fs, e)
    decreases |es|
  {
    if es == [] {
      assert es + fs == fs;
    } else {
      ReachesOn(Step(c, es[0]), es[1..], d, fs, e);
      assert (es + fs)[1..] == es[1..] + fs;
    }
  }

  lemma {:induction false} RunFromReached(c: Client, es: seq<Event>, k: nat) returns (fs: seq<Event>)
    requires k <= |es|
    ensures Reaches(c, fs, RunFrom(c, es, k))
    decreases |es| - k
  {
    fs := [];
    if k < |es| && c.pc != Dead && Enabled(c, es[k]) {
      var more := RunFromReached(Step(c, es[k]), es, k + 1);
      fs := [es[k]] + more;
      assert fs[1..] == more;
    }
  }

  lemma BegunReached(c: Client) returns (es: seq<Event>)
    ensures Reaches(c, es, BegunTry(c))
  {
    es := if c.pc == AtTry then [Try] else [];
    if c.pc == AtTry { assert es[1..] == []; }
  }

  // Whatever the answers are, the program only gets where the events of the step
  // machine lead, so all that holds in reachable states holds for it.
  lemma {:induction false} DrivenReached(c: Client, inputs: seq<RoundInput>) returns (es: seq<Event>)
    ensures Reaches(c, es, Driven(c, inputs))
    decreases |inputs|
  {
    es := [];
    if !Over(c) {
      es := BegunReached(c);
      if inputs != [] {
        var fs := RunFromReached(BegunTry(c), RoundEvents(inputs[0]), 0);
        ReachesOn(c, es, BegunTry(c), fs, AfterRound(c, inputs[0]));
        var gs := DrivenReached(AfterRound(c, inputs[0]), inputs[1..]);
        ReachesOn(c, es + fs, AfterRound(c, inputs[0]), gs, Driven(c, inputs));
        es := es + fs + gs;
      }
    }
  }

  // An address recorded after some rounds is the same after all.
  lemma {:induction false} DrivenWritesOnce(c: Client, inputs: seq<RoundInput>, k: nat)
    requires k <= |inputs|
    ensures WrittenOnce(Driven(c, inputs[..k]).found, Driven(c, inputs).found)
    decreases |inputs|, k
  {
    if !Over(c) && inputs != [] {
      var d := AfterRound(c, inputs[0]);
      if k > 0 {
        assert inputs[..k][0] == inputs[0] && inputs[..k][1..] == inputs[1..][..k - 1];
        DrivenWritesOnce(d, inputs[1..], k - 1);
      } else {
        RunFromWritesOnce(BegunTry(c), RoundEvents(inputs[0]), 0);
        DrivenWritesOnce(d, inputs[1..], 0);
        assert Driven(d, inputs[1..][..0]).found == d.found;
        StepsWriteOnce(c.found, d.found, Driven(c, inputs).found);
      }
    }
  }

  const SILENT := TcpAnswers(Pending, NothingYet, Failed, Failed)

  // Server 3's connection is accepted and its reply read while server 2 is silent.
  function EarlyCallback(fd: int, pub: Endpoint): (es: seq<Event>)
    ensures |es| == 8
  {
    [Try, Select(false), Listen([Accepted(fd, SERVER3)], true), Check(SILENT), Check(SILENT), Check(SILENT),
     Check(SILENT.(recv := Reply(pub))), Compare]
  }

  lemma CallbackAccepted(c: Client, fd: int, pub: Endpoint) returns (d: Client)
    requires Initial(c) && fd >= 0 && fd !in c.fds.open
    ensures d.pc == AtCheck(T1) && d.fds == AcceptCallback(c.fds, fd) && d.found == c.found
    ensures RunFrom(c, EarlyCallback(fd, pub), 0) == RunFrom(d, EarlyCallback(fd, pub), 3)
  {
    var es := EarlyCallback(fd, pub);
    var c1 := Step(c, Try);
    var c2 := Step(c1, Select(false));
    var accepted := [Accepted(fd, SERVER3)];
    assert FreshDescriptors(AcceptOne(c2.fds, accepted[0]), accepted[1..]);
    assert AcceptAll(c2.fds, accepted) == AcceptAll(AcceptOne(c2.fds, accepted[0]), accepted[1..]);
    d := Step(c2, Listen(accepted, true));
    RunFromStep(c, es, 0);
    RunFromStep(c1, es, 1);
    RunFromStep(c2, es, 2);
  }

  // A silent check changes nothing but the place in the loop.
  lemma SilentCheck(c: Client)
    requires c.pc.AtCheck?
    ensures Step(c, Check(SILENT)) == c.(pc := After(c.pc.w))
  {
  }

  // So the flag can be raised.
  lemma TooSoonHappens(c: Client, fd: int, pub: Endpoint)
    requires Initial(c) && fd >= 0 && fd !in c.fds.open && Public(pub)
    ensures RunFrom(c, EarlyCallback(fd, pub), 0).found.t3toosoon
  {
    var es := EarlyCallback(fd, pub);
    var c3 := CallbackAccepted(c, fd, pub);
    SilentCheck(c3);
    RunFromStep(c3, es, 3);
    var c4 := c3.(pc := AtCheck(T2));
    SilentCheck(c4);
    RunFromStep(c4, es, 4);
    var c5 := c3.(pc := AtCheck(T3));
    SilentCheck(c5);
    RunFromStep(c5, es, 5);
    CallbackJudged(c3.(pc := AtCheck(Callback)), es, pub);
  }

  lemma CallbackJudged(c: Client, es: seq<Event>, pub: Endpoint)
    requires |es| == 8 && es[6] == Check(SILENT.(recv := Reply(pub))) && es[7] == Compare && Public(pub)
    requires c.pc == AtCheck(Callback) && c.fds.incb >= 0 && c.fds.incb in c.fds.rfds && c.fds.incb !in c.fds.wfds
    requires c.found.myt3 == UNKNOWN && c.found.myt2 == UNKNOWN
    ensures RunFrom(c, es, 6).found.t3toosoon
  {
    RunFromStep(c, es, 6);
    RunFromStep(Step(c, es[6]), es, 7);
  }
}
