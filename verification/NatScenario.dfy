// Runs of the whole system that get to a verdict: for every NAT there is one, and
// through a NAT that lets server 3 in unsolicited there is one that says so.
module NatScenario {
  import opened NatClient
  import opened NatProtocol

  ghost predicate Leads(n: Nat, s: System, t: System) {
    exists actions :: Run(n, s, actions, t)
  }

  lemma {:induction false} RunOn(n: Nat, s: System, a: seq<Action>, t: System, b: seq<Action>, u: System)
    requires Run(n, s, a, t) && Run(n, t, b, u)
    ensures Run(n, s, a + b, u)
    decreases |a|
  {
    if a == [] {
      assert a + b == b;
    } else {
      RunOn(n, Effect(n, s, a[0]), a[1..], t, b, u);
      assert (a + b)[1..] == a[1..] + b;
    }
  }

  lemma LeadsOn(n: Nat, s: System, t: System, u: System)
    requires Leads(n, s, t) && Leads(n, t, u)
    ensures Leads(n, s, u)
  {
    var a :| Run(n, s, a, t);
    var b :| Run(n, t, b, u);
    RunOn(n, s, a, t, b, u);
  }

  // One more action.
  lemma Act(n: Nat, s: System, t: System, a: Action) returns (u: System)
    requires Leads(n, s, t) && Guard(n, t, a)
    ensures u == Effect(n, t, a) && Leads(n, s, u)
  {
    u := Effect(n, t, a);
    assert [a][1..] == [];
    assert Run(n, u, [], u);
    assert Run(n, t, [a], u);
    LeadsOn(n, s, t, u);
  }

  // ---------------------------------------------------------------------------
  // Rounds in which nothing arrives
  // ---------------------------------------------------------------------------

  const REST := LoopAnswers(Pending, NoData)

  predicate Quiet(e: Event) {
    match e
    case Try => false
    case Select(_) => true
    case Listen(accepted, blocked) => accepted == [] && blocked
    case Check(a) => a == SILENT
    case Compare => true
    case Loopback(a) => a == REST
    case Datagrams(ds) => ds == []
  }

  lemma QuietEffect(n: Nat, s: System, e: Event)
    requires Quiet(e) && Enabled(s.client, e)
    ensures ClientGuard(n, s, e) && ClientEffect(n, s, e) == s.(client := Step(s.client, e))
  {
  }

  // Nothing is left to judge.
  predicate Settled(c: Client) {
    c.found.myt3.port == 0 || c.found.myt2.port != 0
  }

  // select and no new connection.
  lemma RoundBegins(n: Nat, s: System, t: System, expired: bool) returns (u: System)
    requires Leads(n, s, t) && t.client.pc == AtSelect
    ensures Leads(n, s, u)
    ensures u == t.(client := t.client.(timeout := expired, round := t.client.round + 1, pc := AtCheck(T1)))
  {
    QuietEffect(n, t, Select(expired));
    u := Act(n, s, t, ClientStep(Select(expired)));
    QuietEffect(n, u, Listen([], true));
    u := Act(n, s, u, ClientStep(Listen([], true)));
  }

  lemma NothingHeard(n: Nat, s: System, t: System) returns (u: System)
    requires Leads(n, s, t) && t.client.pc.AtCheck?
    ensures Leads(n, s, u) && u == t.(client := t.client.(pc := After(t.client.pc.w)))
  {
    SilentCheck(t.client);
    QuietEffect(n, t, Check(SILENT));
    u := Act(n, s, t, ClientStep(Check(SILENT)));
  }

  lemma LoopbackRests(n: Nat, s: System, t: System) returns (u: System)
    requires Leads(n, s, t) && t.client.pc == AtLoopback
    ensures Leads(n, s, u) && u == t.(client := t.client.(pc := AtUdp))
  {
    QuietEffect(n, t, Loopback(REST));
    u := Act(n, s, t, ClientStep(Loopback(REST)));
  }

  // The comparison changes nothing, and the loopback sockets wait.
  lemma Compared(n: Nat, s: System, t: System) returns (u: System)
    requires Leads(n, s, t) && t.client.pc == AtJudge && Settled(t.client)
    ensures Leads(n, s, u) && u == t.(client := t.client.(pc := AtUdp))
  {
    QuietEffect(n, t, Compare);
    u := Act(n, s, t, ClientStep(Compare));
    u := LoopbackRests(n, s, u);
  }

  lemma NothingMore(n: Nat, s: System, t: System) returns (u: System)
    requires Leads(n, s, t) && t.client.pc == AtCheck(T3) && Settled(t.client)
    ensures Leads(n, s, u) && u == t.(client := t.client.(pc := AtUdp))
  {
    u := NothingHeard(n, s, t);
    u := NothingHeard(n, s, u);
    u := Compared(n, s, u);
  }

  // No datagram arrives at the end of a round.
  lemma RoundEnds(n: Nat, s: System, t: System) returns (u: System)
    requires Leads(n, s, t) && t.client.pc == AtUdp
    ensures Leads(n, s, u) && u == t.(client := EndOfRound(t.client))
  {
    QuietEffect(n, t, Datagrams([]));
    u := Act(n, s, t, ClientStep(Datagrams([])));
  }

  // Tries in which nothing arrives lead to the report with what is known.
  lemma {:induction false} QuietTries(n: Nat, s: System, t: System) returns (u: System)
    requires Leads(n, s, t) && t.client.pc == AtTry && t.client.tries <= NTRIES && Settled(t.client)
    ensures Leads(n, s, u) && u.client.pc == AtReport && u.client.found == t.client.found
    decreases NTRIES + 1 - t.client.tries
  {
    u := Act(n, s, t, ClientStep(Try));
    u := RoundBegins(n, s, u, true);
    u := NothingHeard(n, s, u);
    u := NothingHeard(n, s, u);
    u := NothingMore(n, s, u);
    u := RoundEnds(n, s, u);
    if u.client.pc == AtTry {
      u := QuietTries(n, s, u);
    }
  }

  // ---------------------------------------------------------------------------
  // The rounds in which everything is found out
  // ---------------------------------------------------------------------------

  const SENT := SILENT.(connect := Sent)

  function Got(pub: Endpoint): TcpAnswers {
    SILENT.(recv := Reply(pub), open3 := Started, loop4 := Started)
  }

  // What servers 1, 2 and 3 have answered to the requests of the first try.
  predicate UdpAnswered(n: Nat, sent: set<Datagram>) {
    && Datagram(n.udpTo1, SERVER1, Request) in sent && Datagram(n.udpTo2, SERVER2, Request) in sent
    && Datagram(SERVER1, n.udpTo1, Answer(n.udpTo1)) in sent
    && Datagram(SERVER2, n.udpTo2, Answer(n.udpTo2)) in sent
    && Datagram(SERVER3, n.udpTo2, Answer(n.udpTo2)) in sent
  }

  // The client's two connections are made, with the workers as far as said.
  predicate Connected(n: Nat, s: System, asked: bool, answered: bool) {
    && s.conn1 == Some(1) && s.conn2 == Some(2) && s.conns.Keys == {1, 2}
    && s.conns[1].server == 1 && s.conns[1].peer == n.tcpTo1 && s.conns[1].asked == asked
    && s.conns[2].server == 2 && s.conns[2].peer == n.tcpTo2 && s.conns[2].asked == asked
    && (if answered then s.conns[1].answer == Some(n.tcpTo1) && s.conns[2].answer == Some(n.tcpTo2)
        else s.conns[1].stage == Forked && s.conns[2].stage == Forked && s.bounces == map[])
  }

  // The first try is sent and answered, and the connections are made.
  lemma FirstTry(n: Nat, s: System) returns (t: System)
    requires Start(n, s)
    ensures Leads(n, s, t) && t.client == Step(s.client, Try)
    ensures UdpAnswered(n, t.sent) && Connected(n, t, false, false)
  {
    assert Run(n, s, [], s);
    t := Act(n, s, s, ClientStep(Try));
    t := Act(n, s, t, ServeUdp(SERVER1, Datagram(n.udpTo1, SERVER1, Request)));
    t := Act(n, s, t, ServeUdp(SERVER2, Datagram(n.udpTo2, SERVER2, Request)));
    t := Act(n, s, t, BounceUdp(Datagram(SERVER2, BOUNCER, BounceRequest(n.udpTo2))));
    t := Act(n, s, t, Connects(1, 1, n.tcpTo1, true));
    t := Act(n, s, t, Connects(2, 2, n.tcpTo2, true));
  }

  // The client waits for the replies of servers 1 and 2.
  predicate AwaitsReplies(c: Client, open: set<int>) {
    var f := c.fds;
    && c.pc == AtSelect && c.tries == 1 && c.round > 0
    && f.tcp1 >= 0 && f.tcp2 >= 0 && f.tcp3 >= 0 && f.tcp4 >= 0 && f.tcp1 != f.tcp2
    && f.tcp1 in f.rfds && f.tcp2 in f.rfds && f.wfds == {} && f.rfds <= open && f.tcp1 in open && f.tcp2 in open
    && f.incb == -1 && f.inloop == -1
    && c.found.myt1 == UNKNOWN && c.found.myt2 == UNKNOWN && !c.found.dialled3
  }

  lemma RequestSent(n: Nat, s: System, t: System) returns (u: System)
    requires Leads(n, s, t) && t.client.pc in {AtCheck(T1), AtCheck(T2)} && t.conn1 == Some(1) && t.conn2 == Some(2)
    requires t.conns.Keys == {1, 2}
    requires var sock := Socket(t.client.fds, t.client.pc.w); sock >= 0 && sock in t.client.fds.wfds
    ensures Leads(n, s, u)
    ensures var c, w := t.client, t.client.pc.w;
      var id := if w == T1 then 1 else 2;
      u == t.(client := c.(fds := AwaitReply(c.fds, Socket(c.fds, w)), pc := After(w)),
              conns := t.conns[id := t.conns[id].(asked := true)])
  {
    u := Act(n, s, t, ClientStep(Check(SENT)));
  }

  // The reports of the servers that get in.
  function Reports(n: Nat, open: bool): seq<Arrival> {
    [Arrival(SERVER1, Report(n.udpTo1)), Arrival(SERVER2, Report(n.udpTo2))]
    + if open then [Arrival(SERVER3, Report(n.udpTo2))] else []
  }

  lemma ReportsArrive(n: Nat, s: System, open: bool)
    requires ValidNat(n) && UdpAnswered(n, s.sent) && (open ==> SERVER3 in n.lets)
    ensures forall a :: a in Reports(n, open) ==> CanArrive(n, s, a) && Public(a.payload.pub)
  {
    forall a | a in Reports(n, open)
      ensures CanArrive(n, s, a)
    {
      var d := Datagram(a.from, a.payload.pub, Answer(a.payload.pub));
      assert d in s.sent && LetIn(n, s, d);
    }
  }

  lemma ReportsRecorded(n: Nat, r: Found, open: bool)
    requires ValidNat(n) && r.myu1 == UNKNOWN && r.myu2 == UNKNOWN && r.myu3 == UNKNOWN
    ensures RecvUdp(r, Reports(n, open)) ==
      r.(myu1 := n.udpTo1, myu2 := n.udpTo2, myu3 := if open then n.udpTo2 else UNKNOWN)
  {
    var ds := Reports(n, open);
    var r1 := RecvOne(r, ds[0]);
    var r2 := RecvOne(r1, ds[1]);
    assert RecvUdp(r, ds) == RecvUdp(r1, ds[1..]) == RecvUdp(r2, ds[1..][1..]);
    assert ds[1..][1..] == if open then [ds[2]] else [];
    assert RecvUdp(r2, []) == r2;
    if open { assert RecvUdp(r2, [ds[2]]) == RecvUdp(RecvOne(r2, ds[2]), []); }
  }

  // The requests go out over TCP.
  lemma RequestsSent(n: Nat, s: System, t: System) returns (u: System)
    requires Initial(s.client) && Leads(n, s, t) && t.client == Step(s.client, Try)
    requires Connected(n, t, false, false)
    ensures Leads(n, s, u) && Connected(n, u, true, false) && u.sent == t.sent
    ensures var f := s.client.fds;
      u.client == s.client.(fds := AwaitReply(AwaitReply(f, f.tcp1), f.tcp2), timeout := false, round := 1,
                            pc := AtCheck(T3))
  {
    u := RoundBegins(n, s, t, false);
    u := RequestSent(n, s, u);
    u := RequestSent(n, s, u);
  }

  lemma InitialAwaits(f: Fds)
    requires f.tcp1 >= 0 && f.tcp2 >= 0 && f.tcp1 != f.tcp2 && f.rfds == {f.tcp0, f.udp1} && f.wfds == {f.tcp1, f.tcp2}
    ensures var g := AwaitReply(AwaitReply(f, f.tcp1), f.tcp2);
      g == f.(rfds := {f.tcp0, f.udp1, f.tcp1, f.tcp2}, wfds := {})
  {
  }

  lemma ReportsHeard(n: Nat, s: System, t: System, open: bool) returns (u: System)
    requires ValidNat(n) && Leads(n, s, t) && UdpAnswered(n, t.sent) && (open ==> SERVER3 in n.lets)
    requires t.client.pc == AtUdp && !t.client.timeout
    requires var r := t.client.found; r.myu1 == UNKNOWN && r.myu2 == UNKNOWN && r.myu3 == UNKNOWN
    ensures Leads(n, s, u)
    ensures var c := t.client;
      u == t.(client := c.(pc := AtSelect, found :=
              c.found.(myu1 := n.udpTo1, myu2 := n.udpTo2, myu3 := if open then n.udpTo2 else UNKNOWN)))
  {
    ReportsArrive(n, t, open);
    ReportsRecorded(n, t.client.found, open);
    u := Act(n, s, t, ClientStep(Datagrams(Reports(n, open))));
  }

  // And the reports of the datagrams arrive.
  lemma FirstRound(n: Nat, s: System, t: System, open: bool) returns (u: System)
    requires Start(n, s) && Leads(n, s, t) && t.client == Step(s.client, Try) && (open ==> SERVER3 in n.lets)
    requires UdpAnswered(n, t.sent) && Connected(n, t, false, false)
    ensures Leads(n, s, u) && Connected(n, u, true, false) && AwaitsReplies(u.client, s.client.fds.open)
    ensures u.client.found ==
      s.client.found.(myu1 := n.udpTo1, myu2 := n.udpTo2, myu3 := if open then n.udpTo2 else UNKNOWN)
    ensures u.client.fds.open == s.client.fds.open
  {
    InitialAwaits(s.client.fds);
    u := RequestsSent(n, s, t);
    u := NothingMore(n, s, u);
    u := ReportsHeard(n, s, u, open);
  }

  // Server 3 has called connect for the second connection, whose worker waits.
  predicate Dialled(n: Nat, s: System, ending: bool) {
    && s.conn1 == Some(1) && s.conn2 == Some(2) && s.conns.Keys == {1, 2} && s.bounces.Keys == {0}
    && s.conns[1].server == 1 && s.conns[1].answer == Some(n.tcpTo1) && s.conns[1].peer == n.tcpTo1
    && s.conns[2].server == 2 && s.conns[2].stage == Waiting(0) && s.conns[2].peer == n.tcpTo2
    && s.conns[1].asked && s.conns[2].asked
    && n.tcpTo2 in s.dialled && (if ending then s.bounces[0].closed else s.bounces[0].stage == Dialling(n.tcpTo2))
  }

  lemma FirstServerAnswers(n: Nat, s: System, t: System) returns (u: System)
    requires Leads(n, s, t) && At(t, 1, Forked) && t.conns[1].asked && t.conns[1].server == 1
    requires t.conns[1].peer == n.tcpTo1
    ensures Leads(n, s, u)
    ensures u == t.(conns := t.conns[1 := t.conns[1].(answer := Some(n.tcpTo1), stage := Answered)])
  {
    u := Act(n, s, t, WorkerHears(1));
    u := Act(n, s, u, WorkerAnswers(1));
  }

  lemma SecondServerAsks(n: Nat, s: System, t: System) returns (u: System)
    requires Leads(n, s, t) && Connected(n, t, true, false)
    ensures Leads(n, s, u) && u.conns.Keys == {1, 2}
    ensures u == t.(conns := u.conns, bounces := map[0 := Bounce(2, Some(n.tcpTo2), false, Fresh)])
    ensures u.conns[1] == t.conns[1] && u.conns[2] == t.conns[2].(stage := Waiting(0))
  {
    u := Act(n, s, t, WorkerHears(2));
    u := Act(n, s, u, WorkerDials3(2, 0));
    u := Act(n, s, u, WorkerAsks3(2));
  }

  lemma Server3Dials(n: Nat, s: System, t: System) returns (u: System)
    requires Leads(n, s, t) && Connected(n, t, true, false)
    ensures Leads(n, s, u) && Dialled(n, u, false) && u.client == t.client && u.sent == t.sent
  {
    u := SecondServerAsks(n, s, t);
    u := FirstServerAnswers(n, s, u);
    u := Act(n, s, u, BounceHears(0));
    u := Act(n, s, u, BounceDials(0));
  }

  // How server 3's connect goes on: the client is reached at once, or not in time,
  // or the worker dies.
  datatype Ending = Early | TimesOut | Dies

  lemma Server3ReachesEarly(n: Nat, s: System, t: System) returns (u: System)
    requires Leads(n, s, t) && Dialled(n, t, false)
    ensures Leads(n, s, u) && Dialled(n, u, true) && u.client == t.client && u.sent == t.sent && n.tcpTo2 in u.replied
  {
    u := Act(n, s, t, BounceTooEarly(0));
    u := Act(n, s, u, BounceReplies(0));
    u := Act(n, s, u, BounceFinishes(0));
  }

  lemma Server3Ends(n: Nat, s: System, t: System, e: Ending) returns (u: System)
    requires Leads(n, s, t) && Dialled(n, t, false)
    ensures Leads(n, s, u) && Dialled(n, u, true) && u.client == t.client && u.sent == t.sent
    ensures e == Early ==> n.tcpTo2 in u.replied
    ensures e == TimesOut ==> u.bounces[0].stage == Late(n.tcpTo2)
  {
    match e {
      case Early => u := Server3ReachesEarly(n, s, t);
      case TimesOut => u := Act(n, s, t, BounceTimesOut(0));
      case Dies => u := Act(n, s, t, BounceDies(0));
    }
  }

  // Servers 1 and 2 answer, the second after it has made server 3 connect; through
  // an open NAT server 3 gets through and replies as well.
  lemma ServersAnswer(n: Nat, s: System, t: System, e: Ending) returns (u: System)
    requires Leads(n, s, t) && Connected(n, t, true, false)
    ensures Leads(n, s, u) && Connected(n, u, true, true) && u.client == t.client && u.sent == t.sent
    ensures n.tcpTo2 in u.dialled && (e == Early ==> n.tcpTo2 in u.replied)
    ensures e == TimesOut ==> 0 in u.bounces && u.bounces[0].stage == Late(n.tcpTo2)
  {
    u := Server3Dials(n, s, t);
    u := Server3Ends(n, s, u, e);
    u := Act(n, s, u, WorkerToldToGoOn(2));
    u := Act(n, s, u, WorkerAnswers(2));
  }

  // Server 3's connection is accepted.
  lemma CallbackComes(n: Nat, s: System, t: System, fd: int) returns (u: System)
    requires Leads(n, s, t) && t.client.pc == AtSelect && t.client.fds.incb < 0
    requires fd >= 0 && fd !in t.client.fds.open && t.dialled != {} && SERVER3 in n.letsTcp
    ensures Leads(n, s, u)
    ensures var c := t.client;
      u == t.(client := c.(fds := AcceptCallback(c.fds, fd), timeout := false, round := c.round + 1, pc := AtCheck(T1)))
  {
    QuietEffect(n, t, Select(false));
    u := Act(n, s, t, ClientStep(Select(false)));
    var accepted := [Accepted(fd, SERVER3)];
    assert accepted[1..] == [] && AcceptAll(u.client.fds, accepted) == AcceptOne(u.client.fds, accepted[0]);
    u := Act(n, s, u, ClientStep(Listen(accepted, true)));
  }

  // Its reply is read before server 2's, and the flag is raised.
  lemma CallbackHeard(n: Nat, s: System, t: System) returns (u: System)
    requires ValidNat(n) && Leads(n, s, t) && t.client.pc == AtCheck(Callback) && n.tcpTo2 in t.replied
    requires var f := t.client.fds; f.incb >= 0 && f.incb in f.rfds && f.wfds == {} && f.inloop < 0
    requires t.client.found.myt2 == UNKNOWN && t.client.found.myt3 == UNKNOWN
    ensures Leads(n, s, u)
    ensures var c := t.client;
      u == t.(client := c.(fds := Forget(c.fds, Callback), pc := AtUdp,
              found := Record(c.found, Callback, n.tcpTo2, c.round).(t3toosoon := true)))
  {
    u := Act(n, s, t, ClientStep(Check(Got(n.tcpTo2))));
    QuietEffect(n, u, Compare);
    u := Act(n, s, u, ClientStep(Compare));
    u := LoopbackRests(n, s, u);
  }

  lemma CallbackRound(n: Nat, s: System, t: System, fd: int) returns (u: System)
    requires ValidNat(n) && Leads(n, s, t) && AwaitsReplies(t.client, t.client.fds.open)
    requires fd >= 0 && fd !in t.client.fds.open && SERVER3 in n.letsTcp
    requires n.tcpTo2 in t.dialled && n.tcpTo2 in t.replied && t.client.found.myt3 == UNKNOWN
    ensures Leads(n, s, u) && AwaitsReplies(u.client, u.client.fds.open) && u == t.(client := u.client)
    ensures u.client.found.t3toosoon && u.client.found.myt3 == n.tcpTo2
    ensures u.client.found.myu1 == t.client.found.myu1
    ensures u.client.found.myu2 == t.client.found.myu2 && u.client.found.myu3 == t.client.found.myu3
  {
    u := CallbackComes(n, s, t, fd);
    u := NothingHeard(n, s, u);
    u := NothingHeard(n, s, u);
    u := NothingHeard(n, s, u);
    u := CallbackHeard(n, s, u);
    u := RoundEnds(n, s, u);
  }

  // The replies of servers 1 and 2 are read, and the try ends.
  lemma RepliesHeard(n: Nat, s: System, t: System) returns (u: System)
    requires ValidNat(n) && Leads(n, s, t) && Connected(n, t, true, true)
    requires AwaitsReplies(t.client.(pc := AtSelect), t.client.fds.open) && t.client.pc == AtCheck(T1)
    ensures Leads(n, s, u)
    ensures var c := t.client;
      u == t.(client := c.(fds := Dial(Forget(c.fds, T1), Started), pc := AtCheck(T3),
              found := c.found.(myt1 := n.tcpTo1, myt2 := n.tcpTo2, heard2 := c.round, dialled3 := true)))
  {
    u := Act(n, s, t, ClientStep(Check(Got(n.tcpTo1))));
    u := Act(n, s, u, ClientStep(Check(Got(n.tcpTo2))));
  }

  lemma ReplyRound(n: Nat, s: System, t: System) returns (u: System)
    requires ValidNat(n) && Leads(n, s, t) && Connected(n, t, true, true)
    requires AwaitsReplies(t.client, t.client.fds.open)
    ensures Leads(n, s, u) && u.client.pc == AtTry && u.client.tries == 2
    ensures var r := t.client.found;
      u.client.found == r.(myt1 := n.tcpTo1, myt2 := n.tcpTo2, heard2 := t.client.round + 1, dialled3 := true)
  {
    u := RoundBegins(n, s, t, true);
    u := RepliesHeard(n, s, u);
    u := NothingMore(n, s, u);
    u := RoundEnds(n, s, u);
  }

  // From every start, through every NAT, a run gets to a verdict, even if server 3's
  // worker dies; and if the NAT lets server 3 in unsolicited, one that says so, for
  // TCP and UDP.
  lemma VerdictReached(n: Nat, s: System, e: Ending, fd: int) returns (t: System)
    requires Start(n, s) && (e == Early ==> SERVER3 in n.lets && SERVER3 in n.letsTcp)
    requires fd >= 0 && fd !in s.client.fds.open
    ensures Leads(n, s, t) && t.client.pc == AtReport
    ensures var v := FinalReport(t.client.found);
      v.Verdict? && v.tcpFiltered == v.udpFiltered == (e != Early) && v.simultaneousOpen == (e == Early)
  {
    t := FirstTry(n, s);
    t := FirstRound(n, s, t, e == Early);
    t := ServersAnswer(n, s, t, e);
    if e == Early {
      t := CallbackRound(n, s, t, fd);
    }
    t := ReplyRound(n, s, t);
    t := QuietTries(n, s, t);
  }

  // ---------------------------------------------------------------------------
  // Simultaneous open
  // ---------------------------------------------------------------------------

  // Server 3's connect, not finished in time, meets the client's own, and the reply
  // follows.
  lemma Server3ConnectsLate(n: Nat, s: System, t: System) returns (u: System)
    requires Leads(n, s, t) && 0 in t.bounces && t.bounces[0].stage == Late(n.tcpTo2)
    ensures Leads(n, s, u) && u.client == t.client && n.tcpTo2 in u.replied
  {
    u := Act(n, s, t, BounceConnected(0));
    u := Act(n, s, u, BounceReplies(0));
  }

  // The client has called connect for server 3 and waits for it, or for the reply.
  predicate AwaitsThird(c: Client, connected: bool) {
    var f, r := c.fds, c.found;
    && f.tcp1 < 0 && f.tcp2 < 0 && f.incb < 0 && f.inloop < 0 && f.tcp3 >= 0
    && (if connected then f.tcp3 in f.rfds && f.tcp3 !in f.wfds else f.tcp3 in f.wfds)
    && r.myt1.addr != 0 && Public(r.myt2) && r.myt3 == UNKNOWN && r.heard2 > 0 && !r.inbound3 && !r.t3toosoon
  }

  lemma DiallingRound(n: Nat, s: System, t: System) returns (u: System)
    requires ValidNat(n) && Leads(n, s, t) && Connected(n, t, true, true)
    requires AwaitsReplies(t.client, t.client.fds.open)
    requires var r := t.client.found; r.myt3 == UNKNOWN && !r.inbound3 && !r.t3toosoon
    ensures Leads(n, s, u) && u.client.pc == AtSelect && u.client.tries == 1 && u.client.round == t.client.round + 1
    ensures AwaitsThird(u.client, false) && u.client.found.heard2 == u.client.round
    ensures u.bounces == t.bounces && SameReports(u.client.found, t.client.found)
  {
    u := RoundBegins(n, s, t, false);
    u := RepliesHeard(n, s, u);
    u := NothingMore(n, s, u);
    u := RoundEnds(n, s, u);
  }

  predicate SameReports(r: Found, q: Found) {
    r.myu1 == q.myu1 && r.myu2 == q.myu2 && r.myu3 == q.myu3
  }

  // A round in which only the socket to server 3 is answered.
  lemma ThirdRound(n: Nat, s: System, t: System, a: TcpAnswers, expired: bool) returns (u: System)
    requires Leads(n, s, t) && t.client.pc == AtSelect && Public(t.client.found.myt2)
    requires ClientGuard(n, t.(client := t.client.(round := t.client.round + 1, pc := AtCheck(T3), timeout := expired)),
                         Check(a))
    requires var c := CheckTcp(t.client.(round := t.client.round + 1, pc := AtCheck(T3), timeout := expired), T3, a);
      c.pc != Dead && Public(c.found.myt2)
    ensures Leads(n, s, u)
    ensures var c := CheckTcp(t.client.(round := t.client.round + 1, pc := AtCheck(T3), timeout := expired), T3, a);
      u == t.(client := EndOfRound(c.(pc := AtUdp)))
  {
    u := RoundBegins(n, s, t, expired);
    u := NothingHeard(n, s, u);
    u := NothingHeard(n, s, u);
    u := Act(n, s, u, ClientStep(Check(a)));
    u := NothingHeard(n, s, u);
    u := Compared(n, s, u);
    u := RoundEnds(n, s, u);
  }

  // The connection to server 3 is there and the request sent; then the reply comes.
  lemma ThirdConnects(n: Nat, s: System, t: System) returns (u: System)
    requires Leads(n, s, t) && t.client.pc == AtSelect && AwaitsThird(t.client, false)
    ensures Leads(n, s, u) && u.client.pc == AtSelect && u == t.(client := u.client)
    ensures AwaitsThird(u.client, true) && u.client.found == t.client.found
    ensures u.client.tries == t.client.tries && u.client.round == t.client.round + 1
  {
    u := ThirdRound(n, s, t, SENT, false);
  }

  lemma ThirdReplies(n: Nat, s: System, t: System) returns (u: System)
    requires Leads(n, s, t) && t.client.pc == AtSelect && AwaitsThird(t.client, true) && t.client.tries < NTRIES
    requires n.tcpTo2 in t.replied && Public(n.tcpTo2)
    ensures Leads(n, s, u) && u.client.pc == AtTry && u.client.tries == t.client.tries + 1
    ensures u.client.found == t.client.found.(myt3 := n.tcpTo2, heard3 := t.client.round + 1)
  {
    u := ThirdRound(n, s, t, Got(n.tcpTo2), true);
  }

  // Through every NAT, a filtering one too, there is a run in which server 3's reply
  // comes over the client's own connection, in a later round than server 2's, and the
  // report says that simultaneous open works and that nothing unsolicited gets in.
  lemma SimultaneousOpenReached(n: Nat, s: System) returns (t: System)
    requires Start(n, s)
    ensures Leads(n, s, t) && t.client.pc == AtReport
    ensures var r := t.client.found; 0 < r.heard2 < r.heard3 && !r.inbound3 && r.myt3 == n.tcpTo2
    ensures var v := FinalReport(t.client.found); v.Verdict? && v.simultaneousOpen && v.tcpFiltered && v.udpFiltered
  {
    t := FirstTry(n, s);
    t := FirstRound(n, s, t, false);
    t := ServersAnswer(n, s, t, TimesOut);
    t := DiallingRound(n, s, t);
    t := Server3ConnectsLate(n, s, t);
    t := ThirdConnects(n, s, t);
    t := ThirdReplies(n, s, t);
    t := QuietTries(n, s, t);
  }

  // ---------------------------------------------------------------------------
  // A forged bounce request
  // ---------------------------------------------------------------------------

  lemma ForgeryBounced(n: Nat, s: System, x: Endpoint) returns (t: System)
    requires Start(n, s) && !IsServer(x) && !Ours(n, x)
    ensures Leads(n, s, t) && t.client == Step(s.client, Try) && UdpAnswered(n, t.sent)
    ensures Datagram(SERVER3, n.udpTo1, Answer(n.udpTo1)) in t.sent
  {
    var d := Datagram(x, BOUNCER, BounceRequest(n.udpTo1));
    t := FirstTry(n, s);
    t := Act(n, s, t, StrangerSends(d));
    t := Act(n, s, t, BounceUdp(d));
  }

  // Server 3's two reports, of which the second is about the wrong endpoint.
  function BothReports(n: Nat): seq<Arrival> {
    [Arrival(SERVER3, Report(n.udpTo2)), Arrival(SERVER3, Report(n.udpTo1))]
  }

  lemma BothRecorded(n: Nat, r: Found)
    requires ValidNat(n) && n.udpTo1 != n.udpTo2 && r.myu3 == UNKNOWN && r.warned == {}
    ensures RecvUdp(r, BothReports(n)).warned == {3}
  {
    var ds := BothReports(n);
    var q := RecvOne(r, ds[0]);
    assert RecvUdp(r, ds) == RecvUdp(q, ds[1..]);
    assert ds[1..][1..] == [];
    assert RecvUdp(q, ds[1..]) == RecvUdp(RecvOne(q, ds[1]), []);
  }

  lemma BothArrive(n: Nat, t: System)
    requires ValidNat(n) && SERVER3 in n.lets && UdpAnswered(n, t.sent)
    requires Datagram(SERVER3, n.udpTo1, Answer(n.udpTo1)) in t.sent
    ensures forall a :: a in BothReports(n) ==> CanArrive(n, t, a)
  {
    forall a | a in BothReports(n)
      ensures CanArrive(n, t, a)
    {
      var d := Datagram(SERVER3, a.payload.pub, Answer(a.payload.pub));
      assert d in t.sent && LetIn(n, t, d);
    }
  }

  // Through an open NAT that maps the two servers differently, one bounce request of
  // anybody is enough for a warning.
  lemma ForgeryWarns(n: Nat, s: System, x: Endpoint) returns (t: System)
    requires Start(n, s) && SERVER3 in n.lets && n.udpTo1 != n.udpTo2 && !IsServer(x) && !Ours(n, x)
    ensures Leads(n, s, t) && t.client.found.warned == {3}
  {
    t := ForgeryBounced(n, s, x);
    t := RoundBegins(n, s, t, false);
    t := NothingHeard(n, s, t);
    t := NothingHeard(n, s, t);
    t := NothingMore(n, s, t);
    BothArrive(n, t);
    BothRecorded(n, t.client.found);
    t := Act(n, s, t, ClientStep(Datagrams(BothReports(n))));
  }
}
