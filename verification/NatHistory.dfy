// What the client has found out, told by what has happened in the run: which
// datagrams arrived, which replies and loopback messages were read.
module NatHistory {
  import opened NatClient
  import opened NatSteps
  import opened Sequences

  // Where the client is after k events.
  ghost function StateAt(c: Client, es: seq<Event>, k: nat): Client
    requires k <= |es|
    decreases k
  {
    if k == 0 then c
    else
      var b := StateAt(c, es, k - 1);
      if Enabled(b, es[k - 1]) then Step(b, es[k - 1]) else b
  }

  lemma NextState(c: Client, es: seq<Event>, k: nat)
    requires k < |es|
    ensures var b := StateAt(c, es, k); StateAt(c, es, k + 1) == if Enabled(b, es[k]) then Step(b, es[k]) else b
  {
  }

  lemma {:induction false} StateFromRest(c: Client, es: seq<Event>, k: nat)
    requires es != [] && Enabled(c, es[0]) && 1 <= k <= |es|
    ensures StateAt(c, es, k) == StateAt(Step(c, es[0]), es[1..], k - 1)
    decreases k
  {
    if k > 1 {
      StateFromRest(c, es, k - 1);
    } else {
      assert StateAt(c, es, 0) == c;
    }
  }

  lemma {:induction false} RunEndsThere(c: Client, es: seq<Event>, d: Client)
    requires Reaches(c, es, d)
    ensures d == StateAt(c, es, |es|)
    decreases |es|
  {
    if es != [] {
      RunEndsThere(Step(c, es[0]), es[1..], d);
      StateFromRest(c, es, |es|);
    }
  }

  // The run stopped before its last event.
  lemma {:induction false} WithoutLast(c: Client, es: seq<Event>, d: Client) returns (b: Client)
    requires Reaches(c, es, d) && es != []
    ensures var front, last := es[..|es| - 1], es[|es| - 1];
      Reaches(c, front, b) && Enabled(b, last) && d == Step(b, last)
    decreases |es|
  {
    if |es| == 1 {
      b := c;
    } else {
      b := WithoutLast(Step(c, es[0]), es[1..], d);
      assert es[1..][..|es| - 2] == es[..|es| - 1][1..];
    }
  }

  // ---------------------------------------------------------------------------
  // UDP
  // ---------------------------------------------------------------------------

  // All datagrams that have arrived, in order.
  function Arrivals(es: seq<Event>): seq<Arrival> {
    if es == [] then []
    else Arrivals(es[..|es| - 1]) + if es[|es| - 1].Datagrams? then es[|es| - 1].arrivals else []
  }

  // The addresses a server has reported, in order.
  function ReportsOf(server: Endpoint, ds: seq<Arrival>): (ps: seq<Endpoint>) {
    if ds == [] then []
    else
      var d := ds[|ds| - 1];
      ReportsOf(server, ds[..|ds| - 1]) + if d.payload.Report? && d.from == server then [d.payload.pub] else []
  }

  predicate Probed(ds: seq<Arrival>) {
    exists i :: 0 <= i < |ds| && ds[i].payload == Probe
  }

  // The first address a server reported is recorded, and a warning is printed
  // exactly if it reported a different one later.
  predicate Tells(ps: seq<Endpoint>, mine: Endpoint, warned: bool) {
    && mine == (if ps == [] then UNKNOWN else ps[0])
    && (warned <==> exists i :: 0 <= i < |ps| && ps[i] != ps[0])
  }

  // What is recorded of server k.
  function Server(k: nat): Endpoint {
    if k == 1 then SERVER1 else if k == 2 then SERVER2 else SERVER3
  }

  function Reported(k: nat, r: Found): Endpoint {
    if k == 1 then r.myu1 else if k == 2 then r.myu2 else r.myu3
  }

  predicate TellsOf(k: nat, ds: seq<Arrival>, r: Found) {
    Tells(ReportsOf(Server(k), ds), Reported(k, r), k in r.warned)
  }

  ghost predicate TellsUdp(ds: seq<Arrival>, r: Found) {
    (forall k :: 1 <= k <= 3 ==> TellsOf(k, ds, r)) && (r.udploop <==> Probed(ds))
  }

  predicate PublicReports(ds: seq<Arrival>) {
    forall i :: 0 <= i < |ds| && ds[i].payload.Report? ==> Public(ds[i].payload.pub)
  }

  lemma {:induction false} ReportsArePublic(server: Endpoint, ds: seq<Arrival>)
    requires PublicReports(ds)
    ensures forall i :: 0 <= i < |ReportsOf(server, ds)| ==> Public(ReportsOf(server, ds)[i])
    decreases |ds|
  {
    if ds != [] {
      ReportsArePublic(server, ds[..|ds| - 1]);
    }
  }

  lemma NextReport(ps: seq<Endpoint>, mine: Endpoint, warned: set<nat>, server: nat, pub: Endpoint)
    requires Tells(ps, mine, server in warned) && forall i :: 0 <= i < |ps| ==> Public(ps[i])
    ensures Tells(ps + [pub], CheckUdp(mine, pub), server in Warn(warned, server, mine, pub))
  {
    var qs := ps + [pub];
    if i :| 0 <= i < |ps| && ps[i] != ps[0] { assert qs[i] != qs[0]; }
    if ps != [] && pub != ps[0] { assert qs[|ps|] != qs[0]; }
  }

  lemma OneMore(server: Endpoint, ds: seq<Arrival>, d: Arrival)
    ensures ReportsOf(server, ds + [d])
      == ReportsOf(server, ds) + if d.payload.Report? && d.from == server then [d.payload.pub] else []
  {
    var es := ds + [d];
    assert es[..|es| - 1] == ds && es[|es| - 1] == d;
  }

  lemma ProbedNext(ds: seq<Arrival>, d: Arrival)
    ensures Probed(ds + [d]) <==> Probed(ds) || d.payload == Probe
  {
    var es := ds + [d];
    if i :| 0 <= i < |ds| && ds[i].payload == Probe { assert es[i].payload == Probe; }
    if d.payload == Probe { assert es[|ds|].payload == Probe; }
  }

  // A report of that server is told, anything else changes nothing.
  lemma NextTold(server: Endpoint, k: nat, ds: seq<Arrival>, d: Arrival, mine: Endpoint, warned: set<nat>)
    requires Tells(ReportsOf(server, ds), mine, k in warned) && PublicReports(ds)
    ensures var ps := ReportsOf(server, ds + [d]);
      if d.payload.Report? && d.from == server
      then Tells(ps, CheckUdp(mine, d.payload.pub), k in Warn(warned, k, mine, d.payload.pub))
      else Tells(ps, mine, k in warned)
  {
    OneMore(server, ds, d);
    if d.payload.Report? && d.from == server {
      ReportsArePublic(server, ds);
      NextReport(ReportsOf(server, ds), mine, warned, k, d.payload.pub);
    } else {
      Empty(ReportsOf(server, ds));
    }
  }

  predicate ReportFor(k: nat, d: Arrival) {
    d.payload.Report? && d.from == Server(k)
  }

  lemma OneReceived(k: nat, d: Arrival, r: Found)
    requires 1 <= k <= 3
    ensures var q, mine := RecvOne(r, d), Reported(k, r);
      if ReportFor(k, d)
      then Reported(k, q) == CheckUdp(mine, d.payload.pub)
           && (k in q.warned <==> k in Warn(r.warned, k, mine, d.payload.pub))
      else Reported(k, q) == mine && (k in q.warned <==> k in r.warned)
  {
    if d.payload.Report? {
      var pub := d.payload.pub;
      if d.from == SERVER1 {
        assert RecvOne(r, d) == r.(myu1 := CheckUdp(r.myu1, pub), warned := Warn(r.warned, 1, r.myu1, pub));
      } else if d.from == SERVER2 {
        assert RecvOne(r, d) == r.(myu2 := CheckUdp(r.myu2, pub), warned := Warn(r.warned, 2, r.myu2, pub));
      }
    }
  }

  lemma NextFor(k: nat, ds: seq<Arrival>, d: Arrival, r: Found)
    requires 1 <= k <= 3 && TellsOf(k, ds, r) && PublicReports(ds)
    ensures TellsOf(k, ds + [d], RecvOne(r, d))
  {
    OneReceived(k, d, r);
    NextTold(Server(k), k, ds, d, Reported(k, r), r.warned);
  }

  lemma NextArrival(ds: seq<Arrival>, d: Arrival, r: Found)
    requires TellsUdp(ds, r) && PublicReports(ds)
    ensures TellsUdp(ds + [d], RecvOne(r, d))
  {
    ProbedNext(ds, d);
    forall k | 1 <= k <= 3
      ensures TellsOf(k, ds + [d], RecvOne(r, d))
    {
      NextFor(k, ds, d, r);
    }
  }

  lemma {:induction false} NextArrivals(before: seq<Arrival>, ds: seq<Arrival>, r: Found)
    requires TellsUdp(before, r) && PublicReports(before + ds)
    ensures TellsUdp(before + ds, RecvUdp(r, ds))
    decreases |ds|
  {
    if ds == [] {
      Empty(before);
    } else {
      forall i | 0 <= i < |before| && before[i].payload.Report?
        ensures Public(before[i].payload.pub)
      {
        assert (before + ds)[i] == before[i];
      }
      NextArrival(before, ds[0], r);
      Moved(before, ds);
      NextArrivals(before + [ds[0]], ds[1..], RecvOne(r, ds[0]));
    }
  }

  predicate SameUdp(r: Found, q: Found) {
    r.myu1 == q.myu1 && r.myu2 == q.myu2 && r.myu3 == q.myu3 && r.warned == q.warned && r.udploop == q.udploop
  }

  lemma CheckLeavesUdp(c: Client, w: Which, a: TcpAnswers)
    ensures SameUdp(c.found, CheckTcp(c, w, a).found)
  {
    CheckRecordsReply(c, w, a);
  }

  lemma OthersLeaveUdp(c: Client, e: Event)
    requires Enabled(c, e) && !e.Datagrams?
    ensures SameUdp(c.found, Step(c, e).found)
  {
    match e {
      case Check(a) => CheckLeavesUdp(c, c.pc.w, a);
      case Loopback(a) => LoopbackStep(c, a);
      case _ =>
    }
  }

  lemma StillTells(ds: seq<Arrival>, r: Found, q: Found)
    requires TellsUdp(ds, r) && SameUdp(r, q)
    ensures TellsUdp(ds, q)
  {
    forall k | 1 <= k <= 3
      ensures TellsOf(k, ds, q)
    {
      assert TellsOf(k, ds, r);
    }
  }

  // In every run the findings of UDP are told by the datagrams that arrived.
  lemma {:induction false} UdpFoundExactly(c: Client, es: seq<Event>, d: Client)
    requires Initial(c) && Reaches(c, es, d)
    ensures PublicReports(Arrivals(es)) && TellsUdp(Arrivals(es), d.found)
    decreases |es|
  {
    if es != [] {
      var front, last := es[..|es| - 1], es[|es| - 1];
      var b := WithoutLast(c, es, d);
      UdpFoundExactly(c, front, b);
      if last.Datagrams? {
        LaterPublic(Arrivals(front), last.arrivals);
        NextArrivals(Arrivals(front), last.arrivals, b.found);
      } else {
        OthersLeaveUdp(b, last);
        StillTells(Arrivals(front), b.found, d.found);
        Empty(Arrivals(front));
      }
    }
  }

  lemma LaterPublic(before: seq<Arrival>, ds: seq<Arrival>)
    requires PublicReports(before) && forall d :: d in ds && d.payload.Report? ==> Public(d.payload.pub)
    ensures PublicReports(before + ds)
  {
    forall i | 0 <= i < |before + ds| && (before + ds)[i].payload.Report?
      ensures Public((before + ds)[i].payload.pub)
    {
      if i >= |before| { assert ds[i - |before|] in ds; }
    }
  }

  // ---------------------------------------------------------------------------
  // TCP
  // ---------------------------------------------------------------------------

  // A whole reply is read from one of these sockets, which wait for one.
  predicate TakesReply(b: Client, e: Event, ws: set<Which>) {
    && Enabled(b, e) && e.Check? && b.pc.w in ws && e.answers.recv.Reply?
    && Socket(b.fds, b.pc.w) >= 0 && Socket(b.fds, b.pc.w) !in b.fds.wfds && Socket(b.fds, b.pc.w) in b.fds.rfds
  }

  // The address in the first of these replies among n events.
  ghost function FirstReply(c: Client, es: seq<Event>, ws: set<Which>, n: nat): Endpoint
    requires n <= |es|
    decreases n
  {
    if n == 0 then UNKNOWN
    else
      var before := FirstReply(c, es, ws, n - 1);
      if before == UNKNOWN && TakesReply(StateAt(c, es, n - 1), es[n - 1], ws) then es[n - 1].answers.recv.pub
      else before
  }

  // The sockets over which the server behind w replies.
  function Ways(w: Which): set<Which> {
    if w == T3 || w == Callback then {T3, Callback} else {w}
  }

  lemma ReplyRecords(b: Client, e: Event, w: Which)
    requires Enabled(b, e)
    ensures var r, q := b.found, Step(b, e).found;
      if TakesReply(b, e, Ways(w)) && Mine(r, w).addr == 0 then Mine(q, w) == e.answers.recv.pub
      else Mine(q, w) == Mine(r, w)
  {
    match e {
      case Check(a) => CheckRecords(b, a, w);
      case Loopback(a) => LoopbackStep(b, a);
      case Datagrams(ds) => RecvUdpKeepsTcp(b.found, ds);
      case _ =>
    }
  }

  lemma CheckRecords(b: Client, a: TcpAnswers, w: Which)
    requires Enabled(b, Check(a))
    ensures var r, q := b.found, Step(b, Check(a)).found;
      if TakesReply(b, Check(a), Ways(w)) && Mine(r, w).addr == 0 then Mine(q, w) == a.recv.pub
      else Mine(q, w) == Mine(r, w)
  {
    var v, sock := b.pc.w, Socket(b.fds, b.pc.w);
    if sock < 0 || (sock !in b.fds.rfds && sock !in b.fds.wfds) {
      UnwatchedStep(b, v, sock, a);
    } else if sock in b.fds.wfds {
      ConnectingStep(b, v, sock, a);
    } else if !a.recv.Reply? || Known(b.found, v) {
      WaitingStep(b, v, sock, a);
    } else if v == T2 {
      SecondReplyStep(b, a);
    } else {
      FirstReplyStep(b, v, sock, a);
    }
  }

  lemma MineStateNext(c: Client, es: seq<Event>, n: nat, w: Which)
    requires n < |es|
    ensures var b, d := StateAt(c, es, n), StateAt(c, es, n + 1);
      var mine, mine' := Mine(b.found, w), Mine(d.found, w);
      if TakesReply(b, es[n], Ways(w)) && mine.addr == 0 then mine' == es[n].answers.recv.pub else mine' == mine
    ensures TakesReply(StateAt(c, es, n), es[n], Ways(w)) ==> Public(es[n].answers.recv.pub)
  {
    NextState(c, es, n);
    if Enabled(StateAt(c, es, n), es[n]) { ReplyRecords(StateAt(c, es, n), es[n], w); }
  }

  lemma {:induction false} FirstReplies(c: Client, es: seq<Event>, n: nat, w: Which)
    requires Initial(c) && n <= |es|
    ensures Mine(StateAt(c, es, n).found, w) == FirstReply(c, es, Ways(w), n)
    ensures FirstReply(c, es, Ways(w), n) == UNKNOWN || Public(FirstReply(c, es, Ways(w), n))
    decreases n
  {
    if n > 0 {
      FirstReplies(c, es, n - 1, w);
      MineStateNext(c, es, n - 1, w);
    }
  }

  // In every run the address recorded for a server is the one in the first reply
  // read from it, over whichever socket.
  lemma TcpFoundExactly(c: Client, es: seq<Event>, d: Client, w: Which)
    requires Initial(c) && Reaches(c, es, d)
    ensures Mine(d.found, w) == FirstReply(c, es, Ways(w), |es|)
    ensures Mine(d.found, w) == UNKNOWN || Public(Mine(d.found, w))
  {
    RunEndsThere(c, es, d);
    FirstReplies(c, es, |es|, w);
  }

  // A loopback message with the right number is read in a round that is not fatal
  // before.
  predicate HearsLoop(b: Client, e: Event) {
    && b.pc == AtLoopback && e.Loopback? && b.fds.inloop >= 0 && e.loop.recv == Data(true)
    && !(b.fds.tcp4 >= 0 && b.fds.tcp4 in b.fds.wfds && e.loop.connect == Refused)
  }

  // Some of the first n events is such a one.
  ghost predicate LoopHeard(c: Client, es: seq<Event>, n: nat)
    requires n <= |es|
    decreases n
  {
    n > 0 && (LoopHeard(c, es, n - 1) || HearsLoop(StateAt(c, es, n - 1), es[n - 1]))
  }

  lemma LoopRecords(b: Client, e: Event)
    requires Enabled(b, e)
    ensures Step(b, e).found.tcploop <==> b.found.tcploop || HearsLoop(b, e)
  {
    match e {
      case Check(a) => CheckRecordsReply(b, b.pc.w, a);
      case Loopback(a) => LoopbackStep(b, a);
      case Datagrams(ds) => DatagramsKeepLoop(b.found, ds);
      case _ =>
    }
  }

  lemma {:induction false} DatagramsKeepLoop(r: Found, ds: seq<Arrival>)
    ensures RecvUdp(r, ds).tcploop == r.tcploop
    decreases |ds|
  {
    if ds != [] {
      DatagramsKeepLoop(RecvOne(r, ds[0]), ds[1..]);
    }
  }

  lemma LoopStateNext(c: Client, es: seq<Event>, n: nat)
    requires n < |es|
    ensures var b, d := StateAt(c, es, n), StateAt(c, es, n + 1);
      d.found.tcploop <==> b.found.tcploop || HearsLoop(b, es[n])
  {
    NextState(c, es, n);
    if Enabled(StateAt(c, es, n), es[n]) { LoopRecords(StateAt(c, es, n), es[n]); }
  }

  lemma {:induction false} LoopsHeard(c: Client, es: seq<Event>, n: nat)
    requires Initial(c) && n <= |es|
    ensures StateAt(c, es, n).found.tcploop <==> LoopHeard(c, es, n)
    decreases n
  {
    if n > 0 {
      LoopsHeard(c, es, n - 1);
      LoopStateNext(c, es, n - 1);
    }
  }

  // In every run the loopback flag says that such a message was read.
  lemma TcpLoopExactly(c: Client, es: seq<Event>, d: Client)
    requires Initial(c) && Reaches(c, es, d)
    ensures d.found.tcploop <==> LoopHeard(c, es, |es|)
  {
    RunEndsThere(c, es, d);
    LoopsHeard(c, es, |es|);
  }

  // ---------------------------------------------------------------------------
  // The report
  // ---------------------------------------------------------------------------

  function Tries(es: seq<Event>): nat {
    if es == [] then 0 else Tries(es[..|es| - 1]) + if es[|es| - 1] == Try then 1 else 0
  }

  // A report comes after exactly twenty tries.
  lemma {:induction false} TriesCounted(c: Client, es: seq<Event>, d: Client)
    requires Initial(c) && Reaches(c, es, d)
    ensures d.pc == AtReport ==> Tries(es) == 20 && d.tries == 21
    ensures d.pc != AtReport && d.pc != Dead ==> 1 <= d.tries <= 20
    ensures d.pc != AtReport && d.pc != Dead ==> Tries(es) == if d.pc == AtTry then d.tries - 1 else d.tries
    decreases |es|
  {
    if es != [] {
      var b := WithoutLast(c, es, d);
      TriesCounted(c, es[..|es| - 1], b);
    }
  }

  // The verdicts v, given the findings r of the run es from c: which server was not
  // heard from, and if all were, what the replies, reports and loopback messages of
  // the run tell.
  ghost predicate ReportTells(c: Client, es: seq<Event>, r: Found, v: Verdict) {
    var n, ds := |es|, Arrivals(es);
    var q1, q2 := FirstReply(c, es, {T1}, n), FirstReply(c, es, {T2}, n);
    var ps1, ps2 := ReportsOf(SERVER1, ds), ReportsOf(SERVER2, ds);
    if q1 == UNKNOWN then v == NoContact(1, true)
    else if q2 == UNKNOWN then v == NoContact(2, true)
    else if ps1 == [] then v == NoContact(1, false)
    else if ps2 == [] then v == NoContact(2, false)
    else
      && v.Verdict? && (v.tcpConsistent <==> q1 == q2) && (v.udpConsistent <==> ps1[0] == ps2[0])
      && (v.simultaneousOpen <==> FirstReply(c, es, {T3, Callback}, n) != UNKNOWN)
      && (v.tcpLoopback <==> LoopHeard(c, es, n)) && (v.udpLoopback <==> Probed(ds))
      && (v.tcpFiltered <==> !(0 < r.heard3 < r.heard2)) && (v.udpFiltered <==> ReportsOf(SERVER3, ds) == [])
  }

  // So the report of every run says.
  lemma ReportExactly(c: Client, es: seq<Event>, d: Client)
    requires Initial(c) && Reaches(c, es, d) && d.pc == AtReport
    ensures ReportTells(c, es, d.found, FinalReport(d.found))
  {
    TcpFoundExactly(c, es, d, T1);
    TcpFoundExactly(c, es, d, T2);
    TcpFoundExactly(c, es, d, T3);
    UdpTold(c, es, d);
    TcpLoopExactly(c, es, d);
    ReachableInv(c, es, d);
  }

  predicate Told(ps: seq<Endpoint>, mine: Endpoint) {
    if ps == [] then mine == UNKNOWN else mine == ps[0] && Public(mine)
  }

  lemma UdpTold(c: Client, es: seq<Event>, d: Client)
    requires Initial(c) && Reaches(c, es, d)
    ensures var r, ds := d.found, Arrivals(es);
      && Told(ReportsOf(SERVER1, ds), r.myu1) && Told(ReportsOf(SERVER2, ds), r.myu2)
      && Told(ReportsOf(SERVER3, ds), r.myu3) && (r.udploop <==> Probed(ds))
  {
    UdpFoundExactly(c, es, d);
    var ds := Arrivals(es);
    forall k | 1 <= k <= 3
      ensures Told(ReportsOf(Server(k), ds), Reported(k, d.found))
    {
      assert TellsOf(k, ds, d.found);
      ReportsArePublic(Server(k), ds);
    }
    assert Server(1) == SERVER1 && Server(2) == SERVER2 && Server(3) == SERVER3;
  }
}
