// The steps of the client's TCP handlers, field by field: what becomes of every
// socket variable, of the two select sets and of what is found out.
module NatSteps {
  import opened NatClient

  // The descriptor in the variable that a check looks at.
  predicate Holds(f: Fds, w: Which, sock: int) {
    && (w == T1 ==> sock == f.tcp1) && (w == T2 ==> sock == f.tcp2)
    && (w == T3 ==> sock == f.tcp3) && (w == Callback ==> sock == f.incb)
  }

  // Only the descriptor variable of w may change.
  predicate OthersKept(f: Fds, g: Fds, w: Which) {
    && (w == T1 || g.tcp1 == f.tcp1) && (w == T2 || g.tcp2 == f.tcp2) && (w == T3 || g.tcp3 == f.tcp3)
    && (w == Callback || g.incb == f.incb)
    && g.tcp0 == f.tcp0 && g.tcp4 == f.tcp4 && g.udp1 == f.udp1 && g.udp2 == f.udp2 && g.inloop == f.inloop
    && g.open == f.open
  }

  function NextCheck(w: Which): Pc {
    match w
    case T1 => AtCheck(T2)
    case T2 => AtCheck(T3)
    case T3 => AtCheck(Callback)
    case Callback => AtJudge
  }

  // A socket that is not watched, or not there any more, is left alone.
  lemma UnwatchedStep(c: Client, w: Which, sock: int, a: TcpAnswers)
    requires c.pc == AtCheck(w) && Enabled(c, Check(a)) && Holds(c.fds, w, sock)
    requires sock < 0 || (sock !in c.fds.rfds && sock !in c.fds.wfds)
    ensures Step(c, Check(a)) == c.(pc := NextCheck(w))
  {
  }

  // A socket waiting to be connected moves on to waiting for the reply exactly when
  // the request is sent, and only a hard error ends the program.
  lemma ConnectingStep(c: Client, w: Which, sock: int, a: TcpAnswers)
    requires c.pc == AtCheck(w) && Enabled(c, Check(a)) && Holds(c.fds, w, sock)
    requires sock >= 0 && sock in c.fds.wfds
    ensures var d := Step(c, Check(a));
      && d.found == c.found && d.tries == c.tries && d.timeout == c.timeout && d.round == c.round
      && d.pc == (if a.connect in {Refused, SendFailed} then Dead else NextCheck(w))
      && d.fds == (if a.connect != Sent then c.fds
                   else c.fds.(wfds := c.fds.wfds - {sock}, rfds := c.fds.rfds + {sock}))
  {
  }

  // A socket waiting for the reply goes on waiting as long as nothing has come, and
  // is given up on anything but a first whole reply.
  lemma WaitingStep(c: Client, w: Which, sock: int, a: TcpAnswers)
    requires c.pc == AtCheck(w) && Enabled(c, Check(a)) && Holds(c.fds, w, sock)
    requires sock >= 0 && sock !in c.fds.wfds && sock in c.fds.rfds
    ensures var d := Step(c, Check(a));
      && (a.recv == NothingYet ==> d == c.(pc := NextCheck(w)))
      && (a.recv == RecvFailed ==> d == c.(pc := Dead))
      && (a.recv == Unusable || (a.recv.Reply? && Known(c.found, w)) ==>
            && d == c.(fds := d.fds, pc := NextCheck(w))
            && Holds(d.fds, w, -1) && OthersKept(c.fds, d.fds, w)
            && d.fds.rfds == c.fds.rfds - {sock} && d.fds.wfds == c.fds.wfds && d.fds.maxsock == c.fds.maxsock)
  {
  }

  // The address of the server behind w is known.
  predicate Known(r: Found, w: Which) {
    match w
    case T1 => r.myt1.addr != 0
    case T2 => r.myt2.addr != 0
    case T3 => r.myt3.addr != 0
    case Callback => r.myt3.addr != 0
  }

  // The first reply of server 1 or 3 is recorded and its socket given up.
  lemma FirstReplyStep(c: Client, w: Which, sock: int, a: TcpAnswers)
    requires c.pc == AtCheck(w) && Enabled(c, Check(a)) && Holds(c.fds, w, sock) && w != T2
    requires sock >= 0 && sock !in c.fds.wfds && sock in c.fds.rfds && a.recv.Reply? && !Known(c.found, w)
    ensures var d, r := Step(c, Check(a)), c.found;
      && d == c.(fds := d.fds, found := d.found, pc := NextCheck(w))
      && d.found == (if w == T1 then r.(myt1 := a.recv.pub)
                     else r.(myt3 := a.recv.pub, heard3 := c.round, inbound3 := r.inbound3 || w == Callback))
      && Holds(d.fds, w, -1) && OthersKept(c.fds, d.fds, w)
      && d.fds.rfds == c.fds.rfds - {sock} && d.fds.wfds == c.fds.wfds && d.fds.maxsock == c.fds.maxsock
  {
  }

  // That of server 2 makes the client connect to itself, or die, and to server 3:
  // this socket is watched if its connect has got under way.
  lemma SecondReplyStep(c: Client, a: TcpAnswers)
    requires c.pc == AtCheck(T2) && Enabled(c, Check(a)) && a.recv.Reply? && c.found.myt2.addr == 0
    requires c.fds.tcp2 >= 0 && c.fds.tcp2 !in c.fds.wfds && c.fds.tcp2 in c.fds.rfds
    ensures var d, r := Step(c, Check(a)), c.found;
      && d == c.(fds := d.fds, found := d.found, pc := if a.loop4 == Started then AtCheck(T3) else Dead)
      && d.found == r.(myt2 := a.recv.pub, heard2 := c.round, dialled3 := true)
      && (a.loop4 == Started ==>
            && d.fds.tcp2 == -1 && OthersKept(c.fds, d.fds, T2)
            && d.fds.rfds == c.fds.rfds - {c.fds.tcp2}
            && d.fds.wfds == c.fds.wfds + {c.fds.tcp4} + (if a.open3 == Started then {c.fds.tcp3} else {})
            && d.fds.maxsock >= c.fds.tcp4 && (a.open3 == Started ==> d.fds.maxsock >= c.fds.tcp3))
  {
  }

  // So in every run the step that records reply 2 leaves the loopback's socket
  // watched, and server 3's exactly if its connect has got under way.
  lemma ReplyTwoWatches(c: Client, es: seq<Event>, d: Client, a: TcpAnswers)
    requires Initial(c) && Reaches(c, es, d) && Enabled(d, Check(a))
    requires d.found.myt2.addr == 0 && Step(d, Check(a)).found.myt2.addr != 0 && Step(d, Check(a)).pc != Dead
    ensures var e := Step(d, Check(a));
      && d.pc == AtCheck(T2) && a.recv.Reply? && e.found.myt2 == a.recv.pub
      && e.fds.tcp4 == d.fds.tcp4 >= 0 && e.fds.tcp3 == d.fds.tcp3 >= 0
      && e.fds.tcp4 in e.fds.wfds && (e.fds.tcp3 in e.fds.wfds <==> a.open3 == Started)
  {
    ReachableInv(c, es, d);
    CheckRecordsReply(d, d.pc.w, a);
    assert d.pc == AtCheck(T2);
    assert d.fds.tcp2 in d.fds.rfds;
    SecondReplyStep(d, a);
  }

  // The outgoing loopback connection is over once the message is sent or cannot be
  // sent; a refused one ends the program.
  lemma LoopOutStep(c: Client, connect: ConnectAnswer)
    ensures var d, f := LoopOut(c, connect), c.fds;
      if !(f.tcp4 >= 0 && f.tcp4 in f.wfds) || connect in {Pending, SendBlocked} then d == c
      else if connect == Refused then d == c.(pc := Dead)
      else d == c.(fds := f.(tcp4 := -1, wfds := f.wfds - {f.tcp4}, open := f.open - {f.tcp4}))
  {
  }

  // The first thing read from the incoming one, whatever it is, ends it.
  lemma LoopInStep(c: Client, recv: LoopRecv)
    ensures var d, f := LoopIn(c, recv), c.fds;
      if !(f.inloop >= 0 && recv.Data?) then d == c
      else d == c.(fds := f.(inloop := -1, rfds := f.rfds - {f.inloop}, open := f.open - {f.inloop}),
                   found := c.found.(tcploop := c.found.tcploop || recv.loopMagic))
  {
  }

  // The loopback step is these two, unless the first is fatal.
  lemma LoopbackStep(c: Client, a: LoopAnswers)
    requires c.pc == AtLoopback
    ensures var d, f := Step(c, Loopback(a)), c.fds;
      if f.tcp4 >= 0 && f.tcp4 in f.wfds && a.connect == Refused then d == c.(pc := Dead)
      else
        var heard := f.inloop >= 0 && a.recv.Data?;
        && d == c.(fds := d.fds, found := c.found.(tcploop := c.found.tcploop || (heard && a.recv.loopMagic)),
                   pc := AtUdp)
        && d.fds.inloop == (if heard then -1 else f.inloop)
        && d.fds.rfds == f.rfds - (if heard then {f.inloop} else {})
        && (f.tcp4 >= 0 && f.tcp4 in f.wfds && a.connect in {Sent, SendFailed} <==> d.fds.tcp4 != f.tcp4)
        && d.fds.wfds == f.wfds - (if d.fds.tcp4 != f.tcp4 then {f.tcp4} else {})
  {
    LoopOutStep(c, a.connect);
    LoopInStep(LoopOut(c, a.connect), a.recv);
  }

  // The steps around the handlers: a try starts without a timeout, a round is one
  // select, an accept error is fatal, the flag for a reply that came too soon is never
  // taken back, and a round that timed out ends its try, the twentieth being the last.
  lemma OtherSteps(c: Client, e: Event)
    requires Enabled(c, e)
    ensures var d := Step(c, e);
      match e
      case Try => d == c.(timeout := false, pc := AtSelect)
      case Select(expired) => d == c.(timeout := expired, round := c.round + 1, pc := AtListen)
      case Listen(_, blocked) => d == c.(fds := d.fds, pc := if blocked then AtCheck(T1) else Dead)
      case Compare =>
        var soon := c.found.myt3.port != 0 && c.found.myt2.port == 0;
        d == c.(found := c.found.(t3toosoon := c.found.t3toosoon || soon), pc := AtLoopback)
      case Datagrams(_) =>
        if !c.timeout then d == c.(found := d.found, pc := AtSelect)
        else d == c.(found := d.found, tries := c.tries + 1, pc := if c.tries < 20 then AtTry else AtReport)
      case _ => true
  {
  }

  // The descriptor of the first connection from server 3, or of the first one from
  // anywhere else; -1 if there is none.
  function FirstFrom(accepted: seq<Accepted>, third: bool): int {
    if accepted == [] then -1
    else if (accepted[0].from == SERVER3) == third then accepted[0].fd
    else FirstFrom(accepted[1..], third)
  }

  predicate Usable(accepted: seq<Accepted>) {
    forall a :: a in accepted ==> a.fd >= 0
  }

  // Of the connections accepted the first from server 3 and the first from anywhere
  // else are kept and watched, if there was none; all others are closed.
  lemma {:induction false} ListenKeepsFirst(f: Fds, accepted: seq<Accepted>)
    requires Usable(accepted)
    ensures var g, cb, loop := AcceptAll(f, accepted), FirstFrom(accepted, true), FirstFrom(accepted, false);
      var kept := (if f.incb < 0 <= cb then {cb} else {}) + (if f.inloop < 0 <= loop then {loop} else {});
      && g == f.(incb := g.incb, inloop := g.inloop, rfds := g.rfds, open := g.open, maxsock := g.maxsock)
      && g.incb == (if f.incb < 0 <= cb then cb else f.incb)
      && g.inloop == (if f.inloop < 0 <= loop then loop else f.inloop)
      && g.rfds == f.rfds + kept && g.open == f.open + kept
      && g.maxsock >= f.maxsock && (forall fd :: fd in kept ==> g.maxsock >= fd)
    decreases |accepted|
  {
    if accepted != [] {
      assert accepted[0] in accepted;
      ListenKeepsFirst(AcceptOne(f, accepted[0]), accepted[1..]);
    }
  }
}
