// The client program: the handlers of the main loop on the program's variables,
// each proved to do what NatClient says, and the whole loop, of which the client's
// theorems are proved.
module NatCheck {
  import opened NatClient
  import H = NatHistory
  import P = NatProtocol

  // `fds` and `found` are the program's globals, grouped as they are declared.
  class Program {
    var fds: Fds
    var found: Found
    var tries: nat
    var timeout: bool
    var round: nat
    ghost var pc: Pc

    ghost function State(): Client
      reads this
    {
      Client(fds, found, tries, timeout, round, pc)
    }

    // The descriptors of the seven sockets made come from the system.
    constructor (tcp0: int, udp1: int, tcp1: int, tcp2: int, tcp3: int, tcp4: int, udp2: int)
      requires tcp0 >= 0 && udp1 >= 0 && udp2 >= 0 && tcp1 >= 0 && tcp2 >= 0 && tcp3 >= 0 && tcp4 >= 0
      requires |{tcp0, udp1, udp2, tcp1, tcp2, tcp3, tcp4}| == 7
      ensures Initial(State())
      ensures fds.rfds == {tcp0, udp1} && fds.wfds == {tcp1, tcp2} && fds.incb == fds.inloop == -1
      ensures tcp0 <= fds.maxsock && udp1 <= fds.maxsock && tcp1 <= fds.maxsock && tcp2 <= fds.maxsock
      ensures found.myt1 == found.myt2 == found.myt3 == found.myu1 == found.myu2 == found.myu3 == Endpoint(0, 0)
      ensures !found.tcploop && !found.udploop && !found.t3toosoon && found.warned == {} && tries == 1
    {
      var maxsock := Max(Max(Max(Max(0, tcp0), udp1), tcp1), tcp2);
      fds := Fds(tcp0, tcp1, tcp2, tcp3, tcp4, udp1, udp2, -1, -1, maxsock, {tcp0, udp1}, {tcp1, tcp2},
                 {tcp0, udp1, udp2, tcp1, tcp2, tcp3, tcp4});
      found := Found(UNKNOWN, UNKNOWN, UNKNOWN, UNKNOWN, UNKNOWN, UNKNOWN,
                     false, false, false, {}, false, false, 0, 0);
      tries, timeout := 1, false;
      round, pc := 0, AtTry;
    }

    method Keep(a: Accepted)
      modifies `fds
      ensures fds == AcceptOne(old(fds), a)
    {
      if a.from == SERVER3 {
        if fds.incb < 0 {
          fds := fds.(incb := a.fd, open := fds.open + {a.fd});
          fds := fds.(rfds := fds.rfds + {fds.incb}, maxsock := Max(fds.maxsock, fds.incb));
        }
      } else {
        if fds.inloop < 0 {
          fds := fds.(inloop := a.fd, open := fds.open + {a.fd});
          fds := fds.(rfds := fds.rfds + {fds.inloop}, maxsock := Max(fds.maxsock, fds.inloop));
        }
      }
    }

    method ListenTcp(accepted: seq<Accepted>, blocked: bool) returns (exited: bool)
      requires Enabled(State(), Listen(accepted, blocked))
      modifies `fds, `pc
      ensures State() == Step(old(State()), Listen(accepted, blocked))
      ensures exited <==> pc == Dead
    {
      ghost var goal := AcceptAll(fds, accepted);
      var i := 0;
      while i < |accepted|
        invariant 0 <= i <= |accepted| && pc == old(pc)
        invariant AcceptAll(fds, accepted[i..]) == goal
      {
        assert accepted[i..][0] == accepted[i] && accepted[i..][1..] == accepted[i + 1..];
        Keep(accepted[i]);
        i := i + 1;
      }
      pc := if blocked then AtCheck(T1) else Dead;
      exited := !blocked;
    }

    method CloseIt(w: Which)
      modifies `fds
      ensures fds == Forget(old(fds), w)
    {
      fds := fds.(rfds := fds.rfds - {Socket(fds, w)});
      match w
      case T1 => fds := fds.(tcp1 := -1);
      case T2 => fds := fds.(tcp2 := -1);
      case T3 => fds := fds.(tcp3 := -1);
      case Callback => fds := fds.(incb := -1);
    }

    method Remember(w: Which, e: Endpoint)
      modifies `found
      ensures found == Record(old(found), w, e, round)
    {
      match w
      case T1 => found := found.(myt1 := e);
      case T2 => found := found.(myt2 := e, heard2 := round, dialled3 := true);
      case T3 => found := found.(myt3 := e, heard3 := round);
      case Callback => found := found.(myt3 := e, heard3 := round, inbound3 := true);
    }

    method BeginConnect(fd: int)
      modifies `fds
      ensures fds == Watch(old(fds), fd)
    {
      fds := fds.(wfds := fds.wfds + {fd});
      fds := fds.(maxsock := Max(fds.maxsock, fd));
    }

    method SendRequest(sock: int, connect: ConnectAnswer) returns (exited: bool)
      requires pc != Dead
      modifies `fds, `pc
      ensures State() == TrySend(old(State()), sock, connect)
      ensures exited <==> pc == Dead
    {
      exited := connect == Refused || connect == SendFailed;
      if exited {
        pc := Dead;
      } else if connect == Sent {
        fds := fds.(wfds := fds.wfds - {sock});
        fds := fds.(rfds := fds.rfds + {sock});
      }
    }

    method ReceiveReply(w: Which, a: TcpAnswers) returns (exited: bool)
      requires pc != Dead
      modifies `fds, `found, `pc
      ensures State() == TakeReply(old(State()), w, a)
      ensures exited <==> pc == Dead
      ensures w == T2 && a.recv.Reply? && old(found).myt2.addr == 0 && !exited ==>
        && found.myt2 == a.recv.pub
        && fds.wfds == old(fds).wfds + {fds.tcp4} + (if a.open3 == Started then {fds.tcp3} else {})
    {
      exited := false;
      if a.recv == NothingYet {
        return;
      }
      if a.recv == RecvFailed {
        pc := Dead;
        return true;
      }
      if a.recv.Reply? && Mine(found, w).addr == 0 {
        Remember(w, a.recv.pub);
        if w == T2 {
          if a.loop4 != Started {
            pc := Dead;
            return true;
          }
          if a.open3 == Started {
            BeginConnect(fds.tcp3);
          }
          BeginConnect(fds.tcp4);
        }
      }
      CloseIt(w);
    }

    method CheckTcp(w: Which, a: TcpAnswers) returns (exited: bool)
      requires pc == AtCheck(w) && Enabled(State(), Check(a))
      modifies `fds, `found, `pc
      ensures State() == Step(old(State()), Check(a))
      ensures exited <==> pc == Dead
    {
      exited := false;
      var sock := Socket(fds, w);
      if sock >= 0 {
        if sock in fds.wfds {
          exited := SendRequest(sock, a.connect);
        } else if sock in fds.rfds {
          exited := ReceiveReply(w, a);
        }
      }
      if !exited {
        pc := After(w);
      }
    }

    method JudgeTooSoon()
      requires pc == AtJudge
      modifies `found, `pc
      ensures State() == Step(old(State()), Compare)
    {
      if found.myt3.port != 0 && found.myt2.port == 0 {
        found := found.(t3toosoon := true);
      }
      pc := AtLoopback;
    }

    method CheckLoopback(a: LoopAnswers) returns (exited: bool)
      requires pc == AtLoopback
      modifies `fds, `found, `pc
      ensures State() == Step(old(State()), Loopback(a))
      ensures exited <==> pc == Dead
    {
      exited := false;
      if fds.tcp4 >= 0 && fds.tcp4 in fds.wfds {
        if a.connect == Refused {
          pc := Dead;
          return true;
        }
        if a.connect != Pending && a.connect != SendBlocked {
          fds := fds.(wfds := fds.wfds - {fds.tcp4}, open := fds.open - {fds.tcp4});
          fds := fds.(tcp4 := -1);
        }
      }
      if fds.inloop >= 0 && a.recv.Data? {
        if a.recv.loopMagic {
          found := found.(tcploop := true);
        }
        fds := fds.(rfds := fds.rfds - {fds.inloop}, open := fds.open - {fds.inloop});
        fds := fds.(inloop := -1);
      }
      pc := AtUdp;
    }

    method Receive(d: Arrival)
      modifies `found
      ensures found == RecvOne(old(found), d)
    {
      match d.payload
      case Probe => found := found.(udploop := true);
      case Junk =>
      case Report(pub) =>
        if d.from == SERVER1 {
          if found.myu1.addr == 0 { found := found.(myu1 := pub); }
          else if found.myu1 != pub { found := found.(warned := found.warned + {1}); }
        } else if d.from == SERVER2 {
          if found.myu2.addr == 0 { found := found.(myu2 := pub); }
          else if found.myu2 != pub { found := found.(warned := found.warned + {2}); }
        } else if d.from == SERVER3 {
          if found.myu3.addr == 0 { found := found.(myu3 := pub); }
          else if found.myu3 != pub { found := found.(warned := found.warned + {3}); }
        }
    }

    method RecvUdpAll(arrivals: seq<Arrival>)
      modifies `found
      ensures found == RecvUdp(old(found), arrivals)
    {
      ghost var goal := RecvUdp(found, arrivals);
      var i := 0;
      while i < |arrivals|
        invariant 0 <= i <= |arrivals|
        invariant RecvUdp(found, arrivals[i..]) == goal
      {
        assert arrivals[i..][0] == arrivals[i] && arrivals[i..][1..] == arrivals[i + 1..];
        Receive(arrivals[i]);
        i := i + 1;
      }
    }

    // One try: a request to servers 1 and 2, and a probe to our own public address
    // as soon as it is known. Through any NAT these are the datagrams by which the
    // protocol makes its step.
    method BeginTry() returns (sends: seq<Send>)
      requires pc == AtTry && ClientInv(State())
      modifies `timeout, `pc
      ensures State() == Step(old(State()), Try) && ClientInv(State())
      ensures forall n: P.Nat :: P.Outgoing(n, sends) == P.TryDatagrams(n, old(State()))
      ensures |sends| == if found.myu2.addr != 0 then 3 else 2
    {
      StepKeepsClientInv(State(), Try);
      sends := [Send(Udp1, SERVER1, ReqMagic), Send(Udp1, SERVER2, ReqMagic)];
      if found.myu2.addr != 0 {
        sends := sends + [Send(Udp2, found.myu2, LoopMagic)];
      }
      forall n: P.Nat
        ensures P.Outgoing(n, sends) == P.TryDatagrams(n, State())
      {
        P.TrySendsDatagrams(n, State(), sends);
      }
      timeout, pc := false, AtSelect;
    }

    // One round of the inner loop: select, then every handler in turn.
    method Round(input: RoundInput) returns (exited: bool)
      requires pc == AtSelect && tries <= NTRIES && ClientInv(State())
      requires FreshDescriptors(fds, input.accepted) && PublicInput(input)
      modifies this
      ensures State() == RunFrom(old(State()), RoundEvents(input), 0)
      ensures ClientInv(State()) && WrittenOnce(old(found), found)
      ensures if exited then pc == Dead else Between()
    {
      RunFromKeepsClientInv(State(), RoundEvents(input), 0);
      RunFromWritesOnce(State(), RoundEvents(input), 0);
      exited := Handlers(input);
    }

    // Where the loops stand between rounds.
    ghost predicate Between()
      reads this
    {
      if timeout then pc == if tries <= NTRIES then AtTry else AtReport
      else tries <= NTRIES && pc == AtSelect
    }

    // The loop of tries and the loop of rounds, on the answers there are. It exits on
    // a fatal one, waits when there is none left, and reports after the last try.
    method Drive(inputs: seq<RoundInput>) returns (verdict: P.Option<Verdict>)
      requires Initial(State()) && Possible(State(), inputs)
      modifies this
      ensures State() == Driven(old(State()), inputs)
      ensures pc != Dead ==> Sound(fds)
      ensures found.t3toosoon ==>
        found.inbound3 && found.heard3 > 0 && (!found.dialled3 || found.heard3 < found.heard2)
      ensures forall k :: 0 <= k <= |inputs| ==> WrittenOnce(Driven(old(State()), inputs[..k]).found, found)
      ensures verdict == if pc == AtReport then P.Some(FinalReport(found)) else P.None
      ensures verdict.Some? ==>
        exists es :: Reaches(old(State()), es, State()) && H.ReportTells(old(State()), es, found, verdict.value)
      ensures pc == AtReport ==> (found.t3toosoon <==> ThreeBeforeTwo(found))
    {
      InitialInv(State());
      ghost var start := State();
      var exited := Loop(inputs);
      verdict := P.None;
      if !exited && tries > NTRIES {
        verdict := P.Some(FinalReport(found));
        ghost var es := DrivenReached(start, inputs);
        H.ReportExactly(start, es, State());
      }
      if pc != Dead { InvSound(State()); }
      forall k | 0 <= k <= |inputs|
        ensures WrittenOnce(Driven(start, inputs[..k]).found, found)
      {
        DrivenWritesOnce(start, inputs, k);
      }
    }

    method Loop(inputs: seq<RoundInput>) returns (exited: bool)
      requires pc == AtTry && tries <= NTRIES && ClientInv(State()) && Possible(State(), inputs)
      modifies this
      ensures State() == Driven(old(State()), inputs) && ClientInv(State())
      ensures exited <==> pc == Dead
      ensures !exited ==> (tries > NTRIES <==> pc == AtReport)
    {
      ghost var goal := Driven(State(), inputs);
      var i := 0;
      assert inputs[0..] == inputs;
      while tries <= NTRIES
        invariant 0 <= i <= |inputs| && ClientInv(State())
        invariant pc == if tries <= NTRIES then AtTry else AtReport
        invariant Possible(State(), inputs[i..]) && Driven(State(), inputs[i..]) == goal
        decreases |inputs| - i
      {
        DrivenTry(State(), inputs[i..]);
        var _ := BeginTry();
        exited, i := Rounds(inputs, i);
        if exited || !timeout {
          return;
        }
      }
      exited := false;
    }

    // The rounds of one try, on the answers from index i on.
    method Rounds(inputs: seq<RoundInput>, i: nat) returns (exited: bool, next: nat)
      requires i <= |inputs| && pc == AtSelect && !timeout && tries <= NTRIES
      requires ClientInv(State()) && Possible(State(), inputs[i..])
      modifies this
      ensures i <= next <= |inputs| && ClientInv(State())
      ensures Possible(State(), inputs[next..]) && Driven(State(), inputs[next..]) == Driven(old(State()), inputs[i..])
      ensures if exited then pc == Dead else Between() && (if timeout then i < next else next == |inputs|)
    {
      ghost var goal := Driven(State(), inputs[i..]);
      exited, next := false, i;
      while !exited && !timeout && next < |inputs|
        invariant i <= next <= |inputs| && ClientInv(State())
        invariant if exited then pc == Dead else Between() && (timeout ==> i < next)
        invariant Possible(State(), inputs[next..]) && Driven(State(), inputs[next..]) == goal
        decreases |inputs| - next
      {
        exited := NextRound(inputs, next);
        next := next + 1;
      }
    }

    method NextRound(inputs: seq<RoundInput>, k: nat) returns (exited: bool)
      requires k < |inputs| && pc == AtSelect && tries <= NTRIES
      requires ClientInv(State()) && Possible(State(), inputs[k..])
      modifies this
      ensures ClientInv(State()) && Possible(State(), inputs[k + 1..])
      ensures Driven(State(), inputs[k + 1..]) == Driven(old(State()), inputs[k..])
      ensures if exited then pc == Dead else Between()
    {
      DrivenRound(State(), inputs, k);
      exited := Round(inputs[k]);
    }

    method Handlers(input: RoundInput) returns (exited: bool)
      requires pc == AtSelect && tries <= NTRIES
      requires FreshDescriptors(fds, input.accepted) && PublicInput(input)
      modifies this
      ensures State() == RunFrom(old(State()), RoundEvents(input), 0)
      ensures if exited then pc == Dead else Between()
    {
      exited := RoundTcp(input);
      if exited { return; }
      ghost var es := RoundEvents(input);
      RunFromStep(State(), es, 6);
      JudgeTooSoon();
      RunFromStep(State(), es, 7);
      exited := CheckLoopback(input.loop);
      if exited { return; }
      RunFromStep(State(), es, 8);
      RecvUdpAll(input.arrivals);
      EndRound();
    }

    method RoundTcp(input: RoundInput) returns (exited: bool)
      requires pc == AtSelect && FreshDescriptors(fds, input.accepted) && PublicInput(input)
      modifies this
      ensures RunFrom(State(), RoundEvents(input), 6) == RunFrom(old(State()), RoundEvents(input), 0)
      ensures if exited then pc == Dead else pc == AtJudge && tries == old(tries)
    {
      ghost var es := RoundEvents(input);
      exited := SelectAndListen(input, es);
      if exited { return; }
      exited := CheckAll(input, es);
    }

    method CheckAll(input: RoundInput, ghost es: seq<Event>) returns (exited: bool)
      requires pc == AtCheck(T1) && |es| >= 6
      requires PublicReply(input.reply1) && PublicReply(input.reply2) && es[2] == Check(input.reply1)
      requires PublicReply(input.reply3) && PublicReply(input.callback) && es[3] == Check(input.reply2)
      requires es[4] == Check(input.reply3) && es[5] == Check(input.callback)
      modifies this
      ensures RunFrom(State(), es, 6) == RunFrom(old(State()), es, 2)
      ensures if exited then pc == Dead else pc == AtJudge && tries == old(tries)
    {
      exited := CheckTwo(T1, T2, input.reply1, input.reply2, es, 2);
      if exited { return; }
      exited := CheckTwo(T3, Callback, input.reply3, input.callback, es, 4);
    }

    // select
    method Await(expired: bool)
      requires pc == AtSelect
      modifies `timeout, `round, `pc
      ensures pc == AtListen && State() == Step(old(State()), Select(expired))
    {
      timeout := expired;
      round, pc := round + 1, AtListen;
    }

    method SelectAndListen(input: RoundInput, ghost es: seq<Event>) returns (exited: bool)
      requires pc == AtSelect && FreshDescriptors(fds, input.accepted)
      requires |es| >= 2 && es[0] == Select(input.expired) && es[1] == Listen(input.accepted, input.blocked)
      modifies this
      ensures RunFrom(State(), es, 2) == RunFrom(old(State()), es, 0)
      ensures if exited then pc == Dead else pc == AtCheck(T1) && tries == old(tries)
    {
      RunFromStep(State(), es, 0);
      Await(input.expired);
      RunFromStep(State(), es, 1);
      exited := ListenTcp(input.accepted, input.blocked);
    }

    method CheckTwo(w: Which, v: Which, a: TcpAnswers, b: TcpAnswers, ghost es: seq<Event>, ghost k: nat)
      returns (exited: bool)
      requires pc == AtCheck(w) && After(w) == AtCheck(v) && PublicReply(a) && PublicReply(b)
      requires k + 1 < |es| && es[k] == Check(a) && es[k + 1] == Check(b)
      modifies this
      ensures RunFrom(State(), es, k + 2) == RunFrom(old(State()), es, k)
      ensures if exited then pc == Dead else pc == After(v) && tries == old(tries)
    {
      exited := CheckNext(w, a, es, k);
      if exited { return; }
      exited := CheckNext(v, b, es, k + 1);
    }

    method CheckNext(w: Which, a: TcpAnswers, ghost es: seq<Event>, ghost k: nat) returns (exited: bool)
      requires pc == AtCheck(w) && PublicReply(a)
      requires k < |es| && es[k] == Check(a)
      modifies this
      ensures RunFrom(State(), es, k + 1) == RunFrom(old(State()), es, k)
      ensures if exited then pc == Dead else pc == After(w) && tries == old(tries)
    {
      RunFromStep(State(), es, k);
      exited := CheckTcp(w, a);
    }

    // The round's timeout decides between one more round, one more try and the report.
    method EndRound()
      requires pc == AtUdp
      modifies `tries, `pc
      ensures State() == EndOfRound(old(State()))
    {
      if timeout {
        tries := tries + 1;
        pc := if tries <= NTRIES then AtTry else AtReport;
      } else {
        pc := AtSelect;
      }
    }
  }
}
