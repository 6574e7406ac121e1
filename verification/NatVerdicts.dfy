// What the verdicts of a run owe to its actions: whom server 3 reports about, when
// a warning is printed, and what a reply of server 3 stands for.
module NatVerdicts {
  import opened NatClient
  import opened NatProtocol

  // ---------------------------------------------------------------------------
  // Server 3 reports only what server 2 has seen, unless somebody else writes to its
  // private port
  // ---------------------------------------------------------------------------

  predicate Forges(a: Action) {
    a.StrangerSends? && a.d.dst == BOUNCER && a.d.body.BounceRequest?
  }

  // The endpoints whose requests server 2 has answered.
  function ServedBy2(actions: seq<Action>): set<Endpoint> {
    if actions == [] then {}
    else (if actions[0].ServeUdp? && actions[0].at == SERVER2 then {actions[0].d.src} else {}) + ServedBy2(actions[1..])
  }

  // Bounce requests to server 3 and its reports are about such endpoints.
  predicate Bounced(d: Datagram, served: set<Endpoint>) {
    && (d.dst == BOUNCER && d.body.BounceRequest? ==> d.src == SERVER2 && d.body.pub in served)
    && (d.src == SERVER3 && d.body.Answer? ==> d.dst == d.body.pub && d.body.pub in served)
  }

  ghost predicate AllBounced(sent: set<Datagram>, served: set<Endpoint>) {
    forall d :: d in sent ==> Bounced(d, served)
  }

  lemma ActionKeepsBounced(n: Nat, s: System, a: Action, served: set<Endpoint>)
    requires Guard(n, s, a) && ValidNat(n) && AllBounced(s.sent, served) && !Forges(a)
    ensures AllBounced(Effect(n, s, a).sent, served + ServedBy2([a]))
  {
    var now := served + ServedBy2([a]);
    assert ServedBy2([]) == {};
    forall d | d in Effect(n, s, a).sent
      ensures Bounced(d, now)
    {
      if d in s.sent {
        assert Bounced(d, served);
      } else if a.BounceUdp? {
        assert Bounced(a.d, served);
      }
    }
  }

  lemma {:induction false} RunKeepsBounced(n: Nat, s: System, actions: seq<Action>, t: System, served: set<Endpoint>)
    requires ValidNat(n) && Run(n, s, actions, t) && AllBounced(s.sent, served)
    requires forall a :: a in actions ==> !Forges(a)
    ensures AllBounced(t.sent, served + ServedBy2(actions))
    decreases |actions|
  {
    if actions == [] {
      assert served + ServedBy2(actions) == served;
    } else {
      var a := actions[0];
      ActionKeepsBounced(n, s, a, served);
      var now := served + ServedBy2([a]);
      RunKeepsBounced(n, Effect(n, s, a), actions[1..], t, now);
      assert [a][1..] == [] && ServedBy2([]) == {};
      assert now + ServedBy2(actions[1..]) == served + ServedBy2(actions);
    }
  }

  // In every run in which no stranger sends a bounce request to server 3's private
  // port, every report of server 3 is about an endpoint whose request server 2 has
  // answered, and is sent there; and no server is ever said to be inconsistent.
  lemma NoForgeryNoWarning(n: Nat, s: System, actions: seq<Action>, t: System)
    requires Start(n, s) && Run(n, s, actions, t) && forall a :: a in actions ==> !Forges(a)
    ensures t.client.found.warned == {}
    ensures forall d :: d in t.sent && d.src == SERVER3 && d.body.Answer? ==>
      d.dst == d.body.pub && d.body.pub in ServedBy2(actions)
  {
    RunKeepsBounced(n, s, actions, t, {});
    assert {} + ServedBy2(actions) == ServedBy2(actions);
    assert forall d :: d in t.sent ==> Bounced(d, ServedBy2(actions));
    if t.client.found.warned != {} {
      WarnedOnlyOfForgery(n, s, actions, t);
    }
  }

  // ---------------------------------------------------------------------------
  // Simultaneous open
  // ---------------------------------------------------------------------------

  // The report says so exactly if a reply of server 3 was recorded, over whichever
  // connection; then server 3 has really sent it, after dialling the endpoint in it.
  lemma SimultaneousOpenVerdict(n: Nat, s: System, actions: seq<Action>, t: System)
    requires Start(n, s) && Run(n, s, actions, t) && t.client.pc == AtReport
    ensures var r, v := t.client.found, FinalReport(t.client.found);
      v.Verdict? ==>
        && (v.simultaneousOpen <==> 0 < r.heard3)
        && (v.simultaneousOpen ==> Public(r.myt3) && r.myt3 in t.replied && r.myt3 in t.dialled)
        && (!v.simultaneousOpen ==> r.myt3 == UNKNOWN)
  {
    RunKeepsTcpInv(n, s, actions, t);
    InitialInv(s.client);
    RunKeepsSystemClientInv(n, s, actions, t);
  }

  // ---------------------------------------------------------------------------
  // The datagrams of a try
  // ---------------------------------------------------------------------------

  // Every try sends a request to servers 1 and 2 from the first socket and, once
  // server 2's report is known, one probe from the second socket to the endpoint
  // server 2 sees; no other step of the client sends anything.
  lemma TrySendsExactly(n: Nat, s: System, actions: seq<Action>, t: System, e: Event)
    requires Start(n, s) && Run(n, s, actions, t) && ClientGuard(n, t, e)
    ensures var u := Effect(n, t, ClientStep(e));
      u.sent == t.sent +
        if e != Try then {}
        else {Datagram(n.udpTo1, SERVER1, Request), Datagram(n.udpTo2, SERVER2, Request)}
             + if t.client.found.myu2 == UNKNOWN then {} else {Datagram(n.probe, n.udpTo2, LoopProbe)}
  {
    RunKeepsUdpInv(n, s, actions, t);
    RunKeepsKnown(n, s, actions, t);
  }

  // What is recorded has an address.
  predicate KnownOrNot(r: Found) {
    r.myu2 == UNKNOWN || Public(r.myu2)
  }

  lemma {:induction false} RecvKeepsKnown(r: Found, ds: seq<Arrival>)
    requires KnownOrNot(r) && forall d :: d in ds && d.payload.Report? ==> Public(d.payload.pub)
    ensures KnownOrNot(RecvUdp(r, ds))
    decreases |ds|
  {
    if ds != [] {
      assert ds[0] in ds;
      RecvKeepsKnown(RecvOne(r, ds[0]), ds[1..]);
    }
  }

  lemma {:induction false} RunKeepsKnown(n: Nat, s: System, actions: seq<Action>, t: System)
    requires KnownOrNot(s.client.found) && Run(n, s, actions, t)
    ensures KnownOrNot(t.client.found)
    decreases |actions|
  {
    if actions != [] {
      var a, u := actions[0], Effect(n, s, actions[0]);
      if a.ClientStep? {
        assert u.client == Step(s.client, a.e);
        if a.e.Datagrams? {
          RecvKeepsKnown(s.client.found, a.e.arrivals);
        } else {
          OtherStepsKeepUdp(s.client, a.e);
        }
      } else {
        assert u.client == s.client;
      }
      RunKeepsKnown(n, u, actions[1..], t);
    }
  }
}
