/** Where a lossless exchange ends up. Frames may be delivered in any order and any number of times,
    but none is dropped undelivered; no endpoint ticks or closes by itself. */
module Settling {
  import opened Wrappers
  import opened Connections
  import opened Handshake

  predicate Delivers(es: seq<Event>) { forall e <- es :: e.DeliverToServer? || e.DeliverToClient? }

  predicate Quiet(n: Net) { n.toServer == [] && n.toClient == [] }

  predicate Harmless(f: SessionFrame, id: nat) {
    !f.Goodbye? && !f.PeerError? && (f.HelloReply? ==> f.sessionId == id)
  }

  predicate AllHarmless(fs: seq<SessionFrame>, id: nat) { forall f <- fs :: Harmless(f, id) }

  /** The handshake is under way or done: the Hello is on its way, or its reply is, or both ends hold
      the session. */
  predicate Shaking(n: Net, id: nat) {
    && AllHarmless(n.toServer, id) && AllHarmless(n.toClient, id)
    && n.server.sessionId == Some(id)
    && (n.server.state == Init ==> forall f <- n.toClient :: !f.HelloReply?)
    && (|| (n.server.state == Init && n.client.state == Pending && Hello(1) in n.toServer)
        || (n.server.state == Authenticated && n.client.state == Pending && HelloReply(id) in n.toClient)
        || (n.server.state == Authenticated && n.client.state == Authenticated && n.client.sessionId == Some(id)))
  }

  lemma WithoutKeeps<T>(s: seq<T>, k: nat, x: T)
    requires k < |s|
    ensures x in Without(s, k) ==> x in s
    ensures x in s && s[k] != x ==> x in Without(s, k)
  {
    assert s == s[..k] + [s[k]] + s[k + 1..];
  }

  lemma HarmlessWithout(fs: seq<SessionFrame>, k: nat, more: seq<SessionFrame>, id: nat)
    requires AllHarmless(fs, id) && AllHarmless(more, id)
    ensures AllHarmless(fs + more, id)
    ensures k < |fs| ==> Harmless(fs[k], id) && AllHarmless(Without(fs, k), id)
  {
  }

  /** A server in or past the handshake takes the Hello by authenticating and replying, and anything else
      harmless without moving. */
  lemma ServerAnswers(c: Conn, f: SessionFrame, id: nat, now: nat)
    requires Harmless(f, id) && c.sessionId == Some(id) && c.state in {Init, Authenticated}
    ensures var (c', r) := Handled(c, f, now);
            var out := SentIfOk(r);
            && c'.sessionId == Some(id) && AllHarmless(out, id)
            && (if c.state == Init && f == Hello(1) then c'.state == Authenticated && out == [HelloReply(id)]
                else c'.state == c.state && forall g <- out :: !g.HelloReply?)
  {
    AnswerOf(c, f, now);
    SentOne(SendFrame(HelloReply(id)), []);
  }

  lemma ToServerShaking(n: Net, id: nat, e: Event)
    requires Shaking(n, id) && e.DeliverToServer? && e.k < |n.toServer|
    ensures Shaking(Step(n, e), id)
  {
    var f := n.toServer[e.k];
    HarmlessWithout(n.toServer, e.k, [], id);
    ServerAnswers(n.server, f, id, n.now);
    HarmlessWithout(n.toClient, 0, SentIfOk(Handled(n.server, f, n.now).1), id);
    WithoutKeeps(n.toServer, e.k, Hello(1));
  }

  lemma ToClientShaking(n: Net, id: nat, e: Event)
    requires Shaking(n, id) && e.DeliverToClient? && e.k < |n.toClient|
    ensures Shaking(Step(n, e), id)
  {
    var f := n.toClient[e.k];
    HarmlessWithout(n.toClient, e.k, [], id);
    AnswerOf(n.client, f, n.now);
    HarmlessWithout(n.toServer, 0, SentIfOk(Handled(n.client, f, n.now).1), id);
    WithoutKeeps(n.toClient, e.k, HelloReply(id));
  }

  lemma StepShaking(n: Net, id: nat, e: Event)
    requires Shaking(n, id) && Delivers([e])
    ensures Shaking(Step(n, e), id)
  {
    assert e in [e];
    if e.DeliverToServer? && e.k < |n.toServer| {
      ToServerShaking(n, id, e);
    } else if e.DeliverToClient? && e.k < |n.toClient| {
      ToClientShaking(n, id, e);
    }
  }

  /** However the handshake's frames are delivered, once none is left both endpoints are Authenticated
      under the server's session id. */
  lemma {:induction false} HandshakeSettles(n: Net, id: nat, es: seq<Event>)
    requires Shaking(n, id) && Delivers(es) && Quiet(Run(n, es))
    ensures var n' := Run(n, es);
            && n'.server.state == Authenticated && n'.client.state == Authenticated
            && n'.server.sessionId == n'.client.sessionId == Some(id)
    decreases |es|
  {
    if es != [] {
      assert es[0] in es;
      StepShaking(n, id, es[0]);
      HandshakeSettles(Step(n, es[0]), id, es[1..]);
    }
  }

  lemma HelloStartsShaking(id: nat, now: nat)
    ensures Shaking(Step(Begin(id, now), StartHello), id)
  {
    HelloSends(Begin(id, now).client, now);
  }

  /** From the client's Hello on: whatever the order and number of deliveries, an exchange that has
      run dry leaves both endpoints Authenticated under the server's session id. */
  lemma HandshakeSettlesFromStart(id: nat, now: nat, es: seq<Event>)
    requires Delivers(es) && Quiet(Run(Step(Begin(id, now), StartHello), es))
    ensures var n := Run(Step(Begin(id, now), StartHello), es);
            && n.server.state == Authenticated && n.client.state == Authenticated
            && n.server.sessionId == n.client.sessionId == Some(id)
  {
    HelloStartsShaking(id, now);
    HandshakeSettles(Step(Begin(id, now), StartHello), id, es);
  }

  predicate ByeIn(fs: seq<SessionFrame>) { exists f <- fs :: f.Goodbye? }

  /** Each open endpoint has a Goodbye on its way to it, or to an open peer that will answer it. */
  predicate Closing(n: Net) {
    && (forall f <- n.toServer :: !f.PeerError?) && (forall f <- n.toClient :: !f.PeerError?)
    && (n.server.state != Closed ==> ByeIn(n.toServer) || (n.client.state != Closed && ByeIn(n.toClient)))
    && (n.client.state != Closed ==> ByeIn(n.toClient) || (n.server.state != Closed && ByeIn(n.toServer)))
  }

  lemma ByeElsewhere(fs: seq<SessionFrame>, k: nat)
    requires k < |fs| && ByeIn(fs) && !fs[k].Goodbye?
    ensures ByeIn(Without(fs, k))
  {
    var f :| f in fs && f.Goodbye?;
    WithoutKeeps(fs, k, f);
  }

  lemma ByeStays(fs: seq<SessionFrame>, more: seq<SessionFrame>)
    ensures ByeIn(fs + more) <==> ByeIn(fs) || ByeIn(more)
  {
  }

  /** A frame other than an error closes the endpoint exactly if it is a Goodbye, which an open
      endpoint answers with one of its own; a closed endpoint answers nothing. */
  lemma ClosesOnBye(c: Conn, f: SessionFrame, now: nat)
    requires !f.PeerError?
    ensures var (c', r) := Handled(c, f, now);
            && (c'.state == Closed <==> c.state == Closed || f.Goodbye?)
            && (ByeIn(SentIfOk(r)) <==> f.Goodbye? && c.state != Closed)
            && (forall g <- SentIfOk(r) :: !g.PeerError?)
  {
    AnswerOf(c, f, now);
    var r := Handled(c, f, now).1;
    if f.Goodbye? && c.state != Closed {
      SentOne(r.value[0], r.value[1..]);
      assert [r.value[0]] + r.value[1..] == r.value;
      assert SentIfOk(r) == [Goodbye("ack")] && Goodbye("ack") in SentIfOk(r);
    }
  }

  lemma StepClosing(n: Net, e: Event)
    requires Closing(n) && Delivers([e])
    ensures Closing(Step(n, e))
  {
    assert e in [e];
    if e.DeliverToServer? && e.k < |n.toServer| {
      var f := n.toServer[e.k];
      assert f in n.toServer;
      ClosesOnBye(n.server, f, n.now);
      ByeStays(n.toClient, SentIfOk(Handled(n.server, f, n.now).1));
      if ByeIn(n.toServer) && !f.Goodbye? { ByeElsewhere(n.toServer, e.k); }
    } else if e.DeliverToClient? && e.k < |n.toClient| {
      var f := n.toClient[e.k];
      assert f in n.toClient;
      ClosesOnBye(n.client, f, n.now);
      ByeStays(n.toServer, SentIfOk(Handled(n.client, f, n.now).1));
      if ByeIn(n.toClient) && !f.Goodbye? { ByeElsewhere(n.toClient, e.k); }
    }
  }

  /** One Goodbye between two open endpoints closes both: however frames are delivered, once none is
      left neither endpoint is open. */
  lemma {:induction false} GoodbyeClosesBoth(n: Net, es: seq<Event>)
    requires Closing(n) && Delivers(es) && Quiet(Run(n, es))
    ensures Run(n, es).server.state == Closed && Run(n, es).client.state == Closed
    decreases |es|
  {
    if es != [] {
      assert es[0] in es;
      StepClosing(n, es[0]);
      GoodbyeClosesBoth(Step(n, es[0]), es[1..]);
    }
  }

  function GoodbyeTo(reason: string, server: bool): Event {
    if server then InjectToServer(Goodbye(reason)) else InjectToClient(Goodbye(reason))
  }

  /** In particular one sent between two open endpoints, in either direction, whatever else is in
      flight but errors. */
  lemma GoodbyeSentClosesBoth(n: Net, reason: string, server: bool, es: seq<Event>)
    requires n.server.state != Closed && n.client.state != Closed && Delivers(es)
    requires (forall f <- n.toServer :: !f.PeerError?) && (forall f <- n.toClient :: !f.PeerError?)
    requires Quiet(Run(Step(n, GoodbyeTo(reason, server)), es))
    ensures var n' := Run(Step(n, GoodbyeTo(reason, server)), es);
            n'.server.state == Closed && n'.client.state == Closed
  {
    var n1 := Step(n, GoodbyeTo(reason, server));
    assert Goodbye(reason) in (if server then n1.toServer else n1.toClient);
    GoodbyeClosesBoth(n1, es);
  }
}
