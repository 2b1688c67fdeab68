/** Two endpoints over a network that loses, duplicates and reorders. */
module Handshake {
  import opened Wrappers
  import opened Connections

  /** Frames in flight each way, in no particular order. `authed` is history: the server has been
      Authenticated. */
  datatype Net = Net(client: Conn, server: Conn, toServer: seq<SessionFrame>, toClient: seq<SessionFrame>,
                     now: nat, authed: bool)

  datatype Event =
    | StartHello
    | DeliverToServer(k: nat, keep: bool)
    | DeliverToClient(k: nat, keep: bool)
    | DropToServer(k: nat)
    | DropToClient(k: nat)
    | TickClient(config: Config)
    | TickServer(config: Config)
    | CloseClient
    | CloseServer
    | InjectToServer(frame: SessionFrame)
    | InjectToClient(frame: SessionFrame)
    | Wait(delay: nat)

  /** The server's session id is set before any Hello, as the driver does on accept. */
  function Begin(id: nat, now: nat): Net {
    Net(NewConn(now), NewConn(now).(sessionId := Some(id)), [], [], now, false)
  }

  function Sent(actions: seq<Action>): seq<SessionFrame> {
    if actions == [] then []
    else (if actions[0].SendFrame? then [actions[0].frame] else []) + Sent(actions[1..])
  }

  function SentIfOk(r: Result<seq<Action>, ConnectionError>): seq<SessionFrame> {
    if r.Ok? then Sent(r.value) else []
  }

  function Without<T>(s: seq<T>, k: nat): seq<T>
    requires k < |s|
  {
    s[..k] + s[k + 1..]
  }

  function Step(n: Net, e: Event): Net {
    match e
    case StartHello =>
      var (c, r) := HelloSent(n.client, n.now);
      n.(client := c, toServer := n.toServer + SentIfOk(r))
    case DeliverToServer(k, keep) =>
      if k >= |n.toServer| then n
      else
        var (c, r) := Handled(n.server, n.toServer[k], n.now);
        n.(server := c, toServer := if keep then n.toServer else Without(n.toServer, k),
           toClient := n.toClient + SentIfOk(r), authed := n.authed || c.state == Authenticated)
    case DeliverToClient(k, keep) =>
      if k >= |n.toClient| then n
      else
        var (c, r) := Handled(n.client, n.toClient[k], n.now);
        n.(client := c, toClient := if keep then n.toClient else Without(n.toClient, k),
           toServer := n.toServer + SentIfOk(r))
    case DropToServer(k) => if k >= |n.toServer| then n else n.(toServer := Without(n.toServer, k))
    case DropToClient(k) => if k >= |n.toClient| then n else n.(toClient := Without(n.toClient, k))
    case TickClient(config) =>
      var (c, actions) := Ticked(config, n.client, n.now);
      n.(client := c, toServer := n.toServer + Sent(actions))
    case TickServer(config) =>
      var (c, actions) := Ticked(config, n.server, n.now);
      n.(server := c, toClient := n.toClient + Sent(actions))
    case CloseClient => n.(client := n.client.(state := Closed))
    case CloseServer => n.(server := n.server.(state := Closed))
    case InjectToServer(f) => n.(toServer := n.toServer + [f])
    case InjectToClient(f) => n.(toClient := n.toClient + [f])
    case Wait(delay) => n.(now := n.now + delay)
  }

  function Run(n: Net, es: seq<Event>): Net
    decreases |es|
  {
    if es == [] then n else Run(Step(n, es[0]), es[1..])
  }

  /** The application may send any frame but the handshake ones, which only the endpoints make. */
  predicate Honest(es: seq<Event>) {
    forall e <- es :: e.InjectToServer? || e.InjectToClient? ==> !e.frame.Hello? && !e.frame.HelloReply?
  }

  function Rank(s: State): nat {
    match s case Init => 0 case Pending => 1 case Authenticated => 2 case Closed => 3
  }

  ghost predicate Agreed(n: Net, id: nat) {
    && n.server.sessionId == Some(id)
    && (n.server.state == Authenticated ==> n.authed)
    && n.server.state != Pending
    && (n.authed ==> n.client.state != Init)
    && (n.client.state == Authenticated ==> n.authed && n.client.sessionId == Some(id))
    && (n.client.sessionId.Some? ==> n.client.sessionId == Some(id))
    && (forall f <- n.toServer :: !f.HelloReply? && (f.Hello? ==> n.client.state != Init))
    && (forall f <- n.toClient :: !f.Hello? && (f.HelloReply? ==> f.sessionId == id && n.authed))
  }

  lemma SentOne(a: Action, rest: seq<Action>)
    ensures Sent([]) == []
    ensures Sent([a]) == if a.SendFrame? then [a.frame] else []
    ensures rest != [] && !rest[0].SendFrame? && |rest| == 1 ==> Sent([a] + rest) == Sent([a])
  {
    assert [a][1..] == [];
    assert ([a] + rest)[1..] == rest;
    if |rest| == 1 { assert rest[1..] == []; }
  }

  /** What an endpoint answers to a frame: at most one frame, and a HelloReply only as a server that
      authenticates at that moment, with the id it was given. */
  lemma AnswerOf(c: Conn, f: SessionFrame, now: nat)
    ensures var (c', r) := Handled(c, f, now);
            var out := SentIfOk(r);
            && Rank(c'.state) >= Rank(c.state)
            && (out == [] || (out == [HelloReply(if c.sessionId.Some? then c.sessionId.value else 0)]
                              && f.Hello? && c.state == Init
                              && c'.state == Authenticated && c'.sessionId == c.sessionId)
                || (out == [Pong] && f.Ping? && c'.state == c.state)
                || (out == [Goodbye("ack")] && f.Goodbye? && c.state != Closed && c'.state == Closed))
  {
    var r := Handled(c, f, now).1;
    if r.Ok? && r.value != [] {
      SentOne(r.value[0], r.value[1..]);
      assert [r.value[0]] + r.value[1..] == r.value;
    }
  }

  lemma TickSends(config: Config, c: Conn, now: nat)
    ensures var (c', actions) := Ticked(config, c, now);
            && Rank(c'.state) >= Rank(c.state) && c'.sessionId == c.sessionId
            && (Sent(actions) == [] || Sent(actions) == [Ping])
            && (c'.state == c.state || c'.state == Closed)
  {
    var actions := Ticked(config, c, now).1;
    if actions != [] {
      SentOne(actions[0], []);
      assert [actions[0]] == actions;
    }
  }

  lemma HelloSends(c: Conn, now: nat)
    ensures var (c', r) := HelloSent(c, now);
            && Rank(c'.state) >= Rank(c.state) && c'.sessionId == c.sessionId
            && ((c' == c && SentIfOk(r) == []) || (c.state == Init && c'.state == Pending && SentIfOk(r) == [Hello(1)]))
  {
    SentOne(SendFrame(Hello(1)), []);
  }

  lemma DeliverToServerAgreed(n: Net, id: nat, e: Event)
    requires Agreed(n, id) && e.DeliverToServer?
    ensures Agreed(Step(n, e), id)
  {
    if e.k < |n.toServer| {
      AnswerOf(n.server, n.toServer[e.k], n.now);
      assert n.toServer[e.k] in n.toServer;
    }
  }

  lemma DeliverToClientAgreed(n: Net, id: nat, e: Event)
    requires Agreed(n, id) && e.DeliverToClient?
    ensures Agreed(Step(n, e), id)
  {
    if e.k < |n.toClient| {
      AnswerOf(n.client, n.toClient[e.k], n.now);
      assert n.toClient[e.k] in n.toClient;
    }
  }

  /** Every step keeps the agreement and lowers neither endpoint's rank. */
  lemma StepAgreed(n: Net, id: nat, e: Event)
    requires Agreed(n, id) && Honest([e])
    ensures Agreed(Step(n, e), id)
    ensures Rank(Step(n, e).client.state) >= Rank(n.client.state)
    ensures Rank(Step(n, e).server.state) >= Rank(n.server.state)
  {
    assert e in [e];
    match e {
      case DeliverToServer(k, _) =>
        DeliverToServerAgreed(n, id, e);
        if k < |n.toServer| { AnswerOf(n.server, n.toServer[k], n.now); }
      case DeliverToClient(k, _) =>
        DeliverToClientAgreed(n, id, e);
        if k < |n.toClient| { AnswerOf(n.client, n.toClient[k], n.now); }
      case TickClient(config) => TickSends(config, n.client, n.now);
      case TickServer(config) => TickSends(config, n.server, n.now);
      case StartHello => HelloSends(n.client, n.now);
      case DropToServer(_) =>
      case DropToClient(_) =>
      case CloseClient =>
      case CloseServer =>
      case InjectToServer(_) =>
      case InjectToClient(_) =>
      case Wait(_) =>
    }
  }

  /** In every reachable state an Authenticated client holds the server's session id and the server
      has authenticated; an Authenticated server has a client that left Init. Along the way no
      endpoint's rank ever drops, so Closed is final. */
  lemma {:induction false} HandshakeAgreement(n: Net, id: nat, es: seq<Event>)
    requires Agreed(n, id) && Honest(es)
    ensures var n' := Run(n, es);
            && Agreed(n', id)
            && Rank(n'.client.state) >= Rank(n.client.state) && Rank(n'.server.state) >= Rank(n.server.state)
            && (n.client.state == Closed ==> n'.client.state == Closed)
            && (n.server.state == Closed ==> n'.server.state == Closed)
    decreases |es|
  {
    if es != [] {
      assert es[0] in es;
      StepAgreed(n, id, es[0]);
      HandshakeAgreement(Step(n, es[0]), id, es[1..]);
    }
  }

  lemma AgreementFromStart(id: nat, now: nat, es: seq<Event>)
    requires Honest(es)
    ensures var n := Run(Begin(id, now), es);
            && (n.client.state == Authenticated ==> n.client.sessionId == n.server.sessionId == Some(id) && n.authed)
            && (n.server.state == Authenticated ==> n.client.state != Init)
  {
    HandshakeAgreement(Begin(id, now), id, es);
  }

  // ---------------------------------------------------------------------------------------------
  // Quiescence

  function Weight(f: SessionFrame): nat { if f.Hello? || f.Ping? then 2 else 1 }

  function TotalWeight(fs: seq<SessionFrame>): nat {
    if fs == [] then 0 else Weight(fs[0]) + TotalWeight(fs[1..])
  }

  function Open(c: Conn): nat { if c.state == Closed then 0 else 1 }

  /** What is left to happen: the frames in flight, those that may draw a reply counted twice, and
      the endpoints still open. */
  function Measure(n: Net): nat {
    TotalWeight(n.toServer) + TotalWeight(n.toClient) + Open(n.client) + Open(n.server)
  }

  lemma {:induction false} TotalWeightAppend(a: seq<SessionFrame>, b: seq<SessionFrame>)
    ensures TotalWeight(a + b) == TotalWeight(a) + TotalWeight(b)
  {
    if a == [] {
      assert a + b == b;
    } else {
      TotalWeightAppend(a[1..], b);
      assert (a + b)[1..] == a[1..] + b;
    }
  }

  lemma {:induction false} TotalWeightWithout(fs: seq<SessionFrame>, k: nat)
    requires k < |fs|
    ensures TotalWeight(Without(fs, k)) == TotalWeight(fs) - Weight(fs[k])
  {
    if k == 0 {
      assert Without(fs, k) == fs[1..];
    } else {
      TotalWeightWithout(fs[1..], k - 1);
      assert Without(fs, k)[1..] == Without(fs[1..], k - 1);
    }
  }

  /** An endpoint that takes a frame answers with less than it took, or closes. */
  lemma AnswerIsLighter(c: Conn, f: SessionFrame, now: nat)
    ensures var (c', r) := Handled(c, f, now);
            TotalWeight(SentIfOk(r)) + Open(c') < Weight(f) + Open(c)
  {
    AnswerOf(c, f, now);
    var out := SentIfOk(Handled(c, f, now).1);
    if out != [] { assert out[1..] == []; }
  }

  /** Taking a frame out of the network, without keeping a copy. */
  predicate Takes(n: Net, e: Event) {
    || (e.DeliverToServer? && !e.keep && e.k < |n.toServer|)
    || (e.DeliverToClient? && !e.keep && e.k < |n.toClient|)
    || (e.DropToServer? && e.k < |n.toServer|)
    || (e.DropToClient? && e.k < |n.toClient|)
  }

  predicate AllTake(n: Net, es: seq<Event>)
    decreases |es|
  {
    es != [] ==> Takes(n, es[0]) && AllTake(Step(n, es[0]), es[1..])
  }

  lemma TakingLowersMeasure(n: Net, e: Event)
    requires Takes(n, e)
    ensures Measure(Step(n, e)) < Measure(n)
  {
    if e.DeliverToServer? || e.DropToServer? {
      TotalWeightWithout(n.toServer, e.k);
    } else {
      TotalWeightWithout(n.toClient, e.k);
    }
    if e.DeliverToServer? {
      AnswerIsLighter(n.server, n.toServer[e.k], n.now);
      TotalWeightAppend(n.toClient, SentIfOk(Handled(n.server, n.toServer[e.k], n.now).1));
    } else if e.DeliverToClient? {
      AnswerIsLighter(n.client, n.toClient[e.k], n.now);
      TotalWeightAppend(n.toServer, SentIfOk(Handled(n.client, n.toClient[e.k], n.now).1));
    }
  }

  /** With no ticks and no duplication the exchange quiesces: from any state, however the frames in
      flight are delivered or lost, there are at most as many deliveries as the measure says, so
      replies to Ping and Goodbye cannot go back and forth for ever. */
  lemma {:induction false} ExchangeQuiesces(n: Net, es: seq<Event>)
    requires AllTake(n, es)
    ensures |es| + Measure(Run(n, es)) <= Measure(n)
    decreases |es|
  {
    if es != [] {
      TakingLowersMeasure(n, es[0]);
      ExchangeQuiesces(Step(n, es[0]), es[1..]);
    }
  }
}
