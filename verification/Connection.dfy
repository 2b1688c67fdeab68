/** The session state machine (crates/lockframe-core/src/connection.rs). */
module Connections {
  import opened Wrappers

  datatype State = Init | Pending | Authenticated | Closed

  /** Frames as the state machine sees them. `Malformed` is a Hello, HelloReply or Goodbye whose
      payload does not decode; `Foreign` is any other opcode, known or not. */
  datatype SessionFrame =
    | Hello(version: nat)
    | HelloReply(sessionId: nat)
    | Goodbye(reason: string)
    | Ping
    | Pong
    | PeerError
    | Malformed(what: SessionKind)
    | Foreign(opcode: nat)

  datatype SessionKind = HelloKind | HelloReplyKind | GoodbyeKind

  datatype ConnectionError =
    | InvalidState(state: State)
    | UnexpectedFrame(state: State)
    | UndecodablePayload
    | UnsupportedVersion(version: nat)
    | SessionIdNotSet

  datatype CloseReason =
    | HandshakeTimeout(elapsed: nat)
    | IdleTimeout(elapsed: nat)
    | PeerGoodbye(reason: string)
    | PeerFailed

  datatype Action = SendFrame(frame: SessionFrame) | Close(reason: CloseReason)

  /** Durations and times in nanoseconds. */
  datatype Config = Config(handshakeTimeout: nat, idleTimeout: nat, heartbeatInterval: nat)

  datatype Conn = Conn(state: State, lastActivity: nat, lastHeartbeat: Option<nat>, sessionId: Option<nat>)

  function NewConn(now: nat): Conn { Conn(Init, now, None, None) }

  /** Subtraction of instants saturates at zero. */
  function Since(now: nat, earlier: nat): nat { if now >= earlier then now - earlier else 0 }

  function HelloSent(c: Conn, now: nat): (Conn, Result<seq<Action>, ConnectionError>) {
    if c.state != Init then (c, Err(InvalidState(c.state)))
    else (c.(state := Pending, lastActivity := now), Ok([SendFrame(Hello(1))]))
  }

  /** Elapsed time since the last activity, if it is beyond the state's timeout. */
  function Timeout(cfg: Config, c: Conn, now: nat): Option<nat> {
    var elapsed := Since(now, c.lastActivity);
    if c.state == Pending && elapsed > cfg.handshakeTimeout then Some(elapsed)
    else if c.state == Authenticated && elapsed > cfg.idleTimeout then Some(elapsed)
    else None
  }

  predicate PingDue(cfg: Config, c: Conn, now: nat) {
    c.lastHeartbeat.None? || Since(now, c.lastHeartbeat.value) >= cfg.heartbeatInterval
  }

  function Ticked(cfg: Config, c: Conn, now: nat): (Conn, seq<Action>) {
    match Timeout(cfg, c, now)
    case Some(elapsed) =>
      (c.(state := Closed), [Close(if c.state == Pending then HandshakeTimeout(elapsed) else IdleTimeout(elapsed))])
    case None =>
      if c.state == Authenticated && PingDue(cfg, c, now)
      then (c.(lastHeartbeat := Some(now), lastActivity := now), [SendFrame(Ping)])
      else (c, [])
  }

  /** `handle_frame`: activity is recorded first, even for a frame that is then refused. */
  function Handled(c: Conn, f: SessionFrame, now: nat): (Conn, Result<seq<Action>, ConnectionError>) {
    var c' := c.(lastActivity := now);
    match f
    case Hello(version) =>
      if c.state != Init then (c', Err(UnexpectedFrame(c.state)))
      else if version != 1 then (c', Err(UnsupportedVersion(version)))
      else if c.sessionId.None? then (c', Err(SessionIdNotSet))
      else (c'.(state := Authenticated), Ok([SendFrame(HelloReply(c.sessionId.value))]))
    case HelloReply(id) =>
      if c.state != Pending then (c', Err(UnexpectedFrame(c.state)))
      else (c'.(state := Authenticated, sessionId := Some(id)), Ok([]))
    case Ping => if c.state == Authenticated then (c', Ok([SendFrame(Pong)])) else (c', Err(UnexpectedFrame(c.state)))
    case Pong => if c.state == Authenticated then (c', Ok([])) else (c', Err(UnexpectedFrame(c.state)))
    case Goodbye(reason) =>
      if c.state == Closed then (c', Err(UnexpectedFrame(c.state)))
      else (c'.(state := Closed), Ok([SendFrame(Goodbye("ack")), Close(PeerGoodbye(reason))]))
    case PeerError => (c'.(state := Closed), Ok([Close(PeerFailed)]))
    case Malformed(what) =>
      (c', Err(if (what == HelloKind && c.state == Init) || (what == HelloReplyKind && c.state == Pending)
                  || (what == GoodbyeKind && c.state != Closed) then UndecodablePayload else UnexpectedFrame(c.state)))
    case Foreign(_) => (c', Err(UnexpectedFrame(c.state)))
  }

  /** A frame is refused exactly in these cases, with this error, and then only activity is recorded: a Hello
      off Init, of another version or before the session id is set; a HelloReply off Pending; a Ping or Pong
      off Authenticated; a Goodbye once Closed; anything undecodable or foreign. */
  lemma RefusedFrame(c: Conn, f: SessionFrame, now: nat)
    ensures var (c', r) := Handled(c, f, now);
            && (r.Err? <==> || (f.Hello? && !(c.state == Init && f.version == 1 && c.sessionId.Some?))
                            || (f.HelloReply? && c.state != Pending)
                            || ((f.Ping? || f.Pong?) && c.state != Authenticated)
                            || (f.Goodbye? && c.state == Closed)
                            || f.Malformed? || f.Foreign?)
            && (r.Err? ==> c' == c.(lastActivity := now))
            && (r.Err? ==>
                  if f.Hello? && c.state == Init && f.version != 1 then r.error == UnsupportedVersion(f.version)
                  else if f.Hello? && c.state == Init then r.error == SessionIdNotSet
                  else if f == Malformed(HelloKind) && c.state == Init then r.error == UndecodablePayload
                  else if f == Malformed(HelloReplyKind) && c.state == Pending then r.error == UndecodablePayload
                  else if f == Malformed(GoodbyeKind) && c.state != Closed then r.error == UndecodablePayload
                  else r.error == UnexpectedFrame(c.state))
  {
  }

  /** A Goodbye and an error both close, with the peer's reason; only the Goodbye is answered. */
  lemma PeerCloses(c: Conn, reason: string, now: nat)
    requires c.state != Closed
    ensures var (c', r) := Handled(c, Goodbye(reason), now);
            c'.state == Closed && r == Ok([SendFrame(Goodbye("ack")), Close(PeerGoodbye(reason))])
    ensures var (c', r) := Handled(c, PeerError, now); c'.state == Closed && r == Ok([Close(PeerFailed)])
  {
  }

  class Connection {
    const config: Config
    var state: State
    var lastActivity: nat
    var lastHeartbeat: Option<nat>
    var sessionId: Option<nat>

    function View(): Conn
      reads this
    {
      Conn(state, lastActivity, lastHeartbeat, sessionId)
    }

    constructor (now: nat, config: Config)
      ensures View() == NewConn(now) && this.config == config
    {
      this.config, state, lastActivity, lastHeartbeat, sessionId := config, Init, now, None, None;
    }

    method SetSessionId(id: nat)
      modifies this
      ensures View() == old(View()).(sessionId := Some(id))
    {
      sessionId := Some(id);
    }

    method SendHello(now: nat) returns (r: Result<seq<Action>, ConnectionError>)
      modifies this
      ensures (View(), r) == HelloSent(old(View()), now)
    {
      if state != Init { return Err(InvalidState(state)); }
      state := Pending;
      lastActivity := now;
      return Ok([SendFrame(Hello(1))]);
    }

    method MarkClosed()
      modifies this
      ensures View() == old(View()).(state := Closed)
    {
      state := Closed;
    }

    method CheckTimeout(now: nat) returns (elapsed: Option<nat>)
      ensures elapsed == Timeout(config, View(), now)
    {
      var since := Since(now, lastActivity);
      match state {
        case Pending => elapsed := if since > config.handshakeTimeout then Some(since) else None;
        case Authenticated => elapsed := if since > config.idleTimeout then Some(since) else None;
        case Init => elapsed := None;
        case Closed => elapsed := None;
      }
    }

    method Tick(now: nat) returns (actions: seq<Action>)
      modifies this
      ensures (View(), actions) == Ticked(config, old(View()), now)
    {
      actions := [];
      var elapsed := CheckTimeout(now);
      if elapsed.Some? {
        var reason := if state == Pending then HandshakeTimeout(elapsed.value) else IdleTimeout(elapsed.value);
        MarkClosed();
        return [Close(reason)];
      }
      if state == Authenticated {
        var due := match lastHeartbeat
          case None => true
          case Some(last) => Since(now, last) >= config.heartbeatInterval;
        if due {
          actions := [SendFrame(Ping)];
          lastHeartbeat := Some(now);
          lastActivity := now;
        }
      }
    }

    method HandleFrame(f: SessionFrame, now: nat) returns (r: Result<seq<Action>, ConnectionError>)
      modifies this
      ensures (View(), r) == Handled(old(View()), f, now)
    {
      lastActivity := now;
      if f.Hello? && state == Init {
        if f.version != 1 { return Err(UnsupportedVersion(f.version)); }
        if sessionId.None? { return Err(SessionIdNotSet); }
        state := Authenticated;
        return Ok([SendFrame(HelloReply(sessionId.value))]);
      } else if f.HelloReply? && state == Pending {
        state := Authenticated;
        sessionId := Some(f.sessionId);
        return Ok([]);
      } else if f.Ping? && state == Authenticated {
        return Ok([SendFrame(Pong)]);
      } else if f.Pong? && state == Authenticated {
        return Ok([]);
      } else if f.Goodbye? && state != Closed {
        state := Closed;
        return Ok([SendFrame(Goodbye("ack")), Close(PeerGoodbye(f.reason))]);
      } else if f.PeerError? {
        state := Closed;
        return Ok([Close(PeerFailed)]);
      } else if f.Malformed? && ((f.what == HelloKind && state == Init)
                                 || (f.what == HelloReplyKind && state == Pending)
                                 || (f.what == GoodbyeKind && state != Closed)) {
        return Err(UndecodablePayload);
      }
      return Err(UnexpectedFrame(state));
    }
  }
}
