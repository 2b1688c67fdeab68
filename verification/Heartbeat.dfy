/** Heartbeats against the idle timeout, on one connection with a clock that never goes back. */
module Heartbeat {
  import opened Wrappers
  import opened Connections

  /** `pings` is history: when the connection sent its pings. */
  datatype Timed = Timed(conn: Conn, now: nat, lastTick: nat, pings: seq<nat>)

  datatype Event = FrameAt(frame: SessionFrame, at: nat) | TickAt(at: nat)

  function Step(cfg: Config, t: Timed, e: Event): Timed {
    match e
    case FrameAt(f, at) => t.(conn := Handled(t.conn, f, at).0, now := at)
    case TickAt(at) =>
      var (c, actions) := Ticked(cfg, t.conn, at);
      Timed(c, at, at, if actions == [SendFrame(Ping)] then t.pings + [at] else t.pings)
  }

  function Run(cfg: Config, t: Timed, es: seq<Event>): Timed
    decreases |es|
  {
    if es == [] then t else Run(cfg, Step(cfg, t, es[0]), es[1..])
  }

  /** Time does not go back, and no tick comes more than `d` after the one before. */
  predicate Timely(cfg: Config, d: nat, t: Timed, es: seq<Event>)
    decreases |es|
  {
    es != [] ==>
      && t.now <= es[0].at
      && (es[0].TickAt? ==> es[0].at <= t.lastTick + d)
      && Timely(cfg, d, Step(cfg, t, es[0]), es[1..])
  }

  /** No tick of the run closes an Authenticated connection. */
  predicate NeverIdleClosed(cfg: Config, t: Timed, es: seq<Event>)
    decreases |es|
  {
    es != [] ==>
      && (es[0].TickAt? && t.conn.state == Authenticated ==> Step(cfg, t, es[0]).conn.state == Authenticated)
      && NeverIdleClosed(cfg, Step(cfg, t, es[0]), es[1..])
  }

  /** Any two pings are at least a heartbeat interval apart. */
  predicate Spaced(cfg: Config, pings: seq<nat>) {
    forall i, j :: 0 <= i < j < |pings| ==> pings[i] + cfg.heartbeatInterval <= pings[j]
  }

  /** What every run keeps. A heartbeat is the last ping, so activity is never older than it; an
      Authenticated connection without one has not been ticked since it authenticated; and the last
      tick came less than an interval after the last ping, or was that ping. */
  predicate Regular(cfg: Config, t: Timed) {
    && t.conn.lastActivity <= t.now && t.lastTick <= t.now
    && (match t.conn.lastHeartbeat
        case None => t.pings == [] && (t.conn.state == Authenticated ==> t.lastTick <= t.conn.lastActivity)
        case Some(h) =>
          && t.pings != [] && t.pings[|t.pings| - 1] == h
          && h <= t.conn.lastActivity && h <= t.lastTick
          && t.conn.state !in {Init, Pending}
          && (t.conn.state == Authenticated ==> t.lastTick == h || t.lastTick - h < cfg.heartbeatInterval))
    && Spaced(cfg, t.pings)
  }

  lemma StepRegular(cfg: Config, t: Timed, e: Event)
    requires Regular(cfg, t) && t.now <= e.at
    ensures Regular(cfg, Step(cfg, t, e))
  {
    if e.TickAt? {
      var t' := Step(cfg, t, e);
      if t'.pings != t.pings && t.pings != [] {
        var h := t.pings[|t.pings| - 1];
        assert h + cfg.heartbeatInterval <= e.at;
        forall i | 0 <= i < |t.pings| ensures t.pings[i] <= h {}
      }
    }
  }

  predicate Forward(cfg: Config, t: Timed, es: seq<Event>)
    decreases |es|
  {
    es != [] ==> t.now <= es[0].at && Forward(cfg, Step(cfg, t, es[0]), es[1..])
  }

  lemma {:induction false} RunRegular(cfg: Config, t: Timed, es: seq<Event>)
    requires Regular(cfg, t) && Forward(cfg, t, es)
    ensures Regular(cfg, Run(cfg, t, es))
    decreases |es|
  {
    if es != [] {
      StepRegular(cfg, t, es[0]);
      RunRegular(cfg, Step(cfg, t, es[0]), es[1..]);
    }
  }

  /** A connection in any state it can be opened in, before it was ever ticked. */
  function Opened(now: nat, state: State, sessionId: Option<nat>): Timed {
    Timed(NewConn(now).(state := state, sessionId := sessionId), now, now, [])
  }

  /** Whatever frames and ticks a connection gets, in time order, its pings are at least an interval
      apart; and if it is then Authenticated, a gap longer than the idle timeout with no frame and no
      tick makes the next tick close it. */
  lemma PingsSpacedAndGapCloses(cfg: Config, now: nat, state: State, sessionId: Option<nat>, es: seq<Event>)
    requires Forward(cfg, Opened(now, state, sessionId), es)
    ensures var t := Run(cfg, Opened(now, state, sessionId), es);
            && Spaced(cfg, t.pings)
            && (t.conn.state == Authenticated ==>
                  forall at: nat | at > t.now + cfg.idleTimeout :: Step(cfg, t, TickAt(at)).conn.state == Closed)
  {
    RunRegular(cfg, Opened(now, state, sessionId), es);
  }

  /** The longest silence a timely tick can meet is one tick short of an interval, plus a tick gap. */
  predicate Enough(cfg: Config, d: nat) {
    d <= cfg.idleTimeout && cfg.heartbeatInterval + d <= cfg.idleTimeout + 1
  }

  /** However silent the peer, no timely run lets a tick close an Authenticated connection. */
  lemma {:induction false} NoIdleClose(cfg: Config, d: nat, t: Timed, es: seq<Event>)
    requires Enough(cfg, d) && Regular(cfg, t) && Timely(cfg, d, t, es)
    ensures NeverIdleClosed(cfg, t, es)
    decreases |es|
  {
    if es != [] {
      StepRegular(cfg, t, es[0]);
      NoIdleClose(cfg, d, Step(cfg, t, es[0]), es[1..]);
    }
  }

  // ---------------------------------------------------------------------------------------------
  // The bound is exact

  /** A connection that has just authenticated, ticked at that very moment. */
  predicate JustAuthenticated(t: Timed) {
    && t.conn.state == Authenticated && t.conn.lastHeartbeat.None? && t.pings == []
    && t.conn.lastActivity == t.now == t.lastTick
  }

  /** Ticks one nanosecond apart, up to just before the next ping is due, then one full gap. */
  function Walk(from: nat, upTo: nat, d: nat): seq<Event>
    requires from <= upTo
    decreases upTo - from
  {
    if from == upTo then [TickAt(upTo + d)] else [TickAt(from + 1)] + Walk(from + 1, upTo, d)
  }

  lemma {:induction false} WalkIsTimely(cfg: Config, d: nat, t: Timed, upTo: nat)
    requires t.now == t.lastTick <= upTo && d > 0
    ensures Timely(cfg, d, t, Walk(t.now, upTo, d))
    decreases upTo - t.now
  {
    var es := Walk(t.now, upTo, d);
    if t.now == upTo {
      assert es[1..] == [];
    } else {
      assert es[1..] == Walk(t.now + 1, upTo, d);
      WalkIsTimely(cfg, d, Step(cfg, t, es[0]), upTo);
    }
  }

  lemma {:induction false} WalkCloses(cfg: Config, d: nat, t: Timed, h: nat, upTo: nat)
    requires t.conn.state == Authenticated && t.conn.lastHeartbeat == Some(h) && t.conn.lastActivity == h
    requires h <= t.now == t.lastTick <= upTo && d > 0
    requires upTo < h + cfg.heartbeatInterval && upTo + d > h + cfg.idleTimeout
    ensures Timely(cfg, d, t, Walk(t.now, upTo, d))
    ensures !NeverIdleClosed(cfg, t, Walk(t.now, upTo, d))
    decreases upTo - t.now
  {
    var es := Walk(t.now, upTo, d);
    if t.now == upTo {
      assert es[1..] == [];
      assert Since(upTo + d, h) > cfg.idleTimeout;
    } else {
      var t' := Step(cfg, t, es[0]);
      assert es[1..] == Walk(t.now + 1, upTo, d);
      if t'.conn.state == Authenticated {
        WalkCloses(cfg, d, t', h, upTo);
      } else {
        WalkIsTimely(cfg, d, t', upTo);
      }
    }
  }

  /** A timely run that closes, when the bound does not hold. */
  lemma ClosingRun(cfg: Config, d: nat, t: Timed) returns (es: seq<Event>)
    requires JustAuthenticated(t) && d > 0 && !Enough(cfg, d)
    ensures Timely(cfg, d, t, es) && !NeverIdleClosed(cfg, t, es)
  {
    if d > cfg.idleTimeout {
      es := [TickAt(t.now + d)];
      assert es[1..] == [];
    } else {
      var upTo := t.now + cfg.heartbeatInterval - 1;
      es := [TickAt(t.now)] + Walk(t.now, upTo, d);
      assert es[1..] == Walk(t.now, upTo, d);
      WalkCloses(cfg, d, Step(cfg, t, es[0]), t.now, upTo);
    }
  }

  /** From authentication on, ticks at most `d` apart can never idle-close the connection exactly
      when `d` is within the idle timeout and interval plus gap exceeds it by at most one
      nanosecond. */
  lemma NoIdleCloseIff(cfg: Config, d: nat, t: Timed)
    requires JustAuthenticated(t) && d > 0
    ensures Enough(cfg, d) <==> forall es | Timely(cfg, d, t, es) :: NeverIdleClosed(cfg, t, es)
  {
    if Enough(cfg, d) {
      forall es | Timely(cfg, d, t, es) ensures NeverIdleClosed(cfg, t, es) {
        NoIdleClose(cfg, d, t, es);
      }
    } else {
      var _ := ClosingRun(cfg, d, t);
    }
  }

  // ---------------------------------------------------------------------------------------------
  // Timeouts tick by tick

  /** A tick closes a Pending connection exactly when its last activity is longer ago than the handshake
      timeout, an Authenticated one exactly when longer than the idle timeout, each with the reason and
      the time that went by; it closes no other. */
  lemma TickClosesIff(cfg: Config, c: Conn, now: nat)
    requires c.state != Closed && c.lastActivity <= now
    ensures var (c', actions) := Ticked(cfg, c, now);
            var elapsed := now - c.lastActivity;
            && (c'.state == Closed <==> (c.state == Pending && elapsed > cfg.handshakeTimeout)
                                        || (c.state == Authenticated && elapsed > cfg.idleTimeout))
            && (c'.state == Closed && c.state == Pending ==> actions == [Close(HandshakeTimeout(elapsed))])
            && (c'.state == Closed && c.state == Authenticated ==> actions == [Close(IdleTimeout(elapsed))])
            && (c'.state != Closed && c.state != Authenticated ==> c' == c && actions == [])
  {
  }

  predicate TicksOnly(es: seq<Event>) { forall e <- es :: e.TickAt? }

  lemma LateLater(es: seq<Event>, limit: nat)
    requires es != [] && es[0].at <= limit
    ensures (exists e <- es :: e.at > limit) <==> (exists e <- es[1..] :: e.at > limit)
  {
    assert es == [es[0]] + es[1..];
  }

  lemma {:induction false} TicksLeaveAlone(cfg: Config, t: Timed, es: seq<Event>)
    requires t.conn.state in {Init, Closed} && TicksOnly(es)
    ensures Run(cfg, t, es).conn == t.conn
    decreases |es|
  {
    if es != [] {
      assert es[0] in es && es[0].TickAt?;
      TicksLeaveAlone(cfg, Step(cfg, t, es[0]), es[1..]);
    }
  }

  lemma {:induction false} SilentPendingIff(cfg: Config, t: Timed, es: seq<Event>)
    requires t.conn.state == Pending && TicksOnly(es)
    ensures var t' := Run(cfg, t, es);
            var late := exists e <- es :: e.at > t.conn.lastActivity + cfg.handshakeTimeout;
            t'.conn == if late then t.conn.(state := Closed) else t.conn
    decreases |es|
  {
    if es != [] {
      assert es[0] in es && es[0].TickAt?;
      if es[0].at > t.conn.lastActivity + cfg.handshakeTimeout {
        TicksLeaveAlone(cfg, Step(cfg, t, es[0]), es[1..]);
      } else {
        SilentPendingIff(cfg, Step(cfg, t, es[0]), es[1..]);
        LateLater(es, t.conn.lastActivity + cfg.handshakeTimeout);
      }
    }
  }

  /** A client that sent its Hello at `sent` and hears nothing is Pending through every tick up to the
      handshake timeout and closed by the first one after it; a connection that sent none is never closed
      by a tick. */
  lemma SilentHandshakeTimesOut(cfg: Config, born: nat, sent: nat, es: seq<Event>)
    requires TicksOnly(es)
    ensures var silent := Timed(NewConn(born), born, born, []);
            Run(cfg, silent, es).conn.state == Init
    ensures var greeted := Timed(HelloSent(NewConn(born), sent).0, sent, sent, []);
            Run(cfg, greeted, es).conn.state
            == if exists e <- es :: e.at > sent + cfg.handshakeTimeout then Closed else Pending
  {
    TicksLeaveAlone(cfg, Timed(NewConn(born), born, born, []), es);
    SilentPendingIff(cfg, Timed(HelloSent(NewConn(born), sent).0, sent, sent, []), es);
  }

  /** Any frame that leaves a connection Authenticated, accepted or not, keeps ticks from closing it for an
      idle timeout; and every Ping to an Authenticated endpoint gets one Pong. */
  lemma FrameRenewsActivity(cfg: Config, c: Conn, f: SessionFrame, now: nat, at: nat)
    requires c.state == Authenticated && now <= at <= now + cfg.idleTimeout
    ensures var c' := Handled(c, f, now).0;
            c'.state == Authenticated ==> Ticked(cfg, c', at).0.state == Authenticated
    ensures f == Ping ==> Handled(c, f, now).1 == Ok([SendFrame(Pong)]) && Handled(c, f, now).0.state == Authenticated
    ensures f == Pong ==> Handled(c, f, now).1 == Ok([]) && Handled(c, f, now).0.state == Authenticated
  {
  }
}
