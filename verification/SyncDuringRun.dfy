/** Ingress to sync: a client that pages a room while the server runs gets exactly the log. */
module SyncDuringRun {
  import opened Bytes
  import opened Frames
  import opened Validator
  import opened Storage
  import opened RoomManager
  import opened Pipeline
  import opened Provenance
  import opened Records
  import opened Sync

  lemma {:induction false} RunSplits(ed: Ed25519, s: Server, es: seq<Event>, k: nat)
    requires k <= |es|
    ensures Run(ed, s, es) == Run(ed, Run(ed, s, es[..k]), es[k..])
    decreases |es|
  {
    if k == 0 {
      assert es[..0] == [] && es[0..] == es;
    } else {
      RunSplits(ed, Step(ed, s, es[0]), es[1..], k - 1);
      assert es[..k][1..] == es[1..][..k - 1] && es[1..][k - 1..] == es[k..];
    }
  }

  /** Any reachable state, new sequencers included, can serve any room with a stored frame: the room
      exists, no stored frame fails to encode, and entries carry their own index. */
  lemma ReachableIsServable(ed: Ed25519, mls: map<nat, MlsGroupState>, es: seq<Event>, room: nat)
    requires OffTheWire(es)
    requires LogOf(Run(ed, Start(mls), es), room) != []
    ensures var s := Run(ed, Start(mls), es); Servable(s.manager, s.store, room)
  {
    var s := Run(ed, Start(mls), es);
    EntriesCarryTheirPlace(ed, mls, es, room);
    StoredFramesWereAccepted(ed, mls, es, room);
    forall f | f in LogOf(s, room) ensures WireValid(f) { StoredFramesTravel(ed, mls, es, room, f); }
    RunKeepsChecked(ed, Start(mls), es);
    assert RoomChecked(ed, s, room);
    StoredFramesWereChecked(ed, mls, es, room, LogOf(s, room)[0]);
  }

  /** The state after the first `cut` events. */
  function ServingAt(ed: Ed25519, mls: map<nat, MlsGroupState>, es: seq<Event>, cut: nat): Serving
    requires cut <= |es|
  {
    var s := Run(ed, Start(mls), es[..cut]);
    Serving(s.manager, s.store)
  }

  /** Moments of a run, in order. */
  predicate Moments(es: seq<Event>, cuts: seq<nat>) {
    && cuts != []
    && (forall i :: 0 <= i < |cuts| ==> cuts[i] <= |es|)
    && (forall i, j :: 0 <= i <= j < |cuts| ==> cuts[i] <= cuts[j])
  }

  function ServingsAt(ed: Ed25519, mls: map<nat, MlsGroupState>, es: seq<Event>, cuts: seq<nat>): (vs: seq<Serving>)
    requires Moments(es, cuts)
    ensures |vs| == |cuts| && forall k :: 0 <= k < |cuts| ==> vs[k] == ServingAt(ed, mls, es, cuts[k])
  {
    seq(|cuts|, k requires 0 <= k < |cuts| => ServingAt(ed, mls, es, cuts[k]))
  }

  lemma LogGrowsBetween(ed: Ed25519, mls: map<nat, MlsGroupState>, es: seq<Event>, a: nat, b: nat, room: nat)
    requires a <= b <= |es|
    ensures Log(ServingAt(ed, mls, es, a).store, room) <= Log(ServingAt(ed, mls, es, b).store, room)
  {
    RunSplits(ed, Start(mls), es[..b], a);
    assert es[..b][..a] == es[..a];
    AppendOnly(ed, Run(ed, Start(mls), es[..a]), es[..b][a..], room);
  }

  /** Along any run fed off the wire, with stores failing, batches interleaving and sequencers
      restarting between the pages, the states at successive moments can serve a paging client. */
  lemma RunIsGrowing(ed: Ed25519, mls: map<nat, MlsGroupState>, es: seq<Event>, cuts: seq<nat>, room: nat)
    requires OffTheWire(es)
    requires Moments(es, cuts)
    requires Log(ServingAt(ed, mls, es, cuts[0]).store, room) != []
    ensures Growing(ServingsAt(ed, mls, es, cuts), room)
  {
    var vs := ServingsAt(ed, mls, es, cuts);
    forall i, j | 0 <= i <= j < |vs| ensures Log(vs[i].store, room) <= Log(vs[j].store, room) {
      LogGrowsBetween(ed, mls, es, cuts[i], cuts[j], room);
    }
    forall k | 0 <= k < |vs| ensures Servable(vs[k].manager, vs[k].store, room) {
      assert Log(vs[0].store, room) <= Log(vs[k].store, room);
      ReachableIsServable(ed, mls, es[..cuts[k]], room);
    }
  }

  /** A client pages room `room` while the server runs through `es`, page `k` being served after the
      first `cuts[k]` events. It ends with exactly the frames the log held from `start` on. */
  method SyncWhileRunning(ed: Ed25519, mls: map<nat, MlsGroupState>, es: seq<Event>, cuts: seq<nat>,
                          room: nat, start: u64, limit: u64) returns (got: seq<Frame>, served: nat)
    requires OffTheWire(es)
    requires Moments(es, cuts)
    requires Log(ServingAt(ed, mls, es, cuts[0]).store, room) != []
    requires 0 < limit && start + limit <= U64_MAX
    requires |Log(ServingAt(ed, mls, es, cuts[|cuts| - 1]).store, room)| + limit <= U64_MAX
    ensures served < |cuts|
    ensures got == Suffix(LogOf(Run(ed, Start(mls), es[..cuts[served]]), room), start)
  {
    RunIsGrowing(ed, mls, es, cuts, room);
    got, served := SyncAll(ServingsAt(ed, mls, es, cuts), room, start, limit);
  }
}
