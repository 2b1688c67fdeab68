/** Whose membership a frame is checked against: that of the stored MLS state, which may be older than
    the group the frame's epoch is checked against. */
module Rosters {
  import opened Wrappers
  import opened Bytes
  import H = Header
  import opened Frames
  import opened Validator
  import opened Storage
  import S = Sequencer
  import opened RoomManager
  import opened Pipeline
  import opened Scenarios
  import opened MlsEpochs

  // ---------------------------------------------------------------------------------------------
  // Who gets in

  /** A sender who is not of the group but passes for a member: the stored state lists it with a usable
      key, or nothing is stored and the group is still at epoch 0. */
  predicate Passes(ed: Ed25519, s: Server, room: nat, id: nat) {
    && id !in MembersOf(s.manager, room)
    && (if room in s.store.mls
        then id in s.store.mls[room].members && MemberKey(ed, s.store.mls[room], id).Some?
        else EpochOf(s.manager, room) == 0)
  }

  /** The room can take a frame at all. */
  predicate Usable(s: Server, room: nat) {
    && room in s.manager.groups && 0 < room < Pow256(16)
    && EpochOf(s.manager, room) <= S.MAX_EPOCH && NextOf(s.manager, s.store, room) < U64_MAX
  }

  ghost predicate TakesFrom(ed: Ed25519, s: Server, room: nat, id: nat) {
    exists f, faults, outcome ::
      && RoomId(f) == room && SenderId(f) == id && TakesIndex(ed, s.manager, s.store, f, faults)
      && BatchOf(ed, s, f, faults, outcome).Some?
  }

  lemma FrameFieldsBounded(f: Frame)
    ensures RoomId(f) < Pow256(16) && SenderId(f) <= U64_MAX
  {
    ToBeFromBe(f.header.roomId);
    ToBeFromBe(f.header.senderId);
    Widths();
  }

  lemma PassesAdmitted(ed: Ed25519, s: Server, f: Frame)
    requires Usable(s, RoomId(f)) && Passes(ed, s, RoomId(f), SenderId(f))
    requires Epoch(f) == EpochOf(s.manager, RoomId(f)) && Opcode(f) == H.PROPOSAL && S.ValidateStructure(f).Ok?
    ensures TakesIndex(ed, s.manager, s.store, f, NO_FAULTS) && !FailsLate(ed, s.store, f, Refused)
  {
    assert Admit(ed, s.manager, s.store, f, NO_FAULTS).Ok?;
  }

  lemma ProposalGetsIn(ed: Ed25519, s: Server, room: nat, id: u64)
    requires Usable(s, room) && Passes(ed, s, room, id)
    ensures TakesFrom(ed, s, room, id)
  {
    var f := FrameOf(room, id, H.PROPOSAL, EpochOf(s.manager, room));
    FrameOfFields(room, id, H.PROPOSAL, EpochOf(s.manager, room));
    PassesAdmitted(ed, s, f);
    ProcessWithIndex(ed, s.manager, s.store, f, NO_FAULTS, Refused);
    assert BatchOf(ed, s, f, NO_FAULTS, Refused).Some?;
  }

  lemma TakenRoomIsUsable(ed: Ed25519, s: Server, f: Frame, faults: Faults)
    requires TakesIndex(ed, s.manager, s.store, f, faults)
    ensures Usable(s, RoomId(f))
  {
    FrameFieldsBounded(f);
  }

  lemma TakenSenderPasses(ed: Ed25519, s: Server, f: Frame, faults: Faults)
    requires TakesIndex(ed, s.manager, s.store, f, faults) && SenderId(f) !in MembersOf(s.manager, RoomId(f))
    ensures Passes(ed, s, RoomId(f), SenderId(f))
  {
  }

  /** "A frame from a non-member must be rejected" fails of exactly the senders that pass for members,
      in a room that takes frames: for each there is a frame that is given an index and accepted. */
  lemma NonMemberAcceptedIff(ed: Ed25519, s: Server, room: nat, id: u64)
    requires id !in MembersOf(s.manager, room)
    ensures TakesFrom(ed, s, room, id) <==> Usable(s, room) && Passes(ed, s, room, id)
  {
    if TakesFrom(ed, s, room, id) {
      var f, faults, outcome :|
        && RoomId(f) == room && SenderId(f) == id && TakesIndex(ed, s.manager, s.store, f, faults)
        && BatchOf(ed, s, f, faults, outcome).Some?;
      TakenRoomIsUsable(ed, s, f, faults);
      TakenSenderPasses(ed, s, f, faults);
    } else if Usable(s, room) && Passes(ed, s, room, id) {
      ProposalGetsIn(ed, s, room, id);
    }
  }

  // ---------------------------------------------------------------------------------------------
  // What the stored state says of the group

  function RosterIn(st: MlsGroupState): Roster { Roster(st.members, st.memberKeys) }

  /** Not ahead of the group, and with the group's roster if of its epoch. */
  predicate Current(st: MlsGroupState, m: Manager, room: nat) {
    st.epoch <= EpochOf(m, room) && (st.epoch == EpochOf(m, room) ==> RosterIn(st) == RosterOf(m, room))
  }

  predicate ActionCurrent(a: RoomAction, m: Manager, room: nat) {
    a.PersistMlsState? && a.roomId == room ==> room in m.groups && Current(a.state, m, room)
  }

  predicate BatchCurrent(batch: Batch, m: Manager, room: nat) { forall a <- batch :: ActionCurrent(a, m, room) }

  predicate StoreCurrent(st: Store, m: Manager, room: nat) {
    room in st.mls ==> if room in m.groups then Current(st.mls[room], m, room) else st.mls[room].epoch == 0
  }

  predicate RoomCurrent(s: Server, room: nat) {
    StoreCurrent(s.store, s.manager, room) && forall batch <- s.outstanding :: BatchCurrent(batch, s.manager, room)
  }

  lemma {:induction false} ExecutedStaysCurrent(st: Store, batch: Batch, fails: seq<bool>, m: Manager, room: nat)
    requires StoreCurrent(st, m, room) && BatchCurrent(batch, m, room)
    ensures StoreCurrent(ExecutedAll(st, batch, fails), m, room)
    decreases |batch|
  {
    if batch != [] && !Stops(batch[0]) {
      assert ActionCurrent(batch[0], m, room);
      var st' := if fails != [] && fails[0] then st else Executed(st, batch[0]);
      ExecutedStaysCurrent(st', batch[1..], if fails == [] then [] else fails[1..], m, room);
    }
  }

  lemma AddedBatchCurrent(ed: Ed25519, s: Server, f: Frame, faults: Faults, outcome: CommitOutcome, batch: Batch,
                          room: nat)
    requires batch in Received(ed, s, f, faults, outcome).outstanding && batch !in s.outstanding
    ensures BatchCurrent(batch, Received(ed, s, f, faults, outcome).manager, room)
  {
    EpochMovesIff(ed, s.manager, s.store, f, faults, outcome);
    if TakesIndex(ed, s.manager, s.store, f, faults) {
      ProcessWithIndex(ed, s.manager, s.store, f, faults, outcome);
    } else {
      NoIndexNoPersist(ed, s.manager, s.store, f, faults, outcome);
    }
  }

  /** A group that moves leaves what is stored and waiting behind it; one that does not keeps its
      roster. */
  lemma ReceivedStaysCurrent(ed: Ed25519, s: Server, f: Frame, faults: Faults, outcome: CommitOutcome, room: nat)
    requires RoomCurrent(s, room)
    ensures RoomCurrent(Received(ed, s, f, faults, outcome), room)
  {
    var s' := Received(ed, s, f, faults, outcome);
    EpochMovesIff(ed, s.manager, s.store, f, faults, outcome);
    assert room != RoomId(f) ==> Get(s'.manager.groups, room) == Get(s.manager.groups, room);
    forall batch | batch in s'.outstanding ensures BatchCurrent(batch, s'.manager, room) {
      if batch in s.outstanding {
        forall a | a in batch ensures ActionCurrent(a, s'.manager, room) { assert ActionCurrent(a, s.manager, room); }
      } else {
        AddedBatchCurrent(ed, s, f, faults, outcome, batch, room);
      }
    }
  }

  /** A room is created over a stored state that lists others than its creator and its key. */
  predicate Misfounds(s: Server, e: Event, room: nat) {
    && e.CreateRoom? && e.room == room && room !in s.manager.creators
    && room in s.store.mls && RosterIn(s.store.mls[room]) != Founded(e.creator, e.key).roster
  }

  lemma OtherStepCurrentIff(ed: Ed25519, s: Server, e: Event, room: nat)
    requires Tidy(s) && RoomCurrent(s, room) && !e.Receive? && !(e.Execute? && e.batch < |s.outstanding|)
    ensures RoomCurrent(Step(ed, s, e), room) <==> !Misfounds(s, e, room)
  {
    var s' := Step(ed, s, e);
    forall batch | batch in s'.outstanding ensures BatchCurrent(batch, s'.manager, room) {
      forall a | a in batch ensures ActionCurrent(a, s'.manager, room) {
        assert BatchCurrent(batch, s.manager, room) && ActionCurrent(a, s.manager, room);
      }
    }
  }

  /** Exactly such a creation takes a stored state of the group's epoch off the group's roster. */
  lemma CurrentKeptIff(ed: Ed25519, s: Server, e: Event, room: nat)
    requires Tidy(s) && RoomCurrent(s, room)
    ensures RoomCurrent(Step(ed, s, e), room) <==> !Misfounds(s, e, room)
  {
    if e.Receive? {
      ReceivedStaysCurrent(ed, s, e.frame, e.faults, e.outcome, room);
    } else if e.Execute? && e.batch < |s.outstanding| {
      assert BatchCurrent(s.outstanding[e.batch], s.manager, room);
      ExecutedStaysCurrent(s.store, s.outstanding[e.batch], e.fails, s.manager, room);
    } else {
      OtherStepCurrentIff(ed, s, e, room);
    }
  }

  predicate WellFounded(ed: Ed25519, s: Server, es: seq<Event>, room: nat)
    decreases |es|
  {
    es != [] ==> !Misfounds(s, es[0], room) && WellFounded(ed, Step(ed, s, es[0]), es[1..], room)
  }

  lemma {:induction false} RunKeepsCurrent(ed: Ed25519, s: Server, es: seq<Event>, room: nat)
    requires Tidy(s) && RoomCurrent(s, room) && WellFounded(ed, s, es, room)
    ensures RoomCurrent(Run(ed, s, es), room)
    decreases |es|
  {
    if es != [] {
      CurrentKeptIff(ed, s, es[0], room);
      StepKeepsTidy(ed, s, es[0]);
      RunKeepsCurrent(ed, Step(ed, s, es[0]), es[1..], room);
    }
  }

  /** The state is the group's own. */
  predicate Own(st: MlsGroupState, m: Manager, room: nat) {
    st.epoch == EpochOf(m, room) && RosterIn(st) == RosterOf(m, room)
  }

  /** In every run from a level start the state a frame is checked against is the group's own, epoch and
      roster, exactly when its epoch is the group's. */
  lemma CheckedAgainstGroupIff(ed: Ed25519, mls: map<nat, MlsGroupState>, es: seq<Event>, room: nat)
    requires StartsLevel(mls, room) && WellFounded(ed, Start(mls), es, room)
    ensures var s := Run(ed, Start(mls), es);
            room in s.manager.groups && room in s.store.mls ==>
              && s.store.mls[room].epoch <= EpochOf(s.manager, room)
              && (Own(s.store.mls[room], s.manager, room) <==> s.store.mls[room].epoch == EpochOf(s.manager, room))
  {
    RunKeepsCurrent(ed, Start(mls), es, room);
  }

  /** In every run that starts level and does not fall behind, once no MLS state of the room waits and one
      is stored, no frame of a non-member is accepted. */
  lemma NonMembersRejected(ed: Ed25519, mls: map<nat, MlsGroupState>, es: seq<Event>, room: nat, id: u64)
    requires StartsLevel(mls, room) && WellFounded(ed, Start(mls), es, room) && NeverBehind(ed, Start(mls), es, room)
    requires var s := Run(ed, Start(mls), es);
             && MlsQueue(s.outstanding, room) == [] && room in s.store.mls
             && id !in MembersOf(s.manager, room)
    ensures !TakesFrom(ed, Run(ed, Start(mls), es), room, id)
  {
    var s := Run(ed, Start(mls), es);
    StoredIsGroupEpoch(ed, mls, es, room);
    RunKeepsCurrent(ed, Start(mls), es, room);
    NonMemberAcceptedIff(ed, s, room, id);
  }

  lemma RemovedMemberGetsIn(s: Server, f: Frame, g: Frame)
    requires Ready(s, 0, 0) && At(f, H.COMMIT, 0) && At(g, H.PROPOSAL, 1)
    ensures var s' := Received(NobodySigns(), s, f, NO_FAULTS, Leaves([9]));
            && MembersOf(s'.manager, 1) == [9]
            && TakesIndex(NobodySigns(), s'.manager, s'.store, g, NO_FAULTS)
            && BatchOf(NobodySigns(), s', g, NO_FAULTS, Refused).Some?
  {
    var _ := CommitAccepted(s, f, 0, 0, [9]);
    var s' := Received(NobodySigns(), s, f, NO_FAULTS, Leaves([9]));
    FrameTakesIndex(s', g, H.PROPOSAL, 1, 1);
    ProcessWithIndex(NobodySigns(), s'.manager, s'.store, g, NO_FAULTS, Refused);
  }

  /** A Commit that leaves only 9 in the group; before its batch runs a frame of 7, at the new epoch, is
      given an index and accepted. */
  lemma NonMemberAcceptedExample()
    ensures var s' := Received(NobodySigns(), FreshRoom(), Sample(H.COMMIT, 0), NO_FAULTS, Leaves([9]));
            && MembersOf(s'.manager, 1) == [9]
            && TakesIndex(NobodySigns(), s'.manager, s'.store, Sample(H.PROPOSAL, 1), NO_FAULTS)
            && BatchOf(NobodySigns(), s', Sample(H.PROPOSAL, 1), NO_FAULTS, Refused).Some?
  {
    FreshRoomIsReady();
    SampleFields(H.COMMIT, 0);
    SampleFields(H.PROPOSAL, 1);
    RemovedMemberGetsIn(FreshRoom(), Sample(H.COMMIT, 0), Sample(H.PROPOSAL, 1));
  }
}
