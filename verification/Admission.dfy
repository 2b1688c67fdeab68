/** Which frames get in, said field by field: nothing here is stated through the functions that decide. */
module Admission {
  import opened Wrappers
  import opened Bytes
  import H = Header
  import opened Frames
  import opened Validator
  import opened Storage
  import S = Sequencer
  import opened RoomManager
  import opened Pipeline
  import opened MlsEpochs
  import opened Rosters

  /** The opcodes of the protocol, one by one. */
  const OPCODES: set<nat> := {
    0x0001, 0x0002, 0x0003, 0x0004, 0x0005, 0x0006, 0x0007, 0x00FF,
    0x1000, 0x1001, 0x1002, 0x1003, 0x1004, 0x1005, 0x1006, 0x1007,
    0x2000, 0x2001, 0x2002, 0x2003, 0x2004, 0x2005, 0x2006,
    0x3000, 0x3001, 0x3002, 0x3003, 0x3004, 0x3005, 0x3006,
    0x4000, 0x4001, 0x4002, 0x4003, 0x4004,
    0x5000, 0x5001, 0x5002, 0x5003 }

  /** Proposal, Commit, Welcome, and whatever is no opcode at all. */
  predicate Exempt(opcode: nat) { opcode !in OPCODES || opcode in {0x1001, 0x1002, 0x1003} }

  /** The signature is checked of every opcode of the protocol but those three, and of nothing else. */
  lemma NeedsSignatureIff(f: Frame)
    ensures H.KnownOpcode(FromBe(f.header.opcode)) <==> FromBe(f.header.opcode) in OPCODES
    ensures NeedsSignature(f) <==> !Exempt(FromBe(f.header.opcode))
  {
  }

  // ---------------------------------------------------------------------------------------------
  // Signatures

  /** The routing fields in wire order, but for the context id. */
  function RoutingFields(h: H.FrameHeader): seq<byte> {
    h.magic + [h.version, h.flags] + h.opcode + h.requestId + h.payloadSize + h.roomId + h.senderId
    + h.hlcTimestamp + h.epoch
  }

  /** The sender has a usable key in the state, and the frame's signature is good for it over the routing
      fields. */
  predicate GoodSignature(ed: Ed25519, f: Frame, keys: map<nat, seq<byte>>) {
    var sender := FromBe(f.header.senderId);
    && sender in keys && ed.validKey(keys[sender])
    && ed.verify(keys[sender], RoutingFields(f.header), f.header.signature)
  }

  lemma SignatureVerdictIff(ed: Ed25519, f: Frame, st: MlsGroupState)
    ensures ValidateSignature(ed, f, st) == Accept <==> GoodSignature(ed, f, st.memberKeys)
  {
    H.SigningDataCovers(f.header);
  }

  /** A signature scheme under which one key has signed one string. */
  ghost predicate SignsOnly(ed: Ed25519, key: seq<byte>, data: seq<byte>, signature: seq<byte>) {
    forall k, d, s :: ed.verify(k, d, s) <==> k == key && d == data && s == signature
  }

  /** Only the one frame header that was signed passes, its context id aside: sender's key, signature and
      every routing field are those signed. */
  lemma OnlyTheSignedHeaderPasses(ed: Ed25519, key: seq<byte>, data: seq<byte>, signature: seq<byte>,
                                  f: Frame, st: MlsGroupState)
    requires SignsOnly(ed, key, data, signature) && ed.validKey(key)
    ensures ValidateSignature(ed, f, st) == Accept
       <==> && FromBe(f.header.senderId) in st.memberKeys && st.memberKeys[FromBe(f.header.senderId)] == key
            && f.header.signature == signature && RoutingFields(f.header) == data
  {
    SignatureVerdictIff(ed, f, st);
  }

  lemma SameFieldsIff(g: H.FrameHeader, h: H.FrameHeader)
    ensures RoutingFields(g) == RoutingFields(h) <==> g.(contextId := h.contextId, signature := h.signature) == h
  {
    H.SigningDataCovers(g);
    H.SigningDataCovers(h);
    H.SameSigningData(g, h);
  }

  /** The room's signatures are checked for this frame. */
  predicate SignatureChecked(s: Server, f: Frame) {
    !Exempt(FromBe(f.header.opcode)) && FromBe(f.header.roomId) in s.store.mls
  }

  /** Off the Welcome opcode, no index means an error. */
  lemma NoIndexIsRejected(ed: Ed25519, m: Manager, st: Store, f: Frame, faults: Faults, outcome: CommitOutcome)
    requires !TakesIndex(ed, m, st, f, faults) && Opcode(f) != 0x1003
    ensures Process(ed, m, st, f, faults, outcome).1.Err?
  {
  }

  lemma AcceptedIsSigned(ed: Ed25519, s: Server, f: Frame, faults: Faults, outcome: CommitOutcome)
    requires SignatureChecked(s, f) && BatchOf(ed, s, f, faults, outcome).Some?
    ensures ValidateSignature(ed, f, s.store.mls[RoomId(f)]) == Accept
  {
    NeedsSignatureIff(f);
    if TakesIndex(ed, s.manager, s.store, f, faults) {
      ProcessWithIndex(ed, s.manager, s.store, f, faults, outcome);
    } else {
      NoIndexIsRejected(ed, s.manager, s.store, f, faults, outcome);
    }
  }

  /** Of a frame that was accepted under its one signature, no version with another routing field or another
      signature is accepted, in this or any other state, wherever signatures are checked. */
  lemma TamperedFrameRejected(ed: Ed25519, s: Server, f: Frame, t: Server, g: Frame, faults: Faults, faults': Faults,
                              outcome: CommitOutcome, key: seq<byte>, data: seq<byte>, signature: seq<byte>)
    requires SignsOnly(ed, key, data, signature) && ed.validKey(key)
    requires SignatureChecked(s, f) && BatchOf(ed, s, f, faults, outcome).Some?
    requires SignatureChecked(t, g) && g.header.(contextId := f.header.contextId) != f.header
    ensures BatchOf(ed, t, g, faults', outcome).None?
  {
    AcceptedIsSigned(ed, s, f, faults, outcome);
    OnlyTheSignedHeaderPasses(ed, key, data, signature, f, s.store.mls[RoomId(f)]);
    if BatchOf(ed, t, g, faults', outcome).Some? {
      AcceptedIsSigned(ed, t, g, faults', outcome);
      OnlyTheSignedHeaderPasses(ed, key, data, signature, g, t.store.mls[RoomId(g)]);
      SameFieldsIff(g.header, f.header);
      assert false;
    }
  }

  // ---------------------------------------------------------------------------------------------
  // Acceptance

  predicate WellFormed(f: Frame) {
    && FromBe(f.header.magic) == 0x4C4F_4652 && f.header.version == 1
    && FromBe(f.header.payloadSize) == |f.payload|
    && FromBe(f.header.roomId) != 0 && FromBe(f.header.epoch) <= 1_000_000
  }

  /** The sender may speak: the roster lists it with a usable key. */
  predicate MaySpeak(ed: Ed25519, r: Roster, id: nat) { id in r.members && id in r.keys && ed.validKey(r.keys[id]) }

  /** The room can take the frame: it exists, is at the frame's epoch, its reads are answered, and it has an
      index left. */
  predicate RoomTakes(s: Server, f: Frame, faults: Faults) {
    var room := FromBe(f.header.roomId);
    && room in s.manager.groups && s.manager.groups[room].epoch == FromBe(f.header.epoch)
    && !faults.loadMls && (room in s.manager.next || !faults.latest)
    && (if room in s.manager.next then s.manager.next[room] else |LogOf(s, room)|) < U64_MAX
  }

  /** The stored state lets the frame in; without one, any sender may speak at epoch 0. */
  predicate StateAdmits(ed: Ed25519, s: Server, f: Frame) {
    var room, sender := FromBe(f.header.roomId), FromBe(f.header.senderId);
    if room in s.store.mls
    then MaySpeak(ed, RosterIn(s.store.mls[room]), sender)
         && (Exempt(FromBe(f.header.opcode)) || GoodSignature(ed, f, s.store.mls[room].memberKeys))
    else FromBe(f.header.epoch) == 0
  }

  predicate Gets(ed: Ed25519, s: Server, f: Frame, faults: Faults, outcome: CommitOutcome) {
    TakesIndex(ed, s.manager, s.store, f, faults) && BatchOf(ed, s, f, faults, outcome).Some?
  }

  lemma TakesIndexIff(ed: Ed25519, s: Server, f: Frame, faults: Faults)
    ensures TakesIndex(ed, s.manager, s.store, f, faults)
       <==> && WellFormed(f) && RoomTakes(s, f, faults) && FromBe(f.header.opcode) != 0x1003
            && (if RoomId(f) in s.store.mls then MaySpeak(ed, RosterIn(s.store.mls[RoomId(f)]), SenderId(f))
                else FromBe(f.header.epoch) == 0)
  {
  }

  /** A frame is given an index and accepted exactly when it is well formed and no Welcome, its room can take
      it, the stored state lets its sender and signature in, and a Commit is taken and exported by MLS. */
  lemma AcceptedIff(ed: Ed25519, s: Server, f: Frame, faults: Faults, outcome: CommitOutcome)
    ensures Gets(ed, s, f, faults, outcome)
       <==> && WellFormed(f) && RoomTakes(s, f, faults) && FromBe(f.header.opcode) != 0x1003
            && StateAdmits(ed, s, f)
            && (FromBe(f.header.opcode) == 0x1002 ==> outcome.Processed? && outcome.exported)
  {
    TakesIndexIff(ed, s, f, faults);
    NeedsSignatureIff(f);
    if TakesIndex(ed, s.manager, s.store, f, faults) {
      ProcessWithIndex(ed, s.manager, s.store, f, faults, outcome);
      if RoomId(f) in s.store.mls { SignatureVerdictIff(ed, f, s.store.mls[RoomId(f)]); }
    }
  }

  // ---------------------------------------------------------------------------------------------
  // Members get in

  lemma LastIsStored(st: Store, batch: Batch)
    requires |batch| == 4 && batch[3].PersistMlsState? && !batch[0].Broadcast? && !batch[1].Broadcast?
    requires batch[2].Broadcast? && Encode(batch[2].frame).Ok?
    ensures var a, st' := batch[3], ExecutedAll(st, batch, []);
            a.roomId in st'.mls && st'.mls[a.roomId] == a.state
  {
    var st1 := Executed(st, batch[0]);
    var st2 := Executed(st1, batch[1]);
    assert ExecutedAll(st, batch, []) == ExecutedAll(st1, batch[1..], []);
    assert batch[1..][1..] == batch[2..] && batch[2..][1..] == batch[3..] && batch[3..][1..] == [];
    assert ExecutedAll(st1, batch[1..], []) == ExecutedAll(st2, batch[2..], []);
    assert ExecutedAll(st2, batch[2..], []) == ExecutedAll(st2, batch[3..], []);
    assert ExecutedAll(st2, batch[3..], []) == ExecutedAll(Executed(st2, batch[3]), [], []);
  }

  /** Receiving an accepted Commit and executing its batch, nothing refused, stores the state the commit
      leads to: the room, the group's new epoch, and the members and keys MLS left. */
  lemma CommitStoresState(ed: Ed25519, s: Server, f: Frame, faults: Faults, outcome: CommitOutcome)
    requires Gets(ed, s, f, faults, outcome) && Commits(s.manager, f, outcome) && |f.payload| <= 16 * 1024 * 1024
    ensures var room, s1 := RoomId(f), Received(ed, s, f, faults, outcome);
            var s2 := Step(ed, s1, Execute(|s.outstanding|, []));
            && EpochOf(s2.manager, room) == EpochOf(s.manager, room) + 1
            && room in s2.store.mls
            && s2.store.mls[room]
               == MlsGroupState(room, EpochOf(s2.manager, room), outcome.roster.members, outcome.roster.keys)
  {
    EpochMovesIff(ed, s.manager, s.store, f, faults, outcome);
    ProcessWithIndex(ed, s.manager, s.store, f, faults, outcome);
    var batch, i := BatchOf(ed, s, f, faults, outcome).value, NextOf(s.manager, s.store, RoomId(f));
    assert S.WithIndex(f, i).payload == f.payload;
    LastIsStored(s.store, batch);
  }

  /** So a member the commit left, with a usable key, is heard at the new epoch: its well-formed frame,
      signed with that key where a signature is asked for, is given an index and accepted. */
  lemma CommittedMemberIsHeard(ed: Ed25519, s: Server, f: Frame, g: Frame, faults: Faults, outcome: CommitOutcome)
    requires Gets(ed, s, f, faults, outcome) && Commits(s.manager, f, outcome) && |f.payload| <= 16 * 1024 * 1024
    requires WellFormed(g) && FromBe(g.header.roomId) == RoomId(f) && FromBe(g.header.opcode) !in {0x1002, 0x1003}
    requires FromBe(g.header.epoch) == EpochOf(s.manager, RoomId(f)) + 1
    requires MaySpeak(ed, outcome.roster, FromBe(g.header.senderId))
    requires Exempt(FromBe(g.header.opcode)) || GoodSignature(ed, g, outcome.roster.keys)
    requires NextOf(s.manager, s.store, RoomId(f)) + 1 < U64_MAX
    ensures var s2 := Step(ed, Received(ed, s, f, faults, outcome), Execute(|s.outstanding|, []));
            Gets(ed, s2, g, Faults(false, false), Refused)
  {
    var s2 := Step(ed, Received(ed, s, f, faults, outcome), Execute(|s.outstanding|, []));
    CommitStoresState(ed, s, f, faults, outcome);
    EpochMovesIff(ed, s.manager, s.store, f, faults, outcome);
    ProcessWithIndex(ed, s.manager, s.store, f, faults, outcome);
    assert RoomTakes(s2, g, Faults(false, false));
    AcceptedIff(ed, s2, g, Faults(false, false), Refused);
  }

  /** The group's own roster decides, for a frame that is neither Commit nor Welcome. */
  predicate GroupAdmits(ed: Ed25519, s: Server, f: Frame) {
    var roster := RosterOf(s.manager, FromBe(f.header.roomId));
    && MaySpeak(ed, roster, FromBe(f.header.senderId))
    && (Exempt(FromBe(f.header.opcode)) || GoodSignature(ed, f, roster.keys))
  }

  /** In every run that starts level and does not fall behind, once no MLS state of the room waits and one is
      stored, the frames that get in are exactly the well-formed ones of the group's own members, at its
      epoch, signed with their keys where a signature is asked for. */
  lemma GroupDecides(ed: Ed25519, mls: map<nat, MlsGroupState>, es: seq<Event>, f: Frame, faults: Faults,
                     outcome: CommitOutcome)
    requires var room := RoomId(f);
             StartsLevel(mls, room) && WellFounded(ed, Start(mls), es, room) && NeverBehind(ed, Start(mls), es, room)
    requires var s := Run(ed, Start(mls), es);
             MlsQueue(s.outstanding, RoomId(f)) == [] && RoomId(f) in s.store.mls
    requires FromBe(f.header.opcode) !in {0x1002, 0x1003}
    ensures var s := Run(ed, Start(mls), es);
            Gets(ed, s, f, faults, outcome) <==> WellFormed(f) && RoomTakes(s, f, faults) && GroupAdmits(ed, s, f)
  {
    var s := Run(ed, Start(mls), es);
    StoredIsGroupEpoch(ed, mls, es, RoomId(f));
    RunKeepsCurrent(ed, Start(mls), es, RoomId(f));
    AcceptedIff(ed, s, f, faults, outcome);
  }

  lemma MovedIsNotPending(ed: Ed25519, m: Manager, st: Store, f: Frame, faults: Faults, outcome: CommitOutcome)
    requires TakesIndex(ed, m, st, f, faults) && Commits(m, f, outcome)
    ensures var m' := Process(ed, m, st, f, faults, outcome).0;
            RoomId(f) in m'.groups && !m'.groups[RoomId(f)].pending
  {
    TakesIndexMovesCounter(ed, m, st, f, faults, outcome);
    CheckSignaturesOfSequenced(ed, RoomId(f), NextOf(m, st, RoomId(f)), f, Admit(ed, m, st, f, faults).value);
  }

  /** A pending commit of the server's own is spent by the Commit that moves the group: content that is no
      commit then leaves the epoch where it is. */
  lemma PendingIsSpent(ed: Ed25519, s: Server, f: Frame, faults: Faults, outcome: CommitOutcome,
                       g: Frame, faults': Faults, roster: Roster, exported: bool)
    requires TakesIndex(ed, s.manager, s.store, f, faults) && Commits(s.manager, f, outcome) && RoomId(g) == RoomId(f)
    ensures var s1 := Received(ed, s, f, faults, outcome);
            var s2 := Received(ed, s1, g, faults', Processed(false, roster, exported));
            && EpochOf(s1.manager, RoomId(f)) == EpochOf(s.manager, RoomId(f)) + 1
            && EpochOf(s2.manager, RoomId(f)) == EpochOf(s1.manager, RoomId(f))
  {
    var s1 := Received(ed, s, f, faults, outcome);
    EpochMovesIff(ed, s.manager, s.store, f, faults, outcome);
    MovedIsNotPending(ed, s.manager, s.store, f, faults, outcome);
    EpochMovesIff(ed, s1.manager, s1.store, g, faults', Processed(false, roster, exported));
  }

  /** Once the server has prepared a commit of its own, the next Commit frame that MLS processes moves the
      group, whatever the frame holds. */
  lemma PreparedCommitMoves(ed: Ed25519, s: Server, f: Frame, faults: Faults, roster: Roster, exported: bool)
    requires TakesIndex(ed, s.manager, s.store, f, faults) && Opcode(f) == 0x1002
    ensures var s1 := Step(ed, s, PrepareCommit(RoomId(f)));
            var s2 := Received(ed, s1, f, faults, Processed(false, roster, exported));
            && EpochOf(s2.manager, RoomId(f)) == EpochOf(s.manager, RoomId(f)) + 1
            && RosterOf(s2.manager, RoomId(f)) == roster
  {
    var s1 := Step(ed, s, PrepareCommit(RoomId(f)));
    assert Admit(ed, s1.manager, s1.store, f, faults) == Admit(ed, s.manager, s.store, f, faults);
    EpochMovesIff(ed, s1.manager, s1.store, f, faults, Processed(false, roster, exported));
  }

  /** A commit that MLS refuses leaves every group as it was, its pending commit included. */
  lemma RefusedCommitKeepsGroups(ed: Ed25519, s: Server, f: Frame, faults: Faults)
    ensures Received(ed, s, f, faults, Refused).manager.groups == s.manager.groups
  {
    if TakesIndex(ed, s.manager, s.store, f, faults) {
      var i := NextOf(s.manager, s.store, RoomId(f));
      TakesIndexMovesCounter(ed, s.manager, s.store, f, faults, Refused);
      CheckSignaturesOfSequenced(ed, RoomId(f), i, f, Admit(ed, s.manager, s.store, f, faults).value);
      assert s.manager.groups[RoomId(f) := s.manager.groups[RoomId(f)]] == s.manager.groups;
    } else {
      NoIndexNoPersist(ed, s.manager, s.store, f, faults, Refused);
    }
  }

  // ---------------------------------------------------------------------------------------------
  // What a refusal says

  /** The first thing wrong with a frame that takes no index, in the order it is looked at. */
  function FirstFault(ed: Ed25519, s: Server, f: Frame, faults: Faults): Option<RoomError> {
    var h := f.header;
    var room, sender, epoch := FromBe(h.roomId), FromBe(h.senderId), FromBe(h.epoch);
    if room !in s.manager.groups then Some(RoomNotFound(room))
    else if faults.loadMls then Some(RoomError.Storage(Io))
    else if epoch != s.manager.groups[room].epoch then Some(InvalidEpoch(s.manager.groups[room].epoch, epoch))
    else if room in s.store.mls && sender !in s.store.mls[room].members then Some(NotMember(sender))
    else if room in s.store.mls && !MaySpeak(ed, RosterIn(s.store.mls[room]), sender)
      then Some(MlsValidation(MemberNotFound(sender)))
    else if room !in s.store.mls && epoch != 0 then Some(InvalidEpoch(0, epoch))
    else if FromBe(h.magic) != 0x4C4F_4652 then Some(Sequencing(S.Validation(S.BadMagic)))
    else if h.version != 1 then Some(Sequencing(S.Validation(S.BadVersion)))
    else if FromBe(h.payloadSize) != |f.payload| then Some(Sequencing(S.Validation(S.SizeMismatch)))
    else if room == 0 then Some(Sequencing(S.Validation(S.ZeroRoom)))
    else if epoch > 1_000_000 then Some(Sequencing(S.Validation(S.EpochTooLarge)))
    else if FromBe(h.opcode) == 0x1003 then None
    else if room !in s.manager.next && faults.latest then Some(Sequencing(S.SequencerError.Storage(Io)))
    else if NextOf(s.manager, s.store, room) >= 0xFFFF_FFFF_FFFF_FFFF then Some(Sequencing(S.IndexOverflow))
    else None
  }

  lemma WelcomeIsBroadcast(ed: Ed25519, m: Manager, st: Store, f: Frame, faults: Faults, outcome: CommitOutcome)
    requires Admit(ed, m, st, f, faults).Ok? && S.ValidateStructure(f).Ok? && Opcode(f) == 0x1003
    ensures Process(ed, m, st, f, faults, outcome) == (m, Ok([Broadcast(RoomId(f), f)]))
  {
    var actions := [S.BroadcastToRoom(RoomId(f), f)];
    assert actions[1..] == [];
    assert CheckSignatures(ed, actions, Admit(ed, m, st, f, faults).value) == Ok(());
    assert ToRoomActions(actions) == [Broadcast(RoomId(f), f)];
  }

  /** The faults found before sequencing, and those found there. */
  lemma NotAdmittedWith(ed: Ed25519, s: Server, f: Frame, faults: Faults)
    ensures var admitted := Admit(ed, s.manager, s.store, f, faults);
            var fault := FirstFault(ed, s, f, faults);
            && (admitted.Err? ==> fault == Some(admitted.error))
            && (admitted.Ok? && fault.Some? ==> fault.value.Sequencing?)
  {
  }

  /** A frame that takes no index is refused with the first fault found in it, or is a Welcome and only
      broadcast. The manager is as it was, but that running out of indices leaves the counter cached. */
  lemma RefusedBeforeIndexWith(ed: Ed25519, s: Server, f: Frame, faults: Faults, outcome: CommitOutcome)
    requires !TakesIndex(ed, s.manager, s.store, f, faults)
    ensures var (m', r) := Process(ed, s.manager, s.store, f, faults, outcome);
            var fault := FirstFault(ed, s, f, faults);
            && r == (if fault.Some? then Err(fault.value) else Ok([Broadcast(RoomId(f), f)]))
            && (fault.None? ==> FromBe(f.header.opcode) == 0x1003)
            && (if fault == Some(Sequencing(S.IndexOverflow))
                then m' == s.manager.(next := s.manager.next[RoomId(f) := NextOf(s.manager, s.store, RoomId(f))])
                else m' == s.manager)
  {
    NotAdmittedWith(ed, s, f, faults);
    if Admit(ed, s.manager, s.store, f, faults).Ok? {
      if S.ValidateStructure(f).Ok? && Opcode(f) == 0x1003 {
        WelcomeIsBroadcast(ed, s.manager, s.store, f, faults, outcome);
      }
    }
  }

  /** One that takes an index and is then refused is badly signed, or a Commit that MLS refuses or cannot
      export. */
  lemma RefusedAfterIndexWith(ed: Ed25519, s: Server, f: Frame, faults: Faults, outcome: CommitOutcome)
    requires TakesIndex(ed, s.manager, s.store, f, faults) && FailsLate(ed, s.store, f, outcome)
    ensures Process(ed, s.manager, s.store, f, faults, outcome).1
            == Err(MlsValidation(if FromBe(f.header.opcode) != 0x1002 then ValidationFailed(SignatureFailed)
                                 else if outcome.Refused? then CommitRefused else ExportFailed))
  {
    var i := NextOf(s.manager, s.store, RoomId(f));
    TakesIndexMovesCounter(ed, s.manager, s.store, f, faults, outcome);
    CheckSignaturesOfSequenced(ed, RoomId(f), i, f, Admit(ed, s.manager, s.store, f, faults).value);
  }

  /** The one-shot validation's verdict: the epoch is looked at first, then membership, the key and the
      signature. */
  lemma ValidateFrameVerdict(ed: Ed25519, f: Frame, epoch: nat, st: MlsGroupState)
    ensures var sender := FromBe(f.header.senderId);
            ValidateFrame(ed, f, epoch, st)
            == if FromBe(f.header.epoch) != epoch then Verdict.Reject(RejectReason.EpochMismatch)
               else if sender !in st.members then Verdict.Reject(NotInGroup)
               else if sender !in st.memberKeys || !ed.validKey(st.memberKeys[sender])
                 then Verdict.Reject(NoSignatureKey)
               else if GoodSignature(ed, f, st.memberKeys) then Accept else Verdict.Reject(SignatureFailed)
  {
    SignatureVerdictIff(ed, f, st);
  }

  /** A Commit too large to broadcast stops its batch there: the group has moved and its state is not
      stored. */
  lemma OversizedCommitStoresNothing(ed: Ed25519, s: Server, f: Frame, faults: Faults, outcome: CommitOutcome)
    requires Gets(ed, s, f, faults, outcome) && Commits(s.manager, f, outcome) && |f.payload| > 16 * 1024 * 1024
    ensures var s1 := Received(ed, s, f, faults, outcome);
            var s2 := Step(ed, s1, Execute(|s.outstanding|, []));
            EpochOf(s2.manager, RoomId(f)) == EpochOf(s.manager, RoomId(f)) + 1 && s2.store.mls == s.store.mls
  {
    EpochMovesIff(ed, s.manager, s.store, f, faults, outcome);
    ProcessWithIndex(ed, s.manager, s.store, f, faults, outcome);
    var batch, i := BatchOf(ed, s, f, faults, outcome).value, NextOf(s.manager, s.store, RoomId(f));
    assert S.WithIndex(f, i).payload == f.payload;
    assert batch[1..][1..] == batch[2..];
    var st1 := Executed(s.store, batch[0]);
    assert ExecutedAll(s.store, batch, []) == ExecutedAll(st1, batch[1..], []);
    assert ExecutedAll(st1, batch[1..], []) == ExecutedAll(Executed(st1, batch[1]), batch[2..], []);
  }
}
