/** Signature, membership and epoch checks against stored MLS state
    (crates/lockframe-core/src/mls/validator.rs, crates/lockframe-core/src/mls/state.rs). */
module Validator {
  import opened Wrappers
  import opened Bytes
  import H = Header
  import opened Frames

  /** Ed25519, left uninterpreted: which key bytes are keys, and which (key, data, signature)
      triples verify. */
  datatype Ed25519 = Ed25519(validKey: seq<byte> -> bool,
                             verify: (seq<byte>, seq<byte>, seq<byte>) -> bool)

  datatype MlsGroupState = MlsGroupState(roomId: nat, epoch: nat, members: seq<nat>,
                                         memberKeys: map<nat, seq<byte>>)

  datatype Verdict = Accept | Reject(reason: RejectReason)
  datatype RejectReason = EpochMismatch | NotInGroup | NoSignatureKey | SignatureFailed

  function MemberKey(ed: Ed25519, st: MlsGroupState, id: nat): Option<seq<byte>> {
    if id in st.memberKeys && ed.validKey(st.memberKeys[id]) then Some(st.memberKeys[id]) else None
  }

  function ValidateSignature(ed: Ed25519, f: Frame, st: MlsGroupState): Verdict {
    match MemberKey(ed, st, SenderId(f))
    case None => Reject(NoSignatureKey)
    case Some(key) =>
      if ed.verify(key, H.SigningData(f.header), f.header.signature) then Accept
      else Reject(SignatureFailed)
  }

  function ValidateFrame(ed: Ed25519, f: Frame, currentEpoch: nat, st: MlsGroupState): Verdict {
    if Epoch(f) != currentEpoch then Reject(EpochMismatch)
    else if SenderId(f) !in st.members then Reject(NotInGroup)
    else ValidateSignature(ed, f, st)
  }
}
