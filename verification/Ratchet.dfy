/** The forward-only symmetric ratchet (crates/lockframe-crypto/src/sender_keys/ratchet.rs). */
module Ratchet {
  import opened Wrappers
  import opened Bytes

  type Key = seq<byte>

  /** HMAC with the two labels, left uninterpreted: the next chain key and the message key. */
  datatype Kdf = Kdf(next: Key -> Key, message: Key -> Key)

  const MAX_SKIP: nat := 1000

  datatype SenderKeyError =
    | UnknownSender(sender: u32)
    | RatchetTooFarBehind(current: u32, requested: u32)
    | DecryptionFailed
    | EpochMismatch(expected: u64, actual: u64)
    | GenerationOverflow(at: u32)

  datatype MessageKey = MessageKey(key: Key, generation: u32)

  datatype RatchetState = RatchetState(chainKey: Key, generation: u32)

  /** The chain key `n` steps on. */
  function Chain(kdf: Kdf, key: Key, n: nat): Key {
    if n == 0 then key else kdf.next(Chain(kdf, key, n - 1))
  }

  lemma {:induction false} ChainAdds(kdf: Kdf, key: Key, m: nat, n: nat)
    ensures Chain(kdf, Chain(kdf, key, m), n) == Chain(kdf, key, m + n)
  {
    if n > 0 { ChainAdds(kdf, key, m, n - 1); }
  }

  function Advanced(kdf: Kdf, r: RatchetState): (RatchetState, Result<MessageKey, SenderKeyError>) {
    if r.generation == U32_MAX then (r, Err(GenerationOverflow(r.generation)))
    else (RatchetState(kdf.next(r.chainKey), r.generation + 1), Ok(MessageKey(kdf.message(r.chainKey), r.generation)))
  }

  /** Generations `advance_to` accepts: not passed yet, at most `MAX_SKIP` ahead. */
  predicate InReach(r: RatchetState, target: u32) {
    r.generation <= target <= r.generation + MAX_SKIP
  }

  /** `advance_to` in one step. Out of reach nothing moves; the last 32-bit generation cannot be
      served, and asking for it uses the ratchet up. */
  function AdvancedTo(kdf: Kdf, r: RatchetState, target: u32): (RatchetState, Result<MessageKey, SenderKeyError>) {
    if !InReach(r, target) then (r, Err(RatchetTooFarBehind(r.generation, target)))
    else
      var key := Chain(kdf, r.chainKey, target - r.generation);
      if target == U32_MAX then (RatchetState(key, U32_MAX), Err(GenerationOverflow(U32_MAX)))
      else (RatchetState(kdf.next(key), target + 1), Ok(MessageKey(kdf.message(key), target)))
  }

  datatype Call = Advance | AdvanceTo(target: u32)

  function Called(kdf: Kdf, r: RatchetState, call: Call): (RatchetState, Result<MessageKey, SenderKeyError>) {
    match call
    case Advance => Advanced(kdf, r)
    case AdvanceTo(target) => AdvancedTo(kdf, r, target)
  }

  function RunCalls(kdf: Kdf, r: RatchetState, calls: seq<Call>)
    : (RatchetState, seq<Result<MessageKey, SenderKeyError>>)
    decreases |calls|
  {
    if calls == [] then (r, [])
    else
      var (r1, k) := Called(kdf, r, calls[0]);
      var (r2, ks) := RunCalls(kdf, r1, calls[1..]);
      (r2, [k] + ks)
  }

  /** The state is the seed's chain at the state's own generation. */
  predicate OnChain(kdf: Kdf, seed: Key, r: RatchetState) {
    r.chainKey == Chain(kdf, seed, r.generation)
  }

  predicate KeyOnChain(kdf: Kdf, seed: Key, k: Result<MessageKey, SenderKeyError>) {
    k.Ok? ==> k.value.key == kdf.message(Chain(kdf, seed, k.value.generation))
  }

  lemma CallStaysOnChain(kdf: Kdf, seed: Key, r: RatchetState, call: Call)
    requires OnChain(kdf, seed, r)
    ensures var (r', k) := Called(kdf, r, call);
            OnChain(kdf, seed, r') && KeyOnChain(kdf, seed, k) && r.generation <= r'.generation
            && (k.Ok? ==> r.generation <= k.value.generation && k.value.generation + 1 == r'.generation)
  {
    if call.AdvanceTo? && InReach(r, call.target) {
      ChainAdds(kdf, seed, r.generation, call.target - r.generation);
    }
  }

  /** After any mix of calls, failed ones included, the chain key is the seed's chain at the current
      generation, and every key handed out is the message key of its own generation. */
  lemma {:induction false} ClosedForm(kdf: Kdf, seed: Key, r: RatchetState, calls: seq<Call>)
    requires OnChain(kdf, seed, r)
    ensures OnChain(kdf, seed, RunCalls(kdf, r, calls).0)
    ensures forall k <- RunCalls(kdf, r, calls).1 :: KeyOnChain(kdf, seed, k)
    decreases |calls|
  {
    if calls != [] {
      CallStaysOnChain(kdf, seed, r, calls[0]);
      ClosedForm(kdf, seed, Called(kdf, r, calls[0]).0, calls[1..]);
    }
  }

  class SymmetricRatchet {
    const kdf: Kdf
    var chainKey: Key
    var generation: u32

    function View(): RatchetState
      reads this
    {
      RatchetState(chainKey, generation)
    }

    constructor (kdf: Kdf, seed: Key)
      ensures View() == RatchetState(seed, 0) && this.kdf == kdf
    {
      this.kdf, chainKey, generation := kdf, seed, 0;
    }

    method Advance() returns (k: Result<MessageKey, SenderKeyError>)
      modifies this
      ensures (View(), k) == Advanced(kdf, old(View()))
    {
      if generation == U32_MAX { return Err(GenerationOverflow(generation)); }
      var messageKey := kdf.message(chainKey);
      chainKey := kdf.next(chainKey);
      generation := generation + 1;
      return Ok(MessageKey(messageKey, generation - 1));
    }

    /** The loop: advance until past the target. It succeeds exactly on reachable targets below the
        last generation, in at most 1001 advances, and a range error leaves the ratchet as it was. */
    method AdvanceTo(target: u32) returns (k: Result<MessageKey, SenderKeyError>, ghost advances: nat)
      modifies this
      ensures (View(), k) == AdvancedTo(kdf, old(View()), target)
      ensures k.Ok? <==> old(generation) <= target <= old(generation) + 1000 && target < 0xFFFF_FFFF
      ensures !(old(generation) <= target <= old(generation) + 1000) ==>
                k == Err(RatchetTooFarBehind(old(generation), target)) && View() == old(View())
      ensures advances <= 1001
    {
      advances := 0;
      if target < generation { return Err(RatchetTooFarBehind(generation, target)), 0; }
      if target - generation > MAX_SKIP { return Err(RatchetTooFarBehind(generation, target)), 0; }
      var start := generation;
      ghost var key := chainKey;
      k := Err(RatchetTooFarBehind(generation, target));
      while generation <= target
        invariant start <= generation <= target + 1
        invariant chainKey == Chain(kdf, key, generation - start)
        invariant advances == generation - start
        invariant generation > start ==>
                    k == Ok(MessageKey(kdf.message(Chain(kdf, key, generation - start - 1)), generation - 1))
        decreases target + 1 - generation
      {
        var step := Advance();
        if step.Err? { return Err(step.error), advances; }
        k, advances := step, advances + 1;
      }
    }
  }
}
