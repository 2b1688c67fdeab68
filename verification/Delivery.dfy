/** Delivery between stores of the same epoch over a network that loses, duplicates and reorders,
    and how often a key may be used. */
module Delivery {
  import opened Wrappers
  import opened Bytes
  import opened Ratchet
  import opened SenderKeys

  datatype Operation =
    | Encrypts(sender: u32, plaintext: seq<byte>, random: seq<byte>)
    | Decrypts(message: EncryptedMessage)

  function Subject(op: Operation): u32 {
    match op case Encrypts(sender, _, _) => sender case Decrypts(m) => m.sender
  }

  function Applied(c: Crypto, s: Keys, op: Operation): Keys {
    match op
    case Encrypts(sender, plaintext, random) => EncryptAs(c, s, sender, plaintext, random).0
    case Decrypts(m) => DecryptFrom(c, s, m).0
  }

  function AppliedAll(c: Crypto, s: Keys, ops: seq<Operation>): Keys
    decreases |ops|
  {
    if ops == [] then s else AppliedAll(c, Applied(c, s, ops[0]), ops[1..])
  }

  // ---------------------------------------------------------------------------------------------
  // Genuine messages

  /** Every ratchet of the store is on the chain of its own seed. */
  predicate StoreOnChain(c: Crypto, secret: seq<byte>, s: Keys) {
    forall i <- s.ratchets.Keys :: OnChain(c.kdf, c.seed(secret, s.epoch, i), s.ratchets[i])
  }

  /** An operation touches only its subject's ratchet, and never turns it back. */
  lemma OperationTouchesSubject(c: Crypto, s: Keys, op: Operation)
    ensures var s' := Applied(c, s, op);
            && s'.epoch == s.epoch && s'.ratchets.Keys == s.ratchets.Keys
            && (forall i <- s.ratchets.Keys :: i != Subject(op) ==> s'.ratchets[i] == s.ratchets[i])
            && (forall i <- s.ratchets.Keys :: s'.ratchets[i].generation >= s.ratchets[i].generation)
  {
    assert forall i <- s.ratchets.Keys :: s.ratchets[i := s.ratchets[i]] == s.ratchets;
  }

  lemma {:induction false} StoreStaysOnChain(c: Crypto, secret: seq<byte>, s: Keys, ops: seq<Operation>)
    requires StoreOnChain(c, secret, s)
    ensures var s' := AppliedAll(c, s, ops);
            StoreOnChain(c, secret, s') && s'.epoch == s.epoch && s'.ratchets.Keys == s.ratchets.Keys
    decreases |ops|
  {
    if ops != [] {
      var op := ops[0];
      OperationTouchesSubject(c, s, op);
      if Subject(op) in s.ratchets {
        var call := if op.Encrypts? then Advance else AdvanceTo(op.message.generation);
        CallStaysOnChain(c.kdf, c.seed(secret, s.epoch, Subject(op)), s.ratchets[Subject(op)], call);
      }
      StoreStaysOnChain(c, secret, Applied(c, s, op), ops[1..]);
    }
  }

  /** The message a sender of this epoch makes at generation `g`. */
  function GenuineMessage(c: Crypto, secret: seq<byte>, epoch: u64, sender: u32, g: u32,
                          plaintext: seq<byte>, random: seq<byte>): EncryptedMessage
  {
    var key := c.kdf.message(Chain(c.kdf, c.seed(secret, epoch, sender), g));
    EncryptMessage(c, plaintext, MessageKey(key, g), epoch, sender, random)
  }

  /** Whatever a store has done since the epoch began, what it next encrypts as a member is that
      member's genuine message at the ratchet's generation, which is then behind it. */
  lemma EncryptMakesGenuine(c: Crypto, secret: seq<byte>, epoch: u64, members: seq<u32>, ops: seq<Operation>,
                            sender: u32, plaintext: seq<byte>, random: seq<byte>)
    requires sender in members
    ensures var s := AppliedAll(c, InitialKeys(c, secret, epoch, members), ops);
            && sender in s.ratchets
            && var g := s.ratchets[sender].generation;
               var (s', m) := EncryptAs(c, s, sender, plaintext, random);
               if g == U32_MAX then m == Err(GenerationOverflow(g))
               else m == Ok(GenuineMessage(c, secret, epoch, sender, g, plaintext, random))
                    && s'.ratchets[sender].generation == g + 1
  {
    StoreStaysOnChain(c, secret, InitialKeys(c, secret, epoch, members), ops);
  }

  // ---------------------------------------------------------------------------------------------
  // Arrivals at a receiver

  datatype Arrival =
    | Genuine(generation: u32, plaintext: seq<byte>, random: seq<byte>)
    | Forged(message: EncryptedMessage)
    | Elsewhere(op: Operation)

  datatype Outcome = Delivered(plaintext: seq<byte>) | Refused | Unrelated

  predicate Fits(sender: u32, a: Arrival) {
    match a
    case Genuine(g, _, _) => g < U32_MAX
    case Forged(m) => m.sender == sender
    case Elsewhere(op) => Subject(op) != sender
  }

  /** Genuine messages of one sender in any order, any number of times, mixed with any messages at all
      under the sender's name and with anything the store does for others. */
  predicate Schedule(sender: u32, arrivals: seq<Arrival>) { forall a <- arrivals :: Fits(sender, a) }

  function Arrived(c: Crypto, secret: seq<byte>, sender: u32, s: Keys, a: Arrival): (Keys, Outcome) {
    match a
    case Elsewhere(op) => (Applied(c, s, op), Unrelated)
    case Forged(m) => (DecryptFrom(c, s, m).0, Unrelated)
    case Genuine(g, plaintext, random) =>
      var (s', r) := DecryptFrom(c, s, GenuineMessage(c, secret, s.epoch, sender, g, plaintext, random));
      (s', if r.Ok? then Delivered(r.value) else Refused)
  }

  function Outcomes(c: Crypto, secret: seq<byte>, sender: u32, s: Keys, arrivals: seq<Arrival>): seq<Outcome>
    decreases |arrivals|
  {
    if arrivals == [] then []
    else
      var (s', o) := Arrived(c, secret, sender, s, arrivals[0]);
      [o] + Outcomes(c, secret, sender, s', arrivals[1..])
  }

  /** One past a generation, the last one being used up rather than passed. */
  function Past(g: nat): nat { if g < U32_MAX then g + 1 else U32_MAX }

  /** The receiver as a single number, one past the last generation it moved to. A message that does not
      open moves it like one that does. */
  function Expected(epoch: u64, cur: nat, arrivals: seq<Arrival>): seq<Outcome>
    decreases |arrivals|
  {
    if arrivals == [] then []
    else
      match arrivals[0]
      case Elsewhere(_) => [Unrelated] + Expected(epoch, cur, arrivals[1..])
      case Forged(m) =>
        var reached := m.epoch == epoch && cur <= m.generation <= cur + MAX_SKIP;
        [Unrelated] + Expected(epoch, if reached then Past(m.generation) else cur, arrivals[1..])
      case Genuine(g, plaintext, _) =>
        if cur <= g <= cur + MAX_SKIP then [Delivered(plaintext)] + Expected(epoch, g + 1, arrivals[1..])
        else [Refused] + Expected(epoch, cur, arrivals[1..])
  }

  /** One genuine message: delivered as it was sent exactly when its generation is within reach;
      otherwise refused with the store as it was. */
  lemma GenuineArrival(c: Crypto, secret: seq<byte>, sender: u32, s: Keys, g: u32,
                       plaintext: seq<byte>, random: seq<byte>)
    requires Sound(c) && StoreOnChain(c, secret, s) && sender in s.ratchets && g < U32_MAX
    ensures var cur := s.ratchets[sender].generation;
            var (s', o) := Arrived(c, secret, sender, s, Genuine(g, plaintext, random));
            if cur <= g <= cur + MAX_SKIP
            then o == Delivered(plaintext) && sender in s'.ratchets && s'.ratchets[sender].generation == g + 1
            else o == Refused && s' == s
  {
    var r := s.ratchets[sender];
    if InReach(r, g) {
      ChainAdds(c.kdf, c.seed(secret, s.epoch, sender), r.generation, g - r.generation);
    } else {
      assert s.ratchets[sender := r] == s.ratchets;
    }
  }

  /** Any message under the sender's name, opened or not, moves the ratchet past its generation exactly
      when it is of the epoch and within reach; otherwise the ratchet stands. */
  lemma ForgedArrival(c: Crypto, s: Keys, m: EncryptedMessage)
    requires m.sender in s.ratchets
    ensures var cur := s.ratchets[m.sender].generation;
            var s' := DecryptFrom(c, s, m).0;
            && s'.epoch == s.epoch && m.sender in s'.ratchets
            && s'.ratchets[m.sender].generation
               == if m.epoch == s.epoch && cur <= m.generation <= cur + MAX_SKIP then Past(m.generation) else cur
  {
  }

  /** Any arrival keeps the store on its chains and in its epoch, and one for somebody else leaves the
      sender's ratchet alone. */
  lemma ArrivalStaysOnChain(c: Crypto, secret: seq<byte>, sender: u32, s: Keys, a: Arrival)
    requires StoreOnChain(c, secret, s) && sender in s.ratchets
    ensures var s' := Arrived(c, secret, sender, s, a).0;
            && StoreOnChain(c, secret, s') && sender in s'.ratchets && s'.epoch == s.epoch
            && (a.Elsewhere? && Subject(a.op) != sender ==> s'.ratchets[sender] == s.ratchets[sender])
  {
    var op := match a
      case Elsewhere(other) => other
      case Forged(m) => Decrypts(m)
      case Genuine(g, plaintext, random) => Decrypts(GenuineMessage(c, secret, s.epoch, sender, g, plaintext, random));
    OperationTouchesSubject(c, s, op);
    StoreStaysOnChain(c, secret, s, [op]);
    assert AppliedAll(c, s, [op]) == Applied(c, s, op);
  }

  /** After any message of generation g within reach, opened or not, a genuine message of generation h is
      delivered exactly when g < h <= g + 1001. */
  lemma WindowAfterAnyMessage(c: Crypto, secret: seq<byte>, s: Keys, m: EncryptedMessage, h: u32,
                              plaintext: seq<byte>, random: seq<byte>)
    requires Sound(c) && StoreOnChain(c, secret, s) && h < U32_MAX
    requires m.epoch == s.epoch && m.sender in s.ratchets && InReach(s.ratchets[m.sender], m.generation)
    ensures var s' := DecryptFrom(c, s, m).0;
            var o := Arrived(c, secret, m.sender, s', Genuine(h, plaintext, random)).1;
            o == (if m.generation < h <= m.generation + 1001 then Delivered(plaintext) else Refused)
  {
    ArrivalStaysOnChain(c, secret, m.sender, s, Forged(m));
    ForgedArrival(c, s, m);
    GenuineArrival(c, secret, m.sender, DecryptFrom(c, s, m).0, h, plaintext, random);
  }

  /** Under any schedule the store delivers exactly what the one-number receiver would. */
  lemma {:induction false} DeliveryUnderAnySchedule(c: Crypto, secret: seq<byte>, sender: u32, s: Keys,
                                                    arrivals: seq<Arrival>)
    requires Sound(c) && StoreOnChain(c, secret, s) && sender in s.ratchets && Schedule(sender, arrivals)
    ensures Outcomes(c, secret, sender, s, arrivals) == Expected(s.epoch, s.ratchets[sender].generation, arrivals)
    decreases |arrivals|
  {
    if arrivals != [] {
      var a := arrivals[0];
      assert a in arrivals;
      ArrivalStaysOnChain(c, secret, sender, s, a);
      if a.Genuine? {
        GenuineArrival(c, secret, sender, s, a.generation, a.plaintext, a.random);
      } else if a.Forged? {
        ForgedArrival(c, s, a.message);
      }
      DeliveryUnderAnySchedule(c, secret, sender, Arrived(c, secret, sender, s, a).0, arrivals[1..]);
    }
  }

  /** In particular from the start of the epoch, between stores built from the same secret. */
  lemma DeliveryFromEpochStart(c: Crypto, secret: seq<byte>, epoch: u64, members: seq<u32>, sender: u32,
                               arrivals: seq<Arrival>)
    requires Sound(c) && sender in members && Schedule(sender, arrivals)
    ensures Outcomes(c, secret, sender, InitialKeys(c, secret, epoch, members), arrivals)
            == Expected(epoch, 0, arrivals)
  {
    DeliveryUnderAnySchedule(c, secret, sender, InitialKeys(c, secret, epoch, members), arrivals);
  }

  /** What a refused decryption says: another epoch, an unknown sender, a generation out of reach, the last
      generation, or a message that does not open, or opens only under another generation's key. An unknown
      sender cannot encrypt either. */
  lemma DecryptFailsWith(c: Crypto, s: Keys, m: EncryptedMessage)
    ensures var r := DecryptFrom(c, s, m).1;
            r.Err? ==>
              if m.epoch != s.epoch then r.error == EpochMismatch(s.epoch, m.epoch)
              else if m.sender !in s.ratchets then r.error == UnknownSender(m.sender)
              else if !(s.ratchets[m.sender].generation <= m.generation <= s.ratchets[m.sender].generation + 1000)
                then r.error == RatchetTooFarBehind(s.ratchets[m.sender].generation, m.generation)
              else if m.generation == 0xFFFF_FFFF then r.error == GenerationOverflow(0xFFFF_FFFF)
              else r.error == DecryptionFailed
    ensures m.sender !in s.ratchets ==>
              forall plaintext, random ::
                EncryptAs(c, s, m.sender, plaintext, random) == (s, Err(UnknownSender(m.sender)))
    ensures forall k: MessageKey :: k.generation != m.generation ==> DecryptMessage(c, m, k) == Err(DecryptionFailed)
  {
  }

  // ---------------------------------------------------------------------------------------------
  // Key use

  /** A successful operation: whose ratchet, which generation, and the nonce if it encrypted. */
  datatype Use = Use(sender: u32, generation: u32, nonce: Option<seq<byte>>)

  function UsesOf(c: Crypto, s: Keys, op: Operation): seq<Use> {
    match op
    case Encrypts(sender, plaintext, random) =>
      var m := EncryptAs(c, s, sender, plaintext, random).1;
      if m.Ok? then [Use(sender, m.value.generation, Some(m.value.nonce))] else []
    case Decrypts(m) =>
      if DecryptFrom(c, s, m).1.Ok? then [Use(m.sender, m.generation, None)] else []
  }

  function Trace(c: Crypto, s: Keys, ops: seq<Operation>): seq<Use>
    decreases |ops|
  {
    if ops == [] then [] else UsesOf(c, s, ops[0]) + Trace(c, Applied(c, s, ops[0]), ops[1..])
  }

  predicate AtLeast(s: Keys, u: Use) {
    u.sender in s.ratchets && s.ratchets[u.sender].generation <= u.generation
  }

  predicate NonceOfUse(epoch: u64, u: Use) {
    u.nonce.Some? ==> |u.nonce.value| >= 16
                      && u.nonce.value[..16] == Nonce(epoch, u.sender, u.generation, [])[..16]
  }

  /** Later uses of the same sender's ratchet are at later generations. */
  predicate Increasing(uses: seq<Use>) {
    forall i, j :: 0 <= i < j < |uses| && uses[i].sender == uses[j].sender ==> uses[i].generation < uses[j].generation
  }

  /** One operation uses at most one generation, the ratchet then stands past it. */
  lemma UsePasses(c: Crypto, s: Keys, op: Operation)
    ensures var s' := Applied(c, s, op);
            && |UsesOf(c, s, op)| <= 1
            && forall u <- UsesOf(c, s, op) ::
                 && AtLeast(s, u) && u.sender in s'.ratchets && u.generation < s'.ratchets[u.sender].generation
                 && NonceOfUse(s.epoch, u)
  {
    if op.Encrypts? && UsesOf(c, s, op) != [] {
      var u := UsesOf(c, s, op)[0];
      assert u.nonce.value[..16] == Nonce(s.epoch, u.sender, u.generation, [])[..16];
    }
  }

  lemma {:induction false} TraceMoves(c: Crypto, s: Keys, ops: seq<Operation>)
    ensures forall u <- Trace(c, s, ops) :: AtLeast(s, u) && NonceOfUse(s.epoch, u)
    ensures Increasing(Trace(c, s, ops))
    decreases |ops|
  {
    if ops != [] {
      var s' := Applied(c, s, ops[0]);
      var here, rest := UsesOf(c, s, ops[0]), Trace(c, s', ops[1..]);
      UsePasses(c, s, ops[0]);
      OperationTouchesSubject(c, s, ops[0]);
      TraceMoves(c, s', ops[1..]);
      forall u | u in rest ensures AtLeast(s, u) { assert AtLeast(s', u); }
      forall i, j | 0 <= i < j < |here + rest| && (here + rest)[i].sender == (here + rest)[j].sender
        ensures (here + rest)[i].generation < (here + rest)[j].generation
      {
        if i < |here| {
          assert (here + rest)[i] in here && (here + rest)[j] == rest[j - |here|];
          assert AtLeast(s', rest[j - |here|]);
        }
      }
    }
  }

  /** Over any interleaving of encryptions and decryptions on one store, forged messages included,
      no sender's generation is used twice, and no two nonces agree in their first 16 bytes,
      whatever the random suffixes. */
  lemma NoReuse(c: Crypto, s: Keys, ops: seq<Operation>, i: nat, j: nat)
    requires i < j < |Trace(c, s, ops)|
    ensures var u, v := Trace(c, s, ops)[i], Trace(c, s, ops)[j];
            && (u.sender, u.generation) != (v.sender, v.generation)
            && (u.sender == v.sender ==> u.generation < v.generation)
            && (u.nonce.Some? && v.nonce.Some? ==>
                  |u.nonce.value| >= 16 && |v.nonce.value| >= 16 && u.nonce.value[..16] != v.nonce.value[..16])
  {
    TraceMoves(c, s, ops);
    var u, v := Trace(c, s, ops)[i], Trace(c, s, ops)[j];
    assert u in Trace(c, s, ops) && v in Trace(c, s, ops);
    NoncePrefixNamesUse(s.epoch, u.sender, u.generation, [], s.epoch, v.sender, v.generation, []);
  }
}
