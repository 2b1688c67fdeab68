/** One ratchet per sender, and message encryption under it
    (crates/lockframe-client/src/sender_key_store.rs,
    crates/lockframe-crypto/src/sender_keys/encryption.rs). */
module SenderKeys {
  import opened Wrappers
  import opened Bytes
  import opened Ratchet

  /** The primitives, uninterpreted: HKDF for seeds, HMAC for the chain, the AEAD. */
  datatype Crypto = Crypto(seed: (seq<byte>, u64, u32) -> Key, kdf: Kdf,
                           seal: (Key, seq<byte>, seq<byte>) -> seq<byte>,
                           open: (Key, seq<byte>, seq<byte>) -> Option<seq<byte>>)

  /** All that is asked of the AEAD: decryption undoes encryption. */
  ghost predicate Sound(c: Crypto) {
    forall key, nonce, plaintext :: c.open(key, nonce, c.seal(key, nonce, plaintext)) == Some(plaintext)
  }

  datatype EncryptedMessage = EncryptedMessage(epoch: u64, sender: u32, generation: u32,
                                               nonce: seq<byte>, ciphertext: seq<byte>)

  /** Epoch, sender and generation in big-endian, then the caller's random bytes. */
  function Nonce(epoch: u64, sender: u32, generation: u32, random: seq<byte>): seq<byte> {
    ToBe(epoch, 8) + ToBe(sender, 4) + ToBe(generation, 4) + random
  }

  /** The first 16 bytes of a nonce name the epoch, the sender and the generation, whatever the random
      suffix, which is the rest. */
  lemma NoncePrefixNamesUse(e: u64, s: u32, g: u32, r: seq<byte>, d: u64, t: u32, h: u32, q: seq<byte>)
    ensures Nonce(e, s, g, r)[..16] == Nonce(d, t, h, q)[..16] <==> e == d && s == t && g == h
    ensures Nonce(e, s, g, r)[16..] == r
  {
    var p, p' := Nonce(e, s, g, r)[..16], Nonce(d, t, h, q)[..16];
    assert p[..8] == ToBe(e, 8) && p'[..8] == ToBe(d, 8);
    assert p[8..12] == ToBe(s, 4) && p'[8..12] == ToBe(t, 4);
    assert p[12..16] == ToBe(g, 4) && p'[12..16] == ToBe(h, 4);
    assert p == ToBe(e, 8) + ToBe(s, 4) + ToBe(g, 4);
    assert p' == ToBe(d, 8) + ToBe(t, 4) + ToBe(h, 4);
    Widths();
    if p == p' {
      ToBeInjective(e, d, 8);
      ToBeInjective(s, t, 4);
      ToBeInjective(g, h, 4);
    }
  }

  /** `build_nonce` as written: four slice copies into a zeroed array. */
  method BuildNonce(epoch: u64, sender: u32, generation: u32, random: seq<byte>) returns (nonce: array<byte>)
    requires |random| == 8
    ensures fresh(nonce) && nonce[..] == Nonce(epoch, sender, generation, random)
  {
    nonce := new byte[24](_ => 0);
    var e, s, g := ToBe(epoch, 8), ToBe(sender, 4), ToBe(generation, 4);
    forall i | 0 <= i < 8 { nonce[i] := e[i]; }
    forall i | 8 <= i < 12 { nonce[i] := s[i - 8]; }
    forall i | 12 <= i < 16 { nonce[i] := g[i - 12]; }
    forall i | 16 <= i < 24 { nonce[i] := random[i - 16]; }
  }

  function EncryptMessage(c: Crypto, plaintext: seq<byte>, k: MessageKey, epoch: u64, sender: u32, random: seq<byte>)
    : EncryptedMessage
  {
    var nonce := Nonce(epoch, sender, k.generation, random);
    EncryptedMessage(epoch, sender, k.generation, nonce, c.seal(k.key, nonce, plaintext))
  }

  function DecryptMessage(c: Crypto, m: EncryptedMessage, k: MessageKey): Result<seq<byte>, SenderKeyError> {
    if k.generation != m.generation then Err(DecryptionFailed)
    else
      match c.open(k.key, m.nonce, m.ciphertext)
      case None => Err(DecryptionFailed)
      case Some(plaintext) => Ok(plaintext)
  }

  datatype Keys = Keys(epoch: u64, ratchets: map<u32, RatchetState>)

  function InitialKeys(c: Crypto, secret: seq<byte>, epoch: u64, members: seq<u32>): Keys {
    Keys(epoch, map i | i in members :: RatchetState(c.seed(secret, epoch, i), 0))
  }

  function EncryptAs(c: Crypto, s: Keys, sender: u32, plaintext: seq<byte>, random: seq<byte>)
    : (Keys, Result<EncryptedMessage, SenderKeyError>)
  {
    if sender !in s.ratchets then (s, Err(UnknownSender(sender)))
    else
      var (r, k) := Advanced(c.kdf, s.ratchets[sender]);
      (s.(ratchets := s.ratchets[sender := r]),
       if k.Err? then Err(k.error) else Ok(EncryptMessage(c, plaintext, k.value, s.epoch, sender, random)))
  }

  function DecryptFrom(c: Crypto, s: Keys, m: EncryptedMessage): (Keys, Result<seq<byte>, SenderKeyError>) {
    if m.epoch != s.epoch then (s, Err(EpochMismatch(s.epoch, m.epoch)))
    else if m.sender !in s.ratchets then (s, Err(UnknownSender(m.sender)))
    else
      var (r, k) := AdvancedTo(c.kdf, s.ratchets[m.sender], m.generation);
      (s.(ratchets := s.ratchets[m.sender := r]),
       if k.Err? then Err(k.error) else DecryptMessage(c, m, k.value))
  }

  class SenderKeyStore {
    const crypto: Crypto
    const epoch: u64
    var ratchets: map<u32, SymmetricRatchet>

    /** Each sender's ratchet is its own object, under the store's key derivation. */
    ghost predicate Valid()
      reads this, ratchets.Values
    {
      && (forall i <- ratchets.Keys :: ratchets[i].kdf == crypto.kdf)
      && (forall i, j :: i in ratchets && j in ratchets && i != j ==> ratchets[i] != ratchets[j])
    }

    ghost function View(): Keys
      reads this, ratchets.Values
    {
      Keys(epoch, map i | i in ratchets :: ratchets[i].View())
    }

    /** `initialize_epoch`: the loop over the members, a repeated one simply replaced. */
    constructor (crypto: Crypto, secret: seq<byte>, epoch: u64, members: seq<u32>)
      ensures Valid() && View() == InitialKeys(crypto, secret, epoch, members)
      ensures this.crypto == crypto && this.epoch == epoch && fresh(ratchets.Values)
    {
      this.crypto, this.epoch, ratchets := crypto, epoch, map[];
      new;
      for k := 0 to |members|
        invariant forall i <- ratchets.Keys :: fresh(ratchets[i])
        invariant Valid()
        invariant ratchets.Keys == set i | i in members[..k]
        invariant forall i <- ratchets.Keys :: ratchets[i].View() == RatchetState(crypto.seed(secret, epoch, i), 0)
      {
        var ratchet := new SymmetricRatchet(crypto.kdf, crypto.seed(secret, epoch, members[k]));
        ratchets := ratchets[members[k] := ratchet];
        assert members[..k + 1] == members[..k] + [members[k]];
      }
      assert members[..|members|] == members;
    }

    method Encrypt(sender: u32, plaintext: seq<byte>, random: seq<byte>)
      returns (m: Result<EncryptedMessage, SenderKeyError>)
      requires Valid()
      modifies ratchets.Values
      ensures Valid() && (View(), m) == EncryptAs(crypto, old(View()), sender, plaintext, random)
    {
      if sender !in ratchets { return Err(UnknownSender(sender)); }
      var k := ratchets[sender].Advance();
      assert View().ratchets == old(View()).ratchets[sender := ratchets[sender].View()];
      if k.Err? { return Err(k.error); }
      return Ok(EncryptMessage(crypto, plaintext, k.value, epoch, sender, random));
    }

    method Decrypt(m: EncryptedMessage) returns (plaintext: Result<seq<byte>, SenderKeyError>)
      requires Valid()
      modifies ratchets.Values
      ensures Valid() && (View(), plaintext) == DecryptFrom(crypto, old(View()), m)
    {
      if m.epoch != epoch { return Err(EpochMismatch(epoch, m.epoch)); }
      if m.sender !in ratchets { return Err(UnknownSender(m.sender)); }
      var k, _ := ratchets[m.sender].AdvanceTo(m.generation);
      assert View().ratchets == old(View()).ratchets[m.sender := ratchets[m.sender].View()];
      if k.Err? { return Err(k.error); }
      plaintext := DecryptMessage(crypto, m, k.value);
    }
  }
}
