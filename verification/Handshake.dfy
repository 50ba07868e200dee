/**
  Session-key negotiation (`src/protocol/mod.rs`, `v34.rs`, `v35.rs`) and the cipher cache of `src/device.rs`.
 */
module Handshake {
  import opened Bytes
  import opened Crypto
  import opened Payloads
  import opened Reader

  /** `verify_session_key_response`: the remote nonce, if the device proved that it knows the local key. */
  function VerifyResponse(s: Suite, localNonce: bytes, payload: bytes, localKey: bytes): Result<bytes> {
    if |payload| < 48 then Err(KeyOrVersionError)
    else if payload[16..48] != s.hmac(localKey, localNonce) then Err(EncryptionFailed)
    else Ok(payload[..16])
  }

  function Xor(a: byte, b: byte): byte {
    ((a as bv8) ^ (b as bv8)) as int
  }

  /** The session key before it is encrypted: the nonces combined, the remote one repeated if it is shorter. */
  function MixNonces(local: bytes, remote: bytes): (key: bytes)
    requires remote != []
    ensures |key| == |local|
  {
    seq(|local|, i requires 0 <= i < |local| => Xor(local[i], remote[i % |remote|]))
  }

  method FinalizeSessionKey(s: Suite, local: bytes, remote: bytes, localKey: bytes) returns (key: bytes, finish: bytes)
    requires remote != []
    ensures key == MixNonces(local, remote) && finish == s.hmac(localKey, remote)
  {
    finish := s.hmac(localKey, remote);
    key := [];
    for i := 0 to |local|
      invariant key == MixNonces(local, remote)[..i]
    {
      key := key + [Xor(local[i], remote[i % |remote|])];
    }
  }

  lemma XorCommutes(a: byte, b: byte)
    ensures Xor(a, b) == Xor(b, a)
  {
    assert (a as bv8) ^ (b as bv8) == (b as bv8) ^ (a as bv8);
  }

  lemma ModOfSmall(i: nat, n: nat)
    requires i < n
    ensures i % n == i
  {
  }

  /** A device that mixes the same two nonces the other way round arrives at the same key. */
  lemma BothSidesMixAlike(a: bytes, b: bytes)
    requires |a| == |b| && a != []
    ensures MixNonces(a, b) == MixNonces(b, a)
  {
    forall i | 0 <= i < |a| ensures MixNonces(a, b)[i] == MixNonces(b, a)[i] {
      ModOfSmall(i, |a|);
      XorCommutes(a[i], b[i]);
    }
  }

  function EncryptSessionKey(s: Suite, p: Protocol, key: bytes, cipher: Key, nonce: bytes): Result<bytes> {
    if p.base == V35 then
      if |nonce| < 12 then Crash
      else
        var encrypted := Encrypt(s, cipher, key, false, Some(nonce[..12]), None, false);
        if !encrypted.Ok? then encrypted
        else if |encrypted.value| < 28 then Crash
        else Ok(encrypted.value[12..28])
    else Encrypt(s, cipher, key, false, None, None, false)
  }

  /** A completed handshake: the session key, and the proof sent back to the device. */
  datatype Agreement = Agreement(sessionKey: bytes, finish: bytes)

  /**
    What the client concludes from the delivery that answers its first message; `None` is a read that found no frame.
   */
  function Conclude(s: Suite, p: Protocol, localKey: bytes, localNonce: bytes,
          reply: Option<Delivery>): Result<Agreement> {
    if reply.None? then Err(HandshakeFailed)
    else if !reply.value.Plain? || reply.value.msg.cmd != SESS_KEY_NEG_RESP then Err(KeyOrVersionError)
    else
      var remote :- VerifyResponse(s, localNonce, reply.value.msg.payload, localKey);
      var cipher :- NewCipher(localKey);
      if remote == [] then Crash
      else
        var key :- EncryptSessionKey(s, p, MixNonces(localNonce, remote), cipher, localNonce);
        Ok(Agreement(key, s.hmac(localKey, remote)))
  }

  /** The sixteen bytes of two nonces, combined bit by bit. */
  function Combined(a: bytes, b: bytes): bytes
    requires |a| == |b| == 16
  {
    seq(16, i requires 0 <= i < 16 => ((a[i] as bv8) ^ (b[i] as bv8)) as int)
  }

  /**
    The key the two sides share: the combined nonces under AES in v3.4, and in v3.5 the sixteen bytes they are sealed to
    by GCM under the first twelve bytes of the client's nonce, with nothing authenticated beside them.
   */
  predicate IsSessionKey(s: Suite, v35: bool, localKey: bytes, nonce: bytes, remote: bytes, key: bytes)
    requires |nonce| == |remote| == 16
  {
    var combined := Combined(nonce, remote);
    && |key| == 16
    && if v35 then key <= s.gcmSeal(localKey, nonce[..12], [], combined) else key == s.aes(localKey, combined)
  }

  /** The delivery is a negotiation response with the device's nonce and the HMAC of ours under the local key. */
  predicate IsProof(s: Suite, localKey: bytes, nonce: bytes, reply: Option<Delivery>) {
    && reply.Some? && reply.value.Plain? && reply.value.msg.cmd == 0x04
    && |reply.value.msg.payload| >= 48 && reply.value.msg.payload[16..48] == s.hmac(localKey, nonce)
  }

  lemma MixIsCombined(a: bytes, b: bytes)
    requires |a| == |b| == 16
    ensures MixNonces(a, b) == Combined(a, b)
  {
    forall i | 0 <= i < 16 ensures MixNonces(a, b)[i] == Combined(a, b)[i] {
      ModOfSmall(i, 16);
    }
  }

  lemma EncryptedIsSessionKey(s: Suite, p: Protocol, localKey: Key, nonce: bytes, remote: bytes)
    requires s.Lawful() && RequiresSessionKey(p) && |nonce| == |remote| == 16
    ensures var key := EncryptSessionKey(s, p, MixNonces(nonce, remote), localKey, nonce);
            key.Ok? && IsSessionKey(s, p.base == V35, localKey, nonce, remote, key.value)
  {
    var mixed := MixNonces(nonce, remote);
    MixIsCombined(nonce, remote);
    if p.base == V35 {
      var body := s.gcmSeal(localKey, nonce[..12], [], mixed);
      assert nonce[..12][..12] == nonce[..12];
      assert (nonce[..12] + body)[12..28] == body[..16];
    } else {
      UnpaddedExactly(s, localKey, mixed, 0);
      var c := Encrypt(s, localKey, mixed, false, None, None, false).value;
      assert c[0..16] == c && mixed[0..16] == mixed;
    }
  }

  /**
    The client agrees exactly when the reply is a negotiation response of at least 48 bytes that carries the HMAC of the
    client's own nonce under the local key; it then holds the session key of the two nonces, and signs the device's.
   */
  lemma AgreementExactly(s: Suite, p: Protocol, localKey: bytes, localNonce: bytes, reply: Option<Delivery>)
    requires s.Lawful() && RequiresSessionKey(p) && |localNonce| == 16
    ensures var c := Conclude(s, p, localKey, localNonce, reply);
            && !c.Crash?
            && (c.Ok? <==> |localKey| == 16 && IsProof(s, localKey, localNonce, reply))
            && (c.Ok? ==>
                  var remote := reply.value.msg.payload[..16];
                  && IsSessionKey(s, p.base == V35, localKey, localNonce, remote, c.value.sessionKey)
                  && c.value.finish == s.hmac(localKey, remote))
  {
    if reply.Some? && reply.value.Plain? && |reply.value.msg.payload| >= 48 && |localKey| == 16 {
      EncryptedIsSessionKey(s, p, localKey, localNonce, reply.value.msg.payload[..16]);
    }
  }

  /**
    Why a handshake is refused: no frame, no negotiation response, or a response that proves nothing or under no key.
   */
  lemma RefusedExactly(s: Suite, p: Protocol, localKey: bytes, localNonce: bytes, reply: Option<Delivery>)
    requires s.Lawful() && RequiresSessionKey(p) && |localNonce| == 16
    ensures var c := Conclude(s, p, localKey, localNonce, reply);
            && (c == Err(HandshakeFailed) <==> reply.None?)
            && (c == Err(KeyOrVersionError) <==>
                  && reply.Some?
                  && !(reply.value.Plain? && reply.value.msg.cmd == 0x04 && |reply.value.msg.payload| >= 48))
            && (c.Err? ==> c.error in {HandshakeFailed, KeyOrVersionError, EncryptionFailed})
  {
    AgreementExactly(s, p, localKey, localNonce, reply);
  }

  // ---------------------------------------------------------------- the cipher cache

  /** The keys of a device and the cipher it made last. */
  class KeyRing {
    const localKey: bytes
    var sessionKey: Option<bytes>
    var cipher: Option<Key>

    constructor (localKey: bytes)
      ensures this.localKey == localKey && sessionKey == None
    {
      this.localKey := localKey;
      sessionKey := None;
      cipher := if |localKey| == 16 then Some(localKey) else None;
    }

    function CurrentKey(): bytes
      reads this
    {
      if sessionKey.Some? then sessionKey.value else localKey
    }

    /**
      `get_cipher`: whatever was cached before, the cipher is the one a fresh construction under the current key would
      give.
     */
    method GetCipher() returns (r: Result<Key>)
      modifies this`cipher
      ensures r == NewCipher(CurrentKey())
      ensures cipher == if r.Ok? then Some(r.value) else old(cipher)
    {
      var key := if sessionKey.Some? then sessionKey.value else localKey;
      if cipher.Some? && cipher.value == key {
        return Ok(cipher.value);
      }
      var made :- NewCipher(key);
      cipher := Some(made);
      return Ok(made);
    }

    method SetSessionKey(key: bytes)
      modifies this`sessionKey
      ensures CurrentKey() == key && cipher == old(cipher)
    {
      sessionKey := Some(key);
    }

    method ClearSessionKey()
      modifies this`sessionKey
      ensures CurrentKey() == localKey && sessionKey == None && cipher == old(cipher)
    {
      sessionKey := None;
    }
  }
}
