/**
  The cipher of `src/crypto.rs`: padding, the block loops over a buffer, and the GCM branch.

  The primitives themselves (AES, GCM, HMAC, CRC-32, Base64, MD5) are functions of a `Suite`;
  what the proofs need of them is collected in `Suite.Lawful`.
 */
module Crypto {
  import opened Bytes

  type Key = k: bytes | |k| == 16 witness Repeat(0, 16)

  datatype Suite = Suite(
    aes: (bytes, bytes) -> bytes,
    aesInverse: (bytes, bytes) -> bytes,
    gcmSeal: (bytes, bytes, bytes, bytes) -> bytes,
    gcmOpen: (bytes, bytes, bytes, bytes) -> Option<bytes>,
    hmac: (bytes, bytes) -> bytes,
    crc: bytes -> u32,
    base64: bytes -> bytes,
    unbase64: bytes -> Option<bytes>,
    md5hex: bytes -> bytes)
  {
    /** AES under one key is a permutation of the 16-byte blocks (section 6.1 of NIST SP 800-38A). */
    ghost predicate BlockLaw() {
      && (forall k: bytes, b: bytes | |k| == 16 && |b| == 16 :: |aes(k, b)| == 16)
      && (forall k: bytes, b: bytes | |k| == 16 && |b| == 16 :: |aesInverse(k, b)| == 16)
      && (forall k: bytes, b: bytes {:trigger aesInverse(k, aes(k, b))} | |k| == 16 && |b| == 16 ::
           aesInverse(k, aes(k, b)) == b)
      && (forall k: bytes, b: bytes {:trigger aes(k, aesInverse(k, b))} | |k| == 16 && |b| == 16 ::
           aes(k, aesInverse(k, b)) == b)
    }

    /** GCM appends a 16-byte tag and opening undoes sealing (section 7 of NIST SP 800-38D). */
    ghost predicate GcmLaw() {
      forall k: bytes, n: bytes, a: bytes, p: bytes ::
        |gcmSeal(k, n, a, p)| == |p| + 16 && gcmOpen(k, n, a, gcmSeal(k, n, a, p)) == Some(p)
    }

    /** HMAC-SHA-256 gives 32 bytes (section 2 of RFC 2104); MD5 is printed as 32 hexadecimal digits. */
    ghost predicate DigestLaw() {
      && (forall k: bytes, m: bytes :: |hmac(k, m)| == 32)
      && (forall m: bytes :: |md5hex(m)| == 32)
    }

    /** Base64 decodes what it encoded, and decoding never lengthens (section 4 of RFC 4648). */
    ghost predicate Base64Law() {
      && (forall b: bytes :: unbase64(base64(b)) == Some(b))
      && (forall t: bytes :: unbase64(t).Some? ==> |unbase64(t).value| <= |t|)
    }

    ghost predicate Lawful() {
      BlockLaw() && GcmLaw() && DigestLaw() && Base64Law()
    }
  }

  /** A suite with transparent primitives. */
  function PlainSuite(): Suite {
    Suite(
      (k, b) => b,
      (k, b) => b,
      (k, n, a, p) => p + Repeat(0, 16),
      (k, n, a, c) => if |c| >= 16 then Some(c[..|c| - 16]) else None,
      (k, m) => Repeat(0, 32),
      m => 0,
      b => b,
      t => Some(t),
      m => Repeat(0x30, 32))
  }

  /** The laws do not contradict each other. */
  lemma LawsAreSatisfiable()
    ensures PlainSuite().Lawful()
  {
    var s := PlainSuite();
    forall k: bytes, n: bytes, a: bytes, p: bytes
      ensures |s.gcmSeal(k, n, a, p)| == |p| + 16 && s.gcmOpen(k, n, a, s.gcmSeal(k, n, a, p)) == Some(p)
    {
      assert (p + Repeat(0, 16))[..|p|] == p;
    }
  }

  function NewCipher(key: bytes): Result<Key> {
    if |key| != 16 then Err(EncryptionFailed) else Ok(key)
  }

  // ---------------------------------------------------------------- block loops

  function Block(s: Suite, key: Key, forward: bool, b: bytes): bytes {
    if forward then s.aes(key, b) else s.aesInverse(key, b)
  }

  /** Every 16-byte block of `data` sent through the cipher. */
  function Blocks(s: Suite, key: Key, forward: bool, data: bytes): bytes
    requires |data| % 16 == 0
  {
    if data == [] then [] else Block(s, key, forward, data[..16]) + Blocks(s, key, forward, data[16..])
  }

  lemma {:induction false} BlocksLength(s: Suite, key: Key, forward: bool, data: bytes)
    requires s.Lawful() && |data| % 16 == 0
    ensures |Blocks(s, key, forward, data)| == |data|
  {
    if data != [] {
      BlocksLength(s, key, forward, data[16..]);
      assert |Block(s, key, forward, data[..16])| == 16;
    }
  }

  lemma {:induction false} BlocksAppend(s: Suite, key: Key, forward: bool, a: bytes, b: bytes)
    requires |a| % 16 == 0 && |b| % 16 == 0
    ensures Blocks(s, key, forward, a + b) == Blocks(s, key, forward, a) + Blocks(s, key, forward, b)
  {
    if a == [] {
      assert a + b == b;
    } else {
      assert (a + b)[..16] == a[..16] && (a + b)[16..] == a[16..] + b;
      BlocksAppend(s, key, forward, a[16..], b);
    }
  }

  lemma BlockInverse(s: Suite, key: Key, forward: bool, b: bytes)
    requires s.Lawful() && |b| == 16
    ensures |Block(s, key, forward, b)| == 16
    ensures Block(s, key, !forward, Block(s, key, forward, b)) == b
  {
  }

  /** One block in front. */
  lemma BlocksCons(s: Suite, key: Key, forward: bool, b: bytes, rest: bytes)
    requires |b| == 16 && |rest| % 16 == 0
    ensures Blocks(s, key, forward, b + rest) == Block(s, key, forward, b) + Blocks(s, key, forward, rest)
  {
    assert (b + rest)[..16] == b && (b + rest)[16..] == rest;
  }

  lemma {:induction false} BlocksInverse(s: Suite, key: Key, forward: bool, data: bytes)
    requires s.Lawful() && |data| % 16 == 0
    ensures |Blocks(s, key, forward, data)| == |data|
    ensures Blocks(s, key, !forward, Blocks(s, key, forward, data)) == data
  {
    if data != [] {
      var head, tail := data[..16], data[16..];
      var first, rest := Block(s, key, forward, head), Blocks(s, key, forward, tail);
      BlockInverse(s, key, forward, head);
      BlocksInverse(s, key, forward, tail);
      assert Blocks(s, key, forward, data) == first + rest;
      BlocksCons(s, key, !forward, first, rest);
      assert data == head + tail;
    }
  }

  lemma BlocksSnoc(s: Suite, key: Key, forward: bool, data: bytes, i: nat)
    requires i % 16 == 0 && i + 16 <= |data|
    ensures Blocks(s, key, forward, data[..i + 16])
            == Blocks(s, key, forward, data[..i]) + Block(s, key, forward, data[i..i + 16])
  {
    var chunk := data[i..i + 16];
    assert data[..i + 16] == data[..i] + chunk;
    BlocksAppend(s, key, forward, data[..i], chunk);
    BlocksCons(s, key, forward, chunk, []);
    assert chunk + [] == chunk;
  }

  lemma NextChunk(done: bytes, was: bytes, i: nat)
    requires |done| == i && i + 16 <= |was|
    ensures (done + was[i..])[i..i + 16] == was[i..i + 16]
    ensures (done + was[i..])[..i] == done && (done + was[i..])[i + 16..] == was[i + 16..]
  {
  }

  /** One round of the loop: the chunk at `i` is replaced by its image. */
  method TransformChunk(s: Suite, key: Key, forward: bool, buffer: array<byte>, i: nat)
    requires s.Lawful() && i + 16 <= buffer.Length
    modifies buffer
    ensures buffer[..] == old(buffer[..i]) + Block(s, key, forward, old(buffer[i..i + 16])) + old(buffer[i + 16..])
  {
    var chunk := buffer[i..i + 16];
    var block := Block(s, key, forward, chunk);
    BlockInverse(s, key, forward, chunk);
    forall j | 0 <= j < 16 {
      buffer[i + j] := block[j];
    }
  }

  /** The buffer with one more chunk transformed. */
  lemma ChunkIsDone(s: Suite, key: Key, forward: bool, was: bytes, now: bytes, i: nat)
    requires s.Lawful() && i % 16 == 0 && i + 16 <= |was| && |Blocks(s, key, forward, was[..i])| == i
    requires now == Blocks(s, key, forward, was[..i]) + was[i..]
    ensures |Blocks(s, key, forward, was[..i + 16])| == i + 16
    ensures now[..i] + Block(s, key, forward, now[i..i + 16]) + now[i + 16..]
            == Blocks(s, key, forward, was[..i + 16]) + was[i + 16..]
  {
    NextChunk(Blocks(s, key, forward, was[..i]), was, i);
    BlocksSnoc(s, key, forward, was, i);
    BlocksLength(s, key, forward, was[..i + 16]);
  }

  lemma NextMultiple(i: nat, n: nat)
    requires i % 16 == 0 && n % 16 == 0 && i < n
    ensures i + 16 <= n && (i + 16) % 16 == 0
  {
  }

  /** The in-place loop over `chunks_mut(16)`. */
  method TransformBlocks(s: Suite, key: Key, forward: bool, buffer: array<byte>)
    requires s.Lawful() && buffer.Length % 16 == 0
    modifies buffer
    ensures buffer[..] == Blocks(s, key, forward, old(buffer[..]))
  {
    ghost var was := buffer[..];
    var i := 0;
    while i < buffer.Length
      invariant i <= buffer.Length && i % 16 == 0 && |Blocks(s, key, forward, was[..i])| == i
      invariant buffer[..] == Blocks(s, key, forward, was[..i]) + was[i..]
    {
      NextMultiple(i, buffer.Length);
      ghost var now := buffer[..];
      assert buffer[i..i + 16] == now[i..i + 16];
      assert buffer[..i] == now[..i] && buffer[i + 16..] == now[i + 16..];
      ChunkIsDone(s, key, forward, was, now, i);
      TransformChunk(s, key, forward, buffer, i);
      i := i + 16;
    }
    assert was[..i] == was;
  }

  // ---------------------------------------------------------------- padding

  function PadLength(n: nat): (k: nat)
    ensures 1 <= k <= 16 && (n + k) % 16 == 0
  {
    16 - n % 16
  }

  /** Padding as in section 6.3 of RFC 5652: a full block when the data is already aligned. */
  function Pad(data: bytes): (p: bytes)
    ensures |p| % 16 == 0 && |data| < |p| <= |data| + 16
  {
    data + Repeat(PadLength(|data|), PadLength(|data|))
  }

  method PadBuffer(data: bytes) returns (p: bytes)
    ensures p == Pad(data)
  {
    var remainder := |data| % 16;
    var padding := 16 - remainder;
    p := data;
    for i := 0 to padding
      invariant p == data + Repeat(padding, i)
    {
      p := p + [padding];
      assert Repeat(padding, i) + [padding] == Repeat(padding, i + 1);
    }
  }

  function Unpad(p: bytes): Result<bytes>
    requires p != []
  {
    var n := p[|p| - 1];
    if n == 0 || n > 16 || n > |p| || p[|p| - n..] != Repeat(n, n) then Err(DecryptionFailed)
    else Ok(p[..|p| - n])
  }

  method UnpadBuffer(p: bytes) returns (r: Result<bytes>)
    requires p != []
    ensures r == Unpad(p)
  {
    var n := p[|p| - 1];
    if n == 0 || n > 16 || n > |p| {
      return Err(DecryptionFailed);
    }
    for i := 0 to n
      invariant p[|p| - i..] == Repeat(n, i)
    {
      if p[|p| - 1 - i] != n {
        assert p[|p| - n..][n - 1 - i] != Repeat(n, n)[n - 1 - i];
        return Err(DecryptionFailed);
      }
      assert p[|p| - 1 - i..] == [n] + p[|p| - i..];
    }
    return Ok(p[..|p| - n]);
  }

  lemma PadLengthUnique(n: nat, k: nat)
    requires 1 <= k <= 16 && (n + k) % 16 == 0
    ensures PadLength(n) == k
  {
  }

  /** On whole blocks, unpadding accepts exactly the padded strings and gives back what was padded. */
  lemma UnpadIsExact(p: bytes, d: bytes)
    requires p != [] && |p| % 16 == 0
    ensures Unpad(p) == Ok(d) <==> p == Pad(d)
  {
    if p == Pad(d) {
      var n := PadLength(|d|);
      assert p[|p| - n..] == Repeat(n, n) && p[..|p| - n] == d;
      assert p[|p| - 1] == n;
    }
    if Unpad(p) == Ok(d) {
      var n := p[|p| - 1];
      assert d == p[..|p| - n] && |d| == |p| - n;
      PadLengthUnique(|d|, n);
      assert p == p[..|p| - n] + p[|p| - n..];
    }
  }

  // ---------------------------------------------------------------- TuyaCipher::encrypt and decrypt

  function Encrypt(s: Suite, key: Key, data: bytes, useBase64: bool, iv: Option<bytes>, aad: Option<bytes>,
          padding: bool): Result<bytes>
  {
    var raw :-
      if iv.Some? then
        if |iv.value| < 12 then Crash
        else Ok(iv.value + s.gcmSeal(key, iv.value[..12], if aad.Some? then aad.value else [], data))
      else if padding then Ok(Blocks(s, key, true, Pad(data)))
      else if |data| % 16 != 0 then Err(EncryptionFailed)
      else Ok(Blocks(s, key, true, data));
    Ok(if useBase64 then s.base64(raw) else raw)
  }

  function Decrypt(s: Suite, key: Key, data: bytes, useBase64: bool, iv: Option<bytes>,
          aad: Option<bytes>): Result<bytes>
  {
    var input :- if !useBase64 then Ok(data)
                 else if s.unbase64(data).Some? then Ok(s.unbase64(data).value)
                 else Err(DecryptionFailed);
    if iv.Some? then
      if |iv.value| < 12 then Crash
      else
        var plain := s.gcmOpen(key, iv.value[..12], if aad.Some? then aad.value else [], input);
        if plain.Some? then Ok(plain.value) else Err(DecryptionFailed)
    else if |input| % 16 != 0 then Err(DecryptionFailed)
    else
      var plain := Blocks(s, key, false, input);
      if plain == [] then Ok(plain) else Unpad(plain)
  }

  /** `encrypt` as every ECB payload layer calls it: with padding, without Base64. */
  function EcbSeal(s: Suite, key: Key, data: bytes): bytes {
    Encrypt(s, key, data, false, None, None, true).value
  }

  /** `decrypt` as every ECB payload layer calls it. */
  function EcbOpen(s: Suite, key: Key, data: bytes): Result<bytes> {
    Decrypt(s, key, data, false, None, None)
  }

  method EncryptBuffer(s: Suite, key: Key, data: bytes, useBase64: bool, iv: Option<bytes>, aad: Option<bytes>,
          padding: bool)
    returns (r: Result<bytes>)
    requires s.Lawful()
    ensures r == Encrypt(s, key, data, useBase64, iv, aad, padding)
  {
    var out: bytes;
    if iv.Some? {
      if |iv.value| < 12 {
        return Crash;
      }
      out := iv.value + s.gcmSeal(key, iv.value[..12], if aad.Some? then aad.value else [], data);
    } else {
      var padded := data;
      if padding {
        padded := PadBuffer(data);
      } else if |data| % 16 != 0 {
        return Err(EncryptionFailed);
      }
      var buffer := new byte[|padded|](i requires 0 <= i < |padded| => padded[i]);
      assert buffer[..] == padded;
      TransformBlocks(s, key, true, buffer);
      out := buffer[..];
    }
    if useBase64 {
      out := s.base64(out);
    }
    return Ok(out);
  }

  method DecryptBuffer(s: Suite, key: Key, data: bytes, useBase64: bool, iv: Option<bytes>, aad: Option<bytes>)
    returns (r: Result<bytes>)
    requires s.Lawful()
    ensures r == Decrypt(s, key, data, useBase64, iv, aad)
  {
    var input := data;
    if useBase64 {
      var decoded := s.unbase64(data);
      if decoded.None? {
        return Err(DecryptionFailed);
      }
      input := decoded.value;
    }
    if iv.Some? {
      if |iv.value| < 12 {
        return Crash;
      }
      var plain := s.gcmOpen(key, iv.value[..12], if aad.Some? then aad.value else [], input);
      return if plain.Some? then Ok(plain.value) else Err(DecryptionFailed);
    }
    if |input| % 16 != 0 {
      return Err(DecryptionFailed);
    }
    var buffer := new byte[|input|](i requires 0 <= i < |input| => input[i]);
    assert buffer[..] == input;
    TransformBlocks(s, key, false, buffer);
    var plaintext := buffer[..];
    if plaintext == [] {
      return Ok(plaintext);
    }
    r := UnpadBuffer(plaintext);
  }

  lemma EcbSealLength(s: Suite, key: Key, data: bytes)
    requires s.Lawful()
    ensures |EcbSeal(s, key, data)| == |Pad(data)|
  {
    BlocksLength(s, key, true, Pad(data));
  }

  /** Decryption undoes encryption for every byte string, the empty one and the aligned ones included. */
  lemma EcbOpenUndoesSeal(s: Suite, key: Key, data: bytes)
    requires s.Lawful()
    ensures EcbOpen(s, key, EcbSeal(s, key, data)) == Ok(data)
  {
    BlocksInverse(s, key, true, Pad(data));
    UnpadIsExact(Pad(data), data);
  }

  /** An accepted ciphertext is the encryption of what it decrypts to, the empty ciphertext alone excepted. */
  lemma AcceptedCiphertextIsSealed(s: Suite, key: Key, c: bytes, d: bytes)
    requires s.Lawful() && EcbOpen(s, key, c) == Ok(d)
    ensures EcbSeal(s, key, d) == c <==> c != []
  {
    EcbSealLength(s, key, d);
    BlocksInverse(s, key, false, c);
    if c != [] {
      UnpadIsExact(Blocks(s, key, false, c), d);
    }
  }

  /** What is no encryption of anything is rejected, with this error and without a panic; and nothing else is. */
  lemma RejectedExactly(s: Suite, key: Key, c: bytes)
    requires s.Lawful()
    ensures EcbOpen(s, key, c) == Err(DecryptionFailed) <==> c != [] && forall d :: c != EcbSeal(s, key, d)
    ensures EcbOpen(s, key, c).Ok? || EcbOpen(s, key, c) == Err(DecryptionFailed)
  {
    if EcbOpen(s, key, c).Ok? {
      AcceptedCiphertextIsSealed(s, key, c, EcbOpen(s, key, c).value);
    } else {
      forall d ensures c != EcbSeal(s, key, d) {
        EcbOpenUndoesSeal(s, key, d);
      }
    }
  }

  lemma Further(data: bytes, from: nat)
    requires 16 <= from && from + 16 <= |data|
    ensures data[16..][from - 16..from] == data[from..from + 16]
  {
  }

  lemma {:induction false} BlockAt(s: Suite, key: Key, forward: bool, data: bytes, i: nat)
    requires s.Lawful() && |data| % 16 == 0 && 16 * i + 16 <= |data|
    ensures |Blocks(s, key, forward, data)| == |data|
    ensures Blocks(s, key, forward, data)[16 * i..16 * i + 16] == Block(s, key, forward, data[16 * i..16 * i + 16])
    decreases i
  {
    BlocksLength(s, key, forward, data);
    BlockInverse(s, key, forward, data[..16]);
    if i > 0 {
      BlockAt(s, key, forward, data[16..], i - 1);
      var first, rest := Block(s, key, forward, data[..16]), Blocks(s, key, forward, data[16..]);
      assert (first + rest)[16..] == rest;
      Further(first + rest, 16 * i);
      Further(data, 16 * i);
    } else {
      assert Blocks(s, key, forward, data)[..16] == Block(s, key, forward, data[..16]);
    }
  }

  /**
    The ciphertext, block by block: the data followed by the one number of bytes from 1 to 16 that fills the last block,
    each holding that number, and every 16 bytes of that sent through AES on their own.
   */
  lemma SealedBlocks(s: Suite, key: Key, data: bytes, k: byte, i: nat)
    requires s.Lawful() && 1 <= k <= 16 && (|data| + k) % 16 == 0 && 16 * i < |data| + k
    ensures var padded := data + seq(k, _ => k);
            && 16 * i + 16 <= |padded| == |EcbSeal(s, key, data)|
            && EcbSeal(s, key, data)[16 * i..16 * i + 16] == s.aes(key, padded[16 * i..16 * i + 16])
  {
    PadLengthUnique(|data|, k);
    assert Pad(data) == data + seq(k, _ => k);
    BlockAt(s, key, true, Pad(data), i);
  }

  /** Decryption undoes encryption in every mode; under GCM the nonce stands in front and is given back apart. */
  lemma DecryptUndoesEncrypt(s: Suite, key: Key, data: bytes, useBase64: bool, aad: Option<bytes>, nonce: bytes)
    requires s.Lawful() && |nonce| == 12
    ensures var sealed := Encrypt(s, key, data, useBase64, None, None, true);
            sealed.Ok? && Decrypt(s, key, sealed.value, useBase64, None, None) == Ok(data)
    ensures var sealed := Encrypt(s, key, data, false, Some(nonce), aad, false);
            && sealed.Ok? && |sealed.value| == 12 + |data| + 16 && sealed.value[..12] == nonce
            && Decrypt(s, key, sealed.value[12..], false, Some(nonce), aad) == Ok(data)
  {
    EcbOpenUndoesSeal(s, key, data);
    assert nonce[..12] == nonce;
    var body := s.gcmSeal(key, nonce, if aad.Some? then aad.value else [], data);
    assert (nonce + body)[12..] == body && (nonce + body)[..12] == nonce;
  }

  /** Without padding a text of whole blocks goes through AES as it is, and any other is refused. */
  lemma UnpaddedExactly(s: Suite, key: Key, data: bytes, i: nat)
    requires s.Lawful()
    ensures Encrypt(s, key, data, false, None, None, false) == Err(EncryptionFailed) <==> |data| % 16 != 0
    ensures |data| % 16 == 0 && 16 * i + 16 <= |data| ==>
              var c := Encrypt(s, key, data, false, None, None, false);
              && c.Ok? && |c.value| == |data|
              && c.value[16 * i..16 * i + 16] == s.aes(key, data[16 * i..16 * i + 16])
  {
    if |data| % 16 == 0 && 16 * i + 16 <= |data| {
      BlockAt(s, key, true, data, i);
    }
  }
}
