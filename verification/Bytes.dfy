/**
  Bytes, 32-bit words in network order, and the result type shared by the model.
 */
module Bytes {
  type byte = x: int | 0 <= x < 256
  type bytes = seq<byte>

  const WORD := 0x1_0000_0000

  type u32 = x: int | 0 <= x < WORD

  datatype Option<+T> = None | Some(value: T)

  /** The failures of `TuyaError` that the modelled code tells apart. */
  datatype Error =
    | Io
    | DecryptionFailed
    | EncryptionFailed
    | InvalidPayload
    | Timeout
    | CrcMismatch
    | HmacMismatch
    | ConnectionFailed
    | InvalidHeader
    | DecodeError
    | Offline
    | HandshakeFailed
    | KeyOrVersionError

  /**
    `Crash` stands for a panic: a slice out of range, also after a length that wrapped, which aborts the release build.
   */
  datatype Result<+T> = Ok(value: T) | Err(error: Error) | Crash
  {
    predicate IsFailure() {
      !Ok?
    }

    function PropagateFailure<U>(): (r: Result<U>)
      requires !Ok?
    {
      if Err? then Err(error) else Crash
    }

    function Extract(): T
      requires Ok?
    {
      value
    }
  }

  /** A word as four bytes, most significant first. */
  function BE32(n: u32): (b: bytes)
    ensures |b| == 4
  {
    [n / 256 / 256 / 256, n / 256 / 256 % 256, n / 256 % 256, n % 256]
  }

  /** The word in the first four bytes. */
  function Read32(b: bytes): u32
    requires |b| >= 4
  {
    ((b[0] as int * 256 + b[1]) * 256 + b[2]) * 256 + b[3]
  }

  lemma ReadOfWritten(n: u32, rest: bytes)
    ensures Read32(BE32(n) + rest) == n
  {
  }

  lemma WrittenOfRead(b: bytes)
    requires |b| == 4
    ensures BE32(Read32(b)) == b
  {
    var n := Read32(b);
    assert n / 256 == (b[0] as int * 256 + b[1]) * 256 + b[2];
    assert n / 256 / 256 == b[0] as int * 256 + b[1];
    assert n / 256 / 256 / 256 == b[0];
  }

  /** `n` copies of one byte. */
  function Repeat(b: byte, n: nat): (r: bytes)
    ensures |r| == n
  {
    seq(n, _ => b)
  }

  predicate StartsWith(b: bytes, p: bytes) {
    |p| <= |b| && b[..|p|] == p
  }

  predicate OccursAt(b: bytes, p: bytes, i: int) {
    0 <= i <= |b| - |p| && b[i..i + |p|] == p
  }

  predicate Contains(b: bytes, p: bytes) {
    exists i | 0 <= i <= |b| :: OccursAt(b, p, i)
  }
}
