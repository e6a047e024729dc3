/** `generateRefreshAuthToken`: the hex text of 64 random bytes, delivered
    through a promise. The random source is a parameter describing what the
    call `crypto.randomBytes(64, callback)` does. */
module RefreshToken {
  import opened Wrappers
  import Hex

  const RandomByteCount: nat := 64
  const TokenLength: nat := 2 * RandomByteCount

  datatype Entropy =
    /** The name `crypto` does not denote Node's crypto module (the file never
        imports it), so the call throws `thrown` inside the promise executor. */
    | CryptoUnavailable(thrown: string)
    /** The callback receives an error. */
    | RandomBytesFailed
    /** The callback receives the buffer `buf`. */
    | RandomBytes(buf: seq<Hex.byte>)

  /** The shape of every refresh token: 128 characters from `0-9a-f`. */
  predicate WellFormedToken(t: string) {
    |t| == TokenLength && Hex.IsHexString(t)
  }

  /** The promise as the source writes it: an exception in the executor rejects
      it, a buffer resolves it with its hex text, and an error passed to the
      callback leaves it unsettled, because the `reject()` branch is commented out. */
  function GenerateRefreshAuthToken(e: Entropy): (r: Settled<string>)
    requires e.RandomBytes? ==> |e.buf| == RandomByteCount
    ensures r.Pending? <==> e.RandomBytesFailed?
    ensures e.CryptoUnavailable? ==> r == Rejected(Some(e.thrown))
    ensures e.RandomBytes? ==> r.Resolved? && WellFormedToken(r.value) && Hex.Decode(r.value) == Some(e.buf)
  {
    match e
    case CryptoUnavailable(thrown) => Rejected(Some(thrown))
    case RandomBytesFailed => Pending
    case RandomBytes(buf) =>
      Hex.DecodeEncode(buf);
      Resolved(Hex.Encode(buf))
  }

  /** The promise with the commented-out branch restored: a callback error
      rejects it with no reason, so it always settles. */
  function GenerateRefreshAuthTokenSettled(e: Entropy): (r: Settled<string>)
    requires e.RandomBytes? ==> |e.buf| == RandomByteCount
    ensures !r.Pending?
    ensures e.RandomBytesFailed? ==> r == Rejected(None)
    ensures !e.RandomBytesFailed? ==> r == GenerateRefreshAuthToken(e)
  {
    if e.RandomBytesFailed? then Rejected(None) else GenerateRefreshAuthToken(e)
  }

  /** Two random buffers that differ never give the same token. */
  lemma DistinctBytesDistinctTokens(a: seq<Hex.byte>, b: seq<Hex.byte>)
    requires |a| == RandomByteCount && |b| == RandomByteCount && a != b
    ensures GenerateRefreshAuthToken(RandomBytes(a)) != GenerateRefreshAuthToken(RandomBytes(b))
  {
  }
}
