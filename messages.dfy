/**
 * The byte strings the wallet owner signs. Their layout is a wire contract:
 * an owner's client builds the same bytes and signs them, so each builder
 * comes with its decoder, and the lemmas below show the layout carries
 * every field unambiguously.
 */
module Messages {
  import opened Wrappers
  import opened Bytes
  import opened Solana

  /** The nonce a message ends with: its last eight bytes, little-endian. */
  function SignedNonce(m: ByteString): U64
    requires |m| >= 8
  {
    LeToU64(m[|m| - 8..])
  }

  /** The withdraw message: `amount.to_le_bytes()` then `nonce.to_le_bytes()`. */
  function WithdrawMessage(amount: U64, nonce: U64): (m: ByteString)
    ensures |m| == 16
    ensures LeValue(m[..8]) == amount
    ensures LeValue(m[8..]) == nonce && SignedNonce(m) == nonce
  {
    var a, n := U64ToLe(amount), U64ToLe(nonce);
    assert (a + n)[..8] == a && (a + n)[8..] == n;
    a + n
  }

  /** Reads (amount, nonce) back from a withdraw message. */
  function ParseWithdrawMessage(m: ByteString): (r: Option<(U64, U64)>)
    ensures r.Some? <==> |m| == 16
    ensures r.Some? ==> WithdrawMessage(r.value.0, r.value.1) == m
  {
    if |m| != 16 then None
    else
      var amount, nonce := LeToU64(m[..8]), LeToU64(m[8..]);
      assert m == m[..8] + m[8..];
      Some((amount, nonce))
  }

  lemma WithdrawMessageRoundTrip(amount: U64, nonce: U64)
    ensures ParseWithdrawMessage(WithdrawMessage(amount, nonce)) == Some((amount, nonce))
  {
  }

  lemma WithdrawMessageInjective(a1: U64, n1: U64, a2: U64, n2: U64)
    ensures WithdrawMessage(a1, n1) == WithdrawMessage(a2, n2) <==> a1 == a2 && n1 == n2
  {
  }

  /**
   * The external-call message: the 32 bytes of the target program id, the
   * instruction data as given, then `nonce.to_le_bytes()`.
   */
  function ExternalCallMessage(programId: Pubkey, data: ByteString, nonce: U64): (m: ByteString)
    ensures |m| == 32 + |data| + 8
    ensures m[..32] == programId
    ensures m[32..|m| - 8] == data
    ensures LeValue(m[|m| - 8..]) == nonce && SignedNonce(m) == nonce
  {
    var n := U64ToLe(nonce);
    var m := programId + data + n;
    assert m[..32] == programId && m[32..|m| - 8] == data && m[|m| - 8..] == n;
    m
  }

  /**
   * Reads (program id, instruction data, nonce) back from an external-call
   * message. The id and the nonce have fixed widths, so the length of the
   * message fixes the length of the data.
   */
  function ParseExternalCallMessage(m: ByteString): (r: Option<(Pubkey, ByteString, U64)>)
    ensures r.Some? <==> |m| >= 40
    ensures r.Some? ==> ExternalCallMessage(r.value.0, r.value.1, r.value.2) == m
  {
    if |m| < 40 then None
    else
      var programId: Pubkey, data, nonce := m[..32], m[32..|m| - 8], LeToU64(m[|m| - 8..]);
      assert m == m[..32] + m[32..|m| - 8] + m[|m| - 8..];
      Some((programId, data, nonce))
  }

  lemma ExternalCallMessageRoundTrip(programId: Pubkey, data: ByteString, nonce: U64)
    ensures ParseExternalCallMessage(ExternalCallMessage(programId, data, nonce)) == Some((programId, data, nonce))
  {
  }

  lemma ExternalCallMessageInjective(p1: Pubkey, d1: ByteString, n1: U64, p2: Pubkey, d2: ByteString, n2: U64)
    ensures ExternalCallMessage(p1, d1, n1) == ExternalCallMessage(p2, d2, n2)
        <==> p1 == p2 && d1 == d2 && n1 == n2
  {
  }

  /** A withdraw message is never an external-call message, whatever the fields. */
  lemma MessageKindsDisjoint(amount: U64, n1: U64, programId: Pubkey, data: ByteString, n2: U64)
    ensures WithdrawMessage(amount, n1) != ExternalCallMessage(programId, data, n2)
  {
  }
}
