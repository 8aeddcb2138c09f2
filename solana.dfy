/**
 * The host runtime's values, as the wallet program sees them: account
 * addresses, signatures, instructions, account metadata, and lamport
 * balances. The runtime itself (loading instructions, invoking programs,
 * moving lamports on its own) is not modelled; where the wallet consumes
 * one of its services, the service is a parameter.
 */
module Solana {
  import opened Bytes

  /** A 32-byte account address or ed25519 public key (`Pubkey`, `[u8; 32]`). */
  type Pubkey = s: ByteString | |s| == 32 witness seq(32, _ => 0)

  /** A 64-byte ed25519 signature (`[u8; 64]`). */
  type Signature = s: ByteString | |s| == 64 witness seq(64, _ => 0)

  /** The all-zero key, which the wallet uses as "no owner yet". */
  const ZERO_PUBKEY: Pubkey := [0, 0, 0, 0, 0, 0, 0, 0, 0, 0, 0, 0, 0, 0, 0, 0, 0, 0, 0, 0, 0, 0, 0, 0, 0, 0, 0, 0, 0, 0, 0, 0]

  /** `AccountMeta`: an account an instruction names, with its two flags. */
  datatype AccountMeta = AccountMeta(pubkey: Pubkey, isSigner: bool, isWritable: bool)

  /** `Instruction`: a target program, the accounts it is handed, and raw data. */
  datatype Instruction = Instruction(programId: Pubkey, accounts: seq<AccountMeta>, data: ByteString)

  /** The part of an `AccountInfo` the wallet reads: its key and its two flags. */
  datatype AccountInfo = AccountInfo(key: Pubkey, isSigner: bool, isWritable: bool)

  /**
   * `utils::verify_ed25519_ix(ix, pubkey, message, signature)`, whose source
   * is not part of this model: whether the companion instruction `ix`
   * vouches that `signature` over `message` was checked against `pubkey`.
   * It is left uninterpreted; `false` stands for every way it can fail.
   */
  type Ed25519Check = (Instruction, Pubkey, ByteString, Signature) -> bool

  /**
   * What the companion-instruction check is designed to guarantee: one
   * instruction vouches for at most one message. The model never assumes
   * this; lemmas that need it take it as a hypothesis.
   */
  ghost predicate BindsMessage(ixMatches: Ed25519Check)
  {
    forall ix, k1, m1, s1, k2, m2, s2 ::
      ixMatches(ix, k1, m1, s1) && ixMatches(ix, k2, m2, s2) ==> m1 == m2
  }

  /** The account metadata list built from `remaining_accounts`, in order. */
  function ToAccountMetas(accounts: seq<AccountInfo>): (metas: seq<AccountMeta>)
    ensures |metas| == |accounts|
    ensures forall i :: 0 <= i < |accounts| ==>
      metas[i] == AccountMeta(accounts[i].key, accounts[i].isSigner, accounts[i].isWritable)
  {
    if accounts == [] then []
    else
      var a := accounts[0];
      [AccountMeta(a.key, a.isSigner, a.isWritable)] + ToAccountMetas(accounts[1..])
  }

  /**
   * Lamport balances by address. An address the map does not hold is an
   * account that does not exist, and holds zero lamports.
   */
  type Lamports = map<Pubkey, U64>

  function Balance(lamports: Lamports, key: Pubkey): U64
  {
    if key in lamports then lamports[key] else 0
  }

  /** Whether crediting `amount` to `to` after debiting it from `from` stays within a u64. */
  predicate MoveFits(lamports: Lamports, from: Pubkey, to: Pubkey, amount: U64)
  {
    from == to || Balance(lamports, to) + amount < U64_LIMIT
  }

  /**
   * Debit `amount` from `from`, then credit it to `to`. When the two are one
   * account, the debit and the credit cancel.
   */
  function Move(lamports: Lamports, from: Pubkey, to: Pubkey, amount: U64): (r: Lamports)
    requires Balance(lamports, from) >= amount
    requires MoveFits(lamports, from, to, amount)
    ensures from != to ==> Balance(r, from) == Balance(lamports, from) - amount
    ensures from != to ==> Balance(r, to) == Balance(lamports, to) + amount
    ensures Balance(r, from) + Balance(r, to) == Balance(lamports, from) + Balance(lamports, to)
    ensures forall k :: k != from && k != to ==> Balance(r, k) == Balance(lamports, k)
    ensures from == to ==> forall k :: Balance(r, k) == Balance(lamports, k)
  {
    var debited := lamports[from := Balance(lamports, from) - amount];
    debited[to := Balance(debited, to) + amount]
  }
}
