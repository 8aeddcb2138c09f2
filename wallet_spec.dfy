/**
 * The wallet program's handlers as functions from the state before a call
 * to its outcome: either an error, with nothing changed, or the new state
 * the handler touches (the wallet record for set_owner, the lamport
 * balances for deposit, both for withdraw and call_external_program);
 * initialize is modelled only as it runs, in WalletProgram. A handler that
 * fails part-way changes nothing, because the runtime discards every write
 * of an instruction that returns an error or panics.
 */
module WalletSpec {
  import opened Wrappers
  import opened Bytes
  import opened Solana
  import opened Messages

  datatype WalletError =
    | AccountAlreadyInitialized  // set_owner on a wallet whose owner is bound
    | InsufficientFunds          // withdraw of more than the wallet holds
    | InstructionLoadFailed      // the lookup of instruction 0 failed
    | SigVerificationFailed      // verify_ed25519_ix rejected instruction 0
    | TransferFailed             // the System-program transfer of deposit failed
    | InvokeFailed               // the relayed instruction failed
    | ArithmeticOverflow         // a checked u64 addition overflowed

  datatype Result<T> = Ok(value: T) | Err(error: WalletError)

  datatype Outcome = Pass | Fail(error: WalletError)

  /** The `Wallet` account record. */
  datatype WalletRecord = WalletRecord(isInitialized: bool, ownerPubkey: Pubkey, nonce: U64)

  /** The condition under which set_owner refuses: an owner is already bound. */
  predicate OwnerBound(rec: WalletRecord)
  {
    rec.isInitialized && rec.ownerPubkey != ZERO_PUBKEY
  }

  function ToOutcome<T>(r: Result<T>): (o: Outcome)
    ensures o.Pass? <==> r.Ok?
    ensures o.Fail? ==> o.error == r.error
  {
    if r.Ok? then Pass else Fail(r.error)
  }

  /**
   * set_owner: refuses when an owner is bound; otherwise installs the new
   * key, whatever the record held, and touches nothing else. It does not
   * itself require that the record be initialized.
   */
  function SetOwner(rec: WalletRecord, ownerPubkey: Pubkey): (r: Result<WalletRecord>)
    ensures r.Err? <==> OwnerBound(rec)
    ensures r.Err? ==> r.error == AccountAlreadyInitialized
    ensures r.Ok? ==> r.value.ownerPubkey == ownerPubkey
    ensures r.Ok? ==> r.value.isInitialized == rec.isInitialized && r.value.nonce == rec.nonce
  {
    if rec.isInitialized && rec.ownerPubkey != ZERO_PUBKEY then Err(AccountAlreadyInitialized)
    else Ok(rec.(ownerPubkey := ownerPubkey))
  }

  /**
   * verify_signature: loads instruction 0 of the transaction (`ix0`, None
   * when there is none) and hands it to the companion-instruction check.
   */
  function VerifySignature(pubkey: Pubkey, message: ByteString, signature: Signature,
                           ix0: Option<Instruction>, ixMatches: Ed25519Check): (r: Outcome)
    ensures r.Pass? <==> ix0.Some? && ixMatches(ix0.value, pubkey, message, signature)
    ensures r.Fail? && ix0.None? ==> r.error == InstructionLoadFailed
    ensures r.Fail? && ix0.Some? ==> r.error == SigVerificationFailed
  {
    match ix0
    case None => Fail(InstructionLoadFailed)
    case Some(ix) => if ixMatches(ix, pubkey, message, signature) then Pass else Fail(SigVerificationFailed)
  }

  /**
   * deposit: the System-program transfer of `amount` lamports from `from`
   * into the wallet account `to`. `systemAccepts` is the System program's
   * verdict on everything but the amounts (that `from` may be debited by it).
   * The wallet record is not an argument: deposit never touches it.
   */
  function Deposit(lamports: Lamports, from: Pubkey, to: Pubkey, amount: U64, systemAccepts: bool): (r: Result<Lamports>)
    ensures r.Ok? <==> systemAccepts && Balance(lamports, from) >= amount && MoveFits(lamports, from, to, amount)
    ensures r.Err? ==> r.error == TransferFailed
    ensures r.Ok? ==> Balance(r.value, from) + Balance(r.value, to) == Balance(lamports, from) + Balance(lamports, to)
    ensures r.Ok? && from != to ==> Balance(r.value, from) == Balance(lamports, from) - amount
    ensures r.Ok? && from != to ==> Balance(r.value, to) == Balance(lamports, to) + amount
    ensures r.Ok? ==> forall k :: k != from && k != to ==> Balance(r.value, k) == Balance(lamports, k)
  {
    if systemAccepts && Balance(lamports, from) >= amount && MoveFits(lamports, from, to, amount) then
      Ok(Move(lamports, from, to, amount))
    else
      Err(TransferFailed)
  }

  /**
   * withdraw: rebuild the message from `amount` and the current nonce, pass
   * the signature gate, check the wallet's balance, move the lamports, and
   * only then advance the nonce.
   */
  function Withdraw(rec: WalletRecord, lamports: Lamports, walletKey: Pubkey, recipient: Pubkey,
                    amount: U64, signature: Signature, ix0: Option<Instruction>,
                    ixMatches: Ed25519Check): (r: Result<(WalletRecord, Lamports)>)
    // verify before pay: a failed gate decides the outcome whatever the balances
    ensures VerifySignature(rec.ownerPubkey, WithdrawMessage(amount, rec.nonce), signature, ix0, ixMatches).Fail? ==>
      r == Err(VerifySignature(rec.ownerPubkey, WithdrawMessage(amount, rec.nonce), signature, ix0, ixMatches).error)
    ensures (ix0.Some? && ixMatches(ix0.value, rec.ownerPubkey, WithdrawMessage(amount, rec.nonce), signature)
             && Balance(lamports, walletKey) < amount) ==> r == Err(InsufficientFunds)
    ensures r.Ok? <==>
      ix0.Some? && ixMatches(ix0.value, rec.ownerPubkey, WithdrawMessage(amount, rec.nonce), signature)
      && Balance(lamports, walletKey) >= amount
      && MoveFits(lamports, walletKey, recipient, amount) && rec.nonce + 1 < U64_LIMIT
    // on success: nonce advanced by one, owner and flag untouched
    ensures r.Ok? ==> r.value.0 == WalletRecord(rec.isInitialized, rec.ownerPubkey, rec.nonce + 1)
    // on success: amount moved from the wallet to the recipient, nothing else
    ensures r.Ok? && walletKey != recipient ==>
      Balance(r.value.1, walletKey) == Balance(lamports, walletKey) - amount
      && Balance(r.value.1, recipient) == Balance(lamports, recipient) + amount
    ensures r.Ok? ==>
      Balance(r.value.1, walletKey) + Balance(r.value.1, recipient)
      == Balance(lamports, walletKey) + Balance(lamports, recipient)
    ensures r.Ok? ==> forall k :: k != walletKey && k != recipient ==> Balance(r.value.1, k) == Balance(lamports, k)
  {
    var message := WithdrawMessage(amount, rec.nonce);
    var gate := VerifySignature(rec.ownerPubkey, message, signature, ix0, ixMatches);
    if gate.Fail? then Err(gate.error)
    else if Balance(lamports, walletKey) < amount then Err(InsufficientFunds)
    else if !MoveFits(lamports, walletKey, recipient, amount) then Err(ArithmeticOverflow)
    else if rec.nonce + 1 >= U64_LIMIT then Err(ArithmeticOverflow)
    else Ok((rec.(nonce := rec.nonce + 1), Move(lamports, walletKey, recipient, amount)))
  }

  /**
   * The host's `invoke(ix, accounts)` of the relayed instruction, given the
   * balances before it: None when it fails, otherwise the balances it
   * leaves. What the invoked program does to them is not constrained.
   */
  type Invoke = (Instruction, seq<AccountInfo>, Lamports) -> Option<Lamports>

  /**
   * The instruction call_external_program relays: the given program id and
   * data, and one account meta per remaining account, copying its key and
   * flags, in order.
   */
  function RelayedInstruction(programId: Pubkey, data: ByteString, remaining: seq<AccountInfo>): (ix: Instruction)
    ensures ix.programId == programId && ix.data == data
    ensures |ix.accounts| == |remaining|
    ensures forall i :: 0 <= i < |remaining| ==>
      ix.accounts[i].pubkey == remaining[i].key
      && ix.accounts[i].isSigner == remaining[i].isSigner
      && ix.accounts[i].isWritable == remaining[i].isWritable
  {
    Instruction(programId, ToAccountMetas(remaining), data)
  }

  /**
   * call_external_program: rebuild the message from the target, the data
   * and the current nonce, pass the signature gate, relay the instruction,
   * and only then advance the nonce. The balances are those the relayed
   * instruction leaves.
   */
  function CallExternalProgram(rec: WalletRecord, lamports: Lamports, programId: Pubkey, data: ByteString,
                               remaining: seq<AccountInfo>, signature: Signature,
                               ix0: Option<Instruction>, ixMatches: Ed25519Check,
                               invoke: Invoke): (r: Result<(WalletRecord, Lamports)>)
    ensures VerifySignature(rec.ownerPubkey, ExternalCallMessage(programId, data, rec.nonce), signature, ix0, ixMatches).Fail? ==>
      r == Err(VerifySignature(rec.ownerPubkey, ExternalCallMessage(programId, data, rec.nonce), signature, ix0, ixMatches).error)
    ensures (ix0.Some? && ixMatches(ix0.value, rec.ownerPubkey, ExternalCallMessage(programId, data, rec.nonce), signature)
             && invoke(RelayedInstruction(programId, data, remaining), remaining, lamports).None?) ==> r == Err(InvokeFailed)
    ensures r.Ok? <==>
      ix0.Some? && ixMatches(ix0.value, rec.ownerPubkey, ExternalCallMessage(programId, data, rec.nonce), signature)
      && invoke(RelayedInstruction(programId, data, remaining), remaining, lamports).Some? && rec.nonce + 1 < U64_LIMIT
    ensures r.Ok? ==> r.value.0 == WalletRecord(rec.isInitialized, rec.ownerPubkey, rec.nonce + 1)
    ensures r.Ok? ==> r.value.1 == invoke(RelayedInstruction(programId, data, remaining), remaining, lamports).value
  {
    var message := ExternalCallMessage(programId, data, rec.nonce);
    var gate := VerifySignature(rec.ownerPubkey, message, signature, ix0, ixMatches);
    if gate.Fail? then Err(gate.error)
    else
      var ix := RelayedInstruction(programId, data, remaining);
      match invoke(ix, remaining, lamports)
      case None => Err(InvokeFailed)
      case Some(after) =>
        if rec.nonce + 1 >= U64_LIMIT then Err(ArithmeticOverflow)
        else Ok((rec.(nonce := rec.nonce + 1), after))
  }
}
