/**
 * Replay protection over any sequence of requests against one wallet,
 * within one lifetime of its account (`initialize` is not a request: the
 * account it creates must not already exist).
 * Every successful withdraw or external call consumes the signed message
 * of the nonce in effect and advances the nonce by one; nothing else moves
 * the nonce. So no message is ever authorized twice, and, for a
 * companion-instruction check that vouches for one message per
 * instruction, no companion instruction is ever accepted twice.
 */
module Replay {
  import opened Wrappers
  import opened Bytes
  import opened Solana
  import opened Messages
  import opened WalletSpec

  /** One call of a handler against the wallet, with the inputs the host supplies. */
  datatype Request =
    | SetOwnerRequest(ownerPubkey: Pubkey)
    | DepositRequest(from: Pubkey, amount: U64, systemAccepts: bool)
    | WithdrawRequest(recipient: Pubkey, amount: U64, signature: Signature, ix0: Option<Instruction>)
    | CallExternalRequest(programId: Pubkey, data: ByteString, remaining: seq<AccountInfo>,
                          signature: Signature, ix0: Option<Instruction>)

  /** The wallet record, its address, and the lamport balances. */
  datatype Chain = Chain(wallet: WalletRecord, walletKey: Pubkey, lamports: Lamports)

  /** A signed message that a successful handler consumed, and what vouched for it. */
  datatype Authorization = Authorization(ix: Instruction, pubkey: Pubkey, message: ByteString, signature: Signature)

  predicate Vouched(a: Authorization, ixMatches: Ed25519Check)
  {
    ixMatches(a.ix, a.pubkey, a.message, a.signature)
  }

  /** One request: the new chain state, and the authorization it consumed, if any. */
  function Step(c: Chain, req: Request, ixMatches: Ed25519Check, invoke: Invoke): (r: (Chain, seq<Authorization>))
    ensures |r.1| <= 1
    ensures r.0.walletKey == c.walletKey
    ensures r.0.wallet.isInitialized == c.wallet.isInitialized
    ensures r.0.wallet.nonce == c.wallet.nonce + |r.1|
    ensures r.1 != [] ==> req.WithdrawRequest? || req.CallExternalRequest?
    ensures r.1 != [] ==>
      r.1[0].pubkey == c.wallet.ownerPubkey && Vouched(r.1[0], ixMatches)
      && |r.1[0].message| >= 8 && SignedNonce(r.1[0].message) == c.wallet.nonce
    ensures r.0.wallet.ownerPubkey != c.wallet.ownerPubkey ==> req.SetOwnerRequest? && !OwnerBound(c.wallet)
    ensures req.SetOwnerRequest? ==> r.0.lamports == c.lamports
    // an authorized request consumes its authorization exactly when its handler succeeds
    ensures req.WithdrawRequest? ==>
      (r.1 != [] <==> Withdraw(c.wallet, c.lamports, c.walletKey, req.recipient, req.amount,
                               req.signature, req.ix0, ixMatches).Ok?)
    ensures req.CallExternalRequest? ==>
      (r.1 != [] <==> CallExternalProgram(c.wallet, c.lamports, req.programId, req.data, req.remaining,
                                          req.signature, req.ix0, ixMatches, invoke).Ok?)
    // an authorized request that fails changes nothing
    ensures (req.WithdrawRequest? || req.CallExternalRequest?) && r.1 == [] ==> r.0 == c
  {
    match req
    case SetOwnerRequest(ownerPubkey) =>
      var res := SetOwner(c.wallet, ownerPubkey);
      if res.Ok? then (c.(wallet := res.value), []) else (c, [])
    case DepositRequest(from, amount, systemAccepts) =>
      var res := Deposit(c.lamports, from, c.walletKey, amount, systemAccepts);
      if res.Ok? then (c.(lamports := res.value), []) else (c, [])
    case WithdrawRequest(recipient, amount, signature, ix0) =>
      var res := Withdraw(c.wallet, c.lamports, c.walletKey, recipient, amount, signature, ix0, ixMatches);
      if res.Ok? then
        var message := WithdrawMessage(amount, c.wallet.nonce);
        (Chain(res.value.0, c.walletKey, res.value.1),
         [Authorization(ix0.value, c.wallet.ownerPubkey, message, signature)])
      else (c, [])
    case CallExternalRequest(programId, data, remaining, signature, ix0) =>
      var res := CallExternalProgram(c.wallet, c.lamports, programId, data, remaining, signature, ix0, ixMatches, invoke);
      if res.Ok? then
        var message := ExternalCallMessage(programId, data, c.wallet.nonce);
        (Chain(res.value.0, c.walletKey, res.value.1),
         [Authorization(ix0.value, c.wallet.ownerPubkey, message, signature)])
      else (c, [])
  }

  /**
   * A successful withdraw or external call leaves exactly the wallet record
   * and balances its handler returns, and logs the message it rebuilt from
   * the nonce in effect, with the owner key, signature and instruction 0.
   */
  lemma StepAppliesHandler(c: Chain, req: Request, ixMatches: Ed25519Check, invoke: Invoke)
    ensures (req.WithdrawRequest? &&
             Withdraw(c.wallet, c.lamports, c.walletKey, req.recipient, req.amount, req.signature, req.ix0, ixMatches).Ok?) ==>
      var res := Withdraw(c.wallet, c.lamports, c.walletKey, req.recipient, req.amount, req.signature, req.ix0, ixMatches);
      Step(c, req, ixMatches, invoke) ==
        (Chain(res.value.0, c.walletKey, res.value.1),
         [Authorization(req.ix0.value, c.wallet.ownerPubkey, WithdrawMessage(req.amount, c.wallet.nonce), req.signature)])
    ensures (req.CallExternalRequest? &&
             CallExternalProgram(c.wallet, c.lamports, req.programId, req.data, req.remaining,
                                 req.signature, req.ix0, ixMatches, invoke).Ok?) ==>
      var res := CallExternalProgram(c.wallet, c.lamports, req.programId, req.data, req.remaining,
                                     req.signature, req.ix0, ixMatches, invoke);
      Step(c, req, ixMatches, invoke) ==
        (Chain(res.value.0, c.walletKey, res.value.1),
         [Authorization(req.ix0.value, c.wallet.ownerPubkey,
                        ExternalCallMessage(req.programId, req.data, c.wallet.nonce), req.signature)])
  {
  }

  /** Requests in order: the final state and every authorization consumed, in order. */
  function Run(c: Chain, reqs: seq<Request>, ixMatches: Ed25519Check, invoke: Invoke): (Chain, seq<Authorization>)
    decreases |reqs|
  {
    if reqs == [] then (c, [])
    else
      var (c1, log1) := Step(c, reqs[0], ixMatches, invoke);
      var (c2, log2) := Run(c1, reqs[1..], ixMatches, invoke);
      (c2, log1 + log2)
  }

  /**
   * The nonce ends where it started plus the number of authorizations, and
   * the i-th authorization signed the starting nonce plus i.
   */
  lemma {:induction false} RunAdvancesNonce(c: Chain, reqs: seq<Request>, ixMatches: Ed25519Check, invoke: Invoke)
    ensures Run(c, reqs, ixMatches, invoke).0.wallet.nonce == c.wallet.nonce + |Run(c, reqs, ixMatches, invoke).1|
    ensures forall i :: 0 <= i < |Run(c, reqs, ixMatches, invoke).1| ==>
      var a := Run(c, reqs, ixMatches, invoke).1[i];
      Vouched(a, ixMatches) && |a.message| >= 8 && SignedNonce(a.message) == c.wallet.nonce + i
    decreases |reqs|
  {
    if reqs != [] {
      var (c1, log1) := Step(c, reqs[0], ixMatches, invoke);
      RunAdvancesNonce(c1, reqs[1..], ixMatches, invoke);
      var log2 := Run(c1, reqs[1..], ixMatches, invoke).1;
      assert Run(c, reqs, ixMatches, invoke).1 == log1 + log2;
    }
  }

  /** No message is consumed twice in a run. */
  lemma MessagesNeverRepeat(c: Chain, reqs: seq<Request>, ixMatches: Ed25519Check, invoke: Invoke, i: nat, j: nat)
    requires i < j < |Run(c, reqs, ixMatches, invoke).1|
    ensures Run(c, reqs, ixMatches, invoke).1[i].message != Run(c, reqs, ixMatches, invoke).1[j].message
  {
    RunAdvancesNonce(c, reqs, ixMatches, invoke);
  }

  /**
   * With a check that vouches for one message per instruction, no companion
   * instruction is accepted twice in a run: replaying a transaction fails.
   */
  lemma CompanionInstructionsNeverRepeat(c: Chain, reqs: seq<Request>, ixMatches: Ed25519Check, invoke: Invoke, i: nat, j: nat)
    requires BindsMessage(ixMatches)
    requires i < j < |Run(c, reqs, ixMatches, invoke).1|
    ensures Run(c, reqs, ixMatches, invoke).1[i].ix != Run(c, reqs, ixMatches, invoke).1[j].ix
  {
    var log := Run(c, reqs, ixMatches, invoke).1;
    RunAdvancesNonce(c, reqs, ixMatches, invoke);
    MessagesNeverRepeat(c, reqs, ixMatches, invoke, i, j);
    assert Vouched(log[i], ixMatches) && Vouched(log[j], ixMatches);
  }

  /** Once an owner is bound, no sequence of requests changes it or clears the flag. */
  lemma {:induction false} BoundOwnerIsFinal(c: Chain, reqs: seq<Request>, ixMatches: Ed25519Check, invoke: Invoke)
    requires OwnerBound(c.wallet)
    ensures Run(c, reqs, ixMatches, invoke).0.wallet.ownerPubkey == c.wallet.ownerPubkey
    ensures OwnerBound(Run(c, reqs, ixMatches, invoke).0.wallet)
    decreases |reqs|
  {
    if reqs != [] {
      var c1 := Step(c, reqs[0], ixMatches, invoke).0;
      BoundOwnerIsFinal(c1, reqs[1..], ixMatches, invoke);
    }
  }

  /**
   * After a successful withdraw, the message for the same amount is a new
   * one, and every withdraw or external call that presents the same
   * companion instruction again is rejected at the signature gate.
   */
  lemma ReplayAfterWithdraw(rec: WalletRecord, lamports: Lamports, walletKey: Pubkey, recipient: Pubkey,
                            amount: U64, signature: Signature, ix0: Option<Instruction>, ixMatches: Ed25519Check,
                            later: Lamports, next: Request, invoke: Invoke)
    requires Withdraw(rec, lamports, walletKey, recipient, amount, signature, ix0, ixMatches).Ok?
    requires BindsMessage(ixMatches)
    requires (next.WithdrawRequest? || next.CallExternalRequest?) && next.ix0 == ix0
    ensures var after := Withdraw(rec, lamports, walletKey, recipient, amount, signature, ix0, ixMatches).value.0;
      WithdrawMessage(amount, after.nonce) != WithdrawMessage(amount, rec.nonce)
      && Step(Chain(after, walletKey, later), next, ixMatches, invoke).1 == []
  {
  }

  /** The same for a successful external call. */
  lemma ReplayAfterCallExternal(rec: WalletRecord, programId: Pubkey, data: ByteString, remaining: seq<AccountInfo>,
                                signature: Signature, ix0: Option<Instruction>, ixMatches: Ed25519Check,
                                invoke: Invoke, lamports: Lamports, walletKey: Pubkey, later: Lamports, next: Request)
    requires CallExternalProgram(rec, lamports, programId, data, remaining, signature, ix0, ixMatches, invoke).Ok?
    requires BindsMessage(ixMatches)
    requires (next.WithdrawRequest? || next.CallExternalRequest?) && next.ix0 == ix0
    ensures var after := CallExternalProgram(rec, lamports, programId, data, remaining, signature, ix0, ixMatches, invoke).value.0;
      ExternalCallMessage(programId, data, after.nonce) != ExternalCallMessage(programId, data, rec.nonce)
      && Step(Chain(after, walletKey, later), next, ixMatches, invoke).1 == []
  {
  }

  /**
   * The withdraw message names no recipient: a request that would succeed
   * for one recipient succeeds, with the same signature and companion
   * instruction, for any other the lamports fit.
   */
  lemma WithdrawSignatureDoesNotBindRecipient(rec: WalletRecord, lamports: Lamports, walletKey: Pubkey,
                                              recipient: Pubkey, other: Pubkey, amount: U64, signature: Signature,
                                              ix0: Option<Instruction>, ixMatches: Ed25519Check)
    requires Withdraw(rec, lamports, walletKey, recipient, amount, signature, ix0, ixMatches).Ok?
    requires MoveFits(lamports, walletKey, other, amount)
    ensures Withdraw(rec, lamports, walletKey, other, amount, signature, ix0, ixMatches).Ok?
  {
  }

  /**
   * The external-call message names no accounts: a call whose gate passes
   * for one account list passes for any other; only the relayed
   * instruction's own outcome can differ.
   */
  lemma CallSignatureDoesNotBindAccounts(rec: WalletRecord, lamports: Lamports, programId: Pubkey, data: ByteString,
                                         remaining: seq<AccountInfo>, others: seq<AccountInfo>,
                                         signature: Signature, ix0: Option<Instruction>,
                                         ixMatches: Ed25519Check, invoke: Invoke)
    requires CallExternalProgram(rec, lamports, programId, data, remaining, signature, ix0, ixMatches, invoke).Ok?
    requires invoke(RelayedInstruction(programId, data, others), others, lamports).Some?
    ensures CallExternalProgram(rec, lamports, programId, data, others, signature, ix0, ixMatches, invoke).Ok?
  {
  }
}
