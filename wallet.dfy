/**
 * The wallet program's handlers as they run: a `Wallet` account whose
 * record fields are assigned in place, and a `Ledger` of lamport balances
 * that deposit, withdraw and call_external_program change. Each handler but
 * initialize has a contract tying its outcome and the new state to the
 * matching function of WalletSpec, which states the properties; initialize
 * and the allocation before it state the record they leave directly.
 */
module WalletProgram {
  import opened Wrappers
  import opened Bytes
  import opened Solana
  import opened Messages
  import Spec = WalletSpec

  /** The runtime's lamport balances, which handlers change in place. */
  class Ledger {
    var lamports: Lamports

    constructor (initial: Lamports)
      ensures lamports == initial
    {
      lamports := initial;
    }
  }

  /** A `Wallet` account: its address and its record. */
  class Wallet {
    const key: Pubkey
    var isInitialized: bool
    var ownerPubkey: Pubkey
    var nonce: U64

    /** The record's current value. */
    function Record(): Spec.WalletRecord
      reads this
    {
      Spec.WalletRecord(isInitialized, ownerPubkey, nonce)
    }

    /** A freshly allocated account: its data is all zero bytes. */
    constructor Allocate(key: Pubkey)
      ensures this.key == key
      ensures Record() == Spec.WalletRecord(false, ZERO_PUBKEY, 0)
    {
      this.key := key;
      isInitialized := false;
      ownerPubkey := ZERO_PUBKEY;
      nonce := 0;
    }

    /** initialize: mark the record initialized, with no owner and nonce 0. */
    method Initialize() returns (r: Spec.Outcome)
      modifies this
      ensures r == Spec.Pass
      ensures isInitialized && ownerPubkey == ZERO_PUBKEY && nonce == 0
    {
      isInitialized := true;
      ownerPubkey := ZERO_PUBKEY;
      nonce := 0;
      r := Spec.Pass;
    }

    /** set_owner: bind the owner key unless one is bound already. */
    method SetOwner(ownerPubkey: Pubkey) returns (r: Spec.Outcome)
      modifies this
      ensures r == Spec.ToOutcome(Spec.SetOwner(old(Record()), ownerPubkey))
      ensures r.Pass? ==> Record() == Spec.SetOwner(old(Record()), ownerPubkey).value
      ensures r.Fail? ==> Record() == old(Record())
    {
      if isInitialized && this.ownerPubkey != ZERO_PUBKEY {
        return Spec.Fail(Spec.AccountAlreadyInitialized);
      }
      this.ownerPubkey := ownerPubkey;
      r := Spec.Pass;
    }

    /**
     * deposit: the System-program transfer from `from` into this account;
     * `systemAccepts` is that program's verdict beyond the amounts.
     */
    method Deposit(ledger: Ledger, from: Pubkey, amount: U64, systemAccepts: bool) returns (r: Spec.Outcome)
      modifies ledger
      ensures Record() == old(Record())
      ensures r == Spec.ToOutcome(Spec.Deposit(old(ledger.lamports), from, key, amount, systemAccepts))
      ensures r.Pass? ==> ledger.lamports == Spec.Deposit(old(ledger.lamports), from, key, amount, systemAccepts).value
      ensures r.Fail? ==> ledger.lamports == old(ledger.lamports)
    {
      if !systemAccepts || Balance(ledger.lamports, from) < amount || !MoveFits(ledger.lamports, from, key, amount) {
        return Spec.Fail(Spec.TransferFailed);
      }
      ledger.lamports := Move(ledger.lamports, from, key, amount);
      r := Spec.Pass;
    }

    /**
     * withdraw: `ix0` is instruction 0 of the transaction (None when there
     * is none) and `ixMatches` the companion-instruction check.
     */
    method Withdraw(ledger: Ledger, recipient: Pubkey, amount: U64, signature: Signature,
                    ix0: Option<Instruction>, ixMatches: Ed25519Check) returns (r: Spec.Outcome)
      modifies this, ledger
      ensures r == Spec.ToOutcome(Spec.Withdraw(old(Record()), old(ledger.lamports), key, recipient, amount, signature, ix0, ixMatches))
      ensures r.Pass? ==>
        (Record(), ledger.lamports)
        == Spec.Withdraw(old(Record()), old(ledger.lamports), key, recipient, amount, signature, ix0, ixMatches).value
      ensures r.Fail? ==> Record() == old(Record()) && ledger.lamports == old(ledger.lamports)
    {
      var message := WithdrawMessage(amount, nonce);
      r := Spec.VerifySignature(ownerPubkey, message, signature, ix0, ixMatches);
      if r.Fail? {
        return;
      }
      if Balance(ledger.lamports, key) < amount {
        return Spec.Fail(Spec.InsufficientFunds);
      }
      // A checked addition that overflows aborts the instruction, and the
      // runtime then discards the debit already made: no effect remains.
      if !MoveFits(ledger.lamports, key, recipient, amount) || nonce + 1 >= U64_LIMIT {
        return Spec.Fail(Spec.ArithmeticOverflow);
      }
      ledger.lamports := ledger.lamports[key := Balance(ledger.lamports, key) - amount];
      ledger.lamports := ledger.lamports[recipient := Balance(ledger.lamports, recipient) + amount];
      nonce := nonce + 1;
    }

    /**
     * call_external_program: `relayed` is the instruction handed to
     * `invoke`, or None when the signature gate stopped the call first.
     * The relayed instruction may change the ledger's balances.
     */
    method CallExternalProgram(ledger: Ledger, programId: Pubkey, data: ByteString, remaining: seq<AccountInfo>,
                               signature: Signature, ix0: Option<Instruction>,
                               ixMatches: Ed25519Check, invoke: Spec.Invoke)
      returns (r: Spec.Outcome, relayed: Option<Instruction>)
      modifies this, ledger
      ensures r == Spec.ToOutcome(Spec.CallExternalProgram(old(Record()), old(ledger.lamports), programId, data, remaining,
                                                           signature, ix0, ixMatches, invoke))
      ensures r.Pass? ==>
        (Record(), ledger.lamports)
        == Spec.CallExternalProgram(old(Record()), old(ledger.lamports), programId, data, remaining,
                                    signature, ix0, ixMatches, invoke).value
      ensures r.Fail? ==> Record() == old(Record()) && ledger.lamports == old(ledger.lamports)
      ensures relayed.Some? <==>
        Spec.VerifySignature(old(ownerPubkey), ExternalCallMessage(programId, data, old(nonce)), signature, ix0, ixMatches).Pass?
      ensures relayed.Some? ==> relayed.value == Spec.RelayedInstruction(programId, data, remaining)
    {
      var message := ExternalCallMessage(programId, data, nonce);
      r := Spec.VerifySignature(ownerPubkey, message, signature, ix0, ixMatches);
      if r.Fail? {
        return r, None;
      }
      var ix := Instruction(programId, ToAccountMetas(remaining), data);
      relayed := Some(ix);
      var after := invoke(ix, remaining, ledger.lamports);
      if after.None? {
        return Spec.Fail(Spec.InvokeFailed), relayed;
      }
      // As for withdraw: an overflowing increment aborts the instruction,
      // and the runtime discards what the relayed instruction did.
      if nonce + 1 >= U64_LIMIT {
        return Spec.Fail(Spec.ArithmeticOverflow), relayed;
      }
      ledger.lamports := after.value;
      nonce := nonce + 1;
    }
  }
}
