# opentg-inner-wallet, modelled in Dafny

A model of the authorization protocol of the `opentg-inner-wallet` Solana
program (`programs/opentg-inner-wallet/src/lib.rs`). The program keeps one
record per wallet account: an initialized flag, a 32-byte owner key and a
u64 nonce. It offers five instructions:

- `initialize` marks the record initialized, with the all-zero key as "no owner" and nonce 0.
- `set_owner` binds the owner key once.
- `deposit` moves lamports into the wallet through the System program, with no signature.
- `withdraw` moves lamports from the wallet to a recipient.
- `call_external_program` relays an arbitrary instruction to another program.

`withdraw` and `call_external_program` are authorized off-chain. The owner
signs a message that embeds the current nonce. Instruction 0 of the same
transaction must be an ed25519 verification instruction that a helper,
`utils::verify_ed25519_ix`, accepts for (owner key, message, signature).
The nonce advances only after the operation has succeeded.

Modules, leaf first:

- `Wrappers` (`wrappers.dfy`): `Option`.
- `Bytes` (`bytes.dfy`): bytes, u64 values, and the little-endian encoding of `u64::to_le_bytes` with its decoder.
- `Solana` (`solana.dfy`): host values. These are keys, signatures, `AccountMeta`, `Instruction`, the key and flags of an `AccountInfo`, and lamport balances by address. Also here are the type of the uninterpreted companion-instruction check and the building of the relayed account list.
- `Messages` (`messages.dfy`): the two signed-message layouts, their decoders, and round-trip and injectivity lemmas.
- `WalletSpec` (`wallet_spec.dfy`): every handler but `initialize` as a function from the state before the call to its outcome. Its contracts state the properties.
- `WalletProgram` (`wallet.dfy`): the handlers as they run. A `Wallet` class has its record fields assigned in place, and a `Ledger` class holds the lamport balances. The contract of each method but `Initialize` ties its outcome and new state to the matching `WalletSpec` function. `Allocate` and `Initialize` state the record they leave directly.
- `Replay` (`replay.dfy`): a request sequence against one wallet, and the replay-protection and one-shot-binding theorems over it.

Inputs from the host are parameters:

- `ix0 : Option<Instruction>` is what `load_instruction_at_checked(0, …)` returns. `None` means the lookup failed.
- `ixMatches : Ed25519Check` stands for `utils::verify_ed25519_ix`. Its source is not part of this model, so it is left uninterpreted. One lemma hypothesis, `Solana.BindsMessage`, states what the check is meant to guarantee: one companion instruction vouches for at most one message. Only the lemmas `CompanionInstructionsNeverRepeat`, `ReplayAfterWithdraw` and `ReplayAfterCallExternal` assume it.
- `invoke : Invoke` is the host's `invoke` of the relayed instruction. Given the balances before it, it returns `None` when the relayed instruction fails, or else the balances it leaves. Those balances are not constrained.
- `systemAccepts : bool` is the System program's verdict on a deposit transfer, apart from the balance checks that the model performs itself.

Where the code and the protocol's design differ, the model follows the code:

- The handlers never check that an owner is bound before `withdraw` or `call_external_program`. With the all-zero key as owner, success depends only on what the check accepts.
- `set_owner` succeeds on a record whose flag is still false, whatever its key.
- There is no signer check of any kind on `set_owner`.
- The gate's failures are not told apart by stage. `verify_ed25519_ix` is not part of this model, so a rejected instruction is one error, `SigVerificationFailed`.
- `InvalidSignature` is declared at lib.rs:189 but never raised in lib.rs. The helper `verify_ed25519_ix` is not part of this model and may raise it; its errors are folded into `SigVerificationFailed`.

Two consequences are proved as lemmas:

- The withdraw message binds no recipient (`Replay.WithdrawSignatureDoesNotBindRecipient`).
- The external-call message binds no accounts (`Replay.CallSignatureDoesNotBindAccounts`).

So whoever submits a signed request can choose those freely.

## Model

| member | source | states |
|---|---|---|
| `Bytes.U64ToLe` | programs/opentg-inner-wallet/src/lib.rs:55 | `to_le_bytes` gives exactly 8 bytes, and read back little-endian they denote the value |
| `Bytes.LeToU64` | tests/opentg-inner-wallet.ts:105-108 | decoding 8 little-endian bytes yields the u64 whose encoding is those bytes (encoding is onto 8-byte strings) |
| `Bytes.LeValueOfLeBytes` | tests/opentg-inner-wallet.ts:105-108 | for x below 256^n, the n-byte little-endian encoding of x decodes back to x |
| `Bytes.LeBytesOfLeValue` | tests/opentg-inner-wallet.ts:105-108 | re-encoding the value of any byte string at its own length gives the string back |
| `Bytes.U64ToLeInjective` | programs/opentg-inner-wallet/src/lib.rs:55 | two u64 values have the same 8-byte encoding exactly when they are equal |
| `Messages.WithdrawMessage` | programs/opentg-inner-wallet/src/lib.rs:55-59 | the withdraw message is 16 bytes; its first 8 decode to the amount, its last 8 to the nonce |
| `Messages.ParseWithdrawMessage` | programs/opentg-inner-wallet/src/lib.rs:55-59 | a byte string parses as a withdraw message exactly when it has 16 bytes, and then rebuilding from the parsed fields gives it back |
| `Messages.WithdrawMessageRoundTrip` | programs/opentg-inner-wallet/src/lib.rs:55-59 | parsing a built withdraw message recovers (amount, nonce) |
| `Messages.WithdrawMessageInjective` | programs/opentg-inner-wallet/src/lib.rs:55-59 | two withdraw messages are equal exactly when amount and nonce are both equal |
| `Messages.ExternalCallMessage` | programs/opentg-inner-wallet/src/lib.rs:92-97 | the external-call message is 32 + (length of data) + 8 bytes: the program id, then the data, then 8 bytes decoding to the nonce |
| `Messages.ParseExternalCallMessage` | programs/opentg-inner-wallet/src/lib.rs:92-97 | a byte string parses as an external-call message exactly when it has at least 40 bytes, and then rebuilding gives it back |
| `Messages.ExternalCallMessageRoundTrip` | programs/opentg-inner-wallet/src/lib.rs:92-97 | parsing a built external-call message recovers (program id, data, nonce) |
| `Messages.ExternalCallMessageInjective` | programs/opentg-inner-wallet/src/lib.rs:92-97 | two external-call messages are equal exactly when program id, data and nonce are all equal; no data-length condition is needed |
| `Messages.MessageKindsDisjoint` | programs/opentg-inner-wallet/src/lib.rs:92-97 | no withdraw message equals any external-call message, so a signature for one kind never authorizes the other |
| `Solana.ToAccountMetas` | programs/opentg-inner-wallet/src/lib.rs:110-118 | one account meta per remaining account, in order, copying its key, `is_signer` and `is_writable` |
| `Solana.Move` | programs/opentg-inner-wallet/src/lib.rs:74-75 | debit then credit: for distinct accounts, the source loses and the target gains `amount`; their sum is conserved; every other balance is unchanged; for one account, nothing changes |
| `WalletSpec.SetOwner` | programs/opentg-inner-wallet/src/lib.rs:22-29 | fails with `AccountAlreadyInitialized` exactly when the record is initialized with a non-zero key; otherwise installs the key and keeps flag and nonce |
| `WalletSpec.VerifySignature` | programs/opentg-inner-wallet/src/lib.rs:194-205 | passes exactly when instruction 0 was loaded and the check accepts it for (key, message, signature); fails with a load error or a verification error otherwise |
| `WalletSpec.Deposit` | programs/opentg-inner-wallet/src/lib.rs:31-47 | succeeds exactly when the System program accepts, the payer holds the amount and the credit fits a u64; then the payer loses and the wallet gains the amount (for one account, nothing changes), their sum is conserved, and other balances are unchanged; otherwise `TransferFailed` |
| `WalletSpec.Withdraw` | programs/opentg-inner-wallet/src/lib.rs:49-81 | a failed gate decides the outcome before any balance check; with the gate passed but too little in the wallet, the outcome is `InsufficientFunds`; success exactly when the gate accepts the message of (amount, current nonce) and the funds and u64 limits allow; success moves the amount, conserves the sum and advances only the nonce, by one |
| `WalletSpec.RelayedInstruction` | programs/opentg-inner-wallet/src/lib.rs:107-120 | the relayed instruction has the given program id and data and copies each remaining account's key and flags, in order |
| `WalletSpec.CallExternalProgram` | programs/opentg-inner-wallet/src/lib.rs:83-129 | a failed gate decides the outcome; with the gate passed but the relayed instruction failed, the outcome is `InvokeFailed`; success exactly when the gate accepts the message of (program id, data, current nonce), the invoke succeeds and the nonce can advance; success advances only the nonce, by one, and leaves the balances the relayed instruction produced |
| `WalletProgram.Wallet.Allocate` | programs/opentg-inner-wallet/src/lib.rs:133-135 | a freshly allocated wallet account holds an all-zero record |
| `WalletProgram.Wallet.Initialize` | programs/opentg-inner-wallet/src/lib.rs:14-20 | afterwards the record is initialized, its owner key is 32 zero bytes and its nonce is 0 |
| `WalletProgram.Wallet.SetOwner` | programs/opentg-inner-wallet/src/lib.rs:22-29 | outcome and new record are those of `WalletSpec.SetOwner`; on failure the record is unchanged |
| `WalletProgram.Wallet.Deposit` | programs/opentg-inner-wallet/src/lib.rs:31-47 | the record is unchanged; outcome and balances are those of `WalletSpec.Deposit`; on failure the balances are unchanged |
| `WalletProgram.Wallet.Withdraw` | programs/opentg-inner-wallet/src/lib.rs:49-81 | outcome, new record and new balances are those of `WalletSpec.Withdraw` on the old state; on failure nothing changes |
| `WalletProgram.Wallet.CallExternalProgram` | programs/opentg-inner-wallet/src/lib.rs:83-129 | outcome, new record and new balances are those of `WalletSpec.CallExternalProgram` on the old state; on failure neither record nor balances change; an instruction is relayed exactly when the gate passed, and it is `WalletSpec.RelayedInstruction` of the arguments |
| `Replay.Step` | programs/opentg-inner-wallet/src/lib.rs:22-129 | one request keeps the flag and advances the nonce by the number of messages it consumed (0 or 1); a withdraw or external call consumes one exactly when its handler succeeds, and the owner vouched for it at the nonce then current; only a successful `set_owner` on an unbound record changes the key; `set_owner` never touches balances; a withdraw or external call that fails changes nothing |
| `Replay.StepAppliesHandler` | programs/opentg-inner-wallet/src/lib.rs:49-129 | a successful withdraw or external call leaves exactly the record and balances its handler returns, and consumes the message rebuilt from the nonce then current, with the owner key, the signature and instruction 0 |
| `Replay.RunAdvancesNonce` | programs/opentg-inner-wallet/src/lib.rs:49-129 | over any request sequence within one lifetime of the account, the nonce advances by exactly the number of authorizations, and the i-th authorization signed the starting nonce plus i |
| `Replay.MessagesNeverRepeat` | programs/opentg-inner-wallet/src/lib.rs:49-129 | no signed message is consumed twice in any request sequence within one lifetime of the account |
| `Replay.CompanionInstructionsNeverRepeat` | programs/opentg-inner-wallet/src/lib.rs:194-205 | if the check vouches for one message per instruction, no companion instruction is accepted twice in any request sequence within one lifetime of the account |
| `Replay.BoundOwnerIsFinal` | programs/opentg-inner-wallet/src/lib.rs:22-29 | once an owner is bound, no request sequence changes the key or unbinds it |
| `Replay.ReplayAfterWithdraw` | programs/opentg-inner-wallet/src/lib.rs:49-81 | after a successful withdraw, the message for the same amount is a different one, and any later withdraw or external call presenting the same companion instruction consumes nothing, whatever the balances are by then |
| `Replay.ReplayAfterCallExternal` | programs/opentg-inner-wallet/src/lib.rs:83-129 | after a successful external call, the message for the same target and data is a different one, and any later withdraw or external call presenting the same companion instruction consumes nothing, whatever the balances are by then |
| `Replay.WithdrawSignatureDoesNotBindRecipient` | programs/opentg-inner-wallet/src/lib.rs:49-67 | a withdraw that succeeds for one recipient succeeds with the same signature for any other recipient whose balance can take the amount |
| `Replay.CallSignatureDoesNotBindAccounts` | programs/opentg-inner-wallet/src/lib.rs:92-123 | an external call that succeeds with one account list succeeds with the same signature for any other list the invoked program accepts |

## Left out

- `utils::verify_ed25519_ix` (`utils/ed25519.rs`) is not part of this model. It is the uninterpreted parameter `ixMatches`; the precompile's data layout and the curve arithmetic are not modelled.
- `load_instruction_at_checked` and the instructions sysvar are host lookups; instruction 0 is the input `ix0`.
- `WalletProgram.Wallet.CallExternalProgram`: the relayed instruction's effect on balances is an unconstrained result of `invoke`. The runtime's limits on that effect are not modelled, such as which accounts a program may debit and conservation of the total. Its effect on the data of other accounts is not modelled either, because that program's code is not in view. A re-entrant call into this program from a relayed instruction is not modelled.
- `Replay.Request`: the trace theorems cover one lifetime of the wallet account. `initialize` is excluded from requests because Anchor's `init` (lib.rs:134) refuses an account already in use, and `Wallet.Initialize` resets the nonce to 0. The model does not cover this path of the source: `withdraw` allows `amount` equal to the whole balance (lib.rs:69); a drained account has 0 lamports and the runtime deletes it; `initialize` can then re-create it with nonce 0; once an owner is bound again, messages signed at the earlier nonces are valid again.
- `WalletSpec.Deposit`: the System program's own conditions beyond the amounts (payer owned by it, payer without data) are folded into `systemAccepts`, because that program is a foreign call.
- Arithmetic overflow of `wallet.nonce += 1` and of the recipient's `+= amount` fails closed with `ArithmeticOverflow`, and nothing changes, as with checked arithmetic and the runtime's rollback. Wrap-around is not modelled, because the build settings that would allow it are not in view.
- `try_borrow_mut_lamports` failures are not modelled: no other borrow of those lamports is held when the handler takes them.
- The runtime's checks after an instruction (rent exemption of a drained wallet, which accounts a program may debit) are host behaviour, not part of the handlers.
- Anchor account constraints, discriminators, the `space = 8 + 1 + 32 + 8` allocation, the `#[derive(Accounts)]` structs and the refusal of `init` on an existing account are framework plumbing. `Wallet.Allocate` only stands for a fresh zero-filled account.
- `programs/opentg-inner-wallet/src/error.rs` declares `SigVerificationFailed1` to `SigVerificationFailed3`, which `verify_ed25519_ix` presumably raises; the model folds them into one `SigVerificationFailed`.
- `tests/opentg-inner-wallet.ts` runs against a live validator; it is only evidence for the initial record and the withdraw message layout.
