# Lamport vault program: a verified model

The program keeps native lamports in a vault for each owner. The vault's address is derived from the seeds `"vault"` and the owner's key under the program id. Two instructions exist.

- **Deposit** (opcode `0`, then the amount as eight little-endian bytes) creates the vault if it holds no lamports, then moves the amount from the owner to the vault.
- **Withdraw** (opcode `1`) moves everything above the vault's rent-exempt minimum back to the owner.

The model is written in Dafny. Each part follows the source file it models.

- `types.dfy`: bytes, `u64`, 32-byte keys, the program errors and a `Result` type.
- `codec.dfy`: `from_le_bytes`, `parse_amount`, and a reference wire codec. `Encode` is the encoder and `DecodeData` reads the data as the program does once two accounts are present. The round-trip lemmas connect the two.
- `accounts.dfy`: the `Account` class. Its key and signer flag are constants. Its owner, lamports and data length are fields that change in place. It also defines `Runtime`, which holds the program id and three uninterpreted services: the vault-address search (`find_program_address`), the address a set of vault seeds signs for (`create_program_address`) and the rent-exempt minimum. `BumpRegenerates` states that the first two agree.
- `system_program.dfy`: the `Transfer` and `CreateAccount` invocations, modelled by their effect on the two accounts.
- `instructions.dfy`: `ensure_vault_exists`, `Deposit::try_from`/`process` and `Withdraw::try_from`/`process`. Each state-changing method is proved equal to a specification function over account values (`…Spec`). The lemmas state the program's properties about those functions.
- `entrypoint.dfy`: `process_instruction`. `Dispatch` covers everything decided before any account changes, and `ProcessInstruction` runs the chosen instruction.

The caller may pass the same account as both owner and vault. The value-level specifications therefore work on a `Pair` of account views plus a flag that says whether the two are one account. Writes through either name then update both views.

Apart from what "## Left out" lists, the model follows the code, including these behaviours a reader might not expect:

- A missing owner signature is reported as `InvalidAccountOwner`, not `MissingRequiredSignature`.
- Withdraw checks vault ownership before the derived address. A wrong address is reported as `InvalidAccountData`.
- Deposit never compares the vault's address with the derived one. For a vault that already holds lamports, it checks only that the program owns it.
- Bytes after a withdrawal opcode are ignored, so the data is not required to be exactly one byte long.
- A zero deposit amount is rejected while the instruction is built, before the signer check runs. With fewer than two accounts, `NotEnoughAccountKeys` takes precedence over a bad amount.
- A withdrawal with nothing above the rent-exempt minimum fails with `InsufficientFunds`. It is not a successful no-op.
- A successful withdrawal leaves the vault at exactly its rent-exempt minimum only when owner and vault are distinct accounts. If one account is passed in both slots, the code debits it and then credits it by the same amount, so it keeps its whole balance, which is above the minimum.

## Model

| member | source | states |
|---|---|---|
| `Codec.LeValueOfLeBytes` | src/instructions.rs:67 | writing a value that fits in `len` bytes little-endian and reading it back returns the value |
| `Codec.LeBytesOfLeValue` | src/instructions.rs:67 | reading a byte string little-endian and writing the value back in as many bytes returns the string |
| `Codec.FromLeBytes` | src/instructions.rs:67 | `u64::from_le_bytes` of eight bytes is their little-endian value, which always fits in 64 bits |
| `Codec.FromToLeBytes` | src/instructions.rs:67 | reading back the eight-byte encoding of any `u64` gives that `u64` |
| `Codec.ToFromLeBytes` | src/instructions.rs:67 | encoding the value read from eight bytes gives the same eight bytes |
| `Codec.ParseAmount` | src/instructions.rs:60-75 | succeeds iff the data is exactly eight bytes with a non-zero value; the result is positive and re-encodes to the data; every failure is `InvalidInstructionData` |
| `Codec.DepositNeedsEightBytes` | src/instructions.rs:62-64 | a deposit opcode followed by anything other than eight bytes is rejected with `InvalidInstructionData` |
| `Codec.Encode` | src/lib.rs:22-24 | the wire form is 9 bytes for a deposit and 1 byte for a withdrawal |
| `Codec.DecodeData` | src/lib.rs:22-25 | every failure is `InvalidInstructionData`, and every accepted deposit has a non-zero amount |
| `Codec.RoundTrip` | src/lib.rs:23 | every well-formed instruction decodes back from its encoding |
| `Codec.DecodedIsEncoded` | src/lib.rs:22-25 | accepted deposit data is exactly the encoding of its amount; accepted withdrawal data starts with the withdrawal opcode |
| `Codec.WithdrawIgnoresTrailingBytes` | src/lib.rs:24 | the withdrawal opcode followed by any bytes decodes as a withdrawal |
| `SystemProgram.TransferSpec` | src/instructions.rs:189-194 | a transfer succeeds iff the payer can pay and the receiver cannot overflow; on success the payer loses and the receiver gains exactly the amount and the total is conserved; a failure changes nothing |
| `SystemProgram.Transfer` | src/instructions.rs:189-194 | the in-place transfer leaves the result and both accounts as `TransferSpec` describes, also when payer and receiver are one account |
| `SystemProgram.CreateAccountSpec` | src/instructions.rs:134-141 | creation succeeds iff the new account signs or is the address that the signer seeds produce under the program's id, and the funding transfer can happen; on success the new account has the requested size and owner and receives the lamports, and the total is conserved |
| `SystemProgram.CreateAccount` | src/instructions.rs:134-141 | the in-place creation leaves the result and both accounts as `CreateAccountSpec` describes |
| `Instructions.DeriveVault` | src/instructions.rs:88-90 | the address and bump come from the search over this program's id and the owner's key; when the runtime's search and derivation agree, the seeds `"vault"`, the owner's key and the returned bump sign for exactly the returned address, which is what vault creation relies on |
| `Instructions.EnsureVaultExistsSpec` | src/instructions.rs:105-154 | a non-signing owner fails with `InvalidAccountOwner` and nothing changes; after success the program owns the vault; an existing vault is left as it was; a new vault has 16 bytes and exactly the rent-exempt minimum for 16 bytes, at an address that signed itself or that the seeds `"vault"`, the owner's key and the derived bump sign for; failures change nothing; the total is conserved |
| `Instructions.EnsureVaultExists` | src/instructions.rs:105-154 | the method's result and new account states are those of `EnsureVaultExistsSpec` |
| `Instructions.DepositTryFrom` | src/instructions.rs:214-235 | fewer than two accounts gives `NotEnoughAccountKeys` before the amount is parsed; otherwise it succeeds iff `parse_amount` does; on success the owner is account 0, the vault is account 1, and the amount is positive and re-encodes to the data |
| `Instructions.DepositSpec` | src/instructions.rs:178-199 | success needs a signing owner, leaves the vault program-owned at the same address, and conserves the total; for distinct accounts the vault gains the amount plus the rent-exempt minimum when it was new, and the owner pays the same |
| `Instructions.ProcessDeposit` | src/instructions.rs:178-199 | the method's result and new account states are those of `DepositSpec` |
| `Instructions.DepositRejectsNonSigner` | src/instructions.rs:107-108 | a deposit whose owner does not sign fails with `InvalidAccountOwner` and both accounts stay unchanged |
| `Instructions.DepositRejectsForeignVault` | src/instructions.rs:144-148 | a deposit into a vault that holds lamports but is not owned by the program fails with `InvalidAccountOwner` and nothing is transferred |
| `Instructions.DepositCreatesVault` | src/instructions.rs:112-141 | a successful deposit into an empty vault leaves it program-owned, 16 bytes long, holding the rent-exempt minimum for 16 bytes plus the amount |
| `Instructions.FirstDeposit` | src/instructions.rs:112-141 | for a signing owner and distinct accounts, a deposit into an empty vault succeeds iff the vault signs or is the address that the seeds with the derived bump sign for, and the owner can pay the rent-exempt minimum for 16 bytes plus the amount; on success the owner loses exactly that and is otherwise unchanged; without the signature or the funds for the creation, nothing changes |
| `Instructions.DepositIntoExistingVault` | src/instructions.rs:189-194 | for a signing owner and distinct owner and vault accounts, a deposit into an existing program-owned vault succeeds iff the owner can pay and the vault cannot overflow; then the vault gains and the owner loses exactly the amount; a failure changes nothing |
| `Instructions.DepositIgnoresVaultKey` | src/instructions.rs:144-151 | for a vault holding lamports, the vault's key affects neither the outcome nor the balances: the address is never checked |
| `Instructions.AliasedDepositKeepsBalance` | src/instructions.rs:178-199 | when one account is passed as both owner and vault, a deposit never changes its balance |
| `Instructions.DepositKeepsVaultRentExempt` | src/instructions.rs:127-141 | after a successful deposit, a vault that was new or already rent-exempt is rent-exempt |
| `Instructions.WithdrawTryFrom` | src/instructions.rs:334-346 | succeeds iff at least two accounts are given, with the owner as account 0 and the vault as account 1; otherwise it fails with `NotEnoughAccountKeys` |
| `Instructions.WithdrawSpec` | src/instructions.rs:264-319 | succeeds iff the owner signs, the program owns the vault, the vault sits at the owner's derived address, its balance is above the rent-exempt minimum, and (for distinct accounts) crediting the surplus to the owner cannot overflow; success conserves the total; for distinct accounts the vault ends at exactly the minimum and the owner gains exactly the surplus |
| `Instructions.ProcessWithdraw` | src/instructions.rs:264-319 | the method's result and new account states are those of `WithdrawSpec` |
| `Instructions.WithdrawCheckOrder` | src/instructions.rs:267-281 | the checks run as signer, then vault ownership (both `InvalidAccountOwner`), then derived address (`InvalidAccountData`); each failure changes nothing |
| `Instructions.WithdrawInsufficientFunds` | src/instructions.rs:284-313 | after the checks, a vault at or below the minimum fails with `InsufficientFunds` and nothing changes; `InsufficientFunds` arises exactly in that case or when crediting the owner would overflow, never from the subtraction |
| `Instructions.WithdrawOverflowLeavesVaultDebited` | src/instructions.rs:301-313 | if crediting the owner would overflow, the error is returned with the vault already drained to the minimum and the owner unchanged |
| `Instructions.WithdrawLeavesVaultAtRentFloor` | src/instructions.rs:294-314 | when owner and vault are distinct accounts, a successful withdrawal leaves the vault holding exactly the rent-exempt minimum for its data length |
| `Instructions.AliasedWithdrawKeepsBalance` | src/instructions.rs:301-314 | when one account is passed as both owner and vault, a successful withdrawal leaves it unchanged |
| `Instructions.WithdrawRejectsOtherOwnersVault` | src/instructions.rs:277-281 | if two owners derive different vault addresses, a signer presenting the other owner's vault fails with `InvalidAccountData` and nothing changes |
| `Instructions.VaultLifecycle` | src/instructions.rs:178-319 | depositing 1_000_000 and then 500_000 leaves the vault at the minimum plus 1_500_000; withdrawing then returns 1_500_000 and leaves the vault at the minimum, so the owner is out exactly the rent; this holds for a vault at the derived address in any runtime whose search and derivation agree |
| `Entrypoint.Dispatch` | src/lib.rs:22-25 | empty data or an unknown opcode gives `InvalidInstructionData`; a known opcode with fewer than two accounts gives `NotEnoughAccountKeys`; with two accounts it agrees with `DecodeData`, takes the owner and vault from accounts 0 and 1, and deposit data is exactly the encoding of its amount |
| `Entrypoint.ProcessInstruction` | src/lib.rs:17-27 | a dispatch failure is returned with every account unchanged; otherwise the result and the states of accounts 0 and 1 are those of `DepositSpec` or `WithdrawSpec`; no other account changes |
| `Entrypoint.DepositRoundTrip` | src/lib.rs:23 | for every amount in `1 .. 2^64-1`, `[0]` followed by the amount's eight little-endian bytes dispatches to a deposit of exactly that amount on accounts 0 and 1 |
| `Entrypoint.WithdrawIgnoresTrailingBytes` | src/lib.rs:24 | `[1]` followed by any bytes dispatches exactly as `[1]` does |
| `Entrypoint.ZeroAmountRejectedBeforeSignerCheck` | src/instructions.rs:227 | a zero deposit amount fails with `InvalidInstructionData` at dispatch, before the signer check could run |

## Left out

- The `ProgramIx` enum that carries the `ShankInstruction` derive exists only for IDL generation and has no runtime behaviour.
- `find_program_address` and `create_program_address` are not modelled: the SHA-256 hashing, the off-curve test and the bump search are a foreign cryptographic library. Each is an uninterpreted function of the program id, the owner key and, for the second, the bump. That the bump the search returns regenerates its address is the hypothesis `BumpRegenerates`, not a proved fact. A `create_program_address` failure on an on-curve point is not modelled: every seed set signs for some address. Uniqueness of derived addresses is likewise a hypothesis of `Instructions.WithdrawRejectsOtherOwnersVault`, not a proved fact.
- `Rent::get()` and the `minimum_balance` formula are not modelled: the formula uses a floating-point exemption threshold inside the runtime. The minimum is an uninterpreted function of data length, and the failure of `Rent::get()` is not modelled.
- Of the system program's own checks, only these are modelled: the payer's funds, overflow of the receiver, and the new account's signature. Its checks that an account is already in use, that the payer carries no data and that the payer signs are not modelled. The signer seeds sign for exactly the address `create_program_address` gives them under the program's id.
- A failed system-program invocation changes nothing in the model. The runtime aborts the whole transaction in that case anyway.
- `try_borrow_mut_lamports` borrow conflicts are not modelled: they are runtime bookkeeping, not program logic.
- The runtime's atomic rollback of a failed instruction is not modelled. Two error paths keep partial effects in the model: a withdrawal whose credit to the owner would overflow leaves the vault debited, and a deposit that created the vault but whose transfer then failed leaves the created vault. The runtime discards both.
- `log!`, the `entrypoint!` macro and `declare_id!` are left out as plumbing. The program id is the `programId` of `Runtime`. The unused `_program_id` argument of `process_instruction` is omitted.
- The contents of account data are not modelled, only its length: the program never reads or writes the vault's data.
