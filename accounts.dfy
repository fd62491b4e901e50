/** Accounts as the runtime hands them to the program, and the runtime
    services the program consults. */
module Accounts {
  import opened Types

  /** The observable state of one account at one moment. */
  datatype AccountView = AccountView(
    key: Pubkey,
    isSigner: bool,
    owner: Pubkey,
    lamports: uint64,
    dataLen: nat)

  /** An account passed to an instruction. Its address and signer flag are
      fixed for the invocation; its owning program, balance and data length
      may be changed in place. */
  class Account {
    const key: Pubkey
    const isSigner: bool
    var owner: Pubkey
    var lamports: uint64
    var dataLen: nat

    constructor (key: Pubkey, isSigner: bool, owner: Pubkey, lamports: uint64, dataLen: nat)
      ensures View() == AccountView(key, isSigner, owner, lamports, dataLen)
    {
      this.key := key;
      this.isSigner := isSigner;
      this.owner := owner;
      this.lamports := lamports;
      this.dataLen := dataLen;
    }

    function View(): AccountView
      reads this
    {
      AccountView(key, isSigner, owner, lamports, dataLen)
    }
  }

  /** The two accounts an instruction works on, the owner (slot 0) and the
      vault (slot 1). The caller may pass the same account in both slots;
      `aliased` records that, and then both views are one account's. */
  datatype Pair = Pair(owner: AccountView, vault: AccountView, aliased: bool)

  predicate Coherent(p: Pair) {
    p.aliased ==> p.owner == p.vault
  }

  function Snapshot(owner: Account, vault: Account): (p: Pair)
    reads owner, vault
    ensures Coherent(p)
  {
    Pair(owner.View(), vault.View(), owner == vault)
  }

  /** The pair after the owner account becomes `a` (the vault too, if it is the same account). */
  function WithOwner(p: Pair, a: AccountView): Pair {
    Pair(a, if p.aliased then a else p.vault, p.aliased)
  }

  /** The pair after the vault account becomes `a` (the owner too, if it is the same account). */
  function WithVault(p: Pair, a: AccountView): Pair {
    Pair(if p.aliased then a else p.owner, a, p.aliased)
  }

  /** The outcome of a step together with the state of the two accounts after it. */
  datatype Step = Step(result: ProgramResult, accounts: Pair)

  /** Sum of the two balances, counting an aliased account once. */
  function Total(p: Pair): nat {
    if p.aliased then p.owner.lamports else p.owner.lamports + p.vault.lamports
  }

  /** What the runtime supplies and the program only consults: its own id;
      the program-derived-address search for a vault (`find_program_address`
      over the seeds "vault" and the owner key: given the program id and the
      owner key it yields the address and its bump); the address a full set
      of vault seeds stands for (`create_program_address` over "vault", the
      owner key and a bump, under a program id); and the rent-exempt minimum
      balance for a data length. The services are left uninterpreted. */
  datatype Runtime = Runtime(
    programId: Pubkey,
    findVaultAddress: (Pubkey, Pubkey) -> (Pubkey, uint8),
    createVaultAddress: (Pubkey, Pubkey, uint8) -> Pubkey,
    minimumBalance: nat -> uint64)

  /** The signer seeds of a vault: "vault", the owner's key and a bump. */
  datatype VaultSeeds = VaultSeeds(ownerKey: Pubkey, bump: uint8)

  /** The address that signs when the program invokes with `seeds`: the
      program-derived address of those seeds under the program's own id. */
  function SignedAddress(rt: Runtime, seeds: VaultSeeds): Pubkey {
    rt.createVaultAddress(rt.programId, seeds.ownerKey, seeds.bump)
  }

  /** The search and the derivation agree: for every owner, the bump the
      search returns regenerates, with the same seeds, the address it returns. */
  ghost predicate BumpRegenerates(rt: Runtime) {
    forall ownerKey: Pubkey ::
      rt.createVaultAddress(rt.programId, ownerKey, rt.findVaultAddress(rt.programId, ownerKey).1) ==
      rt.findVaultAddress(rt.programId, ownerKey).0
  }
}
