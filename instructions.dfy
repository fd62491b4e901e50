/** The vault program's instruction logic: building a deposit or a withdrawal
    from the instruction data and the accounts, creating the vault on first
    use, and moving lamports between the owner and the vault. */
module Instructions {
  import opened Types
  import opened Accounts
  import Codec
  import SystemProgram

  /** Size of the account-type tag at the front of a vault's data. */
  const ACCOUNT_DISCRIMINATOR_SIZE: nat := 8
  /** A vault's data: the tag followed by one u64. */
  const VAULT_SIZE: nat := ACCOUNT_DISCRIMINATOR_SIZE + 8

  /** The owner's vault address and its bump, derived from the seeds "vault"
      and the owner's key under this program's id. In a runtime whose search
      and derivation agree, the seeds with the returned bump sign for exactly
      the returned address. */
  function DeriveVault(rt: Runtime, ownerKey: Pubkey): (r: (Pubkey, uint8))
    ensures r == rt.findVaultAddress(rt.programId, ownerKey)
    ensures BumpRegenerates(rt) ==> SignedAddress(rt, VaultSeeds(ownerKey, r.1)) == r.0
  {
    rt.findVaultAddress(rt.programId, ownerKey)
  }

  /** The signer seeds the vault is created with: "vault", the owner's key
      and the bump of the owner's derived vault address. */
  function VaultSigner(rt: Runtime, ownerKey: Pubkey): VaultSeeds {
    VaultSeeds(ownerKey, DeriveVault(rt, ownerKey).1)
  }

  /** A vault being created is authorised when it signs itself or is the
      address the vault signer seeds sign for. */
  predicate CreationAuthorised(rt: Runtime, p: Pair) {
    p.vault.isSigner || p.vault.key == SignedAddress(rt, VaultSigner(rt, p.owner.key))
  }

  /** An account holds at least the rent-exempt minimum for its data length. */
  predicate RentExempt(rt: Runtime, a: AccountView) {
    a.lamports >= rt.minimumBalance(a.dataLen)
  }

  // ---------------------------------------------------------------------
  // ensure_vault_exists

  /** The owner must sign. A vault holding no lamports is created: given
      VAULT_SIZE bytes, this program as owner and the rent-exempt minimum for
      that size, paid by the owner and signed for with the vault's seeds. A
      vault that holds lamports is accepted only if this program owns it. */
  function EnsureVaultExistsSpec(rt: Runtime, p: Pair): (s: Step)
    requires Coherent(p)
    ensures Coherent(s.accounts)
    ensures !p.owner.isSigner ==> s == Step(Err(InvalidAccountOwner), p)
    ensures s.result.Err? ==> s.accounts == p
    ensures s.result.Ok? ==> p.owner.isSigner && s.accounts.vault.owner == rt.programId
    ensures s.result.Ok? && p.vault.lamports != 0 ==> s.accounts == p
    ensures s.result.Ok? && p.vault.lamports == 0 ==>
      s.accounts.vault.dataLen == VAULT_SIZE &&
      s.accounts.vault.lamports == rt.minimumBalance(VAULT_SIZE) &&
      CreationAuthorised(rt, p)
    ensures Total(s.accounts) == Total(p)
  {
    if !p.owner.isSigner then
      Step(Err(InvalidAccountOwner), p)
    else if p.vault.lamports == 0 then
      SystemProgram.CreateAccountSpec(rt, p, VaultSigner(rt, p.owner.key), rt.minimumBalance(VAULT_SIZE),
                                      VAULT_SIZE, rt.programId)
    else if p.vault.owner != rt.programId then
      Step(Err(InvalidAccountOwner), p)
    else
      Step(Ok(()), p)
  }

  method EnsureVaultExists(rt: Runtime, owner: Account, vault: Account) returns (r: ProgramResult)
    modifies owner, vault
    ensures Step(r, Snapshot(owner, vault)) == EnsureVaultExistsSpec(rt, old(Snapshot(owner, vault)))
  {
    if !owner.isSigner {
      return Err(InvalidAccountOwner);
    }
    if vault.lamports == 0 {
      var (_, bump) := DeriveVault(rt, owner.key);
      var signer := VaultSeeds(owner.key, bump);
      var neededLamports := rt.minimumBalance(VAULT_SIZE);
      r := SystemProgram.CreateAccount(rt, owner, vault, signer, neededLamports, VAULT_SIZE, rt.programId);
      if r.Err? {
        return;
      }
    } else if vault.owner != rt.programId {
      return Err(InvalidAccountOwner);
    }
    r := Ok(());
  }

  // ---------------------------------------------------------------------
  // Deposit

  /** A decoded deposit: the owner (payer), the vault and the amount. */
  datatype Deposit = Deposit(owner: Account, vault: Account, amount: uint64)

  /** `Deposit::try_from`: at least two accounts (owner, then vault), checked
      before the amount is parsed. */
  function DepositTryFrom(data: seq<uint8>, accounts: seq<Account>): (r: Result<Deposit>)
    ensures |accounts| < 2 ==> r == Err(NotEnoughAccountKeys)
    ensures |accounts| >= 2 ==> (r.Ok? <==> Codec.ParseAmount(data).Ok?)
    ensures |accounts| >= 2 && r.Err? ==> r.error == InvalidInstructionData
    ensures r.Ok? ==>
      r.value.owner == accounts[0] && r.value.vault == accounts[1] &&
      r.value.amount > 0 && Codec.ToLeBytes(r.value.amount) == data
  {
    if |accounts| < 2 then
      Err(NotEnoughAccountKeys)
    else
      var owner := accounts[0];
      var vault := accounts[1];
      match Codec.ParseAmount(data)
      case Err(e) => Err(e)
      case Ok(amount) => Ok(Deposit(owner, vault, amount))
  }

  /** `Deposit::process`: make sure the vault exists, then transfer the amount
      from the owner to the vault. The vault's address is never compared with
      the derived one here; only creation needs the derived address to sign. */
  function DepositSpec(rt: Runtime, p: Pair, amount: uint64): (s: Step)
    requires Coherent(p)
    ensures Coherent(s.accounts)
    ensures s.result.Ok? ==>
      p.owner.isSigner && s.accounts.vault.owner == rt.programId &&
      s.accounts.vault.key == p.vault.key && Total(s.accounts) == Total(p)
    ensures s.result.Ok? && !p.aliased ==>
      var fee := if p.vault.lamports == 0 then rt.minimumBalance(VAULT_SIZE) else 0;
      s.accounts.vault.lamports == p.vault.lamports + fee + amount &&
      s.accounts.owner.lamports == p.owner.lamports - fee - amount
  {
    var ensured := EnsureVaultExistsSpec(rt, p);
    if ensured.result.Err? then ensured
    else SystemProgram.TransferSpec(ensured.accounts, amount)
  }

  method ProcessDeposit(rt: Runtime, d: Deposit) returns (r: ProgramResult)
    modifies d.owner, d.vault
    ensures Step(r, Snapshot(d.owner, d.vault)) == DepositSpec(rt, old(Snapshot(d.owner, d.vault)), d.amount)
  {
    r := EnsureVaultExists(rt, d.owner, d.vault);
    if r.Err? {
      return;
    }
    r := SystemProgram.Transfer(d.owner, d.vault, d.amount);
  }

  /** A deposit whose owner does not sign fails with `InvalidAccountOwner` and changes nothing. */
  lemma DepositRejectsNonSigner(rt: Runtime, p: Pair, amount: uint64)
    requires Coherent(p) && !p.owner.isSigner
    ensures DepositSpec(rt, p, amount) == Step(Err(InvalidAccountOwner), p)
  {
  }

  /** A deposit into a vault that holds lamports but is not this program's
      fails with `InvalidAccountOwner` and transfers nothing. */
  lemma DepositRejectsForeignVault(rt: Runtime, p: Pair, amount: uint64)
    requires Coherent(p) && p.owner.isSigner
    requires p.vault.lamports != 0 && p.vault.owner != rt.programId
    ensures DepositSpec(rt, p, amount) == Step(Err(InvalidAccountOwner), p)
  {
  }

  /** A successful first deposit leaves a program-owned vault of VAULT_SIZE
      bytes holding the rent-exempt minimum plus the amount, at an address the
      vault's own signature or the derived address authorised. */
  lemma DepositCreatesVault(rt: Runtime, p: Pair, amount: uint64)
    requires Coherent(p) && !p.aliased && p.vault.lamports == 0
    requires DepositSpec(rt, p, amount).result.Ok?
    ensures var v := DepositSpec(rt, p, amount).accounts.vault;
      v.owner == rt.programId && v.dataLen == VAULT_SIZE &&
      v.lamports == rt.minimumBalance(VAULT_SIZE) + amount &&
      CreationAuthorised(rt, p)
  {
  }

  /** A first deposit by a signing owner succeeds exactly when the vault is
      authorised (it signs, or it is the derived address the seeds sign for)
      and the owner can pay the rent-exempt minimum plus the amount; the owner
      then loses exactly that and nothing else about it changes. Without the
      signature, or without the funds for the creation, nothing changes. */
  lemma FirstDeposit(rt: Runtime, p: Pair, amount: uint64)
    requires Coherent(p) && !p.aliased && p.owner.isSigner && p.vault.lamports == 0
    ensures var s := DepositSpec(rt, p, amount);
      var rent := rt.minimumBalance(VAULT_SIZE);
      var authorised := CreationAuthorised(rt, p);
      (s.result.Ok? <==> authorised && rent + amount <= p.owner.lamports) &&
      (s.result.Ok? ==> s.accounts.owner == p.owner.(lamports := p.owner.lamports - rent - amount)) &&
      (!authorised || rent > p.owner.lamports ==> s.accounts == p)
  {
  }

  /** Into an existing program-owned vault, a deposit is exactly a transfer of
      the amount: it succeeds iff the owner can pay and the vault cannot
      overflow, and then the vault gains and the owner loses exactly `amount`. */
  lemma DepositIntoExistingVault(rt: Runtime, p: Pair, amount: uint64)
    requires Coherent(p) && !p.aliased && p.owner.isSigner
    requires p.vault.lamports != 0 && p.vault.owner == rt.programId
    ensures var s := DepositSpec(rt, p, amount);
      (s.result.Ok? <==> amount <= p.owner.lamports && p.vault.lamports + amount <= UINT64_MAX) &&
      (s.result.Ok? ==>
        s.accounts.vault == p.vault.(lamports := p.vault.lamports + amount) &&
        s.accounts.owner == p.owner.(lamports := p.owner.lamports - amount)) &&
      (s.result.Err? ==> s.accounts == p)
  {
  }

  /** Deposit never checks an existing vault's address: changing the key of a
      vault that holds lamports changes neither the outcome nor the balances. */
  lemma DepositIgnoresVaultKey(rt: Runtime, p: Pair, key: Pubkey, amount: uint64)
    requires Coherent(p) && !p.aliased && p.vault.lamports != 0
    ensures var q := p.(vault := p.vault.(key := key));
      var s, t := DepositSpec(rt, p, amount), DepositSpec(rt, q, amount);
      t.result == s.result &&
      t.accounts.owner == s.accounts.owner &&
      t.accounts.vault == s.accounts.vault.(key := key)
  {
  }

  /** Passing one account as both owner and vault never changes its balance. */
  lemma AliasedDepositKeepsBalance(rt: Runtime, p: Pair, amount: uint64)
    requires Coherent(p) && p.aliased
    ensures DepositSpec(rt, p, amount).accounts.owner.lamports == p.owner.lamports
  {
  }

  /** A deposit that succeeds leaves the vault rent-exempt if it was new or already rent-exempt. */
  lemma DepositKeepsVaultRentExempt(rt: Runtime, p: Pair, amount: uint64)
    requires Coherent(p) && (p.vault.lamports == 0 || RentExempt(rt, p.vault))
    requires DepositSpec(rt, p, amount).result.Ok?
    ensures RentExempt(rt, DepositSpec(rt, p, amount).accounts.vault)
  {
  }

  // ---------------------------------------------------------------------
  // Withdraw

  /** A decoded withdrawal: the owner and the vault. */
  datatype Withdraw = Withdraw(owner: Account, vault: Account)

  /** `Withdraw::try_from`: at least two accounts, owner then vault. */
  function WithdrawTryFrom(accounts: seq<Account>): (r: Result<Withdraw>)
    ensures r.Ok? <==> |accounts| >= 2
    ensures r.Err? ==> r.error == NotEnoughAccountKeys
    ensures r.Ok? ==> r.value.owner == accounts[0] && r.value.vault == accounts[1]
  {
    if |accounts| < 2 then Err(NotEnoughAccountKeys)
    else Ok(Withdraw(accounts[0], accounts[1]))
  }

  /** `Withdraw::process`: the owner must sign, the vault must be this
      program's and sit at the owner's derived address; everything above the
      rent-exempt minimum for the vault's data length moves to the owner. The
      vault is debited before the owner is credited, so when crediting would
      overflow the error is returned with the vault already debited. */
  function WithdrawSpec(rt: Runtime, p: Pair): (s: Step)
    requires Coherent(p)
    ensures Coherent(s.accounts)
    ensures s.result.Ok? ==>
      p.owner.isSigner && p.vault.owner == rt.programId &&
      p.vault.key == DeriveVault(rt, p.owner.key).0 &&
      p.vault.lamports > rt.minimumBalance(p.vault.dataLen) &&
      Total(s.accounts) == Total(p)
    ensures var minBalance := rt.minimumBalance(p.vault.dataLen);
      s.result.Ok? <==>
        p.owner.isSigner && p.vault.owner == rt.programId &&
        p.vault.key == DeriveVault(rt, p.owner.key).0 &&
        p.vault.lamports > minBalance &&
        (p.aliased || p.owner.lamports + (p.vault.lamports - minBalance) <= UINT64_MAX)
    ensures s.result.Ok? && !p.aliased ==>
      var surplus := p.vault.lamports - rt.minimumBalance(p.vault.dataLen);
      s.accounts.vault == p.vault.(lamports := rt.minimumBalance(p.vault.dataLen)) &&
      s.accounts.owner == p.owner.(lamports := p.owner.lamports + surplus)
  {
    if !p.owner.isSigner then
      Step(Err(InvalidAccountOwner), p)
    else if p.vault.owner != rt.programId then
      Step(Err(InvalidAccountOwner), p)
    else if p.vault.key != DeriveVault(rt, p.owner.key).0 then
      Step(Err(InvalidAccountData), p)
    else
      var minBalance := rt.minimumBalance(p.vault.dataLen);
      var current := p.vault.lamports;
      if current <= minBalance then
        Step(Err(InsufficientFunds), p)
      else
        var amount := current - minBalance;
        var debited := WithVault(p, p.vault.(lamports := current - amount));
        if debited.owner.lamports + amount > UINT64_MAX then
          Step(Err(InsufficientFunds), debited)
        else
          Step(Ok(()), WithOwner(debited, debited.owner.(lamports := debited.owner.lamports + amount)))
  }

  method ProcessWithdraw(rt: Runtime, w: Withdraw) returns (r: ProgramResult)
    modifies w.owner, w.vault
    ensures Step(r, Snapshot(w.owner, w.vault)) == WithdrawSpec(rt, old(Snapshot(w.owner, w.vault)))
  {
    var owner, vault := w.owner, w.vault;
    if !owner.isSigner {
      return Err(InvalidAccountOwner);
    }
    if vault.owner != rt.programId {
      return Err(InvalidAccountOwner);
    }
    var (expectedVault, _) := DeriveVault(rt, owner.key);
    if vault.key != expectedVault {
      return Err(InvalidAccountData);
    }
    var minBalance := rt.minimumBalance(vault.dataLen);
    var current := vault.lamports;
    if current <= minBalance {
      return Err(InsufficientFunds);
    }
    var amount := current - minBalance;
    // The checked subtraction cannot fail: 0 < amount <= current.
    vault.lamports := vault.lamports - amount;
    if owner.lamports + amount > UINT64_MAX {
      return Err(InsufficientFunds);
    }
    owner.lamports := owner.lamports + amount;
    r := Ok(());
  }

  /** The withdrawal checks run in a fixed order, each failure leaving both
      accounts as they were: signer, then vault ownership (both
      `InvalidAccountOwner`), then the derived address (`InvalidAccountData`). */
  lemma WithdrawCheckOrder(rt: Runtime, p: Pair)
    requires Coherent(p)
    ensures !p.owner.isSigner ==>
      WithdrawSpec(rt, p) == Step(Err(InvalidAccountOwner), p)
    ensures p.owner.isSigner && p.vault.owner != rt.programId ==>
      WithdrawSpec(rt, p) == Step(Err(InvalidAccountOwner), p)
    ensures (p.owner.isSigner && p.vault.owner == rt.programId &&
             p.vault.key != DeriveVault(rt, p.owner.key).0) ==>
      WithdrawSpec(rt, p) == Step(Err(InvalidAccountData), p)
  {
  }

  /** Once the checks pass, `InsufficientFunds` arises exactly when nothing lies
      above the rent-exempt minimum (nothing changes) or crediting the owner
      would overflow; the subtraction from the vault never fails. */
  lemma WithdrawInsufficientFunds(rt: Runtime, p: Pair)
    requires Coherent(p) && p.owner.isSigner && p.vault.owner == rt.programId
    requires p.vault.key == DeriveVault(rt, p.owner.key).0
    ensures var minBalance := rt.minimumBalance(p.vault.dataLen);
      var s := WithdrawSpec(rt, p);
      (p.vault.lamports <= minBalance ==> s == Step(Err(InsufficientFunds), p)) &&
      (s.result == Err(InsufficientFunds) <==>
        p.vault.lamports <= minBalance ||
        (!p.aliased && p.owner.lamports + (p.vault.lamports - minBalance) > UINT64_MAX))
  {
  }

  /** When crediting the owner overflows, the error leaves the vault already
      drained to the minimum and the owner unchanged. */
  lemma WithdrawOverflowLeavesVaultDebited(rt: Runtime, p: Pair)
    requires Coherent(p) && !p.aliased && p.owner.isSigner && p.vault.owner == rt.programId
    requires p.vault.key == DeriveVault(rt, p.owner.key).0
    requires p.vault.lamports > rt.minimumBalance(p.vault.dataLen)
    requires p.owner.lamports + (p.vault.lamports - rt.minimumBalance(p.vault.dataLen)) > UINT64_MAX
    ensures WithdrawSpec(rt, p) ==
      Step(Err(InsufficientFunds), p.(vault := p.vault.(lamports := rt.minimumBalance(p.vault.dataLen))))
  {
  }

  /** A successful withdrawal leaves the vault at exactly its rent-exempt minimum. */
  lemma WithdrawLeavesVaultAtRentFloor(rt: Runtime, p: Pair)
    requires Coherent(p) && !p.aliased && WithdrawSpec(rt, p).result.Ok?
    ensures var v := WithdrawSpec(rt, p).accounts.vault;
      RentExempt(rt, v) && v.lamports == rt.minimumBalance(v.dataLen)
  {
  }

  /** Passing one account as both owner and vault, a withdrawal that succeeds changes nothing. */
  lemma AliasedWithdrawKeepsBalance(rt: Runtime, p: Pair)
    requires Coherent(p) && p.aliased && WithdrawSpec(rt, p).result.Ok?
    ensures WithdrawSpec(rt, p).accounts == p
  {
  }

  /** If distinct owners derive distinct vaults, no signer can drain a vault
      derived for a different owner. */
  lemma WithdrawRejectsOtherOwnersVault(rt: Runtime, p: Pair, victim: Pubkey)
    requires Coherent(p) && p.owner.isSigner && p.vault.owner == rt.programId
    requires DeriveVault(rt, victim).0 != DeriveVault(rt, p.owner.key).0
    requires p.vault.key == DeriveVault(rt, victim).0
    ensures WithdrawSpec(rt, p) == Step(Err(InvalidAccountData), p)
  {
  }

  // ---------------------------------------------------------------------
  // A vault's life

  /** A first deposit of 1_000_000 creates the vault with the rent-exempt
      minimum plus that amount; a second of 500_000 adds to it; a withdrawal
      then returns all 1_500_000 to the owner and leaves the vault at the
      minimum, so the owner has paid exactly the vault's rent. */
  lemma VaultLifecycle(rt: Runtime, owner: AccountView, vault: AccountView)
    requires BumpRegenerates(rt)
    requires owner.isSigner && vault.lamports == 0
    requires vault.key == DeriveVault(rt, owner.key).0
    requires owner.lamports >= rt.minimumBalance(VAULT_SIZE) + 1_500_000
    ensures var rent := rt.minimumBalance(VAULT_SIZE);
      var s1 := DepositSpec(rt, Pair(owner, vault, false), 1_000_000);
      var s2 := DepositSpec(rt, s1.accounts, 500_000);
      var s3 := WithdrawSpec(rt, s2.accounts);
      s1.result.Ok? && s1.accounts.vault.lamports == rent + 1_000_000 &&
      s2.result.Ok? && s2.accounts.vault.lamports == rent + 1_500_000 &&
      s3.result.Ok? && s3.accounts.vault.lamports == rent &&
      s3.accounts.owner.lamports == s2.accounts.owner.lamports + 1_500_000 &&
      s3.accounts.owner.lamports == owner.lamports - rent
  {
  }
}
