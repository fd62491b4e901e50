/** The two system-program instructions the vault program invokes, modelled by
    their effect on the accounts. Both always move lamports from the pair's
    owner (the payer) to its vault. A failed invocation changes nothing. */
module SystemProgram {
  import opened Types
  import opened Accounts

  /** The system program's error codes, returned as custom program errors. */
  const RESULT_WITH_NEGATIVE_LAMPORTS: nat := 1

  /** `Transfer { from: owner, to: vault, lamports }`. */
  function TransferSpec(p: Pair, lamports: uint64): (s: Step)
    requires Coherent(p)
    ensures Coherent(s.accounts)
    ensures s.result.Ok? <==>
      lamports <= p.owner.lamports && (p.aliased || p.vault.lamports + lamports <= UINT64_MAX)
    ensures s.result.Err? ==> s.accounts == p
    ensures s.result.Ok? ==> Total(s.accounts) == Total(p)
    ensures s.result.Ok? && !p.aliased ==>
      s.accounts.owner == p.owner.(lamports := p.owner.lamports - lamports) &&
      s.accounts.vault == p.vault.(lamports := p.vault.lamports + lamports)
    ensures s.result.Ok? && p.aliased ==> s.accounts == p
  {
    if p.owner.lamports < lamports then
      Step(Err(Custom(RESULT_WITH_NEGATIVE_LAMPORTS)), p)
    else if !p.aliased && p.vault.lamports + lamports > UINT64_MAX then
      Step(Err(ArithmeticOverflow), p)
    else
      var debited := WithOwner(p, p.owner.(lamports := p.owner.lamports - lamports));
      Step(Ok(()), WithVault(debited, debited.vault.(lamports := debited.vault.lamports + lamports)))
  }

  method Transfer(from: Account, to: Account, lamports: uint64) returns (r: ProgramResult)
    modifies from, to
    ensures Step(r, Snapshot(from, to)) == TransferSpec(old(Snapshot(from, to)), lamports)
  {
    if from.lamports < lamports {
      return Err(Custom(RESULT_WITH_NEGATIVE_LAMPORTS));
    }
    if from != to && to.lamports + lamports > UINT64_MAX {
      return Err(ArithmeticOverflow);
    }
    from.lamports := from.lamports - lamports;
    to.lamports := to.lamports + lamports;
    r := Ok(());
  }

  /** `CreateAccount { from: owner, to: vault, lamports, space, owner: newOwner }`
      invoked with the signer seeds `seeds`: the new account must sign,
      either itself or as the program-derived address the seeds produce; it is
      given `space` bytes of data and the new owner, then funded from the payer. */
  function CreateAccountSpec(rt: Runtime, p: Pair, seeds: VaultSeeds, lamports: uint64, space: nat, newOwner: Pubkey)
    : (s: Step)
    requires Coherent(p)
    ensures Coherent(s.accounts)
    ensures s.result.Ok? <==>
      (p.vault.isSigner || p.vault.key == SignedAddress(rt, seeds)) &&
      lamports <= p.owner.lamports && (p.aliased || p.vault.lamports + lamports <= UINT64_MAX)
    ensures s.result.Err? ==> s.accounts == p
    ensures s.result.Ok? ==> Total(s.accounts) == Total(p)
    ensures s.result.Ok? ==>
      s.accounts.vault.owner == newOwner && s.accounts.vault.dataLen == space &&
      s.accounts.vault.key == p.vault.key
    ensures s.result.Ok? && !p.aliased ==>
      s.accounts.owner == p.owner.(lamports := p.owner.lamports - lamports) &&
      s.accounts.vault.lamports == p.vault.lamports + lamports
  {
    if !p.vault.isSigner && p.vault.key != SignedAddress(rt, seeds) then
      Step(Err(MissingRequiredSignature), p)
    else
      var created := WithVault(p, p.vault.(dataLen := space, owner := newOwner));
      var funded := TransferSpec(created, lamports);
      if funded.result.Err? then Step(funded.result, p) else funded
  }

  method CreateAccount(rt: Runtime, from: Account, to: Account, seeds: VaultSeeds,
                       lamports: uint64, space: nat, newOwner: Pubkey)
    returns (r: ProgramResult)
    modifies from, to
    ensures Step(r, Snapshot(from, to)) ==
      CreateAccountSpec(rt, old(Snapshot(from, to)), seeds, lamports, space, newOwner)
  {
    if !to.isSigner && to.key != SignedAddress(rt, seeds) {
      return Err(MissingRequiredSignature);
    }
    if from.lamports < lamports {
      return Err(Custom(RESULT_WITH_NEGATIVE_LAMPORTS));
    }
    if from != to && to.lamports + lamports > UINT64_MAX {
      return Err(ArithmeticOverflow);
    }
    to.dataLen, to.owner := space, newOwner;
    r := Transfer(from, to, lamports);
  }
}
