/** The program's entry point: split the opcode off the instruction data,
    build the matching instruction from the rest and the accounts, and run it. */
module Entrypoint {
  import opened Types
  import opened Accounts
  import Codec
  import Instructions

  /** An instruction built from the data and the accounts, ready to run. */
  datatype Routed =
    | RoutedDeposit(deposit: Instructions.Deposit)
    | RoutedWithdraw(withdraw: Instructions.Withdraw)

  /** Everything `process_instruction` decides before any account is touched.
      An unknown or missing opcode is reported before the account count, and
      the account count before the deposit amount. */
  function Dispatch(data: seq<uint8>, accounts: seq<Account>): (r: Result<Routed>)
    ensures (|data| == 0 || data[0] !in {Codec.DEPOSIT_DISCRIMINATOR, Codec.WITHDRAW_DISCRIMINATOR}) ==>
      r == Err(InvalidInstructionData)
    ensures (|data| > 0 && data[0] in {Codec.DEPOSIT_DISCRIMINATOR, Codec.WITHDRAW_DISCRIMINATOR} &&
             |accounts| < 2) ==>
      r == Err(NotEnoughAccountKeys)
    ensures |accounts| >= 2 ==>
      (r.Ok? <==> Codec.DecodeData(data).Ok?) &&
      (r.Err? ==> r.error == InvalidInstructionData)
    ensures r.Ok? ==>
      match r.value
      case RoutedDeposit(d) =>
        d.owner == accounts[0] && d.vault == accounts[1] && d.amount > 0 &&
        data == Codec.Encode(Codec.Deposit(d.amount)) &&
        Codec.DecodeData(data) == Ok(Codec.Deposit(d.amount))
      case RoutedWithdraw(w) =>
        w.owner == accounts[0] && w.vault == accounts[1] &&
        data[..1] == Codec.Encode(Codec.Withdraw) &&
        Codec.DecodeData(data) == Ok(Codec.Withdraw)
  {
    if |data| == 0 then
      Err(InvalidInstructionData)
    else if data[0] == Codec.DEPOSIT_DISCRIMINATOR then
      match Instructions.DepositTryFrom(data[1..], accounts)
      case Err(e) => Err(e)
      case Ok(d) => Ok(RoutedDeposit(d))
    else if data[0] == Codec.WITHDRAW_DISCRIMINATOR then
      match Instructions.WithdrawTryFrom(accounts)
      case Err(e) => Err(e)
      case Ok(w) => Ok(RoutedWithdraw(w))
    else
      Err(InvalidInstructionData)
  }

  /** `process_instruction`: a dispatch failure is returned before any account
      changes; otherwise the chosen instruction runs on accounts 0 and 1 and no
      other account is touched. */
  method ProcessInstruction(rt: Runtime, accounts: seq<Account>, data: seq<uint8>) returns (r: ProgramResult)
    modifies set a | a in accounts
    ensures Dispatch(data, accounts).Err? ==>
      r == Err(Dispatch(data, accounts).error) &&
      forall a :: a in accounts ==> a.View() == old(a.View())
    ensures Dispatch(data, accounts).Ok? && Dispatch(data, accounts).value.RoutedDeposit? ==>
      var d := Dispatch(data, accounts).value.deposit;
      Step(r, Snapshot(d.owner, d.vault)) ==
        Instructions.DepositSpec(rt, old(Snapshot(d.owner, d.vault)), d.amount)
    ensures Dispatch(data, accounts).Ok? && Dispatch(data, accounts).value.RoutedWithdraw? ==>
      var w := Dispatch(data, accounts).value.withdraw;
      Step(r, Snapshot(w.owner, w.vault)) == Instructions.WithdrawSpec(rt, old(Snapshot(w.owner, w.vault)))
    ensures forall a :: a in accounts && (|accounts| < 2 || (a != accounts[0] && a != accounts[1])) ==>
      a.View() == old(a.View())
  {
    if |data| == 0 {
      return Err(InvalidInstructionData);
    }
    var opcode, rest := data[0], data[1..];
    if opcode == Codec.DEPOSIT_DISCRIMINATOR {
      var deposit := Instructions.DepositTryFrom(rest, accounts);
      if deposit.Err? {
        return Err(deposit.error);
      }
      r := Instructions.ProcessDeposit(rt, deposit.value);
    } else if opcode == Codec.WITHDRAW_DISCRIMINATOR {
      var withdraw := Instructions.WithdrawTryFrom(accounts);
      if withdraw.Err? {
        return Err(withdraw.error);
      }
      r := Instructions.ProcessWithdraw(rt, withdraw.value);
    } else {
      r := Err(InvalidInstructionData);
    }
  }

  /** The deposit a client encodes is the deposit the program runs, with the
      owner and vault taken from the first two accounts. */
  lemma DepositRoundTrip(amount: uint64, accounts: seq<Account>)
    requires amount > 0 && |accounts| >= 2
    ensures Dispatch(Codec.Encode(Codec.Deposit(amount)), accounts) ==
      Ok(RoutedDeposit(Instructions.Deposit(accounts[0], accounts[1], amount)))
  {
  }

  /** Whatever follows a withdrawal opcode, the same withdrawal is routed. */
  lemma WithdrawIgnoresTrailingBytes(rest: seq<uint8>, accounts: seq<Account>)
    ensures Dispatch([Codec.WITHDRAW_DISCRIMINATOR] + rest, accounts) ==
      Dispatch([Codec.WITHDRAW_DISCRIMINATOR], accounts)
  {
  }

  /** A zero amount is rejected while the instruction is built, before the
      deposit's signer check could run. */
  lemma ZeroAmountRejectedBeforeSignerCheck(accounts: seq<Account>)
    requires |accounts| >= 2
    ensures Dispatch([Codec.DEPOSIT_DISCRIMINATOR] + Codec.ToLeBytes(0), accounts) ==
      Err(InvalidInstructionData)
  {
  }
}
