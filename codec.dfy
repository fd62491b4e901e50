/** The instruction-data codec: little-endian 64-bit amounts, amount parsing,
    and the wire layout of the two instructions (one opcode byte, then for a
    deposit the amount as eight little-endian bytes). */
module Codec {
  import opened Types

  /** 256 raised to the power `k`: one more than the largest value of `k` bytes. */
  function Pow256(k: nat): (p: nat)
    ensures p > 0
  {
    if k == 0 then 1 else 256 * Pow256(k - 1)
  }

  lemma Pow256Of8()
    ensures Pow256(8) == UINT64_MODULUS
  {
  }

  /** The number a little-endian byte string denotes: byte `i` weighs 256^i. */
  function LeValue(b: seq<uint8>): (n: nat)
    ensures n < Pow256(|b|)
  {
    if b == [] then 0 else b[0] + 256 * LeValue(b[1..])
  }

  /** The `len` low-order bytes of `n`, least significant first. */
  function LeBytes(n: nat, len: nat): (b: seq<uint8>)
    ensures |b| == len
  {
    if len == 0 then [] else [n % 256] + LeBytes(n / 256, len - 1)
  }

  /** Writing a value that fits in `len` bytes and reading it back gives it back. */
  lemma {:induction false} LeValueOfLeBytes(n: nat, len: nat)
    requires n < Pow256(len)
    ensures LeValue(LeBytes(n, len)) == n
  {
    if len > 0 {
      assert n / 256 < Pow256(len - 1);
      LeValueOfLeBytes(n / 256, len - 1);
      assert LeBytes(n, len)[1..] == LeBytes(n / 256, len - 1);
    }
  }

  /** Reading a byte string and writing the value back in as many bytes gives the string back. */
  lemma {:induction false} LeBytesOfLeValue(b: seq<uint8>)
    ensures LeBytes(LeValue(b), |b|) == b
  {
    if b != [] {
      var n := LeValue(b);
      assert n % 256 == b[0] && n / 256 == LeValue(b[1..]);
      LeBytesOfLeValue(b[1..]);
    }
  }

  /** `u64::from_le_bytes` on exactly eight bytes. */
  function FromLeBytes(b: seq<uint8>): (n: uint64)
    requires |b| == 8
    ensures LeValue(b) == n
  {
    Pow256Of8();
    LeValue(b)
  }

  /** `u64::to_le_bytes`: the eight-byte little-endian form of `n`. */
  function ToLeBytes(n: uint64): (b: seq<uint8>)
    ensures |b| == 8 && LeValue(b) == n
  {
    Pow256Of8();
    LeValueOfLeBytes(n, 8);
    LeBytes(n, 8)
  }

  lemma FromToLeBytes(n: uint64)
    ensures FromLeBytes(ToLeBytes(n)) == n
  {
  }

  lemma ToFromLeBytes(b: seq<uint8>)
    requires |b| == 8
    ensures ToLeBytes(FromLeBytes(b)) == b
  {
    LeBytesOfLeValue(b);
  }

  /** The deposit amount carried after the opcode: exactly eight bytes holding
      a non-zero little-endian value; anything else is `InvalidInstructionData`. */
  function ParseAmount(data: seq<uint8>): (r: Result<uint64>)
    ensures r.Ok? <==> |data| == 8 && LeValue(data) != 0
    ensures r.Err? ==> r.error == InvalidInstructionData
    ensures r.Ok? ==> r.value > 0 && ToLeBytes(r.value) == data
  {
    if |data| != 8 then
      Err(InvalidInstructionData)
    else
      var amount := FromLeBytes(data);
      if amount == 0 then
        Err(InvalidInstructionData)
      else
        ToFromLeBytes(data);
        Ok(amount)
  }

  const DEPOSIT_DISCRIMINATOR: uint8 := 0
  const WITHDRAW_DISCRIMINATOR: uint8 := 1

  /** The two instructions as the wire carries them. */
  datatype Instruction = Deposit(amount: uint64) | Withdraw

  /** A deposit of zero is not an instruction the program accepts. */
  predicate WellFormed(ix: Instruction) {
    ix.Deposit? ==> ix.amount > 0
  }

  /** The wire form a client sends: the opcode byte, then for a deposit the
      amount in little-endian order. */
  function Encode(ix: Instruction): (data: seq<uint8>)
    ensures |data| == if ix.Deposit? then 9 else 1
  {
    match ix
    case Deposit(amount) => [DEPOSIT_DISCRIMINATOR] + ToLeBytes(amount)
    case Withdraw => [WITHDRAW_DISCRIMINATOR]
  }

  /** How the program reads instruction data when enough accounts are
      supplied: split off the opcode; 0 parses a deposit amount from the rest,
      1 is a withdrawal whatever follows, and anything else (an empty slice
      included) is rejected. The program's own dispatch also checks the
      account count, between the opcode and the amount; this reading of the
      data alone is what a client's encoding is proved against, and the
      dispatch is proved to agree with it whenever two accounts are given. */
  function DecodeData(data: seq<uint8>): (r: Result<Instruction>)
    ensures r.Err? ==> r.error == InvalidInstructionData
    ensures r.Ok? ==> WellFormed(r.value)
  {
    if |data| == 0 then
      Err(InvalidInstructionData)
    else if data[0] == DEPOSIT_DISCRIMINATOR then
      match ParseAmount(data[1..])
      case Ok(amount) => Ok(Deposit(amount))
      case Err(e) => Err(e)
    else if data[0] == WITHDRAW_DISCRIMINATOR then
      Ok(Withdraw)
    else
      Err(InvalidInstructionData)
  }

  /** Every well-formed instruction survives encoding and decoding. */
  lemma RoundTrip(ix: Instruction)
    requires WellFormed(ix)
    ensures DecodeData(Encode(ix)) == Ok(ix)
  {
  }

  /** Decoding loses nothing but the bytes after a withdrawal opcode: an
      accepted deposit is exactly the encoding of its amount, and an accepted
      withdrawal starts with the encoding of `Withdraw`. */
  lemma DecodedIsEncoded(data: seq<uint8>)
    requires DecodeData(data).Ok?
    ensures var ix := DecodeData(data).value;
      if ix.Deposit? then data == Encode(ix) else data[..1] == Encode(ix)
  {
  }

  /** Bytes after a withdrawal opcode are ignored. */
  lemma WithdrawIgnoresTrailingBytes(rest: seq<uint8>)
    ensures DecodeData([WITHDRAW_DISCRIMINATOR] + rest) == Ok(Withdraw)
  {
  }

  /** A deposit opcode followed by anything but eight bytes is rejected. */
  lemma DepositNeedsEightBytes(rest: seq<uint8>)
    requires |rest| != 8
    ensures DecodeData([DEPOSIT_DISCRIMINATOR] + rest) == Err(InvalidInstructionData)
  {
  }
}
