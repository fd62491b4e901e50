/** Primitive types shared by the vault program model: bytes, 64-bit lamport
    amounts, 32-byte public keys, and the runtime's error and result types. */
module Types {

  /** An unsigned byte of instruction data. */
  type uint8 = x: int | 0 <= x < 256

  const UINT64_MODULUS: int := 0x1_0000_0000_0000_0000
  const UINT64_MAX: int := UINT64_MODULUS - 1

  /** An unsigned 64-bit integer; every lamport balance and amount has this width. */
  type uint64 = x: int | 0 <= x < UINT64_MODULUS

  const PUBKEY_LEN: nat := 32

  /** A 32-byte public key (account address or program id). */
  type Pubkey = k: seq<uint8> | |k| == PUBKEY_LEN witness seq(32, _ => 0)

  /** The subset of the runtime's program errors this program can return,
      directly or from a system-program invocation. */
  datatype ProgramError =
    | InvalidInstructionData
    | InvalidAccountData
    | InsufficientFunds
    | NotEnoughAccountKeys
    | InvalidAccountOwner
    | MissingRequiredSignature
    | ArithmeticOverflow
    | Custom(code: nat)

  /** The result of a fallible step; `Err` carries the program error. */
  datatype Result<+T> = Ok(value: T) | Err(error: ProgramError) {
    predicate IsFailure() {
      Err?
    }

    function PropagateFailure<U>(): Result<U>
      requires Err?
    {
      Err(error)
    }

    function Extract(): T
      requires Ok?
    {
      value
    }
  }

  /** What an instruction handler returns: success carries nothing. */
  type ProgramResult = Result<()>
}
