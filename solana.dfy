/** The runtime vocabulary the presale program is written against: Rust's
    fixed-width integers, Solana public keys, and the errors that make an
    instruction revert. */
module Solana {

  newtype byte = x: int | 0 <= x < 0x100

  const U64_MODULUS: int := 0x1_0000_0000_0000_0000
  const U64_MAX: int := U64_MODULUS - 1
  const I64_MIN: int := -0x8000_0000_0000_0000
  const I64_MAX: int := 0x7FFF_FFFF_FFFF_FFFF

  /** Rust's `u64` and `i64`, as bounded mathematical integers. */
  type u64 = x: int | 0 <= x <= U64_MAX
  type i64 = x: int | I64_MIN <= x <= I64_MAX

  /** 256 to the power `n`: the number of values `n` bytes can hold. */
  function Pow256(n: nat): (p: nat)
    ensures p > 0
  {
    if n == 0 then 1 else 256 * Pow256(n - 1)
  }

  /** A 32-byte public key, read as the big-endian number its bytes spell;
      `Pubkey::default()`, the all-zero key, is 0. */
  type Pubkey = k: int | 0 <= k < KEY_SPACE

  const KEY_LENGTH: nat := 32
  const KEY_SPACE: nat := 0x1_0000_0000_0000_0000_0000_0000_0000_0000_0000_0000_0000_0000_0000_0000_0000_0000

  /** Bytes multiply the values they can hold. */
  lemma {:induction false} Pow256Add(a: nat, b: nat)
    ensures Pow256(a + b) == Pow256(a) * Pow256(b)
    decreases a
  {
    if a > 0 {
      Pow256Add(a - 1, b);
      assert Pow256(a + b) == 256 * Pow256(a - 1 + b);
    }
  }

  /** 32 bytes hold exactly the values below `KEY_SPACE`. */
  lemma KeySpaceIsPow256()
    ensures Pow256(KEY_LENGTH) == KEY_SPACE
  {
    var p2 := Pow256(2);
    assert p2 == 0x1_0000;
    Pow256Add(2, 2);
    var p4 := Pow256(4);
    assert p4 == 0x1_0000_0000;
    Pow256Add(4, 4);
    var p8 := Pow256(8);
    assert p8 == 0x1_0000_0000_0000_0000;
    Pow256Add(8, 8);
    var p16 := Pow256(16);
    assert p16 == 0x1_0000_0000_0000_0000_0000_0000_0000_0000;
    Pow256Add(16, 16);
  }

  const DEFAULT_PUBKEY: Pubkey := 0

  /** The `n` bytes of `x`, most significant first, keeping `x`'s last `n`
      base-256 digits. */
  function BigEndian(n: nat, x: nat): (b: seq<byte>)
    ensures |b| == n
  {
    if n == 0 then [] else BigEndian(n - 1, x / 256) + [(x % 256) as byte]
  }

  /** A key's 32 bytes (`Pubkey::as_ref`), as they enter a seed list. */
  function KeyBytes(k: Pubkey): (b: seq<byte>)
    ensures |b| == KEY_LENGTH
  {
    BigEndian(KEY_LENGTH, k)
  }

  /** Numbers that fit in `n` bytes have different encodings. */
  lemma {:induction false} BigEndianInjective(n: nat, x: nat, y: nat)
    requires x < Pow256(n) && y < Pow256(n)
    requires BigEndian(n, x) == BigEndian(n, y)
    ensures x == y
  {
    if n > 0 {
      var ex, ey := BigEndian(n, x), BigEndian(n, y);
      assert ex[..n - 1] == BigEndian(n - 1, x / 256);
      assert ey[..n - 1] == BigEndian(n - 1, y / 256);
      assert ex[n - 1] as int == x % 256 && ey[n - 1] as int == y % 256;
      BigEndianInjective(n - 1, x / 256, y / 256);
    }
  }

  /** Different keys have different bytes. */
  lemma KeyBytesInjective(k1: Pubkey, k2: Pubkey)
    requires KeyBytes(k1) == KeyBytes(k2)
    ensures k1 == k2
  {
    KeySpaceIsPow256();
    BigEndianInjective(KEY_LENGTH, k1, k2);
  }

  /** Why an instruction reverts. All of them discard every effect of the
      instruction (the runtime commits a transaction atomically). */
  datatype Error =
    | AccountNotInitialized     // a record account the instruction reads does not exist
    | AccountAlreadyInUse       // `init` on an address that already holds an account
    | ConstraintRaw             // an account `constraint = ...` evaluated to false
    | ConstraintMintDecimals    // `mint::decimals = ...` did not hold
    | PrivilegeEscalation       // a cross-program call names a signer the program cannot sign for (also
                                // stands for the runtime's invalid-seeds error: the address hash is not modelled)
    | InsufficientFunds         // token program: source token account balance too small
    | TokenOverflow             // token program: destination balance would exceed u64
    | InsufficientLamports      // system program: payer's lamports too few
    | LamportsOverflow          // system program: recipient's lamports would exceed u64
    | ArithmeticOverflow        // a u64 `+`, `-` or `*` in the program overflowed (panic)
    | DivisionByZero            // a u64 `/` by zero in the program (panic)

  datatype Result<+T> = Ok(value: T) | Err(error: Error) {
    predicate IsFailure() { Err? }

    function PropagateFailure<U>(): Result<U>
      requires Err?
    {
      Err(error)
    }

    function Extract(): T
      requires Ok?
    {
      value
    }

    /** The outcome without the value: what an instruction reports. */
    function Status(): Result<()>
    {
      if Ok? then Ok(()) else Err(error)
    }
  }

  /** `x as u64` for an `i64`: the same 64 bits read as unsigned, so a
      negative value becomes a value above `I64_MAX`. */
  function AsU64(x: i64): (r: u64)
    ensures r % U64_MODULUS == x % U64_MODULUS
    ensures 0 <= x <==> r <= I64_MAX
  {
    if x < 0 then x + U64_MODULUS else x
  }
}
