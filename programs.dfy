/** The two programs the presale program calls: the token program (moving
    and burning tokens between token accounts) and the system program
    (moving lamports). Each is modelled only as its effect on balances and
    the conditions under which it fails. */
module Programs {
  import opened Solana
  import opened Pda

  /** The balance recorded for `k`; an account not yet in the map holds nothing. */
  function Balance<K>(m: map<K, u64>, k: K): u64
  {
    if k in m then m[k] else 0
  }

  /** Token program `transfer` of `amount` from `from` to `to`, reached
      through a cross-program call. `signed` says whether the authority of
      `from` signed: if it did not, the runtime refuses the call before the
      token program runs. The token program then refuses a source holding
      less than `amount`, and a destination that would overflow; a transfer
      to the source itself moves nothing. */
  function Transfer(balances: map<Ata, u64>, from: Ata, to: Ata, amount: u64, signed: bool)
    : (r: Result<map<Ata, u64>>)
    ensures r.Ok? <==>
      signed && amount <= Balance(balances, from) &&
      (from == to || Balance(balances, to) + amount <= U64_MAX)
    ensures !signed ==> r == Err(PrivilegeEscalation)
    ensures signed && Balance(balances, from) < amount ==> r == Err(InsufficientFunds)
    ensures (signed && amount <= Balance(balances, from) && from != to &&
             U64_MAX < Balance(balances, to) + amount) ==> r == Err(TokenOverflow)
    ensures r.Ok? && from != to ==>
              Balance(r.value, from) == Balance(balances, from) - amount &&
              Balance(r.value, to) == Balance(balances, to) + amount
    ensures r.Ok? ==> Balance(r.value, from) + Balance(r.value, to) == Balance(balances, from) + Balance(balances, to)
    ensures r.Ok? ==> forall a :: a != from && a != to ==> Balance(r.value, a) == Balance(balances, a)
  {
    if !signed then Err(PrivilegeEscalation)
    else if Balance(balances, from) < amount then Err(InsufficientFunds)
    else if from == to then Ok(balances)
    else if Balance(balances, to) + amount > U64_MAX then Err(TokenOverflow)
    else Ok(balances[from := Balance(balances, from) - amount][to := Balance(balances, to) + amount])
  }

  /** Token program `burn` of `amount` from `from`: the tokens leave
      circulation. Refused when the authority of `from` did not sign or when
      `from` holds less than `amount`. */
  function Burn(balances: map<Ata, u64>, from: Ata, amount: u64, signed: bool)
    : (r: Result<map<Ata, u64>>)
    ensures r.Ok? <==> signed && amount <= Balance(balances, from)
    ensures !signed ==> r == Err(PrivilegeEscalation)
    ensures signed && Balance(balances, from) < amount ==> r == Err(InsufficientFunds)
    ensures r.Ok? ==> Balance(r.value, from) + amount == Balance(balances, from)
    ensures r.Ok? ==> forall a :: a != from ==> Balance(r.value, a) == Balance(balances, a)
  {
    if !signed then Err(PrivilegeEscalation)
    else if Balance(balances, from) < amount then Err(InsufficientFunds)
    else Ok(balances[from := Balance(balances, from) - amount])
  }

  /** System program `transfer` of `amount` lamports, signed by `from`.
      Refused when `from` holds too few lamports or `to` would overflow. */
  function TransferLamports(lamports: map<Pubkey, u64>, from: Pubkey, to: Pubkey, amount: u64)
    : (r: Result<map<Pubkey, u64>>)
    ensures r.Ok? <==>
      amount <= Balance(lamports, from) &&
      (from == to || Balance(lamports, to) + amount <= U64_MAX)
    ensures Balance(lamports, from) < amount ==> r == Err(InsufficientLamports)
    ensures (amount <= Balance(lamports, from) && from != to &&
             U64_MAX < Balance(lamports, to) + amount) ==> r == Err(LamportsOverflow)
    ensures r.Ok? && from != to ==>
              Balance(r.value, from) == Balance(lamports, from) - amount &&
              Balance(r.value, to) == Balance(lamports, to) + amount
    ensures r.Ok? ==> Balance(r.value, from) + Balance(r.value, to) == Balance(lamports, from) + Balance(lamports, to)
    ensures r.Ok? ==> forall k :: k != from && k != to ==> Balance(r.value, k) == Balance(lamports, k)
  {
    if Balance(lamports, from) < amount then Err(InsufficientLamports)
    else if from == to then Ok(lamports)
    else if Balance(lamports, to) + amount > U64_MAX then Err(LamportsOverflow)
    else Ok(lamports[from := Balance(lamports, from) - amount][to := Balance(lamports, to) + amount])
  }
}
