/** The two records the presale program stores, the seeds their addresses
    are derived from, and the account constraints each instruction checks
    before its handler runs (programs/choobin/src/contexts.rs). */
module Contexts {
  import opened Solana

  const PRESALE_INFO_SEED: string := "presale_info"
  const USER_INFO_SEED: string := "user_info"

  /** The sale ledger: one per deployment, at the address derived from
      `PRESALE_INFO_SEED` alone. */
  datatype PresaleInfo = PresaleInfo(
    isInitialized: bool,
    admin: Pubkey,
    mint: Pubkey,
    amount: u64,        // tokens the pool holds for sale
    price: u64,         // lamports per whole token, scaled by 10^9 raw units
    endTimestamp: u64,  // claims and the burn are closed until the clock passes it
    treasury: Pubkey)

  /** A participant ledger, at the address derived from `USER_INFO_SEED`
      and the participant's key; `admin` is the participant who created it. */
  datatype UserInfo = UserInfo(isInitialized: bool, admin: Pubkey, amount: u64)

  /** The zero-filled contents of a freshly created account. */
  const BLANK_PRESALE_INFO: PresaleInfo :=
    PresaleInfo(false, DEFAULT_PUBKEY, DEFAULT_PUBKEY, 0, 0, 0, DEFAULT_PUBKEY)
  const BLANK_USER_INFO: UserInfo := UserInfo(false, DEFAULT_PUBKEY, 0)

  /** The mint must have 9 decimals (`mint::decimals = 9`). */
  const MINT_DECIMALS: nat := 9

  // One predicate per instruction: the `constraint = ...` and
  // `mint::decimals` attributes of its accounts. Record existence and
  // the `init` address check are the caller's to test, because they are
  // about which accounts exist rather than about their contents.

  /** `Initialize`: the mint has 9 decimals and the treasury is not the default key. */
  predicate InitializeConstraints(mintDecimals: nat, treasury: Pubkey)
  {
    mintDecimals == MINT_DECIMALS && treasury != DEFAULT_PUBKEY
  }

  /** `DepositToken` and `BurnToken`: the mint is the sale's mint. Neither
      names an admin: any signer passes. */
  predicate SaleMintConstraint(info: PresaleInfo, mint: Pubkey)
  {
    mint == info.mint
  }

  /** `ChangeAdmin`, `ChangeTreasury` and `SetEndtime`: the signer is the admin. */
  predicate AdminConstraint(info: PresaleInfo, signer: Pubkey)
  {
    signer == info.admin
  }

  /** `ChangeAdmin`: signed by the admin, and the new admin is neither the
      default key nor the signer. */
  predicate ChangeAdminConstraints(info: PresaleInfo, admin: Pubkey, newAdmin: Pubkey)
  {
    AdminConstraint(info, admin) && newAdmin != DEFAULT_PUBKEY && newAdmin != admin
  }

  /** `ChangeTreasury`: signed by the admin, and the treasury is not the default key. */
  predicate ChangeTreasuryConstraints(info: PresaleInfo, admin: Pubkey, treasury: Pubkey)
  {
    AdminConstraint(info, admin) && treasury != DEFAULT_PUBKEY
  }

  /** `BuyToken`: the sale's mint, and the stored treasury as the payee. */
  predicate BuyTokenConstraints(info: PresaleInfo, mint: Pubkey, treasury: Pubkey)
  {
    SaleMintConstraint(info, mint) && treasury == info.treasury
  }

  /** `Claim`: the signer is the participant recorded in the ledger, and the sale's mint. */
  predicate ClaimConstraints(info: PresaleInfo, user: UserInfo, signer: Pubkey, mint: Pubkey)
  {
    signer == user.admin && SaleMintConstraint(info, mint)
  }

  /** Handing over the admin role: once a `ChangeAdmin` that passed its
      constraints has stored `newAdmin`, the admin constraint admits
      `newAdmin` and nobody else, and in particular no longer the old admin. */
  lemma AdminHandover(info: PresaleInfo, admin: Pubkey, newAdmin: Pubkey)
    requires ChangeAdminConstraints(info, admin, newAdmin)
    ensures forall k :: AdminConstraint(info.(admin := newAdmin), k) <==> k == newAdmin
    ensures !AdminConstraint(info.(admin := newAdmin), admin)
  {
  }
}
