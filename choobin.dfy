/** The presale program (programs/choobin/src/lib.rs): the accounts it
    owns and the balances it moves, updated in place by its nine
    instructions. Each instruction checks its account constraints, then its
    handler writes the accounts it borrowed mutably; a failure anywhere
    reverts the whole instruction. Each method is proved to leave exactly
    the accounts the matching function of `Instructions` computes, and to
    keep the invariant `Valid`.

    `claim` here signs with the corrected seeds (`Pda.ClaimSignerSeeds`).
    As written, the program signs with `Pda.ClaimSignerSeedsAsWritten`, and
    every claim after the end time is refused
    (`Instructions.ClaimAsWrittenAlwaysFails`). */
module Choobin {
  import opened Solana
  import opened Contexts
  import opened Pda
  import opened Programs
  import opened Ledger
  import Instructions

  class Presale {
    /** Whether the sale record's account exists; `initialize` creates it. */
    var presaleExists: bool
    var presaleInfo: PresaleInfo
    /** Participant records, by the key of the participant they belong to. */
    var userInfos: map<Pubkey, UserInfo>
    /** Token balances of associated token accounts. */
    var tokens: map<Ata, u64>
    /** Lamport balances of wallets. */
    var lamports: map<Pubkey, u64>

    /** Tokens deposited into the pool, burned from it, and claimed out of
        the participants' escrows, since the chain began. `Valid` ties their
        balance to the accounts, so an instruction that keeps `Valid` and
        leaves two of them alone moves the third by exactly the tokens that
        entered or left the records. */
    ghost var deposited: nat
    ghost var burned: nat
    ghost var claimed: nat

    /** The accounts as they stand. */
    function State(): Instructions.Accounts
      reads this
    {
      Instructions.Accounts(presaleExists, presaleInfo, userInfos, tokens, lamports)
    }

    /** The object invariant: the accounts are consistent with the tokens
        deposited, burned and claimed so far. */
    ghost predicate Valid()
      reads this
    {
      Instructions.Consistent(State(), deposited, burned, claimed)
    }

    /** The chain before the program's first instruction: wallets hold
        tokens and lamports, and no program-controlled account holds any. */
    constructor (walletTokens: map<Ata, u64>, walletLamports: map<Pubkey, u64>)
      requires forall a :: a in walletTokens ==> a.owner.Wallet?
      ensures Valid()
      ensures !presaleExists && presaleInfo == BLANK_PRESALE_INFO && userInfos == map[]
      ensures tokens == walletTokens && lamports == walletLamports
    {
      presaleExists, presaleInfo, userInfos := false, BLANK_PRESALE_INFO, map[];
      tokens, lamports := walletTokens, walletLamports;
      deposited, burned, claimed := 0, 0, 0;
      new;
      assert deposited == 0 && burned == 0 && claimed == 0;
      Instructions.GenesisConsistent(State());
    }

    /** `initialize`: creates the sale record at its fixed address and runs
        the handler on the zero-filled record. */
    method Initialize(initializer: Pubkey, mint: Pubkey, mintDecimals: nat, treasury: Pubkey)
      returns (r: Result<()>)
      requires Valid()
      modifies this
      ensures Valid()
      ensures var next := Instructions.Initialize(old(State()), initializer, mint, mintDecimals, treasury);
              && r == next.Status()
              && (next.Err? ==> unchanged(this))
              && (next.Ok? ==> State() == next.value)
      ensures unchanged(this`deposited, this`burned, this`claimed)
    {
      Instructions.InitializeKeepsConsistent(State(), deposited, burned, claimed,
                                             initializer, mint, mintDecimals, treasury);
      if presaleExists {
        return Err(AccountAlreadyInUse);
      }
      if mintDecimals != MINT_DECIMALS {
        return Err(ConstraintMintDecimals);
      }
      if treasury == DEFAULT_PUBKEY {
        return Err(ConstraintRaw);
      }
      presaleExists, presaleInfo := true, BLANK_PRESALE_INFO;
      presaleInfo := Instructions.InitializeHandler(presaleInfo, initializer, mint, treasury);
      r := Ok(());
    }

    /** `deposit_token`: the account constraints, then the handler; the
        tokens it moves into the pool count as deposited. */
    method DepositToken(payer: Pubkey, mint: Pubkey, amount: u64) returns (r: Result<()>)
      requires Valid()
      modifies this
      ensures Valid()
      ensures var next := Instructions.DepositToken(old(State()), payer, mint, amount);
              && r == next.Status()
              && (next.Err? ==> unchanged(this))
              && (next.Ok? ==> State() == next.value && deposited == old(deposited) + amount)
      ensures unchanged(this`burned, this`claimed)
    {
      Instructions.DepositTokenKeepsConsistent(State(), deposited, burned, claimed, payer, mint, amount);
      if !presaleExists {
        return Err(AccountNotInitialized);
      }
      if !SaleMintConstraint(presaleInfo, mint) {
        return Err(ConstraintRaw);
      }
      r := DepositTokenHandler(payer, mint, amount);
      if r.Ok? {
        deposited := deposited + amount;
      }
    }

    /** The `deposit_token` handler: any signer moves `amount` tokens from
        their own token account into the pool, then the record's `amount`
        grows by as much, reverting the instruction on overflow. */
    method DepositTokenHandler(payer: Pubkey, mint: Pubkey, amount: u64) returns (r: Result<()>)
      requires presaleExists && SaleMintConstraint(presaleInfo, mint)
      modifies this`presaleInfo, this`tokens
      ensures var next := Instructions.DepositToken(old(State()), payer, mint, amount);
              && r == next.Status()
              && (next.Err? ==> unchanged(this))
              && (next.Ok? ==> State() == next.value)
    {
      // The payer signs the transaction, so it authorizes its own account.
      var moved :- Transfer(tokens, Ata(Wallet(payer), mint), Ata(PresalePda, mint), amount, true);
      if U64_MAX < presaleInfo.amount + amount {
        return Err(ArithmeticOverflow);
      }
      tokens := moved;
      presaleInfo := presaleInfo.(amount := presaleInfo.amount + amount);
      r := Ok(());
    }

    /** `burn_token`: the account constraints, then the handler; once the
        clock reads past the end time, what the pool held counts as burned. */
    method BurnToken(user: Pubkey, mint: Pubkey, now: i64) returns (r: Result<()>)
      requires Valid()
      modifies this
      ensures Valid()
      ensures var next := Instructions.BurnToken(old(State()), user, mint, now);
              && r == next.Status()
              && (next.Err? ==> unchanged(this))
              && (next.Ok? ==> State() == next.value)
      ensures unchanged(this`deposited, this`claimed)
    {
      Instructions.BurnTokenKeepsConsistent(State(), deposited, burned, claimed, user, mint, now);
      if !presaleExists {
        return Err(AccountNotInitialized);
      }
      if !SaleMintConstraint(presaleInfo, mint) {
        return Err(ConstraintRaw);
      }
      var pool := presaleInfo.amount;
      r := BurnTokenHandler(user, mint, now);
      if r.Ok? && presaleInfo.endTimestamp < AsU64(now) {
        burned := burned + pool;
      }
    }

    /** The `burn_token` handler: once the clock reads past the end time,
        the record's `amount` is burned from the pool, signed for by the
        sale record, and `amount` drops to 0; until then nothing happens. */
    method BurnTokenHandler(user: Pubkey, mint: Pubkey, now: i64) returns (r: Result<()>)
      requires presaleExists && SaleMintConstraint(presaleInfo, mint)
      modifies this`presaleInfo, this`tokens
      ensures var next := Instructions.BurnToken(old(State()), user, mint, now);
              && r == next.Status()
              && (next.Err? ==> unchanged(this))
              && (next.Ok? ==> State() == next.value)
      ensures presaleInfo.endTimestamp == old(presaleInfo.endTimestamp)
    {
      var nowTs := AsU64(now);
      if nowTs > presaleInfo.endTimestamp {
        PresaleSignerSeedsSign(BUMP);
        var left :- Burn(tokens, Ata(PresalePda, mint), presaleInfo.amount,
                         SignedBy(PresaleSignerSeeds(BUMP), PresalePda));
        tokens := left;
        presaleInfo := presaleInfo.(amount := 0);
      }
      r := Ok(());
    }

    /** `change_admin`: the admin hands the role to a new key. */
    method ChangeAdmin(admin: Pubkey, newAdmin: Pubkey) returns (r: Result<()>)
      requires Valid()
      modifies this
      ensures Valid()
      ensures var next := Instructions.ChangeAdmin(old(State()), admin, newAdmin);
              && r == next.Status()
              && (next.Err? ==> unchanged(this))
              && (next.Ok? ==> State() == next.value)
      ensures unchanged(this`deposited, this`burned, this`claimed)
    {
      if !presaleExists {
        return Err(AccountNotInitialized);
      }
      if !ChangeAdminConstraints(presaleInfo, admin, newAdmin) {
        return Err(ConstraintRaw);
      }
      Instructions.SettingsChangeKeepsConsistent(State(), deposited, burned, claimed,
                                                 newAdmin, presaleInfo.treasury, presaleInfo.endTimestamp);
      presaleInfo := presaleInfo.(admin := newAdmin);
      r := Ok(());
    }

    /** `change_treasury`: the admin names a new, non-default treasury. */
    method ChangeTreasury(admin: Pubkey, treasury: Pubkey) returns (r: Result<()>)
      requires Valid()
      modifies this
      ensures Valid()
      ensures var next := Instructions.ChangeTreasury(old(State()), admin, treasury);
              && r == next.Status()
              && (next.Err? ==> unchanged(this))
              && (next.Ok? ==> State() == next.value)
      ensures unchanged(this`deposited, this`burned, this`claimed)
    {
      if !presaleExists {
        return Err(AccountNotInitialized);
      }
      if !ChangeTreasuryConstraints(presaleInfo, admin, treasury) {
        return Err(ConstraintRaw);
      }
      Instructions.SettingsChangeKeepsConsistent(State(), deposited, burned, claimed,
                                                 presaleInfo.admin, treasury, presaleInfo.endTimestamp);
      presaleInfo := presaleInfo.(treasury := treasury);
      r := Ok(());
    }

    /** `set_endtime`: the admin sets an end time that lies after the clock;
        an end time not after it is ignored. */
    method SetEndtime(admin: Pubkey, endTimestamp: u64, now: i64) returns (r: Result<()>)
      requires Valid()
      modifies this
      ensures Valid()
      ensures var next := Instructions.SetEndtime(old(State()), admin, endTimestamp, now);
              && r == next.Status()
              && (next.Err? ==> unchanged(this))
              && (next.Ok? ==> State() == next.value)
      ensures unchanged(this`deposited, this`burned, this`claimed)
    {
      if !presaleExists {
        return Err(AccountNotInitialized);
      }
      if !AdminConstraint(presaleInfo, admin) {
        return Err(ConstraintRaw);
      }
      var nowTs := AsU64(now);
      if nowTs < endTimestamp {
        Instructions.SettingsChangeKeepsConsistent(State(), deposited, burned, claimed,
                                                   presaleInfo.admin, presaleInfo.treasury, endTimestamp);
        presaleInfo := presaleInfo.(endTimestamp := endTimestamp);
      }
      r := Ok(());
    }

    /** `create_user_info`: creates and initializes the signer's
        participant record unless it is already initialized. */
    method CreateUserInfo(user: Pubkey) returns (r: Result<()>)
      requires Valid()
      modifies this
      ensures Valid()
      ensures r == Ok(())
      ensures State() == Instructions.CreateUserInfo(old(State()), user).value
      ensures unchanged(this`deposited, this`burned, this`claimed)
    {
      Instructions.CreateUserInfoKeepsConsistent(State(), deposited, burned, claimed, user);
      // `init_if_needed` creates a missing account zero-filled; the handler
      // then initializes a record that is not initialized yet.
      var record := if user in userInfos then userInfos[user] else BLANK_USER_INFO;
      if !record.isInitialized {
        record := record.(isInitialized := true, admin := user, amount := 0);
        userInfos := userInfos[user := record];
      }
      r := Ok(());
    }

    /** `buy_token`: the account constraints, then the handler. */
    method BuyToken(user: Pubkey, mint: Pubkey, treasury: Pubkey, lamportsIn: u64) returns (r: Result<()>)
      requires Valid()
      modifies this
      ensures Valid()
      ensures var next := Instructions.BuyToken(old(State()), user, mint, treasury, lamportsIn);
              && r == next.Status()
              && (next.Err? ==> unchanged(this))
              && (next.Ok? ==> State() == next.value)
      ensures unchanged(this`deposited, this`burned, this`claimed)
    {
      Instructions.BuyTokenKeepsConsistent(State(), deposited, burned, claimed, user, mint, treasury, lamportsIn);
      if !presaleExists {
        return Err(AccountNotInitialized);
      }
      if user !in userInfos {
        return Err(AccountNotInitialized);
      }
      if !BuyTokenConstraints(presaleInfo, mint, treasury) {
        return Err(ConstraintRaw);
      }
      r := BuyTokenHandler(user, mint, treasury, lamportsIn);
    }

    /** The `buy_token` handler: the buyer pays the treasury, and the
        tokens bought move from the pool to the buyer's escrow, signed for
        by the sale record; then the record's `amount` falls and the
        buyer's rises by as much, each update reverting the instruction on
        overflow. */
    method BuyTokenHandler(user: Pubkey, mint: Pubkey, treasury: Pubkey, lamportsIn: u64) returns (r: Result<()>)
      requires presaleExists && user in userInfos && BuyTokenConstraints(presaleInfo, mint, treasury)
      modifies this`presaleInfo, this`userInfos, this`tokens, this`lamports
      ensures var next := Instructions.BuyToken(old(State()), user, mint, treasury, lamportsIn);
              && r == next.Status()
              && (next.Err? ==> unchanged(this))
              && (next.Ok? ==> State() == next.value)
    {
      // Lamports from the buyer to the treasury.
      var paid :- TransferLamports(lamports, user, treasury, lamportsIn);
      var bought :- Instructions.TokensOut(lamportsIn, presaleInfo.price);
      // Tokens from the pool to the buyer's escrow, signed for by the sale record.
      PresaleSignerSeedsSign(BUMP);
      var moved :- Transfer(tokens, Ata(PresalePda, mint), Ata(UserPda(user), mint), bought,
                            SignedBy(PresaleSignerSeeds(BUMP), PresalePda));
      var record := userInfos[user];
      if presaleInfo.amount < bought || U64_MAX < record.amount + bought {
        return Err(ArithmeticOverflow);
      }
      lamports, tokens := paid, moved;
      presaleInfo := presaleInfo.(amount := presaleInfo.amount - bought);
      userInfos := userInfos[user := record.(amount := record.amount + bought)];
      r := Ok(());
    }

    /** `claim` with the corrected signer seeds: the account constraints,
        then the handler; once the clock reads past the end time, what the
        participant was owed counts as claimed. */
    method Claim(user: Pubkey, mint: Pubkey, now: i64) returns (r: Result<()>)
      requires Valid()
      modifies this
      ensures Valid()
      ensures var next := Instructions.Claim(old(State()), user, mint, now);
              && r == next.Status()
              && (next.Err? ==> unchanged(this))
              && (next.Ok? ==> State() == next.value)
      ensures unchanged(this`deposited, this`burned)
    {
      ghost var s0 := State();
      if !presaleExists {
        return Err(AccountNotInitialized);
      }
      if user !in userInfos {
        return Err(AccountNotInitialized);
      }
      if !ClaimConstraints(presaleInfo, userInfos[user], user, mint) {
        return Err(ConstraintRaw);
      }
      var owed := userInfos[user].amount;
      r := ClaimHandler(user, mint, now);
      if r.Ok? {
        Instructions.ClaimKeepsConsistent(s0, deposited, burned, claimed, user, mint, now);
        ghost var next := Instructions.Claim(s0, user, mint, now).value;
        assert State() == next;
        if presaleInfo.endTimestamp < AsU64(now) {
          claimed := claimed + owed;
          assert Instructions.Consistent(next, deposited, burned, claimed);
        } else {
          assert next == s0;
        }
      }
    }

    /** The `claim` handler with the corrected signer seeds: once the clock
        reads past the end time, the participant's whole `amount` moves from
        their escrow to their own token account, signed for by the
        participant record with the seeds it is derived from (not the seeds
        as written), and `amount` drops to 0; until then nothing happens. */
    method ClaimHandler(user: Pubkey, mint: Pubkey, now: i64) returns (r: Result<()>)
      requires presaleExists && user in userInfos && ClaimConstraints(presaleInfo, userInfos[user], user, mint)
      modifies this`userInfos, this`tokens
      ensures var next := Instructions.Claim(old(State()), user, mint, now);
              && r == next.Status()
              && (next.Err? ==> unchanged(this))
              && (next.Ok? ==> State() == next.value)
    {
      var nowTs := AsU64(now);
      if nowTs > presaleInfo.endTimestamp {
        ClaimSignerSeedsSign(user, BUMP);
        var record := userInfos[user];
        var moved :- Transfer(tokens, Ata(UserPda(user), mint), Ata(Wallet(user), mint), record.amount,
                              SignedBy(ClaimSignerSeeds(user, BUMP), UserPda(user)));
        tokens := moved;
        userInfos := userInfos[user := record.(amount := 0)];
      }
      r := Ok(());
    }
  }
}
