/** The nine instructions of the presale program
    (programs/choobin/src/lib.rs), each as a function from the accounts it
    sees to the accounts it leaves, or to the error that reverts it. Each
    first checks its account constraints (contexts.rs) in the order the
    accounts are declared, then runs its handler. The invariant `Consistent`
    ties the records to the balances, and a lemma per instruction shows that
    the instruction keeps it. */
module Instructions {
  import opened Solana
  import opened Contexts
  import opened Pda
  import opened Programs
  import opened Ledger

  /** The price `initialize` sets: 133000 lamports per whole token. */
  const PRICE: u64 := 133000

  /** Raw token units per whole token: the mint's 9 decimals. */
  const SCALE: u64 := 1_000_000_000

  /** `lamports * 1000000000 / price`: the raw token units `lamports` pays
      for at `price`, rounded down so that the pool keeps the fraction. The
      product is taken in u64 and panics when it does not fit; so does the
      division by a zero price. */
  function TokensOut(lamports: u64, price: u64): (r: Result<u64>)
    ensures r.Ok? <==> lamports * SCALE <= U64_MAX && price > 0
    ensures U64_MAX < lamports * SCALE ==> r == Err(ArithmeticOverflow)
    ensures lamports * SCALE <= U64_MAX && price == 0 ==> r == Err(DivisionByZero)
    ensures r.Ok? ==> r.value * price <= lamports * SCALE < r.value * price + price
  {
    if lamports * SCALE > U64_MAX then Err(ArithmeticOverflow)
    else if price == 0 then Err(DivisionByZero)
    else Ok(FloorQuotient(lamports * SCALE, price))
  }

  /** `n / d` on u64: the largest multiple of `d` not above `n`, counted in `d`s. */
  function FloorQuotient(n: u64, d: u64): (q: u64)
    requires d > 0
    ensures q * d <= n < q * d + d
  {
    FloorDivision(n, d);
    n / d
  }

  /** Division of a natural number by a positive one rounds down and does
      not exceed the dividend. */
  lemma FloorDivision(n: nat, d: nat)
    requires d > 0
    ensures n / d <= n
    ensures (n / d) * d <= n < (n / d) * d + d
  {
    MulAtLeast(n / d, d);
  }

  lemma {:induction false} MulAtLeast(q: nat, d: nat)
    requires d > 0
    ensures q <= q * d
    decreases d
  {
    if d > 1 {
      MulAtLeast(q, d - 1);
      assert q * d == q * (d - 1) + q;
    }
  }

  /** The largest purchase the handler accepts: `lamports * 10^9` fits
      in a u64 up to 18446744073 lamports (about 18.4 SOL), and panics
      above it. */
  const MAX_LAMPORTS_IN: u64 := 18_446_744_073

  /** At the sale's price a purchase succeeds in the handler's arithmetic
      exactly up to `MAX_LAMPORTS_IN`, and pays for at least as many raw
      units as `lamports` times 7518 (10^9 / 133000, rounded down). */
  lemma PurchaseCeiling(lamports: u64)
    ensures TokensOut(lamports, PRICE).Ok? <==> lamports <= MAX_LAMPORTS_IN
    ensures TokensOut(lamports, PRICE).Ok? ==> lamports * 7518 <= TokensOut(lamports, PRICE).value
  {
    if lamports <= MAX_LAMPORTS_IN {
      var q := TokensOut(lamports, PRICE).value;
      assert lamports * SCALE < q * PRICE + PRICE;
      assert lamports * 7518 * PRICE < (q + 1) * PRICE;
    }
  }

  /** The accounts the program reads and writes: whether the sale record
      exists and what it holds, the participant records by participant key,
      the token balances of associated token accounts, and the lamport
      balances of wallets. */
  datatype Accounts = Accounts(
    presaleExists: bool,
    presaleInfo: PresaleInfo,
    userInfos: map<Pubkey, UserInfo>,
    tokens: map<Ata, u64>,
    lamports: map<Pubkey, u64>)

  /** Before `initialize` nothing is held in the pool or owed;
      after it the price and a non-default treasury are in place. Every
      participant record is initialized and belongs to the key it is stored
      under. */
  predicate RecordsWellFormed(s: Accounts)
  {
    && (s.presaleExists ==>
          s.presaleInfo.isInitialized && s.presaleInfo.price == PRICE && s.presaleInfo.treasury != DEFAULT_PUBKEY)
    && (!s.presaleExists ==>
          s.presaleInfo.amount == 0 && forall u :: u in s.userInfos ==> s.userInfos[u].amount == 0)
    && (forall u :: u in s.userInfos ==> s.userInfos[u].isInitialized && s.userInfos[u].admin == u)
  }

  /** The invariant of the sale, given the tokens deposited into the pool,
      burned from it and claimed out of the escrows so far: well-formed
      records, custody balances equal to what the records say, and every
      deposited token still in the pool, owed to a participant, burned or
      claimed. */
  ghost predicate Consistent(s: Accounts, deposited: nat, burned: nat, claimed: nat)
  {
    && RecordsWellFormed(s)
    && (!s.presaleExists ==> deposited == 0)
    && CustodyMatchesLedger(s.presaleInfo, s.userInfos, s.tokens)
    && deposited == s.presaleInfo.amount + TotalOwed(s.userInfos) + burned + claimed
  }

  /** The chain before the program's first instruction: no sale record and
      no participant record yet, and no account the program controls holds
      any tokens. */
  lemma GenesisConsistent(s: Accounts)
    requires !s.presaleExists && s.presaleInfo.amount == 0 && s.userInfos == map[]
    requires forall a :: a in s.tokens ==> a.owner.Wallet?
    ensures Consistent(s, 0, 0, 0)
  {
    assert TotalOwed(s.userInfos) == 0;
  }

  // ---------------------------------------------------------------- initialize

  /** The handler of `initialize`: fills in an uninitialized sale record and
      leaves an initialized one as it is. */
  function InitializeHandler(info: PresaleInfo, initializer: Pubkey, mint: Pubkey, treasury: Pubkey)
    : (r: PresaleInfo)
    ensures info.isInitialized ==> r == info
    ensures !info.isInitialized ==>
              && r.isInitialized && r.admin == initializer && r.mint == mint && r.treasury == treasury
              && r.amount == 0 && r.price == PRICE && r.endTimestamp == 0
  {
    if info.isInitialized then info
    else info.(isInitialized := true, admin := initializer, mint := mint, amount := 0,
               price := PRICE, endTimestamp := 0, treasury := treasury)
  }

  /** `initialize`: creates the sale record at its fixed address, which
      fails if it already exists, checks the mint's decimals and the
      treasury, and runs the handler on the zero-filled record. The signer
      becomes the admin. */
  function Initialize(s: Accounts, initializer: Pubkey, mint: Pubkey, mintDecimals: nat, treasury: Pubkey)
    : (r: Result<Accounts>)
    ensures s.presaleExists ==> r == Err(AccountAlreadyInUse)
    ensures !s.presaleExists && mintDecimals != MINT_DECIMALS ==> r == Err(ConstraintMintDecimals)
    ensures (!s.presaleExists && mintDecimals == MINT_DECIMALS && treasury == DEFAULT_PUBKEY)
            ==> r == Err(ConstraintRaw)
    ensures r.Ok? <==> !s.presaleExists && InitializeConstraints(mintDecimals, treasury)
    ensures r.Ok? ==>
              r.value == s.(presaleExists := true,
                            presaleInfo := PresaleInfo(true, initializer, mint, 0, PRICE, 0, treasury))
  {
    if s.presaleExists then Err(AccountAlreadyInUse)
    else if mintDecimals != MINT_DECIMALS then Err(ConstraintMintDecimals)
    else if treasury == DEFAULT_PUBKEY then Err(ConstraintRaw)
    else Ok(s.(presaleExists := true,
               presaleInfo := InitializeHandler(BLANK_PRESALE_INFO, initializer, mint, treasury)))
  }

  /** Opening the sale keeps the invariant: nothing was owed or deposited
      before it, and the accounts of the new mint were empty. */
  lemma InitializeKeepsConsistent(s: Accounts, deposited: nat, burned: nat, claimed: nat,
                                  initializer: Pubkey, mint: Pubkey, mintDecimals: nat, treasury: Pubkey)
    requires Consistent(s, deposited, burned, claimed)
    ensures var r := Initialize(s, initializer, mint, mintDecimals, treasury);
            r.Ok? ==> Consistent(r.value, deposited, burned, claimed)
  {
    var r := Initialize(s, initializer, mint, mintDecimals, treasury);
    if r.Ok? {
      OpeningKeepsCustody(s.presaleInfo, s.userInfos, s.tokens, r.value.presaleInfo);
      assert TotalOwed(s.userInfos) == 0 by {
        TotalOwedZero(s.userInfos);
      }
    }
  }

  // ------------------------------------------------------------- deposit_token

  /** `deposit_token`: any signer moves `amount` tokens from their own token
      account into the pool, and the record's `amount` grows by as much. */
  function DepositToken(s: Accounts, payer: Pubkey, mint: Pubkey, amount: u64): (r: Result<Accounts>)
    ensures !s.presaleExists ==> r == Err(AccountNotInitialized)
    ensures s.presaleExists && !SaleMintConstraint(s.presaleInfo, mint) ==> r == Err(ConstraintRaw)
    ensures s.presaleExists && SaleMintConstraint(s.presaleInfo, mint) ==>
              var wallet, pool := Ata(Wallet(payer), mint), Ata(PresalePda, mint);
              if Balance(s.tokens, wallet) < amount then r == Err(InsufficientFunds)
              else if U64_MAX < Balance(s.tokens, pool) + amount then r == Err(TokenOverflow)
              else if U64_MAX < s.presaleInfo.amount + amount then r == Err(ArithmeticOverflow)
              else r.Ok?
    ensures r.Ok? ==>
              var wallet, pool, t := Ata(Wallet(payer), mint), Ata(PresalePda, mint), r.value.tokens;
              && r.value.presaleInfo == s.presaleInfo.(amount := s.presaleInfo.amount + amount)
              && Balance(t, pool) == Balance(s.tokens, pool) + amount
              && Balance(t, wallet) + amount == Balance(s.tokens, wallet)
              && (forall a :: a != pool && a != wallet ==> Balance(t, a) == Balance(s.tokens, a))
              && r.value.presaleExists == s.presaleExists
              && r.value.userInfos == s.userInfos && r.value.lamports == s.lamports
  {
    if !s.presaleExists then Err(AccountNotInitialized)
    else if !SaleMintConstraint(s.presaleInfo, mint) then Err(ConstraintRaw)
    else
      // The payer signs the transaction, so it authorizes its own account.
      var moved :- Transfer(s.tokens, Ata(Wallet(payer), mint), Ata(PresalePda, mint), amount, true);
      if U64_MAX < s.presaleInfo.amount + amount then Err(ArithmeticOverflow)
      else Ok(s.(tokens := moved, presaleInfo := s.presaleInfo.(amount := s.presaleInfo.amount + amount)))
  }

  /** `presale_info.amount += amount` cannot overflow: the pool holds the
      record's `amount`, and the token program accepted `amount` more. */
  lemma DepositFits(s: Accounts, deposited: nat, burned: nat, claimed: nat, payer: Pubkey, amount: u64)
    requires Consistent(s, deposited, burned, claimed)
    requires Transfer(s.tokens, Ata(Wallet(payer), s.presaleInfo.mint), Ata(PresalePda, s.presaleInfo.mint),
                      amount, true).Ok?
    ensures s.presaleInfo.amount + amount <= U64_MAX
  {
  }

  /** A deposit keeps the invariant, counting its tokens as deposited, and
      never panics on the addition. */
  lemma DepositTokenKeepsConsistent(s: Accounts, deposited: nat, burned: nat, claimed: nat,
                                    payer: Pubkey, mint: Pubkey, amount: u64)
    requires Consistent(s, deposited, burned, claimed)
    ensures var r := DepositToken(s, payer, mint, amount);
            && (r.Ok? ==> Consistent(r.value, deposited + amount, burned, claimed))
            && (r.Err? ==> r.error != ArithmeticOverflow)
  {
    var r := DepositToken(s, payer, mint, amount);
    if s.presaleExists && SaleMintConstraint(s.presaleInfo, mint) {
      var moved := Transfer(s.tokens, Ata(Wallet(payer), mint), Ata(PresalePda, mint), amount, true);
      if moved.Ok? {
        DepositFits(s, deposited, burned, claimed, payer, amount);
        PoolChangeKeepsCustody(s.presaleInfo, s.userInfos, s.tokens, moved.value, s.presaleInfo.amount + amount);
      }
    }
  }

  // ---------------------------------------------------------------- burn_token

  /** `burn_token`: once the clock has passed the end time, any signer burns
      the record's `amount` from the pool, signed for by the sale record,
      and `amount` drops to 0; until then it does nothing. */
  function BurnToken(s: Accounts, user: Pubkey, mint: Pubkey, now: i64): (r: Result<Accounts>)
    ensures !s.presaleExists ==> r == Err(AccountNotInitialized)
    ensures s.presaleExists && !SaleMintConstraint(s.presaleInfo, mint) ==> r == Err(ConstraintRaw)
    ensures s.presaleExists && SaleMintConstraint(s.presaleInfo, mint) && AsU64(now) <= s.presaleInfo.endTimestamp
            ==> r == Ok(s)
    ensures s.presaleExists && SaleMintConstraint(s.presaleInfo, mint) && s.presaleInfo.endTimestamp < AsU64(now)
            ==> (r.Ok? <==> s.presaleInfo.amount <= Balance(s.tokens, Ata(PresalePda, mint)))
    ensures r.Ok? && s.presaleInfo.endTimestamp < AsU64(now) ==>
              var pool, t := Ata(PresalePda, mint), r.value.tokens;
              && r.value.presaleInfo == s.presaleInfo.(amount := 0)
              && Balance(t, pool) + s.presaleInfo.amount == Balance(s.tokens, pool)
              && (forall a :: a != pool ==> Balance(t, a) == Balance(s.tokens, a))
              && r.value.presaleExists == s.presaleExists
              && r.value.userInfos == s.userInfos && r.value.lamports == s.lamports
  {
    if !s.presaleExists then Err(AccountNotInitialized)
    else if !SaleMintConstraint(s.presaleInfo, mint) then Err(ConstraintRaw)
    else if AsU64(now) <= s.presaleInfo.endTimestamp then Ok(s)
    else
      PresaleSignerSeedsSign(BUMP);
      var left :- Burn(s.tokens, Ata(PresalePda, mint), s.presaleInfo.amount,
                       SignedBy(PresaleSignerSeeds(BUMP), PresalePda));
      Ok(s.(tokens := left, presaleInfo := s.presaleInfo.(amount := 0)))
  }

  /** The burn never fails once the constraints hold, because the pool
      holds the record's `amount`; it keeps the invariant, counting what was
      in the pool as burned, and leaves the pool empty. */
  lemma BurnTokenKeepsConsistent(s: Accounts, deposited: nat, burned: nat, claimed: nat,
                                 user: Pubkey, mint: Pubkey, now: i64)
    requires Consistent(s, deposited, burned, claimed)
    ensures var r := BurnToken(s, user, mint, now);
            && (r.Ok? <==> s.presaleExists && SaleMintConstraint(s.presaleInfo, mint))
            && (r.Ok? && s.presaleInfo.endTimestamp < AsU64(now) ==>
                  && Consistent(r.value, deposited, burned + s.presaleInfo.amount, claimed)
                  && Balance(r.value.tokens, Ata(PresalePda, mint)) == 0)
  {
    var r := BurnToken(s, user, mint, now);
    if r.Ok? && s.presaleInfo.endTimestamp < AsU64(now) {
      PoolChangeKeepsCustody(s.presaleInfo, s.userInfos, s.tokens, r.value.tokens, 0);
    }
  }

  // ------------------------------------- change_admin, change_treasury, set_endtime

  /** `change_admin`: the admin hands the role to a new key, which may be
      neither the default key nor the admin's own. */
  function ChangeAdmin(s: Accounts, admin: Pubkey, newAdmin: Pubkey): (r: Result<Accounts>)
    ensures !s.presaleExists ==> r == Err(AccountNotInitialized)
    ensures s.presaleExists && r.Err? ==> r.error == ConstraintRaw
    ensures r.Ok? <==> s.presaleExists && ChangeAdminConstraints(s.presaleInfo, admin, newAdmin)
    ensures r.Ok? ==> r.value == s.(presaleInfo := s.presaleInfo.(admin := newAdmin))
  {
    if !s.presaleExists then Err(AccountNotInitialized)
    else if !ChangeAdminConstraints(s.presaleInfo, admin, newAdmin) then Err(ConstraintRaw)
    else Ok(s.(presaleInfo := s.presaleInfo.(admin := newAdmin)))
  }

  /** `change_treasury`: the admin names a new, non-default treasury. */
  function ChangeTreasury(s: Accounts, admin: Pubkey, treasury: Pubkey): (r: Result<Accounts>)
    ensures !s.presaleExists ==> r == Err(AccountNotInitialized)
    ensures s.presaleExists && r.Err? ==> r.error == ConstraintRaw
    ensures r.Ok? <==> s.presaleExists && ChangeTreasuryConstraints(s.presaleInfo, admin, treasury)
    ensures r.Ok? ==> r.value == s.(presaleInfo := s.presaleInfo.(treasury := treasury))
  {
    if !s.presaleExists then Err(AccountNotInitialized)
    else if !ChangeTreasuryConstraints(s.presaleInfo, admin, treasury) then Err(ConstraintRaw)
    else Ok(s.(presaleInfo := s.presaleInfo.(treasury := treasury)))
  }

  /** `set_endtime`: the admin sets the end time, which is stored only when
      it lies strictly after the clock; otherwise the call succeeds and
      changes nothing. */
  function SetEndtime(s: Accounts, admin: Pubkey, endTimestamp: u64, now: i64): (r: Result<Accounts>)
    ensures !s.presaleExists ==> r == Err(AccountNotInitialized)
    ensures s.presaleExists && r.Err? ==> r.error == ConstraintRaw
    ensures r.Ok? <==> s.presaleExists && AdminConstraint(s.presaleInfo, admin)
    ensures r.Ok? && AsU64(now) < endTimestamp ==>
              r.value == s.(presaleInfo := s.presaleInfo.(endTimestamp := endTimestamp))
    ensures r.Ok? && endTimestamp <= AsU64(now) ==> r.value == s
  {
    if !s.presaleExists then Err(AccountNotInitialized)
    else if !AdminConstraint(s.presaleInfo, admin) then Err(ConstraintRaw)
    else if AsU64(now) < endTimestamp then Ok(s.(presaleInfo := s.presaleInfo.(endTimestamp := endTimestamp)))
    else Ok(s)
  }

  /** Changing who administers the sale, where its lamports go, or when it
      ends keeps the invariant, as long as the treasury stays non-default:
      none of it touches a balance or an amount. */
  lemma SettingsChangeKeepsConsistent(s: Accounts, deposited: nat, burned: nat, claimed: nat,
                                      admin: Pubkey, treasury: Pubkey, endTimestamp: u64)
    requires Consistent(s, deposited, burned, claimed)
    requires s.presaleExists && treasury != DEFAULT_PUBKEY
    ensures Consistent(s.(presaleInfo := s.presaleInfo.(admin := admin, treasury := treasury,
                                                         endTimestamp := endTimestamp)),
                       deposited, burned, claimed)
  {
  }

  // ---------------------------------------------------------- create_user_info

  /** `create_user_info`: creates the signer's participant record if it
      does not exist yet (zero-filled) and initializes a record that is not
      initialized yet to belong to the signer and owe nothing; an
      initialized record is left as it is. */
  function CreateUserInfo(s: Accounts, user: Pubkey): (r: Result<Accounts>)
    ensures r.Ok?
    ensures user in s.userInfos && s.userInfos[user].isInitialized ==> r.value == s
    ensures !(user in s.userInfos && s.userInfos[user].isInitialized) ==>
              r.value == s.(userInfos := s.userInfos[user := UserInfo(true, user, 0)])
  {
    var record := if user in s.userInfos then s.userInfos[user] else BLANK_USER_INFO;
    if record.isInitialized then Ok(s)
    else Ok(s.(userInfos := s.userInfos[user := record.(isInitialized := true, admin := user, amount := 0)]))
  }

  /** A new participant record owes nothing and its escrow held nothing, so
      creating it keeps the invariant. */
  lemma CreateUserInfoKeepsConsistent(s: Accounts, deposited: nat, burned: nat, claimed: nat, user: Pubkey)
    requires Consistent(s, deposited, burned, claimed)
    ensures Consistent(CreateUserInfo(s, user).value, deposited, burned, claimed)
  {
    if user !in s.userInfos {
      var record := UserInfo(true, user, 0);
      TotalOwedUpdate(s.userInfos, user, record);
      NewParticipantKeepsCustody(s.presaleInfo, s.userInfos, s.tokens, user, record);
    }
  }

  /** `create_user_info` is idempotent: a second call finds the record
      initialized and leaves the accounts as the first left them. */
  lemma CreateUserInfoIdempotent(s: Accounts, user: Pubkey)
    ensures var t := CreateUserInfo(s, user).value;
            CreateUserInfo(t, user) == Ok(t)
  {
  }

  // ----------------------------------------------------------------- buy_token

  /** `buy_token`: the buyer pays `lamports` to the treasury, then the
      tokens they buy move from the pool to the buyer's escrow, signed for
      by the sale record, and the record's `amount` falls by what the
      buyer's `amount` rises. The program checks no inventory itself: a pool
      too small makes the token program refuse the transfer. */
  function BuyToken(s: Accounts, user: Pubkey, mint: Pubkey, treasury: Pubkey, lamports: u64)
    : (r: Result<Accounts>)
    ensures !s.presaleExists ==> r == Err(AccountNotInitialized)
    ensures s.presaleExists && user !in s.userInfos ==> r == Err(AccountNotInitialized)
    ensures (s.presaleExists && user in s.userInfos && !BuyTokenConstraints(s.presaleInfo, mint, treasury))
            ==> r == Err(ConstraintRaw)
    ensures (s.presaleExists && user in s.userInfos && BuyTokenConstraints(s.presaleInfo, mint, treasury))
            ==> var out := TokensOut(lamports, s.presaleInfo.price);
                if Balance(s.lamports, user) < lamports then r == Err(InsufficientLamports)
                else if user != treasury && U64_MAX < Balance(s.lamports, treasury) + lamports
                then r == Err(LamportsOverflow)
                else if out.Err? then r == Err(out.error)
                else if Balance(s.tokens, Ata(PresalePda, mint)) < out.value then r == Err(InsufficientFunds)
                else if U64_MAX < Balance(s.tokens, Ata(UserPda(user), mint)) + out.value
                then r == Err(TokenOverflow)
                else if s.presaleInfo.amount < out.value || U64_MAX < s.userInfos[user].amount + out.value
                then r == Err(ArithmeticOverflow)
                else r.Ok?
    ensures r.Ok? ==>
              && user in s.userInfos
              && TokensOut(lamports, s.presaleInfo.price).Ok?
              && var bought, pool, escrow := TokensOut(lamports, s.presaleInfo.price).value,
                                             Ata(PresalePda, mint), Ata(UserPda(user), mint);
                 && r.value.presaleInfo == s.presaleInfo.(amount := s.presaleInfo.amount - bought)
                 && r.value.userInfos
                    == s.userInfos[user := s.userInfos[user].(amount := s.userInfos[user].amount + bought)]
                 && Balance(r.value.tokens, pool) + bought == Balance(s.tokens, pool)
                 && Balance(r.value.tokens, escrow) == Balance(s.tokens, escrow) + bought
                 && (forall a :: a != pool && a != escrow ==> Balance(r.value.tokens, a) == Balance(s.tokens, a))
    ensures r.Ok? ==>
              && r.value.presaleExists == s.presaleExists
              && Balance(r.value.lamports, user) + Balance(r.value.lamports, treasury)
                 == Balance(s.lamports, user) + Balance(s.lamports, treasury)
              && (user != treasury ==> Balance(r.value.lamports, treasury) == Balance(s.lamports, treasury) + lamports)
              && (forall k :: k != user && k != treasury ==> Balance(r.value.lamports, k) == Balance(s.lamports, k))
  {
    if !s.presaleExists then Err(AccountNotInitialized)
    else if user !in s.userInfos then Err(AccountNotInitialized)
    else if !BuyTokenConstraints(s.presaleInfo, mint, treasury) then Err(ConstraintRaw)
    else
      var paid :- TransferLamports(s.lamports, user, treasury, lamports);
      var bought :- TokensOut(lamports, s.presaleInfo.price);
      PresaleSignerSeedsSign(BUMP);
      var moved :- Transfer(s.tokens, Ata(PresalePda, mint), Ata(UserPda(user), mint), bought,
                            SignedBy(PresaleSignerSeeds(BUMP), PresalePda));
      var record := s.userInfos[user];
      if s.presaleInfo.amount < bought || U64_MAX < record.amount + bought then Err(ArithmeticOverflow)
      else Ok(Accounts(s.presaleExists, s.presaleInfo.(amount := s.presaleInfo.amount - bought),
                       s.userInfos[user := record.(amount := record.amount + bought)], moved, paid))
  }

  /** `presale_info.amount -= amount` and `user_info.amount += amount`
      cannot overflow: the pool held the record's `amount` and gave
      `bought`, and the escrow held the participant's `amount` and accepted
      `bought` more. */
  lemma PurchaseFits(s: Accounts, deposited: nat, burned: nat, claimed: nat, user: Pubkey, bought: u64)
    requires Consistent(s, deposited, burned, claimed)
    requires user in s.userInfos
    requires Transfer(s.tokens, Ata(PresalePda, s.presaleInfo.mint), Ata(UserPda(user), s.presaleInfo.mint),
                      bought, true).Ok?
    ensures bought <= s.presaleInfo.amount
    ensures s.userInfos[user].amount + bought <= U64_MAX
  {
  }

  /** A purchase keeps the invariant: the tokens bought leave the pool's
      `amount` for the buyer's, so nothing is deposited, burned or claimed. */
  lemma BuyTokenKeepsConsistent(s: Accounts, deposited: nat, burned: nat, claimed: nat,
                                user: Pubkey, mint: Pubkey, treasury: Pubkey, lamports: u64)
    requires Consistent(s, deposited, burned, claimed)
    ensures var r := BuyToken(s, user, mint, treasury, lamports);
            r.Ok? ==> Consistent(r.value, deposited, burned, claimed)
  {
    var r := BuyToken(s, user, mint, treasury, lamports);
    if r.Ok? {
      var bought := TokensOut(lamports, s.presaleInfo.price).value;
      var owed: u64 := s.userInfos[user].amount + bought;
      TotalOwedUpdate(s.userInfos, user, s.userInfos[user].(amount := owed));
      EscrowChangeKeepsCustody(s.presaleInfo, s.userInfos, s.tokens, r.value.tokens, user,
                               s.presaleInfo.amount - bought, owed);
    }
  }

  /** Of the handler's own operations only the product `lamports * 10^9`
      can panic (the price is never 0, and the two `amount` updates always
      fit), and an order larger than the pool is refused by the token
      program with `InsufficientFunds`. */
  lemma BuyTokenFailures(s: Accounts, deposited: nat, burned: nat, claimed: nat,
                         user: Pubkey, mint: Pubkey, treasury: Pubkey, lamports: u64)
    requires Consistent(s, deposited, burned, claimed)
    ensures var r := BuyToken(s, user, mint, treasury, lamports);
            && (r.Err? && r.error == ArithmeticOverflow ==> U64_MAX < lamports * SCALE)
            && (r.Err? ==> r.error != DivisionByZero)
    ensures var r := BuyToken(s, user, mint, treasury, lamports);
            var out := TokensOut(lamports, s.presaleInfo.price);
            (s.presaleExists && user in s.userInfos && BuyTokenConstraints(s.presaleInfo, mint, treasury) &&
             TransferLamports(s.lamports, user, treasury, lamports).Ok? &&
             out.Ok? && s.presaleInfo.amount < out.value) ==> r == Err(InsufficientFunds)
  {
    var out := TokensOut(lamports, s.presaleInfo.price);
    if s.presaleExists && user in s.userInfos && out.Ok? {
      var moved := Transfer(s.tokens, Ata(PresalePda, mint), Ata(UserPda(user), mint), out.value, true);
      if moved.Ok? && mint == s.presaleInfo.mint {
        PurchaseFits(s, deposited, burned, claimed, user, out.value);
      }
    }
  }

  // --------------------------------------------------------------------- claim

  /** `claim` signing for the participant record with `signerSeeds`: once
      the clock has passed the end time, the participant's whole `amount`
      moves from their escrow to their own token account and `amount` drops
      to 0; until then it does nothing. Only the participant the record
      belongs to may claim. */
  function ClaimSignedWith(s: Accounts, user: Pubkey, mint: Pubkey, now: i64, signerSeeds: seq<seq<byte>>)
    : (r: Result<Accounts>)
    ensures !s.presaleExists ==> r == Err(AccountNotInitialized)
    ensures s.presaleExists && user !in s.userInfos ==> r == Err(AccountNotInitialized)
    ensures (s.presaleExists && user in s.userInfos &&
             !ClaimConstraints(s.presaleInfo, s.userInfos[user], user, mint)) ==> r == Err(ConstraintRaw)
    ensures (s.presaleExists && user in s.userInfos &&
             ClaimConstraints(s.presaleInfo, s.userInfos[user], user, mint))
            ==> var amount, escrow, wallet := s.userInfos[user].amount, Ata(UserPda(user), mint), Ata(Wallet(user), mint);
                if AsU64(now) <= s.presaleInfo.endTimestamp then r == Ok(s)
                else if !SignedBy(signerSeeds, UserPda(user)) then r == Err(PrivilegeEscalation)
                else if Balance(s.tokens, escrow) < amount then r == Err(InsufficientFunds)
                else if U64_MAX < Balance(s.tokens, wallet) + amount then r == Err(TokenOverflow)
                else r.Ok?
    ensures r.Ok? && s.presaleInfo.endTimestamp < AsU64(now) ==>
              && user in s.userInfos
              && var amount, escrow, wallet, t := s.userInfos[user].amount, Ata(UserPda(user), mint),
                                                  Ata(Wallet(user), mint), r.value.tokens;
                 && r.value.userInfos == s.userInfos[user := s.userInfos[user].(amount := 0)]
                 && Balance(t, escrow) + amount == Balance(s.tokens, escrow)
                 && Balance(t, wallet) == Balance(s.tokens, wallet) + amount
                 && (forall a :: a != escrow && a != wallet ==> Balance(t, a) == Balance(s.tokens, a))
                 && (amount == 0 ==> forall a :: Balance(t, a) == Balance(s.tokens, a))
                 && r.value.presaleExists == s.presaleExists
                 && r.value.presaleInfo == s.presaleInfo && r.value.lamports == s.lamports
  {
    if !s.presaleExists then Err(AccountNotInitialized)
    else if user !in s.userInfos then Err(AccountNotInitialized)
    else if !ClaimConstraints(s.presaleInfo, s.userInfos[user], user, mint) then Err(ConstraintRaw)
    else if AsU64(now) <= s.presaleInfo.endTimestamp then Ok(s)
    else
      var record := s.userInfos[user];
      var moved :- Transfer(s.tokens, Ata(UserPda(user), mint), Ata(Wallet(user), mint), record.amount,
                            SignedBy(signerSeeds, UserPda(user)));
      Ok(s.(tokens := moved, userInfos := s.userInfos[user := record.(amount := 0)]))
  }

  /** `claim` with the corrected signer seeds: those the participant
      record is derived from, followed by the bump. The program as written
      signs with `ClaimSignerSeedsAsWritten` (`ClaimAsWrittenAlwaysFails`). */
  function Claim(s: Accounts, user: Pubkey, mint: Pubkey, now: i64): (r: Result<Accounts>)
    ensures r.Err? ==> r.error != PrivilegeEscalation
  {
    ClaimSignerSeedsSign(user, BUMP);
    ClaimSignedWith(s, user, mint, now, ClaimSignerSeeds(user, BUMP))
  }

  /** `claim` as written signs with seeds that authorize no record, so once
      the end time has passed the runtime refuses every claim that passes
      its constraints, before the token program runs, and the tokens bought
      stay in the escrows. The model reports that refusal as
      `PrivilegeEscalation`. */
  lemma ClaimAsWrittenAlwaysFails(s: Accounts, user: Pubkey, mint: Pubkey, now: i64)
    requires s.presaleExists && user in s.userInfos
    requires ClaimConstraints(s.presaleInfo, s.userInfos[user], user, mint)
    requires s.presaleInfo.endTimestamp < AsU64(now)
    ensures ClaimSignedWith(s, user, mint, now, ClaimSignerSeedsAsWritten(BUMP)) == Err(PrivilegeEscalation)
  {
    ClaimSignerSeedsAsWrittenSignNothing(BUMP);
  }

  /** A claim keeps the invariant, counting what left the escrow as
      claimed, and empties the escrow. The escrow always covers the
      participant's `amount`, so a claim past its constraints and the end
      time fails only when the participant's own account would overflow. */
  lemma ClaimKeepsConsistent(s: Accounts, deposited: nat, burned: nat, claimed: nat,
                             user: Pubkey, mint: Pubkey, now: i64)
    requires Consistent(s, deposited, burned, claimed)
    ensures var r := Claim(s, user, mint, now);
            r.Ok? && s.presaleInfo.endTimestamp < AsU64(now) ==>
              && user in s.userInfos
              && Consistent(r.value, deposited, burned, claimed + s.userInfos[user].amount)
              && Balance(r.value.tokens, Ata(UserPda(user), mint)) == 0
    ensures var r := Claim(s, user, mint, now);
            r.Ok? && AsU64(now) <= s.presaleInfo.endTimestamp ==> r.value == s
    ensures var r := Claim(s, user, mint, now);
            r.Err? ==> r.error in {AccountNotInitialized, ConstraintRaw, TokenOverflow}
  {
    var r := Claim(s, user, mint, now);
    if r.Ok? && s.presaleInfo.endTimestamp < AsU64(now) {
      TotalOwedUpdate(s.userInfos, user, s.userInfos[user].(amount := 0));
      EscrowChangeKeepsCustody(s.presaleInfo, s.userInfos, s.tokens, r.value.tokens, user, s.presaleInfo.amount, 0);
    }
  }

  /** A claim right after a claim past the end time finds the participant
      owed nothing: it succeeds, moves no tokens and changes no record. */
  lemma ClaimTwiceMovesNothing(s: Accounts, user: Pubkey, mint: Pubkey, now: i64)
    requires Claim(s, user, mint, now).Ok?
    requires s.presaleInfo.endTimestamp < AsU64(now)
    ensures var t := Claim(s, user, mint, now).value;
            var again := Claim(t, user, mint, now);
            && again.Ok?
            && again.value.userInfos == t.userInfos
            && (forall a :: Balance(again.value.tokens, a) == Balance(t.tokens, a))
            && again.value.presaleInfo == t.presaleInfo
            && again.value.lamports == t.lamports
  {
    var t := Claim(s, user, mint, now).value;
    ClaimSignerSeedsSign(user, BUMP);
    assert t.userInfos[user] == s.userInfos[user].(amount := 0);
    var again := Claim(t, user, mint, now);
    assert again.Ok?;
    assert again.value.userInfos == t.userInfos[user := t.userInfos[user].(amount := 0)];
    assert t.userInfos[user := t.userInfos[user].(amount := 0)] == t.userInfos;
  }

  // -------------------------------------------------------------- every instruction

  /** An instruction with its signer, its instruction data, the keys of
      the accounts it names and, for the time-gated ones, the clock. */
  datatype Instruction =
    | InitializeIx(initializer: Pubkey, mint: Pubkey, mintDecimals: nat, treasury: Pubkey)
    | DepositTokenIx(payer: Pubkey, mint: Pubkey, amount: u64)
    | BurnTokenIx(user: Pubkey, mint: Pubkey, now: i64)
    | ChangeAdminIx(admin: Pubkey, newAdmin: Pubkey)
    | ChangeTreasuryIx(admin: Pubkey, treasury: Pubkey)
    | SetEndtimeIx(admin: Pubkey, endTimestamp: u64, now: i64)
    | CreateUserInfoIx(user: Pubkey)
    | BuyTokenIx(user: Pubkey, mint: Pubkey, treasury: Pubkey, lamports: u64)
    | ClaimIx(user: Pubkey, mint: Pubkey, now: i64)

  /** The key that signs `ix`. */
  function Signer(ix: Instruction): Pubkey
  {
    match ix
    case InitializeIx(k, _, _, _) => k
    case DepositTokenIx(k, _, _) => k
    case BurnTokenIx(k, _, _) => k
    case ChangeAdminIx(k, _) => k
    case ChangeTreasuryIx(k, _) => k
    case SetEndtimeIx(k, _, _) => k
    case CreateUserInfoIx(k) => k
    case BuyTokenIx(k, _, _, _) => k
    case ClaimIx(k, _, _) => k
  }

  /** Runs `ix` on the accounts. */
  function Step(s: Accounts, ix: Instruction): Result<Accounts>
  {
    match ix
    case InitializeIx(initializer, mint, mintDecimals, treasury) => Initialize(s, initializer, mint, mintDecimals, treasury)
    case DepositTokenIx(payer, mint, amount) => DepositToken(s, payer, mint, amount)
    case BurnTokenIx(user, mint, now) => BurnToken(s, user, mint, now)
    case ChangeAdminIx(admin, newAdmin) => ChangeAdmin(s, admin, newAdmin)
    case ChangeTreasuryIx(admin, treasury) => ChangeTreasury(s, admin, treasury)
    case SetEndtimeIx(admin, endTimestamp, now) => SetEndtime(s, admin, endTimestamp, now)
    case CreateUserInfoIx(user) => CreateUserInfo(s, user)
    case BuyTokenIx(user, mint, treasury, lamports) => BuyToken(s, user, mint, treasury, lamports)
    case ClaimIx(user, mint, now) => Claim(s, user, mint, now)
  }

  /** Once the sale is open its price and mint never change: no
      instruction writes them. */
  lemma PriceAndMintFixed(s: Accounts, ix: Instruction)
    requires s.presaleExists
    ensures Step(s, ix).Ok? ==>
              && Step(s, ix).value.presaleExists
              && Step(s, ix).value.presaleInfo.price == s.presaleInfo.price
              && Step(s, ix).value.presaleInfo.mint == s.presaleInfo.mint
  {
    match ix
    case ClaimIx(user, mint, now) =>
      assert Claim(s, user, mint, now) == ClaimSignedWith(s, user, mint, now, ClaimSignerSeeds(user, BUMP));
    case _ =>
  }

  /** Only the admin changes who administers the sale, where its lamports
      go and when it ends, and only through the three admin instructions. */
  lemma SettingsOnlyByAdmin(s: Accounts, ix: Instruction)
    requires s.presaleExists
    requires Step(s, ix).Ok?
    requires var info := Step(s, ix).value.presaleInfo;
             || info.admin != s.presaleInfo.admin
             || info.treasury != s.presaleInfo.treasury
             || info.endTimestamp != s.presaleInfo.endTimestamp
    ensures ix.ChangeAdminIx? || ix.ChangeTreasuryIx? || ix.SetEndtimeIx?
    ensures Signer(ix) == s.presaleInfo.admin
  {
  }

  /** A participant's record changes only through an instruction that
      participant signs: nobody else can buy into, claim from or reset it. */
  lemma RecordOnlyByOwner(s: Accounts, ix: Instruction, owner: Pubkey)
    requires Step(s, ix).Ok?
    requires var users := Step(s, ix).value.userInfos;
             && (owner in users || owner in s.userInfos)
             && (owner !in users || owner !in s.userInfos || users[owner] != s.userInfos[owner])
    ensures Signer(ix) == owner
  {
    match ix
    case ClaimIx(user, mint, now) =>
      assert Claim(s, user, mint, now) == ClaimSignedWith(s, user, mint, now, ClaimSignerSeeds(user, BUMP));
    case _ =>
  }
}
