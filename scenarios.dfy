/** Concrete runs of the presale program: prices worked out for given
    payments, and one sale from opening to claim. */
module Scenarios {
  import opened Solana
  import opened Contexts
  import opened Pda
  import opened Programs
  import opened Instructions

  /** 133000 lamports buy one whole token (10^9 raw units); one lamport
      buys 7518 raw units, the fraction staying in the pool. */
  lemma PriceExamples()
    ensures TokensOut(133000, PRICE) == Ok(1_000_000_000)
    ensures TokensOut(1, PRICE) == Ok(7518)
    ensures TokensOut(0, PRICE) == Ok(0)
  {
  }

  /** One lamport above `MAX_LAMPORTS_IN` the product overflows and the
      purchase reverts. */
  lemma PurchaseCeilingExample()
    ensures TokensOut(MAX_LAMPORTS_IN, PRICE).Ok?
    ensures TokensOut(MAX_LAMPORTS_IN + 1, PRICE) == Err(ArithmeticOverflow)
  {
  }

  const ADMIN: Pubkey := 1
  const MINT: Pubkey := 2
  const TREASURY: Pubkey := 3
  const BUYER: Pubkey := 4

  /** Admin opens the sale and deposits one whole token; a buyer pays
      133000 lamports and receives it in escrow; a claim before the end
      time changes nothing. After the end time the claim as written is
      refused, and the claim with the corrected seeds moves the token to
      the buyer. */
  lemma SaleRun()
    ensures var s0 := Accounts(false, BLANK_PRESALE_INFO, map[],
                               map[Ata(Wallet(ADMIN), MINT) := 1_000_000_000],
                               map[BUYER := 133000]);
            var s1 := Initialize(s0, ADMIN, MINT, 9, TREASURY);
            && s1.Ok?
            && var s2 := DepositToken(s1.value, ADMIN, MINT, 1_000_000_000);
               && s2.Ok?
               && var s3 := CreateUserInfo(s2.value, BUYER).value;
                  var s4 := BuyToken(s3, BUYER, MINT, TREASURY, 133000);
                  && s4.Ok?
                  && Balance(s4.value.tokens, Ata(UserPda(BUYER), MINT)) == 1_000_000_000
                  && s4.value.presaleInfo.amount == 0
                  && Balance(s4.value.lamports, TREASURY) == 133000
                  && Claim(s4.value, BUYER, MINT, 0) == Ok(s4.value)
                  && ClaimSignedWith(s4.value, BUYER, MINT, 1, ClaimSignerSeedsAsWritten(BUMP))
                     == Err(PrivilegeEscalation)
                  && var s5 := Claim(s4.value, BUYER, MINT, 1);
                     && s5.Ok?
                     && Balance(s5.value.tokens, Ata(Wallet(BUYER), MINT)) == 1_000_000_000
                     && s5.value.userInfos[BUYER].amount == 0
  {
    var s0 := Accounts(false, BLANK_PRESALE_INFO, map[],
                       map[Ata(Wallet(ADMIN), MINT) := 1_000_000_000],
                       map[BUYER := 133000]);
    var s1 := Initialize(s0, ADMIN, MINT, 9, TREASURY).value;
    var s2 := DepositToken(s1, ADMIN, MINT, 1_000_000_000);
    assert s2.Ok?;
    var s3 := CreateUserInfo(s2.value, BUYER).value;
    assert TokensOut(133000, PRICE) == Ok(1_000_000_000);
    var s4 := BuyToken(s3, BUYER, MINT, TREASURY, 133000);
    assert s4.Ok?;
    ClaimAsWrittenAlwaysFails(s4.value, BUYER, MINT, 1);
    ClaimSignerSeedsSign(BUYER, BUMP);
    assert Claim(s4.value, BUYER, MINT, 1).Ok?;
  }
}
