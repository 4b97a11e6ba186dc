/** What the records promise against what the program's token accounts
    hold: the tokens owed to buyers across all participant records, and the
    match between each record and the balance of the account it controls. */
module Ledger {
  import opened Solana
  import opened Contexts
  import opened Pda
  import opened Programs

  /** The sum of `amount` over every participant record. */
  ghost function TotalOwed(users: map<Pubkey, UserInfo>): nat
  {
    SumOwed(users, users.Keys)
  }

  /** The sum of `amount` over the records stored under `keys`. */
  ghost function SumOwed(users: map<Pubkey, UserInfo>, keys: set<Pubkey>): nat
    requires keys <= users.Keys
  {
    if keys == {} then 0
    else
      var u :| u in keys;
      users[u].amount + SumOwed(users, keys - {u})
  }

  /** The sum splits off any one record, whichever the definition happens
      to pick first. */
  lemma {:induction false} SumOwedRemove(users: map<Pubkey, UserInfo>, keys: set<Pubkey>, u: Pubkey)
    requires keys <= users.Keys && u in keys
    ensures SumOwed(users, keys) == users[u].amount + SumOwed(users, keys - {u})
    decreases |keys|
  {
    var v :| v in keys && SumOwed(users, keys) == users[v].amount + SumOwed(users, keys - {v});
    if v != u {
      assert keys - {v} - {u} == keys - {u} - {v};
      SumOwedRemove(users, keys - {v}, u);
      SumOwedRemove(users, keys - {u}, v);
    }
  }

  /** The sum over `keys` depends only on the amounts stored under `keys`. */
  lemma {:induction false} SumOwedFrame(users: map<Pubkey, UserInfo>, users': map<Pubkey, UserInfo>, keys: set<Pubkey>)
    requires keys <= users.Keys && keys <= users'.Keys
    requires forall k :: k in keys ==> users[k].amount == users'[k].amount
    ensures SumOwed(users, keys) == SumOwed(users', keys)
    decreases |keys|
  {
    if keys != {} {
      var v :| v in keys && SumOwed(users, keys) == users[v].amount + SumOwed(users, keys - {v});
      SumOwedRemove(users', keys, v);
      SumOwedFrame(users, users', keys - {v});
    }
  }

  /** Writing one record changes the sum by exactly the change in that
      record's amount; every other record contributes as before. */
  lemma TotalOwedUpdate(users: map<Pubkey, UserInfo>, u: Pubkey, info: UserInfo)
    ensures TotalOwed(users[u := info]) + (if u in users then users[u].amount else 0)
            == TotalOwed(users) + info.amount
  {
    var updated := users[u := info];
    var others := users.Keys - {u};
    SumOwedRemove(updated, updated.Keys, u);
    assert updated.Keys - {u} == others;
    SumOwedFrame(updated, users, others);
    if u in users {
      SumOwedRemove(users, users.Keys, u);
    } else {
      assert users.Keys == others;
    }
  }

  /** Records that owe nothing add up to nothing. */
  lemma {:induction false} SumOwedZero(users: map<Pubkey, UserInfo>, keys: set<Pubkey>)
    requires keys <= users.Keys
    requires forall u :: u in keys ==> users[u].amount == 0
    ensures SumOwed(users, keys) == 0
    decreases |keys|
  {
    if keys != {} {
      var v :| v in keys && SumOwed(users, keys) == users[v].amount + SumOwed(users, keys - {v});
      SumOwedZero(users, keys - {v});
    }
  }

  /** Nothing is owed while every record owes nothing. */
  lemma TotalOwedZero(users: map<Pubkey, UserInfo>)
    requires forall u :: u in users ==> users[u].amount == 0
    ensures TotalOwed(users) == 0
  {
    SumOwedZero(users, users.Keys);
  }

  /** A token account a program record controls (not a wallet's) that no
      record accounts for: one of another mint, or the escrow of a key that
      has no participant record. */
  predicate Untracked(info: PresaleInfo, users: map<Pubkey, UserInfo>, a: Ata)
  {
    && !a.owner.Wallet?
    && (a.mint != info.mint || (a.owner.UserPda? && a.owner.user !in users))
  }

  /** Custody equals the ledger: the pool holds exactly the sale record's
      `amount`, each participant's escrow exactly that participant's
      `amount`, and no untracked program-controlled account holds anything. */
  ghost predicate CustodyMatchesLedger(info: PresaleInfo, users: map<Pubkey, UserInfo>, tokens: map<Ata, u64>)
  {
    && Balance(tokens, Ata(PresalePda, info.mint)) == info.amount
    && (forall u :: u in users ==> Balance(tokens, Ata(UserPda(u), info.mint)) == users[u].amount)
    && (forall a :: Untracked(info, users, a) ==> Balance(tokens, a) == 0)
  }

  /** Switching the sale record to another mint keeps custody equal to the
      ledger, provided nothing was held or owed before: the old mint's
      accounts hold nothing, and the new mint's program accounts were
      untracked. */
  lemma OpeningKeepsCustody(blank: PresaleInfo, users: map<Pubkey, UserInfo>, tokens: map<Ata, u64>,
                            info: PresaleInfo)
    requires CustodyMatchesLedger(blank, users, tokens)
    requires blank.amount == 0 && info.amount == 0
    requires forall u :: u in users ==> users[u].amount == 0
    ensures CustodyMatchesLedger(info, users, tokens)
  {
    assert Balance(tokens, Ata(PresalePda, info.mint)) == 0 by {
      if info.mint != blank.mint {
        assert Untracked(blank, users, Ata(PresalePda, info.mint));
      }
    }
    forall u | u in users
      ensures Balance(tokens, Ata(UserPda(u), info.mint)) == 0
    {
      if info.mint != blank.mint {
        assert Untracked(blank, users, Ata(UserPda(u), info.mint));
      }
    }
    forall a | Untracked(info, users, a)
      ensures Balance(tokens, a) == 0
    {
      if !Untracked(blank, users, a) {
        if a.owner.UserPda? {
          assert users[a.owner.user].amount == 0;
        }
      }
    }
  }

  /** Moving tokens into or out of the pool alone, with the sale record's
      `amount` following, keeps custody equal to the ledger. */
  lemma PoolChangeKeepsCustody(info: PresaleInfo, users: map<Pubkey, UserInfo>, tokens: map<Ata, u64>,
                               tokens': map<Ata, u64>, amount: u64)
    requires CustodyMatchesLedger(info, users, tokens)
    requires Balance(tokens', Ata(PresalePda, info.mint)) == amount
    requires forall a: Ata :: !a.owner.Wallet? && a != Ata(PresalePda, info.mint) ==> Balance(tokens', a) == Balance(tokens, a)
    ensures CustodyMatchesLedger(info.(amount := amount), users, tokens')
  {
  }

  /** Moving tokens between the pool, one participant's escrow and wallets,
      with both records following, keeps custody equal to the ledger. */
  lemma EscrowChangeKeepsCustody(info: PresaleInfo, users: map<Pubkey, UserInfo>, tokens: map<Ata, u64>,
                                 tokens': map<Ata, u64>, u: Pubkey, pool: u64, owed: u64)
    requires CustodyMatchesLedger(info, users, tokens)
    requires u in users
    requires Balance(tokens', Ata(PresalePda, info.mint)) == pool
    requires Balance(tokens', Ata(UserPda(u), info.mint)) == owed
    requires forall a: Ata :: !a.owner.Wallet? && a != Ata(PresalePda, info.mint) && a != Ata(UserPda(u), info.mint)
                         ==> Balance(tokens', a) == Balance(tokens, a)
    ensures CustodyMatchesLedger(info.(amount := pool), users[u := users[u].(amount := owed)], tokens')
  {
  }

  /** A new participant record owing nothing keeps custody equal to the
      ledger: its escrow was untracked, so it held nothing. */
  lemma NewParticipantKeepsCustody(info: PresaleInfo, users: map<Pubkey, UserInfo>, tokens: map<Ata, u64>,
                                   u: Pubkey, record: UserInfo)
    requires CustodyMatchesLedger(info, users, tokens)
    requires u !in users && record.amount == 0
    ensures CustodyMatchesLedger(info, users[u := record], tokens)
  {
    assert Untracked(info, users, Ata(UserPda(u), info.mint));
  }
}
