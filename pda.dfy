/** Program-derived addresses and the accounts the program controls. An
    address is derived by hashing a list of seeds; the runtime lets the
    program sign for such an address when it passes the same seeds followed
    by the one-byte bump. The hash is not modelled: an address is identified
    with the seeds that derive it. */
module Pda {
  import opened Solana
  import opened Contexts

  /** Who controls a token account: one of the two kinds of record, or a
      key held by a person. */
  datatype Owner = PresalePda | UserPda(user: Pubkey) | Wallet(key: Pubkey)

  /** An associated token account, fixed by its owner and its mint. */
  datatype Ata = Ata(owner: Owner, mint: Pubkey)

  const PRESALE_SEED_BYTES: seq<byte> := [0x70, 0x72, 0x65, 0x73, 0x61, 0x6c, 0x65, 0x5f, 0x69, 0x6e, 0x66, 0x6f]
  const USER_SEED_BYTES: seq<byte> := [0x75, 0x73, 0x65, 0x72, 0x5f, 0x69, 0x6e, 0x66, 0x6f]

  /** The seed bytes are the ASCII bytes of the two seed strings
      (`as_bytes`). */
  lemma SeedBytesAreAscii()
    ensures |PRESALE_SEED_BYTES| == |PRESALE_INFO_SEED|
    ensures forall i :: 0 <= i < |PRESALE_SEED_BYTES| ==> PRESALE_SEED_BYTES[i] as int == PRESALE_INFO_SEED[i] as int
    ensures |USER_SEED_BYTES| == |USER_INFO_SEED|
    ensures forall i :: 0 <= i < |USER_SEED_BYTES| ==> USER_SEED_BYTES[i] as int == USER_INFO_SEED[i] as int
  {
  }

  /** The bump `find_program_address` returns. The search it performs is a
      hash computation and is not modelled; whether the program may sign
      depends only on the shape of the seeds it passes. */
  const BUMP: byte := 255

  /** The seeds a record's address is derived from (contexts.rs `seeds = ...`). */
  function DerivationSeeds(o: Owner): (seeds: seq<seq<byte>>)
    requires !o.Wallet?
    ensures |seeds| == if o.PresalePda? then 1 else 2
  {
    match o
    case PresalePda => [PRESALE_SEED_BYTES]
    case UserPda(u) => [USER_SEED_BYTES, KeyBytes(u)]
  }

  /** The runtime treats `o` as a signer exactly when the program passes
      `o`'s derivation seeds followed by a one-byte bump. */
  predicate SignedBy(signerSeeds: seq<seq<byte>>, o: Owner)
  {
    && !o.Wallet?
    && |signerSeeds| == |DerivationSeeds(o)| + 1
    && signerSeeds[..|DerivationSeeds(o)|] == DerivationSeeds(o)
    && |signerSeeds[|DerivationSeeds(o)|]| == 1
  }

  /** The seeds `burn_token` and `buy_token` sign with for the sale record. */
  function PresaleSignerSeeds(bump: byte): (seeds: seq<seq<byte>>)
    ensures seeds == DerivationSeeds(PresalePda) + [[bump]]
  {
    [PRESALE_SEED_BYTES, [bump]]
  }

  /** The seeds `claim` signs with for the participant record, as written:
      the participant's key, used to find the bump, is left out. */
  function ClaimSignerSeedsAsWritten(bump: byte): (seeds: seq<seq<byte>>)
    ensures forall u :: seeds == DerivationSeeds(UserPda(u))[..1] + [[bump]]
  {
    [USER_SEED_BYTES, [bump]]
  }

  /** The seeds `claim` evidently means to sign with: those that derive the
      participant record, then the bump. */
  function ClaimSignerSeeds(user: Pubkey, bump: byte): (seeds: seq<seq<byte>>)
    ensures seeds == DerivationSeeds(UserPda(user)) + [[bump]]
  {
    [USER_SEED_BYTES, KeyBytes(user), [bump]]
  }

  /** Each record lives at its own address: different records are derived
      from different seeds, so no participant's record is another's and
      none is the sale record. */
  lemma DerivationSeedsInjective(o1: Owner, o2: Owner)
    requires !o1.Wallet? && !o2.Wallet?
    requires DerivationSeeds(o1) == DerivationSeeds(o2)
    ensures o1 == o2
  {
    if o1.UserPda? && o2.UserPda? {
      assert DerivationSeeds(o1)[1] == KeyBytes(o1.user);
      KeyBytesInjective(o1.user, o2.user);
    }
  }

  /** The sale record's signer seeds authorize the sale record, and only it. */
  lemma PresaleSignerSeedsSign(bump: byte)
    ensures SignedBy(PresaleSignerSeeds(bump), PresalePda)
    ensures forall o :: SignedBy(PresaleSignerSeeds(bump), o) ==> o == PresalePda
  {
    var s := PresaleSignerSeeds(bump);
    assert s[..1] == [PRESALE_SEED_BYTES];
  }

  /** The corrected claim seeds authorize the participant's record, and
      no other record. */
  lemma ClaimSignerSeedsSign(user: Pubkey, bump: byte)
    ensures SignedBy(ClaimSignerSeeds(user, bump), UserPda(user))
    ensures forall o :: SignedBy(ClaimSignerSeeds(user, bump), o) ==> o == UserPda(user)
  {
    var s := ClaimSignerSeeds(user, bump);
    assert s[..2] == [USER_SEED_BYTES, KeyBytes(user)];
    forall o: Owner | SignedBy(s, o) ensures o == UserPda(user) {
      assert s[..|DerivationSeeds(o)|] == DerivationSeeds(o);
      if o.UserPda? {
        assert s[1] == DerivationSeeds(o)[1];
        KeyBytesInjective(user, o.user);
      }
    }
  }

  /** The claim seeds as written authorize no record at all: they are one
      seed short of any participant record's, and their tag is not the sale
      record's. */
  lemma ClaimSignerSeedsAsWrittenSignNothing(bump: byte)
    ensures forall o :: !SignedBy(ClaimSignerSeedsAsWritten(bump), o)
  {
    var s := ClaimSignerSeedsAsWritten(bump);
    forall o: Owner | !o.Wallet? && |s| == |DerivationSeeds(o)| + 1
      ensures s[..|DerivationSeeds(o)|] != DerivationSeeds(o)
    {
      assert o == PresalePda;
      assert |USER_SEED_BYTES| != |PRESALE_SEED_BYTES|;
      assert s[..1][0] == USER_SEED_BYTES;
    }
  }
}
