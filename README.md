# choobin presale program, modelled in Dafny

The choobin program is a Solana program written with Anchor. It runs a token
presale:

- an admin opens a sale record and deposits tokens into a pool;
- participants create a participant record and pay lamports to a treasury
  at a fixed price, and the tokens they buy move from the pool into an
  escrow held by their record;
- once the clock passes the end time, anyone may burn what is left in the
  pool, and each participant is meant to claim their escrow into their own
  token account. As written, `claim` signs with the wrong seeds, so every
  claim after the end time is refused and the tokens stay in the escrow
  (see "## Findings"). The model keeps that behaviour in
  `Instructions.ClaimSignedWith` with the seeds as written, and runs the
  program with the corrected seeds everywhere else.

The model covers the nine instructions of `programs/choobin/src/lib.rs` and
the account constraints of `programs/choobin/src/contexts.rs`.

| file | module | what it holds |
|---|---|---|
| `solana.dfy` | `Solana` | `u64`/`i64`, 32-byte keys as numbers below 2^256 with their big-endian bytes, the errors that revert an instruction, `Result`, the `i64 as u64` cast of the clock |
| `contexts.dfy` | `Contexts` | the seeds, the two records `PresaleInfo` and `UserInfo`, zero-filled records, one constraint predicate per instruction or group of instructions |
| `pda.dfy` | `Pda` | who controls a token account (sale record, participant record, wallet), derivation seeds, the signer seeds each instruction passes, and when the runtime accepts them |
| `programs.dfy` | `Programs` | the token program's `transfer` and `burn` and the system program's `transfer`, as effects on balance maps with their failure conditions |
| `ledger.dfy` | `Ledger` | the total owed to participants, and the predicate that the program's token accounts hold exactly what its records say |
| `instructions.dfy` | `Instructions` | one pure function per instruction over the accounts, the invariant `Consistent`, one preservation lemma per instruction or group of instructions, and properties over every instruction |
| `choobin.dfy` | `Choobin` | class `Presale`, whose fields are the accounts. Each instruction is a method that updates them in place and is proved to reach the state the matching function computes while keeping `Valid` |
| `scenarios.dfy` | `Scenarios` | concrete prices and one sale from opening to claim |

Conventions:

- An instruction checks its accounts in the order they are declared in
  `contexts.rs`, then runs its handler.
- Any failure, in a constraint, a cross-program call or a checked
  arithmetic operation, reverts the whole instruction: the step function
  returns `Err` and the method leaves the object unchanged.
- `u64` arithmetic in the handlers is taken to be checked, as Anchor
  workspaces build it with overflow checks by default, so an overflow
  panics and reverts (`ArithmeticOverflow`).
- The clock (`Clock::get().unix_timestamp`) is a parameter `now: i64`, cast
  to `u64` as the source does, so a negative clock reads as a huge value.

The invariant `Instructions.Consistent(s, deposited, burned, claimed)`
states four things:

- the records are well formed;
- the pool holds exactly the sale record's `amount`;
- every participant's escrow holds exactly that participant's `amount`, and
  no other program-controlled token account holds anything;
- every token deposited is still in the pool, owed to a participant, burned,
  or claimed.

The three counters are ghost fields of `Presale`.

Behaviour worth knowing, which the model keeps:

- The code raises none of its own error codes (`error.rs`).
- The code checks no inventory before a purchase. An order larger than the
  pool is refused by the token program (`InsufficientFunds`), and
  `Instructions.BuyTokenFailures` proves that this is what happens.
- `burn_token` and `deposit_token` require no admin signature: any signer
  passes.
- A purchase of 0 lamports is accepted.

## Model

| member | source | states |
|---|---|---|
| Solana.AsU64 | programs/choobin/src/lib.rs:62 | the clock's `i64 as u64` keeps the value modulo 2^64, and a result is at most `i64::MAX` exactly when the clock is not negative |
| Solana.KeyBytesInjective | programs/choobin/src/contexts.rs:144 | different keys give different seed bytes (`key().as_ref()`) |
| Contexts.AdminHandover | programs/choobin/src/contexts.rs:104-118 | after a `change_admin` that passed its constraints, the admin constraint admits the new admin and nobody else, and no longer the old admin |
| Contexts.InitializeConstraints | programs/choobin/src/contexts.rs:40-47 | `initialize`'s account constraints: the mint has 9 decimals (`mint::decimals = 9`) and the treasury is not the default key |
| Contexts.SaleMintConstraint | programs/choobin/src/contexts.rs:74-96 | the `constraint` of `deposit_token` (line 74) and `burn_token` (line 96): the mint account is the sale's mint; no signer is checked |
| Contexts.AdminConstraint | programs/choobin/src/contexts.rs:109-138 | the `constraint` of `change_admin` (line 109), `change_treasury` (line 125) and `set_endtime` (line 138): the signer is the stored admin |
| Contexts.ChangeAdminConstraints | programs/choobin/src/contexts.rs:109-115 | `change_admin`'s constraints: the signer is the admin, and the new admin is neither the default key nor the signer |
| Contexts.ChangeTreasuryConstraints | programs/choobin/src/contexts.rs:125-129 | `change_treasury`'s constraints: the signer is the admin, and the treasury is not the default key |
| Contexts.BuyTokenConstraints | programs/choobin/src/contexts.rs:179-183 | `buy_token`'s constraints: the sale's mint (line 179), and the treasury account is the stored treasury (line 183) |
| Contexts.ClaimConstraints | programs/choobin/src/contexts.rs:205-208 | `claim`'s constraints: the signer is the participant stored in the record (line 205), and the sale's mint (line 208) |
| Pda.DerivationSeeds | programs/choobin/src/contexts.rs:144 | the seeds a record's address is derived from: `[PRESALE_INFO_SEED]` for the sale record (line 33), `[USER_INFO_SEED, user key]` for a participant record (lines 144, 165, 196); one seed for the sale record, two for a participant's |
| Pda.PresaleSignerSeeds | programs/choobin/src/lib.rs:160-163 | the signer seeds of `buy_token` (and `burn_token`, lines 72-75) are the sale record's derivation seeds followed by the bump |
| Pda.ClaimSignerSeedsAsWritten | programs/choobin/src/lib.rs:199-202 | the as-written half of the Findings row: `claim`'s signer seeds are any participant record's derivation seeds with the key dropped, followed by the bump |
| Pda.ClaimSignerSeeds | programs/choobin/src/lib.rs:192-198 | the corrected half of the Findings row: the participant record's derivation seeds, the same ones that find the bump, followed by the bump |
| Pda.SeedBytesAreAscii | programs/choobin/src/contexts.rs:9-10 | the seed byte strings are the bytes of `"presale_info"` and `"user_info"` |
| Pda.DerivationSeedsInjective | programs/choobin/src/contexts.rs:144 | different records are derived from different seeds, so each participant record has its own address, distinct from the sale record's |
| Pda.PresaleSignerSeedsSign | programs/choobin/src/lib.rs:154-164 | the seeds `buy_token` and `burn_token` pass authorize the sale record and no other account |
| Pda.ClaimSignerSeedsSign | programs/choobin/src/lib.rs:192-198 | the seeds the participant record is derived from, followed by the bump, authorize that record and no other |
| Pda.ClaimSignerSeedsAsWrittenSignNothing | programs/choobin/src/lib.rs:199-203 | the seeds `claim` passes as written authorize no record at all |
| Programs.Transfer | programs/choobin/src/lib.rs:47-54 | `token::transfer` succeeds exactly when signed, covered by the source and not overflowing the destination; it names the error of each other case, moves `amount` from source to destination, conserves their sum and touches no other account |
| Programs.Burn | programs/choobin/src/lib.rs:78-85 | `token::burn` succeeds exactly when signed and covered; it removes `amount` from the source and touches no other account |
| Programs.TransferLamports | programs/choobin/src/lib.rs:138-150 | the system transfer succeeds exactly when the payer is covered and the payee does not overflow; it names the error of each other case, conserves the pair's sum and touches no other wallet |
| Ledger.TotalOwedUpdate | programs/choobin/src/lib.rs:178 | writing one participant's `amount` changes the total owed by exactly that change |
| Ledger.OpeningKeepsCustody | programs/choobin/src/lib.rs:31-39 | pointing the sale record at a mint while nothing is held or owed keeps custody equal to the records |
| Ledger.PoolChangeKeepsCustody | programs/choobin/src/lib.rs:85-88 | moving tokens in or out of the pool alone, with the sale record's `amount` following, keeps custody equal to the records |
| Ledger.EscrowChangeKeepsCustody | programs/choobin/src/lib.rs:174-178 | moving tokens between pool, one escrow and wallets, with both records following, keeps custody equal to the records |
| Ledger.NewParticipantKeepsCustody | programs/choobin/src/lib.rs:122-126 | a new participant record owing nothing keeps custody equal to the records |
| Instructions.TokensOut | programs/choobin/src/lib.rs:173 | `lamports * 1000000000 / price` in u64: it succeeds exactly when the product fits and the price is not zero, names the panic otherwise, and is the largest count of raw units whose price does not exceed the payment |
| Instructions.PurchaseCeiling | programs/choobin/src/lib.rs:173 | at the fixed price a purchase's arithmetic succeeds exactly up to 18446744073 lamports, and buys at least 7518 raw units per lamport |
| Instructions.Initialize | programs/choobin/src/lib.rs:25-42 | fails on an existing record, then on decimals other than 9, then on the default treasury; otherwise the signer becomes admin with the given mint and treasury, price 133000, amount 0 and end time 0 |
| Instructions.InitializeHandler | programs/choobin/src/lib.rs:31-39 | an initialized record is left as it is; an uninitialized one gets the signer, mint, treasury, price 133000, amount 0 and end time 0 |
| Instructions.InitializeKeepsConsistent | programs/choobin/src/lib.rs:25-42 | opening the sale keeps the invariant |
| Instructions.DepositToken | programs/choobin/src/lib.rs:44-58 | fails without a sale record, then on another mint, then on each token-program failure, then on overflow of `amount`; otherwise the payer's account loses and the pool gains `amount`, and so does the record |
| Instructions.DepositFits | programs/choobin/src/lib.rs:56 | `presale_info.amount += amount` cannot overflow once the transfer succeeded |
| Instructions.DepositTokenKeepsConsistent | programs/choobin/src/lib.rs:44-58 | a deposit keeps the invariant with its tokens counted as deposited, and never panics on `presale_info.amount += amount` (line 56); the token program may still refuse a pool that would overflow |
| Instructions.BurnToken | programs/choobin/src/lib.rs:60-93 | before or at the end time it changes nothing; after it, the pool loses the record's `amount`, which drops to 0, and it fails only when the pool holds less |
| Instructions.BurnTokenKeepsConsistent | programs/choobin/src/lib.rs:60-93 | the burn succeeds exactly when the record exists and the mint matches; after the end time it empties the pool and keeps the invariant with the pool counted as burned |
| Instructions.ChangeAdmin | programs/choobin/src/lib.rs:95-100 | succeeds exactly when the admin signs and the new admin is neither default nor the signer; then only `admin` changes |
| Instructions.ChangeTreasury | programs/choobin/src/lib.rs:102-107 | succeeds exactly when the admin signs and the treasury is not default; then only `treasury` changes |
| Instructions.SetEndtime | programs/choobin/src/lib.rs:109-116 | succeeds exactly when the admin signs; stores the end time only when it lies after the clock, otherwise changes nothing |
| Instructions.SettingsChangeKeepsConsistent | programs/choobin/src/lib.rs:95-116 | changing admin, treasury or end time keeps the invariant |
| Instructions.CreateUserInfo | programs/choobin/src/lib.rs:118-129 | never fails; leaves an initialized record as it is, and otherwise stores an initialized record owned by the signer and owing 0 |
| Instructions.CreateUserInfoKeepsConsistent | programs/choobin/src/lib.rs:118-129 | creating a participant record keeps the invariant |
| Instructions.CreateUserInfoIdempotent | programs/choobin/src/lib.rs:122 | a second `create_user_info` leaves the accounts as the first left them |
| Instructions.BuyToken | programs/choobin/src/lib.rs:131-181 | the error of each failing case in the source's order; on success the buyer pays the treasury `lamports`, the pool gives the escrow the tokens bought, the sale record's `amount` falls and the buyer's rises by the same number |
| Instructions.PurchaseFits | programs/choobin/src/lib.rs:177-178 | `presale_info.amount -= amount` and `user_info.amount += amount` cannot overflow once the token transfer succeeded |
| Instructions.BuyTokenKeepsConsistent | programs/choobin/src/lib.rs:131-181 | a purchase keeps the invariant: tokens only move from the pool's `amount` to the buyer's |
| Instructions.BuyTokenFailures | programs/choobin/src/lib.rs:173-178 | only the product `lamports * 10^9` can panic, never the division or the two updates, and an order larger than the pool fails with `InsufficientFunds` |
| Instructions.ClaimSignedWith | programs/choobin/src/lib.rs:183-220 | for the seeds it signs with: the error of each failing case in order; before or at the end time nothing changes; after it the escrow's `amount` moves to the participant's own account and the record drops to 0 |
| Instructions.Claim | programs/choobin/src/lib.rs:192-212 | `claim` with the corrected seeds of the Findings row: signing with the participant record's derivation seeds is never refused for lack of a signature |
| Instructions.ClaimAsWrittenAlwaysFails | programs/choobin/src/lib.rs:199-212 | with the seeds as written, every claim past its constraints and the end time is refused by the runtime (privilege escalation, or invalid seeds) |
| Instructions.ClaimKeepsConsistent | programs/choobin/src/lib.rs:183-220 | a claim after the end time empties the escrow and keeps the invariant with its tokens counted as claimed; before the end time it changes nothing; it fails only on a missing record, a constraint, or an overflowing wallet |
| Instructions.ClaimTwiceMovesNothing | programs/choobin/src/lib.rs:212-215 | a second claim after a successful one succeeds and moves no tokens |
| Instructions.PriceAndMintFixed | programs/choobin/src/lib.rs:34-36 | once the sale is open, no instruction changes its price or mint, or removes it |
| Instructions.SettingsOnlyByAdmin | programs/choobin/src/contexts.rs:104-140 | admin, treasury and end time change only through the three admin instructions, signed by the admin |
| Instructions.RecordOnlyByOwner | programs/choobin/src/contexts.rs:142-220 | a participant record is created or changed only by an instruction that participant signs |
| Choobin.Presale.Initialize | programs/choobin/src/lib.rs:25-42 | keeps `Valid`, reports `Instructions.Initialize`'s outcome and leaves its accounts, or nothing changed |
| Choobin.Presale.DepositToken | programs/choobin/src/lib.rs:44-58 | keeps `Valid`, reaches `Instructions.DepositToken`'s accounts or changes nothing, and counts `amount` as deposited |
| Choobin.Presale.DepositTokenHandler | programs/choobin/src/lib.rs:47-57 | transfer, then checked addition; reaches `Instructions.DepositToken`'s accounts or changes nothing |
| Choobin.Presale.BurnToken | programs/choobin/src/lib.rs:60-93 | keeps `Valid` and reaches `Instructions.BurnToken`'s accounts or changes nothing |
| Choobin.Presale.BurnTokenHandler | programs/choobin/src/lib.rs:61-92 | burn signed by the sale record, then reset; reaches `Instructions.BurnToken`'s accounts or changes nothing |
| Choobin.Presale.ChangeAdmin | programs/choobin/src/lib.rs:95-100 | keeps `Valid` and reaches `Instructions.ChangeAdmin`'s accounts or changes nothing |
| Choobin.Presale.ChangeTreasury | programs/choobin/src/lib.rs:102-107 | keeps `Valid` and reaches `Instructions.ChangeTreasury`'s accounts or changes nothing |
| Choobin.Presale.SetEndtime | programs/choobin/src/lib.rs:109-116 | keeps `Valid` and reaches `Instructions.SetEndtime`'s accounts or changes nothing |
| Choobin.Presale.CreateUserInfo | programs/choobin/src/lib.rs:118-129 | keeps `Valid`, succeeds, and reaches `Instructions.CreateUserInfo`'s accounts |
| Choobin.Presale.BuyToken | programs/choobin/src/lib.rs:131-181 | keeps `Valid` and reaches `Instructions.BuyToken`'s accounts or changes nothing |
| Choobin.Presale.BuyTokenHandler | programs/choobin/src/lib.rs:137-180 | lamport transfer, token transfer, then checked updates; reaches `Instructions.BuyToken`'s accounts or changes nothing |
| Choobin.Presale.Claim | programs/choobin/src/lib.rs:183-220 | `claim` with the corrected seeds of the Findings row: keeps `Valid` and reaches `Instructions.Claim`'s accounts or changes nothing |
| Choobin.Presale.ClaimHandler | programs/choobin/src/lib.rs:188-219 | the `claim` handler with the corrected seeds of the Findings row: transfer signed by the participant record, then reset; reaches `Instructions.Claim`'s accounts or changes nothing |
| Scenarios.PriceExamples | programs/choobin/src/lib.rs:36 | 133000 lamports buy one whole token (10^9 raw units), and one lamport buys 7518 raw units |
| Scenarios.PurchaseCeilingExample | programs/choobin/src/lib.rs:173 | 18446744073 lamports can be spent in one purchase, and one more lamport overflows |
| Scenarios.SaleRun | programs/choobin/src/lib.rs:25-220 | one sale: open, deposit one token, register, buy it for 133000 lamports, claim before the end (nothing happens); after the end the claim as written is refused with a privilege error, and the claim with the corrected seeds of the Findings row moves the token to the buyer |

## Left out

- Instructions.ClaimAsWrittenAlwaysFails: both ways the runtime can refuse the as-written seeds are reported as `PrivilegeEscalation`. If the hash of `[USER_INFO_SEED, bump]` lies on the curve, the runtime instead aborts with an invalid-seeds error. The address hash is not modelled, so the model cannot tell the two apart. The instruction reverts either way.
- Rent and account space (`space = ...`, `payer = ...`) are not modelled. Creating an account never fails for lack of lamports.
- Creating associated token accounts (`init_if_needed`) is not modelled. A token account missing from the balance map holds 0 and behaves as if it exists.
- Mints, mint supply and decimals are not modelled beyond the decimals check in `initialize`. A burn only lowers the pool's balance.
- `find_program_address` and the address hash are not modelled. An address is identified with its seeds, and the bump is a fixed byte (`Pda.BUMP`). Whether the runtime accepts signer seeds depends only on their shape.
- Keys are numbers below 2^256. Their bytes are the big-endian encoding.
- The clock is a parameter. The error when `Clock::get()` fails (`unwrap`) is not modelled.
- Token transfers into program-controlled accounts made outside this program are not modelled. They would break the equality between custody and records, though not the program's behaviour.
- Frozen token accounts, delegates and closing accounts are not modelled.
- Instructions.TokensOut: the `( ... ) as u64` cast is a no-op on a `u64`, and the product is assumed to be checked, so a purchase above 18446744073 lamports (about 18.4 SOL) reverts. A build without overflow checks would instead wrap the product and sell far fewer tokens.
- Choobin.Presale.BurnToken: does not state `burned == old(burned) + amount` in its own contract. The increase is pinned by `Valid` together with the unchanged `deposited` and `claimed`.
- Choobin.Presale.Claim: does not state `claimed == old(claimed) + amount` in its own contract. The increase is pinned by `Valid` together with the unchanged `deposited` and `burned`.

## Findings

| source | as written | input that shows it | evidently intended | confidence | as-written member | corrected member |
|---|---|---|---|---|---|---|
| programs/choobin/src/lib.rs:199-203 | `claim` signs for the participant record with the seeds `[USER_INFO_SEED, bump]`, leaving out the participant's key that the record is derived from (contexts.rs:196) and that was used to find the bump (lib.rs:192-198) | any claim after the end time that passes its account constraints, e.g. the buyer's claim at clock 1 in `Scenarios.SaleRun`. The runtime refuses the signed call before the token program runs, so bought tokens stay in the escrow forever | sign with `[USER_INFO_SEED, user key, bump]` | not executed | Instructions.ClaimAsWrittenAlwaysFails | Instructions.Claim |
