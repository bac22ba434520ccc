# Verified models of the StellarKraal protocols

This project models the parts of StellarKraal that move value or promise agreement, and proves what they keep over
every input and every run. `dafny verify dfyconfig.toml` checks all of it.

**Carbon credits** (`CarbonRegistry`, `CarbonCredit`, `CarbonMarketplace`, `CarbonBooks`, `CarbonSystem`,
`CarbonBatch`, `CarbonListings`, `CarbonAuthority`, `CarbonOutcomes`). Three contracts, each a class over its storage
rows, form one machine whose steps are whole transactions: a call that returns an error leaves all storage as it was,
because the host rolls it back. Over every run the balances of a project add up to its supply, and supply plus retired
credits is exactly what was issued, so the saturating and checked arithmetic of the contracts is exact. Listings are
kept as far as the host tells sellers apart, and every change is traced to whoever must have signed it.

**Livestock loans** (`LivestockLoans`, `LoanLock`, `LoanInterest`, `LoanHealth`, `LoanAccounts`). Truncating interest,
the loan-to-value limit, the account of every loan, the health factor, liquidation, and the lock that ties an asset to
one active loan.

**Rate limiting** (`RateLimitStore`, `RateLimiter`, `RateLimitAnswers`). The in-memory store and the Redis store both
give the counts of the true arrival history, and the limiter built on them lets through at most
`limit + limit * (window - 2) / window` requests in any `window` consecutive seconds, a bound that is reached.

**Price aggregation** (`Aggregation`, `AggregationRanks`, `WeightedMedian`). Quartile and median-deviation rejection,
exactly by rank, and the weighted median, over lists of any length.

**Attestations and the oracle** (`Bytes`, `Attestation`, `CarbonOracle`, `OracleHistory`, `OraclePrices`). The
113-byte payload that Python packs and Rust rebuilds, and commit, challenge and reveal as a machine with a log of
accepted calls.

**Idempotent requests** (`StableStringify`, `MarketplaceService`, `Idempotency`, `IdempotencyRuns`,
`IdempotencyOutcomes`, `IdempotencyLimits`). The middleware as a sequence of durable writes, any of which may be the
last one before the process dies, around the listing, purchase and retirement endpoints. The theorems hold over all
runs of requests, failing transactions and crashes.

**Event indexing** (`EventIndexer`, `IndexerRuns`, `IndexerWrites`). Ticks over a paged, append-only event log, cut
short after any durable write.

`Base`, `MapSums`, `Sorting` and `Strings` hold shared vocabulary. Operations that change state are class methods
whose contract gives the whole new state as a function of the old one; the theorems are about that function.

## Where the code decides

- `register_project` replaces an existing record. Conservation survives that exactly when nothing was issued under the
  id (`RegistrationKeepsConservation`). The id hashes owner, name and year only if the host's conversion gives their
  bytes; the fallback hashes the year alone, and then another owner's project of the same year erases the first
  (`ReRegistrationBreaksConservation`).
- Listing ids hash the seller's bytes, with an empty fallback. A new listing lands on a stored one exactly when that
  is another seller's with equal seller bytes, terms, ledger and nonce (`CreationCollides`); under the fallback a sold
  listing is replaced and for sale again (`EmptySellerBytesLoseListing`).
- `register_asset` names an asset after its ledger alone. The lock survives a registration exactly when that name is
  not collateral (`RegistrationKeepsLock`); one registration per ledger is enough (`LockWithRegistrationsApart`), and
  two let one asset back two loans (`TwoRegistrationsInOneLedger`).
- The configuration check alone does not keep a fresh loan out of liquidation; a threshold of at least 1.2 times the
  collateral ratio does, and nothing less does (`SafeOpeningsExactly`).
- The comment at contracts/carbon_registry/src/lib.rs:226 lets the administrator issue credits; the code asks for the
  marketplace's authority only, and so does the model.
- A comment at contracts/carbon_credit/src/lib.rs:343-346 says a failed retirement consumes its operation id. Under
  host rollback it does not; the model follows the rollback.
- The idle sweep of the in-memory store is invisible exactly for windows of at most 150 seconds
  (`SweepInvisibleExactly`); the configured windows are 10 and 60 seconds.
- MAD rejection keeps half of the sources exactly for multipliers of at least 1, IQR rejection exactly for multipliers
  of at least 0. Nine tests deselected in oracle-bridge/pyproject.toml:31-47 expect rejections the code does not make;
  the model follows the code.
- A commitment waits for the challenge window configured when it is revealed, so it waits out its own exactly when the
  window has not become shorter since (`OwnWindowWaitedExactly`). A window shortened to zero lets a price be revealed
  in the ledger that committed it (`ShortenedWindowRevealsAtOnce`).
- A listing key reused with another quantity after its time to live breaks the sold-quantity balance; every other
  payload keeps it (`ListingKeepsBalance`, `PurchaseKeepsBalance`, `ReusedListingKeyBreaksBalance`).
- A purchase key used again after its time to live submits a second purchase on chain, but the row id is the same, so
  the tables keep the first purchase and the listing is not decremented (`ReusedPurchaseKey`,
  `ReusedPurchaseKeyIsUnrecorded`).
- A key whose purchase or listing was lost, retried on the retirement endpoint, gets a success although no row is
  written: the missing columns are bound as null, and `INSERT OR IGNORE` ignores the row (`RetryOnAnotherEndpoint`,
  `ForeignRetryWritesNothing`).
- Reconciling a lost purchase does not look again at what is left, so it can take a listing below zero; nothing else
  can (`OversellsExactly`, `LateFillOversells`).
- An event that is not indexed when its type's cursor has passed its ledger is never indexed (`LostForever`), and
  nothing else is ever missing (`EveryRunIndexesExactly`). Two ways to get there: two contracts watched for one type
  share a cursor (`SharedTypeHidesExactly`), and a page may end inside a ledger (`SplitLedgerLosesEvents`).
- Deliveries are enqueued at most once; those not yet enqueued when a process dies are never made up
  (`EnqueuedExactly`), although the header comment of backend/src/indexer/eventIndexer.ts:4-9 speaks of an atomic
  batch write.

## Model

| member | source | states |
|---|---|---|
| CarbonCredit.CreditContract.WriteBalance | contracts/carbon_credit/src/lib.rs:439-446 | reading the row back gives the amount, other rows read as before, and the row is there exactly for amounts other than zero |
| CarbonCredit.CreditContract.Mint | contracts/carbon_credit/src/lib.rs:179-229 | the exact new balances and supply, or an error with storage rolled back |
| CarbonCredit.CreditContract.Transfer | contracts/carbon_credit/src/lib.rs:231-269 | moves the amount between two rows, a transfer to oneself moves nothing, errors change nothing |
| CarbonCredit.CreditContract.Burn | contracts/carbon_credit/src/lib.rs:273-304 | takes the amount from balance and supply on the marketplace's authority |
| CarbonCredit.CreditContract.Retire | contracts/carbon_credit/src/lib.rs:322-375 | moves the amount from balance and supply to the retired row under an unused operation id |
| CarbonCredit.CreditContract.BatchTransfer | contracts/carbon_credit/src/lib.rs:378-389 | the loop of transfers is all or nothing |
| CarbonMarketplace.MarketContract.CreateListing | contracts/carbon_marketplace/src/lib.rs:273-430 | stores an active listing under the digest of 108 bytes made from seller bytes, project, amount, price, ledger and the seller's next nonce |
| CarbonMarketplace.MarketContract.PurchaseListing | contracts/carbon_marketplace/src/lib.rs:435-525 | burns from the seller, mints to the buyer and closes the listing across three contracts, or changes none of them |
| CarbonMarketplace.MarketContract.MintProjectCredits | contracts/carbon_marketplace/src/lib.rs:577-621 | issues in the registry and mints to the owner in one transaction |
| CarbonBooks.BalanceWithinSupply | contracts/carbon_credit/src/lib.rs:394-408 | every balance lies between zero and its project's supply |
| CarbonBooks.SaturatingSubIsExact | contracts/carbon_credit/src/lib.rs:296-300 | the saturating subtraction from the supply never saturates |
| CarbonBooks.MintKeepsBooks | contracts/carbon_credit/src/lib.rs:208-226 | minting raises one balance and one supply by the amount, and balances still add up to supply |
| CarbonBooks.BurnKeepsBooks | contracts/carbon_credit/src/lib.rs:284-302 | burning lowers one balance and one supply by the amount, and balances still add up to supply |
| CarbonBooks.RetireKeepsBooks | contracts/carbon_credit/src/lib.rs:338-372 | what leaves the supply enters the retired row, the operation id is spent, and balances still add up |
| CarbonBooks.TransferKeepsBooks | contracts/carbon_credit/src/lib.rs:231-269 | exactly when a transfer succeeds: the checked addition on the receiving side cannot fail |
| CarbonBatch.BatchOutcome | contracts/carbon_credit/src/lib.rs:378-389 | a batch succeeds exactly when all amounts are positive and, per project, those not sent to oneself fit the starting balance; each balance then changes by its own debits and credits |
| CarbonBatch.BatchOrderIrrelevant | contracts/carbon_credit/src/lib.rs:378-389 | permuting a batch changes neither success nor the final storage |
| CarbonSystem.PurchaseSettles | contracts/carbon_marketplace/src/lib.rs:435-525 | the exact conditions for a purchase: once the burn succeeds the mint cannot fail; supply is unchanged and the credits go from seller to buyer |
| CarbonSystem.IssuanceSettles | contracts/carbon_marketplace/src/lib.rs:577-621 | issued credits and supply rise together |
| CarbonSystem.RetirementSettles | contracts/carbon_credit/src/lib.rs:322-375 | retirement keeps the whole system sound and loses no earlier retirement |
| CarbonSystem.AdministrationSettles | contracts/carbon_registry/src/lib.rs:167-273 | administration, and mints, burns and issues forged without the marketplace's authority, move no credits |
| CarbonOutcomes.RetirementExactly | contracts/carbon_credit/src/lib.rs:322-375 | in a sound system: a retirement succeeds exactly when its holder signed, the operation id is unused and the amount is positive and no more than the balance, the whole of it included; each error by its own condition; the retired row always has room |
| CarbonOutcomes.BurnExactly | contracts/carbon_credit/src/lib.rs:273-304 | exactly when a burn succeeds, and each refusal by its condition |
| CarbonOutcomes.MintExactly | contracts/carbon_credit/src/lib.rs:179-229 | exactly when a mint succeeds: what fits the supply fits the balance |
| CarbonOutcomes.IssuanceExactly | contracts/carbon_marketplace/src/lib.rs:577-621 | exactly when credits are issued; the owner's balance, the supply and the issued figure rise by the amount and nothing else changes; the mint leg cannot fail |
| CarbonOutcomes.CreationExactly | contracts/carbon_marketplace/src/lib.rs:273-430 | exactly when a listing opens, why it is refused otherwise, and that only the listing and the seller's nonce change |
| CarbonOutcomes.CancellationExactly | contracts/carbon_marketplace/src/lib.rs:528-561 | exactly when a listing is cancelled |
| CarbonOutcomes.PurchaseRefusals | contracts/carbon_marketplace/src/lib.rs:435-525 | why a purchase is refused, each refusal by its condition, in the order of the checks |
| CarbonSystem.SoundStep | contracts/carbon_marketplace/src/lib.rs:435-621 | every call of the three contracts keeps conservation and the wiring between the contracts, undoes no retirement and frees no operation id |
| CarbonSystem.EveryRunIsSound | contracts/carbon_marketplace/src/lib.rs:435-621 | so does every run |
| CarbonSystem.ConservationFromGenesis | contracts/carbon_credit/src/lib.rs:179-375 | from empty storage: balances add up to supply, supply plus retired is issued, issued stays within the total, stored rows are positive |
| CarbonSystem.RegistrationKeepsConservation | contracts/carbon_registry/src/lib.rs:121-164 | a registration keeps conservation exactly when nothing was issued under the id it derives |
| CarbonSystem.ReRegistrationBreaksConservation | contracts/carbon_registry/src/lib.rs:137-164 | a run under the year-only fallback in which another owner's project of the same vintage year erases five issued credits from the record |
| CarbonListings.PreimageInjective | contracts/carbon_marketplace/src/lib.rs:340-398 | equal 108-byte messages come from equal seller bytes, project, amount, price, ledger and nonce |
| CarbonListings.CreationCollides | contracts/carbon_marketplace/src/lib.rs:324-425 | a new listing lands on a stored one exactly when that is another seller's with the same seller bytes, terms, ledger and nonce; exactly then a stored listing is lost |
| CarbonListings.ListingsStep | contracts/carbon_marketplace/src/lib.rs:273-621 | every call keeps all stored listings, their terms and the closed ones as they are, exactly unless it is such a creation |
| CarbonListings.EveryRunKeepsListings | contracts/carbon_marketplace/src/lib.rs:273-621 | so does every run whose sellers the host tells apart |
| CarbonListings.EmptySellerBytesLoseListing | contracts/carbon_marketplace/src/lib.rs:356-361 | a run under the empty fallback in which a second seller's first listing replaces a sold one and is for sale again |
| CarbonAuthority.CreditsNeedConsent | contracts/carbon_marketplace/src/lib.rs:435-525 | over all calls: credits leave an account only with its owner's signature or through a listing the owner has open |
| CarbonAuthority.ListingLifecycle | contracts/carbon_marketplace/src/lib.rs:435-565 | over all calls: how a stored listing can change, by whose signature and at what price |
| CarbonAuthority.ProjectLifecycle | contracts/carbon_registry/src/lib.rs:121-273 | over all calls: a project's record changes only through the registry's administrator, an issue signed by the market's administrator, or a registration with the same id |
| CarbonAuthority.UnverifiedHoldsNothing | contracts/carbon_registry/src/lib.rs:167-273 | over every run in which no call verifies a project, nobody holds credits of it |
| CarbonAuthority.OfficesStay | contracts/carbon_registry/src/lib.rs:105-118 | over every run, a contract is initialised once: administrators and the marketplace address never change |
| CarbonAuthority.StoppedMarketStandsStill | contracts/carbon_marketplace/src/lib.rs:236-248 | over every run without the administrator's breaker call, a stopped market changes no listing and issues nothing |
| CarbonAuthority.StaleFeedStopsTrade | contracts/carbon_marketplace/src/lib.rs:217-233 | once an oracle is configured, no later listing or purchase goes through on a reading that is not fresh |
| LivestockLoans.KraalContract.RepayLoan | contracts/stellarkraal/src/lib.rs:350-396 | accrues, subtracts the repayment, and closes and unlocks at zero or below |
| LivestockLoans.KraalContract.Liquidate | contracts/stellarkraal/src/lib.rs:398-450 | closes and unlocks a loan whose accrued health factor is below 120, and pays debt plus bonus |
| LoanLock.SeedInjective | contracts/stellarkraal/src/lib.rs:312-325 | equal seeds come from equal ledger, asset and nonce |
| LoanLock.NewLoanIsFresh | contracts/stellarkraal/src/lib.rs:309-347 | a new loan id differs from every stored one |
| LoanLock.OpenLoanKeepsLock | contracts/stellarkraal/src/lib.rs:272-348 | opening adds one loan that names the asset and keeps the lock |
| LoanLock.CloseKeepsLock | contracts/stellarkraal/src/lib.rs:376-393 | closing frees exactly the loan's asset and cannot fail |
| LoanLock.RegistrationKeepsLock | contracts/stellarkraal/src/lib.rs:241-270 | a registration keeps the lock exactly when the asset named after its ledger is not collateral |
| LoanLock.LockWithRegistrationsApart | contracts/stellarkraal/src/lib.rs:241-450 | with every registration in a later ledger than the one before, an asset is on loan exactly when precisely one active loan names it, over every run |
| LoanLock.TwoRegistrationsInOneLedger | contracts/stellarkraal/src/lib.rs:251-255 | a run in which the second of two registrations in one ledger lets one asset back two active loans |
| LoanLock.LockedStep | contracts/stellarkraal/src/lib.rs:272-450 | every call keeps the lock; closed loans never change again and no record is overwritten |
| LoanLock.EveryRunIsLocked | contracts/stellarkraal/src/lib.rs:272-450 | so does every run |
| LoanLock.LockFromGenesis | contracts/stellarkraal/src/lib.rs:272-450 | over every run that never registers over collateral, an asset is on loan exactly when precisely one active loan names it |
| LoanLock.ConfigStays | contracts/stellarkraal/src/lib.rs:191-239 | over every run, a configuration once accepted stays and has its threshold above its ratio |
| LoanLock.EveryRunLendsWithinLimit | contracts/stellarkraal/src/lib.rs:293-302 | over every run, each active loan's principal is within the limit of its collateral as appraised |
| LoanAccounts.RepaymentExactly | contracts/stellarkraal/src/lib.rs:350-396 | in plain arithmetic: a repayment below the debt leaves the debt less the repayment, one of the debt or more closes the loan at zero and frees its collateral, nothing else changes; each refusal by its condition |
| LoanAccounts.LiquidationPays | contracts/stellarkraal/src/lib.rs:398-450 | a liquidation pays debt times 10 000 plus bonus over 10 000, rounded toward zero, closes the loan and frees its collateral |
| LoanAccounts.OpeningExactly | contracts/stellarkraal/src/lib.rs:272-348 | exactly when a loan opens; it owes principal plus creation fee, and nothing but loan, lock and nonce changes |
| LoanAccounts.DebtIsAccounted | contracts/stellarkraal/src/lib.rs:350-450 | over every run, with repayments of any size: a balance is what it was, plus interest charged, less repayments credited |
| LoanAccounts.AccountFromOpening | contracts/stellarkraal/src/lib.rs:272-450 | the same from the opening on: principal, fee and interest against repayments |
| LoanAccounts.EveryRunClosesAtZero | contracts/stellarkraal/src/lib.rs:376-447 | over every run, a closed loan owes nothing |
| LoanInterest.AccrueIsGrown | contracts/stellarkraal/src/lib.rs:133-146 | without overflow the balance grows by truncated simple interest and never shrinks |
| LoanInterest.SplittingLosesLittle | contracts/stellarkraal/src/lib.rs:133-146 | splitting a period into k gaps loses at most k - 1 stroops to truncation |
| LoanInterest.SplittingStaysUnderCompound | contracts/stellarkraal/src/lib.rs:133-146 | and never exceeds exact compound interest over the gaps |
| LoanInterest.TouchesAreGaps | contracts/stellarkraal/src/lib.rs:371-391 | a series of zero repayments leaves the balance of accruing gap by gap |
| LoanInterest.TouchingVersusWaiting | contracts/stellarkraal/src/lib.rs:350-396 | both bounds, stated for the contract's own calls |
| LoanHealth.OpensAtHundred | contracts/stellarkraal/src/lib.rs:214-219 | the configuration check gives every fee-free new loan a health factor of at least 100 |
| LoanHealth.SafeOpeningsExactly | contracts/stellarkraal/src/lib.rs:214-219 | all fee-free openings reach 120 exactly when ten times the threshold is at least twelve times the ratio |
| LoanHealth.FreshLoanIsSafe | contracts/stellarkraal/src/lib.rs:293-307 | under that condition a loan cannot be liquidated in its opening ledger |
| LoanHealth.LiquidatableIsUnderwater | contracts/stellarkraal/src/lib.rs:398-450 | every outcome exactly: success, refusal and trap, by the inequality between collateral and accrued debt and by which products stay in range |
| LoanHealth.UnderwaterStep | contracts/stellarkraal/src/lib.rs:350-396 | no call but a positive repayment takes an active loan out of that state |
| LoanHealth.LiquidatableForever | contracts/stellarkraal/src/lib.rs:414-422 | over every run without a positive repayment on it, a liquidatable loan is liquidated whenever asked, exactly as long as those products stay in range |
| LoanHealth.ViewNeverUnderstates | contracts/stellarkraal/src/lib.rs:453-493 | the view that does not accrue never reports less than liquidation computes |
| LoanAccounts.ViewExactly | contracts/stellarkraal/src/lib.rs:453-493 | the reported figure in plain arithmetic, and each refusal by its condition |
| RateLimitStore.InMemoryStore.Increment | backend/src/common/rateLimit/store.ts:48-71 | the exact entries and counts after one arrival, with the sweep above the size threshold |
| RateLimitStore.InMemoryStore.SweepIdle | backend/src/common/rateLimit/store.ts:73-79 | the loop deletes exactly the entries idle for more than 300 seconds |
| RateLimitStore.RedisStore.Increment | backend/src/common/rateLimit/store.ts:100-117 | the exact keys and counts, with expiry set by the first hit only |
| RateLimitStore.SweepInvisibleExactly | backend/src/common/rateLimit/store.ts:73-79 | a sweep changes no later count exactly when the window is at most 150 seconds |
| RateLimitStore.MemoryMatchesHistory | backend/src/common/rateLimit/store.ts:48-79 | the in-memory counts are those of the plain arrival history |
| RateLimitStore.RedisMatchesHistory | backend/src/common/rateLimit/store.ts:100-117 | so are the Redis counts, for any window: expiry never hides a key still needed |
| RateLimitStore.RunsAgree | backend/src/common/rateLimit/store.ts:44-118 | both stores follow the history over every arrival sequence |
| RateLimitStore.StoresAgree | backend/src/common/rateLimit/store.ts:44-118 | after any arrivals the next one gets equal counts from both stores and the history |
| RateLimiter.FindViolated | backend/src/common/middleware/rateLimit.ts:128-129 | the first exceeded tier |
| RateLimiter.FindTightest | backend/src/common/middleware/rateLimit.ts:137 | the first tier with the fewest requests remaining |
| RateLimiter.RateLimit | backend/src/common/middleware/rateLimit.ts:116-143 | counts the arrival in every tier and answers with the first violated or the tightest one |
| RateLimiter.ExceededMeansUnfit | backend/src/common/rateLimit/store.ts:26-30 | the fractional comparison is the integer inequality the bounds use |
| RateLimiter.FixedWindowBound | backend/src/common/rateLimit/store.ts:26-30 | at most limit requests pass in each fixed window |
| RateLimiter.AfterBoundary | backend/src/common/rateLimit/store.ts:26-30 | requests passing after a boundary pay for every arrival before it, rejected ones included |
| RateLimiter.BurstBound | backend/src/common/middleware/rateLimit.ts:116-134 | at most limit + limit * (window - 2) / window, under twice the limit, in any window seconds |
| RateLimiter.BurstBoundIsReached | backend/src/common/rateLimit/store.ts:26-30 | the bound is exact: for every limit and every window of two seconds or more some accepted history reaches it, and one request more exceeds it |
| RateLimiter.ServeIsFaithful | backend/src/common/middleware/rateLimit.ts:116-143 | one request over several tiers keeps the store equal to the history and every bucket limited |
| RateLimiter.LimiterBound | backend/src/common/middleware/rateLimit.ts:86-143 | the burst bound for every bucket over every request sequence, through either store |
| RateLimitAnswers.PreviousNeverCredits | backend/src/common/rateLimit/store.ts:26-30 | the previous window never lowers an estimate, and weighs nothing once the current one has passed |
| RateLimitAnswers.RemainingExactly | backend/src/common/middleware/rateLimit.ts:116-126 | the reported remainder is how many more requests the estimate leaves room for, in whole numbers |
| RateLimitAnswers.AnswersExactly | backend/src/common/middleware/rateLimit.ts:116-134 | every reset is the end of its tier's window, and a rejection asks to wait exactly until then, at least one second and at most the window |
| RateLimitAnswers.MemoryForgetsExactly | backend/src/common/rateLimit/store.ts:48-79 | the in-memory store forgets only beyond 5000 buckets, and then exactly those unseen for over 300 seconds |
| RateLimitAnswers.KeyLivesTwoWindows | backend/src/common/rateLimit/store.ts:100-117 | a Redis key lives for two windows from its first hit, however often it is hit |
| WeightedMedian.FindCrossing | oracle-bridge/oracle_bridge/aggregation.py:240-250 | the accumulation loop always stops at a source, where the weight crosses half; the fallback is never reached |
| WeightedMedian.Compute | oracle-bridge/oracle_bridge/aggregation.py:225-250 | the result is quoted by a source, has less than half of the weight below it and at least half at or below it |
| WeightedMedian.MedianUnique | oracle-bridge/oracle_bridge/aggregation.py:225-250 | only one value has that property |
| WeightedMedian.MedianOrderIrrelevant | oracle-bridge/oracle_bridge/aggregation.py:225-250 | it does not depend on the order of the sources |
| WeightedMedian.MajorityPinsMedian | oracle-bridge/oracle_bridge/aggregation.py:225-250 | sources with more than half of the weight keep it inside their interval |
| WeightedMedian.MedianMinimises | oracle-bridge/oracle_bridge/aggregation.py:225-250 | no real number has a smaller weighted sum of absolute deviations |
| Aggregation.UpperIndexInRange | oracle-bridge/oracle_bridge/aggregation.py:252-281 | the branch for an upper index past the end cannot be taken |
| Aggregation.IqrKeepsHalf | oracle-bridge/oracle_bridge/aggregation.py:170-194 | IQR rejection keeps at least half of the sources, and all of three |
| Aggregation.IqrKeepsHalfExactly | oracle-bridge/oracle_bridge/aggregation.py:170-194 | it keeps half of every source list exactly for multipliers of at least 0 |
| Aggregation.MadKeepsHalf | oracle-bridge/oracle_bridge/aggregation.py:196-223 | MAD rejection keeps at least half of the sources |
| Aggregation.MadKeepsHalfExactly | oracle-bridge/oracle_bridge/aggregation.py:196-223 | it keeps half of every source list exactly for multipliers of at least 1 |
| Aggregation.PriceAggregator.Partition | oracle-bridge/oracle_bridge/aggregation.py:180-223 | the rejection loop splits the sources into those accepted and the ids of the others, in order |
| Aggregation.PriceAggregator.Aggregate | oracle-bridge/oracle_bridge/aggregation.py:87-152 | the errors in order, then the weighted median of the accepted sources with its metadata |
| Aggregation.RejectionNeverStarves | oracle-bridge/oracle_bridge/aggregation.py:126-137 | aggregation does not fail for lack of sources while at most half, rounded up, are demanded |
| Aggregation.RejectedAscend | oracle-bridge/oracle_bridge/aggregation.py:121-128 | rejected ids are listed in ascending order |
| Aggregation.AggregateOrderIrrelevant | oracle-bridge/oracle_bridge/aggregation.py:87-152 | permuting the sources changes neither outcome, aggregate, weights nor the list of rejected ids, nor the reported values when each id quotes one value |
| AggregationRanks.PercentileByRank | oracle-bridge/oracle_bridge/aggregation.py:252-281 | the quartiles by rank k(n + 1)/4, with fractional ranks weighted by quarters |
| AggregationRanks.IqrRejectsExactly | oracle-bridge/oracle_bridge/aggregation.py:170-194 | on any ascending order of the values: a source is rejected exactly when there are three or more and it lies further outside the quartiles than the multiplier times their distance |
| AggregationRanks.MadRejectsExactly | oracle-bridge/oracle_bridge/aggregation.py:196-223 | with both medians given by rank: exactly when there are two or more, the median distance is positive and the source is further from the median than the multiplier times it |
| AggregationRanks.AggregateRejectsExactly | oracle-bridge/oracle_bridge/aggregation.py:87-152 | a result is the weighted median of exactly the sources that are no outliers, reports their ids, values and configured weights, and lists the ids of the outliers |
| Bytes.I64RoundTrip | oracle-bridge/oracle_bridge/attestation.py:121-138 | eight big-endian bytes in two's complement give back every 64-bit integer |
| Bytes.FromI64RoundTrip | oracle-bridge/oracle_bridge/attestation.py:139-161 | and every eight bytes are the encoding of the integer they decode to |
| Attestation.BytesRoundTrip | oracle-bridge/oracle_bridge/attestation.py:107-161 | a valid payload packs to 113 bytes exactly when its version fits a byte, and unpacks to itself |
| Attestation.PayloadRoundTrip | oracle-bridge/oracle_bridge/attestation.py:139-161 | unpacking accepts exactly the 113-byte strings, and packing the result gives the string back |
| Attestation.HexRoundTrip | oracle-bridge/oracle_bridge/attestation.py:353-375 | hexadecimal text gives back the bytes |
| Attestation.DictRoundTrip | oracle-bridge/oracle_bridge/attestation.py:353-375 | the dictionary form is readable exactly for valid attestations, and gives them back |
| Attestation.ToBeBytesIsI64Bytes | contracts/carbon_oracle/src/lib.rs:257-291 | Rust's shifted bytes and Python's packed bytes are the same |
| Attestation.BuildPayload | contracts/carbon_oracle/src/lib.rs:257-291 | the contract's push loops build exactly the bytes the bridge packs |
| Attestation.BuildCommitmentPayload | contracts/carbon_oracle/src/lib.rs:298-319 | the push loops build the commitment preimage |
| Attestation.CommitmentBinds | contracts/carbon_oracle/src/lib.rs:298-319 | one preimage has one feed, one set of values and one salt |
| Attestation.CommitMatchesReveal | oracle-bridge/oracle_bridge/bridge.py:348-381 | whenever the bridge can reveal, its commitment digests the contract's encoding of the revealed values |
| Attestation.RevealsExactly | oracle-bridge/oracle_bridge/bridge.py:370-381 | the bridge can reveal exactly what fits the contract's fields, and reveals the computed values |
| CarbonOracle.OracleContract.RevealPrice | contracts/carbon_oracle/src/lib.rs:580-668 | stores the values from the deadline on, if hash and signature match, in the order of the code's checks |
| CarbonOracle.OracleContract.SubmitPrice | contracts/carbon_oracle/src/lib.rs:409-482 | stores directly signed values while the breaker is closed, and trips it when they deviate too far from the stored ones |
| OracleHistory.RecordedStep | contracts/carbon_oracle/src/lib.rs:500-668 | every call keeps open commitments and stored prices equal to the last word of the log of accepted calls |
| OracleHistory.EveryRunIsRecorded | contracts/carbon_oracle/src/lib.rs:500-668 | so does every run |
| OracleHistory.RevealsAreCommitted | contracts/carbon_oracle/src/lib.rs:500-668 | with a fixed window, an accepted reveal opened a commitment to its values at least a window old, with no challenge since |
| OracleHistory.DelayHoldsExactly | contracts/carbon_oracle/src/lib.rs:580-625 | every reveal of an open commitment is at least a given delay old exactly when the window in force is at least that long |
| OracleHistory.OwnWindowWaitedExactly | contracts/carbon_oracle/src/lib.rs:485-668 | over every run, an open commitment waits out the window it was made under exactly when the window has not become shorter since |
| OracleHistory.EveryRevealWaited | contracts/carbon_oracle/src/lib.rs:485-668 | over every run and any window changes, an accepted reveal has waited the window in force, and its own unless that was longer |
| OracleHistory.CommitmentLifecycle | contracts/carbon_oracle/src/lib.rs:500-668 | over all calls: how a commitment opens, is disputed or is revealed, by whose signature and on which side of the deadline |
| OracleHistory.SettledStays | contracts/carbon_oracle/src/lib.rs:500-668 | over every run, a disputed or revealed commitment stays so until the feed is committed again |
| OracleHistory.SettingsNeedAdmin | contracts/carbon_oracle/src/lib.rs:485-498 | over every run without the administrator's signature, window and key stay and the breaker can only trip |
| OracleHistory.BridgeRevealIsAccepted | oracle-bridge/oracle_bridge/bridge.py:335-382 | end to end: if the contract took the bridge's digest and nothing touched the feed since, the bridge's reveal from the deadline on passes the hash check, and is accepted exactly when signature and content id are good |
| OracleHistory.CommitmentRevealsOnce | contracts/carbon_oracle/src/lib.rs:298-319 | a commitment hash opens to one set of values |
| OracleHistory.ExactlyOneGuard | contracts/carbon_oracle/src/lib.rs:535-668 | at each ledger exactly one of challenge and reveal passes its timing guard, deadline overflow aside |
| OracleHistory.ShortenedWindowRevealsAtOnce | contracts/carbon_oracle/src/lib.rs:485-498 | a run in which shortening the window reveals a price in its commit's ledger |
| OraclePrices.MessageLayout | contracts/carbon_oracle/src/lib.rs:246-291 | where every field and every byte of its integers lies in the 113 signed bytes |
| OraclePrices.CommitmentLayout | contracts/carbon_oracle/src/lib.rs:298-319 | and in the 144 committed bytes |
| OraclePrices.SubmissionExactly | contracts/carbon_oracle/src/lib.rs:409-482 | exactly when a submission is taken, with the configured key's signature over the message among the conditions, what it stores, and that it trips the breaker exactly when the price moves by more than its own size |
| OraclePrices.RevealExactly | contracts/carbon_oracle/src/lib.rs:580-668 | exactly when a reveal is taken, what it stores, and each refusal by its condition |
| OraclePrices.ChallengeExactly | contracts/carbon_oracle/src/lib.rs:535-574 | exactly when a challenge is taken |
| OraclePrices.EveryPriceIsSigned | contracts/carbon_oracle/src/lib.rs:409-668 | over every run, each stored price, submitted or revealed, carries a signature valid under the key set last before it was written |
| StableStringify.SelfDelimiting | backend/src/middleware/idempotency.ts:47-59 | no printed value is a proper prefix of another |
| StableStringify.StringifyExactlyUpToKeyOrder | backend/src/middleware/idempotency.ts:47-59 | two values print alike exactly when they are equal up to key order at every depth |
| MarketplaceService.ListingKeepsBalance | backend/src/marketplace/service.ts:65-77 | sold quantities stay equal to the purchase rows exactly when an existing listing is not given another quantity |
| MarketplaceService.PurchaseKeepsBalance | backend/src/marketplace/service.ts:133-146 | purchases and retirements keep that balance whatever quantity they carry |
| MarketplaceService.Commute | backend/src/marketplace/service.ts:65-146 | payloads with different ids leave the same rows in either order, also on one listing |
| MarketplaceService.CommuteAll | backend/src/marketplace/service.ts:65-146 | a payload applied after any others leaves the rows of having come first |
| MarketplaceService.ReplayChangesNothing | backend/src/marketplace/service.ts:65-146 | applying a payload again changes nothing, whatever was applied in between |
| Idempotency.IdempotentBackend.Reconcile | backend/src/middleware/idempotency.ts:130-150 | rebuilds the rows from the event and completes the record, up to the last durable write made |
| Idempotency.IdempotentBackend.Perform | backend/src/middleware/idempotency.ts:162-187 | business checks, submission, rows, cached response, or deletes the record on failure, up to the last durable write made |
| Idempotency.IdempotentBackend.Handle | backend/src/middleware/idempotency.ts:88-187 | the whole protocol as one function of state, clock and fault |
| IdempotencyRuns.StepSettles | backend/src/middleware/idempotency.ts:88-187 | one request keeps all invariants, and answers with its key's latest submission |
| IdempotencyRuns.EveryRunIsCoherent | backend/src/middleware/idempotency.ts:88-187 | so does every run of requests, failures and crashes; the chain log only grows |
| IdempotencyRuns.SubmissionsAreSpaced | backend/src/chain/chainClient.ts:45-67 | two submissions under one key are at least the time to live apart |
| IdempotencyRuns.SameAnswerBetweenSubmissions | backend/src/middleware/idempotency.ts:107-187 | between two submissions all successes of one endpoint report the same payload, and purchases and retirements the same body |
| IdempotencyRuns.SameAnswerWithinTimeToLive | backend/src/middleware/idempotency.ts:107-187 | so do all retries within the time to live of the submission |
| IdempotencyRuns.EveryRunApplies | backend/src/db/database.ts:239-245 | the rows after a run are those of its committed payloads, applied in turn |
| IdempotencyRuns.EveryRunBalances | backend/src/marketplace/service.ts:93-146 | every listing has sold what its purchase rows add up to, as long as no listing key is used with two quantities |
| IdempotencyRuns.BalancedFromGenesis | backend/src/marketplace/service.ts:93-146 | the same from an empty database |
| IdempotencyRuns.CleanExecutionCommits | backend/src/marketplace/service.ts:93-113 | the clean execution of a request that failed after its submission commits that same payload |
| IdempotencyRuns.RetryRepairs | backend/src/middleware/idempotency.ts:130-150 | a request that failed anywhere after submitting, any other requests, and a retry in time leave the rows of the clean execution first, submit nothing more and answer with the payload |
| IdempotencyRuns.EveryRunStores | backend/src/middleware/idempotency.ts:107-187 | in every run, a payload cached by its own endpoint has nothing left to write, however many other requests follow |
| IdempotencyRuns.SuccessMeansStored | backend/src/middleware/idempotency.ts:67-187 | whatever failed before, after a success from the submission's own endpoint the reported payload has nothing left to write |
| IdempotencyRuns.RecordLifecycle | backend/src/db/database.ts:255-303 | until it expires a record keeps its fingerprint and times, a cached response never changes, and only its own request's refusal deletes it |
| IdempotencyRuns.CachedAnswerAnswers | backend/src/middleware/idempotency.ts:107-117 | over every run until the record expires, the same request is answered with the cached response and any other is refused |
| IdempotencyRuns.ReusedPurchaseKey | backend/src/marketplace/service.ts:93-146 | exactly when a purchase key used again after its time to live gets its row and decrement written, although it is submitted every time |
| IdempotencyRuns.RetryOnAnotherEndpoint | backend/src/credits/service.ts:32-58 | exactly when a retry on a foreign endpoint succeeds, and that it then writes no row |
| IdempotencyOutcomes.RowsExactly | backend/src/marketplace/service.ts:65-146 | the rows each payload leaves, and that it leaves all others alone |
| IdempotencyOutcomes.GateExactly | backend/src/middleware/idempotency.ts:88-160 | what is answered before anything is executed, by key, record, fingerprint and body, and that it changes nothing but to delete an expired record |
| IdempotencyOutcomes.CleanExecutionExactly | backend/src/marketplace/service.ts:93-113 | an executable request without fault is refused exactly for a missing listing (404) or too little left (409), with chain and rows untouched and no record left; otherwise the payload with buyer, listing, quantity and price is submitted, written, cached and answered |
| IdempotencyOutcomes.ReconciliationExactly | backend/src/middleware/idempotency.ts:130-150 | a recent submission without fault is never made again: exactly when its rows are rebuilt, when it is answered without rows, and when it fails |
| IdempotencyOutcomes.CutOffExactly | backend/src/middleware/idempotency.ts:88-187 | wherever the process dies, exactly the durable state the request had reached is left; it crashes exactly when there was another write to make |
| IdempotencyOutcomes.ExecutionNeverOversells | backend/src/marketplace/service.ts:100-102 | whatever fails, executing a request takes no listing below zero |
| IdempotencyOutcomes.OversellsExactly | backend/src/marketplace/service.ts:115-146 | a request takes a listing below zero exactly when it reconciles a lost purchase of more than is left by now |
| IdempotencyOutcomes.FaultlessRunsNeverOversell | backend/src/marketplace/service.ts:93-146 | over every run without faults, what is purchased from a listing never exceeds its total |
| IdempotencyLimits.ReusedListingKeyBreaksBalance | backend/src/marketplace/service.ts:65-77 | a run in which a listing key used again after its time to live shows ten credits sold that nobody bought |
| IdempotencyLimits.ReusedPurchaseKeyIsUnrecorded | backend/src/marketplace/service.ts:133-146 | a run in which a purchase key used again is submitted twice and recorded once |
| IdempotencyLimits.ForeignRetryWritesNothing | backend/src/credits/service.ts:32-58 | a run in which a lost purchase retried as a retirement is answered as settled with no row written |
| IdempotencyLimits.LateFillOversells | backend/src/marketplace/service.ts:115-146 | a run in which a lost purchase is retried after the listing sold out and leaves it below zero |
| EventIndexer.PaginateEvents | backend/src/chain/rpcClient.ts:54-69 | terminates when pages progress, and yields exactly the log's events from the first ledger on, in non-empty batches |
| EventIndexer.Indexer.InsertIndexedEventIfAbsent | backend/src/db/database.ts:424-442 | inserts a row with the next id unless its key is there |
| EventIndexer.Indexer.IndexBatch | backend/src/indexer/eventIndexer.ts:128-163 | the nested loops over events and webhooks, up to the last durable write made |
| EventIndexer.Indexer.IndexTarget | backend/src/indexer/eventIndexer.ts:107-170 | all pages of a target, advancing the cursor after each |
| EventIndexer.Indexer.Tick | backend/src/indexer/eventIndexer.ts:82-87 | all targets in turn, cut short wherever one of them is |
| IndexerRuns.IndexEventExactly | backend/src/indexer/eventIndexer.ts:133-158 | a new event is enqueued once for the webhooks reached before the process stops, and for no others |
| IndexerRuns.IndexFromCovers | backend/src/indexer/eventIndexer.ts:128-169 | a cursor never passes an event that is not indexed, wherever the pages stop |
| IndexerRuns.TickCovers | backend/src/indexer/eventIndexer.ts:82-87 | a tick over several targets keeps that for all of them and adds only events from the log |
| IndexerRuns.EveryRunCovers | backend/src/indexer/eventIndexer.ts:107-170 | over every run of ticks cut short anywhere: cursors never move back, everything up to a cursor is indexed, no webhook is enqueued twice for a row |
| IndexerRuns.CompleteTickCatchesUp | backend/src/indexer/eventIndexer.ts:82-170 | after any history a tick that is not cut short indexes every event of the log |
| IndexerRuns.TargetIndexesExactly | backend/src/indexer/eventIndexer.ts:107-170 | against an honest server, a target that is not cut short indexes exactly the events that were indexed before or lie at or past its first ledger |
| IndexerRuns.TargetCompletesExactly | backend/src/indexer/eventIndexer.ts:107-170 | so nothing is missing afterwards exactly when nothing was missing below the ledger it started from |
| IndexerRuns.LostForever | backend/src/indexer/eventIndexer.ts:107-170 | an unindexed event below its type's next ledger is indexed by no later run, whatever the targets and wherever ticks stop |
| IndexerRuns.EveryRunIndexesExactly | backend/src/indexer/eventIndexer.ts:107-170 | over every run that ends with a tick not cut short, exactly the events lost at its start are missing |
| IndexerRuns.EnqueuedExactly | backend/src/indexer/eventIndexer.ts:142-158 | which webhooks an event is ever enqueued for, over all later restarts: all of them exactly when its own tick got past the last insert |
| IndexerWrites.CutShortExactly | backend/src/indexer/eventIndexer.ts:82-170 | a tick is cut short exactly when the process does not live to make all its writes, one for each new row, delivery and cursor move; where it is not, it always ends in the same tables |
| IndexerWrites.TickEnqueuesExactly | backend/src/indexer/eventIndexer.ts:133-158 | over a whole tick, each new row is enqueued for exactly the webhooks of its type, in order and once each, but for the last row of a tick cut short |
| IndexerRuns.SharedTypeHidesExactly | backend/src/db/database.ts:406-416 | from any tables and any log: exactly when an event is skipped because another contract of its type is indexed first |
| IndexerRuns.SharedTypeHidesEvents | backend/src/db/database.ts:406-416 | the case of two contracts with one event each, from empty tables |
| IndexerRuns.SplitLedgerLosesEvents | backend/src/indexer/eventIndexer.ts:165-168 | a page that ends inside a ledger and a crash lose the rest of it to every later run against honest servers |

## Left out

- Storage time-to-live extension in all contracts: host bookkeeping without effect on values.
- `median3`, `submit_price` and `get_price` of the loan contract: loans use the appraised value, not the oracle price.
- The oracle reading `create_listing` and `purchase_listing` ask for is an input; the freshness rule on it is
  modelled.
- SHA-256 is an injective constructor, also on messages that contain digests, and Ed25519 verification (section 5.1.7
  of RFC 8032) an arbitrary predicate. Entity ids, 16 hexadecimal digits of a digest, are taken injective too.
- `require_auth` is membership in the set of a transaction's signers. The marketplace contract authorises its own
  cross-contract calls, and nobody else signs as it.
- The bytes the host makes of a seller, or of an owner, name and year, are parameters of the model; the fallbacks the
  contracts use when a conversion fails are values of them.
- CarbonListings.EveryRunKeepsListings: for sellers whose bytes differ; `CreationCollides` says what happens
  otherwise.
- LoanLock.LockFromGenesis: for runs that never register an asset over collateral of the same ledger.
- Amounts inside contract state are unbounded integers; every checked, saturating or truncating operation on them
  carries its range.
- LoanInterest.SplittingLosesLittle: for non-negative balances and rates; the contract does not check their signs.
- LoanHealth.FreshLoanIsSafe: for a creation fee of zero; a fee adds to the debt but not to the limit.
- Floating point in the aggregation and the limiter is exact real arithmetic; rounding is not modelled.
- RateLimitStore.MemoryMatchesHistory: for windows of at most 150 seconds and one window length per bucket, with a
  clock that never goes back.
- RateLimiter.LimiterBound: for one store throughout, with windows of at most 150 seconds when it is the in-memory
  one; the failover store restarts its counts, and the fail-open path on limiter errors, exempt paths, token parsing
  and response headers are not modelled. `RateLimit` is written over the in-memory store.
- `submit_aggregated_price`, the views and the aggregated feeds of the oracle contract: they follow the plain
  submission.
- IPFS, key handling, the bridge's clients, canonical parameter hashing and script hashing: library calls.
- JSON scalars and strings are opaque tokens in `StableStringify`; number formatting and escaping are not modelled.
- Request bodies are records of the fields the three endpoints read, plus a rest that only the fingerprint sees.
- Idempotency.IdempotentBackend.Handle: database failures other than a failing domain transaction or a dead process
  are not modelled, and requests are handled one after another, as the synchronous database calls make them.
- IdempotencyRuns.SameAnswerBetweenSubmissions: bodies of listings may differ in the quantity remaining.
- EventIndexer.Indexer.Tick: retries of RPC calls are not modelled; a call that finally fails ends the tick like a
  crash. The log does not grow while one tick pages through it.
- IndexerRuns.EveryRunCovers: for pages that end between ledgers and one target per event type;
  `SharedTypeHidesExactly` and `SplitLedgerLosesEvents` say what happens otherwise.
- IndexerRuns.LostForever: events with one key are taken to lie in one ledger, as events of one transaction do.
- Webhook delivery, its retries, Express routing, listing queries, problem responses, metrics and logging: input and
  output, or single branches.
- `carbon_timelock`, `contracts/arithmetic` and contracts/carbon_registry/src/migration.rs, which refers to types its
  crate does not have.
- Sale payment and fees of the marketplace: the contract compares a figure but moves no money.
