# Verification model of polymarket-go

A Dafny model of the parts of this trading SDK that do not depend on the network: what it signs, how it sizes gas, how it
turns prices and sizes into token amounts, and the concurrent protocols around its connections and requests. Each module
follows one piece of the repository; the code that works step by step is modelled as methods and classes proved against
functions, the concurrent protocols as state machines whose every run is covered, and what the repository promises is
proved about those functions and runs.

Hashing, signing, the ABI packer of the transaction builder, the relayer, the node and the CLOB server are parameters of
function type or arbitrary inputs, so every statement holds for all of them.

| module | follows | about |
|---|---|---|
| `Encoding`, `Crypto`, `GoInts` | clob/auth.go | byte strings, words, big-endian values, 64-bit integers |
| `OrderHash` | clob/auth.go | the EIP-712 buffers of an order, its domain and its digest |
| `RelayCall` | clob/relayer.go | the GSN signing preimage and the calldata of `relayCall` |
| `GasGuard`, `GuardSearch`, `GuardMisses`, `GuardStops` | clob/relayer.go | the guard's gas maximum, the search for a limit that fits its own calldata, when it can miss all of them, and when it can stop below a larger one |
| `Preflight` | clob/relayer.go | the one-shot sizing with a margin and its report |
| `Confirmation` | clob/relayer.go | waiting for the relayer |
| `OrderAmounts`, `OrderSizing`, `OrderOptions`, `Decimals`, `BuildOrder` | clob/client.go | amounts, fee oversizing, the options, the token id's numeral, the signed order |
| `FeeTable` | polymarket/market.go | the fee formula and its table |
| `WsSession`, `TokenCalls`, `Deadman` | polymarket/wsconn.go, polymarket/ws.go | the reconnecting session loop, the token messages sent while it runs, and the silence watchdog in every interleaving |
| `TickSizeCache` | clob/cache.go | two maps with many callers |
| `FeeRatePrefetch`, `TickSizePrefetch` | clob/prefetch.go | the worker pool, and the batched retries |
| `TxBuilder` | clob/onchain.go | the sticky error and the operation list |

The main operations are also stated a second time, without the functions their code is proved against: in the bytes a
contract verifies (`RelayCall.HubAccepts`, `OrderHash.SignsOrder`), in numbers (`Preflight.IsOutcome`), in what a caller
reads off an option list (`OrderOptions.IsDecided`, `BuildOrder.IsResult`), in the limits tried one after another
(`GuardSearch.FollowsTrail`), in the relayer's words (`Confirmation.Reports`), and by a monitor of events
(`WsSession.Observe`).

`dafny verify dfyconfig.toml` checks everything.

## Where the code and its documentation or names disagree

- `FillBytes` stores magnitudes, so a negative timestamp or salt signs like its absolute value
  (`OrderHash.SignIsNotCommitted`; `OrderHash.OrderEncodingBinds` says exactly what an order hash commits to).
- `WithDeterministicID` promises the same order for the same id; with the empty id the salt is still random
  (`BuildOrder.DeterministicIDDecides`).
- The two amount paths promise identical results; on the fast grid they differ on half ticks above an even tick, and
  where a product overflows int64: there the fast path wraps around and the decimal path reads 0, unless what wraps is a
  multiple of a large power of two. `OrderAmounts.PathsAgree` decides every input,
  `OrderAmounts.OverflowAtTenTrillion` is an overflow without any half tick.
- The margin is 15 percent only while the product stays below 2^64 (`Preflight.MarginIsFifteenPercent`). The headroom of an
  accepted batch can be negative, and then the accounts are 2^64 short (`Preflight.HeadroomCanTurnNegative`), unless
  estimate and margin wrap as well and the two errors cancel (`Preflight.AcceptedNumbers`); for which calls, outer limits
  and estimates is decided before anything is signed by `Preflight.HeadroomIsSafeExactly` and
  `Preflight.GasIsSafeExactly`, and `Preflight.OrdinaryLimitsAreSafe` shows that limits up to 2^63 are not concerned.
- `signMaxGuardRelay` can report "could not find" although a limit that passes its own guard exists. For which calls and
  outer limits that can happen, over all signers, is decided by `GuardMisses.MissesExactly`: it can exactly when the
  maximum left to the first candidate by a signature of 64 zero bytes is above 132, room for twelve steps of 12. The
  hash stays what it is; the statement needs that it gives the gas limits of one call different hashes, and where it
  does not, two inputs of signing that call collide (`GasGuard.SeparatesOrCollides`).
- It also returns early at a fixed point without looking for a larger limit. `GuardStops.StopsBelowExactly` decides for
  which calls and outer limits a larger one can pass, over all signers. It is never more than 852 larger
  (`GuardSearch.FoundIsNearlyBest`), and `GuardStops.WidestGapExactly` decides when it is exactly that.
- A fee-adjusted order nets what was asked for exactly when the adjusted shares fit int64 and the true fee rate is below 1
  (`BuildOrder.AdjustedOrderNets`): a larger share amount wraps around, and a rate of 1 or more is treated as no fee.
- The fee is called symmetric in p; the lookup is not, at prices halfway between two keys (`FeeTable.LookupIsSymmetric`).
- A connection can be closed by the deadman right after a message (`Deadman.ATouchCanComeTooLate`); from which states, is
  decided by `Deadman.ClosesEarlyExactly`. Up to three timer resets can follow the last message
  (`Deadman.ThreeResetsCanFollow`); how many from each state, by `Deadman.MoreResetsExactly`.
- A slow caller can put an older tick size over a newer one and have it count as fresh
  (`TickSizeCache.OlderResponseCanReplaceNewer`); it cannot when the calls for one token take turns
  (`TickSizeCache.TakingTurnsKeepsTheLatest`). `TickSizeCache.LosesExactly` decides it for every state of every run.
- The pause after a failed session doubles, but the first failure of a run is followed by the shortest pause like a session
  that came up, so a run needs six initial failures and not five to reach 30 seconds (`WsSession.DelaySaturates`).
- `WaitForConfirmed` can return no error for a transaction whose receipt says it reverted
  (`Confirmation.ConfirmedMayHaveReverted`, and `Confirmation.RevertedTurn` for such a turn).

## Model

| member | source | states |
|---|---|---|
| `GuardSearch.SignMaxGuardRelay` | clob/relayer.go:461-496 | the gas search returns the one result its candidate sequence determines: the first fixed point, else the largest passing limit of twelve, else an error; the outer limit is 10000000 where none is configured |
| `GuardSearch.SearchFollowsTrail` | clob/relayer.go:463-495 | there is a list of at most twelve limits, the outer limit less 396000 and then each time the maximum of the one before; the result is what the last of them reports, or the largest that passed when all twelve went on |
| `GuardSearch.SearchRounds` | clob/relayer.go:463-495 | the twelve-round loop, each round signed, packed and measured by the code of one iteration |
| `GuardSearch.SearchIsUnique` | clob/relayer.go:468-495 | that specification admits one result only |
| `GuardSearch.FoundIsConsistent` | clob/relayer.go:481-495 | every success is a consistent triple: positive limit, the signature for exactly it, the intrinsic gas of the calldata packed with both, and limit + intrinsic + 375000 at most 852 below the outer limit, a multiple of 12; nothing is left on an early return; the hub accepts the signature |
| `GuardSearch.FoundIsNearlyBest` | clob/relayer.go:481-495 | no limit that passes its own guard exceeds the answer by more than 852 |
| `GuardStops.StopsBelowExactly` | clob/relayer.go:481-488 | over all signers, the early return can come although a larger limit passes exactly when the first candidate's maximum for a signature of 64 zero bytes is positive and the maximum left by calldata without zero bytes is above -840, a condition on call and outer limit |
| `GuardStops.WidestGapExactly` | clob/relayer.go:481-488 | over all signers, an early return can lie 852 below a limit that passes exactly when the maximum left by calldata without zero bytes has, as a gas limit, no zero byte and the limit 852 above it has seven |
| `GuardStops.WidestGapHappens` | clob/relayer.go:481-488 | every call has an outer limit for which that is so, so 852 is attained |
| `GuardSearch.FoundPassed` | clob/relayer.go:481-495 | the answer is a visited candidate that passed, and never the first one |
| `GuardSearch.NoLimitDescends` | clob/relayer.go:489-494 | "could not find" means all twelve candidates were strictly above their own maximum, each at least 12 below the one before from the second on |
| `GuardSearch.SmallOuterLimitFails` | clob/relayer.go:463-480 | below 396000 the start wraps around 2^64, and the first round then always fails |
| `GuardSearch.LargeOuterLimitSearches` | clob/relayer.go:468-495 | when the outer limit covers the dearest calldata and signing works, the search ends with an answer or with "could not find", and a limit that passes its own guard exists either way |
| `GuardSearch.ALimitPasses` | clob/relayer.go:481-494 | the maximum left by calldata without zero bytes passes its own guard |
| `GuardMisses.MissesExactly` | clob/relayer.go:461-496 | over all signers, the search can end with "could not find" although a limit passes exactly when the first candidate's maximum for a signature of 64 zero bytes exceeds 132, a condition on call and outer limit; the hash function is the given one, and need only separate the gas limits of the call |
| `GuardMisses.NoLimitHappens` | clob/relayer.go:468-494 | under that condition, the signer that makes all twelve rounds miss |
| `GuardMisses.MissNeedsRoom` | clob/relayer.go:468-494 | whoever signs and whatever the hash, "could not find" after twelve rounds implies that condition |
| `GasGuard.MaxGuardRelayGasLimit` | clob/relayer.go:543-550 | the guard maximum is what calldata, reserve and pre-guard gas leave of the outer limit; too large exactly when nothing is left |
| `GasGuard.EvaluateRound` | clob/relayer.go:469-480 | one round of the search signs a limit, packs it and measures what it packed |
| `GasGuard.GuardMaximaAgree` | clob/relayer.go:461-562 | any two guard maxima of one call differ by a multiple of 12 and by at most 864 |
| `GasGuard.MaximaOnGrid` | clob/relayer.go:527-562 | every guard maximum is a base that depends on the call alone plus 12 for each of at most 72 zero bytes |
| `GasGuard.WhenMeasured` | clob/relayer.go:469-480 | a round yields a maximum exactly when it is signed and 396000 plus the cost of its calldata stays below the outer limit; the maximum is known from call, gas limit and the number of zero bytes in the signature |
| `GasGuard.BandIsTight` | clob/relayer.go:461-562 | 864 is attained: with the given hash, as long as it separates the gas limits of the call, some signer gives a call two maxima that far apart exactly when the outer limit covers the dearest calldata |
| `GasGuard.SeparatesOrCollides` | clob/relayer.go:498-518 | the hash separates the gas limits of a call, or two inputs hashed when that call is signed collide |
| `GasGuard.RoundBudget` | clob/relayer.go:543-550 | limit, intrinsic gas and 375000 of a measured round add up to the outer limit |
| `GasGuard.StartFails` | clob/relayer.go:463-481 | the first candidate is always above its own maximum |
| `RelayCall.RelayCallIntrinsicGas` | clob/relayer.go:552-562 | 21000 plus 4 for every zero byte and 16 for every other, modulo 2^64 |
| `RelayCall.DataGasLaws` | clob/relayer.go:552-562 | zero bytes cost 4, all others 16, and what stands side by side adds up |
| `RelayCall.CalldataZeros` | clob/relayer.go:527-562 | the zero bytes of the calldata are a number fixed by the call, at most 8 more in the gas limit and at most 64 more in the signature |
| `RelayCall.CalldataDiffers` | clob/relayer.go:527-541 | two encodings of one call differ only in bytes 188 to 195, the low gas bytes, and in the 65 signature bytes, the last of which is 27 or 28 |
| `RelayCall.CalldataRoundTrip` | clob/relayer.go:527-541 | decoding the packed call by its own offsets returns every argument; its length is 484 plus the padded function |
| `RelayCall.CalldataSlots` | clob/relayer.go:527-541 | the nine head words lie in their ABI slots |
| `RelayCall.CalldataStrings` | clob/relayer.go:527-541 | the three byte strings are found by their offsets |
| `RelayCall.SignProxyRelay` | clob/relayer.go:498-525 | the signer is asked for the hash of the 28 envelope bytes and the hash of a message for this call, its recovery byte is raised by 27, and the calldata packed with the signature passes the hub's own check |
| `RelayCall.SignRelaySignsMessage` | clob/relayer.go:502-524 | what is signed is the enveloped hash of a message that starts with rlx: and parses to this call with fee and gas price 0, and no signature means that the signer refused it |
| `RelayCall.SignedIsAccepted` | clob/relayer.go:498-541 | the signature found in the calldata is the signer's over the message rebuilt from the arguments in the same calldata, the hub and the relay |
| `RelayCall.PreimageRoundTrip` | clob/relayer.go:502-513 | the preimage parses back into its fields although its middle field has any length |
| `RelayCall.PreimageBinds` | clob/relayer.go:502-513 | two preimages are equal exactly when all signed fields are, the nonce modulo 2^256 |
| `RelayCall.SigningHashBinds` | clob/relayer.go:502-518 | equal signing hashes mean equal messages, or a collision between two known inputs |
| `Preflight.PreflightProxyTxBatch` | clob/relayer.go:311-355 | estimate, margin, signature, packing, guard and simulation: the error kind of each exit and every field of its report, for a default outer limit of 10000000; the hub accepts an accepted batch |
| `Preflight.FinishReport` | clob/relayer.go:338-355 | the report once the call is packed, and the verdict: too large exactly when the guard fails or simulation runs out of gas, a failed inner call exactly when the guard passes and simulation reverts |
| `Preflight.SimulationInWords` | clob/relayer.go:432-450 | a simulation that comes back with an error ran out of gas exactly when its text mentions the gas left or being out of gas, whatever the case of its letters |
| `Preflight.OutcomeMeetsSpecification` | clob/relayer.go:311-450 | exit by exit and field by field, in numbers: no estimate, no signature, does not fit the outer limit or runs out of gas, reverts, accepted |
| `Preflight.OutcomeIsUnique` | clob/relayer.go:311-450 | that leaves nothing open: two outcomes that meet it are equal |
| `Preflight.AcceptedIsAccepted` | clob/relayer.go:330-355 | the hub's check of the signature passes for the calldata of every accepted batch |
| `Preflight.SignAndMeasure` | clob/relayer.go:330-339 | the call is signed for one limit, packed with it and measured |
| `Preflight.PreflightConservesGas` | clob/relayer.go:320-352 | estimate + margin + intrinsic + 375000 + headroom equals the outer limit modulo 2^64 in every report with a guard maximum, and as integers under an exact condition on call, outer limit, estimate and the zero bytes of the signature |
| `Preflight.GasIsSafeExactly` | clob/relayer.go:320-352 | the sum is the outer limit as an integer, whoever signs and whatever the node answers, exactly when a condition on call, outer limit and estimate holds for each number of zero bytes from 0 to 64 |
| `Preflight.HeadroomIsSafeExactly` | clob/relayer.go:339-352 | acceptance comes with a headroom that is not negative, whoever signs, exactly when the signed limit is less than 2^63 below the maximum for 64 zero bytes |
| `Preflight.OrdinaryLimitsAreSafe` | clob/relayer.go:320-352 | both hold for outer limits up to 2^63 and estimates whose sum with the margin is |
| `Preflight.AcceptedExactly` | clob/relayer.go:330-355 | a batch is accepted exactly when it is signed, its limit (at least 1), the cost of its calldata, 21000 and 375000 fit the outer limit, and the simulation succeeds |
| `Preflight.AcceptedPassesGuard` | clob/relayer.go:346-355 | an accepted batch is signed for the reported limit, passes the guard with the very calldata that was simulated, and the simulation succeeded |
| `Preflight.AcceptedNumbers` | clob/relayer.go:320-352 | on acceptance signed limit + intrinsic + 375000 fit the outer limit, the margin is at least 50000, the limit covers the estimate exactly when their sum does not wrap, the headroom is not negative exactly when the limit is less than 2^63 below the maximum that call, outer limit and zero bytes of the signature determine, and the accounts are off by 2^64 upwards for a sum that wraps and by 2^64 downwards for a negative headroom |
| `Preflight.MarginIsFifteenPercent` | clob/relayer.go:453-459 | the margin is max(50000, 15%) exactly when the product fits uint64, else less than 15% |
| `Preflight.HeadroomCanTurnNegative` | clob/relayer.go:342-352 | whoever signs, a batch whose outer limit exceeds estimate and margin by 2^63 and the dearest calldata is accepted with a negative headroom and accounts that add up to 2^64 less than the limit |
| `Preflight.SearchCoversPreflight` | clob/relayer.go:297-355 | what preflight accepts is at most 852 above what the search finds |
| `OrderHash.BuildOrderStructHash` | clob/auth.go:257-272 | twelve slice writes into the zeroed 384-byte buffer hash type hash and eleven words in order |
| `OrderHash.WriteUint256` | clob/auth.go:82-86 | a number's magnitude completes its word of the buffer |
| `OrderHash.WriteAddress` | clob/auth.go:88-92 | an address completes its word over zeros |
| `OrderHash.WriteUint8` | clob/auth.go:94-97 | the low byte completes its word over zeros |
| `OrderHash.OrderRoundTrip` | clob/auth.go:257-272 | decoding the buffer returns the order, up to signs and to bytes of side and signature type |
| `OrderHash.OrderEncodingBinds` | clob/auth.go:257-272 | two buffers are equal exactly when type hash and canonical order are |
| `OrderHash.BufferIsEncodeData` | clob/auth.go:257-272 | the buffer is encodeData of EIP-712 exactly when every number is unsigned and side and signature type are bytes |
| `OrderHash.SignIsNotCommitted` | clob/auth.go:82-86 | an order with a negative timestamp has the buffer of its positive twin |
| `OrderHash.BuildDomainSeparator` | clob/auth.go:247-255 | the domain separator hashes its five words in order |
| `OrderHash.DomainEncodingBinds` | clob/auth.go:247-255 | the domain buffer commits to the chain id's magnitude and the exchange |
| `OrderHash.SignOrder` | clob/auth.go:274-283 | no signature without a contract for the chain; else the signer's answer to the hash of 0x1901, the hash of the five domain words and the hash of the twelve order words, its recovery byte raised by 27 |
| `OrderHash.SignatureSignsOrder` | clob/auth.go:116-135 | there are a domain of 160 bytes and a struct of 384 bytes, each word of both as EIP-712 has it, whose digest the signature is for; none means that the signer refused it |
| `OrderHash.DomainIsDomain` | clob/auth.go:247-255 | type hash, name, version, chain and contract stand in the domain's five words in this order |
| `OrderHash.StructIsStruct` | clob/auth.go:257-272 | the type hash and the eleven members stand in the struct's twelve words in this order |
| `OrderHash.DigestBinds` | clob/auth.go:120-135 | one digest names one chain, one exchange and one canonical order, or two known inputs collide |
| `Encoding.EncodePacked` | clob/auth.go:26-32 | the parts one after the other |
| `Encoding.PadTo32IsModular` | clob/auth.go:34-41 | padding keeps the big-endian value modulo 2^256 for inputs of any length |
| `Encoding.EncodeUint256Binds` | clob/auth.go:43-45 | the encoding decodes to the value modulo 2^256, and two values share one exactly when they agree modulo 2^256 |
| `OrderAmounts.PathsAgree` | clob/client.go:407-455 | for every side, size, price and configuration, both paths agree exactly off the fast grid, or without overflow when the price is not a half tick above an even tick, or with overflow when the shares fit or the units held are a multiple of 2^60 and the product held, less the decimal path's where that fits, is a multiple of 2^61 to 2^64 by tick size |
| `OrderAmounts.SharesAgree` | clob/client.go:412-453 | the share amounts agree exactly when they fit int64 or the units that int64 holds are a multiple of 2^60 |
| `OrderAmounts.CollateralAgrees` | clob/client.go:412-453 | the collateral amounts agree exactly when the product of units and price ticks that int64 holds, less the decimal path's product where that fits, is a multiple of 2^61, 2^62, 2^63 or 2^64 for 1 to 4 price decimals |
| `OrderAmounts.OverflowingSharesDiffer` | clob/client.go:412-453 | but for that coincidence overflowing shares make the paths differ on either side and at every price |
| `OrderAmounts.OverflowAtTenTrillion` | clob/client.go:412-453 | at 10^13 shares and no half tick the fast path yields a wrapped amount and the decimal path 0 |
| `OrderAmounts.FastPathIsExact` | clob/client.go:412-424 | when the amounts fit int64 the fast path computes the exact products, and no intermediate one overflows |
| `OrderAmounts.AmountsInNumbers` | clob/client.go:407-425 | where everything fits, a buyer's side is 0, maker the hundredths of a share times the price ticks scaled up, taker the hundredths times 10000; a seller's side is 1 with the two exchanged |
| `OrderAmounts.DecimalInNumbers` | clob/client.go:430-455 | the decimal path has the same form at every size and price, with the price rounded to even and 0 for what does not fit |
| `OrderAmounts.OverflowingSize` | clob/client.go:412-453 | at 10^17 shares the size itself overflows, and the fast path goes on from the smallest integer |
| `OrderAmounts.CollateralIsProportional` | clob/client.go:412-424 | for a price of at most 1 it is enough that the shares fit: then collateral never exceeds shares, and collateral times 10^Price is shares times the price units |
| `OrderAmounts.SidesMirror` | clob/client.go:421-449 | selling is buying with maker and taker exchanged, on both paths |
| `OrderAmounts.RoundingsPart` | clob/client.go:413-432 | rounding half away and half to even differ exactly at halves above an even integer |
| `OrderAmounts.RoundingsAreNearest` | clob/client.go:329-432 | both roundings go to a nearest integer, halves away from zero or to the even neighbour, and the ceiling is the least integer above |
| `OrderSizing.AdjustedSizeIsLeast` | clob/client.go:325-330 | the oversized size nets the request after the fee, and one unit less does not |
| `OrderSizing.AdjustedSizeIsAligned` | clob/client.go:329-336 | an oversized size passes the alignment check, and flooring it returns its units |
| `OrderSizing.AlignedSizeLosesAtMostOne` | clob/client.go:333-412 | a size within the alignment tolerance trades its nearest number of units, or one less when it lies below |
| `OrderSizing.DroppedRateNeverNets` | clob/client.go:326-328 | at a fee rate of 1 or more no size nets a positive request |
| `BuildOrder.Build` | clob/client.go:298-387 | options, checks, oversizing, amounts, salt, timestamp and signature, with every error exit, against what a caller reads off the option list and the client: the maker is the funder and the signer the key's address, and so on for each field of what is returned |
| `BuildOrder.BuildMeetsSpecification` | clob/client.go:298-387 | the checks in their order, the least size that nets the request, each member of the order, the exchange of the market's kind, salt and timestamp from the id's hashes, and what goes out with the signature |
| `BuildOrder.TicksMakeOne` | clob/types.go:217-222 | the table knows four tick sizes; each is a one in the last decimal, and the price has as many decimals |
| `OrderOptions.OptionsAreDecided` | clob/client.go:182-274 | each field comes from the last option that sets it and is empty when none does; post-only and deferred execution hold exactly when their option occurs |
| `Decimals.NumeralsParse` | clob/client.go:343-346 | the token ids accepted are digits with or without a sign |
| `Decimals.DecimalRoundTrip` | clob/client.go:343-346 | every number is read back from its decimal digits, with either sign |
| `Decimals.LeadingZero` | clob/client.go:343-346 | zeros in front change nothing |
| `OrderOptions.ApplyOptions` | clob/client.go:300-303 | the options folded in order |
| `BuildOrder.CheckAndSize` | clob/client.go:305-339 | the final size, or the check that refuses the order |
| `BuildOrder.AdjustedOrderNets` | clob/client.go:289-341 | the share amount of a built fee-adjusted buy nets the request after the fee it was sized for exactly when the adjusted shares fit int64, at the true rate exactly when that rate is also below 1, and it is then the least multiple of a size unit that does |
| `BuildOrder.AdjustedOrderIsAligned` | clob/client.go:316-336 | fee oversizing never runs into the alignment error |
| `BuildOrder.DeterminismCondition` | clob/client.go:348-371 | a buildable order is independent of clock and random source exactly when an id and a timestamp are set |
| `BuildOrder.DeterministicIDDecides` | clob/client.go:206-222 | with WithDeterministicID as the last option setting id or timestamp, whatever the others, the order is deterministic exactly when the id is not empty |
| `OrderOptions.LaterOptionsKeepId` | clob/client.go:224-274 | no other option touches id or timestamp |
| `OrderOptions.SaltFromID` | clob/auth.go:291-295 | the salt lies in [0, 2^63) |
| `OrderOptions.TimestampFromID` | clob/auth.go:297-305 | the timestamp lies in [1713398400000, 1713398400000 + 63072000000) |
| `BuildOrder.BuiltOrderIsSigned` | clob/client.go:341-386 | what was validated is what was signed, for the right exchange |
| `BuildOrder.ExpirationIsNotSigned` | clob/client.go:376-382 | the expiration is carried but changes neither order nor signature |
| `FeeTable.FeeParams.constructor` | polymarket/market.go:81-90 | the table holds the fee of each of its 10001 keys |
| `FeeTable.FeeParams.FeePerShare` | polymarket/market.go:92-100 | the fee of the nearest key, at every price within rate / 20000 of the formula, times 1 - rebate where there is a rebate |
| `FeeTable.FeeParams.FeePerShareKey` | polymarket/market.go:106-111 | the formula for every int32 key, and 0 outside the table |
| `FeeTable.LookupIsClose` | polymarket/market.go:92-131 | that bound for the formula itself: its slope never exceeds the rate after the rebate |
| `FeeTable.BuyFeeRateIsFee` | polymarket/market.go:122-131 | the buy fee rate times the price is the fee without rebate, exactly for rates that are not negative or prices that carry no fee; that fee is rate times p(1 - p) between 0 and 1 and nothing outside |
| `FeeTable.FeeIsSymmetric` | polymarket/market.go:113-131 | the formula is symmetric in p, and a positive rebate takes its share off |
| `FeeTable.LookupIsSymmetric` | polymarket/market.go:92-100 | the lookup is symmetric at p exactly when p is no price or not a half key, or all fees vanish |
| `WsSession.MarketWS.Run` | polymarket/ws.go:262-315 | the trace of any run is the one its sessions determine, over exact batches of 100 tokens, an independent monitor accepts it, and on return there is no connection |
| `WsSession.MarketWS.Loop` | polymarket/wsconn.go:24-47 | backoff and first-connect flag, whatever each session and the context do |
| `WsSession.MarketWS.Turn` | polymarket/wsconn.go:28-45 | one session, onDown, and unless cancelled before it a pause of 1 second after a session that came up and of the backoff otherwise, which doubles up to 30 seconds |
| `WsSession.MarketWS.Session` | polymarket/wsconn.go:49-67 | dial, subscriptions, publication, onUp, and onReconnect after the first time; coming up resets the backoff, and the connection then stays the live one |
| `WsSession.MarketWS.OnConnect` | polymarket/ws.go:267-300 | the connection is published only after every batch is written |
| `WsSession.MarketWS.SendBatch` | polymarket/ws.go:268-282 | one subscription message, only the first without an operation |
| `WsSession.MarketWS.OnDown` | polymarket/ws.go:307-314 | no connection and not connected afterwards |
| `WsSession.MarketWS.WriteTokens` | polymarket/ws.go:234-258 | at any moment of a run a token message goes to the connection that the trace says is live |
| `TokenCalls.CallsReachTheLiveSession` | polymarket/ws.go:234-311 | in every interleaving of token calls with a run, a call writes to the connection of session i exactly between that session's publication and its onDown |
| `TokenCalls.OtherCallsAreDropped` | polymarket/ws.go:234-311 | and it is dropped exactly when no session is live |
| `WsSession.EveryRunIsAccepted` | polymarket/wsconn.go:24-67 | a monitor that knows nothing of the loop accepts every run: one dial and one onDown per session, at most one publication and one onUp, in that order; after every onUp but the first session's at once onReconnect, if there is one; between two sessions exactly one pause, of 1, 2, 4, 8, 16 and then 30 seconds by the failures in a row that the monitor counts, the first of a run not counted; and a session has sent exactly the batches up to where writing failed, all of them if it came up |
| `WsSession.DelaySaturates` | polymarket/wsconn.go:39-45 | after k failures in a row since a session came up the pause is 2^k seconds below k = 5 and 30 from then on; at the start of a run the first failure does not count |
| `WsSession.DelayIsPause` | polymarket/wsconn.go:39-45 | the pause in terms of the failures in a row and of whether any session has come up |
| `WsSession.StreakIsFailures` | polymarket/wsconn.go:24-45 | what the backoff counts are the failures in a row, less the first one of a run |
| `WsSession.DelayRecurs` | polymarket/wsconn.go:45-60 | doubling up to 30 and resetting on coming up amounts to min(2^k, 30) |
| `WsSession.BatchStrings` | polymarket/ws.go:475-485 | the batches concatenate to the list, all full but possibly the last, none empty |
| `WsSession.BatchesAreUnique` | polymarket/ws.go:475-485 | there is only one such list of batches |
| `Deadman.EveryStateOfEveryRun` | polymarket/wsconn.go:80-137 | in every interleaving the timer stands for the last reset, the drain is never needed, a close comes no earlier than the timeout after the last reset, resets and pending touches never exceed messages read, and each message is answered by a later reset or a pending touch |
| `Deadman.ExpiresOnSilence` | polymarket/wsconn.go:131-134 | when the deadman gives up, the last message is a whole timeout old unless a touch is still pending |
| `Deadman.ATouchCanComeTooLate` | polymarket/wsconn.go:120-134 | that exception happens |
| `Deadman.ClosesEarlyExactly` | polymarket/wsconn.go:119-136 | from a state of any run without a close, a continuation without messages can close less than the timeout after the last message exactly when that message is less than the timeout old and came after the last reset with the deadman waiting, or a close is already under way |
| `Deadman.DeadmanGoesOn` | polymarket/wsconn.go:119-136 | the deadman is never stuck, and can expire exactly once the timeout is over |
| `Deadman.ResetsArePaidFor` | polymarket/wsconn.go:89-130 | without new messages resets come only from touches already pending |
| `Deadman.FewResetsAfterTheLastMessage` | polymarket/wsconn.go:89-130 | at most three after the last message, two once its touch is delivered, one when the deadman is back in its select |
| `Deadman.ThreeTouchesCanBePending` | polymarket/wsconn.go:89-130 | a run reaches a touch in each of the three places |
| `Deadman.ThreeResetsCanFollow` | polymarket/wsconn.go:123-130 | from there three resets follow |
| `Deadman.MoreResetsExactly` | polymarket/wsconn.go:89-130 | from a state with a current timer, at most k resets can follow in every continuation without messages exactly when at most k touches are pending with the deadman not closing |
| `Deadman.AllReset` | polymarket/wsconn.go:89-130 | some continuation turns every one of those touches into a reset |
| `TickSizeCache.Client.Lookup` | clob/cache.go:38-45 | the entry when it is younger than the time to live |
| `TickSizeCache.Client.Store` | clob/cache.go:68-71 | both maps updated for one token |
| `TickSizeCache.Client.GetTickSize` | clob/cache.go:37-73 | a fresh entry, else the decoded reply, saved exactly when it is usable |
| `TickSizeCache.PutIsFoundWhileFresh` | clob/cache.go:38-71 | what is stored is found for exactly the time to live from then on, and nothing else changes |
| `TickSizeCache.AloneIsGetTickSize` | clob/cache.go:37-73 | the steps of one caller, one after another, do what GetTickSize does alone |
| `TickSizeCache.Decode` | clob/cache.go:53-66 | a bare string as it is, else the minimum tick size, else the tick size; an error exactly for no body, an unusable body or two empty fields; an empty size exactly for null and for a bare empty string |
| `TickSizeCache.EveryStateOfEveryRun` | clob/cache.go:37-73 | under any interleaving the maps have the same keys, each entry was served for its token before its recorded time, and each answer is the call's own response or an entry younger than the time to live when checked |
| `TickSizeCache.OlderResponseCanReplaceNewer` | clob/cache.go:68-71 | a run ends with the older of two responses cached under the later time |
| `TickSizeCache.TakingTurnsKeepsTheLatest` | clob/cache.go:37-73 | in every run in which a call begins only while no other caller is busy with its token, each response is still being saved or covered by an entry that is it or a later one |
| `TickSizeCache.LosesExactly` | clob/cache.go:37-73 | from any state of any run, a continuation whose new calls take turns can reach a lost response exactly when one is lost already, when two callers are busy with one token and one of them still fetches, or when a caller is about to save a response that a newer one of another size has overtaken |
| `TickSizeCache.OutOfTurnLoses` | clob/cache.go:37-73 | so every call that begins out of turn and finds no fresh entry makes a loss possible |
| `TickSizeCache.IdleTokenIsLatest` | clob/cache.go:68-71 | and the entry of a token that nobody is busy with is the last response for it |
| `FeeRatePrefetch.EveryStateOfEveryRun` | clob/prefetch.go:17-38 | in every interleaving semaphore, wait group and counter are what the goroutines make of them, and each callback was made for its own successful request, never twice |
| `FeeRatePrefetch.FewInFlight` | clob/prefetch.go:19-28 | never more than 20 requests in flight |
| `FeeRatePrefetch.ManyInFlight` | clob/prefetch.go:19-28 | and as many as that can be, for as many tokens |
| `FeeRatePrefetch.AfterWait` | clob/prefetch.go:26-38 | after Wait every goroutine is gone, the semaphore is empty, and the counter is the number of callbacks and of successes |
| `FeeRatePrefetch.NeverStuck` | clob/prefetch.go:22-38 | there is no deadlock |
| `FeeRatePrefetch.RunsAreShort` | clob/prefetch.go:22-38 | no run for n tokens has more than 8n + 1 steps, so it always returns |
| `TickSizePrefetch.PrefetchTickSizes` | clob/prefetch.go:42-90 | what is stored and failed for any server, any finishing order and any cancellation, and the result that goes with it |
| `TickSizePrefetch.FetchAll` | clob/prefetch.go:48-83 | the batch loop, with the cancellation looked at after each batch |
| `TickSizePrefetch.FetchBatch` | clob/prefetch.go:49-73 | two goroutines, finishing either way round |
| `TickSizePrefetch.Fetch` | clob/prefetch.go:55-63 | up to three attempts until one is usable |
| `TickSizePrefetch.FetchedIsFirstUsable` | clob/prefetch.go:57-63 | a goroutine ends with its first usable answer, and fails only without one |
| `TickSizePrefetch.DoneIsStoredOrFailed` | clob/prefetch.go:48-74 | the tokens done are split into stored and failed, each occurrence once |
| `TickSizePrefetch.StoredIsFetched` | clob/prefetch.go:70-70 | each stored size is what its own token was answered |
| `TickSizePrefetch.CompleteMeansEveryTokenStored` | clob/prefetch.go:78-89 | nil exactly when every token has a usable answer and no batch is followed by a cancellation; without cancellation the whole list is partitioned |
| `TxBuilder.TxBuilder.Split` | clob/onchain.go:313-324 | one operation more, a split at the adapter of the market's kind, or the packing error, or nothing after an error |
| `TxBuilder.TxBuilder.Merge` | clob/onchain.go:326-337 | likewise for a merge |
| `TxBuilder.TxBuilder.Convert` | clob/onchain.go:339-350 | likewise for a conversion, always at the neg-risk adapter |
| `TxBuilder.TxBuilder.Redeem` | clob/onchain.go:352-363 | likewise for a redemption, always at the plain adapter |
| `TxBuilder.TxBuilder.Approve` | clob/onchain.go:365-393 | two operations, the first of which stays when the second cannot be packed |
| `TxBuilder.TxBuilder.ProxyCalls` | clob/onchain.go:433-445 | the sticky error, or the error for an empty builder, or one call per operation |
| `TxBuilder.OpsAreRequestsUpToFirstError` | clob/onchain.go:313-393 | after any list of requests the operations are their contract calls in order up to the first that cannot be packed, whose error is the builder's |
| `TxBuilder.RequestsInCalls` | clob/onchain.go:257-393 | the contract calls of each request and the addresses they go to, the adapter being that of the market's kind and the approved amount 2^256 - 1 |
| `TxBuilder.ErrorSticks` | clob/onchain.go:313-393 | after the first error no request changes operations or error |
| `TxBuilder.CallsAreAllOrNothing` | clob/onchain.go:433-445 | a call list comes out exactly when there are requests and every call can be packed; then it is their flattening in order, with type code 1 and value 0 |
| `TxBuilder.HalfApprove` | clob/onchain.go:365-393 | an approval that fails half way leaves an operation but yields no call list |
| `TxBuilder.PaddingBinds` | clob/onchain.go:266-296 | left padding keeps an id's number and confuses only ids that are the same number |
| `Confirmation.WaitForConfirmed` | clob/relayer.go:65-192 | polling goes on exactly until the first final turn, and decides what that turn decides, with the failure named by the relayer's message and the text around it, whatever the case of its letters |
| `Confirmation.DecisionReports` | clob/relayer.go:65-192 | a turn in the relayer's words: confirmed, failed or invalid in any case and with or without the prefix, the status by the receipt, the failure a guard failure when the text mentions the gas left, an inner failure when the message says so or the receipt says success, else plain |
| `Confirmation.TextDecides` | clob/relayer.go:176-192 | a failure is a guard failure exactly when the text built around the message says so |
| `Confirmation.DecisionIsUnique` | clob/relayer.go:65-192 | a turn decides one verdict |
| `Confirmation.ConfirmedMayHaveReverted` | clob/relayer.go:90-93 | without an error the status is success exactly when there is no receipt to say otherwise |
| `Confirmation.RevertedTurn` | clob/relayer.go:65-93 | a confirmed transaction with any hash and a receipt of status 0 ends the wait without an error, with status 0 |

## Left out

- HTTP, gzip, headers, JSON decoding, logging, the QUIC transport, credentials and the session file: I/O around libraries.
- keccak and secp256k1 internals: functions of the right type; signing may fail, and yields 64 bytes and a recovery id of 0 or 1. The two halves of a real signature are not 0, so it has at most 62 zero bytes: `GasGuard.BandIsTight`, `GuardMisses.MissesExactly`, `GuardStops.StopsBelowExactly` and `GuardStops.WidestGapExactly` are about signers that may use all 64.
- The go-ethereum ABI library: `RelayCall` has the layout of `relayCall` only, and its packing error is not modelled. The one argument that could meet it is a negative nonce, which the relayer's text can name: it is packed modulo 2^256 here, and a version of the library that refuses negative numbers for unsigned types returns an error instead. The packing of `proxy` calls and of the builder's methods is a parameter.
- IEEE float64 rounding: prices, sizes and fees are exact reals, so nothing here says that floats agree to the last bit.
- The decimal library's precision limits: its path is exact floor, half-to-even rounding and product; a value that does not fit int64 reads as 0.
- Converting an out-of-range float to int64, which Go leaves to the processor: the model takes the answer of amd64.
- OrderHash.BuildOrderStructHash: requires magnitudes below 2^256, because `FillBytes` panics otherwise; `BuildOrder.Build` shows that case as a panic.
- BuildOrder.Build: the options are a value that is folded, not a record updated through a pointer, because no alias of it survives the fold.
- Preflight.PreflightProxyTxBatch: the report is a value updated field by field, because nothing else holds it while it is filled; the node's estimate and its answers to simulation are inputs, and fetching the relay payload and the request body are not modelled.
- WsSession.MarketWS.Run: how each session goes and where the context ends it are inputs; time appears as the pauses only, and the payload flags of the subscription message are not modelled. MarketWS passes no reconnect callback, so the model carries a flag for whether there is one.
- WsSession.MarketWS.WriteTokens: a call is one step, as the lock makes it; the result of the write is ignored as in the code. Publishing the connection and setting the connected flag are one step too.
- Deadman.EveryStateOfEveryRun: the pinger and the frames' contents are left out; stopping a timer has the meaning it has since Go 1.23, which go.mod asks for.
- TickSizeCache.Client.GetTickSize: alone it runs without other callers; all interleavings are in `TickSizeCache.EveryStateOfEveryRun`, where each locked section is one step.
- FeeRatePrefetch.EveryStateOfEveryRun: the store callback is one step; a callback that is not safe for concurrent use is the caller's affair.
- TickSizePrefetch.PrefetchTickSizes: within a batch the two goroutines touch shared state once each, so their interleavings are the two orders.
- TxBuilder.TxBuilder.Split: ids of more than 32 bytes, which make the code panic, are excluded by type.
- Confirmation.WaitForConfirmed: upper and lower case are those of ASCII; the gas figures of the result are left out.
- The ClobAuth login buffers, HMAC headers, approvals on chain, event dispatch, flexible JSON types, address tables and validators: they would only add easy members.
