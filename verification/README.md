# A model of the credit-metered image and chat gateway

The gateway sells image and chat requests for credits. It holds credits before
a request and settles or refunds the hold after it, leases upstream accounts and
proxies under Redis locks, gathers images from retried and parallel upstream
calls, decodes a stream of incremental patches, and caches proxied images. This
project models those parts in Dafny and proves what they keep, over all inputs,
all runs and all interleavings of their steps.

Each SQL transaction and each Redis script is one atomic step with its guard.
Code that updates state in place is a class or a method with loops, proved
against a specification function; the theorems are about that function, or about
the transition system whose steps the methods are shown to make.

| module | models |
|---|---|
| `Billing` | the ledger engine: hold, settle, refund, recharge, credit, adjust |
| `Holds` | any number of requests using the engine at once, on five request paths |
| `Handlers` | the gateway's handlers, each a course through `Holds` |
| `Pricing`, `ImageBills` | costs, channel ratios, when a settlement can exceed its hold, and the bills of image requests |
| `Orders` | recharge orders: notifications, forced payment, cancellation, expiry |
| `Rewards` | redeem codes and daily check-ins |
| `RedisLock` | the token lock and its expiry |
| `Leases`, `LeaseSafety`, `UsageLimits` | account and proxy leases of many requests at once |
| `Scheduler` | the scheduler's and the allocator's code, call by call |
| `Dispatch` | the waiting queue with its backoff |
| `ImageChannel` | repeated calls of one channel, and choosing a route |
| `ImageRunner` | retry by error code, and parallel batches topped up to N |
| `ImageCache` | the proxy cache against a history of its sets |
| `Delta`, `DeltaStream` | the stream extractor against the meaning of the stream |
| `UsageLogger` | the batching background writer |
| `AspectRatio`, `Decimal`, `Itoa`, `FileNames` | ratios, numerals and file names |
| `Wrappers` | Option and Result |

## Where the code keeps less than it may seem to

The model follows the code. Each case has its exact condition or an
all-parameters counterexample among the members below.

- The ledger and the balance agree exactly when no recharge reached a
  soft-deleted user (the row is written, the balance is not) and no settlement
  had a negative hold and a positive price (`Billing.ConservationExactly`). When
  they disagree the balance is too small, never too large. The unfreeze row of a
  settlement that also consumes carries the final balance
  (`Billing.UnfreezeRowRunsAhead`). A settlement has no floor at zero.
- Frozen credits return to where they were unless a channel image was delivered
  at a final price of zero or less on a positive hold, because that route then
  skips its settlement, or a negative hold was settled for something
  (`Holds.AllFreedWhenFinished`, `Pricing.StrandedExactly`).
- Paying an order and crediting it are two transactions: a credit can be lost
  between them, and is never made twice (`Orders.CreditedOnceAndOnlyWhenPaid`).
- A failed dispatch leaves a lock behind exactly when the answer to a lock call
  was lost after it took effect, or a release never arrived
  (`LeaseSafety.StrandedExactly`).
- The daily cap and the minimum interval hold if every lock is taken on the row
  its scan read and every use is counted before its lease expires
  (`UsageLimits.CapIsNeverExceeded`, `UsageLimits.IntervalIsKept`). The scan and
  the lock are separate calls, so neither condition is given; without either one
  the cap is exceeded (`UsageLimits.StaleScanBreaksLimits`,
  `UsageLimits.LateCountBreaksCap`).
- The end of a cooldown restores nobody: a throttled account stays unlisted
  until its status is set back (`LeaseSafety.ThrottledStaysOut`).
- A stream frame that holds an array, an object or a whole message is dropped
  while a thoughts path is in force, even if the patches inside name other paths
  (`DeltaStream.AsMeantExactly`, `DeltaStream.SwallowedTextIsLost`).
- A string frame on the text path is appended whatever its operation says, so a
  replacement shows both texts (`DeltaStream.ReplacementIsAppended`).
- A matching payment notification for a cancelled or expired order is
  acknowledged with success, and the order is neither paid nor credited
  (`Orders.Service.HandleNotify`).
- A cache set reads the clock before it takes the lock. If sets store in another
  order than they read, one can evict its own entry
  (`ImageCache.JustSetSurvivesExactly`, `ImageCache.SetOutOfOrderIsLost`); the
  size bound and the contents of every hit do not depend on the order.
- The file name of an original or thumbnail with task id `ref` does not parse
  back, nor one whose task id starts with `ref_` (`FileNames.NameParsesBack`).
- The table of aspect ratios is compared with wrapping products, which lie for
  sizes near the end of the 64-bit range (`AspectRatio.ProportionalExactly`,
  `AspectRatio.CanonicalExactly`, `AspectRatio.WrappedComparisonLies`).
- `itoa` prints the smallest 64-bit integer as a lone minus sign
  (`Itoa.ItoaReadsBack`).

## Model

| member | source | states |
|---|---|---|
| Billing.Engine.PreDeduct | internal/billing/engine.go:61-91 | the new tables are those of `Book` for a hold: refused for an unknown or deleted user or too small a balance, otherwise the amount moves from balance to frozen with one freeze row |
| Billing.Engine.Settle | internal/billing/engine.go:97-162 | the new tables are those of `Book` for a settlement: a conflict unless frozen covers the hold, then one update and up to two rows, without a floor at zero |
| Billing.Engine.Refund | internal/billing/engine.go:165-195 | the new tables are those of `Book` for a refund: a conflict unless frozen covers the hold, then the hold returns to the balance with one refund row |
| Billing.Engine.Recharge | internal/billing/engine.go:198-221 | the new tables are those of `Book` for a recharge, which writes its row even when no user row was updated |
| Billing.Engine.Credit | internal/billing/engine.go:233-261 | the new tables are those of `Book` for a credit inside another transaction, and the balance returned is the one stored |
| Billing.Engine.Adjust | internal/billing/admin.go:22-67 | the new tables are those of `Book` for a correction: never below zero, and nothing on a deleted user |
| Billing.RowsOfCall | internal/billing/engine.go:61-261 | a transaction touches one user, appends one or two rows or none, and its last row carries the balance the user ends with |
| Billing.CallBooks | internal/billing/engine.go:61-261 | what the rows of a committed call sum to for each user, in all and over the hold rows alone |
| Billing.EventMovesGaps | internal/billing/engine.go:97-221 | each event leaves balance minus booked amounts where it was, or lowers it, the latter in exactly two named cases |
| Billing.ConservationExactly | internal/billing/engine.go:61-261 | over every run, opening plus booked amounts equals the balance, and opening minus hold rows equals frozen, if and only if neither of those cases occurred for that user |
| Billing.LastRowIsRunningSum | internal/billing/engine.go:61-261 | after such a run the last row of every committed call carries the running sum of the ledger |
| Billing.UnfreezeRowRunsAhead | internal/billing/engine.go:130-160 | the unfreeze row of a settlement that also consumes carries the final balance, and is the running sum exactly when nothing was consumed |
| Holds.HoldsAreCovered | internal/billing/engine.go:97-195 | in every state of a run frozen covers each open hold of a living user, so closing it succeeds |
| Holds.RunKeepsInv | internal/billing/engine.go:61-195 | any interleaving of any number of requests keeps: frozen is the opening amount plus what requests hold or stranded, and the balance plus all overruns is not negative |
| Holds.FrozenAndBalanceOverRuns | internal/billing/engine.go:61-195 | the same for every run from non-negative amounts: frozen never negative, balance never below minus the sum of overruns |
| Holds.NoConflictEver | internal/billing/engine.go:97-195 | no settlement or refund of a run ever returns a conflict while its user lives |
| Holds.AllFreedWhenFinished | internal/gateway/image_channel.go:232-236 | when no request is open, frozen is back at its opening value if and only if no delivered request of that user stranded its hold |
| Holds.OpenedAndClosedAtMostOnce | internal/gateway/image_channel.go:78-102 | in the ledger of every run a request has at most one freeze row, closed by unfreeze or refund but never both, and at most one consume row; a finished request of a living user with a positive hold has closed it exactly if it failed or made its settlement, and was refunded exactly if it failed |
| Holds.DeliverMoves | internal/billing/engine.go:97-162 | a delivery replaces the hold in frozen by what it strands and takes no more from the balance than the overrun |
| Holds.CallCounts | internal/billing/engine.go:61-261 | how many rows of each kind a call adds under a reference, for every kind and reference |
| Handlers.DispatchImageToChannel | internal/gateway/image_channel.go:78-240 | the channel image handler makes exactly the billing calls of begin, then fail or deliver, whichever of its failures occurs, and delivers exactly when held and untroubled |
| Handlers.Refunder.Call | internal/gateway/image_channel.go:93-102 | the refund reaches the ledger at most once however often it is called, and not at all where nothing was held on an image route |
| Handlers.ImageGenerations | internal/gateway/images.go:539-654 | the local image handler likewise, holding, refunding and settling only when its hold is positive; image edits make the same calls |
| Handlers.HandleChatAsImage | internal/gateway/images.go:773-847 | the chat-as-image handler likewise, settling its hold at the held amount |
| Handlers.ChatCompletions | internal/gateway/chat.go:225-407 | the chat handler likewise, asking for no amount |
| Handlers.DispatchChatToChannel | internal/gateway/chat_channel.go:83-168 | the channel chat handler likewise; it uses the first route in order that opens a stream and refunds exactly when a held request found none |
| Pricing.ChannelNeverOverruns | internal/gateway/image_channel.go:163-178 | a channel ratio of at most one and no more images than asked for never cost more than the hold, for every price, count and ratio |
| Pricing.DearChannelOverruns | internal/gateway/image_channel.go:173-178 | the bound is sharp: every ratio above one overruns for some model price |
| Pricing.StrandedExactly | internal/gateway/image_channel.go:232-236 | for every user and channel ratio a channel delivery strands its hold exactly when the price rounds to nothing with the channel ratio but not without it |
| Pricing.OnlyCheapChannelsStrand | internal/gateway/image_channel.go:173-178 | that takes a positive user ratio and a channel ratio strictly between zero and one |
| Pricing.LocalDeliveryHasNoOverrun | internal/gateway/images.go:168-174 | a local delivery of no more images than were asked for does not overrun its hold and strands nothing; of as many it pays exactly its hold |
| Pricing.ChatOverrunsOnlyBeyondEstimate | internal/billing/pricing.go:68-138 | a chat request with no more completion tokens than estimated, through a channel of ratio at most one, does not overrun its hold |
| Pricing.PricedRequestsDoNotOverrun | internal/billing/pricing.go:117-129 | the overruns of any list of image requests, each billed for at least one and at most as many images as it asked for, sum to zero |
| Pricing.ImageRunsStaySolvent | internal/billing/pricing.go:117-129 | in every run of image requests so billed no balance goes below zero |
| ImageBills.GenerateLocally | internal/gateway/images.go:604-654 | whatever the attempts bring, a local request is delivered exactly when the runner succeeds and the images are stored; it then has exactly the images it asked for, is billed exactly its hold, and neither overruns nor strands it |
| ImageBills.DeliverByChannel | internal/gateway/image_channel.go:138-178 | a channel request is delivered exactly when some route fills it, by the first that does, with exactly the images it asked for, billed at that channel's ratio; it meets the pricing that solvency rests on whenever that ratio is at most one |
| Orders.StatusMovesOnce | internal/recharge/service.go:194-346 | in every run of racing notifications, forced payments, cancellations and expiries an order that left pending keeps its status, user and amounts |
| Orders.RunKeepsInv | internal/recharge/service.go:261-296 | at every moment the credits booked for an order and the winners still on their way count one if it is paid and none otherwise |
| Orders.CreditedOnceAndOnlyWhenPaid | internal/recharge/service.go:258-286 | an order is credited at most once, only if paid, with credits plus bonus to its own user; a paid order without credit has a winner that is still crediting or was lost |
| Orders.Service.SettleOrder | internal/recharge/service.go:261-296 | alone, it is the compare-and-set step followed by the credit step |
| Orders.Service.HandleNotify | internal/recharge/service.go:217-256 | it is the notification step followed by its settlement; a paid order is acknowledged without effect, a wrong amount is refused, and after an acknowledged payment the order is paid exactly when it was pending or paid, and nothing changed otherwise |
| Orders.Service.AdminForcePaid | internal/recharge/service.go:324-346 | it is the forced-payment step followed by its settlement, refused unless the order is pending |
| Orders.Service.CancelByUser | internal/recharge/service.go:194-209 | it succeeds exactly for the owner of a pending order and is the cancellation step |
| Orders.Service.ExpirePending | internal/recharge/dao.go:174-187 | it expires exactly the overdue pending orders and reports how many; none reported means nothing changed |
| Rewards.RewardTables.Redeem | internal/redeem/dao.go:95-160 | the new tables and the reply are those of `RedeemSpec`, with every refusal and the credit that rolls the code back |
| Rewards.RewardTables.Claim | internal/checkin/dao.go:51-107 | the new tables and the reply are those of `ClaimSpec`: a second claim of the day returns the first record |
| Rewards.EachRewardOnce | internal/redeem/dao.go:95-160 | in every run a code is marked used exactly when one ledger row credited it, with its amount to that user, and a user has at most one award per day, exactly when the day's record exists |
| Rewards.RedeemerStays | internal/redeem/dao.go:95-160 | a used code keeps its user and amount through every later run |
| RedisLock.HeldExactlyUntilExpiry | pkg/lock/redis_lock.go:23-67 | whatever calls with other tokens do in any order, the owner holds the key exactly until its deadline |
| RedisLock.Server.Acquire | pkg/lock/redis_lock.go:23-32 | it stores the token exactly when the key is free; a held key is left as it is; a lost call or answer is reported as an error |
| RedisLock.Server.Release | pkg/lock/redis_lock.go:35-50 | it deletes the key exactly when it holds this token |
| RedisLock.Server.Refresh | pkg/lock/redis_lock.go:53-67 | it moves the deadline exactly when the key holds this token, and deletes it when nothing is left |
| Leases.LocalKeepsBooks | internal/scheduler/scheduler.go:252-349 | each step of a request changes the locks it holds by exactly what it was granted or gives back |
| Leases.RunKeepsInv | internal/scheduler/scheduler.go:252-349 | in every run Redis stores exactly the granted tokens that have not expired, and each is held by the request it was granted to, or by nobody |
| LeaseSafety.NoTwoLeases | internal/scheduler/scheduler.go:252-349 | in every run no two unexpired leases name the same account or the same proxy |
| LeaseSafety.LateReleaseIsHarmless | pkg/lock/redis_lock.go:35-50 | releasing an expired lease changes nothing in Redis, whoever holds the key by then |
| LeaseSafety.OthersKeepTheirLocks | internal/proxy/allocator.go:47-98 | no step of another request, failing or not, takes a lock from its holder before it expires |
| LeaseSafety.StrandedExactly | internal/scheduler/scheduler.go:256-264 | a stored token comes to belong to nobody exactly at a lock call whose answer was lost or a release that never arrived |
| LeaseSafety.WhatIsStored | internal/scheduler/scheduler.go:252-349 | every stored lock is such a token or held by a request still due to release it; one that is idle or back to scanning holds none |
| LeaseSafety.NoLockOutlivesItsRequest | internal/scheduler/scheduler.go:252-349 | without Redis faults, when all requests have ended or failed back to scanning no lock is stored |
| LeaseSafety.ReleaseAttemptsBoth | internal/scheduler/scheduler.go:333-348 | releasing goes through all its calls whichever fail, and leaves neither token granted if both releases arrive |
| LeaseSafety.ThrottledStaysOut | internal/account/dao.go:158-173 | an account that is throttled or worse is in no listing of any run that does not set its status back |
| UsageLimits.MarkKeepsLimits | internal/account/dao.go:376-385 | counting a use of an unexpired lease keeps every account within its cap, across midnight too |
| UsageLimits.CapIsNeverExceeded | internal/scheduler/scheduler.go:228-237 | in every run on the two conditions no account is counted above its daily cap when that is at least one |
| UsageLimits.IntervalIsKept | internal/scheduler/scheduler.go:221-227 | on the same conditions a lease was dispatched at least the minimum interval after the account's previous release |
| UsageLimits.StaleScanBreaksLimits | internal/scheduler/scheduler.go:210-256 | for every configuration and every account one use short of its cap, two requests that both scan before either locks exceed the cap, and the second is granted within any positive minimum interval, all uses counted in time |
| UsageLimits.LateCountBreaksCap | internal/scheduler/scheduler.go:333-348 | likewise a lease that outlives its deadline exceeds the cap although every lock is taken on a fresh row |
| Scheduler.LeaseProxy | internal/proxy/allocator.go:47-87 | the allocator's calls are a course of the protocol; it takes the first proxy that is free, none when all are taken, and unlocks one it cannot use |
| Scheduler.TryLock | internal/scheduler/scheduler.go:252-350 | its calls are a course of the protocol that ends in a lease or, with everything undone, back at scanning; it succeeds exactly when the candidate can be locked, decrypted and given a proxy |
| Scheduler.TryDispatchOnce | internal/scheduler/scheduler.go:210-250 | it leases the first candidate in order that passes the filters and can be leased, and reports none exactly when there is none |
| Scheduler.ReleaseLease | internal/scheduler/scheduler.go:333-348 | it makes all three calls whichever fail, takes both tokens out of Redis unless a call does not arrive, and reports an error exactly if a call failed |
| Scheduler.ProxyLease.Release | internal/proxy/allocator.go:89-98 | the first release takes the proxy's token out of Redis unless it does not arrive; a later one leaves Redis alone and reports nothing |
| Scheduler.ProxyLease.MarkFailure | internal/proxy/allocator.go:100-116 | at most one of any number of reports takes up to twenty points off the proxy's health, never below zero |
| Dispatch.BackoffGrows | internal/scheduler/scheduler.go:159-205 | the backoff never shrinks, stays between 200 ms and 2 s and reaches the latter |
| Dispatch.DispatchLoop | internal/scheduler/scheduler.go:156-206 | it ends; planned pauses grow as the backoff does and sum to at most the queueing time; scans are bounded; no account is reported only after a failed scan with the deadline reached |
| ImageChannel.TraceIsSound | internal/gateway/image_channel.go:264-308 | a route's calls each ask for exactly what is missing, number at most max(2, expected), and end with all images or with an error |
| ImageChannel.NothingDropped | internal/gateway/image_channel.go:264-308 | no image a call delivered is dropped while there was room for it |
| ImageChannel.ImageGenerateWithRetry | internal/gateway/image_channel.go:264-308 | the loop makes that trace and returns exactly the expected number of images, in order of arrival, or an error |
| ImageChannel.PickImageRoute | internal/gateway/image_channel.go:310-320 | it returns the first route that fills the request, and its failures name exactly the routes before it |
| ImageRunner.WindowNeverCuts | internal/image/runner.go:693-718 | the retry limit of every code lies within the loop bound, so the loop never cuts a permitted retry |
| ImageRunner.RunWithRetry | internal/image/runner.go:390-449 | it stops exactly at the first attempt that succeeds, may not be retried, is cancelled or reached its limit, with the images of that attempt alone |
| ImageRunner.Absorb | internal/image/runner.go:307-339 | one answer adds its first image or, if it failed or came without any, nothing but its code |
| ImageRunner.Place | internal/image/runner.go:321-338 | the image goes to the next index with its URL and its archive entry, and one unit to its account's quota |
| ImageRunner.RunBatches | internal/image/runner.go:299-343 | every batch asks for exactly what is missing, and everything gathered is the answers in order of arrival |
| ImageRunner.RunParallel | internal/image/runner.go:224-388 | it succeeds exactly with N images, archive indices 0 to N-1 each with its own URL, and quota summing to N, within max(N, window) batches, though successful answers may come without images; otherwise it reports the code of the last answer without an image, or an invalid response if some came |
| ImageRunner.RunSingle | internal/image/runner.go:145-219 | a single request keeps the first image of its last attempt and counts it for that account; an attempt that succeeds without images makes it fail with an invalid response |
| ImageCache.HitsIffKept | internal/gateway/images_proxy_cache.go:57-75 | a key is kept unexpired exactly when it was set less than the TTL ago and fewer than the maximum of other keys were set since |
| ImageCache.SetKeepsAgreement | internal/gateway/images_proxy_cache.go:77-112 | while sets store in the order of their clock readings, storing, dropping what expired and evicting the oldest keeps the cache in agreement with its history |
| ImageCache.JustSetSurvivesExactly | internal/gateway/images_proxy_cache.go:92-112 | in whatever order, with one entry too many, every possible eviction keeps the entry just set if and only if another unexpired one was read strictly before it |
| ImageCache.SetOutOfOrderIsLost | internal/gateway/images_proxy_cache.go:77-90 | with room for one, a set that read the clock before the set stored ahead of it evicts its own entry |
| ImageCache.ImageProxyCache.constructor | internal/gateway/images_proxy_cache.go:42-55 | an empty cache, with defaults for non-positive parameters |
| ImageCache.ImageProxyCache.Get | internal/gateway/images_proxy_cache.go:57-75 | run without interruption: what it returns is what was last set, unexpired, in an array of its own, in whatever order the sets read the clock; while that order is kept, a hit exactly when the history says so |
| ImageCache.ImageProxyCache.Read | internal/gateway/images_proxy_cache.go:58-66 | its first critical section, with a clock reading that may be out of date: what was last set; in order, a hit only if the history says so at the reading, and always if it says so at the section |
| ImageCache.ImageProxyCache.DropStale | internal/gateway/images_proxy_cache.go:67-72 | its second one, after any sets of others: it deletes only what had expired at the reading and keeps the agreement with the history |
| ImageCache.ImageProxyCache.Set | internal/gateway/images_proxy_cache.go:77-90 | for every clock reading: the history grows by this set, the size stays within the maximum, every entry is the last set under its key, and the caller's array stays the caller's; a reading after all earlier ones keeps the agreement with the history |
| ImageCache.ImageProxyCache.EvictLocked | internal/gateway/images_proxy_cache.go:92-112 | what stays are the newest unexpired entries, as many as fit |
| ImageCache.CloneBytes | internal/gateway/images_proxy_cache.go:206-213 | the same bytes in a fresh array, none for an empty one |
| ImageCache.Scribble | internal/gateway/images_proxy_cache.go:57-90 | writing into a supplied or returned array changes no later hit |
| Delta.DeltaExtractor.Extract | internal/gateway/delta.go:58-209 | text, end and new state are those of `ExtractFrame` for every frame |
| Delta.DeltaExtractor.Patches | internal/gateway/delta.go:112-149 | the loop over an array frame is the fold of its patches |
| DeltaStream.PatchesMeanTheirText | internal/gateway/delta.go:112-149 | an array of patches with paths left out yields the text of the patches spelled out |
| DeltaStream.EveryFrameCarries | internal/gateway/delta.go:58-209 | no frame is outside the events: each carries one, with its own operation, in every state |
| DeltaStream.FrameMeansItsEvent | internal/gateway/delta.go:58-209 | every frame that is neither swallowed nor misread, including whole-message snapshots, yields the output and the state its event means, whatever it leaves out |
| DeltaStream.MisreadIsAppended | internal/gateway/delta.go:92-110 | a string frame on the text path with any other operation is appended, which is right exactly when nobody is shown it or it is empty |
| DeltaStream.AsMeantExactly | internal/gateway/delta.go:58-209 | for every state and every frame, with any event it carries: output, addressee, last message and path in force are those the event means if and only if the frame is not swallowed or its event would change none of them, and it is not misread or shows nothing |
| DeltaStream.TranscriptIsTheAnswer | internal/gateway/delta.go:58-209 | over every stream whose swallowed and misread frames would change nothing, up to its end, the concatenated output equals the answer with every path spelled out, including text in the frame that ends it |
| DeltaStream.OthersSeeNothing | internal/gateway/delta.go:96-206 | whatever frames come, none of which names "all", nothing is extracted while somebody else is addressed |
| DeltaStream.SwallowedTextIsLost | internal/gateway/delta.go:80-85 | a stream whose answer differs from what the extractor yields |
| DeltaStream.ReplacementIsAppended | internal/gateway/delta.go:92-110 | a stream that replaces its text in a string frame and is shown both texts |
| UsageLogger.StepKeepsInv | internal/usage/logger.go:65-128 | every step keeps: accepted rows are the rows handed over, then the batch, then the channel |
| UsageLogger.NoRowLostOrDoubled | internal/usage/logger.go:65-128 | the same in every run, in order and once each, with no batch above its size |
| UsageLogger.CloseHandsEverythingOver | internal/usage/logger.go:81-128 | once the loop has ended, every row accepted before Close has been handed over |
| UsageLogger.Logger.Write | internal/usage/logger.go:65-78 | it is the write step: a full channel drops the row |
| UsageLogger.Logger.Loop | internal/usage/logger.go:86-128 | the loop makes the steps of the arms it takes |
| AspectRatio.GcdInt | internal/gateway/images.go:244-252 | Euclid's loop computes the greatest common divisor |
| AspectRatio.AspectRatioOfSize | internal/gateway/images.go:209-233 | it returns the text of the first matching table row or of the size in lowest terms |
| AspectRatio.GcdScales | internal/gateway/images.go:244-252 | a common factor of both sides is a factor of the divisor |
| AspectRatio.RatioIsProportional | internal/gateway/images.go:209-233 | for every 64-bit size the ratio is in lowest terms unless it is 21:9, and proportional to the size where the table products fit into 64 bits |
| AspectRatio.RatioIsCanonical | internal/gateway/images.go:209-233 | of all 64-bit sizes, two whose own ratios are proportional to them get the same text exactly when they are proportional to each other |
| AspectRatio.CanonicalExactly | internal/gateway/images.go:209-233 | a 64-bit size shares its text with exactly the proportional ones among those if and only if its own ratio is proportional to it |
| AspectRatio.FalseRatioMisleads | internal/gateway/images.go:209-233 | every size with a false ratio has a partner of the same text and another proportion |
| AspectRatio.LowestTermsHaveNoCommonDivisor | internal/gateway/images.go:244-252 | in lowest terms no divisor above one is common to both sides |
| AspectRatio.WrappedComparisonLies | internal/gateway/images.go:53-67 | a size near the end of the 64-bit range and the size 5 by 4 get the same text, though they are not proportional |
| AspectRatio.ProportionalExactly | internal/gateway/images.go:209-233 | for every 64-bit size the ratio is proportional exactly when the products compared at the first row that differs by a multiple of 2^64 do not differ at all |
| Decimal.PrintThenValue | internal/proxy/model.go:46-66 | a printed natural reads back, in digits without leading zeros |
| Decimal.FormatThenAtoi | internal/imagestore/local.go:578-581 | a formatted 64-bit integer parses back |
| Itoa.FillDigits | internal/proxy/model.go:52-64 | the loop writes exactly the digits at the end of the 20-byte buffer and never leaves it |
| Itoa.Itoa | internal/proxy/model.go:46-66 | it returns the decimal of every 64-bit integer but the smallest, for which it returns a lone minus sign |
| Itoa.ItoaReadsBack | internal/proxy/model.go:46-66 | the text reads back to the integer exactly when that is not the smallest one |
| FileNames.NameParsesBack | internal/imagestore/local.go:548-604 | a generated name parses back to its task and index if the index is not negative, the task not empty and, for what is no reference, the name does not begin as one; otherwise it does not parse at all |
| FileNames.NamesAreDistinct | internal/imagestore/local.go:548-604 | no two such images of one directory share a name |
| FileNames.ReferencesAreNoOriginals | internal/imagestore/local.go:566-573 | the name of a reference never parses as an original, nor its thumbnail as an original's |

## Left out

- HTTP, JSON and SQL texts, the MySQL and Redis clients: each transaction and each script is one step with its guard.
- Int64 overflow of balances and amounts: ledger amounts are unbounded integers.
- float64 rounding: ratios are reals, rounded half up and truncated as in the code.
- The `version` column and the remarks of ledger rows, user creation and its opening bonus.
- The case-insensitive comparison of redeem codes by the database collation.
- Database errors inside a billing transaction: each either commits or changes nothing.
- The size-to-tier table of image prices and the parsing of a size text: the price tier and the two sides are inputs.
- `fitWithin`, thumbnails, image decoding, gzip and the directory walks of the image store.
- Lower-casing of file names beyond ASCII, and the normalisation of resource names.
- The upstream protocol, channel adapters and uploads of archived images: oracles constrained only by the alignment of file ids, URLs and archive entries.
- Decrementing the upstream image quota after a run, and task rows of the image runner.
- The mutexes of the cache and of the runner: each critical section is one step, a cache lookup being two.
- An empty cache key: a key joins a task id, an index and a resource with colons and is never empty; an empty one would defeat the eviction's search for the oldest entry.
- The scan's listing and its reading of the clock are one step.
- The order of the account and proxy listings: a scan may see the dispatchable rows in any order, so the lease theorems hold for the code's order too.
- The persistent device and session ids of an account, and the bound proxy of models that use no runtime proxy: neither touches a lock.
- Changes of an account's quota, of the usage ratio or of the time zone during a run.
- A second call of a lease's release: the callers make one, and nothing in the code forbids two.
- Refreshing a lock is modelled in `RedisLock` but not in the lease protocol, where nothing calls it.
- Automatic recovery of throttled accounts and a credit for every paid order: the code gives neither.
- The gateway's other services: users, models, channels, settings, prompts, announcements, audit, mail, backups, and both web front ends.
