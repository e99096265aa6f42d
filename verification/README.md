# Verified core of the gateway

A Dafny model of the parts of this API gateway that hold real state, loops or
arithmetic, with proofs about them. Every main result is for all inputs, all runs
or all interleavings; the counterexamples are on the inputs they name. Where the
source changes things step by step the model is a class or a method with loops,
proved against a function on values; the laws are then proved about that function.
Protocols with several callers are step systems whose actions are single accesses
to shared state.

| file | models | main results |
|---|---|---|
| `OrderLock.dfy` | the reference-counted mutex per trade number | `MutualExclusion`, `CountsAreExact`, `RunsAreFinite`, `StoppedMeansDone` |
| `TopUp.dfy` | crediting and failing orders under that lock | `CreditedOnce`, `TerminalStatusIsFinal` |
| `Delivery.dfy` | the same system when the accesses for one order succeed | `PaidOrdersAreCredited`, `FailedPaymentsAreRecorded`, `StoppedRunHasCredited` |
| `RatioSync.dfy` | the price difference report and its three passes | `ReportIsExact`, `ReportedIff`, `CleanUpKeepsEntries` |
| `PriceFeeds.dfy` | the models.dev and OpenRouter converters | `CheapestNonZero`, `CheapestIff`, `FeedPricesComeBack`, `QuoteComesBack`, `StaleCacheIff` |
| `UpstreamModels.dfy` | detecting and applying upstream model changes | `FixedPointIff`, `SelectionPartitions`, `SelectionEditsList`, `SelectionUpdatesSettings`, `OfferedAgainIff` |
| `MultiKey.dfy` | multi-key channels, indexed by position | `ManagedRefinesIff`, `RunRefinesIff`, `ListIsExact`, `PagesCoverTheList` |
| `MultiKeyOverlap.dfy` | overlapping requests and marks on one channel | `RowShowsOneLine`, `MarkFitsIff` |
| `RateLimit.dfy` | the sliding-window limiter | `WindowIsExact`, `ExactIff` |
| `VideoBilling.dfy` | billing of video tasks | `PollSettlesIff`, `RunConserves`, `LedgerBalances`, `UsersPayForWhatDidNotFail` |
| `BodyStorage.dfy` | request bodies in memory or on disk, and their counters | `Indistinguishable`, `CreationIsExact`, `CountersAreExact` |
| `BodyCounters.dfy` | the same counters under overlapping calls, one atomic access a step | `OverlapKeepsCountersExact`, `MaximumHolds`, `AloneStreams` |
| `EtagCache.dfy` | fetching with an ETag cache | `HistoryIsTransparent`, `TransparentIff`, `OverlapKeepsPairs` |
| `StepUp.dfy` | the step-up verification session | `CheckIsBacked`, `VerifyIff`, `FinishUsedOnce` |
| `CookieSessions.dfy` | the same session held in a client cookie | `CookieCheckIsBacked`, `ReuseNeedsResending` |
| `OggScan.dfy` | the Ogg page scan | `DurationOfFile`, `ScanCutFile`, `LargestIff` |
| `RedisHash.dfy` | structs as Redis hashes | `RoundTrip`, `IdentityIff` |
| `Text.dfy`, `Basics.dfy` | Go string functions, shared types | `SplitUndoesJoin`, `TrimTwice` |

Some properties the code suggests turn out false. For each there is a lemma with
the failing input and a lemma with the exact condition:

- Deleting the automatically disabled keys of a channel that has no other keys
  does not delete them: the save skips the empty key text, and all keys come back
  enabled (`WipeOutEnablesAll`; `ManagedRefinesIff`, and `RunRefinesIff` over runs).
- The limiter counts exactly only if the clean-up expiry is at least the duration
  minus one second, or no clean-up runs (`EarlyCleanUpOverGrants`; `ExactIff`,
  `UnsweptExactIff`).
- "Cheapest non-zero" is exact only up to 1e-9 (`DearerIsPicked`; `CheapestIff`).
- A channel that supplies the text "same" or null, or whose name occurs again
  later, can disagree without being reported (`MarkerIsLost`, `NullIsLost`,
  `TwinIsLost`; `ReportedIff`).
- Detecting again after applying everything can find new work when an added name
  has a comma or equals a stored pattern (`CommaIsFoundAgain`, `PatternIsDropped`;
  `FixedPointIff`).
- A name selected to be ignored that is written like a pattern it does not match is
  offered again (`IgnoredPatternIsOffered`; `OfferedAgainIff`).
- A video poll that charges a difference and then fails to store the task charges
  it again (`ChargedTwice`; `PollSettlesIff`).
- An empty read at the end of a body is answered differently from memory and from
  disk (`EmptyReadTellsThemApart`; `Indistinguishable`).
- A body longer than declared can push disk usage over the maximum
  (`OverlongStreamOverruns`; `WithinLimitIff`), and so can creations that overlap
  (`OverlappingCreationsOverrun`; `WithinMaximumIff`).
- Of two requests on one channel that read the same row, the one stored last undoes
  the other (`LastWriterWins`, `DeletedKeyComesBack`; `RowShowsOneLine`). A mark that
  overlaps a deletion lands on another key (`MarkLandsElsewhere`; `MarkFitsIff`).
- A client that sends a cookie twice can verify twice with one passkey ceremony
  (`ResendingReuses`; `ReuseNeedsResending`).
- A 200 without an ETag, and a tagged 200 cut off by the size limit, unpair tag and
  body, and a later 304 decodes the wrong body (`UntaggedAnswerGoesStale`,
  `CutOffAnswerGoesStale`; `StoreKeepsPairsIff`). A weak tag that stands for more than
  one body keeps them paired, but a 304 then decodes an equivalent body instead of the
  current one (`WeakMatchGoesStale`; `TransparentIff`). An empty tagged body makes a
  later 304 miss the cache (`EmptyAnswerIsMissed`; `MissesIff`).
- From Redis a pointer to an empty string comes back nil, a plain struct comes back
  zero, a deletion mark is lost, and a record without encoded fields is reported as
  absent (`EmptyPointerIsLost`, `StructIsLost`, `DeletionMarkIsLost`,
  `UnencodedIsAbsent`; `IdentityIff`).
- A second OpenRouter listing without a cache price keeps the first one's cache
  ratio (`CacheRatioOutlivesItsListing`; `StaleCacheIff`).

`dafny verify dfyconfig.toml` checks everything.

## Model

| member | source | states |
|---|---|---|
| `OrderLock.StepKeepsInv` | controller/topup.go:1157-1197 | every access of any caller keeps the invariant that ties each caller's position to the map entry, the owner and the reference count |
| `OrderLock.StepIsLocal` | controller/topup.go:1168-1197 | a step touches no other caller; only the last access of UnlockOrder ends a call |
| `OrderLock.RunKeepsInv` | controller/topup.go:1157-1197 | the invariant holds after every interleaving from an empty table |
| `OrderLock.MutualExclusion` | controller/topup.go:1168-1197 | at most one caller is between LockOrder and UnlockOrder for an order, no free mutex is ever unlocked, and UnlockOrder finds the mutex its caller locked |
| `OrderLock.CountsAreExact` | controller/topup.go:1157-1197 | a mapped mutex counts exactly the callers engaged with its order; the entry exists exactly while someone uses it or is inside createLock counting in or sweeping; with nobody in flight the table is empty |
| `OrderLock.NeverStuck` | controller/topup.go:1168-1197 | while a caller is in flight, some caller can move |
| `OrderLock.StepMakesProgress` | controller/topup.go:1168-1197 | every access of anyone brings the end of all calls nearer |
| `OrderLock.RunsAreFinite` | controller/topup.go:1168-1197 | without new callers a run takes at most as many accesses as its callers have before them |
| `OrderLock.StoppedMeansDone` | controller/topup.go:1168-1197 | a run that cannot go on has served everyone: nobody in flight, no table entry, createLock free |
| `Basics.Trunc` | controller/topup.go:1287-1289 | truncation toward zero, by its defining inequalities on both sides of zero |
| `TopUp.ActionKeepsInv` | controller/topup.go:1262-1297 | each lock step, database access or insertion keeps local copies current, logs exact and quota equal to opening quota plus credited orders |
| `TopUp.ActionKeepsTerminal` | controller/topup_stripe.go:231-255 | no action changes an order that has left pending, nor the user, amount or provider of any order |
| `TopUp.CreditedOnce` | controller/topup.go:1262-1297 | in every interleaving each order is credited at most once, only orders that were pending; there is one amount for each credit, the integer part of the order's amount times the quota per unit, and each user's quota grows by exactly the amounts of that user's credited orders; with nobody in flight every order marked paid was credited or had its quota write refused |
| `TopUp.WorthIsIntegerPart` | controller/topup.go:1287-1289 | an order is worth the integer part of amount times quota per unit, by inequalities on both sides of zero |
| `TopUp.EarningsArePaidOut` | controller/topup.go:1287-1290 | the ledger of quotas equals opening quotas plus one integer part per credited order of that user, and no other user changes |
| `TopUp.TerminalNeverSettles` | controller/topup.go:1262-1297 | an order already terminal is never marked paid in the rest of a run |
| `TopUp.TerminalForever` | controller/topup_stripe.go:231-255 | from any reachable state on, an order that has left pending is never written again |
| `TopUp.TerminalStatusIsFinal` | controller/topup_stripe.go:231-255 | the same for every run and every point in it |
| `Delivery.NothingRefused` | controller/topup.go:1280-1294 | when the accesses for an order succeed its credit is not refused and it stays creditable, whatever fails for other orders |
| `Delivery.CreditIff` | controller/topup.go:1285-1294 | the credit is made exactly when the write succeeds, the user exists and the worth does not truncate to a negative number; it adds the integer part of amount times unit to that user's quota alone, and otherwise no quota changes and the order is recorded as unpaid |
| `Delivery.CreditableIff` | controller/topup.go:1287-1290 | the worth is at least zero exactly when amount times unit is above -1 |
| `Delivery.ActionKeepsWorkFirst` | controller/topup.go:1262-1297 | nobody leaves the critical section before its work is done |
| `Delivery.ActionKeepsAnswered` | controller/topup.go:1262-1297 | once a callback of its own provider is on its way for a due order whose accesses succeed, every action of anyone leaves the order marked as that callback says or a callback for it on its way |
| `Delivery.PaidOrdersAreCredited` | controller/topup.go:1262-1297 | in every interleaving, after any faults, whenever a creditable Epay order is pending, from the start or inserted on the way: if from then on the accesses for it succeed and a success callback for it begins, then once nobody is in flight the order was credited, whatever fails for other orders |
| `Delivery.PaidMeansCredited` | controller/topup.go:1262-1297 | an order whose accesses all succeed is credited exactly when it is marked as paid, once nobody is in flight |
| `Delivery.InsertedIsDue` | controller/topup.go:1262-1297 | an Epay order inserted as pending stays pending or is marked as paid, in every run |
| `Delivery.RunsAreFinite` | controller/topup.go:1262-1297 | from any state on, the callers in flight take at most as many lock steps and database accesses as they have before them |
| `Delivery.StoppedMeansDone` | controller/topup.go:1262-1297 | when no caller in flight can move, there is none |
| `Delivery.StoppedRunHasCredited` | controller/topup.go:1262-1297 | a run that cannot go on has credited every creditable Epay order that was pending when a success callback for it arrived, if the accesses for it succeeded from then on |
| `Delivery.FailedPaymentsAreRecorded` | controller/topup_stripe.go:231-255 | in every interleaving, after any faults, whenever a Stripe order is pending: if from then on the accesses for it succeed and a failure event for it arrives, then once nobody is in flight the order is failed and was not credited |
| `Delivery.DealsStay` | controller/topup.go:1262-1297 | no run changes the user, amount or provider of an order |
| `RatioSync.FoundIff` | controller/ratio_sync.go:593-654 | the first pass holds (model, field) exactly when it should be included, with the entry built from the last channel of each name |
| `RatioSync.FlagsIff` | controller/ratio_sync.go:656-665 | a name is flagged exactly when some included entry shows a value of it |
| `RatioSync.CleanIff` | controller/ratio_sync.go:667-693 | an entry survives the clean-up exactly when something other than "same" is left, and then is the trimmed entry |
| `RatioSync.ReportedIff` | controller/ratio_sync.go:536-696 | for every input, (model, field) is reported exactly when some channel supplies a value that differs from the local one, by 1e-9 or more for numbers, and some listed name has not "same" to show for it; the entry lists exactly the names that show a value somewhere |
| `RatioSync.DisagreesIff` | controller/ratio_sync.go:48-62 | the comparison of the code is the comparison of the two prices themselves |
| `RatioSync.MarkStandsFor` | controller/ratio_sync.go:606-626 | the mark of a channel is its own price when it disagrees, "same" when it agrees or neither side has a price, and null when only this site has one |
| `RatioSync.TrustedIff` | controller/ratio_sync.go:570-583 | a channel is trusted for a model exactly unless it shows a model ratio of 37.5 with a completion ratio of 1, each within 1e-9 |
| `RatioSync.NeverOverReports` | controller/ratio_sync.go:536-696 | for every input, some channel supplies a different value for whatever is reported |
| `RatioSync.ReportIsExact` | controller/ratio_sync.go:536-696 | with distinct names and values other than null and "same", (model, field) is reported exactly when some channel supplies a value that differs from the local one; the entry shows the local price and lists exactly the channels that differ somewhere, each with its own price, "same" or null as it disagrees, agrees or has none, and with confidence exactly unless it shows the placeholder ratios |
| `RatioSync.CleanUpKeepsEntries` | controller/ratio_sync.go:667-693 | under the same conditions the clean-up deletes no entry |
| `RatioSync.MarkerIsLost` | controller/ratio_sync.go:605-665 | a channel that supplies the text "same" for a different local value disagrees and is not reported |
| `RatioSync.NullIsLost` | controller/ratio_sync.go:605-665 | a channel that supplies null beside a local price disagrees and is not reported |
| `RatioSync.TwinIsLost` | controller/ratio_sync.go:605-629 | a channel that disagrees is not reported when a later channel of the same name supplies nothing |
| `RatioSync.TwinHides` | controller/ratio_sync.go:605-629 | a later channel of the same name that has nothing to show (it agrees everywhere, supplies nothing, null or "same") hides whatever the earlier one supplies |
| `RatioSync.AddModels` | controller/ratio_sync.go:544-556 | the loop over the fields collects exactly the models priced in any field |
| `RatioSync.CollectModels` | controller/ratio_sync.go:542-556 | all models of this site and of all channels |
| `RatioSync.IsTrusted` | controller/ratio_sync.go:570-583 | the nested conditions compute the trust that `TrustedIff` describes |
| `RatioSync.BuildConfidence` | controller/ratio_sync.go:558-591 | for every name and model, the trust in the last channel of that name |
| `RatioSync.CompareChannel` | controller/ratio_sync.go:606-624 | the in-place assignments leave the mark that `MarkStandsFor` describes, and set one flag when the channel supplies a value and the other when that value counts as a difference |
| `RatioSync.CompareAll` | controller/ratio_sync.go:595-641 | one entry and whether to include it, over all channels |
| `RatioSync.FindAll` | controller/ratio_sync.go:593-654 | the report before the clean-up |
| `RatioSync.FlagAll` | controller/ratio_sync.go:656-665 | exactly the names shown with a value somewhere |
| `RatioSync.TrimItem` | controller/ratio_sync.go:669-682 | deletes exactly the unflagged names of an entry and says whether only "same" is left |
| `RatioSync.CleanUp` | controller/ratio_sync.go:667-693 | deleting while iterating yields the cleaned report |
| `RatioSync.BuildDifferences` | controller/ratio_sync.go:536-696 | the three passes together yield the report of `ReportedIff` and `ReportIsExact` |
| `PriceFeeds.SortedNames` | controller/ratio_sync.go:915-919 | the keys of a map, each once, in strictly increasing order |
| `PriceFeeds.CandidateIff` | controller/ratio_sync.go:845-879 | a cost becomes a candidate exactly when it has an input price of at least zero and some output ratio of at least zero expresses its output price; the candidate carries the prices unchanged, without a negative cache price |
| `PriceFeeds.PickStep` | controller/ratio_sync.go:881-893 | in name order a candidate takes over only by being the first non-zero one or at least 1e-9 cheaper |
| `PriceFeeds.PickIsNearlyCheapest` | controller/ratio_sync.go:881-943 | the pick is non-zero whenever a candidate is, and costs less than any non-zero candidate plus 1e-9 |
| `PriceFeeds.PickSettles` | controller/ratio_sync.go:921-944 | from the first cheapest candidate on the pick does not change |
| `PriceFeeds.CheapestIff` | controller/ratio_sync.go:881-943 | the minimum is picked exactly when what was picked before its first provider is absent, free or at least 1e-9 dearer; then it is that provider's candidate |
| `PriceFeeds.ClearBeforeIsReached` | controller/ratio_sync.go:881-943 | the minimum is picked whenever no earlier provider asks a non-zero price less than 1e-9 above it |
| `PriceFeeds.CheapestNonZero` | controller/ratio_sync.go:845-943 | for every feed and model: near-minimality, the first provider when all are free, and the exact minimum from the first such provider when distinct costs are 1e-9 apart |
| `PriceFeeds.DearerIsPicked` | controller/ratio_sync.go:888-893 | of two prices closer than 1e-9 the dearer is picked if its provider comes first |
| `PriceFeeds.AddProvider` | controller/ratio_sync.go:922-943 | one provider's models update the selection to the pick over one more provider |
| `PriceFeeds.Round6` | controller/ratio_sync.go:698-700 | rounding moves a value by at most 5e-7 |
| `PriceFeeds.SixDecimals` | controller/ratio_sync.go:698-700 | the rounded value is the nearest whole number of millionths, with halves away from zero |
| `PriceFeeds.RoundedRatiosRepresent` | controller/ratio_sync.go:776-783 | the product of the two rounded ratios differs from output price times unit by at most 5e-7 × (output/input + input × unit) + 2.5e-13 |
| `PriceFeeds.PricesComeBack` | controller/ratio_sync.go:954-972 | the published models.dev ratios give the picked candidate's output and cache prices back within that bound |
| `PriceFeeds.FeedPricesComeBack` | controller/ratio_sync.go:906-985 | for every feed and model the model ratio is half the picked input price within 5e-7, and the other ratios exist as the picked candidate has prices and give them back within that bound |
| `PriceFeeds.ConvertSelected` | controller/ratio_sync.go:950-972 | every selected model gets its candidate's ratios and no other model gets any |
| `PriceFeeds.ConvertModelsDevToRatioData` | controller/ratio_sync.go:906-985 | an empty feed is refused, and a non-empty one exactly when no model has a valid candidate; otherwise every model has the ratios of its pick, or none without candidates |
| `PriceFeeds.QuoteOf` | controller/ratio_sync.go:745-774 | a listing that is priced has a positive prompt price and a completion price of at least zero |
| `PriceFeeds.QuoteIff` | controller/ratio_sync.go:745-774 | a listing is priced exactly when its prompt price is above zero and its completion price at least zero, and free exactly when both are zero; an unparseable price counts as zero unless both are unparseable |
| `PriceFeeds.ConvertListing` | controller/ratio_sync.go:744-793 | one listing updates all three maps so that the last usable listing decides each model |
| `PriceFeeds.ConvertOpenRouterToRatioData` | controller/ratio_sync.go:724-808 | every model has the ratios of its last usable listing |
| `PriceFeeds.QuoteComesBack` | controller/ratio_sync.go:744-793 | the two ratios give the deciding listing's completion price back within the bound, and zero for a free one even beside a left-over completion ratio |
| `PriceFeeds.DeciderDecides` | controller/ratio_sync.go:744-793 | the last usable listing of a model decides its quote, and its cache price if it has one |
| `PriceFeeds.ListingComesBack` | controller/ratio_sync.go:744-793 | the published ratios give that listing's own prompt, completion and cache prices back within the bound at 500000 units a dollar, and zero for a free one |
| `PriceFeeds.UnlistedHasNoRatios` | controller/ratio_sync.go:744-793 | a model without a usable listing gets no ratio |
| `PriceFeeds.CacheComesBack` | controller/ratio_sync.go:785-792 | the cache price comes back within the bound when the deciding listing carries one |
| `PriceFeeds.StaleCacheIff` | controller/ratio_sync.go:785-792 | the published cache ratio is out of date exactly when a listing with a cache price is followed by a deciding listing without one |
| `PriceFeeds.CacheRatioOutlivesItsListing` | controller/ratio_sync.go:785-792 | in that case the cache ratio of the earlier listing stands beside the new model ratio |
| `UpstreamModels.NormalizeCleans` | controller/channel_upstream_update.go:97-102 | the trimmed non-empty names, each once; a clean list is left alone |
| `UpstreamModels.MergeClean` | controller/channel_upstream_update.go:104-118 | the first list, then the new names of the second |
| `UpstreamModels.SubtractClean` | controller/channel_upstream_update.go:120-129 | exactly the names not removed, in order |
| `UpstreamModels.IntersectClean` | controller/channel_upstream_update.go:131-140 | exactly the common names, in order |
| `UpstreamModels.ApplySelectedClean` | controller/channel_upstream_update.go:142-147 | the old list without the removed names, then the new names |
| `UpstreamModels.AddWins` | controller/channel_upstream_update.go:142-147 | for any three lists the result holds exactly the names to add, also those to remove, and the old names not to remove |
| `UpstreamModels.DetectFacts` | controller/channel_upstream_update.go:176-235 | exactly the upstream names that are neither local nor a redirect target nor ignored, and the local names that are neither aliases nor upstream |
| `UpstreamModels.IgnoresMeans` | controller/channel_upstream_update.go:214-220 | an entry starting with "regex:" ignores what the pattern behind it matches, any other entry the name it is |
| `UpstreamModels.SelectionPartitions` | controller/channel_upstream_update.go:783-831 | pending additions split into added, ignored and remaining, pending removals into removed and remaining |
| `UpstreamModels.SelectionEditsList` | controller/channel_upstream_update.go:783-831 | the new list is duplicate-free, keeps the old order, is old plus added minus removed, and touches no name that was not pending |
| `UpstreamModels.SelectionUpdatesSettings` | controller/channel_upstream_update.go:804-818 | the stored settings hold the remaining additions and removals, and an ignore list of exactly the names that were ignored or were pending and selected to be ignored, without those added |
| `UpstreamModels.SelectionIsReadBack` | controller/channel_upstream_update.go:804-809 | the stored text is read back as the new list unless an added name has a comma |
| `UpstreamModels.ListedIsOfferedIff` | controller/channel_upstream_update.go:176-235 | a name on the ignore list is detected exactly when it is upstream, not covered, written like a pattern that does not match it, and no other entry ignores it |
| `UpstreamModels.OfferedAgainIff` | controller/channel_upstream_update.go:811-818 | a name selected to be ignored and not added is on the stored list, and is detected again exactly in that case |
| `UpstreamModels.IgnoredPatternIsOffered` | controller/channel_upstream_update.go:811-818 | in particular when it is the only name ignored |
| `UpstreamModels.StoredFaithfully` | model/channel.go:289-294 | a clean list of names without commas is read back as it was joined |
| `UpstreamModels.FixedPointIff` | controller/channel_upstream_update.go:176-235 | after detecting and applying everything the next detect finds nothing exactly when no added name has a comma and no upstream name becomes un-ignored |
| `UpstreamModels.NoPatternAdded` | controller/channel_upstream_update.go:176-235 | the second condition holds when no added name is itself a stored pattern |
| `UpstreamModels.CommaIsFoundAgain` | controller/channel_upstream_update.go:176-235 | an added name with a comma is detected again |
| `UpstreamModels.DroppedPatternLetsIn` | controller/channel_upstream_update.go:811-814 | when an added name is a stored pattern, a name kept out by that pattern alone is detected next |
| `UpstreamModels.PatternIsDropped` | controller/channel_upstream_update.go:811-814 | in particular with no local models, a pattern that does not match its own text as the only ignore entry, and it and a name it matches upstream |
| `UpstreamModels.MergeModelNames` | controller/channel_upstream_update.go:104-118 | the loop with its set of seen names computes the merge |
| `UpstreamModels.SubtractModelNames` | controller/channel_upstream_update.go:120-129 | filtering by a set computes the difference |
| `UpstreamModels.IntersectModelNames` | controller/channel_upstream_update.go:131-140 | filtering by a set computes the intersection |
| `UpstreamModels.ApplySelectedModelChanges` | controller/channel_upstream_update.go:142-147 | the three list operations compute the result of `AddWins` |
| `UpstreamModels.CollectPendingUpstreamModelChanges` | controller/channel_upstream_update.go:176-235 | the loops over mapping and lists compute the detected changes |
| `UpstreamModels.Select` | controller/channel_upstream_update.go:783-822 | added, ignored and removed names, what remains, the new list and the new settings, as `SelectionPartitions`, `SelectionEditsList` and `SelectionUpdatesSettings` describe them |
| `UpstreamModels.Channel.UpdateSettings` | controller/channel_upstream_update.go:349-358 | the row gets the settings with the time of the check, and the models only when asked; a failed write leaves it alone |
| `UpstreamModels.Channel.ApplyUpstreamModelUpdates` | controller/channel_upstream_update.go:783-831 | channel, check time, row and the stored settings of `SelectionUpdatesSettings` after a selection, and what is returned, also when the write or the ability update fails |
| `Text.TrimTwice` | controller/channel_upstream_update.go:97-102 | trimming twice is trimming once |
| `Text.SplitUndoesJoin` | model/channel.go:289-294 | splitting a joined list of names without the separator gives the list back |
| `MultiKey.CompactedRefines` | controller/channel.go:1647-1794 | dropping keys and renumbering the three maps leaves every remaining key its own status, time and reason, in order, with all indexes in range |
| `MultiKey.ManagedRefinesIff` | controller/channel.go:1491-1794 | every stored action does to the indexed row what it does to one record per key, except deleting the automatically disabled keys when there are no others |
| `MultiKey.WipeOutEnablesAll` | model/channel.go:526-573 | in that case all keys stay and are enabled |
| `MultiKey.MarkRefines` | model/channel.go:641-691 | marking the used key by its first index marks that key's record |
| `MultiKey.MarkKeepsStatusHonest` | model/channel.go:641-704 | after a mark of a listed key the channel is automatically disabled when no key is enabled, else enabled by an enabling mark and otherwise left; a mark of an unlisted key sets the status only when there are no keys or the key is empty |
| `MultiKey.ChannelRecord.HandlerMultiKeyUpdate` | model/channel.go:641-691 | row and channel status after a mark, also for a channel without keys, an empty key and an unknown key |
| `MultiKey.ChannelRecord.HasEnabledMultiKey` | model/channel.go:693-704 | the loop finds an enabled key exactly when there is one |
| `MultiKey.RunRefinesIff` | controller/channel.go:1491-1794 | over every run of actions and marks, one after the other, the row refines the records exactly when that exception never occurs |
| `MultiKeyOverlap.WriteReplaces` | controller/channel.go:1345-1374 | a request written over any row, and a mark written over the key list it read, leave what the event makes of the row it read |
| `MultiKeyOverlap.MarkFitsIff` | model/channel.go:746-777 | what a mark writes keeps every key's record exactly when the stored key list is the one the mark read |
| `MultiKeyOverlap.RowShowsOneLine` | controller/channel.go:1345-1374 | in every interleaving of reads and writes of requests and marks in which no write wipes out and each mark finds the key list it read, the stored row is what one line of stored events makes of the first row and refines its records; the line holds all stored events in order exactly when none was written after another write since it read |
| `MultiKeyOverlap.WithoutDeletionsKeysAreSpared` | model/channel.go:746-777 | while nobody deletes keys, every interleaving meets those conditions |
| `MultiKeyOverlap.LastWriterWins` | controller/channel.go:1345-1374 | of two requests that read the same row the one stored last leaves the row as if the other had never been made |
| `MultiKeyOverlap.DeletedKeyComesBack` | controller/channel.go:1345-1374 | a key that was deleted, and gone from the stored row, comes back when another key was being disabled meanwhile |
| `MultiKeyOverlap.MarkLandsElsewhere` | model/channel.go:349-354 | a mark written after a deletion it did not see stays at its old index: the marked key has moved and carries another key's status, and the row refines no records |
| `MultiKey.Find` | model/channel.go:641-680 | the first index of a key, or -1 when absent |
| `MultiKey.ChannelRecord.DisableAll` | controller/channel.go:1600-1645 | the loop disables exactly the enabled keys, and refuses when there are none |
| `MultiKey.ChannelRecord.DropKey` | controller/channel.go:1647-1725 | the loop with its running index builds the compacted row, and refuses to empty it |
| `MultiKey.ChannelRecord.DropDisabled` | controller/channel.go:1727-1794 | the same for all automatically disabled keys |
| `MultiKey.ChannelRecord.Update` | model/channel.go:526-573 | the recount and the loop over the statuses store a row whose size is its key count, without statuses beyond it, and which never loses its last key; an empty key text is not written, a failed write changes nothing |
| `MultiKey.ChannelRecord.ManageMultiKeys` | controller/channel.go:1491-1794 | each action leaves the row the lemmas speak of, a refused or failed one leaves it alone, and an ability update that fails after the write is reported as an error |
| `MultiKey.GetKeyStatus` | controller/channel.go:1377-1489 | the page shown, the totals and the three counts over all keys; every entry on the page describes the key at its index by the row itself, has the wanted status, and indexes increase |
| `MultiKey.PagesCoverTheList` | controller/channel.go:1452-1473 | the pages one after the other are the filtered list |
| `MultiKey.ListIsExact` | controller/channel.go:1395-1450 | with any filter or none the list holds every key of the wanted status and no other, in order, each with its own index, status, time, reason and preview |
| `MultiKey.ShownDescribes` | controller/channel.go:1395-1450 | an entry has the key's status, 1 when none is stored; time and reason only when disabled; and a preview of ten characters and dots for a longer key |
| `MultiKey.CountIsListed` | controller/channel.go:1377-1450 | the count shown for a status is the number of keys listed under it |
| `MultiKey.AllAreListed` | controller/channel.go:1377-1450 | without a filter every key is listed at its own place |
| `RateLimit.RequestKeepsTrack` | common/rate-limit.go:45-70 | a request keeps the queue the latest part of the log of all grants, everything older being expired |
| `RateLimit.RequestIsExact` | common/rate-limit.go:45-70 | then the queue of N times answers as counting all live grants does |
| `RateLimit.HistoryTracks` | common/rate-limit.go:28-70 | over every history, clean-ups included |
| `RateLimit.WindowIsExact` | common/rate-limit.go:28-70 | a request is granted exactly when fewer than N grants of that key are younger than the duration |
| `RateLimit.EarlyCleanUpOverGrants` | common/rate-limit.go:28-43 | with a shorter expiry one grant too many is given |
| `RateLimit.ExactIff` | common/rate-limit.go:28-70 | the limiter is exact over all histories exactly when N is at least 1 and the expiry at least the duration minus 1 |
| `RateLimit.UnsweptExactIff` | common/rate-limit.go:14-26 | with a zero expiration, which starts no clean-up, it is exact exactly when N is at least 1 |
| `RateLimit.InMemoryRateLimiter.ClearExpiredItems` | common/rate-limit.go:28-43 | deletes exactly the keys whose latest grant is older than the expiry |
| `RateLimit.InMemoryRateLimiter.Request` | common/rate-limit.go:45-70 | the answer and the queues afterwards |
| `VideoBilling.PollSettlesIff` | controller/task_video.go:121-276 | a poll keeps the amount taken for a task equal to its quota, or zero once failed, exactly when it is safe; no other task is touched |
| `VideoBilling.PollConserves` | controller/task_video.go:121-276 | every poll, safe or not, keeps each user's quota plus what that user's tasks took |
| `VideoBilling.RunConserves` | controller/task_video.go:121-276 | over every run, whatever is polled and whichever writes fail, each user keeps quota plus what the tasks took |
| `VideoBilling.LedgerBalances` | controller/task_video.go:121-276 | over every run in which submissions charge at least zero, only unfinished tasks are polled, and task updates and refunds succeed, what was taken for a task is its quota, or zero once failed, even when re-billing writes fail |
| `VideoBilling.UsersPayForWhatDidNotFail` | controller/task_video.go:121-276 | from the first submission on, each user has paid exactly the quotas of the tasks that have not failed |
| `VideoBilling.PollingUnfinishedIsSafe` | controller/task_video.go:121-276 | polling unfinished tasks with task updates and refunds that succeed is safe even when re-billing writes fail |
| `VideoBilling.SuccessCostsByTokens` | controller/task_video.go:152-240 | a finished task that reports tokens, has a known group and a model with a positive ratio costs the integer part of tokens times ratios, the user's own group ratio first, whatever was charged at submission, if the write of the difference succeeds; otherwise it costs what was charged then; its stored quota is its cost |
| `VideoBilling.PollRecords` | controller/task_video.go:121-276 | a stored poll records the reported status, an empty one as a failure with its reason, its progress, the first start and finish times, and the address or the reason, but no inline data |
| `VideoBilling.UnknownStatusChangesNothing` | controller/task_video.go:258-260 | a status that is none of the five changes nothing |
| `VideoBilling.FailureGivesBack` | controller/task_video.go:241-276 | a failure, also an empty status, gives the quota of a task that had not failed back to its user |
| `VideoBilling.ChargedTwice` | controller/task_video.go:121-276 | a charge followed by a failed task update is charged again |
| `VideoBilling.TaskStore.MoveQuota` | controller/task_video.go:197-223 | moves quota between user and task, or nothing when the write fails |
| `VideoBilling.TaskStore.Rebill` | controller/task_video.go:152-240 | charges or returns the difference to the price by tokens; the task's quota follows only when the write succeeded |
| `VideoBilling.TaskStore.Mark` | controller/task_video.go:132-263 | status, progress, times and reason by reported status |
| `VideoBilling.TaskStore.UpdateVideoSingleTask` | controller/task_video.go:121-276 | tasks, balances and the ledger after a poll, also when writes fail or the status is unknown |
| `BodyStorage.StepsAgreeIff` | common/body_storage.go:47-230 | memory and disk with the same bytes stay alike and answer alike except for an empty read at the end; asking for all bytes moves neither |
| `BodyStorage.Indistinguishable` | common/body_storage.go:47-230 | over every sequence of operations the answers are equal exactly when no step reads into an empty buffer at the end |
| `BodyStorage.NonEmptyBuffersNeverDo` | common/body_storage.go:47-230 | sequences without empty buffers never do that |
| `BodyStorage.EmptyReadTellsThemApart` | common/body_storage.go:169-176 | an empty read after a seek to the end answers end of file from memory and nothing from disk |
| `BodyStorage.ReadsReassemble` | common/body_storage.go:47-63 | whatever the buffer sizes, reads return the body from the position on, in order |
| `BodyStorage.RewindReadsAll` | common/body_storage.go:47-63 | rewinding and reading enough returns the whole body |
| `BodyStorage.SeekMeans` | common/body_storage.go:56-63 | seeking from here or from the end is seeking from the start to the place meant; a place before the start is refused |
| `BodyStorage.ClosedStaysClosed` | common/body_storage.go:47-81 | after Close every operation but Close is refused and nothing changes |
| `BodyStorage.ShortFileIsRefused` | common/body_storage.go:198-230 | all bytes of a file are refused exactly when it is shorter than its recorded size, and the position is then left at its end |
| `BodyStorage.CreationIsExact` | common/body_storage.go:262-303 | without I/O errors creation succeeds exactly when the stream has at most maxBytes bytes and then holds all of it; otherwise no counter changes |
| `BodyStorage.DataGoesToDiskIff` | common/body_storage.go:241-260 | data goes to disk exactly when the cache is enabled, it reaches the threshold and fits, and its file can be written; it is all there and only the counters of that place move |
| `BodyStorage.StreamGoesToDiskIff` | common/body_storage.go:262-303 | which streams go to disk, by declared length or else by real size; one hit is counted for that place; a stream is refused, and nothing counted, exactly when it cannot be read, the disk it is sent to fails, or it is longer than the limit |
| `BodyStorage.EventKeepsCount` | common/disk_cache_config.go:108-134 | every call that overlaps no other keeps the four counters equal to the number and size of open storages |
| `BodyStorage.WithinLimitIff` | common/disk_cache_config.go:170-177 | a call stays within the disk maximum exactly when it does not stream a body longer than the room left |
| `BodyStorage.OverlongStreamOverruns` | common/body_storage.go:262-303 | a body one byte longer than the room its declared length fits exceeds the maximum by one |
| `BodyStorage.HonestStreamsFit` | common/body_storage.go:262-303 | a body no longer than declared never does |
| `BodyStorage.CountersAreExact` | common/body_storage.go:241-303 | over every run of such calls the counters are exact, and with honest lengths the maximum is never exceeded |
| `BodyCounters.AccessCounts` | common/disk_cache_config.go:108-134 | each single atomic access changes a counter exactly as it changes what the body weighs in it, and no counter comes out negative |
| `BodyCounters.CheckSendsToDiskIff` | common/disk_cache_config.go:170-177 | the loaded usage sends a body to disk exactly when the cache is enabled, its declared length reaches the threshold and fits beside that usage |
| `BodyCounters.AloneCreates` | common/body_storage.go:241-260 | run without interruption, the single accesses for data end as CreateBodyStorage does: same place, same counters |
| `BodyCounters.AloneStreams` | common/body_storage.go:262-303 | the same for a stream, refused streams included |
| `BodyCounters.AloneCloses` | common/body_storage.go:65-72 | the same for Close, also of a closed storage |
| `BodyCounters.ActionKeepsInv` | common/disk_cache_config.go:108-134 | every access of any call keeps each counter equal to the bodies between its addition and its subtraction |
| `BodyCounters.OverlapKeepsCountersExact` | common/body_storage.go:37-196 | in every interleaving of creations and closings no clamp ever fires, and whenever no call is in progress all four counters equal the number and size of the storages in use, however often each was closed |
| `BodyCounters.CommittedAfter` | common/disk_cache_config.go:170-177 | only a check that succeeds commits disk space, and then the real size of the body |
| `BodyCounters.WithinMaximumIff` | common/disk_cache_config.go:170-177 | an action stays within the maximum exactly when it commits nothing or fits beside what is counted and what is promised to other creations |
| `BodyCounters.MaximumHolds` | common/body_storage.go:241-303 | with creations one at a time and bodies no longer than declared, closings overlapping freely, neither the byte counter nor the bytes really in cache files ever exceed the maximum |
| `BodyCounters.OverlappingCreationsOverrun` | common/body_storage.go:241-259 | two creations checked before either is counted exceed it |
| `BodyStorage.MemoryStorage.constructor` | common/body_storage.go:37-45 | opens at the start and counts one buffer |
| `BodyStorage.MemoryStorage.ReadInto` | common/body_storage.go:47-54 | the next bytes, the end of the data, or refusal after Close |
| `BodyStorage.MemoryStorage.SeekTo` | common/body_storage.go:56-63 | the new position; a negative one is refused |
| `BodyStorage.MemoryStorage.AllBytes` | common/body_storage.go:74-81 | all bytes without moving |
| `BodyStorage.MemoryStorage.CloseStorage` | common/body_storage.go:65-72 | only the first Close gives the buffer back |
| `BodyStorage.DiskStorage.constructor` | common/body_storage.go:100-130 | holds the data, stands at the start and counts one file |
| `BodyStorage.DiskStorage.ReadInto` | common/body_storage.go:169-176 | the file's bytes; an empty buffer reads nothing, at the end too |
| `BodyStorage.DiskStorage.SeekTo` | common/body_storage.go:178-185 | the new file position; a negative one is refused |
| `BodyStorage.DiskStorage.AllBytes` | common/body_storage.go:198-230 | all bytes, with the position put back, unless the file is short |
| `BodyStorage.DiskStorage.CloseStorage` | common/body_storage.go:187-196 | only the first Close gives the file back |
| `BodyStorage.CreateBodyStorage` | common/body_storage.go:241-260 | disk when enabled, large enough and available, memory otherwise and when the file cannot be written |
| `BodyStorage.CreateBodyStorageFromReader` | common/body_storage.go:262-303 | which storage, which refusal and which counters, by declared length, limit and I/O outcome |
| `EtagCache.AttemptKeepsPairs` | controller/model_sync.go:142-226 | against a server that tags every non-empty body within the limit, weakly or not, an attempt keeps tag and body a pair issued together, never misses the cache and decodes a body issued under a tag that matches the current one |
| `EtagCache.AttemptIsTransparent` | controller/model_sync.go:142-226 | when matching tags mean one body, an attempt answers as without a cache |
| `EtagCache.FetchKeepsPairs` | controller/model_sync.go:133-235 | a fetch with its retries keeps the pair and a 304 never misses the cache, for weak tags of several bodies too |
| `EtagCache.FetchIsTransparent` | controller/model_sync.go:133-235 | when matching tags mean one body, a fetch with its retries answers as without a cache |
| `EtagCache.HistoryIsTransparent` | controller/model_sync.go:133-235 | after any fetches of any URLs the next one never misses the cache, and when matching tags mean one body it decodes the representation current when it was answered |
| `EtagCache.TransparentIff` | controller/model_sync.go:133-235 | against a tagging server fetching any two representations one after the other yields the second exactly when matching tags mean one body |
| `EtagCache.OverlapKeepsPairs` | controller/model_sync.go:133-235 | in every interleaving against a tagging server, weak tags of several bodies included, cached tag and body were issued together, decoded bodies were served for that URL, and a 304 never misses |
| `EtagCache.StoreKeepsPairsIff` | controller/model_sync.go:166-180 | against a server that issued the answer and whose matching tags mean one body, storing a 200 keeps the pair exactly when a tagged body fits the limit, or an untagged one meets no cached tag or equals the cached body |
| `EtagCache.UntaggedAnswerGoesStale` | controller/model_sync.go:166-180 | after an untagged 200 a later 304 decodes the wrong body |
| `EtagCache.CutOffAnswerGoesStale` | controller/model_sync.go:166-180 | a tagged body cut off by the limit is decoded again by every later 304 |
| `EtagCache.EmptyAnswerIsMissed` | controller/model_sync.go:199-207 | an empty tagged body makes a later 304 miss the cache |
| `EtagCache.MissesIff` | controller/model_sync.go:199-207 | a 304 misses exactly when the current representation is empty and a tag that matches it is cached |
| `EtagCache.WeakMatchGoesStale` | controller/model_sync.go:199-207 | a 304 by the weak comparison decodes the cached body even when the current one differs |
| `EtagCache.ModelCache.FetchJSON` | controller/model_sync.go:133-235 | the retry loop: both caches afterwards and the answer, for every outcome of every attempt |
| `StepUp.HistoryExplains` | controller/secure_verification.go:145-179 | when each request carries the session saved last, every stamp in it comes from an unused ceremony or from the verification in force |
| `StepUp.VerifyNeedsFinish` | controller/secure_verification.go:157-179 | when each request carries the session saved last, a passkey verification succeeds only by using up a marker less than 60 seconds old |
| `StepUp.VerifyIff` | controller/secure_verification.go:85-179 | a verification succeeds exactly with a right code of an admitted user with 2FA, or with a marker less than 60 seconds old of an admitted user with a passkey, once the stamp is saved; a refused request stamps nothing |
| `StepUp.CheckIff` | controller/passkey.go:569-586 | a check succeeds exactly with a stamp of that method less than 300 seconds old; a missing or older stamp is cleared |
| `StepUp.CheckIsBacked` | controller/passkey.go:569-586 | when each request carries the session saved last, a successful check follows, within 300 seconds, a verification with the same method and no ceremony since; a passkey one had used up a ceremony less than 60 seconds old, and a 2FA one came with a right code |
| `StepUp.FinishUsedOnce` | controller/passkey.go:487-503 | when each request carries the session saved last, of two passkey verifications the later used a ceremony stored after the earlier |
| `StepUp.CeremonyOpensTheDoor` | controller/secure_verification.go:85-179 | a ceremony, a verification and a check in time all succeed, and the same verification again does not |
| `StepUp.CodeOpensTheDoor` | controller/secure_verification.go:85-155 | a right code and a check in time succeed, and a ceremony in between makes the check fail |
| `CookieSessions.CookieExplainsReady` | main.go:180-188 | whatever cookies the client sends, a marker in a cookie comes from a ceremony on its ancestry that nothing on the way has used or replaced |
| `CookieSessions.CookieExplainsVerified` | main.go:180-188 | a verification in a cookie comes from one on its ancestry with no ceremony on the way |
| `CookieSessions.VerifyUsesFinish` | controller/secure_verification.go:157-179 | a passkey verification uses up a ceremony on the ancestry of its cookie less than 60 seconds old |
| `CookieSessions.CookieCheckIsBacked` | controller/passkey.go:569-586 | a successful check carries a cookie that a verification with the same method led to, less than 300 seconds earlier and with no ceremony on the way; a passkey one had used up a ceremony less than 60 seconds old, and a 2FA one came with a right code |
| `CookieSessions.ReuseNeedsResending` | controller/secure_verification.go:157-179 | one ceremony supports two verifications only if a cookie it led to was sent with two requests |
| `CookieSessions.ResendingReuses` | controller/secure_verification.go:157-179 | two verify requests in time with the same cookie that holds an unused marker both succeed and use the same ceremony |
| `CookieSessions.OldCookieStillOpens` | controller/passkey.go:569-586 | a check with the cookie of a verification succeeds in time whatever ceremonies other cookies have seen since |
| `StepUp.SessionStore.PasskeyVerifyFinish` | controller/passkey.go:487-503 | sets the marker and clears the verification, unless the save fails |
| `StepUp.SessionStore.ConsumePasskeyReady` | controller/secure_verification.go:157-179 | the marker is used up whether or not it was good, unless the save fails |
| `StepUp.SessionStore.SetSecureVerificationSession` | controller/secure_verification.go:145-155 | stamps time and method and clears the marker, unless the save fails |
| `StepUp.SessionStore.UniversalVerify` | controller/secure_verification.go:85-143 | the branches of the handler answer, and leave the session, as `VerifyIff` describes |
| `StepUp.SessionStore.RequireSecureVerificationMethod` | controller/passkey.go:569-586 | success exactly within the timeout and with the right method; an expired stamp is cleared |
| `OggScan.GetOpusDuration` | common/audio.go:196-254 | terminates on every byte sequence and returns the scan's granule position over 48000 |
| `OggScan.LookAt` | common/audio.go:207-249 | one turn of the loop: the running maximum and how far to move, or the end |
| `OggScan.PageSize` | common/audio.go:241-245 | the sum of a segment table |
| `OggScan.LittleEndianRoundTrip` | common/audio.go:228-229 | reading back a little-endian number of any width gives the number |
| `OggScan.ScanPages` | common/audio.go:196-254 | a concatenation of well-formed pages in front of any bytes moves the running maximum to the largest granule position and the scan to those bytes |
| `OggScan.ScanCutPage` | common/audio.go:207-249 | of a page that is cut off the granule position counts exactly when its 27 header bytes are there |
| `OggScan.ScanCutFile` | common/audio.go:196-254 | a file cut off anywhere yields the largest granule position of the pages whose 27 header bytes are there |
| `OggScan.ScanSkipsJunk` | common/audio.go:219-226 | bytes in front that start no capture pattern change nothing |
| `OggScan.LargestIff` | common/audio.go:228-232 | that value is the only upper bound of zero and all positions that is reached |
| `OggScan.DurationOfFile` | common/audio.go:196-254 | both together, for every file made of junk and pages |
| `RedisHash.RedisHSetObj` | common/redis.go:107-159 | the loop over the fields builds the hash |
| `RedisHash.RedisHGetObj` | common/redis.go:161-239 | the loop over the fields decodes the hash, stopping at the first field that fails; an empty hash is an absent key, and a plain struct field accepts any text and stays as it is |
| `RedisHash.DecimalRoundTrip` | common/redis.go:200-222 | decimal print and parse are inverse on 64-bit integers |
| `RedisHash.ParseIntIff` | common/redis.go:209-214 | a text parses exactly when it is an optional sign and one or more digits of a 64-bit integer, and then to that integer |
| `RedisHash.DecodeTakesEntries` | common/redis.go:187-236 | decoding any hash into any record, if it succeeds, changes exactly the fields the hash names, each to what its entry stands for |
| `RedisHash.RefusedEntry` | common/redis.go:194-236 | an entry that is refused leaves its field as it was, except that a nil pointer comes to point at the zero value |
| `RedisHash.EncodeHolds` | common/redis.go:107-159 | the hash holds exactly the entries of the fields that are not deletion marks |
| `RedisHash.RoundTrip` | common/redis.go:107-239 | storing and loading into a zero record succeeds exactly when some field is encoded and all kinds are supported, and returns every field, except a zero struct for a plain struct, nil for a pointer to something that prints as the empty text, and cleared deletion marks |
| `RedisHash.IdentityIff` | common/redis.go:107-239 | it is the identity exactly when some field is encoded, all kinds are supported, every struct is zero, no pointer leads to an empty text and no deletion mark is set |
| `RedisHash.EmptyPointerIsLost` | common/redis.go:195-203 | a pointer to the empty string comes back nil |
| `RedisHash.StructIsLost` | common/redis.go:221-231 | a plain struct is accepted and comes back zero |
| `RedisHash.DeletionMarkIsLost` | common/redis.go:122-125 | a deletion mark is cleared |
| `RedisHash.UnencodedIsAbsent` | common/redis.go:172-174 | a record that encodes no field is reported as absent |

## Left out

- The HTTP layer, request binding, JSON replies, logging and audit text.
- GORM, the Redis client and the file system, beyond "a failed write has no effect", "an update skips an empty key text" and "a cache file is written whole or not at all".
- Batched and cached quota writes: a quota write takes effect at once.
- Integer widths other than the 64-bit ones of the Ogg granule position and of the Redis decoder; quotas and counters are unbounded.
- IEEE floating-point effects, NaN and infinities: prices and ratios are real numbers.
- Other writers of top-up rows (admin completion, PromptPay approval, subscriptions): `TopUp` has the Epay and Stripe writers and the insertion of new orders.
- Other processes: the order lock works within one process, and so do the statements about it.
- Delivery.PaidOrdersAreCredited: speaks of an order with an existing user and a worth of at least zero whose own accesses succeed; `CreditedOnce` covers all orders and all runs.
- The submission of a video task is one step that charges its quota and inserts it (controller/relay.go:644-662).
- Fairness of the mutexes: while new callers keep arriving, a caller may wait; without new callers every call ends.
- Decoding of the price lists' JSON and the price text of OpenRouter: a price is a number or unparseable. Leaving out an empty ratio map in the converted result is not modelled; the map is empty instead.
- Price values that are JSON arrays or objects, on which Go's comparison panics, and conversion of integers to floats before comparing, which does nothing to decoded JSON.
- Splitting and joining key texts, and keys stored as a JSON array: a channel's keys are a list.
- MultiKey.ChannelRecord.Update: the read of the stored key text, needed only when the new one is empty, always succeeds. The reason and time stored for a whole channel are not modelled.
- RateLimit.ExactIff: a negative limit, on which the source panics at the first request of a key, is treated like zero.
- MultiKey.RunRefinesIff: requests and marks follow one another; `MultiKeyOverlap` has them overlap.
- Regular expressions: whether a pattern matches a name is a parameter.
- Scheduling of upstream checks, notification texts and the ability table.
- BodyStorage.CountersAreExact: calls do not overlap; `BodyCounters` has the statement for overlapping calls. In both nothing cleans, resets or synchronises the cache directory meanwhile, and the configuration is fixed. The hit counters are only in the sequential model.
- BodyStorage.EventKeepsCount: the same.
- EtagCache.HistoryIsTransparent: needs a server that sends an ETag on every 200 and non-empty bodies within the size limit, because the property is false otherwise; back-off times are not modelled.
- StepUp.CheckIsBacked: each request carries the session saved last; `CookieSessions` drops that.
- StepUp.FinishUsedOnce: the same, and the property is false without it.
- StepUp.HistoryExplains: the same.
- StepUp.VerifyNeedsFinish: the same.
- Overlapping requests of one session, TOTP and WebAuthn themselves, and the expiry of the cookie.
- OggScan.DurationOfFile: a read returns all available bytes up to its buffer size.
- Other audio formats.
- RedisHash.RoundTrip: named types with their own text form, and pointers to deletion marks, are not modelled; parsing of deletion times is a parameter, since the encoder never writes them.
- Midjourney polling, the relay's retry loop, OAuth logins, deployment and monitoring.
