# Verified models of the htmx runtime, the wallet and the light client

A Dafny project about the parts of the repository that keep state or transform text: the TypeScript htmx
runtime of the web front end, and the Go packages for the light client, the wallet, image optimization,
log collection and roles. `dafny verify dfyconfig.toml` checks all of it.

Code that changes objects, arrays or streams in place is modelled by classes and loops, each proved equal to
a function of the old state; the results are lemmas about those functions, over every input and every run.
Hashes, JSON, image encoders, selectors, storage quotas and verifiers are arbitrary functions: nothing is
assumed of SHA-256, and theorems about hashes end in "or here is a collision".

| file | what it models |
|---|---|
| TriggerTokens, TokenStream | the tokenizer of the trigger language and its consuming stream |
| TriggerFilter | event filters: bracket matching and the rewriting of names into lookups |
| TriggerParser, TriggerRoundTrip, TriggerTexts | the trigger parser with its cache, printing against parsing, particular texts |
| LightClient, LightClientText | Merkle inclusion proofs, header chains, fetching a range; what is hashed, written out |
| FetchTransport | the fetch-backed XMLHttpRequest as a state machine |
| RequestScheduler | lock and queue of a synchronization element over interleaved transports |
| RequestStrategies | what each strategy and queue option does with a request, over every run |
| RequestOrder, RequestPolicies | in which order its requests start; runs under one queue policy |
| RequestOvertaking | two ways out of these guarantees |
| RequestReinit | the same element when it may be initialized again while a request is in flight |
| RequestIndicators | counting of request indicators and disabled elements |
| IndicatorReinit | the same when an element may be initialized again while requests list it |
| DomSwap, DomStyles | the swap styles on a page of child lists, clean-up, dispatch; what each style leaves |
| UrlEncoding, FormData | URL encoding with a decoder, overriding, the live array proxy |
| HistoryCache | the history cache in session storage |
| ImageOptimizer | a pass over the images with its manifest, disk and totals |
| LogBuffer | the bounded log buffer and its listing |
| WalletGuard, WalletLedger | threshold approval; build, sign, submit, scan and status |
| WalletRecords | what is built, signed, filed and shown, field by field |
| Roles, RoleChanges | the role lattice, the bootstrap of the master admin, later role changes |
| Wrappers, Trimming | Option; trimming of texts |

## What turned out not to hold

The lemmas in parentheses name inputs for which a property fails, and say exactly when it does hold.

- `from:next`, `from:previous`, `from:closest` and `from:find` without a selector swallow the token that follows
  and read the next modifier as a selector (`BareKeywordSwallowsModifier`, `FromMeansItsWord`,
  `FromTakesItsOwnTokens`).
- A braced selector ends at its first closing brace or bracket, so `from:{a:not(b)}` does not listen on `a:not(b)`
  (`NotSelectorIsCut`, `BracedReadBackExactly`).
- A filter that is never closed swallows the rest of the text, and what stands behind the interval of an `every` trigger
  ends the text, both without a report (`UnclosedFilter`, `PollingEndsText`).
- Under the queue policy `all` a request can overtake waiting ones, and waiting ones can be left with a free
  lock: a dequeued request that gives up before it takes the lock dequeues nobody
  (`StrandedRun`, `OvertakingRun`, `OrderExactly`, `StrandedExactly`).
- An element that is initialized again forgets its lock and queue while a request may be in flight, and a second
  request can then be live beside it (`TwoLiveRun`, `OneLiveExactly`).
- Indicators and disabled elements share one counter, so an element in both roles can keep the request class for
  good (`MixedRolesRun`, `RequestIndicators.TidyExactly`).
- An element that is initialized again forgets its counter, and the first request to finish can then take the request
  class from another one that is live (`ShownNoMoreRun`, `ShownExactly`, `ForgottenFreeShows`).
- The URL encoding writes the value `[object Object]` like the same text in quotes (`ObjectTextCollides`,
  `RoundTripExactly`).
- Assigning beyond the end of a proxied array leaves holes that the form data does not have (`AssignKeepsAll`);
  deleting a slot through the proxy leaves its value in the form data until the next write
  (`DeleteDesyncsExactly`, `SyncedExactly`). Of two proxies of one name each overwrites what the other changed
  (`PushOverwritten`, `PairSyncedExactly`).
- A leaf hash that contains the separator is not bound by its proof, at any depth and in any position
  (`SeparatorMoves`); which accepted proofs bind their leaf is a property of the text hashed with it
  (`BoundExactly`). Sibling hashes may contain the separator (`ProofBinds`).
- A proof binds neither its depth nor the high bits of its index (`LevelDropped`, `IndexCountsModulo`).
- The hash of a tip determines a chain of hashed headers only if the first header has no separator in its parent hash
  or state root (`SeparatorMovesInHeader`, `TipBindsExactly`). Among headers that may name their own hash it determines
  none (`NamedTipRivals`), and such a header below the tip can carry any state root (`NamedHashHidesHeader`).
- A range is not always answered: its capacity is asked for before the first call, and a capacity above what a slice
  can have panics; a range that ends at the last 64-bit number and is allocated for (it starts near its end, or at
  zero, where the capacity wraps to zero) is fetched for ever unless the RPC fails (`AnsweredExactly`, `FetchStops`).
- Amount and fee may wrap in the budget check (`WrappedSumIsBuilt`, `BudgetHoldsExactly`), and a note listed several
  times pays several times (`RepeatedNoteIsBuilt`, `BudgetPerNoteExactly`).
- A note that is spent can be spent again by another transaction of its wallet (`NoteSpentTwice`, `SpentOnceExactly`).
- What was built is accepted unsigned (`UnsignedIsAccepted`), and resubmitting it unsigned erases the signature on file
  (`ResubmissionErasesSignature`, `StatusAfterRun`).
- A moderator, or a payment, can take the master admin's role (`ModeratorUnseats`, `PaymentUnseats`,
  `MastersAfterExactly`).
- A listing of the log is not always that of the whole history (`LongHistoryIsCut`, `ListingIsCompleteExactly`).

## Model

| member | source | states |
|---|---|---|
| TriggerTokens.TokenizeString | web/src/htmx/trigger-parser-runtime.ts:36-63 | the scanning loop yields the specified tokens for every text |
| TriggerTokens.TokensUnique | web/src/htmx/trigger-parser-runtime.ts:36-63 | lossless and unambiguous: the tokens are the one legal token list whose concatenation is the text, and the other way round |
| TriggerTokens.TokensNonEmpty | web/src/htmx/trigger-parser-runtime.ts:36-63 | no token is empty and there are no more than characters, unterminated literals and trailing backslashes included |
| TriggerTokens.TokenShape | web/src/htmx/trigger-parser-runtime.ts:29-63 | character by character: a word takes all letters and digits there are, a literal ends at its first quote behind an even number of backslashes or with the text, anything else is one character |
| TokenStreams.TokenStream.ConsumeUntil | web/src/htmx/trigger-parser-runtime.ts:78-88 | the loop returns the text of the tokens before the first match and leaves the rest |
| TokenStreams.TokenStream.ConsumeCSSSelector | web/src/htmx/trigger-parser-runtime.ts:90-101 | a braced selector is trimmed and its braces are dropped; another one ends at a space or comma |
| TokenStreams.NoTokenMatches | web/src/htmx/trigger-parser-runtime.ts:78-88 | consuming takes exactly a token list whose text has no character of the class, up to the first token that matches |
| TriggerFilter.MaybeGenerateConditional | web/src/htmx/trigger-parser-runtime.ts:104-145 | the loop consumes and generates what the filter scan says |
| TriggerFilter.FilterConsumesBlock | web/src/htmx/trigger-parser-runtime.ts:104-145 | a conditional is compiled exactly when the tokens start with a bracket-balanced block whose depth is positive until its last token; it takes that block and no more; an unclosed filter takes everything and yields nothing |
| TriggerFilter.FilterLooksUp | web/src/htmx/trigger-parser-runtime.ts:65-140 | in the source of a balanced filter exactly the names that are no literal, not `this`, not the event and not behind a dot are looked up, on the event and then on the window; every other token is copied |
| TriggerFilter.EraseUndoesRewriting | web/src/htmx/trigger-parser-runtime.ts:134-140 | folding every generated lookup back to its name in the rewritten text gives the filter text again |
| TriggerFilter.SourceDeterminesFilter | web/src/htmx/trigger-parser-runtime.ts:107-140 | two filters compile to one source exactly when they are the same text, or one is empty and the other is `true` |
| TriggerParsers.ModifierTakesFromFront | web/src/htmx/trigger-parser-runtime.ts:173-224 | each modifier leaves a proper suffix of the tokens, provided custom parsers take tokens from the front only |
| TriggerParsers.TriggerTakesFromFront | web/src/htmx/trigger-parser-runtime.ts:150-232 | each iteration of the outer loop leaves a suffix, and a proper one whenever there were tokens |
| TriggerParsers.TriggerParser.ParseOneModifier | web/src/htmx/trigger-parser-runtime.ts:174-222 | spec, remaining tokens and reported errors after one modifier |
| TriggerParsers.TriggerParser.ParseOneTrigger | web/src/htmx/trigger-parser-runtime.ts:153-226 | one trigger, polling or event, against the specified parser |
| TriggerParsers.TriggerParser.ParseAndCacheTrigger | web/src/htmx/trigger-parser-runtime.ts:147-238 | the whole loop yields the specified specifications and errors and caches exactly them |
| TriggerParsers.TriggerParser.GetTriggerSpecs | web/src/htmx/trigger-parser-runtime.ts:240-259 | a cached answer is that of a fresh parse, and a hit reports nothing and changes nothing |
| TriggerTexts.MatcherExactly | web/src/htmx/trigger-parser-runtime.ts:28-34 | the tokens that end each kind of run, by their characters |
| TriggerTexts.PlainName | web/src/htmx/trigger-parser-runtime.ts:147-238 | a text without white space, comma and bracket, other than `every`, is the event of that name |
| TriggerTexts.EmptyText | web/src/htmx/trigger-parser-runtime.ts:228-230 | an empty text is no trigger and is reported |
| TriggerTexts.LeadingComma | web/src/htmx/trigger-parser-runtime.ts:228-232 | a comma in front of a name is reported, and the name is not read |
| TriggerTexts.FilteredName | web/src/htmx/trigger-parser-runtime.ts:166-170 | a name with a filter gets the source piece by piece, or is reported and has no filter where the source does not compile |
| TriggerTexts.UnclosedFilter | web/src/htmx/trigger-parser-runtime.ts:104-145 | a bracket that is never closed takes the rest of the text, unreported |
| TriggerTexts.OtherWord | web/src/htmx/trigger-parser-runtime.ts:215-222 | a word that is no flag goes to its custom parser; without one, or declined, it is reported |
| TriggerTexts.OtherArgument | web/src/htmx/trigger-parser-runtime.ts:215-222 | of an unknown modifier with an argument the colon is reported and dropped, and the argument is read as a modifier |
| TriggerTexts.ArgumentMissing | web/src/htmx/trigger-parser-runtime.ts:181-222 | a modifier that lacks its colon is reported with the blank behind it, and the next one is read |
| TriggerTexts.CustomArgument | web/src/htmx/trigger-parser-runtime.ts:215-218 | a custom parser that accepts a modifier and takes its argument settles both |
| TriggerTexts.PollingEndsText | web/src/htmx/trigger-parser-runtime.ts:155-164 | what stands behind an interval and is no filter ends the text: neither it nor a later trigger is read or reported |
| TriggerRoundTrip.TokensOfPrint | web/src/htmx/trigger-parser-runtime.ts:36-63 | tokenizing a printed trigger list gives the tokens that were printed |
| TriggerRoundTrip.ParseOfPrint | web/src/htmx/trigger-parser-runtime.ts:147-238 | a printed non-empty list of canonical triggers, every modifier and filters included, parses without error to exactly its meanings |
| TriggerRoundTrip.SpecsRoundTrip | web/src/htmx/trigger-parser-runtime.ts:147-238 | writing any non-empty list of writable specifications and parsing the text gives that list |
| TriggerRoundTrip.BracedReadBackExactly | web/src/htmx/trigger-parser-runtime.ts:90-101 | a trimmed selector that leaves no literal open, written in braces, is read back with what follows left alone exactly when it has no closing brace or bracket inside |
| TriggerRoundTrip.NotSelectorIsCut | web/src/htmx/trigger-parser-runtime.ts:90-101 | `{a:not(b)}` is not read back as `a:not(b)`, whatever follows |
| TriggerRoundTrip.FromTakesItsOwnTokens | web/src/htmx/trigger-parser-runtime.ts:184-199 | a `from:` with a plain word takes exactly its own tokens if and only if the word is no bare relative keyword or nothing follows |
| TriggerRoundTrip.FromMeansItsWord | web/src/htmx/trigger-parser-runtime.ts:184-199 | it sets `from` to its word and leaves what is behind it, up to white space, if and only if the word is no bare relative keyword or only a blank, with no selector behind it, or nothing follows |
| TriggerRoundTrip.BareKeywordSwallowsModifier | web/src/htmx/trigger-parser-runtime.ts:190-197 | the family of texts `name from:keyword changed` that parse to something else than they say |
| LightClient.VerifyInclusionProof | pkg/lightclient/client.go:84-102 | the loop accepts exactly the non-empty hashes that climb to the root |
| LightClientText.AcceptedByLevels | pkg/lightclient/client.go:84-107 | accepted exactly when no text is empty and the levels lead from leaf to root: at level k the sibling goes behind where bit k of the index is zero, in front where it is one, with a separator between |
| LightClientText.DecimalReads | pkg/lightclient/client.go:72 | numbers are written in decimal without leading zeros |
| LightClientText.HexReads | pkg/lightclient/client.go:73-74 | digests are written as two lower-case hexadecimal digits for each byte |
| LightClient.ProofBinds | pkg/lightclient/client.go:84-107 | two accepted proofs of one root, depth and low index whose leaves are free of the separator agree on leaf and siblings, or the named level collides; the siblings are arbitrary |
| LightClient.TreePathAccepted | pkg/lightclient/client.go:84-107 | the path read off any full tree is accepted for every leaf, under its number from the left |
| LightClient.LeafAtIndex | pkg/lightclient/client.go:93-99 | the bits of the index, modulo two to the depth, lead to the leaf with that number |
| LightClient.TreeBinds | pkg/lightclient/client.go:84-107 | what is accepted at the depth of a full tree is its leaf at that index with its path, or the proof exhibits a collision |
| LightClient.IndexCountsModulo | pkg/lightclient/client.go:89-99 | indexes equal modulo two to the depth are accepted alike |
| LightClient.LevelDropped | pkg/lightclient/client.go:88-101 | a proof is accepted exactly when its upper part is, as a proof of the inner node |
| LightClient.SeparatorMoves | pkg/lightclient/client.go:88-107 | for every accepted proof of any depth and parity whose leaf has a separator inside, another leaf is accepted for the same root, depth and index without a collision |
| LightClient.BoundExactly | pkg/lightclient/client.go:84-107 | an accepted proof binds its leaf and siblings, up to exhibited collisions, exactly when the text hashed with the leaf splits at one inner separator only |
| LightClient.VerifyHeaderChain | pkg/lightclient/client.go:50-66 | accepts exactly the lists whose numbers count up and whose parent hashes fit; an error names the first link that does not, its number first |
| LightClient.ChainCountsUp | pkg/lightclient/client.go:50-75 | a list is a chain exactly when its numbers count up from the first, modulo two to the 64, and each header names the hash of the one before: the hash that one names, or the digest of its three fields |
| LightClient.ChainsJoin | pkg/lightclient/client.go:50-66 | a concatenation is a chain exactly when both parts are and the seam is linked |
| LightClient.TipDeterminesChain | pkg/lightclient/client.go:50-75 | of two hashed chains whose tips hash alike the shorter is the end of the other, or the highest fork is a collision; no separator in its first parent hash, nor, where they are equally long, in its state root or else the other's first parent hash |
| LightClient.TipBindsExactly | pkg/lightclient/client.go:50-75 | among all equally long hashed chains the tip hash determines a chain, up to exhibited collisions, exactly when its first header has no separator in parent hash and state root |
| LightClient.SeparatorMovesInHeader | pkg/lightclient/client.go:68-75 | otherwise the first header with its payload split elsewhere starts another chain below the same tip, without a collision |
| LightClient.NamedHashHidesHeader | pkg/lightclient/client.go:50-75 | a header below the tip that names its hash can carry any state root, and the list stays a chain with the same tip hash |
| LightClient.NamedTipRivals | pkg/lightclient/client.go:68-75 | beside every hashed chain there is an equally long one with the same tip hash whose tip names it, without a collision |
| LightClient.FetchRange | pkg/lightclient/client.go:32-48 | for every fetch that comes to an end: the empty range, the capacity panic, the first failing call, the headers, or a broken chain, each with its condition |
| LightClient.FetchStops | pkg/lightclient/client.go:32-48 | a fetch runs for ever exactly when its capacity is granted, it reaches the last 64-bit number and no call fails |
| LightClient.AnsweredExactly | pkg/lightclient/client.go:32-43 | a range is answered, with headers or an error, exactly when it is empty, or its capacity is within the limit and it stops short of the last number or some call fails |
| FetchTransport.Protocol | web/src/htmx/fetch-transport.ts:32-133 | over every interleaving: one loadstart, then exactly one outcome and one loadend once settled; which outcome, in terms of what happened |
| FetchTransport.CancelledExactly | web/src/htmx/fetch-transport.ts:59-79 | over every interleaving the request on the wire is cancelled exactly when program or timer ask for it after `send`, and the timer is armed exactly while one sent with a positive timeout is in flight |
| FetchTransport.FetchBackedXMLHttpRequest.Send | web/src/htmx/fetch-transport.ts:64-74 | the state after `send` up to its first await |
| FetchTransport.FetchBackedXMLHttpRequest.OnText | web/src/htmx/fetch-transport.ts:84-93 | load, then loadend, and the timer cleared |
| FetchTransport.FetchBackedXMLHttpRequest.OnRejected | web/src/htmx/fetch-transport.ts:94-114 | timeout, abort or error by the two flags, then loadend, and the timer cleared |
| FetchTransport.FetchBackedXMLHttpRequest.Abort | web/src/htmx/fetch-transport.ts:59-62 | an abort marks and signals and dispatches nothing |
| RequestScheduler.SyncElement.IssueAjaxRequest | web/src/htmx.ts:2954-3025 | strategy, abort of the holder, queue policy and lock: the whole new state of the element |
| RequestScheduler.SyncElement.EndLock | web/src/htmx.ts:3026-3033 | the release and the re-entry of the dequeued request |
| RequestScheduler.LockSafety | web/src/htmx.ts:2954-3033 | over every run of issues, vetoes and transport steps: who took the lock is, in order, who gave it back and the holder, and a request is live exactly while it holds the lock |
| RequestScheduler.IssuedOnce | web/src/htmx.ts:2954-3033 | every issued request is in exactly one place, once: started, waiting or discarded |
| RequestScheduler.TransportedNext | web/src/htmx.ts:3183-3239 | a step of a transport releases the lock exactly when it settles the request, and then once |
| RequestStrategies.StartsExactly | web/src/htmx.ts:2954-3025 | in any reachable state, a request takes the lock at once exactly when it is free, or held by one issued with abort and its own strategy is another |
| RequestStrategies.DiscardedAtOnce | web/src/htmx.ts:2968-2978 | where it does not start, one with drop or abort is discarded, and lock, queue and transports stay |
| RequestStrategies.AbortedExactly | web/src/htmx.ts:2979-2989 | the holder is told to abort exactly by a request with replace or one that takes the lock over, and nobody else is |
| RequestStrategies.WaitsExactly | web/src/htmx.ts:2980-3024 | which queue any other strategy and option leave: `last` by default, `all`, `first`, or none |
| RequestStrategies.WaitingExactly | web/src/htmx.ts:2954-3033 | in every run no waiting request has drop or abort, each stands as issued, and the lock is abortable exactly while its holder was issued with abort |
| RequestStrategies.EndsExactly | web/src/htmx.ts:3026-3033 | the first waiting request gets the lock exactly when one is vetoed or settles, or is discarded if it gives up |
| RequestOrder.OrderExactly | web/src/htmx.ts:2986-3033 | requests start in issue order throughout a run exactly when none is issued to a free lock while others wait |
| RequestOrder.StrandedExactly | web/src/htmx.ts:3026-3033 | the lock becomes free with requests waiting exactly when a dequeued request gives up with more behind it |
| RequestOrder.StartsInIssueOrder | web/src/htmx.ts:2986-3033 | where nobody gives up late, nobody is stranded and the order is kept |
| RequestPolicies.OnePolicyQueue | web/src/htmx.ts:3001-3021 | under `last`, `first` and `none` alone: at most one waits, the latest, the earliest, or nobody |
| RequestPolicies.AllPolicyStartsAll | web/src/htmx.ts:3010-3013 | under `all` alone, with nobody giving up, every request starts in issue order and none is discarded |
| RequestOvertaking.StrandedRun | web/src/htmx.ts:3026-3033 | a run under `all` that ends with a free lock and a request waiting for it |
| RequestOvertaking.OvertakingRun | web/src/htmx.ts:3026-3033 | a run under `all` in which a later request starts before a waiting one |
| RequestOvertaking.AbortableIsOvertaken | web/src/htmx.ts:2986-2990 | with the strategy named abort, a holder still in flight loses the lock to any request without that strategy, and to no other |
| RequestReinit.OneLiveExactly | web/src/htmx.ts:1499-1513 | where the element may be initialized again, at most one of its requests is live throughout a run exactly when none is issued while one whose lock was forgotten is live |
| RequestReinit.TwoLiveRun | web/src/htmx.ts:1499-1513 | a run of issuing, sending, initializing again and issuing ends with two live requests |
| RequestIndicators.Document.AddRequestIndicatorClasses | web/src/htmx.ts:2328-2339 | counts and classes after a start |
| RequestIndicators.Document.DisableElements | web/src/htmx.ts:2341-2355 | counts, attributes and marks after a start |
| RequestIndicators.Document.RemoveRequestIndicators | web/src/htmx.ts:2357-2375 | counts, classes, attributes and marks after a finish |
| RequestIndicators.RunKeeps | web/src/htmx.ts:2328-2375 | over every interleaving a count is the summed multiplicity of the element's roles in live requests, and what a live request lists is shown |
| RequestIndicators.FinishSpares | web/src/htmx.ts:2357-2375 | a finish changes nothing on an element that another live request lists, in whatever role |
| RequestIndicators.TidyExactly | web/src/htmx.ts:2357-2375 | for each element: class and mark are gone whenever no live request lists it, throughout a run, exactly when no finish is its last listing in the wrong role |
| RequestIndicators.SingleRoleNeverLeaks | web/src/htmx.ts:2357-2375 | nothing is left behind on an element that plays one role, whatever roles other elements play |
| RequestIndicators.OneRoleExactly | web/src/htmx.ts:2328-2375 | such an element carries the class exactly while a live request shows it, and is disabled exactly while one disables it or if the page did |
| RequestIndicators.MarkedExactly | web/src/htmx.ts:2347-2353 | over every run what the page has disabled itself stays so and unmarked; anything else is disabled exactly while marked |
| RequestIndicators.MixedRolesRun | web/src/htmx.ts:2357-2375 | a run that leaves the request class behind |
| IndicatorReinit.ForgottenFreeShows | web/src/htmx.ts:1499-1513 | where an element is initialized again only while no live request lists it, its count is right and every live request finds it shown and disabled throughout, whatever happens to others |
| IndicatorReinit.ShownExactly | web/src/htmx.ts:2357-2375 | where it may be initialized again at any time, every live request finds it so throughout a run exactly when no finish that leaves its counter at zero takes class or attribute from it while another live request needs that |
| IndicatorReinit.TidyExactly | web/src/htmx.ts:2357-2375 | and there too class and mark are gone whenever no live request lists the element, exactly when no finish is its last listing in the wrong role |
| IndicatorReinit.ShownNoMoreRun | web/src/htmx.ts:1499-1513 | two starts, initializing again and one finish leave a live request without the class on its element |
| DomSwap.Document.InsertNodesBefore | web/src/htmx.ts:1450-1460 | the loop is the splice of all fragment children before the reference; the fragment is empty, load tasks are those of the non-text nodes |
| DomSwap.Document.CleanUpElement | web/src/htmx.ts:1515-1519 | the recursion cleans up the element subtree in order |
| DomSwap.Document.SwapOuterHTML | web/src/htmx/swap-runtime.ts:66-91 | the walk is the splice of the fragment for the target, with the settle elements it collects and what it cleans up; body and detached targets as the code has them |
| DomSwap.Document.SwapInnerHTML | web/src/htmx/swap-runtime.ts:117-128 | the children are exactly the fragment's; the old ones are removed and cleaned up in the order of the loop |
| DomSwap.Document.SwapAfterBegin | web/src/htmx/swap-runtime.ts:93-95 | splice at the first position |
| DomSwap.Document.SwapBeforeEnd | web/src/htmx/swap-runtime.ts:101-103 | splice at the last position |
| DomSwap.Document.SwapBeforeBegin | web/src/htmx/swap-runtime.ts:97-99 | splice before the target, or the failure without a parent |
| DomSwap.Document.SwapAfterEnd | web/src/htmx/swap-runtime.ts:105-107 | splice behind the target, or the failure without a parent |
| DomSwap.Document.SwapDelete | web/src/htmx/swap-runtime.ts:109-115 | the subtree is cleaned up and the target leaves its list, if it has a parent |
| DomSwap.Document.SwapWithStyle | web/src/htmx/swap-runtime.ts:130-190 | the dispatch with its fallback reaches the style the run of the dispatch says, and the page is that style's |
| DomStyles.StyleChosen | web/src/htmx/swap-runtime.ts:130-190 | seven styles are what they are called whoever handles them; the others are handed over first, then `innerHTML`, then the default style |
| DomStyles.InsideTarget | web/src/htmx/swap-runtime.ts:93-128 | `none`, `afterbegin`, `beforeend`, inner swaps and outer ones of the body: the children of the target |
| DomStyles.BesideTarget | web/src/htmx/swap-runtime.ts:66-115 | `beforebegin`, `afterend`, `outerHTML`, `delete`: the children of the parent |
| DomStyles.NothingBeside | web/src/htmx/swap-runtime.ts:66-115 | the same styles without an element above the target |
| DomStyles.FragmentIsEmpty | web/src/htmx/swap-runtime.ts:66-128 | the fragment is empty after every style that inserts |
| DomStyles.ElsewhereSame | web/src/htmx/swap-runtime.ts:66-128 | no other child list changes |
| DomStyles.StyleCleansExactly | web/src/htmx/swap-runtime.ts:66-128 | a style cleans up exactly, and once, what a path of element children leads to from a node that goes |
| DomStyles.StyleLoads | web/src/htmx.ts:1450-1460 | the inserted nodes but texts and comments get load tasks, in order |
| DomStyles.StyleSettles | web/src/htmx/swap-runtime.ts:77-85 | after an outer swap the new elements settle instead of the target |
| DomSwap.OuterLosesOnlyTarget | web/src/htmx/swap-runtime.ts:66-91 | every node but the target keeps a parent: its old one or, if it came with the fragment, the target's |
| DomSwap.InnerLosesOnlyChildren | web/src/htmx/swap-runtime.ts:117-128 | exactly the old children leave the page |
| DomSwap.CleanedExactly | web/src/htmx.ts:1515-1519 | a node is cleaned up exactly when a path of element children leads to it |
| DomSwap.CleanedOnce | web/src/htmx.ts:1515-1519 | no node of a subtree is cleaned up twice |
| DomSwap.SiblingsDisjoint | web/src/htmx.ts:1515-1519 | the subtrees of two siblings share no node |
| DomSwap.DispatchEnds | web/src/htmx/swap-runtime.ts:152-187 | the recursion over styles ends exactly when the style or the default style is known |
| DomSwap.DispatchEndsByDefault | web/src/htmx/swap-runtime.ts:183-187 | with a built-in default style every dispatch ends after at most two tries |
| UrlEncoding.DecodeOfEncode | web/src/htmx/form-data-utils.ts:13-14 | percent-encoding of UTF-8 (section 2.1 of RFC 3986, section 19.2.6.4 of ECMA-262) is undone by its decoder, for every text |
| UrlEncoding.CopiedExactly | web/src/htmx/form-data-utils.ts:13-14 | letters, digits and nine marks are left as they are, and no other character is |
| UrlEncoding.AppendParam | web/src/htmx/form-data-utils.ts:6-16 | one more parameter on the text so far |
| UrlEncoding.UrlEncodeAll | web/src/htmx/form-data-utils.ts:36-43 | the accumulating loop is the encoding of the entry list |
| UrlEncoding.DecodeOfUrlEncode | web/src/htmx/form-data-utils.ts:36-43 | the encoded list is read back as the entries it writes |
| UrlEncoding.UrlEncodeInjective | web/src/htmx/form-data-utils.ts:36-43 | two lists are encoded alike exactly when they write the same entries |
| UrlEncoding.RoundTripExactly | web/src/htmx/form-data-utils.ts:6-43 | a list is read back unchanged exactly when no value is `[object Object]` |
| UrlEncoding.ObjectTextCollides | web/src/htmx/form-data-utils.ts:10-12 | two different lists with one encoding |
| FormDataUtils.OverrideFormData | web/src/htmx.ts:2492-2500 | the two loops give the receiver's entries under other names, then the donor's |
| FormDataUtils.OverrideGetAll | web/src/htmx.ts:2492-2500 | a reader sees the donor's values where it has the name, else the receiver's |
| FormDataUtils.OutsideAppend | web/src/htmx.ts:2492-2500 | the receiver's entries that stay keep their order |
| FormDataUtils.ArrayProxy.Push | web/src/htmx/form-data-utils.ts:50-55 | array and entries after a push through the proxy |
| FormDataUtils.ArrayProxy.SetIndex | web/src/htmx/form-data-utils.ts:72-77 | array and entries after an assignment, holes included |
| FormDataUtils.ArrayProxy.Call | web/src/htmx/form-data-utils.ts:56-63 | array and entries after any other method of the array |
| FormDataUtils.ArrayProxy.Delete | web/src/htmx/form-data-utils.ts:45-78 | a deletion through the proxy, which has no trap for it: a hole in the array, the entries as they were |
| FormDataUtils.SyncedExactly | web/src/htmx/form-data-utils.ts:45-79 | after any uses the values under the name are those of the array in order exactly when no value was deleted since the last write; other entries are as they were |
| FormDataUtils.PairSyncedExactly | web/src/htmx/form-data-utils.ts:45-79 | two live proxies of one name stay in step with the entries throughout exactly when neither is used to change a value |
| FormDataUtils.PushOverwritten | web/src/htmx/form-data-utils.ts:50-63 | what one proxy pushed is gone once the other, unchanged, is written back |
| FormDataUtils.DeleteDesyncsExactly | web/src/htmx/form-data-utils.ts:45-78 | one deletion puts the entries out of step exactly when it hits a value |
| FormDataUtils.AssignKeepsAll | web/src/htmx/form-data-utils.ts:72-77 | an assignment keeps as many values as slots exactly when the index is not beyond the end |
| HistoryCache.HistoryRuntime.SaveToHistoryCache | web/src/htmx/history-runtime.ts:65-108 | the loops store what the specification of a save says |
| HistoryCache.HistoryRuntime.GetCachedHistory | web/src/htmx/history-runtime.ts:110-125 | the loop finds the first item for the path |
| HistoryCache.StoreIsSuffix | web/src/htmx/history-runtime.ts:99-107 | a quota failure leaves the longest suffix that fits, or storage as it was |
| HistoryCache.SavedIsFound | web/src/htmx/history-runtime.ts:65-125 | after a save that found room the lookup returns that snapshot; without room nothing changes |
| HistoryCache.LookupExactly | web/src/htmx/history-runtime.ts:110-125 | a lookup finds the first item for the path, and nothing exactly when there is none |
| HistoryCache.FoundIsLatest | web/src/htmx/history-runtime.ts:65-125 | over every run a lookup finds the last snapshot of the path that found room, or nothing |
| HistoryCache.CacheIsLatest | web/src/htmx/history-runtime.ts:65-108 | while there is room the cache is the latest snapshots of the most recently saved paths, in the order of their last save |
| HistoryCache.RunKeeps | web/src/htmx/history-runtime.ts:65-108 | over every run, with any sizes and failures: the cache is the end of the list of latest snapshots, in the order of their last save, among those that found room since it was last cleared; distinct paths, bounded length, empty only if there are none |
| ImageOptimizer.FileTree.VisitFile | internal/infrastructure/imageopt/optimizer.go:128-215 | entries, totals, disk and log after one file, for every branch |
| ImageOptimizer.FileTree.Optimize | internal/infrastructure/imageopt/optimizer.go:68-232 | the outcome of a pass in every mode, interrupted ones included |
| ImageOptimizer.CountsAddUp | internal/infrastructure/imageopt/optimizer.go:137-214 | one result for each file, and the three counters count them |
| ImageOptimizer.BytesAddUp | internal/infrastructure/imageopt/optimizer.go:153-210 | bytes before and after are the on-disk totals of the files read, and never grow |
| ImageOptimizer.FileOutcome | internal/infrastructure/imageopt/optimizer.go:128-215 | over a whole pass, for each file: the shorter encoding is on disk and counted with both sizes, or the file is as it was, with the result that its reading, manifest entry, encoding or writing calls for |
| ImageOptimizer.WritesExactly | internal/infrastructure/imageopt/optimizer.go:184-208 | a pass writes exactly the files with a shorter encoding that may be written and that the manifest does not have |
| ImageOptimizer.ScannedExactly | internal/infrastructure/imageopt/optimizer.go:128-137 | all files but those without information are counted as scanned |
| ImageOptimizer.PassTouches | internal/infrastructure/imageopt/optimizer.go:185-187 | no file but the given ones is touched and none gets longer |
| ImageOptimizer.EntriesMatchDisk | internal/infrastructure/imageopt/optimizer.go:156-214 | after a pass there is an entry exactly for each file that was read, the fingerprint of what is on disk |
| ImageOptimizer.SecondPassRests | internal/infrastructure/imageopt/optimizer.go:162-172 | a second pass in changed mode writes nothing, fails nowhere, skips every file and keeps the entries, for any encoder |
| LogBuffers.LogBuffer.IngestLog | internal/infrastructure/http/handlers/orchestrator_handler.go:77-93 | both slices after one message, trimmed alike |
| LogBuffers.BufferIsSuffix | internal/infrastructure/http/handlers/orchestrator_handler.go:84-90 | after any number of messages the buffer holds the last thousand in order |
| LogBuffers.ReverseRawMessages | internal/infrastructure/http/handlers/orchestrator_handler.go:160-164 | the in-place swaps reverse |
| LogBuffers.LogBuffer.ListLogs | internal/infrastructure/http/handlers/orchestrator_handler.go:95-158 | the parameter errors, and else the last `limit` of the messages kept |
| LogBuffers.QueryExactly | internal/infrastructure/http/handlers/orchestrator_handler.go:100-118 | which parameters are errors, and what the others mean: a limit over a thousand counts as a thousand |
| LogBuffers.ListedExactly | internal/infrastructure/http/handlers/orchestrator_handler.go:77-158 | after any run a listing is the end of what is kept of the last thousand messages |
| LogBuffers.LogBuffer.ScanBackward | internal/infrastructure/http/handlers/orchestrator_handler.go:136-145 | the backward scan with early stop and reversal is the end of the forward filter |
| LogBuffers.LogBuffer.ScanForward | internal/infrastructure/http/handlers/orchestrator_handler.go:146-155 | the forward scan is the filter |
| LogBuffers.KeptMembers | internal/infrastructure/http/handlers/orchestrator_handler.go:139-141 | the filter keeps every occurrence of a message that has no time stamp or one not before `since`, and no other |
| LogBuffers.ListingIsCompleteExactly | internal/infrastructure/http/handlers/orchestrator_handler.go:77-158 | after any run a listing is that of all messages ever exactly when trimming lost no kept one or enough are left |
| LogBuffers.LongHistoryIsCut | internal/infrastructure/http/handlers/orchestrator_handler.go:84-118 | of more than a thousand messages a listing without a limit is not all |
| WalletGuard.Guard.Approval | pkg/walletguard/guard.go:65-85 | approved exactly when enough distinct registered factors have a verifying first assertion |
| WalletGuard.Guard.Authorize | pkg/walletguard/guard.go:45-50 | the intent check, then approval |
| WalletGuard.Guard.AuthorizeRecovery | pkg/walletguard/guard.go:52-63 | both lists approved on their own |
| WalletGuard.AppendingKeeps | pkg/walletguard/guard.go:65-85 | appending assertions never takes an approval back |
| WalletGuard.RepeatsDoNotMatter | pkg/walletguard/guard.go:68-72 | later assertions of a factor change nothing |
| WalletGuard.OrderDoesNotMatter | pkg/walletguard/guard.go:65-85 | lists with one assertion for each factor are order-independent |
| WalletGuard.FirstDecides | pkg/walletguard/guard.go:65-85 | an assertion put first decides for its factor alone |
| WalletGuard.TooFewFactors | pkg/walletguard/guard.go:65-85 | fewer satisfiable factors than the threshold never suffice |
| WalletGuard.ReachableExactly | pkg/walletguard/guard.go:65-85 | some list of assertions is approved exactly when as many registered factors as the threshold can be satisfied |
| WalletLedger.BudgetHoldsExactly | internal/application/o2ul_wallet_service.go:175-205 | what is built spends at most sixteen for each listing of a note exactly when amount and fee fit into 64 bits |
| WalletLedger.BudgetPerNoteExactly | internal/application/o2ul_wallet_service.go:191-198 | over all amounts and fees that fit, what is built from a list of notes spends at most sixteen for each note exactly when no note is listed twice |
| WalletRecords.BuiltExactly | internal/application/o2ul_wallet_service.go:175-205 | which requests are built, what is built, and which error the others get |
| WalletLedger.RepeatedNoteIsBuilt | internal/application/o2ul_wallet_service.go:191-198 | one note listed three times pays for forty |
| WalletLedger.WrappedSumIsBuilt | internal/application/o2ul_wallet_service.go:195-198 | a sum that wraps to zero is built |
| WalletLedger.WalletService.SubmitTransaction | internal/application/o2ul_wallet_service.go:242-300 | the error, or the recorded transaction and the whole new ledger |
| GoText.TrimSpaceExactly | internal/application/o2ul_wallet_service.go:243 | trimming takes away exactly the white space at both ends |
| WalletRecords.AcceptedExactly | internal/application/o2ul_wallet_service.go:242-285 | which submissions are accepted, signed or not, and the transaction each files |
| WalletLedger.WalletService.RecordTransaction | internal/application/o2ul_wallet_service.go:287-297 | the locked section files the transaction and marks its notes for its wallet alone |
| WalletLedger.WalletService.ScanNotes | internal/application/o2ul_wallet_service.go:129-173 | a limited scan is the prefix of the unlimited one |
| WalletRecords.ScanExactly | internal/application/o2ul_wallet_service.go:142-171 | the wallet's three notes in order, with the spent ones left out unless asked for |
| WalletLedger.WalletService.GetTransactionStatus | internal/application/o2ul_wallet_service.go:302-322 | the recorded transaction, to its own wallet only |
| WalletRecords.StatusExactly | internal/application/o2ul_wallet_service.go:242-322 | after any run a wallet is shown the transaction filed last under an id if it is its own, and else told that there is none or that it is another's |
| WalletRecords.OnlyOwnShown | internal/application/o2ul_wallet_service.go:242-322 | what a wallet is shown it has submitted itself |
| WalletLedger.SubmittedNotesAreSpent | internal/application/o2ul_wallet_service.go:150-171 | a submitted note is shown, if at all, as spent |
| WalletLedger.SpentGrows | internal/application/o2ul_wallet_service.go:289-297 | spent notes only grow, and only those of the submitting wallet |
| WalletRecords.SpentExactly | internal/application/o2ul_wallet_service.go:287-297 | after any run a note is spent for a wallet exactly when an accepted submission of that wallet listed it |
| WalletLedger.SpentCoversRecorded | internal/application/o2ul_wallet_service.go:287-297 | in every reachable ledger the notes of recorded transactions are spent |
| WalletLedger.SpentIsRecorded | internal/application/o2ul_wallet_service.go:242-300 | where distinct payloads have distinct ids, spent notes are exactly the notes of the recorded transactions, in every reachable ledger |
| WalletLedger.SpentOnceExactly | internal/application/o2ul_wallet_service.go:242-300 | in a reachable ledger with distinct ids no note of a wallet is spent by two of its transactions exactly when no accepted submission lists a note that an earlier one of the wallet listed with another payload |
| WalletLedger.NoteSpentTwice | internal/application/o2ul_wallet_service.go:242-300 | two accepted submissions that spend one note |
| WalletLedger.SignableExactly | internal/application/o2ul_wallet_service.go:207-240 | a payload can be signed with some assertions exactly when it is a spend of the wallet and enough factors can be satisfied for its own wallet, amount and asset |
| WalletRecords.SignedExactly | internal/application/o2ul_wallet_service.go:207-240 | which payloads are signed with given assertions, the envelope, and the errors |
| WalletLedger.BuiltIsShown | internal/application/o2ul_wallet_service.go:175-322 | build, sign, submit and status return the fields that were built |
| WalletLedger.BuiltStaysShown | internal/application/o2ul_wallet_service.go:242-322 | so they do after any run of further submissions with distinct ids, with the signature of the last submission of the payload |
| WalletLedger.StatusAfterRun | internal/application/o2ul_wallet_service.go:264-288 | in every reachable ledger an accepted transaction is on file with its fields, whatever came before or after |
| WalletLedger.UnsignedIsAccepted | internal/application/o2ul_wallet_service.go:251-263 | what was built is accepted without a signature |
| WalletLedger.ResubmissionErasesSignature | internal/application/o2ul_wallet_service.go:250-288 | an unsigned resubmission leaves the transaction on file without a signature |
| Roles.AssignsExactlyLower | internal/domain/user.go:81-106 | a role may be given exactly by a moderator or higher, below the own role, to at least registered: so never the role of master admin |
| RoleChanges.RolesByRank | internal/domain/user.go:22-77 | which texts are roles, by which names, and how they rank |
| RoleChanges.AssignsByRank | internal/domain/user.go:79-106 | a role may be given exactly by a higher one from moderator up, from registered up |
| Roles.EnsureMasterAdmin | cmd/api/main.go:248-295 | which account, and the players at whatever point the bootstrap ends; without a failing call it gets to its end |
| Roles.DemoteOthers | cmd/api/main.go:275-292 | the loop over the listed users, stopped anywhere |
| Roles.OneMasterAdmin | cmd/api/main.go:268-292 | a completed bootstrap leaves the configured account as the only master admin, the others as admins, and nobody else changed |
| Roles.NeverWithout | cmd/api/main.go:268-292 | from the promotion on there is a master admin at every step, and no new one but the configured |
| Roles.BootstrapTwice | cmd/api/main.go:268-292 | the next start changes nothing exactly when it finds the same account, and with distinct addresses it finds no other |
| Roles.Register | internal/application/auth_service.go:106-145 | who is created with which role, and when not |
| Roles.HandleRegister | internal/infrastructure/http/handlers/auth_handler.go:42-67 | a registration gives the registered role or nothing |
| RoleChanges.RegistrationExactly | internal/infrastructure/http/handlers/auth_handler.go:42-67 | who is registered, under which address, and always as registered |
| Roles.HandleUpdateRole | internal/infrastructure/http/handlers/admin_handler.go:89-131 | the players after a role update, its guards in order |
| RoleChanges.UpdateExactly | internal/infrastructure/http/handlers/admin_handler.go:89-131 | an update gives the player it names the role it asks for exactly when the ranks allow it and, above registered, the player is no guest; nothing else changes |
| Roles.PromoteSubscriberIfEligible | internal/application/payment_service.go:62-91 | the players after a payment |
| RoleChanges.PaymentExactly | internal/application/payment_service.go:62-107 | a payment makes the player under the first of three keys a subscriber unless that player is a guest; nothing else changes |
| Roles.MastersAfterExactly | internal/infrastructure/http/handlers/admin_handler.go:104-126 | after any run of registrations, updates and payments the master admins are those of its start whom no event unseated |
| Roles.AtMostConfigured | cmd/api/main.go:248-295 | after a bootstrap no run makes anybody else master admin |
| Roles.ModeratorUnseats | internal/infrastructure/http/handlers/admin_handler.go:104-126 | after a moderator gives a master admin the registered role, that account is none any more |
| Roles.PaymentUnseats | internal/application/payment_service.go:77-86 | a master admin keeps the role over a payment exactly when the payment names another account |
| Roles.PaymentRaisesExactly | internal/application/payment_service.go:77-86 | a payment does not lower the role exactly of players below moderator |

## Left out

- LightClient.FetchRange: a fetch that never ends has no result; `FetchStops` says which those are. The RPC is a function of the number, so a header does not change between calls, and memory running out within a granted capacity is not modelled.
- RequestScheduler.LockSafety: runs in which the element is initialized again are those of `OneLiveExactly`. Runs in which a request has the strategy named abort are excluded, since an aborted transport settles later than the lock is taken over; `AbortableIsOvertaken` shows it. Handlers return normally: an exception thrown from `onload` inside the `try` of `send` is not modelled.
- RequestScheduler.SyncElement.IssueAjaxRequest: the text of the `hx-sync` attribute is already split into strategy and queue name; a dequeued request finds the same synchronization element as when it was queued; of the checks before the lock only whether they stop the request is kept.
- TriggerParsers.TriggerParser.GetTriggerSpecs: an attribute that names a property of the cache object's prototype, and callers that change a cached list, are not modelled.
- TriggerTokens.TokenizeString: a character is one position, where JavaScript counts a character beyond the basic plane as two.
- TriggerRoundTrip.SpecsRoundTrip: names and arguments must be words of the printed grammar and intervals must be printable; bare relative keywords are excluded for the reason `BareKeywordSwallowsModifier` gives, and braced selectors with a closing brace or bracket inside for that of `BracedReadBackExactly`.
- DomSwap.Document.SwapWithStyle: what a registered swap style or an extension does to the page is not modelled, and no style is handled by one that throws.
- DomSwap.Document.SwapOuterHTML: the page is one table of child lists and parents rather than linked node objects; clean-up handlers do not change the page; the page is a forest, as a document is, given by a ranking of its nodes.
- DomSwap.Document.InsertNodesBefore: attribute settling (`handleAttributes`) and the added class are left out.
- DomSwap.Document.CleanUpElement: `deInitNode` is one opaque step here; what it does to the lock and to the request count is in RequestReinit and IndicatorReinit.
- RequestScheduler.IssuedOnce: like `AllPolicyStartsAll`, over runs in which the element keeps its data; when it is initialized again (`RequestReinit`), the requests that wait are counted as discarded.
- FormDataUtils.SyncedExactly: of the operations without a trap only `delete` is modelled, not `Object.defineProperty`.
- RequestIndicators.Document.RemoveRequestIndicators: `keepIndicators`, and pages that change the disabled attribute themselves, are left out.
- HistoryCache.HistoryRuntime.SaveToHistoryCache: null items in the stored JSON and handlers of `htmx:historyItemCreated` that change the list are left out.
- ImageOptimizer.FileTree.Optimize: the images in walk order are given; directory errors, a manifest that cannot be written, and the bounds of 64-bit sums are left out. An atomic write either replaces the file or fails.
- FormDataUtils.OverrideFormData: receiver and donor are different objects; values are texts.
- WalletLedger.BuiltIsShown: JSON decodes what it encodes, and a transaction id is not empty and has no spaces at its ends; time stamps and the constant status are not modelled.
- Roles.Register: a new id is given; user name, password and time stamps of a player are not stored; services are either in working order or not.
- Roles.MastersAfterExactly: claims are those of the request, so a stale token counts as what it says; a repository call that fails leaves the players as they are and so is no event.
- Out-of-band swaps, preserved elements, scroll, focus and view transitions.
- History restore, loading from the server, the tracking of the current path.
- `formDataFromObject`, `formDataProxy` and `filterValues`: easy members beside the array proxy.
- Abstract: SHA-256, JSON, image codecs, selectors, `parseInterval`, evaluation of filters, signature checks, quotas, clocks, generated ids.
- HTTP routing, tokens, mail, payment providers, configuration and the storage layers behind the repositories.
- Goroutines: each locked section is one step.
