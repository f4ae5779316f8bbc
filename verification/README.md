# XConnect: a verified model of its stateful core

XConnect is a broker between callers and nodes that dial in. Around a lot of I/O it keeps
five bounded, stateful parts, and these are what the project models and proves:

1. **Captured output** (`capture.go`). A store with a TTL, five quotas and two-phase LRU
   eviction, and a reader that pages by rune, tails, and searches by line with a resumable
   cursor, context windows, a rune budget and a match budget.
2. **Desktop interactions** (`desktop_interaction_service.go`, `desktop.go`). A gate and a
   leased reservation per node, a table of terminal receipts, a frame cache and a task
   loop, against a node that may answer anything or nothing.
3. **The audit log and its shippers** (`calllog.go`, `main.go`). A bounded buffer drained by
   two concurrent clients whose ships may fail.
4. **Tunnels, allow-list, renewals** (`broker.go`, `allowlist.go`, `control.go`). A registry
   that races with snapshots and reconciles, and renewals with a guard and a cooldown.
5. **Codecs, validators, resolver** (`desktop_identity.go`, `desktop_interaction.go`,
   `desktop.go`, `admin.go`). The 164-byte grant with SIDs ([MS-DTYP] section 2.4.2.2),
   UUIDs (section 4 of RFC 9562) and FILETIMEs ([MS-DTYP] section 2.3.3), input budgets and key
   chords, and the tiered host resolver.

`dafny verify dfyconfig.toml` checks everything.

## How it is built

Code that updates fields is a class whose methods are proved against functions or
predicates on values; loops are loops. What runs concurrently is also a transition system,
one step per locked section or call, so that the properties hold for every interleaving:
`CaptureRuns`, `InteractionModel`, `Shipping`, `Tunnels` and `Renewal`. `InteractRefinement`
and `Broker.ReconcileIsOneSweep` tie the sequential methods back to the machines' steps.

| files | what they hold |
|---|---|
| `Prelude`, `Schedule`, `Text`, `Decimal`, `ByteCodec` | options and results, performing steps in order, the string functions relied on, decimal and hexadecimal text, little-endian integers |
| `OutputSearch`, `SearchResume`, `OutputReader` | one search call, resuming it, paging, tailing, lines, request normalisation |
| `CaptureSpec`, `CaptureStore`, `CaptureRuns` | the store as a value, the store in place, runs of it |
| `InteractionModel`, `InteractionSafety`, `InteractionRuns` | the lease machine, its invariants, its properties over runs |
| `DesktopService`, `InteractRefinement`, `DesktopTask`, `FrameCache` | the service's own operations, their refinement of the machine, the task loop, the frame cache |
| `CallLog`, `Shipping` | the buffer in place, the two-shipper machine |
| `AllowList`, `Tunnels`, `Renewal`, `Broker` | snapshots and the list, the registry machine, the renewal machine, the broker's own operations |
| `GrantCodec`, `Identity`, `LoginDecision` | the grant's bytes, issuing a grant, whether to sign in |
| `Chord`, `InputBudget`, `Resolver` | key chords, input budgets, finding a host |

Time is one integer clock. Clock readings, random identifiers, node and tower replies,
regular expressions, image checks, signatures and a caller going away are parameters.
Strings are sequences of Unicode characters; where the code counts bytes, so does the model.

## Model

| member | source | states |
|---|---|---|
| OutputSearch.SearchCapturedOutput | capture.go:503-580 | one search call returns a page as `IsSearchPage` defines it, without blocks or emitted-so-far: the matches of [start, next), their windows' lines once each and in order, cut only for a lone first match, stopping early only when a budget forces it |
| OutputSearch.RenderBlock | capture.go:524-539 | a match's block holds exactly the window lines not shown before, and says whether it shows the match |
| OutputSearch.ExcerptGrows | capture.go:524-539 | however windows overlap, a match adds exactly the lines of its window that were not shown |
| SearchResume.PageIsDetermined | capture.go:503-580 | the page definition fixes every field: two results that meet it for one request are equal |
| SearchResume.PageStopsOnce | capture.go:540-562 | two pages that meet the definition for one request stop at the same line |
| SearchResume.ResumedSearchIsFilter | capture.go:503-580 | following the cursor, with context, limit and match budget free to change per call, reports exactly the matching lines passed so far, in order |
| SearchResume.ResumedSearchIsComplete | capture.go:503-580 | a walk followed to eof has reported all matching lines from its start, none lost or repeated |
| SearchResume.ResumedSearchEnds | capture.go:513-562 | a walk has at most one page per remaining line, and one more |
| SearchResume.PageAdvances | capture.go:513-562 | a page that is not the last moves the cursor forward |
| SearchResume.MatchNumbersAreTheMatches | capture.go:513-562 | the reported numbers are the matching lines of the range and nothing else |
| SearchResume.MatchNumbersIncrease | capture.go:513-562 | reported numbers strictly increase |
| SearchResume.EveryMatchIsPrinted | capture.go:524-557 | every reported match is printed as its one-based number, a colon, its text and a newline, from the start of a line, even if an earlier window swallowed it, unless a lone first match was cut, and then the page is exactly at its limit |
| SearchResume.EveryContextLineIsPrinted | capture.go:524-557 | so is every line within the context of a reported match |
| SearchResume.OutputIsNumberedLines | capture.go:523-562 | unless it was cut, a page is exactly the lines within the context of a reported match, once each, in line order, each with its own number, however windows overlap |
| SearchResume.PageKeepsItsBudgets | capture.go:539-579 | content and matches stay within their limits, a page says truthfully where it ends, and stops early only for a budget |
| OutputReader.NormalizeIsProjection | capture.go:389-433 | a request is accepted exactly if its defaults make it servable, becomes that servable request, and is left alone exactly if it was servable already |
| OutputReader.RequestsSpelledOut | capture.go:389-433 | the accepted requests field by field, with their limits, and what stands in for each field left out |
| OutputReader.EmptyRequestReadsStdout | capture.go:389-490 | a request that leaves everything out reads the first 12000 runes of stdout |
| OutputReader.ReadCapturedOutput | capture.go:435-490 | every read answers as its mode demands, or with the error of the first check that fails |
| OutputReader.PreviewIsFirstPage | capture.go:285-291 | the preview is the first page of its size, and says truthfully whether it is all |
| OutputReader.PagesSpelledOut | capture.go:469-490 | a page is the next limit runes from its offset, clamped to the stream, and says where it lies and whether it is the last |
| OutputReader.TailIsSuffix | capture.go:469-490 | a tail is the last n runes, the whole stream if shorter |
| OutputReader.PagesReassemble | capture.go:476-490 | pages of any sizes, each at the previous next_offset, concatenate without gap or overlap |
| OutputReader.PagingEnds | capture.go:476-490 | positive limits reach the end, and what was read is the rest of the stream |
| OutputReader.LineCountAgrees | capture.go:274-283 | the line count is the number of lines splitting finds |
| OutputReader.LinesRoundTrip | capture.go:492-501 | splitting recovers any lines that were written out |
| OutputReader.StreamFromLines | capture.go:492-501 | writing split lines back restores the stream, up to a missing final newline |
| CaptureStore.Captures.Put | capture.go:134-202 | either the checks refuse and nothing changes, or expired captures go, then the owner's shortest LRU prefix that makes room, then the store's, and the new capture is there under an id that Get accepts, with the streams it was given; with positive limits only running out of unused ids can fail it |
| CaptureStore.Captures.Get | capture.go:204-218 | finds exactly a live capture of its owner, marks it used and changes nothing else but expiry |
| CaptureStore.Captures.ReapExpiredLocked | capture.go:220-226 | removes the expired and only those |
| CaptureStore.Captures.OwnerCountLocked | capture.go:228-236 | the number of the owner's captures |
| CaptureStore.Captures.OwnerBytesLocked | capture.go:238-246 | the bytes of the owner's captures |
| CaptureStore.Captures.EvictOldestLocked | capture.go:248-265 | removes one least recently used candidate if there is any, and keeps the counter right |
| CaptureStore.Captures.MakeOwnerRoomLocked | capture.go:179-186 | removes the owner's captures oldest first and no more than needed; fails only if the limits admit none |
| CaptureStore.Captures.MakeRoomLocked | capture.go:187-191 | the same for the whole store |
| CaptureStore.CopyStreams | capture.go:142-150 | copies the streams, adds up their sizes in bytes, and refuses exactly unknown names |
| CaptureStore.MintCaptureID | capture.go:118-132 | every minted id is one that Get accepts |
| CaptureSpec.LruCutIsLeast | capture.go:248-265 | without ties the evicted set lies inside every LRU prefix that makes room: it is the shortest and unique |
| CaptureSpec.NoNeedlessEviction | capture.go:175-191 | nothing is evicted where there is room |
| CaptureSpec.EvictionIsFair | capture.go:175-191 | a live capture of another owner goes only when the global quota still fails after the owner phase |
| CaptureSpec.QuotasOfInsertion | capture.go:157-201 | room in both scopes is enough for all quotas to survive the insertion |
| CaptureRuns.RunKeepsQuotas | capture.go:134-272 | in every reachable state of any Put, Get and reap interleaving, with any clock readings, keys are ids that Get accepts, the recorded size of a capture is the size of its streams, and all five quotas hold of these |
| CaptureRuns.RunKeepsTextQuotas | capture.go:134-272 | the same quotas counted in the UTF-8 bytes of the stored streams themselves, for the store, each owner and each capture |
| CaptureRuns.NothingGoesWhileThereIsRoom | capture.go:175-191 | a Put that finds room in the whole store, counted in stored text, drops no live capture of anyone else, and one that finds room for its owner too drops none |
| CaptureRuns.RefusalsSpelledOut | capture.go:142-162 | which output is refused before the store is touched, for which reason and in which order |
| CaptureRuns.OlderSpelledOut | capture.go:248-265 | least recently used first; of captures used at one time, the one created first |
| Text.ByteLenSpelledOut | capture.go:149 | sizes are UTF-8 bytes: a text's is the sum over its runes, one to four bytes each |
| CaptureRuns.GetReturnsWhatPutStored | capture.go:134-218 | a successful Get returns everything the last Put under that id was given, by the same owner, within the TTL, marked as used now |
| CaptureRuns.OwnersFindTheirCaptures | capture.go:204-218 | in every reachable state a Get of a stored, unexpired capture succeeds exactly for its owner |
| CaptureRuns.StoredIsFoundNext | capture.go:199-218 | what a Put stored its owner's next Get finds, with the streams it was given, until it expires |
| CaptureRuns.OlderMeansUsedBefore | capture.go:168-177 | with readings that increase in lock order, a capture is older than another exactly if it was last stored or found before it |
| CaptureRuns.DistinctClocksLeaveNoTies | capture.go:168-177 | if no two clock readings coincide no two captures tie, so eviction is fully determined |
| InteractionSafety.RunKeepsInv | desktop_interaction_service.go:23-172 | every reachable state keeps the gate, reservation, task, receipt, expiry and call invariants together |
| InteractionSafety.CallIsHeld | desktop_interaction_service.go:90-140 | a step makes at most one backend call, and an interact call only under the node's own reservation, with its id, owner and session |
| InteractionRuns.PhasesArePartition | desktop_interaction_service.go:33-99 | an id is unborn, active on exactly one node, or gone; a terminal receipt's id is gone |
| InteractionRuns.StepMovesPhase | desktop_interaction_service.go:33-164 | a step moves an id from unborn to active or from active to gone, never otherwise |
| InteractionRuns.LifecycleIsOneWay | desktop_interaction_service.go:33-164 | over any run an active id stays on its node or is gone, and keeps what it was begun with |
| InteractionRuns.GoneForever | desktop_interaction_service.go:33-164 | gone ids stay gone |
| InteractionRuns.NoCallOnceGone | desktop_interaction_service.go:99-164 | no backend call carries an id once it has left the map |
| InteractionRuns.EveryCallIsTheBeginners | desktop_interaction_service.go:57-107 | every interact call comes from the owner, node and session the id was begun with |
| InteractionRuns.OneTaskPerNode | desktop.go:617-626 | at most one gated operation per node is inside the gate |
| InteractionRuns.ReservationChangesUnderGate | desktop_interaction_service.go:97-164 | a node's reservation changes only by the operation inside that node's gate |
| InteractionRuns.HoldExcludesOthers | desktop.go:630-640 | while an interaction is held, all gated calls to its node are its own |
| InteractionRuns.HeldGateAdmitsOnlyTheHolder | desktop.go:617-640 | whoever meets an unexpired reservation makes, until it leaves, only interact calls with the reserved id as the reserving owner |
| InteractionRuns.ReservationsLapse | desktop_interaction_service.go:90-148 | every reservation expires at most 75 s after it was last written, for all replies and lost receipts |
| InteractionRuns.HeldMeansRecentlyWritten | desktop.go:630-640 | an operation is turned away only by a reservation written at most 75 s ago |
| InteractionRuns.TerminalReceiptsStayFew | desktop_interaction_service.go:149-163 | at most 64 terminal receipts, none for an id that is still active |
| InteractionRuns.RetainedReceiptAnswers | desktop_interaction_service.go:42-56 | a request that meets its owner's retained receipt gives up there, and until it has left the gate no gated call reaches the node |
| DesktopService.Service.EnterGate | desktop.go:617-626 | enters exactly when nobody is inside |
| DesktopService.Service.LeaveGate | desktop.go:627 | frees the node and no other |
| DesktopService.Service.HeldCheck | desktop.go:630-640 | reports a hold exactly when an unexpired reservation exists, dropping a lapsed one |
| DesktopService.Service.OpenSection | desktop_interaction_service.go:33-53 | yields the unexpired reservation and this caller's retained receipt, with lapsed and old ones dropped |
| DesktopService.Service.Choose | desktop_interaction_service.go:54-89 | goes on exactly under the reservation the machine opens with, else gives the reason |
| DesktopService.Service.FrameFor | desktop_interaction_service.go:62-87 | succeeds exactly on the caller's own unexpired actionable frame that is ordinary and has a session, for begin, or is this interaction's checkpoint, for continue; else the reason |
| DesktopService.Service.SettleSection | desktop_interaction_service.go:143-164 | a checkpoint moves the expiry, a release or unsent input frees the node, and a failed release leaves a terminal receipt, with 64 at most |
| DesktopService.Service.RememberAll | desktop_interaction_service.go:116-129 | accepts exactly at most five well-formed intermediate frames, and caches those before the first bad one, each at its own clock reading |
| DesktopService.Service.Proceed | desktop_interaction_service.go:97-172 | from the reservation on: the calls made, the frames cached and the state left, by what the node answered |
| DesktopService.Service.Interact | desktop_interaction_service.go:23-172 | one whole request: its opening decision, calls, response or error, reservation, receipts and frames, and nothing but expiry when it gives up |
| DesktopService.Service.ExecuteInteract | desktop.go:617-629 | behind the gate: which calls go out, on which of the caller's unexpired frames and under which unexpired reservation; continue only on this interaction's actionable checkpoint, begin only on an ordinary frame whose session every call carries; none where a retained receipt answers |
| DesktopService.NodeIsLeft | desktop_interaction_service.go:90-164 | what Interact leaves in plain terms: a lease of the time asked for and 15 s, a checkpoint's earlier end, a node free after a release or unsent input, a receipt after a failed release, and other nodes as they were |
| DesktopService.OpensWhenItMay | desktop_interaction_service.go:33-101 | nothing but the listed reasons keeps a request from opening and calling its node |
| DesktopService.OutcomesSpelledOut | desktop_interaction_service.go:100-142 | when nothing is sent, nothing usable comes back, or an answer is rejected |
| DesktopService.FramesSpelledOut | desktop_interaction_service.go:116-129 | the frames one answer adds: its own and its intermediate ones before the first that is no good, each as it came |
| InteractRefinement.ProceedFollows | desktop_interaction_service.go:97-172 | what Proceed leaves is what a schedule of machine steps leaves, calls included |
| InteractRefinement.InteractFollows | desktop_interaction_service.go:23-172 | what Interact promises of reservations, receipts and calls is reached by machine steps from the state it found, authorised or not, whatever the world answered |
| InteractRefinement.InteractStaysReachable | desktop_interaction_service.go:23-172 | every run up to the start of an Interact goes on to a run that ends in what it leaves, where the invariant and all that is proved of runs hold |
| DesktopTask.Plan | desktop.go:836-871 | plans a call exactly if the cached frame is the caller's own, unexpired and settled, with the points inside the picture, and plans the call that frame determines |
| DesktopTask.RunTask | desktop.go:732-800 | each step is sent exactly if the frame the step before it left is cached and permits it, a receipt is good exactly if the step was sent and taken, nothing follows a step that was not, and the task is dispatched exactly when every step was |
| DesktopTask.TaskActsOnWhatItSaw | desktop.go:732-871 | each call goes by the very picture of the latest answer that had one, or the first frame, and carries that frame's id and session, the grounded or given point, inside the picture, and the given destination |
| DesktopTask.PermittedWhenAllowed | desktop.go:732-871 | the other way round: a step whose frame allows it is sent, and when its receipt is good |
| FrameCache.CacheIsSuffixOfHistory | desktop.go:554-573 | with fresh ids and an increasing clock the cache is a suffix of what was inserted, at most 64 long, newest included |
| FrameCache.RememberKeepsSuffix | desktop.go:554-573 | one insertion keeps the cache a suffix of the log |
| FrameCache.Cache.Remember | desktop.go:525-574 | a bad image changes nothing; otherwise expired frames go, one oldest if 64 remain, and the frame is stored |
| FrameCache.RememberingSpelledOut | desktop.go:554-573 | after a remember nothing older than 180 s is left, and of the others at most one goes, an oldest one, only if there are 64 |
| FrameCache.Cache.Lookup | desktop.go:575-583 | succeeds exactly for the owner, on the node, within 180 s, with what was inserted last under the id |
| CallLog.CallLog.Add | calllog.go:112-125 | keeps the most recent max of what was there and the event, shifting in place, and signals |
| CallLog.CallLog.Drain | calllog.go:133-142 | hands everything over in order and shares no array with what comes later |
| CallLog.CallLog.Requeue | calllog.go:146-157 | the batch goes in front of what was added since, keeping the most recent max |
| CallLog.CallLog.ShipRound | main.go:117-154 | one round with events added meanwhile: a refused batch comes back in front as if it had never left |
| CallLog.LastOfBoth | calllog.go:146-157 | truncating on the way in and again on requeue loses no more than truncating once |
| Shipping.RunConserves | main.go:117-154 | for every interleaving of adds and two failing shippers, added = buffer + both batches + delivered + dropped as multisets, the buffer is bounded, and a drop leaves it exactly full |
| Shipping.StepConserves | calllog.go:112-157 | each step conserves, and drops only into a full buffer |
| Shipping.NoLostWakeup | calllog.go:112-131 | with the signal sent after the unlock, an event nobody has drained has a signal waiting, a woken shipper, or an add about to signal |
| Shipping.OneShipperRefinesRecentWindow | calllog.go:112-157 | with one shipper and nothing in flight the buffer is exactly the most recent min(max, n) of the n events since its last success, and delivery is a subsequence of the adds: the single-shipper case of the next row |
| Shipping.NoOverlapKeepsOrder | main.go:117-154 | while the two shippers never have events in flight together, the newest max events since the last success are in the buffer or the one batch and the buffer, and delivery is a subsequence of the adds |
| Shipping.OrderIsSafeIffNoOverlap | main.go:117-154 | for distinct events: delivery follows the adds at every moment of a run, however the ships then in flight end, if and only if the shippers never have events in flight together |
| Shipping.OverlapBeginsWithDrain | main.go:117-146 | the one step that breaks the condition is a drain of events while the other shipper has some in flight |
| Shipping.TwoShippersCanReorder | main.go:117-154 | a run from the start in which both ships succeed and the events arrive in the wrong order |
| AllowList.ValidateSnapshot | control.go:81-114 | accepts exactly replies that say a snapshot of one expected tenant, with matching count, no empty identity and no key twice; otherwise names the first problem, with every node before it in order |
| AllowList.DistinctIndexIsFaithful | allowlist.go:40-44 | a validated snapshot's index has one entry per listed node, each under its own key |
| AllowList.AllowList.Replace | allowlist.go:34-49 | applies a snapshot exactly if its tenant is the first or the same, else changes nothing |
| AllowList.AllowList.Lookup | allowlist.go:59-64 | finds exactly the listed keys |
| AllowList.AllowList.Entries | allowlist.go:67-75 | every entry once, in no fixed order |
| Tunnels.RunKeepsInv | broker.go:87-110 | every reachable state keeps the list, tenancy, admission and sweep invariants |
| Tunnels.RevocationIsBounded | broker.go:409-431 | a live tunnel off the current list outlived only reconciles that began no later than its registration or the last replacement |
| Tunnels.LateRegistrationOutlivesReconcile | broker.go:92-108 | the bound is tight: a run in which a handshake registers after the reconcile that enforced its revocation, and stays |
| Tunnels.NoTunnelBeforeSnapshot | broker.go:92-97 | before the first snapshot there is no tunnel and no admitted handshake |
| Tunnels.TunnelsWereAdmitted | broker.go:87-97 | a live tunnel is of our tenant and its key was on some list so far |
| Tunnels.TenantIsForGood | allowlist.go:34-49 | once loaded the tenant never changes |
| Tunnels.GoneMeansDeadOrDelisted | broker.go:409-473 | a tunnel goes down only because its own connection died or a reconcile read a list without it |
| Broker.Broker.Handle | broker.go:87-108 | an uninterrupted handshake is admitted exactly if it is of our tenant and its key is listed |
| Broker.Broker.Reconcile | broker.go:409-431 | drops, closes and forgets exactly the live tunnels off the list; does nothing before the first snapshot |
| Broker.Broker.RefreshAndReconcile | broker.go:435-448 | on success no live tunnel is off the list the reply said; a bad reply changes neither list, tenant nor tunnels |
| Broker.Broker.ReapIfDead | broker.go:452-473 | the watcher never drops a replacement |
| Broker.Broker.ReapAfterFailure | broker.go:251-257 | a failed request reaps only its own connection's entry, and not when the caller cancelled |
| Broker.Broker.RenewIfDue | broker.go:337-370 | renews exactly when free, due and rested; records only a success; always gives the guard back |
| Broker.ReconcileIsOneSweep | broker.go:409-431 | an uninterrupted sweep of the machine's steps leaves what Reconcile leaves |
| Renewal.OneRenewalPerNode | broker.go:337-342 | at most one renewal trigger per node is in flight |
| Renewal.SuccessesAreSpaced | broker.go:355-366 | successful renewals of a node are at least 30 minutes apart |
| Renewal.WindowHoldsFew | broker.go:355-366 | any window T holds at most T/30min + 1 successes of a node |
| Renewal.TriggerEntersUnlessInFlight | broker.go:338-342 | a trigger is let in exactly when none of that node is in flight |
| Renewal.RenewsUnlessSucceededLately | broker.go:355-366 | a trigger renews exactly when due and without a success in the cooldown, so failures never suppress a retry |
| GrantCodec.DecodeOfEncode | desktop_identity.go:176-202 | the 164 bytes give back every field |
| GrantCodec.EncodeOfDecode | desktop_identity.go:176-202 | only an encoding decodes, so no two byte strings mean one grant |
| GrantCodec.Layout | desktop_identity.go:176-202 | each field lies at its offset and the fields cover all bytes without overlap |
| GrantCodec.GrantBytes | desktop_identity.go:176-202 | the 164 bytes one by one: RLA1 and 420 first, session, expiry and all five sub-authorities least significant byte first, every other field in its place, zeros between |
| GrantCodec.Fill | desktop_identity.go:176-202 | writing the fields at their offsets into a zeroed buffer yields the encoding |
| Identity.SidParts | desktop_identity.go:28-42 | accepts exactly the canonical texts of local-account SIDs, and yields their sub-authorities |
| Identity.SidTextIsInjective | desktop_identity.go:28-42 | a SID text names one account |
| Decimal.FormatUintDigits | desktop_identity.go:34-37 | decimal text digit by digit, without a leading zero |
| Identity.UuidIsItsDigits | desktop_identity.go:152-161 | dropping every hyphen admits no stray ones: exactly four separators and 32 hexadecimal digits |
| Identity.UuidBytes | desktop_identity.go:152-161 | a UUID is read exactly in its usual form, each byte from its two digits, the high one first |
| ByteCodec.HexBytes | desktop_identity.go:156-164 | text is read exactly if it is digits, an even number of them, two to a byte |
| ByteCodec.HexTable | desktop_identity.go:156-164 | the value of each hexadecimal digit of either case |
| Identity.ParseUuidOfText | desktop_identity.go:152-161 | a written UUID reads back |
| Identity.UuidTextOfParse | desktop_identity.go:152-161 | only case is lost in reading |
| Identity.ClocksAgreeExactly | desktop_identity.go:171-175 | despite 64-bit wrap-around and truncating division the check is a distance of at most 5 s |
| Identity.TruncatedIsTheWholePart | desktop_identity.go:172 | the host's reading is cut off toward zero |
| Identity.SignGrant | desktop_identity.go:163-209 | an issued grant is 420 bytes: the encoding of what the mapping, challenge and clock said, and its signature; each of the seven refusals has its exact condition |
| Identity.ChallengesAccepted | desktop_identity.go:164-168 | a challenge is 64 hexadecimal digits and a whole session number from 1 to 4294967294 |
| Identity.GrantSaysWhatWasAsked | desktop_identity.go:169-202 | session, expiry as FILETIME 45 s ahead, and SID of an issued grant, in numbers and letters |
| Identity.GrantIsReadBack | desktop_identity.go:176-208 | the signed bytes read back as the mapping's UUIDs up to case, its SID to the letter, and the challenge's session and boot |
| Identity.SignedBytesFixTheGrant | desktop_identity.go:176-208 | equal signed bytes mean the same account, session, boot and nonce |
| Identity.ExpiryFollowsHostClock | desktop_identity.go:171-180 | an issued grant expires 40 to 50 s after the host's own clock reading |
| LoginDecision.Decide | desktop_identity.go:217-262 | when exactly each answer is given: signing in only on an empty, ready, unpaused machine, reuse only of the one fit session of the account, and each of the eight refusals |
| Resolver.ResolveAmong | admin.go:155-194 | three loops compute the tiered answer |
| Resolver.AnswerIsTheFirstTiers | admin.go:155-194 | an identified host is never shadowed; else a sole match of the first tier with any is the answer, several are all listed and nothing else is, and no match gives neither |
| Resolver.TiersSpelledOut | admin.go:162-188 | what it is to be identified, named and mentioned, rune by rune |
| Resolver.PieceFindsItsHost | admin.go:177-193 | where nothing else is meant, any piece of a name, description or SVID, in any case, finds its host |
| Text.TrimSpaceTrims | admin.go:156 | trimming cuts off white space only, and all of it at either end |
| Text.AsciiSpaces | desktop.go:391 | which ASCII characters are white space |
| Resolver.OrderIndependentIffOneIdentified | admin.go:155-194 | enumeration order never matters if and only if all hosts the query identifies share one SVID |
| Resolver.AnyOrderResolvesAlike | admin.go:155-194 | under that condition every permutation gives the same SVID and the same candidates |
| Resolver.UnambiguousHostsAreIdentified | admin.go:161-166 | distinct node ids that spell no other host's SVID are enough for the condition |
| Chord.ValidChord | desktop.go:381-405 | accepts exactly distinct modifiers and a base key, or one modifier; the five-part cap refuses nothing more |
| Chord.BaseKeysSpelledOut | desktop.go:379 | the base keys: one letter or digit, F1 to F24, and the named ones |
| Chord.PartsSpelledOut | desktop.go:385-394 | each part is read in capitals, without the white space around it, CONTROL as CTRL |
| Chord.ChordsAreShort | desktop.go:386-388 | the cap follows from there being four modifiers |
| Chord.EveryChordCanBeWritten | desktop.go:379-405 | joining the parts of any chord is accepted and reads back as those parts |
| Chord.CaseIsNoMatter | desktop.go:385-405 | case never decides acceptance |
| Chord.ValidInteractionKey | desktop_interaction.go:26-28 | accepts exactly one base key or one modifier |
| InputBudget.CheckEvent | desktop_interaction.go:49-94 | the ordered checks accept exactly the events whose kind takes the fields they carry |
| InputBudget.ValidateInteraction | desktop_interaction.go:29-105 | accepts exactly a known operation and lease with events within the time and image budgets |
| InputBudget.AcceptanceSpelledOut | desktop_interaction.go:29-105 | the limits: operations, lease, 16 events, 10 s and five intermediate images |
| InputBudget.EventsSpelledOut | desktop_interaction.go:49-96 | the accepted events kind by kind, and what each takes of the budgets |
| InputBudget.OrderIsNoMatter | desktop_interaction.go:47-103 | acceptance does not depend on the order of the events |
| InputBudget.FewerEventsAreAcceptable | desktop_interaction.go:47-103 | acceptance survives dropping any event |
| InputBudget.AcceptedPartsFit | desktop_interaction.go:96-103 | any part of an accepted sequence takes at most 10 s, key presses included, and at most five intermediate images |

## Left out

- TLS, HTTP/2, pings, JSON encoding and audit records; replies are parameters.
- Token validation, RSA, SHA-256, randomness, JPEG decoding and key-file checks, which are opaque predicates or given values; a signature is only assumed to have the 256 bytes of RSA-2048.
- RE2: a pattern is an arbitrary predicate on lines, and a compiler that may refuse it. Invalid UTF-8 in a captured stream does not arise, because streams come out of decoded JSON.
- Real time and scheduling: steps are atomic at lock boundaries and clock readings are integers.
- Random ids: minted interaction ids are fresh, and capture ids are drawn from a finite supply, where the code would draw forever.
- CaptureRuns.OlderMeansUsedBefore: `Put` and `Get` read the clock before the lock (capture.go:168-176, capture.go:208-210), so readings need not increase in lock order; where they do not, least recently used means by these readings, and which of two tied captures goes is left open.
- Shipping.OrderIsSafeIffNoOverlap: delivery means a ship that reported success. One that reached the tower and reported failure counts as failed, so the tower may see events again.
- Shipping.NoLostWakeup: says a shipper is coming, not when.
- InteractionRuns.EveryCallIsTheBeginners: `continue` proceeds from any cached actionable checkpoint of the interaction (desktop_interaction_service.go:80-88), not provably the newest, so no claim is made about which.
- DesktopService.Service.Interact: the request runs alone; what interleaves with it is the transition system's matter. The instruction text, image stripping and the audit trail are not modelled.
- DesktopTask.RunTask: the task runs alone; grounding a target is an arbitrary point or a failure, and receipts carry only whether the step was taken. `validateDesktopAction`, `validateDesktopRequest` and the single-step operations are field checks and forwarding.
- Tunnels.RevocationIsBounded: counts from completed reconciles; how often they run is not modelled. A reap is one step, though the code loads and then deletes (broker.go:254-255, broker.go:464-465).
- Tunnels.TunnelsWereAdmitted: admission is by key; a listed key presented with an SVID that is not listed is admitted until the next reconcile, as in the code.
- Renewal.OneRenewalPerNode: concerns `renewIfDue`; the forced admin renewal (admin.go:46) takes neither guard nor cooldown.
- Broker.Broker.RenewIfDue: which of several list entries of one node is consulted depends on map order, so the contract answers only where they agree. Version reports, updates and health checks are not modelled, and version entries are not claimed to belong to live tunnels.
- Identity.SignGrant: the challenge's numbers are real numbers as decoded, so precision lost in JSON is outside the model; converting an out-of-range number to 64 bits may give any value.
- Identity: reading the identity configuration, build pins, and the login protocol around the grant.
- Resolver.ResolveAmong: case folding and lower-casing are arbitrary per-character mappings.
- `tenantOf` is an arbitrary function of an SVID; parsing URIs is not modelled.
- `hints.go`, `bootstrap.go`, `server.go`, most of `caller.go`, and the Python MCP bridge: forwarding, text and schemas with little state.
