# AXIAM TypeScript SDK: a verified model of its stateful core

The project models the parts of the SDK that keep state over time or invert something, and
proves what they are for:

- the replay-protected AMQP consumer: its nonce store, its gates, and many handlers pending at once
  (`NonceStore.dfy`, `Consumer.dfy`);
- the decision memo: a TTL-clamped, bounded cache with first-in first-out eviction, and its joined
  key (`DecisionMemo.dfy`, `MemoKey.dfy`);
- the single-flight refresh guard and the calls that share it and retry once (`RefreshGuard.dfy`,
  `CallWithRefresh.dfy`);
- the base64url codec (`Base64Url.dfy`), against RFC 4648 sections 4 and 5 (`Base64Standard.dfy`);
- the projection of a response onto its declared shape (`DeclaredShapes.dfy`), and the program's own
  table of shapes (`DeclaredTable.dfy`);
- the walk over a paginated read (`Paging.dfy`);
- the two readers of the `Cookie` header and the double-submit check between them (`Cookies.dfy`);
- the OIDC redirect login over a single-use store (`OidcLogin.dfy`).

`Text.dfy` and `Common.dfy` hold what several of them need: `split`, `join`, `trim`, `indexOf`, and
`Option`.

An object whose methods update its fields is a class, and each of its methods is proved to move the
object's state as a step function says. Asynchronous protocols are transition systems: a step is what
runs between two awaits. Theorems about runs are about every sequence of steps that the system
permits, hence about every interleaving. What a server answers, the verdict on a signature, what a
handler or a hook does, and `decodeURIComponent` are parameters: the theorems hold for all of them.

The clock is `Date.now()`, which may step back. The exact conditions for replay (`ReplayIff`,
`HandledIff`), for what the memo answers (`AnswersAsTheLog`, `StalenessIsBounded`,
`BoundedAndOrdered`) and for settlement hold for any readings whatever. What holds besides under a
clock that never goes back carries that hypothesis, `ClockNeverGoesBack` or `InOrder`, and its row
says so.

## Where the code differs from what is said about it

- The comments at src/amqp/consumer.ts:48-52 and 84-89 say that a nonce cannot still be fresh once its
  entry has lapsed. At the two ends of the window, to the millisecond, it is: an entry is pruned at
  `expiry <= now`, but a message is stale only at `> skewMs`. `RepeatHandledIffOnBothEdges` states
  exactly when a message is handled twice, `EdgeRepeatIsHandledTwice` gives a run, and
  `NeverHandledThreeTimes` bounds it. A clock that steps back can undo the protection anywhere in the
  window (`ClockSteppingBackRepeats`); `HandledIff` is exact for every clock.
- src/management/page.ts:98-104 says that a misreporting server costs one wasted request. That holds
  of one that sends an empty page (`EmptyPageIsLast`). One that keeps sending items and misreports the
  offset, or a total that keeps growing, is asked for ever (`MisreportingNeverEnds`); `EndsIff` says exactly
  when a walk ends, and `EchoedWalkEnds` gives the bound when offsets are echoed and totals bounded.
- src/core/decisionMemo.ts:43-47 says that no combination of values can forge a key. `OwnKeyIff` states
  for which questions that is so without any assumption on the other one; `MemoKeyInjective` is the
  claim under the assumption the comment makes.
- `keepDeclared` needs more than that no table entry is a bare reference in order to end: a union arm
  may refer back to its own union (`SelfReferringArmReturns`). `EndsIffNeverReturns` gives the
  exact condition, and the program's table meets it (`TableNeverReturns`).
- src/grpc/callWithRefresh.ts:35-40 says that any other error is mapped. A fault of the refresh or of
  the sync is thrown inside the `catch` and surfaces as it is: `SurfacesUnmappedIff` says exactly when, and
  `UnavailableRefreshSurfaces` is a run in which it does.

## Model

| member | source | states |
|---|---|---|
| NonceStore.InMemoryNonceStore.CheckAndRecord | src/amqp/consumer.ts:62-71 | The method, pruning in place, answers and leaves the map as the specification `Check` says, which `PruningIsInvisible` relates to a full log |
| NonceStore.InMemoryNonceStore.Prune | src/amqp/consumer.ts:73-77 | Deleting while iterating leaves exactly the entries that have not expired, unchanged |
| NonceStore.ReplayIff | src/amqp/consumer.ts:62-77 | In every run, with a clock that may step back: a check says replay if and only if some earlier recording of the nonce has run out neither now nor at any reading in between |
| NonceStore.CheckHolds | src/amqp/consumer.ts:62-77 | One check, whatever the clock reads, answers by the recordings that still stand, and the store then holds exactly those, each with its end |
| NonceStore.CheckRefines | src/amqp/consumer.ts:62-71 | From any store that agrees with a never-pruned log, a check at a later time answers as the log does and the two agree from then on, a recording being added exactly when the answer is no |
| NonceStore.RunRefines | src/amqp/consumer.ts:59-78 | After every run under a nondecreasing clock the pruned store and the full log agree on every nonce and on every later instant |
| NonceStore.PruningIsInvisible | src/amqp/consumer.ts:62-77 | Under a clock that never goes back, a check says replay if and only if some earlier recording of the nonce has not yet run out |
| NonceStore.RecordsExactlyTheNew | src/amqp/consumer.ts:66-70 | Under a clock that never goes back, the log grows by a check, with its nonce, time and TTL, exactly when the answer was no |
| NonceStore.NothingExpiredIsHeld | src/amqp/consumer.ts:73-77 | Right after a call with a positive TTL every entry that is held expires later than the call, whatever the clock read before |
| NonceStore.HoldsOnlyLiveNonces | src/amqp/consumer.ts:48-52 | Under a clock that never goes back, after a call the store holds exactly the nonces that are live in the log: no growth beyond them |
| NonceStore.ClockSteppingBackForgets | src/amqp/consumer.ts:63-76 | A run whose clock steps back, in which a nonce that is live in the log is accepted again |
| AmqpConsumer.CheckReplayProtection | src/amqp/consumer.ts:90-118 | The method's verdict and its effect on the store are those of `Gates`, which `GatesPassIff` characterises; both clock readings are modelled |
| AmqpConsumer.GatesPassIff | src/amqp/consumer.ts:90-118 | The gates pass if and only if the key version is at least 2, the date lies within the skew, the nonce is non-empty text and not live; the store is touched only when the first conditions all hold; otherwise the first failing gate is named |
| AmqpConsumer.Consumer.VerifyAndDispatch | src/amqp/consumer.ts:188-270 | A delivery up to the awaited handler moves the consumer by `Deliver`: refusal, the throw on a `null` body, or a started handler |
| AmqpConsumer.Consumer.HandlerSettled | src/amqp/consumer.ts:269-283 | A settled handler moves the consumer by `HandlerOk` or `HandlerFail`: one ack, or one nack without requeue |
| AmqpConsumer.DeliverIsJudged | src/amqp/consumer.ts:188-270 | A delivery adds itself to the history, is handled if and only if it is verified, well formed, fresh and unknown to the store, and otherwise leaves the store as it was unless it asked it |
| AmqpConsumer.OnlyVerifiedIsHandled | src/amqp/consumer.ts:210-241 | What one delivery does: it enters the history with its content and readings; it is handled only if its signature verified, or it is unsigned in lenient mode; an unsigned body in strict mode, a body whose signature fails and one that does not parse get exactly one nack and leave the store alone |
| AmqpConsumer.AsksStoreIff | src/amqp/consumer.ts:90-118 | The exact conditions, written out, on which a delivery comes to ask the store for its nonce |
| AmqpConsumer.DeliveriesAreOfSteps | src/amqp/consumer.ts:328-331 | The history of every run is the deliveries that came, in order, with their contents and readings |
| AmqpConsumer.JudgedKeepsReplayInv | src/amqp/consumer.ts:248-270 | The invariant of replay protection, whatever the clock reads: the store holds exactly the recordings of handled deliveries that stand, and every verdict so far is the one that history calls for |
| AmqpConsumer.ReplayInvHolds | src/amqp/consumer.ts:59-118 | Every run and interleaving keeps that invariant |
| AmqpConsumer.HandledIff | src/amqp/consumer.ts:90-118 | In every run and interleaving, with a clock that may step back, a delivery reaches the handler if and only if it is verified, well formed and fresh, and no earlier handled delivery of its nonce stands in the way: one is out of the way once a delivery that asks the store, this one included, reads a time two skews after its recording or later |
| AmqpConsumer.HandledInPlainTerms | src/amqp/consumer.ts:188-270 | The same with its conditions written out: signature, strictness, key version, freshness, nonce, and for each earlier handled delivery of the nonce a later reading two skews after it |
| AmqpConsumer.NothingBlocks | src/amqp/consumer.ts:269-284 | Any delivery can come at any moment and every pending handler can end either way, so the theorems about runs are about all of them |
| AmqpConsumer.HandledIffInOrder | src/amqp/consumer.ts:90-118 | Under a clock that never goes back, a delivery reaches the handler if and only if it is verified, well formed, fresh, and every earlier handled delivery of its nonce was recorded at least two skews before |
| AmqpConsumer.ClockSteppingBackRepeats | src/amqp/consumer.ts:59-118 | A run whose clock steps back, in which a message is handled twice in the middle of its window |
| AmqpConsumer.RepeatsAreTwoSkewsApart | src/amqp/consumer.ts:59-118 | Under a clock that never goes back, two handled deliveries of one nonce were recorded two skews apart; with equal dates the later straddles the end of its window, and with one clock reading the two sit at date minus skew and date plus skew |
| AmqpConsumer.RepeatHandledIffOnBothEdges | src/amqp/consumer.ts:59-118 | Under a clock that never goes back and is read once a delivery, a repeated message is handled again if and only if the two readings are exactly the two ends of its window |
| AmqpConsumer.NeverHandledThreeTimes | src/amqp/consumer.ts:59-118 | Under a clock that never goes back, no message is handled three times, if less than two skews passed between the two clock readings of the third delivery |
| AmqpConsumer.EdgeRepeatIsHandledTwice | src/amqp/consumer.ts:75-105 | A concrete run in which a message is handled at both ends of its window |
| AmqpConsumer.ChannelInvHolds | src/amqp/consumer.ts:188-284 | The invariant of settlement: every delivery is counted as often as it should be, and the channel holds an ack for each handler that resolved and a nack for each refusal or failure |
| AmqpConsumer.SettledOnce | src/amqp/consumer.ts:188-284 | In every run and interleaving, whatever the clock reads, each delivery is settled at most once; not at all exactly while its handler is pending or when its body is the literal `null` |
| AmqpConsumer.AckedIffHandlerResolved | src/amqp/consumer.ts:188-284 | Acked if and only if it was handled, by the exact condition of `HandledIff`, and its handler resolved; nacked if and only if it was refused or its handler failed; a nack never requeues and never settles others |
| AmqpConsumer.Consumer.constructor | src/amqp/consumer.ts:320-331 | A consumer starts with one empty store of its own, shared by all its deliveries |
| DecisionMemo.DecisionMemo.constructor | src/core/decisionMemo.ts:97-103 | A new memo is empty and well formed, its TTL clamped as `ClampIsNearest` describes |
| DecisionMemo.DecisionMemo.DeleteKey | src/core/decisionMemo.ts:121-142 | Deleting drops the key from entries and order and keeps the order of the others |
| DecisionMemo.DecisionMemo.Get | src/core/decisionMemo.ts:116-128 | The lookup returns what `Answer` says and drops only an expired entry; the key order stays in step with the entries |
| DecisionMemo.DecisionMemo.Set | src/core/decisionMemo.ts:138-149 | The store re-inserts at the back, evicts from the front until the memo fits, and keeps the order in step with the entries |
| DecisionMemo.DecisionMemo.Clear | src/core/decisionMemo.ts:158-160 | Nothing is left |
| DecisionMemo.ClampIsNearest | src/core/decisionMemo.ts:97-108 | The effective TTL is the one within 0 and 5000 milliseconds nearest to the request, and the memo is enabled if and only if more than zero was asked for |
| DecisionMemo.RunTracks | src/core/decisionMemo.ts:88-160 | The invariant of every run of lookups, stores and clears, with a clock that may step back: entries are accurate, sorted by their last store, exactly the ones the log calls for, and never more than 1024 |
| DecisionMemo.LastStoredIsLast | src/core/decisionMemo.ts:138-160 | The log position that the other theorems speak of really is the key's last store since the last clear |
| DecisionMemo.AnswersAsTheLog | src/core/decisionMemo.ts:97-160 | In every run, with a clock that may step back, a lookup returns the decision last stored under the key since the last clear if and only if it is younger than the TTL now, was so at every lookup of the key since, and there never were 1024 other keys stored after it that no lookup had found lapsed; otherwise nothing |
| DecisionMemo.AnswersInOrder | src/core/decisionMemo.ts:97-160 | Under a clock that never goes back, it does so if and only if the decision was stored less than the TTL ago and fewer than 1024 distinct other keys were stored after it |
| DecisionMemo.StalenessIsBounded | src/core/decisionMemo.ts:102-127 | Whatever TTL was requested and whatever the clock reads, an answer was stored under that very key at a time less than the request and less than five seconds before the reading |
| DecisionMemo.BoundedAndOrdered | src/core/decisionMemo.ts:138-149 | Between calls, whatever the clock reads, at most 1024 entries are held, ordered from front to back by their last store |
| DecisionMemo.OrderedByAge | src/core/decisionMemo.ts:138-149 | Under a clock that never goes back, that is the order of the times they were written |
| DecisionMemo.EvictsAtMostTheFirst | src/core/decisionMemo.ts:138-149 | A store, whatever the clock reads, loses nothing when the memo fits, and otherwise exactly one entry, not its own, than which none was last stored before |
| DecisionMemo.EvictsAtMostTheOldest | src/core/decisionMemo.ts:138-149 | Under a clock that never goes back, the one that is lost has the least write time |
| MemoKey.KeysAgreeIffFieldsDo | src/core/decisionMemo.ts:58-75 | Without separators inside, two keys are equal if and only if all five joined parts are |
| MemoKey.KeyReadsBack | src/core/decisionMemo.ts:67-74 | Split at U+001F, the key of a separator-free question is its subject, resource, action, scope and tenant in this order, U+0000 standing for each that is absent |
| MemoKey.MemoKeyInjective | src/core/decisionMemo.ts:39-75 | Without separators, and without present parts that equal the mark of absence, equal keys come from equal questions: absent differs from present |
| MemoKey.OwnKeyIff | src/core/decisionMemo.ts:43-47 | Among all questions, one shares its key with no other if and only if no part holds the separator and every optional part is present and is not the mark |
| MemoKey.SeparatorTwin | src/core/decisionMemo.ts:68-74 | For every question with a separator inside a part there is another of the same key |
| MemoKey.MarkTwin | src/core/decisionMemo.ts:67-73 | For every question with an absent part, or one that equals the mark, there is another of the same key |
| RefreshGuard.RefreshGuard.Call | src/core/singleFlightRefresh.ts:32-39 | The caller gets the flight in the slot, or starts the one flight that then is in it; a flight handed out has not left the slot |
| RefreshGuard.RefreshGuard.Settle | src/core/singleFlightRefresh.ts:34 | A refresh that settles keeps its place in the slot until its `finally` has run, and the guard stays sound |
| RefreshGuard.RefreshGuard.Finally | src/core/singleFlightRefresh.ts:34-36 | When a settled flight is cleared the slot is empty, and the guard stays sound: only the newest flight is ever in the slot |
| CallWithRefresh.Session.BeginCall | src/grpc/callWithRefresh.ts:41-43 | A call that begins makes its first attempt and touches nothing else |
| CallWithRefresh.Session.HearFirst | src/grpc/callWithRefresh.ts:42-47 | A settled first attempt moves the session by `FirstSettles`: done, mapped, or in the guard |
| CallWithRefresh.Session.HearRefresh | src/grpc/callWithRefresh.ts:47-48 | A call resumed by its flight goes on to the sync, or ends with the flight's own fault |
| CallWithRefresh.Session.HearSync | src/grpc/callWithRefresh.ts:48-50 | A settled sync leads to the one further attempt, or ends the call with its fault |
| CallWithRefresh.Session.HearSecond | src/grpc/callWithRefresh.ts:49-53 | A settled second attempt ends the call, its error mapped |
| CallWithRefresh.InvHolds | src/grpc/callWithRefresh.ts:41-57 | The invariant of every interleaving of any number of calls and of entries from outside over one guard: every call's history fits its phase, every flight was started from outside or by a call that joined it, the guard is sound |
| CallWithRefresh.AtMostOneInFlight | src/core/singleFlightRefresh.ts:29-46 | In every interleaving at most one refresh is in flight, the slot names exactly it, and refreshes started equal refreshes finished plus the one in flight |
| CallWithRefresh.JoinersHearTheirFlight | src/core/singleFlightRefresh.ts:32-39 | A call joins a flight if and only if its first attempt qualifies, hears the outcome of exactly that flight, and hears it only after the flight has left the slot |
| CallWithRefresh.JoinsIffUnauthenticated | src/grpc/callWithRefresh.ts:45-47 | In every interleaving a call asks for a refresh if and only if its first attempt threw a service error with code 16 and the session had no device token; only then is there a second attempt |
| CallWithRefresh.JoinsTheFlightInTheSlot | src/core/singleFlightRefresh.ts:32-39 | A call that asks joins the flight that is in the slot from then on, and the one that was there if there was one |
| CallWithRefresh.HistoryIsOfSteps | src/grpc/callWithRefresh.ts:41-57 | In every interleaving the outcomes a call has kept, and the fault a settled flight holds, are those of the steps that settled them |
| CallWithRefresh.SecondAttemptIsEarned | src/grpc/callWithRefresh.ts:41-57 | At most two attempts; a second if and only if the sync completed, and then the first was UNAUTHENTICATED without a device token and the joined flight succeeded |
| CallWithRefresh.ResultTellsTheStory | src/grpc/callWithRefresh.ts:41-64 | How each finished call ended, told from what it awaited: mapped errors of its attempts, raw faults of refresh and sync |
| CallWithRefresh.ResultInPlainTerms | src/grpc/callWithRefresh.ts:41-64 | A finished call gives its last attempt's value, or its error with its code and text, "gRPC call failed" if it had none; or else the very error with which its flight or its sync failed |
| CallWithRefresh.NothingBlocks | src/grpc/callWithRefresh.ts:41-57 | Whatever is awaited can settle next, with any outcome, so the theorems about behaviours are about all of them |
| CallWithRefresh.SurfacesUnmappedIff | src/grpc/callWithRefresh.ts:35-57 | A finished call surfaces a service error unmapped if and only if its first attempt asked for a refresh and that refresh, or after a good one the sync, failed with such an error |
| CallWithRefresh.UnavailableRefreshSurfaces | src/grpc/callWithRefresh.ts:47 | A run in which a refresh that ends UNAVAILABLE surfaces as it came |
| CallWithRefresh.RefreshesAreEarned | src/grpc/callWithRefresh.ts:45-47 | Refreshes never exceed the calls whose first attempt asked for one plus the times that others entered the same guard |
| CallWithRefresh.EveryCallEnds | src/grpc/callWithRefresh.ts:41-57 | No run of n calls has more than 7n steps and three for each entry from outside, and one in which nothing else can happen has settled every call: no deadlock, no endless retry |
| CallWithRefresh.Session.OutsideEnter | src/rest/interceptors.ts:117 | Another holder of the session enters its guard: it gets the flight in the slot or starts one, and no call changes |
| Base64Url.Base64UrlToBytes | src/browser/base64url.ts:23-31 | The loop that fills the array decodes as `Decode` says, or throws with it |
| Base64Url.BytesToBase64Url | src/browser/base64url.ts:34-44 | Appending chunk by chunk encodes as `Encode` says of all bytes at once, for every length |
| Base64Url.DecodeUndoesEncode | src/browser/base64url.ts:23-44 | For all bytes, decoding undoes encoding, with any part of the missing padding restored; with more padding than is missing it throws |
| Base64Url.EncodeInjective | src/browser/base64url.ts:34-44 | Different bytes have different texts |
| Base64Url.EncodeUndoesDecodeIff | src/browser/base64url.ts:23-44 | For all strings, encoding gives back what was decoded if and only if the string is of the URL alphabet, unpadded, a whole number of bytes and without stray bits |
| Base64Url.DecodePadded | src/browser/base64url.ts:11-31 | Which padded texts of the alphabet are decoded, exactly, and to what |
| Base64Url.ForeignIsRefused | src/browser/base64url.ts:24-25 | A character that is of neither alphabet, no padding and no whitespace makes the decoding throw wherever it stands |
| Base64Url.StandardAlphabetIsRead | src/browser/base64url.ts:24 | Text of the standard alphabet is decoded like its counterpart of the URL alphabet |
| Base64Url.BytesOfSextets | src/browser/base64url.ts:34-44 | Regrouping eights into sixes and back is the identity on all bytes, and leaves no stray bits |
| Base64Url.SextetsOfBytes | src/browser/base64url.ts:23-31 | Regrouping sixes into eights and back is the identity where no bits are stray |
| Base64Url.EncodeIsSextets | src/browser/base64url.ts:40-43 | What `btoa`, the two replacements and the stripping leave is the six-bit groups in the URL alphabet, without padding |
| Base64Standard.EncodesByTheStandard | src/browser/base64url.ts:3-13 | Read through the table of RFC 4648 section 5, the text has as many values as the bits need, and each four are the 24-bit number that three bytes are |
| Base64Standard.GroupsAgree | src/browser/base64url.ts:34-44 | Every group of four six-bit values is, as a number, its group of three bytes, zeros completing the last |
| Base64Standard.EncodesInLetters | src/browser/base64url.ts:43 | Every character is the letter of the section 5 table for its value |
| DeclaredShapes.KeepDeclared | src/management/models.ts:7068-7084 | The recursive rebuild, with its loop over members, ends on every finite value under any table on which no entry leads back to itself, and gives what `Keep` is |
| DeclaredShapes.KeepIsContainer | src/management/models.ts:7068-7084 | Arrays stay arrays, objects stay objects, and nothing else becomes one |
| DeclaredShapes.EndsIffNeverReturns | src/management/models.ts:7068-7084 | For every table: the projection ends on all values and entries if and only if on no object or array an entry leads back to itself |
| DeclaredShapes.EnoughFuel | src/management/models.ts:7068-7084 | On such a table the projection cut off at some depth has already ended, with `Keep`, on every value and shape |
| DeclaredShapes.ReturningNeverEnds | src/management/models.ts:7069-7077 | On an object or array on which an entry leads back to itself, no depth of recursion gives a result |
| DeclaredShapes.PlainTablesNeverReturn | src/management/models.ts:6793-6798 | Tables whose entries and arms are not bare references meet that condition, however cyclic their nested references |
| DeclaredShapes.SelfReferringArmReturns | src/management/models.ts:7074-7077 | A table without bare-reference entries, and a value on which the projection does not end |
| DeclaredShapes.KeepsExactlyTheDeclared | src/management/models.ts:7056-7084 | At every depth and path: what was readable stays readable if and only if it is declared, scalars unchanged and kinds kept; what was not becomes readable if and only if it is the missing tag of a union whose arm is unknown, as `undefined` |
| DeclaredShapes.KeepTwice | src/management/models.ts:7068-7084 | Projecting twice is projecting once, for every value and every table whose arms keep the tag that led to them, be they allow-lists, `null`, references or further unions |
| DeclaredShapes.TagIsKept | src/management/models.ts:7074-7081 | An arm that keeps the tag of the least value led to it keeps the tag of every object led to it |
| DeclaredShapes.IdempotentIffTagged | src/management/models.ts:7068-7084 | For every table on which the projection ends, it is idempotent on all values and entries if and only if every arm that a value can be taken to keeps its tag |
| DeclaredShapes.ChangedTwice | src/management/models.ts:7074-7081 | For each shape with an arm that does not, a value that a second projection changes |
| DeclaredTable.DeclaredTagsAreDeclared | src/management/models.ts:6806-7054 | Every tagged union of the program's table declares its tag in each arm |
| DeclaredTable.ReferencesResolve | src/management/models.ts:6806-7054 | Every reference of the program's table names an entry of it, so none falls back to keeping the value as read |
| DeclaredTable.TableNeverReturns | src/management/models.ts:6806-7054 | On the program's table the projection ends |
| DeclaredTable.ScrubIsIdempotent | src/management/models.ts:6806-7084 | Projecting any value onto any declared type of the program twice is projecting it once |
| DeclaredTable.ScrubKeepsTheDeclared | src/management/models.ts:6806-7084 | Scrubbing an object of any declared type keeps exactly its declared members that are present, scalars unchanged, each nested value and each item of a nested array scrubbed as its own type; of a union the members of the arm that the tag names, or the tag alone |
| Paging.CollectPages | src/management/page.ts:106-126 | The loop returns what the walk gathered when it was done, on every server on which it ends |
| Paging.EveryWalkIsFaithful | src/management/page.ts:106-126 | Against any server: the result is the pages received in order, each query begins where the last page ended and carries the limit and search of the start, and every page but the last has a further one |
| Paging.HonestWalkIsComplete | src/management/page.ts:106-126 | From an honest server that clamps page sizes as it likes the walk ends, within max(1, rows - start) requests, with every matching row from the start offset on, each once and in order |
| Paging.WalkFromTheStart | src/management/page.ts:110-125 | From an honest server, a walk whose start names no offset gathers all rows of the search, and otherwise those from the offset it names |
| Paging.FirstQuery | src/management/page.ts:110-117 | The first query asks for the named offset, or 0, with the limit and the normalised search of the start |
| Paging.EchoedWalkEnds | src/management/page.ts:116-125 | Against any server that echoes offsets and bounds its totals, however wrong they are, at most max(1, bound - start) requests are made and the pages received are returned |
| Paging.EndsIff | src/management/page.ts:116-125 | For every server: the walk ends if and only if one of its requests is answered by a page for which `hasMore` is false |
| Paging.EmptyPageIsLast | src/management/page.ts:99-102 | An empty page is the last request of the walk, whatever total it reports, and adds nothing to the result |
| Paging.MisreportingNeverEnds | src/management/page.ts:98-104 | Two misreporting servers, one for each condition of `EchoedWalkEnds`, that are asked for ever |
| Paging.MisreportedServersMissOneCondition | src/management/page.ts:98-104 | Each of the two meets one of the conditions, so neither can be left out |
| Paging.NormalizeSearchSettles | src/management/page.ts:87-90 | Normalising twice is normalising once, exactly the blank terms are dropped, and what is left is trimmed |
| Paging.NormalizeSearchCuts | src/management/page.ts:87-90 | What is searched for is the term without the whitespace around it, and nothing if nothing is left |
| Text.SpacesByCode | src/management/page.ts:88 | The characters that are trimmed, by code point |
| Text.TrimCuts | src/management/page.ts:88 | Trimming cuts whitespace off both ends, and all of it |
| Text.SplitAt | src/middleware/cookieHeader.ts:20 | Splitting at a separator that is there splits the two sides on their own |
| Text.SplitJoin | src/core/decisionMemo.ts:68-74 | Splitting undoes joining when no part holds the separator |
| Cookies.ParseCookieHeader | src/middleware/cookieHeader.ts:15-36 | The loop that fills the record reads any header, or none, as `Parse` says |
| Cookies.ParseComposes | src/middleware/cookieHeader.ts:20-34 | For all strings, parsing `a;b` is parsing `a` overlaid by parsing `b` |
| Cookies.ParseUndoesPrint | src/middleware/cookieHeader.ts:15-36 | Parsing the printing of well-formed pairs gives their map, the last of several winning |
| Cookies.CapturesFirstFit | src/core/csrf.ts:12-21 | For all strings the leftmost match of the expression captures the value in the first `;`-piece that names the cookie |
| Cookies.SentWithFourMethods | src/core/csrf.ts:10-34 | The token is sent only with POST, PUT, PATCH and DELETE, in any case of letters |
| Cookies.ParsesLastFit | src/middleware/cookieHeader.ts:20-34 | For all headers and every name the parser ends with what the last `;`-piece that names it says, or without one |
| Cookies.PieceIsRead | src/middleware/cookieHeader.ts:20-33 | A piece that is a name and a value set off by its first equals sign, with any whitespace around either, adds exactly that pair |
| Cookies.OtherPieceIsSkipped | src/middleware/cookieHeader.ts:20-33 | Any other piece adds nothing |
| Cookies.ValidIffToken | src/middleware/cookieHeader.ts:142-160 | For every request, with or without either header: the check passes if and only if both are there, the submitted value is not empty, and it equals the parsed token |
| Cookies.DoubleSubmitIff | src/middleware/cookieHeader.ts:142-160 | For every header string the token submitted for a state-changing method passes if and only if what the expression finds in the first piece that fits decodes to what the last piece that names the cookie holds, and that is not empty |
| Cookies.DoubleSubmitOnPrinted | src/middleware/cookieHeader.ts:142-160 | On any printed header it passes if and only if the first value of the cookie decodes to the last one and that is not empty |
| Cookies.SingleTokenPasses | src/core/csrf.ts:12-34 | One non-empty percent-free cookie passes, wherever it stands among the others |
| OidcLogin.RelyingParty.BeginOidcLogin | src/middleware/oidcLoginCore.ts:132-159 | A login that could be started and saved parks exactly its entry and redirects; one that could not replies 503, also when the store rejects the entry, whether or not it kept it |
| OidcLogin.RelyingParty.CompleteOidcLogin | src/middleware/oidcLoginCore.ts:174-214 | A callback up to the awaited exchange, or to its early reply, moves the relying party by `Arrive`; if `consume` rejects, its error is not caught and no exchange follows |
| OidcLogin.RelyingParty.DropEntry | src/middleware/oidcLoginCore.ts:168-197 | An entry that expires, or that a rejected `consume` removed, is gone and nothing else changes |
| OidcLogin.RelyingParty.Consume | src/middleware/oidcLoginCore.ts:196-197 | Fetch and removal in one: what was saved under the state is returned and gone, all else stays |
| OidcLogin.RelyingParty.HearExchange | src/middleware/oidcLoginCore.ts:207-227 | A settled exchange ends in 503, in 401 with the reason of an `AuthError`, or in the hook |
| OidcLogin.RelyingParty.HearHook | src/middleware/oidcLoginCore.ts:227-240 | After the hook the reply is the redirect or the JSON body; a hook that throws is not caught |
| OidcLogin.InvHolds | src/middleware/oidcLoginCore.ts:132-240 | The invariant of every interleaving: the store holds exactly the saved logins neither used nor dropped, no state is used twice, and every exchange, hook and reply fits its callback |
| OidcLogin.HistoryIsOfSteps | src/middleware/oidcLoginCore.ts:132-159 | In every interleaving what is kept of logins and callbacks is what their requests said: state, nonce, verifier and return address of each login, query, exchange and reply of each callback |
| OidcLogin.CallbacksAreOfSteps | src/middleware/oidcLoginCore.ts:174-177 | Every callback that came is in the history, in order, with its query |
| OidcLogin.EveryStepIsDone | src/middleware/oidcLoginCore.ts:132-240 | In every interleaving each login that was saved stays in the record, each exchange that settled is heard, and each callback whose exchange failed or whose hook settled has its reply |
| OidcLogin.EachExchangeIsOfASavedLogin | src/middleware/oidcLoginCore.ts:138-214 | Every exchange carries the callback's code, the nonce and verifier that the login request of the callback's state was given, and the configured redirect URI; no other login was saved under that state |
| OidcLogin.EachLoginIsExchangedAtMostOnce | src/middleware/oidcLoginCore.ts:196-214 | No two exchanges belong to the same saved login |
| OidcLogin.HookOnlyAfterGrant | src/middleware/oidcLoginCore.ts:227 | The hook is called at most once for a callback, only after its exchange was granted, with that result and the entry saved under the callback's state |
| OidcLogin.ReachesExchangeIff | src/middleware/oidcLoginCore.ts:178-205 | A callback reaches the exchange if and only if it carries state and code and no error and its state was saved, not used and not dropped; otherwise store, exchanges and hooks are unchanged |
| OidcLogin.RefusalsAreIndistinguishable | src/middleware/oidcLoginCore.ts:165-205 | Whatever happened before, a callback refused with a store that answers is told the same: 400 for a missing state or code, else 401; unknown, used and expired states cannot be told apart |
| OidcLogin.UnavailableIffUnreachable | src/middleware/oidcLoginCore.ts:170-225 | A callback is answered 503 if and only if its exchange failed to reach the token endpoint |
| OidcLogin.SuccessIsProven | src/middleware/oidcLoginCore.ts:227-240 | A successful reply follows only a granted exchange of the login saved under the callback's state, and only after the configured hook was called |
| OidcLogin.RepliesInPlainTerms | src/middleware/oidcLoginCore.ts:178-240 | What each callback is told, status, error and message: by what it carries, by how its exchange settled, by what the hook did; `successRedirect` wins over the return address |
| OidcLogin.NothingBlocks | src/middleware/oidcLoginCore.ts:132-240 | Any login with a fresh state, any callback and any expiry can come at any moment, and what is awaited can settle with any result, so the theorems about runs are about all of them |

## Left out

- Broker, gRPC channel, HTTP frameworks and `fetch`: plumbing; deliveries, settlements, replies and pages are values.
- HMAC verification and the canonical serialisation it covers: a delivery carries the verdict.
- Constant-time comparison: plain equality of strings; UTF-8 of unpaired surrogates is not modelled.
- Logging and telemetry, `reportClamp`, `size` and the two getters of the memo: no influence on the results.
- Clocks and durations that are not whole milliseconds, and `NaN` or infinite skews and TTLs.
- A key version that parses to infinity: key versions are finite reals.
- `ack`, `nack` or a logger that throws, and a custom nonce store.
- Calls of `verifyAndDispatch` without a shared store: each has a store of its own, so nothing holds across them.
- `guard.__reset` and the module-level default guard: a hook for tests and a deprecated alias.
- A `doRefresh` that throws before it returns a promise, or that calls the guard again from within.
- What the REST transport and the OIDC client do after the guard they entered lets them go on (src/rest/interceptors.ts:117-139, src/node/oidc.ts:2459-2473): only their entries are modelled.
- Which error class `mapGrpcStatusToError` makes of a code: a mapped error keeps its code and text.
- CallWithRefresh.Session.HearFirst: says whether a device token is present at the moment the first attempt settles, as a parameter, because the session's token is not part of this model.
- DeclaredShapes.KeepDeclared: does not model the order of object members, inherited members or a member named `__proto__`, because an object is a map of its own members.
- DeclaredShapes.KeepDeclared: asks that no table entry leads back to itself, because otherwise the program does not end; `EndsIffNeverReturns` shows that.
- Paging.CollectPages: asks that the walk ends, because otherwise the program does not return; the lemmas beside it say when it does.
- The argument limit of `out.push(...page.items)` (src/management/page.ts:118) on a very large page: pages of any size are appended.
- Printing of offset and limit in `pageQuery`, and a rejected `fetch`, which ends the walk with its error.
- Cookies.ParseCookieHeader: an assignment to `__proto__` leaves the map as it is, because it makes no own member.
- `extractCredential`, `isSafeMethod` and the middleware around them: branch by branch.
- Lower-casing of characters outside ASCII in `csrfHeaderForMethod`: none of them lower-cases to a letter of the four methods.
- OidcLogin.RelyingParty.BeginOidcLogin: asks that the state is fresh, because it is drawn at random; the drawing is not part of this model.
- The state store's own clock: an entry may expire at any step. ID-token validation: part of what the exchange settles to.
- The null message of a cancelled consumer: the program ignores it.
