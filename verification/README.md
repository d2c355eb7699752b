# Verified model of the platform's stateful services

A Dafny model of the parts of the platform that carry real state, arithmetic or search, with proofs of what they
keep true over whole runs. `dafny verify dfyconfig.toml` checks everything.

Database tables are maps or sequences of rows with the unique keys of `prisma/schema.prisma`. Each service is given
twice: as a step function (or step relation) on its tables, over which the properties are proved, and as a class
whose methods change their fields in the order of the original and are proved equal to that step. A rejected call
(a thrown error) is an outcome of its own and changes nothing unless the code had already written something.

* **Economy** (`Economy*.dfy`). Every `await` on the database is one atomic step, and the steps of any number of
  operations interleave freely. Amounts are integer hundredths, times are integer milliseconds.
  `Economy.dfy` has the step machine and the same operations as single atomic actions; `EconomySerial.dfy` proves
  serializability of interleavings in which operations in flight share no account; `EconomyLedger.dfy` has
  non-negativity, paired transfers, ledger agreement and conservation; `EconomyBonus.dfy` the spacing of daily bonuses;
  `EconomyOverlap.dfy` what overlapping operations do to each other, and that serializability and spacing hold exactly
  without it; `EconomyAgreement.dfy` exactly when balances still agree with the ledger in spite of it;
  `EconomyOutcomes.dfy` when an operation succeeds and what it leaves, from amounts and past calls alone.
* **WebSocket manager** (`WebSocket*.dfy`). The index of users to sockets and rooms to users refines a flat table of
  live connections; senders reach exactly the right open sockets, each once; the heartbeat of RFC 6455 sections
  5.5.2 and 5.5.3 terminates exactly the sockets that leave a ping unanswered; `WebSocketHistory.dfy` tells from the
  events alone whom each kind of message reaches.
* **Brain engine** (`Tokenizer.dfy`, `Similarity.dfy`, `Ranking.dfy`, `Brain*.dfy`) and **brain service**
  (`BrainService.dfy`). Tokenizer, Jaccard similarity as an exact ratio, the threshold searches, learning, feedback,
  and the knowledge cache against its table; `BrainAnswers.dfy` and `KnowledgeHistory.dfy` go from what was told to
  what is answered.
* **Utilities** (`Html.dfy`, `Slug.dfy`, `Pagination.dfy`, over `Text.dfy`).
* **Games, wiki, friends, tournaments, sessions** (one file each): state machines with inductive invariants.
  `WikiHistory.dfy`, `FriendsHistory.dfy`, `TournamentHistory.dfy` and `SessionHistory.dfy` give a second account of
  four of them that has no tables: from the calls made and accepted so far it says what the tables hold and how every
  further call comes out, and the step functions are proved to agree with it.

What came out against expectation, each a result below:

* Any two economy operations that share an account can overlap so that an update is lost, an outcome changes or they
  collide on a new account row; a set of operations is serializable in every interleaving if and only if no two that
  pass their first checks share an account, and the tables on which it fails can be had by deposits alone
  (`LostUpdate`, `SerializableExactly`). Balances agree with the ledger, once every interleaving is at rest, if and
  only if those that share an account move nothing on it (`AgreementExactly`). Balances still never go below zero,
  exactly when no purchase has a negative amount, which the code does not check (`NonNegativeExactly`).
* Two overlapping claims of the daily bonus are both paid (`DoubleBonus`); bonuses are a day apart in every
  interleaving if and only if at most one operation claims (`BonusesADayApartExactly`).
* An update with empty content blanks a wiki page without recording a revision; reading past contents back works
  over a run if and only if no call does that (`TimeTravelExactly`).
* Reverting a wiki page does not look at which page the revision belongs to, so it can bring back another page's content
  (`RevertRestores`, `WikiHistory.OutcomesExactly`).
* A friend request stays behind once answered, also after a rejection or an unfriending: over any run a request goes
  through if and only if it is not to oneself and no request of the pair went through since one last blocked the other
  (`AskingSucceedsExactly`, `UnfriendedCannotAsk`).
* Rejecting does not look at the status of a request, so an accepted one can be marked rejected while the friendship
  stays (`RejectedFriends`); every friendship has an accepted request over a run if and only if no call does that
  (`AcceptedExactlyUnlessRejected`).
* Refresh tokens handed out by registration and OAuth sign-in belong to no session: a token is accepted in some
  continuation of a run if and only if a login or a refresh handed it out, and straight after that within a week, for an
  active owner (`EverUsableExactly`, `RefreshableExactly`).
* Tournament seeds are 1 to n at every moment of a run if and only if nobody but the last to come unregisters; after
  any other unregistering the next to register gets a seed already given (`SeedsExactly`, `SeedsCollide`).
* A poor rating lowers the first pattern of a text whatever its context; exactly when that is the one that answers, by
  match or by resemblance, is `PoorRatingHits`.
* One of the engine's farewells contains a space and can never match a token (`PhraseNeverHeard`); a word can be heard
  if and only if it is longer than one character, no stop word, lower case and without separators (`HeardExactly`).

Assumed about the database client: an argument that names no column is an error. So a wiki update that carries a change
note, which is passed on to the page row, is modelled as rejected (`src/modules/wiki/service/wiki.service.ts:69`,
`prisma/schema.prisma:1118-1141`).

## Model

| member | source | states |
|---|---|---|
| Economy.RunAloneIsApply | src/modules/economy/service/economy.service.ts:35-160 | an operation whose database calls run undisturbed ends having done exactly its one atomic action, with the same outcome |
| EconomyOutcomes.SucceedsExactly | src/modules/economy/service/economy.service.ts:35-160 | on any table a deposit succeeds exactly with a positive amount, a withdrawal and a transfer between different users exactly with a positive amount that the balance covers, a shop purchase exactly when the balance covers its price, a currency purchase always, and a bonus exactly when none was paid within 24 hours |
| EconomyOutcomes.MovesExactly | src/modules/economy/service/economy.service.ts:35-160 | an operation that succeeds changes each balance by exactly its amount, a bonus by 100, and leaves exactly its transactions; one that fails changes no balance and leaves none |
| EconomyOutcomes.OutcomesExactly | src/modules/economy/service/economy.service.ts:35-160 | run one at a time from empty tables, the reported outcomes are the right ones if and only if each follows from what the earlier operations that succeeded put into and took out of the accounts, and when they paid bonuses |
| EconomyOutcomes.InterleavedOutcomes | src/modules/economy/service/economy.service.ts:13-160 | the same in every isolated interleaving, where moreover each free account holds exactly what the operations that succeeded left there |
| EconomySerial.StepFrame | src/modules/economy/service/economy.service.ts:35-160 | a database call leaves the balance and the ledger of every account but its operation's own untouched |
| EconomySerial.StepLocal | src/modules/economy/service/economy.service.ts:35-160 | what a call does depends only on the balances and ledgers of its operation's own accounts |
| EconomySerial.ExecSimulates | src/modules/economy/service/economy.service.ts:35-160 | one call of an isolated operation keeps the interleaved system equivalent to the one-at-a-time run of the finished operations |
| EconomySerial.Serializable | src/modules/economy/service/economy.service.ts:13-160 | in any interleaving where operations in flight never share an account, every free account has the balance and ledger of the one-at-a-time run in completion order, and every finished operation reported its outcome in that run |
| EconomySerial.SerializableAtRest | src/modules/economy/service/economy.service.ts:13-160 | once nothing is in flight the account tables of the two runs are equal and so is each account's ledger |
| EconomySerial.CompletionListIsComplete | src/modules/economy/service/economy.service.ts:35-160 | the completion order lists exactly the ended operations, each once, with its operation, times and outcome |
| EconomyOverlap.LostUpdate | src/modules/economy/service/economy.service.ts:35-160 | any two operations sharing an account, the first of which changes it: when both read before either writes, both report success and both leave their rows, the balance shows the second alone, and a one-at-a-time run in which both succeed would show both |
| EconomyOverlap.TwoDeposits | src/modules/economy/service/economy.service.ts:35-47 | for example two deposits of one amount leave one amount, both reporting success, where one after the other they leave two |
| EconomyOverlap.CreationCollides | src/modules/economy/service/economy.service.ts:13-23 | two operations that move nothing on a missing account collide on its creation: the second fails, which alone it would not |
| EconomyOverlap.SerializableExactly | src/modules/economy/service/economy.service.ts:13-160 | every interleaving equals the one-at-a-time run in completion order, outcomes included, if and only if no two operations that pass their first checks share an account: quantified over every table, and just as well over only the tables that histories of operations leave behind |
| EconomyOverlap.DoubleBonus | src/modules/economy/service/economy.service.ts:131-148 | two claims that both check before either records are both paid at the same moment |
| EconomyOverlap.BonusesADayApartExactly | src/modules/economy/service/economy.service.ts:131-148 | under a monotone clock bonuses on an account are a day apart in every interleaving if and only if at most one operation claims on it |
| EconomyLedger.NonNegativeExactly | src/modules/economy/service/economy.service.ts:36-92 | balances stay non-negative in every interleaving, overlapping ones included, if and only if no purchase has a negative amount |
| EconomyLedger.RunPaired | src/modules/economy/service/economy.service.ts:72-81 | in every interleaving each outgoing transfer row is followed by its incoming row: same positive amount and time, each naming the other account, same currency; and no incoming row stands alone |
| EconomyLedger.ApplyAgrees | src/modules/economy/service/economy.service.ts:35-160 | each operation keeps every balance equal to the signed sum of its account's transactions |
| EconomyLedger.ApplyConserves | src/modules/economy/service/economy.service.ts:35-160 | each operation keeps every currency's total equal to what its rows say came in less what went out |
| EconomyLedger.LedgerAgreement | src/modules/economy/service/economy.service.ts:35-160 | in every isolated interleaving each free account's balance is the signed sum of its own transactions |
| EconomyAgreement.RunSteady | src/modules/economy/service/economy.service.ts:35-160 | while operations that share an account move nothing on it, in every interleaving each balance is the signed sum of its ledger plus what an operation between its write and its record has written, and what operations have read is still what their accounts hold |
| EconomyAgreement.AgreementExactly | src/modules/economy/service/economy.service.ts:35-160 | balances agree with the ledger at rest of every interleaving if and only if operations that share an account move nothing on it: from every table that agrees, and just as well from only those that histories leave behind |
| EconomyLedger.Conservation | src/modules/economy/service/economy.service.ts:35-160 | at rest each currency's total is deposits, purchases and bonuses less withdrawals and shop purchases |
| EconomyBonus.BonusesADayApart | src/modules/economy/service/economy.service.ts:131-148 | under a monotone clock and with claims on the account serial, its bonuses are at least 24 hours apart in every interleaving, whatever other operations overlap the claims or each other |
| EconomyBonus.DailyBonusBound | src/modules/economy/service/economy.service.ts:131-148 | so in every such run any window of W milliseconds holds at most W / 24h + 1 bonuses of the account |
| EconomyBonus.WindowBound | src/modules/economy/service/economy.service.ts:131-148 | bonuses so spaced fall at most W / 24h + 1 times into any window of W milliseconds |
| EconomyBonus.StatedWaitIsExact | src/modules/economy/service/economy.service.ts:137-140 | a rejected claim becomes due after a whole number of hours exactly when that is at least the number stated in the rejection |
| EconomyMethods.EconomyService.GetAccount | src/modules/economy/service/economy.service.ts:13-23 | returns the account's balance, having created it at zero when it was missing, and changes nothing else |
| EconomyMethods.EconomyService.Deposit | src/modules/economy/service/economy.service.ts:35-47 | the atomic deposit: balances, ledger row and outcome; succeeds exactly with a positive amount |
| EconomyMethods.EconomyService.Withdraw | src/modules/economy/service/economy.service.ts:49-60 | the atomic withdrawal; succeeds exactly with a positive amount that the balance covers |
| EconomyMethods.EconomyService.Transfer | src/modules/economy/service/economy.service.ts:62-87 | the atomic transfer of both legs and both rows, or neither; succeeds exactly between different users with a positive amount that the sender's balance covers |
| EconomyMethods.EconomyService.PurchaseCurrency | src/modules/economy/service/economy.service.ts:89-98 | the atomic purchase, of whatever amount; always succeeds |
| EconomyMethods.EconomyService.Reward | src/modules/economy/service/economy.service.ts:123-125 | is a deposit |
| EconomyMethods.EconomyService.Deduct | src/modules/economy/service/economy.service.ts:127-129 | is a withdrawal |
| EconomyMethods.EconomyService.DailyBonus | src/modules/economy/service/economy.service.ts:131-148 | the atomic claim; succeeds exactly when no bonus was paid within 24 hours, and on rejection states the exact least number of hours after which a claim is due |
| EconomyMethods.EconomyService.ShopPurchase | src/modules/economy/service/economy.service.ts:150-160 | the atomic purchase of an item; succeeds exactly when the balance covers its price |
| WebSocketIndex.IndexRefinesFlatTable | src/core/websocket/index.ts:34-170 | in every reachable state each user's entry is exactly the set of that user's live sockets, entries are non-empty, only online users are in rooms, and index and flat table of connections and memberships agree |
| WebSocketIndex.ExactMeans | src/core/websocket/index.ts:49-56 | hence a user has an entry just when connected, entries of different users are disjoint, and their sockets are live connections of that user |
| WebSocketIndex.StepExact | src/core/websocket/index.ts:34-246 | every connect, message, pong, close, disconnect and tick keeps the index exact |
| WebSocketIndex.LastDisconnectSweeps | src/core/websocket/index.ts:153-170 | when a user's last connection goes the user has no entry, is in no room, and no room is left empty, those emptied earlier by leaving included |
| WebSocketIndex.TerminatedExactly | src/core/websocket/index.ts:233-246 | an accepted socket is terminated exactly at the ticks that follow an earlier tick with no pong of its own in between |
| WebSocketIndex.AnsweringIsNeverTerminated | src/core/websocket/index.ts:55-246 | a socket that pongs between any two ticks is never terminated |
| WebSocketIndex.SilentIsTerminated | src/core/websocket/index.ts:233-246 | a socket that stays silent is terminated at the second tick and not at the first |
| WebSocketHistory.LiveExactly | src/core/websocket/index.ts:34-170 | in every reachable state a socket is a connection of a user exactly when it was accepted as one, not being held already, and has not disconnected since |
| WebSocketHistory.OpenExactly | src/core/websocket/index.ts:55-246 | an accepted socket is open exactly when since then it has not closed and no tick has followed an earlier tick with no pong of its own in between |
| WebSocketHistory.SubscribedExactly | src/core/websocket/index.ts:112-151 | an accepted socket is subscribed to a name exactly when since then it subscribed to it, or joined the room so named, and has not unsubscribed or left that room later |
| WebSocketHistory.MemberExactly | src/core/websocket/index.ts:134-170 | a user is in a room exactly when the user joined it on some socket, has not left it since on any, and has been online all along |
| WebSocketHistory.UserReachedExactly | src/core/websocket/index.ts:191-204 | after any events, a message to a user is sent to exactly the sockets accepted as that user's that nothing has ended |
| WebSocketHistory.BroadcastReachedExactly | src/core/websocket/index.ts:191-221 | a broadcast to exactly the accepted sockets that nothing has ended |
| WebSocketHistory.RoomReachedExactly | src/core/websocket/index.ts:191-213 | a message to a room to exactly those of the users who are in it |
| WebSocketHistory.EventReachedExactly | src/core/websocket/index.ts:191-231 | an event to exactly those subscribed to it or to everything |
| WebSocketHistory.SilentIsUnreachable | src/core/websocket/index.ts:191-246 | from the second tick it leaves unanswered no message reaches a socket |
| WebSocketMethods.WebSocketManager.Send | src/core/websocket/index.ts:191-195 | sends one frame to an open socket and nothing to a closed one |
| WebSocketMethods.WebSocketManager.HandleConnection | src/core/websocket/index.ts:34-72 | does what the connect event does, and greets exactly an accepted socket |
| WebSocketMethods.WebSocketManager.HandleSubscribe | src/core/websocket/index.ts:112-121 | does what the subscribe event does and confirms it once |
| WebSocketMethods.WebSocketManager.HandleUnsubscribe | src/core/websocket/index.ts:123-132 | does what the unsubscribe event does and confirms it once |
| WebSocketMethods.WebSocketManager.HandleJoinRoom | src/core/websocket/index.ts:134-143 | does what the join event does and sends nothing |
| WebSocketMethods.WebSocketManager.HandleLeaveRoom | src/core/websocket/index.ts:145-151 | does what the leave event does and sends nothing |
| WebSocketMethods.WebSocketManager.HandlePing | src/core/websocket/index.ts:91-98 | answers the ping message with one pong frame and changes nothing, the liveness mark included |
| WebSocketMethods.WebSocketManager.HandlePong | src/core/websocket/index.ts:55 | does what the pong event does |
| WebSocketMethods.WebSocketManager.LeaveAllRooms | src/core/websocket/index.ts:160-165 | the loop that deletes while iterating takes the user out of every room and leaves exactly the rooms with someone else in them |
| WebSocketMethods.WebSocketManager.HandleDisconnect | src/core/websocket/index.ts:153-170 | does what the disconnect event does and sends nothing |
| WebSocketMethods.WebSocketManager.SendToUser | src/core/websocket/index.ts:197-204 | reaches exactly the user's open sockets, each once |
| WebSocketMethods.WebSocketManager.SendToRoom | src/core/websocket/index.ts:206-213 | reaches exactly the open sockets of the users in the room, each once |
| WebSocketMethods.WebSocketManager.Broadcast | src/core/websocket/index.ts:215-221 | reaches exactly the open accepted sockets, each once |
| WebSocketMethods.WebSocketManager.BroadcastToSubscribers | src/core/websocket/index.ts:223-231 | reaches exactly the open accepted sockets subscribed to the event or to everything, each once |
| WebSocketMethods.WebSocketManager.Heartbeat | src/core/websocket/index.ts:233-246 | one tick: terminates exactly the sockets whose mark is unset, which are then no longer open, and unsets the mark of the others, which stay as open as they were |
| WebSocketMethods.WebSocketManager.IsUserOnline | src/core/websocket/index.ts:252-254 | true exactly when the flat table has a connection of the user |
| WebSocketMethods.WebSocketManager.GetConnectionCount | src/core/websocket/index.ts:256-262 | the size of the flat table |
| Html.SanitizeIsEscapeEach | src/core/utils/index.ts:104-111 | the chain of five global replacements is one pass of a per-character map, for every string |
| Html.NothingRaw | src/core/utils/index.ts:104-111 | no raw angle bracket or quote is left |
| Html.DecodeUndoesSanitize | src/core/utils/index.ts:104-111 | an entity decoder gives every string back |
| Html.StableExactly | src/core/utils/index.ts:104-111 | sanitizing twice is sanitizing once exactly for strings with none of the five characters |
| Slug.SlugifyForm | src/core/utils/index.ts:47-54 | a slug has lower-case letters, digits and hyphens only, with no hyphen at either end |
| Slug.FixedExactly | src/core/utils/index.ts:47-54 | slugifying leaves exactly the strings of that form unchanged, hence is idempotent |
| Slug.LettersSurvive | src/core/utils/index.ts:47-54 | the letters and digits of the text, in lower case, are those of the slug, all and in order |
| Slug.SlugifyExactly | src/core/utils/index.ts:47-54 | the chain of replacements is one pass over the text, in which a run of blanks and underscores becomes one hyphen and dropped characters do not interrupt it, followed by stripping hyphens off the ends |
| Pagination.ParsePagination | src/core/utils/index.ts:56-70 | the page is the one asked for, or 1 when absent or below 1; the limit is the one asked for, 20 when absent, and clamped to 1 and 100 |
| Pagination.PagesRestoreTheList | src/core/utils/index.ts:72-89 | pages 1 to totalPages in a row are the list, exactly the later pages are empty, and hasNext holds exactly when items remain |
| Pagination.EachItemOnOnePage | src/modules/economy/service/economy.service.ts:103-107 | an item lies in the range of exactly one page, and is found there |
| Tokenizer.TokenShape | src/modules/brain/engine/brain.engine.ts:31-40 | tokens are longer than one character, no stop words, lower case, without separators |
| Tokenizer.SplitJoin | src/modules/brain/engine/brain.engine.ts:33-35 | splitting undoes joining with spaces for plain non-empty words |
| Tokenizer.SplitKeepsWords | src/modules/brain/engine/brain.engine.ts:33-35 | the fields put together are the text without its separators |
| Tokenizer.RoundTrip | src/modules/brain/engine/brain.engine.ts:31-40 | tokenizing the tokens joined by spaces gives the same tokens, for every input |
| Tokenizer.HeardExactly | src/modules/brain/engine/brain.engine.ts:17-40 | a word is a token of some input if and only if it is longer than one character, no stop word, lower case and without separators |
| Tokenizer.NormalizeTwice | src/modules/brain/engine/brain.engine.ts:31-40 | normalizing a normalized text changes nothing, so a stored text has the tokens of the text it came from |
| Tokenizer.TokensApart | src/modules/brain/engine/brain.engine.ts:31-40 | the tokens of two texts put together with a separator between are the tokens of the one followed by those of the other |
| Tokenizer.OneWordExactly | src/modules/brain/engine/brain.engine.ts:31-40 | a text without separators has itself in lower case as its only token, or none if it is short or a stop word |
| Tokenizer.NormalizeExactly | src/modules/brain/engine/brain.engine.ts:32 | normalizing puts a text in lower case and takes exactly the white space off its ends |
| Similarity.CalculateSimilarity | src/modules/brain/engine/brain.engine.ts:42-51 | the ratio lies between 0 and 1, and is 0 when a list is empty |
| Similarity.SimilarityIsShare | src/modules/brain/engine/brain.engine.ts:42-51 | the similarity is the share of the different words of either list that are words of both |
| Similarity.SymmetricAndDefinite | src/modules/brain/engine/brain.engine.ts:42-51 | the distance is symmetric, between 0 and 1, zero exactly on equal sets and one exactly on disjoint ones |
| Similarity.Triangle | src/modules/brain/engine/brain.engine.ts:42-51 | the triangle inequality for the distance of any three non-empty token sets |
| Similarity.SimilarityIsMetric | src/modules/brain/engine/brain.engine.ts:42-51 | one minus the similarity of non-empty token lists is symmetric, zero exactly on equal token sets, and satisfies the triangle inequality |
| Similarity.MatchesShareAToken | src/modules/brain/engine/brain.engine.ts:84-93 | two patterns that both pass one half for one input have a token in common |
| Ranking.RankedIsStableSort | src/modules/brain/engine/brain.engine.ts:78-82 | ordering by a key descending sorts, keeps every row, and keeps the order of rows with equal keys |
| Ranking.TakeIsTop | src/modules/brain/engine/brain.engine.ts:78-82 | the rows taken are the first of the order, and none left out has a larger key than one taken |
| Ranking.TakenOrBeaten | src/modules/brain/engine/brain.engine.ts:78-82 | a row is among those taken unless as many as asked for are that have keys at least as large |
| Ranking.RankedHead | src/modules/brain/engine/brain.engine.ts:60-63 | the head of the order is the first of the rows with the largest key |
| Brain.FindBest | src/modules/brain/engine/brain.engine.ts:84-93 | the loop finds the first of the greatest similarities if that is above one half, and nothing otherwise |
| Brain.FindFit | src/modules/brain/engine/brain.engine.ts:130-149 | the loop stops at the first similarity above 0.4, or finds none |
| Brain.FirstWithKey | src/modules/brain/engine/brain.engine.ts:209-211 | the first row with the hash and context, or none has both |
| Brain.ExactIsRow | src/modules/brain/engine/brain.engine.ts:60-65 | an exact hit is the first of the most confident rows of the hash and above 0.7; without one no row of the hash is above 0.7 |
| BrainMethods.BrainEngine.ProcessInput | src/modules/brain/engine/brain.engine.ts:53-118 | gives the one answer of the four stages in order, counts the access on the answering row only, and records the interaction |
| BrainMethods.BrainEngine.SearchMemories | src/modules/brain/engine/brain.engine.ts:120-152 | answers with the value of the first fitting memory and counts the access on that row only |
| BrainMethods.BrainEngine.Learn | src/modules/brain/engine/brain.engine.ts:199-244 | updates the first pattern of the text and context, or adds one |
| BrainMethods.BrainEngine.Memorize | src/modules/brain/engine/brain.engine.ts:246-259 | stores under the unique key of category and key |
| BrainMethods.BrainEngine.Forget | src/modules/brain/engine/brain.engine.ts:261-267 | removes that key's memories and nothing else |
| BrainMethods.BrainEngine.Feedback | src/modules/brain/engine/brain.engine.ts:269-303 | marks the interaction, teaches it on 4 or more, lowers the first pattern of its text on 2 or less |
| BrainMethods.BrainEngine.Train | src/modules/brain/engine/brain.engine.ts:305-326 | learns the selected validated rows in order and reports how many |
| BrainRecall.OneEachOverRuns | src/modules/brain/engine/brain.engine.ts:199-267 | over every run there is at most one pattern per text and context and one memory per category and key |
| BrainRecall.StepKeeps | src/modules/brain/engine/brain.engine.ts:53-326 | every call keeps that, and keeps every pattern under its text and context |
| BrainRecall.AskingChangesNoAnswer | src/modules/brain/engine/brain.engine.ts:53-118 | after any number of questions every question has the answer it had before |
| BrainRecall.AnswerIgnoresCounters | src/modules/brain/engine/brain.engine.ts:60-93 | the answer does not depend on usage and access counts |
| BrainRecall.ExactExactly | src/modules/brain/engine/brain.engine.ts:60-76 | a text is answered by pattern match exactly when a pattern of that text, in any context, is above 0.7, and then by the first of the most confident |
| BrainRecall.FuzzyExactly | src/modules/brain/engine/brain.engine.ts:78-106 | otherwise the answer is fuzzy exactly when a candidate is more than half similar, and then it is the output of the first of the most similar, as confident as the similarity times the confidence of the pattern |
| BrainRecall.MemoryExactly | src/modules/brain/engine/brain.engine.ts:108-152 | otherwise it comes from a memory exactly when a recalled one is above 0.4, and then it is the value of the first, as confident as the similarity times its weight |
| BrainRecall.ResembledExactly | src/modules/brain/engine/brain.engine.ts:78-106 | a text with no exact hit is answered by resemblance from its own pattern exactly when it has tokens and that pattern comes before every other candidate with the same token set |
| BrainRecall.CandidatesAreTop | src/modules/brain/engine/brain.engine.ts:78-82 | candidates are of the context, when one is given; and such a pattern is a candidate unless a hundred candidates are at least as confident |
| BrainRecall.LessonsAccumulate | src/modules/brain/engine/brain.engine.ts:199-224 | a new text taught n times ends as one pattern with the last answer, 0.05 more confident for each repetition |
| BrainRecall.TaughtIsRecalledExactly | src/modules/brain/engine/brain.engine.ts:60-224 | a new text, once taught, is answered by its last lesson from its pattern exactly when the lessons brought it above 0.7 |
| BrainRecall.RatingTips | src/modules/brain/engine/brain.engine.ts:269-300 | after a rating a text is answered by pattern match exactly when the rating added a pattern for it or some pattern of the text, in any context, is above 0.7 after plus 0.05 for the one taught again or minus 0.1 for the first of the text |
| BrainRecall.RatedRows | src/modules/brain/engine/brain.engine.ts:269-300 | a rating keeps every row under its text, moves the confidence of the row taught again or of the first of the text, gives the rated output to the former, and may add one row at 0.9 |
| BrainRecall.PoorRatingHits | src/modules/brain/engine/brain.engine.ts:60-298 | a poor rating lowers the first pattern of the text by a tenth, whatever its context, and no other; the text is answered from that one, in a given context, exactly when no pattern of the text is more confident, if one is above 0.7, and otherwise exactly when the text has tokens and that pattern comes before every other candidate with the same token set |
| BrainRecall.MemorizedUntilForgotten | src/modules/brain/engine/brain.engine.ts:246-267 | a memorized key has exactly one row, with that value and weight, and forgetting it leaves what forgetting it before would have |
| BrainAnswers.RecalledAreTop | src/modules/brain/engine/brain.engine.ts:120-128 | the memories searched are of the category, when one is given; and such a memory is searched unless fifty are that weigh at least as much |
| BrainAnswers.MemorizedAnswersExactly | src/modules/brain/engine/brain.engine.ts:60-259 | with no exact or fuzzy hit and no memory under another key fitting, memorizing a value under a fitting key makes that value the answer, as confident as its weight times the similarity, exactly when the key is among those searched |
| BrainAnswers.MemorizedIsAnswered | src/modules/brain/engine/brain.engine.ts:60-259 | so it does while there are fewer than fifty memories, asked in its category or in none |
| BrainAnswers.RatedTeachesTheAnswer | src/modules/brain/engine/brain.engine.ts:53-300 | rating the answer just given marks its interaction, which has the asked input and the given output, and with 4 or more makes that output the answer of that text in that context |
| BrainAnswers.TrainedTeaches | src/modules/brain/engine/brain.engine.ts:305-326 | after training each text of a category gives the output of its last validated row |
| BrainAnswers.CountersCountAnswers | src/modules/brain/engine/brain.engine.ts:53-152 | over any run of questions the usage count of each pattern grows by the number of questions answered from it, and the access count of each memory by the number answered from that |
| BrainAnswers.GreetingComesFirst | src/modules/brain/engine/brain.engine.ts:154-166 | with no hit an input with a greeting is greeted, whatever else it says |
| BrainAnswers.FarewellComesNext | src/modules/brain/engine/brain.engine.ts:168-174 | one with a farewell and no greeting is bidden farewell |
| BrainAnswers.ThanksComeThird | src/modules/brain/engine/brain.engine.ts:176-182 | one with thanks and neither is acknowledged |
| BrainAnswers.FallbackComesLast | src/modules/brain/engine/brain.engine.ts:184-196 | and the request for feedback is for exactly the inputs with none of the listed words |
| BrainRecall.PhraseNeverHeard | src/modules/brain/engine/brain.engine.ts:156-168 | the farewell with a space in it is a token of no input, being no plain word |
| BrainService.BrainService.LoadKnowledge | src/modules/brain/service/brain.service.ts:41-58 | the cache holds every row of the table in the order read, or nothing when reading fails; it agrees with the table exactly when reading succeeded or the table is empty |
| BrainService.BrainService.Train | src/modules/brain/service/brain.service.ts:125-137 | writes the table row and the same cache entry under a fresh id |
| BrainService.BrainService.TrainBatch | src/modules/brain/service/brain.service.ts:139-146 | trains every entry in order and reports how many |
| BrainService.BrainService.DeleteKnowledge | src/modules/brain/service/brain.service.ts:179-183 | removes the entry from cache and table; rejected when the table has no such row |
| BrainService.BrainService.GenerateResponse | src/modules/brain/service/brain.service.ts:80-123 | the search loop with its counter updates, then the reply it calls for |
| BrainService.ScoreEntry | src/modules/brain/service/brain.service.ts:87-98 | the nested loops count the pattern words that contain or are contained in a word of the message, as a share weighted by the confidence |
| BrainService.RunsAgree | src/modules/brain/service/brain.service.ts:80-183 | once cache and table agree they agree after every run of training, deleting and chatting |
| BrainService.ImprovesExactlyAtRecords | src/modules/brain/service/brain.service.ts:99-105 | the loop's test holds exactly at scores above 0.3 that exceed every earlier score |
| BrainService.SearchExactly | src/modules/brain/service/brain.service.ts:83-110 | the search has a match exactly when some score is above one half, and then the first of the greatest |
| BrainService.ChatExactly | src/modules/brain/service/brain.service.ts:80-123 | a chat answers with the first entry of greatest score above one half, otherwise with the canned reply, and counts one use, at the clock reading, on exactly the record entries |
| BrainService.ScoreBounds | src/modules/brain/service/brain.service.ts:87-98 | a score lies between zero and the confidence of its entry, negative ones included, and a message with all words of the pattern reaches the confidence |
| BrainService.TaughtIsAnswered | src/modules/brain/service/brain.service.ts:86-110 | a message with all words of a pattern trusted above one half is answered from the knowledge, by an entry scoring no less |
| KnowledgeHistory.KnowledgeExactly | src/modules/brain/service/brain.service.ts:125-183 | in every state of a run the entries made in it are exactly those of the lessons taught and not removed since, each with the pattern, response and category of its lesson and the confidence it asked for, or 0.8 |
| KnowledgeHistory.IncludesExactly | src/modules/brain/service/brain.service.ts:92 | one string includes another exactly when it is something, then the other, then something |
| KnowledgeHistory.ScoreExactly | src/modules/brain/service/brain.service.ts:86-98 | the score of an entry is its confidence times the share of its pattern's words that contain, or are contained in, a word of the message |
| KnowledgeHistory.LessonAnswers | src/modules/brain/service/brain.service.ts:80-137 | once taught, a lesson trusted above one half answers every message that has all its words, as long as nothing known before scores as high |
| KnowledgeHistory.HelpComesFirst | src/modules/brain/service/brain.service.ts:112-114 | without a match, a message that asks for help is told what the assistant can do |
| KnowledgeHistory.StatusComesNext | src/modules/brain/service/brain.service.ts:115-117 | one about the system, and not for help, that all is well |
| KnowledgeHistory.GreetingComesLast | src/modules/brain/service/brain.service.ts:118-122 | one with a greeting, and neither, is greeted, and any other gets the fallback |
| Games.GamesService.UpdatePlayerStats | src/modules/games/service/games.service.ts:57-72 | rejects missing and unranked games; otherwise stores and returns the player's updated record and changes no other game |
| Games.OwnReportsOnly | src/modules/games/service/games.service.ts:61-71 | over any run of reports a user's record depends on that user's own reports only |
| Games.WalkClosedForm | src/modules/games/service/games.service.ts:67-68 | the walk clamped at zero has a closed form by prefix sums |
| Games.EloClosedForm | src/modules/games/service/games.service.ts:57-72 | a rating is the greatest of 1000 plus all steps and the sums of steps after each step, never negative, and at most 25 above 1000 for each report with wins |
| Games.TotalsAddUp | src/modules/games/service/games.service.ts:63-66 | wins, losses, draws and score are the sums of the user's own reports |
| Games.LeaderboardIsTop | src/modules/games/service/games.service.ts:74-83 | the leaderboard is in descending rating, as long as asked for, and omits no better player |
| Games.MatchmakeIsNearest | src/modules/games/service/games.service.ts:85-93 | matchmaking offers up to ten others, nearest to the effective rating first, and passes over no nearer one |
| Wiki.WikiService.CreatePage | src/modules/wiki/service/wiki.service.ts:53-63 | creates page and first revision, rejected on a taken slug |
| Wiki.WikiService.UpdatePage | src/modules/wiki/service/wiki.service.ts:65-78 | overwrites the page under a new version and records a revision for non-empty content |
| Wiki.WikiService.RevertToRevision | src/modules/wiki/service/wiki.service.ts:85-94 | gives the page the content of the revision with that id under the next version, and records it |
| Wiki.WikiService.DeletePage | src/modules/wiki/service/wiki.service.ts:96-102 | removes the page and exactly its revisions |
| Wiki.StepKept | src/modules/wiki/service/wiki.service.ts:53-102 | revision versions of a page strictly increase from 1 and never run ahead of the page |
| Wiki.RunExtends | src/modules/wiki/service/wiki.service.ts:65-94 | over any stretch of a run the revisions a surviving page had stay unaltered and in place, and new ones have later versions |
| Wiki.StepCurrentExactly | src/modules/wiki/service/wiki.service.ts:65-78 | a call keeps page contents equal to latest revisions exactly when it does not blank a page |
| Wiki.TimeTravelHolds | src/modules/wiki/service/wiki.service.ts:53-94 | without blanking, the content a page had at each past version is that of its greatest revision not above that version |
| Wiki.TimeTravelExactly | src/modules/wiki/service/wiki.service.ts:65-78 | that holds at every moment of a run if and only if no call of the run blanks a page |
| WikiHistory.TablesExactly | src/modules/wiki/service/wiki.service.ts:53-102 | in every reachable state a page exists exactly when it was created and not deleted, with the content and title last written to it and one version for each writing; a revision exists exactly when a call recorded it and its page has not been deleted since, with what that call wrote |
| WikiHistory.RevisionsAreUnique | src/modules/wiki/service/wiki.service.ts:53-94 | no two revisions share an id in any reachable state |
| WikiHistory.OutcomesExactly | src/modules/wiki/service/wiki.service.ts:53-102 | over any run a page is created exactly on a free slug, updated (without a change note) or deleted exactly while it exists, and reverted exactly while it exists to a revision that still does |
| WikiHistory.RevertRestores | src/modules/wiki/service/wiki.service.ts:85-94 | what a call once wrote comes back, whatever happened between, when a page is reverted to the revision that call recorded; title and other pages stay as they are |
| Friends.FriendsService.SendRequest | src/modules/friends/service/friends.service.ts:29-50 | a new pending request, rejected to oneself, on an existing request or friendship either way round |
| Friends.FriendsService.AcceptRequest | src/modules/friends/service/friends.service.ts:52-65 | marks the request and adds the friendship together, for the receiver of a pending request |
| Friends.FriendsService.RejectRequest | src/modules/friends/service/friends.service.ts:67-74 | marks the receiver's request, whatever its status |
| Friends.FriendsService.RemoveFriend | src/modules/friends/service/friends.service.ts:76-85 | deletes one friendship row of the pair |
| Friends.FriendsService.BlockUser | src/modules/friends/service/friends.service.ts:87-101 | deletes one friendship row and all requests of the pair |
| Friends.FriendsService.GetMutualFriends | src/modules/friends/service/friends.service.ts:133-149 | exactly the users who are friends of both, never either of the two |
| Friends.RunsKeepGraph | src/modules/friends/service/friends.service.ts:29-101 | every reachable state has no self rows, at most one request and one friendship per unordered pair, and an answered request behind every friendship |
| Friends.AcceptAlwaysFits | src/modules/friends/service/friends.service.ts:52-61 | a pending request means no friendship, so accepting never collides or duplicates |
| Friends.AcceptExactly | src/modules/friends/service/friends.service.ts:52-61 | accepting succeeds exactly for the receiver of a pending request and befriends exactly that pair |
| Friends.BlockClears | src/modules/friends/service/friends.service.ts:87-97 | blocking clears the pair in both tables though it deletes one friendship row, and touches no other pair |
| Friends.AskedOnlyOnce | src/modules/friends/service/friends.service.ts:29-101 | over any run, after a request between two users, however answered, neither can send another until one blocks the other |
| Friends.RequestStandsExactly | src/modules/friends/service/friends.service.ts:29-101 | in every reachable state a pair has a request exactly when one of them asked with success and neither has blocked the other since |
| Friends.AskingSucceedsExactly | src/modules/friends/service/friends.service.ts:29-101 | over any run a request goes through if and only if it is not to oneself and no request of the pair, either way round, succeeded since the last block between the two |
| Friends.UnfriendedCannotAsk | src/modules/friends/service/friends.service.ts:29-101 | the same after unfriending: over any run neither side can send a request until a block |
| Friends.BlockedMayAskAgain | src/modules/friends/service/friends.service.ts:29-101 | after a block the blocked side's request goes through |
| Friends.RejectKeepsAcceptedExactly | src/modules/friends/service/friends.service.ts:67-74 | a successful rejection keeps an accepted request behind every friendship if and only if the two sides of the request are not friends |
| Friends.AcceptedExactlyUnlessRejected | src/modules/friends/service/friends.service.ts:29-101 | over any run every friendship has an accepted request at every moment if and only if no call rejects a request whose two sides are friends |
| Friends.RejectedFriends | src/modules/friends/service/friends.service.ts:52-74 | asking, accepting and rejecting what was accepted is a run of any two users, and leaves them friends with a rejected request |
| Friends.MutualFriends | src/modules/friends/service/friends.service.ts:133-149 | mutual friends are the same from either side and list neither party |
| FriendsHistory.RequestsExactly | src/modules/friends/service/friends.service.ts:29-101 | in every reachable state the requests are exactly those that were sent with no block between the two since, with the answer last given |
| FriendsHistory.FriendsExactly | src/modules/friends/service/friends.service.ts:52-101 | in every reachable state two users are friends exactly when a request between them was accepted and neither has removed or blocked the other since |
| FriendsHistory.OutcomesExactly | src/modules/friends/service/friends.service.ts:29-101 | over any run a request is accepted exactly by its receiver while it stands unanswered, rejected exactly by its receiver while it stands, a friend removed exactly while the two are friends, and anybody but oneself can be blocked |
| Tournaments.PairUp | src/modules/tournaments/service/tournaments.service.ts:73-77 | the loop pairs neighbours in order, numbered from 1, with a bye for a last one alone |
| Tournaments.TournamentsService.Create | src/modules/tournaments/service/tournaments.service.ts:33-44 | a new tournament open for registration, rejected when the slug made of name and clock is taken |
| Tournaments.TournamentsService.Register | src/modules/tournaments/service/tournaments.service.ts:46-58 | adds the user with the next seed, rejected when closed, full or already in |
| Tournaments.TournamentsService.Unregister | src/modules/tournaments/service/tournaments.service.ts:60-65 | removes the user while registration is open |
| Tournaments.TournamentsService.StartTournament | src/modules/tournaments/service/tournaments.service.ts:67-83 | draws the first round for the organizer of an open tournament with two or more participants |
| Tournaments.TournamentsService.ReportMatchResult | src/modules/tournaments/service/tournaments.service.ts:85-91 | records winner and score of an existing match |
| Tournaments.TournamentsService.EndTournament | src/modules/tournaments/service/tournaments.service.ts:93-100 | completes the organizer's tournament, from any status |
| Tournaments.DrawIsPartition | src/modules/tournaments/service/tournaments.service.ts:73-77 | for every shuffle the draw seats every participant once, numbers matches 1 to n/2 rounded up, and has one bye, the last, exactly for odd n |
| Tournaments.EachOnce | src/modules/tournaments/service/tournaments.service.ts:73-77 | in a drawn round every participant sits exactly once and nobody else sits |
| Tournaments.RunsStaySound | src/modules/tournaments/service/tournaments.service.ts:33-100 | in every reachable state participants are distinct and never above the maximum, open tournaments have no matches, running ones a complete draw, and no two tournaments share a slug |
| Tournaments.BracketStands | src/modules/tournaments/service/tournaments.service.ts:46-100 | once registration is over, participants and first-round line-up stay what they are for the rest of every run |
| Tournaments.SeedsKeptExactly | src/modules/tournaments/service/tournaments.service.ts:60-65 | of distinct participants seeded 1 to n, removing one keeps the seeds 1 to n if and only if it is nobody but the last |
| Tournaments.SeedsExactly | src/modules/tournaments/service/tournaments.service.ts:46-65 | over any run a tournament is seeded 1 to n in order of registration at every moment if and only if no accepted unregistering names anyone but the last to come |
| Tournaments.SeedsCollide | src/modules/tournaments/service/tournaments.service.ts:46-65 | after unregistering any earlier participant of a seeded roster, whoever registers next gets the seed the last participant holds |
| TournamentHistory.TablesExactly | src/modules/tournaments/service/tournaments.service.ts:33-100 | in every reachable state a tournament is there exactly when it was created, in the phase its organizer brought it to, with exactly the users in it who registered and have not unregistered since, and in each match exactly the winner and score last reported |
| TournamentHistory.SettingsExactly | src/modules/tournaments/service/tournaments.service.ts:33-44 | organizer, maximum and slug of a tournament are those of the one call that created it |
| TournamentHistory.OutcomesExactly | src/modules/tournaments/service/tournaments.service.ts:33-100 | over any run a tournament is created exactly under a new slug, entered exactly while it is open, not full and without the user, left exactly while it is open, started exactly by its organizer while it is open with two or more in it, reported on exactly where there is a match, and ended exactly by its organizer |
| Sessions.Accounts.Login | src/modules/auth/service/auth.service.ts:131-204 | a new session with a fresh token for a week, rejected for unset or wrong passwords and for banned and suspended users |
| Sessions.Accounts.Logout | src/modules/auth/service/auth.service.ts:206-224 | removes the user's sessions with that access token |
| Sessions.Accounts.RefreshToken | src/modules/auth/service/auth.service.ts:226-263 | rotates both tokens and the expiry of the session that holds the token, if it has not expired and its user is active |
| Sessions.Accounts.ChangePassword | src/modules/auth/service/auth.service.ts:265-312 | with the right password and a strong new one, makes the new one the password and removes all the user's sessions |
| Sessions.Accounts.RevokeSession | src/modules/auth/service/auth.service.ts:406-412 | removes that session of the user |
| Sessions.Accounts.RevokeAllSessions | src/modules/auth/service/auth.service.ts:414-417 | removes all sessions of the user |
| Sessions.Accounts.Register | src/modules/auth/service/auth.service.ts:51-129 | a new active user and a token without a session; rejected for disposable addresses, weak passwords and taken names |
| Sessions.Accounts.OAuthSignUp | src/modules/auth/service/auth.service.ts:458-511 | a new active user without a password, and a token without a session |
| Sessions.Accounts.OAuthLogin | src/modules/auth/service/auth.service.ts:434-456 | a token without a session |
| Sessions.Accounts.BanUser | src/modules/users/service/users.service.ts:131-151 | bans and removes all sessions, rejected when already banned |
| Sessions.Accounts.UnbanUser | src/modules/users/service/users.service.ts:153-171 | makes a banned user active |
| Sessions.Accounts.SuspendUser | src/modules/users/service/users.service.ts:173-190 | suspends, leaving sessions in place |
| Sessions.Accounts.SetStatus | src/modules/users/service/users.service.ts:211-222 | sets any status |
| Sessions.Accounts.ResetPassword | src/modules/users/service/users.service.ts:224-233 | sets a password and removes all sessions |
| Sessions.Accounts.DeleteAccount | src/modules/users/service/users.service.ts:279-310 | removes all sessions and the password and marks the account deleted |
| Sessions.StepKeeps | src/modules/auth/service/auth.service.ts:131-417 | every call keeps rows with distinct ids and tokens of their own login and owner, and revives no dead token |
| Sessions.AcceptedOnce | src/modules/auth/service/auth.service.ts:226-263 | over any run a refresh token is accepted at most once |
| Sessions.OneLiveTokenPerLogin | src/modules/auth/service/auth.service.ts:226-253 | in every reachable state at most one token of a login is live |
| Sessions.ClearedForever | src/modules/users/service/users.service.ts:131-283 | after a password change, admin reset, ban, deletion or revoke-all, no token the user had been given before is ever accepted |
| Sessions.AcceptedExactly | src/modules/auth/service/auth.service.ts:226-253 | a refresh is accepted exactly when a row holds the token, is not expired and belongs to an active user (and the new access token is unused); the token is then at most a week old and the new one has the same owner and login |
| Sessions.LiveAcceptedExactly | src/modules/auth/service/auth.service.ts:226-263 | any token handed out is accepted exactly when a session holds it, at most a week has passed since, its owner is active and the new access token is unused |
| Sessions.IssuedLiveExactly | src/modules/auth/service/auth.service.ts:106-263 | a token just handed out is held by a session exactly when a login or a refresh handed it out |
| Sessions.RefreshableExactly | src/modules/auth/service/auth.service.ts:106-263 | a token just handed out can be refreshed exactly when a login or a refresh handed it out, at most a week has passed, its owner is active and the new access token is unused |
| Sessions.EverUsableExactly | src/modules/auth/service/auth.service.ts:106-263 | after any run that ends in handing out a token, some continuation accepts the token if and only if a login or a refresh handed it out |
| Sessions.SessionlessIsNeverAccepted | src/modules/auth/service/auth.service.ts:106-128 | every accepted token came from a login session, so tokens of registration and OAuth sign-in never are |
| Sessions.NoEntryWhileShutOut | src/modules/auth/service/auth.service.ts:144-238 | from a ban or suspension until reinstatement or deletion, neither a password login nor a refresh of the user's tokens succeeds |
| SessionHistory.UsersExactly | src/modules/auth/service/auth.service.ts:51-312 | in every reachable state the users are those who signed up, each with the password last set for them by any call, or none, and in the status last given to them |
| SessionHistory.RowsExactly | src/modules/auth/service/auth.service.ts:131-417 | in every reachable state the sessions are exactly those that an accepted login or refresh left and that no later refresh of the token, logout, revocation or clearing has ended, good for a week |
| SessionHistory.OutcomesExactly | src/modules/auth/service/auth.service.ts:51-417 | over any run the calls before decide every call: a login is granted exactly with the password last set, to a user neither banned nor suspended, under an unused access token; a refresh exactly with the token of a session that stands, within a week, for an active user; a password changed exactly with the one last set; and so for every other call |

## Left out

- Concurrency outside the economy service: the other services are modelled over serial runs, one call at a time.
- Money beyond Decimal(18,2): amounts are unbounded integers, so overflow and floating-point rounding of amounts are not modelled.
- Account rows are identified with their unique key (user, currency), and one monotone clock stands for application and database.
- Transaction history, currency list, balance queries and the economy leaderboard: reads with no state of their own.
- WebSocket messages of unknown type, malformed JSON, event forwarding with its `ws.` filter, and shutdown; tokens are given as the user they prove.
- Sockets are rows of a table keyed by an id instead of shared objects, so aliasing of a socket object is not modelled.
- Non-ASCII case mapping and Unicode white space: tokenizer, slugs and substring tests are on ASCII text; constants with umlauts are kept.
- Non-numeric page parameters, and sort parameters.
- Ties in a database ordering and unordered reads follow table order, and where it matters (deleting one row of a friendship) any row may be picked.
- Hashes are taken to be collision-free, a password hash to verify exactly its password, and random tokens never to repeat; the digest of a text is the text.
- The catch branch in learning that creates a second pattern after a failed upsert, the start-up race while knowledge loads, and swallowed failures of counter writes.
- Brain conversations of the chat service and personality settings: stored and returned unchanged.
- The users joined to leaderboard entries and mutual friends, and integer-like ids, whose properties a JavaScript object lists first.
- Wiki spaces, parents, search and page tree; friend lists, pending lists and tournament listings: queries only.
- Finding users by email or name at login and registration, and the checks of disposable addresses and password strength: what they find is a parameter. Two-factor secrets, passkeys and API keys.
- Tournaments.TournamentsService.ReportMatchResult: does not promise that the winner is one of the players, because the code does not check it; a reported bye loses its BYE status.
- Audit entries, event-bus notifications and logging inside the services.
- Controllers, routers, validation schemas, OAuth wiring, payments, mail, containers, and the plain create-read-update-delete services.
