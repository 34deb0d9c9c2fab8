# Verification of aomarket

A Dafny model of the parts of aomarket where a mistake would be hard to see: the login
cryptography and the packet codec of the chat client, the market tables with the operations
and background jobs that change them, the lookup backoff, the API keys, and the overlapping
name lookups. `dafny verify dfyconfig.toml` checks everything.

## How it is built

Code that changes things step by step is written that way: `MarketRepo.Repo`,
`MarketService.Service`, `Backoff.AodbBackoffRepo`, `Resync.AutoTracker`,
`ApiKeys.AuthService`, `Protocol.AOChatConnection` and `NameLookup.AOChatClient` are classes
with the source's fields or tables, and the cipher, the codec loops, the ranking loop and the
polling loops are methods with loop invariants. Each such method is proved against a function
on values: the tables are one value (`MarketState.Tables`), an operation is an `Event`, and
`Apply` gives the new world. The contracts also say of the fields themselves what a method
leaves, in terms of the old fields and with the source's own numbers, so that an error shared by a
method and its function shows. The theorems are about those functions and their runs:

- `Words`, `Powers`, `Cipher`, `Login`: the permutation is TEA, the chaining is CBC mode with a
  zero initial vector (section 6.2 of NIST SP 800-38A), and the holder of the secret exponent
  reads exactly the login string out of every login key.
- `Digits`, `Bytes`, `Packet`, `PacketLaws`, `Protocol`: round trips, canonical form, the exact
  effect of truncation, and reading any stream of packets up to any cut.
- `Orders`, `Parsing`: fingerprints identify orders, which texts parse and to what, and what
  credit shorthand loses under rounding.
- `MarketState`, `MarketRepo`, `MarketService`: the tables, the repository and the service.
- `Reachable`, `Fairness`, `Alerting`, `Interruptions`: whole-run results about them, namely the
  constraints of every reachable state, bounded wait of the poller, exact reports, conservation
  of alerts, each with chat callbacks that may raise at any point, and what happens to the poller
  when one keeps raising.
- `Tracking`: over any run, what takes an auto-tracked item out of the table or lowers its flag.
- `SubscriptionRace`: `subscribe` cut at its reads and commits, and how far overlapping calls
  can pass the limit, with a run that gets there.
- `Ranking`, `Backoff`, `Resync`: the auto-track resync and its backoff table.
- `ApiKeys`: the key table as a map from players to tokens.
- `NameLookup`: lookups, replies and timeouts in any order.

## Where the code does less than it seems to

- The backoff works as described only up to the 35th failure in a row: the delay is multiplied
  out before it is capped, and the 36th product exceeds the range of a timedelta
  (`NextRetryExact`). From then on the item is due at every resync that ranks it, no such resync
  completes (`BackoffStops`), and the auto-tracked set is frozen (`Frozen`).
- A failed lookup is not recorded when another lookup of the same resync raises or an earlier
  one overflows, and is then repeated without delay (`RecordedExactly`, `LostFailureBreaks`).
- The subscription limit L holds for calls one at a time; with k calls in flight the sharp bound
  is L + k - 1 (`LimitUnderOverlap`, `LimitBoundIsReached`).
- A lookup whose waiter was replaced or removed by another lookup of the same name is never
  answered (`OrphanEndsWithNone`).
- A chat callback that raises ends a poll cycle with the item unstamped and its seen orders not
  replaced. The order is then reported again (`RepeatExact`), and while this goes on no item
  gets its turn (`NoHeadway`, `StuckAtTimes`, `RepeatedAlerts`): without bound behind an item that
  stays auto-tracked, and otherwise until that item expires with its subscriptions
  (`UnboundedExactly`, `BlockerExpires`). In a delivery the rest of the deleted alerts is lost
  (`LostExact`), in a resync resolved items stay untracked (`CutExact`, `Resync.CutHappens`).

Inputs rather than modelled code: the random draws of the login key and of tokens, the clock,
what a fetch, a page or an item lookup brings, who is online, which chat callbacks and
announcements raise, the hash of a token, the lower case of a name, and the rounding of a float
operation.

## Model

| member | source | states |
|---|---|---|
| Cipher.PermutationIsBijective | src/aomarket/aochat/crypto.py:39-58 | for every key the 32-round permutation has a two-sided inverse, so no two blocks are enciphered alike |
| Cipher.Terms | src/aomarket/aochat/crypto.py:49-52 | half a round as written, with masks after every shift and sum, is the textbook TEA term on 32-bit words |
| Cipher.MixExact | src/aomarket/aochat/crypto.py:49-52 | the term is ((w << 4) + ka) ^ (w + sum) ^ ((w >> 5) + kb), every sum cut to 32 bits |
| Words.XorDigits | src/aomarket/aochat/crypto.py:49-58 | the exclusive or used has a 1 exactly where the binary digits of its operands differ |
| Cipher.Permute | src/aomarket/aochat/crypto.py:39-58 | `_permute` computes 32 TEA rounds |
| Cipher.RoundExact | src/aomarket/aochat/crypto.py:19-58 | round n + 1 of the 32 adds the term of the second word under the first half of the key and the sum (n + 1) * 0x9E3779B9 to the first word, then the term of the new first word under the second half to the second word |
| Cipher.EncryptIsCbc | src/aomarket/aochat/crypto.py:77-84 | every ciphertext block is the permutation of its plaintext block exclusive-or the previous ciphertext block, word by word, the first one with zero: CBC mode |
| Cipher.DecryptEncrypt | src/aomarket/aochat/crypto.py:61-85 | the matching decryptor undoes the encryption, for every number of blocks |
| Cipher.EncryptDecrypt | src/aomarket/aochat/crypto.py:61-85 | every block sequence is the encryption of its decryption |
| Cipher.BlockDependsOnPrefix | src/aomarket/aochat/crypto.py:77-84 | ciphertext block i is fixed by plaintext blocks 0..i, and after equal prefixes it is equal exactly when block i is |
| Cipher.EqualBlocks | src/aomarket/aochat/crypto.py:77-84 | two ciphertext blocks are equal exactly when their chained inputs are |
| Powers.SharedSecret | src/aomarket/aochat/crypto.py:95-96 | both sides of the key exchange compute the same number modulo n |
| Login.UnsealSeal | src/aomarket/aochat/crypto.py:74-85 | on bytes, with little-endian words: decrypting the ciphertext gives back the plaintext |
| Login.SealUnseal | src/aomarket/aochat/crypto.py:74-85 | every byte string of whole blocks is a ciphertext |
| Login.KeyWords | src/aomarket/aochat/crypto.py:74-74 | key word i is the little-endian number of key bytes 4i to 4i + 3 |
| Login.KeyDigitsLeading | src/aomarket/aochat/crypto.py:98-102 | read as a number, the 32 key digits are the shared number without the n - 32 of its n hex digits that follow the first 32, and the whole of it when n is at most 32 |
| Login.AochatCrypt | src/aomarket/aochat/crypto.py:61-85 | the two length errors come exactly on their conditions, the length of the key first; otherwise the hex text of the CBC encryption |
| Login.LoginString | src/aomarket/aochat/crypto.py:104-104 | user name, server seed and password in this order, with a bar between them |
| Login.Blob | src/aomarket/aochat/crypto.py:105-108 | the random prefix, the length in four bytes, the login string, and fewer than eight spaces up to a whole block |
| Login.GenerateLoginKey | src/aomarket/aochat/crypto.py:88-111 | never fails in `aochat_crypt`, fails only on a login string too long for its length field; otherwise the result is the login key of the blob, and whoever knows the secret exponent recovers the login string |
| Login.LoginKeyText | src/aomarket/aochat/crypto.py:95-111 | before the dash stands g^x modulo n in hex; what follows it decrypts to the blob under the leading digits of y^x modulo n |
| Login.ServerRecoversLogin | src/aomarket/aochat/crypto.py:88-111 | for every exponent, prefix and login string, the server's reading of the key text (hex, shared key, first 32 digits, decryption, length prefix) is the login string |
| Digits.ValueOfText | src/aomarket/aochat/crypto.py:98-111 | reading a printed number in base 10 or 16 gives the number, and only 0 begins with a zero |
| Bytes.FromHexOfHex | src/aomarket/aochat/crypto.py:74-85 | `bytes.fromhex` undoes `hex` |
| Bytes.UnpackLittle32Exact | src/aomarket/aochat/crypto.py:74-75 | the first byte of a word is the least significant |
| Packet.ReadArg | src/aomarket/aochat/packet.py:97-124 | one argument read as the format says: numbers need all their bytes, strings are cut at the end of the data, the offset moves on regardless |
| Packet.ReadStrs | src/aomarket/aochat/packet.py:113-122 | the string list loop reads count strings one behind the other, or fails where a length field is missing |
| Packet.DecodeArgs | src/aomarket/aochat/packet.py:92-125 | the loop over the schema with its moving offset computes the decoding; a type without a schema is a KeyError |
| Packet.EncodeArgs | src/aomarket/aochat/packet.py:75-89 | the loop that pops arguments computes the packing in schema order, or raises the first error met |
| Packet.PackFails | src/aomarket/aochat/packet.py:75-89 | encoding raises an exception if and only if it gets to a code with no argument left (IndexError) or with one that does not pack, the codes before it having packed; surplus arguments do no harm |
| Packet.PackNumber | src/aomarket/aochat/packet.py:82-83 | a number packs exactly when it fits 32 bits |
| Packet.PackString | src/aomarket/aochat/packet.py:84-86 | a byte string packs behind its 16-bit length; a number in its place stands for that many zero bytes, a list of numbers for those bytes, each with its own exception |
| Packet.PackIsEncode | src/aomarket/aochat/packet.py:75-89 | arguments of the schema's types are packed into the well-formed payload |
| PacketLaws.RoundTrip | src/aomarket/aochat/packet.py:92-125 | decoding an encoding returns the arguments and stops at its end, wherever in the data it stands, for schemas over all four codes |
| PacketLaws.DecodeEncode | src/aomarket/aochat/packet.py:75-125 | decoding a payload gives back its arguments |
| PacketLaws.Canonical | src/aomarket/aochat/packet.py:92-125 | a decoding that stays inside the data has read exactly the encoding of its result |
| PacketLaws.TrailingBytesIgnored | src/aomarket/aochat/packet.py:92-125 | bytes after a full payload never change the result |
| PacketLaws.Truncated | src/aomarket/aochat/packet.py:92-125 | cut short, a payload decodes to the same arguments with the last string shortened when the cut is in the body of a final string, and to a struct error otherwise |
| PacketLaws.TruncatedPayload | src/aomarket/aochat/packet.py:35-48 | so it is for every strict prefix of a payload of every inbound packet type |
| Protocol.AOChatConnection.ReadPacket | src/aomarket/aochat/protocol.py:30-35 | takes exactly one frame off the stream, also when its payload does not decode, and fails at the end of the stream |
| Protocol.AOChatConnection.SendPacket | src/aomarket/aochat/protocol.py:37-40 | appends one whole frame, or nothing when encoding raises |
| Protocol.FrameLayout | src/aomarket/aochat/packet.py:67-72 | a frame is type and length, two big-endian bytes each, and the payload |
| Protocol.InboundShapes | src/aomarket/aochat/client.py:69-191 | a packet that decodes has the number and kinds of arguments into which the login dialogue and the dispatcher take its type apart; exactly the types without a schema are a KeyError |
| Protocol.OutboundPayloads | src/aomarket/aochat/packet.py:50-89 | the payload bytes of everything the client sends: login request, character choice, lookup, tell, buddy, group message and ping |
| Protocol.ReadAllOfStream | src/aomarket/aochat/protocol.py:30-40 | from any stream of frames cut anywhere, the reader sees exactly the frames that arrived whole, in order, and leaves nothing over when all did |
| Protocol.SendThenRead | src/aomarket/aochat/packet.py:128-134 | a packet whose type has one schema for both directions comes back as it was sent |
| Orders.SellFingerprintInjective | src/aomarket/market/service.py:308-310 | two sell orders share a fingerprint exactly when all fields agree, even where names contain the separator |
| Orders.BuyFingerprintInjective | src/aomarket/market/service.py:311-313 | the same for buy orders |
| Orders.SidesDiffer | src/aomarket/market/service.py:308-313 | no sell order has the fingerprint of a buy order |
| Orders.FingerprintText | src/aomarket/market/service.py:309-312 | the fingerprint strings, field by field |
| Orders.FingerprintMapUnique | src/aomarket/market/service.py:307-315 | the map depends on the sets of orders alone, not on order or duplicates |
| Orders.BuildFingerprintMap | src/aomarket/market/service.py:307-315 | the two loops put every order of the book under its own fingerprint, with its side, price and quality levels, and nothing else |
| Orders.Matches | src/aomarket/market/service.py:326-342 | an order passes exactly when it lies within every bound that is set |
| Orders.MatchingExact | src/aomarket/market/service.py:351-355 | an order is among the matching ones exactly when it is in the batch and within every bound of the filter that is set, and it is there unchanged |
| Parsing.ParseRangeExact | src/aomarket/market/parsing.py:45-69 | a text parses to a range if and only if it has exactly one dash, each side is blank or parses to that bound, one bound is there and they are in order |
| Parsing.ParseQlExact | src/aomarket/market/parsing.py:38-42 | exactly the texts of digits parse, and a printed quality level parses to itself |
| Parsing.CreditMatches | src/aomarket/market/parsing.py:26-35 | digits, perhaps a point and digits, space and perhaps a letter in either case denote that decimal and 1, a thousand, a million or a billion |
| Parsing.MatchIsCredit | src/aomarket/market/parsing.py:26-35 | nothing else matches |
| Parsing.RoundHalfEven | src/aomarket/market/parsing.py:35-35 | a half is rounded to the even neighbour |
| Parsing.ParseExact | src/aomarket/market/parsing.py:26-35 | with any rounding of relative error at most 2^-53 the result is exact whenever decimal times multiplier is an integer below 2^51 |
| Parsing.TenthsError | src/aomarket/market/parsing.py:14-23 | the tenths printed stand for the amount to within a twentieth of the unit, below 2^53 |
| Parsing.PrintedExact | src/aomarket/market/parsing.py:14-23 | an amount below 1000 is printed whole; from 1000, 10^6 and 10^9 on tenths of k, m and b are printed that are off by at most 50, 50 000 and 50 000 000; a negative amount gets a sign in front |
| Parsing.CreditsRoundTrip | src/aomarket/market/parsing.py:14-35 | for amounts below 2^50, reading what was printed is exact below 1000, and off by at most 50 below a million, 50 000 below a billion and 50 000 000 from there on |
| MarketRepo.Repo.UnregisterCascade | src/aomarket/db/market_repo.py:34-47 | deletes exactly the rows of the player from users, subscriptions, pending alerts, actions and keys, keeps all others, and returns how many subscriptions there were |
| MarketRepo.Repo.UpsertWatch | src/aomarket/db/market_repo.py:54-67 | an existing row gets the item, keeps both times, and is auto-tracked afterwards exactly if it was or the flag is passed; a new row starts now, never polled, with the flag passed; every other row and table stays; true exactly for a new row |
| MarketRepo.Repo.ExpireStaleWatch | src/aomarket/db/market_repo.py:94-105 | removes exactly the rows not auto-tracked with both times before the cutoff, and exactly their subscriptions and history |
| MarketRepo.Repo.DueForPoll | src/aomarket/db/market_repo.py:107-114 | a proper batch: due rows, oldest first, full unless nothing due is left, and no row outside it older than one inside |
| MarketRepo.Repo.AddSubscription | src/aomarket/db/market_repo.py:178-180 | refused exactly when a foreign key or the unique constraint is violated; a new row has no bound set |
| MarketRepo.Repo.SubscribersFor | src/aomarket/db/market_repo.py:234-236 | exactly the subscribers of the item, each once |
| MarketRepo.Repo.PopPendingAlerts | src/aomarket/db/market_repo.py:257-269 | returns all waiting alerts of the player by time, and deletes them |
| MarketRepo.Repo.CreateKey | src/aomarket/db/api_key_repo.py:11-15 | refused exactly when the hash is stored already or the player is unknown |
| MarketRepo.Repo.RevokeAllForPlayer | src/aomarket/db/api_key_repo.py:21-26 | revokes the player's active keys and counts them |
| MarketRepo.Repo.GetByHash | src/aomarket/db/api_key_repo.py:17-19 | finds a row exactly when an active one carries the hash |
| MarketService.Service.Register | src/aomarket/market/service.py:116-120 | fails exactly for a registered player; otherwise the player is added, not as an administrator, and logged, also when the announcement raises |
| MarketService.Service.Unregister | src/aomarket/market/service.py:122-127 | fails exactly for an unknown player; afterwards no row names the player, also when the announcement raises; the result counts the subscriptions removed |
| MarketService.Service.WatchItem | src/aomarket/market/service.py:131-135 | an upsert as `Repo.UpsertWatch` states it, true exactly when the item was not tracked before; only a new item is announced, and it stays tracked when that raises |
| MarketService.Service.Subscribe | src/aomarket/market/service.py:142-162 | the four refusals in their order, each leaving exactly its trace, and success below the limit with an open filter and a log entry; the item is upserted without the auto-track flag; the inserts never violate a constraint; when announcing a new item raises, the item is tracked and nothing subscribed |
| MarketService.Service.Unsubscribe | src/aomarket/market/service.py:164-167 | removes that subscription only and logs whether or not it existed, also when the announcement raises |
| MarketService.Service.UnsubscribeBulk | src/aomarket/market/service.py:169-177 | exactly the items before the first raising one and that one are processed, each once and in ascending order, each a single unsubscription with its log entry; their subscriptions are gone and no others; splits the items by whether they were subscribed to |
| MarketService.Service.UnsubscribeAll | src/aomarket/market/service.py:179-182 | removes and counts all subscriptions of the player, also when the announcement raises |
| MarketService.Service.SetPriceFilter | src/aomarket/market/service.py:195-201 | without a subscription NotWatching, on a malformed range InvalidRange, both changing nothing; otherwise the two price bounds are those of the range, and the quality bounds and every other subscription are kept |
| MarketService.Service.SetQlFilter | src/aomarket/market/service.py:203-209 | the same for the quality bounds |
| MarketService.Service.ClearFilter | src/aomarket/market/service.py:211-213 | leaves an existing subscription without any bound and every other as it was |
| MarketService.Service.NotifySubscribers | src/aomarket/market/service.py:344-374 | one alert per subscription that lets some order through, told or queued by who is online; completes exactly when no callback raises for any of them, and otherwise stops with nobody served for whom one raises |
| MarketService.Service.DetectNewOrders | src/aomarket/market/service.py:306-324 | reports orders not seen before unless none were seen, then remembers the book; a callback that raises leaves the seen orders as they were |
| MarketService.Service.PollOne | src/aomarket/market/service.py:263-269 | one item polled; one row of history exactly when the fetch brought a book, and its insert is never refused; the poll time advances also on a failed fetch, and exactly when no callback raises |
| MarketService.Service.PollBatch | src/aomarket/market/service.py:263-269 | the loop polls the items in turn and counts the successful fetches; it completes if and only if no callback raises for anyone to be alerted about an item of the batch |
| MarketService.PollStamps | src/aomarket/market/service.py:263-269 | a poll stamps all its items when it completes, and else exactly those before the first over which a callback raises; nothing else of a row changes, and rows of the history are only added |
| MarketService.Service.PollMarket | src/aomarket/market/service.py:251-277 | expires exactly the rows not auto-tracked with both times older than expireDays * 86 400 s, prunes by retentionDays, polls only items never polled or polled longer than intervalMinutes * 60 s ago, all of them unless the batch is full, and none before one polled earlier; stamps exactly these when it completes; returns the three counts of the summary if and only if no callback raises for anyone to be alerted and the announcement of a non-empty batch does not raise |
| MarketService.Service.DeliverPendingAlerts | src/aomarket/market/service.py:392-398 | deletes the waiting alerts, hands them over by time up to the tell that raises, to nobody else, and returns their number when none does |
| Reachable.StepValid | src/aomarket/db/models.py:52-117 | every operation keeps references alive, keys unique, stored filters ordered and active keys single |
| Reachable.RunsStayValid | src/aomarket/db/models.py:52-117 | so every state of every serial run does |
| Reachable.ReachableRows | src/aomarket/db/models.py:52-117 | the same said row by row, without the names of the model's predicates |
| Reachable.UnregisterForgets | src/aomarket/db/market_repo.py:34-47 | after any run, unregistering leaves no user, subscription, pending alert, action or key row of the player and keeps every such row of everybody else |
| Tracking.UpsertRow | src/aomarket/db/market_repo.py:54-67 | an upsert keeps the times of every row and raises a flag exactly when it is passed for that item |
| Tracking.StepKeepsFlag | src/aomarket/db/market_repo.py:54-105 | outside a resync an auto-tracked item leaves the table exactly when its row is deleted by name, and is else still auto-tracked: neither expiry nor an upsert takes row or flag |
| Tracking.StaysAutoTracked | src/aomarket/db/market_repo.py:54-105 | along any run without a resync an auto-tracked item stayed in the table if and only if it was not deleted by name, and then it is still auto-tracked with the same first-seen time |
| Fairness.PassedOver | src/aomarket/market/service.py:261-269 | a poll that does not get to a due item has polled only items ahead of it, which end up behind it, and a whole batch of them when it completes |
| Fairness.AheadShrinks | src/aomarket/market/service.py:251-269 | along any run the items ahead plus the items polled never exceed the items ahead at the start plus rows added; every completed poll polls a whole batch |
| Fairness.BoundedWait | src/aomarket/market/service.py:251-269 | a due item with q items ahead and n rows added meanwhile is served before more than q + n items are polled, so by completed poll number floor((q+n)/B) + 1, whatever the fetches return |
| Fairness.StaysDue | src/aomarket/market/service.py:261-261 | with a fixed interval and a clock that never goes back, an item due at the first poll is due at all |
| Alerting.StepSeen | src/aomarket/market/service.py:264-269 | only a fetch over which no callback raises changes what was seen of an item |
| Alerting.SeenIsLastBook | src/aomarket/market/service.py:306-324 | at every point of every run the seen set is the fingerprints of the last recorded book |
| Alerting.ReportExact | src/aomarket/market/service.py:315-324 | an order is reported exactly when it is on the fetched book, was absent from the last recorded one, and that book was not empty |
| Alerting.ReportedIsNew | src/aomarket/market/service.py:315-322 | as to the rows: an order of the fetched book is reported exactly when it has no seen row for the item and some other order has one |
| Alerting.OneReportPerPresence | src/aomarket/market/service.py:306-324 | between two reports of one order, the first recorded, lies a recorded book without it |
| Alerting.OneAlertPerPresence | src/aomarket/market/service.py:306-365 | between two alerts to a player that name the same order of an item, the first fetch recorded, lies a recorded book without the order |
| Alerting.RepeatExact | src/aomarket/market/service.py:306-324 | while every fetch shows a reported order, it is reported again exactly as long as a callback has raised over every fetch since |
| Alerting.CompletesExactly | src/aomarket/market/service.py:263-269 | a poll completes exactly when no callback raises over any of its items |
| Alerting.PollItemAppends | src/aomarket/market/service.py:349-365 | polling an item appends at most one alert for a player, the one its filter selects, and only for players reached before a callback raised |
| Alerting.ToNotifyExact | src/aomarket/market/service.py:344-357 | the players to alert about a fetched book are exactly the subscribers of the item with a new order within their bounds |
| Alerting.ItemAlertExact | src/aomarket/market/service.py:349-365 | a player's alert holds an order if and only if it is new, the player subscribes and was reached, and it lies within every bound of that subscription; it names the item and shows the order as the book does |
| Alerting.AlertedExactly | src/aomarket/market/service.py:251-365 | over a whole operation: a player is alerted to an order of an item if and only if it is a poll that got to the item and fetched a book with the order on it, the order is new, and it lies within every bound of the subscription of the player, who was reached |
| Alerting.PollItemsHeld | src/aomarket/market/service.py:263-269 | every alert a poll sends is told or queued, once, also in a poll cut short |
| Alerting.ByTimeSorted | src/aomarket/db/market_repo.py:257-263 | waiting alerts go out oldest first, all of them, none twice |
| Alerting.StepConserves | src/aomarket/market/service.py:344-398 | no operation loses or doubles an alert, apart from those waiting at an unregistration and those of a delivery from the tell that raised on |
| Alerting.AlertsConserved | src/aomarket/market/service.py:344-398 | over any run, per player, as multisets: alerts at the start plus sent are told plus waiting plus dropped by unregistering plus lost in deliveries cut short |
| Alerting.LostExact | src/aomarket/market/service.py:392-398 | a delivery loses alerts exactly when fewer tells return than alerts were waiting |
| Alerting.NothingLost | src/aomarket/market/service.py:392-398 | a run loses no alert of a player exactly when no delivery to the player is cut short |
| Interruptions.CutPollKeeps | src/aomarket/market/service.py:263-269 | a poll cut at its first item changes no poll time, no subscription and no seen order beyond its cleaning |
| Interruptions.CutHappens | src/aomarket/market/service.py:349-365 | an input: one new order, two subscribers, and a callback that raises for the second cut the poll at its first item at every time of the clock, with all constraints met and another item waiting |
| Interruptions.NoHeadway | src/aomarket/bot/scheduler.py:16-29 | in any run whose polls are all cut at their first item no item is polled, however the clock goes on and whatever else happens |
| Interruptions.StuckAtTimes | src/aomarket/bot/scheduler.py:16-29 | at any times of the clock at which a callback raises over the first item of the batch and no row expires, the polls form a run that changes no poll time, subscription or seen order: everything keeps waiting |
| Interruptions.LaterToo | src/aomarket/market/service.py:258-269 | with every row auto-tracked and a full batch, a poll that can be cut at its first item now can be cut so at every later time |
| Interruptions.BlockerExpires | src/aomarket/db/market_repo.py:94-105 | a blocking item that is not auto-tracked is gone once the expiry cutoff is past both its times, so the queue moves on |
| Interruptions.UnboundedExactly | src/aomarket/market/service.py:258-269 | the starvation is unbounded if and only if the blocking item is auto-tracked, where the other rows are and the batch is full |
| Interruptions.RepeatedAlerts | src/aomarket/market/service.py:344-365 | and every player reached before the exception is sent the same alert once more at each of those times |
| SubscriptionRace.StepKeepsBound | src/aomarket/market/service.py:152-161 | subscriptions held plus calls past the check stay within the limit plus overlap minus one at every step |
| SubscriptionRace.LimitUnderOverlap | src/aomarket/market/service.py:142-162 | with at most k overlapping calls a player never holds more than L + k - 1 subscriptions; one at a time never more than L |
| SubscriptionRace.LimitBoundIsReached | src/aomarket/market/service.py:152-161 | for all L and k some run ends with exactly L + k - 1 |
| SubscriptionRace.KeysAlwaysHold | src/aomarket/db/models.py:69-81 | the foreign keys, which the database checks in each commit, hold for every subscription under any interleaving, calls cut short included |
| SubscriptionRace.AloneIsSubscribe | src/aomarket/market/service.py:142-162 | a call that runs from begin to end with nothing in between does to users, watch rows and subscriptions what `subscribe` does |
| Ranking.DedupExact | src/aomarket/market/service.py:422-424 | the list holds exactly the aoids of the pages, each once, by first occurrence |
| Ranking.StoppingEarly | src/aomarket/market/service.py:425-432 | once enough aoids are known, the pages not read would not change the list |
| Ranking.RankedExact | src/aomarket/market/service.py:405-432 | the ranked list has no aoid twice, only aoids of the usable pages, at most `count` of them, and an aoid is left out only when the list is full and those in it come before it |
| Ranking.RankedAoids | src/aomarket/market/service.py:409-432 | the loop with its three exits yields the first `count` of the distinct aoids of all usable pages, at most min(50, ceil(count/20)) of them, and reads no more pages than it needs |
| Backoff.NextRetryExact | src/aomarket/db/aodb_backoff_repo.py:17-19 | the delay is min(2^(n-1) hours, a week) exactly for n up to 35 and an overflow from 36 on |
| Backoff.DelayValues | src/aomarket/db/aodb_backoff_repo.py:13-19 | 3600 s after the first failure, doubled by each further one, a week from the ninth on |
| Backoff.AodbBackoffRepo.DueForRetry | src/aomarket/db/aodb_backoff_repo.py:26-39 | exactly the items without a row or whose time has come |
| Backoff.AodbBackoffRepo.RecordFailure | src/aomarket/db/aodb_backoff_repo.py:41-63 | counts one more failure and sets the retry time from it; with 35 on record it fails and writes nothing |
| Backoff.RecordKeepsValid | src/aomarket/db/aodb_backoff_repo.py:41-70 | every row keeps retry time = last attempt + min(2^(n-1) h, 7 d) |
| Backoff.LookupsBackOff | src/aomarket/market/service.py:441-454 | over any run of serial resyncs, cut short or not, an item never found is looked up with f failures on record only after the delays of all f |
| Backoff.NthLookup | src/aomarket/market/service.py:441-454 | the n-th lookup of an item never found, its own earlier lookups recorded, comes at least the first n - 1 delays after the first, from the ninth on 255 + 168 (n - 9) hours, and there are at most 36; rounds may be cut short elsewhere |
| Backoff.RecordedExactly | src/aomarket/market/service.py:441-454 | the condition is exact: after k - 1 recorded failures the k-th is recorded if and only if every later round leaves the k-th delay before the next lookup |
| Backoff.SharpRun | src/aomarket/db/aodb_backoff_repo.py:17-63 | the bound is sharp: for every n up to 35 a run whose lookups come exactly at its times |
| Backoff.LostFailureBreaks | src/aomarket/market/service.py:446-451 | for every n up to 36 a run whose n-th failure is lost because another lookup of the resync raises, and whose next lookup comes before the first n delays have passed |
| Backoff.TotalClosed | src/aomarket/db/aodb_backoff_repo.py:13-19 | the first n >= 8 delays add up to 255 + 168 (n - 8) hours |
| Backoff.CompletesExactly | src/aomarket/market/service.py:446-454 | a resync records all its answers exactly when no lookup raises and no item with 35 failures fails again |
| Backoff.FailureSetsBack | src/aomarket/market/service.py:446-451 | a failed lookup puts the item off exactly when no lookup of the resync raised and none up to it met a failure beyond the 35th; otherwise the item is due again at once |
| Backoff.BackoffStops | src/aomarket/db/aodb_backoff_repo.py:17-63 | over any run from 35 failures on, the row of an item never found stays as it is, the item is due whenever asked for once its last delay is over, and no resync that looks it up completes |
| Backoff.SuccessResets | src/aomarket/db/aodb_backoff_repo.py:65-70 | after a success the item is due at once and its next failure costs one hour |
| Resync.ResyncExact | src/aomarket/market/service.py:456-462 | after any number of its upserts no watch row is gone, the new rows are the upserted items not watched before, auto-tracked are the upserted items and those resolved ones that were so already, and old rows keep their times |
| Resync.ResyncComplete | src/aomarket/market/service.py:456-462 | when not cut short, the auto-tracked items are exactly the resolved ones, also when none resolve |
| Resync.CutExact | src/aomarket/market/service.py:456-462 | a resync leaves exactly the resolved items auto-tracked if and only if every resolved item it did not get to was so already |
| Resync.CutHappens | src/aomarket/market/service.py:459-462 | an input: of two new items the second stays untracked when announcing the first raises |
| Resync.UpsertsExact | src/aomarket/market/service.py:459-462 | the upserts stop exactly at the first newly tracked item whose announcement raises |
| Resync.AutoTracker.RecordAnswers | src/aomarket/market/service.py:448-454 | the answers are recorded in turn; an overflow ends it with the earlier ones recorded |
| Resync.AutoTracker.TrackResolved | src/aomarket/market/service.py:456-462 | the closing writes are one Resync operation up to the first announcement that raises, and exactly the newly tracked items among them are announced |
| Resync.AbortsExactly | src/aomarket/market/service.py:446-451 | a resync gets to its writes if and only if no lookup raises and none misses with 35 failures on record |
| Resync.AnswersRecorded | src/aomarket/market/service.py:448-454 | once all answers are recorded, an item found has no backoff row, one not found has one failure more and its delay counted from the time of recording, and the other rows are as before |
| Resync.AutoTracker.SyncTopTradedItems | src/aomarket/market/service.py:402-470 | skipped if and only if switched off, count below 1 or the first page without items, and then nothing changes; looks up exactly the ranked items without a row or whose time has come; aborted, with the market tables as before, if and only if a lookup raises or one misses with 35 failures on record; otherwise the backoff rows are as `AnswersRecorded` states, and it is cut short at the first announcement that raises; when done, the auto-tracked rows are exactly the items looked up and found, as they were found, old rows keep their times, and exactly the new rows are announced |
| Resync.NewlyTrackedExact | src/aomarket/market/service.py:457-462 | the announced items are exactly the resolved ones not watched before |
| Resync.SyncMeaning | src/aomarket/market/service.py:434-462 | after a completed resync the auto-tracked items are exactly the ranked ones that were due and found, under the names just looked up, and the announced ones are exactly the new rows |
| Resync.MissedAgain | src/aomarket/market/service.py:441-462 | a resync that ranks an item with 35 failures on record, its last delay over, and does not find it changes no market table |
| Resync.Frozen | src/aomarket/market/service.py:402-470 | so no number of such resyncs does: one item that stays missing freezes the auto-tracked set |
| Resync.RoundIsProper | src/aomarket/market/service.py:441-447 | each resync is a round as the backoff theorems assume it |
| ApiKeys.AuthService.GenerateKey | src/aomarket/auth/service.py:44-54 | registers an unknown player, not as an administrator, revokes the player's old keys and no others, and stores the new hash with the first twelve characters; fails exactly where the hash is stored already |
| ApiKeys.AuthService.Authenticate | src/aomarket/auth/service.py:62-68 | a principal exactly when an active row carries the token's hash, and then that row's player, an administrator exactly if the owner or flagged so |
| ApiKeys.AuthenticateExact | src/aomarket/auth/service.py:44-68 | over any run of the whole system, with fresh tokens and a collision-free hash, a token authenticates a player exactly when it is the one last generated for the player and not revoked or cascaded away since |
| ApiKeys.OneActiveKey | src/aomarket/auth/service.py:44-57 | no player ever has two active keys and no token names two players |
| NameLookup.AOChatClient.BeginLookup | src/aomarket/aochat/client.py:125-136 | a cached name is answered at once; otherwise the lookup registers its future, replacing an earlier one |
| NameLookup.AOChatClient.DispatchLookup | src/aomarket/aochat/client.py:190-198 | stores the id under the folded name unless it is 0xFFFFFFFF, and sets the registered future, to None for that id, exactly if it is waiting; nothing else changes |
| NameLookup.AOChatClient.FinishLookup | src/aomarket/aochat/client.py:136-140 | returns the future's outcome or None and takes out the waiter of its name, whoever registered it |
| NameLookup.CacheIsLatest | src/aomarket/aochat/client.py:193-195 | under any interleaving the cache holds the latest non-miss reply for each folded name and nothing else |
| NameLookup.LookupSafety | src/aomarket/aochat/client.py:125-140 | a lookup returns None, the latest id reported for its own folded name, or one reported for it since the lookup began; never another name's |
| NameLookup.ReplyAnswersOne | src/aomarket/aochat/client.py:196-198 | a reply answers exactly the waiting lookup registered for its name |
| NameLookup.OverlapOrphans | src/aomarket/aochat/client.py:133-140 | the later of two overlapping lookups takes the waiter over, and the end of the earlier removes the later one's |
| NameLookup.OrphanEndsWithNone | src/aomarket/aochat/client.py:133-140 | a lookup that lost its waiter is never answered, whatever follows |

## Left out

- Fetching and parsing of pages, items and orders over HTTP, the HTTP API, chat commands, charts, configuration, migrations and logging: input and output, taken as inputs where needed.
- SQLAlchemy and Postgres: each commit is one atomic step; the operations of `MarketState` run one after the other. Only `subscribe` and the name lookups are split where others can come in between.
- Clock reads: one time per operation, except in a resync, where each lookup and each record has its own.
- MarketRepo.Repo.InsertSnapshot: a snapshot is an item and a time, without the statistics of src/aomarket/market/service.py:279-302.
- Text of an alert (src/aomarket/market/service.py:381-390): an alert holds the matching orders by fingerprint, without the order of its lines.
- Text of announcements in the private channel: an announcement raises or does not. List, summary and status queries.
- Exceptions of the database, cancelled tasks, and exceptions in operations not split above: only chat callbacks, announcements, item lookups of a resync and the backoff overflow raise.
- `_send_tell` without a chat callback drops the alert (src/aomarket/market/service.py:376-378): a callback is assumed to be set.
- Order of rows that SQL leaves open: which of several rows with equal poll times come first is not fixed, and pending alerts of equal time come in the order they were queued.
- ApiKeys.AuthService.Authenticate: does not model the update of `last_used_at`; a key is active or revoked, without the times.
- Seen orders of items no longer tracked stay, as in the source, where that table has no foreign key (src/aomarket/db/models.py:84-88).
- An empty book makes the next fetch report nothing, since an empty seen set counts as a first poll; `Alerting.ReportExact` states it.
- Alerting.ReportExact: speaks of the seen set at the start of the run as if it were a book recorded before.
- Backoff.NextRetryExact: leaves out the end of the datetime range in the year 9999.
- Parsing.CreditsRoundTrip: covers amounts that are not negative, because a printed sign does not parse; floats are reals with a rounding function, so infinities, subnormal numbers and the exponent form of very large floats do not appear.
- Unicode: white space outside ASCII in `strip`, letters that fold onto k, m or b, and digits outside ASCII in `int`.
- Packet.EncodeArgs: arguments are numbers, byte strings and lists of them; text arrives encoded.
- Login.AochatCrypt: a key text that is not hex and one that `fromhex` shortens by skipping blanks are one error.
- Login.GenerateLoginKey: the fixed numbers of the exchange are parameters, as are the random draws; user name and password are encoded bytes.
- Bytes.FromHexOfHex: `fromhex` is modelled without blanks between the digits.
- The decryption on the server and the encoder of list arguments are not in the repository; they are specification here.
- Connecting, closing, the login dialogue, keep-alive and the other packet types of `_dispatch`.
- ApiKeys.AuthenticateExact: starts from a table without keys and takes tokens as fresh and the hash as collision-free; the other operations of a run are those of `MarketState`.
- SubscriptionRace.LimitUnderOverlap: the limit is constant during a run.
- MarketService.Service.Subscribe: runs uninterrupted by other calls; the interleaved form is in `SubscriptionRace`. An item lookup that raises changes nothing and is not modelled.
