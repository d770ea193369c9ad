# Verified model of the relay queue

The relay keeps, for every recipient, a queue of messages that clients push, pull page
by page and acknowledge, and that a background collector clears of expired messages.
Two stores implement it, one in memory and one on four byte-keyed trees; a token-bucket
limiter stands in front.

The project is built around one small definition, `Queue.Step`: what a push, pull,
acknowledgement or purge may do to one recipient's queue, and with what result.

- `Queue`, `Runs`, `Paging`: that definition, and what holds of every run of it:
  conservation, arrival numbers that are never reused, quotas, and paging sessions that
  deliver everything once while anything happens in between. All of it but the quotas is
  proved of lax runs, in which the queue moves as it should but quota records and index
  may be off; every run is one.
- `MemStore`, `MemPurge`: the in-memory store as a class whose methods change a map of
  recipient entries, proved against the queue; how far its early-stopping purge reaches.
- `SledTrees`, `SledStore`, `SledScan`, `SledPurge`: the persistent store as a class over its
  four trees. `Safe` is what holds at every moment, also after a purge that a storage
  error ended half-way; `Exact` is what holds while purges complete. `Excess` measures
  the difference: by how much a quota record exceeds the truth. That no record falls short of
  it presumes that no push comes for a recipient whose quota a running purge holds.
- `Histories`, `SledHistories`: every history of the memory store in which nothing clips is, for each recipient, a
  run of the queue. So is every history of the persistent store while its purges complete;
  whatever its purges do, it is a lax run, and how far quota records and index can be off is
  bounded.
- `SledInterleave`: the persistent store at the grain of purge rounds, with any calls in between,
  and what becomes of the records when that presumption fails.
- `Text`, `Decimal`, `Keys`, `Cursor`: the byte encodings. A string is its UTF-8 bytes, and the
  order of tree keys is the byte order defined in `Text`.
- `Gc`, `Admission`: the collector's loop, and what the handlers let through.
- `RateLimiter`, `RateTraces`, `RateWindows`: the limiter as a class over its bucket map, what
  one bucket guarantees over whole traces, and what the limiter guarantees when the two turns
  that each request takes at its lock mix with those of other requests.
- `AckLaws`, `Exceptions`: acknowledgement as a set operation; concrete inputs on which the
  stores depart from the queue. The exact conditions stand beside them: `MemStore.InsertExact` and
  `SledStore.StoredExact` for clipped counters, `MemPurge.PlanComplete` for the early stop,
  `SledScan.PullsExactly` for pulls that meet colons in recipients, `Cursor.CursorRoundTrip`
  for cursors, `SledHistories.FalseDuplicate` for pushes wrongly called duplicates,
  `SledInterleave.PurgeAmongCalls` for calls that race with a purge, and
  `RateWindows.BucketBound` for clock readings out of order.

Inputs instead of effects: clock readings, the order of hash sets (chosen arbitrarily, the
contracts hold for every choice), the number of storage calls that succeed before one
fails during a purge, whether a text is blank after trimming, the length of a decoded
payload, and whether a cursor's base64 layer decodes.

Conditions that come from the code. A stored push whose saturating additions clip breaks
exact accounting; the contracts say when. A colon in a recipient splits cursors and message
keys in the wrong place. The keys in docs/storage.md and the cursor in docs/design.md are an
older scheme; line 67 of the repository's own README.md and the source are followed.

## Model

| member | source | states |
|---|---|---|
| `Decimal.Padded20` | src/store.rs:80-83 | a u64 printed with 20 zero-padded digits has exactly 20 characters, none a colon, and `parse::<u64>` gives it back |
| `Decimal.Padded20Order` | src/store_sled.rs:325 | the byte order of two padded numbers is their numeric order, for all u64 values |
| `Decimal.Padded10` | src/store_sled.rs:329 | a u32 printed with 10 zero-padded digits has exactly 10 characters, injectively |
| `Decimal.ParsesExactly` | src/store_sled.rs:366-370 | `parse::<u64>` gives back every u64 as it prints, with a plus sign or without, and refuses larger numbers, empty texts and anything but digits |
| `Cursor.CursorRoundTrip` | src/store.rs:80-102 | decoding an encoded cursor gives back recipient and number exactly when the recipient has no colon, and the invalid-cursor error otherwise |
| `Cursor.CursorText` | src/store.rs:80-83 | beneath its base64 a cursor is the recipient, a colon and twenty digits |
| `Cursor.DecodedRecipient` | src/store.rs:91-94 | no cursor whatever decodes to a recipient that holds a colon |
| `Keys.MessageKeyLayout` | src/store_sled.rs:315-331 | byte for byte: "msg:", the recipient, ":", the number in twenty digits, ":", the id, ":", the chunk in ten |
| `Keys.IndexKeyLayout` | src/store_sled.rs:333-342 | byte for byte: "idx:", the recipient, ":", the id, ":", the chunk in ten digits |
| `Keys.RecipientKeyLayout` | src/store_sled.rs:344-356 | "quota:" or "seq:" and the recipient |
| `Keys.MessageKeyInjective` | src/store_sled.rs:323-331 | message keys are injective for all recipients, with colons or not |
| `Keys.IndexKeyInjective` | src/store_sled.rs:333-342 | index keys are injective for all recipients |
| `Keys.RecipientKeysInjective` | src/store_sled.rs:344-356 | quota and seq keys are injective |
| `Keys.MessageKeyOrder` | src/store_sled.rs:323-331 | within one recipient the byte order of message keys is arrival order, whatever the ids and chunks |
| `Keys.PrefixScan` | src/store_sled.rs:315-331 | for a colon-free recipient, a key has its prefix exactly when the message is its own or its recipient continues it with a colon |
| `Keys.ParsedSeq` | src/store_sled.rs:358-375 | the number parsed from a colon-free recipient's message key is the arrival number |
| `Keys.ParsedSeqWithColon` | src/store_sled.rs:358-375 | with a colon in the recipient the parse does not depend on the message at all |
| `Keys.ParsedSeqExactly` | src/store_sled.rs:358-375 | the number is recovered for every message exactly when the recipient has no colon |
| `Keys.U64RoundTrip` | src/store_sled.rs:377-388 | decode_u64 inverts encode_u64 |
| `Keys.U64Bytes` | src/store_sled.rs:377-379 | the most significant of the eight bytes comes first |
| `Keys.U64Onto` | src/store_sled.rs:377-388 | every eight-byte value that decodes is the encoding of what it decodes to |
| `Queue.PageShape` | src/store_mem.rs:126-139 | a page is ascending, live, from the cursor on, and skips no live message before its end |
| `Queue.RestOfPage` | src/store_mem.rs:147-153 | the live messages after a full page are exactly those the next cursor selects |
| `Queue.PageBoundary` | src/store_mem.rs:126-154 | with a positive limit there is a next cursor exactly when a further live message exists; the page has min(limit, 2^32-1, live) items; the estimate covers the live messages still to come |
| `Queue.PageFigures` | src/store_mem.rs:112-153 | a page has min(limit, 2^32-1, n) items, n being the messages from the cursor on whose deadline is after the clock reading, and a next cursor exactly when that is more than none and less than n |
| `Queue.PushExactly` | src/store_mem.rs:40-82 | a push is a duplicate exactly when a message with its id and chunk index is queued, any other is stored exactly when count and bytes fit the limits, and the counts reported are the new ones |
| `Queue.AckExactly` | src/store_mem.rs:174-192 | an acknowledgement takes exactly the messages whose id and chunk index it names |
| `Queue.CursorAnswers` | src/store_mem.rs:102-111 | from a cursor's text: resume after its number when it names the recipient, a mismatch when it names another, invalid without a colon or a number |
| `Queue.DropsInvisible` | src/store_mem.rs:126-153 | forgetting expired messages changes neither the items nor the next cursor of any later page |
| `Queue.StepWellFormed` | src/store.rs:66-78 | every call keeps numbers below the counter, messages filed under their own number and recipient, and no (message_id, chunk_index) queued twice |
| `Runs.RunIsLax` | src/store.rs:66-78 | every run of the queue is a lax run: one in which the queue moves as it should, whatever quota records, reported counts and pull results say |
| `Runs.Conservation` | src/store_mem.rs:60-75 | on every lax run, stored pushes = next arrival number = queued + acknowledged + dropped as expired |
| `Runs.NumbersAreNeverReused` | src/store_mem.rs:60-61 | on every lax run an arrival number names one message for ever; what is acknowledged or expired never comes back |
| `Runs.StoredNumber` | src/store_mem.rs:60-72 | the message stored by an event gets the number of earlier stores |
| `Runs.StoredMessage` | src/store_mem.rs:60-72 | the message stored by a push has that push's recipient, id, ciphertext, metadata, arrival time, deadline and size, and the number of earlier stores |
| `Runs.QueuedIsPushed` | src/store_mem.rs:60-72 | whatever is queued at any moment is, field by field, what exactly one push stored under its number |
| `Runs.QuotasHold` | src/store_mem.rs:52-59 | with fixed limits, count and bytes of the queue stay within them on every run |
| `Runs.DeadlinesFollowArrival` | src/store_mem.rs:207-218 | pushes with nondecreasing deadlines keep every reachable queue in deadline order |
| `Paging.RunShows` | src/store_mem.rs:102-153 | in a run of the queue every page of every session holds the queue's items and cursor |
| `Paging.SessionRises` | src/store_mem.rs:102-153 | over a whole session on any lax run, with anything in between, the arrival numbers returned strictly increase, if the session's own pages hold the queue's items and cursors |
| `Paging.SessionDeliversOnce` | src/store_mem.rs:102-153 | then a message queued at the first page that stays unacknowledged and unexpired at each page is returned exactly once, unchanged |
| `Paging.DeliveredArePushed` | src/store_mem.rs:102-153 | and so is every message a session delivers |
| `Paging.KeptIsDelivered` | src/store_mem.rs:102-153 | a message queued at the first page stays, and so is delivered exactly once, when up to the last page no acknowledgement names it and no pull or purge reads a clock at or past its deadline |
| `Paging.SessionLength` | src/store_mem.rs:126-153 | an undisturbed session over n live messages, with min(limit, 2^32-1) = L at each page, takes max(1, ceil(n/L)) pages |
| `Paging.ColonEndsSession` | src/store.rs:85-102 | a recipient with a colon has its own next cursor refused as invalid |
| `MemStore.Remove` | src/store_mem.rs:138-146 | taking one message out keeps index, queue and totals in agreement, and neither saturating subtraction saturates |
| `MemStore.InsertExact` | src/store_mem.rs:60-75 | storing keeps the entry consistent exactly when neither the counter nor the byte total saturates |
| `MemStore.PushRefines` | src/store_mem.rs:40-82 | a push does to a consistent entry what the queue's push does, unless an addition clips, and then consistency is lost |
| `MemStore.ScanPage` | src/store_mem.rs:126-139 | the pull loop, stopped where it stops, has collected exactly the page |
| `MemStore.ScanEvicts` | src/store_mem.rs:126-139 | it has noted as expired exactly the expired messages before the first live one that does not fit |
| `MemStore.BatchIsPage` | src/store_mem.rs:138-159 | after the eviction, items, next cursor and estimate are those of the queue's page |
| `MemStore.PullsStep` | src/store_mem.rs:84-160 | a pull is a step of the recipient's queue, an unknown recipient being an empty queue whose cursor is not read |
| `MemStore.PullSize` | src/store_mem.rs:112-153 | a successful pull by a known recipient returns min(limit, 2^32-1, n) items and a cursor exactly when that is more than none and less than n |
| `MemStore.PullRefuses` | src/store_mem.rs:102-109 | a pull by a known recipient with a cursor that names another, or that has no number, is refused with its own error and changes nothing |
| `MemStore.AcksStep` | src/store_mem.rs:162-193 | an acknowledgement is a step of the queue; for an unknown recipient repeated items are each counted as missing |
| `MemStore.AckHit` | src/store_mem.rs:179-187 | an indexed item removes exactly its message |
| `MemStore.AckMiss` | src/store_mem.rs:188-190 | an item without an index entry names no queued message |
| `MemStore.Scan` | src/store_mem.rs:117-139 | the pull loop returns the page, whether more is live, and the keys to evict |
| `MemStore.Evict` | src/store_mem.rs:138-146 | the eviction loop removes exactly those keys |
| `MemStore.Due` | src/store_mem.rs:206-218 | the first purge loop finds the leading expired messages, up to the target |
| `MemStore.DropDue` | src/store_mem.rs:217-230 | the second purge loop removes exactly those and counts each |
| `MemStore.MemStore.Push` | src/store_mem.rs:40-82 | changes one entry; result and new queue are those of the queue's push unless an addition clips; what is stored copies the push field by field; the store stays consistent exactly when nothing clips |
| `MemStore.MemStore.Pull` | src/store_mem.rs:84-160 | result and new queue are those of the queue's pull, and which expired messages are evicted is stated exactly |
| `MemStore.MemStore.Ack` | src/store_mem.rs:162-193 | in whatever order the set is visited, the queue loses exactly the named messages, and the outcome counts them |
| `MemStore.MemStore.PurgeExpired` | src/store_mem.rs:195-234 | removes the first min(max, 1024) of each queue's leading expired messages in (sorted recipient, arrival) order, and says how many |
| `MemPurge.OrderedIsExpiredFirst` | src/store_mem.rs:207-216 | a queue has its expired messages first at every moment exactly when deadlines follow arrival |
| `MemPurge.PurgeTakesPrefix` | src/store_mem.rs:195-233 | whatever the deadlines, a purge takes only expired messages and an initial part of each queue |
| `MemPurge.PlanComplete` | src/store_mem.rs:207-216 | the early stop reaches every expired message exactly when in each queue they come first |
| `MemPurge.PurgeComplete` | src/store_mem.rs:195-233 | then a purge removes exactly min(target, number expired) and leaves the rest |
| `MemPurge.PurgeDrops` | src/store_mem.rs:195-233 | a purge is an expiry step for every recipient at once |
| `SledTrees.ViewWellFormed` | src/store_sled.rs:98-116 | the messages of one recipient in the tree form a well-formed queue |
| `SledTrees.IndexLeads` | src/store_sled.rs:59 | every queued message has its index entry, and an entry means a queued message exactly when it is no orphan |
| `SledTrees.LookUp` | src/store_sled.rs:203-209 | the key rebuilt from an index entry finds the queued message, or there is none |
| `SledTrees.RemoveSafe` | src/store_sled.rs:261-262 | removing a message, with its index entry or not yet, keeps the trees safe |
| `SledTrees.QuotaWriteSafe` | src/store_sled.rs:273-277 | so does writing a quota that covers the truth |
| `SledStore.WrittenSafe` | src/store_sled.rs:81-116 | a stored push that clips nothing keeps the trees safe and no recipient's quota drifts |
| `SledStore.WrittenOrphans` | src/store_sled.rs:107-108 | message and index entry are written together: no entry becomes an orphan and none stops being one |
| `SledStore.StoredExact` | src/store_sled.rs:68-116 | in exact trees a stored push stays exact exactly when no addition clips |
| `SledStore.PushRefines` | src/store_sled.rs:58-123 | the push transaction, in safe trees and in exact ones: when it is admitted given by how much the record exceeds the truth, the counts it reports, the recipient's new queue and index entry, every other queue unchanged, the same orphans, true sizes within the limits |
| `SledStore.AckMiss` | src/store_sled.rs:220-226 | an orphan entry is cleared and counted as missing |
| `SledStore.AckDone` | src/store_sled.rs:228-233 | the written quota leaves every recipient's excess as it was, and exact trees stay exact |
| `SledStore.ScanLoop` | src/store_sled.rs:159-178 | the pull loop computes the recursive scan, stops and parse errors included |
| `SledStore.SledStore.Push` | src/store_sled.rs:48-135 | the transaction's effect on all four trees; what is stored copies the push field by field |
| `SledStore.SledStore.Pull` | src/store_sled.rs:137-193 | the scan's result for every recipient; a page of the queue when the store is safe and the keys are readable |
| `SledStore.SledStore.Ack` | src/store_sled.rs:195-245 | in whatever order the set is visited: the queue loses exactly the named messages, their index entries go, the quota shrinks by as much |
| `SledStore.SledStore.PurgeExpired` | src/store_sled.rs:247-282 | complete: the first min(max, 1024) expired keys go and every quota is as exact as before; broken off by a storage error anywhere: a prefix of them is gone, with the index entries of all but at most the last, each quota record is untouched or reduced by exactly what its recipient lost, and the trees are safe; with enough storage calls it completes |
| `SledStore.SledStore.RemoveDue` | src/store_sled.rs:255-271 | one round of the first loop, or its failure |
| `SledStore.SledStore.WriteQuotas` | src/store_sled.rs:273-281 | the second loop, or its failure |
| `SledScan.CleanExactly` | src/store_sled.rs:157-160 | the scan for a colon-free recipient visits only its own messages exactly when no queued recipient continues it with a colon |
| `SledScan.ScanIsQueue` | src/store_sled.rs:157-160 | then it visits exactly the recipient's queue, in arrival order |
| `SledScan.CleanIsReadable` | src/store_sled.rs:157-161 | then all its keys are readable: each holds a number where the scan looks for one, and its message is the recipient's own or was expired from the start |
| `SledScan.ScanIsPage` | src/store_sled.rs:157-185 | for readable keys one scan is one page |
| `SledScan.PullIsPage` | src/store_sled.rs:137-193 | a pull from safe trees with readable keys, for any recipient and cursor, returns the queue's page; only the estimate depends on the quota record |
| `SledScan.PullSize` | src/store_sled.rs:158-185 | such a pull returns min(limit, 2^32-1, n) items and a cursor exactly when that is more than none and less than n |
| `SledScan.PullRefuses` | src/store_sled.rs:144-152 | in any trees a cursor that names another recipient is a mismatch, and one without a colon or a number is invalid |
| `SledScan.PullRefines` | src/store_sled.rs:137-193 | with exact quotas it is a step of the queue that drops nothing |
| `SledScan.PullsExactly` | src/store_sled.rs:137-193 | exactly then: for every recipient, colon or not, with at most 2^32-1 keys under its prefix, all pulls return the queue's pages if and only if its keys are readable |
| `SledScan.BadKeyFails` | src/store_sled.rs:161 | a key without a number fails every pull with room to reach it |
| `SledScan.ScanForgets` | src/store_sled.rs:159-178 | forgetting expired messages changes nothing a later scan returns, whoever owns them |
| `SledScan.ForgetsExactly` | src/store_sled.rs:159-178 | scans with room for every key agree before and after every loss of expired messages exactly when all keys under the prefix hold numbers |
| `SledPurge.TrackOne` | src/store_sled.rs:263-270 | updating the running quota at one removal keeps it in agreement with the messages, and neither subtraction saturates |
| `SledPurge.WritesKeepExcess` | src/store_sled.rs:273-277 | the deferred quota writes amount to updating every quota at each removal |
| `SledPurge.DueRound` | src/store_sled.rs:255-271 | stopping after either removal of a round leaves a partial purge; finishing it is progress |
| `SledPurge.PurgedStep` | src/store_sled.rs:247-282 | complete or not, a purge is an expiry step for every recipient |
| `SledPurge.PurgedOrphans` | src/store_sled.rs:261-262 | a completed purge leaves the orphan entries as they were; a broken-off one adds exactly its last message's entry, if it failed between the two removals |
| `SledPurge.PurgedExact` | src/store_sled.rs:247-282 | a completed purge keeps index and messages in bijection and every quota exact |
| `Gc.RunGcMemory` | src/ttl.rs:22-35 | the collector's loop is a sequence of purges and its counter their sum |
| `Gc.MemDrains` | src/ttl.rs:22-35 | with a fixed clock and expired messages first, E of them are gone after ceil(E/1024) ticks, counted once each, no live message touched |
| `Gc.RunGcSled` | src/ttl.rs:22-35 | the same loop over the persistent store, where a purge may fail and the loop carries on |
| `Gc.PurgeShrinks` | src/store_sled.rs:249-272 | a completed purge removes min(1024, number expired), whatever the deadline order |
| `Gc.SledDrains` | src/ttl.rs:22-35 | E expired messages are gone once ceil(E/1024) purges have completed, however many others failed |
| `RateLimiter.RateLimiter.Allow` | src/server.rs:73-104 | exactly one bucket is written, by one refill-and-take step, and the decision is that bucket's |
| `RateLimiter.RateLimiter.EnforceRate` | src/server.rs:380-408 | both buckets are charged and the request passes when both allow it |
| `RateTraces.TouchSpends` | src/server.rs:93-102 | a call spends what it grants and keeps 0 <= tokens <= burst |
| `RateTraces.TouchThenWait` | src/server.rs:87-103 | granted, refused or banned, the call leaves exactly what was there less what it granted: the next call finds that plus the tokens earned since, up to burst |
| `RateTraces.Envelope` | src/server.rs:93-95 | through refusals and bans refill-and-cap computes the lower envelope of burst + rate * (t_j - t_i) less the grants among turns i to j - 1, over all i <= j |
| `RateTraces.GrantedOutsideBans` | src/server.rs:87-103 | so outside a ban a call is granted exactly when 1 + (grants among turns i to j - 1) <= burst + rate * (t_j - t_i) for every i <= j |
| `RateTraces.BannedExactly` | src/server.rs:87-101 | and a ban is in force exactly when an earlier call, refused outside a ban, started one that lasts so long |
| `RateTraces.FirstRefusal` | src/server.rs:80-101 | up to the first refusal a request is allowed exactly when no window ending at it holds more than burst + rate * length requests |
| `RateTraces.GrantedExactly` | src/server.rs:80-101 | a whole trace is granted exactly when every request conforms |
| `RateTraces.BanHolds` | src/server.rs:87-101 | after a refusal that sets a ban, every call before its end is refused and does not extend it |
| `RateTraces.BanEnds` | src/server.rs:87-97 | the first call at or after its end is allowed, when a ban is long enough to earn a token |
| `RateWindows.ChargePays` | src/server.rs:78-102 | a charge is paid from what its bucket could grant, and every other bucket is untouched |
| `RateWindows.EnforceIsTwoCharges` | src/server.rs:387-401 | a request that nobody overtakes is two charges in a row and passes when both do |
| `RateWindows.ReplaySane` | src/server.rs:93-97 | 0 <= tokens <= burst in every bucket at every moment of every trace of charges, taken in the order of the lock, whatever the clock readings |
| `RateWindows.BucketBound` | src/server.rs:93-102 | on any trace one bucket lets through at most burst + rate * climb, where the climb is how far the clock readings move forward in all: the elapsed time, when they are in order |
| `RateWindows.AddressBound` | src/server.rs:380-408 | when the readings are in order, however requests overlap, between any two moments one address gets at most burst + per_ip_rps * elapsed requests accepted |
| `RateWindows.WindowBound` | src/server.rs:380-408 | and at most burst + min(per_ip_rps, r) * elapsed for one endpoint, r being push_rps, pull_rps or ack_rps |
| `RateWindows.OthersUntouched` | src/server.rs:78-86 | a charge leaves every other bucket as it was |
| `RateWindows.Projection` | src/server.rs:79-86 | in a trace over many buckets each one lives through its own charges alone |
| `RateWindows.Decision` | src/server.rs:97-102 | and decides each of them by itself |
| `RateWindows.FirstRefusalOn` | src/server.rs:80-101 | so whatever else the limiter is asked, up to the first refusal on a key a charge on it passes exactly when it conforms at the rate configured for that key |
| `RateWindows.PassedExactly` | src/server.rs:80-103 | through any refusals and bans on any keys: outside a ban a charge passes exactly when no window of its key's granted charges is used up at per_ip_rps, push_rps, pull_rps or ack_rps; during one it never does |
| `RateWindows.BanOn` | src/server.rs:87-101 | and after a refusal that sets a ban every charge on that key before its end is refused, and the first at or after its end passes, whatever happens on other keys |
| `Admission.BatchSizeRange` | src/server.rs:292-298 | the page size handed to the store is the request's when that is positive and at most the configured maximum, that maximum when it is more or absent, and zero is refused |
| `Admission.AdmittedExactly` | src/server.rs:417-455 | a request is let through exactly when it names a recipient and a kind, its chunk index is below a positive count, and its payload decodes to at most the maximum; all its fields are passed on |
| `Admission.FirstComplaint` | src/server.rs:418-442 | which of several complaints is made |
| `Admission.DeadlineExactly` | src/server.rs:444-446 | an admitted message's deadline is its arrival plus 1000 ms for each second of the time to live, or 2^64-1 when that does not fit |
| `Admission.AdmittedDeadlines` | src/server.rs:444-446 | so under fixed limits and nondecreasing arrival, deadlines never decrease |
| `Admission.AdmittedLifetime` | src/server.rs:444-455 | and every queued message is live exactly until its arrival plus the time to live |
| `Admission.AdmittedExpiresInOrder` | src/server.rs:444-455 | so in every queue such a run reaches, expired messages come first |
| `Histories.MemRefines` | src/store_mem.rs:40-234 | every history of the memory store is, for each recipient, a run of its queue |
| `Histories.MemRoomFromLimits` | src/store_mem.rs:52-75 | with a byte limit below 2^64-1 and fewer than 2^64-1 calls no addition ever clips: any sequence of calls is a history |
| `Histories.MemSessionDelivers` | src/store_mem.rs:84-160 | every paging session over the memory store rises, delivers what stays exactly once, and delivers nothing but what one push stored, field by field |
| `Histories.MemWithinLimits` | src/store_mem.rs:52-59 | its recorded totals are exact and stay within fixed limits |
| `Histories.MemPurgesComplete` | src/store_mem.rs:195-233 | with admitted pushes its purges are complete at every moment |
| `Histories.MemPurgeUnseen` | src/store_mem.rs:195-233 | a purge changes no later page |
| `Histories.MemEvictionUnseen` | src/store_mem.rs:138-146 | nor does what any client's pull evicts |
| `SledHistories.StaysSafe` | src/store_sled.rs:58-281 | with purges failing anywhere, every queued message keeps its own index entry and no quota is under-counted |
| `SledHistories.IsLaxRun` | src/store_sled.rs:48-282 | every history of the persistent store, purges failing anywhere, is for each recipient a lax run of its queue |
| `SledHistories.Conserves` | src/store_sled.rs:81-116 | so nothing is lost or invented, and no arrival number names two messages |
| `SledHistories.SessionDelivers` | src/store_sled.rs:137-193 | and every paging session whose own pages find readable keys rises, delivers what stays exactly once, and delivers nothing but what one push stored, field by field |
| `SledHistories.WithinLimits` | src/store_sled.rs:68-80 | so true sizes stay within fixed limits after any number of broken-off purges |
| `SledHistories.FailedExcess` | src/store_sled.rs:255-281 | a broken-off purge raises no quota record, and the excess by at most what it removed |
| `SledHistories.ExcessBound` | src/store_sled.rs:255-281 | over a whole history a recipient's record exceeds the truth by at most what broken-off purges removed of it, and never falls short |
| `SledHistories.PushAdmitted` | src/store_sled.rs:68-80 | so a push that is no duplicate is stored whenever the queue, with what broken-off purges removed, leaves room |
| `SledHistories.OrphanBound` | src/store_sled.rs:261-262 | there are at most as many orphan index entries as purges that failed |
| `SledHistories.OrphanExactly` | src/store_sled.rs:220-224 | over a whole history an entry is an orphan exactly when a broken-off purge left it behind and no acknowledgement by its recipient has named it since |
| `SledHistories.FalseDuplicate` | src/store_sled.rs:59-67 | so a push is reported as a duplicate exactly when its message is queued or so stranded, and wrongly exactly when it is stranded |
| `SledHistories.RoomFromLimits` | src/store_sled.rs:68-116 | with a byte limit below 2^64-1 and fewer than 2^64-1 calls no addition ever clips, whatever purges fail |
| `SledHistories.ReadersCannotTell` | src/store_sled.rs:159-185 | a purge, completed or not, changes no later page, if every key under the prefix holds a number |
| `SledHistories.StaysExact` | src/store_sled.rs:58-281 | while purges complete, index and messages are in bijection and quotas exact, whatever anyone pulls |
| `SledHistories.Refines` | src/store_sled.rs:48-282 | and for each recipient whose own pulls find readable keys the history is a run of its queue |
| `SledInterleave.PurgeAmongCalls` | src/store_sled.rs:255-277 | for any interleaving of purge rounds, quota writes and calls, also by recipients whose quota is held, in which no record falls short before the last act: when all is written back each record is off by exactly what drifted, exact trees are exact again if and only if nothing has, and trees are safe if and only if no record is below the truth |
| `SledInterleave.CallInTheGap` | src/store_sled.rs:263-277 | one round, one call, one write: the record is off by exactly what the call did to that queue, so it stays exact if and only if the queue keeps its count and bytes |
| `SledInterleave.NothingDrifts` | src/store_sled.rs:255-277 | while no call changes a queue whose quota is held, trees are safe throughout and nothing drifts |
| `SledInterleave.SparesUnlessMeant` | src/store_sled.rs:58-80 | refused or duplicate pushes, acknowledgements that find nothing, pulls, and all calls of other recipients change no such queue |
| `SledInterleave.InterleavedIsLax` | src/store_sled.rs:48-282 | every history at the grain of purge rounds is, for each recipient, a lax run of its queue, as long as no record is below the truth |
| `SledInterleave.SessionAmongRounds` | src/store_sled.rs:137-193 | so sessions whose pages are pulled between rounds rise too and deliver what stays exactly once |
| `AckLaws.AckComposes` | src/store_mem.rs:174-192 | acknowledging two sets in turn is acknowledging their union; repeating one deletes nothing |
| `AckLaws.EntryDetermined` | src/store_mem.rs:17-24 | the queue determines a consistent entry: index and totals add nothing |
| `AckLaws.MemAckAgain` | src/store_mem.rs:162-193 | repeating an acknowledgement leaves the memory store as it is |
| `AckLaws.SledAckAgain` | src/store_sled.rs:195-234 | and the persistent store |
| `Exceptions.OrphanReportsDuplicate` | src/store_sled.rs:59-67 | a purge that fails between its first two removals leaves an orphan: pushing that message again is reported as a duplicate though it is not queued |
| `Exceptions.AckClearsOrphan` | src/store_sled.rs:220-223 | an acknowledgement of the orphan deletes nothing, counts one missing, clears the entry and lets the message in again |
| `Exceptions.ByteTotalClips` | src/store_mem.rs:56-59 | at the store interface, two pushes under a byte limit of 2^64 - 1 make the byte total fall short; no request holds a payload that long |
| `Exceptions.EarlyStopMisses` | src/store_mem.rs:207-216 | after two pushes, the second with the earlier deadline, no tick of the collector removes the expired message until the live one before it expires too |
| `Exceptions.ScanMeetsExtension` | src/store_sled.rs:157-174 | after one push for `r:n`, n a number, a pull for `r` returns that message |
| `Exceptions.ScanFailsOnExtension` | src/store_sled.rs:161 | after one push for `r:x`, x not starting with a number, every pull for `r` fails |
| `Exceptions.LateClockOvershoots` | src/server.rs:77-96 | when clock readings come to the lock out of order, five requests pass in a second that burst and rate limit to four |
| `Exceptions.HeldPushUndercounts` | src/store_sled.rs:263-277 | a stored push between a purge's reading and writing of its recipient's quota leaves an exact record one short |

## Left out

- HTTP routing, JSON, TLS and server start and shutdown: input and output around the modelled calls.
- sled's own storage, flushing and transaction retry: a tree is an ordered map from bytes, a push or an acknowledgement is one atomic step; a flush that fails after the writes is not modelled.
- Storage errors inside a pull, push or acknowledgement: a failed transaction changes nothing, a failed scan returns the error.
- Inside one round of a `SledStore` purge: its two removals and its reading of the quota are one step when calls interleave. Once a record has fallen short of the truth, the model says nothing of later calls.
- RateWindows.WindowBound: it presumes that clock readings do not decrease from one turn at the lock to the next, though the source reads the clock before it waits for the lock; `Exceptions.LateClockOvershoots` shows that elapsed time does not bound requests otherwise, and `RateWindows.BucketBound` what does.
- JSON encoding of stored records: messages and quota records are stored as values.
- Base64 (section 4 of RFC 4648) and UUID generation: a UUID is any 36-byte text without a colon (section 4 of RFC 9562), equal ids having equal texts.
- Rounding of f64 tokens: tokens and times are exact reals; `Instant` does not overflow.
- RateLimiter.RateLimiter.EnforceRate: the endpoint is one of push, pull and ack, so the default arm for other labels does not occur.
- Gc.RunGcMemory: the store behind the dynamic interface is fixed, one method for each store; the metrics counter is always present.
- MemStore.MemStore.Ack: the number of items is below 2^64, as the length of a vector is; so in the persistent store.
- Recipient entries are values in the memory store's map, not separate objects: an update in place is a map update.
- Configuration loading, error tables and metrics snapshots: single checks and counters.
