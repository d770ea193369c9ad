/** Where the stores depart from the queue they implement: a concrete input for
    each, beside the conditions that rule it out. */
module Exceptions {
  import opened Machine
  import Ordering
  import opened Text
  import opened Keys
  import opened Decimal
  import opened Cursor
  import opened Messages
  import opened Queue
  import opened RateLimiter
  import opened SledTrees
  import AckLaws
  import MemStore
  import MemPurge
  import SledStore
  import SledScan
  import SledPurge
  import RateWindows
  import Gc
  import Histories
  import SledInterleave

  const NO_META := MessageMeta([], 0, 0, 1, 0)
  const ID_A: Uuid := seq(36, _ => 97)
  const ID_B: Uuid := seq(36, _ => 98)
  const ALICE: Text := [97]

  function Note(id: Uuid, payload: u64, deadline: u64): InboundMessage {
    InboundMessage(ALICE, id, [], NO_META, payload, 0, deadline)
  }

  /** A purge that fails between its first two removals leaves an orphan index entry:
      pushing the same message again is reported as a duplicate although it is no longer
      queued. `SledHistories.FalseDuplicate` says for how long. */
  lemma OrphanReportsDuplicate(t: Trees, now: u64, max: nat, msg: InboundMessage, limits: RelayLimits,
                               res: Result<PushResult>, t'': Trees)
    requires Exact(t) && max > 0 && SledPurge.Plan(t.messages, now) != []
    requires var k := SledPurge.Plan(t.messages, now)[0];
             k in t.messages && msg.recipient == t.messages[k].recipient && InboundItem(msg) == ItemOf(t.messages[k])
    requires var t' := t.(messages := t.messages - {SledPurge.Plan(t.messages, now)[0]});
             Safe(t') ==> SledStore.Pushes(t', msg, limits, res, t'')
    ensures var t' := t.(messages := t.messages - {SledPurge.Plan(t.messages, now)[0]});
            && Safe(t') && SledPurge.Purged(t, now, max, Err(Storage), t')
            && !Queued(View(t'.messages, msg.recipient), InboundItem(msg))
            && IdxKey(msg.recipient, InboundItem(msg)) in Orphans(t')
            && res.Ok? && res.value.duplicate && !res.value.stored && t'' == t'
  {
    hide View, KeyOf, Covers, Numbered, Bytes, QuotaOf, SledPurge.Plan, Excess, IdxKey, Clips, Step, SledStore.Fits;
    var k := SledPurge.Plan(t.messages, now)[0];
    var t' := t.(messages := t.messages - {k});
    RemoveSafe(t, k);
    FirstRemoval(t, now, max, k);
    NoLongerQueued(t, k);
  }

  lemma NoLongerQueued(t: Trees, k: Text)
    requires Safe(t) && k in t.messages
    ensures var t' := t.(messages := t.messages - {k}); var m := t.messages[k];
            && WellKeyed(t'.messages) && !Queued(View(t'.messages, m.recipient), ItemOf(m))
            && IdxKey(m.recipient, ItemOf(m)) in Orphans(t')
  {
    hide View, KeyOf, Covers, Numbered, Bytes, QuotaOf;
    var t' := t.(messages := t.messages - {k});
    RemoveSafe(t, k);
    var q := View(t'.messages, t.messages[k].recipient);
    forall s | s in q ensures ItemOf(q[s]) != ItemOf(t.messages[k]) {
      OtherItem(t, KeyOf(q[s]), k);
    }
    forall j | j in t'.messages ensures IdxOf(t'.messages[j]) != IdxOf(t.messages[k]) {
      if IdxOf(t'.messages[j]) == IdxOf(t.messages[k]) { SameItem(t, j, k); }
    }
  }

  lemma FirstRemoval(t: Trees, now: u64, max: nat, k: Text)
    requires Safe(t) && max > 0 && SledPurge.Plan(t.messages, now) != [] && k == SledPurge.Plan(t.messages, now)[0]
    requires k in t.messages && Safe(t.(messages := t.messages - {k}))
    ensures SledPurge.Purged(t, now, max, Err(Storage), t.(messages := t.messages - {k}))
  {
    hide SledPurge.Plan, Safe, Excess, WellKeyed, QuotaOf;
    var plan := SledPurge.Plan(t.messages, now);
    var t' := t.(messages := t.messages - {k});
    assert Elements(Take(plan, 1)) == {k} && Elements(Take(plan, 0)) == {};
    assert t.index - SledPurge.IdxsOf(t.messages, {}) == t.index;
    SafeKeyed(t);
    SafeKeyed(t');
    assert SledPurge.BrokenOff(t, plan, 1, 0, t');
  }

  lemma SafeKeyed(t: Trees)
    requires Safe(t)
    ensures WellKeyed(t.messages)
  {
  }

  lemma OtherItem(t: Trees, j: Text, k: Text)
    requires WellKeyed(t.messages) && Indexed(t) && j in t.messages && k in t.messages
    ensures t.messages[j].recipient == t.messages[k].recipient && ItemOf(t.messages[j]) == ItemOf(t.messages[k]) ==> j == k
  {
    hide KeyOf;
    if IdxOf(t.messages[j]) == IdxOf(t.messages[k]) { SameItem(t, j, k); }
  }

  /** Acknowledging the message clears the orphan, deletes nothing, and lets the
      message in again. */
  lemma AckClearsOrphan(t: Trees, r: Text, item: AckItem, o: AckOutcome, t': Trees,
                        msg: InboundMessage, limits: RelayLimits, res: Result<PushResult>, t'': Trees)
    requires Safe(t) && IdxKey(r, item) in t.index && !Queued(View(t.messages, r), item)
    requires SledStore.Acks(t, r, [item], o, t') && Safe(t')
    requires msg.recipient == r && InboundItem(msg) == item && SledStore.Pushes(t', msg, limits, res, t'')
    ensures o.deleted == 0 && o.missing == 1
    ensures t'.messages == t.messages && t'.index == t.index - {IdxKey(r, item)}
    ensures res.Ok? <==> SledStore.Fits(ViewLog(t, r), Excess(t, r), msg, limits)
    ensures res.Ok? ==> res.value.stored && !Queued(View(t.messages, r), item)
  {
    hide Safe, IdxKey, View, QuotaOf, Exact, Step, Clips, Excess, Orphans, SledStore.Fits, NextSeq, Queued, WellKeyed, SledStore.Acks;
    OrphanAcked(t, r, item, o, t');
  }

  lemma OrphanAcked(t: Trees, r: Text, item: AckItem, o: AckOutcome, t': Trees)
    requires Safe(t) && Safe(t') && !Queued(View(t.messages, r), item) && SledStore.Acks(t, r, [item], o, t')
    ensures o.deleted == 0 && o.missing == 1
    ensures t'.messages == t.messages && t'.index == t.index - {IdxKey(r, item)} && IdxKey(r, item) !in t'.index
    ensures ViewLog(t', r) == ViewLog(t, r) && Excess(t', r) == Excess(t, r)
  {
    hide Indexed, Numbered, Covers, IdxKey, View, Exact, Step, Excess, Orphans, NextSeq, WellKeyed;
    assert Elements([item]) == {item};
    assert SledStore.Idxs(r, {item}) == {IdxKey(r, item)};
    NothingNamed(View(t.messages, r), item);
    AckLaws.ViewsDetermine(t'.messages, t.messages);
  }

  lemma NothingNamed(q: map<u64, QueueMessage>, item: AckItem)
    requires !Queued(q, item)
    ensures Named(q, {item}) == {} && q - Named(q, {item}) == q
  {
    assert Named(q, {item}) == {};
  }

  /** With a byte limit of 2^64 - 1 two pushes can make the memory store's byte total
      fall short of what is queued. The payload sizes are the store's to believe; the
      handlers only pass on lengths of payloads that they hold in memory. */
  lemma ByteTotalClips(limits: RelayLimits)
    requires limits.maxMessagesPerUser == U64_MAX && limits.maxQueueBytesPerUser == U64_MAX
    ensures var a, b := Note(ID_A, U64_MAX, 1), Note(ID_B, 1, 1);
            var e1 := MemStore.Inserted(MemStore.FRESH, a); var e2 := MemStore.Inserted(e1, b);
            && MemStore.EntryPush(MemStore.FRESH, a, limits, Ok(PushResult(true, false, 1, U64_MAX)), e1)
            && MemStore.EntryPush(e1, b, limits, Ok(PushResult(true, false, 2, U64_MAX)), e2)
            && MemStore.Consistent(ALICE, e1) && !MemStore.Consistent(ALICE, e2)
            && Bytes(e2.queue) == U64_MAX + 1 && e2.quotaBytes == U64_MAX
  {
    hide MemStore.Consistent;
    var a, b := Note(ID_A, U64_MAX, 1), Note(ID_B, 1, 1);
    var e1 := MemStore.Inserted(MemStore.FRESH, a);
    assert ID_A[0] == 97 && ID_B[0] == 98;
    assert InboundItem(b) !in e1.idx;
    MemStore.FreshConsistent(ALICE);
    MemStore.InsertExact(ALICE, MemStore.FRESH, a);
    MemStore.InsertExact(ALICE, e1, b);
    BytesInsert(map[], 0, Stored(a, 0));
    BytesInsert(e1.queue, 1, Stored(b, 1));
  }

  /** After two pushes, the second with the earlier deadline, the memory store's purge
      stops at the live message. Until that expires too, no tick of the collector
      removes the expired one behind it. */
  lemma {:induction false} EarlyStopMisses(a: Uuid, b: Uuid, live: u64, due: u64, states: seq<Gc.MemState>, ticks: seq<u64>, counts: seq<nat>)
    requires a != b && Gc.MemRun(states, ticks, counts) && states[0] == map[ALICE := Hiding(a, b, live, due)]
    requires forall t :: t in ticks ==> due <= t < live
    ensures MemStore.AllConsistent(states[0])
    ensures states[|ticks|] == states[0] && Gc.Sum(counts) == 0
    ensures forall now: u64 :: due <= now < live ==> MemPurge.ExpiredPairs(states[|ticks|], now) == {(ALICE, 1)}
  {
    hide MemStore.Consistent, MemStore.Inserted, MemStore.Purges, MemPurge.ExpiredPairs;
    TwoNotes(a, b, live, due);
    if |ticks| == 0 {
      forall now: u64 | due <= now < live ensures MemPurge.ExpiredPairs(states[0], now) == {(ALICE, 1)} { OneHidden(a, b, live, due, now); }
    } else {
      var n := |ticks| - 1;
      assert forall t :: t in ticks[..n] ==> t in ticks;
      EarlyStopMisses(a, b, live, due, states[..n + 1], ticks[..n], counts[..n]);
      assert ticks[n] in ticks;
      NothingRemoved(a, b, live, due, ticks[n], counts[n], states[n + 1]);
    }
  }

  /** What two pushes leave in a fresh entry, the first live until `live`, the second until `due`. */
  ghost function Hiding(a: Uuid, b: Uuid, live: u64, due: u64): MemStore.RecipientState {
    MemStore.Inserted(MemStore.Inserted(MemStore.FRESH, Note(a, 0, live)), Note(b, 0, due))
  }

  lemma OneHidden(a: Uuid, b: Uuid, live: u64, due: u64, now: u64)
    requires a != b && due <= now < live
    ensures MemPurge.ExpiredPairs(map[ALICE := Hiding(a, b, live, due)], now) == {(ALICE, 1)}
  {
    hide MemStore.Consistent, MemStore.Inserted, Hiding;
    TwoNotes(a, b, live, due);
    var state := map[ALICE := Hiding(a, b, live, due)];
    assert forall p :: p in MemPurge.ExpiredPairs(state, now) <==> p == (ALICE, 1);
  }

  lemma NothingRemoved(a: Uuid, b: Uuid, live: u64, due: u64, now: u64, removed: nat, state': Gc.MemState)
    requires a != b && due <= now < live && MemStore.Purges(map[ALICE := Hiding(a, b, live, due)], now, Gc.BATCH, removed, state')
    ensures removed == 0 && state' == map[ALICE := Hiding(a, b, live, due)]
  {
    hide MemStore.Consistent, MemStore.Plan, MemStore.Recipients, MemStore.Inserted, MemStore.Leading, InOrder, Hiding, MemStore.Purges;
    var e, state := Hiding(a, b, live, due), map[ALICE := Hiding(a, b, live, due)];
    TwoNotes(a, b, live, due);
    LeadingNothing(e.queue, now);
    NothingPlanned(state, now);
    PlanNothing(state, now, removed, state');
    assert ALICE in state && ALICE in state';
    AckLaws.EntryDetermined(ALICE, state'[ALICE], e);
    assert state'.Keys == {ALICE};
  }

  lemma PlanNothing(state: Gc.MemState, now: u64, removed: nat, state': Gc.MemState)
    requires MemStore.Purges(state, now, Gc.BATCH, removed, state')
    requires MemStore.Plan(state, MemStore.Recipients(state), now) == []
    ensures removed == 0 && state'.Keys == state.Keys && MemStore.AllConsistent(state')
    ensures forall r :: r in state ==> MemStore.LogOf(state'[r]) == MemStore.LogOf(state[r])
  {
    hide MemStore.Consistent, MemStore.Plan, MemStore.Recipients;
    forall r | r in state ensures state[r].queue - MemStore.Mine([], r) == state[r].queue {
      assert MemStore.Mine([], r) == {};
    }
  }

  lemma LeadingNothing(q: map<u64, QueueMessage>, now: u64)
    requires q.Keys == {0, 1} && !Expired(q[0], now)
    ensures MemStore.Leading(q, InOrder(q.Keys), now) == []
  {
    Ordering.SortedUnique<u64>(InOrder(q.Keys), [0, 1], U64Lt);
  }

  lemma NothingPlanned(state: map<Text, MemStore.RecipientState>, now: u64)
    requires forall r :: r in state ==> MemStore.Leading(state[r].queue, InOrder(state[r].queue.Keys), now) == []
    ensures MemStore.Plan(state, MemStore.Recipients(state), now) == []
  {
    hide MemStore.Recipients, MemStore.Plan, MemStore.Leading, InOrder;
    var rs := MemStore.Recipients(state);
    var plan := MemStore.Plan(state, rs, now);
    if plan != [] { MemStore.PlanMembers(state, rs, now, plan[0]); }
  }

  lemma TwoNotes(a: Uuid, b: Uuid, live: u64, due: u64)
    requires a != b
    ensures var e := Hiding(a, b, live, due);
            && MemStore.Consistent(ALICE, e) && e.seqNo == 2
            && e.queue == map[0 := Stored(Note(a, 0, live), 0), 1 := Stored(Note(b, 0, due), 1)]
  {
    hide MemStore.Consistent;
    var first, second := Note(a, 0, live), Note(b, 0, due);
    var e1 := MemStore.Inserted(MemStore.FRESH, first);
    assert InboundItem(second) !in e1.idx;
    MemStore.FreshConsistent(ALICE);
    MemStore.InsertExact(ALICE, MemStore.FRESH, first);
    NothingQueued();
    MemStore.InsertExact(ALICE, e1, second);
  }

  lemma NothingQueued()
    ensures MemStore.FRESH.quotaBytes == 0 && Bytes(map[]) == 0
  {
  }

  /** A pull for `r` also returns a live message pushed for a recipient `r:n`, for
      any number n: its key has the prefix, and a number in the place that is parsed. */
  lemma ScanMeetsExtension(r: Text, n: u64, msg: InboundMessage, t: Trees, limit: u64, now: u64)
    requires COLON !in r && msg.recipient == r + [COLON] + Padded(n, 20)
    requires t == SledStore.Written(NO_TREES, msg) && limit > 0 && !Expired(Stored(msg, 0), now)
    ensures SledScan.PullOf(t, r, None, limit, now) == Ok(PullBatch([Stored(msg, 0)], None, 0)) && msg.recipient != r
  {
    hide KeyOf, MessageKey, MessagePrefix, ParseSeqFromKey, Padded, QuotaOf, QuotaKey, IdxKey, SeqKey, EncodeU64;
    var m := Stored(msg, 0);
    NothingStored(msg.recipient);
    var k := KeyOf(m);
    ExtensionKey(r, n, m);
    assert t.messages == map[k := m];
    var keys := SledScan.ScanKeys(t.messages, r);
    OnlyOne(keys, k);
    NoQuota(r);
    var quota := QuotaOf(NO_TREES.quota, msg.recipient);
    QuotaWrite(NO_TREES.quota, msg.recipient,
               SledTrees.QuotaValue(SatAdd(quota.bytes, msg.payloadBytes), SatAdd(quota.count, 1)), r);
    assert keys[1..] == [];
    OnePage(t.messages, k, m, n, EffectiveLimit(limit), now);
  }

  /** And one push for a recipient `r:x`, where x does not begin with a number, makes
      every pull for `r` fail, with any page size, at any time, expired or not. */
  lemma ScanFailsOnExtension(r: Text, x: Text, msg: InboundMessage, t: Trees, cursor: Option<Cursor>, limit: u64, now: u64)
    requires COLON !in r && msg.recipient == r + [COLON] + x && ParseU64(x[..FirstColon(x)]) == None
    requires t == SledStore.Written(NO_TREES, msg) && SledScan.Resume(r, cursor).Ok?
    ensures SledScan.PullOf(t, r, cursor, limit, now) == Err(Internal("invalid key"))
  {
    hide KeyOf, MessageKey, MessagePrefix, ParseSeqFromKey, QuotaOf, QuotaKey, IdxKey, SeqKey, EncodeU64, SledScan.Resume, ParseU64;
    var m := Stored(msg, 0);
    NothingStored(msg.recipient);
    var k := KeyOf(m);
    BadExtensionKey(r, x, m);
    assert t.messages == map[k := m];
    var keys := SledScan.ScanKeys(t.messages, r);
    OnlyOne(keys, k);
  }

  lemma BadExtensionKey(r: Text, x: Text, m: QueueMessage)
    requires COLON !in r && m.recipient == r + [COLON] + x && ParseU64(x[..FirstColon(x)]) == None
    ensures HasPrefix(KeyOf(m), MessagePrefix(r)) && ParseSeqFromKey(KeyOf(m)) == Err(Internal("invalid key"))
  {
    hide MessageKey, MessagePrefix, ParseSeqFromKey, MessageSuffix, ParseU64;
    PrefixScan(r, m.recipient, m.arrivalSeq, m.messageId, m.meta.chunkIndex);
    assert r + [COLON] <= m.recipient;
    WrongField(r, x, m);
  }

  lemma WrongField(r: Text, x: Text, m: QueueMessage)
    requires COLON !in r && m.recipient == r + [COLON] + x && ParseU64(x[..FirstColon(x)]) == None
    ensures ParseSeqFromKey(KeyOf(m)) == Err(Internal("invalid key"))
  {
    hide ParseSeqFromKey, MessageSuffix, ParseU64, FirstColon;
    var tail := MessageSuffix(m.arrivalSeq, m.messageId, m.meta.chunkIndex);
    FirstColonIs(r, x);
    assert m.recipient[|r| + 1..] == x && m.recipient[|r|] == COLON;
    assert KeyOf(m) == MSG + [COLON] + (m.recipient + [COLON] + tail);
    ParsesInside(KeyOf(m), m.recipient, tail);
  }

  lemma OnePage(ms: map<Text, QueueMessage>, k: Text, m: QueueMessage, n: u64, room: nat, now: u64)
    requires ms == map[k := m] && ParseSeqFromKey(k) == Ok(Some(n)) && room > 0 && !Expired(m, now)
    ensures SledScan.Scan(ms, [k], None, room, now) == Ok(SledScan.Page([m], false))
  {
    hide ParseSeqFromKey;
    assert [k][0] == k && [k][1..] == [] && [m] + [] == [m] && ms[k] == m;
    assert SledScan.Scan(ms, [], None, room - 1, now) == Ok(SledScan.Page([], false));
  }

  lemma NothingStored(r: Text)
    ensures NextSeq(NO_TREES.seqs, r) == 0
  {
  }

  lemma OnlyOne(keys: seq<Text>, k: Text)
    requires Ordering.Sorted(keys, TextLt) && k in keys && forall j :: j in keys ==> j == k
    ensures keys == [k]
  {
    if |keys| > 1 {
      assert keys[0] in keys && keys[1] in keys && TextLt(keys[0], keys[1]);
      Irreflexive(k);
      assert false;
    }
  }

  lemma ExtensionKey(r: Text, n: u64, m: QueueMessage)
    requires COLON !in r && m.recipient == r + [COLON] + Padded(n, 20)
    ensures HasPrefix(KeyOf(m), MessagePrefix(r)) && ParseSeqFromKey(KeyOf(m)) == Ok(Some(n))
  {
    hide MessageKey, MessagePrefix, ParseSeqFromKey, MessageSuffix, Padded;
    PrefixScan(r, m.recipient, m.arrivalSeq, m.messageId, m.meta.chunkIndex);
    assert r + [COLON] <= m.recipient;
    SecondField(r, n, m);
  }

  lemma SecondField(r: Text, n: u64, m: QueueMessage)
    requires COLON !in r && m.recipient == r + [COLON] + Padded(n, 20)
    ensures ParseSeqFromKey(KeyOf(m)) == Ok(Some(n))
  {
    hide ParseSeqFromKey, MessageSuffix, Padded;
    var tail := MessageSuffix(m.arrivalSeq, m.messageId, m.meta.chunkIndex);
    var digits := Padded(n, 20);
    Padded20(n);
    assert KeyOf(m) == MSG + [COLON] + (r + [COLON] + (digits + [COLON] + tail));
    ParsesThirdField(KeyOf(m), r, digits, tail);
  }

  /** The limiter reads the clock before it takes the lock. When two clients' turns keep
      overtaking each other, a bucket earns the same second again and again: here five
      requests pass within one second, where burst and rate allow four. */
  lemma LateClockOvershoots(cfg: RateLimitConfig, ip: Text)
    requires cfg.burst == 3 && cfg.perIpRps == 1
    ensures var cs := Overtaking(RateKey(ip, Global));
            && (forall i :: 0 <= i < 5 ==> RateWindows.Passed(cfg, cs, i) && 9.0 <= cs[i].at <= 10.0)
            && 5.0 > cfg.burst as real + cfg.perIpRps as real * (10.0 - 9.0)
  {
    hide RateWindows.Replay, RateWindows.Passed, Touch;
    var k := RateKey(ip, Global);
    var cs := Overtaking(k);
    Turn(cfg, cs, k, 0, Fresh(1.0, 3.0, 10.0), 2.0);
    Turn(cfg, cs, k, 1, Bucket(2.0, 10.0, 3.0, 1.0, None), 1.0);
    Turn(cfg, cs, k, 2, Bucket(1.0, 9.0, 3.0, 1.0, None), 1.0);
    Turn(cfg, cs, k, 3, Bucket(1.0, 10.0, 3.0, 1.0, None), 0.0);
    Turn(cfg, cs, k, 4, Bucket(0.0, 9.0, 3.0, 1.0, None), 0.0);
  }

  function Overtaking(k: RateKey): seq<RateWindows.Charge> {
    [RateWindows.Charge(k, 10.0), RateWindows.Charge(k, 9.0), RateWindows.Charge(k, 10.0), RateWindows.Charge(k, 9.0),
     RateWindows.Charge(k, 10.0)]
  }

  lemma Turn(cfg: RateLimitConfig, cs: seq<RateWindows.Charge>, k: RateKey, i: nat, b: Bucket, left: real)
    requires cfg.burst == 3 && cfg.perIpRps == 1 && k.name == Global && i < |cs| && cs[i].key == k
    requires if i == 0 then b == Fresh(1.0, 3.0, cs[0].at)
             else k in RateWindows.Replay(cfg, cs[..i]) && RateWindows.Replay(cfg, cs[..i])[k] == b
    requires b.burst == 3.0 && b.rate == 1.0 && b.banUntil == None && left >= 0.0
    requires Avail(b, cs[i].at) == left + 1.0
    ensures RateWindows.Passed(cfg, cs, i)
    ensures k in RateWindows.Replay(cfg, cs[..i + 1])
    ensures RateWindows.Replay(cfg, cs[..i + 1])[k] == Bucket(left, cs[i].at, 3.0, 1.0, None)
  {
    RateWindows.ReplayStep(cfg, cs, i);
  }

  /** A push between a purge's reading and writing of its recipient's quota: the purge
      overwrites the record, exact before, and leaves it one short. */
  lemma HeldPushUndercounts(s0: SledInterleave.Mid, k: Text, now: u64, s1: SledInterleave.Mid, op: Histories.Op, s2: SledInterleave.Mid, s3: SledInterleave.Mid)
    requires Exact(s0.trees) && s0.quotas == map[] && SledInterleave.Acts(s0, SledInterleave.Round(k, now), s1)
    requires Safe(s1.trees) && SledInterleave.Acts(s1, SledInterleave.Call(op), s2) && Safe(s2.trees)
    requires op.PushOp? && op.pushed.Ok? && op.pushed.value.stored && op.msg.recipient == s0.trees.messages[k].recipient
    requires SledInterleave.Acts(s2, SledInterleave.Write(op.msg.recipient), s3)
    ensures WellKeyed(s3.trees.messages) && Excess(s3.trees, op.msg.recipient).0 == -1 && !Safe(s3.trees)
  {
    hide View, WellKeyed, Bytes, Indexed, Numbered, Excess, Orphans, SledInterleave.Acts, SledStore.Pushes;
    var r := op.msg.recipient;
    SledInterleave.CallInTheGap(s0, k, now, s1, op, s2, r, s3);
    assert Excess(s0.trees, r) == (0, 0);
    OneMore(s1, op, s2);
    assert !Covers(s3.trees, r);
  }

  lemma OneMore(s1: SledInterleave.Mid, op: Histories.Op, s2: SledInterleave.Mid)
    requires Safe(s1.trees) && SledInterleave.Acts(s1, SledInterleave.Call(op), s2) && Safe(s2.trees)
    requires op.PushOp? && op.pushed.Ok? && op.pushed.value.stored
    ensures |View(s2.trees.messages, op.msg.recipient)| == |View(s1.trees.messages, op.msg.recipient)| + 1
  {
    hide View, WellKeyed, Indexed, Numbered, Covers, SledStore.Pushes;
    StoredOne(s1.trees, op.msg, op.limits, op.pushed, s2.trees);
  }

  lemma StoredOne(t: Trees, msg: InboundMessage, limits: RelayLimits, res: Result<PushResult>, t': Trees)
    requires Safe(t) && SledStore.Pushes(t, msg, limits, res, t') && res.Ok? && res.value.stored
    ensures WellKeyed(t'.messages) && |View(t'.messages, msg.recipient)| == |View(t.messages, msg.recipient)| + 1
  {
    hide View, KeyOf, WellKeyed, Bytes, Covers, Excess, Orphans, QuotaOf, SledStore.Fits, Clips, Step, Exact, IdxKey, SledStore.Room, NextSeq;
    var l := ViewLog(t, msg.recipient);
    ViewWellFormed(t, msg.recipient);
    assert l.next !in l.q;
    BytesInsert(l.q, l.next, Stored(msg, l.next));
  }
}
