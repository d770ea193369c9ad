/** The in-memory store (src/store_mem.rs). */
module MemStore {
  import opened Machine
  import opened Ordering
  import opened Text
  import opened Decimal
  import opened Cursor
  import opened Messages
  import opened Queue

  const GC_BATCH_LIMIT: nat := 1024

  datatype RecipientState = RecipientState(
    seqNo: u64, queue: map<u64, QueueMessage>, idx: map<AckItem, u64>, quotaBytes: u64, quotaCount: u64)

  const FRESH := RecipientState(0, map[], map[], 0, 0)

  function LogOf(e: RecipientState): Log {
    Log(e.seqNo, e.queue)
  }

  /** The index and the queue are inverse to each other, and the running totals are exact. */
  ghost predicate Consistent(r: Text, e: RecipientState) {
    && WellFormed(r, LogOf(e))
    && e.quotaCount == |e.queue|
    && e.quotaBytes == Bytes(e.queue)
    && (forall k :: k in e.idx ==> e.idx[k] in e.queue && ItemOf(e.queue[e.idx[k]]) == k)
    && (forall s :: s in e.queue ==> ItemOf(e.queue[s]) in e.idx && e.idx[ItemOf(e.queue[s])] == s)
  }

  lemma FreshConsistent(r: Text)
    ensures Consistent(r, FRESH)
  {
  }

  /** The entry after one message has been taken out of queue, index and totals. */
  function Deleted(e: RecipientState, s: u64): RecipientState
    requires s in e.queue
  {
    var m := e.queue[s];
    RecipientState(e.seqNo, e.queue - {s}, e.idx - {ItemOf(m)},
                   SatSub(e.quotaBytes, m.payloadBytes), SatSub(e.quotaCount, 1))
  }

  lemma DeletedIs(e: RecipientState, s: u64, e': RecipientState)
    requires s in e.queue && e'.seqNo == e.seqNo && e'.queue == e.queue - {s}
    requires e'.idx == e.idx - {ItemOf(e.queue[s])}
    requires e'.quotaCount == SatSub(e.quotaCount, 1)
    requires e'.quotaBytes == SatSub(e.quotaBytes, e.queue[s].payloadBytes)
    ensures e' == Deleted(e, s)
  {
  }

  /** Taking one message out keeps the entry consistent, and neither subtraction saturates. */
  lemma Remove(r: Text, e: RecipientState, s: u64)
    requires Consistent(r, e) && s in e.queue
    ensures e.quotaCount >= 1 && e.quotaBytes >= e.queue[s].payloadBytes
    ensures Consistent(r, Deleted(e, s))
  {
    RemoveOne(e.queue, s);
  }

  lemma IndexMeansQueued(r: Text, e: RecipientState, item: AckItem)
    requires Consistent(r, e)
    ensures item in e.idx <==> Queued(e.queue, item)
  {
  }

  // ---- push ----

  function Inserted(e: RecipientState, msg: InboundMessage): RecipientState {
    e.(seqNo := SatAdd(e.seqNo, 1),
       queue := e.queue[e.seqNo := Stored(msg, e.seqNo)],
       idx := e.idx[InboundItem(msg) := e.seqNo],
       quotaCount := SatAdd(e.quotaCount, 1),
       quotaBytes := SatAdd(e.quotaBytes, msg.payloadBytes))
  }

  /** Storing keeps the entry consistent exactly when neither the arrival counter
      nor the byte total saturates. */
  lemma InsertExact(r: Text, e: RecipientState, msg: InboundMessage)
    requires Consistent(r, e) && msg.recipient == r && InboundItem(msg) !in e.idx
    ensures Consistent(r, Inserted(e, msg)) <==>
            e.seqNo < U64_MAX && e.quotaBytes + msg.payloadBytes <= U64_MAX
  {
    assert e.seqNo !in e.queue;
    BytesInsert(e.queue, e.seqNo, Stored(msg, e.seqNo));
    CountBound(r, LogOf(e));
    if e.seqNo < U64_MAX {
      InsertIndexed(r, e, msg);
    } else {
      assert e.seqNo in Inserted(e, msg).queue;
    }
  }

  lemma InsertIndexed(r: Text, e: RecipientState, msg: InboundMessage)
    requires Consistent(r, e) && msg.recipient == r && InboundItem(msg) !in e.idx && e.seqNo < U64_MAX
    ensures var e' := Inserted(e, msg);
            && (forall k :: k in e'.idx ==> e'.idx[k] in e'.queue && ItemOf(e'.queue[e'.idx[k]]) == k)
            && (forall s :: s in e'.queue ==> ItemOf(e'.queue[s]) in e'.idx && e'.idx[ItemOf(e'.queue[s])] == s)
            && WellFormed(r, LogOf(e'))
  {
    assert e.seqNo !in e.queue;
  }

  ghost predicate EntryPush(e: RecipientState, msg: InboundMessage, limits: RelayLimits,
                            res: Result<PushResult>, e': RecipientState) {
    var full := Inserted(e, msg);
    if InboundItem(msg) in e.idx then
      res == Ok(PushResult(false, true, e.quotaCount, e.quotaBytes)) && e' == e
    else if full.quotaCount > limits.maxMessagesPerUser || full.quotaBytes > limits.maxQueueBytesPerUser then
      res == Err(QuotaExceeded) && e' == e
    else
      res == Ok(PushResult(true, false, full.quotaCount, full.quotaBytes)) && e' == full
  }

  lemma PushRefines(r: Text, e: RecipientState, msg: InboundMessage, limits: RelayLimits,
                    res: Result<PushResult>, e': RecipientState)
    requires Consistent(r, e) && msg.recipient == r && EntryPush(e, msg, limits, res, e')
    ensures Consistent(r, e') <==> !Clips(LogOf(e), msg, limits)
    ensures Consistent(r, e') ==> IsPush(LogOf(e), msg, limits, res, LogOf(e'))
    ensures !Consistent(r, e') ==>
              res.Ok? && res.value.stored && e'.queue == e.queue[e.seqNo := Stored(msg, e.seqNo)]
    ensures res.Ok? && res.value.stored ==> e.seqNo in e'.queue && Copies(e'.queue[e.seqNo], msg, e.seqNo)
  {
    hide WellFormed, Bytes, Queued;
    IndexMeansQueued(r, e, InboundItem(msg));
    if InboundItem(msg) !in e.idx {
      CountBound(r, LogOf(e));
      InsertExact(r, e, msg);
    }
  }

  // ---- the whole store ----

  ghost predicate AllConsistent(state: map<Text, RecipientState>) {
    forall r :: r in state ==> Consistent(r, state[r])
  }

  function Entry(state: map<Text, RecipientState>, r: Text): RecipientState {
    if r in state then state[r] else FRESH
  }

  lemma Overwrite(state: map<Text, RecipientState>, r: Text, a: RecipientState, b: RecipientState)
    ensures state[r := a][r := b] == state[r := b]
  {
  }

  ghost predicate OnlyChanges(state: map<Text, RecipientState>, state': map<Text, RecipientState>, r: Text) {
    && state.Keys <= state'.Keys <= state.Keys + {r}
    && forall r' :: r' in state && r' != r ==> state'[r'] == state[r']
  }

  /** What a push does to the store. When a saturating addition clips, the message
      is stored all the same and the totals no longer agree. */
  ghost predicate Pushes(state: map<Text, RecipientState>, msg: InboundMessage, limits: RelayLimits,
                         res: Result<PushResult>, state': map<Text, RecipientState>) {
    var r := msg.recipient;
    var l := LogOf(Entry(state, r));
    && OnlyChanges(state, state', r) && r in state'
    && (AllConsistent(state') <==> !Clips(l, msg, limits))
    && (AllConsistent(state') ==> Step(r, l, Event.Push(msg, limits, res), LogOf(state'[r])))
    && (res.Ok? && res.value.stored ==> l.next in state'[r].queue && Copies(state'[r].queue[l.next], msg, l.next))
    && (!AllConsistent(state') ==>
          res.Ok? && res.value.stored && state'[r].queue == l.q[l.next := Stored(msg, l.next)])
  }

  lemma PushLifts(state: map<Text, RecipientState>, msg: InboundMessage, limits: RelayLimits,
                  res: Result<PushResult>, e': RecipientState)
    requires AllConsistent(state) && EntryPush(Entry(state, msg.recipient), msg, limits, res, e')
    ensures Pushes(state, msg, limits, res, state[msg.recipient := e'])
  {
    hide Consistent, IsPush, Clips, EntryPush, Copies;
    var r := msg.recipient;
    FreshConsistent(r);
    PushRefines(r, Entry(state, r), msg, limits, res, e');
    var state' := state[r := e'];
    if Consistent(r, e') {
      assert AllConsistent(state');
    } else {
      assert r in state' && !Consistent(r, state'[r]);
    }
  }

  // ---- pull: which expired messages the scan evicts ----

  /** The scan stops at the first live message that does not fit the page; the
      expired messages it passed before that are evicted. */
  function Evicted(q: map<u64, QueueMessage>, from: nat, limit: u64, now: u64): set<u64> {
    var live := InOrder(LiveKeys(q, from, now));
    var n := EffectiveLimit(limit);
    set s | s in q && from <= s && Expired(q[s], now) && (|live| <= n || s < live[n])
  }

  // ---- purge: what is removed, in order ----

  /** The leading expired keys: the purge stops at the first live message. */
  function Leading(q: map<u64, QueueMessage>, ks: seq<u64>, now: u64): (r: seq<u64>)
    requires forall k :: k in ks ==> k in q
    ensures r <= ks
    ensures forall k :: k in r ==> k in ks && Expired(q[k], now)
  {
    if ks == [] || !Expired(q[ks[0]], now) then []
    else
      assert ks == [ks[0]] + ks[1..];
      [ks[0]] + Leading(q, ks[1..], now)
  }

  lemma {:induction false} LeadingIs(q: map<u64, QueueMessage>, ks: seq<u64>, now: u64, n: nat)
    requires n <= |ks| && forall k :: k in ks ==> k in q
    requires forall i :: 0 <= i < n ==> Expired(q[ks[i]], now)
    ensures ks[..n] <= Leading(q, ks, now)
    ensures n == |ks| || !Expired(q[ks[n]], now) ==> Leading(q, ks, now) == ks[..n]
  {
    if n > 0 {
      var rest := ks[1..];
      assert forall i :: 0 <= i < |rest| ==> rest[i] == ks[i + 1];
      LeadingIs(q, rest, now, n - 1);
      assert ks[..n] == [ks[0]] + rest[..n - 1] && Expired(q[ks[0]], now);
      assert Leading(q, ks, now) == [ks[0]] + Leading(q, rest, now);
    }
  }

  lemma DueIs(q: map<u64, QueueMessage>, ks: seq<u64>, now: u64, n: nat, room: nat)
    requires n <= |ks| && n <= room && forall k :: k in ks ==> k in q
    requires forall i :: 0 <= i < n ==> Expired(q[ks[i]], now)
    requires n == room || n == |ks| || !Expired(q[ks[n]], now)
    ensures ks[..n] == Take(Leading(q, ks, now), room)
  {
    LeadingIs(q, ks, now, n);
  }

  lemma DueFits(e: RecipientState, now: u64, room: nat, drop: seq<u64>)
    requires drop == Take(Leading(e.queue, InOrder(e.queue.Keys), now), room)
    ensures Sorted(drop, U64Lt) && |drop| <= room && (forall k :: k in drop ==> k in e.queue)
    ensures drop == Take(LeadingOf(e, now), room)
  {
  }

  lemma SameLeading(a: RecipientState, b: RecipientState, now: u64)
    requires LogOf(a) == LogOf(b)
    ensures LeadingOf(a, now) == LeadingOf(b, now)
  {
  }

  function Tag(r: Text, ks: seq<u64>): (t: seq<(Text, u64)>)
    ensures |t| == |ks| && forall i :: 0 <= i < |ks| ==> t[i] == (r, ks[i])
  {
    seq(|ks|, i requires 0 <= i < |ks| => (r, ks[i]))
  }

  function LeadingOf(e: RecipientState, now: u64): seq<u64> {
    Leading(e.queue, InOrder(e.queue.Keys), now)
  }

  /** Everything a purge could remove, in (recipient, arrival) order. */
  function Plan(state: map<Text, RecipientState>, rs: seq<Text>, now: u64): seq<(Text, u64)>
    requires forall r :: r in rs ==> r in state
  {
    if rs == [] then []
    else
      var r := rs[|rs| - 1];
      Plan(state, rs[..|rs| - 1], now) + Tag(r, LeadingOf(state[r], now))
  }

  function Recipients(state: map<Text, RecipientState>): (rs: seq<Text>)
    ensures Sorted(rs, TextLt) && forall r :: r in rs <==> r in state
  {
    TextLtTotal();
    Ascending(state.Keys, TextLt)
  }

  function Mine(d: seq<(Text, u64)>, r: Text): set<u64> {
    set p | p in d && p.0 == r :: p.1
  }

  lemma {:induction false} PlanPrefix(state: map<Text, RecipientState>, rs: seq<Text>, now: u64, n: nat)
    requires n <= |rs| && forall r :: r in rs ==> r in state
    ensures Plan(state, rs[..n], now) <= Plan(state, rs, now)
  {
    hide LeadingOf, Tag;
    if n == |rs| {
      assert rs[..n] == rs;
    } else {
      PlanPrefix(state, rs[..|rs| - 1], now, n);
      assert rs[..|rs| - 1][..n] == rs[..n];
    }
  }

  lemma {:induction false} PlanMembers(state: map<Text, RecipientState>, rs: seq<Text>, now: u64, p: (Text, u64))
    requires forall r :: r in rs ==> r in state
    ensures p in Plan(state, rs, now) <==> p.0 in rs && p.1 in LeadingOf(state[p.0], now)
  {
    hide LeadingOf;
    if rs != [] {
      var r, init := rs[|rs| - 1], rs[..|rs| - 1];
      assert rs == init + [r];
      PlanMembers(state, init, now, p);
      var tail := Tag(r, LeadingOf(state[r], now));
      if p.0 == r && p.1 in LeadingOf(state[r], now) {
        var i :| 0 <= i < |LeadingOf(state[r], now)| && LeadingOf(state[r], now)[i] == p.1;
        assert tail[i] == p;
      }
    }
  }

  // ---- removing several messages from one entry ----

  /** `e'` is `e` without the messages numbered in `gone`, still consistent. */
  ghost predicate Without(r: Text, e: RecipientState, gone: set<u64>, e': RecipientState) {
    Consistent(r, e') && LogOf(e') == Log(e.seqNo, e.queue - gone)
  }

  lemma WithoutOneMore(r: Text, e: RecipientState, gone: set<u64>, e': RecipientState, s: u64)
    requires Without(r, e, gone, e') && s in e'.queue
    ensures Without(r, e, gone + {s}, Deleted(e', s))
  {
    hide Consistent;
    Remove(r, e', s);
    assert e.queue - gone - {s} == e.queue - (gone + {s});
  }

  lemma WithoutNone(r: Text, e: RecipientState)
    requires Consistent(r, e)
    ensures Without(r, e, {}, e)
  {
    assert e.queue - {} == e.queue;
  }

  lemma WithoutSame(r: Text, a: RecipientState, b: RecipientState, gone: set<u64>, e': RecipientState)
    requires Without(r, b, gone, e') && LogOf(a) == LogOf(b)
    ensures Without(r, a, gone, e')
  {
  }

  lemma WithoutAbsent(r: Text, e: RecipientState, gone: set<u64>, e': RecipientState, s: u64)
    requires Without(r, e, gone, e') && s !in e'.queue
    ensures Without(r, e, gone + {s}, e')
  {
    assert e.queue - (gone + {s}) == e.queue - gone;
  }

  lemma EntryLifts(state: map<Text, RecipientState>, r: Text, e': RecipientState)
    requires AllConsistent(state) && r in state && Consistent(r, e')
    ensures AllConsistent(state[r := e']) && OnlyChanges(state, state[r := e'], r)
  {
  }

  // ---- pull ----

  /** The keys of `queue.range((Excluded(seq), Unbounded))`. */
  function KeysFrom(q: map<u64, QueueMessage>, from: nat): set<u64> {
    set s | s in q && from <= s
  }

  ghost predicate Pulls(state: map<Text, RecipientState>, r: Text, cursor: Option<Cursor>, limit: u64, now: u64,
                        res: Result<PullBatch>, state': map<Text, RecipientState>) {
    && OnlyChanges(state, state', r) && state'.Keys == state.Keys
    && AllConsistent(state')
    && (r !in state ==> res == Ok(PullBatch([], None, 0)))
    && (r in state ==> IsPull(r, LogOf(state[r]), cursor, limit, now, res, LogOf(state'[r])))
    && (r in state && res.Ok? ==>
        state'[r].queue == state[r].queue - Evicted(state[r].queue, Start(r, cursor).value, limit, now))
  }

  /** The scan loop has passed the first `n` of `ks`. */
  ghost predicate Scanned(q: map<u64, QueueMessage>, ks: seq<u64>, n: nat, now: u64,
                          collected: seq<QueueMessage>, expired: seq<u64>) {
    && n <= |ks| && (forall k :: k in ks ==> k in q)
    && collected == Items(q, LiveOf(q, ks[..n], now))
    && (forall k :: k in expired <==> k in ks[..n] && Expired(q[k], now))
  }

  /** The loop stopped there: at the end, or at a live message that does not fit. */
  predicate Stopped(q: map<u64, QueueMessage>, ks: seq<u64>, n: nat, now: u64, size: nat, limit: nat, more: bool)
    requires n <= |ks| && forall k :: k in ks ==> k in q
  {
    size <= limit && if more then n < |ks| && !Expired(q[ks[n]], now) && size == limit else n == |ks|
  }

  lemma ScanItems(q: map<u64, QueueMessage>, ks: seq<u64>, n: nat, now: u64,
                  collected: seq<QueueMessage>, expired: seq<u64>)
    requires Scanned(q, ks, n, now, collected, expired)
    ensures collected == Items(q, LiveOf(q, ks[..n], now))
  {
  }

  lemma ScanStart(q: map<u64, QueueMessage>, ks: seq<u64>, now: u64)
    requires forall k :: k in ks ==> k in q
    ensures Scanned(q, ks, 0, now, [], [])
  {
    assert ks[..0] == [];
  }

  lemma ScanAdvance(q: map<u64, QueueMessage>, ks: seq<u64>, n: nat, now: u64,
                    collected: seq<QueueMessage>, expired: seq<u64>)
    requires Scanned(q, ks, n, now, collected, expired) && n < |ks|
    ensures ks[n] in q
    ensures if Expired(q[ks[n]], now) then Scanned(q, ks, n + 1, now, collected, expired + [ks[n]])
            else Scanned(q, ks, n + 1, now, collected + [q[ks[n]]], expired)
  {
    assert ks[n] in ks;
    LiveOfStep(q, ks, n, now);
  }

  lemma BelowIsBefore(ks: seq<u64>, n: nat, k: u64)
    requires Sorted(ks, U64Lt) && n < |ks| && k in ks
    ensures k < ks[n] <==> k in ks[..n]
  {
    var i :| 0 <= i < |ks| && ks[i] == k;
    if i < n {
      assert ks[..n][i] == k && U64Lt(ks[i], ks[n]);
    } else {
      assert i == n || U64Lt(ks[n], ks[i]);
      assert forall j :: 0 <= j < n ==> ks[..n][j] == ks[j] && U64Lt(ks[j], ks[n]);
    }
  }

  /** The live message at which the scan stops is the first one off the page. */
  lemma StopKey(q: map<u64, QueueMessage>, ks: seq<u64>, from: nat, n: nat, now: u64)
    requires n < |ks| && Sorted(ks, U64Lt) && forall k :: k in ks <==> k in q && from <= k
    requires !Expired(q[ks[n]], now)
    ensures var live := InOrder(LiveKeys(q, from, now)); var m := |LiveOf(q, ks[..n], now)|;
            m < |live| && live[m] == ks[n] && LiveOf(q, ks[..n], now) == live[..m]
  {
    hide LiveOf, InOrder, LiveKeys;
    LiveOfScan(q, ks, from, now);
    LiveOfPrefix(q, ks, now, n + 1);
    LiveOfStep(q, ks, n, now);
  }

  lemma ScanPage(q: map<u64, QueueMessage>, ks: seq<u64>, from: nat, n: nat, limit: u64, now: u64,
                 collected: seq<QueueMessage>, expired: seq<u64>, more: bool)
    requires Sorted(ks, U64Lt) && (forall k :: k in ks <==> k in q && from <= k)
    requires Scanned(q, ks, n, now, collected, expired) && Stopped(q, ks, n, now, |collected|, EffectiveLimit(limit), more)
    ensures LiveOf(q, ks[..n], now) == PageKeys(q, from, limit, now)
    ensures more <==> |collected| < |LiveKeys(q, from, now)|
  {
    if more {
      StopKey(q, ks, from, n, now);
    } else {
      LiveOfScan(q, ks, from, now);
      assert ks[..n] == ks;
    }
  }

  lemma ScanEvicts(q: map<u64, QueueMessage>, ks: seq<u64>, from: nat, n: nat, limit: u64, now: u64,
                   collected: seq<QueueMessage>, expired: seq<u64>, more: bool)
    requires Sorted(ks, U64Lt) && (forall k :: k in ks <==> k in q && from <= k)
    requires Scanned(q, ks, n, now, collected, expired) && Stopped(q, ks, n, now, |collected|, EffectiveLimit(limit), more)
    ensures Elements(expired) == Evicted(q, from, limit, now)
  {
    hide LiveOf, InOrder, LiveKeys, Items;
    var live, size := InOrder(LiveKeys(q, from, now)), EffectiveLimit(limit);
    if more {
      StopKey(q, ks, from, n, now);
      assert size < |live| && live[size] == ks[n];
      forall k | k in ks ensures k < ks[n] <==> k in ks[..n] { BelowIsBefore(ks, n, k); }
      assert forall k :: k in Evicted(q, from, limit, now) <==> k in ks && Expired(q[k], now) && k < ks[n];
    } else {
      LiveOfScan(q, ks, from, now);
      assert ks[..n] == ks && |live| <= size;
      assert forall k :: k in Evicted(q, from, limit, now) <==> k in ks && Expired(q[k], now);
    }
  }

  /** The batch the pull returns from a scan that ended with `items` and `more`. */
  function Batch(items: seq<QueueMessage>, more: bool, count: u64): PullBatch
    requires |items| <= U64_MAX
  {
    var nextCursor := if more && items != [] then
        Some(EncodeCursor(items[|items| - 1].recipient, items[|items| - 1].arrivalSeq)) else None;
    PullBatch(items, nextCursor, SatSub(count, |items|))
  }

  lemma BatchCursor(r: Text, e: RecipientState, from: nat, limit: u64, now: u64, more: bool, count: u64)
    requires WellFormed(r, LogOf(e))
    requires more <==> |PageKeys(e.queue, from, limit, now)| < |LiveKeys(e.queue, from, now)|
    ensures Batch(Items(e.queue, PageKeys(e.queue, from, limit, now)), more, count).nextCursor ==
            NextCursor(r, e.queue, from, limit, now)
  {
    var page := PageKeys(e.queue, from, limit, now);
    if page != [] { assert page[|page| - 1] in page; }
  }

  lemma EvictionDrops(r: Text, e: RecipientState, from: nat, limit: u64, now: u64, e': RecipientState)
    requires Without(r, e, Evicted(e.queue, from, limit, now), e')
    ensures Drops(LogOf(e), LogOf(e'), now)
    ensures |PageKeys(e.queue, from, limit, now)| <= e'.quotaCount == |e'.queue|
  {
    hide WellFormed, Bytes, InOrder;
    assert LiveKeys(e'.queue, from, now) == LiveKeys(e.queue, from, now);
    LiveBound(e'.queue, from, now);
  }

  lemma BatchIsPage(r: Text, e: RecipientState, from: nat, limit: u64, now: u64, more: bool, e': RecipientState)
    requires Consistent(r, e) && Without(r, e, Evicted(e.queue, from, limit, now), e')
    requires more <==> |PageKeys(e.queue, from, limit, now)| < |LiveKeys(e.queue, from, now)|
    ensures IsPage(r, LogOf(e), from, limit, now,
                   Batch(Items(e.queue, PageKeys(e.queue, from, limit, now)), more, e'.quotaCount), LogOf(e'))
  {
    BatchCursor(r, e, from, limit, now, more, e'.quotaCount);
    EvictionDrops(r, e, from, limit, now, e');
  }

  lemma PullLifts(state: map<Text, RecipientState>, r: Text, cursor: Option<Cursor>, from: nat, limit: u64, now: u64,
                  batch: PullBatch, e': RecipientState)
    requires AllConsistent(state) && r in state && Start(r, cursor) == Ok(from)
    requires Without(r, state[r], Evicted(state[r].queue, from, limit, now), e')
    requires IsPull(r, LogOf(state[r]), cursor, limit, now, Ok(batch), LogOf(e'))
    ensures Pulls(state, r, cursor, limit, now, Ok(batch), state[r := e'])
  {
    EntryLifts(state, r, e');
  }

  lemma PullsStep(state: map<Text, RecipientState>, r: Text, cursor: Option<Cursor>, limit: u64, now: u64,
                  res: Result<PullBatch>, state': map<Text, RecipientState>)
    requires Pulls(state, r, cursor, limit, now, res, state')
    ensures Step(r, LogOf(Entry(state, r)), Event.Pull(cursor, limit, now, res), LogOf(Entry(state', r)))
  {
  }

  /** How much a pull returns: as many live messages from the cursor on as the limit
      and 2^32 - 1 allow, and a cursor exactly when that is some but not all of them. */
  lemma PullSize(state: map<Text, RecipientState>, r: Text, cursor: Option<Cursor>, limit: u64, now: u64,
                 res: Result<PullBatch>, state': map<Text, RecipientState>)
    requires Pulls(state, r, cursor, limit, now, res, state') && r in state && res.Ok?
    ensures Start(r, cursor).Ok?
    ensures var q, from := state[r].queue, Start(r, cursor).value;
            var live := set s | s in q && from <= s && now < q[s].deadlineMs;
            var n := Min(Min(limit, 0xFFFF_FFFF), |live|);
            && |res.value.items| == n && (res.value.nextCursor.Some? <==> 0 < n < |live|)
  {
    hide Consistent, PageKeys, Evicted, NextCursor, Items, Start;
    PageFigures(r, state[r].queue, Start(r, cursor).value, limit, now);
  }

  /** A cursor that names somebody else is refused as a mismatch, one without a colon or
      a number as invalid, and the store is left alone. */
  lemma PullRefuses(state: map<Text, RecipientState>, r: Text, field: Text, rest: Text, limit: u64, now: u64,
                    res: Result<PullBatch>, state': map<Text, RecipientState>)
    requires COLON !in field && r in state
    requires Pulls(state, r, Some(Plain(field + [COLON] + rest)), limit, now, res, state')
    ensures ParseU64(rest) == None ==> res == Err(InvalidInput("invalid cursor")) && LogOf(state'[r]) == LogOf(state[r])
    ensures ParseU64(rest).Some? && field != r ==>
              res == Err(InvalidInput("cursor recipient mismatch")) && LogOf(state'[r]) == LogOf(state[r])
    ensures ParseU64(rest).Some? && field == r ==> res.Ok?
  {
    hide Consistent, InOrder, Evicted, PageKeys, Start, ParseU64, NextCursor;
    CursorAnswers(r, field, rest);
  }

  lemma PullFails(state: map<Text, RecipientState>, r: Text, cursor: Option<Cursor>, limit: u64, now: u64)
    requires AllConsistent(state)
    ensures r !in state ==> Pulls(state, r, cursor, limit, now, Ok(PullBatch([], None, 0)), state)
    ensures r in state && Start(r, cursor).Err? ==>
              Pulls(state, r, cursor, limit, now, Err(Start(r, cursor).error), state)
  {
  }

  // ---- acknowledge ----

  ghost predicate Acks(state: map<Text, RecipientState>, r: Text, items: seq<AckItem>, o: AckOutcome,
                       state': map<Text, RecipientState>) {
    && OnlyChanges(state, state', r) && state'.Keys == state.Keys
    && AllConsistent(state')
    && (r !in state ==> o.deleted == 0 && o.missing == |items| && o.remaining == 0)
    && (r in state ==> IsAck(LogOf(state[r]), Elements(items), o, LogOf(state'[r])) &&
                       o.deleted + o.missing == |Elements(items)|)
  }

  lemma AcksStep(state: map<Text, RecipientState>, r: Text, items: seq<AckItem>, o: AckOutcome,
                 state': map<Text, RecipientState>)
    requires Acks(state, r, items, o, state')
    ensures Step(r, LogOf(Entry(state, r)), Event.Ack(items, o), LogOf(Entry(state', r)))
  {
    if r !in state { assert Named(map[], Elements(items)) == {}; }
  }

  /** The acknowledgements in `done` have been applied. */
  ghost predicate Acked(r: Text, e: RecipientState, done: set<AckItem>, e': RecipientState, o: AckOutcome) {
    && Without(r, e, Named(e.queue, done), e')
    && o.deleted == |Named(e.queue, done)| && o.deleted + o.missing == |done| && o.remaining == 0
  }

  lemma NamedHit(r: Text, e: RecipientState, done: set<AckItem>, e': RecipientState, item: AckItem, s: u64)
    requires Consistent(r, e) && Without(r, e, Named(e.queue, done), e') && item !in done
    requires item in e'.idx && e'.idx[item] == s
    ensures s in e'.queue && s !in Named(e.queue, done) && ItemOf(e'.queue[s]) == item
    ensures Named(e.queue, done + {item}) == Named(e.queue, done) + {s}
  {
    hide Bytes, LogOf;
    LogParts(e, e', Named(e.queue, done));
    assert s in e.queue && ItemOf(e.queue[s]) == item;
  }

  lemma LogParts(e: RecipientState, e': RecipientState, gone: set<u64>)
    requires LogOf(e') == Log(e.seqNo, e.queue - gone)
    ensures e'.queue == e.queue - gone
  {
  }

  lemma AckHit(r: Text, e: RecipientState, done: set<AckItem>, e': RecipientState, o: AckOutcome, item: AckItem, s: u64)
    requires Consistent(r, e) && Acked(r, e, done, e', o) && item !in done && |done| < U64_MAX
    requires item in e'.idx && e'.idx[item] == s
    ensures s in e'.queue && ItemOf(e'.queue[s]) == item && o.deleted < U64_MAX
    ensures Acked(r, e, done + {item}, Deleted(e', s), o.(deleted := o.deleted + 1))
  {
    hide Consistent, WellFormed, Deleted, Named, Without, ItemOf, LogOf;
    NamedHit(r, e, done, e', item, s);
    WithoutOneMore(r, e, Named(e.queue, done), e', s);
  }

  lemma AckMiss(r: Text, e: RecipientState, done: set<AckItem>, e': RecipientState, o: AckOutcome, item: AckItem)
    requires Acked(r, e, done, e', o) && item !in done && item !in e'.idx && |done| < U64_MAX
    ensures o.missing < U64_MAX && Acked(r, e, done + {item}, e', o.(missing := o.missing + 1))
  {
    assert forall s :: s in e.queue && ItemOf(e.queue[s]) == item ==> s !in e'.queue;
    assert Named(e.queue, done + {item}) == Named(e.queue, done);
  }

  lemma AckStart(r: Text, e: RecipientState)
    requires Consistent(r, e)
    ensures Acked(r, e, {}, e, AckOutcome(0, 0, 0))
  {
    WithoutNone(r, e);
    assert Named(e.queue, {}) == {};
  }

  lemma AckDone(state: map<Text, RecipientState>, r: Text, items: seq<AckItem>, e': RecipientState, o: AckOutcome)
    requires AllConsistent(state) && r in state && Acked(r, state[r], Elements(items), e', o)
    ensures Acks(state, r, items, o.(remaining := e'.quotaCount), state[r := e'])
  {
    EntryLifts(state, r, e');
  }

  // ---- purge ----

  /** What the purge has done once it has dealt with the first `i` recipients. */
  ghost predicate Purging(state: map<Text, RecipientState>, rs: seq<Text>, i: nat, now: u64, target: nat,
                          d: seq<(Text, u64)>, state': map<Text, RecipientState>) {
    && i <= |rs| && (forall r :: r in rs ==> r in state)
    && state'.Keys == state.Keys
    && d == Take(Plan(state, rs[..i], now), target)
    && forall r :: r in state ==> Without(r, state[r], Mine(d, r), state'[r])
  }

  lemma PurgeStart(state: map<Text, RecipientState>, now: u64, target: nat)
    requires AllConsistent(state)
    ensures Purging(state, Recipients(state), 0, now, target, [], state)
  {
    forall r | r in state ensures Without(r, state[r], Mine([], r), state[r]) {
      assert Mine([], r) == {};
      WithoutNone(r, state[r]);
    }
  }

  lemma NotBefore(rs: seq<Text>, i: nat)
    requires Sorted(rs, TextLt) && i < |rs|
    ensures rs[i] in rs && rs[i] !in rs[..i]
  {
    TextLtTotal();
    assert forall j :: 0 <= j < i ==> TextLt(rs[j], rs[i]);
  }

  lemma PlanSkips(state: map<Text, RecipientState>, rs: seq<Text>, now: u64, d: seq<(Text, u64)>, r: Text)
    requires (forall r' :: r' in rs ==> r' in state) && d <= Plan(state, rs, now) && r !in rs
    ensures Mine(d, r) == {}
  {
    forall p | p in d ensures p.0 != r { PlanMembers(state, rs, now, p); }
  }

  /** Nothing of a recipient is gone before its turn. */
  lemma NotYet(state: map<Text, RecipientState>, rs: seq<Text>, i: nat, r: Text, now: u64, target: nat,
               d: seq<(Text, u64)>, state': map<Text, RecipientState>)
    requires Purging(state, rs, i, now, target, d, state') && i < |rs| && Sorted(rs, TextLt) && r == rs[i]
    ensures r in state && r in state' && Mine(d, r) == {} && LogOf(state'[r]) == LogOf(state[r])
    ensures Consistent(r, state'[r])
  {
    hide Consistent, Plan, Mine;
    NotBefore(rs, i);
    PlanSkips(state, rs[..i], now, d, r);
    assert state[r].queue - {} == state[r].queue;
  }

  lemma MineTag(d: seq<(Text, u64)>, r: Text, ks: seq<u64>, r': Text)
    ensures Mine(d + Tag(r, ks), r') == if r' == r then Mine(d, r) + Elements(ks) else Mine(d, r')
  {
    var t := Tag(r, ks);
    assert forall p :: p in t ==> p.0 == r && p.1 in ks;
    forall k | k in ks ensures (r, k) in t {
      var i :| 0 <= i < |ks| && ks[i] == k;
      assert t[i] == (r, k);
    }
    forall k ensures k in Mine(d + t, r') <==> k in (if r' == r then Mine(d, r) + Elements(ks) else Mine(d, r')) {
      assert (r', k) in d + t <==> (r', k) in d || (r', k) in t;
      assert k in Mine(d + t, r') <==> (r', k) in d + t;
      assert k in Mine(d, r') <==> (r', k) in d;
    }
  }

  lemma TakeTag(plan: seq<(Text, u64)>, r: Text, ks: seq<u64>, target: nat, d: seq<(Text, u64)>)
    requires d == Take(plan, target) && |d| < target
    ensures d == plan
    ensures Take(plan + Tag(r, ks), target) == d + Tag(r, Take(ks, target - |d|))
  {
  }

  lemma PlanStep(state: map<Text, RecipientState>, rs: seq<Text>, i: nat, r: Text, now: u64)
    requires (forall r' :: r' in rs ==> r' in state) && i < |rs| && r == rs[i] && r in state
    ensures Plan(state, rs[..i + 1], now) == Plan(state, rs[..i], now) + Tag(r, LeadingOf(state[r], now))
  {
    hide LeadingOf;
    var ahead := rs[..i + 1];
    assert |ahead| == i + 1 && ahead[i] == r && ahead[..i] == rs[..i];
  }

  lemma GoneAdvance(state: map<Text, RecipientState>, d: seq<(Text, u64)>, state': map<Text, RecipientState>,
                    r: Text, drop: seq<u64>, e': RecipientState)
    requires forall r' :: r' in state ==> r' in state' && Without(r', state[r'], Mine(d, r'), state'[r'])
    requires r in state && Mine(d, r) == {} && Without(r, state[r], Elements(drop), e')
    ensures forall r' :: r' in state ==> Without(r', state[r'], Mine(d + Tag(r, drop), r'), state'[r := e'][r'])
  {
    hide Without, Mine;
    forall r' | r' in state ensures Without(r', state[r'], Mine(d + Tag(r, drop), r'), state'[r := e'][r']) {
      MineTag(d, r, drop, r');
      assert {} + Elements(drop) == Elements(drop);
    }
  }

  lemma PurgeAdvance(state: map<Text, RecipientState>, rs: seq<Text>, i: nat, r: Text, now: u64, target: nat,
                     d: seq<(Text, u64)>, state': map<Text, RecipientState>, drop: seq<u64>, e': RecipientState)
    requires Purging(state, rs, i, now, target, d, state') && i < |rs| && |d| < target && Sorted(rs, TextLt)
    requires r == rs[i] && r in state && drop == Take(LeadingOf(state[r], now), target - |d|)
    requires r in state' && Without(r, state'[r], Elements(drop), e')
    ensures Purging(state, rs, i + 1, now, target, d + Tag(r, drop), state'[r := e'])
  {
    hide Without, Consistent, LeadingOf, Mine, Plan, Tag, Take, LogOf, Sorted;
    NotYet(state, rs, i, r, now, target, d, state');
    WithoutSame(r, state[r], state'[r], Elements(drop), e');
    PlanStep(state, rs, i, r, now);
    TakeTag(Plan(state, rs[..i], now), r, LeadingOf(state[r], now), target, d);
    GoneAdvance(state, d, state', r, drop, e');
  }

  /** The effect of a purge: the first `target` messages of the plan go. */
  ghost predicate Purges(state: map<Text, RecipientState>, now: u64, max: nat, removed: nat,
                         state': map<Text, RecipientState>) {
    var target := Min(max, GC_BATCH_LIMIT);
    var plan := Plan(state, Recipients(state), now);
    && state'.Keys == state.Keys && AllConsistent(state')
    && removed == Min(target, |plan|)
    && forall r :: r in state ==>
         LogOf(state'[r]) == Log(state[r].seqNo, state[r].queue - Mine(Take(plan, target), r))
  }

  lemma PurgeDone(state: map<Text, RecipientState>, rs: seq<Text>, i: nat, now: u64, max: nat, target: nat,
                  d: seq<(Text, u64)>, state': map<Text, RecipientState>)
    requires target == Min(max, GC_BATCH_LIMIT) && rs == Recipients(state)
    requires Purging(state, rs, i, now, target, d, state') && (i == |rs| || |d| >= target)
    ensures Purges(state, now, max, |d|, state')
  {
    hide Consistent, WellFormed, Plan, Recipients, LeadingOf, Mine, Bytes;
    PlanPrefix(state, rs, now, i);
    if i == |rs| { assert rs[..i] == rs; }
    assert d == Take(Plan(state, rs, now), target);
  }

  class MemStore {
    var state: map<Text, RecipientState>

    ghost predicate Valid()
      reads this
    {
      AllConsistent(state)
    }

    ghost function Log(r: Text): Log
      reads this
    {
      LogOf(Entry(state, r))
    }

    constructor ()
      ensures Valid() && state == map[]
    {
      state := map[];
    }

    method Push(msg: InboundMessage, limits: RelayLimits) returns (res: Result<PushResult>)
      requires Valid()
      modifies this
      ensures Pushes(old(state), msg, limits, res, state)
    {
      hide Consistent, Pushes, Bytes;
      ghost var before := state;
      var entry := Entry(state, msg.recipient);
      state := state[msg.recipient := entry];
      var dedupKey := InboundItem(msg);
      if dedupKey in entry.idx {
        res := Ok(PushResult(false, true, entry.quotaCount, entry.quotaBytes));
        PushLifts(before, msg, limits, res, entry);
        return;
      }
      var nextCount := SatAdd(entry.quotaCount, 1);
      if nextCount > limits.maxMessagesPerUser {
        PushLifts(before, msg, limits, Err(QuotaExceeded), entry);
        return Err(QuotaExceeded);
      }
      var nextBytes := SatAdd(entry.quotaBytes, msg.payloadBytes);
      if nextBytes > limits.maxQueueBytesPerUser {
        PushLifts(before, msg, limits, Err(QuotaExceeded), entry);
        return Err(QuotaExceeded);
      }
      var arrivalSeq := entry.seqNo;
      entry := entry.(seqNo := SatAdd(entry.seqNo, 1));
      var stored := Stored(msg, arrivalSeq);
      entry := entry.(queue := entry.queue[arrivalSeq := stored]);
      entry := entry.(idx := entry.idx[dedupKey := arrivalSeq]);
      entry := entry.(quotaCount := nextCount, quotaBytes := nextBytes);
      res := Ok(PushResult(true, false, entry.quotaCount, entry.quotaBytes));
      PushLifts(before, msg, limits, res, entry);
      Overwrite(before, msg.recipient, Entry(before, msg.recipient), entry);
      state := state[msg.recipient := entry];
    }

    method Pull(recipient: Text, cursor: Option<Cursor>, limit: u64, now: u64) returns (res: Result<PullBatch>)
      requires Valid()
      modifies this
      ensures Pulls(old(state), recipient, cursor, limit, now, res, state)
    {
      PullFails(state, recipient, cursor, limit, now);
      if recipient !in state {
        return Ok(PullBatch([], None, 0));
      }
      var entry := state[recipient];
      var from := 0;
      if cursor.Some? {
        var decoded := DecodeCursor(cursor.value);
        if decoded.Err? {
          assert Start(recipient, cursor) == Err(decoded.error);
          return Err(decoded.error);
        }
        if decoded.value.0 != recipient {
          assert Start(recipient, cursor) == Err(InvalidInput("cursor recipient mismatch"));
          return Err(InvalidInput("cursor recipient mismatch"));
        }
        from := After(decoded.value.1);
      }
      var collected, expired, more := Scan(entry.queue, from, limit, now);
      var entry' := Evict(recipient, entry, expired);
      BatchIsPage(recipient, entry, from, limit, now, more, entry');
      PullLifts(state, recipient, cursor, from, limit, now, Batch(collected, more, entry'.quotaCount), entry');
      state := state[recipient := entry'];
      res := Ok(Batch(collected, more, entry'.quotaCount));
    }

    method Ack(recipient: Text, items: seq<AckItem>) returns (outcome: AckOutcome)
      requires Valid() && |items| <= U64_MAX
      modifies this
      ensures Acks(old(state), recipient, items, outcome, state)
    {
      hide Consistent, WellFormed, Acked, Deleted;
      if recipient !in state {
        return AckOutcome(0, |items|, 0);
      }
      var entry := state[recipient];
      var unique := Elements(items);
      outcome := AckOutcome(0, 0, 0);
      ElementsSize(items);
      AckStart(recipient, entry);
      ghost var before := entry;
      var todo := unique;
      assert unique - todo == {};
      while todo != {}
        invariant state == old(state) && todo <= unique
        invariant Acked(recipient, before, unique - todo, entry, outcome)
        decreases todo
      {
        var ackItem :| ackItem in todo;
        ghost var done := unique - todo;
        assert unique - (todo - {ackItem}) == done + {ackItem};
        SubsetSize(done + {ackItem}, unique);
        if ackItem in entry.idx {
          var s := entry.idx[ackItem];
          AckHit(recipient, before, done, entry, outcome, ackItem, s);
          var entry' := entry.(idx := entry.idx - {ackItem});
          if s in entry'.queue {
            var removed := entry'.queue[s];
            entry' := entry'.(queue := entry'.queue - {s});
            entry' := entry'.(quotaCount := SatSub(entry'.quotaCount, 1));
            entry' := entry'.(quotaBytes := SatSub(entry'.quotaBytes, removed.payloadBytes));
            outcome := outcome.(deleted := SatAdd(outcome.deleted, 1));
          }
          DeletedIs(entry, s, entry');
          entry := entry';
        } else {
          AckMiss(recipient, before, done, entry, outcome, ackItem);
          outcome := outcome.(missing := SatAdd(outcome.missing, 1));
        }
        todo := todo - {ackItem};
      }
      assert unique - {} == unique;
      AckDone(state, recipient, items, entry, outcome);
      outcome := outcome.(remaining := entry.quotaCount);
      state := state[recipient := entry];
    }

    method PurgeExpired(now: u64, max: nat) returns (removed: nat)
      requires Valid()
      modifies this
      ensures Purges(old(state), now, max, removed, state)
    {
      hide Consistent, Without, Purging, Purges, Plan, Leading, LeadingOf, Take, LogOf, Recipients, Sorted, InOrder, Tag;
      removed := 0;
      var target := Min(max, GC_BATCH_LIMIT);
      var recipients := Recipients(state);
      ghost var before, d := state, [];
      PurgeStart(state, now, target);
      var i := 0;
      while i < |recipients|
        invariant i <= |recipients| && removed == |d|
        invariant Purging(before, recipients, i, now, target, d, state)
      {
        if removed >= target {
          break;
        }
        var recip := recipients[i];
        NotYet(before, recipients, i, recip, now, target, d, state);
        var entry := state[recip];
        var toDrop := Due(entry.queue, now, removed, target);
        DueFits(entry, now, target - removed, toDrop);
        var removed';
        entry, removed' := DropDue(recip, entry, toDrop, removed, target);
        SameLeading(before[recip], state[recip], now);
        PurgeAdvance(before, recipients, i, recip, now, target, d, state, toDrop, entry);
        state := state[recip := entry];
        d := d + Tag(recip, toDrop);
        removed := removed';
        i := i + 1;
      }
      PurgeDone(before, recipients, i, now, max, target, d, state);
    }
  }

  /** The first loop of a purge over one queue: the leading expired messages, up to the target. */
  method Due(queue: map<u64, QueueMessage>, now: u64, removed: nat, target: nat) returns (toDrop: seq<u64>)
    requires removed < target
    ensures toDrop == Take(Leading(queue, InOrder(queue.Keys), now), target - removed)
  {
    hide *;
    var entries := InOrder(queue.Keys);
    toDrop := [];
    var i := 0;
    while i < |entries|
      invariant i <= |entries| && toDrop == entries[..i]
      invariant forall j :: 0 <= j < i ==> Expired(queue[entries[j]], now)
      invariant removed + i < target
    {
      assert entries[i] in entries;
      if Expired(queue[entries[i]], now) {
        toDrop := toDrop + [entries[i]];
        if removed + |toDrop| >= target {
          DueIs(queue, entries, now, i + 1, target - removed);
          return;
        }
      } else {
        DueIs(queue, entries, now, i, target - removed);
        return;
      }
      i := i + 1;
    }
    DueIs(queue, entries, now, i, target - removed);
  }

  /** The second loop of a purge over one queue: remove them one by one. */
  method DropDue(ghost r: Text, entry: RecipientState, toDrop: seq<u64>, already: nat, target: nat)
    returns (e: RecipientState, removed: nat)
    requires Consistent(r, entry) && Sorted(toDrop, U64Lt) && forall k :: k in toDrop ==> k in entry.queue
    requires already < target && already + |toDrop| <= target
    ensures Without(r, entry, Elements(toDrop), e) && removed == already + |toDrop|
  {
    hide Consistent, WellFormed, Deleted;
    e, removed := entry, already;
    WithoutNone(r, entry);
    var j := 0;
    while j < |toDrop|
      invariant j <= |toDrop| && removed == already + j
      invariant Without(r, entry, Elements(toDrop[..j]), e)
    {
      var s := toDrop[j];
      assert s in toDrop;
      assert s !in toDrop[..j] by { assert forall i :: 0 <= i < j ==> U64Lt(toDrop[i], s); }
      ElementsStep(toDrop, j);
      if s in e.queue {
        WithoutOneMore(r, entry, Elements(toDrop[..j]), e, s);
        var removedMsg := e.queue[s];
        var e' := e.(queue := e.queue - {s});
        e' := e'.(idx := e'.idx - {ItemOf(removedMsg)});
        e' := e'.(quotaCount := SatSub(e'.quotaCount, 1));
        e' := e'.(quotaBytes := SatSub(e'.quotaBytes, removedMsg.payloadBytes));
        DeletedIs(e, s, e');
        e := e';
        removed := removed + 1;
      }
      j := j + 1;
      if removed >= target {
        break;
      }
    }
    assert toDrop[..j] == toDrop;
  }

  /** The eviction loop of a pull. */
  method Evict(ghost r: Text, entry: RecipientState, expired: seq<u64>) returns (e: RecipientState)
    requires Consistent(r, entry)
    ensures Without(r, entry, Elements(expired), e)
  {
    hide Consistent, WellFormed, Deleted;
    e := entry;
    WithoutNone(r, entry);
    var j := 0;
    while j < |expired|
      invariant j <= |expired|
      invariant Without(r, entry, Elements(expired[..j]), e)
    {
      var s := expired[j];
      ElementsStep(expired, j);
      if s in e.queue {
        WithoutOneMore(r, entry, Elements(expired[..j]), e, s);
        var removed := e.queue[s];
        var e' := e.(queue := e.queue - {s});
        e' := e'.(quotaCount := SatSub(e'.quotaCount, 1));
        e' := e'.(quotaBytes := SatSub(e'.quotaBytes, removed.payloadBytes));
        e' := e'.(idx := e'.idx - {ItemOf(removed)});
        DeletedIs(e, s, e');
        e := e';
      } else {
        WithoutAbsent(r, entry, Elements(expired[..j]), e, s);
      }
      j := j + 1;
    }
    assert expired[..j] == expired;
  }

  /** The scan loop of a pull: what fits the page, and the expired messages passed. */
  method Scan(queue: map<u64, QueueMessage>, from: nat, limit: u64, now: u64)
    returns (collected: seq<QueueMessage>, expired: seq<u64>, more: bool)
    ensures collected == Items(queue, PageKeys(queue, from, limit, now))
    ensures |collected| == Min(Min(limit, 0xFFFF_FFFF), |LiveKeys(queue, from, now)|)
    ensures more <==> |collected| < |LiveKeys(queue, from, now)|
    ensures Elements(expired) == Evicted(queue, from, limit, now)
  {
    hide Scanned, LiveOf;
    var limitSize := EffectiveLimit(limit);
    collected, expired, more := [], [], false;
    var entries := InOrder(KeysFrom(queue, from));
    ScanStart(queue, entries, now);
    var i := 0;
    while i < |entries|
      invariant i <= |entries| && |collected| <= limitSize && !more
      invariant Scanned(queue, entries, i, now, collected, expired)
    {
      ScanAdvance(queue, entries, i, now, collected, expired);
      var s := entries[i];
      var msg := queue[s];
      if Expired(msg, now) {
        expired := expired + [s];
      } else if |collected| < limitSize {
        collected := collected + [msg];
      } else {
        more := true;
        break;
      }
      i := i + 1;
    }
    ScanPage(queue, entries, from, i, limit, now, collected, expired, more);
    ScanItems(queue, entries, i, now, collected, expired);
    ScanEvicts(queue, entries, from, i, limit, now, collected, expired, more);
  }
}
