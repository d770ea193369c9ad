/** The persistent store's operations (src/store_sled.rs). */
module SledStore {
  import opened Machine
  import opened Text
  import opened Keys
  import opened Cursor
  import opened Messages
  import opened Queue
  import opened SledTrees
  import opened SledScan
  import opened SledPurge
  import Runs

  // ---- push ----

  /** The trees after a stored push, saturating additions included. */
  function Written(t: Trees, msg: InboundMessage): Trees {
    var r := msg.recipient;
    var s := NextSeq(t.seqs, r);
    var m := Stored(msg, s);
    var quota := QuotaOf(t.quota, r);
    Trees(t.messages[KeyOf(m) := m],
          t.index[IdxKey(r, InboundItem(msg)) := EncodeU64(s)],
          t.quota[QuotaKey(r) := QuotaValue(SatAdd(quota.bytes, msg.payloadBytes), SatAdd(quota.count, 1))],
          t.seqs[SeqKey(r) := EncodeU64(SatAdd(s, 1))])
  }

  /** The branches of the push transaction. */
  ghost predicate RawPush(t: Trees, msg: InboundMessage, limits: RelayLimits, res: Result<PushResult>, t': Trees) {
    var quota := QuotaOf(t.quota, msg.recipient);
    var count, bytes := SatAdd(quota.count, 1), SatAdd(quota.bytes, msg.payloadBytes);
    if IdxKey(msg.recipient, InboundItem(msg)) in t.index then
      res == Ok(PushResult(false, true, quota.count, quota.bytes)) && t' == t
    else if count > limits.maxMessagesPerUser || bytes > limits.maxQueueBytesPerUser then
      res == Err(QuotaExceeded) && t' == t
    else
      res == Ok(PushResult(true, false, count, bytes)) && t' == Written(t, msg)
  }

  /** No addition of a stored push clips. */
  predicate Room(t: Trees, msg: InboundMessage) {
    var quota := QuotaOf(t.quota, msg.recipient);
    && NextSeq(t.seqs, msg.recipient) < U64_MAX
    && quota.count < U64_MAX && quota.bytes + msg.payloadBytes <= U64_MAX
  }

  lemma WrittenView(t: Trees, msg: InboundMessage, r: Text)
    requires Safe(t)
    ensures WellKeyed(Written(t, msg).messages)
    ensures View(Written(t, msg).messages, r) ==
            if r == msg.recipient then
              View(t.messages, r)[NextSeq(t.seqs, r) := Stored(msg, NextSeq(t.seqs, r))]
            else View(t.messages, r)
    ensures NextSeq(t.seqs, msg.recipient) !in View(t.messages, msg.recipient)
  {
    hide View, KeyOf, Covers, Indexed, EncodeU64, ReadSeq;
    ViewInsert(t.messages, Stored(msg, NextSeq(t.seqs, msg.recipient)), r);
  }

  lemma WrittenNext(t: Trees, msg: InboundMessage, r: Text)
    ensures NextSeq(Written(t, msg).seqs, r) ==
            if r == msg.recipient then SatAdd(NextSeq(t.seqs, r), 1) else NextSeq(t.seqs, r)
    ensures ReadSeq(t.seqs, r).Ok? ==> ReadSeq(Written(t, msg).seqs, r).Ok?
  {
    hide ReadSeq, KeyOf, IdxKey, QuotaOf, EncodeU64, DecodeU64;
    SeqWrite(t.seqs, msg.recipient, SatAdd(NextSeq(t.seqs, msg.recipient), 1), r);
  }

  lemma WrittenExcess(t: Trees, msg: InboundMessage, r: Text)
    requires WellKeyed(t.messages) && Safe(t) && Room(t, msg)
    ensures WellKeyed(Written(t, msg).messages) && Excess(Written(t, msg), r) == Excess(t, r)
  {
    hide View, KeyOf, Safe, WellKeyed, Bytes, IdxKey, EncodeU64, ReadSeq, NextSeq, QuotaOf, QuotaKey, Written;
    WrittenView(t, msg, r);
    WrittenQuota(t, msg, r);
    if r == msg.recipient {
      BytesInsert(View(t.messages, r), NextSeq(t.seqs, r), Stored(msg, NextSeq(t.seqs, r)));
    }
  }

  lemma WrittenQuota(t: Trees, msg: InboundMessage, r: Text)
    ensures var quota := QuotaOf(t.quota, r);
            QuotaOf(Written(t, msg).quota, r) ==
            if r == msg.recipient then QuotaValue(SatAdd(quota.bytes, msg.payloadBytes), SatAdd(quota.count, 1)) else quota
  {
    hide KeyOf, IdxKey, EncodeU64, NextSeq, QuotaOf, QuotaKey;
    var quota := QuotaOf(t.quota, msg.recipient);
    QuotaWrite(t.quota, msg.recipient,
               QuotaValue(SatAdd(quota.bytes, msg.payloadBytes), SatAdd(quota.count, 1)), r);
  }

  lemma WrittenIndexed(t: Trees, msg: InboundMessage)
    requires WellKeyed(t.messages) && Indexed(t) && IdxKey(msg.recipient, InboundItem(msg)) !in t.index
    ensures Indexed(Written(t, msg))
  {
    hide KeyOf, WellKeyed, QuotaOf, IdxKey, NextSeq;
    U64RoundTrip(NextSeq(t.seqs, msg.recipient));
  }

  lemma WrittenNumbered(t: Trees, msg: InboundMessage)
    requires WellKeyed(t.messages) && Numbered(t) && NextSeq(t.seqs, msg.recipient) < U64_MAX
    ensures Numbered(Written(t, msg))
  {
    hide KeyOf, WellKeyed, QuotaOf, IdxKey, NextSeq, ReadSeq, EncodeU64;
    var t' := Written(t, msg);
    forall r ensures ReadSeq(t'.seqs, r).Ok? { WrittenNext(t, msg, r); }
    forall k | k in t'.messages ensures t'.messages[k].arrivalSeq < NextSeq(t'.seqs, t'.messages[k].recipient) {
      WrittenNext(t, msg, t'.messages[k].recipient);
    }
  }

  /** A stored push keeps the trees safe, and no recipient's quota drifts. */
  lemma WrittenSafe(t: Trees, msg: InboundMessage)
    requires Safe(t) && Room(t, msg) && IdxKey(msg.recipient, InboundItem(msg)) !in t.index
    ensures Safe(Written(t, msg)) && forall r :: Excess(Written(t, msg), r) == Excess(t, r)
  {
    hide Written, WellKeyed, Indexed, Numbered, Excess;
    WrittenView(t, msg, msg.recipient);
    WrittenIndexed(t, msg);
    WrittenNumbered(t, msg);
    forall r ensures Excess(Written(t, msg), r) == Excess(t, r) { WrittenExcess(t, msg, r); }
    forall r ensures Covers(Written(t, msg), r) { assert Covers(t, r); }
  }

  /** Message and index entry are written together: no entry becomes an orphan, none
      stops being one. */
  lemma WrittenOrphans(t: Trees, msg: InboundMessage)
    requires Safe(t) && IdxKey(msg.recipient, InboundItem(msg)) !in t.index
    ensures Orphans(Written(t, msg)) == Orphans(t)
  {
    hide View, KeyOf, QuotaOf, NextSeq, EncodeU64, Covers, Indexed, Numbered, IdxKey;
    var m := Stored(msg, NextSeq(t.seqs, msg.recipient));
    WrittenView(t, msg, msg.recipient);
    KeyFresh(t.messages, m);
    var t' := Written(t, msg);
    forall k ensures Leads(t'.messages, k) <==> Leads(t.messages, k) || k == IdxOf(m) {
      InsertLeads(t.messages, KeyOf(m), m, k);
    }
  }

  lemma InsertLeads(ms: map<Text, QueueMessage>, at: Text, m: QueueMessage, k: Text)
    requires at !in ms
    ensures Leads(ms[at := m], k) <==> Leads(ms, k) || k == IdxOf(m)
  {
    hide IdxOf;
    if Leads(ms, k) {
      var j :| j in ms && IdxOf(ms[j]) == k;
      assert IdxOf(ms[at := m][j]) == k;
    }
    if k == IdxOf(m) { assert IdxOf(ms[at := m][at]) == k; }
  }

  /** In an exact store a clipping addition is what breaks exactness. */
  lemma ClipBreaks(t: Trees, msg: InboundMessage)
    requires Exact(t) && WellKeyed(Written(t, msg).messages)
    ensures NextSeq(t.seqs, msg.recipient) == U64_MAX ==> !Numbered(Written(t, msg))
    ensures NextSeq(t.seqs, msg.recipient) < U64_MAX && QuotaOf(t.quota, msg.recipient).bytes + msg.payloadBytes > U64_MAX ==>
            !Covers(Written(t, msg), msg.recipient)
  {
    hide View, KeyOf, EncodeU64, Bytes, QuotaOf, IdxKey, QuotaKey, NextSeq, ReadSeq, Indexed;
    var r := msg.recipient;
    var m := Stored(msg, NextSeq(t.seqs, r));
    WrittenNext(t, msg, r);
    if NextSeq(t.seqs, r) == U64_MAX {
      assert Written(t, msg).messages[KeyOf(m)] == m;
    } else if QuotaOf(t.quota, r).bytes + msg.payloadBytes > U64_MAX {
      var q := QuotaOf(t.quota, r);
      WrittenView(t, msg, r);
      QuotaWrite(t.quota, r, QuotaValue(SatAdd(q.bytes, msg.payloadBytes), SatAdd(q.count, 1)), r);
      BytesInsert(View(t.messages, r), NextSeq(t.seqs, r), m);
      assert Excess(t, r) == (0, 0);
    }
  }

  /** The quota check, when the record exceeds the truth by `over`. */
  ghost predicate Fits(l: Log, over: (int, int), msg: InboundMessage, limits: RelayLimits) {
    && (|l.q| + over.0 + 1 <= limits.maxMessagesPerUser || limits.maxMessagesPerUser == U64_MAX)
    && (Bytes(l.q) + over.1 + msg.payloadBytes <= limits.maxQueueBytesPerUser || limits.maxQueueBytesPerUser == U64_MAX)
  }

  /** What a push does to the trees, whether or not quotas are exact. */
  ghost predicate Pushes(t: Trees, msg: InboundMessage, limits: RelayLimits, res: Result<PushResult>, t': Trees)
    requires Safe(t)
  {
    var r := msg.recipient;
    var l := ViewLog(t, r);
    && WellKeyed(t'.messages)
    && (forall r' :: r' != r ==> ViewLog(t', r') == ViewLog(t, r'))
    && (if IdxKey(r, InboundItem(msg)) in t.index then t' == t && res.Ok? && res.value.duplicate && !res.value.stored
        else if res.Err? then t' == t && res.error == QuotaExceeded
        else
          && res.value.stored && !res.value.duplicate && ViewLog(t', r).q == l.q[l.next := Stored(msg, l.next)]
          && l.next in ViewLog(t', r).q && Copies(ViewLog(t', r).q[l.next], msg, l.next)
          && t'.index == t.index[IdxKey(r, InboundItem(msg)) := EncodeU64(l.next)])
    && (IdxKey(r, InboundItem(msg)) !in t.index ==> (res.Ok? <==> Fits(l, Excess(t, r), msg, limits)))
    && (res.Ok? ==> res.value.queueLen == QuotaOf(t'.quota, r).count && res.value.queueBytes == QuotaOf(t'.quota, r).bytes)
    && Orphans(t') == Orphans(t)
    && (t' == t || Room(t, msg) ==> Safe(t') && forall r' :: Excess(t', r') == Excess(t, r'))
    && (t' != t && Room(t, msg) ==> ViewLog(t', r).next == l.next + 1 && Runs.Within(ViewLog(t', r), limits))
    && (Exact(t) ==> (Exact(t') <==> !Clips(l, msg, limits)))
    && (Exact(t) && Exact(t') ==> Step(r, l, Event.Push(msg, limits, res), ViewLog(t', r)))
  }

  lemma StoredExact(t: Trees, msg: InboundMessage, limits: RelayLimits)
    requires Exact(t) && IdxKey(msg.recipient, InboundItem(msg)) !in t.index
    requires var quota := QuotaOf(t.quota, msg.recipient);
             SatAdd(quota.count, 1) <= limits.maxMessagesPerUser &&
             SatAdd(quota.bytes, msg.payloadBytes) <= limits.maxQueueBytesPerUser
    ensures Exact(Written(t, msg)) <==> !Clips(ViewLog(t, msg.recipient), msg, limits)
    ensures Exact(Written(t, msg)) ==> Room(t, msg)
  {
    hide View, KeyOf, Written, IdxKey, ReadSeq, NextSeq, QuotaOf, Bytes, Orphans, Queued, WellFormed;
    var r := msg.recipient;
    IndexLeads(t, r, InboundItem(msg));
    ViewWellFormed(t, r);
    CountBound(r, ViewLog(t, r));
    assert Excess(t, r) == (0, 0);
    WrittenView(t, msg, r);
    if Room(t, msg) {
      WrittenSafe(t, msg);
      WrittenOrphans(t, msg);
    } else {
      ClipBreaks(t, msg);
    }
  }

  lemma StoredStep(t: Trees, msg: InboundMessage, limits: RelayLimits, res: Result<PushResult>)
    requires Exact(t) && Exact(Written(t, msg)) && Room(t, msg)
    requires IdxKey(msg.recipient, InboundItem(msg)) !in t.index && RawPush(t, msg, limits, res, Written(t, msg)) && res.Ok?
    ensures Step(msg.recipient, ViewLog(t, msg.recipient), Event.Push(msg, limits, res),
                 ViewLog(Written(t, msg), msg.recipient))
  {
    hide View, KeyOf, IdxKey, ReadSeq, NextSeq, QuotaOf, Bytes, NoOrphans, Written, Indexed, Numbered, Queued, Covers;
    var r := msg.recipient;
    IndexLeads(t, r, InboundItem(msg));
    WrittenView(t, msg, r);
    WrittenNext(t, msg, r);
    assert Excess(t, r) == (0, 0) && Excess(Written(t, msg), r) == (0, 0);
    BytesInsert(View(t.messages, r), NextSeq(t.seqs, r), Stored(msg, NextSeq(t.seqs, r)));
  }

  lemma StoredWithin(t: Trees, msg: InboundMessage, limits: RelayLimits, res: Result<PushResult>)
    requires Safe(t) && Room(t, msg) && res.Ok?
    requires IdxKey(msg.recipient, InboundItem(msg)) !in t.index && RawPush(t, msg, limits, res, Written(t, msg))
    ensures Safe(Written(t, msg)) && Runs.Within(ViewLog(Written(t, msg), msg.recipient), limits)
  {
    hide View, KeyOf, IdxKey, ReadSeq, NextSeq, QuotaKey, Bytes, NoOrphans, Indexed, Numbered;
    var r := msg.recipient;
    WrittenSafe(t, msg);
    assert Covers(Written(t, msg), r);
    var q := QuotaOf(t.quota, r);
    QuotaWrite(t.quota, r, QuotaValue(SatAdd(q.bytes, msg.payloadBytes), SatAdd(q.count, 1)), r);
  }

  lemma WrittenFigures(t: Trees, msg: InboundMessage, r: Text)
    requires r == msg.recipient
    ensures QuotaOf(Written(t, msg).quota, r) ==
            QuotaValue(SatAdd(QuotaOf(t.quota, r).bytes, msg.payloadBytes), SatAdd(QuotaOf(t.quota, r).count, 1))
    ensures Written(t, msg).index == t.index[IdxKey(r, InboundItem(msg)) := EncodeU64(NextSeq(t.seqs, r))]
  {
    hide QuotaOf, KeyOf, IdxKey, EncodeU64, NextSeq, QuotaKey;
    WrittenQuota(t, msg, r);
  }

  lemma StoredPushes(t: Trees, msg: InboundMessage, limits: RelayLimits, res: Result<PushResult>)
    requires Safe(t) && IdxKey(msg.recipient, InboundItem(msg)) !in t.index
    requires RawPush(t, msg, limits, res, Written(t, msg)) && res.Ok?
    ensures Pushes(t, msg, limits, res, Written(t, msg))
  {
    hide View, KeyOf, IdxKey, ReadSeq, NextSeq, QuotaOf, Bytes, Written, Indexed, Numbered, Clips, Step, Runs.Within, Orphans, EncodeU64;
    var r := msg.recipient;
    WrittenFigures(t, msg, r);
    WrittenOrphans(t, msg);
    WrittenView(t, msg, r);
    WrittenNext(t, msg, r);
    forall r' | r' != r ensures ViewLog(Written(t, msg), r') == ViewLog(t, r') {
      WrittenView(t, msg, r');
      WrittenNext(t, msg, r');
    }
    if Room(t, msg) {
      WrittenSafe(t, msg);
      StoredWithin(t, msg, limits, res);
    }
    if Exact(t) {
      StoredExact(t, msg, limits);
      if Exact(Written(t, msg)) { StoredStep(t, msg, limits, res); }
    }
  }

  lemma UnstoredExact(t: Trees, msg: InboundMessage, limits: RelayLimits, res: Result<PushResult>)
    requires Exact(t) && RawPush(t, msg, limits, res, t)
    requires IdxKey(msg.recipient, InboundItem(msg)) in t.index || res.Err?
    ensures !Clips(ViewLog(t, msg.recipient), msg, limits)
    ensures IsPush(ViewLog(t, msg.recipient), msg, limits, res, ViewLog(t, msg.recipient))
  {
    hide View, KeyOf, IdxKey, ReadSeq, NextSeq, QuotaOf, Bytes, Written, Indexed, Numbered, WellFormed, NoOrphans, Queued, Covers;
    var r := msg.recipient;
    IndexLeads(t, r, InboundItem(msg));
    assert Excess(t, r) == (0, 0);
    ViewWellFormed(t, r);
    CountBound(r, ViewLog(t, r));
  }

  lemma UnstoredPushes(t: Trees, msg: InboundMessage, limits: RelayLimits, res: Result<PushResult>)
    requires Safe(t) && RawPush(t, msg, limits, res, t)
    requires IdxKey(msg.recipient, InboundItem(msg)) in t.index || res.Err?
    ensures Pushes(t, msg, limits, res, t)
  {
    hide View, KeyOf, IdxKey, ReadSeq, NextSeq, QuotaOf, Bytes, Written, Indexed, Numbered, Exact, Clips, IsPush;
    if Exact(t) { UnstoredExact(t, msg, limits, res); }
  }

  lemma PushRefines(t: Trees, msg: InboundMessage, limits: RelayLimits, res: Result<PushResult>, t': Trees)
    requires Safe(t) && RawPush(t, msg, limits, res, t')
    ensures Pushes(t, msg, limits, res, t')
  {
    hide Safe, Pushes, Written, IdxKey, QuotaOf;
    if IdxKey(msg.recipient, InboundItem(msg)) in t.index || res.Err? {
      UnstoredPushes(t, msg, limits, res);
    } else {
      StoredPushes(t, msg, limits, res);
    }
  }

  // ---- acknowledge ----

  function Idxs(r: Text, items: set<AckItem>): set<Text> {
    set i | i in items :: IdxKey(r, i)
  }

  /** The transaction has applied the acknowledgements in `done` to `t`, giving `t'`. */
  ghost predicate AckedTrees(t: Trees, r: Text, done: set<AckItem>, t': Trees)
    requires Safe(t)
  {
    && Safe(t')
    && t'.quota == t.quota && t'.seqs == t.seqs && t'.index == t.index - Idxs(r, done)
    && View(t'.messages, r) == View(t.messages, r) - Named(View(t.messages, r), done)
    && (forall r' :: r' != r ==> View(t'.messages, r') == View(t.messages, r'))
  }

  /** Its counters, and `quota`, its local copy of the quota record, not yet written. */
  ghost predicate AckedCounts(q: map<u64, QueueMessage>, before: QuotaValue, done: set<AckItem>,
                              q': map<u64, QueueMessage>, o: AckOutcome, quota: QuotaValue) {
    && q' == q - Named(q, done)
    && o.deleted == |Named(q, done)| && o.deleted + o.missing == |done| && o.remaining == 0
    && quota.count == before.count - o.deleted
    && quota.bytes == before.bytes - (Bytes(q) - Bytes(q'))
  }

  ghost predicate Acked(t: Trees, r: Text, done: set<AckItem>, t': Trees, o: AckOutcome, quota: QuotaValue) {
    && Safe(t)
    && AckedTrees(t, r, done, t')
    && AckedCounts(View(t.messages, r), QuotaOf(t.quota, r), done, View(t'.messages, r), o, quota)
  }

  lemma AckStart(t: Trees, r: Text)
    requires Safe(t)
    ensures Acked(t, r, {}, t, AckOutcome(0, 0, 0), QuotaOf(t.quota, r))
  {
    hide View, QuotaOf, Bytes, Covers, Indexed, Numbered, WellKeyed;
    var q := View(t.messages, r);
    assert Named(q, {}) == {} && q - {} == q;
    assert Idxs(r, {}) == {} && t.index - {} == t.index;
  }

  lemma IdxsStep(index: map<Text, Text>, r: Text, done: set<AckItem>, item: AckItem)
    ensures index - Idxs(r, done) - {IdxKey(r, item)} == index - Idxs(r, done + {item})
  {
    assert Idxs(r, done + {item}) == Idxs(r, done) + {IdxKey(r, item)};
  }

  lemma NamedHit(l: Log, r: Text, done: set<AckItem>, item: AckItem, s: u64)
    requires WellFormed(r, l) && item !in done
    requires s in l.q && ItemOf(l.q[s]) == item
    ensures s !in Named(l.q, done) && Named(l.q, done + {item}) == Named(l.q, done) + {s}
    ensures l.q - Named(l.q, done) - {s} == l.q - Named(l.q, done + {item})
  {
  }

  lemma NamedMiss(q: map<u64, QueueMessage>, done: set<AckItem>, item: AckItem)
    requires item !in done && !Queued(q - Named(q, done), item)
    ensures Named(q, done + {item}) == Named(q, done)
  {
    var rest := q - Named(q, done);
    assert forall s :: s in q && ItemOf(q[s]) == item ==> s in rest && rest[s] == q[s];
  }

  lemma TreesHit(t: Trees, r: Text, done: set<AckItem>, t': Trees, item: AckItem, s: u64, k: Text, t'': Trees)
    requires Safe(t) && AckedTrees(t, r, done, t') && item !in done
    requires IdxKey(r, item) in t'.index && DecodeU64(t'.index[IdxKey(r, item)]) == Ok(s)
    requires k == MessageKey(r, s, item.messageId, item.chunkIndex) && k in t'.messages
    requires t'' == t'.(messages := t'.messages - {k}, index := t'.index - {IdxKey(r, item)})
    ensures AckedTrees(t, r, done + {item}, t'')
    ensures var q, q' := View(t.messages, r), View(t'.messages, r);
            && s in q && ItemOf(q[s]) == item && s in q' && q'[s] == t'.messages[k]
            && View(t''.messages, r) == q' - {s}
  {
    hide View, KeyOf, QuotaOf, Bytes, Indexed, Numbered, WellFormed, Named, Idxs, Covers;
    LookUp(t', r, item, s);
    ViewWellFormed(t, r);
    assert IdxOf(t'.messages[k]) == IdxKey(r, item);
    RemoveSafe(t', k);
    NamedHit(ViewLog(t, r), r, done, item, s);
    IdxsStep(t.index, r, done, item);
    forall r' ensures View(t''.messages, r') == if r' == r then View(t'.messages, r) - {s} else View(t'.messages, r') {
      ViewRemove(t'.messages, k, r');
    }
  }

  lemma CountsHit(l: Log, r: Text, before: QuotaValue, done: set<AckItem>, q': map<u64, QueueMessage>,
                  o: AckOutcome, quota: QuotaValue, item: AckItem, s: u64)
    requires WellFormed(r, l) && before.count >= |l.q| && before.bytes >= Bytes(l.q)
    requires AckedCounts(l.q, before, done, q', o, quota)
    requires item !in done && |done| < U64_MAX && s in l.q && s in q' && ItemOf(l.q[s]) == item
    ensures AckedCounts(l.q, before, done + {item}, q' - {s}, o.(deleted := SatAdd(o.deleted, 1)),
                        QuotaValue(SatSub(quota.bytes, q'[s].payloadBytes), SatSub(quota.count, 1)))
  {
    hide Bytes, WellFormed, ItemOf, Named;
    NamedHit(l, r, done, item, s);
    RemoveOne(q', s);
    NamedSubset(l.q, done);
  }

  lemma NamedSubset(q: map<u64, QueueMessage>, done: set<AckItem>)
    ensures Named(q, done) <= q.Keys && |q - Named(q, done)| == |q| - |Named(q, done)|
  {
    Runs.NamedSize(q, done);
  }

  /** An entry that leads to a queued message: message and entry go, the quota shrinks. */
  lemma AckHit(t: Trees, r: Text, done: set<AckItem>, t': Trees, o: AckOutcome, quota: QuotaValue,
               item: AckItem, s: u64, k: Text, m: QueueMessage, t'': Trees)
    requires IdxKey(r, item) in t'.index && DecodeU64(t'.index[IdxKey(r, item)]) == Ok(s)
    requires Safe(t) && Safe(t') && Acked(t, r, done, t', o, quota) && item !in done && |done| < U64_MAX
    requires k == MessageKey(r, s, item.messageId, item.chunkIndex) && k in t'.messages && t'.messages[k] == m
    requires t'' == t'.(messages := t'.messages - {k}, index := t'.index - {IdxKey(r, item)})
    ensures Acked(t, r, done + {item}, t'', o.(deleted := SatAdd(o.deleted, 1)),
                  QuotaValue(SatSub(quota.bytes, m.payloadBytes), SatSub(quota.count, 1)))
  {
    hide View, KeyOf, QuotaOf, Bytes, WellFormed, Named, Idxs, AckedTrees, AckedCounts, WellKeyed, Indexed, Numbered;
    TreesHit(t, r, done, t', item, s, k, t'');
    ViewWellFormed(t, r);
    assert Covers(t, r);
    CountsHit(ViewLog(t, r), r, QuotaOf(t.quota, r), done, View(t'.messages, r), o, quota, item, s);
  }

  /** An orphan entry, or none: the item counts as missing and no entry remains. */
  lemma AckMiss(t: Trees, r: Text, done: set<AckItem>, t': Trees, o: AckOutcome, quota: QuotaValue,
                item: AckItem, t'': Trees)
    requires Safe(t) && Safe(t') && Acked(t, r, done, t', o, quota) && item !in done && |done| < U64_MAX
    requires !Queued(View(t'.messages, r), item)
    requires t'' == t'.(index := t'.index - {IdxKey(r, item)})
    ensures Acked(t, r, done + {item}, t'', o.(missing := SatAdd(o.missing, 1)), quota)
  {
    hide View, KeyOf, QuotaOf, Bytes, Idxs, Numbered, WellKeyed, Queued, Named;
    NamedMiss(View(t.messages, r), done, item);
    IdxsStep(t.index, r, done, item);
    OrphanSafe(t', r, item);
  }

  lemma EntryOfQueued(t: Trees, r: Text, item: AckItem, k: Text)
    requires WellKeyed(t.messages) && k in t.messages
    ensures IdxOf(t.messages[k]) == IdxKey(r, item) ==> Queued(View(t.messages, r), item)
  {
    hide View, KeyOf;
    var m := t.messages[k];
    if IdxOf(m) == IdxKey(r, item) {
      IndexKeyInjective(m.recipient, m.messageId, m.meta.chunkIndex, r, item.messageId, item.chunkIndex);
      assert ItemOf(View(t.messages, r)[m.arrivalSeq]) == item;
    }
  }

  lemma OrphanSafe(t: Trees, r: Text, item: AckItem)
    requires Safe(t) && !Queued(View(t.messages, r), item)
    ensures Safe(t.(index := t.index - {IdxKey(r, item)}))
  {
    hide View, KeyOf, QuotaOf, Bytes, WellKeyed, Queued, IdxOf, IdxKey;
    forall k | k in t.messages ensures IdxOf(t.messages[k]) != IdxKey(r, item) {
      EntryOfQueued(t, r, item, k);
    }
    CoversOnly(t, t.(index := t.index - {IdxKey(r, item)}));
  }

  /** What an acknowledgement does to the trees, whether or not quotas are exact. */
  ghost predicate Acks(t: Trees, r: Text, items: seq<AckItem>, o: AckOutcome, t': Trees)
    requires Safe(t)
  {
    var q := View(t.messages, r);
    var named := Named(q, Elements(items));
    && Safe(t')
    && t'.seqs == t.seqs && t'.index == t.index - Idxs(r, Elements(items))
    && (forall r' :: View(t'.messages, r') == if r' == r then q - named else View(t.messages, r'))
    && (forall r' :: Excess(t', r') == Excess(t, r'))
    && Orphans(t') == Orphans(t) - Idxs(r, Elements(items))
    && o.deleted == |named| && o.deleted + o.missing == |Elements(items)|
    && o.remaining == QuotaOf(t'.quota, r).count
    && (Exact(t) ==> Exact(t') && Step(r, ViewLog(t, r), Event.Ack(items, o), ViewLog(t', r)))
  }

  lemma CountsCover(q: map<u64, QueueMessage>, before: QuotaValue, done: set<AckItem>,
                    q': map<u64, QueueMessage>, o: AckOutcome, quota: QuotaValue)
    requires AckedCounts(q, before, done, q', o, quota) && before.count >= |q| && before.bytes >= Bytes(q)
    ensures quota.count - |q'| == before.count - |q| && quota.bytes - Bytes(q') == before.bytes - Bytes(q)
    ensures quota.count >= |q'| && quota.bytes >= Bytes(q')
  {
    hide Bytes, Named;
    NamedSubset(q, done);
  }

  lemma AckedCover(t: Trees, r: Text, done: set<AckItem>, t': Trees, o: AckOutcome, quota: QuotaValue)
    requires Safe(t) && Safe(t') && Acked(t, r, done, t', o, quota)
    ensures quota.count >= |View(t'.messages, r)| && quota.bytes >= Bytes(View(t'.messages, r))
    ensures quota.count - |View(t'.messages, r)| == Excess(t, r).0
    ensures quota.bytes - Bytes(View(t'.messages, r)) == Excess(t, r).1
  {
    hide View, KeyOf, QuotaOf, Bytes, Indexed, Numbered, WellKeyed, AckedCounts, AckedTrees;
    assert Covers(t, r);
    CountsCover(View(t.messages, r), QuotaOf(t.quota, r), done, View(t'.messages, r), o, quota);
  }

  /** Writing back `r`'s quota leaves every recipient's excess as it was. */
  lemma ExcessKept(t: Trees, r: Text, t': Trees, quota: QuotaValue, r': Text)
    requires WellKeyed(t.messages) && WellKeyed(t'.messages) && t'.quota == t.quota
    requires r' != r ==> View(t'.messages, r') == View(t.messages, r')
    requires quota.count - |View(t'.messages, r)| == Excess(t, r).0
    requires quota.bytes - Bytes(View(t'.messages, r)) == Excess(t, r).1
    ensures Excess(t'.(quota := t'.quota[QuotaKey(r) := quota]), r') == Excess(t, r')
  {
    hide View, KeyOf, QuotaOf, Bytes, WellKeyed, QuotaKey;
    QuotaWrite(t'.quota, r, quota, r');
  }

  lemma AckedOrphans(t: Trees, r: Text, done: set<AckItem>, t': Trees)
    requires Safe(t) && Safe(t') && AckedTrees(t, r, done, t')
    ensures Orphans(t') == Orphans(t) - Idxs(r, done)
  {
    hide View, KeyOf, Covers, Indexed, Numbered, IdxKey, Idxs;
    forall k | k in t'.index ensures Leads(t.messages, k) <==> Leads(t'.messages, k) {
      if Leads(t.messages, k) {
        var j :| j in t.messages && IdxOf(t.messages[j]) == k;
        var m := t.messages[j];
        NotCleared(r, done, m);
        StaysQueued(t, r, done, t', m);
        assert IdxOf(t'.messages[KeyOf(m)]) == k;
      }
      if Leads(t'.messages, k) {
        var j :| j in t'.messages && IdxOf(t'.messages[j]) == k;
        WasQueued(t, r, done, t', t'.messages[j]);
        assert IdxOf(t.messages[j]) == k;
      }
    }
  }

  lemma WasQueued(t: Trees, r: Text, done: set<AckItem>, t': Trees, m: QueueMessage)
    requires Safe(t) && Safe(t') && AckedTrees(t, r, done, t')
    requires KeyOf(m) in t'.messages && t'.messages[KeyOf(m)] == m
    ensures KeyOf(m) in t.messages && t.messages[KeyOf(m)] == m
  {
    hide KeyOf, Covers, Indexed, Numbered;
    var q, q' := View(t.messages, m.recipient), View(t'.messages, m.recipient);
    assert m.arrivalSeq in q' && q'[m.arrivalSeq] == m;
    assert m.arrivalSeq in q && q[m.arrivalSeq] == m;
  }

  lemma NotCleared(r: Text, done: set<AckItem>, m: QueueMessage)
    ensures m.recipient == r && ItemOf(m) in done ==> IdxOf(m) in Idxs(r, done)
  {
  }

  lemma StaysQueued(t: Trees, r: Text, done: set<AckItem>, t': Trees, m: QueueMessage)
    requires Safe(t) && Safe(t') && AckedTrees(t, r, done, t')
    requires KeyOf(m) in t.messages && t.messages[KeyOf(m)] == m && !(m.recipient == r && ItemOf(m) in done)
    ensures KeyOf(m) in t'.messages && t'.messages[KeyOf(m)] == m
  {
    hide KeyOf, Covers, Indexed, Numbered;
    var q, q' := View(t.messages, m.recipient), View(t'.messages, m.recipient);
    assert m.arrivalSeq in q && q[m.arrivalSeq] == m;
    assert m.arrivalSeq in q' && q'[m.arrivalSeq] == m;
  }

  lemma AckWritten(t: Trees, r: Text, done: set<AckItem>, t': Trees, o: AckOutcome, quota: QuotaValue, t'': Trees)
    requires Safe(t) && Safe(t') && Acked(t, r, done, t', o, quota)
    requires t'' == t'.(quota := t'.quota[QuotaKey(r) := quota])
    ensures Safe(t'') && QuotaOf(t''.quota, r) == quota
    ensures forall r' :: Excess(t'', r') == Excess(t, r')
    ensures Orphans(t'') == Orphans(t) - Idxs(r, done)
  {
    hide View, KeyOf, QuotaOf, Bytes, Named, Indexed, Numbered, WellKeyed, Idxs, QuotaKey, Covers, Excess, Orphans, AckedCounts;
    AckedCover(t, r, done, t', o, quota);
    QuotaWriteSafe(t', r, quota);
    forall r' ensures Excess(t'', r') == Excess(t, r') { ExcessKept(t, r, t', quota, r'); }
    QuotaWrite(t'.quota, r, quota, r);
    AckedOrphans(t, r, done, t');
    SameOrphans(t', t'');
  }

  lemma AckDone(t: Trees, r: Text, items: seq<AckItem>, t': Trees, o: AckOutcome, quota: QuotaValue, t'': Trees)
    requires Safe(t) && Safe(t') && Acked(t, r, Elements(items), t', o, quota)
    requires t'' == t'.(quota := t'.quota[QuotaKey(r) := quota])
    ensures Acks(t, r, items, o.(remaining := quota.count), t'')
  {
    hide View, KeyOf, QuotaOf, Bytes, Named, Indexed, Numbered, WellKeyed, Idxs, QuotaKey, Covers, Excess, Orphans, Step;
    AckWritten(t, r, Elements(items), t', o, quota, t'');
    if Exact(t) { ExactAck(t, r, items, o.(remaining := quota.count), t''); }
  }

  lemma SameOrphans(a: Trees, b: Trees)
    requires a.index == b.index && a.messages == b.messages
    ensures Orphans(b) == Orphans(a)
  {
  }

  lemma ExactAck(t: Trees, r: Text, items: seq<AckItem>, o: AckOutcome, t': Trees)
    requires Exact(t) && Safe(t') && t'.seqs == t.seqs && Excess(t', r) == (0, 0)
    requires var q := View(t.messages, r); var named := Named(q, Elements(items));
             && View(t'.messages, r) == q - named
             && o.deleted == |named| && o.deleted + o.missing == |Elements(items)|
             && o.remaining == QuotaOf(t'.quota, r).count
    ensures Step(r, ViewLog(t, r), Event.Ack(items, o), ViewLog(t', r))
  {
    hide View, KeyOf, QuotaOf, Bytes, Named, Indexed, Numbered, WellKeyed;
  }

  /** The store is its four trees; each method below is one operation of the source. */
  class SledStore {
    var messages: map<Text, QueueMessage>
    var index: map<Text, Text>
    var quota: map<Text, QuotaValue>
    var seqs: map<Text, Text>

    function T(): Trees
      reads this
    {
      Trees(messages, index, quota, seqs)
    }

    ghost predicate Valid()
      reads this
    {
      Safe(T())
    }

    constructor ()
      ensures Valid() && Exact(T()) && T() == NO_TREES
    {
      messages, index, quota, seqs := map[], map[], map[], map[];
      EmptyExact();
    }

    /** One transaction over all four trees. */
    method Push(msg: InboundMessage, limits: RelayLimits) returns (res: Result<PushResult>)
      requires Valid()
      modifies this
      ensures Pushes(old(T()), msg, limits, res, T())
    {
      hide Safe, Pushes, QuotaOf, QuotaKey, SeqKey, KeyOf, IdxKey, EncodeU64, DecodeU64;
      ghost var t := T();
      var idxKey := IdxKey(msg.recipient, InboundItem(msg));
      var quotaValue := QuotaOf(quota, msg.recipient);
      if idxKey in index {
        res := Ok(PushResult(false, true, quotaValue.count, quotaValue.bytes));
        PushRefines(t, msg, limits, res, t);
        return;
      }
      var nextCount := SatAdd(quotaValue.count, 1);
      if nextCount > limits.maxMessagesPerUser {
        PushRefines(t, msg, limits, Err(QuotaExceeded), t);
        return Err(QuotaExceeded);
      }
      var nextBytes := SatAdd(quotaValue.bytes, msg.payloadBytes);
      if nextBytes > limits.maxQueueBytesPerUser {
        PushRefines(t, msg, limits, Err(QuotaExceeded), t);
        return Err(QuotaExceeded);
      }
      var current := ReadSeq(seqs, msg.recipient);
      SeqReadable(t, msg.recipient);
      var arrivalSeq := current.value;
      var stored := Stored(msg, arrivalSeq);
      res := Ok(PushResult(true, false, nextCount, nextBytes));
      PushRefines(t, msg, limits, res, Written(t, msg));
      messages := messages[KeyOf(stored) := stored];
      index := index[idxKey := EncodeU64(arrivalSeq)];
      quota := quota[QuotaKey(msg.recipient) := QuotaValue(nextBytes, nextCount)];
      seqs := seqs[SeqKey(msg.recipient) := EncodeU64(SatAdd(arrivalSeq, 1))];
    }

    /** Reads only; the scan order and every parse error are those of `PullOf`. */
    method Pull(recipient: Text, cursor: Option<Cursor>, limit: u64, now: u64) returns (res: Result<PullBatch>)
      ensures res == PullOf(T(), recipient, cursor, limit, now)
      ensures Valid() && Readable(messages, recipient) ==> PullsPage(T(), recipient, cursor, limit, now, res)
    {
      hide Safe, Readable, PullsPage, ScanKeys, ParseSeqFromKey, HasPrefix, QuotaOf, EncodeCursor;
      if Valid() && Readable(messages, recipient) {
        PullIsPage(T(), recipient, cursor, limit, now);
      }
      var start := Resume(recipient, cursor);
      if start.Err? {
        return Err(start.error);
      }
      var limitSize := EffectiveLimit(limit);
      var page := ScanLoop(messages, ScanKeys(messages, recipient), start.value, limitSize, now);
      if page.Err? {
        return Err(page.error);
      }
      var quotaValue := QuotaOf(quota, recipient);
      res := Ok(Batch(recipient, page.value, quotaValue.count));
    }

    /** One transaction over messages, index and quota. */
    method Ack(recipient: Text, items: seq<AckItem>) returns (outcome: AckOutcome)
      requires Valid() && |items| <= U64_MAX
      modifies this
      ensures Acks(old(T()), recipient, items, outcome, T())
    {
      hide Safe, Acked, Acks, QuotaOf, QuotaKey, View;
      ghost var t := T();
      var todo := Elements(items);
      var quotaValue := QuotaOf(quota, recipient);
      outcome := AckOutcome(0, 0, 0);
      ElementsSize(items);
      AckStart(t, recipient);
      ghost var done: set<AckItem> := {};
      while todo != {}
        invariant done + todo == Elements(items) && done !! todo
        invariant Safe(T()) && Acked(t, recipient, done, T(), outcome, quotaValue)
        decreases todo
      {
        var item :| item in todo;
        SubsetSize(done + {item}, Elements(items));
        outcome, quotaValue := AckOne(t, recipient, done, item, outcome, quotaValue);
        done, todo := done + {item}, todo - {item};
      }
      ghost var t' := T();
      quota := quota[QuotaKey(recipient) := quotaValue];
      assert done == Elements(items);
      AckDone(t, recipient, items, t', outcome, quotaValue, T());
      outcome := outcome.(remaining := quotaValue.count);
    }

    /** The body of the transaction's loop for one item. */
    method AckOne(ghost t: Trees, recipient: Text, ghost done: set<AckItem>, item: AckItem, o: AckOutcome, q: QuotaValue)
      returns (outcome: AckOutcome, quotaValue: QuotaValue)
      requires Safe(T()) && Acked(t, recipient, done, T(), o, q) && item !in done && |done| < U64_MAX
      modifies this`messages, this`index
      ensures Safe(T()) && Acked(t, recipient, done + {item}, T(), outcome, quotaValue)
    {
      hide Safe, AckedTrees, AckedCounts, QuotaOf, MessageKey, IdxKey, DecodeU64, View, Queued;
      outcome, quotaValue := o, q;
      ghost var t' := T();
      var idxKey := IdxKey(recipient, item);
      if idxKey in index {
        IndexReadable(t', idxKey);
        var s := DecodeU64(index[idxKey]).value;
        var msgKey := MessageKey(recipient, s, item.messageId, item.chunkIndex);
        LookUpSafe(t', recipient, item, s);
        if msgKey in messages {
          var msg := messages[msgKey];
          messages := messages - {msgKey};
          index := index - {idxKey};
          AckHit(t, recipient, done, t', o, q, item, s, msgKey, msg, T());
          quotaValue := QuotaValue(SatSub(q.bytes, msg.payloadBytes), SatSub(q.count, 1));
          outcome := o.(deleted := SatAdd(o.deleted, 1));
        } else {
          index := index - {idxKey};
          AckMiss(t, recipient, done, t', o, q, item, T());
          outcome := o.(missing := SatAdd(o.missing, 1));
        }
      } else {
        NotIndexed(t', recipient, item);
        assert T() == t'.(index := t'.index - {idxKey});
        AckMiss(t, recipient, done, t', o, q, item, T());
        outcome := o.(missing := SatAdd(o.missing, 1));
      }
      AckedSafe(t, recipient, done + {item}, T(), outcome, quotaValue);
    }

    /** Not a transaction: of the storage calls it makes, the first `budget` succeed
        and the next one, if any, fails and ends it. */
    method PurgeExpired(now: u64, max: nat, budget: nat) returns (res: Result<nat>)
      requires Valid()
      modifies this
      ensures Purged(old(T()), now, max, res, T())
      ensures budget >= 5 * |old(messages)| ==> res.Ok?
    {
      hide Safe, Passed, Purged, QuotaOf, IdxKey, TextLt, AllKeys;
      ghost var t := T();
      var removed: nat := 0;
      var target := Min(max, GC_BATCH_LIMIT);
      var quotas: map<Text, QuotaValue> := map[];
      var left: nat := budget;
      var keys := AllKeys(messages);
      PassedStart(t, now);
      var i := 0;
      while i < |keys|
        invariant i <= |keys| && removed <= i && removed <= target && |quotas| <= removed
        invariant left + 4 * i >= budget
        invariant Passed(t, keys, i, now, T(), quotas, removed)
      {
        if removed >= target {
          break;
        }
        PassedNext(t, keys, i, now, T(), quotas, removed);
        PassedFails(t, keys, i, now, max, T(), quotas, removed);
        if left == 0 {
          return Err(Storage);
        }
        left := left - 1;
        var key := keys[i];
        var msg := messages[key];
        if !Expired(msg, now) {
          PassedLive(t, keys, i, now, T(), quotas, removed);
          i := i + 1;
          continue;
        }
        var ok;
        ok, quotas, left := RemoveDue(t, keys, i, now, max, quotas, removed, key, msg, left);
        if !ok {
          return Err(Storage);
        }
        removed := removed + 1;
        i := i + 1;
      }
      res, left := WriteQuotas(t, keys, i, now, max, quotas, removed, left);
    }

    /** The body of the first loop for one expired message; `ok` is false when a
        storage call fails on the way. */
    method RemoveDue(ghost t: Trees, ghost keys: seq<Text>, ghost i: nat, now: u64, ghost max: nat,
                     quotas: map<Text, QuotaValue>, ghost removed: nat, key: Text, msg: QueueMessage, budget: nat)
      returns (ok: bool, quotas': map<Text, QuotaValue>, left: nat)
      requires Safe(t) && Passed(t, keys, i, now, T(), quotas, removed) && i < |keys| && key == keys[i]
      requires key in messages && messages[key] == msg && Expired(msg, now) && removed < Min(max, GC_BATCH_LIMIT)
      modifies this`messages, this`index
      ensures ok ==> Passed(t, keys, i + 1, now, T(), quotas', removed + 1) && |quotas'| <= |quotas| + 1
      ensures !ok ==> Purged(t, now, max, Err(Storage), T()) && budget < 3
      ensures left + 3 >= budget
    {
      hide Safe, Passed, Purged, QuotaOf, IdxKey, TextLt, AllKeys, Spent, Expired, Min, ItemOf, KeyOf, DueOf, SledPurge.Plan, WellKeyed;
      left, quotas' := budget, quotas;
      ghost var t' := T();
      DueRound(t, keys, i, now, max, t', quotas, removed, key, msg);
      var idxKey := IdxKey(msg.recipient, ItemOf(msg));
      if left == 0 {
        return false, quotas', left;
      }
      left := left - 1;
      messages := messages - {key};
      assert T() == t'.(messages := t'.messages - {key});
      if left == 0 {
        return false, quotas', left;
      }
      left := left - 1;
      index := index - {idxKey};
      assert T() == t'.(messages := t'.messages - {key}, index := t'.index - {IdxOf(msg)});
      var quotaEntry;
      if msg.recipient in quotas {
        quotaEntry := quotas[msg.recipient];
      } else {
        if left == 0 {
          return false, quotas', left;
        }
        left := left - 1;
        quotaEntry := QuotaOf(quota, msg.recipient);
      }
      quotas' := quotas[msg.recipient := Spent(quotaEntry, msg)];
      assert quotas'.Keys == quotas.Keys + {msg.recipient};
      ok := true;
    }

    /** The second loop: each touched recipient's quota record is written. */
    method WriteQuotas(ghost t: Trees, ghost keys: seq<Text>, ghost i: nat, ghost now: u64, ghost max: nat,
                       quotas: map<Text, QuotaValue>, removed: nat, budget: nat) returns (res: Result<nat>, left: nat)
      requires Safe(t) && Passed(t, keys, i, now, T(), quotas, removed)
      requires removed <= Min(max, GC_BATCH_LIMIT) && (i == |keys| || removed == Min(max, GC_BATCH_LIMIT))
      modifies this`quota
      ensures Purged(t, now, max, res, T())
      ensures budget >= |quotas| ==> res.Ok?
    {
      hide Safe, Passed, Purged, QuotaOf, QuotaKey, Writing;
      left := budget;
      ghost var t' := T();
      WriteStart(t, keys, i, now, t', quotas, removed);
      PassedFails(t, keys, i, now, max, t', quotas, removed);
      var todo := quotas.Keys;
      ghost var done: set<Text> := {};
      while todo != {}
        invariant messages == t'.messages && index == t'.index && seqs == t'.seqs
        invariant done + todo == quotas.Keys && done !! todo
        invariant left + |quotas| >= budget + |todo|
        invariant Safe(T()) && Writing(t, T(), quotas, done)
        invariant Purged(t, now, max, Err(Storage), T())
        decreases todo
      {
        var recipient :| recipient in todo;
        if left == 0 {
          return Err(Storage), left;
        }
        left := left - 1;
        ghost var t1 := T();
        quota := quota[QuotaKey(recipient) := quotas[recipient]];
        WriteOne(t, t1, quotas, done, recipient, T());
        WrittenFails(t, now, max, t1, quotas, done + {recipient}, T());
        done, todo := done + {recipient}, todo - {recipient};
      }
      assert done == quotas.Keys;
      WritesKeepExcess(t, T(), quotas);
      PurgeDone(t, keys, i, now, max, t', quotas, removed, T());
      res := Ok(removed);
    }
  }

  // ---- what the methods read from safe trees ----

  lemma SeqReadable(t: Trees, r: Text)
    requires Safe(t)
    ensures ReadSeq(t.seqs, r).Ok?
  {
  }

  lemma IndexReadable(t: Trees, k: Text)
    requires Safe(t) && k in t.index
    ensures DecodeU64(t.index[k]).Ok?
  {
  }

  lemma LookUpSafe(t: Trees, r: Text, item: AckItem, s: u64)
    requires Safe(t) && IdxKey(r, item) in t.index && DecodeU64(t.index[IdxKey(r, item)]) == Ok(s)
    ensures WellKeyed(t.messages)
    ensures MessageKey(r, s, item.messageId, item.chunkIndex) !in t.messages ==> !Queued(View(t.messages, r), item)
  {
    hide View, KeyOf;
    LookUp(t, r, item, s);
  }

  lemma NotIndexed(t: Trees, r: Text, item: AckItem)
    requires Safe(t) && IdxKey(r, item) !in t.index
    ensures WellKeyed(t.messages) && !Queued(View(t.messages, r), item) && t.index - {IdxKey(r, item)} == t.index
  {
    hide View, KeyOf;
    IndexLeads(t, r, item);
  }

  lemma AckedSafe(t: Trees, r: Text, done: set<AckItem>, t': Trees, o: AckOutcome, quota: QuotaValue)
    requires Safe(t) && Acked(t, r, done, t', o, quota)
    ensures Safe(t') && t'.quota == t.quota && t'.seqs == t.seqs
  {
    hide View, KeyOf, Bytes, Named;
  }

  /** The scan loop of a pull. */
  method ScanLoop(ms: map<Text, QueueMessage>, keys: seq<Text>, start: Option<u64>, limitSize: nat, now: u64)
    returns (res: Result<Page>)
    requires forall k :: k in keys ==> k in ms
    ensures res == Scan(ms, keys, start, limitSize, now)
  {
    hide ParseSeqFromKey;
    var items := [];
    var i := 0;
    assert keys[0..] == keys;
    PrependTwice([], [], Scan(ms, keys, start, limitSize, now));
    while i < |keys|
      invariant i <= |keys| && |items| <= limitSize
      invariant forall k :: k in keys[i..] ==> k in ms
      invariant Scan(ms, keys, start, limitSize, now) == Prepend(items, Scan(ms, keys[i..], start, limitSize - |items|, now))
    {
      ghost var rest := keys[i + 1..];
      assert keys[i] == keys[i..][0] && rest == keys[i..][1..] && keys[i] in keys;
      var parsed := ParseSeqFromKey(keys[i]);
      if parsed.Err? {
        return Err(parsed.error);
      }
      if parsed.value.Some? {
        var s := parsed.value.value;
        if !Skipped(s, start) {
          var msg := ms[keys[i]];
          if !Expired(msg, now) {
            if |items| < limitSize {
              PrependTwice(items, [msg], Scan(ms, rest, start, limitSize - |items| - 1, now));
              items := items + [msg];
            } else {
              assert items + [] == items;
              return Ok(Page(items, true));
            }
          }
        }
      }
      i := i + 1;
    }
    assert keys[i..] == [] && items + [] == items;
    res := Ok(Page(items, false));
  }
}
