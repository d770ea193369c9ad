/** The four byte-keyed trees of the persistent store (src/store_sled.rs), the
    recipient queue they hold, and the invariants that tie them together. */
module SledTrees {
  import opened Machine
  import opened Text
  import opened Keys
  import opened Messages
  import opened Queue

  datatype QuotaValue = QuotaValue(bytes: u64, count: u64)

  datatype Trees = Trees(
    messages: map<Text, QueueMessage>, index: map<Text, Text>, quota: map<Text, QuotaValue>, seqs: map<Text, Text>)

  const NO_TREES := Trees(map[], map[], map[], map[])

  function KeyOf(m: QueueMessage): Text {
    MessageKey(m.recipient, m.arrivalSeq, m.messageId, m.meta.chunkIndex)
  }

  function IdxKey(r: Text, item: AckItem): Text {
    IndexKey(r, item.messageId, item.chunkIndex)
  }

  function IdxOf(m: QueueMessage): Text {
    IdxKey(m.recipient, ItemOf(m))
  }

  /** `read_quota_tree` and `read_quota_tx`: a missing record counts as zero. */
  function QuotaOf(quota: map<Text, QuotaValue>, r: Text): QuotaValue {
    if QuotaKey(r) in quota then quota[QuotaKey(r)] else QuotaValue(0, 0)
  }

  function ReadSeq(seqs: map<Text, Text>, r: Text): Result<u64> {
    if SeqKey(r) in seqs then DecodeU64(seqs[SeqKey(r)]) else Ok(0)
  }

  function NextSeq(seqs: map<Text, Text>, r: Text): u64 {
    var d := ReadSeq(seqs, r);
    if d.Ok? then d.value else 0
  }

  // ---- the queue inside the trees ----

  ghost predicate WellKeyed(ms: map<Text, QueueMessage>) {
    && (forall k :: k in ms ==> k == KeyOf(ms[k]))
    && (forall j, k :: (j in ms && k in ms && ms[j].recipient == ms[k].recipient && ms[j].arrivalSeq == ms[k].arrivalSeq)
                       ==> j == k)
  }

  /** Recipient `r`'s messages, by arrival number. */
  ghost function View(ms: map<Text, QueueMessage>, r: Text): (q: map<u64, QueueMessage>)
    requires WellKeyed(ms)
    ensures forall s :: s in q ==> KeyOf(q[s]) in ms && ms[KeyOf(q[s])] == q[s] &&
                                   q[s].recipient == r && q[s].arrivalSeq == s
    ensures forall k :: k in ms && ms[k].recipient == r ==> ms[k].arrivalSeq in q && q[ms[k].arrivalSeq] == ms[k]
  {
    map k | k in ms && ms[k].recipient == r :: ms[k].arrivalSeq := ms[k]
  }

  ghost function ViewLog(t: Trees, r: Text): Log
    requires WellKeyed(t.messages)
  {
    Log(NextSeq(t.seqs, r), View(t.messages, r))
  }

  lemma ViewIs(ms: map<Text, QueueMessage>, r: Text, q: map<u64, QueueMessage>)
    requires WellKeyed(ms)
    requires forall s :: s in q ==> KeyOf(q[s]) in ms && ms[KeyOf(q[s])] == q[s] && q[s].recipient == r && q[s].arrivalSeq == s
    requires forall k :: k in ms && ms[k].recipient == r ==> ms[k].arrivalSeq in q && q[ms[k].arrivalSeq] == ms[k]
    ensures View(ms, r) == q
  {
    hide KeyOf;
    var v := View(ms, r);
    assert forall s :: s in v ==> s in q && q[s] == v[s];
    assert forall s :: s in q ==> s in v && v[s] == q[s];
  }

  lemma ViewRemove(ms: map<Text, QueueMessage>, k: Text, r: Text)
    requires WellKeyed(ms) && k in ms
    ensures WellKeyed(ms - {k})
    ensures View(ms - {k}, r) == if ms[k].recipient == r then View(ms, r) - {ms[k].arrivalSeq} else View(ms, r)
  {
    hide KeyOf, View;
    var q := if ms[k].recipient == r then View(ms, r) - {ms[k].arrivalSeq} else View(ms, r);
    ViewIs(ms - {k}, r, q);
  }

  lemma ViewInsert(ms: map<Text, QueueMessage>, m: QueueMessage, r: Text)
    requires WellKeyed(ms) && m.arrivalSeq !in View(ms, m.recipient)
    ensures KeyOf(m) !in ms && WellKeyed(ms[KeyOf(m) := m])
    ensures View(ms[KeyOf(m) := m], r) ==
            if m.recipient == r then View(ms, r)[m.arrivalSeq := m] else View(ms, r)
  {
    hide KeyOf, View;
    KeyFresh(ms, m);
    InsertKeyed(ms, m);
    ViewIs(ms[KeyOf(m) := m], r, if m.recipient == r then View(ms, r)[m.arrivalSeq := m] else View(ms, r));
  }

  lemma InsertKeyed(ms: map<Text, QueueMessage>, m: QueueMessage)
    requires WellKeyed(ms) && m.arrivalSeq !in View(ms, m.recipient)
    ensures WellKeyed(ms[KeyOf(m) := m])
  {
    hide KeyOf, View;
  }

  lemma KeyFresh(ms: map<Text, QueueMessage>, m: QueueMessage)
    requires WellKeyed(ms) && m.arrivalSeq !in View(ms, m.recipient)
    ensures KeyOf(m) !in ms
  {
    if KeyOf(m) in ms {
      var o := ms[KeyOf(m)];
      MessageKeyInjective(o.recipient, o.arrivalSeq, o.messageId, o.meta.chunkIndex,
                          m.recipient, m.arrivalSeq, m.messageId, m.meta.chunkIndex);
    }
  }

  /** Only expired messages are gone. */
  ghost predicate OnlyExpired(ms: map<Text, QueueMessage>, ms': map<Text, QueueMessage>, now: u64) {
    && (forall k :: k in ms' ==> k in ms && ms'[k] == ms[k])
    && (forall k :: k in ms && k !in ms' ==> Expired(ms[k], now))
  }

  // ---- invariants ----

  ghost predicate Indexed(t: Trees) {
    && (forall k :: k in t.messages ==>
          IdxOf(t.messages[k]) in t.index && t.index[IdxOf(t.messages[k])] == EncodeU64(t.messages[k].arrivalSeq))
    && (forall k :: k in t.index ==> DecodeU64(t.index[k]).Ok?)
  }

  ghost predicate Numbered(t: Trees) {
    && (forall k :: k in t.messages ==> t.messages[k].arrivalSeq < NextSeq(t.seqs, t.messages[k].recipient))
    && (forall r :: ReadSeq(t.seqs, r).Ok?)
  }

  /** By how many messages and bytes the recorded quota of `r` exceeds the truth. */
  ghost function Excess(t: Trees, r: Text): (int, int)
    requires WellKeyed(t.messages)
  {
    (QuotaOf(t.quota, r).count - |View(t.messages, r)|, QuotaOf(t.quota, r).bytes - Bytes(View(t.messages, r)))
  }

  ghost predicate Covers(t: Trees, r: Text)
    requires WellKeyed(t.messages)
  {
    Excess(t, r).0 >= 0 && Excess(t, r).1 >= 0
  }

  /** What holds at every moment, also after a purge has stopped half-way: every
      queued message has its own index entry with its number, numbers are below
      the counter, and no quota is under-counted. The last presumes that nobody adds to
      a queue whose quota a running purge holds; `SledInterleave` does not. */
  ghost predicate Safe(t: Trees) {
    && WellKeyed(t.messages) && Indexed(t) && Numbered(t)
    && forall r :: Covers(t, r)
  }

  /** The index entry `k` is that of a message. */
  ghost predicate Leads(ms: map<Text, QueueMessage>, k: Text) {
    exists j :: j in ms && IdxOf(ms[j]) == k
  }

  ghost function Orphans(t: Trees): set<Text> {
    set k | k in t.index && !Leads(t.messages, k)
  }

  /** No index entry without its message. */
  ghost predicate NoOrphans(t: Trees) {
    Orphans(t) == {}
  }

  /** What holds while every purge completes: index and messages are in bijection
      and every quota is exact. */
  ghost predicate Exact(t: Trees) {
    Safe(t) && NoOrphans(t) && forall r :: Excess(t, r) == (0, 0)
  }

  lemma EmptyExact()
    ensures Exact(NO_TREES)
  {
    hide View, KeyOf, QuotaOf, IdxOf;
    forall r ensures View(NO_TREES.messages, r) == map[] && QuotaOf(NO_TREES.quota, r) == QuotaValue(0, 0) {
      ViewIs(NO_TREES.messages, r, map[]);
      NoQuota(r);
    }
    assert Bytes(map[]) == 0;
  }

  lemma NoQuota(r: Text)
    ensures QuotaOf(map[], r) == QuotaValue(0, 0)
  {
  }

  /** Index entries tell messages apart. */
  lemma SameItem(t: Trees, j: Text, k: Text)
    requires WellKeyed(t.messages) && Indexed(t) && j in t.messages && k in t.messages
    requires IdxOf(t.messages[j]) == IdxOf(t.messages[k])
    ensures j == k
  {
    var a, b := t.messages[j], t.messages[k];
    IndexKeyInjective(a.recipient, a.messageId, a.meta.chunkIndex, b.recipient, b.messageId, b.meta.chunkIndex);
    U64RoundTrip(a.arrivalSeq);
    U64RoundTrip(b.arrivalSeq);
  }

  lemma ViewWellFormed(t: Trees, r: Text)
    requires WellKeyed(t.messages) && Indexed(t) && Numbered(t)
    ensures WellFormed(r, ViewLog(t, r))
  {
    hide View, KeyOf;
    var q := View(t.messages, r);
    forall a, b | a in q && b in q && ItemOf(q[a]) == ItemOf(q[b]) ensures a == b {
      SameItem(t, KeyOf(q[a]), KeyOf(q[b]));
    }
  }

  lemma LeadsToQueued(t: Trees, r: Text, item: AckItem)
    requires WellKeyed(t.messages)
    ensures Leads(t.messages, IdxKey(r, item)) <==> Queued(View(t.messages, r), item)
  {
    hide View, KeyOf;
    var q := View(t.messages, r);
    if Queued(q, item) {
      var s :| s in q && ItemOf(q[s]) == item;
      assert IdxOf(t.messages[KeyOf(q[s])]) == IdxKey(r, item);
    }
    if Leads(t.messages, IdxKey(r, item)) {
      var j :| j in t.messages && IdxOf(t.messages[j]) == IdxKey(r, item);
      var m := t.messages[j];
      IndexKeyInjective(m.recipient, m.messageId, m.meta.chunkIndex, r, item.messageId, item.chunkIndex);
      assert ItemOf(q[m.arrivalSeq]) == item;
    }
  }

  /** Every queued message has its index entry, and an index entry means a queued
      message exactly when it is no orphan. */
  lemma IndexLeads(t: Trees, r: Text, item: AckItem)
    requires WellKeyed(t.messages) && Indexed(t)
    ensures Queued(View(t.messages, r), item) ==> IdxKey(r, item) in t.index
    ensures IdxKey(r, item) in Orphans(t) <==> IdxKey(r, item) in t.index && !Queued(View(t.messages, r), item)
    ensures NoOrphans(t) && IdxKey(r, item) in t.index ==> Queued(View(t.messages, r), item)
  {
    hide View, KeyOf, Queued;
    LeadsToQueued(t, r, item);
    assert NoOrphans(t) ==> IdxKey(r, item) !in Orphans(t);
  }

  /** The message an acknowledgement finds through the index is the queued one. */
  lemma LookUp(t: Trees, r: Text, item: AckItem, s: u64)
    requires WellKeyed(t.messages) && Indexed(t)
    requires IdxKey(r, item) in t.index && DecodeU64(t.index[IdxKey(r, item)]) == Ok(s)
    ensures var k := MessageKey(r, s, item.messageId, item.chunkIndex); var q := View(t.messages, r);
            && (k in t.messages ==> s in q && q[s] == t.messages[k] && ItemOf(q[s]) == item && KeyOf(q[s]) == k)
            && (k !in t.messages ==> !Queued(q, item))
  {
    var k := MessageKey(r, s, item.messageId, item.chunkIndex);
    var q := View(t.messages, r);
    if k in t.messages {
      var m := t.messages[k];
      MessageKeyInjective(m.recipient, m.arrivalSeq, m.messageId, m.meta.chunkIndex, r, s, item.messageId, item.chunkIndex);
    } else if Queued(q, item) {
      var s' :| s' in q && ItemOf(q[s']) == item;
      U64RoundTrip(s');
    }
  }

  // ---- single writes ----

  lemma CoversRemove(t: Trees, k: Text)
    requires WellKeyed(t.messages) && (forall r :: Covers(t, r)) && k in t.messages
    ensures WellKeyed(t.messages - {k}) && forall r :: Covers(t.(messages := t.messages - {k}), r)
  {
    hide View, KeyOf, Bytes, QuotaOf;
    var m := t.messages[k];
    ViewRemove(t.messages, k, m.recipient);
    forall r ensures Covers(t.(messages := t.messages - {k}), r) {
      ViewRemove(t.messages, k, r);
      assert Covers(t, r);
      if m.recipient == r { RemoveOne(View(t.messages, r), m.arrivalSeq); }
    }
  }

  lemma IndexedRemove(t: Trees, k: Text)
    requires WellKeyed(t.messages) && Indexed(t) && k in t.messages
    ensures Indexed(t.(messages := t.messages - {k}))
    ensures Indexed(t.(messages := t.messages - {k}, index := t.index - {IdxOf(t.messages[k])}))
  {
    hide KeyOf, IdxOf, WellKeyed;
    forall j | j in t.messages && j != k ensures IdxOf(t.messages[j]) != IdxOf(t.messages[k]) {
      if IdxOf(t.messages[j]) == IdxOf(t.messages[k]) { SameItem(t, j, k); }
    }
  }

  /** Removing a message, with or without its index entry, keeps the trees safe. */
  lemma RemoveSafe(t: Trees, k: Text)
    requires Safe(t) && k in t.messages
    ensures Safe(t.(messages := t.messages - {k}))
    ensures Safe(t.(messages := t.messages - {k}, index := t.index - {IdxOf(t.messages[k])}))
  {
    hide Covers, WellKeyed, Indexed;
    var a := t.(messages := t.messages - {k});
    var b := a.(index := t.index - {IdxOf(t.messages[k])});
    CoversRemove(t, k);
    IndexedRemove(t, k);
    CoversOnly(a, b);
  }

  lemma CoversOnly(a: Trees, b: Trees)
    requires WellKeyed(a.messages) && a.messages == b.messages && a.quota == b.quota && forall r :: Covers(a, r)
    ensures forall r :: Covers(b, r)
  {
    hide View, Bytes, QuotaOf, WellKeyed;
    forall r ensures Covers(b, r) { assert Covers(a, r); }
  }

  /** Writing one quota record changes one recipient's quota. */
  lemma QuotaWrite(quota: map<Text, QuotaValue>, r: Text, v: QuotaValue, r': Text)
    ensures QuotaOf(quota[QuotaKey(r) := v], r') == if r' == r then v else QuotaOf(quota, r')
  {
    RecipientKeysInjective(r, r');
  }

  lemma SeqWrite(seqs: map<Text, Text>, r: Text, n: u64, r': Text)
    ensures ReadSeq(seqs[SeqKey(r) := EncodeU64(n)], r') == if r' == r then Ok(n) else ReadSeq(seqs, r')
  {
    RecipientKeysInjective(r, r');
    U64RoundTrip(n);
  }

  lemma QuotaWriteSafe(t: Trees, r: Text, v: QuotaValue)
    requires Safe(t) && v.count >= |View(t.messages, r)| && v.bytes >= Bytes(View(t.messages, r))
    ensures Safe(t.(quota := t.quota[QuotaKey(r) := v]))
  {
    hide View, KeyOf, Bytes, QuotaOf, QuotaKey, WellKeyed, IdxOf, ReadSeq, NextSeq, EncodeU64, DecodeU64;
    var t' := t.(quota := t.quota[QuotaKey(r) := v]);
    forall r' ensures Covers(t', r') {
      QuotaWrite(t.quota, r, v, r');
      assert Covers(t, r');
    }
  }
}
