/** Acknowledgement as a set operation, in the queue and in both stores. */
module AckLaws {
  import opened Machine
  import opened Text
  import opened Messages
  import opened Queue
  import opened SledTrees
  import MemStore
  import SledStore

  /** Acknowledging `a` and then `b` is acknowledging their union at once. */
  lemma AckComposes(l: Log, a: set<AckItem>, o: AckOutcome, l': Log, b: set<AckItem>, o': AckOutcome, l'': Log)
    requires IsAck(l, a, o, l') && IsAck(l', b, o', l'')
    ensures l'' == Log(l.next, l.q - Named(l.q, a + b))
    ensures o.deleted + o'.deleted == |Named(l.q, a + b)| && o'.remaining == |l''.q|
    ensures b <= a ==> l'' == l' && o'.deleted == 0 && o'.remaining == o.remaining
  {
    hide Named;
    NamedUnion(l.q, a, b);
  }

  lemma NamedUnion(q: map<u64, QueueMessage>, a: set<AckItem>, b: set<AckItem>)
    ensures Named(q, a + b) == Named(q, a) + Named(q - Named(q, a), b)
    ensures |Named(q, a + b)| == |Named(q, a)| + |Named(q - Named(q, a), b)|
    ensures q - Named(q, a) - Named(q - Named(q, a), b) == q - Named(q, a + b)
    ensures b <= a ==> Named(q - Named(q, a), b) == {} && q - Named(q, a + b) == q - Named(q, a)
  {
    assert Named(q, a + b) == Named(q, a) + Named(q - Named(q, a), b);
    assert Named(q, a) !! Named(q - Named(q, a), b);
    if b <= a { assert a + b == a; }
  }

  /** The queue determines the memory store's whole entry: index and totals add nothing. */
  lemma EntryDetermined(r: Text, a: MemStore.RecipientState, b: MemStore.RecipientState)
    requires MemStore.Consistent(r, a) && MemStore.Consistent(r, b) && MemStore.LogOf(a) == MemStore.LogOf(b)
    ensures a == b
  {
    hide Bytes, WellFormed;
    assert forall k :: k in a.idx ==> k in b.idx && b.idx[k] == a.idx[k] by {
      assert forall k :: k in a.idx ==> a.idx[k] in b.queue && ItemOf(b.queue[a.idx[k]]) == k;
    }
    assert forall k :: k in b.idx ==> k in a.idx by {
      assert forall k :: k in b.idx ==> b.idx[k] in a.queue && ItemOf(a.queue[b.idx[k]]) == k;
    }
    assert a.idx == b.idx;
  }

  /** Repeating an acknowledgement deletes nothing and changes nothing in memory. */
  lemma MemAckAgain(s: map<Text, MemStore.RecipientState>, r: Text, items: seq<AckItem>, o: AckOutcome,
                    s': map<Text, MemStore.RecipientState>, o': AckOutcome, s'': map<Text, MemStore.RecipientState>)
    requires MemStore.Acks(s, r, items, o, s') && MemStore.Acks(s', r, items, o', s'')
    ensures s'' == s' && o'.deleted == 0 && o'.remaining == o.remaining
  {
    hide MemStore.Consistent, Named;
    if r in s {
      AckComposes(MemStore.LogOf(s[r]), Elements(items), o, MemStore.LogOf(s'[r]), Elements(items), o', MemStore.LogOf(s''[r]));
      EntryDetermined(r, s'[r], s''[r]);
    }
    assert forall k :: k in s'' ==> k in s' && s''[k] == s'[k];
  }

  /** The recipients' queues determine the message tree. */
  lemma ViewsDetermine(a: map<Text, QueueMessage>, b: map<Text, QueueMessage>)
    requires WellKeyed(a) && WellKeyed(b) && forall r :: View(a, r) == View(b, r)
    ensures a == b
  {
    hide View, KeyOf;
    forall k | k in a ensures k in b && b[k] == a[k] {
      var m := a[k];
      assert m.arrivalSeq in View(a, m.recipient) && View(b, m.recipient)[m.arrivalSeq] == m;
    }
    forall k | k in b ensures k in a {
      var m := b[k];
      assert m.arrivalSeq in View(b, m.recipient) && View(a, m.recipient)[m.arrivalSeq] == m;
    }
  }

  /** Nor does it in the persistent store, exact quotas or not. */
  lemma SledAckAgain(t: Trees, r: Text, items: seq<AckItem>, o: AckOutcome, t': Trees, o': AckOutcome, t'': Trees)
    requires Safe(t) && SledStore.Acks(t, r, items, o, t') && Safe(t') && SledStore.Acks(t', r, items, o', t'')
    ensures t''.messages == t'.messages && t''.index == t'.index && t''.seqs == t'.seqs
    ensures forall r' :: QuotaOf(t''.quota, r') == QuotaOf(t'.quota, r')
    ensures o'.deleted == 0 && o'.remaining == o.remaining
  {
    hide View, KeyOf, Indexed, Numbered, Covers, Bytes, Exact, Step, QuotaOf, SledStore.Idxs, Named, WellKeyed;
    NamedGone(View(t.messages, r), Elements(items));
    ViewsDetermine(t'.messages, t''.messages);
    MinusTwice(t.index, SledStore.Idxs(r, Elements(items)));
    forall r' ensures QuotaOf(t''.quota, r') == QuotaOf(t'.quota, r') {
      SameExcess(t', t'', r');
    }
  }

  lemma SameExcess(a: Trees, b: Trees, r: Text)
    requires WellKeyed(a.messages) && a.messages == b.messages && Excess(a, r) == Excess(b, r)
    ensures QuotaOf(a.quota, r) == QuotaOf(b.quota, r)
  {
    hide View, Bytes, QuotaOf, WellKeyed;
  }

  lemma MinusTwice(index: map<Text, Text>, ids: set<Text>)
    ensures index - ids - ids == index - ids
  {
  }

  lemma NamedGone(q: map<u64, QueueMessage>, items: set<AckItem>)
    ensures Named(q - Named(q, items), items) == {}
    ensures q - Named(q, items) - Named(q - Named(q, items), items) == q - Named(q, items)
  {
  }
}
