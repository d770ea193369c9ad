/** Purging the persistent store: not a transaction, so it can stop anywhere
    (src/store_sled.rs, `purge_expired`). */
module SledPurge {
  import opened Machine
  import opened Ordering
  import opened Text
  import opened Keys
  import opened Messages
  import opened Queue
  import opened SledTrees

  const GC_BATCH_LIMIT: nat := 1024

  /** The expired ones among the keys `ks`, in the same order. */
  function DueOf(ms: map<Text, QueueMessage>, ks: seq<Text>, now: u64): (due: seq<Text>)
    requires forall k :: k in ks ==> k in ms
    ensures forall k :: k in due <==> k in ks && Expired(ms[k], now)
    ensures |due| <= |ks|
  {
    if ks == [] then []
    else
      var last := ks[|ks| - 1];
      assert ks == ks[..|ks| - 1] + [last];
      DueOf(ms, ks[..|ks| - 1], now) + if Expired(ms[last], now) then [last] else []
  }

  function AllKeys(ms: map<Text, QueueMessage>): (ks: seq<Text>)
    ensures Sorted(ks, TextLt) && (forall k :: k in ks <==> k in ms) && |ks| == |ms|
  {
    TextLtTotal();
    Ascending(ms.Keys, TextLt)
  }

  /** Everything a purge at `now` could remove, in key order. */
  function Plan(ms: map<Text, QueueMessage>, now: u64): seq<Text> {
    DueOf(ms, AllKeys(ms), now)
  }

  lemma DueStep(ms: map<Text, QueueMessage>, ks: seq<Text>, i: nat, now: u64)
    requires i < |ks| && forall k :: k in ks ==> k in ms
    ensures ks[i] in ms && DueOf(ms, ks[..i + 1], now) == DueOf(ms, ks[..i], now) + if Expired(ms[ks[i]], now) then [ks[i]] else []
  {
    assert ks[i] in ks && ks[..i + 1][..i] == ks[..i];
  }

  lemma {:induction false} DuePrefix(ms: map<Text, QueueMessage>, ks: seq<Text>, i: nat, now: u64)
    requires i <= |ks| && forall k :: k in ks ==> k in ms
    ensures DueOf(ms, ks[..i], now) <= DueOf(ms, ks, now)
  {
    if i == |ks| {
      assert ks[..i] == ks;
    } else {
      DuePrefix(ms, ks[..|ks| - 1], i, now);
      assert ks[..|ks| - 1][..i] == ks[..i];
    }
  }

  ghost function IdxsOf(ms: map<Text, QueueMessage>, gone: set<Text>): set<Text> {
    set k | k in gone && k in ms :: IdxOf(ms[k])
  }

  /** The quota `v` exceeds the truth in `t` by as much as the record did in `t0`. */
  ghost predicate Agrees(t0: Trees, t: Trees, r: Text, v: QuotaValue)
    requires WellKeyed(t0.messages) && WellKeyed(t.messages)
  {
    (v.count - |View(t.messages, r)|, v.bytes - Bytes(View(t.messages, r))) == Excess(t0, r)
  }

  /** A touched recipient's running quota agrees; an untouched one's queue is unchanged. */
  ghost predicate TracksAt(t0: Trees, t: Trees, quotas: map<Text, QuotaValue>, r: Text)
    requires WellKeyed(t0.messages) && WellKeyed(t.messages)
  {
    if r in quotas then Agrees(t0, t, r, quotas[r]) else View(t.messages, r) == View(t0.messages, r)
  }

  ghost predicate Tracks(t0: Trees, t: Trees, quotas: map<Text, QuotaValue>)
    requires WellKeyed(t0.messages) && WellKeyed(t.messages)
  {
    forall r :: TracksAt(t0, t, quotas, r)
  }

  /** The purge, started at `t0`, has removed the messages with keys `gone` and
      holds the touched recipients' new quotas in `quotas`, none written yet. */
  ghost predicate Purging(t0: Trees, t: Trees, gone: set<Text>, quotas: map<Text, QuotaValue>)
    requires Safe(t0)
  {
    && Safe(t)
    && t.quota == t0.quota && t.seqs == t0.seqs
    && t.messages == t0.messages - gone && t.index == t0.index - IdxsOf(t0.messages, gone)
    && Tracks(t0, t, quotas)
  }

  lemma PurgeStart(t: Trees)
    requires Safe(t)
    ensures Purging(t, t, {}, map[])
  {
    hide View, KeyOf, Bytes, QuotaOf, WellKeyed, Indexed, Numbered, Covers;
    assert t.messages - {} == t.messages && IdxsOf(t.messages, {}) == {} && t.index - {} == t.index;
  }

  lemma IdxsOfStep(ms: map<Text, QueueMessage>, index: map<Text, Text>, gone: set<Text>, k: Text)
    requires k in ms
    ensures index - IdxsOf(ms, gone) - {IdxOf(ms[k])} == index - IdxsOf(ms, gone + {k})
    ensures ms - gone - {k} == ms - (gone + {k})
  {
    assert IdxsOf(ms, gone + {k}) == IdxsOf(ms, gone) + {IdxOf(ms[k])};
  }

  function Spent(v: QuotaValue, m: QueueMessage): QuotaValue {
    QuotaValue(SatSub(v.bytes, m.payloadBytes), SatSub(v.count, 1))
  }

  lemma SpentBy(e: (int, int), n: nat, bytes: nat, v: QuotaValue, m: QueueMessage)
    requires e.0 >= 0 && e.1 >= 0 && (v.count - n, v.bytes - bytes) == e && n >= 1 && bytes >= m.payloadBytes
    ensures v.count >= 1 && v.bytes >= m.payloadBytes
    ensures (Spent(v, m).count - (n - 1), Spent(v, m).bytes - (bytes - m.payloadBytes)) == e
  {
  }

  lemma ViewLoses(t: Trees, k: Text, m: QueueMessage, t': Trees)
    requires WellKeyed(t.messages) && WellKeyed(t'.messages)
    requires k in t.messages && t.messages[k] == m && t'.messages == t.messages - {k}
    ensures |View(t'.messages, m.recipient)| == |View(t.messages, m.recipient)| - 1
    ensures Bytes(View(t'.messages, m.recipient)) == Bytes(View(t.messages, m.recipient)) - m.payloadBytes
  {
    hide View, KeyOf, Bytes, WellKeyed;
    ViewRemove(t.messages, k, m.recipient);
    RemoveOne(View(t.messages, m.recipient), m.arrivalSeq);
  }

  /** Updating the running quota at one removal keeps it in agreement, and neither
      subtraction saturates. */
  lemma SpendAgrees(t0: Trees, t: Trees, k: Text, m: QueueMessage, v: QuotaValue, t': Trees)
    requires WellKeyed(t0.messages) && WellKeyed(t.messages) && WellKeyed(t'.messages)
    requires k in t.messages && t.messages[k] == m && t'.messages == t.messages - {k}
    requires Agrees(t0, t, m.recipient, v) && Covers(t0, m.recipient)
    ensures v.count >= 1 && v.bytes >= m.payloadBytes && Agrees(t0, t', m.recipient, Spent(v, m))
  {
    hide View, KeyOf, Bytes, QuotaOf, WellKeyed, Excess, Spent;
    ViewLoses(t, k, m, t');
    SpentBy(Excess(t0, m.recipient), |View(t.messages, m.recipient)|, Bytes(View(t.messages, m.recipient)), v, m);
  }

  lemma OthersTracked(t0: Trees, t: Trees, quotas: map<Text, QuotaValue>, k: Text, r: Text, quotas': map<Text, QuotaValue>, t': Trees)
    requires WellKeyed(t0.messages) && WellKeyed(t.messages) && WellKeyed(t'.messages)
    requires k in t.messages && t'.messages == t.messages - {k} && TracksAt(t0, t, quotas, r) && r != t.messages[k].recipient
    requires (r in quotas' <==> r in quotas) && (r in quotas ==> quotas'[r] == quotas[r])
    ensures TracksAt(t0, t', quotas', r)
  {
    hide View, KeyOf, Bytes, QuotaOf, WellKeyed, Excess, Agrees;
    OtherView(t.messages, k, r, t'.messages);
    if r in quotas { AgreesSame(t0, t, r, quotas[r], t'); }
  }

  lemma AgreesSame(t0: Trees, t: Trees, r: Text, v: QuotaValue, t': Trees)
    requires WellKeyed(t0.messages) && WellKeyed(t.messages) && WellKeyed(t'.messages)
    requires Agrees(t0, t, r, v) && View(t'.messages, r) == View(t.messages, r)
    ensures Agrees(t0, t', r, v)
  {
    hide View, WellKeyed, Bytes, Excess;
  }

  lemma OtherView(ms: map<Text, QueueMessage>, k: Text, r: Text, ms': map<Text, QueueMessage>)
    requires WellKeyed(ms) && WellKeyed(ms') && k in ms && ms' == ms - {k} && r != ms[k].recipient
    ensures View(ms', r) == View(ms, r)
  {
    hide View, KeyOf, WellKeyed;
    ViewRemove(ms, k, r);
  }

  lemma TrackOne(t0: Trees, t: Trees, quotas: map<Text, QuotaValue>, k: Text, m: QueueMessage, v: QuotaValue, t': Trees)
    requires Safe(t0) && WellKeyed(t.messages) && WellKeyed(t'.messages) && Tracks(t0, t, quotas) && t.quota == t0.quota
    requires k in t.messages && t.messages[k] == m && t'.messages == t.messages - {k}
    requires v == if m.recipient in quotas then quotas[m.recipient] else QuotaOf(t.quota, m.recipient)
    ensures Tracks(t0, t', quotas[m.recipient := Spent(v, m)])
  {
    hide View, KeyOf, Bytes, QuotaOf, WellKeyed, Indexed, Numbered, Spent, Covers;
    assert TracksAt(t0, t, quotas, m.recipient) && Covers(t0, m.recipient);
    SpendAgrees(t0, t, k, m, v, t');
    var quotas' := quotas[m.recipient := Spent(v, m)];
    forall r ensures TracksAt(t0, t', quotas', r) {
      if r != m.recipient {
        assert TracksAt(t0, t, quotas, r);
        OthersTracked(t0, t, quotas, k, r, quotas', t');
      }
    }
  }

  /** One round of the loop. */
  lemma PurgeOne(t0: Trees, t: Trees, gone: set<Text>, quotas: map<Text, QuotaValue>, k: Text, m: QueueMessage,
                 v: QuotaValue, t': Trees)
    requires Safe(t0) && Safe(t) && Purging(t0, t, gone, quotas)
    requires k in t.messages && t.messages[k] == m && k in t0.messages && t0.messages[k] == m
    requires v == if m.recipient in quotas then quotas[m.recipient] else QuotaOf(t.quota, m.recipient)
    requires t' == t.(messages := t.messages - {k}, index := t.index - {IdxOf(m)})
    ensures Purging(t0, t', gone + {k}, quotas[m.recipient := Spent(v, m)])
  {
    hide View, KeyOf, Bytes, QuotaOf, Indexed, Numbered, Covers, Tracks, IdxsOf, IdxOf, Spent;
    RemoveSafe(t, k);
    IdxsOfStep(t0.messages, t0.index, gone, k);
    TrackOne(t0, t, quotas, k, m, v, t');
  }

  /** The quota records of the recipients in `done` have been written. */
  ghost predicate Writing(t0: Trees, t: Trees, quotas: map<Text, QuotaValue>, done: set<Text>)
    requires Safe(t0)
  {
    && Safe(t) && Tracks(t0, t, quotas) && done <= quotas.Keys
    && forall r :: QuotaOf(t.quota, r) == if r in done then quotas[r] else QuotaOf(t0.quota, r)
  }

  lemma WriteOne(t0: Trees, t: Trees, quotas: map<Text, QuotaValue>, done: set<Text>, r: Text, t': Trees)
    requires Safe(t0) && Safe(t) && Writing(t0, t, quotas, done) && r in quotas && r !in done
    requires t' == t.(quota := t.quota[QuotaKey(r) := quotas[r]])
    ensures Writing(t0, t', quotas, done + {r})
  {
    hide View, KeyOf, Bytes, QuotaOf, QuotaKey, Indexed, Numbered, WellKeyed;
    assert TracksAt(t0, t, quotas, r) && Covers(t0, r);
    QuotaWriteSafe(t, r, quotas[r]);
    forall r' ensures QuotaOf(t'.quota, r') == if r' in done + {r} then quotas[r'] else QuotaOf(t0.quota, r') {
      QuotaWrite(t.quota, r, quotas[r], r');
    }
    SameTracks(t0, t, t', quotas);
  }

  lemma SameTracks(t0: Trees, t: Trees, t': Trees, quotas: map<Text, QuotaValue>)
    requires WellKeyed(t0.messages) && WellKeyed(t.messages) && Tracks(t0, t, quotas) && t'.messages == t.messages
    ensures Tracks(t0, t', quotas)
  {
    hide View, Excess, WellKeyed, Bytes;
    forall r ensures TracksAt(t0, t', quotas, r) { assert TracksAt(t0, t, quotas, r); }
  }

  /** The deferred writes amount to updating each quota at each removal. */
  lemma WritesKeepExcess(t0: Trees, t: Trees, quotas: map<Text, QuotaValue>)
    requires Safe(t0) && Safe(t) && Writing(t0, t, quotas, quotas.Keys)
    ensures forall r :: Excess(t, r) == Excess(t0, r)
  {
    hide View, KeyOf, Bytes, QuotaOf, Indexed, Numbered, WellKeyed, Covers;
    forall r ensures Excess(t, r) == Excess(t0, r) {
      assert TracksAt(t0, t, quotas, r);
    }
  }

  /** A purge was broken off: the first `n` messages of its plan are gone, and the
      index entries of all of them but, at most, the last. Each quota record is
      either untouched or has been reduced by exactly what its recipient lost. */
  ghost predicate BrokenOff(t: Trees, plan: seq<Text>, n: nat, m: nat, t': Trees)
    requires WellKeyed(t.messages) && WellKeyed(t'.messages)
  {
    && m <= n <= m + 1 && n <= |plan|
    && t'.messages == t.messages - Elements(Take(plan, n))
    && t'.index == t.index - IdxsOf(t.messages, Elements(Take(plan, m)))
    && forall r :: RecordKept(t, t', r)
  }

  ghost predicate RecordKept(t: Trees, t': Trees, r: Text)
    requires WellKeyed(t.messages) && WellKeyed(t'.messages)
  {
    Excess(t', r) == Excess(t, r) || QuotaOf(t'.quota, r) == QuotaOf(t.quota, r)
  }

  /** What a purge does: on success the first `target` due messages are gone with
      their index entries and every quota is as exact as before; on a storage
      error it is broken off somewhere, and the trees are still safe. */
  ghost predicate Purged(t: Trees, now: u64, max: nat, res: Result<nat>, t': Trees)
    requires Safe(t)
  {
    var target := Min(max, GC_BATCH_LIMIT);
    var plan := Plan(t.messages, now);
    && Safe(t') && t'.seqs == t.seqs && t'.index.Keys <= t.index.Keys
    && match res
       case Ok(n) =>
         var gone := Elements(Take(plan, target));
         && n == Min(target, |plan|)
         && t'.messages == t.messages - gone && t'.index == t.index - IdxsOf(t.messages, gone)
         && (forall r :: Excess(t', r) == Excess(t, r))
       case Err(e) =>
         e == Storage && exists n: nat, m: nat :: n <= target && BrokenOff(t, plan, n, m, t')
  }

  /** Whatever prefix of the plan is gone, each recipient's queue has only lost
      expired messages. */
  lemma PurgedStep(t: Trees, now: u64, max: nat, res: Result<nat>, t': Trees, r: Text)
    requires Safe(t) && Safe(t') && Purged(t, now, max, res, t')
    ensures Step(r, ViewLog(t, r), Event.Purge(now), ViewLog(t', r))
  {
    hide KeyOf, Covers, Indexed, Numbered, NextSeq, Plan, IdxsOf, Excess, View, Drops, Expired;
    var plan := Plan(t.messages, now);
    var n: nat := match res case Ok(_) => Min(max, GC_BATCH_LIMIT) case Err(_) =>
      var n: nat, m: nat :| BrokenOff(t, plan, n, m, t'); n;
    PlanExpired(t.messages, now, Take(plan, n));
    MinusDrops(t, t', Elements(Take(plan, n)), now, r);
  }

  lemma PurgedOnlyExpired(t: Trees, now: u64, max: nat, res: Result<nat>, t': Trees)
    requires Safe(t) && Purged(t, now, max, res, t')
    ensures OnlyExpired(t.messages, t'.messages, now)
  {
    hide Covers, Indexed, Numbered, Plan, IdxsOf, Excess, Expired, WellKeyed, QuotaOf;
    var plan := Plan(t.messages, now);
    var n: nat := match res case Ok(_) => Min(max, GC_BATCH_LIMIT) case Err(_) =>
      var n: nat, m: nat :| BrokenOff(t, plan, n, m, t'); n;
    PlanExpired(t.messages, now, Take(plan, n));
  }

  lemma PlanExpired(ms: map<Text, QueueMessage>, now: u64, gone: seq<Text>)
    requires gone <= Plan(ms, now)
    ensures forall k :: k in gone ==> k in ms && Expired(ms[k], now)
  {
    hide DueOf, AllKeys;
    assert forall k :: k in gone ==> k in Plan(ms, now);
  }

  lemma MinusDrops(t: Trees, t': Trees, gone: set<Text>, now: u64, r: Text)
    requires WellKeyed(t.messages) && WellKeyed(t'.messages) && t'.seqs == t.seqs
    requires t'.messages == t.messages - gone && forall k :: k in gone ==> k in t.messages && Expired(t.messages[k], now)
    ensures Drops(ViewLog(t, r), ViewLog(t', r), now)
  {
    hide KeyOf, View, NextSeq;
    var q, q' := View(t.messages, r), View(t'.messages, r);
    forall s | s in q' ensures s in q && q'[s] == q[s] {
      assert KeyOf(q'[s]) in t.messages;
    }
    forall s | s in q && s !in q' ensures Expired(q[s], now) {
      assert KeyOf(q[s]) !in t'.messages;
    }
  }

  lemma {:induction false} DueSorted(ms: map<Text, QueueMessage>, ks: seq<Text>, now: u64)
    requires Sorted(ks, TextLt) && forall k :: k in ks ==> k in ms
    ensures Sorted(DueOf(ms, ks, now), TextLt)
  {
    if ks != [] {
      var last, init := ks[|ks| - 1], ks[..|ks| - 1];
      DueSorted(ms, init, now);
      var due := DueOf(ms, init, now);
      forall i | 0 <= i < |due| ensures TextLt(due[i], last) {
        assert due[i] in init;
      }
    }
  }

  /** Taking messages away makes orphans of their entries that stay, and of no others. */
  lemma MinusOrphans(t: Trees, gone: set<Text>, cleared: set<Text>, t': Trees)
    requires WellKeyed(t.messages) && Indexed(t) && cleared <= gone <= t.messages.Keys
    requires t'.messages == t.messages - gone && t'.index == t.index - IdxsOf(t.messages, cleared)
    ensures Orphans(t') == Orphans(t) + IdxsOf(t.messages, gone - cleared)
  {
    hide IdxOf, WellKeyed;
    forall k | k in t.messages ensures Leads(t.messages, IdxOf(t.messages[k])) {}
    forall i | i in t.index && Leads(t.messages, i)
      ensures i in Orphans(t') <==> i in IdxsOf(t.messages, gone - cleared)
    {
      var j :| j in t.messages && IdxOf(t.messages[j]) == i;
      EntryFate(t, gone, cleared, t', j);
    }
    assert forall i :: i in t.index && !Leads(t.messages, i) ==> i in t'.index && !Leads(t'.messages, i);
    assert forall i :: i in IdxsOf(t.messages, gone - cleared) ==> i in t.index && Leads(t.messages, i);
    assert forall i :: i in Orphans(t') <==> i in Orphans(t) + IdxsOf(t.messages, gone - cleared);
  }

  lemma EntryFate(t: Trees, gone: set<Text>, cleared: set<Text>, t': Trees, j: Text)
    requires WellKeyed(t.messages) && Indexed(t) && cleared <= gone <= t.messages.Keys && j in t.messages
    requires t'.messages == t.messages - gone && t'.index == t.index - IdxsOf(t.messages, cleared)
    ensures var i := IdxOf(t.messages[j]);
            && (i in Orphans(t') <==> j in gone && j !in cleared)
            && (i in IdxsOf(t.messages, gone - cleared) <==> j in gone && j !in cleared)
  {
    hide IdxOf, WellKeyed;
    var i := IdxOf(t.messages[j]);
    forall k | k in t.messages && IdxOf(t.messages[k]) == i ensures k == j { SameItem(t, k, j); }
    if j !in gone { assert IdxOf(t'.messages[j]) == i; }
  }

  /** The purge was broken off with the entry `i` of its last message still in the index. */
  ghost predicate LeavesOrphan(t: Trees, now: u64, t': Trees, i: Text)
    requires WellKeyed(t.messages) && WellKeyed(t'.messages)
  {
    exists n: nat, m: nat :: BrokenOff(t, Plan(t.messages, now), n, m, t') && LastLeft(t, Plan(t.messages, now), n, m, i)
  }

  ghost predicate LastLeft(t: Trees, plan: seq<Text>, n: nat, m: nat, i: Text) {
    m < n <= |plan| && plan[n - 1] in t.messages && i == IdxOf(t.messages[plan[n - 1]])
  }

  lemma BrokenOrphans(t: Trees, now: u64, n: nat, m: nat, t': Trees)
    requires Safe(t) && WellKeyed(t'.messages) && BrokenOff(t, Plan(t.messages, now), n, m, t')
    ensures var plan := Plan(t.messages, now);
            && n <= |plan| && (m < n ==> plan[n - 1] in t.messages)
            && Orphans(t') == Orphans(t) + if m < n then {IdxOf(t.messages[plan[n - 1]])} else {}
  {
    hide KeyOf, Covers, Indexed, Numbered, View, Excess, IdxOf, WellKeyed, QuotaOf, DueOf, AllKeys, TextLt;
    var plan := Plan(t.messages, now);
    var gone, cleared := Elements(Take(plan, n)), Elements(Take(plan, m));
    assert forall k :: k in plan ==> k in t.messages;
    DueSorted(t.messages, AllKeys(t.messages), now);
    assert gone - cleared == if m < n then {plan[n - 1]} else {} by { LastOfPlan(plan, n, m); }
    assert cleared <= gone;
    MinusOrphans(t, gone, cleared, t');
  }

  lemma LastOfPlan(plan: seq<Text>, n: nat, m: nat)
    requires Sorted(plan, TextLt) && m <= n <= m + 1 && n <= |plan|
    ensures Elements(Take(plan, m)) <= Elements(Take(plan, n))
    ensures Elements(Take(plan, n)) - Elements(Take(plan, m)) == if m < n then {plan[n - 1]} else {}
  {
    hide TextLt;
    if m < n {
      assert Take(plan, n) == Take(plan, m) + [plan[n - 1]];
      forall i | 0 <= i < m ensures plan[i] != plan[n - 1] {
        Irreflexive(plan[i]);
        assert TextLt(plan[i], plan[n - 1]);
      }
    }
  }

  /** A purge that completes keeps the bijection and the exact quotas. */
  lemma PurgedExact(t: Trees, now: u64, max: nat, res: Result<nat>, t': Trees)
    requires Exact(t) && Purged(t, now, max, res, t') && res.Ok?
    ensures Exact(t')
  {
    hide KeyOf, Covers, Indexed, Numbered, Plan, View, Excess, IdxOf, Leads;
    PurgedOrphans(t, now, max, res, t');
    assert forall r :: Excess(t', r) == Excess(t, r) == (0, 0);
  }

  /** A completed purge changes no orphan, a broken-off one adds its last message's
      entry when it failed between the two removals, and nothing else. */
  lemma PurgedOrphans(t: Trees, now: u64, max: nat, res: Result<nat>, t': Trees)
    requires Safe(t) && Purged(t, now, max, res, t')
    ensures WellKeyed(t.messages) && WellKeyed(t'.messages)
    ensures forall i :: i in Orphans(t') <==> i in Orphans(t) || (res.Err? && LeavesOrphan(t, now, t', i))
    ensures res.Ok? ==> Orphans(t') == Orphans(t)
    ensures exists i :: Orphans(t') <= Orphans(t) + {i}
  {
    hide KeyOf, Covers, Indexed, Numbered, Plan, View, Excess, IdxOf, WellKeyed, QuotaOf, IdxsOf, Orphans, BrokenOff;
    var plan := Plan(t.messages, now);
    if res.Ok? {
      CompleteOrphans(t, now, max, res.value, t');
      assert Orphans(t') <= Orphans(t) + {[]};
    } else {
      var n: nat, m: nat :| BrokenOff(t, plan, n, m, t');
      BrokenOrphans(t, now, n, m, t');
      forall i | LeavesOrphan(t, now, t', i) ensures i in Orphans(t') {
        var n': nat, m': nat :| BrokenOff(t, plan, n', m', t') && LastLeft(t, plan, n', m', i);
        BrokenOrphans(t, now, n', m', t');
      }
      var last := if m < n then IdxOf(t.messages[plan[n - 1]]) else [];
      assert m < n ==> LastLeft(t, plan, n, m, last);
      assert Orphans(t') <= Orphans(t) + {last};
    }
  }

  lemma CompleteOrphans(t: Trees, now: u64, max: nat, removed: nat, t': Trees)
    requires Safe(t) && Purged(t, now, max, Ok(removed), t')
    ensures Orphans(t') == Orphans(t)
  {
    hide KeyOf, Covers, Indexed, Numbered, View, Excess, IdxOf, WellKeyed, QuotaOf, Orphans, DueOf, AllKeys;
    var gone := Elements(Take(Plan(t.messages, now), Min(max, GC_BATCH_LIMIT)));
    assert forall k :: k in Plan(t.messages, now) ==> k in t.messages;
    MinusOrphans(t, gone, gone, t');
    assert IdxsOf(t.messages, gone - gone) == {};
  }

  // ---- the purge loop's bookkeeping ----

  /** The loop has passed the first `i` keys and removed the due ones among them. */
  ghost predicate Passed(t0: Trees, ks: seq<Text>, i: nat, now: u64, t: Trees, quotas: map<Text, QuotaValue>, removed: nat)
    requires Safe(t0)
  {
    && ks == AllKeys(t0.messages) && i <= |ks|
    && var due := DueOf(t0.messages, ks[..i], now);
    && removed == |due| && Purging(t0, t, Elements(due), quotas)
  }

  lemma PassedStart(t: Trees, now: u64)
    requires Safe(t)
    ensures Passed(t, AllKeys(t.messages), 0, now, t, map[], 0)
  {
    hide Purging, AllKeys;
    PurgeStart(t);
    assert Elements<Text>([]) == {};
  }

  /** A key the loop has not reached is still there. */
  lemma PassedNext(t0: Trees, ks: seq<Text>, i: nat, now: u64, t: Trees, quotas: map<Text, QuotaValue>, removed: nat)
    requires Safe(t0) && Passed(t0, ks, i, now, t, quotas, removed) && i < |ks|
    ensures ks[i] in t0.messages && ks[i] in t.messages && t.messages[ks[i]] == t0.messages[ks[i]] && Safe(t)
  {
    hide DueOf, AllKeys, Tracks, WellKeyed, Indexed, Numbered, Covers, IdxsOf, TextLt;
    var k := ks[i];
    assert k in ks;
    TextLtTotal();
    assert forall j :: 0 <= j < i ==> ks[..i][j] == ks[j] && TextLt(ks[j], k);
    assert k !in ks[..i];
  }

  lemma PassedLive(t0: Trees, ks: seq<Text>, i: nat, now: u64, t: Trees, quotas: map<Text, QuotaValue>, removed: nat)
    requires Safe(t0) && Passed(t0, ks, i, now, t, quotas, removed) && i < |ks|
    requires ks[i] in t0.messages && !Expired(t0.messages[ks[i]], now)
    ensures Passed(t0, ks, i + 1, now, t, quotas, removed)
  {
    hide Purging, AllKeys, DueOf, Safe, Expired;
    DueStep(t0.messages, ks, i, now);
    assert DueOf(t0.messages, ks[..i], now) + [] == DueOf(t0.messages, ks[..i], now);
  }

  lemma PassedDue(t0: Trees, ks: seq<Text>, i: nat, now: u64, t: Trees, quotas: map<Text, QuotaValue>, removed: nat,
                  k: Text, m: QueueMessage, v: QuotaValue, t': Trees)
    requires Safe(t0) && Safe(t) && Passed(t0, ks, i, now, t, quotas, removed) && i < |ks| && k == ks[i]
    requires k in t.messages && t.messages[k] == m && k in t0.messages && t0.messages[k] == m && Expired(m, now)
    requires v == if m.recipient in quotas then quotas[m.recipient] else QuotaOf(t.quota, m.recipient)
    requires t' == t.(messages := t.messages - {k}, index := t.index - {IdxOf(m)})
    ensures Passed(t0, ks, i + 1, now, t', quotas[m.recipient := Spent(v, m)], removed + 1)
  {
    hide Purging, AllKeys, DueOf, Spent, IdxOf, Safe, QuotaOf;
    DueStep(t0.messages, ks, i, now);
    var due := DueOf(t0.messages, ks[..i], now);
    PurgeOne(t0, t, Elements(due), quotas, k, m, v, t');
    assert Elements(due + [k]) == Elements(due) + {k};
  }

  /** Stopping after some keys removes a prefix of the plan. */
  lemma PassedPlan(t0: Trees, ks: seq<Text>, i: nat, now: u64, t: Trees, quotas: map<Text, QuotaValue>, removed: nat)
    requires Safe(t0) && Passed(t0, ks, i, now, t, quotas, removed)
    ensures DueOf(t0.messages, ks[..i], now) == Take(Plan(t0.messages, now), removed)
    ensures removed <= |Plan(t0.messages, now)|
    ensures i == |ks| ==> removed == |Plan(t0.messages, now)|
    ensures t.messages == t0.messages - Elements(Take(Plan(t0.messages, now), removed))
    ensures t.index == t0.index - IdxsOf(t0.messages, Elements(Take(Plan(t0.messages, now), removed)))
  {
    hide AllKeys, DueOf, WellKeyed, Indexed, Numbered, Covers, Tracks, IdxsOf;
    DuePrefix(t0.messages, ks, i, now);
    if i == |ks| { assert ks[..i] == ks; }
  }

  lemma PassedFails(t0: Trees, ks: seq<Text>, i: nat, now: u64, max: nat, t: Trees, quotas: map<Text, QuotaValue>, removed: nat)
    requires Safe(t0) && Passed(t0, ks, i, now, t, quotas, removed) && removed <= Min(max, GC_BATCH_LIMIT)
    ensures Purged(t0, now, max, Err(Storage), t)
  {
    hide DueOf, AllKeys, WellKeyed, Indexed, Numbered, Covers, Tracks, IdxsOf, Plan, Take, QuotaOf, Excess;
    PassedPlan(t0, ks, i, now, t, quotas, removed);
    assert BrokenOff(t0, Plan(t0.messages, now), removed, removed, t);
  }

  /** Stopping inside a round, with the message gone and its index entry gone or not. */
  lemma RemovedFails(t0: Trees, ks: seq<Text>, i: nat, now: u64, max: nat, t: Trees, quotas: map<Text, QuotaValue>,
                     removed: nat, k: Text)
    requires Safe(t0) && Safe(t) && Passed(t0, ks, i, now, t, quotas, removed) && i < |ks| && k == ks[i]
    requires removed < Min(max, GC_BATCH_LIMIT)
    requires k in t.messages && k in t0.messages && t.messages[k] == t0.messages[k] && Expired(t.messages[k], now)
    ensures Purged(t0, now, max, Err(Storage), t.(messages := t.messages - {k}))
    ensures Purged(t0, now, max, Err(Storage), t.(messages := t.messages - {k}, index := t.index - {IdxOf(t.messages[k])}))
  {
    hide DueOf, AllKeys, WellKeyed, Indexed, Numbered, Covers, Tracks, IdxsOf, Take, IdxOf, Plan, QuotaOf, Excess;
    RemoveSafe(t, k);
    PassedPlan(t0, ks, i, now, t, quotas, removed);
    PlanNext(t0, ks, i, now, t, removed, k);
    var plan := Plan(t0.messages, now);
    assert BrokenOff(t0, plan, removed + 1, removed, t.(messages := t.messages - {k}));
    assert BrokenOff(t0, plan, removed + 1, removed + 1,
                     t.(messages := t.messages - {k}, index := t.index - {IdxOf(t.messages[k])}));
  }

  /** One round of the loop on an expired message: stopping after either removal
      leaves a partial purge, and finishing it is progress. */
  lemma DueRound(t0: Trees, ks: seq<Text>, i: nat, now: u64, max: nat, t: Trees, quotas: map<Text, QuotaValue>,
                 removed: nat, k: Text, m: QueueMessage)
    requires Safe(t0) && Passed(t0, ks, i, now, t, quotas, removed) && i < |ks| && k == ks[i]
    requires k in t.messages && t.messages[k] == m && Expired(m, now) && removed < Min(max, GC_BATCH_LIMIT)
    ensures Purged(t0, now, max, Err(Storage), t)
    ensures Purged(t0, now, max, Err(Storage), t.(messages := t.messages - {k}))
    ensures var t' := t.(messages := t.messages - {k}, index := t.index - {IdxOf(m)});
            var v := if m.recipient in quotas then quotas[m.recipient] else QuotaOf(t.quota, m.recipient);
            && Purged(t0, now, max, Err(Storage), t')
            && Passed(t0, ks, i + 1, now, t', quotas[m.recipient := Spent(v, m)], removed + 1)
  {
    hide Passed, Purged, Safe, QuotaOf, IdxOf, Spent, Expired;
    var t' := t.(messages := t.messages - {k}, index := t.index - {IdxOf(m)});
    var v := if m.recipient in quotas then quotas[m.recipient] else QuotaOf(t.quota, m.recipient);
    PassedNext(t0, ks, i, now, t, quotas, removed);
    PassedFails(t0, ks, i, now, max, t, quotas, removed);
    RemovedFails(t0, ks, i, now, max, t, quotas, removed, k);
    PassedDue(t0, ks, i, now, t, quotas, removed, k, m, v, t');
  }

  lemma PlanNext(t0: Trees, ks: seq<Text>, i: nat, now: u64, t: Trees, removed: nat, k: Text)
    requires ks == AllKeys(t0.messages) && i < |ks| && k == ks[i] && k in t0.messages && Expired(t0.messages[k], now)
    requires removed == |DueOf(t0.messages, ks[..i], now)|
    requires t.messages == t0.messages - Elements(DueOf(t0.messages, ks[..i], now))
    requires t.index == t0.index - IdxsOf(t0.messages, Elements(DueOf(t0.messages, ks[..i], now)))
    ensures removed + 1 <= |Plan(t0.messages, now)|
    ensures t.messages - {k} == t0.messages - Elements(Take(Plan(t0.messages, now), removed + 1))
    ensures t.index - {IdxOf(t0.messages[k])} ==
            t0.index - IdxsOf(t0.messages, Elements(Take(Plan(t0.messages, now), removed + 1)))
  {
    hide DueOf, AllKeys, Elements, IdxsOf, IdxOf;
    var due := DueOf(t0.messages, ks[..i], now);
    DueStep(t0.messages, ks, i, now);
    DuePrefix(t0.messages, ks, i + 1, now);
    assert Take(Plan(t0.messages, now), removed + 1) == due + [k];
    assert Elements(due + [k]) == Elements(due) + {k} by { ElementsNext(due, k); }
    IdxsOfStep(t0.messages, t0.index, Elements(due), k);
  }

  lemma ElementsNext(due: seq<Text>, k: Text)
    ensures Elements(due + [k]) == Elements(due) + {k}
  {
  }

  lemma WriteStart(t0: Trees, ks: seq<Text>, i: nat, now: u64, t: Trees, quotas: map<Text, QuotaValue>, removed: nat)
    requires Safe(t0) && Passed(t0, ks, i, now, t, quotas, removed)
    ensures Safe(t) && Writing(t0, t, quotas, {})
  {
    hide WellKeyed, Indexed, Numbered, Covers, Tracks, IdxsOf, DueOf, AllKeys, QuotaOf;
  }

  lemma WrittenFails(t0: Trees, now: u64, max: nat, t: Trees, quotas: map<Text, QuotaValue>, done: set<Text>, t': Trees)
    requires Safe(t0) && Purged(t0, now, max, Err(Storage), t) && Writing(t0, t', quotas, done)
    requires t'.messages == t.messages && t'.index == t.index && t'.seqs == t.seqs
    ensures Safe(t') && Purged(t0, now, max, Err(Storage), t')
  {
    hide WellKeyed, Indexed, Numbered, Covers, Plan, Take, Min, View, Bytes, QuotaOf, IdxsOf, Elements;
    var plan := Plan(t0.messages, now);
    var n: nat, m: nat :| n <= Min(max, GC_BATCH_LIMIT) && BrokenOff(t0, plan, n, m, t);
    forall r ensures RecordKept(t0, t', r) {
      assert TracksAt(t0, t', quotas, r);
    }
    assert BrokenOff(t0, plan, n, m, t');
  }

  lemma PurgeDone(t0: Trees, ks: seq<Text>, i: nat, now: u64, max: nat, t: Trees, quotas: map<Text, QuotaValue>,
                  removed: nat, t': Trees)
    requires Safe(t0) && Passed(t0, ks, i, now, t, quotas, removed)
    requires removed <= Min(max, GC_BATCH_LIMIT) && (i == |ks| || removed == Min(max, GC_BATCH_LIMIT))
    requires Safe(t') && t'.messages == t.messages && t'.index == t.index && t'.seqs == t.seqs
    requires forall r :: Excess(t', r) == Excess(t0, r)
    ensures Purged(t0, now, max, Ok(removed), t')
  {
    hide WellKeyed, Indexed, Numbered, Covers, Tracks, DueOf, AllKeys, Excess, View, KeyOf, IdxOf, IdxsOf, Plan, Take, Elements;
    PassedPlan(t0, ks, i, now, t, quotas, removed);
    var plan := Plan(t0.messages, now);
    TakeSame(plan, removed, Min(max, GC_BATCH_LIMIT));
    IdxsOfSubset(t0, Take(plan, removed));
  }

  lemma TakeSame(plan: seq<Text>, n: nat, target: nat)
    requires n <= |plan| && n <= target && (n == |plan| || n == target)
    ensures Take(plan, n) == Take(plan, target) && n == Min(target, |plan|)
  {
  }

  lemma IdxsOfSubset(t: Trees, gone: seq<Text>)
    ensures (t.index - IdxsOf(t.messages, Elements(gone))).Keys <= t.index.Keys
  {
  }
}
