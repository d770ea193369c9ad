/** How far a memory-store purge gets: its early stop against what has expired. */
module MemPurge {
  import opened Machine
  import opened Ordering
  import opened Text
  import opened Messages
  import opened Queue
  import opened MemStore
  import Runs

  /** In every queue the expired messages come first; the purge's early stop relies on it. */
  ghost predicate ExpiredFirst(q: map<u64, QueueMessage>, now: u64) {
    forall s, t :: s in q && t in q && s <= t && Expired(q[t], now) ==> Expired(q[s], now)
  }

  ghost predicate AllExpiredFirst(state: map<Text, RecipientState>, now: u64) {
    forall r :: r in state ==> ExpiredFirst(state[r].queue, now)
  }

  /** Queues whose deadlines follow arrival satisfy it at every moment, and only they do. */
  lemma OrderedIsExpiredFirst(q: map<u64, QueueMessage>)
    ensures Runs.DeadlineOrdered(q) <==> forall now: u64 :: ExpiredFirst(q, now)
  {
    if forall now: u64 :: ExpiredFirst(q, now) {
      forall s, t | s in q && t in q && s <= t ensures q[s].deadlineMs <= q[t].deadlineMs {
        assert ExpiredFirst(q, q[t].deadlineMs);
        assert Expired(q[t], q[t].deadlineMs);
      }
    }
  }

  ghost function ExpiredPairs(state: map<Text, RecipientState>, now: u64): set<(Text, u64)> {
    set r, s | r in state && s in state[r].queue && Expired(state[r].queue[s], now) :: (r, s)
  }

  // ---- the plan is ordered by recipient, then arrival ----

  predicate Before(p: (Text, u64), q: (Text, u64)) {
    TextLt(p.0, q.0) || (p.0 == q.0 && p.1 < q.1)
  }

  lemma LeadingSorted(e: RecipientState, now: u64)
    ensures Sorted(LeadingOf(e, now), U64Lt)
  {
  }

  lemma OrderedAppend(a: seq<(Text, u64)>, b: seq<(Text, u64)>)
    requires Sorted(a, Before) && Sorted(b, Before)
    requires forall p, q :: p in a && q in b ==> Before(p, q)
    ensures Sorted(a + b, Before)
  {
    forall i, j | 0 <= i < j < |a + b| ensures Before((a + b)[i], (a + b)[j]) {
      if i < |a| && |a| <= j {
        assert a[i] in a && b[j - |a|] in b;
      }
    }
  }

  lemma {:induction false} PlanOrdered(state: map<Text, RecipientState>, rs: seq<Text>, now: u64)
    requires Sorted(rs, TextLt) && forall r :: r in rs ==> r in state
    ensures Sorted(Plan(state, rs, now), Before)
  {
    hide LeadingOf;
    if rs != [] {
      var r, init := rs[|rs| - 1], rs[..|rs| - 1];
      PlanOrdered(state, init, now);
      var tail := Tag(r, LeadingOf(state[r], now));
      LeadingSorted(state[r], now);
      assert Sorted(tail, Before) by {
        assert forall i, j :: 0 <= i < j < |tail| ==> U64Lt(LeadingOf(state[r], now)[i], LeadingOf(state[r], now)[j]);
      }
      forall p, q | p in Plan(state, init, now) && q in tail ensures Before(p, q) {
        PlanMembers(state, init, now, p);
        assert forall i :: 0 <= i < |init| ==> TextLt(init[i], r);
      }
      OrderedAppend(Plan(state, init, now), tail);
    }
  }

  lemma NotBeforeSelf(p: (Text, u64), q: (Text, u64))
    requires p.0 == q.0 && q.1 <= p.1
    ensures !Before(p, q)
  {
    Irreflexive(p.0);
  }

  lemma LastIsNew(d: seq<(Text, u64)>, i: nat)
    requires Sorted(d, Before) && i < |d| - 1
    ensures d[i] != d[|d| - 1]
  {
    assert Before(d[i], d[|d| - 1]);
    NotBeforeSelf(d[|d| - 1], d[|d| - 1]);
  }

  lemma {:induction false} OrderedDistinct(d: seq<(Text, u64)>)
    requires Sorted(d, Before)
    ensures |Elements(d)| == |d|
  {
    hide Before;
    if d != [] {
      var n := |d| - 1;
      OrderedDistinct(d[..n]);
      forall i | 0 <= i < n ensures d[..n][i] != d[n] { LastIsNew(d, i); }
      assert d[n] !in d[..n];
      ElementsStep(d, n);
      assert d[..n + 1] == d;
    }
  }

  // ---- what goes is a prefix of each queue ----

  lemma IndexOrder(ks: seq<u64>, i: nat, j: nat)
    requires Sorted(ks, U64Lt) && i < |ks| && j < |ks|
    ensures i < j ==> ks[i] < ks[j]
  {
    assert i < j ==> U64Lt(ks[i], ks[j]);
  }

  lemma LeadingDownward(e: RecipientState, now: u64, s: u64, t: u64)
    requires s in e.queue && s <= t && t in LeadingOf(e, now)
    ensures s in LeadingOf(e, now)
  {
    var ks, lead := InOrder(e.queue.Keys), LeadingOf(e, now);
    var i :| 0 <= i < |lead| && lead[i] == t;
    var j :| 0 <= j < |ks| && ks[j] == s;
    IndexOrder(ks, i, j);
    assert lead[j] == s;
  }

  /** Whatever its target, and in whatever order deadlines come, a purge removes
      only expired messages, and from each queue an initial part. */
  lemma PurgeTakesPrefix(state: map<Text, RecipientState>, now: u64, n: nat, r: Text, s: u64, t: u64)
    requires r in state && s in state[r].queue && s <= t
    requires t in Mine(Take(Plan(state, Recipients(state), now), n), r)
    ensures s in Mine(Take(Plan(state, Recipients(state), now), n), r)
    ensures t in state[r].queue && Expired(state[r].queue[t], now)
  {
    hide Plan, Recipients, LeadingOf;
    var rs := Recipients(state);
    var plan := Plan(state, rs, now);
    var b :| 0 <= b < |Take(plan, n)| && Take(plan, n)[b] == (r, t);
    PlanMembers(state, rs, now, (r, t));
    LeadingExpired(state[r], now, t);
    LeadingDownward(state[r], now, s, t);
    PlanMembers(state, rs, now, (r, s));
    var a :| 0 <= a < |plan| && plan[a] == (r, s);
    PlanOrdered(state, rs, now);
    NotBeforeSelf((r, t), (r, s));
    assert a <= b;
    assert Take(plan, n)[a] == (r, s);
  }

  lemma LeadingExpired(e: RecipientState, now: u64, t: u64)
    requires t in LeadingOf(e, now)
    ensures t in e.queue && Expired(e.queue[t], now)
  {
  }

  // ---- and all of it, when expired messages come first ----

  lemma {:induction false} LeadingStops(q: map<u64, QueueMessage>, ks: seq<u64>, now: u64)
    requires forall k :: k in ks ==> k in q
    ensures var n := |Leading(q, ks, now)|; n < |ks| ==> ks[n] in q && !Expired(q[ks[n]], now)
  {
    if ks != [] && Expired(q[ks[0]], now) {
      LeadingStops(q, ks[1..], now);
    }
  }

  lemma LeadingComplete(e: RecipientState, now: u64)
    ensures (forall k :: k in e.queue && Expired(e.queue[k], now) ==> k in LeadingOf(e, now)) <==> ExpiredFirst(e.queue, now)
  {
    var ks, lead := InOrder(e.queue.Keys), LeadingOf(e, now);
    LeadingStops(e.queue, ks, now);
    if ExpiredFirst(e.queue, now) {
      forall k | k in e.queue && Expired(e.queue[k], now) ensures k in lead {
        var i :| 0 <= i < |ks| && ks[i] == k;
        if |lead| < |ks| { IndexOrder(ks, |lead|, i); }
        assert i < |lead|;
        assert lead[i] == k;
      }
    }
    if forall k :: k in e.queue && Expired(e.queue[k], now) ==> k in lead {
      forall s, t | s in e.queue && t in e.queue && s <= t && Expired(e.queue[t], now) ensures Expired(e.queue[s], now) {
        LeadingDownward(e, now, s, t);
        LeadingExpired(e, now, s);
      }
    }
  }

  /** The purge can reach every expired message exactly when in each queue they
      come first. */
  lemma PlanComplete(state: map<Text, RecipientState>, now: u64)
    ensures Elements(Plan(state, Recipients(state), now)) <= ExpiredPairs(state, now)
    ensures Elements(Plan(state, Recipients(state), now)) == ExpiredPairs(state, now) <==> AllExpiredFirst(state, now)
    ensures |Elements(Plan(state, Recipients(state), now))| == |Plan(state, Recipients(state), now)|
  {
    hide Plan, Recipients, LeadingOf, ExpiredFirst;
    var rs := Recipients(state);
    var plan := Plan(state, rs, now);
    PlanOrdered(state, rs, now);
    OrderedDistinct(plan);
    forall p ensures p in plan <==> p.0 in state && p.1 in LeadingOf(state[p.0], now) {
      PlanMembers(state, rs, now, p);
    }
    forall r | r in state
      ensures (forall k :: k in state[r].queue && Expired(state[r].queue[k], now) ==> k in LeadingOf(state[r], now)) <==>
              ExpiredFirst(state[r].queue, now)
      ensures forall k :: k in LeadingOf(state[r], now) ==> k in state[r].queue && Expired(state[r].queue[k], now)
    {
      LeadingComplete(state[r], now);
      forall k | k in LeadingOf(state[r], now) ensures k in state[r].queue && Expired(state[r].queue[k], now) {
        LeadingExpired(state[r], now, k);
      }
    }
    CompleteEach(state, now, plan);
  }

  lemma CompleteEach(state: map<Text, RecipientState>, now: u64, plan: seq<(Text, u64)>)
    requires forall p :: p in plan <==> p.0 in state && p.1 in LeadingOf(state[p.0], now)
    requires forall r :: r in state ==>
      ((forall k :: k in state[r].queue && Expired(state[r].queue[k], now) ==> k in LeadingOf(state[r], now)) <==>
        ExpiredFirst(state[r].queue, now))
    requires forall r :: r in state ==>
      forall k :: k in LeadingOf(state[r], now) ==> k in state[r].queue && Expired(state[r].queue[k], now)
    ensures Elements(plan) <= ExpiredPairs(state, now)
    ensures Elements(plan) == ExpiredPairs(state, now) <==> AllExpiredFirst(state, now)
  {
    hide LeadingOf, ExpiredFirst, Expired;
    assert Elements(plan) == ExpiredPairs(state, now) ==> AllExpiredFirst(state, now) by {
      if Elements(plan) == ExpiredPairs(state, now) {
        forall r, k | r in state && k in state[r].queue && Expired(state[r].queue[k], now) ensures k in LeadingOf(state[r], now) {
          assert (r, k) in ExpiredPairs(state, now);
          assert (r, k) in plan;
        }
      }
    }
    if AllExpiredFirst(state, now) {
      forall p | p in ExpiredPairs(state, now) ensures p in plan {
        assert ExpiredFirst(state[p.0].queue, now);
      }
    }
  }

  // ---- one purge, and many ----

  /** Every queue has only lost messages that are expired at `now`. */
  ghost predicate AllDrop(state: map<Text, RecipientState>, state': map<Text, RecipientState>, now: u64) {
    state'.Keys == state.Keys && forall r :: r in state ==> Drops(LogOf(state[r]), LogOf(state'[r]), now)
  }

  /** A purge is an expiry step for every recipient at once. */
  lemma PurgeDrops(state: map<Text, RecipientState>, now: u64, max: nat, removed: nat, state': map<Text, RecipientState>)
    requires Purges(state, now, max, removed, state')
    ensures AllDrop(state, state', now)
  {
    hide Plan, Recipients, AllConsistent;
    var target := Min(max, GC_BATCH_LIMIT);
    var plan := Plan(state, Recipients(state), now);
    forall r | r in state ensures Drops(LogOf(state[r]), LogOf(state'[r]), now) {
      forall s | s in Mine(Take(plan, target), r) && s in state[r].queue ensures Expired(state[r].queue[s], now) {
        PurgeTakesPrefix(state, now, target, r, s, s);
      }
    }
  }

  lemma DropsStep(r: Text, state: map<Text, RecipientState>, state': map<Text, RecipientState>, now: u64)
    requires AllDrop(state, state', now)
    ensures Step(r, LogOf(Entry(state, r)), Event.Purge(now), LogOf(Entry(state', r)))
  {
  }

  lemma PairsLeft(state: map<Text, RecipientState>, now: u64, d: seq<(Text, u64)>, state': map<Text, RecipientState>)
    requires state'.Keys == state.Keys
    requires forall r :: r in state ==> LogOf(state'[r]) == Log(state[r].seqNo, state[r].queue - Mine(d, r))
    ensures ExpiredPairs(state', now) == ExpiredPairs(state, now) - Elements(d)
  {
    forall p ensures p in ExpiredPairs(state', now) <==> p in ExpiredPairs(state, now) - Elements(d) {
      assert p in d <==> p.1 in Mine(d, p.0) by {
        if p in d { assert p.1 in Mine(d, p.0); }
      }
    }
  }

  /** When expired messages come first, a purge removes exactly as many as it may,
      the first ones in (recipient, arrival) order, and leaves the rest. */
  lemma PurgeComplete(state: map<Text, RecipientState>, now: u64, max: nat, removed: nat, state': map<Text, RecipientState>)
    requires Purges(state, now, max, removed, state') && AllExpiredFirst(state, now)
    ensures removed == Min(Min(max, GC_BATCH_LIMIT), |ExpiredPairs(state, now)|)
    ensures |ExpiredPairs(state', now)| == |ExpiredPairs(state, now)| - removed
    ensures AllExpiredFirst(state', now)
  {
    hide Plan, Recipients, AllConsistent, ExpiredPairs, AllExpiredFirst;
    var target := Min(max, GC_BATCH_LIMIT);
    var rs := Recipients(state);
    var plan := Plan(state, rs, now);
    var d := Take(plan, target);
    PlanComplete(state, now);
    PlanOrdered(state, rs, now);
    OrderedDistinct(d);
    PairsLeft(state, now, d, state');
    assert Elements(d) <= Elements(plan);
    StillFirst(state, now, d, state');
  }

  lemma StillFirst(state: map<Text, RecipientState>, now: u64, d: seq<(Text, u64)>, state': map<Text, RecipientState>)
    requires state'.Keys == state.Keys && AllExpiredFirst(state, now)
    requires forall r :: r in state ==> LogOf(state'[r]) == Log(state[r].seqNo, state[r].queue - Mine(d, r))
    ensures AllExpiredFirst(state', now)
  {
    forall r | r in state' ensures ExpiredFirst(state'[r].queue, now) {
      assert ExpiredFirst(state[r].queue, now);
    }
  }
}
