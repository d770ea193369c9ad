/** The background collector (src/ttl.rs): purge at every tick until shutdown. The
    clock readings are given; the shutdown is the end of the sequence. */
module Gc {
  import opened Machine
  import opened Ordering
  import opened Text
  import opened Messages
  import opened Queue
  import opened SledTrees
  import MemStore
  import MemPurge
  import SledPurge
  import SledStore

  const BATCH: nat := 1024

  function Sum(counts: seq<nat>): nat {
    if counts == [] then 0 else Sum(counts[..|counts| - 1]) + counts[|counts| - 1]
  }

  lemma SumStep(counts: seq<nat>, n: nat)
    ensures Sum(counts + [n]) == Sum(counts) + n
  {
    assert (counts + [n])[..|counts|] == counts;
  }

  // ---- memory store ----

  type MemState = map<Text, MemStore.RecipientState>

  /** `states[i]` is the store before the i-th tick, which removed `counts[i]` messages. */
  ghost predicate MemRun(states: seq<MemState>, ticks: seq<u64>, counts: seq<nat>) {
    && |states| == |ticks| + 1 && |counts| == |ticks|
    && forall i :: 0 <= i < |ticks| ==> MemStore.Purges(states[i], ticks[i], BATCH, counts[i], states[i + 1])
  }

  method RunGcMemory(store: MemStore.MemStore, ticks: seq<u64>)
    returns (gcRemoved: nat, ghost states: seq<MemState>, ghost counts: seq<nat>)
    requires store.Valid()
    modifies store
    ensures store.Valid()
    ensures MemRun(states, ticks, counts) && states[0] == old(store.state) && states[|ticks|] == store.state
    ensures gcRemoved == Sum(counts)
  {
    hide MemStore.Purges;
    gcRemoved, states, counts := 0, [store.state], [];
    for i := 0 to |ticks|
      invariant store.Valid()
      invariant |states| == i + 1 && |counts| == i && states[0] == old(store.state) && states[i] == store.state
      invariant forall j :: 0 <= j < i ==> MemStore.Purges(states[j], ticks[j], BATCH, counts[j], states[j + 1])
      invariant gcRemoved == Sum(counts)
    {
      var removed := store.PurgeExpired(ticks[i], BATCH);
      PurgeValid(states[i], ticks[i], removed, store.state);
      SumStep(counts, removed);
      states, counts := states + [store.state], counts + [removed];
      if removed > 0 {
        gcRemoved := gcRemoved + removed;
      }
    }
  }

  lemma PurgeValid(state: MemState, now: u64, removed: nat, state': MemState)
    requires MemStore.Purges(state, now, BATCH, removed, state')
    ensures MemStore.AllConsistent(state')
  {
  }

  /** With a fixed clock and nothing else going on, E expired messages are gone after
      ceil(E / 1024) ticks, counted once each, and no live message is touched. */
  lemma {:induction false} MemDrains(states: seq<MemState>, ticks: seq<u64>, counts: seq<nat>, now: u64)
    requires MemRun(states, ticks, counts) && (forall t :: t in ticks ==> t == now)
    requires MemPurge.AllExpiredFirst(states[0], now)
    ensures var n := |ticks|; var e := |MemPurge.ExpiredPairs(states[0], now)|;
            && MemPurge.AllExpiredFirst(states[n], now)
            && |MemPurge.ExpiredPairs(states[n], now)| == e - Min(e, 1024 * n)
            && Sum(counts) == Min(e, 1024 * n)
            && MemPurge.AllDrop(states[0], states[n], now)
            && (1024 * n >= e ==> MemPurge.ExpiredPairs(states[n], now) == {})
  {
    hide MemPurge.ExpiredPairs, MemPurge.AllExpiredFirst, MemStore.Purges;
    if |ticks| > 0 {
      var k := |ticks| - 1;
      assert forall t :: t in ticks[..k] ==> t in ticks;
      MemDrains(states[..k + 1], ticks[..k], counts[..k], now);
      assert ticks[k] in ticks;
      MemPurge.PurgeComplete(states[k], now, BATCH, counts[k], states[k + 1]);
      MemPurge.PurgeDrops(states[k], now, BATCH, counts[k], states[k + 1]);
    }
  }

  // ---- persistent store ----

  /** `trees[i]` is the store before the i-th tick, whose purge returned `results[i]`. */
  ghost predicate SledRun(trees: seq<Trees>, ticks: seq<u64>, results: seq<Result<nat>>) {
    && |trees| == |ticks| + 1 && |results| == |ticks|
    && (forall i :: 0 <= i < |trees| ==> Safe(trees[i]))
    && forall i :: 0 <= i < |ticks| ==> SledPurge.Purged(trees[i], ticks[i], BATCH, results[i], trees[i + 1])
  }

  function Removed(res: Result<nat>): nat {
    if res.Ok? then res.value else 0
  }

  ghost function Total(results: seq<Result<nat>>): nat {
    if results == [] then 0 else Total(results[..|results| - 1]) + Removed(results[|results| - 1])
  }

  lemma TotalStep(results: seq<Result<nat>>, res: Result<nat>)
    ensures Total(results + [res]) == Total(results) + Removed(res)
  {
    assert (results + [res])[..|results|] == results;
  }

  /** `budgets[i]` says how many storage calls succeed during the i-th purge; an
      error ends that purge and the collector carries on with the next tick. */
  method RunGcSled(store: SledStore.SledStore, ticks: seq<u64>, budgets: seq<nat>)
    returns (gcRemoved: nat, ghost trees: seq<Trees>, ghost results: seq<Result<nat>>)
    requires store.Valid() && |budgets| == |ticks|
    modifies store
    ensures store.Valid()
    ensures SledRun(trees, ticks, results) && trees[0] == old(store.T()) && trees[|ticks|] == store.T()
    ensures gcRemoved == Total(results)
    ensures forall i :: 0 <= i < |ticks| && budgets[i] >= 5 * |trees[i].messages| ==> results[i].Ok?
  {
    hide SledPurge.Purged, Safe;
    gcRemoved, trees, results := 0, [store.T()], [];
    for i := 0 to |ticks|
      invariant |trees| == i + 1 && |results| == i && trees[0] == old(store.T()) && trees[i] == store.T()
      invariant forall j :: 0 <= j <= i ==> Safe(trees[j])
      invariant forall j :: 0 <= j < i ==> SledPurge.Purged(trees[j], ticks[j], BATCH, results[j], trees[j + 1])
      invariant gcRemoved == Total(results)
      invariant forall j :: 0 <= j < i && budgets[j] >= 5 * |trees[j].messages| ==> results[j].Ok?
    {
      var result := store.PurgeExpired(ticks[i], BATCH, budgets[i]);
      PurgedSafe(trees[i], ticks[i], result, store.T());
      TotalStep(results, result);
      trees, results := trees + [store.T()], results + [result];
      if result.Ok? {
        gcRemoved := gcRemoved + result.value;
      }
    }
  }

  lemma PurgedSafe(t: Trees, now: u64, res: Result<nat>, t': Trees)
    requires Safe(t) && SledPurge.Purged(t, now, BATCH, res, t')
    ensures Safe(t')
  {
    hide WellKeyed, Indexed, Numbered, Covers;
  }

  function DueKeys(ms: map<Text, QueueMessage>, now: u64): set<Text> {
    set k | k in ms && Expired(ms[k], now)
  }

  lemma SortedTextSize(ks: seq<Text>)
    requires Sorted(ks, TextLt)
    ensures |Elements(ks)| == |ks|
  {
    TextLtTotal();
    AscendingIs(Elements(ks), ks, TextLt);
  }

  lemma PlanSize(ms: map<Text, QueueMessage>, now: u64, n: nat)
    ensures var plan := SledPurge.Plan(ms, now);
            && |plan| == |DueKeys(ms, now)| && Elements(plan) == DueKeys(ms, now)
            && |Elements(Take(plan, n))| == Min(n, |plan|) && Elements(Take(plan, n)) <= DueKeys(ms, now)
  {
    hide TextLt, SledPurge.DueOf, SledPurge.AllKeys;
    var plan := SledPurge.Plan(ms, now);
    SledPurge.DueSorted(ms, SledPurge.AllKeys(ms), now);
    SortedTextSize(plan);
    SortedTextSize(Take(plan, n));
    assert Elements(plan) == DueKeys(ms, now);
  }

  /** One purge: complete, it removes as many expired messages as it may, whatever
      the deadline order; broken off, it still removes nothing else. */
  lemma PurgeShrinks(t: Trees, now: u64, res: Result<nat>, t': Trees)
    requires Safe(t) && SledPurge.Purged(t, now, BATCH, res, t')
    ensures OnlyExpired(t.messages, t'.messages, now)
    ensures |DueKeys(t'.messages, now)| <= |DueKeys(t.messages, now)| - Removed(res)
    ensures res.Ok? ==> res.value == Min(1024, |DueKeys(t.messages, now)|)
    ensures res.Ok? ==> |DueKeys(t'.messages, now)| == |DueKeys(t.messages, now)| - res.value
  {
    hide WellKeyed, Indexed, Numbered, Covers, SledPurge.Plan, Excess, SledPurge.IdxsOf, Elements, Take, Expired;
    var plan := SledPurge.Plan(t.messages, now);
    var n: nat := match res case Ok(_) => Min(BATCH, SledPurge.GC_BATCH_LIMIT) case Err(_) =>
      var n: nat, m: nat :| SledPurge.BrokenOff(t, plan, n, m, t'); n;
    PlanSize(t.messages, now, n);
    assert DueKeys(t'.messages, now) == DueKeys(t.messages, now) - Elements(Take(plan, n));
  }

  ghost function Completed(results: seq<Result<nat>>): nat {
    if results == [] then 0 else Completed(results[..|results| - 1]) + if results[|results| - 1].Ok? then 1 else 0
  }

  /** With a fixed clock and nothing else going on, E expired messages are gone once
      ceil(E / 1024) purges have completed, in whatever order their deadlines came,
      however many others failed on the way; no live message is touched. */
  lemma {:induction false} SledDrains(trees: seq<Trees>, ticks: seq<u64>, results: seq<Result<nat>>, now: u64)
    requires SledRun(trees, ticks, results) && (forall t :: t in ticks ==> t == now)
    ensures var n, e := |ticks|, |DueKeys(trees[0].messages, now)|; var left := |DueKeys(trees[n].messages, now)|;
            && OnlyExpired(trees[0].messages, trees[n].messages, now)
            && left + Total(results) <= e
            && (left == 0 || left + 1024 * Completed(results) <= e)
            && (1024 * Completed(results) >= e ==> DueKeys(trees[n].messages, now) == {})
            && (Completed(results) == n ==> left + Total(results) == e)
  {
    hide DueKeys, SledPurge.Purged, Safe;
    if |ticks| > 0 {
      var k := |ticks| - 1;
      assert forall t :: t in ticks[..k] ==> t in ticks;
      SledDrains(trees[..k + 1], ticks[..k], results[..k], now);
      assert ticks[k] in ticks;
      PurgeShrinks(trees[k], now, results[k], trees[k + 1]);
      CompletedBound(results[..k]);
    }
  }

  lemma CompletedBound(results: seq<Result<nat>>)
    ensures Completed(results) <= |results|
  {
  }
}
