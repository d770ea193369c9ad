/** Histories of calls on the store interface, and the queue runs that the memory
    store's histories amount to. */
module Histories {
  import opened Machine
  import opened Text
  import opened Cursor
  import opened Messages
  import opened Queue
  import opened Runs
  import opened Paging
  import MemStore
  import MemPurge
  import Admission

  /** One call on the store interface, with its result. */
  datatype Op =
    | PushOp(msg: InboundMessage, limits: RelayLimits, pushed: Result<PushResult>)
    | PullOp(recipient: Text, cursor: Option<Cursor>, limit: u64, now: u64, pulled: Result<PullBatch>)
    | AckOp(recipient: Text, items: seq<AckItem>, outcome: AckOutcome)
    | PurgeOp(now: u64, max: nat, purged: Result<nat>)

  /** The same call seen from recipient `r`'s queue. Calls for other recipients are
      purges that drop nothing. */
  function EventFor(r: Text, op: Op): Event {
    match op
    case PushOp(msg, limits, res) => if msg.recipient == r then Event.Push(msg, limits, res) else Event.Purge(0)
    case PullOp(r', cursor, limit, now, res) => if r' == r then Event.Pull(cursor, limit, now, res) else Event.Purge(0)
    case AckOp(r', items, o) => if r' == r then Event.Ack(items, o) else Event.Purge(0)
    case PurgeOp(now, _, _) => Event.Purge(now)
  }

  function EventsFor(r: Text, ops: seq<Op>): (es: seq<Event>)
    ensures |es| == |ops| && forall i :: 0 <= i < |ops| ==> es[i] == EventFor(r, ops[i])
  {
    seq(|ops|, i requires 0 <= i < |ops| => EventFor(r, ops[i]))
  }

  // ---- memory store ----

  type MemState = map<Text, MemStore.RecipientState>

  ghost predicate MemStep(s: MemState, op: Op, s': MemState) {
    match op
    case PushOp(msg, limits, res) => MemStore.Pushes(s, msg, limits, res, s')
    case PullOp(r, cursor, limit, now, res) => MemStore.Pulls(s, r, cursor, limit, now, res, s')
    case AckOp(r, items, o) => MemStore.Acks(s, r, items, o, s')
    case PurgeOp(now, max, res) => res.Ok? && MemStore.Purges(s, now, max, res.value, s')
  }

  /** No stored push clips a counter. */
  ghost predicate MemRoom(s: MemState, op: Op) {
    op.PushOp? ==> !Clips(MemStore.LogOf(MemStore.Entry(s, op.msg.recipient)), op.msg, op.limits)
  }

  ghost predicate MemCalls(ss: seq<MemState>, ops: seq<Op>) {
    && |ss| == |ops| + 1 && ss[0] == map[]
    && forall i :: 0 <= i < |ops| ==> MemStep(ss[i], ops[i], ss[i + 1])
  }

  ghost predicate MemHistory(ss: seq<MemState>, ops: seq<Op>) {
    && MemCalls(ss, ops)
    && forall i :: 0 <= i < |ops| ==> MemRoom(ss[i], ops[i])
  }

  ghost function MemLogs(ss: seq<MemState>, r: Text): (ls: seq<Log>)
    ensures |ls| == |ss| && forall i :: 0 <= i < |ss| ==> ls[i] == MemStore.LogOf(MemStore.Entry(ss[i], r))
  {
    seq(|ss|, i requires 0 <= i < |ss| => MemStore.LogOf(MemStore.Entry(ss[i], r)))
  }

  lemma DropsNothing(l: Log, now: u64)
    ensures Drops(l, l, now)
  {
  }

  lemma MemStepRefines(s: MemState, op: Op, s': MemState, r: Text)
    requires MemStep(s, op, s') && MemRoom(s, op)
    ensures MemStore.AllConsistent(s')
    ensures Step(r, MemStore.LogOf(MemStore.Entry(s, r)), EventFor(r, op), MemStore.LogOf(MemStore.Entry(s', r)))
  {
    hide MemStore.AllConsistent, IsPush, IsPull, IsAck, Clips, MemStore.Evicted;
    DropsNothing(MemStore.LogOf(MemStore.Entry(s, r)), 0);
    match op
    case PushOp(msg, limits, res) =>
    case PullOp(r', cursor, limit, now, res) => MemStore.PullsStep(s, r', cursor, limit, now, res, s');
    case AckOp(r', items, o) => MemStore.AcksStep(s, r', items, o, s');
    case PurgeOp(now, max, res) =>
      MemPurge.PurgeDrops(s, now, max, res.value, s');
      MemPurge.DropsStep(r, s, s', now);
  }

  /** Every history of the memory store is, for each recipient, a run of its queue:
      all that is proved of runs and sessions holds of the store. */
  lemma MemRefines(ss: seq<MemState>, ops: seq<Op>, r: Text)
    requires MemHistory(ss, ops)
    ensures Run(r, MemLogs(ss, r), EventsFor(r, ops))
    ensures forall i :: 0 <= i < |ss| ==> MemStore.AllConsistent(ss[i])
  {
    hide MemStep, MemRoom, Step, MemStore.AllConsistent;
    var ls, es := MemLogs(ss, r), EventsFor(r, ops);
    EmptyMem(r);
    forall i | 0 <= i < |es| ensures Step(r, ls[i], es[i], ls[i + 1]) {
      MemStepRefines(ss[i], ops[i], ss[i + 1], r);
    }
    forall i | 0 <= i < |ss| ensures MemStore.AllConsistent(ss[i]) {
      if i > 0 { MemStepRefines(ss[i - 1], ops[i - 1], ss[i], r); }
    }
  }

  lemma EmptyMem(r: Text)
    ensures MemStore.LogOf(MemStore.Entry(map[], r)) == EMPTY && MemStore.AllConsistent(map[])
  {
  }

  lemma RoomNow(s: MemState, op: Op)
    requires op.PushOp? ==>
               op.limits.maxQueueBytesPerUser < U64_MAX && MemStore.Entry(s, op.msg.recipient).seqNo < U64_MAX
    ensures MemRoom(s, op)
  {
    hide Queued, Bytes;
  }

  lemma {:induction false} CounterBound(ss: seq<MemState>, ops: seq<Op>, i: nat, r: Text)
    requires MemCalls(ss, ops) && i <= |ops| < U64_MAX
    requires forall i :: 0 <= i < |ops| && ops[i].PushOp? ==> ops[i].limits.maxQueueBytesPerUser < U64_MAX
    ensures MemStore.Entry(ss[i], r).seqNo <= i
    decreases i
  {
    hide MemStep, MemRoom, Step;
    if i > 0 {
      var op := ops[i - 1];
      CounterBound(ss, ops, i - 1, r);
      CounterBound(ss, ops, i - 1, if op.PushOp? then op.msg.recipient else []);
      RoomNow(ss[i - 1], op);
      MemStepRefines(ss[i - 1], op, ss[i], r);
      StepIsLax(r, MemStore.LogOf(MemStore.Entry(ss[i - 1], r)), EventFor(r, op), MemStore.LogOf(MemStore.Entry(ss[i], r)));
    }
  }

  /** With a byte limit below 2^64 - 1 and fewer than 2^64 - 1 calls no addition ever
      clips: any such sequence of calls is a history. */
  lemma MemRoomFromLimits(ss: seq<MemState>, ops: seq<Op>)
    requires MemCalls(ss, ops) && |ops| < U64_MAX
    requires forall i :: 0 <= i < |ops| && ops[i].PushOp? ==> ops[i].limits.maxQueueBytesPerUser < U64_MAX
    ensures MemHistory(ss, ops)
  {
    hide MemStep, MemRoom;
    forall i | 0 <= i < |ops| ensures MemRoom(ss[i], ops[i]) {
      CounterBound(ss, ops, i, if ops[i].PushOp? then ops[i].msg.recipient else []);
      RoomNow(ss[i], ops[i]);
    }
  }

  /** So every paging session over the memory store returns increasing numbers, and
      every message that stays at each of its pages exactly once. */
  lemma MemSessionDelivers(ss: seq<MemState>, ops: seq<Op>, r: Text, idx: seq<nat>)
    requires MemHistory(ss, ops) && COLON !in r && Session(EventsFor(r, ops), idx, None)
    ensures var ls, es := MemLogs(ss, r), EventsFor(r, ops); var out := Delivered(es, idx, None);
            && Rising(out, 0) && (forall m :: m in out ==> PushedOnce(es, m))
            && forall k :: Stays(ls, es, idx, k) ==>
                 exists i :: 0 <= i < |out| && out[i] == ls[idx[0]].q[k] &&
                             forall j :: 0 <= j < |out| && out[j].arrivalSeq == k ==> j == i
  {
    hide MemStep, MemRoom, Session, Run, LaxRun, MemStore.AllConsistent, AllShow, Delivered;
    var ls, es := MemLogs(ss, r), EventsFor(r, ops);
    MemRefines(ss, ops, r);
    RunIsLax(r, ls, es);
    SessionPulls(es, idx, None);
    RunShows(r, ls, es, idx);
    SessionRises(r, ls, es, idx, None, 0);
    DeliveredArePushed(r, ls, es, idx, None, 0);
    forall k | Stays(ls, es, idx, k)
      ensures var out := Delivered(es, idx, None);
              exists i :: 0 <= i < |out| && out[i] == ls[idx[0]].q[k] &&
                          forall j :: 0 <= j < |out| && out[j].arrivalSeq == k ==> j == i
    {
      SessionDeliversOnce(r, ls, es, idx, k);
    }
  }

  /** With fixed limits the memory store's queues, and its recorded totals, stay within them. */
  lemma MemWithinLimits(ss: seq<MemState>, ops: seq<Op>, limits: RelayLimits, r: Text, i: nat)
    requires MemHistory(ss, ops) && i < |ss| && r in ss[i]
    requires forall j :: 0 <= j < |ops| && ops[j].PushOp? ==> ops[j].limits == limits
    ensures ss[i][r].quotaCount == |ss[i][r].queue| <= limits.maxMessagesPerUser
    ensures ss[i][r].quotaBytes == Bytes(ss[i][r].queue) <= limits.maxQueueBytesPerUser
  {
    hide MemHistory, Run, WellFormed, Bytes;
    MemRefines(ss, ops, r);
    QuotasHold(r, MemLogs(ss, r), EventsFor(r, ops), limits, i);
    assert MemStore.Consistent(r, ss[i][r]);
  }

  /** When every push was admitted under the same limits at nondecreasing times, the
      memory store's purges are complete at every moment of its history. */
  lemma MemPurgesComplete(ss: seq<MemState>, ops: seq<Op>, limits: RelayLimits, i: nat, now: u64)
    requires MemHistory(ss, ops) && i < |ss|
    requires forall r :: Admission.Admitted(EventsFor(r, ops), limits)
    ensures MemPurge.AllExpiredFirst(ss[i], now)
  {
    hide MemHistory, Run, MemStore.AllConsistent, Admission.Admitted, MemPurge.ExpiredFirst;
    forall r | r in ss[i] ensures MemPurge.ExpiredFirst(ss[i][r].queue, now) {
      MemRefines(ss, ops, r);
      RunIsLax(r, MemLogs(ss, r), EventsFor(r, ops));
      Admission.AdmittedExpiresInOrder(r, MemLogs(ss, r), EventsFor(r, ops), limits, i, now);
    }
  }

  /** The same items and the same next cursor; the estimate may differ. */
  predicate SamePage(a: Result<PullBatch>, b: Result<PullBatch>) {
    if a.Ok? && b.Ok? then a.value.items == b.value.items && a.value.nextCursor == b.value.nextCursor else a == b
  }

  lemma SameQueuePage(r: Text, l: Log, l': Log, now: u64, cursor: Option<Cursor>, limit: u64, later: u64,
                      a: Result<PullBatch>, la: Log, b: Result<PullBatch>, lb: Log)
    requires Drops(l, l', now) && now <= later
    requires IsPull(r, l, cursor, limit, later, a, la) && IsPull(r, l', cursor, limit, later, b, lb)
    ensures SamePage(a, b)
  {
    hide PageKeys, NextCursor, Items, Drops;
    if Start(r, cursor).Ok? { DropsInvisible(r, l, l', now, Start(r, cursor).value, limit, later); }
  }

  lemma MemForgets(s: MemState, s': MemState, now: u64, r: Text, cursor: Option<Cursor>, limit: u64, later: u64,
                             a: Result<PullBatch>, sa: MemState, b: Result<PullBatch>, sb: MemState)
    requires s'.Keys == s.Keys && now <= later
    requires Drops(MemStore.LogOf(MemStore.Entry(s, r)), MemStore.LogOf(MemStore.Entry(s', r)), now)
    requires MemStore.Pulls(s, r, cursor, limit, later, a, sa) && MemStore.Pulls(s', r, cursor, limit, later, b, sb)
    ensures SamePage(a, b)
  {
    hide Drops, IsPull, MemStore.AllConsistent, MemStore.Evicted;
    if r in s {
      SameQueuePage(r, MemStore.LogOf(s[r]), MemStore.LogOf(s'[r]), now, cursor, limit, later,
                    a, MemStore.LogOf(sa[r]), b, MemStore.LogOf(sb[r]));
    }
  }

  /** Readers of the memory store cannot tell whether a purge has happened ... */
  lemma MemPurgeUnseen(s: MemState, now: u64, max: nat, removed: nat, s': MemState,
                       r: Text, cursor: Option<Cursor>, limit: u64, later: u64,
                       a: Result<PullBatch>, sa: MemState, b: Result<PullBatch>, sb: MemState)
    requires MemStore.Purges(s, now, max, removed, s') && now <= later
    requires MemStore.Pulls(s, r, cursor, limit, later, a, sa) && MemStore.Pulls(s', r, cursor, limit, later, b, sb)
    ensures SamePage(a, b)
  {
    hide MemStore.Pulls, MemStore.Purges, Drops;
    MemPurge.PurgeDrops(s, now, max, removed, s');
    UnseenEntry(s, s', now, r);
    MemForgets(s, s', now, r, cursor, limit, later, a, sa, b, sb);
  }

  lemma UnseenEntry(s: MemState, s': MemState, now: u64, r: Text)
    requires MemPurge.AllDrop(s, s', now)
    ensures s'.Keys == s.Keys && Drops(MemStore.LogOf(MemStore.Entry(s, r)), MemStore.LogOf(MemStore.Entry(s', r)), now)
  {
  }

  /** ... nor whether any client's pull has evicted what it found expired. */
  lemma MemEvictionUnseen(s: MemState, r': Text, cursor': Option<Cursor>, limit': u64, now: u64, res: Result<PullBatch>, s': MemState,
                          r: Text, cursor: Option<Cursor>, limit: u64, later: u64,
                          a: Result<PullBatch>, sa: MemState, b: Result<PullBatch>, sb: MemState)
    requires MemStore.Pulls(s, r', cursor', limit', now, res, s') && now <= later
    requires MemStore.Pulls(s, r, cursor, limit, later, a, sa) && MemStore.Pulls(s', r, cursor, limit, later, b, sb)
    ensures SamePage(a, b)
  {
    hide MemStore.Pulls, Drops, Step;
    EvictionDropsAll(s, r', cursor', limit', now, res, s');
    UnseenEntry(s, s', now, r);
    MemForgets(s, s', now, r, cursor, limit, later, a, sa, b, sb);
  }

  lemma EvictionDropsAll(s: MemState, r: Text, cursor: Option<Cursor>, limit: u64, now: u64, res: Result<PullBatch>, s': MemState)
    requires MemStore.Pulls(s, r, cursor, limit, now, res, s')
    ensures MemPurge.AllDrop(s, s', now)
  {
    hide MemStore.AllConsistent, PageKeys, NextCursor, Items, MemStore.Evicted, Start;
  }
}
