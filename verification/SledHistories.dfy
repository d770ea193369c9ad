/** Whole histories of the persistent store, with purges that may be broken off
    anywhere, and the queue runs they amount to. */
module SledHistories {
  import opened Machine
  import opened Text
  import opened Keys
  import opened Cursor
  import opened Messages
  import opened Queue
  import opened Runs
  import opened Paging
  import opened Histories
  import opened SledTrees
  import SledStore
  import SledScan
  import SledPurge

  ghost predicate SledStep(t: Trees, op: Op, t': Trees)
    requires Safe(t)
  {
    match op
    case PushOp(msg, limits, res) => SledStore.Pushes(t, msg, limits, res, t')
    case PullOp(r, cursor, limit, now, res) => t' == t && res == SledScan.PullOf(t, r, cursor, limit, now)
    case AckOp(r, items, o) => SledStore.Acks(t, r, items, o, t')
    case PurgeOp(now, max, res) => SledPurge.Purged(t, now, max, res, t')
  }

  /** No addition of a stored push clips. */
  predicate SledRoom(t: Trees, op: Op, t': Trees) {
    op.PushOp? && t' != t ==> SledStore.Room(t, op.msg)
  }

  ghost predicate SledCalls(ts: seq<Trees>, ops: seq<Op>) {
    && |ts| == |ops| + 1 && ts[0] == NO_TREES
    && forall i :: 0 <= i < |ops| && Safe(ts[i]) ==> SledStep(ts[i], ops[i], ts[i + 1])
  }

  /** Any calls, by any number of clients; purges may fail at any point. */
  ghost predicate SledHistory(ts: seq<Trees>, ops: seq<Op>) {
    && SledCalls(ts, ops)
    && forall i :: 0 <= i < |ops| ==> SledRoom(ts[i], ops[i], ts[i + 1])
  }

  lemma StepSafe(t: Trees, op: Op, t': Trees)
    requires Safe(t) && SledStep(t, op, t') && SledRoom(t, op, t')
    ensures Safe(t')
  {
    hide WellKeyed, Indexed, Numbered, Covers, SledPurge.Plan, Exact, Step, SledStore.Room, ViewLog;
  }

  lemma EmptyTrees(r: Text)
    ensures Exact(NO_TREES) && Safe(NO_TREES) && WellKeyed(NO_TREES.messages) && ViewLog(NO_TREES, r) == EMPTY
    ensures QuotaOf(NO_TREES.quota, r) == SledTrees.QuotaValue(0, 0) && Excess(NO_TREES, r) == (0, 0)
  {
    hide View, KeyOf, Indexed, Numbered, Covers, QuotaOf, Bytes, Orphans, IdxOf;
    EmptyExact();
    ViewIs(NO_TREES.messages, r, map[]);
    NoQuota(r);
  }

  /** Whatever fails on the way, every queued message keeps its own index entry and
      no quota is ever under-counted. */
  lemma {:induction false} StaysSafe(ts: seq<Trees>, ops: seq<Op>, i: nat)
    requires SledHistory(ts, ops) && i < |ts|
    ensures Safe(ts[i]) && WellKeyed(ts[i].messages)
  {
    hide SledStep, SledRoom, WellKeyed, Indexed, Numbered, Covers;
    if i == 0 {
      EmptyTrees([]);
    } else {
      StaysSafe(ts, ops, i - 1);
      StepSafe(ts[i - 1], ops[i - 1], ts[i]);
    }
  }

  // ---- every history is a lax run ----

  ghost function SledLogs(ts: seq<Trees>, r: Text): (ls: seq<Log>)
    requires forall i :: 0 <= i < |ts| ==> WellKeyed(ts[i].messages)
    ensures |ls| == |ts| && forall i :: 0 <= i < |ts| ==> ls[i] == ViewLog(ts[i], r)
  {
    seq(|ts|, i requires 0 <= i < |ts| => ViewLog(ts[i], r))
  }

  lemma PushIsLax(t: Trees, msg: InboundMessage, limits: RelayLimits, res: Result<PushResult>, t': Trees)
    requires Safe(t) && SledStore.Pushes(t, msg, limits, res, t') && (t' != t ==> SledStore.Room(t, msg))
    ensures LaxStep(msg.recipient, ViewLog(t, msg.recipient), Event.Push(msg, limits, res), ViewLog(t', msg.recipient))
  {
    hide View, KeyOf, Indexed, Numbered, Covers, Excess, Orphans, Exact, SledStore.Fits, Clips, Step, Within, NextSeq, QuotaOf, WellKeyed, Queued,
      IdxKey;
    var r := msg.recipient;
    IndexLeads(t, r, InboundItem(msg));
    ViewWellFormed(t, r);
    RoomBelow(t, msg);
    var l := ViewLog(t, r);
    if res.Ok? && res.value.stored {
      assert l.next !in l.q && l.next in ViewLog(t', r).q;
    }
  }

  lemma RoomBelow(t: Trees, msg: InboundMessage)
    ensures SledStore.Room(t, msg) ==> NextSeq(t.seqs, msg.recipient) < U64_MAX
  {
  }

  lemma StepIsLax(t: Trees, op: Op, t': Trees, r: Text)
    requires Safe(t) && Safe(t') && SledStep(t, op, t') && SledRoom(t, op, t')
    ensures LaxStep(r, ViewLog(t, r), EventFor(r, op), ViewLog(t', r))
  {
    hide View, Indexed, Numbered, Covers, Excess, Orphans, Exact, SledStore.Fits, Clips, Step, Within, QuotaOf, WellKeyed, SledStore.Room,
      SledPurge.Purged, Drops, Named;
    DropsNothing(ViewLog(t, r), 0);
    match op
    case PushOp(msg, limits, res) => if msg.recipient == r { PushIsLax(t, msg, limits, res, t'); }
    case PullOp(r', cursor, limit, now, res) => DropsNothing(ViewLog(t, r), now);
    case AckOp(r', items, o) =>
    case PurgeOp(now, max, res) =>
      SledPurge.PurgedStep(t, now, max, res, t', r);
      Runs.StepIsLax(r, ViewLog(t, r), Event.Purge(now), ViewLog(t', r));
  }

  /** Every history of the persistent store, whatever failed on the way, is for each
      recipient a lax run of its queue. */
  lemma IsLaxRun(ts: seq<Trees>, ops: seq<Op>, r: Text)
    requires SledHistory(ts, ops)
    ensures forall i :: 0 <= i < |ts| ==> Safe(ts[i]) && WellKeyed(ts[i].messages)
    ensures LaxRun(r, SledLogs(ts, r), EventsFor(r, ops))
  {
    hide SledStep, SledRoom, Indexed, Numbered, Covers, WellKeyed, Safe, EventFor, LaxStep, ViewLog;
    forall i | 0 <= i < |ts| ensures Safe(ts[i]) && WellKeyed(ts[i].messages) { StaysSafe(ts, ops, i); }
    var ls, es := SledLogs(ts, r), EventsFor(r, ops);
    EmptyTrees(r);
    forall i | 0 <= i < |es| ensures LaxStep(r, ls[i], es[i], ls[i + 1]) {
      StepIsLax(ts[i], ops[i], ts[i + 1], r);
    }
  }

  /** So nothing is lost or invented, and no arrival number names two messages. */
  lemma Conserves(ts: seq<Trees>, ops: seq<Op>, r: Text, i: nat, k: u64)
    requires SledHistory(ts, ops) && i < |ts|
    ensures forall j :: 0 <= j < |ts| ==> WellKeyed(ts[j].messages)
    ensures var ls, es := SledLogs(ts, r), EventsFor(r, ops); var l := ViewLog(ts[|ops|], r);
            && l.next == StoredCount(es) == |l.q| + AckedCount(es) + DroppedCount(ls, es)
            && DroppedCount(ls, es) >= 0
            && (k in l.q && k < ls[i].next ==> k in ls[i].q && ls[i].q[k] == l.q[k])
  {
    hide SledStep, SledRoom, LaxRun, WellKeyed, Safe, ViewLog;
    IsLaxRun(ts, ops, r);
    var ls, es := SledLogs(ts, r), EventsFor(r, ops);
    Conservation(r, ls, es);
    if k in ls[|ops|].q && k < ls[i].next { NumbersAreNeverReused(r, ls, es, i, |ops|, k); }
  }

  lemma PullShows(t: Trees, op: Op, t': Trees)
    requires Safe(t) && SledStep(t, op, t') && op.PullOp? && SledScan.Readable(t.messages, op.recipient)
    ensures Shows(op.recipient, ViewLog(t, op.recipient), EventFor(op.recipient, op))
  {
    hide View, Indexed, Numbered, Covers, WellKeyed, SledScan.PullOf, SledScan.Readable, QuotaOf, NextSeq, PageKeys, Items, NextCursor, Start;
    SledScan.PullIsPage(t, op.recipient, op.cursor, op.limit, op.now);
  }

  /** The pages `idx` of `r`'s session find keys they can read. */
  ghost predicate AllReadable(ts: seq<Trees>, r: Text, idx: seq<nat>) {
    forall j :: 0 <= j < |idx| ==> idx[j] < |ts| && SledScan.Readable(ts[idx[j]].messages, r)
  }

  lemma SessionShows(ts: seq<Trees>, ops: seq<Op>, r: Text, idx: seq<nat>)
    requires SledHistory(ts, ops) && AllReadable(ts, r, idx)
    requires forall j :: 0 <= j < |idx| ==> idx[j] < |ops| && EventFor(r, ops[idx[j]]).Pull?
    ensures forall i :: 0 <= i < |ts| ==> WellKeyed(ts[i].messages)
    ensures AllShow(r, SledLogs(ts, r), EventsFor(r, ops), idx)
  {
    hide SledStep, SledRoom, Indexed, Numbered, Covers, WellKeyed, Safe, Shows, ViewLog, SledScan.Readable;
    forall i | 0 <= i < |ts| ensures Safe(ts[i]) && WellKeyed(ts[i].messages) { StaysSafe(ts, ops, i); }
    var ls, es := SledLogs(ts, r), EventsFor(r, ops);
    forall j | 0 <= j < |idx| ensures Shows(r, ls[idx[j]], es[idx[j]]) {
      PullShows(ts[idx[j]], ops[idx[j]], ts[idx[j] + 1]);
    }
  }

  /** A whole paging session over the persistent store, with anything in between and
      any purge broken off anywhere, returns increasing numbers, and every message that
      stays at each of its pages exactly once. */
  lemma SessionDelivers(ts: seq<Trees>, ops: seq<Op>, r: Text, idx: seq<nat>)
    requires SledHistory(ts, ops) && COLON !in r && Session(EventsFor(r, ops), idx, None) && AllReadable(ts, r, idx)
    ensures forall i :: 0 <= i < |ts| ==> WellKeyed(ts[i].messages)
    ensures var ls, es := SledLogs(ts, r), EventsFor(r, ops); var out := Delivered(es, idx, None);
            && Rising(out, 0) && (forall m :: m in out ==> PushedOnce(es, m))
            && forall k :: Stays(ls, es, idx, k) ==>
                 exists i :: 0 <= i < |out| && out[i] == ls[idx[0]].q[k] &&
                             forall j :: 0 <= j < |out| && out[j].arrivalSeq == k ==> j == i
  {
    hide SledStep, SledRoom, Session, LaxRun, WellKeyed, Safe, ViewLog, AllReadable, AllShow, Delivered;
    IsLaxRun(ts, ops, r);
    var ls, es := SledLogs(ts, r), EventsFor(r, ops);
    SessionPulls(es, idx, None);
    SessionShows(ts, ops, r, idx);
    SessionRises(r, ls, es, idx, None, 0);
    DeliveredArePushed(r, ls, es, idx, None, 0);
    forall k | Stays(ls, es, idx, k)
      ensures var out := Delivered(es, idx, None);
              exists i :: 0 <= i < |out| && out[i] == ls[idx[0]].q[k] &&
                          forall j :: 0 <= j < |out| && out[j].arrivalSeq == k ==> j == i
    {
      SessionDeliversOnce(r, ls, es, idx, k);
    }
  }

  // ---- limits ----

  lemma DropsWithin(l: Log, l': Log, limits: RelayLimits)
    requires Within(l, limits) && l'.q.Keys <= l.q.Keys && forall s :: s in l'.q ==> l'.q[s] == l.q[s]
    ensures Within(l', limits)
  {
    BytesMonotone(l.q, l'.q);
  }

  lemma StepWithinLimits(t: Trees, op: Op, t': Trees, r: Text, limits: RelayLimits)
    requires Safe(t) && Safe(t') && SledStep(t, op, t') && SledRoom(t, op, t') && Within(ViewLog(t, r), limits)
    requires op.PushOp? ==> op.limits == limits
    ensures Within(ViewLog(t', r), limits)
  {
    hide View, Indexed, Numbered, Covers, Exact, SledPurge.Purged, SledStore.Room, Within, Bytes, NextSeq, Excess, WellKeyed, Clips,
      SledStore.Fits, Orphans, QuotaOf;
    match op
    case PushOp(msg, _, res) =>
      if t' != t && msg.recipient != r { assert ViewLog(t', r) == ViewLog(t, r); }
    case PullOp(_, _, _, _, _) =>
    case AckOp(r', items, _) => DropsWithin(ViewLog(t, r), ViewLog(t', r), limits);
    case PurgeOp(now, max, res) =>
      SledPurge.PurgedStep(t, now, max, res, t', r);
      DropsWithin(ViewLog(t, r), ViewLog(t', r), limits);
  }

  lemma EmptyWithin(r: Text, limits: RelayLimits)
    ensures WellKeyed(NO_TREES.messages) && Within(ViewLog(NO_TREES, r), limits)
  {
    hide View, KeyOf, Indexed, Numbered, Covers, QuotaOf, Orphans, IdxOf, WellKeyed, Excess;
    EmptyTrees(r);
  }

  /** So with fixed limits the true size of every queue stays within them, also
      after any number of purges that stopped half-way. */
  lemma {:induction false} WithinLimits(ts: seq<Trees>, ops: seq<Op>, limits: RelayLimits, r: Text, i: nat)
    requires SledHistory(ts, ops) && i < |ts|
    requires forall j :: 0 <= j < |ops| && ops[j].PushOp? ==> ops[j].limits == limits
    ensures Safe(ts[i]) && Within(ViewLog(ts[i], r), limits)
  {
    hide SledStep, SledRoom, Within, Indexed, Numbered, Covers, WellKeyed, ViewLog;
    StaysSafe(ts, ops, i);
    if i == 0 {
      EmptyWithin(r, limits);
    } else {
      WithinLimits(ts, ops, limits, r, i - 1);
      StepWithinLimits(ts[i - 1], ops[i - 1], ts[i], r, limits);
    }
  }

  // ---- how far records and index can be off ----

  predicate FailedPurge(op: Op) {
    op.PurgeOp? && op.purged.Err?
  }

  /** Messages and bytes of `r` that a step takes away without spending its record. */
  ghost function LostIn(t: Trees, op: Op, t': Trees, r: Text): (int, int)
    requires WellKeyed(t.messages) && WellKeyed(t'.messages)
  {
    var q, q' := View(t.messages, r), View(t'.messages, r);
    if FailedPurge(op) then (|q| - |q'|, Bytes(q) - Bytes(q')) else (0, 0)
  }

  /** Messages and bytes of `r` removed by purges that failed, in the first `n` calls. */
  ghost function Lost(ts: seq<Trees>, ops: seq<Op>, r: Text, n: nat): (int, int)
    requires n <= |ops| < |ts| && forall i :: 0 <= i < |ts| ==> WellKeyed(ts[i].messages)
  {
    if n == 0 then (0, 0)
    else
      var (count, bytes) := Lost(ts, ops, r, n - 1);
      var (c, b) := LostIn(ts[n - 1], ops[n - 1], ts[n], r);
      (count + c, bytes + b)
  }

  lemma StepExcess(t: Trees, op: Op, t': Trees, r: Text)
    requires Safe(t) && Safe(t') && SledStep(t, op, t') && SledRoom(t, op, t')
    ensures var (c, b) := LostIn(t, op, t', r);
            && c >= 0 && b >= 0
            && Excess(t', r).0 <= Excess(t, r).0 + c && Excess(t', r).1 <= Excess(t, r).1 + b
            && (!FailedPurge(op) ==> Excess(t', r) == Excess(t, r))
  {
    hide View, Indexed, Numbered, Covers, Exact, SledStore.Room, Within, Bytes, NextSeq, WellKeyed, Clips, SledStore.Fits, Orphans, QuotaOf,
      Step, Named, SledPurge.Plan, Excess;
    if FailedPurge(op) {
      FailedExcess(t, op.now, op.max, op.purged, t', r);
    }
  }

  lemma FailedExcess(t: Trees, now: u64, max: nat, res: Result<nat>, t': Trees, r: Text)
    requires Safe(t) && Safe(t') && SledPurge.Purged(t, now, max, res, t') && res.Err?
    ensures var q, q' := View(t.messages, r), View(t'.messages, r);
            && |q'| <= |q| && Bytes(q') <= Bytes(q)
            && Excess(t', r).0 <= Excess(t, r).0 + (|q| - |q'|)
            && Excess(t', r).1 <= Excess(t, r).1 + (Bytes(q) - Bytes(q'))
            && QuotaOf(t'.quota, r).count <= QuotaOf(t.quota, r).count
            && QuotaOf(t'.quota, r).bytes <= QuotaOf(t.quota, r).bytes
  {
    hide View, Indexed, Numbered, Covers, Bytes, NextSeq, WellKeyed, QuotaOf, SledPurge.Plan, SledPurge.IdxsOf, Elements, Take;
    SledPurge.PurgedStep(t, now, max, res, t', r);
    BytesMonotone(View(t.messages, r), View(t'.messages, r));
    var n: nat, m: nat :| SledPurge.BrokenOff(t, SledPurge.Plan(t.messages, now), n, m, t');
    assert SledPurge.RecordKept(t, t', r);
  }

  /** A quota record never exceeds the truth by more than what broken-off purges have
      removed of that recipient, and never falls short of it. */
  lemma {:induction false} ExcessBound(ts: seq<Trees>, ops: seq<Op>, r: Text, i: nat)
    requires SledHistory(ts, ops) && i < |ts|
    ensures forall j :: 0 <= j < |ts| ==> WellKeyed(ts[j].messages)
    ensures 0 <= Excess(ts[i], r).0 <= Lost(ts, ops, r, i).0 && 0 <= Excess(ts[i], r).1 <= Lost(ts, ops, r, i).1
  {
    hide SledStep, SledRoom, Indexed, Numbered, WellKeyed, Excess, LostIn;
    forall j | 0 <= j < |ts| ensures Safe(ts[j]) && WellKeyed(ts[j].messages) { StaysSafe(ts, ops, j); }
    assert Covers(ts[i], r);
    if i == 0 {
      EmptyTrees(r);
    } else {
      ExcessBound(ts, ops, r, i - 1);
      StepExcess(ts[i - 1], ops[i - 1], ts[i], r);
    }
  }

  /** So a push that is no duplicate is admitted whenever the queue, with what broken-off
      purges have removed of it, leaves room. */
  lemma PushAdmitted(ts: seq<Trees>, ops: seq<Op>, i: nat)
    requires SledHistory(ts, ops) && i < |ops| && ops[i].PushOp?
    requires var msg := ops[i].msg; IdxKey(msg.recipient, InboundItem(msg)) !in ts[i].index
    ensures forall j :: 0 <= j < |ts| ==> WellKeyed(ts[j].messages)
    ensures var msg, limits, l := ops[i].msg, ops[i].limits, ViewLog(ts[i], ops[i].msg.recipient);
            var (count, bytes) := Lost(ts, ops, msg.recipient, i);
            && (|l.q| + count + 1 <= limits.maxMessagesPerUser &&
                Bytes(l.q) + bytes + msg.payloadBytes <= limits.maxQueueBytesPerUser ==>
                StoredPush(EventFor(msg.recipient, ops[i])))
  {
    hide SledRoom, Indexed, Numbered, WellKeyed, Covers, Excess, LostIn, Bytes, View, IdxKey, Clips, Exact, Within, QuotaOf, Orphans, Lost, NextSeq;
    var msg := ops[i].msg;
    StaysSafe(ts, ops, i);
    ExcessBound(ts, ops, msg.recipient, i);
    assert SledStep(ts[i], ops[i], ts[i + 1]);
  }

  ghost function FailedPurges(ops: seq<Op>, n: nat): nat
    requires n <= |ops|
  {
    if n == 0 then 0 else FailedPurges(ops, n - 1) + if FailedPurge(ops[n - 1]) then 1 else 0
  }

  lemma StepOrphans(t: Trees, op: Op, t': Trees)
    requires Safe(t) && SledStep(t, op, t')
    ensures |Orphans(t')| <= |Orphans(t)| + if FailedPurge(op) then 1 else 0
  {
    hide View, Indexed, Numbered, Covers, Exact, WellKeyed, Clips, SledStore.Fits, Orphans, QuotaOf, Step, Named, SledPurge.Purged, Excess;
    if op.PurgeOp? {
      SledPurge.PurgedOrphans(t, op.now, op.max, op.purged, t');
      if FailedPurge(op) {
        var k :| Orphans(t') <= Orphans(t) + {k};
        SubsetSize(Orphans(t'), Orphans(t) + {k});
      } else {
        SubsetSize(Orphans(t'), Orphans(t));
      }
    } else {
      SubsetSize(Orphans(t'), Orphans(t));
    }
  }

  /** Each broken-off purge leaves at most one orphan index entry behind. */
  lemma {:induction false} OrphanBound(ts: seq<Trees>, ops: seq<Op>, i: nat)
    requires SledHistory(ts, ops) && i < |ts|
    ensures |Orphans(ts[i])| <= FailedPurges(ops, i)
  {
    hide SledStep, SledRoom, Safe, Orphans;
    if i == 0 {
      NothingOrphaned();
    } else {
      OrphanBound(ts, ops, i - 1);
      StaysSafe(ts, ops, i - 1);
      StepOrphans(ts[i - 1], ops[i - 1], ts[i]);
    }
  }

  lemma NothingOrphaned()
    ensures Orphans(NO_TREES) == {}
  {
  }

  // ---- which pushes are called duplicates without being any ----

  predicate Names(op: Op, r: Text, item: AckItem) {
    op.AckOp? && op.recipient == r && item in op.items
  }

  /** A purge that failed between taking a message of `r` away and clearing its entry. */
  ghost predicate Strands(t: Trees, op: Op, t': Trees, r: Text, item: AckItem) {
    && FailedPurge(op) && WellKeyed(t.messages) && WellKeyed(t'.messages)
    && SledPurge.LeavesOrphan(t, op.now, t', IdxKey(r, item))
  }

  predicate Unnamed(ops: seq<Op>, from: nat, to: nat, r: Text, item: AckItem)
    requires to <= |ops|
  {
    forall k :: from <= k < to ==> !Names(ops[k], r, item)
  }

  /** Such a purge was among the first `i` calls, and no acknowledgement by `r` has named
      the message since. */
  ghost predicate StrandedSince(ts: seq<Trees>, ops: seq<Op>, i: nat, r: Text, item: AckItem)
    requires i <= |ops| < |ts|
  {
    exists j :: 0 <= j < i && Strands(ts[j], ops[j], ts[j + 1], r, item) && Unnamed(ops, j + 1, i, r, item)
  }

  lemma StrandedStep(ts: seq<Trees>, ops: seq<Op>, i: nat, r: Text, item: AckItem)
    requires i < |ops| < |ts|
    ensures StrandedSince(ts, ops, i + 1, r, item) <==>
            Strands(ts[i], ops[i], ts[i + 1], r, item) || (StrandedSince(ts, ops, i, r, item) && !Names(ops[i], r, item))
  {
    hide Strands, Names;
    if StrandedSince(ts, ops, i, r, item) && !Names(ops[i], r, item) {
      var j :| 0 <= j < i && Strands(ts[j], ops[j], ts[j + 1], r, item) && Unnamed(ops, j + 1, i, r, item);
      assert Unnamed(ops, j + 1, i + 1, r, item);
    }
  }

  lemma AckClears(r: Text, item: AckItem, r': Text, items: seq<AckItem>)
    ensures IdxKey(r, item) in SledStore.Idxs(r', Elements(items)) <==> r' == r && item in items
  {
    hide IndexKey;
    forall other | other in items && IdxKey(r', other) == IdxKey(r, item) ensures r' == r && other == item {
      IndexKeyInjective(r, item.messageId, item.chunkIndex, r', other.messageId, other.chunkIndex);
    }
    if r' == r && item in items { assert item in Elements(items); }
  }

  lemma StepOrphan(t: Trees, op: Op, t': Trees, r: Text, item: AckItem)
    requires Safe(t) && Safe(t') && SledStep(t, op, t')
    ensures IdxKey(r, item) in Orphans(t') <==>
            Strands(t, op, t', r, item) || (IdxKey(r, item) in Orphans(t) && !Names(op, r, item))
  {
    hide View, Indexed, Numbered, Covers, Exact, WellKeyed, Clips, SledStore.Fits, Orphans, QuotaOf, Step, Named, SledPurge.Purged, Excess,
      IdxKey, SledPurge.LeavesOrphan, SledStore.Idxs, Within, NextSeq;
    match op
    case PushOp(_, _, _) =>
    case PullOp(_, _, _, _, _) =>
    case AckOp(r', items, _) => AckClears(r, item, r', items);
    case PurgeOp(now, max, res) => SledPurge.PurgedOrphans(t, now, max, res, t');
  }

  /** An index entry is an orphan exactly when a broken-off purge has left it behind and
      no acknowledgement has cleared it since. */
  lemma {:induction false} OrphanExactly(ts: seq<Trees>, ops: seq<Op>, i: nat, r: Text, item: AckItem)
    requires SledHistory(ts, ops) && i < |ts|
    ensures IdxKey(r, item) in Orphans(ts[i]) <==> StrandedSince(ts, ops, i, r, item)
  {
    hide SledStep, SledRoom, Safe, Orphans, Strands, Names, IdxKey;
    if i == 0 {
      NothingOrphaned();
    } else {
      OrphanExactly(ts, ops, i - 1, r, item);
      StaysSafe(ts, ops, i - 1);
      StaysSafe(ts, ops, i);
      StepOrphan(ts[i - 1], ops[i - 1], ts[i], r, item);
      StrandedStep(ts, ops, i - 1, r, item);
    }
  }

  /** So a push is reported as a duplicate exactly when its message is queued or
      stranded, and it is wrongly reported exactly when it is stranded. */
  lemma FalseDuplicate(ts: seq<Trees>, ops: seq<Op>, i: nat)
    requires SledHistory(ts, ops) && i < |ops| && ops[i].PushOp?
    ensures WellKeyed(ts[i].messages)
    ensures var r, item, res := ops[i].msg.recipient, InboundItem(ops[i].msg), ops[i].pushed;
            var queued, stranded := Queued(View(ts[i].messages, r), item), StrandedSince(ts, ops, i, r, item);
            && (res.Ok? && res.value.duplicate <==> queued || stranded)
            && (res.Ok? && res.value.duplicate && !queued <==> stranded)
  {
    hide Covers, Numbered, View, Queued, Orphans, StrandedSince, IdxKey, Exact, Clips, Step, Within, QuotaOf, Excess, SledStore.Fits, NextSeq,
      SledStore.Room;
    var msg := ops[i].msg;
    StaysSafe(ts, ops, i);
    OrphanExactly(ts, ops, i, msg.recipient, InboundItem(msg));
    IndexLeads(ts[i], msg.recipient, InboundItem(msg));
    assert SledStep(ts[i], ops[i], ts[i + 1]);
  }

  // ---- when nothing clips ----

  /** Counter and record of `r` have not grown past `n`. */
  ghost predicate Below(t: Trees, r: Text, n: nat) {
    NextSeq(t.seqs, r) <= n && QuotaOf(t.quota, r).count <= n
  }

  lemma RoomNow(t: Trees, op: Op, t': Trees, n: nat)
    requires Safe(t) && SledStep(t, op, t') && n < U64_MAX
    requires op.PushOp? ==> op.limits.maxQueueBytesPerUser < U64_MAX && Below(t, op.msg.recipient, n)
    ensures SledRoom(t, op, t')
  {
    hide View, Indexed, Numbered, Covers, Exact, WellKeyed, Clips, Orphans, QuotaOf, Step, Within, IdxKey, NextSeq, Bytes;
  }

  lemma StepBelow(t: Trees, op: Op, t': Trees, r: Text, n: nat)
    requires Safe(t) && Safe(t') && SledStep(t, op, t') && SledRoom(t, op, t') && Below(t, r, n)
    ensures Below(t', r, n + 1)
  {
    hide View, Indexed, Numbered, Covers, Exact, WellKeyed, Clips, Orphans, QuotaOf, Bytes, NextSeq, SledStore.Fits, SledStore.Room, Step,
      SledPurge.Plan, SledStep, SledRoom, SledPurge.Purged;
    StepIsLax(t, op, t', r);
    StepExcess(t, op, t', r);
    ViewWellFormed(t, r);
    StepConserves(r, ViewLog(t, r), EventFor(r, op), ViewLog(t', r));
    if FailedPurge(op) {
      FailedRecord(t, op, t', r);
    } else {
      SameRecord(t, t', r);
    }
  }

  lemma FailedRecord(t: Trees, op: Op, t': Trees, r: Text)
    requires Safe(t) && Safe(t') && SledStep(t, op, t') && FailedPurge(op)
    ensures QuotaOf(t'.quota, r).count <= QuotaOf(t.quota, r).count
  {
    hide QuotaOf, SledPurge.Purged, Safe, View, Bytes, Excess;
    FailedExcess(t, op.now, op.max, op.purged, t', r);
  }

  lemma SameRecord(t: Trees, t': Trees, r: Text)
    requires WellKeyed(t.messages) && WellKeyed(t'.messages) && Excess(t', r) == Excess(t, r)
    ensures QuotaOf(t'.quota, r).count - QuotaOf(t.quota, r).count == |View(t'.messages, r)| - |View(t.messages, r)|
  {
    hide QuotaOf, View, Bytes, WellKeyed;
  }

  /** With a byte limit below 2^64 - 1 and fewer than 2^64 - 1 calls no addition ever
      clips, whatever purges are broken off: any such sequence of calls is a history. */
  lemma RoomFromLimits(ts: seq<Trees>, ops: seq<Op>)
    requires SledCalls(ts, ops) && |ops| < U64_MAX
    requires forall i :: 0 <= i < |ops| && ops[i].PushOp? ==> ops[i].limits.maxQueueBytesPerUser < U64_MAX
    ensures SledHistory(ts, ops)
  {
    hide SledStep, SledRoom, Safe, Below;
    forall i | 0 <= i < |ops| ensures SledRoom(ts[i], ops[i], ts[i + 1]) {
      StaysBelow(ts, ops, i, if ops[i].PushOp? then ops[i].msg.recipient else []);
      RoomNow(ts[i], ops[i], ts[i + 1], i);
    }
  }

  lemma {:induction false} StaysBelow(ts: seq<Trees>, ops: seq<Op>, i: nat, r: Text)
    requires SledCalls(ts, ops) && i <= |ops| < U64_MAX
    requires forall i :: 0 <= i < |ops| && ops[i].PushOp? ==> ops[i].limits.maxQueueBytesPerUser < U64_MAX
    ensures Safe(ts[i]) && Below(ts[i], r, i)
    decreases i
  {
    hide SledStep, SledRoom, Indexed, Numbered, Covers, QuotaOf, NextSeq;
    if i == 0 {
      EmptyTrees(r);
    } else {
      var op := ops[i - 1];
      StaysBelow(ts, ops, i - 1, r);
      StaysBelow(ts, ops, i - 1, if op.PushOp? then op.msg.recipient else []);
      RoomNow(ts[i - 1], op, ts[i], i - 1);
      StepSafe(ts[i - 1], op, ts[i]);
      StepBelow(ts[i - 1], op, ts[i], r, i - 1);
    }
  }

  /** Readers of the persistent store cannot tell whether a purge has happened,
      completed or not: the same items and the same next cursor, or the same error. */
  lemma ReadersCannotTell(t: Trees, now: u64, max: nat, purged: Result<nat>, t': Trees,
                          r: Text, cursor: Option<Cursor>, limit: u64, later: u64)
    requires Safe(t) && SledPurge.Purged(t, now, max, purged, t') && now <= later && SledScan.AllNumeric(t.messages, r)
    ensures SamePage(SledScan.PullOf(t, r, cursor, limit, later), SledScan.PullOf(t', r, cursor, limit, later))
  {
    hide Safe, SledPurge.Purged, OnlyExpired, SledScan.AllNumeric, SledScan.Scan, SledScan.Resume, SledScan.ScanKeys, QuotaOf, EncodeCursor;
    SledPurge.PurgedOnlyExpired(t, now, max, purged, t');
    var start := SledScan.Resume(r, cursor);
    if start.Ok? {
      SledScan.ScanForgets(t.messages, t'.messages, r, start.value, EffectiveLimit(limit), now, later);
    }
  }

  // ---- exactness ----

  lemma StepExact(t: Trees, op: Op, t': Trees)
    requires Exact(t) && SledStep(t, op, t') && SledRoom(t, op, t') && !FailedPurge(op)
    ensures Exact(t')
  {
    hide Orphans, Excess, View, Indexed, Numbered, Covers, Clips, SledScan.PullOf, SledPurge.Purged, NextSeq, Step, SledStore.Room,
      SledStore.Fits, QuotaOf, Within, Named;
    if op.PurgeOp? { SledPurge.PurgedExact(t, op.now, op.max, op.purged, t'); }
  }

  /** Every purge of the history completes. */
  ghost predicate OrderlyHistory(ts: seq<Trees>, ops: seq<Op>) {
    SledHistory(ts, ops) && forall i :: 0 <= i < |ops| ==> !FailedPurge(ops[i])
  }

  /** While purges complete, index and messages are in bijection and every quota is
      exact, whatever is pulled by whom. */
  lemma {:induction false} StaysExact(ts: seq<Trees>, ops: seq<Op>, i: nat)
    requires OrderlyHistory(ts, ops) && i < |ts|
    ensures Exact(ts[i])
  {
    hide SledStep, SledRoom, FailedPurge, Indexed, Numbered, Covers, WellKeyed, Orphans, Excess;
    StaysSafe(ts, ops, i);
    if i == 0 {
      EmptyTrees([]);
    } else {
      StaysExact(ts, ops, i - 1);
      StepExact(ts[i - 1], ops[i - 1], ts[i]);
    }
  }

  lemma StepRefines(t: Trees, op: Op, t': Trees, r: Text)
    requires Exact(t) && Exact(t') && SledStep(t, op, t') && !FailedPurge(op)
    requires op.PullOp? && op.recipient == r ==> SledScan.Readable(t.messages, r)
    ensures Step(r, ViewLog(t, r), EventFor(r, op), ViewLog(t', r))
  {
    hide Orphans, Excess, View, Indexed, Numbered, Covers, Clips, SledScan.PullOf, SledScan.Readable, SledPurge.Purged, NextSeq,
      IsPush, IsPull, IsAck, SledStore.Room, SledStore.Fits, QuotaOf, Within, Named, Drops;
    DropsNothing(ViewLog(t, r), 0);
    match op
    case PushOp(msg, limits, res) =>
    case PullOp(r', cursor, limit, now, res) => if r' == r { SledScan.PullRefines(t, r, cursor, limit, now); }
    case AckOp(r', items, o) =>
    case PurgeOp(now, max, res) => SledPurge.PurgedStep(t, now, max, res, t', r);
  }

  /** And for each recipient whose own pulls find readable keys the history is a run of
      its queue, counts and estimates included. */
  lemma Refines(ts: seq<Trees>, ops: seq<Op>, r: Text)
    requires OrderlyHistory(ts, ops)
    requires forall i :: 0 <= i < |ops| && ops[i].PullOp? && ops[i].recipient == r ==> SledScan.Readable(ts[i].messages, r)
    ensures forall i :: 0 <= i < |ts| ==> Exact(ts[i]) && WellKeyed(ts[i].messages)
    ensures Run(r, SledLogs(ts, r), EventsFor(r, ops))
  {
    hide SledStep, SledRoom, FailedPurge, Indexed, Numbered, Covers, WellKeyed, Orphans, Excess, EventFor, Step, ViewLog, SledScan.Readable;
    forall i | 0 <= i < |ts| ensures Exact(ts[i]) && WellKeyed(ts[i].messages) { StaysExact(ts, ops, i); }
    var ls, es := SledLogs(ts, r), EventsFor(r, ops);
    EmptyTrees(r);
    forall i | 0 <= i < |es| ensures Step(r, ls[i], es[i], ls[i + 1]) {
      StepRefines(ts[i], ops[i], ts[i + 1], r);
    }
  }
}
