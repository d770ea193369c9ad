/** One recipient's queue, as the relay promises it: a log of numbered messages
    with push, pull, acknowledge and expiry. Both stores are proved against it. */
module Queue {
  import opened Machine
  import opened Ordering
  import opened Text
  import opened Decimal
  import opened Cursor
  import opened Messages

  /** `next` is the arrival number the next stored push gets. */
  datatype Log = Log(next: u64, q: map<u64, QueueMessage>)

  const EMPTY := Log(0, map[])

  ghost predicate WellFormed(r: Text, l: Log) {
    && (forall s :: s in l.q ==> s < l.next && l.q[s].arrivalSeq == s && l.q[s].recipient == r)
    && (forall s, t :: s in l.q && t in l.q && ItemOf(l.q[s]) == ItemOf(l.q[t]) ==> s == t)
  }

  // ---- byte totals ----

  ghost function AnyKey(q: map<u64, QueueMessage>): (k: u64)
    requires q != map[]
    ensures k in q
  {
    assert q.Keys != {};
    var k :| k in q.Keys; k
  }

  ghost function Bytes(q: map<u64, QueueMessage>): nat
    decreases |q|
  {
    if q == map[] then 0
    else
      var k := AnyKey(q);
      assert (q - {k}).Keys == q.Keys - {k};
      q[k].payloadBytes + Bytes(q - {k})
  }

  lemma {:induction false} BytesRemove(q: map<u64, QueueMessage>, k: u64)
    requires k in q
    ensures Bytes(q) == q[k].payloadBytes + Bytes(q - {k})
    decreases |q|
  {
    var c := AnyKey(q);
    if c != k {
      assert (q - {c}).Keys == q.Keys - {c} && (q - {k}).Keys == q.Keys - {k};
      BytesRemove(q - {c}, k);
      BytesRemove(q - {k}, c);
      assert q - {c} - {k} == q - {k} - {c};
    }
  }

  lemma BytesInsert(q: map<u64, QueueMessage>, k: u64, m: QueueMessage)
    requires k !in q
    ensures Bytes(q[k := m]) == Bytes(q) + m.payloadBytes && |q[k := m]| == |q| + 1
  {
    hide Bytes;
    BytesRemove(q[k := m], k);
    assert q[k := m] - {k} == q;
    assert q[k := m].Keys == q.Keys + {k};
  }

  lemma RemoveOne(q: map<u64, QueueMessage>, k: u64)
    requires k in q
    ensures |q - {k}| == |q| - 1 && Bytes(q - {k}) == Bytes(q) - q[k].payloadBytes
  {
    hide Bytes;
    BytesRemove(q, k);
    assert (q - {k}).Keys == q.Keys - {k};
  }

  // ---- push ----

  ghost predicate Queued(q: map<u64, QueueMessage>, item: AckItem) {
    exists s :: s in q && ItemOf(q[s]) == item
  }

  ghost predicate Admits(l: Log, msg: InboundMessage, limits: RelayLimits) {
    |l.q| + 1 <= limits.maxMessagesPerUser && Bytes(l.q) + msg.payloadBytes <= limits.maxQueueBytesPerUser
  }

  ghost predicate Reports(res: Result<PushResult>, stored: bool, q: map<u64, QueueMessage>) {
    && res.Ok? && res.value.stored == stored && res.value.duplicate == !stored
    && res.value.queueLen == |q| && res.value.queueBytes == Bytes(q)
  }

  ghost predicate IsPush(l: Log, msg: InboundMessage, limits: RelayLimits, res: Result<PushResult>, l': Log) {
    if Queued(l.q, InboundItem(msg)) then Reports(res, false, l.q) && l' == l
    else if !Admits(l, msg, limits) then res == Err(QuotaExceeded) && l' == l
    else
      && l.next < U64_MAX
      && l' == Log(l.next + 1, l.q[l.next := Stored(msg, l.next)])
      && Reports(res, true, l'.q)
  }

  /** A push that is let in although one of the saturating additions clips: the
      arrival counter is exhausted, or the byte limit is 2^64 - 1 and passed. */
  ghost predicate Clips(l: Log, msg: InboundMessage, limits: RelayLimits) {
    && !Queued(l.q, InboundItem(msg))
    && Min(|l.q| + 1, U64_MAX) <= limits.maxMessagesPerUser
    && Min(Bytes(l.q) + msg.payloadBytes, U64_MAX) <= limits.maxQueueBytesPerUser
    && (l.next == U64_MAX || Bytes(l.q) + msg.payloadBytes > U64_MAX)
  }

  // ---- pull ----

  predicate U64Lt(a: u64, b: u64) { a < b }

  function InOrder(s: set<u64>): (r: seq<u64>)
    ensures Sorted(r, U64Lt) && (forall k :: k in r <==> k in s) && |r| == |s|
  {
    assert StrictTotal(U64Lt);
    Ascending(s, U64Lt)
  }

  function LiveKeys(q: map<u64, QueueMessage>, from: nat, now: u64): set<u64> {
    set s | s in q && from <= s && !Expired(q[s], now)
  }

  function Elements<T>(ks: seq<T>): set<T> {
    set k | k in ks
  }

  lemma ElementsStep<T>(s: seq<T>, j: nat)
    requires j < |s|
    ensures Elements(s[..j + 1]) == Elements(s[..j]) + {s[j]} && Elements(s[..0]) == {}
  {
    assert s[..j + 1] == s[..j] + [s[j]];
  }

  lemma {:induction false} ElementsSize<T>(s: seq<T>)
    ensures |Elements(s)| <= |s|
  {
    if s != [] {
      ElementsSize(s[..|s| - 1]);
      ElementsStep(s, |s| - 1);
      assert s[..|s|] == s;
    }
  }

  function EffectiveLimit(limit: u64): (n: nat)
    ensures n <= limit && n <= 0xFFFF_FFFF && (n == limit || n == 0xFFFF_FFFF)
  {
    Min(limit, U32_MAX)
  }

  function Take<T>(s: seq<T>, n: nat): (r: seq<T>)
    ensures r <= s && |r| == Min(n, |s|)
    ensures forall x :: x in r ==> x in s
  {
    s[..Min(n, |s|)]
  }

  function PageKeys(q: map<u64, QueueMessage>, from: nat, limit: u64, now: u64): (page: seq<u64>)
    ensures forall k :: k in page ==> k in q
  {
    Take(InOrder(LiveKeys(q, from, now)), EffectiveLimit(limit))
  }

  function Items<K>(q: map<K, QueueMessage>, ks: seq<K>): (r: seq<QueueMessage>)
    requires forall k :: k in ks ==> k in q
    ensures |r| == |ks| && forall i :: 0 <= i < |ks| ==> r[i] == q[ks[i]]
  {
    seq(|ks|, i requires 0 <= i < |ks| => q[ks[i]])
  }

  function After(s: u64): nat { s + 1 }

  /** The lowest arrival number a cursor allows. */
  function Start(r: Text, cursor: Option<Cursor>): Result<nat> {
    match cursor
    case None => Ok(0)
    case Some(c) =>
      match DecodeCursor(c)
      case Err(e) => Err(e)
      case Ok((named, s)) =>
        if named != r then Err(InvalidInput("cursor recipient mismatch")) else Ok(After(s))
  }

  /** A cursor for the last item, when a live message follows the page. */
  function NextCursor(r: Text, q: map<u64, QueueMessage>, from: nat, limit: u64, now: u64): Option<Cursor> {
    var page := PageKeys(q, from, limit, now);
    if |page| < |LiveKeys(q, from, now)| && page != [] then Some(EncodeCursor(r, page[|page| - 1])) else None
  }

  /** Some expired messages are forgotten; nothing else changes. */
  ghost predicate Drops(l: Log, l': Log, now: u64) {
    && l'.next == l.next
    && l'.q.Keys <= l.q.Keys
    && (forall s :: s in l'.q ==> l'.q[s] == l.q[s])
    && (forall s :: s in l.q && s !in l'.q ==> Expired(l.q[s], now))
  }

  ghost predicate IsPage(r: Text, l: Log, from: nat, limit: u64, now: u64, batch: PullBatch, l': Log) {
    && Drops(l, l', now)
    && batch.items == Items(l.q, PageKeys(l.q, from, limit, now))
    && batch.nextCursor == NextCursor(r, l.q, from, limit, now)
    && batch.remainingEstimate == |l'.q| - |batch.items|
  }

  ghost predicate IsPull(r: Text, l: Log, cursor: Option<Cursor>, limit: u64, now: u64,
                         res: Result<PullBatch>, l': Log) {
    match Start(r, cursor)
    case Err(e) => res == Err(e) && l' == l
    case Ok(from) => res.Ok? && IsPage(r, l, from, limit, now, res.value, l')
  }

  /** The live ones among `ks`, in the same order. */
  function LiveOf(q: map<u64, QueueMessage>, ks: seq<u64>, now: u64): (r: seq<u64>)
    requires forall k :: k in ks ==> k in q
    ensures forall k :: k in r <==> k in ks && !Expired(q[k], now)
  {
    if ks == [] then []
    else
      var last := ks[|ks| - 1];
      assert ks == ks[..|ks| - 1] + [last];
      LiveOf(q, ks[..|ks| - 1], now) + if Expired(q[last], now) then [] else [last]
  }

  lemma LiveOfStep(q: map<u64, QueueMessage>, ks: seq<u64>, i: nat, now: u64)
    requires i < |ks| && forall k :: k in ks ==> k in q
    ensures forall k :: k in ks[..i + 1] <==> k in ks[..i] || k == ks[i]
    ensures LiveOf(q, ks[..i + 1], now) ==
            LiveOf(q, ks[..i], now) + if Expired(q[ks[i]], now) then [] else [ks[i]]
    ensures Items(q, LiveOf(q, ks[..i + 1], now)) ==
            Items(q, LiveOf(q, ks[..i], now)) + if Expired(q[ks[i]], now) then [] else [q[ks[i]]]
  {
    assert ks[..i + 1] == ks[..i] + [ks[i]];
    assert ks[..i + 1][..i] == ks[..i];
  }

  lemma {:induction false} LiveOfPrefix(q: map<u64, QueueMessage>, ks: seq<u64>, now: u64, n: nat)
    requires n <= |ks| && forall k :: k in ks ==> k in q
    ensures LiveOf(q, ks[..n], now) <= LiveOf(q, ks, now)
  {
    if n == |ks| {
      assert ks[..n] == ks;
    } else {
      LiveOfPrefix(q, ks[..|ks| - 1], now, n);
      assert ks[..|ks| - 1][..n] == ks[..n];
    }
  }

  lemma {:induction false} LiveOfSorted(q: map<u64, QueueMessage>, ks: seq<u64>, now: u64)
    requires Sorted(ks, U64Lt) && forall k :: k in ks ==> k in q
    ensures Sorted(LiveOf(q, ks, now), U64Lt)
  {
    if ks != [] {
      var last, init := ks[|ks| - 1], ks[..|ks| - 1];
      LiveOfSorted(q, init, now);
      var live := LiveOf(q, init, now);
      forall i | 0 <= i < |live| ensures U64Lt(live[i], last) {
        assert live[i] in init;
      }
    }
  }

  /** Filtering an ordered scan of the keys from `from` on gives the live ones in order. */
  lemma LiveOfScan(q: map<u64, QueueMessage>, ks: seq<u64>, from: nat, now: u64)
    requires Sorted(ks, U64Lt) && forall k :: k in ks <==> k in q && from <= k
    ensures LiveOf(q, ks, now) == InOrder(LiveKeys(q, from, now))
  {
    hide LiveOf, InOrder, Expired;
    LiveOfSorted(q, ks, now);
    SortedUnique<u64>(LiveOf(q, ks, now), InOrder(LiveKeys(q, from, now)), U64Lt);
  }

  // ---- acknowledge ----

  function Named(q: map<u64, QueueMessage>, items: set<AckItem>): set<u64> {
    set s | s in q && ItemOf(q[s]) in items
  }

  ghost predicate IsAck(l: Log, items: set<AckItem>, o: AckOutcome, l': Log) {
    && l' == Log(l.next, l.q - Named(l.q, items))
    && o.deleted == |Named(l.q, items)|
    && o.remaining == |l'.q|
  }

  // ---- what push, acknowledge and cursors mean, in plain figures ----

  /** A push is a duplicate exactly when a message with its id and chunk is queued; any
      other is stored exactly when it fits, and refused with the queue unchanged if not. */
  lemma PushExactly(l: Log, msg: InboundMessage, limits: RelayLimits, res: Result<PushResult>, l': Log)
    requires WellFormed(msg.recipient, l) && IsPush(l, msg, limits, res, l')
    ensures var twin := exists s :: s in l.q && l.q[s].messageId == msg.messageId && l.q[s].meta.chunkIndex == msg.meta.chunkIndex;
            var fits := |l.q| + 1 <= limits.maxMessagesPerUser && Bytes(l.q) + msg.payloadBytes <= limits.maxQueueBytesPerUser;
            && (res.Ok? && res.value.duplicate <==> twin) && (res.Ok? && res.value.stored <==> !twin && fits)
            && (res.Err? ==> res.error == QuotaExceeded)
            && (res.Ok? ==> res.value.queueLen == |l'.q| && res.value.queueBytes == Bytes(l'.q))
            && (res.Ok? && res.value.stored ==>
                  |l'.q| == |l.q| + 1 && Bytes(l'.q) == Bytes(l.q) + msg.payloadBytes)
            && (!(res.Ok? && res.value.stored) ==> l' == l)
  {
    hide Bytes;
    TwinIsQueued(l.q, msg);
    assert l.next !in l.q;
    BytesInsert(l.q, l.next, Stored(msg, l.next));
  }

  lemma TwinIsQueued(q: map<u64, QueueMessage>, msg: InboundMessage)
    ensures Queued(q, InboundItem(msg)) <==>
            exists s :: s in q && q[s].messageId == msg.messageId && q[s].meta.chunkIndex == msg.meta.chunkIndex
  {
    if s :| s in q && q[s].messageId == msg.messageId && q[s].meta.chunkIndex == msg.meta.chunkIndex {
      assert ItemOf(q[s]) == InboundItem(msg);
    }
    if Queued(q, InboundItem(msg)) {
      var s :| s in q && ItemOf(q[s]) == InboundItem(msg);
      assert q[s].messageId == msg.messageId;
    }
  }

  /** An acknowledgement takes exactly the messages whose id and chunk it names. */
  lemma AckExactly(l: Log, items: set<AckItem>, o: AckOutcome, l': Log, s: u64)
    requires IsAck(l, items, o, l') && s in l.q
    ensures s in l'.q <==> AckItem(l.q[s].messageId, l.q[s].meta.chunkIndex) !in items
    ensures s in l'.q ==> l'.q[s] == l.q[s]
  {
  }

  /** What a cursor's text answers: it resumes after its number when it names `r`, is a
      mismatch when it names anyone else, and is invalid when it has no colon or no
      number after the first one. */
  lemma CursorAnswers(r: Text, field: Text, rest: Text)
    requires COLON !in field
    ensures var text := field + [COLON] + rest; var n := ParseU64(rest);
            && (n == None ==> Start(r, Some(Plain(text))) == Err(InvalidInput("invalid cursor")))
            && (n.Some? && field != r ==> Start(r, Some(Plain(text))) == Err(InvalidInput("cursor recipient mismatch")))
            && (n.Some? && field == r ==> Start(r, Some(Plain(text))) == Ok(n.value + 1))
    ensures Start(r, Some(Plain(field))) == Err(InvalidInput("invalid cursor"))
    ensures Start(r, Some(Garbled)) == Err(InvalidInput("invalid cursor")) && Start(r, None) == Ok(0)
  {
    hide ParseU64, DecodeCursor;
    DecodeFields(field, rest);
    NoColonNoCursor(field);
  }

  lemma NoColonNoCursor(field: Text)
    requires COLON !in field
    ensures DecodeCursor(Plain(field)) == Err(InvalidInput("invalid cursor"))
    ensures DecodeCursor(Garbled) == Err(InvalidInput("invalid cursor"))
  {
    hide ParseU64;
  }

  // ---- events ----

  datatype Event =
    | Push(msg: InboundMessage, limits: RelayLimits, pushed: Result<PushResult>)
    | Pull(cursor: Option<Cursor>, limit: u64, now: u64, pulled: Result<PullBatch>)
    | Ack(items: seq<AckItem>, outcome: AckOutcome)
    | Purge(now: u64)

  /** What a store may do to recipient `r`'s queue. The two alternatives for an
      empty log are the memory store's answers for a recipient it has never seen:
      it does not read the cursor, and it counts repeated items as missing. */
  ghost predicate Step(r: Text, l: Log, e: Event, l': Log) {
    match e
    case Push(msg, limits, res) => msg.recipient == r && IsPush(l, msg, limits, res, l')
    case Pull(cursor, limit, now, res) =>
      || IsPull(r, l, cursor, limit, now, res, l')
      || (l == l' == EMPTY && res == Ok(PullBatch([], None, 0)))
    case Ack(items, o) =>
      && IsAck(l, Elements(items), o, l')
      && (o.deleted + o.missing == |Elements(items)| || (l == EMPTY && o.missing == |items|))
    case Purge(now) => Drops(l, l', now)
  }

  lemma PushWellFormed(r: Text, l: Log, msg: InboundMessage, limits: RelayLimits, res: Result<PushResult>, l': Log)
    requires WellFormed(r, l) && msg.recipient == r && IsPush(l, msg, limits, res, l')
    ensures WellFormed(r, l')
  {
    hide Bytes;
  }

  lemma ShrinkWellFormed(r: Text, l: Log, l': Log)
    requires WellFormed(r, l) && l'.next == l.next && l'.q.Keys <= l.q.Keys && forall s :: s in l'.q ==> l'.q[s] == l.q[s]
    ensures WellFormed(r, l')
  {
  }

  lemma StepWellFormed(r: Text, l: Log, e: Event, l': Log)
    requires WellFormed(r, l) && Step(r, l, e, l')
    ensures WellFormed(r, l')
  {
    hide WellFormed, IsPush, Bytes, PageKeys, NextCursor, Items, Start, Named;
    match e
    case Push(msg, limits, res) => PushWellFormed(r, l, msg, limits, res, l');
    case Pull(_, _, _, _) => ShrinkWellFormed(r, l, l');
    case Ack(_, _) => ShrinkWellFormed(r, l, l');
    case Purge(_) => ShrinkWellFormed(r, l, l');
  }

  /** There are no more messages than arrival numbers given out. */
  lemma CountBound(r: Text, l: Log)
    requires WellFormed(r, l)
    ensures |l.q| <= l.next
  {
    BelowSize(l.q.Keys, l.next);
  }

  lemma {:induction false} BelowSize(s: set<u64>, n: nat)
    requires forall k :: k in s ==> k < n
    ensures |s| <= n
  {
    if n > 0 {
      BelowSize(s - {n - 1}, n - 1);
    } else {
      assert s == {};
    }
  }

  // ---- facts about pages ----

  /** Forgetting expired messages changes no later page: readers cannot tell
      whether a purge or an evicting pull has happened. */
  lemma DropsInvisible(r: Text, l: Log, l': Log, now: u64, from: nat, limit: u64, later: u64)
    requires Drops(l, l', now) && now <= later
    ensures PageKeys(l.q, from, limit, later) == PageKeys(l'.q, from, limit, later)
    ensures Items(l.q, PageKeys(l.q, from, limit, later)) == Items(l'.q, PageKeys(l'.q, from, limit, later))
    ensures NextCursor(r, l.q, from, limit, later) == NextCursor(r, l'.q, from, limit, later)
  {
    assert LiveKeys(l.q, from, later) == LiveKeys(l'.q, from, later);
    SameItems(l.q, l'.q, PageKeys(l.q, from, limit, later));
  }

  lemma SameItems(q: map<u64, QueueMessage>, q': map<u64, QueueMessage>, ks: seq<u64>)
    requires forall k :: k in ks ==> k in q && k in q' && q[k] == q'[k]
    ensures Items(q, ks) == Items(q', ks)
  {
    assert forall i :: 0 <= i < |ks| ==> ks[i] in ks;
  }

  /** The order of a page: ascending, every key live and at or after `from`, and no
      live key between `from` and the end of the page is skipped. */
  lemma PageShape(q: map<u64, QueueMessage>, from: nat, limit: u64, now: u64)
    ensures var live := LiveKeys(q, from, now); var page := PageKeys(q, from, limit, now);
            && Sorted(page, U64Lt)
            && (forall k :: k in page ==> k in live)
            && (|page| == |live| ==> forall k :: k in live ==> k in page)
            && (|page| < |live| && page != [] ==>
                forall k :: k in live ==> (k in page <==> k <= page[|page| - 1]))
  {
    var all := InOrder(LiveKeys(q, from, now));
    var page := PageKeys(q, from, limit, now);
    assert forall i :: 0 <= i < |page| ==> page[i] == all[i];
    if page != [] {
      var last := page[|page| - 1];
      forall k | k in LiveKeys(q, from, now) ensures k in page <==> k <= last {
        var i :| 0 <= i < |all| && all[i] == k;
        if i < |page| {
          assert page[i] == k;
          assert i == |page| - 1 || U64Lt(k, last);
        } else {
          assert U64Lt(last, all[i]);
        }
      }
    }
  }

  /** The live messages that follow a page are those of the next cursor's range. */
  lemma RestOfPage(q: map<u64, QueueMessage>, from: nat, limit: u64, now: u64)
    requires var page := PageKeys(q, from, limit, now); page != [] && |page| < |LiveKeys(q, from, now)|
    ensures var page := PageKeys(q, from, limit, now); var last := page[|page| - 1];
            && |page| == EffectiveLimit(limit)
            && from <= last
            && LiveKeys(q, After(last), now) == LiveKeys(q, from, now) - Elements(page)
            && |LiveKeys(q, After(last), now)| == |LiveKeys(q, from, now)| - |page|
  {
    hide PageKeys, InOrder;
    PageShape(q, from, limit, now);
    FullPage(q, from, limit, now);
    var page := PageKeys(q, from, limit, now);
    var last := page[|page| - 1];
    assert last in page;
    SortedSize(page);
    assert LiveKeys(q, After(last), now) == LiveKeys(q, from, now) - Elements(page);
    assert Elements(page) <= LiveKeys(q, from, now);
  }

  lemma FullPage(q: map<u64, QueueMessage>, from: nat, limit: u64, now: u64)
    requires |PageKeys(q, from, limit, now)| < |LiveKeys(q, from, now)|
    ensures |PageKeys(q, from, limit, now)| == EffectiveLimit(limit)
  {
  }

  lemma SortedSize(ks: seq<u64>)
    requires Sorted(ks, U64Lt)
    ensures |Elements(ks)| == |ks|
  {
    SortedUnique<u64>(InOrder(Elements(ks)), ks, U64Lt);
  }

  lemma LiveBound(q: map<u64, QueueMessage>, from: nat, now: u64)
    ensures |LiveKeys(q, from, now)| <= |q|
  {
    SubsetSize(LiveKeys(q, from, now), q.Keys);
  }

  lemma {:induction false} SubsetSize<T>(a: set<T>, b: set<T>)
    requires a <= b
    ensures |a| <= |b|
    decreases |a|
  {
    if a != {} {
      var x :| x in a;
      SubsetSize(a - {x}, b - {x});
    }
  }

  /** What one page tells the client: with a positive limit there is a next cursor
      exactly when a further live message exists, and the estimate counts at least
      the live messages still to come. */
  lemma PageBoundary(r: Text, l: Log, from: nat, limit: u64, now: u64, batch: PullBatch, l': Log)
    requires IsPage(r, l, from, limit, now, batch, l') && 0 < limit
    ensures batch.nextCursor.Some? <==> exists k :: k in LiveKeys(l.q, from, now) && k !in PageKeys(l.q, from, limit, now)
    ensures batch.remainingEstimate >= |LiveKeys(l.q, from, now)| - |batch.items|
    ensures |batch.items| == Min(Min(limit, 0xFFFF_FFFF), |LiveKeys(l.q, from, now)|)
  {
    var live, page := LiveKeys(l.q, from, now), PageKeys(l.q, from, limit, now);
    MissingKey(l.q, from, limit, now);
    assert LiveKeys(l'.q, from, now) == live;
    LiveBound(l'.q, from, now);
  }

  /** The same in plain figures: as many messages with a deadline after `now` and a
      number from `from` on as the limit and 2^32 - 1 allow. */
  lemma PageFigures(r: Text, q: map<u64, QueueMessage>, from: nat, limit: u64, now: u64)
    ensures var live := set s | s in q && from <= s && now < q[s].deadlineMs;
            var n := Min(Min(limit, 0xFFFF_FFFF), |live|);
            && |Items(q, PageKeys(q, from, limit, now))| == n
            && (NextCursor(r, q, from, limit, now).Some? <==> 0 < n < |live|)
  {
    hide InOrder, EncodeCursor;
    assert LiveKeys(q, from, now) == set s | s in q && from <= s && now < q[s].deadlineMs;
  }

  lemma MissingKey(q: map<u64, QueueMessage>, from: nat, limit: u64, now: u64)
    ensures |PageKeys(q, from, limit, now)| < |LiveKeys(q, from, now)| <==>
            exists k :: k in LiveKeys(q, from, now) && k !in PageKeys(q, from, limit, now)
  {
    var live, page := LiveKeys(q, from, now), PageKeys(q, from, limit, now);
    PageShape(q, from, limit, now);
    var seen := Elements(page);
    SortedSize(page);
    if forall k :: k in live ==> k in page { SubsetSize(live, seen); }
  }
}
