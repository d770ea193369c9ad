/** Whole paging sessions: a client starts without a cursor and follows
    `nextCursor` until it is absent, while anything may happen in between. */
module Paging {
  import opened Machine
  import opened Text
  import opened Cursor
  import opened Messages
  import opened Queue
  import opened Runs

  predicate PageEvent(e: Event) {
    e.Pull? && e.limit > 0 && e.pulled.Ok?
  }

  /** The events `idx` of a run are the pages of one session that starts at `cursor`. */
  ghost predicate Session(es: seq<Event>, idx: seq<nat>, cursor: Option<Cursor>) {
    && idx != [] && idx[0] < |es|
    && var e := es[idx[0]];
    && PageEvent(e) && e.cursor == cursor
    && var next := e.pulled.value.nextCursor;
    && if |idx| == 1 then next == None
       else next.Some? && idx[0] < idx[1] && Session(es, idx[1..], next)
  }

  /** The pull `e` tells the truth about the queue `l`: its items and its cursor are the
      page's. The alternative for an empty log is the memory store's answer for a
      recipient it has never seen. */
  ghost predicate Shows(r: Text, l: Log, e: Event) {
    && e.Pull?
    && match Start(r, e.cursor)
       case Err(err) => e.pulled == Err(err) || (l == EMPTY && e.pulled == Ok(PullBatch([], None, 0)))
       case Ok(from) =>
         && e.pulled.Ok?
         && e.pulled.value.items == Items(l.q, PageKeys(l.q, from, e.limit, e.now))
         && e.pulled.value.nextCursor == NextCursor(r, l.q, from, e.limit, e.now)
  }

  ghost predicate AllShow(r: Text, ls: seq<Log>, es: seq<Event>, idx: seq<nat>)
    requires |ls| == |es| + 1
  {
    forall j :: 0 <= j < |idx| ==> idx[j] < |es| && Shows(r, ls[idx[j]], es[idx[j]])
  }

  lemma StepShows(r: Text, l: Log, e: Event, l': Log)
    requires Step(r, l, e, l') && e.Pull?
    ensures Shows(r, l, e)
  {
    hide NextCursor;
    if !IsPull(r, l, e.cursor, e.limit, e.now, e.pulled, l') && Start(r, e.cursor).Ok? {
      NothingLive(r, Start(r, e.cursor).value, e.limit, e.now);
    }
  }

  lemma NothingLive(r: Text, from: nat, limit: u64, now: u64)
    ensures Items(map[], PageKeys(map[], from, limit, now)) == [] && NextCursor(r, map[], from, limit, now) == None
  {
    assert LiveKeys(map[], from, now) == {};
  }

  /** In a run of the queue every session's pages tell the truth. */
  lemma RunShows(r: Text, ls: seq<Log>, es: seq<Event>, idx: seq<nat>)
    requires Run(r, ls, es) && forall j :: 0 <= j < |idx| ==> idx[j] < |es| && es[idx[j]].Pull?
    ensures AllShow(r, ls, es, idx)
  {
    hide Step, Shows;
    forall j | 0 <= j < |idx| ensures Shows(r, ls[idx[j]], es[idx[j]]) {
      StepShows(r, ls[idx[j]], es[idx[j]], ls[idx[j] + 1]);
    }
  }

  lemma ShowsRest(r: Text, ls: seq<Log>, es: seq<Event>, idx: seq<nat>)
    requires |ls| == |es| + 1 && idx != [] && AllShow(r, ls, es, idx)
    ensures AllShow(r, ls, es, idx[1..])
  {
    hide Shows;
    assert forall j :: 0 <= j < |idx| - 1 ==> idx[1..][j] == idx[j + 1];
  }

  lemma {:induction false} SessionPulls(es: seq<Event>, idx: seq<nat>, cursor: Option<Cursor>)
    requires Session(es, idx, cursor)
    ensures idx != [] && forall j :: 0 <= j < |idx| ==> idx[j] < |es| && es[idx[j]].Pull?
    decreases |idx|
  {
    if |idx| > 1 {
      SessionPulls(es, idx[1..], es[idx[0]].pulled.value.nextCursor);
      assert forall j :: 1 <= j < |idx| ==> idx[j] == idx[1..][j - 1];
    }
  }

  /** Everything the session returned, in the order received. */
  ghost function Delivered(es: seq<Event>, idx: seq<nat>, cursor: Option<Cursor>): seq<QueueMessage>
    requires Session(es, idx, cursor)
  {
    var batch := es[idx[0]].pulled.value;
    batch.items + if |idx| == 1 then [] else Delivered(es, idx[1..], batch.nextCursor)
  }

  ghost predicate Rising(ms: seq<QueueMessage>, from: nat) {
    && (forall i :: 0 <= i < |ms| ==> from <= ms[i].arrivalSeq)
    && (forall i, j :: 0 <= i < j < |ms| ==> ms[i].arrivalSeq < ms[j].arrivalSeq)
  }

  /** What one page of a session says about the queue it was taken from. */
  ghost predicate PageOf(r: Text, q: map<u64, QueueMessage>, from: nat, now: u64, batch: PullBatch) {
    && Rising(batch.items, from)
    && (forall m :: m in batch.items ==> m.arrivalSeq in LiveKeys(q, from, now) && q[m.arrivalSeq] == m)
    && (batch.nextCursor.Some? ==>
        (batch.items != [] && Start(r, batch.nextCursor) == Ok(After(batch.items[|batch.items| - 1].arrivalSeq))))
    && (forall k :: k in LiveKeys(q, from, now) ==>
        q[k] in batch.items ||
        (batch.nextCursor.Some? && batch.items != [] && batch.items[|batch.items| - 1].arrivalSeq < k))
  }

  lemma PageItems(q: map<u64, QueueMessage>, from: nat, limit: u64, now: u64)
    requires forall k :: k in q ==> q[k].arrivalSeq == k
    ensures var page := PageKeys(q, from, limit, now); var items := Items(q, page);
            && Rising(items, from)
            && (forall m :: m in items ==> m.arrivalSeq in LiveKeys(q, from, now) && q[m.arrivalSeq] == m)
  {
    hide PageKeys, Items;
    var page := PageKeys(q, from, limit, now);
    PageShape(q, from, limit, now);
    assert forall i :: 0 <= i < |page| ==> page[i] in page;
  }

  lemma LastItem(q: map<u64, QueueMessage>, page: seq<u64>)
    requires page != [] && forall k :: k in page ==> k in q && q[k].arrivalSeq == k
    ensures var items := Items(q, page); items != [] && items[|items| - 1].arrivalSeq == page[|page| - 1]
  {
    assert page[|page| - 1] in page;
  }

  lemma PageCovers(r: Text, q: map<u64, QueueMessage>, from: nat, limit: u64, now: u64, k: u64)
    requires limit > 0 && forall s :: s in q ==> q[s].arrivalSeq == s
    requires k in LiveKeys(q, from, now)
    ensures var items := Items(q, PageKeys(q, from, limit, now));
            q[k] in items ||
            (NextCursor(r, q, from, limit, now).Some? && items != [] && items[|items| - 1].arrivalSeq < k)
  {
    var page := PageKeys(q, from, limit, now);
    PageShape(q, from, limit, now);
    if k in page {
      var i :| 0 <= i < |page| && page[i] == k;
      assert Items(q, page)[i] == q[k];
    } else {
      LastItem(q, page);
    }
  }

  lemma CursorContinues(r: Text, q: map<u64, QueueMessage>, from: nat, limit: u64, now: u64)
    requires COLON !in r && forall s :: s in q ==> q[s].arrivalSeq == s
    requires NextCursor(r, q, from, limit, now).Some?
    ensures var items := Items(q, PageKeys(q, from, limit, now));
            items != [] && Start(r, NextCursor(r, q, from, limit, now)) == Ok(After(items[|items| - 1].arrivalSeq))
  {
    hide PageKeys, LiveKeys, EncodeCursor, DecodeCursor, InOrder;
    var page := PageKeys(q, from, limit, now);
    LastItem(q, page);
    CursorRoundTrip(r, page[|page| - 1]);
  }

  lemma ItemsArePage(r: Text, q: map<u64, QueueMessage>, from: nat, limit: u64, now: u64, batch: PullBatch)
    requires COLON !in r && limit > 0 && forall s :: s in q ==> q[s].arrivalSeq == s
    requires batch.items == Items(q, PageKeys(q, from, limit, now))
    requires batch.nextCursor == NextCursor(r, q, from, limit, now)
    ensures PageOf(r, q, from, now, batch)
  {
    PageItems(q, from, limit, now);
    if batch.nextCursor.Some? { CursorContinues(r, q, from, limit, now); }
    forall k | k in LiveKeys(q, from, now)
      ensures q[k] in batch.items ||
              (batch.nextCursor.Some? && batch.items != [] && batch.items[|batch.items| - 1].arrivalSeq < k)
    {
      PageCovers(r, q, from, limit, now, k);
    }
  }

  lemma EventIsPage(r: Text, l: Log, e: Event, from: nat)
    requires COLON !in r && WellFormed(r, l) && Shows(r, l, e) && PageEvent(e)
    requires Start(r, e.cursor) == Ok(from)
    ensures PageOf(r, l.q, from, e.now, e.pulled.value)
  {
    ItemsArePage(r, l.q, from, e.limit, e.now, e.pulled.value);
  }

  lemma SessionPage(r: Text, ls: seq<Log>, es: seq<Event>, idx: seq<nat>, cursor: Option<Cursor>, from: nat)
    requires COLON !in r && LaxRun(r, ls, es) && Session(es, idx, cursor) && AllShow(r, ls, es, idx) && Start(r, cursor) == Ok(from)
    ensures PageOf(r, ls[idx[0]].q, from, es[idx[0]].now, es[idx[0]].pulled.value)
  {
    var i := idx[0];
    RunWellFormed(r, ls, es, i);
    EventIsPage(r, ls[i], es[i], from);
  }

  lemma RisingAppend(a: seq<QueueMessage>, b: seq<QueueMessage>, from: nat)
    requires a != [] && Rising(a, from) && Rising(b, After(a[|a| - 1].arrivalSeq))
    ensures Rising(a + b, from)
  {
  }

  /** The arrival numbers a session returns are strictly increasing. */
  lemma {:induction false} SessionRises(r: Text, ls: seq<Log>, es: seq<Event>, idx: seq<nat>,
                                        cursor: Option<Cursor>, from: nat)
    requires COLON !in r && LaxRun(r, ls, es) && Session(es, idx, cursor) && AllShow(r, ls, es, idx) && Start(r, cursor) == Ok(from)
    ensures Rising(Delivered(es, idx, cursor), from)
    decreases |idx|
  {
    hide LaxStep, AllShow, Start, LiveKeys, WellFormed;
    SessionPage(r, ls, es, idx, cursor, from);
    var batch := es[idx[0]].pulled.value;
    if |idx| > 1 {
      var next := After(batch.items[|batch.items| - 1].arrivalSeq);
      ShowsRest(r, ls, es, idx);
      SessionRises(r, ls, es, idx[1..], batch.nextCursor, next);
      RisingAppend(batch.items, Delivered(es, idx[1..], batch.nextCursor), from);
    }
  }

  /** Message `k` is queued and live at each of the session's pages. */
  ghost predicate Stays(ls: seq<Log>, es: seq<Event>, idx: seq<nat>, k: u64)
    requires |ls| == |es| + 1
  {
    forall j :: 0 <= j < |idx| ==>
      idx[j] < |es| && es[idx[j]].Pull? && k in LiveKeys(ls[idx[j]].q, 0, es[idx[j]].now)
  }

  lemma {:induction false} SessionReaches(r: Text, ls: seq<Log>, es: seq<Event>, idx: seq<nat>,
                                          cursor: Option<Cursor>, from: nat, k: u64)
    requires COLON !in r && LaxRun(r, ls, es) && Session(es, idx, cursor) && AllShow(r, ls, es, idx) && Start(r, cursor) == Ok(from)
    requires from <= k && Stays(ls, es, idx, k)
    ensures ls[idx[0]].q[k] in Delivered(es, idx, cursor)
    decreases |idx|
  {
    hide LaxStep, AllShow, Start, Rising;
    SessionPage(r, ls, es, idx, cursor, from);
    var batch := es[idx[0]].pulled.value;
    var q := ls[idx[0]].q;
    assert k in LiveKeys(q, from, es[idx[0]].now);
    if q[k] !in batch.items {
      var next := After(batch.items[|batch.items| - 1].arrivalSeq);
      assert Stays(ls, es, idx[1..], k) by {
        assert forall j :: 0 <= j < |idx| - 1 ==> idx[1..][j] == idx[j + 1];
      }
      ShowsRest(r, ls, es, idx);
      SessionReaches(r, ls, es, idx[1..], batch.nextCursor, next, k);
      RunWellFormed(r, ls, es, idx[0]);
      NumbersAreNeverReused(r, ls, es, idx[0], idx[1], k);
    }
  }

  /** A session delivers every message that was queued at its first page, and stays
      unacknowledged and unexpired at each page, exactly once and unchanged. */
  lemma SessionDeliversOnce(r: Text, ls: seq<Log>, es: seq<Event>, idx: seq<nat>, k: u64)
    requires COLON !in r && LaxRun(r, ls, es) && Session(es, idx, None) && AllShow(r, ls, es, idx) && Stays(ls, es, idx, k)
    ensures var out := Delivered(es, idx, None);
            exists i :: 0 <= i < |out| && out[i] == ls[idx[0]].q[k] &&
                        forall j :: 0 <= j < |out| && out[j].arrivalSeq == k ==> j == i
  {
    SessionReaches(r, ls, es, idx, None, 0, k);
    SessionRises(r, ls, es, idx, None, 0);
    RunWellFormed(r, ls, es, idx[0]);
    var out := Delivered(es, idx, None);
    var i :| 0 <= i < |out| && out[i] == ls[idx[0]].q[k];
  }

  /** Every message a session delivers is, field by field, what exactly one push stored. */
  lemma {:induction false} DeliveredArePushed(r: Text, ls: seq<Log>, es: seq<Event>, idx: seq<nat>,
                                              cursor: Option<Cursor>, from: nat)
    requires COLON !in r && LaxRun(r, ls, es) && Session(es, idx, cursor) && AllShow(r, ls, es, idx) && Start(r, cursor) == Ok(from)
    ensures forall m :: m in Delivered(es, idx, cursor) ==> PushedOnce(es, m)
    decreases |idx|
  {
    hide LaxStep, AllShow, Start, PushedOnce, Rising;
    SessionPage(r, ls, es, idx, cursor, from);
    var batch := es[idx[0]].pulled.value;
    forall m | m in batch.items ensures PushedOnce(es, m) {
      QueuedIsPushed(r, ls, es, idx[0], m.arrivalSeq);
    }
    if |idx| > 1 {
      ShowsRest(r, ls, es, idx);
      DeliveredArePushed(r, ls, es, idx[1..], batch.nextCursor, After(batch.items[|batch.items| - 1].arrivalSeq));
    }
  }

  /** The event neither acknowledges `m` nor reads a clock at or past its deadline. */
  predicate Keeps(e: Event, m: QueueMessage) {
    match e
    case Push(_, _, _) => true
    case Pull(_, _, now, _) => !Expired(m, now)
    case Ack(items, _) => ItemOf(m) !in items
    case Purge(now) => !Expired(m, now)
  }

  lemma {:induction false} KeptQueued(r: Text, ls: seq<Log>, es: seq<Event>, i: nat, j: nat, k: u64)
    requires LaxRun(r, ls, es) && i <= j <= |es| && k in ls[i].q
    requires forall h :: i <= h < j ==> Keeps(es[h], ls[i].q[k])
    ensures k in ls[j].q && ls[j].q[k] == ls[i].q[k]
    decreases j
  {
    hide LaxStep;
    if i < j {
      KeptQueued(r, ls, es, i, j - 1, k);
      RunWellFormed(r, ls, es, j - 1);
      KeptOnce(r, ls, es, j - 1, k);
    }
  }

  lemma KeptOnce(r: Text, ls: seq<Log>, es: seq<Event>, i: nat, k: u64)
    requires LaxRun(r, ls, es) && i < |es| && WellFormed(r, ls[i]) && k in ls[i].q && Keeps(es[i], ls[i].q[k])
    ensures k in ls[i + 1].q && ls[i + 1].q[k] == ls[i].q[k]
  {
    assert LaxStep(r, ls[i], es[i], ls[i + 1]);
  }

  lemma {:induction false} PagesRise(es: seq<Event>, idx: seq<nat>, cursor: Option<Cursor>, j: nat)
    requires Session(es, idx, cursor) && j < |idx|
    ensures idx[0] <= idx[j] <= idx[|idx| - 1]
    decreases |idx|
  {
    if |idx| > 1 {
      PagesRise(es, idx[1..], es[idx[0]].pulled.value.nextCursor, if j == 0 then 0 else j - 1);
      assert idx[1..][|idx| - 2] == idx[|idx| - 1] && (j > 0 ==> idx[1..][j - 1] == idx[j]);
    }
  }

  /** What is queued at the first page stays, when up to the last page no
      acknowledgement names it and no clock reaches its deadline: so it is delivered
      exactly once. */
  lemma KeptIsDelivered(r: Text, ls: seq<Log>, es: seq<Event>, idx: seq<nat>, k: u64)
    requires COLON !in r && LaxRun(r, ls, es) && Session(es, idx, None) && AllShow(r, ls, es, idx)
    requires k in ls[idx[0]].q && forall h :: idx[0] <= h <= idx[|idx| - 1] && h < |es| ==> Keeps(es[h], ls[idx[0]].q[k])
    ensures Stays(ls, es, idx, k)
    ensures var out := Delivered(es, idx, None);
            exists i :: 0 <= i < |out| && out[i] == ls[idx[0]].q[k] &&
                        forall j :: 0 <= j < |out| && out[j].arrivalSeq == k ==> j == i
  {
    hide LaxStep, AllShow, Session, Delivered;
    SessionPulls(es, idx, None);
    forall j | 0 <= j < |idx|
      ensures idx[j] < |es| && es[idx[j]].Pull? && k in LiveKeys(ls[idx[j]].q, 0, es[idx[j]].now)
    {
      PagesRise(es, idx, None, j);
      KeptQueued(r, ls, es, idx[0], idx[j], k);
    }
    SessionDeliversOnce(r, ls, es, idx, k);
  }

  // ---- length of an undisturbed session ----

  /** Every page sees the same live messages and uses the same page size. */
  ghost predicate Undisturbed(ls: seq<Log>, es: seq<Event>, idx: seq<nat>, live: set<u64>, size: nat)
    requires |ls| == |es| + 1
  {
    forall j :: 0 <= j < |idx| ==>
      && idx[j] < |es| && es[idx[j]].Pull?
      && Min(es[idx[j]].limit, 0xFFFF_FFFF) == size
      && LiveKeys(ls[idx[j]].q, 0, es[idx[j]].now) == live
  }

  lemma UndisturbedRest(ls: seq<Log>, es: seq<Event>, idx: seq<nat>, live: set<u64>, size: nat)
    requires |ls| == |es| + 1 && idx != [] && Undisturbed(ls, es, idx, live, size)
    ensures Undisturbed(ls, es, idx[1..], live, size)
  {
    assert forall j :: 0 <= j < |idx| - 1 ==> idx[1..][j] == idx[j + 1];
  }

  function From(live: set<u64>, from: nat): set<u64> {
    set k | k in live && from <= k
  }

  /** max(1, ceil(n / size)). */
  function PageCount(n: nat, size: nat): nat
    requires size > 0
  {
    if n == 0 then 1 else (n + size - 1) / size
  }

  lemma MultipleSize(k: int, d: nat)
    ensures (k >= 1 ==> k * d >= d) && (k <= -1 ==> k * d <= 0 - d)
  {
    if k >= 1 { assert (k - 1) * d >= 0; }
    if k <= -1 { assert (-1 - k) * d >= 0; }
  }

  lemma PageCountStep(n: nat, size: nat)
    requires 0 < size < n
    ensures PageCount(n, size) == 1 + PageCount(n - size, size)
  {
    var x := n - 1;
    var a, b := x / size, (x + size) / size;
    assert (b - a - 1) * size == b * size - a * size - size;
    MultipleSize(b - a - 1, size);
  }

  lemma PageCountLast(n: nat, size: nat)
    requires 0 < size && n <= size
    ensures PageCount(n, size) == 1
  {
    if n > 0 {
      var q := (n + size - 1) / size;
      assert (q - 1) * size == q * size - size;
      MultipleSize(q - 1, size);
    }
  }

  /** The page size decides whether a cursor follows, and what it leaves. */
  lemma CursorLeaves(r: Text, q: map<u64, QueueMessage>, from: nat, limit: u64, now: u64) returns (last: u64)
    requires limit > 0
    ensures var size := EffectiveLimit(limit); var live := LiveKeys(q, from, now);
            if |live| <= size then NextCursor(r, q, from, limit, now) == None
            else
              && NextCursor(r, q, from, limit, now) == Some(EncodeCursor(r, last)) && from <= last
              && |LiveKeys(q, After(last), now)| == |live| - size
  {
    var page := PageKeys(q, from, limit, now);
    last := 0;
    if EffectiveLimit(limit) < |LiveKeys(q, from, now)| {
      RestOfPage(q, from, limit, now);
      last := page[|page| - 1];
    }
  }

  lemma FromLive(q: map<u64, QueueMessage>, from: nat, now: u64)
    ensures From(LiveKeys(q, 0, now), from) == LiveKeys(q, from, now)
  {
  }

  lemma UndisturbedPage(r: Text, ls: seq<Log>, es: seq<Event>, idx: seq<nat>, cursor: Option<Cursor>,
                        from: nat, live: set<u64>, size: nat) returns (last: u64)
    requires COLON !in r && LaxRun(r, ls, es) && Session(es, idx, cursor) && AllShow(r, ls, es, idx) && Start(r, cursor) == Ok(from)
    requires size > 0 && Undisturbed(ls, es, idx, live, size)
    ensures |idx| == 1 ==> |From(live, from)| <= size
    ensures |idx| > 1 ==>
              && size < |From(live, from)|
              && Start(r, es[idx[0]].pulled.value.nextCursor) == Ok(After(last))
              && |From(live, After(last))| == |From(live, from)| - size
  {
    var i, e := idx[0], es[idx[0]];
    FromLive(ls[i].q, from, e.now);
    assert Shows(r, ls[i], e);
    last := CursorLeaves(r, ls[i].q, from, e.limit, e.now);
    CursorRoundTrip(r, last);
    FromLive(ls[i].q, After(last), e.now);
  }

  /** Over n live messages and page size L an undisturbed session takes
      max(1, ceil(n / L)) pages. */
  lemma {:induction false} SessionLength(r: Text, ls: seq<Log>, es: seq<Event>, idx: seq<nat>,
                                         cursor: Option<Cursor>, from: nat, live: set<u64>, size: nat)
    requires COLON !in r && LaxRun(r, ls, es) && Session(es, idx, cursor) && AllShow(r, ls, es, idx) && Start(r, cursor) == Ok(from)
    requires size > 0 && Undisturbed(ls, es, idx, live, size)
    ensures |idx| == PageCount(|From(live, from)|, size)
    decreases |idx|
  {
    var last := UndisturbedPage(r, ls, es, idx, cursor, from, live, size);
    if |idx| == 1 {
      PageCountLast(|From(live, from)|, size);
    } else {
      UndisturbedRest(ls, es, idx, live, size);
      ShowsRest(r, ls, es, idx);
      SessionLength(r, ls, es, idx[1..], es[idx[0]].pulled.value.nextCursor, After(last), live, size);
      PageCountStep(|From(live, from)|, size);
    }
  }

  /** A recipient with a colon never gets past the first page: the cursor it is
      handed is refused as invalid. */
  lemma ColonEndsSession(r: Text, l: Log, from: nat, limit: u64, now: u64, batch: PullBatch, l': Log)
    requires COLON in r && IsPage(r, l, from, limit, now, batch, l') && batch.nextCursor.Some?
    ensures Start(r, batch.nextCursor) == Err(InvalidInput("invalid cursor"))
  {
    var page := PageKeys(l.q, from, limit, now);
    CursorRoundTrip(r, page[|page| - 1]);
  }
}
