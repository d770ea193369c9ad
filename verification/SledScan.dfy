/** Pulling from the persistent store: a byte-key prefix scan (src/store_sled.rs). */
module SledScan {
  import opened Machine
  import opened Ordering
  import opened Text
  import Decimal
  import opened Keys
  import opened Cursor
  import opened Messages
  import opened Queue
  import opened SledTrees

  datatype Page = Page(items: seq<QueueMessage>, more: bool)

  /** `messages.scan_prefix(message_prefix(r))`. */
  function ScanKeys(ms: map<Text, QueueMessage>, r: Text): (keys: seq<Text>)
    ensures Sorted(keys, TextLt) && forall k :: k in keys <==> k in ms && HasPrefix(k, MessagePrefix(r))
  {
    TextLtTotal();
    Ascending((set k | k in ms && HasPrefix(k, MessagePrefix(r))), TextLt)
  }

  /** The arrival number after which a cursor resumes. */
  function Resume(r: Text, cursor: Option<Cursor>): Result<Option<u64>> {
    match cursor
    case None => Ok(None)
    case Some(c) =>
      match DecodeCursor(c)
      case Err(e) => Err(e)
      case Ok((named, s)) =>
        if named != r then Err(InvalidInput("cursor recipient mismatch")) else Ok(Some(s))
  }

  predicate Skipped(s: u64, start: Option<u64>) {
    start.Some? && s <= start.value
  }

  /** The scan over `keys` with `room` places left on the page. */
  function Scan(ms: map<Text, QueueMessage>, keys: seq<Text>, start: Option<u64>, room: nat, now: u64): (res: Result<Page>)
    requires forall k :: k in keys ==> k in ms
    ensures res.Ok? ==> |res.value.items| <= room
  {
    if keys == [] then Ok(Page([], false))
    else
      var m, rest := ms[keys[0]], keys[1..];
      match ParseSeqFromKey(keys[0])
      case Err(e) => Err(e)
      case Ok(None) => Scan(ms, rest, start, room, now)
      case Ok(Some(s)) =>
        if Skipped(s, start) || Expired(m, now) then Scan(ms, rest, start, room, now)
        else if room > 0 then Prepend([m], Scan(ms, rest, start, room - 1, now))
        else Ok(Page([], true))
  }

  function Prepend(items: seq<QueueMessage>, res: Result<Page>): Result<Page> {
    match res
    case Err(e) => Err(e)
    case Ok(page) => Ok(Page(items + page.items, page.more))
  }

  lemma PrependTwice(a: seq<QueueMessage>, b: seq<QueueMessage>, res: Result<Page>)
    ensures Prepend(a, Prepend(b, res)) == Prepend(a + b, res) && Prepend([], res) == res
  {
    if res.Ok? {
      assert a + (b + res.value.items) == a + b + res.value.items;
      assert [] + res.value.items == res.value.items;
    }
  }

  function Batch(r: Text, page: Page, count: u64): PullBatch
    requires |page.items| <= U64_MAX
  {
    var nextCursor := if page.more && page.items != [] then
        Some(EncodeCursor(r, page.items[|page.items| - 1].arrivalSeq)) else None;
    PullBatch(page.items, nextCursor, SatSub(count, |page.items|))
  }

  /** What a pull returns, for every recipient and every state of the trees. */
  function PullOf(t: Trees, r: Text, cursor: Option<Cursor>, limit: u64, now: u64): Result<PullBatch> {
    match Resume(r, cursor)
    case Err(e) => Err(e)
    case Ok(start) =>
      match Scan(t.messages, ScanKeys(t.messages, r), start, EffectiveLimit(limit), now)
      case Err(e) => Err(e)
      case Ok(page) => Ok(Batch(r, page, QuotaOf(t.quota, r).count))
  }

  // ---- the scan is the queue ----

  /** No queued message belongs to a recipient that continues `r` with a colon. */
  ghost predicate Clean(ms: map<Text, QueueMessage>, r: Text) {
    COLON !in r && forall k :: k in ms ==> !HasPrefix(ms[k].recipient, r + [COLON])
  }

  /** For a colon-free recipient the scan visits only its own messages exactly when
      the store is clean for it. */
  lemma CleanExactly(ms: map<Text, QueueMessage>, r: Text)
    requires WellKeyed(ms) && COLON !in r
    ensures (forall k :: k in ScanKeys(ms, r) ==> ms[k].recipient == r) <==> Clean(ms, r)
  {
    hide ScanKeys, HasPrefix, MessagePrefix, MessageKey;
    forall k | k in ms ensures k in ScanKeys(ms, r) <==> ms[k].recipient == r || HasPrefix(ms[k].recipient, r + [COLON]) {
      var m := ms[k];
      PrefixScan(r, m.recipient, m.arrivalSeq, m.messageId, m.meta.chunkIndex);
    }
    NotOwnExtension(r);
  }

  lemma NotOwnExtension(r: Text)
    ensures !HasPrefix(r, r + [COLON])
  {
  }

  ghost function KeysOf(q: map<u64, QueueMessage>, ks: seq<u64>): (keys: seq<Text>)
    requires forall k :: k in ks ==> k in q
    ensures |keys| == |ks| && forall i :: 0 <= i < |ks| ==> keys[i] == KeyOf(q[ks[i]])
  {
    seq(|ks|, i requires 0 <= i < |ks| => KeyOf(q[ks[i]]))
  }

  lemma KeysSorted(q: map<u64, QueueMessage>, r: Text, ks: seq<u64>)
    requires Sorted(ks, U64Lt) && forall k :: k in ks ==> k in q && q[k].recipient == r && q[k].arrivalSeq == k
    ensures Sorted(KeysOf(q, ks), TextLt)
  {
    hide MessageKey, TextLt;
    var keys := KeysOf(q, ks);
    forall i, j | 0 <= i < j < |keys| ensures TextLt(keys[i], keys[j]) {
      assert ks[i] in ks && ks[j] in ks && U64Lt(ks[i], ks[j]);
      var a, b := q[ks[i]], q[ks[j]];
      MessageKeyOrder(r, a.arrivalSeq, a.messageId, a.meta.chunkIndex, b.arrivalSeq, b.messageId, b.meta.chunkIndex);
    }
  }

  /** In a clean store the scan visits exactly `r`'s messages, in arrival order. */
  lemma ScanIsQueue(ms: map<Text, QueueMessage>, r: Text)
    requires WellKeyed(ms) && Clean(ms, r)
    ensures var q := View(ms, r); ScanKeys(ms, r) == KeysOf(q, InOrder(q.Keys))
  {
    hide View, KeyOf, ScanKeys, TextLt, InOrder, WellKeyed;
    var q := View(ms, r);
    var ks := InOrder(q.Keys);
    var keys := KeysOf(q, ks);
    KeysSorted(q, r, ks);
    forall k ensures k in keys <==> k in ScanKeys(ms, r) { ScanMember(ms, r, ks, k); }
    TextLtTotal();
    SortedUnique(keys, ScanKeys(ms, r), TextLt);
  }

  lemma ScanMember(ms: map<Text, QueueMessage>, r: Text, ks: seq<u64>, k: Text)
    requires WellKeyed(ms) && Clean(ms, r) && forall s :: s in ks <==> s in View(ms, r)
    ensures k in KeysOf(View(ms, r), ks) <==> k in ScanKeys(ms, r)
  {
    hide View, ScanKeys, MessageKey, MessagePrefix, HasPrefix;
    var q := View(ms, r);
    if k in ms {
      var m := ms[k];
      PrefixScan(r, m.recipient, m.arrivalSeq, m.messageId, m.meta.chunkIndex);
      if m.recipient == r {
        var i :| 0 <= i < |ks| && ks[i] == m.arrivalSeq;
        assert KeysOf(q, ks)[i] == k;
      }
    }
    if k in KeysOf(q, ks) {
      var i :| 0 <= i < |ks| && KeysOf(q, ks)[i] == k;
      assert ks[i] in ks;
    }
  }

  // ---- when the scan tells the truth ----

  /** Every key under `r`'s prefix holds a number where the scan looks for one, and
      its message is `r`'s own or was expired from the start. */
  ghost predicate Readable(ms: map<Text, QueueMessage>, r: Text) {
    forall k :: k in ms && HasPrefix(k, MessagePrefix(r)) ==>
      Numeric(k) && (ms[k].recipient == r || ms[k].deadlineMs == 0)
  }

  predicate Numeric(k: Text) {
    ParseSeqFromKey(k).Ok? && ParseSeqFromKey(k).value.Some?
  }

  lemma CleanIsReadable(ms: map<Text, QueueMessage>, r: Text)
    requires WellKeyed(ms) && Clean(ms, r)
    ensures Readable(ms, r)
  {
    hide HasPrefix, MessagePrefix, MessageKey, ParseSeqFromKey;
    forall k | k in ms && HasPrefix(k, MessagePrefix(r)) ensures Numeric(k) && ms[k].recipient == r {
      var m := ms[k];
      PrefixScan(r, m.recipient, m.arrivalSeq, m.messageId, m.meta.chunkIndex);
      ParsedSeq(r, m.arrivalSeq, m.messageId, m.meta.chunkIndex);
    }
  }

  /** The scan counts the message under `k`. */
  predicate Hit(ms: map<Text, QueueMessage>, k: Text, start: Option<u64>, now: u64)
    requires k in ms
  {
    Numeric(k) && !Skipped(ParseSeqFromKey(k).value.value, start) && !Expired(ms[k], now)
  }

  ghost function Hits(ms: map<Text, QueueMessage>, keys: seq<Text>, start: Option<u64>, now: u64): (hits: seq<Text>)
    requires forall k :: k in keys ==> k in ms
    ensures forall k :: k in hits <==> k in keys && Hit(ms, k, start, now)
    ensures |hits| <= |keys|
  {
    if keys == [] then []
    else
      assert keys == [keys[0]] + keys[1..];
      (if Hit(ms, keys[0], start, now) then [keys[0]] else []) + Hits(ms, keys[1..], start, now)
  }

  lemma {:induction false} HitsSorted(ms: map<Text, QueueMessage>, keys: seq<Text>, start: Option<u64>, now: u64)
    requires Sorted(keys, TextLt) && forall k :: k in keys ==> k in ms
    ensures Sorted(Hits(ms, keys, start, now), TextLt)
  {
    hide Hit, TextLt;
    if keys != [] {
      HitsSorted(ms, keys[1..], start, now);
      var rest := Hits(ms, keys[1..], start, now);
      forall i | 0 <= i < |rest| ensures TextLt(keys[0], rest[i]) {
        assert rest[i] in keys[1..];
      }
    }
  }

  lemma HitFirst(ms: map<Text, QueueMessage>, k: Text, rest: seq<Text>, room: nat)
    requires k in ms && forall j :: j in rest ==> j in ms
    ensures forall j :: j in Take([k] + rest, room) ==> j in ms
    ensures room > 0 ==> Items(ms, Take([k] + rest, room)) == [ms[k]] + Items(ms, Take(rest, room - 1))
  {
    if room > 0 { assert Take([k] + rest, room) == [k] + Take(rest, room - 1); }
  }

  /** When every key holds a number, the scan returns the first `room` hits. */
  lemma {:induction false} ScanHits(ms: map<Text, QueueMessage>, keys: seq<Text>, start: Option<u64>, room: nat, now: u64)
    requires forall k :: k in keys ==> k in ms && Numeric(k)
    ensures var hits := Hits(ms, keys, start, now);
            Scan(ms, keys, start, room, now) == Ok(Page(Items(ms, Take(hits, room)), room < |hits|))
  {
    hide ParseSeqFromKey, Take, Items;
    if keys == [] {
      assert Items(ms, Take(Hits(ms, keys, start, now), room)) == [];
    } else {
      var rest := Hits(ms, keys[1..], start, now);
      assert keys[0] in keys;
      if Hit(ms, keys[0], start, now) {
        assert Hits(ms, keys, start, now) == [keys[0]] + rest;
        HitFirst(ms, keys[0], rest, room);
        if room > 0 { ScanHits(ms, keys[1..], start, room - 1, now); }
      } else {
        assert Hits(ms, keys, start, now) == rest;
        ScanHits(ms, keys[1..], start, room, now);
      }
    }
  }

  /** A scan that has room for every key fails exactly when one does not parse. */
  lemma {:induction false} ScanFails(ms: map<Text, QueueMessage>, keys: seq<Text>, start: Option<u64>, room: nat, now: u64)
    requires (forall k :: k in keys ==> k in ms) && |keys| <= room
    ensures Scan(ms, keys, start, room, now).Ok? <==> forall k :: k in keys ==> ParseSeqFromKey(k).Ok?
    ensures Scan(ms, keys, start, room, now).Err? ==> Scan(ms, keys, start, room, now).error == Internal("invalid key")
  {
    hide Split, Decimal.ParseU64;
    if keys != [] {
      assert keys == [keys[0]] + keys[1..];
      ScanFails(ms, keys[1..], start, room, now);
      ScanFails(ms, keys[1..], start, room - 1, now);
    }
  }

  /** A key with the prefix always has a field where the number should be. */
  lemma PrefixHasField(k: Text, r: Text)
    requires HasPrefix(k, MessagePrefix(r))
    ensures ParseSeqFromKey(k) != Ok(None)
  {
    hide Split, Decimal.ParseU64;
    var rest := k[|MessagePrefix(r)|..];
    var i := FirstColon(r);
    assert k == MSG + [COLON] + (r + [COLON] + rest);
    SplitStep(MSG, r + [COLON] + rest);
    if i == |r| {
      SplitStep(r, rest);
    } else {
      assert r + [COLON] + rest == r[..i] + [COLON] + (r[i + 1..] + [COLON] + rest);
      SplitStep(r[..i], r[i + 1..] + [COLON] + rest);
    }
  }

  function FromOf(start: Option<u64>): nat {
    match start case None => 0 case Some(s) => After(s)
  }

  /** `r`'s own keys are hit exactly when their messages are live and after the cursor. */
  lemma OwnHit(ms: map<Text, QueueMessage>, r: Text, k: Text, start: Option<u64>, now: u64)
    requires WellKeyed(ms) && Readable(ms, r) && (COLON in r ==> start == None) && k in ms && ms[k].recipient == r
    ensures k == KeyOf(ms[k]) && HasPrefix(k, MessagePrefix(r))
    ensures Hit(ms, k, start, now) <==> FromOf(start) <= ms[k].arrivalSeq && !Expired(ms[k], now)
  {
    hide ParseSeqFromKey, MessageSuffix, MessagePrefix;
    var m := ms[k];
    if COLON !in r { ParsedSeq(r, m.arrivalSeq, m.messageId, m.meta.chunkIndex); }
  }

  lemma HitIsOwn(ms: map<Text, QueueMessage>, r: Text, k: Text, start: Option<u64>, now: u64)
    requires Readable(ms, r) && k in ms && HasPrefix(k, MessagePrefix(r)) && Hit(ms, k, start, now)
    ensures ms[k].recipient == r
  {
    hide ParseSeqFromKey, MessagePrefix, HasPrefix;
  }

  lemma HitMember(ms: map<Text, QueueMessage>, r: Text, start: Option<u64>, now: u64, k: Text)
    requires WellKeyed(ms) && Readable(ms, r) && (COLON in r ==> start == None)
    ensures var q := View(ms, r);
            k in Hits(ms, ScanKeys(ms, r), start, now) <==> k in KeysOf(q, InOrder(LiveKeys(q, FromOf(start), now)))
  {
    hide View, ScanKeys, MessageKey, MessagePrefix, HasPrefix, Hit, InOrder, FromOf, WellKeyed, Readable, Expired;
    var q := View(ms, r);
    var ks := InOrder(LiveKeys(q, FromOf(start), now));
    if k in Hits(ms, ScanKeys(ms, r), start, now) {
      HitIsOwn(ms, r, k, start, now);
      OwnHit(ms, r, k, start, now);
      assert ms[k].arrivalSeq in LiveKeys(q, FromOf(start), now);
      var i :| 0 <= i < |ks| && ks[i] == ms[k].arrivalSeq;
      assert KeysOf(q, ks)[i] == k;
    }
    if k in KeysOf(q, ks) {
      var i :| 0 <= i < |ks| && KeysOf(q, ks)[i] == k;
      assert ks[i] in ks;
      OwnHit(ms, r, k, start, now);
    }
  }

  /** Then one scan of the tree is one page of the recipient's queue. */
  lemma ScanIsPage(ms: map<Text, QueueMessage>, r: Text, start: Option<u64>, limit: u64, now: u64)
    requires WellKeyed(ms) && Readable(ms, r) && (COLON in r ==> start == None)
    ensures var q, from := View(ms, r), FromOf(start); var page := PageKeys(q, from, limit, now);
            Scan(ms, ScanKeys(ms, r), start, EffectiveLimit(limit), now) ==
            Ok(Page(Items(q, page), |page| < |LiveKeys(q, from, now)|))
  {
    hide View, KeyOf, ScanKeys, InOrder, WellKeyed, Scan, Hits, Hit, TextLt, Numeric, HasPrefix;
    var q, from, keys := View(ms, r), FromOf(start), ScanKeys(ms, r);
    var ks := InOrder(LiveKeys(q, from, now));
    var hits := Hits(ms, keys, start, now);
    KeysSorted(q, r, ks);
    HitsSorted(ms, keys, start, now);
    forall k ensures k in hits <==> k in KeysOf(q, ks) { HitMember(ms, r, start, now, k); }
    TextLtTotal();
    SortedUnique(hits, KeysOf(q, ks), TextLt);
    ScanHits(ms, keys, start, EffectiveLimit(limit), now);
    SameMessages(ms, r, ks, EffectiveLimit(limit));
  }

  lemma SameMessages(ms: map<Text, QueueMessage>, r: Text, ks: seq<u64>, n: nat)
    requires WellKeyed(ms) && forall k :: k in ks ==> k in View(ms, r)
    ensures forall k :: k in Take(KeysOf(View(ms, r), ks), n) ==> k in ms
    ensures Items(ms, Take(KeysOf(View(ms, r), ks), n)) == Items(View(ms, r), Take(ks, n))
  {
    hide View, KeyOf, WellKeyed;
    assert forall i :: 0 <= i < |ks| ==> ks[i] in ks;
  }

  lemma ResumeIsStart(r: Text, cursor: Option<Cursor>)
    ensures Start(r, cursor) == match Resume(r, cursor) case Err(e) => Err(e) case Ok(start) => Ok(FromOf(start))
  {
  }

  /** A pull returns a page of the queue; only the estimate depends on the quota record. */
  ghost predicate PullsPage(t: Trees, r: Text, cursor: Option<Cursor>, limit: u64, now: u64, res: Result<PullBatch>)
    requires WellKeyed(t.messages)
  {
    var q := View(t.messages, r);
    match Start(r, cursor)
    case Err(e) => res == Err(e)
    case Ok(from) =>
      && res.Ok?
      && res.value.items == Items(q, PageKeys(q, from, limit, now))
      && res.value.nextCursor == NextCursor(r, q, from, limit, now)
      && res.value.remainingEstimate == QuotaOf(t.quota, r).count - |res.value.items|
  }

  lemma ColonResumes(r: Text, cursor: Option<Cursor>)
    requires COLON in r && Resume(r, cursor).Ok?
    ensures Resume(r, cursor) == Ok(None)
  {
    if cursor.Some? { DecodedRecipient(cursor.value); }
  }

  lemma PageBatch(t: Trees, r: Text, start: Option<u64>, limit: u64, now: u64)
    requires Safe(t) && Readable(t.messages, r) && (COLON in r ==> start == None)
    ensures var q, from, count := View(t.messages, r), FromOf(start), QuotaOf(t.quota, r).count;
            var res := Scan(t.messages, ScanKeys(t.messages, r), start, EffectiveLimit(limit), now);
            && res.Ok?
            && var batch := Batch(r, res.value, count);
            && batch.items == Items(q, PageKeys(q, from, limit, now)) && batch.nextCursor == NextCursor(r, q, from, limit, now)
            && batch.remainingEstimate == count - |batch.items|
  {
    hide View, KeyOf, ScanKeys, Readable, Scan, LiveKeys, QuotaOf, Bytes, Indexed, Numbered, EncodeCursor, FromOf, InOrder, WellKeyed;
    var q, from := View(t.messages, r), FromOf(start);
    var page := PageKeys(q, from, limit, now);
    ScanIsPage(t.messages, r, start, limit, now);
    assert Covers(t, r);
    LiveBound(q, from, now);
    if page != [] { assert page[|page| - 1] in page; }
  }

  lemma PullIsPage(t: Trees, r: Text, cursor: Option<Cursor>, limit: u64, now: u64)
    requires Safe(t) && Readable(t.messages, r)
    ensures PullsPage(t, r, cursor, limit, now, PullOf(t, r, cursor, limit, now))
  {
    hide View, KeyOf, ScanKeys, Readable, Scan, QuotaOf, Bytes, Covers, Indexed, Numbered, FromOf, WellKeyed, Resume, Start,
      Batch, NextCursor, PageKeys, Items;
    ResumeIsStart(r, cursor);
    var resume := Resume(r, cursor);
    if resume.Ok? {
      if COLON in r { ColonResumes(r, cursor); }
      PageBatch(t, r, resume.value, limit, now);
    }
  }

  /** How much such a pull returns. */
  lemma PullSize(t: Trees, r: Text, cursor: Option<Cursor>, limit: u64, now: u64, res: Result<PullBatch>)
    requires WellKeyed(t.messages) && PullsPage(t, r, cursor, limit, now, res) && res.Ok?
    ensures Start(r, cursor).Ok?
    ensures var q, from := View(t.messages, r), Start(r, cursor).value;
            var live := set s | s in q && from <= s && now < q[s].deadlineMs;
            var n := Min(Min(limit, 0xFFFF_FFFF), |live|);
            && |res.value.items| == n && (res.value.nextCursor.Some? <==> 0 < n < |live|)
  {
    hide View, WellKeyed, PageKeys, QuotaOf, NextCursor, Items, Start;
    PageFigures(r, View(t.messages, r), Start(r, cursor).value, limit, now);
  }

  /** What it answers to a cursor's text, in any trees. */
  lemma PullRefuses(t: Trees, r: Text, field: Text, rest: Text, limit: u64, now: u64)
    requires COLON !in field
    ensures var res := PullOf(t, r, Some(Plain(field + [COLON] + rest)), limit, now);
            && (Decimal.ParseU64(rest) == None ==> res == Err(InvalidInput("invalid cursor")))
            && (Decimal.ParseU64(rest).Some? && field != r ==> res == Err(InvalidInput("cursor recipient mismatch")))
    ensures PullOf(t, r, Some(Plain(field)), limit, now) == Err(InvalidInput("invalid cursor"))
  {
    hide Scan, ScanKeys, QuotaOf, Decimal.ParseU64, Start;
    CursorAnswers(r, field, rest);
    ResumeIsStart(r, Some(Plain(field + [COLON] + rest)));
    ResumeIsStart(r, Some(Plain(field)));
  }

  /** With exact quotas the pull is a step of the queue that drops nothing. */
  lemma PullRefines(t: Trees, r: Text, cursor: Option<Cursor>, limit: u64, now: u64)
    requires Exact(t) && Readable(t.messages, r)
    ensures Step(r, ViewLog(t, r), Event.Pull(cursor, limit, now, PullOf(t, r, cursor, limit, now)), ViewLog(t, r))
  {
    hide View, KeyOf, PullOf, QuotaOf, Bytes, Indexed, Numbered, NextCursor, PageKeys, NextSeq, NoOrphans, Readable;
    PullIsPage(t, r, cursor, limit, now);
    assert Excess(t, r) == (0, 0);
  }

  /** A key that does not parse fails every pull that gets as far. */
  lemma BadKeyFails(t: Trees, r: Text, cursor: Option<Cursor>, limit: u64, now: u64, k: Text)
    requires k in t.messages && HasPrefix(k, MessagePrefix(r)) && ParseSeqFromKey(k).Err?
    requires |ScanKeys(t.messages, r)| <= EffectiveLimit(limit) && Resume(r, cursor).Ok?
    ensures PullOf(t, r, cursor, limit, now) == Err(Internal("invalid key"))
  {
    hide ParseSeqFromKey, Scan, ScanKeys, Resume;
    ScanFails(t.messages, ScanKeys(t.messages, r), Resume(r, cursor).value, EffectiveLimit(limit), now);
  }

  /** Pulls of a recipient, colon or not, tell the truth at every moment and for every
      page size exactly when its keys are readable; cursors make no difference. */
  lemma PullsExactly(t: Trees, r: Text)
    requires Safe(t) && |ScanKeys(t.messages, r)| <= U32_MAX
    ensures Readable(t.messages, r) <==>
            forall limit, now :: PullsPage(t, r, None, limit, now, PullOf(t, r, None, limit, now))
    ensures Readable(t.messages, r) <==>
            forall cursor, limit, now :: PullsPage(t, r, cursor, limit, now, PullOf(t, r, cursor, limit, now))
  {
    hide PullsPage, PullOf, Readable, ScanKeys, Indexed, Numbered, Covers, WellKeyed;
    if Readable(t.messages, r) {
      forall cursor, limit, now ensures PullsPage(t, r, cursor, limit, now, PullOf(t, r, cursor, limit, now)) {
        PullIsPage(t, r, cursor, limit, now);
      }
    }
    if PullsPage(t, r, None, U32_MAX, 0, PullOf(t, r, None, U32_MAX, 0)) {
      TruePullReads(t, r);
    }
  }

  lemma TrueScan(t: Trees, r: Text)
    requires Safe(t) && PullsPage(t, r, None, U32_MAX, 0, PullOf(t, r, None, U32_MAX, 0))
    ensures var ms, q := t.messages, View(t.messages, r);
            var res := Scan(ms, ScanKeys(ms, r), None, U32_MAX, 0);
            res.Ok? && res.value.items == Items(q, PageKeys(q, 0, U32_MAX, 0))
  {
    hide View, KeyOf, ScanKeys, Scan, QuotaOf, Bytes, Indexed, Numbered, Covers, PageKeys, NextCursor, EncodeCursor, WellKeyed, Items;
  }

  /** One pull with room for every key, at a moment when only messages expired from
      the start are not live, finds out. */
  lemma TruePullReads(t: Trees, r: Text)
    requires Safe(t) && |ScanKeys(t.messages, r)| <= U32_MAX
    requires PullsPage(t, r, None, U32_MAX, 0, PullOf(t, r, None, U32_MAX, 0))
    ensures Readable(t.messages, r)
  {
    hide View, KeyOf, ScanKeys, ParseSeqFromKey, Scan, MessagePrefix, HasPrefix, PullsPage, PullOf, Indexed, Numbered, Covers, PageKeys,
      WellKeyed, Items, Items;
    var ms, keys, q := t.messages, ScanKeys(t.messages, r), View(t.messages, r);
    TrueScan(t, r);
    ScanFails(ms, keys, None, U32_MAX, 0);
    forall k | k in keys ensures Numeric(k) { PrefixHasField(k, r); }
    ScanHits(ms, keys, None, U32_MAX, 0);
    var hits, page := Hits(ms, keys, None, 0), PageKeys(q, 0, U32_MAX, 0);
    assert Take(hits, U32_MAX) == hits;
    DeliveredAreOwn(ms, r, hits, q, page);
  }

  lemma DeliveredAreOwn(ms: map<Text, QueueMessage>, r: Text, hits: seq<Text>, q: map<u64, QueueMessage>, page: seq<u64>)
    requires (forall k :: k in hits ==> k in ms) && (forall s :: s in q ==> q[s].recipient == r)
    requires (forall s :: s in page ==> s in q) && Items(ms, hits) == Items(q, page)
    ensures forall k :: k in hits ==> ms[k].recipient == r
  {
    forall k | k in hits ensures ms[k].recipient == r {
      var i :| 0 <= i < |hits| && hits[i] == k;
      assert ms[k] == Items(ms, hits)[i] == Items(q, page)[i] && page[i] in page;
    }
  }

  // ---- expiry is invisible ----

  ghost predicate AllNumeric(ms: map<Text, QueueMessage>, r: Text) {
    forall k :: k in ms && HasPrefix(k, MessagePrefix(r)) ==> Numeric(k)
  }

  /** Forgetting messages that had expired by `now` changes nothing that a later scan
      returns, if every key it meets holds a number. */
  lemma ScanForgets(ms: map<Text, QueueMessage>, ms': map<Text, QueueMessage>, r: Text, start: Option<u64>, room: nat,
                    now: u64, later: u64)
    requires OnlyExpired(ms, ms', now) && now <= later && AllNumeric(ms, r)
    ensures Scan(ms', ScanKeys(ms', r), start, room, later) == Scan(ms, ScanKeys(ms, r), start, room, later)
  {
    hide ScanKeys, Scan, Numeric, HasPrefix, Skipped, Take, ParseSeqFromKey;
    var keys, keys' := ScanKeys(ms, r), ScanKeys(ms', r);
    var hits, hits' := Hits(ms, keys, start, later), Hits(ms', keys', start, later);
    HitsSorted(ms, keys, start, later);
    HitsSorted(ms', keys', start, later);
    forall k ensures k in hits <==> k in hits' {}
    TextLtTotal();
    SortedUnique(hits, hits', TextLt);
    ScanHits(ms, keys, start, room, later);
    ScanHits(ms', keys', start, room, later);
    assert Items(ms, Take(hits, room)) == Items(ms', Take(hits, room));
  }

  ghost predicate ScansAgree(ms: map<Text, QueueMessage>, ms': map<Text, QueueMessage>, r: Text, start: Option<u64>,
                             room: nat, later: u64) {
    Scan(ms', ScanKeys(ms', r), start, room, later) == Scan(ms, ScanKeys(ms, r), start, room, later)
  }

  /** And only then: scans with room for every key agree before and after every such
      loss exactly when all keys under the prefix hold numbers. */
  lemma ForgetsExactly(ms: map<Text, QueueMessage>, r: Text, start: Option<u64>)
    ensures AllNumeric(ms, r) <==>
            forall ms', now, later :: OnlyExpired(ms, ms', now) && now <= later ==>
              ScansAgree(ms, ms', r, start, |ScanKeys(ms, r)|, later)
  {
    hide Scan, ScanKeys, AllNumeric, OnlyExpired, ScansAgree;
    var room := |ScanKeys(ms, r)|;
    if AllNumeric(ms, r) {
      forall ms', now, later | OnlyExpired(ms, ms', now) && now <= later ensures ScansAgree(ms, ms', r, start, room, later) {
        ForgetsSo(ms, ms', r, start, room, now, later);
      }
    }
    AllForgotten(ms);
    if ScansAgree(ms, map[], r, start, room, U64_MAX) { EmptyScan(ms, r, start, room); }
  }

  lemma ForgetsSo(ms: map<Text, QueueMessage>, ms': map<Text, QueueMessage>, r: Text, start: Option<u64>, room: nat,
                  now: u64, later: u64)
    requires OnlyExpired(ms, ms', now) && now <= later && AllNumeric(ms, r)
    ensures ScansAgree(ms, ms', r, start, room, later)
  {
    hide Scan, ScanKeys, AllNumeric, OnlyExpired;
    ScanForgets(ms, ms', r, start, room, now, later);
  }

  lemma AllForgotten(ms: map<Text, QueueMessage>)
    ensures OnlyExpired(ms, map[], U64_MAX)
  {
  }

  lemma NoKeys(r: Text)
    ensures ScanKeys(map[], r) == []
  {
    hide TextLt;
    TextLtTotal();
    var keys := ScanKeys(map[], r);
    AscendingIs({}, keys, TextLt);
    assert |keys| == |Ascending({}, TextLt)|;
  }

  lemma EmptyScan(ms: map<Text, QueueMessage>, r: Text, start: Option<u64>, room: nat)
    requires room == |ScanKeys(ms, r)|
    requires ScansAgree(ms, map[], r, start, room, U64_MAX)
    ensures AllNumeric(ms, r)
  {
    hide Scan, ScanKeys, ParseSeqFromKey, HasPrefix, MessagePrefix;
    NoKeys(r);
    ScanFails(map[], ScanKeys(map[], r), start, room, U64_MAX);
    ScanFails(ms, ScanKeys(ms, r), start, room, U64_MAX);
    forall k | k in ScanKeys(ms, r) ensures Numeric(k) { PrefixHasField(k, r); }
  }
}
