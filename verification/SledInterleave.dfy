/** The persistent store at the grain of a purge's rounds (src/store_sled.rs,
    `purge_expired`): the purge is no transaction, so other clients' calls fall in
    between, also calls for the recipients whose quotas it holds. */
module SledInterleave {
  import opened Machine
  import opened Text
  import opened Keys
  import opened Messages
  import opened Queue
  import opened Runs
  import opened Paging
  import opened Histories
  import opened SledTrees
  import opened SledHistories
  import SledPurge
  import SledStore
  import SledScan

  /** The trees, and the quotas that the purge has read and not yet written back. */
  datatype Mid = Mid(trees: Trees, quotas: map<Text, QuotaValue>)

  /** One round of a purge's first loop, one write of its second, or somebody's call.
      When all it holds is written back, the next purge can begin. */
  datatype Act = Round(key: Text, now: u64) | Write(recipient: Text) | Call(op: Op)

  /** The quota of `r` as the purge holds it, or as it is recorded. */
  function Read(s: Mid, r: Text): QuotaValue {
    if r in s.quotas then s.quotas[r] else QuotaOf(s.trees.quota, r)
  }

  /** The rounds may come in any order and at any keys that are due. */
  ghost predicate Acts(s: Mid, a: Act, s': Mid)
    requires Safe(s.trees)
  {
    var t := s.trees;
    match a
    case Round(k, now) =>
      && k in t.messages && Expired(t.messages[k], now)
      && var m := t.messages[k];
      && s'.trees == t.(messages := t.messages - {k}, index := t.index - {IdxOf(m)})
      && s'.quotas == s.quotas[m.recipient := SledPurge.Spent(Read(s, m.recipient), m)]
    case Write(r) =>
      && r in s.quotas
      && s'.trees == t.(quota := t.quota[QuotaKey(r) := s.quotas[r]]) && s'.quotas == s.quotas - {r}
    case Call(op) =>
      && !op.PurgeOp?
      && SledStep(t, op, s'.trees) && SledRoom(t, op, s'.trees) && s'.quotas == s.quotas
  }

  ghost predicate Interleaved(ss: seq<Mid>, acts: seq<Act>) {
    && |ss| == |acts| + 1 && ss[0].quotas == map[]
    && forall i :: 0 <= i < |acts| && Safe(ss[i].trees) ==> Acts(ss[i], acts[i], ss[i + 1])
  }

  /** All but the quota figures: what every act keeps, also one that under-counts. */
  ghost predicate Sound(t: Trees) {
    WellKeyed(t.messages) && Indexed(t) && Numbered(t)
  }

  lemma RoundSafe(s: Mid, k: Text, now: u64, s': Mid)
    requires Safe(s.trees) && Acts(s, Round(k, now), s')
    ensures Safe(s'.trees) && Orphans(s'.trees) == Orphans(s.trees)
  {
    hide View, KeyOf, WellKeyed, Bytes, QuotaOf, Indexed, Numbered, Covers, IdxOf, SledPurge.Spent, Expired, Orphans, Read;
    var t := s.trees;
    RemoveSafe(t, k);
    RoundOrphans(t, k, s'.trees);
  }

  lemma RoundOrphans(t: Trees, k: Text, t': Trees)
    requires Safe(t) && k in t.messages
    requires t' == t.(messages := t.messages - {k}, index := t.index - {IdxOf(t.messages[k])})
    ensures Orphans(t') == Orphans(t)
  {
    hide View, KeyOf, WellKeyed, Indexed, Numbered, Covers, IdxOf, Orphans;
    assert SledPurge.IdxsOf(t.messages, {k}) == {IdxOf(t.messages[k])};
    SledPurge.MinusOrphans(t, {k}, {k}, t');
    assert SledPurge.IdxsOf(t.messages, {k} - {k}) == {};
  }

  lemma ActSound(s: Mid, a: Act, s': Mid)
    requires Safe(s.trees) && Acts(s, a, s')
    ensures Sound(s'.trees) && Orphans(s'.trees) <= Orphans(s.trees)
    ensures !a.Write? ==> Safe(s'.trees)
  {
    hide View, KeyOf, WellKeyed, Bytes, QuotaOf, Indexed, Numbered, Covers, IdxOf, Orphans, SledStep, SledRoom, Read, Expired, SledPurge.Spent;
    match a
    case Round(k, now) => RoundSafe(s, k, now, s');
    case Write(r) => SledStore.SameOrphans(s.trees, s'.trees); SoundWrite(s.trees, s'.trees);
    case Call(op) =>
      StepSafe(s.trees, op, s'.trees);
      CallOrphans(s.trees, op, s'.trees);
  }

  lemma SoundWrite(t: Trees, t': Trees)
    requires Sound(t) && t'.messages == t.messages && t'.index == t.index && t'.seqs == t.seqs
    ensures Sound(t')
  {
    hide WellKeyed, IdxOf, ReadSeq;
  }

  lemma CallOrphans(t: Trees, op: Op, t': Trees)
    requires Safe(t) && SledStep(t, op, t') && !op.PurgeOp?
    ensures Orphans(t') <= Orphans(t)
  {
    hide View, KeyOf, WellKeyed, Bytes, QuotaOf, Indexed, Numbered, Covers, Excess, Orphans, NextSeq, Exact, Clips, Step, SledStore.Fits, Named,
      SledStore.Idxs;
  }

  // ---- how far the records drift ----

  /** What the purge will write for `r`, or what is recorded, less the truth. */
  ghost function Over(s: Mid, r: Text): (int, int)
    requires WellKeyed(s.trees.messages)
  {
    var q := View(s.trees.messages, r);
    (Read(s, r).count - |q|, Read(s, r).bytes - Bytes(q))
  }

  /** What an act adds to that: a call for a recipient whose quota is held changes its
      queue behind the purge's back, and a subtraction of the purge may clip. */
  ghost function ActDrift(s: Mid, a: Act, s': Mid, r: Text): (int, int)
    requires WellKeyed(s.trees.messages) && WellKeyed(s'.trees.messages)
  {
    var q, q', v := View(s.trees.messages, r), View(s'.trees.messages, r), Read(s, r);
    match a
    case Round(k, _) =>
      if k in s.trees.messages && s.trees.messages[k].recipient == r then
        var m := s.trees.messages[k];
        (if v.count == 0 then 1 else 0, if v.bytes < m.payloadBytes then m.payloadBytes - v.bytes else 0)
      else (0, 0)
    case Write(_) => (0, 0)
    case Call(_) => if r in s.quotas then (|q| - |q'|, Bytes(q) - Bytes(q')) else (0, 0)
  }

  ghost predicate Drifted(before: (int, int), delta: (int, int), after: (int, int)) {
    after == (before.0 + delta.0, before.1 + delta.1)
  }

  lemma ReadAfter(s: Mid, a: Act, s': Mid, r: Text)
    requires Safe(s.trees) && Acts(s, a, s') && !a.Call?
    ensures Read(s', r) ==
            if a.Round? && s.trees.messages[a.key].recipient == r then SledPurge.Spent(Read(s, r), s.trees.messages[a.key])
            else Read(s, r)
  {
    hide View, KeyOf, WellKeyed, Bytes, QuotaOf, QuotaKey, Indexed, Numbered, Covers, IdxOf, Expired, SledPurge.Spent;
    if a.Write? { QuotaWrite(s.trees.quota, a.recipient, s.quotas[a.recipient], r); }
  }

  lemma RoundDrifts(s: Mid, k: Text, now: u64, s': Mid, r: Text)
    requires Safe(s.trees) && Acts(s, Round(k, now), s') && WellKeyed(s'.trees.messages)
    ensures Drifted(Over(s, r), ActDrift(s, Round(k, now), s', r), Over(s', r))
  {
    hide View, KeyOf, WellKeyed, Bytes, Indexed, Numbered, Covers, IdxOf, Expired, Read, SledPurge.Spent, Over, ActDrift, Drifted;
    var t, t' := s.trees, s'.trees;
    ReadAfter(s, Round(k, now), s', r);
    if t.messages[k].recipient == r {
      SledPurge.ViewLoses(t, k, t.messages[k], t');
      OwnRound(s, k, now, s', r);
    } else {
      SledPurge.OtherView(t.messages, k, r, t'.messages);
      OtherRound(s, k, now, s', r);
    }
  }

  lemma OwnRound(s: Mid, k: Text, now: u64, s': Mid, r: Text)
    requires WellKeyed(s.trees.messages) && WellKeyed(s'.trees.messages)
    requires k in s.trees.messages && s.trees.messages[k].recipient == r
    requires Read(s', r) == SledPurge.Spent(Read(s, r), s.trees.messages[k])
    requires |View(s'.trees.messages, r)| == |View(s.trees.messages, r)| - 1
    requires Bytes(View(s'.trees.messages, r)) == Bytes(View(s.trees.messages, r)) - s.trees.messages[k].payloadBytes
    ensures Drifted(Over(s, r), ActDrift(s, Round(k, now), s', r), Over(s', r))
  {
    hide View, WellKeyed, Bytes, Read, SledPurge.Spent;
    SpendDrifts(Read(s, r), s.trees.messages[k]);
  }

  lemma OtherRound(s: Mid, k: Text, now: u64, s': Mid, r: Text)
    requires WellKeyed(s.trees.messages) && WellKeyed(s'.trees.messages)
    requires k in s.trees.messages && s.trees.messages[k].recipient != r
    requires Read(s', r) == Read(s, r) && View(s'.trees.messages, r) == View(s.trees.messages, r)
    ensures Drifted(Over(s, r), ActDrift(s, Round(k, now), s', r), Over(s', r))
  {
    hide View, WellKeyed, Bytes, Read;
  }

  lemma SpendDrifts(v: QuotaValue, m: QueueMessage)
    ensures SledPurge.Spent(v, m).count == v.count - 1 + if v.count == 0 then 1 else 0
    ensures SledPurge.Spent(v, m).bytes ==
            v.bytes - m.payloadBytes + if v.bytes < m.payloadBytes then m.payloadBytes - v.bytes else 0
  {
  }

  lemma WriteDrifts(s: Mid, w: Text, s': Mid, r: Text)
    requires Safe(s.trees) && Acts(s, Write(w), s') && WellKeyed(s'.trees.messages)
    ensures Over(s', r) == Over(s, r)
  {
    hide View, KeyOf, WellKeyed, Bytes, Indexed, Numbered, Covers, Read;
    ReadAfter(s, Write(w), s', r);
  }

  lemma CallDrifts(s: Mid, op: Op, s': Mid, r: Text)
    requires Safe(s.trees) && Safe(s'.trees) && Acts(s, Call(op), s')
    ensures Drifted(Over(s, r), ActDrift(s, Call(op), s', r), Over(s', r))
  {
    hide View, KeyOf, WellKeyed, Bytes, QuotaOf, Indexed, Numbered, Covers, SledStep, SledRoom;
    StepExcess(s.trees, op, s'.trees, r);
    assert Excess(s'.trees, r) == Excess(s.trees, r);
  }

  lemma ActDrifts(s: Mid, a: Act, s': Mid, r: Text)
    requires Safe(s.trees) && Acts(s, a, s')
    ensures WellKeyed(s'.trees.messages) && Drifted(Over(s, r), ActDrift(s, a, s', r), Over(s', r))
  {
    hide View, WellKeyed, Bytes, Indexed, Numbered, Covers, Acts, Over, Read;
    ActSound(s, a, s');
    match a
    case Round(k, now) => RoundDrifts(s, k, now, s', r);
    case Write(w) => WriteDrifts(s, w, s', r);
    case Call(op) => CallDrifts(s, op, s', r);
  }

  ghost predicate SafeBefore(ss: seq<Mid>, i: nat)
    requires i <= |ss|
  {
    forall j :: 0 <= j < i ==> Safe(ss[j].trees)
  }

  ghost predicate Keyed(ss: seq<Mid>, i: nat)
    requires i < |ss|
  {
    forall j :: 0 <= j <= i ==> WellKeyed(ss[j].trees.messages)
  }

  /** All that has drifted in the first `i` acts. */
  ghost function Drift(ss: seq<Mid>, acts: seq<Act>, r: Text, i: nat): (int, int)
    requires i < |ss| && i <= |acts| && Keyed(ss, i)
  {
    if i == 0 then (0, 0)
    else
      var before, delta := Drift(ss, acts, r, i - 1), ActDrift(ss[i - 1], acts[i - 1], ss[i], r);
      (before.0 + delta.0, before.1 + delta.1)
  }

  lemma KeyedBefore(ss: seq<Mid>, acts: seq<Act>, i: nat)
    requires Interleaved(ss, acts) && i < |ss| && SafeBefore(ss, i) && WellKeyed(ss[0].trees.messages)
    ensures Keyed(ss, i)
  {
    hide Acts, WellKeyed, Indexed, Numbered, Covers, Orphans;
    forall j | 0 < j <= i ensures WellKeyed(ss[j].trees.messages) {
      ActSound(ss[j - 1], acts[j - 1], ss[j]);
    }
  }

  lemma NothingHeld(s: Mid, r: Text)
    requires s.quotas == map[] && WellKeyed(s.trees.messages)
    ensures Over(s, r) == Excess(s.trees, r)
  {
    hide View, WellKeyed, Bytes, QuotaOf;
  }

  lemma {:induction false} Drifts(ss: seq<Mid>, acts: seq<Act>, r: Text, i: nat)
    requires Interleaved(ss, acts) && i < |ss| && SafeBefore(ss, i) && Keyed(ss, i)
    ensures Drifted(Excess(ss[0].trees, r), Drift(ss, acts, r, i), Over(ss[i], r))
  {
    hide Acts, WellKeyed, Indexed, Numbered, Covers, ActDrift, Over, Excess;
    if i == 0 {
      NothingHeld(ss[0], r);
    } else {
      Drifts(ss, acts, r, i - 1);
      ActDrifts(ss[i - 1], acts[i - 1], ss[i], r);
    }
  }

  lemma {:induction false} FewerOrphans(ss: seq<Mid>, acts: seq<Act>, i: nat)
    requires Interleaved(ss, acts) && i < |ss| && SafeBefore(ss, i) && Sound(ss[0].trees)
    ensures Sound(ss[i].trees) && Orphans(ss[i].trees) <= Orphans(ss[0].trees)
  {
    hide Acts, Safe, Sound, Orphans;
    if i > 0 {
      FewerOrphans(ss, acts, i - 1);
      ActSound(ss[i - 1], acts[i - 1], ss[i]);
    }
  }

  /** Whatever calls fall between the rounds and writes of purges: when all is written
      back, each record is off by what drifted and by no more; exact trees are exact
      again if and only if nothing has; and trees are safe at the end if and only if no
      record has drifted below the truth. */
  lemma PurgeAmongCalls(ss: seq<Mid>, acts: seq<Act>)
    requires Interleaved(ss, acts) && Safe(ss[0].trees) && SafeBefore(ss, |acts|) && ss[|acts|].quotas == map[]
    ensures Keyed(ss, |acts|)
    ensures forall r :: Drifted(Excess(ss[0].trees, r), Drift(ss, acts, r, |acts|), Excess(ss[|acts|].trees, r))
    ensures Exact(ss[0].trees) ==> (Exact(ss[|acts|].trees) <==> forall r :: Drift(ss, acts, r, |acts|) == (0, 0))
    ensures Safe(ss[|acts|].trees) <==> forall r :: Covers(ss[|acts|].trees, r)
  {
    hide Acts, WellKeyed, Indexed, Numbered, Drift, Orphans, Excess, Over, SafeBefore, Keyed;
    var n := |acts|;
    assert Keyed(ss, n) by { KeyedBefore(ss, acts, n); }
    FewerOrphans(ss, acts, n);
    forall r ensures Drifted(Excess(ss[0].trees, r), Drift(ss, acts, r, n), Excess(ss[n].trees, r)) {
      Drifts(ss, acts, r, n);
      NothingHeld(ss[n], r);
    }
    ExactEnd(ss[n].trees);
  }

  lemma ExactEnd(t: Trees)
    requires Sound(t)
    ensures (forall r :: Excess(t, r) == (0, 0)) ==> forall r :: Covers(t, r)
  {
    hide View, WellKeyed, Bytes, QuotaOf, Excess, Indexed, Numbered;
  }

  // ---- when nothing drifts ----

  /** The call changes no queue whose quota the purge holds: it is no push or
      acknowledgement for such a recipient, or it is refused, a duplicate, or finds nothing. */
  ghost predicate Spares(s: Mid, a: Act, s': Mid) {
    && WellKeyed(s.trees.messages) && WellKeyed(s'.trees.messages)
    && (a.Call? ==> forall r :: r in s.quotas ==> View(s'.trees.messages, r) == View(s.trees.messages, r))
  }

  lemma SparesUnlessMeant(s: Mid, op: Op, s': Mid)
    requires Safe(s.trees) && Safe(s'.trees) && Acts(s, Call(op), s')
    requires op.PushOp? ==> op.msg.recipient !in s.quotas || s'.trees == s.trees
    requires op.AckOp? ==> op.recipient !in s.quotas || op.outcome.deleted == 0
    ensures Spares(s, Call(op), s')
  {
    hide View, KeyOf, WellKeyed, Bytes, QuotaOf, Indexed, Numbered, Covers, Excess, Orphans, NextSeq, Exact, Clips, Step, SledStore.Fits, Named,
      SledStore.Idxs;
    forall r | r in s.quotas ensures View(s'.trees.messages, r) == View(s.trees.messages, r) {
      if op.PushOp? && s'.trees != s.trees { assert ViewLog(s'.trees, r) == ViewLog(s.trees, r); }
      if op.AckOp? && op.recipient == r {
        NoneNamed(View(s.trees.messages, r), Elements(op.items));
      }
    }
  }

  lemma NoneNamed(q: map<u64, QueueMessage>, items: set<AckItem>)
    requires |Named(q, items)| == 0
    ensures q - Named(q, items) == q
  {
  }

  ghost predicate AllSpare(ss: seq<Mid>, acts: seq<Act>)
    requires |ss| == |acts| + 1
  {
    forall i :: 0 <= i < |acts| ==> Spares(ss[i], acts[i], ss[i + 1])
  }

  ghost predicate NeverUnder(s: Mid)
    requires WellKeyed(s.trees.messages)
  {
    forall r :: Over(s, r).0 >= 0 && Over(s, r).1 >= 0
  }

  lemma SpareAct(s: Mid, a: Act, s': Mid)
    requires Safe(s.trees) && Acts(s, a, s') && Spares(s, a, s') && NeverUnder(s)
    ensures Safe(s'.trees) && NeverUnder(s')
    ensures forall r :: ActDrift(s, a, s', r) == (0, 0)
  {
    hide View, KeyOf, WellKeyed, Bytes, QuotaOf, Indexed, Numbered, Covers, Acts, Over, Read;
    ActSound(s, a, s');
    forall r ensures ActDrift(s, a, s', r) == (0, 0) && Over(s', r) == Over(s, r) {
      ActDrifts(s, a, s', r);
      SpareDrift(s, a, s', r);
    }
    if a.Write? { WrittenSafely(s, a.recipient, s'); }
  }

  lemma SpareDrift(s: Mid, a: Act, s': Mid, r: Text)
    requires Safe(s.trees) && Acts(s, a, s') && Spares(s, a, s') && NeverUnder(s)
    ensures ActDrift(s, a, s', r) == (0, 0)
  {
    hide View, KeyOf, WellKeyed, Bytes, QuotaOf, Indexed, Numbered, Covers, SledStep, SledRoom, Expired, Read, SledPurge.Spent;
    assert Over(s, r).0 >= 0 && Over(s, r).1 >= 0;
    if a.Round? && s.trees.messages[a.key].recipient == r {
      SledPurge.ViewLoses(s.trees, a.key, s.trees.messages[a.key], s'.trees);
    }
  }

  lemma WrittenSafely(s: Mid, r: Text, s': Mid)
    requires Safe(s.trees) && Acts(s, Write(r), s') && NeverUnder(s)
    ensures Safe(s'.trees)
  {
    hide View, KeyOf, WellKeyed, Bytes, QuotaOf, QuotaKey, Indexed, Numbered, Covers;
    assert Over(s, r).0 >= 0 && Over(s, r).1 >= 0;
    QuotaWriteSafe(s.trees, r, s.quotas[r]);
  }

  lemma StartsOver(s: Mid)
    requires Safe(s.trees) && s.quotas == map[]
    ensures NeverUnder(s)
  {
    hide View, WellKeyed, Bytes, QuotaOf, Indexed, Numbered;
    forall r ensures Over(s, r).0 >= 0 && Over(s, r).1 >= 0 {
      assert Covers(s.trees, r);
    }
  }

  lemma {:induction false} SpareMoments(ss: seq<Mid>, acts: seq<Act>, i: nat)
    requires Interleaved(ss, acts) && Safe(ss[0].trees) && AllSpare(ss, acts) && i < |ss|
    ensures Safe(ss[i].trees) && NeverUnder(ss[i])
    decreases i
  {
    hide Acts, Spares, Indexed, Numbered, Covers, WellKeyed, NeverUnder;
    if i == 0 {
      StartsOver(ss[0]);
    } else {
      SpareMoments(ss, acts, i - 1);
      SpareAct(ss[i - 1], acts[i - 1], ss[i]);
    }
  }

  lemma {:induction false} SpareDrifts(ss: seq<Mid>, acts: seq<Act>, r: Text, i: nat)
    requires Interleaved(ss, acts) && Safe(ss[0].trees) && AllSpare(ss, acts) && i < |ss| && Keyed(ss, i)
    ensures Drift(ss, acts, r, i) == (0, 0)
    decreases i
  {
    hide Acts, Spares, Indexed, Numbered, Covers, WellKeyed, NeverUnder, ActDrift;
    if i > 0 {
      SpareDrifts(ss, acts, r, i - 1);
      SpareMoments(ss, acts, i - 1);
      SpareAct(ss[i - 1], acts[i - 1], ss[i]);
    }
  }

  /** While no call changes a queue whose quota is held, the trees are safe throughout and
      nothing drifts. */
  lemma NothingDrifts(ss: seq<Mid>, acts: seq<Act>)
    requires Interleaved(ss, acts) && Safe(ss[0].trees) && AllSpare(ss, acts)
    ensures SafeBefore(ss, |ss|) && Keyed(ss, |acts|)
    ensures forall r :: Drift(ss, acts, r, |acts|) == (0, 0)
  {
    hide Acts, Spares, Indexed, Numbered, Covers, WellKeyed, NeverUnder, Drift;
    forall i | 0 <= i < |ss| ensures Safe(ss[i].trees) && WellKeyed(ss[i].trees.messages) { SpareMoments(ss, acts, i); }
    forall r ensures Drift(ss, acts, r, |acts|) == (0, 0) { SpareDrifts(ss, acts, r, |acts|); }
  }

  /** The smallest case: one round takes a message of `r`, one call comes, and the record
      is written. It is off by exactly what the call took from or added to `r`'s queue,
      so it stays exact if and only if that queue keeps its count and its bytes. */
  lemma CallInTheGap(s0: Mid, k: Text, now: u64, s1: Mid, op: Op, s2: Mid, r: Text, s3: Mid)
    requires Safe(s0.trees) && s0.quotas == map[] && Acts(s0, Round(k, now), s1) && r == s0.trees.messages[k].recipient
    requires Safe(s1.trees) && Acts(s1, Call(op), s2) && Safe(s2.trees) && Acts(s2, Write(r), s3)
    ensures WellKeyed(s3.trees.messages)
    ensures forall r' :: Drifted(Excess(s0.trees, r'), GapDrift(s1, s2, r, r'), Excess(s3.trees, r'))
    ensures Exact(s0.trees) ==> (Exact(s3.trees) <==> GapDrift(s1, s2, r, r) == (0, 0))
  {
    hide View, WellKeyed, Bytes, Indexed, Numbered, Acts, GapDrift, Excess, Orphans;
    ActSound(s0, Round(k, now), s1);
    ActSound(s1, Call(op), s2);
    ActSound(s2, Write(r), s3);
    forall r' ensures Drifted(Excess(s0.trees, r'), GapDrift(s1, s2, r, r'), Excess(s3.trees, r')) {
      GapDrifts(s0, k, now, s1, op, s2, r, s3, r');
    }
    forall r' | r' != r ensures GapDrift(s1, s2, r, r') == (0, 0) { NoGap(s1, s2, r, r'); }
    ExactEnd(s3.trees);
  }

  lemma NoGap(s1: Mid, s2: Mid, r: Text, r': Text)
    requires WellKeyed(s1.trees.messages) && WellKeyed(s2.trees.messages) && r' != r
    ensures GapDrift(s1, s2, r, r') == (0, 0)
  {
    hide View, WellKeyed, Bytes;
  }

  lemma GapHolds(s0: Mid, k: Text, now: u64, s1: Mid, op: Op, s2: Mid, r: Text, s3: Mid)
    requires Safe(s0.trees) && s0.quotas == map[] && Acts(s0, Round(k, now), s1) && r == s0.trees.messages[k].recipient
    requires Safe(s1.trees) && Acts(s1, Call(op), s2) && Safe(s2.trees) && Acts(s2, Write(r), s3)
    ensures s1.quotas.Keys == {r} && s3.quotas == map[]
  {
    hide WellKeyed, Indexed, Numbered, Covers, SledStep, SledRoom, IdxOf, Expired, SledPurge.Spent, QuotaKey;
  }

  lemma CallIsGap(s1: Mid, op: Op, s2: Mid, r: Text, s3: Mid, r': Text)
    requires WellKeyed(s1.trees.messages) && WellKeyed(s2.trees.messages) && WellKeyed(s3.trees.messages)
    requires s1.quotas.Keys == {r}
    ensures ActDrift(s1, Call(op), s2, r') == GapDrift(s1, s2, r, r')
    ensures ActDrift(s2, Write(r), s3, r') == (0, 0)
  {
    hide View, WellKeyed, Bytes;
  }

  lemma GapDrifts(s0: Mid, k: Text, now: u64, s1: Mid, op: Op, s2: Mid, r: Text, s3: Mid, r': Text)
    requires Safe(s0.trees) && s0.quotas == map[] && Acts(s0, Round(k, now), s1) && r == s0.trees.messages[k].recipient
    requires Safe(s1.trees) && Acts(s1, Call(op), s2) && Safe(s2.trees) && Acts(s2, Write(r), s3)
    requires WellKeyed(s3.trees.messages)
    ensures Drifted(Excess(s0.trees, r'), GapDrift(s1, s2, r, r'), Excess(s3.trees, r'))
  {
    hide View, WellKeyed, Indexed, Numbered, Covers, Over, Acts, Excess, ActDrift, GapDrift;
    GapHolds(s0, k, now, s1, op, s2, r, s3);
    NothingHeld(s0, r');
    NothingHeld(s3, r');
    ActDrifts(s0, Round(k, now), s1, r');
    ActDrifts(s1, Call(op), s2, r');
    ActDrifts(s2, Write(r), s3, r');
    FirstRoundExact(s0, k, now, s1, r');
    CallIsGap(s1, op, s2, r, s3, r');
  }

  ghost function GapDrift(s1: Mid, s2: Mid, r: Text, r': Text): (int, int)
    requires WellKeyed(s1.trees.messages) && WellKeyed(s2.trees.messages)
  {
    var q1, q2 := View(s1.trees.messages, r), View(s2.trees.messages, r);
    if r' == r then (|q1| - |q2|, Bytes(q1) - Bytes(q2)) else (0, 0)
  }

  lemma FirstRoundExact(s0: Mid, k: Text, now: u64, s1: Mid, r: Text)
    requires Safe(s0.trees) && s0.quotas == map[] && Acts(s0, Round(k, now), s1) && WellKeyed(s1.trees.messages)
    ensures ActDrift(s0, Round(k, now), s1, r) == (0, 0)
  {
    hide View, WellKeyed, Bytes, Indexed, Numbered, IdxOf, Expired, SledPurge.Spent, Acts, ActDrift;
    StartsOver(s0);
    assert Spares(s0, Round(k, now), s1);
    SpareDrift(s0, Round(k, now), s1, r);
  }

  // ---- every interleaving is a lax run ----

  function ActEvent(r: Text, a: Act): Event {
    match a
    case Round(_, now) => Event.Purge(now)
    case Write(_) => Event.Purge(0)
    case Call(op) => EventFor(r, op)
  }

  function ActEvents(r: Text, acts: seq<Act>): (es: seq<Event>)
    ensures |es| == |acts| && forall i :: 0 <= i < |acts| ==> es[i] == ActEvent(r, acts[i])
  {
    seq(|acts|, i requires 0 <= i < |acts| => ActEvent(r, acts[i]))
  }

  function TreesOf(ss: seq<Mid>): (ts: seq<Trees>)
    ensures |ts| == |ss| && forall i :: 0 <= i < |ss| ==> ts[i] == ss[i].trees
  {
    seq(|ss|, i requires 0 <= i < |ss| => ss[i].trees)
  }

  lemma ActIsLax(s: Mid, a: Act, s': Mid, r: Text)
    requires Safe(s.trees) && Acts(s, a, s')
    ensures WellKeyed(s'.trees.messages) && LaxStep(r, ViewLog(s.trees, r), ActEvent(r, a), ViewLog(s'.trees, r))
  {
    hide View, KeyOf, WellKeyed, Bytes, QuotaOf, Indexed, Numbered, Covers, IdxOf, SledPurge.Spent, Read, SledStep, SledRoom, NextSeq;
    ActSound(s, a, s');
    match a
    case Round(k, now) => ViewRemove(s.trees.messages, k, r);
    case Write(_) => DropsNothing(ViewLog(s.trees, r), 0);
    case Call(op) => SledHistories.StepIsLax(s.trees, op, s'.trees, r);
  }

  /** Every history at the grain of purge rounds is, for each recipient, a lax run of its
      queue, as long as no record is under-counted. */
  lemma InterleavedIsLax(ss: seq<Mid>, acts: seq<Act>, r: Text)
    requires Interleaved(ss, acts) && ss[0].trees == NO_TREES && SafeBefore(ss, |acts|)
    ensures forall i :: 0 <= i < |ss| ==> WellKeyed(TreesOf(ss)[i].messages)
    ensures LaxRun(r, SledLogs(TreesOf(ss), r), ActEvents(r, acts))
  {
    hide Acts, WellKeyed, Safe, ActEvent, LaxStep, ViewLog, Indexed, Numbered;
    EmptyTrees(r);
    KeyedBefore(ss, acts, |acts|);
    var ls, es := SledLogs(TreesOf(ss), r), ActEvents(r, acts);
    forall i | 0 <= i < |es| ensures LaxStep(r, ls[i], es[i], ls[i + 1]) {
      ActIsLax(ss[i], acts[i], ss[i + 1], r);
    }
  }

  lemma InterleavedShows(ss: seq<Mid>, acts: seq<Act>, r: Text, idx: seq<nat>)
    requires Interleaved(ss, acts) && SafeBefore(ss, |acts|) && AllReadable(TreesOf(ss), r, idx)
    requires forall j :: 0 <= j < |idx| ==> idx[j] < |acts| && ActEvent(r, acts[idx[j]]).Pull?
    requires forall i :: 0 <= i < |ss| ==> WellKeyed(TreesOf(ss)[i].messages)
    ensures AllShow(r, SledLogs(TreesOf(ss), r), ActEvents(r, acts), idx)
  {
    hide WellKeyed, Safe, Shows, ViewLog, SledStep, SledRoom, SledScan.Readable, SledPurge.Spent;
    var ls, es := SledLogs(TreesOf(ss), r), ActEvents(r, acts);
    forall j | 0 <= j < |idx| ensures Shows(r, ls[idx[j]], es[idx[j]]) {
      var i := idx[j];
      assert Acts(ss[i], acts[i], ss[i + 1]);
      PullShows(ss[i].trees, acts[i].op, ss[i + 1].trees);
    }
  }

  /** So pages pulled between the rounds of purges belong to the same sessions: numbers
      rise, and what stays is delivered exactly once. */
  lemma SessionAmongRounds(ss: seq<Mid>, acts: seq<Act>, r: Text, idx: seq<nat>)
    requires Interleaved(ss, acts) && ss[0].trees == NO_TREES && SafeBefore(ss, |acts|)
    requires COLON !in r && Session(ActEvents(r, acts), idx, None) && AllReadable(TreesOf(ss), r, idx)
    ensures forall i :: 0 <= i < |ss| ==> WellKeyed(TreesOf(ss)[i].messages)
    ensures var ls, es := SledLogs(TreesOf(ss), r), ActEvents(r, acts); var out := Delivered(es, idx, None);
            && Rising(out, 0) && (forall m :: m in out ==> PushedOnce(es, m))
            && forall k :: Stays(ls, es, idx, k) ==>
                 exists i :: 0 <= i < |out| && out[i] == ls[idx[0]].q[k] &&
                             forall j :: 0 <= j < |out| && out[j].arrivalSeq == k ==> j == i
  {
    hide Acts, Session, LaxRun, WellKeyed, Safe, ViewLog, AllReadable, AllShow, Delivered, SafeBefore;
    InterleavedIsLax(ss, acts, r);
    var ls, es := SledLogs(TreesOf(ss), r), ActEvents(r, acts);
    SessionPulls(es, idx, None);
    InterleavedShows(ss, acts, r, idx);
    SessionRises(r, ls, es, idx, None, 0);
    DeliveredArePushed(r, ls, es, idx, None, 0);
    forall k | Stays(ls, es, idx, k)
      ensures var out := Delivered(es, idx, None);
              exists i :: 0 <= i < |out| && out[i] == ls[idx[0]].q[k] &&
                          forall j :: 0 <= j < |out| && out[j].arrivalSeq == k ==> j == i
    {
      SessionDeliversOnce(r, ls, es, idx, k);
    }
  }
}
