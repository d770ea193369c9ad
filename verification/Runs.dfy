/** Safety of one recipient's queue over whole runs: any interleaving of pushes,
    pulls, acknowledgements and purges, by any number of clients. */
module Runs {
  import opened Machine
  import opened Text
  import opened Messages
  import opened Queue

  /** `ls[i]` is the queue before event `es[i]`. */
  ghost predicate Run(r: Text, ls: seq<Log>, es: seq<Event>) {
    && |ls| == |es| + 1
    && ls[0] == EMPTY
    && (forall i :: 0 <= i < |es| ==> Step(r, ls[i], es[i], ls[i + 1]))
  }

  predicate StoredPush(e: Event) {
    e.Push? && e.pushed.Ok? && e.pushed.value.stored
  }

  /** A step as it looks when quota records and index may be off: the queue moves as
      it should, but a push may be refused or called a duplicate without cause, and
      nothing is said of a pull's result or of the counts that are reported. */
  ghost predicate LaxStep(r: Text, l: Log, e: Event, l': Log) {
    match e
    case Push(msg, limits, res) =>
      && msg.recipient == r
      && if StoredPush(e) then
           && l.next < U64_MAX && !Queued(l.q, InboundItem(msg))
           && l' == Log(l.next + 1, l.q[l.next := Stored(msg, l.next)])
         else l' == l
    case Pull(_, _, now, _) => Drops(l, l', now)
    case Ack(items, o) => l' == Log(l.next, l.q - Named(l.q, Elements(items))) && o.deleted == |Named(l.q, Elements(items))|
    case Purge(now) => Drops(l, l', now)
  }

  ghost predicate LaxRun(r: Text, ls: seq<Log>, es: seq<Event>) {
    && |ls| == |es| + 1
    && ls[0] == EMPTY
    && (forall i :: 0 <= i < |es| ==> LaxStep(r, ls[i], es[i], ls[i + 1]))
  }

  lemma StepIsLax(r: Text, l: Log, e: Event, l': Log)
    requires Step(r, l, e, l')
    ensures LaxStep(r, l, e, l')
  {
    hide Bytes, PageKeys, NextCursor, Items, Start, Named;
  }

  /** So what holds of lax runs holds of the queue's own. */
  lemma RunIsLax(r: Text, ls: seq<Log>, es: seq<Event>)
    requires Run(r, ls, es)
    ensures LaxRun(r, ls, es)
  {
    hide Step, LaxStep;
    forall i | 0 <= i < |es| ensures LaxStep(r, ls[i], es[i], ls[i + 1]) {
      StepIsLax(r, ls[i], es[i], ls[i + 1]);
    }
  }

  lemma RunPrefix(r: Text, ls: seq<Log>, es: seq<Event>, n: nat)
    requires LaxRun(r, ls, es) && n <= |es|
    ensures LaxRun(r, ls[..n + 1], es[..n])
  {
    hide LaxStep;
  }

  lemma LaxWellFormed(r: Text, l: Log, e: Event, l': Log)
    requires WellFormed(r, l) && LaxStep(r, l, e, l')
    ensures WellFormed(r, l')
  {
    hide Named;
  }

  lemma {:induction false} RunWellFormed(r: Text, ls: seq<Log>, es: seq<Event>, i: nat)
    requires LaxRun(r, ls, es) && i < |ls|
    ensures WellFormed(r, ls[i])
  {
    hide LaxStep;
    if i > 0 {
      RunWellFormed(r, ls, es, i - 1);
      LaxWellFormed(r, ls[i - 1], es[i - 1], ls[i]);
    }
  }

  /** The effect of an event on the log, results aside. */
  ghost predicate Evolves(l: Log, e: Event, l': Log) {
    if StoredPush(e) then
      l.next < U64_MAX && l' == Log(l.next + 1, l.q[l.next := Stored(e.msg, l.next)])
    else
      l'.next == l.next && l'.q.Keys <= l.q.Keys && forall s :: s in l'.q ==> l'.q[s] == l.q[s]
  }

  lemma StepEvolves(r: Text, l: Log, e: Event, l': Log)
    requires LaxStep(r, l, e, l')
    ensures Evolves(l, e, l')
  {
  }

  // ---- conservation ----

  ghost function StoredCount(es: seq<Event>): nat {
    if es == [] then 0
    else StoredCount(es[..|es| - 1]) + if StoredPush(es[|es| - 1]) then 1 else 0
  }

  ghost function AckedCount(es: seq<Event>): nat {
    if es == [] then 0
    else AckedCount(es[..|es| - 1]) + if es[|es| - 1].Ack? then es[|es| - 1].outcome.deleted else 0
  }

  /** Messages dropped as expired, by pulls and purges. */
  ghost function DroppedCount(ls: seq<Log>, es: seq<Event>): int
    requires |ls| == |es| + 1
  {
    if es == [] then 0
    else
      var n := |es| - 1;
      DroppedCount(ls[..n + 1], es[..n]) +
      if es[n].Pull? || es[n].Purge? then |ls[n].q| - |ls[n + 1].q| else 0
  }

  lemma NamedSize(q: map<u64, QueueMessage>, items: set<AckItem>)
    ensures |q - Named(q, items)| == |q| - |Named(q, items)|
  {
    assert (q - Named(q, items)).Keys == q.Keys - Named(q, items);
    assert Named(q, items) <= q.Keys;
  }

  lemma StepConserves(r: Text, l: Log, e: Event, l': Log)
    requires WellFormed(r, l) && LaxStep(r, l, e, l')
    ensures l'.next == l.next + if StoredPush(e) then 1 else 0
    ensures |l'.q| == |l.q| + (if StoredPush(e) then 1 else 0) - (if e.Ack? then e.outcome.deleted else 0)
                    - (if e.Pull? || e.Purge? then |l.q| - |l'.q| else 0)
    ensures e.Pull? || e.Purge? ==> |l'.q| <= |l.q|
  {
    match e
    case Push(msg, limits, res) =>
      if StoredPush(e) { BytesInsert(l.q, l.next, Stored(msg, l.next)); }
    case Ack(items, o) => NamedSize(l.q, Elements(items));
    case Pull(_, _, _, _) => SubsetSize(l'.q.Keys, l.q.Keys);
    case Purge(_) => SubsetSize(l'.q.Keys, l.q.Keys);
  }

  /** No message is lost or invented: what was stored is queued, acknowledged or
      expired, and the number of stores is the next arrival number. */
  lemma {:induction false} Conservation(r: Text, ls: seq<Log>, es: seq<Event>)
    requires LaxRun(r, ls, es)
    ensures var l := ls[|es|];
            && l.next == StoredCount(es)
            && StoredCount(es) == |l.q| + AckedCount(es) + DroppedCount(ls, es)
            && DroppedCount(ls, es) >= 0
  {
    if es != [] {
      var n := |es| - 1;
      RunPrefix(r, ls, es, n);
      Conservation(r, ls[..n + 1], es[..n]);
      RunWellFormed(r, ls, es, n);
      StepConserves(r, ls[n], es[n], ls[n + 1]);
    }
  }

  // ---- arrival numbers ----

  lemma {:induction false} NextGrows(r: Text, ls: seq<Log>, es: seq<Event>, i: nat, j: nat)
    requires LaxRun(r, ls, es) && i <= j < |ls|
    ensures ls[i].next <= ls[j].next
    decreases j
  {
    if i < j { NextGrows(r, ls, es, i, j - 1); }
  }

  /** A number, once given out, names the same message for ever: an acknowledged or
      expired message never comes back, and its number is never reused. */
  lemma {:induction false} NumbersAreNeverReused(r: Text, ls: seq<Log>, es: seq<Event>, i: nat, j: nat, k: u64)
    requires LaxRun(r, ls, es) && i <= j < |ls|
    requires k in ls[j].q && k < ls[i].next
    ensures k in ls[i].q && ls[i].q[k] == ls[j].q[k]
    decreases j
  {
    if i < j {
      NextGrows(r, ls, es, i, j - 1);
      StepEvolves(r, ls[j - 1], es[j - 1], ls[j]);
      assert k in ls[j - 1].q && ls[j - 1].q[k] == ls[j].q[k];
      NumbersAreNeverReused(r, ls, es, i, j - 1, k);
    }
  }

  /** The i-th event, when it stores a push, gives the number of earlier stores. */
  lemma StoredNumber(r: Text, ls: seq<Log>, es: seq<Event>, i: nat)
    requires LaxRun(r, ls, es) && i < |es| && StoredPush(es[i])
    ensures var n := StoredCount(es[..i]);
            n in ls[i + 1].q && n !in ls[i].q && ls[i + 1].q[n] == Stored(es[i].msg, n)
  {
    RunPrefix(r, ls, es, i);
    Conservation(r, ls[..i + 1], es[..i]);
    RunWellFormed(r, ls, es, i);
    assert LaxStep(r, ls[i], es[i], ls[i + 1]);
  }

  /** And it is, field by field, what was pushed. */
  lemma StoredMessage(r: Text, ls: seq<Log>, es: seq<Event>, i: nat)
    requires LaxRun(r, ls, es) && i < |es| && StoredPush(es[i])
    ensures var n := StoredCount(es[..i]); n in ls[i + 1].q && Copies(ls[i + 1].q[n], es[i].msg, n)
  {
    StoredNumber(r, ls, es, i);
    RunWellFormed(r, ls, es, i + 1);
  }

  /** The event `h` stored the message `m`. */
  ghost predicate Wrote(es: seq<Event>, h: nat, m: QueueMessage)
    requires h < |es|
  {
    StoredPush(es[h]) && StoredCount(es[..h]) == m.arrivalSeq && Copies(m, es[h].msg, m.arrivalSeq)
  }

  /** `m` is, field by field, what one push stored, and no other push got its number. */
  ghost predicate PushedOnce(es: seq<Event>, m: QueueMessage) {
    exists h :: 0 <= h < |es| && Wrote(es, h, m) &&
                forall g :: 0 <= g < |es| && StoredPush(es[g]) && StoredCount(es[..g]) == m.arrivalSeq ==> g == h
  }

  lemma {:induction false} CountGrows(es: seq<Event>, g: nat, h: nat)
    requires g < h <= |es|
    ensures StoredCount(es[..h]) >= StoredCount(es[..g]) + if StoredPush(es[g]) then 1 else 0
  {
    assert es[..h][..h - 1] == es[..h - 1];
    if g < h - 1 { CountGrows(es, g, h - 1); }
  }

  /** Whatever is queued at any moment is what exactly one push has stored. */
  lemma QueuedIsPushed(r: Text, ls: seq<Log>, es: seq<Event>, i: nat, k: u64)
    requires LaxRun(r, ls, es) && i < |ls| && k in ls[i].q
    ensures PushedOnce(es, ls[i].q[k]) && ls[i].q[k].arrivalSeq == k
  {
    hide LaxStep, StoredCount, Copies;
    RunWellFormed(r, ls, es, i);
    var h := Writer(r, ls, es, i, k);
    forall g | 0 <= g < |es| && StoredPush(es[g]) && StoredCount(es[..g]) == k ensures g == h {
      if g < h { CountGrows(es, g, h); }
      if h < g { CountGrows(es, h, g); }
    }
  }

  lemma {:induction false} Writer(r: Text, ls: seq<Log>, es: seq<Event>, i: nat, k: u64) returns (h: nat)
    requires LaxRun(r, ls, es) && i < |ls| && k in ls[i].q
    ensures h < i && Wrote(es, h, ls[i].q[k])
    decreases i
  {
    hide StoredCount, LaxStep, Copies;
    RunWellFormed(r, ls, es, i);
    assert i > 0;
    var j := i - 1;
    assert |es[..j]| == j && ls[..j + 1][j] == ls[j];
    RunPrefix(r, ls, es, j);
    Conservation(r, ls[..j + 1], es[..j]);
    StepEvolves(r, ls[j], es[j], ls[i]);
    if StoredPush(es[j]) && k == ls[j].next {
      h := j;
      StoredMessage(r, ls, es, j);
    } else {
      h := Writer(r, ls, es, j, k);
    }
  }

  // ---- quotas ----

  ghost predicate Within(l: Log, limits: RelayLimits) {
    |l.q| <= limits.maxMessagesPerUser && Bytes(l.q) <= limits.maxQueueBytesPerUser
  }

  lemma {:induction false} BytesMonotone(q: map<u64, QueueMessage>, q': map<u64, QueueMessage>)
    requires q'.Keys <= q.Keys && forall k :: k in q' ==> q'[k] == q[k]
    ensures Bytes(q') <= Bytes(q) && |q'| <= |q|
    decreases |q|
  {
    if q.Keys - q'.Keys == {} {
      assert q'.Keys == q.Keys;
      assert q' == q;
    } else {
      var k :| k in q.Keys - q'.Keys;
      RemoveOne(q, k);
      BytesMonotone(q - {k}, q');
    }
  }

  lemma NextIsFree(r: Text, l: Log)
    requires WellFormed(r, l)
    ensures l.next !in l.q
  {
  }

  lemma StepWithin(r: Text, l: Log, e: Event, l': Log, limits: RelayLimits)
    requires WellFormed(r, l) && Step(r, l, e, l') && Within(l, limits)
    requires e.Push? ==> e.limits == limits
    ensures Within(l', limits)
  {
    hide WellFormed, Bytes, PageKeys, NextCursor, Items, Start, Named, Queued;
    assert l.next !in l.q by { NextIsFree(r, l); }
    if e.Push? {
      if l' != l { BytesInsert(l.q, l.next, Stored(e.msg, l.next)); }
    } else {
      BytesMonotone(l.q, l'.q);
    }
  }

  /** With fixed limits the queue never exceeds them. */
  lemma {:induction false} QuotasHold(r: Text, ls: seq<Log>, es: seq<Event>, limits: RelayLimits, i: nat)
    requires Run(r, ls, es) && i < |ls|
    requires forall j :: 0 <= j < |es| && es[j].Push? ==> es[j].limits == limits
    ensures Within(ls[i], limits)
  {
    if i > 0 {
      QuotasHold(r, ls, es, limits, i - 1);
      RunIsLax(r, ls, es);
      RunWellFormed(r, ls, es, i - 1);
      StepWithin(r, ls[i - 1], es[i - 1], ls[i], limits);
    }
  }

  // ---- deadlines ----

  ghost predicate DeadlineOrdered(q: map<u64, QueueMessage>) {
    forall s, t :: s in q && t in q && s <= t ==> q[s].deadlineMs <= q[t].deadlineMs
  }

  ghost predicate DueBy(q: map<u64, QueueMessage>, deadline: u64) {
    forall s :: s in q ==> q[s].deadlineMs <= deadline
  }

  ghost predicate RisingDeadlines(es: seq<Event>) {
    forall a, b :: 0 <= a < b < |es| && es[a].Push? && es[b].Push? ==> es[a].msg.deadlineMs <= es[b].msg.deadlineMs
  }

  lemma StepDue(l: Log, e: Event, l': Log, d: u64)
    requires Evolves(l, e, l') && DueBy(l.q, d) && (e.Push? ==> e.msg.deadlineMs <= d)
    ensures DueBy(l'.q, d)
  {
  }

  lemma StepOrdered(r: Text, l: Log, e: Event, l': Log)
    requires WellFormed(r, l) && Evolves(l, e, l') && DeadlineOrdered(l.q)
    requires e.Push? ==> DueBy(l.q, e.msg.deadlineMs)
    ensures DeadlineOrdered(l'.q)
  {
  }

  lemma {:induction false} DueByLaterPush(r: Text, ls: seq<Log>, es: seq<Event>, i: nat, b: nat)
    requires LaxRun(r, ls, es) && RisingDeadlines(es) && i <= b < |es| && es[b].Push?
    ensures DueBy(ls[i].q, es[b].msg.deadlineMs)
  {
    if i > 0 {
      DueByLaterPush(r, ls, es, i - 1, b);
      StepEvolves(r, ls[i - 1], es[i - 1], ls[i]);
      StepDue(ls[i - 1], es[i - 1], ls[i], es[b].msg.deadlineMs);
    }
  }

  /** Deadlines follow arrival order when pushes present nondecreasing deadlines. */
  lemma {:induction false} DeadlinesFollowArrival(r: Text, ls: seq<Log>, es: seq<Event>, i: nat)
    requires LaxRun(r, ls, es) && RisingDeadlines(es) && i < |ls|
    ensures DeadlineOrdered(ls[i].q)
  {
    if i > 0 {
      DeadlinesFollowArrival(r, ls, es, i - 1);
      RunWellFormed(r, ls, es, i - 1);
      StepEvolves(r, ls[i - 1], es[i - 1], ls[i]);
      if es[i - 1].Push? { DueByLaterPush(r, ls, es, i - 1, i - 1); }
      StepOrdered(r, ls[i - 1], es[i - 1], ls[i]);
    }
  }
}
