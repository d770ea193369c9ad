/** What the handlers let through to the store (src/server.rs). */
module Admission {
  import opened Machine
  import opened Text
  import opened Keys
  import opened Messages
  import opened Queue
  import opened Runs
  import MemPurge

  /** A push request. Whether a text is blank after trimming, and the length of the
      decoded payload (`None` when it is not base64), are inputs. */
  datatype PushRequest = PushRequest(
    recipient: Text, recipientBlank: bool, messageId: Uuid, ciphertext: Text, decodedLen: Option<u64>,
    meta: MessageMeta, kindBlank: bool)

  function Deadline(limits: RelayLimits, arrivalMs: u64): u64 {
    SatAdd(arrivalMs, SatMul(limits.messageTtlSeconds, 1000))
  }

  function BuildInbound(body: PushRequest, limits: RelayLimits, arrivalMs: u64): Result<InboundMessage> {
    if body.recipientBlank then Err(InvalidInput("recipient required"))
    else if body.meta.chunkCount == 0 then Err(InvalidInput("chunk_count must be positive"))
    else if body.meta.chunkIndex >= body.meta.chunkCount then Err(InvalidInput("chunk_index out of range"))
    else if body.kindBlank then Err(InvalidInput("kind required"))
    else
      match body.decodedLen
      case None => Err(InvalidInput("invalid base64"))
      case Some(n) =>
        if n > limits.maxMessageBytes then Err(InvalidInput("message too large"))
        else Ok(InboundMessage(body.recipient, body.messageId, body.ciphertext, body.meta, n, arrivalMs,
                               Deadline(limits, arrivalMs)))
  }

  /** `pull`'s batch size: the request's, or the configured one, never more than that. */
  function BatchSize(max: Option<u64>, limits: RelayLimits): Result<u64> {
    var asked := match max case None => limits.pullBatchMax case Some(n) => n;
    if asked == 0 then Err(InvalidInput("max must be positive")) else Ok(Min(asked, limits.pullBatchMax))
  }

  /** Under a validated configuration the store never sees a page size of zero, and
      never one above the configured maximum. */
  lemma BatchSizeRange(max: Option<u64>, limits: RelayLimits)
    requires limits.pullBatchMax > 0
    ensures BatchSize(max, limits).Ok? <==> max != Some(0)
    ensures BatchSize(max, limits).Err? ==> BatchSize(max, limits).error == InvalidInput("max must be positive")
    ensures BatchSize(max, limits).Ok? ==> 0 < BatchSize(max, limits).value <= limits.pullBatchMax
    ensures max.Some? && 0 < max.value <= limits.pullBatchMax ==> BatchSize(max, limits) == Ok(max.value)
    ensures max == None || max.value > limits.pullBatchMax ==> BatchSize(max, limits) == Ok(limits.pullBatchMax)
  {
  }

  /** Under fixed limits a later arrival never gets an earlier deadline, even when
      the time-to-live or the sum saturates. */
  lemma LaterArrivalLaterDeadline(limits: RelayLimits, a: u64, b: u64)
    requires a <= b
    ensures Deadline(limits, a) <= Deadline(limits, b)
  {
  }

  /** A request is let through exactly when it names a recipient and a kind, its chunk
      index is below a positive chunk count, and its payload decodes to no more than the
      maximum; and then everything in it is passed on. */
  lemma AdmittedExactly(body: PushRequest, limits: RelayLimits, arrivalMs: u64)
    ensures var res := BuildInbound(body, limits, arrivalMs);
            && (res.Ok? <==>
                  !body.recipientBlank && !body.kindBlank && body.meta.chunkIndex < body.meta.chunkCount &&
                  body.decodedLen.Some? && body.decodedLen.value <= limits.maxMessageBytes)
            && (res.Ok? ==>
                  && res.value.recipient == body.recipient && res.value.messageId == body.messageId
                  && res.value.ciphertext == body.ciphertext && res.value.meta == body.meta
                  && res.value.payloadBytes == body.decodedLen.value && res.value.arrivalMs == arrivalMs)
  {
  }

  /** Which complaint comes first when several apply. */
  lemma FirstComplaint(body: PushRequest, limits: RelayLimits, arrivalMs: u64)
    ensures var res := BuildInbound(body, limits, arrivalMs); var meta := body.meta;
            && (res == Err(InvalidInput("recipient required")) <==> body.recipientBlank)
            && (res == Err(InvalidInput("chunk_count must be positive")) <==> !body.recipientBlank && meta.chunkCount == 0)
            && (res == Err(InvalidInput("chunk_index out of range")) <==>
                  !body.recipientBlank && 0 < meta.chunkCount <= meta.chunkIndex)
            && (res == Err(InvalidInput("kind required")) <==>
                  !body.recipientBlank && meta.chunkIndex < meta.chunkCount && body.kindBlank)
            && (res == Err(InvalidInput("invalid base64")) <==>
                  !body.recipientBlank && meta.chunkIndex < meta.chunkCount && !body.kindBlank && body.decodedLen == None)
  {
    DistinctComplaints();
  }

  lemma DistinctComplaints()
    ensures |"recipient required"| == 18 && |"chunk_count must be positive"| == 28 && |"chunk_index out of range"| == 24
    ensures |"kind required"| == 13 && |"invalid base64"| == 14 && |"message too large"| == 17
  {
  }

  /** The moment an admitted message expires: its arrival plus the time to live in
      milliseconds, or the last moment there is when that does not fit. */
  lemma DeadlineExactly(body: PushRequest, limits: RelayLimits, arrivalMs: u64)
    requires BuildInbound(body, limits, arrivalMs).Ok?
    ensures var due := arrivalMs + 1000 * limits.messageTtlSeconds;
            BuildInbound(body, limits, arrivalMs).value.deadlineMs == if due <= 0xFFFF_FFFF_FFFF_FFFF then due else 0xFFFF_FFFF_FFFF_FFFF
  {
  }

  /** Every push of the run was admitted under `limits`, at nondecreasing times. */
  ghost predicate Admitted(es: seq<Event>, limits: RelayLimits) {
    && (forall i :: 0 <= i < |es| && es[i].Push? ==>
          exists body :: BuildInbound(body, limits, es[i].msg.arrivalMs) == Ok(es[i].msg))
    && (forall i, j :: 0 <= i < j < |es| && es[i].Push? && es[j].Push? ==> es[i].msg.arrivalMs <= es[j].msg.arrivalMs)
  }

  lemma AdmittedDeadlines(es: seq<Event>, limits: RelayLimits)
    requires Admitted(es, limits)
    ensures RisingDeadlines(es)
  {
    forall i | 0 <= i < |es| && es[i].Push? ensures es[i].msg.deadlineMs == Deadline(limits, es[i].msg.arrivalMs) {
      var body :| BuildInbound(body, limits, es[i].msg.arrivalMs) == Ok(es[i].msg);
    }
    forall a, b | 0 <= a < b < |es| && es[a].Push? && es[b].Push? ensures es[a].msg.deadlineMs <= es[b].msg.deadlineMs {
      LaterArrivalLaterDeadline(limits, es[a].msg.arrivalMs, es[b].msg.arrivalMs);
    }
  }

  /** So in every queue that such a run can reach, at every moment, the expired
      messages come first: the memory store's early stop loses nothing. */
  lemma AdmittedExpiresInOrder(r: Text, ls: seq<Log>, es: seq<Event>, limits: RelayLimits, i: nat, now: u64)
    requires LaxRun(r, ls, es) && Admitted(es, limits) && i < |ls|
    ensures MemPurge.ExpiredFirst(ls[i].q, now)
  {
    AdmittedDeadlines(es, limits);
    DeadlinesFollowArrival(r, ls, es, i);
    MemPurge.OrderedIsExpiredFirst(ls[i].q);
  }

  /** And every message such a run has queued is live exactly until its arrival plus the
      time to live. */
  lemma AdmittedLifetime(r: Text, ls: seq<Log>, es: seq<Event>, limits: RelayLimits, i: nat, k: u64, now: u64)
    requires LaxRun(r, ls, es) && Admitted(es, limits) && i < |ls| && k in ls[i].q
    ensures var m := ls[i].q[k];
            m.deadlineMs == Min(m.arrivalMs + 1000 * limits.messageTtlSeconds, 0xFFFF_FFFF_FFFF_FFFF)
    ensures k in LiveKeys(ls[i].q, 0, now) <==>
            now < ls[i].q[k].arrivalMs + 1000 * limits.messageTtlSeconds && now < 0xFFFF_FFFF_FFFF_FFFF
  {
    hide LaxRun, StoredCount;
    QueuedIsPushed(r, ls, es, i, k);
    var h :| 0 <= h < |es| && Wrote(es, h, ls[i].q[k]);
    var body :| BuildInbound(body, limits, es[h].msg.arrivalMs) == Ok(es[h].msg);
    DeadlineExactly(body, limits, es[h].msg.arrivalMs);
  }
}
