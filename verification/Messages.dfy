/** The records that cross the store interface (src/store.rs, src/model.rs). */
module Messages {
  import opened Machine
  import opened Text
  import opened Keys
  import opened Cursor

  datatype MessageMeta = MessageMeta(kind: Text, totalLen: u64, chunkIndex: u32, chunkCount: u32, sentMs: u64)

  datatype InboundMessage = InboundMessage(
    recipient: Text, messageId: Uuid, ciphertext: Text, meta: MessageMeta,
    payloadBytes: u64, arrivalMs: u64, deadlineMs: u64)

  datatype QueueMessage = QueueMessage(
    recipient: Text, messageId: Uuid, ciphertext: Text, meta: MessageMeta,
    arrivalMs: u64, deadlineMs: u64, payloadBytes: u64, arrivalSeq: u64)

  datatype RelayLimits = RelayLimits(
    maxMessageBytes: u64, maxQueueBytesPerUser: u64, maxMessagesPerUser: u64, messageTtlSeconds: u64,
    gcIntervalSeconds: u64, pullBatchMax: u64)

  datatype PushResult = PushResult(stored: bool, duplicate: bool, queueLen: u64, queueBytes: u64)

  datatype PullBatch = PullBatch(items: seq<QueueMessage>, nextCursor: Option<Cursor>, remainingEstimate: u64)

  datatype AckOutcome = AckOutcome(deleted: u64, missing: u64, remaining: u64)

  /** What an acknowledgement names, and what makes a push a duplicate. */
  datatype AckItem = AckItem(messageId: Uuid, chunkIndex: u32)

  function ItemOf(m: QueueMessage): AckItem {
    AckItem(m.messageId, m.meta.chunkIndex)
  }

  function InboundItem(m: InboundMessage): AckItem {
    AckItem(m.messageId, m.meta.chunkIndex)
  }

  function Stored(m: InboundMessage, s: u64): QueueMessage {
    QueueMessage(m.recipient, m.messageId, m.ciphertext, m.meta, m.arrivalMs, m.deadlineMs, m.payloadBytes, s)
  }

  /** Field by field, `q` is the message pushed as `m`, under number `s`. */
  predicate Copies(q: QueueMessage, m: InboundMessage, s: u64) {
    && q.recipient == m.recipient && q.messageId == m.messageId && q.ciphertext == m.ciphertext
    && q.meta.kind == m.meta.kind && q.meta.totalLen == m.meta.totalLen && q.meta.sentMs == m.meta.sentMs
    && q.meta.chunkIndex == m.meta.chunkIndex && q.meta.chunkCount == m.meta.chunkCount
    && q.arrivalMs == m.arrivalMs && q.deadlineMs == m.deadlineMs && q.payloadBytes == m.payloadBytes
    && q.arrivalSeq == s
  }

  predicate Expired(m: QueueMessage, now: u64) {
    m.deadlineMs <= now
  }
}
