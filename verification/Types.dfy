/**
  The rows of the four tables the delivery protocol works on, and the copies of
  a job that a node keeps in memory.
 */
module Types {

  type JobId = nat
  type MessageId = nat
  type ConsumerId = nat
  type Time = int

  datatype Option<+T> = None | Some(value: T)

  /** `Parked` is virtual: it marks a job read from `job_parking` and is never stored in `job`. */
  datatype JobStatus = Queued | Inflight | Delivered | Dead | Parked

  datatype MessageStatus = Acknowledged | Dispatched

  /** A pause row covers one consumer or the whole broker. */
  datatype Scope = Global | Consumer(consumer: ConsumerId)

  datatype MessageRow = MessageRow(status: MessageStatus, createdAt: Time, outboxedAt: Time)

  datatype JobRow = JobRow(
    message: MessageId,
    consumer: ConsumerId,
    status: JobStatus,
    retries: nat,
    dispatchReceivedAt: Time,
    statusChangedAt: Time,
    earliestNextAttemptAt: Time,
    createdAt: Time,
    updatedAt: Time,
    priority: nat,
    incrementalTimeout: nat)

  datatype ParkedRow = ParkedRow(
    id: JobId,
    message: MessageId,
    consumer: ConsumerId,
    dispatchReceivedAt: Time,
    retries: nat,
    earliestNextAttemptAt: Time,
    priority: nat,
    incrementalTimeout: nat,
    createdAt: Time,
    parkedAt: Time)

  /** The database: `parked` is keyed by its auto-increment `seq`, which is never reused. */
  datatype Db = Db(
    messages: map<MessageId, MessageRow>,
    jobs: map<JobId, JobRow>,
    parked: map<nat, ParkedRow>,
    pauses: set<Scope>,
    nextSeq: nat)

  /** A job as a row of the `job` table together with its primary key. */
  datatype JobEntry = JobEntry(id: JobId, row: JobRow)

  /** A job as a row of the `job_parking` table together with its primary key. */
  datatype ParkedEntry = ParkedEntry(seqNo: nat, row: ParkedRow)

  /** What the broker reads from its configuration and from the consumer table. */
  datatype Config = Config(maxRetry: nat, pull: set<ConsumerId>, backoffs: seq<nat>, rationalDelay: nat, stopTimeout: nat, lease: nat)
}
