/** The durable job ledger of the embedding worker: one advisory record per job, and when a write is accepted. */
module JobLedger {
  import opened Options
  import opened Machine

  const PROTOCOL_VERSION: u32 := 2

  type Recipe = nat

  datatype JobState = Pending | Running | Completed | Failed | Cancelled

  /** One job's record. The identifier is the ledger's key and the timestamp is not modelled. */
  datatype JobRecord = JobRecord(
    protocolVersion: u32,
    recipe: Recipe,
    nextBatch: u64,
    totalBatches: u64,
    retries: u32,
    maxRetries: u32,
    state: JobState)

  predicate WellFormed(job: JobRecord) {
    && job.nextBatch <= job.totalBatches
    && job.retries <= job.maxRetries
    && (job.state == Completed ==> job.nextBatch == job.totalBatches)
  }

  /** Whether the ledger takes a record over what it holds: same identity, and neither a duplicate nor a gap. */
  predicate Accepts(existing: Option<JobRecord>, job: JobRecord) {
    && WellFormed(job)
    && (existing.Some? ==>
          && existing.value.protocolVersion == job.protocolVersion
          && existing.value.recipe == job.recipe
          && existing.value.nextBatch <= job.nextBatch <= SatAdd(existing.value.nextBatch, 1))
  }

  /** The failed attempts a record stands for: those counted, and one more if it was left running. */
  function Spent(ledger: Option<JobRecord>): u32 {
    match ledger
    case None => 0
    case Some(r) => if r.state == Running && r.retries < U32_MAX then r.retries + 1 else r.retries
  }

  predicate Compatible(r: JobRecord, recipe: Recipe) {
    r.protocolVersion == PROTOCOL_VERSION && r.recipe == recipe
  }
}
