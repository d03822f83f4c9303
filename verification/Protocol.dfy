/** The orchestrator's tables and handlers as functions on a database value (src/orchestrator/app.py).

    A call is one handler invocation. The `...Body` functions are the parts that run under the write lock;
    they take the worker row that the handler read before it, so that the finer grain, in which that row may
    be out of date, runs the same code. `grants` is the history of leases: the `assigned` events. */
module Protocol {
  import opened Base
  import opened Contracts
  import opened Scheduler

  const LEASE: Time := 20_000_000
  const GRACE: Time := 1_500_000
  const LIVE_WINDOW: Time := 3_000_000
  const LOAD_MARGIN := 15.0
  const MAX_OUTPUT_BYTES := 8_388_608

  datatype JobState = Queued | Leased | Completed | Failed

  datatype Job = Job(
    manifest: Manifest, input: Payload, units: int, workload: Option<string>, createdAt: Time,
    state: JobState, holder: Option<WorkerId>, deadline: Option<Time>, result: Option<Output>, attempts: nat)

  datatype Worker = Worker(
    token: string, cap: Capability, freeRam: Option<real>, cpuPct: Option<real>, gpuPct: Option<real>,
    approved: bool, blacklisted: bool, tier: string, pinned: bool, lastHeartbeat: Option<Time>, cert: Option<string>)

  /** Whether device binding is on, and the fingerprint of the verified client certificate, if one was presented. */
  datatype Device = Device(bind: bool, presented: Option<string>)

  datatype Credential = Credential(token: string, device: Device)

  datatype LedgerRow = LedgerRow(worker: WorkerId, job: JobId, credits: int)

  /** A lease granted: to whom, with the row and the tier the decision used. */
  datatype Grant = Grant(worker: WorkerId, row: Worker, tier: string, job: JobId)

  type Workers = map<WorkerId, Worker>
  type Jobs = map<JobId, Job>

  datatype Db = Db(workers: Workers, jobs: Jobs, ledger: seq<LedgerRow>, grants: seq<Grant>)

  const EMPTY_DB := Db(map[], map[], [], [])

  datatype Status = DoneStatus | FailedStatus | YieldedStatus

  datatype Call =
    | Register(w: WorkerId, cap: Capability, token: string, gated: bool, device: Device, now: Time)
    | Attest(w: WorkerId, tier: string)
    | Submit(job: JobId, manifest: Manifest, input: Payload, units: int, workload: Option<string>, now: Time)
    | Poll(w: WorkerId, cred: Credential, reapAt: Time, deferAt: Time, leaseAt: Time, now: Time)
    | Heartbeat(w: WorkerId, cred: Credential, cpuPct: real, gpuPct: Option<real>, freeRam: Option<real>,
                current: Option<JobId>, now: Time, leaseAt: Time)
    | Approve(w: WorkerId)
    | SetTier(w: WorkerId, tier: string)
    | Disconnect(w: WorkerId)
    | PostResult(w: WorkerId, cred: Credential, job: JobId, status: Status, output: Output,
                 bytes: nat, proofOk: bool, now: Time)

  datatype Response =
    | Unauthorized | Forbidden | NotFound | Conflict | BadRequest | ServerError
    | Registered(approved: bool) | Submitted(job: JobId) | NoJob | Assigned(job: JobId)
    | Ack(approved: bool) | Done | Credited(credits: int) | Rejected(reason: string)

  // ---------------------------------------------------------------- single-row and set-wise updates

  function Requeued(j: Job): Job {
    j.(state := Queued, holder := None, deadline := None)
  }

  /** `UPDATE jobs SET state = 'queued', ... WHERE` the job is one of `hit`. */
  function Requeue(jobs: Jobs, hit: set<JobId>): Jobs {
    map id | id in jobs :: if id in hit then Requeued(jobs[id]) else jobs[id]
  }

  function ExpiredBefore(jobs: Jobs, now: Time): set<JobId> {
    set id | id in jobs && jobs[id].state == Leased && jobs[id].deadline.Some? && jobs[id].deadline.value < now
  }

  function HeldBy(jobs: Jobs, w: WorkerId): set<JobId> {
    set id | id in jobs && jobs[id].state == Leased && jobs[id].holder == Some(w)
  }

  function ReapExpired(db: Db, now: Time): Db {
    db.(jobs := Requeue(db.jobs, ExpiredBefore(db.jobs, now)))
  }

  function RequeueOne(db: Db, id: JobId): Db {
    db.(jobs := Requeue(db.jobs, {id}))
  }

  // ---------------------------------------------------------------- scheduling

  /** The order of `ORDER BY created_at ASC, job_id ASC`. */
  predicate Older(jobs: Jobs, a: JobId, b: JobId)
    requires a in jobs && b in jobs
  {
    jobs[a].createdAt < jobs[b].createdAt || (jobs[a].createdAt == jobs[b].createdAt && a < b)
  }

  /** The server-assigned tier in the table now; an absent or empty one is the lowest. */
  function TierOf(db: Db, w: WorkerId): string {
    if w in db.workers && db.workers[w].tier != "" then db.workers[w].tier else DEFAULT_TRUST_TIER
  }

  predicate Fits(j: Job, row: Worker, tier: string) {
    CapabilityMatch(j.manifest.requirements, row.cap, row.freeRam) && MayRoute(j.manifest.classification, tier)
  }

  function Eligible(db: Db, w: WorkerId, row: Worker): set<JobId> {
    set id | id in db.jobs && db.jobs[id].state == Queued && Fits(db.jobs[id], row, TierOf(db, w))
  }

  ghost predicate IsOldest(jobs: Jobs, ids: set<JobId>, id: JobId) {
    id in ids && forall k :: k in ids && k in jobs && id in jobs && k != id ==> Older(jobs, id, k)
  }

  lemma {:induction false} OldestExists(jobs: Jobs, ids: set<JobId>)
    requires ids != {} && ids <= jobs.Keys
    ensures exists id :: IsOldest(jobs, ids, id)
    decreases ids
  {
    var x :| x in ids;
    var rest := ids - {x};
    if rest == {} {
      assert ids == {x};
      assert IsOldest(jobs, ids, x);
    } else {
      OldestExists(jobs, rest);
      var y :| IsOldest(jobs, rest, y);
      var z := if Older(jobs, x, y) then x else y;
      forall k | k in ids && k != z
        ensures Older(jobs, z, k)
      {
        if k != x && k != y {
          assert Older(jobs, y, k);
        }
      }
      assert IsOldest(jobs, ids, z);
    }
  }

  ghost function Oldest(jobs: Jobs, ids: set<JobId>): (id: JobId)
    requires ids != {} && ids <= jobs.Keys
    ensures IsOldest(jobs, ids, id)
  {
    OldestExists(jobs, ids);
    var id :| IsOldest(jobs, ids, id);
    id
  }

  lemma OldestIsUnique(jobs: Jobs, ids: set<JobId>, a: JobId, b: JobId)
    requires ids <= jobs.Keys && IsOldest(jobs, ids, a) && IsOldest(jobs, ids, b)
    ensures a == b
  {
  }

  function Load(cpuPct: Option<real>, gpuPct: Option<real>): real {
    var c := match cpuPct case Some(x) => x case None => 0.0;
    var g := match gpuPct case Some(x) => x case None => 0.0;
    if c >= g then c else g
  }

  /** A live, free, approved peer clearly less loaded than `row`. */
  predicate LighterPeer(db: Db, w: WorkerId, row: Worker, p: WorkerId, now: Time)
    requires p in db.workers
  {
    var peer := db.workers[p];
    && p != w && peer.approved && !peer.blacklisted
    && peer.lastHeartbeat.Some? && peer.lastHeartbeat.value >= now - LIVE_WINDOW
    && HeldBy(db.jobs, p) == {}
    && Load(row.cpuPct, row.gpuPct) - Load(peer.cpuPct, peer.gpuPct) >= LOAD_MARGIN
  }

  predicate Defers(db: Db, w: WorkerId, createdAt: Time, now: Time) {
    && now - createdAt < GRACE
    && w in db.workers
    && exists p :: p in db.workers && LighterPeer(db, w, db.workers[w], p, now)
  }

  // ---------------------------------------------------------------- handlers

  /** The credit of a job: its units, five times over if the signed manifest requires a GPU. */
  function Charge(j: Job): int {
    j.units * if j.manifest.requirements.needsGpu then 5 else 1
  }

  function Registering(cap: Capability): Capability {
    if cap.measurementOnly then Capability(true, 1, 1.0, None, false, None, {}) else cap
  }

  /** With device binding on, a registration needs a certificate, and an existing row must be bound to that very one. */
  function RegisterRefusal(db: Db, w: WorkerId, device: Device): Option<Response> {
    if !device.bind then None
    else if device.presented.None? then Some(Unauthorized)
    else if w !in db.workers then None
    else if db.workers[w].cert.None? then Some(Conflict)
    else if db.workers[w].cert != device.presented then Some(Forbidden)
    else None
  }

  function RegisterBody(db: Db, c: Call): Db
    requires c.Register?
  {
    var cap := Registering(c.cap);
    var free := if cap.measurementOnly then None else if cap.freeRamGb.Some? then cap.freeRamGb else Some(cap.ramGb);
    var cert := if c.device.bind then c.device.presented else None;
    var row :=
      if c.w in db.workers then
        var old_ := db.workers[c.w];
        old_.(token := c.token, cap := cap, freeRam := free, approved := old_.approved || !c.gated,
              lastHeartbeat := Some(c.now), cert := if cert.Some? then cert else old_.cert)
      else Worker(c.token, cap, free, None, None, !c.gated, false, DEFAULT_TRUST_TIER, false, Some(c.now), cert);
    db.(workers := db.workers[c.w := row])
  }

  function SubmitBody(db: Db, c: Call): Db
    requires c.Submit?
  {
    db.(jobs := db.jobs[c.job := Job(c.manifest, c.input, c.units, c.workload, c.now, Queued, None, None, None, 0)])
  }

  ghost function PollBody(db: Db, w: WorkerId, row: Worker, deferAt: Time, leaseAt: Time, now: Time): (Db, Response) {
    if HeldBy(db.jobs, w) != {} || Eligible(db, w, row) == {} then (db, NoJob)
    else
      var id := Oldest(db.jobs, Eligible(db, w, row));
      if Defers(db, w, db.jobs[id].createdAt, deferAt) then (db, NoJob)
      else (LeaseTo(db, w, row, id, leaseAt, now), Assigned(id))
  }

  function LeaseTo(db: Db, w: WorkerId, row: Worker, id: JobId, leaseAt: Time, now: Time): Db
    requires id in db.jobs
  {
    var j := db.jobs[id];
    Db(if w in db.workers then db.workers[w := db.workers[w].(lastHeartbeat := Some(now))] else db.workers,
       db.jobs[id := j.(state := Leased, holder := Some(w), deadline := Some(leaseAt + LEASE),
                        attempts := j.attempts + 1)],
       db.ledger, db.grants + [Grant(w, row, TierOf(db, w), id)])
  }

  function Usage(row: Worker, cap: Capability, c: Call): Worker
    requires c.Heartbeat?
  {
    if cap.measurementOnly then row.(cpuPct := Some(0.0), gpuPct := None, freeRam := None, lastHeartbeat := Some(c.now))
    else row.(cpuPct := Some(c.cpuPct), gpuPct := c.gpuPct,
              freeRam := if c.freeRam.Some? then c.freeRam else row.freeRam, lastHeartbeat := Some(c.now))
  }

  predicate Holds(jobs: Jobs, w: WorkerId, id: JobId) {
    id in jobs && jobs[id].state == Leased && jobs[id].holder == Some(w) && jobs[id].deadline.Some?
  }

  function Extend(db: Db, id: JobId, leaseAt: Time): Db
    requires id in db.jobs
  {
    db.(jobs := db.jobs[id := db.jobs[id].(deadline := Some(leaseAt + LEASE))])
  }

  function HeartbeatBody(db: Db, cap: Capability, c: Call): Db
    requires c.Heartbeat?
  {
    var db1 := if c.w in db.workers then db.(workers := db.workers[c.w := Usage(db.workers[c.w], cap, c)]) else db;
    if cap.measurementOnly || c.current.None? || !Holds(db1.jobs, c.w, c.current.value) then db1
    else if db1.jobs[c.current.value].deadline.value <= c.now then RequeueOne(db1, c.current.value)
    else Extend(db1, c.current.value, c.leaseAt)
  }

  function CompleteJob(db: Db, w: WorkerId, id: JobId, output: Output): Db
    requires id in db.jobs
  {
    var j := db.jobs[id];
    db.(jobs := db.jobs[id := j.(state := Completed, result := Some(output), deadline := None)],
        ledger := db.ledger + [LedgerRow(w, id, Charge(j))])
  }

  function Blacklist(db: Db, w: WorkerId): Db {
    if w in db.workers then db.(workers := db.workers[w := db.workers[w].(blacklisted := true)]) else db
  }

  datatype Verdict = Correct | Wrong | Raises

  /** The integrity challenge: y must be the integer x*x + 1; an input without a number raises. */
  function ChallengeVerdict(input: Payload, output: Output): Verdict {
    match input
    case Challenge(IntNumber(n)) => if output == Answer(Some(n * n + 1)) then Correct else Wrong
    case Challenge(FloatNumber) => Wrong
    case _ => Raises
  }

  function ResultBody(db: Db, c: Call): (Db, Response)
    requires c.PostResult?
  {
    if c.job !in db.jobs then (db, NotFound)
    else
      var j := db.jobs[c.job];
      if j.state != Leased || j.holder != Some(c.w) then (db, Rejected("not_leased"))
      else if j.deadline.None? || j.deadline.value <= c.now then (RequeueOne(db, c.job), Rejected("lease_expired"))
      else if c.bytes > MAX_OUTPUT_BYTES then (db, Rejected("payload_too_large"))
      else match c.status
        case FailedStatus => (RequeueOne(db, c.job), Rejected("failed"))
        case YieldedStatus => (RequeueOne(db, c.job), Rejected("yielded"))
        case DoneStatus =>
          if !c.proofOk then (RequeueOne(db, c.job), Rejected("invalid_proof"))
          else if j.manifest.kind == "challenge" && ChallengeVerdict(j.input, c.output) == Raises then (db, ServerError)
          else if j.manifest.kind == "challenge" && ChallengeVerdict(j.input, c.output) == Wrong then
            (RequeueOne(Blacklist(db, c.w), c.job), Rejected("cheater_blacklisted"))
          else (CompleteJob(db, c.w, c.job, c.output), Credited(Charge(j)))
  }

  function DisconnectBody(db: Db, w: WorkerId): Db {
    db.(jobs := Requeue(db.jobs, HeldBy(db.jobs, w)), workers := db.workers - {w})
  }

  /** The bearer token is the row's, and so is the certificate, if binding is on and the row has one. */
  predicate Authorized(db: Db, w: WorkerId, cred: Credential) {
    && w in db.workers && cred.token != "" && db.workers[w].token == cred.token
    && (cred.device.bind && db.workers[w].cert.Some? ==> cred.device.presented == db.workers[w].cert)
  }

  /** One handler invocation as one atomic step. */
  ghost function Step(db: Db, c: Call): (Db, Response) {
    match c
    case Register(w, _, _, _, device, _) =>
      var refusal := RegisterRefusal(db, w, device);
      if refusal.Some? then (db, refusal.value)
      else var d := RegisterBody(db, c); (d, Registered(d.workers[w].approved))
    case Attest(w, tier) =>
      if w in db.workers && !db.workers[w].pinned
      then (db.(workers := db.workers[w := db.workers[w].(tier := tier)]), Done) else (db, Done)
    case Submit(job, _, _, units, _, _) => if units <= 0 then (db, BadRequest) else (SubmitBody(db, c), Submitted(job))
    case Poll(w, cred, reapAt, deferAt, leaseAt, now) =>
      if !Authorized(db, w, cred) then (db, Unauthorized)
      else
        var row := db.workers[w];
        if row.blacklisted || !row.approved then (db, NoJob)
        else if row.cap.measurementOnly then (ReapExpired(db, reapAt), NoJob)
        else PollBody(ReapExpired(db, reapAt), w, row, deferAt, leaseAt, now)
    case Heartbeat(w, cred, _, _, _, _, _, _) =>
      if !Authorized(db, w, cred) then (db, Unauthorized)
      else (HeartbeatBody(db, db.workers[w].cap, c), Ack(db.workers[w].approved))
    case Approve(w) =>
      if w !in db.workers then (db, NotFound)
      else (db.(workers := db.workers[w := db.workers[w].(approved := true)]), Done)
    case SetTier(w, tier) =>
      if w !in db.workers then (db, NotFound)
      else if tier !in TIERS then (db, BadRequest)
      else (db.(workers := db.workers[w := db.workers[w].(tier := tier, pinned := true)]), Done)
    case Disconnect(w) => if w !in db.workers then (db, NotFound) else (DisconnectBody(db, w), Done)
    case PostResult(w, cred, _, _, _, _, _, _) =>
      if !Authorized(db, w, cred) then (db, Unauthorized)
      else if db.workers[w].blacklisted then (db, Rejected("blacklisted"))
      else ResultBody(db, c)
  }

  /** Job ids are fresh UUIDs, and so are tokens, which are therefore not empty. */
  predicate WellFormed(db: Db, c: Call) {
    (c.Submit? ==> c.job !in db.jobs) && (c.Register? ==> c.token != "")
  }

  /** The finer grain: a handler's read of the worker row and its locked body are separate steps, so a body
      may run with any row, also one that has changed or been deleted since. */
  datatype FineCall =
    | Whole(call: Call)
    | Reap(now: Time)
    | LockedPoll(w: WorkerId, row: Worker, deferAt: Time, leaseAt: Time, at: Time)
    | LockedHeartbeat(cap: Capability, beat: Call)
    | LockedResult(post: Call)
    | LockedApprove(w: WorkerId)
    | LockedDisconnect(w: WorkerId)

  predicate FineWellFormed(db: Db, f: FineCall) {
    match f
    case Whole(c) => WellFormed(db, c)
    case LockedHeartbeat(_, c) => c.Heartbeat?
    case LockedResult(c) => c.PostResult?
    case _ => true
  }

  ghost function FineStep(db: Db, f: FineCall): Db
    requires FineWellFormed(db, f)
  {
    match f
    case Whole(c) => Step(db, c).0
    case Reap(now) => ReapExpired(db, now)
    case LockedPoll(w, row, deferAt, leaseAt, at) => PollBody(db, w, row, deferAt, leaseAt, at).0
    case LockedHeartbeat(cap, c) => HeartbeatBody(db, cap, c)
    case LockedResult(c) => ResultBody(db, c).0
    case LockedApprove(w) =>
      if w in db.workers then db.(workers := db.workers[w := db.workers[w].(approved := true)]) else db
    case LockedDisconnect(w) => DisconnectBody(db, w)
  }
}
