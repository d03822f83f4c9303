/** Lease exclusivity, job shape and the ledger, kept by every step of the finer grain. */
module Lease {
  import opened Base
  import opened Contracts
  import opened Protocol

  /** What a job row looks like in each state; `failed` is never reached. */
  ghost predicate Shaped(j: Job) {
    && j.units > 0
    && match j.state
       case Queued => j.holder.None? && j.deadline.None? && j.result.None?
       case Leased => j.holder.Some? && j.deadline.Some? && j.result.None?
       case Completed => j.holder.Some? && j.deadline.None? && j.result.Some?
       case Failed => false
  }

  ghost predicate AllShaped(jobs: Jobs) {
    forall id :: id in jobs ==> Shaped(jobs[id])
  }

  ghost predicate SameHolder(j: Job, k: Job) {
    j.state == Leased && k.state == Leased && j.holder == k.holder
  }

  /** No worker holds two leases. */
  ghost predicate Exclusive(jobs: Jobs) {
    forall a, b :: a in jobs && b in jobs && SameHolder(jobs[a], jobs[b]) ==> a == b
  }

  /** The row pays a completed job's holder exactly the job's charge. */
  ghost predicate Pays(jobs: Jobs, row: LedgerRow) {
    row.job in jobs && jobs[row.job].state == Completed
    && jobs[row.job].holder == Some(row.worker) && row.credits == Charge(jobs[row.job])
  }

  /** Exactly one row for each completed job, and none for any other. */
  ghost predicate Balanced(jobs: Jobs, ledger: seq<LedgerRow>) {
    && (forall i :: 0 <= i < |ledger| ==> Pays(jobs, ledger[i]))
    && (forall i, k :: 0 <= i < k < |ledger| ==> ledger[i].job != ledger[k].job)
    && (forall id :: id in jobs && jobs[id].state == Completed ==> exists i :: 0 <= i < |ledger| && ledger[i].job == id)
  }

  /** Every holder was granted the job, and `attempts` counts the grants. */
  function GrantsOf(grants: seq<Grant>, id: JobId): nat {
    if grants == [] then 0
    else GrantsOf(grants[..|grants| - 1], id) + if grants[|grants| - 1].job == id then 1 else 0
  }

  ghost predicate WasGranted(grants: seq<Grant>, w: WorkerId, id: JobId) {
    exists i :: 0 <= i < |grants| && grants[i].worker == w && grants[i].job == id
  }

  ghost predicate Granted(jobs: Jobs, grants: seq<Grant>) {
    && (forall i :: 0 <= i < |grants| ==> grants[i].job in jobs)
    && (forall id :: id in jobs ==> jobs[id].attempts == GrantsOf(grants, id))
    && (forall id :: id in jobs && jobs[id].holder.Some? ==> WasGranted(grants, jobs[id].holder.value, id))
  }

  ghost predicate Inv(db: Db) {
    AllShaped(db.jobs) && Exclusive(db.jobs) && Balanced(db.jobs, db.ledger) && Granted(db.jobs, db.grants)
  }

  /** What never changes once it is there. */
  ghost predicate SameSubmission(j: Job, k: Job) {
    j.manifest == k.manifest && j.input == k.input && j.units == k.units
    && j.workload == k.workload && j.createdAt == k.createdAt
  }

  /** How one step may change the tables: submissions are immutable, completion is final, the ledger and the
      history only grow. */
  ghost predicate Evolves(db: Db, next: Db) {
    && (forall id :: id in db.jobs ==>
          && id in next.jobs && SameSubmission(db.jobs[id], next.jobs[id])
          && (db.jobs[id].state == Completed ==> next.jobs[id] == db.jobs[id]))
    && db.ledger <= next.ledger && db.grants <= next.grants
  }

  lemma EvolvesTransitive(a: Db, b: Db, c: Db)
    requires Evolves(a, b) && Evolves(b, c)
    ensures Evolves(a, c)
  {
  }

  // ---------------------------------------------------------------- the five kinds of change

  lemma SameTables(db: Db, next: Db)
    requires Inv(db) && next.jobs == db.jobs && next.ledger == db.ledger && next.grants == db.grants
    ensures Inv(next) && Evolves(db, next)
  {
  }

  lemma RequeueKeeps(db: Db, hit: set<JobId>, workers: Workers)
    requires Inv(db) && forall id :: id in hit && id in db.jobs ==> db.jobs[id].state == Leased
    ensures var next := db.(jobs := Requeue(db.jobs, hit), workers := workers);
            Inv(next) && Evolves(db, next)
  {
    var jobs := Requeue(db.jobs, hit);
    forall i | 0 <= i < |db.ledger|
      ensures Pays(jobs, db.ledger[i])
    {
      assert Pays(db.jobs, db.ledger[i]);
    }
  }

  lemma SubmitKeeps(db: Db, c: Call)
    requires Inv(db) && c.Submit? && c.units > 0 && c.job !in db.jobs
    ensures Inv(SubmitBody(db, c)) && Evolves(db, SubmitBody(db, c))
  {
    var next := SubmitBody(db, c);
    forall i | 0 <= i < |db.ledger|
      ensures Pays(next.jobs, db.ledger[i])
    {
      assert Pays(db.jobs, db.ledger[i]);
    }
    NeverGranted(db.grants, c.job);
  }

  lemma {:induction false} NeverGranted(grants: seq<Grant>, id: JobId)
    requires forall i :: 0 <= i < |grants| ==> grants[i].job != id
    ensures GrantsOf(grants, id) == 0
  {
    if grants != [] {
      NeverGranted(grants[..|grants| - 1], id);
    }
  }

  lemma LeaseKeeps(db: Db, w: WorkerId, row: Worker, id: JobId, leaseAt: Time, now: Time)
    requires Inv(db) && id in db.jobs && db.jobs[id].state == Queued && HeldBy(db.jobs, w) == {}
    ensures Inv(LeaseTo(db, w, row, id, leaseAt, now)) && Evolves(db, LeaseTo(db, w, row, id, leaseAt, now))
  {
    var next := LeaseTo(db, w, row, id, leaseAt, now);
    forall i | 0 <= i < |db.ledger|
      ensures Pays(next.jobs, db.ledger[i])
    {
      assert Pays(db.jobs, db.ledger[i]);
    }
    forall a | a in db.jobs && db.jobs[a].state == Leased
      ensures db.jobs[a].holder != Some(w)
    {
      assert db.jobs[a].holder == Some(w) ==> a in HeldBy(db.jobs, w);
    }
    assert next.grants[..|db.grants|] == db.grants;
    LeaseGranted(db, next, w, id);
  }

  lemma LeaseGranted(db: Db, next: Db, w: WorkerId, id: JobId)
    requires Granted(db.jobs, db.grants) && id in db.jobs
    requires |next.grants| == |db.grants| + 1 && next.grants[..|db.grants|] == db.grants
    requires next.grants[|db.grants|].job == id && next.grants[|db.grants|].worker == w
    requires next.jobs.Keys == db.jobs.Keys
    requires forall k :: k in db.jobs && k != id ==> next.jobs[k] == db.jobs[k]
    requires next.jobs[id].attempts == db.jobs[id].attempts + 1 && next.jobs[id].holder == Some(w)
    ensures Granted(next.jobs, next.grants)
  {
    forall i | 0 <= i < |next.grants|
      ensures next.grants[i].job in next.jobs
    {
      assert i < |db.grants| ==> next.grants[i] == db.grants[i];
    }
    forall k | k in next.jobs && next.jobs[k].holder.Some?
      ensures WasGranted(next.grants, next.jobs[k].holder.value, k)
    {
      if k == id {
        assert next.grants[|db.grants|].worker == w;
      } else {
        var i :| 0 <= i < |db.grants| && db.grants[i].worker == db.jobs[k].holder.value && db.grants[i].job == k;
        assert next.grants[i] == db.grants[i];
      }
    }
  }

  lemma ExtendKeeps(db: Db, id: JobId, leaseAt: Time)
    requires Inv(db) && id in db.jobs && db.jobs[id].state == Leased
    ensures Inv(Extend(db, id, leaseAt)) && Evolves(db, Extend(db, id, leaseAt))
  {
    var next := Extend(db, id, leaseAt);
    forall i | 0 <= i < |db.ledger|
      ensures Pays(next.jobs, db.ledger[i])
    {
      assert Pays(db.jobs, db.ledger[i]);
    }
  }

  lemma CompleteKeeps(db: Db, w: WorkerId, id: JobId, output: Output)
    requires Inv(db) && id in db.jobs && db.jobs[id].state == Leased && db.jobs[id].holder == Some(w)
    ensures Inv(CompleteJob(db, w, id, output)) && Evolves(db, CompleteJob(db, w, id, output))
  {
    var next := CompleteJob(db, w, id, output);
    assert Charge(next.jobs[id]) == Charge(db.jobs[id]);
    CompleteBalances(db, next, w, id);
  }

  lemma CompleteBalances(db: Db, next: Db, w: WorkerId, id: JobId)
    requires Balanced(db.jobs, db.ledger) && id in db.jobs && db.jobs[id].state == Leased
    requires next.jobs.Keys == db.jobs.Keys && forall k :: k in db.jobs && k != id ==> next.jobs[k] == db.jobs[k]
    requires next.jobs[id].state == Completed && next.jobs[id].holder == Some(w)
    requires next.ledger == db.ledger + [LedgerRow(w, id, Charge(next.jobs[id]))]
    ensures Balanced(next.jobs, next.ledger)
  {
    forall i | 0 <= i < |next.ledger|
      ensures Pays(next.jobs, next.ledger[i])
    {
      assert i < |db.ledger| ==> Pays(db.jobs, db.ledger[i]);
    }
    forall i, k | 0 <= i < k < |next.ledger|
      ensures next.ledger[i].job != next.ledger[k].job
    {
      assert Pays(db.jobs, db.ledger[i]);
    }
    forall k | k in next.jobs && next.jobs[k].state == Completed
      ensures exists i :: 0 <= i < |next.ledger| && next.ledger[i].job == k
    {
      if k == id {
        assert next.ledger[|db.ledger|].job == id;
      } else {
        var i :| 0 <= i < |db.ledger| && db.ledger[i].job == k;
        assert next.ledger[i].job == k;
      }
    }
  }

  // ---------------------------------------------------------------- the locked bodies, with any worker row

  lemma ReapKeeps(db: Db, now: Time)
    requires Inv(db)
    ensures Inv(ReapExpired(db, now)) && Evolves(db, ReapExpired(db, now))
  {
    RequeueKeeps(db, ExpiredBefore(db.jobs, now), db.workers);
  }

  lemma PollKeeps(db: Db, w: WorkerId, row: Worker, deferAt: Time, leaseAt: Time, now: Time)
    requires Inv(db)
    ensures Inv(PollBody(db, w, row, deferAt, leaseAt, now).0)
    ensures Evolves(db, PollBody(db, w, row, deferAt, leaseAt, now).0)
  {
    if HeldBy(db.jobs, w) == {} && Eligible(db, w, row) != {} {
      var id := Oldest(db.jobs, Eligible(db, w, row));
      LeaseKeeps(db, w, row, id, leaseAt, now);
    }
  }

  lemma HeartbeatKeeps(db: Db, cap: Capability, c: Call)
    requires Inv(db) && c.Heartbeat?
    ensures Inv(HeartbeatBody(db, cap, c)) && Evolves(db, HeartbeatBody(db, cap, c))
  {
    var db1 := if c.w in db.workers then db.(workers := db.workers[c.w := Usage(db.workers[c.w], cap, c)]) else db;
    SameTables(db, db1);
    if !cap.measurementOnly && c.current.Some? && Holds(db1.jobs, c.w, c.current.value) {
      if db1.jobs[c.current.value].deadline.value <= c.now {
        RequeueOneKeeps(db1, c.current.value);
      } else {
        ExtendKeeps(db1, c.current.value, c.leaseAt);
      }
      EvolvesTransitive(db, db1, HeartbeatBody(db, cap, c));
    }
  }

  lemma RequeueOneKeeps(db: Db, id: JobId)
    requires Inv(db) && id in db.jobs && db.jobs[id].state == Leased
    ensures Inv(RequeueOne(db, id)) && Evolves(db, RequeueOne(db, id))
  {
    RequeueKeeps(db, {id}, db.workers);
  }

  lemma ResultKeeps(db: Db, c: Call)
    requires Inv(db) && c.PostResult?
    ensures Inv(ResultBody(db, c).0) && Evolves(db, ResultBody(db, c).0)
  {
    var next := ResultBody(db, c).0;
    if next == db {
      SameTables(db, next);
    } else if next == RequeueOne(db, c.job) {
      RequeueOneKeeps(db, c.job);
    } else if next == RequeueOne(Blacklist(db, c.w), c.job) {
      RequeueKeeps(db, {c.job}, Blacklist(db, c.w).workers);
    } else {
      assert next == CompleteJob(db, c.w, c.job, c.output);
      CompleteKeeps(db, c.w, c.job, c.output);
    }
  }

  lemma DisconnectKeeps(db: Db, w: WorkerId)
    requires Inv(db)
    ensures Inv(DisconnectBody(db, w)) && Evolves(db, DisconnectBody(db, w))
  {
    RequeueKeeps(db, HeldBy(db.jobs, w), db.workers - {w});
  }

  /** An atomic poll does nothing, reaps only, or reaps and runs the locked part. */
  lemma PollOutcome(db: Db, c: Call)
    requires c.Poll?
    ensures var next, d := Step(db, c).0, ReapExpired(db, c.reapAt);
            || next == db || next == d
            || (c.w in db.workers && next == PollBody(d, c.w, db.workers[c.w], c.deferAt, c.leaseAt, c.now).0)
  {
  }

  lemma AtomicPollKeeps(db: Db, c: Call)
    requires Inv(db) && c.Poll?
    ensures Inv(Step(db, c).0) && Evolves(db, Step(db, c).0)
  {
    PollOutcome(db, c);
    ReapThenPollKeeps(db, c, Step(db, c).0);
  }

  lemma ReapThenPollKeeps(db: Db, c: Call, next: Db)
    requires Inv(db) && c.Poll?
    requires var d := ReapExpired(db, c.reapAt);
             || next == db || next == d
             || (c.w in db.workers && next == PollBody(d, c.w, db.workers[c.w], c.deferAt, c.leaseAt, c.now).0)
    ensures Inv(next) && Evolves(db, next)
  {
    var d := ReapExpired(db, c.reapAt);
    if next == db {
      SameTables(db, db);
    } else {
      ReapKeeps(db, c.reapAt);
      if next != d {
        PollKeeps(d, c.w, db.workers[c.w], c.deferAt, c.leaseAt, c.now);
        EvolvesTransitive(db, d, next);
      }
    }
  }

  lemma StepKeeps(db: Db, c: Call)
    requires Inv(db) && WellFormed(db, c)
    ensures Inv(Step(db, c).0) && Evolves(db, Step(db, c).0)
  {
    var next := Step(db, c).0;
    if next.jobs == db.jobs && next.ledger == db.ledger && next.grants == db.grants {
      SameTables(db, next);
    } else if c.Submit? {
      SubmitKeeps(db, c);
    } else if c.Poll? {
      AtomicPollKeeps(db, c);
    } else if c.Heartbeat? {
      HeartbeatKeeps(db, db.workers[c.w].cap, c);
    } else if c.Disconnect? {
      DisconnectKeeps(db, c.w);
    } else {
      ResultKeeps(db, c);
    }
  }

  /** Every step of the finer grain keeps the invariant and only evolves the tables. */
  lemma FineStepKeeps(db: Db, f: FineCall)
    requires Inv(db) && FineWellFormed(db, f)
    ensures Inv(FineStep(db, f)) && Evolves(db, FineStep(db, f))
  {
    match f {
      case Whole(c) => StepKeeps(db, c);
      case Reap(now) => ReapKeeps(db, now);
      case LockedPoll(w, row, deferAt, leaseAt, at) => PollKeeps(db, w, row, deferAt, leaseAt, at);
      case LockedHeartbeat(cap, c) => HeartbeatKeeps(db, cap, c);
      case LockedResult(c) => ResultKeeps(db, c);
      case LockedApprove(w) => SameTables(db, FineStep(db, f));
      case LockedDisconnect(w) => DisconnectKeeps(db, w);
    }
  }

  /** What a handler that starts in a sound state guarantees. */
  ghost predicate Kept(db: Db, next: Db) {
    Inv(db) ==> Inv(next) && Evolves(db, next)
  }

  lemma FineStepIsKept(db: Db, f: FineCall)
    requires FineWellFormed(db, f)
    ensures Kept(db, FineStep(db, f))
  {
    if Inv(db) {
      FineStepKeeps(db, f);
    }
  }

  lemma StepIsKept(db: Db, c: Call)
    requires WellFormed(db, c)
    ensures Kept(db, Step(db, c).0)
  {
    if Inv(db) {
      StepKeeps(db, c);
    }
  }

  lemma KeptTransitive(a: Db, b: Db, c: Db)
    requires Kept(a, b) && Kept(b, c)
    ensures Kept(a, c)
  {
  }

  // ---------------------------------------------------------------- runs

  ghost predicate FineRun(db: Db, calls: seq<FineCall>)
    decreases |calls|
  {
    calls == [] || (FineWellFormed(db, calls[0]) && FineRun(FineStep(db, calls[0]), calls[1..]))
  }

  ghost function FineFinal(db: Db, calls: seq<FineCall>): Db
    requires FineRun(db, calls)
    decreases |calls|
  {
    if calls == [] then db else FineFinal(FineStep(db, calls[0]), calls[1..])
  }

  lemma {:induction false} FineRunKeeps(db: Db, calls: seq<FineCall>)
    requires Inv(db) && FineRun(db, calls)
    ensures Inv(FineFinal(db, calls)) && Evolves(db, FineFinal(db, calls))
    decreases |calls|
  {
    if calls != [] {
      FineStepKeeps(db, calls[0]);
      FineRunKeeps(FineStep(db, calls[0]), calls[1..]);
      EvolvesTransitive(db, FineStep(db, calls[0]), FineFinal(db, calls));
    }
  }

  /** In every reachable state, also in the finer grain: shapes, exclusive leases, a balanced ledger, granted
      holders. */
  lemma ReachableStatesAreSound(calls: seq<FineCall>)
    requires FineRun(EMPTY_DB, calls)
    ensures Inv(FineFinal(EMPTY_DB, calls))
  {
    FineRunKeeps(EMPTY_DB, calls);
  }

  // ---------------------------------------------------------------- who may extend a lease

  /** The lease of `id` runs on for the same holder, but with another deadline. */
  ghost predicate ExtendsLease(db: Db, next: Db, id: JobId, w: WorkerId) {
    && id in db.jobs && db.jobs[id].state == Leased && db.jobs[id].holder == Some(w)
    && id in next.jobs && next.jobs[id].state == Leased && next.jobs[id].holder == Some(w)
    && next.jobs[id].deadline != db.jobs[id].deadline && next.jobs[id].attempts == db.jobs[id].attempts
  }

  /** Only a heartbeat of the holder itself extends a lease, and only while it has not expired. */
  lemma OnlyHolderExtends(db: Db, f: FineCall, id: JobId, w: WorkerId)
    requires Inv(db) && FineWellFormed(db, f)
    ensures ExtendsLease(db, FineStep(db, f), id, w) ==>
              IsBeat(f) && Beat(f).w == w && Beat(f).current == Some(id) && Beat(f).now < db.jobs[id].deadline.value
  {
    if f.Whole? && ExtendsLease(db, FineStep(db, f), id, w) {
      WholeExtension(db, f.call, id, w);
    } else if f.LockedPoll? && id in db.jobs {
      PollExtendsNothing(db, f.w, f.row, f.deferAt, f.leaseAt, f.at, id);
    } else if f.LockedResult? {
      ResultExtendsNothing(db, f.post, id, w);
    }
  }

  /** A heartbeat, whole or just its locked part. */
  predicate IsBeat(f: FineCall) {
    (f.Whole? && f.call.Heartbeat?) || (f.LockedHeartbeat? && f.beat.Heartbeat?)
  }

  function Beat(f: FineCall): Call
    requires IsBeat(f)
  {
    if f.Whole? then f.call else f.beat
  }

  lemma WholeExtension(db: Db, c: Call, id: JobId, w: WorkerId)
    requires Inv(db) && WellFormed(db, c) && ExtendsLease(db, Step(db, c).0, id, w)
    ensures c.Heartbeat? && c.w == w && c.current == Some(id) && c.now < db.jobs[id].deadline.value
  {
    if c.Poll? && c.w in db.workers {
      var d := ReapExpired(db, c.reapAt);
      PollExtendsNothing(d, c.w, db.workers[c.w], c.deferAt, c.leaseAt, c.now, id);
    } else if c.PostResult? {
      ResultExtendsNothing(db, c, id, w);
    }
  }

  lemma ResultExtendsNothing(db: Db, c: Call, id: JobId, w: WorkerId)
    requires c.PostResult?
    ensures !ExtendsLease(db, ResultBody(db, c).0, id, w)
  {
  }

  lemma PollExtendsNothing(db: Db, w: WorkerId, row: Worker, deferAt: Time, leaseAt: Time, now: Time, id: JobId)
    requires id in db.jobs
    ensures var next := PollBody(db, w, row, deferAt, leaseAt, now).0;
            id in next.jobs && (next.jobs[id] == db.jobs[id] || next.jobs[id].attempts == db.jobs[id].attempts + 1)
  {
  }

  // ---------------------------------------------------------------- who may complete a job, and who may take it away

  /** A posted result, whole or just its locked part. */
  predicate IsPost(f: FineCall) {
    (f.Whole? && f.call.PostResult?) || (f.LockedResult? && f.post.PostResult?)
  }

  function Post(f: FineCall): Call
    requires IsPost(f)
  {
    if f.Whole? then f.call else f.post
  }

  /** An honest-looking result of the lease's holder, in time. */
  predicate Acceptable(db: Db, c: Call)
    requires c.PostResult?
  {
    && Holds(db.jobs, c.w, c.job) && c.now < db.jobs[c.job].deadline.value
    && c.status == DoneStatus && c.proofOk && c.bytes <= MAX_OUTPUT_BYTES
    && (db.jobs[c.job].manifest.kind == "challenge" ==> ChallengeVerdict(db.jobs[c.job].input, c.output) == Correct)
  }

  /** The handler's own checks before the lock: the poster is who it says and not blacklisted. */
  predicate Admitted(db: Db, f: FineCall) {
    f.Whole? && f.call.PostResult? ==> Authorized(db, f.call.w, f.call.cred) && !db.workers[f.call.w].blacklisted
  }

  /** In `next` the open job `id` is completed by `c`, its output stored and its poster paid. */
  ghost predicate Completes(db: Db, next: Db, id: JobId, c: Call)
    requires c.PostResult? && id in db.jobs
  {
    && id in next.jobs && next.jobs[id].state == Completed && next.jobs[id].result == Some(c.output)
    && next.ledger == db.ledger + [LedgerRow(c.w, id, Charge(db.jobs[id]))]
  }

  ghost predicate StaysOpen(next: Db, id: JobId) {
    id in next.jobs && next.jobs[id].state != Completed
  }

  /** A step completes a job exactly when it is an acceptable result of the current holder; that very output is
      stored, and the holder is paid. */
  lemma OnlyHolderCompletes(db: Db, f: FineCall, id: JobId)
    requires Inv(db) && FineWellFormed(db, f) && id in db.jobs && db.jobs[id].state != Completed
    ensures var next := FineStep(db, f);
            if IsPost(f) && Post(f).job == id && Admitted(db, f) && Acceptable(db, Post(f))
            then Completes(db, next, id, Post(f)) else StaysOpen(next, id)
  {
    match f {
      case Whole(c) =>
        if c.PostResult? {
          WholePost(db, c);
          PostCompletes(db, c, id);
        } else {
          WholeCompletesNothing(db, c, id);
        }
      case Reap(now) =>
      case LockedPoll(w, row, deferAt, leaseAt, at) => PollCompletesNothing(db, w, row, deferAt, leaseAt, at, id);
      case LockedHeartbeat(cap, c) =>
      case LockedResult(c) => PostCompletes(db, c, id);
      case LockedApprove(w) =>
      case LockedDisconnect(w) =>
    }
  }

  lemma WholePost(db: Db, c: Call)
    requires c.PostResult?
    ensures Step(db, c).0 == if Admitted(db, Whole(c)) then ResultBody(db, c).0 else db
  {
  }

  lemma PostCompletes(db: Db, c: Call, id: JobId)
    requires Inv(db) && c.PostResult? && id in db.jobs && db.jobs[id].state != Completed
    ensures var next := ResultBody(db, c).0;
            if c.job == id && Acceptable(db, c) then Completes(db, next, id, c) else StaysOpen(next, id)
  {
    if Acceptable(db, c) {
      AcceptableIsAccepted(db, c);
    } else {
      UnacceptableStaysOpen(db, c, id);
    }
  }

  lemma AcceptableIsAccepted(db: Db, c: Call)
    requires c.PostResult? && Acceptable(db, c)
    ensures ResultBody(db, c) == (CompleteJob(db, c.w, c.job, c.output), Credited(Charge(db.jobs[c.job])))
  {
  }

  lemma UnacceptableStaysOpen(db: Db, c: Call, id: JobId)
    requires c.PostResult? && !Acceptable(db, c) && id in db.jobs && db.jobs[id].state != Completed
    ensures StaysOpen(ResultBody(db, c).0, id)
  {
  }

  lemma WholeCompletesNothing(db: Db, c: Call, id: JobId)
    requires Inv(db) && WellFormed(db, c) && !c.PostResult? && id in db.jobs && db.jobs[id].state != Completed
    ensures StaysOpen(Step(db, c).0, id)
  {
    if c.Poll? {
      AtomicPollCompletesNothing(db, c, id);
    }
  }

  lemma AtomicPollCompletesNothing(db: Db, c: Call, id: JobId)
    requires c.Poll? && id in db.jobs && db.jobs[id].state != Completed
    ensures StaysOpen(Step(db, c).0, id)
  {
    PollOutcome(db, c);
    if c.w in db.workers {
      PollCompletesNothing(ReapExpired(db, c.reapAt), c.w, db.workers[c.w], c.deferAt, c.leaseAt, c.now, id);
    }
  }

  lemma PollCompletesNothing(db: Db, w: WorkerId, row: Worker, deferAt: Time, leaseAt: Time, now: Time, id: JobId)
    requires id in db.jobs && db.jobs[id].state != Completed
    ensures var next := PollBody(db, w, row, deferAt, leaseAt, now).0;
            id in next.jobs && next.jobs[id].state != Completed
  {
  }

  /** A result for a completed job, duplicate or late, changes nothing at all, however much later it comes. */
  lemma CompletedJobIsClosed(db: Db, calls: seq<FineCall>, f: FineCall)
    requires Inv(db) && FineRun(db, calls) && IsPost(f)
    requires Post(f).job in db.jobs && db.jobs[Post(f).job].state == Completed
    ensures FineStep(FineFinal(db, calls), f) == FineFinal(db, calls)
  {
    FineRunKeeps(db, calls);
  }

  /** The worker that a step is by or about. */
  function Actor(f: FineCall): Option<WorkerId> {
    match f
    case Whole(c) => (match c case Submit(_, _, _, _, _, _) => None case _ => Some(c.w))
    case Reap(_) => None
    case LockedPoll(w, _, _, _, _) => Some(w)
    case LockedHeartbeat(_, c) => if c.Heartbeat? then Some(c.w) else None
    case LockedResult(c) => if c.PostResult? then Some(c.w) else None
    case LockedApprove(w) => Some(w)
    case LockedDisconnect(w) => Some(w)
  }

  /** The clock reading by which a step takes leases to be expired, if it reaps at all. */
  function ReapsAt(f: FineCall): Option<Time> {
    match f
    case Whole(Poll(_, _, reapAt, _, _, _)) => Some(reapAt)
    case Reap(now) => Some(now)
    case _ => None
  }

  /** A running lease is the holder's own: no step of anyone else touches the job before the deadline has passed. */
  lemma NobodyElseTouchesALease(db: Db, f: FineCall, id: JobId)
    requires Inv(db) && FineWellFormed(db, f) && id in db.jobs && db.jobs[id].state == Leased
    requires Actor(f) != db.jobs[id].holder
    requires ReapsAt(f).Some? ==> ReapsAt(f).value <= db.jobs[id].deadline.value
    ensures id in FineStep(db, f).jobs && FineStep(db, f).jobs[id] == db.jobs[id]
  {
    assert Shaped(db.jobs[id]);
    if f.Whole? {
      OthersLeaveLease(db, f.call, id);
    } else if f.LockedPoll? {
      OthersPollElsewhere(db, f.w, f.row, f.deferAt, f.leaseAt, f.at, id);
    } else if f.LockedResult? {
      OthersPostElsewhere(db, f.post, id);
    }
  }

  lemma OthersLeaveLease(db: Db, c: Call, id: JobId)
    requires WellFormed(db, c) && id in db.jobs && db.jobs[id].state == Leased && Shaped(db.jobs[id])
    requires Actor(Whole(c)) != db.jobs[id].holder
    requires c.Poll? ==> c.reapAt <= db.jobs[id].deadline.value
    ensures id in Step(db, c).0.jobs && Step(db, c).0.jobs[id] == db.jobs[id]
  {
    if c.Poll? {
      PollOutcome(db, c);
      if c.w in db.workers {
        OthersPollElsewhere(ReapExpired(db, c.reapAt), c.w, db.workers[c.w], c.deferAt, c.leaseAt, c.now, id);
      }
    } else if c.PostResult? {
      WholePost(db, c);
      OthersPostElsewhere(db, c, id);
    }
  }

  lemma OthersPostElsewhere(db: Db, c: Call, id: JobId)
    requires c.PostResult? && id in db.jobs && db.jobs[id].state == Leased && db.jobs[id].holder != Some(c.w)
    ensures var next := ResultBody(db, c).0; id in next.jobs && next.jobs[id] == db.jobs[id]
  {
  }

  lemma OthersPollElsewhere(db: Db, w: WorkerId, row: Worker, deferAt: Time, leaseAt: Time, now: Time, id: JobId)
    requires id in db.jobs && db.jobs[id].state == Leased
    ensures var next := PollBody(db, w, row, deferAt, leaseAt, now).0; id in next.jobs && next.jobs[id] == db.jobs[id]
  {
  }

}
