/** What the handlers do, said in the fields of the tables and in numbers, and what follows over whole runs. */
module Handlers {
  import opened Base
  import opened Contracts
  import opened Scheduler
  import opened Protocol
  import opened Lease
  import opened Assignment
  import opened Recovery

  /** Nothing differs but the row of job `id`. */
  ghost predicate OnlyJob(db: Db, next: Db, id: JobId) {
    && next.workers == db.workers && next.ledger == db.ledger && next.grants == db.grants
    && next.jobs.Keys == db.jobs.Keys && forall k :: k in db.jobs && k != id ==> next.jobs[k] == db.jobs[k]
  }

  /** Nothing differs but the row of worker `w`. */
  ghost predicate OnlyWorker(db: Db, next: Db, w: WorkerId) {
    && next.jobs == db.jobs && next.ledger == db.ledger && next.grants == db.grants
    && (forall v :: v != w ==> (v in next.workers <==> v in db.workers))
    && forall v :: v != w && v in db.workers ==> next.workers[v] == db.workers[v]
  }

  /** The job went back to the queue, and nothing else happened. */
  ghost predicate BackInQueue(db: Db, next: Db, id: JobId) {
    && id in db.jobs && OnlyJob(db, next, id)
    && next.jobs[id] == db.jobs[id].(state := Queued, holder := None, deadline := None)
  }

  /** Exactly the leases whose deadline lies before `now` go back to the queue. */
  lemma ReapTakesTheExpired(db: Db, now: Time)
    ensures var next := ReapExpired(db, now);
            && next.workers == db.workers && next.ledger == db.ledger && next.grants == db.grants
            && next.jobs.Keys == db.jobs.Keys
            && forall id :: id in db.jobs ==>
                 if db.jobs[id].state == Leased && db.jobs[id].deadline.Some? && db.jobs[id].deadline.value < now
                 then next.jobs[id] == db.jobs[id].(state := Queued, holder := None, deadline := None)
                 else next.jobs[id] == db.jobs[id]
  {
  }

  // ---------------------------------------------------------------- results

  /** The poster holds the lease of the job, the lease still runs, and the output is at most 8 MiB. */
  ghost predicate InTime(db: Db, c: Call)
    requires c.PostResult?
  {
    && c.job in db.jobs && db.jobs[c.job].state == Leased && db.jobs[c.job].holder == Some(c.w)
    && db.jobs[c.job].deadline.Some? && c.now < db.jobs[c.job].deadline.value && c.bytes <= 8_388_608
  }

  /** A result that is handed in as done, with a proof that matches. */
  predicate Finished(c: Call)
    requires c.PostResult?
  {
    c.status == DoneStatus && c.proofOk
  }

  /** The answer to a challenge with the integer n is n * n + 1. */
  ghost predicate AnswersChallenge(input: Payload, output: Output) {
    exists n: int :: input == Challenge(IntNumber(n)) && output == Answer(Some(n * n + 1))
  }

  /** The challenge has no number to compute with. */
  predicate Unanswerable(input: Payload) {
    !input.Challenge? || input.x == NoNumber
  }

  lemma VerdictInNumbers(input: Payload, output: Output)
    ensures ChallengeVerdict(input, output) == Correct <==> AnswersChallenge(input, output)
    ensures ChallengeVerdict(input, output) == Raises <==> Unanswerable(input)
  {
    if input.Challenge? && input.x.IntNumber? && output == Answer(Some(input.x.n * input.x.n + 1)) {
      assert AnswersChallenge(input, output);
    }
  }

  /** A result that does not come from the holder in time changes nothing, except that a late one gives the job
      back. */
  lemma LateOrForeignResult(db: Db, c: Call)
    requires Inv(db) && c.PostResult? && Authorized(db, c.w, c.cred) && !db.workers[c.w].blacklisted && !InTime(db, c)
    ensures var (next, r) := Step(db, c);
            if c.job !in db.jobs then next == db && r == NotFound
            else if db.jobs[c.job].state != Leased || db.jobs[c.job].holder != Some(c.w)
            then next == db && r == Rejected("not_leased")
            else if db.jobs[c.job].deadline.value <= c.now
            then BackInQueue(db, next, c.job) && r == Rejected("lease_expired")
            else next == db && r == Rejected("payload_too_large")
  {
    assert c.job in db.jobs ==> Shaped(db.jobs[c.job]);
  }

  /** A failed or yielded job, or one whose proof does not match, goes back to the queue and pays nothing. */
  lemma UnfinishedResult(db: Db, c: Call)
    requires c.PostResult? && Authorized(db, c.w, c.cred) && !db.workers[c.w].blacklisted && InTime(db, c)
    requires !Finished(c)
    ensures var (next, r) := Step(db, c);
            && BackInQueue(db, next, c.job)
            && r == Rejected(if c.status == FailedStatus then "failed" else if c.status == YieldedStatus then "yielded"
                             else "invalid_proof")
  {
  }

  /** A wrong answer to a challenge bans its poster and gives the job back; one that has no number is an error that
      changes nothing. */
  lemma WrongAnswer(db: Db, c: Call)
    requires c.PostResult? && Authorized(db, c.w, c.cred) && !db.workers[c.w].blacklisted && InTime(db, c)
    requires Finished(c) && db.jobs[c.job].manifest.kind == "challenge"
    requires !AnswersChallenge(db.jobs[c.job].input, c.output)
    ensures var (next, r) := Step(db, c);
            if Unanswerable(db.jobs[c.job].input) then next == db && r == ServerError
            else
              && r == Rejected("cheater_blacklisted")
              && next.workers == db.workers[c.w := db.workers[c.w].(blacklisted := true)]
              && BackInQueue(db, next.(workers := db.workers), c.job)
  {
    VerdictInNumbers(db.jobs[c.job].input, c.output);
  }

  /** Any other result of the holder in time completes the job and pays its units, five times over for a GPU job. */
  lemma AcceptedResult(db: Db, c: Call)
    requires c.PostResult? && Authorized(db, c.w, c.cred) && !db.workers[c.w].blacklisted && InTime(db, c)
    requires Finished(c)
    requires db.jobs[c.job].manifest.kind == "challenge" ==> AnswersChallenge(db.jobs[c.job].input, c.output)
    ensures var (next, r), j := Step(db, c), db.jobs[c.job];
            var credits := if j.manifest.requirements.needsGpu then 5 * j.units else j.units;
            && r == Credited(credits) && next.ledger == db.ledger + [LedgerRow(c.w, c.job, credits)]
            && OnlyJob(db, next.(ledger := db.ledger), c.job)
            && next.jobs[c.job] == j.(state := Completed, result := Some(c.output), deadline := None)
  {
    VerdictInNumbers(db.jobs[c.job].input, c.output);
  }

  // ---------------------------------------------------------------- heartbeats

  /** Worker `w` holds job `id` until `deadline`. */
  ghost predicate HeldUntil(db: Db, w: WorkerId, id: JobId, deadline: Time) {
    && id in db.jobs && db.jobs[id].state == Leased && db.jobs[id].holder == Some(w)
    && db.jobs[id].deadline == Some(deadline)
  }

  /** What a heartbeat of a worker with the capability `cap` does to the jobs: the lease it names, if it holds it, runs
      for another 20 seconds from `leaseAt`, or goes back to the queue if it has already run out. */
  ghost predicate Renews(db: Db, cap: Capability, c: Call, next: Db)
    requires c.Heartbeat?
  {
    && next.ledger == db.ledger && next.grants == db.grants
    && if !cap.measurementOnly && c.current.Some? && (exists d :: HeldUntil(db, c.w, c.current.value, d)) then
         var id := c.current.value;
         && (forall d :: HeldUntil(db, c.w, id, d) && c.now < d ==>
               && OnlyJob(db, next.(workers := db.workers), id)
               && next.jobs[id] == db.jobs[id].(deadline := Some(c.leaseAt + 20_000_000)))
         && (forall d :: HeldUntil(db, c.w, id, d) && d <= c.now ==>
               BackInQueue(db, next.(workers := db.workers), id))
       else next.jobs == db.jobs
  }

  lemma BeatRenews(db: Db, cap: Capability, c: Call)
    requires c.Heartbeat?
    ensures Renews(db, cap, c, HeartbeatBody(db, cap, c))
  {
    if c.current.Some? && Holds(db.jobs, c.w, c.current.value) {
      assert HeldUntil(db, c.w, c.current.value, db.jobs[c.current.value].deadline.value);
    }
  }

  /** An authenticated heartbeat renews its lease and reports the usage of its worker, and of no other. */
  lemma BeatEffect(db: Db, c: Call)
    requires c.Heartbeat? && Authorized(db, c.w, c.cred)
    ensures var (next, r), row := Step(db, c), db.workers[c.w];
            && r == Ack(row.approved) && Renews(db, row.cap, c, next)
            && OnlyWorker(db, next.(jobs := db.jobs), c.w) && c.w in next.workers
            && (row.cap.measurementOnly ==>
                  next.workers[c.w] == row.(cpuPct := Some(0.0), gpuPct := None, freeRam := None,
                                            lastHeartbeat := Some(c.now)))
            && (!row.cap.measurementOnly ==>
                  && next.workers[c.w].cpuPct == Some(c.cpuPct) && next.workers[c.w].gpuPct == c.gpuPct
                  && next.workers[c.w].freeRam == (if c.freeRam.None? then row.freeRam else c.freeRam)
                  && next.workers[c.w].lastHeartbeat == Some(c.now)
                  && next.workers[c.w] == row.(cpuPct := next.workers[c.w].cpuPct, gpuPct := next.workers[c.w].gpuPct,
                                               freeRam := next.workers[c.w].freeRam,
                                               lastHeartbeat := next.workers[c.w].lastHeartbeat))
  {
    BeatRenews(db, db.workers[c.w].cap, c);
  }

  /** The step is a heartbeat by which worker `w`, which takes jobs, names job `id`. */
  ghost predicate BeatsFor(db: Db, f: FineCall, w: WorkerId, id: JobId) {
    match f
    case Whole(c) =>
      c.Heartbeat? && c.w == w && c.current == Some(id) && Authorized(db, w, c.cred)
      && !db.workers[w].cap.measurementOnly
    case LockedHeartbeat(cap, c) => c.Heartbeat? && c.w == w && c.current == Some(id) && !cap.measurementOnly
    case _ => false
  }

  /** The step may end the lease of `id` that `w` holds: it disconnects `w`, posts its result, or comes from a heartbeat
      that names the job. */
  predicate MayRelease(f: FineCall, w: WorkerId, id: JobId) {
    match f
    case Whole(c) =>
      || c == Disconnect(w) || (c.PostResult? && c.w == w && c.job == id)
      || (c.Heartbeat? && c.w == w && c.current == Some(id))
    case LockedHeartbeat(_, c) => c.Heartbeat? && c.w == w && c.current == Some(id)
    case LockedResult(c) => c.PostResult? && c.w == w && c.job == id
    case LockedDisconnect(v) => v == w
    case _ => false
  }

  /** Whatever else happens, by the holder or by others, the lease stays until its deadline has passed. */
  lemma OthersKeepTheLease(db: Db, f: FineCall, w: WorkerId, id: JobId, deadline: Time)
    requires Inv(db) && FineWellFormed(db, f) && HeldUntil(db, w, id, deadline) && !MayRelease(f, w, id)
    requires ReapsAt(f).Some? ==> ReapsAt(f).value <= deadline
    ensures HeldUntil(FineStep(db, f), w, id, deadline)
  {
    if Actor(f) != Some(w) {
      NobodyElseTouchesALease(db, f, id);
    } else if f.Whole? {
      HolderDoesOtherThings(db, f.call, w, id, deadline);
    } else if f.LockedPoll? {
      assert id in HeldBy(db.jobs, w);
    } else if f.LockedHeartbeat? {
      BeatRenews(db, f.cap, f.beat);
      BeatElsewhere(db, f.cap, f.beat, w, id, deadline);
    } else if f.LockedResult? {
      PostElsewhere(db, f.post, w, id, deadline);
    }
  }

  lemma HolderDoesOtherThings(db: Db, c: Call, w: WorkerId, id: JobId, deadline: Time)
    requires Inv(db) && WellFormed(db, c) && HeldUntil(db, w, id, deadline) && !MayRelease(Whole(c), w, id)
    requires !c.Submit? && c.w == w && (c.Poll? ==> c.reapAt <= deadline)
    ensures HeldUntil(Step(db, c).0, w, id, deadline)
  {
    if c.Poll? {
      PollOutcome(db, c);
      assert id in HeldBy(ReapExpired(db, c.reapAt).jobs, w);
    } else if c.Heartbeat? && Authorized(db, w, c.cred) {
      BeatElsewhere(db, db.workers[w].cap, c, w, id, deadline);
    } else if c.PostResult? {
      WholePost(db, c);
      PostElsewhere(db, c, w, id, deadline);
    }
  }

  lemma BeatElsewhere(db: Db, cap: Capability, c: Call, w: WorkerId, id: JobId, deadline: Time)
    requires c.Heartbeat? && c.current != Some(id) && HeldUntil(db, w, id, deadline)
    ensures HeldUntil(HeartbeatBody(db, cap, c), w, id, deadline)
  {
    BeatRenews(db, cap, c);
  }

  lemma PostElsewhere(db: Db, c: Call, w: WorkerId, id: JobId, deadline: Time)
    requires c.PostResult? && c.job != id && HeldUntil(db, w, id, deadline)
    ensures HeldUntil(ResultBody(db, c).0, w, id, deadline)
  {
  }

  lemma BeatExtends(db: Db, f: FineCall, w: WorkerId, id: JobId, deadline: Time)
    requires FineWellFormed(db, f) && BeatsFor(db, f, w, id) && HeldUntil(db, w, id, deadline)
    requires Beat(f).now < deadline
    ensures HeldUntil(FineStep(db, f), w, id, Beat(f).leaseAt + 20_000_000)
  {
    BeatRenews(db, if f.Whole? then db.workers[w].cap else f.cap, Beat(f));
  }

  /** One step of a run in which `w` last renewed its lease at `last`: a heartbeat or a reaping comes less than 20
      seconds later, and nothing else releases the lease. */
  ghost predicate StepInTime(db: Db, f: FineCall, w: WorkerId, id: JobId, last: Time) {
    if BeatsFor(db, f, w, id) then Beat(f).now < last + 20_000_000
    else !MayRelease(f, w, id) && (ReapsAt(f).Some? ==> ReapsAt(f).value <= last + 20_000_000)
  }

  ghost function Renewed(db: Db, f: FineCall, w: WorkerId, id: JobId, last: Time): Time {
    if BeatsFor(db, f, w, id) then Beat(f).leaseAt else last
  }

  /** Worker `w`, which last renewed its lease at `last`, beats for it in time throughout the run. */
  ghost predicate BeatsInTime(db: Db, calls: seq<FineCall>, w: WorkerId, id: JobId, last: Time)
    requires FineRun(db, calls)
    decreases |calls|
  {
    calls == [] ||
    (StepInTime(db, calls[0], w, id, last)
     && BeatsInTime(FineStep(db, calls[0]), calls[1..], w, id, Renewed(db, calls[0], w, id, last)))
  }

  lemma TimelyStep(db: Db, f: FineCall, w: WorkerId, id: JobId, last: Time)
    requires Inv(db) && FineWellFormed(db, f) && StepInTime(db, f, w, id, last)
    requires HeldUntil(db, w, id, last + 20_000_000)
    ensures HeldUntil(FineStep(db, f), w, id, Renewed(db, f, w, id, last) + 20_000_000)
  {
    if BeatsFor(db, f, w, id) {
      BeatExtends(db, f, w, id, last + 20_000_000);
    } else {
      OthersKeepTheLease(db, f, w, id, last + 20_000_000);
    }
  }

  lemma TimelyParts(db: Db, calls: seq<FineCall>, w: WorkerId, id: JobId, last: Time)
    requires FineRun(db, calls) && calls != [] && BeatsInTime(db, calls, w, id, last)
    ensures StepInTime(db, calls[0], w, id, last)
    ensures BeatsInTime(FineStep(db, calls[0]), calls[1..], w, id, Renewed(db, calls[0], w, id, last))
  {
  }

  lemma FirstTimelyStep(db: Db, calls: seq<FineCall>, w: WorkerId, id: JobId, last: Time)
    returns (next: Db, renewed: Time)
    requires Inv(db) && FineRun(db, calls) && calls != [] && BeatsInTime(db, calls, w, id, last)
    requires HeldUntil(db, w, id, last + 20_000_000)
    ensures next == FineStep(db, calls[0]) && FineRun(next, calls[1..])
    ensures BeatsInTime(next, calls[1..], w, id, renewed) && HeldUntil(next, w, id, renewed + 20_000_000)
  {
    TimelyParts(db, calls, w, id, last);
    TimelyStep(db, calls[0], w, id, last);
    next, renewed := FineStep(db, calls[0]), Renewed(db, calls[0], w, id, last);
  }

  lemma FirstStep(db: Db, calls: seq<FineCall>)
    requires Inv(db) && FineRun(db, calls) && calls != []
    ensures var next := FineStep(db, calls[0]);
            Inv(next) && FineRun(next, calls[1..]) && FineFinal(db, calls) == FineFinal(next, calls[1..])
  {
    FineStepKeeps(db, calls[0]);
  }

  /** A worker whose heartbeats come less than 20 seconds apart never loses its lease, whatever is reaped, polled,
      submitted or posted meanwhile, in any run of the finer grain. */
  lemma {:induction false} TimelyBeatsKeepTheLease(db: Db, calls: seq<FineCall>, w: WorkerId, id: JobId, last: Time)
    returns (renewed: Time)
    requires Inv(db) && FineRun(db, calls) && BeatsInTime(db, calls, w, id, last)
    requires HeldUntil(db, w, id, last + 20_000_000)
    ensures HeldUntil(FineFinal(db, calls), w, id, renewed + 20_000_000)
    decreases |calls|
  {
    if calls == [] {
      renewed := last;
    } else {
      var next, before := FirstTimelyStep(db, calls, w, id, last);
      FirstStep(db, calls);
      renewed := TimelyBeatsKeepTheLease(next, calls[1..], w, id, before);
    }
  }

  // ---------------------------------------------------------------- polls

  /** The worker row meets every requirement of the manifest, and its tier is high enough for the classification. */
  ghost predicate Suits(m: Manifest, row: Worker, tier: string) {
    && Meets(m.requirements, row) && m.classification in CLASSIFICATIONS && tier in TIERS
    && IndexOf(CLASSIFICATIONS, m.classification) <= IndexOf(TIERS, tier)
  }

  ghost predicate Meets(need: Requires, row: Worker) {
    var cap := row.cap;
    && !(need.needsGpu && !cap.hasGpu)
    && (forall gb :: need.minVram == Some(gb) ==> (exists v :: cap.vram == Some(v) && gb <= v)
                                                  || (cap.vram == None && gb <= 0.0))
    && (forall gb :: need.minRam == Some(gb) ==> (exists f :: row.freeRam == Some(f) && gb <= f)
                                                 || (row.freeRam == None && gb <= cap.ramGb))
    && need.minCpus <= cap.cpus && (forall a :: a in need.accel ==> a in cap.accel)
  }

  lemma FitsMeansSuits(j: Job, row: Worker, tier: string)
    ensures Fits(j, row, tier) <==> Suits(j.manifest, row, tier)
  {
    MayRouteIffRanked(j.manifest.classification, tier);
    assert CapabilityMatch(j.manifest.requirements, row.cap, row.freeRam) <==> Meets(j.manifest.requirements, row);
  }

  ghost predicate GrantsFit(db: Db) {
    forall i :: 0 <= i < |db.grants| ==>
      db.grants[i].job in db.jobs && Fits(db.jobs[db.grants[i].job], db.grants[i].row, db.grants[i].tier)
  }

  lemma {:induction false} RunGrantsFit(db: Db, calls: seq<FineCall>)
    requires Inv(db) && GrantsFit(db) && FineRun(db, calls)
    ensures GrantsFit(FineFinal(db, calls))
    decreases |calls|
  {
    if calls != [] {
      FineStepKeeps(db, calls[0]);
      StepGrantsFit(db, calls[0]);
      RunGrantsFit(FineStep(db, calls[0]), calls[1..]);
    }
  }

  lemma StepGrantsFit(db: Db, f: FineCall)
    requires Inv(db) && GrantsFit(db) && FineWellFormed(db, f)
    ensures GrantsFit(FineStep(db, f))
  {
    FineStepKeeps(db, f);
    NewGrantFits(db, f);
    MoreGrantsFit(db, FineStep(db, f));
  }

  lemma MoreGrantsFit(db: Db, next: Db)
    requires GrantsFit(db) && Evolves(db, next)
    requires next.grants == db.grants || (|next.grants| == |db.grants| + 1 && LastGrantFits(next))
    ensures GrantsFit(next)
  {
    forall i | 0 <= i < |db.grants|
      ensures next.grants[i].job in next.jobs
              && Fits(next.jobs[next.grants[i].job], next.grants[i].row, next.grants[i].tier)
    {
      assert next.grants[i] == db.grants[i];
      assert SameSubmission(db.jobs[db.grants[i].job], next.jobs[db.grants[i].job]);
    }
  }

  ghost predicate LastGrantFits(db: Db) {
    db.grants != []
    && var g := db.grants[|db.grants| - 1]; g.job in db.jobs && Fits(db.jobs[g.job], g.row, g.tier)
  }

  lemma NewGrantFits(db: Db, f: FineCall)
    requires Inv(db) && FineWellFormed(db, f)
    ensures var next := FineStep(db, f);
            next.grants == db.grants || (|next.grants| == |db.grants| + 1 && LastGrantFits(next))
  {
    if f.Whole? {
      NewPollGrantFits(db, f.call);
    } else {
      GrantsOfFineStep(db, f);
    }
  }

  lemma NewPollGrantFits(db: Db, c: Call)
    ensures var next := Step(db, c).0;
            next.grants == db.grants || (|next.grants| == |db.grants| + 1 && LastGrantFits(next))
  {
    OnlyPollGrants(db, c);
    if c.Poll? && Step(db, c).1.Assigned? {
      PollGrantsOldestEligible(db, c, Step(db, c).1.job);
    }
  }

  /** Every lease ever granted, in any run of the finer grain, went out on a worker row that has the GPU, the memory,
      the processors and the accelerators that the manifest requires, and on a tier that its classification allows. */
  lemma EveryGrantSuits(calls: seq<FineCall>, i: nat)
    requires FineRun(EMPTY_DB, calls) && i < |FineFinal(EMPTY_DB, calls).grants|
    ensures var db := FineFinal(EMPTY_DB, calls);
            db.grants[i].job in db.jobs
            && Suits(db.jobs[db.grants[i].job].manifest, db.grants[i].row, db.grants[i].tier)
  {
    var db := FineFinal(EMPTY_DB, calls);
    RunGrantsFit(EMPTY_DB, calls);
    FitsMeansSuits(db.jobs[db.grants[i].job], db.grants[i].row, db.grants[i].tier);
  }

  /** The job waits for a worker when the poll looks, and suits the one that polls. */
  ghost predicate Waits(db: Db, c: Call, id: JobId)
    requires c.Poll? && c.w in db.workers
  {
    && id in db.jobs
    && (db.jobs[id].state == Queued
        || (db.jobs[id].state == Leased && db.jobs[id].deadline.Some? && db.jobs[id].deadline.value < c.reapAt))
    && Suits(db.jobs[id].manifest, db.workers[c.w],
             if db.workers[c.w].tier == "" then "untrusted" else db.workers[c.w].tier)
  }

  /** ... and no job that waits is older. */
  ghost predicate WaitsFirst(db: Db, c: Call, id: JobId)
    requires c.Poll? && c.w in db.workers
  {
    && Waits(db, c, id)
    && forall k :: Waits(db, c, k) && k != id ==>
         db.jobs[id].createdAt < db.jobs[k].createdAt || (db.jobs[id].createdAt == db.jobs[k].createdAt && id < k)
  }

  function OrZero(pct: Option<real>): real {
    if pct.Some? then pct.value else 0.0
  }

  /** One of the worker's usages exceeds both of the peer's by 15 points. */
  predicate ClearlyBusier(me: Worker, peer: Worker) {
    TopsBoth(OrZero(me.cpuPct), peer) || TopsBoth(OrZero(me.gpuPct), peer)
  }

  predicate TopsBoth(pct: real, peer: Worker) {
    OrZero(peer.cpuPct) + 15.0 <= pct && OrZero(peer.gpuPct) + 15.0 <= pct
  }

  /** Another worker, approved and not banned, seen in the last 3 seconds, without a running lease, and clearly less
      busy. */
  ghost predicate FreePeer(db: Db, c: Call, p: WorkerId)
    requires c.Poll? && c.w in db.workers
  {
    && p in db.workers && p != c.w && db.workers[p].approved && !db.workers[p].blacklisted
    && (exists beat :: db.workers[p].lastHeartbeat == Some(beat) && c.deferAt - beat <= 3_000_000)
    && (forall id :: id in db.jobs && db.jobs[id].state == Leased && db.jobs[id].holder == Some(p) ==>
          db.jobs[id].deadline.Some? && db.jobs[id].deadline.value < c.reapAt)
    && ClearlyBusier(db.workers[c.w], db.workers[p])
  }

  /** The job is less than 1.5 seconds old and left to a peer. */
  ghost predicate LeftToPeer(db: Db, c: Call, id: JobId)
    requires c.Poll? && c.w in db.workers && id in db.jobs
  {
    c.deferAt - db.jobs[id].createdAt < 1_500_000 && exists p :: FreePeer(db, c, p)
  }

  lemma WaitsMeansEligible(db: Db, c: Call, id: JobId)
    requires c.Poll? && c.w in db.workers
    ensures Waits(db, c, id) <==> id in Eligible(ReapExpired(db, c.reapAt), c.w, db.workers[c.w])
  {
    if id in db.jobs {
      FitsMeansSuits(db.jobs[id], db.workers[c.w], TierOf(db, c.w));
    }
  }

  lemma BusierMeansLoad(me: Worker, peer: Worker)
    ensures ClearlyBusier(me, peer) <==> Load(me.cpuPct, me.gpuPct) - Load(peer.cpuPct, peer.gpuPct) >= 15.0
  {
  }

  lemma FreePeerMeansLighter(db: Db, c: Call, p: WorkerId)
    requires c.Poll? && c.w in db.workers
    ensures FreePeer(db, c, p) <==>
              p in db.workers && LighterPeer(ReapExpired(db, c.reapAt), c.w, db.workers[c.w], p, c.deferAt)
  {
    var reaped := ReapExpired(db, c.reapAt);
    if p in db.workers {
      BusierMeansLoad(db.workers[c.w], db.workers[p]);
      if HeldBy(reaped.jobs, p) == {} {
        forall id | id in db.jobs && db.jobs[id].state == Leased && db.jobs[id].holder == Some(p)
          ensures db.jobs[id].deadline.Some? && db.jobs[id].deadline.value < c.reapAt
        {
          assert id !in HeldBy(reaped.jobs, p);
        }
      } else {
        var id :| id in HeldBy(reaped.jobs, p);
        assert reaped.jobs[id] == db.jobs[id];
      }
    }
  }

  lemma LeftMeansDefers(db: Db, c: Call, id: JobId)
    requires c.Poll? && c.w in db.workers && id in db.jobs
    ensures LeftToPeer(db, c, id) <==> Defers(ReapExpired(db, c.reapAt), c.w, db.jobs[id].createdAt, c.deferAt)
  {
    forall p
      ensures FreePeer(db, c, p) <==>
                p in db.workers && LighterPeer(ReapExpired(db, c.reapAt), c.w, db.workers[c.w], p, c.deferAt)
    {
      FreePeerMeansLighter(db, c, p);
    }
  }

  lemma FirstMeansOldest(db: Db, c: Call, id: JobId)
    requires c.Poll? && c.w in db.workers
    ensures var reaped := ReapExpired(db, c.reapAt);
            WaitsFirst(db, c, id) <==> IsOldest(reaped.jobs, Eligible(reaped, c.w, db.workers[c.w]), id)
  {
    forall k
      ensures Waits(db, c, k) <==> k in Eligible(ReapExpired(db, c.reapAt), c.w, db.workers[c.w])
    {
      WaitsMeansEligible(db, c, k);
    }
  }

  lemma BodyRule(db: Db, w: WorkerId, row: Worker, deferAt: Time, leaseAt: Time, now: Time, id: JobId)
    requires HeldBy(db.jobs, w) == {}
    ensures PollBody(db, w, row, deferAt, leaseAt, now).1 == Assigned(id) <==>
              IsOldest(db.jobs, Eligible(db, w, row), id) && id in db.jobs
              && !Defers(db, w, db.jobs[id].createdAt, deferAt)
  {
    var ids := Eligible(db, w, row);
    if IsOldest(db.jobs, ids, id) {
      OldestIsUnique(db.jobs, ids, id, Oldest(db.jobs, ids));
    }
  }

  /** The whole rule of a poll by a ready worker: it is granted the oldest job that waits and suits it, unless that one
      is fresh and left to a peer; otherwise it gets nothing. */
  lemma PollRule(db: Db, c: Call, id: JobId)
    requires c.Poll? && ReadyToWork(db, c)
    ensures Step(db, c).1 == Assigned(id) <==> WaitsFirst(db, c, id) && !LeftToPeer(db, c, id)
    ensures Step(db, c).1.Assigned? || Step(db, c) == (ReapExpired(db, c.reapAt), NoJob)
  {
    var reaped := ReapExpired(db, c.reapAt);
    ReadyPollIsBody(db, c);
    NothingHeld(db, c);
    FirstMeansOldest(db, c, id);
    if id in db.jobs {
      LeftMeansDefers(db, c, id);
    }
    BodyRule(reaped, c.w, db.workers[c.w], c.deferAt, c.leaseAt, c.now, id);
  }

  lemma NothingHeld(db: Db, c: Call)
    requires c.Poll? && ReadyToWork(db, c)
    ensures HeldBy(ReapExpired(db, c.reapAt).jobs, c.w) == {}
  {
    assert HeldBy(ReapExpired(db, c.reapAt).jobs, c.w) <= HeldBy(db.jobs, c.w);
  }

  /** A job that waits but is passed over for a younger one, or for none although it is not fresh, lacks something that
      the worker would need: it does not suit it. */
  lemma PassedOverDoesNotSuit(db: Db, c: Call, id: JobId)
    requires c.Poll? && ReadyToWork(db, c) && id in db.jobs && db.jobs[id].state == Queued
    requires Step(db, c).1 == NoJob ==> c.deferAt - db.jobs[id].createdAt >= 1_500_000
    requires Step(db, c).1.Assigned? && Step(db, c).1.job in db.jobs ==> Older(db.jobs, id, Step(db, c).1.job)
    ensures !Suits(db.jobs[id].manifest, db.workers[c.w],
                   if db.workers[c.w].tier == "" then "untrusted" else db.workers[c.w].tier)
  {
    if Waits(db, c, id) {
      WaitsMeansEligible(db, c, id);
      NothingHeld(db, c);
      ReadyPollIsBody(db, c);
    }
  }

  /** A worker that is not approved or is banned gets nothing and reaps nothing; an observer only reaps; and a worker
      that still holds a lease gets nothing. */
  lemma NotReadyPollsForNothing(db: Db, c: Call)
    requires c.Poll? && Authorized(db, c.w, c.cred) && !ReadyToWork(db, c)
    ensures var row := db.workers[c.w];
            Step(db, c) == (if row.blacklisted || !row.approved then db else ReapExpired(db, c.reapAt), NoJob)
  {
    if GoodRow(db.workers[c.w]) {
      var id :| id in HeldBy(db.jobs, c.w) && id !in ExpiredBefore(db.jobs, c.reapAt);
      assert id in HeldBy(ReapExpired(db, c.reapAt).jobs, c.w);
    }
  }

  // ---------------------------------------------------------------- who is let in

  /** A registration is refused exactly when binding is on and the certificate is missing, the existing row has none, or
      has another one; a refusal changes nothing. */
  lemma RegisterRefused(db: Db, c: Call)
    requires c.Register?
    ensures var (next, r), cert := Step(db, c), c.device.presented;
            && (r == Unauthorized <==> c.device.bind && cert.None?)
            && (r == Conflict <==> c.device.bind && cert.Some? && c.w in db.workers && db.workers[c.w].cert.None?)
            && (r == Forbidden <==> c.device.bind && cert.Some? && c.w in db.workers && db.workers[c.w].cert.Some?
                                    && db.workers[c.w].cert.value != cert.value)
            && (r.Registered? || next == db)
            && (r.Registered? || r == Unauthorized || r == Conflict || r == Forbidden)
  {
  }

  /** An accepted registration takes over the token, the capability and the certificate, never lowers an approval, and
      leaves the standing of a known worker as it is; a new one starts on the lowest tier. */
  lemma RegisterEffect(db: Db, c: Call)
    requires c.Register? && Step(db, c).1.Registered?
    ensures var (next, r), known := Step(db, c), c.w in db.workers;
            && OnlyWorker(db, next, c.w) && c.w in next.workers
            && var row := next.workers[c.w];
            && row.token == c.token && row.lastHeartbeat == Some(c.now) && r == Registered(row.approved)
            && (row.approved <==> !c.gated || (known && db.workers[c.w].approved))
            && (c.cap.measurementOnly ==>
                  && row.cap.measurementOnly && row.freeRam == None && !row.cap.hasGpu && row.cap.vram == None
                  && row.cap.accel == {} && row.cap.cpus == 1 && row.cap.ramGb == 1.0 && row.cap.freeRamGb == None)
            && (!c.cap.measurementOnly ==>
                  && row.cap == c.cap
                  && row.freeRam == (if c.cap.freeRamGb == None then Some(c.cap.ramGb) else c.cap.freeRamGb))
            && (c.device.bind ==> row.cert == c.device.presented)
            && (!c.device.bind ==> row.cert == if known then db.workers[c.w].cert else None)
            && (known ==>
                  && row.blacklisted == db.workers[c.w].blacklisted && row.tier == db.workers[c.w].tier
                  && row.pinned == db.workers[c.w].pinned && row.cpuPct == db.workers[c.w].cpuPct
                  && row.gpuPct == db.workers[c.w].gpuPct)
            && (!known ==>
                  !row.blacklisted && row.tier == "untrusted" && !row.pinned && row.cpuPct == row.gpuPct == None)
  {
  }

  /** The requests that carry a token. */
  predicate IsRequest(c: Call) {
    c.Poll? || c.Heartbeat? || c.PostResult?
  }

  /** Whoever is not registered, or not any more, is refused. */
  lemma StrangersAreRefused(db: Db, c: Call)
    requires IsRequest(c) && c.w !in db.workers
    ensures Step(db, c) == (db, Unauthorized)
  {
  }

  lemma RefusedIffUnauthorized(db: Db, c: Call)
    requires IsRequest(c)
    ensures Step(db, c).1 == Unauthorized <==> !Authorized(db, c.w, c.cred)
    ensures Step(db, c).1 == Unauthorized ==> Step(db, c).0 == db
  {
  }

  /** None of the calls registers or disconnects `w`. */
  ghost predicate LeavesIdentity(calls: seq<Call>, w: WorkerId) {
    forall c :: c in calls ==> c != Disconnect(w) && !(c.Register? && c.w == w)
  }

  lemma {:induction false} IdentityLasts(db: Db, calls: seq<Call>, w: WorkerId)
    requires Run(db, calls) && LeavesIdentity(calls, w) && w in db.workers
    ensures SameIdentity(db, Final(db, calls), w)
    decreases |calls|
  {
    if calls != [] {
      assert calls[0] in calls && forall c :: c in calls[1..] ==> c in calls;
      OtherRegistrationsKeepIdentity(db, calls[0], w);
      IdentityLasts(Step(db, calls[0]).0, calls[1..], w);
    }
  }

  lemma OtherRegistrationsKeepIdentity(db: Db, c: Call, w: WorkerId)
    requires w in db.workers && !(c.Register? && c.w == w) && c != Disconnect(w)
    ensures SameIdentity(db, Step(db, c).0, w)
  {
    if !c.Register? {
      OthersKeepIdentity(db, c, w);
    }
  }

  /** After a registration and any run without another one or a disconnection, exactly those requests of the worker are
      let in that carry the token of that registration and, with binding on, the certificate it was bound to, if any;
      the others change nothing. */
  lemma OnlyTheLastTokenWorks(db: Db, reg: Call, calls: seq<Call>, c: Call)
    requires reg.Register? && WellFormed(db, reg) && Step(db, reg).1.Registered?
    requires Run(Step(db, reg).0, calls) && LeavesIdentity(calls, reg.w)
    requires IsRequest(c) && c.w == reg.w
    ensures var end := Final(Step(db, reg).0, calls);
            var bound := if reg.device.bind then reg.device.presented
                         else if reg.w in db.workers then db.workers[reg.w].cert else None;
            && (Step(end, c).1 == Unauthorized <==>
                  || c.cred.token != reg.token
                  || (c.cred.device.bind && bound.Some? && c.cred.device.presented != bound))
            && (Step(end, c).1 == Unauthorized ==> Step(end, c).0 == end)
  {
    RegisterEffect(db, reg);
    IdentityLasts(Step(db, reg).0, calls, reg.w);
    RefusedIffUnauthorized(Final(Step(db, reg).0, calls), c);
  }

  // ---------------------------------------------------------------- approval

  /** None of the calls approves `w` or registers it without asking for approval. */
  ghost predicate NeverApproves(calls: seq<Call>, w: WorkerId) {
    forall c :: c in calls ==> c != Approve(w) && (c.Register? && c.w == w ==> c.gated)
  }

  ghost predicate Unapproved(db: Db, w: WorkerId) {
    && (w in db.workers ==> !db.workers[w].approved)
    && forall i :: 0 <= i < |db.grants| ==> db.grants[i].worker != w
  }

  /** Only an approval, or a registration that needs none, approves a worker; only a disconnection takes it back. */
  lemma ApprovedIff(db: Db, c: Call, w: WorkerId)
    requires w in Step(db, c).0.workers
    ensures Step(db, c).0.workers[w].approved <==>
              || (w in db.workers && (db.workers[w].approved || c == Approve(w)))
              || (c.Register? && c.w == w && !c.gated && Step(db, c).1.Registered?)
  {
  }

  lemma StaysUnapproved(db: Db, c: Call, w: WorkerId)
    requires Unapproved(db, w) && c != Approve(w) && (c.Register? && c.w == w ==> c.gated)
    ensures Unapproved(Step(db, c).0, w)
  {
    var next := Step(db, c).0;
    if w in next.workers {
      ApprovedIff(db, c, w);
    }
    OnlyPollGrants(db, c);
    if next.grants != db.grants {
      PollGrantsOldestEligible(db, c, Step(db, c).1.job);
    }
  }

  lemma {:induction false} RunStaysUnapproved(db: Db, calls: seq<Call>, w: WorkerId)
    requires Unapproved(db, w) && Run(db, calls) && NeverApproves(calls, w)
    ensures Unapproved(Final(db, calls), w)
    decreases |calls|
  {
    if calls != [] {
      assert calls[0] in calls && forall c :: c in calls[1..] ==> c in calls;
      StaysUnapproved(db, calls[0], w);
      RunStaysUnapproved(Step(db, calls[0]).0, calls[1..], w);
    }
  }

  /** In any run a worker that registers for approval and is never approved is granted no job. */
  lemma UnapprovedGetsNothing(calls: seq<Call>, w: WorkerId)
    requires Run(EMPTY_DB, calls) && NeverApproves(calls, w)
    ensures Unapproved(Final(EMPTY_DB, calls), w)
  {
    RunStaysUnapproved(EMPTY_DB, calls, w);
  }

  /** An approved worker stays approved, whatever it registers, until it is disconnected. */
  lemma {:induction false} ApprovedForLife(db: Db, calls: seq<Call>, w: WorkerId)
    requires Run(db, calls) && w in db.workers && db.workers[w].approved && Disconnect(w) !in calls
    ensures w in Final(db, calls).workers && Final(db, calls).workers[w].approved
    decreases |calls|
  {
    if calls != [] {
      assert calls[0] in calls && forall c :: c in calls[1..] ==> c in calls;
      RowSurvives(db, calls[0], w);
      ApprovedIff(db, calls[0], w);
      ApprovedForLife(Step(db, calls[0]).0, calls[1..], w);
    }
  }

  // ---------------------------------------------------------------- trust tiers

  lemma OthersKeepTier(db: Db, c: Call, w: WorkerId)
    requires w in db.workers && w in Step(db, c).0.workers && !((c.SetTier? || c.Attest?) && c.w == w)
    ensures Step(db, c).0.workers[w].tier == db.workers[w].tier
    ensures Step(db, c).0.workers[w].pinned == db.workers[w].pinned
  {
  }

  /** A tier set by IT stays until IT sets another or the worker is disconnected, whatever is attested. */
  lemma TierRule(db: Db, c: Call, w: WorkerId)
    requires w in db.workers && w in Step(db, c).0.workers
    ensures var row, now := db.workers[w], Step(db, c).0.workers[w];
            && (now.pinned <==> row.pinned || (c.SetTier? && c.w == w && c.tier in TIERS))
            && now.tier == if c.SetTier? && c.w == w && c.tier in TIERS then c.tier
                           else if c.Attest? && c.w == w && !row.pinned then c.tier
                           else row.tier
  {
    if !((c.SetTier? || c.Attest?) && c.w == w) {
      OthersKeepTier(db, c, w);
    }
  }

  lemma {:induction false} PinnedForLife(db: Db, calls: seq<Call>, w: WorkerId)
    requires Run(db, calls) && w in db.workers && db.workers[w].pinned
    requires forall c :: c in calls ==> c != Disconnect(w) && !(c.SetTier? && c.w == w)
    ensures w in Final(db, calls).workers && Final(db, calls).workers[w].tier == db.workers[w].tier
    decreases |calls|
  {
    if calls != [] {
      assert calls[0] in calls && forall c :: c in calls[1..] ==> c in calls;
      RowSurvives(db, calls[0], w);
      TierRule(db, calls[0], w);
      PinnedForLife(Step(db, calls[0]).0, calls[1..], w);
    }
  }

  /** Nobody has raised the worker above the lowest tier, and all it was granted is public. */
  ghost predicate Lowly(db: Db, w: WorkerId) {
    && (w in db.workers ==> db.workers[w].tier == "untrusted")
    && forall i :: 0 <= i < |db.grants| && db.grants[i].worker == w ==> db.grants[i].tier == "untrusted"
  }

  lemma StaysLowly(db: Db, c: Call, w: WorkerId)
    requires Lowly(db, w) && !((c.SetTier? || c.Attest?) && c.w == w)
    ensures Lowly(Step(db, c).0, w)
  {
    var next := Step(db, c).0;
    OnlyPollGrants(db, c);
    if next.grants != db.grants {
      PollGrantsOldestEligible(db, c, Step(db, c).1.job);
    }
    if w in db.workers && w in next.workers {
      TierRule(db, c, w);
    }
  }

  lemma {:induction false} RunStaysLowly(db: Db, calls: seq<Call>, w: WorkerId)
    requires Lowly(db, w) && Run(db, calls)
    requires forall c :: c in calls ==> !((c.SetTier? || c.Attest?) && c.w == w)
    ensures Lowly(Final(db, calls), w)
    decreases |calls|
  {
    if calls != [] {
      assert calls[0] in calls && forall c :: c in calls[1..] ==> c in calls;
      StaysLowly(db, calls[0], w);
      RunStaysLowly(Step(db, calls[0]).0, calls[1..], w);
    }
  }

  /** In any run a worker that neither IT nor an attestation has raised is granted public jobs only, whatever it claims
      when it registers. */
  lemma UnraisedGetsPublicJobsOnly(calls: seq<Call>, w: WorkerId, i: nat)
    requires Run(EMPTY_DB, calls) && forall c :: c in calls ==> !((c.SetTier? || c.Attest?) && c.w == w)
    requires i < |Final(EMPTY_DB, calls).grants| && Final(EMPTY_DB, calls).grants[i].worker == w
    ensures var db := Final(EMPTY_DB, calls);
            db.grants[i].job in db.jobs && db.jobs[db.grants[i].job].manifest.classification == "public"
  {
    var db := Final(EMPTY_DB, calls);
    RunStaysLowly(EMPTY_DB, calls, w);
    EveryGrantIsSafe(calls);
    var g := db.grants[i];
    assert SafeGrant(db.jobs, g);
    LowestTierIsPublic(db.jobs[g.job].manifest.classification);
  }

  lemma LowestTierIsPublic(classification: string)
    requires MayRoute(classification, "untrusted")
    ensures classification == "public"
  {
    MayRouteIffRanked(classification, "untrusted");
    IndexOfFour("untrusted", "managed", "sanctioned", "confidential_compute", "untrusted");
    IndexOfFour("public", "internal", "confidential", "restricted", classification);
  }

  // ---------------------------------------------------------------- bans

  /** The call is a wrong answer, by `w` and in time, to a challenge that has a number. */
  ghost predicate Cheats(db: Db, c: Call, w: WorkerId) {
    && c.PostResult? && c.w == w && Authorized(db, w, c.cred) && InTime(db, c) && Finished(c)
    && db.jobs[c.job].manifest.kind == "challenge"
    && !Unanswerable(db.jobs[c.job].input) && !AnswersChallenge(db.jobs[c.job].input, c.output)
  }

  /** A worker is banned exactly by a wrong answer to a challenge, and for as long as its row lives. */
  lemma BannedIff(db: Db, c: Call, w: WorkerId)
    requires w in db.workers && w in Step(db, c).0.workers
    ensures Step(db, c).0.workers[w].blacklisted <==> db.workers[w].blacklisted || Cheats(db, c, w)
  {
    if c.PostResult? && c.w == w && Authorized(db, w, c.cred) && !db.workers[w].blacklisted {
      PostBansIff(db, c);
    }
  }

  lemma PostBansIff(db: Db, c: Call)
    requires c.PostResult? && Authorized(db, c.w, c.cred) && !db.workers[c.w].blacklisted
    ensures var next := Step(db, c).0;
            c.w in next.workers && (next.workers[c.w].blacklisted <==> Cheats(db, c, c.w))
  {
    if InTime(db, c) && Finished(c) {
      VerdictInNumbers(db.jobs[c.job].input, c.output);
    }
  }

  ghost predicate NeverCheats(db: Db, calls: seq<Call>, w: WorkerId)
    requires Run(db, calls)
    decreases |calls|
  {
    calls == [] || (!Cheats(db, calls[0], w) && NeverCheats(Step(db, calls[0]).0, calls[1..], w))
  }

  ghost predicate Trusted(db: Db, w: WorkerId) {
    w in db.workers ==> !db.workers[w].blacklisted
  }

  /** In any run a worker that answers every challenge right is never banned. */
  lemma {:induction false} HonestIsNeverBanned(db: Db, calls: seq<Call>, w: WorkerId)
    requires Run(db, calls) && Trusted(db, w) && NeverCheats(db, calls, w)
    ensures Trusted(Final(db, calls), w)
    decreases |calls|
  {
    if calls != [] {
      var next := Step(db, calls[0]).0;
      if w in db.workers && w in next.workers {
        BannedIff(db, calls[0], w);
      }
      HonestIsNeverBanned(next, calls[1..], w);
    }
  }

  // ---------------------------------------------------------------- the other handlers

  /** A disconnected worker is gone, and the leases it held, and no other job, are back in the queue; what it earned
      stays. */
  lemma DisconnectEffect(db: Db, w: WorkerId)
    ensures var (next, r) := Step(db, Disconnect(w));
            && (w !in db.workers ==> next == db && r == NotFound)
            && (w in db.workers ==>
                  && r == Done && w !in next.workers && next.ledger == db.ledger && next.grants == db.grants
                  && (forall v :: v != w ==> (v in next.workers <==> v in db.workers))
                  && (forall v :: v != w && v in db.workers ==> next.workers[v] == db.workers[v])
                  && next.jobs.Keys == db.jobs.Keys
                  && forall id :: id in db.jobs ==>
                       if db.jobs[id].state == Leased && db.jobs[id].holder == Some(w)
                       then next.jobs[id] == db.jobs[id].(state := Queued, holder := None, deadline := None)
                       else next.jobs[id] == db.jobs[id])
  {
  }

  /** A submission of positive units adds one queued, never granted job with the submitted fields, and only that. */
  lemma SubmitEffect(db: Db, c: Call)
    requires c.Submit? && WellFormed(db, c)
    ensures var (next, r) := Step(db, c);
            && (c.units <= 0 ==> next == db && r == BadRequest)
            && (c.units > 0 ==>
                  && r == Submitted(c.job) && next.jobs.Keys == db.jobs.Keys + {c.job}
                  && next.workers == db.workers && next.ledger == db.ledger && next.grants == db.grants
                  && (forall id :: id in db.jobs ==> next.jobs[id] == db.jobs[id])
                  && var j := next.jobs[c.job];
                     && j.manifest == c.manifest && j.input == c.input && j.units == c.units
                     && j.workload == c.workload && j.createdAt == c.now && j.state == Queued
                     && j.holder == None && j.deadline == None && j.result == None && j.attempts == 0)
  {
  }

  /** Administration: unknown workers and tiers are refused without effect; otherwise only the one row changes. */
  lemma AdministrationEffect(db: Db, c: Call)
    requires c.Approve? || c.SetTier? || c.Attest?
    ensures var (next, r) := Step(db, c);
            && OnlyWorker(db, next, c.w) && next.workers.Keys == db.workers.Keys
            && (!c.Attest? ==> (r == NotFound <==> c.w !in db.workers))
            && (r == BadRequest <==> c.SetTier? && c.w in db.workers && c.tier !in TIERS)
            && (r == Done || r == NotFound || r == BadRequest) && (r != Done ==> next == db)
            && (c.w in db.workers ==>
                  next.workers[c.w] == db.workers[c.w].(approved := next.workers[c.w].approved,
                                                        tier := next.workers[c.w].tier,
                                                        pinned := next.workers[c.w].pinned))
  {
  }

  /** A granted poll touches the polling worker's last sign of life, and no other row. */
  lemma GrantEffect(db: Db, c: Call, id: JobId)
    requires c.Poll? && Step(db, c).1 == Assigned(id)
    ensures var next := Step(db, c).0;
            && c.w in db.workers && id in db.jobs && next.ledger == db.ledger
            && next.workers == db.workers[c.w := db.workers[c.w].(lastHeartbeat := Some(c.now))]
            && next.jobs[id] == db.jobs[id].(state := Leased, holder := Some(c.w),
                                             deadline := Some(c.leaseAt + 20_000_000),
                                             attempts := db.jobs[id].attempts + 1)
  {
    AssignedPollIsBody(db, c);
    var reaped := ReapExpired(db, c.reapAt);
    BodyGrantsOldest(reaped, c.w, db.workers[c.w], c.deferAt, c.leaseAt, c.now, id);
    LeaseFields(reaped, c.w, db.workers[c.w], id, c.leaseAt, c.now);
  }

  lemma LeaseFields(db: Db, w: WorkerId, row: Worker, id: JobId, leaseAt: Time, now: Time)
    requires id in db.jobs && w in db.workers
    ensures var next, j := LeaseTo(db, w, row, id, leaseAt, now), db.jobs[id];
            && next.ledger == db.ledger && next.workers == db.workers[w := db.workers[w].(lastHeartbeat := Some(now))]
            && next.jobs[id] == j.(state := Leased, holder := Some(w), deadline := Some(leaseAt + 20_000_000),
                                   attempts := j.attempts + 1)
  {
  }
}
