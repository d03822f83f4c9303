/** Assignment safety over whole runs, with one handler as one atomic step. */
module Assignment {
  import opened Base
  import opened Contracts
  import opened Scheduler
  import opened Protocol
  import opened Lease
  import opened Credits

  /** The row of an approved, trusted, job-taking worker. */
  predicate GoodRow(row: Worker) {
    row.approved && !row.blacklisted && !row.cap.measurementOnly
  }

  /** The lease went to an approved, trusted, job-taking worker that fits the job and is cleared for it. */
  ghost predicate SafeGrant(jobs: Jobs, g: Grant) {
    && g.job in jobs && GoodRow(g.row)
    && Fits(jobs[g.job], g.row, g.tier)
  }

  ghost predicate SafeGrants(db: Db) {
    forall i :: 0 <= i < |db.grants| ==> SafeGrant(db.jobs, db.grants[i])
  }

  /** Whoever holds a lease is registered and not blacklisted. */
  ghost predicate TrustedHolders(db: Db) {
    forall id :: id in db.jobs && db.jobs[id].state == Leased && db.jobs[id].holder.Some? ==>
      db.jobs[id].holder.value in db.workers && !db.workers[db.jobs[id].holder.value].blacklisted
  }

  ghost predicate AtomicInv(db: Db) {
    Inv(db) && SafeGrants(db) && TrustedHolders(db)
  }

  /** The row and the tier on which a poll decides are those in the table at that moment; the job leased is
      the oldest eligible one, and nothing else changes but the reaped leases. */
  lemma PollGrantsOldestEligible(db: Db, c: Call, id: JobId)
    requires c.Poll? && Step(db, c).1 == Assigned(id)
    ensures var next, reaped := Step(db, c).0, ReapExpired(db, c.reapAt);
            && Authorized(db, c.w, c.cred)
            && var row := db.workers[c.w];
            && GoodRow(row)
            && IsOldest(reaped.jobs, Eligible(reaped, c.w, row), id)
            && Fits(db.jobs[id], row, TierOf(db, c.w))
            && next.grants == db.grants + [Grant(c.w, row, TierOf(db, c.w), id)]
            && next.jobs[id].state == Leased && next.jobs[id].holder == Some(c.w)
            && next.jobs[id].deadline == Some(c.leaseAt + LEASE)
            && next.jobs == reaped.jobs[id := next.jobs[id]]
  {
    var reaped := ReapExpired(db, c.reapAt);
    AssignedPollIsBody(db, c);
    BodyGrantsOldest(reaped, c.w, db.workers[c.w], c.deferAt, c.leaseAt, c.now, id);
    assert SameSubmissionReaped(db, reaped, id);
  }

  ghost predicate SameSubmissionReaped(db: Db, reaped: Db, id: JobId) {
    id in db.jobs && id in reaped.jobs && SameSubmission(db.jobs[id], reaped.jobs[id])
  }

  /** Only a worker that may take jobs reaches the locked part. */
  lemma AssignedPollIsBody(db: Db, c: Call)
    requires c.Poll? && Step(db, c).1.Assigned?
    ensures Authorized(db, c.w, c.cred) && GoodRow(db.workers[c.w])
    ensures Step(db, c) == PollBody(ReapExpired(db, c.reapAt), c.w, db.workers[c.w], c.deferAt, c.leaseAt, c.now)
  {
  }

  lemma BodyGrantsOldest(db: Db, w: WorkerId, row: Worker, deferAt: Time, leaseAt: Time, now: Time, id: JobId)
    requires PollBody(db, w, row, deferAt, leaseAt, now).1 == Assigned(id)
    ensures IsOldest(db.jobs, Eligible(db, w, row), id) && id in db.jobs && Fits(db.jobs[id], row, TierOf(db, w))
    ensures PollBody(db, w, row, deferAt, leaseAt, now).0 == LeaseTo(db, w, row, id, leaseAt, now)
  {
  }

  /** Nothing but a successful poll grants a lease. */
  lemma OnlyPollGrants(db: Db, c: Call)
    ensures Step(db, c).0.grants == db.grants || (c.Poll? && Step(db, c).1.Assigned?)
  {
  }

  lemma SafeGrantsKept(db: Db, next: Db)
    requires SafeGrants(db) && Evolves(db, next)
    requires next.grants == db.grants
             || (next.grants[..|db.grants|] == db.grants && |next.grants| == |db.grants| + 1
                 && SafeGrant(next.jobs, next.grants[|db.grants|]))
    ensures SafeGrants(next)
  {
    forall i | 0 <= i < |next.grants|
      ensures SafeGrant(next.jobs, next.grants[i])
    {
      if i < |db.grants| {
        assert next.grants[i] == db.grants[i] && SafeGrant(db.jobs, db.grants[i]);
        assert SameSubmission(db.jobs[db.grants[i].job], next.jobs[db.grants[i].job]);
      }
    }
  }

  lemma StepGrantsSafely(db: Db, c: Call)
    requires Inv(db) && SafeGrants(db) && WellFormed(db, c)
    ensures SafeGrants(Step(db, c).0)
  {
    var next := Step(db, c).0;
    StepKeeps(db, c);
    OnlyPollGrants(db, c);
    if next.grants != db.grants {
      var id := Step(db, c).1.job;
      PollGrantsOldestEligible(db, c, id);
      assert SameSubmission(db.jobs[id], next.jobs[id]);
      assert next.grants[..|db.grants|] == db.grants;
    }
    SafeGrantsKept(db, next);
  }

  /** Where a lease of the next state comes from. */
  ghost predicate LeaseOrigin(db: Db, c: Call, id: JobId, next: Db)
    requires id in next.jobs
  {
    || (id in db.jobs && db.jobs[id].state == Leased && db.jobs[id].holder == next.jobs[id].holder
        && (next.jobs[id].deadline == db.jobs[id].deadline
            || (c.Heartbeat? && next.jobs[id].deadline == Some(c.leaseAt + LEASE))))
    || (id in db.jobs && c.Poll? && Step(db, c).1 == Assigned(id) && next.jobs[id].holder == Some(c.w)
        && next.jobs[id].deadline == Some(c.leaseAt + LEASE))
  }

  /** It was running before, for the same holder, or this very poll granted it. */
  lemma LeasesHaveOrigins(db: Db, c: Call, id: JobId)
    requires WellFormed(db, c) && id in Step(db, c).0.jobs && Step(db, c).0.jobs[id].state == Leased
    ensures LeaseOrigin(db, c, id, Step(db, c).0)
  {
    if c.Poll? {
      PollOrigin(db, c, id);
    }
  }

  lemma PollOrigin(db: Db, c: Call, id: JobId)
    requires c.Poll? && id in Step(db, c).0.jobs && Step(db, c).0.jobs[id].state == Leased
    ensures LeaseOrigin(db, c, id, Step(db, c).0)
  {
    if Step(db, c).1.Assigned? {
      PollGrantsOldestEligible(db, c, Step(db, c).1.job);
    } else {
      assert Step(db, c).0.jobs == db.jobs || Step(db, c).0 == ReapExpired(db, c.reapAt);
    }
  }

  /** Only a failed challenge blacklists, and only the poster; only a disconnect removes a row. */
  lemma RowSurvives(db: Db, c: Call, w: WorkerId)
    requires w in db.workers && c != Disconnect(w)
    ensures w in Step(db, c).0.workers
    ensures db.workers[w].blacklisted ==> Step(db, c).0.workers[w].blacklisted
    ensures Step(db, c).0.workers[w].blacklisted && !c.PostResult? ==> db.workers[w].blacklisted
  {
  }

  /** A worker can only lose its row, or be blacklisted, together with its leases. */
  lemma StepKeepsHoldersTrusted(db: Db, c: Call)
    requires Inv(db) && TrustedHolders(db) && WellFormed(db, c)
    ensures TrustedHolders(Step(db, c).0)
  {
    var next := Step(db, c).0;
    StepKeeps(db, c);
    forall id | id in next.jobs && next.jobs[id].state == Leased && next.jobs[id].holder.Some?
      ensures next.jobs[id].holder.value in next.workers && !next.workers[next.jobs[id].holder.value].blacklisted
    {
      LeasesHaveOrigins(db, c, id);
      if c.Poll? && Step(db, c).1 == Assigned(id) {
        PollGrantsOldestEligible(db, c, id);
        RowSurvives(db, c, c.w);
      } else {
        TrustKept(db, c, next.jobs[id].holder.value, id);
      }
    }
  }

  lemma TrustKept(db: Db, c: Call, w: WorkerId, id: JobId)
    requires Inv(db) && WellFormed(db, c) && w in db.workers && !db.workers[w].blacklisted
    requires id in db.jobs && db.jobs[id].state == Leased && db.jobs[id].holder == Some(w)
    requires id in Step(db, c).0.jobs && Step(db, c).0.jobs[id].state == Leased
    ensures w in Step(db, c).0.workers && !Step(db, c).0.workers[w].blacklisted
  {
    if c.PostResult? {
      assert c.job in db.jobs && SameHolder(db.jobs[c.job], db.jobs[id]) ==> c.job == id;
    } else if c.Disconnect? {
      assert c.w == w ==> id in HeldBy(db.jobs, w);
    } else {
      RowSurvives(db, c, w);
    }
  }

  lemma StepKeepsAtomicInv(db: Db, c: Call)
    requires AtomicInv(db) && WellFormed(db, c)
    ensures AtomicInv(Step(db, c).0)
  {
    StepKeeps(db, c);
    StepGrantsSafely(db, c);
    StepKeepsHoldersTrusted(db, c);
  }

  // ---------------------------------------------------------------- runs

  ghost predicate Run(db: Db, calls: seq<Call>)
    decreases |calls|
  {
    calls == [] || (WellFormed(db, calls[0]) && Run(Step(db, calls[0]).0, calls[1..]))
  }

  ghost function Final(db: Db, calls: seq<Call>): Db
    requires Run(db, calls)
    decreases |calls|
  {
    if calls == [] then db else Final(Step(db, calls[0]).0, calls[1..])
  }

  lemma {:induction false} RunKeepsAtomicInv(db: Db, calls: seq<Call>)
    requires AtomicInv(db) && Run(db, calls)
    ensures AtomicInv(Final(db, calls)) && Evolves(db, Final(db, calls))
    decreases |calls|
  {
    if calls != [] {
      var next := Step(db, calls[0]).0;
      StepKeeps(db, calls[0]);
      StepKeepsAtomicInv(db, calls[0]);
      RunKeepsAtomicInv(next, calls[1..]);
      EvolvesTransitive(db, next, Final(db, calls));
    }
  }

  /** Over any run from an empty database: every lease ever granted was safe, and nobody blacklisted holds one. */
  lemma EveryGrantIsSafe(calls: seq<Call>)
    requires Run(EMPTY_DB, calls)
    ensures AtomicInv(Final(EMPTY_DB, calls))
  {
    RunKeepsAtomicInv(EMPTY_DB, calls);
  }

  /** Every credit ever paid goes to a worker that was safely granted the very job it is paid for. */
  lemma CreditsFollowSafeGrants(db: Db, i: nat)
    requires AtomicInv(db) && i < |db.ledger|
    ensures exists g :: g in db.grants && g.worker == db.ledger[i].worker && g.job == db.ledger[i].job
                        && SafeGrant(db.jobs, g)
  {
    var row := db.ledger[i];
    assert Pays(db.jobs, row);
    assert WasGranted(db.grants, row.worker, row.job);
    var k :| 0 <= k < |db.grants| && db.grants[k].worker == row.worker && db.grants[k].job == row.job;
    assert SafeGrant(db.jobs, db.grants[k]) && db.grants[k] in db.grants;
  }

  ghost predicate Banned(db: Db, w: WorkerId) {
    w in db.workers && db.workers[w].blacklisted
  }

  lemma BannedHoldsNothing(db: Db, w: WorkerId)
    requires TrustedHolders(db) && Banned(db, w)
    ensures HeldBy(db.jobs, w) == {}
  {
    assert forall id :: id !in HeldBy(db.jobs, w);
  }

  /** Only an accepted result pays, and it pays the poster, who is registered and not blacklisted. */
  lemma OnlyResultsPay(db: Db, c: Call)
    ensures var next := Step(db, c).0;
            || next.ledger == db.ledger
            || (c.PostResult? && Authorized(db, c.w, c.cred) && !db.workers[c.w].blacklisted && c.job in db.jobs
                && next.ledger == db.ledger + [LedgerRow(c.w, c.job, Charge(db.jobs[c.job]))])
  {
  }

  lemma StepKeepsBanned(db: Db, c: Call, w: WorkerId)
    requires Banned(db, w) && c != Disconnect(w)
    ensures Banned(Step(db, c).0, w) && CreditOf(Step(db, c).0.ledger, w) == CreditOf(db.ledger, w)
  {
    RowSurvives(db, c, w);
    OnlyResultsPay(db, c);
    if Step(db, c).0.ledger != db.ledger {
      assert Step(db, c).0.ledger[..|db.ledger|] == db.ledger;
    }
  }

  /** A blacklisted worker holds no lease and earns nothing, for as long as its row lives. */
  lemma {:induction false} BannedEarnsNothing(db: Db, calls: seq<Call>, w: WorkerId)
    requires AtomicInv(db) && Run(db, calls) && Banned(db, w) && Disconnect(w) !in calls
    ensures Banned(Final(db, calls), w) && HeldBy(Final(db, calls).jobs, w) == {}
    ensures CreditOf(Final(db, calls).ledger, w) == CreditOf(db.ledger, w)
    decreases |calls|
  {
    if calls == [] {
      BannedHoldsNothing(db, w);
    } else {
      assert calls[0] in calls;
      StepKeepsBanned(db, calls[0], w);
      StepKeepsAtomicInv(db, calls[0]);
      BannedEarnsNothing(Step(db, calls[0]).0, calls[1..], w);
    }
  }

  // ---------------------------------------------------------------- device binding

  ghost predicate SameIdentity(db: Db, next: Db, w: WorkerId) {
    && w in db.workers && w in next.workers
    && next.workers[w].cert == db.workers[w].cert && next.workers[w].token == db.workers[w].token
  }

  /** Only registration and disconnection touch a worker's token or certificate. */
  lemma OthersKeepIdentity(db: Db, c: Call, w: WorkerId)
    requires w in db.workers && !c.Register? && c != Disconnect(w)
    ensures SameIdentity(db, Step(db, c).0, w)
  {
  }

  /** With binding on, a bound row keeps its certificate, and its token except to a registration from that very
      device. */
  lemma StepKeepsBinding(db: Db, c: Call, w: WorkerId)
    requires w in db.workers && db.workers[w].cert.Some? && c != Disconnect(w) && (c.Register? ==> c.device.bind)
    ensures var next := Step(db, c).0;
            && w in next.workers && next.workers[w].cert == db.workers[w].cert
            && (next.workers[w].token != db.workers[w].token ==>
                  c.Register? && c.w == w && c.device.presented == db.workers[w].cert)
  {
    if !c.Register? {
      OthersKeepIdentity(db, c, w);
    }
  }

  /** ... for as long as the row lives. */
  lemma {:induction false} BoundForLife(db: Db, calls: seq<Call>, w: WorkerId)
    requires Run(db, calls) && w in db.workers && db.workers[w].cert.Some? && Disconnect(w) !in calls
    requires forall c :: c in calls && c.Register? ==> c.device.bind
    ensures w in Final(db, calls).workers && Final(db, calls).workers[w].cert == db.workers[w].cert
    decreases |calls|
  {
    if calls != [] {
      assert calls[0] in calls;
      StepKeepsBinding(db, calls[0], w);
      BoundForLife(Step(db, calls[0]).0, calls[1..], w);
    }
  }

  // ---------------------------------------------------------------- the finer grain

  /** The step is the locked part of a poll, and leases a job. */
  ghost predicate GrantsLate(db: Db, f: FineCall) {
    f.LockedPoll? && PollBody(db, f.w, f.row, f.deferAt, f.leaseAt, f.at).1.Assigned?
  }

  predicate InGoodStanding(db: Db, w: WorkerId) {
    w in db.workers && !db.workers[w].blacklisted
  }

  /** What the locked part would have to check again before it leases: the row it read is that of an approved,
      trusted, job-taking worker, and the worker is still registered and not blacklisted. */
  ghost predicate Rechecked(db: Db, f: FineCall) {
    GrantsLate(db, f) ==> GoodRow(f.row) && InGoodStanding(db, f.w)
  }

  ghost predicate LeasesLate(db: Db, f: FineCall, id: JobId)
    requires f.LockedPoll?
  {
    && id in Eligible(db, f.w, f.row)
    && PollBody(db, f.w, f.row, f.deferAt, f.leaseAt, f.at).0 == LeaseTo(db, f.w, f.row, id, f.leaseAt, f.at)
  }

  lemma GrantsOfFineStep(db: Db, f: FineCall)
    requires FineWellFormed(db, f) && !f.Whole?
    ensures !GrantsLate(db, f) ==> FineStep(db, f).grants == db.grants
    ensures GrantsLate(db, f) ==> exists id :: LeasesLate(db, f, id)
  {
    if GrantsLate(db, f) {
      assert LeasesLate(db, f, Oldest(db.jobs, Eligible(db, f.w, f.row)));
    }
  }

  lemma FineStepTrusts(db: Db, f: FineCall)
    requires AtomicInv(db) && FineWellFormed(db, f) && !f.Whole? && !GrantsLate(db, f)
    ensures TrustedHolders(FineStep(db, f))
  {
    match f {
      case Reap(now) =>
      case LockedPoll(w, row, deferAt, leaseAt, at) =>
      case LockedHeartbeat(cap, c) => BeatTrusts(db, cap, c);
      case LockedResult(c) => ResultTrusts(db, c);
      case LockedApprove(w) =>
      case LockedDisconnect(w) => DisconnectTrusts(db, w);
    }
  }

  lemma BeatTrusts(db: Db, cap: Capability, c: Call)
    requires AtomicInv(db) && c.Heartbeat?
    ensures TrustedHolders(HeartbeatBody(db, cap, c))
  {
  }

  lemma ResultTrusts(db: Db, c: Call)
    requires AtomicInv(db) && c.PostResult?
    ensures TrustedHolders(ResultBody(db, c).0)
  {
    OutcomeTrusts(db, c.w, c.job, c.output, ResultBody(db, c).0);
  }

  lemma OutcomeTrusts(db: Db, w: WorkerId, id: JobId, output: Output, next: Db)
    requires AtomicInv(db)
    requires next == db
             || (Holds(db.jobs, w, id) && (next == RequeueOne(db, id) || next == RequeueOne(Blacklist(db, w), id)
                                           || next == CompleteJob(db, w, id, output)))
    ensures TrustedHolders(next)
  {
    if next == RequeueOne(db, id) {
      FewerLeases(db, next);
    } else if next == RequeueOne(Blacklist(db, w), id) {
      BlacklistTrusts(db, w, id);
    } else if next != db {
      FewerLeases(db, next);
    }
  }

  /** Nobody gains a lease, and no row changes. */
  lemma FewerLeases(db: Db, next: Db)
    requires TrustedHolders(db) && next.workers == db.workers
    requires forall id :: id in next.jobs && next.jobs[id].state == Leased ==>
               id in db.jobs && next.jobs[id] == db.jobs[id]
    ensures TrustedHolders(next)
  {
  }

  /** Whoever is blacklisted loses the one lease it holds. */
  lemma BlacklistTrusts(db: Db, w: WorkerId, id: JobId)
    requires TrustedHolders(db) && Exclusive(db.jobs)
    requires id in db.jobs && db.jobs[id].state == Leased && db.jobs[id].holder == Some(w)
    ensures TrustedHolders(RequeueOne(Blacklist(db, w), id))
  {
    forall k | k in db.jobs && k != id && db.jobs[k].state == Leased
      ensures db.jobs[k].holder != Some(w)
    {
      assert !SameHolder(db.jobs[k], db.jobs[id]);
    }
  }

  lemma DisconnectTrusts(db: Db, w: WorkerId)
    requires AtomicInv(db)
    ensures TrustedHolders(DisconnectBody(db, w))
  {
    var next := DisconnectBody(db, w);
    forall id | id in next.jobs && next.jobs[id].state == Leased && next.jobs[id].holder.Some?
      ensures next.jobs[id].holder.value in next.workers && !next.workers[next.jobs[id].holder.value].blacklisted
    {
      assert id !in HeldBy(db.jobs, w) && next.jobs[id] == db.jobs[id];
    }
  }

  lemma LateGrantIsSafeIff(db: Db, w: WorkerId, row: Worker, id: JobId, leaseAt: Time, at: Time)
    requires SafeGrants(db) && id in Eligible(db, w, row)
    ensures SafeGrants(LeaseTo(db, w, row, id, leaseAt, at)) <==> GoodRow(row)
  {
    var next := LeaseTo(db, w, row, id, leaseAt, at);
    forall i | 0 <= i < |db.grants|
      ensures SafeGrant(next.jobs, next.grants[i])
    {
      assert next.grants[i] == db.grants[i] && SafeGrant(db.jobs, db.grants[i]);
    }
    assert next.grants[|db.grants|] == Grant(w, row, TierOf(db, w), id);
    assert SafeGrant(next.jobs, next.grants[|db.grants|]) <==> GoodRow(row);
  }

  lemma LateHolderIsTrustedIff(db: Db, w: WorkerId, row: Worker, id: JobId, leaseAt: Time, at: Time)
    requires TrustedHolders(db) && id in db.jobs
    ensures TrustedHolders(LeaseTo(db, w, row, id, leaseAt, at)) <==> InGoodStanding(db, w)
  {
    var next := LeaseTo(db, w, row, id, leaseAt, at);
    assert next.jobs[id].state == Leased && next.jobs[id].holder == Some(w);
  }

  /** The finer grain keeps the guarantees of the coarse one exactly when every late lease checks the worker again. */
  lemma FineStepKeepsTrustIff(db: Db, f: FineCall)
    requires AtomicInv(db) && FineWellFormed(db, f)
    ensures AtomicInv(FineStep(db, f)) <==> Rechecked(db, f)
  {
    FineStepKeeps(db, f);
    if f.Whole? {
      StepKeepsAtomicInv(db, f.call);
    } else {
      GrantsOfFineStep(db, f);
      if GrantsLate(db, f) {
        var id :| LeasesLate(db, f, id);
        LateGrantIsSafeIff(db, f.w, f.row, id, f.leaseAt, f.at);
        LateHolderIsTrustedIff(db, f.w, f.row, id, f.leaseAt, f.at);
      } else {
        FineStepTrusts(db, f);
        SafeGrantsKept(db, FineStep(db, f));
      }
    }
  }

  /** The guarantees hold in every state along the run. */
  ghost predicate AlwaysTrusted(db: Db, calls: seq<FineCall>)
    requires FineRun(db, calls)
    decreases |calls|
  {
    AtomicInv(db) && (calls != [] ==> AlwaysTrusted(FineStep(db, calls[0]), calls[1..]))
  }

  ghost predicate AlwaysRechecked(db: Db, calls: seq<FineCall>)
    requires FineRun(db, calls)
    decreases |calls|
  {
    calls != [] ==> Rechecked(db, calls[0]) && AlwaysRechecked(FineStep(db, calls[0]), calls[1..])
  }

  lemma {:induction false} RunIsTrustedIff(db: Db, calls: seq<FineCall>)
    requires AtomicInv(db) && FineRun(db, calls)
    ensures AlwaysTrusted(db, calls) <==> AlwaysRechecked(db, calls)
    decreases |calls|
  {
    if calls != [] {
      FineStepKeepsTrustIff(db, calls[0]);
      if Rechecked(db, calls[0]) {
        RunIsTrustedIff(FineStep(db, calls[0]), calls[1..]);
      } else {
        assert !AtomicInv(FineStep(db, calls[0]));
      }
    }
  }

  /** Over any run of the finer grain: safe grants and trusted holders throughout, if and only if every late lease
      was checked again. */
  lemma FineRunIsTrustedIff(calls: seq<FineCall>)
    requires FineRun(EMPTY_DB, calls)
    ensures AlwaysTrusted(EMPTY_DB, calls) <==> AlwaysRechecked(EMPTY_DB, calls)
  {
    RunIsTrustedIff(EMPTY_DB, calls);
  }

  // ---------------------------------------------------------------- a run that is not

  const PLAIN := Capability(false, 1, 1.0, None, false, None, {})
  const OWNER := Credential("t", Device(false, None))
  const PROBE := Manifest("challenge", Requires(false, None, None, {}, 1), "public")

  /** The worker row after registration, and after the poll. */
  function Registrant(beat: Time): Worker {
    Worker("t", PLAIN, Some(1.0), None, None, true, false, DEFAULT_TRUST_TIER, false, Some(beat), None)
  }

  function ProbeJob(state: JobState, holder: Option<WorkerId>, deadline: Option<Time>, attempts: nat): Job {
    Job(PROBE, Challenge(IntNumber(2)), 1, None, 0, state, holder, deadline, None, attempts)
  }

  /** The database with one worker and its one challenge. */
  function Scene(row: Worker, j: Job, grants: seq<Grant>): Db {
    Db(map["w" := row], map[0 := j], [], grants)
  }

  /** An old enough challenge, alone in the queue, goes to whoever polls with a row that fits. */
  lemma PollOfScene(row: Worker, current: Worker, attempts: nat, grants: seq<Grant>, at: Time)
    requires at >= GRACE && row.cap == PLAIN && row.freeRam == Some(1.0) && current.tier == DEFAULT_TRUST_TIER
    ensures PollBody(Scene(current, ProbeJob(Queued, None, None, attempts), grants), "w", row, at, at, at)
         == (Scene(current.(lastHeartbeat := Some(at)), ProbeJob(Leased, Some("w"), Some(at + LEASE), attempts + 1),
                   grants + [Grant("w", row, DEFAULT_TRUST_TIER, 0)]), Assigned(0))
  {
    var db := Scene(current, ProbeJob(Queued, None, None, attempts), grants);
    MayRouteIffRanked("public", DEFAULT_TRUST_TIER);
    assert Fits(db.jobs[0], row, TierOf(db, "w"));
    assert Eligible(db, "w", row) == {0} && HeldBy(db.jobs, "w") == {};
    assert Oldest(db.jobs, Eligible(db, "w", row)) == 0;
    SceneLease(row, current, attempts, grants, at);
  }

  lemma SceneLease(row: Worker, current: Worker, attempts: nat, grants: seq<Grant>, at: Time)
    requires current.tier == DEFAULT_TRUST_TIER
    ensures LeaseTo(Scene(current, ProbeJob(Queued, None, None, attempts), grants), "w", row, 0, at, at)
         == Scene(current.(lastHeartbeat := Some(at)), ProbeJob(Leased, Some("w"), Some(at + LEASE), attempts + 1),
                  grants + [Grant("w", row, DEFAULT_TRUST_TIER, 0)])
  {
    var j := ProbeJob(Leased, Some("w"), Some(at + LEASE), attempts + 1);
    assert map[0 := ProbeJob(Queued, None, None, attempts)][0 := j] == map[0 := j];
    var beaten := current.(lastHeartbeat := Some(at));
    assert map["w" := current]["w" := beaten] == map["w" := beaten];
  }

  lemma PollStep(beat: Time, at: Time)
    requires at >= GRACE
    ensures Step(Scene(Registrant(beat), ProbeJob(Queued, None, None, 0), []), Poll("w", OWNER, at, at, at, at)).0
         == Scene(Registrant(at), ProbeJob(Leased, Some("w"), Some(at + LEASE), 1),
                  [Grant("w", Registrant(beat), DEFAULT_TRUST_TIER, 0)])
  {
    var db := Scene(Registrant(beat), ProbeJob(Queued, None, None, 0), []);
    assert ReapExpired(db, at).jobs == db.jobs;
    PollOfScene(Registrant(beat), Registrant(beat), 0, [], at);
  }

  lemma WrongAnswerStep(beat: Time, deadline: Time, grants: seq<Grant>, now: Time)
    requires now < deadline
    ensures Step(Scene(Registrant(beat), ProbeJob(Leased, Some("w"), Some(deadline), 1), grants),
                 PostResult("w", OWNER, 0, DoneStatus, Answer(Some(0)), 0, true, now)).0
         == Scene(Registrant(beat).(blacklisted := true), ProbeJob(Queued, None, None, 1), grants)
  {
    var db := Scene(Registrant(beat), ProbeJob(Leased, Some("w"), Some(deadline), 1), grants);
    assert ChallengeVerdict(db.jobs[0].input, Answer(Some(0))) == Wrong;
    assert RequeueOne(Blacklist(db, "w"), 0).jobs == map[0 := ProbeJob(Queued, None, None, 1)];
  }

  lemma OneCall(db: Db, f: FineCall, rest: seq<FineCall>)
    requires FineWellFormed(db, f) && FineRun(FineStep(db, f), rest)
    ensures FineRun(db, [f] + rest) && FineFinal(db, [f] + rest) == FineFinal(FineStep(db, f), rest)
  {
    assert ([f] + rest)[1..] == rest;
  }

  /** The first three calls of the run: register, submit a challenge, poll. */
  const HONEST_START: seq<FineCall> := [
    Whole(Register("w", PLAIN, "t", false, Device(false, None), 0)),
    Whole(Submit(0, PROBE, Challenge(IntNumber(2)), 1, None, 0)),
    Whole(Poll("w", OWNER, 2_000_000, 2_000_000, 2_000_000, 2_000_000))]

  lemma StartOfRun()
    ensures FineRun(EMPTY_DB, HONEST_START)
    ensures FineFinal(EMPTY_DB, HONEST_START)
         == Scene(Registrant(2_000_000), ProbeJob(Leased, Some("w"), Some(22_000_000), 1),
                  [Grant("w", Registrant(0), DEFAULT_TRUST_TIER, 0)])
  {
    var c1, c2, c3 := HONEST_START[0], HONEST_START[1], HONEST_START[2];
    var db1 := Db(map["w" := Registrant(0)], map[], [], []);
    var db2 := Scene(Registrant(0), ProbeJob(Queued, None, None, 0), []);
    assert FineStep(EMPTY_DB, c1) == db1;
    assert FineStep(db1, c2) == db2;
    PollStep(0, 2_000_000);
    OneCall(db2, c3, []);
    OneCall(db1, c2, [c3] + []);
    OneCall(EMPTY_DB, c1, [c2] + ([c3] + []));
    assert [c1] + ([c2] + ([c3] + [])) == HONEST_START;
  }

  /** In the finer grain the guarantee can be lost: the row that this poll reads is its own worker's, approved and
      trusted; before the poll gets the lock, the worker's wrong answer to the challenge blacklists it; and then the
      poll leases the challenge to it again. */
  lemma StaleRowLeasesToBanned() returns (calls: seq<FineCall>)
    ensures |calls| == 5 && calls[..3] == HONEST_START && calls[3].Whole? && calls[4].LockedPoll?
    ensures FineRun(EMPTY_DB, calls) && FineRun(EMPTY_DB, calls[..3])
    ensures var before := FineFinal(EMPTY_DB, calls[..3]);
            calls[4].w in before.workers && calls[4].row == before.workers[calls[4].w]
            && calls[4].row.approved && !calls[4].row.blacklisted
    ensures var end := FineFinal(EMPTY_DB, calls);
            Banned(end, calls[4].w) && HeldBy(end.jobs, calls[4].w) != {} && !AtomicInv(end)
  {
    var wrong := Whole(PostResult("w", OWNER, 0, DoneStatus, Answer(Some(0)), 0, true, 3_000_000));
    var late := LockedPoll("w", Registrant(2_000_000), 4_000_000, 4_000_000, 4_000_000);
    StartOfRun();
    var grants := [Grant("w", Registrant(0), DEFAULT_TRUST_TIER, 0)];
    WrongAnswerStep(2_000_000, 22_000_000, grants, 3_000_000);
    var banned := Registrant(2_000_000).(blacklisted := true);
    PollOfScene(Registrant(2_000_000), banned, 1, grants, 4_000_000);
    var db4 := Scene(banned, ProbeJob(Queued, None, None, 1), grants);
    OneCall(db4, late, []);
    OneCall(FineFinal(EMPTY_DB, HONEST_START), wrong, [late] + []);
    FineRunConcat(EMPTY_DB, HONEST_START, [wrong] + ([late] + []));
    calls := HONEST_START + ([wrong] + ([late] + []));
    assert calls[..3] == HONEST_START;
    assert 0 in HeldBy(FineFinal(EMPTY_DB, calls).jobs, "w");
  }

  lemma {:induction false} FineRunConcat(db: Db, a: seq<FineCall>, b: seq<FineCall>)
    requires FineRun(db, a) && FineRun(FineFinal(db, a), b)
    ensures FineRun(db, a + b) && FineFinal(db, a + b) == FineFinal(FineFinal(db, a), b)
    decreases |a|
  {
    if a == [] {
      assert a + b == b;
    } else {
      assert (a + b)[0] == a[0] && (a + b)[1..] == a[1..] + b;
      FineRunConcat(FineStep(db, a[0]), a[1..], b);
    }
  }
}
