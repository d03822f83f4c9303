/** Bounded recovery: with a clock that never goes back, a poll cannot pass over an old or abandoned job. */
module Recovery {
  import opened Base
  import opened Contracts
  import opened Scheduler
  import opened Protocol
  import opened Lease
  import opened Assignment

  /** The clock readings of one call, in the order it takes them. */
  function Times(c: Call): seq<Time> {
    match c
    case Register(_, _, _, _, _, now) => [now]
    case Submit(_, _, _, _, _, now) => [now]
    case Poll(_, _, reapAt, deferAt, leaseAt, now) => [reapAt, deferAt, leaseAt, now]
    case Heartbeat(_, _, _, _, _, _, now, leaseAt) => [now, leaseAt]
    case PostResult(_, _, _, _, _, _, _, now) => [now]
    case _ => []
  }

  ghost predicate Ticks(clock: Time, c: Call) {
    var t := Times(c);
    (forall i :: 0 <= i < |t| ==> clock <= t[i]) && forall i, k :: 0 <= i < k < |t| ==> t[i] <= t[k]
  }

  function ClockAfter(clock: Time, c: Call): Time {
    if Times(c) == [] then clock else Times(c)[|Times(c)| - 1]
  }

  /** Jobs were created in the past, and a lease runs until at least 20 s after its job's creation. */
  ghost predicate Clocked(db: Db, clock: Time) {
    forall id :: id in db.jobs ==>
      && db.jobs[id].createdAt <= clock
      && (db.jobs[id].state == Leased && db.jobs[id].deadline.Some? ==>
            db.jobs[id].createdAt + LEASE <= db.jobs[id].deadline.value)
  }

  lemma StepKeepsClocked(db: Db, c: Call, clock: Time)
    requires Inv(db) && WellFormed(db, c) && Clocked(db, clock) && Ticks(clock, c)
    ensures clock <= ClockAfter(clock, c) && Clocked(Step(db, c).0, ClockAfter(clock, c))
  {
    var next := Step(db, c).0;
    StepKeeps(db, c);
    forall id | id in next.jobs
      ensures next.jobs[id].createdAt <= ClockAfter(clock, c)
      ensures next.jobs[id].state == Leased && next.jobs[id].deadline.Some? ==>
                next.jobs[id].createdAt + LEASE <= next.jobs[id].deadline.value
    {
      if id in db.jobs {
        assert SameSubmission(db.jobs[id], next.jobs[id]);
        if next.jobs[id].state == Leased {
          LeasesHaveOrigins(db, c, id);
          assert c.Heartbeat? ==> clock <= Times(c)[1] == c.leaseAt;
          assert c.Poll? ==> clock <= Times(c)[2] == c.leaseAt;
        }
      } else {
        OnlySubmitAdds(db, c, id);
      }
    }
  }

  lemma OnlySubmitAdds(db: Db, c: Call, id: JobId)
    requires id !in db.jobs && id in Step(db, c).0.jobs
    ensures c.Submit? && Step(db, c).0.jobs[id].createdAt == c.now && Step(db, c).0.jobs[id].state == Queued
  {
  }

  /** A run whose clock never goes back. */
  ghost predicate TimedRun(db: Db, clock: Time, calls: seq<Call>)
    decreases |calls|
  {
    calls == [] ||
    (WellFormed(db, calls[0]) && Ticks(clock, calls[0])
     && TimedRun(Step(db, calls[0]).0, ClockAfter(clock, calls[0]), calls[1..]))
  }

  ghost function TimedFinal(db: Db, clock: Time, calls: seq<Call>): (Db, Time)
    requires TimedRun(db, clock, calls)
    decreases |calls|
  {
    if calls == [] then (db, clock) else TimedFinal(Step(db, calls[0]).0, ClockAfter(clock, calls[0]), calls[1..])
  }

  lemma {:induction false} TimedRunKeeps(db: Db, clock: Time, calls: seq<Call>)
    requires AtomicInv(db) && Clocked(db, clock) && TimedRun(db, clock, calls)
    ensures var (end, later) := TimedFinal(db, clock, calls); AtomicInv(end) && Clocked(end, later)
    decreases |calls|
  {
    if calls != [] {
      StepKeepsAtomicInv(db, calls[0]);
      StepKeepsClocked(db, calls[0], clock);
      TimedRunKeeps(Step(db, calls[0]).0, ClockAfter(clock, calls[0]), calls[1..]);
    }
  }

  /** A job that is waiting long enough, or whose lease has run out, when the poll looks at it. */
  ghost predicate Overdue(j: Job, c: Call)
    requires c.Poll?
  {
    || (j.state == Queued && c.deferAt - j.createdAt >= GRACE)
    || (j.state == Leased && j.deadline.Some? && j.deadline.value < c.reapAt)
  }

  /** The worker takes jobs and holds no lease that is still running. */
  ghost predicate ReadyToWork(db: Db, c: Call)
    requires c.Poll?
  {
    && Authorized(db, c.w, c.cred)
    && GoodRow(db.workers[c.w])
    && forall id :: id in HeldBy(db.jobs, c.w) ==> id in ExpiredBefore(db.jobs, c.reapAt)
  }

  lemma ReapedQueue(db: Db, c: Call, id: JobId)
    requires c.Poll? && ReadyToWork(db, c) && id in db.jobs && Overdue(db.jobs[id], c)
    requires Fits(db.jobs[id], db.workers[c.w], TierOf(db, c.w))
    ensures var d := ReapExpired(db, c.reapAt);
            HeldBy(d.jobs, c.w) == {} && id in Eligible(d, c.w, db.workers[c.w])
  {
    var d := ReapExpired(db, c.reapAt);
    assert HeldBy(d.jobs, c.w) <= HeldBy(db.jobs, c.w);
  }

  /** An abandoned job is old too: its lease ran for 20 s at least. */
  lemma OverdueIsOld(db: Db, clock: Time, c: Call, id: JobId)
    requires Clocked(db, clock) && c.Poll? && Ticks(clock, c) && id in db.jobs && Overdue(db.jobs[id], c)
    ensures c.deferAt - db.jobs[id].createdAt >= GRACE
  {
    assert Times(c)[0] <= Times(c)[1];
  }

  lemma ReadyPollIsBody(db: Db, c: Call)
    requires c.Poll? && Authorized(db, c.w, c.cred) && GoodRow(db.workers[c.w])
    ensures Step(db, c) == PollBody(ReapExpired(db, c.reapAt), c.w, db.workers[c.w], c.deferAt, c.leaseAt, c.now)
  {
  }

  /** No starvation: a ready worker's poll leases a job, and one no younger than any overdue job that fits it. */
  lemma PollRecovers(db: Db, clock: Time, c: Call, id: JobId)
    requires Inv(db) && Clocked(db, clock) && c.Poll? && Ticks(clock, c) && ReadyToWork(db, c)
    requires id in db.jobs && Overdue(db.jobs[id], c) && Fits(db.jobs[id], db.workers[c.w], TierOf(db, c.w))
    ensures Step(db, c).1.Assigned?
    ensures var got := Step(db, c).1.job;
            got in db.jobs && (got == id || Older(db.jobs, got, id))
  {
    ReapedQueue(db, c, id);
    OverdueIsOld(db, clock, c, id);
    ReadyPollIsBody(db, c);
    OldestIsGranted(ReapExpired(db, c.reapAt), c.w, db.workers[c.w], c.deferAt, c.leaseAt, c.now, id);
  }

  lemma OldestIsGranted(db: Db, w: WorkerId, row: Worker, deferAt: Time, leaseAt: Time, now: Time, id: JobId)
    requires HeldBy(db.jobs, w) == {} && id in Eligible(db, w, row) && deferAt - db.jobs[id].createdAt >= GRACE
    ensures var r := PollBody(db, w, row, deferAt, leaseAt, now).1;
            r.Assigned? && r.job in db.jobs && (r.job == id || Older(db.jobs, r.job, id))
  {
    var first := Oldest(db.jobs, Eligible(db, w, row));
    assert first == id || Older(db.jobs, first, id);
    BodyAssigns(db, w, row, deferAt, leaseAt, now, first);
  }

  /** A free worker with an eligible job past the grace period gets the oldest one. */
  lemma BodyAssigns(db: Db, w: WorkerId, row: Worker, deferAt: Time, leaseAt: Time, now: Time, first: JobId)
    requires HeldBy(db.jobs, w) == {} && Eligible(db, w, row) != {} && first == Oldest(db.jobs, Eligible(db, w, row))
    requires deferAt - db.jobs[first].createdAt >= GRACE
    ensures PollBody(db, w, row, deferAt, leaseAt, now).1 == Assigned(first)
  {
  }

  /** ... in every state that a run with such a clock reaches. */
  lemma EveryTimedRunRecovers(start: Time, calls: seq<Call>, c: Call, id: JobId)
    requires TimedRun(EMPTY_DB, start, calls)
    requires var (db, clock) := TimedFinal(EMPTY_DB, start, calls);
             && c.Poll? && Ticks(clock, c) && ReadyToWork(db, c) && id in db.jobs && Overdue(db.jobs[id], c)
             && Fits(db.jobs[id], db.workers[c.w], TierOf(db, c.w))
    ensures var db := TimedFinal(EMPTY_DB, start, calls).0;
            && Step(db, c).1.Assigned? && Step(db, c).1.job in db.jobs
            && (Step(db, c).1.job == id || Older(db.jobs, Step(db, c).1.job, id))
  {
    TimedRunKeeps(EMPTY_DB, start, calls);
    var (db, clock) := TimedFinal(EMPTY_DB, start, calls);
    PollRecovers(db, clock, c, id);
  }

  /** Deferral only ever holds back fresh jobs: if a ready worker gets nothing, all it could take is younger than
      1.5 s. */
  lemma DeferralOnlyDelaysFreshJobs(db: Db, clock: Time, c: Call, id: JobId)
    requires Inv(db) && Clocked(db, clock) && c.Poll? && Ticks(clock, c) && ReadyToWork(db, c)
    requires Step(db, c).1 == NoJob && id in db.jobs && db.jobs[id].state == Queued
    requires Fits(db.jobs[id], db.workers[c.w], TierOf(db, c.w))
    ensures c.deferAt - db.jobs[id].createdAt < GRACE
  {
    if c.deferAt - db.jobs[id].createdAt >= GRACE {
      PollRecovers(db, clock, c, id);
    }
  }

  // ---------------------------------------------------------------- whom a deferral waits for

  /** The peer takes jobs, and fits this one. */
  predicate Useful(db: Db, p: WorkerId, id: JobId)
    requires p in db.workers && id in db.jobs
  {
    !db.workers[p].cap.measurementOnly && Fits(db.jobs[id], db.workers[p], TierOf(db, p))
  }

  /** The database once the jobs older than this one are gone. */
  function WithoutOlder(db: Db, id: JobId): Db
    requires id in db.jobs
  {
    db.(jobs := map k | k in db.jobs && (k == id || Older(db.jobs, id, k)) :: db.jobs[k])
  }

  /** Some later poll of the peer is granted the job, at least once the older ones are gone. */
  ghost predicate CouldTake(db: Db, p: WorkerId, id: JobId, now: Time)
    requires id in db.jobs
  {
    exists c: Call :: c.Poll? && c.w == p && Ticks(now, c) && Step(WithoutOlder(db, id), c).1 == Assigned(id)
  }

  /** The peer is registered, approved, trusted and free. */
  ghost predicate Available(db: Db, p: WorkerId) {
    && p in db.workers && db.workers[p].token != "" && db.workers[p].approved && !db.workers[p].blacklisted
    && HeldBy(db.jobs, p) == {}
  }

  lemma CouldTakeIffUseful(db: Db, p: WorkerId, id: JobId, now: Time)
    requires Available(db, p) && id in db.jobs && db.jobs[id].state == Queued
    ensures CouldTake(db, p, id, now) <==> Useful(db, p, id)
  {
    if Useful(db, p, id) {
      UsefulTakes(db, p, id, now);
    }
    forall c: Call | c.Poll? && c.w == p && Step(WithoutOlder(db, id), c).1 == Assigned(id)
      ensures Useful(db, p, id)
    {
      PollGrantsOldestEligible(WithoutOlder(db, id), c, id);
    }
  }

  /** The peer only has to poll late enough: whatever is reaped by then is younger than the job. */
  lemma UsefulTakes(db: Db, p: WorkerId, id: JobId, now: Time)
    requires Available(db, p) && id in db.jobs && db.jobs[id].state == Queued && Useful(db, p, id)
    ensures CouldTake(db, p, id, now)
  {
    var rest, row, at := WithoutOlder(db, id), db.workers[p], Max(now, db.jobs[id].createdAt + GRACE);
    var c := PollAt(p, Credential(row.token, Device(true, row.cert)), at);
    FirstInQueue(db, p, id, at);
    OldEnoughIsTaken(rest, c, id);
    PollTicks(now, c);
  }

  /** A poll whose clock stands still. */
  function PollAt(w: WorkerId, cred: Credential, at: Time): Call {
    Poll(w, cred, at, at, at, at)
  }

  lemma PollTicks(now: Time, c: Call)
    requires c.Poll? && c == PollAt(c.w, c.cred, c.now) && now <= c.now
    ensures Ticks(now, c)
  {
    assert Times(c) == [c.now, c.now, c.now, c.now];
  }

  /** A good worker's poll takes the first job of its queue, if that is past the grace period. */
  lemma OldEnoughIsTaken(db: Db, c: Call, id: JobId)
    requires c.Poll? && Authorized(db, c.w, c.cred) && GoodRow(db.workers[c.w])
    requires var reaped := ReapExpired(db, c.reapAt);
             && HeldBy(reaped.jobs, c.w) == {} && id in Eligible(reaped, c.w, db.workers[c.w])
             && id == Oldest(reaped.jobs, Eligible(reaped, c.w, db.workers[c.w]))
             && c.deferAt - reaped.jobs[id].createdAt >= GRACE
    ensures Step(db, c).1 == Assigned(id)
  {
    ReadyPollIsBody(db, c);
    BodyAssigns(ReapExpired(db, c.reapAt), c.w, db.workers[c.w], c.deferAt, c.leaseAt, c.now, id);
  }

  lemma FirstInQueue(db: Db, p: WorkerId, id: JobId, at: Time)
    requires Available(db, p) && id in db.jobs && db.jobs[id].state == Queued && Useful(db, p, id)
    ensures var reaped := ReapExpired(WithoutOlder(db, id), at);
            && HeldBy(reaped.jobs, p) == {} && id in Eligible(reaped, p, db.workers[p])
            && reaped.jobs[id] == db.jobs[id]
            && id == Oldest(reaped.jobs, Eligible(reaped, p, db.workers[p]))
  {
    var reaped := ReapExpired(WithoutOlder(db, id), at);
    var queue := Eligible(reaped, p, db.workers[p]);
    assert forall k :: k in reaped.jobs && k != id ==> Older(reaped.jobs, id, k);
    forall k
      ensures k !in HeldBy(reaped.jobs, p)
    {
      assert k !in HeldBy(db.jobs, p);
    }
    assert id in queue && IsOldest(reaped.jobs, queue, id);
    OldestIsUnique(reaped.jobs, queue, id, Oldest(reaped.jobs, queue));
  }

  ghost predicate Tokened(db: Db) {
    forall p :: p in db.workers ==> db.workers[p].token != ""
  }

  lemma StepKeepsTokens(db: Db, c: Call)
    requires Tokened(db) && WellFormed(db, c)
    ensures Tokened(Step(db, c).0)
  {
  }

  lemma FineStepKeepsTokens(db: Db, f: FineCall)
    requires Tokened(db) && FineWellFormed(db, f)
    ensures Tokened(FineStep(db, f))
  {
    if f.Whole? {
      StepKeepsTokens(db, f.call);
    }
  }

  lemma {:induction false} RunKeepsTokens(db: Db, calls: seq<FineCall>)
    requires Tokened(db) && FineRun(db, calls)
    ensures Tokened(FineFinal(db, calls))
    decreases |calls|
  {
    if calls != [] {
      FineStepKeepsTokens(db, calls[0]);
      RunKeepsTokens(FineStep(db, calls[0]), calls[1..]);
    }
  }

  /** The deferral rule never asks whether a lighter peer can take the job at all. So in every reachable state a
      deferral waits for nobody exactly when every lighter peer is measurement-only or does not fit the job. */
  lemma DeferralWaitsForNobodyIff(calls: seq<FineCall>, w: WorkerId, id: JobId, now: Time)
    requires FineRun(EMPTY_DB, calls)
    requires var db := FineFinal(EMPTY_DB, calls);
             id in db.jobs && db.jobs[id].state == Queued && Defers(db, w, db.jobs[id].createdAt, now)
    ensures var db := FineFinal(EMPTY_DB, calls);
            (forall p :: p in db.workers && LighterPeer(db, w, db.workers[w], p, now) ==> !CouldTake(db, p, id, now))
            <==> (forall p :: p in db.workers && LighterPeer(db, w, db.workers[w], p, now) ==> !Useful(db, p, id))
  {
    var db := FineFinal(EMPTY_DB, calls);
    RunKeepsTokens(EMPTY_DB, calls);
    forall p | p in db.workers && LighterPeer(db, w, db.workers[w], p, now)
      ensures CouldTake(db, p, id, now) <==> Useful(db, p, id)
    {
      CouldTakeIffUseful(db, p, id, now);
    }
  }

  // ---------------------------------------------------------------- a run in which it waits for nobody

  const OBSERVER := Capability(true, 1, 1.0, None, false, None, {})
  const JOB := Manifest("optimize", Requires(false, None, None, {}, 1), "public")

  /** A worker, a measurement-only observer, the worker busy at half load, and a fresh job. */
  const OBSERVED_START: seq<FineCall> := [
    Whole(Register("w", PLAIN, "t", false, Device(false, None), 0)),
    Whole(Register("p", OBSERVER, "u", false, Device(false, None), 0)),
    Whole(Heartbeat("w", OWNER, 50.0, None, None, None, 0, 0)),
    Whole(Submit(0, JOB, Opaque(""), 1, None, 0))]

  const OBSERVED := Db(
    map["w" := Registrant(0).(cpuPct := Some(50.0)),
        "p" := Worker("u", OBSERVER, None, None, None, true, false, DEFAULT_TRUST_TIER, false, Some(0), None)],
    map[0 := Job(JOB, Opaque(""), 1, None, 0, Queued, None, None, None, 0)], [], [])

  lemma ObservedStart()
    ensures FineRun(EMPTY_DB, OBSERVED_START) && FineFinal(EMPTY_DB, OBSERVED_START) == OBSERVED
  {
    var c1, c2, c3, c4 := OBSERVED_START[0], OBSERVED_START[1], OBSERVED_START[2], OBSERVED_START[3];
    var observer := OBSERVED.workers["p"];
    var db1 := Db(map["w" := Registrant(0)], map[], [], []);
    var db2 := Db(map["w" := Registrant(0), "p" := observer], map[], [], []);
    var db3 := OBSERVED.(jobs := map[]);
    assert FineStep(EMPTY_DB, c1) == db1;
    assert FineStep(db1, c2) == db2;
    assert FineStep(db2, c3).workers == db3.workers;
    assert FineStep(db3, c4) == OBSERVED;
    OneCall(db3, c4, []);
    OneCall(db2, c3, [c4] + []);
    OneCall(db1, c2, [c3] + ([c4] + []));
    OneCall(EMPTY_DB, c1, [c2] + ([c3] + ([c4] + [])));
    assert [c1] + ([c2] + ([c3] + ([c4] + []))) == OBSERVED_START;
  }

  /** It does happen: one second after this start, the only ready worker polls and gets nothing, though the job fits
      it; the rule waits for the observer, which never takes a job. */
  lemma DeferralForNobody() returns (c: Call)
    ensures FineRun(EMPTY_DB, OBSERVED_START)
    ensures var db := FineFinal(EMPTY_DB, OBSERVED_START);
            && c.Poll? && Ticks(0, c) && ReadyToWork(db, c) && 0 in Eligible(db, c.w, db.workers[c.w])
            && Step(db, c) == (db, NoJob) && Defers(db, c.w, db.jobs[0].createdAt, c.deferAt)
            && (forall p :: p in db.workers && GoodRow(db.workers[p]) ==> p == c.w)
            && forall p :: p in db.workers && LighterPeer(db, c.w, db.workers[c.w], p, c.deferAt) ==>
                 !CouldTake(db, p, 0, c.deferAt)
  {
    c := PollAt("w", OWNER, 1_000_000);
    ObservedStart();
    ObservedPoll(c);
    NobodyTakesIt(OBSERVED_START, c.deferAt);
    PollTicks(0, c);
  }

  lemma NobodyTakesIt(calls: seq<FineCall>, now: Time)
    requires FineRun(EMPTY_DB, calls) && FineFinal(EMPTY_DB, calls) == OBSERVED && Defers(OBSERVED, "w", 0, now)
    ensures forall p :: p in OBSERVED.workers && LighterPeer(OBSERVED, "w", OBSERVED.workers["w"], p, now) ==>
              !CouldTake(OBSERVED, p, 0, now)
  {
    DeferralWaitsForNobodyIff(calls, "w", 0, now);
  }

  lemma ObservedPoll(c: Call)
    requires c == PollAt("w", OWNER, 1_000_000)
    ensures ReadyToWork(OBSERVED, c) && Eligible(OBSERVED, "w", OBSERVED.workers["w"]) == {0}
    ensures Defers(OBSERVED, "w", 0, c.deferAt) && Step(OBSERVED, c) == (OBSERVED, NoJob)
  {
    var db := OBSERVED;
    assert ReapExpired(db, c.reapAt).jobs == db.jobs;
    MayRouteIffRanked("public", DEFAULT_TRUST_TIER);
    assert LighterPeer(db, "w", db.workers["w"], "p", c.deferAt);
    assert Eligible(db, "w", db.workers["w"]) == {0};
    assert Oldest(db.jobs, Eligible(db, "w", db.workers["w"])) == 0;
    ReadyPollIsBody(db, c);
  }
}
