/** The orchestrator as the source has it: tables that handlers update in place, each handler proved to be
    the step of the protocol that bears its name. */
module Server {
  import opened Base
  import opened Contracts
  import opened Scheduler
  import opened Protocol
  import opened Lease
  import opened Credits
  import opened Launch
  import opened Summaries
  import opened MonteCarlo

  /** What `workload_detail` answers; None is its 404. */
  datatype View = View(rows: seq<JobId>, completed: nat, summary: Option<Summary>)

  /** The row that a spec becomes. */
  function RowFor(spec: JobSpec, workload: string, now: Time): Job {
    Job(spec.manifest, spec.input, spec.units, Some(workload), now, Queued, None, None, None, 0)
  }

  /** One row per spec, in order, and no other row added or changed. */
  ghost predicate RowsAdded(before: Jobs, after: Jobs, specs: seq<JobSpec>, ids: seq<JobId>, workload: string,
                            nows: seq<Time>)
    requires |ids| == |nows| == |specs|
  {
    && (forall i :: 0 <= i < |ids| ==> ids[i] in after && after[ids[i]] == RowFor(specs[i], workload, nows[i]))
    && (forall id :: id in before ==> id in after && after[id] == before[id])
    && (forall id :: id in after ==> id in before || id in ids)
  }

  lemma OneRowAdded(before: Jobs, after: Jobs, specs: seq<JobSpec>, ids: seq<JobId>, workload: string,
                    nows: seq<Time>, n: nat)
    requires |ids| == |nows| == |specs| && n < |specs| && ids[n] !in before
    requires forall i :: 0 <= i < n ==> ids[i] != ids[n]
    requires RowsAdded(before, after, specs[..n], ids[..n], workload, nows[..n])
    ensures RowsAdded(before, after[ids[n] := RowFor(specs[n], workload, nows[n])], specs[..n + 1], ids[..n + 1],
                      workload, nows[..n + 1])
  {
    assert ids[..n + 1] == ids[..n] + [ids[n]];
    forall i | 0 <= i < n
      ensures ids[i] in after && after[ids[i]] == RowFor(specs[i], workload, nows[i])
    {
      assert ids[..n][i] == ids[i] && specs[..n][i] == specs[i] && nows[..n][i] == nows[i];
    }
  }

  class Orchestrator {
    var workers: Workers
    var jobs: Jobs
    var ledger: seq<LedgerRow>
    ghost var grants: seq<Grant>

    ghost function State(): Db
      reads this
    {
      Db(workers, jobs, ledger, grants)
    }

    constructor ()
      ensures State() == EMPTY_DB
    {
      workers, jobs, ledger, grants := map[], map[], [], [];
    }

    /** The bearer-token check that every worker request passes first. */
    method Authenticate(w: WorkerId, cred: Credential) returns (ok: bool)
      ensures ok == Authorized(State(), w, cred)
    {
      if w !in workers {
        return false;
      }
      if cred.token == "" || workers[w].token != cred.token {
        return false;
      }
      return !cred.device.bind || workers[w].cert.None? || cred.device.presented == workers[w].cert;
    }

    method Register(w: WorkerId, cap: Capability, token: string, gated: bool, device: Device, now: Time)
      returns (r: Response)
      requires token != ""
      modifies this
      ensures (State(), r) == Step(old(State()), Call.Register(w, cap, token, gated, device, now))
      ensures Kept(old(State()), State())
    {
      StepIsKept(State(), Call.Register(w, cap, token, gated, device, now));
      var cert := None;
      if device.bind {
        if device.presented.None? {
          return Unauthorized;
        }
        if w in workers {
          if workers[w].cert.None? {
            return Conflict;
          }
          if workers[w].cert != device.presented {
            return Forbidden;
          }
        }
        cert := device.presented;
      }
      var c := Registering(cap);
      var free := if c.measurementOnly then None else if c.freeRamGb.Some? then c.freeRamGb else Some(c.ramGb);
      var approved := !gated;
      if w in workers {
        approved := workers[w].approved || approved;
        cert := if cert.Some? then cert else workers[w].cert;
        workers := workers[w := workers[w].(token := token, cap := c, freeRam := free, approved := approved,
                                            lastHeartbeat := Some(now), cert := cert)];
      } else {
        workers := workers[w := Worker(token, c, free, None, None, approved, false, DEFAULT_TRUST_TIER, false,
                                       Some(now), cert)];
      }
      r := Registered(approved);
    }

    /** The second part of registration: a tier derived from a verified attestation, unless IT pinned one. */
    method Attest(w: WorkerId, tier: string) returns (r: Response)
      modifies this`workers
      ensures (State(), r) == Step(old(State()), Call.Attest(w, tier))
      ensures Kept(old(State()), State())
    {
      StepIsKept(State(), Call.Attest(w, tier));
      if w in workers && !workers[w].pinned {
        workers := workers[w := workers[w].(tier := tier)];
      }
      r := Done;
    }

    method Submit(job: JobId, manifest: Manifest, input: Payload, units: int, workload: Option<string>, now: Time)
      returns (r: Response)
      modifies this`jobs
      ensures (State(), r) == Step(old(State()), Call.Submit(job, manifest, input, units, workload, now))
      ensures job !in old(jobs) ==> Kept(old(State()), State())
    {
      if job !in jobs {
        StepIsKept(State(), Call.Submit(job, manifest, input, units, workload, now));
      }
      if units <= 0 {
        return BadRequest;
      }
      jobs := jobs[job := Job(manifest, input, units, workload, now, Queued, None, None, None, 0)];
      return Submitted(job);
    }

    /** One row of `launch_workload` after another; other requests may run between two submissions. */
    method LaunchWorkload(specs: seq<JobSpec>, ids: seq<JobId>, workload: string, nows: seq<Time>)
      returns (rs: seq<Response>)
      requires |ids| == |nows| == |specs|
      requires forall i, k :: 0 <= i < k < |ids| ==> ids[i] != ids[k]
      requires forall s :: s in specs ==> s.units > 0
      requires forall i :: 0 <= i < |ids| ==> ids[i] !in jobs
      modifies this`jobs
      ensures |rs| == |specs| && forall i :: 0 <= i < |specs| ==> rs[i] == Submitted(ids[i])
      ensures RowsAdded(old(jobs), jobs, specs, ids, workload, nows)
      ensures Kept(old(State()), State())
    {
      rs := [];
      for n := 0 to |specs|
        invariant |rs| == n && forall i :: 0 <= i < n ==> rs[i] == Submitted(ids[i])
        invariant RowsAdded(old(jobs), jobs, specs[..n], ids[..n], workload, nows[..n])
        invariant Kept(old(State()), State())
      {
        ghost var before := State();
        assert specs[n] in specs && ids[n] !in jobs;
        var r := Submit(ids[n], specs[n].manifest, specs[n].input, specs[n].units, Some(workload), nows[n]);
        assert jobs == before.jobs[ids[n] := RowFor(specs[n], workload, nows[n])];
        OneRowAdded(old(jobs), before.jobs, specs, ids, workload, nows, n);
        KeptTransitive(old(State()), before, State());
        rs := rs + [r];
      }
      assert specs[..|specs|] == specs && ids[..|ids|] == ids && nows[..|nows|] == nows;
    }

    method Reap(now: Time)
      modifies this`jobs
      ensures State() == ReapExpired(old(State()), now) && Kept(old(State()), State())
    {
      FineStepIsKept(State(), FineCall.Reap(now));
      jobs := Requeue(jobs, ExpiredBefore(jobs, now));
    }

    ghost predicate InOrder(rows: seq<JobId>)
      reads this
    {
      (forall i :: 0 <= i < |rows| ==> rows[i] in jobs)
      && forall i, k :: 0 <= i < k < |rows| ==> Older(jobs, rows[i], rows[k])
    }

    /** Insertion into rows that are in order, as the database's sort keeps them. */
    method InsertRow(rows: seq<JobId>, id: JobId) returns (r: seq<JobId>)
      requires InOrder(rows) && id in jobs && id !in rows
      ensures InOrder(r) && forall k :: k in r <==> k == id || k in rows
    {
      var at := 0;
      while at < |rows| && Older(jobs, rows[at], id)
        invariant at <= |rows|
        invariant forall i :: 0 <= i < at ==> Older(jobs, rows[i], id)
      {
        at := at + 1;
      }
      forall i | at <= i < |rows|
        ensures Older(jobs, id, rows[i])
      {
        assert rows[i] in rows && (i > at ==> Older(jobs, rows[at], rows[i]));
      }
      r := rows[..at] + [id] + rows[at..];
    }

    /** `SELECT * FROM jobs WHERE .. ORDER BY created_at, job_id`. */
    method SelectRows(ids: set<JobId>) returns (rows: seq<JobId>)
      requires ids <= jobs.Keys
      ensures InOrder(rows) && forall id :: id in rows <==> id in ids
    {
      var todo := ids;
      rows := [];
      while todo != {}
        invariant todo <= ids && InOrder(rows) && forall id :: id in rows <==> id in ids - todo
      {
        var id :| id in todo;
        rows := InsertRow(rows, id);
        todo := todo - {id};
      }
    }

    /** The first queued row, oldest first, that the worker fits and is cleared for. */
    method PickJobFor(w: WorkerId, row: Worker) returns (pick: Option<JobId>)
      ensures pick.None? ==> Eligible(State(), w, row) == {}
      ensures pick.Some? ==> IsOldest(jobs, Eligible(State(), w, row), pick.value)
    {
      var tier := if w in workers && workers[w].tier != "" then workers[w].tier else DEFAULT_TRUST_TIER;
      var rows := SelectRows(set id | id in jobs && jobs[id].state == Queued);
      for i := 0 to |rows|
        invariant forall k :: 0 <= k < i ==> !Fits(jobs[rows[k]], row, tier)
      {
        if Fits(jobs[rows[i]], row, tier) {
          assert rows[i] in rows;
          forall k | k in Eligible(State(), w, row) && k != rows[i]
            ensures Older(jobs, rows[i], k)
          {
            assert k in rows;
          }
          return Some(rows[i]);
        }
      }
      assert forall id :: id in Eligible(State(), w, row) ==> id in rows;
      return None;
    }

    method DeferToLessLoaded(w: WorkerId, createdAt: Time, now: Time) returns (defer: bool)
      ensures defer == Defers(State(), w, createdAt, now)
    {
      if now - createdAt >= GRACE {
        return false;
      }
      if w !in workers {
        return false;
      }
      var me := workers[w];
      var peers := set p | p in workers && p != w && workers[p].approved && !workers[p].blacklisted
                        && workers[p].lastHeartbeat.Some? && workers[p].lastHeartbeat.value >= now - LIVE_WINDOW
                        && HeldBy(jobs, p) == {};
      var mine := Load(me.cpuPct, me.gpuPct);
      defer := exists p :: p in peers && mine - Load(workers[p].cpuPct, workers[p].gpuPct) >= LOAD_MARGIN;
      if defer {
        var p :| p in peers && mine - Load(workers[p].cpuPct, workers[p].gpuPct) >= LOAD_MARGIN;
        assert LighterPeer(State(), w, me, p, now);
      } else {
        assert forall p :: p in workers && LighterPeer(State(), w, me, p, now) ==> p in peers;
      }
    }

    /** `/jobs/next`. */
    method JobsNext(w: WorkerId, cred: Credential, reapAt: Time, deferAt: Time, leaseAt: Time, now: Time)
      returns (r: Response)
      modifies this
      ensures (State(), r) == Step(old(State()), Poll(w, cred, reapAt, deferAt, leaseAt, now))
      ensures Kept(old(State()), State())
    {
      StepIsKept(State(), Poll(w, cred, reapAt, deferAt, leaseAt, now));
      var ok := Authenticate(w, cred);
      if !ok {
        return Unauthorized;
      }
      var row := workers[w];
      if row.blacklisted {
        return NoJob;
      }
      if !row.approved {
        return NoJob;
      }
      Reap(reapAt);
      if row.cap.measurementOnly {
        return NoJob;
      }
      r := LockedPoll(w, row, deferAt, leaseAt, now);
    }

    /** The part of `/jobs/next` under the write lock; `row` is the worker row read before it. */
    method LockedPoll(w: WorkerId, row: Worker, deferAt: Time, leaseAt: Time, now: Time) returns (r: Response)
      modifies this
      ensures (State(), r) == PollBody(old(State()), w, row, deferAt, leaseAt, now)
      ensures Kept(old(State()), State())
    {
      FineStepIsKept(State(), FineCall.LockedPoll(w, row, deferAt, leaseAt, now));
      if HeldBy(jobs, w) != {} {
        return NoJob;
      }
      var pick := PickJobFor(w, row);
      if pick.None? {
        return NoJob;
      }
      var id := pick.value;
      ghost var before := State();
      OldestIsUnique(jobs, Eligible(before, w, row), id, Oldest(jobs, Eligible(before, w, row)));
      var defer := DeferToLessLoaded(w, jobs[id].createdAt, deferAt);
      if defer {
        return NoJob;
      }
      var j := jobs[id];
      grants := grants + [Grant(w, row, TierOf(before, w), id)];
      jobs := jobs[id := j.(state := Leased, holder := Some(w), deadline := Some(leaseAt + LEASE),
                            attempts := j.attempts + 1)];
      if w in workers {
        workers := workers[w := workers[w].(lastHeartbeat := Some(now))];
      }
      return Assigned(id);
    }

    method Heartbeat(w: WorkerId, cred: Credential, cpuPct: real, gpuPct: Option<real>, freeRam: Option<real>,
                     current: Option<JobId>, now: Time, leaseAt: Time) returns (r: Response)
      modifies this
      ensures (State(), r)
           == Step(old(State()), Call.Heartbeat(w, cred, cpuPct, gpuPct, freeRam, current, now, leaseAt))
      ensures Kept(old(State()), State())
    {
      StepIsKept(State(), Call.Heartbeat(w, cred, cpuPct, gpuPct, freeRam, current, now, leaseAt));
      var ok := Authenticate(w, cred);
      if !ok {
        return Unauthorized;
      }
      var row := workers[w];
      if row.cap.measurementOnly {
        workers := workers[w := row.(cpuPct := Some(0.0), gpuPct := None, freeRam := None, lastHeartbeat := Some(now))];
        return Ack(row.approved);
      }
      workers := workers[w := row.(cpuPct := Some(cpuPct), gpuPct := gpuPct,
                                   freeRam := if freeRam.Some? then freeRam else row.freeRam,
                                   lastHeartbeat := Some(now))];
      if current.Some? && Holds(jobs, w, current.value) {
        var id := current.value;
        if jobs[id].deadline.value <= now {
          jobs := Requeue(jobs, {id});
        } else {
          jobs := jobs[id := jobs[id].(deadline := Some(leaseAt + LEASE))];
        }
      }
      return Ack(row.approved);
    }

    method Approve(w: WorkerId) returns (r: Response)
      modifies this`workers
      ensures (State(), r) == Step(old(State()), Call.Approve(w))
      ensures Kept(old(State()), State())
    {
      StepIsKept(State(), Call.Approve(w));
      if w !in workers {
        return NotFound;
      }
      workers := workers[w := workers[w].(approved := true)];
      return Done;
    }

    method SetTier(w: WorkerId, tier: string) returns (r: Response)
      modifies this`workers
      ensures (State(), r) == Step(old(State()), Call.SetTier(w, tier))
      ensures Kept(old(State()), State())
    {
      StepIsKept(State(), Call.SetTier(w, tier));
      if w !in workers {
        return NotFound;
      }
      if tier !in TIERS {
        return BadRequest;
      }
      workers := workers[w := workers[w].(tier := tier, pinned := true)];
      return Done;
    }

    method DisconnectWorker(w: WorkerId) returns (r: Response)
      modifies this
      ensures (State(), r) == Step(old(State()), Disconnect(w))
      ensures Kept(old(State()), State())
    {
      StepIsKept(State(), Disconnect(w));
      if w !in workers {
        return NotFound;
      }
      jobs := Requeue(jobs, HeldBy(jobs, w));
      workers := workers - {w};
      return Done;
    }

    /** `/results/{job_id}`; `path` is the id in the URL, `job` the one in the body. */
    method Results(path: JobId, w: WorkerId, cred: Credential, job: JobId, status: Status, output: Output, bytes: nat,
                   proofOk: bool, now: Time) returns (r: Response)
      modifies this
      ensures path != job ==> r == BadRequest && State() == old(State())
      ensures path == job ==>
                (State(), r) == Step(old(State()), PostResult(w, cred, job, status, output, bytes, proofOk, now))
      ensures Kept(old(State()), State())
    {
      if path != job {
        return BadRequest;
      }
      StepIsKept(State(), PostResult(w, cred, job, status, output, bytes, proofOk, now));
      var ok := Authenticate(w, cred);
      if !ok {
        return Unauthorized;
      }
      if workers[w].blacklisted {
        return Rejected("blacklisted");
      }
      if job !in jobs {
        return NotFound;
      }
      var j := jobs[job];
      if j.state != Leased || j.holder != Some(w) {
        return Rejected("not_leased");
      }
      if j.deadline.None? || j.deadline.value <= now {
        jobs := Requeue(jobs, {job});
        return Rejected("lease_expired");
      }
      if bytes > MAX_OUTPUT_BYTES {
        return Rejected("payload_too_large");
      }
      if status == DoneStatus {
        if !proofOk {
          jobs := Requeue(jobs, {job});
          return Rejected("invalid_proof");
        }
        if j.manifest.kind == "challenge" {
          var verdict := ChallengeVerdict(j.input, output);
          if verdict == Raises {
            return ServerError;
          }
          if verdict == Wrong {
            workers := workers[w := workers[w].(blacklisted := true)];
            jobs := Requeue(jobs, {job});
            return Rejected("cheater_blacklisted");
          }
        }
        var credits := j.units * if j.manifest.requirements.needsGpu then 5 else 1;
        jobs := jobs[job := j.(state := Completed, result := Some(output), deadline := None)];
        ledger := ledger + [LedgerRow(w, job, credits)];
        return Credited(credits);
      }
      jobs := Requeue(jobs, {job});
      return Rejected(if status == FailedStatus then "failed" else "yielded");
    }

    /** The credit columns of `/state`: one sum for each registered worker, and the total. */
    method FleetCredits() returns (byWorker: map<WorkerId, int>, total: int)
      ensures total == LedgerTotal(ledger)
      ensures byWorker.Keys == workers.Keys && forall w :: w in workers ==> byWorker[w] == CreditOf(ledger, w)
    {
      total := 0;
      byWorker := map w | w in workers :: 0;
      for i := 0 to |ledger|
        invariant total == LedgerTotal(ledger[..i])
        invariant byWorker.Keys == workers.Keys
        invariant forall w :: w in workers ==> byWorker[w] == CreditOf(ledger[..i], w)
      {
        assert ledger[..i + 1][..i] == ledger[..i];
        var row := ledger[i];
        total := total + row.credits;
        if row.worker in byWorker {
          byWorker := byWorker[row.worker := byWorker[row.worker] + row.credits];
        }
      }
      assert ledger[..|ledger|] == ledger;
    }

    /** `/workloads/{id}`: the rows of the workload in order, how many are completed, and their merged outputs. */
    method WorkloadDetail(wid: string, root: Root) returns (view: Option<View>)
      ensures view.None? <==> forall id :: id in jobs ==> jobs[id].workload != Some(wid)
      ensures view.Some? ==>
                && InOrder(view.value.rows)
                && (forall id :: id in view.value.rows <==> id in jobs && jobs[id].workload == Some(wid))
                && view.value.completed == |Elems(view.value.rows) * CompletedIds(jobs)|
                && Detail(State(), view.value.rows, root, view.value.summary)
    {
      var ids := set id | id in jobs && jobs[id].workload == Some(wid);
      var rows := SelectRows(ids);
      if rows == [] {
        forall id | id in jobs
          ensures jobs[id].workload != Some(wid)
        {
          assert id in ids ==> id in rows;
        }
        return None;
      }
      assert rows[0] in rows;
      var completed, outputs := ReadRows(rows);
      var summary := AggregateWorkload(jobs[rows[0]].manifest.kind, outputs, root);
      return Some(View(rows, completed, summary));
    }

    method ReadRows(rows: seq<JobId>) returns (completed: nat, outputs: seq<Output>)
      requires InOrder(rows)
      ensures completed == |Elems(rows) * CompletedIds(jobs)| && outputs == CompletedOutputs(jobs, rows)
    {
      outputs, completed := [], 0;
      for i := 0 to |rows|
        invariant outputs == CompletedOutputs(jobs, rows[..i])
        invariant completed == |Elems(rows[..i]) * CompletedIds(jobs)|
      {
        NextRow(rows, i);
        NextOutput(rows, i);
        var j := jobs[rows[i]];
        if j.state == Completed {
          completed := completed + 1;
          if j.result.Some? {
            outputs := outputs + [j.result.value];
          }
        }
      }
      assert rows[..|rows|] == rows;
    }

    lemma NextOutput(rows: seq<JobId>, i: nat)
      requires i < |rows| && rows[i] in jobs
      ensures var j, before := jobs[rows[i]], CompletedOutputs(jobs, rows[..i]);
              var shown := if j.state == Completed && j.result.Some? then [j.result.value] else [];
              CompletedOutputs(jobs, rows[..i + 1]) == before + shown
    {
      assert rows[..i + 1][..i] == rows[..i];
    }

    lemma NextRow(rows: seq<JobId>, i: nat)
      requires InOrder(rows) && i < |rows|
      ensures var done, next := Elems(rows[..i]) * CompletedIds(jobs), Elems(rows[..i + 1]) * CompletedIds(jobs);
              |next| == |done| + if jobs[rows[i]].state == Completed then 1 else 0
    {
      var done, next := Elems(rows[..i]) * CompletedIds(jobs), Elems(rows[..i + 1]) * CompletedIds(jobs);
      assert rows[..i + 1] == rows[..i] + [rows[i]];
      assert rows[i] !in rows[..i];
      assert next == if jobs[rows[i]].state == Completed then done + {rows[i]} else done;
    }
  }
}
