/** Conservation of credits: what the ledger pays, in total, by worker and by any set of jobs. */
module Credits {
  import opened Base
  import opened Contracts
  import opened Protocol
  import opened Lease

  function LedgerTotal(ledger: seq<LedgerRow>): int {
    if ledger == [] then 0 else LedgerTotal(ledger[..|ledger| - 1]) + ledger[|ledger| - 1].credits
  }

  /** `SELECT SUM(credits) FROM ledger WHERE worker_id = ?`. */
  function CreditOf(ledger: seq<LedgerRow>, w: WorkerId): int {
    if ledger == [] then 0
    else
      var last := ledger[|ledger| - 1];
      CreditOf(ledger[..|ledger| - 1], w) + if last.worker == w then last.credits else 0
  }

  /** The credits paid for the jobs of `ids`. */
  function PaidFor(ledger: seq<LedgerRow>, ids: set<JobId>): int {
    if ledger == [] then 0
    else
      var last := ledger[|ledger| - 1];
      PaidFor(ledger[..|ledger| - 1], ids) + if last.job in ids then last.credits else 0
  }

  ghost function Charges(jobs: Jobs, ids: set<JobId>): int
    requires ids <= jobs.Keys
  {
    if ids == {} then 0
    else
      var id :| id in ids;
      Charge(jobs[id]) + Charges(jobs, ids - {id})
  }

  lemma {:induction false} ChargesRemove(jobs: Jobs, ids: set<JobId>, x: JobId)
    requires ids <= jobs.Keys && x in ids
    ensures Charges(jobs, ids) == Charge(jobs[x]) + Charges(jobs, ids - {x})
    decreases ids
  {
    var id :| id in ids && Charges(jobs, ids) == Charge(jobs[id]) + Charges(jobs, ids - {id});
    if id != x {
      ChargesRemove(jobs, ids - {id}, x);
      ChargesRemove(jobs, ids - {x}, id);
      assert ids - {id} - {x} == ids - {x} - {id};
    }
  }

  function CompletedIds(jobs: Jobs): set<JobId> {
    set id | id in jobs && jobs[id].state == Completed
  }

  function CompletedBy(jobs: Jobs, w: WorkerId): set<JobId> {
    set id | id in jobs && jobs[id].state == Completed && jobs[id].holder == Some(w)
  }

  /** A ledger of distinct, correct rows that pays for all of `ids` pays exactly their charges. */
  lemma {:induction false} RowsPayCharges(jobs: Jobs, ledger: seq<LedgerRow>, ids: set<JobId>)
    requires ids <= jobs.Keys
    requires forall i :: 0 <= i < |ledger| ==> Pays(jobs, ledger[i])
    requires forall i, k :: 0 <= i < k < |ledger| ==> ledger[i].job != ledger[k].job
    requires forall id :: id in ids ==> exists i :: 0 <= i < |ledger| && ledger[i].job == id
    ensures PaidFor(ledger, ids) == Charges(jobs, ids)
    decreases |ledger|
  {
    if ledger == [] {
      assert ids == {};
    } else {
      var n := |ledger| - 1;
      var last := ledger[n];
      var rest := ids - {last.job};
      forall id | id in rest
        ensures exists i :: 0 <= i < |ledger[..n]| && ledger[..n][i].job == id
      {
        var i :| 0 <= i < |ledger| && ledger[i].job == id;
        assert ledger[..n][i].job == id;
      }
      RowsPayCharges(jobs, ledger[..n], rest);
      NotPaid(ledger[..n], rest, last.job);
      assert Pays(jobs, last);
      if last.job in ids {
        ChargesRemove(jobs, ids, last.job);
        assert rest + {last.job} == ids;
      } else {
        assert rest == ids;
      }
    }
  }

  lemma {:induction false} NotPaid(ledger: seq<LedgerRow>, ids: set<JobId>, x: JobId)
    requires forall i :: 0 <= i < |ledger| ==> ledger[i].job != x
    ensures PaidFor(ledger, ids + {x}) == PaidFor(ledger, ids)
  {
    if ledger != [] {
      NotPaid(ledger[..|ledger| - 1], ids, x);
    }
  }

  lemma {:induction false} PaidForAll(ledger: seq<LedgerRow>, ids: set<JobId>)
    requires forall i :: 0 <= i < |ledger| ==> ledger[i].job in ids
    ensures PaidFor(ledger, ids) == LedgerTotal(ledger)
  {
    if ledger != [] {
      PaidForAll(ledger[..|ledger| - 1], ids);
    }
  }

  lemma {:induction false} WorkerRows(jobs: Jobs, ledger: seq<LedgerRow>, w: WorkerId)
    requires forall i :: 0 <= i < |ledger| ==> Pays(jobs, ledger[i])
    ensures CreditOf(ledger, w) == PaidFor(ledger, CompletedBy(jobs, w))
  {
    if ledger != [] {
      WorkerRows(jobs, ledger[..|ledger| - 1], w);
      assert Pays(jobs, ledger[|ledger| - 1]);
    }
  }

  /** Conservation: the ledger total is the sum of the charges of the completed jobs, each worker's credits
      are the charges of the jobs it completed, and any set of completed jobs was paid exactly its charges. */
  lemma CreditsAreConserved(db: Db)
    requires Inv(db)
    ensures LedgerTotal(db.ledger) == Charges(db.jobs, CompletedIds(db.jobs))
    ensures forall w: WorkerId :: CreditOf(db.ledger, w) == Charges(db.jobs, CompletedBy(db.jobs, w))
    ensures forall ids :: ids <= CompletedIds(db.jobs) ==> PaidFor(db.ledger, ids) == Charges(db.jobs, ids)
  {
    forall ids | ids <= CompletedIds(db.jobs)
      ensures PaidFor(db.ledger, ids) == Charges(db.jobs, ids)
    {
      RowsPayCharges(db.jobs, db.ledger, ids);
    }
    assert forall i :: 0 <= i < |db.ledger| ==> Pays(db.jobs, db.ledger[i]);
    PaidForAll(db.ledger, CompletedIds(db.jobs));
    forall w: WorkerId
      ensures CreditOf(db.ledger, w) == Charges(db.jobs, CompletedBy(db.jobs, w))
    {
      WorkerRows(db.jobs, db.ledger, w);
      assert CompletedBy(db.jobs, w) <= CompletedIds(db.jobs);
    }
  }

  ghost function CreditsOfAll(ledger: seq<LedgerRow>, ws: set<WorkerId>): int {
    if ws == {} then 0
    else
      var w :| w in ws;
      CreditOf(ledger, w) + CreditsOfAll(ledger, ws - {w})
  }

  lemma {:induction false} OneRowMore(ledger: seq<LedgerRow>, ws: set<WorkerId>)
    requires ledger != []
    ensures var last := ledger[|ledger| - 1];
            CreditsOfAll(ledger, ws)
            == CreditsOfAll(ledger[..|ledger| - 1], ws) + if last.worker in ws then last.credits else 0
    decreases ws
  {
    var init := ledger[..|ledger| - 1];
    if ws == {} {
      assert CreditsOfAll(ledger, ws) == 0 && CreditsOfAll(init, ws) == 0;
    } else {
      var w :| w in ws && CreditsOfAll(ledger, ws) == CreditOf(ledger, w) + CreditsOfAll(ledger, ws - {w});
      var last := ledger[|ledger| - 1];
      assert CreditOf(ledger, w) == CreditOf(init, w) + if last.worker == w then last.credits else 0;
      OneRowMore(ledger, ws - {w});
      CreditsOfAllRemove(init, ws, w);
    }
  }

  lemma {:induction false} CreditsOfAllRemove(ledger: seq<LedgerRow>, ws: set<WorkerId>, x: WorkerId)
    requires x in ws
    ensures CreditsOfAll(ledger, ws) == CreditOf(ledger, x) + CreditsOfAll(ledger, ws - {x})
    decreases ws
  {
    var w :| w in ws && CreditsOfAll(ledger, ws) == CreditOf(ledger, w) + CreditsOfAll(ledger, ws - {w});
    if w != x {
      CreditsOfAllRemove(ledger, ws - {w}, x);
      CreditsOfAllRemove(ledger, ws - {x}, w);
      assert ws - {w} - {x} == ws - {x} - {w};
    }
  }

  /** `ws` contains all workers ever paid. */
  ghost predicate PaidWithin(ledger: seq<LedgerRow>, ws: set<WorkerId>) {
    forall i :: 0 <= i < |ledger| ==> ledger[i].worker in ws
  }

  /** The total splits exactly over the workers ever paid, whether or not they are still registered. */
  lemma {:induction false} TotalSplitsByWorker(ledger: seq<LedgerRow>, ws: set<WorkerId>)
    requires PaidWithin(ledger, ws)
    ensures CreditsOfAll(ledger, ws) == LedgerTotal(ledger)
  {
    if ledger == [] {
      NoCredits(ws);
    } else {
      TotalSplitsByWorker(ledger[..|ledger| - 1], ws);
      OneRowMore(ledger, ws);
    }
  }

  lemma {:induction false} NoCredits(ws: set<WorkerId>)
    ensures CreditsOfAll([], ws) == 0
  {
    if ws == {} {
      assert CreditsOfAll([], ws) == 0;
    } else {
      var w :| w in ws && CreditsOfAll([], ws) == CreditOf([], w) + CreditsOfAll([], ws - {w});
      assert CreditOf([], w) == 0;
      NoCredits(ws - {w});
    }
  }

  /** Credits conserved in every state that any run of the finer grain reaches, in total, by worker, and split over
      the workers ever paid. */
  lemma ReachableCreditsAreConserved(calls: seq<FineCall>)
    requires FineRun(EMPTY_DB, calls)
    ensures var db := FineFinal(EMPTY_DB, calls);
            && LedgerTotal(db.ledger) == Charges(db.jobs, CompletedIds(db.jobs))
            && (forall w: WorkerId :: CreditOf(db.ledger, w) == Charges(db.jobs, CompletedBy(db.jobs, w)))
            && forall ws :: PaidWithin(db.ledger, ws) ==> CreditsOfAll(db.ledger, ws) == LedgerTotal(db.ledger)
  {
    var db := FineFinal(EMPTY_DB, calls);
    ReachableStatesAreSound(calls);
    CreditsAreConserved(db);
    forall ws | PaidWithin(db.ledger, ws)
      ensures CreditsOfAll(db.ledger, ws) == LedgerTotal(db.ledger)
    {
      TotalSplitsByWorker(db.ledger, ws);
    }
  }

  // ---------------------------------------------------------------- in units

  /** The units of the jobs of `ids`. */
  ghost function UnitsOf(jobs: Jobs, ids: set<JobId>): int
    requires ids <= jobs.Keys
  {
    if ids == {} then 0
    else
      var id :| id in ids;
      jobs[id].units + UnitsOf(jobs, ids - {id})
  }

  lemma {:induction false} UnitsRemove(jobs: Jobs, ids: set<JobId>, x: JobId)
    requires ids <= jobs.Keys && x in ids
    ensures UnitsOf(jobs, ids) == jobs[x].units + UnitsOf(jobs, ids - {x})
    decreases ids
  {
    var id :| id in ids && UnitsOf(jobs, ids) == jobs[id].units + UnitsOf(jobs, ids - {id});
    if id != x {
      UnitsRemove(jobs, ids - {id}, x);
      UnitsRemove(jobs, ids - {x}, id);
      assert ids - {id} - {x} == ids - {x} - {id};
    }
  }

  /** Those of the jobs whose signed manifest requires a GPU, or does not. */
  function Needing(jobs: Jobs, ids: set<JobId>, gpu: bool): (some: set<JobId>)
    requires ids <= jobs.Keys
    ensures some <= jobs.Keys
  {
    set id | id in ids && jobs[id].manifest.requirements.needsGpu == gpu
  }

  lemma {:induction false} ChargesAreUnits(jobs: Jobs, ids: set<JobId>)
    requires ids <= jobs.Keys
    ensures Charges(jobs, ids) == UnitsOf(jobs, Needing(jobs, ids, false)) + 5 * UnitsOf(jobs, Needing(jobs, ids, true))
    decreases ids
  {
    if ids == {} {
      assert Needing(jobs, ids, false) == {} && Needing(jobs, ids, true) == {};
    } else {
      var x :| x in ids;
      var gpu := jobs[x].manifest.requirements.needsGpu;
      ChargesRemove(jobs, ids, x);
      ChargesAreUnits(jobs, ids - {x});
      UnitsRemove(jobs, Needing(jobs, ids, gpu), x);
      assert Needing(jobs, ids - {x}, gpu) == Needing(jobs, ids, gpu) - {x};
      assert Needing(jobs, ids - {x}, !gpu) == Needing(jobs, ids, !gpu);
    }
  }

  /** In every state that any run of the finer grain reaches, a ledger row pays the holder of a completed job the
      units of that job, five times over if its manifest requires a GPU. */
  lemma EveryRowPaysUnits(calls: seq<FineCall>, i: nat)
    requires FineRun(EMPTY_DB, calls) && i < |FineFinal(EMPTY_DB, calls).ledger|
    ensures var db := FineFinal(EMPTY_DB, calls);
            var row := db.ledger[i];
            && row.job in db.jobs && db.jobs[row.job].state == Completed && db.jobs[row.job].holder == Some(row.worker)
            && (db.jobs[row.job].manifest.requirements.needsGpu ==> row.credits == 5 * db.jobs[row.job].units)
            && (!db.jobs[row.job].manifest.requirements.needsGpu ==> row.credits == db.jobs[row.job].units)
            && row.credits > 0
  {
    var db := FineFinal(EMPTY_DB, calls);
    ReachableStatesAreSound(calls);
    assert Pays(db.jobs, db.ledger[i]) && Shaped(db.jobs[db.ledger[i].job]);
  }

  /** ... and so the ledger holds, in total and for each worker, the units of the completed jobs without a GPU and
      five times those of the others. */
  lemma LedgerIsInUnits(calls: seq<FineCall>, w: WorkerId)
    requires FineRun(EMPTY_DB, calls)
    ensures var db := FineFinal(EMPTY_DB, calls);
            var all, mine := CompletedIds(db.jobs), CompletedBy(db.jobs, w);
            && LedgerTotal(db.ledger)
               == UnitsOf(db.jobs, Needing(db.jobs, all, false)) + 5 * UnitsOf(db.jobs, Needing(db.jobs, all, true))
            && CreditOf(db.ledger, w)
               == UnitsOf(db.jobs, Needing(db.jobs, mine, false)) + 5 * UnitsOf(db.jobs, Needing(db.jobs, mine, true))
  {
    var db := FineFinal(EMPTY_DB, calls);
    ReachableCreditsAreConserved(calls);
    ChargesAreUnits(db.jobs, CompletedIds(db.jobs));
    ChargesAreUnits(db.jobs, CompletedBy(db.jobs, w));
  }
}
