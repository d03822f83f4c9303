/** Eligibility: capability match (scheduler.py) and classification-aware routing (routing_policy.py). */
module Scheduler {
  import opened Base
  import opened Contracts

  const TIERS := ["untrusted", "managed", "sanctioned", "confidential_compute"]
  const CLASSIFICATIONS := ["public", "internal", "confidential", "restricted"]
  const DEFAULT_TRUST_TIER := "untrusted"

  function IndexOf(names: seq<string>, x: string): (i: nat)
    ensures i <= |names| && (i < |names| <==> x in names)
    ensures i < |names| ==> names[i] == x
  {
    if names == [] then 0 else if names[0] == x then 0 else 1 + IndexOf(names[1..], x)
  }

  /** The minimum tier of each classification; unknown classifications have none. */
  function RequiredTier(classification: string): Option<string> {
    if classification == "public" then Some("untrusted")
    else if classification == "internal" then Some("managed")
    else if classification == "confidential" then Some("sanctioned")
    else if classification == "restricted" then Some("confidential_compute")
    else None
  }

  predicate MayRoute(classification: string, tier: string) {
    var required := RequiredTier(classification);
    required.Some? && tier in TIERS && IndexOf(TIERS, tier) >= IndexOf(TIERS, required.value)
  }

  predicate ClassificationCleared(requested: string, ceiling: string) {
    requested in CLASSIFICATIONS && ceiling in CLASSIFICATIONS
    && IndexOf(CLASSIFICATIONS, requested) <= IndexOf(CLASSIFICATIONS, ceiling)
  }

  /** Fail closed: a route exists exactly for a known classification and a known tier of at least its rank. */
  lemma MayRouteIffRanked(classification: string, tier: string)
    ensures MayRoute(classification, tier) <==>
              classification in CLASSIFICATIONS && tier in TIERS
              && IndexOf(CLASSIFICATIONS, classification) <= IndexOf(TIERS, tier)
  {
    RankOfRequiredTier(classification);
  }

  /** The classification and the tier it requires have the same rank. */
  lemma RankOfRequiredTier(classification: string)
    ensures RequiredTier(classification).Some? <==> classification in CLASSIFICATIONS
    ensures RequiredTier(classification).Some? ==>
              IndexOf(TIERS, RequiredTier(classification).value) == IndexOf(CLASSIFICATIONS, classification)
  {
    IndexOfFour("public", "internal", "confidential", "restricted", classification);
    assert forall t :: RequiredTier(classification) == Some(t) ==>
      t == "untrusted" || t == "managed" || t == "sanctioned" || t == "confidential_compute";
    if RequiredTier(classification).Some? {
      IndexOfFour("untrusted", "managed", "sanctioned", "confidential_compute", RequiredTier(classification).value);
    }
  }

  lemma IndexOfFour(a: string, b: string, c: string, d: string, x: string)
    ensures IndexOf([a, b, c, d], x) ==
              if x == a then 0 else if x == b then 1 else if x == c then 2 else if x == d then 3 else 4
  {
    assert [a, b, c, d][1..] == [b, c, d] && [b, c, d][1..] == [c, d] && [c, d][1..] == [d] && [d][1..] == [];
    assert IndexOf([d], x) == if x == d then 0 else 1;
    assert IndexOf([c, d], x) == if x == c then 0 else if x == d then 1 else 2;
    assert IndexOf([b, c, d], x) == if x == b then 0 else if x == c then 1 else if x == d then 2 else 3;
  }

  /** A tenant cleared up to `ceiling` never makes a job routable to a tier below what the ceiling allows. */
  lemma ClearanceComposes(requested: string, ceiling: string, tier: string)
    requires ClassificationCleared(requested, ceiling) && MayRoute(ceiling, tier)
    ensures MayRoute(requested, tier)
  {
    MayRouteIffRanked(requested, tier);
    MayRouteIffRanked(ceiling, tier);
  }

  predicate CapabilityMatch(r: Requires, cap: Capability, freeRam: Option<real>) {
    && (r.needsGpu ==> cap.hasGpu)
    && (r.minVram.Some? ==> r.minVram.value <= match cap.vram case Some(v) => v case None => 0.0)
    && (r.minRam.Some? ==> r.minRam.value <= match freeRam case Some(f) => f case None => cap.ramGb)
    && r.minCpus <= cap.cpus
    && r.accel <= cap.accel
  }
}
