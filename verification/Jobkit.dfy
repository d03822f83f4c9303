/** What a tile computes, and the data its executor returns (src/jobkit/execute.py).

    Random draws, the objective, the escape count of a pixel, the synthetic record of an index, the digest
    of a nonce, the return of a simulated path and the square root are functions of a `World`: deterministic,
    otherwise unknown. */
module Jobkit {
  import opened Base
  import opened Partition

  /** The float score of a candidate; `NegInf` is the starting value `float("-inf")`. */
  datatype Score = NegInf | Fin(v: real) {
    predicate Less(other: Score) {
      match (this, other)
      case (NegInf, Fin(_)) => true
      case (Fin(a), Fin(b)) => a < b
      case _ => false
    }
  }

  datatype Sweep = Sweep(dims: int, seed: int)
  datatype Frame = Frame(width: nat, height: int, maxIter: int)
  datatype Spec = Spec(text: string, fields: seq<string>)

  datatype Market = Market(steps: int, mu: real, sigma: real)

  type Record = map<string, string>

  datatype World = World(
    config: (Sweep, int) -> seq<real>,
    objective: seq<real> -> real,
    escape: (Frame, int, int) -> int,
    record: (Spec, int) -> Record,
    digest: (string, int) -> string,
    path: (Market, int, int) -> real,
    sqrt: real -> real)

  /** The answers of `should_yield()`, by number of chunks already done. */
  type YieldFn = nat -> bool

  /** Values listed in completion order add up to the whole work. */
  lemma SumInAnyOrder(ranges: seq<Range>, lo: int, hi: int, order: seq<nat>, values: seq<int>)
    requires Covers(ranges, lo, hi) && Permutation(order, |ranges|) && |values| == |order|
    requires forall i :: 0 <= i < |order| ==> values[i] == ranges[order[i]].Size()
    ensures Sum(values) == hi - lo
  {
    SizesAddUp(ranges, lo, hi);
    assert values == Reorder(Sizes(ranges), order);
    ReorderMultiset(Sizes(ranges), order);
    SumMultiset(values, Sizes(ranges));
  }
}
