/** The nonce search: `_hash_chunk`, `_hashcrack` and `aggregate_hashcrack`. */
module HashCrack {
  import opened Base
  import opened Partition
  import opened Jobkit

  datatype ChunkOut = ChunkOut(nonce: Option<int>, hash: Option<string>, tried: int)
  datatype HashOut = HashOut(
    target: string, found: bool, nonce: Option<int>, hash: Option<string>, tried: int, yielded: bool)

  /** `digest.startswith(target)`. */
  predicate Hit(w: World, prefix: string, target: string, nonce: int) {
    target <= (w.digest)(prefix, nonce)
  }

  /** A hit is a digest whose first characters are the target. */
  lemma HitBeginsWithTarget(w: World, prefix: string, target: string, nonce: int)
    ensures var digest := (w.digest)(prefix, nonce);
            Hit(w, prefix, target, nonce) <==>
              |target| <= |digest| && forall i :: 0 <= i < |target| ==> digest[i] == target[i]
  {
  }

  ghost predicate SomeHit(w: World, prefix: string, target: string, lo: int, hi: int) {
    exists n :: lo <= n < hi && Hit(w, prefix, target, n)
  }

  /** A witness reported for [lo, hi): its digest really starts with the target. */
  ghost predicate Witness(w: World, prefix: string, target: string, lo: int, hi: int,
                          nonce: Option<int>, hash: Option<string>) {
    && nonce.Some? && lo <= nonce.value < hi
    && Hit(w, prefix, target, nonce.value)
    && hash == Some((w.digest)(prefix, nonce.value))
  }

  /** What one core reports about its nonce range. */
  ghost predicate ChunkSearched(w: World, prefix: string, target: string, r: Range, out: ChunkOut) {
    match out.nonce
    case None => out.hash.None? && !SomeHit(w, prefix, target, r.start, r.end) && out.tried == r.Size()
    case Some(n) =>
      && Witness(w, prefix, target, r.start, r.end, out.nonce, out.hash)
      && !SomeHit(w, prefix, target, r.start, n)
      && out.tried == n - r.start + 1
  }

  method HashChunk(w: World, prefix: string, target: string, r: Range) returns (out: ChunkOut)
    requires r.start <= r.end
    ensures ChunkSearched(w, prefix, target, r, out)
    ensures out.tried == if out.nonce.Some? then out.nonce.value - r.start + 1 else r.end - r.start
  {
    var nonce := r.start;
    while nonce < r.end
      invariant r.start <= nonce <= r.end
      invariant !SomeHit(w, prefix, target, r.start, nonce)
    {
      var digest := (w.digest)(prefix, nonce);
      if target <= digest {
        return ChunkOut(Some(nonce), Some(digest), nonce - r.start + 1);
      }
      nonce := nonce + 1;
    }
    return ChunkOut(None, None, r.end - r.start);
  }

  function LowerChar(c: char): char {
    if 'A' <= c <= 'Z' then c - 'A' + 'a' else c
  }

  /** `str.lower()` on the ASCII letters; no other letter can occur in a hex digest. */
  function Lower(s: string): string {
    seq(|s|, i requires 0 <= i < |s| => LowerChar(s[i]))
  }

  const UPPER_LETTERS := "ABCDEFGHIJKLMNOPQRSTUVWXYZ"
  const LOWER_LETTERS := "abcdefghijklmnopqrstuvwxyz"

  /** Lowering turns the capital letters into the small ones in order and leaves every other character alone, so that a
      target is the same however its letters are written. */
  lemma LowerTable(s: string, i: nat)
    requires i < |s|
    ensures |Lower(s)| == |s| && Lower(Lower(s)) == Lower(s)
    ensures forall k :: 0 <= k < 26 && s[i] == UPPER_LETTERS[k] ==> Lower(s)[i] == LOWER_LETTERS[k]
    ensures s[i] !in UPPER_LETTERS ==> Lower(s)[i] == s[i]
  {
    assert forall k :: 0 <= k < 26 ==> UPPER_LETTERS[k] as int == 65 + k && LOWER_LETTERS[k] as int == 97 + k;
    assert 'A' <= s[i] <= 'Z' ==> UPPER_LETTERS[s[i] as int - 65] == s[i];
  }

  function ChunkCount(span: nat, cores: nat): (n: nat)
    requires cores > 0
    ensures n > 0
  {
    Max(cores, Min(4096, span / 500_000 + 1))
  }

  /** The per-core task list: contiguous, non-empty, covering the tile's nonces. */
  method ChunkTasks(start: int, end: int, cores: nat) returns (tasks: seq<Range>)
    requires cores > 0
    ensures Covers(tasks, start, Max(start, end))
    ensures forall t :: t in tasks ==> t.start < t.end
  {
    var span := Max(0, end - start);
    var nChunks := ChunkCount(span, cores);
    var base, rem := span / nChunks, span % nChunks;
    assert span == nChunks * base + rem;
    tasks := CutTasks(start, base, rem, nChunks);
  }

  method CutTasks(start: int, base: nat, rem: nat, n: nat) returns (tasks: seq<Range>)
    requires rem < n
    ensures Covers(tasks, start, start + n * base + rem)
    ensures forall t :: t in tasks ==> t.start < t.end
  {
    tasks := [];
    var pos := start;
    for c := 0 to n
      invariant pos == start + c * base + Min(c, rem)
      invariant Covers(tasks, start, pos)
      invariant forall t :: t in tasks ==> t.start < t.end
    {
      var size := LaidSize(base, rem, c);
      assert (c + 1) * base == c * base + base;
      if size <= 0 {
        continue;
      }
      CoversAppend(tasks, start, pos, pos + size);
      tasks := tasks + [Range(pos, pos + size)];
      pos := pos + size;
    }
  }

  function Tried(parts: seq<ChunkOut>): seq<int> {
    seq(|parts|, i requires 0 <= i < |parts| => parts[i].tried)
  }

  ghost predicate PartsSearched(w: World, prefix: string, target: string, tasks: seq<Range>,
                                order: seq<nat>, parts: seq<ChunkOut>) {
    && |parts| == |order|
    && (forall i :: 0 <= i < |order| ==> order[i] < |tasks|)
    && (forall i, j :: 0 <= i < j < |order| ==> order[i] != order[j])
    && forall i :: 0 <= i < |order| ==> ChunkSearched(w, prefix, target, tasks[order[i]], parts[i])
  }

  /** If every chunk ran and none has a witness, the whole range was searched and counted. */
  lemma NoChunkHit(w: World, prefix: string, target: string, tasks: seq<Range>, lo: int, hi: int,
                   order: seq<nat>, parts: seq<ChunkOut>)
    requires Covers(tasks, lo, hi) && PartsSearched(w, prefix, target, tasks, order, parts)
    requires Permutation(order, |tasks|)
    requires forall p :: p in parts ==> p.nonce.None?
    ensures !SomeHit(w, prefix, target, lo, hi) && Sum(Tried(parts)) == hi - lo
  {
    forall n | lo <= n < hi
      ensures !Hit(w, prefix, target, n)
    {
      var k := ExactCover(tasks, lo, hi, n);
      PermutationHits(order, |tasks|, k);
      var i :| 0 <= i < |order| && order[i] == k;
      assert parts[i] in parts;
    }
    forall i | 0 <= i < |parts|
      ensures parts[i].tried == tasks[order[i]].Size()
    {
      assert parts[i] in parts;
    }
    SumInAnyOrder(tasks, lo, hi, order, Tried(parts));
  }

  /** No chunk counts more hashes than it has nonces. */
  lemma TriedAtMost(w: World, prefix: string, target: string, tasks: seq<Range>, lo: int, hi: int,
                    order: seq<nat>, parts: seq<ChunkOut>)
    requires Covers(tasks, lo, hi) && PartsSearched(w, prefix, target, tasks, order, parts)
    requires Permutation(order, |tasks|)
    ensures 0 <= Sum(Tried(parts)) <= hi - lo
  {
    CoversBounds(tasks, lo, hi);
    var sizes := Reorder(Sizes(tasks), order);
    SumNonNegative(Tried(parts));
    SumMonotone(Tried(parts), sizes);
    SumInAnyOrder(tasks, lo, hi, order, sizes);
  }

  /** One tile's answer. `complete` says that no chunk was cancelled by a yield or lost to an exception. */
  ghost predicate TileSearched(w: World, prefix: string, target: string, lo: int, hi: int,
                               complete: bool, out: HashOut) {
    && out.target == target
    && (out.found ==> Witness(w, prefix, target, lo, hi, out.nonce, out.hash))
    && (!out.found ==> out.nonce.None? && out.hash.None?)
    && (complete ==> (out.found <==> SomeHit(w, prefix, target, lo, hi)))
    && (complete ==> 0 <= out.tried <= hi - lo)
    && (complete && !out.found ==> out.tried == hi - lo)
  }

  /** The tile executor. `finished(n)` lists, in completion order, the tasks of n that returned a result. */
  method RunHashcrack(w: World, prefix: string, rawTarget: string, start: int, end: int, cores: nat,
                      finished: nat -> seq<nat>, yielded: bool)
    returns (out: HashOut, ghost complete: bool)
    requires cores > 0
    requires forall n :: (forall i :: 0 <= i < |finished(n)| ==> finished(n)[i] < n)
                         && forall i, j :: 0 <= i < j < |finished(n)| ==> finished(n)[i] != finished(n)[j]
    ensures out.yielded == yielded
    ensures (forall n :: Permutation(finished(n), n)) ==> complete
    ensures TileSearched(w, prefix, Lower(rawTarget), start, Max(start, end), complete, out)
  {
    var target := Lower(rawTarget);
    var tasks := ChunkTasks(start, end, cores);
    var order := finished(|tasks|);
    complete := Permutation(order, |tasks|);
    var parts: seq<ChunkOut> := [];
    CoversBounds(tasks, start, Max(start, end));
    for k := 0 to |order|
      invariant PartsSearched(w, prefix, target, tasks, order[..k], parts)
    {
      var part := HashChunk(w, prefix, target, tasks[order[k]]);
      parts := parts + [part];
    }
    assert order[..|order|] == order;
    var tried := Sum(Tried(parts));
    if complete {
      TriedAtMost(w, prefix, target, tasks, start, Max(start, end), order, parts);
    }
    var winner := FirstWinner(parts);
    if winner < |parts| {
      assert ChunkSearched(w, prefix, target, tasks[order[winner]], parts[winner]);
      out := HashOut(target, true, parts[winner].nonce, parts[winner].hash, tried, yielded);
    } else {
      if complete {
        NoChunkHit(w, prefix, target, tasks, start, Max(start, end), order, parts);
      }
      out := HashOut(target, false, None, None, tried, yielded);
    }
  }

  method FirstWinner(parts: seq<ChunkOut>) returns (k: nat)
    ensures k <= |parts|
    ensures k < |parts| ==> parts[k].nonce.Some?
    ensures forall i :: 0 <= i < k ==> parts[i].nonce.None?
  {
    k := 0;
    while k < |parts| && parts[k].nonce.None?
      invariant k <= |parts|
      invariant forall i :: 0 <= i < k ==> parts[i].nonce.None?
    {
      k := k + 1;
    }
  }

  datatype FleetHash = FleetHash(
    found: bool, target: Option<string>, nonce: Option<int>, hash: Option<string>, tried: int, tiles: nat)

  function HashesTried(results: seq<HashOut>): seq<int> {
    seq(|results|, i requires 0 <= i < |results| => results[i].tried)
  }

  /** The merge: the first winner of the list, the first target named, all hashes counted. */
  ghost predicate FleetAnswer(results: seq<HashOut>, agg: FleetHash) {
    && agg.tiles == |results| && agg.tried == Sum(HashesTried(results))
    && (agg.found <==> exists r :: r in results && r.found)
    && (agg.found ==> exists k :: 0 <= k < |results| && results[k].found
                                  && (forall i :: 0 <= i < k ==> !results[i].found)
                                  && agg.nonce == results[k].nonce && agg.hash == results[k].hash)
    && (!agg.found ==> agg.nonce.None? && agg.hash.None?)
    && (agg.target.None? ==> forall r :: r in results ==> r.target == "")
    && (agg.target.Some? ==> exists k :: 0 <= k < |results| && results[k].target != ""
                                         && (forall i :: 0 <= i < k ==> results[i].target == "")
                                         && agg.target.value == results[k].target)
  }

  /** `[r for r in results if r]`; None is an empty result. */
  function Present(results: seq<Option<HashOut>>): seq<HashOut> {
    if results == [] then []
    else
      var last := results[|results| - 1];
      Present(results[..|results| - 1]) + if last.Some? then [last.value] else []
  }

  lemma {:induction false} AllPresent(results: seq<Option<HashOut>>)
    requires forall i :: 0 <= i < |results| ==> results[i].Some?
    ensures |Present(results)| == |results|
    ensures forall i :: 0 <= i < |results| ==> Present(results)[i] == results[i].value
  {
    if results != [] {
      AllPresent(results[..|results| - 1]);
    }
  }

  method AggregateHashcrack(given: seq<Option<HashOut>>) returns (agg: FleetHash)
    ensures FleetAnswer(Present(given), agg)
  {
    var results := Present(given);
    var tried := 0;
    var winner: Option<HashOut> := None;
    var target: Option<string> := None;
    ghost var at, named := 0, 0;
    for k := 0 to |results|
      invariant tried == Sum(HashesTried(results)[..k])
      invariant winner.None? ==> forall i :: 0 <= i < k ==> !results[i].found
      invariant winner.Some? ==> 0 <= at < k && winner.value == results[at] && results[at].found
                                 && forall i :: 0 <= i < at ==> !results[i].found
      invariant target.None? ==> forall i :: 0 <= i < k ==> results[i].target == ""
      invariant target.Some? ==> 0 <= named < k && target.value == results[named].target != ""
                                 && forall i :: 0 <= i < named ==> results[i].target == ""
    {
      SumPrefix(HashesTried(results), k);
      tried := tried + results[k].tried;
      if winner.None? && results[k].found {
        winner, at := Some(results[k]), k;
      }
      if target.None? && results[k].target != "" {
        target, named := Some(results[k].target), k;
      }
    }
    assert HashesTried(results)[..|results|] == HashesTried(results);
    agg := if winner.Some?
      then FleetHash(true, target, winner.value.nonce, winner.value.hash, tried, |results|)
      else FleetHash(false, target, None, None, tried, |results|);
  }

  /** Complete tiles over `ranges`, shifted by the first nonce, in any completion order. */
  ghost predicate HonestTiles(w: World, prefix: string, target: string, first: int, ranges: seq<Range>,
                              order: seq<nat>, outs: seq<HashOut>) {
    && Permutation(order, |ranges|) && |outs| == |order|
    && forall i :: 0 <= i < |outs| ==>
         TileSearched(w, prefix, target, first + ranges[order[i]].start, first + ranges[order[i]].end, true, outs[i])
  }

  /** Two levels of tiling search the keyspace completely: found iff a solution exists, with a true witness. */
  lemma SearchIsComplete(w: World, prefix: string, target: string, first: int, keyspace: int,
                         ranges: seq<Range>, order: seq<nat>, outs: seq<HashOut>, agg: FleetHash)
    requires Covers(ranges, 0, keyspace) && HonestTiles(w, prefix, target, first, ranges, order, outs)
    requires FleetAnswer(outs, agg)
    ensures agg.found <==> SomeHit(w, prefix, target, first, first + keyspace)
    ensures agg.found ==> Witness(w, prefix, target, first, first + keyspace, agg.nonce, agg.hash)
    ensures 0 <= agg.tried <= keyspace
    ensures !agg.found ==> agg.tried == keyspace
  {
    CoversBounds(ranges, 0, keyspace);
    var sizes := Reorder(Sizes(ranges), order);
    SumNonNegative(HashesTried(outs));
    SumMonotone(HashesTried(outs), sizes);
    SumInAnyOrder(ranges, 0, keyspace, order, sizes);
    if agg.found {
      var k :| 0 <= k < |outs| && outs[k].found && agg.nonce == outs[k].nonce && agg.hash == outs[k].hash;
      assert Witness(w, prefix, target, first + ranges[order[k]].start, first + ranges[order[k]].end,
                     outs[k].nonce, outs[k].hash);
    } else {
      NothingFound(w, prefix, target, first, keyspace, ranges, order, outs);
    }
  }

  /** If no complete tile found anything, there is nothing to find. */
  lemma NothingFound(w: World, prefix: string, target: string, first: int, keyspace: int,
                     ranges: seq<Range>, order: seq<nat>, outs: seq<HashOut>)
    requires Covers(ranges, 0, keyspace) && HonestTiles(w, prefix, target, first, ranges, order, outs)
    requires forall r :: r in outs ==> !r.found
    ensures !SomeHit(w, prefix, target, first, first + keyspace) && Sum(HashesTried(outs)) == keyspace
  {
    forall i | 0 <= i < |outs|
      ensures outs[i].tried == ranges[order[i]].Size()
    {
      assert outs[i] in outs;
    }
    SumInAnyOrder(ranges, 0, keyspace, order, HashesTried(outs));
    forall n | first <= n < first + keyspace
      ensures !Hit(w, prefix, target, n)
    {
      var k := ExactCover(ranges, 0, keyspace, n - first);
      PermutationHits(order, |ranges|, k);
      var i :| 0 <= i < |order| && order[i] == k;
      assert outs[i] in outs;
    }
  }
}
