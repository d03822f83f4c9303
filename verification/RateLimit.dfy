/** The fixed-window rate limiter with its lazy sweep (src/orchestrator/ratelimit.py). */
module RateLimit {
  import opened Base

  const SWEEP_EVERY := 1024

  datatype Bucket = Bucket(start: real, count: int)
  datatype Answer = Allowed | Retry(after: int)
  datatype Config = Config(limit: int, window: real, sweeping: bool)
  datatype State = State(buckets: map<string, Bucket>, ops: nat)
  datatype Request = Request(key: string, now: real)

  /** A bucket whose window has rolled over. */
  predicate Stale(cfg: Config, b: Bucket, now: real) {
    now - b.start >= cfg.window
  }

  function Swept(cfg: Config, buckets: map<string, Bucket>, now: real): map<string, Bucket> {
    map k | k in buckets && !Stale(cfg, buckets[k], now) :: buckets[k]
  }

  /** The window the request falls in. */
  function Current(cfg: Config, buckets: map<string, Bucket>, r: Request): Bucket {
    var b := if r.key in buckets then buckets[r.key] else Bucket(r.now, 0);
    if Stale(cfg, b, r.now) then Bucket(r.now, 0) else b
  }

  function Step(cfg: Config, s: State, r: Request): (State, Answer) {
    var ops := s.ops + 1;
    var buckets := if cfg.sweeping && ops % SWEEP_EVERY == 0 then Swept(cfg, s.buckets, r.now) else s.buckets;
    var b := Current(cfg, buckets, r);
    if b.count >= cfg.limit then
      (State(buckets, ops), Retry(Max(1, (cfg.window - (r.now - b.start)).Floor + 1)))
    else
      (State(buckets[r.key := Bucket(b.start, b.count + 1)], ops), Allowed)
  }

  class RateLimiter {
    const limit: int
    const window: real
    var buckets: map<string, Bucket>
    var ops: nat

    ghost function Abstract(): State
      reads this
    {
      State(buckets, ops)
    }

    function Settings(): Config {
      Config(limit, window, true)
    }

    constructor (limit: int, window: real)
      ensures Abstract() == State(map[], 0) && Settings() == Config(limit, window, true)
    {
      this.limit, this.window := limit, window;
      buckets, ops := map[], 0;
    }

    method Check(key: string, now: real) returns (answer: Answer)
      modifies this
      ensures (Abstract(), answer) == Step(Settings(), old(Abstract()), Request(key, now))
    {
      ops := ops + 1;
      if ops % SWEEP_EVERY == 0 {
        Sweep(now);
      }
      var start, count := now, 0;
      if key in buckets {
        start, count := buckets[key].start, buckets[key].count;
      }
      if now - start >= window {
        start, count := now, 0;
      }
      if count >= limit {
        return Retry(Max(1, (window - (now - start)).Floor + 1));
      }
      buckets := buckets[key := Bucket(start, count + 1)];
      return Allowed;
    }

    method Sweep(now: real)
      modifies this`buckets
      ensures buckets == Swept(Settings(), old(buckets), now)
    {
      var stale := set k | k in buckets && now - buckets[k].start >= window;
      ghost var before := buckets;
      while stale != {}
        invariant forall k :: k in stale ==> k in before && Stale(Settings(), before[k], now)
        invariant forall k :: k in buckets ==> k in before && buckets[k] == before[k]
        invariant forall k :: k in before && k !in buckets ==> Stale(Settings(), before[k], now)
        invariant forall k :: k in buckets && Stale(Settings(), before[k], now) ==> k in stale
      {
        var k :| k in stale;
        buckets := buckets - {k};
        stale := stale - {k};
      }
    }
  }

  // ---------------------------------------------------------------- runs

  ghost predicate Monotone(reqs: seq<Request>) {
    forall i, j :: 0 <= i < j < |reqs| ==> reqs[i].now <= reqs[j].now
  }

  function After(cfg: Config, reqs: seq<Request>): State {
    if reqs == [] then State(map[], 0)
    else Step(cfg, After(cfg, reqs[..|reqs| - 1]), reqs[|reqs| - 1]).0
  }

  /** The answer to request k of the run. */
  function AnswerTo(cfg: Config, reqs: seq<Request>, k: nat): Answer
    requires k < |reqs|
  {
    Step(cfg, After(cfg, reqs[..k]), reqs[k]).1
  }

  /** `kept` lacks only buckets of `all` that are stale at `now`. */
  ghost predicate LacksOnlyStale(cfg: Config, kept: map<string, Bucket>, all: map<string, Bucket>, now: real) {
    && (forall k :: k in kept ==> k in all && kept[k] == all[k])
    && (forall k :: k in all && k !in kept ==> Stale(cfg, all[k], now))
  }

  lemma SameAnswer(cfg: Config, s: State, t: State, r: Request, since: real)
    requires since <= r.now && LacksOnlyStale(cfg, s.buckets, t.buckets, since)
    ensures var quiet := cfg.(sweeping := false);
            && Step(cfg, s, r).1 == Step(quiet, t, r).1
            && LacksOnlyStale(cfg, Step(cfg, s, r).0.buckets, Step(quiet, t, r).0.buckets, r.now)
  {
    var buckets := if cfg.sweeping && (s.ops + 1) % SWEEP_EVERY == 0 then Swept(cfg, s.buckets, r.now) else s.buckets;
    assert LacksOnlyStale(cfg, buckets, t.buckets, r.now);
    assert Current(cfg, buckets, r) == Current(cfg, t.buckets, r);
  }

  lemma {:induction false} SweptStates(cfg: Config, reqs: seq<Request>, now: real)
    requires Monotone(reqs) && (reqs != [] ==> reqs[|reqs| - 1].now <= now)
    ensures LacksOnlyStale(cfg, After(cfg, reqs).buckets, After(cfg.(sweeping := false), reqs).buckets, now)
  {
    if reqs != [] {
      var n := |reqs| - 1;
      SweptStates(cfg, reqs[..n], reqs[n].now);
      SameAnswer(cfg, After(cfg, reqs[..n]), After(cfg.(sweeping := false), reqs[..n]), reqs[n], reqs[n].now);
    }
  }

  /** With a clock that never goes back, the sweep changes no answer. */
  lemma SweepIsInvisible(cfg: Config, reqs: seq<Request>, k: nat)
    requires Monotone(reqs) && k < |reqs|
    ensures AnswerTo(cfg, reqs, k) == AnswerTo(cfg.(sweeping := false), reqs, k)
  {
    SweptStates(cfg, reqs[..k], reqs[k].now);
    SameAnswer(cfg, After(cfg, reqs[..k]), After(cfg.(sweeping := false), reqs[..k]), reqs[k], reqs[k].now);
  }

  // ---------------------------------------------------------------- the bound

  /** The times at which `key` was admitted. */
  function Admissions(cfg: Config, reqs: seq<Request>, key: string): seq<real> {
    if reqs == [] then []
    else
      var n := |reqs| - 1;
      Admissions(cfg, reqs[..n], key)
      + if reqs[n].key == key && AnswerTo(cfg, reqs, n) == Allowed then [reqs[n].now] else []
  }

  /** How many times lie in the half-open interval [t, t + window). */
  function CountIn(times: seq<real>, t: real, window: real): nat {
    if times == [] then 0
    else
      CountIn(times[..|times| - 1], t, window)
      + if t <= times[|times| - 1] < t + window then 1 else 0
  }

  lemma {:induction false} CountInAppend(a: seq<real>, b: seq<real>, t: real, window: real)
    ensures CountIn(a + b, t, window) == CountIn(a, t, window) + CountIn(b, t, window)
  {
    if b == [] {
      assert a + b == a;
    } else {
      assert (a + b)[..|a + b| - 1] == a + b[..|b| - 1];
      CountInAppend(a, b[..|b| - 1], t, window);
    }
  }

  lemma {:induction false} CountInBounds(times: seq<real>, t: real, window: real)
    ensures CountIn(times, t, window) <= |times|
    ensures (forall x :: x in times ==> x < t || t + window <= x) ==> CountIn(times, t, window) == 0
    ensures times != [] && times[0] < t ==> CountIn(times, t, window) <= |times| - 1
  {
    if times != [] {
      var n := |times| - 1;
      CountInBounds(times[..n], t, window);
      assert times[n] in times && forall x :: x in times[..n] ==> x in times;
    }
  }

  /** Admissions split into those of earlier windows and those of the current one, which starts at `start`. */
  ghost predicate Split(limit: nat, window: real, start: real, earlier: seq<real>, current: seq<real>) {
    && |current| <= limit && (current != [] ==> current[0] == start)
    && (forall x :: x in earlier ==> x < start)
    && (forall x :: x in current ==> start <= x < start + window)
    && (forall t: real :: CountIn(earlier, t, window) <= 2 * limit - 1)
    && (forall t: real :: t + window > start ==> CountIn(earlier, t, window) <= limit - 1)
  }

  /** When the window rolls over, the current admissions join the earlier ones. */
  lemma RollOver(limit: nat, window: real, start: real, now: real, earlier: seq<real>, current: seq<real>)
    requires Split(limit, window, start, earlier, current) && current != []
    requires window > 0.0 && now - start >= window
    ensures Split(limit, window, now, earlier + current, [])
  {
    forall t: real
      ensures CountIn(earlier + current, t, window) <= 2 * limit - 1
      ensures t + window > now ==> CountIn(earlier + current, t, window) <= limit - 1
    {
      CountInAppend(earlier, current, t, window);
      CountInBounds(earlier, t, window);
      CountInBounds(current, t, window);
    }
  }

  /** `earlier` and `current` are the admissions of the key so far, and its bucket, if any, counts the current ones. */
  ghost predicate Accounts(cfg: Config, s: State, admitted: seq<real>, key: string, earlier: seq<real>,
                           current: seq<real>, now: real) {
    && admitted == earlier + current
    && if key in s.buckets then
         && s.buckets[key].count == |current| > 0
         && Split(Max(cfg.limit, 0), cfg.window, s.buckets[key].start, earlier, current)
         && s.buckets[key].start <= now
       else earlier == current == []
  }

  lemma OneRequest(cfg: Config, s: State, r: Request, admitted: seq<real>, earlier: seq<real>, current: seq<real>,
                   before: real)
    returns (earlier': seq<real>, current': seq<real>)
    requires cfg.limit > 0 && cfg.window > 0.0 && !cfg.sweeping && before <= r.now
    requires Accounts(cfg, s, admitted, r.key, earlier, current, before)
    ensures var (next, answer) := Step(cfg, s, r);
            Accounts(cfg, next, admitted + if answer == Allowed then [r.now] else [], r.key, earlier', current', r.now)
  {
    earlier', current' := earlier, current;
    if r.key in s.buckets && Stale(cfg, s.buckets[r.key], r.now) {
      RollOver(cfg.limit, cfg.window, s.buckets[r.key].start, r.now, earlier, current);
      earlier', current' := earlier + current, [];
    }
    if Step(cfg, s, r).1 == Allowed {
      assert earlier' + (current' + [r.now]) == (earlier + current) + [r.now];
      current' := current' + [r.now];
    }
  }

  lemma {:induction false} Windows(cfg: Config, reqs: seq<Request>, key: string, now: real)
    returns (earlier: seq<real>, current: seq<real>)
    requires cfg.limit > 0 && cfg.window > 0.0 && !cfg.sweeping
    requires Monotone(reqs) && (reqs != [] ==> reqs[|reqs| - 1].now <= now)
    ensures Accounts(cfg, After(cfg, reqs), Admissions(cfg, reqs, key), key, earlier, current, now)
  {
    if reqs == [] {
      return [], [];
    }
    var n := |reqs| - 1;
    earlier, current := Windows(cfg, reqs[..n], key, reqs[n].now);
    if reqs[n].key == key {
      earlier, current := OneRequest(cfg, After(cfg, reqs[..n]), reqs[n], Admissions(cfg, reqs[..n], key),
                                     earlier, current, reqs[n].now);
    }
  }

  /** Fewer than twice the limit in any half-open interval as long as the window, for every key. */
  lemma LessThanTwiceTheLimit(cfg: Config, reqs: seq<Request>, key: string, t: real)
    requires Monotone(reqs)
    ensures CountIn(Admissions(cfg, reqs, key), t, cfg.window) <= Max(2 * cfg.limit - 1, 0)
  {
    SameAdmissions(cfg, reqs, key);
    if cfg.window <= 0.0 {
      CountInBounds(Admissions(cfg, reqs, key), t, cfg.window);
    } else if cfg.limit <= 0 {
      NothingAdmitted(cfg, reqs, key);
    } else {
      var last := if reqs == [] then t else reqs[|reqs| - 1].now;
      var earlier, current := Windows(cfg.(sweeping := false), reqs, key, last);
      CountInAppend(earlier, current, t, cfg.window);
      CountInBounds(current, t, cfg.window);
    }
  }

  // ---------------------------------------------------------------- the bound is attained

  function Times(now: real, k: nat): (times: seq<real>)
    ensures |times| == k
  {
    if k == 0 then [] else Times(now, k - 1) + [now]
  }

  lemma {:induction false} CountTimes(now: real, k: nat, t: real, window: real)
    ensures CountIn(Times(now, k), t, window) == if t <= now < t + window then k else 0
  {
    if k > 0 {
      CountTimes(now, k - 1, t, window);
      assert Times(now, k)[..k - 1] == Times(now, k - 1);
    }
  }

  /** A run up to `now`, what it admitted of the key, and the window that its next request falls in. */
  ghost predicate Reached(cfg: Config, reqs: seq<Request>, key: string, now: real, admitted: seq<real>, w: Bucket) {
    && Monotone(reqs) && (reqs != [] ==> reqs[|reqs| - 1].now <= now)
    && Admissions(cfg, reqs, key) == admitted
    && Current(cfg, After(cfg, reqs).buckets, Request(key, now)) == w
    && (w.count > 0 ==> key in After(cfg, reqs).buckets && After(cfg, reqs).buckets[key] == w)
  }

  lemma OneMoreFits(cfg: Config, reqs: seq<Request>, key: string, now: real, admitted: seq<real>, w: Bucket)
    returns (next: seq<Request>)
    requires !cfg.sweeping && cfg.window > 0.0 && 0 <= w.count < cfg.limit
    requires Reached(cfg, reqs, key, now, admitted, w)
    ensures Reached(cfg, next, key, now, admitted + [now], Bucket(w.start, w.count + 1))
  {
    next := reqs + [Request(key, now)];
    NextRequest(cfg, reqs, Request(key, now));
  }

  /** k requests at the same time are all admitted if the window has room for them. */
  lemma {:induction false} BurstFits(
    cfg: Config, reqs: seq<Request>, key: string, now: real, admitted: seq<real>, w: Bucket, k: nat)
    returns (all: seq<Request>)
    requires !cfg.sweeping && cfg.window > 0.0 && 0 <= w.count && w.count + k <= cfg.limit
    requires Reached(cfg, reqs, key, now, admitted, w)
    ensures Reached(cfg, all, key, now, admitted + Times(now, k), Bucket(w.start, w.count + k))
    decreases k
  {
    if k == 0 {
      assert admitted + Times(now, 0) == admitted;
      return reqs;
    }
    var init := BurstFits(cfg, reqs, key, now, admitted, w, k - 1);
    all := OneMoreFits(cfg, init, key, now, admitted + Times(now, k - 1), Bucket(w.start, w.count + k - 1));
    assert admitted + Times(now, k - 1) + [now] == admitted + Times(now, k);
  }

  /** Time passes without a request: the window stays, or rolls over once it is stale. */
  lemma Later(cfg: Config, reqs: seq<Request>, key: string, now: real, admitted: seq<real>, w: Bucket, later: real)
    requires Reached(cfg, reqs, key, now, admitted, w) && w.count > 0 && now <= later
    ensures Reached(cfg, reqs, key, later, admitted, if Stale(cfg, w, later) then Bucket(later, 0) else w)
  {
  }

  /** One request at 0, the rest of the limit half a window later, and the limit again when the window rolls over. */
  lemma TightRun(cfg: Config) returns (reqs: seq<Request>)
    requires cfg.limit >= 1 && cfg.window > 0.0 && !cfg.sweeping
    ensures Monotone(reqs)
    ensures Admissions(cfg, reqs, "k")
         == Times(0.0, 1) + Times(cfg.window / 2.0, cfg.limit - 1) + Times(cfg.window, cfg.limit)
  {
    var half, n := cfg.window / 2.0, cfg.limit;
    reqs := BurstFits(cfg, [], "k", 0.0, [], Bucket(0.0, 0), 1);
    var a := [] + Times(0.0, 1);
    Later(cfg, reqs, "k", 0.0, a, Bucket(0.0, 1), half);
    reqs := BurstFits(cfg, reqs, "k", half, a, Bucket(0.0, 1), n - 1);
    Later(cfg, reqs, "k", half, a + Times(half, n - 1), Bucket(0.0, n), cfg.window);
    reqs := BurstFits(cfg, reqs, "k", cfg.window, a + Times(half, n - 1), Bucket(cfg.window, 0), n);
  }

  /** The bound is attained for every limit and window: 2 * limit - 1 admissions in one half-open interval. */
  lemma BoundIsTight(cfg: Config) returns (reqs: seq<Request>, t: real)
    requires cfg.limit >= 1 && cfg.window > 0.0
    ensures Monotone(reqs) && CountIn(Admissions(cfg, reqs, "k"), t, cfg.window) == 2 * cfg.limit - 1
  {
    t := cfg.window / 2.0;
    reqs := TightRun(cfg.(sweeping := false));
    SameAdmissions(cfg, reqs, "k");
    CountOfThree(Times(0.0, 1), t, cfg.window, cfg.limit);
  }

  lemma CountOfThree(first: seq<real>, half: real, window: real, n: nat)
    requires n >= 1 && window > 0.0 && half == window / 2.0 && first == Times(0.0, 1)
    ensures CountIn(first + Times(half, n - 1) + Times(window, n), half, window) == 2 * n - 1
  {
    CountTimes(0.0, 1, half, window);
    CountTimes(half, n - 1, half, window);
    CountTimes(window, n, half, window);
    CountJoined(first, Times(half, n - 1), Times(window, n), half, window);
  }

  lemma CountJoined(a: seq<real>, b: seq<real>, c: seq<real>, t: real, window: real)
    ensures CountIn(a + b + c, t, window) == CountIn(a, t, window) + CountIn(b, t, window) + CountIn(c, t, window)
  {
    CountInAppend(a + b, c, t, window);
    CountInAppend(a, b, t, window);
  }

  lemma NextRequest(cfg: Config, reqs: seq<Request>, r: Request)
    ensures After(cfg, reqs + [r]) == Step(cfg, After(cfg, reqs), r).0
    ensures Admissions(cfg, reqs + [r], r.key)
         == Admissions(cfg, reqs, r.key) + if Step(cfg, After(cfg, reqs), r).1 == Allowed then [r.now] else []
  {
    assert (reqs + [r])[..|reqs|] == reqs;
  }

  lemma {:induction false} SameAdmissions(cfg: Config, reqs: seq<Request>, key: string)
    requires Monotone(reqs)
    ensures Admissions(cfg, reqs, key) == Admissions(cfg.(sweeping := false), reqs, key)
  {
    if reqs != [] {
      SameAdmissions(cfg, reqs[..|reqs| - 1], key);
      SweepIsInvisible(cfg, reqs, |reqs| - 1);
    }
  }

  ghost predicate CountsNonNegative(buckets: map<string, Bucket>) {
    forall k :: k in buckets ==> 0 <= buckets[k].count
  }

  lemma {:induction false} NothingAdmitted(cfg: Config, reqs: seq<Request>, key: string)
    requires cfg.limit <= 0
    ensures Admissions(cfg, reqs, key) == [] && CountsNonNegative(After(cfg, reqs).buckets)
  {
    if reqs != [] {
      NothingAdmitted(cfg, reqs[..|reqs| - 1], key);
    }
  }

  // ---------------------------------------------------------------- the retry time

  /** The advertised wait is the remaining window rounded up to the next whole second after it. */
  lemma RetryCoversWindow(cfg: Config, s: State, r: Request)
    requires Step(cfg, s, r).1.Retry? && cfg.limit >= 1
    ensures r.key in s.buckets
    ensures var left := cfg.window - (r.now - s.buckets[r.key].start);
            left > 0.0 && left < Step(cfg, s, r).1.after as real <= left + 1.0
    ensures r.key in Step(cfg, s, r).0.buckets && Step(cfg, s, r).0.buckets[r.key] == s.buckets[r.key]
  {
  }

  function RunFrom(cfg: Config, s: State, reqs: seq<Request>): State {
    if reqs == [] then s else Step(cfg, RunFrom(cfg, s, reqs[..|reqs| - 1]), reqs[|reqs| - 1]).0
  }

  /** Requests on other keys leave a bucket alone, or sweep it away once it is stale. */
  lemma {:induction false} OthersLeaveBucket(cfg: Config, s: State, others: seq<Request>, key: string, now: real)
    requires key in s.buckets && Monotone(others)
    requires forall r :: r in others ==> r.key != key && r.now <= now
    ensures var buckets := RunFrom(cfg, s, others).buckets;
            if key in buckets then buckets[key] == s.buckets[key] else Stale(cfg, s.buckets[key], now)
  {
    if others != [] {
      var n := |others| - 1;
      assert others[n] in others;
      OthersLeaveBucket(cfg, s, others[..n], key, others[n].now);
    }
  }

  // ---------------------------------------------------------------- one window

  /** The requests on a key. */
  function OnKey(reqs: seq<Request>, key: string): nat {
    if reqs == [] then 0 else OnKey(reqs[..|reqs| - 1], key) + if reqs[|reqs| - 1].key == key then 1 else 0
  }

  /** A window of the key opens at `start`: no window of it is running then, and all the requests come before this one
      ends. */
  ghost predicate OpensWindow(cfg: Config, s: State, reqs: seq<Request>, key: string, start: real) {
    && (key in s.buckets ==> start - s.buckets[key].start >= cfg.window)
    && (reqs != [] ==> reqs[0] == Request(key, start))
    && forall i :: 0 <= i < |reqs| ==> start <= reqs[i].now < start + cfg.window
  }

  lemma {:induction false} WindowCounts(cfg: Config, s: State, reqs: seq<Request>, key: string, start: real)
    requires cfg.limit >= 1 && OpensWindow(cfg, s, reqs, key, start) && reqs != []
    ensures var buckets := RunFrom(cfg, s, reqs).buckets;
            key in buckets && buckets[key] == Bucket(start, Min(cfg.limit, OnKey(reqs, key)))
    ensures OnKey(reqs, key) > 0
  {
    var n := |reqs| - 1;
    if n == 0 {
      assert reqs[..0] == [];
    } else {
      WindowCounts(cfg, s, reqs[..n], key, start);
    }
  }

  /** In a window of a key exactly the first `limit` requests on it are admitted, whatever other keys do and whenever
      the sweep runs. */
  lemma FirstLimitAreAdmitted(cfg: Config, s: State, reqs: seq<Request>, key: string, start: real, k: nat)
    requires cfg.limit >= 1 && OpensWindow(cfg, s, reqs, key, start)
    requires k < |reqs| && reqs[k].key == key
    ensures Step(cfg, RunFrom(cfg, s, reqs[..k]), reqs[k]).1 == Allowed <==> OnKey(reqs[..k], key) < cfg.limit
  {
    if k == 0 {
      assert reqs[..0] == [];
    } else {
      WindowCounts(cfg, s, reqs[..k], key, start);
    }
  }

  /** Waiting as long as told guarantees admission, whatever other keys do meanwhile. */
  lemma RetryThenAdmitted(cfg: Config, s: State, r: Request, others: seq<Request>, again: Request)
    requires cfg.limit >= 1 && Step(cfg, s, r).1.Retry?
    requires Monotone(others) && forall q :: q in others ==> q.key != r.key && q.now <= again.now
    requires again.key == r.key && again.now >= r.now + Step(cfg, s, r).1.after as real
    ensures Step(cfg, RunFrom(cfg, Step(cfg, s, r).0, others), again).1 == Allowed
  {
    RetryCoversWindow(cfg, s, r);
    OthersLeaveBucket(cfg, Step(cfg, s, r).0, others, r.key, again.now);
  }
}
