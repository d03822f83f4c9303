/** The tamper-evident audit log of src/orchestrator/app.py: `_emit` and `verify_audit_chain`. */
module Audit {
  import opened Base
  import opened Hashing

  /** A row of the events table; rows older than the chain have no hashes. */
  datatype Event = Event(
    id: nat, ts: string, kind: string, worker: Option<string>, job: Option<string>, detail: Option<string>,
    prevHash: Option<string>, hash: Option<string>)

  /** What a caller of `_emit` supplies, and the clock. */
  datatype Entry = Entry(ts: string, kind: string, worker: Option<string>, job: Option<string>, detail: Option<string>)

  /** `sha256(..).hexdigest()`. */
  type Digest = seq<Byte> -> string

  /** The anchor of the chain: 64 zeros. */
  const GENESIS := Zeros(64)

  function Zeros(n: nat): (z: string)
    ensures |z| == n
  {
    seq(n, _ => '0')
  }

  lemma GenesisIsZeros()
    ensures |GENESIS| == 64 && forall i :: 0 <= i < 64 ==> GENESIS[i] == '0'
  {
  }

  function OrEmpty(field: Option<string>): string {
    match field case None => "" case Some(s) => s
  }

  /** The six strings that are hashed; a null field and an empty one are the same. */
  function Fields(prev: string, e: Entry): seq<string> {
    [prev, e.ts, e.kind, OrEmpty(e.worker), OrEmpty(e.job), OrEmpty(e.detail)]
  }

  function EventHash(h: Digest, prev: string, e: Entry): string {
    h(CanonicalBytes(Fields(prev, e)))
  }

  function EntryOf(row: Event): Entry {
    Entry(row.ts, row.kind, row.worker, row.job, row.detail)
  }

  ghost predicate SameFields(a: Entry, b: Entry) {
    && a.ts == b.ts && a.kind == b.kind && OrEmpty(a.worker) == OrEmpty(b.worker)
    && OrEmpty(a.job) == OrEmpty(b.job) && OrEmpty(a.detail) == OrEmpty(b.detail)
  }

  /** Same fields and same stored hashes. */
  ghost predicate SameRow(a: Event, b: Event) {
    SameFields(EntryOf(a), EntryOf(b)) && a.prevHash == b.prevHash && a.hash == b.hash
  }

  ghost predicate Collide(h: Digest, x: seq<Byte>, y: seq<Byte>) {
    x != y && h(x) == h(y)
  }

  ghost predicate NeverEmpty(h: Digest) {
    forall x: seq<Byte> :: h(x) != ""
  }

  /** The hash that row k must carry on: its predecessor's, or the genesis anchor. */
  function PrevOf(log: seq<Event>, k: nat): string
    requires k <= |log|
  {
    if k == 0 then GENESIS else OrEmpty(log[k - 1].hash)
  }

  /** The bytes that are hashed for row k. */
  function HashedAt(log: seq<Event>, k: nat): seq<Byte>
    requires k < |log|
  {
    CanonicalBytes(Fields(PrevOf(log, k), EntryOf(log[k])))
  }

  /** The bytes hashed for row i of `a` and row j of `b` do not collide. */
  ghost predicate Apart(h: Digest, a: seq<Event>, i: nat, b: seq<Event>, j: nat)
    requires i < |a| && j < |b|
  {
    !Collide(h, HashedAt(a, i), HashedAt(b, j))
  }

  /** No bytes hashed for a row of `a` collide with bytes hashed for a row of `b`. No fixed-length digest is free of
      collisions altogether, but those of two given logs may be. */
  ghost predicate NoCollision(h: Digest, a: seq<Event>, b: seq<Event>) {
    forall i, j :: 0 <= i < |a| && 0 <= j < |b| ==> Apart(h, a, i, b, j)
  }

  /** No row is stored with the anchor as its hash. */
  ghost predicate NoAnchor(log: seq<Event>) {
    forall k :: 0 <= k < |log| ==> log[k].hash != Some(GENESIS)
  }

  /** Row k re-derives from its stored fields. */
  predicate RowOk(h: Digest, log: seq<Event>, k: nat)
    requires k < |log|
  {
    && log[k].prevHash == Some(PrevOf(log, k))
    && log[k].hash == Some(EventHash(h, PrevOf(log, k), EntryOf(log[k])))
  }

  ghost predicate ChainOk(h: Digest, log: seq<Event>) {
    forall k :: 0 <= k < |log| ==> RowOk(h, log, k)
  }

  /** Row k is the first that fails. */
  ghost predicate BreaksAt(h: Digest, log: seq<Event>, k: nat) {
    k < |log| && !RowOk(h, log, k) && forall j :: 0 <= j < k ==> RowOk(h, log, j)
  }

  datatype Verdict = Verdict(ok: bool, count: nat, brokenAt: Option<nat>)

  /** The row `_emit` appends. */
  function NextEvent(h: Digest, log: seq<Event>, e: Entry): Event {
    var prev := if log != [] && OrEmpty(log[|log| - 1].hash) != "" then OrEmpty(log[|log| - 1].hash) else GENESIS;
    Event(if log == [] then 1 else log[|log| - 1].id + 1, e.ts, e.kind, e.worker, e.job, e.detail,
          Some(prev), Some(EventHash(h, prev, e)))
  }

  class AuditLog {
    var events: seq<Event>
    const digest: Digest

    constructor (h: Digest)
      ensures events == [] && digest == h
    {
      events := [];
      digest := h;
    }

    method Emit(e: Entry)
      modifies this
      ensures events == old(events) + [NextEvent(digest, old(events), e)]
    {
      var prev := GENESIS;
      var id := 1;
      if events != [] {
        var tail := events[|events| - 1];
        id := tail.id + 1;
        if OrEmpty(tail.hash) != "" {
          prev := OrEmpty(tail.hash);
        }
      }
      var hash := EventHash(digest, prev, e);
      events := events + [Event(id, e.ts, e.kind, e.worker, e.job, e.detail, Some(prev), Some(hash))];
    }

    /** Re-derives every row in order; `brokenAt` is the id of the first row that fails. */
    method Verify() returns (v: Verdict)
      ensures v.ok <==> ChainOk(digest, events)
      ensures v.ok ==> v.count == |events| && v.brokenAt.None?
      ensures !v.ok ==>
                exists k: nat :: BreaksAt(digest, events, k) && v.count == k + 1 && v.brokenAt == Some(events[k].id)
    {
      var prevHash := GENESIS;
      var count := 0;
      for k := 0 to |events|
        invariant count == k && prevHash == PrevOf(events, k)
        invariant forall j :: 0 <= j < k ==> RowOk(digest, events, j)
      {
        var row := events[k];
        count := count + 1;
        var expected := EventHash(digest, prevHash, EntryOf(row));
        assert RowOk(digest, events, k) <==> row.prevHash == Some(prevHash) && row.hash == Some(expected);
        if row.prevHash != Some(prevHash) || row.hash != Some(expected) {
          assert BreaksAt(digest, events, k);
          return Verdict(false, count, Some(row.id));
        }
        prevHash := expected;
      }
      return Verdict(true, count, None);
    }
  }

  /** What one emit appends to a log. */
  type Appender = (seq<Event>, Entry) -> Event

  function Grow(next: Appender, entries: seq<Entry>): (log: seq<Event>)
    ensures |log| == |entries|
  {
    if entries == [] then []
    else
      var log := Grow(next, entries[..|entries| - 1]);
      log + [next(log, entries[|entries| - 1])]
  }

  function Emission(h: Digest): Appender {
    (log, e) => NextEvent(h, log, e)
  }

  /** The log after any sequence of emits. */
  function EmitAll(h: Digest, entries: seq<Entry>): (log: seq<Event>)
    ensures |log| == |entries|
  {
    Grow(Emission(h), entries)
  }

  /** The log only grows: what it was after k entries is a prefix of what it is later. */
  lemma {:induction false} GrowPrefix(next: Appender, entries: seq<Entry>, k: nat)
    requires k <= |entries|
    ensures Grow(next, entries)[..k] == Grow(next, entries[..k])
    decreases |entries|
  {
    if k < |entries| {
      var init := entries[..|entries| - 1];
      GrowPrefix(next, init, k);
      assert init[..k] == entries[..k];
      assert Grow(next, entries)[..k] == Grow(next, init)[..k];
    } else {
      assert entries[..k] == entries;
    }
  }

  /** Row k is what the emit of entry k appended. */
  lemma GrowAt(next: Appender, entries: seq<Entry>, k: nat)
    requires k < |entries|
    ensures Grow(next, entries)[k] == next(Grow(next, entries[..k]), entries[k])
    ensures k > 0 ==> Grow(next, entries[..k])[k - 1] == Grow(next, entries)[k - 1]
  {
    GrowPrefix(next, entries, k + 1);
    GrowPrefix(next, entries, k);
    var upto := entries[..k + 1];
    assert upto[..k] == entries[..k] && upto[k] == entries[k];
    assert Grow(next, entries)[..k + 1][k] == Grow(next, upto)[k];
    assert k > 0 ==> Grow(next, entries)[..k][k - 1] == Grow(next, entries)[k - 1];
  }

  ghost predicate Linked(h: Digest, log: seq<Event>, k: nat)
    requires k < |log|
  {
    RowOk(h, log, k) <==> (k > 0 ==> OrEmpty(log[k - 1].hash) != "")
  }

  /** Row k of an emitted log: its fields are the entry's, and it re-derives unless its predecessor's digest is
      empty. */
  lemma EmittedRow(h: Digest, entries: seq<Entry>, k: nat)
    requires k < |entries|
    ensures var log := EmitAll(h, entries);
            && EntryOf(log[k]) == entries[k]
            && Linked(h, log, k)
            && (NeverEmpty(h) ==> OrEmpty(log[k].hash) != "")
  {
    var log, before := EmitAll(h, entries), EmitAll(h, entries[..k]);
    GrowAt(Emission(h), entries, k);
    LinkOk(h, log, before, entries[k], k);
  }

  /** The rows of an emitted log are numbered from 1. */
  lemma {:induction false} EmittedIds(h: Digest, entries: seq<Entry>, k: nat)
    requires k < |entries|
    ensures EmitAll(h, entries)[k].id == k + 1
    decreases k
  {
    GrowAt(Emission(h), entries, k);
    if k > 0 {
      EmittedIds(h, entries, k - 1);
    }
  }

  /** Every log that only `_emit` wrote verifies, exactly when no digest before the last one is empty. */
  lemma EmittedLogsVerify(h: Digest, entries: seq<Entry>)
    ensures var log := EmitAll(h, entries);
            ChainOk(h, log) <==> forall k :: 0 <= k < |log| - 1 ==> OrEmpty(log[k].hash) != ""
    ensures NeverEmpty(h) ==> ChainOk(h, EmitAll(h, entries))
  {
    forall k | 0 <= k < |entries|
      ensures Linked(h, EmitAll(h, entries), k)
      ensures NeverEmpty(h) ==> OrEmpty(EmitAll(h, entries)[k].hash) != ""
    {
      EmittedRow(h, entries, k);
    }
    LinksMakeChain(h, EmitAll(h, entries));
  }

  lemma LinksMakeChain(h: Digest, log: seq<Event>)
    requires forall k :: 0 <= k < |log| ==> Linked(h, log, k)
    ensures ChainOk(h, log) <==> forall k :: 0 <= k < |log| - 1 ==> OrEmpty(log[k].hash) != ""
  {
    if k :| 0 <= k < |log| - 1 && OrEmpty(log[k].hash) == "" {
      assert Linked(h, log, k + 1);
    } else {
      assert forall k :: 0 <= k < |log| ==> Linked(h, log, k) ==> RowOk(h, log, k);
    }
  }

  lemma LinkOk(h: Digest, log: seq<Event>, before: seq<Event>, e: Entry, k: nat)
    requires k < |log| && k == |before| && log[k] == NextEvent(h, before, e)
    requires k > 0 ==> before[k - 1] == log[k - 1]
    ensures Linked(h, log, k)
  {
    assert EntryOf(log[k]) == e;
    assert |GENESIS| == 64;
  }

  /** What is hashed for a row reads back as its six strings, in this order. */
  lemma HashedBytesReadBack(log: seq<Event>, k: nat)
    requires k < |log|
    ensures var text := DecodeUtf8(HashedAt(log, k));
            && text.Some?
            && ReadList(text.value)
               == Some([PrevOf(log, k), log[k].ts, log[k].kind,
                        if log[k].worker.Some? then log[k].worker.value else "",
                        if log[k].job.Some? then log[k].job.value else "",
                        if log[k].detail.Some? then log[k].detail.value else ""])
  {
    CanonicalBytesReadBack(Fields(PrevOf(log, k), EntryOf(log[k])));
  }

  lemma SameHashSameFields(h: Digest, p: string, a: Entry, q: string, b: Entry)
    requires EventHash(h, p, a) == EventHash(h, q, b)
    ensures p == q && SameFields(a, b) <==> !Collide(h, CanonicalBytes(Fields(p, a)), CanonicalBytes(Fields(q, b)))
  {
    var f, g := Fields(p, a), Fields(q, b);
    if CanonicalBytes(f) == CanonicalBytes(g) {
      CanonicalBytesInjective(f, g);
      assert f[0] == g[0] && f[1] == g[1] && f[2] == g[2] && f[3] == g[3] && f[4] == g[4] && f[5] == g[5];
    }
  }

  /** Rows that re-derive to the same hash are the same, and follow the same hash, unless their bytes collide. */
  lemma SameHashSameRow(h: Digest, a: seq<Event>, i: nat, b: seq<Event>, j: nat)
    requires i < |a| && j < |b| && RowOk(h, a, i) && RowOk(h, b, j) && a[i].hash == b[j].hash
    ensures SameRow(a[i], b[j]) && PrevOf(a, i) == PrevOf(b, j) <==> Apart(h, a, i, b, j)
  {
    SameHashSameFields(h, PrevOf(a, i), EntryOf(a[i]), PrevOf(b, j), EntryOf(b[j]));
  }

  /** The limit of the guarantee: cutting rows off the end leaves a log that still verifies. */
  lemma PrefixVerifies(h: Digest, log: seq<Event>, k: nat)
    requires ChainOk(h, log) && k <= |log|
    ensures ChainOk(h, log[..k]) && PrevOf(log[..k], k) == PrevOf(log, k)
  {
    forall j | 0 <= j < k
      ensures RowOk(h, log[..k], j)
    {
      assert RowOk(h, log, j) && PrevOf(log[..k], j) == PrevOf(log, j);
    }
  }

  lemma PrefixHashes(log: seq<Event>, n: nat, k: nat)
    requires k < n <= |log|
    ensures HashedAt(log[..n], k) == HashedAt(log, k)
  {
  }

  /** The last rows agree, and the logs before them end on the same hash. */
  lemma SameLastRow(h: Digest, a: seq<Event>, b: seq<Event>)
    requires a != [] && b != [] && ChainOk(h, a) && ChainOk(h, b) && PrevOf(a, |a|) == PrevOf(b, |b|)
    requires Apart(h, a, |a| - 1, b, |b| - 1)
    ensures SameRow(a[|a| - 1], b[|b| - 1])
    ensures ChainOk(h, a[..|a| - 1]) && ChainOk(h, b[..|b| - 1])
    ensures PrevOf(a[..|a| - 1], |a| - 1) == PrevOf(b[..|b| - 1], |b| - 1)
  {
    var m, n := |a| - 1, |b| - 1;
    assert RowOk(h, a, m) && RowOk(h, b, n);
    SameHashSameRow(h, a, m, b, n);
    PrefixVerifies(h, a, m);
    PrefixVerifies(h, b, n);
  }

  ghost predicate SameRows(a: seq<Event>, b: seq<Event>) {
    |a| == |b| && forall k :: 0 <= k < |a| ==> SameRow(a[k], b[k])
  }

  lemma OneRowMore(a: seq<Event>, b: seq<Event>)
    requires a != [] && b != [] && SameRows(a[..|a| - 1], b[..|b| - 1]) && SameRow(a[|a| - 1], b[|b| - 1])
    ensures SameRows(a, b)
  {
    var m := |a| - 1;
    forall k | 0 <= k < |a|
      ensures SameRow(a[k], b[k])
    {
      assert k < m ==> SameRow(a[..m][k], b[..m][k]);
    }
  }

  lemma AnchorComesFirst(h: Digest, log: seq<Event>, k: nat)
    requires NoAnchor(log) && ChainOk(h, log) && k <= |log|
    ensures PrevOf(log, k) == GENESIS <==> k == 0
  {
    if k > 0 {
      assert RowOk(h, log, k - 1);
    }
  }

  lemma PrefixesDoNotCollide(h: Digest, a: seq<Event>, m: nat, b: seq<Event>, n: nat)
    requires NoCollision(h, a, b) && m <= |a| && n <= |b|
    ensures NoCollision(h, a[..m], b[..n])
  {
    forall i, j | 0 <= i < m && 0 <= j < n
      ensures Apart(h, a[..m], i, b[..n], j)
    {
      assert Apart(h, a, i, b, j);
      PrefixHashes(a, m, i);
      PrefixHashes(b, n, j);
    }
  }

  /** Two logs that verify with the same last hash. */
  ghost predicate SameEnd(h: Digest, a: seq<Event>, b: seq<Event>) {
    && ChainOk(h, a) && ChainOk(h, b) && PrevOf(a, |a|) == PrevOf(b, |b|)
    && NoCollision(h, a, b) && NoAnchor(a) && NoAnchor(b)
  }

  lemma SameEndBefore(h: Digest, a: seq<Event>, b: seq<Event>)
    requires SameEnd(h, a, b) && a != [] && b != []
    ensures SameEnd(h, a[..|a| - 1], b[..|b| - 1]) && SameRow(a[|a| - 1], b[|b| - 1])
  {
    var m, n := |a| - 1, |b| - 1;
    assert Apart(h, a, m, b, n);
    SameLastRow(h, a, b);
    PrefixesDoNotCollide(h, a, m, b, n);
    PrefixHasNoAnchor(a, m);
    PrefixHasNoAnchor(b, n);
  }

  lemma PrefixHasNoAnchor(log: seq<Event>, n: nat)
    requires NoAnchor(log) && n <= |log|
    ensures NoAnchor(log[..n])
  {
  }

  /** The last hash fixes the whole log: any other log that verifies with it has the same fields throughout, unless
      bytes hashed for the two logs collide. */
  lemma {:induction false} LastHashFixesLog(h: Digest, a: seq<Event>, b: seq<Event>)
    requires SameEnd(h, a, b)
    ensures SameRows(a, b)
    decreases |a|
  {
    AnchorComesFirst(h, a, |a|);
    AnchorComesFirst(h, b, |b|);
    if a != [] {
      SameEndBefore(h, a, b);
      LastHashFixesLog(h, a[..|a| - 1], b[..|b| - 1]);
      OneRowMore(a, b);
    }
  }

  /** Same length and same last hash: the logs agree row by row exactly when no two rows of the same number collide. */
  lemma LastHashAndLengthFixLog(h: Digest, a: seq<Event>, b: seq<Event>)
    requires ChainOk(h, a) && ChainOk(h, b) && |a| == |b| && PrevOf(a, |a|) == PrevOf(b, |b|)
    ensures SameRows(a, b) <==> forall k :: 0 <= k < |a| ==> Apart(h, a, k, b, k)
  {
    if SameRows(a, b) {
      forall k | 0 <= k < |a|
        ensures Apart(h, a, k, b, k)
      {
        assert SameRow(a[k], b[k]) && (k > 0 ==> SameRow(a[k - 1], b[k - 1]));
      }
    } else if forall k :: 0 <= k < |a| ==> Apart(h, a, k, b, k) {
      RowsFixLog(h, a, b);
    }
  }

  lemma {:induction false} RowsFixLog(h: Digest, a: seq<Event>, b: seq<Event>)
    requires ChainOk(h, a) && ChainOk(h, b) && |a| == |b| && PrevOf(a, |a|) == PrevOf(b, |b|)
    requires forall k :: 0 <= k < |a| ==> Apart(h, a, k, b, k)
    ensures SameRows(a, b)
    decreases |a|
  {
    if a != [] {
      var m := |a| - 1;
      SameLastRow(h, a, b);
      forall k | 0 <= k < m
        ensures Apart(h, a[..m], k, b[..m], k)
      {
        assert Apart(h, a, k, b, k);
        PrefixHashes(a, m, k);
        PrefixHashes(b, m, k);
      }
      RowsFixLog(h, a[..m], b[..m]);
      OneRowMore(a, b);
    }
  }

  /** Editing the fields of one stored row is pinpointed at that row, exactly unless the bytes before and after the
      edit collide. */
  lemma EditIsLocated(h: Digest, log: seq<Event>, k: nat, edited: Event)
    requires ChainOk(h, log) && k < |log|
    requires edited.prevHash == log[k].prevHash && edited.hash == log[k].hash
    requires !SameFields(EntryOf(edited), EntryOf(log[k]))
    ensures BreaksAt(h, log[k := edited], k) <==> Apart(h, log, k, log[k := edited], k)
  {
    var tampered, prev := log[k := edited], PrevOf(log, k);
    assert RowOk(h, log, k) && PrevOf(tampered, k) == prev;
    if CanonicalBytes(Fields(prev, EntryOf(log[k]))) == CanonicalBytes(Fields(prev, EntryOf(edited))) {
      SameHashSameFields(h, prev, EntryOf(log[k]), prev, EntryOf(edited));
    }
    forall j | 0 <= j < k
      ensures RowOk(h, tampered, j)
    {
      assert RowOk(h, log, j) && PrevOf(tampered, j) == PrevOf(log, j);
    }
  }

  /** No row carries the hash of another, nor the genesis anchor. */
  lemma {:induction false} HashesDiffer(h: Digest, log: seq<Event>, i: nat, j: nat)
    requires NoCollision(h, log, log) && NoAnchor(log) && ChainOk(h, log) && i < j <= |log|
    ensures PrevOf(log, i) != PrevOf(log, j)
    decreases j
  {
    if i == 0 {
      AnchorComesFirst(h, log, j);
    } else if PrevOf(log, i) == PrevOf(log, j) {
      SameHashSamePrev(h, log, i - 1, j - 1);
      HashesDiffer(h, log, i - 1, j - 1);
    }
  }

  lemma SameHashSamePrev(h: Digest, log: seq<Event>, i: nat, j: nat)
    requires NoCollision(h, log, log) && ChainOk(h, log) && i < |log| && j < |log|
    requires PrevOf(log, i + 1) == PrevOf(log, j + 1)
    ensures PrevOf(log, i) == PrevOf(log, j)
  {
    assert RowOk(h, log, i) && RowOk(h, log, j) && Apart(h, log, i, log, j);
    SameHashSameRow(h, log, i, log, j);
  }

  /** Deleting rows i .. j-1 from the middle is pinpointed at the row that then follows, exactly when it does not
      follow the same hash as before; in particular when no bytes hashed for the log collide. */
  lemma DeletionIsLocated(h: Digest, log: seq<Event>, i: nat, j: nat)
    requires ChainOk(h, log) && i < j < |log|
    ensures BreaksAt(h, log[..i] + log[j..], i) <==> PrevOf(log, i) != PrevOf(log, j)
    ensures NoCollision(h, log, log) && NoAnchor(log) ==> BreaksAt(h, log[..i] + log[j..], i)
  {
    var cut := log[..i] + log[j..];
    assert RowOk(h, log, j) && cut[i] == log[j];
    assert PrevOf(cut, i) == PrevOf(log, i);
    if NoCollision(h, log, log) && NoAnchor(log) {
      HashesDiffer(h, log, i, j);
    }
    forall r | 0 <= r < i
      ensures RowOk(h, cut, r)
    {
      assert RowOk(h, log, r) && PrevOf(cut, r) == PrevOf(log, r);
    }
  }
}
