// What the cache's calls do to its queue: use makes a buffer the newest, and eviction takes the least
// recently used.

module AudioUse {
  import opened AudioCache

  // ---- One call ----

  /** `id` is at the front, and all others stand in their old order behind it. */
  ghost predicate MovedFront(before: seq<int>, after: seq<int>, id: int) {
    exists k: nat :: k < |before| && before[k] == id && after == [id] + (before[..k] + before[k + 1..])
  }

  /** Nothing changed but the track's access time and its place in the queue, which is now the first. */
  ghost predicate Used(c: Cache, c2: Cache, id: int, now: int) {
    && id in c.buffers && id in c2.buffers && c2.buffers[id].lastAccess == now
    && c2.buffers[id] == c.buffers[id].(lastAccess := now)
    && c2.buffers.Keys == c.buffers.Keys && (forall k | k in c.buffers && k != id :: c2.buffers[k] == c.buffers[k])
    && MovedFront(c.lru, c2.lru, id)
    && c2.used == c.used && c2.limit == c.limit && c2.pending == c.pending && c2.nextHandle == c.nextHandle
  }

  /** An unlocked failure does not count as cached: it is retried. */
  predicate Retried(c: Cache, id: int) {
    id in c.buffers && c.buffers[id].decode == Failed && c.buffers[id].locks == 0
  }

  /** Loading a cached track uses it. */
  lemma LoadHitUses(c: Cache, id: int, resolved: bool, queued: bool, now: int)
    requires WellFormed(c) && id > 0 && id in c.buffers && !Retried(c, id)
    ensures Load(c, id, resolved, queued, now).1 == LoadOk
    ensures Used(c, Load(c, id, resolved, queued, now).0, id, now)
  {
    hide NoDup, HandlesDistinct, Charged, Without;
    var k := Position(c, id);
  }

  /** Getting a decoded buffer uses it; asking for one that is not decoded changes nothing. */
  lemma GetUses(c: Cache, id: int, now: int)
    requires WellFormed(c)
    ensures GetLocked(c, id, now).Ok? <==> Locks(c, id) > 0
    ensures Locks(c, id) > 0 ==>
      var (c2, h) := GetLocked(c, id, now).value;
      if StatusOf(c, id) == IsReady then Used(c, c2, id, now) && h == c.buffers[id].handle else c2 == c && h == 0
  {
    hide NoDup, HandlesDistinct, Charged, Without;
    if id in c.buffers {
      var k := Position(c, id);
    }
  }

  /** The table and queue without an unlocked failure at `id`, if there is one. */
  ghost predicate Cleared(c: Cache, id: int, lru: seq<int>) {
    if id in c.buffers then
      exists k: nat :: k < |c.lru| && c.lru[k] == id && lru == c.lru[..k] + c.lru[k + 1..]
    else lru == c.lru
  }

  /** Loading a track that is not cached: without a path or a place in the decode queue nothing is added; otherwise a
      decode starts, in an unlocked, empty buffer at a new address, which is the newest. */
  lemma LoadMissStarts(c: Cache, id: int, resolved: bool, queued: bool, now: int)
    requires WellFormed(c) && id > 0 && (id !in c.buffers || Retried(c, id))
    ensures var (c2, code) := Load(c, id, resolved, queued, now);
            && code == (if !resolved then FileNotFound else if !queued then Internal else LoadOk)
            && (id in c2.buffers <==> code == LoadOk)
            && (forall k | k != id ::
                (k in c2.buffers <==> k in c.buffers) && (k in c.buffers ==> c2.buffers[k] == c.buffers[k]))
            && c2.used == c.used && c2.limit == c.limit && c2.pending == c.pending
            && (code != LoadOk ==> Cleared(c, id, c2.lru))
            && (code == LoadOk ==>
                  && |c2.lru| > 0 && c2.lru[0] == id && Cleared(c, id, c2.lru[1..])
                  && StatusOf(c2, id) == StillLoading && Locks(c2, id) == 0 && c2.buffers[id].bytes == 0
                  && c2.buffers[id].handle != 0
                  && (forall k | k in c.buffers :: c.buffers[k].handle != c2.buffers[id].handle))
  {
    hide NoDup, Charged, Without;
    if id in c.buffers {
      var k := Position(c, id);
    }
    var (c2, code) := Load(c, id, resolved, queued, now);
    if code == LoadOk {
      assert c2.lru[1..] == if id in c.buffers then Without(c.lru, id) else c.lru;
    }
  }

  /** A refused id changes nothing. */
  lemma LoadRefuses(c: Cache, id: int, resolved: bool, queued: bool, now: int)
    requires id <= 0
    ensures Load(c, id, resolved, queued, now) == (c, InvalidParam)
  {
  }

  /** Only the one buffer's lock count differs. */
  ghost predicate Relocked(c: Cache, c2: Cache, id: int) {
    && id in c.buffers && id in c2.buffers && c2.buffers[id] == c.buffers[id].(locks := c2.buffers[id].locks)
    && c2.buffers.Keys == c.buffers.Keys && (forall k | k in c.buffers && k != id :: c2.buffers[k] == c.buffers[k])
    && c2 == c.(buffers := c2.buffers, pending := c2.pending)
  }

  /** Locking and unlocking move one count by one and nothing else; an unlock aborts exactly without a lock. A timer's
      unlock also drops its schedule, and a deferred unlock only makes one. */
  lemma LockUnlock(c: Cache, id: int)
    ensures Lock(c, id).Ok? <==> id in c.buffers
    ensures Lock(c, id).Ok? ==>
      var (c2, status) := Lock(c, id).value;
      status == StatusOf(c, id) && Relocked(c, c2, id) && Locks(c2, id) == Locks(c, id) + 1 && c2.pending == c.pending
    ensures UnlockNow(c, id).Ok? <==> Locks(c, id) > 0
    ensures UnlockNow(c, id).Ok? ==>
      var c2 := UnlockNow(c, id).value;
      Relocked(c, c2, id) && Locks(c2, id) == Locks(c, id) - 1 && c2.pending == c.pending
    ensures FireUnlock(c, id).Ok? <==> Locks(c, id) > 0
    ensures FireUnlock(c, id).Ok? ==>
      var c2 := FireUnlock(c, id).value;
      Relocked(c, c2, id) && Locks(c2, id) == Locks(c, id) - 1 && c2.pending == c.pending - {id}
    ensures var c2 := UnlockDeferred(c, id);
            && id in c2.pending && (forall k | k != id :: k in c2.pending <==> k in c.pending)
            && c2 == c.(pending := c2.pending)
  {
  }

  /** The cache after a completed decode, before anything is evicted: the buffer is ready, and its bytes are charged. */
  ghost predicate Completed(c: Cache, c1: Cache, id: int, bytes: nat, now: int) {
    && id in c.buffers && id in c1.buffers
    && c1.buffers[id] == c.buffers[id].(decode := Ready, bytes := bytes, lastAccess := now)
    && c1.buffers.Keys == c.buffers.Keys && (forall k | k in c.buffers && k != id :: c1.buffers[k] == c.buffers[k])
    && c1 == c.(buffers := c1.buffers, used := c.used + bytes)
  }

  /** A completed decode is charged, and then the cache is brought back under its limit from the queue's end; its own
      buffer, when that is kept, is ready, and it is kept while it is locked. */
  lemma DecodeCompletes(c: Cache, id: int, bytes: nat, now: int) returns (c1: Cache, m: nat)
    requires WellFormed(c) && id in c.buffers && c.buffers[id].decode == Loading
    ensures Completed(c, c1, id, bytes, now)
    ensures var c2 := DecodeDone(c, id, bytes, now);
            && m <= |c1.lru| && StoppedAt(c1, c2, m, |c1.lru|)
            && (c2.used <= c.limit || m == 0) && (c1.used <= c.limit ==> c2 == c1)
            && (id in c2.buffers ==> StatusOf(c2, id) == IsReady)
            && (Locks(c, id) > 0 ==> id in c2.buffers)
  {
    c1 := ChargedCache(c, id, bytes, now);
    ChargeKeeps(c, id, bytes, now);
    EvictKeeps(c1, |c1.lru|);
    OwnBuffer(c, id, bytes, now);
    UnderLimit(c1);
    hide WellFormed, StoppedAt, Survivors, Evictable, EvictFrom, StatusOf, Locks, Keeps, ChargedCache, Completed;
    m := EvictStops(c1, |c1.lru|);
    StoppedKeeps(c1, DecodeDone(c, id, bytes, now), m, id);
    if Locks(c, id) > 0 {
      KeptLocked(c1, DecodeDone(c, id, bytes, now), id);
    }
  }

  lemma UnderLimit(c: Cache)
    ensures c.used <= c.limit ==> Evict(c) == c
  {
  }

  lemma OwnBuffer(c: Cache, id: int, bytes: nat, now: int)
    requires id in c.buffers
    ensures var c1 := ChargedCache(c, id, bytes, now);
            && Completed(c, c1, id, bytes, now) && StatusOf(c1, id) == IsReady && Locks(c1, id) == Locks(c, id)
            && c1.limit == c.limit && DecodeDone(c, id, bytes, now) == Evict(c1)
  {
  }

  /** What an oldest-first removal keeps, it keeps as it was. */
  lemma StoppedKeeps(c: Cache, c2: Cache, m: nat, id: int)
    requires m <= |c.lru| && StoppedAt(c, c2, m, |c.lru|) && id in c.buffers
    ensures id in c2.buffers ==> StatusOf(c2, id) == StatusOf(c, id)
  {
    hide Survivors, Evictable;
  }

  lemma KeptLocked(c: Cache, c2: Cache, id: int)
    requires Keeps(c, c2) && Locks(c, id) > 0
    ensures id in c2.buffers
  {
  }

  /** A failed decode leaves an empty failed buffer in its place in the queue, and nothing else changes. */
  lemma DecodeFails(c: Cache, id: int, now: int)
    requires id in c.buffers
    ensures var c2 := DecodeFail(c, id, now);
            && StatusOf(c2, id) == HasFailed && Locks(c2, id) == Locks(c, id) && c2.buffers[id].bytes == 0
            && c2.buffers.Keys == c.buffers.Keys
            && (forall k | k in c.buffers && k != id :: c2.buffers[k] == c.buffers[k])
            && c2 == c.(buffers := c2.buffers)
  {
  }

  /** The sweep by idle time: what it takes was last used at least `maxAge` ago; it takes the evictable tracks of
      the queue from its end up to the front, or up to one that was used later. */
  lemma SweepTakesIdle(c: Cache, now: int, maxAge: int) returns (m: nat)
    requires WellFormed(c)
    ensures m <= |c.lru| && StoppedAt(c, Sweep(c, now, maxAge), m, |c.lru|)
    ensures forall id | id in c.buffers && id !in Sweep(c, now, maxAge).buffers ::
              !InUse(c.buffers[id]) && now - c.buffers[id].lastAccess >= maxAge
    ensures m > 0 ==>
      var id := c.lru[m - 1];
      id in c.buffers && !InUse(c.buffers[id]) && now - c.buffers[id].lastAccess < maxAge
  {
    m := SweepStops(c, now - maxAge, |c.lru|);
    assert forall id | id in c.buffers && id !in Sweep(c, now, maxAge).buffers :: id in Evictable(c, m, |c.lru|);
  }

  // ---- Any run of calls ----

  datatype Call =
    | LoadCall(id: int, resolved: bool, queued: bool)
    | GetCall(id: int)
    | LockCall(id: int)
    | UnlockCall(id: int)
    | DeferCall(id: int)
    | TimerCall(id: int)
    | DoneCall(id: int, bytes: nat)
    | FailCall(id: int)
    | SweepCall(maxAge: int)

  function Or<T>(r: Outcome<T>, otherwise: T): T {
    if r.Ok? then r.value else otherwise
  }

  /** The cache after a call; a call that aborts, or that ends no decode, has no effect. */
  function After(c: Cache, call: Call, now: int): Cache {
    match call
    case LoadCall(id, resolved, queued) => Load(c, id, resolved, queued, now).0
    case GetCall(id) => Or(GetLocked(c, id, now), (c, 0)).0
    case LockCall(id) => Or(Lock(c, id), (c, NotFound)).0
    case UnlockCall(id) => Or(UnlockNow(c, id), c)
    case DeferCall(id) => UnlockDeferred(c, id)
    case TimerCall(id) => Or(FireUnlock(c, id), c)
    case DoneCall(id, bytes) => if StatusOf(c, id) == StillLoading then DecodeDone(c, id, bytes, now) else c
    case FailCall(id) => if StatusOf(c, id) == StillLoading then DecodeFail(c, id, now) else c
    case SweepCall(maxAge) => Sweep(c, now, maxAge)
  }

  /** A call uses a track when it loads it or gets its decoded buffer. */
  predicate Uses(c: Cache, call: Call, now: int) {
    match call
    case LoadCall(id, resolved, queued) => Load(c, id, resolved, queued, now).1 == LoadOk
    case GetCall(id) => Locks(c, id) > 0 && StatusOf(c, id) == IsReady
    case _ => false
  }

  function Logged(c: Cache, call: Call, now: int, log: seq<int>): seq<int> {
    if Uses(c, call, now) then log + [call.id] else log
  }

  /** The tracks used by a run, in order of use. */
  function UseLog(c: Cache, calls: seq<(Call, int)>, log: seq<int>): seq<int>
    decreases |calls|
  {
    if calls == [] then log
    else
      var (call, now) := calls[0];
      UseLog(After(c, call, now), calls[1..], Logged(c, call, now, log))
  }

  function AfterAll(c: Cache, calls: seq<(Call, int)>): Cache
    decreases |calls|
  {
    if calls == [] then c else AfterAll(After(c, calls[0].0, calls[0].1), calls[1..])
  }

  /** When a track was last used, counted in uses; -1 if never. */
  function LastUse(log: seq<int>, id: int): int {
    if log == [] then -1 else if log[|log| - 1] == id then |log| - 1 else LastUse(log[..|log| - 1], id)
  }

  /** The queue lists used tracks, the one used last in front. */
  ghost predicate ByUse(lru: seq<int>, log: seq<int>) {
    && (forall i | 0 <= i < |lru| :: LastUse(log, lru[i]) >= 0)
    && (forall i, k | 0 <= i < k < |lru| :: LastUse(log, lru[i]) > LastUse(log, lru[k]))
  }

  lemma {:induction false} LastUseBound(log: seq<int>, id: int)
    ensures -1 <= LastUse(log, id) < |log|
  {
    if log != [] {
      LastUseBound(log[..|log| - 1], id);
    }
  }

  lemma UsedNow(log: seq<int>, id: int, k: int)
    ensures LastUse(log + [id], k) == if k == id then |log| else LastUse(log, k)
  {
    assert (log + [id])[..|log|] == log;
  }

  lemma NewFront(rest: seq<int>, log: seq<int>, id: int)
    requires ByUse(rest, log) && id !in rest
    ensures ByUse([id] + rest, log + [id])
  {
    var lru := [id] + rest;
    forall i | 0 <= i < |lru|
      ensures LastUse(log + [id], lru[i]) == if i == 0 then |log| else LastUse(log, rest[i - 1])
    {
      UsedNow(log, id, lru[i]);
    }
    forall i | 0 <= i < |rest| ensures LastUse(log, rest[i]) < |log| {
      LastUseBound(log, rest[i]);
    }
  }

  lemma WithoutPosition(lru: seq<int>, k: nat, log: seq<int>)
    requires ByUse(lru, log) && k < |lru|
    ensures ByUse(lru[..k] + lru[k + 1..], log)
  {
    var rest := lru[..k] + lru[k + 1..];
    assert forall i | 0 <= i < |rest| :: rest[i] == lru[if i < k then i else i + 1];
  }

  lemma {:induction false} EvictOrder(c: Cache, k: nat, log: seq<int>)
    requires k <= |c.lru| && ByUse(c.lru, log)
    ensures ByUse(EvictFrom(c, k).lru, log)
    decreases k
  {
    hide ByUse;
    if k > 0 && c.used > c.limit {
      if Stays(c, k - 1) {
        EvictOrder(c, k - 1, log);
      } else {
        WithoutPosition(c.lru, k - 1, log);
        EvictOrder(DropAt(c, k - 1), k - 1, log);
      }
    }
  }

  lemma {:induction false} SweepOrder(c: Cache, cutoff: int, k: nat, log: seq<int>)
    requires k <= |c.lru| && ByUse(c.lru, log)
    ensures ByUse(SweepFrom(c, cutoff, k).lru, log)
    decreases k
  {
    hide ByUse;
    if k > 0 {
      if Stays(c, k - 1) {
        SweepOrder(c, cutoff, k - 1, log);
      } else {
        WithoutPosition(c.lru, k - 1, log);
        SweepOrder(DropAt(c, k - 1), cutoff, k - 1, log);
      }
    }
  }

  lemma MovedOrder(before: seq<int>, after: seq<int>, id: int, log: seq<int>)
    requires NoDup(before) && ByUse(before, log) && MovedFront(before, after, id)
    ensures ByUse(after, log + [id])
  {
    var k: nat :| k < |before| && before[k] == id && after == [id] + (before[..k] + before[k + 1..]);
    WithoutPosition(before, k, log);
    NewFront(before[..k] + before[k + 1..], log, id);
  }

  lemma LoadOrder(c: Cache, id: int, resolved: bool, queued: bool, now: int, log: seq<int>)
    requires WellFormed(c) && ByUse(c.lru, log)
    ensures var (c2, code) := Load(c, id, resolved, queued, now);
            ByUse(c2.lru, if code == LoadOk then log + [id] else log)
  {
    hide ByUse, Load;
    if id <= 0 {
      LoadRefuses(c, id, resolved, queued, now);
    } else if id in c.buffers && !Retried(c, id) {
      LoadHitUses(c, id, resolved, queued, now);
      MovedOrder(c.lru, Load(c, id, resolved, queued, now).0.lru, id, log);
    } else {
      LoadMissStarts(c, id, resolved, queued, now);
      var (c2, code) := Load(c, id, resolved, queued, now);
      var rest := if code == LoadOk then c2.lru[1..] else c2.lru;
      ClearedOrder(c, id, rest, log);
      if code == LoadOk {
        NewFront(rest, log, id);
        assert c2.lru == [id] + rest;
      }
    }
  }

  lemma ClearedOrder(c: Cache, id: int, rest: seq<int>, log: seq<int>)
    requires WellFormed(c) && ByUse(c.lru, log) && Cleared(c, id, rest)
    ensures ByUse(rest, log) && id !in rest
  {
    if id in c.buffers {
      var k: nat :| k < |c.lru| && c.lru[k] == id && rest == c.lru[..k] + c.lru[k + 1..];
      WithoutPosition(c.lru, k, log);
    }
  }

  lemma CallOrder(c: Cache, call: Call, now: int, log: seq<int>)
    requires WellFormed(c) && ByUse(c.lru, log)
    ensures ByUse(After(c, call, now).lru, Logged(c, call, now, log))
  {
    hide WellFormed, ByUse, Load, GetLocked, MovedFront;
    match call
    case LoadCall(id, resolved, queued) => LoadOrder(c, id, resolved, queued, now, log);
    case GetCall(id) =>
      GetUses(c, id, now);
      if Uses(c, call, now) {
        QueueNoDup(c);
        MovedOrder(c.lru, GetLocked(c, id, now).value.0.lru, id, log);
      }
    case DoneCall(id, bytes) =>
      if StatusOf(c, id) == StillLoading {
        var c1 := ChargedCache(c, id, bytes, now);
        EvictOrder(c1, |c1.lru|, log);
      }
    case SweepCall(maxAge) => SweepOrder(c, now - maxAge, |c.lru|, log);
    case _ =>
  }

  lemma QueueNoDup(c: Cache)
    requires WellFormed(c)
    ensures NoDup(c.lru)
  {
  }

  lemma CallKeeps(c: Cache, call: Call, now: int)
    requires WellFormed(c)
    ensures WellFormed(After(c, call, now))
  {
    hide WellFormed, Load, GetLocked, Lock, UnlockNow, DecodeDone, DecodeFail, SweepFrom, Keeps;
    match call
    case LoadCall(id, resolved, queued) => LoadKeeps(c, id, resolved, queued, now);
    case GetCall(id) =>
      GetUses(c, id, now);
      if Locks(c, id) > 0 {
        GetLockedKeeps(c, id, now);
      }
    case LockCall(id) =>
      LockUnlock(c, id);
      if id in c.buffers {
        LockKeeps(c, id);
      }
    case UnlockCall(id) =>
      LockUnlock(c, id);
      if Locks(c, id) > 0 {
        UnlockKeeps(c, id);
      }
    case DeferCall(id) => DeferKeeps(c, id);
    case TimerCall(id) =>
      LockUnlock(c, id);
      if Locks(c, id) > 0 {
        AnyPending(c, c.pending - {id});
        UnlockKeeps(c.(pending := c.pending - {id}), id);
      }
    case DoneCall(id, bytes) =>
      if StatusOf(c, id) == StillLoading {
        DecodeDoneKeeps(c, id, bytes, now);
      }
    case FailCall(id) =>
      if StatusOf(c, id) == StillLoading {
        DecodeFailKeeps(c, id, now);
      }
    case SweepCall(maxAge) => SweepKeeps(c, now - maxAge, |c.lru|);
  }

  lemma AnyPending(c: Cache, pending: set<int>)
    requires WellFormed(c)
    ensures WellFormed(c.(pending := pending))
  {
  }

  /** After any run of calls the queue lists the cached tracks by use, the one used last in front. */
  lemma {:induction false} QueueIsUseOrder(c: Cache, calls: seq<(Call, int)>, log: seq<int>)
    requires WellFormed(c) && ByUse(c.lru, log)
    ensures WellFormed(AfterAll(c, calls)) && ByUse(AfterAll(c, calls).lru, UseLog(c, calls, log))
    decreases |calls|
  {
    hide WellFormed, ByUse, After, Uses;
    if calls != [] {
      var (call, now) := calls[0];
      CallOrder(c, call, now, log);
      CallKeeps(c, call, now);
      QueueIsUseOrder(After(c, call, now), calls[1..], Logged(c, call, now, log));
    }
  }

  /** Eviction takes the least recently used: whatever a completed decode evicts was used before every idle, decoded
      track it leaves. */
  lemma EvictsLeastRecent(c: Cache, calls: seq<(Call, int)>, id: int, bytes: nat, now: int, gone: int, kept: int)
    requires WellFormed(c) && c.lru == []
    requires var c1 := AfterAll(c, calls); id in c1.buffers && c1.buffers[id].decode == Loading
    requires var c1 := AfterAll(c, calls);
             && gone in c1.buffers && gone !in DecodeDone(c1, id, bytes, now).buffers
             && kept in DecodeDone(c1, id, bytes, now).buffers && !InUse(DecodeDone(c1, id, bytes, now).buffers[kept])
    ensures var log := UseLog(c, calls, []); 0 <= LastUse(log, gone) < LastUse(log, kept)
  {
    hide WellFormed;
    QueueIsUseOrder(c, calls, []);
    var c1, log := AfterAll(c, calls), UseLog(c, calls, []);
    var c2 := ChargedCache(c1, id, bytes, now);
    ChargeKeeps(c1, id, bytes, now);
    var m := EvictStops(c2, |c2.lru|);
    var k := Position(c2, kept);
    assert gone in Evictable(c2, m, |c2.lru|);
    var e: nat :| m <= e < |c2.lru| && !Stays(c2, e) && c2.lru[e] == gone;
    assert !Stays(c2, k);
    assert kept !in Evictable(c2, m, |c2.lru|);
    assert k < m;
  }
}
