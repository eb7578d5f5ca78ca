// The cache of decoded audio buffers as a value: the track table, the recency queue,
// eviction locks and deferred unlocks.

module AudioCache {

  datatype Decode = Loading | Ready | Failed

  /** A cached buffer. `handle` is its address: never 0 and never used for another buffer. */
  datatype Buffer = Buffer(handle: nat, locks: nat, decode: Decode, bytes: nat, lastAccess: int)

  /** `lru` lists the cached tracks, most recent first; `pending` holds the tracks with a scheduled unlock. */
  datatype Cache = Cache(buffers: map<int, Buffer>, lru: seq<int>, used: int, limit: nat, pending: set<int>,
                         nextHandle: nat)

  datatype Status = NotFound | StillLoading | IsReady | HasFailed

  datatype LoadCode = LoadOk | InvalidParam | FileNotFound | Internal

  /** Conditions under which the program aborts. */
  datatype Reason = NotInCache | LockUnderflow | NotLocked

  datatype Outcome<+T> = Ok(value: T) | Abort(reason: Reason) {
    predicate IsFailure() {
      Abort?
    }
    function PropagateFailure<U>(): Outcome<U>
      requires Abort?
    {
      Abort(reason)
    }
    function Extract(): T
      requires Ok?
    {
      value
    }
  }

  // ---- Structure ----

  predicate InUse(b: Buffer) {
    b.locks > 0 || b.decode == Loading
  }

  /** The bytes a buffer is charged for. */
  function Charge(b: Buffer): nat {
    if b.decode == Ready then b.bytes else 0
  }

  function Charged(buffers: map<int, Buffer>, lru: seq<int>): nat {
    if lru == [] then 0
    else (if lru[0] in buffers then Charge(buffers[lru[0]]) else 0) + Charged(buffers, lru[1..])
  }

  predicate NoDup(s: seq<int>) {
    forall i, k | 0 <= i < k < |s| :: s[i] != s[k]
  }

  /** Table and queue hold the same tracks, the memory counter is the sum over completed buffers, only
      completed buffers have bytes, and handles are distinct. */
  ghost predicate WellFormed(c: Cache) {
    && HandlesDistinct(c)
    && NoDup(c.lru)
    && (forall i | 0 <= i < |c.lru| :: c.lru[i] in c.buffers)
    && (forall id | id in c.buffers :: id in c.lru)
    && c.used == Charged(c.buffers, c.lru)
    && (forall id | id in c.buffers :: c.buffers[id].decode == Ready || c.buffers[id].bytes == 0)
  }

  ghost predicate HandlesDistinct(c: Cache) {
    && c.nextHandle > 0
    && (forall id | id in c.buffers :: 0 < c.buffers[id].handle < c.nextHandle)
    && (forall i, k | i in c.buffers && k in c.buffers && i != k :: c.buffers[i].handle != c.buffers[k].handle)
  }

  /** Handles stay distinct when buffers only leave or change in place. */
  lemma HandlesStay(c: Cache, c2: Cache)
    requires HandlesDistinct(c) && c2.nextHandle >= c.nextHandle
    requires forall id | id in c2.buffers :: id in c.buffers && c2.buffers[id].handle == c.buffers[id].handle
    ensures HandlesDistinct(c2)
  {
  }

  function Locks(c: Cache, id: int): nat {
    if id in c.buffers then c.buffers[id].locks else 0
  }

  function StatusOf(c: Cache, id: int): Status {
    if id !in c.buffers then NotFound
    else match c.buffers[id].decode
      case Failed => HasFailed
      case Ready => IsReady
      case Loading => StillLoading
  }

  /** `id` is cached under handle `h` and fully decoded. */
  predicate Live(c: Cache, id: int, h: nat) {
    id in c.buffers && c.buffers[id].handle == h && c.buffers[id].decode == Ready
  }

  // ---- Operations ----

  function Without(s: seq<int>, id: int): seq<int> {
    if s == [] then [] else (if s[0] == id then [] else [s[0]]) + Without(s[1..], id)
  }

  /** Marks the track used now and moves it to the front of the queue. */
  function Touch(c: Cache, id: int, now: int): Cache
    requires id in c.buffers
  {
    c.(buffers := c.buffers[id := c.buffers[id].(lastAccess := now)], lru := [id] + Without(c.lru, id))
  }

  /** Takes the track at queue position `k` out of the cache. */
  function DropAt(c: Cache, k: nat): Cache
    requires k < |c.lru|
  {
    var id := c.lru[k];
    c.(buffers := c.buffers - {id}, lru := c.lru[..k] + c.lru[k + 1..],
       used := c.used - if id in c.buffers then c.buffers[id].bytes else 0)
  }

  /** Whether the buffer at queue position `k` must stay. */
  predicate Stays(c: Cache, k: nat)
    requires k < |c.lru|
  {
    c.lru[k] in c.buffers && InUse(c.buffers[c.lru[k]])
  }

  /** Eviction over queue positions below `k`, oldest first, while the limit is exceeded. */
  function EvictFrom(c: Cache, k: nat): Cache
    requires k <= |c.lru|
    decreases k
  {
    if k == 0 || c.used <= c.limit then c
    else if Stays(c, k - 1) then EvictFrom(c, k - 1)
    else EvictFrom(DropAt(c, k - 1), k - 1)
  }

  function Evict(c: Cache): Cache {
    EvictFrom(c, |c.lru|)
  }

  /** The idle sweep below `k`, oldest first, up to the first idle buffer used after `cutoff`. */
  function SweepFrom(c: Cache, cutoff: int, k: nat): Cache
    requires k <= |c.lru|
    decreases k
  {
    if k == 0 then c
    else if Stays(c, k - 1) then SweepFrom(c, cutoff, k - 1)
    else if c.lru[k - 1] in c.buffers && c.buffers[c.lru[k - 1]].lastAccess > cutoff then c
    else SweepFrom(DropAt(c, k - 1), cutoff, k - 1)
  }

  function Sweep(c: Cache, now: int, maxAge: int): Cache {
    SweepFrom(c, now - maxAge, |c.lru|)
  }

  function Remove(c: Cache, id: int): Cache {
    c.(buffers := c.buffers - {id}, lru := Without(c.lru, id))
  }

  /** Starts a decode unless the track is cached; an unlocked failed entry is dropped and retried.
      `resolved` and `queued` say whether the path lookup and the decode queue accept the track. */
  function Load(c: Cache, id: int, resolved: bool, queued: bool, now: int): (Cache, LoadCode) {
    if id <= 0 then (c, InvalidParam)
    else if id in c.buffers && !(c.buffers[id].decode == Failed && c.buffers[id].locks == 0) then
      (Touch(c, id, now), LoadOk)
    else
      var c1 := if id in c.buffers then Remove(c, id) else c;
      if !resolved then (c1, FileNotFound)
      else
        var c2 := c1.(nextHandle := c1.nextHandle + 1);
        if !queued then (c2, Internal)
        else (c2.(buffers := c1.buffers[id := Buffer(c1.nextHandle, 0, Loading, 0, 0)], lru := [id] + c1.lru), LoadOk)
  }

  function Lock(c: Cache, id: int): Outcome<(Cache, Status)> {
    if id !in c.buffers then Abort(NotInCache)
    else
      var b := c.buffers[id];
      Ok((c.(buffers := c.buffers[id := b.(locks := b.locks + 1)]), StatusOf(c, id)))
  }

  function UnlockNow(c: Cache, id: int): Outcome<Cache> {
    if id !in c.buffers then Abort(NotInCache)
    else
      var b := c.buffers[id];
      if b.locks <= 0 then Abort(LockUnderflow)
      else Ok(c.(buffers := c.buffers[id := b.(locks := b.locks - 1)]))
  }

  /** Schedules an unlock; a second request for the same track replaces the first. */
  function UnlockDeferred(c: Cache, id: int): Cache {
    c.(pending := c.pending + {id})
  }

  /** The timer of a scheduled unlock fires. */
  function FireUnlock(c: Cache, id: int): Outcome<Cache> {
    UnlockNow(c.(pending := c.pending - {id}), id)
  }

  /** The handle of a locked track's buffer, or 0 while it is not decoded. */
  function GetLocked(c: Cache, id: int, now: int): Outcome<(Cache, nat)> {
    if id !in c.buffers then Abort(NotInCache)
    else if c.buffers[id].locks <= 0 then Abort(NotLocked)
    else if c.buffers[id].decode != Ready then Ok((c, 0))
    else Ok((Touch(c, id, now), c.buffers[id].handle))
  }

  /** A decode completes: the buffer is charged, then the cache is brought back under its limit. */
  function DecodeDone(c: Cache, id: int, bytes: nat, now: int): Cache
    requires id in c.buffers
  {
    Evict(c.(buffers := c.buffers[id := c.buffers[id].(decode := Ready, bytes := bytes, lastAccess := now)],
             used := c.used + bytes))
  }

  /** A decode fails or was cancelled: a zero-byte entry stays so that callers see the failure. */
  function DecodeFail(c: Cache, id: int, now: int): Cache
    requires id in c.buffers
  {
    c.(buffers := c.buffers[id := c.buffers[id].(decode := Failed, bytes := 0, lastAccess := now)])
  }

  // ---- Accounting ----

  lemma {:induction false} ChargedSame(b: map<int, Buffer>, b2: map<int, Buffer>, lru: seq<int>)
    requires forall i | 0 <= i < |lru| ::
      (lru[i] in b2 <==> lru[i] in b) && (lru[i] in b ==> Charge(b2[lru[i]]) == Charge(b[lru[i]]))
    ensures Charged(b2, lru) == Charged(b, lru)
  {
    if lru != [] {
      ChargedSame(b, b2, lru[1..]);
    }
  }

  lemma {:induction false} ChargedSplit(b: map<int, Buffer>, x: seq<int>, y: seq<int>)
    ensures Charged(b, x + y) == Charged(b, x) + Charged(b, y)
  {
    if x == [] {
      assert x + y == y;
    } else {
      assert (x + y)[1..] == x[1..] + y;
      ChargedSplit(b, x[1..], y);
    }
  }

  lemma {:induction false} WithoutIs(s: seq<int>, k: nat)
    requires k < |s| && NoDup(s)
    ensures Without(s, s[k]) == s[..k] + s[k + 1..]
  {
    if k == 0 {
      WithoutAbsent(s[1..], s[0]);
    } else {
      WithoutIs(s[1..], k - 1);
      assert s[1..][..k - 1] == s[1..k] && s[1..][k..] == s[k + 1..];
      assert [s[0]] + s[1..k] == s[..k];
    }
  }

  lemma {:induction false} WithoutAbsent(s: seq<int>, id: int)
    requires forall i | 0 <= i < |s| :: s[i] != id
    ensures Without(s, id) == s
  {
    if s != [] {
      WithoutAbsent(s[1..], id);
    }
  }

  /** The position of a cached track in the queue. */
  lemma Position(c: Cache, id: int) returns (k: nat)
    requires WellFormed(c) && id in c.buffers
    ensures k < |c.lru| && c.lru[k] == id
    ensures Without(c.lru, id) == c.lru[..k] + c.lru[k + 1..]
  {
    k :| 0 <= k < |c.lru| && c.lru[k] == id;
    WithoutIs(c.lru, k);
  }

  /** Charges over the queue with position `k` taken out, or moved to the front. */
  lemma ChargedAround(b: map<int, Buffer>, lru: seq<int>, k: nat)
    requires k < |lru| && lru[k] in b
    ensures Charged(b, lru) == Charge(b[lru[k]]) + Charged(b, lru[..k] + lru[k + 1..])
  {
    assert lru == lru[..k] + ([lru[k]] + lru[k + 1..]);
    ChargedSplit(b, lru[..k], [lru[k]] + lru[k + 1..]);
    ChargedSplit(b, [lru[k]], lru[k + 1..]);
    ChargedSplit(b, lru[..k], lru[k + 1..]);
    assert Charged(b, [lru[k]]) == Charge(b[lru[k]]);
  }

  // ---- What every operation keeps ----

  /** Locked buffers stay where they are, and stay decoded. */
  ghost predicate Keeps(c: Cache, c2: Cache) {
    forall id | id in c.buffers && c.buffers[id].locks > 0 ::
      && id in c2.buffers && c2.buffers[id].handle == c.buffers[id].handle
      && (c.buffers[id].decode == Ready ==> c2.buffers[id].decode == Ready)
  }

  /** An operation that touches no lock and no scheduled unlock. */
  ghost predicate LockFree(c: Cache, c2: Cache) {
    WellFormed(c2) && Keeps(c, c2) && c2.pending == c.pending && forall id :: Locks(c2, id) == Locks(c, id)
  }

  lemma LockFreeTrans(a: Cache, b: Cache, c: Cache)
    requires LockFree(a, b) && LockFree(b, c)
    ensures LockFree(a, c)
  {
    hide WellFormed;
    forall id | id in a.buffers && a.buffers[id].locks > 0 ensures id in b.buffers && b.buffers[id].locks > 0 {
      assert Locks(b, id) == Locks(a, id);
    }
  }

  lemma MovedToFront(s: seq<int>, k: nat)
    requires NoDup(s) && k < |s|
    ensures var t := [s[k]] + (s[..k] + s[k + 1..]); NoDup(t) && |t| == |s| && forall x :: x in t <==> x in s
  {
    var t := [s[k]] + (s[..k] + s[k + 1..]);
    forall x | x in s ensures x in t {
      var i :| 0 <= i < |s| && s[i] == x;
      assert t[if i < k then i + 1 else if i > k then i else 0] == x;
    }
  }

  lemma TakenOut(s: seq<int>, k: nat)
    requires NoDup(s) && k < |s|
    ensures var t := s[..k] + s[k + 1..]; NoDup(t) && forall x :: x in t <==> x in s && x != s[k]
  {
    var t := s[..k] + s[k + 1..];
    forall x | x in s && x != s[k] ensures x in t {
      var i :| 0 <= i < |s| && s[i] == x;
      assert t[if i < k then i else i - 1] == x;
    }
  }

  lemma TouchCharged(c: Cache, id: int, now: int, k: nat)
    requires WellFormed(c) && id in c.buffers && k < |c.lru| && c.lru[k] == id
    requires Without(c.lru, id) == c.lru[..k] + c.lru[k + 1..]
    ensures Charged(Touch(c, id, now).buffers, Touch(c, id, now).lru) == c.used
  {
    hide NoDup, Without, HandlesDistinct;
    var c2 := Touch(c, id, now);
    var rest := c.lru[..k] + c.lru[k + 1..];
    ChargedAround(c.buffers, c.lru, k);
    ChargedSplit(c.buffers, [id], rest);
    assert Charged(c.buffers, [id]) == Charge(c.buffers[id]);
    ChargedSame(c.buffers, c2.buffers, c2.lru);
  }

  lemma TouchKeeps(c: Cache, id: int, now: int)
    requires WellFormed(c) && id in c.buffers
    ensures LockFree(c, Touch(c, id, now))
    ensures forall k, h :: Live(Touch(c, id, now), k, h) <==> Live(c, k, h)
  {
    hide NoDup, Without, HandlesDistinct, Charged;
    var c2 := Touch(c, id, now);
    HandlesStay(c, c2);
    var k := Position(c, id);
    MovedToFront(c.lru, k);
    TouchCharged(c, id, now, k);
    assert forall i | 0 <= i < |c2.lru| :: c2.lru[i] in c2.lru;
  }

  lemma DropKeeps(c: Cache, k: nat)
    requires WellFormed(c) && k < |c.lru| && !Stays(c, k)
    ensures LockFree(c, DropAt(c, k))
    ensures DropAt(c, k).used == c.used - c.buffers[c.lru[k]].bytes
  {
    hide NoDup, HandlesDistinct;
    var c2 := DropAt(c, k);
    HandlesStay(c, c2);
    TakenOut(c.lru, k);
    ChargedAround(c.buffers, c.lru, k);
    assert forall i | 0 <= i < |c2.lru| :: c2.lru[i] in c2.lru;
    ChargedSame(c.buffers, c2.buffers, c2.lru);
  }

  lemma {:induction false} EvictKeeps(c: Cache, k: nat)
    requires WellFormed(c) && k <= |c.lru|
    ensures LockFree(c, EvictFrom(c, k))
    decreases k
  {
    hide WellFormed;
    if k > 0 && c.used > c.limit {
      if Stays(c, k - 1) {
        EvictKeeps(c, k - 1);
      } else {
        DropKeeps(c, k - 1);
        EvictKeeps(DropAt(c, k - 1), k - 1);
        LockFreeTrans(c, DropAt(c, k - 1), EvictFrom(c, k));
      }
    }
  }

  lemma {:induction false} SweepKeeps(c: Cache, cutoff: int, k: nat)
    requires WellFormed(c) && k <= |c.lru|
    ensures LockFree(c, SweepFrom(c, cutoff, k))
    decreases k
  {
    hide WellFormed;
    if k > 0 {
      if Stays(c, k - 1) {
        SweepKeeps(c, cutoff, k - 1);
      } else if c.lru[k - 1] !in c.buffers || c.buffers[c.lru[k - 1]].lastAccess <= cutoff {
        DropKeeps(c, k - 1);
        SweepKeeps(DropAt(c, k - 1), cutoff, k - 1);
        LockFreeTrans(c, DropAt(c, k - 1), SweepFrom(c, cutoff, k));
      }
    }
  }

  lemma PushedFront(s: seq<int>, id: int)
    requires NoDup(s) && id !in s
    ensures NoDup([id] + s) && forall x :: x in [id] + s <==> x == id || x in s
  {
  }

  /** A started decode: a new buffer under a new handle, at the front of the queue. */
  function WithFresh(c: Cache, id: int): Cache {
    c.(nextHandle := c.nextHandle + 1, buffers := c.buffers[id := Buffer(c.nextHandle, 0, Loading, 0, 0)],
       lru := [id] + c.lru)
  }

  lemma NewHandle(c: Cache, id: int)
    requires HandlesDistinct(c)
    ensures HandlesDistinct(c.(nextHandle := c.nextHandle + 1))
    ensures HandlesDistinct(WithFresh(c, id))
  {
  }

  lemma LoadFresh(c: Cache, id: int)
    requires WellFormed(c) && id !in c.buffers
    ensures LockFree(c, c.(nextHandle := c.nextHandle + 1))
    ensures LockFree(c, WithFresh(c, id))
  {
    var c2 := WithFresh(c, id);
    NewHandle(c, id);
    hide HandlesDistinct;
    assert id !in c.lru;
    PushedFront(c.lru, id);
    assert c2.lru[1..] == c.lru;
    ChargedSame(c.buffers, c2.buffers, c.lru);
    assert Charged(c2.buffers, c2.lru) == Charged(c.buffers, c.lru);
    hide NoDup, Charged;
    assert forall i | 0 <= i < |c2.lru| :: c2.lru[i] in c2.lru;
    assert WellFormed(c2);
  }

  lemma RetryDrops(c: Cache, id: int)
    requires WellFormed(c) && id in c.buffers && c.buffers[id].decode == Failed && c.buffers[id].locks == 0
    ensures LockFree(c, Remove(c, id)) && id !in Remove(c, id).buffers
  {
    hide WellFormed, LockFree;
    var k := Position(c, id);
    assert c.buffers[id].bytes == 0 by { FailedIsEmpty(c, id); }
    DropKeeps(c, k);
    assert Remove(c, id) == DropAt(c, k);
  }

  lemma FailedIsEmpty(c: Cache, id: int)
    requires WellFormed(c) && id in c.buffers && c.buffers[id].decode != Ready
    ensures c.buffers[id].bytes == 0
  {
  }

  /** A load never touches a lock; afterwards the track is cached exactly when it was already, other than
      as an unlocked failure, or when lookup and queue accept it. */
  lemma LoadKeeps(c: Cache, id: int, resolved: bool, queued: bool, now: int)
    requires WellFormed(c)
    ensures LockFree(c, Load(c, id, resolved, queued, now).0)
    ensures id > 0 ==> (id in Load(c, id, resolved, queued, now).0.buffers <==>
      (resolved && queued) || (id in c.buffers && (c.buffers[id].decode != Failed || c.buffers[id].locks > 0)))
  {
    hide WellFormed;
    if id > 0 {
      if id in c.buffers && !(c.buffers[id].decode == Failed && c.buffers[id].locks == 0) {
        TouchKeeps(c, id, now);
      } else if id in c.buffers {
        RetryDrops(c, id);
        LoadFresh(Remove(c, id), id);
        LockFreeTrans(c, Remove(c, id), Load(c, id, resolved, queued, now).0);
      } else {
        LoadFresh(c, id);
      }
    }
  }

  lemma LockKeeps(c: Cache, id: int)
    requires WellFormed(c) && id in c.buffers
    ensures Lock(c, id).Ok?
    ensures var c2 := Lock(c, id).value.0;
            && WellFormed(c2) && Keeps(c, c2) && c2.pending == c.pending
            && (forall k :: Locks(c2, k) == Locks(c, k) + if k == id then 1 else 0)
            && (forall k, h :: Live(c2, k, h) <==> Live(c, k, h))
  {
    hide NoDup, HandlesDistinct;
    var c2 := Lock(c, id).value.0;
    HandlesStay(c, c2);
    ChargedSame(c.buffers, c2.buffers, c.lru);
  }

  lemma UnlockKeeps(c: Cache, id: int)
    requires WellFormed(c) && Locks(c, id) > 0
    ensures UnlockNow(c, id).Ok?
    ensures var c2 := UnlockNow(c, id).value;
            && WellFormed(c2) && Keeps(c, c2) && c2.pending == c.pending
            && forall k :: Locks(c2, k) == Locks(c, k) - if k == id then 1 else 0
  {
    hide NoDup, HandlesDistinct;
    var c2 := UnlockNow(c, id).value;
    HandlesStay(c, c2);
    ChargedSame(c.buffers, c2.buffers, c.lru);
  }

  lemma DeferKeeps(c: Cache, id: int)
    requires WellFormed(c)
    ensures var c2 := UnlockDeferred(c, id);
            WellFormed(c2) && Keeps(c, c2) && forall k :: Locks(c2, k) == Locks(c, k)
  {
  }

  lemma GetLockedKeeps(c: Cache, id: int, now: int)
    requires WellFormed(c) && Locks(c, id) > 0
    ensures GetLocked(c, id, now).Ok?
    ensures var (c2, h) := GetLocked(c, id, now).value;
            && LockFree(c, c2) && (forall k, x :: Live(c2, k, x) <==> Live(c, k, x))
            && (h != 0 <==> StatusOf(c, id) == IsReady) && (h != 0 ==> Live(c, id, h))
  {
    hide LockFree;
    LockFreeRefl(c);
    TouchKeeps(c, id, now);
  }

  lemma LockFreeRefl(c: Cache)
    requires WellFormed(c)
    ensures LockFree(c, c)
  {
  }

  lemma {:induction false} ChargedUpdate(b: map<int, Buffer>, lru: seq<int>, k: nat, x: Buffer)
    requires k < |lru| && NoDup(lru) && lru[k] in b
    ensures Charged(b[lru[k] := x], lru) == Charged(b, lru) - Charge(b[lru[k]]) + Charge(x)
  {
    var b2, rest := b[lru[k] := x], lru[..k] + lru[k + 1..];
    ChargedAround(b, lru, k);
    ChargedAround(b2, lru, k);
    TakenOut(lru, k);
    assert forall i | 0 <= i < |rest| :: rest[i] in rest;
    ChargedSame(b, b2, rest);
  }

  /** The cache with a completed buffer charged, before any eviction. */
  function ChargedCache(c: Cache, id: int, bytes: nat, now: int): Cache
    requires id in c.buffers
  {
    c.(buffers := c.buffers[id := c.buffers[id].(decode := Ready, bytes := bytes, lastAccess := now)],
       used := c.used + bytes)
  }

  lemma ChargeKeeps(c: Cache, id: int, bytes: nat, now: int)
    requires WellFormed(c) && id in c.buffers && c.buffers[id].decode == Loading
    ensures LockFree(c, ChargedCache(c, id, bytes, now))
  {
    var b2 := c.buffers[id].(decode := Ready, bytes := bytes, lastAccess := now);
    var c2 := ChargedCache(c, id, bytes, now);
    var k := Position(c, id);
    hide HandlesDistinct;
    HandlesStay(c, c2);
    ChargedUpdate(c.buffers, c.lru, k, b2);
  }

  lemma DecodeDoneKeeps(c: Cache, id: int, bytes: nat, now: int)
    requires WellFormed(c) && id in c.buffers && c.buffers[id].decode == Loading
    ensures LockFree(c, DecodeDone(c, id, bytes, now))
  {
    ChargeKeeps(c, id, bytes, now);
    var c2 := ChargedCache(c, id, bytes, now);
    assert WellFormed(c2);
    hide LockFree, WellFormed;
    EvictKeeps(c2, |c2.lru|);
    LockFreeTrans(c, c2, Evict(c2));
  }

  lemma DecodeFailKeeps(c: Cache, id: int, now: int)
    requires WellFormed(c) && id in c.buffers && c.buffers[id].decode == Loading
    ensures LockFree(c, DecodeFail(c, id, now))
  {
    hide NoDup, HandlesDistinct;
    HandlesStay(c, DecodeFail(c, id, now));
    ChargedSame(c.buffers, DecodeFail(c, id, now).buffers, c.lru);
  }

  // ---- What eviction takes ----

  /** The tracks that stay among queue positions `from` to `hi`, in queue order. */
  function Survivors(c: Cache, from: nat, hi: nat): seq<int>
    requires from <= hi <= |c.lru|
    decreases hi
  {
    if from == hi then []
    else Survivors(c, from, hi - 1) + (if Stays(c, hi - 1) then [c.lru[hi - 1]] else [])
  }

  function Evictable(c: Cache, from: nat, hi: nat): set<int>
    requires from <= hi <= |c.lru|
  {
    set i | from <= i < hi && !Stays(c, i) :: c.lru[i]
  }

  /** An oldest-first removal over positions below `k` stopped at `m`: positions below `m` are untouched,
      the evictable tracks from `m` to `k` are gone, and nothing else changed but the memory counter. */
  ghost predicate StoppedAt(c: Cache, c2: Cache, m: nat, k: nat)
    requires m <= k <= |c.lru|
  {
    && c2.lru == c.lru[..m] + Survivors(c, m, k) + c.lru[k..]
    && c2.buffers == c.buffers - Evictable(c, m, k)
    && c2 == c.(lru := c2.lru, buffers := c2.buffers, used := c2.used)
    && (Evictable(c, m, k) == {} ==> c2 == c)
  }

  lemma StoppedHere(c: Cache, k: nat)
    requires k <= |c.lru|
    ensures StoppedAt(c, c, k, k)
  {
    assert c.lru[..k] + [] + c.lru[k..] == c.lru;
    assert c.buffers - Evictable(c, k, k) == c.buffers;
  }

  lemma StoppedSkip(c: Cache, c2: Cache, m: nat, k: nat)
    requires m < k <= |c.lru| && Stays(c, k - 1) && StoppedAt(c, c2, m, k - 1)
    ensures StoppedAt(c, c2, m, k)
  {
    assert Evictable(c, m, k) == Evictable(c, m, k - 1);
    assert c.lru[k - 1..] == [c.lru[k - 1]] + c.lru[k..];
    assert c.lru[..m] + Survivors(c, m, k - 1) + c.lru[k - 1..]
        == c.lru[..m] + (Survivors(c, m, k - 1) + [c.lru[k - 1]]) + c.lru[k..];
  }

  lemma {:induction false} SurvivorsBelow(c: Cache, k: nat, m: nat, hi: nat)
    requires WellFormed(c) && m <= hi <= k < |c.lru|
    ensures Survivors(DropAt(c, k), m, hi) == Survivors(c, m, hi)
    decreases hi
  {
    if m < hi {
      SurvivorsBelow(c, k, m, hi - 1);
    }
  }

  lemma StoppedDrop(c: Cache, c2: Cache, m: nat, k: nat)
    requires WellFormed(c) && m < k <= |c.lru| && !Stays(c, k - 1) && StoppedAt(DropAt(c, k - 1), c2, m, k - 1)
    ensures StoppedAt(c, c2, m, k)
  {
    hide WellFormed, Evictable, Stays;
    var d := DropAt(c, k - 1);
    SurvivorsBelow(c, k - 1, m, k - 1);
    assert d.lru[..m] == c.lru[..m] && d.lru[k - 1..] == c.lru[k..];
    EvictableDrop(c, m, k);
    MinusTwice(c.buffers, c.lru[k - 1], Evictable(d, m, k - 1));
    assert c.lru[k - 1] in Evictable(c, m, k);
  }

  lemma MinusTwice(b: map<int, Buffer>, x: int, s: set<int>)
    ensures b - {x} - s == b - (s + {x})
  {
  }

  lemma EvictableDrop(c: Cache, m: nat, k: nat)
    requires WellFormed(c) && m < k <= |c.lru| && !Stays(c, k - 1)
    ensures Evictable(c, m, k) == Evictable(DropAt(c, k - 1), m, k - 1) + {c.lru[k - 1]}
  {
    hide HandlesDistinct;
    var d := DropAt(c, k - 1);
    assert forall i | m <= i < k - 1 :: d.lru[i] == c.lru[i] && Stays(d, i) == Stays(c, i);
    forall x | x in Evictable(c, m, k) ensures x in Evictable(d, m, k - 1) + {c.lru[k - 1]} {
      var i :| m <= i < k && !Stays(c, i) && c.lru[i] == x;
      if i < k - 1 {
        assert d.lru[i] == x && !Stays(d, i);
      }
    }
    forall x | x in Evictable(d, m, k - 1) ensures x in Evictable(c, m, k) {
      var i :| m <= i < k - 1 && !Stays(d, i) && d.lru[i] == x;
      assert c.lru[i] == x && !Stays(c, i);
    }
  }

  /** Without the removal of position `e`, the cache would exceed its limit. */
  predicate NeededFor(c: Cache, c2: Cache, e: nat)
    requires e < |c.lru|
  {
    c.lru[e] in c.buffers && c2.used + c.buffers[c.lru[e]].bytes > c.limit
  }

  /** The last track an eviction takes: everything it passed before reaching the stop stays. */
  ghost predicate LastTaken(c: Cache, m: nat, e: nat, k: nat)
    requires k <= |c.lru|
  {
    m <= e < k && !Stays(c, e) && forall i | m <= i < e :: Stays(c, i)
  }

  /** Eviction takes the evictable tracks from the oldest up to some position and no other; it ends under
      the limit or with only in-use tracks left; and without its last removal it would exceed the limit. */
  lemma {:induction false} EvictStops(c: Cache, k: nat) returns (m: nat)
    requires WellFormed(c) && k <= |c.lru|
    ensures m <= k && StoppedAt(c, EvictFrom(c, k), m, k)
    ensures EvictFrom(c, k).used <= c.limit || m == 0
    ensures forall e: nat :: LastTaken(c, m, e, k) ==> NeededFor(c, EvictFrom(c, k), e)
    decreases k
  {
    hide WellFormed, StoppedAt;
    if k == 0 || c.used <= c.limit {
      m := k;
      StoppedHere(c, k);
    } else if Stays(c, k - 1) {
      m := EvictStops(c, k - 1);
      StoppedSkip(c, EvictFrom(c, k), m, k);
      assert forall e: nat :: LastTaken(c, m, e, k) ==> LastTaken(c, m, e, k - 1);
    } else {
      var d := DropAt(c, k - 1);
      DropKeeps(c, k - 1);
      m := EvictStops(d, k - 1);
      StoppedDrop(c, EvictFrom(c, k), m, k);
      EvictNeeds(c, d, EvictFrom(c, k), m, k);
    }
  }

  lemma EvictNeeds(c: Cache, d: Cache, c2: Cache, m: nat, k: nat)
    requires WellFormed(c) && m < k <= |c.lru| && !Stays(c, k - 1) && c.used > c.limit
    requires d == DropAt(c, k - 1) && StoppedAt(d, c2, m, k - 1)
    requires forall e: nat :: LastTaken(d, m, e, k - 1) ==> NeededFor(d, c2, e)
    ensures forall e: nat :: LastTaken(c, m, e, k) ==> NeededFor(c, c2, e)
  {
    hide HandlesDistinct;
    assert forall i | m <= i < k - 1 :: d.lru[i] == c.lru[i] && Stays(d, i) == Stays(c, i);
    forall e: nat | LastTaken(c, m, e, k) ensures NeededFor(c, c2, e) {
      if e < k - 1 {
        assert LastTaken(d, m, e, k - 1);
        assert NeededFor(d, c2, e);
      } else {
        assert Evictable(d, m, k - 1) == {};
      }
    }
  }

  /** What a sweep that stopped at `m` took was idle since the cutoff, and why it stopped. */
  ghost predicate SweptTo(c: Cache, cutoff: int, m: nat, k: nat)
    requires m <= k <= |c.lru|
  {
    && (forall e | m <= e < k && !Stays(c, e) :: c.lru[e] in c.buffers && c.buffers[c.lru[e]].lastAccess <= cutoff)
    && (m == 0 || (!Stays(c, m - 1) && c.lru[m - 1] in c.buffers && c.buffers[c.lru[m - 1]].lastAccess > cutoff))
  }

  /** The idle sweep takes the evictable tracks from the oldest up to some position; every one it takes was
      idle since the cutoff, and it stopped at the front or at an idle track used after the cutoff. */
  lemma {:induction false} SweepStops(c: Cache, cutoff: int, k: nat) returns (m: nat)
    requires WellFormed(c) && k <= |c.lru|
    ensures m <= k && StoppedAt(c, SweepFrom(c, cutoff, k), m, k) && SweptTo(c, cutoff, m, k)
    decreases k
  {
    hide StoppedAt, WellFormed;
    if k == 0 {
      m := 0;
      StoppedHere(c, 0);
    } else if Stays(c, k - 1) {
      m := SweepStops(c, cutoff, k - 1);
      StoppedSkip(c, SweepFrom(c, cutoff, k), m, k);
    } else {
      assert c.lru[k - 1] in c.buffers by { QueuedIsCached(c, k - 1); }
      if c.buffers[c.lru[k - 1]].lastAccess > cutoff {
        m := k;
        StoppedHere(c, k);
      } else {
        DropKeeps(c, k - 1);
        m := SweepStops(DropAt(c, k - 1), cutoff, k - 1);
        StoppedDrop(c, SweepFrom(c, cutoff, k), m, k);
        SweptDrop(c, cutoff, m, k);
      }
    }
  }

  lemma SweptDrop(c: Cache, cutoff: int, m: nat, k: nat)
    requires WellFormed(c) && m < k <= |c.lru| && !Stays(c, k - 1) && c.buffers[c.lru[k - 1]].lastAccess <= cutoff
    requires SweptTo(DropAt(c, k - 1), cutoff, m, k - 1)
    ensures SweptTo(c, cutoff, m, k)
  {
    BelowDrop(c, k - 1);
    hide WellFormed, Stays;
    var d := DropAt(c, k - 1);
    if m > 0 {
      assert d.lru[m - 1] == c.lru[m - 1];
    }
  }

  lemma QueuedIsCached(c: Cache, k: nat)
    requires WellFormed(c) && k < |c.lru|
    ensures c.lru[k] in c.buffers
  {
  }

  lemma BelowDrop(c: Cache, k: nat)
    requires WellFormed(c) && k < |c.lru|
    ensures forall i | 0 <= i < k ::
              && DropAt(c, k).lru[i] == c.lru[i] && Stays(DropAt(c, k), i) == Stays(c, i)
              && c.lru[i] in DropAt(c, k).buffers && DropAt(c, k).buffers[c.lru[i]] == c.buffers[c.lru[i]]
  {
  }
}
