// The cache and the pipeline as they run: objects whose fields each entry point updates,
// proved against the functions of modules AudioCache and AudioPlayers.

module AudioPipeline {
  import opened AudioCache
  import opened AudioPlayers

  class BufferCache {
    var buffers: map<int, Buffer>
    var lru: seq<int>
    var used: int
    const limit: nat
    var pending: set<int>
    var nextHandle: nat

    constructor (limit: nat)
      ensures State() == Start(limit).cache
    {
      buffers, lru, used, pending, nextHandle := map[], [], 0, {}, 1;
      this.limit := limit;
    }

    ghost function State(): Cache
      reads this
    {
      Cache(buffers, lru, used, limit, pending, nextHandle)
    }

    method TouchBuffer(id: int, now: int)
      requires id in buffers
      modifies this`buffers, this`lru
      ensures State() == Touch(old(State()), id, now)
    {
      buffers := buffers[id := buffers[id].(lastAccess := now)];
      lru := [id] + Without(lru, id);
    }

    /** Takes the track at queue position `k` out of table, queue and memory count. */
    method Reclaim(k: nat)
      requires k < |lru|
      modifies this`buffers, this`lru, this`used
      ensures State() == DropAt(old(State()), k)
    {
      var id := lru[k];
      used := used - if id in buffers then buffers[id].bytes else 0;
      buffers := buffers - {id};
      lru := lru[..k] + lru[k + 1..];
    }

    /** Walks from the oldest buffer toward the newest and reclaims idle ones while over the limit. */
    method EvictLru()
      modifies this`buffers, this`lru, this`used
      ensures State() == Evict(old(State()))
    {
      var cursor: nat, scanned, queueLen := |lru|, 0, |lru|;
      while used > limit && cursor != 0 && scanned < queueLen
        invariant cursor <= |lru| && scanned + cursor == queueLen
        invariant EvictFrom(State(), cursor) == Evict(old(State()))
        decreases cursor
      {
        var prev := cursor - 1;
        scanned := scanned + 1;
        var id := lru[prev];
        if id in buffers && InUse(buffers[id]) {
          assert Stays(State(), prev);
          cursor := prev;
          continue;
        }
        Reclaim(prev);
        cursor := prev;
      }
    }

    /** Walks from the oldest buffer and reclaims idle ones until the first idle one used after the cutoff. */
    method SweepStale(now: int, maxAge: int)
      modifies this`buffers, this`lru, this`used
      ensures State() == Sweep(old(State()), now, maxAge)
    {
      var cutoff := now - maxAge;
      var link: nat := |lru|;
      while link != 0
        invariant link <= |lru|
        invariant SweepFrom(State(), cutoff, link) == Sweep(old(State()), now, maxAge)
        decreases link
      {
        var prev := link - 1;
        var id := lru[prev];
        if id in buffers && InUse(buffers[id]) {
          assert Stays(State(), prev);
          link := prev;
          continue;
        }
        if id in buffers && buffers[id].lastAccess > cutoff {
          break;
        }
        Reclaim(prev);
        link := prev;
      }
    }

    method LoadTrack(id: int, resolved: bool, queued: bool, now: int) returns (code: LoadCode)
      modifies this
      ensures (State(), code) == Load(old(State()), id, resolved, queued, now)
    {
      if id <= 0 {
        return InvalidParam;
      }
      if id in buffers {
        if buffers[id].decode == Failed && buffers[id].locks == 0 {
          lru := Without(lru, id);
          buffers := buffers - {id};
        } else {
          TouchBuffer(id, now);
          return LoadOk;
        }
      }
      if !resolved {
        return FileNotFound;
      }
      var handle := nextHandle;
      nextHandle := nextHandle + 1;
      if !queued {
        return Internal;
      }
      buffers := buffers[id := Buffer(handle, 0, Loading, 0, 0)];
      lru := [id] + lru;
      code := LoadOk;
    }

    method LockTrack(id: int) returns (status: Status)
      requires id in buffers
      modifies this`buffers
      ensures Lock(old(State()), id) == Ok((State(), status))
    {
      status := match buffers[id].decode case Failed => HasFailed case Ready => IsReady case Loading => StillLoading;
      buffers := buffers[id := buffers[id].(locks := buffers[id].locks + 1)];
    }

    /** Drops one lock; the callers' side is that the track is cached and locked. */
    method UnlockTrackNow(id: int)
      requires id in buffers && buffers[id].locks > 0
      modifies this`buffers
      ensures UnlockNow(old(State()), id) == Ok(State())
    {
      buffers := buffers[id := buffers[id].(locks := buffers[id].locks - 1)];
    }

    method UnlockTrackLater(id: int)
      modifies this`pending
      ensures State() == UnlockDeferred(old(State()), id)
    {
      if id in pending {
        pending := pending - {id};
      }
      pending := pending + {id};
    }

    method DelayedUnlockCallback(id: int)
      requires id in pending && id in buffers && buffers[id].locks > 0
      modifies this`pending, this`buffers
      ensures FireUnlock(old(State()), id) == Ok(State())
    {
      pending := pending - {id};
      UnlockTrackNow(id);
    }

    method GetLockedBuffer(id: int, now: int) returns (handle: nat)
      requires id in buffers && buffers[id].locks > 0
      modifies this`buffers, this`lru
      ensures GetLocked(old(State()), id, now) == Ok((State(), handle))
    {
      if buffers[id].decode != Ready {
        return 0;
      }
      handle := buffers[id].handle;
      TouchBuffer(id, now);
    }

    method GetStatus(id: int) returns (status: Status)
      ensures status == StatusOf(State(), id)
    {
      if id !in buffers {
        return NotFound;
      }
      status := match buffers[id].decode case Failed => HasFailed case Ready => IsReady case Loading => StillLoading;
    }

    method FinishDecode(id: int, bytes: nat, now: int)
      requires id in buffers
      modifies this`buffers, this`lru, this`used
      ensures State() == DecodeDone(old(State()), id, bytes, now)
    {
      buffers := buffers[id := buffers[id].(decode := Ready, bytes := bytes, lastAccess := now)];
      used := used + bytes;
      EvictLru();
    }

    method FailDecode(id: int, now: int)
      requires id in buffers
      modifies this`buffers
      ensures State() == DecodeFail(old(State()), id, now)
    {
      buffers := buffers[id := buffers[id].(decode := Failed, bytes := 0, lastAccess := now)];
    }
  }

  class Pipeline {
    const lib: Library
    const cache: BufferCache
    const players: array<Player>

    constructor (lib: Library, limit: nat)
      ensures this.lib == lib && fresh(cache) && fresh(players) && State() == Start(limit)
    {
      this.lib := lib;
      cache := new BufferCache(limit);
      players := new Player[MAX_AUDIO_PLAYERS](_ => IDLE_PLAYER);
      new;
      assert players[..] == Start(limit).players;
    }

    ghost function State(): World
      reads this, cache, players
    {
      World(cache.State(), players[..])
    }

    /** The cache and player `i` are what `r` says; the other players are as before. */
    twostate predicate Did(i: nat, r: Outcome<(Cache, Player)>)
      requires i < players.Length
      reads cache, players
    {
      r == Ok((cache.State(), players[i])) && players[..] == old(players[..])[i := players[i]]
    }

    method PreloadNextTrack(i: nat, currentId: int, now: int)
      requires i < players.Length
      requires Preload(lib, cache.State(), players[i], currentId, now).Ok?
      modifies cache, players
      ensures Did(i, Preload(lib, old(cache.State()), old(players[i]), currentId, now))
    {
      hide Load;
      if players[i].endMode == Repeat {
        return;
      }
      var nextId := NextTrack(lib, currentId);
      if nextId <= 0 {
        return;
      }
      players[i] := players[i].(next := nextId);
      var _ := cache.LoadTrack(nextId, nextId in lib.loadable, true, now);
      var status := cache.LockTrack(nextId);
      if status != IsReady {
        return;
      }
      var handle := cache.GetLockedBuffer(nextId, now);
      if handle != 0 {
        players[i] := players[i].(nextBuffer := handle);
      }
    }

    method TryAttachNextBuffer(i: nat, now: int)
      requires i < players.Length
      requires TryAttachNext(cache.State(), players[i], now).Ok?
      modifies cache, players
      ensures Did(i, TryAttachNext(old(cache.State()), old(players[i]), now))
    {
      if players[i].next <= 0 || players[i].nextBuffer != 0 {
        return;
      }
      var status := cache.GetStatus(players[i].next);
      if status != IsReady {
        return;
      }
      var handle := cache.GetLockedBuffer(players[i].next, now);
      if handle != 0 {
        players[i] := players[i].(nextBuffer := handle);
      }
    }

    /** Releases a track later, if it is one. */
    method ReleaseLater(id: int)
      modifies cache`pending
      ensures cache.State() == DeferOld(old(cache.State()), id)
    {
      if id > 0 {
        cache.UnlockTrackLater(id);
      }
    }

    method SetPlayerTrack(i: nat, id: int, now: int)
      requires i < players.Length
      requires SetTrack(lib, cache.State(), players[i], id, now).Ok?
      modifies cache, players
      ensures Did(i, SetTrack(lib, old(cache.State()), old(players[i]), id, now))
    {
      hide Preload, DeferOld, Lock, GetLocked, UnlockNow;
      if id <= 0 || !players[i].active {
        return;
      }
      ghost var c0 := cache.State();
      var oldCurrent, oldNext := players[i].current, players[i].next;
      players[i] := players[i].(buffer := 0, nextBuffer := 0, pendingTrack := 0);
      ReleaseLater(oldCurrent);
      ReleaseLater(oldNext);
      players[i] := players[i].(current := id, next := 0);
      DeferKeepsTable(c0, oldCurrent, oldNext);
      ghost var c1 := cache.State();
      LockGives(c1, id);
      var status := cache.LockTrack(id);
      LockedOps(cache.State(), id, now);
      if status == HasFailed {
        cache.UnlockTrackNow(id);
        players[i] := players[i].(current := 0);
        return;
      }
      if status == IsReady {
        var handle := cache.GetLockedBuffer(id, now);
        if handle == 0 {
          LockedOps(cache.State(), id, now);
          cache.UnlockTrackNow(id);
          return;
        }
        players[i] := players[i].(buffer := handle);
        PreloadNextTrack(i, id, now);
      } else {
        players[i] := players[i].(pendingTrack := id);
        PreloadNextTrack(i, id, now);
      }
    }

    method PollPendingBuffer(i: nat, now: int)
      requires i < players.Length
      requires PollPending(cache.State(), players[i], now).Ok?
      modifies cache, players
      ensures Did(i, PollPending(old(cache.State()), old(players[i]), now))
    {
      var pendingId := players[i].pendingTrack;
      if pendingId <= 0 {
        return;
      }
      var status := cache.GetStatus(pendingId);
      if status == HasFailed {
        players[i] := players[i].(pendingTrack := 0, current := 0);
        cache.UnlockTrackNow(pendingId);
        return;
      }
      if status != IsReady {
        return;
      }
      var handle := cache.GetLockedBuffer(pendingId, now);
      if handle == 0 {
        return;
      }
      players[i] := players[i].(buffer := handle, pendingTrack := 0);
    }

    method HandlePendingAdvance(i: nat, now: int, ghost r: Outcome<(Cache, Player)>)
      requires i < players.Length
      requires r.Ok? && r == HandleAdvance(lib, cache.State(), players[i], now)
      modifies cache, players
      ensures Did(i, r)
    {
      hide Preload, SetTrack, DeferOld, Load;
      if !players[i].advancePending {
        return;
      }
      var oldTrack := players[i].advanceOld;
      players[i] := players[i].(advancePending := false, advanceOld := 0);
      if oldTrack == 0 && players[i].buffer == 0 {
        var nextId := players[i].next;
        if nextId > 0 {
          var _ := cache.LoadTrack(nextId, nextId in lib.loadable, true, now);
          SetPlayerTrack(i, nextId, now);
        }
        return;
      }
      ReleaseLater(oldTrack);
      PreloadNextTrack(i, players[i].current, now);
    }

    /** One player's turn of the timer. */
    method TickPlayer(i: nat, now: int, ghost r: Outcome<(Cache, Player)>)
      requires i < players.Length
      requires r.Ok? && r == AudioPlayers.TickPlayer(lib, cache.State(), players[i], now)
      modifies cache, players
      ensures Did(i, r)
    {
      hide PollPending, TryAttachNext, HandleAdvance, AudioPlayers.TickPlayer, BufferCache.State;
      ghost var c, p, before := cache.State(), players[i], players[..];
      TickParts(lib, c, p, now);
      PollPendingBuffer(i, now);
      assert players[..] == before[i := players[i]];
      TryAttachNextBuffer(i, now);
      assert players[..] == before[i := players[i]];
      HandlePendingAdvance(i, now, r);
      assert players[..] == before[i := players[i]];
    }

    /** The 50 ms timer: every player in turn polls its pending decode, attaches a ready next buffer and
        finishes a flagged advance. */
    method ProcessPendingAdvances(now: int)
      requires NextLoads(lib) && Inv(lib, State()) && NoneDestroyed(players[..])
      modifies cache, players
      ensures Inv(lib, State()) && NoneDestroyed(players[..])
      ensures TickFrom(lib, old(State()), 0, now) == Ok(State())
    {
      hide Inv, AudioPlayers.TickPlayer;
      for i := 0 to players.Length
        invariant Inv(lib, State()) && NoneDestroyed(players[..])
        invariant TickFrom(lib, old(State()), 0, now) == TickFrom(lib, State(), i, now)
      {
        ghost var w := State();
        StepSafe(lib, w, Tick(i), now);
        TickStays(lib, w, i, now);
        TickPlayer(i, now, AudioPlayers.TickPlayer(lib, w.cache, w.players[i], now));
        assert Step(lib, w, Tick(i), now) == Ok(State());
      }
    }

    /** The real-time thread's end-of-track policy for a player whose buffer ran out. */
    method OnTrackEnd(i: nat)
      requires i < players.Length && players[i].buffer != 0
      modifies players
      ensures players[..] == old(players[..])[i := TrackEnd(old(players[i]))]
    {
      var p := players[i];
      if p.endMode == Repeat {
        return;
      }
      if p.nextBuffer != 0 {
        players[i] := p.(buffer := p.nextBuffer, nextBuffer := 0, current := p.next, next := 0,
                         advanceOld := p.current, advancePending := true);
        return;
      }
      if p.next > 0 {
        players[i] := p.(buffer := 0, advancePending := true);
      }
    }
  }

  lemma LockGives(c: Cache, id: int)
    requires id in c.buffers
    ensures Lock(c, id).Ok?
    ensures var c2 := Lock(c, id).value.0; id in c2.buffers && c2.buffers[id].locks > 0
    ensures var c2 := Lock(c, id).value.0;
            forall now :: GetLocked(c2, id, now).Ok? ==>
              id in GetLocked(c2, id, now).value.0.buffers && GetLocked(c2, id, now).value.0.buffers[id].locks > 0
  {
  }

  lemma LockedOps(c: Cache, id: int, now: int)
    requires id in c.buffers && c.buffers[id].locks > 0
    ensures GetLocked(c, id, now).Ok? && UnlockNow(c, id).Ok?
  {
  }

  lemma DeferKeepsTable(c: Cache, a: int, b: int)
    ensures DeferOld(DeferOld(c, a), b).buffers == c.buffers
  {
  }

  lemma TickParts(lib: Library, c: Cache, p: Player, now: int)
    requires TickPlayer(lib, c, p, now).Ok?
    ensures PollPending(c, p, now).Ok?
    ensures var (c1, p1) := PollPending(c, p, now).value; TryAttachNext(c1, p1, now).Ok?
    ensures var (c1, p1) := PollPending(c, p, now).value;
            var (c2, p2) := TryAttachNext(c1, p1, now).value;
            TickPlayer(lib, c, p, now) == HandleAdvance(lib, c2, p2, now)
  {
    hide PollPending, TryAttachNext, HandleAdvance;
  }

  /** The timer is removed before the first player is destroyed. */
  predicate NoneDestroyed(players: seq<Player>) {
    forall i | 0 <= i < |players| :: !players[i].destroyed
  }

  lemma TickStays(lib: Library, w: World, i: nat, now: int)
    requires NextLoads(lib) && Inv(lib, w) && i < |w.players| && NoneDestroyed(w.players)
    ensures Step(lib, w, Tick(i), now).Ok? && NoneDestroyed(Step(lib, w, Tick(i), now).value.players)
  {
    hide Inv, One, TickPlayer;
    Focus(lib, w, i);
    TickFine(lib, w.cache, w.players[i], w.players[..i] + w.players[i + 1..], now);
  }

  /** The timer's turns for the players from `i` on. */
  function TickFrom(lib: Library, w: World, i: nat, now: int): Outcome<World>
    requires i <= |w.players|
    decreases |w.players| - i
  {
    if i == |w.players| || w.players[i].destroyed then Ok(w)
    else
      var w1 :- Step(lib, w, Tick(i), now);
      TickFrom(lib, w1, i + 1, now)
  }
}
