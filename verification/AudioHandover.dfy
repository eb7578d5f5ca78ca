// What the players' entry points do for playback: which track sounds after a track is set, after its decode ends,
// and after the end of the one before it.

module AudioHandover {
  import opened AudioCache
  import opened AudioPlayers

  /** The player renders the decoded buffer of its current track. */
  predicate Sounds(c: Cache, p: Player, id: int) {
    id > 0 && p.current == id && p.buffer != 0 && Live(c, id, p.buffer) && p.pendingTrack == 0
  }

  /** The player waits, silent, for its current track. */
  predicate Waits(p: Player, id: int) {
    p.current == id && p.buffer == 0 && p.pendingTrack == id
  }

  predicate Idle(p: Player) {
    p.current == 0 && p.buffer == 0 && p.pendingTrack == 0
  }

  /** What a preload after track `current` is to find, unless the player repeats. */
  function Follower(lib: Library, p: Player, current: int): int {
    if p.endMode == Repeat then 0 else NextTrack(lib, current)
  }

  // ---- Preloading ----

  /** Only the next track, its buffer and the cache changed: the next track is the album's, and its buffer is attached
      exactly if it is decoded already. */
  ghost predicate Preloaded(lib: Library, c: Cache, p: Player, c2: Cache, p2: Player, current: int) {
    var n := Follower(lib, p, current);
    if n == 0 then c2 == c && p2 == p
    else
      && p2 == p.(next := n, nextBuffer := p2.nextBuffer)
      && n in c2.buffers && c2.pending == c.pending
      && (if StatusOf(c, n) == IsReady then p2.nextBuffer != 0 && Live(c2, n, p2.nextBuffer)
          else p2.nextBuffer == p.nextBuffer)
  }

  lemma LoadStatus(c: Cache, id: int, resolved: bool, now: int)
    requires WellFormed(c) && id > 0
    ensures var c2 := Load(c, id, resolved, true, now).0;
            && c2.pending == c.pending && (StatusOf(c2, id) == IsReady <==> StatusOf(c, id) == IsReady)
            && (StatusOf(c, id) == StillLoading ==> StatusOf(c2, id) == StillLoading)
            && (StatusOf(c2, id) == HasFailed <==> StatusOf(c, id) == HasFailed && Locks(c, id) > 0)
  {
  }

  lemma PreloadIs(lib: Library, c: Cache, p: Player, rest: seq<Player>, current: int, now: int)
    requires NextLoads(lib) && WellFormed(c)
    ensures Preload(lib, c, p, current, now).Ok?
    ensures var (c2, p2) := Preload(lib, c, p, current, now).value; Preloaded(lib, c, p, c2, p2, current)
  {
    hide WellFormed, Load, Lock, GetLocked, StatusOf, Locks, Keeps;
    var n := Follower(lib, p, current);
    if n != 0 {
      LoadKeeps(c, n, n in lib.loadable, true, now);
      LoadStatus(c, n, n in lib.loadable, now);
      var c1 := Load(c, n, n in lib.loadable, true, now).0;
      LockIs(c1, n);
      var c2 := Lock(c1, n).value.0;
      if StatusOf(c1, n) == IsReady {
        GetIs(c2, n, now);
      }
    }
  }

  lemma LockIs(c: Cache, id: int)
    requires WellFormed(c) && id in c.buffers
    ensures Lock(c, id).Ok? && Lock(c, id).value.1 == StatusOf(c, id)
    ensures var c2 := Lock(c, id).value.0;
            && WellFormed(c2) && c2.pending == c.pending && Locks(c2, id) > 0 && id in c2.buffers
            && StatusOf(c2, id) == StatusOf(c, id)
  {
    LockKeeps(c, id);
  }

  lemma GetIs(c: Cache, id: int, now: int)
    requires WellFormed(c) && Locks(c, id) > 0
    ensures GetLocked(c, id, now).Ok?
    ensures var (c2, h) := GetLocked(c, id, now).value;
            && WellFormed(c2) && c2.pending == c.pending && id in c2.buffers && c2.buffers.Keys == c.buffers.Keys
            && (forall k :: StatusOf(c2, k) == StatusOf(c, k))
            && (if StatusOf(c, id) == IsReady then h != 0 && Live(c2, id, h) else h == 0 && c2 == c)
  {
    GetLockedKeeps(c, id, now);
  }

  // ---- Setting a track ----

  /** Setting a cached track: both old tracks are released later and nothing of them sounds any more; a decoded track
      sounds at once, an undecoded one is waited for, a failed one leaves the player idle; and the follower is
      preloaded, except after a failure. */
  lemma SetTrackIs(lib: Library, c: Cache, p: Player, rest: seq<Player>, id: int, now: int)
    requires NextLoads(lib) && One(lib, c, p, rest) && !p.destroyed && id > 0 && p.active && id in c.buffers
    ensures SetTrack(lib, c, p, id, now).Ok?
    ensures var (c2, p2) := SetTrack(lib, c, p, id, now).value;
            && (StatusOf(c, id) == IsReady ==> Sounds(c2, p2, id))
            && (StatusOf(c, id) == StillLoading ==> Waits(p2, id))
            && (StatusOf(c, id) == HasFailed ==> Idle(p2) && p2.next == 0)
            && (StatusOf(c, id) != HasFailed ==> p2.next == Follower(lib, p, id))
            && (p2.nextBuffer != 0 ==> Live(c2, p2.next, p2.nextBuffer))
            && (p2.next > 0 && p2.next != id && StatusOf(c, p2.next) == IsReady ==> p2.nextBuffer != 0)
            && (forall k :: k in c2.pending <==>
                  k in c.pending || (k > 0 && (k == p.current || k == p.next)))
            && p2 == p.(current := p2.current, next := p2.next, buffer := p2.buffer, nextBuffer := p2.nextBuffer,
                        pendingTrack := p2.pendingTrack)
  {
    SetTrackFine(lib, c, p, rest, id, now);
    SwitchFine(lib, c, p, rest, id);
    SwitchStatus(c, p, id);
    hide WellFormed, Load, Lock, UnlockNow, GetLocked, Preload, DeferOld, Keeps, StaysLive, StatusOf, Locks, Held,
      HeldBy,
      Live;
    var c1 := DeferOld(DeferOld(c, p.current), p.next);
    LockIs(c1, id);
    var (c2, status) := Lock(c1, id).value;
    var p1 := Switched(p, id);
    if status == HasFailed {
      UnlockPending(c2, id);
    } else if status == IsReady {
      GetIs(c2, id, now);
      var (c3, h) := GetLocked(c2, id, now).value;
      PreloadIs(lib, c3, p1.(buffer := h), rest, id, now);
    } else {
      PreloadIs(lib, c2, p1.(pendingTrack := id), rest, id, now);
    }
  }

  lemma UnlockPending(c: Cache, id: int)
    ensures UnlockNow(c, id).Ok? ==> UnlockNow(c, id).value.pending == c.pending
  {
  }

  /** Releasing the old tracks and locking the new one leave every status alone. */
  lemma SwitchStatus(c: Cache, p: Player, id: int)
    requires WellFormed(c) && id in c.buffers
    ensures var c1 := DeferOld(DeferOld(c, p.current), p.next);
            && WellFormed(c1) && id in c1.buffers && Lock(c1, id).Ok?
            && (forall k :: k in c1.pending <==> k in c.pending || (k > 0 && (k == p.current || k == p.next)))
            && (forall k :: StatusOf(c1, k) == StatusOf(c, k))
            && (forall k :: StatusOf(Lock(c1, id).value.0, k) == StatusOf(c, k))
  {
    hide WellFormed, DeferOld, StatusOf, Lock;
    DeferStatus(c, p.current);
    DeferStatus(DeferOld(c, p.current), p.next);
    LockStatus(DeferOld(DeferOld(c, p.current), p.next), id);
  }

  lemma LockStatus(c: Cache, id: int)
    requires id in c.buffers
    ensures Lock(c, id).Ok? && forall k :: StatusOf(Lock(c, id).value.0, k) == StatusOf(c, k)
  {
  }

  // ---- The timer ----

  /** The poll of a decode the player waits for: a decoded track sounds from now on, a failed one leaves the player idle
      and its lock is dropped, an undecoded one changes nothing. */
  lemma PollIs(lib: Library, c: Cache, p: Player, rest: seq<Player>, now: int)
    requires One(lib, c, p, rest) && !p.destroyed && p.pendingTrack > 0
    ensures PollPending(c, p, now).Ok?
    ensures var (c2, p2) := PollPending(c, p, now).value;
            match StatusOf(c, p.pendingTrack)
            case IsReady => Sounds(c2, p2, p.pendingTrack) && p2 == p.(buffer := p2.buffer, pendingTrack := 0)
            case HasFailed =>
              && Idle(p2) && p2 == p.(pendingTrack := 0, current := 0)
              && Locks(c2, p.pendingTrack) == Locks(c, p.pendingTrack) - 1
            case StillLoading => p2 == p && c2 == c
            case NotFound => false
  {
    HeldRefs(p);
    hide UnlockNow, GetLocked, WellFormed;
    assert Locks(c, p.pendingTrack) > 0;
    UnlockKeeps(c, p.pendingTrack);
    GetIs(c, p.pendingTrack, now);
  }

  /** A next track that is decoded gets its buffer attached; otherwise nothing changes. */
  lemma AttachIs(lib: Library, c: Cache, p: Player, rest: seq<Player>, now: int)
    requires One(lib, c, p, rest) && !p.destroyed
    ensures TryAttachNext(c, p, now).Ok?
    ensures var (c2, p2) := TryAttachNext(c, p, now).value;
            && p2 == p.(nextBuffer := p2.nextBuffer) && c2.pending == c.pending
            && (forall k :: StatusOf(c2, k) == StatusOf(c, k))
            && (p.next > 0 && StatusOf(c, p.next) == IsReady ==>
                  p2.nextBuffer != 0 && Live(c2, p.next, p2.nextBuffer))
            && (p.next <= 0 || StatusOf(c, p.next) != IsReady ==> p2 == p && c2 == c)
  {
    HeldRefs(p);
    hide GetLocked, WellFormed;
    if p.next > 0 {
      assert Locks(c, p.next) > 0;
      GetIs(c, p.next, now);
    }
  }

  /** An advance whose next buffer was ready, or a stale flag on a player that sounds: the flag is cleared, the old
      track is released later, the current track goes on and its follower is preloaded. */
  lemma InstantIs(lib: Library, c: Cache, p: Player, rest: seq<Player>, now: int)
    requires NextLoads(lib) && One(lib, c, p, rest) && !p.destroyed
    requires p.advancePending && (p.advanceOld != 0 || p.buffer != 0)
    ensures HandleAdvance(lib, c, p, now).Ok?
    ensures var (c2, p2) := HandleAdvance(lib, c, p, now).value;
            && p2 == p.(advancePending := false, advanceOld := 0, next := p2.next, nextBuffer := p2.nextBuffer)
            && p2.next == (if Follower(lib, p, p.current) == 0 then p.next else Follower(lib, p, p.current))
            && (StatusOf(c, p2.next) == IsReady && Follower(lib, p, p.current) > 0 ==>
                  p2.nextBuffer != 0 && Live(c2, p2.next, p2.nextBuffer))
            && (p.advanceOld > 0 ==> p.advanceOld in c2.pending)
            && (p.buffer != 0 ==> Live(c2, p.current, p.buffer))
  {
    AdvanceFine(lib, c, p, rest, now);
    DeferStatus(c, p.advanceOld);
    hide WellFormed, Preload, DeferOld, StatusOf, Locks, Held, HeldBy, StaysLive;
    PreloadIs(lib, DeferOld(c, p.advanceOld), p.(advancePending := false, advanceOld := 0), rest, p.current, now);
  }

  lemma DeferStatus(c: Cache, id: int)
    requires WellFormed(c)
    ensures WellFormed(DeferOld(c, id)) && DeferOld(c, id).buffers == c.buffers
    ensures forall k :: k in DeferOld(c, id).pending <==> k in c.pending || (id > 0 && k == id)
    ensures forall k :: StatusOf(DeferOld(c, id), k) == StatusOf(c, k)
  {
    DeferKeeps(c, id);
  }

  /** An advance whose next buffer was not ready: the next track is loaded and set. */
  lemma DeferredIs(lib: Library, c: Cache, p: Player, rest: seq<Player>, now: int)
    requires NextLoads(lib) && One(lib, c, p, rest) && !p.destroyed && p.active
    requires p.advancePending && p.advanceOld == 0 && p.buffer == 0 && p.next > 0
    ensures HandleAdvance(lib, c, p, now).Ok?
    ensures var (c2, p2) := HandleAdvance(lib, c, p, now).value;
            && !p2.advancePending && p2.advanceOld == 0
            && (StatusOf(c, p.next) == IsReady ==> Sounds(c2, p2, p.next))
            && (StatusOf(c, p.next) == StillLoading ==> Waits(p2, p.next))
            && (StatusOf(c, p.next) == HasFailed ==> Idle(p2))
            && (StatusOf(c, p.next) != HasFailed ==> p2.next == Follower(lib, p, p.next))
            && (p.current > 0 ==> p.current in c2.pending)
  {
    hide WellFormed, Load, SetTrack, Held, StaysLive, Live, StatusOf;
    var p1 := p.(advancePending := false, advanceOld := 0);
    assert One(lib, c, p1, rest) by { OneFlags(lib, c, p, p1, rest); }
    HeldRefs(p1);
    assert Locks(c, p.next) > 0;
    LoadOne(lib, c, p1, rest, p.next, p.next in lib.loadable, now);
    LoadStatus(c, p.next, p.next in lib.loadable, now);
    HeldIsKnown(c, p.next);
    SetTrackIs(lib, Load(c, p.next, p.next in lib.loadable, true, now).0, p1, rest, p.next, now);
  }

  lemma HeldIsKnown(c: Cache, id: int)
    requires Locks(c, id) > 0
    ensures StatusOf(c, id) != NotFound
  {
  }

  // ---- Whole turns ----

  /** A track that was waited for and is decoded sounds after the next timer turn, whatever else is flagged. */
  lemma DecodedTrackSounds(lib: Library, w: World, i: nat, now: int)
    requires NextLoads(lib) && Inv(lib, w) && Exists(w, i)
    requires w.players[i].pendingTrack > 0 && StatusOf(w.cache, w.players[i].pendingTrack) == IsReady
    ensures Step(lib, w, Tick(i), now).Ok?
    ensures var v := Step(lib, w, Tick(i), now).value; Sounds(v.cache, v.players[i], w.players[i].pendingTrack)
  {
    hide Inv, One, TickPlayer, StatusOf;
    Focus(lib, w, i);
    DecodedTurn(lib, w.cache, w.players[i], w.players[..i] + w.players[i + 1..], now);
  }

  lemma DecodedTurn(lib: Library, c: Cache, p: Player, rest: seq<Player>, now: int)
    requires NextLoads(lib) && One(lib, c, p, rest) && !p.destroyed
    requires p.pendingTrack > 0 && StatusOf(c, p.pendingTrack) == IsReady
    ensures TickPlayer(lib, c, p, now).Ok?
    ensures var (c2, p2) := TickPlayer(lib, c, p, now).value; Sounds(c2, p2, p.pendingTrack)
  {
    hide One, PollPending, TryAttachNext, HandleAdvance, StatusOf, StaysLive;
    TickFine(lib, c, p, rest, now);
    PollFine(lib, c, p, rest, now);
    PollIs(lib, c, p, rest, now);
    var (c1, p1) := PollPending(c, p, now).value;
    AttachFine(lib, c1, p1, rest, now);
    AttachIs(lib, c1, p1, rest, now);
    var (c2, p2) := TryAttachNext(c1, p1, now).value;
    if p2.advancePending {
      InstantIs(lib, c2, p2, rest, now);
    } else {
      NoAdvance(lib, c2, p2, now);
      StillLive(lib, c2, p2, rest);
    }
  }

  /** Without a flag nothing happens; a flag on a silent player without a next track is only cleared. */
  lemma NoAdvance(lib: Library, c: Cache, p: Player, now: int)
    requires !p.advancePending || (p.advanceOld == 0 && p.buffer == 0 && p.next <= 0)
    ensures HandleAdvance(lib, c, p, now) == Ok((c, p.(advancePending := false, advanceOld := p.advanceOld)))
  {
  }

  lemma StillLive(lib: Library, c: Cache, p: Player, rest: seq<Player>)
    requires One(lib, c, p, rest) && !p.destroyed && p.buffer != 0
    ensures p.current > 0 && Live(c, p.current, p.buffer)
  {
  }

  /** A track that was waited for and failed leaves the player idle after the next turn, unless a deferred advance moves
      it on. */
  lemma FailedTrackIdles(lib: Library, w: World, i: nat, now: int)
    requires NextLoads(lib) && Inv(lib, w) && Exists(w, i)
    requires w.players[i].pendingTrack > 0 && StatusOf(w.cache, w.players[i].pendingTrack) == HasFailed
    requires var p := w.players[i]; !(p.advancePending && p.advanceOld == 0 && p.next > 0)
    ensures Step(lib, w, Tick(i), now).Ok?
    ensures Idle(Step(lib, w, Tick(i), now).value.players[i])
  {
    hide Inv, One, TickPlayer, StatusOf;
    Focus(lib, w, i);
    FailedTurn(lib, w.cache, w.players[i], w.players[..i] + w.players[i + 1..], now);
  }

  lemma FailedTurn(lib: Library, c: Cache, p: Player, rest: seq<Player>, now: int)
    requires NextLoads(lib) && One(lib, c, p, rest) && !p.destroyed
    requires p.pendingTrack > 0 && StatusOf(c, p.pendingTrack) == HasFailed
    requires !(p.advancePending && p.advanceOld == 0 && p.next > 0)
    ensures TickPlayer(lib, c, p, now).Ok? && Idle(TickPlayer(lib, c, p, now).value.1)
  {
    hide One, PollPending, TryAttachNext, StatusOf, StaysLive, Preload, SetTrack, DeferOld;
    TickFine(lib, c, p, rest, now);
    PollFine(lib, c, p, rest, now);
    PollIs(lib, c, p, rest, now);
    var (c1, p1) := PollPending(c, p, now).value;
    AttachFine(lib, c1, p1, rest, now);
    AttachIs(lib, c1, p1, rest, now);
    var (c2, p2) := TryAttachNext(c1, p1, now).value;
    if p2.advancePending && p2.advanceOld != 0 {
      InstantIs(lib, c2, p2, rest, now);
    }
  }

  /** Gapless playback: at the end of a track whose follower is attached, the follower sounds at once and goes on
      sounding after the next timer turn, which releases the old track later and preloads the one after. */
  lemma GaplessHandover(lib: Library, w: World, i: nat, now: int)
    requires NextLoads(lib) && Inv(lib, w) && Exists(w, i)
    requires var p := w.players[i]; p.buffer != 0 && p.nextBuffer != 0 && p.endMode != Repeat
    ensures Step(lib, w, EndOfTrack(i), now).Ok?
    ensures var v := Step(lib, w, EndOfTrack(i), now).value;
            && v.cache == w.cache && Sounds(v.cache, v.players[i], w.players[i].next)
            && v.players[i].buffer == w.players[i].nextBuffer
            && Step(lib, v, Tick(i), now).Ok?
            && var u := Step(lib, v, Tick(i), now).value;
               && Sounds(u.cache, u.players[i], w.players[i].next)
               && u.players[i].buffer == w.players[i].nextBuffer && !u.players[i].advancePending
               && w.players[i].current in u.cache.pending
               && u.players[i].next == NextTrack(lib, w.players[i].next)
  {
    hide Inv, One, TickPlayer, StatusOf;
    Focus(lib, w, i);
    var p, rest := w.players[i], w.players[..i] + w.players[i + 1..];
    PlayingRefs(lib, w.cache, p, rest);
    TrackEndFine(lib, w.cache, p, rest);
    HandoverTurn(lib, w.cache, TrackEnd(p), rest, now);
  }

  /** A player that renders waits for nothing. */
  lemma PlayingRefs(lib: Library, c: Cache, p: Player, rest: seq<Player>)
    requires One(lib, c, p, rest) && !p.destroyed && p.buffer != 0
    ensures p.pendingTrack == 0 && p.current > 0
    ensures p.nextBuffer != 0 ==> p.next > 0 && Live(c, p.next, p.nextBuffer)
  {
  }

  lemma HandoverTurn(lib: Library, c: Cache, p: Player, rest: seq<Player>, now: int)
    requires NextLoads(lib) && One(lib, c, p, rest) && !p.destroyed && p.pendingTrack == 0 && p.buffer != 0
    requires p.advancePending && p.advanceOld > 0 && p.next == 0 && p.endMode != Repeat
    ensures TickPlayer(lib, c, p, now).Ok?
    ensures var (c2, p2) := TickPlayer(lib, c, p, now).value;
            && Sounds(c2, p2, p.current) && p2.buffer == p.buffer && !p2.advancePending
            && p.advanceOld in c2.pending && p2.next == NextTrack(lib, p.current)
  {
    StillLive(lib, c, p, rest);
    hide One, TryAttachNext, HandleAdvance, StatusOf, StaysLive, Live;
    AttachFine(lib, c, p, rest, now);
    AttachIs(lib, c, p, rest, now);
    var (c2, p2) := TryAttachNext(c, p, now).value;
    InstantIs(lib, c2, p2, rest, now);
  }

  /** At the end of a track whose follower is not attached the player falls silent; in the next timer turn the follower
      sounds if it has been decoded by then, and is waited for otherwise, unless its decode failed. */
  lemma DeferredHandover(lib: Library, w: World, i: nat, now: int)
    requires NextLoads(lib) && Inv(lib, w) && Exists(w, i)
    requires var p := w.players[i]; p.active && p.buffer == 0 && p.pendingTrack == 0 && p.next > 0
    requires w.players[i].advancePending && w.players[i].advanceOld == 0
    ensures Step(lib, w, Tick(i), now).Ok?
    ensures var p, v := w.players[i], Step(lib, w, Tick(i), now).value;
            && (StatusOf(w.cache, p.next) == IsReady ==> Sounds(v.cache, v.players[i], p.next))
            && (StatusOf(w.cache, p.next) == StillLoading ==> Waits(v.players[i], p.next))
            && (StatusOf(w.cache, p.next) == HasFailed ==> Idle(v.players[i]))
            && !v.players[i].advancePending && (p.current > 0 ==> p.current in v.cache.pending)
  {
    hide Inv, One, TickPlayer, StatusOf;
    Focus(lib, w, i);
    DeferredTurn(lib, w.cache, w.players[i], w.players[..i] + w.players[i + 1..], now);
  }

  lemma DeferredTurn(lib: Library, c: Cache, p: Player, rest: seq<Player>, now: int)
    requires NextLoads(lib) && One(lib, c, p, rest) && !p.destroyed && p.active && p.pendingTrack == 0 && p.buffer == 0
    requires p.advancePending && p.advanceOld == 0 && p.next > 0
    ensures TickPlayer(lib, c, p, now).Ok?
    ensures var (c2, p2) := TickPlayer(lib, c, p, now).value;
            && (StatusOf(c, p.next) == IsReady ==> Sounds(c2, p2, p.next))
            && (StatusOf(c, p.next) == StillLoading ==> Waits(p2, p.next))
            && (StatusOf(c, p.next) == HasFailed ==> Idle(p2))
            && !p2.advancePending && (p.current > 0 ==> p.current in c2.pending)
  {
    hide One, TryAttachNext, HandleAdvance, StatusOf, StaysLive, Live;
    AttachFine(lib, c, p, rest, now);
    AttachIs(lib, c, p, rest, now);
    var (c2, p2) := TryAttachNext(c, p, now).value;
    DeferredIs(lib, c2, p2, rest, now);
  }

  /** What the end of a track leaves: with the follower attached it sounds; with one that is only known, silence and a
      flagged advance; without one, or on repeat, nothing changes. */
  lemma EndOfTrackIs(lib: Library, w: World, i: nat, now: int)
    requires Inv(lib, w) && Exists(w, i) && w.players[i].buffer != 0
    ensures Step(lib, w, EndOfTrack(i), now).Ok?
    ensures var p, q := w.players[i], Step(lib, w, EndOfTrack(i), now).value.players[i];
            && (p.endMode == Repeat || p.next == 0 ==> q == p)
            && (p.endMode != Repeat && p.next > 0 && p.nextBuffer == 0 ==>
                  q.buffer == 0 && q.advancePending && q == p.(buffer := 0, advancePending := true))
            && (p.endMode != Repeat && p.nextBuffer != 0 ==>
                  && q.buffer == p.nextBuffer && q.current == p.next && q.next == 0 && q.nextBuffer == 0
                  && q.advancePending && q.advanceOld == p.current)
  {
    hide Inv, One;
    Focus(lib, w, i);
    PlayingRefs(lib, w.cache, w.players[i], w.players[..i] + w.players[i + 1..]);
    NextRefs(lib, w.cache, w.players[i], w.players[..i] + w.players[i + 1..]);
  }

  lemma NextRefs(lib: Library, c: Cache, p: Player, rest: seq<Player>)
    requires One(lib, c, p, rest) && !p.destroyed
    ensures p.next >= 0 && (p.next == 0 ==> p.nextBuffer == 0)
  {
  }

  /** At most player `i` changed. */
  ghost predicate OnlyPlayer(w: World, v: World, i: nat) {
    |v.players| == |w.players| && forall k | 0 <= k < |w.players| && k != i :: v.players[k] == w.players[k]
  }

  /** Which event touches what: a player's own events no other player; its mode, streams and end of track no cache;
      loads, decodes, the sweep and unlock timers no player. */
  lemma EventsTouch(lib: Library, w: World, e: Event, now: int)
    requires Enabled(w, e) && Step(lib, w, e, now).Ok?
    ensures var v := Step(lib, w, e, now).value;
            match e
            case EndModeSet(i, mode) =>
              OnlyPlayer(w, v, i) && v.cache == w.cache && v.players[i] == w.players[i].(endMode := mode)
            case StreamsSet(i, active) =>
              OnlyPlayer(w, v, i) && v.cache == w.cache && v.players[i] == w.players[i].(active := active)
            case EndOfTrack(i) => OnlyPlayer(w, v, i) && v.cache == w.cache
            case SetTrackOn(i, _) => OnlyPlayer(w, v, i)
            case Tick(i) => OnlyPlayer(w, v, i)
            case Destroyed(i) => OnlyPlayer(w, v, i)
            case _ => v.players == w.players
  {
    hide SetTrack, TickPlayer, TrackEnd, DestroyPlayer, Load, DecodeDone, DecodeFail, Sweep, FireUnlock;
  }
}
