// Locks beyond the players' references: which steps leave one behind, and that no other does.

module AudioSurplus {
  import opened AudioCache
  import opened AudioPlayers

  /** Locks of `id` that no scheduled unlock will drop. */
  function Free(c: Cache, id: int): int {
    Locks(c, id) - B(id in c.pending)
  }

  /** Locks of `id` behind which stand neither a player's reference nor a scheduled unlock. */
  function Surplus(w: World, id: int): int {
    Free(w.cache, id) - Held(w.players, id)
  }

  // ---- What each operation leaves behind, by track ----

  /** A second deferred unlock of a track replaces the first, and one lock stays. */
  function DeferExtra(c: Cache, x: int, id: int): nat {
    B(x > 0 && x in c.pending && id == x)
  }

  /** A preload forgets the next track it replaces without unlocking it. */
  function PreloadExtra(lib: Library, p: Player, id: int): nat {
    B(p.endMode != Repeat && NextTrack(lib, p.current) > 0 && p.next > 0 && id == p.next)
  }

  function SetTrackExtra(c: Cache, p: Player, id: int): nat {
    DeferExtra(c, p.current, id) + DeferExtra(DeferOld(c, p.current), p.next, id)
  }

  function AdvanceExtra(lib: Library, c: Cache, p: Player, id: int): nat {
    if !p.advancePending then 0
    else if p.advanceOld == 0 && p.buffer == 0 then
      if p.next > 0 && p.active then SetTrackExtra(c, p, id) else 0
    else DeferExtra(c, p.advanceOld, id) + PreloadExtra(lib, p, id)
  }

  function TickExtra(lib: Library, c: Cache, p: Player, now: int, id: int): nat {
    match PollPending(c, p, now)
    case Abort(_) => 0
    case Ok((c1, p1)) =>
      match TryAttachNext(c1, p1, now)
      case Abort(_) => 0
      case Ok((c2, p2)) => AdvanceExtra(lib, c2, p2, id)
  }

  /** The handover forgets an old track that no timer turn has released yet. */
  function TrackEndExtra(p: Player, id: int): nat {
    B(p.endMode != Repeat && p.nextBuffer != 0 && p.advanceOld > 0 && id == p.advanceOld)
  }

  /** Shutdown does not unlock such a track either. */
  function DestroyExtra(p: Player, id: int): nat {
    B(p.advanceOld > 0 && id == p.advanceOld)
  }

  function Extra(lib: Library, w: World, e: Event, now: int, id: int): nat
    requires Enabled(w, e)
  {
    match e
    case SetTrackOn(i, track) =>
      if track > 0 && w.players[i].active then SetTrackExtra(w.cache, w.players[i], id) else 0
    case Tick(i) => TickExtra(lib, w.cache, w.players[i], now, id)
    case EndOfTrack(i) => TrackEndExtra(w.players[i], id)
    case Destroyed(i) => DestroyExtra(w.players[i], id)
    case _ => 0
  }

  // ---- One player at a time ----

  function Net(c: Cache, p: Player, id: int): int {
    Free(c, id) - HeldBy(p, id)
  }

  lemma FreeSame(c: Cache, c2: Cache)
    requires LockFree(c, c2)
    ensures forall id :: Free(c2, id) == Free(c, id)
  {
  }

  lemma FreeDefer(c: Cache, x: int)
    ensures forall id :: Free(DeferOld(c, x), id) == Free(c, id) - B(x > 0 && id == x) + DeferExtra(c, x, id)
  {
  }

  lemma PreloadNet(lib: Library, c: Cache, p: Player, rest: seq<Player>, now: int)
    requires NextLoads(lib) && One(lib, c, p, rest) && !p.destroyed
    ensures var r := Preload(lib, c, p, p.current, now);
            r.Ok? && forall id :: Net(r.value.0, r.value.1, id) == Net(c, p, id) + PreloadExtra(lib, p, id)
  {
    hide Load, GetLocked, Held, StatusOf, PlayerOk, Live, WellFormed, LockFree, Keeps;
    var n := NextTrack(lib, p.current);
    if p.endMode != Repeat && n > 0 {
      LoadKeeps(c, n, n in lib.loadable, true, now);
      var c1 := Load(c, n, n in lib.loadable, true, now).0;
      FreeSame(c, c1);
      LockFreeWell(c, c1);
      LockKeeps(c1, n);
      var c2 := Lock(c1, n).value.0;
      GetLockedKeeps(c2, n, now);
      FreeSame(c2, GetLocked(c2, n, now).value.0);
    }
  }

  lemma LockFreeWell(c: Cache, c2: Cache)
    requires LockFree(c, c2)
    ensures WellFormed(c2)
  {
  }

  lemma SwitchNet(lib: Library, c: Cache, p: Player, rest: seq<Player>, track: int)
    requires One(lib, c, p, rest) && !p.destroyed && track > 0 && track in c.buffers
    ensures var r := Lock(DeferOld(DeferOld(c, p.current), p.next), track);
            r.Ok? && forall id :: Net(r.value.0, Switched(p, track), id) == Net(c, p, id) + SetTrackExtra(c, p, id)
  {
    hide Held, PlayerOk, WellFormed, Keeps, Live;
    SwitchFine(lib, c, p, rest, track);
    var c1 := DeferOld(c, p.current);
    var c2 := DeferOld(c1, p.next);
    FreeDefer(c, p.current);
    FreeDefer(c1, p.next);
    FreeLock(c2, track);
    forall id
      ensures HeldBy(Switched(p, track), id) + B(p.current > 0 && id == p.current) + B(p.next > 0 && id == p.next)
                   == HeldBy(p, id) + B(id == track) {
    }
  }

  lemma FreeLock(c: Cache, x: int)
    requires x in c.buffers
    ensures Lock(c, x).Ok? && forall id :: Free(Lock(c, x).value.0, id) == Free(c, id) + B(id == x)
  {
  }

  lemma FreeUnlock(c: Cache, x: int)
    requires UnlockNow(c, x).Ok?
    ensures forall id :: Free(UnlockNow(c, x).value, id) == Free(c, id) - B(id == x)
  {
  }

  lemma GetFree(lib: Library, c: Cache, p: Player, rest: seq<Player>, x: int, now: int)
    requires One(lib, c, p, rest) && HeldBy(p, x) > 0
    ensures GetLocked(c, x, now).Ok? && forall id :: Free(GetLocked(c, x, now).value.0, id) == Free(c, id)
  {
    hide WellFormed, LockFree, GetLocked, PlayerOk;
    assert Locks(c, x) >= HeldBy(p, x);
    GetLockedKeeps(c, x, now);
    FreeSame(c, GetLocked(c, x, now).value.0);
  }

  lemma OneBuffer(lib: Library, c: Cache, p: Player, rest: seq<Player>, h: nat)
    requires One(lib, c, p, rest) && !p.destroyed && p.current > 0 && p.pendingTrack == 0 && Live(c, p.current, h)
    ensures One(lib, c, p.(buffer := h), rest) && forall id :: HeldBy(p.(buffer := h), id) == HeldBy(p, id)
  {
    hide WellFormed, Held, Locks, Live;
    assert forall id :: HeldBy(p.(buffer := h), id) == HeldBy(p, id);
  }

  lemma OnePending(lib: Library, c: Cache, p: Player, rest: seq<Player>, track: int)
    requires One(lib, c, p, rest) && !p.destroyed && p.current == track >= 0 && p.buffer == 0
    ensures One(lib, c, p.(pendingTrack := track), rest)
    ensures forall id :: HeldBy(p.(pendingTrack := track), id) == HeldBy(p, id)
  {
    hide WellFormed, Held, Locks, Live;
    assert forall id :: HeldBy(p.(pendingTrack := track), id) == HeldBy(p, id);
  }

  /** Giving up the current track by an immediate unlock leaves nothing behind. */
  lemma DropCurrentNet(c: Cache, p: Player, q: Player)
    requires !p.destroyed && p.current > 0 && UnlockNow(c, p.current).Ok?
    requires q == p.(current := 0, pendingTrack := q.pendingTrack)
    ensures forall id :: Net(UnlockNow(c, p.current).value, q, id) == Net(c, p, id)
  {
    hide UnlockNow;
    FreeUnlock(c, p.current);
  }

  lemma SetTrackNet(lib: Library, c: Cache, p: Player, rest: seq<Player>, track: int, now: int)
    requires NextLoads(lib) && One(lib, c, p, rest) && !p.destroyed && track > 0 && p.active && track in c.buffers
    ensures var r := SetTrack(lib, c, p, track, now);
            r.Ok? && forall id :: Net(r.value.0, r.value.1, id) == Net(c, p, id) + SetTrackExtra(c, p, id)
  {
    hide Preload, DeferOld, One, WellFormed, LockFree, Keeps, Held, StatusOf, Lock, UnlockNow, GetLocked, SetTrackExtra,
      PreloadExtra, Free, HeldBy, Fine;
    SetTrackOk(lib, c, p, rest, track, now);
    SwitchFine(lib, c, p, rest, track);
    SwitchNet(lib, c, p, rest, track);
    var p1 := Switched(p, track);
    var (c2, status) := Lock(DeferOld(DeferOld(c, p.current), p.next), track).value;
    if status == HasFailed {
      DropCurrentNet(c2, p1, p1.(current := 0));
    } else if status == IsReady {
      ReadyNet(lib, c2, p1, rest, now);
    } else {
      OnePending(lib, c2, p1, rest, track);
      PreloadNet(lib, c2, p1.(pendingTrack := track), rest, now);
      NothingReplaced(lib, p1.(pendingTrack := track));
    }
  }

  lemma SetTrackOk(lib: Library, c: Cache, p: Player, rest: seq<Player>, track: int, now: int)
    requires NextLoads(lib) && One(lib, c, p, rest) && !p.destroyed && track in c.buffers
    ensures SetTrack(lib, c, p, track, now).Ok?
  {
    hide SetTrack, One;
    SetTrackFine(lib, c, p, rest, track, now);
  }

  lemma NothingReplaced(lib: Library, p: Player)
    requires p.next == 0
    ensures forall id :: PreloadExtra(lib, p, id) == 0
  {
  }

  lemma ReadyNet(lib: Library, c: Cache, p: Player, rest: seq<Player>, now: int)
    requires NextLoads(lib) && One(lib, c, p, rest) && !p.destroyed && p.current > 0 && p.next == 0
      && p.pendingTrack == 0
    requires StatusOf(c, p.current) == IsReady
    ensures var g := GetLocked(c, p.current, now);
            && g.Ok? && g.value.1 != 0
            && var r := Preload(lib, g.value.0, p.(buffer := g.value.1), p.current, now);
               r.Ok? && forall id :: Net(r.value.0, r.value.1, id) == Net(c, p, id)
  {
    hide Preload, One, WellFormed, StatusOf, GetLocked, Free, HeldBy, PreloadExtra;
    HeldRefs(p);
    GetOne(lib, c, p, rest, p.current, now);
    GetFree(lib, c, p, rest, p.current, now);
    var (c3, h) := GetLocked(c, p.current, now).value;
    OneBuffer(lib, c3, p, rest, h);
    PreloadNet(lib, c3, p.(buffer := h), rest, now);
    NothingReplaced(lib, p.(buffer := h));
  }

  lemma PollNet(lib: Library, c: Cache, p: Player, rest: seq<Player>, now: int)
    requires One(lib, c, p, rest) && !p.destroyed
    ensures var r := PollPending(c, p, now); r.Ok? && forall id :: Net(r.value.0, r.value.1, id) == Net(c, p, id)
  {
    hide WellFormed, StatusOf, GetLocked, UnlockNow, Held, Locks;
    PollFine(lib, c, p, rest, now);
    if p.pendingTrack > 0 {
      HeldRefs(p);
      if StatusOf(c, p.pendingTrack) == HasFailed {
        DropCurrentNet(c, p, p.(pendingTrack := 0, current := 0));
      } else if StatusOf(c, p.pendingTrack) == IsReady {
        GetFree(lib, c, p, rest, p.pendingTrack, now);
      }
    }
  }

  lemma AttachNet(lib: Library, c: Cache, p: Player, rest: seq<Player>, now: int)
    requires One(lib, c, p, rest) && !p.destroyed
    ensures var r := TryAttachNext(c, p, now); r.Ok? && forall id :: Net(r.value.0, r.value.1, id) == Net(c, p, id)
  {
    hide WellFormed, StatusOf, GetLocked, Held, Locks;
    AttachFine(lib, c, p, rest, now);
    if p.next > 0 {
      HeldRefs(p);
      GetFree(lib, c, p, rest, p.next, now);
    }
  }

  lemma LoadNet(c: Cache, p: Player, p1: Player, x: int, resolved: bool, now: int)
    requires WellFormed(c) && forall id :: HeldBy(p1, id) == HeldBy(p, id)
    ensures var c1 := Load(c, x, resolved, true, now).0;
            && c1.pending == c.pending && forall id :: Net(c1, p1, id) == Net(c, p, id)
  {
    hide WellFormed, Load, HeldBy, Keeps, Locks;
    LoadKeeps(c, x, resolved, true, now);
    FreeSame(c, Load(c, x, resolved, true, now).0);
  }

  lemma ExtraByPending(c: Cache, c1: Cache, p: Player, p1: Player)
    requires c1.pending == c.pending && p1.current == p.current && p1.next == p.next
    ensures forall id :: SetTrackExtra(c1, p1, id) == SetTrackExtra(c, p, id)
  {
  }

  lemma DeferredNet(lib: Library, c: Cache, p: Player, rest: seq<Player>, now: int)
    requires NextLoads(lib) && One(lib, c, p, rest) && !p.destroyed
    requires p.advancePending && p.advanceOld == 0 && p.buffer == 0
    ensures var r := HandleAdvance(lib, c, p, now);
            r.Ok? && forall id :: Net(r.value.0, r.value.1, id) == Net(c, p, id) + AdvanceExtra(lib, c, p, id)
  {
    hide WellFormed, Load, SetTrack, Preload, Held, Locks, DeferOld, SetTrackExtra, Free;
    AdvanceFine(lib, c, p, rest, now);
    var p1 := p.(advancePending := false, advanceOld := 0);
    assert forall id :: HeldBy(p1, id) == HeldBy(p, id);
    OneFlags(lib, c, p, p1, rest);
    if p.next > 0 {
      HeldRefs(p1);
      LoadOne(lib, c, p1, rest, p.next, p.next in lib.loadable, now);
      LoadNet(c, p, p1, p.next, p.next in lib.loadable, now);
      var c1 := Load(c, p.next, p.next in lib.loadable, true, now).0;
      ExtraByPending(c, c1, p, p1);
      hide HeldBy, One;
      if p.active {
        SetTrackNet(lib, c1, p1, rest, p.next, now);
      } else {
        assert SetTrack(lib, c1, p1, p.next, now) == Ok((c1, p1)) by { NoStreams(lib, c1, p1, p.next, now); }
      }
    }
  }

  lemma NoStreams(lib: Library, c: Cache, p: Player, track: int, now: int)
    requires !p.active
    ensures SetTrack(lib, c, p, track, now) == Ok((c, p))
  {
  }

  lemma InstantNet(lib: Library, c: Cache, p: Player, rest: seq<Player>, now: int)
    requires NextLoads(lib) && One(lib, c, p, rest) && !p.destroyed
    requires p.advancePending && !(p.advanceOld == 0 && p.buffer == 0)
    ensures var r := HandleAdvance(lib, c, p, now);
            r.Ok? && forall id :: Net(r.value.0, r.value.1, id) == Net(c, p, id) + AdvanceExtra(lib, c, p, id)
  {
    hide WellFormed, SetTrack, Preload, Held, DeferOld, Locks, Live, DeferExtra;
    var p1 := p.(advancePending := false, advanceOld := 0);
    DeferOne(lib, c, p, p1, rest, p.advanceOld);
    FreeDefer(c, p.advanceOld);
    PreloadNet(lib, DeferOld(c, p.advanceOld), p1, rest, now);
    forall id ensures HeldBy(p, id) == HeldBy(p1, id) + B(p.advanceOld > 0 && id == p.advanceOld) {
    }
    assert forall id :: PreloadExtra(lib, p1, id) == PreloadExtra(lib, p, id);
  }

  lemma AdvanceNet(lib: Library, c: Cache, p: Player, rest: seq<Player>, now: int)
    requires NextLoads(lib) && One(lib, c, p, rest) && !p.destroyed
    ensures var r := HandleAdvance(lib, c, p, now);
            r.Ok? && forall id :: Net(r.value.0, r.value.1, id) == Net(c, p, id) + AdvanceExtra(lib, c, p, id)
  {
    hide One, Net, SetTrack, Preload, Load;
    if p.advancePending {
      if p.advanceOld == 0 && p.buffer == 0 {
        DeferredNet(lib, c, p, rest, now);
      } else {
        InstantNet(lib, c, p, rest, now);
      }
    }
  }

  lemma TickNet(lib: Library, c: Cache, p: Player, rest: seq<Player>, now: int)
    requires NextLoads(lib) && One(lib, c, p, rest) && !p.destroyed
    ensures var r := TickPlayer(lib, c, p, now);
            r.Ok? && forall id :: Net(r.value.0, r.value.1, id) == Net(c, p, id) + TickExtra(lib, c, p, now, id)
  {
    hide One, PollPending, TryAttachNext, HandleAdvance, AdvanceExtra, Net, StaysLive;
    PollFine(lib, c, p, rest, now);
    PollNet(lib, c, p, rest, now);
    var (c1, p1) := PollPending(c, p, now).value;
    AttachFine(lib, c1, p1, rest, now);
    AttachNet(lib, c1, p1, rest, now);
    var (c2, p2) := TryAttachNext(c1, p1, now).value;
    AdvanceNet(lib, c2, p2, rest, now);
  }

  lemma TrackEndNet(lib: Library, c: Cache, p: Player, rest: seq<Player>)
    requires One(lib, c, p, rest) && !p.destroyed && p.buffer != 0
    ensures forall id :: Net(c, TrackEnd(p), id) == Net(c, p, id) + TrackEndExtra(p, id)
  {
    hide WellFormed, Held, Locks, Live;
  }

  lemma DestroyNet(lib: Library, c: Cache, p: Player, rest: seq<Player>)
    requires One(lib, c, p, rest) && !p.destroyed
    ensures var r := DestroyPlayer(c, p);
            r.Ok? && forall id :: Net(r.value.0, r.value.1, id) == Net(c, p, id) + DestroyExtra(p, id)
  {
    hide WellFormed, UnlockNow, Held, Locks, Live;
    DestroyFine(lib, c, p, rest);
    var c1 := if p.current > 0 then UnlockNow(c, p.current).value else c;
    if p.current > 0 {
      FreeUnlock(c, p.current);
    }
    if p.next > 0 {
      FreeUnlock(c1, p.next);
    }
  }

  // ---- All players ----

  lemma PlayerSurplus(w: World, i: nat, c: Cache, p: Player, id: int)
    requires i < |w.players|
    ensures Surplus(World(c, w.players[i := p]), id) - Surplus(w, id) == Net(c, p, id) - Net(w.cache, w.players[i], id)
  {
    hide Free, HeldBy, Held;
    HeldSplit(w.players, i, p, id);
    HeldSplit(w.players, i, w.players[i], id);
    assert w.players[i := w.players[i]] == w.players;
  }

  lemma PlayerStepExtra(lib: Library, w: World, e: Event, now: int, id: int)
    requires NextLoads(lib) && Inv(lib, w) && Enabled(w, e)
    requires e.SetTrackOn? || e.Tick? || e.EndOfTrack? || e.Destroyed?
    ensures Step(lib, w, e, now).Ok?
    ensures Surplus(Step(lib, w, e, now).value, id) == Surplus(w, id) + Extra(lib, w, e, now, id)
  {
    hide Inv, One, SetTrack, TickPlayer, DestroyPlayer, TrackEnd, TickExtra, SetTrackExtra, TrackEndExtra,
      DestroyExtra, Surplus, Net;
    var p, rest := w.players[e.i], w.players[..e.i] + w.players[e.i + 1..];
    Focus(lib, w, e.i);
    match e
    case SetTrackOn(i, track) =>
      if track > 0 && p.active {
        SetTrackNet(lib, w.cache, p, rest, track, now);
        var r := SetTrack(lib, w.cache, p, track, now).value;
        PlayerSurplus(w, i, r.0, r.1, id);
      } else {
        NotSet(lib, w.cache, p, track, now);
        assert World(w.cache, w.players[i := p]) == w;
      }
    case Tick(i) =>
      TickNet(lib, w.cache, p, rest, now);
      var r := TickPlayer(lib, w.cache, p, now).value;
      PlayerSurplus(w, i, r.0, r.1, id);
    case Destroyed(i) =>
      DestroyNet(lib, w.cache, p, rest);
      var r := DestroyPlayer(w.cache, p).value;
      PlayerSurplus(w, i, r.0, r.1, id);
    case EndOfTrack(i) =>
      TrackEndNet(lib, w.cache, p, rest);
      PlayerSurplus(w, i, w.cache, TrackEnd(p), id);
      assert World(w.cache, w.players[i := TrackEnd(p)]) == w.(players := w.players[i := TrackEnd(p)]);
  }

  lemma NotSet(lib: Library, c: Cache, p: Player, track: int, now: int)
    requires track <= 0 || !p.active
    ensures SetTrack(lib, c, p, track, now) == Ok((c, p))
  {
  }

  lemma CacheSurplus(w: World, c: Cache, id: int)
    requires Free(c, id) == Free(w.cache, id)
    ensures Surplus(w.(cache := c), id) == Surplus(w, id)
  {
  }

  lemma TimerFree(c: Cache, x: int)
    requires x in c.pending && FireUnlock(c, x).Ok?
    ensures forall id :: Free(FireUnlock(c, x).value, id) == Free(c, id)
  {
  }

  lemma OtherStepExtra(lib: Library, w: World, e: Event, now: int, id: int)
    requires NextLoads(lib) && Inv(lib, w) && Enabled(w, e)
    requires !(e.SetTrackOn? || e.Tick? || e.EndOfTrack? || e.Destroyed?)
    ensures Step(lib, w, e, now).Ok?
    ensures Surplus(Step(lib, w, e, now).value, id) == Surplus(w, id)
  {
    StepSafe(lib, w, e, now);
    hide WellFormed, Covered, PlayerOk, Held, Free, Surplus, DecodeDone, DecodeFail, Load, SweepFrom, FireUnlock,
      Keeps, LockFree;
    match e {
      case LoadTrack(x, resolved, queued) => LoadKeeps(w.cache, x, resolved, queued, now);
      case Decoded(x, bytes) => DecodeDoneKeeps(w.cache, x, bytes, now);
      case DecodeFailed(x) => DecodeFailKeeps(w.cache, x, now);
      case SweepTimer(maxAge) => SweepKeeps(w.cache, now - maxAge, |w.cache.lru|);
      case UnlockTimer(x) => TimerFree(w.cache, x);
      case EndModeSet(i, mode) => FlagSurplus(w, i, w.players[i].(endMode := mode), id);
      case StreamsSet(i, active) => FlagSurplus(w, i, w.players[i].(active := active), id);
    }
    if e.LoadTrack? || e.Decoded? || e.DecodeFailed? || e.SweepTimer? {
      FreeSame(w.cache, Step(lib, w, e, now).value.cache);
    }
    if !e.EndModeSet? && !e.StreamsSet? {
      CacheSurplus(w, Step(lib, w, e, now).value.cache, id);
    }
  }

  lemma FlagSurplus(w: World, i: nat, p: Player, id: int)
    requires i < |w.players| && p == w.players[i].(endMode := p.endMode, active := p.active)
    ensures Surplus(w.(players := w.players[i := p]), id) == Surplus(w, id)
  {
    hide Free, Held;
    PlayerSurplus(w, i, w.cache, p, id);
    assert World(w.cache, w.players[i := p]) == w.(players := w.players[i := p]);
  }

  /** A step changes the surplus of a track by exactly what it leaves behind. */
  lemma StepExtra(lib: Library, w: World, e: Event, now: int, id: int)
    requires NextLoads(lib) && Inv(lib, w) && Enabled(w, e)
    ensures Step(lib, w, e, now).Ok?
    ensures Surplus(Step(lib, w, e, now).value, id) == Surplus(w, id) + Extra(lib, w, e, now, id)
  {
    hide Inv, Step, Surplus, SetTrackExtra, TickExtra, TrackEndExtra, DestroyExtra;
    if e.SetTrackOn? || e.Tick? || e.EndOfTrack? || e.Destroyed? {
      PlayerStepExtra(lib, w, e, now, id);
    } else {
      OtherStepExtra(lib, w, e, now, id);
    }
  }

  // ---- Runs ----

  /** What a run leaves behind of one track. */
  ghost function RunExtra(lib: Library, w: World, events: seq<(Event, int)>, id: int): nat
    requires Feasible(lib, w, events)
    decreases |events|
  {
    if events == [] then 0
    else
      match Step(lib, w, events[0].0, events[0].1)
      case Abort(_) => 0
      case Ok(v) => Extra(lib, w, events[0].0, events[0].1, id) + RunExtra(lib, v, events[1..], id)
  }

  lemma {:induction false} RunSurplus(lib: Library, w: World, events: seq<(Event, int)>, id: int)
    requires NextLoads(lib) && Inv(lib, w) && Feasible(lib, w, events)
    ensures Run(lib, w, events).Ok?
    ensures Surplus(Run(lib, w, events).value, id) == Surplus(w, id) + RunExtra(lib, w, events, id)
    decreases |events|
  {
    hide Inv, Step, Enabled, Surplus, Extra;
    if events != [] {
      StepSafe(lib, w, events[0].0, events[0].1);
      StepExtra(lib, w, events[0].0, events[0].1, id);
      RunSurplus(lib, Step(lib, w, events[0].0, events[0].1).value, events[1..], id);
    }
  }

  /** From the start, the locks of a track are exactly its holders and a scheduled unlock if and only if no step
      of the run left one behind: replaced a scheduled unlock of it, preloaded over it while it was the next track,
      or handed over or shut down a player that still had it to release. Otherwise they exceed them by the number
      of such steps. */
  lemma LocksAreExact(lib: Library, limit: nat, events: seq<(Event, int)>, id: int)
    requires NextLoads(lib) && Feasible(lib, Start(limit), events)
    ensures Run(lib, Start(limit), events).Ok?
    ensures var w := Run(lib, Start(limit), events).value;
            && Locks(w.cache, id)
                 == Held(w.players, id) + B(id in w.cache.pending) + RunExtra(lib, Start(limit), events, id)
  {
    StartCovered(lib, limit);
    IdleHoldsNothing(Start(limit).players, id);
    hide Inv, Feasible, Run, RunExtra;
    RunSurplus(lib, Start(limit), events, id);
  }
}
