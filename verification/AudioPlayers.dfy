// Four players over one buffer cache: the main thread's entry points, the real-time
// thread's end-of-track handover, decode completions and timers, each one step.

module AudioPlayers {
  import opened AudioCache

  const MAX_AUDIO_PLAYERS: nat := 4

  datatype EndMode = StopAtEnd | Repeat | Autoplay

  /** `buffer` and `nextBuffer` are buffer addresses, 0 for NULL. A destroyed player's fields are never used
      again. */
  datatype Player = Player(active: bool, current: int, next: int, buffer: nat, nextBuffer: nat,
    pendingTrack: int, advancePending: bool, advanceOld: int, endMode: EndMode, destroyed: bool)

  datatype World = World(cache: Cache, players: seq<Player>)

  /** The library's album order, and the tracks whose load lookup and decode queue accept. */
  datatype Library = Library(next: map<int, int>, loadable: set<int>)

  function NextTrack(lib: Library, id: int): int {
    if id > 0 && id in lib.next && lib.next[id] > 0 then lib.next[id] else 0
  }

  // ---- The main thread ----

  /** Looks up and loads the album's next track, locks it, and attaches its buffer if it is decoded. */
  function Preload(lib: Library, c: Cache, p: Player, current: int, now: int): Outcome<(Cache, Player)> {
    var nextId := NextTrack(lib, current);
    if p.endMode == Repeat || nextId <= 0 then Ok((c, p))
    else
      var p1 := p.(next := nextId);
      var c1 := Load(c, nextId, nextId in lib.loadable, true, now).0;
      var (c2, status) :- Lock(c1, nextId);
      if status != IsReady then Ok((c2, p1))
      else
        var (c3, h) :- GetLocked(c2, nextId, now);
        Ok((c3, if h != 0 then p1.(nextBuffer := h) else p1))
  }

  function DeferOld(c: Cache, id: int): Cache {
    if id > 0 then UnlockDeferred(c, id) else c
  }

  /** Puts a cached track on a player: both old tracks are released later, the new one is locked. */
  function SetTrack(lib: Library, c: Cache, p: Player, id: int, now: int): Outcome<(Cache, Player)> {
    if id <= 0 || !p.active then Ok((c, p))
    else if id !in c.buffers then Abort(NotInCache)
    else
      var c1 := DeferOld(DeferOld(c, p.current), p.next);
      var p1 := p.(buffer := 0, nextBuffer := 0, pendingTrack := 0, current := id, next := 0);
      var (c2, status) :- Lock(c1, id);
      if status == HasFailed then
        var c3 :- UnlockNow(c2, id);
        Ok((c3, p1.(current := 0)))
      else if status == IsReady then
        var (c3, h) :- GetLocked(c2, id, now);
        if h == 0 then
          var c4 :- UnlockNow(c3, id);
          Ok((c4, p1))
        else Preload(lib, c3, p1.(buffer := h), id, now)
      else Preload(lib, c2, p1.(pendingTrack := id), id, now)
  }

  /** Attaches the buffer a player waits for once its decode completed; gives up when it failed. */
  function PollPending(c: Cache, p: Player, now: int): Outcome<(Cache, Player)> {
    if p.pendingTrack <= 0 then Ok((c, p))
    else
      match StatusOf(c, p.pendingTrack)
      case HasFailed =>
        var c1 :- UnlockNow(c, p.pendingTrack);
        Ok((c1, p.(pendingTrack := 0, current := 0)))
      case IsReady =>
        var (c1, h) :- GetLocked(c, p.pendingTrack, now);
        Ok((c1, if h == 0 then p else p.(buffer := h, pendingTrack := 0)))
      case _ => Ok((c, p))
  }

  function TryAttachNext(c: Cache, p: Player, now: int): Outcome<(Cache, Player)> {
    if p.next <= 0 || p.nextBuffer != 0 || StatusOf(c, p.next) != IsReady then Ok((c, p))
    else
      var (c1, h) :- GetLocked(c, p.next, now);
      Ok((c1, if h != 0 then p.(nextBuffer := h) else p))
  }

  /** Completes the advance the real-time thread flagged: loads and sets the next track when no buffer was
      ready, otherwise releases the old track later and preloads the new next one. */
  function HandleAdvance(lib: Library, c: Cache, p: Player, now: int): Outcome<(Cache, Player)> {
    if !p.advancePending then Ok((c, p))
    else
      var p1 := p.(advancePending := false, advanceOld := 0);
      if p.advanceOld == 0 && p.buffer == 0 then
        if p.next > 0
        then SetTrack(lib, Load(c, p.next, p.next in lib.loadable, true, now).0, p1, p.next, now)
        else Ok((c, p1))
      else Preload(lib, DeferOld(c, p.advanceOld), p1, p.current, now)
  }

  /** One player's turn of the 50 ms timer. */
  function TickPlayer(lib: Library, c: Cache, p: Player, now: int): Outcome<(Cache, Player)> {
    var (c1, p1) :- PollPending(c, p, now);
    var (c2, p2) :- TryAttachNext(c1, p1, now);
    HandleAdvance(lib, c2, p2, now)
  }

  /** Drops a player's locks at shutdown; the track ids stay. */
  function DestroyPlayer(c: Cache, p: Player): Outcome<(Cache, Player)> {
    var p1 := p.(buffer := 0, nextBuffer := 0);
    var c1 :- if p.current > 0 then UnlockNow(c, p.current) else Ok(c);
    var c2 :- if p.next > 0 then UnlockNow(c1, p.next) else Ok(c1);
    Ok((c2, p1.(destroyed := true)))
  }

  // ---- The real-time thread ----

  /** The end-of-track policy, reached only while a buffer is being rendered. */
  function TrackEnd(p: Player): Player {
    if p.endMode == Repeat then p
    else if p.nextBuffer != 0 then
      p.(buffer := p.nextBuffer, nextBuffer := 0, advanceOld := p.current, current := p.next, next := 0,
         advancePending := true)
    else if p.next > 0 then p.(buffer := 0, advancePending := true)
    else p
  }

  // ---- Steps ----

  datatype Event =
    | SetTrackOn(i: nat, id: int)
    | Tick(i: nat)
    | EndOfTrack(i: nat)
    | LoadTrack(id: int, resolved: bool, queued: bool)
    | Decoded(id: int, bytes: nat)
    | DecodeFailed(id: int)
    | UnlockTimer(id: int)
    | SweepTimer(maxAge: int)
    | EndModeSet(i: nat, mode: EndMode)
    | StreamsSet(i: nat, active: bool)
    | Destroyed(i: nat)

  function OnPlayer(w: World, i: nat, r: Outcome<(Cache, Player)>): Outcome<World>
    requires i < |w.players|
  {
    var (c, p) :- r;
    Ok(World(c, w.players[i := p]))
  }

  predicate Exists(w: World, i: nat) {
    i < |w.players| && !w.players[i].destroyed
  }

  /** What each caller must respect: players exist, a track put on a player is cached, the end of a track is
      reached only while rendering, and decodes and timers belong to something started. */
  predicate Enabled(w: World, e: Event) {
    match e
    case SetTrackOn(i, id) => Exists(w, i) && id in w.cache.buffers
    case Tick(i) => Exists(w, i)
    case EndOfTrack(i) => Exists(w, i) && w.players[i].buffer != 0
    case Decoded(id, _) => id in w.cache.buffers && w.cache.buffers[id].decode == Loading
    case DecodeFailed(id) => id in w.cache.buffers && w.cache.buffers[id].decode == Loading
    case UnlockTimer(id) => id in w.cache.pending
    case EndModeSet(i, _) => Exists(w, i)
    case StreamsSet(i, _) => Exists(w, i)
    case Destroyed(i) => Exists(w, i)
    case _ => true
  }

  function Step(lib: Library, w: World, e: Event, now: int): Outcome<World>
    requires Enabled(w, e)
  {
    match e
    case SetTrackOn(i, id) => OnPlayer(w, i, SetTrack(lib, w.cache, w.players[i], id, now))
    case Tick(i) => OnPlayer(w, i, TickPlayer(lib, w.cache, w.players[i], now))
    case EndOfTrack(i) => Ok(w.(players := w.players[i := TrackEnd(w.players[i])]))
    case LoadTrack(id, resolved, queued) => Ok(w.(cache := Load(w.cache, id, resolved, queued, now).0))
    case Decoded(id, bytes) => Ok(w.(cache := DecodeDone(w.cache, id, bytes, now)))
    case DecodeFailed(id) => Ok(w.(cache := DecodeFail(w.cache, id, now)))
    case UnlockTimer(id) =>
      var c :- FireUnlock(w.cache, id);
      Ok(w.(cache := c))
    case SweepTimer(maxAge) => Ok(w.(cache := Sweep(w.cache, now, maxAge)))
    case EndModeSet(i, mode) => Ok(w.(players := w.players[i := w.players[i].(endMode := mode)]))
    case StreamsSet(i, active) => Ok(w.(players := w.players[i := w.players[i].(active := active)]))
    case Destroyed(i) => OnPlayer(w, i, DestroyPlayer(w.cache, w.players[i]))
  }

  // ---- The invariant ----

  function B(b: bool): nat {
    if b then 1 else 0
  }

  /** How many of a player's three references hold track `id`; a destroyed player holds none. */
  function HeldBy(p: Player, id: int): nat {
    if id > 0 && !p.destroyed then B(p.current == id) + B(p.next == id) + B(p.advanceOld == id) else 0
  }

  function Held(players: seq<Player>, id: int): nat {
    if players == [] then 0 else HeldBy(players[0], id) + Held(players[1..], id)
  }

  /** A player's references: a non-NULL buffer is the live, decoded cache entry of its track; a track being
      waited for is the current one; the next track follows the current one. */
  ghost predicate PlayerOk(lib: Library, c: Cache, p: Player) {
    if p.destroyed then p.buffer == 0 && p.nextBuffer == 0 else RefsOk(lib, c, p)
  }

  ghost predicate RefsOk(lib: Library, c: Cache, p: Player) {
    && p.current >= 0 && p.next >= 0 && p.advanceOld >= 0 && p.pendingTrack >= 0
    && (p.buffer != 0 ==> p.current > 0 && Live(c, p.current, p.buffer))
    && (p.nextBuffer != 0 ==> p.next > 0 && Live(c, p.next, p.nextBuffer))
    && (p.pendingTrack != 0 ==> p.pendingTrack == p.current && p.buffer == 0)
    && (p.next != 0 && p.current != 0 ==> p.next == NextTrack(lib, p.current))
  }

  /** Every lock the players rely on, and one per scheduled unlock, is held. */
  ghost predicate Covered(c: Cache, players: seq<Player>) {
    forall id :: Locks(c, id) >= Held(players, id) + B(id in c.pending)
  }

  ghost predicate Inv(lib: Library, w: World) {
    && WellFormed(w.cache)
    && Covered(w.cache, w.players)
    && forall i | 0 <= i < |w.players| :: PlayerOk(lib, w.cache, w.players[i])
  }

  /** The tracks the library names as next can be loaded. */
  ghost predicate NextLoads(lib: Library) {
    forall id :: NextTrack(lib, id) > 0 ==> NextTrack(lib, id) in lib.loadable
  }

  // ---- One player at a time ----

  /** The cache covers player `p` and, besides it, the players `rest`. */
  ghost predicate One(lib: Library, c: Cache, p: Player, rest: seq<Player>) {
    && WellFormed(c)
    && PlayerOk(lib, c, p)
    && forall id :: Locks(c, id) >= Held(rest, id) + HeldBy(p, id) + B(id in c.pending)
  }

  /** The buffers the players `rest` hold stay live. */
  ghost predicate StaysLive(rest: seq<Player>, c: Cache, c2: Cache) {
    forall id, h :: Held(rest, id) > 0 && Live(c, id, h) ==> Live(c2, id, h)
  }

  lemma LiveKept(c: Cache, c2: Cache, id: int, h: nat)
    requires Keeps(c, c2) && Live(c, id, h) && Locks(c, id) > 0
    ensures Live(c2, id, h)
  {
  }

  lemma HeldRefs(p: Player)
    requires !p.destroyed
    ensures p.current > 0 ==> HeldBy(p, p.current) > 0
    ensures p.next > 0 ==> HeldBy(p, p.next) > 0
    ensures p.advanceOld > 0 ==> HeldBy(p, p.advanceOld) > 0
  {
  }

  /** An operation that only adds locks keeps the player covered. */
  lemma CarryFree(lib: Library, c: Cache, c2: Cache, p: Player, rest: seq<Player>)
    requires One(lib, c, p, rest) && WellFormed(c2) && Keeps(c, c2)
    requires forall id :: Locks(c2, id) - B(id in c2.pending) >= Locks(c, id) - B(id in c.pending)
    ensures One(lib, c2, p, rest) && StaysLive(rest, c, c2)
  {
    hide WellFormed, Keeps, Live, Locks;
    if !p.destroyed {
      HeldRefs(p);
    }
    forall id, h | (Held(rest, id) > 0 || HeldBy(p, id) > 0) && Live(c, id, h) ensures Live(c2, id, h) {
      LiveKept(c, c2, id, h);
    }
  }

  lemma LoadOne(lib: Library, c: Cache, p: Player, rest: seq<Player>, id: int, resolved: bool, now: int)
    requires One(lib, c, p, rest)
    ensures var c2 := Load(c, id, resolved, true, now).0; One(lib, c2, p, rest) && StaysLive(rest, c, c2)
    ensures id > 0 && (resolved || HeldBy(p, id) > 0) ==> id in Load(c, id, resolved, true, now).0.buffers
  {
    hide WellFormed, Keeps, Load;
    LoadKeeps(c, id, resolved, true, now);
    CarryFree(lib, c, Load(c, id, resolved, true, now).0, p, rest);
    assert Locks(c, id) >= HeldBy(p, id);
  }

  lemma GetOne(lib: Library, c: Cache, p: Player, rest: seq<Player>, id: int, now: int)
    requires One(lib, c, p, rest) && HeldBy(p, id) > 0
    ensures GetLocked(c, id, now).Ok?
    ensures var (c2, h) := GetLocked(c, id, now).value;
            && One(lib, c2, p, rest) && StaysLive(rest, c, c2)
            && (h != 0 <==> StatusOf(c, id) == IsReady) && (h != 0 ==> Live(c2, id, h))
  {
    hide WellFormed, Keeps, GetLocked, StatusOf, Live;
    assert Locks(c, id) >= HeldBy(p, id);
    GetLockedKeeps(c, id, now);
    CarryFree(lib, c, GetLocked(c, id, now).value.0, p, rest);
  }

  /** Giving up one hold by an immediate unlock. `p2` is the player without it. */
  lemma UnlockOne(lib: Library, c: Cache, p: Player, p2: Player, rest: seq<Player>, id: int)
    requires One(lib, c, p, rest) && PlayerOk(lib, c, p2)
    requires forall k :: HeldBy(p, k) >= HeldBy(p2, k) + B(k == id)
    ensures UnlockNow(c, id).Ok?
    ensures One(lib, UnlockNow(c, id).value, p2, rest) && StaysLive(rest, c, UnlockNow(c, id).value)
  {
    hide WellFormed, Keeps, Live, UnlockNow, Locks;
    assert Locks(c, id) >= HeldBy(p, id) >= HeldBy(p2, id) + B(id == id);
    UnlockKeeps(c, id);
    var c2 := UnlockNow(c, id).value;
    if !p2.destroyed {
      HeldRefs(p2);
    }
    forall k, h | (Held(rest, k) > 0 || HeldBy(p2, k) > 0) && Live(c, k, h) ensures Live(c2, k, h) {
      assert HeldBy(p, k) >= HeldBy(p2, k) + B(k == id);
      LiveKept(c, c2, k, h);
    }
  }

  /** Taking one more hold: `p2` is the player with it. */
  lemma LockOne(lib: Library, c: Cache, p: Player, p2: Player, rest: seq<Player>, id: int)
    requires One(lib, c, p, rest) && PlayerOk(lib, c, p2) && id in c.buffers
    requires forall k :: HeldBy(p2, k) <= HeldBy(p, k) + B(k == id)
    ensures Lock(c, id).Ok? && Lock(c, id).value.1 == StatusOf(c, id)
    ensures var c2 := Lock(c, id).value.0;
            One(lib, c2, p2, rest) && StaysLive(rest, c, c2) && StatusOf(c2, id) == StatusOf(c, id)
  {
    hide WellFormed, Keeps, Live;
    LockKeeps(c, id);
    hide Locks;
    var c2 := Lock(c, id).value.0;
    assert PlayerOk(lib, c2, p2);
    forall k ensures Locks(c2, k) >= Held(rest, k) + HeldBy(p2, k) + B(k in c2.pending) {
      assert Locks(c, k) >= Held(rest, k) + HeldBy(p, k) + B(k in c.pending);
      assert HeldBy(p2, k) <= HeldBy(p, k) + B(k == id);
    }
  }

  /** Turning one hold into a scheduled unlock; an earlier schedule for the same track is replaced, which
      leaves its lock behind. */
  lemma DeferOne(lib: Library, c: Cache, p: Player, p2: Player, rest: seq<Player>, id: int)
    requires One(lib, c, p, rest) && PlayerOk(lib, c, p2)
    requires forall k :: HeldBy(p, k) >= HeldBy(p2, k) + B(id > 0 && k == id)
    ensures One(lib, DeferOld(c, id), p2, rest) && StaysLive(rest, c, DeferOld(c, id))
    ensures DeferOld(c, id).buffers == c.buffers
  {
    hide WellFormed, Keeps;
    DeferKeeps(c, id);
    var c2 := DeferOld(c, id);
    assert PlayerOk(lib, c2, p2);
    forall k ensures Locks(c2, k) >= Held(rest, k) + HeldBy(p2, k) + B(k in c2.pending) {
      assert Locks(c, k) >= Held(rest, k) + HeldBy(p, k) + B(k in c.pending);
      assert HeldBy(p, k) >= HeldBy(p2, k) + B(id > 0 && k == id);
    }
  }

  lemma LiveTrans(rest: seq<Player>, a: Cache, b: Cache, c: Cache)
    requires StaysLive(rest, a, b) && StaysLive(rest, b, c)
    ensures StaysLive(rest, a, c)
  {
    hide Live;
  }

  lemma LiveRefl(rest: seq<Player>, c: Cache)
    ensures StaysLive(rest, c, c)
  {
  }

  /** An entry point that succeeds and keeps the player covered. */
  ghost predicate Fine(lib: Library, c: Cache, rest: seq<Player>, r: Outcome<(Cache, Player)>) {
    r.Ok? && One(lib, r.value.0, r.value.1, rest) && StaysLive(rest, c, r.value.0) && !r.value.1.destroyed
  }

  lemma PreloadFine(lib: Library, c: Cache, p: Player, rest: seq<Player>, now: int)
    requires NextLoads(lib) && One(lib, c, p, rest) && !p.destroyed
    ensures Fine(lib, c, rest, Preload(lib, c, p, p.current, now))
  {
    hide WellFormed, Load, Lock, GetLocked, StatusOf, Held, Locks;
    var n := NextTrack(lib, p.current);
    LiveRefl(rest, c);
    if p.endMode != Repeat && n > 0 {
      var p1 := p.(next := n);
      LoadOne(lib, c, p, rest, n, n in lib.loadable, now);
      var c1 := Load(c, n, n in lib.loadable, true, now).0;
      LockOne(lib, c1, p, p1, rest, n);
      var c2 := Lock(c1, n).value.0;
      LiveTrans(rest, c, c1, c2);
      HeldRefs(p1);
      GetOne(lib, c2, p1, rest, n, now);
      var (c3, h) := GetLocked(c2, n, now).value;
      LiveTrans(rest, c, c2, c3);
    }
  }

  /** The player with every reference but the new current track given up, which is locked. */
  function Switched(p: Player, id: int): Player {
    p.(buffer := 0, nextBuffer := 0, pendingTrack := 0, current := id, next := 0)
  }

  lemma SwitchFine(lib: Library, c: Cache, p: Player, rest: seq<Player>, id: int)
    requires One(lib, c, p, rest) && !p.destroyed && id > 0 && id in c.buffers
    ensures var c1 := DeferOld(DeferOld(c, p.current), p.next);
            && c1.buffers == c.buffers && Lock(c1, id).Ok?
            && One(lib, Lock(c1, id).value.0, Switched(p, id), rest) && StaysLive(rest, c, Lock(c1, id).value.0)
            && StatusOf(Lock(c1, id).value.0, id) == Lock(c1, id).value.1
  {
    hide WellFormed, Lock, StatusOf, Held, Locks, DeferOld, Live;
    var pa := p.(buffer := 0, pendingTrack := 0, current := 0);
    DeferOne(lib, c, p, pa, rest, p.current);
    var ca := DeferOld(c, p.current);
    var pb := pa.(nextBuffer := 0, next := 0);
    DeferOne(lib, ca, pa, pb, rest, p.next);
    var c1 := DeferOld(ca, p.next);
    LiveTrans(rest, c, ca, c1);
    LockOne(lib, c1, pb, Switched(p, id), rest, id);
    LiveTrans(rest, c, c1, Lock(c1, id).value.0);
  }

  lemma SetTrackFine(lib: Library, c: Cache, p: Player, rest: seq<Player>, id: int, now: int)
    requires NextLoads(lib) && One(lib, c, p, rest) && !p.destroyed && (id > 0 && p.active ==> id in c.buffers)
    ensures Fine(lib, c, rest, SetTrack(lib, c, p, id, now))
  {
    hide WellFormed, Lock, UnlockNow, GetLocked, StatusOf, Held, Locks, Preload, DeferOld, Live;
    LiveRefl(rest, c);
    if id > 0 && p.active {
      SwitchFine(lib, c, p, rest, id);
      var p1 := Switched(p, id);
      var (c2, status) := Lock(DeferOld(DeferOld(c, p.current), p.next), id).value;
      HeldRefs(p1);
      if status == HasFailed {
        UnlockOne(lib, c2, p1, p1.(current := 0), rest, id);
        LiveTrans(rest, c, c2, UnlockNow(c2, id).value);
      } else if status == IsReady {
        GetOne(lib, c2, p1, rest, id, now);
        var (c3, h) := GetLocked(c2, id, now).value;
        LiveTrans(rest, c, c2, c3);
        PreloadFine(lib, c3, p1.(buffer := h), rest, now);
        LiveTrans(rest, c, c3, Preload(lib, c3, p1.(buffer := h), id, now).value.0);
      } else {
        PreloadFine(lib, c2, p1.(pendingTrack := id), rest, now);
        LiveTrans(rest, c, c2, Preload(lib, c2, p1.(pendingTrack := id), id, now).value.0);
      }
    }
  }

  lemma PollFine(lib: Library, c: Cache, p: Player, rest: seq<Player>, now: int)
    requires One(lib, c, p, rest) && !p.destroyed
    ensures Fine(lib, c, rest, PollPending(c, p, now))
  {
    hide WellFormed, UnlockNow, GetLocked, StatusOf, Held, Locks;
    LiveRefl(rest, c);
    if p.pendingTrack > 0 {
      HeldRefs(p);
      if StatusOf(c, p.pendingTrack) == HasFailed {
        UnlockOne(lib, c, p, p.(pendingTrack := 0, current := 0), rest, p.pendingTrack);
      } else {
        GetOne(lib, c, p, rest, p.pendingTrack, now);
      }
    }
  }

  lemma AttachFine(lib: Library, c: Cache, p: Player, rest: seq<Player>, now: int)
    requires One(lib, c, p, rest) && !p.destroyed
    ensures Fine(lib, c, rest, TryAttachNext(c, p, now))
  {
    hide WellFormed, GetLocked, StatusOf, Held, Locks;
    LiveRefl(rest, c);
    if p.next > 0 {
      HeldRefs(p);
      GetOne(lib, c, p, rest, p.next, now);
    }
  }

  lemma AdvanceFine(lib: Library, c: Cache, p: Player, rest: seq<Player>, now: int)
    requires NextLoads(lib) && One(lib, c, p, rest) && !p.destroyed
    ensures Fine(lib, c, rest, HandleAdvance(lib, c, p, now))
  {
    hide WellFormed, Load, SetTrack, Preload, Held, Locks, DeferOld;
    LiveRefl(rest, c);
    if p.advancePending {
      var p1 := p.(advancePending := false, advanceOld := 0);
      if p.advanceOld == 0 && p.buffer == 0 {
        assert One(lib, c, p1, rest);
        if p.next > 0 {
          HeldRefs(p1);
          LoadOne(lib, c, p1, rest, p.next, p.next in lib.loadable, now);
          var c1 := Load(c, p.next, p.next in lib.loadable, true, now).0;
          SetTrackFine(lib, c1, p1, rest, p.next, now);
          LiveTrans(rest, c, c1, SetTrack(lib, c1, p1, p.next, now).value.0);
        }
      } else {
        DeferOne(lib, c, p, p1, rest, p.advanceOld);
        var c1 := DeferOld(c, p.advanceOld);
        PreloadFine(lib, c1, p1, rest, now);
        LiveTrans(rest, c, c1, Preload(lib, c1, p1, p.current, now).value.0);
      }
    }
  }

  lemma TickFine(lib: Library, c: Cache, p: Player, rest: seq<Player>, now: int)
    requires NextLoads(lib) && One(lib, c, p, rest) && !p.destroyed
    ensures Fine(lib, c, rest, TickPlayer(lib, c, p, now))
  {
    hide One, PollPending, TryAttachNext, HandleAdvance, StaysLive;
    PollFine(lib, c, p, rest, now);
    var (c1, p1) := PollPending(c, p, now).value;
    AttachFine(lib, c1, p1, rest, now);
    var (c2, p2) := TryAttachNext(c1, p1, now).value;
    AdvanceFine(lib, c2, p2, rest, now);
    var c3 := HandleAdvance(lib, c2, p2, now).value.0;
    LiveTrans(rest, c, c1, c2);
    LiveTrans(rest, c, c2, c3);
  }

  lemma DestroyFine(lib: Library, c: Cache, p: Player, rest: seq<Player>)
    requires One(lib, c, p, rest) && !p.destroyed
    ensures var r := DestroyPlayer(c, p);
            r.Ok? && One(lib, r.value.0, r.value.1, rest) && StaysLive(rest, c, r.value.0)
  {
    hide WellFormed, UnlockNow, Held, Locks;
    LiveRefl(rest, c);
    var pa := p.(buffer := 0, current := 0, pendingTrack := 0);
    var c1 := c;
    if p.current > 0 {
      UnlockOne(lib, c, p, pa, rest, p.current);
      c1 := UnlockNow(c, p.current).value;
    }
    assert One(lib, c1, pa, rest) && StaysLive(rest, c, c1);
    var pb := pa.(nextBuffer := 0, next := 0);
    if p.next > 0 {
      UnlockOne(lib, c1, pa, pb, rest, p.next);
      LiveTrans(rest, c, c1, UnlockNow(c1, p.next).value);
    }
  }

  lemma TrackEndFine(lib: Library, c: Cache, p: Player, rest: seq<Player>)
    requires One(lib, c, p, rest) && p.buffer != 0 && !p.destroyed
    ensures One(lib, c, TrackEnd(p), rest)
  {
    hide WellFormed, Held, Locks, Live;
    forall id ensures HeldBy(TrackEnd(p), id) <= HeldBy(p, id) {
    }
  }

  // ---- All players ----

  lemma {:induction false} HeldAppend(a: seq<Player>, b: seq<Player>, id: int)
    ensures Held(a + b, id) == Held(a, id) + Held(b, id)
  {
    if a == [] {
      assert a + b == b;
    } else {
      assert (a + b)[1..] == a[1..] + b;
      HeldAppend(a[1..], b, id);
    }
  }

  lemma HeldSplit(players: seq<Player>, i: nat, p: Player, id: int)
    requires i < |players|
    ensures Held(players[i := p], id) == Held(players[..i] + players[i + 1..], id) + HeldBy(p, id)
  {
    assert players[i := p] == players[..i] + ([p] + players[i + 1..]);
    HeldAppend(players[..i], [p] + players[i + 1..], id);
    HeldAppend(players[..i], players[i + 1..], id);
    assert ([p] + players[i + 1..])[1..] == players[i + 1..];
  }

  lemma {:induction false} HeldHas(players: seq<Player>, k: nat, id: int)
    requires k < |players|
    ensures Held(players, id) >= HeldBy(players[k], id)
  {
    if k > 0 {
      HeldHas(players[1..], k - 1, id);
    }
  }

  /** Invariant and single-player view are the same thing. */
  lemma Focus(lib: Library, w: World, i: nat)
    requires Inv(lib, w) && i < |w.players|
    ensures One(lib, w.cache, w.players[i], w.players[..i] + w.players[i + 1..])
  {
    hide WellFormed, Locks, Held, HeldBy, PlayerOk;
    forall id ensures Held(w.players, id) == Held(w.players[..i] + w.players[i + 1..], id) + HeldBy(w.players[i], id) {
      assert w.players[i := w.players[i]] == w.players;
      HeldSplit(w.players, i, w.players[i], id);
    }
  }

  /** A player whose buffers stay live stays well formed. */
  lemma OthersOk(lib: Library, c: Cache, c2: Cache, rest: seq<Player>, k: nat)
    requires k < |rest| && PlayerOk(lib, c, rest[k]) && StaysLive(rest, c, c2)
    ensures PlayerOk(lib, c2, rest[k])
  {
    hide Live, Held;
    if !rest[k].destroyed {
      HeldRefs(rest[k]);
    }
    HeldHas(rest, k, rest[k].current);
    HeldHas(rest, k, rest[k].next);
  }

  lemma Unfocus(lib: Library, w: World, i: nat, c: Cache, p: Player)
    requires Inv(lib, w) && i < |w.players|
    requires var rest := w.players[..i] + w.players[i + 1..]; One(lib, c, p, rest) && StaysLive(rest, w.cache, c)
    ensures Inv(lib, World(c, w.players[i := p]))
  {
    hide WellFormed, Locks, Held, HeldBy, PlayerOk, StaysLive;
    var rest := w.players[..i] + w.players[i + 1..];
    forall id ensures Held(w.players[i := p], id) == Held(rest, id) + HeldBy(p, id) {
      HeldSplit(w.players, i, p, id);
    }
    forall k | 0 <= k < |w.players| && k != i ensures PlayerOk(lib, c, w.players[k]) {
      var r := if k < i then k else k - 1;
      assert rest[r] == w.players[k];
      OthersOk(lib, w.cache, c, rest, r);
    }
  }

  lemma CacheStep(lib: Library, w: World, c: Cache)
    requires Inv(lib, w) && WellFormed(c) && Keeps(w.cache, c)
    requires forall id :: Locks(c, id) - B(id in c.pending) >= Locks(w.cache, id) - B(id in w.cache.pending)
    ensures Inv(lib, w.(cache := c))
  {
    hide WellFormed, Locks, Held, HeldBy, Keeps, Live;
    forall i | 0 <= i < |w.players| ensures PlayerOk(lib, c, w.players[i]) {
      Focus(lib, w, i);
      CarryFree(lib, w.cache, c, w.players[i], w.players[..i] + w.players[i + 1..]);
    }
  }

  lemma TimerStep(lib: Library, w: World, id: int)
    requires Inv(lib, w) && id in w.cache.pending
    ensures FireUnlock(w.cache, id).Ok? && Inv(lib, w.(cache := FireUnlock(w.cache, id).value))
  {
    hide WellFormed, Held, HeldBy, Keeps, PlayerOk;
    var c := w.cache.(pending := w.cache.pending - {id});
    assert WellFormed(c) by { PendingFree(w.cache, c.pending); }
    assert forall k :: Locks(c, k) == Locks(w.cache, k);
    UnlockKeeps(c, id);
    var c2 := UnlockNow(c, id).value;
    assert Keeps(w.cache, c2) by { KeepsPending(w.cache, c, c2); }
    CacheStep(lib, w, c2);
  }

  lemma PendingFree(c: Cache, pending: set<int>)
    requires WellFormed(c)
    ensures WellFormed(c.(pending := pending))
  {
  }

  lemma KeepsPending(a: Cache, b: Cache, c: Cache)
    requires a.buffers == b.buffers && Keeps(b, c)
    ensures Keeps(a, c)
  {
  }

  /** Every step from a state with the invariant succeeds - no unlock underflows, no locked or attached track
      is missing - and keeps the invariant. */
  lemma StepSafe(lib: Library, w: World, e: Event, now: int)
    requires NextLoads(lib) && Inv(lib, w) && Enabled(w, e)
    ensures Step(lib, w, e, now).Ok? && Inv(lib, Step(lib, w, e, now).value)
  {
    hide Inv, One, StaysLive, SetTrack, TickPlayer, DestroyPlayer, TrackEnd, FireUnlock, DecodeDone, DecodeFail, Load,
      Sweep;
    match e
    case SetTrackOn(i, id) =>
      Focus(lib, w, i);
      SetTrackFine(lib, w.cache, w.players[i], w.players[..i] + w.players[i + 1..], id, now);
      var r := SetTrack(lib, w.cache, w.players[i], id, now).value;
      Unfocus(lib, w, i, r.0, r.1);
    case Tick(i) =>
      Focus(lib, w, i);
      TickFine(lib, w.cache, w.players[i], w.players[..i] + w.players[i + 1..], now);
      var r := TickPlayer(lib, w.cache, w.players[i], now).value;
      Unfocus(lib, w, i, r.0, r.1);
    case Destroyed(i) =>
      Focus(lib, w, i);
      DestroyFine(lib, w.cache, w.players[i], w.players[..i] + w.players[i + 1..]);
      var r := DestroyPlayer(w.cache, w.players[i]).value;
      Unfocus(lib, w, i, r.0, r.1);
    case EndOfTrack(i) =>
      Focus(lib, w, i);
      TrackEndFine(lib, w.cache, w.players[i], w.players[..i] + w.players[i + 1..]);
      LiveRefl(w.players[..i] + w.players[i + 1..], w.cache);
      Unfocus(lib, w, i, w.cache, TrackEnd(w.players[i]));
      assert World(w.cache, w.players[i := TrackEnd(w.players[i])])
          == w.(players := w.players[i := TrackEnd(w.players[i])]);
    case EndModeSet(i, mode) => FlagStep(lib, w, i, w.players[i].(endMode := mode));
    case StreamsSet(i, active) => FlagStep(lib, w, i, w.players[i].(active := active));
    case UnlockTimer(id) => TimerStep(lib, w, id);
    case _ => CacheEventStep(lib, w, e, now);
  }

  lemma FlagStep(lib: Library, w: World, i: nat, p: Player)
    requires Inv(lib, w) && i < |w.players|
    requires p == w.players[i].(endMode := p.endMode, active := p.active)
    ensures Inv(lib, w.(players := w.players[i := p]))
  {
    hide WellFormed, Locks, Held;
    Focus(lib, w, i);
    LiveRefl(w.players[..i] + w.players[i + 1..], w.cache);
    assert One(lib, w.cache, p, w.players[..i] + w.players[i + 1..]) by {
      assert forall id :: HeldBy(p, id) == HeldBy(w.players[i], id);
    }
    Unfocus(lib, w, i, w.cache, p);
  }

  lemma CacheEventStep(lib: Library, w: World, e: Event, now: int)
    requires Inv(lib, w) && Enabled(w, e) && (e.LoadTrack? || e.Decoded? || e.DecodeFailed? || e.SweepTimer?)
    ensures Step(lib, w, e, now).Ok? && Inv(lib, Step(lib, w, e, now).value)
  {
    hide WellFormed, Held, HeldBy, Keeps, PlayerOk, Covered, DecodeDone, DecodeFail, Load, SweepFrom;
    match e {
      case LoadTrack(id, resolved, queued) => LoadKeeps(w.cache, id, resolved, queued, now);
      case Decoded(id, bytes) => DecodeDoneKeeps(w.cache, id, bytes, now);
      case DecodeFailed(id) => DecodeFailKeeps(w.cache, id, now);
      case SweepTimer(maxAge) => SweepKeeps(w.cache, now - maxAge, |w.cache.lru|);
    }
    var c := Step(lib, w, e, now).value.cache;
    CacheStep(lib, w, c);
  }

  // ---- Runs ----

  const IDLE_PLAYER := Player(false, 0, 0, 0, 0, 0, false, 0, Autoplay, false)

  function Start(limit: nat): World {
    World(Cache(map[], [], 0, limit, {}, 1), [IDLE_PLAYER, IDLE_PLAYER, IDLE_PLAYER, IDLE_PLAYER])
  }

  /** A run respects its callers' side of every step it reaches. */
  ghost predicate Feasible(lib: Library, w: World, events: seq<(Event, int)>)
    decreases |events|
  {
    events == [] || (Enabled(w, events[0].0)
      && (Step(lib, w, events[0].0, events[0].1).Ok? ==>
          Feasible(lib, Step(lib, w, events[0].0, events[0].1).value, events[1..])))
  }

  ghost function Run(lib: Library, w: World, events: seq<(Event, int)>): Outcome<World>
    requires Feasible(lib, w, events)
    decreases |events|
  {
    if events == [] then Ok(w)
    else
      var w1 :- Step(lib, w, events[0].0, events[0].1);
      Run(lib, w1, events[1..])
  }

  lemma {:induction false} RunSafe(lib: Library, w: World, events: seq<(Event, int)>)
    requires NextLoads(lib) && Inv(lib, w) && Feasible(lib, w, events)
    ensures Run(lib, w, events).Ok? && Inv(lib, Run(lib, w, events).value)
    decreases |events|
  {
    hide Inv, Step, Enabled;
    if events != [] {
      StepSafe(lib, w, events[0].0, events[0].1);
      RunSafe(lib, Step(lib, w, events[0].0, events[0].1).value, events[1..]);
    }
  }

  lemma {:induction false} IdleHoldsNothing(players: seq<Player>, id: int)
    requires forall i | 0 <= i < |players| :: players[i] == IDLE_PLAYER
    ensures Held(players, id) == 0
  {
    if players != [] {
      IdleHoldsNothing(players[1..], id);
    }
  }

  lemma StartCovered(lib: Library, limit: nat)
    ensures Inv(lib, Start(limit))
  {
    forall id ensures Held(Start(limit).players, id) == 0 {
      IdleHoldsNothing(Start(limit).players, id);
    }
  }

  /** From the start, no run aborts, and in every state it reaches each track's locks cover the players'
      current, next and advance-old references plus a scheduled unlock, each non-NULL buffer is the live,
      decoded cache entry of its track, and the memory counter is the sum over completed buffers. */
  lemma EveryRunIsSafe(lib: Library, limit: nat, events: seq<(Event, int)>)
    requires NextLoads(lib) && Feasible(lib, Start(limit), events)
    ensures Run(lib, Start(limit), events).Ok?
    ensures var w := Run(lib, Start(limit), events).value;
            && WellFormed(w.cache)
            && (forall id :: Locks(w.cache, id) >= Held(w.players, id) + B(id in w.cache.pending))
            && (forall i | 0 <= i < |w.players| ::
                  && (w.players[i].buffer != 0 ==> Live(w.cache, w.players[i].current, w.players[i].buffer))
                  && (w.players[i].nextBuffer != 0 ==> Live(w.cache, w.players[i].next, w.players[i].nextBuffer)))
  {
    hide WellFormed, Locks, Held, Live, Start, Step, Enabled;
    StartCovered(lib, limit);
    RunSafe(lib, Start(limit), events);
  }

  // ---- Where the assumptions matter ----

  /** Preloading aborts exactly when the next track is neither loadable nor already cached, other than as an
      unlocked failure: the load's result is ignored and the lock then misses the track. */
  lemma PreloadAbortsIff(lib: Library, c: Cache, p: Player, now: int)
    requires WellFormed(c) && p.endMode != Repeat && NextTrack(lib, p.current) > 0
    ensures var n := NextTrack(lib, p.current);
            var cached := n in c.buffers && (c.buffers[n].decode != Failed || c.buffers[n].locks > 0);
            Preload(lib, c, p, p.current, now).Abort? <==> n !in lib.loadable && !cached
  {
    hide WellFormed, Load;
    var n := NextTrack(lib, p.current);
    LoadKeeps(c, n, n in lib.loadable, true, now);
    var c1 := Load(c, n, n in lib.loadable, true, now).0;
    if n in c1.buffers {
      LockKeeps(c1, n);
      GetLockedKeeps(Lock(c1, n).value.0, n, now);
    }
  }

  /** The next turn moves on to another track: the end of a track that had no decoded follower is still flagged. */
  predicate MovesOn(p: Player) {
    p.active && p.advancePending && p.advanceOld == 0 && p.next > 0 && p.next != p.current
  }

  /** A track put on a player while its decode runs survives the next timer turn exactly when no deferred
      advance of the track before it is still flagged: setting a track does not clear that flag, and the turn
      then moves on to the track after the one just set. */
  lemma WaitingTrackStaysIff(lib: Library, w: World, i: nat, now: int)
    requires NextLoads(lib) && Inv(lib, w) && Exists(w, i)
    requires var p := w.players[i]; p.pendingTrack > 0 && StatusOf(w.cache, p.pendingTrack) == StillLoading
    ensures Step(lib, w, Tick(i), now).Ok?
    ensures Step(lib, w, Tick(i), now).value.players[i].current == w.players[i].current <==> !MovesOn(w.players[i])
  {
    hide Inv, One, TickPlayer, StatusOf;
    Focus(lib, w, i);
    WaitingTurn(lib, w.cache, w.players[i], w.players[..i] + w.players[i + 1..], now);
  }

  lemma WaitingTurn(lib: Library, c: Cache, p: Player, rest: seq<Player>, now: int)
    requires NextLoads(lib) && One(lib, c, p, rest) && !p.destroyed
    requires p.pendingTrack > 0 && StatusOf(c, p.pendingTrack) == StillLoading
    ensures TickPlayer(lib, c, p, now).Ok?
    ensures TickPlayer(lib, c, p, now).value.1.current == p.current <==> !MovesOn(p)
  {
    WaitingRefs(lib, c, p, rest);
    hide One, SetTrack, Preload, Load, DeferOld, GetLocked, Lock, UnlockNow;
    TickFine(lib, c, p, rest, now);
    AttachFine(lib, c, p, rest, now);
    var (c2, p2) := TryAttachNext(c, p, now).value;
    WaitingPoll(lib, c, p, rest, now);
    AttachKeepsTrack(c, p, now);
    hide TryAttachNext, PollPending, StatusOf;
    AdvanceMoves(lib, c2, p2, rest, now);
  }

  lemma WaitingRefs(lib: Library, c: Cache, p: Player, rest: seq<Player>)
    requires One(lib, c, p, rest) && !p.destroyed && p.pendingTrack > 0
    ensures p.buffer == 0 && p.current == p.pendingTrack
  {
  }

  lemma WaitingPoll(lib: Library, c: Cache, p: Player, rest: seq<Player>, now: int)
    requires p.pendingTrack > 0 && StatusOf(c, p.pendingTrack) == StillLoading
    ensures PollPending(c, p, now) == Ok((c, p))
  {
  }

  lemma AttachKeepsTrack(c: Cache, p: Player, now: int)
    requires TryAttachNext(c, p, now).Ok?
    ensures var p2 := TryAttachNext(c, p, now).value.1; p2 == p.(nextBuffer := p2.nextBuffer)
    ensures StatusOf(c, p.next) == StillLoading ==> TryAttachNext(c, p, now).value.0 == c
  {
    hide GetLocked, StatusOf;
  }

  /** Where a finished advance leaves the current track of a player whose track is not decoded. */
  lemma AdvanceMoves(lib: Library, c: Cache, p: Player, rest: seq<Player>, now: int)
    requires NextLoads(lib) && One(lib, c, p, rest) && !p.destroyed && p.buffer == 0 && p.current > 0
    requires p.next == p.current ==> StatusOf(c, p.next) == StillLoading
    ensures HandleAdvance(lib, c, p, now).Ok?
    ensures HandleAdvance(lib, c, p, now).value.1.current == p.current <==> !MovesOn(p)
  {
    hide Load, Preload, One, SetTrack, DeferOld, StatusOf;
    AdvanceFine(lib, c, p, rest, now);
    var p1 := p.(advancePending := false, advanceOld := 0);
    if p.advancePending && p.advanceOld == 0 && p.next > 0 {
      assert One(lib, c, p1, rest) by { OneFlags(lib, c, p, p1, rest); }
      HeldRefs(p1);
      LoadOne(lib, c, p1, rest, p.next, p.next in lib.loadable, now);
      var c1 := Load(c, p.next, p.next in lib.loadable, true, now).0;
      SetTrackFine(lib, c1, p1, rest, p.next, now);
      if p.active {
        SetTrackMoves(lib, c1, p1, p.next, now);
        if p.next == p.current {
          LoadWaits(c, p.next, p.next in lib.loadable, now);
        }
      } else {
        InactiveStays(lib, c1, p1, p.next, now);
      }
    } else if p.advancePending {
      PreloadKeepsCurrent(lib, DeferOld(c, p.advanceOld), p1, p.current, now);
    }
  }

  lemma OneFlags(lib: Library, c: Cache, p: Player, p1: Player, rest: seq<Player>)
    requires One(lib, c, p, rest) && p.advanceOld == 0 && p1 == p.(advancePending := false)
    ensures One(lib, c, p1, rest)
  {
    hide WellFormed, Held, Locks;
    assert forall id :: HeldBy(p1, id) == HeldBy(p, id);
  }

  lemma PreloadKeepsCurrent(lib: Library, c: Cache, p: Player, current: int, now: int)
    ensures Preload(lib, c, p, current, now).Ok? ==> Preload(lib, c, p, current, now).value.1.current == p.current
  {
    hide Load, Lock, GetLocked;
  }

  lemma LoadWaits(c: Cache, id: int, resolved: bool, now: int)
    requires id > 0 && StatusOf(c, id) == StillLoading
    ensures StatusOf(Load(c, id, resolved, true, now).0, id) == StillLoading
  {
  }

  lemma InactiveStays(lib: Library, c: Cache, p: Player, id: int, now: int)
    requires !p.active
    ensures SetTrack(lib, c, p, id, now) == Ok((c, p))
  {
  }

  lemma DeferKeepsStatus(c: Cache, was: int, id: int)
    ensures StatusOf(DeferOld(c, was), id) == StatusOf(c, id)
  {
  }

  lemma SetTrackMoves(lib: Library, c: Cache, p: Player, id: int, now: int)
    requires id > 0 && p.active && SetTrack(lib, c, p, id, now).Ok?
    ensures SetTrack(lib, c, p, id, now).value.1.current == if StatusOf(c, id) == HasFailed then 0 else id
  {
    DeferKeepsStatus(c, p.current, id);
    DeferKeepsStatus(DeferOld(c, p.current), p.next, id);
    hide Preload, GetLocked, UnlockNow, DeferOld, StatusOf;
    var c1 := DeferOld(DeferOld(c, p.current), p.next);
    var p1 := p.(buffer := 0, nextBuffer := 0, pendingTrack := 0, current := id, next := 0);
    var (c2, status) := Lock(c1, id).value;
    PreloadKeepsCurrent(lib, c2, p1.(pendingTrack := id), id, now);
    if status == IsReady {
      var (c3, h) := GetLocked(c2, id, now).value;
      PreloadKeepsCurrent(lib, c3, p1.(buffer := h), id, now);
    }
  }

  // ---- A stale advance, from the start ----

  /** One more event at the end of a run. */
  lemma RunPush(lib: Library, w: World, events: seq<(Event, int)>, v: World, e: Event, now: int)
    returns (events2: seq<(Event, int)>, v2: World)
    requires Feasible(lib, w, events) && Run(lib, w, events) == Ok(v) && Enabled(v, e) && Step(lib, v, e, now).Ok?
    ensures v2 == Step(lib, v, e, now).value
    ensures Feasible(lib, w, events2) && Run(lib, w, events2) == Ok(v2)
    decreases |events|
  {
    hide Step, Enabled;
    if events == [] {
      events2, v2 := [(e, now)], Step(lib, v, e, now).value;
      assert events2[1..] == [];
    } else {
      var rest;
      rest, v2 := RunPush(lib, Step(lib, w, events[0].0, events[0].1).value, events[1..], v, e, now);
      events2 := [events[0]] + rest;
      assert events2[1..] == rest;
    }
  }

  const ALBUMS := Library(map[1 := 2, 5 := 6], {2, 6})

  /** Track 1 plays out before its next track is decoded. */
  lemma FirstTrackEnds(limit: nat) returns (events: seq<(Event, int)>, w: World)
    requires limit > 0
    ensures Feasible(ALBUMS, Start(limit), events) && Run(ALBUMS, Start(limit), events) == Ok(w)
    ensures w.players == Start(limit).players[0 := Player(true, 1, 2, 0, 0, 0, true, 0, Autoplay, false)]
    ensures w.cache.buffers == map[1 := Buffer(1, 1, Ready, 1, 0), 2 := Buffer(2, 1, Loading, 0, 0)]
      && w.cache.pending == {}
  {
    hide Feasible, Run;
    events, w := [], Start(limit);
    assert Feasible(ALBUMS, w, []) && Run(ALBUMS, w, []) == Ok(w) by { EmptyRun(ALBUMS, w); }
    events, w := RunPush(ALBUMS, Start(limit), events, w, StreamsSet(0, true), 0);
    events, w := RunPush(ALBUMS, Start(limit), events, w, LoadTrack(1, true, true), 0);
    events, w := RunPush(ALBUMS, Start(limit), events, w, Decoded(1, 1), 0);
    events, w := RunPush(ALBUMS, Start(limit), events, w, SetTrackOn(0, 1), 0);
    events, w := RunPush(ALBUMS, Start(limit), events, w, EndOfTrack(0), 0);
  }

  /** Then track 5 is chosen and still decoding. */
  lemma StaleAdvance(limit: nat) returns (events: seq<(Event, int)>, w: World)
    requires limit > 0
    ensures NextLoads(ALBUMS) && Feasible(ALBUMS, Start(limit), events) && Run(ALBUMS, Start(limit), events) == Ok(w)
    ensures Exists(w, 0)
    ensures var p := w.players[0];
            && p.active && p.pendingTrack == p.current == 5 && p.next == 6 && StatusOf(w.cache, 5) == StillLoading
            && p.advancePending && p.advanceOld == 0
  {
    hide Feasible, Run;
    events, w := FirstTrackEnds(limit);
    events, w := RunPush(ALBUMS, Start(limit), events, w, LoadTrack(5, true, true), 0);
    events, w := RunPush(ALBUMS, Start(limit), events, w, SetTrackOn(0, 5), 0);
  }

  lemma EmptyRun(lib: Library, w: World)
    ensures Feasible(lib, w, []) && Run(lib, w, []) == Ok(w)
  {
  }

  /** That state is reached from the start, and the next timer turn drops the chosen track 5. */
  lemma ChosenTrackIsDropped(limit: nat) returns (events: seq<(Event, int)>, w: World)
    requires limit > 0
    ensures Feasible(ALBUMS, Start(limit), events) && Run(ALBUMS, Start(limit), events) == Ok(w)
    ensures Exists(w, 0) && w.players[0].current == 5
    ensures Step(ALBUMS, w, Tick(0), 0).Ok? && Step(ALBUMS, w, Tick(0), 0).value.players[0].current != 5
  {
    hide Feasible, Run, Inv, Step, StatusOf, Start;
    events, w := StaleAdvance(limit);
    StartCovered(ALBUMS, limit);
    RunSafe(ALBUMS, Start(limit), events);
    WaitingTrackStaysIff(ALBUMS, w, 0, 0);
  }
}
