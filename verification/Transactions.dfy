// Nested and batch transactions on one database handle shared by workers under a recursive lock.
// A call runs from acquiring the lock to its last statement without interruption, so each is one step.

module Transactions {

  /** A statement the handle issued, and whether SQLite accepted it. */
  datatype Sql = Begin | BeginFailed | Commit | CommitFailed | Rollback

  datatype ResultCode = Success | Internal

  const NOBODY: int := -1

  /** The handle: the lock's owner and recursion count, the transaction flag, its depth, and what was issued. */
  datatype Handle = Handle(owner: int, lockCount: nat, inTransaction: bool, txnDepth: nat, issued: seq<Sql>)

  // ---- The calls ----

  /** The lock is free, or already held by `t`: otherwise the call blocks. */
  predicate CanLock(h: Handle, t: int) {
    h.owner == NOBODY || h.owner == t
  }

  function Locked(h: Handle, t: int): Handle {
    h.(owner := t, lockCount := h.lockCount + 1)
  }

  function Unlocked(h: Handle): Handle
    requires h.lockCount > 0
  {
    h.(owner := if h.lockCount == 1 then NOBODY else h.owner, lockCount := h.lockCount - 1)
  }

  /** Inside a transaction only the depth grows; the lock stays with the caller on success. */
  function BeginTransaction(h: Handle, t: int, sqlOk: bool): (Handle, ResultCode)
    requires CanLock(h, t)
  {
    var l := Locked(h, t);
    if l.txnDepth > 0 then (l.(txnDepth := l.txnDepth + 1), Success)
    else if !sqlOk then (Unlocked(l.(issued := l.issued + [BeginFailed])), Internal)
    else (l.(issued := l.issued + [Begin], inTransaction := true, txnDepth := 1), Success)
  }

  function CommitTransaction(h: Handle, sqlOk: bool): (Handle, ResultCode)
    requires h.lockCount > 0
  {
    if !h.inTransaction then (h, Internal)
    else if h.txnDepth > 1 then (Unlocked(h.(txnDepth := h.txnDepth - 1)), Success)
    else
      var done := h.(inTransaction := false, txnDepth := 0);
      if sqlOk then (Unlocked(done.(issued := h.issued + [Commit])), Success)
      else (Unlocked(done.(issued := h.issued + [CommitFailed, Rollback])), Internal)
  }

  function RollbackTransaction(h: Handle): (Handle, ResultCode)
    requires h.lockCount > 0
  {
    if !h.inTransaction then (h, Internal)
    else if h.txnDepth > 1 then (Unlocked(h.(txnDepth := h.txnDepth - 1)), Success)
    else (Unlocked(h.(inTransaction := false, txnDepth := 0, issued := h.issued + [Rollback])), Success)
  }

  /** Opens the outer transaction and lets go of the lock, so that workers can take it in turn. */
  function BeginBatch(h: Handle, t: int, sqlOk: bool): (Handle, ResultCode)
    requires CanLock(h, t)
  {
    var l := Locked(h, t);
    if !sqlOk then (Unlocked(l.(issued := l.issued + [BeginFailed])), Internal)
    else (Unlocked(l.(issued := l.issued + [Begin], inTransaction := true, txnDepth := 1)), Success)
  }

  function CommitBatch(h: Handle, t: int, sqlOk: bool): (Handle, ResultCode)
    requires CanLock(h, t)
  {
    var l := Locked(h, t);
    var done := l.(inTransaction := false, txnDepth := 0);
    if sqlOk then (Unlocked(done.(issued := l.issued + [Commit])), Success)
    else (Unlocked(done.(issued := l.issued + [CommitFailed, Rollback])), Internal)
  }

  // ---- Callers ----

  /** `inside` counts the sections each caller has open, by the results it was given; `batch` says that a batch
      is open. */
  datatype World = World(h: Handle, inside: map<int, nat>, batch: bool)

  datatype Event =
    | Enter(t: int, sqlOk: bool)
    | Leave(t: int, commit: bool, sqlOk: bool)
    | OpenBatch(t: int, sqlOk: bool)
    | CloseBatch(t: int, sqlOk: bool)

  function Inside(w: World, t: int): nat {
    if t in w.inside then w.inside[t] else 0
  }

  /** Callers bracket their sections; a batch is closed before the next one is opened, and both happen outside the
      caller's own sections; a call that takes the lock waits until it can have it. A batch that could not be
      opened may still be closed: SQLite then refuses the COMMIT. */
  predicate Enabled(w: World, e: Event) {
    e.t != NOBODY &&
    match e
    case Enter(t, _) => CanLock(w.h, t)
    case Leave(t, _, _) => Inside(w, t) > 0
    case OpenBatch(t, _) => CanLock(w.h, t) && Inside(w, t) == 0 && !w.batch
    case CloseBatch(t, sqlOk) => CanLock(w.h, t) && Inside(w, t) == 0 && (sqlOk ==> w.batch)
  }

  function Step(w: World, e: Event): World
    requires Enabled(w, e) && (e.Leave? ==> w.h.lockCount > 0)
  {
    match e
    case Enter(t, sqlOk) =>
      var (h, code) := BeginTransaction(w.h, t, sqlOk);
      w.(h := h, inside := if code == Success then w.inside[t := Inside(w, t) + 1] else w.inside)
    case Leave(t, commit, sqlOk) =>
      var (h, _) := if commit then CommitTransaction(w.h, sqlOk) else RollbackTransaction(w.h);
      w.(h := h, inside := w.inside[t := Inside(w, t) - 1])
    case OpenBatch(t, sqlOk) =>
      var (h, code) := BeginBatch(w.h, t, sqlOk);
      w.(h := h, batch := code == Success)
    case CloseBatch(t, sqlOk) =>
      w.(h := CommitBatch(w.h, t, sqlOk).0, batch := false)
  }

  // ---- What every step keeps ----

  /** SQLite has a transaction open after these statements. */
  function OpenAfter(issued: seq<Sql>): bool {
    if issued == [] then false
    else
      match issued[|issued| - 1]
      case Begin => true
      case Commit => false
      case Rollback => false
      case _ => OpenAfter(issued[..|issued| - 1])
  }

  /** No BEGIN inside a transaction, no accepted COMMIT outside one, and no ROLLBACK outside one but after a
      COMMIT that failed. */
  predicate WellBracketed(issued: seq<Sql>) {
    issued != [] ==>
      var front := issued[..|issued| - 1];
      WellBracketed(front)
          && Fitting(OpenAfter(front), front != [] && front[|front| - 1] == CommitFailed, issued[|issued| - 1])
  }

  predicate Fitting(open: bool, commitFailed: bool, s: Sql) {
    match s
    case Begin => !open
    case BeginFailed => !open
    case Commit => open
    case CommitFailed => true
    case Rollback => open || commitFailed
  }

  /** Only the lock's owner is inside sections, as many as its lock count; the depth is one more in a batch; and
      the flag tells whether SQLite has a transaction open. */
  ghost predicate Inv(w: World) {
    && (w.h.owner == NOBODY <==> w.h.lockCount == 0)
    && (forall t | t != NOBODY :: Inside(w, t) == if t == w.h.owner then w.h.lockCount else 0)
    && w.h.txnDepth == w.h.lockCount + (if w.batch then 1 else 0)
    && (w.h.inTransaction <==> w.h.txnDepth > 0)
    && (w.h.inTransaction <==> OpenAfter(w.h.issued))
    && WellBracketed(w.h.issued)
  }

  lemma Issue(issued: seq<Sql>, s: Sql)
    ensures OpenAfter(issued + [s]) ==
      if s == Begin then true else if s == Commit || s == Rollback then false else OpenAfter(issued)
    ensures WellBracketed(issued) && Fitting(OpenAfter(issued), false, s) ==> WellBracketed(issued + [s])
  {
    assert (issued + [s])[..|issued|] == issued;
  }

  lemma IssueFailedCommit(issued: seq<Sql>)
    ensures !OpenAfter(issued + [CommitFailed, Rollback])
    ensures WellBracketed(issued) ==> WellBracketed(issued + [CommitFailed, Rollback])
  {
    var more := issued + [CommitFailed, Rollback];
    assert more[..|more| - 1] == issued + [CommitFailed];
    Issue(issued, CommitFailed);
  }

  lemma OthersSame(w: World, v: World, t: int)
    requires forall k | k != t :: (k in v.inside <==> k in w.inside) && (k in w.inside ==> v.inside[k] == w.inside[k])
    ensures forall k | k != t :: Inside(v, k) == Inside(w, k)
  {
  }

  lemma EnterKeeps(w: World, t: int, sqlOk: bool)
    requires Inv(w) && Enabled(w, Enter(t, sqlOk))
    ensures Inv(Step(w, Enter(t, sqlOk)))
  {
    hide OpenAfter, WellBracketed;
    Issue(w.h.issued, Begin);
    Issue(w.h.issued, BeginFailed);
    assert Inside(w, t) == w.h.lockCount;
    OthersSame(w, Step(w, Enter(t, sqlOk)), t);
  }

  /** A section that is left is one fewer; only the outermost one outside a batch issues anything. */
  lemma LeaveIs(w: World, t: int, commit: bool, sqlOk: bool)
    requires Inv(w) && Enabled(w, Leave(t, commit, sqlOk))
    ensures t == w.h.owner && w.h.lockCount == Inside(w, t) > 0
    ensures var v := Step(w, Leave(t, commit, sqlOk));
            && v.batch == w.batch && v.inside == w.inside[t := w.h.lockCount - 1]
            && v.h.owner == (if w.h.lockCount == 1 then NOBODY else t) && v.h.lockCount == w.h.lockCount - 1
            && v.h.txnDepth == w.h.txnDepth - 1 && (v.h.inTransaction <==> v.h.txnDepth > 0)
            && v.h.issued == w.h.issued + LeaveIssues(w, commit, sqlOk)
  {
    hide OpenAfter, WellBracketed;
    assert Inside(w, t) == if t == w.h.owner then w.h.lockCount else 0;
  }

  function LeaveIssues(w: World, commit: bool, sqlOk: bool): seq<Sql> {
    if w.h.txnDepth != 1 then []
    else if !commit then [Rollback]
    else if sqlOk then [Commit]
    else [CommitFailed, Rollback]
  }

  lemma LeaveLog(w: World, commit: bool, sqlOk: bool)
    requires w.h.txnDepth > 0 && OpenAfter(w.h.issued) && WellBracketed(w.h.issued)
    ensures var issued := w.h.issued + LeaveIssues(w, commit, sqlOk);
            WellBracketed(issued) && (OpenAfter(issued) <==> w.h.txnDepth > 1)
  {
    hide OpenAfter, WellBracketed;
    if w.h.txnDepth != 1 {
      assert w.h.issued + [] == w.h.issued;
    } else if !commit {
      Issue(w.h.issued, Rollback);
    } else if sqlOk {
      Issue(w.h.issued, Commit);
    } else {
      IssueFailedCommit(w.h.issued);
    }
  }

  /** Who is inside, after the owner left one section. */
  lemma LeaveInside(w: World, v: World, t: int)
    requires Inv(w) && t != NOBODY && t == w.h.owner && w.h.lockCount > 0
    requires v.inside == w.inside[t := w.h.lockCount - 1]
    requires v.h.owner == (if w.h.lockCount == 1 then NOBODY else t) && v.h.lockCount == w.h.lockCount - 1
    ensures forall k | k != NOBODY :: Inside(v, k) == if k == v.h.owner then v.h.lockCount else 0
  {
    hide OpenAfter, WellBracketed;
    OthersSame(w, v, t);
  }

  lemma LeaveKeeps(w: World, t: int, commit: bool, sqlOk: bool)
    requires Inv(w) && Enabled(w, Leave(t, commit, sqlOk))
    ensures w.h.lockCount > 0 && Inv(Step(w, Leave(t, commit, sqlOk)))
  {
    hide OpenAfter, WellBracketed, Step, LeaveIssues, Inside;
    LeaveIs(w, t, commit, sqlOk);
    LeaveLog(w, commit, sqlOk);
    LeaveInside(w, Step(w, Leave(t, commit, sqlOk)), t);
  }

  lemma OpenIs(w: World, t: int, sqlOk: bool)
    requires Enabled(w, OpenBatch(t, sqlOk)) && w.h.owner == NOBODY && w.h.lockCount == 0
    ensures Step(w, OpenBatch(t, sqlOk)).inside == w.inside && Step(w, OpenBatch(t, sqlOk)).batch == sqlOk
    ensures Step(w, OpenBatch(t, sqlOk)).h ==
      if sqlOk then Handle(NOBODY, 0, true, 1, w.h.issued + [Begin]) else w.h.(issued := w.h.issued + [BeginFailed])
  {
  }

  lemma CloseIs(w: World, t: int, sqlOk: bool)
    requires Enabled(w, CloseBatch(t, sqlOk)) && w.h.owner == NOBODY && w.h.lockCount == 0
    ensures Step(w, CloseBatch(t, sqlOk)).inside == w.inside && !Step(w, CloseBatch(t, sqlOk)).batch
    ensures Step(w, CloseBatch(t, sqlOk)).h ==
      Handle(NOBODY, 0, false, 0, w.h.issued + if sqlOk then [Commit] else [CommitFailed, Rollback])
  {
  }

  /** A caller outside its sections that can have the lock finds it free. */
  lemma LockFree(w: World, t: int)
    requires Inv(w) && t != NOBODY && Inside(w, t) == 0 && CanLock(w.h, t)
    ensures w.h.owner == NOBODY && w.h.lockCount == 0
  {
  }

  lemma OpenKeeps(w: World, t: int, sqlOk: bool)
    requires Inv(w) && Enabled(w, OpenBatch(t, sqlOk))
    ensures Inv(Step(w, OpenBatch(t, sqlOk)))
  {
    hide OpenAfter, WellBracketed, Step;
    LockFree(w, t);
    OpenIs(w, t, sqlOk);
    Issue(w.h.issued, if sqlOk then Begin else BeginFailed);
    OthersSame(w, Step(w, OpenBatch(t, sqlOk)), t);
  }

  lemma CloseKeeps(w: World, t: int, sqlOk: bool)
    requires Inv(w) && Enabled(w, CloseBatch(t, sqlOk))
    ensures Inv(Step(w, CloseBatch(t, sqlOk)))
  {
    hide OpenAfter, WellBracketed, Step;
    LockFree(w, t);
    CloseIs(w, t, sqlOk);
    if sqlOk {
      Issue(w.h.issued, Commit);
    } else {
      IssueFailedCommit(w.h.issued);
    }
    OthersSame(w, Step(w, CloseBatch(t, sqlOk)), t);
  }

  lemma StepKeeps(w: World, e: Event)
    requires Inv(w) && Enabled(w, e)
    ensures e.Leave? ==> w.h.lockCount > 0
    ensures Inv(Step(w, e))
  {
    hide Inv, Step;
    match e
    case Enter(t, sqlOk) => EnterKeeps(w, t, sqlOk);
    case Leave(t, commit, sqlOk) => LeaveKeeps(w, t, commit, sqlOk);
    case OpenBatch(t, sqlOk) => OpenKeeps(w, t, sqlOk);
    case CloseBatch(t, sqlOk) => CloseKeeps(w, t, sqlOk);
  }

  // ---- Runs ----

  const START := World(Handle(NOBODY, 0, false, 0, []), map[], false)

  /** Every call is made when its caller may make it. */
  ghost predicate Feasible(w: World, events: seq<Event>)
    requires Inv(w)
    decreases |events|
  {
    events == [] || (Enabled(w, events[0]) && (StepKeeps(w, events[0]); Feasible(Step(w, events[0]), events[1..])))
  }

  ghost function Run(w: World, events: seq<Event>): (v: World)
    requires Inv(w) && Feasible(w, events)
    ensures Inv(v)
    decreases |events|
  {
    if events == [] then w
    else
      StepKeeps(w, events[0]);
      Run(Step(w, events[0]), events[1..])
  }

  /** Whatever workers and batches interleave: at most one caller is inside sections, and it holds the lock; in a
      batch with nobody inside, the depth is 1; and the statements issued nest properly. */
  lemma EveryRunExcludes(events: seq<Event>)
    requires Feasible(START, events)
    ensures var w := Run(START, events);
            && (forall t, u | t != NOBODY && u != NOBODY && Inside(w, t) > 0 && Inside(w, u) > 0 :: t == u == w.h.owner)
            && ((forall t | t != NOBODY :: Inside(w, t) == 0) && w.batch ==> w.h.txnDepth == 1)
            && WellBracketed(w.h.issued)
  {
    StartHolds();
    hide Run, Feasible, WellBracketed, Inv;
    Excludes(Run(START, events));
  }

  lemma StartHolds()
    ensures Inv(START)
  {
  }

  lemma Excludes(w: World)
    requires Inv(w)
    ensures forall t, u | t != NOBODY && u != NOBODY && Inside(w, t) > 0 && Inside(w, u) > 0 :: t == u == w.h.owner
    ensures (forall t | t != NOBODY :: Inside(w, t) == 0) && w.batch ==> w.h.txnDepth == 1
    ensures WellBracketed(w.h.issued)
  {
    hide WellBracketed;
    if w.h.owner != NOBODY {
      assert Inside(w, w.h.owner) == w.h.lockCount > 0;
    }
  }

  /** A statement is issued only while nobody else is inside a section, and the outer COMMIT of a batch while
      nobody is. */
  lemma StatementsAlone(w: World, e: Event)
    requires Inv(w) && Enabled(w, e) && (e.Leave? ==> w.h.lockCount > 0)
    requires Step(w, e).h.issued != w.h.issued
    ensures forall u | u != NOBODY && u != e.t :: Inside(w, u) == 0
    ensures e.CloseBatch? ==> Inside(w, e.t) == 0
    ensures e.Leave? ==> Inside(w, e.t) == 1 && !w.batch
  {
    hide WellBracketed, OpenAfter;
    assert Inside(w, e.t) == if e.t == w.h.owner then w.h.lockCount else 0;
  }

  predicate IsWorker(e: Event) {
    e.Enter? || e.Leave?
  }

  /** Inside a batch, workers' sections issue nothing. */
  lemma {:induction false} WorkersIssueNothing(w: World, events: seq<Event>)
    requires Inv(w) && w.batch && Feasible(w, events) && forall i | 0 <= i < |events| :: IsWorker(events[i])
    ensures var v := Run(w, events); v.batch && v.h.issued == w.h.issued
    decreases |events|
  {
    if events != [] {
      var e := events[0];
      StepKeeps(w, e);
      WorkerInBatch(w, e);
      hide Inv, Step, Enabled;
      assert IsWorker(e);
      WorkersIssueNothing(Step(w, e), events[1..]);
    }
  }

  lemma WorkerInBatch(w: World, e: Event)
    requires Inv(w) && Enabled(w, e) && (e.Leave? ==> w.h.lockCount > 0) && w.batch && IsWorker(e)
    ensures Step(w, e).batch && Step(w, e).h.issued == w.h.issued
  {
    hide WellBracketed, OpenAfter;
    assert Inside(w, e.t) == if e.t == w.h.owner then w.h.lockCount else 0;
  }

  lemma {:induction false} RunAppend(w: World, a: seq<Event>, b: seq<Event>)
    requires Inv(w) && Feasible(w, a + b)
    ensures Feasible(w, a) && Feasible(Run(w, a), b) && Run(w, a + b) == Run(Run(w, a), b)
    decreases |a|
  {
    hide Inv, Step, Enabled;
    if a == [] {
      assert a + b == b;
    } else {
      assert (a + b)[1..] == a[1..] + b;
      StepKeeps(w, a[0]);
      RunAppend(Step(w, a[0]), a[1..], b);
    }
  }

  lemma RunOne(w: World, e: Event)
    requires Inv(w) && Feasible(w, [e])
    ensures Enabled(w, e) && (e.Leave? ==> w.h.lockCount > 0) && Run(w, [e]) == Step(w, e)
  {
    hide Step, Inv;
    StepKeeps(w, e);
    assert [e][1..] == [];
  }

  /** Opening a batch, any interleaving of workers with nested sections that commit or roll back, and closing it:
      exactly one BEGIN and one COMMIT. */
  lemma BatchIsOneTransaction(w: World, t: int, workers: seq<Event>, u: int)
    requires Inv(w) && forall i | 0 <= i < |workers| :: IsWorker(workers[i])
    requires Feasible(w, [OpenBatch(t, true)] + (workers + [CloseBatch(u, true)]))
    ensures var v := Run(w, [OpenBatch(t, true)] + (workers + [CloseBatch(u, true)]));
            && v.h.issued == w.h.issued + [Begin, Commit]
            && !v.batch && v.h.txnDepth == 0 && v.h.owner == NOBODY
  {
    hide Feasible, Run, WellBracketed, OpenAfter, Step;
    RunAppend(w, [OpenBatch(t, true)], workers + [CloseBatch(u, true)]);
    RunOne(w, OpenBatch(t, true));
    LockFree(w, t);
    OpenIs(w, t, true);
    var open := Step(w, OpenBatch(t, true));
    RunAppend(open, workers, [CloseBatch(u, true)]);
    WorkersIssueNothing(open, workers);
    var end := Run(open, workers);
    RunOne(end, CloseBatch(u, true));
    LockFree(end, u);
    CloseIs(end, u, true);
    assert w.h.issued + [Begin] + [Commit] == w.h.issued + [Begin, Commit];
  }

  // ---- The handle as it runs ----

  class Connection {
    var owner: int
    var lockCount: nat
    var inTransaction: bool
    var txnDepth: nat
    var issued: seq<Sql>

    constructor ()
      ensures State() == START.h
    {
      owner, lockCount, inTransaction, txnDepth, issued := NOBODY, 0, false, 0, [];
    }

    ghost function State(): Handle
      reads this
    {
      Handle(owner, lockCount, inTransaction, txnDepth, issued)
    }

    method DbLock(t: int)
      requires CanLock(State(), t)
      modifies this`owner, this`lockCount
      ensures State() == Locked(old(State()), t)
    {
      owner, lockCount := t, lockCount + 1;
    }

    method DbUnlock()
      requires lockCount > 0
      modifies this`owner, this`lockCount
      ensures State() == Unlocked(old(State()))
    {
      lockCount := lockCount - 1;
      if lockCount == 0 {
        owner := NOBODY;
      }
    }

    method DbBeginTransaction(t: int, sqlOk: bool) returns (code: ResultCode)
      requires CanLock(State(), t)
      modifies this
      ensures (State(), code) == BeginTransaction(old(State()), t, sqlOk)
    {
      DbLock(t);
      if txnDepth > 0 {
        txnDepth := txnDepth + 1;
        return Success;
      }
      if !sqlOk {
        issued := issued + [BeginFailed];
        DbUnlock();
        return Internal;
      }
      issued := issued + [Begin];
      inTransaction := true;
      txnDepth := 1;
      code := Success;
    }

    method DbCommit(sqlOk: bool) returns (code: ResultCode)
      requires lockCount > 0
      modifies this
      ensures (State(), code) == CommitTransaction(old(State()), sqlOk)
    {
      if !inTransaction {
        return Internal;
      }
      if txnDepth > 1 {
        txnDepth := txnDepth - 1;
        DbUnlock();
        return Success;
      }
      if !sqlOk {
        issued := issued + [CommitFailed, Rollback];
        inTransaction, txnDepth := false, 0;
        DbUnlock();
        return Internal;
      }
      issued := issued + [Commit];
      inTransaction, txnDepth := false, 0;
      DbUnlock();
      code := Success;
    }

    method DbRollback() returns (code: ResultCode)
      requires lockCount > 0
      modifies this
      ensures (State(), code) == RollbackTransaction(old(State()))
    {
      if !inTransaction {
        return Internal;
      }
      if txnDepth > 1 {
        txnDepth := txnDepth - 1;
        DbUnlock();
        return Success;
      }
      issued := issued + [Rollback];
      inTransaction, txnDepth := false, 0;
      DbUnlock();
      code := Success;
    }

    method DbBeginBatch(t: int, sqlOk: bool) returns (code: ResultCode)
      requires CanLock(State(), t)
      modifies this
      ensures (State(), code) == BeginBatch(old(State()), t, sqlOk)
    {
      DbLock(t);
      if !sqlOk {
        issued := issued + [BeginFailed];
        DbUnlock();
        return Internal;
      }
      issued := issued + [Begin];
      inTransaction := true;
      txnDepth := 1;
      DbUnlock();
      code := Success;
    }

    method DbCommitBatch(t: int, sqlOk: bool) returns (code: ResultCode)
      requires CanLock(State(), t)
      modifies this
      ensures (State(), code) == CommitBatch(old(State()), t, sqlOk)
    {
      DbLock(t);
      issued := issued + if sqlOk then [Commit] else [CommitFailed, Rollback];
      inTransaction, txnDepth := false, 0;
      DbUnlock();
      code := if sqlOk then Success else Internal;
    }
  }
}
