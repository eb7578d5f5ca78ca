// What callers of the transaction calls are told, and which statements their sections issue.

module TransactionResults {
  import opened Transactions

  /** Taking a section fails only if SQLite refuses the outermost BEGIN, and then leaves the lock as it was; a
      section that was taken holds the lock once more and is one level deeper. */
  lemma EnterResult(w: World, t: int, sqlOk: bool)
    requires Inv(w) && Enabled(w, Enter(t, sqlOk))
    ensures var (h, code) := BeginTransaction(w.h, t, sqlOk);
            && (code == Success <==> sqlOk || Inside(w, t) > 0 || w.batch)
            && (code == Success ==> h.owner == t && h.lockCount == w.h.lockCount + 1 && h.txnDepth == w.h.txnDepth + 1)
            && (code == Internal ==> h.owner == w.h.owner && h.lockCount == w.h.lockCount && h.txnDepth == w.h.txnDepth)
  {
    hide WellBracketed, OpenAfter;
    assert Inside(w, t) == if t == w.h.owner then w.h.lockCount else 0;
  }

  /** Leaving a section fails exactly if it is an outermost one outside a batch whose COMMIT SQLite refuses; it is left
      all the same. */
  lemma LeaveResult(w: World, t: int, commit: bool, sqlOk: bool)
    requires Inv(w) && Enabled(w, Leave(t, commit, sqlOk))
    ensures w.h.lockCount > 0
    ensures var (h, code) := if commit then CommitTransaction(w.h, sqlOk) else RollbackTransaction(w.h);
            && (code == Internal <==> commit && !sqlOk && Inside(w, t) == 1 && !w.batch)
            && h.lockCount == Inside(w, t) - 1 && h.txnDepth == w.h.txnDepth - 1
  {
    hide WellBracketed, OpenAfter;
    assert Inside(w, t) == if t == w.h.owner then w.h.lockCount else 0;
  }

  /** Without a transaction there is nothing to commit or roll back: both calls fail and change nothing, not even the
      lock. */
  lemma NothingToLeave(h: Handle, sqlOk: bool)
    requires h.lockCount > 0 && !h.inTransaction
    ensures CommitTransaction(h, sqlOk) == (h, Internal) && RollbackTransaction(h) == (h, Internal)
  {
  }

  /** A batch opens and closes successfully exactly if SQLite accepts its statement; either way the lock is free
      afterwards. */
  lemma BatchResult(w: World, t: int, sqlOk: bool)
    requires Inv(w)
    ensures Enabled(w, OpenBatch(t, sqlOk)) ==>
      var (h, code) := BeginBatch(w.h, t, sqlOk);
      (code == Success <==> sqlOk) && h.owner == NOBODY && h.lockCount == 0 && h.txnDepth == if sqlOk then 1 else 0
    ensures Enabled(w, CloseBatch(t, sqlOk)) ==>
      var (h, code) := CommitBatch(w.h, t, sqlOk);
      (code == Success <==> sqlOk) && h.owner == NOBODY && h.lockCount == 0 && h.txnDepth == 0
  {
    hide WellBracketed, OpenAfter;
    if t != NOBODY && Inside(w, t) == 0 && CanLock(w.h, t) {
      LockFree(w, t);
    }
  }

  /** The statements of one call, as its caller sees them. */
  function Issues(w: World, e: Event): seq<Sql> {
    match e
    case Enter(t, sqlOk) => if Inside(w, t) > 0 || w.batch then [] else if sqlOk then [Begin] else [BeginFailed]
    case Leave(t, commit, sqlOk) =>
      if Inside(w, t) > 1 || w.batch then []
      else if !commit then [Rollback]
      else if sqlOk then [Commit]
      else [CommitFailed, Rollback]
    case OpenBatch(_, sqlOk) => if sqlOk then [Begin] else [BeginFailed]
    case CloseBatch(_, sqlOk) => if sqlOk then [Commit] else [CommitFailed, Rollback]
  }

  /** Only the outermost sections outside a batch, and the batch itself, issue statements: BEGIN when entered, and
      COMMIT or ROLLBACK as the caller asks, a refused COMMIT being rolled back. */
  lemma IssuesAre(w: World, e: Event)
    requires Inv(w) && Enabled(w, e)
    ensures e.Leave? ==> w.h.lockCount > 0
    ensures Step(w, e).h.issued == w.h.issued + Issues(w, e)
  {
    hide WellBracketed, OpenAfter;
    assert Inside(w, e.t) == if e.t == w.h.owner then w.h.lockCount else 0;
    assert w.h.issued + [] == w.h.issued;
  }

  /** Only `t` acts, and stays inside its outermost section. */
  ghost predicate StaysInside(w: World, t: int, events: seq<Event>)
    requires Inv(w)
    decreases |events|
  {
    Inside(w, t) > 0 &&
    (events == [] ||
      (IsWorker(events[0]) && events[0].t == t && Enabled(w, events[0])
       && (StepKeeps(w, events[0]); StaysInside(Step(w, events[0]), t, events[1..]))))
  }

  lemma {:induction false} InsideIssuesNothing(w: World, t: int, events: seq<Event>)
    requires Inv(w) && !w.batch && StaysInside(w, t, events)
    ensures Feasible(w, events)
    ensures var v := Run(w, events); !v.batch && Inside(v, t) > 0 && v.h.issued == w.h.issued
    decreases |events|
  {
    hide Inv, Step, Enabled;
    if events != [] {
      var e := events[0];
      StepKeeps(w, e);
      IssuesAre(w, e);
      InnerIssues(w, e, Step(w, e));
      InsideIssuesNothing(Step(w, e), t, events[1..]);
    }
  }

  lemma InnerIssues(w: World, e: Event, v: World)
    requires Inv(w) && Enabled(w, e) && IsWorker(e) && (e.Leave? ==> w.h.lockCount > 0) && v == Step(w, e)
    requires Inside(w, e.t) > 0 && Inside(v, e.t) > 0 && !w.batch
    ensures !v.batch && w.h.issued + Issues(w, e) == w.h.issued
  {
    hide WellBracketed, OpenAfter;
    assert Inside(w, e.t) == if e.t == w.h.owner then w.h.lockCount else 0;
  }

  /** A section outside a batch is one transaction: whatever sections are nested in it and however they end, its
      outermost BEGIN is followed only by the statement that its own end asks for. */
  lemma SectionIsOneTransaction(w: World, t: int, inner: seq<Event>, commit: bool, sqlOk: bool) returns (v: World)
    requires Inv(w) && !w.batch && Inside(w, t) == 0 && Enabled(w, Enter(t, true))
    requires var w1 := Step(w, Enter(t, true)); Inv(w1) && StaysInside(w1, t, inner)
    requires var w1 := Step(w, Enter(t, true)); Feasible(w1, inner) ==> Inside(Run(w1, inner), t) == 1
    ensures var w1 := Step(w, Enter(t, true));
            && Feasible(w1, inner) && Inv(Run(w1, inner)) && Enabled(Run(w1, inner), Leave(t, commit, sqlOk))
            && Run(w1, inner).h.lockCount > 0 && v == Step(Run(w1, inner), Leave(t, commit, sqlOk))
    ensures Inside(v, t) == 0 && v.h.owner == NOBODY
    ensures v.h.issued == w.h.issued
      + if !commit then [Begin, Rollback] else if sqlOk then [Begin, Commit] else [Begin, CommitFailed, Rollback]
  {
    hide Inv, Step, Run, Feasible, StaysInside;
    var w1 := Step(w, Enter(t, true));
    IssuesAre(w, Enter(t, true));
    EnterKeepsBatch(w, t);
    InsideIssuesNothing(w1, t, inner);
    var u := Run(w1, inner);
    var e := Leave(t, commit, sqlOk);
    assert Enabled(u, e) by { MayLeave(u, t, commit, sqlOk); }
    StepKeeps(u, e);
    v := Step(u, e);
    IssuesAre(u, e);
    LastLeave(u, t, commit, sqlOk);
  }

  lemma MayLeave(u: World, t: int, commit: bool, sqlOk: bool)
    requires Inv(u) && Inside(u, t) > 0 && t != NOBODY
    ensures Enabled(u, Leave(t, commit, sqlOk))
  {
  }

  lemma EnterKeepsBatch(w: World, t: int)
    requires Inv(w) && Enabled(w, Enter(t, true)) && !w.batch
    ensures !Step(w, Enter(t, true)).batch && t != NOBODY
  {
  }

  lemma LastLeave(u: World, t: int, commit: bool, sqlOk: bool)
    requires Inv(u) && Enabled(u, Leave(t, commit, sqlOk)) && u.h.lockCount > 0 && Inside(u, t) == 1
    ensures var v := Step(u, Leave(t, commit, sqlOk)); Inside(v, t) == 0 && v.h.owner == NOBODY
  {
    hide WellBracketed, OpenAfter;
    assert Inside(u, t) == if t == u.h.owner then u.h.lockCount else 0;
  }
}
