// What one read attempt meets, when attempts fail, and what a read whose attempts all failed hands out.

module SeqlockReads {
  import opened Seqlock

  // ---- One attempt ----

  function Reads(events: seq<Event>): nat {
    if events == [] then 0 else (if events[0].ReaderSteps? then 1 else 0) + Reads(events[1..])
  }

  /** While an attempt copies, the reader only counts its own steps; the writer's do not touch it. */
  lemma {:induction false} CopyingRuns(s: State, events: seq<Event>)
    requires s.reader.Copying? && s.reader.copied + Reads(events) <= FIELDS
    ensures var r := Run(s, events).reader;
            && r.Copying? && r.attempt == s.reader.attempt && r.seq1 == s.reader.seq1
            && r.copied == s.reader.copied + Reads(events)
    decreases |events|
  {
    hide WriterStep;
    if events != [] {
      WriterLeavesReader(s);
      CopyingRuns(Step(s, events[0]), events[1..]);
    }
  }

  lemma WriterLeavesReader(s: State)
    ensures WriterStep(s).reader == s.reader
  {
  }

  /** An attempt fails exactly when the counter is odd at its first load or has moved at its second, however the
      writer's steps and further writes fall between its four copies; a failed attempt is followed by the next
      or, after the fourth, by the fall-through with what was copied last. */
  lemma AttemptFailsIff(s: State, between: seq<Event>)
    requires Inv(s) && s.reader.Between? && Reads(between) == FIELDS
    requires StaysAwake(s, [ReaderSteps] + between)
    ensures s.count % 2 == 1 ==> Step(s, ReaderSteps).reader == Retry(s.reader.attempt, s.reader.snap)
    ensures s.count % 2 == 0 ==>
      var t := Run(s, [ReaderSteps] + between);
      var r := Step(t, ReaderSteps).reader;
      && t.reader.Copying? && t.reader.copied == FIELDS
      && (r.Clean? <==> t.count == s.count)
      && (!r.Clean? ==> r == Retry(s.reader.attempt, t.reader.snap))
  {
    assert s.count % COUNTER_RANGE % 2 == s.count % 2;
    if s.count % 2 == 0 {
      var events := [ReaderSteps] + between;
      assert events[1..] == between;
      var s1 := Step(s, ReaderSteps);
      assert s1.reader == Copying(s.reader.attempt, s.reader.snap, s.count, 0);
      CopyingRuns(s1, between);
      RunKeeps(s, events);
      AwakeAtEnd(s, events);
      var t := Run(s, events);
      assert t == Run(s1, between);
      SameInRange(s.count, t.count);
    }
  }

  /** An attempt over which the counter stands still returns the newest snapshot. */
  lemma QuietAttemptIsClean(s: State, between: seq<Event>)
    requires Inv(s) && s.reader.Between? && !s.writer.Filling? && Reads(between) == FIELDS
    requires StaysAwake(s, [ReaderSteps] + between)
    requires Run(s, [ReaderSteps] + between).count == s.count
    ensures var t := Run(s, [ReaderSteps] + between);
            var r := Step(t, ReaderSteps).reader;
            r.Clean? && |t.published| > 0 && r.snap == t.published[|t.published| - 1]
  {
    hide Inv, Step, Run, StaysAwake, Reads, Awake, Retry;
    EvenOutside(s);
    AttemptFailsIff(s, between);
    var events := [ReaderSteps] + between;
    RunKeeps(s, events);
    AwakeAtEnd(s, events);
    CleanNow(Run(s, events));
  }

  lemma EvenOutside(s: State)
    requires Inv(s) && !s.writer.Filling?
    ensures s.count % 2 == 0
  {
  }

  lemma CleanNow(t: State)
    requires Inv(t) && Awake(t) && t.reader.Copying?
    ensures |t.published| > 0
    ensures var r := Step(t, ReaderSteps).reader; r.Clean? ==> r.snap == t.published[|t.published| - 1]
  {
    StepKeeps(t, ReaderSteps);
  }

  // ---- What a read meets ----

  /** A record kept beside a run. `stamps[k]` numbers the write that last stored field `k`, `origins[k]` the one
      whose field `k` the reader copied last; `touched`: a write was begun or ended since the attempt's first load;
      `met`: how many attempts of the read met a write; `odd`: how many of them met it at the first load and copied
      nothing; `intact`: the attempt that copied last had finished its copies before any write was begun or ended. */
  datatype Note = Note(stamps: seq<nat>, origins: seq<nat>, touched: bool, met: nat, odd: nat, intact: bool)

  const NOTHING_MET := Note([0, 0, 0, 0], [0, 0, 0, 0], false, 0, 0, false)

  predicate Sized(n: Note) {
    |n.stamps| == FIELDS && |n.origins| == FIELDS
  }

  function WriterNote(s: State, n: Note): (r: Note)
    requires Sized(n)
    ensures Sized(r)
  {
    match s.writer
    case Resting => n
    case Loaded(_, _) => n.(touched := true)
    case Filling(_, _, k) => if k < FIELDS then n.(stamps := n.stamps[k := |s.published|]) else n.(touched := true)
  }

  function ReaderNote(s: State, n: Note): (r: Note)
    requires Sized(n)
    ensures Sized(r)
  {
    match s.reader
    case Between(_, _) =>
      if s.writer.Filling? then n.(met := n.met + 1, odd := n.odd + 1) else n.(touched := false, intact := false)
    case Copying(_, _, _, k) =>
      if k < FIELDS then
        n.(origins := n.origins[k := n.stamps[k]], intact := if k == FIELDS - 1 then !n.touched else n.intact)
      else if n.touched then n.(met := n.met + 1)
      else n
    case _ => n
  }

  function NoteStep(s: State, n: Note, e: Event): (r: Note)
    requires Sized(n)
    ensures Sized(r)
  {
    if !Enabled(s, e) then n
    else
      match e
      case WriteBegins(_) => n
      case WriterSteps => WriterNote(s, n)
      case ReadBegins => n.(origins := [0, 0, 0, 0], met := 0, odd := 0, intact := false)
      case ReaderSteps => ReaderNote(s, n)
  }

  function Noted(s: State, n: Note, events: seq<Event>): (r: Note)
    requires Sized(n)
    ensures Sized(r)
    decreases |events|
  {
    if events == [] then n else Noted(Step(s, events[0]), NoteStep(s, n, events[0]), events[1..])
  }

  /** The writes by number: the published ones, then the one in progress. */
  function Writes(s: State): seq<Snap> {
    s.published + if s.writer.Filling? then [s.writer.target] else []
  }

  predicate SameField(a: Snap, b: Snap, k: nat) {
    && (k == 0 ==> a.position == b.position)
    && (k == 1 ==> a.sampleCount == b.sampleCount)
    && (k == 2 ==> a.speed == b.speed)
    && (k == 3 ==> a.playing == b.playing)
  }

  /** Field by field, `snap` comes from the writes with these numbers. */
  predicate ComesFrom(snap: Snap, writes: seq<Snap>, numbers: seq<nat>)
    requires |numbers| == FIELDS
  {
    forall k: nat | k < FIELDS :: numbers[k] < |writes| && SameField(snap, writes[numbers[k]], k)
  }

  /** The number of the write whose field `k` is in memory. */
  function Stamp(s: State, k: nat): int {
    |s.published| - (if s.writer.Filling? && k < s.writer.stored then 0 else 1)
  }

  predicate MemoryNoted(s: State, n: Note)
    requires Sized(n)
  {
    && |s.published| > 0 && s.published[0] == ZERO
    && (forall k: nat | k < FIELDS :: n.stamps[k] == Stamp(s, k))
    && ComesFrom(s.shared, Writes(s), n.stamps)
  }

  predicate CopyNoted(s: State, n: Note)
    requires Sized(n)
  {
    && ComesFrom(s.reader.snap, Writes(s), n.origins)
    && (s.reader.Copying? ==> s.reader.seq1 <= s.count && (n.touched <==> s.count != s.reader.seq1))
    && (s.reader.Copying? && !n.touched ==>
          !s.writer.Filling? && forall k: nat | k < s.reader.copied && k < FIELDS :: n.origins[k] == |s.published| - 1)
  }

  predicate MetNoted(s: State, n: Note) {
    match s.reader
    case Between(attempt, _) => n.met == attempt < SEQLOCK_MAX_RETRIES
    case Copying(attempt, _, _, _) => n.met == attempt < SEQLOCK_MAX_RETRIES
    case Clean(_, _) => n.met < SEQLOCK_MAX_RETRIES
    case Exhausted(_) => n.met == SEQLOCK_MAX_RETRIES
  }

  predicate IntactNoted(s: State, n: Note)
    requires Sized(n)
  {
    && (s.reader.Copying? && s.reader.copied < FIELDS ==> !n.intact)
    && (n.intact ==> n.origins[0] < |s.published| && forall k: nat | k < FIELDS :: n.origins[k] == n.origins[0])
  }

  /** The first `copied` fields are not older than the last write published before the read began. */
  predicate Recent(s: State, n: Note, copied: nat)
    requires Sized(n)
  {
    forall k: nat | k < copied && k < FIELDS :: s.since <= n.origins[k] + 1
  }

  /** A read in which every first load met an odd counter still holds its zeroed local. */
  predicate CopiesNoted(s: State, n: Note)
    requires Sized(n)
  {
    match s.reader
    case Between(attempt, snap) =>
      n.odd <= attempt && (if n.odd == attempt then snap == ZERO && !n.intact else Recent(s, n, FIELDS))
    case Copying(attempt, _, _, copied) => n.odd <= attempt && Recent(s, n, if n.odd < attempt then FIELDS else copied)
    case Clean(_, _) => n.odd < SEQLOCK_MAX_RETRIES && Recent(s, n, FIELDS)
    case Exhausted(snap) =>
      && n.odd <= SEQLOCK_MAX_RETRIES
      && (if n.odd == SEQLOCK_MAX_RETRIES then snap == ZERO && !n.intact else Recent(s, n, FIELDS))
  }

  predicate NoteOk(s: State, n: Note)
    requires Sized(n)
  {
    MemoryNoted(s, n) && CopyNoted(s, n) && MetNoted(s, n) && IntactNoted(s, n) && CopiesNoted(s, n)
  }

  lemma WritesGrow(s: State)
    requires WriterOk(s)
    ensures Writes(s) <= Writes(WriterStep(s)) && s.published <= WriterStep(s).published
  {
  }

  lemma ComesFromMore(snap: Snap, writes: seq<Snap>, more: seq<Snap>, numbers: seq<nat>)
    requires |numbers| == FIELDS && writes <= more && ComesFrom(snap, writes, numbers)
    ensures ComesFrom(snap, more, numbers)
  {
    hide SameField;
  }

  lemma WriterMemory(s: State, n: Note)
    requires Sized(n) && WriterOk(s) && MemoryNoted(s, n)
    ensures MemoryNoted(WriterStep(s), WriterNote(s, n))
  {
    hide Agree;
    WritesGrow(s);
    ComesFromMore(s.shared, Writes(s), Writes(WriterStep(s)), n.stamps);
  }

  lemma WriterNoteKeeps(s: State, n: Note)
    requires Sized(n) && Inv(s) && NoteOk(s, n)
    ensures NoteOk(WriterStep(s), WriterNote(s, n))
  {
    WriterMemory(s, n);
    WritesGrow(s);
    ComesFromMore(s.reader.snap, Writes(s), Writes(WriterStep(s)), n.origins);
    hide Agree, CleanOk, MemoryNoted, ComesFrom, Writes;
  }

  lemma FirstLoadNoted(s: State, n: Note)
    requires Sized(n) && Inv(s) && NoteOk(s, n) && s.reader.Between?
    ensures NoteOk(ReaderStep(s), ReaderNote(s, n))
  {
    hide Agree, CleanOk, ComesFrom;
    assert s.count % COUNTER_RANGE % 2 == s.count % 2;
  }

  lemma CopyStepNoted(s: State, n: Note)
    requires Sized(n) && Inv(s) && NoteOk(s, n) && s.reader.Copying? && s.reader.copied < FIELDS
    ensures NoteOk(ReaderStep(s), ReaderNote(s, n))
  {
    hide Agree, CleanOk, SameField;
    var k := s.reader.copied;
    assert n.stamps[k] + 1 >= |s.published|;
    FieldComes(s.reader.snap, s.shared, Writes(s), n.origins, n.stamps, k);
    hide ComesFrom;
  }

  /** Copying field `k` takes over where it comes from. */
  lemma FieldComes(snap: Snap, shared: Snap, writes: seq<Snap>, origins: seq<nat>, stamps: seq<nat>, k: nat)
    requires |origins| == FIELDS && |stamps| == FIELDS && k < FIELDS
    requires ComesFrom(snap, writes, origins) && ComesFrom(shared, writes, stamps)
    ensures ComesFrom(WithField(snap, shared, k), writes, origins[k := stamps[k]])
  {
    var numbers := origins[k := stamps[k]];
    forall m: nat | m < FIELDS
      ensures numbers[m] < |writes| && SameField(WithField(snap, shared, k), writes[numbers[m]], m)
    {
      assert SameField(snap, writes[origins[m]], m) && SameField(shared, writes[stamps[m]], m);
    }
  }

  lemma SecondLoadNoted(s: State, n: Note)
    requires Sized(n) && Inv(s) && Awake(s) && NoteOk(s, n) && s.reader.Copying? && s.reader.copied == FIELDS
    ensures NoteOk(ReaderStep(s), ReaderNote(s, n))
  {
    hide Agree, CleanOk, ComesFrom;
    SameInRange(s.reader.seq1, s.count);
  }

  lemma ReaderNoteKeeps(s: State, n: Note)
    requires Sized(n) && Inv(s) && Awake(s) && NoteOk(s, n)
    ensures NoteOk(ReaderStep(s), ReaderNote(s, n))
  {
    hide NoteOk;
    match s.reader {
      case Between(_, _) => FirstLoadNoted(s, n);
      case Copying(_, _, _, k) =>
        if k < FIELDS {
          CopyStepNoted(s, n);
        } else {
          SecondLoadNoted(s, n);
        }
      case _ =>
    }
  }

  lemma NoteStepKeeps(s: State, n: Note, e: Event)
    requires Sized(n) && Inv(s) && Awake(s) && NoteOk(s, n)
    ensures NoteOk(Step(s, e), NoteStep(s, n, e))
  {
    hide Inv;
    match e {
      case WriterSteps => WriterNoteKeeps(s, n);
      case ReaderSteps => ReaderNoteKeeps(s, n);
      case _ =>
    }
  }

  lemma {:induction false} NotedRun(s: State, n: Note, events: seq<Event>)
    requires Sized(n) && Inv(s) && StaysAwake(s, events) && NoteOk(s, n)
    ensures NoteOk(Run(s, events), Noted(s, n, events))
    decreases |events|
  {
    hide Inv, Step, NoteStep, NoteOk;
    if events != [] {
      StepKeeps(s, events[0]);
      NoteStepKeeps(s, n, events[0]);
      NotedRun(Step(s, events[0]), NoteStep(s, n, events[0]), events[1..]);
    }
  }

  /** A read falls through exactly when all four of its attempts met a write. */
  lemma ExhaustedIff(events: seq<Event>)
    requires StaysAwake(START, events)
    ensures var s, n := Run(START, events), Noted(START, NOTHING_MET, events);
            s.reader.Clean? || s.reader.Exhausted? ==> (s.reader.Exhausted? <==> n.met == SEQLOCK_MAX_RETRIES)
  {
    hide Run, Noted, StaysAwake;
    NotedRun(START, NOTHING_MET, events);
  }

  /** What a read that fell through hands out. If all four first loads met an odd counter, nothing was copied and
      it is the zeroed local, whatever was published before. Otherwise each field, for itself, is that of a
      published write or of the one in progress, and none is older than the last write published before the read
      began. At any time, the zeroed local counted as write 0: if all four come from one write it is that write's
      snapshot; and if the attempt that copied last had finished its copies before the counter moved, that write is
      a published one, not older than the read's beginning - whatever writes followed. */
  lemma FallThroughIs(events: seq<Event>)
    requires StaysAwake(START, events)
    ensures var s, n := Run(START, events), Noted(START, NOTHING_MET, events);
            s.reader.Exhausted? ==>
              && n.odd <= SEQLOCK_MAX_RETRIES
              && (n.odd == SEQLOCK_MAX_RETRIES ==> s.reader.snap == ZERO)
              && (n.odd < SEQLOCK_MAX_RETRIES ==> Recent(s, n, FIELDS))
    ensures var s, n := Run(START, events), Noted(START, NOTHING_MET, events);
            && ComesFrom(s.reader.snap, Writes(s), n.origins)
            && ((forall k: nat | k < FIELDS :: n.origins[k] == n.origins[0]) ==>
                s.reader.snap == Writes(s)[n.origins[0]])
    ensures var s, n := Run(START, events), Noted(START, NOTHING_MET, events);
            n.intact ==>
              n.origins[0] < |s.published| && s.reader.snap == s.published[n.origins[0]] && s.since <= n.origins[0] + 1
  {
    hide Run, Noted, StaysAwake;
    NotedRun(START, NOTHING_MET, events);
    var s, n := Run(START, events), Noted(START, NOTHING_MET, events);
    if forall k: nat | k < FIELDS :: n.origins[k] == n.origins[0] {
      OneOrigin(s.reader.snap, Writes(s), n.origins);
    }
    if n.intact {
      assert Writes(s)[n.origins[0]] == s.published[n.origins[0]];
    }
  }

  lemma OneOrigin(snap: Snap, writes: seq<Snap>, numbers: seq<nat>)
    requires |numbers| == FIELDS && ComesFrom(snap, writes, numbers)
    requires forall k: nat | k < FIELDS :: numbers[k] == numbers[0]
    ensures numbers[0] < |writes| && snap == writes[numbers[0]]
  {
    var w := writes[numbers[0]];
    assert numbers[1] == numbers[0] && numbers[2] == numbers[0] && numbers[3] == numbers[0];
    assert SameField(snap, w, 0) && SameField(snap, w, 1) && SameField(snap, w, 2) && SameField(snap, w, 3);
  }

  // ---- Mixtures ----

  /** One more event at the end of a run. */
  lemma Push(events: seq<Event>, s: State, e: Event) returns (events2: seq<Event>, s2: State)
    requires Reaches(events, s) && Awake(Step(s, e))
    ensures s2 == Step(s, e) && Reaches(events2, s2)
  {
    hide Step;
    events2, s2 := events + [e], Step(s, e);
    RunAppend(START, events, [e]);
    AwakeAppend(START, events, e);
  }

  predicate Reaches(events: seq<Event>, s: State) {
    Run(START, events) == s && StaysAwake(START, events)
  }

  lemma {:induction false} AwakeAppend(s: State, events: seq<Event>, e: Event)
    requires StaysAwake(s, events) && Awake(Step(Run(s, events), e))
    ensures StaysAwake(s, events + [e])
    decreases |events|
  {
    hide Step;
    if events != [] {
      assert (events + [e])[1..] == events[1..] + [e];
      AwakeAppend(Step(s, events[0]), events[1..], e);
    }
  }

  /** A whole write, when nobody copies meanwhile and the counter stays small. */
  lemma PushWrite(events: seq<Event>, s: State, target: Snap) returns (events2: seq<Event>, s2: State)
    requires Reaches(events, s) && s.writer.Resting? && s.count < 8
    ensures s2 == s.(count := s.count + 2, shared := target, published := s.published + [target])
    ensures Reaches(events2, s2)
  {
    hide Reaches;
    events2, s2 := Push(events, s, WriteBegins(target));
    events2, s2 := Push(events2, s2, WriterSteps);
    events2, s2 := Push(events2, s2, WriterSteps);
    events2, s2 := Push(events2, s2, WriterSteps);
    events2, s2 := Push(events2, s2, WriterSteps);
    events2, s2 := Push(events2, s2, WriterSteps);
    events2, s2 := Push(events2, s2, WriterSteps);
  }

  /** The first `k` fields of `a` and the rest of `b`. */
  function Mixed(a: Snap, b: Snap, k: nat): Snap {
    Snap(if k > 0 then a.position else b.position, if k > 1 then a.sampleCount else b.sampleCount,
         if k > 2 then a.speed else b.speed, if k > 3 then a.playing else b.playing)
  }

  /** Three attempts meet the write of `a`; the fourth has copied its first field when that write is done. */
  lemma FourthAttempt(a: Snap) returns (events: seq<Event>, s: State)
    ensures Reaches(events, s)
    ensures s == State(2, a, Resting, Copying(3, Mixed(a, ZERO, 1), 2, 1), [ZERO, a], 1)
  {
    hide Reaches;
    assert Reaches([], START) by { StartReached(); }
    events, s := Push([], START, ReadBegins);
    events, s := Push(events, s, WriteBegins(a));
    events, s := Push(events, s, WriterSteps);
    events, s := Push(events, s, ReaderSteps);
    events, s := Push(events, s, ReaderSteps);
    events, s := Push(events, s, ReaderSteps);
    assert s == State(1, ZERO, Filling(0, a, 0), Between(3, ZERO), [ZERO], 1);
    events, s := Push(events, s, WriterSteps);
    events, s := Push(events, s, WriterSteps);
    events, s := Push(events, s, WriterSteps);
    events, s := Push(events, s, WriterSteps);
    events, s := Push(events, s, WriterSteps);
    events, s := Push(events, s, ReaderSteps);
    events, s := Push(events, s, ReaderSteps);
  }

  lemma StartReached()
    ensures Reaches([], START)
  {
  }

  /** For all snapshots and every split, some run of two writes hands out the first fields of one and the rest of
      the other by the fall-through: the display then shows a mixture, not merely an older snapshot. */
  lemma FallThroughMayTear(a: Snap, b: Snap, k: nat) returns (events: seq<Event>)
    requires 1 <= k < FIELDS
    ensures StaysAwake(START, events)
    ensures var s := Run(START, events);
            s.reader == Exhausted(Mixed(a, b, k)) && s.published == [ZERO, a, b] && s.writer.Resting?
  {
    var s;
    assert forall es, t :: Reaches(es, t) ==> StaysAwake(START, es) && Run(START, es) == t;
    hide Reaches;
    events, s := FourthAttempt(a);
    if k > 1 {
      events, s := Push(events, s, ReaderSteps);
    }
    if k > 2 {
      events, s := Push(events, s, ReaderSteps);
    }
    events, s := PushWrite(events, s, b);
    if k < 2 {
      events, s := Push(events, s, ReaderSteps);
    }
    if k < 3 {
      events, s := Push(events, s, ReaderSteps);
    }
    events, s := Push(events, s, ReaderSteps);
    events, s := Push(events, s, ReaderSteps);
  }

  /** For all snapshots, some read that begins after `a` was published falls through with zeros: the writer of `b`
      rests between its two counter stores while the read makes its four attempts. */
  lemma FallThroughMayBeZero(a: Snap, b: Snap) returns (events: seq<Event>)
    ensures StaysAwake(START, events)
    ensures var s := Run(START, events);
            s.reader == Exhausted(ZERO) && s.published == [ZERO, a] && s.since == 2 && s.writer.Filling?
  {
    assert forall es, t :: Reaches(es, t) ==> StaysAwake(START, es) && Run(START, es) == t;
    assert Reaches([], START) by { StartReached(); }
    hide Reaches;
    var s;
    events, s := PushWrite([], START, a);
    events, s := Push(events, s, WriteBegins(b));
    events, s := Push(events, s, WriterSteps);
    events, s := Push(events, s, ReadBegins);
    events, s := Push(events, s, ReaderSteps);
    events, s := Push(events, s, ReaderSteps);
    events, s := Push(events, s, ReaderSteps);
    events, s := Push(events, s, ReaderSteps);
  }
}
