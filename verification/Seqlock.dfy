// The position snapshot shared between the audio thread and the display: a sequence counter
// around four plain fields, interleaved load by load and store by store.

module Seqlock {

  datatype Snap = Snap(position: nat, sampleCount: nat, speed: real, playing: bool)

  const ZERO := Snap(0, 0, 0.0, false)

  const SEQLOCK_MAX_RETRIES: nat := 4

  /** The 32-bit counter repeats after this many increments. */
  const COUNTER_RANGE: nat := 0x1_0000_0000

  const FIELDS: nat := 4

  /** Where the writer is: it loads the counter, stores it plus one, stores the fields, stores it plus two. */
  datatype Writer = Resting | Loaded(count: nat, target: Snap) | Filling(count: nat, target: Snap, stored: nat)

  /** Where the reader is: an attempt loads the counter, copies the fields, loads the counter again. `seq1` is
      how often the counter had been incremented at the first load; the program sees it modulo the range. */
  datatype Reader =
    | Between(attempt: nat, snap: Snap)
    | Copying(attempt: nat, snap: Snap, seq1: nat, copied: nat)
    | Clean(snap: Snap, seq1: nat)
    | Exhausted(snap: Snap)

  /** `published` lists the completed writes, the zeroed snapshot first; `since` is how many of them there were
      when the current read began. */
  datatype State = State(count: nat, shared: Snap, writer: Writer, reader: Reader, published: seq<Snap>, since: nat)

  datatype Event = WriteBegins(target: Snap) | WriterSteps | ReadBegins | ReaderSteps

  /** Before the first read; the zeroed snapshot counts as read. */
  const START := State(0, ZERO, Resting, Clean(ZERO, 0), [ZERO], 1)

  // ---- Steps ----

  /** Field number `k` of `from`, stored into the same field of `into`. */
  function WithField(into: Snap, from: Snap, k: nat): Snap
    requires k < FIELDS
  {
    if k == 0 then into.(position := from.position)
    else if k == 1 then into.(sampleCount := from.sampleCount)
    else if k == 2 then into.(speed := from.speed)
    else into.(playing := from.playing)
  }

  function WriterStep(s: State): State {
    match s.writer
    case Resting => s
    case Loaded(count, target) => s.(count := count + 1, writer := Filling(count, target, 0))
    case Filling(count, target, k) =>
      if k < FIELDS then s.(shared := WithField(s.shared, target, k), writer := Filling(count, target, k + 1))
      else s.(count := count + 2, writer := Resting, published := s.published + [target])
  }

  /** The attempt failed: the next one, or the fall-through with whatever was copied last. */
  function Retry(attempt: nat, snap: Snap): Reader {
    if attempt + 1 < SEQLOCK_MAX_RETRIES then Between(attempt + 1, snap) else Exhausted(snap)
  }

  function ReaderStep(s: State): State {
    match s.reader
    case Between(attempt, snap) =>
      s.(reader := if s.count % COUNTER_RANGE % 2 == 1 then Retry(attempt, snap)
                   else Copying(attempt, snap, s.count, 0))
    case Copying(attempt, snap, seq1, k) =>
      if k < FIELDS then s.(reader := Copying(attempt, WithField(snap, s.shared, k), seq1, k + 1))
      else s.(reader := if seq1 % COUNTER_RANGE == s.count % COUNTER_RANGE then Clean(snap, seq1)
                        else Retry(attempt, snap))
    case _ => s
  }

  /** Writes come from one writer at a time; a read begins once the one before it returned. */
  predicate Enabled(s: State, e: Event) {
    match e
    case WriteBegins(_) => s.writer.Resting?
    case ReadBegins => s.reader.Clean? || s.reader.Exhausted?
    case _ => true
  }

  function Step(s: State, e: Event): State {
    if !Enabled(s, e) then s
    else
      match e
      case WriteBegins(target) => s.(writer := Loaded(s.count, target))
      case WriterSteps => WriterStep(s)
      case ReadBegins => s.(reader := Between(0, ZERO), since := |s.published|)
      case ReaderSteps => ReaderStep(s)
  }

  function Run(s: State, events: seq<Event>): State
    decreases |events|
  {
    if events == [] then s else Run(Step(s, events[0]), events[1..])
  }

  // ---- The invariant ----

  /** The first `k` fields agree. */
  predicate Agree(a: Snap, b: Snap, k: nat) {
    && (k > 0 ==> a.position == b.position)
    && (k > 1 ==> a.sampleCount == b.sampleCount)
    && (k > 2 ==> a.speed == b.speed)
    && (k > 3 ==> a.playing == b.playing)
  }

  /** The counter is twice the number of writes, odd inside one; outside one the fields are the last write's. */
  predicate WriterOk(s: State) {
    && |s.published| > 0
    && s.count == 2 * (|s.published| - 1) + (if s.writer.Filling? then 1 else 0)
    && (s.writer.Loaded? ==> s.writer.count == s.count)
    && (s.writer.Filling? ==> s.writer.count + 1 == s.count && s.writer.stored <= FIELDS)
    && (s.writer.Filling? ==> Agree(s.shared, s.writer.target, s.writer.stored))
    && (!s.writer.Filling? ==> s.shared == s.published[|s.published| - 1])
  }

  /** While the counter has not moved since the first load, what was copied is the current publication's. */
  predicate ReaderOk(s: State) {
    && s.since <= |s.published|
    && (s.reader.Copying? ==>
          && s.reader.copied <= FIELDS && s.reader.seq1 % 2 == 0
          && 2 * s.since - 2 <= s.reader.seq1 <= s.count
          && (s.count == s.reader.seq1 && |s.published| > 0 ==>
                Agree(s.reader.snap, s.published[|s.published| - 1], s.reader.copied)))
  }

  /** A read that returned by its counter check returned publication number seq1 / 2. */
  predicate CleanOk(s: State) {
    s.reader.Clean? ==>
      && s.reader.seq1 % 2 == 0
      && s.since <= s.reader.seq1 / 2 + 1 <= |s.published|
      && s.reader.snap == s.published[s.reader.seq1 / 2]
  }

  predicate Inv(s: State) {
    WriterOk(s) && ReaderOk(s) && CleanOk(s)
  }

  /** The read in progress has not slept through a whole range of the counter. */
  predicate Awake(s: State) {
    s.reader.Copying? ==> s.count - s.reader.seq1 < COUNTER_RANGE
  }

  lemma StepKeeps(s: State, e: Event)
    requires Inv(s) && Awake(s)
    ensures Inv(Step(s, e))
    ensures !s.reader.Clean? && Step(s, e).reader.Clean? ==>
      Step(s, e).reader.seq1 == s.count == 2 * (|s.published| - 1)
  {
    match e {
      case WriterSteps =>
        hide Inv;
        WriterKeeps(s);
      case ReaderSteps =>
        hide Inv;
        ReaderKeeps(s);
      case _ =>
        hide Agree, WriterStep, ReaderStep;
    }
  }

  lemma WriterKeeps(s: State)
    requires Inv(s)
    ensures Inv(WriterStep(s)) && WriterStep(s).reader == s.reader
  {
  }

  lemma ReaderKeeps(s: State)
    requires Inv(s) && Awake(s)
    ensures Inv(ReaderStep(s))
    ensures !s.reader.Clean? && ReaderStep(s).reader.Clean? ==>
      ReaderStep(s).reader.seq1 == s.count == 2 * (|s.published| - 1)
  {
    if s.reader.Copying? {
      if s.reader.copied == FIELDS {
        hide WriterStep;
        SameInRange(s.reader.seq1, s.count);
      }
    } else if s.reader.Between? {
      assert s.count % COUNTER_RANGE % 2 == s.count % 2;
    }
  }

  lemma SameInRange(a: nat, b: nat)
    requires a <= b < a + COUNTER_RANGE
    ensures a % COUNTER_RANGE == b % COUNTER_RANGE <==> a == b
  {
  }

  /** Every state on the way is awake. */
  predicate StaysAwake(s: State, events: seq<Event>)
    decreases |events|
  {
    Awake(s) && (events == [] || StaysAwake(Step(s, events[0]), events[1..]))
  }

  lemma {:induction false} RunKeeps(s: State, events: seq<Event>)
    requires Inv(s) && StaysAwake(s, events)
    ensures Inv(Run(s, events))
    decreases |events|
  {
    hide Inv, Step;
    if events != [] {
      StepKeeps(s, events[0]);
      RunKeeps(Step(s, events[0]), events[1..]);
    }
  }

  /** However writer and reader interleave, a read that returns through its counter check returns exactly one
      published snapshot, never a mixture, and none older than the last one completed before the read began. */
  lemma CleanReadsArePublished(events: seq<Event>) returns (m: nat)
    requires StaysAwake(START, events)
    ensures var s := Run(START, events);
            s.reader.Clean? ==> m < |s.published| && s.reader.snap == s.published[m] && s.since <= m + 1
  {
    hide Run, StaysAwake;
    RunKeeps(START, events);
    var s := Run(START, events);
    m := if s.reader.Clean? then s.reader.seq1 / 2 else 0;
  }

  /** At the moment it returns, such a read's snapshot is the newest one. */
  lemma CleanReadIsNewest(events: seq<Event>, e: Event)
    requires StaysAwake(START, events) && !Run(START, events).reader.Clean?
    ensures var s := Step(Run(START, events), e);
            s.reader.Clean? ==> |s.published| > 0 && s.reader.snap == s.published[|s.published| - 1]
  {
    hide Run, StaysAwake;
    RunKeeps(START, events);
    AwakeAtEnd(START, events);
    StepKeeps(Run(START, events), e);
  }

  lemma {:induction false} AwakeAtEnd(s: State, events: seq<Event>)
    requires StaysAwake(s, events)
    ensures Awake(Run(s, events))
    decreases |events|
  {
    if events != [] {
      AwakeAtEnd(Step(s, events[0]), events[1..]);
    }
  }

  lemma {:induction false} RunAppend(s: State, a: seq<Event>, b: seq<Event>)
    ensures Run(s, a + b) == Run(Run(s, a), b)
    decreases |a|
  {
    hide Step;
    if a == [] {
      assert a + b == b;
    } else {
      assert (a + b)[1..] == a[1..] + b;
      RunAppend(Step(s, a[0]), a[1..], b);
    }
  }
}
