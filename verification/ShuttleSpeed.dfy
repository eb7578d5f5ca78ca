// The playback engine's ring buffer and its passthrough mode. One channel stands for all: every
// channel of a frame is treated alike.

module RingBuffer {

  /** What a write of `data` adds and a read of `n` takes, by the frames in the ring. */
  function Accepted<T>(contents: seq<T>, capacity: nat, data: seq<T>): seq<T>
    requires |contents| <= capacity
  {
    if |data| > capacity - |contents| then data[..capacity - |contents|] else data
  }

  function Taken<T>(contents: seq<T>, n: nat): seq<T> {
    if n > |contents| then contents else contents[..n]
  }

  // ---- Positions ----

  function Wrap(i: nat, capacity: nat): nat {
    if i < capacity then i else i - capacity
  }

  /** An index moved on by `n`, modulo the capacity. */
  function Advance(i: nat, n: nat, capacity: nat): (r: nat)
    requires i < capacity && n <= capacity
    ensures r == Wrap(i + n, capacity)
  {
    WrapIsMod(i + n, capacity);
    (i + n) % capacity
  }

  lemma WrapIsMod(i: nat, capacity: nat)
    requires 0 < capacity && i < 2 * capacity
    ensures i % capacity == Wrap(i, capacity)
  {
    var q, r := i / capacity, i % capacity;
    assert i == q * capacity + r;
    assert q >= 2 ==> q * capacity >= 2 * capacity;
    assert q == 0 || q == 1;
  }

  /** The `count` frames from `from` on, across the wrap-around. */
  function Window<T>(b: seq<T>, from: nat, count: nat): (s: seq<T>)
    requires from < |b| && count <= |b|
    ensures |s| == count && forall i | 0 <= i < count :: s[i] == b[Wrap(from + i, |b|)]
  {
    if from + count <= |b| then b[from..from + count] else b[from..] + b[..from + count - |b|]
  }

  function Overwrite<T>(b: seq<T>, at: nat, data: seq<T>): (r: seq<T>)
    requires at + |data| <= |b|
    ensures |r| == |b|
  {
    b[..at] + data + b[at + |data|..]
  }

  /** The buffer after a two-part copy of `data` to the position behind the window. */
  function Filled<T>(b: seq<T>, at: nat, data: seq<T>): (r: seq<T>)
    requires at < |b| && |data| <= |b|
    ensures |r| == |b|
  {
    if at + |data| <= |b| then Overwrite(b, at, data)
    else Overwrite(Overwrite(b, at, data[..|b| - at]), 0, data[|b| - at..])
  }

  lemma FilledAt<T>(b: seq<T>, at: nat, data: seq<T>, k: nat)
    requires at < |b| && |data| <= |b| && k < |b|
    ensures Filled(b, at, data)[k] ==
      if at <= k < at + |data| then data[k - at]
      else if k + |b| < at + |data| then data[k + |b| - at]
      else b[k]
  {
    hide Overwrite;
    if at + |data| <= |b| {
      OverwriteAt(b, at, data, k);
    } else {
      var first := Overwrite(b, at, data[..|b| - at]);
      OverwriteAt(b, at, data[..|b| - at], k);
      OverwriteAt(first, 0, data[|b| - at..], k);
    }
  }

  lemma OverwriteAt<T>(b: seq<T>, at: nat, data: seq<T>, k: nat)
    requires at + |data| <= |b| && k < |b|
    ensures Overwrite(b, at, data)[k] == if at <= k < at + |data| then data[k - at] else b[k]
  {
  }

  /** Frames copied behind the window extend it and disturb nothing in it. */
  lemma Appended<T>(b: seq<T>, from: nat, count: nat, data: seq<T>)
    requires from < |b| && count + |data| <= |b| && count < |b|
    ensures Window(Filled(b, Wrap(from + count, |b|), data), from, count + |data|) == Window(b, from, count) + data
  {
    var at := Wrap(from + count, |b|);
    var b2 := Filled(b, at, data);
    forall i | 0 <= i < count + |data|
      ensures Window(b2, from, count + |data|)[i] == (Window(b, from, count) + data)[i]
    {
      FilledAt(b, at, data, Wrap(from + i, |b|));
    }
  }

  /** Dropping frames from the front of a window moves its start. */
  lemma Dropped<T>(b: seq<T>, from: nat, count: nat, n: nat)
    requires from < |b| && n <= count <= |b|
    ensures Window(b, from, count)[n..] == Window(b, Wrap(from + n, |b|), count - n)
    ensures Window(b, from, count)[..n] == Window(b, from, n)
  {
    var whole, rest := Window(b, from, count), Window(b, Wrap(from + n, |b|), count - n);
    hide Window;
    forall i | 0 <= i < count - n ensures whole[n..][i] == rest[i] {
      assert whole[n..][i] == whole[n + i];
    }
  }

  /** The two copies of a write, the second only when the first reached the end. */
  lemma TwoCopiesIn<T>(b: seq<T>, at: nat, data: seq<T>, first: nat)
    requires at < |b| && |data| <= |b| && first == if |b| - at > |data| then |data| else |b| - at
    ensures |data| <= first ==> Overwrite(b, at, data[..first]) == Filled(b, at, data)
    ensures |data| > first ==> Overwrite(Overwrite(b, at, data[..first]), 0, data[first..]) == Filled(b, at, data)
  {
    hide Overwrite;
    if |data| <= first {
      assert data[..first] == data;
    }
  }

  lemma TwoCopiesOut<T>(b: seq<T>, from: nat, n: nat, first: nat)
    requires from < |b| && n <= |b| && first == if |b| - from > n then n else |b| - from
    ensures b[from..from + first] + (if n > first then b[..n - first] else []) == Window(b, from, n)
  {
  }

  lemma SplitAt<T>(window: seq<T>, frames: nat, n: nat)
    requires n == if frames > |window| then |window| else frames
    ensures window == window[..n] + window[n..] && Taken(window, frames) == window[..n]
  {
  }

  /** memcpy into the ring's storage. */
  method MemCopy<T>(buffer: array<T>, at: nat, data: seq<T>)
    requires at + |data| <= buffer.Length
    modifies buffer
    ensures buffer[..] == Overwrite(old(buffer[..]), at, data)
  {
    forall i | 0 <= i < |data| {
      buffer[at + i] := data[i];
    }
  }

  class Ring<T(0)> {
    const buffer: array<T>
    const capacity: nat
    var writeIdx: nat
    var readIdx: nat
    var count: nat

    constructor (capacity: nat)
      requires capacity > 0
      ensures Valid() && Contents() == [] && this.capacity == capacity && fresh(buffer)
    {
      this.capacity := capacity;
      buffer := new T[capacity];
      writeIdx, readIdx, count := 0, 0, 0;
    }

    /** The write index is the read index plus the count, wrapped. */
    ghost predicate Valid()
      reads this
    {
      0 < capacity == buffer.Length && readIdx < capacity && count <= capacity
          && writeIdx == Wrap(readIdx + count, capacity)
    }

    /** The frames in the ring, oldest first. */
    ghost function Contents(): (s: seq<T>)
      requires Valid()
      reads this, buffer
    {
      Window(buffer[..], readIdx, count)
    }

    method Clear()
      requires Valid()
      modifies this
      ensures Valid() && Contents() == []
    {
      writeIdx, readIdx, count := 0, 0, 0;
    }

    /** The copies of a write behind the window. */
    method CopyIn(data: seq<T>)
      requires Valid() && 0 < |data| <= capacity - count
      modifies buffer
      ensures buffer[..] == Filled(old(buffer[..]), writeIdx, data)
    {
      hide Overwrite, Filled;
      var first := capacity - writeIdx;
      if first > |data| {
        first := |data|;
      }
      TwoCopiesIn(buffer[..], writeIdx, data, first);
      MemCopy(buffer, writeIdx, data[..first]);
      if |data| > first {
        MemCopy(buffer, 0, data[first..]);
      }
    }

    /** The copies of a read from the front of the window. */
    method CopyOut(n: nat) returns (data: seq<T>)
      requires Valid() && 0 < n <= count
      ensures data == Window(buffer[..], readIdx, n)
    {
      hide Window;
      var first := capacity - readIdx;
      if first > n {
        first := n;
      }
      TwoCopiesOut(buffer[..], readIdx, n, first);
      data := buffer[readIdx..readIdx + first];
      if n > first {
        data := data + buffer[..n - first];
      }
    }

    /** Appends as many frames as there is space for, in at most two copies. */
    method Write(data: seq<T>)
      requires Valid()
      modifies this, buffer
      ensures Valid() && Contents() == old(Contents()) + Accepted(old(Contents()), capacity, data)
    {
      hide Window, Filled, Advance;
      var frames := |data|;
      if frames > capacity - count {
        frames := capacity - count;
      }
      assert Accepted(Contents(), capacity, data) == data[..frames];
      if frames == 0 {
        return;
      }
      ghost var b := buffer[..];
      Appended(b, readIdx, count, data[..frames]);
      CopyIn(data[..frames]);
      ghost var b2 := buffer[..];
      writeIdx := Advance(writeIdx, frames, capacity);
      count := count + frames;
      assert buffer[..] == b2;
    }

    /** Takes as many frames as there are, oldest first, in at most two copies. */
    method Read(frames: nat) returns (data: seq<T>)
      requires Valid()
      modifies this`readIdx, this`count
      ensures Valid() && data == Taken(old(Contents()), frames) && old(Contents()) == data + Contents()
    {
      hide Window, Advance, Taken;
      var n := frames;
      if n > count {
        n := count;
      }
      SplitAt(Contents(), frames, n);
      if n == 0 {
        return [];
      }
      ghost var b, window := buffer[..], Contents();
      Dropped(b, readIdx, count, n);
      data := CopyOut(n);
      readIdx := Advance(readIdx, n, capacity);
      count := count - n;
      assert buffer[..] == b;
    }
  }

  /** A write accepts the longest prefix there is space for; a read takes the oldest frames, as many as it asks for
      or as there are. */
  lemma LongestFit<T>(contents: seq<T>, capacity: nat, data: seq<T>, n: nat)
    requires |contents| <= capacity
    ensures var accepted := Accepted(contents, capacity, data);
            && accepted <= data && |contents| + |accepted| <= capacity
            && (|accepted| < |data| ==> |contents| + |accepted| == capacity)
    ensures var taken := Taken(contents, n);
            && taken <= contents && |taken| <= n && (|taken| < n ==> taken == contents)
  {
  }

  // ---- Any run ----

  datatype Op<T> = Put(data: seq<T>) | Get(n: nat)

  function AfterOp<T>(contents: seq<T>, capacity: nat, op: Op<T>): (r: seq<T>)
    requires |contents| <= capacity
    ensures |r| <= capacity
  {
    match op
    case Put(data) => contents + Accepted(contents, capacity, data)
    case Get(n) => contents[|Taken(contents, n)|..]
  }

  function AfterRun<T>(contents: seq<T>, capacity: nat, ops: seq<Op<T>>): (r: seq<T>)
    requires |contents| <= capacity
    ensures |r| <= capacity
    decreases |ops|
  {
    if ops == [] then contents else AfterRun(AfterOp(contents, capacity, ops[0]), capacity, ops[1..])
  }

  /** The frames a run's writes get into the ring, and those its reads get out, in order. */
  function RunAccepted<T>(contents: seq<T>, capacity: nat, ops: seq<Op<T>>): seq<T>
    requires |contents| <= capacity
    decreases |ops|
  {
    if ops == [] then []
    else
      var now := if ops[0].Put? then Accepted(contents, capacity, ops[0].data) else [];
      now + RunAccepted(AfterOp(contents, capacity, ops[0]), capacity, ops[1..])
  }

  function RunTaken<T>(contents: seq<T>, capacity: nat, ops: seq<Op<T>>): seq<T>
    requires |contents| <= capacity
    decreases |ops|
  {
    if ops == [] then []
    else
      var now := if ops[0].Get? then Taken(contents, ops[0].n) else [];
      now + RunTaken(AfterOp(contents, capacity, ops[0]), capacity, ops[1..])
  }

  /** Over any run of writes and reads the ring is a bounded first-in first-out queue: what came out, followed by
      what is still in, is what was in, followed by what went in. */
  lemma {:induction false} FifoRun<T>(contents: seq<T>, capacity: nat, ops: seq<Op<T>>)
    requires |contents| <= capacity
    ensures contents + RunAccepted(contents, capacity, ops)
            == RunTaken(contents, capacity, ops) + AfterRun(contents, capacity, ops)
    decreases |ops|
  {
    if ops != [] {
      var next := AfterOp(contents, capacity, ops[0]);
      FifoRun(next, capacity, ops[1..]);
      var more, out, rest := RunAccepted(next, capacity, ops[1..]), RunTaken(next, capacity, ops[1..]),
        AfterRun(next, capacity, ops[1..]);
      match ops[0]
      case Put(data) => PutStep(contents, Accepted(contents, capacity, data), more, out, rest);
      case Get(n) =>
        TakenSplits(contents, n);
        GetStep(Taken(contents, n), next, more, out, rest);
    }
  }

  lemma PutStep<T>(contents: seq<T>, now: seq<T>, more: seq<T>, out: seq<T>, rest: seq<T>)
    requires (contents + now) + more == out + rest
    ensures contents + (now + more) == ([] + out) + rest
  {
    assert (contents + now) + more == contents + (now + more);
    assert [] + out == out;
  }

  lemma GetStep<T>(now: seq<T>, next: seq<T>, more: seq<T>, out: seq<T>, rest: seq<T>)
    requires next + more == out + rest
    ensures (now + next) + ([] + more) == (now + out) + rest
  {
    assert (now + next) + more == now + (next + more);
    assert (now + out) + rest == now + (out + rest);
  }

  lemma TakenSplits<T>(contents: seq<T>, n: nat)
    ensures |Taken(contents, n)| <= |contents| && contents == Taken(contents, n) + contents[|Taken(contents, n)|..]
  {
  }
}

module ShuttleSpeed {

  /** `crossfadeFrames` is what is left of a fade; `crossfadeBuffer` holds the block played last. */
  datatype State = State(fractional: real, crossfadeFrames: nat, crossfadeBuffer: seq<real>, prevOff: bool)

  /** Sizes fixed when the engine is made; a fade is never longer than the work buffer. */
  datatype Config = Config(crossfadeLength: nat, bufferCapacity: nat)

  ghost predicate Fits(c: Config, s: State) {
    && 0 < c.crossfadeLength <= c.bufferCapacity == |s.crossfadeBuffer|
    && s.crossfadeFrames <= c.crossfadeLength && s.fractional >= 0.0
  }

  function Zeros(n: nat): (z: seq<real>)
    ensures |z| == n
  {
    seq(n, _ => 0.0)
  }

  function Min(a: nat, b: nat): nat {
    if a < b then a else b
  }

  /** The gain of the new block at frame `k` of it: a ramp that goes up by one fade-length-th a frame. */
  function Gain(c: Config, left: nat, k: nat): real
    requires c.crossfadeLength > 0
  {
    if k == 0 then 1.0 - left as real / c.crossfadeLength as real
        else Gain(c, left, k - 1) + 1.0 / c.crossfadeLength as real
  }

  function Mix(x: real, y: real, gain: real): real {
    x * gain + y * (1.0 - gain)
  }

  /** The first `n` frames of `dry` faded over from the block played last. */
  function Faded(c: Config, dry: seq<real>, tail: seq<real>, left: nat, n: nat): (r: seq<real>)
    requires c.crossfadeLength > 0 && n <= |dry| && n <= |tail|
    ensures |r| == |dry|
    ensures forall i | 0 <= i < n :: r[i] == Mix(dry[i], tail[i], Gain(c, left, i))
    ensures forall i | n <= i < |dry| :: r[i] == dry[i]
  {
    if n == 0 then dry
    else
      Faded(c, dry, tail, left, n - 1)[n - 1 := Mix(dry[n - 1], tail[n - 1], Gain(c, left, n - 1))]
  }

  lemma FadeStep(c: Config, dry: seq<real>, tail: seq<real>, left: nat, i: nat, head: seq<real>, out: seq<real>)
    requires c.crossfadeLength > 0 && i < |dry| && i < |tail| && head == Faded(c, dry, tail, left, i)
    requires out == head[i := Mix(dry[i], tail[i], Gain(c, left, i))]
    ensures out == Faded(c, dry, tail, left, i + 1)
  {
    hide Mix, Gain;
  }

  lemma NoFade(c: Config, dry: seq<real>, tail: seq<real>, left: nat)
    requires c.crossfadeLength > 0
    ensures Faded(c, dry, tail, left, 0) == dry
  {
  }

  /** Where the block starts: the external playhead wins over the stored fraction, and stays inside the track. */
  function Start(s: State, playhead: nat, length: nat): real
    requires length > 0
  {
    var f := if s.fractional.Floor != playhead then playhead as real else s.fractional;
    if f >= length as real then (length - 1) as real else f
  }

  /** The samples of a passthrough block of `frames`, silence behind the end. */
  function Dry(samples: seq<real>, start: nat, frames: nat): (r: seq<real>)
    requires start < |samples|
    ensures |r| == frames
  {
    var n := Min(frames, |samples| - start);
    samples[start..start + n] + Zeros(frames - n)
  }

  /** One block in passthrough mode: new state, new playhead, output. */
  function ProcessOff(c: Config, s: State, playhead: nat, samples: seq<real>, frames: nat, stopped: bool)
    : (r: (State, nat, seq<real>))
    requires Fits(c, s) && samples != []
    ensures Fits(c, r.0) && |r.2| == frames
  {
    if frames == 0 then (s, playhead, [])
    else
      var f := Start(s, playhead, |samples|);
      if stopped then (s.(fractional := f), f.Floor, Zeros(frames))
      else
        var left := if !s.prevOff && s.crossfadeFrames == 0 then c.crossfadeLength else s.crossfadeFrames;
        var n := Min(left, frames);
        var out := Faded(c, Dry(samples, f.Floor, frames), s.crossfadeBuffer, left, n);
        var save := Min(frames, c.bufferCapacity);
        var f2 := f + Min(frames, |samples| - f.Floor) as real;
        (State(f2, left - n, out[..save] + s.crossfadeBuffer[save..], true), f2.Floor, out)
  }

  /** Passthrough was the mode already, and no fade is running. */
  predicate Steady(s: State) {
    s.prevOff && s.crossfadeFrames == 0
  }

  lemma FloorAdd(f: real, n: nat)
    requires f >= 0.0
    ensures (f + n as real).Floor == f.Floor + n
  {
  }

  /** A steady block inside the track is the track's samples, and moves the playhead behind them. */
  lemma SteadyBlock(c: Config, s: State, playhead: nat, samples: seq<real>, frames: nat)
    requires Fits(c, s) && Steady(s) && playhead + frames <= |samples| && samples != []
    ensures var (s2, p2, out) := ProcessOff(c, s, playhead, samples, frames, false);
            Steady(s2) && p2 == playhead + frames && out == samples[playhead..playhead + frames]
  {
    if frames > 0 {
      FloorAdd(Start(s, playhead, |samples|), frames);
    }
  }

  function Sum(blocks: seq<nat>): nat {
    if blocks == [] then 0 else blocks[0] + Sum(blocks[1..])
  }

  /** Playing block after block. */
  function PlayBlocks(c: Config, s: State, playhead: nat, samples: seq<real>, blocks: seq<nat>): (State, nat, seq<real>)
    requires Fits(c, s) && samples != []
    decreases |blocks|
  {
    if blocks == [] then (s, playhead, [])
    else
      var (s1, p1, out) := ProcessOff(c, s, playhead, samples, blocks[0], false);
      var (s2, p2, rest) := PlayBlocks(c, s1, p1, samples, blocks[1..]);
      (s2, p2, out + rest)
  }

  /** However playback up to the end is divided into blocks, the output is the samples from the playhead on, each
      once and in order, and the playhead ends up behind them. */
  lemma {:induction false} AnyDivision(c: Config, s: State, playhead: nat, samples: seq<real>, blocks: seq<nat>)
    requires Fits(c, s) && Steady(s) && playhead + Sum(blocks) <= |samples| && samples != []
    ensures var (s2, p2, out) := PlayBlocks(c, s, playhead, samples, blocks);
            Steady(s2) && p2 == playhead + Sum(blocks) && out == samples[playhead..playhead + Sum(blocks)]
    decreases |blocks|
  {
    hide ProcessOff, Fits, Steady;
    if blocks != [] {
      SteadyBlock(c, s, playhead, samples, blocks[0]);
      var (s1, p1, out) := ProcessOff(c, s, playhead, samples, blocks[0], false);
      AnyDivision(c, s1, p1, samples, blocks[1..]);
    }
  }

  /** A steady block that reaches beyond the end is padded with silence; one that starts at or behind the end
      plays the last frame once more. Either way the playhead is left at the end. */
  lemma AtTheEnd(c: Config, s: State, playhead: nat, samples: seq<real>, frames: nat)
    requires Fits(c, s) && Steady(s) && samples != [] && frames > 0 && playhead + frames > |samples|
    ensures var (s2, p2, out) := ProcessOff(c, s, playhead, samples, frames, false);
            var from := if playhead < |samples| then playhead else |samples| - 1;
            Steady(s2) && p2 == |samples| && out == samples[from..] + Zeros(frames - (|samples| - from))
  {
    var f := Start(s, playhead, |samples|);
    FloorAdd(f, |samples| - f.Floor);
  }

  /** The ramp of a fade is one straight line, however the blocks divide it. */
  lemma RampContinues(c: Config, left: nat, m: nat, k: nat)
    requires c.crossfadeLength > 0 && m <= left
    ensures Gain(c, left, m + k) == Gain(c, left - m, k)
  {
    GainIs(c, left, m + k);
    GainIs(c, left - m, k);
  }

  lemma {:induction false} GainIs(c: Config, left: nat, k: nat)
    requires c.crossfadeLength > 0
    ensures Gain(c, left, k) == 1.0 - (left as real - k as real) / c.crossfadeLength as real
  {
    if k > 0 {
      GainIs(c, left, k - 1);
    }
  }

  /** A fade takes its length in frames over any division into blocks, and then playback is steady. */
  lemma {:induction false} FadeRunsOut(c: Config, s: State, playhead: nat, samples: seq<real>, blocks: seq<nat>)
    requires Fits(c, s) && samples != [] && s.prevOff
    ensures var (s2, _, _) := PlayBlocks(c, s, playhead, samples, blocks);
            s2.prevOff && s2.crossfadeFrames == if Sum(blocks) < s.crossfadeFrames
                then s.crossfadeFrames - Sum(blocks) else 0
    decreases |blocks|
  {
    if blocks != [] {
      var (s1, p1, out) := ProcessOff(c, s, playhead, samples, blocks[0], false);
      hide ProcessOff;
      FadeRunsOut(c, s1, p1, samples, blocks[1..]);
    }
  }

  /** A block starts at the external playhead, but never behind the last frame; a fraction is kept only while the
      playhead is where playback was and inside the track. */
  lemma StartIs(s: State, playhead: nat, length: nat)
    requires length > 0 && s.fractional >= 0.0
    ensures Start(s, playhead, length).Floor == if playhead < length then playhead else length - 1
    ensures s.fractional.Floor == playhead < length ==> Start(s, playhead, length) == s.fractional
    ensures s.fractional.Floor != playhead < length ==> Start(s, playhead, length) == playhead as real
  {
  }

  /** While stopped the output is silence: the playhead stays where it is, or at the last frame if it was behind it, and
      fade and saved tail stay as they were. */
  lemma StoppedIsSilent(c: Config, s: State, playhead: nat, samples: seq<real>, frames: nat)
    requires Fits(c, s) && samples != [] && frames > 0
    ensures var (s2, p2, out) := ProcessOff(c, s, playhead, samples, frames, true);
            && |out| == frames && (forall i | 0 <= i < frames :: out[i] == 0.0)
            && p2 == (if playhead < |samples| then playhead else |samples| - 1)
            && s2.crossfadeFrames == s.crossfadeFrames && s2.crossfadeBuffer == s.crossfadeBuffer
            && s2.prevOff == s.prevOff && s2.fractional.Floor == p2
  {
    StartIs(s, playhead, |samples|);
  }

  /** The first passthrough block after another mode fades over its full length from the block played last. */
  lemma FadeStarts(c: Config, s: State, playhead: nat, samples: seq<real>, frames: nat)
    requires Fits(c, s) && !s.prevOff && s.crossfadeFrames == 0 && frames > 0 && playhead + frames <= |samples|
    ensures var (s2, p2, out) := ProcessOff(c, s, playhead, samples, frames, false);
            && s2.prevOff && s2.crossfadeFrames == c.crossfadeLength - Min(c.crossfadeLength, frames)
            && p2 == playhead + frames
            && forall i | 0 <= i < frames ::
                 out[i] == if i < c.crossfadeLength
                           then Mix(samples[playhead + i], s.crossfadeBuffer[i], Gain(c, c.crossfadeLength, i))
                           else samples[playhead + i]
  {
    hide Mix, Gain;
    FloorAdd(Start(s, playhead, |samples|), frames);
    assert Dry(samples, playhead, frames) == samples[playhead..playhead + frames];
  }

  // ---- A fade divided into blocks ----

  /** Within a fade the old block still has weight, so the mix shows which old sample went in. */
  lemma MixTells(x: real, y: real, z: real, g: real)
    requires g < 1.0
    ensures Mix(x, y, g) == Mix(x, z, g) <==> y == z
  {
    assert Mix(x, y, g) - Mix(x, z, g) == (y - z) * (1.0 - g);
    if Mix(x, y, g) == Mix(x, z, g) && y != z {
      NonzeroProduct(y - z, 1.0 - g);
    }
  }

  lemma NonzeroProduct(a: real, b: real)
    requires a != 0.0 && b > 0.0
    ensures a * b != 0.0
  {
  }

  lemma GainBelowOne(c: Config, left: nat, k: nat)
    requires c.crossfadeLength > 0 && k < left
    ensures Gain(c, left, k) < 1.0
  {
    GainIs(c, left, k);
    var d, l := left as real - k as real, c.crossfadeLength as real;
    assert d > 0.0 && l > 0.0;
    QuotientPositive(d, l);
  }

  lemma QuotientPositive(a: real, b: real)
    requires a > 0.0 && b > 0.0
    ensures a / b > 0.0
  {
  }

  /** What the next block fades from: the block's output, already faded, and behind it the older tail. */
  function TailAfter(out: seq<real>, tail: seq<real>): (r: seq<real>)
    ensures |r| == |tail|
  {
    out[..Min(|out|, |tail|)] + tail[Min(|out|, |tail|)..]
  }

  /** One block of a fade: `left` frames of it are still to come, `tail` is the block played last. */
  function FadedOnce(c: Config, dry: seq<real>, tail: seq<real>, left: nat): (r: seq<real>)
    requires 0 < c.crossfadeLength && left <= |tail|
    ensures |r| == |dry|
  {
    Faded(c, dry, tail, left, Min(left, |dry|))
  }

  /** The same frames faded block after block. */
  function FadedInBlocks(c: Config, dry: seq<real>, tail: seq<real>, left: nat, blocks: seq<nat>): (r: seq<real>)
    requires 0 < c.crossfadeLength && left <= |tail| && |dry| == Sum(blocks)
    ensures |r| == |dry|
    decreases |blocks|
  {
    if blocks == [] then []
    else
      var m := blocks[0];
      var first := FadedOnce(c, dry[..m], tail, left);
      first + FadedInBlocks(c, dry[m..], TailAfter(first, tail), left - Min(left, m), blocks[1..])
  }

  /** In every block the saved tail holds what `once`, the tail of a fade in one block, holds at the same frame; the
      blocks begin at frame `from` of that fade. */
  ghost predicate TailsContinue(c: Config, dry: seq<real>, tail: seq<real>, left: nat, blocks: seq<nat>,
                                once: seq<real>, from: nat)
    requires 0 < c.crossfadeLength && left <= |tail| && |dry| == Sum(blocks) && (left > 0 ==> from + left <= |once|)
    decreases |blocks|
  {
    blocks == [] ||
    var m := blocks[0];
    && (forall k: nat | k < m && k < left :: tail[k] == once[from + k])
    && TailsContinue(c, dry[m..], TailAfter(FadedOnce(c, dry[..m], tail, left), tail), left - Min(left, m), blocks[1..],
                     once, from + m)
  }

  /** Frame `k` of `out` is what a fade in one block, entered at its frame `from`, makes of frame `k` of `dry`. */
  ghost predicate FadeAt(c: Config, dry: seq<real>, out: seq<real>, left: nat, once: seq<real>, from: nat, k: nat)
    requires 0 < c.crossfadeLength && k < |out| == |dry| && (left > 0 ==> from + left <= |once|)
  {
    out[k] == if k < left then Mix(dry[k], once[from + k], Gain(c, left, k)) else dry[k]
  }

  /** `out` is a fade of `dry` in one block from frame `from` on. */
  ghost predicate OneFade(c: Config, dry: seq<real>, out: seq<real>, left: nat, once: seq<real>, from: nat)
    requires 0 < c.crossfadeLength && |out| == |dry| && (left > 0 ==> from + left <= |once|)
  {
    forall k: nat | k < |dry| :: FadeAt(c, dry, out, left, once, from, k)
  }

  lemma FirstBlockIff(c: Config, dry: seq<real>, tail: seq<real>, left: nat, once: seq<real>, from: nat)
    requires 0 < c.crossfadeLength && left <= |tail| && (left > 0 ==> from + left <= |once|)
    ensures OneFade(c, dry, FadedOnce(c, dry, tail, left), left, once, from) <==>
      forall k: nat | k < |dry| && k < left :: tail[k] == once[from + k]
  {
    hide Mix, Gain;
    var out := FadedOnce(c, dry, tail, left);
    forall k: nat | k < |dry|
      ensures FadeAt(c, dry, out, left, once, from, k) <==> (k < left ==> tail[k] == once[from + k])
    {
      if k < left {
        GainBelowOne(c, left, k);
        MixTells(dry[k], tail[k], once[from + k], Gain(c, left, k));
      }
    }
  }

  /** A fade of `a + b` is a fade of `a` and, from its end on, of `b`. */
  lemma FadeSplits(c: Config, a: seq<real>, b: seq<real>, outA: seq<real>, outB: seq<real>, left: nat, once: seq<real>,
                   from: nat)
    requires 0 < c.crossfadeLength && |outA| == |a| && |outB| == |b| && (left > 0 ==> from + left <= |once|)
    ensures OneFade(c, a + b, outA + outB, left, once, from) <==>
      OneFade(c, a, outA, left, once, from) && OneFade(c, b, outB, left - Min(left, |a|), once, from + |a|)
  {
    var rest, behind := left - Min(left, |a|), from + |a|;
    forall k: nat | k < |a|
      ensures FadeAt(c, a + b, outA + outB, left, once, from, k) <==> FadeAt(c, a, outA, left, once, from, k)
    {
    }
    forall k: nat | k < |b|
      ensures FadeAt(c, a + b, outA + outB, left, once, from, |a| + k) <==> FadeAt(c, b, outB, rest, once, behind, k)
    {
      BehindAt(c, a, b, outA, outB, left, once, from, k);
    }
    hide FadeAt;
    if OneFade(c, a, outA, left, once, from) && OneFade(c, b, outB, rest, once, behind) {
      forall n: nat | n < |a + b| ensures FadeAt(c, a + b, outA + outB, left, once, from, n) {
        if n >= |a| {
          var k: nat := n - |a|;
          assert FadeAt(c, b, outB, rest, once, behind, k);
          assert n == |a| + k;
        }
      }
    }
  }

  lemma BehindAt(c: Config, a: seq<real>, b: seq<real>, outA: seq<real>, outB: seq<real>, left: nat, once: seq<real>,
                 from: nat, k: nat)
    requires 0 < c.crossfadeLength && |outA| == |a| && k < |outB| == |b| && (left > 0 ==> from + left <= |once|)
    ensures FadeAt(c, a + b, outA + outB, left, once, from, |a| + k)
      <==> FadeAt(c, b, outB, left - Min(left, |a|), once, from + |a|, k)
  {
    hide Mix, Gain;
    assert (outA + outB)[|a| + k] == outB[k] && (a + b)[|a| + k] == b[k];
    if |a| + k < left {
      RampContinues(c, left, |a|, k);
    }
  }

  lemma {:induction false} BlocksFadeIff(c: Config, dry: seq<real>, tail: seq<real>, left: nat, blocks: seq<nat>,
                                         once: seq<real>, from: nat)
    requires 0 < c.crossfadeLength && left <= |tail| && |dry| == Sum(blocks) && (left > 0 ==> from + left <= |once|)
    ensures OneFade(c, dry, FadedInBlocks(c, dry, tail, left, blocks), left, once, from) <==>
      TailsContinue(c, dry, tail, left, blocks, once, from)
    decreases |blocks|
  {
    hide OneFade, FadedOnce, TailAfter;
    if blocks == [] {
      NoFrames(c, dry, left, once, from);
    } else {
      var m := blocks[0];
      var first := FadedOnce(c, dry[..m], tail, left);
      var rest := left - Min(left, m);
      FirstBlockIff(c, dry[..m], tail, left, once, from);
      BlocksFadeIff(c, dry[m..], TailAfter(first, tail), rest, blocks[1..], once, from + m);
      FadeSplits(c, dry[..m], dry[m..], first, FadedInBlocks(c, dry[m..], TailAfter(first, tail), rest, blocks[1..]),
                 left, once, from);
      assert dry[..m] + dry[m..] == dry;
    }
  }

  lemma NoFrames(c: Config, dry: seq<real>, left: nat, once: seq<real>, from: nat)
    requires 0 < c.crossfadeLength && dry == [] && (left > 0 ==> from + left <= |once|)
    ensures OneFade(c, dry, [], left, once, from)
  {
  }

  lemma OneFadeIs(c: Config, dry: seq<real>, out: seq<real>, tail: seq<real>, left: nat)
    requires 0 < c.crossfadeLength && left <= |tail| && |out| == |dry|
    ensures OneFade(c, dry, out, left, tail, 0) <==> out == FadedOnce(c, dry, tail, left)
  {
    hide Mix, Gain;
    var once := FadedOnce(c, dry, tail, left);
    FirstBlockIff(c, dry, tail, left, tail, 0);
    if OneFade(c, dry, out, left, tail, 0) {
      forall k: nat | k < |dry| ensures out[k] == once[k] {
        assert FadeAt(c, dry, out, left, tail, 0, k);
      }
    }
  }

  /** However a fade is divided into blocks: its output is that of one block exactly when in every block the saved tail
      happens to continue the first one. Each block's faded output overwrites the tail the next one fades from. */
  lemma SplitFadeIff(c: Config, s: State, dry: seq<real>, blocks: seq<nat>)
    requires Fits(c, s) && |dry| == Sum(blocks)
    ensures var tail, left := s.crossfadeBuffer, s.crossfadeFrames;
            FadedInBlocks(c, dry, tail, left, blocks) == FadedOnce(c, dry, tail, left) <==>
              TailsContinue(c, dry, tail, left, blocks, tail, 0)
  {
    hide FadedInBlocks, FadedOnce, TailsContinue, OneFade;
    var tail, left := s.crossfadeBuffer, s.crossfadeFrames;
    BlocksFadeIff(c, dry, tail, left, blocks, tail, 0);
    OneFadeIs(c, dry, FadedInBlocks(c, dry, tail, left, blocks), tail, left);
  }

  /** A passthrough block inside the track, fading or not. */
  lemma InsideBlock(c: Config, s: State, playhead: nat, samples: seq<real>, n: nat)
    requires Fits(c, s) && s.prevOff && samples != [] && playhead + n <= |samples|
    ensures var (s2, p2, out) := ProcessOff(c, s, playhead, samples, n, false);
            && s2.prevOff && s2.crossfadeFrames == s.crossfadeFrames - Min(s.crossfadeFrames, n) && p2 == playhead + n
            && out == FadedOnce(c, samples[playhead..playhead + n], s.crossfadeBuffer, s.crossfadeFrames)
            && s2.crossfadeBuffer == TailAfter(out, s.crossfadeBuffer)
  {
    hide Faded;
    if n > 0 {
      FloorAdd(Start(s, playhead, |samples|), n);
      assert Dry(samples, playhead, n) == samples[playhead..playhead + n];
    } else {
      NoFade(c, [], s.crossfadeBuffer, s.crossfadeFrames);
    }
  }

  /** The engine's blocks are these fades, for any division of playback inside the track. */
  lemma {:induction false} BlocksFade(c: Config, s: State, playhead: nat, samples: seq<real>, blocks: seq<nat>)
    requires Fits(c, s) && s.prevOff && samples != [] && playhead + Sum(blocks) <= |samples|
    ensures var dry := samples[playhead..playhead + Sum(blocks)];
            && ProcessOff(c, s, playhead, samples, Sum(blocks), false).2
                 == FadedOnce(c, dry, s.crossfadeBuffer, s.crossfadeFrames)
            && PlayBlocks(c, s, playhead, samples, blocks).2
                 == FadedInBlocks(c, dry, s.crossfadeBuffer, s.crossfadeFrames, blocks)
    decreases |blocks|
  {
    hide Faded, ProcessOff, TailAfter, FadedOnce;
    InsideBlock(c, s, playhead, samples, Sum(blocks));
    if blocks != [] {
      var m := blocks[0];
      var dry := samples[playhead..playhead + Sum(blocks)];
      InsideBlock(c, s, playhead, samples, m);
      var (s1, p1, out) := ProcessOff(c, s, playhead, samples, m, false);
      BlocksFade(c, s1, p1, samples, blocks[1..]);
      assert dry[..m] == samples[playhead..playhead + m];
      assert dry[m..] == samples[p1..p1 + Sum(blocks[1..])];
    }
  }

  /** A fade of length 2 from [8, 2] into silence: one block of two frames gives [8, 1], two blocks of one [8, 4]. */
  lemma DivisionChangesFade()
    ensures var c, tail := Config(2, 2), [8.0, 2.0];
            && FadedOnce(c, [0.0, 0.0], tail, 2) == [8.0, 1.0]
            && FadedInBlocks(c, [0.0, 0.0], tail, 2, [1, 1]) == [8.0, 4.0]
  {
    var c, tail, dry := Config(2, 2), [8.0, 2.0], [0.0, 0.0];
    assert Gain(c, 2, 0) == 0.0 && Gain(c, 2, 1) == 0.5 && Gain(c, 1, 0) == 0.5;
    assert Mix(0.0, 8.0, 0.0) == 8.0 && Mix(0.0, 2.0, 0.5) == 1.0 && Mix(0.0, 8.0, 0.5) == 4.0;
    hide Mix, Gain;
    assert dry[..1] == [0.0] && dry[1..] == [0.0] && [0.0][..1] == [0.0] && [1, 1][1..] == [1];
    var first := FadedOnce(c, [0.0], tail, 2);
    assert first == [8.0];
    assert TailAfter(first, tail) == tail;
    var second := FadedOnce(c, [0.0], tail, 1);
    assert second == [4.0];
    assert FadedInBlocks(c, [0.0], tail, 1, [1]) == second + [];
  }

  // ---- The engine as it runs ----

  class Engine {
    const config: Config
    var fractionalPosition: real
    var crossfadeFrames: nat
    const crossfadeBuffer: array<real>
    var prevOff: bool

    constructor (config: Config)
      requires 0 < config.crossfadeLength <= config.bufferCapacity
      ensures Valid() && Value() == State(0.0, 0, Zeros(config.bufferCapacity), true) && this.config == config
      ensures fresh(crossfadeBuffer)
    {
      this.config := config;
      fractionalPosition, crossfadeFrames, prevOff := 0.0, 0, true;
      crossfadeBuffer := new real[config.bufferCapacity](_ => 0.0);
      new;
      assert crossfadeBuffer[..] == Zeros(config.bufferCapacity);
    }

    ghost function Value(): State
      reads this, crossfadeBuffer
    {
      State(fractionalPosition, crossfadeFrames, crossfadeBuffer[..], prevOff)
    }

    ghost predicate Valid()
      reads this, crossfadeBuffer
    {
      Fits(config, Value())
    }

    /** The crossfade's gain ramp over the head of a block. */
    method ApplyCrossfade(dry: seq<real>, fadeSamples: nat) returns (out: seq<real>)
      requires Valid() && crossfadeFrames > 0 && fadeSamples <= |dry| && fadeSamples <= crossfadeFrames
      ensures out == Faded(config, dry, crossfadeBuffer[..], crossfadeFrames, fadeSamples)
    {
      hide Mix, Faded;
      NoFade(config, dry, crossfadeBuffer[..], crossfadeFrames);
      var gainStep := 1.0 / config.crossfadeLength as real;
      var newGain := 1.0 - crossfadeFrames as real / config.crossfadeLength as real;
      out := dry;
      for i := 0 to fadeSamples
        invariant |out| == |dry| && newGain == Gain(config, crossfadeFrames, i)
        invariant forall k | i <= k < |dry| :: out[k] == dry[k]
        invariant out == Faded(config, dry, crossfadeBuffer[..], crossfadeFrames, i)
      {
        ghost var head := out;
        out := out[i := Mix(out[i], crossfadeBuffer[i], newGain)];
        FadeStep(config, dry, crossfadeBuffer[..], crossfadeFrames, i, head, out);
        newGain := newGain + gainStep;
      }
    }

    /** Follows a seek and keeps the position inside the track. */
    method SyncPosition(playhead: nat, length: nat)
      requires length > 0 && fractionalPosition >= 0.0
      modifies this`fractionalPosition
      ensures fractionalPosition == Start(old(Value()), playhead, length) >= 0.0
    {
      if fractionalPosition.Floor != playhead {
        fractionalPosition := playhead as real;
      }
      if fractionalPosition >= length as real {
        fractionalPosition := (length - 1) as real;
      }
    }

    /** Keeps the head of a block for a later fade. */
    method SaveOutput(out: seq<real>)
      requires crossfadeBuffer.Length == config.bufferCapacity
      modifies crossfadeBuffer
      ensures var save := Min(|out|, config.bufferCapacity);
              crossfadeBuffer[..] == out[..save] + old(crossfadeBuffer[..])[save..]
    {
      var saveFrames := Min(|out|, config.bufferCapacity);
      forall i | 0 <= i < saveFrames {
        crossfadeBuffer[i] := out[i];
      }
    }

    /** The fade, when the mode just changed or one is still running. */
    method Crossfade(dry: seq<real>) returns (out: seq<real>)
      requires Valid()
      modifies this`crossfadeFrames
      ensures var left := if !prevOff && old(crossfadeFrames) == 0 then config.crossfadeLength
        else old(crossfadeFrames);
              var n := Min(left, |dry|);
              out == Faded(config, dry, crossfadeBuffer[..], left, n) && crossfadeFrames == left - n
    {
      hide Faded, Mix;
      if !prevOff && crossfadeFrames == 0 {
        crossfadeFrames := config.crossfadeLength;
      }
      NoFade(config, dry, crossfadeBuffer[..], crossfadeFrames);
      out := dry;
      if crossfadeFrames > 0 {
        var fadeSamples := Min(crossfadeFrames, |dry|);
        out := ApplyCrossfade(dry, fadeSamples);
        crossfadeFrames := crossfadeFrames - fadeSamples;
      }
    }

    /** Renders one passthrough block. */
    method Process(playhead: nat, samples: seq<real>, frames: nat, stopped: bool)
        returns (playhead2: nat, out: seq<real>)
      requires Valid() && samples != []
      modifies this, crossfadeBuffer
      ensures Valid()
      ensures (Value(), playhead2, out) == ProcessOff(config, old(Value()), playhead, samples, frames, stopped)
    {
      hide Faded, Zeros, Start;
      if frames == 0 {
        return playhead, [];
      }
      SyncPosition(playhead, |samples|);
      if stopped {
        return fractionalPosition.Floor, Zeros(frames);
      }
      StartInside(old(Value()), playhead, |samples|);
      var srcFrame := fractionalPosition.Floor;
      var copyFrames := Min(frames, |samples| - srcFrame);
      out := samples[srcFrame..srcFrame + copyFrames] + Zeros(frames - copyFrames);
      fractionalPosition := fractionalPosition + copyFrames as real;
      out := Crossfade(out);
      SaveOutput(out);
      prevOff := true;
      playhead2 := fractionalPosition.Floor;
    }
  }

  lemma StartInside(s: State, playhead: nat, length: nat)
    requires length > 0 && s.fractional >= 0.0
    ensures 0.0 <= Start(s, playhead, length) && 0 <= Start(s, playhead, length).Floor < length
  {
  }
}
