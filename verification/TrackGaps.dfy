// Track numbering checks of an album: duplicate positions, continuous numbering across discs, and
// the ranges of missing numbers.

module TrackGaps {

  /** Disc and track number of a file's tags, 0 when unset. */
  datatype Track = Track(disc: nat, num: nat)

  type Range = r: (nat, nat) | r.0 <= r.1 witness (0, 0)

  datatype Report =
    | DuplicatePosition(first: nat, second: nat)
    | AlbumMissing(ranges: seq<Range>, have: nat, of: nat)
    | DiscMissing(disc: nat, ranges: seq<Range>, have: nat, of: nat)

  // ---- Numbers ----

  function Numbers(tracks: seq<Track>): (r: seq<nat>)
    ensures |r| == |tracks| && forall i | 0 <= i < |tracks| :: r[i] == tracks[i].num
  {
    seq(|tracks|, i requires 0 <= i < |tracks| => tracks[i].num)
  }

  /** The numbers of the tracks on one disc, in file order. */
  function NumbersOn(tracks: seq<Track>, disc: nat): seq<nat> {
    if tracks == [] then []
    else
      var last := tracks[|tracks| - 1];
      NumbersOn(tracks[..|tracks| - 1], disc) + (if last.disc == disc then [last.num] else [])
  }

  function Max(nums: seq<nat>): (m: nat)
    ensures forall i | 0 <= i < |nums| :: nums[i] <= m
    ensures m == 0 || m in nums
  {
    if nums == [] then 0
    else
      var rest := Max(nums[..|nums| - 1]);
      if nums[|nums| - 1] > rest then nums[|nums| - 1] else rest
  }

  function Discs(tracks: seq<Track>): (r: seq<nat>)
    ensures |r| == |tracks| && forall i | 0 <= i < |tracks| :: r[i] == tracks[i].disc
  {
    seq(|tracks|, i requires 0 <= i < |tracks| => tracks[i].disc)
  }

  // ---- Missing ranges ----

  /** The last number of the run of missing numbers that begins at `t`. */
  function RunEnd(nums: seq<nat>, t: nat, max: nat): (e: nat)
    requires t <= max && t !in nums
    ensures t <= e <= max && (e == max || e + 1 in nums)
    ensures forall k | t <= k <= e :: k !in nums
    decreases max - t
  {
    if t + 1 <= max && t + 1 !in nums then RunEnd(nums, t + 1, max) else t
  }

  function MissingFrom(nums: seq<nat>, t: nat, max: nat): seq<Range>
    decreases max + 1 - t
  {
    if t > max then []
    else if t in nums then MissingFrom(nums, t + 1, max)
    else [(t, RunEnd(nums, t, max))] + MissingFrom(nums, RunEnd(nums, t, max) + 1, max)
  }

  /** Sorted, disjoint and non-adjacent ranges that cover exactly the numbers missing from `low` to `max`. */
  ghost predicate Gaps(nums: seq<nat>, low: nat, max: nat, ranges: seq<Range>) {
    && (forall i | 0 <= i < |ranges| :: low <= ranges[i].0 && ranges[i].1 <= max)
    && (forall i, k | 0 <= i < k < |ranges| :: ranges[i].1 + 1 < ranges[k].0)
    && (forall t | low <= t <= max :: t !in nums <==> Covered(ranges, t))
  }

  ghost predicate Covered(ranges: seq<Range>, t: nat) {
    exists i :: 0 <= i < |ranges| && ranges[i].0 <= t <= ranges[i].1
  }

  lemma RunEndStep(nums: seq<nat>, t: nat, max: nat)
    requires t <= max && t !in nums
    ensures RunEnd(nums, t, max) == if t + 1 <= max && t + 1 !in nums then RunEnd(nums, t + 1, max) else t
  {
  }

  lemma MissingStep(nums: seq<nat>, t: nat, max: nat)
    requires t <= max
    ensures MissingFrom(nums, t, max) ==
      if t in nums then MissingFrom(nums, t + 1, max)
      else [(t, RunEnd(nums, t, max))] + MissingFrom(nums, RunEnd(nums, t, max) + 1, max)
  {
  }

  lemma NothingAbove(nums: seq<nat>, t: nat, max: nat)
    requires t > max
    ensures MissingFrom(nums, t, max) == []
  {
  }

  lemma NoGaps(nums: seq<nat>, t: nat, max: nat)
    requires t > max
    ensures Gaps(nums, t, max, [])
  {
  }

  lemma {:induction false} MissingIsExact(nums: seq<nat>, t: nat, max: nat)
    ensures Gaps(nums, t, max, MissingFrom(nums, t, max))
    decreases max + 1 - t
  {
    hide Gaps, RunEnd, MissingFrom;
    if t > max {
      NothingAbove(nums, t, max);
      NoGaps(nums, t, max);
    } else {
      MissingStep(nums, t, max);
      if t in nums {
        MissingIsExact(nums, t + 1, max);
        SkipPresent(nums, t, max, MissingFrom(nums, t + 1, max));
      } else {
        var e := RunEnd(nums, t, max);
        MissingIsExact(nums, e + 1, max);
        AddRange(nums, t, e, max, MissingFrom(nums, e + 1, max));
      }
    }
  }

  lemma SkipPresent(nums: seq<nat>, t: nat, max: nat, ranges: seq<Range>)
    requires t in nums && Gaps(nums, t + 1, max, ranges)
    ensures Gaps(nums, t, max, ranges)
  {
  }

  lemma CoveredBy(t: nat, e: nat, rest: seq<Range>, k: nat)
    requires t <= e
    ensures Covered([(t, e)] + rest, k) <==> t <= k <= e || Covered(rest, k)
  {
    var ranges: seq<Range> := [(t, e)] + rest;
    if t <= k <= e {
      assert ranges[0].0 <= k <= ranges[0].1;
    }
    if Covered(rest, k) {
      var i :| 0 <= i < |rest| && rest[i].0 <= k <= rest[i].1;
      assert ranges[i + 1].0 <= k <= ranges[i + 1].1;
    }
    if Covered(ranges, k) {
      var i :| 0 <= i < |ranges| && ranges[i].0 <= k <= ranges[i].1;
      assert i == 0 || rest[i - 1].0 <= k <= rest[i - 1].1;
    }
  }

  /** One more run in front. */
  lemma AddRange(nums: seq<nat>, t: nat, e: nat, max: nat, rest: seq<Range>)
    requires t <= e <= max && (e == max || e + 1 in nums) && (forall k | t <= k <= e :: k !in nums)
    requires Gaps(nums, e + 1, max, rest)
    ensures Gaps(nums, t, max, [(t, e)] + rest)
  {
    var ranges: seq<Range> := [(t, e)] + rest;
    forall i | 0 <= i < |rest| ensures e + 1 < rest[i].0 {
      assert rest[i].0 <= rest[i].0 <= rest[i].1;
      assert Covered(rest, rest[i].0);
    }
    hide Covered;
    forall k | t <= k <= max ensures k !in nums <==> Covered(ranges, k) {
      CoveredBy(t, e, rest, k);
      if k <= e {
      } else {
        assert k !in nums <==> Covered(rest, k);
      }
    }
  }

  /** The ranges are the only ones of this kind. */
  lemma {:induction false} GapsUnique(nums: seq<nat>, low: nat, max: nat, a: seq<Range>, b: seq<Range>)
    requires Gaps(nums, low, max, a) && Gaps(nums, low, max, b)
    ensures a == b
    decreases |a|
  {
    if a == [] || b == [] {
      if a != [] {
        assert Covered(a, a[0].0);
      }
      if b != [] {
        assert Covered(b, b[0].0);
      }
    } else {
      FirstAgrees(nums, low, max, a, b);
      RestGaps(nums, low, max, a);
      RestGaps(nums, low, max, b);
      GapsUnique(nums, a[0].1 + 1, max, a[1..], b[1..]);
      assert a == [a[0]] + a[1..] && b == [b[0]] + b[1..];
    }
  }

  lemma FirstAgrees(nums: seq<nat>, low: nat, max: nat, a: seq<Range>, b: seq<Range>)
    requires Gaps(nums, low, max, a) && Gaps(nums, low, max, b) && a != [] && b != []
    ensures a[0] == b[0]
  {
    FirstNotLater(nums, low, max, a, b);
    FirstNotLater(nums, low, max, b, a);
  }

  /** The first range of `b` begins no later than that of `a`, and if they begin together it ends no earlier. */
  lemma FirstNotLater(nums: seq<nat>, low: nat, max: nat, a: seq<Range>, b: seq<Range>)
    requires Gaps(nums, low, max, a) && Gaps(nums, low, max, b) && a != [] && b != []
    ensures b[0].0 <= a[0].0
    ensures b[0].0 == a[0].0 ==> a[0].1 <= b[0].1
  {
    assert Covered(a, a[0].0) && Covered(b, a[0].0);
    assert !Covered(b, b[0].1 + 1);
    assert a[0].0 <= b[0].1 + 1 <= a[0].1 ==> Covered(a, b[0].1 + 1);
  }

  lemma RestGaps(nums: seq<nat>, low: nat, max: nat, a: seq<Range>)
    requires Gaps(nums, low, max, a) && a != []
    ensures Gaps(nums, a[0].1 + 1, max, a[1..])
  {
    forall t | a[0].1 + 1 <= t <= max ensures t !in nums <==> Covered(a[1..], t) {
      assert [a[0]] + a[1..] == a;
      CoveredBy(a[0].0, a[0].1, a[1..], t);
    }
  }

  // ---- Counting ----

  ghost function Interval(low: nat, high: nat): (r: set<nat>)
    ensures forall t :: t in r <==> low <= t <= high
    decreases high + 1 - low
  {
    if low > high then {} else {low} + Interval(low + 1, high)
  }

  ghost function MissingSet(nums: seq<nat>, low: nat, max: nat): set<nat> {
    set t: nat | low <= t <= max && t !in nums
  }

  function Width(ranges: seq<Range>): nat {
    if ranges == [] then 0 else ranges[0].1 - ranges[0].0 + 1 + Width(ranges[1..])
  }

  lemma {:induction false} IntervalSize(low: nat, high: nat)
    requires low <= high + 1
    ensures |Interval(low, high)| == high + 1 - low
    decreases high + 1 - low
  {
    if low <= high {
      IntervalSize(low + 1, high);
      assert Interval(low, high) == {low} + Interval(low + 1, high);
    } else {
      assert Interval(low, high) == {};
    }
  }

  lemma MissingSetStep(nums: seq<nat>, t: nat, e: nat, max: nat)
    requires t <= e <= max && forall k | t <= k <= e :: k !in nums
    ensures |MissingSet(nums, t, max)| == e - t + 1 + |MissingSet(nums, e + 1, max)|
  {
    IntervalSize(t, e);
    assert MissingSet(nums, t, max) == Interval(t, e) + MissingSet(nums, e + 1, max);
    assert Interval(t, e) !! MissingSet(nums, e + 1, max);
  }

  lemma MissingSetSkip(nums: seq<nat>, t: nat, max: nat)
    requires t > max || t in nums
    ensures MissingSet(nums, t, max) == if t > max then {} else MissingSet(nums, t + 1, max)
  {
  }

  /** The reported ranges hold as many numbers as are missing. */
  lemma {:induction false} WidthCounts(nums: seq<nat>, t: nat, max: nat)
    ensures Width(MissingFrom(nums, t, max)) == |MissingSet(nums, t, max)|
    decreases max + 1 - t
  {
    hide MissingSet;
    if t > max || t in nums {
      MissingSetSkip(nums, t, max);
      if t <= max {
        WidthCounts(nums, t + 1, max);
      }
    } else {
      var e := RunEnd(nums, t, max);
      WidthCounts(nums, e + 1, max);
      MissingSetStep(nums, t, e, max);
    }
  }

  ghost predicate Distinct(nums: seq<nat>) {
    forall i, k | 0 <= i < k < |nums| :: nums[i] != nums[k]
  }

  ghost function Elements(nums: seq<nat>): set<nat> {
    set n | n in nums
  }

  lemma {:induction false} ElementsSize(nums: seq<nat>)
    ensures |Elements(nums)| <= |nums|
    ensures |Elements(nums)| == |nums| <==> Distinct(nums)
  {
    if nums == [] {
      assert Elements(nums) == {};
    } else {
      var front, last := nums[..|nums| - 1], nums[|nums| - 1];
      ElementsSize(front);
      assert Elements(nums) == Elements(front) + {last};
      if last in front {
        assert Elements(nums) == Elements(front);
        var i :| 0 <= i < |front| && front[i] == last;
        assert nums[i] == nums[|nums| - 1];
      }
    }
  }

  /** Numbers none of which is 0 or above `max`: how many of 1..max are missing. */
  lemma MissingCount(nums: seq<nat>, max: nat)
    requires forall n | n in nums :: 1 <= n <= max
    ensures |MissingSet(nums, 1, max)| == max - |Elements(nums)|
  {
    IntervalSize(1, max);
    assert Interval(1, max) == Elements(nums) + MissingSet(nums, 1, max);
    assert Elements(nums) !! MissingSet(nums, 1, max);
  }

  /** The same for any numbers up to `max`, 0 among them or not. */
  lemma MissingCountFrom(nums: seq<nat>, max: nat)
    requires forall i | 0 <= i < |nums| :: nums[i] <= max
    ensures |MissingSet(nums, 1, max)| == max - |Elements(nums) - {0}|
  {
    IntervalSize(1, max);
    var low := Elements(nums) - {0};
    assert Interval(1, max) == low + MissingSet(nums, 1, max);
    assert low !! MissingSet(nums, 1, max);
  }

  lemma WithoutZero(nums: seq<nat>)
    ensures |Elements(nums) - {0}| == |Elements(nums)| - (if 0 in nums then 1 else 0)
  {
    if 0 in nums {
      assert 0 in Elements(nums);
      assert Elements(nums) == (Elements(nums) - {0}) + {0};
    } else {
      assert Elements(nums) - {0} == Elements(nums);
    }
  }

  /** With as many numbers as the greatest of them, nothing is missing exactly when they are distinct and none is
      0: the shortcut hides a gap whenever a duplicate or an unset number makes up for it. */
  lemma ShortcutIff(nums: seq<nat>)
    requires |nums| == Max(nums)
    ensures MissingFrom(nums, 1, Max(nums)) == [] <==> Distinct(nums) && 0 !in nums
  {
    hide Elements, Interval, MissingSet, MissingFrom, Distinct;
    var max := Max(nums);
    WidthCounts(nums, 1, max);
    WidthZero(MissingFrom(nums, 1, max));
    ElementsSize(nums);
    MissingCountFrom(nums, max);
    WithoutZero(nums);
  }

  lemma WidthZero(ranges: seq<Range>)
    ensures Width(ranges) == 0 <==> ranges == []
  {
  }

  // ---- Numbering patterns ----

  /** No number but 0 occurs twice. */
  ghost predicate NonzeroDistinct(nums: seq<nat>) {
    forall i, k | 0 <= i < k < |nums| :: nums[i] != 0 ==> nums[i] != nums[k]
  }

  ghost predicate Continuous(tracks: seq<Track>) {
    && tracks != [] && Max(Discs(tracks)) > 1
    && NonzeroDistinct(Numbers(tracks)) && 1 in Numbers(tracks)
    && Max(Numbers(tracks)) >= |tracks|
  }

  /** When every number is set, the comparison of maximum and count decides nothing: distinct numbers cannot be
      more than their maximum. */
  lemma ContinuousIff(tracks: seq<Track>)
    requires 0 !in Numbers(tracks)
    ensures Continuous(tracks) <==> Max(Discs(tracks)) > 1 && Distinct(Numbers(tracks)) && 1 in Numbers(tracks)
  {
    var nums := Numbers(tracks);
    if Distinct(nums) {
      ElementsSize(nums);
      MissingCount(nums, Max(nums));
    }
  }

  /** How many numbers are set. */
  function SetCount(nums: seq<nat>): nat {
    if nums == [] then 0 else SetCount(nums[..|nums| - 1]) + (if nums[|nums| - 1] != 0 then 1 else 0)
  }

  lemma {:induction false} SetCountIs(nums: seq<nat>)
    ensures SetCount(nums) <= |nums| && (SetCount(nums) == |nums| <==> 0 !in nums)
    ensures NonzeroDistinct(nums) ==> SetCount(nums) == |Elements(nums) - {0}|
  {
    if nums == [] {
      assert Elements(nums) == {};
    } else {
      var front, last := nums[..|nums| - 1], nums[|nums| - 1];
      SetCountIs(front);
      assert nums == front + [last];
      assert NonzeroDistinct(nums) ==> NonzeroDistinct(front) && (last != 0 ==> last !in front);
      hide NonzeroDistinct;
      assert Elements(nums) - {0} == Elements(front) - {0} + (if last != 0 then {last} else {});
    }
  }

  /** A continuously numbered album is reported to miss exactly as many tracks as its greatest number exceeds the
      count of its set numbers. */
  lemma ContinuousMissing(tracks: seq<Track>)
    requires Continuous(tracks)
    ensures var nums := Numbers(tracks); Width(MissingFrom(nums, 1, Max(nums))) == Max(nums) - SetCount(nums)
  {
    hide Elements, MissingFrom, Width, MissingSet;
    var nums := Numbers(tracks);
    SetCountIs(nums);
    MissingCountFrom(nums, Max(nums));
    WidthCounts(nums, 1, Max(nums));
  }

  /** The described sequence 1..N of N tracks is what is checked, not what is detected: a continuously numbered
      album misses nothing exactly when all its numbers are set and its greatest number is its track count. An
      unset number, which must be made up for by a greater maximum to be detected, always leaves one missing. */
  lemma ContinuousCompleteIff(tracks: seq<Track>)
    requires Continuous(tracks)
    ensures var nums := Numbers(tracks);
            && (MissingFrom(nums, 1, Max(nums)) == [] <==> 0 !in nums && Max(nums) == |tracks|)
            && (Complete(nums) <==> 0 !in nums && Max(nums) == |tracks|)
  {
    hide MissingFrom, Width, Max;
    var nums := Numbers(tracks);
    ContinuousMissing(tracks);
    SetCountIs(nums);
    WidthZero(MissingFrom(nums, 1, Max(nums)));
    NoneMissingIff(nums, Max(nums));
    assert 0 !in nums ==> Distinct(nums);
  }

  /** Tracks 1 and 3 on two discs are detected as continuous although they are no sequence 1..2. */
  lemma ContinuousWithGap()
    ensures var tracks := [Track(1, 1), Track(2, 3)]; Continuous(tracks) && !Complete(Numbers(tracks))
  {
    var tracks := [Track(1, 1), Track(2, 3)];
    var nums := Numbers(tracks);
    assert nums[0] == 1 && nums[1] == 3;
    assert Discs(tracks)[1] == 2;
    assert 2 !in nums && Max(nums) >= 3;
  }

  // ---- The report ----

  /** The first pair of tracks at one position, pairs in file order. */
  function DuplicateFrom(tracks: seq<Track>, i: nat, j: nat): seq<Report>
    requires i < j
    decreases |tracks| - i, |tracks| - j
  {
    if i >= |tracks| then []
    else if j >= |tracks| then DuplicateFrom(tracks, i + 1, i + 2)
    else if tracks[i] == tracks[j] then [DuplicatePosition(i, j)]
    else DuplicateFrom(tracks, i, j + 1)
  }

  function AlbumReport(tracks: seq<Track>): seq<Report> {
    var nums := Numbers(tracks);
    var ranges := MissingFrom(nums, 1, Max(nums));
    if ranges == [] then [] else [AlbumMissing(ranges, |tracks|, Max(nums))]
  }

  /** The report for one disc: none when it has as many tracks as its greatest number. */
  function DiscReport(tracks: seq<Track>, disc: nat): seq<Report> {
    var nums := NumbersOn(tracks, disc);
    var ranges := MissingFrom(nums, 1, Max(nums));
    if |nums| == Max(nums) || ranges == [] then []
    else if Max(Discs(tracks)) > 0 then [DiscMissing(disc, ranges, |nums|, Max(nums))]
    else [AlbumMissing(ranges, |nums|, Max(nums))]
  }

  function DiscReports(tracks: seq<Track>, n: nat): seq<Report> {
    if n == 0 then [] else DiscReports(tracks, n - 1) + DiscReport(tracks, n - 1)
  }

  ghost function Reports(tracks: seq<Track>): seq<Report> {
    if tracks == [] then []
    else
      var gaps := if Continuous(tracks) then AlbumReport(tracks) else DiscReports(tracks, Max(Discs(tracks)) + 1);
      DuplicateFrom(tracks, 0, 1) + gaps
  }

  lemma {:induction false} DuplicateIff(tracks: seq<Track>, i: nat, j: nat)
    requires i < j
    ensures DuplicateFrom(tracks, i, j) == [] <==>
      (forall k | j <= k < |tracks| && i < |tracks| :: tracks[i] != tracks[k])
      && (forall a, b | i < a < b < |tracks| :: tracks[a] != tracks[b])
    decreases |tracks| - i, |tracks| - j
  {
    if i < |tracks| {
      if j >= |tracks| {
        DuplicateIff(tracks, i + 1, i + 2);
      } else if tracks[i] != tracks[j] {
        DuplicateIff(tracks, i, j + 1);
      }
    }
  }

  /** What the scan from pair (i, j) on reports is the first pair of equal positions. */
  ghost predicate FirstDuplicate(tracks: seq<Track>, i: nat, j: nat, first: nat, second: nat) {
    && first < second < |tracks| && tracks[first] == tracks[second]
    && (i < first || (i == first && j <= second))
    && (forall a, b | i <= a <= first && a < b < |tracks| && (a > i || b >= j) && (a < first || b < second) ::
          tracks[a] != tracks[b])
  }

  lemma {:induction false} DuplicateIsFirst(tracks: seq<Track>, i: nat, j: nat)
    requires i < j
    ensures var r := DuplicateFrom(tracks, i, j);
            r != [] ==> |r| == 1 && r[0].DuplicatePosition? && FirstDuplicate(tracks, i, j, r[0].first, r[0].second)
    decreases |tracks| - i, |tracks| - j
  {
    if i < |tracks| {
      if j >= |tracks| {
        DuplicateIsFirst(tracks, i + 1, i + 2);
      } else if tracks[i] != tracks[j] {
        DuplicateIsFirst(tracks, i, j + 1);
      }
    }
  }

  ghost predicate PositionsDistinct(tracks: seq<Track>) {
    forall a, b | 0 <= a < b < |tracks| :: tracks[a] != tracks[b]
  }

  /** Every number from 1 to the greatest is there. */
  ghost predicate NoneMissing(nums: seq<nat>) {
    forall t | 1 <= t <= Max(nums) :: t in nums
  }

  /** The numbers from 1 on, each exactly once, and no unset one. */
  ghost predicate Complete(nums: seq<nat>) {
    Distinct(nums) && 0 !in nums && NoneMissing(nums)
  }

  /** One unset number stands in for the one missing number. */
  ghost predicate UnsetHidesOne(nums: seq<nat>) {
    0 in nums && |MissingSet(nums, 1, Max(nums))| == 1
  }

  lemma NoneMissingIff(nums: seq<nat>, max: nat)
    ensures MissingFrom(nums, 1, max) == [] <==> forall t | 1 <= t <= max :: t in nums
  {
    MissingIsExact(nums, 1, max);
    var ranges := MissingFrom(nums, 1, max);
    if ranges != [] {
      assert Covered(ranges, ranges[0].0);
    }
  }

  lemma {:induction false} DiscReportsIff(tracks: seq<Track>, n: nat)
    ensures DiscReports(tracks, n) == [] <==> forall d: nat | d < n :: DiscReport(tracks, d) == []
  {
    hide DiscReport;
    if n > 0 {
      DiscReportsIff(tracks, n - 1);
    }
  }

  lemma {:induction false} OnDiscDistinct(tracks: seq<Track>, disc: nat)
    requires PositionsDistinct(tracks)
    ensures Distinct(NumbersOn(tracks, disc))
    ensures forall n :: n in NumbersOn(tracks, disc) <==> Track(disc, n) in tracks
  {
    if tracks != [] {
      var front, last := tracks[..|tracks| - 1], tracks[|tracks| - 1];
      OnDiscDistinct(front, disc);
      assert forall n :: Track(disc, n) in tracks <==> Track(disc, n) in front || Track(disc, n) == last;
      assert last !in front;
    }
  }

  lemma {:induction false} OnDiscMembers(tracks: seq<Track>, disc: nat)
    ensures forall n :: n in NumbersOn(tracks, disc) <==> Track(disc, n) in tracks
  {
    if tracks != [] {
      var front, last := tracks[..|tracks| - 1], tracks[|tracks| - 1];
      OnDiscMembers(front, disc);
      assert forall n :: Track(disc, n) in tracks <==> Track(disc, n) in front || Track(disc, n) == last;
    }
  }

  /** Distinct numbers are as many as their maximum exactly when what is missing is made up for by an unset one. */
  lemma DistinctCount(nums: seq<nat>)
    requires Distinct(nums)
    ensures |MissingSet(nums, 1, Max(nums))| == Max(nums) - |nums| + (if 0 in nums then 1 else 0)
  {
    hide Elements, MissingSet, Distinct;
    ElementsSize(nums);
    MissingCountFrom(nums, Max(nums));
    WithoutZero(nums);
  }

  lemma DiscSilentIff(tracks: seq<Track>, d: nat)
    requires PositionsDistinct(tracks)
    ensures var nums := NumbersOn(tracks, d); DiscReport(tracks, d) == [] <==> NoneMissing(nums) || UnsetHidesOne(nums)
  {
    hide MissingFrom, MissingSet, Distinct, Max;
    var nums := NumbersOn(tracks, d);
    OnDiscDistinct(tracks, d);
    NoneMissingIff(nums, Max(nums));
    DistinctCount(nums);
    WidthCounts(nums, 1, Max(nums));
    WidthZero(MissingFrom(nums, 1, Max(nums)));
  }

  lemma ContinuousSilentIff(tracks: seq<Track>)
    requires Continuous(tracks)
    ensures AlbumReport(tracks) == [] <==> Complete(Numbers(tracks))
    ensures Complete(Numbers(tracks)) ==> PositionsDistinct(tracks)
  {
    hide MissingFrom, NoneMissing, Continuous;
    ContinuousCompleteIff(tracks);
    var nums := Numbers(tracks);
    if Complete(nums) {
      forall a, b | 0 <= a < b < |tracks| ensures tracks[a] != tracks[b] {
        assert nums[a] != nums[b];
      }
    }
  }

  ghost predicate DiscsSilent(tracks: seq<Track>) {
    forall d: nat | d <= Max(Discs(tracks)) :: NoneMissing(NumbersOn(tracks, d)) || UnsetHidesOne(NumbersOn(tracks, d))
  }

  lemma DiscsSilentIff(tracks: seq<Track>)
    requires PositionsDistinct(tracks)
    ensures DiscReports(tracks, Max(Discs(tracks)) + 1) == [] <==> DiscsSilent(tracks)
  {
    hide DiscReport, NoneMissing, UnsetHidesOne, Max, PositionsDistinct;
    DiscReportsIff(tracks, Max(Discs(tracks)) + 1);
    forall d: nat | d <= Max(Discs(tracks))
      ensures var nums := NumbersOn(tracks, d);
              DiscReport(tracks, d) == [] <==> NoneMissing(nums) || UnsetHidesOne(nums)
    {
      DiscSilentIff(tracks, d);
    }
  }

  /** When an album gets no report at all. Numbered continuously: exactly when it holds 1..max once each and nothing
      unset. Otherwise: exactly when all positions differ and no disc misses a number, or misses one only, for
      which a track with an unset number makes up. The duplicate check makes up for the shortcut in all other
      cases. */
  lemma SilentIff(tracks: seq<Track>)
    requires tracks != []
    ensures Continuous(tracks) ==> (Reports(tracks) == [] <==> Complete(Numbers(tracks)))
    ensures !Continuous(tracks) ==> (Reports(tracks) == [] <==> PositionsDistinct(tracks) && DiscsSilent(tracks))
  {
    hide AlbumReport, DiscReports, Continuous, Complete, Max, DuplicateFrom, DiscsSilent, PositionsDistinct;
    DuplicatesAre(tracks);
    if Continuous(tracks) {
      ContinuousSilentIff(tracks);
    } else if PositionsDistinct(tracks) {
      DiscsSilentIff(tracks);
    }
  }

  ghost predicate DiscsComplete(tracks: seq<Track>) {
    forall d: nat | d <= Max(Discs(tracks)) :: Complete(NumbersOn(tracks, d))
  }

  /** With all numbers set, silence means completeness, of the album or of each disc. */
  lemma SilentWhenSetIff(tracks: seq<Track>)
    requires tracks != [] && 0 !in Numbers(tracks)
    ensures Continuous(tracks) ==> (Reports(tracks) == [] <==> Complete(Numbers(tracks)))
    ensures !Continuous(tracks) ==> (Reports(tracks) == [] <==> PositionsDistinct(tracks) && DiscsComplete(tracks))
  {
    hide Continuous, NoneMissing, Distinct, Reports, Max, PositionsDistinct;
    SilentIff(tracks);
    forall d: nat
      ensures 0 !in NumbersOn(tracks, d) && (PositionsDistinct(tracks) ==> Distinct(NumbersOn(tracks, d)))
    {
      UnsetNowhere(tracks, d);
      if PositionsDistinct(tracks) {
        OnDiscDistinct(tracks, d);
      }
    }
  }

  lemma UnsetNowhere(tracks: seq<Track>, d: nat)
    requires 0 !in Numbers(tracks)
    ensures 0 !in NumbersOn(tracks, d)
  {
    OnDiscMembers(tracks, d);
    forall i | 0 <= i < |tracks| ensures tracks[i] != Track(d, 0) {
      assert Numbers(tracks)[i] != 0;
    }
  }

  lemma TwoOnDisc()
    ensures var tracks := [Track(1, 0), Track(1, 2)];
            NumbersOn(tracks, 1) == [0, 2] && NumbersOn(tracks, 0) == [] && Max(Discs(tracks)) == 1
    ensures var nums := [0, 2]; Max(nums) == 2 && !NoneMissing(nums) && UnsetHidesOne(nums)
  {
    var tracks := [Track(1, 0), Track(1, 2)];
    assert tracks[..1] == [Track(1, 0)] && tracks[..1][..0] == [];
    assert NumbersOn([Track(1, 0)], 1) == [0] && NumbersOn([Track(1, 0)], 0) == [];
    assert Discs(tracks)[0] == 1;
    var nums: seq<nat> := [0, 2];
    assert nums[0] == 0 && nums[1] == 2 && Max(nums) == 2;
    assert 1 !in nums && MissingSet(nums, 1, 2) == {1};
  }

  lemma NothingOnDisc()
    ensures NoneMissing([])
  {
    assert Max([]) == 0;
  }

  /** An album of an unnumbered track and track 2 gets no report although track 1 is missing. */
  lemma UnsetHidesGap()
    ensures var tracks := [Track(1, 0), Track(1, 2)];
            Reports(tracks) == [] && Track(1, 1) !in tracks && !NoneMissing(NumbersOn(tracks, 1))
  {
    hide Max, NumbersOn, Reports, UnsetHidesOne, NoneMissing;
    var tracks := [Track(1, 0), Track(1, 2)];
    TwoOnDisc();
    NothingOnDisc();
    SilentIff(tracks);
  }

  lemma DuplicatesAre(tracks: seq<Track>)
    ensures DuplicateFrom(tracks, 0, 1) == [] <==> PositionsDistinct(tracks)
  {
    DuplicateIff(tracks, 0, 1);
  }

  /** The shortcut alone: three tracks numbered 1, 1 and 3 get no gap report although 2 is missing. */
  lemma ShortcutHidesGap()
    ensures var nums := [1, 1, 3]; |nums| == Max(nums) && MissingFrom(nums, 1, Max(nums)) != []
  {
    var nums: seq<nat> := [1, 1, 3];
    assert nums[..2] == [1, 1] && nums[..2][..1] == [1] && nums[..2][..1][..0] == [];
    assert Max([]) == 0;
    assert Max([1]) == 1;
    assert Max([1, 1]) == 1;
    assert Max(nums) == 3;
    ShortcutIff(nums);
    assert nums[0] == nums[1];
  }

  // ---- The loops ----

  const UINT16: nat := 0x1_0000

  method FindMax(nums: seq<nat>) returns (max: nat)
    ensures max == Max(nums)
  {
    max := 0;
    for i := 0 to |nums|
      invariant max == Max(nums[..i])
    {
      assert nums[..i + 1][..i] == nums[..i];
      if nums[i] > max {
        max := nums[i];
      }
    }
    assert nums[..|nums|] == nums;
  }

  /** Presence flags of the numbers up to the maximum. */
  method MarkPresent(nums: seq<nat>, max: nat) returns (present: array<bool>)
    requires forall i | 0 <= i < |nums| :: nums[i] <= max
    ensures fresh(present) && present.Length == max + 1
    ensures forall t | 0 <= t <= max :: present[t] <==> t in nums
  {
    present := new bool[max + 1](_ => false);
    for i := 0 to |nums|
      invariant forall t | 0 <= t <= max :: present[t] <==> t in nums[..i]
    {
      present[nums[i]] := true;
      assert nums[..i + 1] == nums[..i] + [nums[i]];
    }
    assert nums[..|nums|] == nums;
  }

  /** Collects the runs of absent numbers; the 16-bit counter must be able to pass the maximum. */
  method CollectRanges(present: array<bool>, nums: seq<nat>, max: nat) returns (ranges: seq<Range>)
    requires max < UINT16 - 1 && present.Length == max + 1
    requires forall t | 0 <= t <= max :: present[t] <==> t in nums
    ensures ranges == MissingFrom(nums, 1, max)
  {
    hide RunEnd, MissingFrom;
    ranges := [];
    var t: nat := 1;
    while t <= max
      invariant 1 <= t <= max + 1
      invariant ranges + MissingFrom(nums, t, max) == MissingFrom(nums, 1, max)
      decreases max + 1 - t
    {
      MissingStep(nums, t, max);
      if present[t] {
        t := t + 1;
        continue;
      }
      var rangeStart := t;
      while t + 1 <= max && !present[t + 1]
        invariant rangeStart <= t <= max && t !in nums
        invariant RunEnd(nums, rangeStart, max) == RunEnd(nums, t, max)
        decreases max - t
      {
        RunEndStep(nums, t, max);
        t := t + 1;
      }
      RunEndStep(nums, t, max);
      ranges := ranges + [(rangeStart, t)];
      t := t + 1;
    }
    NothingAbove(nums, t, max);
  }

  // The same loops in 16-bit arithmetic, for every maximum a tag can hold.

  /** Where one pass of the outer loop leaves the counter: behind the present number or the run of missing ones,
      modulo 2^16. */
  function Pass(nums: seq<nat>, max: nat, t: nat): (r: nat)
    requires t <= max < UINT16
    ensures r < UINT16
  {
    (if t in nums then t + 1 else RunEnd(nums, t, max) + 1) % UINT16
  }

  /** The counter after `n` passes; a counter above the maximum stays where it is. */
  function Passes(nums: seq<nat>, max: nat, t: nat, n: nat): (r: nat)
    requires t < UINT16 && max < UINT16
    ensures r < UINT16
    decreases n
  {
    if n == 0 || t > max then t else Passes(nums, max, Pass(nums, max, t), n - 1)
  }

  lemma {:induction false} PassesEnd(nums: seq<nat>, max: nat, t: nat) returns (n: nat)
    requires t < UINT16 && max < UINT16 - 1
    ensures Passes(nums, max, t, n) > max
    decreases max + 1 - t
  {
    n := 0;
    if t <= max {
      hide RunEnd;
      assert Pass(nums, max, t) > t;
      n := PassesEnd(nums, max, Pass(nums, max, t));
      n := n + 1;
    }
  }

  /** The loop over the numbers ends, after some number of passes, exactly when the maximum is below 65535: at
      65535 no 16-bit counter passes it. */
  lemma CounterPassesIff(nums: seq<nat>, max: nat)
    requires max < UINT16
    ensures (exists n: nat :: Passes(nums, max, 1, n) > max) <==> max < UINT16 - 1
  {
    if max < UINT16 - 1 {
      var n := PassesEnd(nums, max, 1);
    }
  }

  /** Whether no set number occurs twice, by flags of the numbers seen. */
  method NoDuplicates(nums: seq<nat>, maxTrack: nat) returns (distinct: bool)
    requires forall i | 0 <= i < |nums| :: nums[i] <= maxTrack
    ensures distinct <==> NonzeroDistinct(nums)
  {
    var seen := new bool[maxTrack + 1](_ => false);
    for i := 0 to |nums|
      invariant forall n | 0 <= n <= maxTrack :: seen[n] <==> n != 0 && n in nums[..i]
      invariant NonzeroDistinct(nums[..i])
    {
      var num := nums[i];
      assert nums[..i + 1] == nums[..i] + [num];
      if num == 0 {
        continue;
      }
      if seen[num] {
        return false;
      }
      seen[num] := true;
    }
    assert nums[..|nums|] == nums;
    distinct := true;
  }

  method StartsFromOne(nums: seq<nat>) returns (starts: bool)
    ensures starts <==> 1 in nums
  {
    for i := 0 to |nums|
      invariant 1 !in nums[..i]
    {
      if nums[i] == 1 {
        return true;
      }
    }
    return false;
  }

  /** Looks for duplicates among the set numbers, then for number 1, then compares maximum and count. */
  method UsesContinuousNumbering(tracks: seq<Track>) returns (continuous: bool)
    ensures continuous <==> Continuous(tracks)
  {
    hide Max, NonzeroDistinct;
    if |tracks| == 0 {
      return false;
    }
    var maxDisc := FindMax(Discs(tracks));
    if maxDisc <= 1 {
      return false;
    }
    var nums := Numbers(tracks);
    var maxTrack := FindMax(nums);
    MaxBounds(nums);
    var distinct := NoDuplicates(nums, maxTrack);
    if !distinct {
      return false;
    }
    var startsFromOne := StartsFromOne(nums);
    if !startsFromOne {
      return false;
    }
    continuous := maxTrack > |tracks| || maxTrack == |tracks|;
  }

  /** Compares all pairs and reports the first duplicate. */
  method CheckDuplicatePositions(tracks: seq<Track>) returns (reports: seq<Report>)
    ensures reports == DuplicateFrom(tracks, 0, 1)
    ensures reports == [] <==> PositionsDistinct(tracks)
    ensures reports != [] ==> |reports| == 1 && reports[0].DuplicatePosition?
                              && FirstDuplicate(tracks, 0, 1, reports[0].first, reports[0].second)
  {
    hide FirstDuplicate, PositionsDistinct;
    DuplicatesAre(tracks);
    DuplicateIsFirst(tracks, 0, 1);
    NoPairs(tracks);
    if |tracks| < 2 {
      return [];
    }
    var i := 0;
    while i < |tracks|
      invariant 0 <= i <= |tracks| && DuplicateFrom(tracks, i, i + 1) == DuplicateFrom(tracks, 0, 1)
    {
      var j := i + 1;
      while j < |tracks|
        invariant i < j <= |tracks| && DuplicateFrom(tracks, i, j) == DuplicateFrom(tracks, 0, 1)
      {
        if tracks[i] == tracks[j] {
          return [DuplicatePosition(i, j)];
        }
        j := j + 1;
      }
      i := i + 1;
    }
    return [];
  }

  lemma NoPairs(tracks: seq<Track>)
    ensures |tracks| < 2 ==> DuplicateFrom(tracks, 0, 1) == []
  {
    if |tracks| == 1 {
      assert DuplicateFrom(tracks, 0, 1) == DuplicateFrom(tracks, 1, 2);
    }
  }

  method CheckGlobalTrackSequence(tracks: seq<Track>) returns (reports: seq<Report>)
    requires Max(Numbers(tracks)) < UINT16 - 1
    ensures reports == AlbumReport(tracks)
  {
    hide Max;
    var nums := Numbers(tracks);
    var maxTrack := FindMax(nums);
    if maxTrack == 0 {
      return [];
    }
    MaxBounds(nums);
    var present := MarkPresent(nums, maxTrack);
    var missing := CollectRanges(present, nums, maxTrack);
    if missing != [] {
      return [AlbumMissing(missing, |tracks|, maxTrack)];
    }
    return [];
  }

  lemma MaxBounds(nums: seq<nat>)
    ensures forall i | 0 <= i < |nums| :: nums[i] <= Max(nums)
  {
  }

  /** The numbers of one disc's tracks. */
  method CollectDisc(tracks: seq<Track>, disc: nat) returns (nums: seq<nat>)
    ensures nums == NumbersOn(tracks, disc)
  {
    nums := [];
    for i := 0 to |tracks|
      invariant nums == NumbersOn(tracks[..i], disc)
    {
      assert tracks[..i + 1][..i] == tracks[..i];
      if tracks[i].disc == disc {
        nums := nums + [tracks[i].num];
      }
    }
    assert tracks[..|tracks|] == tracks;
  }

  /** One disc of the per-disc check, with its shortcut. */
  method CheckDisc(tracks: seq<Track>, disc: nat, maxDisc: nat) returns (reports: seq<Report>)
    requires Max(NumbersOn(tracks, disc)) < UINT16 - 1 && maxDisc == Max(Discs(tracks))
    ensures reports == DiscReport(tracks, disc)
  {
    hide Max;
    var nums := CollectDisc(tracks, disc);
    var maxTrack := FindMax(nums);
    if |nums| == 0 || maxTrack == 0 {
      NothingBelowOne(nums, maxTrack);
      return [];
    }
    if |nums| == maxTrack {
      return [];
    }
    MaxBounds(nums);
    var present := MarkPresent(nums, maxTrack);
    var missing := CollectRanges(present, nums, maxTrack);
    if missing == [] {
      return [];
    }
    if maxDisc > 0 {
      return [DiscMissing(disc, missing, |nums|, maxTrack)];
    }
    return [AlbumMissing(missing, |nums|, maxTrack)];
  }

  lemma NothingBelowOne(nums: seq<nat>, max: nat)
    requires max == Max(nums) && (nums == [] || max == 0)
    ensures MissingFrom(nums, 1, max) == []
  {
  }

  method CheckPerDiscTrackGaps(tracks: seq<Track>) returns (reports: seq<Report>)
    requires Max(Discs(tracks)) < UINT16 - 1
    requires forall d | 0 <= d <= Max(Discs(tracks)) :: Max(NumbersOn(tracks, d)) < UINT16 - 1
    ensures reports == DiscReports(tracks, Max(Discs(tracks)) + 1)
  {
    hide Max, DiscReport;
    var maxDisc := FindMax(Discs(tracks));
    reports := [];
    for disc := 0 to maxDisc + 1
      invariant reports == DiscReports(tracks, disc)
    {
      var more := CheckDisc(tracks, disc, maxDisc);
      reports := reports + more;
    }
  }

  /** Every tag number can be passed by a 16-bit counter. */
  ghost predicate Countable(tracks: seq<Track>) {
    forall i | 0 <= i < |tracks| :: tracks[i].disc < UINT16 - 1 && tracks[i].num < UINT16 - 1
  }

  lemma CountableMax(tracks: seq<Track>, d: nat)
    requires Countable(tracks)
    ensures Max(Discs(tracks)) < UINT16 - 1 && Max(Numbers(tracks)) < UINT16 - 1
      && Max(NumbersOn(tracks, d)) < UINT16 - 1
  {
    OnDiscMembers(tracks, d);
  }

  /** The whole check: duplicates first, then gaps by the detected numbering. */
  method ValidateAlbumTrackNumbering(tracks: seq<Track>) returns (reports: seq<Report>)
    requires Countable(tracks)
    ensures reports == Reports(tracks)
  {
    hide Max, Continuous, DuplicateFrom, AlbumReport, DiscReports, FirstDuplicate, PositionsDistinct, NumbersOn;
    if |tracks| == 0 {
      return [];
    }
    forall d: nat ensures Max(NumbersOn(tracks, d)) < UINT16 - 1 {
      CountableMax(tracks, d);
    }
    CountableMax(tracks, 0);
    reports := CheckDuplicatePositions(tracks);
    var continuous := UsesContinuousNumbering(tracks);
    var gaps;
    if continuous {
      gaps := CheckGlobalTrackSequence(tracks);
    } else {
      gaps := CheckPerDiscTrackGaps(tracks);
    }
    reports := reports + gaps;
  }
}
