// What the gap reports of an album say.

module TrackReports {
  import opened TrackGaps

  /** A report about disc `d`: exactly the numbers missing there, how many tracks the disc has and its greatest
      number; it names the disc unless no track has a disc number. */
  ghost predicate Tells(tracks: seq<Track>, d: nat, r: Report) {
    var nums := NumbersOn(tracks, d);
    !r.DuplicatePosition? && r.ranges != [] && Gaps(nums, 1, Max(nums), r.ranges) && r.have == OnDisc(tracks, d)
    && r.of == Max(nums) && (r.DiscMissing? <==> SomeDisc(tracks)) && (r.DiscMissing? ==> r.disc == d)
  }

  function OnDisc(tracks: seq<Track>, d: nat): nat {
    if tracks == [] then 0 else OnDisc(tracks[..|tracks| - 1], d) + if tracks[|tracks| - 1].disc == d then 1 else 0
  }

  ghost predicate SomeDisc(tracks: seq<Track>) {
    exists i :: 0 <= i < |tracks| && tracks[i].disc > 0
  }

  /** Something is missing on the disc, and its tracks are not as many as its greatest number. */
  ghost predicate HasGap(tracks: seq<Track>, d: nat) {
    !NoneMissing(NumbersOn(tracks, d)) && OnDisc(tracks, d) != Max(NumbersOn(tracks, d))
  }

  lemma {:induction false} OnDiscIs(tracks: seq<Track>, d: nat)
    ensures OnDisc(tracks, d) == |NumbersOn(tracks, d)|
  {
    if tracks != [] {
      OnDiscIs(tracks[..|tracks| - 1], d);
    }
  }

  lemma SomeDiscIff(tracks: seq<Track>)
    ensures SomeDisc(tracks) <==> Max(Discs(tracks)) > 0
  {
    var discs := Discs(tracks);
    if Max(discs) > 0 {
      var i :| 0 <= i < |discs| && discs[i] == Max(discs);
      assert tracks[i].disc > 0;
    }
    if SomeDisc(tracks) {
      var i :| 0 <= i < |tracks| && tracks[i].disc > 0;
      assert discs[i] <= Max(discs);
    }
  }

  /** A disc is reported once, in full, exactly if it has a gap. */
  lemma DiscReportTells(tracks: seq<Track>, d: nat)
    ensures HasGap(tracks, d) ==> |DiscReport(tracks, d)| == 1 && Tells(tracks, d, DiscReport(tracks, d)[0])
    ensures !HasGap(tracks, d) ==> DiscReport(tracks, d) == []
  {
    hide MissingFrom, Max, Gaps, NumbersOn;
    var nums := NumbersOn(tracks, d);
    OnDiscIs(tracks, d);
    SomeDiscIff(tracks);
    NoneMissingIff(nums, Max(nums));
    MissingIsExact(nums, 1, Max(nums));
  }

  ghost predicate Ascending(ds: seq<nat>, n: nat) {
    (forall i | 0 <= i < |ds| :: ds[i] < n) && (forall i, k | 0 <= i < k < |ds| :: ds[i] < ds[k])
  }

  /** The per-disc check reports the discs with a gap, each once, in order of disc number. */
  lemma {:induction false} DiscReportsTell(tracks: seq<Track>, n: nat) returns (discs: seq<nat>)
    ensures Ascending(discs, n) && (forall d: nat :: d in discs <==> d < n && HasGap(tracks, d))
    ensures |DiscReports(tracks, n)| == |discs|
    ensures forall i | 0 <= i < |discs| :: Tells(tracks, discs[i], DiscReports(tracks, n)[i])
  {
    hide DiscReport, HasGap, Tells;
    discs := [];
    if n > 0 {
      discs := DiscReportsTell(tracks, n - 1);
      DiscReportTells(tracks, n - 1);
      if HasGap(tracks, n - 1) {
        discs := discs + [n - 1];
      }
    }
  }

  /** The check of a continuously numbered album reports it once, with exactly the missing numbers, its track count and
      its greatest number, exactly if something is missing. */
  lemma AlbumReportTells(tracks: seq<Track>)
    ensures var nums := Numbers(tracks);
            if NoneMissing(nums) then AlbumReport(tracks) == []
            else
              && |AlbumReport(tracks)| == 1 && AlbumReport(tracks)[0].AlbumMissing?
              && var r := AlbumReport(tracks)[0];
                 Gaps(nums, 1, Max(nums), r.ranges) && r.have == |tracks| && r.of == Max(nums)
  {
    hide MissingFrom, Max, Gaps;
    var nums := Numbers(tracks);
    NoneMissingIff(nums, Max(nums));
    MissingIsExact(nums, 1, Max(nums));
  }

  /** The whole report of an album: a duplicate position first, if there is one, then either the one gap report of a
      continuously numbered album or the reports of its discs. */
  lemma ReportsTell(tracks: seq<Track>) returns (duplicates: seq<Report>, gaps: seq<Report>, discs: seq<nat>)
    requires tracks != []
    ensures Reports(tracks) == duplicates + gaps
    ensures duplicates == [] <==> PositionsDistinct(tracks)
    ensures duplicates != [] ==> |duplicates| == 1 && duplicates[0].DuplicatePosition?
                                 && FirstDuplicate(tracks, 0, 1, duplicates[0].first, duplicates[0].second)
    ensures Continuous(tracks) ==> gaps == AlbumReport(tracks)
    ensures !Continuous(tracks) ==>
      && |gaps| == |discs| && Ascending(discs, Max(Discs(tracks)) + 1)
      && (forall d: nat :: d in discs <==> d <= Max(Discs(tracks)) && HasGap(tracks, d))
      && (forall i | 0 <= i < |discs| :: Tells(tracks, discs[i], gaps[i]))
  {
    hide AlbumReport, DiscReports, Continuous, Max, DuplicateFrom, HasGap, Tells, PositionsDistinct, FirstDuplicate;
    DuplicatesAre(tracks);
    DuplicateIsFirst(tracks, 0, 1);
    duplicates := DuplicateFrom(tracks, 0, 1);
    discs := DiscReportsTell(tracks, Max(Discs(tracks)) + 1);
    gaps := if Continuous(tracks) then AlbumReport(tracks) else DiscReports(tracks, Max(Discs(tracks)) + 1);
  }
}
