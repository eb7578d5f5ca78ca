// Reconciling again and again: which desired states come to rest, and after how many runs.

module ReconcilerLimits {
  import opened Text
  import opened Genre
  import opened Reconciler
  import opened ReconcilerMerge
  import opened ReconcilerConvergence

  // ---- One track ----

  /** A NULL title differs from nothing else in the row; a genre to merge lists some name, or the row's does; and the
      credits are stored as given or can be. */
  ghost predicate CanRest(known: set<int>, lower: string -> string, was: Loaded, m: DesiredTrack, source: Source,
                          policy: Policy) {
    && (FTitle in m.fields && m.title.Null? ==> SameTrack(TrackTarget(lower, was.row, m, source, policy), was.row))
    && (FGenre !in m.fields && FGenreMerge in m.fields ==> !Alternates(was.row.genre, m.genre))
    && (FArtists in m.fields ==> CreditsEqual(was.credits, m.artists) || WellFormedCredits(known, m.artists))
  }

  /** The same for a track that is not stored yet. */
  ghost predicate NewCanRest(known: set<int>, m: DesiredTrack) {
    && (FTitle in m.fields ==> m.title.Chars?)
    && (FGenre !in m.fields && FGenreMerge in m.fields ==> !Alternates(m.genre, m.genre))
    && (FArtists in m.fields ==> WellFormedCredits(known, m.artists))
  }

  ghost predicate Updated(known: set<int>, lower: string -> string, was: Loaded, m: DesiredTrack, source: Source,
                          policy: Policy, e: Loaded) {
    && e.row == UpdatedRow(lower, was.row, m, source, policy)
    && e.credits == MergedCredits(known, was.credits, m)
  }

  /** No merge makes or unmakes a genre that alternates. */
  lemma AlternationStays(lower: string -> string, e: Text, i: Text)
    ensures Alternates(Merge(lower, e, i), i) <==> Alternates(e, i)
  {
    if Alternates(e, i) {
      AlternatingMerge(lower, e, i);
    } else {
      SecondMergeSettles(lower, e, i);
    }
  }

  /** An update, also with fields that are frozen from now on, changes nothing about whether the track can rest. */
  lemma CanRestStays(known: set<int>, lower: string -> string, was: Loaded, e: Loaded, dt: DesiredTrack, f1: bool,
                     f2: bool, source: Source, policy: Policy)
    requires (f1 ==> f2) && Updated(known, lower, was, MaskTrack(dt, f1), source, policy, e)
    ensures CanRest(known, lower, e, MaskTrack(dt, f2), source, policy)
      <==> CanRest(known, lower, was, MaskTrack(dt, f2), source, policy)
  {
    hide BuildDisplay, CreditsEqual, StoredCredits, WellFormedCredits, Merge, Alternates;
    CreditsSettleIff(known, dt.artists);
    AlternationStays(lower, was.row.genre, dt.genre);
  }

  /** After one update under the fields in force, the next one finds nothing exactly when the track can rest. */
  lemma UpdatedSettlesIff(known: set<int>, lower: string -> string, was: Loaded, e: Loaded, m: DesiredTrack,
                          source: Source, policy: Policy)
    requires Updated(known, lower, was, m, source, policy, e)
    ensures MatchedSettles(lower, known, e, m, m, source, policy) <==> CanRest(known, lower, was, m, source, policy)
  {
    hide BuildDisplay, CreditsEqual, StoredCredits, WellFormedCredits, Merge, Alternates, MergeSettles;
    CreditsSettleIff(known, m.artists);
    GenreRests(lower, was.row.genre, m.genre);
  }

  /** A genre that does not alternate settles once merged; one that does is changed by every merge. */
  lemma GenreRests(lower: string -> string, e: Text, i: Text)
    ensures MergeSettles(lower, Merge(lower, e, i), i) <==> !Alternates(e, i)
    ensures Alternates(e, i) ==> !SameText(Merge(lower, e, i), e)
    ensures Alternates(e, i) ==> !SameText(Merge(lower, Merge(lower, e, i), i), Merge(lower, e, i))
  {
    if Alternates(e, i) {
      AlternatesForever(lower, e, i, 0);
      AlternatesForever(lower, e, i, 1);
      AlternatesForever(lower, e, i, 2);
      var once := Merge(lower, e, i);
      assert Remerged(lower, e, i, 0) == e && Remerged(lower, e, i, 1) == once;
      assert Remerged(lower, e, i, 2) == Merge(lower, once, i);
      assert Remerged(lower, e, i, 3) == Merge(lower, Merge(lower, once, i), i);
      MergeSettlesIff(lower, once, i);
    } else {
      SecondMergeSettles(lower, e, i);
    }
  }

  lemma NewCanRestIff(known: set<int>, lower: string -> string, e: Loaded, album: int, path: string, dt: DesiredTrack,
                      frozen: bool, source: Source, policy: Policy)
    requires e.row == NewRow(album, path, dt)
    requires e.credits == if FArtists in dt.fields then StoredCredits(known, dt.artists) else []
    ensures CanRest(known, lower, e, MaskTrack(dt, frozen), source, policy)
      <==> NewCanRest(known, MaskTrack(dt, frozen))
  {
    hide BuildDisplay, CreditsEqual, StoredCredits, WellFormedCredits, Merge, Alternates;
    CreditsSettleIff(known, dt.artists);
  }

  // ---- One album ----

  ghost predicate TrackCanRest(j: Job, dt: DesiredTrack, path: string)
    requires Ready(j)
  {
    var m := MaskTrack(dt, FrozenNext(j));
    if path in Before0(j) then CanRest(j.db.artists.Keys, j.lower, Before0(j)[path], m, j.d.source, j.policy)
    else NewCanRest(j.db.artists.Keys, m)
  }

  /** What a caller can check before the first run. */
  ghost predicate Restful(j: Job)
    requires Ready(j)
  {
    && AlbumSettles(j)
    && forall i | 0 <= i < |j.d.tracks| :: j.d.tracks[i].path.Chars? ==>
         TrackCanRest(j, j.d.tracks[i], j.d.tracks[i].path.chars)
  }

  /** Once an album update finds nothing, the freeze does not change any more. */
  lemma QuietAlbumStays(j: Job)
    requires Ready(j) && AlbumSettles(j)
    ensures Ready(Again(j)) && AlbumSettles(Again(j))
    ensures IsFrozen(Again(j)) == FrozenNext(Again(j)) == FrozenNext(j) && (IsFrozen(j) ==> FrozenNext(j))
  {
    hide ValidDb, Result, AlbumTarget, AlbumChanges, MaskAlbum, AlbumTitle;
    AlbumAgain(j);
  }

  lemma LandedAgain(j: Job, i: nat)
    requires Ready(j) && Ready(Again(j)) && i < |j.d.tracks| && j.d.tracks[i].path.Chars?
    ensures var path := j.d.tracks[i].path.chars;
            && path in Before0(Again(j)) && Landed(j, j.d.tracks[i], path, Before0(Again(j))[path])
            && Again(j).db.artists == j.db.artists
  {
    hide ValidDb, BucketOf, Result, Landed, Wanted;
    ReconcileMerges(j, j.album);
    WantedHas(j.d, i);
  }

  lemma TrackRestStays(j: Job, i: nat)
    requires Ready(j) && AlbumSettles(j) && i < |j.d.tracks| && j.d.tracks[i].path.Chars?
    requires Ready(Again(j))
    ensures var dt := j.d.tracks[i]; TrackCanRest(Again(j), dt, dt.path.chars) <==> TrackCanRest(j, dt, dt.path.chars)
  {
    hide ValidDb, Result, CanRest, NewCanRest, FrozenNext, AlbumSettles, MaskTrack, NewRow, UpdatedRow, MergedCredits,
      StoredCredits;
    QuietAlbumStays(j);
    LandedAgain(j, i);
    var dt, path := j.d.tracks[i], j.d.tracks[i].path.chars;
    var known, e := j.db.artists.Keys, Before0(Again(j))[path];
    if path in Before0(j) {
      CanRestStays(known, j.lower, Before0(j)[path], e, dt, IsFrozen(j), FrozenNext(j), j.d.source, j.policy);
    } else {
      NewCanRestIff(known, j.lower, e, j.album, path, dt, FrozenNext(j), j.d.source, j.policy);
    }
  }

  lemma RestfulStays(j: Job)
    requires Ready(j)
    ensures Ready(Again(j)) && (Restful(Again(j)) <==> Restful(j))
  {
    hide ValidDb, Result, TrackCanRest, FrozenNext, AlbumSettles;
    if AlbumSettles(j) {
      QuietAlbumStays(j);
      forall i | 0 <= i < |j.d.tracks| && j.d.tracks[i].path.Chars?
        ensures var dt := j.d.tracks[i];
                TrackCanRest(Again(j), dt, dt.path.chars) <==> TrackCanRest(j, dt, dt.path.chars)
      {
        TrackRestStays(j, i);
      }
    } else {
      RefusedAgain(j);
    }
  }

  /** In the second run every desired track is stored and the freeze is final: what can rest settles with it. */
  lemma TrackSettlesThen(j: Job, i: nat)
    requires Ready(j) && AlbumSettles(j) && i < |j.d.tracks| && j.d.tracks[i].path.Chars?
    requires IsFrozen(j) == FrozenNext(j) && j.d.tracks[i].path.chars in Before0(j) && Ready(Again(j))
    ensures var dt := j.d.tracks[i]; Settles(Again(j), dt, dt.path.chars) <==> TrackCanRest(j, dt, dt.path.chars)
  {
    hide ValidDb, Result, CanRest, NewCanRest, FrozenNext, AlbumSettles, MaskTrack, NewRow, UpdatedRow, MergedCredits,
      StoredCredits, MatchedSettles, NewSettles;
    QuietAlbumStays(j);
    LandedAgain(j, i);
    var dt, path := j.d.tracks[i], j.d.tracks[i].path.chars;
    UpdatedSettlesIff(j.db.artists.Keys, j.lower, Before0(j)[path], Before0(Again(j))[path],
                      MaskTrack(dt, FrozenNext(j)),
      j.d.source, j.policy);
  }

  lemma SettledThirdIff(j: Job)
    requires Ready(j) && Ready(Again(j)) && Ready(Again(Again(j)))
    ensures Settled(Again(Again(j))) <==> Restful(Again(j))
  {
    hide ValidDb, Result, TrackCanRest, FrozenNext, AlbumSettles, Settles, Again;
    assert Again(j).d == j.d by { AgainIs(j); }
    assert Again(Again(j)).d == j.d by { AgainIs(Again(j)); }
    if AlbumSettles(j) {
      QuietAlbumStays(j);
      QuietAlbumStays(Again(j));
      forall i | 0 <= i < |j.d.tracks| && j.d.tracks[i].path.Chars?
        ensures var dt := j.d.tracks[i];
                Settles(Again(Again(j)), dt, dt.path.chars) <==> TrackCanRest(Again(j), dt, dt.path.chars)
      {
        LandedAgain(j, i);
        TrackSettlesThen(Again(j), i);
      }
    } else {
      RefusedAgain(j);
      RefusedAgain(Again(j));
    }
  }

  // ---- Any number of runs ----

  lemma {:induction false} NthAgain(j: Job, n: nat)
    requires Ready(j)
    ensures Ready(Again(Nth(j, n))) && Nth(j, n + 1) == Again(Nth(j, n))
    decreases n
  {
    hide ValidDb, Result, Again;
    AlbumAgain(j);
    if n > 0 {
      NthAgain(Again(j), n - 1);
    } else {
      assert Nth(Again(j), 0) == Again(j);
    }
  }

  lemma {:induction false} RestfulNth(j: Job, n: nat)
    requires Ready(j)
    ensures Restful(Nth(j, n)) <==> Restful(j)
    decreases n
  {
    hide ValidDb, Result, Again, Restful;
    if n > 0 {
      RestfulStays(j);
      AlbumAgain(j);
      RestfulNth(Again(j), n - 1);
    }
  }

  /** Three runs decide: the fourth run, and every later one, counts nothing exactly when the album row settles and
      every desired track can rest - which can be seen before the first run. So a desired state that is not at rest
      by then is rewritten for ever: a refused album row or title, a genre of separators only, malformed credits. */
  lemma FourthRunDecides(j: Job, n: nat)
    requires Ready(j) && n >= 3
    ensures Result(Nth(j, n)).1 == NOTHING <==> Restful(j)
  {
    hide ValidDb, Result, Again, Restful, Settled, Nth;
    var k := Nth(j, n - 3);
    NthAgain(j, n - 3);
    NthAgain(j, n - 2);
    NthAgain(j, n - 1);
    RestfulNth(j, n - 2);
    SettledThirdIff(k);
    ConvergesIff(Again(Again(k)));
  }
}
