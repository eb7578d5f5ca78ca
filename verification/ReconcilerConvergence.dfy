// Reconciling twice: the second reconcile finds nothing to do, and exactly when.

module ReconcilerConvergence {
  import opened Text
  import opened Genre
  import opened Reconciler
  import opened ReconcilerMerge

  // ---- Stored credits ----

  /** Strictly in (position, artist) order. */
  predicate Ordered(rows: seq<CreditRow>) {
    forall i, k | 0 <= i < k < |rows| :: Before(rows[i], rows[k])
  }

  predicate OneRowPerArtist(rows: seq<CreditRow>) {
    forall i, k | 0 <= i < k < |rows| :: rows[i].artistId != rows[k].artistId
  }

  predicate KnownArtists(known: set<int>, rows: seq<CreditRow>) {
    forall i | 0 <= i < |rows| :: rows[i].artistId > 0 && rows[i].artistId in known
  }

  function AsRows(artists: seq<DesiredArtist>): (rows: seq<CreditRow>)
    ensures |rows| == |artists|
    ensures forall i | 0 <= i < |rows| ::
              rows[i] == CreditRow(artists[i].artistId, artists[i].position, Coalesce(artists[i].joinPhrase))
  {
    seq(|artists|, i requires 0 <= i < |artists| =>
      CreditRow(artists[i].artistId, artists[i].position, Coalesce(artists[i].joinPhrase)))
  }

  /** Credits a track can hold as given: known artists, each once, in position order. */
  predicate WellFormedCredits(known: set<int>, artists: seq<DesiredArtist>) {
    KnownArtists(known, AsRows(artists)) && OneRowPerArtist(AsRows(artists)) && Ordered(AsRows(artists))
  }

  lemma {:induction false} DropAbsent(rows: seq<CreditRow>, id: int)
    requires forall i | 0 <= i < |rows| :: rows[i].artistId != id
    ensures DropArtist(rows, id) == rows
  {
    if rows != [] {
      DropAbsent(rows[1..], id);
    }
  }

  lemma {:induction false} PlaceLast(rows: seq<CreditRow>, c: CreditRow)
    requires forall i | 0 <= i < |rows| :: Before(rows[i], c)
    ensures Place(rows, c) == rows + [c]
  {
    if rows != [] {
      PlaceLast(rows[1..], c);
    }
  }

  /** Every row of `out` is `c` or a row of `rows`. */
  predicate From(out: seq<CreditRow>, rows: seq<CreditRow>, c: CreditRow) {
    forall i | 0 <= i < |out| :: out[i] == c || out[i] in rows
  }

  lemma {:induction false} DropRows(rows: seq<CreditRow>, id: int)
    ensures forall r | r in DropArtist(rows, id) :: r in rows && r.artistId != id
    ensures Ordered(rows) ==> Ordered(DropArtist(rows, id))
    ensures OneRowPerArtist(rows) ==> OneRowPerArtist(DropArtist(rows, id))
  {
    if rows != [] {
      DropRows(rows[1..], id);
    }
  }

  lemma {:induction false} PlaceRows(rows: seq<CreditRow>, c: CreditRow)
    requires Ordered(rows) && OneRowPerArtist(rows) && forall r | r in rows :: r.artistId != c.artistId
    ensures forall r | r in Place(rows, c) :: r in rows || r == c
    ensures Ordered(Place(rows, c)) && OneRowPerArtist(Place(rows, c))
  {
    if rows != [] && !Before(c, rows[0]) {
      PlaceRows(rows[1..], c);
      assert Before(rows[0], c);
      forall r | r in Place(rows[1..], c) ensures Before(rows[0], r) && r.artistId != rows[0].artistId {
        if r != c {
          var k :| 0 <= k < |rows[1..]| && rows[1..][k] == r;
          assert rows[k + 1] == r;
        }
      }
    }
  }

  /** What a credit replacement stores is always ordered, one row per artist, of known artists. */
  lemma {:induction false} StoredShape(known: set<int>, artists: seq<DesiredArtist>)
    ensures var rows := StoredCredits(known, artists);
            KnownArtists(known, rows) && OneRowPerArtist(rows) && Ordered(rows)
  {
    if artists != [] {
      var a := artists[|artists| - 1];
      var rows := StoredCredits(known, artists[..|artists| - 1]);
      StoredShape(known, artists[..|artists| - 1]);
      if a.artistId > 0 && a.artistId in known {
        var c := CreditRow(a.artistId, a.position, Coalesce(a.joinPhrase));
        DropRows(rows, a.artistId);
        PlaceRows(DropArtist(rows, a.artistId), c);
      }
    }
  }

  lemma AllButLast(known: set<int>, artists: seq<DesiredArtist>)
    requires WellFormedCredits(known, artists) && artists != []
    ensures var n := |artists| - 1; var init, rows := AsRows(artists[..n]), AsRows(artists);
            && WellFormedCredits(known, artists[..n]) && init == rows[..n]
            && rows[n].artistId > 0 && rows[n].artistId in known
            && (forall i | 0 <= i < n :: init[i].artistId != rows[n].artistId && Before(init[i], rows[n]))
  {
    var n := |artists| - 1;
    assert AsRows(artists[..n]) == AsRows(artists)[..n];
  }

  lemma {:induction false} StoredAsGiven(known: set<int>, artists: seq<DesiredArtist>)
    requires WellFormedCredits(known, artists)
    ensures StoredCredits(known, artists) == AsRows(artists)
  {
    hide WellFormedCredits, Before;
    if artists != [] {
      var n := |artists| - 1;
      var init, last := AsRows(artists[..n]), AsRows(artists)[n];
      AllButLast(known, artists);
      StoredAsGiven(known, artists[..n]);
      hide AsRows;
      DropAbsent(init, last.artistId);
      PlaceLast(init, last);
      assert AsRows(artists) == AsRows(artists)[..n] + [AsRows(artists)[n]];
    }
  }

  /** Stored credits compare equal to the desired ones exactly for well-formed credits. */
  lemma CreditsSettleIff(known: set<int>, artists: seq<DesiredArtist>)
    ensures CreditsEqual(StoredCredits(known, artists), artists) <==> WellFormedCredits(known, artists)
  {
    if WellFormedCredits(known, artists) {
      StoredAsGiven(known, artists);
    }
    if CreditsEqual(StoredCredits(known, artists), artists) {
      StoredShape(known, artists);
      assert StoredCredits(known, artists) == AsRows(artists);
    }
  }

  /** What the load statement may hand out for stored rows: it orders by position and by nothing else. */
  ghost predicate LoadedAs(rows: seq<CreditRow>, loaded: seq<CreditRow>) {
    multiset(loaded) == multiset(rows) && PositionsAscend(loaded)
  }

  predicate PositionsAscend(rows: seq<CreditRow>) {
    forall i, k | 0 <= i < k < |rows| :: rows[i].position <= rows[k].position
  }

  predicate PositionsIncrease(rows: seq<CreditRow>) {
    forall i, k | 0 <= i < k < |rows| :: rows[i].position < rows[k].position
  }

  lemma SameLast(rows: seq<CreditRow>, loaded: seq<CreditRow>)
    requires LoadedAs(rows, loaded) && PositionsIncrease(rows) && rows != []
    ensures loaded != [] && loaded[|loaded| - 1] == rows[|rows| - 1]
  {
    var a := rows[|rows| - 1];
    assert a in multiset(loaded);
    var i :| 0 <= i < |loaded| && loaded[i] == a;
    var b := loaded[|loaded| - 1];
    assert b in multiset(rows);
    var k :| 0 <= k < |rows| && rows[k] == b;
  }

  lemma WithoutLast(rows: seq<CreditRow>)
    requires rows != []
    ensures var n := |rows| - 1;
            multiset(rows[..n]) == multiset(rows) - multiset{rows[n]} && rows == rows[..n] + [rows[n]]
  {
    assert rows == rows[..|rows| - 1] + [rows[|rows| - 1]];
  }

  /** Rows at increasing positions can be loaded in one order only. */
  lemma {:induction false} OneLoadOrder(rows: seq<CreditRow>, loaded: seq<CreditRow>)
    requires LoadedAs(rows, loaded) && PositionsIncrease(rows)
    ensures loaded == rows
  {
    if rows == [] {
      assert |multiset(loaded)| == 0;
    } else {
      SameLast(rows, loaded);
      WithoutLast(rows);
      WithoutLast(loaded);
      OneLoadOrder(rows[..|rows| - 1], loaded[..|loaded| - 1]);
    }
  }

  lemma Swapped(rows: seq<CreditRow>, i: nat) returns (loaded: seq<CreditRow>)
    requires PositionsAscend(rows) && i + 1 < |rows| && rows[i].position == rows[i + 1].position
    ensures LoadedAs(rows, loaded) && |loaded| == |rows| && loaded[i] == rows[i + 1]
  {
    var front, a, b, back := rows[..i], rows[i], rows[i + 1], rows[i + 2..];
    loaded := front + [b, a] + back;
    assert rows == front + [a, b] + back;
    assert multiset([a, b]) == multiset([b, a]);
    forall m, k | 0 <= m < k < |loaded| ensures loaded[m].position <= loaded[k].position {
      assert loaded[m].position == rows[m].position && loaded[k].position == rows[k].position;
    }
  }

  /** Ordered rows that share a position can be loaded in another order. */
  lemma TieSwaps(rows: seq<CreditRow>) returns (loaded: seq<CreditRow>)
    requires Ordered(rows) && OneRowPerArtist(rows) && !PositionsIncrease(rows)
    ensures LoadedAs(rows, loaded) && |loaded| == |rows|
    ensures exists i :: 0 <= i < |rows| && loaded[i].artistId != rows[i].artistId
  {
    var i, k :| 0 <= i < k < |rows| && !(rows[i].position < rows[k].position);
    assert Before(rows[i], rows[k]) && (i + 1 < k ==> Before(rows[i], rows[i + 1]) && Before(rows[i + 1], rows[k]));
    loaded := Swapped(rows, i);
    assert loaded[i].artistId != rows[i].artistId;
  }

  /** Whatever order the load gives credits at one position: stored credits compare equal to the desired ones,
      however they are loaded, exactly when artists are known and named once and positions strictly increase. */
  lemma CreditsSettleInAnyOrderIff(known: set<int>, artists: seq<DesiredArtist>)
    ensures (forall loaded | LoadedAs(StoredCredits(known, artists), loaded) :: CreditsEqual(loaded, artists))
      <==>
      && KnownArtists(known, AsRows(artists)) && OneRowPerArtist(AsRows(artists))
      && PositionsIncrease(AsRows(artists))
  {
    var stored, rows := StoredCredits(known, artists), AsRows(artists);
    CreditsSettleIff(known, artists);
    StoredShape(known, artists);
    if forall loaded | LoadedAs(stored, loaded) :: CreditsEqual(loaded, artists) {
      assert LoadedAs(stored, stored);
      assert stored == rows;
      hide StoredCredits, KnownArtists;
      if !PositionsIncrease(rows) {
        var loaded := TieSwaps(rows);
      }
    }
    hide CreditsEqual, Before, Ordered;
    if KnownArtists(known, rows) && OneRowPerArtist(rows) && PositionsIncrease(rows) {
      StoredAsGiven(known, artists);
      forall loaded | LoadedAs(stored, loaded) ensures CreditsEqual(loaded, artists) {
        OneLoadOrder(rows, loaded);
      }
    }
  }

  // ---- Settled tracks ----

  /** Updating the loaded track `e` toward `dt` finds no difference. */
  ghost predicate Quiet(lower: string -> string, e: Loaded, dt: DesiredTrack, source: Source, policy: Policy) {
    && SameTrack(TrackTarget(lower, e.row, dt, source, policy), e.row)
    && (FArtists in dt.fields ==> CreditsEqual(e.credits, dt.artists))
  }

  lemma QuietStep(lower: string -> string, w: Work, e: Loaded, dt: DesiredTrack, source: Source, policy: Policy)
    ensures Quiet(lower, e, dt, source, policy) ==> UpdateStep(lower, w, e, dt, source, policy) == w
    ensures UpdateStep(lower, w, e, dt, source, policy).sum.updated
      == w.sum.updated + One(!Quiet(lower, e, dt, source, policy))
  {
    hide TrackTarget, CreditsEqual;
  }

  /** What an inserted track must satisfy for the next reconcile to leave it alone: a present title is
      not NULL, an accepted disc number is not 0, a genre to merge is blank or canonical, and the
      credits are well formed. */
  ghost predicate NewSettles(lower: string -> string, known: set<int>, dt: DesiredTrack, source: Source,
                             policy: Policy) {
    && (FTitle in dt.fields ==> dt.title.Chars?)
    && (FDisc in dt.fields && PositionAccepted(dt, source, policy) ==> dt.discNum != 0)
    && (FGenre !in dt.fields && FGenreMerge in dt.fields ==>
        Coalesce(dt.genre) == "" || Canonical(lower, dt.genre.chars))
    && (FArtists in dt.fields ==> WellFormedCredits(known, dt.artists))
  }

  /** The same for a track that was already stored, first updated with the fields of `m1` and then again with
      those of `m2`: the row never differed, or it took the update and a merged genre settles. */
  ghost predicate MatchedSettles(lower: string -> string, known: set<int>, was: Loaded, m1: DesiredTrack,
                                 m2: DesiredTrack, source: Source, policy: Policy) {
    && (|| SameTrack(TrackTarget(lower, was.row, m2, source, policy), was.row)
        || (&& TrackTitle(was.row, m1).Chars?
            && (FGenre !in m2.fields && FGenreMerge in m2.fields ==> MergeSettles(lower, was.row.genre, m2.genre))))
    && (FArtists in m2.fields ==> CreditsEqual(was.credits, m2.artists) || WellFormedCredits(known, m2.artists))
  }

  lemma NewSettlesIff(lower: string -> string, known: set<int>, e: Loaded, album: int, path: string, dt: DesiredTrack,
                      frozen: bool, source: Source, policy: Policy)
    requires e.row == NewRow(album, path, dt)
    requires e.credits == if FArtists in dt.fields then StoredCredits(known, dt.artists) else []
    ensures Quiet(lower, e, MaskTrack(dt, frozen), source, policy)
      <==> NewSettles(lower, known, MaskTrack(dt, frozen), source, policy)
  {
    hide BuildDisplay, CreditsEqual, StoredCredits, WellFormedCredits, Merge, Canonical;
    CreditsSettleIff(known, dt.artists);
    NewGenreIff(lower, dt.genre);
  }

  lemma NewGenreIff(lower: string -> string, genre: Text)
    ensures SameText(Merge(lower, genre, genre), genre)
      <==> Coalesce(genre) == "" || Canonical(lower, Coalesce(genre))
  {
    if Coalesce(genre) != "" {
      SelfMergeIff(lower, genre.chars);
    }
  }

  lemma MatchedSettlesIff(lower: string -> string, known: set<int>, was: Loaded, e: Loaded, dt: DesiredTrack,
                          f1: bool, f2: bool, source: Source, policy: Policy)
    requires f1 ==> f2
    requires e.row == UpdatedRow(lower, was.row, MaskTrack(dt, f1), source, policy)
    requires e.credits == MergedCredits(known, was.credits, MaskTrack(dt, f1))
    ensures Quiet(lower, e, MaskTrack(dt, f2), source, policy)
      <==> MatchedSettles(lower, known, was, MaskTrack(dt, f1), MaskTrack(dt, f2), source, policy)
  {
    hide BuildDisplay, CreditsEqual, StoredCredits, WellFormedCredits, Merge, Canonical, Tokens;
    CreditsSettleIff(known, dt.artists);
    MergeSettlesIff(lower, was.row.genre, dt.genre);
    MergeSame(lower, Merge(lower, was.row.genre, dt.genre), was.row.genre, dt.genre);
  }

  /** A merge does not tell NULL from the empty string. */
  lemma MergeSame(lower: string -> string, a: Text, b: Text, i: Text)
    ensures SameText(a, b) ==> SameText(Merge(lower, a, i), Merge(lower, b, i))
  {
  }

  /** The album row an update leaves. */
  ghost function AlbumAfter(cur: AlbumRow, accepted: bool, m: DesiredAlbum): AlbumRow {
    if AlbumChanges(cur, AlbumTarget(cur, m)) == 0 || !accepted then cur else AlbumTarget(cur, m)
  }

  /** Whether the album is frozen for the next reconcile: it was already, or this one marks it resolved. */
  ghost predicate FrozenNext(j: Job)
    requires Ready(j)
  {
    var cur, m := j.db.albums[j.album], MaskAlbum(j.d, IsFrozen(j));
    Frozen(AlbumAfter(cur, AlbumAccepted(j.db, cur, m), m), j.d.source, j.policy)
  }

  /** The exact condition on one desired track. */
  ghost predicate Settles(j: Job, dt: DesiredTrack, path: string)
    requires Ready(j)
  {
    var m1, m2 := MaskTrack(dt, IsFrozen(j)), MaskTrack(dt, FrozenNext(j));
    if path in Before0(j) then
      MatchedSettles(j.lower, j.db.artists.Keys, Before0(j)[path], m1, m2, j.d.source, j.policy)
    else NewSettles(j.lower, j.db.artists.Keys, m2, j.d.source, j.policy)
  }

  lemma LandedSettlesIff(j: Job, dt: DesiredTrack, path: string, e: Loaded)
    requires Ready(j) && Landed(j, dt, path, e) && (IsFrozen(j) ==> FrozenNext(j))
    ensures Quiet(j.lower, e, MaskTrack(dt, FrozenNext(j)), j.d.source, j.policy) <==> Settles(j, dt, path)
  {
    hide Before0, MaskTrack, NewRow, UpdatedRow, MergedCredits, StoredCredits, Quiet, NewSettles, MatchedSettles,
      FrozenNext;
    if path in Before0(j) {
      MatchedSettlesIff(j.lower, j.db.artists.Keys, Before0(j)[path], e, dt, IsFrozen(j), FrozenNext(j), j.d.source,
                        j.policy);
    } else {
      NewSettlesIff(j.lower, j.db.artists.Keys, e, j.album, path, dt, FrozenNext(j), j.d.source, j.policy);
    }
  }

  /** The exact condition on the album row: nothing differed, or the update was accepted. */
  ghost predicate AlbumSettles(j: Job)
    requires Ready(j)
  {
    var cur, m := j.db.albums[j.album], MaskAlbum(j.d, IsFrozen(j));
    AlbumChanges(cur, AlbumTarget(cur, m)) == 0 || AlbumAccepted(j.db, cur, m)
  }

  ghost predicate Settled(j: Job)
    requires Ready(j)
  {
    && AlbumSettles(j)
    && forall i | 0 <= i < |j.d.tracks| :: j.d.tracks[i].path.Chars? ==>
         Settles(j, j.d.tracks[i], j.d.tracks[i].path.chars)
  }

  // ---- The second reconcile ----

  ghost function Again(j: Job): (j2: Job)
    requires Ready(j)
  {
    j.(db := Result(j).0)
  }

  lemma AlbumSecond(cur: AlbumRow, accepted: bool, d: DesiredAlbum, source: Source, policy: Policy)
    requires var f1 := Frozen(cur, source, policy); accepted ==> AlbumTitle(cur, MaskAlbum(d, f1)).Chars?
    ensures var f1 := Frozen(cur, source, policy);
            var m1 := MaskAlbum(d, f1);
            var cur2 := AlbumAfter(cur, accepted, m1);
            var f2 := Frozen(cur2, source, policy);
            var second := AlbumChanges(cur2, AlbumTarget(cur2, MaskAlbum(d, f2)));
            && (f1 ==> f2)
            && (second == 0 <==> AlbumChanges(cur, AlbumTarget(cur, m1)) == 0 || accepted)
  {
  }

  lemma AlbumAgain(j: Job)
    requires Ready(j)
    ensures Ready(Again(j)) && IsFrozen(Again(j)) == FrozenNext(j)
    ensures IsFrozen(j) ==> FrozenNext(j)
    ensures AlbumSettles(j) <==> AlbumQuiet(Again(j))
  {
    hide ValidDb, Result, BucketMerged, AlbumTarget, AlbumChanges, MaskAlbum, AlbumTitle;
    ReconcileMerges(j, j.album);
    var cur, m := j.db.albums[j.album], MaskAlbum(j.d, IsFrozen(j));
    AlbumSecond(cur, AlbumAccepted(j.db, cur, m), j.d, j.d.source, j.policy);
    KeepsPath(cur, m);
    assert Again(j).db.albums[j.album] == AlbumAfter(cur, AlbumAccepted(j.db, cur, m), m);
  }

  lemma KeepsPath(cur: AlbumRow, m: DesiredAlbum)
    ensures AlbumTarget(cur, m).(path := cur.path) == AlbumTarget(cur, m)
  {
  }

  ghost predicate AlbumQuiet(j: Job)
    requires Ready(j)
  {
    var cur := j.db.albums[j.album];
    AlbumChanges(cur, AlbumTarget(cur, MaskAlbum(j.d, IsFrozen(j)))) == 0
  }

  /** Every desired track of the second reconcile is matched by a stored one. */
  ghost predicate AllMatched(j: Job, n: nat)
    requires Ready(j) && n <= |j.d.tracks|
  {
    forall i | 0 <= i < n :: j.d.tracks[i].path.Chars? ==> j.d.tracks[i].path.chars in Before0(j)
  }

  ghost predicate AllQuiet(j: Job, n: nat)
    requires Ready(j) && n <= |j.d.tracks| && AllMatched(j, n)
  {
    forall i | 0 <= i < n :: j.d.tracks[i].path.Chars? ==>
      Quiet(j.lower, Before0(j)[j.d.tracks[i].path.chars], MaskTrack(j.d.tracks[i], IsFrozen(j)), j.d.source, j.policy)
  }

  /** The track steps count no update exactly when every matched track is quiet, and then do nothing. */
  lemma {:induction false} StepsQuietIff(j: Job, n: nat)
    requires Ready(j) && n <= |j.d.tracks| && AllMatched(j, n)
    ensures AllQuiet(j, n) ==> Steps(j, n) == Work(j.db, NOTHING, false)
    ensures Steps(j, n).sum.updated == 0 <==> AllQuiet(j, n)
    decreases n
  {
    hide Before0, Quiet, UpdateStep, MaskTrack, ValidDb;
    if n > 0 {
      StepsQuietIff(j, n - 1);
      var dt := j.d.tracks[n - 1];
      if dt.path.Chars? {
        QuietStep(j.lower, Steps(j, n - 1), Before0(j)[dt.path.chars], MaskTrack(dt, IsFrozen(j)), j.d.source,
                  j.policy);
      }
    }
  }

  /** After one reconcile every desired track is stored, and quiet exactly when it settles. */
  lemma MatchedAgain(j: Job, i: nat)
    requires Ready(j) && Ready(Again(j)) && i < |j.d.tracks| && j.d.tracks[i].path.Chars?
    requires IsFrozen(Again(j)) == FrozenNext(j) && (IsFrozen(j) ==> FrozenNext(j))
    ensures var path := j.d.tracks[i].path.chars;
            && path in Before0(Again(j))
            && (Quiet(j.lower, Before0(Again(j))[path], MaskTrack(j.d.tracks[i], IsFrozen(Again(j))), j.d.source,
                      j.policy)
                <==> Settles(j, j.d.tracks[i], path))
  {
    hide ValidDb, BucketOf, Result, Landed, Settles, Quiet, Wanted, FrozenNext;
    ReconcileMerges(j, j.album);
    WantedHas(j.d, i);
    var path := j.d.tracks[i].path.chars;
    LandedSettlesIff(j, j.d.tracks[i], path, Before0(Again(j))[path]);
  }

  lemma TracksAgain(j: Job)
    requires Ready(j) && Ready(Again(j)) && IsFrozen(Again(j)) == FrozenNext(j) && (IsFrozen(j) ==> FrozenNext(j))
    ensures AllMatched(Again(j), |j.d.tracks|)
    ensures AllQuiet(Again(j), |j.d.tracks|)
      <==> forall i | 0 <= i < |j.d.tracks| :: j.d.tracks[i].path.Chars? ==>
          Settles(j, j.d.tracks[i], j.d.tracks[i].path.chars)
  {
    hide ValidDb, Result, Settles, Quiet, Before0, MaskTrack, FrozenNext;
    forall i | 0 <= i < |j.d.tracks| && j.d.tracks[i].path.Chars?
      ensures j.d.tracks[i].path.chars in Before0(Again(j))
      ensures var e := Before0(Again(j))[j.d.tracks[i].path.chars];
              Settles(j, j.d.tracks[i], j.d.tracks[i].path.chars) <==>
                Quiet(j.lower, e, MaskTrack(j.d.tracks[i], IsFrozen(Again(j))), j.d.source, j.policy)
    {
      MatchedAgain(j, i);
    }
  }

  lemma NothingDoomed(j: Job)
    requires Ready(j) && Ready(Again(j))
    ensures j.policy.pruneMissing ==> Doomed(Before0(Again(j)), j.d) == {}
  {
    hide ValidDb, BucketOf, Result, Landed, Wanted;
    ReconcileMerges(j, j.album);
  }

  lemma MinusNothing<K, V>(m: map<K, V>)
    ensures m - {} == m
  {
  }

  lemma PruneNothing(w: Work, bucket: Bucket, d: DesiredAlbum)
    requires Doomed(bucket, d) == {}
    ensures PruneStep(w, bucket, d) == w
  {
    hide Doomed;
    assert IdsAt(bucket, {}) == {};
    MinusNothing(w.db.tracks);
    MinusNothing(w.db.credits);
  }

  lemma AlbumStepQuiet(db: Db, sum: Summary, album: int, cur: AlbumRow, m: DesiredAlbum, dirty: bool)
    ensures var r := AlbumStep(Work(db, sum, dirty), album, cur, m);
            && r.1.albumFields == AlbumChanges(cur, AlbumTarget(cur, m)) && r.1.updated == sum.updated
            && (r.1.albumFields == 0 && !dirty && sum == NOTHING ==> r == (db, NOTHING))
  {
  }

  /** A reconcile of the state an earlier reconcile left does nothing exactly when nothing about it is loud. */
  lemma SecondIsQuietIff(j: Job)
    requires Ready(j) && Ready(Again(j)) && AllMatched(Again(j), |j.d.tracks|)
    ensures Result(Again(j)).1 == NOTHING <==> AllQuiet(Again(j), |j.d.tracks|) && AlbumQuiet(Again(j))
    ensures Result(Again(j)).1 == NOTHING ==> Result(Again(j)).0 == Again(j).db
  {
    hide ValidDb, BucketOf, Again, AllQuiet, AllMatched, TrackSteps, PruneStep, AlbumStep, MaskAlbum, AlbumTarget,
      AlbumChanges;
    var j2 := Again(j);
    var n := |j.d.tracks|;
    assert j2 == j.(db := j2.db) by { AgainIs(j); }
    StepsQuietIff(j2, n);
    NothingDoomed(j);
    var w := Steps(j2, n);
    if j.policy.pruneMissing {
      PruneNothing(w, Before0(j2), j2.d);
    }
    AlbumStepQuiet(w.db, w.sum, j2.album, j2.db.albums[j2.album], MaskAlbum(j2.d, IsFrozen(j2)), w.dirty);
  }

  lemma AgainIs(j: Job)
    requires Ready(j)
    ensures Again(j) == j.(db := Again(j).db)
  {
  }

  /** Convergence, under any policy: where every desired track and the album settle, a second reconcile
      with the same desired state changes no row, credit or index entry and counts nothing. */
  lemma Converges(j: Job)
    requires Ready(j) && Settled(j)
    ensures Ready(Again(j)) && Result(Again(j)) == (Result(j).0, NOTHING)
  {
    hide ValidDb, Result, AllMatched, AllQuiet, AlbumQuiet, Settles, AlbumSettles, FrozenNext;
    AlbumAgain(j);
    TracksAgain(j);
    SecondIsQuietIff(j);
  }

  /** The settling condition is exact: the second reconcile counts nothing if and only if every desired track
      and the album settle. */
  lemma ConvergesIff(j: Job)
    requires Ready(j)
    ensures Ready(Again(j)) && (Result(Again(j)).1 == NOTHING <==> Settled(j))
  {
    hide ValidDb, Result, AllMatched, AllQuiet, AlbumQuiet, Settles, AlbumSettles, FrozenNext;
    AlbumAgain(j);
    TracksAgain(j);
    SecondIsQuietIff(j);
  }

  // ---- What callers are asked to provide ----

  /** A desired track as its producers build it. */
  predicate WellFormedTrack(lower: string -> string, known: set<int>, dt: DesiredTrack) {
    && (FTitle in dt.fields ==> dt.title.Chars?)
    && (FDisc in dt.fields ==> dt.discNum >= 1)
    && (FGenreMerge in dt.fields ==> Coalesce(dt.genre) == "" || Canonical(lower, dt.genre.chars))
    && (FArtists in dt.fields ==> WellFormedCredits(known, dt.artists))
  }

  lemma CanonicalHasNames(lower: string -> string, i: string)
    requires Canonical(lower, i)
    ensures Tokens(i) != []
  {
    TrimAllNames(Split(i));
  }

  lemma WellFormedSettles(j: Job, dt: DesiredTrack, path: string)
    requires Ready(j) && WellFormedTrack(j.lower, j.db.artists.Keys, dt)
    ensures Settles(j, dt, path)
  {
    hide Before0, BuildDisplay, CreditsEqual, WellFormedCredits, Canonical, Tokens, Merge, FrozenNext, IsFrozen,
      TrackTarget, SameTrack;
    if Coalesce(dt.genre) != "" && Canonical(j.lower, dt.genre.chars) {
      CanonicalHasNames(j.lower, dt.genre.chars);
    }
  }

  /** Well-formed tracks and an album row the tables accept are enough. */
  lemma WellFormedConverges(j: Job)
    requires Ready(j) && AlbumSettles(j)
    requires forall i | 0 <= i < |j.d.tracks| :: WellFormedTrack(j.lower, j.db.artists.Keys, j.d.tracks[i])
    ensures Ready(Again(j)) && Result(Again(j)) == (Result(j).0, NOTHING)
  {
    hide ValidDb, Result, Settles, AlbumSettles, WellFormedTrack;
    forall i | 0 <= i < |j.d.tracks| && j.d.tracks[i].path.Chars?
      ensures Settles(j, j.d.tracks[i], j.d.tracks[i].path.chars)
    {
      WellFormedSettles(j, j.d.tracks[i], j.d.tracks[i].path.chars);
    }
    Converges(j);
  }

  // ---- Where convergence fails ----

  /** The job after `n` reconciles with the same desired state. */
  ghost function Nth(j: Job, n: nat): (k: Job)
    requires Ready(j)
    ensures Ready(k)
    decreases n
  {
    if n == 0 then j
    else
      AlbumAgain(j);
      Nth(Again(j), n - 1)
  }

  /** An album update that is refused leaves every album row as it was, and counts its fields: the next reconcile
      meets the same row, is refused again and counts as many. */
  lemma RefusedAgain(j: Job)
    requires Ready(j) && !AlbumSettles(j)
    ensures Result(j).0.albums == j.db.albums && Result(j).1.albumFields > 0
    ensures Ready(Again(j)) && !AlbumSettles(Again(j)) && Result(Again(j)).1.albumFields == Result(j).1.albumFields
  {
    RefusedOnce(j);
    AlbumAgain(j);
    var j2 := Again(j);
    ReconcileMerges(j, j.album);
    hide ValidDb, Result, MaskAlbum, AlbumTarget, AlbumChanges, AlbumTitle, BucketMerged;
    assert IsFrozen(j2) == IsFrozen(j) && j2.d == j.d;
    RefusedOnce(j2);
  }

  lemma RefusedOnce(j: Job)
    requires Ready(j) && !AlbumSettles(j)
    ensures Result(j).0.albums == j.db.albums
    ensures var cur := j.db.albums[j.album];
            Result(j).1.albumFields == AlbumChanges(cur, AlbumTarget(cur, MaskAlbum(j.d, IsFrozen(j)))) > 0
  {
    hide ValidDb, TrackSteps, PruneStep, BucketMerged, BucketOf, MaskAlbum, AlbumTarget, AlbumChanges, AlbumTitle,
      AlbumAccepted;
    ReconcileMerges(j, j.album);
  }

  /** An album that does not settle once never does: every run counts the same fields and changes no album row. */
  lemma {:induction false} RefusedAlbumNeverSettles(j: Job, n: nat)
    requires Ready(j) && !AlbumSettles(j)
    ensures var k := Nth(j, n);
            && !Settled(k) && k.db.albums == j.db.albums && Result(k).0.albums == j.db.albums
            && Result(k).1.albumFields == Result(j).1.albumFields > 0
    decreases n
  {
    hide ValidDb, Result, AlbumSettles, Settles, Ready;
    RefusedAgain(j);
    if n > 0 {
      RefusedAlbumNeverSettles(Again(j), n - 1);
    }
  }

  /** An album whose artist column is NULL (loaded and written back as 0) refuses every update that does not name an
      artist: if any field differs, it differs on every run, and every run counts it. */
  lemma ArtistlessAlbumNeverSettles(j: Job, n: nat)
    requires Ready(j) && j.db.albums[j.album].artistId !in j.db.artists
    requires var m := MaskAlbum(j.d, IsFrozen(j));
             AArtist !in m.fields && AlbumChanges(j.db.albums[j.album], AlbumTarget(j.db.albums[j.album], m)) > 0
    ensures var k := Nth(j, n);
            && !Settled(k) && k.db.albums == j.db.albums && Result(k).0.albums == j.db.albums
            && Result(k).1.albumFields == Result(j).1.albumFields > 0
  {
    hide ValidDb, Result, Settles, Ready, MaskAlbum, AlbumChanges, AlbumTitle, Nth;
    assert !AlbumSettles(j);
    RefusedAlbumNeverSettles(j, n);
  }
}
