// What one reconcile writes, field by field, and what its summary counts.

module ReconcilerFields {
  import opened Text
  import opened Genre
  import opened Reconciler
  import opened ReconcilerMerge
  import opened ReconcilerConvergence

  // ---- The freeze ----

  /** The user's edits are respected: tags do not touch what MusicBrainz resolved, which is status 2. */
  ghost predicate Shielded(j: Job)
    requires Ready(j)
  {
    j.d.source == Tags && j.policy.respectUserEdits && j.db.albums[j.album].mbStatus == 2
  }

  ghost predicate TakesAlbum(j: Job, f: AlbumField)
    requires Ready(j)
  {
    f in j.d.fields && (f == ACompilation || f == AYear || f == APath || !Shielded(j))
  }

  ghost predicate TakesTrack(j: Job, dt: DesiredTrack, f: TrackField)
    requires Ready(j)
  {
    f in dt.fields && ((f != FTitle && f != FArtists) || !Shielded(j))
  }

  /** Frozen are exactly title, artist, ids, status and resolve time of the album, and title and credits of its
      tracks. */
  lemma FreezeIs(j: Job)
    requires Ready(j)
    ensures forall f :: f in MaskAlbum(j.d, IsFrozen(j)).fields <==> TakesAlbum(j, f)
    ensures forall dt: DesiredTrack, f :: f in MaskTrack(dt, IsFrozen(j)).fields <==> TakesTrack(j, dt, f)
  {
    hide ValidDb;
  }

  // ---- The album row ----

  /** `b` is `a` with the fields taken from the desired state. */
  ghost predicate AlbumMerged(j: Job, a: AlbumRow, b: AlbumRow)
    requires Ready(j)
  {
    var d := j.d;
    && b.path == a.path
    && b.title == (if TakesAlbum(j, ATitle) then Coalesce(d.title) else a.title)
    && b.artistId == (if TakesAlbum(j, AArtist) then d.artistId else a.artistId)
    && b.isCompilation == (if TakesAlbum(j, ACompilation) then d.isCompilation else a.isCompilation)
    && b.year == (if TakesAlbum(j, AYear) then d.year else a.year)
    && SameText(b.releaseId, if TakesAlbum(j, AReleaseId) then d.releaseId else a.releaseId)
    && SameText(b.releaseGroupId, if TakesAlbum(j, AReleaseGroup) then d.releaseGroupId else a.releaseGroupId)
    && b.mbStatus == (if TakesAlbum(j, AStatus) then d.mbStatus else a.mbStatus)
    && b.mbResolvedAt == (if TakesAlbum(j, AResolvedAt) then d.mbResolvedAt else a.mbResolvedAt)
  }

  /** The tables refuse a NULL title and an unknown artist. */
  ghost predicate AlbumRefused(j: Job)
    requires Ready(j)
  {
    || (TakesAlbum(j, ATitle) && j.d.title.Null?)
    || (if TakesAlbum(j, AArtist) then j.d.artistId else j.db.albums[j.album].artistId) !in j.db.artists
  }

  /** The album row after a reconcile: each field that is present and not frozen has the desired value, every other its
      own; if the result is refused the row is as before. No other album row changes. */
  lemma MergedAlbum(j: Job)
    requires Ready(j)
    ensures var was, rows := j.db.albums, Result(j).0.albums;
            && rows.Keys == was.Keys && (forall a | a in was && a != j.album :: rows[a] == was[a])
            && (if AlbumRefused(j) then rows[j.album] == was[j.album]
                else AlbumMerged(j, was[j.album], rows[j.album]))
  {
    FreezeIs(j);
    AlbumRowIs(j);
    hide ValidDb, Result, BucketMerged, AlbumTarget, AlbumChanges, MaskAlbum, AlbumTitle, AlbumMerged, AlbumRefused;
    ReconcileMerges(j, j.album);
  }

  lemma AlbumRowIs(j: Job)
    requires Ready(j)
    requires forall f :: f in MaskAlbum(j.d, IsFrozen(j)).fields <==> TakesAlbum(j, f)
    ensures var was := j.db.albums;
            var rows := WriteAlbum(j.db, j.album, was[j.album], MaskAlbum(j.d, IsFrozen(j))).albums;
            && rows.Keys == was.Keys && (forall a | a in was && a != j.album :: rows[a] == was[a])
            && (if AlbumRefused(j) then rows[j.album] == was[j.album]
                else AlbumMerged(j, was[j.album], rows[j.album]))
  {
    AlbumTargetIs(j);
    hide ValidDb, TakesAlbum, MaskAlbum, AlbumTarget, AlbumChanges, IsFrozen, AlbumMerged, AlbumTitle;
    KeepsPath(j.db.albums[j.album], MaskAlbum(j.d, IsFrozen(j)));
  }

  lemma AlbumTargetIs(j: Job)
    requires Ready(j)
    requires forall f :: f in MaskAlbum(j.d, IsFrozen(j)).fields <==> TakesAlbum(j, f)
    ensures var was, m := j.db.albums[j.album], MaskAlbum(j.d, IsFrozen(j));
            && AlbumMerged(j, was, AlbumTarget(was, m))
            && (AlbumChanges(was, AlbumTarget(was, m)) == 0 ==> AlbumMerged(j, was, was))
            && (AlbumRefused(j) <==> !AlbumAccepted(j.db, was, m))
  {
    hide ValidDb, TakesAlbum, FROZEN_ALBUM_FIELDS, IsFrozen;
  }

  // ---- The counters ----

  ghost predicate AlbumFieldDiffers(j: Job, f: AlbumField)
    requires Ready(j)
  {
    var was, d := j.db.albums[j.album], j.d;
    TakesAlbum(j, f) &&
    match f
    case ATitle => Coalesce(d.title) != was.title
    case AArtist => d.artistId != was.artistId
    case ACompilation => d.isCompilation != was.isCompilation
    case AYear => d.year != was.year
    case AReleaseId => !SameText(d.releaseId, was.releaseId)
    case AReleaseGroup => !SameText(d.releaseGroupId, was.releaseGroupId)
    case AStatus => d.mbStatus != was.mbStatus
    case AResolvedAt => d.mbResolvedAt != was.mbResolvedAt
    case APath => false
  }

  ghost function DifferingFields(j: Job): nat
    requires Ready(j)
  {
    One(AlbumFieldDiffers(j, ATitle)) + One(AlbumFieldDiffers(j, AArtist)) + One(AlbumFieldDiffers(j, ACompilation))
    + One(AlbumFieldDiffers(j, AYear)) + One(AlbumFieldDiffers(j, AReleaseId))
    + One(AlbumFieldDiffers(j, AReleaseGroup)) + One(AlbumFieldDiffers(j, AStatus))
    + One(AlbumFieldDiffers(j, AResolvedAt))
  }

  /** The summary counts the album fields that differ from their desired values. */
  lemma AlbumFieldsCounted(j: Job)
    requires Ready(j)
    ensures Result(j).1.albumFields == DifferingFields(j)
  {
    FreezeIs(j);
    AlbumCountIs(j);
    hide ValidDb, TrackSteps, PruneStep, BucketOf, MaskAlbum, AlbumTarget, AlbumChanges, AlbumTitle, DifferingFields;
  }

  lemma AlbumCountIs(j: Job)
    requires Ready(j)
    requires forall f :: f in MaskAlbum(j.d, IsFrozen(j)).fields <==> TakesAlbum(j, f)
    ensures var was := j.db.albums[j.album];
            AlbumChanges(was, AlbumTarget(was, MaskAlbum(j.d, IsFrozen(j)))) == DifferingFields(j)
  {
    hide ValidDb, TakesAlbum, FROZEN_ALBUM_FIELDS, IsFrozen, SameText;
    SameTextRefl();
  }

  lemma SameTextRefl()
    ensures forall t :: SameText(t, t)
  {
  }

  datatype Change = AnyChange | TitleChange | PositionChange | GenreChange | CreditsChange | DisplayChange

  /** What differs between a stored track and its desired state, by the values that are taken. */
  ghost predicate Differs(j: Job, dt: DesiredTrack, was: Loaded, what: Change)
    requires Ready(j)
    decreases if what == AnyChange then 1 else 0
  {
    match what
    case TitleChange => TakesTrack(j, dt, FTitle) && Coalesce(dt.title) != was.row.title
    case PositionChange =>
      && (j.d.source == Mb ==> dt.confidence >= j.policy.minConfidence)
      && ((TakesTrack(j, dt, FNum) && dt.trackNum != was.row.trackNum)
          || (TakesTrack(j, dt, FDisc) && dt.discNum != was.row.discNum))
    case GenreChange =>
      if TakesTrack(j, dt, FGenre) then !SameText(dt.genre, was.row.genre)
      else TakesTrack(j, dt, FGenreMerge) && !SameText(Merge(j.lower, was.row.genre, dt.genre), was.row.genre)
    case CreditsChange => TakesTrack(j, dt, FArtists) && !CreditsEqual(was.credits, dt.artists)
    case DisplayChange => TakesTrack(j, dt, FArtists) && BuildDisplay(dt.artists) != Coalesce(was.row.artistDisplay)
    case AnyChange =>
      || Differs(j, dt, was, TitleChange) || Differs(j, dt, was, PositionChange) || Differs(j, dt, was, GenreChange)
      || Differs(j, dt, was, CreditsChange) || Differs(j, dt, was, DisplayChange)
      || (TakesTrack(j, dt, FDuration) && dt.durationMs != was.row.durationMs)
      || (TakesTrack(j, dt, FYear) && dt.year != was.row.year)
      || (TakesTrack(j, dt, FMtime) && dt.mtime != was.row.mtime)
  }

  /** Desired track number `i` is stored and differs. */
  ghost predicate DiffersAt(j: Job, i: nat, what: Change)
    requires Ready(j) && i < |j.d.tracks|
  {
    var dt := j.d.tracks[i];
    dt.path.Chars? && dt.path.chars in Before0(j) && Differs(j, dt, Before0(j)[dt.path.chars], what)
  }

  ghost function Count(j: Job, n: nat, what: Change): nat
    requires Ready(j) && n <= |j.d.tracks|
  {
    if n == 0 then 0 else Count(j, n - 1, what) + if DiffersAt(j, n - 1, what) then 1 else 0
  }

  lemma UpdateCounts(j: Job, w: Work, was: Loaded, dt: DesiredTrack)
    requires Ready(j)
    ensures var w2 := UpdateStep(j.lower, w, was, MaskTrack(dt, IsFrozen(j)), j.d.source, j.policy);
            && w2.sum == w.sum.(updated := w.sum.updated + One(Differs(j, dt, was, AnyChange)),
                                titles := w.sum.titles + One(Differs(j, dt, was, TitleChange)),
                                positions := w.sum.positions + One(Differs(j, dt, was, PositionChange)),
                                genres := w.sum.genres + One(Differs(j, dt, was, GenreChange)),
                                artists := w.sum.artists + One(Differs(j, dt, was, CreditsChange)))
            && (w2.dirty <==> w.dirty || Differs(j, dt, was, TitleChange) || Differs(j, dt, was, DisplayChange))
  {
    FreezeIs(j);
    hide ValidDb, TakesTrack, IsFrozen, FROZEN_TRACK_FIELDS, BuildDisplay, Merge, CreditsEqual, StoredCredits;
    SameTextIs();
  }

  lemma SameTextIs()
    ensures forall a, b :: SameText(a, b) <==> Coalesce(a) == Coalesce(b)
  {
  }

  ghost predicate Counted(j: Job, n: nat, w: Work)
    requires Ready(j) && n <= |j.d.tracks|
  {
    && w.sum.updated == Count(j, n, AnyChange) && w.sum.titles == Count(j, n, TitleChange)
    && w.sum.positions == Count(j, n, PositionChange) && w.sum.genres == Count(j, n, GenreChange)
    && w.sum.artists == Count(j, n, CreditsChange)
    && w.sum.albumFields == 0 && !w.sum.ftsSynced
    && (w.dirty <==> w.sum.inserted > 0 || Count(j, n, TitleChange) + Count(j, n, DisplayChange) > 0)
  }

  lemma InsertSum(w: Work, album: int, path: string, dt: DesiredTrack)
    ensures var w2 := InsertStep(w, album, path, dt);
            w2 == w || (w2.sum == w.sum.(inserted := w.sum.inserted + 1) && w2.dirty)
  {
    hide StoredCredits, NewRow, InsertRefused;
  }

  lemma InsertCounts(j: Job, n: nat, path: string)
    requires Ready(j) && n < |j.d.tracks| && j.d.tracks[n].path == Chars(path) && path !in Before0(j)
    ensures var w, w2 := Steps(j, n), InsertStep(Steps(j, n), j.album, path, j.d.tracks[n]);
            w2.sum == w.sum.(inserted := w.sum.inserted + 1) && w2.dirty
  {
    hide ValidDb, BucketOf, StoredCredits, NewRow, Steps, InsertStep, Progress, Landed;
    StepsProgress(j, n, j.album);
    InsertSum(Steps(j, n), j.album, path, j.d.tracks[n]);
    ProgressValid(j, n);
    var w', e := InsertEffect(j, n, j.album, Steps(j, n));
  }

  lemma ProgressValid(j: Job, n: nat)
    requires Ready(j) && n <= |j.d.tracks| && Progress(j, n, j.album, Steps(j, n))
    ensures ValidDb(Steps(j, n).db)
  {
    hide ValidDb;
  }

  lemma {:induction false} StepsCounted(j: Job, n: nat)
    requires Ready(j) && n <= |j.d.tracks|
    ensures Counted(j, n, Steps(j, n))
    decreases n
  {
    hide ValidDb, Before0, UpdateStep, InsertStep, MaskTrack, Differs, NewRow;
    if n > 0 {
      StepsCounted(j, n - 1);
      var dt := j.d.tracks[n - 1];
      if dt.path.Chars? {
        if dt.path.chars in Before0(j) {
          UpdateCounts(j, Steps(j, n - 1), Before0(j)[dt.path.chars], dt);
        } else {
          InsertCounts(j, n - 1, dt.path.chars);
        }
      }
    }
  }

  /** The summary counts the stored tracks that differ from their desired state, in anything and in each group of
      fields; and the track index is synced exactly when a track was inserted or deleted or a title or display
      differed. */
  lemma SummaryCounts(j: Job)
    requires Ready(j)
    ensures var sum, n := Result(j).1, |j.d.tracks|;
            && sum.updated == Count(j, n, AnyChange) && sum.titles == Count(j, n, TitleChange)
            && sum.positions == Count(j, n, PositionChange) && sum.genres == Count(j, n, GenreChange)
            && sum.artists == Count(j, n, CreditsChange)
            && (sum.ftsSynced <==> sum.inserted > 0 || sum.deleted > 0
                                   || Count(j, n, TitleChange) + Count(j, n, DisplayChange) > 0)
  {
    hide ValidDb, BucketOf, Count, TrackSteps, AlbumTarget, AlbumChanges, MaskAlbum, WriteAlbum;
    StepsCounted(j, |j.d.tracks|);
    StepsProgress(j, |j.d.tracks|, j.album);
    SomeDoomed(Doomed(Before0(j), j.d));
  }

  lemma SomeDoomed(s: set<string>)
    ensures |s| > 0 <==> s != {}
  {
  }

  // ---- Stored credits ----

  /** Entry `i` is the last that names its artist, and can be stored. */
  ghost predicate LastNamed(known: set<int>, artists: seq<DesiredArtist>, i: nat) {
    && i < |artists| && artists[i].artistId > 0 && artists[i].artistId in known
    && forall k | i < k < |artists| :: artists[k].artistId != artists[i].artistId
  }

  ghost predicate RowOf(row: CreditRow, a: DesiredArtist) {
    row.artistId == a.artistId && row.position == a.position && row.joinPhrase == Coalesce(a.joinPhrase)
  }

  /** Replaced credits hold, for each known artist named, the last entry that names it, and nothing else; sorted by
      position and then artist. */
  lemma {:induction false} StoredCreditsAre(known: set<int>, artists: seq<DesiredArtist>)
    ensures var rows := StoredCredits(known, artists);
            && Ordered(rows) && OneRowPerArtist(rows)
            && (forall r | r in rows :: exists i: nat :: LastNamed(known, artists, i) && RowOf(r, artists[i]))
            && (forall i: nat | LastNamed(known, artists, i) :: exists r :: r in rows && RowOf(r, artists[i]))
  {
    StoredShape(known, artists);
    if artists != [] {
      var n := |artists| - 1;
      var a := artists[n];
      var before, rows := StoredCredits(known, artists[..n]), StoredCredits(known, artists);
      StoredCreditsAre(known, artists[..n]);
      PutMembers(known, before, a);
      PutLast(known, artists);
      hide StoredCredits, PutCredit, Ordered, OneRowPerArtist, LastNamed, RowOf, Storable;
      RowsNamed(known, artists, before, rows);
      NamedRows(known, artists, before, rows);
    }
  }

  /** One entry more: the rows are the last entries'. */
  lemma RowsNamed(known: set<int>, artists: seq<DesiredArtist>, before: seq<CreditRow>, rows: seq<CreditRow>)
    requires artists != [] && PutTo(known, before, artists[|artists| - 1], rows)
    requires var front := artists[..|artists| - 1];
             forall r | r in before :: exists i: nat :: LastNamed(known, front, i) && RowOf(r, front[i])
    ensures forall r | r in rows :: exists i: nat :: LastNamed(known, artists, i) && RowOf(r, artists[i])
  {
    var n := |artists| - 1;
    forall r | r in rows ensures exists i: nat :: LastNamed(known, artists, i) && RowOf(r, artists[i]) {
      if r in before && r.artistId != artists[n].artistId {
        var i: nat :| LastNamed(known, artists[..n], i) && RowOf(r, artists[..n][i]);
        assert LastNamed(known, artists, i) && RowOf(r, artists[i]);
      } else {
        assert LastNamed(known, artists, n);
      }
    }
  }

  lemma NamedRows(known: set<int>, artists: seq<DesiredArtist>, before: seq<CreditRow>, rows: seq<CreditRow>)
    requires artists != [] && PutTo(known, before, artists[|artists| - 1], rows)
    requires var front := artists[..|artists| - 1];
             forall i: nat | LastNamed(known, front, i) :: exists r :: r in before && RowOf(r, front[i])
    ensures forall i: nat | LastNamed(known, artists, i) :: exists r :: r in rows && RowOf(r, artists[i])
  {
    var n := |artists| - 1;
    var a := artists[n];
    forall i: nat | LastNamed(known, artists, i) ensures exists r :: r in rows && RowOf(r, artists[i]) {
      if i < n {
        assert LastNamed(known, artists[..n], i);
        var r :| r in before && RowOf(r, artists[..n][i]);
        assert r in rows;
      } else {
        var c := CreditRow(a.artistId, a.position, Coalesce(a.joinPhrase));
        assert c in rows && RowOf(c, a);
      }
    }
  }

  /** `rows` are the rows `before` but for the artist of `a`, and a row for `a` if it can be stored. */
  ghost predicate PutTo(known: set<int>, before: seq<CreditRow>, a: DesiredArtist, rows: seq<CreditRow>) {
    forall r :: r in rows <==>
      || (r in before && r.artistId != a.artistId && Storable(known, a))
      || (r in before && !Storable(known, a))
      || (Storable(known, a) && r == CreditRow(a.artistId, a.position, Coalesce(a.joinPhrase)))
  }

  /** Credits compare equal exactly if they are the same artists with the same positions and phrases, in order. */
  lemma CreditsEqualIff(cur: seq<CreditRow>, des: seq<DesiredArtist>)
    ensures CreditsEqual(cur, des) <==> cur == AsRows(des)
  {
  }

  predicate Storable(known: set<int>, a: DesiredArtist) {
    a.artistId > 0 && a.artistId in known
  }

  lemma PutLast(known: set<int>, artists: seq<DesiredArtist>)
    requires artists != []
    ensures StoredCredits(known, artists)
      == PutCredit(known, StoredCredits(known, artists[..|artists| - 1]), artists[|artists| - 1])
  {
  }

  lemma PutMembers(known: set<int>, rows: seq<CreditRow>, a: DesiredArtist)
    ensures PutTo(known, rows, a, PutCredit(known, rows, a))
  {
    DropMembers(rows, a.artistId);
    PlaceMembers(DropArtist(rows, a.artistId), CreditRow(a.artistId, a.position, Coalesce(a.joinPhrase)));
  }

  lemma {:induction false} DropMembers(rows: seq<CreditRow>, id: int)
    ensures forall r :: r in DropArtist(rows, id) <==> r in rows && r.artistId != id
  {
    if rows != [] {
      DropMembers(rows[1..], id);
      assert rows == [rows[0]] + rows[1..];
    }
  }

  lemma {:induction false} PlaceMembers(rows: seq<CreditRow>, c: CreditRow)
    ensures forall r :: r in Place(rows, c) <==> r in rows || r == c
  {
    if rows != [] && !Before(c, rows[0]) {
      PlaceMembers(rows[1..], c);
      assert rows == [rows[0]] + rows[1..];
    }
  }
}
