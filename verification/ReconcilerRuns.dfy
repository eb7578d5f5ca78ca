// Many reconciles: batches, the user-edit freeze over a run, and the search index.

module ReconcilerRuns {
  import opened Text
  import opened Reconciler
  import opened ReconcilerBuckets
  import opened ReconcilerMerge

  // ---- Batches ----

  /** What a batch loads up front; an album without tracks has no bucket. */
  datatype Snapshot = Snapshot(albums: map<int, AlbumRow>, buckets: map<int, Bucket>)

  /** `buckets` holds exactly the non-empty buckets of the listed albums. */
  ghost predicate Files(db: Db, ids: seq<int>, buckets: map<int, Bucket>) {
    && (forall a | a in buckets :: a in ids && BucketOf(db, a) != map[] && buckets[a] == BucketOf(db, a))
    && (forall a | a in ids :: a in buckets || BucketOf(db, a) == map[])
  }

  /** The listed albums that have a row, and the buckets of those that have tracks. */
  ghost function Load(db: Db, ids: seq<int>): (snap: Snapshot)
    ensures forall a :: a in snap.albums <==> a in ids && a in db.albums
    ensures forall a | a in snap.albums :: snap.albums[a] == db.albums[a]
    ensures Files(db, ids, snap.buckets)
  {
    if ids == [] then Snapshot(map[], map[])
    else
      var a, rest := ids[|ids| - 1], Load(db, ids[..|ids| - 1]);
      assert ids == ids[..|ids| - 1] + [a];
      Snapshot(if a in db.albums then rest.albums[a := db.albums[a]] else rest.albums,
               if BucketOf(db, a) != map[] then rest.buckets[a := BucketOf(db, a)] else rest.buckets)
  }

  function BucketIn(snap: Snapshot, album: int): Bucket {
    if album in snap.buckets then snap.buckets[album] else map[]
  }

  /** The first `n` albums of a batch, each reconciled from the one snapshot. */
  ghost function BatchSteps(lower: string -> string, db: Db, snap: Snapshot, ids: seq<int>, ds: seq<DesiredAlbum>,
                            policy: Policy, out: seq<Summary>, n: nat): (r: (Db, seq<Summary>))
    requires n <= |ids| == |ds| == |out|
    ensures |r.1| == |out|
  {
    if n == 0 then (db, out)
    else
      var (db1, out1) := BatchSteps(lower, db, snap, ids, ds, policy, out, n - 1);
      var a := ids[n - 1];
      if a <= 0 then (db1, out1)
      else if a !in snap.albums then (db1, out1[n - 1 := NOTHING])
      else
        var r := ReconcileOne(lower, db1, a, snap.albums[a], BucketIn(snap, a), ds[n - 1], policy);
        (r.0, out1[n - 1 := r.1])
  }

  /** The first `n` albums reconciled one at a time, each from a load of its own. */
  ghost function OneByOne(lower: string -> string, db: Db, ids: seq<int>, ds: seq<DesiredAlbum>,
                          policy: Policy, out: seq<Summary>, n: nat): (r: (Db, seq<Summary>))
    requires n <= |ids| == |ds| == |out|
    ensures |r.1| == |out|
  {
    if n == 0 then (db, out)
    else
      var (db1, out1) := OneByOne(lower, db, ids, ds, policy, out, n - 1);
      if ids[n - 1] <= 0 || !ValidDb(db1) then (db1, out1)
      else
        var r := Reconcile(lower, db1, ids[n - 1], ds[n - 1], policy);
        (r.0, out1[n - 1 := r.1])
  }

  /** Reconciling one album leaves the row and the tracks of every other album alone. */
  lemma LeavesOthers(lower: string -> string, db: Db, album: int, d: DesiredAlbum, policy: Policy, other: int)
    requires ValidDb(db) && DistinctPaths(d)
    ensures var r := Reconcile(lower, db, album, d, policy).0;
            && ValidDb(r)
            && r.artists == db.artists && r.albums.Keys == db.albums.Keys
            && (other != album ==> BucketOf(r, other) == BucketOf(db, other))
            && (other != album && other in db.albums ==> r.albums[other] == db.albums[other])
  {
    hide ValidDb, BucketOf, ReconcileOne, BucketMerged, AlbumTarget, MaskAlbum;
    if album > 0 && album in db.albums {
      ReconcileMerges(Job(lower, db, album, d, policy), other);
    }
  }

  lemma {:induction false} OneByOneLeaves(lower: string -> string, db: Db, ids: seq<int>, ds: seq<DesiredAlbum>,
                                          policy: Policy, out: seq<Summary>, n: nat, other: int)
    requires n <= |ids| == |ds| == |out| && ValidDb(db)
    requires forall i | 0 <= i < n :: DistinctPaths(ds[i]) && ids[i] != other
    ensures var db1 := OneByOne(lower, db, ids, ds, policy, out, n).0;
            && ValidDb(db1) && db1.albums.Keys == db.albums.Keys
            && BucketOf(db1, other) == BucketOf(db, other)
            && (other in db.albums ==> db1.albums[other] == db.albums[other])
    decreases n
  {
    hide ValidDb, BucketOf, Reconcile;
    if n > 0 {
      OneByOneLeaves(lower, db, ids, ds, policy, out, n - 1, other);
      LeavesOthers(lower, OneByOne(lower, db, ids, ds, policy, out, n - 1).0, ids[n - 1], ds[n - 1], policy, other);
    }
  }

  lemma LoadedBucket(db: Db, ids: seq<int>, i: nat)
    requires ValidDb(db) && i < |ids|
    ensures BucketIn(Load(db, ids), ids[i]) == BucketOf(db, ids[i])
    ensures ids[i] in Load(db, ids).albums <==> ids[i] in db.albums
    ensures ids[i] in db.albums ==> Load(db, ids).albums[ids[i]] == db.albums[ids[i]]
  {
    hide ValidDb, BucketOf;
    assert ids[i] in ids;
  }

  /** A batch over one snapshot leaves the same rows, the same assigned track ids and the same summaries as
      reconciling its albums one at a time, provided no album is listed twice. */
  lemma {:induction false} BatchIsOneByOne(lower: string -> string, db: Db, ids: seq<int>, ds: seq<DesiredAlbum>,
                                           policy: Policy, out: seq<Summary>, n: nat)
    requires n <= |ids| == |ds| == |out| && ValidDb(db)
    requires forall i | 0 <= i < |ids| :: DistinctPaths(ds[i])
    requires forall i, k | 0 <= i < k < |ids| :: ids[i] != ids[k]
    ensures BatchSteps(lower, db, Load(db, ids), ids, ds, policy, out, n)
      == OneByOne(lower, db, ids, ds, policy, out, n)
    decreases n
  {
    hide ValidDb, BucketOf, BucketIn, ReconcileOne, Files, Load, DistinctPaths;
    if n > 0 {
      BatchIsOneByOne(lower, db, ids, ds, policy, out, n - 1);
      var a := ids[n - 1];
      assert forall i | 0 <= i < n - 1 :: ids[i] != a;
      OneByOneLeaves(lower, db, ids, ds, policy, out, n - 1, a);
      LoadedBucket(db, ids, n - 1);
    }
  }

  // ---- The user-edit freeze ----

  /** The frozen part of an album row. */
  predicate SameFrozenFields(a: AlbumRow, b: AlbumRow) {
    && a.title == b.title && a.artistId == b.artistId && a.releaseId == b.releaseId
    && a.releaseGroupId == b.releaseGroupId && a.mbStatus == b.mbStatus && a.mbResolvedAt == b.mbResolvedAt
  }

  predicate SameFrozenTrack(a: Loaded, b: Loaded) {
    a.id == b.id && a.row.title == b.row.title && a.row.artistDisplay == b.row.artistDisplay && a.credits == b.credits
  }

  lemma FrozenAlbumFields(cur: AlbumRow, d: DesiredAlbum)
    ensures SameFrozenFields(AlbumTarget(cur, MaskAlbum(d, true)), cur)
  {
  }

  /** One frozen reconcile: the album keeps its frozen fields, and a stored track that is still desired, or is not
      pruned, keeps its id, title and credits. */
  lemma FrozenOnce(j: Job, path: string)
    requires Ready(j) && IsFrozen(j)
    ensures j.album in Result(j).0.albums && SameFrozenFields(Result(j).0.albums[j.album], j.db.albums[j.album])
    ensures ValidDb(Result(j).0)
    ensures path in Before0(j) && path in Wanted(j.d, |j.d.tracks|) ==>
              path in BucketOf(Result(j).0, j.album)
                  && SameFrozenTrack(BucketOf(Result(j).0, j.album)[path], Before0(j)[path])
    ensures path in Before0(j) && path in BucketOf(Result(j).0, j.album) ==>
              SameFrozenTrack(BucketOf(Result(j).0, j.album)[path], Before0(j)[path])
    ensures path in Before0(j) ==>
              (path in BucketOf(Result(j).0, j.album)
               <==> (j.policy.pruneMissing ==> path in Wanted(j.d, |j.d.tracks|)))
  {
    hide ValidDb, BucketOf, Result, Landed, AlbumTarget;
    ReconcileMerges(j, j.album);
    FrozenAlbumFields(j.db.albums[j.album], j.d);
    if path in Before0(j) && path in Wanted(j.d, |j.d.tracks|) {
      var i :| 0 <= i < |j.d.tracks| && j.d.tracks[i].path.Chars? && j.d.tracks[i].path.chars == path;
      MergedFields(j, j.d.tracks[i], path, BucketOf(Result(j).0, j.album)[path]);
    }
  }

  /** A run of reconciles of one album. */
  ghost function Run(lower: string -> string, db: Db, album: int, ds: seq<DesiredAlbum>, policy: Policy): Db
    decreases |ds|
  {
    if ds == [] || !ValidDb(db) then db
    else Run(lower, Reconcile(lower, db, album, ds[0], policy).0, album, ds[1..], policy)
  }

  /** The album has a track at `path` before the run and after each of its reconciles. */
  ghost predicate Survives(lower: string -> string, db: Db, album: int, ds: seq<DesiredAlbum>, policy: Policy,
                           path: string)
    decreases |ds|
  {
    && path in BucketOf(db, album)
    && (ds == [] || !ValidDb(db)
        || Survives(lower, Reconcile(lower, db, album, ds[0], policy).0, album, ds[1..], policy, path))
  }

  ghost predicate Guarded(db: Db, album: int, ds: seq<DesiredAlbum>, policy: Policy) {
    && ValidDb(db) && album > 0 && album in db.albums && db.albums[album].mbStatus == MB_STATUS_RESOLVED
    && policy.respectUserEdits
    && forall i | 0 <= i < |ds| :: DistinctPaths(ds[i]) && ds[i].source == Tags
  }

  /** Once an album is resolved, no run of tag reconciles that respects user edits changes its title, artist,
      MusicBrainz ids, status or resolve time, whatever tracks it lists; and a track that is there throughout keeps
      its id, title and credits. */
  lemma {:induction false} FreezeHolds(lower: string -> string, db: Db, album: int, ds: seq<DesiredAlbum>,
                                       policy: Policy, path: string)
    requires Guarded(db, album, ds, policy)
    ensures var end := Run(lower, db, album, ds, policy);
            && album in end.albums && SameFrozenFields(end.albums[album], db.albums[album])
            && ValidDb(end)
            && (Survives(lower, db, album, ds, policy, path) ==>
                  && path in BucketOf(db, album) && path in BucketOf(end, album)
                  && SameFrozenTrack(BucketOf(end, album)[path], BucketOf(db, album)[path]))
    decreases |ds|
  {
    hide ValidDb, BucketOf, ReconcileOne, Wanted;
    if ds != [] {
      var j := Job(lower, db, album, ds[0], policy);
      FrozenOnce(j, path);
      FreezeHolds(lower, Result(j).0, album, ds[1..], policy, path);
    }
  }

  /** A track is there throughout exactly when it is there at first and, if the policy prunes, every desired state
      lists it. */
  lemma {:induction false} SurvivesIff(lower: string -> string, db: Db, album: int, ds: seq<DesiredAlbum>,
                                       policy: Policy, path: string)
    requires Guarded(db, album, ds, policy)
    ensures Survives(lower, db, album, ds, policy, path) <==>
      && path in BucketOf(db, album)
      && (policy.pruneMissing ==> forall i | 0 <= i < |ds| :: path in Wanted(ds[i], |ds[i].tracks|))
    decreases |ds|
  {
    hide ValidDb, BucketOf, ReconcileOne, Wanted;
    if ds != [] {
      var j := Job(lower, db, album, ds[0], policy);
      FrozenOnce(j, path);
      SurvivesIff(lower, Result(j).0, album, ds[1..], policy, path);
      assert ds == [ds[0]] + ds[1..];
    }
  }

  // ---- The search index ----

  ghost predicate AlbumIndexed(db: Db, a: int)
    requires a in db.albums
  {
    && a in db.albumsFts
    && db.albumsFts[a] == AlbumEntry(db.albums[a].title,
         if db.albums[a].artistId in db.artists then db.artists[db.albums[a].artistId] else "")
  }

  ghost predicate TrackIndexed(db: Db, id: int)
    requires id in db.tracks
  {
    && id in db.tracksFts
    && db.tracksFts[id].title == db.tracks[id].title
    && db.tracksFts[id].artist == Coalesce(db.tracks[id].artistDisplay)
  }

  /** Every album and every live track is indexed under its own title and artist. */
  ghost predicate Indexed(db: Db) {
    (forall a | a in db.albums :: AlbumIndexed(db, a)) && (forall id | id in db.tracks :: TrackIndexed(db, id))
  }

  /** While the track index is not marked stale, every track is indexed; at any time, every track of
      another album is. */
  ghost predicate IndexedBut(db: Db, album: int, dirty: bool) {
    forall id | id in db.tracks :: (dirty && db.tracks[id].albumId == album) || TrackIndexed(db, id)
  }

  lemma UpdateMarksStale(lower: string -> string, w: Work, cur: Loaded, dt: DesiredTrack, source: Source,
                         policy: Policy, album: int)
    requires cur.id in w.db.tracks && w.db.tracks[cur.id] == cur.row && cur.row.albumId == album
    requires IndexedBut(w.db, album, w.dirty)
    ensures var w' := UpdateStep(lower, w, cur, dt, source, policy); IndexedBut(w'.db, album, w'.dirty)
  {
    hide BuildDisplay, TrackGenre, CreditsEqual, StoredCredits;
  }

  lemma InsertMarksStale(w: Work, album: int, path: string, dt: DesiredTrack)
    requires IndexedBut(w.db, album, w.dirty)
    ensures var w' := InsertStep(w, album, path, dt); IndexedBut(w'.db, album, w'.dirty)
  {
    hide BuildDisplay, StoredCredits, InsertRefused;
    NewIdentity(album, path, dt);
    hide NewRow;
  }

  lemma {:induction false} StepsMarkStale(j: Job, n: nat)
    requires Ready(j) && n <= |j.d.tracks| && IndexedBut(j.db, j.album, false)
    ensures IndexedBut(Steps(j, n).db, j.album, Steps(j, n).dirty)
    decreases n
  {
    hide ValidDb, BucketOf, Progress, UpdateStep, InsertStep, MaskTrack, IndexedBut;
    if n > 0 {
      StepsMarkStale(j, n - 1);
      StepsProgress(j, n - 1, j.album);
      var w, dt := Steps(j, n - 1), j.d.tracks[n - 1];
      if dt.path.Chars? {
        if dt.path.chars in Before0(j) {
          var id := StillLoaded(j, n - 1, j.album, w);
          UpdateMarksStale(j.lower, w, Before0(j)[dt.path.chars], MaskTrack(dt, IsFrozen(j)), j.d.source, j.policy,
                           j.album);
        } else {
          InsertMarksStale(w, j.album, dt.path.chars, dt);
        }
      }
    }
  }

  lemma PruneKeepsMark(w: Work, bucket: Bucket, d: DesiredAlbum, album: int)
    requires IndexedBut(w.db, album, w.dirty)
    ensures var w' := PruneStep(w, bucket, d); IndexedBut(w'.db, album, w'.dirty)
  {
  }

  lemma SyncIndexesTracks(db: Db, album: int)
    requires IndexedBut(db, album, true) && album in db.albums
    ensures forall id | id in db.tracks :: TrackIndexed(SyncTrackIndex(db, album), id)
  {
    forall id | id in db.tracks ensures TrackIndexed(SyncTrackIndex(db, album), id) {
      SyncedEntry(db, album, db.tracks.Keys, id);
    }
  }

  lemma SyncIndexesAlbum(db: Db, album: int)
    requires album in db.albums && forall a | a in db.albums && a != album :: AlbumIndexed(db, a)
    ensures forall a | a in db.albums :: AlbumIndexed(SyncAlbumIndex(db, album), a)
  {
  }

  lemma AlbumStepIndexes(w: Work, album: int, cur: AlbumRow, m: DesiredAlbum)
    requires album in w.db.albums && w.db.albums[album] == cur
    requires IndexedBut(w.db, album, w.dirty) && forall a | a in w.db.albums :: AlbumIndexed(w.db, a)
    ensures Indexed(AlbumStep(w, album, cur, m).0)
  {
    hide AlbumTitle, SyncAlbumIndex, SyncTrackIndex;
    var t := AlbumTarget(cur, m);
    var db := WriteAlbum(w.db, album, cur, m);
    AlbumSyncKeepsRows(db, album);
    var stale := t.title != cur.title || t.artistId != cur.artistId;
    var db1 := if stale then SyncAlbumIndex(db, album) else db;
    if stale {
      SyncIndexesAlbum(db, album);
    }
    assert forall a | a in db1.albums :: AlbumIndexed(db1, a);
    assert IndexedBut(db1, album, w.dirty);
    if w.dirty {
      SyncIndexesTracks(db1, album);
      TrackSyncKeepsRows(db1, album);
    }
  }

  /** Every reconcile keeps the search index in agreement with the rows. */
  lemma IndexStaysInAgreement(j: Job)
    requires Ready(j) && Indexed(j.db)
    ensures Indexed(Result(j).0)
  {
    hide ValidDb, BucketOf, Progress, AlbumStep, PruneStep, TrackSteps, MaskAlbum, AlbumIndexed, TrackIndexed;
    var n := |j.d.tracks|;
    StepsMarkStale(j, n);
    StepsProgress(j, n, j.album);
    var w := AfterPrune(j, j.album, Steps(j, n));
    PruneKeepsMark(Steps(j, n), Before0(j), j.d, j.album);
    SameAlbumIndex(j.db, w.db);
    AlbumStepIndexes(w, j.album, j.db.albums[j.album], MaskAlbum(j.d, IsFrozen(j)));
  }

  lemma SameAlbumIndex(db: Db, db2: Db)
    requires db2.albums == db.albums && db2.artists == db.artists && db2.albumsFts == db.albumsFts
    requires forall a | a in db.albums :: AlbumIndexed(db, a)
    ensures forall a | a in db2.albums :: AlbumIndexed(db2, a)
  {
  }

  // ---- The album column of the track index ----

  /** The track is indexed under its album's title. */
  ghost predicate AlbumNamed(db: Db, id: int)
    requires id in db.tracks
  {
    db.tracks[id].albumId in db.albums ==>
      id in db.tracksFts && db.tracksFts[id].album == db.albums[db.tracks[id].albumId].title
  }

  ghost predicate NamedBut(db: Db, album: int, dirty: bool) {
    forall id | id in db.tracks :: (dirty && db.tracks[id].albumId == album) || AlbumNamed(db, id)
  }

  lemma UpdateKeepsNames(lower: string -> string, w: Work, cur: Loaded, dt: DesiredTrack, source: Source,
                         policy: Policy, album: int)
    requires cur.id in w.db.tracks && w.db.tracks[cur.id] == cur.row && NamedBut(w.db, album, w.dirty)
    ensures var w' := UpdateStep(lower, w, cur, dt, source, policy); NamedBut(w'.db, album, w'.dirty)
  {
    hide BuildDisplay, TrackGenre, CreditsEqual, StoredCredits, SameTrack;
  }

  lemma InsertKeepsNames(w: Work, album: int, path: string, dt: DesiredTrack)
    requires NamedBut(w.db, album, w.dirty)
    ensures var w' := InsertStep(w, album, path, dt); NamedBut(w'.db, album, w'.dirty)
  {
    hide BuildDisplay, StoredCredits, InsertRefused;
    NewIdentity(album, path, dt);
    hide NewRow;
  }

  lemma {:induction false} StepsKeepNames(j: Job, n: nat)
    requires Ready(j) && n <= |j.d.tracks| && NamedBut(j.db, j.album, false)
    ensures NamedBut(Steps(j, n).db, j.album, Steps(j, n).dirty)
    decreases n
  {
    hide ValidDb, BucketOf, Progress, UpdateStep, InsertStep, MaskTrack, NamedBut;
    if n > 0 {
      StepsKeepNames(j, n - 1);
      StepsProgress(j, n - 1, j.album);
      var w, dt := Steps(j, n - 1), j.d.tracks[n - 1];
      if dt.path.Chars? {
        if dt.path.chars in Before0(j) {
          var id := StillLoaded(j, n - 1, j.album, w);
          UpdateKeepsNames(j.lower, w, Before0(j)[dt.path.chars], MaskTrack(dt, IsFrozen(j)), j.d.source, j.policy,
                           j.album);
        } else {
          InsertKeepsNames(w, j.album, dt.path.chars, dt);
        }
      }
    }
  }

  lemma PruneKeepsNames(w: Work, bucket: Bucket, d: DesiredAlbum, album: int)
    requires NamedBut(w.db, album, w.dirty)
    ensures var w' := PruneStep(w, bucket, d); NamedBut(w'.db, album, w'.dirty)
  {
  }

  ghost predicate HasTracks(db: Db, album: int) {
    exists id :: id in db.tracks && db.tracks[id].albumId == album
  }

  lemma AlbumStepNames(w: Work, album: int, cur: AlbumRow, m: DesiredAlbum)
    requires album in w.db.albums && w.db.albums[album] == cur && NamedBut(w.db, album, w.dirty)
    ensures var (db, sum) := AlbumStep(w, album, cur, m);
            NamedBut(db, album, false) <==>
              sum.ftsSynced || WriteAlbum(w.db, album, cur, m).albums[album].title == cur.title || !HasTracks(db, album)
  {
    hide AlbumTitle, SyncAlbumIndex, SyncTrackIndex;
    var t := AlbumTarget(cur, m);
    var db := WriteAlbum(w.db, album, cur, m);
    AlbumSyncKeepsRows(db, album);
    var db1 := if t.title != cur.title || t.artistId != cur.artistId then SyncAlbumIndex(db, album) else db;
    TrackSyncKeepsRows(db1, album);
    if w.dirty {
      SyncNamesAlbum(db1, album);
    }
  }

  lemma SyncNamesAlbum(db: Db, album: int)
    requires album in db.albums && forall id | id in db.tracks && db.tracks[id].albumId != album :: AlbumNamed(db, id)
    ensures NamedBut(SyncTrackIndex(db, album), album, false)
  {
    TrackSyncKeepsRows(db, album);
    forall id | id in db.tracks ensures AlbumNamed(SyncTrackIndex(db, album), id) {
      SyncedEntry(db, album, db.tracks.Keys, id);
    }
  }

  /** When every track was indexed under its album's title, it is afterwards exactly if the track index was synced, or
      the title stayed as it was, or the album has no tracks: a new title alone does not reach the index. */
  lemma AlbumColumnIff(j: Job)
    requires Ready(j) && forall id | id in j.db.tracks :: AlbumNamed(j.db, id)
    ensures var (db, sum) := Result(j);
            && j.album in db.albums
            && ((forall id | id in db.tracks :: AlbumNamed(db, id)) <==>
                  sum.ftsSynced || db.albums[j.album].title == j.db.albums[j.album].title || !HasTracks(db, j.album))
  {
    hide ValidDb, BucketOf, Progress, AlbumStep, PruneStep, TrackSteps, MaskAlbum, AlbumNamed, WriteAlbum, BucketMerged,
      HasTracks;
    var n := |j.d.tracks|;
    assert NamedBut(j.db, j.album, false);
    StepsKeepNames(j, n);
    StepsProgress(j, n, j.album);
    var w := AfterPrune(j, j.album, Steps(j, n));
    PruneKeepsNames(Steps(j, n), Before0(j), j.d, j.album);
    var m := MaskAlbum(j.d, IsFrozen(j));
    AlbumStepNames(w, j.album, j.db.albums[j.album], m);
    ReconcileMerges(j, j.album);
    WriteSame(j.db, w.db, j.album, m);
  }

  lemma WriteSame(db: Db, db2: Db, album: int, m: DesiredAlbum)
    requires db2.albums == db.albums && db2.artists == db.artists && album in db.albums
    ensures WriteAlbum(db2, album, db.albums[album], m).albums == WriteAlbum(db, album, db.albums[album], m).albums
    ensures album in WriteAlbum(db, album, db.albums[album], m).albums
  {
  }
}
