// One reconcile refines a field-by-field merge of the desired state into the stored rows.

module ReconcilerMerge {
  import opened Text
  import opened Genre
  import opened Reconciler
  import opened ReconcilerBuckets

  /** Everything one reconcile is given: the folding, the database, the album and the desired state. */
  datatype Job = Job(lower: string -> string, db: Db, album: int, d: DesiredAlbum, policy: Policy)

  ghost predicate Ready(j: Job) {
    ValidDb(j.db) && j.album > 0 && j.album in j.db.albums && DistinctPaths(j.d)
  }

  /** No path is desired twice. */
  predicate DistinctPaths(d: DesiredAlbum) {
    forall i, k | 0 <= i < k < |d.tracks| :: d.tracks[i].path.Chars? ==> d.tracks[i].path != d.tracks[k].path
  }

  ghost function Before0(j: Job): Bucket
    requires Ready(j)
  {
    BucketOf(j.db, j.album)
  }

  ghost predicate IsFrozen(j: Job)
    requires Ready(j)
  {
    Frozen(j.db.albums[j.album], j.d.source, j.policy)
  }

  /** The credits a matched track ends with. */
  ghost function MergedCredits(known: set<int>, cur: seq<CreditRow>, dt: DesiredTrack): seq<CreditRow> {
    if FArtists in dt.fields && !CreditsEqual(cur, dt.artists) then StoredCredits(known, dt.artists) else cur
  }

  /** The entry a desired track leaves at its path: the merged row under the old id where the path
      was already stored, a new row otherwise. */
  ghost predicate Landed(j: Job, dt: DesiredTrack, path: string, e: Loaded)
    requires Ready(j)
  {
    if path in Before0(j) then
      var was, m := Before0(j)[path], MaskTrack(dt, IsFrozen(j));
      && e.id == was.id
      && e.row == UpdatedRow(j.lower, was.row, m, j.d.source, j.policy)
      && e.credits == MergedCredits(j.db.artists.Keys, was.credits, m)
    else
      && e.id !in j.db.tracks
      && e.row == NewRow(j.album, path, dt)
      && e.credits == if FArtists in dt.fields then StoredCredits(j.db.artists.Keys, dt.artists) else []
  }

  ghost function Steps(j: Job, n: nat): Work
    requires Ready(j) && n <= |j.d.tracks|
  {
    TrackSteps(j.lower, j.db, j.album, j.db.albums[j.album], Before0(j), j.d, j.policy, n)
  }

  /** The tables and counters `w` after the first `n` desired tracks. */
  ghost predicate Progress(j: Job, n: nat, other: int, w: Work)
    requires Ready(j) && n <= |j.d.tracks|
  {
    && ValidDb(w.db)
    && w.db == j.db.(tracks := w.db.tracks, credits := w.db.credits)
    && j.db.tracks.Keys <= w.db.tracks.Keys
    && (other != j.album ==> BucketOf(w.db, other) == BucketOf(j.db, other))
    && BucketProgress(j, n, BucketOf(w.db, j.album))
    && |w.db.tracks| == |j.db.tracks| + w.sum.inserted
    && |Wanted(j.d, n) - Before0(j).Keys| == w.sum.inserted
    && w.sum.deleted == 0
  }

  ghost predicate BucketProgress(j: Job, n: nat, b: Bucket)
    requires Ready(j) && n <= |j.d.tracks|
  {
    && b.Keys == Before0(j).Keys + Wanted(j.d, n)
    && (forall p | p in Before0(j) && p !in Wanted(j.d, n) :: b[p] == Before0(j)[p])
    && (forall i | 0 <= i < n :: j.d.tracks[i].path.Chars? ==>
          Landed(j, j.d.tracks[i], j.d.tracks[i].path.chars, b[j.d.tracks[i].path.chars]))
  }

  /** The update of a matched track writes its row and credits, and nothing else. */
  lemma UpdateWrites(lower: string -> string, w: Work, cur: Loaded, dt: DesiredTrack, source: Source, policy: Policy)
    requires cur.id in w.db.tracks && w.db.tracks[cur.id] == cur.row && CreditsOf(w.db, cur.id) == cur.credits
    ensures var w' := UpdateStep(lower, w, cur, dt, source, policy);
            && w'.db.tracks == w.db.tracks[cur.id := UpdatedRow(lower, cur.row, dt, source, policy)]
            && CreditsOf(w'.db, cur.id) == MergedCredits(w.db.artists.Keys, cur.credits, dt)
            && (forall k | k != cur.id :: CreditsOf(w'.db, k) == CreditsOf(w.db, k))
            && w'.db.credits.Keys <= w.db.credits.Keys + {cur.id}
            && w'.db == w.db.(tracks := w'.db.tracks, credits := w'.db.credits)
            && w'.sum.inserted == w.sum.inserted && w'.sum.deleted == w.sum.deleted
  {
    hide TrackTarget, SameTrack, StoredCredits, CreditsEqual, One;
    var row := UpdatedRow(lower, cur.row, dt, source, policy);
    if row == cur.row {
      assert w.db.tracks[cur.id := row] == w.db.tracks;
    }
  }

  lemma InsertWrites(w: Work, album: int, path: string, dt: DesiredTrack)
    requires ValidDb(w.db) && !InsertRefused(w.db, album, path)
    ensures var w', id := InsertStep(w, album, path, dt), NextRowid(w.db.tracks.Keys);
            && w'.db.tracks == w.db.tracks[id := NewRow(album, path, dt)]
            && CreditsOf(w'.db, id)
               == (if FArtists in dt.fields then StoredCredits(w.db.artists.Keys, dt.artists) else [])
            && (forall k | k != id :: CreditsOf(w'.db, k) == CreditsOf(w.db, k))
            && w'.db.credits.Keys <= w.db.credits.Keys + {id}
            && w'.db == w.db.(tracks := w'.db.tracks, credits := w'.db.credits)
            && w'.sum == w.sum.(inserted := w.sum.inserted + 1)
  {
    CreditsHaveTracks(w.db);
    hide ValidDb, NewRow, StoredCredits, InsertRefused, NextRowid;
  }

  lemma UntouchedYet(j: Job, n: nat)
    requires Ready(j) && n < |j.d.tracks| && j.d.tracks[n].path.Chars?
    ensures j.d.tracks[n].path.chars !in Wanted(j.d, n)
    ensures Wanted(j.d, n + 1) == Wanted(j.d, n) + {j.d.tracks[n].path.chars}
  {
  }

  /** What one desired track does: it sets one entry of the album's bucket, and nothing elsewhere. */
  ghost predicate StepEffect(j: Job, n: nat, other: int, w: Work, w': Work, e: Loaded)
    requires Ready(j) && n < |j.d.tracks| && j.d.tracks[n].path.Chars? && ValidDb(w.db)
  {
    var path := j.d.tracks[n].path.chars;
    && ValidDb(w'.db)
    && w'.db == w.db.(tracks := w'.db.tracks, credits := w'.db.credits)
    && (other != j.album ==> BucketOf(w'.db, other) == BucketOf(w.db, other))
    && Landed(j, j.d.tracks[n], path, e)
    && BucketOf(w'.db, j.album) == BucketOf(w.db, j.album)[path := e]
    && w.db.tracks.Keys <= w'.db.tracks.Keys
    && |w'.db.tracks| == |w.db.tracks| + One(path !in Before0(j))
    && w'.sum.inserted == w.sum.inserted + One(path !in Before0(j))
    && w'.sum.deleted == w.sum.deleted
  }

  /** A desired track's path still holds what was loaded for it when its turn comes. */
  lemma StillLoaded(j: Job, n: nat, other: int, w: Work) returns (id: int)
    requires Ready(j) && n < |j.d.tracks| && j.d.tracks[n].path.Chars? && Progress(j, n, other, w)
    requires j.d.tracks[n].path.chars in Before0(j)
    ensures var cur := Before0(j)[j.d.tracks[n].path.chars];
            && id == cur.id && id in w.db.tracks && w.db.tracks[id] == cur.row && CreditsOf(w.db, id) == cur.credits
            && cur.row.albumId == j.album && cur.row.path == j.d.tracks[n].path.chars && id > 0
  {
    hide Landed;
    UntouchedYet(j, n);
    id := BucketId(w.db, j.album, j.d.tracks[n].path.chars);
  }

  lemma UpdateEffect(j: Job, n: nat, other: int, w: Work) returns (w': Work, e: Loaded)
    requires Ready(j) && n < |j.d.tracks| && j.d.tracks[n].path.Chars? && Progress(j, n, other, w)
    requires j.d.tracks[n].path.chars in Before0(j)
    ensures w'
      == UpdateStep(j.lower, w, Before0(j)[j.d.tracks[n].path.chars], MaskTrack(j.d.tracks[n], IsFrozen(j)),
                    j.d.source, j.policy)
    ensures StepEffect(j, n, other, w, w', e)
  {
    hide UpdateStep, BucketOf, ValidDb, BucketProgress, UpdatedRow, MergedCredits, MaskTrack, Wanted;
    var path := j.d.tracks[n].path.chars;
    var cur, m := Before0(j)[path], MaskTrack(j.d.tracks[n], IsFrozen(j));
    var id := StillLoaded(j, n, other, w);
    UpdateWrites(j.lower, w, cur, m, j.d.source, j.policy);
    w' := UpdateStep(j.lower, w, cur, m, j.d.source, j.policy);
    KeptIdentity(j.lower, cur.row, m, j.d.source, j.policy);
    e := Loaded(id, UpdatedRow(j.lower, cur.row, m, j.d.source, j.policy), CreditsOf(w'.db, id));
    KeysStay(w.db, w'.db, id, e.row);
    WriteShows(w.db, w'.db, id, e.row, j.album);
    WriteShows(w.db, w'.db, id, e.row, other);
  }

  lemma KeptIdentity(lower: string -> string, cur: TrackRow, dt: DesiredTrack, source: Source, policy: Policy)
    ensures UpdatedRow(lower, cur, dt, source, policy).albumId == cur.albumId
    ensures UpdatedRow(lower, cur, dt, source, policy).path == cur.path
  {
  }

  lemma KeysStay(db: Db, db2: Db, id: int, row: TrackRow)
    requires ValidDb(db) && db2.tracks == db.tracks[id := row] && db2.credits.Keys <= db.credits.Keys + {id}
    ensures db2.tracks.Keys == db.tracks.Keys + {id} && db2.credits.Keys <= db2.tracks.Keys
    ensures |db2.tracks| == |db.tracks| + One(id !in db.tracks)
  {
    CreditsHaveTracks(db);
    hide ValidDb;
    MapPut(db.tracks, id, row);
  }

  lemma CreditsHaveTracks(db: Db)
    requires ValidDb(db)
    ensures db.credits.Keys <= db.tracks.Keys
  {
  }

  lemma MapPut<V>(m: map<int, V>, id: int, v: V)
    ensures m[id := v].Keys == m.Keys + {id} && |m[id := v]| == |m| + One(id !in m)
  {
    assert m[id := v].Keys == m.Keys + {id};
    if id in m {
      assert m.Keys + {id} == m.Keys;
    }
  }

  lemma PathIsFree(db: Db, album: int, path: string)
    requires ValidDb(db) && path !in BucketOf(db, album)
    ensures forall k | k in db.tracks && db.tracks[k].albumId == album :: db.tracks[k].path != path
    ensures album in db.albums ==> !InsertRefused(db, album, path)
  {
    hide ValidDb, BucketOf;
    forall k | k in db.tracks && db.tracks[k].albumId == album ensures db.tracks[k].path != path {
      BucketEntry(db, album, db.tracks[k].path, k);
    }
  }

  lemma NotThereYet(j: Job, n: nat, other: int, w: Work)
    requires Ready(j) && n < |j.d.tracks| && j.d.tracks[n].path.Chars? && Progress(j, n, other, w)
    requires j.d.tracks[n].path.chars !in Before0(j)
    ensures j.d.tracks[n].path.chars !in BucketOf(w.db, j.album)
  {
    hide BucketOf, ValidDb, Landed, Before0;
    UntouchedYet(j, n);
  }

  lemma InsertEffect(j: Job, n: nat, other: int, w: Work) returns (w': Work, e: Loaded)
    requires Ready(j) && n < |j.d.tracks| && j.d.tracks[n].path.Chars? && Progress(j, n, other, w)
    requires j.d.tracks[n].path.chars !in Before0(j)
    ensures w' == InsertStep(w, j.album, j.d.tracks[n].path.chars, j.d.tracks[n])
    ensures StepEffect(j, n, other, w, w', e)
  {
    hide InsertStep, BucketOf, ValidDb, NewRow, StoredCredits, Wanted, Before0, BucketProgress, InsertRefused,
      NextRowid;
    var dt, path := j.d.tracks[n], j.d.tracks[n].path.chars;
    NotThereYet(j, n, other, w);
    PathIsFree(w.db, j.album, path);
    var id := NextRowid(w.db.tracks.Keys);
    InsertWrites(w, j.album, path, dt);
    w' := InsertStep(w, j.album, path, dt);
    e := Loaded(id, NewRow(j.album, path, dt), CreditsOf(w'.db, id));
    NewIdentity(j.album, path, dt);
    KeysStay(w.db, w'.db, id, e.row);
    WriteShows(w.db, w'.db, id, e.row, j.album);
    WriteShows(w.db, w'.db, id, e.row, other);
  }

  lemma NewIdentity(album: int, path: string, dt: DesiredTrack)
    ensures NewRow(album, path, dt).albumId == album && NewRow(album, path, dt).path == path
  {
  }

  lemma BucketNext(j: Job, n: nat, b: Bucket, e: Loaded)
    requires Ready(j) && n < |j.d.tracks| && j.d.tracks[n].path.Chars? && BucketProgress(j, n, b)
    requires Landed(j, j.d.tracks[n], j.d.tracks[n].path.chars, e)
    ensures BucketProgress(j, n + 1, b[j.d.tracks[n].path.chars := e])
  {
    hide Landed, Before0;
    var path := j.d.tracks[n].path.chars;
    UntouchedYet(j, n);
    forall i | 0 <= i < n && j.d.tracks[i].path.Chars?
      ensures b[path := e][j.d.tracks[i].path.chars] == b[j.d.tracks[i].path.chars]
    {
      assert j.d.tracks[i].path.chars in Wanted(j.d, n);
    }
  }

  lemma CountAdd<T>(a: set<T>, b: set<T>, x: T)
    requires x !in a
    ensures |(a + {x}) - b| == |a - b| + One(x !in b)
  {
    assert (a + {x}) - b == if x in b then a - b else (a - b) + {x};
  }

  lemma ProgressNext(j: Job, n: nat, other: int, w: Work, w': Work, e: Loaded)
    requires Ready(j) && n < |j.d.tracks| && j.d.tracks[n].path.Chars? && Progress(j, n, other, w)
    requires StepEffect(j, n, other, w, w', e)
    ensures Progress(j, n + 1, other, w')
  {
    hide BucketOf, ValidDb, Landed, Before0, BucketProgress, Wanted;
    BucketNext(j, n, BucketOf(w.db, j.album), e);
    UntouchedYet(j, n);
    CountAdd(Wanted(j.d, n), Before0(j).Keys, j.d.tracks[n].path.chars);
  }

  lemma NoStepsYet(j: Job, other: int)
    requires Ready(j)
    ensures Progress(j, 0, other, Work(j.db, NOTHING, false))
  {
    hide BucketOf, ValidDb, Landed;
    assert Wanted(j.d, 0) == {};
  }

  lemma {:induction false} StepsProgress(j: Job, n: nat, other: int)
    requires Ready(j) && n <= |j.d.tracks|
    ensures Progress(j, n, other, Steps(j, n))
    decreases n
  {
    hide BucketOf, ValidDb, Progress, StepEffect, UpdateStep, InsertStep, MaskTrack;
    if n == 0 {
      NoStepsYet(j, other);
    } else {
      StepsProgress(j, n - 1, other);
      var w := Steps(j, n - 1);
      if j.d.tracks[n - 1].path.Null? {
        SkippedTrack(j, n - 1, other, w);
      } else if j.d.tracks[n - 1].path.chars in Before0(j) {
        var w', e := UpdateEffect(j, n - 1, other, w);
        ProgressNext(j, n - 1, other, w, w', e);
      } else {
        var w', e := InsertEffect(j, n - 1, other, w);
        ProgressNext(j, n - 1, other, w, w', e);
      }
    }
  }

  lemma SkippedTrack(j: Job, n: nat, other: int, w: Work)
    requires Ready(j) && n < |j.d.tracks| && j.d.tracks[n].path.Null? && Progress(j, n, other, w)
    ensures Progress(j, n + 1, other, w)
  {
    hide BucketOf, ValidDb, Landed;
    assert Wanted(j.d, n + 1) == Wanted(j.d, n);
  }

  // ---- The whole reconcile ----

  ghost function Result(j: Job): (r: (Db, Summary))
    requires Ready(j)
  {
    Reconcile(j.lower, j.db, j.album, j.d, j.policy)
  }

  /** What one reconcile leaves, as a merge: the tables other than its own album's are untouched; the
      album holds the desired paths, and its other paths unless the policy prunes them; every desired
      path holds its merged entry; the counters count the rows added and removed. */
  ghost predicate Merged(j: Job, other: int, db: Db, sum: Summary)
    requires Ready(j)
  {
    && ValidDb(db)
    && db.artists == j.db.artists
    && (other != j.album ==> BucketOf(db, other) == BucketOf(j.db, other))
    && BucketMerged(j, BucketOf(db, j.album))
    && db.albums == WriteAlbum(j.db, j.album, j.db.albums[j.album], MaskAlbum(j.d, IsFrozen(j))).albums
    && sum.inserted == |Wanted(j.d, |j.d.tracks|) - Before0(j).Keys|
    && sum.deleted == (if j.policy.pruneMissing then |Before0(j).Keys - Wanted(j.d, |j.d.tracks|)| else 0)
    && |db.tracks| == |j.db.tracks| + sum.inserted - sum.deleted
  }

  ghost predicate BucketMerged(j: Job, b: Bucket)
    requires Ready(j)
  {
    var wanted := Wanted(j.d, |j.d.tracks|);
    && b.Keys == (if j.policy.pruneMissing then wanted else Before0(j).Keys + wanted)
    && (forall p | p in b && p !in wanted :: b[p] == Before0(j)[p])
    && (forall i | 0 <= i < |j.d.tracks| :: j.d.tracks[i].path.Chars? ==>
          Landed(j, j.d.tracks[i], j.d.tracks[i].path.chars, b[j.d.tracks[i].path.chars]))
  }

  lemma WantedHas(d: DesiredAlbum, i: nat)
    requires i < |d.tracks| && d.tracks[i].path.Chars?
    ensures d.tracks[i].path.chars in Wanted(d, |d.tracks|)
  {
  }

  /** The tables after the prune, or after the track steps where the policy does not prune. */
  ghost predicate Pruned(j: Job, other: int, w: Work)
    requires Ready(j)
  {
    && ValidDb(w.db) && w.db == j.db.(tracks := w.db.tracks, credits := w.db.credits)
    && (other != j.album ==> BucketOf(w.db, other) == BucketOf(j.db, other))
    && BucketMerged(j, BucketOf(w.db, j.album))
    && w.sum.inserted == |Wanted(j.d, |j.d.tracks|) - Before0(j).Keys|
    && w.sum.deleted == (if j.policy.pruneMissing then |Before0(j).Keys - Wanted(j.d, |j.d.tracks|)| else 0)
    && |w.db.tracks| == |j.db.tracks| + w.sum.inserted - w.sum.deleted
  }

  lemma PruneBucket(j: Job, b: Bucket)
    requires Ready(j) && BucketProgress(j, |j.d.tracks|, b)
    ensures var doomed := Doomed(Before0(j), j.d);
            && doomed <= b.Keys
            && IdsAt(Before0(j), doomed) == IdsAt(b, doomed)
            && (j.policy.pruneMissing ==> BucketMerged(j, b - doomed))
            && (!j.policy.pruneMissing ==> BucketMerged(j, b))
  {
    hide Before0, Landed, Wanted;
    var doomed := Doomed(Before0(j), j.d);
    forall i | 0 <= i < |j.d.tracks| && j.d.tracks[i].path.Chars? ensures j.d.tracks[i].path.chars in b - doomed {
      WantedHas(j.d, i);
    }
  }

  lemma AfterPrune(j: Job, other: int, s: Work) returns (w: Work)
    requires Ready(j) && Progress(j, |j.d.tracks|, other, s)
    ensures w == if j.policy.pruneMissing then PruneStep(s, Before0(j), j.d) else s
    ensures Pruned(j, other, w)
  {
    hide BucketOf, ValidDb, Landed, Wanted, Before0, BucketMerged, BucketProgress, IdsAt;
    w := s;
    var b := BucketOf(s.db, j.album);
    PruneBucket(j, b);
    if j.policy.pruneMissing {
      w := PruneStep(s, Before0(j), j.d);
      var doomed := Doomed(Before0(j), j.d);
      DeleteShows(s.db, w.db, j.album, doomed, j.album);
      DeleteShows(s.db, w.db, j.album, doomed, other);
      DeleteCount(s.db, j.album, doomed);
    }
  }

  /** The album step leaves tracks and credits alone and writes the album row from the loaded one. */
  lemma AlbumStepRows(db: Db, w: Work, album: int, cur: AlbumRow, d: DesiredAlbum)
    requires w.db.albums == db.albums && w.db.artists == db.artists
    ensures var r := AlbumStep(w, album, cur, d);
            && r.0.tracks == w.db.tracks && r.0.credits == w.db.credits && r.0.artists == w.db.artists
            && r.0.albums == WriteAlbum(db, album, cur, d).albums
            && r.1.inserted == w.sum.inserted && r.1.deleted == w.sum.deleted
  {
    AlbumRowOnly(db, w.db, album, cur, d);
    hide AlbumTarget, AlbumChanges, SyncAlbumIndex, SyncTrackIndex, WriteAlbum;
    var db1 := WriteAlbum(w.db, album, cur, d);
    AlbumSyncKeepsRows(db1, album);
    TrackSyncKeepsRows(db1, album);
    TrackSyncKeepsRows(SyncAlbumIndex(db1, album), album);
  }

  lemma AlbumRowOnly(db: Db, db2: Db, album: int, cur: AlbumRow, d: DesiredAlbum)
    requires db2.albums == db.albums && db2.artists == db.artists
    ensures var r := WriteAlbum(db2, album, cur, d);
            && r.albums == WriteAlbum(db, album, cur, d).albums
            && r.tracks == db2.tracks && r.credits == db2.credits && r.artists == db2.artists
  {
    hide AlbumTarget, AlbumChanges, AlbumTitle;
  }

  lemma AlbumSyncKeepsRows(db: Db, album: int)
    ensures SyncAlbumIndex(db, album) == db.(albumsFts := SyncAlbumIndex(db, album).albumsFts)
  {
  }

  lemma TrackSyncKeepsRows(db: Db, album: int)
    ensures SyncTrackIndex(db, album) == db.(tracksFts := SyncTrackIndex(db, album).tracksFts)
  {
  }

  /** Writing album rows and index rows leaves every bucket alone. */
  lemma BucketsIgnore(db: Db, db2: Db, album: int)
    requires ValidDb(db) && db2.tracks == db.tracks && db2.credits == db.credits
    ensures ValidDb(db2) && BucketOf(db2, album) == BucketOf(db, album)
  {
    FromIgnores(db, db2, album, db.tracks.Keys);
  }

  lemma ReconcileMerges(j: Job, other: int)
    requires Ready(j)
    ensures Merged(j, other, Result(j).0, Result(j).1)
  {
    hide BucketOf, ValidDb, Wanted, Landed, PruneStep, TrackSteps, BucketMerged, Progress, AlbumStep, WriteAlbum,
      MaskAlbum;
    StepsProgress(j, |j.d.tracks|, other);
    var w := AfterPrune(j, other, Steps(j, |j.d.tracks|));
    AlbumStepRows(j.db, w, j.album, j.db.albums[j.album], MaskAlbum(j.d, IsFrozen(j)));
    BucketsIgnore(w.db, Result(j).0, j.album);
    BucketsIgnore(w.db, Result(j).0, other);
  }

  /** A matched track, field by field: accepted present fields take the desired value, every other
      field keeps its own, and a MusicBrainz position moves a track only at sufficient confidence. */
  lemma MergedFields(j: Job, dt: DesiredTrack, path: string, e: Loaded)
    requires Ready(j) && path in Before0(j) && Landed(j, dt, path, e)
    ensures e.id == Before0(j)[path].id && e.row.path == Before0(j)[path].row.path
    ensures var credits := Before0(j)[path].credits;
            e.credits == if FArtists in MaskTrack(dt, IsFrozen(j)).fields && !CreditsEqual(credits, dt.artists)
                         then StoredCredits(j.db.artists.Keys, dt.artists) else credits
    ensures var was, has := Before0(j)[path].row, MaskTrack(dt, IsFrozen(j)).fields;
            if FTitle in has && dt.title.Null? then e.row == was
            else
              && e.row.title == (if FTitle in has then dt.title.chars else was.title)
              && (e.row.trackNum != was.trackNum ==> FNum in has && e.row.trackNum == dt.trackNum)
              && (e.row.discNum != was.discNum ==> FDisc in has && e.row.discNum == dt.discNum)
              && (PositionAccepted(dt, j.d.source, j.policy) && FNum in has ==> e.row.trackNum == dt.trackNum)
              && (PositionAccepted(dt, j.d.source, j.policy) && FDisc in has ==> e.row.discNum == dt.discNum)
              && (j.d.source == Mb && dt.confidence < j.policy.minConfidence ==>
                    e.row.trackNum == was.trackNum && e.row.discNum == was.discNum)
              && e.row.durationMs == (if FDuration in has then dt.durationMs else was.durationMs)
              && e.row.year == (if FYear in has then dt.year else was.year)
              && e.row.mtime == (if FMtime in has then dt.mtime else was.mtime)
              && (FGenre in has ==> SameText(e.row.genre, dt.genre))
              && (FGenre !in has && FGenreMerge in has ==> SameText(e.row.genre, Merge(j.lower, was.genre, dt.genre)))
              && (FGenre !in has && FGenreMerge !in has ==> e.row.genre == was.genre)
              && (FArtists in has ==> Coalesce(e.row.artistDisplay) == BuildDisplay(dt.artists))
              && (FArtists !in has ==>
                  e.row.artistDisplay == was.artistDisplay && e.credits == Before0(j)[path].credits)
  {
    hide Before0, BuildDisplay, Merge;
  }

  /** An inserted track has a row of its own in the album, never disc 0, the stated defaults for absent fields,
      and only credits of known artists. */
  lemma InsertedFields(j: Job, dt: DesiredTrack, path: string, e: Loaded)
    requires Ready(j) && path !in Before0(j) && Landed(j, dt, path, e)
    ensures e.id !in j.db.tracks && e.row.albumId == j.album && e.row.path == path
    ensures e.row.title == (if FTitle in dt.fields && dt.title.Chars? then dt.title.chars else "Unknown")
    ensures e.row.discNum >= 1 && (FDisc in dt.fields && dt.discNum >= 1 ==> e.row.discNum == dt.discNum)
    ensures FDisc !in dt.fields ==> e.row.discNum == 1
    ensures e.row.trackNum == (if FNum in dt.fields then dt.trackNum else 0)
    ensures e.row.durationMs == (if FDuration in dt.fields then dt.durationMs else 0)
    ensures e.row.year == (if FYear in dt.fields then dt.year else 0)
    ensures e.row.mtime == (if FMtime in dt.fields then dt.mtime else 0)
    ensures e.credits == if FArtists in dt.fields then StoredCredits(j.db.artists.Keys, dt.artists) else []
    ensures Coalesce(e.row.genre)
      == (if FGenre in dt.fields || FGenreMerge in dt.fields then Coalesce(dt.genre) else "")
    ensures Coalesce(e.row.artistDisplay) == (if FArtists in dt.fields then BuildDisplay(dt.artists) else "")
    ensures forall i | 0 <= i < |e.credits| :: e.credits[i].artistId > 0 && e.credits[i].artistId in j.db.artists
  {
    hide Before0, BuildDisplay;
    StoredKnown(j.db.artists.Keys, dt.artists);
  }

  lemma {:induction false} StoredKnown(known: set<int>, artists: seq<DesiredArtist>)
    ensures forall c | c in StoredCredits(known, artists) :: c.artistId > 0 && c.artistId in known
  {
    if artists != [] {
      var rows := StoredCredits(known, artists[..|artists| - 1]);
      StoredKnown(known, artists[..|artists| - 1]);
      var a := artists[|artists| - 1];
      KnownDrop(known, rows, a.artistId);
      if a.artistId > 0 && a.artistId in known {
        KnownPlace(known, DropArtist(rows, a.artistId), CreditRow(a.artistId, a.position, Coalesce(a.joinPhrase)));
      }
    }
  }

  lemma {:induction false} KnownDrop(known: set<int>, rows: seq<CreditRow>, id: int)
    requires forall c | c in rows :: c.artistId > 0 && c.artistId in known
    ensures forall c | c in DropArtist(rows, id) :: c.artistId > 0 && c.artistId in known
  {
    if rows != [] {
      KnownDrop(known, rows[1..], id);
    }
  }

  lemma {:induction false} KnownPlace(known: set<int>, rows: seq<CreditRow>, c: CreditRow)
    requires c.artistId > 0 && c.artistId in known && forall r | r in rows :: r.artistId > 0 && r.artistId in known
    ensures forall r | r in Place(rows, c) :: r.artistId > 0 && r.artistId in known
  {
    if rows != [] {
      KnownPlace(known, rows[1..], c);
    }
  }
}
