// The reconciler as it runs: a database handle whose tables its methods change row by row,
// each method proved against the functions of module Reconciler.

module ReconcilerStore {
  import opened Text
  import opened Genre
  import opened Reconciler
  import opened ReconcilerBuckets
  import Reconciled = ReconcilerRuns

  lemma DisplayStep(artists: seq<DesiredArtist>, i: nat, s: string, piece: string)
    requires i < |artists|
    requires piece == Coalesce(artists[i].name) + (if i + 1 < |artists| then Coalesce(artists[i].joinPhrase) else "")
    ensures s + BuildDisplay(artists[i..]) == s + piece + BuildDisplay(artists[i + 1..])
  {
    assert artists[i..][1..] == artists[i + 1..];
    assert BuildDisplay(artists[i..]) == piece + BuildDisplay(artists[i + 1..]);
  }

  method BuildArtistDisplay(artists: seq<DesiredArtist>) returns (s: string)
    ensures s == BuildDisplay(artists)
  {
    hide BuildDisplay, Coalesce;
    s := "";
    for i := 0 to |artists|
      invariant s + BuildDisplay(artists[i..]) == BuildDisplay(artists)
    {
      var a := artists[i];
      var jp := Coalesce(a.joinPhrase);
      var piece := Coalesce(a.name) + (if jp != "" && i + 1 < |artists| then jp else "");
      DisplayStep(artists, i, s, piece);
      s := s + piece;
    }
    DisplayOfNone();
    assert artists[|artists|..] == [];
  }

  lemma DisplayOfNone()
    ensures BuildDisplay([]) == ""
  {
  }

  class Database {
    const lower: string -> string
    var artists: map<int, string>
    var albums: map<int, AlbumRow>
    var tracks: map<int, TrackRow>
    var credits: map<int, seq<CreditRow>>
    var albumsFts: map<int, AlbumEntry>
    var tracksFts: map<int, TrackEntry>

    constructor (lower: string -> string, db: Db)
      ensures this.lower == lower && State() == db
    {
      this.lower := lower;
      artists, albums, tracks, credits := db.artists, db.albums, db.tracks, db.credits;
      albumsFts, tracksFts := db.albumsFts, db.tracksFts;
    }

    ghost function State(): Db
      reads this
    {
      Db(artists, albums, tracks, credits, albumsFts, tracksFts)
    }

    // ---- Statements ----

    method UpdateAlbumFts(album: int)
      modifies this`albumsFts
      ensures State() == SyncAlbumIndex(old(State()), album)
    {
      if album in albums {
        var row := albums[album];
        var artist := if row.artistId in artists then artists[row.artistId] else "";
        albumsFts := albumsFts[album := AlbumEntry(row.title, artist)];
      }
    }

    method SyncAlbumTracksFts(album: int)
      modifies this`tracksFts
      ensures State() == SyncTrackIndex(old(State()), album)
    {
      if album !in albums {
        return;
      }
      var todo := tracks.Keys;
      ghost var db, done: set<int> := State(), {};
      while todo != {}
        invariant todo <= tracks.Keys && done == tracks.Keys - todo
        invariant forall k :: SyncedAt(db, album, done, tracksFts, k)
        decreases todo
      {
        HasElement(todo);
        var id :| id in todo;
        todo := todo - {id};
        ghost var before := tracksFts;
        if tracks[id].albumId == album {
          tracksFts :=
              tracksFts[id := TrackEntry(tracks[id].title, Coalesce(tracks[id].artistDisplay), albums[album].title)];
        }
        forall k ensures SyncedAt(db, album, done + {id}, tracksFts, k) {
          assert SyncedAt(db, album, done, before, k);
        }
        done := done + {id};
      }
      assert done == db.tracks.Keys;
      SyncedAll(db, album, tracksFts);
    }

    method NextId() returns (r: int)
      ensures r == NextRowid(tracks.Keys)
    {
      var todo, top := tracks.Keys, 0;
      var any := false;
      while todo != {}
        invariant todo <= tracks.Keys
        invariant any <==> todo != tracks.Keys
        invariant any ==> top in tracks.Keys
        invariant forall i | i in tracks.Keys && i !in todo :: i <= top
        decreases todo
      {
        HasElement(todo);
        var id :| id in todo;
        todo := todo - {id};
        if !any || id > top {
          top := id;
        }
        any := true;
      }
      r := if any && top >= 0 then top + 1 else 1;
    }

    // ---- Canonical writes ----

    static method ChooseAlbumFields(cur: AlbumRow, d: DesiredAlbum) returns (title: Text, t: AlbumRow)
      ensures title == AlbumTitle(cur, d) && t == AlbumTarget(cur, d)
    {
      title := if ATitle in d.fields then d.title else Chars(cur.title);
      var artistId := if AArtist in d.fields then d.artistId else cur.artistId;
      var isComp := if ACompilation in d.fields then d.isCompilation else cur.isCompilation;
      var year := if AYear in d.fields then d.year else cur.year;
      var rid := if AReleaseId in d.fields then d.releaseId else cur.releaseId;
      var rgid := if AReleaseGroup in d.fields then d.releaseGroupId else cur.releaseGroupId;
      var mbStatus := if AStatus in d.fields then d.mbStatus else cur.mbStatus;
      var mbResolved := if AResolvedAt in d.fields then d.mbResolvedAt else cur.mbResolvedAt;
      t := AlbumRow(cur.path, Coalesce(title), artistId, isComp, year, rid, rgid, mbStatus, mbResolved);
    }

    static method CountAlbumChanges(cur: AlbumRow, t: AlbumRow) returns (changes: nat)
      ensures changes == AlbumChanges(cur, t)
    {
      changes := 0;
      changes := changes + One(t.title != cur.title);
      changes := changes + One(t.artistId != cur.artistId);
      changes := changes + One(t.isCompilation != cur.isCompilation);
      changes := changes + One(t.year != cur.year);
      changes := changes + One(!SameText(t.releaseId, cur.releaseId));
      changes := changes + One(!SameText(t.releaseGroupId, cur.releaseGroupId));
      changes := changes + One(t.mbStatus != cur.mbStatus);
      changes := changes + One(t.mbResolvedAt != cur.mbResolvedAt);
    }

    method AlbumUpdateCanonical(album: int, cur: AlbumRow, d: DesiredAlbum) returns (changes: nat, ftsDirty: bool)
      modifies this`albums
      ensures State() == WriteAlbum(old(State()), album, cur, d)
      ensures changes == AlbumChanges(cur, AlbumTarget(cur, d))
      ensures ftsDirty <==> AlbumTarget(cur, d).title != cur.title || AlbumTarget(cur, d).artistId != cur.artistId
    {
      hide AlbumTarget, AlbumTitle, AlbumChanges;
      var title, t := ChooseAlbumFields(cur, d);
      changes := CountAlbumChanges(cur, t);
      ftsDirty := t.title != cur.title || t.artistId != cur.artistId;
      if changes == 0 {
        return;
      }
      // The statement is refused for a NULL title and for an unknown artist.
      if album in albums && title.Chars? && t.artistId in artists {
        albums := albums[album := t.(path := albums[album].path)];
      }
    }

    static method ChooseTrackFields(lower: string -> string, row: TrackRow, dt: DesiredTrack, policy: Policy,
                                    source: Source, newDisplay: Text, mergedGenre: Text)
      returns (title: Text, t: TrackRow)
      requires FArtists in dt.fields ==> newDisplay == Chars(BuildDisplay(dt.artists))
      requires FGenreMerge in dt.fields ==> mergedGenre == Merge(lower, row.genre, dt.genre)
      ensures title == TrackTitle(row, dt) && t == TrackTarget(lower, row, dt, source, policy)
    {
      hide Merge, BuildDisplay;
      title := if FTitle in dt.fields then dt.title else Chars(row.title);
      var trackNum, discNum := row.trackNum, row.discNum;
      if FNum in dt.fields {
        var accept := source != Mb || dt.confidence >= policy.minConfidence;
        if accept {
          trackNum := dt.trackNum;
        }
      }
      if FDisc in dt.fields {
        var accept := source != Mb || dt.confidence >= policy.minConfidence;
        if accept {
          discNum := dt.discNum;
        }
      }
      var durationMs := if FDuration in dt.fields then dt.durationMs else row.durationMs;
      var year := if FYear in dt.fields then dt.year else row.year;
      var mtime := if FMtime in dt.fields then dt.mtime else row.mtime;
      var genre :=
        if FGenre in dt.fields then dt.genre else if FGenreMerge in dt.fields then mergedGenre else row.genre;
      var display := if FArtists in dt.fields then newDisplay else row.artistDisplay;
      t := TrackRow(row.albumId, row.path, Coalesce(title), trackNum, discNum, durationMs, year, genre, display, mtime);
    }

    /** Writes the row if anything differs; a NULL title is refused by the table. */
    method TrackUpdateCanonical(cur: Loaded, dt: DesiredTrack, policy: Policy, source: Source,
                                newDisplay: Text, mergedGenre: Text, sum: Summary, dirty: bool)
      returns (changed: bool, sum': Summary, dirty': bool)
      requires FArtists in dt.fields ==> newDisplay == Chars(BuildDisplay(dt.artists))
      requires FGenreMerge in dt.fields ==> mergedGenre == Merge(lower, cur.row.genre, dt.genre)
      modifies this`tracks
      ensures var t := TrackTarget(lower, cur.row, dt, source, policy);
              && changed == !SameTrack(t, cur.row)
              && State() == (if changed && TrackTitle(cur.row, dt).Chars?
                             then WriteTrack(old(State()), cur.id, t) else old(State()))
              && dirty' == (dirty || t.title != cur.row.title || !SameText(t.artistDisplay, cur.row.artistDisplay))
              && sum' == sum.(titles := sum.titles + One(t.title != cur.row.title),
                              positions :=
                                  sum.positions + One(t.trackNum != cur.row.trackNum || t.discNum != cur.row.discNum),
                              genres := sum.genres + One(!SameText(t.genre, cur.row.genre)))
    {
      hide Merge, BuildDisplay, TrackTarget, TrackTitle;
      var row := cur.row;
      var title, t := ChooseTrackFields(lower, row, dt, policy, source, newDisplay, mergedGenre);
      var titleDiff, tnumDiff, discDiff := t.title != row.title, t.trackNum != row.trackNum, t.discNum != row.discNum;
      var durDiff, yearDiff, mtimeDiff := t.durationMs != row.durationMs, t.year != row.year, t.mtime != row.mtime;
      var genreDiff, displayDiff := !SameText(t.genre, row.genre), !SameText(t.artistDisplay, row.artistDisplay);
      if !titleDiff && !tnumDiff && !discDiff && !durDiff && !yearDiff && !mtimeDiff && !genreDiff && !displayDiff {
        return false, sum, dirty;
      }
      if cur.id in tracks && title.Chars? {
        tracks := tracks[cur.id := t];
      }
      dirty' := dirty || titleDiff || displayDiff;
      sum' := sum.(titles := sum.titles + One(titleDiff), positions := sum.positions + One(tnumDiff || discDiff),
                   genres := sum.genres + One(genreDiff));
      changed := true;
    }

    static method ChooseNewFields(album: int, path: string, dt: DesiredTrack) returns (row: TrackRow)
      ensures row == NewRow(album, path, dt)
    {
      hide BuildDisplay;
      var display := Null;
      if FArtists in dt.fields {
        var s := BuildArtistDisplay(dt.artists);
        display := Chars(s);
      }
      var title := if FTitle in dt.fields && dt.title.Chars? then dt.title.chars else UNKNOWN_TITLE;
      var trackNum := if FNum in dt.fields then dt.trackNum else 0;
      var discNum := if FDisc in dt.fields then dt.discNum else 1;
      if discNum == 0 {
        discNum := 1;
      }
      var durationMs := if FDuration in dt.fields then dt.durationMs else 0;
      var year := if FYear in dt.fields then dt.year else 0;
      var mtime := if FMtime in dt.fields then dt.mtime else 0;
      var genre := if FGenre in dt.fields || FGenreMerge in dt.fields then dt.genre else Null;
      row := TrackRow(album, path, title, trackNum, discNum, durationMs, year, genre, display, mtime);
    }

    /** The new track's id, or 0 when the table refuses the row. */
    method InsertTrack(album: int, path: string, dt: DesiredTrack) returns (id: int)
      modifies this`tracks
      ensures if InsertRefused(old(State()), album, path) then id == 0 && State() == old(State())
              else id == NextRowid(old(tracks).Keys)
                   && State() == old(State()).(tracks := old(tracks)[id := NewRow(album, path, dt)])
    {
      hide NewRow, NextRowid;
      var row := ChooseNewFields(album, path, dt);
      if album !in albums || exists k | k in tracks :: tracks[k].albumId == album && tracks[k].path == path {
        return 0;
      }
      id := NextId();
      tracks := tracks[id := row];
    }

    /** Deletes the track's credit rows and inserts the given ones; without the track row both do nothing. */
    method ReplaceTrackArtists(id: int, as': seq<DesiredArtist>)
      modifies this`credits
      ensures State() == ReplaceCredits(old(State()), id, as')
    {
      if id !in tracks {
        return;
      }
      credits := credits[id := []];
      for i := 0 to |as'|
        invariant id in credits && credits == old(credits)[id := StoredCredits(artists.Keys, as'[..i])]
      {
        assert as'[..i + 1][..i] == as'[..i];
        credits := credits[id := PutCredit(artists.Keys, credits[id], as'[i])];
      }
      assert as'[..|as'|] == as';
    }

    // ---- One album ----

    method ReconcileTrackInsert(album: int, path: string, dt: DesiredTrack, ghost w: Work, sum: Summary, dirty: bool)
      returns (sum': Summary, dirty': bool)
      requires w == Work(State(), sum, dirty)
      modifies this`tracks, this`credits
      ensures Work(State(), sum', dirty') == InsertStep(w, album, path, dt)
    {
      hide NewRow, NextRowid, StoredCredits;
      var id := InsertTrack(album, path, dt);
      if id <= 0 {
        return sum, dirty;
      }
      if FArtists in dt.fields && |dt.artists| > 0 {
        ReplaceTrackArtists(id, dt.artists);
      }
      sum' := sum.(inserted := sum.inserted + 1);
      dirty' := true;
    }

    /** The desired track under the freeze, with its display string and merged genre computed ahead. */
    static method PrepareUpdate(lower: string -> string, row: TrackRow, dt: DesiredTrack, album: AlbumRow,
                                source: Source, policy: Policy)
      returns (local: DesiredTrack, newDisplay: Text, mergedGenre: Text)
      ensures local == MaskTrack(dt, Frozen(album, source, policy))
      ensures FArtists in local.fields ==> newDisplay == Chars(BuildDisplay(local.artists))
      ensures FGenreMerge in local.fields ==> mergedGenre == Merge(lower, row.genre, local.genre)
    {
      hide Merge, BuildDisplay;
      local := dt;
      if source == Tags && policy.respectUserEdits && album.mbStatus == MB_STATUS_RESOLVED {
        local := dt.(fields := dt.fields - FROZEN_TRACK_FIELDS);
      }
      newDisplay, mergedGenre := Null, Null;
      if FArtists in local.fields {
        var s := BuildArtistDisplay(local.artists);
        newDisplay := Chars(s);
      }
      if FGenreMerge in local.fields {
        mergedGenre := MergeGenreStrings(lower, row.genre, local.genre);
      }
    }

    method ReconcileTrackUpdate(cur: Loaded, dt: DesiredTrack, album: AlbumRow, source: Source, policy: Policy,
                                ghost w: Work, sum: Summary, dirty: bool)
      returns (sum': Summary, dirty': bool)
      requires w == Work(State(), sum, dirty)
      modifies this`tracks, this`credits
      ensures Work(State(), sum', dirty')
        == UpdateStep(lower, w, cur, MaskTrack(dt, Frozen(album, source, policy)), source, policy)
    {
      hide Merge, BuildDisplay, TrackTarget, TrackTitle, StoredCredits, SameTrack, SameText, CreditsEqual, MaskTrack,
        Frozen, WriteTrack, ReplaceCredits;
      var local, newDisplay, mergedGenre := PrepareUpdate(lower, cur.row, dt, album, source, policy);
      var changed, sum1, dirty1 :=
        TrackUpdateCanonical(cur, local, policy, source, newDisplay, mergedGenre, sum, dirty);
      var creditDiff := FArtists in local.fields && !CreditsEqual(cur.credits, local.artists);
      if creditDiff {
        ReplaceTrackArtists(cur.id, local.artists);
        sum1 := sum1.(artists := sum1.artists + 1);
        changed := true;
      }
      sum' := if changed then sum1.(updated := sum1.updated + 1) else sum1;
      dirty' := dirty1;
    }

    /** Deletes the loaded tracks whose path is not wanted, one by one. */
    method DeleteUnwanted(bucket: Bucket, want: set<string>) returns (deleted: nat)
      modifies this`tracks, this`credits
      ensures tracks == old(tracks) - IdsAt(bucket, bucket.Keys - want)
      ensures credits == old(credits) - IdsAt(bucket, bucket.Keys - want)
      ensures deleted == |bucket.Keys - want|
    {
      hide IdsAt;
      var todo := bucket.Keys;
      deleted := 0;
      ghost var gone: set<string> := {};
      NoneGone(State(), bucket);
      while todo != {}
        invariant todo <= bucket.Keys && gone == bucket.Keys - want - todo
        invariant tracks == old(tracks) - IdsAt(bucket, gone) && credits == old(credits) - IdsAt(bucket, gone)
        invariant deleted == |gone|
        decreases todo
      {
        var path :| path in todo;
        todo := todo - {path};
        OneVisited(bucket.Keys - want, todo, path, gone);
        if path in want {
          continue;
        }
        OneMoreGone(old(State()), bucket, gone, path);
        var id := bucket[path].id;
        tracks, credits := tracks - {id}, credits - {id};
        deleted := deleted + 1;
        gone := gone + {path};
      }
      assert gone == bucket.Keys - want;
    }

    method PruneMissingTracks(bucket: Bucket, d: DesiredAlbum, ghost w: Work, sum: Summary, dirty: bool)
      returns (sum': Summary, dirty': bool)
      requires w == Work(State(), sum, dirty)
      modifies this`tracks, this`credits
      ensures Work(State(), sum', dirty') == PruneStep(w, bucket, d)
    {
      hide Wanted, IdsAt, Doomed, PruneStep;
      var want := WantedPaths(d);
      var deleted := DeleteUnwanted(bucket, want);
      sum' := sum.(deleted := sum.deleted + deleted);
      dirty' := dirty || deleted > 0;
      PruneStepIs(w, bucket, d, want);
    }

    static method WantedPaths(d: DesiredAlbum) returns (want: set<string>)
      ensures want == Wanted(d, |d.tracks|)
    {
      want := {};
      for i := 0 to |d.tracks|
        invariant want == Wanted(d, i)
      {
        if d.tracks[i].path.Chars? {
          want := want + {d.tracks[i].path.chars};
        }
      }
    }

    method ReconcileTracks(album: int, cur: AlbumRow, bucket: Bucket, d: DesiredAlbum, policy: Policy)
      returns (sum: Summary, dirty: bool)
      modifies this`tracks, this`credits
      ensures Work(State(), sum, dirty) == TrackSteps(lower, old(State()), album, cur, bucket, d, policy, |d.tracks|)
    {
      hide UpdateStep, InsertStep, MaskTrack;
      sum, dirty := NOTHING, false;
      for i := 0 to |d.tracks|
        invariant Work(State(), sum, dirty) == TrackSteps(lower, old(State()), album, cur, bucket, d, policy, i)
      {
        var dt := d.tracks[i];
        if dt.path.Null? {
          continue;
        }
        ghost var w := Work(State(), sum, dirty);
        if dt.path.chars in bucket {
          sum, dirty := ReconcileTrackUpdate(bucket[dt.path.chars], dt, cur, d.source, policy, w, sum, dirty);
        } else {
          sum, dirty := ReconcileTrackInsert(album, dt.path.chars, dt, w, sum, dirty);
        }
      }
    }

    method ReconcileOne(album: int, cur: AlbumRow, bucket: Bucket, d: DesiredAlbum, policy: Policy)
        returns (sum: Summary)
      modifies this
      ensures (State(), sum) == Reconciler.ReconcileOne(lower, old(State()), album, cur, bucket, d, policy)
    {
      hide TrackSteps, PruneStep, WriteAlbum, AlbumTarget, AlbumChanges, SyncAlbumIndex, SyncTrackIndex;
      var local := d;
      if d.source == Tags && policy.respectUserEdits && cur.mbStatus == MB_STATUS_RESOLVED {
        local := d.(fields := d.fields - FROZEN_ALBUM_FIELDS);
      }
      assert local == MaskAlbum(d, Frozen(cur, d.source, policy));
      hide MaskAlbum, Frozen;
      var tracksDirty: bool;
      sum, tracksDirty := ReconcileTracks(album, cur, bucket, d, policy);
      if policy.pruneMissing {
        sum, tracksDirty := PruneMissingTracks(bucket, d, Work(State(), sum, tracksDirty), sum, tracksDirty);
      }
      var changes, albumDirty := AlbumUpdateCanonical(album, cur, local);
      sum := sum.(albumFields := changes, ftsSynced := false);
      if albumDirty {
        UpdateAlbumFts(album);
      }
      if tracksDirty {
        SyncAlbumTracksFts(album);
        sum := sum.(ftsSynced := true);
      }
    }

    // ---- Batches ----

    method LoadAlbums(ids: seq<int>) returns (m: map<int, AlbumRow>)
      requires ValidDb(State())
      ensures m == Reconciled.Load(State(), ids).albums
    {
      hide ValidDb, BucketOf;
      m := map[];
      for i := 0 to |ids|
        invariant m == Reconciled.Load(State(), ids[..i]).albums
      {
        assert ids[..i + 1][..i] == ids[..i];
        if ids[i] in albums {
          m := m[ids[i] := albums[ids[i]]];
        }
      }
      assert ids[..|ids|] == ids;
    }

    /** Reads the tracks of the listed albums with their credits, filing each under its album and path. */
    method LoadBuckets(ids: seq<int>) returns (buckets: map<int, Bucket>)
      requires ValidDb(State())
      ensures buckets == Reconciled.Load(State(), ids).buckets
    {
      hide ValidDb, BucketOf;
      buckets := map[];
      var todo := tracks.Keys;
      ghost var db := State();
      ghost var done: set<int> := {};
      RestrictNone(db, ids);
      while todo != {}
        invariant todo <= tracks.Keys && done == tracks.Keys - todo && ValidDb(Restrict(db, done))
        invariant Reconciled.Files(Restrict(db, done), ids, buckets)
        decreases todo
      {
        HasElement(todo);
        var id :| id in todo;
        todo := todo - {id};
        var row := tracks[id];
        ghost var before := buckets;
        if row.albumId in ids {
          var bucket := if row.albumId in buckets then buckets[row.albumId] else map[];
          bucket := bucket[row.path := Loaded(id, row, if id in credits then credits[id] else [])];
          buckets := buckets[row.albumId := bucket];
        }
        RestrictStep(db, done, id, ids, before, buckets);
        done := done + {id};
      }
      RestrictAll(db, done);
      FilesOnce(db, ids, buckets, Reconciled.Load(db, ids).buckets);
    }

    /** Reconciles a batch from one snapshot loaded up front. `out[i]` is left alone for a non-positive id. */
    method ReconcileAlbums(ids: seq<int>, ds: seq<DesiredAlbum>, policy: Policy, out: array<Summary>)
      requires |ids| == |ds| == out.Length && ValidDb(State())
      modifies this, out
      ensures (State(), out[..])
        == Reconciled.BatchSteps(lower, old(State()), Reconciled.Load(old(State()), ids), ids, ds, policy,
                                 old(out[..]), |ids|)
    {
      hide ValidDb, BucketOf, Reconciled.Files, Reconciler.ReconcileOne;
      var snapAlbums := LoadAlbums(ids);
      var snapBuckets := LoadBuckets(ids);
      ghost var snap := Reconciled.Load(State(), ids);
      for i := 0 to |ids|
        invariant (State(), out[..])
          == Reconciled.BatchSteps(lower, old(State()), snap, ids, ds, policy, old(out[..]), i)
      {
        if ids[i] <= 0 {
          continue;
        }
        if ids[i] !in snapAlbums {
          out[i] := NOTHING;
          continue;
        }
        var bucket := if ids[i] in snapBuckets then snapBuckets[ids[i]] else map[];
        var sum := ReconcileOne(ids[i], snapAlbums[ids[i]], bucket, ds[i], policy);
        out[i] := sum;
      }
    }
  }

  /** The index entry of `id` once the tracks in `done` were synced. */
  ghost predicate SyncedAt(db: Db, album: int, done: set<int>, fts: map<int, TrackEntry>, id: int)
    requires album in db.albums
  {
    if id in done && id in db.tracks && db.tracks[id].albumId == album then
      id in fts
          && fts[id] == TrackEntry(db.tracks[id].title, Coalesce(db.tracks[id].artistDisplay), db.albums[album].title)
    else (id in fts <==> id in db.tracksFts) && (id in fts ==> fts[id] == db.tracksFts[id])
  }

  lemma SyncedAll(db: Db, album: int, fts: map<int, TrackEntry>)
    requires album in db.albums && forall id :: SyncedAt(db, album, db.tracks.Keys, fts, id)
    ensures fts == SyncedEntries(db, album, db.tracks.Keys)
  {
    var e := SyncedEntries(db, album, db.tracks.Keys);
    forall id ensures (id in fts <==> id in e) && (id in fts ==> fts[id] == e[id]) {
      assert SyncedAt(db, album, db.tracks.Keys, fts, id);
      SyncedEntry(db, album, db.tracks.Keys, id);
    }
  }

  /** The tables with only some tracks loaded. */
  ghost function Restrict(db: Db, ids: set<int>): Db {
    db.(tracks := db.tracks - (db.tracks.Keys - ids), credits := db.credits - (db.credits.Keys - ids))
  }

  lemma RestrictNone(db: Db, ids: seq<int>)
    requires ValidDb(db)
    ensures ValidDb(Restrict(db, {})) && Reconciled.Files(Restrict(db, {}), ids, map[])
  {
    forall a ensures BucketOf(Restrict(db, {}), a) == map[] {
      if p :| p in BucketOf(Restrict(db, {}), a) {
        var id := BucketId(Restrict(db, {}), a, p);
        assert false;
      }
    }
  }

  lemma RestrictAll(db: Db, ids: set<int>)
    requires ValidDb(db) && ids == db.tracks.Keys
    ensures Restrict(db, ids) == db
  {
    assert Restrict(db, ids).tracks == db.tracks;
    assert Restrict(db, ids).credits == db.credits;
  }

  /** Loading one more track files it in its own album's bucket and nowhere else. */
  lemma RestrictShows(db: Db, done: set<int>, id: int, a: int)
    requires ValidDb(db) && ValidDb(Restrict(db, done)) && id in db.tracks && id !in done
    ensures var row := db.tracks[id];
            && ValidDb(Restrict(db, done + {id}))
            && BucketOf(Restrict(db, done + {id}), a)
               == if a == row.albumId
                   then BucketOf(Restrict(db, done), a)[row.path := Loaded(id, row, CreditsOf(db, id))]
                  else BucketOf(Restrict(db, done), a)
  {
    var d1, d2 := Restrict(db, done), Restrict(db, done + {id});
    assert d2.tracks == d1.tracks[id := db.tracks[id]];
    assert SameCreditsBut(d1, d2, id);
    WriteShows(d1, d2, id, db.tracks[id], a);
  }

  lemma RestrictStep(db: Db, done: set<int>, id: int, ids: seq<int>, b: map<int, Bucket>, b': map<int, Bucket>)
    requires ValidDb(db) && ValidDb(Restrict(db, done)) && id in db.tracks && id !in done
    requires Reconciled.Files(Restrict(db, done), ids, b)
    requires var row := db.tracks[id];
             b' == if row.albumId in ids
                   then b[row.albumId := (if row.albumId in b then b[row.albumId] else map[])
                                           [row.path := Loaded(id, row, CreditsOf(db, id))]]
                   else b
    ensures ValidDb(Restrict(db, done + {id})) && Reconciled.Files(Restrict(db, done + {id}), ids, b')
  {
    hide ValidDb, BucketOf, Restrict;
    var row, home := db.tracks[id], db.tracks[id].albumId;
    RestrictShows(db, done, id, home);
    var b1 := BucketOf(Restrict(db, done), home)[row.path := Loaded(id, row, CreditsOf(db, id))];
    assert row.path in b1 && b1 != map[];
    forall a | a != home ensures BucketOf(Restrict(db, done + {id}), a) == BucketOf(Restrict(db, done), a) {
      RestrictShows(db, done, id, a);
    }
  }

  lemma FilesOnce(db: Db, ids: seq<int>, b: map<int, Bucket>, b': map<int, Bucket>)
    requires Reconciled.Files(db, ids, b) && Reconciled.Files(db, ids, b')
    ensures b == b'
  {
    hide BucketOf;
    forall a ensures (a in b <==> a in b') && (a in b ==> b[a] == b'[a]) {
      if a in b {
        assert a in ids && b[a] == BucketOf(db, a);
      }
      if a in b' {
        assert a in ids && b'[a] == BucketOf(db, a);
      }
    }
  }

  lemma PruneStepIs(w: Work, bucket: Bucket, d: DesiredAlbum, want: set<string>)
    requires want == Wanted(d, |d.tracks|)
    ensures var ids := IdsAt(bucket, bucket.Keys - want);
            PruneStep(w, bucket, d) == Work(w.db.(tracks := w.db.tracks - ids, credits := w.db.credits - ids),
              w.sum.(deleted := w.sum.deleted + |bucket.Keys - want|), w.dirty || |bucket.Keys - want| > 0)
  {
    hide Wanted, IdsAt;
  }

  lemma OneVisited(doomed: set<string>, todo: set<string>, path: string, gone: set<string>)
    requires path !in todo && gone == doomed - (todo + {path})
    ensures doomed - todo == if path in doomed then gone + {path} else gone
    ensures path !in gone && |gone + {path}| == |gone| + 1
  {
  }

  lemma NoneGone(db: Db, bucket: Bucket)
    ensures db.tracks - IdsAt(bucket, {}) == db.tracks && db.credits - IdsAt(bucket, {}) == db.credits
  {
    assert IdsAt(bucket, {}) == {};
  }

  lemma OneMoreGone(db: Db, bucket: Bucket, gone: set<string>, path: string)
    requires gone <= bucket.Keys && path in bucket
    ensures var id := bucket[path].id;
            && db.tracks - IdsAt(bucket, gone) - {id} == db.tracks - IdsAt(bucket, gone + {path})
            && db.credits - IdsAt(bucket, gone) - {id} == db.credits - IdsAt(bucket, gone + {path})
  {
    assert IdsAt(bucket, gone + {path}) == IdsAt(bucket, gone) + {bucket[path].id};
  }
}
