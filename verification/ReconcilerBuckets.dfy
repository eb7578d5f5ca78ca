// How row writes show in the per-album view of the tracks table.

module ReconcilerBuckets {
  import opened Text
  import opened Reconciler

  ghost predicate Holds(db: Db, album: int, path: string, id: int) {
    id in db.tracks && db.tracks[id].albumId == album && db.tracks[id].path == path
  }

  lemma {:induction false} FromEntry(db: Db, album: int, ids: set<int>, path: string, id: int)
    requires ValidDb(db) && Holds(db, album, path, id) && id in ids
    ensures path in BucketFrom(db, album, ids)
    ensures BucketFrom(db, album, ids)[path] == Loaded(id, db.tracks[id], CreditsOf(db, id))
    decreases |ids|
  {
    var k := PickId(ids);
    if k != id {
      FromEntry(db, album, ids - {k}, path, id);
    }
  }

  lemma {:induction false} FromId(db: Db, album: int, ids: set<int>, path: string) returns (id: int)
    requires path in BucketFrom(db, album, ids)
    ensures Holds(db, album, path, id) && id in ids
    ensures BucketFrom(db, album, ids)[path] == Loaded(id, db.tracks[id], CreditsOf(db, id))
    decreases |ids|
  {
    var k := PickId(ids);
    if Holds(db, album, path, k) {
      id := k;
    } else {
      id := FromId(db, album, ids - {k}, path);
    }
  }

  /** A bucket entry is exactly a track of the album with that path. */
  lemma BucketEntry(db: Db, album: int, path: string, id: int)
    requires ValidDb(db) && Holds(db, album, path, id)
    ensures path in BucketOf(db, album)
    ensures BucketOf(db, album)[path] == Loaded(id, db.tracks[id], CreditsOf(db, id))
  {
    FromEntry(db, album, db.tracks.Keys, path, id);
  }

  lemma BucketId(db: Db, album: int, path: string) returns (id: int)
    requires path in BucketOf(db, album)
    ensures Holds(db, album, path, id)
    ensures BucketOf(db, album)[path] == Loaded(id, db.tracks[id], CreditsOf(db, id))
  {
    id := FromId(db, album, db.tracks.Keys, path);
  }

  /** The synced index holds the album's tracks under their own title and artist and keeps the rest. */
  lemma {:induction false} SyncedEntry(db: Db, album: int, ids: set<int>, id: int)
    requires album in db.albums
    ensures var e := SyncedEntries(db, album, ids);
            if id in ids && id in db.tracks && db.tracks[id].albumId == album then
              && id in e
              && e[id] == TrackEntry(db.tracks[id].title, Coalesce(db.tracks[id].artistDisplay), db.albums[album].title)
            else (id in e <==> id in db.tracksFts) && (id in e ==> e[id] == db.tracksFts[id])
    decreases |ids|
  {
    if ids != {} {
      var k := PickId(ids);
      SyncedEntry(db, album, ids - {k}, id);
    }
  }

  lemma {:induction false} FromIgnores(db: Db, db2: Db, album: int, ids: set<int>)
    requires db2.tracks == db.tracks && db2.credits == db.credits
    ensures BucketFrom(db2, album, ids) == BucketFrom(db, album, ids)
    decreases |ids|
  {
    if ids != {} {
      FromIgnores(db, db2, album, ids - {PickId(ids)});
    }
  }

  ghost predicate SameCreditsBut(db: Db, db2: Db, id: int) {
    && db2.credits.Keys <= db2.tracks.Keys
    && forall k | k != id :: CreditsOf(db2, k) == CreditsOf(db, k)
  }

  /** Writing one track row, new or existing, updates one bucket at one path. */
  lemma WriteShows(db: Db, db2: Db, id: int, row: TrackRow, album: int)
    requires ValidDb(db) && id > 0
    requires db2.tracks == db.tracks[id := row] && SameCreditsBut(db, db2, id)
    requires if id in db.tracks then row.albumId == db.tracks[id].albumId && row.path == db.tracks[id].path
             else forall k | k in db.tracks && db.tracks[k].albumId == row.albumId :: db.tracks[k].path != row.path
    ensures ValidDb(db2)
    ensures BucketOf(db2, album)
      == if album == row.albumId then BucketOf(db, album)[row.path := Loaded(id, row, CreditsOf(db2, id))]
         else BucketOf(db, album)
  {
    var b, b2 := BucketOf(db, album), BucketOf(db2, album);
    var want := if album == row.albumId then b[row.path := Loaded(id, row, CreditsOf(db2, id))] else b;
    forall p | p in b2 ensures p in want && want[p] == b2[p] {
      var k := BucketId(db2, album, p);
      if k != id {
        BucketEntry(db, album, p, k);
      }
    }
    forall p | p in want ensures p in b2 {
      if album == row.albumId && p == row.path {
        BucketEntry(db2, album, p, id);
      } else {
        var k := BucketId(db, album, p);
        BucketEntry(db2, album, p, k);
      }
    }
    assert b2.Keys == want.Keys;
  }

  lemma IdsMatch(db: Db, album: int, paths: set<string>, id: int)
    requires ValidDb(db) && paths <= BucketOf(db, album).Keys
    ensures id in IdsAt(BucketOf(db, album), paths)
      <==> id in db.tracks && db.tracks[id].albumId == album && db.tracks[id].path in paths
  {
    var bucket := BucketOf(db, album);
    if id in IdsAt(bucket, paths) {
      var p :| p in paths && bucket[p].id == id;
      var i := BucketId(db, album, p);
    }
    if id in db.tracks && db.tracks[id].albumId == album && db.tracks[id].path in paths {
      BucketEntry(db, album, db.tracks[id].path, id);
    }
  }

  lemma {:induction false} IdsCount(bucket: Bucket, paths: set<string>)
    requires paths <= bucket.Keys
    requires forall p, q | p in paths && q in paths && p != q :: bucket[p].id != bucket[q].id
    ensures |IdsAt(bucket, paths)| == |paths|
    decreases paths
  {
    if paths != {} {
      var p :| p in paths;
      var rest := paths - {p};
      IdsCount(bucket, rest);
      assert IdsAt(bucket, paths) == IdsAt(bucket, rest) + {bucket[p].id};
    }
  }

  /** Deleting the tracks of some paths of one album removes those paths from its bucket only. */
  lemma DeleteShows(db: Db, db2: Db, album: int, doomed: set<string>, other: int)
    requires ValidDb(db) && doomed <= BucketOf(db, album).Keys
    requires var ids := IdsAt(BucketOf(db, album), doomed);
             db2.tracks == db.tracks - ids && db2.credits == db.credits - ids
    ensures ValidDb(db2)
    ensures BucketOf(db2, other) == if other == album then BucketOf(db, album) - doomed else BucketOf(db, other)
  {
    var ids := IdsAt(BucketOf(db, album), doomed);
    var b, b2 := BucketOf(db, other), BucketOf(db2, other);
    var want := if other == album then b - doomed else b;
    forall p | p in b2 ensures p in want && want[p] == b2[p] {
      var k := BucketId(db2, other, p);
      BucketEntry(db, other, p, k);
      IdsMatch(db, album, doomed, k);
    }
    forall p | p in want ensures p in b2 {
      var k := BucketId(db, other, p);
      IdsMatch(db, album, doomed, k);
      BucketEntry(db2, other, p, k);
    }
    assert b2.Keys == want.Keys;
  }

  lemma DeleteCount(db: Db, album: int, doomed: set<string>)
    requires ValidDb(db) && doomed <= BucketOf(db, album).Keys
    ensures |db.tracks - IdsAt(BucketOf(db, album), doomed)| == |db.tracks| - |doomed|
  {
    var bucket := BucketOf(db, album);
    var ids := IdsAt(bucket, doomed);
    forall p, q | p in doomed && q in doomed && p != q ensures bucket[p].id != bucket[q].id {
      var i := BucketId(db, album, p);
      var j := BucketId(db, album, q);
    }
    IdsCount(bucket, doomed);
    forall k | k in ids ensures k in db.tracks {
      IdsMatch(db, album, doomed, k);
    }
    assert (db.tracks - ids).Keys == db.tracks.Keys - ids;
    assert ids <= db.tracks.Keys;
  }
}
