// The album reconciler as functions on database values: the rows it keeps, the
// desired state it is handed, and the effect of one reconcile on rows and counters.

module Reconciler {
  import opened Text
  import opened Genre

  const MB_STATUS_RESOLVED: int := 2
  const UNKNOWN_TITLE: string := "Unknown"

  // ---- Rows ----

  /** `artistId` 0 stands for a NULL column: no artist has id 0. */
  datatype AlbumRow = AlbumRow(path: string, title: string, artistId: int, isCompilation: bool, year: nat,
    releaseId: Text, releaseGroupId: Text, mbStatus: int, mbResolvedAt: int)

  datatype TrackRow = TrackRow(albumId: int, path: string, title: string, trackNum: nat, discNum: nat,
    durationMs: nat, year: nat, genre: Text, artistDisplay: Text, mtime: int)

  datatype CreditRow = CreditRow(artistId: int, position: int, joinPhrase: string)

  datatype AlbumEntry = AlbumEntry(title: string, artist: string)
  datatype TrackEntry = TrackEntry(title: string, artist: string, album: string)

  datatype Db = Db(artists: map<int, string>, albums: map<int, AlbumRow>, tracks: map<int, TrackRow>,
    credits: map<int, seq<CreditRow>>, albumsFts: map<int, AlbumEntry>, tracksFts: map<int, TrackEntry>)

  // ---- Desired state ----

  datatype TrackField = FTitle | FNum | FDisc | FDuration | FYear | FGenre | FGenreMerge | FMtime | FArtists
  datatype AlbumField =
    ATitle | AArtist | ACompilation | AYear | AReleaseId | AReleaseGroup | AStatus | AResolvedAt | APath

  datatype DesiredArtist = DesiredArtist(artistId: int, name: Text, joinPhrase: Text, position: int)

  datatype DesiredTrack = DesiredTrack(path: Text, fields: set<TrackField>, title: Text, trackNum: nat, discNum: nat,
    durationMs: nat, year: nat, genre: Text, mtime: int, artists: seq<DesiredArtist>, confidence: nat)

  datatype Source = Tags | Mb

  datatype DesiredAlbum = DesiredAlbum(source: Source, fields: set<AlbumField>, title: Text, artistId: int,
    isCompilation: bool, year: nat, releaseId: Text, releaseGroupId: Text, mbStatus: int, mbResolvedAt: int,
    tracks: seq<DesiredTrack>)

  datatype Policy = Policy(pruneMissing: bool, minConfidence: nat, respectUserEdits: bool)

  const POLICY_MB := Policy(false, 1, false)
  const POLICY_TAGS := Policy(true, 0, true)

  datatype Summary = Summary(albumFields: nat, inserted: nat, updated: nat, deleted: nat, titles: nat,
    positions: nat, artists: nat, genres: nat, ftsSynced: bool)

  const NOTHING := Summary(0, 0, 0, 0, 0, 0, 0, 0, false)

  // ---- Snapshot ----

  /** A loaded track: its id, its row and its credits in position order. */
  datatype Loaded = Loaded(id: int, row: TrackRow, credits: seq<CreditRow>)

  type Bucket = map<string, Loaded>

  function CreditsOf(db: Db, id: int): seq<CreditRow> {
    if id in db.credits then db.credits[id] else []
  }

  /** Table constraints the reconciler relies on: rowids are positive, a path occurs once per album,
      and credits belong to a track. */
  ghost predicate ValidDb(db: Db) {
    && (forall id | id in db.tracks :: id > 0)
    && (forall i, j | i in db.tracks && j in db.tracks && i != j && db.tracks[i].albumId == db.tracks[j].albumId ::
          db.tracks[i].path != db.tracks[j].path)
    && db.credits.Keys <= db.tracks.Keys
  }

  /** The tracks of one album among `ids`, keyed by path. */
  ghost function BucketFrom(db: Db, album: int, ids: set<int>): Bucket
    decreases |ids|
  {
    if ids == {} then map[]
    else
      var id := PickId(ids);
      var rest := BucketFrom(db, album, ids - {id});
      if id in db.tracks && db.tracks[id].albumId == album
      then rest[db.tracks[id].path := Loaded(id, db.tracks[id], CreditsOf(db, id))]
      else rest
  }

  /** The tracks of one album keyed by path. */
  ghost function BucketOf(db: Db, album: int): Bucket {
    BucketFrom(db, album, db.tracks.Keys)
  }

  // ---- Artist credits ----

  function BuildDisplay(artists: seq<DesiredArtist>): string {
    if artists == [] then ""
    else
      Coalesce(artists[0].name)
      + (if |artists| > 1 then Coalesce(artists[0].joinPhrase) else "")
      + BuildDisplay(artists[1..])
  }

  predicate CreditsEqual(cur: seq<CreditRow>, des: seq<DesiredArtist>) {
    && |cur| == |des|
    && forall i | 0 <= i < |cur| ::
         && cur[i].artistId == des[i].artistId
         && cur[i].joinPhrase == Coalesce(des[i].joinPhrase)
         && cur[i].position == des[i].position
  }

  function DropArtist(rows: seq<CreditRow>, artistId: int): seq<CreditRow> {
    if rows == [] then []
    else (if rows[0].artistId == artistId then [] else [rows[0]]) + DropArtist(rows[1..], artistId)
  }

  predicate Before(a: CreditRow, b: CreditRow) {
    a.position < b.position || (a.position == b.position && a.artistId < b.artistId)
  }

  function Place(rows: seq<CreditRow>, c: CreditRow): seq<CreditRow> {
    if rows == [] || Before(c, rows[0]) then [c] + rows
    else [rows[0]] + Place(rows[1..], c)
  }

  /** One credit insert: refused without a known artist, else replaces the artist's earlier credit. */
  function PutCredit(known: set<int>, rows: seq<CreditRow>, a: DesiredArtist): seq<CreditRow> {
    if a.artistId <= 0 || a.artistId !in known then rows
    else
      Place(DropArtist(rows, a.artistId), CreditRow(a.artistId, a.position, Coalesce(a.joinPhrase)))
  }

  /** The credit rows a track holds after its credits were replaced by `artists`. */
  function StoredCredits(known: set<int>, artists: seq<DesiredArtist>): seq<CreditRow> {
    if artists == [] then []
    else PutCredit(known, StoredCredits(known, artists[..|artists| - 1]), artists[|artists| - 1])
  }

  function ReplaceCredits(db: Db, id: int, artists: seq<DesiredArtist>): Db {
    if id !in db.tracks then db
    else db.(credits := db.credits[id := StoredCredits(db.artists.Keys, artists)])
  }

  // ---- User-edit freeze ----

  const FROZEN_ALBUM_FIELDS: set<AlbumField> := {ATitle, AArtist, AReleaseId, AReleaseGroup, AStatus, AResolvedAt}
  const FROZEN_TRACK_FIELDS: set<TrackField> := {FTitle, FArtists}

  predicate Frozen(cur: AlbumRow, source: Source, policy: Policy) {
    source == Tags && policy.respectUserEdits && cur.mbStatus == MB_STATUS_RESOLVED
  }

  function MaskAlbum(d: DesiredAlbum, frozen: bool): DesiredAlbum {
    if frozen then d.(fields := d.fields - FROZEN_ALBUM_FIELDS) else d
  }

  function MaskTrack(dt: DesiredTrack, frozen: bool): DesiredTrack {
    if frozen then dt.(fields := dt.fields - FROZEN_TRACK_FIELDS) else dt
  }

  // ---- Album fields ----

  function One(changed: bool): nat {
    if changed then 1 else 0
  }

  function AlbumTitle(cur: AlbumRow, d: DesiredAlbum): Text {
    if ATitle in d.fields then d.title else Chars(cur.title)
  }

  /** The row the album update writes; its title is AlbumTitle, which may be NULL. */
  function AlbumTarget(cur: AlbumRow, d: DesiredAlbum): AlbumRow {
    AlbumRow(
      cur.path,
      Coalesce(AlbumTitle(cur, d)),
      if AArtist in d.fields then d.artistId else cur.artistId,
      if ACompilation in d.fields then d.isCompilation else cur.isCompilation,
      if AYear in d.fields then d.year else cur.year,
      if AReleaseId in d.fields then d.releaseId else cur.releaseId,
      if AReleaseGroup in d.fields then d.releaseGroupId else cur.releaseGroupId,
      if AStatus in d.fields then d.mbStatus else cur.mbStatus,
      if AResolvedAt in d.fields then d.mbResolvedAt else cur.mbResolvedAt)
  }

  function AlbumChanges(cur: AlbumRow, t: AlbumRow): nat {
    One(t.title != cur.title) + One(t.artistId != cur.artistId) + One(t.isCompilation != cur.isCompilation)
    + One(t.year != cur.year) + One(!SameText(t.releaseId, cur.releaseId))
    + One(!SameText(t.releaseGroupId, cur.releaseGroupId)) + One(t.mbStatus != cur.mbStatus)
    + One(t.mbResolvedAt != cur.mbResolvedAt)
  }

  /** The update statement is refused for a NULL title and for an artist that does not exist. */
  predicate AlbumAccepted(db: Db, cur: AlbumRow, d: DesiredAlbum) {
    AlbumTitle(cur, d).Chars? && AlbumTarget(cur, d).artistId in db.artists
  }

  function WriteAlbum(db: Db, album: int, cur: AlbumRow, d: DesiredAlbum): Db {
    if AlbumChanges(cur, AlbumTarget(cur, d)) == 0 || !AlbumAccepted(db, cur, d) || album !in db.albums then db
    else db.(albums := db.albums[album := AlbumTarget(cur, d).(path := db.albums[album].path)])
  }

  function SyncAlbumIndex(db: Db, album: int): Db {
    if album !in db.albums then db
    else
      var row := db.albums[album];
      var artist := if row.artistId in db.artists then db.artists[row.artistId] else "";
      db.(albumsFts := db.albumsFts[album := AlbumEntry(row.title, artist)])
  }

  /** The track index with fresh entries for the album's tracks among `ids`. */
  ghost function SyncedEntries(db: Db, album: int, ids: set<int>): map<int, TrackEntry>
    requires album in db.albums
    decreases |ids|
  {
    if ids == {} then db.tracksFts
    else
      var id := PickId(ids);
      var rest := SyncedEntries(db, album, ids - {id});
      if id in db.tracks && db.tracks[id].albumId == album
      then rest[id := TrackEntry(db.tracks[id].title, Coalesce(db.tracks[id].artistDisplay), db.albums[album].title)]
      else rest
  }

  ghost function SyncTrackIndex(db: Db, album: int): Db {
    if album !in db.albums then db
    else db.(tracksFts := SyncedEntries(db, album, db.tracks.Keys))
  }

  // ---- Track fields ----

  /** Whether a desired position may overwrite the stored one. */
  predicate PositionAccepted(dt: DesiredTrack, source: Source, policy: Policy) {
    source != Mb || dt.confidence >= policy.minConfidence
  }

  function TrackTitle(cur: TrackRow, dt: DesiredTrack): Text {
    if FTitle in dt.fields then dt.title else Chars(cur.title)
  }

  function TrackGenre(lower: string -> string, cur: TrackRow, dt: DesiredTrack): Text {
    if FGenre in dt.fields then dt.genre
    else if FGenreMerge in dt.fields then Merge(lower, cur.genre, dt.genre)
    else cur.genre
  }

  /** The row the track update writes; its title is TrackTitle, which may be NULL. */
  function TrackTarget(lower: string -> string, cur: TrackRow, dt: DesiredTrack, source: Source,
                       policy: Policy): TrackRow {
    TrackRow(
      cur.albumId,
      cur.path,
      Coalesce(TrackTitle(cur, dt)),
      if FNum in dt.fields && PositionAccepted(dt, source, policy) then dt.trackNum else cur.trackNum,
      if FDisc in dt.fields && PositionAccepted(dt, source, policy) then dt.discNum else cur.discNum,
      if FDuration in dt.fields then dt.durationMs else cur.durationMs,
      if FYear in dt.fields then dt.year else cur.year,
      TrackGenre(lower, cur, dt),
      if FArtists in dt.fields then Chars(BuildDisplay(dt.artists)) else cur.artistDisplay,
      if FMtime in dt.fields then dt.mtime else cur.mtime)
  }

  /** Equal up to NULL and "" in the nullable columns. */
  predicate SameTrack(a: TrackRow, b: TrackRow) {
    && a.title == b.title && a.trackNum == b.trackNum && a.discNum == b.discNum && a.durationMs == b.durationMs
    && a.year == b.year && a.mtime == b.mtime && SameText(a.genre, b.genre)
    && SameText(a.artistDisplay, b.artistDisplay)
  }

  /** The row after a track update: unchanged when nothing differs, and when a NULL title is refused. */
  function UpdatedRow(lower: string -> string, cur: TrackRow, dt: DesiredTrack, source: Source,
                      policy: Policy): TrackRow {
    var t := TrackTarget(lower, cur, dt, source, policy);
    if SameTrack(t, cur) || TrackTitle(cur, dt).Null? then cur else t
  }

  function WriteTrack(db: Db, id: int, row: TrackRow): Db {
    if id !in db.tracks then db else db.(tracks := db.tracks[id := row])
  }

  /** The row of a newly inserted track. */
  function NewRow(album: int, path: string, dt: DesiredTrack): TrackRow {
    TrackRow(
      album,
      path,
      if FTitle in dt.fields && dt.title.Chars? then dt.title.chars else UNKNOWN_TITLE,
      if FNum in dt.fields then dt.trackNum else 0,
      if FDisc in dt.fields && dt.discNum != 0 then dt.discNum else 1,
      if FDuration in dt.fields then dt.durationMs else 0,
      if FYear in dt.fields then dt.year else 0,
      if FGenre in dt.fields || FGenreMerge in dt.fields then dt.genre else Null,
      if FArtists in dt.fields then Chars(BuildDisplay(dt.artists)) else Null,
      if FMtime in dt.fields then dt.mtime else 0)
  }

  /** The rowid of the next insert: one above the largest. */
  ghost function NextRowid(ids: set<int>): (r: int)
    ensures r !in ids && r > 0 && (r == 1 || r - 1 in ids)
    ensures forall i | i in ids :: i < r
  {
    if ids == {} then 1
    else
      MaxExists(ids);
      var m :| m in ids && forall i | i in ids :: i <= m;
      if m < 0 then 1 else m + 1
  }

  lemma {:induction false} MaxExists(ids: set<int>)
    requires ids != {}
    ensures exists m :: m in ids && forall i | i in ids :: i <= m
  {
    HasElement(ids);
    var x :| x in ids;
    var rest := ids - {x};
    if rest == {} {
      assert forall i | i in ids :: i in rest || i == x;
      assert x in ids && forall i | i in ids :: i <= x;
    } else {
      MaxExists(rest);
      var m :| m in rest && forall i | i in rest :: i <= m;
      var top := if x > m then x else m;
      assert forall i | i in ids :: i in rest || i == x;
      assert top in ids;
    }
  }

  /** The insert is refused when the album has no row or already holds the path. */
  predicate InsertRefused(db: Db, album: int, path: string) {
    album !in db.albums || exists id | id in db.tracks :: db.tracks[id].albumId == album && db.tracks[id].path == path
  }

  // ---- One reconcile ----

  /** Progress of one reconcile: the database so far, the counters, and whether the track index is stale. */
  datatype Work = Work(db: Db, sum: Summary, dirty: bool)

  ghost function InsertStep(w: Work, album: int, path: string, dt: DesiredTrack): Work {
    if InsertRefused(w.db, album, path) then w
    else
      var id := NextRowid(w.db.tracks.Keys);
      var db := w.db.(tracks := w.db.tracks[id := NewRow(album, path, dt)]);
      Work(if FArtists in dt.fields && dt.artists != [] then ReplaceCredits(db, id, dt.artists) else db,
           w.sum.(inserted := w.sum.inserted + 1), true)
  }

  function UpdateStep(lower: string -> string, w: Work, cur: Loaded, dt: DesiredTrack, source: Source,
                      policy: Policy): Work {
    var t := TrackTarget(lower, cur.row, dt, source, policy);
    var rowDiff := !SameTrack(t, cur.row);
    var creditDiff := FArtists in dt.fields && !CreditsEqual(cur.credits, dt.artists);
    var db := if rowDiff && TrackTitle(cur.row, dt).Chars? then WriteTrack(w.db, cur.id, t) else w.db;
    Work(
      if creditDiff then ReplaceCredits(db, cur.id, dt.artists) else db,
      w.sum.(updated := w.sum.updated + One(rowDiff || creditDiff),
             titles := w.sum.titles + One(t.title != cur.row.title),
             positions := w.sum.positions + One(t.trackNum != cur.row.trackNum || t.discNum != cur.row.discNum),
             genres := w.sum.genres + One(!SameText(t.genre, cur.row.genre)),
             artists := w.sum.artists + One(creditDiff)),
      w.dirty || t.title != cur.row.title || !SameText(t.artistDisplay, cur.row.artistDisplay))
  }

  ghost function TrackStep(lower: string -> string, w: Work, album: int, cur: AlbumRow, bucket: Bucket,
                           dt: DesiredTrack, source: Source, policy: Policy): Work {
    match dt.path
    case Null => w
    case Chars(path) =>
      if path in bucket
      then UpdateStep(lower, w, bucket[path], MaskTrack(dt, Frozen(cur, source, policy)), source, policy)
      else InsertStep(w, album, path, dt)
  }

  /** The first `n` desired tracks handled in order. */
  ghost function TrackSteps(lower: string -> string, db: Db, album: int, cur: AlbumRow, bucket: Bucket,
                            d: DesiredAlbum, policy: Policy, n: nat): Work
    requires n <= |d.tracks|
  {
    if n == 0 then Work(db, NOTHING, false)
    else TrackStep(lower, TrackSteps(lower, db, album, cur, bucket, d, policy, n - 1), album, cur, bucket,
                   d.tracks[n - 1], d.source, policy)
  }

  /** The paths the first `n` desired tracks name. */
  ghost function Wanted(d: DesiredAlbum, n: nat): set<string>
    requires n <= |d.tracks|
  {
    set i | 0 <= i < n && d.tracks[i].path.Chars? :: d.tracks[i].path.chars
  }

  ghost function Doomed(bucket: Bucket, d: DesiredAlbum): set<string> {
    bucket.Keys - Wanted(d, |d.tracks|)
  }

  function IdsAt(bucket: Bucket, paths: set<string>): set<int>
    requires paths <= bucket.Keys
  {
    set p | p in paths :: bucket[p].id
  }

  ghost function PruneStep(w: Work, bucket: Bucket, d: DesiredAlbum): Work {
    var doomed := Doomed(bucket, d);
    var ids := IdsAt(bucket, doomed);
    Work(w.db.(tracks := w.db.tracks - ids, credits := w.db.credits - ids),
         w.sum.(deleted := w.sum.deleted + |doomed|),
         w.dirty || doomed != {})
  }

  ghost function AlbumStep(w: Work, album: int, cur: AlbumRow, d: DesiredAlbum): (Db, Summary) {
    var t := AlbumTarget(cur, d);
    var db := WriteAlbum(w.db, album, cur, d);
    var db1 := if t.title != cur.title || t.artistId != cur.artistId then SyncAlbumIndex(db, album) else db;
    (if w.dirty then SyncTrackIndex(db1, album) else db1,
     w.sum.(albumFields := AlbumChanges(cur, t), ftsSynced := w.dirty))
  }

  /** One reconcile of `album` from a loaded album row and track bucket. */
  ghost function ReconcileOne(lower: string -> string, db: Db, album: int, cur: AlbumRow, bucket: Bucket,
                              d: DesiredAlbum, policy: Policy): (Db, Summary) {
    var w := TrackSteps(lower, db, album, cur, bucket, d, policy, |d.tracks|);
    var w1 := if policy.pruneMissing then PruneStep(w, bucket, d) else w;
    AlbumStep(w1, album, cur, MaskAlbum(d, Frozen(cur, d.source, policy)))
  }

  /** Load the album, then reconcile it; an album without a row is skipped. */
  ghost function Reconcile(lower: string -> string, db: Db, album: int, d: DesiredAlbum, policy: Policy): (Db, Summary)
    requires ValidDb(db)
  {
    if album <= 0 || album !in db.albums then (db, NOTHING)
    else ReconcileOne(lower, db, album, db.albums[album], BucketOf(db, album), d, policy)
  }
}
