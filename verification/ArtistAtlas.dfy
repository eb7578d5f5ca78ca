// The atlas builder and reader: growing tables of artists, the file they are written to, and
// the lookups made in it.

module ArtistAtlas {
  import opened Crc32
  import opened AtlasFormat

  // ---- What adding means ----

  datatype Add = AddArt(uuid: Uuid, pixels: seq<Byte>) | AddNoArt(uuid: Uuid)

  /** Artwork replaces what was known of the artist; "no artwork" never displaces artwork; pixels of another
      size are refused. */
  function Added(a: Atlas, add: Add): Atlas {
    match add
    case AddArt(u, p) =>
      if |p| != Stride(a.thumb, CHANNELS) then a else a.(art := a.art[u := p], noArt := a.noArt - {u})
    case AddNoArt(u) => if u in a.art then a else a.(noArt := a.noArt + {u})
  }

  function AddedAll(a: Atlas, adds: seq<Add>): Atlas {
    if adds == [] then a else Added(AddedAll(a, adds[..|adds| - 1]), adds[|adds| - 1])
  }

  lemma OneAdd(a: Atlas, add: Add)
    ensures AddedAll(a, [add]) == Added(a, add)
  {
    hide Added;
    assert [add][..0] == [];
    assert AddedAll(a, []) == a;
  }

  /** No artist is in both tables, and every thumbnail has the atlas's size. */
  ghost predicate Coherent(a: Atlas) {
    && a.art.Keys !! a.noArt
    && forall u | u in a.art :: |a.art[u]| == Stride(a.thumb, CHANNELS)
  }

  /** Counts and key offsets of the file fit 32 bits. */
  ghost predicate KeysAddressable(a: Atlas) {
    0 < a.thumb < 0x8000_0000 && |a.art| * UUID_SIZE <= UINT32 && |a.noArt| * UUID_SIZE <= UINT32
  }

  /** So do the pixel offsets. */
  ghost predicate PixelsAddressable(a: Atlas) {
    forall i: nat | i < |a.art| :: i * Stride(a.thumb, CHANNELS) < UINT32
  }

  lemma {:induction false} AddsKeepOthers(a: Atlas, adds: seq<Add>, u: Uuid)
    requires forall i | 0 <= i < |adds| :: adds[i].uuid != u
    ensures var b := AddedAll(a, adds);
            && (u in b.art <==> u in a.art) && (u in a.art ==> b.art[u] == a.art[u])
            && (u in b.noArt <==> u in a.noArt) && b.thumb == a.thumb
  {
    if adds != [] {
      AddsKeepOthers(a, adds[..|adds| - 1], u);
    }
  }

  lemma {:induction false} AddsKeepCoherent(a: Atlas, adds: seq<Add>)
    requires Coherent(a)
    ensures Coherent(AddedAll(a, adds)) && AddedAll(a, adds).thumb == a.thumb
  {
    if adds != [] {
      AddsKeepCoherent(a, adds[..|adds| - 1]);
    }
  }

  lemma AddedCoherent(a: Atlas, add: Add)
    requires Coherent(a)
    ensures Coherent(Added(a, add))
  {
  }

  /** Adds for different artists can be made in either order. */
  lemma AddsCommute(a: Atlas, x: Add, y: Add)
    requires x.uuid != y.uuid
    ensures Added(Added(a, x), y) == Added(Added(a, y), x)
  {
    hide Stride;
    var b, c := Added(Added(a, x), y), Added(Added(a, y), x);
    assert b.art == c.art;
    assert b.noArt == c.noArt;
  }

  /** Adding what is already there changes nothing. */
  lemma ReAddIsSame(a: Atlas, u: Uuid)
    requires Coherent(a)
    ensures u in a.art ==> Added(a, AddArt(u, a.art[u])) == a
    ensures u in a.noArt ==> Added(a, AddNoArt(u)) == a
  {
    if u in a.art {
      assert a.art[u := a.art[u]] == a.art;
      assert a.noArt - {u} == a.noArt;
    }
    if u in a.noArt {
      assert a.noArt + {u} == a.noArt;
    }
  }

  /** What `add` says is already in the atlas. */
  predicate Known(a: Atlas, add: Add) {
    match add
    case AddArt(u, p) => u in a.art && a.art[u] == p
    case AddNoArt(u) => u in a.noArt || u in a.art
  }

  /** An atlas that is fetched again as it is stays as it is, in any order and with any repetition. */
  lemma {:induction false} ReAddAllIsSame(a: Atlas, adds: seq<Add>)
    requires Coherent(a) && forall i | 0 <= i < |adds| :: Known(a, adds[i])
    ensures AddedAll(a, adds) == a
  {
    hide Coherent;
    if adds != [] {
      ReAddAllIsSame(a, adds[..|adds| - 1]);
      ReAddIsSame(a, adds[|adds| - 1].uuid);
    }
  }

  // ---- Loading ----

  /** Record `i` of an opened file as a builder entry. Its key's offset is computed in 32 bits, that of its
      pixels is not. */
  function ArtRecord(r: Reader, i: nat): (e: Entry)
    requires Fits(r) && i < r.artCount
    ensures |e.pixels| == r.stride
  {
    RecordFits(i, r.artCount, UUID_SIZE);
    RecordFits(i, r.artCount, r.stride);
    var at := PixelsStart(r) + i * r.stride;
    Entry(Record(r.file, KeysStart(), i, UUID_SIZE), r.file[at..at + r.stride])
  }

  function NoArtRecord(r: Reader, i: nat): Uuid
    requires Fits(r) && i < r.noArtCount
  {
    RecordFits(i, r.noArtCount, UUID_SIZE);
    Record(r.file, NoArtStart(r), i, UUID_SIZE)
  }

  /** The first `n` records as builder entries: none of them when the thumbnail size changed. */
  function LoadedArt(r: Reader, stride: nat, n: nat): seq<Entry>
    requires Fits(r) && n <= r.artCount
  {
    if n == 0 || r.stride != stride then [] else LoadedArt(r, stride, n - 1) + [ArtRecord(r, n - 1)]
  }

  function LoadedNoArt(r: Reader, n: nat): seq<Uuid>
    requires Fits(r) && n <= r.noArtCount
  {
    if n == 0 then [] else LoadedNoArt(r, n - 1) + [NoArtRecord(r, n - 1)]
  }

  /** What the file on disk adds to a builder: nothing unless it opens. */
  function Loaded(disk: Option<seq<Byte>>, stride: nat): (seq<Entry>, seq<Uuid>) {
    if OpenReader(disk).None? then ([], [])
    else
      OpenFits(disk);
      var r := OpenReader(disk).value;
      (LoadedArt(r, stride, r.artCount), LoadedNoArt(r, r.noArtCount))
  }

  lemma ArtRecordIs(r: Reader, art: seq<Entry>, noArt: seq<Uuid>, i: nat)
    requires Tables(r, art, noArt) && i < |art| && |art| * UUID_SIZE <= UINT32
    requires forall k | 0 <= k < |art| :: |art[k].pixels| == r.stride
    ensures Fits(r) && ArtRecord(r, i) == art[i]
  {
    hide Flat, Record;
    RecordRead(r.file, KeysStart(), KeysOf(art), UUID_SIZE, i);
    FlatAt(PixelsOf(art), r.stride, i);
    Within(r.file, PixelsStart(r), Flat(PixelsOf(art)), i * r.stride, i * r.stride + r.stride);
  }

  lemma {:induction false} LoadedArtIs(r: Reader, art: seq<Entry>, noArt: seq<Uuid>, n: nat)
    requires Tables(r, art, noArt) && n <= |art| && |art| * UUID_SIZE <= UINT32
    requires forall i | 0 <= i < |art| :: |art[i].pixels| == r.stride
    ensures Fits(r) && LoadedArt(r, r.stride, n) == art[..n]
  {
    assert Fits(r) && r.artCount == |art|;
    if n == 0 {
    } else {
      ArtRecordIs(r, art, noArt, n - 1);
      LoadedArtIs(r, art, noArt, n - 1);
      hide ArtRecord, Tables, Fits;
      assert art[..n] == art[..n - 1] + [art[n - 1]];
    }
  }

  lemma {:induction false} LoadedNoArtIs(r: Reader, art: seq<Entry>, noArt: seq<Uuid>, n: nat)
    requires Tables(r, art, noArt) && n <= |noArt| && |noArt| * UUID_SIZE <= UINT32
    ensures LoadedNoArt(r, n) == noArt[..n]
  {
    hide Flat, Record;
    if n != 0 {
      LoadedNoArtIs(r, art, noArt, n - 1);
      RecordRead(r.file, NoArtStart(r), noArt, UUID_SIZE, n - 1);
      assert noArt[..n] == noArt[..n - 1] + [noArt[n - 1]];
    }
  }

  /** An atlas as a freshly created builder for thumbnails of size `thumb` loads it: artwork of another byte size
      is dropped. */
  function LoadedAtlas(a: Atlas, thumb: nat): Atlas {
    Atlas(thumb, if Stride(a.thumb, CHANNELS) == Stride(thumb, CHANNELS) then a.art else map[], a.noArt)
  }

  // ---- Sorting ----

  /** qsort by memcmp, as insertion from the back. */
  function InsertKey(s: seq<Uuid>, k: Uuid): seq<Uuid> {
    if s == [] || Before(s[|s| - 1], k) then s + [k] else InsertKey(s[..|s| - 1], k) + [s[|s| - 1]]
  }

  function SortKeys(s: seq<Uuid>): seq<Uuid> {
    if s == [] then [] else InsertKey(SortKeys(s[..|s| - 1]), s[|s| - 1])
  }

  function InsertEntry(s: seq<Entry>, e: Entry): seq<Entry> {
    if s == [] || Before(s[|s| - 1].uuid, e.uuid) then s + [e] else InsertEntry(s[..|s| - 1], e) + [s[|s| - 1]]
  }

  function SortEntries(s: seq<Entry>): seq<Entry> {
    if s == [] then [] else InsertEntry(SortEntries(s[..|s| - 1]), s[|s| - 1])
  }

  lemma {:induction false} InsertSorts(s: seq<Uuid>, k: Uuid)
    requires Sorted(s) && k !in s
    ensures Sorted(InsertKey(s, k)) && KeySet(InsertKey(s, k)) == KeySet(s) + {k} && |InsertKey(s, k)| == |s| + 1
  {
    if s == [] || Before(s[|s| - 1], k) {
      forall i | 0 <= i < |s| ensures Before(s[i], k) {
        if i < |s| - 1 {
          BeforeTransitive(s[i], s[|s| - 1], k);
        }
      }
    } else {
      var front, last := s[..|s| - 1], s[|s| - 1];
      InsertSorts(front, k);
      BeforeTotal(last, k);
      var t := InsertKey(front, k);
      forall i | 0 <= i < |t| ensures Before(t[i], last) {
        assert t[i] in KeySet(t);
        assert t[i] == k || t[i] in front;
      }
      assert KeySet(t + [last]) == KeySet(t) + {last};
      FrontKeys(s);
      assert last in KeySet(s);
    }
  }

  lemma {:induction false} SortSorts(s: seq<Uuid>)
    requires Distinct(s)
    ensures Sorted(SortKeys(s)) && KeySet(SortKeys(s)) == KeySet(s) && |SortKeys(s)| == |s|
  {
    if s != [] {
      var front, last := s[..|s| - 1], s[|s| - 1];
      SortSorts(front);
      assert last !in SortKeys(front) by {
        assert last !in KeySet(front);
        assert last in SortKeys(front) ==> last in KeySet(SortKeys(front));
      }
      InsertSorts(SortKeys(front), last);
      assert KeySet(s) == KeySet(front) + {last};
    }
  }

  lemma {:induction false} InsertEntryIs(s: seq<Entry>, e: Entry)
    requires e.uuid !in KeysOf(s)
    ensures KeysOf(InsertEntry(s, e)) == InsertKey(KeysOf(s), e.uuid)
    ensures ArtMap(InsertEntry(s, e)) == ArtMap(s)[e.uuid := e.pixels]
  {
    hide Before;
    if s == [] || Before(s[|s| - 1].uuid, e.uuid) {
      assert KeysOf(s + [e]) == KeysOf(s) + [e.uuid];
      assert (s + [e])[..|s|] == s;
    } else {
      var front, last := s[..|s| - 1], s[|s| - 1];
      assert KeysOf(front) == KeysOf(s)[..|s| - 1];
      assert KeysOf(s)[|s| - 1] == last.uuid;
      InsertEntryIs(front, e);
      var t := InsertEntry(front, e);
      assert (t + [last])[..|t|] == t;
      assert KeysOf(t + [last]) == KeysOf(t) + [last.uuid];
    }
  }

  lemma {:induction false} SortEntriesIs(s: seq<Entry>)
    requires Distinct(KeysOf(s))
    ensures KeysOf(SortEntries(s)) == SortKeys(KeysOf(s)) && ArtMap(SortEntries(s)) == ArtMap(s)
  {
    if s == [] {
      assert KeysOf(s) == [];
    } else {
      var front, last := s[..|s| - 1], s[|s| - 1];
      assert KeysOf(front) == KeysOf(s)[..|s| - 1] && KeysOf(s)[|s| - 1] == last.uuid;
      SortEntriesIs(front);
      SortSorts(KeysOf(front));
      assert last.uuid !in SortKeys(KeysOf(front)) by {
        assert last.uuid !in KeySet(KeysOf(front));
        assert last.uuid in SortKeys(KeysOf(front)) ==> last.uuid in KeySet(SortKeys(KeysOf(front)));
      }
      InsertEntryIs(SortEntries(front), last);
    }
  }
}
