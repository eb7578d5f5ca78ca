// The atlas builder and the reader as they run, and what a file written by one means to the other.

module AtlasBuilder {
  import opened Crc32
  import opened AtlasFormat
  import opened ArtistAtlas

  datatype ResultCode = Success | InvalidParam | Internal

  // ---- The builder's tables ----

  lemma ArtMapAppend(art: seq<Entry>, e: Entry)
    ensures ArtMap(art + [e]) == ArtMap(art)[e.uuid := e.pixels]
    ensures KeysOf(art + [e]) == KeysOf(art) + [e.uuid]
  {
    assert (art + [e])[..|art|] == art;
  }

  lemma {:induction false} ArtMapReplace(art: seq<Entry>, i: nat, p: seq<Byte>)
    requires i < |art| && Distinct(KeysOf(art))
    ensures var art2 := art[i := Entry(art[i].uuid, p)];
            ArtMap(art2) == ArtMap(art)[art[i].uuid := p] && KeysOf(art2) == KeysOf(art)
  {
    var n := |art| - 1;
    var art2 := art[i := Entry(art[i].uuid, p)];
    assert KeysOf(art2) == KeysOf(art);
    if i == n {
      assert art2[..n] == art[..n];
    } else {
      assert KeysOf(art[..n]) == KeysOf(art)[..n];
      assert KeysOf(art)[i] != KeysOf(art)[n];
      ArtMapReplace(art[..n], i, p);
      assert art2[..n] == art[..n][i := Entry(art[i].uuid, p)];
    }
  }

  lemma {:induction false} KeyCount(keys: seq<Uuid>)
    requires Distinct(keys)
    ensures |KeySet(keys)| == |keys|
  {
    NoKeys(keys);
    if keys != [] {
      var front, last := keys[..|keys| - 1], keys[|keys| - 1];
      KeyCount(front);
      assert KeySet(keys) == KeySet(front) + {last};
    }
  }

  lemma WithoutKey(keys: seq<Uuid>, i: nat)
    requires Distinct(keys) && i < |keys|
    ensures var t := keys[..i] + keys[i + 1..]; Distinct(t) && KeySet(t) == KeySet(keys) - {keys[i]}
  {
    var t := keys[..i] + keys[i + 1..];
    forall k | k in KeySet(keys) - {keys[i]} ensures k in KeySet(t) {
      var j :| 0 <= j < |keys| && keys[j] == k;
      assert t[if j < i then j else j - 1] == k;
    }
  }

  lemma AppendDistinct(keys: seq<Uuid>, k: Uuid)
    requires Distinct(keys) && k !in KeySet(keys)
    ensures Distinct(keys + [k])
  {
  }

  class Builder {
    const thumb: nat
    const stride: nat
    var art: seq<Entry>
    var noArt: seq<Uuid>

    constructor (thumb: nat)
      ensures Valid() && Contents() == Atlas(thumb, map[], {}) && this.thumb == thumb && art == [] && noArt == []
    {
      this.thumb := thumb;
      stride := Stride(thumb, CHANNELS);
      art, noArt := [], [];
      new;
      assert KeysOf([]) == [];
      NoKeys([]);
    }

    ghost function Contents(): Atlas
      reads this
    {
      Atlas(thumb, ArtMap(art), KeySet(noArt))
    }

    /** No key twice in a table, none in both, every thumbnail of the builder's size. */
    ghost predicate Valid()
      reads this
    {
      && stride == Stride(thumb, CHANNELS)
      && Distinct(KeysOf(art)) && Distinct(noArt)
      && Coherent(Contents())
    }

    method FindArtEntry(uuid: Uuid) returns (index: int)
      ensures -1 <= index < |art|
      ensures index >= 0 ==> art[index].uuid == uuid
      ensures index < 0 ==> uuid !in ArtMap(art)
    {
      for i := 0 to |art|
        invariant forall k | 0 <= k < i :: art[k].uuid != uuid
      {
        if art[i].uuid == uuid {
          return i;
        }
      }
      ArtMapKeys(art);
      return -1;
    }

    method FindNoArtEntry(uuid: Uuid) returns (index: int)
      ensures -1 <= index < |noArt|
      ensures index >= 0 ==> noArt[index] == uuid
      ensures index < 0 ==> uuid !in KeySet(noArt)
    {
      for i := 0 to |noArt|
        invariant forall k | 0 <= k < i :: noArt[k] != uuid
      {
        if noArt[i] == uuid {
          return i;
        }
      }
      return -1;
    }

    /** Takes the artist off the no-art list, closing the gap. */
    method RemoveNoArt(uuid: Uuid)
      requires Distinct(noArt)
      modifies this`noArt
      ensures Distinct(noArt) && KeySet(noArt) == old(KeySet(noArt)) - {uuid}
    {
      var index := FindNoArtEntry(uuid);
      if index >= 0 {
        WithoutKey(noArt, index);
        noArt := noArt[..index] + noArt[index + 1..];
      }
    }

    /** Updates the artist's entry or appends one. */
    method PutArt(uuid: Uuid, pixels: seq<Byte>)
      requires Distinct(KeysOf(art))
      modifies this`art
      ensures Distinct(KeysOf(art)) && ArtMap(art) == old(ArtMap(art))[uuid := pixels]
    {
      hide ArtMap;
      ArtMapKeys(art);
      var existing := FindArtEntry(uuid);
      if existing >= 0 {
        ArtMapReplace(art, existing, pixels);
        art := art[existing := Entry(uuid, pixels)];
        return;
      }
      ArtMapAppend(art, Entry(uuid, pixels));
      AppendDistinct(KeysOf(art), uuid);
      art := art + [Entry(uuid, pixels)];
    }

    /** An artist with artwork leaves the no-art list; an entry it already has is overwritten. */
    method AddArtwork(uuid: Uuid, pixels: seq<Byte>) returns (code: ResultCode)
      requires Valid()
      modifies this
      ensures Valid() && Contents() == Added(old(Contents()), AddArt(uuid, pixels))
      ensures code == if |pixels| != stride then InvalidParam else Success
    {
      hide Stride, ArtMap, Coherent, KeysOf, KeySet, Distinct;
      if |pixels| != stride {
        return InvalidParam;
      }
      AddedCoherent(Contents(), AddArt(uuid, pixels));
      RemoveNoArt(uuid);
      PutArt(uuid, pixels);
      code := Success;
    }

    method AddNoArtwork(uuid: Uuid) returns (code: ResultCode)
      requires Valid()
      modifies this
      ensures Valid() && Contents() == Added(old(Contents()), AddNoArt(uuid)) && code == Success
    {
      hide Stride, ArtMap, Coherent;
      AddedCoherent(Contents(), AddNoArt(uuid));
      code := Success;
      var index := FindArtEntry(uuid);
      if index >= 0 {
        ArtMapAt(art, index);
        return;
      }
      var duplicate := FindNoArtEntry(uuid);
      if duplicate >= 0 {
        assert KeySet(noArt) + {uuid} == KeySet(noArt);
        return;
      }
      assert KeySet(noArt + [uuid]) == KeySet(noArt) + {uuid};
      noArt := noArt + [uuid];
    }

    /** Appends the records of the file on disk, if it opens; anything else starts fresh. */
    method LoadExisting(disk: Option<seq<Byte>>)
      modifies this
      ensures art == old(art) + Loaded(disk, stride).0
      ensures noArt == old(noArt) + Loaded(disk, stride).1
    {
      hide OpenReader, Record, Fits;
      var reader := OpenReader(disk);
      if reader.None? {
        return;
      }
      var r := reader.value;
      OpenFits(disk);
      for i := 0 to r.artCount
        invariant art == old(art) + LoadedArt(r, stride, i) && noArt == old(noArt)
      {
        if r.stride == stride {
          art := art + [ArtRecord(r, i)];
        }
      }
      for i := 0 to r.noArtCount
        invariant art == old(art) + LoadedArt(r, stride, r.artCount) && noArt == old(noArt) + LoadedNoArt(r, i)
      {
        noArt := noArt + [NoArtRecord(r, i)];
      }
    }

    method SortTables()
      requires Valid()
      modifies this
      ensures Valid() && Contents() == old(Contents())
      ensures Sorted(KeysOf(art)) && Sorted(noArt)
    {
      hide KeysOf, KeySet, ArtMap, Stride, Coherent;
      SortEntriesIs(art);
      SortSorts(KeysOf(art));
      SortSorts(noArt);
      art, noArt := SortEntries(art), SortKeys(noArt);
      SortedDistinct(KeysOf(art));
      SortedDistinct(noArt);
    }

    /** Sorts both tables and writes the file section by section to a temporary file, which replaces the one on
        disk unless the checksums agree. `written` and `renamed` say whether the file system accepts the writes and
        the final rename; otherwise the disk keeps its file. */
    method Finish(disk: Option<seq<Byte>>, written: bool, renamed: bool)
      returns (code: ResultCode, disk2: Option<seq<Byte>>, changed: bool, ghost file: seq<Byte>)
      requires Valid()
      modifies this
      ensures Valid() && Contents() == old(Contents())
      ensures Empty(Contents()) ==> code == Success && !changed
      ensures !Empty(Contents()) ==>
        && Encodes(file, Contents()) && |file| >= CRC32_SIZE
        && (changed <==> written && renamed && !SameChecksum(disk, file))
        && code == if written && (renamed || SameChecksum(disk, file)) then Success else Internal
      ensures disk2 == if changed then Some(file) else disk
    {
      hide Crc, Le, UnLe, Stride, ArtMap, Header, KeysOf, KeySet, Coherent, Distinct;
      file := [];
      EmptyTables(art, noArt);
      if |art| == 0 && |noArt| == 0 {
        return Success, disk, false, [];
      }
      SortTables();
      var body := WriteBody(thumb, art, noArt);
      var output := body + Le(Crc(body) as nat);
      file := output;
      assert EncodesAs(file, Contents(), art, noArt);
      hide EncodesAs, Valid, Body;
      if !written {
        return Internal, disk, false, file;
      }
      if disk.Some? && |disk.value| >= 4
         && Field(disk.value, |disk.value| - CRC32_SIZE) == Field(output, |output| - CRC32_SIZE) {
        return Success, disk, false, file;
      }
      if !renamed {
        return Internal, disk, false, file;
      }
      return Success, Some(output), true, file;
    }
  }

  lemma EmptyTables(art: seq<Entry>, noArt: seq<Uuid>)
    ensures ArtMap(art) == map[] && KeySet(noArt) == {} <==> art == [] && noArt == []
  {
    NoKeys(noArt);
    ArtMapKeys(art);
    NoKeys(KeysOf(art));
    assert |KeysOf(art)| == |art|;
  }

  ghost predicate Empty(a: Atlas) {
    a.art == map[] && a.noArt == {}
  }

  /** The trailing checksums agree; a file too short to have one agrees with none. */
  predicate SameChecksum(disk: Option<seq<Byte>>, file: seq<Byte>)
    requires |file| >= CRC32_SIZE
  {
    disk.Some? && |disk.value| >= CRC32_SIZE
    && Field(disk.value, |disk.value| - CRC32_SIZE) == Field(file, |file| - CRC32_SIZE)
  }

  /** The sequential writes of header, keys, pixels and the no-art section. */
  method WriteBody(thumb: nat, art: seq<Entry>, noArt: seq<Uuid>) returns (out: seq<Byte>)
    ensures out == Body(thumb, art, noArt)
  {
    hide Header, Le;
    var header := Header(|art|, |noArt|, thumb);
    var keys, pixels := KeysOf(art), PixelsOf(art);
    out := header;
    for i := 0 to |art|
      invariant out == header + Flat(keys[..i])
    {
      out := out + art[i].uuid;
      assert keys[..i + 1][..i] == keys[..i];
    }
    assert keys[..|art|] == keys;
    for i := 0 to |art|
      invariant out == header + Flat(keys) + Flat(pixels[..i])
    {
      out := out + art[i].pixels;
      assert pixels[..i + 1][..i] == pixels[..i];
    }
    assert pixels[..|art|] == pixels;
    out := out + Le(|noArt|) + Flat(noArt);
  }

  // ---- What a written file means ----

  /** The opened file and its tables, for the entries and keys it was written from. */
  lemma Written(f: seq<Byte>, a: Atlas, art: seq<Entry>, noArt: seq<Uuid>)
    requires EncodesAs(f, a, art, noArt) && Coherent(a) && KeysAddressable(a)
    ensures |art| == |a.art| && |noArt| == |a.noArt|
    ensures forall i | 0 <= i < |art| :: art[i].uuid in a.art && a.art[art[i].uuid] == art[i].pixels
    ensures forall i | 0 <= i < |art| :: |art[i].pixels| == Stride(a.thumb, CHANNELS)
    ensures var r := OpenReader(Some(f));
            && r == Some(Reader(f, |art|, |noArt|, a.thumb, CHANNELS, Stride(a.thumb, CHANNELS)))
            && Fits(r.value) && Tables(r.value, art, noArt)
  {
    hide Stride, Body, Sealed, Tables, OpenReader;
    SortedDistinct(KeysOf(art));
    SortedDistinct(noArt);
    ArtMapKeys(art);
    KeyCount(KeysOf(art));
    KeyCount(noArt);
    assert |a.art| == |a.art.Keys|;
    forall i | 0 <= i < |art| ensures art[i].uuid in a.art && a.art[art[i].uuid] == art[i].pixels {
      ArtMapAt(art, i);
    }
    WrittenOpens(a.thumb, art, noArt);
    WrittenTables(a.thumb, art, noArt);
    OpenFits(Some(f));
  }

  /** A fresh builder that loads a written file holds what the file says, and the no-art section decodes to the
      sorted listing of the no-art set. */
  lemma LoadRoundTrip(f: seq<Byte>, a: Atlas, thumb: nat)
    requires Encodes(f, a) && Coherent(a) && KeysAddressable(a)
    ensures OpenReader(Some(f)).Some? && Fits(OpenReader(Some(f)).value)
    ensures var r := OpenReader(Some(f)).value;
            var art, noArt := LoadedArt(r, Stride(thumb, CHANNELS), r.artCount), LoadedNoArt(r, r.noArtCount);
            && Distinct(KeysOf(art)) && ArtMap(art) == LoadedAtlas(a, thumb).art
            && Sorted(noArt) && KeySet(noArt) == a.noArt
            && Coherent(LoadedAtlas(a, thumb))
  {
    hide Stride, Tables, OpenReader, Fits;
    var art, noArt :| EncodesAs(f, a, art, noArt);
    Written(f, a, art, noArt);
    var r := OpenReader(Some(f)).value;
    LoadedArtIs(r, art, noArt, |art|);
    LoadedNoArtIs(r, art, noArt, |noArt|);
    SortedDistinct(KeysOf(art));
    assert art[..|art|] == art && noArt[..|noArt|] == noArt;
    if r.stride != Stride(thumb, CHANNELS) {
      assert LoadedArt(r, Stride(thumb, CHANNELS), r.artCount) == [];
      assert KeysOf([]) == [];
    }
  }

  /** Two files that say the same have the same checksum. */
  lemma SameContentSameChecksum(disk: seq<Byte>, file: seq<Byte>, a: Atlas)
    requires Encodes(disk, a) && Encodes(file, a)
    ensures |file| >= CRC32_SIZE && SameChecksum(Some(disk), file)
  {
    hide Encodes, UnLe;
    CanonicalBytes(disk, file, a);
    EncodedSize(file, a);
  }

  lemma EncodedSize(f: seq<Byte>, a: Atlas)
    requires Encodes(f, a)
    ensures |f| >= CRC32_SIZE
  {
    hide Body, Crc, KeysOf, ArtMap, Le, KeySet;
    var art, noArt :| EncodesAs(f, a, art, noArt);
    assert f == Sealed(Body(a.thumb, art, noArt));
  }

  /** A file says one thing. */
  lemma DecodesUniquely(f: seq<Byte>, a: Atlas, b: Atlas)
    requires Encodes(f, a) && Encodes(f, b)
    requires Coherent(a) && KeysAddressable(a) && Coherent(b) && KeysAddressable(b)
    ensures a == b
  {
    hide Encodes, Coherent, KeysAddressable, OpenReader, Fits, ArtMap, KeySet, Stride;
    LoadRoundTrip(f, a, a.thumb);
    LoadRoundTrip(f, b, b.thumb);
    ThumbRead(f, a);
    ThumbRead(f, b);
  }

  lemma ThumbRead(f: seq<Byte>, a: Atlas)
    requires Encodes(f, a) && Coherent(a) && KeysAddressable(a)
    ensures OpenReader(Some(f)).Some? && OpenReader(Some(f)).value.thumb == a.thumb
  {
    var art, noArt :| EncodesAs(f, a, art, noArt);
    Written(f, a, art, noArt);
  }

  // ---- What any file on disk means to a builder ----

  /** No key is repeated in or between the tables a builder loads: so in every file a builder wrote, and in every
      file that does not open. */
  ghost predicate Sound(disk: Option<seq<Byte>>, thumb: nat) {
    var (art, noArt) := Loaded(disk, Stride(thumb, CHANNELS));
    Distinct(KeysOf(art)) && Distinct(noArt) && forall k | k in noArt :: k !in ArtMap(art)
  }

  /** What a fresh builder holds after loading the disk. */
  ghost function AtlasOn(disk: Option<seq<Byte>>, thumb: nat): Atlas {
    var (art, noArt) := Loaded(disk, Stride(thumb, CHANNELS));
    Atlas(thumb, ArtMap(art), KeySet(noArt))
  }

  lemma {:induction false} LoadedSizes(r: Reader, stride: nat, n: nat)
    requires Fits(r) && n <= r.artCount
    ensures forall i | 0 <= i < |LoadedArt(r, stride, n)| :: |LoadedArt(r, stride, n)[i].pixels| == stride
  {
    hide Fits, ArtRecord;
    if n > 0 && r.stride == stride {
      LoadedSizes(r, stride, n - 1);
      var rest := LoadedArt(r, stride, n - 1);
      assert LoadedArt(r, stride, n) == rest + [ArtRecord(r, n - 1)];
    }
  }

  lemma {:induction false} MapSizes(art: seq<Entry>, stride: nat)
    requires forall i | 0 <= i < |art| :: |art[i].pixels| == stride
    ensures forall u | u in ArtMap(art) :: |ArtMap(art)[u]| == stride
  {
    if art != [] {
      MapSizes(art[..|art| - 1], stride);
    }
  }

  lemma SoundIsCoherent(disk: Option<seq<Byte>>, thumb: nat)
    requires Sound(disk, thumb)
    ensures Coherent(AtlasOn(disk, thumb))
  {
    hide OpenReader, Fits, Stride, ArtMap, LoadedArt, LoadedNoArt, Distinct, KeysOf;
    var stride := Stride(thumb, CHANNELS);
    var (art, noArt) := Loaded(disk, stride);
    if OpenReader(disk).Some? {
      OpenFits(disk);
      LoadedSizes(OpenReader(disk).value, stride, OpenReader(disk).value.artCount);
    }
    MapSizes(art, stride);
  }

  /** A file a builder wrote is sound, and holds what it says. */
  lemma WrittenIsSound(f: seq<Byte>, a: Atlas, thumb: nat)
    requires Encodes(f, a) && Coherent(a) && KeysAddressable(a)
    ensures Sound(Some(f), thumb) && AtlasOn(Some(f), thumb) == LoadedAtlas(a, thumb)
  {
    hide Encodes, KeysAddressable, Fits, Stride, OpenReader, ArtMap, KeysOf, Distinct;
    LoadRoundTrip(f, a, thumb);
    var (art, noArt) := Loaded(Some(f), Stride(thumb, CHANNELS));
    SortedDistinct(noArt);
    assert forall k | k in noArt :: k in KeySet(noArt);
  }

  /** A file that is missing, damaged or of another version is sound, and holds nothing. */
  lemma UnopenedIsSound(disk: Option<seq<Byte>>, thumb: nat)
    requires OpenReader(disk).None?
    ensures Sound(disk, thumb) && AtlasOn(disk, thumb) == Atlas(thumb, map[], {})
  {
    NoKeys([]);
    assert KeysOf([]) == [];
  }

  // ---- The artwork phase ----

  /** An addition the builder takes. */
  predicate Accepted(add: Add, stride: nat) {
    add.AddNoArt? || |add.pixels| == stride
  }

  predicate Dirty(adds: seq<Add>, stride: nat) {
    adds != [] && (Accepted(adds[|adds| - 1], stride) || Dirty(adds[..|adds| - 1], stride))
  }

  /** The artwork phase has a new file to put in place: an addition was taken, there is something to write, and the
      checksums differ. */
  ghost predicate Rewritten(disk: Option<seq<Byte>>, thumb: nat, adds: seq<Add>, b: Atlas) {
    && Dirty(adds, Stride(thumb, CHANNELS)) && !Empty(b)
    && forall file | Encodes(file, b) && |file| >= CRC32_SIZE :: !SameChecksum(disk, file)
  }

  /** Create, load, add, finish: the disk gets a new file exactly when there is one to put in place and the file
      system accepts it; that file says what the loaded atlas with the additions says; and nothing is rewritten
      when the disk says so already. */
  method UpdateAtlas(disk: Option<seq<Byte>>, thumb: nat, adds: seq<Add>, written: bool, renamed: bool)
    returns (disk2: Option<seq<Byte>>, changed: bool)
    requires Sound(disk, thumb)
    ensures var b := AddedAll(AtlasOn(disk, thumb), adds);
            && (changed <==> Rewritten(disk, thumb, adds, b) && written && renamed)
            && (changed ==> disk2.Some? && Encodes(disk2.value, b))
            && (!changed ==> disk2 == disk)
            && (disk.Some? && Encodes(disk.value, b) ==> !changed)
  {
    hide Stride, Encodes, Coherent, KeysAddressable, ArtMap, Distinct, KeysOf, KeySet, SameChecksum, OpenReader, Fits,
      Added, Loaded;
    var builder := new Builder(thumb);
    builder.LoadExisting(disk);
    ghost var start := AtlasOn(disk, thumb);
    assert builder.art == Loaded(disk, builder.stride).0 && builder.noArt == Loaded(disk, builder.stride).1;
    SoundIsCoherent(disk, thumb);
    assert builder.Valid() && builder.Contents() == start;
    hide Sound, AtlasOn;
    var dirty := false;
    for i := 0 to |adds|
      invariant builder.Valid() && builder.Contents() == AddedAll(start, adds[..i])
      invariant builder.thumb == thumb && fresh(builder)
      invariant dirty <==> Dirty(adds[..i], Stride(thumb, CHANNELS))
    {
      assert adds[..i + 1][..i] == adds[..i];
      var code: ResultCode;
      match adds[i] {
        case AddArt(u, p) => code := builder.AddArtwork(u, p);
        case AddNoArt(u) => code := builder.AddNoArtwork(u);
      }
      if code == Success {
        dirty := true;
      }
    }
    assert adds[..|adds|] == adds;
    if !dirty {
      return disk, false;
    }
    ghost var b, file := builder.Contents(), [];
    assert b == AddedAll(start, adds);
    hide Builder.Valid, Builder.Contents, AddedAll;
    var code;
    code, disk2, changed, file := builder.Finish(disk, written, renamed);
    if !Empty(b) {
      OneFile(disk, file, b);
    }
  }

  /** Whichever file with the contents `b` is asked about, it is `file`. */
  lemma OneFile(disk: Option<seq<Byte>>, file: seq<Byte>, b: Atlas)
    requires Encodes(file, b) && |file| >= CRC32_SIZE
    ensures (forall other | Encodes(other, b) && |other| >= CRC32_SIZE :: !SameChecksum(disk, other))
      <==> !SameChecksum(disk, file)
    ensures disk.Some? && Encodes(disk.value, b) ==> SameChecksum(disk, file)
  {
    hide Encodes, SameChecksum;
    forall other | Encodes(other, b) ensures other == file {
      CanonicalBytes(other, file, b);
    }
    if disk.Some? && Encodes(disk.value, b) {
      SameContentSameChecksum(disk.value, file, b);
    }
  }

  // ---- The reader ----

  /** The key table as the search reads it, offsets in 32 bits. */
  function KeyAt(r: Reader, i: nat): seq<Byte>
    requires Fits(r) && i < r.artCount
  {
    RecordFits(i, r.artCount, UUID_SIZE);
    Record(r.file, KeysStart(), i, UUID_SIZE)
  }

  ghost predicate KeysInOrder(r: Reader)
    requires Fits(r)
  {
    forall i: nat, k: nat | i < k < r.artCount :: |KeyAt(r, i)| == |KeyAt(r, k)| && Before(KeyAt(r, i), KeyAt(r, k))
  }

  /** A found index holds the key; in an ordered table a missing key is nowhere. */
  method UuidBinarySearch(r: Reader, uuid: Uuid) returns (index: int)
    requires Fits(r)
    ensures -1 <= index < r.artCount
    ensures index >= 0 ==> KeyAt(r, index) == uuid
    ensures index < 0 && KeysInOrder(r) ==> forall i: nat | i < r.artCount :: KeyAt(r, i) != uuid
  {
    hide Fits, KeyAt;
    var lo: nat, hi: nat := 0, r.artCount;
    while lo < hi
      invariant lo <= hi <= r.artCount
      invariant KeysInOrder(r) ==> forall i: nat | i < lo || hi <= i < r.artCount :: KeyAt(r, i) != uuid
    {
      var mid := lo + (hi - lo) / 2;
      var key := KeyAt(r, mid);
      KeyWidth(r, mid);
      if key == uuid {
        return mid;
      }
      ghost var lo0, hi0 := lo, hi;
      if Before(key, uuid) {
        SearchRight(r, uuid, mid);
        lo := mid + 1;
      } else {
        SearchLeft(r, uuid, mid);
        hi := mid;
      }
    }
    return -1;
  }

  lemma KeyWidth(r: Reader, i: nat)
    requires Fits(r) && i < r.artCount
    ensures |KeyAt(r, i)| == UUID_SIZE
  {
  }

  lemma SearchRight(r: Reader, uuid: Uuid, mid: nat)
    requires Fits(r) && mid < r.artCount && |KeyAt(r, mid)| == UUID_SIZE && Before(KeyAt(r, mid), uuid)
    ensures KeysInOrder(r) ==> forall i: nat | i <= mid :: KeyAt(r, i) != uuid
  {
    hide Fits, KeyAt;
    if KeysInOrder(r) {
      forall i: nat | i <= mid ensures KeyAt(r, i) != uuid {
        if KeyAt(r, i) == uuid {
          BeforeIrreflexive(uuid);
          if i < mid {
            BeforeTransitive(uuid, KeyAt(r, mid), uuid);
          }
        }
      }
    }
  }

  lemma SearchLeft(r: Reader, uuid: Uuid, mid: nat)
    requires Fits(r) && mid < r.artCount && |KeyAt(r, mid)| == UUID_SIZE && KeyAt(r, mid) != uuid
    requires !Before(KeyAt(r, mid), uuid)
    ensures KeysInOrder(r) ==> forall i: nat | mid <= i < r.artCount :: KeyAt(r, i) != uuid
  {
    hide Fits, KeyAt;
    if KeysInOrder(r) {
      forall i: nat | mid < i < r.artCount ensures KeyAt(r, i) != uuid {
        assert Before(KeyAt(r, mid), KeyAt(r, i));
      }
    }
  }

  /** The pixel table as the reader sees it, offsets in 32 bits. */
  function PixelsAt(r: Reader, i: nat): seq<Byte>
    requires Fits(r) && i < r.artCount
  {
    RecordFits(i, r.artCount, r.stride);
    Record(r.file, PixelsStart(r), i, r.stride)
  }

  /** Pixels by index; no index outside the table. */
  method GetPixels(r: Reader, index: int) returns (pixels: Option<seq<Byte>>)
    requires Fits(r)
    ensures pixels == if 0 <= index < r.artCount then Some(PixelsAt(r, index)) else None
  {
    if index < 0 || index >= r.artCount {
      return None;
    }
    RecordFits(index, r.artCount, r.stride);
    var at := PixelsStart(r) + index * r.stride % UINT32;
    pixels := Some(r.file[at..at + r.stride]);
  }

  /** In a written file they are the bytes of the pixel table at the wrapped offset: those of the artist at that
      index as long as the offset fits 32 bits. */
  lemma PixelsRead(r: Reader, art: seq<Entry>, noArt: seq<Uuid>, i: nat)
    requires Fits(r) && Tables(r, art, noArt) && i < |art| == r.artCount
    requires forall k | 0 <= k < |art| :: |art[k].pixels| == r.stride
    ensures var offset := i * r.stride % UINT32;
            offset + r.stride <= |Flat(PixelsOf(art))|
                && PixelsAt(r, i) == Flat(PixelsOf(art))[offset..offset + r.stride]
    ensures i * r.stride < UINT32 ==> PixelsAt(r, i) == art[i].pixels
  {
    hide Flat, Record;
    RecordRead(r.file, PixelsStart(r), PixelsOf(art), r.stride, i);
    RecordAtWrapped(r.file, PixelsStart(r), PixelsOf(art), r.stride, i);
  }

  /** The keys of a written file are in order, and are exactly the artists with artwork. */
  lemma WrittenKeys(r: Reader, a: Atlas, art: seq<Entry>, noArt: seq<Uuid>)
    requires Fits(r) && Tables(r, art, noArt) && |art| * UUID_SIZE <= UINT32
    requires Sorted(KeysOf(art)) && ArtMap(art) == a.art
    requires forall i | 0 <= i < |art| :: |art[i].pixels| == r.stride
    ensures KeysInOrder(r)
    ensures forall i: nat | i < r.artCount :: KeyAt(r, i) == art[i].uuid
    ensures forall u: Uuid :: u in a.art <==> exists i: nat :: i < r.artCount && KeyAt(r, i) == u
  {
    hide Tables, Fits, ArtMap, KeyAt;
    assert r.artCount == |art| by { TableSize(r, art, noArt); }
    forall i: nat | i < r.artCount ensures KeyAt(r, i) == art[i].uuid && KeyAt(r, i) == KeysOf(art)[i] {
      KeyRead(r, art, noArt, i);
    }
    ArtMapKeys(art);
    forall u: Uuid | u in a.art ensures exists i: nat :: i < r.artCount && KeyAt(r, i) == u {
      assert u in KeySet(KeysOf(art));
      var i :| 0 <= i < |KeysOf(art)| && KeysOf(art)[i] == u;
      assert KeyAt(r, i) == u;
    }
    forall u: Uuid | exists i: nat :: i < r.artCount && KeyAt(r, i) == u ensures u in a.art {
      var i: nat :| i < r.artCount && KeyAt(r, i) == u;
      assert KeysOf(art)[i] == u;
      assert u in KeySet(KeysOf(art));
    }
  }

  lemma TableSize(r: Reader, art: seq<Entry>, noArt: seq<Uuid>)
    requires Tables(r, art, noArt)
    ensures r.artCount == |art|
  {
  }

  lemma KeyRead(r: Reader, art: seq<Entry>, noArt: seq<Uuid>, i: nat)
    requires Fits(r) && Tables(r, art, noArt) && i < |art| == r.artCount && |art| * UUID_SIZE <= UINT32
    requires forall k | 0 <= k < |art| :: |art[k].pixels| == r.stride
    ensures KeyAt(r, i) == art[i].uuid
  {
    hide Tables, Record;
    ArtRecordIs(r, art, noArt, i);
  }

  /** A lookup's result for any file: an artist's record as the reader's 32-bit offsets find it; nothing when the
      file does not open or, its keys being in order, has no such key. */
  ghost predicate LookedUp(disk: Option<seq<Byte>>, uuid: Uuid, pixels: Option<seq<Byte>>) {
    var reader := OpenReader(disk);
    if reader.None? then pixels == None
    else
      OpenFits(disk);
      var r := reader.value;
      match pixels
      case Some(p) => exists i: nat :: i < r.artCount && KeyAt(r, i) == uuid && p == PixelsAt(r, i)
      case None => KeysInOrder(r) ==> forall i: nat | i < r.artCount :: KeyAt(r, i) != uuid
  }

  /** Opens the file, searches the artist and reads the pixels. */
  method LookupPixels(disk: Option<seq<Byte>>, uuid: Uuid) returns (pixels: Option<seq<Byte>>)
    ensures LookedUp(disk, uuid, pixels)
  {
    hide OpenReader, Fits, KeyAt, PixelsAt, KeysInOrder;
    var reader := OpenReader(disk);
    if reader.None? {
      return None;
    }
    OpenFits(disk);
    var r := reader.value;
    var index := UuidBinarySearch(r, uuid);
    if index < 0 {
      return None;
    }
    pixels := GetPixels(r, index);
    assert KeyAt(r, index) == uuid && pixels.value == PixelsAt(r, index);
  }

  /** In a file a builder wrote, an artist is found exactly when it has artwork. What is read are its own pixels
      when their offset fits 32 bits, and the bytes at the wrapped offset of the pixel table otherwise. */
  lemma LookupFinds(f: seq<Byte>, a: Atlas, art: seq<Entry>, noArt: seq<Uuid>, uuid: Uuid, pixels: Option<seq<Byte>>)
    returns (i: nat)
    requires EncodesAs(f, a, art, noArt) && Coherent(a) && KeysAddressable(a) && LookedUp(Some(f), uuid, pixels)
    ensures pixels.Some? <==> uuid in a.art
    ensures pixels.Some? ==>
      var w := Stride(a.thumb, CHANNELS);
      var offset := i * w % UINT32;
      && i < |art| && art[i].uuid == uuid && art[i].pixels == a.art[uuid]
      && offset + w <= |Flat(PixelsOf(art))| && pixels.value == Flat(PixelsOf(art))[offset..offset + w]
      && (i * w < UINT32 ==> pixels.value == a.art[uuid])
  {
    hide OpenReader, Fits, Tables, KeyAt, Stride, ArtMap, Coherent, KeysInOrder, Body, Sealed, KeysOf, PixelsAt;
    Written(f, a, art, noArt);
    var r := OpenReader(Some(f)).value;
    WrittenKeys(r, a, art, noArt);
    i := 0;
    if pixels.Some? {
      i :| i < r.artCount && KeyAt(r, i) == uuid && pixels.value == PixelsAt(r, i);
      PixelsRead(r, art, noArt, i);
    }
  }

  /** When every pixel offset fits 32 bits, every artist with artwork gets its own pixels. */
  lemma LookupIsExact(f: seq<Byte>, a: Atlas, uuid: Uuid, pixels: Option<seq<Byte>>)
    requires Encodes(f, a) && Coherent(a) && KeysAddressable(a) && PixelsAddressable(a)
      && LookedUp(Some(f), uuid, pixels)
    ensures pixels == if uuid in a.art then Some(a.art[uuid]) else None
  {
    hide OpenReader, Coherent, Stride, ArtMap, KeysOf, LookedUp;
    var art: seq<Entry>, noArt: seq<Uuid> :| EncodesAs(f, a, art, noArt);
    Written(f, a, art, noArt);
    var i := LookupFinds(f, a, art, noArt, uuid, pixels);
  }

  // ---- Where 32 bits and a checksum are not enough ----

  /** At 48 pixels, a pixel offset is right exactly up to index 621378. */
  lemma FortyEightPixelLimit(i: nat)
    ensures i * Stride(48, CHANNELS) % UINT32 == i * Stride(48, CHANNELS) <==> i <= 621378
  {
    assert Stride(48, CHANNELS) == 6912;
  }

  /** An atlas without artwork, and its file. */
  function Artistless(keys: seq<Uuid>): Atlas {
    Atlas(48, map[], KeySet(keys))
  }

  lemma ArtistlessBody(keys: seq<Uuid>)
    ensures Body(48, [], keys) == Header(0, |keys|, 48) + Le(|keys|) + Flat(keys)
  {
    hide Header, Le;
    assert KeysOf([]) == [] && PixelsOf([]) == [];
    assert Flat([]) == [];
  }

  lemma ArtistlessFile(keys: seq<Uuid>)
    requires Sorted(keys) && |keys| <= 2
    ensures Encodes(Sealed(Body(48, [], keys)), Artistless(keys))
    ensures Coherent(Artistless(keys)) && KeysAddressable(Artistless(keys))
  {
    hide Body, Sealed, KeySet, Sorted, Distinct;
    NothingSorted();
    SortedDistinct(keys);
    KeyCount(keys);
    assert EncodesAs(Sealed(Body(48, [], keys)), Artistless(keys), [], keys);
  }

  lemma NothingSorted()
    ensures Sorted(KeysOf([]))
  {
  }

  /** Files carry the checksum of their bodies. */
  lemma SealedField(body: seq<Byte>)
    ensures var f := Sealed(body); |f| >= CRC32_SIZE && Field(f, |f| - CRC32_SIZE) == Crc(body) as nat
  {
    hide Crc, Sealed, Field;
    SealedIsIntact(body);
  }

  lemma TwoKeys(u: Uuid, w: Uuid)
    requires u[0] < w[0]
    ensures Sorted([u]) && Sorted([u, w])
    ensures Flat([u]) == u && Flat([u, w]) == u + w
    ensures KeySet([u]) == {u} && KeySet([u, w]) == {u, w}
  {
    assert [u][..0] == [];
    assert [u, w][..1] == [u];
    assert KeySet([u, w]) == {u, w};
    assert KeySet([u]) == {u};
  }

  /** From some written file, the artwork phase takes one new artist without artwork and never writes it: the
      file with that artist has the same checksum. */
  lemma ChangeCanBeMissed() returns (f: seq<Byte>, a: Atlas, w: Uuid)
    ensures Encodes(f, a) && Coherent(a) && KeysAddressable(a)
    ensures Sound(Some(f), 48) && AtlasOn(Some(f), 48) == a
    ensures w !in a.art && w !in a.noArt && Dirty([AddNoArt(w)], Stride(48, CHANNELS))
    ensures var b := AddedAll(a, [AddNoArt(w)]);
            w in b.noArt && b != a && !Rewritten(Some(f), 48, [AddNoArt(w)], b)
  {
    hide Crc, Header, Le, Sealed, Field, Body, Encodes, Coherent, KeysAddressable, Sound, AtlasOn, Stride, KeySet,
      Sorted;
    var p: seq<Byte>, q: seq<Byte> := [0, 0, 0, 0, 0, 0, 0, 0, 0, 0, 0, 0], [1, 0, 0, 0, 0, 0, 0, 0, 0, 0, 0, 0];
    var u: Uuid := p + [0, 0, 0, 0];
    var front1, front2 := Header(0, 1, 48) + Le(1), Header(0, 2, 48) + Le(2) + u;
    var v := ChecksumsCanMeet(front1 + p, front2 + q);
    w := q + v;
    assert u[0] == 0 && w[0] == 1;
    TwoKeys(u, w);
    ArtistlessFile([u]);
    ArtistlessFile([u, w]);
    ArtistlessBody([u]);
    ArtistlessBody([u, w]);
    var body1, body2 := Body(48, [], [u]), Body(48, [], [u, w]);
    a := Artistless([u]);
    f := Sealed(body1);
    assert body1 == front1 + p + [0, 0, 0, 0];
    assert body2 == front2 + q + v;
    SealedField(body1);
    SealedField(body2);
    WrittenIsSound(f, a, 48);
    var b := AddedAll(a, [AddNoArt(w)]);
    OneAdd(a, AddNoArt(w));
    assert b == a.(noArt := a.noArt + {w});
    assert b.noArt == {u, w} == KeySet([u, w]);
    assert b == Artistless([u, w]);
    assert w in b.noArt && w !in a.noArt;
    assert SameChecksum(Some(f), Sealed(body2));
  }
}
