// The artist atlas file: header, sorted keys, pixels, known-no-artwork keys and checksum.

module AtlasFormat {
  import opened Crc32

  datatype Option<+T> = None | Some(value: T)

  const UUID_SIZE: nat := 16
  const HEADER_SIZE: nat := 32
  const CRC32_SIZE: nat := 4
  const VERSION: nat := 1
  const CHANNELS: nat := 3
  const UINT32: nat := 0x1_0000_0000

  const MAGIC: seq<Byte> := [0x51, 0x44, 0x41, 0x52]
  const RESERVED: seq<Byte> := [0, 0, 0, 0, 0, 0, 0, 0, 0, 0, 0]

  type Uuid = u: seq<Byte> | |u| == UUID_SIZE witness [0, 0, 0, 0, 0, 0, 0, 0, 0, 0, 0, 0, 0, 0, 0, 0]

  datatype Entry = Entry(uuid: Uuid, pixels: seq<Byte>)

  /** What an atlas says: the pixels of each artist with artwork, and the artists known to have none. */
  datatype Atlas = Atlas(thumb: nat, art: map<Uuid, seq<Byte>>, noArt: set<Uuid>)

  // ---- Key order ----

  /** The byte order of memcmp. */
  predicate Before(a: seq<Byte>, b: seq<Byte>)
    requires |a| == |b|
  {
    a != [] && (a[0] < b[0] || (a[0] == b[0] && Before(a[1..], b[1..])))
  }

  lemma {:induction false} BeforeIrreflexive(a: seq<Byte>)
    ensures !Before(a, a)
  {
    if a != [] {
      BeforeIrreflexive(a[1..]);
    }
  }

  lemma {:induction false} BeforeTransitive(a: seq<Byte>, b: seq<Byte>, c: seq<Byte>)
    requires |a| == |b| == |c| && Before(a, b) && Before(b, c)
    ensures Before(a, c)
  {
    if a[0] == b[0] && b[0] == c[0] {
      BeforeTransitive(a[1..], b[1..], c[1..]);
    }
  }

  lemma {:induction false} BeforeTotal(a: seq<Byte>, b: seq<Byte>)
    requires |a| == |b|
    ensures Before(a, b) || Before(b, a) || a == b
  {
    if a != [] && a[0] == b[0] {
      BeforeTotal(a[1..], b[1..]);
      assert a == [a[0]] + a[1..] && b == [b[0]] + b[1..];
    }
  }

  ghost predicate Sorted(keys: seq<Uuid>) {
    forall i, k | 0 <= i < k < |keys| :: Before(keys[i], keys[k])
  }

  ghost predicate Distinct(keys: seq<Uuid>) {
    forall i, k | 0 <= i < k < |keys| :: keys[i] != keys[k]
  }

  lemma SortedDistinct(keys: seq<Uuid>)
    requires Sorted(keys)
    ensures Distinct(keys)
  {
    forall i, k | 0 <= i < k < |keys| ensures keys[i] != keys[k] {
      BeforeIrreflexive(keys[i]);
    }
  }

  function KeySet(keys: seq<Uuid>): set<Uuid> {
    set k | k in keys
  }

  lemma NoKeys(keys: seq<Uuid>)
    ensures KeySet(keys) == {} <==> keys == []
  {
    if keys != [] {
      assert keys[0] in KeySet(keys);
    }
  }

  /** A set of keys has one sorted listing. */
  lemma {:induction false} SortedUnique(a: seq<Uuid>, b: seq<Uuid>)
    requires Sorted(a) && Sorted(b) && KeySet(a) == KeySet(b)
    ensures a == b
  {
    NoKeys(a);
    NoKeys(b);
    if a != [] {
      assert a[|a| - 1] in KeySet(b);
      assert b[|b| - 1] in KeySet(a);
      LastIsGreatest(a, b[|b| - 1]);
      LastIsGreatest(b, a[|a| - 1]);
      if a[|a| - 1] != b[|b| - 1] {
        BeforeTransitive(a[|a| - 1], b[|b| - 1], a[|a| - 1]);
        BeforeIrreflexive(a[|a| - 1]);
      }
      FrontKeys(a);
      FrontKeys(b);
      SortedUnique(a[..|a| - 1], b[..|b| - 1]);
    }
  }

  lemma LastIsGreatest(a: seq<Uuid>, k: Uuid)
    requires Sorted(a) && k in a
    ensures k == a[|a| - 1] || Before(k, a[|a| - 1])
  {
  }

  lemma FrontKeys(a: seq<Uuid>)
    requires Sorted(a) && a != []
    ensures KeySet(a[..|a| - 1]) == KeySet(a) - {a[|a| - 1]}
  {
    SortedDistinct(a);
  }

  // ---- Entries ----

  function KeysOf(art: seq<Entry>): seq<Uuid> {
    seq(|art|, i requires 0 <= i < |art| => art[i].uuid)
  }

  function PixelsOf(art: seq<Entry>): seq<seq<Byte>> {
    seq(|art|, i requires 0 <= i < |art| => art[i].pixels)
  }

  function ArtMap(art: seq<Entry>): map<Uuid, seq<Byte>> {
    if art == [] then map[] else ArtMap(art[..|art| - 1])[art[|art| - 1].uuid := art[|art| - 1].pixels]
  }

  lemma {:induction false} ArtMapKeys(art: seq<Entry>)
    ensures ArtMap(art).Keys == KeySet(KeysOf(art))
  {
    if art != [] {
      var front := art[..|art| - 1];
      ArtMapKeys(front);
      assert KeysOf(art) == KeysOf(front) + [art[|art| - 1].uuid];
    } else {
      assert KeysOf(art) == [];
    }
  }

  lemma {:induction false} ArtMapAt(art: seq<Entry>, i: nat)
    requires i < |art| && Distinct(KeysOf(art))
    ensures art[i].uuid in ArtMap(art) && ArtMap(art)[art[i].uuid] == art[i].pixels
  {
    var n := |art| - 1;
    if i < n {
      assert Distinct(KeysOf(art[..n])) by {
        assert KeysOf(art[..n]) == KeysOf(art)[..n];
      }
      ArtMapAt(art[..n], i);
      assert KeysOf(art)[i] != KeysOf(art)[n];
    }
  }

  /** Entries in key order are determined by what they say. */
  lemma EntriesUnique(a: seq<Entry>, b: seq<Entry>)
    requires Sorted(KeysOf(a)) && Sorted(KeysOf(b)) && ArtMap(a) == ArtMap(b)
    ensures a == b
  {
    ArtMapKeys(a);
    ArtMapKeys(b);
    SortedUnique(KeysOf(a), KeysOf(b));
    SortedDistinct(KeysOf(a));
    assert |a| == |KeysOf(a)| == |KeysOf(b)| == |b|;
    forall i | 0 <= i < |a| ensures a[i] == b[i] {
      ArtMapAt(a, i);
      ArtMapAt(b, i);
      assert KeysOf(a)[i] == KeysOf(b)[i];
    }
  }

  // ---- Numbers ----

  /** An unsigned 32-bit number, low byte first; the cast to 32 bits wraps. */
  function Le(n: nat): (b: seq<Byte>)
    ensures |b| == 4
  {
    [(n % 256) as bv8, (n / 256 % 256) as bv8, (n / 256 / 256 % 256) as bv8, (n / 256 / 256 / 256 % 256) as bv8]
  }

  function UnLe(b: seq<Byte>): nat
    requires |b| == 4
  {
    (b[0] as nat) + 256 * (b[1] as nat) + 65536 * (b[2] as nat) + 16777216 * (b[3] as nat)
  }

  lemma ByteRoundTrip(n: nat)
    requires n < 256
    ensures (n as bv8) as nat == n
  {
    if n < 128 {
      if n < 64 {
      } else {
      }
    } else {
      if n < 192 {
      } else {
      }
    }
  }

  lemma LeRoundTrip(n: nat)
    ensures UnLe(Le(n)) == n % UINT32
  {
    ByteRoundTrip(n % 256);
    ByteRoundTrip(n / 256 % 256);
    ByteRoundTrip(n / 256 / 256 % 256);
    ByteRoundTrip(n / 256 / 256 / 256 % 256);
    Digits(n);
  }

  lemma Digits(n: nat)
    ensures n % 256 + 256 * (n / 256 % 256) + 65536 * (n / 256 / 256 % 256) + 16777216 * (n / 256 / 256 / 256 % 256)
            == n % UINT32
  {
    var q1 := n / 256;
    var q2 := q1 / 256;
    var q3 := q2 / 256;
    var low := n % 256 + 256 * (q1 % 256) + 65536 * (q2 % 256) + 16777216 * (q3 % 256);
    assert n == UINT32 * (q3 / 256) + low;
    RemainderIs(n, q3 / 256, low);
  }

  lemma RemainderIs(n: nat, q: nat, r: nat)
    requires n == UINT32 * q + r && r < UINT32
    ensures n % UINT32 == r
  {
  }

  // ---- Layout ----

  function Flat(parts: seq<seq<Byte>>): seq<Byte> {
    if parts == [] then [] else Flat(parts[..|parts| - 1]) + parts[|parts| - 1]
  }

  /** Bytes of one thumbnail, in 32-bit arithmetic. */
  function Stride(thumb: nat, channels: nat): nat {
    thumb * thumb * channels % UINT32
  }

  function Header(artCount: nat, noArtCount: nat, thumb: nat): (h: seq<Byte>)
    ensures |h| == HEADER_SIZE
  {
    MAGIC + Le(VERSION) + Le(artCount) + Le(noArtCount) + Le(thumb) + [3] + RESERVED
  }

  function Body(thumb: nat, art: seq<Entry>, noArt: seq<Uuid>): seq<Byte> {
    Header(|art|, |noArt|, thumb) + Flat(KeysOf(art)) + Flat(PixelsOf(art)) + Le(|noArt|) + Flat(noArt)
  }

  function Sealed(body: seq<Byte>): seq<Byte> {
    body + Le(Crc(body) as nat)
  }

  /** `file` is the finished form of the atlas `a`. */
  ghost predicate Encodes(file: seq<Byte>, a: Atlas) {
    exists art: seq<Entry>, noArt: seq<Uuid> :: EncodesAs(file, a, art, noArt)
  }

  ghost predicate EncodesAs(file: seq<Byte>, a: Atlas, art: seq<Entry>, noArt: seq<Uuid>) {
    && Sorted(KeysOf(art)) && ArtMap(art) == a.art
    && Sorted(noArt) && KeySet(noArt) == a.noArt
    && file == Sealed(Body(a.thumb, art, noArt))
  }

  /** The finished bytes depend on nothing but what the atlas says. */
  lemma CanonicalBytes(f: seq<Byte>, g: seq<Byte>, a: Atlas)
    requires Encodes(f, a) && Encodes(g, a)
    ensures f == g
  {
    var art, noArt :| EncodesAs(f, a, art, noArt);
    var art2, noArt2 :| EncodesAs(g, a, art2, noArt2);
    EntriesUnique(art, art2);
    SortedUnique(noArt, noArt2);
  }

  // ---- Reading ----

  /** An opened file: the counts and sizes its header gives. */
  datatype Reader = Reader(file: seq<Byte>, artCount: nat, noArtCount: nat, thumb: nat, channels: nat, stride: nat)

  function Field(file: seq<Byte>, at: nat): nat
    requires at + 4 <= |file|
  {
    UnLe(file[at..at + 4])
  }

  function ExpectedSize(artCount: nat, noArtCount: nat, stride: nat): nat {
    HEADER_SIZE + artCount * UUID_SIZE + artCount * stride + 4 + noArtCount * UUID_SIZE + CRC32_SIZE
  }

  /** The stored checksum is that of everything before it. */
  predicate Intact(file: seq<Byte>)
    requires |file| >= CRC32_SIZE
  {
    Field(file, |file| - CRC32_SIZE) == Crc(file[..|file| - CRC32_SIZE]) as nat
  }

  function HeaderOf(file: seq<Byte>): Reader
    requires |file| >= HEADER_SIZE
  {
    var thumb, channels := Field(file, 16), file[20] as nat;
    Reader(file, Field(file, 8), Field(file, 12), thumb, channels, Stride(thumb, channels))
  }

  /** Magic, version, checksum and size must be right. */
  function OpenReader(file: Option<seq<Byte>>): Option<Reader> {
    if file.None? || |file.value| < HEADER_SIZE + CRC32_SIZE then None
    else if file.value[..4] != MAGIC || Field(file.value, 4) != VERSION then None
    else if !Intact(file.value) then None
    else
      var r := HeaderOf(file.value);
      if |file.value| < ExpectedSize(r.artCount, r.noArtCount, r.stride) then None else Some(r)
  }

  predicate Fits(r: Reader) {
    |r.file| >= ExpectedSize(r.artCount, r.noArtCount, r.stride)
  }

  lemma OpenFits(file: Option<seq<Byte>>)
    requires OpenReader(file).Some?
    ensures Fits(OpenReader(file).value)
  {
  }

  function KeysStart(): nat {
    HEADER_SIZE
  }

  function PixelsStart(r: Reader): nat {
    HEADER_SIZE + r.artCount * UUID_SIZE
  }

  function NoArtStart(r: Reader): nat {
    PixelsStart(r) + r.artCount * r.stride + 4
  }

  /** The `i`-th fixed-width record of the table at `start`, its offset computed in 32 bits. */
  function Record(file: seq<Byte>, start: nat, i: nat, width: nat): seq<Byte>
    requires start + i * width % UINT32 + width <= |file|
  {
    var offset := i * width % UINT32;
    file[start + offset..start + offset + width]
  }

  lemma RecordFits(i: nat, count: nat, width: nat)
    requires i < count
    ensures i * width % UINT32 <= i * width <= i * width + width <= count * width
  {
    assert count * width == i * width + width + (count - i - 1) * width;
    assert (count - i - 1) * width >= 0;
  }

  lemma {:induction false} FlatLength(parts: seq<seq<Byte>>, w: nat)
    requires forall i | 0 <= i < |parts| :: |parts[i]| == w
    ensures |Flat(parts)| == |parts| * w
  {
    if parts != [] {
      FlatLength(parts[..|parts| - 1], w);
      assert |parts| * w == (|parts| - 1) * w + w;
    }
  }

  lemma {:induction false} FlatAt(parts: seq<seq<Byte>>, w: nat, i: nat)
    requires i < |parts| && forall k | 0 <= k < |parts| :: |parts[k]| == w
    ensures i * w + w <= |Flat(parts)| == |parts| * w
    ensures Flat(parts)[i * w..i * w + w] == parts[i]
  {
    var n := |parts| - 1;
    FlatLength(parts, w);
    FlatLength(parts[..n], w);
    RecordFits(i, |parts|, w);
    if i < n {
      FlatAt(parts[..n], w, i);
    }
  }

  lemma SealedIsIntact(body: seq<Byte>)
    ensures Intact(Sealed(body)) && |Sealed(body)| == |body| + CRC32_SIZE
    ensures Sealed(body)[..|body|] == body
  {
    var file := Sealed(body);
    assert file[|body|..] == file[|body|..|body| + 4] == Le(Crc(body) as nat);
    LeRoundTrip(Crc(body) as nat);
    WordSize(Crc(body));
  }

  lemma WordSize(c: bv32)
    ensures c as nat < UINT32 && c as nat % UINT32 == c as nat
  {
  }

  lemma HeaderSlices(a: seq<Byte>, b: seq<Byte>, c: seq<Byte>, d: seq<Byte>, rest: seq<Byte>)
    requires |a| == |b| == |c| == |d| == 4
    ensures var f := MAGIC + a + b + c + d + [3] + RESERVED + rest;
            f[..4] == MAGIC && f[4..8] == a && f[8..12] == b && f[12..16] == c && f[16..20] == d && f[20] == 3
  {
  }

  lemma HeaderFields(artCount: nat, noArtCount: nat, thumb: nat, rest: seq<Byte>)
    requires artCount < UINT32 && noArtCount < UINT32 && thumb < UINT32
    ensures var f := Header(artCount, noArtCount, thumb) + rest;
            && f[..4] == MAGIC && Field(f, 4) == VERSION && Field(f, 8) == artCount && Field(f, 12) == noArtCount
            && Field(f, 16) == thumb && f[20] == 3
  {
    hide Le, UnLe;
    HeaderSlices(Le(VERSION), Le(artCount), Le(noArtCount), Le(thumb), rest);
    LeRoundTrip(VERSION);
    LeRoundTrip(artCount);
    LeRoundTrip(noArtCount);
    LeRoundTrip(thumb);
  }

  /** A file the builder wrote opens, with the counts and sizes it was written with. */
  lemma WrittenOpens(thumb: nat, art: seq<Entry>, noArt: seq<Uuid>)
    requires |art| < UINT32 && |noArt| < UINT32 && thumb < UINT32
    requires forall i | 0 <= i < |art| :: |art[i].pixels| == Stride(thumb, CHANNELS)
    ensures var f := Sealed(Body(thumb, art, noArt));
            OpenReader(Some(f)) == Some(Reader(f, |art|, |noArt|, thumb, CHANNELS, Stride(thumb, CHANNELS)))
  {
    hide Crc, Le, UnLe, Stride, Flat, Header, Intact;
    var body, stride := Body(thumb, art, noArt), Stride(thumb, CHANNELS);
    FlatLength(KeysOf(art), UUID_SIZE);
    FlatLength(PixelsOf(art), stride);
    FlatLength(noArt, UUID_SIZE);
    SealedIsIntact(body);
    var rest := Flat(KeysOf(art)) + Flat(PixelsOf(art)) + Le(|noArt|) + Flat(noArt) + Le(Crc(body) as nat);
    HeaderFields(|art|, |noArt|, thumb, rest);
    assert Sealed(body) == Header(|art|, |noArt|, thumb) + rest;
    ChannelByte(Sealed(body)[20]);
  }

  lemma ChannelByte(b: Byte)
    requires b == 3
    ensures b as nat == CHANNELS
  {
  }

  /** The tables of an opened file, in the order of the given entries and keys. */
  ghost predicate Tables(r: Reader, art: seq<Entry>, noArt: seq<Uuid>) {
    && r.artCount == |art| && r.noArtCount == |noArt|
    && |r.file| == ExpectedSize(r.artCount, r.noArtCount, r.stride)
    && r.file[KeysStart()..PixelsStart(r)] == Flat(KeysOf(art))
    && r.file[PixelsStart(r)..PixelsStart(r) + r.artCount * r.stride] == Flat(PixelsOf(art))
    && r.file[NoArtStart(r)..NoArtStart(r) + r.noArtCount * UUID_SIZE] == Flat(noArt)
  }

  /** The key table, pixel table and no-art table of a written file hold what was written. */
  lemma WrittenTables(thumb: nat, art: seq<Entry>, noArt: seq<Uuid>)
    requires forall i | 0 <= i < |art| :: |art[i].pixels| == Stride(thumb, CHANNELS)
    ensures Tables(Reader(Sealed(Body(thumb, art, noArt)), |art|, |noArt|, thumb, CHANNELS, Stride(thumb, CHANNELS)),
                   art, noArt)
  {
    hide Crc, Le, Stride, Flat, Header;
    var s := Stride(thumb, CHANNELS);
    FlatLength(KeysOf(art), UUID_SIZE);
    FlatLength(PixelsOf(art), s);
    FlatLength(noArt, UUID_SIZE);
    var body := Body(thumb, art, noArt);
    var h, k, p, n, u, c :=
      Header(|art|, |noArt|, thumb), Flat(KeysOf(art)), Flat(PixelsOf(art)), Le(|noArt|), Flat(noArt),
      Le(Crc(body) as nat);
    Pieces(h, k, p, n, u, c);
    assert Sealed(body) == h + k + p + n + u + c;
  }

  lemma Pieces(h: seq<Byte>, k: seq<Byte>, p: seq<Byte>, n: seq<Byte>, u: seq<Byte>, c: seq<Byte>)
    ensures var f := h + k + p + n + u + c;
            && f[|h|..|h| + |k|] == k
            && f[|h| + |k|..|h| + |k| + |p|] == p
            && f[|h| + |k| + |p| + |n|..|h| + |k| + |p| + |n| + |u|] == u
  {
  }

  lemma Within(f: seq<Byte>, start: nat, t: seq<Byte>, i: nat, k: nat)
    requires start + |t| <= |f| && f[start..start + |t|] == t && i <= k <= |t|
    ensures f[start + i..start + k] == t[i..k]
  {
    forall j | 0 <= j < k - i ensures f[start + i..start + k][j] == t[i..k][j] {
      assert t[i + j] == f[start..start + |t|][i + j];
    }
  }

  /** Reading record `i` back. The offset is exact exactly when it fits into 32 bits. */
  lemma RecordRead(f: seq<Byte>, start: nat, parts: seq<seq<Byte>>, w: nat, i: nat)
    requires i < |parts| && forall k | 0 <= k < |parts| :: |parts[k]| == w
    requires start + |parts| * w <= |f| && f[start..start + |parts| * w] == Flat(parts)
    ensures start + i * w % UINT32 + w <= |f|
    ensures i * w % UINT32 == i * w <==> i * w < UINT32
    ensures i * w < UINT32 ==> Record(f, start, i, w) == parts[i]
  {
    hide Flat;
    RecordFits(i, |parts|, w);
    FlatAt(parts, w, i);
    Within(f, start, Flat(parts), i * w, i * w + w);
  }

  /** Whatever the offset, a record read is the slice of the table at the wrapped offset. */
  lemma RecordAtWrapped(f: seq<Byte>, start: nat, parts: seq<seq<Byte>>, w: nat, i: nat)
    requires i < |parts| && forall k | 0 <= k < |parts| :: |parts[k]| == w
    requires start + |parts| * w <= |f| && f[start..start + |parts| * w] == Flat(parts)
    ensures var offset := i * w % UINT32;
            && start + offset + w <= |f| && offset + w <= |Flat(parts)|
            && Record(f, start, i, w) == Flat(parts)[offset..offset + w]
  {
    hide Flat;
    RecordFits(i, |parts|, w);
    FlatLength(parts, w);
    var offset := i * w % UINT32;
    Within(f, start, Flat(parts), offset, offset + w);
  }
}
