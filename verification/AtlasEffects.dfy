// What additions make of an atlas, artist by artist, through the file to the reader; which files open; and which
// damage is noticed.

module AtlasEffects {
  import opened Crc32
  import opened AtlasFormat
  import opened ArtistAtlas
  import opened AtlasBuilder

  // ---- Additions ----

  /** Artwork of the right size becomes the artist's, which then is not listed without artwork; of another size it
      changes nothing. "No artwork" lists an artist that has none, and changes nothing for one that has some. */
  lemma AddTakesEffect(a: Atlas, u: Uuid, p: seq<Byte>)
    ensures var b := Added(a, AddArt(u, p));
            if |p| == Stride(a.thumb, CHANNELS) then u in b.art && b.art[u] == p && u !in b.noArt && b.thumb == a.thumb
            else b == a
    ensures var b := Added(a, AddNoArt(u));
            if u in a.art then b == a else u in b.noArt && b.art == a.art && b.thumb == a.thumb
  {
  }

  /** The pixels of the last accepted artwork for the artist. */
  function LastArt(adds: seq<Add>, u: Uuid, stride: nat): Option<seq<Byte>> {
    if adds == [] then None
    else
      var last := adds[|adds| - 1];
      if last.AddArt? && last.uuid == u && |last.pixels| == stride then Some(last.pixels)
      else LastArt(adds[..|adds| - 1], u, stride)
  }

  /** Any additions, artist by artist: the last accepted artwork is the artist's; without one it keeps what it had; and
      it is listed without artwork exactly if it has none and was listed or was added so. */
  lemma {:induction false} AddsAre(a: Atlas, adds: seq<Add>, u: Uuid)
    requires Coherent(a)
    ensures var b, last := AddedAll(a, adds), LastArt(adds, u, Stride(a.thumb, CHANNELS));
            && b.thumb == a.thumb
            && (last.Some? ==> u in b.art && b.art[u] == last.value)
            && (last.None? ==> (u in b.art <==> u in a.art) && (u in a.art ==> b.art[u] == a.art[u]))
            && (u in b.noArt <==> u !in b.art && (u in a.noArt || AddNoArt(u) in adds))
  {
    hide Stride;
    if adds != [] {
      var front, last := adds[..|adds| - 1], adds[|adds| - 1];
      AddsAre(a, front, u);
      AddsKeepCoherent(a, front);
      assert adds == front + [last];
    }
  }

  /** Additions of which none is accepted change nothing, so that nothing needs to be written. */
  lemma {:induction false} NotDirtyIsSame(a: Atlas, adds: seq<Add>)
    ensures !Dirty(adds, Stride(a.thumb, CHANNELS)) ==> AddedAll(a, adds) == a
  {
    hide Stride;
    if adds != [] {
      NotDirtyIsSame(a, adds[..|adds| - 1]);
    }
  }

  /** From the disk to the screen: in the file the artwork phase leaves, the reader finds for each artist the last
      artwork that was accepted, or what the artist had before. */
  lemma NewFileIsRead(disk: Option<seq<Byte>>, thumb: nat, adds: seq<Add>, f: seq<Byte>, u: Uuid,
                      pixels: Option<seq<Byte>>)
    requires Sound(disk, thumb)
    requires var b := AddedAll(AtlasOn(disk, thumb), adds);
             Encodes(f, b) && KeysAddressable(b) && PixelsAddressable(b) && LookedUp(Some(f), u, pixels)
    ensures var a, last := AtlasOn(disk, thumb), LastArt(adds, u, Stride(thumb, CHANNELS));
            pixels == if last.Some? then last else if u in a.art then Some(a.art[u]) else None
  {
    hide Encodes, KeysAddressable, PixelsAddressable, LookedUp, Sound, Stride, Coherent, LastArt, AddedAll;
    var a := AtlasOn(disk, thumb);
    SoundIsCoherent(disk, thumb);
    assert a.thumb == thumb by { LoadedThumb(disk, thumb); }
    hide AtlasOn;
    AddsKeepCoherent(a, adds);
    AddsAre(a, adds, u);
    LookupIsExact(f, AddedAll(a, adds), u, pixels);
  }

  lemma LoadedThumb(disk: Option<seq<Byte>>, thumb: nat)
    ensures AtlasOn(disk, thumb).thumb == thumb
  {
    hide Loaded, ArtMap, KeySet;
  }

  // ---- Which files open ----

  /** The number in four bytes, low byte first. */
  function Number(f: seq<Byte>, at: nat): nat
    requires at + 4 <= |f|
  {
    (f[at] as nat) + 0x100 * (f[at + 1] as nat) + 0x1_0000 * (f[at + 2] as nat) + 0x100_0000 * (f[at + 3] as nat)
  }

  /** Letters and version, sizes and checksum of a file are right, byte by byte. */
  ghost predicate Readable(f: seq<Byte>) {
    && |f| >= 36
    && f[0] == 0x51 && f[1] == 0x44 && f[2] == 0x41 && f[3] == 0x52
    && f[4] == 1 && f[5] == 0 && f[6] == 0 && f[7] == 0
    && Number(f, |f| - 4) == Crc(f[..|f| - 4]) as nat
    && var stride := Number(f, 16) * Number(f, 16) * (f[20] as nat) % 0x1_0000_0000;
       |f| >= 32 + Number(f, 8) * (16 + stride) + 4 + Number(f, 12) * 16 + 4
  }

  lemma FieldIs(f: seq<Byte>, at: nat)
    requires at + 4 <= |f|
    ensures Field(f, at) == Number(f, at)
  {
  }

  lemma VersionIs(f: seq<Byte>)
    requires |f| >= 8
    ensures Field(f, 4) == 1 <==> f[4] == 1 && f[5] == 0 && f[6] == 0 && f[7] == 0
  {
    FieldIs(f, 4);
    ByteOne(f[4], f[5], f[6], f[7]);
  }

  lemma ByteOne(a: Byte, b: Byte, c: Byte, d: Byte)
    ensures (a as nat) + 0x100 * (b as nat) + 0x1_0000 * (c as nat) + 0x100_0000 * (d as nat) == 1
      <==> a == 1 && b == 0 && c == 0 && d == 0
  {
    ZeroByte(b);
    ZeroByte(c);
    ZeroByte(d);
    OneByte(a);
  }

  lemma ZeroByte(b: Byte)
    ensures b as nat == 0 <==> b == 0
  {
  }

  lemma OneByte(b: Byte)
    ensures b as nat == 1 <==> b == 1
  {
  }

  lemma MagicIs(f: seq<Byte>)
    requires |f| >= 4
    ensures f[..4] == MAGIC <==> f[0] == 0x51 && f[1] == 0x44 && f[2] == 0x41 && f[3] == 0x52
  {
    var m := f[..4];
    assert m[0] == f[0] && m[1] == f[1] && m[2] == f[2] && m[3] == f[3];
  }

  lemma SizeIs(a: nat, n: nat, stride: nat)
    ensures ExpectedSize(a, n, stride) == 32 + a * (16 + stride) + 4 + n * 16 + 4
  {
  }

  /** A file opens exactly if it is readable, and then has the counts and sizes of its header. */
  lemma OpensIff(f: seq<Byte>)
    ensures OpenReader(Some(f)).Some? <==> Readable(f)
    ensures Readable(f) ==>
      OpenReader(Some(f)).value == Reader(f, Number(f, 8), Number(f, 12), Number(f, 16), f[20] as nat,
                                          Number(f, 16) * Number(f, 16) * (f[20] as nat) % 0x1_0000_0000)
  {
    hide Crc, Number, Field, ExpectedSize;
    if |f| >= 36 {
      MagicIs(f);
      VersionIs(f);
      FieldIs(f, 8);
      FieldIs(f, 12);
      FieldIs(f, 16);
      FieldIs(f, |f| - 4);
      SizeIs(Number(f, 8), Number(f, 12), Number(f, 16) * Number(f, 16) * (f[20] as nat) % 0x1_0000_0000);
    }
  }

  /** Damage of up to four neighbouring bytes before the checksum is always noticed: the file does not open. */
  lemma DamageIsNoticed(before: seq<Byte>, x: seq<Byte>, y: seq<Byte>, after: seq<Byte>, sum: seq<Byte>)
    requires |x| == |y| <= 4 && |sum| == 4 && x != y
    requires OpenReader(Some(before + x + after + sum)).Some?
    ensures OpenReader(Some(before + y + after + sum)).None?
  {
    var good, bad := before + x + after, before + y + after;
    ShortChangesShow(before, x, y, after);
    hide Crc, HeaderOf, Field, Fits;
    SealIs(good, sum);
    SealIs(bad, sum);
    SameWord(Crc(good), Crc(bad));
  }

  lemma SealIs(body: seq<Byte>, sum: seq<Byte>)
    requires |sum| == 4
    ensures Intact(body + sum) <==> UnLe(sum) == Crc(body) as nat
  {
    hide Crc, UnLe;
    assert (body + sum)[|body|..|body| + 4] == sum && (body + sum)[..|body|] == body;
  }

  lemma WordBack(a: bv32)
    ensures (a as nat) as bv32 == a
  {
  }

  lemma SameWord(a: bv32, b: bv32)
    ensures a as nat == b as nat <==> a == b
  {
    WordBack(a);
    WordBack(b);
  }

  // ---- Where everything stands ----

  /** Keys are ordered by their first differing byte. */
  lemma {:induction false} BeforeIff(a: seq<Byte>, b: seq<Byte>)
    requires |a| == |b|
    ensures Before(a, b) <==> exists i: nat :: i < |a| && a[..i] == b[..i] && a[i] < b[i]
  {
    if a != [] {
      BeforeIff(a[1..], b[1..]);
      if a[0] < b[0] {
        assert a[..0] == b[..0];
      }
      if a[0] == b[0] && Before(a[1..], b[1..]) {
        var i: nat :| i < |a| - 1 && a[1..][..i] == b[1..][..i] && a[1..][i] < b[1..][i];
        assert a[..i + 1] == [a[0]] + a[1..][..i] && b[..i + 1] == [b[0]] + b[1..][..i];
        assert a[i + 1] < b[i + 1];
      }
      if i: nat :| i < |a| && a[..i] == b[..i] && a[i] < b[i] {
        if i > 0 {
          assert a[0] == a[..i][0] == b[..i][0] == b[0];
          assert a[1..][..i - 1] == a[..i][1..] && b[1..][..i - 1] == b[..i][1..];
          assert a[1..][i - 1] < b[1..][i - 1];
        }
      }
    }
  }

  /** `data` stands at byte `at`. */
  predicate Holds(f: seq<Byte>, at: nat, data: seq<Byte>) {
    at + |data| <= |f| && f[at..at + |data|] == data
  }

  /** The tables of a file with `n` thumbnails of `w` bytes: the keys from byte 32 on, the pixels in the order of
      the keys, a count, and the keys of the artists without artwork. */
  ghost predicate LaidOut(f: seq<Byte>, art: seq<Entry>, noArt: seq<Uuid>, w: nat) {
    && |f| == 32 + 16 * |art| + w * |art| + 4 + 16 * |noArt| + 4
    && (forall i: nat | i < |art| ::
          Holds(f, 32 + 16 * i, art[i].uuid) && Holds(f, 32 + 16 * |art| + w * i, art[i].pixels))
    && (forall i: nat | i < |noArt| :: Holds(f, 32 + 16 * |art| + w * |art| + 4 + 16 * i, noArt[i]))
  }

  /** A written file, byte by byte: the sorted tables where they belong, and letters, version, counts, size and
      channels in the header. */
  lemma FileLayout(f: seq<Byte>, a: Atlas, art: seq<Entry>, noArt: seq<Uuid>)
    requires EncodesAs(f, a, art, noArt) && Coherent(a) && KeysAddressable(a)
    ensures Sorted(KeysOf(art)) && Sorted(noArt) && |art| == |a.art| && |noArt| == |a.noArt|
    ensures LaidOut(f, art, noArt, a.thumb * a.thumb * 3 % 0x1_0000_0000)
    ensures Readable(f) && Number(f, 8) == |art| && Number(f, 12) == |noArt| && Number(f, 16) == a.thumb && f[20] == 3
  {
    Written(f, a, art, noArt);
    OpensIff(f);
    LayoutOf(Reader(f, |art|, |noArt|, a.thumb, CHANNELS, Stride(a.thumb, CHANNELS)), art, noArt);
    hide Crc, OpenReader, Readable, Number, LaidOut, Tables, Coherent;
    if Readable(f) {
      ThreeChannels(f[20]);
    }
  }

  lemma LayoutOf(r: Reader, art: seq<Entry>, noArt: seq<Uuid>)
    requires Tables(r, art, noArt) && forall k | 0 <= k < |art| :: |art[k].pixels| == r.stride
    ensures LaidOut(r.file, art, noArt, r.stride)
  {
    hide Flat, Holds, Tables;
    SizeOf(r, art, noArt);
    forall i: nat | i < |art|
      ensures Holds(r.file, 32 + 16 * i, art[i].uuid)
      ensures Holds(r.file, 32 + 16 * |art| + r.stride * i, art[i].pixels)
    {
      ArtLayout(r, art, noArt, i);
    }
    forall i: nat | i < |noArt| ensures Holds(r.file, 32 + 16 * |art| + r.stride * |art| + 4 + 16 * i, noArt[i]) {
      NoArtLayout(r, art, noArt, i);
    }
  }

  lemma SizeOf(r: Reader, art: seq<Entry>, noArt: seq<Uuid>)
    requires Tables(r, art, noArt)
    ensures |r.file| == 32 + 16 * |art| + r.stride * |art| + 4 + 16 * |noArt| + 4
  {
    hide Flat;
  }

  /** Part `i` of a table of parts that are `w` bytes wide. */
  lemma PartHolds(f: seq<Byte>, at: nat, parts: seq<seq<Byte>>, w: nat, i: nat)
    requires i < |parts| && (forall k | 0 <= k < |parts| :: |parts[k]| == w)
    requires at + |parts| * w <= |f| && f[at..at + |parts| * w] == Flat(parts)
    ensures Holds(f, at + w * i, parts[i])
  {
    FlatAt(parts, w, i);
    hide Flat;
    Inside(f, at, Flat(parts), i * w, w);
    assert i * w == w * i;
  }

  lemma ArtLayout(r: Reader, art: seq<Entry>, noArt: seq<Uuid>, i: nat)
    requires Tables(r, art, noArt) && i < |art| && forall k | 0 <= k < |art| :: |art[k].pixels| == r.stride
    ensures Holds(r.file, 32 + 16 * i, art[i].uuid)
    ensures Holds(r.file, 32 + 16 * |art| + r.stride * i, art[i].pixels)
  {
    hide Flat, Holds;
    PartHolds(r.file, 32, KeysOf(art), 16, i);
    PartHolds(r.file, 32 + |art| * 16, PixelsOf(art), r.stride, i);
  }

  lemma NoArtLayout(r: Reader, art: seq<Entry>, noArt: seq<Uuid>, i: nat)
    requires Tables(r, art, noArt) && i < |noArt|
    ensures Holds(r.file, 32 + 16 * |art| + r.stride * |art| + 4 + 16 * i, noArt[i])
  {
    hide Flat, Holds;
    PartHolds(r.file, 32 + |art| * 16 + |art| * r.stride + 4, noArt, 16, i);
  }

  lemma ThreeChannels(b: Byte)
    ensures b as nat == 3 <==> b == 3
  {
  }

  lemma Inside(f: seq<Byte>, at: nat, table: seq<Byte>, from: nat, w: nat)
    requires at + |table| <= |f| && f[at..at + |table|] == table && from + w <= |table|
    ensures f[at + from..at + from + w] == table[from..from + w]
  {
    var x := f[at + from..at + from + w];
    forall k | 0 <= k < w ensures x[k] == table[from..from + w][k] {
      assert table[from + k] == f[at..at + |table|][from + k] == f[at + from + k];
    }
  }

  // ---- The checksum ----

  /** The checksums of nothing and of one zero byte. */
  lemma ShortChecksums()
    ensures Crc([]) == 0 && Crc([0]) == 0xD202EF8D
  {
    assert Steps(INIT, 0) == INIT;
    assert Steps(INIT, 1) == 0x92477CDF;
    assert Steps(INIT, 2) == 0xA49B3D4F;
    assert Steps(INIT, 3) == 0xBFF51D87;
    assert Steps(INIT, 4) == 0xB2420DE3;
    assert Steps(INIT, 5) == 0xB49985D1;
    assert Steps(INIT, 6) == 0xB7F441C8;
    assert Steps(INIT, 7) == 0x5BFA20E4;
    assert Steps(INIT, 8) == 0x2DFD1072;
    assert [0 as Byte][..0] == [];
    assert Xor(INIT, Wide(0)) == INIT;
    assert Update(INIT, []) == INIT;
    assert Update(INIT, [0]) == ByteStep(INIT, 0);
  }
}
