// The checksum at the end of an atlas file: CRC-32 as in section 8 of RFC 1952, computed
// through a table that is filled on first use.

module Crc32 {

  type Byte = bv8

  const POLYNOMIAL: bv32 := 0xEDB88320
  const INIT: bv32 := 0xFFFFFFFF

  // ---- The bit-serial definition ----

  function Xor(a: bv32, b: bv32): bv32 {
    a ^ b
  }

  function Wide(b: Byte): bv32 {
    b as bv32
  }

  function LowByte(c: bv32): bv32 {
    c & 0xFF
  }

  function HighBytes(c: bv32): bv32 {
    c & 0xFFFFFF00
  }

  /** The word one byte further down. */
  function Down(c: bv32): bv32 {
    c >> 8
  }

  /** One division step by the reflected polynomial. */
  function BitStep(c: bv32): bv32 {
    if c & 1 == 1 then POLYNOMIAL ^ (c >> 1) else c >> 1
  }

  function Steps(c: bv32, k: nat): bv32 {
    if k == 0 then c else BitStep(Steps(c, k - 1))
  }

  /** A byte enters at the low end and is divided out bit by bit. */
  function ByteStep(crc: bv32, b: Byte): bv32 {
    Steps(Xor(crc, Wide(b)), 8)
  }

  function Update(crc: bv32, data: seq<Byte>): bv32 {
    if data == [] then crc else ByteStep(Update(crc, data[..|data| - 1]), data[|data| - 1])
  }

  function Crc(data: seq<Byte>): bv32 {
    Xor(Update(INIT, data), 0xFFFFFFFF)
  }

  // ---- Exclusive or ----

  lemma XorAssoc(a: bv32, b: bv32, c: bv32)
    ensures Xor(Xor(a, b), c) == Xor(a, Xor(b, c))
  {
  }

  lemma XorCancels(a: bv32, b: bv32, c: bv32)
    ensures Xor(a, c) == Xor(b, c) <==> a == b
    ensures Xor(c, a) == Xor(c, b) <==> a == b
  {
  }

  lemma XorBack(a: bv32, b: bv32)
    ensures Xor(b, Xor(a, b)) == a && Xor(a, 0) == a
  {
  }

  // ---- The division steps are linear and invertible ----

  predicate Odd(c: bv32) {
    c & 1 == 1
  }

  function Half(c: bv32): bv32 {
    c >> 1
  }

  lemma StepByParity(c: bv32)
    ensures BitStep(c) == if Odd(c) then Xor(POLYNOMIAL, Half(c)) else Half(c)
  {
  }

  lemma HalfLinear(a: bv32, b: bv32)
    ensures Half(Xor(a, b)) == Xor(Half(a), Half(b))
  {
  }

  lemma ParityLinear(a: bv32, b: bv32)
    ensures Odd(Xor(a, b)) <==> Odd(a) != Odd(b)
  {
  }

  lemma XorTwice(a: bv32, b: bv32)
    ensures Xor(a, b) == Xor(b, a) && Xor(a, Xor(a, b)) == b
  {
  }

  lemma XorMoves(a: bv32, b: bv32, p: bv32)
    ensures Xor(Xor(p, a), Xor(p, b)) == Xor(a, b)
    ensures Xor(Xor(p, a), b) == Xor(p, Xor(a, b))
    ensures Xor(a, Xor(p, b)) == Xor(p, Xor(a, b))
  {
    hide Xor;
    XorAssoc(p, a, b);
    XorAssoc(a, p, b);
    XorTwice(a, p);
    XorAssoc(p, a, Xor(p, b));
    XorTwice(p, Xor(a, b));
  }

  lemma BitStepLinear(a: bv32, b: bv32)
    ensures BitStep(Xor(a, b)) == Xor(BitStep(a), BitStep(b))
  {
    hide Xor, BitStep, Odd, Half;
    StepByParity(a);
    StepByParity(b);
    StepByParity(Xor(a, b));
    HalfLinear(a, b);
    ParityLinear(a, b);
    XorMoves(Half(a), Half(b), POLYNOMIAL);
  }

  lemma {:induction false} StepsLinear(a: bv32, b: bv32, k: nat)
    ensures Steps(Xor(a, b), k) == Xor(Steps(a, k), Steps(b, k))
  {
    hide Xor, BitStep;
    if k != 0 {
      StepsLinear(a, b, k - 1);
      BitStepLinear(Steps(a, k - 1), Steps(b, k - 1));
    }
  }

  lemma BitStepInjective(a: bv32, b: bv32)
    requires BitStep(a) == BitStep(b)
    ensures a == b
  {
  }

  lemma {:induction false} StepsInjective(a: bv32, b: bv32, k: nat)
    requires Steps(a, k) == Steps(b, k)
    ensures a == b
  {
    hide BitStep;
    if k != 0 {
      BitStepInjective(Steps(a, k - 1), Steps(b, k - 1));
      StepsInjective(a, b, k - 1);
    }
  }

  lemma EightSteps(c: bv32)
    ensures Steps(c, 8) == BitStep(BitStep(BitStep(BitStep(BitStep(BitStep(BitStep(BitStep(c))))))))
  {
    hide BitStep;
    assert Steps(c, 1) == BitStep(c);
    assert Steps(c, 2) == BitStep(BitStep(c));
    assert Steps(c, 4) == BitStep(BitStep(Steps(c, 2)));
    assert Steps(c, 6) == BitStep(BitStep(Steps(c, 4)));
  }

  lemma ShiftedOut(h: bv32)
    requires h & 0xFF == 0
    ensures BitStep(BitStep(BitStep(BitStep(BitStep(BitStep(BitStep(BitStep(h)))))))) == h >> 8
  {
  }

  /** Eight steps of a word whose low byte is zero only shift it. */
  lemma HighByteSteps(h: bv32)
    requires LowByte(h) == 0
    ensures Steps(h, 8) == Down(h)
  {
    hide BitStep;
    EightSteps(h);
    ShiftedOut(h);
  }

  lemma LowAndHigh(c: bv32)
    ensures Xor(LowByte(c), HighBytes(c)) == c
    ensures LowByte(HighBytes(c)) == 0 && Down(HighBytes(c)) == Down(c)
  {
  }

  lemma ByteShiftsOut(crc: bv32, b: Byte)
    ensures Down(Xor(crc, Wide(b))) == Down(crc)
  {
  }

  /** One table lookup does eight bit-steps. */
  lemma TableStep(crc: bv32, b: Byte)
    ensures Xor(Steps(LowByte(Xor(crc, Wide(b))), 8), Down(crc)) == ByteStep(crc, b)
  {
    hide Xor, BitStep, Steps, Wide, LowByte, HighBytes, Down;
    var c := Xor(crc, Wide(b));
    LowAndHigh(c);
    ByteShiftsOut(crc, b);
    StepsLinear(LowByte(c), HighBytes(c), 8);
    HighByteSteps(HighBytes(c));
  }

  // ---- Incremental and one-shot ----

  lemma {:induction false} UpdateAppend(crc: bv32, a: seq<Byte>, b: seq<Byte>)
    ensures Update(crc, a + b) == Update(Update(crc, a), b)
  {
    hide ByteStep;
    if b == [] {
      assert a + b == a;
    } else {
      assert (a + b)[..|a + b| - 1] == a + b[..|b| - 1];
      UpdateAppend(crc, a, b[..|b| - 1]);
    }
  }

  // ---- What the checksum detects ----

  lemma {:induction false} UpdateInjective(c1: bv32, c2: bv32, data: seq<Byte>)
    requires Update(c1, data) == Update(c2, data)
    ensures c1 == c2
  {
    hide Xor, BitStep, Steps, Wide;
    if data != [] {
      var front, b := data[..|data| - 1], Wide(data[|data| - 1]);
      StepsInjective(Xor(Update(c1, front), b), Xor(Update(c2, front), b), 8);
      XorCancels(Update(c1, front), Update(c2, front), b);
      UpdateInjective(c1, c2, front);
    }
  }

  /** A byte `k` places up in a word. */
  function At1(b: Byte): bv32 { b as bv32 << 8 }
  function At2(b: Byte): bv32 { b as bv32 << 16 }
  function At3(b: Byte): bv32 { b as bv32 << 24 }

  /** Four bytes as a word, the first one lowest. */
  function Word(d: seq<Byte>): bv32
    requires |d| == 4
  {
    Xor(Xor(Xor(Wide(d[0]), At1(d[1])), At2(d[2])), At3(d[3]))
  }

  function WordBytes(w: bv32): (d: seq<Byte>)
    ensures |d| == 4
  {
    [(w & 0xFF) as bv8, ((w >> 8) & 0xFF) as bv8, ((w >> 16) & 0xFF) as bv8, ((w >> 24) & 0xFF) as bv8]
  }

  lemma WordRoundTrip(w: bv32)
    ensures Word(WordBytes(w)) == w
  {
  }

  lemma WordParts(a: Byte, b: Byte, c: Byte, d: Byte)
    ensures var w := Xor(Xor(Xor(Wide(a), At1(b)), At2(c)), At3(d));
            (w & 0xFF) as bv8 == a && ((w >> 8) & 0xFF) as bv8 == b
            && ((w >> 16) & 0xFF) as bv8 == c && ((w >> 24) & 0xFF) as bv8 == d
  {
  }

  lemma WordInjective(d: seq<Byte>, e: seq<Byte>)
    requires |d| == |e| == 4 && Word(d) == Word(e)
    ensures d == e
  {
    hide Xor, At1, At2, At3, Wide;
    WordParts(d[0], d[1], d[2], d[3]);
    WordParts(e[0], e[1], e[2], e[3]);
  }

  /** Entering a byte after eight steps is entering it eight bits higher before them. */
  lemma EnterEarlier(c: bv32, x: bv32, y: bv32)
    requires LowByte(x) == 0 && y == Down(x)
    ensures Xor(Steps(c, 8), y) == Steps(Xor(c, x), 8)
  {
    hide Xor, BitStep, Steps, LowByte, Down;
    StepsLinear(c, x, 8);
    HighByteSteps(x);
  }

  lemma ByteShifts(b: Byte)
    ensures LowByte(At1(b)) == 0 && Down(At1(b)) == Wide(b)
    ensures LowByte(At2(b)) == 0 && Down(At2(b)) == At1(b)
    ensures LowByte(At3(b)) == 0 && Down(At3(b)) == At2(b)
  {
  }

  lemma OneByOne(crc: bv32, d: seq<Byte>)
    requires |d| == 4
    ensures Update(crc, d) == ByteStep(ByteStep(ByteStep(ByteStep(crc, d[0]), d[1]), d[2]), d[3])
  {
    hide ByteStep;
    assert d[..3][..2] == d[..2] && d[..2][..1] == d[..1] && d[..1][..0] == [];
    assert Update(crc, d[..1]) == ByteStep(crc, d[0]);
    assert Update(crc, d[..2]) == ByteStep(Update(crc, d[..1]), d[1]);
    assert Update(crc, d[..3]) == ByteStep(Update(crc, d[..2]), d[2]);
  }

  /** Four bytes entered one by one are the word entered at once. */
  lemma FourBytes(crc: bv32, d: seq<Byte>)
    requires |d| == 4
    ensures Update(crc, d) == Steps(Steps(Steps(Steps(Xor(crc, Word(d)), 8), 8), 8), 8)
  {
    hide Xor, BitStep, Steps, Wide, At1, At2, At3, Update, LowByte, Down;
    OneByOne(crc, d);
    ByteShifts(d[1]);
    ByteShifts(d[2]);
    ByteShifts(d[3]);
    var x0 := Xor(crc, Wide(d[0]));
    EnterEarlier(x0, At1(d[1]), Wide(d[1]));
    var x1 := Xor(x0, At1(d[1]));
    EnterEarlier(Steps(x1, 8), At1(d[2]), Wide(d[2]));
    EnterEarlier(x1, At2(d[2]), At1(d[2]));
    var x2 := Xor(x1, At2(d[2]));
    EnterEarlier(Steps(Steps(x2, 8), 8), At1(d[3]), Wide(d[3]));
    EnterEarlier(Steps(x2, 8), At2(d[3]), At1(d[3]));
    EnterEarlier(x2, At3(d[3]), At2(d[3]));
    XorAssoc(crc, Wide(d[0]), At1(d[1]));
    XorAssoc(crc, Xor(Wide(d[0]), At1(d[1])), At2(d[2]));
    XorAssoc(crc, Xor(Xor(Wide(d[0]), At1(d[1])), At2(d[2])), At3(d[3]));
  }

  /** Two four-byte strings after any prefixes lead to the same state exactly when their words differ by what
      the prefixes' states differ by. */
  lemma FourBytesMeetIff(c1: bv32, d1: seq<Byte>, c2: bv32, d2: seq<Byte>)
    requires |d1| == |d2| == 4
    ensures Update(c1, d1) == Update(c2, d2) <==> Xor(c1, Word(d1)) == Xor(c2, Word(d2))
  {
    hide Xor, BitStep, Steps, Update, Word;
    FourBytes(c1, d1);
    FourBytes(c2, d2);
    var w1, w2 := Xor(c1, Word(d1)), Xor(c2, Word(d2));
    if Update(c1, d1) == Update(c2, d2) {
      StepsInjective(Steps(Steps(Steps(w1, 8), 8), 8), Steps(Steps(Steps(w2, 8), 8), 8), 8);
      StepsInjective(Steps(Steps(w1, 8), 8), Steps(Steps(w2, 8), 8), 8);
      StepsInjective(Steps(w1, 8), Steps(w2, 8), 8);
      StepsInjective(w1, w2, 8);
    }
  }

  /** Any change confined to four neighbouring bytes changes the checksum. */
  lemma ShortChangesShow(before: seq<Byte>, x: seq<Byte>, y: seq<Byte>, after: seq<Byte>)
    requires |x| == |y| <= 4
    ensures Crc(before + x + after) == Crc(before + y + after) <==> x == y
  {
    hide Xor, Update, Word;
    if Crc(before + x + after) == Crc(before + y + after) {
      XorCancels(Update(INIT, before + x + after), Update(INIT, before + y + after), 0xFFFFFFFF);
      UpdateAppend(INIT, before + x, after);
      UpdateAppend(INIT, before + y, after);
      UpdateAppend(INIT, before, x);
      UpdateAppend(INIT, before, y);
      var s := Update(INIT, before);
      UpdateInjective(Update(s, x), Update(s, y), after);
      PaddedMeet(s, x, y, seq(4 - |x|, _ => 0 as Byte));
    }
  }

  lemma PaddedMeet(s: bv32, x: seq<Byte>, y: seq<Byte>, pad: seq<Byte>)
    requires |x| == |y| && |x| + |pad| == 4 && Update(s, x) == Update(s, y)
    ensures x == y
  {
    hide Xor, Update, Word;
    UpdateAppend(s, x, pad);
    UpdateAppend(s, y, pad);
    FourBytesMeetIff(s, x + pad, s, y + pad);
    XorCancels(Word(x + pad), Word(y + pad), s);
    WordInjective(x + pad, y + pad);
    assert x == (x + pad)[..|x|] && y == (y + pad)[..|x|];
  }

  /** Beyond four bytes nothing is promised: whatever came before, a suitable last word makes the checksums of
      two strings equal. */
  lemma ChecksumsCanMeet(a: seq<Byte>, b: seq<Byte>) returns (v: seq<Byte>)
    ensures |v| == 4 && Crc(a + [0, 0, 0, 0]) == Crc(b + v)
  {
    hide Xor, Update, Word;
    var u: seq<Byte> := [0, 0, 0, 0];
    var s, t := Update(INIT, a), Update(INIT, b);
    v := WordBytes(Xor(s, t));
    WordRoundTrip(Xor(s, t));
    ZeroWord();
    UpdateAppend(INIT, a, u);
    UpdateAppend(INIT, b, v);
    XorBack(s, t);
    FourBytesMeetIff(s, u, t, v);
  }

  lemma ZeroWord()
    ensures Word([0, 0, 0, 0]) == 0
  {
  }

  // ---- The table-driven form ----

  /** The update's static state: a table, and whether it has been filled. */
  class Checksum {
    const table: array<bv32>
    var tableInit: bool

    constructor ()
      ensures Valid() && fresh(table)
    {
      table := new bv32[256];
      tableInit := false;
    }

    ghost predicate Valid()
      reads this, table
    {
      table.Length == 256 && (tableInit ==> Filled(table[..], 256))
    }

    method FillTable()
      requires table.Length == 256
      modifies table
      ensures Filled(table[..], 256)
    {
      hide Steps, BitStep;
      var i := 0;
      while i < 256
        invariant 0 <= i <= 256
        invariant Filled(table[..], i)
      {
        var c := BitStepLoop(i as bv32);
        table[i] := c;
        i := i + 1;
      }
    }

    /** Folds the bytes into a running checksum; the table is filled on the first call. */
    method UpdateCrc(crc: bv32, data: seq<Byte>) returns (r: bv32)
      requires Valid()
      modifies this`tableInit, table
      ensures Valid() && r == Update(crc, data)
    {
      hide Filled, ByteStep, Steps;
      if !tableInit {
        FillTable();
        tableInit := true;
      }
      r := crc;
      for i := 0 to |data|
        invariant Filled(table[..], 256) && r == Update(crc, data[..i])
      {
        r := TableUpdate(table[..], r, data[i]);
        assert data[..i + 1][..i] == data[..i];
      }
      assert data[..|data|] == data;
    }

    /** Two updates and the final inversion give the one-shot checksum of the concatenation. */
    method CrcOfTwo(a: seq<Byte>, b: seq<Byte>) returns (r: bv32)
      requires Valid()
      modifies this`tableInit, table
      ensures Valid() && r == Crc(a + b)
    {
      hide Update, Xor;
      r := UpdateCrc(INIT, a);
      r := UpdateCrc(r, b);
      r := Xor(r, 0xFFFFFFFF);
      UpdateAppend(INIT, a, b);
    }
  }

  /** The eight division steps of one table entry. */
  method BitStepLoop(i: bv32) returns (c: bv32)
    ensures c == Steps(i, 8)
  {
    c := i;
    var k := 0;
    while k < 8
      invariant 0 <= k <= 8 && c == Steps(i, k)
    {
      c := if c & 1 == 1 then POLYNOMIAL ^ (c >> 1) else c >> 1;
      k := k + 1;
    }
  }

  method TableUpdate(table: seq<bv32>, crc: bv32, b: Byte) returns (r: bv32)
    requires Filled(table, 256)
    ensures r == ByteStep(crc, b)
  {
    hide Xor, Wide, LowByte, Down, ByteStep, Steps, Filled;
    var index := LowByte(Xor(crc, Wide(b)));
    TableEntry(table, Xor(crc, Wide(b)));
    r := Xor(table[index as nat], Down(crc));
    TableStep(crc, b);
  }

  ghost predicate Filled(table: seq<bv32>, n: nat) {
    n <= |table| && n <= 256 && forall j | 0 <= j < n :: table[j] == Steps(j as bv32, 8)
  }

  lemma TableEntry(table: seq<bv32>, c: bv32)
    requires Filled(table, 256)
    ensures LowByte(c) as nat < 256 <= |table| && table[LowByte(c) as nat] == Steps(LowByte(c), 8)
  {
    hide Steps;
    ByteRange(c);
  }

  lemma ByteRange(c: bv32)
    ensures LowByte(c) as nat < 256 && (LowByte(c) as nat) as bv32 == LowByte(c)
  {
    SmallWord(c & 0xFF);
  }

  lemma SmallWord(c: bv32)
    requires c & 0xFF == c
    ensures c as nat < 256 && (c as nat) as bv32 == c
  {
    assert c as nat == (c as bv8) as nat;
  }
}
