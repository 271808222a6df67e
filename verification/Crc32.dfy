/**
 * TsTool's CRC: a table-driven loop over an unmasked 64-bit register, against the bit-serial decoder register of
 * ISO/IEC 13818-1 Annex A.
 */
module Crc32 {
  import opened Bytes

  const POLY: bv32 := 0x04C11DB7
  const START: bv32 := 0xFFFFFFFF

  // The bit operations, named so that proofs about the algorithm need not look inside them.

  function Bits(b: byte): bv8 { b as bv8 }

  function Xor(a: bv32, b: bv32): bv32 { a ^ b }

  function Xor8(a: bv8, b: bv8): bv8 { a ^ b }

  function Shl(r: bv32): bv32 { r << 1 }

  function Shl8(b: bv8): bv8 { b << 1 }

  function Top(r: bv32): bool { r & 0x80000000 != 0 }

  function Top8(b: bv8): bool { b & 0x80 != 0 }

  function TopByte(r: bv32): bv8 { (r >> 24) as bv8 }

  function ShlByte(r: bv32): bv32 { r << 8 }

  /** A byte at the top of the register. */
  function Raise(b: bv8): bv32 { (b as bv32) << 24 }

  function LowPart(r: bv32): bv32 { r & 0x00FFFFFF }

  function Carry(c: bool): bv32 { if c then POLY else 0 }

  /** Annex A: one message bit enters the shift register. */
  function Shift(r: bv32, bit: bool): bv32 {
    Xor(Shl(r), Carry(Top(r) != bit))
  }

  /** The bits of a byte enter most significant first; `n` of them are left at the top of `b`. */
  function ShiftByte(r: bv32, b: bv8, n: nat): bv32
    decreases n
  {
    if n == 0 then r else ShiftByte(Shift(r, Top8(b)), Shl8(b), n - 1)
  }

  /** The decoder register after the bytes of `s`. */
  function Decoder(r: bv32, s: seq<byte>): bv32
    decreases |s|
  {
    if s == [] then r else Decoder(ShiftByte(r, Bits(s[0]), 8), s[1..])
  }

  /** The inner step of the table builder, on 32 bits. */
  function Divide(r: bv32): bv32 {
    Xor(Shl(r), Carry(Top(r)))
  }

  function DivideBy(r: bv32, n: nat): bv32
    decreases n
  {
    if n == 0 then r else DivideBy(Divide(r), n - 1)
  }

  /** The table entry of a byte value: its remainder after eight division steps. */
  function Entry(i: bv8): bv32 {
    DivideBy(Raise(i), 8)
  }

  /** One table-driven step of the 32-bit register. */
  function TableStep(t: bv8 -> bv32, r: bv32, b: bv8): bv32 {
    Xor(t(Xor8(TopByte(r), b)), ShlByte(r))
  }

  function TableCrc(t: bv8 -> bv32, r: bv32, s: seq<byte>): bv32
    decreases |s|
  {
    if s == [] then r else TableCrc(t, TableStep(t, r, Bits(s[0])), s[1..])
  }

  lemma XorSwap(a: bv32, b: bv32, c: bv32, d: bv32)
    ensures Xor(Xor(a, b), Xor(c, d)) == Xor(Xor(a, c), Xor(b, d))
  {
    hide Xor;
    XorAssoc(a, b, Xor(c, d));
    XorAssoc(b, c, d);
    XorComm(b, c);
    XorAssoc(c, b, d);
    XorAssoc(a, c, Xor(b, d));
  }

  lemma XorAssoc(a: bv32, b: bv32, c: bv32)
    ensures Xor(Xor(a, b), c) == Xor(a, Xor(b, c))
  {
  }

  lemma XorComm(a: bv32, b: bv32)
    ensures Xor(a, b) == Xor(b, a)
  {
  }

  lemma XorZero(a: bv32)
    ensures Xor(a, 0) == a
  {
  }

  lemma TopXor(a: bv32, b: bv32)
    ensures Top(Xor(a, b)) == (Top(a) != Top(b))
  {
  }

  lemma ShlXor(a: bv32, b: bv32)
    ensures Shl(Xor(a, b)) == Xor(Shl(a), Shl(b))
  {
  }

  lemma RaiseFacts(x: bv8)
    ensures Top(Raise(x)) == Top8(x) && Shl(Raise(x)) == Raise(Shl8(x))
  {
  }

  lemma RaiseZero()
    ensures Raise(0) == 0
  {
  }

  lemma CarryXor(c: bool, d: bool)
    ensures Carry(c != d) == Xor(Carry(c), Carry(d)) && Carry(false) == 0
  {
  }

  lemma DivideLinear(a: bv32, b: bv32)
    ensures Divide(Xor(a, b)) == Xor(Divide(a), Divide(b))
  {
    hide Xor, Shl, Top, Carry;
    TopXor(a, b);
    ShlXor(a, b);
    CarryXor(Top(a), Top(b));
    XorSwap(Shl(a), Shl(b), Carry(Top(a)), Carry(Top(b)));
  }

  lemma {:induction false} DivideByLinear(a: bv32, b: bv32, n: nat)
    ensures DivideBy(Xor(a, b), n) == Xor(DivideBy(a, n), DivideBy(b, n))
    decreases n
  {
    hide Divide, Xor;
    if n > 0 {
      DivideLinear(a, b);
      DivideByLinear(Divide(a), Divide(b), n - 1);
    }
  }

  /** Feeding a message bit is dividing with that bit added at the top. */
  lemma ShiftIsDivide(r: bv32, b: bv8)
    ensures Divide(Xor(r, Raise(b))) == Xor(Shift(r, Top8(b)), Raise(Shl8(b)))
  {
    hide Xor, Shl, Top, Carry, Raise, Shl8, Top8;
    TopXor(r, Raise(b));
    ShlXor(r, Raise(b));
    RaiseFacts(b);
    var c := Carry(Top(r) != Top8(b));
    XorSwap(Shl(r), Raise(Shl8(b)), c, 0);
    XorZero(c);
    XorZero(Raise(Shl8(b)));
  }

  function Left(b: bv8, n: nat): bv8
    decreases n
  {
    if n == 0 then b else Left(Shl8(b), n - 1)
  }

  lemma {:induction false} ShiftsAreDivides(r: bv32, b: bv8, n: nat)
    ensures DivideBy(Xor(r, Raise(b)), n) == Xor(ShiftByte(r, b, n), Raise(Left(b, n)))
    decreases n
  {
    hide Divide, Xor, Shift, Raise, Shl8, Top8;
    if n > 0 {
      ShiftIsDivide(r, b);
      ShiftsAreDivides(Shift(r, Top8(b)), Shl8(b), n - 1);
    }
  }

  lemma ByteGone(b: bv8)
    ensures Shl8(Shl8(Shl8(Shl8(Shl8(Shl8(Shl8(Shl8(b)))))))) == 0
  {
  }

  lemma LeftEight(b: bv8)
    ensures Left(b, 8) == 0
  {
    hide Shl8;
    ByteGone(b);
    var c := Shl8(Shl8(Shl8(Shl8(b))));
    assert Left(b, 4) == c;
    assert Left(b, 8) == Left(c, 4) == Shl8(Shl8(Shl8(Shl8(c))));
  }

  /** The top bit stays clear for `n` shifts. */
  ghost predicate Small(x: bv32, n: nat)
    decreases n
  {
    n == 0 || (!Top(x) && Small(Shl(x), n - 1))
  }

  function Shifted(x: bv32, n: nat): bv32
    decreases n
  {
    if n == 0 then x else Shifted(Shl(x), n - 1)
  }

  lemma {:induction false} DivideSmall(x: bv32, n: nat)
    requires Small(x, n)
    ensures DivideBy(x, n) == Shifted(x, n)
    decreases n
  {
    hide Xor, Shl, Top, Carry;
    if n > 0 {
      CarryXor(false, false);
      XorZero(Shl(x));
      DivideSmall(Shl(x), n - 1);
    }
  }

  ghost predicate Clear(x: bv32, mask: bv32) {
    x & mask == 0
  }

  lemma ClearStep(x: bv32, mask: bv32)
    requires Clear(x, mask)
    ensures Clear(Shl(x), mask << 1)
    ensures mask & 0x80000000 != 0 ==> !Top(x)
  {
  }

  lemma LowClear(r: bv32)
    ensures Clear(LowPart(r), 0xFF000000)
  {
  }

  lemma ShlFour(a: bv32)
    ensures Shl(Shl(Shl(Shl(a)))) == a << 4
  {
  }

  lemma LowShifted(r: bv32)
    ensures LowPart(r) << 4 << 4 == ShlByte(r)
  {
  }

  /** Bits below the top byte are only moved by eight division steps. */
  lemma DivideLow(r: bv32)
    ensures DivideBy(LowPart(r), 8) == ShlByte(r)
  {
    hide Xor, Shl, Top, ShlByte, LowPart, Divide, Clear;
    var x := LowPart(r);
    LowClear(r);
    ClearStep(x, 0xFF000000);
    var x1 := Shl(x);
    ClearStep(x1, 0xFE000000);
    var x2 := Shl(x1);
    ClearStep(x2, 0xFC000000);
    var x3 := Shl(x2);
    ClearStep(x3, 0xF8000000);
    var x4 := Shl(x3);
    ClearStep(x4, 0xF0000000);
    var x5 := Shl(x4);
    ClearStep(x5, 0xE0000000);
    var x6 := Shl(x5);
    ClearStep(x6, 0xC0000000);
    var x7 := Shl(x6);
    ClearStep(x7, 0x80000000);
    assert Small(x6, 2) && Small(x4, 4) && Small(x2, 6);
    ShlFour(x);
    ShlFour(x4);
    LowShifted(r);
    assert Shifted(x6, 2) == ShlByte(r) && Shifted(x4, 4) == Shifted(x6, 2) && Shifted(x2, 6) == Shifted(x4, 4);
    DivideSmall(x, 8);
  }

  lemma SplitRegister(r: bv32, b: bv8)
    ensures Xor(r, Raise(b)) == Xor(Raise(Xor8(TopByte(r), b)), LowPart(r))
  {
    assert r ^ ((b as bv32) << 24) == (((((r >> 24) as bv8) ^ b) as bv32) << 24) ^ (r & 0x00FFFFFF);
  }

  /** A table step is the eight bit steps of its byte. */
  lemma TableStepIsShifts(r: bv32, b: bv8)
    ensures TableStep(Entry, r, b) == ShiftByte(r, b, 8)
  {
    hide Xor, Xor8, DivideBy, ShiftByte, Left, Raise, LowPart, TopByte, ShlByte;
    var idx := Xor8(TopByte(r), b);
    ShiftsAreDivides(r, b, 8);
    LeftEight(b);
    RaiseZero();
    XorZero(ShiftByte(r, b, 8));
    SplitRegister(r, b);
    DivideByLinear(Raise(idx), LowPart(r), 8);
    DivideLow(r);
  }

  /** The table-driven CRC is the Annex A decoder register, for every byte string. */
  lemma {:induction false} TableCrcIsDecoder(r: bv32, s: seq<byte>)
    ensures TableCrc(Entry, r, s) == Decoder(r, s)
    decreases |s|
  {
    hide Entry, TableStep, ShiftByte, Bits;
    if s != [] {
      TableStepIsShifts(r, Bits(s[0]));
      TableCrcIsDecoder(ShiftByte(r, Bits(s[0]), 8), s[1..]);
    }
  }

  ghost predicate AlwaysRight(t: bv8 -> bv32) {
    forall s: seq<byte> :: TableCrc(t, START, s) == Decoder(START, s)
  }

  ghost predicate OwnTable(t: bv8 -> bv32) {
    forall i: bv8 :: t(i) == Entry(i)
  }

  /** Any table gives the right CRC for all inputs exactly when it is the table that CRC32 itself builds. */
  lemma RightTable(t: bv8 -> bv32)
    ensures AlwaysRight(t) <==> OwnTable(t)
  {
    hide Entry, ShiftByte, TableStep, TableCrc, Decoder;
    if OwnTable(t) {
      forall s: seq<byte> ensures TableCrc(t, START, s) == Decoder(START, s) {
        SameTable(t, START, s);
        TableCrcIsDecoder(START, s);
      }
    }
    if AlwaysRight(t) {
      forall i: bv8 ensures t(i) == Entry(i) {
        OneEntry(t, i);
      }
    }
  }

  lemma {:induction false} SameTable(t: bv8 -> bv32, r: bv32, s: seq<byte>)
    requires OwnTable(t)
    ensures TableCrc(t, r, s) == TableCrc(Entry, r, s)
    decreases |s|
  {
    hide Entry, Xor, Xor8, TopByte, ShlByte, Bits;
    if s != [] {
      SameTable(t, TableStep(t, r, Bits(s[0])), s[1..]);
    }
  }

  /** The one-byte message that looks up entry `i`. */
  function Probe(i: bv8): byte {
    (i ^ 0xFF) as int
  }

  lemma ProbeBits(i: bv8)
    ensures Xor8(TopByte(START), Bits(Probe(i))) == i
  {
    ProbeByte(i);
    hide Bits, Probe;
    assert 0xFF ^ (i ^ 0xFF) == i;
  }

  lemma ProbeByte(i: bv8)
    ensures Bits(Probe(i)) == i ^ 0xFF
  {
  }

  lemma XorCancel(a: bv32, b: bv32, c: bv32)
    requires Xor(a, c) == Xor(b, c)
    ensures a == b
  {
    assert (a ^ c) ^ c == a && (b ^ c) ^ c == b;
  }

  lemma OneEntry(t: bv8 -> bv32, i: bv8)
    requires AlwaysRight(t)
    ensures t(i) == Entry(i)
  {
    hide Entry, Xor, Xor8, TopByte, ShlByte, Bits, Probe, Decoder;
    var s := [Probe(i)];
    assert s[1..] == [];
    ProbeBits(i);
    TableCrcIsDecoder(START, s);
    assert TableCrc(t, START, s) == Xor(t(i), ShlByte(START));
    assert TableCrc(Entry, START, s) == Xor(Entry(i), ShlByte(START));
    XorCancel(t(i), Entry(i), ShlByte(START));
  }

  lemma {:induction false} DecoderAppend(r: bv32, a: seq<byte>, b: seq<byte>)
    ensures Decoder(r, a + b) == Decoder(Decoder(r, a), b)
    decreases |a|
  {
    hide ShiftByte, Bits;
    if a == [] {
      assert a + b == b;
    } else {
      assert (a + b)[0] == a[0] && (a + b)[1..] == a[1..] + b;
      DecoderAppend(ShiftByte(r, Bits(a[0]), 8), a[1..], b);
    }
  }

  /** A register written big-endian. */
  function PutRegister(r: bv32): (s: seq<byte>)
    ensures |s| == 4
  {
    [TopByte(r) as int, TopByte(ShlByte(r)) as int, TopByte(ShlByte(ShlByte(r))) as int,
     TopByte(ShlByte(ShlByte(ShlByte(r)))) as int]
  }

  lemma BitsBack(x: bv8)
    ensures x as int < 256 && Bits(x as int) == x && Xor8(x, x) == 0
  {
  }

  /** A byte equal to the top of the register only shifts it. */
  lemma ResidueByte(r: bv32)
    ensures ShiftByte(r, TopByte(r), 8) == ShlByte(r)
  {
    hide Xor, Xor8, DivideBy, ShiftByte, Raise, LowPart, TopByte, ShlByte, Entry;
    TableStepIsShifts(r, TopByte(r));
    BitsBack(TopByte(r));
    EntryZero();
    ZeroXor(ShlByte(r));
  }

  lemma ZeroXor(a: bv32)
    ensures Xor(0, a) == a
  {
  }

  lemma EntryZero()
    ensures Entry(0) == 0
  {
    hide Xor, Raise, LowPart, TopByte, ShlByte, DivideBy;
    RaiseZero();
    LowZero();
    DivideLow(0);
  }

  lemma LowZero()
    ensures LowPart(0) == 0 && ShlByte(0) == 0
  {
  }

  lemma ShiftedOut(r: bv32)
    ensures ShlByte(ShlByte(ShlByte(ShlByte(r)))) == 0
  {
  }

  lemma RegisterResidue(r: bv32)
    ensures Decoder(r, PutRegister(r)) == 0
  {
    hide ShiftByte, TopByte, ShlByte, Bits;
    var r1 := ShlByte(r);
    var r2 := ShlByte(r1);
    var r3 := ShlByte(r2);
    var s := PutRegister(r);
    ResidueByte(r);
    ResidueByte(r1);
    ResidueByte(r2);
    ResidueByte(r3);
    BitsBack(TopByte(r));
    BitsBack(TopByte(r1));
    BitsBack(TopByte(r2));
    BitsBack(TopByte(r3));
    ShiftedOut(r);
    assert s[1..][1..] == s[2..] && s[2..][1..] == s[3..] && s[3..][1..] == [];
    assert Decoder(r3, s[3..]) == 0;
    assert Decoder(r2, s[2..]) == 0;
    assert Decoder(r1, s[1..]) == 0;
  }

  /** A message followed by its CRC leaves the decoder register at zero. */
  lemma Residue(s: seq<byte>)
    ensures Decoder(START, s + PutRegister(Decoder(START, s))) == 0
  {
    DecoderAppend(START, s, PutRegister(Decoder(START, s)));
    RegisterResidue(Decoder(START, s));
  }

  /** The low half of the 64-bit register; the code never masks the rest while it runs. */
  function Low32(reg: bv64): bv32 {
    (reg & 0xFFFFFFFF) as bv32
  }

  function Widen(r: bv32): bv64 {
    r as bv64
  }

  /** `reg & msb_mask`, `reg << 1`, `(reg << 1) ^ poly` of the table builder, on the 64-bit register. */
  function WideDivide(reg: bv64): bv64 {
    if reg & 0x80000000 != 0 then (reg << 1) ^ Widen(POLY) else reg << 1
  }

  function WideIndex(reg: bv64, b: bv8): bv8 {
    (((reg >> 24) ^ (b as bv64)) & 0xFF) as bv8
  }

  function WideStep(t: bv32, reg: bv64): bv64 {
    Widen(t) ^ (reg << 8)
  }

  lemma WideTop(reg: bv64)
    ensures (reg & 0x80000000 != 0) == Top(Low32(reg))
  {
  }

  lemma WideShl(reg: bv64)
    ensures Low32(reg << 1) == Shl(Low32(reg))
  {
  }

  lemma WideXor(a: bv64, b: bv32)
    ensures Low32(a ^ Widen(b)) == Xor(Low32(a), b)
  {
  }

  lemma WideDivideLow(reg: bv64)
    ensures Low32(WideDivide(reg)) == Divide(Low32(reg))
  {
    hide Low32, Top, Shl, Xor, Widen;
    WideTop(reg);
    WideShl(reg);
    WideXor(reg << 1, POLY);
    XorZero(Shl(Low32(reg)));
  }

  lemma WideStepLow(t: bv32, reg: bv64)
    ensures Low32(WideStep(t, reg)) == Xor(t, ShlByte(Low32(reg)))
  {
  }

  lemma WideIndexLow(reg: bv64, b: bv8)
    ensures WideIndex(reg, b) == Xor8(TopByte(Low32(reg)), b)
  {
  }

  lemma LowOf(r: bv32)
    ensures Low32(Widen(r)) == r
  {
  }

  lemma LowRaised(i: bv8)
    ensures Low32((i as bv64) << 24) == Raise(i)
  {
  }

  lemma {:induction false} DivideByLast(r: bv32, n: nat)
    ensures DivideBy(r, n + 1) == Divide(DivideBy(r, n))
    decreases n
  {
    hide Divide;
    if n > 0 {
      DivideByLast(Divide(r), n - 1);
    }
  }

  // ---- The reflected table of the other variant ----

  /** The registers of __crc32_reflect. */
  datatype Mirror = Mirror(data: bv64, res: bv64)

  function Halve(data: bv64): bv64 { data >> 1 }

  function Push(data: bv64, res: bv64): bv64 { (res << 1) | (data & 1) }

  /** One turn of its loop: the next bit of `data` enters `res` at the low end. */
  function Turn(x: Mirror): Mirror {
    Mirror(Halve(x.data), Push(Halve(x.data), x.res))
  }

  function Turns(x: Mirror, n: nat): Mirror
    decreases n
  {
    if n == 0 then x else Turns(Turn(x), n - 1)
  }

  /** The low `width` bits in reverse order. */
  function Reflect(data: bv64, width: nat): bv64
    requires width > 0
  {
    Turns(Mirror(data, data & 1), width - 1).res
  }

  function Reflect8(i: bv8): bv8 {
    (Reflect(i as bv64, 8) & 0xFF) as bv8
  }

  function Reflect32(r: bv32): bv32 {
    Low32(Reflect(Widen(r), 32))
  }

  /** The entry of the table that CRC32Ieee builds. */
  function ReflectedEntry(i: bv8): bv32 {
    Reflect32(DivideBy(Raise(Reflect8(i)), 8))
  }

  /** The table that a call builds: reflected by CRC32Ieee, plain by CRC32. */
  function MadeBy(reflected: bool): bv8 -> bv32 {
    if reflected then ReflectedEntry else Entry
  }

  lemma TurnsLast(x: Mirror, n: nat)
    ensures Turns(x, n + 1) == Turn(Turns(x, n))
    decreases n
  {
    hide Turn;
    if n > 0 {
      TurnsLast(Turn(x), n - 1);
    }
  }

  lemma FourTurns(x: Mirror, n: nat)
    requires n >= 4
    ensures Turns(x, n) == Turns(Turn(Turn(Turn(Turn(x)))), n - 4)
  {
    hide Turn;
    var y := Turn(Turn(x));
    assert Turns(x, n) == Turns(Turn(x), n - 1) == Turns(y, n - 2);
    assert Turns(y, n - 2) == Turns(Turn(y), n - 3) == Turns(Turn(Turn(y)), n - 4);
  }

  lemma OneDivision(r: bv32, n: nat)
    requires n >= 1
    ensures DivideBy(r, n) == DivideBy(Divide(r), n - 1)
  {
    hide Divide;
  }

  lemma FourDivisions(r: bv32, n: nat, q: bv32)
    requires n >= 4 && Divide(Divide(Divide(Divide(r)))) == q
    ensures DivideBy(r, n) == DivideBy(q, n - 4)
  {
    hide Divide, DivideBy;
    OneDivision(r, n);
    OneDivision(Divide(r), n - 1);
    OneDivision(Divide(Divide(r)), n - 2);
    OneDivision(Divide(Divide(Divide(r))), n - 3);
  }

  lemma NoDivision(r: bv32)
    ensures DivideBy(r, 0) == r
  {
    hide Divide;
  }

  lemma PlainEntry()
    ensures Entry(0x80) == 0x690CE0EE
  {
    FourDivisions(0x80000000, 8, 0x2608EDB8);
    FourDivisions(0x2608EDB8, 4, 0x690CE0EE);
    NoDivision(0x690CE0EE);
  }

  lemma DividedOne()
    ensures DivideBy(Raise(1), 8) == POLY
  {
    FourDivisions(0x01000000, 8, 0x10000000);
    FourDivisions(0x10000000, 4, POLY);
    NoDivision(POLY);
  }

  lemma ReflectedByte()
    ensures Reflect8(0x80) == 1
  {
    FourTurns(Mirror(0x80, 0), 7);
    assert Turn(Turn(Turn(Turn(Mirror(0x80, 0))))) == Mirror(8, 0);
    var x := Mirror(8, 0);
    assert Turns(x, 3) == Turns(Turn(x), 2) == Turns(Turn(Turn(x)), 1) == Turn(Turn(Turn(x)));
    assert Turn(Turn(Turn(x))) == Mirror(1, 1);
  }

  /** The polynomial read backwards, four turns of the loop at a time. */
  lemma ReflectedPoly()
    ensures Reflect32(POLY) == 0xEDB88320
  {
    hide Turns;
    FourTurnsTo(Mirror(0x4C11DB7, 0x1), 31, Mirror(0x4C11DB, 0x1D));
    FourTurnsTo(Mirror(0x4C11DB, 0x1D), 27, Mirror(0x4C11D, 0x1DB));
    FourTurnsTo(Mirror(0x4C11D, 0x1DB), 23, Mirror(0x4C11, 0x1DB7));
    FourTurnsTo(Mirror(0x4C11, 0x1DB7), 19, Mirror(0x4C1, 0x1DB71));
    FourTurnsTo(Mirror(0x4C1, 0x1DB71), 15, Mirror(0x4C, 0x1DB710));
    FourTurnsTo(Mirror(0x4C, 0x1DB710), 11, Mirror(0x4, 0x1DB7106));
    FourTurnsTo(Mirror(0x4, 0x1DB7106), 7, Mirror(0x0, 0x1DB71064));
    ThreeTurns(Mirror(0x0, 0x1DB71064));
    assert Reflect(Widen(POLY), 32) == 0xEDB88320;
  }

  lemma FourTurnsTo(x: Mirror, n: nat, y: Mirror)
    requires n >= 4 && Turn(Turn(Turn(Turn(x)))) == y
    ensures Turns(x, n) == Turns(y, n - 4)
  {
    FourTurns(x, n);
  }

  lemma ThreeTurns(x: Mirror)
    ensures Turns(x, 3) == Turn(Turn(Turn(x)))
  {
    hide Turn;
    assert Turns(Turn(x), 2) == Turns(Turn(Turn(x)), 1) == Turns(Turn(Turn(Turn(x))), 0);
  }

  /** The two tables differ, for one in the entry of 0x80. */
  lemma TablesDiffer()
    ensures ReflectedEntry(0x80) == 0xEDB88320 && Entry(0x80) == 0x690CE0EE
  {
    hide Reflect8, Reflect32, DivideBy, Raise;
    PlainEntry();
    ReflectedByte();
    DividedOne();
    ReflectedPoly();
  }

  /** CRC32 is right for all inputs exactly if the shared table was built by CRC32. */
  lemma SharedTable(reflected: bool)
    ensures AlwaysRight(MadeBy(reflected)) <==> !reflected
  {
    hide AlwaysRight, Entry, ReflectedEntry;
    RightTable(MadeBy(reflected));
    TablesDiffer();
    if reflected {
      assert MadeBy(true)(0x80) != Entry(0x80);
    }
  }

  function ByteAt(k: nat): bv8
    requires k < 256
  {
    k as bv8
  }

  lemma ByteAtIndex(x: bv8)
    ensures 0 <= x as int < 256 && ByteAt(x as int) == x
  {
  }

  /** The first `n` entries are right. */
  ghost predicate Filled(t: seq<bv32>, n: nat, e: bv8 -> bv32) {
    |t| == 256 && n <= 256 && forall k :: 0 <= k < n ==> t[k] == e(ByteAt(k))
  }

  lemma EntryOf(t: seq<bv32>, x: bv8, e: bv8 -> bv32)
    requires Filled(t, 256, e)
    ensures x as int < 256 && t[x as int] == e(x)
  {
    hide ByteAt;
    ByteAtIndex(x);
  }

  lemma {:induction false} TableCrcAppend(t: bv8 -> bv32, r: bv32, a: seq<byte>, p: byte)
    ensures TableCrc(t, r, a + [p]) == TableStep(t, TableCrc(t, r, a), Bits(p))
    decreases |a|
  {
    hide TableStep, Bits;
    if a == [] {
      assert [] + [p] == [p] && [p][1..] == [];
    } else {
      assert (a + [p])[0] == a[0] && (a + [p])[1..] == a[1..] + [p];
      TableCrcAppend(t, TableStep(t, r, Bits(a[0])), a[1..], p);
    }
  }

  /** The entry the builder stores: both reflections are those of the code, around the division. */
  lemma MadeEntry(reflected: bool, i: bv8)
    ensures MadeBy(reflected)(i) ==
            if reflected then Reflect32(DivideBy(Raise(Reflect8(i)), 8)) else DivideBy(Raise(i), 8)
  {
    hide Reflect32, Reflect8, DivideBy, Raise;
  }

  // ---- The CRC of IEEE 802.3 ----

  /** POLY read backwards. */
  const MIRROR_POLY: bv32 := 0xEDB88320

  function Shr(r: bv32): bv32 { r >> 1 }

  function Shr8(b: bv8): bv8 { b >> 1 }

  function Low(r: bv32): bool { r & 1 != 0 }

  function Low8(b: bv8): bool { b & 1 != 0 }

  function LowByte(r: bv32): bv8 { (r & 0xFF) as bv8 }

  function ShrByte(r: bv32): bv32 { r >> 8 }

  function MirrorCarry(c: bool): bv32 { if c then MIRROR_POLY else 0 }

  /** The register of IEEE 802.3 in its usual form: bits enter at the low end. */
  function IeeeShift(r: bv32, bit: bool): bv32 {
    Xor(Shr(r), MirrorCarry(Low(r) != bit))
  }

  /** The bits of a byte enter least significant first. */
  function IeeeByte(r: bv32, b: bv8, n: nat): bv32
    decreases n
  {
    if n == 0 then r else IeeeByte(IeeeShift(r, Low8(b)), Shr8(b), n - 1)
  }

  function IeeeRegister(r: bv32, s: seq<byte>): bv32
    decreases |s|
  {
    if s == [] then r else IeeeByte(IeeeRegister(r, s[..|s| - 1]), Bits(s[|s| - 1]), 8)
  }

  /** One table-driven step of CRC32Ieee. */
  function MirrorStep(t: bv8 -> bv32, r: bv32, b: bv8): bv32 {
    Xor(t(Xor8(LowByte(r), b)), ShrByte(r))
  }

  function MirrorCrc(t: bv8 -> bv32, r: bv32, s: seq<byte>): bv32
    decreases |s|
  {
    if s == [] then r else MirrorStep(t, MirrorCrc(t, r, s[..|s| - 1]), Bits(s[|s| - 1]))
  }

  // The reflection loop in closed form, four turns at a time.

  function Shr4(d: bv64): bv64 { d >> 4 }

  /** The next four bits of `d`, after its lowest, enter `res`. */
  function Nibble(d: bv64, res: bv64): bv64 {
    (res << 4) | (((d >> 1) & 1) << 3) | (((d >> 2) & 1) << 2) | (((d >> 3) & 1) << 1) | ((d >> 4) & 1)
  }

  function LastThree(d: bv64, res: bv64): bv64 {
    (res << 3) | (((d >> 1) & 1) << 2) | (((d >> 2) & 1) << 1) | ((d >> 3) & 1)
  }

  /** Bit `k` moves to position 31 - `k`. */
  function Reversed(x: bv32): bv32 {
    (((x >> 0) & 1) << 31) | (((x >> 1) & 1) << 30) | (((x >> 2) & 1) << 29) | (((x >> 3) & 1) << 28) |
    (((x >> 4) & 1) << 27) | (((x >> 5) & 1) << 26) | (((x >> 6) & 1) << 25) | (((x >> 7) & 1) << 24) |
    (((x >> 8) & 1) << 23) | (((x >> 9) & 1) << 22) | (((x >> 10) & 1) << 21) | (((x >> 11) & 1) << 20) |
    (((x >> 12) & 1) << 19) | (((x >> 13) & 1) << 18) | (((x >> 14) & 1) << 17) | (((x >> 15) & 1) << 16) |
    (((x >> 16) & 1) << 15) | (((x >> 17) & 1) << 14) | (((x >> 18) & 1) << 13) | (((x >> 19) & 1) << 12) |
    (((x >> 20) & 1) << 11) | (((x >> 21) & 1) << 10) | (((x >> 22) & 1) << 9) | (((x >> 23) & 1) << 8) |
    (((x >> 24) & 1) << 7) | (((x >> 25) & 1) << 6) | (((x >> 26) & 1) << 5) | (((x >> 27) & 1) << 4) |
    (((x >> 28) & 1) << 3) | (((x >> 29) & 1) << 2) | (((x >> 30) & 1) << 1) | (((x >> 31) & 1) << 0)
  }

  function Reversed8(x: bv8): bv8 {
    (((x >> 0) & 1) << 7) | (((x >> 1) & 1) << 6) | (((x >> 2) & 1) << 5) | (((x >> 3) & 1) << 4) |
    (((x >> 4) & 1) << 3) | (((x >> 5) & 1) << 2) | (((x >> 6) & 1) << 1) | (((x >> 7) & 1) << 0)
  }

  lemma FourHalves(d: bv64)
    ensures Halve(Halve(Halve(Halve(d)))) == Shr4(d)
  {
  }

  lemma FourPushes(d: bv64, res: bv64)
    ensures var d1 := Halve(d); var d2 := Halve(d1); var d3 := Halve(d2); var d4 := Halve(d3);
            Push(d4, Push(d3, Push(d2, Push(d1, res)))) == Nibble(d, res)
  {
  }

  lemma FourIs(d: bv64, res: bv64)
    ensures Turn(Turn(Turn(Turn(Mirror(d, res))))) == Mirror(Shr4(d), Nibble(d, res))
  {
    hide Halve, Push, Nibble, Shr4;
    FourHalves(d);
    FourPushes(d, res);
  }

  lemma ThreeIs(d: bv64, res: bv64)
    ensures Turn(Turn(Turn(Mirror(d, res)))).res == LastThree(d, res)
  {
  }

  /** `4 * n + 3` turns. */
  function Chain(d: bv64, res: bv64, n: nat): bv64
    decreases n
  {
    if n == 0 then LastThree(d, res) else Chain(Shr4(d), Nibble(d, res), n - 1)
  }

  lemma {:induction false} TurnsAreChain(d: bv64, res: bv64, n: nat)
    ensures Turns(Mirror(d, res), 4 * n + 3).res == Chain(d, res, n)
    decreases n
  {
    hide Turn, Turns, Nibble, LastThree, Shr4;
    if n == 0 {
      ThreeTurns(Mirror(d, res));
      ThreeIs(d, res);
    } else {
      FourTurns(Mirror(d, res), 4 * n + 3);
      FourIs(d, res);
      TurnsAreChain(Shr4(d), Nibble(d, res), n - 1);
    }
  }

  function SevenNibbles(d: bv64): bv64 {
    var d1, r1 := Shr4(d), Nibble(d, d & 1);
    var d2, r2 := Shr4(d1), Nibble(d1, r1);
    var d3, r3 := Shr4(d2), Nibble(d2, r2);
    var d4, r4 := Shr4(d3), Nibble(d3, r3);
    var d5, r5 := Shr4(d4), Nibble(d4, r4);
    var d6, r6 := Shr4(d5), Nibble(d5, r5);
    LastThree(Shr4(d6), Nibble(d6, r6))
  }

  lemma TwoNibbles(d: bv64, res: bv64, n: nat)
    requires n >= 2
    ensures Chain(d, res, n) == Chain(Shr4(Shr4(d)), Nibble(Shr4(d), Nibble(d, res)), n - 2)
  {
    hide Nibble, LastThree, Shr4;
  }

  lemma OneNibble(d: bv64, res: bv64)
    ensures Chain(d, res, 1) == LastThree(Shr4(d), Nibble(d, res))
  {
    hide Nibble, LastThree, Shr4;
  }

  lemma ChainIsSeven(d: bv64)
    ensures Chain(d, d & 1, 7) == SevenNibbles(d)
  {
    hide Chain, Nibble, LastThree, Shr4;
    var d2, r2 := Shr4(Shr4(d)), Nibble(Shr4(d), Nibble(d, d & 1));
    var d4, r4 := Shr4(Shr4(d2)), Nibble(Shr4(d2), Nibble(d2, r2));
    TwoNibbles(d, d & 1, 7);
    TwoNibbles(d2, r2, 5);
    TwoNibbles(d4, r4, 3);
    OneNibble(Shr4(Shr4(d4)), Nibble(Shr4(d4), Nibble(d4, r4)));
  }

  lemma SevenReverse(r: bv32)
    ensures Low32(SevenNibbles(Widen(r))) == Reversed(r)
  {
  }

  lemma SevenHigh(d: bv64)
    ensures SevenNibbles(d) >> 32 == 0
  {
  }

  lemma Narrow(d: bv64)
    requires d >> 32 == 0
    ensures d == Widen(Low32(d))
  {
  }

  /** Reflecting 32 bits reverses them. */
  lemma ReflectIs(r: bv32)
    ensures Reflect(Widen(r), 32) == Widen(Reversed(r)) && Reflect32(r) == Reversed(r)
  {
    hide Turns, Chain, SevenNibbles, Reversed, Widen, Low32;
    TurnsAreChain(Widen(r), Widen(r) & 1, 7);
    ChainIsSeven(Widen(r));
    SevenReverse(r);
    SevenHigh(Widen(r));
    Narrow(SevenNibbles(Widen(r)));
  }

  lemma ByteReverse(i: bv8)
    ensures (LastThree(Shr4(i as bv64), Nibble(i as bv64, (i as bv64) & 1)) & 0xFF) as bv8 == Reversed8(i)
  {
  }

  lemma Reflect8Is(i: bv8)
    ensures Reflect8(i) == Reversed8(i)
  {
    hide Turns, Nibble, LastThree, Chain, Reversed8, Shr4;
    var d := i as bv64;
    TurnsAreChain(d, d & 1, 1);
    OneNibble(d, d & 1);
    ByteReverse(i);
  }

  lemma ReverseShift(r: bv32)
    ensures Reversed(r << 1) == Reversed(r) >> 1
  {
  }

  lemma ReverseShiftByte(r: bv32)
    ensures Reversed(r << 8) == Reversed(r) >> 8
  {
  }

  lemma ReverseShl(r: bv32)
    ensures Reversed(Shl(r)) == Shr(Reversed(r)) && Reversed(ShlByte(r)) == ShrByte(Reversed(r))
  {
    hide Reversed;
    ReverseShift(r);
    ReverseShiftByte(r);
  }

  lemma ReverseTwice(r: bv32)
    ensures Reversed(Reversed(r)) == r
  {
  }

  lemma ReverseLow(r: bv32)
    ensures Low(Reversed(r)) == Top(r)
  {
  }

  lemma ReverseLowByte(r: bv32)
    ensures Reversed8(LowByte(Reversed(r))) == TopByte(r)
  {
  }

  lemma ReverseXor(a: bv32, b: bv32)
    ensures Reversed(Xor(a, b)) == Xor(Reversed(a), Reversed(b))
  {
  }

  lemma ReverseXor8(a: bv8, b: bv8)
    ensures Reversed8(Xor8(a, b)) == Xor8(Reversed8(a), Reversed8(b))
  {
  }

  lemma ReverseByte(b: bv8)
    ensures Top8(Reversed8(b)) == Low8(b) && Shl8(Reversed8(b)) == Reversed8(Shr8(b)) && Reversed8(Reversed8(b)) == b
  {
  }

  lemma ReverseConstants(c: bool)
    ensures Reversed(Carry(c)) == MirrorCarry(c) && Reversed(START) == START
  {
    ZeroReversed();
  }

  lemma ZeroReversed()
    ensures Reversed(0) == 0 && Reversed(POLY) == MIRROR_POLY && Reversed(START) == START
  {
  }

  /** The register of Annex A and that of IEEE 802.3 mirror each other. */
  lemma {:induction false} ShiftByteMirrored(r: bv32, b: bv8, n: nat)
    ensures Reversed(ShiftByte(r, Reversed8(b), n)) == IeeeByte(Reversed(r), b, n)
    decreases n
  {
    hide Xor, Shl, Shr, Top, Low, Top8, Low8, Shl8, Shr8, Carry, MirrorCarry, Reversed, Reversed8;
    if n > 0 {
      var bit := Low8(b);
      ReverseByte(b);
      ReverseShl(r);
      ReverseLow(r);
      ReverseXor(Shl(r), Carry(Top(r) != bit));
      ReverseConstants(Top(r) != bit);
      ShiftByteMirrored(Shift(r, bit), Shr8(b), n - 1);
    }
  }

  lemma EntryMirrored(i: bv8)
    ensures ReflectedEntry(i) == Reversed(Entry(Reversed8(i)))
  {
    hide Reflect32, Reflect8, DivideBy, Raise, Reversed, Reversed8;
    Reflect8Is(i);
    ReflectIs(DivideBy(Raise(Reversed8(i)), 8));
  }

  /** A table step with the reflected entries is the eight bit steps of its byte. */
  lemma MirrorStepIsShifts(r: bv32, b: bv8)
    ensures MirrorStep(ReflectedEntry, r, b) == IeeeByte(r, b, 8)
  {
    hide Xor, Xor8, Entry, ReflectedEntry, Reversed, Reversed8, TopByte, LowByte, ShlByte, ShrByte, ShiftByte, IeeeByte;
    var m := Reversed(r);
    var c := Reversed8(b);
    ReverseShl(m);
    ReverseTwice(r);
    ReverseLowByte(m);
    ReverseByte(b);
    TableStepIsShifts(m, c);
    ShiftByteMirrored(m, b, 8);
    EntryMirrored(Xor8(LowByte(r), b));
    ReverseXor8(LowByte(r), b);
    ReverseXor(Entry(Xor8(TopByte(m), c)), ShlByte(m));
  }

  /** With the reflected table the loop computes the register of IEEE 802.3, for every byte string. */
  lemma {:induction false} MirrorCrcIsIeee(r: bv32, s: seq<byte>)
    ensures MirrorCrc(ReflectedEntry, r, s) == IeeeRegister(r, s)
    decreases |s|
  {
    hide ReflectedEntry, MirrorStep, IeeeByte, Bits;
    if s != [] {
      MirrorCrcIsIeee(r, s[..|s| - 1]);
      MirrorStepIsShifts(IeeeRegister(r, s[..|s| - 1]), Bits(s[|s| - 1]));
    }
  }

  ghost predicate IeeeAlwaysRight(t: bv8 -> bv32) {
    forall s: seq<byte> :: MirrorCrc(t, START, s) == IeeeRegister(START, s)
  }

  lemma MirrorProbe(i: bv8)
    ensures Xor8(LowByte(START), Bits(Probe(i))) == i
  {
    ProbeByte(i);
    hide Bits, Probe;
    assert 0xFF ^ (i ^ 0xFF) == i;
  }

  /** And CRC32Ieee is right for all inputs exactly if the shared table was built by CRC32Ieee. */
  lemma SharedTableIeee(reflected: bool)
    ensures IeeeAlwaysRight(MadeBy(reflected)) <==> reflected
  {
    hide Entry, ReflectedEntry, Xor, Xor8, LowByte, ShrByte, Bits, Probe, IeeeRegister;
    if reflected {
      forall s: seq<byte> ensures MirrorCrc(MadeBy(true), START, s) == IeeeRegister(START, s) {
        MirrorCrcIsIeee(START, s);
      }
    } else {
      var s := [Probe(0x80)];
      assert s[..0] == [];
      MirrorProbe(0x80);
      MirrorCrcIsIeee(START, s);
      TablesDiffer();
      if MirrorCrc(MadeBy(false), START, s) == IeeeRegister(START, s) {
        XorCancel(Entry(0x80), ReflectedEntry(0x80), ShrByte(START));
      }
    }
  }

  /** The registers after nothing and after one zero byte. */
  lemma CrcOfZero()
    ensures Decoder(START, []) == 0xFFFFFFFF && IeeeRegister(START, []) == 0xFFFFFFFF
    ensures Decoder(START, [0]) == 0x4E08BFB4 && Xor(IeeeRegister(START, [0]), START) == 0xD202EF8D
  {
    hide ShiftByte, IeeeByte, Entry, Reversed, Bits, Xor, Xor8, TopByte, LowByte, ShlByte, ShrByte, ReflectedEntry;
    LastEntry();
    var s: seq<byte> := [0];
    assert s[1..] == [] && s[..0] == [];
    ZeroBits();
    TableStepIsShifts(START, 0);
    MirrorStepIsShifts(START, 0);
  }

  lemma ZeroBits()
    ensures Bits(0) == 0 && Xor8(TopByte(START), 0) == 0xFF && Xor8(LowByte(START), 0) == 0xFF
    ensures Xor(0xB1F740B4, ShlByte(START)) == 0x4E08BFB4
    ensures Xor(Xor(0x2D02EF8D, ShrByte(START)), START) == 0xD202EF8D
  {
  }

  lemma LastEntry()
    ensures Entry(0xFF) == 0xB1F740B4 && ReflectedEntry(0xFF) == 0x2D02EF8D
  {
    FourDivisions(0xFF000000, 8, 0xC84FBDBD);
    FourDivisions(0xC84FBDBD, 4, 0xB1F740B4);
    NoDivision(0xB1F740B4);
    EntryMirrored(0xFF);
    AllOnes();
  }

  lemma AllOnes()
    ensures Reversed8(0xFF) == 0xFF && Reversed(0xB1F740B4) == 0x2D02EF8D
  {
  }

  // The loop of CRC32Ieee runs on a 64-bit register.

  function MirrorIndex(reg: bv64, b: bv8): bv8 { ((reg ^ (b as bv64)) & 0xFF) as bv8 }

  function MirrorWide(entry: bv32, reg: bv64): bv64 { Widen(entry) ^ (reg >> 8) }

  lemma IndexIs(r: bv32, b: bv8)
    ensures MirrorIndex(Widen(r), b) == Xor8(LowByte(r), b)
  {
  }

  lemma WideMirror(entry: bv32, r: bv32)
    ensures MirrorWide(entry, Widen(r)) == Widen(Xor(entry, ShrByte(r)))
  {
  }

  /** The table of TsTool and its flag, which CRC32 and CRC32Ieee share. */
  class TsTool {
    const table: array<bv32>
    var initialized: bool
    /** The first call was CRC32Ieee. */
    ghost var reflected: bool

    ghost predicate Valid()
      reads this, table
    {
      table.Length == 256 && (initialized ==> Filled(table[..], 256, MadeBy(reflected)))
    }

    constructor ()
      ensures Valid() && fresh(table) && !initialized
    {
      table := new bv32[256];
      initialized, reflected := false, false;
    }

    /** __crc32_reflect. */
    static method Reflection(data: bv64, width: nat) returns (res: bv64)
      requires width > 0
      ensures res == Reflect(data, width)
    {
      hide Halve, Push;
      res := data & 1;
      var d := data;
      ghost var start := Mirror(data, data & 1);
      for i := 0 to width - 1
        invariant Mirror(d, res) == Turns(start, i)
      {
        TurnsLast(start, i);
        d := Halve(d);
        res := Push(d, res);
      }
    }

    /** One entry of __crc32_make_table. */
    static method MakeEntry(reflectIn: bool, i: bv8) returns (entry: bv32)
      ensures entry == MadeBy(reflectIn)(i)
    {
      hide Divide, WideDivide, Low32, Raise, MadeBy, Reflect, Widen;
      var x := i;
      if reflectIn {
        var m := Reflection(i as bv64, 8);
        x := (m & 0xFF) as bv8;
      }
      var reg: bv64 := (x as bv64) << 24;
      ghost var start := Raise(x);
      LowRaised(x);
      for j := 0 to 8
        invariant Low32(reg) == DivideBy(start, j)
      {
        WideDivideLow(reg);
        DivideByLast(start, j);
        reg := WideDivide(reg);
      }
      entry := Low32(reg);
      if reflectIn {
        var m := Reflection(Widen(entry), 32);
        entry := Low32(m);
      }
      MadeEntry(reflectIn, i);
    }

    /** __crc32_make_table. */
    method MakeTable(reflectIn: bool)
      requires table.Length == 256
      modifies table
      ensures Filled(table[..], 256, MadeBy(reflectIn))
    {
      hide MadeBy, ByteAt;
      for i := 0 to 256
        invariant Filled(table[..], i, MadeBy(reflectIn))
      {
        var entry := MakeEntry(reflectIn, ByteAt(i));
        table[i] := entry;
      }
    }

    /**
     * The table-driven CRC of a buffer with a register that is never masked: the Annex A register over its bytes,
     * unless the table had been built by CRC32Ieee.
     */
    method CRC32(buf: seq<byte>) returns (crc: bv32)
      requires Valid()
      modifies this`initialized, this`reflected, table
      ensures Valid() && initialized && reflected == (old(initialized) && old(reflected))
      ensures crc == TableCrc(MadeBy(reflected), START, buf)
      ensures !reflected ==> crc == Decoder(START, buf)
    {
      hide Entry, Filled, Low32, WideStep, WideIndex, Bits, Xor, Xor8, TopByte, ShlByte, MadeBy, Decoder;
      if !initialized {
        MakeTable(false);
        initialized, reflected := true, false;
      }
      ghost var t := MadeBy(reflected);
      var reg := Widen(START);
      LowOf(START);
      assert buf[..0] == [];
      for i := 0 to |buf|
        invariant Low32(reg) == TableCrc(t, START, buf[..i])
        invariant Valid() && initialized && t == MadeBy(reflected)
        invariant reflected == (old(initialized) && old(reflected))
      {
        var p := Bits(buf[i]);
        var idx := WideIndex(reg, p);
        WideIndexLow(reg, p);
        EntryOf(table[..], idx, t);
        WideStepLow(table[idx as int], reg);
        assert buf[..i + 1] == buf[..i] + [buf[i]];
        TableCrcAppend(t, START, buf[..i], buf[i]);
        reg := WideStep(table[idx as int], reg);
      }
      assert buf[..|buf|] == buf;
      crc := Low32(reg);
      PlainTable();
      TableCrcIsDecoder(START, buf);
    }

    static lemma PlainTable()
      ensures MadeBy(false) == Entry
    {
    }

    /**
     * The reflected variant, on whatever table is there: the checksum of IEEE 802.3, unless the table had been built by
     * CRC32.
     */
    method CRC32Ieee(buf: seq<byte>) returns (crc: bv32)
      requires Valid()
      modifies this`initialized, this`reflected, table
      ensures Valid() && initialized && reflected == (old(initialized) ==> old(reflected))
      ensures crc == Xor(MirrorCrc(MadeBy(reflected), START, buf), START)
      ensures reflected ==> crc == Xor(IeeeRegister(START, buf), START)
    {
      hide Entry, ReflectedEntry, Filled, Low32, Bits, Xor, Reflect, Xor8, LowByte, ShrByte, MadeBy, Widen,
           IeeeRegister;
      if !initialized {
        MakeTable(true);
        initialized, reflected := true, true;
      }
      StartReflected();
      var reg := Reflection(Widen(START), 32);
      reg := IeeeLoop(reg, buf);
      TwiceReflected(MirrorCrc(MadeBy(reflected), START, buf));
      MirrorCrcIsIeee(START, buf);
      MirrorTable();
      reg := Reflection(reg, 32);
      reg := Reflection(reg, 32);
      crc := Xor(Low32(reg), START);
    }

    /** Lines 84 to 87: every byte looks up an entry. */
    method IeeeLoop(start: bv64, buf: seq<byte>) returns (reg: bv64)
      requires Valid() && initialized && start == Widen(START)
      ensures reg == Widen(MirrorCrc(MadeBy(reflected), START, buf))
    {
      hide Filled, Bits, Xor, Xor8, LowByte, ShrByte, MadeBy, Widen, MirrorIndex, MirrorWide;
      reg := start;
      ghost var t := MadeBy(reflected);
      assert buf[..0] == [];
      for i := 0 to |buf|
        invariant reg == Widen(MirrorCrc(t, START, buf[..i]))
      {
        ghost var r := MirrorCrc(t, START, buf[..i]);
        var p := Bits(buf[i]);
        var idx := MirrorIndex(reg, p);
        EntryOf(table[..], idx, t);
        assert buf[..i + 1][..i] == buf[..i];
        IndexIs(r, p);
        WideMirror(t(idx), r);
        reg := MirrorWide(table[idx as int], reg);
      }
      assert buf[..|buf|] == buf;
    }

    static lemma StartReflected()
      ensures Reflect(Widen(START), 32) == Widen(START)
    {
      hide Reflect, Widen, Reversed;
      ReflectIs(START);
      ReverseConstants(true);
    }

    static lemma TwiceReflected(r: bv32)
      ensures Low32(Reflect(Reflect(Widen(r), 32), 32)) == r
    {
      hide Reflect, Widen, Reversed, Low32;
      ReflectIs(r);
      ReflectIs(Reversed(r));
      ReverseTwice(r);
      LowOf(r);
    }

    static lemma MirrorTable()
      ensures MadeBy(true) == ReflectedEntry
    {
    }
  }
}
