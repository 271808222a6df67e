/**
 * The bit reader for NAL units: emulation prevention (clause 7.4.1 of ITU-T H.264) and Exp-Golomb codes (clause 9.1).
 */
module NalBits {
  import opened Bytes

  // ---- Emulation prevention ----

  /** The byte stream of an encoder that has just written `zeros` zero bytes. */
  function Escape(s: seq<byte>, zeros: nat): seq<byte>
    decreases |s|
  {
    if s == [] then []
    else if zeros >= 2 && s[0] <= 3 then [3, s[0]] + Escape(s[1..], if s[0] == 0 then 1 else 0)
    else [s[0]] + Escape(s[1..], if s[0] == 0 then zeros + 1 else 0)
  }

  /** Every 03 after two zero bytes is dropped. */
  function Unescape(s: seq<byte>, zeros: nat): seq<byte>
    decreases |s|
  {
    if s == [] then []
    else if zeros >= 2 && s[0] == 3 then Unescape(s[1..], 0)
    else [s[0]] + Unescape(s[1..], if s[0] == 0 then zeros + 1 else 0)
  }

  lemma {:induction false} UnescapeEscape(s: seq<byte>, zeros: nat)
    ensures Unescape(Escape(s, zeros), zeros) == s
    decreases |s|
  {
    if s != [] {
      var e := Escape(s, zeros);
      if zeros >= 2 && s[0] <= 3 {
        var z := if s[0] == 0 then 1 else 0;
        UnescapeEscape(s[1..], z);
        assert e[1..] == [s[0]] + Escape(s[1..], z);
        assert e[1..][1..] == Escape(s[1..], z);
      } else {
        var z := if s[0] == 0 then zeros + 1 else 0;
        UnescapeEscape(s[1..], z);
        assert e[1..] == Escape(s[1..], z);
      }
    }
  }

  predicate Dropped(data: seq<byte>, i: nat)
    requires i < |data|
  {
    data[i] == 3 && i >= 2 && data[i - 1] == 0 && data[i - 2] == 0
  }

  /** Data that ends in a byte to be dropped makes the reader go past the end. */
  predicate EndsDropped(data: seq<byte>) {
    data != [] && Dropped(data, |data| - 1)
  }

  /** The bytes still to come from position `i`. */
  function Rest(data: seq<byte>, i: nat): (r: seq<byte>)
    requires i <= |data| && !EndsDropped(data)
    ensures r == [] <==> i == |data|
    decreases |data| - i
  {
    if i == |data| then []
    else if Dropped(data, i) then [data[i + 1]] + Rest(data, i + 2)
    else [data[i]] + Rest(data, i + 1)
  }

  /** The index GetByte reads at position `i`. */
  function ReadIndex(data: seq<byte>, i: nat): nat
    requires i < |data|
  {
    if Dropped(data, i) then i + 1 else i
  }

  /** Some call of GetByte from position `i` on reads outside the data. */
  predicate LeavesData(data: seq<byte>, i: nat)
    decreases |data| - i
  {
    i < |data| && (ReadIndex(data, i) >= |data| || LeavesData(data, ReadIndex(data, i) + 1))
  }

  /** Reading through the data leaves it exactly if it ends in a byte to be dropped. */
  lemma {:induction false} LeavesExactly(data: seq<byte>, i: nat)
    requires i < |data|
    ensures LeavesData(data, i) <==> EndsDropped(data)
    decreases |data| - i
  {
    var j := ReadIndex(data, i) + 1;
    if j < |data| {
      LeavesExactly(data, j);
    }
  }

  /** A NAL unit of two zero bytes and 03 makes the reader fetch the byte after it. */
  lemma LeavesExample()
    ensures LeavesData([0, 0, 3], 0)
  {
    LeavesExactly([0, 0, 3], 0);
  }

  function ZerosBefore(data: seq<byte>, i: nat): nat
    requires i <= |data|
  {
    if i == 0 || data[i - 1] != 0 then 0 else ZerosBefore(data, i - 1) + 1
  }

  /** The reader's test of the two bytes before is the zero counter of the standard. */
  lemma {:induction false} RestIsUnescape(data: seq<byte>, i: nat)
    requires i <= |data| && !EndsDropped(data)
    ensures Rest(data, i) == Unescape(data[i..], ZerosBefore(data, i))
    decreases |data| - i
  {
    if i < |data| {
      assert data[i..][1..] == data[i + 1..];
      if Dropped(data, i) {
        RestIsUnescape(data, i + 2);
        assert data[i + 1..][1..] == data[i + 2..];
        assert ZerosBefore(data, i - 1) >= 1;
      } else {
        RestIsUnescape(data, i + 1);
      }
    }
  }

  /** What was escaped is read back. */
  lemma RestoresPayload(s: seq<byte>)
    requires !EndsDropped(Escape(s, 0))
    ensures Rest(Escape(s, 0), 0) == s
  {
    var e := Escape(s, 0);
    RestIsUnescape(e, 0);
    assert e[0..] == e;
    UnescapeEscape(s, 0);
  }

  // ---- Bits ----

  type bit = b: int | 0 <= b < 2

  function Pow2(n: nat): (p: nat)
    ensures p > 0
  {
    if n == 0 then 1 else 2 * Pow2(n - 1)
  }

  /** The low `n` bits of a byte, most significant first. */
  function LowBits(b: nat, n: nat): (r: seq<bit>)
    ensures |r| == n
  {
    if n == 0 then [] else [b / Pow2(n - 1) % 2] + LowBits(b, n - 1)
  }

  function Bits(s: seq<byte>): (r: seq<bit>)
    ensures |r| == 8 * |s|
    decreases |s|
  {
    if s == [] then [] else LowBits(s[0], 8) + Bits(s[1..])
  }

  function Value(s: seq<bit>): (v: nat)
    ensures v < Pow2(|s|)
    decreases |s|
  {
    if s == [] then 0 else 2 * Value(s[..|s| - 1]) + s[|s| - 1] as int
  }

  function Zeros(n: nat): (r: seq<bit>)
    ensures |r| == n
  {
    seq(n, _ => 0)
  }

  /** The next bit and the bits after it; past the end a zero byte is supplied. */
  function NextBit(r: seq<bit>): (bit, seq<bit>) {
    if r == [] then (0, Zeros(7)) else (r[0], r[1..])
  }

  /** The next `n` bits, with zeros past the end. */
  function Padded(r: seq<bit>, n: nat): (p: seq<bit>)
    ensures |p| == n
  {
    (r + Zeros(n))[..n]
  }

  /** The bits left after `n`; past the end the rest of the last zero byte supplied. */
  function After(r: seq<bit>, n: nat): seq<bit> {
    if n <= |r| then r[n..] else Zeros((8 - (n - |r|) % 8) % 8)
  }

  function Word(r: seq<bit>, n: nat): nat {
    Value(Padded(r, n)) % 65536
  }

  /** The zeros GetUE counts. */
  function UeZeros(r: seq<bit>): nat
    decreases |r|
  {
    if |r| < 8 || r[0] == 1 then 0 else UeZeros(r[1..]) + 1
  }

  /** The bits from which GetUE takes the suffix. */
  function UeStart(r: seq<bit>): seq<bit>
    decreases |r|
  {
    if |r| < 8 then r else if r[0] == 1 then r[1..] else UeStart(r[1..])
  }

  function UeValue(r: seq<bit>): nat {
    Word(UeStart(r), UeZeros(r)) + Pow2(UeZeros(r)) - 1
  }

  function UeRest(r: seq<bit>): seq<bit> {
    After(UeStart(r), UeZeros(r))
  }

  // ---- The reader ----

  class NalBitStream {
    const data: seq<byte>
    var bitsCount: nat
    var byteIdx: nat
    var current: byte

    ghost predicate Valid()
      reads this
    {
      !EndsDropped(data) && byteIdx <= |data| && bitsCount < 8
    }

    /** The bits still to be read. */
    ghost function Remaining(): seq<bit>
      reads this
      requires Valid()
    {
      LowBits(current, bitsCount) + Bits(Rest(data, byteIdx))
    }

    constructor (d: seq<byte>)
      requires !EndsDropped(d)
      ensures Valid() && data == d && Remaining() == Bits(Unescape(d, 0))
    {
      data, bitsCount, byteIdx, current := d, 0, 0, 0;
      new;
      RestIsUnescape(d, 0);
      assert d[0..] == d;
    }

    method GetByte() returns (b: byte)
      requires Valid()
      modifies `byteIdx
      ensures Valid()
      ensures var rest := Rest(data, old(byteIdx));
              if rest == [] then b == 0 && byteIdx == old(byteIdx)
              else b == rest[0] && Rest(data, byteIdx) == rest[1..]
    {
      if byteIdx >= |data| {
        return 0;
      }
      if data[byteIdx] == 0x03 {
        if byteIdx >= 2 {
          if data[byteIdx - 1] == 0 && data[byteIdx - 2] == 0 {
            byteIdx := byteIdx + 1;
          }
        }
      }
      b := data[byteIdx];
      byteIdx := byteIdx + 1;
    }

    /** Past the end the reader supplies zero bits, eight at a time. */
    method GetBit() returns (b: bit)
      requires Valid()
      modifies this
      ensures Valid()
      ensures (b, Remaining()) == NextBit(old(Remaining()))
    {
      hide Pow2, LowBits, Bits, Rest;
      ghost var all := Remaining();
      if bitsCount == 0 {
        ghost var rest := Rest(data, byteIdx);
        current := GetByte();
        bitsCount := 8;
        Refilled(rest, current, Rest(data, byteIdx));
      }
      LowBitsFirst(current, bitsCount);
      bitsCount := bitsCount - 1;
      b := current as int / Pow2(bitsCount) % 2;
      assert Remaining() == NextBit(all).1;
    }

    /** The next `bits` bits as a number, in 16 bits. */
    method GetWord(bits: nat) returns (u: nat)
      requires Valid()
      modifies this
      ensures Valid()
      ensures u == Word(old(Remaining()), bits) && Remaining() == After(old(Remaining()), bits)
    {
      hide Value, Pow2, After, Padded, NextBit;
      ghost var all := Remaining();
      u := 0;
      var n := bits;
      NoBits(all);
      while n > 0
        invariant 0 <= n <= bits && Valid()
        invariant Remaining() == After(all, bits - n) && u == Word(all, bits - n)
      {
        ghost var k := bits - n;
        OneMoreBit(all, k);
        ShiftIn(Padded(all, k), NextBit(After(all, k)).0);
        u := u * 2 % 65536;
        var b := GetBit();
        u := u + b;
        n := n - 1;
      }
    }

    /**
     * Exp-Golomb: the loop stops at the first 1, or as soon as fewer than eight bits are left. From 31 zeros on the
     * power of two is out of the range of an int, and no value is promised.
     */
    method GetUE() returns (v: nat)
      requires Valid()
      modifies this
      ensures Valid() && Remaining() == UeRest(old(Remaining()))
      ensures UeZeros(old(Remaining())) <= 30 ==> v == UeValue(old(Remaining()))
    {
      hide Word, After, Pow2, LowBits, Bits, Rest;
      ghost var all := Remaining();
      var zeros := 0;
      EightLeft();
      var more := byteIdx < |data|;
      while more
        invariant Valid() && (more ==> |Remaining()| >= 8)
        invariant UeZeros(all) == zeros + if more then UeZeros(Remaining()) else 0
        invariant UeStart(all) == if more then UeStart(Remaining()) else Remaining()
        decreases more, |Remaining()|
      {
        var b := GetBit();
        if b == 0 {
          zeros := zeros + 1;
          EightLeft();
          more := byteIdx < |data|;
        } else {
          more := false;
        }
      }
      var word := GetWord(zeros);
      v := *;
      if zeros <= 30 {
        v := word + (Pow2(zeros) - 1);
      }
    }

    lemma EightLeft()
      requires Valid()
      ensures byteIdx < |data| <==> |Remaining()| >= 8
    {
    }
  }

  lemma LowBitsFirst(b: nat, n: nat)
    requires n > 0
    ensures LowBits(b, n) == [b / Pow2(n - 1) % 2] + LowBits(b, n - 1)
  {
  }

  lemma ZeroBit(n: nat)
    ensures 0 / Pow2(n) % 2 == 0
  {
  }

  lemma {:induction false} LowBitsZero(n: nat)
    ensures LowBits(0, n) == Zeros(n)
  {
    if n > 0 {
      LowBitsZero(n - 1);
      ZeroBit(n - 1);
    }
  }

  /** A byte has been fetched when no bit was left. */
  lemma Refilled(rest: seq<byte>, b: byte, left: seq<byte>)
    requires if rest == [] then b == 0 && left == [] else b == rest[0] && left == rest[1..]
    ensures NextBit(LowBits(b, 8) + Bits(left)) == NextBit(LowBits(0, 0) + Bits(rest))
  {
    hide LowBits;
    assert LowBits(0, 0) + Bits(rest) == Bits(rest);
    if rest == [] {
      LowBitsZero(8);
      assert LowBits(0, 8) + Bits([]) == Zeros(8) && Zeros(8)[1..] == Zeros(7);
    }
  }

  lemma NoBits(r: seq<bit>)
    ensures After(r, 0) == r && Word(r, 0) == 0
  {
    assert Padded(r, 0) == [];
  }

  lemma OneMoreBit(r: seq<bit>, n: nat)
    ensures Padded(r, n + 1) == Padded(r, n) + [NextBit(After(r, n)).0] && After(r, n + 1) == NextBit(After(r, n)).1
  {
    hide After, NextBit;
    AfterStep(r, n);
    assert Padded(r, n + 1) == Padded(r, n) + [if n < |r| then r[n] else 0];
  }

  lemma AfterStep(r: seq<bit>, n: nat)
    ensures NextBit(After(r, n)) == (if n < |r| then r[n] else 0, After(r, n + 1))
  {
    if n >= |r| {
      LeftOver(n - |r|);
    }
  }

  lemma LeftOver(past: nat)
    ensures NextBit(Zeros((8 - past % 8) % 8)) == (0, Zeros((8 - (past + 1) % 8) % 8))
  {
    var k := past % 8;
    if k == 7 {
      assert (past + 1) % 8 == 0 && Zeros(1)[1..] == Zeros(0);
    } else {
      assert (past + 1) % 8 == k + 1;
      if k > 0 {
        assert Zeros(8 - k)[1..] == Zeros(7 - k);
      }
    }
  }

  lemma ShiftIn(s: seq<bit>, b: bit)
    ensures Value(s + [b]) % 65536 == Value(s) % 65536 * 2 % 65536 + b
  {
    assert (s + [b])[..|s|] == s;
  }

  // ---- Exp-Golomb codes ----

  /** The value of the code with this suffix. */
  function CodeValue(suffix: seq<bit>): nat {
    Value(suffix) + Pow2(|suffix|) - 1
  }

  /** The zeros counted and the bits left when `k` zeros and a 1 are ahead. */
  lemma {:induction false} UeScan(k: nat, r: seq<bit>, more: seq<bit>)
    requires r == Zeros(k) + [1] + more
    ensures |more| >= 7 ==> UeZeros(r) == k && UeStart(r) == more
    ensures |more| < 7 ==> UeZeros(r) <= k && UeStart(r) == r[UeZeros(r)..]
    decreases k
  {
    if k > 0 && |r| >= 8 {
      assert r[1..] == Zeros(k - 1) + [1] + more;
      UeScan(k - 1, r[1..], more);
      assert |more| < 7 ==> r[1..][UeZeros(r[1..])..] == r[UeZeros(r)..];
    } else {
      assert r[0..] == r && (k == 0 ==> r[1..] == more);
    }
  }

  lemma Whole(suffix: seq<bit>, tail: seq<bit>)
    ensures var more := suffix + tail;
            Word(more, |suffix|) == Value(suffix) % 65536 && After(more, |suffix|) == tail
  {
    assert Padded(suffix + tail, |suffix|) == suffix;
  }

  lemma TooLong(r: seq<bit>, z: nat)
    requires 2 * z <= |r|
    ensures |After(r[z..], z)| == |r| - 2 * z
  {
  }

  /** A code is read correctly exactly if eight bits are left when its 1 is due and its suffix fits in 16 bits. */
  lemma CodeRead(suffix: seq<bit>, tail: seq<bit>)
    ensures var r := Zeros(|suffix|) + [1] + suffix + tail;
            UeValue(r) == CodeValue(suffix) && UeRest(r) == tail <==>
            |suffix| + 1 + |tail| >= 8 && Value(suffix) < 65536
  {
    hide Value, Pow2, UeZeros, UeStart, Padded, After, Word;
    var k, more := |suffix|, suffix + tail;
    var r := Zeros(k) + [1] + suffix + tail;
    assert r == Zeros(k) + [1] + more;
    UeScan(k, r, more);
    if |more| >= 7 {
      Whole(suffix, tail);
    } else {
      TooLong(r, UeZeros(r));
    }
  }

  /** The suffix of the code of `v`. */
  function Suffix(v: nat): seq<bit> {
    ToBits(v + 1 - Pow2(Log2(v + 1)), Log2(v + 1))
  }

  function Log2(x: nat): (n: nat)
    requires x > 0
    ensures Pow2(n) <= x < 2 * Pow2(n)
  {
    if x == 1 then 0 else Log2(x / 2) + 1
  }

  function ToBits(x: nat, n: nat): (r: seq<bit>)
    ensures |r| == n
  {
    if n == 0 then [] else ToBits(x / 2, n - 1) + [x % 2]
  }

  lemma {:induction false} ToBitsValue(x: nat, n: nat)
    requires x < Pow2(n)
    ensures Value(ToBits(x, n)) == x
    decreases n
  {
    if n > 0 {
      ToBitsValue(x / 2, n - 1);
      assert ToBits(x, n)[..n - 1] == ToBits(x / 2, n - 1);
    }
  }

  /** Every number has a code. */
  lemma EveryValueHasCode(v: nat)
    ensures CodeValue(Suffix(v)) == v
  {
    ToBitsValue(v + 1 - Pow2(Log2(v + 1)), Log2(v + 1));
  }
}
