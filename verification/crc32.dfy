/**
  The CRC of scripts/ensure-icon.js: the reflected CRC-32 of section 3.4 of RFC 2083
  (polynomial 0xEDB88320 in reflected form, register preset to all ones, result
  complemented), computed byte by byte through a 256-entry table.

  The script's numbers hold 32-bit patterns: `^` and `&` act on the bits, `>>> k` reads
  the pattern as unsigned and shifts it. A register is modelled by that unsigned
  reading, a natural number, so `c >>> k` is `c / 2^k`, `c & 0xff` is `c % 256`, and
  `^` is `Xor`, the bit-by-bit exclusive or of two naturals.
 */
module Crc32 {
  type byte = b: int | 0 <= b < 256

  const UINT32_LIMIT: nat := 0x1_0000_0000
  const POLY: nat := 0xEDB8_8320
  const ALL_ONES: nat := 0xFFFF_FFFF

  // ---------------------------------------------------------------------------------------
  // Exclusive or on unsigned readings

  /** Bit-by-bit exclusive or: the low bits differ or not, the rest is the exclusive or of the halves. */
  function Xor(a: nat, b: nat): nat
    decreases a + b
  {
    if a == 0 && b == 0 then 0 else 2 * Xor(a / 2, b / 2) + (if a % 2 == b % 2 then 0 else 1)
  }

  function Pow2(k: nat): nat
  {
    if k == 0 then 1 else 2 * Pow2(k - 1)
  }

  /** `k` unsigned shifts right by one. */
  function Shr(n: nat, k: nat): nat
  {
    if k == 0 then n else Shr(n / 2, k - 1)
  }

  lemma XorBits(a: nat, b: nat)
    ensures Xor(a, b) % 2 == (if a % 2 == b % 2 then 0 else 1)
    ensures Xor(a, b) / 2 == Xor(a / 2, b / 2)
  {
  }

  /** A number is its half and its low bit. */
  lemma Rebuild(l: nat, r: nat)
    requires l / 2 == r / 2 && l % 2 == r % 2
    ensures l == r
  {
  }

  lemma {:induction false} XorComm(a: nat, b: nat)
    ensures Xor(a, b) == Xor(b, a)
    decreases a + b
  {
    if a + b > 0 {
      XorComm(a / 2, b / 2);
    }
  }

  lemma {:induction false} XorZero(a: nat)
    ensures Xor(a, 0) == a && Xor(0, a) == a
  {
    if a > 0 {
      XorZero(a / 2);
    }
  }

  lemma {:induction false} XorSelf(a: nat)
    ensures Xor(a, a) == 0
  {
    if a > 0 {
      XorSelf(a / 2);
    }
  }

  lemma {:induction false} XorAssoc(a: nat, b: nat, c: nat)
    ensures Xor(Xor(a, b), c) == Xor(a, Xor(b, c))
    decreases a + b + c
  {
    if a + b + c > 0 {
      XorAssoc(a / 2, b / 2, c / 2);
      XorBits(a, b);
      XorBits(Xor(a, b), c);
      XorBits(b, c);
      XorBits(a, Xor(b, c));
      Rebuild(Xor(Xor(a, b), c), Xor(a, Xor(b, c)));
    }
  }

  /** Moving one operand to the front of a three-way exclusive or. */
  lemma XorSwap(p: nat, u: nat, v: nat)
    ensures Xor(u, Xor(p, v)) == Xor(p, Xor(u, v))
  {
    XorAssoc(u, p, v);
    XorComm(u, p);
    XorAssoc(p, u, v);
  }

  /** Exclusive or of two numbers below 2^k stays below 2^k. */
  lemma {:induction false} XorBound(a: nat, b: nat, k: nat)
    requires a < Pow2(k) && b < Pow2(k)
    ensures Xor(a, b) < Pow2(k)
  {
    if k > 0 && a + b > 0 {
      XorBound(a / 2, b / 2, k - 1);
    }
  }

  lemma XorUint32(a: nat, b: nat)
    requires a < UINT32_LIMIT && b < UINT32_LIMIT
    ensures Xor(a, b) < UINT32_LIMIT
  {
    assert Pow2(8) == 0x100;
    assert Pow2(16) == 0x1_0000;
    assert Pow2(24) == 0x100_0000;
    assert Pow2(32) == UINT32_LIMIT;
    XorBound(a, b, 32);
  }

  /** A high part with an empty low part: exclusive or is addition. */
  lemma {:induction false} XorDisjoint(q: nat, r: nat, k: nat)
    requires r < Pow2(k)
    ensures Xor(Pow2(k) * q, r) == Pow2(k) * q + r
  {
    var h := Pow2(k) * q;
    if k == 0 {
      XorZero(h);
    } else {
      assert h == 2 * (Pow2(k - 1) * q);
      XorDisjoint(q, r / 2, k - 1);
      XorBits(h, r);
      Rebuild(Xor(h, r), h + r);
    }
  }

  /** Exclusive or with a number below 2^k leaves the bits from k up alone. */
  lemma {:induction false} XorShr(c: nat, b: nat, k: nat)
    requires Shr(b, k) == 0
    ensures Shr(Xor(c, b), k) == Shr(c, k)
  {
    if k > 0 {
      XorBits(c, b);
      XorShr(c / 2, b / 2, k - 1);
    } else {
      XorZero(c);
    }
  }

  lemma ShrByte(n: nat)
    ensures Shr(n, 8) == n / 256
  {
    var n1, n2, n3, n4 := n / 2, n / 4, n / 8, n / 16;
    var n5, n6, n7, n8 := n / 32, n / 64, n / 128, n / 256;
    assert n1 / 2 == n2 && n2 / 2 == n3 && n3 / 2 == n4 && n4 / 2 == n5;
    assert n5 / 2 == n6 && n6 / 2 == n7 && n7 / 2 == n8;
    assert Shr(n8, 0) == n8;
    assert Shr(n7, 1) == n8;
    assert Shr(n6, 2) == n8;
    assert Shr(n5, 3) == n8;
    assert Shr(n4, 4) == n8;
    assert Shr(n3, 5) == n8;
    assert Shr(n2, 6) == n8;
    assert Shr(n1, 7) == n8;
  }

  // ---------------------------------------------------------------------------------------
  // The table

  /** One bit step: `c & 1 ? 0xedb88320 ^ (c >>> 1) : c >>> 1`. */
  function Round(c: nat): nat
  {
    if c % 2 == 1 then Xor(POLY, c / 2) else c / 2
  }

  /** `k` bit steps. */
  function Rounds(c: nat, k: nat): nat
    decreases k
  {
    if k == 0 then c else Rounds(Round(c), k - 1)
  }

  /** Entry `n` of the table, as section 3.4 of RFC 2083 defines it: `n` after eight bit steps. */
  function TableEntry(n: nat): nat
    requires n < 256
  {
    Rounds(n, 8)
  }

  lemma {:induction false} RoundsLast(c: nat, k: nat)
    ensures Rounds(c, k + 1) == Round(Rounds(c, k))
    decreases k
  {
    if k > 0 {
      RoundsLast(Round(c), k - 1);
    }
  }

  lemma RoundBound(c: nat)
    requires c < UINT32_LIMIT
    ensures Round(c) < UINT32_LIMIT
  {
    if c % 2 == 1 {
      XorUint32(POLY, c / 2);
    }
  }

  /**
    The loop that fills `crcTable`: entry `n` is `n` after eight bit steps, and below
    2^32 (the `>>> 0` reading).
   */
  method BuildTable() returns (t: seq<nat>)
    ensures |t| == 256
    ensures forall n :: 0 <= n < 256 ==> t[n] == Rounds(n, 8) && t[n] < UINT32_LIMIT
  {
    t := [];
    var n := 0;
    while n < 256
      invariant 0 <= n <= 256 && |t| == n
      invariant forall m :: 0 <= m < n ==> t[m] == Rounds(m, 8) && t[m] < UINT32_LIMIT
    {
      var c := n;
      var k := 0;
      while k < 8
        invariant 0 <= k <= 8 && c == Rounds(n, k) && c < UINT32_LIMIT
      {
        RoundsLast(n, k);
        RoundBound(c);
        c := if c % 2 == 1 then Xor(POLY, c / 2) else c / 2;
        k := k + 1;
      }
      t := t + [c];
      n := n + 1;
    }
  }

  // ---------------------------------------------------------------------------------------
  // The byte steps

  /** One byte through the table: `(c >>> 8) ^ crcTable[(c ^ b) & 0xff]`. */
  function Step(c: nat, b: byte): nat
  {
    Xor(c / 256, TableEntry(Xor(c, b) % 256))
  }

  /** One byte bit by bit, as section 3.4 of RFC 2083 runs the register. */
  function BitStep(c: nat, b: byte): nat
  {
    Rounds(Xor(c, b), 8)
  }

  /** The register after the bytes, through the table. */
  function Update(c: nat, bytes: seq<byte>): nat
  {
    if |bytes| == 0 then c else Step(Update(c, bytes[..|bytes| - 1]), bytes[|bytes| - 1])
  }

  /** The register after the bytes, bit by bit. */
  function BitUpdate(c: nat, bytes: seq<byte>): nat
  {
    if |bytes| == 0 then c else BitStep(BitUpdate(c, bytes[..|bytes| - 1]), bytes[|bytes| - 1])
  }

  /** `crc32(buf)`: the register starts as `0 ^ -1` (all ones), runs over the bytes and is complemented. */
  function Crc(bytes: seq<byte>): nat
  {
    Xor(Update(ALL_ONES, bytes), ALL_ONES)
  }

  /** The CRC by its bit-by-bit definition. */
  function BitCrc(bytes: seq<byte>): nat
  {
    Xor(BitUpdate(ALL_ONES, bytes), ALL_ONES)
  }

  /** A bit step distributes over exclusive or. */
  lemma RoundXor(x: nat, y: nat)
    ensures Round(Xor(x, y)) == Xor(Round(x), Round(y))
  {
    XorBits(x, y);
    var u, v := x / 2, y / 2;
    if x % 2 == 1 && y % 2 == 0 {
      XorAssoc(POLY, u, v);
    } else if x % 2 == 0 && y % 2 == 1 {
      XorSwap(POLY, u, v);
    } else if x % 2 == 1 && y % 2 == 1 {
      XorAssoc(POLY, u, Xor(POLY, v));
      XorSwap(POLY, u, v);
      XorAssoc(POLY, POLY, Xor(u, v));
      XorSelf(POLY);
      XorZero(Xor(u, v));
    }
  }

  lemma {:induction false} RoundsXor(x: nat, y: nat, k: nat)
    ensures Rounds(Xor(x, y), k) == Xor(Rounds(x, k), Rounds(y, k))
    decreases k
  {
    if k > 0 {
      RoundXor(x, y);
      RoundsXor(Round(x), Round(y), k - 1);
    }
  }

  /** Eight bit steps on a register whose low byte is zero only shift it. */
  lemma {:induction false} RoundsHigh(q: nat, k: nat)
    ensures Rounds(Pow2(k) * q, k) == q
  {
    if k > 0 {
      var h := Pow2(k - 1) * q;
      assert Pow2(k) * q == 2 * h;
      assert Round(2 * h) == h;
      RoundsHigh(q, k - 1);
    }
  }

  /** The table step is the eight bit steps it stands for. */
  lemma StepIsBitwise(c: nat, b: byte)
    ensures Step(c, b) == BitStep(c, b)
  {
    var x := Xor(c, b);
    var q, r := x / 256, x % 256;
    assert Pow2(8) == 256;
    XorDisjoint(q, r, 8);
    assert Xor(256 * q, r) == x;
    RoundsXor(256 * q, r, 8);
    RoundsHigh(q, 8);
    ShrByte(b);
    XorShr(c, b, 8);
    ShrByte(x);
    ShrByte(c);
  }

  lemma {:induction false} UpdateIsBitwise(c: nat, bytes: seq<byte>)
    ensures Update(c, bytes) == BitUpdate(c, bytes)
  {
    if |bytes| > 0 {
      UpdateIsBitwise(c, bytes[..|bytes| - 1]);
      StepIsBitwise(Update(c, bytes[..|bytes| - 1]), bytes[|bytes| - 1]);
    }
  }

  lemma {:induction false} UpdateBound(c: nat, bytes: seq<byte>)
    requires c < UINT32_LIMIT
    ensures Update(c, bytes) < UINT32_LIMIT
  {
    if |bytes| > 0 {
      var d := Update(c, bytes[..|bytes| - 1]);
      UpdateBound(c, bytes[..|bytes| - 1]);
      var i := Xor(d, bytes[|bytes| - 1]) % 256;
      TableBound(i);
      XorUint32(d / 256, TableEntry(i));
    }
  }

  lemma TableBound(n: nat)
    requires n < 256
    ensures TableEntry(n) < UINT32_LIMIT
  {
    RoundsBound(n, 8);
  }

  lemma {:induction false} RoundsBound(c: nat, k: nat)
    requires c < UINT32_LIMIT
    ensures Rounds(c, k) < UINT32_LIMIT
    decreases k
  {
    if k > 0 {
      RoundBound(c);
      RoundsBound(Round(c), k - 1);
    }
  }

  /**
    `crc32` computes the CRC of section 3.4 of RFC 2083, below 2^32, and the empty buffer
    gives 0 (the preset and the final complement cancel).
   */
  lemma CrcFacts(bytes: seq<byte>)
    ensures Crc(bytes) == BitCrc(bytes)
    ensures Crc(bytes) < UINT32_LIMIT
    ensures |bytes| == 0 ==> Crc(bytes) == 0
  {
    UpdateIsBitwise(ALL_ONES, bytes);
    UpdateBound(ALL_ONES, bytes);
    XorUint32(Update(ALL_ONES, bytes), ALL_ONES);
    XorSelf(ALL_ONES);
  }

  /** The loop of `crc32` over the table `BuildTable` fills. */
  method Crc32(buf: seq<byte>) returns (r: nat)
    ensures r == BitCrc(buf) && r < UINT32_LIMIT
    ensures |buf| == 0 ==> r == 0
  {
    var table := BuildTable();
    var c := Xor(0, ALL_ONES);
    XorZero(ALL_ONES);
    var i := 0;
    while i < |buf|
      invariant 0 <= i <= |buf|
      invariant c == Update(ALL_ONES, buf[..i])
    {
      assert buf[..i + 1][..i] == buf[..i];
      c := Xor(c / 256, table[Xor(c, buf[i]) % 256]);
      i := i + 1;
    }
    assert buf[..i] == buf;
    r := Xor(c, ALL_ONES);
    CrcFacts(buf);
  }
}
