/** Bucket selection of the file table: the ELF hash of the name, cut to 32 bits, multiplied by a
    prime near the golden ratio, of whose low 32 bits the upper twelve are the bucket. */
module Hash {
  import opened Entries
  import opened Words
  import opened Bits

  const GOLDEN_RATIO_PRIME_32 := 0x9e370001
  const HASH_SIZE := 4096

  /** h << 4, plus a plain char, which is signed and extends to 64 bits. */
  function ShiftIn(h: nat, c: Byte): nat {
    (16 * h + (if c < 128 then c else TWO64 - 256 + c)) % TWO64
  }

  /** Exclusive or of two numbers of n bits. */
  function Xor(a: nat, b: nat, n: nat): (r: nat)
    ensures r < Pow2(n)
  {
    if n == 0 then 0 else 2 * Xor(a / 2, b / 2, n - 1) + (a + b) % 2
  }

  /** Bits 28 to 31 of a word, that is (h & 0xf0000000) >> 28. */
  function TopNibble(h: nat): (g: nat)
    ensures g < 16
  {
    h / 0x1000_0000 % 16
  }

  /** h ^ (g << 4) for a four-bit g. */
  function FoldIn(h: nat, g: nat): nat
    requires g < 16
  {
    h / 256 * 256 + 16 * Xor(h / 16 % 16, g, 4) + h % 16
  }

  /** h & ~0xf0000000. */
  function ClearTop(h: nat): nat {
    h / TWO32 * TWO32 + h % 0x1000_0000
  }

  /** One round: shift a character in, fold bits 28 to 31 into bits 4 to 7 and clear them. */
  function Round(h: nat, c: Byte): nat {
    var shifted := ShiftIn(h, c);
    ClearTop(FoldIn(shifted, TopNibble(shifted)))
  }

  lemma FoldByZero(h: nat)
    ensures FoldIn(h, 0) == h
  {
    var a := h / 16 % 16;
    Powers();
    XorByZero(a, 4);
    Nibbles(h);
    assert FoldIn(h, 0) == h / 256 * 256 + 16 * a + h % 16;
  }

  lemma Nibbles(h: nat)
    ensures h == h / 256 * 256 + 16 * (h / 16 % 16) + h % 16
  {
    var q := h / 16;
    assert h == 16 * q + h % 16 && q == 16 * (q / 16) + q % 16;
    assert q / 16 == h / 256;
  }

  lemma {:induction false} XorByZero(a: nat, n: nat)
    requires a < Pow2(n)
    ensures Xor(a, 0, n) == a
  {
    if n > 0 { XorByZero(a / 2, n - 1); }
  }

  // ---------- the bits of a round ----------

  /** The shift by 28 and the mask: bit i of the nibble is bit 28 + i of the word. */
  lemma TopNibbleBits(h: nat, i: nat)
    requires i < 4
    ensures Bit(TopNibble(h), i) == Bit(h, 28 + i)
  {
    Powers();
    var q := h / Pow2(28);
    Parts(h, 28);
    BitHigh(q, h % Pow2(28), 28, i);
    Parts(q, 4);
    BitLow(q / Pow2(4), q % Pow2(4), 4, i);
  }

  /** The mask with the complement: bits 28 to 31 are cleared and no other bit changes. */
  lemma ClearTopBits(h: nat, i: nat)
    ensures Bit(ClearTop(h), i) == if 28 <= i < 32 then 0 else Bit(h, i)
  {
    Powers();
    var q, low := h / Pow2(32), h % Pow2(28);
    Parts(h, 32);
    if i >= 32 {
      BitHigh(q, low, 32, i - 32);
      BitHigh(q, h % Pow2(32), 32, i - 32);
    } else {
      BitLow(q, low, 32, i);
      if i >= 28 {
        BitNone(low, 28, i);
      } else {
        Parts(h, 28);
        BitLow(h / Pow2(28), low, 28, i);
      }
    }
  }

  lemma {:induction false} XorBits(a: nat, b: nat, n: nat, i: nat)
    requires i < n
    ensures Bit(Xor(a, b, n), i) == (Bit(a, i) + Bit(b, i)) % 2
  {
    if i == 0 {
      FirstBit(a);
      FirstBit(b);
      FirstBit(Xor(a, b, n));
      XorParity(a, b, n);
    } else {
      HalfBit(a, i);
      HalfBit(b, i);
      HalfBit(Xor(a, b, n), i);
      XorParity(a, b, n);
      XorBits(a / 2, b / 2, n - 1, i - 1);
    }
  }

  lemma XorParity(a: nat, b: nat, n: nat)
    requires n > 0
    ensures Xor(a, b, n) % 2 == (a % 2 + b % 2) % 2 && Xor(a, b, n) / 2 == Xor(a / 2, b / 2, n - 1)
  {
    LastBit(Xor(a / 2, b / 2, n - 1), (a + b) % 2);
    ParitySum(a, b);
  }

  lemma LastBit(r: nat, p: nat)
    requires p < 2
    ensures (2 * r + p) % 2 == p && (2 * r + p) / 2 == r
  {}

  lemma ParitySum(a: nat, b: nat)
    ensures (a + b) % 2 == (a % 2 + b % 2) % 2
  {}

  lemma FirstBit(v: nat)
    ensures Bit(v, 0) == v % 2
  {}

  lemma HalfBit(v: nat, i: nat)
    requires i > 0
    ensures Bit(v, i) == Bit(v / 2, i - 1)
  {
    DivDiv(v, 2, Pow2(i - 1));
  }

  /** A number made of two nibbles below the rest. */
  lemma NibbleBits(q: nat, n: nat, r: nat, i: nat)
    requires n < 16 && r < 16
    ensures Bit(q * 256 + 16 * n + r, i) == if i >= 8 then Bit(q, i - 8) else if i >= 4 then Bit(n, i - 4) else Bit(r, i)
  {
    Powers();
    var low := n * Pow2(4) + r;
    assert q * 256 + 16 * n + r == q * Pow2(8) + low;
    if i >= 8 {
      BitHigh(q, low, 8, i - 8);
    } else {
      BitLow(q, low, 8, i);
      if i >= 4 {
        BitHigh(n, r, 4, i - 4);
      } else {
        BitLow(n, r, 4, i);
      }
    }
  }

  /** The exclusive or with the nibble shifted by 4: bits 4 to 7 are those of h and g combined, and no other
      bit changes. */
  lemma FoldInBits(h: nat, g: nat, i: nat)
    requires g < 16
    ensures Bit(FoldIn(h, g), i) == if 4 <= i < 8 then (Bit(h, i) + Bit(g, i - 4)) % 2 else Bit(h, i)
  {
    Powers();
    Nibbles(h);
    NibbleBits(h / 256, h / 16 % 16, h % 16, i);
    NibbleBits(h / 256, Xor(h / 16 % 16, g, 4), h % 16, i);
    if 4 <= i < 8 {
      XorBits(h / 16 % 16, g, 4, i - 4);
    }
  }

  /** One round, bit by bit: after the shift, bits 28 to 31 are combined into bits 4 to 7 and cleared. */
  lemma RoundBits(h: nat, c: Byte, i: nat)
    ensures var shifted := ShiftIn(h, c);
            Bit(Round(h, c), i) ==
            if 28 <= i < 32 then 0
            else if 4 <= i < 8 then (Bit(shifted, i) + Bit(shifted, 24 + i)) % 2
            else Bit(shifted, i)
  {
    var shifted := ShiftIn(h, c);
    var g := TopNibble(shifted);
    ClearTopBits(FoldIn(shifted, g), i);
    FoldInBits(shifted, g, i);
    if 4 <= i < 8 { TopNibbleBits(shifted, i - 4); }
  }

  lemma Powers()
    ensures Pow2(0) == 1 && Pow2(4) == 16 && Pow2(8) == 256 && Pow2(28) == 0x1000_0000 && Pow2(32) == TWO32
  {
    assert Pow2(2) == 4;
    PowAdd(2, 2);
    PowAdd(4, 4);
    PowAdd(8, 8);
    assert Pow2(16) == 0x1_0000;
    PowAdd(16, 8);
    PowAdd(24, 4);
    PowAdd(28, 4);
  }

  function Elf(name: Name): nat {
    if name == [] then 0 else Round(Elf(name[..|name| - 1]), name[|name| - 1])
  }

  method ElfHash(key: Name) returns (h: nat)
    ensures h == Elf(key)
  {
    h := 0;
    var k := 0;
    while k < |key|
      invariant k <= |key|
      invariant h == Elf(key[..k])
    {
      assert key[..k + 1][..k] == key[..k];
      h := ShiftIn(h, key[k]);
      var g := TopNibble(h);
      FoldByZero(h);
      if g != 0 {
        h := FoldIn(h, g);
      }
      h := ClearTop(h);
      k := k + 1;
    }
    assert key[..k] == key;
  }

  /** hash_32 for a table of 4096 buckets. */
  function Hash32(val: int): (b: nat)
    ensures b < HASH_SIZE
  {
    ToUint32(ToUint32(val) * GOLDEN_RATIO_PRIME_32) / 0x10_0000
  }

  /** The bucket is made of the upper twelve of the low 32 bits of the product. */
  lemma {:induction false} Hash32Bits(val: int, i: nat)
    requires i < 12
    ensures Bit(Hash32(val), i) == Bit(ToUint32(val) * GOLDEN_RATIO_PRIME_32, 20 + i)
  {
    var product := ToUint32(val) * GOLDEN_RATIO_PRIME_32;
    var low := product % TWO32;
    Powers();
    PowAdd(16, 4);
    Parts(product, 32);
    BitLow(product / Pow2(32), low, 32, 20 + i);
    Parts(low, 20);
    BitHigh(low / Pow2(20), low % Pow2(20), 20, i);
  }

  // ---------- some hashes ----------

  /** The digits of a short name in base 16, which may be greater than 15. */
  function Polynomial(name: Name): nat {
    if name == [] then 0 else 16 * Polynomial(name[..|name| - 1]) + name[|name| - 1]
  }

  lemma {:induction false} PolynomialBound(name: Name)
    requires |name| <= 6 && forall i :: 0 <= i < |name| ==> name[i] < 128
    ensures 15 * Polynomial(name) <= 127 * (Pow2(4 * |name|) - 1)
    ensures Polynomial(name) < 0x1000_0000
  {
    Powers();
    if name != [] {
      PolynomialBound(name[..|name| - 1]);
      PowAdd(4, 4 * (|name| - 1));
    }
    PowUpTo24(|name|);
  }

  lemma PowUpTo24(n: nat)
    requires n <= 6
    ensures Pow2(4 * n) <= 0x100_0000
  {
    Powers();
    PowAdd(4 * n, 24 - 4 * n);
    PowAdd(16, 8);
    assert Pow2(4 * n) * 1 <= Pow2(4 * n) * Pow2(24 - 4 * n);
  }

  /** Up to six ASCII characters nothing is folded: the hash is their value in base 16. */
  lemma {:induction false} ShortHash(name: Name)
    requires |name| <= 6 && forall i :: 0 <= i < |name| ==> name[i] < 128
    ensures Elf(name) == Polynomial(name)
  {
    if name != [] {
      var rest := name[..|name| - 1];
      ShortHash(rest);
      PolynomialBound(name);
      PlainRound(Elf(rest), name[|name| - 1]);
    }
  }

  /** A round in which no bit gets as far as bit 28. */
  lemma PlainRound(h: nat, c: Byte)
    requires c < 128 && 16 * h + c < 0x1000_0000
    ensures Round(h, c) == 16 * h + c
  {
    PlainShift(h, c);
    PlainTop(16 * h + c);
    FoldByZero(16 * h + c);
  }

  lemma PlainShift(h: nat, c: Byte)
    requires c < 128 && 16 * h + c < 0x1000_0000
    ensures ShiftIn(h, c) == 16 * h + c
  {}

  lemma PlainTop(v: nat)
    requires v < 0x1000_0000
    ensures TopNibble(v) == 0 && ClearTop(v) == v
  {}

  /** A character above 127 is negative: its hash keeps all the upper bits, so that the usual bound of 28 bits
      does not hold. */
  lemma SignedChar()
    ensures Elf([0xc3]) == 0xffff_ffff_0fff_ff33
  {
    assert [0xc3][..0] == [] && Elf([]) == 0;
    FoldSigned();
    assert ShiftIn(0, 0xc3) == 0xffff_ffff_ffff_ffc3;
    assert ClearTop(0xffff_ffff_ffff_ff33) == 0xffff_ffff_0fff_ff33;
  }

  lemma FoldSigned()
    ensures TopNibble(0xffff_ffff_ffff_ffc3) == 15
    ensures FoldIn(0xffff_ffff_ffff_ffc3, 15) == 0xffff_ffff_ffff_ff33
  {
    assert Xor(3, 3, 2) == 0;
    assert Xor(6, 7, 3) == 1;
    assert Xor(12, 15, 4) == 3;
  }

  /** The bucket of a name. */
  function Bucket(name: Name): (b: nat)
    ensures b < HASH_SIZE
  {
    Hash32(Elf(name))
  }

  /** Linking an entry passes the 64-bit hash on to the 32-bit hash directly, searching keeps it in a
      signed int first: both end in the same bucket. */
  lemma SearchFindsBucket(name: Name)
    ensures Hash32(ToInt32(Elf(name))) == Bucket(name)
  {
    CutTwice(Elf(name));
  }
}
