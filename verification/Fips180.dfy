/**
 SHA-256 as FIPS 180-4 defines it, on 32-bit words represented as naturals.
 */
module Fips180 {
  import opened Arithmetic
  import opened Bytes
  import opened Primes

  const TWO32: nat := 0x1_0000_0000

  type Word = x: nat | x < 0x1_0000_0000

  // ---------------------------------------------------------------- section 3.2: operations on words

  datatype BitOp = Conjunction | Disjunction | Exclusive

  function OnBits(op: BitOp, p: bool, q: bool): nat {
    var r := match op
             case Conjunction => p && q
             case Disjunction => p || q
             case Exclusive => p != q;
    if r then 1 else 0
  }

  lemma {:induction false} Pow2At32()
    ensures Pow2(32) == 0x1_0000_0000
  {
    assert Pow2(8) == 256;
    assert Pow2(16) == 0x1_0000;
    assert Pow2(24) == 0x100_0000;
  }

  /** `op` applied to the low `n` bits of `x` and `y`, position by position. */
  function Bitwise(op: BitOp, x: nat, y: nat, n: nat): (r: nat)
    ensures r < Pow2(n)
    decreases n, x, y
  {
    if n == 0 then 0 else 2 * Bitwise(op, x / 2, y / 2, n - 1) + OnBits(op, x % 2 == 1, y % 2 == 1)
  }

  function And(x: Word, y: Word): Word {
    Pow2At32();
    Bitwise(Conjunction, x, y, 32)
  }

  function Or(x: Word, y: Word): Word {
    Pow2At32();
    Bitwise(Disjunction, x, y, 32)
  }

  function Xor(x: Word, y: Word): Word {
    Pow2At32();
    Bitwise(Exclusive, x, y, 32)
  }

  function Not(x: Word): Word {
    TWO32 - 1 - x
  }

  function Shr(x: Word, n: nat): Word
    decreases n, x
  {
    if n == 0 then x else Shr(x / 2, n - 1)
  }

  function Shl(x: Word, n: nat): Word
    decreases n, x
  {
    if n == 0 then x else Shl(2 * x % TWO32, n - 1)
  }

  /** The bitwise operations as one value. Everything below is written over an arbitrary set of them,
      because nothing in the computation depends on more than using the same ones throughout. */
  datatype Ops = Ops(
    conj: (Word, Word) -> Word, disj: (Word, Word) -> Word, excl: (Word, Word) -> Word,
    shr: (Word, nat) -> Word, shl: (Word, nat) -> Word)

  /** The operations of section 3.2. */
  const BITS: Ops := Ops(And, Or, Xor, Shr, Shl)

  function Rotr(o: Ops, x: Word, n: nat): Word
    requires n <= 32
  {
    o.disj(o.shr(x, n), o.shl(x, 32 - n))
  }

  // ---------------------------------------------------------------- the operations bit by bit

  /** The bit of weight 2^i. */
  predicate Bit(x: nat, i: nat)
    decreases i, x
  {
    if i == 0 then x % 2 == 1 else Bit(x / 2, i - 1)
  }

  lemma {:induction false} BitIsQuotient(x: nat, i: nat)
    ensures Bit(x, i) <==> x / Pow2(i) % 2 == 1
    decreases i
  {
    if i > 0 {
      BitIsQuotient(x / 2, i - 1);
      HalfThenDivide(x, Pow2(i - 1));
    }
  }

  lemma {:induction false} BitwiseBit(op: BitOp, x: nat, y: nat, n: nat, i: nat)
    requires i < n
    ensures Bit(Bitwise(op, x, y, n), i) <==>
            match op
            case Conjunction => Bit(x, i) && Bit(y, i)
            case Disjunction => Bit(x, i) || Bit(y, i)
            case Exclusive => Bit(x, i) != Bit(y, i)
    decreases n
  {
    if i > 0 {
      BitwiseBit(op, x / 2, y / 2, n - 1, i - 1);
    }
  }

  lemma {:induction false} ComplementBit(x: nat, k: nat, i: nat)
    requires x < Pow2(k) && i < k
    ensures Bit(Pow2(k) - 1 - x, i) <==> !Bit(x, i)
    decreases k
  {
    if i > 0 {
      ComplementBit(x / 2, k - 1, i - 1);
      assert (Pow2(k) - 1 - x) / 2 == Pow2(k - 1) - 1 - x / 2;
    }
  }

  lemma {:induction false} HighBitsClear(x: nat, k: nat, i: nat)
    requires x < Pow2(k) && k <= i
    ensures !Bit(x, i)
    decreases i
  {
    if k > 0 {
      HighBitsClear(x / 2, k - 1, i - 1);
    } else if i > 0 {
      HighBitsClear(0, 0, i - 1);
    }
  }

  lemma {:induction false} ShrBit(x: Word, n: nat, i: nat)
    ensures Bit(Shr(x, n), i) <==> Bit(x, i + n)
    decreases n
  {
    if n > 0 {
      ShrBit(x / 2, n - 1, i);
    }
  }

  lemma {:induction false} LowBits(x: nat, k: nat, i: nat)
    requires i < k
    ensures Bit(x % Pow2(k), i) <==> Bit(x, i)
    decreases k
  {
    HalveRemainder(x, Pow2(k - 1));
    if i > 0 {
      LowBits(x / 2, k - 1, i - 1);
    }
  }

  lemma {:induction false} ShlBit(x: Word, n: nat, i: nat)
    requires i < 32
    ensures Bit(Shl(x, n), i) <==> i >= n && Bit(x, i - n)
    decreases n
  {
    if n > 0 {
      ShlBit(2 * x % TWO32, n - 1, i);
      if i >= n - 1 {
        Pow2At32();
        LowBits(2 * x, 32, i - (n - 1));
      }
    }
  }

  /** The operations of section 3.2, position by position. */
  lemma {:induction false} LogicMeans(x: Word, y: Word, i: nat)
    requires i < 32
    ensures Bit(BITS.conj(x, y), i) <==> Bit(x, i) && Bit(y, i)
    ensures Bit(BITS.disj(x, y), i) <==> Bit(x, i) || Bit(y, i)
    ensures Bit(BITS.excl(x, y), i) <==> Bit(x, i) != Bit(y, i)
    ensures Bit(Not(x), i) <==> !Bit(x, i)
  {
    assert Bit(BITS.conj(x, y), i) <==> Bit(x, i) && Bit(y, i) by { BitwiseBit(Conjunction, x, y, 32, i); }
    assert Bit(BITS.disj(x, y), i) <==> Bit(x, i) || Bit(y, i) by { BitwiseBit(Disjunction, x, y, 32, i); }
    assert Bit(BITS.excl(x, y), i) <==> Bit(x, i) != Bit(y, i) by { BitwiseBit(Exclusive, x, y, 32, i); }
    assert Bit(Not(x), i) <==> !Bit(x, i) by {
      Pow2At32();
      ComplementBit(x, 32, i);
    }
  }

  lemma {:induction false} ShiftMeans(x: Word, n: nat, i: nat)
    requires i < 32
    ensures Bit(BITS.shr(x, n), i) <==> i + n < 32 && Bit(x, i + n)
    ensures Bit(BITS.shl(x, n), i) <==> i >= n && Bit(x, i - n)
  {
    ShrBit(x, n, i);
    ShlBit(x, n, i);
    if i + n >= 32 {
      Pow2At32();
      HighBitsClear(x, 32, i + n);
    }
  }

  /** Rotating right by `n` brings every bit `n` positions down, round the end of the word. */
  lemma {:induction false} RotationMeans(x: Word, n: nat, i: nat)
    requires n <= 32 && i < 32
    ensures Bit(Rotr(BITS, x, n), i) <==> if i + n < 32 then Bit(x, i + n) else Bit(x, i + n - 32)
  {
    var low, high := BITS.shr(x, n), BITS.shl(x, 32 - n);
    assert Bit(low, i) <==> i + n < 32 && Bit(x, i + n) by { ShiftMeans(x, n, i); }
    assert Bit(high, i) <==> i + n >= 32 && Bit(x, i + n - 32) by { ShiftMeans(x, 32 - n, i); }
    assert Bit(BITS.disj(low, high), i) <==> Bit(low, i) || Bit(high, i) by { LogicMeans(low, high, i); }
  }

  // ---------------------------------------------------------------- section 4.1.2: functions

  function Ch(o: Ops, x: Word, y: Word, z: Word): Word { o.excl(o.conj(x, y), o.conj(Not(x), z)) }

  function Maj(o: Ops, x: Word, y: Word, z: Word): Word { o.excl(o.excl(o.conj(x, y), o.conj(x, z)), o.conj(y, z)) }

  function BigSigma0(o: Ops, x: Word): Word { o.excl(o.excl(Rotr(o, x, 2), Rotr(o, x, 13)), Rotr(o, x, 22)) }

  function BigSigma1(o: Ops, x: Word): Word { o.excl(o.excl(Rotr(o, x, 6), Rotr(o, x, 11)), Rotr(o, x, 25)) }

  function SmallSigma0(o: Ops, x: Word): Word { o.excl(o.excl(Rotr(o, x, 7), Rotr(o, x, 18)), o.shr(x, 3)) }

  function SmallSigma1(o: Ops, x: Word): Word { o.excl(o.excl(Rotr(o, x, 17), Rotr(o, x, 19)), o.shr(x, 10)) }

  // ---------------------------------------------------------------- sections 4.2.2 and 5.3.3: constants

  /** The round constants. */
  function K(i: nat): Word
    requires i < 64
  {
    if i < 8 then [0x428a2f98, 0x71374491, 0xb5c0fbcf, 0xe9b5dba5, 0x3956c25b, 0x59f111f1, 0x923f82a4, 0xab1c5ed5][i]
    else if i < 16 then [0xd807aa98, 0x12835b01, 0x243185be, 0x550c7dc3, 0x72be5d74, 0x80deb1fe, 0x9bdc06a7, 0xc19bf174][i - 8]
    else if i < 24 then [0xe49b69c1, 0xefbe4786, 0x0fc19dc6, 0x240ca1cc, 0x2de92c6f, 0x4a7484aa, 0x5cb0a9dc, 0x76f988da][i - 16]
    else if i < 32 then [0x983e5152, 0xa831c66d, 0xb00327c8, 0xbf597fc7, 0xc6e00bf3, 0xd5a79147, 0x06ca6351, 0x14292967][i - 24]
    else if i < 40 then [0x27b70a85, 0x2e1b2138, 0x4d2c6dfc, 0x53380d13, 0x650a7354, 0x766a0abb, 0x81c2c92e, 0x92722c85][i - 32]
    else if i < 48 then [0xa2bfe8a1, 0xa81a664b, 0xc24b8b70, 0xc76c51a3, 0xd192e819, 0xd6990624, 0xf40e3585, 0x106aa070][i - 40]
    else if i < 56 then [0x19a4c116, 0x1e376c08, 0x2748774c, 0x34b0bcb5, 0x391c0cb3, 0x4ed8aa4a, 0x5b9cca4f, 0x682e6ff3][i - 48]
    else [0x748f82ee, 0x78a5636f, 0x84c87814, 0x8cc70208, 0x90befffa, 0xa4506ceb, 0xbef9a3f7, 0xc67178f2][i - 56]
  }

  function IntCubeRoot(p: nat): nat {
    if p < 8 then 1 else if p < 27 then 2 else if p < 64 then 3 else if p < 125 then 4 else if p < 216 then 5 else 6
  }

  function IntSquareRoot(p: nat): nat {
    if p < 4 then 1 else if p < 9 then 2 else if p < 16 then 3 else 4
  }

  /** `k` is the first 32 bits of the fractional part of the cube root of `p`: the root scaled by 2^32
      and rounded down has integer part `IntCubeRoot(p)` and fraction `k`. */
  predicate CubeRootBits(p: nat, k: nat) {
    var x := IntCubeRoot(p) * TWO32 + k;
    x * x * x <= p * 0x1_0000_0000_0000_0000_0000_0000 < (x + 1) * (x + 1) * (x + 1)
  }

  predicate SquareRootBits(p: nat, k: nat) {
    var x := IntSquareRoot(p) * TWO32 + k;
    x * x <= p * 0x1_0000_0000_0000_0000 < (x + 1) * (x + 1)
  }

  lemma {:induction false} CubeRoots0()
    ensures forall i :: 0 <= i < 8 ==> CubeRootBits(Prime(i), K(i))
  {
    assert CubeRootBits(2, 0x428a2f98);
    assert CubeRootBits(3, 0x71374491);
    assert CubeRootBits(5, 0xb5c0fbcf);
    assert CubeRootBits(7, 0xe9b5dba5);
    assert CubeRootBits(11, 0x3956c25b);
    assert CubeRootBits(13, 0x59f111f1);
    assert CubeRootBits(17, 0x923f82a4);
    assert CubeRootBits(19, 0xab1c5ed5);
  }

  lemma {:induction false} CubeRoots1()
    ensures forall i :: 8 <= i < 16 ==> CubeRootBits(Prime(i), K(i))
  {
    assert CubeRootBits(23, 0xd807aa98);
    assert CubeRootBits(29, 0x12835b01);
    assert CubeRootBits(31, 0x243185be);
    assert CubeRootBits(37, 0x550c7dc3);
    assert CubeRootBits(41, 0x72be5d74);
    assert CubeRootBits(43, 0x80deb1fe);
    assert CubeRootBits(47, 0x9bdc06a7);
    assert CubeRootBits(53, 0xc19bf174);
  }

  lemma {:induction false} CubeRoots2()
    ensures forall i :: 16 <= i < 24 ==> CubeRootBits(Prime(i), K(i))
  {
    assert CubeRootBits(59, 0xe49b69c1);
    assert CubeRootBits(61, 0xefbe4786);
    assert CubeRootBits(67, 0x0fc19dc6);
    assert CubeRootBits(71, 0x240ca1cc);
    assert CubeRootBits(73, 0x2de92c6f);
    assert CubeRootBits(79, 0x4a7484aa);
    assert CubeRootBits(83, 0x5cb0a9dc);
    assert CubeRootBits(89, 0x76f988da);
  }

  lemma {:induction false} CubeRoots3()
    ensures forall i :: 24 <= i < 32 ==> CubeRootBits(Prime(i), K(i))
  {
    assert CubeRootBits(97, 0x983e5152);
    assert CubeRootBits(101, 0xa831c66d);
    assert CubeRootBits(103, 0xb00327c8);
    assert CubeRootBits(107, 0xbf597fc7);
    assert CubeRootBits(109, 0xc6e00bf3);
    assert CubeRootBits(113, 0xd5a79147);
    assert CubeRootBits(127, 0x06ca6351);
    assert CubeRootBits(131, 0x14292967);
  }

  lemma {:induction false} CubeRoots4()
    ensures forall i :: 32 <= i < 40 ==> CubeRootBits(Prime(i), K(i))
  {
    assert CubeRootBits(137, 0x27b70a85);
    assert CubeRootBits(139, 0x2e1b2138);
    assert CubeRootBits(149, 0x4d2c6dfc);
    assert CubeRootBits(151, 0x53380d13);
    assert CubeRootBits(157, 0x650a7354);
    assert CubeRootBits(163, 0x766a0abb);
    assert CubeRootBits(167, 0x81c2c92e);
    assert CubeRootBits(173, 0x92722c85);
  }

  lemma {:induction false} CubeRoots5()
    ensures forall i :: 40 <= i < 48 ==> CubeRootBits(Prime(i), K(i))
  {
    assert CubeRootBits(179, 0xa2bfe8a1);
    assert CubeRootBits(181, 0xa81a664b);
    assert CubeRootBits(191, 0xc24b8b70);
    assert CubeRootBits(193, 0xc76c51a3);
    assert CubeRootBits(197, 0xd192e819);
    assert CubeRootBits(199, 0xd6990624);
    assert CubeRootBits(211, 0xf40e3585);
    assert CubeRootBits(223, 0x106aa070);
  }

  lemma {:induction false} CubeRoots6()
    ensures forall i :: 48 <= i < 56 ==> CubeRootBits(Prime(i), K(i))
  {
    assert CubeRootBits(227, 0x19a4c116);
    assert CubeRootBits(229, 0x1e376c08);
    assert CubeRootBits(233, 0x2748774c);
    assert CubeRootBits(239, 0x34b0bcb5);
    assert CubeRootBits(241, 0x391c0cb3);
    assert CubeRootBits(251, 0x4ed8aa4a);
    assert CubeRootBits(257, 0x5b9cca4f);
    assert CubeRootBits(263, 0x682e6ff3);
  }

  lemma {:induction false} CubeRoots7()
    ensures forall i :: 56 <= i < 64 ==> CubeRootBits(Prime(i), K(i))
  {
    assert CubeRootBits(269, 0x748f82ee);
    assert CubeRootBits(271, 0x78a5636f);
    assert CubeRootBits(277, 0x84c87814);
    assert CubeRootBits(281, 0x8cc70208);
    assert CubeRootBits(283, 0x90befffa);
    assert CubeRootBits(293, 0xa4506ceb);
    assert CubeRootBits(307, 0xbef9a3f7);
    assert CubeRootBits(311, 0xc67178f2);
  }

  /** Every round constant is what section 4.2.2 prescribes. */
  lemma {:induction false} RoundConstantsAreCubeRoots()
    ensures forall i :: 0 <= i < 64 ==> CubeRootBits(Prime(i), K(i))
  {
    CubeRoots0();
    CubeRoots1();
    CubeRoots2();
    CubeRoots3();
    CubeRoots4();
    CubeRoots5();
    CubeRoots6();
    CubeRoots7();
  }

  datatype Vars = Vars(a: Word, b: Word, c: Word, d: Word, e: Word, f: Word, g: Word, h: Word)

  const IV := Vars(0x6a09e667, 0xbb67ae85, 0x3c6ef372, 0xa54ff53a, 0x510e527f, 0x9b05688c, 0x1f83d9ab, 0x5be0cd19)

  /** Every initial hash word is what section 5.3.3 prescribes. */
  lemma {:induction false} InitialHashIsSquareRoots()
    ensures SquareRootBits(Prime(0), IV.a) && SquareRootBits(Prime(1), IV.b)
    ensures SquareRootBits(Prime(2), IV.c) && SquareRootBits(Prime(3), IV.d)
    ensures SquareRootBits(Prime(4), IV.e) && SquareRootBits(Prime(5), IV.f)
    ensures SquareRootBits(Prime(6), IV.g) && SquareRootBits(Prime(7), IV.h)
  {
    assert SquareRootBits(2, 0x6a09e667);
    assert SquareRootBits(3, 0xbb67ae85);
    assert SquareRootBits(5, 0x3c6ef372);
    assert SquareRootBits(7, 0xa54ff53a);
    assert SquareRootBits(11, 0x510e527f);
    assert SquareRootBits(13, 0x9b05688c);
    assert SquareRootBits(17, 0x1f83d9ab);
    assert SquareRootBits(19, 0x5be0cd19);
  }

  // ---------------------------------------------------------------- section 5.1.1: padding

  function WordOf(b: seq<Byte>): Word
    requires |b| == 4
  {
    (((b[0] as nat) * 256 + b[1] as nat) * 256 + b[2] as nat) * 256 + b[3] as nat
  }

  function BytesOf(w: Word): (b: seq<Byte>)
    ensures |b| == 4
  {
    [w / 0x100_0000, w / 0x1_0000 % 256, w / 256 % 256, w % 256]
  }

  /** Words and bytes correspond, the most significant byte first. */
  lemma {:induction false} WordBytes(w: Word, a: Byte, b: Byte, c: Byte, d: Byte)
    ensures WordOf(BytesOf(w)) == w
    ensures WordOf([a, b, c, d]) == a as nat * 0x100_0000 + b as nat * 0x1_0000 + c as nat * 0x100 + d as nat
  {
  }

  function Zeros(n: nat): (z: seq<Byte>)
    ensures |z| == n && forall i :: 0 <= i < n ==> z[i] == 0
  {
    seq(n, _ => 0)
  }

  /** The least number of zero bits that brings a message of `bits` bits and the one bit to 448 mod 512. */
  function ZeroBits(bits: nat): nat {
    (448 - (bits + 1)) % 512
  }

  /** The message, a one bit, the zero bits, and the bit length in 64 bits. A message of whole bytes needs
      at least seven zero bits, which share a byte with the one bit. */
  function Pad(m: seq<Byte>): seq<Byte>
    requires 8 * |m| < 0x1_0000_0000_0000_0000
  {
    var bits := 8 * |m|;
    PadArithmetic(|m|, |m| / 64, |m| % 64);
    m + [0x80] + Zeros((ZeroBits(bits) - 7) / 8) + BytesOf(bits / TWO32) + BytesOf(bits % TWO32)
  }

  // ---------------------------------------------------------------- section 6.2.2: computation

  function WordAt(data: seq<Byte>, i: nat): Word
    requires i + 4 <= |data|
  {
    WordOf(data[i..i + 4])
  }

  function ScheduleWord(o: Ops, w16: Word, w15: Word, w7: Word, w2: Word): Word {
    (SmallSigma1(o, w2) + w7 + SmallSigma0(o, w15) + w16) % TWO32
  }

  /** The first `n` words of the message schedule of the block at `off`. */
  function Schedule(o: Ops, data: seq<Byte>, off: nat, n: nat): (w: seq<Word>)
    requires n <= 64 && off + 64 <= |data|
    ensures |w| == n
  {
    if n == 0 then []
    else
      var w := Schedule(o, data, off, n - 1);
      var t := n - 1;
      w + [if t < 16 then WordAt(data, off + 4 * t)
           else ScheduleWord(o, w[t - 16], w[t - 15], w[t - 7], w[t - 2])]
  }

  /** The message schedule, step 1 of section 6.2.2: sixteen words of the block, the most significant byte
      first, and each later word from four earlier ones. */
  lemma {:induction false} ScheduleMeans(o: Ops, data: seq<Byte>, off: nat, n: nat, t: nat)
    requires t < n <= 64 && off + 64 <= |data|
    ensures var w := Schedule(o, data, off, n);
            && (t < 16 ==>
                  w[t] == data[off + 4 * t] as nat * 0x100_0000 + data[off + 4 * t + 1] as nat * 0x1_0000
                          + data[off + 4 * t + 2] as nat * 0x100 + data[off + 4 * t + 3] as nat)
            && (t >= 16 ==> w[t] == ScheduleWord(o, w[t - 16], w[t - 15], w[t - 7], w[t - 2]))
    decreases n
  {
    if t < n - 1 {
      ScheduleMeans(o, data, off, n - 1, t);
    }
  }

  function Round(o: Ops, v: Vars, k: Word, w: Word): Vars {
    var t1: Word := (v.h + BigSigma1(o, v.e) + Ch(o, v.e, v.f, v.g) + k + w) % TWO32;
    var t2: Word := Plus(BigSigma0(o, v.a), Maj(o, v.a, v.b, v.c));
    Vars(Plus(t1, t2), v.a, v.b, v.c, Plus(v.d, t1), v.e, v.f, v.g)
  }

  function Rounds(o: Ops, v: Vars, w: seq<Word>, n: nat): Vars
    requires n <= 64 == |w|
  {
    if n == 0 then v else Round(o, Rounds(o, v, w, n - 1), K(n - 1), w[n - 1])
  }

  function Plus(x: Word, y: Word): Word {
    (x + y) % TWO32
  }

  function AddVars(x: Vars, y: Vars): Vars {
    Vars(Plus(x.a, y.a), Plus(x.b, y.b), Plus(x.c, y.c), Plus(x.d, y.d),
         Plus(x.e, y.e), Plus(x.f, y.f), Plus(x.g, y.g), Plus(x.h, y.h))
  }

  /** The hash value after `n` blocks. */
  function HashBlocks(o: Ops, data: seq<Byte>, n: nat): Vars
    requires 64 * n <= |data|
  {
    if n == 0 then IV
    else
      var v := HashBlocks(o, data, n - 1);
      AddVars(v, Rounds(o, v, Schedule(o, data, 64 * (n - 1), 64), 64))
  }

  function WordList(v: Vars): seq<Word> {
    [v.a, v.b, v.c, v.d, v.e, v.f, v.g, v.h]
  }

  function Concatenated(ws: seq<Word>): (b: seq<Byte>)
    ensures |b| == 4 * |ws|
    decreases |ws|
  {
    if ws == [] then [] else Concatenated(ws[..|ws| - 1]) + BytesOf(ws[|ws| - 1])
  }

  function Digest(o: Ops, m: seq<Byte>): (digest: seq<Byte>)
    requires 8 * |m| < 0x1_0000_0000_0000_0000
    ensures |digest| == 32
  {
    Concatenated(WordList(HashBlocks(o, Pad(m), |Pad(m)| / 64)))
  }

  function Sha256(m: seq<Byte>): (digest: seq<Byte>)
    requires 8 * |m| < 0x1_0000_0000_0000_0000
    ensures |digest| == 32
  {
    Digest(BITS, m)
  }

  // ---------------------------------------------------------------- RFC 2104 section 2

  function XorByte(b: Byte, pad: Byte): Byte {
    assert Pow2(8) == 256;
    Bitwise(Exclusive, b, pad, 8)
  }

  function XorAll(b: seq<Byte>, pad: Byte): (r: seq<Byte>)
    ensures |r| == |b|
  {
    seq(|b|, i requires 0 <= i < |b| => XorByte(b[i], pad))
  }

  /** The key brought to one block: hashed first when longer than a block, then filled with zeros. */
  function BlockKey(key: seq<Byte>): (k: seq<Byte>)
    requires 8 * |key| < 0x1_0000_0000_0000_0000
    ensures |k| == 64
  {
    var k := if |key| > 64 then Sha256(key) else key;
    k + Zeros(64 - |k|)
  }

  function Hmac(key: seq<Byte>, text: seq<Byte>): seq<Byte>
    requires 8 * |key| < 0x1_0000_0000_0000_0000
    requires 8 * (64 + |text|) < 0x1_0000_0000_0000_0000
  {
    var k := BlockKey(key);
    Sha256(XorAll(k, 0x5c) + Sha256(XorAll(k, 0x36) + text))
  }

  /** Bits above both operands stay clear. */
  lemma {:induction false} NarrowXor(x: nat, y: nat, m: nat, n: nat)
    requires m <= n && x < Pow2(m) && y < Pow2(m)
    ensures Bitwise(Exclusive, x, y, n) == Bitwise(Exclusive, x, y, m)
    decreases n
  {
    if m > 0 {
      NarrowXor(x / 2, y / 2, m - 1, n - 1);
    } else if n > 0 {
      NarrowXor(0, 0, 0, n - 1);
    }
  }

  lemma {:induction false} Residue(x: int, d: nat, q: int, z: int)
    requires (d == 64 || d == 512) && x == d * q + z && 0 <= z < d
    ensures x % d == z && x / d == q
  {
  }

  /** Message, marker byte, zero bytes and length fill whole blocks, with none to spare. */
  lemma {:induction false} PadArithmetic(n: nat, q: nat, r: nat)
    requires n == 64 * q + r && r < 64
    ensures ZeroBits(8 * n) == if r <= 55 then 447 - 8 * r else 959 - 8 * r
    ensures n + 9 + (ZeroBits(8 * n) - 7) / 8 == (n + 72) / 64 * 64
  {
    if r <= 55 {
      Residue(448 - (8 * n + 1), 512, -(q as int), 447 - 8 * r);
      assert (440 - 8 * r) / 8 == 55 - r;
      Residue(n + 72, 64, q + 1, r + 8);
    } else {
      Residue(448 - (8 * n + 1), 512, -(q as int) - 1, 959 - 8 * r);
      assert (952 - 8 * r) / 8 == 119 - r;
      Residue(n + 72, 64, q + 2, r - 56);
    }
  }

  lemma {:induction false} PadLength(m: seq<Byte>)
    requires 8 * |m| < 0x1_0000_0000_0000_0000
    ensures |Pad(m)| == |m| + 9 + (ZeroBits(8 * |m|) - 7) / 8 == (|m| + 72) / 64 * 64
    ensures ZeroBits(8 * |m|) >= 7
  {
    PadArithmetic(|m|, |m| / 64, |m| % 64);
  }
}
