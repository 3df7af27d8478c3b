/**
 The dashboard's own SHA-256 and HMAC, with JavaScript's number semantics: values are integers, bitwise
 operators go through 32-bit conversion and give signed results, `>>>` gives unsigned ones, and typed
 arrays wrap what is stored in them.
 */
module Sha256Fallback {
  import opened Arithmetic
  import opened Bytes
  import opened Fips180

  /** Anything a 32-bit operator or a typed array can produce. */
  type Num = x: int | -0x8000_0000 <= x < 0x1_0000_0000

  function ToUint32(x: int): Word {
    x % TWO32
  }

  function ToInt32(x: int): (r: Num)
    ensures -0x8000_0000 <= r < 0x8000_0000
  {
    var u := x % TWO32;
    if u < 0x8000_0000 then u else u - TWO32
  }

  /** Integers a double represents exactly. */
  predicate Safe(x: int) {
    -0x20_0000_0000_0000 < x < 0x20_0000_0000_0000
  }

  function JsAnd(o: Ops, x: Num, y: Num): Num { ToInt32(o.conj(ToUint32(x), ToUint32(y))) }

  function JsOr(o: Ops, x: Num, y: Num): Num { ToInt32(o.disj(ToUint32(x), ToUint32(y))) }

  function JsXor(o: Ops, x: Num, y: Num): Num { ToInt32(o.excl(ToUint32(x), ToUint32(y))) }

  function JsNot(x: Num): Num { ToInt32(-(x as int) - 1) }

  /** Shift counts below 32, which the language takes as they are. */
  type Count = n: nat | n < 32

  function JsShl(o: Ops, x: Num, n: Count): Num { ToInt32(o.shl(ToUint32(x), n)) }

  /** The unsigned right shift `>>>`. */
  function JsShr(o: Ops, x: Num, n: Count): Num { o.shr(ToUint32(x), n) }

  /** `x | 0` on an exact sum. */
  function Wrap(x: int): Num
    requires Safe(x)
  {
    ToInt32(x)
  }

  function JsRotr(o: Ops, x: Num, n: Count): Num
    requires 0 < n
  {
    JsOr(o, JsShr(o, x, n), JsShl(o, x, 32 - n))
  }

  // ---------------------------------------------------------------- operators and residues

  lemma {:induction false} SignedKeepsResidue(x: int)
    ensures ToUint32(ToInt32(x)) == ToUint32(x)
  {
  }

  lemma {:induction false} SignedWord(w: Word)
    ensures ToUint32(ToInt32(w)) == w
  {
  }

  lemma {:induction false} UnsignedWord(w: Word)
    ensures ToUint32(w) == w
  {
  }

  lemma {:induction false} ShiftsAgree(o: Ops, x: Num, n: Count)
    ensures ToUint32(JsShr(o, x, n)) == o.shr(ToUint32(x), n)
    ensures ToUint32(JsShl(o, x, n)) == o.shl(ToUint32(x), n)
  {
    UnsignedWord(o.shr(ToUint32(x), n));
    SignedWord(o.shl(ToUint32(x), n));
  }

  lemma {:induction false} NotAgrees(x: Num)
    ensures ToUint32(JsNot(x)) == Not(ToUint32(x))
  {
    SignedKeepsResidue(-(x as int) - 1);
  }

  lemma {:induction false} BitsAgree(o: Ops, x: Num, y: Num)
    ensures ToUint32(JsAnd(o, x, y)) == o.conj(ToUint32(x), ToUint32(y))
    ensures ToUint32(JsOr(o, x, y)) == o.disj(ToUint32(x), ToUint32(y))
    ensures ToUint32(JsXor(o, x, y)) == o.excl(ToUint32(x), ToUint32(y))
  {
    SignedWord(o.conj(ToUint32(x), ToUint32(y)));
    SignedWord(o.disj(ToUint32(x), ToUint32(y)));
    SignedWord(o.excl(ToUint32(x), ToUint32(y)));
  }

  lemma {:induction false} RotrAgrees(o: Ops, x: Num, n: Count)
    requires 0 < n
    ensures ToUint32(JsRotr(o, x, n)) == Rotr(o, ToUint32(x), n)
  {
    ShiftsAgree(o, x, n);
    ShiftsAgree(o, x, 32 - n);
    BitsAgree(o, JsShr(o, x, n), JsShl(o, x, 32 - n));
  }

  // ---------------------------------------------------------------- one round

  function Xor3(o: Ops, x: Num, y: Num, z: Num): Num { JsXor(o, JsXor(o, x, y), z) }

  lemma {:induction false} Xor3Agrees(o: Ops, x: Num, y: Num, z: Num)
    ensures ToUint32(Xor3(o, x, y, z)) == o.excl(o.excl(ToUint32(x), ToUint32(y)), ToUint32(z))
  {
    BitsAgree(o, x, y);
    BitsAgree(o, JsXor(o, x, y), z);
  }

  lemma {:induction false} RotationsAgree(o: Ops, x: Num, i: Count, j: Count, k: Count)
    requires 0 < i && 0 < j && 0 < k
    ensures ToUint32(Xor3(o, JsRotr(o, x, i), JsRotr(o, x, j), JsRotr(o, x, k))) ==
            o.excl(o.excl(Rotr(o, ToUint32(x), i), Rotr(o, ToUint32(x), j)), Rotr(o, ToUint32(x), k))
  {
    RotrAgrees(o, x, i);
    RotrAgrees(o, x, j);
    RotrAgrees(o, x, k);
    Xor3Agrees(o, JsRotr(o, x, i), JsRotr(o, x, j), JsRotr(o, x, k));
  }

  lemma {:induction false} ShiftedRotationsAgree(o: Ops, x: Num, i: Count, j: Count, k: Count)
    requires 0 < i && 0 < j
    ensures ToUint32(Xor3(o, JsRotr(o, x, i), JsRotr(o, x, j), JsShr(o, x, k))) ==
            o.excl(o.excl(Rotr(o, ToUint32(x), i), Rotr(o, ToUint32(x), j)), o.shr(ToUint32(x), k))
  {
    RotrAgrees(o, x, i);
    RotrAgrees(o, x, j);
    ShiftsAgree(o, x, k);
    Xor3Agrees(o, JsRotr(o, x, i), JsRotr(o, x, j), JsShr(o, x, k));
  }

  function JsCh(o: Ops, e: Num, f: Num, g: Num): Num { JsXor(o, JsAnd(o, e, f), JsAnd(o, JsNot(e), g)) }

  lemma {:induction false} ChAgrees(o: Ops, e: Num, f: Num, g: Num)
    ensures ToUint32(JsCh(o, e, f, g)) == Ch(o, ToUint32(e), ToUint32(f), ToUint32(g))
  {
    NotAgrees(e);
    BitsAgree(o, e, f);
    BitsAgree(o, JsNot(e), g);
    BitsAgree(o, JsAnd(o, e, f), JsAnd(o, JsNot(e), g));
  }

  function JsMaj(o: Ops, a: Num, b: Num, c: Num): Num { Xor3(o, JsAnd(o, a, b), JsAnd(o, a, c), JsAnd(o, b, c)) }

  lemma {:induction false} MajAgrees(o: Ops, a: Num, b: Num, c: Num)
    ensures ToUint32(JsMaj(o, a, b, c)) == Maj(o, ToUint32(a), ToUint32(b), ToUint32(c))
  {
    BitsAgree(o, a, b);
    BitsAgree(o, a, c);
    BitsAgree(o, b, c);
    Xor3Agrees(o, JsAnd(o, a, b), JsAnd(o, a, c), JsAnd(o, b, c));
  }

  /** The eight working variables seen as words. */
  function Words(a: Num, b: Num, c: Num, d: Num, e: Num, f: Num, g: Num, h: Num): Vars {
    Vars(ToUint32(a), ToUint32(b), ToUint32(c), ToUint32(d), ToUint32(e), ToUint32(f), ToUint32(g), ToUint32(h))
  }

  lemma {:induction false} Replace(x: int, r: int, rest: int)
    requires x % TWO32 == r % TWO32
    ensures (x + rest) % TWO32 == (r + rest) % TWO32
  {
  }

  lemma {:induction false} ReplaceThree(x: int, y: int, z: int, rest: int, u: int, v: int, w: int)
    requires x % TWO32 == u % TWO32 && y % TWO32 == v % TWO32 && z % TWO32 == w % TWO32
    ensures (x + (y + z + rest)) % TWO32 == (u + (v + w + rest)) % TWO32
  {
    Replace(x, u, y + z + rest);
    Replace(y, v, u + z + rest);
    Replace(z, w, u + v + rest);
  }

  lemma {:induction false} FiveWrapAgrees(h: Num, s1: Num, ch: Num, k: Word, w: Word, u: Word, v: Word, z: Word)
    requires ToUint32(h) == u && ToUint32(s1) == v && ToUint32(ch) == z
    ensures ToUint32(Wrap(h as int + s1 as int + ch as int + k as int + w as int)) == (u + v + z + k + w) % TWO32
  {
    SignedKeepsResidue(h as int + s1 as int + ch as int + k as int + w as int);
    ReplaceThree(h, s1, ch, k as int + w as int, u, v, z);
  }

  lemma {:induction false} TwoSumAgrees(x: int, y: int)
    ensures ToUint32(ToInt32(x + y)) == (ToUint32(x) + ToUint32(y)) % TWO32
  {
    SignedKeepsResidue(x + y);
  }

  lemma {:induction false} FourWrapAgrees(x: Word, s0: Num, y: Word, s1: Num, u: Word, v: Word)
    requires ToUint32(s0) == u && ToUint32(s1) == v
    ensures ToUint32(Wrap(x as int + s0 as int + y as int + s1 as int)) == (v + y + u + x) % TWO32
  {
    SignedKeepsResidue(x as int + s0 as int + y as int + s1 as int);
    Replace(s0, u, x as int + y as int + s1 as int);
    Replace(s1, v, x as int + y as int + u as int);
  }

  /** `(x + y) | 0`. */
  method WrapAdd(x: Num, y: Num) returns (r: Num)
    ensures ToUint32(r) == Plus(ToUint32(x), ToUint32(y))
  {
    r := Wrap(x as int + y as int);
    TwoSumAgrees(x, y);
  }

  method Temp1(o: Ops, e: Num, f: Num, g: Num, h: Num, k: Word, w: Word) returns (t: Num)
    ensures ToUint32(t) == (ToUint32(h) + BigSigma1(o, ToUint32(e)) + Ch(o, ToUint32(e), ToUint32(f), ToUint32(g)) + k + w) % TWO32
  {
    var s1 := Xor3(o, JsRotr(o, e, 6), JsRotr(o, e, 11), JsRotr(o, e, 25));
    var ch := JsCh(o, e, f, g);
    t := Wrap(h as int + s1 as int + ch as int + k as int + w as int);
    assert ToUint32(s1) == BigSigma1(o, ToUint32(e)) by { RotationsAgree(o, e, 6, 11, 25); }
    assert ToUint32(ch) == Ch(o, ToUint32(e), ToUint32(f), ToUint32(g)) by { ChAgrees(o, e, f, g); }
    FiveWrapAgrees(h, s1, ch, k, w, ToUint32(h), BigSigma1(o, ToUint32(e)), Ch(o, ToUint32(e), ToUint32(f), ToUint32(g)));
  }

  method Temp2(o: Ops, a: Num, b: Num, c: Num) returns (t: Num)
    ensures ToUint32(t) == Plus(BigSigma0(o, ToUint32(a)), Maj(o, ToUint32(a), ToUint32(b), ToUint32(c)))
  {
    var s0 := Xor3(o, JsRotr(o, a, 2), JsRotr(o, a, 13), JsRotr(o, a, 22));
    var maj := JsMaj(o, a, b, c);
    assert ToUint32(s0) == BigSigma0(o, ToUint32(a)) by { RotationsAgree(o, a, 2, 13, 22); }
    assert ToUint32(maj) == Maj(o, ToUint32(a), ToUint32(b), ToUint32(c)) by { MajAgrees(o, a, b, c); }
    t := WrapAdd(s0, maj);
  }

  /** One pass of the reassignments computes one round of section 6.2.2. */
  method OneRound(o: Ops, k: Word, w: Word, a0: Num, b0: Num, c0: Num, d0: Num, e0: Num, f0: Num, g0: Num, h0: Num)
    returns (a: Num, b: Num, c: Num, d: Num, e: Num, f: Num, g: Num, h: Num)
    ensures Words(a, b, c, d, e, f, g, h) == Round(o, Words(a0, b0, c0, d0, e0, f0, g0, h0), k, w)
  {
    a, b, c, d, e, f, g, h := a0, b0, c0, d0, e0, f0, g0, h0;
    var temp1 := Temp1(o, e, f, g, h, k, w);
    var temp2 := Temp2(o, a, b, c);
    h := g;
    g := f;
    f := e;
    e := WrapAdd(d, temp1);
    d := c;
    c := b;
    b := a;
    a := WrapAdd(temp1, temp2);
  }

  /** The sixty-four rounds. */
  method WorkRounds(o: Ops, h0: Num, h1: Num, h2: Num, h3: Num, h4: Num, h5: Num, h6: Num, h7: Num, w: array<Word>)
    returns (a: Num, b: Num, c: Num, d: Num, e: Num, f: Num, g: Num, h: Num)
    requires w.Length == 64
    ensures Words(a, b, c, d, e, f, g, h) == Rounds(o, Words(h0, h1, h2, h3, h4, h5, h6, h7), w[..], 64)
  {
    a, b, c, d, e, f, g, h := h0, h1, h2, h3, h4, h5, h6, h7;
    for i := 0 to 64
      invariant Words(a, b, c, d, e, f, g, h) == Rounds(o, Words(h0, h1, h2, h3, h4, h5, h6, h7), w[..], i)
    {
      a, b, c, d, e, f, g, h := OneRound(o, K(i), w[i], a, b, c, d, e, f, g, h);
    }
  }

  /** The word stored at `w[i]`, from `w[i - 16]`, `w[i - 15]`, `w[i - 7]` and `w[i - 2]`. */
  method NextWord(o: Ops, w16: Word, w15: Word, w7: Word, w2: Word) returns (next: Word)
    ensures next == ScheduleWord(o, w16, w15, w7, w2)
  {
    var s0 := Xor3(o, JsRotr(o, w15, 7), JsRotr(o, w15, 18), JsShr(o, w15, 3));
    var s1 := Xor3(o, JsRotr(o, w2, 17), JsRotr(o, w2, 19), JsShr(o, w2, 10));
    next := ToUint32(Wrap(w16 as int + s0 as int + w7 as int + s1 as int));
    assert ToUint32(s0) == SmallSigma0(o, w15) by {
      UnsignedWord(w15);
      ShiftedRotationsAgree(o, w15, 7, 18, 3);
    }
    assert ToUint32(s1) == SmallSigma1(o, w2) by {
      UnsignedWord(w2);
      ShiftedRotationsAgree(o, w2, 17, 19, 10);
    }
    FourWrapAgrees(w16, s0, w7, s1, SmallSigma0(o, w15), SmallSigma1(o, w2));
  }

  /** The message schedule of the block at `off`, built in place; the array wraps each stored sum. */
  method FillSchedule(o: Ops, data: array<Byte>, off: nat, w: array<Word>)
    requires off + 64 <= data.Length && w.Length == 64
    modifies w
    ensures w[..] == Schedule(o, data[..], off, 64)
  {
    for i := 0 to 16
      invariant w[..i] == Schedule(o, data[..], off, i)
    {
      w[i] := WordAt(data[..], off + i * 4);
      assert w[..i + 1] == w[..i] + [w[i]];
    }
    for i := 16 to 64
      invariant w[..i] == Schedule(o, data[..], off, i)
    {
      ghost var before := w[..i];
      w[i] := NextWord(o, w[i - 16], w[i - 15], w[i - 7], w[i - 2]);
      assert w[..i + 1] == before + [w[i]];
    }
    assert w[..64] == w[..];
  }

  // ---------------------------------------------------------------- padding in a typed array

  /** The signed right shift `>>`: each step halves and rounds down. */
  function Sar(x: Num, n: nat): Num
    decreases n, x
  {
    if n == 0 then x else Sar(x / 2, n - 1)
  }

  lemma {:induction false} SarSix(x: Num)
    requires x >= 0
    ensures Sar(x, 6) == x / 64
  {
    var y: Num := x / 8;
    assert Sar(x, 6) == Sar(y, 3) by {
      assert Sar(x / 2, 5) == Sar(x / 4, 4);
      assert x / 2 / 2 / 2 == y;
    }
    assert Sar(y, 3) == y / 8 by {
      assert Sar(y / 2, 2) == Sar(y / 4, 1);
      assert y / 2 / 2 / 2 == y / 8;
    }
  }

  lemma {:induction false} ShlStep(q: Word, n: nat, p: nat)
    requires n > 0 && 2 * (q as nat) == p < TWO32
    ensures Shl(q, n) == Shl(p, n - 1)
  {
    UnsignedWord(p);
  }

  lemma {:induction false} ShlThree(q: Word, n: nat)
    requires n >= 3 && 8 * (q as nat) < TWO32
    ensures Shl(q, n) == Shl(8 * (q as nat), n - 3)
  {
    var two: nat, four: nat, eight: nat := 2 * (q as nat), 4 * (q as nat), 8 * (q as nat);
    ShlStep(q, n, two);
    ShlStep(two, n - 1, four);
    ShlStep(four, n - 2, eight);
  }

  lemma {:induction false} ShlSix(q: Word)
    requires 64 * (q as nat) < TWO32
    ensures Shl(q, 6) == 64 * (q as nat)
  {
    var eight: nat := 8 * (q as nat);
    ShlThree(q, 6);
    ShlThree(eight, 3);
  }

  lemma {:induction false} SmallUnchanged(x: nat)
    requires x < 0x8000_0000
    ensures ToInt32(x) == x && ToUint32(x) == x
  {
  }

  /** Shifting right and then left by six rounds down to a multiple of the block size. */
  lemma {:induction false} PaddedLength(x: nat)
    requires x < 0x8000_0000
    ensures JsShl(BITS, Sar(ToInt32(x), 6), 6) == x / 64 * 64
  {
    SmallUnchanged(x);
    SarSix(x);
    SmallUnchanged(x / 64);
    ShlSix(x / 64);
    SmallUnchanged(64 * (x / 64));
  }

  /** A big-endian store of one word. */
  method SetUint32(a: array<Byte>, off: nat, v: Word)
    requires off + 4 <= a.Length
    modifies a
    ensures a[..] == old(a[..off]) + BytesOf(v) + old(a[off + 4..])
  {
    var b := BytesOf(v);
    a[off], a[off + 1], a[off + 2], a[off + 3] := b[0], b[1], b[2], b[3];
    assert a[..] == a[..off] + [a[off], a[off + 1], a[off + 2], a[off + 3]] + a[off + 4..];
  }

  /** A zeroed buffer holding the message and the marker byte. */
  method CopyMarked(bytes: array<Byte>, size: nat) returns (a: array<Byte>)
    requires bytes.Length < size
    ensures fresh(a) && a[..] == bytes[..] + [0x80] + Zeros(size - bytes.Length - 1)
  {
    a := new Byte[size](_ => 0);
    var n := bytes.Length;
    for i := 0 to n
      invariant a[..i] == bytes[..i]
      invariant forall j :: n <= j < size ==> a[j] == 0
    {
      a[i] := bytes[i];
      assert a[..i + 1] == a[..i] + [a[i]];
    }
    a[n] := 0x80;
    assert a[..n] == bytes[..];
    assert a[n + 1..] == Zeros(size - n - 1);
    assert a[..] == a[..n] + [a[n]] + a[n + 1..];
  }

  /** The marked message with two length words stored in the last eight bytes. */
  method PadTo(bytes: array<Byte>, size: nat, high: Word, low: Word) returns (withOne: array<Byte>)
    requires bytes.Length + 9 <= size
    ensures fresh(withOne)
    ensures withOne[..] == bytes[..] + [0x80] + Zeros(size - bytes.Length - 9) + BytesOf(high) + BytesOf(low)
  {
    withOne := CopyMarked(bytes, size);
    ghost var body := bytes[..] + [0x80] + Zeros(size - bytes.Length - 9);
    assert withOne[..size - 8] == body;
    SetUint32(withOne, size - 4, low);
    assert withOne[..size - 8] == body;
    assert withOne[size - 4..] == BytesOf(low);
    SetUint32(withOne, size - 8, high);
  }

  /** The padded copy, sized with 32-bit shifts. */
  method PadMessage(bytes: array<Byte>) returns (withOne: array<Byte>)
    requires bytes.Length + 72 < 0x8000_0000
    ensures fresh(withOne) && withOne[..] == Pad(bytes[..])
  {
    var bitLen := bytes.Length * 8;
    PaddedLength(bytes.Length + 72);
    PadLength(bytes[..]);
    var size: int := JsShl(BITS, Sar(ToInt32(bytes.Length + 9 + 63), 6), 6);
    withOne := PadTo(bytes, size, bitLen / TWO32, ToUint32(bitLen));
  }

  // ---------------------------------------------------------------- the digest

  method AddInPlace(h0: Num, h1: Num, h2: Num, h3: Num, h4: Num, h5: Num, h6: Num, h7: Num,
                    a: Num, b: Num, c: Num, d: Num, e: Num, f: Num, g: Num, h: Num)
    returns (g0: Num, g1: Num, g2: Num, g3: Num, g4: Num, g5: Num, g6: Num, g7: Num)
    ensures Words(g0, g1, g2, g3, g4, g5, g6, g7) ==
            AddVars(Words(h0, h1, h2, h3, h4, h5, h6, h7), Words(a, b, c, d, e, f, g, h))
  {
    g0 := WrapAdd(h0, a);
    g1 := WrapAdd(h1, b);
    g2 := WrapAdd(h2, c);
    g3 := WrapAdd(h3, d);
    g4 := WrapAdd(h4, e);
    g5 := WrapAdd(h5, f);
    g6 := WrapAdd(h6, g);
    g7 := WrapAdd(h7, h);
  }

  /** One block: schedule, rounds, and the eight in-place additions. */
  method OneBlock(o: Ops, data: array<Byte>, offset: nat, w: array<Word>,
                  h0: Num, h1: Num, h2: Num, h3: Num, h4: Num, h5: Num, h6: Num, h7: Num)
    returns (g0: Num, g1: Num, g2: Num, g3: Num, g4: Num, g5: Num, g6: Num, g7: Num)
    requires offset + 64 <= data.Length && w.Length == 64
    modifies w
    ensures var v := Words(h0, h1, h2, h3, h4, h5, h6, h7);
            Words(g0, g1, g2, g3, g4, g5, g6, g7) ==
            AddVars(v, Rounds(o, v, Schedule(o, data[..], offset, 64), 64))
  {
    FillSchedule(o, data, offset, w);
    var a, b, c, d, e, f, g, h := WorkRounds(o, h0, h1, h2, h3, h4, h5, h6, h7, w);
    g0, g1, g2, g3, g4, g5, g6, g7 := AddInPlace(h0, h1, h2, h3, h4, h5, h6, h7, a, b, c, d, e, f, g, h);
  }

  method AllBlocks(o: Ops, data: array<Byte>, n: nat)
    returns (h0: Num, h1: Num, h2: Num, h3: Num, h4: Num, h5: Num, h6: Num, h7: Num)
    requires data.Length == 64 * n
    ensures Words(h0, h1, h2, h3, h4, h5, h6, h7) == HashBlocks(o, data[..], n)
  {
    h0, h1, h2, h3 := 0x6a09e667, 0xbb67ae85, 0x3c6ef372, 0xa54ff53a;
    h4, h5, h6, h7 := 0x510e527f, 0x9b05688c, 0x1f83d9ab, 0x5be0cd19;
    var w := new Word[64](_ => 0);
    for i := 0 to n
      invariant Words(h0, h1, h2, h3, h4, h5, h6, h7) == HashBlocks(o, data[..], i)
    {
      h0, h1, h2, h3, h4, h5, h6, h7 := OneBlock(o, data, 64 * i, w, h0, h1, h2, h3, h4, h5, h6, h7);
    }
  }

  method HashWords(o: Ops, data: array<Byte>, n: nat) returns (words: seq<Word>)
    requires data.Length == 64 * n
    ensures words == WordList(HashBlocks(o, data[..], n))
  {
    var h0, h1, h2, h3, h4, h5, h6, h7 := AllBlocks(o, data, n);
    words := [ToUint32(h0), ToUint32(h1), ToUint32(h2), ToUint32(h3),
              ToUint32(h4), ToUint32(h5), ToUint32(h6), ToUint32(h7)];
  }

  method Emit(words: seq<Word>) returns (out: array<Byte>)
    ensures fresh(out) && out[..] == Concatenated(words)
  {
    out := new Byte[4 * |words|](_ => 0);
    for i := 0 to |words|
      invariant out[..4 * i] == Concatenated(words[..i])
    {
      SetUint32(out, 4 * i, words[i]);
      assert words[..i + 1][..i] == words[..i];
      assert out[..4 * (i + 1)] == out[..4 * i] + BytesOf(words[i]);
    }
    assert words[..|words|] == words;
    assert out[..4 * |words|] == out[..];
  }

  /** Every byte string of length below 2^31 - 72 is hashed as FIPS 180-4 prescribes, over any bitwise
      operations, despite the signed arithmetic and the reused buffers. */
  method Sha256With(o: Ops, bytes: array<Byte>) returns (out: array<Byte>)
    requires bytes.Length + 72 < 0x8000_0000
    ensures fresh(out) && out[..] == Digest(o, bytes[..])
  {
    var withOne := PadMessage(bytes);
    var n := withOne.Length / 64;
    WholeBlocks(bytes[..]);
    var words := HashWords(o, withOne, n);
    out := Emit(words);
  }

  lemma {:induction false} WholeBlocks(m: seq<Byte>)
    requires |m| < 0x8000_0000
    ensures |Pad(m)| == 64 * (|Pad(m)| / 64)
  {
    PadLength(m);
    Residue(|Pad(m)|, 64, (|m| + 72) / 64, 0);
  }

  method Sha256Bytes(bytes: array<Byte>) returns (out: array<Byte>)
    requires bytes.Length + 72 < 0x8000_0000
    ensures fresh(out) && out[..] == Sha256(bytes[..])
  {
    out := Sha256With(BITS, bytes);
  }

  // ---------------------------------------------------------------- HMAC

  method ConcatBytes(a: array<Byte>, b: array<Byte>) returns (out: array<Byte>)
    ensures fresh(out) && out[..] == a[..] + b[..]
  {
    out := new Byte[a.Length + b.Length](i requires 0 <= i reads a, b =>
      if i < a.Length then a[i] else if i - a.Length < b.Length then b[i - a.Length] else 0);
  }

  /** The key zero-filled to one block. */
  method PadKey(key: array<Byte>) returns (padded: array<Byte>)
    requires key.Length <= 64
    ensures padded[..] == key[..] + Zeros(64 - key.Length)
  {
    padded := key;
    if key.Length < 64 {
      var zeros := new Byte[64 - key.Length](_ => 0);
      padded := ConcatBytes(key, zeros);
      assert zeros[..] == Zeros(64 - key.Length);
    } else {
      assert key[..] + Zeros(0) == key[..];
    }
  }

  /** The key brought to one block: hashed when longer, filled when shorter. */
  method PrepareKey(keyBytes: array<Byte>) returns (key: array<Byte>)
    requires keyBytes.Length + 72 < 0x8000_0000
    ensures key[..] == BlockKey(keyBytes[..])
  {
    key := keyBytes;
    if key.Length > 64 {
      key := Sha256Bytes(key);
    }
    key := PadKey(key);
  }

  /** `key[i] ^ pad`, a signed 32-bit value, stored in a byte array: the typed array keeps it modulo 256. */
  function StoredXor(b: Byte, pad: Byte): Byte {
    (JsXor(BITS, b, pad) as int) % 256
  }

  lemma {:induction false} StoredXorAgrees(b: Byte, pad: Byte)
    ensures StoredXor(b, pad) == XorByte(b, pad)
  {
    assert Pow2(8) == 256;
    UnsignedWord(b);
    UnsignedWord(pad);
    NarrowXor(b, pad, 8, 32);
    SmallUnchanged(XorByte(b, pad));
  }

  method XorPad(key: array<Byte>, pad: Byte) returns (out: array<Byte>)
    ensures fresh(out) && out[..] == XorAll(key[..], pad)
  {
    out := new Byte[key.Length](_ => 0);
    for i := 0 to key.Length
      invariant forall j :: 0 <= j < i ==> out[j] == XorByte(key[j], pad)
    {
      StoredXorAgrees(key[i], pad);
      out[i] := StoredXor(key[i], pad);
    }
  }

  /** The keyed digest is section 2 of RFC 2104 over this SHA-256. */
  method HmacSha256(keyBytes: array<Byte>, msgBytes: array<Byte>) returns (mac: array<Byte>)
    requires keyBytes.Length + 72 < 0x8000_0000
    requires msgBytes.Length + 136 < 0x8000_0000
    ensures mac[..] == Hmac(keyBytes[..], msgBytes[..])
  {
    var key := PrepareKey(keyBytes);
    var oKeyPad := XorPad(key, 0x5c);
    var iKeyPad := XorPad(key, 0x36);
    var innerText := ConcatBytes(iKeyPad, msgBytes);
    var inner := Sha256Bytes(innerText);
    var outerText := ConcatBytes(oKeyPad, inner);
    mac := Sha256Bytes(outerText);
  }
}
