/** What the CRC detects: any change confined to four consecutive bytes. */
module CrcProofs {
  import opened ByteStrings
  import opened Crc

  // ----- bit-level facts -----

  lemma {:induction false} RoundInjective(a: bv32, b: bv32)
    requires Round(a) == Round(b)
    ensures a == b
  {
  }

  lemma {:induction false} XorCancel(a: bv32, b: bv32, x: bv32)
    requires Xor(a, x) == Xor(b, x)
    ensures a == b
  {
  }

  lemma {:induction false} XorCancelLeft(x: bv32, a: bv32, b: bv32)
    requires Xor(x, a) == Xor(x, b)
    ensures a == b
  {
  }

  lemma {:induction false} XorAssoc(a: bv32, b: bv32, c: bv32)
    ensures Xor(Xor(a, b), c) == Xor(a, Xor(b, c))
  {
  }

  predicate Clear(y: bv32, mask: bv32) {
    y & mask == 0
  }

  predicate Room(y: bv32) {
    y & 0x8000_0000 == 0
  }

  function HalfTop(m: bv32): bv32 {
    (m >> 1) | 0x8000_0000
  }

  predicate Within(m: bv32, m': bv32) {
    m & m' == m
  }

  lemma {:induction false} OddLinear(x: bv32, y: bv32)
    ensures Odd(Xor(x, Double(y))) == Odd(x)
  {
  }

  lemma {:induction false} HalfLinear(x: bv32, y: bv32)
    requires Room(y)
    ensures Half(Xor(x, Double(y))) == Xor(Half(x), y)
  {
  }

  lemma {:induction false} XorSwap(a: bv32, b: bv32, c: bv32)
    ensures Xor(Xor(a, b), c) == Xor(Xor(a, c), b)
  {
    XorAssoc(a, b, c);
    XorComm(b, c);
    XorAssoc(a, c, b);
  }

  lemma {:induction false} XorComm(a: bv32, b: bv32)
    ensures Xor(a, b) == Xor(b, a)
  {
  }

  /** A round commutes with a pending bit pattern that has not reached the low bit. */
  lemma {:induction false} RoundLinear(x: bv32, y: bv32)
    requires Room(y)
    ensures Round(Xor(x, Double(y))) == Xor(Round(x), y)
  {
    OddLinear(x, y);
    HalfLinear(x, y);
    XorSwap(Half(x), y, if Odd(x) then POLY else 0);
  }

  lemma {:induction false} ClearShift(y: bv32, m: bv32)
    requires Clear(y, HalfTop(m))
    ensures Clear(Double(y), m) && Room(y)
  {
  }

  lemma {:induction false} ClearWeaker(y: bv32, m: bv32, m': bv32)
    requires Clear(y, m') && Within(m, m')
    ensures Clear(y, m)
  {
  }

  lemma {:induction false} WithinShift(m: bv32, m': bv32)
    requires Within(m, m')
    ensures Within(HalfTop(m), HalfTop(m'))
  {
  }

  lemma {:induction false} PushClear(y: bv32, bit: bool, m: bv32)
    requires Clear(y, HalfTop(m)) && !Odd(m)
    ensures Clear(PushBit(y, bit), m)
  {
  }

  lemma {:induction false} PushInjective(x: bv32, p: bool, y: bv32, q: bool)
    requires Room(x) && Room(y) && PushBit(x, p) == PushBit(y, q)
    ensures x == y && p == q
  {
  }

  lemma {:induction false} HalfInjective(a: bv32, b: bv32)
    requires Half(a) == Half(b) && Odd(a) == Odd(b)
    ensures a == b
  {
  }

  // ----- a register determines its past -----

  lemma {:induction false} RoundsInjective(a: bv32, b: bv32, n: nat)
    requires Rounds(a, n) == Rounds(b, n)
    ensures a == b
    decreases n
  {
    if n > 0 {
      RoundsInjective(Round(a), Round(b), n - 1);
      RoundInjective(a, b);
    }
  }

  lemma {:induction false} RegisterInjective(a: bv32, b: bv32, data: Bytes)
    requires Register(a, data) == Register(b, data)
    ensures a == b
    decreases |data|
  {
    if data != [] {
      RegisterInjective(Step(a, data[0]), Step(b, data[0]), data[1..]);
      RoundsInjective(Xor(a, Widen(data[0], 8)), Xor(b, Widen(data[0], 8)), 8);
      XorCancel(a, b, Widen(data[0], 8));
    }
  }

  lemma {:induction false} RegisterConcat(c: bv32, s: Bytes, t: Bytes)
    ensures Register(c, s + t) == Register(Register(c, s), t)
    decreases |s|
  {
    if s == [] {
      assert s + t == t;
    } else {
      assert (s + t)[1..] == s[1..] + t;
      RegisterConcat(Step(c, s[0]), s[1..], t);
    }
  }

  // ----- up to four bytes act as one word -----

  lemma {:induction false} RoundsAppend(c: bv32, m: nat, n: nat)
    ensures Rounds(Rounds(c, m), n) == Rounds(c, m + n)
    decreases m
  {
    if m > 0 {
      RoundsAppend(Round(c), m - 1, n);
    }
  }

  /** The top `n` bits of a register. */
  function Top(n: nat): bv32 {
    if n == 0 then 0 else HalfTop(Top(n - 1))
  }

  lemma {:induction false} TopMonotone(n: nat)
    ensures Within(Top(n), Top(n + 1))
  {
    if n > 0 {
      TopMonotone(n - 1);
      WithinShift(Top(n - 1), Top(n));
    }
  }

  lemma {:induction false} ShlComm(y: bv32, n: nat)
    ensures Shl(Double(y), n) == Double(Shl(y, n))
    decreases n
  {
    if n > 0 {
      ShlComm(y, n - 1);
    }
  }

  /** Shifting left by `n` moves the clear top bits up by `n`. */
  lemma {:induction false} ShlClear(y: bv32, n: nat, k: nat)
    requires Clear(y, Top(n + k))
    ensures Clear(Shl(y, n), Top(k))
    decreases n
  {
    if n > 0 {
      ClearShift(y, Top(n + k - 1));
      ShlClear(Double(y), n - 1, k);
      ShlComm(y, n - 1);
    }
  }

  lemma {:induction false} RoundsLinear(x: bv32, y: bv32, n: nat)
    requires Clear(y, Top(n))
    ensures Rounds(Xor(x, Shl(y, n)), n) == Xor(Rounds(x, n), y)
    decreases n
  {
    if n > 0 {
      ShlClear(y, n - 1, 1);
      TopMonotone(n - 1);
      ClearWeaker(y, Top(n - 1), Top(n));
      ClearShift(Shl(y, n - 1), Top(0));
      RoundLinear(x, Shl(y, n - 1));
      RoundsLinear(Round(x), y, n - 1);
    }
  }

  lemma {:induction false} TopEven(n: nat)
    requires n < 32
    ensures !Odd(Top(n))
  {
    assert !Odd(Top(31)) by { Top31(); }
    TopChain(n, 31);
    EvenWithin(Top(n), Top(31));
  }

  lemma {:induction false} Top31()
    ensures Top(31) == 0xFFFF_FFFE
  {
    assert Top(8) == 0xFF00_0000;
    assert Top(16) == 0xFFFF_0000;
    assert Top(24) == 0xFFFF_FF00;
  }

  lemma {:induction false} WithinTransitive(a: bv32, b: bv32, c: bv32)
    requires Within(a, b) && Within(b, c)
    ensures Within(a, c)
  {
  }

  lemma {:induction false} TopChain(m: nat, n: nat)
    requires m <= n
    ensures Within(Top(m), Top(n))
    decreases n
  {
    if m < n {
      TopChain(m, n - 1);
      TopMonotone(n - 1);
      WithinTransitive(Top(m), Top(n - 1), Top(n));
    }
  }

  lemma {:induction false} EvenWithin(m: bv32, m': bv32)
    requires Within(m, m') && !Odd(m')
    ensures !Odd(m)
  {
  }

  lemma {:induction false} WidenClear(n: nat, w: nat)
    requires w <= 32
    ensures Clear(Widen(n, w), Top(32 - w))
    decreases w
  {
    if w > 0 {
      WidenClear(n / 2, w - 1);
      TopEven(32 - w);
      PushClear(Widen(n / 2, w - 1), n % 2 == 1, Top(32 - w));
    }
  }

  lemma {:induction false} WidenInjective(m: nat, n: nat, w: nat)
    requires w <= 32 && m < Pow2(w) && n < Pow2(w) && Widen(m, w) == Widen(n, w)
    ensures m == n
    decreases w
  {
    hide PushBit, Clear;
    if w > 0 {
      WidenClear(m / 2, w - 1);
      WidenClear(n / 2, w - 1);
      ClearShift(Widen(m / 2, w - 1), Top(32 - w));
      ClearShift(Widen(n / 2, w - 1), Top(32 - w));
      PushInjective(Widen(m / 2, w - 1), m % 2 == 1, Widen(n / 2, w - 1), n % 2 == 1);
      WidenInjective(m / 2, n / 2, w - 1);
    }
  }

  function Word(w: Bytes): bv32 {
    if w == [] then 0 else Xor(Widen(w[0], 8), Shl(Word(w[1..]), 8))
  }

  lemma {:induction false} ClearXor(x: bv32, y: bv32, m: bv32)
    requires Clear(x, m) && Clear(y, m)
    ensures Clear(Xor(x, y), m)
  {
  }

  lemma {:induction false} WordClear(w: Bytes)
    requires |w| <= 4
    ensures Clear(Word(w), Top(32 - 8 * |w|))
  {
    if w != [] {
      WidenClear(w[0], 8);
      TopChain(32 - 8 * |w|, 24);
      ClearWeaker(Widen(w[0], 8), Top(32 - 8 * |w|), Top(24));
      WordClear(w[1..]);
      ShlClear(Word(w[1..]), 8, 32 - 8 * |w|);
      ClearXor(Widen(w[0], 8), Shl(Word(w[1..]), 8), Top(32 - 8 * |w|));
    }
  }

  /** Feeding up to four bytes is folding in one word and turning the register for all of it. */
  lemma {:induction false} RegisterWord(c: bv32, w: Bytes)
    requires |w| <= 4
    ensures Register(c, w) == Rounds(Xor(c, Word(w)), 8 * |w|)
    decreases |w|
  {
    if w == [] {
      XorZero(c);
    } else {
      var b, rest := Widen(w[0], 8), Word(w[1..]);
      RegisterWord(Step(c, w[0]), w[1..]);
      WordClear(w[1..]);
      TopChain(8, 32 - 8 * |w[1..]|);
      ClearWeaker(rest, Top(8), Top(32 - 8 * |w[1..]|));
      RoundsLinear(Xor(c, b), rest, 8);
      XorAssoc(c, b, Shl(rest, 8));
      RoundsAppend(Xor(c, Word(w)), 8, 8 * |w[1..]|);
    }
  }

  lemma {:induction false} XorZero(c: bv32)
    ensures Xor(c, 0) == c
  {
  }

  function Bottom(n: nat): bv32 {
    if n == 0 then 0 else PushBit(Bottom(n - 1), true)
  }

  lemma {:induction false} ClearDouble(y: bv32, m: bv32)
    requires Clear(y, m)
    ensures Clear(Double(y), PushBit(m, true))
  {
  }

  lemma {:induction false} ShlBottom(y: bv32, n: nat)
    ensures Clear(Shl(y, n), Bottom(n))
    decreases n
  {
    if n > 0 {
      ShlBottom(y, n - 1);
      ClearDouble(Shl(y, n - 1), Bottom(n - 1));
    } else {
      ClearNothing(y);
    }
  }

  lemma {:induction false} ClearNothing(y: bv32)
    ensures Clear(y, 0)
  {
  }

  lemma {:induction false} Halves()
    ensures Bottom(8) == 0xFF && Top(24) == 0xFFFF_FF00
  {
    assert Bottom(4) == 0xF;
    assert Top(8) == 0xFF00_0000;
    assert Top(16) == 0xFFFF_0000;
  }

  lemma {:induction false} SplitUnique(a: bv32, s: bv32, b: bv32, t: bv32)
    requires Xor(a, s) == Xor(b, t)
    requires Clear(a, 0xFFFF_FF00) && Clear(b, 0xFFFF_FF00) && Clear(s, 0xFF) && Clear(t, 0xFF)
    ensures a == b && s == t
  {
  }

  lemma {:induction false} DoubleInjective(x: bv32, y: bv32)
    requires Room(x) && Room(y) && Double(x) == Double(y)
    ensures x == y
  {
  }

  lemma {:induction false} ShlInjective(x: bv32, y: bv32, n: nat)
    requires Clear(x, Top(n)) && Clear(y, Top(n)) && Shl(x, n) == Shl(y, n)
    ensures x == y
    decreases n
  {
    if n > 0 {
      ClearShift(x, Top(n - 1));
      ClearShift(y, Top(n - 1));
      ShlComm(x, n - 1);
      ShlComm(y, n - 1);
      ShlInjective(Double(x), Double(y), n - 1);
      DoubleInjective(x, y);
    }
  }

  lemma {:induction false} WordInjective(u: Bytes, v: Bytes)
    requires |u| == |v| <= 4 && Word(u) == Word(v)
    ensures u == v
  {
    if u != [] {
      Halves();
      WidenClear(u[0], 8);
      WidenClear(v[0], 8);
      ShlBottom(Word(u[1..]), 8);
      ShlBottom(Word(v[1..]), 8);
      SplitUnique(Widen(u[0], 8), Shl(Word(u[1..]), 8), Widen(v[0], 8), Shl(Word(v[1..]), 8));
      assert Pow2(8) == 256;
      WidenInjective(u[0], v[0], 8);
      WordRoom(u[1..]);
      WordRoom(v[1..]);
      ShlInjective(Word(u[1..]), Word(v[1..]), 8);
      WordInjective(u[1..], v[1..]);
      assert u == [u[0]] + u[1..] && v == [v[0]] + v[1..];
    }
  }

  lemma {:induction false} WordRoom(w: Bytes)
    requires |w| <= 3
    ensures Clear(Word(w), Top(8))
  {
    WordClear(w);
    TopChain(8, 32 - 8 * |w|);
    ClearWeaker(Word(w), Top(8), Top(32 - 8 * |w|));
  }

  // ----- the checksum bytes determine the register -----

  lemma {:induction false} LowInjective(a: bv32, b: bv32, w: nat)
    requires Low(a, w) == Low(b, w) && Shr(a, w) == Shr(b, w)
    ensures a == b
    decreases w
  {
    if w > 0 {
      LowInjective(Half(a), Half(b), w - 1);
      HalfInjective(a, b);
    }
  }

  lemma {:induction false} ShrGone(a: bv32)
    ensures Shr(Shr(Shr(Shr(a, 8), 8), 8), 8) == 0
  {
    ClearNothing(a);
    ShrClear(a, 0, 8);
    ShrClear(Shr(a, 8), 8, 8);
    ShrClear(Shr(Shr(a, 8), 8), 16, 8);
    ShrClear(Shr(Shr(Shr(a, 8), 8), 8), 24, 8);
    Top32();
    AllClear(Shr(Shr(Shr(Shr(a, 8), 8), 8), 8));
  }

  lemma {:induction false} Top32()
    ensures Top(32) == 0xFFFF_FFFF
  {
    Halves();
  }

  lemma {:induction false} AllClear(y: bv32)
    requires Clear(y, 0xFFFF_FFFF)
    ensures y == 0
  {
  }

  lemma {:induction false} HalfClear(y: bv32, m: bv32)
    requires Clear(y, m)
    ensures Clear(Half(y), HalfTop(m))
  {
  }

  lemma {:induction false} ShrClear(y: bv32, k: nat, n: nat)
    requires Clear(y, Top(k))
    ensures Clear(Shr(y, n), Top(k + n))
    decreases n
  {
    if n > 0 {
      HalfClear(y, Top(k));
      ShrClear(Half(y), k + 1, n - 1);
    }
  }

  lemma {:induction false} CrcBytesInjective(a: bv32, b: bv32)
    requires CrcBytes(a, 4) == CrcBytes(b, 4)
    ensures a == b
  {
    CrcBytesShift(a, b, 4);
    CrcBytesShift(Shr(a, 8), Shr(b, 8), 3);
    CrcBytesShift(Shr(Shr(a, 8), 8), Shr(Shr(b, 8), 8), 2);
    CrcBytesShift(Shr(Shr(Shr(a, 8), 8), 8), Shr(Shr(Shr(b, 8), 8), 8), 1);
    ShrGone(a);
    ShrGone(b);
    LowInjective(Shr(Shr(Shr(a, 8), 8), 8), Shr(Shr(Shr(b, 8), 8), 8), 8);
    LowInjective(Shr(Shr(a, 8), 8), Shr(Shr(b, 8), 8), 8);
    LowInjective(Shr(a, 8), Shr(b, 8), 8);
    LowInjective(a, b, 8);
  }

  lemma {:induction false} CrcBytesShift(a: bv32, b: bv32, n: nat)
    requires n > 0 && CrcBytes(a, n) == CrcBytes(b, n)
    ensures Low(a, 8) == Low(b, 8) && CrcBytes(Shr(a, 8), n - 1) == CrcBytes(Shr(b, 8), n - 1)
  {
    assert CrcBytes(a, n)[0] == CrcBytes(b, n)[0];
    assert CrcBytes(a, n)[1..] == CrcBytes(b, n)[1..];
  }

  lemma {:induction false} NotInjective(a: bv32, b: bv32)
    requires Not(a) == Not(b)
    ensures a == b
  {
  }

  lemma {:induction false} RegisterBurst(c: bv32, pre: Bytes, u: Bytes, v: Bytes, post: Bytes)
    requires |u| == |v| <= 4
    requires Register(c, pre + u + post) == Register(c, pre + v + post)
    ensures u == v
  {
    RegisterSplit(c, pre, u, post);
    RegisterSplit(c, pre, v, post);
    var d := Register(c, pre);
    RegisterInjective(Register(d, u), Register(d, v), post);
    WindowInjective(d, u, v);
  }

  lemma {:induction false} WindowInjective(d: bv32, u: Bytes, v: Bytes)
    requires |u| == |v| <= 4 && Register(d, u) == Register(d, v)
    ensures u == v
  {
    RegisterWord(d, u);
    RegisterWord(d, v);
    RoundsInjective(Xor(d, Word(u)), Xor(d, Word(v)), 8 * |u|);
    XorCancelLeft(d, Word(u), Word(v));
    WordInjective(u, v);
  }

  /** Damage confined to four consecutive bytes never goes unnoticed. */
  lemma {:induction false} BurstDetected(pre: Bytes, u: Bytes, v: Bytes, post: Bytes)
    requires |u| == |v| <= 4 && u != v
    ensures Checksum(pre + u + post) != Checksum(pre + v + post)
  {
    if Checksum(pre + u + post) == Checksum(pre + v + post) {
      CrcBytesInjective(Crc32(pre + u + post), Crc32(pre + v + post));
      NotInjective(Register(START, pre + u + post), Register(START, pre + v + post));
      RegisterBurst(START, pre, u, v, post);
    }
  }

  lemma {:induction false} RegisterSplit(c: bv32, pre: Bytes, u: Bytes, post: Bytes)
    ensures Register(c, pre + u + post) == Register(Register(Register(c, pre), u), post)
  {
    RegisterConcat(c, pre + u, post);
    RegisterConcat(c, pre, u);
  }
}
