/** What the CRC is: the remainder of a polynomial division over GF(2). */
module CrcMeaning {
  import opened ByteStrings
  import opened Crc
  import opened CrcProofs

  /** A polynomial over GF(2) is the set of its exponents. */
  type Poly = set<nat>

  /** x^32 + x^26 + x^23 + x^22 + x^16 + x^12 + x^11 + x^10 + x^8 + x^7 + x^5 + x^4 + x^2 + x + 1. */
  const GENERATOR: Poly := {32, 26, 23, 22, 16, 12, 11, 10, 8, 7, 5, 4, 2, 1, 0}

  function Sum(a: Poly, b: Poly): Poly {
    (a - b) + (b - a)
  }

  /** Times x. */
  function Shifted(a: Poly): Poly {
    set i | i in a :: i + 1
  }

  /** The ways to write `e` as an exponent of `q` and one of `g`. */
  function Ways(q: Poly, g: Poly, e: nat): Poly {
    set i | i in q && i <= e && e - i in g
  }

  /** Coefficients are counted modulo two. */
  function Product(q: Poly, g: Poly): Poly {
    set i, j | i in q && j in g && |Ways(q, g, i + j)| % 2 == 1 :: i + j
  }

  // ----- the message and the stored checksum, by their bits -----

  function Power2(k: nat): (r: nat)
    ensures r > 0
  {
    if k == 0 then 1 else 2 * Power2(k - 1)
  }

  predicate ByteBit(b: nat, k: nat) {
    b / Power2(k) % 2 == 1
  }

  /** Bits go out byte by byte, the least significant first. */
  predicate BitAt(data: Bytes, k: nat)
    requires k < 8 * |data|
  {
    ByteBit(data[k / 8], k % 8)
  }

  /** The first bit has the highest exponent, and the last is followed by 32 zeros. */
  predicate HasBit(data: Bytes, e: nat) {
    32 <= e < 8 * |data| + 32 && BitAt(data, 8 * |data| + 31 - e)
  }

  function BitsPoly(data: Bytes): Poly {
    set e: nat | e < 8 * |data| + 32 && HasBit(data, e)
  }

  /** The first 32 bits are inverted. */
  predicate Inverted(n: nat, e: nat) {
    8 * n <= e < 8 * n + 32
  }

  function Leading(n: nat): Poly {
    set e: nat | e < 8 * n + 32 && Inverted(n, e)
  }

  function Message(data: Bytes): Poly {
    Sum(Leading(|data|), BitsPoly(data))
  }

  /** The remainder is stored inverted, its highest exponent in the lowest bit of the first byte. */
  function Remainder(stored: Bytes): Poly
    requires |stored| == 4
  {
    set e: nat | e < 32 && Remains(stored, e)
  }

  predicate Remains(stored: Bytes, e: nat)
    requires |stored| == 4
  {
    e < 32 && !BitAt(stored, 31 - e)
  }

  // ----- counting modulo two -----

  lemma {:induction false} InShifted(a: Poly, e: nat)
    ensures e in Shifted(a) <==> e > 0 && e - 1 in a
  {
    if e > 0 && e - 1 in a {
      assert e == (e - 1) + 1;
    }
  }

  lemma {:induction false} ShiftedSize(a: Poly)
    ensures |Shifted(a)| == |a|
    decreases |a|
  {
    if a == {} {
      assert Shifted(a) == {};
    } else {
      var i :| i in a;
      ShiftedSize(a - {i});
      ShiftedOne(a, i);
    }
  }

  lemma {:induction false} ShiftedOne(a: Poly, i: nat)
    requires i in a
    ensures i + 1 !in Shifted(a - {i}) && Shifted(a) == Shifted(a - {i}) + {i + 1}
  {
    hide Shifted;
    forall e: nat
      ensures e in Shifted(a) <==> e in Shifted(a - {i}) || e == i + 1
    {
      InShifted(a, e);
      InShifted(a - {i}, e);
    }
    InShifted(a - {i}, i + 1);
  }

  lemma {:induction false} InProduct(q: Poly, g: Poly, e: nat)
    ensures e in Product(q, g) <==> |Ways(q, g, e)| % 2 == 1
  {
    hide Ways;
    if |Ways(q, g, e)| % 2 == 1 {
      var i := WayThere(q, g, e);
      assert e == i + (e - i);
    }
  }

  lemma {:induction false} WayThere(q: Poly, g: Poly, e: nat) returns (i: nat)
    requires |Ways(q, g, e)| % 2 == 1
    ensures i in q && i <= e && e - i in g
  {
    i :| i in Ways(q, g, e);
  }

  lemma {:induction false} InWays(q: Poly, g: Poly, e: nat, i: nat)
    ensures i in Ways(q, g, e) <==> i in q && i <= e && e - i in g
  {
  }

  lemma {:induction false} WaysShifted(q: Poly, g: Poly, e: nat)
    ensures Ways(Shifted(q), g, e) == if e == 0 then {} else Shifted(Ways(q, g, e - 1))
  {
    hide Shifted, Ways;
    forall i: nat
      ensures i in Ways(Shifted(q), g, e) <==> e > 0 && i in Shifted(Ways(q, g, e - 1))
    {
      InWays(Shifted(q), g, e, i);
      InShifted(q, i);
      if e > 0 {
        InShifted(Ways(q, g, e - 1), i);
        if i > 0 {
          InWays(q, g, e - 1, i - 1);
        }
      }
    }
  }

  lemma {:induction false} ProductShifted(q: Poly, g: Poly)
    ensures Product(Shifted(q), g) == Shifted(Product(q, g))
  {
    hide Shifted, Ways, Product;
    forall e: nat
      ensures e in Product(Shifted(q), g) <==> e in Shifted(Product(q, g))
    {
      InProduct(Shifted(q), g, e);
      WaysShifted(q, g, e);
      InShifted(Product(q, g), e);
      if e > 0 {
        InProduct(q, g, e - 1);
        ShiftedSize(Ways(q, g, e - 1));
      }
    }
  }

  lemma {:induction false} WaysPlusOne(q: Poly, g: Poly, e: nat)
    requires 0 !in q
    ensures 0 !in Ways(q, g, e) && Ways(q + {0}, g, e) == Ways(q, g, e) + if e in g then {0} else {}
  {
    hide Ways;
    InWays(q, g, e, 0);
    forall i: nat
      ensures i in Ways(q + {0}, g, e) <==> i in Ways(q, g, e) || (i == 0 && e in g)
    {
      InWays(q + {0}, g, e, i);
      InWays(q, g, e, i);
    }
  }

  lemma {:induction false} ProductPlusOne(q: Poly, g: Poly)
    requires 0 !in q
    ensures Product(q + {0}, g) == Sum(Product(q, g), g)
  {
    hide Ways, Product;
    forall e: nat
      ensures e in Product(q + {0}, g) <==> e in Sum(Product(q, g), g)
    {
      InProduct(q + {0}, g, e);
      InProduct(q, g, e);
      WaysPlusOne(q, g, e);
    }
  }

  lemma {:induction false} SumSize(a: Poly, b: Poly)
    ensures |Sum(a, b)| % 2 == (|a| + |b|) % 2
  {
    assert a == (a - b) + (a * b) && b == (b - a) + (a * b);
    assert |a| == |a - b| + |a * b| && |b| == |b - a| + |a * b|;
    assert |Sum(a, b)| == |a - b| + |b - a|;
  }

  lemma {:induction false} WaysSum(p: Poly, q: Poly, g: Poly, e: nat)
    ensures Ways(Sum(p, q), g, e) == Sum(Ways(p, g, e), Ways(q, g, e))
  {
    hide Ways;
    forall i: nat
      ensures i in Ways(Sum(p, q), g, e) <==> i in Sum(Ways(p, g, e), Ways(q, g, e))
    {
      InWays(Sum(p, q), g, e, i);
      InWays(p, g, e, i);
      InWays(q, g, e, i);
    }
  }

  lemma {:induction false} ProductSum(p: Poly, q: Poly, g: Poly)
    ensures Product(Sum(p, q), g) == Sum(Product(p, g), Product(q, g))
  {
    hide Ways, Product;
    forall e: nat
      ensures e in Product(Sum(p, q), g) <==> e in Sum(Product(p, g), Product(q, g))
    {
      InProduct(Sum(p, q), g, e);
      InProduct(p, g, e);
      InProduct(q, g, e);
      WaysSum(p, q, g, e);
      SumSize(Ways(p, g, e), Ways(q, g, e));
      hide Sum;
    }
  }

  // ----- a remainder is unique -----

  lemma {:induction false} Largest(a: Poly) returns (m: nat)
    requires a != {}
    ensures m in a && forall i | i in a :: i <= m
    decreases |a|
  {
    m :| m in a;
    var rest := a - {m};
    if rest != {} {
      var k := Largest(rest);
      assert forall i | i in a :: i == m || i in rest;
      if m < k {
        m := k;
      }
    }
  }

  /** A multiple of the generator has an exponent of 32 or more, unless it is zero. */
  lemma {:induction false} MultipleIsHigh(q: Poly) returns (e: nat)
    requires q != {}
    ensures e >= 32 && e in Product(q, GENERATOR)
  {
    hide Ways, Product;
    var m := Largest(q);
    e := m + 32;
    InProduct(q, GENERATOR, e);
    OnlyLargest(q, m);
  }

  lemma {:induction false} GeneratorLow(j: nat)
    requires j in GENERATOR
    ensures j <= 32
  {
  }

  lemma {:induction false} OnlyLargest(q: Poly, m: nat)
    requires m in q && forall i | i in q :: i <= m
    ensures Ways(q, GENERATOR, m + 32) == {m}
  {
    hide Ways, GENERATOR;
    var e := m + 32;
    Monic();
    InWays(q, GENERATOR, e, m);
    forall i | i in Ways(q, GENERATOR, e)
      ensures i == m
    {
      InWays(q, GENERATOR, e, i);
      GeneratorLow(e - i);
    }
  }

  lemma {:induction false} Monic()
    ensures 32 in GENERATOR
  {
  }

  lemma {:induction false} RemainderUnique(p: Poly, r: Poly, q: Poly, s: Poly)
    requires Sum(Product(p, GENERATOR), r) == Sum(Product(q, GENERATOR), s)
    requires forall e | e in r + s :: e < 32
    ensures r == s
  {
    hide Product, GENERATOR;
    var d := Sum(p, q);
    ProductSum(p, q, GENERATOR);
    SumsDiffer(Product(p, GENERATOR), r, Product(q, GENERATOR), s);
    assert forall e | e in Sum(r, s) :: e in r + s;
    LowIsZero(d);
    EmptyProduct();
    SumZero(r, s);
  }

  lemma {:induction false} LowIsZero(d: Poly)
    requires forall e | e in Product(d, GENERATOR) :: e < 32
    ensures d == {}
  {
    hide Product, GENERATOR;
    if d != {} {
      var e := MultipleIsHigh(d);
    }
  }

  lemma {:induction false} SumZero(r: Poly, s: Poly)
    requires Sum(r, s) == {}
    ensures r == s
  {
    forall e: nat
      ensures e in r <==> e in s
    {
      assert e !in Sum(r, s);
    }
  }

  lemma {:induction false} SumsDiffer(a: Poly, r: Poly, b: Poly, s: Poly)
    requires Sum(a, r) == Sum(b, s)
    ensures Sum(a, b) == Sum(r, s)
  {
    forall e: nat
      ensures e in Sum(a, b) <==> e in Sum(r, s)
    {
      assert e in Sum(a, r) <==> e in Sum(b, s);
    }
  }

  // ----- the register as a polynomial -----

  predicate Bit(c: bv32, i: nat) {
    Odd(Shr(c, i))
  }

  /** The register holds the highest exponent in its lowest bit. */
  function PolyOf(c: bv32): Poly {
    set e: nat | e < 32 && Coefficient(c, e)
  }

  predicate Coefficient(c: bv32, e: nat) {
    e < 32 && Bit(c, 31 - e)
  }

  lemma {:induction false} XorHalves(a: bv32, b: bv32)
    ensures Half(Xor(a, b)) == Xor(Half(a), Half(b)) && (Odd(Xor(a, b)) <==> Odd(a) != Odd(b))
  {
  }

  lemma {:induction false} XorBit(a: bv32, b: bv32, i: nat)
    ensures Bit(Xor(a, b), i) <==> Bit(a, i) != Bit(b, i)
    decreases i
  {
    hide Half, Xor, Odd;
    XorHalves(a, b);
    if i > 0 {
      XorBit(Half(a), Half(b), i - 1);
    }
  }

  lemma {:induction false} BitGone(c: bv32, i: nat)
    requires i >= 32
    ensures !Bit(c, i)
  {
    ClearNothing(c);
    ShrClear(c, 0, i);
    Top32();
    TopChain(32, i);
    ClearWeaker(Shr(c, i), 0xFFFF_FFFF, Top(i));
    AllClear(Shr(c, i));
  }

  lemma {:induction false} XorPoly(a: bv32, b: bv32)
    ensures PolyOf(Xor(a, b)) == Sum(PolyOf(a), PolyOf(b))
  {
    hide Bit, Xor;
    forall e: nat
      ensures e in PolyOf(Xor(a, b)) <==> e in Sum(PolyOf(a), PolyOf(b))
    {
      if e < 32 {
        XorBit(a, b, 31 - e);
      }
    }
  }

  lemma {:induction false} ShrMore(c: bv32, m: nat, n: nat)
    ensures Shr(Shr(c, m), n) == Shr(c, m + n)
    decreases m
  {
    if m > 0 {
      ShrMore(Half(c), m - 1, n);
    }
  }

  lemma {:induction false} FourBits(c: bv32, at: nat, n: bv32, next: bv32)
    requires Shr(c, at) == n && n >> 4 == next
    ensures Shr(c, at + 4) == next
    ensures Bit(c, at) == (n & 1 == 1) && Bit(c, at + 1) == (n & 2 == 2)
    ensures Bit(c, at + 2) == (n & 4 == 4) && Bit(c, at + 3) == (n & 8 == 8)
  {
    hide Odd, Half;
    ShrMore(c, at, 1);
    ShrMore(c, at, 2);
    ShrMore(c, at, 3);
    ShrMore(c, at, 4);
    FourHalves(n);
    Mask1(n);
    Mask2(n);
    Mask4(n);
    Mask8(n);
  }

  lemma {:induction false} FourHalves(n: bv32)
    ensures Shr(n, 1) == Half(n) && Shr(n, 2) == Half(Half(n)) && Shr(n, 3) == Half(Half(Half(n)))
    ensures Shr(n, 4) == Half(Half(Half(Half(n))))
  {
    hide Half;
    assert Shr(Half(n), 1) == Half(Half(n));
    assert Shr(Half(Half(n)), 1) == Half(Half(Half(n)));
    assert Shr(Half(Half(Half(n))), 1) == Half(Half(Half(Half(n))));
    assert Shr(Half(n), 2) == Shr(Half(Half(n)), 1) && Shr(Half(Half(n)), 2) == Shr(Half(Half(Half(n))), 1);
    assert Shr(Half(n), 3) == Shr(Half(Half(n)), 2);
  }

  lemma {:induction false} Mask1(n: bv32)
    ensures Odd(n) <==> n & 1 == 1
  {
  }

  lemma {:induction false} Mask2(n: bv32)
    ensures Odd(Half(n)) <==> n & 2 == 2
  {
  }

  lemma {:induction false} Mask4(n: bv32)
    ensures Odd(Half(Half(n))) <==> n & 4 == 4
  {
  }

  lemma {:induction false} Mask8(n: bv32)
    ensures Odd(Half(Half(Half(n)))) <==> n & 8 == 8
    ensures Half(Half(Half(Half(n)))) == n >> 4
  {
  }

  /** The constant of the code is the generator without its highest exponent, reflected. */
  lemma {:induction false} PolyIsGenerator()
    ensures PolyOf(POLY) == GENERATOR - {32}
  {
    hide Bit;
    FourBits(POLY, 0, 0xEDB88320, 0xEDB8832);
    FourBits(POLY, 4, 0xEDB8832, 0xEDB883);
    FourBits(POLY, 8, 0xEDB883, 0xEDB88);
    FourBits(POLY, 12, 0xEDB88, 0xEDB8);
    FourBits(POLY, 16, 0xEDB8, 0xEDB);
    FourBits(POLY, 20, 0xEDB, 0xED);
    FourBits(POLY, 24, 0xED, 0xE);
    FourBits(POLY, 28, 0xE, 0);
  }

  lemma {:induction false} NotHalf(m: bv32)
    ensures Half(Not(m)) == Not(HalfTop(m)) && (Odd(Not(m)) <==> !Odd(m))
  {
  }

  lemma {:induction false} OnesBit(k: nat, i: nat)
    requires k + i < 32
    ensures Bit(Not(Top(k)), i)
    decreases i
  {
    NotHalf(Top(k));
    TopEven(k);
    if i > 0 {
      OnesBit(k + 1, i - 1);
    }
  }

  lemma {:induction false} StartPoly()
    ensures PolyOf(START) == Leading(0)
  {
    hide Bit;
    assert START == Not(Top(0));
    forall e: nat | e < 32
      ensures Coefficient(START, e)
    {
      OnesBit(0, 31 - e);
    }
  }

  /** A round multiplies by x and takes off the generator where x^32 comes up. */
  lemma {:induction false} RoundPoly(c: bv32)
    ensures PolyOf(Round(c)) == Sum(Shifted(PolyOf(c)), if Odd(c) then GENERATOR else {})
  {
    hide Bit, Xor, Half, POLY;
    PolyIsGenerator();
    HalfPoly(c);
    XorPoly(Half(c), if Odd(c) then POLY else 0);
    ZeroPoly();
  }

  lemma {:induction false} ZeroPoly()
    ensures PolyOf(0) == {}
  {
    forall e: nat | e < 32
      ensures !Coefficient(0, e)
    {
      ZeroBit(31 - e);
    }
  }

  lemma {:induction false} ZeroBit(i: nat)
    ensures !Bit(0, i)
  {
    if i > 0 {
      ZeroBit(i - 1);
      assert Half(0) == 0;
    }
  }

  lemma {:induction false} HalfPoly(c: bv32)
    ensures Shifted(PolyOf(c)) == PolyOf(Half(c)) + if Odd(c) then {32} else {}
  {
    forall e: nat
      ensures e in Shifted(PolyOf(c)) <==> e in PolyOf(Half(c)) || (e == 32 && Odd(c))
    {
      assert e in Shifted(PolyOf(c)) <==> e > 0 && e - 1 in PolyOf(c);
      if 0 < e < 32 {
        assert Bit(Half(c), 31 - e) == Bit(c, 32 - e);
      } else if e == 0 {
        BitGone(c, 32);
        assert Bit(Half(c), 31) == Bit(c, 32);
      } else if e == 32 {
        assert Bit(c, 0) == Odd(c);
      }
    }
  }

  /** A dividend, its quotient so far, and the register as what remains. */
  ghost predicate Divides(m: Poly, q: Poly, c: bv32) {
    Sum(Product(q, GENERATOR), PolyOf(c)) == m
  }

  lemma {:induction false} RoundDivides(m: Poly, q: Poly, c: bv32) returns (q': Poly)
    requires Divides(m, q, c)
    ensures Divides(Shifted(m), q', Round(c))
  {
    hide Product, PolyOf, Round;
    ProductShifted(q, GENERATOR);
    RoundPoly(c);
    q' := Shifted(q);
    if Odd(c) {
      ProductPlusOne(q', GENERATOR);
      q' := q' + {0};
    }
    SumShifted(Product(q, GENERATOR), PolyOf(c), if Odd(c) then GENERATOR else {});
  }

  lemma {:induction false} SumShifted(a: Poly, b: Poly, g: Poly)
    ensures Sum(Sum(Shifted(a), g), Sum(Shifted(b), g)) == Shifted(Sum(a, b))
  {
    forall e: nat
      ensures e in Sum(Sum(Shifted(a), g), Sum(Shifted(b), g)) <==> e in Shifted(Sum(a, b))
    {
      assert e in Shifted(Sum(a, b)) <==> e > 0 && e - 1 in Sum(a, b);
      assert e in Shifted(a) <==> e > 0 && e - 1 in a;
      assert e in Shifted(b) <==> e > 0 && e - 1 in b;
    }
  }

  function ShiftedBy(m: Poly, n: nat): Poly
    decreases n
  {
    if n == 0 then m else ShiftedBy(Shifted(m), n - 1)
  }

  lemma {:induction false} RoundsDivide(m: Poly, q: Poly, c: bv32, n: nat) returns (q': Poly)
    requires Divides(m, q, c)
    ensures Divides(ShiftedBy(m, n), q', Rounds(c, n))
    decreases n
  {
    hide Divides, Round;
    q' := q;
    if n > 0 {
      q' := RoundDivides(m, q, c);
      q' := RoundsDivide(Shifted(m), q', Round(c), n - 1);
    }
  }

  lemma {:induction false} ShiftedByIs(m: Poly, n: nat, e: nat)
    ensures e in ShiftedBy(m, n) <==> e >= n && e - n in m
    decreases n
  {
    hide Shifted;
    if n > 0 {
      ShiftedByIs(Shifted(m), n - 1, e);
      if e >= n - 1 {
        InShifted(m, e - (n - 1));
      }
    }
  }

  // ----- one more byte -----

  lemma {:induction false} PushParts(y: bv32, bit: bool)
    requires CrcProofs.Room(y)
    ensures Half(PushBit(y, bit)) == y && (Odd(PushBit(y, bit)) <==> bit)
  {
  }

  lemma {:induction false} HalfBit(n: nat, i: nat)
    ensures ByteBit(n, i + 1) <==> ByteBit(n / 2, i)
  {
    DivideTwice(n, Power2(i));
  }

  lemma {:induction false} DivideTwice(n: nat, k: nat)
    requires k > 0
    ensures n / (2 * k) == n / 2 / k
  {
    var q := n / 2 / k;
    var r := n / 2 % k;
    assert n / 2 == q * k + r;
    Quotient(n, 2 * k, q, 2 * r + n % 2);
  }

  lemma {:induction false} WidenBit(n: nat, w: nat, i: nat)
    requires w <= 32
    ensures Bit(Widen(n, w), i) <==> i < w && ByteBit(n, i)
    decreases w
  {
    hide PushBit, Half, Odd;
    if w == 0 {
      ZeroBit(i);
    } else {
      WidenClear(n / 2, w - 1);
      ClearShift(Widen(n / 2, w - 1), Top(32 - w));
      PushParts(Widen(n / 2, w - 1), n % 2 == 1);
      if i == 0 {
        assert Power2(0) == 1;
      } else {
        HalfBit(n, i - 1);
        WidenBit(n / 2, w - 1, i - 1);
      }
    }
  }

  /** What one byte adds, as it is folded into the top of the register. */
  function BytePoly(b: byte): Poly {
    set e: nat | e < 32 && InByte(b, e)
  }

  predicate InByte(b: byte, e: nat) {
    24 <= e < 32 && ByteBit(b, 31 - e)
  }

  lemma {:induction false} WidenPoly(b: byte)
    ensures PolyOf(Widen(b, 8)) == BytePoly(b)
  {
    hide Bit, Widen, ByteBit;
    forall e: nat | e < 32
      ensures Coefficient(Widen(b, 8), e) <==> InByte(b, e)
    {
      WidenBit(b, 8, 31 - e);
    }
  }

  lemma {:induction false} FoldDivides(m: Poly, q: Poly, c: bv32, b: byte)
    requires Divides(m, q, c)
    ensures Divides(Sum(m, BytePoly(b)), q, Xor(c, Widen(b, 8)))
  {
    hide Product, PolyOf, BytePoly, Xor, Widen;
    XorPoly(c, Widen(b, 8));
    WidenPoly(b);
    SumAssoc(Product(q, GENERATOR), PolyOf(c), BytePoly(b));
  }

  lemma {:induction false} SumAssoc(a: Poly, b: Poly, c: Poly)
    ensures Sum(Sum(a, b), c) == Sum(a, Sum(b, c))
  {
  }

  lemma {:induction false} MessageSnoc(data: Bytes, b: byte, e: nat)
    ensures e in Message(data + [b]) <==> e in ShiftedBy(Sum(Message(data), BytePoly(b)), 8)
  {
    hide ByteBit;
    ShiftedByIs(Sum(Message(data), BytePoly(b)), 8, e);
    var n := |data|;
    BitSnoc(data, b, e);
    assert e in Leading(n + 1) <==> e >= 8 && e - 8 in Leading(n);
  }

  lemma {:induction false} BitSnoc(data: Bytes, b: byte, e: nat)
    ensures e in BitsPoly(data + [b]) <==> e >= 8 && (e - 8 in BitsPoly(data)) != (e - 8 in BytePoly(b))
  {
    hide ByteBit;
    var n := |data|;
    if 32 <= e < 40 {
      var k := 8 * (n + 1) + 31 - e;
      assert k / 8 == n && k % 8 == 39 - e;
    } else if 40 <= e < 8 * n + 40 {
      var k := 8 * (n + 1) + 31 - e;
      assert k == 8 * n + 31 - (e - 8);
      assert k / 8 < n;
    }
  }

  lemma {:induction false} RegisterDivides(data: Bytes) returns (q: Poly)
    ensures Divides(Message(data), q, Register(START, data))
    decreases |data|
  {
    hide Product, PolyOf, Message, Rounds, Xor, Widen, BytePoly;
    if data == [] {
      q := {};
      StartPoly();
      EmptyMessage();
      EmptyProduct();
    } else {
      var init, b := data[..|data| - 1], data[|data| - 1];
      q := RegisterDivides(init);
      var c := Register(START, init);
      FoldDivides(Message(init), q, c, b);
      q := RoundsDivide(Sum(Message(init), BytePoly(b)), q, Xor(c, Widen(b, 8)), 8);
      assert init + [b] == data;
      RegisterSnoc(START, init, b);
      forall e: nat
        ensures e in Message(data) <==> e in ShiftedBy(Sum(Message(init), BytePoly(b)), 8)
      {
        MessageSnoc(init, b, e);
      }
      assert Message(data) == ShiftedBy(Sum(Message(init), BytePoly(b)), 8);
    }
  }

  lemma {:induction false} EmptyMessage()
    ensures Message([]) == Leading(0)
  {
  }

  lemma {:induction false} EmptyProduct()
    ensures Product({}, GENERATOR) == {}
  {
  }

  // ----- the stored bytes -----

  lemma {:induction false} LowBit(c: bv32, w: nat, k: nat)
    requires k < w
    ensures ByteBit(Low(c, w), k) <==> Bit(c, k)
    decreases w
  {
    hide Half, Odd;
    if k == 0 {
      assert Power2(0) == 1;
    } else {
      HalfBit(Low(c, w), k - 1);
      assert Low(c, w) / 2 == Low(Half(c), w - 1);
      LowBit(Half(c), w - 1, k - 1);
    }
  }

  lemma {:induction false} StoredBit(c: bv32, n: nat, k: nat)
    requires k < 8 * n
    ensures BitAt(CrcBytes(c, n), k) <==> Bit(c, k)
    decreases n
  {
    hide Low, ByteBit, Shr;
    if k < 8 {
      LowBit(c, 8, k);
    } else {
      StoredBit(Shr(c, 8), n - 1, k - 8);
      ShrMore(c, 8, k - 8);
      assert CrcBytes(c, n)[1..] == CrcBytes(Shr(c, 8), n - 1);
      assert k / 8 == (k - 8) / 8 + 1 && k % 8 == (k - 8) % 8;
    }
  }

  lemma {:induction false} NotIsXor(c: bv32)
    ensures Not(c) == Xor(c, START)
  {
  }

  lemma {:induction false} ChecksumRemainder(data: Bytes)
    ensures Remainder(Checksum(data)) == PolyOf(Register(START, data))
  {
    hide Bit, BitAt, Register, Xor, Not;
    var c := Register(START, data);
    NotIsXor(c);
    forall e: nat | e < 32
      ensures Remains(Checksum(data), e) <==> Coefficient(c, e)
    {
      StoredBit(Not(c), 4, 31 - e);
      XorBit(c, START, 31 - e);
      StartPoly();
      assert e in Leading(0);
    }
  }

  lemma {:induction false} BitsDetermine(a: nat, b: nat, w: nat)
    requires a < Power2(w) && b < Power2(w) && forall k: nat | k < w :: ByteBit(a, k) == ByteBit(b, k)
    ensures a == b
    decreases w
  {
    if w > 0 {
      assert ByteBit(a, 0) == ByteBit(b, 0) && Power2(0) == 1;
      forall k: nat | k < w - 1
        ensures ByteBit(a / 2, k) == ByteBit(b / 2, k)
      {
        HalfBit(a, k);
        HalfBit(b, k);
        assert ByteBit(a, k + 1) == ByteBit(b, k + 1);
      }
      BitsDetermine(a / 2, b / 2, w - 1);
    }
  }

  lemma {:induction false} RemainderDetermines(s: Bytes, t: Bytes)
    requires |s| == 4 && |t| == 4 && Remainder(s) == Remainder(t)
    ensures s == t
  {
    hide ByteBit;
    assert Power2(8) == 256;
    forall j | 0 <= j < 4
      ensures s[j] == t[j]
    {
      forall k: nat | k < 8
        ensures ByteBit(s[j], k) == ByteBit(t[j], k)
      {
        var e: nat := 31 - (8 * j + k);
        assert (8 * j + k) / 8 == j && (8 * j + k) % 8 == k;
        assert e in Remainder(s) <==> e in Remainder(t);
      }
      BitsDetermine(s[j], t[j], 8);
    }
  }

  /**
   * The checksum of any bytes is the one for which the message, as a polynomial, is a
   * multiple of the generator and the remainder stored.
   */
  lemma {:induction false} ChecksumIff(data: Bytes, stored: Bytes)
    requires |stored| == 4
    ensures stored == Checksum(data) <==> exists q: Poly :: Sum(Product(q, GENERATOR), Remainder(stored)) == Message(data)
  {
    hide Product, Remainder, Message, Checksum, Register, PolyOf;
    var p := RegisterDivides(data);
    ChecksumRemainder(data);
    if exists q: Poly :: Sum(Product(q, GENERATOR), Remainder(stored)) == Message(data) {
      var q: Poly :| Sum(Product(q, GENERATOR), Remainder(stored)) == Message(data);
      RemainderLow(stored);
      RemainderLow(Checksum(data));
      RemainderUnique(p, Remainder(Checksum(data)), q, Remainder(stored));
      RemainderDetermines(stored, Checksum(data));
    } else {
      assert Sum(Product(p, GENERATOR), Remainder(Checksum(data))) == Message(data);
    }
  }

  lemma {:induction false} RemainderLow(stored: Bytes)
    requires |stored| == 4
    ensures forall e | e in Remainder(stored) :: e < 32
  {
  }
}
