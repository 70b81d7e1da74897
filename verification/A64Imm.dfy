/** Logical immediates of A64: the encoder of DynASM against the decoder of the architecture
    (DecodeBitMasks, section J1.1 of the Arm Architecture Reference Manual, DDI 0487). */
module A64Imm {
  datatype Option<T> = None | Some(value: T)

  /** The C value -1. */
  const FAIL: bv32 := 0xffff_ffff

  /** A word with bit `k` set, or no bit at all if there is no bit `k`. */
  function One(k: bv64): bv64 { if k < 64 then 1 << k else 0 }

  predicate Narrow(w: bv64) { w == 2 || w == 4 || w == 8 || w == 16 || w == 32 }

  predicate Width(w: bv64) { Narrow(w) || w == 64 }

  /** Multiplying by this repeats an element of `w` bits. */
  function Copies(w: bv64): bv64 {
    if w == 64 then 1
    else if w == 32 then 0x0000_0001_0000_0001
    else if w == 16 then 0x0001_0001_0001_0001
    else if w == 8 then 0x0101_0101_0101_0101
    else if w == 4 then 0x1111_1111_1111_1111
    else 0x5555_5555_5555_5555
  }

  // ----- The architecture's decoder -----

  /** The size of the element; 0 stands for an undefined encoding. */
  function ElementSize(v: bv32): bv64 {
    if v & 0x1000 != 0 then 64
    else if v & 0x20 == 0 then 32
    else if v & 0x10 == 0 then 16
    else if v & 0x08 == 0 then 8
    else if v & 0x04 == 0 then 4
    else if v & 0x02 == 0 then 2
    else 0
  }

  /** The ones of the element, less one, and the distance they are rotated. */
  function FieldS(v: bv32, e: bv64): bv64 { (v & 0x3f) as bv64 & (e - 1) }

  function FieldR(v: bv32, e: bv64): bv64 { ((v >> 6) & 0x3f) as bv64 & (e - 1) }

  /** The low `k` bits. */
  function Low(k: bv64): bv64 { One(k) - 1 }

  function Turn(x: bv64, r: bv64, l: bv64, e: bv64): bv64 {
    if r <= 64 && l <= 64 then ((x >> r) | (x << l)) & Low(e) else 0
  }

  /** An element of `e` bits rotated right by `r`. */
  function RotateRight(x: bv64, r: bv64, e: bv64): bv64 { if r == 0 then x else Turn(x, r, e - r, e) }

  function Element(s: bv64, r: bv64, e: bv64): bv64 { RotateRight(Low(s + 1), r, e) }

  /** All ones in the element is no encoding. */
  predicate Reserved(s: bv64, e: bv64) { s == e - 1 }

  /** What the 13 bits N, immr, imms stand for. */
  function Decode(v: bv32): Option<bv64> {
    var e := ElementSize(v);
    if e == 0 || v >= 0x2000 || Reserved(FieldS(v, e), e) then None
    else Some(Repeat(Element(FieldS(v, e), FieldR(v, e), e), Copies(e)))
  }

  ghost predicate Encodable(n: bv64) { exists v: bv32 :: Decode(v) == Some(n) }

  // ----- The encoder -----

  /** The lowest bit that is set. */
  function Lowest(x: bv64): bv64 { x & -x }

  /** The number of shifts that empty `x`, counted from `n`. */
  function Shifts(x: bv64, n: bv64): bv64
    decreases x
  {
    if x == 0 then n else Shifts(x >> 1, n + 1)
  }

  /** The position of the highest bit that is set; -1 for no bit. */
  function Top(x: bv64): bv64 { Shifts(x, -1) }

  /** The bits where the lowest run of ones starts, where it has ended, and where the next one starts. */
  function Start(x: bv64): bv64 { Lowest(x) }

  function StopAfter(x: bv64, a: bv64): bv64 { Lowest(x + a) }

  function NextAfter(x: bv64, a: bv64, b: bv64): bv64 { Lowest(x + a - b) }

  function Stop(x: bv64): bv64 { StopAfter(x, Start(x)) }

  function Again(x: bv64): bv64 { NextAfter(x, Start(x), Stop(x)) }

  /** The distance between two runs: 64 if there is one run only. */
  function Period(x: bv64): bv64 { if Again(x) == 0 then 64 else Less(Top(Again(x)), Top(Start(x))) }

  function StopPosition(x: bv64): bv64 { if Again(x) == 0 && Top(Stop(x)) == -1 then 64 else Top(Stop(x)) }

  /** Even words are encoded as they are, odd ones through their complement. */
  function Even(n: bv64): bv64 { if n & 1 == 1 then !n else n }

  function Less(a: bv64, b: bv64): bv64 { a - b }

  function Repeat(y: bv64, m: bv64): bv64 { y * m }

  /** The test the encoder makes. */
  predicate Accepted(x: bv64) {
    && Start(x) != 0 && (Again(x) != 0 ==> Narrow(Period(x)))
    && Repeat(Less(Stop(x), Start(x)), Copies(Period(x))) == x
  }

  /** The lowest run ends within its period. */
  predicate InPeriod(x: bv64) { StopPosition(x) <= Period(x) }

  /** The imms bits that say how wide the element is. */
  function SizeBits(w: bv64): bv64 { if w == 64 then 0xfff else ((-2 * w) & 0x3f) - 1 }

  /** The low 32 bits of `immr` placed above six bits of `imms`. */
  function Packed(immr: bv64, imms: bv64): bv32 { (((immr << 6) | imms) & 0xffff_ffff) as bv32 }

  function Sum(a: bv64, b: bv64): bv64 { a + b }

  /** immr is `w - xa`, imms is `s + xb - xa`. */
  function Plain(w: bv64, xa: bv64, xb: bv64): bv32 { Packed(w - xa, Sum(SizeBits(w), Less(xb, xa))) }

  /** immr is `w - xb`, imms is `s + w + xa - xb`. */
  function Inverse(w: bv64, xa: bv64, xb: bv64): bv32 { Packed(w - xb, Sum(SizeBits(w), Sum(xa, w - xb))) }

  function Encoding(n: bv64): bv32 {
    var x := Even(n);
    if !Accepted(x) then FAIL
    else if n & 1 == 1 then Inverse(Period(x), Top(Start(x)), StopPosition(x))
    else Plain(Period(x), Top(Start(x)), StopPosition(x))
  }

  method Ffs(y: bv64) returns (n: bv64)
    ensures n == Top(y)
  {
    n := -1;
    var x := y;
    while x != 0
      invariant Shifts(x, n) == Shifts(y, -1)
      decreases x
    {
      x := x >> 1;
      n := n + 1;
    }
  }

  function Join(h: bv64, l: bv64): bv64 { (h << 32) | l }

  function Word(lo: bv32, hi: bv32): bv64 { Join(hi as bv64, lo as bv64) }

  function Imm13(lo: bv32, hi: bv32): bv32 { Encoding(Word(lo, hi)) }

  lemma NothingFound(x: bv64)
    ensures Start(x) == 0 ==> Again(x) == 0
  {
    if Start(x) == 0 {
      assert x == 0;
    }
  }

  lemma FoundIs(x: bv64, a: bv64, b: bv64, c: bv64)
    requires a == Start(x) && b == StopAfter(x, a) && c == NextAfter(x, a, b)
    ensures b == Stop(x) && c == Again(x) && (a == 0 ==> c == 0)
  {
    hide Start, StopAfter, NextAfter;
    NothingFound(x);
  }

  lemma AcceptedIs(x: bv64, w: bv64)
    requires w == Period(x)
    ensures Accepted(x) <==>
      Start(x) != 0 && (Again(x) != 0 ==> Narrow(w)) && Repeat(Less(Stop(x), Start(x)), Copies(w)) == x
  {
    hide Start, Stop, Again, Narrow, Repeat, Less, Copies, Period;
  }

  lemma PeriodIs(x: bv64, c: bv64, w: bv64)
    requires c == Again(x) && w == if c == 0 then 64 else Less(Top(c), Top(Start(x)))
    ensures w == Period(x)
  {
    hide Start, Again, Top, Less;
  }

  lemma StopPositionIs(x: bv64, c: bv64, xb: bv64)
    requires c == Again(x) && xb == if c == 0 && Top(Stop(x)) == -1 then 64 else Top(Stop(x))
    ensures xb == StopPosition(x)
  {
    hide Stop, Again, Top;
  }

  lemma EncodingIs(n: bv64, x: bv64)
    requires x == Even(n)
    ensures Encoding(n) ==
      if !Accepted(x) then FAIL
      else if n & 1 == 1 then Inverse(Period(x), Top(Start(x)), StopPosition(x))
      else Plain(Period(x), Top(Start(x)), StopPosition(x))
  {
    hide Even, Accepted, Period, StopPosition, Top, Start, Plain, Inverse;
  }

  /** dasm_imm13, one assignment after the other. */
  method EncodeImm13(lo: bv32, hi: bv32) returns (r: bv32)
    ensures r == Imm13(lo, hi)
  {
    hide Word, Encoding, Accepted, Period, StopPosition, Start, Stop, Again, StopAfter, NextAfter, Top, Less, Narrow,
      Copies, Repeat, Plain, Inverse;
    var n := Word(lo, hi);
    var inv, x, w: bv64 := false, n, 64;
    if n & 1 == 1 {
      x, inv := !n, true;
    }
    EncodingIs(n, x);
    var a := Start(x);
    var b := StopAfter(x, a);
    var c := NextAfter(x, a, b);
    FoundIs(x, a, b, c);
    var xa := Ffs(a);
    var xb := Ffs(b);
    if c != 0 {
      var xc := Ffs(c);
      w := Less(xc, xa);
      PeriodIs(x, c, w);
      AcceptedIs(x, w);
      if !Narrow(w) {
        return FAIL;
      }
    } else if a == 0 {
      AcceptedIs(x, Period(x));
      return FAIL;
    } else if xb == -1 {
      xb := 64;
    }
    PeriodIs(x, c, w);
    StopPositionIs(x, c, xb);
    AcceptedIs(x, w);
    if Repeat(Less(b, a), Copies(w)) != x {
      return FAIL;
    }
    if inv {
      return Inverse(w, xa, xb);
    } else {
      return Plain(w, xa, xb);
    }
  }

  // ----- Powers of two -----

  predicate Power(p: bv64) { p != 0 && p & (p - 1) == 0 }

  /** `x` ends in the bit `p` and zeros. */
  predicate Ends(x: bv64, p: bv64) { x & (p - 1) == 0 && x & p != 0 }

  lemma LowestIs(x: bv64, p: bv64)
    requires Power(p) && Ends(x, p)
    ensures Lowest(x) == p
  {}

  lemma Powers(x: bv64, y: bv64)
    requires x < y <= 64
    ensures Power(One(x)) && (One(x) < One(y) || (y == 64 && One(y) == 0))
  {}

  lemma Multiple(p: bv64, q: bv64)
    requires Power(p) && Power(q) && p < q
    ensures q & (p - 1) == 0 && q & p == 0
  {}

  lemma Difference(p: bv64, q: bv64)
    requires Power(p) && q & (p - 1) == 0 && q & p == 0
    ensures (q - p) & (p - 1) == 0 && (q - p) & p != 0
  {}

  // ----- What the encoder finds in a repeated run -----

  /** The word whose element has ones from bit `p` up to bit `q`. */
  predicate Repeats(n: bv64, p: bv64, q: bv64, m: bv64) { n == Repeat(Less(q, p), m) }

  predicate Lows(n: bv64, p: bv64, q: bv64, next: bv64) {
    n & 1 == 0 && Lowest(n) == p && Lowest(n + p) == q && Lowest(n + p - q) == next
  }

  /** The same said of single bits. */
  predicate Pieces(n: bv64, p: bv64, q: bv64, next: bv64) {
    && n & 1 == 0 && Ends(n, p) && Ends(n + p, q) && Power(next) && Ends(n + p - q, next)
  }

  /** The ends of a run in one word: `q == 0` for a run that reaches the end. */
  predicate Ends64(p: bv64, q: bv64) { Power(p) && 1 < p && (q == 0 || (Power(q) && p < q)) }

  lemma Even64(p: bv64, q: bv64)
    requires Ends64(p, q)
    ensures (q - p) & 1 == 0
  {
    assert p & 1 == 0 && q & 1 == 0;
  }

  lemma Start64(p: bv64, q: bv64)
    requires Ends64(p, q)
    ensures Power(p) && Ends(q - p, p) && (q != 0 ==> Power(q) && Ends(q, q))
  {
    if q != 0 {
      Multiple(p, q);
    }
    Difference(p, q);
  }

  lemma LowestZero()
    ensures Lowest(0) == 0
  {}

  lemma Lows64(p: bv64, q: bv64)
    requires Ends64(p, q)
    ensures Lows(q - p, p, q, 0)
  {
    hide Lowest, Ends64, Power, Ends;
    Even64(p, q);
    Start64(p, q);
    LowestIs(q - p, p);
    LowestZero();
    if q != 0 {
      LowestIs(q, q);
    }
    assert q - p + p == q && q - q == 0;
  }

  lemma LowsOf(n: bv64, p: bv64, q: bv64, next: bv64)
    requires Power(p) && Power(q) && Pieces(n, p, q, next)
    ensures Lows(n, p, q, next)
  {
    hide Lowest, Power, Ends;
    LowestIs(n, p);
    LowestIs(n + p, q);
    LowestIs(n + p - q, next);
  }

  lemma Pieces32(n: bv64, p: bv64, q: bv64)
    requires Power(p) && Power(q) && 1 < p < q <= 0x1_0000_0000 && Repeats(n, p, q, 0x0000_0001_0000_0001)
    ensures Pieces(n, p, q, Up(32, p))
  {
    Multiple(p, q);
    Difference(p, q);
    assert n == (q - p) + ((q - p) << 32);
    assert n + p - q == (q - p) << 32;
  }

  lemma Pieces16(n: bv64, p: bv64, q: bv64)
    requires Power(p) && Power(q) && 1 < p < q <= 0x1_0000 && Repeats(n, p, q, 0x0001_0001_0001_0001)
    ensures Pieces(n, p, q, Up(16, p))
  {
    Multiple(p, q);
    Difference(p, q);
  }

  lemma Pieces8(n: bv64, p: bv64, q: bv64)
    requires Power(p) && Power(q) && 1 < p < q <= 0x100 && Repeats(n, p, q, 0x0101_0101_0101_0101)
    ensures Pieces(n, p, q, Up(8, p))
  {
    Multiple(p, q);
    Difference(p, q);
  }

  lemma Pieces4(n: bv64, p: bv64, q: bv64)
    requires Power(p) && Power(q) && 1 < p < q <= 0x10 && Repeats(n, p, q, 0x1111_1111_1111_1111)
    ensures Pieces(n, p, q, Up(4, p))
  {
    Multiple(p, q);
    Difference(p, q);
  }

  lemma Pieces2(n: bv64, p: bv64, q: bv64)
    requires Power(p) && Power(q) && 1 < p < q <= 4 && Repeats(n, p, q, 0x5555_5555_5555_5555)
    ensures Pieces(n, p, q, Up(2, p))
  {
    Multiple(p, q);
    Difference(p, q);
  }

  /** Ones from bit `xa` up to bit `xb`, repeated with period `w`. */
  function Run(w: bv64, xa: bv64, xb: bv64): bv64 { Repeat(Less(One(xb), One(xa)), Copies(w)) }

  predicate Shape(w: bv64, xa: bv64, xb: bv64) { Width(w) && 1 <= xa < xb <= w }

  predicate Between(p: bv64, q: bv64, w: bv64) { 1 < p < q <= One(w) }

  lemma BetweenOf(xa: bv64, xb: bv64, w: bv64)
    requires 1 <= xa < xb <= w < 64
    ensures Between(One(xa), One(xb), w)
  {}

  lemma PowersOf(w: bv64, xa: bv64, xb: bv64)
    requires Shape(w, xa, xb)
    ensures Power(One(xa)) && 1 < One(xa)
    ensures xb < 64 ==> Power(One(xb)) && One(xa) < One(xb)
    ensures xb == 64 ==> One(xb) == 0
    ensures w == 64 ==> Ends64(One(xa), One(xb))
    ensures w < 64 ==> Between(One(xa), One(xb), w)
  {
    hide Power, Between;
    Powers(0, xa);
    Powers(xa, xb);
    if xb < 64 {
      Powers(xb, 64);
    }
    if w < 64 {
      BetweenOf(xa, xb, w);
    }
  }

  /** Bit `p` of the following element. */
  function Up(w: bv64, p: bv64): bv64 {
    if w == 32 then p << 32
    else if w == 16 then p << 16
    else if w == 8 then p << 8
    else if w == 4 then p << 4
    else if w == 2 then p << 2
    else 0
  }

  lemma OneOf(w: bv64)
    requires Narrow(w)
    ensures w == 32 ==> One(w) == 0x1_0000_0000
    ensures w == 16 ==> One(w) == 0x1_0000
    ensures w == 8 ==> One(w) == 0x100
    ensures w == 4 ==> One(w) == 0x10
    ensures w == 2 ==> One(w) == 4
  {}

  lemma OneUp(w: bv64, xa: bv64)
    requires Narrow(w) && xa < w
    ensures Up(w, One(xa)) == One(xa + w)
  {
    if w == 32 {
      assert One(xa + 32) == One(xa) << 32;
    } else if w == 16 {
      assert One(xa + 16) == One(xa) << 16;
    } else if w == 8 {
      assert One(xa + 8) == One(xa) << 8;
    } else if w == 4 {
      assert One(xa + 4) == One(xa) << 4;
    } else {
      assert One(xa + 2) == One(xa) << 2;
    }
  }

  lemma PiecesOf(w: bv64, n: bv64, p: bv64, q: bv64)
    requires Narrow(w) && Power(p) && Power(q) && Between(p, q, w) && Repeats(n, p, q, Copies(w))
    ensures Pieces(n, p, q, Up(w, p))
  {
    hide One, Power, Pieces, Repeats, Up;
    OneOf(w);
    if w == 32 {
      Pieces32(n, p, q);
    } else if w == 16 {
      Pieces16(n, p, q);
    } else if w == 8 {
      Pieces8(n, p, q);
    } else if w == 4 {
      Pieces4(n, p, q);
    } else {
      Pieces2(n, p, q);
    }
  }

  lemma RunLows(w: bv64, xa: bv64, xb: bv64, n: bv64, p: bv64, q: bv64)
    requires Shape(w, xa, xb) && w < 64 && Repeats(n, p, q, Copies(w)) && p == One(xa) && q == One(xb)
    ensures Lows(n, p, q, Up(w, p))
  {
    hide One, Power, Between, Lows, Pieces, Repeats, Up, Copies;
    PowersOf(w, xa, xb);
    PiecesOf(w, n, p, q);
    LowsOf(n, p, q, Up(w, p));
  }

  // ----- What the decoder makes of the fields -----

  lemma ShiftOnce(x: bv64, d: bv64)
    requires 0 < d <= 64
    ensures x << d == (x << (d - 1)) << 1
  {}

  predicate IsLeft(y: bv64, x: bv64, z: bv64) { x <= 64 && y << x == z }

  lemma LeftNone(y: bv64, z: bv64)
    requires y == z
    ensures IsLeft(y, 0, z)
  {}

  lemma LeftStep(y: bv64, x: bv64, e: bv64, u: bv64)
    requires 0 < x <= 64 && e == x - 1 && IsLeft(y, e, u)
    ensures IsLeft(y, x, u << 1)
  {
    ShiftOnce(y, x);
  }

  /** `z` has ones from bit `x` up to bit `f`, as far as there are such bits. */
  predicate Block(z: bv64, x: bv64, f: bv64) { x < f <= 128 && x < 64 && z == Low(f) ^ Low(x) }

  predicate Odd(c: bv64, a: bv64) { c == (a << 1) | 1 }

  predicate Differ(z: bv64, c: bv64, d: bv64) { z == c ^ d }

  predicate Follows(j: bv64, k: bv64) { 0 < k <= 128 && j == k - 1 }

  lemma LowOnce(k: bv64, j: bv64)
    requires Follows(j, k)
    ensures Odd(Low(k), Low(j))
  {}

  lemma Halved(z: bv64, u: bv64, c: bv64, d: bv64, a: bv64, b: bv64)
    requires Differ(z, c, d) && Odd(c, a) && Odd(d, b) && Differ(u, a, b)
    ensures u << 1 == z
  {}

  lemma Earlier(x: bv64, f: bv64) returns (e: bv64, k: bv64)
    requires 0 < x < f <= 128 && x < 64
    ensures e == x - 1 && k == f - 1 && e < k <= 128 && e < 64 && Follows(e, x) && Follows(k, f)
  {
    e, k := x - 1, f - 1;
  }

  lemma BlockHalf(u: bv64, e: bv64, k: bv64, z: bv64, x: bv64, f: bv64)
    requires Follows(e, x) && Follows(k, f)
    requires Differ(z, Low(f), Low(x)) && Differ(u, Low(k), Low(e))
    ensures u << 1 == z
  {
    hide Low, Follows, Odd, Differ;
    LowOnce(f, k);
    LowOnce(x, e);
    Halved(z, u, Low(f), Low(x), Low(k), Low(e));
  }

  lemma BlockDown(x: bv64, f: bv64, z: bv64) returns (u: bv64, e: bv64, k: bv64)
    requires Block(z, x, f) && 0 < x
    ensures e == x - 1 && k == f - 1 && Block(u, e, k) && u << 1 == z
  {
    hide Low;
    e, k := Earlier(x, f);
    u := Low(k) ^ Low(e);
    BlockHalf(u, e, k, z, x, f);
  }

  lemma BlockNone(y: bv64, d: bv64, z: bv64)
    requires Block(y, 0, d) && Block(z, 0, d)
    ensures y == z
  {
    hide Low;
  }

  lemma {:induction false} LeftOnes(y: bv64, d: bv64, x: bv64, f: bv64, z: bv64)
    requires d <= 64 && x <= 64 && Block(y, 0, d) && Block(z, x, f) && f == d + x
    ensures IsLeft(y, x, z)
    decreases x
  {
    hide One, Low, IsLeft, Block;
    if x == 0 {
      BlockNone(y, d, z);
      LeftNone(y, z);
    } else {
      var u, e, k := BlockDown(x, f, z);
      LeftOnes(y, d, e, k, u);
      LeftStep(y, x, e, u);
    }
  }

  lemma ShiftOut(x: bv64, d: bv64)
    requires d < 64 && x < One(d)
    ensures x >> d == 0
  {}

  predicate IsRight(y: bv64, x: bv64, z: bv64) { x <= 64 && y >> x == z }

  lemma RightNone(y: bv64, z: bv64)
    requires y == z
    ensures IsRight(y, 0, z)
  {}

  lemma RightStep(y: bv64, d: bv64, a: bv64)
    requires 0 < d <= 64 && IsRight(y, d - 1, a)
    ensures IsRight(y, d, a >> 1)
  {
    ShiftDownOnce(y, d);
  }

  /** `p` has as many ones as are left of `x` after `d` are dropped. */
  predicate Ones(p: bv64, x: bv64, d: bv64) { d < x <= 64 && p == Low(x - d) }

  lemma OneMore(x: bv64, d: bv64, p: bv64) returns (q: bv64, e: bv64)
    requires Ones(p, x, d) && 0 < d
    ensures e == d - 1 && Ones(q, x, e) && q >> 1 == p
  {
    e := d - 1;
    q := Low(x - e);
  }

  lemma {:induction false} RightOnes(y: bv64, x: bv64, d: bv64, p: bv64)
    requires d <= 64 && Ones(y, x, 0) && Ones(p, x, d)
    ensures IsRight(y, d, p)
    decreases d
  {
    hide One, IsRight, Ones;
    if d == 0 {
      OnesNone(y, p, x);
      RightNone(y, p);
    } else {
      var q, e := OneMore(x, d, p);
      RightOnes(y, x, e, q);
      RightStep(y, d, q);
    }
  }

  lemma OnesNone(y: bv64, p: bv64, x: bv64)
    requires Ones(y, x, 0) && Ones(p, x, 0)
    ensures y == p
  {
    hide One;
  }

  lemma ShiftDownOnce(x: bv64, d: bv64)
    requires 0 < d <= 64
    ensures x >> d == (x >> (d - 1)) >> 1
  {}

  lemma Complement(z: bv64)
    ensures -1 - z == !z
  {}

  /** `y` and `z` are complements below the mask `m`. */
  predicate Opposite(y: bv64, z: bv64, m: bv64) { y <= m && z <= m && Sum(z, y) == m }

  lemma Flip64(y: bv64, z: bv64)
    requires Opposite(y, z, 0xffff_ffff_ffff_ffff)
    ensures Repeat(z, 1) == -1 - Repeat(y, 1)
  {}

  lemma Products32(y: bv64, z: bv64, a: bv64, b: bv64)
    requires y <= 0xffff_ffff && z <= 0xffff_ffff && z + y == 0xffff_ffff && a == z * 0x0000_0001_0000_0001 &&
      b == y * 0x0000_0001_0000_0001
    ensures a == -1 - b
  {}

  lemma Flip32(y: bv64, z: bv64)
    requires Opposite(y, z, 0xffff_ffff)
    ensures Repeat(z, 0x0000_0001_0000_0001) == -1 - Repeat(y, 0x0000_0001_0000_0001)
  {
    Products32(y, z, Repeat(z, 0x0000_0001_0000_0001), Repeat(y, 0x0000_0001_0000_0001));
  }

  lemma Products16(y: bv64, z: bv64, a: bv64, b: bv64)
    requires y <= 0xffff && z <= 0xffff && z + y == 0xffff && a == z * 0x0001_0001_0001_0001 &&
      b == y * 0x0001_0001_0001_0001
    ensures a == -1 - b
  {}

  lemma Flip16(y: bv64, z: bv64)
    requires Opposite(y, z, 0xffff)
    ensures Repeat(z, 0x0001_0001_0001_0001) == -1 - Repeat(y, 0x0001_0001_0001_0001)
  {
    Products16(y, z, Repeat(z, 0x0001_0001_0001_0001), Repeat(y, 0x0001_0001_0001_0001));
  }

  lemma Flip8(y: bv64, z: bv64)
    requires Opposite(y, z, 0xff)
    ensures Repeat(z, 0x0101_0101_0101_0101) == -1 - Repeat(y, 0x0101_0101_0101_0101)
  {}

  lemma Flip4(y: bv64, z: bv64)
    requires Opposite(y, z, 0xf)
    ensures Repeat(z, 0x1111_1111_1111_1111) == -1 - Repeat(y, 0x1111_1111_1111_1111)
  {}

  lemma Flip2(y: bv64, z: bv64)
    requires Opposite(y, z, 3)
    ensures Repeat(z, 0x5555_5555_5555_5555) == -1 - Repeat(y, 0x5555_5555_5555_5555)
  {}

  lemma Flipped(w: bv64, y: bv64, z: bv64)
    requires Width(w) && Opposite(y, z, Low(w))
    ensures Repeat(z, Copies(w)) == !Repeat(y, Copies(w))
  {
    hide Repeat, Opposite;
    MaskIs(w);
    Complement(Repeat(y, Copies(w)));
    if w == 64 {
      Flip64(y, z);
    } else if w == 32 {
      Flip32(y, z);
    } else if w == 16 {
      Flip16(y, z);
    } else if w == 8 {
      Flip8(y, z);
    } else if w == 4 {
      Flip4(y, z);
    } else {
      Flip2(y, z);
    }
  }

  lemma MaskIs(w: bv64)
    requires Width(w)
    ensures Low(64) == 0xffff_ffff_ffff_ffff && Low(32) == 0xffff_ffff && Low(16) == 0xffff
    ensures Low(8) == 0xff && Low(4) == 0xf && Low(2) == 3
  {}

  predicate Merges(u: bv64, v: bv64, m: bv64, z: bv64) { (u | v) & m == z }

  lemma TurnIs(x: bv64, r: bv64, l: bv64, e: bv64, u: bv64, v: bv64, z: bv64)
    requires Splits(e, r, l) && IsRight(x, r, u) && IsLeft(x, l, v) && Merges(u, v, Low(e), z)
    ensures Turn(x, r, l, e) == z
  {
    hide Low;
  }

  lemma BlockStart(y: bv64, d: bv64)
    requires 0 < d <= 64 && y == Low(d)
    ensures Block(y, 0, d)
  {
    assert Low(0) == 0;
  }

  lemma LowDifference(xa: bv64, xb: bv64)
    requires 1 <= xa < xb <= 64
    ensures Low(xb) ^ Low(xa) == One(xb) - One(xa)
  {}

  lemma LessIs(xa: bv64, xb: bv64, z: bv64)
    requires 1 <= xa < xb <= 64 && Differ(z, Low(xb), Low(xa))
    ensures Less(One(xb), One(xa)) == z
  {
    hide One, Low;
    LowDifference(xa, xb);
  }

  lemma FallsOut(y: bv64, d: bv64, r: bv64)
    requires d <= r < 64 && y == Low(d)
    ensures IsRight(y, r, 0)
  {
    Below(y, d, r);
    ShiftOut(y, r);
  }

  lemma Below(y: bv64, d: bv64, r: bv64)
    requires d <= r < 64 && y == Low(d)
    ensures y < One(r)
  {}

  predicate Splits(e: bv64, r: bv64, l: bv64) { 0 < r < e <= 64 && 0 < l < e && l == e - r }

  lemma RotateIs(y: bv64, r: bv64, l: bv64, e: bv64)
    requires Splits(e, r, l)
    ensures RotateRight(y, r, e) == Turn(y, r, l, e)
  {
    hide Turn;
  }

  lemma Within(w: bv64, xa: bv64, xb: bv64, z: bv64)
    requires Shape(w, xa, xb) && Differ(z, Low(xb), Low(xa))
    ensures Merges(0, z, Low(w), z)
  {
    hide Low, Inside, Differ, Merges;
    Nested(xa, xb);
    Nested(xb, w);
    Keeping(Low(xa), Low(xb), Low(w), z);
  }

  lemma Keeping(a: bv64, b: bv64, m: bv64, z: bv64)
    requires Inside(a, b) && Inside(b, m) && Differ(z, b, a)
    ensures Merges(0, z, m, z)
  {}

  lemma RotatesLeft(w: bv64, xa: bv64, xb: bv64, d: bv64, r: bv64, y: bv64, z: bv64)
    requires Shape(w, xa, xb) && Splits(w, r, xa) && 0 < d <= r && xb == d + xa && y == Low(d) &&
      Differ(z, Low(xb), Low(xa))
    ensures IsLeft(y, xa, z)
  {
    hide Low, IsLeft;
    BlockStart(y, d);
    LeftOnes(y, d, xa, xb, z);
  }

  lemma RotatesRight(w: bv64, r: bv64, l: bv64, d: bv64, y: bv64)
    requires Splits(w, r, l) && d <= r && y == Low(d)
    ensures IsRight(y, r, 0)
  {
    hide Low, IsRight;
    FallsOut(y, d, r);
  }

  lemma Rotates(w: bv64, xa: bv64, xb: bv64, d: bv64, r: bv64, y: bv64, z: bv64)
    requires Shape(w, xa, xb) && Splits(w, r, xa) && 0 < d <= r && xb == d + xa && y == Low(d) &&
      Differ(z, Low(xb), Low(xa))
    ensures RotateRight(y, r, w) == z
  {
    hide One, Low, IsLeft, IsRight, Turn, RotateRight, Shape, Splits;
    RotatesLeft(w, xa, xb, d, r, y, z);
    RotatesRight(w, r, xa, d, y);
    Within(w, xa, xb, z);
    TurnIs(y, r, xa, w, 0, z, z);
    RotateIs(y, r, xa, w);
  }

  predicate Inside(a: bv64, b: bv64) { a & b == a }

  lemma Nested(x: bv64, y: bv64)
    requires x <= y
    ensures Inside(Low(x), Low(y))
  {}

  lemma Joining(a: bv64, b: bv64, m: bv64, f: bv64, v: bv64, t: bv64, z: bv64)
    requires Inside(a, b) && Inside(b, m) && Inside(m, f) && Differ(v, f, b) && Differ(t, b, a) && Differ(z, m, t)
    ensures Merges(a, v, m, z)
  {}

  lemma InverseLeft(d: bv64, xb: bv64, f: bv64, y: bv64, v: bv64)
    requires 0 < d <= 64 && 0 < xb < 64 && f == d + xb && y == Low(d) && Differ(v, Low(f), Low(xb))
    ensures IsLeft(y, xb, v)
  {
    hide Low, IsLeft;
    BlockStart(y, d);
    LeftOnes(y, d, xb, f, v);
  }

  lemma OnesAt(x: bv64, d: bv64, k: bv64)
    requires d < x <= 64 && k == x - d
    ensures Ones(Low(k), x, d)
  {
    hide Low;
  }

  lemma TheDifference(a: bv64, b: bv64) returns (z: bv64)
    ensures Differ(z, a, b)
  {
    z := a ^ b;
  }

  lemma InverseRight(d: bv64, r: bv64, xa: bv64, y: bv64)
    requires 0 < r < d <= 64 && xa == d - r && y == Low(d)
    ensures IsRight(y, r, Low(xa))
  {
    hide IsRight, Ones, Low;
    OnesAt(d, 0, d);
    OnesAt(d, r, xa);
    RightOnes(y, d, r, Low(xa));
  }

  lemma InverseRotates(w: bv64, xa: bv64, xb: bv64, d: bv64, r: bv64, f: bv64, y: bv64, t: bv64, z: bv64)
    requires Shape(w, xa, xb) && xb < 64 && 0 < r < d <= 64 && xa == d - r && Splits(w, r, xb) && f == d + xb && w <= f
    requires y == Low(d) && Differ(t, Low(xb), Low(xa)) && Differ(z, Low(w), t)
    ensures RotateRight(y, r, w) == z
  {
    hide Low, IsLeft, IsRight, Turn, Splits, RotateRight, Inside, Differ, Merges;
    var v := TheDifference(Low(f), Low(xb));
    InverseLeft(d, xb, f, y, v);
    InverseRight(d, r, xa, y);
    Nested(xa, xb);
    Nested(xb, w);
    Nested(w, f);
    Joining(Low(xa), Low(xb), Low(w), Low(f), v, t, z);
    TurnIs(y, r, xb, w, Low(xa), v, z);
    RotateIs(y, r, xb, w);
  }
}
