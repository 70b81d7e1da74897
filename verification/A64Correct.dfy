/** What the encoder's answer means. */
module A64Correct {
  import opened A64Imm
  import opened A64Encode

  // ----- Positions of bits -----

  lemma HalfOne(k: bv64)
    requires 0 < k < 64
    ensures One(k) >> 1 == One(k - 1) && One(k) != 0
  {}

  function Counted(n: bv64, k: bv64): bv64 { n + k + 1 }

  lemma CountedOnce(n: bv64, k: bv64)
    ensures Counted(n, k) == Counted(n + 1, k - 1)
  {}

  lemma ShiftsOnce(x: bv64, n: bv64)
    requires x != 0
    ensures Shifts(x, n) == Shifts(x >> 1, n + 1)
  {}

  lemma ShiftsOfOne(n: bv64)
    ensures Shifts(One(0), n) == Counted(n, 0)
  {
    assert One(0) >> 1 == 0;
  }

  lemma {:induction false} ShiftsOne(k: bv64, n: bv64)
    requires k < 64
    ensures Shifts(One(k), n) == Counted(n, k)
    decreases k
  {
    hide One, Counted;
    if k == 0 {
      ShiftsOfOne(n);
    } else {
      HalfOne(k);
      ShiftsOne(k - 1, n + 1);
      ShiftsOnce(One(k), n);
      CountedOnce(n, k);
    }
  }

  lemma TopOne(k: bv64)
    requires k < 64
    ensures Top(One(k)) == k
  {
    hide One;
    ShiftsOne(k, -1);
  }

  lemma TopNone()
    ensures Top(0) == -1
  {}

  lemma {:induction false} Position(p: bv64) returns (k: bv64)
    requires Power(p)
    ensures k < 64 && p == One(k) && Top(p) == k
    decreases p
  {
    hide Top;
    if p == 1 {
      k := 0;
    } else {
      HalfPower(p);
      var j := Position(p >> 1);
      NextOne(p, j);
      k := j + 1;
    }
    TopOne(k);
  }

  lemma HalfPower(p: bv64)
    requires Power(p) && p != 1
    ensures Power(p >> 1) && p >> 1 < p && (p >> 1) << 1 == p
  {}

  lemma NextOne(p: bv64, j: bv64)
    requires Power(p) && p != 1 && j < 64 && p >> 1 == One(j)
    ensures j + 1 < 64 && p == One(j + 1)
  {}

  // ----- The encoder recognises every repeated run -----

  predicate Found(x: bv64, p: bv64, q: bv64, next: bv64) { Start(x) == p && Stop(x) == q && Again(x) == next }

  lemma StopIs(x: bv64, a: bv64)
    ensures StopAfter(x, a) == Lowest(x + a)
  {
    hide Lowest;
  }

  lemma NextIs(x: bv64, a: bv64, b: bv64)
    ensures NextAfter(x, a, b) == Lowest(x + a - b)
  {
    hide Lowest;
  }

  lemma FoundAfter(x: bv64, p: bv64, q: bv64, next: bv64)
    requires Start(x) == p && StopAfter(x, p) == q && NextAfter(x, p, q) == next
    ensures Found(x, p, q, next)
  {
    hide Start, StopAfter, NextAfter;
  }

  lemma LowsFound(x: bv64, p: bv64, q: bv64, next: bv64)
    requires Lows(x, p, q, next)
    ensures Found(x, p, q, next) && x & 1 == 0
  {
    hide Lowest, StopAfter, NextAfter, Found;
    StopIs(x, p);
    NextIs(x, p, q);
    FoundAfter(x, p, q, next);
  }

  lemma RunRepeats(w: bv64, xa: bv64, xb: bv64)
    requires Width(w)
    ensures Repeats(Run(w, xa, xb), One(xa), One(xb), Copies(w))
  {
    hide One, Copies, Repeat, Less;
  }

  lemma RunFound(w: bv64, xa: bv64, xb: bv64)
    requires Shape(w, xa, xb)
    ensures var x := Run(w, xa, xb);
      x & 1 == 0 && Found(x, One(xa), One(xb), if w == 64 then 0 else Up(w, One(xa)))
  {
    hide One, Copies, Repeats, Run, Found, Lows, Up, Power, Between, Ends64;
    var n, p, q := Run(w, xa, xb), One(xa), One(xb);
    RunRepeats(w, xa, xb);
    PowersOf(w, xa, xb);
    if w == 64 {
      Repeats64(n, p, q);
      Lows64(p, q);
      LowsFound(n, p, q, 0);
    } else {
      RunLows(w, xa, xb, n, p, q);
      LowsFound(n, p, q, Up(w, p));
    }
  }

  lemma Repeats64(n: bv64, p: bv64, q: bv64)
    requires Repeats(n, p, q, Copies(64))
    ensures n == q - p
  {}

  lemma LessUp(w: bv64, xa: bv64)
    requires Narrow(w) && xa < w
    ensures Less(xa + w, xa) == w && xa + w < 64
  {}

  lemma NoSuchPosition(xb: bv64)
    requires xb < 64
    ensures xb != -1
  {}

  lemma OneIsSome(k: bv64)
    requires k < 64
    ensures One(k) != 0
  {}

  lemma Recognised(w: bv64, xa: bv64, xb: bv64)
    requires Shape(w, xa, xb)
    ensures var x := Run(w, xa, xb);
      x & 1 == 0 && Accepted(x) && Period(x) == w && Top(Start(x)) == xa && StopPosition(x) == xb && InPeriod(x)
  {
    hide One, Top, Run, Copies, Repeat, Less, Start, Stop, Again, Up;
    var x := Run(w, xa, xb);
    RunFound(w, xa, xb);
    ShapeBounds(w, xa, xb);
    TopOne(xa);
    OneIsSome(xa);
    if w != 64 {
      LessUp(w, xa);
      OneUp(w, xa);
      TopOne(xa + w);
      OneIsSome(xa + w);
    }
    if xb == 64 {
      PowersOf(w, xa, xb);
      TopNone();
    } else {
      TopOne(xb);
      NoSuchPosition(xb);
    }
    RunIs(w, xa, xb);
  }

  lemma ShapeBounds(w: bv64, xa: bv64, xb: bv64)
    requires Shape(w, xa, xb)
    ensures xa < 64 && xa < w && xb <= 64 && (w != 64 ==> Narrow(w)) && (xb == 64 ==> w == 64)
  {}

  lemma RunIs(w: bv64, xa: bv64, xb: bv64)
    ensures Run(w, xa, xb) == Repeat(Less(One(xb), One(xa)), Copies(w))
  {
    hide One, Copies, Repeat, Less;
  }

  // ----- What the encoder accepts is a repeated run -----

  lemma StartOfEven(x: bv64)
    requires x & 1 == 0 && Start(x) != 0
    ensures Power(Start(x)) && Start(x) != 1
  {}

  lemma StopOf(x: bv64, a: bv64)
    requires Start(x) == a && a != 0
    ensures StopAfter(x, a) == 0 || (Power(StopAfter(x, a)) && a < StopAfter(x, a))
  {}

  lemma NothingAgain(x: bv64, a: bv64)
    requires StopAfter(x, a) == 0
    ensures NextAfter(x, a, 0) == 0
  {}

  lemma OneOrder(j: bv64, k: bv64)
    requires j < 64 && k < 64 && One(j) < One(k)
    ensures j < k
  {}

  lemma FirstOne()
    ensures One(0) == 1 && One(64) == 0
  {}

  lemma AfterZero(k: bv64)
    requires k != 0
    ensures 1 <= k
  {}

  lemma Understood(x: bv64) returns (w: bv64, xa: bv64, xb: bv64)
    requires x & 1 == 0 && Accepted(x)
    ensures w == Period(x) && xa == Top(Start(x)) && xb == StopPosition(x) && Start(x) == One(xa) && Start(x) != 0
    ensures Width(w) && 1 <= xa < xb <= 64 && x == Run(w, xa, xb)
  {
    hide One, Top, Power, Run, Copies, Repeat, Less, Start, StopAfter, NextAfter, Width;
    w, xa, xb := Period(x), Top(Start(x)), StopPosition(x);
    var a, b := Start(x), Stop(x);
    StartOfEven(x);
    StopOf(x, a);
    var j := Position(a);
    FirstOne();
    AfterZero(xa);
    if b == 0 {
      NothingAgain(x, a);
      TopNone();
    } else {
      var k := Position(b);
      OneOrder(j, k);
      NoSuchPosition(k);
    }
    WidthOf(x);
    RunIs(w, xa, xb);
  }

  lemma WidthOf(x: bv64)
    requires Accepted(x)
    ensures Width(Period(x))
  {
    hide Top, Less, Repeat, Copies, Start, Stop, Again;
  }

  // ----- Every encoding stands for a repeated run or its complement -----

  predicate InElement(s: bv64, r: bv64, e: bv64) { s < e && r < e }

  lemma ElementWidth(v: bv32)
    requires ElementSize(v) != 0
    ensures Width(ElementSize(v)) && InElement(FieldS(v, ElementSize(v)), FieldR(v, ElementSize(v)), ElementSize(v))
  {}

  lemma DecodeParts(v: bv32, e: bv64, s: bv64, r: bv64)
    requires Decode(v).Some? && e == ElementSize(v) && s == FieldS(v, e) && r == FieldR(v, e)
    ensures Width(e) && InElement(s, r, e) && !Reserved(s, e)
    ensures Decode(v) == Some(Repeat(Element(s, r, e), Copies(e)))
  {
    hide ElementSize, FieldS, FieldR, Width, InElement, Reserved, Element, Repeat, Copies;
    ElementWidth(v);
  }

  lemma PlainShape(e: bv64, s: bv64, r: bv64) returns (xa: bv64, xb: bv64, d: bv64)
    requires Width(e) && InElement(s, r, e) && !Reserved(s, e) && s < r
    ensures Shape(e, xa, xb) && Splits(e, r, xa) && 0 < d <= r && xb == d + xa && Before(s, d)
  {
    xa, d := e - r, s + 1;
    xb := d + xa;
    assert e <= 64 && d <= r;
  }

  lemma InverseShape(e: bv64, s: bv64, r: bv64) returns (xa: bv64, xb: bv64, d: bv64)
    requires Width(e) && InElement(s, r, e) && !Reserved(s, e) && r <= s
    ensures Shape(e, xa, xb) && Small(e, xa, xb) && r < e && r == e - xb && d == xa + r && Before(s, d)
  {
    hide Shape, Small, InElement, Reserved;
    d := s + 1;
    OneMoreIs(e, s, r, d);
    xa, xb := d - r, e - r;
    InverseInside(e, d, r, xa, xb);
  }

  lemma OneMoreIs(e: bv64, s: bv64, r: bv64, d: bv64)
    requires Width(e) && InElement(s, r, e) && !Reserved(s, e) && r <= s && d == s + 1
    ensures e <= 64 && r < d < e && Before(s, d)
  {}

  lemma InverseInside(e: bv64, d: bv64, r: bv64, xa: bv64, xb: bv64)
    requires Width(e) && e <= 64 && r < d < e && xa == d - r && xb == e - r
    ensures Shape(e, xa, xb) && Small(e, xa, xb) && r == e - xb && d == xa + r
  {
    hide Width, Shape, Small;
    BothSmall(e, d, r);
    AtMost(e, r, xb);
    AtMost(d, r, xa);
    Ordered(e, d, r, xa, xb);
    Back(e, r, xb);
    IsShape(e, xa, xb);
  }

  lemma BothSmall(e: bv64, d: bv64, r: bv64)
    requires r < d < e <= 64
    ensures r <= 64 && d <= 64 && r <= d && r <= e
  {}

  lemma IsShape(w: bv64, xa: bv64, xb: bv64)
    requires Width(w) && 1 <= xa < xb <= w && xa <= 64 && xb <= 64 && w <= 64
    ensures Shape(w, xa, xb) && Small(w, xa, xb)
  {
    hide Width;
  }

  lemma Ordered(e: bv64, d: bv64, r: bv64, xa: bv64, xb: bv64)
    requires xa <= 64 && xb <= 64 && e == r + xb && d == r + xa && r < d < e <= 64
    ensures 1 <= xa < xb <= e
  {}

  lemma Decoded(v: bv32) returns (w: bv64, xa: bv64, xb: bv64)
    requires Decode(v).Some?
    ensures Shape(w, xa, xb) && (Decode(v).value == Run(w, xa, xb) || Decode(v).value == !Run(w, xa, xb))
  {
    hide Decode, ElementSize, FieldS, FieldR, Width, Shape, Small, Splits, Before, InElement, Reserved, Element,
      Repeat, Copies, Run;
    w := ElementSize(v);
    var s, r := FieldS(v, w), FieldR(v, w);
    DecodeParts(v, w, s, r);
    var d;
    if s < r {
      xa, xb, d := PlainShape(w, s, r);
      Bounded(w);
      PlainElement(w, xa, xb, d, s, r);
    } else {
      xa, xb, d := InverseShape(w, s, r);
      Bounded(w);
      InverseElement(w, xa, xb, d, s, r);
    }
  }

  lemma Bounded(w: bv64)
    requires Width(w)
    ensures 0 < w <= 64
  {}

  lemma EvenOf(n: bv64, x: bv64)
    requires x & 1 == 0 && (n == x || n == !x)
    ensures Even(n) == x
  {}

  lemma EvenIs(n: bv64)
    ensures Even(n) & 1 == 0 && n == if n & 1 == 1 then !Even(n) else Even(n)
  {}

  /** The words that have an encoding are those the encoder accepts, the run ending within its period. */
  lemma EncodableExactly(n: bv64)
    ensures Encodable(n) <==> Accepted(Even(n)) && InPeriod(Even(n))
    ensures Encodable(n) ==> Decode(Encoding(n)) == Some(n)
  {
    hide Decode, Accepted, InPeriod, Period, StopPosition, Even, Encoding, Run, Shape, Start, Top;
    if Encodable(n) {
      var v: bv32 :| Decode(v) == Some(n);
      var w, xa, xb := Decoded(v);
      Recognised(w, xa, xb);
      EvenOf(n, Run(w, xa, xb));
    }
    if Accepted(Even(n)) && InPeriod(Even(n)) {
      EncodedBack(n);
    }
  }

  lemma EncodedBack(n: bv64)
    requires Accepted(Even(n)) && InPeriod(Even(n))
    ensures Decode(Encoding(n)) == Some(n)
  {
    hide Decode, Accepted, Even, Period, StopPosition, Start, Top, Run, Width, Plain, Inverse;
    var x := Even(n);
    EvenIs(n);
    var w, xa, xb := Understood(x);
    if n & 1 == 1 {
      DecodeInverse(w, xa, xb);
    } else {
      DecodePlain(w, xa, xb);
    }
  }

  /** An answer is right exactly if the run ends within its period; nothing that can be encoded is refused. */
  lemma AnswerExactly(lo: bv32, hi: bv32)
    ensures var n, r := Word(lo, hi), Imm13(lo, hi);
      && (r != FAIL ==> (Decode(r) == Some(n) <==> InPeriod(Even(n))))
      && (Encodable(n) ==> r != FAIL && Decode(r) == Some(n))
  {
    hide Decode, InPeriod, Accepted, Even, Encoding;
    var n := Word(lo, hi);
    EncodableExactly(n);
    if Encoding(n) != FAIL {
      Refused(n);
    }
    assert Decode(FAIL).None? by {
      FailIsNone();
    }
  }

  lemma Refused(n: bv64)
    requires Encoding(n) != FAIL
    ensures Accepted(Even(n))
  {
    hide Accepted, Plain, Inverse, Even;
  }

  lemma FailIsNone()
    ensures Decode(FAIL).None?
  {}

  // ----- A word made of two equal halves -----

  predicate Halves(x: bv64) { x >> 32 == x & 0xffff_ffff }

  predicate Crossing(p: bv64, q: bv64, t: bv64) { Power(p) && (q == 0 || (Power(q) && p < q && t < q)) }

  predicate Times(x: bv64, l: bv64, m: bv64) { x == l * m }

  lemma TimesIs(x: bv64, l: bv64, m: bv64)
    requires x == Repeat(l, m)
    ensures Times(x, l, m)
  {}

  lemma LessIs(p: bv64, q: bv64)
    ensures Less(q, p) == q - p
  {}

  lemma Factor(x: bv64, p: bv64, q: bv64, m: bv64) returns (l: bv64)
    requires Repeats(x, p, q, m)
    ensures l == q - p && Times(x, l, m)
  {
    hide Less, Repeat, Times;
    l := Less(q, p);
    LessIs(p, q);
    TimesIs(x, l, m);
  }

  lemma Product32(x: bv64, p: bv64, q: bv64, l: bv64)
    requires Crossing(p, q, 0x1_0000_0000) && l == q - p && Times(x, l, 0x0000_0001_0000_0001) && Ends(x, p)
    ensures !Halves(x)
  {}

  lemma Cross32(x: bv64, p: bv64, q: bv64)
    requires Crossing(p, q, 0x1_0000_0000) && Repeats(x, p, q, 0x0000_0001_0000_0001) && Ends(x, p)
    ensures !Halves(x)
  {
    hide Crossing, Ends, Halves, Repeats, Times;
    var l := Factor(x, p, q, 0x0000_0001_0000_0001);
    Product32(x, p, q, l);
  }

  lemma Product16(x: bv64, p: bv64, q: bv64, l: bv64)
    requires Crossing(p, q, 0x1_0000) && l == q - p && Times(x, l, 0x0001_0001_0001_0001) && Ends(x, p)
    ensures !Halves(x)
  {}

  lemma Cross16(x: bv64, p: bv64, q: bv64)
    requires Crossing(p, q, 0x1_0000) && Repeats(x, p, q, 0x0001_0001_0001_0001) && Ends(x, p)
    ensures !Halves(x)
  {
    hide Crossing, Ends, Halves, Repeats, Times;
    var l := Factor(x, p, q, 0x0001_0001_0001_0001);
    Product16(x, p, q, l);
  }

  lemma Product8(x: bv64, p: bv64, q: bv64, l: bv64)
    requires Crossing(p, q, 0x100) && l == q - p && Times(x, l, 0x0101_0101_0101_0101) && Ends(x, p)
    ensures !Halves(x)
  {}

  lemma Cross8(x: bv64, p: bv64, q: bv64)
    requires Crossing(p, q, 0x100) && Repeats(x, p, q, 0x0101_0101_0101_0101) && Ends(x, p)
    ensures !Halves(x)
  {
    hide Crossing, Ends, Halves, Repeats, Times;
    var l := Factor(x, p, q, 0x0101_0101_0101_0101);
    Product8(x, p, q, l);
  }

  lemma Product4(x: bv64, p: bv64, q: bv64, l: bv64)
    requires Crossing(p, q, 0x10) && l == q - p && Times(x, l, 0x1111_1111_1111_1111) && Ends(x, p)
    ensures !Halves(x)
  {}

  lemma Cross4(x: bv64, p: bv64, q: bv64)
    requires Crossing(p, q, 0x10) && Repeats(x, p, q, 0x1111_1111_1111_1111) && Ends(x, p)
    ensures !Halves(x)
  {
    hide Crossing, Ends, Halves, Repeats, Times;
    var l := Factor(x, p, q, 0x1111_1111_1111_1111);
    Product4(x, p, q, l);
  }

  lemma Product2(x: bv64, p: bv64, q: bv64, l: bv64)
    requires Crossing(p, q, 4) && l == q - p && Times(x, l, 0x5555_5555_5555_5555) && Ends(x, p)
    ensures !Halves(x)
  {}

  lemma Cross2(x: bv64, p: bv64, q: bv64)
    requires Crossing(p, q, 4) && Repeats(x, p, q, 0x5555_5555_5555_5555) && Ends(x, p)
    ensures !Halves(x)
  {
    hide Crossing, Ends, Halves, Repeats, Times;
    var l := Factor(x, p, q, 0x5555_5555_5555_5555);
    Product2(x, p, q, l);
  }

  lemma NoHalves(w: bv64, x: bv64, p: bv64, q: bv64)
    requires Narrow(w) && Crossing(p, q, One(w)) && Repeats(x, p, q, Copies(w)) && Ends(x, p)
    ensures !Halves(x)
  {
    hide One, Repeats, Ends, Halves, Crossing;
    OneOf(w);
    if w == 32 {
      Cross32(x, p, q);
    } else if w == 16 {
      Cross16(x, p, q);
    } else if w == 8 {
      Cross8(x, p, q);
    } else if w == 4 {
      Cross4(x, p, q);
    } else {
      Cross2(x, p, q);
    }
  }

  lemma Crosses(w: bv64, xa: bv64, xb: bv64)
    requires Narrow(w) && 1 <= xa < xb <= 64 && w < xb
    ensures Crossing(One(xa), One(xb), One(w))
  {
    hide One, Power;
    Powers(xa, xb);
    Powers(w, xb);
    FirstOne();
    if xb < 64 {
      Powers(xb, 64);
    }
  }

  lemma StartEnds(x: bv64)
    requires Start(x) != 0
    ensures Ends(x, Start(x))
  {}

  lemma TwinHalves(lo: bv32)
    ensures Halves(Even(Word(lo, lo))) && Even(Word(lo, lo)) & 1 == 0
  {
    hide Halves, Word;
    WordHalves(lo);
    EvenHalves(Word(lo, lo));
    EvenIs(Word(lo, lo));
  }

  lemma WordHalves(lo: bv32)
    ensures Halves(Word(lo, lo))
  {
    hide Halves, Join;
    SameHalves(lo as bv64);
  }

  lemma JoinIs(h: bv64, l: bv64)
    ensures Join(h, l) == (h << 32) | l
  {}

  lemma UpperHalf(x: bv64, y: bv64)
    requires y <= 0xffff_ffff && x == (y << 32) | y
    ensures x >> 32 == y && x & 0xffff_ffff == y
  {}

  lemma HalvesAre(x: bv64, y: bv64)
    requires x >> 32 == y && x & 0xffff_ffff == y
    ensures Halves(x)
  {}

  lemma SameHalves(y: bv64)
    requires y <= 0xffff_ffff
    ensures Halves(Join(y, y))
  {
    hide Halves, Join;
    var x := Join(y, y);
    JoinIs(y, y);
    UpperHalf(x, y);
    HalvesAre(x, y);
  }

  lemma Inverted(x: bv64)
    requires Halves(x)
    ensures Halves(!x)
  {}

  lemma EvenHalves(n: bv64)
    requires Halves(n)
    ensures Halves(Even(n))
  {
    hide Halves;
    Inverted(n);
  }

  /** For the 32-bit form every answer is right. */
  lemma TwinsExactly(lo: bv32)
    ensures Imm13(lo, lo) != FAIL <==> Encodable(Word(lo, lo))
    ensures Imm13(lo, lo) != FAIL ==> Decode(Imm13(lo, lo)) == Some(Word(lo, lo))
  {
    hide Decode, InPeriod, Accepted, Even, Encoding, Halves;
    AnswerExactly(lo, lo);
    if Imm13(lo, lo) != FAIL {
      Refused(Word(lo, lo));
      TwinHalves(lo);
      HalvesInPeriod(Even(Word(lo, lo)));
      EncodableExactly(Word(lo, lo));
    }
  }

  lemma NarrowOr64(w: bv64, xb: bv64)
    requires Width(w) && w < xb <= 64
    ensures Narrow(w)
  {}

  lemma HalvesInPeriod(x: bv64)
    requires Halves(x) && Accepted(x) && x & 1 == 0
    ensures InPeriod(x)
  {
    hide One, Top, Run, Copies, Repeat, Less, Start, Stop, Again, StopAfter, NextAfter, Power, Halves, Ends,
      Crossing, Repeats, Narrow;
    var w, xa, xb := Understood(x);
    if w < xb {
      NarrowOr64(w, xb);
      RunRepeats(w, xa, xb);
      StartEnds(x);
      Crosses(w, xa, xb);
      NoHalves(w, x, One(xa), One(xb));
      assert false;
    }
  }

  // ----- A word that is accepted and encoded wrongly -----

  lemma StraddlingBits()
    ensures Word(0xfff0_0000, 0xfff0_00ff) == 0xfff0_00ff_fff0_0000 &&
      Even(0xfff0_00ff_fff0_0000) == 0xfff0_00ff_fff0_0000
    ensures Start(0xfff0_00ff_fff0_0000) == One(20) && Stop(0xfff0_00ff_fff0_0000) == One(40)
    ensures Again(0xfff0_00ff_fff0_0000) == One(52) && One(20) != 0 && One(40) != 0 && One(52) != 0
    ensures Repeat(Less(One(40), One(20)), Copies(32)) == 0xfff0_00ff_fff0_0000
  {}

  lemma StraddlingPeriod()
    ensures Period(0xfff0_00ff_fff0_0000) == 32 && StopPosition(0xfff0_00ff_fff0_0000) == 40
    ensures Top(Start(0xfff0_00ff_fff0_0000)) == 20 && Accepted(0xfff0_00ff_fff0_0000)
  {
    hide One, Top, Start, Stop, Again, Repeat;
    StraddlingBits();
    TopOne(20);
    TopOne(40);
    TopOne(52);
  }

  lemma StraddlingAnswer()
    ensures Plain(32, 20, 40) == 787 && (0xfff0_00ff_fff0_0000 as bv64) & 1 == 0
  {}

  /** Ones from bit 20 up to bit 40 with a period of 32 bits: the answer is not the encoding of the word. */
  lemma Straddling()
    ensures var n, r := Word(0xfff0_0000, 0xfff0_00ff), Imm13(0xfff0_0000, 0xfff0_00ff);
      n == 0xfff0_00ff_fff0_0000 && r == 787 && !InPeriod(Even(n)) && Decode(r) != Some(n)
  {
    hide Word, Even, Accepted, Period, StopPosition, Start, Top, Decode, Plain, Inverse;
    StraddlingBits();
    StraddlingPeriod();
    StraddlingAnswer();
    AnswerExactly(0xfff0_0000, 0xfff0_00ff);
  }
}
