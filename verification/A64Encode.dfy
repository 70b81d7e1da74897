/** The encoder meets the decoder: which words it accepts, and that what it answers is decoded to the word. */
module A64Encode {
  import opened A64Imm

  // ----- The fields of an answer -----

  predicate Fields(v: bv32, w: bv64, s: bv64, r: bv64) {
    v < 0x2000 && ElementSize(v) == w && FieldS(v, w) == s && FieldR(v, w) == r
  }

  /** A run of `d = s + 1` ones, rotated by `r`, in an element of `w` bits. */
  predicate Turned(w: bv64, d: bv64, r: bv64) { r < w && 0 < d < w }

  predicate Before(s: bv64, d: bv64) { s == d - 1 }

  lemma Fields64(d: bv64, s: bv64, r: bv64)
    requires Turned(64, d, r) && Before(s, d)
    ensures Fields(Packed(r, Sum(0xfff, d)), 64, s, r)
  {}

  lemma Fields32(d: bv64, s: bv64, r: bv64)
    requires Turned(32, d, r) && Before(s, d)
    ensures Fields(Packed(r, Sum(0xffff_ffff_ffff_ffff, d)), 32, s, r)
  {}

  lemma Fields16(d: bv64, s: bv64, r: bv64)
    requires Turned(16, d, r) && Before(s, d)
    ensures Fields(Packed(r, Sum(31, d)), 16, s, r)
  {}

  lemma Fields8(d: bv64, s: bv64, r: bv64)
    requires Turned(8, d, r) && Before(s, d)
    ensures Fields(Packed(r, Sum(47, d)), 8, s, r)
  {}

  lemma Fields4(d: bv64, s: bv64, r: bv64)
    requires Turned(4, d, r) && Before(s, d)
    ensures Fields(Packed(r, Sum(55, d)), 4, s, r)
  {}

  lemma Fields2(d: bv64, s: bv64, r: bv64)
    requires Turned(2, d, r) && Before(s, d)
    ensures Fields(Packed(r, Sum(59, d)), 2, s, r)
  {}

  lemma Sizes(w: bv64)
    requires Width(w)
    ensures SizeBits(64) == 0xfff && SizeBits(32) == 0xffff_ffff_ffff_ffff && SizeBits(16) == 31
    ensures SizeBits(8) == 47 && SizeBits(4) == 55 && SizeBits(2) == 59
  {}

  lemma AllFields(w: bv64, d: bv64, s: bv64, r: bv64)
    requires Width(w) && Turned(w, d, r) && Before(s, d)
    ensures Fields(Packed(r, Sum(SizeBits(w), d)), w, s, r)
  {
    hide Fields, Packed, Turned, Before, SizeBits, Sum;
    Sizes(w);
    if w == 64 {
      Fields64(d, s, r);
    } else if w == 32 {
      Fields32(d, s, r);
    } else if w == 16 {
      Fields16(d, s, r);
    } else if w == 8 {
      Fields8(d, s, r);
    } else if w == 4 {
      Fields4(d, s, r);
    } else {
      Fields2(d, s, r);
    }
  }

  // ----- The two kinds of element -----

  lemma DecodeFields(v: bv32, w: bv64, s: bv64, r: bv64)
    requires Width(w) && Fields(v, w, s, r) && !Reserved(s, w) && r < w
    ensures Decode(v) == Some(Repeat(Element(s, r, w), Copies(w)))
  {
    hide Element, Repeat, Copies, ElementSize, FieldS, FieldR, Reserved;
  }

  predicate Small(w: bv64, xa: bv64, xb: bv64) { 1 <= xa <= 64 && xa < xb <= 64 && xb <= w <= 64 }

  lemma SmallShape(w: bv64, xa: bv64, xb: bv64)
    requires Shape(w, xa, xb)
    ensures Small(w, xa, xb) && Width(w)
  {}

  lemma AtMost(w: bv64, x: bv64, r: bv64)
    requires x <= 64 && x <= w <= 64 && r == w - x
    ensures r <= 64 && w == x + r
  {}

  lemma PlainForm(w: bv64, xa: bv64, xb: bv64, d: bv64, r: bv64)
    requires Small(w, xa, xb) && d <= 64 && r <= 64 && xb == xa + d && w == xa + r
    ensures 0 < d <= r && Turned(w, d, r)
  {}

  lemma PlainSplits(w: bv64, xa: bv64, xb: bv64, r: bv64)
    requires Small(w, xa, xb) && r == w - xa
    ensures Splits(w, r, xa)
  {}

  lemma InverseForm(w: bv64, xa: bv64, xb: bv64, d: bv64, r: bv64)
    requires Small(w, xa, xb) && r <= 64 && w == xb + r && d == xa + r
    ensures Turned(w, d, r) && r < d
  {}

  lemma InverseSplits(w: bv64, xa: bv64, xb: bv64, r: bv64)
    requires Small(w, xa, xb) && r == w - xb && r > 0
    ensures Splits(w, r, xb)
  {}

  lemma NotReserved(w: bv64, d: bv64, s: bv64, r: bv64)
    requires Turned(w, d, r) && Before(s, d)
    ensures !Reserved(s, w)
  {}

  lemma PlainIs(w: bv64, xa: bv64, xb: bv64, d: bv64, r: bv64)
    requires d == Less(xb, xa) && r == w - xa
    ensures Plain(w, xa, xb) == Packed(r, Sum(SizeBits(w), d))
  {
    hide SizeBits, Packed, Sum, Less;
  }

  lemma InverseIs(w: bv64, xa: bv64, xb: bv64, d: bv64, r: bv64)
    requires r == w - xb && d == Sum(xa, r)
    ensures Inverse(w, xa, xb) == Packed(r, Sum(SizeBits(w), d))
  {
    hide SizeBits, Packed, Sum;
  }

  lemma ElementIs(s: bv64, d: bv64, r: bv64, w: bv64)
    requires Before(s, d) && r < w <= 64
    ensures Element(s, r, w) == RotateRight(Low(d), r, w)
  {
    hide Low, RotateRight;
  }

  lemma RunWith(w: bv64, xa: bv64, xb: bv64, z: bv64)
    requires Shape(w, xa, xb) && Differ(z, Low(xb), Low(xa))
    ensures Run(w, xa, xb) == Repeat(z, Copies(w))
  {
    hide One, Low, Repeat, Copies;
    LessIs(xa, xb, z);
  }

  lemma {:induction false} DecodePlain(w: bv64, xa: bv64, xb: bv64)
    requires Shape(w, xa, xb)
    ensures Decode(Plain(w, xa, xb)) == Some(Run(w, xa, xb))
  {
    hide Low, Run, Repeat, Copies, Splits, Turned, Before, Small, Reserved, Sum, Less, Plain, Packed, Fields, Decode,
      Element, RotateRight,
      SizeBits, Differ, Shape;
    SmallShape(w, xa, xb);
    var d, s, r := PlainNumbers(w, xa, xb);
    PlainIs(w, xa, xb, d, r);
    AllFields(w, d, s, r);
    NotReserved(w, d, s, r);
    PlainElement(w, xa, xb, d, s, r);
    DecodeFields(Plain(w, xa, xb), w, s, r);
  }

  lemma PlainNumbers(w: bv64, xa: bv64, xb: bv64) returns (d: bv64, s: bv64, r: bv64)
    requires Small(w, xa, xb)
    ensures d == Less(xb, xa) && r == w - xa && Before(s, d) && Turned(w, d, r)
    ensures 0 < d <= r && r < w <= 64 && xb == d + xa && Splits(w, r, xa)
  {
    hide Splits, Turned, Small, Before;
    r, d := w - xa, xb - xa;
    PlainLemmas(w, xa, xb, d, r);
    s := OneLess(d);
  }

  lemma OneLess(d: bv64) returns (s: bv64)
    ensures Before(s, d)
  {
    s := d - 1;
  }

  lemma PlainLemmas(w: bv64, xa: bv64, xb: bv64, d: bv64, r: bv64)
    requires Small(w, xa, xb) && d == xb - xa && r == w - xa
    ensures 0 < d <= r && r < w <= 64 && xb == d + xa && Turned(w, d, r) && Splits(w, r, xa)
  {
    hide Splits, Turned;
    AtMost(w, xa, r);
    AtMost(xb, xa, d);
    PlainForm(w, xa, xb, d, r);
    PlainSplits(w, xa, xb, r);
  }

  lemma PlainElement(w: bv64, xa: bv64, xb: bv64, d: bv64, s: bv64, r: bv64)
    requires Shape(w, xa, xb) && Splits(w, r, xa) && 0 < d <= r && r < w <= 64 && xb == d + xa && Before(s, d)
    ensures Repeat(Element(s, r, w), Copies(w)) == Run(w, xa, xb)
  {
    hide Low, Run, Repeat, Copies, Splits, Before, Element, RotateRight, Differ, Shape;
    var z := TheDifference(Low(xb), Low(xa));
    ElementIs(s, d, r, w);
    Rotates(w, xa, xb, d, r, Low(d), z);
    RunWith(w, xa, xb, z);
  }

  lemma InverseLemmas(w: bv64, xa: bv64, xb: bv64, d: bv64, r: bv64)
    requires Small(w, xa, xb) && r == w - xb && d == xa + r
    ensures r < d <= 64 && r < w <= 64 && Turned(w, d, r) && (r > 0 ==> Splits(w, r, xb) && xb < 64)
    ensures r == 0 ==> xb == w && d == xa
  {
    hide Splits, Turned;
    AtMost(w, xb, r);
    InverseForm(w, xa, xb, d, r);
    if r > 0 {
      InverseSplits(w, xa, xb, r);
    }
  }

  lemma Back(d: bv64, xa: bv64, r: bv64)
    requires xa <= 64 && r <= 64 && d == xa + r
    ensures xa == d - r
  {}

  lemma Wraps(w: bv64, xa: bv64, xb: bv64, d: bv64, r: bv64, f: bv64)
    requires xa <= 64 && xb <= 64 && r <= 64 && w == xb + r && d == xa + r && f == d + xb
    ensures w <= f
  {}

  lemma Unturned(w: bv64, y: bv64)
    requires 0 < w <= 64
    ensures RotateRight(y, 0, w) == y
  {}

  lemma Minus(m: bv64, t: bv64, z: bv64)
    requires Inside(t, m) && z == m ^ t
    ensures Opposite(t, z, m)
  {
    hide Inside, Sum;
    Complementary(m, t, z);
    RestInside(m, t, z);
    InsideLess(t, m);
    InsideLess(z, m);
    Disjoint(z, t, m);
  }

  lemma Complementary(m: bv64, t: bv64, z: bv64)
    requires Inside(t, m) && z == m ^ t
    ensures z & t == 0 && z | t == m
  {}

  lemma InsideLess(t: bv64, m: bv64)
    requires Inside(t, m)
    ensures t <= m
  {}

  lemma RestInside(m: bv64, t: bv64, z: bv64)
    requires Inside(t, m) && z == m ^ t
    ensures Inside(z, m)
  {}

  lemma Disjoint(x: bv64, y: bv64, m: bv64)
    requires x & y == 0 && x | y == m
    ensures Sum(x, y) == m
  {
    assert x | y == x + y;
  }

  lemma Opposes(m: bv64, a: bv64, b: bv64, t: bv64, z: bv64)
    requires Inside(a, b) && Inside(b, m) && Differ(t, b, a) && Differ(z, m, t)
    ensures Opposite(t, z, m)
  {
    hide Opposite;
    Minus(m, t, z);
  }

  lemma FullRun(m: bv64, a: bv64, t: bv64, z: bv64)
    requires Differ(t, m, a) && Differ(z, m, t)
    ensures z == a
  {}

  lemma InverseTurn(w: bv64, xa: bv64, xb: bv64, d: bv64, r: bv64, t: bv64, z: bv64)
    requires Shape(w, xa, xb) && Small(w, xa, xb) && r == w - xb && d == xa + r && r < w <= 64
    requires Differ(t, Low(xb), Low(xa)) && Differ(z, Low(w), t)
    ensures RotateRight(Low(d), r, w) == z
  {
    hide Low, Splits, Small, Turned, RotateRight, Differ, Shape;
    InverseLemmas(w, xa, xb, d, r);
    if r == 0 {
      Unturned(w, Low(d));
      FullRun(Low(w), Low(xa), t, z);
    } else {
      var f := d + xb;
      InverseBounds(w, xa, xb, d, r, f);
      InverseRotates(w, xa, xb, d, r, f, Low(d), t, z);
    }
  }

  lemma InverseBounds(w: bv64, xa: bv64, xb: bv64, d: bv64, r: bv64, f: bv64)
    requires Small(w, xa, xb) && r == w - xb && d == xa + r && f == d + xb
    ensures xa == d - r && w <= f
  {
    AtMost(w, xb, r);
    Back(d, xa, r);
    Wraps(w, xa, xb, d, r, f);
  }

  lemma InverseElement(w: bv64, xa: bv64, xb: bv64, d: bv64, s: bv64, r: bv64)
    requires Shape(w, xa, xb) && Small(w, xa, xb) && r == w - xb && d == xa + r && Before(s, d) && r < w <= 64
    ensures Repeat(Element(s, r, w), Copies(w)) == !Run(w, xa, xb)
  {
    hide Low, Run, Repeat, Copies, Splits, Small, Turned, Before, Element, RotateRight, Differ, Shape;
    var t := TheDifference(Low(xb), Low(xa));
    var z := TheDifference(Low(w), t);
    ElementIs(s, d, r, w);
    InverseTurn(w, xa, xb, d, r, t, z);
    InverseRun(w, xa, xb, t, z);
  }

  lemma InverseRun(w: bv64, xa: bv64, xb: bv64, t: bv64, z: bv64)
    requires Shape(w, xa, xb) && Differ(t, Low(xb), Low(xa)) && Differ(z, Low(w), t)
    ensures Repeat(z, Copies(w)) == !Run(w, xa, xb)
  {
    hide Low, Run, Repeat, Copies, Inside, Opposite, Differ;
    Nested(xa, xb);
    Nested(xb, w);
    Opposes(Low(w), Low(xa), Low(xb), t, z);
    Flipped(w, t, z);
    RunWith(w, xa, xb, t);
  }

  lemma SumIs(a: bv64, b: bv64)
    ensures Sum(a, b) == a + b
  {}

  lemma InverseNumbers(w: bv64, xa: bv64, xb: bv64) returns (d: bv64, s: bv64, r: bv64)
    requires Small(w, xa, xb)
    ensures r == w - xb && d == Sum(xa, r) && d == xa + r && Before(s, d) && r < w <= 64 && Turned(w, d, r)
  {
    hide Splits, Turned, Small, Before, Sum;
    r := w - xb;
    d := xa + r;
    SumIs(xa, r);
    InverseLemmas(w, xa, xb, d, r);
    s := OneLess(d);
  }

  lemma DecodeInverse(w: bv64, xa: bv64, xb: bv64)
    requires Shape(w, xa, xb)
    ensures Decode(Inverse(w, xa, xb)) == Some(!Run(w, xa, xb))
  {
    hide Low, Run, Repeat, Copies, Splits, Turned, Before, Small, Reserved, Sum, Inverse, Packed, Fields, Decode,
      Element, RotateRight,
      SizeBits, Differ, Shape;
    SmallShape(w, xa, xb);
    var d, s, r := InverseNumbers(w, xa, xb);
    InverseIs(w, xa, xb, d, r);
    AllFields(w, d, s, r);
    NotReserved(w, d, s, r);
    InverseElement(w, xa, xb, d, s, r);
    DecodeFields(Inverse(w, xa, xb), w, s, r);
  }
}
