/** Which tree bin a chunk size belongs to, and which way it turns at each level of the trie. */
module AllocIndex {
  const TWO32 := 0x1_0000_0000
  const TWO40 := 0x100_0000_0000
  const TWO63 := 0x8000_0000_0000_0000
  const TWO64 := 0x1_0000_0000_0000_0000

  function Pow2(n: nat): (p: int)
    ensures p > 0
  {
    if n == 0 then 1 else 2 * Pow2(n - 1)
  }

  lemma {:induction false} Pow2Adds(a: nat, b: nat)
    ensures Pow2(a + b) == Pow2(a) * Pow2(b)
  {
    if a > 0 { Pow2Adds(a - 1, b); }
  }

  lemma {:induction false} Pow2Grows(a: nat, b: nat)
    requires a <= b
    ensures Pow2(a) <= Pow2(b)
  {
    if a < b { Pow2Grows(a, b - 1); }
  }

  /** The highest set bit (lj_fls). */
  function Fls(x: nat): (k: nat)
    requires x > 0
    ensures Pow2(k) <= x < Pow2(k + 1)
  {
    if x == 1 then 0 else Fls(x / 2) + 1
  }

  /** compute_tree_index, with its cast to 32 bits. */
  function TreeIndex(s: nat): (i: nat)
    ensures i < 32
  {
    var x := (s / 256) % TWO32;
    if x == 0 then 0
    else if x > 0xffff then 31
    else
      FlsSmall(x);
      2 * Fls(x) + (s / Pow2(Fls(x) + 7)) % 2
  }

  lemma FlsSmall(x: nat)
    requires 0 < x <= 0xffff
    ensures Fls(x) <= 15
  {
    if Fls(x) > 15 { Pow2Grows(16, Fls(x)); Pow2Is16(); }
  }

  lemma Pow2Is16()
    ensures Pow2(16) == 0x10000 && Pow2(8) == 256
  {
    assert Pow2(8) == 256;
    Pow2Adds(8, 8);
  }

  /** The smallest size of bin `i` (minsize_for_tree_index). */
  function MinSize(i: nat): int {
    Pow2(i / 2 + 8) + (i % 2) * Pow2(i / 2 + 7)
  }

  /** The first size beyond bin `i`; the last bin takes everything above. */
  function Above(i: nat): int {
    if i == 31 then TWO64 else MinSize(i + 1)
  }

  predicate InBin(i: nat, s: nat) { MinSize(i) <= s < Above(i) }

  lemma MinSizeNext(i: nat)
    requires i < 31
    ensures MinSize(i + 1) == MinSize(i) + Pow2(i / 2 + 7)
  {
    if i % 2 == 0 {
      assert (i + 1) / 2 == i / 2;
    } else {
      assert (i + 1) / 2 == i / 2 + 1;
      assert Pow2(i / 2 + 9) == 2 * Pow2(i / 2 + 8);
    }
  }

  lemma DivIs(x: int, q: int, d: int)
    requires d > 0 && q * d <= x < (q + 1) * d
    ensures x / d == q
  {
    var k := x / d - q;
    assert x == (x / d) * d + x % d;
    assert k * d == (x / d) * d - q * d;
    Multiple(k, d);
  }

  lemma Multiple(k: int, d: int)
    requires d > 0
    ensures k >= 1 ==> k * d >= d
    ensures k <= -1 ==> k * d <= -d
  {}

  lemma Pow2Values()
    ensures Pow2(16) == 0x1_0000 && Pow2(22) == 0x40_0000 && Pow2(23) == 0x80_0000 && Pow2(24) == 0x100_0000
  {
    Pow2Is16();
    Pow2Adds(6, 16);
    assert Pow2(6) == 64;
  }

  /** The leading bits of a size fix its bin. */
  lemma LeadingBits(s: nat)
    requires 256 <= s && s / 256 <= 0xffff
    ensures var k, d := Fls(s / 256), Pow2(Fls(s / 256) + 7);
      k <= 15 && 2 * d <= s < 4 * d && TreeIndex(s) == 2 * k + (if s < 3 * d then 0 else 1)
  {
    var x := s / 256;
    assert x == x % TWO32;
    FlsSmall(x);
    var k := Fls(x);
    var d := Pow2(k + 7);
    Pow2Adds(k, 7);
    assert Pow2(7) == 128;
    assert d == 128 * Pow2(k) && Pow2(k + 1) == 2 * Pow2(k);
    if s < 3 * d { DivIs(s, 2, d); } else { DivIs(s, 3, d); }
  }

  lemma EvenSize(k: nat)
    ensures MinSize(2 * k) == Pow2(k + 8)
  {
    hide Pow2;
    assert (2 * k) / 2 == k && (2 * k) % 2 == 0;
  }

  lemma OddSize(k: nat)
    ensures MinSize(2 * k + 1) == Pow2(k + 8) + Pow2(k + 7)
  {
    hide Pow2;
    assert (2 * k + 1) / 2 == k && (2 * k + 1) % 2 == 1;
  }

  lemma Doubled(n: nat)
    ensures Pow2(n + 1) == 2 * Pow2(n)
  {}

  lemma EvenBin(k: nat)
    requires k <= 15
    ensures MinSize(2 * k) == 2 * Pow2(k + 7) && Above(2 * k) == 3 * Pow2(k + 7)
  {
    hide Pow2, MinSize;
    EvenSize(k);
    OddSize(k);
    Doubled(k + 7);
  }

  lemma OddBin(k: nat)
    requires k <= 15
    ensures MinSize(2 * k + 1) == 3 * Pow2(k + 7) && (k < 15 ==> Above(2 * k + 1) == 4 * Pow2(k + 7))
  {
    hide Pow2, MinSize;
    OddSize(k);
    Doubled(k + 7);
    if k < 15 {
      EvenSize(k + 1);
      Doubled(k + 8);
    }
  }

  lemma BinOf(k: nat, b: nat)
    requires k <= 15 && b <= 1
    ensures MinSize(2 * k + b) == Pow2(k + 7) * (2 + b)
    ensures 2 * k + b < 31 ==> Above(2 * k + b) == Pow2(k + 7) * (3 + b)
  {
    hide Pow2, MinSize, Above;
    if b == 0 {
      EvenBin(k);
    } else {
      OddBin(k);
    }
  }

  /** Sizes below 2^40 land in the bin whose interval holds them. */
  lemma IndexRight(s: nat)
    requires 256 <= s < TWO40
    ensures InBin(TreeIndex(s), s)
  {
    if s / 256 > 0xffff {
      assert TreeIndex(s) == 31;
      Pow2Values();
    } else {
      hide TreeIndex, MinSize, Above;
      LeadingBits(s);
      var k, b := Fls(s / 256), if s < 3 * Pow2(Fls(s / 256) + 7) then 0 else 1;
      BinOf(k, b);
      BinTop(s);
    }
  }

  lemma BinTop(s: nat)
    requires s < TWO64
    ensures s < Above(31)
  {}

  lemma {:induction false} BinsAscend(i: nat, j: nat)
    requires i <= j < 32
    ensures MinSize(i) <= MinSize(j)
    ensures i < j ==> Above(i) <= MinSize(j)
  {
    if i < j {
      BinsAscend(i, j - 1);
      MinSizeNext(j - 1);
      if i < j - 1 { MinSizeNext(i); }
    }
  }

  /** The bins are disjoint, so a size has one bin, and bins are ordered by size. */
  lemma BinsOrdered(i: nat, s: nat, j: nat, t: nat)
    requires i < 32 && j < 32 && InBin(i, s) && InBin(j, t)
    ensures i < j ==> s < t
    ensures s <= t ==> i <= j
  {
    if i < j { BinsAscend(i, j); }
    if j < i { BinsAscend(j, i); }
  }

  /** compute_tree_index is monotone below 2^40, and onto: it sends exactly the sizes of
      interval `i` to `i`. */
  lemma IndexMonotone(s: nat, t: nat)
    requires 256 <= s <= t < TWO40
    ensures TreeIndex(s) <= TreeIndex(t)
  {
    IndexRight(s);
    IndexRight(t);
    BinsOrdered(TreeIndex(s), s, TreeIndex(t), t);
  }

  lemma IndexExact(i: nat, s: nat)
    requires i < 32 && 256 <= s < TWO40
    ensures TreeIndex(s) == i <==> InBin(i, s)
  {
    IndexRight(s);
    if InBin(i, s) {
      BinsOrdered(TreeIndex(s), s, i, s);
      BinsOrdered(i, s, TreeIndex(s), s);
    }
  }

  /** The 32 bit cast makes the index wrong for some larger sizes, and exactly for these. */
  lemma IndexBeyond(s: nat)
    requires 256 <= s < TWO64
    ensures InBin(TreeIndex(s), s) <==> s < TWO40 || (s / 256) % TWO32 >= 0xc000
  {
    if s < TWO40 {
      IndexRight(s);
    } else {
      var x := (s / 256) % TWO32;
      Pow2Values();
      BinTop(s);
      if x > 0xffff {
      } else if x == 0 {
        BinsAscend(0, 31);
        LowBin(0, s);
      } else {
        var u := x * 256;
        assert u / 256 == x && u < TWO40;
        LeadingBits(u);
        SameIndex(s, x);
      }
    }
  }

  /** At 2^40 the cast leaves nothing of the size: it lands in the first bin, not in the last. */
  lemma IndexBeyondFirst()
    ensures TreeIndex(TWO40) == 0 && !InBin(0, TWO40) && InBin(31, TWO40)
  {
    Pow2Values();
    BinTop(TWO40);
    LowBin(0, TWO40);
  }

  lemma LowBin(i: nat, s: nat)
    requires i < 31 && s >= TWO40
    ensures !InBin(i, s)
  {
    BinsAscend(i, 31);
    Pow2Values();
  }

  lemma SameIndex(s: nat, x: nat)
    requires TWO40 <= s < TWO64 && x == (s / 256) % TWO32 && 0 < x <= 0xffff
    ensures InBin(TreeIndex(s), s) <==> x >= 0xc000
  {
    FlsSmall(x);
    var k := Fls(x);
    Pow2Grows(0, k);
    Pow2Values();
    if TreeIndex(s) < 31 { LowBin(TreeIndex(s), s); }
    BitBelow(s, k, x);
  }

  /** Bit `k + 7` of a size is bit `k - 1` of the size in units of 256. */
  lemma BitBelow(s: nat, k: nat, x: nat)
    requires 0 < x <= 0xffff && x == (s / 256) % TWO32 && k == Fls(x) <= 15
    ensures TreeIndex(s) == 31 <==> x >= 0xc000
  {
    hide Pow2, MinSize;
    Pow2Values();
    Pow2Fifteen(k);
    var b := s / Pow2(k + 7) % 2;
    assert TreeIndex(s) == 2 * k + b;
    if k == 15 { TopBit(s, x); }
  }

  lemma TopQuotient(s: nat, x: nat, z: nat, r: nat)
    requires s == 256 * x + 0x100_0000_0000 * z + r && r < 256 && 0x8000 <= x <= 0xffff
    ensures s / 0x40_0000 == (if x >= 0xc000 then 3 else 2) + 0x4_0000 * z
  {
    DivIs(s, (if x >= 0xc000 then 3 else 2) + 0x4_0000 * z, 0x40_0000);
  }

  lemma EvenPart(b: nat, z: nat)
    requires b == 2 || b == 3
    ensures (b + 0x4_0000 * z) % 2 == b - 2
  {
    assert b + 0x4_0000 * z == 2 * (0x2_0000 * z + 1) + (b - 2);
  }

  lemma TopBit(s: nat, x: nat)
    requires 0x8000 <= x <= 0xffff && x == (s / 256) % TWO32
    ensures s / 0x40_0000 % 2 == if x >= 0xc000 then 1 else 0
  {
    var u := s / 256;
    var z, r := u / TWO32, s % 256;
    assert s == 256 * u + r && u == x + TWO32 * z;
    TopQuotient(s, x, z, r);
    EvenPart(if x >= 0xc000 then 3 else 2, z);
  }

  lemma Pow2Fifteen(k: nat)
    requires k <= 15
    ensures Pow2(15) == 0x8000 && (k < 15 ==> Pow2(k + 1) <= 0x8000)
  {
    Pow2Values();
    assert Pow2(16) == 2 * Pow2(15);
    if k < 15 { Pow2Grows(k + 1, 15); }
  }

  /** leftshift_for_tree_index. */
  function LeftShift(i: nat): nat
    requires i < 32
  {
    if i == 31 then 0 else 57 - i / 2
  }

  /** The 64 bit word that steers a walk for size `s` in bin `i`, after `d` turns. */
  function Key(i: nat, s: nat, d: nat): (k: nat)
    requires i < 32
    ensures k < TWO64
    decreases d
  {
    if d == 0 then (s * Pow2(LeftShift(i))) % TWO64 else (2 * Key(i, s, d - 1)) % TWO64
  }

  /** The turn at depth `d`: the top bit of the key. */
  function Turn(i: nat, s: nat, d: nat): (b: nat)
    requires i < 32
    ensures b <= 1
  {
    Key(i, s, d) / TWO63
  }

  /** The first key holds the part of the size that the bin leaves open. */
  lemma FirstKey(i: nat, s: nat)
    requires i < 32 && InBin(i, s)
    ensures Key(i, s, 0) == if i == 31 then s else (s - MinSize(i)) * Pow2(LeftShift(i))
  {
    if i < 31 {
      var h, b := i / 2, i % 2;
      var c, e := Pow2(57 - h), Pow2(h + 7);
      Pow2Adds(57 - h, h + 7);
      SixtyFour();
      assert c * e == TWO64;
      BinOf(h, b);
      var r := s - MinSize(i);
      assert 0 <= r < e by { MinSizeNext(i); }
      assert s * c == (2 + b) * TWO64 + r * c by { Spread(s, r, 2 + b, c, e); }
      assert 0 <= r * c < TWO64 by { Below(r, c, e); }
      Remainder(s * c, 2 + b, r * c);
    } else {
      assert s * Pow2(0) == s;
    }
  }

  lemma SixtyFour()
    ensures Pow2(64) == TWO64
  {
    Pow2Values();
    Pow2Adds(16, 16);
    Pow2Adds(32, 32);
  }

  lemma Spread(s: int, r: int, q: int, c: int, e: int)
    requires c * e == TWO64 && s == e * q + r
    ensures s * c == q * TWO64 + r * c
  {
    assert s * c == q * (c * e) + r * c;
  }

  lemma Below(r: int, c: int, e: int)
    requires 0 <= r < e && c > 0 && c * e == TWO64
    ensures 0 <= r * c < TWO64
  {
    assert (e - r) * c > 0;
  }

  lemma Remainder(x: int, q: int, r: int)
    requires x == q * TWO64 + r && 0 <= r < TWO64
    ensures x % TWO64 == r
  {}

  /** While two sizes of a bin turn alike, their keys keep the distance of the sizes, scaled. */
  lemma {:induction false} SameTurns(i: nat, s: nat, t: nat, d: nat)
    requires i < 32 && InBin(i, s) && InBin(i, t)
    requires forall e :: 0 <= e < d ==> Turn(i, s, e) == Turn(i, t, e)
    ensures Key(i, s, d) - Key(i, t, d) == (s - t) * (Pow2(LeftShift(i)) * Pow2(d))
  {
    hide Pow2, InBin, MinSize, LeftShift;
    var c := Pow2(LeftShift(i));
    if d == 0 {
      FirstKey(i, s);
      FirstKey(i, t);
      FirstDistance(i, s, t);
    } else {
      SameTurns(i, s, t, d - 1);
      assert Turn(i, s, d - 1) == Turn(i, t, d - 1);
      Doubles(Key(i, s, d - 1), Key(i, t, d - 1));
      Deeper(s - t, c, d);
    }
  }

  lemma FirstDistance(i: nat, s: nat, t: nat)
    requires i < 32
    ensures var c := Pow2(LeftShift(i));
      && (i < 31 ==> (s - MinSize(i)) * c - (t - MinSize(i)) * c == (s - t) * (c * Pow2(0)))
      && (i == 31 ==> s - t == (s - t) * (c * Pow2(0)))
  {
    var c, m := Pow2(LeftShift(i)), MinSize(i);
    hide MinSize;
    assert (s - m) * c - (t - m) * c == (s - t) * c;
    if i == 31 { assert c == 1; }
  }

  lemma Deeper(x: int, c: int, d: nat)
    requires d > 0
    ensures 2 * (x * (c * Pow2(d - 1))) == x * (c * Pow2(d))
  {
    var p := Pow2(d - 1);
    assert Pow2(d) == 2 * p;
    assert 2 * (x * (c * p)) == x * (c * (2 * p));
  }

  lemma Doubles(a: nat, b: nat)
    requires a < TWO64 && b < TWO64 && a / TWO63 == b / TWO63
    ensures (2 * a) % TWO64 - (2 * b) % TWO64 == 2 * (a - b)
  {
    assert (2 * a) % TWO64 == 2 * a - (a / TWO63) * TWO64;
    assert (2 * b) % TWO64 == 2 * b - (b / TWO63) * TWO64;
  }

  /** Where two sizes of a bin first part ways, the one that turns left is smaller. */
  lemma TurnsOrder(i: nat, s: nat, t: nat, d: nat)
    requires i < 32 && InBin(i, s) && InBin(i, t)
    requires forall e :: 0 <= e < d ==> Turn(i, s, e) == Turn(i, t, e)
    requires Turn(i, s, d) < Turn(i, t, d)
    ensures s < t
  {
    hide Pow2, InBin, LeftShift;
    SameTurns(i, s, t, d);
    Sign(s - t, Pow2(LeftShift(i)), Pow2(d));
  }

  lemma Sign(x: int, c: int, p: int)
    requires c > 0 && p > 0
    ensures x >= 0 ==> x * (c * p) >= 0
  {
    assert c * p > 0;
  }

  /** Two sizes of a bin that turn alike 64 times are equal. */
  lemma TurnsFix(i: nat, s: nat, t: nat)
    requires i < 32 && InBin(i, s) && InBin(i, t)
    requires forall e :: 0 <= e < 64 ==> Turn(i, s, e) == Turn(i, t, e)
    ensures s == t
  {
    SameTurns(i, s, t, 64);
    SixtyFour();
    var c := Pow2(LeftShift(i));
    var m := c * TWO64;
    Scale(c);
    if s != t {
      Multiple(s - t, m);
    }
  }

  lemma Scale(c: int)
    requires c > 0
    ensures c * TWO64 >= TWO64
  {}
}
