/** Where the free chunks of a segment are kept: each is the top chunk, the designated victim, or in
    its own bin. */
module AllocPlaces {
  import opened AllocIndex
  import opened AllocWords
  import opened AllocSmall
  import opened AllocTiles
  import opened AllocTrie

  const MIN_LARGE_SIZE := 256

  /** The large chunks in tree bins, the small ones with their bins, the top chunk and the
      designated victim (0 if there is none). */
  datatype Places = Places(own: set<int>, bin: map<int, int>, top: int, topsize: int, dv: int, dvsize: int)

  /** A chunk that is neither in use nor kept apart. */
  predicate Spare(t: Tiles, s: Places, x: int) {
    x in t.size && x !in t.used && x != s.top && x != s.dv
  }

  /** A free chunk has a place; `loose` are those that are on their way. */
  predicate Kept1(t: Tiles, s: Places, loose: set<int>, x: int) {
    x in t.size && x !in t.used ==> x == s.top || x == s.dv || x in loose || x in s.own || x in s.bin
  }

  predicate LargeAt(t: Tiles, s: Places, loose: set<int>, x: int) {
    Spare(t, s, x) && x !in loose && t.size[x] >= MIN_LARGE_SIZE
  }

  predicate SmallAt(t: Tiles, s: Places, loose: set<int>, x: int)
    requires x in s.bin
  {
    Spare(t, s, x) && x !in loose && MIN_CHUNK_SIZE <= t.size[x] < MIN_LARGE_SIZE && s.bin[x] == t.size[x] / 8
  }

  predicate VictimAt(t: Tiles, s: Places) {
    if s.dv == 0 then s.dvsize == 0
    else s.dv in t.size && s.dv !in t.used && s.dv != s.top && s.dvsize == t.size[s.dv]
  }

  /** Every free chunk is in exactly one place. */
  ghost predicate Placed(t: Tiles, hi: int, s: Places, loose: set<int>) {
    && s.top in t.size && s.top !in t.used && s.top !in loose && Next(t, s.top) == hi && s.topsize == t.size[s.top]
    && (forall x :: x in loose ==> x in t.size && x !in t.used)
    && (forall x {:trigger Kept1(t, s, loose, x)} :: Kept1(t, s, loose, x))
    && (forall x :: x in s.own ==> LargeAt(t, s, loose, x))
    && (forall x :: x in s.bin ==> SmallAt(t, s, loose, x))
    && (s.dv in loose || VictimAt(t, s))
  }

  /** A chunk leaves its bin. */
  lemma Loosen(t: Tiles, hi: int, s: Places, loose: set<int>, x: int)
    requires Placed(t, hi, s, loose) && (x in s.own || x in s.bin)
    ensures Placed(t, hi, s.(own := s.own - {x}, bin := s.bin - {x}), loose + {x})
    ensures x in s.own <==> t.size[x] >= MIN_LARGE_SIZE
    ensures x in s.bin <==> t.size[x] < MIN_LARGE_SIZE
    ensures x != s.dv && x != s.top && x in t.size && x !in t.used
  {
    var s', loose' := s.(own := s.own - {x}, bin := s.bin - {x}), loose + {x};
    assert x in s.own ==> LargeAt(t, s, loose, x);
    assert x in s.bin ==> SmallAt(t, s, loose, x);
    forall y ensures Kept1(t, s', loose', y) { assert Kept1(t, s, loose, y); }
    forall y | y in s'.own ensures LargeAt(t, s', loose', y) { assert LargeAt(t, s, loose, y); }
    forall y | y in s'.bin ensures SmallAt(t, s', loose', y) { assert SmallAt(t, s, loose, y); }
  }

  /** The victim is on its way. */
  lemma LoosenVictim(t: Tiles, hi: int, s: Places, loose: set<int>)
    requires Placed(t, hi, s, loose) && s.dv != 0 && s.dv !in loose
    ensures Placed(t, hi, s, loose + {s.dv}) && VictimAt(t, s) && s.dv !in s.own && s.dv !in s.bin
  {
    var loose' := loose + {s.dv};
    forall y ensures Kept1(t, s, loose', y) { assert Kept1(t, s, loose, y); }
    forall y | y in s.own ensures LargeAt(t, s, loose', y) { assert LargeAt(t, s, loose, y); }
    forall y | y in s.bin ensures SmallAt(t, s, loose', y) { assert SmallAt(t, s, loose, y); }
    assert s.dv in s.own ==> LargeAt(t, s, loose, s.dv);
    assert s.dv in s.bin ==> SmallAt(t, s, loose, s.dv);
  }

  /** A large chunk comes into its bin. */
  lemma PutLarge(t: Tiles, hi: int, s: Places, x: int)
    requires Placed(t, hi, s, {x}) && x != s.dv && t.size[x] >= MIN_LARGE_SIZE
    ensures Placed(t, hi, s.(own := s.own + {x}), {})
    ensures x !in s.own && x !in s.bin
  {
    var s' := s.(own := s.own + {x});
    forall y ensures Kept1(t, s', {}, y) { assert Kept1(t, s, {x}, y); }
    forall y | y in s'.own ensures LargeAt(t, s', {}, y) { if y != x { assert LargeAt(t, s, {x}, y); } }
    forall y | y in s'.bin ensures SmallAt(t, s', {}, y) { assert SmallAt(t, s, {x}, y); }
    assert x in s.own ==> LargeAt(t, s, {x}, x);
    assert x in s.bin ==> SmallAt(t, s, {x}, x);
  }

  /** A small chunk comes into its bin. */
  lemma PutSmall(t: Tiles, hi: int, s: Places, x: int)
    requires Placed(t, hi, s, {x}) && x != s.dv && MIN_CHUNK_SIZE <= t.size[x] < MIN_LARGE_SIZE
    ensures Placed(t, hi, s.(bin := s.bin[x := t.size[x] / 8]), {})
    ensures x !in s.own && x !in s.bin
  {
    var s' := s.(bin := s.bin[x := t.size[x] / 8]);
    forall y ensures Kept1(t, s', {}, y) { assert Kept1(t, s, {x}, y); }
    forall y | y in s'.own ensures LargeAt(t, s', {}, y) { assert LargeAt(t, s, {x}, y); }
    forall y | y in s'.bin ensures SmallAt(t, s', {}, y) { if y != x { assert SmallAt(t, s, {x}, y); } }
    assert x in s.own ==> LargeAt(t, s, {x}, x);
    assert x in s.bin ==> SmallAt(t, s, {x}, x);
  }

  /** A loose chunk becomes the victim, when there is none or the victim itself is loose. */
  lemma PutVictim(t: Tiles, hi: int, s: Places, x: int)
    requires Placed(t, hi, s, {x}) && 0 !in t.size && (s.dv == 0 || s.dv == x)
    ensures Placed(t, hi, s.(dv := x, dvsize := t.size[x]), {})
  {
    var s' := s.(dv := x, dvsize := t.size[x]);
    forall y ensures Kept1(t, s', {}, y) { assert Kept1(t, s, {x}, y); }
    forall y | y in s'.own ensures LargeAt(t, s', {}, y) { assert LargeAt(t, s, {x}, y); }
    forall y | y in s'.bin ensures SmallAt(t, s', {}, y) { assert SmallAt(t, s, {x}, y); }
  }

  /** The victim moves to the loose chunks when another takes over. */
  lemma SwapVictim(t: Tiles, hi: int, s: Places, x: int)
    requires Placed(t, hi, s, {x}) && x != 0 && s.dv != x && s.dv != 0
    ensures Placed(t, hi, s.(dv := x, dvsize := t.size[x]), {s.dv}) && VictimAt(t, s)
    ensures s.dv !in s.own && s.dv !in s.bin
  {
    var s' := s.(dv := x, dvsize := t.size[x]);
    forall y ensures Kept1(t, s', {s.dv}, y) { assert Kept1(t, s, {x}, y); }
    forall y | y in s'.own ensures LargeAt(t, s', {s.dv}, y) { assert LargeAt(t, s, {x}, y); }
    forall y | y in s'.bin ensures SmallAt(t, s', {s.dv}, y) { assert SmallAt(t, s, {x}, y); }
    assert s.dv in s.own ==> LargeAt(t, s, {x}, s.dv);
    assert s.dv in s.bin ==> SmallAt(t, s, {x}, s.dv);
  }

  /** A loose chunk is taken into use; if it was the victim there is none now. */
  lemma PlaceTaken(t: Tiles, hi: int, s: Places, x: int)
    requires Placed(t, hi, s, {x}) && 0 !in t.size && Next(t, x) != hi
    ensures var s' := if s.dv == x then s.(dv := 0, dvsize := 0) else s;
      Placed(Taken(t, x), hi, s', {})
  {
    var t', s' := Taken(t, x), if s.dv == x then s.(dv := 0, dvsize := 0) else s;
    forall y ensures Kept1(t', s', {}, y) { assert Kept1(t, s, {x}, y); }
    forall y | y in s'.own ensures LargeAt(t', s', {}, y) { assert LargeAt(t, s, {x}, y); }
    forall y | y in s'.bin ensures SmallAt(t', s', {}, y) { assert SmallAt(t, s, {x}, y); }
  }

  /** The front of a loose chunk is taken into use; the rest is loose. */
  lemma PlaceSplit(t: Tiles, lo: int, hi: int, s: Places, x: int, nb: int)
    requires Tiling(t, lo, hi) && Placed(t, hi, s, {x}) && 0 < nb < t.size[x] && x + nb !in t.size && x != 0 && lo > 0
    ensures s.dv != x ==> Placed(Split(t, x, nb), hi, s, {x + nb}) && s.dv != x + nb
    ensures s.dv == x ==> Placed(Split(t, x, nb), hi, s.(dv := x + nb, dvsize := t.size[x] - nb), {})
  {
    hide Tiling;
    Lowest(t, lo, hi, x);
    var r := x + nb;
    var t', s' := Split(t, x, nb), if s.dv == x then s.(dv := r, dvsize := t.size[x] - nb) else s;
    var loose' := if s.dv == x then {} else {r};
    forall y ensures Kept1(t', s', loose', y) { assert Kept1(t, s, {x}, y); }
    forall y | y in s'.own ensures LargeAt(t', s', loose', y) { assert LargeAt(t, s, {x}, y); }
    forall y | y in s'.bin ensures SmallAt(t', s', loose', y) { assert SmallAt(t, s, {x}, y); }
  }

  /** The front of the top chunk is taken into use. */
  lemma PlaceTop(t: Tiles, hi: int, s: Places, nb: int)
    requires Placed(t, hi, s, {}) && 0 < nb < s.topsize && s.top + nb !in t.size && t.used <= t.size.Keys
    requires s.dv != s.top + nb
    ensures Placed(Split(t, s.top, nb), hi, s.(top := s.top + nb, topsize := s.topsize - nb), {})
  {
    var t', s' := Split(t, s.top, nb), s.(top := s.top + nb, topsize := s.topsize - nb);
    forall y ensures Kept1(t', s', {}, y) { assert Kept1(t, s, {}, y); }
    forall y | y in s'.own ensures LargeAt(t', s', {}, y) { assert LargeAt(t, s, {}, y); }
    forall y | y in s'.bin ensures SmallAt(t', s', {}, y) { assert SmallAt(t, s, {}, y); }
  }

  /** All free chunks of the stretch but the top chunk are on their way. */
  predicate Gathered(t: Tiles, top: int, loose: set<int>, p: int, n: int) {
    && (forall x :: x in loose ==> p <= x < p + n)
    && (forall x :: x in t.size && x !in t.used && p <= x < p + n && x != top ==> x in loose)
  }

  /** A stretch becomes one free chunk; `top` is not in it. */
  lemma PlaceMerged(t: Tiles, lo: int, hi: int, s: Places, loose: set<int>, p: int, n: int)
    requires Tiling(t, lo, hi) && Stretch(t, hi, p, n) && p + n != hi && lo > 0
    requires Placed(t, hi, s, loose) && Gathered(t, s.top, loose, p, n)
    requires s.dv in loose ==> s.dv == p
    ensures Placed(Merged(t, p, n), hi, s, {p}) && s.top >= p + n
    ensures p != 0
  {
    hide Tiling;
    Lowest(t, lo, hi, p);
    var t' := Merged(t, p, n);
    LastTop(t, lo, hi, s.top, p, n);
    forall y ensures Kept1(t', s, {p}, y) { assert Kept1(t, s, loose, y); }
    forall y | y in s.own ensures LargeAt(t', s, {p}, y) { assert LargeAt(t, s, loose, y); }
    forall y | y in s.bin ensures SmallAt(t', s, {p}, y) { assert SmallAt(t, s, loose, y); }
    At(t, lo, hi, p);
  }

  lemma LastTop(t: Tiles, lo: int, hi: int, top: int, p: int, n: int)
    requires Tiling(t, lo, hi) && Stretch(t, hi, p, n) && p + n != hi && top in t.size && Next(t, top) == hi
    ensures top >= p + n
  {
    if top != p + n { Disjoint(t, lo, hi, top, p + n); }
    At(t, lo, hi, p + n);
  }

  /** The same when the victim in the stretch is to be replaced by the merged chunk. */
  lemma PlaceVictimMerged(t: Tiles, lo: int, hi: int, s: Places, loose: set<int>, p: int, n: int)
    requires Tiling(t, lo, hi) && Stretch(t, hi, p, n) && p + n != hi && lo > 0
    requires Placed(t, hi, s, loose) && Gathered(t, s.top, loose, p, n) && s.dv in loose
    ensures Placed(Merged(t, p, n), hi, s.(dv := p, dvsize := n), {}) && s.top >= p + n
  {
    hide Tiling;
    Lowest(t, lo, hi, p);
    var t', s' := Merged(t, p, n), s.(dv := p, dvsize := n);
    LastTop(t, lo, hi, s.top, p, n);
    forall y ensures Kept1(t', s', {}, y) { assert Kept1(t, s, loose, y); }
    forall y | y in s'.own ensures LargeAt(t', s', {}, y) { assert LargeAt(t, s, loose, y); }
    forall y | y in s'.bin ensures SmallAt(t', s', {}, y) { assert SmallAt(t, s, loose, y); }
    At(t, lo, hi, p);
  }

  /** A stretch up to the end becomes the top chunk. */
  lemma PlaceTopMerged(t: Tiles, lo: int, hi: int, s: Places, loose: set<int>, p: int)
    requires Tiling(t, lo, hi) && Stretch(t, hi, p, hi - p) && lo > 0
    requires Placed(t, hi, s, loose) && Gathered(t, s.top, loose, p, hi - p)
    requires s.dv in loose ==> s.dv == p
    ensures var s' := s.(top := p, topsize := hi - p);
      Placed(Merged(t, p, hi - p), hi, if s.dv == p then s'.(dv := 0, dvsize := 0) else s', {})
  {
    hide Tiling;
    Lowest(t, lo, hi, p);
    End(t, lo, hi);
    var t' := Merged(t, p, hi - p);
    var s1 := s.(top := p, topsize := hi - p);
    var s' := if s.dv == p then s1.(dv := 0, dvsize := 0) else s1;
    At(t, lo, hi, s.top);
    TopInside(t, lo, hi, s.top, p);
    forall y ensures Kept1(t', s', {}, y) { assert Kept1(t, s, loose, y); if y in t.size { At(t, lo, hi, y); } }
    forall y | y in s'.own ensures LargeAt(t', s', {}, y) { assert LargeAt(t, s, loose, y); At(t, lo, hi, y); }
    forall y | y in s'.bin ensures SmallAt(t', s', {}, y) { assert SmallAt(t, s, loose, y); At(t, lo, hi, y); }
    if s.dv in t.size { At(t, lo, hi, s.dv); }
  }

  lemma TopInside(t: Tiles, lo: int, hi: int, top: int, p: int)
    requires Tiling(t, lo, hi) && top in t.size && Next(t, top) == hi && p in t.size
    ensures p <= top
  {
    if p != top { Disjoint(t, lo, hi, top, p); }
    At(t, lo, hi, p);
  }

  /** Cutting a chunk in use in two changes no place. */
  lemma PlaceCut(t: Tiles, hi: int, s: Places, p: int, nb: int)
    requires Placed(t, hi, s, {}) && p in t.used && p in t.size && p + nb !in t.size && s.dv != p + nb
    ensures Placed(Cut(t, p, nb), hi, s, {})
  {
    var t' := Cut(t, p, nb);
    forall y ensures Kept1(t', s, {}, y) { assert Kept1(t, s, {}, y); }
    forall y | y in s.own ensures LargeAt(t', s, {}, y) { assert LargeAt(t, s, {}, y); }
    forall y | y in s.bin ensures SmallAt(t', s, {}, y) { assert SmallAt(t, s, {}, y); }
  }

  /** A chunk in use grows into the top chunk. */
  lemma PlaceGrown(t: Tiles, lo: int, hi: int, s: Places, p: int, nb: int)
    requires Tiling(t, lo, hi) && Placed(t, hi, s, {}) && p in t.used && p in t.size && Next(t, p) == s.top && lo > 0
    requires t.size[p] < nb < hi - p
    ensures Placed(Grown(t, p, nb, hi), hi, s.(top := p + nb, topsize := hi - (p + nb)), {})
  {
    hide Tiling;
    var t', s' := Grown(t, p, nb, hi), s.(top := p + nb, topsize := hi - (p + nb));
    Inside(t, lo, hi, s.top, p + nb);
    At(t, lo, hi, p);
    Lowest(t, lo, hi, p);
    forall y ensures Kept1(t', s', {}, y) { assert Kept1(t, s, {}, y); }
    forall y | y in s'.own ensures LargeAt(t', s', {}, y) { assert LargeAt(t, s, {}, y); }
    forall y | y in s'.bin ensures SmallAt(t', s', {}, y) { assert SmallAt(t, s, {}, y); }
  }

  /** The binned chunks are free chunks of the segment; the headers lie below it. */
  predicate Binned(t: Tiles, bins: int, lo: int, own: set<int>, links: set<int>) {
    && Header(bins, 31) + 32 <= lo
    && (forall x :: x in own ==> x in t.size && x !in t.used && t.size[x] >= MIN_LARGE_SIZE && x !in links)
    && (forall x :: x in links ==>
          x in Headers(bins) || (x in t.size && x !in t.used && t.size[x] >= MIN_CHUNK_SIZE))
  }

  lemma PlacedBinned(t: Tiles, lo: int, hi: int, s: Places, loose: set<int>, bins: int)
    requires Placed(t, hi, s, loose) && Header(bins, 31) + 32 <= lo && Tiling(t, lo, hi)
    ensures Binned(t, bins, lo, s.own, Headers(bins) + s.bin.Keys)
  {
    forall x | x in s.own
      ensures x in t.size && x !in t.used && t.size[x] >= MIN_LARGE_SIZE && x !in Headers(bins) + s.bin.Keys
    {
      assert LargeAt(t, s, loose, x);
      assert x in s.bin ==> SmallAt(t, s, loose, x);
      At(t, lo, hi, x);
    }
    forall x | x in s.bin ensures x in t.size && x !in t.used && t.size[x] >= MIN_CHUNK_SIZE {
      assert SmallAt(t, s, loose, x);
    }
  }

  /** Chunks are far enough from each other for their fields. */
  lemma BinnedApart(t: Tiles, lo: int, hi: int, bins: int, own: set<int>, links: set<int>)
    requires Tiling(t, lo, hi) && Binned(t, bins, lo, own, links)
    ensures Apart(own, links)
  {
    forall a, b | a in own && b in own && a != b ensures FarTree(a, b) { Disjoint(t, lo, hi, a, b); }
    forall a, b | a in own && b in links ensures FarLink(a, b) {
      At(t, lo, hi, a);
      if b !in Headers(bins) { Disjoint(t, lo, hi, a, b); }
    }
    forall a, b | a in links && b in links && a != b ensures FarLinks(a, b) {
      if a in t.size { At(t, lo, hi, a); }
      if b in t.size { At(t, lo, hi, b); }
      if a !in Headers(bins) && b !in Headers(bins) { Disjoint(t, lo, hi, a, b); }
    }
  }

  /** No free chunk has its link or tree words at `a`. */
  predicate Solid(t: Tiles, p: int, a: int) {
    p in t.size && p !in t.used ==> a <= p + HEAD || a >= Next(t, p)
  }

  lemma SolidOutside(t: Tiles, lo: int, bins: int, own: set<int>, links: set<int>, a: int)
    requires Binned(t, bins, lo, own, links) && lo <= a
    requires forall p :: Solid(t, p, a)
    ensures Outside(own, links, a)
    ensures Outside(own, {}, a) && Outside({}, links, a)
  {
    forall n | n in own ensures a < n + FD || n + 64 <= a { assert Solid(t, n, a); }
    forall n | n in links ensures a < n + FD || n + 32 <= a { assert Solid(t, n, a); }
  }

  lemma TagSolid(t: Tiles, lo: int, hi: int, q: int, p: int)
    requires Tiling(t, lo, hi) && q in t.size
    ensures Solid(t, p, q) && Solid(t, p, q + HEAD)
  {
    At(t, lo, hi, q);
    if p in t.size && p != q { Disjoint(t, lo, hi, p, q); }
  }

  lemma DataSolid(t: Tiles, lo: int, hi: int, u: int, a: int, p: int)
    requires Tiling(t, lo, hi) && u in t.used && u in t.size && u + FD <= a <= Next(t, u)
    ensures Solid(t, p, a)
  {
    if p in t.size && p != u { Disjoint(t, lo, hi, p, u); }
  }

  /** The bytes that the users of the chunks `keep` may use are as before. */
  ghost predicate DataKept(m: map<int, int>, m': map<int, int>, t: Tiles, keep: set<int>) {
    && m'.Keys == m.Keys
    && forall u, a :: u in keep && u in t.size && a in m && u + FD <= a <= Next(t, u) ==> m'[a] == m[a]
  }

  /** Work on the bins changes neither tags nor data. */
  lemma BinsOnly(m: map<int, int>, m': map<int, int>, t: Tiles, lo: int, hi: int, bins: int,
                 own: set<int>, links: set<int>, own0: set<int>, links0: set<int>)
    requires Tags(m, t, lo, hi) && Binned(t, bins, lo, own, links) && Kept(m, m', own0, links0)
    requires (own0 == own && links0 == {}) || (own0 == {} && links0 == links)
    ensures Tags(m', t, lo, hi) && DataKept(m, m', t, t.used)
  {
    hide Tiling, Binned, Kept, Outside;
    forall p | p in t.size
      ensures p + HEAD in m' && (p + HEAD in m ==> m'[p + HEAD] == m[p + HEAD])
      ensures p in m && p !in t.pin ==> p in m' && m'[p] == m[p]
    {
      assert Tagged(m, t, p);
      At(t, lo, hi, p);
      forall q ensures Solid(t, q, p) { TagSolid(t, lo, hi, p, q); }
      var a := p + HEAD;
      forall q ensures Solid(t, q, a) { TagSolid(t, lo, hi, p, q); }
      SolidOutside(t, lo, bins, own, links, p);
      SolidOutside(t, lo, bins, own, links, a);
      KeptAt(m, m', own0, links0, p);
      KeptAt(m, m', own0, links0, a);
    }
    TagsFrame(m, m', t, lo, hi);
    forall u, a | u in t.used && u in t.size && a in m && u + FD <= a <= Next(t, u)
      ensures m'.Keys == m.Keys && m'[a] == m[a] {
      At(t, lo, hi, u);
      forall q ensures Solid(t, q, a) { DataSolid(t, lo, hi, u, a, q); }
      SolidOutside(t, lo, bins, own, links, a);
      KeptAt(m, m', own0, links0, a);
    }
    KeptAt(m, m', own0, links0, 0);
  }

  lemma KeptAt(m: map<int, int>, m': map<int, int>, own: set<int>, links: set<int>, a: int)
    requires Kept(m, m', own, links)
    ensures m'.Keys == m.Keys && (a in m && Outside(own, links, a) ==> m'[a] == m[a])
  {}

  /** The addresses make sense and all words are there. */
  ghost predicate Ground(m: map<int, int>, bins: int, lo: int, hi: int) {
    && bins > 0 && bins % 8 == 0 && Header(bins, 31) + 32 <= lo && lo < hi && hi - lo < TWO40
    && forall a :: bins <= a <= hi + HEAD && a % 8 == 0 ==> a in m
  }

  lemma GroundKept(m: map<int, int>, m': map<int, int>, bins: int, lo: int, hi: int)
    requires Ground(m, bins, lo, hi) && m'.Keys == m.Keys
    ensures Ground(m', bins, lo, hi)
  {}

  lemma DataSame(m: map<int, int>, t: Tiles, keep: set<int>)
    ensures DataKept(m, m, t, keep)
  {}

  lemma DataTrans(m: map<int, int>, m1: map<int, int>, m2: map<int, int>, t: Tiles, keep: set<int>)
    requires DataKept(m, m1, t, keep) && DataKept(m1, m2, t, keep)
    ensures DataKept(m, m2, t, keep)
  {}

  lemma BinAt(t: Tiles, hi: int, s: Places, loose: set<int>, x: int)
    requires Placed(t, hi, s, loose) && x in s.bin
    ensures x in t.size && s.bin[x] == t.size[x] / 8
  {
    assert SmallAt(t, s, loose, x);
  }

  /** Address `a` is no field of a chunk in the bins. */
  predicate OffFields(own: set<int>, links: set<int>, a: int) {
    && (forall n :: n in own ==> a < n + HEAD || n + 64 <= a)
    && (forall n :: n in links ==> a < n + FD || n + 32 <= a)
  }

  lemma AgreesFrame(m: map<int, int>, m': map<int, int>, h: Heap, own: set<int>, links: set<int>)
    requires Agrees(m, h, own, links) && m'.Keys == m.Keys
    requires forall a :: a in m ==> m'[a] == m[a] || OffFields(own, links, a)
    ensures Agrees(m', h, own, links)
  {
    forall n | n in own ensures TreeWords(m', h, n) { assert TreeWords(m, h, n); }
    forall n | n in links ensures LinkWords(m', h, n) { assert LinkWords(m, h, n); }
  }

  /** From `p` up to `e` whole chunks that are not in the bins. */
  predicate Unbinned(t: Tiles, hi: int, own: set<int>, links: set<int>, p: int, e: int) {
    && p in t.size && (e == hi || e in t.size) && p < e
    && (forall n :: n in own ==> !(p <= n < e))
    && (forall n :: n in links ==> !(p <= n < e))
  }

  lemma OffStretch(t: Tiles, lo: int, hi: int, bins: int, own: set<int>, links: set<int>, p: int, e: int, a: int)
    requires Tiling(t, lo, hi) && Binned(t, bins, lo, own, links) && Unbinned(t, hi, own, links, p, e)
    requires p + HEAD <= a <= e
    ensures OffFields(own, links, a)
  {
    At(t, lo, hi, p);
    forall n | n in own ensures a < n + HEAD || n + 64 <= a {
      At(t, lo, hi, n);
      Disjoint(t, lo, hi, n, p);
    }
    forall n | n in links ensures a < n + FD || n + 32 <= a {
      if n in t.size {
        At(t, lo, hi, n);
        Disjoint(t, lo, hi, n, p);
      }
    }
  }

  lemma OffHead(t: Tiles, lo: int, hi: int, bins: int, own: set<int>, links: set<int>, q: int)
    requires Tiling(t, lo, hi) && Binned(t, bins, lo, own, links) && q in t.size && q !in own
    ensures OffFields(own, links, q + HEAD)
  {
    At(t, lo, hi, q);
    forall n | n in own ensures q + HEAD < n + HEAD || n + 64 <= q + HEAD {
      At(t, lo, hi, n);
      Disjoint(t, lo, hi, n, q);
    }
    forall n | n in links ensures q + HEAD < n + FD || n + 32 <= q + HEAD {
      if n in t.size && n != q {
        At(t, lo, hi, n);
        Disjoint(t, lo, hi, n, q);
      }
    }
  }

  /** Only words of the chunks from `p` up to `e`, its foot and the head of `q` have changed. */
  ghost predicate Within(m: map<int, int>, m': map<int, int>, p: int, e: int, q: int) {
    && m'.Keys == m.Keys
    && forall a :: a in m && !(p + HEAD <= a <= e) && a != q + HEAD ==> m'[a] == m[a]
  }

  /** Work on chunks that are not in the bins leaves the bins and the data of others alone. */
  lemma KeepBins(m: map<int, int>, m': map<int, int>, h: Heap, t: Tiles, lo: int, hi: int, bins: int,
                 own: set<int>, links: set<int>, p: int, e: int, q: int)
    requires Agrees(m, h, own, links) && Tiling(t, lo, hi) && Binned(t, bins, lo, own, links)
    requires Unbinned(t, hi, own, links, p, e) && q in t.size && q !in own && Within(m, m', p, e, q)
    ensures Agrees(m', h, own, links)
  {
    hide Agrees, Tiling, Binned, Unbinned;
    forall a | a in m && m'[a] != m[a] ensures OffFields(own, links, a) {
      if p + HEAD <= a <= e { OffStretch(t, lo, hi, bins, own, links, p, e, a); }
      else { OffHead(t, lo, hi, bins, own, links, q); }
    }
    AgreesFrame(m, m', h, own, links);
  }

  lemma KeepData(m: map<int, int>, m': map<int, int>, t: Tiles, lo: int, hi: int, p: int, e: int, q: int,
      keep: set<int>)
    requires Tiling(t, lo, hi) && p in t.size && (e == hi || e in t.size) && p < e && q in t.size &&
      Within(m, m', p, e, q)
    requires forall u :: u in keep && u in t.size ==> u < p || e <= u
    ensures DataKept(m, m', t, keep)
  {
    forall u, a | u in keep && u in t.size && a in m && u + FD <= a <= Next(t, u) ensures m'[a] == m[a] {
      At(t, lo, hi, u);
      if u != p { Disjoint(t, lo, hi, u, p); }
      if u != q { Disjoint(t, lo, hi, u, q); }
      At(t, lo, hi, p);
      At(t, lo, hi, q);
    }
  }

  lemma Elsewhere(t: Tiles, hi: int, s: Places, loose: set<int>, x: int)
    requires Placed(t, hi, s, loose) && (x in s.own || x in s.bin)
    ensures x in t.size && x !in t.used && x !in loose && x != s.top && x != s.dv
  {
    assert x in s.own ==> LargeAt(t, s, loose, x);
    if x in s.bin { assert SmallAt(t, s, loose, x); }
  }

  lemma UnbinnedAt(t: Tiles, lo: int, hi: int, s: Places, loose: set<int>, bins: int, p: int)
    requires Tiling(t, lo, hi) && Placed(t, hi, s, loose) && Header(bins, 31) + 32 <= lo
    requires p in t.size && (p in loose || p in t.used || p == s.top || p == s.dv)
    ensures Unbinned(t, hi, s.own, Headers(bins) + s.bin.Keys, p, Next(t, p)) && p !in s.own && p !in s.bin
  {
    hide Tiling, Placed;
    At(t, lo, hi, p);
    forall n | n in s.own || n in s.bin ensures !(p <= n < Next(t, p)) {
      Elsewhere(t, hi, s, loose, n);
      if p < n < Next(t, p) { Inside(t, lo, hi, p, n); }
    }
  }

  lemma LooseFree(t: Tiles, hi: int, s: Places, loose: set<int>)
    requires Placed(t, hi, s, loose)
    ensures forall x :: x in loose ==> x in t.size && x !in t.used && x != s.top && x !in s.own && x !in s.bin
    ensures s.top in t.size && s.top !in t.used && Next(t, s.top) == hi && s.topsize == t.size[s.top]
    ensures s.dv in loose || VictimAt(t, s)
  {
    forall x | x in loose ensures x !in s.own && x !in s.bin {
      if x in s.own || x in s.bin { Elsewhere(t, hi, s, loose, x); }
    }
  }

  /** The same for one chunk, which is not among those to keep. */
  lemma KeepOthers(m: map<int, int>, m': map<int, int>, t: Tiles, lo: int, hi: int, p: int, q: int, keep: set<int>)
    requires Tiling(t, lo, hi) && p in t.size && q in t.size && Within(m, m', p, Next(t, p), q) && p !in keep
    ensures DataKept(m, m', t, keep)
  {
    hide Tiling, Within, DataKept;
    At(t, lo, hi, p);
    forall u | u in keep && u in t.size ensures u < p || Next(t, p) <= u {
      At(t, lo, hi, u);
      if p < u { Disjoint(t, lo, hi, p, u); }
    }
    KeepData(m, m', t, lo, hi, p, Next(t, p), q, keep);
  }

  function SetPin(w: int): int { if w % 2 == 1 then w else w + 1 }

  function ClearPin(w: int): int { w - w % 2 }

  /** set_inuse_and_pinuse on a whole free chunk. */
  lemma TakeAll(m: map<int, int>, t: Tiles, lo: int, hi: int, s: Places, p: int)
    requires Tags(m, t, lo, hi) && Placed(t, hi, s, {p}) && p != s.dv && Next(t, p) != hi && 0 !in t.size
    ensures p in t.size && p !in t.used && Next(t, p) in t.used && Next(t, p) in t.size
    ensures p + HEAD in m && Next(t, p) + HEAD in m
    ensures var n := Next(t, p);
      var m' := m[p + HEAD := t.size[p] + 3][n + HEAD := SetPin(m[n + HEAD])];
      && Tags(m', Taken(t, p), lo, hi) && Within(m, m', p, n, n) && DataKept(m, m', t, t.used)
      && Placed(Taken(t, p), hi, s, {})
  {
    hide Tiling, Placed, DataKept;
    LooseFree(t, hi, s, {p});
    At(t, lo, hi, p);
    var n := Next(t, p);
    TakeTiling(t, lo, hi, p);
    At(t, lo, hi, n);
    HeadShows(m, t, lo, hi, p);
    HeadShows(m, t, lo, hi, n);
    var m' := m[p + HEAD := t.size[p] + 3][n + HEAD := SetPin(m[n + HEAD])];
    Take(m, m', t, lo, hi, p);
    KeepOthers(m, m', t, lo, hi, p, n, t.used);
    PlaceTaken(t, hi, s, p);
  }

  /** set_size_and_pinuse_of_inuse_chunk on the front of a free chunk and
      set_size_and_pinuse_of_free_chunk on its rest. */
  lemma SplitAll(m: map<int, int>, t: Tiles, lo: int, hi: int, s: Places, p: int, nb: int)
    requires Tags(m, t, lo, hi) && Placed(t, hi, s, {p}) && Next(t, p) != hi && lo > 0
    requires nb % 8 == 0 && MIN_CHUNK_SIZE <= nb <= t.size[p] - MIN_CHUNK_SIZE
    ensures p in t.size && p !in t.used && p + HEAD in m && p + nb !in t.size
    ensures p + nb + HEAD in m && Next(t, p) in m ==>
      var n := Next(t, p);
      var m' := m[p + HEAD := nb + 3][p + nb + HEAD := t.size[p] - nb + 1][n := t.size[p] - nb];
      Tags(m', Split(t, p, nb), lo, hi) && Within(m, m', p, n, p) && DataKept(m, m', t, t.used)
    ensures s.dv != p ==> Placed(Split(t, p, nb), hi, s, {p + nb}) && s.dv != p + nb
    ensures s.dv == p ==> Placed(Split(t, p, nb), hi, s.(dv := p + nb, dvsize := t.size[p] - nb), {})
  {
    hide Tiling, Placed, DataKept;
    LooseFree(t, hi, s, {p});
    At(t, lo, hi, p);
    HeadShows(m, t, lo, hi, p);
    SplitTiling(t, lo, hi, p, nb);
    var n := Next(t, p);
    var m' := m[p + HEAD := nb + 3][p + nb + HEAD := t.size[p] - nb + 1][n := t.size[p] - nb];
    PlaceSplit(t, lo, hi, s, p, nb);
    if p + nb + HEAD in m && n in m {
      SplitTags(m, m', t, lo, hi, p, nb);
      KeepOthers(m, m', t, lo, hi, p, p, t.used);
    }
  }

  /** The front of the top chunk is taken. */
  lemma SplitTopAll(m: map<int, int>, t: Tiles, lo: int, hi: int, s: Places, nb: int)
    requires Tags(m, t, lo, hi) && Placed(t, hi, s, {}) && lo > 0
    requires nb % 8 == 0 && MIN_CHUNK_SIZE <= nb < s.topsize
    ensures s.top in t.size && s.topsize == t.size[s.top] && s.top + HEAD in m && s.top + nb !in t.size
    ensures s.top + nb + HEAD in m ==>
      var m' := m[s.top + nb + HEAD := s.topsize - nb + 1][s.top + HEAD := nb + 3];
      && Tags(m', Split(t, s.top, nb), lo, hi) && Within(m, m', s.top, Next(t, s.top), s.top)
      && DataKept(m, m', t, t.used)
    ensures Placed(Split(t, s.top, nb), hi, s.(top := s.top + nb, topsize := s.topsize - nb), {})
  {
    hide Tiling, Placed, DataKept;
    var p := s.top;
    LooseFree(t, hi, s, {});
    At(t, lo, hi, p);
    Lowest(t, lo, hi, p);
    HeadShows(m, t, lo, hi, p);
    SplitTiling(t, lo, hi, p, nb);
    PlaceTop(t, hi, s, nb);
    if p + nb + HEAD in m {
      var m' := m[p + nb + HEAD := s.topsize - nb + 1][p + HEAD := nb + 3];
      SplitTags(m, m', t, lo, hi, p, nb);
      KeepOthers(m, m', t, lo, hi, p, p, t.used);
    }
  }

  /** The victim is forgotten while it is on its way. */
  lemma ForgetVictim(t: Tiles, hi: int, s: Places)
    requires Placed(t, hi, s, {}) && s.dv != 0 && 0 !in t.size
    ensures Placed(t, hi, s.(dv := 0, dvsize := 0), {s.dv}) && VictimAt(t, s)
  {
    var s' := s.(dv := 0, dvsize := 0);
    forall y ensures Kept1(t, s', {s.dv}, y) { assert Kept1(t, s, {}, y); }
    forall y | y in s.own ensures LargeAt(t, s', {s.dv}, y) { assert LargeAt(t, s, {}, y); }
    forall y | y in s.bin ensures SmallAt(t, s', {s.dv}, y) { assert SmallAt(t, s, {}, y); }
  }

  /** A word written twice. */
  lemma WriteTwice(m: map<int, int>, b: int, y: int, z: int)
    ensures m[b := y][b := z] == m[b := z]
  {}

  lemma WriteOrder(m: map<int, int>, a: int, v: int, b: int, w: int, c: int, x: int)
    requires a != b && b != c && a != c
    ensures m[b := w][c := x][a := v] == m[a := v][b := w][c := x]
  {}

  /** A loose chunk can go into a bin. */
  lemma ReadyToBin(t: Tiles, lo: int, hi: int, s: Places, loose: set<int>, bins: int, x: int)
    requires Tiling(t, lo, hi) && Placed(t, hi, s, loose) && Header(bins, 31) + 32 <= lo && bins > 0
    requires x in t.size && x !in t.used && x != s.top && (x in loose || x == s.dv)
    requires Next(t, x) != hi
    ensures x > 0 && x > Header(bins, 31) && x !in s.own && x !in s.bin && x !in Headers(bins) &&
      t.size[x] >= MIN_CHUNK_SIZE
    ensures Binned(t, bins, lo, s.own, Headers(bins) + s.bin.Keys + {x})
    ensures Apart(s.own, Headers(bins) + s.bin.Keys + {x})
    ensures t.size[x] >= MIN_LARGE_SIZE ==>
      && Binned(t, bins, lo, s.own + {x}, Headers(bins) + s.bin.Keys)
      && Apart(s.own + {x}, Headers(bins) + s.bin.Keys)
  {
    hide Tiling, Placed, Apart;
    if x in s.own || x in s.bin { Elsewhere(t, hi, s, loose, x); }
    At(t, lo, hi, x);
    PlacedBinned(t, lo, hi, s, loose, bins);
    BinnedApart(t, lo, hi, bins, s.own, Headers(bins) + s.bin.Keys + {x});
    if t.size[x] >= MIN_LARGE_SIZE { BinnedApart(t, lo, hi, bins, s.own + {x}, Headers(bins) + s.bin.Keys); }
  }

  /** Chunk `p` was free and is now in use for a request of `nb` bytes; chunks that were in use still
      are, with their sizes and data. */
  ghost predicate Given(m0: map<int, int>, t0: Tiles, m: map<int, int>, t: Tiles, p: int, nb: int) {
    && p in t.size && p !in t0.used && t.used == t0.used + {p}
    && nb <= t.size[p] < nb + MIN_CHUNK_SIZE
    && (forall u :: u in t0.used && u in t0.size ==> u in t.size && t.size[u] == t0.size[u])
    && DataKept(m0, m, t0, t0.used)
  }

  lemma GivenFacts(m0: map<int, int>, t0: Tiles, m: map<int, int>, t: Tiles, p: int, nb: int)
    requires Given(m0, t0, m, t, p, nb)
    ensures p in t.size && p in t.used && p !in t0.used && t.used == t0.used + {p} &&
      nb <= t.size[p] < nb + MIN_CHUNK_SIZE
    ensures forall u :: u in t0.used && u in t0.size ==> u in t.size && t.size[u] == t0.size[u]
  {}

  lemma GivenTaken(m0: map<int, int>, t0: Tiles, m: map<int, int>, p: int, nb: int)
    requires p in t0.size && p !in t0.used && nb <= t0.size[p] < nb + MIN_CHUNK_SIZE && DataKept(m0, m, t0, t0.used)
    ensures Given(m0, t0, m, Taken(t0, p), p, nb)
  {}

  lemma GivenSplit(m0: map<int, int>, t0: Tiles, m: map<int, int>, p: int, nb: int)
    requires p in t0.size && p !in t0.used && p + nb !in t0.size && nb > 0 && DataKept(m0, m, t0, t0.used)
    ensures Given(m0, t0, m, Split(t0, p, nb), p, nb)
  {}

  /** Data kept over a first step that leaves the chunks and a second one. */
  lemma GivenLater(m0: map<int, int>, m1: map<int, int>, t0: Tiles, m: map<int, int>, t: Tiles, p: int, nb: int)
    requires DataKept(m0, m1, t0, t0.used) && Given(m1, t0, m, t, p, nb)
    ensures Given(m0, t0, m, t, p, nb)
  {
    DataTrans(m0, m1, m, t0, t0.used);
  }

  /** The data kept for more chunks than needed. */
  lemma DataFewer(m: map<int, int>, m': map<int, int>, t: Tiles, keep: set<int>, t0: Tiles, keep0: set<int>)
    requires DataKept(m, m', t, keep) && keep0 <= keep
    requires forall u :: u in keep0 && u in t0.size ==> u in t.size && t.size[u] == t0.size[u]
    ensures DataKept(m, m', t0, keep0)
  {}

  lemma GivenThen(m0: map<int, int>, t0: Tiles, m1: map<int, int>, t: Tiles, m: map<int, int>, p: int, nb: int)
    requires Given(m0, t0, m1, t, p, nb) && DataKept(m1, m, t, t.used)
    ensures Given(m0, t0, m, t, p, nb)
  {
    DataFewer(m1, m, t, t.used, t0, t0.used);
    DataTrans(m0, m1, m, t0, t0.used);
  }

  const MIN_REQUEST := 23
  const MAX_SMALL_REQUEST := 240
  const MAX_REQUEST := TWO64 - 128

  /** pad_request, with room for the head. */
  function PadRequest(n: nat): int { (n + 15) / 8 * 8 }

  /** request2size. */
  function RequestSize(n: nat): (r: int)
    ensures r % 8 == 0 && r >= MIN_CHUNK_SIZE && r >= n + HEAD
    ensures r == MIN_CHUNK_SIZE || r < n + HEAD + 8
  {
    if n < MIN_REQUEST then MIN_CHUNK_SIZE else PadRequest(n)
  }

  /** No free chunk is large enough; the top chunk never gives its last byte. */
  ghost predicate NoRoom(t: Tiles, top: int, nb: int) {
    forall x :: x in t.size && x !in t.used ==> if x == top then t.size[x] <= nb else t.size[x] < nb
  }

  /** No chunk of `a` is as large as `nb`. */
  ghost predicate NoneOf(t: Tiles, a: set<int>, nb: int) {
    forall x :: x in a && x in t.size ==> t.size[x] < nb
  }

  /** No chunk of `a` that is as large as `nb` is smaller than `p`. */
  ghost predicate Least(t: Tiles, a: set<int>, p: int, nb: int) {
    p in t.size && forall x :: x in a && x in t.size && t.size[x] >= nb ==> t.size[p] <= t.size[x]
  }

  /**
   * The chunk that serves a request: the least large enough of the small bins if it fits to the word or the designated
   * victim is too small, then the victim, then the least large enough of the trees, then the top chunk. For a large
   * request the tree chunk comes before a victim that is larger.
   */
  ghost predicate Chosen(t: Tiles, s: Places, p: int, nb: int) {
    && (p in s.bin ==> Least(t, s.bin.Keys, p, nb) && (s.dvsize >= nb ==> p in t.size && t.size[p] <= nb + 8))
    && (p == s.dv ==> Gap(t, s, nb, nb + 16) && (nb >= MIN_LARGE_SIZE ==> Least(t, s.own, p, nb)))
    && (p in s.own ==>
          && NoneOf(t, s.bin.Keys, nb) && Least(t, s.own, p, nb)
          && (s.dvsize >= nb ==> nb >= MIN_LARGE_SIZE && p in t.size && t.size[p] < s.dvsize))
    && (p == s.top ==> NoneOf(t, s.bin.Keys, nb) && NoneOf(t, s.own, nb) && s.dvsize < nb)
  }

  /** No binned chunk has a size from `from` up to `upto`. */
  ghost predicate Gap(t: Tiles, s: Places, from: int, upto: int) {
    forall x :: x in s.bin && x in t.size ==> !(from <= t.size[x] < upto)
  }

  lemma ChosenBin(t: Tiles, s: Places, hi: int, p: int, nb: int, i: int)
    requires Placed(t, hi, s, {}) && p in s.bin && s.bin[p] == i && t.size.Keys >= s.bin.Keys
    requires nb % 8 == 0 && Gap(t, s, nb, 8 * i) && (8 * i >= nb + 16 ==> s.dvsize < nb)
    requires t.size[p] % 8 == 0
    ensures Chosen(t, s, p, nb)
  {
    assert SmallAt(t, s, {}, p) && (p in s.own ==> LargeAt(t, s, {}, p));
  }

  lemma ChosenOwn(t: Tiles, s: Places, hi: int, p: int, nb: int)
    requires Placed(t, hi, s, {}) && p in s.own && Least(t, s.own, p, nb) && NoneOf(t, s.bin.Keys, nb)
    requires s.dvsize >= nb ==> nb >= MIN_LARGE_SIZE && t.size[p] < s.dvsize
    ensures Chosen(t, s, p, nb)
  {
    assert LargeAt(t, s, {}, p) && (p in s.bin ==> SmallAt(t, s, {}, p));
  }

  /** What bins and trees leave to the designated victim and the top chunk. */
  ghost predicate LastResort(t: Tiles, s: Places, nb: int) {
    if nb <= s.dvsize then Gap(t, s, nb, nb + 16) && (nb >= MIN_LARGE_SIZE ==> Least(t, s.own, s.dv, nb))
    else NoneOf(t, s.bin.Keys, nb) && NoneOf(t, s.own, nb)
  }

  lemma BinsTooSmall(t: Tiles, s: Places, nb: int)
    requires forall x :: x in s.bin && x in t.size ==> t.size[x] < nb
    ensures NoneOf(t, s.bin.Keys, nb) && Gap(t, s, nb, nb + 16)
  {}

  lemma NoneOfNone(t: Tiles, nb: int)
    ensures NoneOf(t, {}, nb)
  {}

  lemma LeastOfAll(t: Tiles, a: set<int>, p: int, nb: int)
    requires p in t.size && forall x :: x in a && x in t.size && t.size[x] >= nb ==> t.size[p] <= t.size[x]
    ensures Least(t, a, p, nb)
  {}

  lemma ChosenLast(t: Tiles, s: Places, hi: int, p: int, nb: int)
    requires Placed(t, hi, s, {}) && p == (if nb <= s.dvsize then s.dv else s.top) && nb > 0 && LastResort(t, s, nb)
    ensures Chosen(t, s, p, nb)
  {
    assert (p in s.own ==> LargeAt(t, s, {}, p)) && (p in s.bin ==> SmallAt(t, s, {}, p));
    assert VictimAt(t, s);
  }

  lemma NoRoomBy(t: Tiles, hi: int, s: Places, nb: int)
    requires Placed(t, hi, s, {}) && s.dvsize < nb && s.topsize <= nb && 0 !in t.size
    requires forall x :: x in s.own && x in t.size ==> t.size[x] < nb
    requires forall x :: x in s.bin && x in t.size ==> t.size[x] < nb
    ensures NoRoom(t, s.top, nb)
  {
    forall x | x in t.size && x !in t.used ensures if x == s.top then t.size[x] <= nb else t.size[x] < nb {
      assert Kept1(t, s, {}, x);
    }
  }

  /** Chunk `p0` is in use, and `p` is it or the free chunk before it. */
  predicate Front(t: Tiles, p: int, p0: int) {
    && p in t.size && p0 in t.size && p0 in t.used
    && ((p == p0 && p0 in t.pin) || (p !in t.used && Next(t, p) == p0))
  }

  lemma FrontStretch(t: Tiles, lo: int, hi: int, p: int, p0: int)
    requires Tiling(t, lo, hi) && Front(t, p, p0) && Next(t, p0) != hi
    ensures lo <= p <= p0 && Next(t, p0) in t.size && p in t.pin
    ensures forall x :: x in t.size && p <= x < Next(t, p0) ==> x == p || x == p0
    ensures Next(t, p0) in t.used ==> Stretch(t, hi, p, Next(t, p0) - p)
  {
    At(t, lo, hi, p);
    At(t, lo, hi, p0);
    At(t, lo, hi, Next(t, p0));
    forall x | x in t.size && p <= x < Next(t, p0) ensures x == p || x == p0 {
      if x != p && x != p0 { Disjoint(t, lo, hi, x, p); Disjoint(t, lo, hi, x, p0); At(t, lo, hi, x); }
    }
  }

  lemma BackStretch(t: Tiles, lo: int, hi: int, p: int, p0: int)
    requires Tiling(t, lo, hi) && Front(t, p, p0) && Next(t, p0) != hi && Next(t, p0) in t.size &&
      Next(t, p0) !in t.used
    ensures var e := Next(t, p0);
      && p < e && Stretch(t, hi, p, Next(t, e) - p)
      && (Next(t, e) != hi ==> Next(t, e) in t.size && Next(t, e) !in t.pin)
      && forall x :: x in t.size && p <= x < Next(t, e) ==> x == p || x == p0 || x == e
  {
    FrontStretch(t, lo, hi, p, p0);
    var e := Next(t, p0);
    At(t, lo, hi, p);
    At(t, lo, hi, p0);
    At(t, lo, hi, e);
    if Next(t, e) != hi { At(t, lo, hi, Next(t, e)); }
    forall x | x in t.size && p <= x < Next(t, e) ensures x == p || x == p0 || x == e {
      if x >= e && x != e { Disjoint(t, lo, hi, x, e); At(t, lo, hi, x); }
    }
  }

  lemma UnbinnedStretch(t: Tiles, lo: int, hi: int, s: Places, loose: set<int>, bins: int, p: int, n: int)
    requires Tiling(t, lo, hi) && Placed(t, hi, s, loose) && Header(bins, 31) + 32 <= lo
    requires Stretch(t, hi, p, n) && Gathered(t, s.top, loose, p, n)
    ensures Unbinned(t, hi, s.own, Headers(bins) + s.bin.Keys, p, p + n)
  {
    hide Tiling, Placed;
    At(t, lo, hi, p);
    forall x | x in s.own || x in s.bin ensures !(p <= x < p + n) {
      Elsewhere(t, hi, s, loose, x);
    }
  }

  /** Words for one free chunk in place of a stretch. */
  lemma MergeWords(m: map<int, int>, m': map<int, int>, t: Tiles, lo: int, hi: int, p: int, n: int)
    requires Tags(m, t, lo, hi) && Stretch(t, hi, p, n) && p + n != hi
    requires m'.Keys == m.Keys && p + HEAD in m && m'[p + HEAD] == n + 1 && p + n in m && m'[p + n] == n
    requires p + n + HEAD in m && m'[p + n + HEAD] == ClearPin(m[p + n + HEAD])
    requires forall a :: a in m && a != p + HEAD && a != p + n && a != p + n + HEAD ==> m'[a] == m[a]
    ensures Tags(m', Merged(t, p, n), lo, hi) && Within(m, m', p, p + n, p + n)
    ensures DataKept(m, m', t, set u | u in t.used && (u < p || p + n <= u))
  {
    hide Tiling, DataKept;
    At(t, lo, hi, p);
    HeadShows(m, t, lo, hi, p + n);
    MergeTags(m, m', t, lo, hi, p, n);
    KeepData(m, m', t, lo, hi, p, p + n, p + n, set u | u in t.used && (u < p || p + n <= u));
  }

  lemma MergeTopWords(m: map<int, int>, m': map<int, int>, t: Tiles, lo: int, hi: int, p: int)
    requires Tags(m, t, lo, hi) && Stretch(t, hi, p, hi - p)
    requires p + HEAD in m && m' == m[p + HEAD := hi - p + 1]
    ensures Tags(m', Merged(t, p, hi - p), lo, hi) && Within(m, m', p, hi, p)
    ensures DataKept(m, m', t, set u | u in t.used && (u < p || p + (hi - p) <= u))
  {
    hide Tiling, DataKept;
    At(t, lo, hi, p);
    MergeTags(m, m', t, lo, hi, p, hi - p);
    KeepData(m, m', t, lo, hi, p, hi, p, set u | u in t.used && (u < p || p + (hi - p) <= u));
  }

  /** Chunk `p` is no longer in use; the others still are, with their sizes and data. */
  ghost predicate Released(m0: map<int, int>, t0: Tiles, m: map<int, int>, t: Tiles, p: int) {
    && t.used == t0.used - {p}
    && (forall u :: u in t.used && u in t0.size ==> u in t.size && t.size[u] == t0.size[u])
    && DataKept(m0, m, t0, t0.used - {p})
  }

  /** Chunk `p0` is the only one in use from `p` up to `e`. */
  predicate OnlyUsed(t: Tiles, p: int, e: int, p0: int) {
    p0 in t.used && p <= p0 < e && forall x :: x in t.used && p <= x < e ==> x == p0
  }

  lemma ReleasedMerged(m0: map<int, int>, m: map<int, int>, t: Tiles, p: int, n: int, p0: int)
    requires t.used <= t.size.Keys && OnlyUsed(t, p, p + n, p0)
    requires DataKept(m0, m, t, set u | u in t.used && (u < p || p + n <= u))
    ensures Released(m0, t, m, Merged(t, p, n), p0)
  {
    assert (set u | u in t.used && (u < p || p + n <= u)) == t.used - {p0};
  }

  lemma ReleasedLater(m0: map<int, int>, m1: map<int, int>, t0: Tiles, m: map<int, int>, t: Tiles, p: int)
    requires DataKept(m0, m1, t0, t0.used) && Released(m1, t0, m, t, p)
    ensures Released(m0, t0, m, t, p)
  {
    DataFewer(m0, m1, t0, t0.used, t0, t0.used - {p});
    DataTrans(m0, m1, m, t0, t0.used - {p});
  }

  lemma ReleasedThen(m0: map<int, int>, t0: Tiles, m1: map<int, int>, t: Tiles, m: map<int, int>, p: int)
    requires Released(m0, t0, m1, t, p) && DataKept(m1, m, t, t.used)
    ensures Released(m0, t0, m, t, p)
  {
    DataFewer(m1, m, t, t.used, t0, t0.used - {p});
    DataTrans(m0, m1, m, t0, t0.used - {p});
  }

  lemma VictimWaits(t: Tiles, hi: int, s: Places, loose: set<int>, n: int)
    requires Placed(t, hi, s, loose) && s.dv in loose
    ensures Placed(t, hi, s.(dvsize := n), loose)
  {
    var s' := s.(dvsize := n);
    forall y ensures Kept1(t, s', loose, y) { assert Kept1(t, s, loose, y); }
    forall y | y in s.own ensures LargeAt(t, s', loose, y) { assert LargeAt(t, s, loose, y); }
    forall y | y in s.bin ensures SmallAt(t, s', loose, y) { assert SmallAt(t, s, loose, y); }
  }

  /** The words of a chunk in use are for its user. */
  lemma UserWord(m: map<int, int>, t: Tiles, lo: int, hi: int, u: int, a: int, v: int, keep: set<int>)
    requires Tags(m, t, lo, hi) && u in t.used && u in t.size && u + FD <= a <= Next(t, u) && Next(t, u) != hi
    requires a in m && u !in keep
    ensures Tags(m[a := v], t, lo, hi) && Within(m, m[a := v], u, Next(t, u), u)
    ensures DataKept(m, m[a := v], t, keep)
  {
    hide Tiling, DataKept;
    var m' := m[a := v];
    At(t, lo, hi, u);
    forall p | p in t.size
      ensures p + HEAD in m' && (p + HEAD in m ==> m'[p + HEAD] == m[p + HEAD])
      ensures p in m && p !in t.pin ==> p in m' && m'[p] == m[p]
    {
      assert Tagged(m, t, p);
      At(t, lo, hi, p);
      if p != u { Disjoint(t, lo, hi, p, u); }
    }
    TagsFrame(m, m', t, lo, hi);
    KeepOthers(m, m', t, lo, hi, u, u, keep);
  }

  function Pow256(k: nat): (r: int)
    ensures r > 0
  {
    if k == 0 then 1 else 256 * Pow256(k - 1)
  }

  /** A word that takes its low `k` bytes from `v`. */
  function MergeLow(w: int, v: int, k: nat): int { w - w % Pow256(k) + v % Pow256(k) }

  lemma MergeLowBytes(w: int, v: int, k: nat)
    ensures MergeLow(w, v, k) % Pow256(k) == v % Pow256(k)
  {
    var d := Pow256(k);
    var q := w / d;
    assert w == d * q + w % d;
    DivIs(d * q + v % d, q, d);
  }

  /** The first `n` bytes at `b` in `m` are those at `a` in `m0`. */
  ghost predicate SameBytes(m0: map<int, int>, a: int, m: map<int, int>, b: int, n: int) {
    && (forall j :: 0 <= j && 8 * j + 8 <= n ==> SameWord(m0, a + 8 * j, m, b + 8 * j, 8))
    && (n % 8 != 0 ==> SameWord(m0, a + n / 8 * 8, m, b + n / 8 * 8, n % 8))
  }

  /** The first `k` bytes of two words agree. */
  predicate SameWord(m0: map<int, int>, a: int, m: map<int, int>, b: int, k: nat) {
    a in m0 && b in m && if k == 8 then m[b] == m0[a] else m[b] % Pow256(k) == m0[a] % Pow256(k)
  }

  /** The first `i` words have been copied. */
  ghost predicate Copied(m0: map<int, int>, a: int, m: map<int, int>, b: int, i: nat) {
    forall j :: 0 <= j < i ==> SameWord(m0, a + 8 * j, m, b + 8 * j, 8)
  }

  ghost predicate OnlyAt(m: map<int, int>, m': map<int, int>, b: int) {
    forall c :: c in m && c != b ==> c in m' && m'[c] == m[c]
  }

  lemma WholeWords(p: int, i: int, n: int)
    requires p % 8 == 0 && 8 * i <= n < 8 * i + 8
    ensures i == n / 8 && (p + FD + 8 * i) % 8 == 0 && p + FD + n / 8 * 8 == p + FD + 8 * i
  {}

  lemma NothingCopied(m0: map<int, int>, a: int, m: map<int, int>, b: int)
    ensures Copied(m0, a, m, b, 0)
  {}

  lemma CopiedMore(m0: map<int, int>, a: int, m: map<int, int>, m': map<int, int>, b: int, i: nat)
    requires Copied(m0, a, m, b, i) && SameWord(m0, a + 8 * i, m', b + 8 * i, 8) && OnlyAt(m, m', b + 8 * i)
    ensures Copied(m0, a, m', b, i + 1)
  {
    forall j | 0 <= j < i + 1 ensures SameWord(m0, a + 8 * j, m', b + 8 * j, 8) {
      assert j < i ==> SameWord(m0, a + 8 * j, m, b + 8 * j, 8);
    }
  }

  /** The words copied and `k` bytes of the next one are all `n` bytes. */
  lemma CopiedAll(m0: map<int, int>, a: int, m: map<int, int>, m': map<int, int>, b: int, i: nat, k: nat, n: nat)
    requires Copied(m0, a, m, b, i) && n == 8 * i + k && k < 8
    requires k == 0 ==> m' == m
    requires k != 0 ==> SameWord(m0, a + 8 * i, m', b + 8 * i, k) && OnlyAt(m, m', b + 8 * i)
    ensures SameBytes(m0, a, m', b, n)
  {
    forall j | 0 <= j && 8 * j + 8 <= n ensures SameWord(m0, a + 8 * j, m', b + 8 * j, 8) {
      assert j < i;
      assert SameWord(m0, a + 8 * j, m, b + 8 * j, 8);
    }
  }

  /** Two set_inuse that cut a chunk in use in two. */
  lemma CutAll(m: map<int, int>, m': map<int, int>, t: Tiles, lo: int, hi: int, s: Places, p: int, nb: int)
    requires Tags(m, t, lo, hi) && Placed(t, hi, s, {}) && p in t.used && p in t.size && lo > 0
    requires MIN_CHUNK_SIZE <= nb <= t.size[p] - MIN_CHUNK_SIZE && nb % 8 == 0
    requires p + HEAD in m && p + nb + HEAD in m && Next(t, p) + HEAD in m
    requires m' == m[p + HEAD := m[p + HEAD] % 2 + nb + 2][p + nb + HEAD := t.size[p] - nb + 3]
      [Next(t, p) + HEAD := SetPin(m[Next(t, p) + HEAD])]
    ensures Tags(m', Cut(t, p, nb), lo, hi) && Within(m, m', p, Next(t, p), p)
    ensures Placed(Cut(t, p, nb), hi, s, {}) && p + nb !in t.size
    ensures DataKept(m, m', Cut(t, p, nb), t.used)
  {
    hide Tiling, Placed;
    LooseFree(t, hi, s, {});
    At(t, lo, hi, p);
    LastOne(t, lo, hi, p, s.top);
    HeadShows(m, t, lo, hi, p);
    HeadShows(m, t, lo, hi, Next(t, p));
    assert m[Next(t, p) + HEAD] == SetPin(m[Next(t, p) + HEAD]);
    CutTiling(t, lo, hi, p, nb);
    CutTags(m, m', t, lo, hi, p, nb);
    NotVictim(t, hi, s, p + nb);
    PlaceCut(t, hi, s, p, nb);
    Lowest(t, lo, hi, p);
    forall u, a | u in t.used && u in Cut(t, p, nb).size && a in m && u + FD <= a <= Next(Cut(t, p, nb), u)
      ensures m'[a] == m[a] {
      UsedData(t, lo, hi, p, nb, u, a);
    }
  }

  lemma NotVictim(t: Tiles, hi: int, s: Places, r: int)
    requires Placed(t, hi, s, {}) && r !in t.size && r != 0
    ensures s.dv != r
  {}

  lemma UsedData(t: Tiles, lo: int, hi: int, p: int, nb: int, u: int, a: int)
    requires Tiling(t, lo, hi) && p in t.size && u in t.used && u in t.size && 0 < nb < t.size[p] && p + nb !in t.size
    requires u + FD <= a <= if u == p then p + nb else Next(t, u)
    ensures a != p + HEAD && a != p + nb + HEAD
  {
    if u != p { Disjoint(t, lo, hi, u, p); }
  }

  /** set_inuse that lets a chunk grow into the top chunk, and the head of the new top. */
  lemma GrowAll(m: map<int, int>, m': map<int, int>, t: Tiles, lo: int, hi: int, s: Places, p: int, nb: int)
    requires Tags(m, t, lo, hi) && Placed(t, hi, s, {}) && p in t.used && p in t.size && lo > 0
    requires Next(t, p) == s.top && t.size[p] < nb < hi - p && nb % 8 == 0
    requires p + HEAD in m && p + nb + HEAD in m
    requires m' == m[p + HEAD := m[p + HEAD] % 2 + nb + 2][p + nb + HEAD := hi - (p + nb) + 1]
    ensures Tags(m', Grown(t, p, nb, hi), lo, hi) && Within(m, m', p, hi, p)
    ensures Placed(Grown(t, p, nb, hi), hi, s.(top := p + nb, topsize := hi - (p + nb)), {})
    ensures DataKept(m, m', t, t.used)
  {
    hide Tiling, Placed;
    LooseFree(t, hi, s, {});
    At(t, lo, hi, p);
    At(t, lo, hi, s.top);
    assert (hi - p) % 8 == 0;
    HeadShows(m, t, lo, hi, p);
    GrowTags(m, m', t, lo, hi, p, nb);
    PlaceGrown(t, lo, hi, s, p, nb);
    forall u, a | u in t.used && u in t.size && a in m && u + FD <= a <= Next(t, u) ensures m'[a] == m[a] {
      At(t, lo, hi, u);
      if u != p { Disjoint(t, lo, hi, u, p); Disjoint(t, lo, hi, u, s.top); }
    }
  }

  lemma UnbinnedGrow(t: Tiles, lo: int, hi: int, s: Places, bins: int, p: int)
    requires Tiling(t, lo, hi) && Placed(t, hi, s, {}) && Header(bins, 31) + 32 <= lo
    requires p in t.used && p in t.size && Next(t, p) == s.top
    ensures Unbinned(t, hi, s.own, Headers(bins) + s.bin.Keys, p, hi) && p !in s.own
  {
    hide Tiling, Placed;
    LooseFree(t, hi, s, {});
    At(t, lo, hi, p);
    At(t, lo, hi, s.top);
    UnbinnedAt(t, lo, hi, s, {}, bins, p);
    UnbinnedAt(t, lo, hi, s, {}, bins, s.top);
  }

  /** Chunk `p` was moved to `q` for `nsize` bytes: the others still are in use, with their sizes and
      data, and the data of `p` is there as far as it fits. */
  ghost predicate Moved(m0: map<int, int>, t0: Tiles, m: map<int, int>, t: Tiles, p: int, q: int, nsize: nat) {
    && p in t0.size && q in t.size && t.used == t0.used - {p} + {q} && (q == p || q !in t0.used)
    && RequestSize(nsize) <= t.size[q] < RequestSize(nsize) + MIN_CHUNK_SIZE
    && (forall u :: u in t0.used && u in t0.size && u != p ==> u in t.size && t.size[u] == t0.size[u])
    && DataKept(m0, m, t0, t0.used - {p})
    && SameBytes(m0, p + FD, m, q + FD, if t0.size[p] - HEAD < nsize then t0.size[p] - HEAD else nsize)
  }

  /** Bytes that are kept are the same. */
  lemma BytesKept(m0: map<int, int>, m: map<int, int>, t: Tiles, keep: set<int>, p: int, n: nat)
    requires DataKept(m0, m, t, keep) && p in keep && p in t.size && n <= t.size[p] - HEAD
    requires forall a :: p + FD <= a <= Next(t, p) && a % 8 == 0 ==> a in m0
    requires p % 8 == 0 && t.size[p] % 8 == 0
    ensures SameBytes(m0, p + FD, m, p + FD, n)
  {
    forall j | 0 <= j && 8 * j + 8 <= n ensures SameWord(m0, p + FD + 8 * j, m, p + FD + 8 * j, 8) {
      WholeWords(p, j, 8 * j);
    }
    if n % 8 != 0 {
      WholeWords(p, n / 8, n);
      assert p + FD + 8 * (n / 8) <= Next(t, p);
    }
  }

  /** A chunk that stays where it is, cut back first and then with the rest freed. */
  lemma MovedCut(m0: map<int, int>, t0: Tiles, m1: map<int, int>, m: map<int, int>, t: Tiles, p: int, nsize: nat)
    requires p in t0.used && p in t0.size && t0.used <= t0.size.Keys && p + RequestSize(nsize) !in t0.size
    requires var t1 := Cut(t0, p, RequestSize(nsize));
      DataKept(m0, m1, t1, t0.used) && Released(m1, t1, m, t, p + RequestSize(nsize))
    requires forall a :: p + FD <= a <= p + RequestSize(nsize) && a % 8 == 0 ==> a in m0
    requires p % 8 == 0 && RequestSize(nsize) <= t0.size[p] - MIN_CHUNK_SIZE
    ensures Moved(m0, t0, m, t, p, p, nsize)
  {
    hide RequestSize;
    var nb := RequestSize(nsize);
    var t1 := Cut(t0, p, nb);
    assert t.used == t0.used;
    DataFewer(m1, m, t1, t1.used - {p + nb}, t1, t0.used);
    DataTrans(m0, m1, m, t1, t0.used);
    DataFewer(m0, m, t1, t0.used, t0, t0.used - {p});
    BytesKept(m0, m, t1, t0.used, p, nsize);
  }

  /** A chunk that is large enough stays as it is. */
  lemma MovedNowhere(m: map<int, int>, t: Tiles, p: int, nsize: nat)
    requires p in t.used && p in t.size && p % 8 == 0 && t.size[p] % 8 == 0
    requires RequestSize(nsize) <= t.size[p] < RequestSize(nsize) + MIN_CHUNK_SIZE
    requires forall a :: p + FD <= a <= Next(t, p) && a % 8 == 0 ==> a in m
    ensures Moved(m, t, m, t, p, p, nsize)
  {
    hide RequestSize;
    DataSame(m, t, t.used);
    BytesKept(m, m, t, t.used, p, nsize);
    assert t.used - {p} + {p} == t.used;
  }

  /** A chunk that grows in place. */
  lemma MovedGrown(m0: map<int, int>, t: Tiles, m: map<int, int>, p: int, hi: int, nsize: nat)
    requires p in t.used && p in t.size && p % 8 == 0 && t.size[p] % 8 == 0 && RequestSize(nsize) > t.size[p] >= HEAD
    requires Next(t, p) in t.size && Next(t, p) !in t.used && DataKept(m0, m, t, t.used)
    requires forall a :: p + FD <= a <= Next(t, p) && a % 8 == 0 ==> a in m0
    requires p + RequestSize(nsize) !in t.used
    ensures Moved(m0, t, m, Grown(t, p, RequestSize(nsize), hi), p, p, nsize)
  {
    hide RequestSize;
    BytesKept(m0, m, t, t.used, p, if t.size[p] - HEAD < nsize then t.size[p] - HEAD else nsize);
    assert t.used - {p} + {p} == t.used;
  }

  /** A chunk that is copied to a new one and freed. */
  lemma MovedCopied(m0: map<int, int>, t0: Tiles, m1: map<int, int>, t1: Tiles, m2: map<int, int>,
                    m: map<int, int>, t: Tiles, p: int, q: int, nsize: nat)
    requires p in t0.used && p in t0.size && t0.used <= t0.size.Keys && p % 8 == 0 && t0.size[p] % 8 == 0 &&
      t0.size[p] >= HEAD
    requires Given(m0, t0, m1, t1, q, RequestSize(nsize)) && DataKept(m1, m2, t1, t1.used - {q})
    requires SameBytes(m1, p + FD, m2, q + FD, if t0.size[p] - HEAD < nsize then t0.size[p] - HEAD else nsize)
    requires Released(m2, t1, m, t, p)
    requires forall a :: q + FD <= a <= Next(t1, q) && a % 8 == 0 ==> a in m2
    requires forall a :: p + FD <= a <= Next(t0, p) && a % 8 == 0 ==> a in m0
    requires q % 8 == 0 && t1.size[q] % 8 == 0
    ensures Moved(m0, t0, m, t, p, q, nsize)
  {
    hide RequestSize, SameBytes;
    var n := if t0.size[p] - HEAD < nsize then t0.size[p] - HEAD else nsize;
    DataFewer(m1, m2, t1, t1.used - {q}, t0, t0.used - {p});
    DataFewer(m2, m, t1, t1.used - {p}, t0, t0.used - {p});
    DataTrans(m0, m1, m2, t0, t0.used - {p});
    DataTrans(m0, m2, m, t0, t0.used - {p});
    BytesKept(m0, m1, t0, t0.used, p, n);
    BytesKept(m2, m, t1, t1.used - {p}, q, n);
    SameBytesTrans(m0, p + FD, m1, p + FD, m2, q + FD, n);
    SameBytesTrans(m0, p + FD, m2, q + FD, m, q + FD, n);
  }

  lemma SameBytesTrans(m0: map<int, int>, a: int, m1: map<int, int>, b: int, m2: map<int, int>, c: int, n: nat)
    requires SameBytes(m0, a, m1, b, n) && SameBytes(m1, b, m2, c, n)
    ensures SameBytes(m0, a, m2, c, n)
  {
    forall j | 0 <= j && 8 * j + 8 <= n ensures SameWord(m0, a + 8 * j, m2, c + 8 * j, 8) {
      assert SameWord(m0, a + 8 * j, m1, b + 8 * j, 8) && SameWord(m1, b + 8 * j, m2, c + 8 * j, 8);
    }
  }

  /** The padding at the end of a segment. */
  const TOP_FOOT_SIZE := 64

  /** A segment that is one top chunk. */
  function OneChunk(lo: int, hi: int): Tiles { Tiles(map[lo := hi - lo], {}, {lo}) }

  lemma OneChunkOk(m: map<int, int>, lo: int, hi: int)
    requires lo < hi && lo % 8 == 0 && hi % 8 == 0 && lo + HEAD in m && m[lo + HEAD] == hi - lo + 1
    ensures Tags(m, OneChunk(lo, hi), lo, hi)
    ensures lo != 0 ==> Placed(OneChunk(lo, hi), hi, Places({}, map[], lo, hi - lo, 0, 0), {})
  {
    var t, s := OneChunk(lo, hi), Places({}, map[], lo, hi - lo, 0, 0);
    assert TileOk(t, lo, hi, lo) && Marked(t, lo) && Ordered(t, lo, lo) && Tagged(m, t, lo);
    forall y ensures Kept1(t, s, {}, y) {}
  }

  /** What memory says when nothing is binned: only the headers of the small bins have links. */
  function BlankHeap(m: map<int, int>, bins: int): Heap
    requires forall n :: n in Headers(bins) ==> n + FD in m && n + BK in m
  {
    Heap(map[], map[], map[], map n | n in Headers(bins) :: m[n + FD], map n | n in Headers(bins) :: m[n + BK],
         map[], map[], seq(32, _ => 0), {})
  }

  lemma BlankLinks(m: map<int, int>, bins: int)
    requires forall n :: n in Headers(bins) ==> n + FD in m && n + BK in m
    ensures Agrees(m, BlankHeap(m, bins), {}, Headers(bins))
  {
    hide Headers;
    var h := BlankHeap(m, bins);
    forall n | n in Headers(bins) ensures LinkWords(m, h, n) {}
  }

  lemma HeadersApart(bins: int)
    ensures Apart({}, Headers(bins))
  {
    forall a, b | a in Headers(bins) && b in Headers(bins) && a != b ensures FarLinks(a, b) {
      var i :| 0 <= i < 32 && a == Header(bins, i);
      var j :| 0 <= j < 32 && b == Header(bins, j);
    }
  }

  lemma NothingBinned(fd: map<int, int>, bk: map<int, int>, bins: int)
    ensures SmallInv(fd, bk, bins, {}, seq(32, _ => []), map[])
  {}

  lemma NothingPlanted(h: Heap)
    requires h.root == seq(32, _ => 0) && h.treemap == {}
    ensures TreeInv(h, map[])
  {}

  lemma EmptyBins(m: map<int, int>, bins: int)
    requires forall n :: n in Headers(bins) ==> n + FD in m && n + BK in m
    ensures var h := BlankHeap(m, bins);
      && Agrees(m, h, {}, Headers(bins)) && Apart({}, Headers(bins))
      && TreeInv(h, map[]) && SmallInv(h.fd, h.bk, bins, {}, seq(32, _ => []), map[])
      && h.root == seq(32, _ => 0) && h.treemap == {}
  {
    hide Headers, SmallInv, TreeInv, Agrees, Apart;
    var h := BlankHeap(m, bins);
    BlankLinks(m, bins);
    HeadersApart(bins);
    NothingBinned(h.fd, h.bk, bins);
    NothingPlanted(h);
  }
}
