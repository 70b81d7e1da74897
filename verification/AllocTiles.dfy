/** Boundary tags: the chunks of a segment, their heads and their feet. */
module AllocTiles {
  import opened AllocWords

  const MIN_CHUNK_SIZE := 32

  /** The chunks by address: their sizes, which are in use, and which come right after one that is
      in use. */
  datatype Tiles = Tiles(size: map<int, int>, used: set<int>, pin: set<int>)

  function Bit(b: bool, v: int): int { if b then v else 0 }

  function Next(t: Tiles, p: int): int
    requires p in t.size
  {
    p + t.size[p]
  }

  /** A chunk fits into the segment and ends at the next chunk or at the end. */
  predicate TileOk(t: Tiles, lo: int, hi: int, p: int)
    requires p in t.size
  {
    && lo <= p && p % 8 == 0 && t.size[p] % 8 == 0 && t.size[p] > 0 && Next(t, p) <= hi
    && (Next(t, p) == hi || (Next(t, p) in t.size && t.size[p] >= MIN_CHUNK_SIZE))
  }

  predicate Ordered(t: Tiles, p: int, q: int)
    requires p in t.size
  {
    p < q ==> Next(t, p) <= q
  }

  /** No two neighbours are free, and the in-use marks follow the chunks. */
  predicate Marked(t: Tiles, p: int)
    requires p in t.size
  {
    && (p in t.pin || p in t.used)
    && (Next(t, p) in t.size ==> (Next(t, p) in t.pin <==> p in t.used))
  }

  /** The chunks tile the segment. */
  predicate Tiling(t: Tiles, lo: int, hi: int) {
    && lo in t.size && lo in t.pin && t.used <= t.size.Keys && t.pin <= t.size.Keys
    && (forall p {:trigger TileOk(t, lo, hi, p)} :: p in t.size ==> TileOk(t, lo, hi, p))
    && (forall p, q {:trigger Ordered(t, p, q)} :: p in t.size && q in t.size ==> Ordered(t, p, q))
    && (forall p {:trigger Marked(t, p)} :: p in t.size ==> Marked(t, p))
  }

  function HeadWord(t: Tiles, p: int): int
    requires p in t.size
  {
    t.size[p] + Bit(p in t.used, 2) + Bit(p in t.pin, 1)
  }

  /** The words of chunk `p`: its head, and the foot of the chunk before it if that is free. */
  predicate Tagged(m: map<int, int>, t: Tiles, p: int)
    requires p in t.size
  {
    && p + HEAD in m && m[p + HEAD] == HeadWord(t, p)
    && (p !in t.pin ==>
          p in m && p - m[p] in t.size && t.size[p - m[p]] == m[p] && p - m[p] !in t.used)
  }

  /** Heads and feet say what the chunks are. */
  predicate Tags(m: map<int, int>, t: Tiles, lo: int, hi: int) {
    Tiling(t, lo, hi) && forall p {:trigger Tagged(m, t, p)} :: p in t.size ==> Tagged(m, t, p)
  }

  lemma At(t: Tiles, lo: int, hi: int, p: int)
    requires Tiling(t, lo, hi) && p in t.size
    ensures TileOk(t, lo, hi, p) && Marked(t, p) && Next(t, p) <= hi
  {
    assert TileOk(t, lo, hi, p) && Marked(t, p);
  }

  /** Two chunks do not overlap. */
  lemma Disjoint(t: Tiles, lo: int, hi: int, p: int, q: int)
    requires Tiling(t, lo, hi) && p in t.size && q in t.size && p != q
    ensures Next(t, p) <= q || Next(t, q) <= p
    ensures p < q ==> t.size[p] >= MIN_CHUNK_SIZE && q < hi
  {
    assert Ordered(t, p, q) && Ordered(t, q, p);
    At(t, lo, hi, p);
    At(t, lo, hi, q);
  }

  /** The chunk before `p`, when it is free. */
  lemma Before(m: map<int, int>, t: Tiles, lo: int, hi: int, p: int, q: int)
    requires Tags(m, t, lo, hi) && p in t.size && q in t.size && Next(t, p) == q && p !in t.used
    ensures q in m && m[q] == t.size[p]
  {
    assert Marked(t, p) && Tagged(m, t, q);
    var r := q - m[q];
    if r != p { Disjoint(t, lo, hi, p, r); At(t, lo, hi, r); At(t, lo, hi, p); }
  }

  /** The flags and size that a head word shows. */
  lemma HeadShows(m: map<int, int>, t: Tiles, lo: int, hi: int, p: int)
    requires Tags(m, t, lo, hi) && p in t.size
    ensures p + HEAD in m
    ensures ChunkSize(m[p + HEAD]) == t.size[p]
    ensures m[p + HEAD] % 2 == 1 <==> p in t.pin
    ensures m[p + HEAD] / 2 % 2 == 1 <==> p in t.used
  {
    assert Tagged(m, t, p) && TileOk(t, lo, hi, p);
  }

  /** Other words do not matter to the tags. */
  lemma TagsFrame(m: map<int, int>, m': map<int, int>, t: Tiles, lo: int, hi: int)
    requires Tags(m, t, lo, hi)
    requires forall p :: p in t.size ==> p + HEAD in m' && (p + HEAD in m ==> m'[p + HEAD] == m[p + HEAD])
    requires forall p :: p in t.size && p in m && p !in t.pin ==> p in m' && m'[p] == m[p]
    ensures Tags(m', t, lo, hi)
  {
    forall p | p in t.size ensures Tagged(m', t, p) {
      assert Tagged(m, t, p);
    }
  }

  /** A whole free chunk is taken into use. */
  function Taken(t: Tiles, p: int): Tiles
    requires p in t.size
  {
    t.(used := t.used + {p}, pin := t.pin + {Next(t, p)})
  }

  lemma TakeTiling(t: Tiles, lo: int, hi: int, p: int)
    requires Tiling(t, lo, hi) && p in t.size && p !in t.used && Next(t, p) in t.size
    ensures Tiling(Taken(t, p), lo, hi) && Next(t, p) !in t.pin && p in t.pin
  {
    var t' := Taken(t, p);
    At(t, lo, hi, p);
    forall q | q in t'.size ensures TileOk(t', lo, hi, q) && Marked(t', q) {
      At(t, lo, hi, q);
      if q != p { Disjoint(t, lo, hi, p, q); }
    }
    forall q, r | q in t'.size && r in t'.size ensures Ordered(t', q, r) { assert Ordered(t, q, r); }
  }

  lemma Take(m: map<int, int>, m': map<int, int>, t: Tiles, lo: int, hi: int, p: int)
    requires Tags(m, t, lo, hi) && p in t.size && p !in t.used && Next(t, p) in t.size
    requires m'.Keys == m.Keys && p + HEAD in m && Next(t, p) + HEAD in m
    requires m'[p + HEAD] == t.size[p] + 3 && m'[Next(t, p) + HEAD] == m[Next(t, p) + HEAD] + 1
    requires forall a :: a in m && a != p + HEAD && a != Next(t, p) + HEAD ==> m'[a] == m[a]
    ensures Tags(m', Taken(t, p), lo, hi)
  {
    hide Tiling;
    var t', n := Taken(t, p), Next(t, p);
    TakeTiling(t, lo, hi, p);
    At(t, lo, hi, p);
    forall q | q in t'.size ensures Tagged(m', t', q) {
      At(t, lo, hi, q);
      assert Tagged(m, t, q);
      if q != p { Disjoint(t, lo, hi, p, q); }
      if q != n { Disjoint(t, lo, hi, n, q); }
      if q != n && q !in t.pin { Before2(m, t, lo, hi, q, p); }
    }
  }

  /** A free chunk before `q` is not `p` if `p` ends elsewhere. */
  lemma Before2(m: map<int, int>, t: Tiles, lo: int, hi: int, q: int, p: int)
    requires Tags(m, t, lo, hi) && q in t.size && q !in t.pin && p in t.size && Next(t, p) != q
    ensures q in m && q - m[q] in t.size && q - m[q] != p && t.size[q - m[q]] == m[q] && m[q] >= MIN_CHUNK_SIZE
    ensures q - m[q] !in t.used
  {
    assert Tagged(m, t, q);
    At(t, lo, hi, q);
    At(t, lo, hi, q - m[q]);
  }

  lemma End(t: Tiles, lo: int, hi: int)
    requires Tiling(t, lo, hi)
    ensures hi !in t.size
  {
    assert hi in t.size ==> TileOk(t, lo, hi, hi);
  }

  lemma Inside(t: Tiles, lo: int, hi: int, p: int, r: int)
    requires Tiling(t, lo, hi) && p in t.size && p < r < Next(t, p)
    ensures r !in t.size
  {
    assert r in t.size ==> Ordered(t, p, r);
  }

  /** The first `nb` bytes of a free chunk are taken into use. */
  function Split(t: Tiles, p: int, nb: int): Tiles
    requires p in t.size
  {
    Tiles(t.size[p := nb][p + nb := t.size[p] - nb], t.used + {p}, t.pin + {p + nb})
  }

  lemma SplitTiling(t: Tiles, lo: int, hi: int, p: int, nb: int)
    requires Tiling(t, lo, hi) && p in t.size && p !in t.used
    requires MIN_CHUNK_SIZE <= nb < t.size[p] && nb % 8 == 0
    requires Next(t, p) == hi || t.size[p] - nb >= MIN_CHUNK_SIZE
    ensures Tiling(Split(t, p, nb), lo, hi) && p + nb !in t.size
  {
    var t', r := Split(t, p, nb), p + nb;
    At(t, lo, hi, p);
    Inside(t, lo, hi, p, r);
    forall q | q in t'.size ensures TileOk(t', lo, hi, q) && Marked(t', q) {
      if q != r {
        At(t, lo, hi, q);
        if q != p { Disjoint(t, lo, hi, p, q); }
      }
    }
    forall a, b | a in t'.size && b in t'.size ensures Ordered(t', a, b) {
      if a != r { At(t, lo, hi, a); }
      if a != r && b != r && a != b { Disjoint(t, lo, hi, a, b); }
      if a != r && a != p { Disjoint(t, lo, hi, a, p); }
      if b != r && b != p { Disjoint(t, lo, hi, b, p); }
    }
  }

  lemma SplitTags(m: map<int, int>, m': map<int, int>, t: Tiles, lo: int, hi: int, p: int, nb: int)
    requires Tags(m, t, lo, hi) && p in t.size && p !in t.used
    requires MIN_CHUNK_SIZE <= nb < t.size[p] && nb % 8 == 0
    requires Next(t, p) == hi || t.size[p] - nb >= MIN_CHUNK_SIZE
    requires m'.Keys == m.Keys && p + HEAD in m && p + nb + HEAD in m && (Next(t, p) != hi ==> Next(t, p) in m)
    requires m'[p + HEAD] == nb + 3 && m'[p + nb + HEAD] == t.size[p] - nb + 1
    requires Next(t, p) != hi ==> m'[Next(t, p)] == t.size[p] - nb
    requires forall a :: a in m && a != p + HEAD && a != p + nb + HEAD && (a == Next(t, p) ==> a == hi) ==>
      m'[a] == m[a]
    ensures Tags(m', Split(t, p, nb), lo, hi)
  {
    var t', r, n := Split(t, p, nb), p + nb, Next(t, p);
    SplitTiling(t, lo, hi, p, nb);
    At(t, lo, hi, p);
    forall q | q in t'.size ensures Tagged(m', t', q) {
      if q != r {
        At(t, lo, hi, q);
        assert Tagged(m, t, q);
        if q != p { Disjoint(t, lo, hi, p, q); }
        if q == n { Before(m, t, lo, hi, p, n); }
        if q != n && q !in t.pin {
          var b := q - m[q];
          assert b in t.size && b != p;
        }
      }
    }
  }

  /** All chunks from `p` up to `p + s` become one free chunk. */
  function Merged(t: Tiles, p: int, s: int): Tiles {
    Tiles(map q | q in t.size && (q <= p || q >= p + s) :: if q == p then s else t.size[q],
          set q | q in t.used && (q < p || q >= p + s),
          set q | q in t.pin && (q <= p || q > p + s))
  }

  /** A stretch of whole chunks, between chunks in use or at the end. */
  predicate Stretch(t: Tiles, hi: int, p: int, s: int) {
    && p in t.size && p in t.pin && s % 8 == 0 && Next(t, p) <= p + s
    && (p + s == hi || (p + s in t.size && p + s in t.used && s >= MIN_CHUNK_SIZE))
  }

  /** Outside a stretch chunks do not touch it. */
  lemma Besides(t: Tiles, lo: int, hi: int, p: int, s: int, q: int)
    requires Tiling(t, lo, hi) && Stretch(t, hi, p, s) && q in t.size && q != p && (q <= p || q >= p + s)
    ensures t.size[p] > 0 && p + s <= hi
    ensures q < p ==> Next(t, q) <= p
    ensures q > p ==> p + s <= q
  {
    At(t, lo, hi, p);
    At(t, lo, hi, q);
    Disjoint(t, lo, hi, p, q);
    if p + s != hi { At(t, lo, hi, p + s); }
  }

  lemma MergeTiling(t: Tiles, lo: int, hi: int, p: int, s: int)
    requires Tiling(t, lo, hi) && Stretch(t, hi, p, s)
    ensures Tiling(Merged(t, p, s), lo, hi)
  {
    hide Tiling;
    var t' := Merged(t, p, s);
    Lowest(t, lo, hi, p);
    At(t, lo, hi, p);
    forall q | q in t'.size ensures TileOk(t', lo, hi, q) && Marked(t', q) {
      At(t, lo, hi, q);
      if q != p { Besides(t, lo, hi, p, s, q); }
      if p + s in t.size { At(t, lo, hi, p + s); }
    }
    forall a, b | a in t'.size && b in t'.size ensures Ordered(t', a, b) {
      if a != p { Besides(t, lo, hi, p, s, a); At(t, lo, hi, a); }
      if b != p { Besides(t, lo, hi, p, s, b); }
      if a != b { Disjoint(t, lo, hi, a, b); }
    }
    MakeTiling(t', lo, hi);
  }

  lemma Lowest(t: Tiles, lo: int, hi: int, p: int)
    requires Tiling(t, lo, hi) && p in t.size
    ensures lo in t.size && lo in t.pin && t.used <= t.size.Keys && t.pin <= t.size.Keys && lo <= p < hi
  {
    At(t, lo, hi, p);
  }

  lemma MakeTiling(t: Tiles, lo: int, hi: int)
    requires lo in t.size && lo in t.pin && t.used <= t.size.Keys && t.pin <= t.size.Keys
    requires forall p :: p in t.size ==> TileOk(t, lo, hi, p) && Marked(t, p)
    requires forall p, q :: p in t.size && q in t.size ==> Ordered(t, p, q)
    ensures Tiling(t, lo, hi)
  {}

  lemma MergeTags(m: map<int, int>, m': map<int, int>, t: Tiles, lo: int, hi: int, p: int, s: int)
    requires Tags(m, t, lo, hi) && Stretch(t, hi, p, s)
    requires m'.Keys == m.Keys && p + HEAD in m && m'[p + HEAD] == s + 1
    requires p + s != hi ==> p + s in m && m'[p + s] == s
    requires p + s != hi ==> p + s + HEAD in m && m'[p + s + HEAD] == m[p + s + HEAD] - Bit(p + s in t.pin, 1)
    requires forall a :: a in m && (a <= p || a > p + s) && a != p + s + HEAD ==> m'[a] == m[a]
    ensures Tags(m', Merged(t, p, s), lo, hi)
  {
    hide Tiling;
    var t' := Merged(t, p, s);
    MergeTiling(t, lo, hi, p, s);
    forall q | q in t'.size ensures Tagged(m', t', q) {
      At(t, lo, hi, q);
      assert Tagged(m, t, q);
      if q != p {
        Besides(t, lo, hi, p, s, q);
        if q !in t.pin && q != p + s { FarBefore(m, t, lo, hi, p, s, q); }
        if p + s in t.size && q != p + s { Disjoint(t, lo, hi, p + s, q); }
      }
    }
  }

  /** The free chunk before a chunk outside a stretch is outside as well. */
  lemma FarBefore(m: map<int, int>, t: Tiles, lo: int, hi: int, p: int, s: int, q: int)
    requires Tags(m, t, lo, hi) && Stretch(t, hi, p, s) && q in t.size && q !in t.pin && q != p && q != p + s
    requires q <= p || q >= p + s
    ensures q in m && q - m[q] in t.size && t.size[q - m[q]] == m[q] && q - m[q] !in t.used
    ensures q - m[q] < p || q - m[q] > p + s
    ensures q < p || q > p + s
  {
    assert Tagged(m, t, q);
    var b := q - m[q];
    At(t, lo, hi, b);
    At(t, lo, hi, p);
    At(t, lo, hi, q);
    Besides(t, lo, hi, p, s, q);
    if p < q {
      At(t, lo, hi, p + s);
      Disjoint(t, lo, hi, b, p);
      Disjoint(t, lo, hi, b, p + s);
    }
  }

  /** A chunk in use is cut in two, both in use. */
  function Cut(t: Tiles, p: int, nb: int): Tiles
    requires p in t.size
  {
    Tiles(t.size[p := nb][p + nb := t.size[p] - nb], t.used + {p + nb}, t.pin + {p + nb})
  }

  lemma CutTiling(t: Tiles, lo: int, hi: int, p: int, nb: int)
    requires Tiling(t, lo, hi) && p in t.size && p in t.used && Next(t, p) in t.size
    requires MIN_CHUNK_SIZE <= nb <= t.size[p] - MIN_CHUNK_SIZE && nb % 8 == 0
    ensures Tiling(Cut(t, p, nb), lo, hi) && p + nb !in t.size
  {
    var t', r := Cut(t, p, nb), p + nb;
    At(t, lo, hi, p);
    Inside(t, lo, hi, p, r);
    forall q | q in t'.size ensures TileOk(t', lo, hi, q) && Marked(t', q) {
      if q != r {
        At(t, lo, hi, q);
        if q != p { Disjoint(t, lo, hi, p, q); }
      }
    }
    forall a, b | a in t'.size && b in t'.size ensures Ordered(t', a, b) {
      if a != r { At(t, lo, hi, a); }
      if a != r && b != r && a != b { Disjoint(t, lo, hi, a, b); }
      if a != r && a != p { Disjoint(t, lo, hi, a, p); }
      if b != r && b != p { Disjoint(t, lo, hi, b, p); }
    }
  }

  lemma CutTags(m: map<int, int>, m': map<int, int>, t: Tiles, lo: int, hi: int, p: int, nb: int)
    requires Tags(m, t, lo, hi) && p in t.size && p in t.used && Next(t, p) in t.size
    requires MIN_CHUNK_SIZE <= nb <= t.size[p] - MIN_CHUNK_SIZE && nb % 8 == 0
    requires m'.Keys == m.Keys && p + HEAD in m && p + nb + HEAD in m
    requires m'[p + HEAD] == nb + 2 + Bit(p in t.pin, 1) && m'[p + nb + HEAD] == t.size[p] - nb + 3
    requires forall a :: a in m && a != p + HEAD && a != p + nb + HEAD ==> m'[a] == m[a]
    ensures Tags(m', Cut(t, p, nb), lo, hi)
  {
    var t', r := Cut(t, p, nb), p + nb;
    CutTiling(t, lo, hi, p, nb);
    At(t, lo, hi, p);
    forall q | q in t'.size ensures Tagged(m', t', q) {
      if q != r {
        At(t, lo, hi, q);
        assert Tagged(m, t, q);
        if q != p { Disjoint(t, lo, hi, p, q); }
        if q !in t.pin {
          var b := q - m[q];
          assert b in t.size && b != p;
        }
      }
    }
  }

  /** A chunk in use grows into the last chunk. */
  function Grown(t: Tiles, p: int, nb: int, hi: int): Tiles
    requires p in t.size
  {
    Tiles((t.size - {Next(t, p)})[p := nb][p + nb := hi - (p + nb)], t.used, t.pin - {Next(t, p)} + {p + nb})
  }

  lemma GrowTiling(t: Tiles, lo: int, hi: int, p: int, nb: int)
    requires Tiling(t, lo, hi) && p in t.size && p in t.used && Next(t, p) in t.size && Next(t, p) !in t.used
    requires Next(t, Next(t, p)) == hi && t.size[p] < nb < hi - p && nb % 8 == 0
    ensures Tiling(Grown(t, p, nb, hi), lo, hi)
  {
    var t', r, top := Grown(t, p, nb, hi), p + nb, Next(t, p);
    At(t, lo, hi, p);
    At(t, lo, hi, top);
    Inside(t, lo, hi, top, r);
    End(t, lo, hi);
    forall q | q in t'.size ensures TileOk(t', lo, hi, q) && Marked(t', q) {
      if q != r {
        At(t, lo, hi, q);
        if q != p { Disjoint(t, lo, hi, p, q); Disjoint(t, lo, hi, top, q); }
      }
    }
    forall a, b | a in t'.size && b in t'.size ensures Ordered(t', a, b) {
      if a != r { At(t, lo, hi, a); if a != p { Disjoint(t, lo, hi, a, p); Disjoint(t, lo, hi, a, top); } }
      if b != r { At(t, lo, hi, b); if b != p { Disjoint(t, lo, hi, b, p); Disjoint(t, lo, hi, b, top); } }
      if a != r && b != r && a != b { Disjoint(t, lo, hi, a, b); }
    }
  }

  lemma GrowTags(m: map<int, int>, m': map<int, int>, t: Tiles, lo: int, hi: int, p: int, nb: int)
    requires Tags(m, t, lo, hi) && p in t.size && p in t.used && Next(t, p) in t.size && Next(t, p) !in t.used
    requires Next(t, Next(t, p)) == hi && t.size[p] < nb < hi - p && nb % 8 == 0
    requires m'.Keys == m.Keys && p + HEAD in m && p + nb + HEAD in m
    requires m'[p + HEAD] == nb + 2 + Bit(p in t.pin, 1) && m'[p + nb + HEAD] == hi - (p + nb) + 1
    requires forall a :: a in m && a != p + HEAD && a != p + nb + HEAD ==> m'[a] == m[a]
    ensures Tags(m', Grown(t, p, nb, hi), lo, hi)
  {
    var t', r, top := Grown(t, p, nb, hi), p + nb, Next(t, p);
    GrowTiling(t, lo, hi, p, nb);
    At(t, lo, hi, p);
    At(t, lo, hi, top);
    Inside(t, lo, hi, top, r);
    End(t, lo, hi);
    forall q | q in t'.size ensures Tagged(m', t', q) {
      if q != r {
        At(t, lo, hi, q);
        assert Tagged(m, t, q);
        if q != p { Disjoint(t, lo, hi, p, q); Disjoint(t, lo, hi, top, q); }
        if q !in t.pin {
          var b := q - m[q];
          assert b in t.size && b != p;
          At(t, lo, hi, b);
        }
      }
    }
  }

  /** Only the last chunk ends at the end. */
  lemma LastOne(t: Tiles, lo: int, hi: int, p: int, q: int)
    requires Tiling(t, lo, hi) && p in t.size && q in t.size && p != q && Next(t, q) == hi
    ensures Next(t, p) != hi
  {
    At(t, lo, hi, p);
    At(t, lo, hi, q);
    Disjoint(t, lo, hi, p, q);
  }
}
