/** The allocator's state, changed in place. */
module AllocState {
  import opened AllocIndex
  import opened AllocRing
  import opened BitSets
  import opened AllocTrie
  import opened AllocPrune
  import opened AllocRings
  import opened AllocWords
  import opened AllocLink
  import opened AllocUnlink
  import opened AllocSmall
  import opened AllocTiles
  import opened AllocPlaces

  lemma BothBits(w: int)
    ensures w % 4 == 3 <==> w % 2 == 1 && w / 2 % 2 == 1
  {
    assert w == 4 * (w / 4) + w % 4;
    assert w % 4 == 3 ==> w == 2 * (2 * (w / 4) + 1) + 1;
  }

  class MallocState {
    var mem: map<int, int>
    var treebins: seq<int>
    var treemap: set<int>
    var smallmap: set<int>
    /** The designated victim and the top chunk. */
    var dv: int
    var dvsize: int
    var top: int
    var topsize: int
    /** Where the list of the small bins is, and the segment behind it. */
    const bins: int
    const lo: int
    const hi: int
    /** What the memory means: the tree words of `own` and the link words of `links`. */
    ghost var h: Heap
    ghost var own: set<int>
    ghost var links: set<int>
    ghost var path: map<int, seq<int>>
    ghost var ring: map<int, seq<int>>
    ghost var head: map<int, int>
    ghost var lists: seq<seq<int>>
    ghost var bin: map<int, int>
    /** The chunks of the segment. */
    ghost var tiles: Tiles

    /** A state that is otherwise zeroed out. */
    ghost predicate Zeroed()
      reads this`treebins, this`treemap, this`smallmap, this`dv, this`dvsize, this`top, this`topsize, this`own,
        this`links,
            this`path, this`ring, this`head, this`lists, this`bin, this`tiles
    {
      && treebins == seq(32, _ => 0) && treemap == {} && smallmap == {} && dv == 0 && dvsize == 0
      && top == lo && topsize == hi - lo && own == {} && links == Headers(bins) && path == map[] && ring == map[]
      && head == map[] && lists == seq(32, _ => []) && bin == map[] && tiles == OneChunk(lo, hi)
    }

    /** init_bins and init_top (lj_alloc_create) on the words `m`. */
    constructor (m: map<int, int>, bins: int, lo: int, hi: int)
      requires Ground(m, bins, lo, hi) && lo % 8 == 0 && hi % 8 == 0
      ensures Inv({}) && tiles == OneChunk(lo, hi) && this.lo == lo && this.hi == hi
    {
      hide Inv, Ground;
      this.bins, this.lo, this.hi := bins, lo, hi;
      mem := m;
      treebins, treemap, smallmap := seq(32, _ => 0), {}, {};
      dv, dvsize := 0, 0;
      top, topsize := lo, hi - lo;
      own, links, path, ring, head := {}, Headers(bins), map[], map[], map[];
      lists, bin, tiles := seq(32, _ => []), map[], OneChunk(lo, hi);
      new;
      Init();
    }

    method Init()
      requires Zeroed() && Ground(mem, bins, lo, hi) && lo % 8 == 0 && hi % 8 == 0
      modifies this`mem, this`h
      ensures Inv({})
    {
      hide Zeroed, Agrees, Apart, TreeInv, SmallInv, Tags, Placed, OneChunk, Inv, RingsInv, BlankHeap, Headers;
      ghost var m := mem;
      InitBins();
      mem := mem[lo + HEAD := hi - lo + 1];
      mem := mem[hi + HEAD := TOP_FOOT_SIZE];
      Linked(m);
      h := BlankHeap(mem, bins);
      EmptyBins(mem, bins);
      OneChunkOk(mem, lo, hi);
      Initial(m);
    }

    lemma Initial(m: map<int, int>)
      requires Zeroed() && Ground(m, bins, lo, hi) && mem.Keys == m.Keys
      requires Agrees(mem, h, {}, Headers(bins)) && Apart({}, Headers(bins)) && TreeInv(h, map[])
      requires SmallInv(h.fd, h.bk, bins, {}, seq(32, _ => []), map[])
      requires h.root == seq(32, _ => 0) && h.treemap == {}
      requires Tags(mem, OneChunk(lo, hi), lo, hi)
      requires Placed(OneChunk(lo, hi), hi, Places({}, map[], lo, hi - lo, 0, 0), {})
      ensures Inv({})
    {
      hide Agrees, Apart, TreeInv, SmallInv, Tags, Placed;
      GroundKept(m, mem, bins, lo, hi);
      assert Headers(bins) + bin.Keys == Headers(bins);
    }

    /** init_bins: circular links for the small bins. */
    method InitBins()
      requires Ground(mem, bins, lo, hi)
      modifies this`mem
      ensures mem.Keys == old(mem).Keys
      ensures forall i :: 0 <= i < 32 ==> mem[Header(bins, i) + FD] == mem[Header(bins, i) + BK] == Header(bins, i)
    {
      ghost var m := mem;
      assert forall i :: 0 <= i < 32 ==> Header(bins, i) + FD in m && Header(bins, i) + BK in m;
      var i := 0;
      while i < 32
        invariant 0 <= i <= 32 && mem.Keys == m.Keys
        invariant forall j :: 0 <= j < i ==> mem[Header(bins, j) + FD] == mem[Header(bins, j) + BK] == Header(bins, j)
      {
        var b := Header(bins, i);
        mem := mem[b + FD := b];
        mem := mem[b + BK := b];
        i := i + 1;
      }
    }

    lemma Linked(m: map<int, int>)
      requires Ground(m, bins, lo, hi) && mem.Keys == m.Keys
      ensures forall n :: n in Headers(bins) ==> n + FD in mem && n + BK in mem
    {}

    /** The ghost reading of memory is right. */
    ghost predicate Reads()
      reads this`mem, this`h, this`own, this`links, this`treebins, this`treemap
    {
      && Agrees(mem, h, own, links) && Apart(own, links)
      && h.root == treebins && h.treemap == treemap
    }

    /** The tree bins are in order; their chunks are among `own`. */
    ghost predicate Forest()
      reads this`mem, this`h, this`own, this`links, this`treebins, this`treemap, this`path, this`ring, this`head
    {
      && Reads()
      && TreeInv(h, path) && RingsInv(h, ring, head)
      && ring.Keys == path.Keys && head.Keys <= own
    }

    /** The tree bins hold the chunks `own`. */
    ghost predicate Trees()
      reads this`mem, this`h, this`own, this`links, this`treebins, this`treemap, this`path, this`ring, this`head
    {
      Forest() && head.Keys == own
    }

    /** Since `m0` and `h0`, only tree and link words of `own` have changed. */
    ghost predicate Since(m0: map<int, int>, h0: Heap)
      reads this
    {
      Kept(m0, mem, own, {}) && LinksKept(h0, h, links)
    }

    /** Write one field of a large chunk. */
    method Set(n: int, off: int, v: int, ghost m0: map<int, int>, ghost h0: Heap)
      requires Reads() && n in own && Field(own, {}, n, off) && Since(m0, h0)
      modifies this`mem, this`h
      ensures Reads() && Since(m0, h0)
      ensures n + off in old(mem) && mem == old(mem)[n + off := v] && h == Store(old(h), n, off, v)
      ensures h.size == old(h).size && h.root == old(h).root && h.treemap == old(h).treemap
    {
      hide Agrees, Apart, Kept, LinksKept;
      FieldMapped(mem, h, own, links, n, off);
      StoreAgrees(mem, h, own, links, n, off, v);
      StoreKept(m0, mem, own, {}, n, off, v);
      NotLink(own, links, n);
      StoreLinks(h0, h, links, n, off, v);
      mem := mem[n + off := v];
      h := Store(h, n, off, v);
    }

    method SetRoot(i: int, v: int, ghost m0: map<int, int>, ghost h0: Heap)
      requires Reads() && 0 <= i < |treebins| && Since(m0, h0)
      modifies this`treebins, this`h
      ensures Reads() && Since(m0, h0) && treebins == old(treebins)[i := v] && h == old(h).(root := treebins)
    {
      RootAgrees(mem, h, own, links, treebins[i := v], treemap);
      treebins := treebins[i := v];
      h := h.(root := treebins);
    }

    method Mark(i: int, ghost m0: map<int, int>, ghost h0: Heap)
      requires Reads() && Since(m0, h0)
      modifies this`treemap, this`h
      ensures Reads() && Since(m0, h0) && treemap == old(treemap) + {i} && h == old(h).(treemap := treemap)
    {
      RootAgrees(mem, h, own, links, treebins, treemap + {i});
      treemap := treemap + {i};
      h := h.(treemap := treemap);
    }

    method Unmark(i: int, ghost m0: map<int, int>, ghost h0: Heap)
      requires Reads() && Since(m0, h0)
      modifies this`treemap, this`h
      ensures Reads() && Since(m0, h0) && treemap == old(treemap) - {i} && h == old(h).(treemap := treemap)
    {
      RootAgrees(mem, h, own, links, treebins, treemap - {i});
      treemap := treemap - {i};
      h := h.(treemap := treemap);
    }

    function Word(n: int, off: int): (w: int)
      reads this
      requires n + off in mem
    {
      mem[n + off]
    }

    /** Find the smallest of a subtree (the last loop of tmalloc_large). */
    method WalkLeft(t0: int, nb: int, v0: int, rsize0: int) returns (v: int, rsize: int)
      requires Trees() && 256 <= nb < TWO64
      requires t0 == 0 || (t0 in path && HasWords(h, t0))
      requires Best(h, path, nb, v0, rsize0)
      requires rsize0 == 0 || nb >= TWO40 || AllFit(h, path, nb, t0)
      ensures Best(h, path, nb, v, rsize) && rsize <= rsize0 && (v0 != 0 ==> v != 0)
      ensures Covers(h, path, nb, t0, 0, rsize)
    {
      hide TreeInv, OnPath, UpOk, DownOk, Agrees, Apart, RingsInv;
      NoZero(h, path);
      var t := t0;
      v, rsize := v0, rsize0;
      if t0 != 0 { DepthBound(h, path, t0); }
      while t != 0
        invariant t != 0 ==> t0 != 0 && HasWords(h, t0) && Under(h, path, h.index[t0], t0, t) && |path[t]| <= 64
        invariant Best(h, path, nb, v, rsize) && rsize <= rsize0 && (v0 != 0 ==> v != 0)
        invariant Covers(h, path, nb, t0, t, rsize)
        decreases t != 0, if t == 0 then 0 else 64 - |path[t]|
      {
        ReadNode(t);
        NodeAt(h, path, t);
        ghost var r0 := rsize;
        BestStep(h, path, nb, v, rsize, t);
        var trem := Sub64(ChunkSize(Word(t, HEAD)), nb);
        if trem < rsize {
          rsize := trem;
          v := t;
        }
        WalkStep(h, path, nb, t0, t, r0, rsize);
        ChildUnder(h, path, t0, t);
        t := if Word(t, CHILD0) != 0 then Word(t, CHILD0) else Word(t, CHILD1);
      }
    }

    /** A node's words can be read. */
    lemma ReadNode(t: int)
      requires Forest() && t in path
      ensures TreeWords(mem, h, t) && t in own && t in ring && t in head && head[t] == t
    {
      assert GroupOk(h, ring, head, t);
      assert MemberOk(h, ring, head, t, 0);
    }

    /** Traverse the tree of the request's own bin (the first loop of tmalloc_large): `t` is the
        least subtree left to search. */
    method SearchBin(nb: int, idx: int) returns (t: int, v: int, rsize: int)
      requires Trees() && 256 <= nb < TWO64 && idx == TreeIndex(nb) && 0 <= idx < |treebins| && treebins[idx] != 0
      ensures Best(h, path, nb, v, rsize)
      ensures v != 0 ==> h.index[v] == idx
      ensures Remaining(h, path, nb, idx, t, rsize)
    {
      hide TreeInv, Remaining, Searching, Best, Sub64, Pow2, LeftShift, TreeIndex, Agrees, Apart, RingsInv, HasWords;
      NoZero(h, path);
      StartBest(h, path, nb);
      StartSearch(h, path, nb, idx, Sub64(0, nb));
      t := treebins[idx];
      var sizebits, rst := Key(idx, nb, 0), 0;
      v, rsize := 0, Sub64(0, nb);
      while true
        invariant Best(h, path, nb, v, rsize) && Searching(h, path, nb, idx, t, rst, rsize)
        invariant v != 0 ==> v in h.index && h.index[v] == idx
        invariant t in path && |path[t]| <= 64 && sizebits == Key(idx, nb, |path[t]|)
        decreases 65 - |path[t]|
      {
        ReadNode(t);
        SearchAt(h, path, nb, idx, t, rst, rsize);
        ghost var r0 := rsize;
        BestStep(h, path, nb, v, rsize, t);
        var trem := Sub64(ChunkSize(Word(t, HEAD)), nb);
        if trem < rsize {
          v, rsize := t, trem;
          if rsize == 0 {
            ExactFit(h, path, nb, idx, t, rst, r0);
            break;
          }
        }
        SearchStep(h, path, nb, idx, t, rst, r0, rsize);
        var rt := Word(t, CHILD1);
        t := if sizebits / TWO63 == 0 then Word(t, CHILD0) else Word(t, CHILD1);
        if rt != 0 && rt != t { rst := rt; }
        if t == 0 {
          t := rst;
          break;
        }
        sizebits := (2 * sizebits) % TWO64;
      }
    }

    /** The best fitting chunk of the tree bins (tmalloc_large up to the choice of `v`). */
    method BestFit(nb: int) returns (v: int, rsize: int)
      requires Trees() && 256 <= nb < TWO64
      ensures Best(h, path, nb, v, rsize)
      ensures forall n :: n in path && HasWords(h, n) && h.size[n] >= nb ==> v != 0 && h.size[v] <= h.size[n]
    {
      hide TreeInv, AllFit, Left, Covers, RootOk, TreeIndex, OnPath, UpOk, DownOk, Agrees, Apart, RingsInv;
      var t, idx := 0, TreeIndex(nb);
      TreeShape(h, path);
      v, rsize := 0, Sub64(0, nb);
      if treebins[idx] != 0 {
        t, v, rsize := SearchBin(nb, idx);
      } else {
        NothingHere(h, path, nb, idx, rsize);
      }
      NoneFit(h, path, nb);
      ghost var found, v1, t1, r1 := t != 0 || v != 0, v, t, rsize;
      if t == 0 && v == 0 {
        var i := LeastFrom(treemap, idx + 1);
        if i < 32 {
          t := treebins[i];
          HigherFits(h, path, nb, t);
        }
      }
      ghost var t2 := t;
      v, rsize := WalkLeft(t, nb, v, rsize);
      forall n | n in path && HasWords(h, n) && h.size[n] >= nb ensures v != 0 && h.size[v] <= h.size[n] {
        if found {
          FoundBest(h, path, nb, idx, v1, t1, r1, rsize, n);
        } else {
          NextBest(h, path, nb, idx, t2, r1, rsize, n);
        }
      }
    }

    /** The least chunk of the tree bins (tmalloc_small up to the choice of `v`). */
    method LeastFit(nb: int) returns (v: int, rsize: int)
      requires Trees() && 0 < nb < 256 && treemap != {}
      ensures v in path && v in h.size && rsize == h.size[v] - nb
      ensures forall n :: n in path && HasWords(h, n) ==> h.size[v] <= h.size[n]
    {
      hide TreeInv, OnPath, UpOk, DownOk, Agrees, Apart, RingsInv;
      TreeShape(h, path);
      NoZero(h, path);
      var i := LeastFrom(treemap, 0);
      assert i < 32;
      var t := treebins[i];
      ghost var t0 := t;
      ReadNode(t);
      AllLarge(h, path, nb, t);
      SizeBound(h, path, t);
      v, rsize := t, ChunkSize(Word(t, HEAD)) - nb;
      assert rsize == h.size[t] - nb;
      WalkStep(h, path, nb, t, t, rsize, rsize);
      ChildUnder(h, path, t, t);
      t := if Word(t, CHILD0) != 0 then Word(t, CHILD0) else Word(t, CHILD1);
      while t != 0
        invariant t != 0 ==> Under(h, path, h.index[t0], t0, t) && |path[t]| <= 64
        invariant v in path && v in h.size && rsize == h.size[v] - nb
        invariant Covers(h, path, nb, t0, t, rsize)
        decreases t != 0, if t == 0 then 0 else 64 - |path[t]|
      {
        ReadNode(t);
        SizeBound(h, path, t);
        ghost var r0 := rsize;
        var trem := ChunkSize(Word(t, HEAD)) - nb;
        if trem < rsize {
          rsize := trem;
          v := t;
        }
        WalkStep(h, path, nb, t0, t, r0, rsize);
        ChildUnder(h, path, t0, t);
        t := if Word(t, CHILD0) != 0 then Word(t, CHILD0) else Word(t, CHILD1);
      }
      forall n | n in path && HasWords(h, n) ensures h.size[v] <= h.size[n] {
        LeastBin(h, path, nb, t0, rsize, n);
      }
    }

    /** A free chunk comes in, to be linked. */
    method Admit(x: int, s: int)
      requires Trees() && x > 0 && x !in own && x !in links && Apart(own + {x}, links)
      requires Mapped(mem, x) && ChunkSize(mem[x + HEAD]) == s && 256 <= s < TWO40
      modifies this`mem, this`h, this`own
      ensures Waits(x) && own == old(own) + {x}
      ensures Sized(h, x) && h.size == old(h).size[x := s] && Since(old(mem), old(h))
    {
      hide Store, TreeInv, RingsInv, TreeIndex, Agrees, Apart, ButFor, Kept, LinksKept, Sized, HasWords;
      NotHead();
      FreshOk(mem, h, own, links, x, s);
      WithChunkAgrees(mem, h, own, links, x);
      own := own + {x};
      h := WithChunk(mem, h, x);
      Set(x, INDEX, TreeIndex(s), old(mem), old(h));
      Set(x, CHILD0, 0, old(mem), old(h));
      Set(x, CHILD1, 0, old(mem), old(h));
      ButForTree(old(h), h, path, x);
      ButForRings(old(h), h, ring, head, x);
    }

    lemma NotHead()
      requires Forest()
      ensures path.Keys <= head.Keys
    {
      forall t | t in path ensures t in head {
        ReadNode(t);
      }
    }

    /** The loop of insert_large_chunk: down to the node of size `s`, or to the free place where it
        belongs. */
    method FindSpot(s: int) returns (t: int, b: int)
      requires Forest() && 256 <= s < TWO40 && TreeIndex(s) in treemap
      ensures t in path && HasWords(h, t) && Descending(h, path, s, t)
      ensures h.size[t] != s ==>
        && |path[t]| < 64 && b == Turn(TreeIndex(s), s, |path[t]|) && Child(h, t, b) == 0
        && forall n :: n in path && n in h.size ==> h.size[n] != s
    {
      hide TreeInv, RingsInv, Agrees, Apart, TreeIndex, Descending, HasWords;
      SpotStart(h, path, s);
      var i := TreeIndex(s);
      t := treebins[i];
      b := 0;
      DescendingAt(h, path, s, t);
      var k := Key(i, s, 0);
      while true
        invariant Descending(h, path, s, t) && t in path && |path[t]| <= 64
        invariant k == Key(i, s, |path[t]|)
        decreases 64 - |path[t]|
      {
        ReadNode(t);
        if ChunkSize(Word(t, HEAD)) == s {
          break;
        }
        SpotStep(h, path, s, t);
        b := k / TWO63;
        k := (2 * k) % TWO64;
        var c := Word(t, if b == 0 then CHILD0 else CHILD1);
        if c == 0 {
          break;
        }
        t := c;
        DescendingAt(h, path, s, t);
      }
    }

    /** `x` has come in and waits for its place. */
    ghost predicate Waits(x: int)
      reads this`mem, this`h, this`own, this`links, this`treebins, this`treemap, this`path, this`ring, this`head
    {
      && Reads() && path.Keys <= own && own == head.Keys + {x} && x in own && Waiting(h, path, ring, head, x)
    }

    /** A chunk becomes a ring of its own. */
    method Alone(x: int, ghost m0: map<int, int>, ghost h0: Heap)
      requires Reads() && x in own && Since(m0, h0)
      modifies this`mem, this`h
      ensures Reads() && Since(m0, h0) && h == Store(Store(old(h), x, FD, x), x, BK, x)
      ensures h.size == old(h).size && h.root == old(h).root && h.treemap == old(h).treemap
    {
      hide Store, Agrees, Apart, Kept, LinksKept;
      Set(x, FD, x, m0, h0);
      Set(x, BK, x, m0, h0);
    }

    method PlantRoot(x: int, i: int, ghost m0: map<int, int>, ghost h0: Heap)
      requires Waits(x) && x in h.index && i == h.index[x] && i !in treemap && Since(m0, h0)
      modifies this`mem, this`h, this`path, this`ring, this`head, this`treebins, this`treemap
      ensures Trees() && h.size == old(h).size && Since(m0, h0)
    {
      hide Store, Waiting, Agrees, Apart, Kept, LinksKept, TreeInv, RingsInv, Forest;
      RootPlanted(h, path, ring, head, x);
      Mark(i, m0, h0);
      SetRoot(i, x, m0, h0);
      Set(x, PARENT, BinSlot(i), m0, h0);
      Alone(x, m0, h0);
      path, ring, head := path[x := []], ring[x := [x]], head[x := x];
      MakeTrees();
    }

    method PlantLeaf(x: int, t: int, b: int, ghost m0: map<int, int>, ghost h0: Heap)
      requires Waits(x) && Hanging(h, path, t, b, x) && OnPath(h, x, path[t] + [b]) && Since(m0, h0)
      modifies this`mem, this`h, this`path, this`ring, this`head
      ensures Trees() && h.size == old(h).size && Since(m0, h0)
    {
      hide Store, Waiting, Agrees, Apart, Kept, LinksKept, TreeInv, RingsInv, Forest, OnPath;
      LeafPlanted(h, path, ring, head, x, t, b);
      Set(t, if b == 0 then CHILD0 else CHILD1, x, m0, h0);
      Set(x, PARENT, t, m0, h0);
      Alone(x, m0, h0);
      path, ring, head := path[x := path[t] + [b]], ring[x := [x]], head[x := x];
      MakeTrees();
    }

    method JoinRing(x: int, t: int, ghost m0: map<int, int>, ghost h0: Heap)
      requires Waits(x) && t in path && HasWords(h, t) && x in h.size && h.size[t] == h.size[x] && Since(m0, h0)
      modifies this`mem, this`h, this`ring, this`head
      ensures Trees() && h.size == old(h).size && Since(m0, h0)
    {
      hide Store, Waiting, Agrees, Apart, Kept, LinksKept, TreeInv, RingsInv, Forest;
      RingJoined(h, path, ring, head, x, t);
      ReadWords(t);
      var f := Word(t, FD);
      Set(t, FD, x, m0, h0);
      Set(f, BK, x, m0, h0);
      Set(x, FD, f, m0, h0);
      Set(x, BK, t, m0, h0);
      Set(x, PARENT, 0, m0, h0);
      ring, head := ring[t := [t, x] + ring[t][1..]], head[x := t];
      MakeTrees();
    }

    lemma ReadWords(n: int)
      requires Reads() && n in own
      ensures TreeWords(mem, h, n)
    {}

    lemma MakeTrees()
      requires Reads() && TreeInv(h, path) && RingsInv(h, ring, head) && ring.Keys == path.Keys && head.Keys == own
      ensures Trees()
    {}

    lemma WaitsForest(x: int)
      requires Waits(x)
      ensures Forest()
    {}

    /** insert_large_chunk. */
    method InsertLarge(x: int, s: int)
      requires Trees() && x > 0 && x !in own && x !in links && Apart(own + {x}, links)
      requires Mapped(mem, x) && ChunkSize(mem[x + HEAD]) == s && 256 <= s < TWO40
      modifies this`mem, this`h, this`own, this`path, this`ring, this`head, this`treebins, this`treemap
      ensures Trees() && own == old(own) + {x} && h.size == old(h).size[x := s]
      ensures Kept(old(mem), mem, own, {}) && LinksKept(old(h), h, links)
    {
      hide Agrees, Apart, Kept, LinksKept, TreeInv, RingsInv, Descending, TreeIndex, OnPath, Waiting;
      Admit(x, s);
      WaitsForest(x);
      var i := TreeIndex(s);
      if i !in treemap {
        PlantRoot(x, i, old(mem), old(h));
      } else {
        var t, b := FindSpot(s);
        ReadNode(t);
        if ChunkSize(Word(t, HEAD)) != s {
          SpotHangs(h, path, ring, head, x, s, t, b);
          PlantLeaf(x, t, b, old(mem), old(h));
        } else {
          JoinRing(x, t, old(mem), old(h));
        }
      }
    }

    /** The words of a node's child slot. */
    function Slot(n: int, b: int): int
      reads this
      requires n + CHILD0 in mem && n + CHILD1 in mem
    {
      if b == 0 then Word(n, CHILD0) else Word(n, CHILD1)
    }

    /** unlink_large_chunk for a chunk without equals: find its last descendant, right before left,
        and cut it off. */
    method CutDeepest(x: int, ghost m0: map<int, int>, ghost h0: Heap) returns (r: int)
      requires Trees() && x in path && Since(m0, h0)
      modifies this`mem, this`h
      ensures Reads() && Since(m0, h0)
      ensures r == 0 ==> Leaf(h, path, x) && h == old(h)
      ensures r != 0 ==>
        && Leaf(old(h), path, r) && path[x] < path[r] && old(h).index[r] == old(h).index[x]
        && h == WithoutChild(old(h), old(h).parent[r], path[r][|path[r]| - 1])
    {
      hide TreeInv, RingsInv, Agrees, Apart, Kept, LinksKept, OnPath;
      NoZero(h, path);
      ReadNode(x);
      ChildAt(h, path, x, 0);
      ChildAt(h, path, x, 1);
      var rp, rb := x, 1;
      r := Word(x, CHILD1);
      if r == 0 {
        rb := 0;
        r := Word(x, CHILD0);
      }
      if r != 0 {
        while true
          invariant h == old(h) && mem == old(mem) && Trees() && Since(m0, h0)
          invariant r != 0 && r in path && rp in path && (rb == 0 || rb == 1) && path[r] == path[rp] + [rb]
          invariant HasWords(h, r) && HasWords(h, x) && h.index[r] == h.index[x] && h.parent[r] == rp
          invariant path[x] < path[r] && |path[r]| <= 64
          decreases 64 - |path[r]|
        {
          ReadNode(r);
          ChildAt(h, path, r, 0);
          ChildAt(h, path, r, 1);
          if Word(r, CHILD1) != 0 {
            rp, rb := r, 1;
            r := Word(r, CHILD1);
          } else if Word(r, CHILD0) != 0 {
            rp, rb := r, 0;
            r := Word(r, CHILD0);
          } else {
            break;
          }
        }
        ReadNode(rp);
        Set(rp, if rb == 0 then CHILD0 else CHILD1, 0, m0, h0);
      }
    }

    /** The last steps of unlink_large_chunk: `r` takes the place of `x`. `path1` are the nodes at
        this point. */
    method Regraft(x: int, xp: int, r: int, ghost path1: map<int, seq<int>>, ghost m0: map<int, int>, ghost h0: Heap)
      requires Reads() && TreeInv(h, path1) && Graft(h, path1, x, r) && xp == h.parent[x] && Since(m0, h0)
      requires path1.Keys <= own && x in own && r in own
      modifies this`mem, this`h, this`treebins
      ensures Reads() && Since(m0, h0) && h == Grafted(old(h), x, r) && h.size == old(h).size
    {
      hide TreeInv, Agrees, Apart, Kept, LinksKept, OnPath;
      ChildAt(h, path1, x, 0);
      ChildAt(h, path1, x, 1);
      NoZero(h, path1);
      HungOwn(h, path1, x, r);
      Rehang(x, xp, r, path1, m0, h0);
      ReadWords(x);
      var c0 := Word(x, CHILD0);
      if c0 != 0 {
        Set(r, CHILD0, c0, m0, h0);
        Set(c0, PARENT, r, m0, h0);
      }
      ReadWords(x);
      var c1 := Word(x, CHILD1);
      if c1 != 0 {
        Set(r, CHILD1, c1, m0, h0);
        Set(c1, PARENT, r, m0, h0);
      }
    }

    /** The first of them: what pointed at `x` points at `r`, and `r` at the parent. */
    method Rehang(x: int, xp: int, r: int, ghost path1: map<int, seq<int>>, ghost m0: map<int, int>, ghost h0: Heap)
      requires Reads() && TreeInv(h, path1) && Graft(h, path1, x, r) && xp == h.parent[x] && Since(m0, h0)
      requires path1.Keys <= own && x in own && r in own
      modifies this`mem, this`h, this`treebins
      ensures Reads() && Since(m0, h0) && h == Hung(old(h), x, r)
    {
      hide TreeInv, Agrees, Apart, Kept, LinksKept, OnPath;
      ReadWords(x);
      RootOf(h, path1, x);
      NoZero(h, path1);
      var i := Word(x, INDEX);
      if treebins[i] == x {
        SetRoot(i, r, m0, h0);
      } else {
        PlaceOf(h, path1, x);
        ReadWords(xp);
        if Word(xp, CHILD0) == x { Set(xp, CHILD0, r, m0, h0); } else { Set(xp, CHILD1, r, m0, h0); }
      }
      Set(r, PARENT, xp, m0, h0);
    }

    /** Without a chunk to take its place, the last node of a bin or a leaf just goes. */
    method Clear(x: int, xp: int, ghost m0: map<int, int>, ghost h0: Heap)
      requires Reads() && Bins(h, path, ring, head, own) && Leaf(h, path, x) && xp == h.parent[x] && Since(m0, h0)
      modifies this`mem, this`h, this`treebins, this`treemap
      ensures Reads() && Since(m0, h0) && h.size == old(h).size
      ensures path[x] == [] ==> 0 <= old(h).index[x] < |old(h).root| && h == WithoutRoot(old(h), old(h).index[x])
      ensures path[x] != [] ==> h == WithoutChild(old(h), xp, path[x][|path[x]| - 1])
    {
      hide TreeInv, Agrees, Apart, Kept, LinksKept, OnPath, RingsInv;
      BinsTrees();
      ReadNode(x);
      RootOf(h, path, x);
      var i := Word(x, INDEX);
      if treebins[i] == x {
        SetRoot(i, 0, m0, h0);
        Unmark(i, m0, h0);
      } else {
        PlaceOf(h, path, x);
        ReadNode(xp);
        if Word(xp, CHILD0) == x { Set(xp, CHILD0, 0, m0, h0); } else { Set(xp, CHILD1, 0, m0, h0); }
      }
    }

    lemma LetGo(x: int)
      requires Reads()
      ensures Agrees(mem, h, own - {x}, links) && Apart(own - {x}, links)
    {}

    lemma TreesBins()
      requires Trees()
      ensures Reads() && Bins(h, path, ring, head, own) && ring.Keys == path.Keys && head.Keys == own
      ensures path.Keys <= own && Since(mem, h)
    {
      NotHead();
    }

    /** unlink_large_chunk. */
    method UnlinkLarge(x: int)
      requires Trees() && x in own
      modifies this`mem, this`h, this`own, this`path, this`ring, this`head, this`treebins, this`treemap
      ensures Trees() && own == old(own) - {x} && h.size == old(h).size
      ensures Kept(old(mem), mem, old(own), {}) && LinksKept(old(h), h, links)
    {
      hide Bins, TreeInv, RingsInv, Agrees, Apart, Kept, LinksKept, OnPath, Graft, Grafted, Store, Forest;
      TreesBins();
      ghost var i := Standing(h, path, ring, head, own, x);
      ghost var t, n := head[x], |ring[head[x]]|;
      ghost var path1, path', ring', head' := path, path, ring, head - {x};
      ReadWords(x);
      var xp := Word(x, PARENT);
      var r;
      if Word(x, BK) != x {
        var f := Word(x, FD);
        r := Word(x, BK);
        if xp == 0 {
          MemberGone(h, path, ring, head, own, x, i);
          ring' := ring[t := ring[t][..i] + ring[t][i + 1..]];
        } else {
          PromoteGraft(h, path, ring, head, own, x);
          Promote(h, path, ring, head, own, x);
          path', ring', head' := (path - {x})[r := path[x]], (ring - {x})[r := [r] + ring[x][1..n - 1]],
            Promoted(head, x, r);
        }
        Set(f, BK, r, old(mem), old(h));
        Set(r, FD, f, old(mem), old(h));
        UnlinkedIs(old(h), x);
      } else {
        r := CutDeepest(x, old(mem), old(h));
        ring' := ring - {x};
        if r == 0 {
          LeafGone(h, path, ring, head, own, x);
          path' := path - {x};
        } else {
          CutGraft(old(h), path, ring, head, own, x, r);
          CutAndGrafted(old(h), path, ring, head, own, x, r);
          path1, path' := path - {r}, (path - {r} - {x})[r := path[x]];
        }
      }
      if xp != 0 {
        if r == 0 {
          Clear(x, xp, old(mem), old(h));
        } else {
          Regraft(x, xp, r, path1, old(mem), old(h));
        }
      }
      path, ring, head := path', ring', head';
      LetGo(x);
      own := own - {x};
      BinsTrees();
    }

    lemma BinsTrees()
      requires Reads() && Bins(h, path, ring, head, own)
      ensures Trees()
    {}

    /** The small bins are in order. */
    ghost predicate Smalls()
      reads this`h, this`links, this`smallmap, this`lists, this`bin
    {
      SmallInv(h.fd, h.bk, bins, smallmap, lists, bin) && links == Headers(bins) + bin.Keys
    }

    ghost predicate AllBins()
      reads this`mem, this`h, this`own, this`links, this`treebins, this`treemap, this`path, this`ring, this`head,
            this`smallmap, this`lists, this`bin
    {
      Trees() && Smalls()
    }

    /** Write one link of a small chunk or header. */
    method SetLink(n: int, off: int, v: int, ghost m0: map<int, int>)
      requires Trees() && n in links && (off == FD || off == BK) && Kept(m0, mem, {}, links)
      modifies this`mem, this`h
      ensures Trees() && Kept(m0, mem, {}, links)
      ensures n + off in old(mem) && mem == old(mem)[n + off := v] && h == Store(old(h), n, off, v)
      ensures h.size == old(h).size
    {
      hide Agrees, Apart, Kept, TreeInv, RingsInv;
      FieldMapped(mem, h, own, links, n, off);
      StoreAgrees(mem, h, own, links, n, off, v);
      StoreKept(m0, mem, {}, links, n, off, v);
      NoNode(n);
      StoreOther(h, own, path, ring, head, n, off, v);
      mem := mem[n + off := v];
      h := Store(h, n, off, v);
    }

    lemma NoNode(n: int)
      requires Trees() && n in links
      ensures n !in own && path.Keys <= own
    {
      NotHead();
      assert n in own ==> FarLink(n, n);
    }

    /** A small chunk comes in, with whatever its link words hold. */
    ghost method EnterLink(x: int)
      requires AllBins() && x !in own && x !in links && Apart(own, links + {x}) && x + FD in mem && x + BK in mem
      modifies this`h, this`links
      ensures Trees() && links == old(links) + {x} && SmallInv(h.fd, h.bk, bins, smallmap, lists, bin)
      ensures h.size == old(h).size && Kept(mem, mem, {}, links) && x in h.fd && x in h.bk
    {
      hide Agrees, Apart, Kept, TreeInv, RingsInv, SmallInv, Headers;
      NotHead();
      LinkComes(mem, h, own, links, x);
      LinkBins(mem, h, own, path, ring, head, x);
      LinkSmalls(mem, h, bins, smallmap, lists, bin, x);
      links := links + {x};
      h := h.(fd := h.fd[x := mem[x + FD]], bk := h.bk[x := mem[x + BK]]);
    }

    lemma HeaderLink(i: int)
      requires Trees() && links >= Headers(bins) && 0 <= i < 32
      ensures Header(bins, i) in links && LinkWords(mem, h, Header(bins, i))
    {}

    /** Link `x` in between its neighbours `b` and `f`. */
    method LinkBetween(b: int, f: int, x: int, ghost m0: map<int, int>)
      requires Trees() && b in links && f in links && x in links && Kept(m0, mem, {}, links)
      modifies this`mem, this`h
      ensures Trees() && Kept(m0, mem, {}, links) && h.size == old(h).size
      ensures h == Store(Store(Store(Store(old(h), b, FD, x), f, BK, x), x, FD, f), x, BK, b)
    {
      hide Trees, Kept, Store;
      SetLink(b, FD, x, m0);
      SetLink(f, BK, x, m0);
      SetLink(x, FD, f, m0);
      SetLink(x, BK, b, m0);
    }

    /** Write two links, one after the other. */
    method SetTwo(n: int, off: int, v: int, n': int, off': int, v': int, ghost m0: map<int, int>)
      requires Trees() && n in links && n' in links && Kept(m0, mem, {}, links)
      requires (off == FD || off == BK) && (off' == FD || off' == BK)
      modifies this`mem, this`h
      ensures Trees() && Kept(m0, mem, {}, links) && h.size == old(h).size
      ensures h == Store(Store(old(h), n, off, v), n', off', v')
    {
      hide Trees, Kept, Store;
      SetLink(n, off, v, m0);
      SetLink(n', off', v', m0);
    }

    /** insert_small_chunk. */
    method InsertSmall(x: int, s: int)
      requires AllBins() && x !in own && x !in links && x > Header(bins, 31) && Apart(own, links + {x})
      requires 0 <= s < 256 && x + FD in mem && x + BK in mem
      modifies this`mem, this`h, this`smallmap, this`links, this`lists, this`bin
      ensures AllBins() && links == old(links) + {x} && h.size == old(h).size
      ensures bin == old(bin)[x := s / 8] && Kept(old(mem), mem, {}, links)
    {
      hide Agrees, Apart, Kept, TreeInv, RingsInv, SmallInv, Headers, Store, Trees;
      var i := s / 8;
      var b := Header(bins, i);
      EnterLink(x);
      HeaderLink(i);
      var f := b;
      LinkedIs(h, b, if i in smallmap then h.fd[b] else b, x);
      SmallInsert(h.fd, h.bk, bins, smallmap, lists, bin, i, x);
      if i !in smallmap {
        smallmap := smallmap + {i};
      } else {
        f := Word(b, FD);
        assert smallmap + {i} == smallmap;
      }
      LinkBetween(b, f, x, old(mem));
      lists, bin := lists[i := [x] + lists[i]], bin[x := i];
    }

    /** unlink_small_chunk. */
    method UnlinkSmall(x: int, s: int)
      requires AllBins() && x in bin && bin[x] == s / 8
      modifies this`mem, this`h, this`smallmap, this`links, this`lists, this`bin
      ensures AllBins() && links == old(links) - {x} && h.size == old(h).size
      ensures bin == old(bin) - {x} && Kept(old(mem), mem, {}, old(links))
    {
      hide Agrees, Apart, Kept, TreeInv, RingsInv, SmallInv, Headers, Store;
      ghost var k := Position(h.fd, h.bk, bins, smallmap, lists, bin, x);
      var i := s / 8;
      SmallRemove(h.fd, h.bk, bins, smallmap, lists, bin, i, k);
      LinkAt(mem, h, own, links, x);
      SameKept(mem, links);
      var f, b := Word(x, FD), Word(x, BK);
      UnlinkedLinks(h, b, f);
      if f == b {
        smallmap := smallmap - {i};
      } else {
        SetTwo(f, BK, b, b, FD, f, old(mem));
      }
      lists, bin := lists[i := lists[i][..k] + lists[i][k + 1..]], bin - {x};
      LinkGoes(x);
      links := links - {x};
    }

    lemma LinkGoes(x: int)
      requires Trees() && x > Header(bins, 31)
      ensures Agrees(mem, h, own, links - {x}) && Apart(own, links - {x}) && x !in Headers(bins)
    {}

    /** unlink_first_small_chunk, with the chunk it takes. */
    method UnlinkFirst(i: int) returns (p: int)
      requires AllBins() && i in smallmap
      modifies this`mem, this`h, this`smallmap, this`links, this`lists, this`bin
      ensures AllBins() && p in old(bin) && old(bin)[p] == i && links == old(links) - {p} && h.size == old(h).size
      ensures bin == old(bin) - {p} && Kept(old(mem), mem, {}, old(links))
    {
      hide Agrees, Apart, Kept, TreeInv, RingsInv, SmallInv, Headers, Store;
      SmallFirst(h.fd, h.bk, bins, smallmap, lists, bin, i);
      SmallRemove(h.fd, h.bk, bins, smallmap, lists, bin, i, 0);
      var b := Header(bins, i);
      LinkAt(mem, h, own, links, b);
      p := Word(b, FD);
      LinkAt(mem, h, own, links, p);
      SameKept(mem, links);
      SmallBin(h.fd, h.bk, bins, smallmap, lists, bin, p);
      var f := Word(p, FD);
      UnlinkedLinks(h, b, f);
      if b == f {
        smallmap := smallmap - {i};
      } else {
        SetTwo(b, FD, f, f, BK, b, old(mem));
      }
      lists, bin := lists[i := lists[i][..0] + lists[i][1..]], bin - {p};
      LinkGoes(p);
      links := links - {p};
    }

    ghost function Where(): Places
      reads this`own, this`bin, this`top, this`topsize, this`dv, this`dvsize
    {
      Places(own, bin, top, topsize, dv, dvsize)
    }

    /** The state of the allocator between two steps: free chunks in `loose` are on their way. */
    ghost predicate Inv(loose: set<int>)
      reads this
    {
      Ground(mem, bins, lo, hi) && AllBins() && Tags(mem, tiles, lo, hi) && Placed(tiles, hi, Where(), loose)
    }

    /** Facts about a chunk. */
    lemma Chunk(loose: set<int>, p: int)
      requires Inv(loose) && p in tiles.size
      ensures lo <= p && p % 8 == 0 && p > 0 && Next(tiles, p) <= hi && 0 < tiles.size[p] < TWO40 &&
        tiles.size[p] % 8 == 0
      ensures p in mem && p + HEAD in mem && ChunkSize(mem[p + HEAD]) == tiles.size[p]
      ensures mem[p + HEAD] % 2 == 1 <==> p in tiles.pin
      ensures mem[p + HEAD] / 2 % 2 == 1 <==> p in tiles.used
      ensures Next(tiles, p) in mem && Next(tiles, p) + HEAD in mem
    {
      hide AllBins, Placed;
      At(tiles, lo, hi, p);
      HeadShows(mem, tiles, lo, hi, p);
    }

    lemma ChunkMapped(loose: set<int>, p: int)
      requires Inv(loose) && p in tiles.size
      ensures tiles.size[p] >= 32 ==> p + FD in mem && p + BK in mem
      ensures tiles.size[p] >= 256 ==> Mapped(mem, p)
    {
      hide AllBins, Placed, Tiling;
      At(tiles, lo, hi, p);
    }

    lemma SmallsKept(h0: Heap)
      requires SmallInv(h0.fd, h0.bk, bins, smallmap, lists, bin) && links == Headers(bins) + bin.Keys
      requires LinksKept(h0, h, links)
      ensures Smalls()
    {
      SmallFrame(h0.fd, h0.bk, bins, smallmap, lists, bin, h.fd, h.bk);
    }

    /** unlink_large_chunk, within the segment. */
    method UnlinkLargeChunk(x: int, ghost loose: set<int>)
      requires Inv(loose) && x in own
      modifies this`mem, this`h, this`own, this`path, this`ring, this`head, this`treebins, this`treemap
      ensures Inv(loose + {x}) && DataKept(old(mem), mem, tiles, tiles.used)
      ensures own == old(own) - {x} && x in tiles.size && x !in tiles.used && x != dv && x != top && x !in bin
    {
      hide Tiling, Tagged, Forest, TreeInv, RingsInv, SmallInv, Agrees, Apart, Headers, Placed, Kept;
      Loosen(tiles, hi, Where(), loose, x);
      PlacedBinned(tiles, lo, hi, Where(), loose, bins);
      UnlinkLarge(x);
      SmallsKept(old(h));
      BinsOnly(old(mem), mem, tiles, lo, hi, bins, old(own), old(links), old(own), {});
      assert bin == bin - {x};
      GroundKept(old(mem), mem, bins, lo, hi);
    }

    /** unlink_small_chunk, within the segment. */
    method UnlinkSmallChunk(x: int, s: int, ghost loose: set<int>)
      requires Inv(loose) && x in bin && x in tiles.size && s == tiles.size[x]
      modifies this`mem, this`h, this`smallmap, this`links, this`lists, this`bin
      ensures Inv(loose + {x}) && DataKept(old(mem), mem, tiles, tiles.used)
      ensures bin == old(bin) - {x} && x !in tiles.used && x != dv && x != top && x !in own
    {
      hide Tiling, Tagged, Forest, TreeInv, RingsInv, SmallInv, Agrees, Apart, Headers, Placed, Kept;
      Loosen(tiles, hi, Where(), loose, x);
      PlacedBinned(tiles, lo, hi, Where(), loose, bins);
      BinAt(tiles, hi, Where(), loose, x);
      UnlinkSmall(x, s);
      BinsOnly(old(mem), mem, tiles, lo, hi, bins, old(own), old(links), {}, old(links));
      assert own == own - {x};
      GroundKept(old(mem), mem, bins, lo, hi);
    }

    /** unlink_first_small_chunk, within the segment. */
    method UnlinkFirstChunk(i: int) returns (p: int)
      requires Inv({}) && i in smallmap
      modifies this`mem, this`h, this`smallmap, this`links, this`lists, this`bin
      ensures Inv({p}) && DataKept(old(mem), mem, tiles, tiles.used)
      ensures p in tiles.size && tiles.size[p] == 8 * i && p !in tiles.used && p != dv && Next(tiles, p) != hi
      ensures p in old(bin) && old(bin)[p] == i
    {
      hide Tiling, Tagged, Forest, TreeInv, RingsInv, SmallInv, Agrees, Apart, Headers, Placed, Kept;
      PlacedBinned(tiles, lo, hi, Where(), {}, bins);
      ghost var s := Where();
      p := UnlinkFirst(i);
      Loosen(tiles, hi, s, {}, p);
      BinAt(tiles, hi, s, {}, p);
      LooseFree(tiles, hi, s, {});
      LastOne(tiles, lo, hi, p, top);
      At(tiles, lo, hi, p);
      BinsOnly(old(mem), mem, tiles, lo, hi, bins, old(own), old(links), {}, old(links));
      assert own == own - {p} && {} + {p} == {p};
      GroundKept(old(mem), mem, bins, lo, hi);
    }

    /** unlink_chunk. */
    method UnlinkChunk(x: int, s: int, ghost loose: set<int>)
      requires Inv(loose) && (x in own || x in bin) && x in tiles.size && s == tiles.size[x]
      modifies this`mem, this`h, this`own, this`path, this`ring, this`head, this`treebins, this`treemap,
               this`smallmap, this`links, this`lists, this`bin
      ensures Inv(loose + {x}) && DataKept(old(mem), mem, tiles, tiles.used)
      ensures own == old(own) - {x} && bin == old(bin) - {x} && x !in tiles.used && x != dv && x != top
    {
      hide AllBins, Tags, Placed, Ground, DataKept;
      Sorted(loose, x);
      if s < 256 { UnlinkSmallChunk(x, s, loose); } else { UnlinkLargeChunk(x, loose); }
    }

    lemma Sorted(loose: set<int>, x: int)
      requires Inv(loose) && (x in own || x in bin)
      ensures x in tiles.size && (x in own <==> tiles.size[x] >= 256) && (x in bin <==> tiles.size[x] < 256)
      ensures x != dv && x != top && x !in tiles.used && Next(tiles, x) != hi
    {
      Loosen(tiles, hi, Where(), loose, x);
      LooseFree(tiles, hi, Where(), loose);
      LastOne(tiles, lo, hi, x, top);
    }

    lemma InvBinned(loose: set<int>)
      requires Inv(loose)
      ensures Binned(tiles, bins, lo, own, links) && Apart(own, links) && Agrees(mem, h, own, links)
      ensures Tiling(tiles, lo, hi) && Tags(mem, tiles, lo, hi) && 0 !in tiles.size && hi !in tiles.size
      ensures tiles.used <= tiles.size.Keys && lo > 0
    {
      hide Tagged, Placed;
      PlacedBinned(tiles, lo, hi, Where(), loose, bins);
      End(tiles, lo, hi);
      assert 0 in tiles.size ==> TileOk(tiles, lo, hi, 0);
    }

    /** The bins are in order if memory is `m`. */
    ghost predicate BinsOf(m: map<int, int>)
      reads this`h, this`own, this`links, this`treebins, this`treemap, this`path, this`ring, this`head,
            this`smallmap, this`lists, this`bin
    {
      && Agrees(m, h, own, links) && Apart(own, links) && h.root == treebins && h.treemap == treemap
      && TreeInv(h, path) && RingsInv(h, ring, head) && ring.Keys == path.Keys && head.Keys == own
      && SmallInv(h.fd, h.bk, bins, smallmap, lists, bin) && links == Headers(bins) + bin.Keys
    }

    /** What work on a chunk that is not in the bins can rely on. */
    lemma Opened(loose: set<int>, p: int)
      requires Inv(loose) && p in tiles.size && (p in loose || p in tiles.used || p == top || p == dv)
      ensures BinsOf(mem) && Binned(tiles, bins, lo, own, links) && Ground(mem, bins, lo, hi)
      ensures Tiling(tiles, lo, hi) && Tags(mem, tiles, lo, hi) && 0 !in tiles.size && hi !in tiles.size
      ensures tiles.used <= tiles.size.Keys && lo > 0 && Placed(tiles, hi, Where(), loose)
      ensures TileOk(tiles, lo, hi, p) && Marked(tiles, p) && p + HEAD in mem
      ensures ChunkSize(mem[p + HEAD]) == tiles.size[p] && (mem[p + HEAD] % 2 == 1 <==> p in tiles.pin)
      ensures mem[p + HEAD] / 2 % 2 == 1 <==> p in tiles.used
      ensures Next(tiles, p) in mem && Next(tiles, p) + HEAD in mem
      ensures Unbinned(tiles, hi, own, links, p, Next(tiles, p)) && p !in own && p !in bin
    {
      InvBinned(loose);
      Chunk(loose, p);
      At(tiles, lo, hi, p);
      UnbinnedAt(tiles, lo, hi, Where(), loose, bins, p);
    }

    /** After work on chunks that are not in the bins. */
    lemma Rebuild(m0: map<int, int>, t0: Tiles, loose: set<int>, p: int, e: int, q: int)
      requires BinsOf(m0) && Ground(m0, bins, lo, hi) && Binned(t0, bins, lo, own, links) && Tiling(t0, lo, hi)
      requires Unbinned(t0, hi, own, links, p, e) && q in t0.size && q !in own && Within(m0, mem, p, e, q)
      requires Tags(mem, tiles, lo, hi) && Placed(tiles, hi, Where(), loose)
      ensures Inv(loose)
    {
      hide Agrees, Apart, TreeInv, RingsInv, SmallInv, Headers, Binned, Unbinned, Tiling, Tagged, Placed;
      GroundKept(m0, mem, bins, lo, hi);
      KeepBins(m0, mem, h, t0, lo, hi, bins, own, links, p, e, q);
    }

    /** set_inuse_and_pinuse on a whole free chunk. */
    method TakeChunk(p: int, s: int)
      requires Inv({p}) && p in tiles.size && s == tiles.size[p] && p != dv && Next(tiles, p) != hi
      modifies this`mem, this`tiles
      ensures Inv({}) && tiles == Taken(old(tiles), p) && DataKept(old(mem), mem, old(tiles), old(tiles).used)
    {
      hide BinsOf, Inv, Tiling, Tagged, Placed, Ground, Binned, Unbinned, Within, DataKept;
      Opened({p}, p);
      TakeAll(mem, tiles, lo, hi, Where(), p);
      Opened({p}, p + s);
      mem := mem[p + HEAD := s + 3];
      mem := mem[p + s + HEAD := SetPin(Word(p + s, HEAD))];
      tiles := Taken(tiles, p);
      Rebuild(old(mem), old(tiles), {}, p, p + s, p + s);
    }

    lemma Inner(loose: set<int>, p: int, nb: int)
      requires Inv(loose) && p in tiles.size && 0 < nb < tiles.size[p] && nb % 8 == 0
      ensures p + nb + HEAD in mem && p + nb in mem
    {
      hide AllBins, Placed, Tiling;
      At(tiles, lo, hi, p);
    }

    /** Take the front of a free chunk. */
    method SplitChunk(p: int, nb: int, rsize: int)
      requires Inv({p}) && p in tiles.size && p != dv && Next(tiles, p) != hi
      requires nb % 8 == 0 && MIN_CHUNK_SIZE <= nb && MIN_CHUNK_SIZE <= rsize && nb + rsize == tiles.size[p]
      modifies this`mem, this`tiles
      ensures Inv({p + nb}) && tiles == Split(old(tiles), p, nb) && p + nb != dv && p + nb !in old(tiles).size
      ensures DataKept(old(mem), mem, old(tiles), old(tiles).used)
    {
      hide BinsOf, Inv, Tiling, Tagged, Placed, Ground, Binned, Unbinned, Within, DataKept;
      Opened({p}, p);
      Inner({p}, p, nb);
      SplitAll(mem, tiles, lo, hi, Where(), p, nb);
      mem := mem[p + HEAD := nb + 3];
      mem := mem[p + nb + HEAD := rsize + 1];
      mem := mem[p + nb + rsize := rsize];
      tiles := Split(tiles, p, nb);
      Rebuild(old(mem), old(tiles), {p + nb}, p, p + nb + rsize, p);
    }

    lemma VictimSplit(nb: int)
      requires Inv({}) && dv != 0 && nb % 8 == 0 && MIN_CHUNK_SIZE <= nb <= dvsize - MIN_CHUNK_SIZE
      ensures dv in tiles.size && dv !in tiles.used && dvsize == tiles.size[dv] && dv + nb !in tiles.size
      ensures BinsOf(mem) && Ground(mem, bins, lo, hi) && Binned(tiles, bins, lo, own, links) && Tiling(tiles, lo, hi)
      ensures Unbinned(tiles, hi, own, links, dv, dv + dvsize) && dv !in own
      ensures Placed(Split(tiles, dv, nb), hi, Where().(dv := dv + nb, dvsize := dvsize - nb), {})
      ensures var n, rsize := dv + dvsize, dvsize - nb;
        var m' := mem[dv + HEAD := nb + 3][dv + nb + HEAD := rsize + 1][n := rsize];
        Tags(m', Split(tiles, dv, nb), lo, hi) && Within(mem, m', dv, n, dv) && DataKept(mem, m', tiles, tiles.used)
    {
      hide AllBins, BinsOf, Tiling, Tagged, Placed, Ground, Binned, Unbinned, Within, DataKept;
      TakeVictim();
      LoosenVictim(tiles, hi, Where(), {});
      assert {} + {dv} == {dv};
      Opened({}, dv);
      Inner({}, dv, nb);
      SplitAll(mem, tiles, lo, hi, Where(), dv, nb);
    }

    /** Take the front of the designated victim. */
    method SplitDv(nb: int)
      requires Inv({}) && dv != 0 && nb % 8 == 0 && MIN_CHUNK_SIZE <= nb <= dvsize - MIN_CHUNK_SIZE
      modifies this`mem, this`tiles, this`dv, this`dvsize
      ensures Inv({}) && old(dv) in old(tiles).size && old(dv) !in old(tiles).used &&
        old(dvsize) == old(tiles).size[old(dv)]
      ensures tiles == Split(old(tiles), old(dv), nb) && old(dv) + nb !in old(tiles).size
      ensures DataKept(old(mem), mem, old(tiles), old(tiles).used)
    {
      hide BinsOf, Inv, Tiling, Tags, Placed, Ground, Binned, Unbinned, Within, DataKept;
      VictimSplit(nb);
      var p := dv;
      var rsize := dvsize - nb;
      var r := p + nb;
      dv := r;
      dvsize := rsize;
      mem := mem[r + HEAD := rsize + 1];
      mem := mem[r + rsize := rsize];
      mem := mem[p + HEAD := nb + 3];
      WriteOrder(old(mem), p + HEAD, nb + 3, r + HEAD, rsize + 1, r + rsize, rsize);
      tiles := Split(tiles, p, nb);
      Rebuild(old(mem), old(tiles), {}, p, r + rsize, p);
    }

    lemma NoAddress(loose: set<int>)
      requires Inv(loose)
      ensures 0 !in tiles.size && hi !in tiles.size && lo > 0
    {
      InvBinned(loose);
    }

    lemma TakeVictim()
      requires Inv({}) && dv != 0
      ensures Tags(mem, tiles, lo, hi) && Placed(tiles, hi, Where(), {}) && dv in tiles.size && dv !in tiles.used
      ensures dvsize == tiles.size[dv] && Next(tiles, dv) != hi && dv != top && lo > 0 && 0 !in tiles.size
    {
      LooseFree(tiles, hi, Where(), {});
      Opened({}, dv);
      LastOne(tiles, lo, hi, dv, top);
    }

    /** Take the whole designated victim. */
    method ExhaustDv()
      requires Inv({}) && dv != 0
      modifies this`mem, this`tiles, this`dv, this`dvsize
      ensures Inv({}) && old(dv) in old(tiles).size && old(dv) !in old(tiles).used &&
        old(dvsize) == old(tiles).size[old(dv)]
      ensures tiles == Taken(old(tiles), old(dv)) && DataKept(old(mem), mem, old(tiles), old(tiles).used)
    {
      hide AllBins, Tiling, Tagged, Placed, Ground, DataKept;
      TakeVictim();
      ForgetVictim(tiles, hi, Where());
      var p := dv;
      var dvs := dvsize;
      dvsize := 0;
      dv := 0;
      TakeChunk(p, dvs);
    }

    /** Take the front of the top chunk. */
    method SplitTop(nb: int)
      requires Inv({}) && nb % 8 == 0 && MIN_CHUNK_SIZE <= nb < topsize
      modifies this`mem, this`tiles, this`top, this`topsize
      ensures Inv({}) && old(top) in old(tiles).size && old(top) !in old(tiles).used
      ensures old(topsize) == old(tiles).size[old(top)] && old(top) + nb !in old(tiles).size
      ensures tiles == Split(old(tiles), old(top), nb) && DataKept(old(mem), mem, old(tiles), old(tiles).used)
    {
      hide BinsOf, Inv, Tiling, Tagged, Placed, Ground, Binned, Unbinned, Within, DataKept;
      TopThere({});
      Opened({}, top);
      SplitTopAll(mem, tiles, lo, hi, Where(), nb);
      Inner({}, top, nb);
      topsize := topsize - nb;
      var rsize := topsize;
      var p := top;
      top := p + nb;
      var r := top;
      mem := mem[r + HEAD := rsize + 1];
      mem := mem[p + HEAD := nb + 3];
      tiles := Split(tiles, p, nb);
      Rebuild(old(mem), old(tiles), {}, p, hi, p);
    }

    lemma TopThere(loose: set<int>)
      requires Inv(loose)
      ensures top in tiles.size && top !in tiles.used && Next(tiles, top) == hi && topsize == tiles.size[top]
      ensures Placed(tiles, hi, Where(), loose) && top !in loose
    {
      LooseFree(tiles, hi, Where(), loose);
    }

    /** insert_chunk. */
    method InsertChunk(x: int, s: int)
      requires Inv({x}) && x != dv && x in tiles.size && s == tiles.size[x] && Next(tiles, x) != hi
      modifies this`mem, this`h, this`own, this`path, this`ring, this`head, this`treebins, this`treemap,
               this`smallmap, this`links, this`lists, this`bin
      ensures Inv({}) && DataKept(old(mem), mem, tiles, tiles.used)
    {
      hide Tiling, Tagged, Forest, TreeInv, RingsInv, SmallInv, Agrees, Apart, Headers, Placed, Kept, Binned;
      LooseFree(tiles, hi, Where(), {x});
      Chunk({x}, x);
      ChunkMapped({x}, x);
      ReadyToBin(tiles, lo, hi, Where(), {x}, bins, x);
      if s < 256 {
        PutSmall(tiles, hi, Where(), x);
        InsertSmall(x, s);
        BinsOnly(old(mem), mem, tiles, lo, hi, bins, own, links, {}, links);
      } else {
        PutLarge(tiles, hi, Where(), x);
        InsertLarge(x, s);
        SmallsKept(old(h));
        BinsOnly(old(mem), mem, tiles, lo, hi, bins, own, links, own, {});
      }
      GroundKept(old(mem), mem, bins, lo, hi);
    }

    lemma VictimFacts(loose: set<int>)
      requires Inv(loose) && dv !in loose
      ensures dv == 0 <==> dvsize == 0
      ensures dv != 0 ==>
        dv in tiles.size && dv !in tiles.used && dvsize == tiles.size[dv] && dv != top && Next(tiles, dv) != hi &&
          dvsize > 0
    {
      LooseFree(tiles, hi, Where(), loose);
      if dv != 0 {
        LastOne(tiles, lo, hi, dv, top);
        At(tiles, lo, hi, dv);
      }
    }

    /** replace_dv, used only when the old victim is known to be small. */
    method ReplaceDv(p: int, s: int)
      requires Inv({p}) && p != dv && p in tiles.size && s == tiles.size[p] && dvsize < 256
      modifies this`mem, this`h, this`smallmap, this`links, this`lists, this`bin, this`dv, this`dvsize
      ensures Inv({}) && dv == p && dvsize == s && DataKept(old(mem), mem, tiles, tiles.used)
    {
      hide Tiling, Tagged, Forest, TreeInv, RingsInv, SmallInv, Agrees, Apart, Headers, Placed, Kept, Binned;
      LooseFree(tiles, hi, Where(), {p});
      VictimFacts({p});
      NoAddress({p});
      var dvs := dvsize;
      if dvs != 0 {
        SwapVictim(tiles, hi, Where(), p);
        ReadyToBin(tiles, lo, hi, Where(), {p}, bins, dv);
        Chunk({p}, dv);
        ChunkMapped({p}, dv);
        PutSmall(tiles, hi, Where().(dv := p, dvsize := s), dv);
        InsertSmall(dv, dvs);
        BinsOnly(old(mem), mem, tiles, lo, hi, bins, own, links, {}, links);
      } else {
        PutVictim(tiles, hi, Where(), p);
        DataSame(mem, tiles, tiles.used);
      }
      dvsize := s;
      dv := p;
      GroundKept(old(mem), mem, bins, lo, hi);
    }

    /** The trees read the sizes of the chunks. */
    lemma OwnSize(loose: set<int>, x: int)
      requires Inv(loose) && x in own
      ensures HasWords(h, x) && x in tiles.size && h.size[x] == tiles.size[x] && 256 <= h.size[x] < TWO40
      ensures x in head && head[x] in path && head[x] in own && HasWords(h, head[x]) && h.size[head[x]] == h.size[x]
      ensures Next(tiles, x) != hi && x != dv && x !in tiles.used && tiles.size[x] % 8 == 0
    {
      hide Placed, Tiling, TreeInv, Apart, SmallInv;
      Sorted(loose, x);
      At(tiles, lo, hi, x);
      HeadShows(mem, tiles, lo, hi, x);
      ReadWords(x);
      Member(h, ring, head, head[x], x);
      SizeBound(h, path, head[x]);
      ReadNode(head[x]);
    }

    /** tmalloc_small. */
    method TmallocSmall(nb: int) returns (r: int)
      requires Inv({}) && treemap != {} && nb % 8 == 0 && MIN_CHUNK_SIZE <= nb < 256 && dvsize < nb
      modifies this
      ensures Inv({}) && r != 0 && Given(old(mem), old(tiles), mem, tiles, r - 16, nb)
      ensures r - 16 in old(own) && forall x ::
        x in old(own) ==> x in old(tiles).size && old(tiles).size[r - 16] <= old(tiles).size[x]
    {
      hide Forest, Smalls, Tags, Placed, Ground, DataKept, Given, HasWords;
      ghost var tiles0 := tiles;
      var v, rsize := LeastFit(nb);
      ReadNode(v);
      OwnSize({}, v);
      forall x | x in own ensures x in tiles.size && tiles.size[v] <= tiles.size[x] { OwnSize({}, x); }
      Chunk({}, v);
      UnlinkLargeChunk(v, {});
      assert {} + {v} == {v};
      if rsize < MIN_CHUNK_SIZE {
        ghost var m1 := mem;
        TakeChunk(v, rsize + nb);
        GivenTaken(m1, tiles0, mem, v, nb);
        GivenLater(old(mem), m1, tiles0, mem, tiles, v, nb);
      } else {
        ghost var m1 := mem;
        SplitChunk(v, nb, rsize);
        GivenSplit(m1, tiles0, mem, v, nb);
        GivenLater(old(mem), m1, tiles0, mem, tiles, v, nb);
        ghost var m2 := mem;
        ReplaceDv(v + nb, rsize);
        GivenThen(old(mem), tiles0, m2, tiles, mem, v, nb);
      }
      r := v + 16;
    }

    /** tmalloc_large: the smallest large chunk that fits, unless there is none or the designated
        victim fits at least as well. */
    method TmallocLarge(nb: int) returns (r: int)
      requires Inv({}) && nb % 8 == 0 && 256 <= nb < TWO64
      modifies this`mem, this`h, this`own, this`path, this`ring, this`head, this`treebins, this`treemap,
               this`smallmap, this`links, this`lists, this`bin, this`tiles
      ensures Inv({})
      ensures r == 0 ==> tiles == old(tiles) && mem == old(mem) && own == old(own) && bin == old(bin)
      ensures r == 0 ==> forall x ::
        x in own && x in tiles.size && tiles.size[x] >= nb ==> nb <= dvsize <= tiles.size[x]
      ensures r != 0 ==>
        && Given(old(mem), old(tiles), mem, tiles, r - 16, nb)
        && r - 16 in old(own) && r - 16 in old(tiles).size && nb <= old(tiles).size[r - 16]
        && (forall x :: x in old(own) && x in old(tiles).size && old(tiles).size[x] >= nb ==>
              old(tiles).size[r - 16] <= old(tiles).size[x])
        && (dvsize >= nb ==> old(tiles).size[r - 16] < dvsize)
    {
      hide Forest, Smalls, Tags, Placed, Ground, DataKept, Given, HasWords, TreeIndex, Sub64;
      ghost var t0, m0 := tiles, mem;
      var v, rsize := BestFit(nb);
      forall x | x in own ensures x in tiles.size &&
        (tiles.size[x] >= nb ==> v != 0 && v in h.size && h.size[v] <= tiles.size[x]) {
        OwnSize({}, x);
      }
      VictimBound();
      Sub64Is(dvsize, nb);
      NoneFits(nb, v, rsize);
      r := 0;
      if v != 0 && rsize < Sub64(dvsize, nb) {
        ReadNode(v);
        OwnSize({}, v);
        Chunk({}, v);
        UnlinkLargeChunk(v, {});
        assert {} + {v} == {v};
        ghost var m1 := mem;
        if rsize < MIN_CHUNK_SIZE {
          TakeChunk(v, rsize + nb);
          GivenTaken(m1, t0, mem, v, nb);
          GivenLater(m0, m1, t0, mem, tiles, v, nb);
        } else {
          SplitChunk(v, nb, rsize);
          GivenSplit(m1, t0, mem, v, nb);
          GivenLater(m0, m1, t0, mem, tiles, v, nb);
          ghost var m2 := mem;
          SplitRest(t0, v, nb);
          InsertChunk(v + nb, rsize);
          GivenThen(m0, t0, m2, tiles, mem, v, nb);
        }
        r := v + 16;
      }
    }

    /** A best fit that is none, or that the victim matches. */
    lemma NoneFits(nb: int, v: int, rsize: int)
      requires Best(h, path, nb, v, rsize) && 0 < nb
      ensures v != 0 ==> v in path && v in h.size && rsize == h.size[v] - nb && nb <= h.size[v] < TWO40
    {}

    lemma VictimBound()
      requires Inv({})
      ensures 0 <= dvsize < TWO40
    {
      VictimFacts({});
      if dv != 0 { Chunk({}, dv); }
    }

    lemma SplitRest(t0: Tiles, p: int, nb: int)
      requires Inv({p + nb}) && p in t0.size && tiles == Split(t0, p, nb) && Next(t0, p) != hi
      ensures p + nb in tiles.size && tiles.size[p + nb] == t0.size[p] - nb && Next(tiles, p + nb) != hi
    {}

    /** The small bins from `i` on are empty. */
    lemma SmallsBelow(i: int)
      requires Inv({}) && (forall j :: i <= j < 32 ==> j !in smallmap)
      ensures forall x :: x in bin && x in tiles.size ==> tiles.size[x] < 8 * i
    {
      hide Placed;
      forall x | x in bin && x in tiles.size ensures tiles.size[x] < 8 * i {
        BinAt(tiles, hi, Where(), {}, x);
        SmallBin(h.fd, h.bk, bins, smallmap, lists, bin, x);
      }
    }

    /** With no mark from `i` up to `k` no binned chunk has a size from there. */
    lemma FirstBin(i: int, k: int)
      requires Inv({}) && (forall j :: i <= j < k ==> j !in smallmap)
      ensures Gap(tiles, Where(), 8 * i, 8 * k)
    {
      hide Placed;
      forall x | x in bin && x in tiles.size ensures !(8 * i <= tiles.size[x] < 8 * k) {
        BinAt(tiles, hi, Where(), {}, x);
        SmallBin(h.fd, h.bk, bins, smallmap, lists, bin, x);
      }
    }

    /** Without a mark there is no large chunk. */
    lemma NoLarge()
      requires Inv({}) && treemap == {}
      ensures own == {}
    {
      hide Placed, Tags;
      forall x ensures x !in own {
        if x in own {
          OwnSize({}, x);
          RootOf(h, path, head[x]);
        }
      }
    }

    lemma LargeSize()
      requires Inv({})
      ensures forall x :: x in own && x in tiles.size ==> tiles.size[x] >= 256
      ensures forall x :: x in bin && x in tiles.size ==> tiles.size[x] < 256
    {
      forall x | x in own && x in tiles.size ensures tiles.size[x] >= 256 { Sorted({}, x); }
      forall x | x in bin && x in tiles.size ensures tiles.size[x] < 256 { Sorted({}, x); }
    }

    /** A small request from the small bins (lj_alloc_malloc). */
    method FromSmallBin(nb: int, i: int) returns (r: int)
      requires Inv({}) && nb % 8 == 0 && MIN_CHUNK_SIZE <= nb <= 8 * i && i in smallmap && i < 32
      requires 8 * i >= nb + MIN_CHUNK_SIZE ==> dvsize < nb
      modifies this`mem, this`h, this`smallmap, this`links, this`lists, this`bin, this`tiles, this`dv, this`dvsize
      ensures Inv({}) && r != 0 && Given(old(mem), old(tiles), mem, tiles, r - 16, nb)
      ensures r - 16 in old(bin) && old(bin)[r - 16] == i
    {
      hide AllBins, Tags, Placed, Ground, DataKept, Given;
      ghost var t0, m0 := tiles, mem;
      var p := UnlinkFirstChunk(i);
      Chunk({p}, p);
      ghost var m1 := mem;
      var rsize := 8 * i - nb;
      if rsize < MIN_CHUNK_SIZE {
        TakeChunk(p, 8 * i);
        GivenTaken(m1, t0, mem, p, nb);
        GivenLater(m0, m1, t0, mem, tiles, p, nb);
      } else {
        SplitChunk(p, nb, rsize);
        GivenSplit(m1, t0, mem, p, nb);
        GivenLater(m0, m1, t0, mem, tiles, p, nb);
        ghost var m2 := mem;
        ReplaceDv(p + nb, rsize);
        GivenThen(m0, t0, m2, tiles, mem, p, nb);
      }
      r := p + 16;
    }

    /** The last resorts of lj_alloc_malloc: the designated victim, then the top chunk. */
    method FromVictimOrTop(nb: int) returns (r: int)
      requires Inv({}) && MIN_CHUNK_SIZE <= nb && (nb % 8 == 0 || nb == TWO64 - 1)
      modifies this`mem, this`tiles, this`dv, this`dvsize, this`top, this`topsize
      ensures Inv({})
      ensures r != 0 ==> nb < TWO40 && Given(old(mem), old(tiles), mem, tiles, r - 16, nb)
      ensures r == 0 <==> old(dvsize) < nb && old(topsize) <= nb
      ensures r != 0 ==> r - 16 == if nb <= old(dvsize) then old(dv) else old(top)
      ensures r == 0 ==> tiles == old(tiles) && mem == old(mem) && dv == old(dv) && dvsize == old(dvsize)
                         && top == old(top) && topsize == old(topsize)
    {
      hide AllBins, Tags, Placed, Ground, DataKept, Given;
      VictimFacts({});
      VictimBound();
      TopThere({});
      Chunk({}, top);
      if nb <= dvsize {
        Chunk({}, dv);
        var rsize := dvsize - nb;
        var p := dv;
        if rsize >= MIN_CHUNK_SIZE {
          SplitDv(nb);
          GivenSplit(old(mem), old(tiles), mem, p, nb);
        } else {
          ExhaustDv();
          GivenTaken(old(mem), old(tiles), mem, p, nb);
        }
        r := p + 16;
      } else if nb < topsize {
        var p := top;
        SplitTop(nb);
        GivenSplit(old(mem), old(tiles), mem, p, nb);
        r := p + 16;
      } else {
        r := 0;
      }
    }

    /** lj_alloc_malloc. Without room in the segment the result is 0, as alloc_sys gets no other
        segment. */
    method Malloc(nsize: nat) returns (r: int)
      requires Inv({}) && nsize < TWO64
      modifies this
      ensures Inv({})
      ensures r != 0 ==> Given(old(mem), old(tiles), mem, tiles, r - 16, RequestSize(nsize))
      ensures r == 0 ==> tiles == old(tiles) && mem == old(mem)
      ensures r == 0 ==> NoRoom(tiles, top, RequestSize(nsize))
      ensures r != 0 ==> Chosen(old(tiles), old(Where()), r - 16, RequestSize(nsize))
    {
      hide AllBins, Inv, Tags, Placed, Ground, DataKept, Given, NoRoom, Chosen, LastResort;
      ghost var t0, s0 := tiles, Where();
      var nb;
      if nsize <= MAX_SMALL_REQUEST {
        nb := if nsize < MIN_REQUEST then MIN_CHUNK_SIZE else PadRequest(nsize);
        r := FromSmalls(nb);
      } else if nsize >= MAX_REQUEST {
        nb, r := TWO64 - 1, 0;
        TooLarge(nsize);
      } else {
        nb := PadRequest(nsize);
        r := FromTrees(nb);
      }
      if r == 0 {
        NothingElse(nb);
        r := FromVictimOrTop(nb);
        if r != 0 {
          ChosenLast(t0, s0, hi, r - 16, nb);
        }
      }
    }

    /** A small request from the small bins and then from the trees; 0 leaves it to the victim and the top chunk. */
    method FromSmalls(nb: int) returns (r: int)
      requires Inv({}) && nb % 8 == 0 && MIN_CHUNK_SIZE <= nb < 256
      modifies this
      ensures Inv({})
      ensures r != 0 ==>
        Given(old(mem), old(tiles), mem, tiles, r - 16, nb) && Chosen(old(tiles), old(Where()), r - 16, nb)
      ensures r == 0 ==> mem == old(mem) && tiles == old(tiles) && Where() == old(Where())
      ensures r == 0 ==> LastResort(tiles, Where(), nb)
    {
      hide AllBins, Inv, Tags, Placed, Ground, DataKept, Given, Chosen, Gap, NoneOf, Least;
      ghost var t0, s0 := tiles, Where();
      TopThere({});
      SmallmapBound();
      r := 0;
      var idx := nb / 8;
      if idx in smallmap || idx + 1 in smallmap {
        var i := if idx in smallmap then idx else idx + 1;
        r := FromBin(nb, i);
      } else if nb > dvsize {
        if LeastFrom(smallmap, idx) < 32 {
          r := FromBin(nb, LeastFrom(smallmap, idx + 1));
        } else {
          SmallsBelow(idx);
          BinsTooSmall(tiles, Where(), nb);
          if treemap != {} {
            r := TmallocSmall(nb);
            LeastOfAll(t0, s0.own, r - 16, nb);
            ChosenOwn(t0, s0, hi, r - 16, nb);
          } else {
            NoLarge();
            NoneOfNone(tiles, nb);
          }
        }
      } else {
        FirstBin(idx, idx + 2);
      }
    }

    /** From small bin `i`, the first one large enough. */
    method FromBin(nb: int, i: int) returns (r: int)
      requires Inv({}) && nb % 8 == 0 && MIN_CHUNK_SIZE <= nb <= 8 * i && i in smallmap && i < 32
      requires 8 * i >= nb + 16 ==> dvsize < nb
      requires forall j :: nb / 8 <= j < i ==> j !in smallmap
      modifies this`mem, this`h, this`smallmap, this`links, this`lists, this`bin, this`tiles, this`dv, this`dvsize
      ensures Inv({}) && r != 0
      ensures Given(old(mem), old(tiles), mem, tiles, r - 16, nb) && Chosen(old(tiles), old(Where()), r - 16, nb)
    {
      hide AllBins, Inv, Tags, Placed, Ground, DataKept, Given, Chosen, Gap;
      ghost var t0, s0 := tiles, Where();
      TopThere({});
      FirstBin(nb / 8, i);
      BinnedThere();
      r := FromSmallBin(nb, i);
      ChosenBin(t0, s0, hi, r - 16, nb, i);
    }

    lemma BinnedThere()
      requires Inv({})
      ensures bin.Keys <= tiles.size.Keys && forall x :: x in bin ==> tiles.size[x] % 8 == 0
    {
      hide Inv;
      forall x | x in bin
        ensures x in tiles.size && tiles.size[x] % 8 == 0
      {
        Sorted({}, x);
        Chunk({}, x);
      }
    }

    /** A large request from the trees; 0 leaves it to the victim and the top chunk. */
    method FromTrees(nb: int) returns (r: int)
      requires Inv({}) && nb % 8 == 0 && 256 <= nb < TWO64
      modifies this
      ensures Inv({})
      ensures r != 0 ==>
        Given(old(mem), old(tiles), mem, tiles, r - 16, nb) && Chosen(old(tiles), old(Where()), r - 16, nb)
      ensures r == 0 ==> mem == old(mem) && tiles == old(tiles) && Where() == old(Where())
      ensures r == 0 ==> LastResort(tiles, Where(), nb)
    {
      hide AllBins, Inv, Tags, Placed, Ground, DataKept, Given, Chosen, Gap, NoneOf, Least;
      ghost var t0, s0 := tiles, Where();
      TopThere({});
      LargeSize();
      BinsTooSmall(tiles, Where(), nb);
      r := 0;
      if treemap != {} {
        r := TmallocLarge(nb);
        if r != 0 {
          LeastOfAll(t0, s0.own, r - 16, nb);
          ChosenOwn(t0, s0, hi, r - 16, nb);
        } else {
          VictimServes(nb);
        }
      } else {
        NoLarge();
        VictimServes(nb);
      }
    }

    /** When the trees have nothing better than the victim. */
    lemma VictimServes(nb: int)
      requires Inv({}) && nb > 0
      requires forall x :: x in own && x in tiles.size && tiles.size[x] >= nb ==> nb <= dvsize <= tiles.size[x]
      ensures if nb <= dvsize then Least(tiles, own, dv, nb) else NoneOf(tiles, own, nb)
    {
      hide Inv;
      VictimFacts({});
    }

    /** Without room the victim and the top chunk are too small as well. */
    lemma NothingElse(nb: int)
      requires Inv({}) && (nb == TWO64 - 1 || LastResort(tiles, Where(), nb))
      ensures Placed(tiles, hi, Where(), {})
      ensures nb != TWO64 - 1 && dvsize < nb && topsize <= nb ==> NoRoom(tiles, top, nb)
    {
      hide Inv, Placed, NoRoom;
      NoAddress({});
      TopThere({});
      if nb != TWO64 - 1 && dvsize < nb && topsize <= nb {
        NoRoomBy(tiles, hi, Where(), nb);
      }
    }

    /** No chunk is as large as a request that is too large. */
    lemma TooLarge(nsize: nat)
      requires Inv({}) && nsize >= MAX_REQUEST
      ensures NoRoom(tiles, top, RequestSize(nsize))
      ensures forall x :: x in tiles.size ==> 2 * tiles.size[x] < RequestSize(nsize)
    {
      hide Inv;
      forall x | x in tiles.size
        ensures tiles.size[x] < TWO40
      {
        Chunk({}, x);
      }
    }

    lemma SmallmapBound()
      requires Inv({})
      ensures forall i :: i in smallmap ==> 0 <= i < 32
    {}

    /** What merging a stretch can rely on. */
    lemma StretchOpened(loose: set<int>, p: int, n: int)
      requires Inv(loose) && Stretch(tiles, hi, p, n) && Gathered(tiles, top, loose, p, n)
      ensures BinsOf(mem) && Binned(tiles, bins, lo, own, links) && Ground(mem, bins, lo, hi)
      ensures Tiling(tiles, lo, hi) && Tags(mem, tiles, lo, hi) && lo > 0 && Placed(tiles, hi, Where(), loose)
      ensures Unbinned(tiles, hi, own, links, p, p + n) && p + HEAD in mem && p !in own
      ensures p + n != hi ==>
        && p + n in mem && p + n + HEAD in mem && p + n !in own && p + n in tiles.used && p + n in tiles.size
        && (mem[p + n + HEAD] % 2 == 1 <==> p + n in tiles.pin)
    {
      InvBinned(loose);
      UnbinnedStretch(tiles, lo, hi, Where(), loose, bins, p, n);
      Chunk(loose, p);
      if p + n != hi {
        Chunk(loose, p + n);
        NotInBins(loose, p + n);
      }
    }

    lemma NotInBins(loose: set<int>, u: int)
      requires Inv(loose) && u in tiles.used && u in tiles.size
      ensures u !in own && u !in bin
    {
      if u in own || u in bin { Elsewhere(tiles, hi, Where(), loose, u); }
    }

    /** set_size_and_pinuse_of_free_chunk for all that is free from `p` on. */
    method SetFree(p: int, n: int, ghost loose: set<int>)
      requires Inv(loose) && Stretch(tiles, hi, p, n) && Gathered(tiles, top, loose, p, n)
      requires p + n != hi && p + n !in tiles.pin && (dv in loose ==> dv == p)
      modifies this`mem, this`tiles
      ensures Inv({p}) && tiles == Merged(old(tiles), p, n) && top >= p + n
      ensures DataKept(old(mem), mem, old(tiles), set u | u in old(tiles).used && (u < p || p + n <= u))
    {
      hide BinsOf, Inv, Tiling, Tagged, Placed, Ground, Binned, Unbinned, Within, DataKept, Gathered;
      StretchOpened(loose, p, n);
      PlaceMerged(tiles, lo, hi, Where(), loose, p, n);
      mem := mem[p + HEAD := n + 1];
      mem := mem[p + n := n];
      MergeWords(old(mem), mem, tiles, lo, hi, p, n);
      tiles := Merged(tiles, p, n);
      Rebuild(old(mem), old(tiles), {p}, p, p + n, p + n);
    }

    /** set_free_with_pinuse for all that is free from `p` on. */
    method SetFreeWithPinuse(p: int, n: int, next: int, ghost loose: set<int>)
      requires Inv(loose) && Stretch(tiles, hi, p, n) && Gathered(tiles, top, loose, p, n)
      requires next == p + n != hi && (dv in loose ==> dv == p)
      modifies this`mem, this`tiles
      ensures Inv({p}) && tiles == Merged(old(tiles), p, n) && top >= p + n
      ensures DataKept(old(mem), mem, old(tiles), set u | u in old(tiles).used && (u < p || p + n <= u))
    {
      hide BinsOf, Inv, Tiling, Tagged, Placed, Ground, Binned, Unbinned, Within, DataKept, Gathered;
      StretchOpened(loose, p, n);
      PlaceMerged(tiles, lo, hi, Where(), loose, p, n);
      mem := mem[next + HEAD := ClearPin(Word(next, HEAD))];
      mem := mem[p + HEAD := n + 1];
      mem := mem[p + n := n];
      MergeWords(old(mem), mem, tiles, lo, hi, p, n);
      tiles := Merged(tiles, p, n);
      Rebuild(old(mem), old(tiles), {p}, p, p + n, p + n);
    }

    lemma VictimLoose(loose: set<int>)
      requires Inv(loose) && dv !in loose && dv != 0
      ensures Inv(loose + {dv})
    {
      LoosenVictim(tiles, hi, Where(), loose);
    }

    /** What the bins need to stay in order while chunks that are not in them change. */
    ghost predicate ReadyFor(p: int, e: int)
      reads this
    {
      && BinsOf(mem) && Ground(mem, bins, lo, hi) && Binned(tiles, bins, lo, own, links) && Tiling(tiles, lo, hi)
      && Unbinned(tiles, hi, own, links, p, e)
    }

    lemma JoinDvReady(p: int, psize: int, loose: set<int>)
      requires Inv(loose) && dv !in loose && dv != 0 && dv == p + psize
      requires Stretch(tiles, hi, p, psize + dvsize) && Gathered(tiles, top, loose + {dv}, p, psize + dvsize)
      requires p + psize + dvsize != hi && p + psize + dvsize !in tiles.pin
      ensures var n := psize + dvsize;
        && ReadyFor(p, p + n) && p + n in tiles.size && p + n !in own
        && Placed(Merged(tiles, p, n), hi, Where().(dv := p, dvsize := n), {})
        && var m' := mem[p + HEAD := n + 1][p + n := n];
           && Tags(m', Merged(tiles, p, n), lo, hi) && Within(mem, m', p, p + n, p + n)
           && DataKept(mem, m', tiles, set u | u in tiles.used && (u < p || p + n <= u))
    {
      hide BinsOf, Inv, Tiling, Tagged, Placed, Ground, Binned, Unbinned, Within, DataKept, Gathered;
      var n := psize + dvsize;
      VictimLoose(loose);
      StretchOpened(loose + {dv}, p, n);
      PlaceVictimMerged(tiles, lo, hi, Where(), loose + {dv}, p, n);
      MergeWords(mem, mem[p + HEAD := n + 1][p + n := n], tiles, lo, hi, p, n);
    }

    /** The freed chunk joins the designated victim behind it. */
    method JoinDv(p: int, psize: int, ghost loose: set<int>)
      requires Inv(loose) && dv !in loose && dv != 0 && dv == p + psize
      requires Stretch(tiles, hi, p, psize + dvsize) && Gathered(tiles, top, loose + {dv}, p, psize + dvsize)
      requires p + psize + dvsize != hi && p + psize + dvsize !in tiles.pin
      modifies this`mem, this`tiles, this`dv, this`dvsize
      ensures Inv({}) && dv == p && dvsize == psize + old(dvsize) && tiles == Merged(old(tiles), p, dvsize)
      ensures DataKept(old(mem), mem, old(tiles), set u | u in old(tiles).used && (u < p || p + dvsize <= u))
    {
      hide BinsOf, Inv, Tiling, Tags, Placed, Ground, Binned, Unbinned, Within, DataKept, Gathered, Stretch;
      JoinDvReady(p, psize, loose);
      dvsize := dvsize + psize;
      var dsize := dvsize;
      dv := p;
      mem := mem[p + HEAD := dsize + 1];
      mem := mem[p + dsize := dsize];
      tiles := Merged(tiles, p, dsize);
      Rebuild(old(mem), old(tiles), {}, p, p + dsize, p + dsize);
    }

    lemma JoinTopReady(p: int, psize: int, loose: set<int>)
      requires Inv(loose) && top == p + psize && Stretch(tiles, hi, p, hi - p)
      requires Gathered(tiles, top, loose, p, hi - p) && (dv in loose ==> dv == p) && p != 0
      ensures topsize == hi - top && ReadyFor(p, hi) && p in tiles.size && p !in own
      ensures var s' := Where().(top := p, topsize := hi - p);
        Placed(Merged(tiles, p, hi - p), hi, if dv == p then s'.(dv := 0, dvsize := 0) else s', {})
      ensures var m' := mem[p + HEAD := hi - p + 1];
        && Tags(m', Merged(tiles, p, hi - p), lo, hi) && Within(mem, m', p, hi, p)
        && DataKept(mem, m', tiles, set u | u in tiles.used && (u < p || p + (hi - p) <= u))
    {
      hide BinsOf, Inv, Tiling, Tagged, Placed, Ground, Binned, Unbinned, Within, DataKept, Gathered;
      TopThere(loose);
      StretchOpened(loose, p, hi - p);
      PlaceTopMerged(tiles, lo, hi, Where(), loose, p);
      MergeTopWords(mem, mem[p + HEAD := hi - p + 1], tiles, lo, hi, p);
    }

    /** The freed chunk joins the top chunk. */
    method JoinTop(p: int, psize: int, ghost loose: set<int>)
      requires Inv(loose) && top == p + psize && Stretch(tiles, hi, p, hi - p)
      requires Gathered(tiles, top, loose, p, hi - p) && (dv in loose ==> dv == p) && p != 0
      modifies this`mem, this`tiles, this`dv, this`dvsize, this`top, this`topsize
      ensures Inv({}) && top == p && tiles == Merged(old(tiles), p, hi - p)
      ensures DataKept(old(mem), mem, old(tiles), set u | u in old(tiles).used && (u < p || p + (hi - p) <= u))
    {
      hide BinsOf, Inv, Tiling, Tags, Placed, Ground, Binned, Unbinned, Within, DataKept, Gathered, Stretch;
      JoinTopReady(p, psize, loose);
      topsize := topsize + psize;
      var tsize := topsize;
      top := p;
      mem := mem[p + HEAD := tsize + 1];
      if p == dv {
        dv := 0;
        dvsize := 0;
      }
      tiles := Merged(tiles, p, hi - p);
      Rebuild(old(mem), old(tiles), {}, p, hi, p);
    }

    /** Facts about the chunk to be freed and the one before it. */
    lemma FreeFront(p0: int)
      requires Inv({}) && p0 in tiles.used
      ensures p0 in tiles.size && p0 + HEAD in mem && p0 in mem && ChunkSize(mem[p0 + HEAD]) == tiles.size[p0]
      ensures tiles.used <= tiles.size.Keys && p0 != dv
      ensures Next(tiles, p0) != hi && Next(tiles, p0) in tiles.size && Next(tiles, p0) + HEAD in mem
      ensures mem[p0 + HEAD] % 2 == 1 ==> Front(tiles, p0, p0)
      ensures mem[p0 + HEAD] % 2 != 1 ==>
        && Front(tiles, p0 - mem[p0], p0) && p0 - mem[p0] in tiles.size && tiles.size[p0 - mem[p0]] == mem[p0] > 0
        && p0 - mem[p0] != top && p0 - mem[p0] != 0
        && (p0 - mem[p0] != dv ==> p0 - mem[p0] in own || p0 - mem[p0] in bin)
    {
      hide AllBins, Placed, Tiling;
      TopThere({});
      VictimFacts({});
      NoAddress({});
      InvTiling({});
      Chunk({}, p0);
      At(tiles, lo, hi, p0);
      LastOne(tiles, lo, hi, p0, top);
      assert Tagged(mem, tiles, p0);
      if mem[p0 + HEAD] % 2 != 1 {
        var p := p0 - mem[p0];
        Chunk({}, p);
        PlaceOfFree({}, p);
      }
    }

    lemma InvTiling(loose: set<int>)
      requires Inv(loose)
      ensures Tiling(tiles, lo, hi) && tiles.used <= tiles.size.Keys
    {}

    lemma PlaceOfFree(loose: set<int>, p: int)
      requires Inv(loose) && p in tiles.size && p !in tiles.used
      ensures p == top || p == dv || p in loose || p in own || p in bin
    {
      assert Kept1(tiles, Where(), loose, p);
    }

    /** Chunk `e` behind the one to be freed is free itself. */
    ghost predicate BackFree(p0: int, p: int, e: int, loose: set<int>)
      reads this
    {
      && e in tiles.size && e + HEAD in mem && ChunkSize(mem[e + HEAD]) == tiles.size[e]
      && e !in loose && (e == top || e == dv || e in own || e in bin)
      && Stretch(tiles, hi, p, Next(tiles, e) - p) && OnlyUsed(tiles, p, Next(tiles, e), p0)
      && (e == top ==> Next(tiles, e) == hi && Gathered(tiles, top, loose, p, hi - p))
      && (e != top ==>
            Next(tiles, e) != hi && Next(tiles, e) !in tiles.pin
            && Gathered(tiles, top, loose + {e}, p, Next(tiles, e) - p))
    }

    lemma FreeBackFree(p0: int, p: int, loose: set<int>)
      requires Inv(loose) && Front(tiles, p, p0) && Next(tiles, p0) != hi && Next(tiles, p0) in tiles.size
      requires loose == (if p == p0 then {} else {p}) && Next(tiles, p0) !in tiles.used
      ensures BackFree(p0, p, Next(tiles, p0), loose)
    {
      hide AllBins, Placed, Tiling;
      var e := Next(tiles, p0);
      TopThere(loose);
      InvTiling(loose);
      Chunk(loose, p0);
      Chunk(loose, e);
      FrontStretch(tiles, lo, hi, p, p0);
      BackStretch(tiles, lo, hi, p, p0);
      PlaceOfFree(loose, e);
      if e != top {
        LastOne(tiles, lo, hi, e, top);
        At(tiles, lo, hi, e);
      }
    }

    /** The header of the chunk behind the one to be freed. */
    lemma BackTags(p0: int, p: int, loose: set<int>)
      requires Inv(loose) && Front(tiles, p, p0) && Next(tiles, p0) in tiles.size
      ensures Next(tiles, p0) + HEAD in mem
      ensures mem[Next(tiles, p0) + HEAD] / 2 % 2 == 1 <==> Next(tiles, p0) in tiles.used
      ensures mem[Next(tiles, p0) + HEAD] % 4 == 3 <==> Next(tiles, p0) in tiles.used
    {
      hide AllBins, Placed, Tiling;
      var e := Next(tiles, p0);
      InvTiling(loose);
      Chunk(loose, e);
      At(tiles, lo, hi, p0);
      BothBits(mem[e + HEAD]);
    }

    /** Facts about the chunk behind the one to be freed, once the chunk in front is dealt with. */
    lemma FreeBack(p0: int, p: int, loose: set<int>)
      requires Inv(loose) && Front(tiles, p, p0) && Next(tiles, p0) != hi && Next(tiles, p0) in tiles.size
      requires loose == if p == p0 then {} else {p}
      ensures 0 < p <= p0 < Next(tiles, p0) && Next(tiles, p0) + HEAD in mem
      ensures mem[Next(tiles, p0) + HEAD] / 2 % 2 == 1 <==> Next(tiles, p0) in tiles.used
      ensures mem[Next(tiles, p0) + HEAD] % 4 == 3 <==> Next(tiles, p0) in tiles.used
      ensures Next(tiles, p0) in tiles.used ==>
        && Stretch(tiles, hi, p, Next(tiles, p0) - p) && Gathered(tiles, top, loose, p, Next(tiles, p0) - p)
        && OnlyUsed(tiles, p, Next(tiles, p0), p0)
      ensures Next(tiles, p0) !in tiles.used ==> BackFree(p0, p, Next(tiles, p0), loose)
    {
      hide AllBins, Placed, Tiling, BackFree, ChunkSize;
      var e := Next(tiles, p0);
      InvTiling(loose);
      Chunk(loose, p);
      Chunk(loose, p0);
      BackTags(p0, p, loose);
      At(tiles, lo, hi, p0);
      FrontStretch(tiles, lo, hi, p, p0);
      if e !in tiles.used { FreeBackFree(p0, p, loose); }
    }

    /** The size of a victim that is on its way. */
    method SetDvsize(n: int, ghost loose: set<int>)
      requires Inv(loose) && dv in loose
      modifies this`dvsize
      ensures Inv(loose) && dvsize == n
    {
      hide AllBins, Tags, Ground;
      VictimWaits(tiles, hi, Where(), loose, n);
      dvsize := n;
    }

    lemma VictimSettled()
      requires Inv({dv}) && dv in tiles.size && dvsize == tiles.size[dv]
      ensures Inv({})
    {
      NoAddress({dv});
      PutVictim(tiles, hi, Where(), dv);
      assert Where().(dv := dv, dvsize := tiles.size[dv]) == Where();
    }

    lemma MergedAt(t0: Tiles, p: int, n: int)
      requires Inv({p}) && tiles == Merged(t0, p, n) && p in t0.size
      ensures p in tiles.size && tiles.size[p] == n && Next(tiles, p) == p + n
    {}

    /** The end of lj_alloc_free: what is free now goes into a bin. */
    method Rebin(p: int, psize: int, ghost m0: map<int, int>, ghost t0: Tiles, ghost p0: int)
      requires Inv({p}) && p in t0.size && tiles == Merged(t0, p, psize) && p + psize != hi && p != dv
      requires Released(m0, t0, mem, tiles, p0)
      modifies this`mem, this`h, this`own, this`path, this`ring, this`head, this`treebins, this`treemap,
               this`smallmap, this`links, this`lists, this`bin
      ensures Inv({}) && Released(m0, t0, mem, tiles, p0)
    {
      hide AllBins, Inv, Tags, Placed, Ground, DataKept, Released;
      MergedAt(t0, p, psize);
      ghost var m2 := mem;
      InsertChunk(p, psize);
      ReleasedThen(m0, t0, m2, tiles, mem, p0);
    }

    /** The second half of lj_alloc_free: consolidate forward, then bin what is free. Chunk `p` is
        the one to be freed, `p0`, or the free chunk before it. */
    method FreeForward(p: int, size: int, next: int, ghost p0: int, ghost loose: set<int>)
      requires Inv(loose) && Front(tiles, p, p0) && p in tiles.size && p0 in tiles.size
      requires next == Next(tiles, p0) && size == next - p
      requires next in tiles.size && next != hi && loose == (if p == p0 then {} else {p})
      requires p == dv ==> next !in tiles.used && p != p0
      modifies this
      ensures Inv({}) && Released(old(mem), old(tiles), mem, tiles, p0)
    {
      hide AllBins, Inv, Tags, Placed, Ground, DataKept, Released, Gathered, Stretch, Front, OnlyUsed;
      ghost var t0, m1 := tiles, mem;
      var psize := size;
      FreeBack(p0, p, loose);
      UsedWithin(loose, p);
      if Word(next, HEAD) / 2 % 2 == 0 {
        if next == top {
          JoinTop(p, psize, loose);
          ReleasedMerged(m1, mem, t0, p, hi - p, p0);
          return;
        } else if next == dv {
          VictimFacts(loose);
          JoinDv(p, psize, loose);
          ReleasedMerged(m1, mem, t0, p, dvsize, p0);
          return;
        } else {
          var nsize := ChunkSize(Word(next, HEAD));
          psize := psize + nsize;
          UnlinkChunk(next, nsize, loose);
          ghost var m2 := mem;
          SetFree(p, psize, loose + {next});
          ReleasedMerged(m2, mem, t0, p, psize, p0);
          ReleasedLater(m1, m2, t0, mem, tiles, p0);
          if p == dv {
            MergedAt(t0, p, psize);
            SetDvsize(psize, {p});
            VictimSettled();
            return;
          }
        }
      } else {
        SetFreeWithPinuse(p, psize, next, loose);
        ReleasedMerged(m1, mem, t0, p, psize, p0);
      }
      Rebin(p, psize, m1, t0, p0);
    }

    lemma UsedWithin(loose: set<int>, p: int)
      requires Inv(loose)
      ensures tiles.used <= tiles.size.Keys
      ensures p in tiles.used ==> p != dv || dv in loose
    {
      LooseFree(tiles, hi, Where(), loose);
      NoAddress(loose);
    }

    /** lj_alloc_free. Trimming and releasing segments is left out. */
    method Free(ptr: int)
      requires Inv({}) && (ptr == 0 || ptr - 16 in tiles.used)
      modifies this
      ensures Inv({})
      ensures ptr != 0 ==> Released(old(mem), old(tiles), mem, tiles, ptr - 16)
      ensures ptr == 0 ==> tiles == old(tiles) && mem == old(mem)
    {
      hide AllBins, Inv, Tags, Placed, Ground, DataKept, Released, Gathered, Stretch, Front, OnlyUsed;
      if ptr != 0 {
        var p := ptr - 16;
        ghost var p0, t0, loose := p, tiles, {};
        FreeFront(p0);
        DataSame(mem, t0, t0.used);
        var psize := ChunkSize(Word(p, HEAD));
        var next := p + psize;
        if Word(p, HEAD) % 2 == 0 {
          var prevsize := Word(p, 0);
          var prev := p - prevsize;
          psize := psize + prevsize;
          p := prev;
          loose := {p};
          if p != dv {
            UnlinkChunk(p, prevsize, {});
            assert {} + {p} == loose;
          } else {
            VictimLoose({});
            assert {} + {p} == loose;
            FreeBack(p0, p, loose);
            if Word(next, HEAD) % 4 == 3 {
              SetDvsize(psize, loose);
              SetFreeWithPinuse(p, psize, next, loose);
              MergedAt(t0, p, psize);
              VictimSettled();
              ReleasedMerged(old(mem), mem, t0, p, psize, p0);
              return;
            }
          }
        }
        ghost var m1 := mem;
        FreeForward(p, psize, next, p0, loose);
        ReleasedLater(old(mem), m1, t0, mem, tiles, p0);
      }
    }

    /** A user writes a word of a chunk in use. */
    method Write(u: int, a: int, v: int)
      requires Inv({}) && u in tiles.used && u in tiles.size && u + FD <= a <= Next(tiles, u) && a % 8 == 0
      modifies this`mem
      ensures Inv({}) && a in old(mem) && mem == old(mem)[a := v]
      ensures DataKept(old(mem), mem, tiles, tiles.used - {u})
    {
      hide BinsOf, Inv, Tiling, Tagged, Placed, Ground, Binned, Unbinned, Within, DataKept;
      UserMapped(u, a);
      Opened({}, u);
      UserWord(mem, tiles, lo, hi, u, a, v, tiles.used - {u});
      mem := mem[a := v];
      Rebuild(old(mem), tiles, {}, u, Next(tiles, u), u);
    }

    lemma UserMapped(u: int, a: int)
      requires Inv({}) && u in tiles.used && u in tiles.size && u + FD <= a <= Next(tiles, u) && a % 8 == 0
      ensures a in mem && Next(tiles, u) != hi && Next(tiles, u) in tiles.size && u % 8 == 0
    {
      hide AllBins, Placed, Tiling;
      TopThere({});
      Chunk({}, u);
      InvTiling({});
      At(tiles, lo, hi, u);
      LastOne(tiles, lo, hi, u, top);
    }

    /** memcpy of `n` bytes from chunk `p` to chunk `q`. */
    method Memcpy(q: int, p: int, n: nat)
      requires Inv({}) && p in tiles.used && q in tiles.used && p in tiles.size && q in tiles.size && p != q
      requires n <= tiles.size[p] - HEAD && n <= tiles.size[q] - HEAD
      modifies this`mem
      ensures Inv({}) && SameBytes(old(mem), p + FD, mem, q + FD, n)
      ensures DataKept(old(mem), mem, tiles, tiles.used - {q})
    {
      hide Inv, DataKept, Tiling, SameWord, SameBytes, OnlyAt, Copied;
      ghost var m0 := mem;
      DataSame(mem, tiles, tiles.used - {q});
      Chunk({}, p);
      Chunk({}, q);
      assert Copied(m0, p + FD, mem, q + FD, 0) by { NothingCopied(m0, p + FD, mem, q + FD); }
      var i := 0;
      while 8 * i + 8 <= n
        invariant Inv({}) && 0 <= i && 8 * i <= n && DataKept(m0, mem, tiles, tiles.used - {q})
        invariant Copied(m0, p + FD, mem, q + FD, i)
      {
        CopyWhole(q, p, i, n, m0);
        i := i + 1;
      }
      CopyRest(q, p, i, n, m0);
    }

    /** Copy the bytes behind the last whole word. */
    method CopyRest(q: int, p: int, i: int, n: nat, ghost m0: map<int, int>)
      requires Inv({}) && p in tiles.used && q in tiles.used && p in tiles.size && q in tiles.size && p != q
      requires n <= tiles.size[p] - HEAD && n <= tiles.size[q] - HEAD && 0 <= 8 * i <= n < 8 * i + 8
      requires DataKept(m0, mem, tiles, tiles.used - {q}) && Copied(m0, p + FD, mem, q + FD, i)
      modifies this`mem
      ensures Inv({}) && DataKept(m0, mem, tiles, tiles.used - {q}) && SameBytes(m0, p + FD, mem, q + FD, n)
    {
      hide Inv, DataKept, Tiling, SameWord, SameBytes, OnlyAt, Copied;
      ghost var m1 := mem;
      WordInside(p, i, n);
      WordInside(q, i, n);
      var k := n % 8;
      if k != 0 {
        CopyWord(q, p, p + FD + 8 * i, q + FD + 8 * i, k, m0);
      }
      CopiedAll(m0, p + FD, m1, mem, q + FD, i, k, n);
    }

    /** Word `i` of a chunk, some bytes of which are used. */
    lemma WordInside(p: int, i: int, n: nat)
      requires Inv({}) && p in tiles.size && n <= tiles.size[p] - HEAD && 0 <= 8 * i <= n < 8 * i + 8
      ensures (p + FD + 8 * i) % 8 == 0 && n == 8 * i + n % 8
      ensures n % 8 != 0 ==> p + FD <= p + FD + 8 * i <= Next(tiles, p)
    {
      Chunk({}, p);
      WholeWords(p, i, n);
    }

    /** Copy word `i`. */
    method CopyWhole(q: int, p: int, i: int, n: nat, ghost m0: map<int, int>)
      requires Inv({}) && p in tiles.used && q in tiles.used && p in tiles.size && q in tiles.size && p != q
      requires n <= tiles.size[p] - HEAD && n <= tiles.size[q] - HEAD && 0 <= i && 8 * i + 8 <= n
      requires DataKept(m0, mem, tiles, tiles.used - {q}) && Copied(m0, p + FD, mem, q + FD, i)
      modifies this`mem
      ensures Inv({}) && DataKept(m0, mem, tiles, tiles.used - {q})
      ensures Copied(m0, p + FD, mem, q + FD, i + 1)
    {
      hide Inv, DataKept, Tiling, SameWord, OnlyAt, Copied;
      ghost var m1 := mem;
      Chunk({}, p);
      Chunk({}, q);
      WholeWords(p, i, 8 * i);
      WholeWords(q, i, 8 * i);
      CopyWord(q, p, p + FD + 8 * i, q + FD + 8 * i, 8, m0);
      CopiedMore(m0, p + FD, m1, mem, q + FD, i);
    }

    /** Copy the first `k` bytes of a word. */
    method CopyWord(q: int, p: int, a: int, b: int, k: nat, ghost m0: map<int, int>)
      requires Inv({}) && p in tiles.used && q in tiles.used && p in tiles.size && q in tiles.size && p != q
      requires p + FD <= a <= Next(tiles, p) && q + FD <= b <= Next(tiles, q) && a % 8 == 0 && b % 8 == 0
      requires DataKept(m0, mem, tiles, tiles.used - {q})
      modifies this`mem
      ensures Inv({}) && DataKept(m0, mem, tiles, tiles.used - {q})
      ensures SameWord(m0, a, mem, b, k) && OnlyAt(old(mem), mem, b)
    {
      hide Inv, Tiling;
      UserMapped(p, a);
      UserMapped(q, b);
      var w := if k == 8 then Word(a, 0) else MergeLow(Word(b, 0), Word(a, 0), k);
      MergeLowBytes(Word(b, 0), Word(a, 0), k);
      Write(q, b, w);
      assert SourceKept(m0, old(mem), tiles, p, a) by { assert p in tiles.used - {q}; }
    }

    /** The source word is as before. */
    static ghost predicate SourceKept(m0: map<int, int>, m: map<int, int>, t: Tiles, p: int, a: int) {
      a in m0 && a in m && m[a] == m0[a]
    }

    lemma Payload(u: int)
      requires Inv({}) && u in tiles.used && u in tiles.size
      ensures u % 8 == 0 && tiles.size[u] % 8 == 0 && tiles.size[u] >= MIN_CHUNK_SIZE && tiles.used <= tiles.size.Keys
      ensures Next(tiles, u) in tiles.size && Next(tiles, u) != hi && u > 0
      ensures forall a :: u + FD <= a <= Next(tiles, u) && a % 8 == 0 ==> a in mem
    {
      hide AllBins, Placed, Tiling;
      Chunk({}, u);
      InvTiling({});
      At(tiles, lo, hi, u);
      TopThere({});
      LastOne(tiles, lo, hi, u, top);
      forall a | u + FD <= a <= Next(tiles, u) && a % 8 == 0 ensures a in mem { UserMapped(u, a); }
    }

    lemma CutReady(p: int, nb: int)
      requires Inv({}) && p in tiles.used && p in tiles.size && nb % 8 == 0
      requires MIN_CHUNK_SIZE <= nb <= tiles.size[p] - MIN_CHUNK_SIZE
      ensures ReadyFor(p, Next(tiles, p)) && p !in own && p + nb !in tiles.size
      ensures p + HEAD in mem && p + nb + HEAD in mem && Next(tiles, p) + HEAD in mem
      ensures Placed(Cut(tiles, p, nb), hi, Where(), {})
      ensures var n, rsize := Next(tiles, p), tiles.size[p] - nb;
        var m' := mem[p + HEAD := mem[p + HEAD] % 2 + nb + 2][p + nb + HEAD := rsize + 3]
          [n + HEAD := SetPin(mem[n + HEAD])];
        && Tags(m', Cut(tiles, p, nb), lo, hi) && Within(mem, m', p, n, p) &&
          DataKept(mem, m', Cut(tiles, p, nb), tiles.used)
    {
      hide BinsOf, Inv, Tiling, Tagged, Placed, Ground, Binned, Unbinned, Within, DataKept;
      Opened({}, p);
      Inner({}, p, nb);
      var n, rsize := Next(tiles, p), tiles.size[p] - nb;
      var m' := mem[p + HEAD := mem[p + HEAD] % 2 + nb + 2][p + nb + HEAD := rsize + 3]
        [n + HEAD := SetPin(mem[n + HEAD])];
      CutAll(mem, m', tiles, lo, hi, Where(), p, nb);
    }

    /** set_inuse on the front and on the rest of a chunk in use. */
    method CutChunk(p: int, nb: int, rsize: int)
      requires Inv({}) && p in tiles.used && p in tiles.size && nb + rsize == tiles.size[p]
      requires MIN_CHUNK_SIZE <= nb && MIN_CHUNK_SIZE <= rsize && nb % 8 == 0
      modifies this`mem, this`tiles
      ensures Inv({}) && tiles == Cut(old(tiles), p, nb) && p + nb !in old(tiles).size
      ensures DataKept(old(mem), mem, tiles, old(tiles).used)
    {
      hide BinsOf, Inv, Tiling, Tags, Placed, Ground, Binned, Unbinned, Within, DataKept;
      CutReady(p, nb);
      var rem := p + nb;
      mem := mem[p + HEAD := Word(p, HEAD) % 2 + nb + 2];
      WriteTwice(mem, rem + HEAD, SetPin(Word(rem, HEAD)), rsize + 3);
      mem := mem[rem + HEAD := SetPin(Word(rem, HEAD))];
      mem := mem[rem + HEAD := Word(rem, HEAD) % 2 + rsize + 2];
      mem := mem[rem + rsize + HEAD := SetPin(Word(rem + rsize, HEAD))];
      tiles := Cut(tiles, p, nb);
      Rebuild(old(mem), old(tiles), {}, p, p + nb + rsize, p);
    }

    lemma GrowReady(p: int, nb: int)
      requires Inv({}) && p in tiles.used && p in tiles.size && Next(tiles, p) == top
      requires tiles.size[p] < nb < tiles.size[p] + topsize && nb % 8 == 0
      ensures ReadyFor(p, hi) && p !in own && p + nb !in tiles.used && tiles.size[p] + topsize == hi - p
      ensures p + HEAD in mem && p + nb + HEAD in mem
      ensures Placed(Grown(tiles, p, nb, hi), hi, Where().(top := p + nb, topsize := hi - (p + nb)), {})
      ensures var m' := mem[p + HEAD := mem[p + HEAD] % 2 + nb + 2][p + nb + HEAD := hi - (p + nb) + 1];
        && Tags(m', Grown(tiles, p, nb, hi), lo, hi) && Within(mem, m', p, hi, p) &&
          DataKept(mem, m', tiles, tiles.used)
    {
      hide BinsOf, Inv, Tiling, Tagged, Placed, Ground, Binned, Unbinned, Within, DataKept;
      Opened({}, p);
      TopThere({});
      UnbinnedGrow(tiles, lo, hi, Where(), bins, p);
      InTop(nb, p);
      var m' := mem[p + HEAD := mem[p + HEAD] % 2 + nb + 2][p + nb + HEAD := hi - (p + nb) + 1];
      GrowAll(mem, m', tiles, lo, hi, Where(), p, nb);
    }

    /** Grow into the top chunk. */
    method GrowIntoTop(p: int, nb: int, newtopsize: int)
      requires Inv({}) && p in tiles.used && p in tiles.size && Next(tiles, p) == top
      requires tiles.size[p] < nb && newtopsize == tiles.size[p] + topsize - nb > 0 && nb % 8 == 0
      modifies this`mem, this`tiles, this`top, this`topsize
      ensures Inv({}) && tiles == Grown(old(tiles), p, nb, hi) && p + nb !in old(tiles).used
      ensures DataKept(old(mem), mem, old(tiles), old(tiles).used)
    {
      hide BinsOf, Inv, Tiling, Tags, Placed, Ground, Binned, Unbinned, Within, DataKept;
      GrowReady(p, nb);
      var newtop := p + nb;
      mem := mem[p + HEAD := Word(p, HEAD) % 2 + nb + 2];
      WriteTwice(mem, newtop + HEAD, SetPin(Word(newtop, HEAD)), newtopsize + 1);
      mem := mem[newtop + HEAD := SetPin(Word(newtop, HEAD))];
      mem := mem[newtop + HEAD := newtopsize + 1];
      top := newtop;
      topsize := newtopsize;
      tiles := Grown(tiles, p, nb, hi);
      Rebuild(old(mem), old(tiles), {}, p, hi, p);
    }

    lemma InTop(nb: int, p: int)
      requires Inv({}) && p in tiles.size && Next(tiles, p) == top && tiles.size[p] < nb < hi - p && nb % 8 == 0
      ensures p + nb + HEAD in mem && p + nb !in tiles.used
    {
      hide AllBins, Placed;
      TopThere({});
      Chunk({}, top);
      Chunk({}, p);
      Inside(tiles, lo, hi, top, p + nb);
    }

    /** lj_alloc_realloc for a chunk of the segment. */
    method Realloc(ptr: int, nsize: nat) returns (r: int)
      requires Inv({}) && ptr - 16 in tiles.used && nsize < TWO64
      modifies this
      ensures Inv({})
      ensures r != 0 ==> Moved(old(mem), old(tiles), mem, tiles, ptr - 16, r - 16, nsize)
      ensures r == 0 ==> tiles == old(tiles) && mem == old(mem)
      ensures r == 0 ==> NoRoom(tiles, top, RequestSize(nsize))
      ensures ptr - 16 in old(tiles).size
      ensures var size, nb := old(tiles).size[ptr - 16], RequestSize(nsize);
        size >= nb || (Next(old(tiles), ptr - 16) == old(top) && size + old(topsize) > nb) ==> r == ptr
    {
      hide AllBins, Inv, Tags, Placed, Ground, DataKept, Given, Released, Moved, NoRoom, SameBytes, RequestSize, Tiling;
      if nsize >= MAX_REQUEST {
        TooLarge(nsize);
        FreeFront(ptr - 16);
        TopThere({});
        return 0;
      }
      var oldp := ptr - 16;
      FreeFront(oldp);
      Payload(oldp);
      TopThere({});
      ghost var t0, m0 := tiles, mem;
      var oldsize := ChunkSize(Word(oldp, HEAD));
      var next := oldp + oldsize;
      var nb := RequestSize(nsize);
      if oldsize >= nb {
        var rsize := oldsize - nb;
        if rsize >= MIN_CHUNK_SIZE {
          CutChunk(oldp, nb, rsize);
          ghost var m1 := mem;
          Free(oldp + nb + 16);
          MovedCut(m0, t0, m1, mem, tiles, oldp, nsize);
        } else {
          MovedNowhere(mem, tiles, oldp, nsize);
        }
        return ptr;
      } else if next == top && oldsize + topsize > nb {
        GrowIntoTop(oldp, nb, oldsize + topsize - nb);
        MovedGrown(m0, t0, mem, oldp, hi, nsize);
        return ptr;
      }
      r := Malloc(nsize);
      if r != 0 {
        r := r;
        ghost var m1, t1, q := mem, tiles, r - 16;
        GivenFacts(m0, t0, m1, t1, q, nb);
        Payload(q);
        var oc := oldsize - HEAD;
        Memcpy(r - 16, oldp, if oc < nsize then oc else nsize);
        Payload(q);
        ghost var m2 := mem;
        Free(ptr);
        MovedCopied(m0, t0, m1, t1, m2, mem, tiles, oldp, q, nsize);
      }
    }

    /** What the invariant says about the segment, chunk by chunk: the chunks tile it, heads and feet
        are right, no two free chunks are neighbours. */
    lemma TilesExactly(p: int)
      requires Inv({}) && p in tiles.size
      ensures lo in tiles.size && lo <= p && (Next(tiles, p) == hi || Next(tiles, p) in tiles.size)
      ensures forall q :: q in tiles.size && q != p ==> Next(tiles, q) <= p || Next(tiles, p) <= q
      ensures p + HEAD in mem && ChunkSize(mem[p + HEAD]) == tiles.size[p]
      ensures mem[p + HEAD] / 2 % 2 == 1 <==> p in tiles.used
      ensures Next(tiles, p) != hi ==>
        && Next(tiles, p) + HEAD in mem
        && (mem[Next(tiles, p) + HEAD] % 2 == 1 <==> p in tiles.used)
        && (p !in tiles.used ==>
              Next(tiles, p) in tiles.used && Next(tiles, p) in mem && mem[Next(tiles, p)] == tiles.size[p])
    {
      hide AllBins, Placed, Tiling;
      InvTiling({});
      Chunk({}, p);
      At(tiles, lo, hi, p);
      Lowest(tiles, lo, hi, p);
      if Next(tiles, p) != hi {
        Chunk({}, Next(tiles, p));
        At(tiles, lo, hi, Next(tiles, p));
        if p !in tiles.used { Before(mem, tiles, lo, hi, p, Next(tiles, p)); }
      }
      forall q | q in tiles.size && q != p
        ensures Next(tiles, q) <= p || Next(tiles, p) <= q { Disjoint(tiles, lo, hi, q, p); }
    }

    /** Every free chunk is in exactly one place, the one for its size. */
    lemma OnePlace(p: int)
      requires Inv({}) && p in tiles.size && p !in tiles.used
      ensures p == top || p == dv || (p in own && tiles.size[p] >= 256) ||
        (p in bin && bin[p] == tiles.size[p] / 8 < 32)
      ensures p == top ==> p != dv && p !in own && p !in bin && Next(tiles, p) == hi && topsize == tiles.size[p]
      ensures p == dv ==> p !in own && p !in bin && dvsize == tiles.size[p]
      ensures p in own ==>
          p !in bin && p in head && head[p] in path && head[p] in h.index &&
          h.index[head[p]] == TreeIndex(tiles.size[p])
    {
      hide Tiling;
      PlaceOfFree({}, p);
      TopThere({});
      NoAddress({});
      if dv != 0 { VictimFacts({}); }
      if p in own || p in bin { Elsewhere(tiles, hi, Where(), {}, p); Sorted({}, p); }
      if p in own { OwnSize({}, p); SizeIndex(h, path, head[p]); }
      if p in bin { BinAt(tiles, hi, Where(), {}, p); }
    }

    /** The bytes of two users never overlap, nor do they hold tags or links. */
    lemma PayloadsApart(u: int, v: int, a: int)
      requires Inv({}) && u in tiles.used && u in tiles.size && v in tiles.size && u != v
      requires u + FD <= a < Next(tiles, u) + HEAD
      ensures !(v + FD <= a < Next(tiles, v) + HEAD)
      ensures v + HEAD != a && (v !in tiles.pin ==> v != a)
      ensures v in own ==> a < v + HEAD || v + 64 <= a
      ensures v in bin ==> a < v + HEAD || v + 32 <= a
    {
      hide AllBins, Placed, Tiling;
      InvTiling({});
      Disjoint(tiles, lo, hi, u, v);
      At(tiles, lo, hi, u);
      At(tiles, lo, hi, v);
      if v in own || v in bin { Sorted({}, v); }
    }
  }
}
