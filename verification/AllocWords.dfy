/** The chunk fields in memory: words by address. A chunk at `p` has its previous foot at `p`, its
    head at `p + HEAD`, and, while it is free, links and tree words behind that. The header of a
    small bin is laid over the list of bins so that only its two link words are its own. */
module AllocWords {
  import opened AllocTrie
  import opened AllocRings
  import opened AllocIndex

  const HEAD := 8
  const FD := 16
  const BK := 24
  const CHILD0 := 32
  const CHILD1 := 40
  const PARENT := 48
  const INDEX := 56

  /** chunksize: the head word without its two low bits. */
  function ChunkSize(w: int): int { w - w % 4 }

  predicate LinkWords(m: map<int, int>, h: Heap, n: int) {
    && n + FD in m && n + BK in m && n in h.fd && n in h.bk
    && m[n + FD] == h.fd[n] && m[n + BK] == h.bk[n]
  }

  predicate TreeWords(m: map<int, int>, h: Heap, n: int) {
    && HasWords(h, n) && LinkWords(m, h, n)
    && n + HEAD in m && n + CHILD0 in m && n + CHILD1 in m && n + PARENT in m && n + INDEX in m
    && ChunkSize(m[n + HEAD]) == h.size[n] && m[n + CHILD0] == h.c0[n] && m[n + CHILD1] == h.c1[n]
    && m[n + PARENT] == h.parent[n] && m[n + INDEX] == h.index[n]
  }

  /** `h` reads the words of the large chunks `own` and of the small chunks and headers `links`. */
  predicate Agrees(m: map<int, int>, h: Heap, own: set<int>, links: set<int>) {
    && (forall n :: n in own ==> TreeWords(m, h, n))
    && (forall n :: n in links ==> LinkWords(m, h, n))
  }

  predicate FarTree(a: int, b: int) { a + 64 <= b || b + 64 <= a }

  predicate FarLink(a: int, b: int) { a + 56 <= b || b + 24 <= a }

  predicate FarLinks(a: int, b: int) { a + 16 <= b || b + 16 <= a }

  /** No two fields share a word. */
  predicate Apart(own: set<int>, links: set<int>) {
    && (forall a, b :: a in own && b in own && a != b ==> FarTree(a, b))
    && (forall a, b :: a in own && b in links ==> FarLink(a, b))
    && (forall a, b :: a in links && b in links && a != b ==> FarLinks(a, b))
  }

  predicate Field(own: set<int>, links: set<int>, n: int, off: int) {
    || ((n in own || n in links) && (off == FD || off == BK))
    || (n in own && (off == CHILD0 || off == CHILD1 || off == PARENT || off == INDEX))
  }

  function Store(h: Heap, n: int, off: int, v: int): Heap {
    if off == FD then h.(fd := h.fd[n := v])
    else if off == BK then h.(bk := h.bk[n := v])
    else if off == CHILD0 then h.(c0 := h.c0[n := v])
    else if off == CHILD1 then h.(c1 := h.c1[n := v])
    else if off == PARENT then h.(parent := h.parent[n := v])
    else h.(index := h.index[n := v])
  }

  /** A write to one field changes that field of that chunk and nothing else. */
  lemma StoreAgrees(m: map<int, int>, h: Heap, own: set<int>, links: set<int>, n: int, off: int, v: int)
    requires Agrees(m, h, own, links) && Apart(own, links) && Field(own, links, n, off)
    ensures Agrees(m[n + off := v], Store(h, n, off, v), own, links)
  {
    var m', h' := m[n + off := v], Store(h, n, off, v);
    forall k | k in own ensures TreeWords(m', h', k) {
      assert TreeWords(m, h, k);
      if k != n {
        if n in own { assert FarTree(k, n); } else { assert FarLink(k, n); }
      }
    }
    forall k | k in links ensures LinkWords(m', h', k) {
      assert LinkWords(m, h, k);
      if k != n {
        if n in own { assert FarLink(n, k); } else { assert FarLinks(n, k); }
      } else if n in own { assert FarLink(n, n); }
    }
  }

  /** Address `a` is no link or tree word of a chunk in `own` or `links`. */
  predicate Outside(own: set<int>, links: set<int>, a: int) {
    && (forall n :: n in own ==> a < n + FD || n + 64 <= a)
    && (forall n :: n in links ==> a < n + FD || n + 32 <= a)
  }

  /** Only words of `own` and `links` have changed. */
  predicate Kept(m: map<int, int>, m': map<int, int>, own: set<int>, links: set<int>) {
    && m'.Keys == m.Keys
    && forall a :: a in m && Outside(own, links, a) ==> m'[a] == m[a]
  }

  lemma StoreKept(m: map<int, int>, m': map<int, int>, own: set<int>, links: set<int>, n: int, off: int, v: int)
    requires Kept(m, m', own, links) && Field(own, links, n, off) && n + off in m'
    ensures Kept(m, m'[n + off := v], own, links)
  {}

  lemma FieldMapped(m: map<int, int>, h: Heap, own: set<int>, links: set<int>, n: int, off: int)
    requires Agrees(m, h, own, links) && Field(own, links, n, off)
    ensures n + off in m
  {
    assert n in own ==> TreeWords(m, h, n);
    assert n in links ==> LinkWords(m, h, n);
  }

  /** A chunk that comes in with whatever its words hold. */
  function WithChunk(m: map<int, int>, h: Heap, x: int): Heap
    requires Mapped(m, x)
  {
    h.(size := h.size[x := ChunkSize(m[x + HEAD])], fd := h.fd[x := m[x + FD]], bk := h.bk[x := m[x + BK]],
       c0 := h.c0[x := m[x + CHILD0]], c1 := h.c1[x := m[x + CHILD1]], parent := h.parent[x := m[x + PARENT]],
       index := h.index[x := m[x + INDEX]])
  }

  /** The two readings agree except for `x`. */
  ghost predicate ButFor(h: Heap, h': Heap, x: int) {
    && h'.root == h.root && h'.treemap == h.treemap
    && forall n :: n != x && HasWords(h, n) ==> SameWords(h, h', n) && h'.fd[n] == h.fd[n] && h'.bk[n] == h.bk[n]
  }

  lemma ButForTree(h: Heap, h': Heap, path: map<int, seq<int>>, x: int)
    requires TreeInv(h, path) && ButFor(h, h', x) && x !in path
    ensures TreeInv(h', path)
  {
    forall n | n in path ensures SameWords(h, h', n) {
      NodeAt(h, path, n);
    }
    TreeFrame(h, h', path);
  }

  lemma ButForRings(h: Heap, h': Heap, ring: map<int, seq<int>>, head: map<int, int>, x: int)
    requires RingsInv(h, ring, head) && ButFor(h, h', x) && x !in head
    ensures RingsInv(h', ring, head)
  {
    RingsFrame(h, h', ring, head);
  }

  /** The words of a chunk are there. */
  predicate Mapped(m: map<int, int>, x: int) {
    && x + HEAD in m && x + FD in m && x + BK in m && x + CHILD0 in m && x + CHILD1 in m
    && x + PARENT in m && x + INDEX in m
  }

  lemma WithChunkAgrees(m: map<int, int>, h: Heap, own: set<int>, links: set<int>, x: int)
    requires Agrees(m, h, own, links) && x !in own && x !in links && Mapped(m, x)
    ensures Agrees(m, WithChunk(m, h, x), own + {x}, links)
    ensures ButFor(h, WithChunk(m, h, x), x)
  {
    var h' := WithChunk(m, h, x);
    forall n | n in own + {x} ensures TreeWords(m, h', n) {
      if n in own { assert TreeWords(m, h, n); }
    }
    forall n | n in links ensures LinkWords(m, h', n) {
      assert LinkWords(m, h, n);
    }
  }

  /** A chunk that comes in gets its index and no children. */
  function Fresh(m: map<int, int>, h: Heap, x: int, i: int): Heap
    requires Mapped(m, x)
  {
    Store(Store(Store(WithChunk(m, h, x), x, INDEX, i), x, CHILD0, 0), x, CHILD1, 0)
  }

  lemma StoreElse(h: Heap, n: int, off: int, v: int, k: int)
    requires k != n
    ensures var h' := Store(h, n, off, v);
      && h'.root == h.root && h'.treemap == h.treemap && h'.size == h.size && SameWords(h, h', k)
      && (k in h.fd ==> k in h'.fd && h'.fd[k] == h.fd[k]) && (k in h.bk ==> k in h'.bk && h'.bk[k] == h.bk[k])
  {
    if off == FD {
    } else if off == BK {
    } else if off == CHILD0 {
    } else if off == CHILD1 {
    } else if off == PARENT {
    } else {
    }
  }

  lemma StoreButFor(h0: Heap, h: Heap, x: int, off: int, v: int)
    requires ButFor(h0, h, x)
    ensures ButFor(h0, Store(h, x, off, v), x) && Store(h, x, off, v).size == h.size
  {
    hide Store;
    var h' := Store(h, x, off, v);
    StoreElse(h, x, off, v, x + 1);
    forall n | n != x && HasWords(h0, n) ensures SameWords(h0, h', n) && h'.fd[n] == h0.fd[n] && h'.bk[n] == h0.bk[n] {
      assert SameWords(h0, h, n);
      StoreElse(h, x, off, v, n);
    }
  }

  lemma FreshOk(m: map<int, int>, h: Heap, own: set<int>, links: set<int>, x: int, s: int)
    requires x !in own && x !in links && Mapped(m, x)
    requires x > 0 && ChunkSize(m[x + HEAD]) == s && 256 <= s < TWO40
    ensures LinksKept(h, WithChunk(m, h, x), links) && Kept(m, m, own + {x}, {})
    ensures var h' := Fresh(m, h, x, TreeIndex(s));
      && ButFor(h, h', x) && h'.size == h.size[x := s]
      && Sized(h', x) && h'.c0[x] == 0 && h'.c1[x] == 0
  {
    hide TreeIndex, ButFor;
    FreshBut(m, h, x, TreeIndex(s));
  }

  lemma FreshBut(m: map<int, int>, h: Heap, x: int, i: int)
    requires Mapped(m, x)
    ensures ButFor(h, Fresh(m, h, x, i), x)
  {
    hide Store;
    var h1 := WithChunk(m, h, x);
    StoreButFor(h, h1, x, INDEX, i);
    var h2 := Store(h1, x, INDEX, i);
    StoreButFor(h, h2, x, CHILD0, 0);
    StoreButFor(h, Store(h2, x, CHILD0, 0), x, CHILD1, 0);
  }

  /** The link words of `links` are as before. */
  predicate LinksKept(h: Heap, h': Heap, links: set<int>) {
    forall n :: n in links && n in h.fd && n in h.bk ==>
      n in h'.fd && n in h'.bk && h'.fd[n] == h.fd[n] && h'.bk[n] == h.bk[n]
  }

  lemma StoreLinks(h0: Heap, h: Heap, links: set<int>, n: int, off: int, v: int)
    requires LinksKept(h0, h, links) && n !in links
    ensures LinksKept(h0, Store(h, n, off, v), links)
  {
    hide Store;
    var h' := Store(h, n, off, v);
    forall k | k in links && k in h0.fd && k in h0.bk
      ensures k in h'.fd && k in h'.bk && h'.fd[k] == h0.fd[k] && h'.bk[k] == h0.bk[k]
    {
      assert k in h.fd && k in h.bk;
      StoreElse(h, n, off, v, k);
    }
  }

  lemma NotLink(own: set<int>, links: set<int>, n: int)
    requires Apart(own, links) && n in own
    ensures n !in links
  {
    assert n in links ==> FarLink(n, n);
  }

  lemma RootAgrees(m: map<int, int>, h: Heap, own: set<int>, links: set<int>, root: seq<int>, treemap: set<int>)
    requires Agrees(m, h, own, links)
    ensures Agrees(m, h.(root := root, treemap := treemap), own, links)
    ensures forall h0 :: LinksKept(h0, h, links) ==> LinksKept(h0, h.(root := root, treemap := treemap), links)
  {
    var h' := h.(root := root, treemap := treemap);
    forall n | n in own ensures TreeWords(m, h', n) { assert TreeWords(m, h, n); }
    forall n | n in links ensures LinkWords(m, h', n) { assert LinkWords(m, h, n); }
  }
}
