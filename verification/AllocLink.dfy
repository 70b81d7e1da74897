/** What linking a large chunk in does to the tries and rings. */
module AllocLink {
  import opened AllocIndex
  import opened AllocTrie
  import opened AllocPrune
  import opened AllocRings
  import opened AllocWords
  import opened AllocSmall

  /** Tries and rings are in order, and `x` is ready to be linked in. */
  ghost predicate Waiting(h: Heap, path: map<int, seq<int>>, ring: map<int, seq<int>>, head: map<int, int>, x: int) {
    && TreeInv(h, path) && RingsInv(h, ring, head) && ring.Keys == path.Keys
    && x !in head && x !in path && Sized(h, x) && h.c0[x] == 0 && h.c1[x] == 0
  }

  lemma RootPlanted(h: Heap, path: map<int, seq<int>>, ring: map<int, seq<int>>, head: map<int, int>, x: int)
    requires Waiting(h, path, ring, head, x) && h.index[x] !in h.treemap
    ensures 0 <= h.index[x] < |h.root|
    ensures var i := h.index[x];
      var h1 := h.(treemap := h.treemap + {i}).(root := h.root[i := x]);
      var h' := Store(Store(Store(h1, x, PARENT, BinSlot(i)), x, FD, x), x, BK, x);
      ring[x := [x]].Keys == path[x := []].Keys && TreeInv(h', path[x := []]) &&
        RingsInv(h', ring[x := [x]], head[x := x])
  {
    hide TreeInv, RingsInv, TreeIndex;
    FreeBin(h, path, x);
    var i := h.index[x];
    var h1 := Store(Store(h, x, FD, x), x, BK, x);
    ButForTree(h, h1, path, x);
    AddRoot(h1, path, i, x);
    var h' := WithRoot(h1, i, x);
    assert h' == Store(Store(Store(h.(treemap := h.treemap + {i}).(root := h.root[i := x]), x, PARENT, BinSlot(i)),
      x, FD, x), x, BK, x);
    RingsFrame(h, h', ring, head);
    NewGroup(h', ring, head, x);
  }

  lemma LeafPlanted(h: Heap, path: map<int, seq<int>>, ring: map<int, seq<int>>, head: map<int, int>,
                    x: int, t: int, b: int)
    requires Waiting(h, path, ring, head, x) && Hanging(h, path, t, b, x) && OnPath(h, x, path[t] + [b])
    ensures var h1 := Store(h, t, if b == 0 then CHILD0 else CHILD1, x);
      var h' := Store(Store(Store(h1, x, PARENT, t), x, FD, x), x, BK, x);
      ring[x := [x]].Keys == path[x := path[t] + [b]].Keys && TreeInv(h', path[x := path[t] + [b]]) &&
        RingsInv(h', ring[x := [x]], head[x := x])
  {
    hide TreeInv, RingsInv, TreeIndex, OnPath;
    var h1 := Store(Store(h, x, FD, x), x, BK, x);
    ButForTree(h, h1, path, x);
    SamePath(h, h1, x, path[t] + [b]);
    AddLeaf(h1, path, t, b, x);
    var h' := WithChild(h1, t, b, x);
    NodesHeads(h, path, ring, head, t);
    RingsFrame(h, h', ring, head);
    NewGroup(h', ring, head, x);
  }

  lemma NodesHeads(h: Heap, path: map<int, seq<int>>, ring: map<int, seq<int>>, head: map<int, int>, t: int)
    requires RingsInv(h, ring, head) && ring.Keys == path.Keys && t in path
    ensures t in head && head[t] == t && ring[t] != [] && ring[t][0] == t
  {
    assert t in ring && GroupOk(h, ring, head, t) && MemberOk(h, ring, head, t, 0);
  }

  lemma RingJoined(h: Heap, path: map<int, seq<int>>, ring: map<int, seq<int>>, head: map<int, int>, x: int, t: int)
    requires Waiting(h, path, ring, head, x) && t in path && HasWords(h, t) && h.size[t] == h.size[x]
    ensures t in head && t in ring && |ring[t]| > 0 && h.fd[t] in head
    ensures var f := h.fd[t];
      var h' := Store(Store(Store(Store(Store(h, t, FD, x), f, BK, x), x, FD, f), x, BK, t), x, PARENT, 0);
      ring[t := [t, x] + ring[t][1..]].Keys == path.Keys && TreeInv(h', path) &&
        RingsInv(h', ring[t := [t, x] + ring[t][1..]], head[x := t])
  {
    hide TreeInv, RingsInv, TreeIndex;
    NodesHeads(h, path, ring, head, t);
    JoinGroup(h, ring, head, t, x);
    Member(h, ring, head, t, h.fd[t]);
    var f := h.fd[t];
    var h' := Store(Store(Store(Store(Store(h, t, FD, x), f, BK, x), x, FD, f), x, BK, t), x, PARENT, 0);
    assert h' == h.(fd := h.fd[t := x][x := f], bk := h.bk[f := x][x := t], parent := h.parent[x := 0]);
    forall n | n in path ensures SameWords(h, h', n) {}
    TreeFrame(h, h', path);
  }

  /** The free place is one for `x`. */
  lemma SpotHangs(h: Heap, path: map<int, seq<int>>, ring: map<int, seq<int>>, head: map<int, int>,
                  x: int, s: nat, t: int, b: int)
    requires Waiting(h, path, ring, head, x) && Descending(h, path, s, t) && h.size[x] == s
    requires |path[t]| < 64 && b == Turn(TreeIndex(s), s, |path[t]|) && Child(h, t, b) == 0
    requires forall n :: n in path && n in h.size ==> h.size[n] != s
    ensures Hanging(h, path, t, b, x) && OnPath(h, x, path[t] + [b])
  {
    hide TreeInv, RingsInv, TreeIndex, Turn, OnPath;
    forall n | n in path ensures n in h.size && h.size[n] != h.size[x] {
      SizeBound(h, path, n);
    }
    TurnsPath(h, x, s, path[t], b);
  }

  lemma TurnsPath(h: Heap, x: int, s: nat, p: seq<int>, b: int)
    requires Sized(h, x) && h.size[x] == s && |p| < 64 && b == Turn(TreeIndex(s), s, |p|)
    requires forall e :: 0 <= e < |p| ==> p[e] == Turn(TreeIndex(s), s, e)
    ensures OnPath(h, x, p + [b])
  {
    hide Turn, TreeIndex;
  }

  lemma UnlinkedIs(h: Heap, x: int)
    requires x in h.fd && x in h.bk
    ensures Store(Store(h, h.fd[x], BK, h.bk[x]), h.bk[x], FD, h.fd[x]) == Unlinked(h, x)
  {}

  /** Links of chunks that are not in the trees. */
  lemma StoreOther(h: Heap, own: set<int>, path: map<int, seq<int>>, ring: map<int, seq<int>>, head: map<int, int>,
                   n: int, off: int, v: int)
    requires TreeInv(h, path) && RingsInv(h, ring, head) && n !in path && n !in head && (off == FD || off == BK)
    ensures var h' := Store(h, n, off, v);
      && TreeInv(h', path) && RingsInv(h', ring, head)
      && h'.size == h.size && h'.root == h.root && h'.treemap == h.treemap
  {
    hide Store, TreeInv, RingsInv;
    var h' := Store(h, n, off, v);
    StoreButFor(h, h, n, off, v);
    ButForTree(h, h', path, n);
    ButForRings(h, h', ring, head, n);
  }

  lemma LinkComes(m: map<int, int>, h: Heap, own: set<int>, links: set<int>, x: int)
    requires Agrees(m, h, own, links) && x !in own && x !in links && x + FD in m && x + BK in m
    ensures var h' := h.(fd := h.fd[x := m[x + FD]], bk := h.bk[x := m[x + BK]]);
      Agrees(m, h', own, links + {x}) && Kept(m, m, {}, links + {x})
  {
    var h' := h.(fd := h.fd[x := m[x + FD]], bk := h.bk[x := m[x + BK]]);
    forall n | n in own ensures TreeWords(m, h', n) { assert TreeWords(m, h, n); }
    forall n | n in links + {x} ensures LinkWords(m, h', n) { if n in links { assert LinkWords(m, h, n); } }
  }

  lemma LinkBins(m: map<int, int>, h: Heap, own: set<int>, path: map<int, seq<int>>, ring: map<int, seq<int>>,
                 head: map<int, int>, x: int)
    requires TreeInv(h, path) && RingsInv(h, ring, head) && x !in path && x !in head && x + FD in m && x + BK in m
    ensures var h' := h.(fd := h.fd[x := m[x + FD]], bk := h.bk[x := m[x + BK]]);
      TreeInv(h', path) && RingsInv(h', ring, head)
  {
    var h' := h.(fd := h.fd[x := m[x + FD]], bk := h.bk[x := m[x + BK]]);
    ButForTree(h, h', path, x);
    ButForRings(h, h', ring, head, x);
  }

  lemma LinkAt(m: map<int, int>, h: Heap, own: set<int>, links: set<int>, n: int)
    requires Agrees(m, h, own, links) && n in links
    ensures LinkWords(m, h, n)
  {}

  lemma SameKept(m: map<int, int>, links: set<int>)
    ensures Kept(m, m, {}, links)
  {}

  lemma LinkSmalls(m: map<int, int>, h: Heap, bins: int, smallmap: set<int>, lists: seq<seq<int>>,
      bin: map<int, int>, x: int)
    requires SmallInv(h.fd, h.bk, bins, smallmap, lists, bin) && x !in Headers(bins) + bin.Keys
    requires x + FD in m && x + BK in m
    ensures SmallInv(h.fd[x := m[x + FD]], h.bk[x := m[x + BK]], bins, smallmap, lists, bin)
  {
    SmallFrame(h.fd, h.bk, bins, smallmap, lists, bin, h.fd[x := m[x + FD]], h.bk[x := m[x + BK]]);
  }

  lemma LinkedIs(h: Heap, b: int, f: int, x: int)
    ensures var h' := Store(Store(Store(Store(h, b, FD, x), f, BK, x), x, FD, f), x, BK, b);
      h'.fd == h.fd[b := x][x := f] && h'.bk == h.bk[f := x][x := b]
  {}

  lemma UnlinkedLinks(h: Heap, b: int, f: int)
    ensures var h' := Store(Store(h, f, BK, b), b, FD, f); h'.fd == h.fd[b := f] && h'.bk == h.bk[f := b]
    ensures var h' := Store(Store(h, b, FD, f), f, BK, b); h'.fd == h.fd[b := f] && h'.bk == h.bk[f := b]
  {}
}
