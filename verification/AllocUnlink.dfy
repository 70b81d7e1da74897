/** What unlinking a large chunk does to the tries and rings. */
module AllocUnlink {
  import opened AllocIndex
  import opened AllocRing
  import opened AllocTrie
  import opened AllocPrune
  import opened AllocRings
  import opened AllocWords
  import opened AllocLink

  /** Tries and rings are in order and hold the chunks of `own`. */
  ghost predicate Bins(h: Heap, path: map<int, seq<int>>, ring: map<int, seq<int>>, head: map<int, int>,
      own: set<int>) {
    TreeInv(h, path) && RingsInv(h, ring, head) && ring.Keys == path.Keys && head.Keys == own
  }

  /** Chunks of the bins, by what unlinking them takes. */
  lemma Standing(h: Heap, path: map<int, seq<int>>, ring: map<int, seq<int>>, head: map<int, int>, own: set<int>,
      x: int)
    returns (i: nat)
    requires Bins(h, path, ring, head, own) && x in own
    ensures var t := head[x];
      && t in ring && t in path && |ring[t]| > 0 && ring[t][0] == t && i < |ring[t]| && ring[t][i] == x
      && HasWords(h, x) && x > 0 && (h.bk[x] == x <==> |ring[t]| == 1)
      && h.fd[x] in own && h.bk[x] in own && h.bk[x] > 0 && (x == t <==> i == 0) && (h.parent[x] == 0 <==> x != t)
  {
    hide TreeInv;
    var t := head[x];
    assert GroupOk(h, ring, head, t);
    i :| 0 <= i < |ring[t]| && ring[t][i] == x;
    assert MemberOk(h, ring, head, t, i);
    Neighbours(h, ring, head, t, i);
    Member(h, ring, head, t, x);
    Member(h, ring, head, t, h.fd[x]);
    Member(h, ring, head, t, h.bk[x]);
    NoZero(h, path);
    if x == t {
      NodeAt(h, path, t);
      if path[t] != [] { PlaceOf(h, path, t); }
    }
  }

  lemma UnlinkedTree(h: Heap, path: map<int, seq<int>>, x: int)
    requires TreeInv(h, path) && HasWords(h, x)
    ensures TreeInv(Unlinked(h, x), path)
  {
    forall n | n in path ensures SameWords(h, Unlinked(h, x), n) {
      NodeAt(h, path, n);
    }
    TreeFrame(h, Unlinked(h, x), path);
  }

  /** A chunk that is no node leaves. */
  lemma MemberGone(h: Heap, path: map<int, seq<int>>, ring: map<int, seq<int>>, head: map<int, int>, own: set<int>,
                   x: int, i: nat)
    requires Bins(h, path, ring, head, own) && x in own && HasWords(h, x)
    requires head[x] in ring && 0 < i < |ring[head[x]]| && ring[head[x]][i] == x
    ensures var t := head[x];
      Bins(Unlinked(h, x), path, ring[t := ring[t][..i] + ring[t][i + 1..]], head - {x}, own - {x})
  {
    hide TreeInv, RingsInv;
    LeaveGroup(h, ring, head, head[x], i);
    UnlinkedTree(h, path, x);
  }

  /** Grafting changes no words of other chunks than nodes and the graft. */
  lemma GraftElse(h: Heap, path: map<int, seq<int>>, x: int, r: int, k: int)
    requires TreeInv(h, path) && Graft(h, path, x, r) && HasWords(h, k) && k !in path && k != r
    ensures var h' := Grafted(h, x, r);
      HasWords(h', k) && h'.c0[k] == h.c0[k] && h'.c1[k] == h.c1[k] && h'.parent[k] == h.parent[k]
  {
    hide TreeInv, OnPath;
    HungOwn(h, path, x, r);
    RootOf(h, path, x);
    if path[x] != [] { PlaceOf(h, path, x); }
    ChildAt(h, path, x, 0);
    ChildAt(h, path, x, 1);
  }

  lemma GraftRings(h: Heap, path: map<int, seq<int>>, ring: map<int, seq<int>>, head: map<int, int>, x: int, r: int)
    requires TreeInv(h, path) && Graft(h, path, x, r) && RingsInv(h, ring, head)
    requires r in head && head[r] == r && path.Keys - {x} <= ring.Keys && x !in head
    ensures RingsInv(Grafted(h, x, r), ring, head)
  {
    hide TreeInv, OnPath, Grafted;
    GraftWords(h, path, x, r);
    var h' := Grafted(h, x, r);
    forall k | k in head ensures SameLinks(h, h', k, head[k] == k) {
      var t := head[k];
      Member(h, ring, head, t, k);
      if k in path || k == r {
        if k != r { assert GroupOk(h, ring, head, k); assert MemberOk(h, ring, head, k, 0); }
        assert k in path ==> Swapped(h, h', path, x, r, k);
      } else {
        GraftElse(h, path, x, r, k);
      }
    }
    RingsFrame(h, h', ring, head);
  }

  /** The last member of a ring is ready to take the node's place. */
  lemma PromoteGraft(h: Heap, path: map<int, seq<int>>, ring: map<int, seq<int>>, head: map<int, int>, own: set<int>,
      x: int)
    requires Bins(h, path, ring, head, own) && x in own && x in ring && |ring[x]| > 1 && HasWords(h, x)
    ensures var r := h.bk[x];
      && Graft(Unlinked(h, x), path, x, r) && TreeInv(Unlinked(h, x), path) && r in h.size &&
        h.size[r] == h.size[x] && r != x
  {
    hide TreeInv, TreeIndex, Turn;
    Behead(h, ring, head, x);
    var r := h.bk[x];
    Member(h, ring, head, x, r);
    NodeAt(h, path, x);
    RootOf(h, path, x);
    UnlinkedTree(h, path, x);
  }

  /** A node with equals leaves. */
  lemma Promote(h: Heap, path: map<int, seq<int>>, ring: map<int, seq<int>>, head: map<int, int>, own: set<int>, x: int)
    requires Bins(h, path, ring, head, own) && x in own && x in ring && |ring[x]| > 1 && HasWords(h, x)
    requires Graft(Unlinked(h, x), path, x, h.bk[x])
    ensures var r, n := h.bk[x], |ring[x]|;
      Bins(Grafted(Unlinked(h, x), x, r), (path - {x})[r := path[x]],
           (ring - {x})[r := [r] + ring[x][1..n - 1]], Promoted(head, x, r), own - {x})
  {
    hide TreeInv, RingsInv, Grafted, OnPath, Graft;
    PromoteGraft(h, path, ring, head, own, x);
    Behead(h, ring, head, x);
    var r, n := h.bk[x], |ring[x]|;
    var h1, ring', head' := Unlinked(h, x), (ring - {x})[r := [r] + ring[x][1..n - 1]], Promoted(head, x, r);
    NodesHeads(h, path, ring, head, x);
    MemberOf(h, ring, head, x, n - 1);
    GraftRings(h1, path, ring', head', x, r);
    forall k | k in path && k != x ensures k in h1.size && h1.size[k] != h1.size[r] {
      Sizes(h, path, x, k);
    }
    Replace(h1, path, x, r);
  }

  lemma MemberOf(h: Heap, ring: map<int, seq<int>>, head: map<int, int>, t: int, i: nat)
    requires RingsInv(h, ring, head) && t in ring && i < |ring[t]|
    ensures ring[t][i] in head && head[ring[t][i]] == t
  {
    assert GroupOk(h, ring, head, t) && MemberOk(h, ring, head, t, i);
  }

  lemma Sizes(h: Heap, path: map<int, seq<int>>, a: int, b: int)
    requires TreeInv(h, path) && a in path && b in path && a != b
    ensures a in h.size && b in h.size && h.size[a] != h.size[b]
  {
    NodeAt(h, path, a);
    NodeAt(h, path, b);
  }

  /** Child slots of nodes do not matter to the rings. */
  lemma CutRings(h: Heap, path: map<int, seq<int>>, ring: map<int, seq<int>>, head: map<int, int>, t: int, b: int)
    requires RingsInv(h, ring, head) && ring.Keys == path.Keys && t in path
    ensures RingsInv(WithoutChild(h, t, b), ring, head)
  {
    NodesHeads(h, path, ring, head, t);
    RingsFrame(h, WithoutChild(h, t, b), ring, head);
  }

  lemma AloneIn(h: Heap, ring: map<int, seq<int>>, head: map<int, int>, x: int)
    requires RingsInv(h, ring, head) && x in ring && |ring[x]| == 1
    ensures ring[x] == [x]
  {
    assert GroupOk(h, ring, head, x);
  }

  /** A leaf without equals leaves. */
  lemma LeafGone(h: Heap, path: map<int, seq<int>>, ring: map<int, seq<int>>, head: map<int, int>, own: set<int>,
      x: int)
    requires Bins(h, path, ring, head, own) && x in ring && |ring[x]| == 1 && Leaf(h, path, x)
    ensures path[x] == [] ==>
      0 <= h.index[x] < |h.root| &&
      Bins(WithoutRoot(h, h.index[x]), path - {x}, ring - {x}, head - {x}, own - {x})
    ensures path[x] != [] ==>
      Bins(WithoutChild(h, h.parent[x], path[x][|path[x]| - 1]), path - {x}, ring - {x}, head - {x}, own - {x})
  {
    hide TreeInv, RingsInv;
    AloneIn(h, ring, head, x);
    if path[x] == [] {
      CutRoot(h, path, x);
      SameRings(h, WithoutRoot(h, h.index[x]), ring, head);
      DropGroup(WithoutRoot(h, h.index[x]), ring, head, x);
    } else {
      CutLeaf(h, path, x);
      PlaceOf(h, path, x);
      var t, b := h.parent[x], path[x][|path[x]| - 1];
      CutRings(h, path, ring, head, t, b);
      DropGroup(WithoutChild(h, t, b), ring, head, x);
    }
  }

  lemma SameRings(h: Heap, h': Heap, ring: map<int, seq<int>>, head: map<int, int>)
    requires RingsInv(h, ring, head) && h' == h.(root := h'.root, treemap := h'.treemap)
    ensures RingsInv(h', ring, head)
  {
    RingsFrame(h, h', ring, head);
  }

  lemma ShorterPath(h: Heap, path: map<int, seq<int>>, r: int, h': Heap, p: seq<int>)
    requires Sized(h, r) && r in path && OnPath(h, r, path[r]) && p < path[r]
    requires Sized(h', r) && h'.size[r] == h.size[r] && h'.index[r] == h.index[r]
    ensures OnPath(h', r, p)
  {
    hide Turn;
    forall d | 0 <= d < |p| ensures p[d] == Turn(h.index[r], h.size[r], d) {
      assert path[r][d] == p[d];
    }
  }

  /** The leaf that was cut off is ready to take the place of `x` above it. */
  lemma CutGraft(h: Heap, path: map<int, seq<int>>, ring: map<int, seq<int>>, head: map<int, int>, own: set<int>,
                 x: int, r: int)
    requires Bins(h, path, ring, head, own) && x in ring && |ring[x]| == 1 && x in path && HasWords(h, x)
    requires Leaf(h, path, r) && path[x] < path[r] && h.index[r] == h.index[x]
    ensures h.parent[r] in path
    ensures var h1 := WithoutChild(h, h.parent[r], path[r][|path[r]| - 1]);
      TreeInv(h1, path - {r}) && Graft(h1, path - {r}, x, r) && h1.size == h.size
  {
    hide TreeInv, RingsInv, OnPath;
    CutLeaf(h, path, r);
    PlaceOf(h, path, r);
    NodeAt(h, path, r);
    RootOf(h, path, x);
    var h1 := WithoutChild(h, h.parent[r], path[r][|path[r]| - 1]);
    ShorterPath(h, path, r, h1, path[x]);
  }

  /** A node without equals leaves; a leaf below it takes its place. */
  lemma CutAndGrafted(h: Heap, path: map<int, seq<int>>, ring: map<int, seq<int>>, head: map<int, int>, own: set<int>,
                      x: int, r: int)
    requires Bins(h, path, ring, head, own) && x in ring && |ring[x]| == 1 && x in path && HasWords(h, x)
    requires Leaf(h, path, r) && path[x] < path[r] && h.index[r] == h.index[x] && h.parent[r] in path
    requires Graft(WithoutChild(h, h.parent[r], path[r][|path[r]| - 1]), path - {r}, x, r)
    ensures Bins(Grafted(WithoutChild(h, h.parent[r], path[r][|path[r]| - 1]), x, r),
                 (path - {r} - {x})[r := path[x]], ring - {x}, head - {x}, own - {x})
  {
    hide TreeInv, RingsInv, OnPath, Grafted, Graft;
    CutGraft(h, path, ring, head, own, x, r);
    var t, b := h.parent[r], path[r][|path[r]| - 1];
    var h1 := WithoutChild(h, t, b);
    forall k | k in path && k != x && k != r ensures k in h1.size && h1.size[k] != h1.size[r] {
      Sizes(h, path, k, r);
    }
    Replace(h1, path - {r}, x, r);
    AloneIn(h, ring, head, x);
    CutRings(h, path, ring, head, t, b);
    DropGroup(h1, ring, head, x);
    NodesHeads(h, path, ring, head, r);
    GraftRings(h1, path - {r}, ring - {x}, head - {x}, x, r);
  }
}
