/** The large bins of the allocator: digital tries of chunks, threaded through memory. */
module AllocTrie {
  import opened AllocIndex
  import opened AllocRing

  /** The words of free large chunks, by chunk address, and the bin roots. The parent word of a
      root holds the address of its bin slot. */
  datatype Heap = Heap(
    c0: map<int, int>, c1: map<int, int>, parent: map<int, int>,
    fd: map<int, int>, bk: map<int, int>, index: map<int, int>, size: map<int, int>,
    root: seq<int>, treemap: set<int>)

  function BinSlot(i: int): int { -1 - i }

  predicate HasWords(h: Heap, n: int) {
    n in h.c0 && n in h.c1 && n in h.parent && n in h.fd && n in h.bk && n in h.index && n in h.size
  }

  function Child(h: Heap, n: int, b: int): int
    requires HasWords(h, n)
  {
    if b == 0 then h.c0[n] else h.c1[n]
  }

  /** A chunk of a size that belongs into bin `index`. */
  predicate Sized(h: Heap, n: int) {
    && HasWords(h, n) && n > 0
    && 256 <= h.size[n] < TWO40 && h.index[n] == TreeIndex(h.size[n])
  }

  /** The path to a node spells the turns its size takes. */
  predicate OnPath(h: Heap, n: int, p: seq<int>)
    requires Sized(h, n)
  {
    |p| <= 64 && forall d :: 0 <= d < |p| ==> p[d] == Turn(h.index[n], h.size[n], d)
  }

  /** What hangs above node `n` points down to it. */
  predicate UpOk(h: Heap, path: map<int, seq<int>>, n: int)
    requires n in path && HasWords(h, n)
  {
    if path[n] == [] then
      0 <= h.index[n] < |h.root| && h.root[h.index[n]] == n && h.parent[n] == BinSlot(h.index[n])
    else
      var p := h.parent[n];
      && p in path && HasWords(h, p) && h.index[p] == h.index[n]
      && path[p] == path[n][..|path[n]| - 1]
      && Child(h, p, path[n][|path[n]| - 1]) == n
  }

  /** What hangs below node `n` on side `b` points up to it. */
  predicate DownOk(h: Heap, path: map<int, seq<int>>, n: int, b: int)
    requires n in path && HasWords(h, n)
  {
    var c := Child(h, n, b);
    c == 0 || (c in path && HasWords(h, c) && h.index[c] == h.index[n] && path[c] == path[n] + [b] && h.parent[c] == n)
  }

  predicate NodeOk(h: Heap, path: map<int, seq<int>>, n: int)
    requires n in path
  {
    && Sized(h, n) && OnPath(h, n, path[n])
    && UpOk(h, path, n) && DownOk(h, path, n, 0) && DownOk(h, path, n, 1)
  }

  predicate RootOk(h: Heap, path: map<int, seq<int>>, i: int)
    requires 0 <= i < |h.root|
  {
    && (h.root[i] != 0 ==>
        h.root[i] in path && path[h.root[i]] == [] && HasWords(h, h.root[i]) && h.index[h.root[i]] == i)
    && (i in h.treemap <==> h.root[i] != 0)
  }

  /** The tries: `path` gives each tree node its way down from the root of its bin. Nodes have
      pairwise different sizes. */
  predicate TreeInv(h: Heap, path: map<int, seq<int>>) {
    && |h.root| == 32
    && (forall i :: i in h.treemap ==> 0 <= i < 32)
    && (forall i :: 0 <= i < 32 ==> RootOk(h, path, i))
    && (forall n :: n in path ==> NodeOk(h, path, n))
    && (forall a, b :: a in path && b in path && a != b ==> h.size[a] != h.size[b])
  }

  lemma NodeAt(h: Heap, path: map<int, seq<int>>, n: int)
    requires TreeInv(h, path) && n in path
    ensures NodeOk(h, path, n)
  {}

  lemma DepthBound(h: Heap, path: map<int, seq<int>>, n: int)
    requires TreeInv(h, path) && n in path
    ensures |path[n]| <= 64
  {
    NodeAt(h, path, n);
  }

  /** Two nodes of a bin with the same path are the same node. */
  lemma {:induction false} PathUnique(h: Heap, path: map<int, seq<int>>, a: int, b: int)
    requires TreeInv(h, path) && a in path && b in path
    requires path[a] == path[b] && h.index[a] == h.index[b]
    ensures a == b
    decreases |path[a]|
  {
    assert NodeOk(h, path, a) && NodeOk(h, path, b);
    if path[a] != [] {
      var p, q := h.parent[a], h.parent[b];
      PathUnique(h, path, p, q);
    }
  }

  /** Every prefix of a node's path leads to a node. */
  lemma {:induction false} Ancestor(h: Heap, path: map<int, seq<int>>, n: int, d: nat) returns (a: int)
    requires TreeInv(h, path) && n in path && d <= |path[n]|
    ensures a in path && h.index[a] == h.index[n] && path[a] == path[n][..d]
    decreases |path[n]|
  {
    assert NodeOk(h, path, n);
    if d == |path[n]| {
      a := n;
      assert path[n][..d] == path[n];
    } else {
      var p := h.parent[n];
      a := Ancestor(h, path, p, d);
      assert path[p][..d] == path[n][..d];
    }
  }

  lemma LastTurn(h: Heap, path: map<int, seq<int>>, n: int)
    requires TreeInv(h, path) && n in path && path[n] != []
    ensures path[n][|path[n]| - 1] == 0 || path[n][|path[n]| - 1] == 1
  {
    NodeAt(h, path, n);
  }

  /** The place of a node below its parent. */
  lemma PlaceOf(h: Heap, path: map<int, seq<int>>, r: int)
    requires TreeInv(h, path) && r in path && path[r] != []
    ensures HasWords(h, r)
    ensures var t, b := h.parent[r], path[r][|path[r]| - 1];
      && t in path && t != r && HasWords(h, t) && h.index[t] == h.index[r] && (b == 0 || b == 1)
      && path[r] == path[t] + [b] && Child(h, t, b) == r
      && (b == 1 ==> h.c0[t] != r)
  {
    hide TreeInv, Turn;
    NodeAt(h, path, r);
    LastTurn(h, path, r);
    var t, b := h.parent[r], path[r][|path[r]| - 1];
    NodeAt(h, path, t);
    assert path[r] == path[t] + [b];
    assert (path[t] + [0])[|path[t]|] != (path[t] + [1])[|path[t]|];
  }

  /** A node below `t` is reached through the child of `t` on its side. */
  lemma Descend(h: Heap, path: map<int, seq<int>>, t: int, n: int)
    requires TreeInv(h, path) && t in path && n in path && h.index[t] == h.index[n]
    requires path[t] < path[n]
    ensures var b := path[n][|path[t]|];
      && (b == 0 || b == 1)
      && var c := Child(h, t, b);
        c != 0 && c in path && h.index[c] == h.index[t] && path[c] == path[n][..|path[t]| + 1]
  {
    hide TreeInv, OnPath, UpOk, DownOk;
    var d := |path[t]|;
    NodeAt(h, path, t);
    NoZero(h, path);
    var a := Ancestor(h, path, n, d + 1);
    PlaceOf(h, path, a);
    var p := h.parent[a];
    assert path[p] == path[a][..d] == path[n][..d] == path[t];
    PathUnique(h, path, p, t);
  }

  /** A node's bin has a root, and the node is below it. */
  lemma RootAbove(h: Heap, path: map<int, seq<int>>, n: int)
    requires TreeInv(h, path) && n in path
    ensures 0 <= h.index[n] < 32 && h.root[h.index[n]] in path && path[h.root[h.index[n]]] == []
    ensures h.index[n] in h.treemap
  {
    var a := Ancestor(h, path, n, 0);
    assert NodeOk(h, path, a) && NodeOk(h, path, n);
    assert RootOk(h, path, h.index[n]);
  }

  /** `n` is a node of bin `i` at or below `t`. */
  predicate Under(h: Heap, path: map<int, seq<int>>, i: int, t: int, n: int) {
    && t in path && n in path && HasWords(h, t) && HasWords(h, n)
    && h.index[t] == h.index[n] == i && path[t] <= path[n]
  }

  /** Left of a node all sizes are smaller than right of it. */
  lemma SidesOrdered(h: Heap, path: map<int, seq<int>>, t: int, a: int, b: int)
    requires TreeInv(h, path) && t in path && a in path && b in path
    requires h.index[a] == h.index[t] == h.index[b]
    requires path[t] + [0] <= path[a] && path[t] + [1] <= path[b]
    ensures h.size[a] < h.size[b]
  {
    hide TreeInv, UpOk, DownOk;
    NodeAt(h, path, t);
    NodeAt(h, path, a);
    NodeAt(h, path, b);
    var i, d := h.index[t], |path[t]|;
    IndexRight(h.size[a]);
    IndexRight(h.size[b]);
    assert (path[t] + [0])[d] == path[a][d] && (path[t] + [1])[d] == path[b][d];
    forall e | 0 <= e < d ensures Turn(i, h.size[a], e) == Turn(i, h.size[b], e) {
      assert path[a][e] == (path[t] + [0])[e] && path[b][e] == (path[t] + [1])[e];
    }
    TurnsOrder(i, h.size[a], h.size[b], d);
  }

  function LeftmostChild(h: Heap, t: int): int
    requires HasWords(h, t)
  {
    if h.c0[t] != 0 then h.c0[t] else h.c1[t]
  }

  /** Going to the leftmost child only leaves out larger sizes. */
  lemma LeftmostCovers(h: Heap, path: map<int, seq<int>>, t: int, n: int)
    requires TreeInv(h, path) && t in path && HasWords(h, t) && n != t && Under(h, path, h.index[t], t, n)
    ensures var c := LeftmostChild(h, t);
      && c != 0 && c in path && HasWords(h, c) && n in h.size
      && (path[c] <= path[n] || h.size[c] < h.size[n])
  {
    hide TreeInv, OnPath, UpOk;
    NodeAt(h, path, t);
    NodeAt(h, path, n);
    if path[n] == path[t] { PathUnique(h, path, n, t); }
    Descend(h, path, t, n);
    var b := path[n][|path[t]|];
    assert path[n][..|path[t]| + 1] == path[t] + [b];
    if b == 1 && h.c0[t] != 0 {
      SidesOrdered(h, path, t, h.c0[t], n);
    }
  }

  /** A size that turns to side `b` at node `t`, against a node on the other side. */
  lemma OtherSide(h: Heap, path: map<int, seq<int>>, t: int, n: int, s: nat)
    requires TreeInv(h, path) && t in path && n in path && h.index[n] == h.index[t] == TreeIndex(s)
    requires 256 <= s < TWO40 && path[t] < path[n]
    requires forall e :: 0 <= e < |path[t]| ==> path[t][e] == Turn(TreeIndex(s), s, e)
    ensures var d := |path[t]|;
      && (path[n][d] < Turn(TreeIndex(s), s, d) ==> h.size[n] < s)
      && (path[n][d] > Turn(TreeIndex(s), s, d) ==> h.size[n] > s)
  {
    var i, d := TreeIndex(s), |path[t]|;
    assert NodeOk(h, path, n);
    IndexRight(s);
    IndexRight(h.size[n]);
    assert forall e :: 0 <= e < d ==> path[n][e] == path[t][e];
    if path[n][d] < Turn(i, s, d) { TurnsOrder(i, h.size[n], s, d); }
    if path[n][d] > Turn(i, s, d) { TurnsOrder(i, s, h.size[n], d); }
  }

  /** A node whose path takes 64 turns of a size has that size. */
  lemma DeepEnough(h: Heap, path: map<int, seq<int>>, t: int, s: nat)
    requires TreeInv(h, path) && t in path && h.index[t] == TreeIndex(s)
    requires 256 <= s < TWO40 && |path[t]| >= 64
    requires forall e :: 0 <= e < 64 ==> path[t][e] == Turn(TreeIndex(s), s, e)
    ensures h.size[t] == s
  {
    assert NodeOk(h, path, t);
    IndexRight(s);
    IndexRight(h.size[t]);
    TurnsFix(TreeIndex(s), h.size[t], s);
  }

  /** Unsigned 64 bit subtraction. */
  function Sub64(a: int, b: int): (r: nat)
    ensures r < TWO64
  {
    (a - b) % TWO64
  }

  lemma Sub64Is(a: int, b: int)
    requires 0 <= a < TWO64 && 0 <= b < TWO64
    ensures Sub64(a, b) == if a >= b then a - b else a - b + TWO64
  {}

  /** `v` is the best fit so far for a request of `nb` bytes; 0 if there is none. */
  predicate Best(h: Heap, path: map<int, seq<int>>, nb: int, v: int, rsize: int) {
    if v == 0 then rsize == TWO64 - nb
    else v in path && v in h.size && nb <= h.size[v] < TWO40 && rsize == h.size[v] - nb
  }

  /** All nodes at or below `t0` are large enough. */
  ghost predicate AllFit(h: Heap, path: map<int, seq<int>>, nb: int, t0: int) {
    forall n :: t0 in h.index && Under(h, path, h.index[t0], t0, n) ==> h.size[n] >= nb
  }

  /** A walk from `t0` that stands at `t` has seen, or will beat, every node at or below `t0`. */
  ghost predicate Covers(h: Heap, path: map<int, seq<int>>, nb: int, t0: int, t: int, rsize: int) {
    forall n :: t0 in h.index && Under(h, path, h.index[t0], t0, n) && h.size[n] >= nb ==>
      || rsize <= h.size[n] - nb
      || (t in path && t in h.size && (path[t] <= path[n] || h.size[t] < h.size[n]))
  }

  lemma WalkStep(h: Heap, path: map<int, seq<int>>, nb: int, t0: int, t: int, rsize: int, rsize': int)
    requires TreeInv(h, path) && t0 in h.index && Under(h, path, h.index[t0], t0, t)
    requires Covers(h, path, nb, t0, t, rsize) && rsize' <= rsize
    requires rsize' == 0 || nb >= TWO40 || AllFit(h, path, nb, t0)
    requires h.size[t] >= nb ==> rsize' <= h.size[t] - nb
    requires 0 < nb
    ensures Covers(h, path, nb, t0, LeftmostChild(h, t), rsize')
  {
    hide TreeInv, OnPath, UpOk, DownOk;
    var c := LeftmostChild(h, t);
    forall n | Under(h, path, h.index[t0], t0, n) && h.size[n] >= nb
      ensures rsize' <= h.size[n] - nb || (c in path && c in h.size && (path[c] <= path[n] || h.size[c] < h.size[n]))
    {
      NodeAt(h, path, n);
      if n != t && path[t] <= path[n] {
        LeftmostCovers(h, path, t, n);
      }
    }
  }

  lemma ChildUnder(h: Heap, path: map<int, seq<int>>, t0: int, t: int)
    requires TreeInv(h, path) && t0 in h.index && Under(h, path, h.index[t0], t0, t)
    ensures var c := LeftmostChild(h, t);
      c != 0 ==> Under(h, path, h.index[t0], t0, c) && |path[c]| == |path[t]| + 1 && |path[c]| <= 64
  {
    NodeAt(h, path, t);
    var c := LeftmostChild(h, t);
    if c != 0 { DepthBound(h, path, c); }
  }

  lemma TreeShape(h: Heap, path: map<int, seq<int>>)
    requires TreeInv(h, path)
    ensures |h.root| == 32 && 0 !in path
    ensures forall i :: i in h.treemap ==> 0 <= i < 32
    ensures forall i :: 0 <= i < 32 ==>
      && (i in h.treemap <==> h.root[i] != 0)
      && (h.root[i] != 0 ==>
          h.root[i] in path && HasWords(h, h.root[i]) && path[h.root[i]] == [] && h.index[h.root[i]] == i)
    ensures forall n :: n in path ==>
      HasWords(h, n) && 0 <= h.index[n] < 32 && h.index[n] in h.treemap && h.index[n] == TreeIndex(h.size[n])
      && 256 <= h.size[n] < TWO40
  {
    NoZero(h, path);
    forall i | 0 <= i < 32
      ensures (i in h.treemap <==> h.root[i] != 0) &&
        (h.root[i] != 0 ==>
            h.root[i] in path && HasWords(h, h.root[i]) && path[h.root[i]] == [] && h.index[h.root[i]] == i)
    {
      assert RootOk(h, path, i);
    }
    forall n | n in path
      ensures HasWords(h, n) && 0 <= h.index[n] < 32 && h.index[n] in h.treemap && h.index[n] == TreeIndex(h.size[n])
        && 256 <= h.size[n] < TWO40
    {
      NodeAt(h, path, n);
      RootAbove(h, path, n);
    }
  }

  lemma NoZero(h: Heap, path: map<int, seq<int>>)
    requires TreeInv(h, path)
    ensures 0 !in path
  {
    if 0 in path { NodeAt(h, path, 0); }
  }

  /** A walk that still has subtree `t` to search will beat node `n`, or has. */
  predicate Left(h: Heap, path: map<int, seq<int>>, t: int, rsize: int, nb: int, n: int)
    requires n in path && n in h.size
  {
    || rsize <= h.size[n] - nb
    || (t in path && t in h.size && (path[t] <= path[n] || h.size[t] < h.size[n]))
  }

  /** `rst` is a right subtree that the walk to `t` left aside: it branches off to the right where
      the walk went left. */
  predicate Aside(path: map<int, seq<int>>, t: int, rst: int)
    requires t in path && rst in path
  {
    var k := |path[rst]| - 1;
    0 <= k < |path[t]| && path[rst][k] == 1 && path[t][k] == 0 && path[rst][..k] == path[t][..k]
  }

  /** The walk of tmalloc_large through the request's own bin, at node `t`. */
  ghost predicate Searching(h: Heap, path: map<int, seq<int>>, nb: nat, idx: int, t: int, rst: int, rsize: int) {
    && 0 <= idx < 32 && idx == TreeIndex(nb)
    && t in path && HasWords(h, t) && h.index[t] == idx
    && (forall e :: 0 <= e < |path[t]| ==> path[t][e] == Turn(idx, nb, e))
    && (rst != 0 ==> rst in path && HasWords(h, rst) && h.index[rst] == idx && Aside(path, t, rst))
    && (nb >= TWO40 || AllFit(h, path, nb, rst))
    && forall n :: n in path && HasWords(h, n) && h.index[n] == idx && h.size[n] >= nb ==>
         path[t] <= path[n] || Left(h, path, rst, rsize, nb, n)
  }

  /** What is left after the walk: subtree `t`, which only holds chunks that fit, will beat every
      fitting chunk of the bin, unless that has been beaten. */
  ghost predicate Remaining(h: Heap, path: map<int, seq<int>>, nb: nat, idx: int, t: int, rsize: int) {
    && (t != 0 ==> t in path && HasWords(h, t) && h.index[t] == idx)
    && (rsize == 0 || nb >= TWO40 || AllFit(h, path, nb, t))
    && (forall n :: n in path && HasWords(h, n) && h.index[n] == idx && h.size[n] >= nb ==>
          Left(h, path, t, rsize, nb, n))
  }

  /** A right subtree left aside only has larger sizes than the subtree walked into. */
  lemma AsideLarger(h: Heap, path: map<int, seq<int>>, t: int, rst: int, a: int, b: int)
    requires TreeInv(h, path) && t in path && rst in path && Aside(path, t, rst)
    requires a in path && b in path && path[t] <= path[a] && path[rst] <= path[b]
    requires h.index[t] == h.index[rst] == h.index[a] == h.index[b]
    ensures h.size[a] < h.size[b]
  {
    hide TreeInv;
    var k := |path[rst]| - 1;
    var p := Ancestor(h, path, rst, k);
    assert path[p] + [1] == path[rst];
    assert path[p] + [0] == path[t][..k + 1];
    assert path[p] + [0] <= path[a];
    SidesOrdered(h, path, p, a, b);
  }

  lemma ChildAt(h: Heap, path: map<int, seq<int>>, t: int, b: int)
    requires TreeInv(h, path) && t in path && (b == 0 || b == 1)
    ensures HasWords(h, t) && |path[t]| <= 64
    ensures var c := Child(h, t, b);
      c == 0 || (c in path && HasWords(h, c) && h.index[c] == h.index[t] && path[c] == path[t] + [b] && |path[c]| <= 64
               && h.parent[c] == t)
  {
    NodeAt(h, path, t);
    var c := Child(h, t, b);
    if c != 0 { DepthBound(h, path, c); }
  }

  /** The right child of a node where the request turns left only holds larger sizes. */
  lemma RightFits(h: Heap, path: map<int, seq<int>>, nb: nat, t: int)
    requires TreeInv(h, path) && t in path && HasWords(h, t) && h.index[t] == TreeIndex(nb) && 256 <= nb < TWO40
    requires forall e :: 0 <= e < |path[t]| ==> path[t][e] == Turn(TreeIndex(nb), nb, e)
    requires Turn(TreeIndex(nb), nb, |path[t]|) == 0
    ensures AllFit(h, path, nb, h.c1[t])
  {
    hide TreeInv, Turn;
    NoZero(h, path);
    ChildAt(h, path, t, 1);
    var c := h.c1[t];
    forall n | c in h.index && Under(h, path, h.index[c], c, n) ensures h.size[n] >= nb {
      assert path[n][|path[t]|] == path[c][|path[t]|] == 1;
      OtherSide(h, path, t, n, nb);
    }
  }

  lemma SearchNode(h: Heap, path: map<int, seq<int>>, nb: nat, idx: int, t: int, rst: int, rsize: int, rsize': int,
      n: int)
    requires TreeInv(h, path) && Searching(h, path, nb, idx, t, rst, rsize) && 256 <= nb < TWO64
    requires rsize' <= rsize && (h.size[t] >= nb ==> rsize' <= h.size[t] - nb)
    requires n in path && HasWords(h, n) && h.index[n] == idx && h.size[n] >= nb
    ensures var c, rt := Child(h, t, Turn(idx, nb, |path[t]|)), h.c1[t];
      var rst' := if rt != 0 && rt != c then rt else rst;
      (c in path && path[c] <= path[n]) || Left(h, path, rst', rsize', nb, n)
  {
    hide TreeInv, Turn, AllFit;
    SizeBound(h, path, n);
    NoZero(h, path);
    ChildAt(h, path, t, 0);
    ChildAt(h, path, t, 1);
    var d := |path[t]|;
    var b := Turn(idx, nb, d);
    var c, rt := Child(h, t, b), h.c1[t];
    if path[t] <= path[n] {
      if path[t] == path[n] {
        PathUnique(h, path, t, n);
      } else {
        Descend(h, path, t, n);
        OtherSide(h, path, t, n, nb);
        assert path[n][..d + 1] == path[t] + [path[n][d]];
      }
    } else if rst != 0 && rt != 0 && rt != c {
      assert path[t] <= path[rt];
      AsideLarger(h, path, t, rst, rt, rst);
      if path[rst] <= path[n] { AsideLarger(h, path, t, rst, rt, n); }
    }
  }

  lemma SizeBound(h: Heap, path: map<int, seq<int>>, n: int)
    requires TreeInv(h, path) && n in path
    ensures HasWords(h, n) && n > 0 && 256 <= h.size[n] < TWO40
  {
    NodeAt(h, path, n);
  }

  lemma SearchStep(h: Heap, path: map<int, seq<int>>, nb: nat, idx: int, t: int, rst: int, rsize: int, rsize': int)
    requires TreeInv(h, path) && Searching(h, path, nb, idx, t, rst, rsize) && 256 <= nb < TWO64
    requires rsize' <= rsize && (h.size[t] >= nb ==> rsize' <= h.size[t] - nb)
    ensures |path[t]| <= 64
    ensures var c, rt := Child(h, t, Turn(idx, nb, |path[t]|)), h.c1[t];
      var rst' := if rt != 0 && rt != c then rt else rst;
      if c != 0 then c in path && HasWords(h, c) && Searching(h, path, nb, idx, c, rst', rsize') &&
        |path[c]| == |path[t]| + 1 <= 64
      else Remaining(h, path, nb, idx, rst', rsize')
  {
    hide TreeInv, Turn, AllFit, Left;
    NoZero(h, path);
    ChildAt(h, path, t, 0);
    ChildAt(h, path, t, 1);
    var b := Turn(idx, nb, |path[t]|);
    var c, rt := Child(h, t, b), h.c1[t];
    var rst' := if rt != 0 && rt != c then rt else rst;
    if nb < TWO40 && b == 0 { RightFits(h, path, nb, t); }
    if rst' != 0 && c != 0 {
      assert Aside(path, c, rst');
    }
    forall n | n in path && HasWords(h, n) && h.index[n] == idx && h.size[n] >= nb
      ensures (c in path && path[c] <= path[n]) || Left(h, path, rst', rsize', nb, n)
    {
      SearchNode(h, path, nb, idx, t, rst, rsize, rsize', n);
    }
  }

  lemma ExactFit(h: Heap, path: map<int, seq<int>>, nb: nat, idx: int, t: int, rst: int, rsize: int)
    requires Searching(h, path, nb, idx, t, rst, rsize)
    ensures Remaining(h, path, nb, idx, t, 0)
  {}

  /** Comparing unsigned differences only ever prefers a smaller chunk that fits. */
  lemma BestStep(h: Heap, path: map<int, seq<int>>, nb: nat, v: int, rsize: int, t: int)
    requires Best(h, path, nb, v, rsize) && 0 < nb < TWO64
    requires t in path && t in h.size && 256 <= h.size[t] < TWO40 && t != 0
    ensures var trem := Sub64(h.size[t], nb);
      && (trem < rsize ==> Best(h, path, nb, t, trem))
      && (h.size[t] >= nb ==> trem == h.size[t] - nb)
      && (h.size[t] < nb ==> trem >= rsize)
  {
    if h.size[t] < nb {
      assert Sub64(h.size[t], nb) == h.size[t] - nb + TWO64;
    }
  }

  lemma StartBest(h: Heap, path: map<int, seq<int>>, nb: nat)
    requires 0 < nb < TWO64
    ensures Best(h, path, nb, 0, Sub64(0, nb))
  {
    assert Sub64(0, nb) == TWO64 - nb;
  }

  lemma SearchAt(h: Heap, path: map<int, seq<int>>, nb: nat, idx: int, t: int, rst: int, rsize: int)
    requires TreeInv(h, path) && Searching(h, path, nb, idx, t, rst, rsize)
    ensures t in path && HasWords(h, t) && h.index[t] == idx && 256 <= h.size[t] < TWO40
  {
    SizeBound(h, path, t);
  }

  lemma StartSearch(h: Heap, path: map<int, seq<int>>, nb: nat, idx: int, rsize: int)
    requires TreeInv(h, path) && idx == TreeIndex(nb) && h.root[idx] != 0
    ensures |h.root| == 32
    ensures Searching(h, path, nb, idx, h.root[idx], 0, rsize) && path[h.root[idx]] == []
  {
    NoZero(h, path);
    assert RootOk(h, path, idx);
  }

  lemma NothingHere(h: Heap, path: map<int, seq<int>>, nb: nat, idx: int, rsize: int)
    requires TreeInv(h, path) && 0 <= idx < 32 && h.root[idx] == 0
    ensures forall n :: n in path && HasWords(h, n) && h.index[n] == idx && h.size[n] >= nb ==>
      Left(h, path, 0, rsize, nb, n)
  {
    TreeShape(h, path);
  }

  lemma NoneFit(h: Heap, path: map<int, seq<int>>, nb: nat)
    requires TreeInv(h, path)
    ensures AllFit(h, path, nb, 0)
  {
    NoZero(h, path);
  }

  /** In a higher bin every chunk is large enough. */
  lemma HigherFits(h: Heap, path: map<int, seq<int>>, nb: nat, t: int)
    requires TreeInv(h, path) && t in path && HasWords(h, t) && h.index[t] > TreeIndex(nb) && nb >= 256
    ensures nb >= TWO40 || AllFit(h, path, nb, t)
  {
    if nb < TWO40 {
      forall n | Under(h, path, h.index[t], t, n) ensures h.size[n] >= nb {
        BinOrder(h, path, nb, n);
      }
    }
  }

  lemma BinOrder(h: Heap, path: map<int, seq<int>>, s: nat, n: int)
    requires TreeInv(h, path) && n in path && 256 <= s < TWO40
    ensures n in h.index && n in h.size
    ensures h.index[n] > TreeIndex(s) ==> h.size[n] > s
    ensures h.index[n] < TreeIndex(s) ==> h.size[n] < s
  {
    NodeAt(h, path, n);
    IndexRight(s);
    IndexRight(h.size[n]);
    if h.index[n] > TreeIndex(s) { BinsOrdered(TreeIndex(s), s, h.index[n], h.size[n]); }
    if h.index[n] < TreeIndex(s) { BinsOrdered(h.index[n], h.size[n], TreeIndex(s), s); }
  }

  /** Something was found in the request's own bin: nothing beats it. */
  lemma FoundBest(h: Heap, path: map<int, seq<int>>, nb: nat, idx: int, v: int, t: int, r1: int, rsize: int, n: int)
    requires TreeInv(h, path) && idx == TreeIndex(nb) && 256 <= nb < TWO64
    requires (v != 0 || t != 0) && Best(h, path, nb, v, r1) && (v != 0 ==> v in h.index && h.index[v] == idx)
    requires t == 0 || (t in path && HasWords(h, t) && h.index[t] == idx)
    requires r1 == 0 || nb >= TWO40 || AllFit(h, path, nb, t)
    requires rsize <= r1 && Covers(h, path, nb, t, 0, rsize)
    requires n in path && HasWords(h, n) && h.size[n] >= nb
    requires h.index[n] == idx ==> Left(h, path, t, r1, nb, n)
    ensures rsize <= h.size[n] - nb
  {
    hide TreeInv;
    SizeBound(h, path, n);
    NoZero(h, path);
    BinOrder(h, path, nb, n);
    if t != 0 && r1 != 0 {
      SizeBound(h, path, t);
      assert Under(h, path, idx, t, t);
      BinOrder(h, path, h.size[t], n);
    }
    if v != 0 { BinOrder(h, path, h.size[v], n); SizeIndex(h, path, v); }
    if t != 0 { SizeIndex(h, path, t); }
    if h.index[n] == idx && t != 0 && path[t] <= path[n] {
      assert Under(h, path, idx, t, n);
    }
  }

  lemma SizeIndex(h: Heap, path: map<int, seq<int>>, n: int)
    requires TreeInv(h, path) && n in path
    ensures HasWords(h, n) && h.index[n] == TreeIndex(h.size[n])
  {
    NodeAt(h, path, n);
  }

  /** Nothing was found in the request's own bin: the least chunk of the next bin is best. */
  lemma NextBest(h: Heap, path: map<int, seq<int>>, nb: nat, idx: int, t: int, r1: int, rsize: int, n: int)
    requires TreeInv(h, path) && idx == TreeIndex(nb) && 256 <= nb < TWO64 && r1 == TWO64 - nb
    requires rsize <= r1 && Covers(h, path, nb, t, 0, rsize)
    requires n in path && HasWords(h, n) && h.size[n] >= nb
    requires h.index[n] == idx ==> Left(h, path, 0, r1, nb, n)
    requires (forall i :: i in h.treemap ==> i <= idx) ||
      (t in path && HasWords(h, t) && path[t] == [] && h.index[t] > idx &&
       forall i :: i in h.treemap && i > idx ==> h.index[t] <= i)
    ensures rsize <= h.size[n] - nb
  {
    hide TreeInv;
    TreeShape(h, path);
    BinOrder(h, path, nb, n);
    if t in path && HasWords(h, t) && path[t] == [] && h.index[t] > idx {
      SizeBound(h, path, t);
      BinOrder(h, path, nb, t);
      SizeIndex(h, path, t);
      assert Under(h, path, h.index[t], t, t);
      BinOrder(h, path, h.size[t], n);
      if h.index[n] == h.index[t] { assert Under(h, path, h.index[t], t, n); }
    }
  }

  /** Every large chunk fits a small request. */
  lemma AllLarge(h: Heap, path: map<int, seq<int>>, nb: int, t: int)
    requires TreeInv(h, path) && nb < 256
    ensures AllFit(h, path, nb, t)
  {
    hide TreeInv;
    forall n | t in h.index && Under(h, path, h.index[t], t, n) ensures h.size[n] >= nb {
      SizeBound(h, path, n);
    }
  }

  /** The least chunk of the least bin is the least of all. */
  lemma LeastBin(h: Heap, path: map<int, seq<int>>, nb: int, t: int, rsize: int, n: int)
    requires TreeInv(h, path) && t in path && HasWords(h, t) && path[t] == [] && n in path
    requires forall i :: i in h.treemap ==> h.index[t] <= i
    requires 0 < nb < 256 && Covers(h, path, nb, t, 0, rsize)
    ensures HasWords(h, n) && rsize <= h.size[n] - nb
  {
    hide TreeInv, OnPath, UpOk, DownOk;
    TreeShape(h, path);
    SizeBound(h, path, n);
    SizeBound(h, path, t);
    if h.index[n] == h.index[t] {
      assert Under(h, path, h.index[t], t, n);
    } else {
      BinOrder(h, path, h.size[t], n);
      assert Under(h, path, h.index[t], t, t);
    }
  }

  /** Words that are not those of tree nodes do not matter to the trees. */
  lemma TreeFrame(h: Heap, h': Heap, path: map<int, seq<int>>)
    requires TreeInv(h, path)
    requires h'.root == h.root && h'.treemap == h.treemap
    requires forall n :: n in path ==> SameWords(h, h', n)
    ensures TreeInv(h', path)
  {
    forall i | 0 <= i < 32 ensures RootOk(h', path, i) {
      assert RootOk(h, path, i);
    }
    forall n | n in path ensures NodeOk(h', path, n) {
      assert NodeOk(h, path, n) && SameWords(h, h', n);
    }
  }

  /** The words of `n` that the trees use. */
  predicate SameWords(h: Heap, h': Heap, n: int) {
    HasWords(h, n) ==>
      && HasWords(h', n)
      && h'.c0[n] == h.c0[n] && h'.c1[n] == h.c1[n] && h'.parent[n] == h.parent[n]
      && h'.index[n] == h.index[n] && h'.size[n] == h.size[n]
  }

  /** A chunk that is not in the trees yet, ready to be linked in. */
  predicate Loose(h: Heap, path: map<int, seq<int>>, x: int) {
    && x !in path && Sized(h, x) && h.c0[x] == 0 && h.c1[x] == 0
    && forall n :: n in path ==> n in h.size && h.size[n] != h.size[x]
  }

  function WithRoot(h: Heap, i: int, x: int): Heap
    requires 0 <= i < |h.root|
  {
    h.(root := h.root[i := x], treemap := h.treemap + {i}, parent := h.parent[x := BinSlot(i)])
  }

  lemma AddRoot(h: Heap, path: map<int, seq<int>>, i: int, x: int)
    requires TreeInv(h, path) && Loose(h, path, x) && i == h.index[x] && h.root[i] == 0
    ensures TreeInv(WithRoot(h, i, x), path[x := []])
  {
    var h', path' := WithRoot(h, i, x), path[x := []];
    forall j | 0 <= j < 32 ensures RootOk(h', path', j) {
      assert RootOk(h, path, j);
    }
    forall n | n in path' ensures NodeOk(h', path', n) {
      if n != x {
        assert NodeOk(h, path, n);
      }
    }
  }

  function WithChild(h: Heap, t: int, b: int, x: int): Heap {
    if b == 0 then h.(c0 := h.c0[t := x], parent := h.parent[x := t])
    else h.(c1 := h.c1[t := x], parent := h.parent[x := t])
  }

  predicate Hanging(h: Heap, path: map<int, seq<int>>, t: int, b: int, x: int) {
    && Loose(h, path, x) && t in path && HasWords(h, t)
    && (b == 0 || b == 1) && Child(h, t, b) == 0 && h.index[x] == h.index[t]
  }

  lemma AddLeafUp(h: Heap, path: map<int, seq<int>>, t: int, b: int, x: int, n: int)
    requires TreeInv(h, path) && Hanging(h, path, t, b, x) && n in path
    ensures HasWords(h, n) && UpOk(WithChild(h, t, b, x), path[x := path[t] + [b]], n)
  {
    hide TreeInv, OnPath, DownOk;
    NodeAt(h, path, n);
    if path[n] != [] { PlaceOf(h, path, n); }
  }

  lemma AddLeafDown(h: Heap, path: map<int, seq<int>>, t: int, b: int, x: int, n: int, k: int)
    requires TreeInv(h, path) && Hanging(h, path, t, b, x) && n in path && (k == 0 || k == 1)
    ensures HasWords(h, n) && DownOk(WithChild(h, t, b, x), path[x := path[t] + [b]], n, k)
  {
    hide TreeInv, OnPath, UpOk;
    NodeAt(h, path, n);
    ChildAt(h, path, n, k);
  }

  /** The nodes a change below `t` leaves as they are. */
  lemma AddLeafNode(h: Heap, path: map<int, seq<int>>, t: int, b: int, x: int, n: int)
    requires TreeInv(h, path) && Hanging(h, path, t, b, x) && n in path
    ensures NodeOk(WithChild(h, t, b, x), path[x := path[t] + [b]], n)
  {
    hide TreeInv, Turn, UpOk, DownOk;
    NodeAt(h, path, n);
    AddLeafUp(h, path, t, b, x, n);
    AddLeafDown(h, path, t, b, x, n, 0);
    AddLeafDown(h, path, t, b, x, n, 1);
  }

  lemma NewLeaf(h: Heap, path: map<int, seq<int>>, t: int, b: int, x: int)
    requires TreeInv(h, path) && Hanging(h, path, t, b, x)
    requires OnPath(h, x, path[t] + [b])
    ensures NodeOk(WithChild(h, t, b, x), path[x := path[t] + [b]], x)
  {
    NodeAt(h, path, t);
    assert (path[t] + [b])[..|path[t]|] == path[t];
  }

  lemma AddLeaf(h: Heap, path: map<int, seq<int>>, t: int, b: int, x: int)
    requires TreeInv(h, path) && Hanging(h, path, t, b, x)
    requires OnPath(h, x, path[t] + [b])
    ensures TreeInv(WithChild(h, t, b, x), path[x := path[t] + [b]])
  {
    hide OnPath, UpOk, DownOk;
    var h', path' := WithChild(h, t, b, x), path[x := path[t] + [b]];
    forall j | 0 <= j < 32 ensures RootOk(h', path', j) {
      assert RootOk(h, path, j);
    }
    forall n | n in path' ensures NodeOk(h', path', n) {
      if n == x {
        NewLeaf(h, path, t, b, x);
      } else {
        AddLeafNode(h, path, t, b, x, n);
      }
    }
  }

  /** The way down that a chunk of size `s` takes has come to node `t`; a node of that size would
      be at or below it. */
  ghost predicate Descending(h: Heap, path: map<int, seq<int>>, s: nat, t: int) {
    && t in path && HasWords(h, t) && h.index[t] == TreeIndex(s) && |path[t]| <= 64
    && (forall e :: 0 <= e < |path[t]| ==> path[t][e] == Turn(TreeIndex(s), s, e))
    && (forall n :: n in path && n in h.size && h.size[n] == s ==> path[t] <= path[n])
  }

  lemma DescendingAt(h: Heap, path: map<int, seq<int>>, s: nat, t: int)
    requires Descending(h, path, s, t)
    ensures t in path && HasWords(h, t) && |path[t]| <= 64
  {}

  lemma SpotStart(h: Heap, path: map<int, seq<int>>, s: nat)
    requires TreeInv(h, path) && 256 <= s < TWO40 && TreeIndex(s) in h.treemap
    ensures 0 <= TreeIndex(s) < |h.root| && Descending(h, path, s, h.root[TreeIndex(s)]) &&
      path[h.root[TreeIndex(s)]] == []
  {
    hide TreeIndex, OnPath, UpOk, DownOk;
    TreeShape(h, path);
  }

  /** At a node of another size the way goes on, or ends at a free place and there is no node of
      that size. */
  lemma SpotStep(h: Heap, path: map<int, seq<int>>, s: nat, t: int)
    requires TreeInv(h, path) && 256 <= s < TWO40 && Descending(h, path, s, t) && h.size[t] != s
    ensures |path[t]| < 64
    ensures var c := Child(h, t, Turn(TreeIndex(s), s, |path[t]|));
      if c != 0 then Descending(h, path, s, c) && |path[c]| == |path[t]| + 1
      else forall n :: n in path && n in h.size ==> h.size[n] != s
  {
    hide TreeInv, TreeIndex, Turn, UpOk, DownOk;
    if |path[t]| == 64 { DeepEnough(h, path, t, s); }
    NoZero(h, path);
    var i, d := TreeIndex(s), |path[t]|;
    var b := Turn(i, s, d);
    var c := Child(h, t, b);
    ChildAt(h, path, t, b);
    forall n | n in path && n in h.size && h.size[n] == s ensures c != 0 && path[c] <= path[n] {
      NodeAt(h, path, n);
      if path[n] == path[t] { PathUnique(h, path, n, t); }
      Descend(h, path, t, n);
    }
  }

  /** A chunk whose bin has no mark has a size of its own. */
  lemma FreeBin(h: Heap, path: map<int, seq<int>>, x: int)
    requires TreeInv(h, path) && Sized(h, x) && h.index[x] !in h.treemap
    ensures 0 <= h.index[x] < 32 == |h.root| && h.root[h.index[x]] == 0
    ensures forall n :: n in path ==> n in h.size && h.size[n] != h.size[x]
  {
    hide TreeIndex;
    TreeShape(h, path);
  }

  lemma SamePath(h: Heap, h': Heap, x: int, p: seq<int>)
    requires Sized(h, x) && Sized(h', x) && h'.index[x] == h.index[x] && h'.size[x] == h.size[x] && OnPath(h, x, p)
    ensures OnPath(h', x, p)
  {}
}
