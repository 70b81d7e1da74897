/** Taking nodes out of the tries. */
module AllocPrune {
  import opened AllocIndex
  import opened AllocTrie

  function WithoutChild(h: Heap, t: int, b: int): Heap {
    if b == 0 then h.(c0 := h.c0[t := 0]) else h.(c1 := h.c1[t := 0])
  }

  predicate Leaf(h: Heap, path: map<int, seq<int>>, r: int) {
    r in path && HasWords(h, r) && h.c0[r] == 0 && h.c1[r] == 0
  }

  /** Where a node belongs depends on its size and its bin alone. */
  lemma OnPathKept(h: Heap, h': Heap, n: int, p: seq<int>)
    requires Sized(h, n) && Sized(h', n) && h'.index == h.index && h'.size == h.size && OnPath(h, n, p)
    ensures OnPath(h', n, p)
  {}

  lemma CutLeafUp(h: Heap, path: map<int, seq<int>>, r: int, n: int)
    requires TreeInv(h, path) && Leaf(h, path, r) && path[r] != [] && n in path && n != r
    ensures var h' := WithoutChild(h, h.parent[r], path[r][|path[r]| - 1]);
      HasWords(h', n) && UpOk(h', path - {r}, n)
  {
    hide TreeInv, Turn, OnPath, DownOk;
    PlaceOf(h, path, r);
    NodeAt(h, path, n);
    NoZero(h, path);
    if path[n] != [] {
      PlaceOf(h, path, n);
    }
  }

  lemma CutLeafDown(h: Heap, path: map<int, seq<int>>, r: int, n: int, b: int)
    requires TreeInv(h, path) && Leaf(h, path, r) && path[r] != [] && n in path && n != r && (b == 0 || b == 1)
    ensures var h' := WithoutChild(h, h.parent[r], path[r][|path[r]| - 1]);
      HasWords(h', n) && DownOk(h', path - {r}, n, b)
  {
    hide TreeInv, Turn, OnPath, UpOk;
    PlaceOf(h, path, r);
    NodeAt(h, path, n);
    NoZero(h, path);
  }

  lemma CutLeafNode(h: Heap, path: map<int, seq<int>>, r: int, n: int)
    requires TreeInv(h, path) && Leaf(h, path, r) && path[r] != [] && n in path && n != r
    ensures NodeOk(WithoutChild(h, h.parent[r], path[r][|path[r]| - 1]), path - {r}, n)
  {
    hide TreeInv, Turn, OnPath, UpOk, DownOk;
    PlaceOf(h, path, r);
    NodeAt(h, path, n);
    var h' := WithoutChild(h, h.parent[r], path[r][|path[r]| - 1]);
    OnPathKept(h, h', n, path[n]);
    CutLeafUp(h, path, r, n);
    CutLeafDown(h, path, r, n, 0);
    CutLeafDown(h, path, r, n, 1);
  }

  /** A leaf is cut off. */
  lemma CutLeaf(h: Heap, path: map<int, seq<int>>, r: int)
    requires TreeInv(h, path) && Leaf(h, path, r) && path[r] != []
    ensures TreeInv(WithoutChild(h, h.parent[r], path[r][|path[r]| - 1]), path - {r})
  {
    hide OnPath, UpOk, DownOk;
    var h', path' := WithoutChild(h, h.parent[r], path[r][|path[r]| - 1]), path - {r};
    PlaceOf(h, path, r);
    forall j | 0 <= j < 32 ensures RootOk(h', path', j) {
      assert RootOk(h, path, j);
    }
    forall n | n in path' ensures NodeOk(h', path', n) {
      CutLeafNode(h, path, r, n);
    }
  }

  function WithoutRoot(h: Heap, i: int): Heap
    requires 0 <= i < |h.root|
  {
    h.(root := h.root[i := 0], treemap := h.treemap - {i})
  }

  /** The last node of a bin goes. */
  lemma CutRoot(h: Heap, path: map<int, seq<int>>, x: int)
    requires TreeInv(h, path) && Leaf(h, path, x) && path[x] == []
    ensures |h.root| == 32 && 0 <= h.index[x] < 32 && h.root[h.index[x]] == x
    ensures TreeInv(WithoutRoot(h, h.index[x]), path - {x})
  {
    hide OnPath, DownOk;
    NodeAt(h, path, x);
    var i := h.index[x];
    var h', path' := WithoutRoot(h, i), path - {x};
    forall j | 0 <= j < 32 ensures RootOk(h', path', j) {
      assert RootOk(h, path, j);
    }
    forall n | n in path' ensures NodeOk(h', path', n) {
      CutRootNode(h, path, x, n);
    }
  }

  lemma CutRootUp(h: Heap, path: map<int, seq<int>>, x: int, n: int)
    requires TreeInv(h, path) && Leaf(h, path, x) && path[x] == [] && n in path && n != x
    requires 0 <= h.index[x] < |h.root|
    ensures HasWords(WithoutRoot(h, h.index[x]), n) && UpOk(WithoutRoot(h, h.index[x]), path - {x}, n)
  {
    hide TreeInv, Turn, OnPath, DownOk;
    NodeAt(h, path, x);
    NodeAt(h, path, n);
    if path[n] == [] {
      if h.index[n] == h.index[x] { PathUnique(h, path, n, x); }
    } else {
      PlaceOf(h, path, n);
    }
  }

  lemma CutRootDown(h: Heap, path: map<int, seq<int>>, x: int, n: int, b: int)
    requires TreeInv(h, path) && Leaf(h, path, x) && path[x] == [] && n in path && n != x
    requires 0 <= h.index[x] < |h.root| && (b == 0 || b == 1)
    ensures HasWords(WithoutRoot(h, h.index[x]), n) && DownOk(WithoutRoot(h, h.index[x]), path - {x}, n, b)
  {
    hide TreeInv, Turn, OnPath, UpOk;
    NodeAt(h, path, x);
    NodeAt(h, path, n);
  }

  lemma CutRootNode(h: Heap, path: map<int, seq<int>>, x: int, n: int)
    requires TreeInv(h, path) && Leaf(h, path, x) && path[x] == [] && n in path && n != x
    requires 0 <= h.index[x] < |h.root|
    ensures NodeOk(WithoutRoot(h, h.index[x]), path - {x}, n)
  {
    hide TreeInv, Turn, OnPath, UpOk, DownOk;
    NodeAt(h, path, n);
    OnPathKept(h, WithoutRoot(h, h.index[x]), n, path[n]);
    CutRootUp(h, path, x, n);
    CutRootDown(h, path, x, n, 0);
    CutRootDown(h, path, x, n, 1);
  }

  /** `r` is put below whatever `x` hangs below. */
  function Hung(h: Heap, x: int, r: int): Heap
    requires HasWords(h, x) && 0 <= h.index[x] < |h.root|
  {
    var xp := h.parent[x];
    var up := if h.root[h.index[x]] == x then h.(root := h.root[h.index[x] := r])
              else if xp in h.c0 && h.c0[xp] == x then h.(c0 := h.c0[xp := r])
              else h.(c1 := h.c1[xp := r]);
    up.(parent := up.parent[r := xp])
  }

  /** `r` takes over child `b` of `x`, if there is one. */
  function Took(h: Heap, x: int, r: int, b: int): Heap
    requires HasWords(h, x)
  {
    var c := Child(h, x, b);
    if c == 0 then h
    else if b == 0 then h.(c0 := h.c0[r := c], parent := h.parent[c := r])
    else h.(c1 := h.c1[r := c], parent := h.parent[c := r])
  }

  /** `r` takes the place of `x`. */
  function Grafted(h: Heap, x: int, r: int): (h': Heap)
    requires HasWords(h, x) && 0 <= h.index[x] < |h.root|
  {
    Took(Took(Hung(h, x, r), x, r, 0), x, r, 1)
  }

  predicate Graft(h: Heap, path: map<int, seq<int>>, x: int, r: int) {
    && x in path && HasWords(h, x) && 0 <= h.index[x] < |h.root|
    && r !in path && Sized(h, r) && h.index[r] == h.index[x] && h.c0[r] == 0 && h.c1[r] == 0
    && OnPath(h, r, path[x])
  }

  lemma RootOf(h: Heap, path: map<int, seq<int>>, x: int)
    requires TreeInv(h, path) && x in path
    ensures HasWords(h, x) && 0 <= h.index[x] < 32 == |h.root| && h.index[x] in h.treemap
    ensures h.root[h.index[x]] == x <==> path[x] == []
  {
    RootAbove(h, path, x);
    NodeAt(h, path, x);
  }

  function Swap(x: int, r: int, n: int): int { if n == x then r else n }

  /** Tree word by tree word, a graft writes `r` for `x`. */
  ghost predicate Swapped(h: Heap, h': Heap, path: map<int, seq<int>>, x: int, r: int, n: int) {
    HasWords(h, n) && HasWords(h', n) && HasWords(h, x) && n in path && n != x ==>
      && h'.c0[n] == Swap(x, r, h.c0[n]) && h'.c1[n] == Swap(x, r, h.c1[n])
      && h'.parent[n] == Swap(x, r, h.parent[n])
  }

  lemma LinkFacts(h: Heap, path: map<int, seq<int>>, x: int, n: int)
    requires TreeInv(h, path) && x in path && n in path && x != n
    ensures HasWords(h, x) && HasWords(h, n) && h.parent[n] != 0 && x > 0 && n > 0
    ensures h.c0[n] == x ==> path[x] != [] && h.parent[x] == n && path[x][|path[x]| - 1] == 0
    ensures h.c1[n] == x ==> path[x] != [] && h.parent[x] == n && path[x][|path[x]| - 1] == 1
    ensures h.parent[n] == x ==> h.c0[x] == n || h.c1[x] == n
    ensures path[n] == [] ==> h.parent[n] < 0
  {
    hide TreeInv, OnPath;
    NodeAt(h, path, n);
    NodeAt(h, path, x);
    NoZero(h, path);
    if path[n] != [] {
      LastTurn(h, path, n);
    }
  }

  lemma HungWords(h: Heap, path: map<int, seq<int>>, x: int, r: int, n: int)
    requires TreeInv(h, path) && Graft(h, path, x, r) && n in path && n != x
    ensures var h' := Hung(h, x, r);
      && HasWords(h, n) && HasWords(h', n)
      && h'.c0[n] == Swap(x, r, h.c0[n]) && h'.c1[n] == Swap(x, r, h.c1[n]) && h'.parent[n] == h.parent[n]
  {
    hide TreeInv, OnPath;
    RootOf(h, path, x);
    NodeAt(h, path, n);
    LinkFacts(h, path, x, n);
    if path[x] != [] { PlaceOf(h, path, x); }
  }

  lemma HungOwn(h: Heap, path: map<int, seq<int>>, x: int, r: int)
    requires TreeInv(h, path) && Graft(h, path, x, r)
    ensures var h' := Hung(h, x, r);
      && HasWords(h', x) && HasWords(h', r)
      && h'.c0[x] == h.c0[x] && h'.c1[x] == h.c1[x] && h'.c0[r] == 0 == h'.c1[r] && h'.parent[r] == h.parent[x]
      && r != x && h'.c0[x] != x && h'.c1[x] != x && (h'.c0[x] != 0 ==> h'.c0[x] in path)
      && (h'.c1[x] != 0 ==> h'.c1[x] in path) && (h'.c0[x] != 0 ==> h'.c0[x] != h'.c1[x]) && h'.c0[x] != r &&
        h'.c1[x] != r
      && h'.fd == h.fd && h'.bk == h.bk && h'.index == h.index && h'.size == h.size && h'.treemap == h.treemap
      && h'.root == if path[x] == [] then h.root[h.index[x] := r] else h.root
  {
    hide TreeInv, OnPath;
    RootOf(h, path, x);
    NodeAt(h, path, x);
    NoZero(h, path);
    if path[x] != [] { PlaceOf(h, path, x); }
    assert h.c0[x] != 0 ==> path[h.c0[x]][|path[x]|] == 0;
    assert h.c1[x] != 0 ==> path[h.c1[x]][|path[x]|] == 1;
  }

  lemma GraftWords(h: Heap, path: map<int, seq<int>>, x: int, r: int)
    requires TreeInv(h, path) && Graft(h, path, x, r)
    ensures var h' := Grafted(h, x, r);
      && HasWords(h', r) && h'.c0[r] == h.c0[x] && h'.c1[r] == h.c1[x] && h'.parent[r] == h.parent[x]
      && h'.fd == h.fd && h'.bk == h.bk && h'.index == h.index && h'.size == h.size && h'.treemap == h.treemap
      && h'.root == (if path[x] == [] then h.root[h.index[x] := r] else h.root)
      && forall n :: n in path && n != x ==> HasWords(h', n) && Swapped(h, h', path, x, r, n)
  {
    hide TreeInv, OnPath, Hung;
    HungOwn(h, path, x, r);
    var h' := Grafted(h, x, r);
    forall n | n in path && n != x ensures HasWords(h', n) && Swapped(h, h', path, x, r, n) {
      HungWords(h, path, x, r, n);
      LinkFacts(h, path, x, n);
      ChildAt(h, path, x, 0);
      ChildAt(h, path, x, 1);
    }
  }

  lemma GraftNode(h: Heap, h': Heap, path: map<int, seq<int>>, x: int, r: int, n: int)
    requires TreeInv(h, path) && Graft(h, path, x, r) && n in path && n != x && h' == Grafted(h, x, r)
    ensures NodeOk(h', (path - {x})[r := path[x]], n)
  {
    hide TreeInv, Turn, Grafted;
    GraftWords(h, path, x, r);
    NodeAt(h, path, n);
    NoZero(h, path);
    if path[n] == [] && path[x] == [] && h.index[n] == h.index[x] { PathUnique(h, path, n, x); }
    assert Swapped(h, h', path, x, r, n);
    assert path[n] != [] ==> Swapped(h, h', path, x, r, h.parent[n]);
    ChildAt(h, path, n, 0);
    ChildAt(h, path, n, 1);
    assert h.c0[n] != 0 ==> Swapped(h, h', path, x, r, h.c0[n]);
    assert h.c1[n] != 0 ==> Swapped(h, h', path, x, r, h.c1[n]);
    LinkFacts(h, path, x, n);
  }

  lemma GraftNew(h: Heap, h': Heap, path: map<int, seq<int>>, x: int, r: int)
    requires TreeInv(h, path) && Graft(h, path, x, r) && h' == Grafted(h, x, r)
    ensures NodeOk(h', (path - {x})[r := path[x]], r)
  {
    hide TreeInv, Turn, Grafted;
    GraftWords(h, path, x, r);
    NodeAt(h, path, x);
    NoZero(h, path);
    RootOf(h, path, x);
    if path[x] != [] {
      PlaceOf(h, path, x);
      var p := h.parent[x];
      assert Swapped(h, h', path, x, r, p);
    }
    ChildAt(h, path, x, 0);
    ChildAt(h, path, x, 1);
    assert h.c0[x] != 0 ==> Swapped(h, h', path, x, r, h.c0[x]);
    assert h.c1[x] != 0 ==> Swapped(h, h', path, x, r, h.c1[x]);
  }

  /** A node gives its place to another chunk. */
  lemma Replace(h: Heap, path: map<int, seq<int>>, x: int, r: int)
    requires TreeInv(h, path) && Graft(h, path, x, r)
    requires forall n :: n in path && n != x ==> n in h.size && h.size[n] != h.size[r]
    ensures TreeInv(Grafted(h, x, r), (path - {x})[r := path[x]])
  {
    hide NodeOk, Grafted;
    var h', path' := Grafted(h, x, r), (path - {x})[r := path[x]];
    NoZero(h, path);
    GraftWords(h, path, x, r);
    RootOf(h, path, x);
    forall j | 0 <= j < 32 ensures RootOk(h', path', j) {
      assert RootOk(h, path, j);
    }
    forall n | n in path' ensures NodeOk(h', path', n) {
      if n == r { GraftNew(h, h', path, x, r); } else { GraftNode(h, h', path, x, r, n); }
    }
  }
}
