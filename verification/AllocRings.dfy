/** The rings of equal sized chunks that hang on the nodes of the tries. */
module AllocRings {
  import opened AllocIndex
  import opened AllocRing
  import opened AllocTrie

  /** Member `i` of the ring of node `t`. */
  predicate MemberOk(h: Heap, ring: map<int, seq<int>>, head: map<int, int>, t: int, i: nat)
    requires t in ring && i < |ring[t]|
  {
    var x := ring[t][i];
    && x in head && head[x] == t && Sized(h, x)
    && t in h.size && h.size[x] == h.size[t]
    && (i > 0 ==> h.parent[x] == 0 && h.c0[x] == 0 && h.c1[x] == 0)
  }

  predicate GroupOk(h: Heap, ring: map<int, seq<int>>, head: map<int, int>, t: int)
    requires t in ring
  {
    && RingOk(h.fd, h.bk, ring[t]) && ring[t][0] == t
    && forall i :: 0 <= i < |ring[t]| ==> MemberOk(h, ring, head, t, i)
  }

  /** `ring` gives the chunks of each node in ring order, the node first; `head` gives the node of
      each chunk. */
  predicate RingsInv(h: Heap, ring: map<int, seq<int>>, head: map<int, int>) {
    && (forall t :: t in ring ==> GroupOk(h, ring, head, t))
    && (forall x :: x in head ==> head[x] in ring && x in ring[head[x]])
  }

  /** The words of `x` that the rings use; those of a node belong to the tree as well. */
  predicate SameLinks(h: Heap, h': Heap, x: int, node: bool) {
    Sized(h, x) && x in h.fd && x in h.bk ==>
      && Sized(h', x) && h'.size[x] == h.size[x]
      && h'.fd[x] == h.fd[x] && h'.bk[x] == h.bk[x]
      && (!node && h.parent[x] == 0 ==> h'.parent[x] == 0 && h'.c0[x] == h.c0[x] && h'.c1[x] == h.c1[x])
  }

  lemma GroupFrame(h: Heap, h': Heap, ring: map<int, seq<int>>, head: map<int, int>,
                   ring': map<int, seq<int>>, head': map<int, int>, t: int)
    requires t in ring && GroupOk(h, ring, head, t)
    requires t in ring' && ring'[t] == ring[t]
    requires forall x :: x in ring[t] ==> SameLinks(h, h', x, x == t) && x in head' && head'[x] == t
    ensures GroupOk(h', ring', head', t)
  {
    var r := ring[t];
    forall i | 0 <= i < |r| ensures MemberOk(h', ring', head', t, i) {
      assert MemberOk(h, ring, head, t, i) && MemberOk(h, ring, head, t, 0);
      assert r[i] in r && r[0] in r;
      assert LinkOk(h.fd, h.bk, r, i) && LinkOk(h.fd, h.bk, r, 0);
    }
    forall i | 0 <= i < |r|
      ensures r[i] in h.fd && r[i] in h.bk && r[i] in h'.fd && r[i] in h'.bk
      ensures h'.fd[r[i]] == h.fd[r[i]] && h'.bk[r[i]] == h.bk[r[i]]
    {
      assert MemberOk(h, ring, head, t, i);
      assert LinkOk(h.fd, h.bk, r, i);
      assert r[i] in r;
    }
    RingFrame(h.fd, h.bk, h'.fd, h'.bk, r);
  }

  lemma RingsFrame(h: Heap, h': Heap, ring: map<int, seq<int>>, head: map<int, int>)
    requires RingsInv(h, ring, head)
    requires forall x :: x in head ==> SameLinks(h, h', x, head[x] == x)
    ensures RingsInv(h', ring, head)
  {
    forall t | t in ring ensures GroupOk(h', ring, head, t) {
      assert GroupOk(h, ring, head, t);
      forall x | x in ring[t] ensures SameLinks(h, h', x, x == t) && x in head && head[x] == t {
        Member(h, ring, head, t, x);
      }
      GroupFrame(h, h', ring, head, ring, head, t);
    }
  }

  lemma Member(h: Heap, ring: map<int, seq<int>>, head: map<int, int>, t: int, x: int)
    requires RingsInv(h, ring, head) && t in ring && x in ring[t]
    ensures x in head && head[x] == t && Sized(h, x) && t in h.size && h.size[x] == h.size[t]
    ensures x != t ==> h.parent[x] == 0 && h.c0[x] == 0 && h.c1[x] == 0
  {
    assert GroupOk(h, ring, head, t);
    var i :| 0 <= i < |ring[t]| && ring[t][i] == x;
    assert MemberOk(h, ring, head, t, i);
  }

  /** A chunk on its own becomes a ring. */
  lemma NewGroup(h: Heap, ring: map<int, seq<int>>, head: map<int, int>, x: int)
    requires RingsInv(h, ring, head) && x !in head && x !in ring && Sized(h, x)
    requires h.fd[x] == x && h.bk[x] == x
    ensures RingsInv(h, ring[x := [x]], head[x := x])
  {
    var ring', head' := ring[x := [x]], head[x := x];
    forall t | t in ring' ensures GroupOk(h, ring', head', t) {
      if t == x {
        assert LinkOk(h.fd, h.bk, [x], 0);
        assert MemberOk(h, ring', head', x, 0);
      } else {
        forall y | y in ring[t] ensures SameLinks(h, h, y, y == t) && y in head' &&
          head'[y] == t { Member(h, ring, head, t, y); }
        GroupFrame(h, h, ring, head, ring', head', t);
      }
    }
  }

  /** A chunk joins the ring of `t`, right behind `t`. */
  lemma JoinGroup(h: Heap, ring: map<int, seq<int>>, head: map<int, int>, t: int, x: int)
    requires RingsInv(h, ring, head) && t in ring && x !in head && Sized(h, x)
    requires t in h.size && h.size[x] == h.size[t] && h.c0[x] == 0 && h.c1[x] == 0
    ensures t in h.fd && h.fd[t] in ring[t]
    ensures RingsInv(h.(fd := h.fd[t := x][x := h.fd[t]], bk := h.bk[h.fd[t] := x][x := t], parent := h.parent[x := 0]),
                     ring[t := [t, x] + ring[t][1..]], head[x := t])
  {
    assert GroupOk(h, ring, head, t);
    var r := ring[t];
    forall y | y in r ensures y != x { Member(h, ring, head, t, y); }
    RingInsert(h.fd, h.bk, r, x);
    var f := h.fd[t];
    var h' := h.(fd := h.fd[t := x][x := f], bk := h.bk[f := x][x := t], parent := h.parent[x := 0]);
    var ring', head' := ring[t := [t, x] + r[1..]], head[x := t];
    forall i | 0 <= i < |ring'[t]| ensures MemberOk(h', ring', head', t, i) {
      assert MemberOk(h, ring, head, t, 0);
      if i >= 2 {
        assert ring'[t][i] == r[i - 1] && MemberOk(h, ring, head, t, i - 1);
      }
    }
    forall u | u in ring' ensures GroupOk(h', ring', head', u) {
      if u != t {
        forall y | y in ring[u] ensures SameLinks(h, h', y, y == u) && y in head' && head'[y] == u {
          Member(h, ring, head, u, y);
          if y == f { Member(h, ring, head, t, y); }
        }
        GroupFrame(h, h', ring, head, ring', head', u);
      }
    }
    forall y | y in head' ensures head'[y] in ring' && y in ring'[head'[y]] {
      if y == x {
        assert ring'[t][1] == x;
      } else if head[y] == t {
        var i :| 0 <= i < |r| && r[i] == y;
        assert ring'[t][if i == 0 then 0 else i + 1] == y;
      }
    }
  }

  /** A node on its own leaves: its ring goes. */
  lemma DropGroup(h: Heap, ring: map<int, seq<int>>, head: map<int, int>, x: int)
    requires RingsInv(h, ring, head) && x in ring && ring[x] == [x]
    ensures RingsInv(h, ring - {x}, head - {x})
  {
    var ring', head' := ring - {x}, head - {x};
    forall t | t in ring' ensures GroupOk(h, ring', head', t) {
      assert GroupOk(h, ring, head, t) && GroupOk(h, ring, head, x);
      forall y | y in ring[t] ensures SameLinks(h, h, y, y == t) && y in head' && head'[y] == t {
        Member(h, ring, head, t, y);
        Member(h, ring, head, x, x);
      }
      GroupFrame(h, h, ring, head, ring', head', t);
    }
    forall y | y in head' ensures head'[y] in ring' && y in ring'[head'[y]] {
      assert head[y] in ring && y in ring[head[y]];
    }
  }

  /** The words after unlinking `x` from its neighbours. */
  function Unlinked(h: Heap, x: int): Heap
    requires x in h.fd && x in h.bk
  {
    h.(fd := h.fd[h.bk[x] := h.fd[x]], bk := h.bk[h.fd[x] := h.bk[x]])
  }

  /** Unlinking a member leaves the other rings as they are. */
  lemma OtherGroup(h: Heap, ring: map<int, seq<int>>, head: map<int, int>, t: int, x: int,
                   ring': map<int, seq<int>>, head': map<int, int>, u: int)
    requires RingsInv(h, ring, head) && t in ring && x in ring[t] && x in h.fd && x in h.bk
    requires h.fd[x] in ring[t] && h.bk[x] in ring[t]
    requires u in ring && u != t && u in ring' && ring'[u] == ring[u]
    requires forall y :: y in head && head[y] == u ==> y in head' && head'[y] == u
    ensures GroupOk(Unlinked(h, x), ring', head', u)
  {
    var h' := Unlinked(h, x);
    assert GroupOk(h, ring, head, u);
    Member(h, ring, head, t, h.fd[x]);
    Member(h, ring, head, t, h.bk[x]);
    forall y | y in ring[u] ensures SameLinks(h, h', y, y == u) && y in head' && head'[y] == u {
      Member(h, ring, head, u, y);
    }
    GroupFrame(h, h', ring, head, ring', head', u);
  }

  /** Neighbours are members. */
  lemma Neighbours(h: Heap, ring: map<int, seq<int>>, head: map<int, int>, t: int, i: nat)
    requires RingsInv(h, ring, head) && t in ring && i < |ring[t]|
    ensures var x := ring[t][i]; x in h.fd && x in h.bk && h.fd[x] in ring[t] && h.bk[x] in ring[t]
    ensures h.bk[ring[t][i]] == ring[t][i] <==> |ring[t]| == 1
    ensures h.bk[ring[t][i]] == ring[t][PrevIdx(i, |ring[t]|)]
  {
    assert GroupOk(h, ring, head, t);
    assert LinkOk(h.fd, h.bk, ring[t], i);
    RingAlone(h.fd, h.bk, ring[t], i);
  }

  /** A member that is not the node leaves its ring. */
  lemma LeaveGroup(h: Heap, ring: map<int, seq<int>>, head: map<int, int>, t: int, i: nat)
    requires RingsInv(h, ring, head) && t in ring && 0 < i < |ring[t]|
    ensures var x := ring[t][i];
      && x in h.fd && x in h.bk
      && RingsInv(Unlinked(h, x), ring[t := ring[t][..i] + ring[t][i + 1..]], head - {x})
  {
    var r := ring[t];
    var x := r[i];
    Neighbours(h, ring, head, t, i);
    assert GroupOk(h, ring, head, t);
    RingRemove(h.fd, h.bk, r, i);
    var h', r' := Unlinked(h, x), r[..i] + r[i + 1..];
    var ring', head' := ring[t := r'], head - {x};
    forall j | 0 <= j < |r'| ensures MemberOk(h', ring', head', t, j) {
      var k := if j < i then j else j + 1;
      assert r'[j] == r[k] && MemberOk(h, ring, head, t, k);
    }
    forall u | u in ring' ensures GroupOk(h', ring', head', u) {
      if u != t {
        Member(h, ring, head, t, x);
        OtherGroup(h, ring, head, t, x, ring', head', u);
      }
    }
    forall y | y in head' ensures head'[y] in ring' && y in ring'[head'[y]] {
      if head[y] == t {
        var k :| 0 <= k < |r| && r[k] == y;
        assert r'[if k < i then k else k - 1] == y;
      }
    }
  }

  /** The node of each chunk after `r` takes over from `t`. */
  function Promoted(head: map<int, int>, t: int, r: int): map<int, int> {
    map y | y in head && y != t :: if head[y] == t then r else head[y]
  }

  /** A node leaves its ring; the last member takes its place. */
  lemma Behead(h: Heap, ring: map<int, seq<int>>, head: map<int, int>, t: int)
    requires RingsInv(h, ring, head) && t in ring && |ring[t]| > 1
    ensures t in h.fd && t in h.bk
    ensures var r, n := h.bk[t], |ring[t]|;
      && r == ring[t][n - 1] && r != t && r !in ring
      && RingsInv(Unlinked(h, t), (ring - {t})[r := [r] + ring[t][1..n - 1]], Promoted(head, t, r))
  {
    var s, n := ring[t], |ring[t]|;
    Neighbours(h, ring, head, t, 0);
    assert GroupOk(h, ring, head, t);
    RingBehead(h.fd, h.bk, s);
    var r := s[n - 1];
    Member(h, ring, head, t, r);
    if r in ring { assert GroupOk(h, ring, head, r); Member(h, ring, head, r, r); }
    var h', s' := Unlinked(h, t), [r] + s[1..n - 1];
    var ring', head' := (ring - {t})[r := s'], Promoted(head, t, r);
    assert MemberOk(h, ring, head, t, n - 1) && MemberOk(h, ring, head, t, 0);
    forall j | 0 <= j < |s'| ensures MemberOk(h', ring', head', r, j) {
      var k := if j == 0 then n - 1 else j;
      assert s'[j] == s[k] && MemberOk(h, ring, head, t, k);
    }
    forall u | u in ring' ensures GroupOk(h', ring', head', u) {
      if u != r {
        OtherGroup(h, ring, head, t, t, ring', head', u);
      }
    }
    forall y | y in head' ensures head'[y] in ring' && y in ring'[head'[y]] {
      assert head[y] in ring && y in ring[head[y]];
      if head[y] == t {
        var k :| 0 <= k < n && s[k] == y;
        assert s'[if k == n - 1 then 0 else k] == y;
      }
    }
  }
}
