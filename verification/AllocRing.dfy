/** Circular doubly linked lists, as the allocator's bins keep them: links live in the chunks. */
module AllocRing {
  function NextIdx(i: nat, n: nat): nat { if i + 1 >= n then 0 else i + 1 }

  function PrevIdx(i: nat, n: nat): nat { if i == 0 then if n == 0 then 0 else n - 1 else i - 1 }

  predicate Distinct(r: seq<int>) {
    forall i, j :: 0 <= i < j < |r| ==> r[i] != r[j]
  }

  predicate LinkOk(fd: map<int, int>, bk: map<int, int>, r: seq<int>, i: nat)
    requires i < |r|
  {
    && r[i] in fd && r[i] in bk
    && NextIdx(i, |r|) < |r| && fd[r[i]] == r[NextIdx(i, |r|)]
    && PrevIdx(i, |r|) < |r| && bk[r[i]] == r[PrevIdx(i, |r|)]
  }

  /** Following `fd` from `r[0]` visits `r` in order and comes back; `bk` goes the other way. */
  predicate RingOk(fd: map<int, int>, bk: map<int, int>, r: seq<int>) {
    && |r| > 0
    && Distinct(r)
    && forall i :: 0 <= i < |r| ==> LinkOk(fd, bk, r, i)
  }

  /** Links outside a ring do not matter to it. */
  lemma RingFrame(fd: map<int, int>, bk: map<int, int>, fd': map<int, int>, bk': map<int, int>, r: seq<int>)
    requires RingOk(fd, bk, r)
    requires forall i :: 0 <= i < |r| ==>
      && r[i] in fd && r[i] in bk && r[i] in fd' && r[i] in bk'
      && fd'[r[i]] == fd[r[i]] && bk'[r[i]] == bk[r[i]]
    ensures RingOk(fd', bk', r)
  {
    forall i | 0 <= i < |r| ensures LinkOk(fd', bk', r, i) {
      assert LinkOk(fd, bk, r, i);
    }
  }

  /** Linking `x` in behind the first element. */
  lemma RingInsert(fd: map<int, int>, bk: map<int, int>, r: seq<int>, x: int)
    requires RingOk(fd, bk, r) && x !in r
    ensures r[0] in fd && fd[r[0]] in r
    ensures var f := fd[r[0]];
      RingOk(fd[r[0] := x][x := f], bk[f := x][x := r[0]], [r[0], x] + r[1..])
  {
    var n := |r|;
    assert LinkOk(fd, bk, r, 0);
    var f := fd[r[0]];
    var fd', bk', r' := fd[r[0] := x][x := f], bk[f := x][x := r[0]], [r[0], x] + r[1..];
    forall i | 0 <= i < |r'| ensures LinkOk(fd', bk', r', i) {
      if i >= 2 {
        assert r'[i] == r[i - 1];
        assert LinkOk(fd, bk, r, i - 1);
        if i - 1 == NextIdx(0, n) {} else { assert r[i - 1] != f; }
      }
    }
  }

  /** Unlinking element `i > 0`. */
  lemma RingRemove(fd: map<int, int>, bk: map<int, int>, r: seq<int>, i: nat)
    requires RingOk(fd, bk, r) && 0 < i < |r|
    ensures r[i] in fd && r[i] in bk
    ensures RingOk(fd[bk[r[i]] := fd[r[i]]], bk[fd[r[i]] := bk[r[i]]], r[..i] + r[i + 1..])
  {
    assert LinkOk(fd, bk, r, i);
    var fd', bk', r' := fd[bk[r[i]] := fd[r[i]]], bk[fd[r[i]] := bk[r[i]]], r[..i] + r[i + 1..];
    forall j | 0 <= j < |r'| ensures LinkOk(fd', bk', r', j) {
      var k := if j < i then j else j + 1;
      assert r'[j] == r[k] && LinkOk(fd, bk, r, k);
      assert k == NextIdx(i, |r|) || r[k] != fd[r[i]];
      assert k == PrevIdx(i, |r|) || r[k] != bk[r[i]];
    }
  }

  /** Unlinking the first element of a longer ring; the last one becomes the first. */
  lemma RingBehead(fd: map<int, int>, bk: map<int, int>, r: seq<int>)
    requires RingOk(fd, bk, r) && |r| > 1
    ensures r[0] in fd && r[0] in bk && bk[r[0]] == r[|r| - 1] && fd[r[0]] == r[1]
    ensures RingOk(fd[bk[r[0]] := fd[r[0]]], bk[fd[r[0]] := bk[r[0]]], [r[|r| - 1]] + r[1..|r| - 1])
  {
    var n := |r|;
    assert LinkOk(fd, bk, r, 0);
    var fd', bk', r' := fd[r[n - 1] := r[1]], bk[r[1] := r[n - 1]], [r[n - 1]] + r[1..n - 1];
    forall j | 0 <= j < |r'| ensures LinkOk(fd', bk', r', j) {
      var k := if j == 0 then n - 1 else j;
      assert r'[j] == r[k] && LinkOk(fd, bk, r, k);
    }
  }

  /** An element is alone exactly when it is its own neighbour. */
  lemma RingAlone(fd: map<int, int>, bk: map<int, int>, r: seq<int>, i: nat)
    requires RingOk(fd, bk, r) && i < |r|
    ensures r[i] in fd && r[i] in bk
    ensures bk[r[i]] == r[i] <==> |r| == 1
    ensures fd[r[i]] == bk[r[i]] <==> |r| <= 2
  {
    assert LinkOk(fd, bk, r, i);
  }
}
