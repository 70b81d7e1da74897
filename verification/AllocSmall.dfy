/** The small bins: one ring of chunks of equal size per bin, through a header. A bin that is not
    marked is empty and its header may hold anything. */
module AllocSmall {
  import opened AllocRing

  function Header(bins: int, i: int): int { bins + 16 * i }

  predicate BinOk(fd: map<int, int>, bk: map<int, int>, bins: int, smallmap: set<int>, lists: seq<seq<int>>, i: int)
    requires 0 <= i < |lists|
  {
    && (i in smallmap <==> lists[i] != [])
    && (lists[i] != [] ==> RingOk(fd, bk, [Header(bins, i)] + lists[i]))
  }

  predicate Listed(bins: int, lists: seq<seq<int>>, bin: map<int, int>, x: int)
    requires x in bin
  {
    0 <= bin[x] < |lists| && x in lists[bin[x]] && x > Header(bins, 31)
  }

  /** `lists` gives the chunks of each bin in ring order, `bin` the bin of each chunk. */
  predicate SmallInv(fd: map<int, int>, bk: map<int, int>, bins: int, smallmap: set<int>,
                     lists: seq<seq<int>>, bin: map<int, int>) {
    && |lists| == 32
    && (forall i :: i in smallmap ==> 0 <= i < 32)
    && (forall i :: 0 <= i < 32 ==> BinOk(fd, bk, bins, smallmap, lists, i))
    && (forall x :: x in bin ==> Listed(bins, lists, bin, x))
    && (forall i, k :: 0 <= i < 32 && 0 <= k < |lists[i]| ==> lists[i][k] in bin && bin[lists[i][k]] == i)
  }

  function Headers(bins: int): (s: set<int>)
    ensures forall i :: 0 <= i < 32 ==> Header(bins, i) in s
    ensures forall n :: n in s ==> exists i :: 0 <= i < 32 && n == Header(bins, i)
  {
    set i | 0 <= i < 32 :: Header(bins, i)
  }

  /** A bin's ring is made of its header and its chunks. */
  lemma InRing(fd: map<int, int>, bk: map<int, int>, bins: int, smallmap: set<int>,
               lists: seq<seq<int>>, bin: map<int, int>, i: int, n: int)
    requires SmallInv(fd, bk, bins, smallmap, lists, bin) && 0 <= i < 32 && n in [Header(bins, i)] + lists[i]
    ensures n == Header(bins, i) || (n in bin && bin[n] == i && n > Header(bins, 31))
  {
    if n != Header(bins, i) {
      var k :| 0 <= k < |lists[i]| && lists[i][k] == n;
      assert lists[i][k] in bin;
      assert Listed(bins, lists, bin, n);
    }
  }

  /** Links that do not belong to a bin do not matter to it. */
  lemma BinFrame(fd: map<int, int>, bk: map<int, int>, bins: int, smallmap: set<int>,
                 lists: seq<seq<int>>, bin: map<int, int>,
                 fd': map<int, int>, bk': map<int, int>, smallmap': set<int>, lists': seq<seq<int>>, i: int)
    requires SmallInv(fd, bk, bins, smallmap, lists, bin) && 0 <= i < 32 == |lists'| && lists'[i] == lists[i]
    requires i in smallmap <==> i in smallmap'
    requires forall n :: n in fd && n in bk && (n == Header(bins, i) || (n in bin && bin[n] == i)) ==>
      n in fd' && n in bk' && fd'[n] == fd[n] && bk'[n] == bk[n]
    ensures BinOk(fd', bk', bins, smallmap', lists', i)
  {
    assert BinOk(fd, bk, bins, smallmap, lists, i);
    if lists[i] != [] {
      var r := [Header(bins, i)] + lists[i];
      forall k | 0 <= k < |r|
        ensures r[k] in fd && r[k] in bk && r[k] in fd' && r[k] in bk'
        ensures fd'[r[k]] == fd[r[k]] && bk'[r[k]] == bk[r[k]]
      {
        assert LinkOk(fd, bk, r, k);
        assert r[k] in r;
        InRing(fd, bk, bins, smallmap, lists, bin, i, r[k]);
      }
      RingFrame(fd, bk, fd', bk', r);
    }
  }

  /** Chunk `x` goes behind the header of bin `i`; `f` is the chunk it goes in front of. */
  lemma SmallInsert(fd: map<int, int>, bk: map<int, int>, bins: int, smallmap: set<int>,
                    lists: seq<seq<int>>, bin: map<int, int>, i: int, x: int)
    requires SmallInv(fd, bk, bins, smallmap, lists, bin) && 0 <= i < 32 && x !in bin && x > Header(bins, 31)
    requires x in fd && x in bk && Header(bins, i) in fd && Header(bins, i) in bk
    ensures var b := Header(bins, i);
      var f := if i in smallmap then fd[b] else b;
      && |lists| == 32 && (f == b || f in bin)
      && SmallInv(fd[b := x][x := f], bk[f := x][x := b], bins, smallmap + {i}, lists[i := [x] + lists[i]], bin[x := i])
  {
    var b := Header(bins, i);
    var f := if i in smallmap then fd[b] else b;
    var r := [b] + lists[i];
    var fd', bk', smallmap', lists', bin' :=
      fd[b := x][x := f], bk[f := x][x := b], smallmap + {i}, lists[i := [x] + lists[i]], bin[x := i];
    assert BinOk(fd, bk, bins, smallmap, lists, i);
    assert x !in r by { if x in r { InRing(fd, bk, bins, smallmap, lists, bin, i, x); } }
    if i in smallmap {
      RingInsert(fd, bk, r, x);
      InRing(fd, bk, bins, smallmap, lists, bin, i, f);
      assert [r[0], x] + r[1..] == [b] + lists'[i];
    } else {
      assert [b] + lists'[i] == [b, x];
      assert LinkOk(fd', bk', [b, x], 0) && LinkOk(fd', bk', [b, x], 1);
    }
    assert BinOk(fd', bk', bins, smallmap', lists', i);
    forall j | 0 <= j < 32 ensures BinOk(fd', bk', bins, smallmap', lists', j) {
      if j != i { BinFrame(fd, bk, bins, smallmap, lists, bin, fd', bk', smallmap', lists', j); }
    }
    forall y | y in bin' ensures Listed(bins, lists', bin', y) {
      if y == x { assert lists'[i][0] == x; } else {
        assert Listed(bins, lists, bin, y);
        if bin[y] == i { var k :| 0 <= k < |lists[i]| && lists[i][k] == y; assert lists'[i][k + 1] == y; }
      }
    }
    forall j, k | 0 <= j < 32 && 0 <= k < |lists'[j]| ensures lists'[j][k] in bin' && bin'[lists'[j][k]] == j {
      if j == i && k > 0 { assert lists'[j][k] == lists[i][k - 1]; }
      if j != i { assert lists[j][k] in bin; }
    }
  }

  lemma ListsWithout(fd: map<int, int>, bk: map<int, int>, bins: int, smallmap: set<int>,
                     lists: seq<seq<int>>, bin: map<int, int>, i: int, k: nat)
    requires SmallInv(fd, bk, bins, smallmap, lists, bin) && 0 <= i < 32 && k < |lists[i]|
    ensures var x := lists[i][k];
      var lists', bin' := lists[i := lists[i][..k] + lists[i][k + 1..]], bin - {x};
      && (forall y :: y in bin' ==> Listed(bins, lists', bin', y))
      && (forall j, e :: 0 <= j < 32 && 0 <= e < |lists'[j]| ==> lists'[j][e] in bin' && bin'[lists'[j][e]] == j)
  {
    var r := [Header(bins, i)] + lists[i];
    var x := lists[i][k];
    assert BinOk(fd, bk, bins, smallmap, lists, i);
    assert Distinct(r) && r[k + 1] == x;
    var lists', bin' := lists[i := lists[i][..k] + lists[i][k + 1..]], bin - {x};
    forall y | y in bin' ensures Listed(bins, lists', bin', y) {
      assert Listed(bins, lists, bin, y);
      if bin[y] == i {
        var e :| 0 <= e < |lists[i]| && lists[i][e] == y;
        assert lists'[i][if e < k then e else e - 1] == y;
      }
    }
    forall j, e | 0 <= j < 32 && 0 <= e < |lists'[j]| ensures lists'[j][e] in bin' && bin'[lists'[j][e]] == j {
      if j == i {
        var o := if e < k then e else e + 1;
        assert lists'[j][e] == lists[i][o];
        assert r[o + 1] == lists[i][o];
      } else {
        assert lists[j][e] in bin && bin[lists[j][e]] == j;
      }
    }
  }

  /** Chunk `k` of bin `i` goes. */
  lemma SmallRemove(fd: map<int, int>, bk: map<int, int>, bins: int, smallmap: set<int>,
                    lists: seq<seq<int>>, bin: map<int, int>, i: int, k: nat)
    requires SmallInv(fd, bk, bins, smallmap, lists, bin) && 0 <= i < 32 && k < |lists[i]|
    ensures var x := lists[i][k];
      var lists', bin' := lists[i := lists[i][..k] + lists[i][k + 1..]], bin - {x};
      && x in fd && x in bk && i in smallmap && x in bin && |lists| == 32
      && (fd[x] == Header(bins, i) || fd[x] in bin) && (bk[x] == Header(bins, i) || bk[x] in bin)
      && (k == 0 ==> bk[x] == Header(bins, i))
      && if fd[x] == bk[x] then SmallInv(fd, bk, bins, smallmap - {i}, lists', bin')
         else SmallInv(fd[bk[x] := fd[x]], bk[fd[x] := bk[x]], bins, smallmap, lists', bin')
  {
    hide RingOk;
    var b := Header(bins, i);
    var x := lists[i][k];
    BinNeighbours(fd, bk, bins, smallmap, lists, bin, i, k);
    ListsWithout(fd, bk, bins, smallmap, lists, bin, i, k);
    var lists', bin' := lists[i := lists[i][..k] + lists[i][k + 1..]], bin - {x};
    var one := fd[x] == bk[x];
    var fd', bk' := if one then fd else fd[bk[x] := fd[x]], if one then bk else bk[fd[x] := bk[x]];
    var smallmap' := if one then smallmap - {i} else smallmap;
    assert BinOk(fd', bk', bins, smallmap', lists', i);
    forall j | 0 <= j < 32 ensures BinOk(fd', bk', bins, smallmap', lists', j) {
      if j != i { BinFrame(fd, bk, bins, smallmap, lists, bin, fd', bk', smallmap', lists', j); }
    }
  }

  /** Taking an element out of a list takes it out of the list with a header in front. */
  lemma WithoutBehind(b: int, l: seq<int>, k: nat)
    requires k < |l|
    ensures ([b] + l)[..k + 1] + ([b] + l)[k + 2..] == [b] + (l[..k] + l[k + 1..])
  {
    var r := [b] + l;
    assert r[..k + 1] == [b] + l[..k];
    assert r[k + 2..] == l[k + 1..];
  }

  lemma BinNeighbours(fd: map<int, int>, bk: map<int, int>, bins: int, smallmap: set<int>,
                      lists: seq<seq<int>>, bin: map<int, int>, i: int, k: nat)
    requires SmallInv(fd, bk, bins, smallmap, lists, bin) && 0 <= i < 32 && k < |lists[i]|
    ensures var x, b, rest := lists[i][k], Header(bins, i), lists[i][..k] + lists[i][k + 1..];
      && x in fd && x in bk && i in smallmap && x in bin
      && (fd[x] == b || (fd[x] in bin && bin[fd[x]] == i && fd[x] > Header(bins, 31)))
      && (bk[x] == b || (bk[x] in bin && bin[bk[x]] == i && bk[x] > Header(bins, 31)))
      && fd[x] in fd && bk[x] in bk && bk[x] in fd && fd[x] in bk
      && (k == 0 ==> bk[x] == b)
      && if fd[x] == bk[x] then rest == []
         else rest != [] && RingOk(fd[bk[x] := fd[x]], bk[fd[x] := bk[x]], [b] + rest)
  {
    var b := Header(bins, i);
    var r := [b] + lists[i];
    var x := lists[i][k];
    assert BinOk(fd, bk, bins, smallmap, lists, i);
    assert r[k + 1] == x && LinkOk(fd, bk, r, k + 1);
    assert LinkOk(fd, bk, r, NextIdx(k + 1, |r|)) && LinkOk(fd, bk, r, k);
    RingAlone(fd, bk, r, k + 1);
    InRing(fd, bk, bins, smallmap, lists, bin, i, fd[x]);
    InRing(fd, bk, bins, smallmap, lists, bin, i, bk[x]);
    if fd[x] != bk[x] {
      RingRemove(fd, bk, r, k + 1);
      WithoutBehind(b, lists[i], k);
    }
  }

  /** The first chunk of a marked bin comes right behind its header. */
  lemma SmallFirst(fd: map<int, int>, bk: map<int, int>, bins: int, smallmap: set<int>,
                   lists: seq<seq<int>>, bin: map<int, int>, i: int)
    requires SmallInv(fd, bk, bins, smallmap, lists, bin) && i in smallmap
    ensures 0 <= i < 32 && lists[i] != [] && Header(bins, i) in fd && fd[Header(bins, i)] == lists[i][0]
    ensures lists[i][0] in bin && bin[lists[i][0]] == i
  {
    assert BinOk(fd, bk, bins, smallmap, lists, i);
    var r := [Header(bins, i)] + lists[i];
    assert LinkOk(fd, bk, r, 0) && r[1] == lists[i][0];
  }

  /** Links of other chunks do not matter. */
  lemma SmallFrame(fd: map<int, int>, bk: map<int, int>, bins: int, smallmap: set<int>,
                   lists: seq<seq<int>>, bin: map<int, int>, fd': map<int, int>, bk': map<int, int>)
    requires SmallInv(fd, bk, bins, smallmap, lists, bin)
    requires forall n :: n in Headers(bins) + bin.Keys && n in fd && n in bk ==>
      n in fd' && n in bk' && fd'[n] == fd[n] && bk'[n] == bk[n]
    ensures SmallInv(fd', bk', bins, smallmap, lists, bin)
  {
    forall i | 0 <= i < 32 ensures BinOk(fd', bk', bins, smallmap, lists, i) {
      BinFrame(fd, bk, bins, smallmap, lists, bin, fd', bk', smallmap, lists, i);
    }
  }

  lemma SmallBin(fd: map<int, int>, bk: map<int, int>, bins: int, smallmap: set<int>,
              lists: seq<seq<int>>, bin: map<int, int>, x: int)
    requires SmallInv(fd, bk, bins, smallmap, lists, bin) && x in bin
    ensures x > Header(bins, 31) && 0 <= bin[x] < 32 && bin[x] in smallmap
  {
    assert Listed(bins, lists, bin, x);
    assert BinOk(fd, bk, bins, smallmap, lists, bin[x]);
  }

  lemma Position(fd: map<int, int>, bk: map<int, int>, bins: int, smallmap: set<int>,
                 lists: seq<seq<int>>, bin: map<int, int>, x: int) returns (k: nat)
    requires SmallInv(fd, bk, bins, smallmap, lists, bin) && x in bin
    ensures 0 <= bin[x] < 32 == |lists| && k < |lists[bin[x]]| && lists[bin[x]][k] == x && x > Header(bins, 31)
  {
    assert Listed(bins, lists, bin, x);
    k :| 0 <= k < |lists[bin[x]]| && lists[bin[x]][k] == x;
  }
}
