/** table.sort: the in-place quicksort with a comparator that is not trusted. */
module LuaSort {
  /** What a comparator does when called: it says whether the first value is less, or raises an
      error. The number of the call is an argument, as a comparator need not be consistent. */
  datatype Answer = Less | NotLess | Raised

  type Comparator<!T> = (nat, T, T) -> Answer

  /** `lt` is a strict weak order: asymmetric, and not being less is transitive. */
  ghost predicate WeakOrder<T(!new)>(lt: (T, T) -> bool) {
    && (forall x, y :: lt(x, y) ==> !lt(y, x))
    && (forall x, y, z :: !lt(y, x) && !lt(z, y) ==> !lt(z, x))
  }

  ghost predicate Follows<T(!new)>(comp: Comparator<T>, lt: (T, T) -> bool) {
    forall n, x, y :: comp(n, x, y) == if lt(x, y) then Less else NotLess
  }

  /** Only the elements from `l` to `u` have been moved, and only among themselves. */
  predicate Permuted<T(==)>(s: seq<T>, t: seq<T>, l: int, u: int) {
    && |s| == |t| && 0 <= l && u < |s| && l <= u + 1
    && s[..l] == t[..l] && s[u + 1..] == t[u + 1..]
    && multiset(s[l..u + 1]) == multiset(t[l..u + 1])
  }

  lemma PermutedSame<T>(s: seq<T>, l: int, u: int)
    requires 0 <= l <= u + 1 <= |s|
    ensures Permuted(s, s, l, u)
  {}

  lemma PermutedThen<T>(s: seq<T>, t: seq<T>, r: seq<T>, l: int, u: int)
    requires Permuted(s, t, l, u) && Permuted(t, r, l, u)
    ensures Permuted(s, r, l, u)
  {}

  /** A permutation of a part is one of the whole. */
  lemma PermutedWider<T>(s: seq<T>, t: seq<T>, l: int, u: int, l': int, u': int)
    requires Permuted(s, t, l, u) && 0 <= l' <= l && u <= u' < |s|
    ensures Permuted(s, t, l', u')
  {
    assert s[..l'] == s[..l][..l'] && t[..l'] == t[..l][..l'];
    assert s[u' + 1..] == s[u + 1..][u' - u..] && t[u' + 1..] == t[u + 1..][u' - u..];
    assert s[l'..u' + 1] == s[..l][l'..] + s[l..u + 1] + s[u + 1..][..u' - u];
    assert t[l'..u' + 1] == t[..l][l'..] + t[l..u + 1] + t[u + 1..][..u' - u];
  }

  lemma Swapped<T>(s: seq<T>, i: int, j: int, l: int, u: int)
    requires 0 <= l <= i <= u < |s| && l <= j <= u
    ensures Permuted(s, s[i := s[j]][j := s[i]], l, u)
  {
    var t := s[i := s[j]][j := s[i]];
    var v, w := s[l..u + 1], t[l..u + 1];
    assert w == v[i - l := v[j - l]][j - l := v[i - l]];
  }

  /** An element of the moved part was in that part before. */
  lemma FromPart<T>(s: seq<T>, t: seq<T>, l: int, u: int, k: int) returns (m: int)
    requires Permuted(s, t, l, u) && l <= k <= u
    ensures l <= m <= u && s[m] == t[k]
  {
    assert t[k] == t[l..u + 1][k - l];
    assert t[k] in multiset(t[l..u + 1]);
    var e :| 0 <= e < |s[l..u + 1]| && s[l..u + 1][e] == t[k];
    m := l + e;
  }

  lemma Elsewhere<T>(s: seq<T>, t: seq<T>, l: int, u: int, k: int)
    requires Permuted(s, t, l, u) && 0 <= k < |s| && (k < l || u < k)
    ensures s[k] == t[k]
  {
    if k < l { assert s[k] == s[..l][k] && t[k] == t[..l][k]; }
    else { assert s[k] == s[u + 1..][k - u - 1] && t[k] == t[u + 1..][k - u - 1]; }
  }

  /** From `l0` to `u0` all pairs are in order, but for those between `l` and `u`. */
  ghost predicate OrderedBut<T>(lt: (T, T) -> bool, s: seq<T>, l0: int, u0: int, l: int, u: int) {
    forall x, y :: l0 <= x < y <= u0 && 0 <= x && y < |s| && !(l <= x && y <= u) ==> !lt(s[y], s[x])
  }

  ghost predicate Sorted<T>(lt: (T, T) -> bool, s: seq<T>, l: int, u: int) {
    forall x, y :: l <= x < y <= u && 0 <= x && y < |s| ==> !lt(s[y], s[x])
  }

  /** Moving elements of the part that is not in order yet keeps the rest in order. */
  lemma OrderedPermuted<T>(lt: (T, T) -> bool, s: seq<T>, t: seq<T>, l0: int, u0: int, l: int, u: int)
    requires OrderedBut(lt, s, l0, u0, l, u) && Permuted(s, t, l, u) && l0 <= l && u <= u0
    ensures OrderedBut(lt, t, l0, u0, l, u)
  {
    forall x, y | l0 <= x < y <= u0 && 0 <= x && y < |t| && !(l <= x && y <= u) ensures !lt(t[y], t[x]) {
      var x', y' := x, y;
      if l <= x <= u { x' := FromPart(s, t, l, u, x); } else { Elsewhere(s, t, l, u, x); }
      if l <= y <= u { y' := FromPart(s, t, l, u, y); } else { Elsewhere(s, t, l, u, y); }
      assert s[x'] == t[x] && s[y'] == t[y];
    }
  }

  /** The part is split at `i`: no element before it is greater, none behind it less. */
  ghost predicate SplitAt<T>(lt: (T, T) -> bool, s: seq<T>, l: int, u: int, i: int) {
    && 0 <= l <= i <= u < |s|
    && (forall x :: l <= x < i ==> !lt(s[i], s[x]))
    && (forall y :: i < y <= u ==> !lt(s[y], s[i]))
  }

  /** Sorting one side of a split keeps the split. */
  lemma SplitPermuted<T>(lt: (T, T) -> bool, s: seq<T>, t: seq<T>, l: int, u: int, i: int, l': int, u': int)
    requires SplitAt(lt, s, l, u, i) && Permuted(s, t, l', u') && ((l' == l && u' == i - 1) || (l' == i + 1 && u' == u))
    ensures SplitAt(lt, t, l, u, i)
  {
    Elsewhere(s, t, l', u', i);
    forall x | l <= x < i ensures !lt(t[i], t[x]) {
      if l' <= x <= u' { var m := FromPart(s, t, l', u', x); } else { Elsewhere(s, t, l', u', x); }
    }
    forall y | i < y <= u ensures !lt(t[y], t[i]) {
      if l' <= y <= u' { var m := FromPart(s, t, l', u', y); } else { Elsewhere(s, t, l', u', y); }
    }
  }

  /** With one side of a split in order, only the other one is left. */
  lemma SplitOrdered<T(!new)>(lt: (T, T) -> bool, s: seq<T>, l0: int, u0: int, l: int, u: int, i: int, left: bool)
    requires WeakOrder(lt) && OrderedBut(lt, s, l0, u0, l, u) && SplitAt(lt, s, l, u, i)
    requires if left then Sorted(lt, s, l, i - 1) else Sorted(lt, s, i + 1, u)
    ensures if left then OrderedBut(lt, s, l0, u0, i + 1, u) else OrderedBut(lt, s, l0, u0, l, i - 1)
  {
    var l', u' := if left then i + 1 else l, if left then u else i - 1;
    forall x, y | l0 <= x < y <= u0 && 0 <= x && y < |s| && !(l' <= x && y <= u') ensures !lt(s[y], s[x]) {
      if l <= x && y <= u {
        if x <= i <= y {
          assert x == i || !lt(s[i], s[x]);
          assert y == i || !lt(s[y], s[i]);
        }
      }
    }
  }

  function Pow2(n: nat): nat { if n == 0 then 1 else 2 * Pow2(n - 1) }

  /** Swap two elements (set2). */
  method Swap<T>(a: array<T>, i: int, j: int, ghost s0: seq<T>, l: int, u: int)
    requires 0 <= l <= i <= u < a.Length && l <= j <= u && Permuted(s0, a[..], l, u)
    modifies a
    ensures var s := old(a[..]); a[..] == s[i := s[j]][j := s[i]]
    ensures Permuted(s0, a[..], l, u)
  {
    ghost var s := a[..];
    Swapped(s, i, j, l, u);
    a[i], a[j] := a[j], a[i];
    assert a[..] == s[i := s[j]][j := s[i]];
    PermutedThen(s0, s, a[..], l, u);
  }

  ghost predicate Lawful<T(!new)>(comp: Comparator<T>, lt: (T, T) -> bool) { WeakOrder(lt) && Follows(comp, lt) }

  lemma Answers<T(!new)>(comp: Comparator<T>, lt: (T, T) -> bool, n: nat, x: T, y: T)
    requires Lawful(comp, lt)
    ensures comp(n, x, y) == if lt(x, y) then Less else NotLess
    ensures lt(x, y) ==> !lt(y, x)
  {}

  lemma NotLessThen<T(!new)>(lt: (T, T) -> bool, x: T, y: T, z: T)
    requires WeakOrder(lt) && !lt(y, x) && !lt(z, y)
    ensures !lt(z, x)
  {}

  /** The answer of call `m` of those made since call number `n0`. */
  function AnswerOf<T>(comp: Comparator<T>, n0: nat, calls: seq<(T, T)>, m: nat): Answer
    requires m < |calls|
  {
    comp(n0 + m, calls[m].0, calls[m].1)
  }

  /** None of the calls raises an error. */
  predicate Answered<T>(comp: Comparator<T>, n0: nat, calls: seq<(T, T)>) {
    forall m :: 0 <= m < |calls| ==> AnswerOf(comp, n0, calls, m) != Raised
  }

  /**
   * How a step with these calls goes: it is fine exactly if no call raises an error and no scan runs off the end. An
   * error ends it at once; `off` says that the last call answered once more that the order goes on where there is no
   * element left.
   */
  predicate Outcome<T>(comp: Comparator<T>, n0: nat, n: nat, calls: seq<(T, T)>, ok: bool, off: bool) {
    && n == n0 + |calls|
    && (ok <==> !off && Answered(comp, n0, calls))
    && (!ok ==>
          && |calls| > 0 && Answered(comp, n0, calls[..|calls| - 1])
          && AnswerOf(comp, n0, calls, |calls| - 1) == if off then Less else Raised)
  }

  lemma OutcomeOk<T>(comp: Comparator<T>, n0: nat, n: nat, calls: seq<(T, T)>, off: bool)
    requires Outcome(comp, n0, n, calls, true, off)
    ensures !off && n >= n0
  {}

  lemma OutcomeFirst<T>(comp: Comparator<T>, n0: nat)
    ensures Outcome(comp, n0, n0, [], true, false)
  {}

  lemma OutcomeOne<T>(comp: Comparator<T>, n0: nat, x: T, y: T)
    ensures Outcome(comp, n0, n0 + 1, [(x, y)], comp(n0, x, y) != Raised, false)
    ensures comp(n0, x, y) == Less ==> Outcome(comp, n0, n0 + 1, [(x, y)], false, true)
  {
    assert AnswerOf(comp, n0, [(x, y)], 0) == comp(n0, x, y);
  }

  lemma OutcomeThen<T>(
      comp: Comparator<T>, n0: nat, n1: nat, n2: nat, a: seq<(T, T)>, b: seq<(T, T)>, ok: bool, off: bool)
    requires Outcome(comp, n0, n1, a, true, false) && Outcome(comp, n1, n2, b, ok, off)
    ensures Outcome(comp, n0, n2, a + b, ok, off)
  {
    var c := a + b;
    forall m: nat | m < |c| ensures AnswerOf(comp, n0, c, m)
      == if m < |a| then AnswerOf(comp, n0, a, m) else AnswerOf(comp, n1, b, m - |a|) {}
    forall m: nat | m < |b| ensures AnswerOf(comp, n1, b, m) == AnswerOf(comp, n0, c, |a| + m) {}
    if !ok {
      var c0, b0 := c[..|c| - 1], b[..|b| - 1];
      forall m: nat | m < |c0| ensures AnswerOf(comp, n0, c0, m) != Raised {
        assert c0[m] == c[m];
        if m >= |a| { assert b0[m - |a|] == c[m] && AnswerOf(comp, n1, b0, m - |a|) != Raised; }
        else { assert a[m] == c[m] && AnswerOf(comp, n0, a, m) != Raised; }
      }
    } else {
      forall m: nat | m < |c| ensures AnswerOf(comp, n0, c, m) != Raised {}
    }
  }

  /** Put two elements in order. */
  method Order<T(!new)>(a: array<T>, p: int, q: int, l: int, u: int, comp: Comparator<T>, n0: nat,
      ghost lt: (T, T) -> bool)
      returns (ok: bool, n: nat, swapped: bool, ghost calls: seq<(T, T)>)
    requires 0 <= l <= p < q <= u < a.Length
    modifies a
    ensures Outcome(comp, n0, n, calls, ok, false) && (ok ==> swapped == (comp(n0, old(a[q]), old(a[p])) == Less))
    ensures n >= n0 && Permuted(old(a[..]), a[..], l, u)
    ensures swapped ==> a[p] == old(a[q]) && a[q] == old(a[p])
    ensures !swapped ==> a[..] == old(a[..])
    ensures forall k :: 0 <= k < a.Length && k != p && k != q ==> a[k] == old(a[k])
    ensures Lawful(comp, lt) ==> ok && swapped == lt(old(a[q]), old(a[p])) && !lt(a[q], a[p])
  {
    hide Permuted, Lawful, Outcome;
    n := n0 + 1;
    swapped, calls := false, [(a[q], a[p])];
    OutcomeOne(comp, n0, a[q], a[p]);
    PermutedSame(a[..], l, u);
    if Lawful(comp, lt) { Answers(comp, lt, n0, a[q], a[p]); }
    var c := comp(n0, a[q], a[p]);
    if c == Raised { return false, n, false, calls; }
    if c == Less {
      Swap(a, p, q, a[..], l, u);
      swapped := true;
    }
    ok := true;
  }

  /** The first, the middle and the last element are put in order; false stands for an error. */
  method Medians<T(!new)>(a: array<T>, l: int, u: int, comp: Comparator<T>, n0: nat, ghost lt: (T, T) -> bool)
      returns (ok: bool, n: nat, ghost calls: seq<(T, T)>)
    requires 0 <= l < u < a.Length
    modifies a
    ensures Outcome(comp, n0, n, calls, ok, false)
    ensures n >= n0 && Permuted(old(a[..]), a[..], l, u)
    ensures Lawful(comp, lt) ==> ok
    ensures Lawful(comp, lt) ==> !lt(a[u], a[l])
    ensures Lawful(comp, lt) && u - l > 1 ==> !lt(a[(l + u) / 2], a[l]) && !lt(a[u], a[(l + u) / 2])
  {
    hide Permuted, WeakOrder, Follows, Outcome;
    ghost var s0 := a[..];
    var swapped;
    ok, n, swapped, calls := Order(a, l, u, l, u, comp, n0, lt);
    if !ok || u - l == 1 { return; }
    var i := (l + u) / 2;
    ghost var s1, more, n1 := a[..], [], n;
    ok, n, swapped, more := Order(a, l, i, l, u, comp, n, lt);
    OutcomeThen(comp, n0, n1, n, calls, more, ok, false);
    calls := calls + more;
    PermutedThen(s0, s1, a[..], l, u);
    if ok && !swapped {
      ghost var s2, n2 := a[..], n;
      ok, n, swapped, more := Order(a, i, u, l, u, comp, n, lt);
      OutcomeThen(comp, n0, n2, n, calls, more, ok, false);
      calls := calls + more;
      PermutedThen(s0, s2, a[..], l, u);
      if Lawful(comp, lt) {
        if swapped {
          Answers(comp, lt, 0, s2[u], s2[i]);
          NotLessThen(lt, a[l], a[i], a[u]);
        } else {
          NotLessThen(lt, a[l], a[i], a[u]);
        }
      }
    } else if Lawful(comp, lt) {
      Answers(comp, lt, 0, s1[i], s1[l]);
      assert a[i] == s1[l];
      NotLessThen(lt, a[l], a[i], a[u]);
    }
  }

  /** Everything up to `i` is no greater than the pivot in place `u - 1`, everything from `j` on no
      less. */
  ghost predicate Parted<T>(lt: (T, T) -> bool, s: seq<T>, l: int, u: int, i: int, j: int) {
    && 0 <= l <= i <= u && l <= j < u < |s| && u - 1 >= 0
    && (forall k :: l <= k <= i && k < u ==> !lt(s[u - 1], s[k]))
    && (forall k :: j <= k <= u ==> !lt(s[k], s[u - 1]))
  }

  /** From `i0` on, the first element that is not less than the pivot. */
  method ScanUp<T(!new)>(a: array<T>, l: int, u: int, i0: int, comp: Comparator<T>, n0: nat, ghost lt: (T, T) -> bool)
      returns (ok: bool, n: nat, i: int, ghost calls: seq<(T, T)>, ghost off: bool)
    requires 0 <= l <= i0 < u - 1 && u < a.Length && u - l >= 3
    ensures n >= n0 && i0 < i <= u
    ensures Outcome(comp, n0, n, calls, ok, off) && (off ==> i == u)
    ensures |calls| == i - i0 && forall m :: 0 <= m < |calls| ==> calls[m] == (a[i0 + 1 + m], a[u - 1])
    ensures Lawful(comp, lt) ==> ok && i < u && !lt(a[i], a[u - 1]) && forall k :: i0 < k < i ==> lt(a[k], a[u - 1])
  {
    hide Outcome;
    n := n0;
    i := i0;
    calls, off := [], false;
    OutcomeFirst(comp, n0);
    ghost var lawful := Lawful(comp, lt);
    while true
      invariant i0 <= i < u && n >= n0 && !off && Outcome(comp, n0, n, calls, true, false)
      invariant |calls| == i - i0 && forall m :: 0 <= m < |calls| ==> calls[m] == (a[i0 + 1 + m], a[u - 1])
      invariant lawful ==> i < u - 1
      invariant lawful ==> forall k :: i0 < k <= i ==> lt(a[k], a[u - 1])
      decreases u - i
    {
      i := i + 1;
      if lawful { Answers(comp, lt, n, a[i], a[u - 1]); }
      var c := comp(n, a[i], a[u - 1]);
      ghost var n1, more := n, [(a[i], a[u - 1])];
      OutcomeOne(comp, n1, a[i], a[u - 1]);
      n := n + 1;
      off := c == Less && i >= u;
      OutcomeThen(comp, n0, n1, n, calls, more, c != Raised && !off, off);
      calls := calls + more;
      if c == Raised { return false, n, i, calls, off; }
      if c == NotLess { break; }
      if i >= u { return false, n, i, calls, off; }
    }
    ok := true;
  }

  /** From `j0` down, the first element that is not greater than the pivot. */
  method ScanDown<T(!new)>(a: array<T>, l: int, u: int, j0: int, comp: Comparator<T>, n0: nat, ghost lt: (T, T) -> bool)
      returns (ok: bool, n: nat, j: int, ghost calls: seq<(T, T)>, ghost off: bool)
    requires 0 <= l < j0 < u < a.Length
    ensures n >= n0 && l <= j < j0
    ensures Outcome(comp, n0, n, calls, ok, off) && (off ==> j == l)
    ensures |calls| == j0 - j && forall m :: 0 <= m < |calls| ==> calls[m] == (a[u - 1], a[j0 - 1 - m])
    ensures Lawful(comp, lt) && !lt(a[u - 1], a[l]) ==>
      ok && !lt(a[u - 1], a[j]) && forall k :: j < k < j0 ==> lt(a[u - 1], a[k])
  {
    hide Outcome;
    n := n0;
    j := j0;
    calls, off := [], false;
    OutcomeFirst(comp, n0);
    ghost var lawful := Lawful(comp, lt) && !lt(a[u - 1], a[l]);
    while true
      invariant l < j <= j0 && n >= n0 && !off && Outcome(comp, n0, n, calls, true, false)
      invariant |calls| == j0 - j && forall m :: 0 <= m < |calls| ==> calls[m] == (a[u - 1], a[j0 - 1 - m])
      invariant lawful ==> forall k :: j <= k < j0 ==> lt(a[u - 1], a[k])
      decreases j
    {
      j := j - 1;
      if lawful { Answers(comp, lt, n, a[u - 1], a[j]); }
      var c := comp(n, a[u - 1], a[j]);
      ghost var n1, more := n, [(a[u - 1], a[j])];
      OutcomeOne(comp, n1, a[u - 1], a[j]);
      n := n + 1;
      off := c == Less && j <= l;
      OutcomeThen(comp, n0, n1, n, calls, more, c != Raised && !off, off);
      calls := calls + more;
      if c == Raised { return false, n, j, calls, off; }
      if c == NotLess { break; }
      if j <= l { return false, n, j, calls, off; }
    }
    ok := true;
  }

  /** What the two scans found: below `i1` only lesser elements, above `j1` only greater ones. */
  ghost predicate Scanned<T>(lt: (T, T) -> bool, s: seq<T>, u: int, i: int, j: int, i1: int, j1: int) {
    && 0 <= i < i1 < u < |s| && 0 <= j1 < j < u
    && !lt(s[i1], s[u - 1]) && !lt(s[u - 1], s[j1])
    && (forall k :: i < k < i1 ==> lt(s[k], s[u - 1]))
    && (forall k :: j1 < k < j ==> lt(s[u - 1], s[k]))
  }

  lemma PartedStarts<T(!new)>(lt: (T, T) -> bool, s: seq<T>, l: int, u: int, m: int)
    requires WeakOrder(lt) && 0 <= l < m < u - 1 && u < |s| && !lt(s[m], s[l]) && !lt(s[u], s[m])
    ensures Parted(lt, s[m := s[u - 1]][u - 1 := s[m]], l, u, l, u - 1)
  {
    var t := s[m := s[u - 1]][u - 1 := s[m]];
    assert !lt(t[u - 1], t[u - 1]);
  }

  /** Swapping the two elements found widens both sides. */
  lemma PartedSwap<T(!new)>(lt: (T, T) -> bool, s: seq<T>, l: int, u: int, i: int, j: int, i1: int, j1: int)
    requires WeakOrder(lt) && Parted(lt, s, l, u, i, j) && Scanned(lt, s, u, i, j, i1, j1) && i1 <= j1 && j < u &&
      j1 < u - 1
    ensures Parted(lt, s[i1 := s[j1]][j1 := s[i1]], l, u, i1, j1)
  {
    var t := s[i1 := s[j1]][j1 := s[i1]];
    forall k | l <= k <= i1 && k < u ensures !lt(t[u - 1], t[k]) {
      if k == i1 {} else if k <= i { assert !lt(s[u - 1], s[k]); } else { assert lt(s[k], s[u - 1]); }
    }
    forall k | j1 <= k <= u ensures !lt(t[k], t[u - 1]) {
      if k == j1 {} else if k >= j { assert !lt(s[k], s[u - 1]); } else { assert lt(s[u - 1], s[k]); }
    }
  }

  /** Once the scans have crossed, the pivot goes between the two sides. */
  lemma PartedEnds<T(!new)>(lt: (T, T) -> bool, s: seq<T>, l: int, u: int, i: int, j: int, i1: int, j1: int)
    requires WeakOrder(lt) && Parted(lt, s, l, u, i, j) && Scanned(lt, s, u, i, j, i1, j1) && j1 < i1
    ensures SplitAt(lt, s[u - 1 := s[i1]][i1 := s[u - 1]], l, u, i1)
  {
    var t := s[u - 1 := s[i1]][i1 := s[u - 1]];
    forall x | l <= x < i1 ensures !lt(t[i1], t[x]) {
      if x <= i { assert !lt(s[u - 1], s[x]); } else { assert lt(s[x], s[u - 1]); }
    }
    forall y | i1 < y <= u ensures !lt(t[y], t[i1]) {
      if y >= j { assert !lt(s[y], s[u - 1]); } else { assert lt(s[u - 1], s[y]); }
    }
  }

  /** Split the elements from `l` to `u` around the pivot, which comes from the middle. */
  method Partition<T(!new)>(a: array<T>, l: int, u: int, comp: Comparator<T>, n0: nat, ghost lt: (T, T) -> bool)
      returns (ok: bool, n: nat, i: int, ghost calls: seq<(T, T)>, ghost off: bool)
    requires 0 <= l && u < a.Length && u - l >= 3
    requires Lawful(comp, lt) ==> !lt(a[(l + u) / 2], a[l]) && !lt(a[u], a[(l + u) / 2])
    modifies a
    ensures Outcome(comp, n0, n, calls, ok, off)
    ensures n >= n0 && Permuted(old(a[..]), a[..], l, u) && l < i <= u
    ensures Lawful(comp, lt) ==> ok && SplitAt(lt, a[..], l, u, i)
  {
    hide Permuted, WeakOrder, Follows, SplitAt, Parted, Outcome;
    calls, off := [], false;
    OutcomeFirst(comp, n0);
    ghost var s0, lawful := a[..], Lawful(comp, lt);
    var m := (l + u) / 2;
    PermutedSame(s0, l, u);
    if lawful { PartedStarts(lt, s0, l, u, m); }
    Swap(a, m, u - 1, s0, l, u);
    n := n0;
    i := l;
    var j := u - 1;
    while true
      invariant l <= i <= j < u && i < u - 1 && n >= n0 && l < j
      invariant !off && Outcome(comp, n0, n, calls, true, false)
      invariant Permuted(s0, a[..], l, u)
      invariant lawful ==> Parted(lt, a[..], l, u, i, j)
      decreases j - i, j
    {
      var i1, j1;
      ghost var more, n1 := [], n;
      ok, n, i1, more, off := ScanUp(a, l, u, i, comp, n, lt);
      OutcomeThen(comp, n0, n1, n, calls, more, ok, off);
      calls := calls + more;
      if !ok { return ok, n, i1, calls, off; }
      OutcomeOk(comp, n0, n, calls, off);
      n1 := n;
      if lawful { FirstParted(lt, a[..], l, u, i, j); }
      ok, n, j1, more, off := ScanDown(a, l, u, j, comp, n, lt);
      OutcomeThen(comp, n0, n1, n, calls, more, ok, off);
      calls := calls + more;
      if !ok { return ok, n, i1, calls, off; }
      OutcomeOk(comp, n0, n, calls, off);
      assert lawful ==> Scanned(lt, a[..], u, i, j, i1, j1);
      ghost var s1 := a[..];
      if j1 < i1 {
        if lawful { PartedEnds(lt, s1, l, u, i, j, i1, j1); }
        i := i1;
        break;
      }
      if lawful { PartedSwap(lt, s1, l, u, i, j, i1, j1); }
      Swap(a, i1, j1, s0, l, u);
      i, j := i1, j1;
    }
    Swap(a, u - 1, i, s0, l, u);
    ok := true;
  }

  lemma FirstParted<T>(lt: (T, T) -> bool, s: seq<T>, l: int, u: int, i: int, j: int)
    requires Parted(lt, s, l, u, i, j)
    ensures !lt(s[u - 1], s[l])
  {}

  /** Calls nest no deeper than the logarithm of the number of elements. */
  predicate Shallow(depth: nat, size: int) { depth == 0 || Pow2(depth) <= size }

  lemma ShallowCall(depth: nat, part: int, size: int)
    requires Shallow(depth, part) && size >= 4 && 2 * part < size
    ensures Shallow(depth + 1, size)
  {
    assert Pow2(1) == 2;
  }

  lemma Pow2Grows(d: nat, e: nat)
    requires d <= e
    ensures Pow2(d) <= Pow2(e)
    decreases e
  {
    if d < e { Pow2Grows(d, e - 1); }
  }

  /** auxsort: sort the elements from `l0` to `u0`. The smaller part is sorted by a recursive call,
      the larger one by the loop. False stands for an error, of the comparator or about it; then the
      elements are still the same, in some order. `depth` says how deeply calls were nested. */
  method AuxSort<T(!new)>(a: array<T>, l0: int, u0: int, comp: Comparator<T>, n0: nat, ghost lt: (T, T) -> bool)
      returns (ok: bool, n: nat, ghost depth: nat, ghost calls: seq<(T, T)>, ghost off: bool)
    requires 0 <= l0 && u0 < a.Length && l0 <= u0 + 1
    modifies a
    ensures Outcome(comp, n0, n, calls, ok, off)
    ensures n >= n0 && Permuted(old(a[..]), a[..], l0, u0)
    ensures Lawful(comp, lt) ==> ok && Sorted(lt, a[..], l0, u0)
    ensures Shallow(depth, u0 - l0 + 1)
    decreases u0 - l0 + 1
  {
    hide Permuted, WeakOrder, Follows, SplitAt, OrderedBut, Sorted, Pow2, Outcome;
    calls, off := [], false;
    OutcomeFirst(comp, n0);
    ghost var s0, lawful := a[..], Lawful(comp, lt);
    PermutedSame(s0, l0, u0);
    AllOpen(lt, s0, l0, u0);
    var l, u := l0, u0;
    n, depth := n0, 0;
    while l < u
      invariant l0 <= l && u <= u0 && l <= u + 1 && n >= n0
      invariant !off && Outcome(comp, n0, n, calls, true, false)
      invariant Permuted(s0, a[..], l0, u0)
      invariant lawful ==> OrderedBut(lt, a[..], l0, u0, l, u)
      invariant Shallow(depth, u0 - l0 + 1)
      decreases u - l
    {
      ghost var s1, more, n1 := a[..], [], n;
      ok, n, more := Medians(a, l, u, comp, n, lt);
      OutcomeThen(comp, n0, n1, n, calls, more, ok, false);
      calls := calls + more;
      Inner(lt, lawful, s0, s1, a[..], l0, u0, l, u);
      if !ok { return; }
      if u - l <= 2 {
        if lawful { FewOrdered(lt, a[..], l0, u0, l, u); }
        l := u;
        break;
      }
      ghost var s2 := a[..];
      var i;
      n1 := n;
      ok, n, i, more, off := Partition(a, l, u, comp, n, lt);
      OutcomeThen(comp, n0, n1, n, calls, more, ok, off);
      calls := calls + more;
      Inner(lt, lawful, s0, s2, a[..], l0, u0, l, u);
      if !ok { return; }
      ghost var s3, l1, u1 := a[..], l, u;
      var j;
      ghost var left := i - l < u - i;
      if i - l < u - i {
        j := l;
        i := i - 1;
        l := i + 2;
      } else {
        j := i + 1;
        i := u;
        u := j - 2;
      }
      ghost var d;
      OutcomeOk(comp, n0, n, calls, off);
      n1 := n;
      ok, n, d, more, off := AuxSort(a, j, i, comp, n, lt);
      OutcomeThen(comp, n0, n1, n, calls, more, ok, off);
      calls := calls + more;
      ShallowCall(d, i - j + 1, u1 - l1 + 1);
      ShallowWider(d + 1, u1 - l1 + 1, u0 - l0 + 1);
      if d + 1 > depth { depth := d + 1; }
      if lawful { SideSorted(lt, s3, a[..], l0, u0, l1, u1, if left then i + 1 else j - 1, left); }
      PermutedWider(s3, a[..], j, i, l0, u0);
      PermutedThen(s0, s3, a[..], l0, u0);
      if !ok { return; }
      OutcomeOk(comp, n0, n, calls, off);
    }
    ok := true;
    if lawful { NoneOpen(lt, a[..], l0, u0, l, u); }
  }

  lemma ShallowWider(d: nat, part: int, size: int)
    requires Shallow(d, part) && part <= size
    ensures Shallow(d, size)
  {}

  lemma AllOpen<T>(lt: (T, T) -> bool, s: seq<T>, l: int, u: int)
    ensures OrderedBut(lt, s, l, u, l, u)
  {}

  lemma NoneOpen<T>(lt: (T, T) -> bool, s: seq<T>, l0: int, u0: int, l: int, u: int)
    requires OrderedBut(lt, s, l0, u0, l, u) && u <= l
    ensures Sorted(lt, s, l0, u0)
  {}

  /** Moving elements of the open part. */
  lemma Inner<T>(lt: (T, T) -> bool, lawful: bool, s0: seq<T>, s: seq<T>, t: seq<T>, l0: int, u0: int, l: int, u: int)
    requires Permuted(s0, s, l0, u0) && Permuted(s, t, l, u) && l0 <= l && u <= u0
    requires lawful ==> OrderedBut(lt, s, l0, u0, l, u)
    ensures Permuted(s0, t, l0, u0) && (lawful ==> OrderedBut(lt, t, l0, u0, l, u))
  {
    PermutedWider(s, t, l, u, l0, u0);
    PermutedThen(s0, s, t, l0, u0);
    if lawful { OrderedPermuted(lt, s, t, l0, u0, l, u); }
  }

  /** Two or three elements are in order after the medians. */
  lemma FewOrdered<T>(lt: (T, T) -> bool, s: seq<T>, l0: int, u0: int, l: int, u: int)
    requires OrderedBut(lt, s, l0, u0, l, u) && 0 <= l < u < |s| && u - l <= 2
    requires !lt(s[u], s[l]) && (u - l == 2 ==> !lt(s[(l + u) / 2], s[l]) && !lt(s[u], s[(l + u) / 2]))
    ensures OrderedBut(lt, s, l0, u0, u, u)
  {
    forall x, y | l0 <= x < y <= u0 && 0 <= x && y < |s| ensures !lt(s[y], s[x]) {
      if l <= x && y <= u {
        assert u - l == 2 ==> (l + u) / 2 == l + 1;
      }
    }
  }

  /** One side of a split has been sorted. */
  lemma SideSorted<T(!new)>(lt: (T, T) -> bool, s: seq<T>, t: seq<T>, l0: int, u0: int, l: int, u: int, i: int,
      left: bool)
    requires WeakOrder(lt) && OrderedBut(lt, s, l0, u0, l, u) && SplitAt(lt, s, l, u, i) && l0 <= l && u <= u0
    requires if left then Permuted(s, t, l, i - 1) && Sorted(lt, t, l, i - 1)
             else Permuted(s, t, i + 1, u) && Sorted(lt, t, i + 1, u)
    ensures if left then OrderedBut(lt, t, l0, u0, i + 1, u) else OrderedBut(lt, t, l0, u0, l, i - 1)
  {
    hide WeakOrder, OrderedBut, Sorted, Permuted;
    var l', u' := if left then l else i + 1, if left then i - 1 else u;
    SplitPermuted(lt, s, t, l, u, i, l', u');
    PermutedWider(s, t, l', u', l, u);
    OrderedPermuted(lt, s, t, l0, u0, l, u);
    SplitOrdered(lt, t, l0, u0, l, u, i, left);
  }

  /** table.sort on the elements of an array. */
  method Sort<T(!new)>(a: array<T>, comp: Comparator<T>, ghost lt: (T, T) -> bool)
      returns (ok: bool, ghost n: nat, ghost calls: seq<(T, T)>, ghost off: bool)
    modifies a
    ensures Outcome(comp, 0, n, calls, ok, off)
    ensures multiset(a[..]) == multiset(old(a[..]))
    ensures Lawful(comp, lt) ==> ok && forall x, y :: 0 <= x < y < a.Length ==> !lt(a[y], a[x])
  {
    ghost var s0 := a[..];
    var count;
    ghost var depth;
    ok, count, depth, calls, off := AuxSort(a, 0, a.Length - 1, comp, 0, lt);
    n := count;
    assert s0[0..a.Length] == s0 && a[..][0..a.Length] == a[..];
    if Lawful(comp, lt) {
      forall x, y | 0 <= x < y < a.Length ensures !lt(a[y], a[x]) {
        assert !lt(a[..][y], a[..][x]);
      }
    }
  }
}
