/** Each step of pass 1 keeps the invariant of DasmLabels. */
module DasmGrow {
  import opened DasmActions
  import opened DasmLabels

  /** `st` with item `it` and its slots added at the end of section `s`. */
  function Grown(st: St, s: int, it: Item, slots: seq<int>): St
    requires 0 <= s < |st.items| == |st.bufs|
  {
    st.(bufs := st.bufs[s := st.bufs[s] + slots], items := st.items[s := st.items[s] + [it]])
  }

  /** `it` may follow in section `s`. */
  predicate Follows(al: Bytes, st: St, s: int, it: Item, slots: seq<int>) {
    && 0 <= s < |st.items| == |st.bufs|
    && it.c == EndCur(st.items[s])
    && (it.act.Start? <==> (st.items[s] == [] || IsTerm(st.items[s][|st.items[s]| - 1].act)))
    && ItemOk(al, it)
    && |slots| == Slots(it.act)
    && |st.bufs[s]| + |slots| < SEC
    && SlotOk(it, st.bufs[s] + slots)
  }

  lemma SlotKept(it: Item, buf: seq<int>, more: seq<int>)
    requires SlotOk(it, buf)
    ensures SlotOk(it, buf + more)
  {}

  lemma SecGrown(al: Bytes, items: seq<Item>, buf: seq<int>, it: Item, slots: seq<int>)
    requires SecOk(al, items, buf)
    requires it.c == EndCur(items)
    requires it.act.Start? <==> (items == [] || IsTerm(items[|items| - 1].act))
    requires ItemOk(al, it)
    requires |slots| == Slots(it.act)
    requires |buf| + |slots| < SEC
    requires SlotOk(it, buf + slots)
    ensures SecOk(al, items + [it], buf + slots)
  {
    hide Next, Slots, Readable, ActAt, Shaped, MaxLen;
    NextAdds(it);
    if items != [] { NextAdds(items[|items| - 1]); }
    var items', buf' := items + [it], buf + slots;
    forall k | 0 <= k < |items'| ensures SlotOk(items'[k], buf') {
      if k < |items| {
        SlotKept(items[k], buf, slots);
      }
    }
    forall k | 0 < k < |items'| ensures Succeeds(items', k) {
      if k < |items| { assert Succeeds(items, k); }
    }
    forall i, j | 0 <= i < j < |items'| ensures items'[i].c.at + Slots(items'[i].act) <= items'[j].c.at {
      if j == |items| && i < |items| - 1 {
        assert items[i].c.at + Slots(items[i].act) <= items[|items| - 1].c.at;
      }
    }
  }

  lemma RefsGrown(st: St, st': St, s: int, it: Item, slots: seq<int>)
    requires 0 <= s < |st.items| == |st.bufs|
    requires st'.items == Grown(st, s, it, slots).items && st'.bufs == Grown(st, s, it, slots).bufs
    ensures forall r :: HasItem(st, r) ==> HasItem(st', r) && ItemOf(st', r) == ItemOf(st, r)
    ensures forall r :: HasSlot(st, r) ==> HasSlot(st', r) && SlotOf(st', r) == SlotOf(st, r)
    ensures forall r :: HasItem(st', r) ==> HasItem(st, r) || r == Ref(s, |st.items[s]|)
  {}

  lemma SecsGrown(al: Bytes, st: St, st': St, s: int, it: Item, slots: seq<int>)
    requires Inv(al, st) && Follows(al, st, s, it, slots)
    requires st'.items == Grown(st, s, it, slots).items && st'.bufs == Grown(st, s, it, slots).bufs
    ensures forall i :: 0 <= i < |st'.items| ==> SecOk(al, st'.items[i], st'.bufs[i])
  {
    SecGrown(al, st.items[s], st.bufs[s], it, slots);
  }

  /** Everything `st` knows about its items and slots still holds of `st'`. */
  ghost predicate Keeps(st: St, st': St) {
    && (forall r :: HasItem(st, r) ==> HasItem(st', r) && ItemOf(st', r) == ItemOf(st, r))
    && (forall r :: HasSlot(st, r) ==> HasSlot(st', r) && SlotOf(st', r) == SlotOf(st, r))
    && (forall q :: q in st.labAt ==> q in st'.labAt && st'.labAt[q] == st.labAt[q])
    && (forall q :: q in st.refAt ==> q in st'.refAt && st'.refAt[q] == st.refAt[q])
  }

  /** The position maps stay exact when the new item is mapped. */
  lemma MapsGrown(st: St, st': St, s: int, it: Item)
    requires MapsOk(st) && Keeps(st, st')
    requires 0 <= s < |st.items| && |st'.items| == |st.items| == |st'.bufs|
    requires |st'.pcl| == |st.pcl|
    requires forall r :: HasItem(st', r) ==> HasItem(st, r) || r == Ref(s, |st.items[s]|)
    requires HasItem(st', Ref(s, |st.items[s]|)) && ItemOf(st', Ref(s, |st.items[s]|)) == it
    requires Mapped(st', Ref(s, |st.items[s]|))
    requires IsRef(it.act) || it.act.LabelPC? ==> HasSlot(st', Ref(s, |st.items[s]|))
    requires st'.labAt == if it.act.LabelPC? then st.labAt[Pos(s, it.c.at) := Ref(s, |st.items[s]|)] else st.labAt
    requires st'.refAt == if IsRef(it.act) then st.refAt[Pos(s, it.c.at) := Ref(s, |st.items[s]|)] else st.refAt
    ensures MapsOk(st')
  {
    forall t, k | 0 <= t < |st'.items| && 0 <= k < |st'.items[t]| ensures Mapped(st', Ref(t, k)) {
      assert HasItem(st', Ref(t, k));
      if Ref(t, k) != Ref(s, |st.items[s]|) {
        assert HasItem(st, Ref(t, k)) && Mapped(st, Ref(t, k));
      }
    }
  }

  lemma ChainGrown(st: St, st': St, l: int)
    requires Keeps(st, st')
    requires 0 <= l < |st.pcl| == |st.pend| == |st'.pcl| == |st'.pend|
    requires st'.pcl[l] == st.pcl[l] && st'.pend[l] == st.pend[l]
    requires ChainOk(st, l)
    ensures ChainOk(st', l)
  {
    var ch := st.pend[l];
    forall i | 0 <= i < |ch| ensures ChainLink(st', ch, i, l) {
      assert ChainLink(st, ch, i, l);
    }
  }

  /** Labels stay in order when only unrelated items and slots are added. */
  lemma LabelsGrown(st: St, st': St)
    requires LabelsOk(st)
    requires st'.pcl == st.pcl && st'.pend == st.pend && st'.labAt == st.labAt && st'.refAt == st.refAt
    requires Keeps(st, st')
    ensures LabelsOk(st')
  {
    forall l | 0 <= l < |st'.pcl| ensures ChainOk(st', l) {
      ChainGrown(st, st', l);
    }
    forall d | d in st'.labAt ensures Exists(st', d) {
      assert Exists(st, d);
    }
    forall q | q in st'.refAt ensures HasSlot(st', st'.refAt[q]) && BoundOrPending(st', st'.refAt[q]) {
      assert BoundOrPending(st, st.refAt[q]);
    }
  }

  /** Items that are neither label nor reference. */
  lemma AddPlain(al: Bytes, st: St, s: int, it: Item, slots: seq<int>)
    requires Inv(al, st) && Follows(al, st, s, it, slots)
    requires !IsRef(it.act) && !it.act.LabelPC?
    ensures Inv(al, Grown(st, s, it, slots))
  {
    var st' := Grown(st, s, it, slots);
    SecsGrown(al, st, st', s, it, slots);
    RefsGrown(st, st', s, it, slots);
    hide SecOk;
    MapsGrown(st, st', s, it);
    LabelsGrown(st, st');
  }

  /** What linking a reference does: bind it to an existing label, or put it at the head of
      its label's chain. */
  function Chained(st: St, s: int, it: Item, slots: seq<int>): St
    requires 0 <= s < |st.items| == |st.bufs|
    requires 0 <= it.arg < |st.pcl| == |st.pend|
  {
    var l := it.arg;
    var q := Pos(s, it.c.at);
    var st1 := Grown(st, s, it, slots).(refAt := st.refAt[q := Ref(s, |st.items[s]|)]);
    if st.pcl[l] < 0 then st1
    else st1.(pcl := st.pcl[l := q], pend := st.pend[l := [q] + st.pend[l]])
  }

  /** The end of a section is a position that no item has yet. */
  lemma FreshPos(al: Bytes, st: St, s: int)
    requires Inv(al, st) && 0 <= s < |st.items|
    ensures Pos(s, |st.bufs[s]|) !in st.labAt && Pos(s, |st.bufs[s]|) !in st.refAt
  {
    var q := Pos(s, |st.bufs[s]|);
    if q in st.labAt {
      SamePos(st, st.labAt[q], s);
    }
    if q in st.refAt {
      SamePos(st, st.refAt[q], s);
    }
  }

  lemma SamePos(st: St, r: Ref, s: int)
    requires |st.bufs| == |st.items| && 0 <= s < |st.items|
    requires forall i :: 0 <= i < |st.items| ==> |st.bufs[i]| < SEC
    requires HasSlot(st, r)
    ensures PosOf(st, r) != Pos(s, |st.bufs[s]|)
  {
    assert |st.bufs[r.s]| < SEC && |st.bufs[s]| < SEC;
  }

  lemma AddRef(al: Bytes, st: St, s: int, it: Item, slots: seq<int>)
    requires Inv(al, st) && Follows(al, st, s, it, slots)
    requires IsRef(it.act) && 0 <= it.arg < |st.pcl|
    requires slots[0] == if st.pcl[it.arg] < 0 then -st.pcl[it.arg] else st.pcl[it.arg]
    ensures Inv(al, Chained(st, s, it, slots))
  {
    var st' := Chained(st, s, it, slots);
    var l, q, new_ := it.arg, Pos(s, it.c.at), Ref(s, |st.items[s]|);
    assert it.c.at == |st.bufs[s]| && it.c.at >= 1 && q > 0;
    FreshPos(al, st, s);
    SecsGrown(al, st, st', s, it, slots);
    RefsGrown(st, st', s, it, slots);
    assert HasSlot(st', new_) && ItemOf(st', new_) == it && SlotOf(st', new_) == slots[0];
    hide SecOk;
    hide Follows;
    hide LabelsOk;
    MapsGrown(st, st', s, it);
    AddRefLabels(st, st', l, q, new_, slots[0]);
  }

  lemma AddRefLabels(st: St, st': St, l: int, q: int, r: Ref, v: int)
    requires LabelsOk(st) && Keeps(st, st')
    requires 0 <= l < |st.pcl| && q !in st.refAt && q > 0
    requires HasSlot(st', r) && ItemOf(st', r).arg == l && PosOf(st', r) == q && SlotOf(st', r) == v
    requires v == if st.pcl[l] < 0 then -st.pcl[l] else st.pcl[l]
    requires st'.refAt == st.refAt[q := r] && st'.labAt == st.labAt
    requires st'.pcl == (if st.pcl[l] < 0 then st.pcl else st.pcl[l := q])
    requires st'.pend == (if st.pcl[l] < 0 then st.pend else st.pend[l := [q] + st.pend[l]])
    ensures LabelsOk(st')
  {
    assert ChainOk(st, l);
    forall m | 0 <= m < |st'.pcl| ensures ChainOk(st', m) {
      assert ChainOk(st, m);
      if m != l || st.pcl[l] < 0 {
        ChainGrown(st, st', m);
      } else {
        ChainPushed(st, st', l, q, r);
      }
    }
    forall d | d in st'.labAt ensures Exists(st', d) {
      assert Exists(st, d);
    }
    forall p | p in st'.refAt ensures HasSlot(st', st'.refAt[p]) && BoundOrPending(st', st'.refAt[p]) {
      if p != q {
        assert BoundOrPending(st, st.refAt[p]);
      } else if st.pcl[l] >= 0 {
        assert st'.pend[l][0] == q;
      }
    }
  }

  lemma ChainPushed(st: St, st': St, l: int, q: int, r: Ref)
    requires Keeps(st, st')
    requires 0 <= l < |st.pcl| == |st.pend| == |st'.pcl| == |st'.pend|
    requires ChainOk(st, l) && st.pcl[l] >= 0 && q !in st.refAt && q > 0
    requires HasSlot(st', r) && ItemOf(st', r).arg == l && SlotOf(st', r) == st.pcl[l]
    requires q in st'.refAt && st'.refAt[q] == r
    requires st'.pcl[l] == q && st'.pend[l] == [q] + st.pend[l]
    ensures ChainOk(st', l)
  {
    var ch, ch' := st.pend[l], st'.pend[l];
    forall i | 0 <= i < |ch'| ensures ChainLink(st', ch', i, l) {
      if i > 0 {
        assert ChainLink(st, ch, i - 1, l);
      }
    }
    forall i, j | 0 <= i < j < |ch'| ensures ch'[i] != ch'[j] {
      assert ChainLink(st, ch, j - 1, l);
    }
  }

  /** `bufs` after the first `n` slots on the chain of `l` were overwritten with `v`. */
  predicate Collapsed(st: St, bufs: seq<seq<int>>, l: int, n: int, v: int)
    requires 0 <= l < |st.pend| && 0 <= n <= |st.pend[l]|
  {
    && |bufs| == |st.bufs|
    && (forall s :: 0 <= s < |bufs| ==> |bufs[s]| == |st.bufs[s]|)
    && (forall s, i :: 0 <= s < |bufs| && 0 <= i < |bufs[s]| ==>
          bufs[s][i] == if Pos(s, i) in st.pend[l][..n] then v else st.bufs[s][i])
  }

  /** A chain only passes through the first slots of references. */
  lemma ChainSlots(al: Bytes, st: St, l: int, s: int, k: int, i: int)
    requires Inv(al, st) && 0 <= l < |st.pcl|
    requires 0 <= s < |st.items| && 0 <= k < |st.items[s]|
    requires st.items[s][k].c.at <= i < st.items[s][k].c.at + Slots(st.items[s][k].act)
    requires Pos(s, i) in st.pend[l]
    ensures i == st.items[s][k].c.at && IsRef(st.items[s][k].act)
  {
    assert ChainOk(st, l);
    var c :| 0 <= c < |st.pend[l]| && st.pend[l][c] == Pos(s, i);
    assert ChainLink(st, st.pend[l], c, l);
    var r := st.refAt[Pos(s, i)];
    assert PosOf(st, r) == Pos(s, i);
    assert SecOk(al, st.items[s], st.bufs[s]) && SecOk(al, st.items[r.s], st.bufs[r.s]);
    assert SlotOk(st.items[s][k], st.bufs[s]);
    assert r.s == s && ItemOf(st, r).c.at == i;
  }

  lemma CollapseSecs(al: Bytes, st: St, bufs: seq<seq<int>>, l: int, v: int, s: int)
    requires Inv(al, st) && 0 <= l < |st.pcl| && 0 <= s < |st.items|
    requires Collapsed(st, bufs, l, |st.pend[l]|, v)
    ensures SecOk(al, st.items[s], bufs[s])
  {
    var ch := st.pend[l];
    assert ch[..|ch|] == ch;
    assert SecOk(al, st.items[s], st.bufs[s]);
    forall k | 0 <= k < |st.items[s]| ensures SlotOk(st.items[s][k], bufs[s]) {
      var it := st.items[s][k];
      assert SlotOk(it, st.bufs[s]);
      forall i | it.c.at <= i < it.c.at + Slots(it.act) && Pos(s, i) in ch
        ensures i == it.c.at && IsRef(it.act)
      {
        ChainSlots(al, st, l, s, k, i);
      }
    }
  }

  /** What defining a label does: its chain is resolved, and the label exists. */
  function Defined(st: St, bufs: seq<seq<int>>, s: int, it: Item): St
    requires 0 <= s < |st.items| == |bufs|
    requires 0 <= it.arg < |st.pcl| == |st.pend|
  {
    var q := Pos(s, it.c.at);
    Grown(st.(bufs := bufs), s, it, [it.c.pess]).(
    pcl := st.pcl[it.arg := -q], pend := st.pend[it.arg := []],
    labAt := st.labAt[q := Ref(s, |st.items[s]|)])
  }

  lemma CollapsedSlot(st: St, bufs: seq<seq<int>>, l: int, v: int, r: Ref)
    requires MapsOk(st) && LabelsOk(st) && 0 <= l < |st.pcl|
    requires Collapsed(st, bufs, l, |st.pend[l]|, v)
    requires HasSlot(st, r)
    ensures bufs[r.s][ItemOf(st, r).c.at] == if PosOf(st, r) in st.pend[l] then v else SlotOf(st, r)
    ensures IsRef(ItemOf(st, r).act) && PosOf(st, r) in st.pend[l] ==> ItemOf(st, r).arg == l
  {
    var ch := st.pend[l];
    assert ch[..|ch|] == ch;
    if PosOf(st, r) in ch {
      assert ChainOk(st, l);
      var c :| 0 <= c < |ch| && ch[c] == PosOf(st, r);
      assert ChainLink(st, ch, c, l);
      assert Mapped(st, Ref(r.s, r.k));
    }
  }

  /** What a reader of reference slots sees after label `l` is defined at `q`. */
  ghost predicate Resolves(st: St, st': St, l: int, q: int)
    requires 0 <= l < |st.pend|
  {
    && (forall r :: HasItem(st, r) ==> HasItem(st', r) && ItemOf(st', r) == ItemOf(st, r))
    && (forall r :: HasSlot(st, r) ==>
          && HasSlot(st', r)
          && SlotOf(st', r) == (if PosOf(st, r) in st.pend[l] then q else SlotOf(st, r))
          && (IsRef(ItemOf(st, r).act) && PosOf(st, r) in st.pend[l] ==> ItemOf(st, r).arg == l))
  }

  lemma DefinedResolves(al: Bytes, st: St, bufs: seq<seq<int>>, s: int, it: Item)
    requires Inv(al, st) && 0 <= s < |st.items|
    requires 0 <= it.arg < |st.pcl|
    requires Collapsed(st, bufs, it.arg, |st.pend[it.arg]|, Pos(s, it.c.at))
    ensures Resolves(st, Defined(st, bufs, s, it), it.arg, Pos(s, it.c.at))
  {
    var st2, st' := st.(bufs := bufs), Defined(st, bufs, s, it);
    RefsGrown(st2, st', s, it, [it.c.pess]);
    forall r | HasItem(st, r) ensures HasItem(st', r) && ItemOf(st', r) == ItemOf(st, r) {
      assert HasItem(st2, r);
    }
    forall r | HasSlot(st, r)
      ensures HasSlot(st', r)
      ensures SlotOf(st', r) == if PosOf(st, r) in st.pend[it.arg] then Pos(s, it.c.at) else SlotOf(st, r)
      ensures IsRef(ItemOf(st, r).act) && PosOf(st, r) in st.pend[it.arg] ==> ItemOf(st, r).arg == it.arg
    {
      CollapsedSlot(st, bufs, it.arg, Pos(s, it.c.at), r);
      assert HasSlot(st2, r);
    }
  }

  lemma CollapsedMaps(st: St, bufs: seq<seq<int>>)
    requires MapsOk(st) && |bufs| == |st.bufs|
    requires forall s :: 0 <= s < |bufs| ==> |bufs[s]| == |st.bufs[s]|
    ensures MapsOk(st.(bufs := bufs))
  {
    var st2 := st.(bufs := bufs);
    forall t, k | 0 <= t < |st2.items| && 0 <= k < |st2.items[t]| ensures Mapped(st2, Ref(t, k)) {
      assert Mapped(st, Ref(t, k));
    }
  }

  lemma AddLabel(al: Bytes, st: St, bufs: seq<seq<int>>, s: int, it: Item)
    requires Inv(al, st) && Follows(al, st, s, it, [it.c.pess])
    requires it.act.LabelPC? && 0 <= it.arg < |st.pcl|
    requires Collapsed(st, bufs, it.arg, |st.pend[it.arg]|, Pos(s, it.c.at))
    ensures Inv(al, Defined(st, bufs, s, it))
  {
    hide Inv, Collapsed, Resolves, SecOk, MapsOk;
    var q, new_ := Pos(s, it.c.at), Ref(s, |st.items[s]|);
    InvParts(al, st);
    CollapsedLengths(st, bufs, it.arg, q);
    var st2, st' := st.(bufs := bufs), Defined(st, bufs, s, it);
    FreshPos(al, st, s);
    DefinedResolves(al, st, bufs, s, it);
    forall t | 0 <= t < |st.items| ensures SecOk(al, st.items[t], bufs[t]) {
      CollapseSecs(al, st, bufs, it.arg, q, t);
    }
    SecGrown(al, st.items[s], bufs[s], it, [it.c.pess]);
    CollapsedMaps(st, bufs);
    RefsGrown(st2, st', s, it, [it.c.pess]);
    assert HasSlot(st', new_) && ItemOf(st', new_) == it;
    MapsGrown(st2, st', s, it);
    AddLabelLabels(st, st', it.arg, q);
    InvWhole(al, st');
  }

  lemma InvParts(al: Bytes, st: St)
    requires Inv(al, st)
    ensures |st.bufs| == |st.items| <= MAXSECTIONS && |st.pend| == |st.pcl| && MapsOk(st) && LabelsOk(st)
    ensures forall s :: 0 <= s < |st.items| ==> |st.bufs[s]| == EndCur(st.items[s]).at < SEC
  {
    forall s | 0 <= s < |st.items| ensures |st.bufs[s]| == EndCur(st.items[s]).at < SEC {
      assert SecOk(al, st.items[s], st.bufs[s]);
    }
  }

  lemma InvWhole(al: Bytes, st: St)
    requires |st.bufs| == |st.items| <= MAXSECTIONS && MapsOk(st) && LabelsOk(st)
    requires forall s :: 0 <= s < |st.items| ==> SecOk(al, st.items[s], st.bufs[s])
    ensures Inv(al, st)
  {}

  lemma CollapsedLengths(st: St, bufs: seq<seq<int>>, l: int, v: int)
    requires 0 <= l < |st.pend| && Collapsed(st, bufs, l, |st.pend[l]|, v)
    ensures |bufs| == |st.bufs| && forall s :: 0 <= s < |bufs| ==> |bufs[s]| == |st.bufs[s]|
  {}

  lemma AddLabelLabels(st: St, st': St, l: int, q: int)
    requires MapsOk(st) && LabelsOk(st) && 0 <= l < |st.pcl| && q > 0 && q !in st.labAt
    requires st'.refAt == st.refAt && st'.pcl == st.pcl[l := -q] && st'.pend == st.pend[l := []]
    requires forall d :: d in st.labAt ==> d in st'.labAt && st'.labAt[d] == st.labAt[d]
    requires IsLabel(st', q, l) && forall d :: d in st'.labAt ==> d in st.labAt || d == q
    requires Resolves(st, st', l, q)
    ensures LabelsOk(st')
  {
    forall m | 0 <= m < |st'.pcl| ensures ChainOk(st', m) {
      assert ChainOk(st, m);
      var ch := st.pend[m];
      if m != l {
        forall i | 0 <= i < |ch| ensures ChainLink(st', ch, i, m) {
          assert ChainLink(st, ch, i, m);
        }
      }
    }
    forall d | d in st'.labAt ensures Exists(st', d) {
      assert d != q ==> Exists(st, d);
    }
    forall p | p in st'.refAt ensures HasSlot(st', st'.refAt[p]) && BoundOrPending(st', st'.refAt[p]) {
      assert BoundOrPending(st, st.refAt[p]);
    }
  }

  /** Inside a call of pass 1: section `s` has got a part of `chunk`, and `args` are left for
      the rest. */
  predicate Putting(al: Bytes, st: St, s: int, args: seq<int>, base: seq<seq<Item>>, chunk: seq<Item>) {
    && 0 <= s < |base| == |st.items| == |st.bufs|
    && base[s] < st.items[s]
    && !IsTerm(st.items[s][|st.items[s]| - 1].act)
    && (forall t :: 0 <= t < |base| && t != s ==> st.items[t] == base[t])
    && ChunkOk(al, EndCur(st.items[s]), args)
    && st.items[s] + Chunk(al, EndCur(st.items[s]), args) == base[s] + chunk
    && |st.bufs[s]| + SlotCount(Chunk(al, EndCur(st.items[s]), args)) < SEC
    && Accepted(st.items[s][|base[s]|..], |st.pcl|, |st.bufs|)
  }

  /** The next item of a chunk follows on, once its argument passes the checks. */
  lemma HeadFollows(al: Bytes, st: St, s: int, args: seq<int>, base: seq<seq<Item>>, chunk: seq<Item>, slots: seq<int>)
    requires Inv(al, st) && Putting(al, st, s, args, base, chunk)
    requires var it := HeadItem(al, EndCur(st.items[s]), args);
      && ArgOk(it.act, it.arg, |st.pcl|, |st.bufs|)
      && |slots| == Slots(it.act)
      && (|slots| > 0 ==> slots[0] == if it.act.Align? then it.c.pess + it.act.mask else
                          if it.act.LabelPC? then it.c.pess else if IsRef(it.act) then slots[0] else it.arg)
      && (|slots| > 1 ==> slots[1] == it.c.pess + 4)
    ensures Follows(al, st, s, HeadItem(al, EndCur(st.items[s]), args), slots)
  {
    var items := st.items[s];
    var last := items[|items| - 1];
    assert SecOk(al, items, st.bufs[s]) && ItemOk(al, last) && SlotOk(last, st.bufs[s]);
    assert Chunk(al, EndCur(items), args)[0] == HeadItem(al, EndCur(items), args);
  }

  lemma HeadTaken(al: Bytes, st: St, st': St, s: int, args: seq<int>, base: seq<seq<Item>>, chunk: seq<Item>)
    requires Putting(al, st, s, args, base, chunk)
    requires var it := HeadItem(al, EndCur(st.items[s]), args);
      && ArgOk(it.act, it.arg, |st.pcl|, |st.bufs|)
      && st'.items == st.items[s := st.items[s] + [it]]
      && |st'.bufs| == |st.bufs| && |st'.pcl| == |st.pcl|
      && |st'.bufs[s]| == |st.bufs[s]| + Slots(it.act)
    ensures var it := HeadItem(al, EndCur(st.items[s]), args);
      if IsTerm(it.act) then
        st'.items == base[s := base[s] + chunk] && Accepted(chunk, |st.pcl|, |st.bufs|)
      else
        Putting(al, st', s, TailArgs(al, EndCur(st.items[s]), args), base, chunk)
    ensures EndCur(st'.items[s]) == Next(HeadItem(al, EndCur(st.items[s]), args))
  {
    var c := EndCur(st.items[s]);
    var it := HeadItem(al, c, args);
    var rest := if IsTerm(it.act) then [] else Chunk(al, Next(it), TailArgs(al, c, args));
    assert Chunk(al, c, args) == [it] + rest;
    assert st'.items[s] + rest == base[s] + chunk;
    assert st'.items[s][|base[s]|..] == st.items[s][|base[s]|..] + [it];
    hide ArgOk;
    hide ActAt;
    hide Readable;
    if IsTerm(it.act) {
      assert st'.items[s] == base[s] + chunk;
      assert chunk == st'.items[s][|base[s]|..];
      assert st'.items == base[s := base[s] + chunk];
    } else {
      assert SlotCount(Chunk(al, c, args)) == Slots(it.act) + SlotCount(rest);
    }
  }

  /** The next item with its argument is item `i` of the chunk, and all before have passed their checks. */
  lemma HeadRejected(al: Bytes, st: St, s: int, args: seq<int>, base: seq<seq<Item>>, chunk: seq<Item>) returns (i: nat)
    requires Putting(al, st, s, args, base, chunk)
    ensures i < |chunk| && chunk[i] == HeadItem(al, EndCur(st.items[s]), args)
    ensures Accepted(chunk[..i], |st.pcl|, |st.bufs|)
  {
    var it := HeadItem(al, EndCur(st.items[s]), args);
    i := |st.items[s]| - |base[s]|;
    assert (base[s] + chunk)[|st.items[s]|] == it == chunk[i];
    TakenPart(st.items[s], Chunk(al, EndCur(st.items[s]), args), base[s], chunk);
  }

  lemma TakenPart<T>(done: seq<T>, rest: seq<T>, base: seq<T>, chunk: seq<T>)
    requires done + rest == base + chunk && |base| <= |done|
    ensures |done| - |base| <= |chunk| && chunk[..|done| - |base|] == done[|base|..]
  {
    assert |done| + |rest| == |base| + |chunk|;
    forall j | 0 <= j < |done| - |base| ensures chunk[j] == done[|base| + j] {
      assert (done + rest)[|base| + j] == (base + chunk)[|base| + j];
    }
  }
}
