/** The state pass 1 builds, as a value: section buffers, label chains, and the record of
    what every slot stands for. */
module DasmLabels {
  import opened DasmActions

  /** A position is an 8 bit section number above a 24 bit slot index. */
  const SEC := 0x100_0000
  const MAXSECTIONS := 128

  function Pos(s: int, at: int): int { s * SEC + at }

  function PosSec(q: int): int { q / SEC }

  function PosIdx(q: int): int { q % SEC }

  lemma PosSplit(s: int, at: int)
    requires 0 <= at < SEC
    ensures PosSec(Pos(s, at)) == s && PosIdx(Pos(s, at)) == at
  {}

  /** Item `k` of section `s`. */
  datatype Ref = Ref(s: nat, k: nat)

  /** `items` and the maps are records for the proof: `labAt` and `refAt` give, for the position
      of a label slot or of a reference slot, its item; `pend` lists the positions on each
      label's chain of unresolved references. */
  datatype St = St(
    bufs: seq<seq<int>>,
    pcl: seq<int>,
    items: seq<seq<Item>>,
    pend: seq<seq<int>>,
    labAt: map<int, Ref>,
    refAt: map<int, Ref>)

  predicate HasItem(st: St, r: Ref) {
    |st.bufs| == |st.items| && r.s < |st.items| && r.k < |st.items[r.s]|
  }

  function ItemOf(st: St, r: Ref): Item
    requires HasItem(st, r)
  {
    st.items[r.s][r.k]
  }

  predicate HasSlot(st: St, r: Ref) {
    HasItem(st, r) && 0 <= ItemOf(st, r).c.at < |st.bufs[r.s]|
  }

  /** The first slot of an item. */
  function SlotOf(st: St, r: Ref): int
    requires HasSlot(st, r)
  {
    st.bufs[r.s][ItemOf(st, r).c.at]
  }

  /** The position of an item's first slot. */
  function PosOf(st: St, r: Ref): int
    requires HasItem(st, r)
  {
    Pos(r.s, ItemOf(st, r).c.at)
  }

  /** What pass 1 leaves in the slots of an item, label references aside. */
  predicate SlotOk(it: Item, buf: seq<int>) {
    && 0 <= it.c.at
    && it.c.at + Slots(it.act) <= |buf|
    && (it.act.Start? || it.act.Imm? || it.act.Space? ==> buf[it.c.at] == it.arg)
    && (it.act.LabelPC? ==> buf[it.c.at] == it.c.pess)
    && (it.act.Align? ==> buf[it.c.at] == it.c.pess + it.act.mask)
    && (it.act.RelPC? ==> buf[it.c.at + 1] == it.c.pess + 4)
  }

  predicate ItemOk(al: Bytes, it: Item) {
    && (!it.act.Start? ==> Readable(al, it.c.p) && it.act == ActAt(al, it.c.p) && it.c.at >= 1)
    && Shaped(it.act, it.c)
    && (it.act.Space? ==> it.arg >= 0)
    && (it.act == Imm(ImmS) ==> FitsByte(it.arg))
    && (it.act == Imm(ImmB) ==> 0 <= it.arg < 256)
    && (it.act == Imm(ImmW) ==> 0 <= it.arg < 65536)
    && (it.act == Imm(ImmWB) ==> FitsByte(it.arg) || 0 <= it.arg < 65536)
    && 0 <= it.c.pess && 0 <= it.c.op < 256
  }

  function EndCur(items: seq<Item>): Cur {
    if items == [] then Origin else Next(items[|items| - 1])
  }

  /** Item `k` follows on from the one before; a chunk starts just where one ended. */
  predicate Succeeds(items: seq<Item>, k: nat)
    requires 0 < k < |items|
  {
    items[k].c == Next(items[k - 1]) && (items[k].act.Start? <==> IsTerm(items[k - 1].act))
  }

  /** One section: consecutive items follow on from each other, and chunks start and end
      where they should. */
  predicate SecOk(al: Bytes, items: seq<Item>, buf: seq<int>) {
    && |buf| == EndCur(items).at < SEC
    && (forall k :: 0 <= k < |items| ==> ItemOk(al, items[k]) && SlotOk(items[k], buf))
    && (|items| > 0 ==> items[0].act.Start? && items[0].c == Origin)
    && (forall k :: 0 < k < |items| ==> Succeeds(items, k))
    && (forall i, j :: 0 <= i < j < |items| ==> items[i].c.at + Slots(items[i].act) <= items[j].c.at)
  }

  /** The position maps are exactly the label items and the reference items. */
  predicate MapsOk(st: St) {
    && |st.bufs| == |st.items|
    && (forall q :: q in st.labAt ==>
          HasSlot(st, st.labAt[q]) && ItemOf(st, st.labAt[q]).act.LabelPC? && PosOf(st, st.labAt[q]) == q)
    && (forall q :: q in st.refAt ==>
          HasSlot(st, st.refAt[q]) && IsRef(ItemOf(st, st.refAt[q]).act) && PosOf(st, st.refAt[q]) == q)
    && (forall s, k :: 0 <= s < |st.items| && 0 <= k < |st.items[s]| ==> Mapped(st, Ref(s, k)))
  }

  predicate Mapped(st: St, r: Ref)
    requires HasItem(st, r)
  {
    var it := ItemOf(st, r);
    && (it.act.LabelPC? ==> 0 <= it.arg < |st.pcl| && PosOf(st, r) in st.labAt && st.labAt[PosOf(st, r)] == r)
    && (IsRef(it.act) ==> 0 <= it.arg < |st.pcl| && PosOf(st, r) in st.refAt && st.refAt[PosOf(st, r)] == r)
  }

  /** `d` is the position of a label slot of label `l`. */
  predicate IsLabel(st: St, d: int, l: int) {
    d in st.labAt && HasItem(st, st.labAt[d]) && ItemOf(st, st.labAt[d]).arg == l
  }

  /** `q` is the position of a reference slot of label `l`. */
  predicate IsRefOf(st: St, q: int, l: int) {
    q in st.refAt && HasSlot(st, st.refAt[q]) && ItemOf(st, st.refAt[q]).arg == l
  }

  /** Element `i` of a chain: a reference slot of `l` that holds the next position, or 0. */
  predicate ChainLink(st: St, ch: seq<int>, i: int, l: int)
    requires 0 <= i < |ch|
  {
    IsRefOf(st, ch[i], l) && SlotOf(st, st.refAt[ch[i]]) == if i + 1 < |ch| then ch[i + 1] else 0
  }

  /** The chain of label `l`: it starts at the label's entry, visits the pending reference slots
      of `l` once each, and ends at 0. */
  predicate ChainOk(st: St, l: int)
    requires 0 <= l < |st.pcl| == |st.pend|
  {
    var ch := st.pend[l];
    && (forall i :: 0 <= i < |ch| ==> ChainLink(st, ch, i, l))
    && (forall i, j :: 0 <= i < j < |ch| ==> ch[i] != ch[j])
    && (if ch == [] then st.pcl[l] <= 0 else st.pcl[l] == ch[0])
    && (st.pcl[l] < 0 ==> IsLabel(st, -st.pcl[l], l))
  }

  /** A reference slot holds the position of a slot of its label, or waits on its chain. */
  predicate BoundOrPending(st: St, r: Ref)
    requires HasSlot(st, r)
  {
    var l := ItemOf(st, r).arg;
    IsLabel(st, SlotOf(st, r), l) || (0 <= l < |st.pend| && PosOf(st, r) in st.pend[l])
  }

  /** The label of a label slot exists, so its chain is empty. */
  predicate Exists(st: St, d: int)
    requires d in st.labAt
  {
    var r := st.labAt[d];
    HasItem(st, r) && 0 <= ItemOf(st, r).arg < |st.pcl| && st.pcl[ItemOf(st, r).arg] < 0
  }

  predicate LabelsOk(st: St) {
    && |st.pend| == |st.pcl|
    && (forall l :: 0 <= l < |st.pcl| ==> ChainOk(st, l))
    && (forall d :: d in st.labAt ==> Exists(st, d))
    && (forall q :: q in st.refAt ==> HasSlot(st, st.refAt[q]) && BoundOrPending(st, st.refAt[q]))
  }

  predicate Inv(al: Bytes, st: St) {
    && |st.bufs| == |st.items| <= MAXSECTIONS
    && (forall s :: 0 <= s < |st.items| ==> SecOk(al, st.items[s], st.bufs[s]))
    && MapsOk(st)
    && LabelsOk(st)
  }
}
