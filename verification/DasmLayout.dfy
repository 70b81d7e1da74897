/** The layout pass 2 chooses, and why every branch it shortens stays in range. */
module DasmLayout {
  import opened DasmActions
  import opened DasmLabels

  /** Every reference slot holds the position of a slot of its label. */
  predicate AllBound(st: St) {
    forall q :: q in st.refAt ==>
      HasSlot(st, st.refAt[q]) && IsLabel(st, SlotOf(st, st.refAt[q]), ItemOf(st, st.refAt[q]).arg)
  }

  predicate Ready(al: Bytes, st: St) {
    && Inv(al, st) && AllBound(st)
    && forall s :: 0 <= s < |st.items| ==> st.items[s] == [] || IsTerm(st.items[s][|st.items[s]| - 1].act)
  }

  lemma ReadyInv(al: Bytes, st: St)
    requires Ready(al, st)
    ensures Inv(al, st)
  {}

  lemma SameLengths(al: Bytes, st: St)
    requires Ready(al, st)
    ensures |st.bufs| == |st.items|
  {}

  /** The label item a reference points to. */
  function Target(st: St, r: Ref): Ref {
    if HasSlot(st, r) && SlotOf(st, r) in st.labAt then st.labAt[SlotOf(st, r)] else r
  }

  predicate Before(a: Ref, b: Ref) { a.s < b.s || (a.s == b.s && a.k < b.k) }

  /** Pessimistic offset of an item within its section. */
  function PessAt(items: seq<Item>, k: nat): int
    requires k <= |items|
  {
    if k < |items| then items[k].c.pess else EndCur(items).pess
  }

  /** Pessimistic offset of a section start. */
  function Base(items: seq<seq<Item>>, s: nat): int
    requires s <= |items|
  {
    if s == 0 then 0 else Base(items, s - 1) + EndCur(items[s - 1]).pess
  }

  /** Padding up to the next multiple of `mask + 1`. */
  function Pad(f: int, mask: U8): int {
    mask as int - (f + mask as int) % (mask as int + 1)
  }

  function FinalLen(it: Item, f: int, sh: int): int {
    match it.act
    case RelPC => 4 - sh
    case Align(m) => Pad(f, m)
    case a => MaxLen(a, it.arg)
  }

  /** Final offsets `fin` and branch reductions `shr` of the items, section by section. */
  datatype Lay = Lay(fin: seq<seq<int>>, shr: seq<seq<int>>)

  function FinOf(lay: Lay, r: Ref): int {
    if r.s < |lay.fin| && r.k < |lay.fin[r.s]| then lay.fin[r.s][r.k] else 0
  }

  function ShrOf(lay: Lay, r: Ref): int {
    if r.s < |lay.shr| && r.k < |lay.shr[r.s]| then lay.shr[r.s][r.k] else 0
  }

  /** The distance pass 2 tests: to a later label the pessimistic one, to an earlier label the
      final one, both counted from the end of the long form. */
  function Estimate(st: St, lay: Lay, r: Ref): int
    requires HasItem(st, r)
  {
    var it, t := ItemOf(st, r), Target(st, r);
    if Before(r, t) && HasItem(st, t) then
      ItemOf(st, t).c.pess + Base(st.items, t.s) - Base(st.items, r.s) - (it.c.pess + 4)
    else
      FinOf(lay, t) - (FinOf(lay, r) - it.c.pess) - (it.c.pess + 4)
  }

  /** By how much pass 2 shortens item `r`. */
  function Choice(st: St, lay: Lay, r: Ref): int
    requires HasItem(st, r)
  {
    var it := ItemOf(st, r);
    var sh := if it.act.RelPC? then Shrink(it.c.op) else 0;
    if -128 - sh <= Estimate(st, lay, r) <= 127 then sh else 0
  }

  predicate StepOk(st: St, lay: Lay, i: nat, j: nat) {
    && HasItem(st, Ref(i, j))
    && i < |lay.fin| && j + 1 < |lay.fin[i]| && i < |lay.shr| && j < |lay.shr[i]|
    && lay.fin[i][j + 1] == lay.fin[i][j] + FinalLen(st.items[i][j], lay.fin[i][j], lay.shr[i][j])
    && lay.shr[i][j] == Choice(st, lay, Ref(i, j))
  }

  /** Section `i` starts where the section before it ends. */
  predicate Joined(st: St, lay: Lay, i: nat) {
    && 0 < i < |lay.fin| && i <= |st.items| && |lay.fin[i - 1]| == |st.items[i - 1]| + 1 && |lay.fin[i]| > 0
    && lay.fin[i][0] == lay.fin[i - 1][|st.items[i - 1]|]
  }

  /** The layout of all items before item `k` of section `s`. */
  predicate Laid(st: St, lay: Lay, s: nat, k: nat) {
    && s < |st.items| && k <= |st.items[s]|
    && |lay.fin| == |lay.shr| == s + 1
    && (forall i :: 0 <= i < s ==> |lay.fin[i]| == |st.items[i]| + 1 && |lay.shr[i]| == |st.items[i]|)
    && |lay.fin[s]| == k + 1 && |lay.shr[s]| == k
    && lay.fin[0][0] == 0
    && (forall i :: 0 < i <= s ==> Joined(st, lay, i))
    && (forall i, j :: 0 <= i <= s && 0 <= j < |lay.shr[i]| ==> StepOk(st, lay, i, j))
  }

  /** The layout of everything. */
  predicate Complete(st: St, lay: Lay) {
    |st.items| > 0 && Laid(st, lay, |st.items| - 1, |st.items[|st.items| - 1]|)
  }

  lemma StepAt(st: St, lay: Lay, r: Ref)
    requires Complete(st, lay) && HasItem(st, r)
    ensures StepOk(st, lay, r.s, r.k)
  {
    assert r.s == |st.items| - 1 || r.s < |st.items| - 1;
  }

  lemma FinalLenBounds(al: Bytes, it: Item, f: int, sh: int)
    requires ItemOk(al, it) && f >= 0
    requires sh == 0 || sh == 3 || sh == 4
    ensures 0 <= FinalLen(it, f, sh) <= MaxLen(it.act, it.arg)
  {}

  lemma StepBounds(al: Bytes, st: St, lay: Lay, t: nat, j: nat)
    requires Ready(al, st) && StepOk(st, lay, t, j) && lay.fin[t][j] >= 0
    ensures 0 <= lay.fin[t][j + 1] - lay.fin[t][j] <= PessAt(st.items[t], j + 1) - PessAt(st.items[t], j)
  {
    assert SecOk(al, st.items[t], st.bufs[t]);
    var it := st.items[t][j];
    FinalLenBounds(al, it, lay.fin[t][j], lay.shr[t][j]);
    NextAdds(it);
    if j + 1 < |st.items[t]| { assert Succeeds(st.items[t], j + 1); }
    assert PessAt(st.items[t], j + 1) == Next(it).pess;
  }

  lemma {:induction false} NonNegative(al: Bytes, st: St, lay: Lay, t: nat, j: nat)
    requires Ready(al, st) && Complete(st, lay)
    requires t < |st.items| && j <= |st.items[t]|
    ensures FinOf(lay, Ref(t, j)) >= 0
    decreases t, j
  {
    hide Inv, AllBound, Choice, FinalLen;
    if j > 0 {
      NonNegative(al, st, lay, t, j - 1);
      assert StepOk(st, lay, t, j - 1);
      StepBounds(al, st, lay, t, j - 1);
    } else if t > 0 {
      NonNegative(al, st, lay, t - 1, |st.items[t - 1]|);
      assert Joined(st, lay, t);
    }
  }

  /** Between two points the final distance lies between 0 and the pessimistic one. */
  lemma {:induction false} Distance(al: Bytes, st: St, lay: Lay, s: nat, k: nat, t: nat, j: nat)
    requires Ready(al, st) && Complete(st, lay)
    requires s <= t < |st.items| && k <= |st.items[s]| && j <= |st.items[t]|
    requires s == t ==> k <= j
    ensures 0 <= FinOf(lay, Ref(t, j)) - FinOf(lay, Ref(s, k))
             <= Base(st.items, t) + PessAt(st.items[t], j) - Base(st.items, s) - PessAt(st.items[s], k)
    decreases t, j
  {
    hide Inv, AllBound, Choice, FinalLen;
    if s == t && k == j {
    } else if j == 0 {
      Distance(al, st, lay, s, k, t - 1, |st.items[t - 1]|);
      FirstPess(al, st, t);
      assert Joined(st, lay, t);
    } else {
      Distance(al, st, lay, s, k, t, j - 1);
      NonNegative(al, st, lay, t, j - 1);
      assert StepOk(st, lay, t, j - 1);
      StepBounds(al, st, lay, t, j - 1);
    }
  }

  lemma FirstPess(al: Bytes, st: St, t: nat)
    requires Ready(al, st) && t < |st.items|
    ensures PessAt(st.items[t], 0) == 0
  {
    assert SecOk(al, st.items[t], st.bufs[t]);
  }

  /** Displacement of branch `r` from the end of its final form. */
  function Disp(st: St, lay: Lay, r: Ref): int {
    FinOf(lay, Target(st, r)) - FinOf(lay, Ref(r.s, r.k + 1))
  }

  /** A branch that pass 2 shortens passed its test. */
  lemma ShortTested(st: St, lay: Lay, r: Ref)
    requires Complete(st, lay) && HasItem(st, r) && ItemOf(st, r).act.RelPC? && ShrOf(lay, r) != 0
    ensures var sh := ShrOf(lay, r);
      && (sh == 3 || sh == 4) && -128 - sh <= Estimate(st, lay, r) <= 127
      && FinOf(lay, Ref(r.s, r.k + 1)) == FinOf(lay, r) + 4 - sh
  {
    hide Complete, Estimate;
    StepAt(st, lay, r);
  }

  lemma EstimateLater(st: St, lay: Lay, r: Ref, t: Ref)
    requires HasItem(st, r) && HasItem(st, t) && t == Target(st, r) && Before(r, t)
    ensures Estimate(st, lay, r)
      == ItemOf(st, t).c.pess + Base(st.items, t.s) - Base(st.items, r.s) - (ItemOf(st, r).c.pess + 4)
  {
    hide Target;
  }

  lemma EstimateEarlier(st: St, lay: Lay, r: Ref, t: Ref)
    requires HasItem(st, r) && t == Target(st, r) && !Before(r, t)
    ensures Estimate(st, lay, r) == FinOf(lay, t) - FinOf(lay, r) - 4
  {
    hide Target, Base;
  }

  /** To a later label the final distance is at most the pessimistic one that was tested. */
  lemma ShortForward(al: Bytes, st: St, lay: Lay, r: Ref, t: Ref)
    requires Ready(al, st) && Complete(st, lay) && HasItem(st, r) && HasItem(st, t) && t == Target(st, r) &&
      Before(r, t)
    requires ItemOf(st, r).act.RelPC?
    ensures 0 <= Disp(st, lay, r) <= Estimate(st, lay, r)
  {
    hide Ready, Complete, Target, Estimate, Base, Before;
    NextPess(al, st, r);
    LabelPess(st, t);
    EstimateLater(st, lay, r, t);
    DistanceOf(al, st, lay, r, t);
  }

  lemma DistanceOf(al: Bytes, st: St, lay: Lay, r: Ref, t: Ref)
    requires Ready(al, st) && Complete(st, lay) && HasItem(st, r) && HasItem(st, t) && Before(r, t)
    ensures 0 <= FinOf(lay, t) - FinOf(lay, Ref(r.s, r.k + 1))
             <= Base(st.items, t.s) + PessAt(st.items[t.s], t.k) - Base(st.items, r.s) - PessAt(st.items[r.s], r.k + 1)
  {
    hide Ready, Base, PessAt, StepOk, Joined;
    Distance(al, st, lay, r.s, r.k + 1, t.s, t.k);
  }

  /** Back to an earlier label the tested distance is final but for the reduction itself. */
  lemma ShortBack(al: Bytes, st: St, lay: Lay, r: Ref, t: Ref)
    requires Ready(al, st) && Complete(st, lay) && HasItem(st, r) && HasItem(st, t) && t == Target(st, r) &&
      !Before(r, t)
    ensures FinOf(lay, t) <= FinOf(lay, Ref(r.s, r.k + 1))
  {
    hide Ready, Base, PessAt, StepOk, Joined, Target;
    Distance(al, st, lay, t.s, t.k, r.s, r.k + 1);
  }

  /** Branch relaxation is sound: a branch that pass 2 shortens reaches its label with a signed
      byte, forwards, backwards and across sections. */
  lemma ShortBranchFits(al: Bytes, st: St, lay: Lay, r: Ref)
    requires Ready(al, st) && Complete(st, lay)
    requires HasItem(st, r) && ItemOf(st, r).act.RelPC? && ShrOf(lay, r) != 0
    ensures -128 <= Disp(st, lay, r) <= 127
  {
    hide Ready, Complete, Target, Estimate, Before, FinOf, ShrOf;
    var t := Target(st, r);
    TargetIsLabel(al, st, r);
    ShortTested(st, lay, r);
    if Before(r, t) {
      ShortForward(al, st, lay, r, t);
    } else {
      EstimateEarlier(st, lay, r, t);
      ShortBack(al, st, lay, r, t);
    }
  }

  /**
   * Nothing is kept long that passes the test: a jump (opcode e9) or a conditional one (opcodes 80 to 8f) gets 3 or 4
   * bytes shorter exactly if its short form reaches back to the label, or the label ahead is no further than 127 bytes
   * by the pessimistic offsets of pass 1. Other references stay as they are.
   */
  lemma ShortExactly(al: Bytes, st: St, lay: Lay, r: Ref)
    requires Ready(al, st) && Complete(st, lay) && HasItem(st, r) && ItemOf(st, r).act.RelPC?
    ensures HasItem(st, Target(st, r))
    ensures var op, t := ItemOf(st, r).c.op, Target(st, r);
      var less := if op == 0xe9 then 3 else if 0x80 <= op < 0x90 then 4 else 0;
      ShrOf(lay, r) ==
        if Before(r, t) then
          (if Base(st.items, t.s) + ItemOf(st, t).c.pess <= Base(st.items, r.s) + ItemOf(st, r).c.pess + 4 + 127
           then less else 0)
        else (if FinOf(lay, r) + 4 - less - FinOf(lay, t) <= 128 then less else 0)
  {
    hide Ready, Complete, Target, Estimate, Before, FinOf, ShrOf, Base;
    var t := Target(st, r);
    TargetIsLabel(al, st, r);
    ChoiceIs(st, lay, r);
    if Before(r, t) {
      EstimateLater(st, lay, r, t);
      ShortForward(al, st, lay, r, t);
    } else {
      EstimateEarlier(st, lay, r, t);
      BackBefore(al, st, lay, r, t);
    }
  }

  lemma ChoiceIs(st: St, lay: Lay, r: Ref)
    requires Complete(st, lay) && HasItem(st, r)
    ensures ShrOf(lay, r) == Choice(st, lay, r)
  {
    hide Complete, Choice;
    StepAt(st, lay, r);
  }

  lemma BackBefore(al: Bytes, st: St, lay: Lay, r: Ref, t: Ref)
    requires Ready(al, st) && Complete(st, lay) && HasItem(st, r) && HasItem(st, t) && !Before(r, t)
    ensures FinOf(lay, t) <= FinOf(lay, r)
  {
    hide Ready, Base, PessAt, StepOk, Joined, FinOf;
    Distance(al, st, lay, t.s, t.k, r.s, r.k);
  }

  lemma LabelPess(st: St, t: Ref)
    requires HasItem(st, t)
    ensures PessAt(st.items[t.s], t.k) == ItemOf(st, t).c.pess
  {}

  lemma NextPess(al: Bytes, st: St, r: Ref)
    requires Ready(al, st) && HasItem(st, r)
    ensures PessAt(st.items[r.s], r.k + 1) == ItemOf(st, r).c.pess + MaxLen(ItemOf(st, r).act, ItemOf(st, r).arg)
  {
    assert SecOk(al, st.items[r.s], st.bufs[r.s]);
    NextAdds(ItemOf(st, r));
    if r.k + 1 < |st.items[r.s]| { assert Succeeds(st.items[r.s], r.k + 1); }
  }

  lemma TargetIsLabel(al: Bytes, st: St, r: Ref)
    requires Ready(al, st) && HasItem(st, r) && IsRef(ItemOf(st, r).act)
    ensures var t := Target(st, r);
      && HasSlot(st, r) && SlotOf(st, r) in st.labAt && t == st.labAt[SlotOf(st, r)]
      && HasSlot(st, t) && ItemOf(st, t).act.LabelPC? && ItemOf(st, t).arg == ItemOf(st, r).arg
      && PosOf(st, t) == SlotOf(st, r) && t != r
  {
    assert Mapped(st, Ref(r.s, r.k));
    assert SecOk(al, st.items[r.s], st.bufs[r.s]);
    assert SlotOk(ItemOf(st, r), st.bufs[r.s]);
  }

  /** The remainder of a division is unique. */
  lemma ModIs(x: int, q: int, d: int, r: int)
    requires 0 <= r < d && x == q * d + r
    ensures x % d == r
  {
    var k := x / d - q;
    assert k * d == (x / d) * d - q * d == r - x % d;
    Multiples(k, d);
  }

  lemma Multiples(k: int, d: int)
    requires d > 0
    ensures k >= 1 ==> k * d >= d
    ensures k <= -1 ==> k * d <= -d
  {}

  lemma PadAligns(f: int, m: U8)
    ensures (f + Pad(f, m)) % (m as int + 1) == 0 && 0 <= Pad(f, m) <= m
  {
    var d: int := m as int + 1;
    var q := (f + m as int) / d;
    assert f + Pad(f, m) == q * d;
    ModIs(q * d, q, d, 0);
  }

  /** The padding is minimal: no point before is aligned. */
  lemma PadFirst(f: int, m: U8, i: int)
    requires 0 <= i < Pad(f, m)
    ensures (f + i) % (m as int + 1) != 0
  {
    var d: int := m as int + 1;
    var q := (f + m as int) / d;
    assert f + Pad(f, m) == q * d;
    ModIs(f + i, q - 1, d, d - (Pad(f, m) - i));
  }

  /** An aligned point is aligned, with less padding than one unit. */
  lemma AlignedPoint(st: St, lay: Lay, r: Ref)
    requires Complete(st, lay) && HasItem(st, r) && ItemOf(st, r).act.Align?
    ensures var m := ItemOf(st, r).act.mask;
      && FinOf(lay, Ref(r.s, r.k + 1)) % (m as int + 1) == 0
      && 0 <= FinOf(lay, Ref(r.s, r.k + 1)) - FinOf(lay, r) <= m
  {
    StepAt(st, lay, r);
    PadAligns(FinOf(lay, r), ItemOf(st, r).act.mask);
  }

  /** What pass 2 leaves in the slots of an item. */
  predicate ItemDone(it: Item, b0: seq<int>, b: seq<int>, f: int, sh: int) {
    && 0 <= it.c.at && it.c.at + Slots(it.act) <= |b0| == |b|
    && (it.act.LabelPC? ==> b[it.c.at] == f)
    && (it.act.RelPC? ==> b[it.c.at] == b0[it.c.at] && b[it.c.at + 1] == sh)
    && (!it.act.LabelPC? && !it.act.RelPC? ==> ItemSame(it, b0, b))
  }

  predicate ItemSame(it: Item, b0: seq<int>, b: seq<int>) {
    && 0 <= it.c.at && it.c.at + Slots(it.act) <= |b0| == |b|
    && (Slots(it.act) > 0 ==> b[it.c.at] == b0[it.c.at])
    && (Slots(it.act) > 1 ==> b[it.c.at + 1] == b0[it.c.at + 1])
  }

  predicate SlotsAt(st: St, bufs: seq<seq<int>>, lay: Lay, s: nat, k: nat, r: Ref)
    requires HasItem(st, r) && |bufs| == |st.bufs|
  {
    if Before(r, Ref(s, k)) then ItemDone(ItemOf(st, r), st.bufs[r.s], bufs[r.s], FinOf(lay, r), ShrOf(lay, r))
    else ItemSame(ItemOf(st, r), st.bufs[r.s], bufs[r.s])
  }

  /** The section buffers when pass 2 stands before item `k` of section `s`. */
  ghost predicate BufsAt(st: St, bufs: seq<seq<int>>, lay: Lay, s: nat, k: nat) {
    && |bufs| == |st.bufs| == |st.items|
    && (forall i :: 0 <= i < |bufs| ==> |bufs[i]| == |st.bufs[i]|)
    && (forall r :: HasItem(st, r) ==> SlotsAt(st, bufs, lay, s, k, r))
  }

  /** `lay` with the next item of section `s` laid out. */
  function Extend(st: St, lay: Lay, s: nat, k: nat): Lay
    requires Laid(st, lay, s, k) && k < |st.items[s]| && |st.bufs| == |st.items|
  {
    var sh, f := Choice(st, lay, Ref(s, k)), lay.fin[s][k];
    Lay(lay.fin[s := lay.fin[s] + [f + FinalLen(st.items[s][k], f, sh)]], lay.shr[s := lay.shr[s] + [sh]])
  }

  /** The choice for an item only looks at final offsets up to that item. */
  lemma ChoiceStable(al: Bytes, st: St, lay: Lay, lay': Lay, r: Ref)
    requires Ready(al, st) && HasItem(st, r)
    requires forall x :: !Before(r, x) ==> FinOf(lay', x) == FinOf(lay, x)
    ensures Choice(st, lay', r) == Choice(st, lay, r)
  {
    if ItemOf(st, r).act.RelPC? {
      TargetIsLabel(al, st, r);
      hide Ready, Target, Base, FinOf;
    }
  }

  lemma StepStable(al: Bytes, st: St, lay: Lay, lay': Lay, i: nat, j: nat)
    requires Ready(al, st) && StepOk(st, lay, i, j)
    requires i < |lay'.fin| && j + 1 < |lay'.fin[i]| && i < |lay'.shr| && j < |lay'.shr[i]|
    requires lay'.fin[i][j] == lay.fin[i][j] && lay'.fin[i][j + 1] == lay.fin[i][j + 1]
    requires lay'.shr[i][j] == lay.shr[i][j]
    requires forall x :: !Before(Ref(i, j), x) ==> FinOf(lay', x) == FinOf(lay, x)
    ensures StepOk(st, lay', i, j)
  {
    ChoiceStable(al, st, lay, lay', Ref(i, j));
  }

  lemma ExtendFrame(st: St, lay: Lay, s: nat, k: nat)
    requires Laid(st, lay, s, k) && k < |st.items[s]| && |st.bufs| == |st.items|
    ensures forall r :: !Before(Ref(s, k), r) ==> FinOf(Extend(st, lay, s, k), r) == FinOf(lay, r)
    ensures forall r :: Before(r, Ref(s, k)) ==> ShrOf(Extend(st, lay, s, k), r) == ShrOf(lay, r)
    ensures ShrOf(Extend(st, lay, s, k), Ref(s, k)) == Choice(st, lay, Ref(s, k))
  {
    hide Choice, FinalLen;
  }

  lemma ExtendSizes(st: St, lay: Lay, s: nat, k: nat)
    requires Laid(st, lay, s, k) && k < |st.items[s]| && |st.bufs| == |st.items|
    ensures var lay' := Extend(st, lay, s, k);
      && |lay'.fin| == |lay'.shr| == s + 1 && |lay.fin| == |lay.shr| == s + 1
      && (forall i :: 0 <= i < s ==> lay'.fin[i] == lay.fin[i] && lay'.shr[i] == lay.shr[i])
      && |lay'.fin[s]| == k + 2 && |lay'.shr[s]| == k + 1 && |lay.fin[s]| == k + 1 && |lay.shr[s]| == k
      && lay'.fin[s][..k + 1] == lay.fin[s] && lay'.shr[s][..k] == lay.shr[s] && lay'.fin[0][0] == 0
  {
    hide Choice, FinalLen, StepOk, Joined;
  }

  lemma ExtendStep(al: Bytes, st: St, lay: Lay, s: nat, k: nat)
    requires Ready(al, st) && Laid(st, lay, s, k) && k < |st.items[s]|
    ensures StepOk(st, Extend(st, lay, s, k), s, k)
  {
    hide Ready, FinalLen, Joined;
    SameLengths(al, st);
    ExtendFrame(st, lay, s, k);
    hide Choice;
    ChoiceStable(al, st, lay, Extend(st, lay, s, k), Ref(s, k));
  }

  lemma ExtendOldStep(al: Bytes, st: St, lay: Lay, s: nat, k: nat, i: nat, j: nat)
    requires Ready(al, st) && Laid(st, lay, s, k) && k < |st.items[s]|
    requires i <= s && j < |lay.shr[i]|
    ensures StepOk(st, Extend(st, lay, s, k), i, j)
  {
    hide Ready, FinalLen, Choice, Joined, FinOf, ShrOf;
    SameLengths(al, st);
    ExtendFrame(st, lay, s, k);
    ExtendSizes(st, lay, s, k);
    assert StepOk(st, lay, i, j);
    StepStable(al, st, lay, Extend(st, lay, s, k), i, j);
  }

  lemma ExtendLaid(al: Bytes, st: St, lay: Lay, s: nat, k: nat)
    requires Ready(al, st) && Laid(st, lay, s, k) && k < |st.items[s]|
    ensures Laid(st, Extend(st, lay, s, k), s, k + 1)
  {
    hide Ready, Extend, StepOk;
    SameLengths(al, st);
    var lay' := Extend(st, lay, s, k);
    ExtendSizes(st, lay, s, k);
    ExtendStep(al, st, lay, s, k);
    forall i | 0 < i <= s ensures Joined(st, lay', i) {
      assert Joined(st, lay, i);
    }
    forall i, j | 0 <= i <= s && 0 <= j < |lay'.shr[i]| ensures StepOk(st, lay', i, j) {
      if i < s || j < k {
        ExtendOldStep(al, st, lay, s, k, i, j);
      }
    }
  }

  /** Starting the next section. */
  function NextRow(st: St, lay: Lay, s: nat): Lay
    requires s < |st.items| && Laid(st, lay, s, |st.items[s]|)
  {
    Lay(lay.fin + [[lay.fin[s][|st.items[s]|]]], lay.shr + [[]])
  }

  lemma NextRowFrame(st: St, lay: Lay, s: nat)
    requires s + 1 < |st.items| && Laid(st, lay, s, |st.items[s]|)
    ensures forall r :: Before(r, Ref(s + 1, 0)) ==> FinOf(NextRow(st, lay, s), r) == FinOf(lay, r)
    ensures forall r :: Before(r, Ref(s + 1, 0)) ==> ShrOf(NextRow(st, lay, s), r) == ShrOf(lay, r)
  {
    hide StepOk;
  }

  lemma NextRowSteps(al: Bytes, st: St, lay: Lay, s: nat, i: nat, j: nat)
    requires Ready(al, st) && s + 1 < |st.items| && Laid(st, lay, s, |st.items[s]|)
    requires i <= s && j < |lay.shr[i]|
    ensures StepOk(st, NextRow(st, lay, s), i, j)
  {
    NextRowFrame(st, lay, s);
    assert StepOk(st, lay, i, j);
    hide Ready, FinOf, ShrOf, Choice, FinalLen;
    StepStable(al, st, lay, NextRow(st, lay, s), i, j);
  }

  lemma NextRowJoined(st: St, lay: Lay, s: nat, i: nat)
    requires s + 1 < |st.items| && Laid(st, lay, s, |st.items[s]|) && 0 < i <= s + 1
    ensures Joined(st, NextRow(st, lay, s), i)
  {
    hide StepOk;
    if i <= s {
      assert Joined(st, lay, i);
    }
  }

  lemma NextRowSizes(st: St, lay: Lay, s: nat)
    requires s + 1 < |st.items| && Laid(st, lay, s, |st.items[s]|)
    ensures var lay' := NextRow(st, lay, s);
      && |lay'.fin| == |lay'.shr| == s + 2
      && (forall i :: 0 <= i < s + 1 ==> |lay'.fin[i]| == |st.items[i]| + 1 && |lay'.shr[i]| == |st.items[i]|)
      && |lay'.fin[s + 1]| == 1 && |lay'.shr[s + 1]| == 0 && lay'.fin[0][0] == 0
      && forall i :: 0 <= i <= s ==> lay'.shr[i] == lay.shr[i]
  {
    hide StepOk, Joined;
  }

  lemma NextRowLaid(al: Bytes, st: St, lay: Lay, s: nat)
    requires Ready(al, st) && s + 1 < |st.items| && Laid(st, lay, s, |st.items[s]|)
    ensures Laid(st, NextRow(st, lay, s), s + 1, 0)
  {
    hide Ready, StepOk, Joined, NextRow;
    var lay' := NextRow(st, lay, s);
    NextRowSizes(st, lay, s);
    forall i, j | 0 <= i <= s + 1 && 0 <= j < |lay'.shr[i]| ensures StepOk(st, lay', i, j) {
      NextRowSteps(al, st, lay, s, i, j);
    }
    forall i | 0 < i <= s + 1 ensures Joined(st, lay', i) {
      NextRowJoined(st, lay, s, i);
    }
  }

  /** Slots of different items are different. */
  lemma Apart(al: Bytes, st: St, s: nat, k: nat, j: nat)
    requires Inv(al, st) && HasItem(st, Ref(s, k)) && HasItem(st, Ref(s, j)) && j != k
    ensures var a, b := st.items[s][k], st.items[s][j];
      a.c.at + Slots(a.act) <= b.c.at || b.c.at + Slots(b.act) <= a.c.at
  {
    assert SecOk(al, st.items[s], st.bufs[s]);
  }

  /** Pass 2 handling item `k` of section `s`: only its own slots change. */
  lemma BufsStep(al: Bytes, st: St, bufs: seq<seq<int>>, lay: Lay, s: nat, k: nat, buf: seq<int>)
    requires Ready(al, st) && Laid(st, lay, s, k) && k < |st.items[s]|
    requires BufsAt(st, bufs, lay, s, k)
    requires |buf| == |bufs[s]|
    requires var it := st.items[s][k];
      && (forall i :: 0 <= i < |buf| && !(it.c.at <= i < it.c.at + Slots(it.act)) ==> buf[i] == bufs[s][i])
      && ItemDone(it, st.bufs[s], buf, FinOf(lay, Ref(s, k)), Choice(st, lay, Ref(s, k)))
    ensures BufsAt(st, bufs[s := buf], Extend(st, lay, s, k), s, k + 1)
  {
    hide Ready, StepOk, Joined, Choice, FinalLen;
    SameLengths(al, st);
    ExtendFrame(st, lay, s, k);
    var bufs', lay' := bufs[s := buf], Extend(st, lay, s, k);
    forall r | HasItem(st, r) ensures SlotsAt(st, bufs', lay', s, k + 1, r) {
      assert SlotsAt(st, bufs, lay, s, k, r);
      if r != Ref(s, k) && r.s == s {
        ReadyInv(al, st);
        Apart(al, st, s, k, r.k);
        assert Before(r, Ref(s, k)) <==> Before(r, Ref(s, k + 1));
      }
    }
  }

  /** What pass 2 reads when it stands at branch `r`: the label's slot, and on which side of the
      branch the label lies. */
  lemma LabelRead(al: Bytes, st: St, bufs: seq<seq<int>>, lay: Lay, r: Ref)
    requires Ready(al, st) && HasItem(st, r) && ItemOf(st, r).act.RelPC?
    requires BufsAt(st, bufs, lay, r.s, r.k)
    ensures var it, t := ItemOf(st, r), Target(st, r);
      && 0 <= it.c.at && it.c.at + 1 < |bufs[r.s]|
      && bufs[r.s][it.c.at] == SlotOf(st, r) == PosOf(st, t) > 0
      && bufs[r.s][it.c.at + 1] == it.c.pess + 4
      && PosSec(PosOf(st, t)) == t.s < |bufs|
      && 0 <= PosIdx(PosOf(st, t)) == ItemOf(st, t).c.at < |bufs[t.s]|
      && (PosOf(st, t) > Pos(r.s, it.c.at) <==> Before(r, t))
      && bufs[t.s][ItemOf(st, t).c.at] == if Before(r, t) then ItemOf(st, t).c.pess else FinOf(lay, t)
  {
    var it, t := ItemOf(st, r), Target(st, r);
    TargetIsLabel(al, st, r);
    assert SecOk(al, st.items[r.s], st.bufs[r.s]) && SlotOk(it, st.bufs[r.s]);
    assert SecOk(al, st.items[t.s], st.bufs[t.s]) && SlotOk(ItemOf(st, t), st.bufs[t.s]) && ItemOk(al, ItemOf(st, t));
    assert SlotsAt(st, bufs, lay, r.s, r.k, r) && SlotsAt(st, bufs, lay, r.s, r.k, t);
    hide Ready;
    PosSplit(t.s, ItemOf(st, t).c.at);
  }

  /** An open chain shows in its label's entry. */
  lemma OpenChain(al: Bytes, st: St, l: int)
    requires Inv(al, st) && 0 <= l < |st.pcl|
    ensures st.pend[l] != [] <==> st.pcl[l] > 0
  {
    var ch := st.pend[l];
    assert ChainOk(st, l);
    if ch != [] {
      assert ChainLink(st, ch, 0, l);
      var x := st.refAt[ch[0]];
      assert SecOk(al, st.items[x.s], st.bufs[x.s]) && ItemOk(al, ItemOf(st, x));
      assert PosOf(st, x) == ch[0];
    }
  }

  /** Without open chains every reference is bound. */
  lemma NoneOpen(al: Bytes, st: St)
    requires Inv(al, st) && forall l :: 0 <= l < |st.pcl| ==> st.pcl[l] <= 0
    ensures AllBound(st)
  {
    forall q | q in st.refAt
      ensures HasSlot(st, st.refAt[q]) && IsLabel(st, SlotOf(st, st.refAt[q]), ItemOf(st, st.refAt[q]).arg)
    {
      var r := st.refAt[q];
      assert BoundOrPending(st, r);
      assert Mapped(st, Ref(r.s, r.k));
      OpenChain(al, st, ItemOf(st, r).arg);
    }
  }

  /** The room an item has in the final code. */
  lemma FinalBounds(al: Bytes, st: St, lay: Lay, r: Ref)
    requires Ready(al, st) && Complete(st, lay) && HasItem(st, r)
    ensures var it, sh := ItemOf(st, r), ShrOf(lay, r);
      && r.s < |lay.fin| && r.k + 1 < |lay.fin[r.s]|
      && FinOf(lay, Ref(r.s, r.k + 1)) == FinOf(lay, r) + FinalLen(it, FinOf(lay, r), sh)
      && (if it.act.RelPC? then sh == 0 || sh == Shrink(it.c.op) else sh == 0)
      && FinOf(lay, r) == lay.fin[r.s][r.k] && FinOf(lay, Ref(r.s, r.k + 1)) == lay.fin[r.s][r.k + 1]
      && 0 <= FinOf(lay, r) <= FinOf(lay, Ref(r.s, r.k + 1))
           <= FinOf(lay, Ref(|st.items| - 1, |st.items[|st.items| - 1]|))
  {
    hide Ready, Complete, FinalLen, Base, PessAt, EndCur, FinOf, ShrOf, Shrink;
    var n, e := |st.items| - 1, |st.items[|st.items| - 1]|;
    FinalStep(st, lay, r);
    NonNegative(al, st, lay, r.s, r.k);
    Distance(al, st, lay, r.s, r.k, r.s, r.k + 1);
    Distance(al, st, lay, r.s, r.k + 1, n, e);
  }

  lemma FinalStep(st: St, lay: Lay, r: Ref)
    requires Complete(st, lay) && HasItem(st, r)
    ensures var it, sh := ItemOf(st, r), ShrOf(lay, r);
      && r.s < |lay.fin| && r.k + 1 < |lay.fin[r.s]|
      && FinOf(lay, Ref(r.s, r.k + 1)) == FinOf(lay, r) + FinalLen(it, FinOf(lay, r), sh)
      && (if it.act.RelPC? then sh == 0 || sh == Shrink(it.c.op) else sh == 0)
      && FinOf(lay, r) == lay.fin[r.s][r.k] && FinOf(lay, Ref(r.s, r.k + 1)) == lay.fin[r.s][r.k + 1]
  {
    hide Complete, Estimate, FinalLen, Shrink;
    StepAt(st, lay, r);
  }

  /** Without the label put the chain holds exactly the references to it; with it, none. */
  lemma PendingExactly(al: Bytes, st: St, l: int, q: int)
    requires Inv(al, st) && 0 <= l < |st.pcl|
    ensures q in st.pend[l] <==> IsRefOf(st, q, l) && !IsLabel(st, SlotOf(st, st.refAt[q]), l)
    ensures q in st.pend[l] <==> IsRefOf(st, q, l) && !Labelled(st.items, l)
  {
    OpenOrPut(al, st, l, q);
    OpenHolds(al, st, l, q);
  }

  lemma OpenOrPut(al: Bytes, st: St, l: int, q: int)
    requires Inv(al, st) && 0 <= l < |st.pcl|
    ensures q in st.pend[l] <==> IsRefOf(st, q, l) && !Labelled(st.items, l)
  {
    hide SecOk, Mapped;
    ChainHead(al, st, l);
    TableSays(al, st, l);
    assert ChainOk(st, l);
    if q in st.pend[l] {
      var i :| 0 <= i < |st.pend[l]| && st.pend[l][i] == q;
      assert ChainLink(st, st.pend[l], i, l);
    } else if IsRefOf(st, q, l) {
      assert BoundOrPending(st, st.refAt[q]);
      var d := SlotOf(st, st.refAt[q]);
      assert Exists(st, d);
    }
  }

  lemma OpenHolds(al: Bytes, st: St, l: int, q: int)
    requires Inv(al, st) && 0 <= l < |st.pcl|
    ensures q in st.pend[l] <==> IsRefOf(st, q, l) && !IsLabel(st, SlotOf(st, st.refAt[q]), l)
  {
    assert ChainOk(st, l);
    var ch := st.pend[l];
    if q in ch {
      var i :| 0 <= i < |ch| && ch[i] == q;
      assert ChainLink(st, ch, i, l);
      var v := if i + 1 < |ch| then ch[i + 1] else 0;
      if i + 1 < |ch| {
        assert ChainLink(st, ch, i + 1, l);
        NotBoth(al, st, v);
      } else {
        forall d | d in st.labAt ensures d > 0 { LabelPositive(al, st, d); }
      }
    } else if IsRefOf(st, q, l) {
      assert BoundOrPending(st, st.refAt[q]);
    }
  }

  /** References to a label that was put hold the position of one of its label slots; with one such slot, that. */
  lemma PutLabelBinds(al: Bytes, st: St, l: int, d: int, q: int)
    requires Inv(al, st) && IsLabel(st, d, l) && IsRefOf(st, q, l)
    ensures st.pcl[l] < 0 && st.pend[l] == [] && IsLabel(st, SlotOf(st, st.refAt[q]), l)
    ensures (forall e :: IsLabel(st, e, l) ==> e == d) ==> SlotOf(st, st.refAt[q]) == d
  {
    hide SecOk, MapsOk;
    assert Exists(st, d) && BoundOrPending(st, st.refAt[q]);
    ChainHead(al, st, l);
  }

  /** A label with open references has the position of one of them as its entry. */
  lemma ChainHead(al: Bytes, st: St, l: int)
    requires Inv(al, st) && 0 <= l < |st.pcl|
    ensures st.pcl[l] > 0 <==> st.pend[l] != []
    ensures st.pcl[l] > 0 ==> IsRefOf(st, st.pcl[l], l)
    ensures st.pcl[l] < 0 ==> IsLabel(st, -st.pcl[l], l)
  {
    assert ChainOk(st, l);
    if st.pend[l] != [] {
      assert ChainLink(st, st.pend[l], 0, l);
      var a := st.refAt[st.pend[l][0]];
      assert SecOk(al, st.items[a.s], st.bufs[a.s]) && ItemOk(al, ItemOf(st, a));
    }
  }

  /** Pass 1 has put label `l`. */
  predicate Labelled(items: seq<seq<Item>>, l: int) {
    exists s, k :: 0 <= s < |items| && 0 <= k < |items[s]| && LabelOf(items[s][k], l)
  }

  predicate LabelOf(it: Item, l: int) { it.act.LabelPC? && it.arg == l }

  /** Pass 1 has put a reference to label `l`. */
  predicate Referenced(items: seq<seq<Item>>, l: int) {
    exists s, k :: 0 <= s < |items| && 0 <= k < |items[s]| && ReferenceOf(items[s][k], l)
  }

  predicate ReferenceOf(it: Item, l: int) { IsRef(it.act) && it.arg == l }

  /** What the table of labels says: which labels were put, and which ones are only referenced. */
  lemma TableSays(al: Bytes, st: St, l: int)
    requires Inv(al, st) && 0 <= l < |st.pcl|
    ensures st.pcl[l] < 0 <==> Labelled(st.items, l)
    ensures st.pcl[l] > 0 <==> Referenced(st.items, l) && !Labelled(st.items, l)
  {
    hide SecOk, ChainOk;
    ChainHead(al, st, l);
    if st.pcl[l] < 0 {
      var r := st.labAt[-st.pcl[l]];
      assert LabelOf(st.items[r.s][r.k], l);
    } else if st.pcl[l] > 0 {
      var r := st.refAt[st.pcl[l]];
      assert ReferenceOf(st.items[r.s][r.k], l);
    }
    if Labelled(st.items, l) {
      var s, k :| 0 <= s < |st.items| && 0 <= k < |st.items[s]| && LabelOf(st.items[s][k], l);
      assert Mapped(st, Ref(s, k)) && ItemOf(st, Ref(s, k)) == st.items[s][k];
      assert Exists(st, PosOf(st, Ref(s, k)));
    } else if Referenced(st.items, l) {
      var s, k :| 0 <= s < |st.items| && 0 <= k < |st.items[s]| && ReferenceOf(st.items[s][k], l);
      assert Mapped(st, Ref(s, k)) && ItemOf(st, Ref(s, k)) == st.items[s][k];
      assert BoundOrPending(st, Ref(s, k));
    }
  }

  /** After pass 2 a label was put, or nothing refers to it. */
  lemma PutOrUnused(al: Bytes, st: St, l: int)
    requires Ready(al, st)
    ensures Labelled(st.items, l) <==> 0 <= l < |st.pcl| && st.pcl[l] < 0
    ensures 0 <= l < |st.pcl| ==> st.pcl[l] <= 0
  {
    hide SecOk, LabelsOk, MapsOk;
    if 0 <= l < |st.pcl| {
      TableSays(al, st, l);
      OpenHead(al, st, l);
    } else if Labelled(st.items, l) {
      InTable(al, st, l);
    }
  }

  lemma OpenHead(al: Bytes, st: St, l: int)
    requires Inv(al, st) && AllBound(st) && 0 <= l < |st.pcl|
    ensures st.pcl[l] <= 0
  {
    hide SecOk;
    ChainHead(al, st, l);
    if st.pcl[l] > 0 {
      OpenHolds(al, st, l, st.pcl[l]);
    }
  }

  /** Labels and references have arguments within the table. */
  lemma InTable(al: Bytes, st: St, l: int)
    requires Inv(al, st) && (Labelled(st.items, l) || Referenced(st.items, l))
    ensures 0 <= l < |st.pcl|
  {
    hide SecOk, LabelsOk;
    if Labelled(st.items, l) {
      var s, k :| 0 <= s < |st.items| && 0 <= k < |st.items[s]| && LabelOf(st.items[s][k], l);
      assert Mapped(st, Ref(s, k)) && ItemOf(st, Ref(s, k)) == st.items[s][k];
    } else {
      var s, k :| 0 <= s < |st.items| && 0 <= k < |st.items[s]| && ReferenceOf(st.items[s][k], l);
      assert Mapped(st, Ref(s, k)) && ItemOf(st, Ref(s, k)) == st.items[s][k];
    }
  }

  lemma NotBoth(al: Bytes, st: St, q: int)
    requires Inv(al, st) && q in st.refAt
    ensures q !in st.labAt
  {
    hide SecOk, LabelsOk;
    if q in st.labAt {
      var a, b := st.labAt[q], st.refAt[q];
      SlotRange(al, st, a);
      SlotRange(al, st, b);
      PosSplit(a.s, ItemOf(st, a).c.at);
      PosSplit(b.s, ItemOf(st, b).c.at);
      if a.k != b.k {
        Apart(al, st, b.s, a.k, b.k);
      }
    }
  }

  lemma SlotRange(al: Bytes, st: St, r: Ref)
    requires Inv(al, st) && HasSlot(st, r)
    ensures 0 <= ItemOf(st, r).c.at < SEC
  {
    hide MapsOk, LabelsOk;
    assert SecOk(al, st.items[r.s], st.bufs[r.s]);
  }

  lemma LabelPositive(al: Bytes, st: St, q: int)
    requires Inv(al, st) && q in st.labAt
    ensures q > 0
  {
    var a := st.labAt[q];
    assert SecOk(al, st.items[a.s], st.bufs[a.s]) && ItemOk(al, ItemOf(st, a));
  }
}
