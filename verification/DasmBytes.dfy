/** The bytes pass 3 writes, and how an x86 processor reads them back. */
module DasmBytes {
  import opened DasmActions
  import opened DasmLabels
  import opened DasmLayout

  /** `n` as `len` bytes, low byte first. */
  function LE(n: int, len: nat): (r: Bytes)
    ensures |r| == len
    decreases len
  {
    if len == 0 then [] else [n % 256] + LE(n / 256, len - 1)
  }

  function Rep(v: U8, n: nat): (r: Bytes)
    ensures |r| == n
  {
    seq(n, _ => v)
  }

  /** The opcode bytes before a shortened immediate, as pass 3 patches them. */
  function Patched(run: Bytes): Bytes
    requires |run| >= 2
  {
    run[|run| - 2 := (run[|run| - 2] as int + 2) % 256]
  }

  /** The code of an item together with the opcode bytes directly before it: `sh` is the branch
      reduction, `disp` the displacement, `addr` a label address, `pad` an alignment padding. */
  function Code(it: Item, sh: int, disp: int, addr: int, pad: int): Bytes
    requires Shaped(it.act, it.c)
  {
    var run, n := it.c.run, it.arg;
    match it.act
    case RelPC =>
      if sh == 3 && Shrink(it.c.op) == 3 then run[..|run| - 1] + [0xeb, disp % 256]
      else if sh == 4 && Shrink(it.c.op) == 4 then run[..|run| - 2] + [it.c.op - 0x10, disp % 256]
      else run + LE(disp, 4)
    case ImmPC => run + LE(addr, 8)
    case Imm(k) =>
      if k.ImmW? then run + LE(n, 2)
      else if k.ImmD? then run + LE(n, 4)
      else if (k.ImmWB? || k.ImmDB?) && FitsByte(n) then Patched(run) + [n % 256]
      else if k.ImmWB? then run + LE(n, 2)
      else if k.ImmDB? then run + LE(n, 4)
      else run + [n % 256]
    case Space(fill) => run + if n > 0 then Rep(fill, n) else []
    case Align(_) => run + if pad > 0 then Rep(0x90, pad) else []
    case _ => run
  }

  predicate IsOpcode(a: Act) { a.Byte? || a.Esc? }

  /** The code of item `r` in a given layout, for code placed at address `base`. */
  function CodeOf(st: St, lay: Lay, base: int, r: Ref): Bytes
    requires HasItem(st, r) && Shaped(ItemOf(st, r).act, ItemOf(st, r).c)
  {
    Code(ItemOf(st, r), ShrOf(lay, r), Disp(st, lay, r), base + FinOf(lay, Target(st, r)),
         FinOf(lay, Ref(r.s, r.k + 1)) - FinOf(lay, r))
  }

  /** Where the code of item `r` starts and ends. */
  function From(st: St, lay: Lay, r: Ref): int
    requires HasItem(st, r)
  {
    FinOf(lay, r) - |ItemOf(st, r).c.run|
  }

  function Upto(lay: Lay, r: Ref): int { FinOf(lay, Ref(r.s, r.k + 1)) }

  /** `code` holds the code of item `r` where the layout puts it. */
  predicate Holds(st: St, lay: Lay, base: int, code: seq<int>, r: Ref)
    requires HasItem(st, r)
  {
    && Shaped(ItemOf(st, r).act, ItemOf(st, r).c)
    && 0 <= From(st, lay, r) <= Upto(lay, r) <= |code|
    && code[From(st, lay, r)..Upto(lay, r)] == CodeOf(st, lay, base, r)
  }

  function Signed(n: int, bits: int): int
    requires bits == 0x80 || bits == 0x8000_0000
  {
    if n < bits then n else n - 2 * bits
  }

  function Word4(b: Bytes): int
    requires |b| == 4
  {
    b[0] as int + 0x100 * (b[1] as int) + 0x1_0000 * (b[2] as int) + 0x100_0000 * (b[3] as int)
  }

  datatype Branch = Branch(cond: int, len: int, disp: int) | NoBranch

  /** A processor reading a branch: `cond` is -1 for an unconditional jump and the condition
      code otherwise; the displacement counts from the end of the instruction. */
  function ReadBranch(b: Bytes): Branch {
    if |b| >= 2 && b[0] == 0xeb then Branch(-1, 2, Signed(b[1], 0x80))
    else if |b| >= 5 && b[0] == 0xe9 then Branch(-1, 5, Signed(Word4(b[1..5]), 0x8000_0000))
    else if |b| >= 2 && b[0] / 16 == 7 then Branch(b[0] % 16, 2, Signed(b[1], 0x80))
    else if |b| >= 6 && b[0] == 0x0f && b[1] / 16 == 8 then Branch(b[1] % 16, 6, Signed(Word4(b[2..6]), 0x8000_0000))
    else NoBranch
  }

  lemma Word4LE(n: int)
    requires -0x8000_0000 <= n < 0x8000_0000
    ensures Signed(Word4(LE(n, 4)), 0x8000_0000) == n
  {
    var n1 := n / 256;
    var n2 := n1 / 256;
    var n3 := n2 / 256;
    assert LE(n, 4) == [n % 256] + LE(n1, 3);
    assert LE(n1, 3) == [n1 % 256] + LE(n2, 2);
    assert LE(n2, 2) == [n2 % 256] + LE(n3, 1);
    assert LE(n3, 1) == [n3 % 256] + LE(n3 / 256, 0);
  }

  /** A processor reads a long branch back. */
  lemma ReadLong(b: Bytes, op: U8, d: int)
    requires Shrink(op) != 0 && -0x8000_0000 <= d < 0x8000_0000
    requires b == (if op == 0xe9 then [0xe9] else [0x0f, op]) + LE(d, 4)
    ensures ReadBranch(b) == Branch(if op == 0xe9 then -1 else op % 16, BranchLen(op, 0), d)
  {
    hide LE, Word4, Signed;
    Word4LE(d);
    var n := BranchLen(op, 0);
    assert b[n - 4..n] == LE(d, 4);
  }

  /** And a short one. */
  lemma ReadShort(op: U8, d: int)
    requires Shrink(op) != 0 && -128 <= d <= 127
    ensures ReadBranch([if op == 0xe9 then 0xeb else op - 0x10, d % 256])
      == Branch(if op == 0xe9 then -1 else op % 16, 2, d)
  {
    hide Word4;
  }

  lemma LongTail(run: Bytes, n: nat, rest: Bytes)
    requires n <= |run|
    ensures var out := run + rest; out[|out| - (n + |rest|)..] == run[|run| - n..] + rest
  {}

  lemma ShortTail(run: Bytes, n: nat, rest: Bytes)
    requires n <= |run|
    ensures var out := run[..|run| - n] + rest; |out| == |run| - n + |rest| && out[|out| - |rest|..] == rest
  {}

  /** What the last bytes written for a branch are. */
  lemma BranchTail(it: Item, sh: int, d: int, addr: int, pad: int)
    requires it.act.RelPC? && Shaped(it.act, it.c) && Shrink(it.c.op) != 0
    requires sh == 0 || sh == Shrink(it.c.op)
    ensures var out, op := Code(it, sh, d, addr, pad), it.c.op;
      && |out| == |it.c.run| + 4 - sh && BranchLen(op, sh) <= |out|
      && out[|out| - BranchLen(op, sh)..] ==
           if sh == 0 then (if op == 0xe9 then [0xe9] else [0x0f, op]) + LE(d, 4)
           else [if op == 0xe9 then 0xeb else op - 0x10, d % 256]
  {
    hide LE;
    var run, op := it.c.run, it.c.op;
    var n := if op == 0xe9 then 1 else 2;
    if sh == 0 {
      LongTail(run, n, LE(d, 4));
      assert run[|run| - n..] == if op == 0xe9 then [0xe9] else [0x0f, op];
    } else {
      ShortTail(run, n, [if op == 0xe9 then 0xeb else op - 0x10, d % 256]);
    }
  }

  lemma CodeBranch(it: Item, sh: int, d: int, addr: int, pad: int)
    requires it.act.RelPC? && Shaped(it.act, it.c) && Shrink(it.c.op) != 0
    requires sh == 0 || (sh == Shrink(it.c.op) && -128 <= d <= 127)
    requires sh == 0 ==> -0x8000_0000 <= d < 0x8000_0000
    ensures var out, len := Code(it, sh, d, addr, pad), BranchLen(it.c.op, sh);
      && |out| == |it.c.run| + 4 - sh && len <= |out|
      && ReadBranch(out[|out| - len..]) == Branch(if it.c.op == 0xe9 then -1 else it.c.op % 16, len, d)
  {
    hide Code, ReadBranch, LE, Shaped;
    BranchTail(it, sh, d, addr, pad);
    var op := it.c.op;
    if sh == 0 {
      ReadLong((if op == 0xe9 then [0xe9] else [0x0f, op]) + LE(d, 4), op, d);
    } else {
      ReadShort(op, d);
    }
  }

  /** The `len` bytes that end at `end`. */
  function LastBytes(code: Bytes, end: int, len: int): Bytes {
    if 0 <= end - len <= end <= |code| then code[end - len..end] else []
  }

  lemma LastOfHeld(st: St, lay: Lay, base: int, code: Bytes, r: Ref, len: nat)
    requires HasItem(st, r) && Holds(st, lay, base, code, r) && len <= |CodeOf(st, lay, base, r)|
    ensures var out := CodeOf(st, lay, base, r); LastBytes(code, Upto(lay, r), len) == out[|out| - len..]
  {
    hide CodeOf, FinOf;
    var out := CodeOf(st, lay, base, r);
    assert code[From(st, lay, r)..Upto(lay, r)][|out| - len..] == code[Upto(lay, r) - len..Upto(lay, r)];
  }

  /** The displacement of a reference leads to its label and fits a word, as long as the code is not too long. */
  lemma DispWord(al: Bytes, st: St, lay: Lay, r: Ref)
    requires Ready(al, st) && Complete(st, lay) && HasItem(st, r) && ItemOf(st, r).act.RelPC?
    requires FinOf(lay, Ref(|st.items| - 1, |st.items[|st.items| - 1]|)) < 0x8000_0000
    ensures HasItem(st, Target(st, r)) && LabelOf(ItemOf(st, Target(st, r)), ItemOf(st, r).arg)
    ensures Upto(lay, r) + Disp(st, lay, r) == FinOf(lay, Target(st, r))
    ensures -0x8000_0000 <= Disp(st, lay, r) < 0x8000_0000
  {
    hide Ready, Complete, Target, FinOf, ShrOf, Shrink, FinalLen;
    TargetIsLabel(al, st, r);
    FinalBounds(al, st, lay, r);
    FinalBounds(al, st, lay, Target(st, r));
  }

  /** Every branch, short or long, jumps exactly to its label and keeps its condition: the last
      bytes written for it read back as a branch of the same kind to the label's final offset. */
  lemma BranchLands(al: Bytes, st: St, lay: Lay, base: int, code: Bytes, r: Ref)
    requires Ready(al, st) && Complete(st, lay)
    requires HasItem(st, r) && ItemOf(st, r).act.RelPC? && Shrink(ItemOf(st, r).c.op) != 0
    requires Holds(st, lay, base, code, r)
    requires FinOf(lay, Ref(|st.items| - 1, |st.items[|st.items| - 1]|)) < 0x8000_0000
    ensures var op, len := ItemOf(st, r).c.op, BranchLen(ItemOf(st, r).c.op, ShrOf(lay, r));
      var b := ReadBranch(LastBytes(code, Upto(lay, r), len));
      && b.Branch? && b.len == len && b.cond == (if op == 0xe9 then -1 else op % 16)
      && Upto(lay, r) + b.disp == FinOf(lay, Target(st, r))
    ensures HasItem(st, Target(st, r)) && LabelOf(ItemOf(st, Target(st, r)), ItemOf(st, r).arg)
  {
    hide Ready, Complete, Holds, LastBytes, ReadBranch, Code, Target, FinOf, ShrOf, Shaped, Disp, Shrink;
    var it, sh, d := ItemOf(st, r), ShrOf(lay, r), Disp(st, lay, r);
    DispWord(al, st, lay, r);
    HeldShape(st, lay, base, code, r);
    ChosenShrink(st, lay, r);
    if sh != 0 { ShortBranchFits(al, st, lay, r); }
    CodeBranch(it, sh, d, base + FinOf(lay, Target(st, r)), FinOf(lay, Ref(r.s, r.k + 1)) - FinOf(lay, r));
    LastOfHeld(st, lay, base, code, r, BranchLen(it.c.op, sh));
  }

  /** Other relative references, such as that of a call: the last four bytes, read as a signed word, lead from the
      end of the instruction to the label's final offset. */
  lemma RelativeLands(al: Bytes, st: St, lay: Lay, base: int, code: Bytes, r: Ref)
    requires Ready(al, st) && Complete(st, lay)
    requires HasItem(st, r) && ItemOf(st, r).act.RelPC? && Shrink(ItemOf(st, r).c.op) == 0
    requires Holds(st, lay, base, code, r)
    requires FinOf(lay, Ref(|st.items| - 1, |st.items[|st.items| - 1]|)) < 0x8000_0000
    ensures var b := LastBytes(code, Upto(lay, r), 4);
      |b| == 4 && Upto(lay, r) + Signed(Word4(b), 0x8000_0000) == FinOf(lay, Target(st, r))
    ensures HasItem(st, Target(st, r)) && LabelOf(ItemOf(st, Target(st, r)), ItemOf(st, r).arg)
  {
    hide Ready, Complete, Holds, LastBytes, Target, FinOf, Shaped, LE, Word4, Signed, Disp;
    var it, d := ItemOf(st, r), Disp(st, lay, r);
    DispWord(al, st, lay, r);
    HeldShape(st, lay, base, code, r);
    ChosenShrink(st, lay, r);
    LongTail(it.c.run, 0, LE(d, 4));
    assert it.c.run[|it.c.run|..] + LE(d, 4) == LE(d, 4);
    LastOfHeld(st, lay, base, code, r, 4);
    Word4LE(d);
  }

  /** Bytes, low byte first, as a number, and what that many bytes can hold. */
  function Value(b: Bytes): nat {
    if b == [] then 0 else b[0] + 256 * Value(b[1..])
  }

  function Span(len: nat): nat { if len == 0 then 1 else 256 * Span(len - 1) }

  lemma {:induction false} ValueLE(n: int, len: nat)
    requires 0 <= n < Span(len)
    ensures Value(LE(n, len)) == n
    decreases len
  {
    if len > 0 {
      ValueLE(n / 256, len - 1);
      assert LE(n, len)[1..] == LE(n / 256, len - 1);
    }
  }

  lemma EightBytes()
    ensures Span(8) == 0x1_0000_0000_0000_0000
  {
    assert Span(4) == 0x1_0000_0000;
    assert Span(8) == 256 * (256 * (256 * (256 * Span(4))));
  }

  /** A reference by address: the last eight bytes are the address of the label in the placed code. */
  lemma AddressLands(al: Bytes, st: St, lay: Lay, base: int, code: Bytes, r: Ref)
    requires Ready(al, st) && Complete(st, lay)
    requires HasItem(st, r) && ItemOf(st, r).act.ImmPC? && Holds(st, lay, base, code, r)
    requires 0 <= base + FinOf(lay, Target(st, r)) < 0x1_0000_0000_0000_0000
    ensures var b := LastBytes(code, Upto(lay, r), 8);
      |b| == 8 && Value(b) == base + FinOf(lay, Target(st, r))
    ensures HasItem(st, Target(st, r)) && LabelOf(ItemOf(st, Target(st, r)), ItemOf(st, r).arg)
  {
    hide Ready, Complete, Holds, LastBytes, Target, FinOf, Shaped, LE, Value, Span;
    var it, a := ItemOf(st, r), base + FinOf(lay, Target(st, r));
    HeldShape(st, lay, base, code, r);
    TargetIsLabel(al, st, r);
    LongTail(it.c.run, 0, LE(a, 8));
    assert it.c.run[|it.c.run|..] + LE(a, 8) == LE(a, 8);
    LastOfHeld(st, lay, base, code, r, 8);
    EightBytes();
    ValueLE(a, 8);
  }

  lemma HeldShape(st: St, lay: Lay, base: int, code: Bytes, r: Ref)
    requires HasItem(st, r) && Holds(st, lay, base, code, r)
    ensures Shaped(ItemOf(st, r).act, ItemOf(st, r).c)
  {}

  /** A branch is shortened by what its opcode allows, or not at all. */
  lemma ChosenShrink(st: St, lay: Lay, r: Ref)
    requires Complete(st, lay) && HasItem(st, r) && ItemOf(st, r).act.RelPC?
    ensures ShrOf(lay, r) == 0 || ShrOf(lay, r) == Shrink(ItemOf(st, r).c.op)
  {
    hide Complete, Estimate;
    StepAt(st, lay, r);
  }

  function BranchLen(op: U8, sh: int): int {
    if sh != 0 then 2 else if op == 0xe9 then 5 else 6
  }

  /** The run of opcode bytes before item `k`. */
  function RunAt(items: seq<Item>, k: nat): Bytes
    requires k <= |items|
  {
    if k < |items| then items[k].c.run else EndCur(items).run
  }

  /** Every byte of the code belongs to some item's code. */
  lemma {:induction false} Covered(al: Bytes, st: St, lay: Lay, s: nat, k: nat, x: int) returns (r: Ref)
    requires Ready(al, st) && Complete(st, lay) && s < |st.items| && k <= |st.items[s]|
    requires 0 <= x < FinOf(lay, Ref(s, k)) - |RunAt(st.items[s], k)|
    ensures HasItem(st, r) && !IsOpcode(ItemOf(st, r).act) && From(st, lay, r) <= x < Upto(lay, r)
    decreases s, k
  {
    hide Ready, Complete, RunAt, FinOf, FinalLen;
    SameLengths(al, st);
    if k > 0 {
      var q := Ref(s, k - 1);
      RunAfter(al, st, q);
      FinalBounds(al, st, lay, q);
      OpcodeLen(ItemOf(st, q), FinOf(lay, q), ShrOf(lay, q));
      if !IsOpcode(ItemOf(st, q).act) && From(st, lay, q) <= x {
        r := q;
      } else {
        r := Covered(al, st, lay, s, k - 1, x);
      }
    } else if s > 0 {
      SectionJoin(al, st, lay, s);
      r := Covered(al, st, lay, s - 1, |st.items[s - 1]|, x);
    } else {
      SectionZero(al, st, lay);
      assert false;
    }
  }

  lemma OpcodeLen(it: Item, f: int, sh: int)
    ensures IsOpcode(it.act) ==> FinalLen(it, f, sh) == 1
  {}

  lemma RunAfter(al: Bytes, st: St, q: Ref)
    requires Ready(al, st) && HasItem(st, q)
    ensures RunAt(st.items[q.s], q.k) == ItemOf(st, q).c.run
    ensures RunAt(st.items[q.s], q.k + 1) ==
      if IsOpcode(ItemOf(st, q).act) then ItemOf(st, q).c.run + [ItemOf(st, q).act.v] else []
  {
    hide Ready, ItemOk, SlotOk;
    SectionOk(al, st, q.s);
    if q.k + 1 < |st.items[q.s]| { assert Succeeds(st.items[q.s], q.k + 1); }
  }

  lemma SectionOk(al: Bytes, st: St, s: nat)
    requires Ready(al, st) && s < |st.items|
    ensures s < |st.bufs| && SecOk(al, st.items[s], st.bufs[s])
  {
    hide SecOk, MapsOk, LabelsOk;
  }

  lemma SectionJoins(st: St, lay: Lay, s: nat)
    requires Complete(st, lay) && 0 < s < |st.items|
    ensures FinOf(lay, Ref(s, 0)) == FinOf(lay, Ref(s - 1, |st.items[s - 1]|))
  {
    hide StepOk;
    assert Joined(st, lay, s);
  }

  lemma SectionJoin(al: Bytes, st: St, lay: Lay, s: nat)
    requires Ready(al, st) && Complete(st, lay) && 0 < s < |st.items|
    ensures RunAt(st.items[s], 0) == [] == RunAt(st.items[s - 1], |st.items[s - 1]|)
    ensures FinOf(lay, Ref(s, 0)) == FinOf(lay, Ref(s - 1, |st.items[s - 1]|))
  {
    hide Ready, Complete, RunAt, FinOf;
    SectionRuns(al, st, s);
    SectionRuns(al, st, s - 1);
    SectionJoins(st, lay, s);
  }

  lemma SectionRuns(al: Bytes, st: St, s: nat)
    requires Ready(al, st) && s < |st.items|
    ensures RunAt(st.items[s], 0) == [] == RunAt(st.items[s], |st.items[s]|)
  {
    assert SecOk(al, st.items[s], st.bufs[s]);
  }

  lemma SectionZero(al: Bytes, st: St, lay: Lay)
    requires Ready(al, st) && Complete(st, lay)
    ensures FinOf(lay, Ref(0, 0)) == 0
  {}

  /** The layout determines the code: pass 3 has no freedom left. */
  lemma CodeDetermined(al: Bytes, st: St, lay: Lay, base: int, code: seq<int>, code': seq<int>)
    requires Ready(al, st) && Complete(st, lay)
    requires |code| == |code'| == FinOf(lay, Ref(|st.items| - 1, |st.items[|st.items| - 1]|))
    requires forall r :: HasItem(st, r) && !IsOpcode(ItemOf(st, r).act) ==> Holds(st, lay, base, code, r)
    requires forall r :: HasItem(st, r) && !IsOpcode(ItemOf(st, r).act) ==> Holds(st, lay, base, code', r)
    ensures code == code'
  {
    SectionRuns(al, st, |st.items| - 1);
    hide Ready, Complete, FinOf, CodeOf;
    forall x | 0 <= x < |code| ensures code[x] == code'[x] {
      var r := Covered(al, st, lay, |st.items| - 1, |st.items[|st.items| - 1]|, x);
      assert code[x] == code[From(st, lay, r)..Upto(lay, r)][x - From(st, lay, r)];
      assert code'[x] == code'[From(st, lay, r)..Upto(lay, r)][x - From(st, lay, r)];
    }
  }
}
