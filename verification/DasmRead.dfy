/** What the bytes of pass 3 say when they are read back, action by action. */
module DasmRead {
  import opened DasmActions
  import opened DasmLabels
  import opened DasmLayout
  import opened DasmBytes

  // ----- Immediates -----

  /** The bytes from `from` up to `end` are the number `n`, low byte first, in one, two or four bytes. */
  predicate Reads(code: Bytes, from: int, end: int, n: int) {
    && 0 <= from <= end <= |code|
    && (end - from == 1 || end - from == 2 || end - from == 4)
    && Value(code[from..end]) ==
       n % if end - from == 1 then 0x100 else if end - from == 2 then 0x1_0000 else 0x1_0000_0000
  }

  /** The last byte is the number `n`, with a sign. */
  predicate ReadsSigned(code: Bytes, from: int, end: int, n: int) {
    0 <= from && end == from + 1 <= |code| && Signed(code[from], 0x80) == n
  }

  lemma ValueFirst(n: int, len: nat)
    requires len > 0
    ensures Value(LE(n, len)) == n % 256 + 256 * Value(LE(n / 256, len - 1))
  {
    assert LE(n, len)[1..] == LE(n / 256, len - 1);
  }

  lemma ValueTwo(n: int)
    ensures Value(LE(n, 2)) == n % 0x1_0000
  {
    ValueFirst(n, 2);
    ValueFirst(n / 256, 1);
    assert Value(LE(n / 256 / 256, 0)) == 0;
  }

  lemma ValueFour(n: int)
    ensures Value(LE(n, 4)) == n % 0x1_0000_0000
  {
    hide Value, LE;
    var n2 := n / 256 / 256;
    assert n2 == n / 0x1_0000;
    ValueTwo(n);
    ValueTwo(n2);
    FourIsTwo(n, n2);
  }

  lemma FourIsTwo(n: int, n2: int)
    requires n2 == n / 256 / 256
    ensures Value(LE(n, 4)) == Value(LE(n, 2)) + 0x1_0000 * Value(LE(n2, 2))
  {
    hide Value, LE;
    ValueFirst(n, 4);
    ValueFirst(n / 256, 3);
    ValueTwo(n);
  }

  /** What the code of an item ends with, where it stands. */
  lemma Ending(st: St, lay: Lay, base: int, code: Bytes, r: Ref, tail: Bytes)
    requires HasItem(st, r) && Holds(st, lay, base, code, r)
    requires var out := CodeOf(st, lay, base, r); |tail| <= |out| && out[|out| - |tail|..] == tail
    ensures 0 <= Upto(lay, r) - |tail| <= Upto(lay, r) <= |code|
    ensures code[Upto(lay, r) - |tail|..Upto(lay, r)] == tail
  {
    hide CodeOf, FinOf;
    LastOfHeld(st, lay, base, code, r, |tail|);
  }

  /** The bytes of an immediate after the opcode bytes. */
  function ImmBytes(k: ImmKind, n: int): Bytes {
    match k
    case ImmW => LE(n, 2)
    case ImmD => LE(n, 4)
    case ImmWB => if FitsByte(n) then [n % 256] else LE(n, 2)
    case ImmDB => if FitsByte(n) then [n % 256] else LE(n, 4)
    case _ => [n % 256]
  }

  lemma ImmEnding(it: Item, sh: int, disp: int, addr: int, pad: int)
    requires it.act.Imm? && Shaped(it.act, it.c)
    ensures var out, tail := Code(it, sh, disp, addr, pad), ImmBytes(it.act.kind, it.arg);
      |out| == |it.c.run| + |tail| && out[|out| - |tail|..] == tail
  {
    hide LE;
  }

  lemma ImmValue(k: ImmKind, n: int)
    ensures var b := ImmBytes(k, n);
      && (|b| == 1 ==> b == [n % 256] && Value(b) == n % 0x100)
      && (|b| == 2 ==> Value(b) == n % 0x1_0000)
      && (|b| == 4 ==> Value(b) == n % 0x1_0000_0000)
      && |b| == match k
           case ImmW => 2
           case ImmD => 4
           case ImmWB => (if -128 <= n <= 127 then 1 else 2)
           case ImmDB => (if -128 <= n <= 127 then 1 else 4)
           case _ => 1
  {
    hide LE, Value;
    ValueTwo(n);
    ValueFour(n);
    OneByte(n);
  }

  lemma OneByte(n: int)
    ensures Value([n % 256]) == n % 256
  {
    assert [(n % 256) as U8][1..] == [];
  }

  /** An immediate stands right behind the opcode bytes, in the form its action asks for and the shortest that its value
      fits, and reads back as its argument. */
  lemma ImmReads(al: Bytes, st: St, lay: Lay, base: int, code: Bytes, r: Ref)
    requires Ready(al, st) && Complete(st, lay) && HasItem(st, r) && Holds(st, lay, base, code, r)
    requires ItemOf(st, r).act.Imm?
    ensures var k, n, from, end := ItemOf(st, r).act.kind, ItemOf(st, r).arg, FinOf(lay, r), Upto(lay, r);
      && Reads(code, from, end, n)
      && (k.ImmS? ==> ReadsSigned(code, from, end, n))
      && (k.ImmB? ==> end == from + 1 && Value(code[from..end]) == n)
      && (k.ImmW? ==> end == from + 2 && Value(code[from..end]) == n)
      && (k.ImmD? ==> end == from + 4)
      && (k.ImmWB? ==> if -128 <= n <= 127 then ReadsSigned(code, from, end, n)
                       else end == from + 2 && Value(code[from..end]) == n)
      && (k.ImmDB? ==> if -128 <= n <= 127 then ReadsSigned(code, from, end, n) else end == from + 4)
  {
    hide Ready, Complete, Holds, Code, FinOf, LE, Value, ImmBytes, FinalLen, Shaped, ShrOf;
    var it := ItemOf(st, r);
    var k, n, tail := it.act.kind, it.arg, ImmBytes(it.act.kind, it.arg);
    HeldShape(st, lay, base, code, r);
    ImmEnding(it, ShrOf(lay, r), Disp(st, lay, r), base + FinOf(lay, Target(st, r)),
      FinOf(lay, Ref(r.s, r.k + 1)) - FinOf(lay, r));
    Ending(st, lay, base, code, r, tail);
    ImmValue(k, n);
    HeldLength(st, lay, base, code, r);
    ImmRange(al, st, r);
  }

  lemma HeldLength(st: St, lay: Lay, base: int, code: Bytes, r: Ref)
    requires HasItem(st, r) && Holds(st, lay, base, code, r)
    ensures |CodeOf(st, lay, base, r)| == Upto(lay, r) - FinOf(lay, r) + |ItemOf(st, r).c.run|
  {
    hide CodeOf;
  }

  /** Pass 1 has checked the range of an argument. */
  lemma ImmRange(al: Bytes, st: St, r: Ref)
    requires Ready(al, st) && HasItem(st, r) && ItemOf(st, r).act.Imm?
    ensures var k, n := ItemOf(st, r).act.kind, ItemOf(st, r).arg;
      && (k.ImmS? ==> -128 <= n <= 127)
      && (k.ImmB? ==> 0 <= n < 0x100)
      && (k.ImmW? ==> 0 <= n < 0x1_0000)
      && (k.ImmWB? ==> -128 <= n <= 127 || 0 <= n < 0x1_0000)
  {
    hide Readable, ActAt, Shaped, SlotOk;
    SectionOk(al, st, r.s);
  }

  /** A number that one byte, with or without a sign, or two bytes can say. */
  ghost predicate Sayable(k: ImmKind, n: int) {
    match k
    case ImmS => exists v: U8 :: Signed(v, 0x80) == n
    case ImmB => exists v: U8 :: Value([v]) == n
    case ImmW => exists b: Bytes :: |b| == 2 && Value(b) == n
    case ImmWB => (exists v: U8 :: Signed(v, 0x80) == n) || (exists b: Bytes :: |b| == 2 && Value(b) == n)
    case _ => true
  }

  /** Pass 1 refuses an immediate exactly if no bytes of its form say it. */
  lemma RefusedExactly(k: ImmKind, n: int, npc: nat, maxsection: nat)
    ensures ArgOk(Imm(k), n, npc, maxsection) <==> Sayable(k, n)
  {
    hide Value, LE;
    if FitsByte(n) { assert Signed(n % 256, 0x80) == n; }
    if 0 <= n < 256 {
      OneByte(n);
      assert Value([n % 256]) == n;
    }
    if 0 <= n < 0x1_0000 {
      ValueTwo(n);
      assert |LE(n, 2)| == 2 && Value(LE(n, 2)) == n;
    }
    forall v: U8 ensures 0 <= Value([v]) < 256 { OneByte(v); }
    forall b: Bytes | |b| == 2 ensures 0 <= Value(b) < 0x1_0000 { TwoBytes(b); }
  }

  lemma TwoBytes(b: Bytes)
    requires |b| == 2
    ensures Value(b) == b[0] as int + 256 * b[1] as int
  {
    assert Value(b) == b[0] as int + 256 * Value(b[1..]);
    assert Value(b[1..]) == b[1] as int + 256 * Value(b[1..][1..]);
    assert b[1..][1..] == [];
  }

  // ----- Fillings -----

  /** Space is filled with its byte, as often as its argument says. */
  lemma SpaceReads(al: Bytes, st: St, lay: Lay, base: int, code: Bytes, r: Ref, x: int)
    requires Ready(al, st) && Complete(st, lay) && HasItem(st, r) && Holds(st, lay, base, code, r)
    requires ItemOf(st, r).act.Space? && FinOf(lay, r) <= x < Upto(lay, r)
    ensures Upto(lay, r) == FinOf(lay, r) + ItemOf(st, r).arg
    ensures 0 <= x < |code| && code[x] == ItemOf(st, r).act.fill
  {
    hide Ready, Complete, FinOf, Disp;
    var it := ItemOf(st, r);
    FinalBounds(al, st, lay, r);
    HeldLength(st, lay, base, code, r);
    assert code[x] == code[From(st, lay, r)..Upto(lay, r)][x - From(st, lay, r)];
  }

  /** Padding is all no-operations. */
  lemma PaddingReads(al: Bytes, st: St, lay: Lay, base: int, code: Bytes, r: Ref, x: int)
    requires Ready(al, st) && Complete(st, lay) && HasItem(st, r) && Holds(st, lay, base, code, r)
    requires ItemOf(st, r).act.Align? && FinOf(lay, r) <= x < Upto(lay, r)
    ensures 0 <= x < |code| && code[x] == 0x90
  {
    hide Ready, Complete, FinOf, Disp;
    FinalBounds(al, st, lay, r);
    HeldLength(st, lay, base, code, r);
    assert code[x] == code[From(st, lay, r)..Upto(lay, r)][x - From(st, lay, r)];
  }

  // ----- Opcode bytes -----

  /** Byte `j` of the opcode run before item `k` is that of an opcode item, and where it ends up. */
  lemma {:induction false} RunListed(al: Bytes, st: St, lay: Lay, s: nat, k: nat, j: nat)
    requires Ready(al, st) && Complete(st, lay) && s < |st.items| && k < |st.items[s]| && j < |st.items[s][k].c.run|
    ensures var run := st.items[s][k].c.run;
      && |run| <= k
      && var q := k - |run| + j;
         && IsOpcode(st.items[s][q].act) && st.items[s][q].act.v == run[j]
         && FinOf(lay, Ref(s, q)) == FinOf(lay, Ref(s, k)) - |run| + j
    decreases k
  {
    hide Ready, Complete, FinOf, FinalLen, Shrink;
    SameLengths(al, st);
    if k == 0 {
      SectionRuns(al, st, s);
      assert false;
    } else {
      var q := Ref(s, k - 1);
      RunAfter(al, st, q);
      FinalBounds(al, st, lay, q);
      OpcodeLen(ItemOf(st, q), FinOf(lay, q), ShrOf(lay, q));
      if j < |st.items[s][k].c.run| - 1 {
        RunListed(al, st, lay, s, k - 1, j);
      } else if |st.items[s][k].c.run| > 1 {
        RunListed(al, st, lay, s, k - 1, 0);
      }
    }
  }

  /** The next item after an opcode item that is none, and the run between them. */
  lemma {:induction false} NextPlain(al: Bytes, st: St, s: nat, k: nat) returns (e: nat)
    requires Ready(al, st) && s < |st.items| && k < |st.items[s]| && IsOpcode(st.items[s][k].act)
    ensures k < e < |st.items[s]| && !IsOpcode(st.items[s][e].act)
    ensures |st.items[s][e].c.run| == |st.items[s][k].c.run| + e - k
    decreases |st.items[s]| - k
  {
    NotLast(al, st, s, k);
    hide Ready;
    SameLengths(al, st);
    RunAfter(al, st, Ref(s, k));
    e := k + 1;
    if IsOpcode(st.items[s][e].act) {
      e := NextPlain(al, st, s, e);
    }
  }

  /** A section ends with the end of a chunk. */
  lemma NotLast(al: Bytes, st: St, s: nat, k: nat)
    requires Ready(al, st) && s < |st.items| && k < |st.items[s]| && IsOpcode(st.items[s][k].act)
    ensures k + 1 < |st.items[s]|
  {
    hide Inv, AllBound;
  }

  /** The opcode byte that pass 3 patches for a short immediate. */
  predicate Widened(it: Item) {
    it.act.Imm? && (it.act.kind.ImmWB? || it.act.kind.ImmDB?) && -128 <= it.arg <= 127
  }

  lemma OpcodeKept(it: Item, sh: int, disp: int, addr: int, pad: int, j: nat)
    requires Shaped(it.act, it.c) && !IsOpcode(it.act) && j < |it.c.run| && (it.act.RelPC? ==> sh == 0)
    ensures var out := Code(it, sh, disp, addr, pad);
      && |out| >= |it.c.run|
      && out[j] == if Widened(it) && j == |it.c.run| - 2 then (it.c.run[j] as int + 2) % 256 else it.c.run[j]
  {
    hide LE;
  }

  lemma OpcodeShort(it: Item, sh: int, disp: int, addr: int, pad: int, j: nat)
    requires Shaped(it.act, it.c) && it.act.RelPC? && sh == Shrink(it.c.op) != 0
    requires j < |it.c.run| - (if it.c.op == 0xe9 then 1 else 2)
    ensures var out := Code(it, sh, disp, addr, pad); |out| >= |it.c.run| && out[j] == it.c.run[j]
  {
    hide LE;
  }

  /**
   * Every opcode byte stands in the code as listed, but for two kinds: the last but one before an immediate that got
   * its short form is 2 more, and the opcode of a shortened branch is that of the short branch.
   */
  lemma OpcodeReads(al: Bytes, st: St, lay: Lay, base: int, code: Bytes, q: Ref) returns (r: Ref)
    requires Ready(al, st) && Complete(st, lay) && HasItem(st, q) && IsOpcode(ItemOf(st, q).act)
    requires forall p :: HasItem(st, p) && !IsOpcode(ItemOf(st, p).act) ==> Holds(st, lay, base, code, p)
    ensures HasItem(st, r) && r.s == q.s && q.k < r.k && !IsOpcode(ItemOf(st, r).act)
    ensures forall k :: q.k <= k < r.k ==> IsOpcode(st.items[q.s][k].act)
    ensures var x, it := FinOf(lay, q), ItemOf(st, r);
      && 0 <= x < |code|
      && (!it.act.RelPC? || ShrOf(lay, r) == 0 || q.k < r.k - (if it.c.op == 0xe9 then 1 else 2) ==>
            code[x] == if Widened(it) && q.k == r.k - 2 then (ItemOf(st, q).act.v as int + 2) % 256
                       else ItemOf(st, q).act.v)
  {
    hide Ready, Complete, Code, FinOf, ShrOf, Shaped, Shrink, FinalLen;
    SameLengths(al, st);
    var e := NextPlain(al, st, q.s, q.k);
    r := Ref(q.s, e);
    var it := ItemOf(st, r);
    var j := |it.c.run| - (e - q.k);
    RunListed(al, st, lay, q.s, e, j);
    forall k | q.k <= k < e ensures IsOpcode(st.items[q.s][k].act) {
      RunListed(al, st, lay, q.s, e, |it.c.run| - (e - k));
    }
    FinalBounds(al, st, lay, r);
    HeldShape(st, lay, base, code, r);
    HeldLength(st, lay, base, code, r);
    var sh, disp, addr := ShrOf(lay, r), Disp(st, lay, r), base + FinOf(lay, Target(st, r));
    var pad := Upto(lay, r) - FinOf(lay, r);
    if it.act.RelPC? && sh != 0 {
      if j < |it.c.run| - (if it.c.op == 0xe9 then 1 else 2) { OpcodeShort(it, sh, disp, addr, pad, j); }
      ShortLength(it, sh, disp, addr, pad);
    } else {
      OpcodeKept(it, sh, disp, addr, pad, j);
    }
    assert code[From(st, lay, r) + j] == code[From(st, lay, r)..Upto(lay, r)][j];
  }

  lemma ShortLength(it: Item, sh: int, disp: int, addr: int, pad: int)
    requires Shaped(it.act, it.c) && it.act.RelPC? && sh == Shrink(it.c.op) != 0
    ensures |Code(it, sh, disp, addr, pad)| >= |it.c.run|
  {
    hide LE;
  }
}
