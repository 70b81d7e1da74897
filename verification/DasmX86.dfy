/** The three passes of the DynASM x86 engine. */
module DasmX86 {
  import opened DasmActions
  import opened DasmLabels
  import opened DasmGrow
  import opened DasmLayout
  import opened DasmBytes
  import opened DasmEmit

  datatype Status = Ok | RangeI(p: int) | RangeSec(p: int) | RangePC(p: int) | UndefPC(pc: int) | Phase

  class Dasm {
    const actionlist: Bytes
    var bufs: seq<seq<int>>
    var ofss: seq<int>
    var pclabels: seq<int>
    var section: int
    var status: Status
    var codesize: int
    ghost var st: St
    ghost var lay: Lay

    ghost predicate Mirrors()
      reads this
    {
      st.bufs == bufs && st.pcl == pclabels && Inv(actionlist, st)
    }

    /** The state between two calls of pass 1. */
    ghost predicate Valid()
      reads this
    {
      && Mirrors()
      && status == Ok
      && |ofss| == |bufs|
      && 0 <= section < |bufs|
      && forall s :: 0 <= s < |bufs| ==> Closed(st.items[s]) && ofss[s] == EndCur(st.items[s]).pess
    }

    constructor (al: Bytes, maxsection: int, npc: nat)
      requires 1 <= maxsection <= MAXSECTIONS
      ensures Valid() && actionlist == al && section == 0
      ensures st.items == seq(maxsection, _ => []) && |pclabels| == npc
    {
      actionlist := al;
      bufs := seq(maxsection, _ => []);
      ofss := seq(maxsection, _ => 0);
      pclabels := seq(npc, _ => 0);
      section, status, codesize := 0, Ok, 0;
      st := St(seq(maxsection, _ => []), seq(npc, _ => 0), seq(maxsection, _ => []), seq(npc, _ => []), map[], map[]);
    }

    /** Append plain slots for an item that is no label and no reference. */
    method PutPlain(s: int, slots: seq<int>, ghost it: Item)
      requires Mirrors() && Follows(actionlist, st, s, it, slots)
      requires !IsRef(it.act) && !it.act.LabelPC?
      modifies this`bufs, this`st
      ensures Mirrors() && st == Grown(old(st), s, it, slots)
    {
      AddPlain(actionlist, st, s, it, slots);
      bufs := bufs[s := bufs[s] + slots];
      st := Grown(st, s, it, slots);
    }

    /** putrel: store the label's position, or link the slot into the label's chain. */
    method PutRef(s: int, l: int, est: seq<int>, ghost it: Item)
      requires Mirrors() && 0 <= l < |pclabels| && it.arg == l && IsRef(it.act)
      requires Follows(actionlist, st, s, it, [if pclabels[l] < 0 then -pclabels[l] else pclabels[l]] + est)
      modifies this`bufs, this`pclabels, this`st
      ensures Mirrors()
      ensures st == Chained(old(st), s, it,
        [if old(pclabels)[l] < 0 then -old(pclabels)[l] else old(pclabels)[l]] + est)
    {
      hide Inv, Follows;
      ghost var slots := [if pclabels[l] < 0 then -pclabels[l] else pclabels[l]] + est;
      FollowsAt(actionlist, st, s, it, slots);
      AddRef(actionlist, st, s, it, slots);
      st := Chained(st, s, it, slots);
      var n := pclabels[l];
      if n < 0 {
        bufs := bufs[s := bufs[s] + ([-n] + est)];
      } else {
        pclabels := pclabels[l := Pos(s, |bufs[s]|)];
        bufs := bufs[s := bufs[s] + ([n] + est)];
      }
    }

    /** putlabel: collapse the label's chain into its position; the label exists now. */
    method PutLabel(s: int, l: int, ofs: int, ghost it: Item) returns (ghost done: seq<seq<int>>)
      requires Mirrors() && 0 <= l < |pclabels| && it.arg == l && it.act.LabelPC? && it.c.pess == ofs
      requires Follows(actionlist, st, s, it, [ofs])
      modifies this`bufs, this`pclabels, this`st
      ensures Mirrors() && |done| == |old(bufs)|
      ensures Collapsed(old(st), done, l, |old(st).pend[l]|, Pos(s, |old(bufs)[s]|))
      ensures st == Defined(old(st), done, s, it)
    {
      hide Inv, ItemOk, SlotOk, EndCur, IsTerm, Collapsed;
      var pos := Pos(s, |bufs[s]|);
      var n := pclabels[l];
      ghost var st0, c := st, 0;
      FollowsAt(actionlist, st0, s, it, [ofs]);
      ChainStarts(actionlist, st0, l, pos);
      ghost var ch := st0.pend[l];
      while n > 0
        invariant 0 <= c <= |ch|
        invariant if c < |ch| then n == ch[c] else n <= 0
        invariant Collapsed(st0, bufs, l, c, pos)
        decreases |ch| - c
        modifies this`bufs
      {
        ChainStep(actionlist, st0, bufs, l, c, pos);
        var t, i := PosSec(n), PosIdx(n);
        n := bufs[t][i];
        bufs := bufs[t := bufs[t][i := pos]];
        c := c + 1;
      }
      if c < |ch| {
        ChainStep(actionlist, st0, bufs, l, c, pos);
      }
      done := bufs;
      CollapsedSizes(st0, done, l, |ch|, pos);
      AddLabel(actionlist, st0, done, s, it);
      st := Defined(st0, done, s, it);
      pclabels := pclabels[l := -pos];
      bufs := bufs[s := bufs[s] + [ofs]];
    }

    /** Pass 1, actions with a plain argument. */
    method PutArg(s: int, p: int, ofs: int, n: int, ghost args: seq<int>, ghost base: seq<seq<Item>>,
                  ghost chunk: seq<Item>) returns (p': int, ofs': int)
      requires Mirrors() && status == Ok && Putting(actionlist, st, s, args, base, chunk)
      requires EndCur(st.items[s]).p == p && EndCur(st.items[s]).pess == ofs
      requires var a := ActAt(actionlist, p); a.Imm? || a.Space?
      requires n == args[0]
      modifies this`bufs, this`st, this`status
      ensures var it := HeadItem(actionlist, EndCur(old(st).items[s]), args);
        && status == (if ArgOk(it.act, it.arg, |old(st).pcl|, |old(st).bufs|) then Ok else ErrorOf(it))
        && (status != Ok ==> bufs == old(bufs) && pclabels == old(pclabels))
        && (status == Ok ==> Mirrors() && Took(old(st), st, s, it) && p' == Next(it).p && ofs' == Next(it).pess)
    {
      hide Inv, Putting, Follows, Took, Shaped;
      HeadArg(actionlist, st, s, args, base, chunk);
      ghost var it := HeadItem(actionlist, EndCur(st.items[s]), args);
      var len := 0;
      p', ofs' := p + 1, ofs;
      match actionlist[p] {
        case 234 => if !FitsByte(n) { status := RangeI(p); return; } len := 1;
        case 235 => if n < 0 || 256 <= n { status := RangeI(p); return; } len := 1;
        case 236 => if n < 0 || 65536 <= n { status := RangeI(p); return; } len := 2;
        case 237 => len := 4;
        case 238 =>
          if FitsByte(n) {
            len := 1;
          } else {
            if n < 0 || 65536 <= n { status := RangeI(p); return; }
            len := 2;
          }
        case 239 => len := if FitsByte(n) then 1 else 4;
        case _ => p' := p + 2; len := n;
      }
      ofs' := ofs + len;
      HeadFollows(actionlist, st, s, args, base, chunk, [n]);
      ghost var st0 := st;
      PutPlain(s, [n], it);
      TookGrown(actionlist, st0, s, it, [n]);
    }

    /** Pass 1, references and labels. */
    method PutLabelled(s: int, p: int, ofs: int, l: int, ghost args: seq<int>, ghost base: seq<seq<Item>>,
                       ghost chunk: seq<Item>) returns (ofs': int)
      requires Mirrors() && status == Ok && Putting(actionlist, st, s, args, base, chunk)
      requires EndCur(st.items[s]).p == p && EndCur(st.items[s]).pess == ofs
      requires var a := ActAt(actionlist, p); IsRef(a) || a.LabelPC?
      requires l == args[0]
      modifies this`bufs, this`pclabels, this`st, this`status
      ensures var it := HeadItem(actionlist, EndCur(old(st).items[s]), args);
        && status == (if ArgOk(it.act, it.arg, |old(st).pcl|, |old(st).bufs|) then Ok else ErrorOf(it))
        && (status != Ok ==> bufs == old(bufs) && pclabels == old(pclabels))
        && (status == Ok ==> Mirrors() && Took(old(st), st, s, it) && p + 1 == Next(it).p && ofs' == Next(it).pess)
    {
      hide Inv, Putting, Follows, Took, Shaped;
      HeadArg(actionlist, st, s, args, base, chunk);
      ghost var st0 := st;
      EntriesOf(actionlist, st0);
      ghost var it := HeadItem(actionlist, EndCur(st.items[s]), args);
      ofs' := ofs;
      if l < 0 || |pclabels| <= l {
        status := RangePC(p);
        return;
      }
      var n := pclabels[l];
      n := if n < 0 then -n else n;
      if actionlist[p] == LABEL_PC {
        HeadFollows(actionlist, st, s, args, base, chunk, [ofs]);
        ghost var done := PutLabel(s, l, ofs, it);
        TookDefined(actionlist, st0, done, s, it, Pos(s, |st0.bufs[s]|));
      } else if actionlist[p] == REL_PC {
        ofs' := ofs + 4;
        HeadFollows(actionlist, st, s, args, base, chunk, [n] + [ofs']);
        PutRef(s, l, [ofs'], it);
        TookChained(actionlist, st0, s, it, [n] + [ofs']);
      } else {
        ofs' := ofs + 8;
        HeadFollows(actionlist, st, s, args, base, chunk, [n] + []);
        PutRef(s, l, [], it);
        TookChained(actionlist, st0, s, it, [n] + []);
      }
    }

    /** Pass 1, actions without an argument. */
    method PutFixed(s: int, p: int, ofs: int, ghost args: seq<int>, ghost base: seq<seq<Item>>, ghost chunk: seq<Item>)
      returns (p': int, ofs': int)
      requires Mirrors() && status == Ok && Putting(actionlist, st, s, args, base, chunk)
      requires EndCur(st.items[s]).p == p && EndCur(st.items[s]).pess == ofs
      requires !TakesArg(ActAt(actionlist, p))
      modifies this`bufs, this`st, this`status
      ensures var it := HeadItem(actionlist, EndCur(old(st).items[s]), args);
        && status == (if ArgOk(it.act, it.arg, |old(st).pcl|, |old(st).bufs|) then Ok else ErrorOf(it))
        && (status != Ok ==> bufs == old(bufs) && pclabels == old(pclabels))
        && (status == Ok ==> Mirrors() && Took(old(st), st, s, it) && p' == Next(it).p && ofs' == Next(it).pess)
        && (status == Ok && it.act.Section? ==> it.act.n < |bufs|)
    {
      ghost var it := HeadItem(actionlist, EndCur(st.items[s]), args);
      var action := actionlist[p];
      p', ofs' := p + 1, ofs;
      var slots := [];
      if action < DISP {
        ofs' := ofs + 1;
      } else if action == ESC {
        p', ofs' := p + 2, ofs + 1;
      } else if action == ALIGN {
        p', ofs' := p + 2, ofs + actionlist[p + 1];
        slots := [ofs'];
      } else if action == SECTION {
        if actionlist[p + 1] >= |bufs| { status := RangeSec(p); return; }
        p' := p + 2;
      }
      HeadFollows(actionlist, st, s, args, base, chunk, slots);
      PutPlain(s, slots, it);
    }

    /** Inside a call of pass 1: action `p` comes next in section `s`. */
    ghost predicate At(s: int, p: int, ofs: int, args: seq<int>, base: seq<seq<Item>>, chunk: seq<Item>)
      reads this
    {
      && Mirrors() && status == Ok
      && Putting(actionlist, st, s, args, base, chunk)
      && EndCur(st.items[s]).p == p && EndCur(st.items[s]).pess == ofs
    }

    /** A call of pass 1 is through: section `s` has got all of `chunk`. */
    ghost predicate Done(s: int, ofs: int, base: seq<seq<Item>>, chunk: seq<Item>)
      reads this
    {
      && Mirrors() && status == Ok
      && 0 <= s < |base| && 0 <= section < |bufs|
      && st.items == base[s := base[s] + chunk]
      && section == Onward(st.items[s], s)
      && Closed(st.items[s]) && EndCur(st.items[s]).pess == ofs
      && Accepted(chunk, |pclabels|, |bufs|)
    }

    /** Pass 1, one action. */
    method PutAction(s: int, p: int, ofs: int, va: nat, args: seq<int>, ghost base: seq<seq<Item>>,
                     ghost chunk: seq<Item>) returns (p': int, ofs': int, va': nat, stop: bool)
      requires va <= |args| && At(s, p, ofs, args[va..], base, chunk) && section == s
      modifies this`bufs, this`pclabels, this`st, this`status, this`section
      ensures |bufs| == |old(bufs)| && |pclabels| == |old(pclabels)| && p < p' && p < |actionlist|
      ensures status != Ok ==> FirstError(chunk, |pclabels|, |bufs|, status)
      ensures status == Ok ==>
        if stop then Done(s, ofs', base, chunk)
        else section == s && va' <= |args| && At(s, p', ofs', args[va'..], base, chunk)
    {
      ghost var st0, rest := st, args[va..];
      HeadKind(actionlist, st, s, rest, base, chunk);
      var action := actionlist[p];
      p', ofs', va', stop := p + 1, ofs, va, action == SECTION || action == STOP;
      if DISP <= action <= REL_A {
        p', ofs' := PutArg(s, p, ofs, args[va], rest, base, chunk);
        va' := va + 1;
      } else if action in {REL_PC, IMM_PC, LABEL_PC} {
        ofs' := PutLabelled(s, p, ofs, args[va], rest, base, chunk);
        va' := va + 1;
      } else {
        p', ofs' := PutFixed(s, p, ofs, rest, base, chunk);
      }
      if status == Ok {
        HeadTaken(actionlist, st0, st, s, rest, base, chunk);
        if action == SECTION { section := actionlist[p' - 1]; }
      } else {
        RejectedHead(actionlist, st0, s, rest, base, chunk);
        p' := p + 1;
      }
    }

    /** Pass 1, all actions of a chunk. */
    method PutActions(s: int, start: int, ofs0: int, args: seq<int>, ghost base: seq<seq<Item>>,
                      ghost chunk: seq<Item>) returns (ofs: int)
      requires At(s, start, ofs0, args, base, chunk) && section == s
      modifies this`bufs, this`pclabels, this`st, this`status, this`section
      ensures |bufs| == |old(bufs)| && |pclabels| == |old(pclabels)|
      ensures if status == Ok then Done(s, ofs, base, chunk) else FirstError(chunk, |pclabels|, |bufs|, status)
    {
      hide Inv, Putting, Accepted, FirstError;
      var p, va, stop := start, 0, false;
      ofs := ofs0;
      assert args[0..] == args;
      while !stop
        invariant |bufs| == |old(bufs)| && |pclabels| == |old(pclabels)|
        invariant if stop then Done(s, ofs, base, chunk)
                  else section == s && 0 <= va <= |args| && At(s, p, ofs, args[va..], base, chunk)
        decreases !stop, |actionlist| - p
      {
        p, ofs, va, stop := PutAction(s, p, ofs, va, args, base, chunk);
        if status != Ok { return; }
      }
    }

    /** Pass 1: store actions and arguments, link labels, count pessimistic offsets. */
    method Put(start: int, args: seq<int>)
      requires Valid()
      requires ChunkOk(actionlist, Next(FirstItem(start)), args)
      requires |bufs[section]| + SlotCount(NewItems(start, args)) < SEC
      modifies this
      ensures status == Ok <==> old(Accepted(NewItems(start, args), |pclabels|, |bufs|))
      ensures status != Ok ==> FirstError(old(NewItems(start, args)), old(|pclabels|), old(|bufs|), status)
      ensures status == Ok ==>
        && Valid()
        && st.items == old(st.items[section := st.items[section] + NewItems(start, args)])
        && |pclabels| == |old(pclabels)|
        && section == old(Onward(NewItems(start, args), section))
    {
      hide SecOk, MapsOk, LabelsOk, ChunkOk, FirstError, Next, Putting, Accepted, SlotCount, Chunk, Follows;
      var s := section;
      ghost var chunk, base := NewItems(start, args), st.items;
      Begin(actionlist, st, s, start, args);
      PutPlain(s, [start], FirstItem(start));
      ghost var ofss0 := ofss;
      var ofs := PutActions(s, start, ofss[s], args, base, chunk);
      ofss := ofss[s := ofs];
      if status != Ok {
        NotAccepted(chunk, |pclabels|, |bufs|, status);
      } else {
        forall t | 0 <= t < |bufs| ensures Closed(st.items[t]) && ofss[t] == EndCur(st.items[t]).pess {
          assert Closed(base[t]) && ofss0[t] == EndCur(base[t]).pess;
        }
      }
    }

    /** Inside pass 2, before item `k` of section `s`. */
    ghost predicate Linking(s: nat, k: nat)
      reads this
    {
      && Ready(actionlist, st) && |ofss| == |st.items|
      && (forall i :: 0 <= i < |ofss| ==> ofss[i] == EndCur(st.items[i]).pess)
      && Laid(st, lay, s, k) && BufsAt(st, bufs, lay, s, k)
    }

    /** Forward label: add cumulative section offsets. */
    method AddSections(s: nat, e: nat, lofs0: int) returns (lofs: int)
      requires s <= e <= |st.items| == |ofss|
      requires forall i :: 0 <= i < |ofss| ==> ofss[i] == EndCur(st.items[i]).pess
      ensures lofs == lofs0 + Base(st.items, e) - Base(st.items, s)
    {
      lofs := lofs0;
      for i := s to e
        invariant lofs == lofs0 + Base(st.items, i) - Base(st.items, s)
      {
        lofs := lofs + ofss[i];
      }
    }

    /** Pass 2, the estimate for a branch with a shrinkable opcode. */
    method EstimateRel(s: nat, at: nat, ofs: int, ghost k: nat) returns (lofs: int)
      requires Linking(s, k) && k < |st.items[s]| && st.items[s][k].act.RelPC?
      requires at == st.items[s][k].c.at && ofs == lay.fin[s][k] - st.items[s][k].c.pess
      ensures lofs == Estimate(st, lay, Ref(s, k))
    {
      hide Ready, StepOk, Joined, BufsAt, Target, Base, EndCur, SlotOf;
      ghost var r := Ref(s, k);
      EndLengths(st, bufs, lay, s, k);
      LabelRead(actionlist, st, bufs, lay, r);
      TargetIsLabel(actionlist, st, r);
      ghost var t := Target(st, r);
      var lpos := bufs[s][at];
      lofs := bufs[PosSec(lpos)][PosIdx(lpos)];
      if lpos > Pos(s, at) {
        lofs := AddSections(s, PosSec(lpos), lofs);
      } else {
        lofs := lofs - ofs;
      }
      lofs := lofs - bufs[s][at + 1];
    }

    /** Pass 2, how far branch `k` is shortened. */
    method ShrinkRel(s: nat, at: nat, op: U8, ofs: int, ghost k: nat) returns (shrink: int)
      requires Linking(s, k) && k < |st.items[s]| && st.items[s][k].act.RelPC?
      requires var c := st.items[s][k].c; at == c.at && op == c.op && ofs == lay.fin[s][k] - c.pess
      ensures shrink == Choice(st, lay, Ref(s, k))
    {
      shrink := Shrink(op);
      if shrink != 0 {
        var lofs := EstimateRel(s, at, ofs, k);
        hide Estimate;
        if !(lofs >= -128 - shrink && lofs <= 127) { shrink := 0; }
      }
    }

    /** Pass 2, what one action does to its slots and to the running offset. */
    method LinkSlots(s: nat, at: nat, p: int, op: U8, ofs: int, ghost k: nat)
      returns (buf: seq<int>, at': nat, p': int, op': U8, ofs': int, stop: bool)
      requires Linking(s, k) && k < |st.items[s]| && !st.items[s][k].act.Start?
      requires var c := st.items[s][k].c; at == c.at && p == c.p && op == c.op && ofs == lay.fin[s][k] - c.pess
      ensures |buf| == |bufs[s]|
      ensures var it, sh := st.items[s][k], Choice(st, lay, Ref(s, k));
        && (forall i :: 0 <= i < |buf| && !(it.c.at <= i < it.c.at + Slots(it.act)) ==> buf[i] == bufs[s][i])
        && ItemDone(it, st.bufs[s], buf, lay.fin[s][k], sh)
        && (stop <==> IsTerm(it.act)) && p < p' <= |actionlist|
        && at' == Next(it).at && op' == Next(it).op && (!stop ==> p' == Next(it).p)
        && ofs' == lay.fin[s][k] + FinalLen(it, lay.fin[s][k], sh) - Next(it).pess
    {
      hide Ready, BufsAt, StepOk, Joined, Choice, EndCur, Base, Shaped;
      ItemFacts(actionlist, st, bufs, lay, s, k);
      ghost var it := st.items[s][k];
      var action := actionlist[p];
      var shrink := 0;
      if action == REL_PC {
        shrink := ShrinkRel(s, at, op, ofs, k);
      }
      NotRel(st, lay, Ref(s, k));
      buf, at', p', op', ofs', stop := bufs[s], at, p + 1, op, ofs, action == SECTION || action == STOP;
      if action == REL_PC {
        ofs' := ofs - shrink;
        buf := buf[at + 1 := shrink];
        at' := at + 2;
      } else if action == LABEL_PC {
        buf := buf[at := buf[at] + ofs];
        at' := at + 1;
      } else if action == ALIGN {
        var mask: int := actionlist[p + 1];
        ofs' := ofs - (buf[at] + ofs) % (mask + 1);
        at', p' := at + 1, p + 2;
      } else if action == SPACE {
        at', p' := at + 1, p + 2;
      } else if action == ESC {
        op', p' := actionlist[p + 1], p + 2;
      } else if action < DISP {
        op' := action;
      } else if !stop {
        at' := at + 1;
      }
    }

    /** Pass 2, one action. */
    method LinkAction(s: nat, at: nat, p: int, op: U8, ofs: int, ghost k: nat)
      returns (at': nat, p': int, op': U8, ofs': int, stop: bool)
      requires Linking(s, k) && k < |st.items[s]| && !st.items[s][k].act.Start?
      requires var c := st.items[s][k].c; at == c.at && p == c.p && op == c.op && ofs == lay.fin[s][k] - c.pess
      modifies this`bufs, this`lay
      ensures Linking(s, k + 1) && |lay.fin[s]| == k + 2
      ensures var it := st.items[s][k];
        && (stop <==> IsTerm(it.act)) && p < p' <= |actionlist|
        && at' == Next(it).at && op' == Next(it).op && (!stop ==> p' == Next(it).p)
        && ofs' == lay.fin[s][k + 1] - Next(it).pess
    {
      var buf;
      buf, at', p', op', ofs', stop := LinkSlots(s, at, p, op, ofs, k);
      BufsStep(actionlist, st, bufs, lay, s, k, buf);
      ExtendLaid(actionlist, st, lay, s, k);
      hide Ready, BufsAt, Choice, FinalLen, Next, StepOk;
      bufs := bufs[s := buf];
      lay := Extend(st, lay, s, k);
    }

    /** Pass 2, the first slot of a chunk. */
    method LinkStart(s: nat, at: nat, ghost k: nat) returns (p: int)
      requires Linking(s, k) && k < |st.items[s]| && st.items[s][k].act.Start? && at == st.items[s][k].c.at
      modifies this`lay
      ensures Linking(s, k + 1) && |lay.fin[s]| == k + 2 && lay.fin[s][k + 1] == old(lay).fin[s][k]
      ensures p == st.items[s][k].arg && at < |bufs[s]|
    {
      StartFacts(actionlist, st, bufs, lay, s, k);
      p := bufs[s][at];
      BufsStep(actionlist, st, bufs, lay, s, k, bufs[s]);
      ExtendLaid(actionlist, st, lay, s, k);
      NotRel(st, lay, Ref(s, k));
      hide Ready, BufsAt, Choice, StepOk;
      assert bufs == bufs[s := bufs[s]];
      lay := Extend(st, lay, s, k);
    }

    /** Pass 2, the actions of one chunk. */
    method LinkChunk(s: nat, at0: nat, p0: int, ofs0: int, ghost k0: nat) returns (at: nat, ofs: int, ghost k: nat)
      requires Linking(s, k0) && 0 < k0 < |st.items[s]| && st.items[s][k0 - 1].act.Start?
      requires Cur(p0, at0, ofs0, 0, []) == Next(st.items[s][k0 - 1]).(pess := ofs0)
      requires ofs0 == lay.fin[s][k0] - PessAt(st.items[s], k0)
      modifies this`bufs, this`lay
      ensures k0 < k <= |st.items[s]| && Linking(s, k)
      ensures k < |st.items[s]| ==> st.items[s][k].act.Start?
      ensures at == Next(st.items[s][k - 1]).at && ofs == lay.fin[s][k] - PessAt(st.items[s], k)
    {
      hide Ready, BufsAt, Next, StepOk, Joined, Base;
      var p, op, stop := p0, 0, false;
      at, ofs, k := at0, ofs0, k0;
      ItemAfter(actionlist, st, s, k - 1);
      while !stop
        invariant Linking(s, k) && k0 <= k <= |st.items[s]| && (stop ==> k0 < k)
        invariant if stop then k < |st.items[s]| ==> st.items[s][k].act.Start?
                  else k < |st.items[s]| && !st.items[s][k].act.Start? && st.items[s][k].c == Next(st.items[s][k - 1])
        invariant at == Next(st.items[s][k - 1]).at && op == Next(st.items[s][k - 1]).op
        invariant !stop ==> p == Next(st.items[s][k - 1]).p
        invariant ofs == lay.fin[s][k] - PessAt(st.items[s], k)
        decreases !stop, |st.items[s]| - k
      {
        at, p, op, ofs, stop := LinkAction(s, at, p, op, ofs, k);
        k := k + 1;
        ItemAfter(actionlist, st, s, k - 1);
      }
    }

    /** Pass 2, one section. */
    method LinkSection(s: nat, ofs0: int) returns (ofs: int)
      requires Linking(s, 0) && ofs0 == lay.fin[s][0]
      modifies this`bufs, this`lay
      ensures Linking(s, |st.items[s]|)
      ensures ofs == lay.fin[s][|st.items[s]|] - EndCur(st.items[s]).pess
    {
      hide Ready, BufsAt, Next, StepOk, Joined, Base;
      SectionStart(actionlist, st, s);
      EndLengths(st, bufs, lay, s, 0);
      var at, lastpos := 0, |bufs[s]|;
      ofs := ofs0;
      ghost var k := 0;
      while at != lastpos
        invariant Linking(s, k) && k <= |st.items[s]|
        invariant k < |st.items[s]| ==> st.items[s][k].act.Start? && at == st.items[s][k].c.at < lastpos
        invariant k == |st.items[s]| ==> at == lastpos
        invariant ofs == lay.fin[s][k] - PessAt(st.items[s], k)
        decreases |st.items[s]| - k
      {
        ItemAfter(actionlist, st, s, k);
        var p := LinkStart(s, at, k);
        at, ofs, k := LinkChunk(s, at + 1, p, ofs, k + 1);
        ItemAfter(actionlist, st, s, k - 1);
      }
    }

    /** The state after a successful pass 2. */
    ghost predicate Linked()
      reads this
    {
      && |st.items| > 0 && status == Ok && st.pcl == pclabels
      && Linking(|st.items| - 1, |st.items[|st.items| - 1]|)
      && codesize == FinOf(lay, Ref(|st.items| - 1, |st.items[|st.items| - 1]|))
    }

    /** Pass 2, one section and the step to the next. */
    method LinkOne(s: nat, ofs0: int) returns (ofs: int)
      requires Linking(s, 0) && ofs0 == lay.fin[s][0]
      modifies this`bufs, this`lay
      ensures if s + 1 < |st.items| then Linking(s + 1, 0) && ofs == lay.fin[s + 1][0]
              else Linking(s, |st.items[s]|) && ofs == lay.fin[s][|st.items[s]|]
    {
      hide Ready, BufsAt, Base, StepOk, Joined;
      ofs := LinkSection(s, ofs0);
      ofs := ofs + ofss[s];
      if s + 1 < |ofss| {
        NextRowLaid(actionlist, st, lay, s);
        BufsNext(st, bufs, lay, s);
        lay := NextRow(st, lay, s);
      }
    }

    /** Pass 2, all sections, one right after the other. */
    method LinkSections() returns (ofs: int)
      requires Ready(actionlist, st) && |st.items| > 0 && |ofss| == |st.items| && st.bufs == bufs
      requires forall i :: 0 <= i < |ofss| ==> ofss[i] == EndCur(st.items[i]).pess
      modifies this`bufs, this`lay
      ensures Linking(|st.items| - 1, |st.items[|st.items| - 1]|)
      ensures ofs == FinOf(lay, Ref(|st.items| - 1, |st.items[|st.items| - 1]|))
    {
      hide Ready, BufsAt, EndCur, StepOk, Inv;
      SameLengths(actionlist, st);
      ReadyInv(actionlist, st);
      StartBufs(actionlist, st);
      lay := Lay([[0]], [[]]);
      ofs := 0;
      var s := 0;
      while s < |bufs|
        decreases |st.items| - s
        invariant 0 <= s <= |ofss| == |st.items| == |bufs|
        invariant if s < |ofss| then Linking(s, 0) && ofs == lay.fin[s][0]
                  else Linking(s - 1, |st.items[s - 1]|) && ofs == lay.fin[s - 1][|st.items[s - 1]|]
      {
        ofs := LinkOne(s, ofs);
        if s + 1 < |ofss| {
          EndLengths(st, bufs, lay, s + 1, 0);
        } else {
          EndLengths(st, bufs, lay, s, |st.items[s]|);
        }
        s := s + 1;
      }
    }

    /** Pass 2: link sections, shrink branches and alignments, fix label offsets. */
    method Link() returns (sz: int, res: Status)
      requires status == Ok ==> Valid()
      modifies this`bufs, this`lay, this`codesize
      ensures res == Ok <==> status == Ok && forall l :: Referenced(st.items, l) ==> Labelled(st.items, l)
      ensures res == Ok ==> Linked() && sz == codesize
      ensures res != Ok ==> sz == 0 && bufs == old(bufs)
      ensures status == Ok && res != Ok ==>
        && res.UndefPC? && 0 <= res.pc < |pclabels|
        && Referenced(st.items, res.pc) && !Labelled(st.items, res.pc)
        && forall l :: 0 <= l < res.pc && Referenced(st.items, l) ==> Labelled(st.items, l)
    {
      hide AllBound, BufsAt, Laid, SecOk, MapsOk, LabelsOk, Referenced, Labelled;
      if status != Ok { return 0, status; }
      for pc := 0 to |pclabels|
        invariant bufs == old(bufs) && forall l :: 0 <= l < pc ==> pclabels[l] <= 0
        invariant forall l :: 0 <= l < pc && Referenced(st.items, l) ==> Labelled(st.items, l)
      {
        TableSays(actionlist, st, pc);
        if pclabels[pc] > 0 { return 0, UndefPC(pc); }
      }
      NoneOpen(actionlist, st);
      forall l | Referenced(st.items, l) ensures Labelled(st.items, l) { InTable(actionlist, st, l); }
      codesize := LinkSections();
      return codesize, Ok;
    }

    /** Offset of a PC label. */
    method GetPcLabel(pc: int) returns (ofs: int)
      requires Linked()
      ensures if pc < 0 || |pclabels| <= pc || pclabels[pc] == 0 then ofs == -2
              else if pclabels[pc] > 0 then ofs == -1
              else IsLabel(st, -pclabels[pc], pc) && ofs == FinOf(lay, st.labAt[-pclabels[pc]])
      ensures Labelled(st.items, pc) <==> 0 <= pc < |pclabels| && pclabels[pc] < 0
      ensures !Labelled(st.items, pc) ==> ofs == -2
    {
      hide Ready, Laid, BufsAt, Labelled, Referenced;
      PutOrUnused(actionlist, st, pc);
      if 0 <= pc < |pclabels| {
        var pos := pclabels[pc];
        if pos < 0 {
          LabelSlot(actionlist, st, bufs, lay, pc);
          return bufs[PosSec(-pos)][PosIdx(-pos)];
        }
        if pos > 0 { return -1; }
      }
      return -2;
    }

    /** Pass 3, the bytes of one action. */
    method EncodeBytes(buffer: array<U8>, base: int, s: nat, at: nat, p: int, cp: nat, ghost it: Item,
                       ghost sh: int, ghost tfin: int) returns (cp': nat)
      requires Reads(actionlist, bufs, s, it, sh, tfin) && at == it.c.at && p == it.c.p
      requires FinalLen(it, cp, sh) >= 0 && Room(buffer, cp, it, FinalLen(it, cp, sh))
      modifies buffer
      ensures cp' == cp + FinalLen(it, cp, sh) && var lo := cp - |it.c.run|;
        && buffer[..lo] == old(buffer[..lo])
        && buffer[lo..cp'] == if IsOpcode(it.act) then it.c.run + [it.act.v]
                              else Code(it, sh, tfin - cp', base + tfin, cp' - cp)
    {
      hide Code, Shaped, Pad, FitsByte;
      ghost var lo := cp - |it.c.run|;
      ghost var end := cp + FinalLen(it, cp, sh);
      ghost var disp, addr, pad := tfin - end, base + tfin, end - cp;
      var action := actionlist[p];
      cp' := cp;
      if action == REL_PC {
        var lpos := bufs[s][at];
        cp' := EmitRel(buffer, cp, bufs[PosSec(lpos)][PosIdx(lpos)], bufs[s][at + 1], it, addr, pad);
      } else if action == IMM_PC {
        var lpos := bufs[s][at];
        cp' := EmitAddr(buffer, cp, base + bufs[PosSec(lpos)][PosIdx(lpos)], it, disp, pad);
      } else if IMM_S <= action <= IMM_DB {
        cp' := EmitImm(buffer, cp, bufs[s][at], action, it, disp, addr, pad);
      } else if action == SPACE {
        cp' := EmitSpace(buffer, cp, bufs[s][at], actionlist[p + 1], it, disp, addr, pad);
      } else if action == ALIGN {
        cp' := EmitAlign(buffer, cp, actionlist[p + 1], it, disp, addr);
      } else if action == ESC {
        cp' := EmitOpcode(buffer, cp, actionlist[p + 1], it);
      } else if action < DISP {
        cp' := EmitOpcode(buffer, cp, action, it);
      } else {
        NoCode(it, disp, addr, pad);
      }
    }

    lemma LinkedComplete()
      requires Linked()
      ensures Complete(st, lay) && Ready(actionlist, st) && |st.bufs| == |st.items|
    {
      hide Ready, Laid, BufsAt, FinOf;
      SameLengths(actionlist, st);
    }

    /** Inside pass 3, before item `k` of section `s`, with `cp` bytes written. */
    ghost predicate Encoding(buffer: array<U8>, base: int, s: nat, k: nat, cp: int)
      reads this, buffer
    {
      && Linked() && buffer.Length == codesize && s < |st.items| && k <= |st.items[s]|
      && Written(st, lay, base, buffer[..], s, k) && cp == FinOf(lay, Ref(s, k))
    }

    /** Pass 3, one action. */
    method EncodeAction(buffer: array<U8>, base: int, s: nat, at: nat, p: int, cp: nat, ghost k: nat)
      returns (at': nat, p': int, cp': nat, stop: bool)
      requires Encoding(buffer, base, s, k, cp) && k < |st.items[s]| && !st.items[s][k].act.Start?
      requires var c := st.items[s][k].c; at == c.at && p == c.p
      modifies buffer
      ensures Encoding(buffer, base, s, k + 1, cp')
      ensures var it := st.items[s][k];
        && (stop <==> IsTerm(it.act)) && p < p' && at' == Next(it).at && (!stop ==> p' == Next(it).p)
    {
      hide Ready, Laid, BufsAt, Target, FinOf, ShrOf, CodeOf, Code, Reads, Room, Shaped, FinalLen, SlotOk, Readable;
      hide Complete, Written;
      ghost var r, it, c0 := Ref(s, k), st.items[s][k], buffer[..];
      LinkedComplete();
      ItemReads(actionlist, st, bufs, lay, r);
      Stands(actionlist, st, r);
      FinalBounds(actionlist, st, lay, r);
      HasRoom(st, lay, base, buffer, s, k);
      ghost var tfin := FinOf(lay, Target(st, r));
      cp' := EncodeBytes(buffer, base, s, at, p, cp, it, ShrOf(lay, r), tfin);
      CodeOfIs(st, lay, base, r);
      WrittenStep(actionlist, st, lay, base, c0, buffer[..], s, k);
      var act := ActAt(actionlist, p);
      at', p', stop := at + Slots(act), p + ActBytes(act), IsTerm(act);
    }

    /** Pass 3, the first slot of a chunk. */
    method EncodeStart(buffer: array<U8>, base: int, s: nat, at: nat, cp: nat, ghost k: nat) returns (p: int)
      requires Encoding(buffer, base, s, k, cp) && k < |st.items[s]| && st.items[s][k].act.Start? &&
        at == st.items[s][k].c.at
      ensures Encoding(buffer, base, s, k + 1, cp) && at < |bufs[s]| && p == st.items[s][k].arg
    {
      hide Ready, Laid, BufsAt, FinOf, ShrOf, Complete, Written;
      ghost var r := Ref(s, k);
      LinkedComplete();
      Stands(actionlist, st, r);
      AllDone(st, bufs, lay, r);
      FinalBounds(actionlist, st, lay, r);
      StartWritten(actionlist, st, lay, base, buffer[..], s, k);
      p := bufs[s][at];
    }

    /** Pass 3, the actions of one chunk. */
    method EncodeChunk(buffer: array<U8>, base: int, s: nat, at0: nat, p0: int, cp0: nat, ghost k0: nat)
      returns (at: nat, cp: nat, ghost k: nat)
      requires Encoding(buffer, base, s, k0, cp0)
      requires 0 < k0 < |st.items[s]| && st.items[s][k0 - 1].act.Start?
      requires at0 == Next(st.items[s][k0 - 1]).at && p0 == Next(st.items[s][k0 - 1]).p
      modifies buffer
      ensures k0 < k <= |st.items[s]| && Encoding(buffer, base, s, k, cp)
      ensures k < |st.items[s]| ==> st.items[s][k].act.Start?
      ensures at == Next(st.items[s][k - 1]).at
    {
      hide Ready, Laid, BufsAt, Written, Next, FinOf;
      var p, stop := p0, false;
      at, cp, k := at0, cp0, k0;
      ItemAfter(actionlist, st, s, k - 1);
      while !stop
        invariant Encoding(buffer, base, s, k, cp) && k0 <= k <= |st.items[s]| && (stop ==> k0 < k)
        invariant if stop then k < |st.items[s]| ==> st.items[s][k].act.Start?
                  else k < |st.items[s]| && !st.items[s][k].act.Start? && st.items[s][k].c == Next(st.items[s][k - 1])
        invariant at == Next(st.items[s][k - 1]).at
        invariant !stop ==> p == Next(st.items[s][k - 1]).p
        decreases !stop, |st.items[s]| - k
      {
        at, p, cp, stop := EncodeAction(buffer, base, s, at, p, cp, k);
        k := k + 1;
        ItemAfter(actionlist, st, s, k - 1);
      }
    }

    /** Pass 3, one section. */
    method EncodeSection(buffer: array<U8>, base: int, s: nat, cp0: nat) returns (cp: nat)
      requires Encoding(buffer, base, s, 0, cp0)
      modifies buffer
      ensures Encoding(buffer, base, s, |st.items[s]|, cp)
    {
      hide Ready, Laid, BufsAt, Written, Next, FinOf;
      SectionStart(actionlist, st, s);
      EndLengths(st, bufs, lay, |st.items| - 1, |st.items[|st.items| - 1]|);
      var at, lastpos := 0, |bufs[s]|;
      cp := cp0;
      ghost var k := 0;
      while at != lastpos
        invariant Encoding(buffer, base, s, k, cp) && k <= |st.items[s]|
        invariant k < |st.items[s]| ==> st.items[s][k].act.Start? && at == st.items[s][k].c.at < lastpos
        invariant k == |st.items[s]| ==> at == lastpos
        decreases |st.items[s]| - k
      {
        ItemAfter(actionlist, st, s, k);
        var p := EncodeStart(buffer, base, s, at, cp, k);
        at, cp, k := EncodeChunk(buffer, base, s, at + 1, p, cp, k + 1);
        ItemAfter(actionlist, st, s, k - 1);
      }
    }

    /** Pass 3: encode all sections. The buffer is filled exactly, and every item's code stands
        where the layout puts it. */
    method Encode(buffer: array<U8>, base: int) returns (res: Status)
      requires Linked() && buffer.Length == codesize
      modifies buffer
      ensures res == Ok
      ensures forall r :: HasItem(st, r) && !IsOpcode(ItemOf(st, r).act) ==> Holds(st, lay, base, buffer[..], r)
    {
      hide Ready, Laid, BufsAt, Written, FinOf, Holds;
      var cp, s := 0, 0;
      EndLengths(st, bufs, lay, |st.items| - 1, |st.items[|st.items| - 1]|);
      EncodeBegins(actionlist, st, lay, base, buffer[..]);
      while s < |bufs|
        invariant 0 <= s <= |st.items| == |bufs|
        invariant if s < |st.items| then Encoding(buffer, base, s, 0, cp)
                  else Encoding(buffer, base, s - 1, |st.items[s - 1]|, cp)
      {
        cp := EncodeSection(buffer, base, s, cp);
        if s + 1 < |bufs| { WrittenNext(actionlist, st, lay, base, buffer[..], s); }
        s := s + 1;
      }
      WrittenAll(st, lay, base, buffer[..]);
      if codesize != cp { return Phase; }
      return Ok;
    }

    /** The items a call of pass 1 appends to the active section. */
    ghost function NewItems(start: int, args: seq<int>): seq<Item>
      requires 0 <= section < |st.items|
      requires ChunkOk(actionlist, Next(FirstItem(start)), args)
      reads this
    {
      [FirstItem(start)] + Chunk(actionlist, Next(FirstItem(start)), args)
    }

    ghost function FirstItem(start: int): Item
      requires 0 <= section < |st.items|
      reads this
    {
      Item(Start, start, EndCur(st.items[section]))
    }
  }

  /** Section `s` got item `it`, and its slots. */
  predicate Took(st: St, st': St, s: int, it: Item)
  {
    && 0 <= s < |st.items| == |st.bufs| == |st'.bufs|
    && |st'.pcl| == |st.pcl|
    && st'.items == st.items[s := st.items[s] + [it]]
    && |st'.bufs[s]| == |st.bufs[s]| + Slots(it.act)
  }

  /** Where a section of whole chunks ends. */
  lemma SectionEnd(al: Bytes, items: seq<Item>, buf: seq<int>)
    requires SecOk(al, items, buf)
    ensures EndCur(items).at == |buf| && EndCur(items).pess >= 0 && 0 <= EndCur(items).op < 256
  {
    hide Readable, ActAt, Shaped, IsTerm;
    if items != [] {
      var it := items[|items| - 1];
      assert ItemOk(al, it);
      NextAdds(it);
      LenNonNegative(al, it);
    }
  }

  lemma LenNonNegative(al: Bytes, it: Item)
    requires ItemOk(al, it)
    ensures MaxLen(it.act, it.arg) >= 0
  {
    hide Readable, ActAt, Shaped;
  }

  lemma BeginFollows(al: Bytes, st: St, s: int, first: Item)
    requires Inv(al, st) && 0 <= s < |st.items| && Closed(st.items[s])
    requires first == Item(Start, first.arg, EndCur(st.items[s])) && |st.bufs[s]| + 1 < SEC
    ensures Follows(al, st, s, first, [first.arg])
  {
    hide SecOk, MapsOk, LabelsOk, EndCur;
    SectionEnd(al, st.items[s], st.bufs[s]);
  }

  lemma SlotCountFirst(first: Item, rest: seq<Item>)
    ensures SlotCount([first] + rest) == Slots(first.act) + SlotCount(rest)
  {
    assert ([first] + rest)[1..] == rest;
  }

  lemma EndIsNext(items: seq<Item>, it: Item)
    ensures EndCur(items + [it]) == Next(it)
  {
    hide Next;
  }

  lemma BeginPutting(al: Bytes, st: St, st': St, s: int, first: Item, args: seq<int>, rest: seq<Item>)
    requires |st.items| == |st.bufs| && 0 <= s < |st.items| && st' == Grown(st, s, first, [first.arg]) &&
      first.act.Start?
    requires ChunkOk(al, Next(first), args) && rest == Chunk(al, Next(first), args)
    requires |st.bufs[s]| + 1 + SlotCount(rest) < SEC
    ensures Putting(al, st', s, args, st.items, [first] + rest)
  {
    hide Next, EndCur;
    var items := st.items[s];
    EndIsNext(items, first);
    assert st'.items[s] == items + [first] && st'.items[s][|items|..] == [first];
    assert st'.items[s] + rest == items + ([first] + rest);
    assert |st'.bufs[s]| == |st.bufs[s]| + 1;
  }

  /** The first slot of a chunk opens it. */
  lemma Begin(al: Bytes, st: St, s: int, start: int, args: seq<int>)
    requires Inv(al, st) && 0 <= s < |st.items| && Closed(st.items[s])
    requires var first := Item(Start, start, EndCur(st.items[s]));
      && ChunkOk(al, Next(first), args)
      && |st.bufs[s]| + SlotCount([first] + Chunk(al, Next(first), args)) < SEC
    ensures var first := Item(Start, start, EndCur(st.items[s]));
      && Follows(al, st, s, first, [start])
      && Putting(al, Grown(st, s, first, [start]), s, args, st.items, [first] + Chunk(al, Next(first), args))
      && EndCur(Grown(st, s, first, [start]).items[s]).p == start
      && EndCur(Grown(st, s, first, [start]).items[s]).pess == EndCur(st.items[s]).pess
  {
    hide Follows, Putting, SecOk, MapsOk, LabelsOk, Closed, EndCur;
    var first := Item(Start, start, EndCur(st.items[s]));
    var rest := Chunk(al, Next(first), args);
    SlotCountFirst(first, rest);
    BeginFollows(al, st, s, first);
    BeginPutting(al, st, Grown(st, s, first, [start]), s, first, args, rest);
    EndIsNext(st.items[s], first);
  }

  /** How the next action is read off the action list. */
  lemma HeadKind(al: Bytes, st: St, s: int, args: seq<int>, base: seq<seq<Item>>, chunk: seq<Item>)
    requires Putting(al, st, s, args, base, chunk)
    ensures var c := EndCur(st.items[s]);
      var it := HeadItem(al, c, args);
      && 0 <= c.p < |al|
      && it.act == ActAt(al, c.p)
      && (DISP <= al[c.p] <= REL_A <==> it.act.Imm? || it.act.Space?)
      && (al[c.p] in {REL_PC, IMM_PC, LABEL_PC} <==> IsRef(it.act) || it.act.LabelPC?)
      && (TakesArg(it.act) <==> DISP <= al[c.p] <= REL_A || al[c.p] in {REL_PC, IMM_PC, LABEL_PC})
      && (TakesArg(it.act) ==> |args| > 0 && TailArgs(al, c, args) == args[1..])
      && (!TakesArg(it.act) ==> TailArgs(al, c, args) == args)
      && (IsTerm(it.act) <==> al[c.p] == SECTION || al[c.p] == STOP)
      && (al[c.p] == SECTION ==> c.p + 1 < |al| && Next(it).p == c.p + 2 && it.act == Section(al[c.p + 1]))
      && Next(it).p > c.p
  {}

  lemma HeadArg(al: Bytes, st: St, s: int, args: seq<int>, base: seq<seq<Item>>, chunk: seq<Item>)
    requires Putting(al, st, s, args, base, chunk)
    ensures 0 <= s < |st.items| && ChunkOk(al, EndCur(st.items[s]), args)
    ensures var c := EndCur(st.items[s]);
      && Readable(al, c.p)
      && var it := HeadItem(al, c, args);
      && it.c == c && it.act == ActAt(al, c.p) && (TakesArg(it.act) ==> |args| > 0 && it.arg == args[0])
  {}

  lemma EntriesOf(al: Bytes, st: St)
    requires Inv(al, st)
    ensures |st.pend| == |st.pcl| && |st.bufs| == |st.items|
  {
    hide SecOk, MapsOk;
  }

  lemma TookChained(al: Bytes, st: St, s: int, it: Item, slots: seq<int>)
    requires Follows(al, st, s, it, slots) && 0 <= it.arg < |st.pcl| == |st.pend|
    ensures Took(st, Chained(st, s, it, slots), s, it)
  {
    hide ItemOk, SlotOk, EndCur, IsTerm;
  }

  lemma TookDefined(al: Bytes, st: St, bufs: seq<seq<int>>, s: int, it: Item, q: int)
    requires Follows(al, st, s, it, [it.c.pess]) && it.act.LabelPC? && 0 <= it.arg < |st.pcl| == |st.pend|
    requires Collapsed(st, bufs, it.arg, |st.pend[it.arg]|, q)
    ensures Took(st, Defined(st, bufs, s, it), s, it)
  {
    hide ItemOk, SlotOk, EndCur, IsTerm;
  }

  lemma TookGrown(al: Bytes, st: St, s: int, it: Item, slots: seq<int>)
    requires Follows(al, st, s, it, slots)
    ensures Took(st, Grown(st, s, it, slots), s, it)
  {
    hide ItemOk, SlotOk, EndCur, IsTerm;
  }

  /** What pass 2 finds at item `k` of section `s`. */
  lemma ItemFacts(al: Bytes, st: St, bufs: seq<seq<int>>, lay: Lay, s: nat, k: nat)
    requires Ready(al, st) && Laid(st, lay, s, k) && BufsAt(st, bufs, lay, s, k)
    requires k < |st.items[s]| && !st.items[s][k].act.Start?
    ensures |bufs| == |st.bufs| == |st.items|
    ensures var it := st.items[s][k];
      && ItemOk(al, it) && SlotOk(it, bufs[s])
      && it.c.at + Slots(it.act) <= |bufs[s]| == |st.bufs[s]|
      && ItemSame(it, st.bufs[s], bufs[s])
  {
    assert SecOk(al, st.items[s], st.bufs[s]) && SlotOk(st.items[s][k], st.bufs[s]);
    assert SlotsAt(st, bufs, lay, s, k, Ref(s, k));
  }

  lemma NotRel(st: St, lay: Lay, r: Ref)
    requires HasItem(st, r)
    ensures !ItemOf(st, r).act.RelPC? ==> Choice(st, lay, r) == 0
  {}

  lemma StartFacts(al: Bytes, st: St, bufs: seq<seq<int>>, lay: Lay, s: nat, k: nat)
    requires Ready(al, st) && BufsAt(st, bufs, lay, s, k) && s < |st.items|
    requires k < |st.items[s]| && st.items[s][k].act.Start?
    ensures |bufs| == |st.bufs| == |st.items|
    ensures var it := st.items[s][k];
      && 0 <= it.c.at < |bufs[s]| == |st.bufs[s]| && bufs[s][it.c.at] == it.arg
      && ItemSame(it, st.bufs[s], bufs[s])
  {
    assert SecOk(al, st.items[s], st.bufs[s]) && SlotOk(st.items[s][k], st.bufs[s]);
    assert SlotsAt(st, bufs, lay, s, k, Ref(s, k));
  }

  /** What follows item `k`: the next item, or the end of the section after a terminator. */
  lemma ItemAfter(al: Bytes, st: St, s: nat, k: nat)
    requires Ready(al, st) && s < |st.items| && k < |st.items[s]|
    ensures |st.bufs| == |st.items|
    ensures if k + 1 < |st.items[s]| then
        && st.items[s][k + 1].c == Next(st.items[s][k])
        && (st.items[s][k + 1].act.Start? <==> IsTerm(st.items[s][k].act))
        && (st.items[s][k + 1].act.Start? ==> st.items[s][k + 1].c.at < |st.bufs[s]|)
      else
        IsTerm(st.items[s][k].act) && Next(st.items[s][k]) == EndCur(st.items[s]) &&
          EndCur(st.items[s]).at == |st.bufs[s]|
    ensures PessAt(st.items[s], k + 1) == Next(st.items[s][k]).pess
    ensures st.items[s][k].act.Start? ==>
      Next(st.items[s][k]) == Cur(st.items[s][k].arg, st.items[s][k].c.at + 1, st.items[s][k].c.pess, 0, [])
  {
    assert SecOk(al, st.items[s], st.bufs[s]);
    if k + 1 < |st.items[s]| {
      assert Succeeds(st.items[s], k + 1) && SlotOk(st.items[s][k + 1], st.bufs[s]);
    }
  }

  lemma SectionStart(al: Bytes, st: St, s: nat)
    requires Ready(al, st) && s < |st.items|
    ensures |st.bufs| == |st.items| && PessAt(st.items[s], 0) == 0
    ensures if st.items[s] == [] then st.bufs[s] == []
            else st.items[s][0].act.Start? && st.items[s][0].c.at == 0 < |st.bufs[s]|
  {
    assert SecOk(al, st.items[s], st.bufs[s]);
    if st.items[s] != [] { assert SlotOk(st.items[s][0], st.bufs[s]); }
  }

  lemma StartBufs(al: Bytes, st: St)
    requires Inv(al, st) && |st.items| > 0
    ensures BufsAt(st, st.bufs, Lay([[0]], [[]]), 0, 0)
  {
    forall r | HasItem(st, r) ensures SlotsAt(st, st.bufs, Lay([[0]], [[]]), 0, 0, r) {
      assert SecOk(al, st.items[r.s], st.bufs[r.s]) && SlotOk(ItemOf(st, r), st.bufs[r.s]);
    }
  }

  lemma BufsNext(st: St, bufs: seq<seq<int>>, lay: Lay, s: nat)
    requires s + 1 < |st.items| && Laid(st, lay, s, |st.items[s]|) && BufsAt(st, bufs, lay, s, |st.items[s]|)
    ensures BufsAt(st, bufs, NextRow(st, lay, s), s + 1, 0)
  {
    NextRowFrame(st, lay, s);
    hide Laid, ItemDone, ItemSame;
    forall r | HasItem(st, r) ensures SlotsAt(st, bufs, NextRow(st, lay, s), s + 1, 0, r) {
      assert SlotsAt(st, bufs, lay, s, |st.items[s]|, r);
    }
  }

  lemma LabelDefined(al: Bytes, st: St, l: int)
    requires Ready(al, st) && 0 <= l < |st.pcl| && st.pcl[l] < 0
    ensures IsLabel(st, -st.pcl[l], l)
    ensures var r := st.labAt[-st.pcl[l]];
      HasSlot(st, r) && ItemOf(st, r).act.LabelPC? && PosOf(st, r) == -st.pcl[l] && ItemOf(st, r).c.at < SEC
  {
    assert ChainOk(st, l);
    var r := st.labAt[-st.pcl[l]];
    assert HasSlot(st, r) && PosOf(st, r) == -st.pcl[l] && ItemOf(st, r).act.LabelPC?;
    assert SecOk(al, st.items[r.s], st.bufs[r.s]);
  }

  /** After pass 2 the slot of a label holds the label's final offset. */
  lemma LabelSlot(al: Bytes, st: St, bufs: seq<seq<int>>, lay: Lay, l: int)
    requires Ready(al, st) && |st.items| > 0
    requires BufsAt(st, bufs, lay, |st.items| - 1, |st.items[|st.items| - 1]|)
    requires 0 <= l < |st.pcl| && st.pcl[l] < 0
    ensures var d := -st.pcl[l];
      && IsLabel(st, d, l)
      && 0 <= PosSec(d) < |bufs| && 0 <= PosIdx(d) < |bufs[PosSec(d)]|
      && bufs[PosSec(d)][PosIdx(d)] == FinOf(lay, st.labAt[d])
  {
    hide Ready, BufsAt;
    LabelDefined(al, st, l);
    var r := st.labAt[-st.pcl[l]];
    AllDone(st, bufs, lay, r);
    PosSplit(r.s, ItemOf(st, r).c.at);
  }

  function CurAt(items: seq<Item>, k: nat): Cur
    requires k <= |items|
  {
    if k < |items| then items[k].c else EndCur(items)
  }

  lemma Stands(al: Bytes, st: St, r: Ref)
    requires Ready(al, st) && HasItem(st, r)
    ensures ItemOk(al, ItemOf(st, r)) && SlotOk(ItemOf(st, r), st.bufs[r.s])
  {
    assert SecOk(al, st.items[r.s], st.bufs[r.s]);
  }

  /** After pass 2 every item is done. */
  lemma AllDone(st: St, bufs: seq<seq<int>>, lay: Lay, r: Ref)
    requires |st.items| > 0 && BufsAt(st, bufs, lay, |st.items| - 1, |st.items[|st.items| - 1]|)
    requires HasItem(st, r)
    ensures |bufs| == |st.bufs|
    ensures ItemDone(ItemOf(st, r), st.bufs[r.s], bufs[r.s], FinOf(lay, r), ShrOf(lay, r))
  {
    assert SlotsAt(st, bufs, lay, |st.items| - 1, |st.items[|st.items| - 1]|, r);
  }

  /** What pass 3 reads at an item. */
  lemma SlotFacts(al: Bytes, st: St, bufs: seq<seq<int>>, lay: Lay, r: Ref)
    requires Ready(al, st) && |st.items| > 0
    requires BufsAt(st, bufs, lay, |st.items| - 1, |st.items[|st.items| - 1]|)
    requires HasItem(st, r) && !ItemOf(st, r).act.Start?
    ensures |bufs| == |st.items| == |st.bufs|
    ensures var it := ItemOf(st, r);
      && ItemOk(al, it) && 0 <= it.c.at && it.c.at + Slots(it.act) <= |bufs[r.s]|
      && (it.act.Imm? || it.act.Space? ==> bufs[r.s][it.c.at] == it.arg)
      && (it.act.RelPC? ==> bufs[r.s][it.c.at + 1] == ShrOf(lay, r))
  {
    Stands(al, st, r);
    AllDone(st, bufs, lay, r);
    hide Ready, BufsAt;
  }

  lemma RefRead(al: Bytes, st: St, bufs: seq<seq<int>>, lay: Lay, r: Ref)
    requires Ready(al, st) && |st.items| > 0
    requires BufsAt(st, bufs, lay, |st.items| - 1, |st.items[|st.items| - 1]|)
    requires HasItem(st, r) && IsRef(ItemOf(st, r).act)
    ensures var d := SlotOf(st, r);
      && 0 <= ItemOf(st, r).c.at < |bufs[r.s]| && bufs[r.s][ItemOf(st, r).c.at] == d
      && 0 <= PosSec(d) < |bufs| && 0 <= PosIdx(d) < |bufs[PosSec(d)]|
      && bufs[PosSec(d)][PosIdx(d)] == FinOf(lay, Target(st, r))
  {
    var t := Target(st, r);
    TargetIsLabel(al, st, r);
    Stands(al, st, t);
    assert |st.bufs[t.s]| < SEC by { assert SecOk(al, st.items[t.s], st.bufs[t.s]); }
    AllDone(st, bufs, lay, r);
    AllDone(st, bufs, lay, t);
    hide Ready, BufsAt;
    PosSplit(t.s, ItemOf(st, t).c.at);
  }

  /** The code when pass 3 stands before item `k` of section `s`: everything before is final,
      except for the opcode bytes directly before, which that item may still patch. */
  ghost predicate Written(st: St, lay: Lay, base: int, code: seq<int>, s: nat, k: nat) {
    && s < |st.items| == |st.bufs| && k <= |st.items[s]|
    && var cp, run := FinOf(lay, Ref(s, k)), CurAt(st.items[s], k).run;
      && 0 <= |run| <= cp <= |code| && code[cp - |run|..cp] == run
      && (forall r :: HasItem(st, r) && !IsOpcode(ItemOf(st, r).act) && Before(r, Ref(s, k)) ==>
            Upto(lay, r) <= cp - |run| && Holds(st, lay, base, code, r))
  }

  lemma CodeOfIs(st: St, lay: Lay, base: int, r: Ref)
    requires HasItem(st, r) && Shaped(ItemOf(st, r).act, ItemOf(st, r).c)
    ensures var tfin, end := FinOf(lay, Target(st, r)), FinOf(lay, Ref(r.s, r.k + 1));
      CodeOf(st, lay, base, r) == Code(ItemOf(st, r), ShrOf(lay, r), tfin - end, base + tfin, end - FinOf(lay, r))
  {
    hide Code, Target, FinOf;
  }

  /** What pass 3 reads in the slots of an item: its argument, its branch reduction `sh` and the
      final offset `tfin` of the label it refers to. */
  predicate Reads(al: Bytes, bufs: seq<seq<int>>, s: nat, it: Item, sh: int, tfin: int) {
    && ItemOk(al, it) && !it.act.Start? && s < |bufs|
    && 0 <= it.c.at && it.c.at + Slots(it.act) <= |bufs[s]|
    && (it.act.Imm? || it.act.Space? ==> bufs[s][it.c.at] == it.arg)
    && (if it.act.RelPC? then bufs[s][it.c.at + 1] == sh && (sh == 0 || sh == Shrink(it.c.op)) else sh == 0)
    && (IsRef(it.act) ==> LabelAt(bufs, bufs[s][it.c.at], tfin))
  }

  /** Position `d` is a slot that holds `v`. */
  predicate LabelAt(bufs: seq<seq<int>>, d: int, v: int) {
    0 <= PosSec(d) < |bufs| && 0 <= PosIdx(d) < |bufs[PosSec(d)]| && bufs[PosSec(d)][PosIdx(d)] == v
  }

  lemma ItemReads(al: Bytes, st: St, bufs: seq<seq<int>>, lay: Lay, r: Ref)
    requires Ready(al, st) && Complete(st, lay)
    requires BufsAt(st, bufs, lay, |st.items| - 1, |st.items[|st.items| - 1]|)
    requires HasItem(st, r) && !ItemOf(st, r).act.Start?
    ensures Reads(al, bufs, r.s, ItemOf(st, r), ShrOf(lay, r), FinOf(lay, Target(st, r)))
  {
    SlotFacts(al, st, bufs, lay, r);
    if IsRef(ItemOf(st, r).act) { RefRead(al, st, bufs, lay, r); }
    FinalBounds(al, st, lay, r);
    hide Ready, Complete, BufsAt, Target, FinOf, ShrOf, ItemOk, FinalLen, PosSec, PosIdx;
  }

  lemma HasRoom(st: St, lay: Lay, base: int, buffer: array<U8>, s: nat, k: nat)
    requires Written(st, lay, base, buffer[..], s, k) && k < |st.items[s]|
    requires Shaped(st.items[s][k].act, st.items[s][k].c)
    requires FinOf(lay, Ref(s, k + 1)) <= buffer.Length
    ensures FinOf(lay, Ref(s, k)) >= |st.items[s][k].c.run|
    ensures Room(buffer, FinOf(lay, Ref(s, k)), st.items[s][k], FinOf(lay, Ref(s, k + 1)) - FinOf(lay, Ref(s, k)))
  {
    hide Shaped, FinOf;
    var cp := FinOf(lay, Ref(s, k));
    assert buffer[..][cp - |st.items[s][k].c.run|..cp] == buffer[cp - |st.items[s][k].c.run|..cp];
  }

  lemma StartWritten(al: Bytes, st: St, lay: Lay, base: int, code: seq<int>, s: nat, k: nat)
    requires Ready(al, st) && Complete(st, lay) && Written(st, lay, base, code, s, k)
    requires k < |st.items[s]| && st.items[s][k].act.Start?
    ensures Written(st, lay, base, code, s, k + 1) && FinOf(lay, Ref(s, k + 1)) == FinOf(lay, Ref(s, k))
  {
    hide Ready, Complete, FinOf, ShrOf, Holds, CurAt, Upto;
    SameLengths(al, st);
    FinalBounds(al, st, lay, Ref(s, k));
    CurAtItem(st.items[s], k);
    WrittenStep(al, st, lay, base, code, code, s, k);
  }

  lemma EndLengths(st: St, bufs: seq<seq<int>>, lay: Lay, s: nat, k: nat)
    requires BufsAt(st, bufs, lay, s, k)
    ensures |bufs| == |st.bufs| == |st.items|
    ensures forall i :: 0 <= i < |bufs| ==> |bufs[i]| == |st.bufs[i]|
  {}

  lemma EncodeBegins(al: Bytes, st: St, lay: Lay, base: int, code: seq<int>)
    requires Ready(al, st) && Complete(st, lay)
    ensures Written(st, lay, base, code, 0, 0) && FinOf(lay, Ref(0, 0)) == 0
  {
    hide Ready, Laid, FinOf, Holds, CurAt;
    SameLengths(al, st);
    NoRunAt(al, st, 0, 0);
    FirstOffset(st, lay);
  }

  lemma FirstOffset(st: St, lay: Lay)
    requires Complete(st, lay)
    ensures FinOf(lay, Ref(0, 0)) == 0
  {}

  /** No opcode run reaches over a section boundary. */
  lemma NoRunAt(al: Bytes, st: St, s: nat, k: nat)
    requires Ready(al, st) && s < |st.items| && (k == 0 || k == |st.items[s]|)
    ensures CurAt(st.items[s], k).run == []
  {
    assert SecOk(al, st.items[s], st.bufs[s]);
  }

  lemma WrittenNext(al: Bytes, st: St, lay: Lay, base: int, code: seq<int>, s: nat)
    requires Ready(al, st) && Complete(st, lay) && s + 1 < |st.items|
    requires Written(st, lay, base, code, s, |st.items[s]|)
    ensures Written(st, lay, base, code, s + 1, 0)
    ensures FinOf(lay, Ref(s + 1, 0)) == FinOf(lay, Ref(s, |st.items[s]|))
  {
    hide Ready, Complete, CurAt, FinOf, Holds, Upto;
    NoRunAt(al, st, s, |st.items[s]|);
    NoRunAt(al, st, s + 1, 0);
    SectionJoin(al, st, lay, s + 1);
    forall r | HasItem(st, r) && Before(r, Ref(s + 1, 0)) ensures Before(r, Ref(s, |st.items[s]|)) {}
  }

  lemma WrittenAll(st: St, lay: Lay, base: int, code: seq<int>)
    requires |st.items| > 0 && Written(st, lay, base, code, |st.items| - 1, |st.items[|st.items| - 1]|)
    ensures forall r :: HasItem(st, r) && !IsOpcode(ItemOf(st, r).act) ==> Holds(st, lay, base, code, r)
  {
    hide Holds, FinOf, CurAt, Upto;
    forall r | HasItem(st, r) && !IsOpcode(ItemOf(st, r).act) ensures Holds(st, lay, base, code, r) {
      assert Before(r, Ref(|st.items| - 1, |st.items[|st.items| - 1]|));
    }
  }

  lemma HoldsKept(st: St, lay: Lay, base: int, code0: seq<int>, code: seq<int>, lo: int, r: Ref)
    requires HasItem(st, r) && Holds(st, lay, base, code0, r) && Upto(lay, r) <= lo <= |code| == |code0|
    requires code[..lo] == code0[..lo]
    ensures Holds(st, lay, base, code, r)
  {
    assert code[From(st, lay, r)..Upto(lay, r)] == code[..lo][From(st, lay, r)..Upto(lay, r)];
    assert code0[From(st, lay, r)..Upto(lay, r)] == code0[..lo][From(st, lay, r)..Upto(lay, r)];
  }

  lemma RunAhead(al: Bytes, st: St, s: nat, k: nat)
    requires Ready(al, st) && s < |st.items| && k < |st.items[s]|
    ensures var it := st.items[s][k];
      CurAt(st.items[s], k + 1).run == if IsOpcode(it.act) then it.c.run + [it.act.v] else []
  {
    hide Ready;
    ItemAfter(al, st, s, k);
  }

  lemma WrittenStep(al: Bytes, st: St, lay: Lay, base: int, code0: seq<int>, code: seq<int>, s: nat, k: nat)
    requires Ready(al, st) && Written(st, lay, base, code0, s, k) && k < |st.items[s]|
    requires FinOf(lay, Ref(s, k)) <= FinOf(lay, Ref(s, k + 1)) <= |code| == |code0|
    requires var it, lo := st.items[s][k], FinOf(lay, Ref(s, k)) - |st.items[s][k].c.run|;
      && code[..lo] == code0[..lo] && Shaped(it.act, it.c)
      && code[lo..FinOf(lay, Ref(s, k + 1))] ==
           (if IsOpcode(it.act) then it.c.run + [it.act.v] else CodeOf(st, lay, base, Ref(s, k)))
    ensures Written(st, lay, base, code, s, k + 1)
  {
    hide Ready, Next, FinOf, CodeOf, CurAt, Shaped;
    var it := st.items[s][k];
    RunAhead(al, st, s, k);
    CurAtItem(st.items[s], k);
    var lo, cp := FinOf(lay, Ref(s, k)) - |it.c.run|, FinOf(lay, Ref(s, k + 1));
    var run := CurAt(st.items[s], k + 1).run;
    assert code[cp - |run|..cp] == run;
    forall r | HasItem(st, r) && !IsOpcode(ItemOf(st, r).act) && Before(r, Ref(s, k + 1))
      ensures Upto(lay, r) <= cp - |run| && Holds(st, lay, base, code, r)
    {
      if r != Ref(s, k) {
        assert Before(r, Ref(s, k));
        HoldsKept(st, lay, base, code0, code, lo, r);
      }
    }
  }

  lemma CurAtItem(items: seq<Item>, k: nat)
    requires k < |items|
    ensures CurAt(items, k) == items[k].c
  {}

  lemma FollowsAt(al: Bytes, st: St, s: int, it: Item, slots: seq<int>)
    requires Inv(al, st) && Follows(al, st, s, it, slots)
    ensures 0 <= s < |st.items| == |st.bufs| && |st.pcl| == |st.pend|
    ensures it.c.at == |st.bufs[s]|
  {
    hide MapsOk, ChainOk, BoundOrPending, ItemOk, SlotOk;
    SectionEnd(al, st.items[s], st.bufs[s]);
  }

  lemma CollapsedSizes(st: St, bufs: seq<seq<int>>, l: int, n: int, v: int)
    requires 0 <= l < |st.pend| && 0 <= n <= |st.pend[l]| && Collapsed(st, bufs, l, n, v)
    ensures |bufs| == |st.bufs|
  {}

  /** Before the collapse loop the entry holds the first link. */
  lemma ChainStarts(al: Bytes, st: St, l: int, v: int)
    requires Inv(al, st) && 0 <= l < |st.pcl|
    ensures |st.pend| == |st.pcl| && |st.bufs| == |st.items| && Collapsed(st, st.bufs, l, 0, v)
    ensures var ch := st.pend[l]; if ch == [] then st.pcl[l] <= 0 else st.pcl[l] == ch[0]
  {
    hide SecOk, MapsOk;
    assert ChainOk(st, l);
  }

  /** The status that an argument out of range leaves, with the place of its action. */
  function ErrorOf(it: Item): (e: Status)
    ensures e != Ok
  {
    if it.act.Imm? then RangeI(it.c.p) else if it.act.Section? then RangeSec(it.c.p) else RangePC(it.c.p)
  }

  /** The first argument of the chunk that is out of range leaves status `e`. */
  predicate FirstError(chunk: seq<Item>, npc: nat, maxsection: nat, e: Status) {
    exists i :: 0 <= i < |chunk| && RejectedAt(chunk, i, npc, maxsection, e)
  }

  predicate RejectedAt(chunk: seq<Item>, i: nat, npc: nat, maxsection: nat, e: Status)
    requires i < |chunk|
  {
    && Accepted(chunk[..i], npc, maxsection)
    && !ArgOk(chunk[i].act, chunk[i].arg, npc, maxsection)
    && e == ErrorOf(chunk[i])
  }

  lemma RejectedHead(al: Bytes, st: St, s: int, args: seq<int>, base: seq<seq<Item>>, chunk: seq<Item>)
    requires Putting(al, st, s, args, base, chunk)
    requires var it := HeadItem(al, EndCur(st.items[s]), args); !ArgOk(it.act, it.arg, |st.pcl|, |st.bufs|)
    ensures FirstError(chunk, |st.pcl|, |st.bufs|, ErrorOf(HeadItem(al, EndCur(st.items[s]), args)))
  {
    hide ArgOk;
    var it := HeadItem(al, EndCur(st.items[s]), args);
    var i := HeadRejected(al, st, s, args, base, chunk);
    assert RejectedAt(chunk, i, |st.pcl|, |st.bufs|, ErrorOf(it));
  }

  lemma NotAccepted(chunk: seq<Item>, npc: nat, maxsection: nat, e: Status)
    requires FirstError(chunk, npc, maxsection, e)
    ensures !Accepted(chunk, npc, maxsection) && e != Ok
  {
    hide ArgOk;
  }

  predicate Closed(items: seq<Item>) {
    items == [] || IsTerm(items[|items| - 1].act)
  }

  /** The section after some items: a section action at the end switches to its section. */
  function Onward(items: seq<Item>, s: int): int {
    if items != [] && items[|items| - 1].act.Section? then items[|items| - 1].act.n else s
  }

  /** One step of the collapse loop: the slot is on the chain, still holds its link, and
      overwriting it extends the collapsed prefix. */
  lemma ChainStep(al: Bytes, st: St, bufs: seq<seq<int>>, l: int, c: int, v: int)
    requires Inv(al, st) && 0 <= l < |st.pcl| && 0 <= c < |st.pend[l]|
    requires Collapsed(st, bufs, l, c, v)
    ensures var ch := st.pend[l];
      ch[c] > 0 && var t, i := PosSec(ch[c]), PosIdx(ch[c]);
      && 0 <= t < |bufs| && 0 <= i < |bufs[t]|
      && bufs[t][i] == (if c + 1 < |ch| then ch[c + 1] else 0)
      && Collapsed(st, bufs[t := bufs[t][i := v]], l, c + 1, v)
  {
    var ch := st.pend[l];
    assert ChainOk(st, l) && ChainLink(st, ch, c, l);
    var r := st.refAt[ch[c]];
    assert PosOf(st, r) == ch[c] && SecOk(al, st.items[r.s], st.bufs[r.s]);
    assert ItemOk(al, ItemOf(st, r));
    PosSplit(r.s, ItemOf(st, r).c.at);
    var t, i := PosSec(ch[c]), PosIdx(ch[c]);
    assert ch[c] !in ch[..c];
    var bufs' := bufs[t := bufs[t][i := v]];
    assert ch[..c + 1] == ch[..c] + [ch[c]];
    forall s, j | 0 <= s < |bufs'| && 0 <= j < |bufs'[s]|
      ensures bufs'[s][j] == if Pos(s, j) in ch[..c + 1] then v else st.bufs[s][j]
    {
      assert SecOk(al, st.items[s], st.bufs[s]);
      PosSplit(s, j);
    }
  }
}
