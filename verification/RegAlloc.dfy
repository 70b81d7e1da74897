/** The register allocator of the trace assembler, working backwards from uses to definitions. */
module RegAlloc {
  import opened BitSets
  import opened RegMachine

  const NREGS := 32
  const RID_MAX_GPR := 16
  const GPR: set<int> := set x | 0 <= x < 16 && x != 4 && x != 14
  const FPR: set<int> := set x | 16 <= x < 32
  const ALL: set<int> := GPR + FPR
  const RID_BASE := 2
  const RID_NONE := 0x80
  const RID_INIT := 0xff
  const RID_SUNK := 0xfd
  const REF_BASE := 0x8000
  const SPILL_LIMIT := 256

  /** regcost_ref: the reference in the low half of a cost. */
  function RefOf(cost: int): int { cost % 0x1_0000 }

  /** REGCOST_REF_T. */
  function CostOf(ref: int, phi: bool): (c: int)
    requires 0 <= ref < 0x1_0000
    ensures 0 <= c < 0x1_0000_0000 && RefOf(c) == ref
  {
    var high := if phi then ref + 64 else ref;
    var c := ref + 0x1_0000 * high;
    LowHalf(ref, high);
    LowHalf(ref, high - 0x1_0000);
    if c >= 0x1_0000_0000 then c - 0x1_0000_0000 else c
  }

  /** Earlier references cost less, so that they are evicted first; a PHI reference counts as 64 later. */
  lemma CostOrders(r: int, p: bool, s: int, q: bool)
    requires 0 <= r < 0xffc0 && 0 <= s < 0xffc0
    ensures var x, y := r + (if p then 64 else 0), s + (if q then 64 else 0);
      CostOf(r, p) < CostOf(s, q) <==> x < y || (x == y && r < s)
  {}

  lemma LowHalf(ref: int, high: int)
    requires 0 <= ref < 0x1_0000
    ensures (ref + 0x1_0000 * high) % 0x1_0000 == ref
  {}

  /** emit_canremat: constants and the base can be loaded again. */
  predicate CanRemat(ref: int) { ref <= REF_BASE }

  predicate NoReg(r: int) { r >= RID_NONE }

  /** All registers of one kind. */
  predicate OneKind(allow: set<int>) { allow != {} && (allow <= GPR || allow <= FPR) }

  /** What the allocator knows, as values. */
  datatype Regs = Regs(free: set<int>, weak: set<int>, cost: seq<int>, reg: map<int, int>, spill: map<int, int>,
    wide: set<int>)

  /** A register outside the free set names, through its cost, a reference that has this register. */
  predicate Named(a: Regs, x: int) {
    && 0 <= x < |a.cost| && 0 <= a.cost[x] < 0x1_0000_0000
    && RefOf(a.cost[x]) in a.reg && a.reg[RefOf(a.cost[x])] == x
  }

  predicate MapOk(a: Regs) {
    && |a.cost| == NREGS && a.free <= ALL && a.reg.Keys == a.spill.Keys
    && forall x :: x in ALL && x !in a.free ==> Named(a, x)
  }

  /** No two allocated registers share a reference. */
  lemma NoSharing(a: Regs, x: int, y: int)
    requires MapOk(a) && x in ALL - a.free && y in ALL - a.free && x != y
    ensures RefOf(a.cost[x]) != RefOf(a.cost[y])
  {
    assert Named(a, x) && Named(a, y);
  }

  function Width(a: Regs, ref: int): int { if ref in a.wide then 2 else 1 }

  /** The spill slots of two references do not overlap. */
  predicate SlotsApart(a: Regs, p: int, q: int)
    requires p in a.spill && q in a.spill
  {
    p != q && a.spill[p] != 0 && a.spill[q] != 0 ==>
      a.spill[p] + Width(a, p) <= a.spill[q] || a.spill[q] + Width(a, q) <= a.spill[p]
  }

  predicate SlotOk(a: Regs, even: int, odd: int, ref: int)
    requires ref in a.spill
  {
    && (CanRemat(ref) ==> a.spill[ref] == 0)
    && (a.spill[ref] != 0 ==>
          0 < a.spill[ref] && a.spill[ref] + Width(a, ref) <= even
          && (odd != 0 ==> odd < a.spill[ref] || a.spill[ref] + Width(a, ref) <= odd))
  }

  /** Spill slots: `even` is the next free pair, `odd` a free single one or 0. */
  predicate SpillOk(a: Regs, even: int, odd: int) {
    && 0 < even <= 256 && 0 <= odd < even
    && (forall ref :: ref in a.spill ==> SlotOk(a, even, odd, ref))
    && (forall p, q :: p in a.spill && q in a.spill ==> SlotsApart(a, p, q))
  }

  /** What code that has been emitted relies on: registers that are allocated and not weak hold
      their references, and so do spill slots. */
  function NeedsOf(a: Regs): Needs
    requires |a.cost| == NREGS
  {
    Needs(map x | x in ALL && x !in a.free && x !in a.weak :: RefOf(a.cost[x]),
          map ref | ref in a.spill && a.spill[ref] != 0 :: a.spill[ref])
  }

  /** A reference loses its register. */
  lemma Released(a: Regs, b: Regs, x: int, ref: int, hint: int)
    requires MapOk(a) && x in ALL && x !in a.free && ref == RefOf(a.cost[x]) && NoReg(hint)
    requires b == a.(free := a.free + {x}, reg := a.reg[ref := hint], spill := b.spill) && b.spill.Keys == a.spill.Keys
    ensures MapOk(b)
  {
    assert Named(a, x);
    forall y | y in ALL && y !in b.free ensures Named(b, y) {
      assert Named(a, y);
    }
  }

  /** Loading the constant again makes up for the lost register. */
  lemma RematStep(a: Regs, b: Regs, x: int, ref: int)
    requires |a.cost| == NREGS && b == a.(free := a.free + {x}, reg := b.reg) && 0 <= x < NREGS &&
      ref == RefOf(a.cost[x])
    ensures Step(NeedsOf(a), Remat(x, ref), NeedsOf(b))
  {
    forall m: Machine, val: int -> int | Holds(NeedsOf(b), m, val)
      ensures Holds(NeedsOf(a), Exec(Remat(x, ref), m, val), val)
    {
      var n, n', m' := NeedsOf(a), NeedsOf(b), Exec(Remat(x, ref), m, val);
      forall r | r in n.loc ensures m'.regs(r) == val(n.loc[r]) {
        assert r != x ==> r in n'.loc;
      }
      assert n.slot == n'.slot;
    }
  }

  /** A reference gets a free register. */
  lemma Taken(a: Regs, x: int, ref: int, phi: bool)
    requires MapOk(a) && x in a.free && ref in a.reg && NoReg(a.reg[ref]) && 0 <= ref < 0x1_0000
    ensures MapOk(a.(free := a.free - {x}, weak := a.weak - {x}, cost := a.cost[x := CostOf(ref, phi)],
      reg := a.reg[ref := x]))
    ensures var b := a.(free := a.free - {x}, weak := a.weak - {x}, cost := a.cost[x := CostOf(ref, phi)],
      reg := a.reg[ref := x]);
      |b.cost| == NREGS && Within(NeedsOf(a), NeedsOf(b))
  {
    var b := a.(free := a.free - {x}, weak := a.weak - {x}, cost := a.cost[x := CostOf(ref, phi)],
      reg := a.reg[ref := x]);
    forall y | y in ALL && y !in b.free ensures Named(b, y) {
      if y != x { assert Named(a, y); }
    }
  }

  /** A spill slot for a reference that has none. */
  lemma NewSlot(a: Regs, even: int, odd: int, ref: int, slot: int, even': int, odd': int)
    requires SpillOk(a, even, odd) && ref in a.spill && a.spill[ref] == 0 && !CanRemat(ref)
    requires if ref in a.wide then slot == even && even' == even + 2 && odd' == odd
             else if odd != 0 then slot == odd && odd' == 0 && even' == even
             else slot == even && odd' == even + 1 && even' == even + 2
    requires even' <= 256
    ensures SpillOk(a.(spill := a.spill[ref := slot]), even', odd')
  {
    var b := a.(spill := a.spill[ref := slot]);
    forall p | p in b.spill ensures SlotOk(b, even', odd', p) { assert SlotOk(a, even, odd, p); }
    forall p, q | p in b.spill && q in b.spill ensures SlotsApart(b, p, q) {
      assert SlotsApart(a, p, q) && SlotOk(a, even, odd, p) && SlotOk(a, even, odd, q);
    }
  }

  /** Loading the spill slot makes up for the lost register. A weak register needs nothing. */
  lemma RestoreStep(a: Regs, b: Regs, x: int, ref: int)
    requires |a.cost| == NREGS && 0 <= x < NREGS && ref == RefOf(a.cost[x]) && ref in b.spill && b.spill[ref] != 0
    requires b == a.(free := a.free + {x}, reg := b.reg, spill := b.spill)
    requires forall p :: p in a.spill && a.spill[p] != 0 ==> p in b.spill && b.spill[p] == a.spill[p]
    ensures Step(NeedsOf(a), Load(x, b.spill[ref]), NeedsOf(b))
    ensures x in a.weak ==> Sound(NeedsOf(a), [], NeedsOf(b))
  {
    var n, n' := NeedsOf(a), NeedsOf(b);
    assert n'.slot[ref] == b.spill[ref];
    forall m: Machine, val: int -> int | Holds(n', m, val) ensures Holds(n, Exec(Load(x, b.spill[ref]), m, val), val) {
      var m' := Exec(Load(x, b.spill[ref]), m, val);
      forall r | r in n.loc ensures m'.regs(r) == val(n.loc[r]) {
        assert r != x ==> r in n'.loc;
        assert ref in n'.slot;
      }
      forall p | p in n.slot ensures m'.slots(n.slot[p]) == val(p) { assert p in n'.slot; }
    }
    if x in a.weak {
      SoundNothing(n);
      assert Within(n, n') by {
        forall r | r in n.loc ensures r in n'.loc && n'.loc[r] == n.loc[r] {}
      }
      SoundWithin(n, [], n, n');
    }
  }

  /** Moving a reference from one register to another, backwards. */
  lemma RenameStep(a: Regs, b: Regs, down: int, up: int)
    requires |a.cost| == NREGS && down in ALL && up in ALL && down !in a.free && up in a.free
    requires b == a.(free := a.free + {down} - {up}, weak := a.weak - {up},
      cost := a.cost[up := a.cost[down]][down := 0], reg := b.reg)
    ensures Step(NeedsOf(a), Move(down, up), NeedsOf(b))
  {
    var n, n' := NeedsOf(a), NeedsOf(b);
    forall m: Machine, val: int -> int | Holds(n', m, val) ensures Holds(n, Exec(Move(down, up), m, val), val) {
      var m' := Exec(Move(down, up), m, val);
      assert n'.loc[up] == RefOf(a.cost[down]);
      forall r | r in n.loc ensures m'.regs(r) == val(n.loc[r]) {
        assert r != down ==> r in n'.loc;
        assert up in n'.loc;
      }
      assert n.slot == n'.slot;
    }
  }

  lemma Renamed(a: Regs, down: int, up: int)
    requires MapOk(a) && down in ALL && down !in a.free && up in a.free
    ensures var ref := RefOf(a.cost[down]);
      && ref in a.reg
      && MapOk(a.(free := a.free + {down} - {up}, weak := a.weak - {up}, cost := a.cost[up := a.cost[down]][down := 0],
                  reg := a.reg[ref := up]))
  {
    var ref := RefOf(a.cost[down]);
    assert Named(a, down);
    var b := a.(free := a.free + {down} - {up}, weak := a.weak - {up}, cost := a.cost[up := a.cost[down]][down := 0],
                reg := a.reg[ref := up]);
    forall y | y in ALL && y !in b.free ensures Named(b, y) {
      if y != up { assert Named(a, y); }
    }
  }

  lemma NamedAt(a: Regs, x: int)
    requires MapOk(a) && x in ALL && x !in a.free
    ensures Named(a, x)
  {}

  /** An instruction that computes `ref` into register `x` can be put before `code`. */
  ghost predicate DefSound(then_: Needs, code: seq<Instr>, now: Needs, ref: int, x: int) {
    forall m: Machine, val: int -> int ::
      Holds(Needs(now.loc, now.slot - {ref}), m, val) && m.regs(x) == val(ref) ==> Holds(then_, Run(code, m, val), val)
  }

  /** The same when the spill slot of `ref` holds it as well. */
  ghost predicate With(then_: Needs, code: seq<Instr>, now: Needs, ref: int, x: int) {
    forall m: Machine, val: int -> int ::
      Holds(now, m, val) && m.regs(x) == val(ref) ==> Holds(then_, Run(code, m, val), val)
  }

  lemma SoundWith(a: Needs, code: seq<Instr>, b: Needs, ref: int, x: int)
    requires Sound(a, code, b)
    ensures With(a, code, b, ref, x)
  {}

  /** Freeing the register of `ref` for its definition. */
  lemma FreedWith(a: Regs, b: Regs, x: int, ref: int)
    requires |a.cost| == NREGS && 0 <= x < NREGS && RefOf(a.cost[x]) == ref && b == a.(free := a.free + {x})
    ensures With(NeedsOf(a), [], NeedsOf(b), ref, x)
  {
    var n, n' := NeedsOf(a), NeedsOf(b);
    forall m: Machine, val: int -> int | Holds(n', m, val) && m.regs(x) == val(ref)
      ensures Holds(n, Run([], m, val), val) {
      forall r | r in n.loc ensures m.regs(r) == val(n.loc[r]) { assert r != x ==> r in n'.loc; }
      assert n.slot == n'.slot;
    }
  }

  /** ra_save right behind the definition. */
  lemma SavedDef(a: Needs, code: seq<Instr>, n: Needs, ref: int, x: int)
    requires With(a, code, n, ref, x) && ref in n.slot
    requires forall p :: p in n.slot && p != ref ==> n.slot[p] != n.slot[ref]
    ensures DefSound(a, code + [Store(n.slot[ref], x)], n, ref, x)
  {
    var i := Store(n.slot[ref], x);
    forall m: Machine, val: int -> int | Holds(Needs(n.loc, n.slot - {ref}), m, val) && m.regs(x) == val(ref)
      ensures Holds(a, Run(code + [i], m, val), val)
    {
      var m' := Exec(i, m, val);
      assert (code + [i])[..|code + [i]| - 1] == code;
      forall p | p in n.slot ensures m'.slots(n.slot[p]) == val(p) { assert p != ref ==> p in n.slot - {ref}; }
      assert Holds(n, m', val);
    }
  }

  lemma UnsavedDef(a: Needs, code: seq<Instr>, n: Needs, ref: int, x: int)
    requires With(a, code, n, ref, x) && ref !in n.slot
    ensures DefSound(a, code, n, ref, x)
  {
    assert Needs(n.loc, n.slot - {ref}) == n;
  }

  /** The definition goes to register `r` and is moved to `x`. */
  lemma MovedDef(a: Needs, code: seq<Instr>, n: Needs, ref: int, x: int, r: int)
    requires DefSound(a, code, n, ref, x) && x !in n.loc
    ensures DefSound(a, code + [Move(x, r)], n, ref, r)
  {
    var i := Move(x, r);
    forall m: Machine, val: int -> int | Holds(Needs(n.loc, n.slot - {ref}), m, val) && m.regs(r) == val(ref)
      ensures Holds(a, Run(code + [i], m, val), val)
    {
      var m' := Exec(i, m, val);
      assert (code + [i])[..|code + [i]| - 1] == code;
      assert Holds(Needs(n.loc, n.slot - {ref}), m', val);
    }
  }

  /** What the code behind a partly done shuffle relies on: targets that are not filled yet, and
      parent registers that have been read; spill slots stay as they are. */
  function Mixed(a: Regs, parents: map<int, int>, live: set<int>): Needs
    requires |a.cost| == NREGS
  {
    Needs(NeedsOf(a).loc + (parents - live), NeedsOf(a).slot)
  }

  /** A shuffle under way: `live` are the parent registers still to be read, `of` gives the parent
      register of each reference. */
  ghost predicate Shuffling(a: Regs, parents: map<int, int>, of: map<int, int>, live: set<int>, allow: set<int>) {
    && MapOk(a)
    && live <= parents.Keys <= ALL
    && (forall p :: p in parents && p !in live ==> p in a.free && p !in allow)
    && (forall p :: p in parents ==> parents[p] in of && of[parents[p]] == p)
    && (forall ref :: ref in of ==> of[ref] in parents && parents[of[ref]] == ref)
    && (forall p :: p in live ==> Targeted(a, parents[p]))
    && (forall x :: x in ALL && x !in a.free ==> Owed(a, of, live, x))
  }

  /** A reference has a register of its own to go to. */
  predicate Targeted(a: Regs, ref: int) {
    ref in a.reg && a.reg[ref] in ALL && a.reg[ref] !in a.free && 0 <= a.reg[ref] < |a.cost| &&
      RefOf(a.cost[a.reg[ref]]) == ref
  }

  /** An allocated register waits for a parent register that is still to be read. */
  predicate Owed(a: Regs, of: map<int, int>, live: set<int>, x: int) {
    0 <= x < |a.cost| && RefOf(a.cost[x]) in of && of[RefOf(a.cost[x])] in live
  }

  /** Filling a target from a free parent register. */
  lemma Coalesced(a: Regs, parents: map<int, int>, of: map<int, int>, live: set<int>, allow: set<int>, rp: int)
    requires Shuffling(a, parents, of, live, allow) && rp in live && rp in a.free
    ensures parents[rp] in a.reg && a.reg[parents[rp]] in ALL && a.reg[parents[rp]] !in a.free
    ensures 0 <= a.reg[parents[rp]] < |a.cost| && RefOf(a.cost[a.reg[parents[rp]]]) == parents[rp] && |a.cost| == NREGS
    ensures Shuffling(a.(free := a.free + {a.reg[parents[rp]]}), parents, of, live - {rp}, allow - {rp})
  {
    var ref := parents[rp];
    assert Targeted(a, ref);
    var t := a.reg[ref];
    var b := a.(free := a.free + {t});
    forall y | y in ALL && y !in b.free ensures Named(b, y) && Owed(b, of, live - {rp}, y) {
      assert Named(a, y) && Owed(a, of, live, y);
    }
    forall p | p in live - {rp} ensures Targeted(b, parents[p]) {
      assert Targeted(a, parents[p]);
      assert of[parents[p]] == p && of[ref] == rp;
    }
  }

  lemma CoalescedStep(a: Regs, parents: map<int, int>, live: set<int>, rp: int, t: int, ref: int)
    requires |a.cost| == NREGS && live <= parents.Keys && rp in live && rp in a.free && t !in a.free && 0 <= t < NREGS
    requires parents[rp] == ref && RefOf(a.cost[t]) == ref && (forall p :: p in parents && p !in live ==> p in a.free)
    ensures Step(Mixed(a, parents, live), Move(t, rp), Mixed(a.(free := a.free + {t}), parents, live - {rp}))
  {
    var b := a.(free := a.free + {t});
    var n, n' := Mixed(a, parents, live), Mixed(b, parents, live - {rp});
    forall r | r in n.loc && r != t ensures r in n'.loc && n'.loc[r] == n.loc[r] {}
    assert t in n.loc ==> n.loc[t] == ref;
    assert rp in n'.loc && n'.loc[rp] == ref;
    forall m: Machine, val: int -> int | Holds(n', m, val) ensures Holds(n, Exec(Move(t, rp), m, val), val) {
      MoveHolds(n, n', t, rp, ref, m, val);
    }
  }

  /** A move fills the register that the code behind needs and the code before need not fill. */
  lemma MoveHolds(n: Needs, n': Needs, t: int, src: int, ref: int, m: Machine, val: int -> int)
    requires Holds(n', m, val) && src in n'.loc && n'.loc[src] == ref && n.slot == n'.slot
    requires t in n.loc ==> n.loc[t] == ref
    requires forall r :: r in n.loc && r != t ==> r in n'.loc && n'.loc[r] == n.loc[r]
    ensures Holds(n, Exec(Move(t, src), m, val), val)
  {
    var m' := Exec(Move(t, src), m, val);
    forall r | r in n.loc ensures m'.regs(r) == val(n.loc[r]) {}
  }

  /** Breaking a cycle: the target in a live parent register moves to a free register. */
  lemma CycleBroken(a: Regs, b: Regs, parents: map<int, int>, of: map<int, int>, live: set<int>, allow: set<int>,
      down: int, up: int)
    requires Shuffling(a, parents, of, live, allow) && down in live && down !in a.free && up in a.free && up in allow
    requires |a.cost| == NREGS && 0 <= down < NREGS && 0 <= up < NREGS
    requires b == a.(free := a.free + {down} - {up}, weak := a.weak - {up},
      cost := a.cost[up := a.cost[down]][down := 0], reg := a.reg[RefOf(a.cost[down]) := up])
    ensures Shuffling(b, parents, of, live, allow)
  {
    Renamed(a, down, up);
    assert Named(a, down) && Owed(a, of, live, down);
    forall y | y in ALL && y !in b.free ensures Owed(b, of, live, y) {
      if y != up { assert Owed(a, of, live, y); }
    }
    forall p | p in live ensures Targeted(b, parents[p]) {
      assert Targeted(a, parents[p]);
      if RefOf(a.cost[down]) != parents[p] { assert a.reg[parents[p]] != down; }
    }
  }

  lemma CycleStep(a: Regs, b: Regs, parents: map<int, int>, live: set<int>, down: int, up: int)
    requires |a.cost| == NREGS && down in ALL && up in ALL && down !in a.free && up in a.free
    requires forall p :: p in parents && p !in live ==> p in a.free && p != up
    requires b == a.(free := a.free + {down} - {up}, weak := a.weak - {up},
      cost := a.cost[up := a.cost[down]][down := 0], reg := b.reg)
    ensures Step(Mixed(a, parents, live), Move(down, up), Mixed(b, parents, live))
  {
    var n, n', ref := Mixed(a, parents, live), Mixed(b, parents, live), RefOf(a.cost[down]);
    forall r | r in n.loc && r != down ensures r in n'.loc && n'.loc[r] == n.loc[r] {}
    assert down in n.loc ==> n.loc[down] == ref;
    assert up in n'.loc && n'.loc[up] == ref;
    forall m: Machine, val: int -> int | Holds(n', m, val) ensures Holds(n, Exec(Move(down, up), m, val), val) {
      MoveHolds(n, n', down, up, ref, m, val);
    }
  }

  lemma SameSlots(a: Regs, b: Regs)
    requires |a.cost| == |b.cost| == NREGS && a.spill == b.spill
    ensures NeedsOf(a).slot == NeedsOf(b).slot
  {}

  /** At the start only the targets count, at the end only the parent registers. */
  lemma ShuffleEnds(a: Regs, parents: map<int, int>, of: map<int, int>, live: set<int>, allow: set<int>)
    requires Shuffling(a, parents, of, live, allow)
    ensures live == parents.Keys ==> Mixed(a, parents, live) == NeedsOf(a)
    ensures live == {} ==> Mixed(a, parents, live) == Needs(parents, NeedsOf(a).slot) && a.free == ALL
  {
    if live == parents.Keys {
      assert parents - live == map[];
      assert NeedsOf(a).loc + map[] == NeedsOf(a).loc;
    }
    if live == {} {
      forall x | x in ALL ensures x in a.free { assert x !in a.free ==> Owed(a, of, live, x); }
      assert NeedsOf(a).loc == map[];
      assert parents - live == parents;
      assert map[] + parents == parents;
    }
  }

  /** The reference in register `x`, and no other, has no register any more. */
  ghost predicate Loses(reg: map<int, int>, reg': map<int, int>, x: int) {
    && reg'.Keys == reg.Keys
    && forall ref :: ref in reg && ref in reg' ==> (reg'[ref] == reg[ref] || (reg[ref] == x && NoReg(reg'[ref])))
  }

  class Asm {
    var freeset: set<int>
    var modset: set<int>
    var weakset: set<int>
    const cost: array<int>
    /** The register, or hint, and the spill slot of each reference. */
    var reg: map<int, int>
    var spill: map<int, int>
    var evenspill: int
    var oddspill: int
    /** What has been emitted. */
    var code: seq<Instr>
    /** The references that are 64 bits wide, the PHIs, and the start of the loop. */
    const wide: set<int>
    const phis: set<int>
    const loopref: int
    const scratch: set<int>

    /** ra_setup, for references without registers. */
    constructor (refs: set<int>, wide: set<int>, phis: set<int>, loopref: int, scratch: set<int>)
      requires forall ref :: ref in refs ==> 0 <= ref < 0x1_0000
      ensures Inv() && freeset == ALL && code == [] && reg.Keys == refs
    {
      this.wide, this.phis, this.loopref, this.scratch := wide, phis, loopref, scratch;
      freeset, modset, weakset := ALL, {}, {};
      cost := new int[NREGS](_ => 0xffff_0000);
      reg := map ref | ref in refs :: RID_INIT;
      spill := map ref | ref in refs :: 0;
      evenspill, oddspill := 2, 0;
      code := [];
    }

    ghost function State(): Regs
      reads this`freeset, this`weakset, this`reg, this`spill, cost
    {
      Regs(freeset, weakset, cost[..], reg, spill, wide)
    }

    ghost predicate Inv()
      reads this, cost
    {
      && cost.Length == NREGS && MapOk(State()) && SpillOk(State(), evenspill, oddspill)
      && forall ref :: ref in reg ==> 0 <= ref < 0x1_0000
    }

    /** What the code emitted so far relies on. */
    ghost function Now(): Needs
      reads this`freeset, this`weakset, this`reg, this`spill, cost
      requires cost.Length == NREGS
    {
      NeedsOf(State())
    }

    /** ra_rematk. */
    method RematK(ref: int) returns (x: int)
      requires Inv() && ref in reg && !NoReg(reg[ref]) && CanRemat(ref)
      requires reg[ref] in ALL && reg[ref] !in freeset && RefOf(cost[reg[ref]]) == ref
      modifies this`freeset, this`modset, this`reg, this`code
      ensures Inv() && x == old(reg)[ref] && freeset == old(freeset) + {x}
      ensures NoReg(reg[ref]) && reg == old(reg)[ref := reg[ref]]
      ensures code == old(code) + [Remat(x, ref)] && Sound(old(Now()), [Remat(x, ref)], Now())
    {
      hide MapOk, SpillOk, Sound, Step, NeedsOf;
      x := reg[ref];
      ghost var a := State();
      freeset := freeset + {x};
      modset := modset + {x};
      reg := reg[ref := if ref == REF_BASE then RID_BASE + RID_NONE else RID_INIT];
      code := code + [Remat(x, ref)];
      Released(a, State(), x, ref, reg[ref]);
      SpillSame(a, State(), evenspill, oddspill);
      RematStep(a, State(), x, ref);
      SoundOne(NeedsOf(a), Remat(x, ref), Now());
    }

    lemma SpillSame(a: Regs, b: Regs, even: int, odd: int)
      requires SpillOk(a, even, odd) && b.spill == a.spill && b.wide == a.wide
      ensures SpillOk(b, even, odd)
    {
      forall ref | ref in b.spill ensures SlotOk(b, even, odd, ref) { assert SlotOk(a, even, odd, ref); }
      forall p, q | p in b.spill && q in b.spill ensures SlotsApart(b, p, q) { assert SlotsApart(a, p, q); }
    }

    /** Since `c0` had been emitted for `n0`, what has been emitted keeps up what it needs. */
    ghost predicate Since(n0: Needs, c0: seq<Instr>)
      reads this, cost
      requires cost.Length == NREGS
    {
      c0 <= code && Sound(n0, code[|c0|..], Now())
    }

    /** Reference `ref` is in a register of its own. */
    ghost predicate InReg(ref: int)
      reads this, cost
      requires cost.Length == NREGS
    {
      ref in reg && reg[ref] in ALL && reg[ref] !in freeset && RefOf(cost[reg[ref]]) == ref
    }

    /** ra_spill; without a slot assembly is aborted. */
    method Spill(ref: int) returns (ok: bool)
      requires Inv() && ref in spill && !CanRemat(ref)
      modifies this`spill, this`evenspill, this`oddspill
      ensures ok ==> Inv() && spill == old(spill)[ref := spill[ref]] && spill[ref] != 0
      ensures ok && old(spill)[ref] != 0 ==> spill == old(spill)
      ensures ok <==> old(spill)[ref] != 0 || (ref !in wide && old(oddspill) != 0) || old(evenspill) + 2 <= 256
      ensures !ok ==> evenspill > 256
    {
      if spill[ref] != 0 {
        SpillAt(State(), evenspill, oddspill, ref);
        assert spill == spill[ref := spill[ref]];
        return true;
      }
      ghost var a, even, odd := State(), evenspill, oddspill;
      var slot;
      if ref in wide {
        slot := evenspill;
        evenspill := evenspill + 2;
      } else if oddspill != 0 {
        slot := oddspill;
        oddspill := 0;
      } else {
        slot := evenspill;
        oddspill := slot + 1;
        evenspill := evenspill + 2;
      }
      if evenspill > SPILL_LIMIT {
        return false;
      }
      NewSlot(a, even, odd, ref, slot, evenspill, oddspill);
      spill := spill[ref := slot];
      MapSame(a, State());
      return true;
    }

    lemma SpillAt(a: Regs, even: int, odd: int, ref: int)
      requires SpillOk(a, even, odd) && ref in a.spill
      ensures SlotOk(a, even, odd, ref)
    {}

    lemma MapSame(a: Regs, b: Regs)
      requires MapOk(a) && b == a.(spill := b.spill) && b.spill.Keys == a.spill.Keys
      ensures MapOk(b)
    {
      forall y | y in ALL && y !in b.free ensures Named(b, y) { assert Named(a, y); }
    }

    /** ra_restore: the reference loses its register, to be loaded again for the code that follows. */
    method Restore(ref: int) returns (ok: bool, x: int)
      requires Inv() && InReg(ref)
      modifies this`freeset, this`modset, this`reg, this`code, this`spill, this`evenspill, this`oddspill
      ensures ok ==> Inv() && x == old(reg)[ref] && freeset == old(freeset) + {x}
      ensures ok ==> ref in reg && reg == old(reg)[ref := reg[ref]] && NoReg(reg[ref])
      ensures ok ==> Since(old(Now()), old(code))
      ensures ok <==>
        CanRemat(ref) || old(ref in spill && spill[ref] != 0) || (ref !in wide && old(oddspill) != 0) ||
        old(evenspill) + 2 <= 256
      ensures !ok ==> evenspill > 256
    {
      hide MapOk, SpillOk, Sound, Step, NeedsOf, SlotOk;
      if CanRemat(ref) {
        ghost var c0 := code;
        x := RematK(ref);
        assert code[|c0|..] == [Remat(x, ref)];
        return true, x;
      }
      ghost var a, c0 := State(), code;
      Keys(a);
      ok := Spill(ref);
      x := reg[ref];
      if !ok { return; }
      ghost var b := State();
      reg := reg[ref := x + RID_NONE];
      freeset := freeset + {x};
      Released(b, State(), x, ref, reg[ref]);
      SpillSame(b, State(), evenspill, oddspill);
      RestoreStep(a, State(), x, ref);
      if x !in weakset {
        modset := modset + {x};
        code := code + [Load(x, spill[ref])];
        SoundOne(NeedsOf(a), Load(x, spill[ref]), Now());
        assert code[|c0|..] == [Load(x, spill[ref])];
      } else {
        assert code[|c0|..] == [];
      }
    }

    lemma Keys(a: Regs)
      requires MapOk(a)
      ensures |a.cost| == NREGS && a.reg.Keys == a.spill.Keys && a.free <= ALL
    {}

    /** Register `x` has the lowest cost of those in `allow`. */
    ghost predicate Cheapest(x: int, allow: set<int>)
      reads cost
      requires cost.Length == NREGS
    {
      x in allow && 0 <= x < NREGS && forall y :: y in allow && 0 <= y < NREGS ==> cost[x] <= cost[y]
    }

    /** The search of ra_evict through the registers of one kind. */
    method MinCost(allow: set<int>) returns (c: int, ghost x: int)
      requires Inv() && OneKind(allow) && forall y :: y in allow ==> y !in freeset
      ensures Cheapest(x, allow) && c == cost[x]
    {
      hide SpillOk;
      var lo, hi := if allow <= GPR then 0 else RID_MAX_GPR, if allow <= GPR then RID_MAX_GPR else NREGS;
      c := 0xffff_ffff;
      x := -1;
      var i := lo;
      while i < hi
        invariant lo <= i <= hi && 0 <= c < 0x1_0000_0000
        invariant x == -1 ==> c == 0xffff_ffff
        invariant x != -1 ==> x in allow && lo <= x < i && cost[x] == c
        invariant forall y :: y in allow && lo <= y < i ==> c <= cost[y]
      {
        if i in allow {
          NamedAt(State(), i);
          if cost[i] < c {
            c := cost[i];
            x := i;
          }
        }
        i := i + 1;
      }
      if x == -1 {
        x := AllowedOne(allow, lo, hi);
        NamedAt(State(), x);
      }
    }

    lemma AllowedOne(allow: set<int>, lo: int, hi: int) returns (x: int)
      requires allow != {} && 0 <= lo && hi <= 32 && forall y :: y in allow ==> lo <= y < hi
      ensures x in allow && lo <= x < hi
    {
      x := LeastFrom(allow, 0);
      assert x == 32 ==> allow == {};
    }

    /** ra_evict: free the register with the lowest cost, or a weak one instead if that one is not. */
    method Evict(allow: set<int>) returns (ok: bool, x: int)
      requires Inv() && OneKind(allow) && forall y :: y in allow ==> y !in freeset
      modifies this`freeset, this`modset, this`reg, this`code, this`spill, this`evenspill, this`oddspill
      ensures ok ==> Inv() && x in allow && freeset == old(freeset) + {x} && Since(old(Now()), old(code))
      ensures ok ==> Loses(old(reg), reg, x)
      ensures ok ==> Cheapest(x, allow) || x in weakset
      ensures !ok ==> evenspill > 256
    {
      hide MapOk, SpillOk, Sound, NeedsOf;
      var c, best := MinCost(allow);
      NamedAt(State(), best);
      var ref := RefOf(c);
      if ref >= REF_BASE && weakset * allow != {} {
        if reg[ref] !in weakset {
          WeakOne(allow);
          var w := LeastFrom(weakset * allow, 0);
          NamedAt(State(), w);
          ref := RefOf(cost[w]);
        }
      }
      ok, x := Restore(ref);
    }

    lemma WeakOne(allow: set<int>)
      requires weakset * allow != {} && (allow <= GPR || allow <= FPR)
      ensures LeastFrom(weakset * allow, 0) < 32
    {
      var w :| w in weakset * allow;
    }

    /** ra_pick: any allowed register, freed if need be. */
    method Pick(allow: set<int>) returns (ok: bool, x: int)
      requires Inv() && OneKind(allow)
      modifies this`freeset, this`modset, this`reg, this`code, this`spill, this`evenspill, this`oddspill
      ensures ok ==> Inv() && x in allow && x in freeset && freeset == old(freeset) + {x}
      ensures ok ==> Since(old(Now()), old(code)) && Loses(old(reg), reg, x)
      ensures old(freeset) * allow != {} ==> ok && x in old(freeset) && code == old(code) && reg == old(reg)
      ensures !ok ==> evenspill > 256
    {
      hide MapOk, SpillOk, Sound, NeedsOf;
      var pick := freeset * allow;
      if pick == {} {
        forall y | y in allow ensures y !in freeset { assert y in freeset ==> y in pick; }
        ok, x := Evict(allow);
      } else {
        x := MostBelow(pick, 32);
        TopOne(pick);
        SoundNothing(Now());
        assert code[|code|..] == [];
        assert freeset == freeset + {x};
        ok := true;
      }
    }

    lemma TopOne(s: set<int>)
      requires s != {} && (s <= GPR || s <= FPR)
      ensures MostBelow(s, 32) in s
    {
      assert MostBelow(s, 32) == -1 ==> s == {};
    }

    lemma BottomOne(s: set<int>)
      requires s != {} && (s <= GPR || s <= FPR)
      ensures LeastFrom(s, 0) in s
    {
      assert LeastFrom(s, 0) == 32 ==> s == {};
    }

    /** ra_scratch. */
    method Scratch(allow: set<int>) returns (ok: bool, x: int)
      requires Inv() && OneKind(allow)
      modifies this`freeset, this`modset, this`reg, this`code, this`spill, this`evenspill, this`oddspill
      ensures ok ==> Inv() && x in allow && x in freeset && freeset == old(freeset) + {x} && x in modset
      ensures ok ==> Since(old(Now()), old(code)) && Loses(old(reg), reg, x)
      ensures old(freeset) * allow != {} ==> ok && x in old(freeset) && code == old(code) && reg == old(reg)
      ensures !ok ==> evenspill > 256
    {
      ok, x := Pick(allow);
      modset := modset + {x};
    }

    /** The first and the second loop of ra_evictset. */
    method EvictAll(work0: set<int>, ghost n0: Needs, ghost c0: seq<Instr>) returns (ok: bool)
      requires Inv() && work0 <= ALL && work0 !! freeset && Since(n0, c0)
      modifies this`freeset, this`modset, this`reg, this`code, this`spill, this`evenspill, this`oddspill
      ensures ok ==> Inv() && freeset == old(freeset) + work0 && Since(n0, c0)
      ensures !ok ==> evenspill > 256
    {
      hide MapOk, SpillOk, Sound, NeedsOf;
      var work := work0;
      while work != {}
        invariant Inv() && work <= work0 && work !! freeset && freeset == old(freeset) + (work0 - work) && Since(n0, c0)
        decreases work
      {
        var x := LeastFrom(work, 0);
        BottomAll(work);
        NamedAt(State(), x);
        ghost var n1, c1 := Now(), code;
        var y;
        ok, y := Restore(RefOf(cost[x]));
        if !ok { return; }
        SoundThen(n0, c1[|c0|..], n1, code[|c1|..], Now());
        assert code[|c0|..] == c1[|c0|..] + code[|c1|..];
        work := work - {x};
      }
      ok := true;
    }

    lemma BottomAll(s: set<int>)
      requires s != {} && s <= ALL
      ensures LeastFrom(s, 0) in s
    {
      assert LeastFrom(s, 0) == 32 ==> s == {};
    }

    /** ra_evictset. */
    method EvictSet(drop: set<int>) returns (ok: bool)
      requires Inv() && drop <= ALL
      modifies this`freeset, this`modset, this`reg, this`code, this`spill, this`evenspill, this`oddspill
      ensures ok ==> Inv() && freeset == old(freeset) + drop && Since(old(Now()), old(code))
      ensures !ok ==> evenspill > 256
    {
      hide MapOk, SpillOk, Sound, NeedsOf;
      ghost var n0, c0 := Now(), code;
      SoundNothing(n0);
      assert code[|c0|..] == [];
      modset := modset + drop;
      ok := EvictAll((drop - freeset) * FPR, n0, c0);
      if ok { ok := EvictAll(drop - freeset, n0, c0); }
    }

    /** ra_allocref: a reference without a register gets one of those allowed. */
    method AllocRef(ref: int, allow: set<int>) returns (ok: bool, x: int)
      requires Inv() && OneKind(allow) && ref in reg && NoReg(reg[ref])
      modifies this`freeset, this`modset, this`weakset, this`reg, this`code, this`spill, this`evenspill,
        this`oddspill, cost
      ensures ok ==> Inv() && x in allow && InReg(ref) && reg[ref] == x && freeset == old(freeset) - {x}
      ensures ok ==> Since(old(Now()), old(code))
      ensures ok ==> forall y :: y in ALL && y !in freeset && y != x ==> cost[y] == old(cost[y])
      ensures ok ==> cost[x] == CostOf(ref, ref in phis)
      ensures old(freeset) * allow != {} ==> ok
      ensures old(reg[ref]) < RID_SUNK && old(reg[ref]) - RID_NONE in old(freeset) * allow ==>
        x == old(reg[ref]) - RID_NONE
      ensures !ok ==> evenspill > 256
    {
      hide MapOk, SpillOk, Sound, NeedsOf;
      ghost var n0, c0 := Now(), code;
      ok, x := FindReg(ref, allow);
      if !ok { return; }
      ghost var a := State();
      Taken(a, x, ref, ref in phis);
      reg := reg[ref := x];
      freeset := freeset - {x};
      weakset := weakset - {x};
      cost[x] := CostOf(ref, ref in phis);
      assert State() == a.(free := a.free - {x}, weak := a.weak - {x}, cost := a.cost[x := CostOf(ref, ref in phis)],
        reg := a.reg[ref := x]);
      SpillSame(a, State(), evenspill, oddspill);
      SoundWithin(n0, code[|c0|..], NeedsOf(a), Now());
    }

    /** The choice of ra_allocref: the hint if it is free or only holds a constant, else a free
        register by preference, else one that is evicted. */
    method FindReg(ref: int, allow: set<int>) returns (ok: bool, x: int)
      requires Inv() && OneKind(allow) && ref in reg && NoReg(reg[ref])
      modifies this`freeset, this`modset, this`reg, this`code, this`spill, this`evenspill, this`oddspill
      ensures ok ==> Inv() && x in allow && x in freeset && freeset == old(freeset) + {x}
      ensures ok ==> Since(old(Now()), old(code)) && ref in reg && NoReg(reg[ref])
      ensures old(freeset) * allow != {} ==> ok
      ensures old(reg[ref]) < RID_SUNK && old(reg[ref]) - RID_NONE in old(freeset) * allow ==>
        x == old(reg[ref]) - RID_NONE
      ensures !ok ==> evenspill > 256
    {
      hide MapOk, SpillOk, Sound, NeedsOf;
      var pick := freeset * allow;
      if pick == {} {
        forall y | y in allow ensures y !in freeset { assert y in freeset ==> y in pick; }
        ok, x := Evict(allow);
        return;
      }
      SoundNothing(Now());
      assert code[|code|..] == [];
      if reg[ref] < RID_SUNK {
        x := reg[ref] - RID_NONE;
        if x in pick {
          assert freeset == freeset + {x};
          return true, x;
        }
        if x in allow {
          NamedAt(State(), x);
          if CanRemat(RefOf(cost[x])) {
            ghost var c0 := code;
            var y := RematK(RefOf(cost[x]));
            assert code[|c0|..] == [Remat(x, RefOf(cost[x]))];
            return true, x;
          }
        }
      }
      if ref < loopref && ref !in phis {
        if pick - modset != {} { pick := pick - modset; }
        x := LeastFrom(pick, 0);
        BottomOne(pick);
      } else {
        if pick - scratch != {} { pick := pick - scratch; }
        x := MostBelow(pick, 32);
        TopOne(pick);
      }
      assert freeset == freeset + {x};
      ok := true;
    }

    /** ra_alloc1. */
    method Alloc1(ref: int, allow: set<int>) returns (ok: bool, x: int)
      requires Inv() && OneKind(allow) && ref in reg && (NoReg(reg[ref]) || InReg(ref))
      modifies this`freeset, this`modset, this`weakset, this`reg, this`code, this`spill, this`evenspill,
        this`oddspill, cost
      ensures ok ==> Inv() && InReg(ref) && reg[ref] == x && x !in weakset && Since(old(Now()), old(code))
      ensures ok && old(NoReg(reg[ref])) ==> x in allow
      ensures old(!NoReg(reg[ref])) ==> ok && x == old(reg[ref]) && freeset == old(freeset) && reg == old(reg)
      ensures !ok ==> evenspill > 256
    {
      hide MapOk, SpillOk, Sound, NeedsOf;
      ghost var n0, c0 := Now(), code;
      SoundNothing(Now());
      assert code[|code|..] == [];
      x := reg[ref];
      ok := true;
      if NoReg(x) {
        ok, x := AllocRef(ref, allow);
        if !ok { return; }
      }
      ghost var a := State();
      weakset := weakset - {x};
      Stronger(a, State(), x);
      SpillSame(a, State(), evenspill, oddspill);
      SoundWithin(n0, code[|c0|..], NeedsOf(a), Now());
    }

    lemma Stronger(a: Regs, b: Regs, x: int)
      requires MapOk(a) && b == a.(weak := a.weak - {x})
      ensures MapOk(b) && Within(NeedsOf(a), NeedsOf(b))
    {
      forall y | y in ALL && y !in b.free ensures Named(b, y) { assert Named(a, y); }
    }

    /** ra_rename: the reference in `down` moves to the free register `up`, for the code before. */
    method Rename(down: int, up: int)
      requires Inv() && down in ALL && down !in freeset && up in freeset && 0 <= up < NREGS && 0 <= down < NREGS
      modifies this`freeset, this`modset, this`weakset, this`reg, this`code, cost
      ensures Inv() && freeset == old(freeset) + {down} - {up} && weakset == old(weakset) - {up}
      ensures var ref := RefOf(old(cost[down])); ref in old(reg) && reg == old(reg)[ref := up] && RefOf(cost[up]) == ref
      ensures code == old(code) + [Move(down, up)] && Step(old(Now()), Move(down, up), Now())
      ensures var a := old(State());
        State() == a.(free := a.free + {down} - {up}, weak := a.weak - {up},
          cost := a.cost[up := a.cost[down]][down := 0], reg := a.reg[RefOf(a.cost[down]) := up])
    {
      hide MapOk, SpillOk, Sound, NeedsOf, Step;
      ghost var a := State();
      Keys(a);
      Renamed(a, down, up);
      NamedAt(a, down);
      cost[up] := cost[down];
      var ref := RefOf(cost[up]);
      reg := reg[ref := up];
      cost[down] := 0;
      freeset := freeset + {down};
      modset := modset + {down};
      freeset := freeset - {up};
      weakset := weakset - {up};
      assert State() == a.(free := a.free + {down} - {up}, weak := a.weak - {up},
        cost := a.cost[up := a.cost[down]][down := 0], reg := a.reg[ref := up]);
      RenameStep(a, State(), down, up);
      SpillSame(a, State(), evenspill, oddspill);
      code := code + [Move(down, up)];
    }

    /** ra_dest: the register an instruction puts its result into. */
    method Dest(ref: int, allow: set<int>) returns (ok: bool, x: int)
      requires Inv() && OneKind(allow) && ref in reg && (NoReg(reg[ref]) || InReg(ref))
      modifies this`freeset, this`modset, this`reg, this`code, this`spill, this`evenspill, this`oddspill
      ensures ok ==>
          Inv() && x in freeset && freeset == old(freeset) + {x} && x in modset && ref in reg && reg[ref] == x
      ensures ok ==> old(code) <= code && DefSound(old(Now()), code[|old(code)|..], Now(), ref, x)
      ensures old(!NoReg(reg[ref])) ==> ok && x == old(reg[ref])
      ensures ok && old(NoReg(reg[ref])) ==> x in allow
      ensures old(reg[ref]) < RID_SUNK && old(reg[ref]) - RID_NONE in old(freeset) * allow ==>
        ok && x == old(reg[ref]) - RID_NONE
      ensures !ok ==> evenspill > 256
    {
      hide MapOk, SpillOk, Sound, NeedsOf, With, DefSound;
      ghost var a, c0 := State(), code;
      SoundNothing(Now());
      assert code[|code|..] == [];
      ok := true;
      x := reg[ref];
      ghost var b := a;
      if !NoReg(x) {
        freeset := freeset + {x};
        modset := modset + {x};
        FreedWith(a, State(), x, ref);
        Looser(a, State(), x, ref);
      } else {
        if x < RID_SUNK && x - RID_NONE in freeset * allow {
          x := x - RID_NONE;
          modset := modset + {x};
          assert freeset == freeset + {x};
        } else {
          ok, x := Scratch(allow);
          if !ok { return; }
        }
        b := State();
        SoundWith(NeedsOf(a), code[|c0|..], Now(), ref, x);
        reg := reg[ref := x];
        Looser(b, State(), x, ref);
      }
      SpillSame(b, State(), evenspill, oddspill);
      ghost var c1 := code;
      SlotsDiffer(State(), evenspill, oddspill, ref);
      if spill[ref] != 0 {
        code := code + [Store(spill[ref], x)];
        SavedDef(NeedsOf(a), c1[|c0|..], Now(), ref, x);
        assert code[|c0|..] == c1[|c0|..] + [Store(spill[ref], x)];
      } else {
        UnsavedDef(NeedsOf(a), c1[|c0|..], Now(), ref, x);
      }
    }

    lemma Looser(a: Regs, b: Regs, x: int, ref: int)
      requires MapOk(a) && x in ALL && ref in a.reg
      requires b == a.(free := a.free + {x}, reg := a.reg[ref := x])
      requires NoReg(a.reg[ref]) || a.reg[ref] == x
      ensures MapOk(b) && (x in a.free ==> NeedsOf(b) == NeedsOf(a))
    {
      forall y | y in ALL && y !in b.free ensures Named(b, y) { assert Named(a, y); }
      if x in a.free { assert a.free + {x} == a.free; }
    }

    lemma SlotsDiffer(a: Regs, even: int, odd: int, ref: int)
      requires MapOk(a) && SpillOk(a, even, odd) && ref in a.spill
      ensures var n := NeedsOf(a);
        && (ref in n.slot <==> a.spill[ref] != 0)
        && (ref in n.slot ==> n.slot[ref] == a.spill[ref])
        && (forall p :: p in n.slot && p != ref && ref in n.slot ==> n.slot[p] != n.slot[ref])
    {
      forall p | p in a.spill && p != ref && a.spill[p] != 0 && a.spill[ref] != 0 ensures a.spill[p] != a.spill[ref] {
        assert SlotsApart(a, p, ref);
      }
    }

    /** ra_destreg: the same with the result coming in register `r`. */
    method DestReg(ref: int, r: int) returns (ok: bool)
      requires Inv() && r in ALL && ref in reg && (NoReg(reg[ref]) || InReg(ref))
      requires !NoReg(reg[ref]) && reg[ref] != r ==> r in freeset
      modifies this`freeset, this`modset, this`reg, this`code, this`spill, this`evenspill, this`oddspill
      ensures ok ==> Inv() && r in freeset && r in modset
      ensures ok ==> old(code) <= code && DefSound(old(Now()), code[|old(code)|..], Now(), ref, r)
      ensures !ok ==> evenspill > 256
    {
      hide MapOk, SpillOk, DefSound;
      ghost var n0, c0 := Now(), code;
      var x;
      ok, x := Dest(ref, {r});
      if ok && x != r {
        modset := modset + {r};
        ghost var c1 := code;
        code := code + [Move(x, r)];
        MovedDef(n0, c1[|c0|..], Now(), ref, x, r);
        assert code[|c0|..] == c1[|c0|..] + [Move(x, r)];
      }
    }

    /** The shuffle so far, since `c0` had been emitted for `n0`. */
    ghost predicate Going(parents: map<int, int>, of: map<int, int>, live: set<int>, allow: set<int>, n0: Needs,
        c0: seq<Instr>)
      reads this, cost
    {
      && Inv() && Shuffling(State(), parents, of, live, allow) && c0 <= code
      && Sound(n0, code[|c0|..], Mixed(State(), parents, live))
    }

    /** One more move keeps the shuffle going. */
    lemma MoreCode(n0: Needs, c0: seq<Instr>, c1: seq<Instr>, n1: Needs, i: Instr, n2: Needs)
      requires c0 <= c1 && Sound(n0, c1[|c0|..], n1) && Step(n1, i, n2)
      ensures Sound(n0, (c1 + [i])[|c0|..], n2)
    {
      hide Sound, Step;
      SoundOne(n1, i, n2);
      SoundThen(n0, c1[|c0|..], n1, [i], n2);
      assert (c1 + [i])[|c0|..] == c1[|c0|..] + [i];
    }

    /** Fill the target of a free live parent register. */
    method Coalesce(parents: map<int, int>, ghost of: map<int, int>, ghost live: set<int>, ghost allow: set<int>,
                    rp: int, ghost n0: Needs, ghost c0: seq<Instr>)
      requires Going(parents, of, live, allow, n0, c0) && rp in live && rp in freeset
      modifies this`freeset, this`code
      ensures Going(parents, of, live - {rp}, allow - {rp}, n0, c0) && freeset > old(freeset)
    {
      hide MapOk, SpillOk, Sound, Step, Shuffling, Mixed;
      ghost var a, c1 := State(), code;
      ShufflingFacts(a, parents, of, live, allow);
      Coalesced(a, parents, of, live, allow, rp);
      var ref := parents[rp];
      var t := reg[ref];
      CoalescedStep(a, parents, live, rp, t, ref);
      freeset := freeset + {t};
      code := code + [Move(t, rp)];
      ShufflingFacts(State(), parents, of, live - {rp}, allow - {rp});
      SpillSame(a, State(), evenspill, oddspill);
      MoreCode(n0, c0, c1, Mixed(a, parents, live), Move(t, rp), Mixed(State(), parents, live - {rp}));
    }

    lemma ShufflingFacts(a: Regs, parents: map<int, int>, of: map<int, int>, live: set<int>, allow: set<int>)
      requires Shuffling(a, parents, of, live, allow)
      ensures MapOk(a) && live <= parents.Keys <= ALL && a.free <= ALL
      ensures forall p :: p in parents && p !in live ==> p in a.free && p !in allow
    {}

    /** Move the target in the live parent register `down` to the free register `up`. */
    method BreakCycle(ghost parents: map<int, int>, ghost of: map<int, int>, ghost live: set<int>,
                      ghost allow: set<int>, down: int, up: int, ghost n0: Needs, ghost c0: seq<Instr>)
      requires Going(parents, of, live, allow, n0, c0) && down in live && down !in freeset && up in freeset &&
        up in allow
      modifies this`freeset, this`modset, this`weakset, this`reg, this`code, cost
      ensures Going(parents, of, live, allow, n0, c0) && freeset == old(freeset) + {down} - {up}
    {
      hide MapOk, SpillOk, Sound, Step, Shuffling, Mixed, NeedsOf;
      ghost var a, c1 := State(), code;
      ShufflingFacts(a, parents, of, live, allow);
      Rename(down, up);
      ghost var b := State();
      CycleBroken(a, b, parents, of, live, allow, down, up);
      CycleStep(a, b, parents, live, down, up);
      MoreCode(n0, c0, c1, Mixed(a, parents, live), Move(down, up), Mixed(b, parents, live));
    }

    /** The inner loop of the shuffle: as long as a live parent register is free, it is moved to its
        target. */
    method CoalesceAll(parents: map<int, int>, ghost of: map<int, int>, live0: set<int>, allow0: set<int>,
                       ghost n0: Needs, ghost c0: seq<Instr>) returns (live: set<int>, allow: set<int>)
      requires Going(parents, of, live0, allow0, n0, c0)
      modifies this`freeset, this`code
      ensures Going(parents, of, live, allow, n0, c0) && freeset * live == {} && live <= live0
      ensures allow == allow0 - (live0 - live)
      ensures old(freeset) * live0 != {} ==> live < live0
    {
      hide MapOk, SpillOk, Sound, Shuffling, Mixed, NeedsOf;
      live, allow := live0, allow0;
      ghost var first := freeset * live == {};
      while freeset * live != {}
        invariant Going(parents, of, live, allow, n0, c0) && live <= live0 && allow == allow0 - (live0 - live)
        invariant live == live0 ==> (first <==> freeset * live == {})
        decreases live
      {
        var rp := LeastFrom(freeset * live, 0);
        ShufflingFacts(State(), parents, of, live, allow);
        BottomAll(freeset * live);
        ghost var l, a := live, allow;
        live := live - {rp};
        allow := allow - {rp};
        Coalesce(parents, of, l, a, rp, n0, c0);
      }
    }

    /** Break the cycles of one kind of registers, by renaming one target. */
    method BreakKind(kind: set<int>, ghost parents: map<int, int>, ghost of: map<int, int>, live: set<int>,
                     allow: set<int>, ghost n0: Needs, ghost c0: seq<Instr>) returns (ok: bool)
      requires Going(parents, of, live, allow, n0, c0) && (kind == GPR || kind == FPR)
      requires live * kind != {} ==> freeset * live * kind == {}
      modifies this`freeset, this`modset, this`weakset, this`reg, this`code, cost
      ensures ok ==> Going(parents, of, live, allow, n0, c0)
      ensures ok && live * kind != {} ==> freeset * live * kind != {}
      ensures ok ==> freeset - kind == old(freeset) - kind
      ensures ok <==> live * kind == {} || old(freeset - live) * allow * kind != {}
      ensures !ok || live * kind == {} ==> freeset == old(freeset)
    {
      hide MapOk, SpillOk, Sound, Shuffling, Mixed, NeedsOf;
      ok := true;
      if live * kind != {} {
        var tmpset := (freeset - live) * allow * kind;
        if tmpset == {} { return false; }
        ShufflingFacts(State(), parents, of, live, allow);
        BottomAll(live * kind);
        BottomAll(tmpset);
        var down := LeastFrom(live * kind, 0);
        var up := LeastFrom(tmpset, 0);
        assert down !in freeset by { assert down in freeset ==> down in freeset * live * kind; }
        BreakCycle(parents, of, live, allow, down, up, n0, c0);
        assert down in freeset * live * kind;
      }
    }

    /** Put every coalesced value into place: the shuffle of asm_head_side. `parents` gives the
        reference that each live parent register holds. When a cycle cannot be broken assembly is
        aborted: no register of the kind that is needed is free, allowed and not a parent register
        that is still to be read. */
    method Shuffle(parents: map<int, int>, ghost of: map<int, int>, allow0: set<int>)
        returns (ok: bool, ghost stuck: set<int>)
      requires Inv() && Shuffling(State(), parents, of, parents.Keys, allow0)
      modifies this`freeset, this`modset, this`weakset, this`reg, this`code, cost
      ensures ok ==> Inv() && freeset == ALL && old(code) <= code
      ensures ok ==> Sound(old(Now()), code[|old(code)|..], Needs(parents, old(Now()).slot))
      ensures !ok ==> stuck <= parents.Keys && Blocked(stuck, freeset, allow0 - (parents.Keys - stuck))
    {
      hide MapOk, SpillOk, Sound, Shuffling, Mixed, NeedsOf;
      var live, allow := parents.Keys, allow0;
      ghost var n0, c0 := Now(), code;
      ShuffleEnds(State(), parents, of, live, allow);
      SoundNothing(n0);
      assert code[|c0|..] == [];
      ok, stuck := true, {};
      while true
        invariant ok && Going(parents, of, live, allow, n0, c0) && live <= parents.Keys
        invariant allow == allow0 - (parents.Keys - live)
        decreases 2 * |live| + if freeset * live == {} then 1 else 0
      {
        ghost var live0 := live;
        live, allow := CoalesceAll(parents, of, live, allow, n0, c0);
        Fewer(live, live0);
        assert allow == allow0 - (parents.Keys - live);
        if live == {} { break; }
        ShufflingFacts(State(), parents, of, live, allow);
        ghost var free0 := freeset;
        NoneFree(live, freeset);
        ok := BreakKind(GPR, parents, of, live, allow, n0, c0);
        if !ok {
          stuck := live;
          return;
        }
        OtherKind(live, free0, freeset);
        ok := BreakKind(FPR, parents, of, live, allow, n0, c0);
        if !ok {
          stuck := live;
          return;
        }
        SomeFree(live, freeset);
      }
      ShuffleEnds(State(), parents, of, live, allow);
      SameSlots(old(State()), State());
    }

    lemma NoneFree(live: set<int>, free: set<int>)
      requires free * live == {}
      ensures free * live * GPR == {} && free * live * FPR == {}
    {}

    /** Changes among the registers of one kind are none among the other. */
    lemma OtherKind(live: set<int>, free: set<int>, free': set<int>)
      requires free * live == {} && free' - GPR == free - GPR
      ensures free' * live * FPR == {}
    {
      forall x ensures x !in free' * live * FPR {
        assert x in free' && x in FPR ==> x in free' - GPR;
        assert x in free - GPR && x in live ==> x in free * live;
      }
    }

    lemma SomeFree(live: set<int>, free: set<int>)
      requires live != {} && live <= ALL
      requires live * GPR != {} ==> free * live * GPR != {} || free * live != {}
      requires live * FPR != {} ==> free * live * FPR != {}
      ensures free * live != {}
    {
      assert live == live * GPR + live * FPR;
    }

    lemma Fewer(a: set<int>, b: set<int>)
      requires a <= b
      ensures |a| <= |b| && (a < b ==> |a| < |b|)
    {
      var d := b - a;
      assert b == a + d;
      assert a < b ==> d != {};
    }
  }

  /** A kind of registers that is needed and of which none can be had. */
  ghost predicate Blocked(live: set<int>, free: set<int>, allow: set<int>) {
    || (live * GPR != {} && (free - live) * allow * GPR == {})
    || (live * FPR != {} && (free - live) * allow * FPR == {})
  }
}
