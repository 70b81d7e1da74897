/** Code generated backwards, and what running it does to the values of IR references. */
module RegMachine {
  /** One emitted instruction. */
  datatype Instr =
    | Move(dst: int, src: int)
    | Load(reg: int, slot: int)
    | Store(slot: int, reg: int)
    | Remat(reg: int, ref: int)

  datatype Machine = Machine(regs: int -> int, slots: int -> int)

  function Put(f: int -> int, k: int, v: int): (g: int -> int)
    ensures g(k) == v && forall x :: x != k ==> g(x) == f(x)
  {
    (x: int) => if x == k then v else f(x)
  }

  /** `val` gives the values of the references; a constant can be loaded again. */
  function Exec(i: Instr, m: Machine, val: int -> int): Machine {
    match i
    case Move(d, s) => m.(regs := Put(m.regs, d, m.regs(s)))
    case Load(r, slot) => m.(regs := Put(m.regs, r, m.slots(slot)))
    case Store(slot, r) => m.(slots := Put(m.slots, slot, m.regs(r)))
    case Remat(r, ref) => m.(regs := Put(m.regs, r, val(ref)))
  }

  /** Code is emitted backwards: the last instruction runs first. */
  function Run(code: seq<Instr>, m: Machine, val: int -> int): Machine {
    if code == [] then m else Run(code[..|code| - 1], Exec(code[|code| - 1], m, val), val)
  }

  /** What the code that follows relies on: registers that hold references, and spill slots that do. */
  datatype Needs = Needs(loc: map<int, int>, slot: map<int, int>)

  ghost predicate Holds(n: Needs, m: Machine, val: int -> int) {
    && (forall r :: r in n.loc ==> m.regs(r) == val(n.loc[r]))
    && (forall ref :: ref in n.slot ==> m.slots(n.slot[ref]) == val(ref))
  }

  /** Running `code` where `now` holds ends where `then` holds. */
  ghost predicate Sound(then_: Needs, code: seq<Instr>, now: Needs) {
    forall m: Machine, val: int -> int :: Holds(now, m, val) ==> Holds(then_, Run(code, m, val), val)
  }

  /** One more instruction, running before all that has been emitted. */
  ghost predicate Step(then_: Needs, i: Instr, now: Needs) {
    forall m: Machine, val: int -> int :: Holds(now, m, val) ==> Holds(then_, Exec(i, m, val), val)
  }

  lemma {:induction false} RunSplit(a: seq<Instr>, b: seq<Instr>, m: Machine, val: int -> int)
    ensures Run(a + b, m, val) == Run(a, Run(b, m, val), val)
    decreases |b|
  {
    if b == [] {
      assert a + b == a;
    } else {
      var n := |b| - 1;
      assert (a + b)[..|a + b| - 1] == a + b[..n];
      RunSplit(a, b[..n], Exec(b[n], m, val), val);
    }
  }

  lemma SoundNothing(n: Needs)
    ensures Sound(n, [], n)
  {}

  lemma SoundThen(a: Needs, code: seq<Instr>, b: Needs, more: seq<Instr>, c: Needs)
    requires Sound(a, code, b) && Sound(b, more, c)
    ensures Sound(a, code + more, c)
  {
    forall m: Machine, val: int -> int | Holds(c, m, val) ensures Holds(a, Run(code + more, m, val), val) {
      RunSplit(code, more, m, val);
    }
  }

  lemma SoundOne(a: Needs, i: Instr, b: Needs)
    requires Step(a, i, b)
    ensures Sound(a, [i], b)
  {
    forall m: Machine, val: int -> int | Holds(b, m, val) ensures Holds(a, Run([i], m, val), val) {
      assert Run([i], m, val) == Exec(i, m, val);
    }
  }

  /** Relying on more is no problem. */
  predicate Within(a: Needs, b: Needs) {
    && (forall r :: r in a.loc ==> r in b.loc && b.loc[r] == a.loc[r])
    && (forall ref :: ref in a.slot ==> ref in b.slot && b.slot[ref] == a.slot[ref])
  }

  lemma SoundWithin(a: Needs, code: seq<Instr>, b: Needs, c: Needs)
    requires Sound(a, code, b) && Within(b, c)
    ensures Sound(a, code, c)
  {
    forall m: Machine, val: int -> int | Holds(c, m, val) ensures Holds(a, Run(code, m, val), val) {
      assert Holds(b, m, val);
    }
  }
}
