/** The action language of the DynASM x86 engine and the ghost records that tie the
    bytes of an action list to the slots of the section buffers. */
module DasmActions {
  const DISP := 233
  const IMM_S := 234
  const IMM_B := 235
  const IMM_W := 236
  const IMM_D := 237
  const IMM_WB := 238
  const IMM_DB := 239
  const SPACE := 241
  const REL_A := 243
  const REL_PC := 245
  const IMM_PC := 247
  const LABEL_PC := 249
  const ALIGN := 250
  const ESC := 252
  const SECTION := 254
  const STOP := 255

  type U8 = x: int | 0 <= x < 256
  type Bytes = seq<U8>

  datatype ImmKind = ImmS | ImmB | ImmW | ImmD | ImmWB | ImmDB

  /** One action. `Start` stands for the first slot of a chunk, which holds the
      offset into the action list. */
  datatype Act =
    | Start
    | Byte(v: U8)
    | Esc(v: U8)
    | Imm(kind: ImmKind)
    | Space(fill: U8)
    | RelPC
    | ImmPC
    | LabelPC
    | Align(mask: U8)
    | Section(n: U8)
    | Stop

  /** Alignment arguments are one less than a power of two. */
  predicate IsMask(m: int) {
    m == 0 || m == 1 || m == 3 || m == 7 || m == 15 || m == 31 || m == 63 || m == 127 || m == 255
  }

  /** A supported action with its operand can be read at `p`. */
  predicate Readable(al: Bytes, p: int) {
    && 0 <= p < |al|
    && (al[p] < DISP || al[p] in {IMM_S, IMM_B, IMM_W, IMM_D, IMM_WB, IMM_DB, SPACE, REL_PC, IMM_PC, LABEL_PC,
                                  ALIGN, ESC, SECTION, STOP})
    && (al[p] in {SPACE, ALIGN, ESC, SECTION} ==> p + 1 < |al|)
    && (al[p] == ALIGN ==> IsMask(al[p + 1]))
  }

  function ActAt(al: Bytes, p: int): Act
    requires Readable(al, p)
  {
    var a := al[p];
    if a < DISP then Byte(a)
    else if a == IMM_S then Imm(ImmS)
    else if a == IMM_B then Imm(ImmB)
    else if a == IMM_W then Imm(ImmW)
    else if a == IMM_D then Imm(ImmD)
    else if a == IMM_WB then Imm(ImmWB)
    else if a == IMM_DB then Imm(ImmDB)
    else if a == SPACE then Space(al[p + 1])
    else if a == REL_PC then RelPC
    else if a == IMM_PC then ImmPC
    else if a == LABEL_PC then LabelPC
    else if a == ALIGN then Align(al[p + 1])
    else if a == ESC then Esc(al[p + 1])
    else if a == SECTION then Section(al[p + 1])
    else Stop
  }

  /** Bytes of the action list an action takes up. */
  function ActBytes(a: Act): int {
    if a.Esc? || a.Space? || a.Align? || a.Section? then 2 else 1
  }

  predicate IsTerm(a: Act) { a.Section? || a.Stop? }

  predicate IsRef(a: Act) { a.RelPC? || a.ImmPC? }

  predicate TakesArg(a: Act) { a.Imm? || a.Space? || a.RelPC? || a.ImmPC? || a.LabelPC? }

  /** Buffer slots an action takes up. */
  function Slots(a: Act): nat {
    if a.RelPC? then 2
    else if a.Start? || a.Imm? || a.Space? || a.ImmPC? || a.LabelPC? || a.Align? then 1
    else 0
  }

  predicate FitsByte(n: int) { -128 <= n <= 127 }

  function ImmLen(k: ImmKind, n: int): int {
    match k
    case ImmS => 1
    case ImmB => 1
    case ImmW => 2
    case ImmD => 4
    case ImmWB => if FitsByte(n) then 1 else 2
    case ImmDB => if FitsByte(n) then 1 else 4
  }

  /** The pessimistic code length pass 1 counts. */
  function MaxLen(a: Act, arg: int): int {
    match a
    case Byte(_) => 1
    case Esc(_) => 1
    case Imm(k) => ImmLen(k, arg)
    case Space(_) => arg
    case RelPC => 4
    case ImmPC => 8
    case Align(m) => m
    case _ => 0
  }

  /** By how much pass 2 may shorten a branch with opcode `op`. */
  function Shrink(op: int): int {
    if op == 0xe9 then 3 else if op / 16 == 8 then 4 else 0
  }

  /** Where the passes stand: next action byte, next slot, pessimistic offset, last opcode
      byte of the chunk, and the run of opcode bytes that directly precedes. */
  datatype Cur = Cur(p: int, at: int, pess: int, op: U8, run: Bytes)

  const Origin := Cur(0, 0, 0, 0, [])

  datatype Item = Item(act: Act, arg: int, c: Cur)

  function Next(it: Item): Cur {
    var c := it.c;
    match it.act
    case Start => Cur(it.arg, c.at + 1, c.pess, 0, [])
    case Byte(v) => Cur(c.p + 1, c.at, c.pess + 1, v, c.run + [v])
    case Esc(v) => Cur(c.p + 2, c.at, c.pess + 1, v, c.run + [v])
    case _ => Cur(c.p + ActBytes(it.act), c.at + Slots(it.act), c.pess + MaxLen(it.act, it.arg), c.op, [])
  }

  lemma NextAdds(it: Item)
    ensures Next(it).at == it.c.at + Slots(it.act) && Next(it).pess == it.c.pess + MaxLen(it.act, it.arg)
  {}

  /** The opcode bytes an action list must put before a branch or a shortenable immediate,
      because pass 3 patches them in place. */
  predicate Shaped(a: Act, c: Cur) {
    && (a.RelPC? && Shrink(c.op) == 3 ==> |c.run| >= 1 && c.run[|c.run| - 1] == c.op)
    && (a.RelPC? && Shrink(c.op) == 4 ==>
          |c.run| >= 2 && c.run[|c.run| - 1] == c.op && c.run[|c.run| - 2] == 0x0f)
    && (a.Imm? && (a.kind.ImmWB? || a.kind.ImmDB?) ==> |c.run| >= 2)
  }

  /** The checks pass 1 makes on an argument (DASM_CHECKS). */
  predicate ArgOk(a: Act, arg: int, npc: nat, maxsection: nat) {
    && (a == Imm(ImmS) ==> FitsByte(arg))
    && (a == Imm(ImmB) ==> 0 <= arg < 256)
    && (a == Imm(ImmW) ==> 0 <= arg < 65536)
    && (a == Imm(ImmWB) ==> FitsByte(arg) || 0 <= arg < 65536)
    && (IsRef(a) || a.LabelPC? ==> 0 <= arg < npc)
    && (a.Section? ==> a.n < maxsection)
  }

  /** The actions from `c` up to the end of the chunk can be read, have their arguments,
      and are shaped as pass 3 needs. */
  predicate ChunkOk(al: Bytes, c: Cur, args: seq<int>)
    decreases |al| - c.p
  {
    && Readable(al, c.p)
    && var a := ActAt(al, c.p);
       && Shaped(a, c)
       && (TakesArg(a) ==> |args| > 0)
       && (a.Space? ==> args[0] >= 0)
       && (IsTerm(a) || ChunkOk(al, Next(Item(a, if TakesArg(a) then args[0] else 0, c)),
                                if TakesArg(a) then args[1..] else args))
  }

  function HeadItem(al: Bytes, c: Cur, args: seq<int>): Item
    requires ChunkOk(al, c, args)
  {
    var a := ActAt(al, c.p);
    Item(a, if TakesArg(a) then args[0] else 0, c)
  }

  function TailArgs(al: Bytes, c: Cur, args: seq<int>): seq<int>
    requires ChunkOk(al, c, args)
  {
    if TakesArg(ActAt(al, c.p)) then args[1..] else args
  }

  /** The actions of one dasm_put call, with their arguments. */
  function Chunk(al: Bytes, c: Cur, args: seq<int>): seq<Item>
    requires ChunkOk(al, c, args)
    decreases |al| - c.p
  {
    var it := HeadItem(al, c, args);
    [it] + if IsTerm(it.act) then [] else Chunk(al, Next(it), TailArgs(al, c, args))
  }

  /** Every argument of the chunk passes the checks of pass 1. */
  predicate Accepted(chunk: seq<Item>, npc: nat, maxsection: nat) {
    forall i :: 0 <= i < |chunk| ==> ArgOk(chunk[i].act, chunk[i].arg, npc, maxsection)
  }

  /** Slots a chunk needs in its section buffer. */
  function SlotCount(chunk: seq<Item>): nat {
    if chunk == [] then 0 else Slots(chunk[0].act) + SlotCount(chunk[1..])
  }
}
