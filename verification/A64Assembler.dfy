/** The A64 encoder: what it writes is what it was asked to write, up to the first error. */
module A64Assembler {
  datatype Option<T> = None | Some(value: T)

  datatype Status =
    | Success | InvalidArgument | MemoryAlignment | PcAlignment | InstructionOverflow | BranchOffsetOverflow
    | CapacityTooBig | StructCorrupted

  datatype Magic = Unset | Alive | Dead

  /** The largest size_t. */
  const SIZE_MAX: nat := 0xffff_ffff_ffff_ffff

  /** A call of an emitter with its arguments. */
  datatype Call =
    | AddImmediate(rd: bv32, rn: bv32, imm12: bv16, shift: bv8)
    | SubImmediate(rd: bv32, rn: bv32, imm12: bv16, shift: bv8)
    | AddShifted(rd: bv32, rn: bv32, rm: bv32, amount: bv8, kind: bv8)
    | Branch(offset: bv32)
    | BranchRegister(rn: bv32)
    | Return(rn: bv32)
    | MovN(rd: bv32, imm: bv16, shift: bv8)
    | MovZ(rd: bv32, imm: bv16, shift: bv8)
    | MovK(rd: bv32, imm: bv16, shift: bv8)

  // ----- The architecture's decoder, section C4.1 of the Arm Architecture Reference Manual (DDI 0487) -----

  function Bits(w: bv32, low: bv32, mask: bv32): bv32
    requires low < 32
  {
    (w >> low) & mask
  }

  function Byte(x: bv32): bv8 { (x & 0xff) as bv8 }

  function Half(x: bv32): bv16 { (x & 0xffff) as bv16 }

  /** The branch offset in bytes, two's complement. */
  function BranchOffset(imm26: bv32): bv32 {
    (if imm26 & 0x0200_0000 != 0 then imm26 | 0xfc00_0000 else imm26) << 2
  }

  /** The 64-bit forms of the instructions this encoder knows. */
  function Decode(w: bv32): Option<Call> {
    if w & 0xff80_0000 == 0x9100_0000 then
      Some(AddImmediate(Bits(w, 0, 31), Bits(w, 5, 31), Half(Bits(w, 10, 0xfff)), Byte(Bits(w, 22, 1))))
    else if w & 0xff80_0000 == 0xd100_0000 then
      Some(SubImmediate(Bits(w, 0, 31), Bits(w, 5, 31), Half(Bits(w, 10, 0xfff)), Byte(Bits(w, 22, 1))))
    else if w & 0xff20_0000 == 0x8b00_0000 && w & 0x00c0_0000 != 0x00c0_0000 then
      Some(AddShifted(Bits(w, 0, 31), Bits(w, 5, 31), Bits(w, 16, 31), Byte(Bits(w, 10, 63)), Byte(Bits(w, 22, 3))))
    else if w & 0xfc00_0000 == 0x1400_0000 then
      Some(Branch(BranchOffset(Bits(w, 0, 0x03ff_ffff))))
    else if w & 0xffff_fc1f == 0xd61f_0000 then
      Some(BranchRegister(Bits(w, 5, 31)))
    else if w & 0xffff_fc1f == 0xd65f_0000 then
      Some(Return(Bits(w, 5, 31)))
    else if w & 0xff80_0000 == 0x9280_0000 then
      Some(MovN(Bits(w, 0, 31), Half(Bits(w, 5, 0xffff)), Byte(Bits(w, 21, 3) << 4)))
    else if w & 0xff80_0000 == 0xd280_0000 then
      Some(MovZ(Bits(w, 0, 31), Half(Bits(w, 5, 0xffff)), Byte(Bits(w, 21, 3) << 4)))
    else if w & 0xff80_0000 == 0xf280_0000 then
      Some(MovK(Bits(w, 0, 31), Half(Bits(w, 5, 0xffff)), Byte(Bits(w, 21, 3) << 4)))
    else None
  }

  // ----- Which calls are refused -----

  /** Two's complement comparison. */
  predicate SignedLess(a: bv32, b: bv32) { a ^ 0x8000_0000 < b ^ 0x8000_0000 }

  /** Two's complement division by 4 of a multiple of 4. */
  function Quarter(x: bv32): bv32 { if x & 0x8000_0000 != 0 then (x >> 2) | 0xc000_0000 else x >> 2 }

  predicate MoveShift(shift: bv8) { shift == 0 || shift == 16 || shift == 32 || shift == 48 }

  /** The error the arguments alone make. */
  function Fault(c: Call): Status {
    match c
    case AddImmediate(rd, rn, imm12, shift) =>
      if rd > 31 || rn > 31 || imm12 > 0xfff || (shift != 0 && shift != 1) then InvalidArgument else Success
    case SubImmediate(rd, rn, imm12, shift) =>
      if rd > 31 || rn > 31 || imm12 > 0xfff || (shift != 0 && shift != 1) then InvalidArgument else Success
    case AddShifted(rd, rn, rm, amount, kind) =>
      if rd > 31 || rn > 31 || rm > 31 || amount > 63 || kind > 2 then InvalidArgument else Success
    case Branch(offset) =>
      if offset & 3 != 0 then PcAlignment
      else if SignedLess(Quarter(offset), -33554432) || SignedLess(33554431, Quarter(offset)) then BranchOffsetOverflow
      else Success
    case BranchRegister(rn) => if rn > 31 then InvalidArgument else Success
    case Return(rn) => if rn > 31 then InvalidArgument else Success
    case MovN(rd, _, shift) => if rd > 31 || !MoveShift(shift) then InvalidArgument else Success
    case MovZ(rd, _, shift) => if rd > 31 || !MoveShift(shift) then InvalidArgument else Success
    case MovK(rd, _, shift) => if rd > 31 || !MoveShift(shift) then InvalidArgument else Success
  }

  /** The status after a call; two emitters look at their arguments before they look at the status. */
  function Next(s: Status, c: Call, full: bool): Status {
    if c.Branch? then
      if Fault(c) != Success then Fault(c) else if full then InstructionOverflow else s
    else if c.Return? then
      if Fault(c) != Success then Fault(c) else if s != Success then s else if full then InstructionOverflow else s
    else
      if s != Success then s else if Fault(c) != Success then Fault(c) else if full then InstructionOverflow else s
  }

  // ----- Runs of calls -----

  datatype State = State(code: seq<Option<Call>>, status: Status)

  function After(x: State, capacity: nat, c: Call): State {
    var s := Next(x.status, c, |x.code| >= capacity);
    State(if s == Success then x.code + [Some(c)] else x.code, s)
  }

  function Run(x: State, capacity: nat, calls: seq<Call>): State
    decreases |calls|
  {
    if calls == [] then x else Run(After(x, capacity, calls[0]), capacity, calls[1..])
  }

  /** How many calls go by before one is refused. */
  function Accepted(free: nat, calls: seq<Call>): nat
    ensures Accepted(free, calls) <= |calls| && Accepted(free, calls) <= free
  {
    if calls == [] || free == 0 || Fault(calls[0]) != Success then 0 else 1 + Accepted(free - 1, calls[1..])
  }

  function Listing(calls: seq<Call>): seq<Option<Call>> { seq(|calls|, i requires 0 <= i < |calls| => Some(calls[i])) }

  lemma {:induction false} ErrorStays(x: State, capacity: nat, calls: seq<Call>)
    requires x.status != Success
    ensures Run(x, capacity, calls).code == x.code && Run(x, capacity, calls).status != Success
    decreases |calls|
  {
    if calls != [] {
      ErrorStays(After(x, capacity, calls[0]), capacity, calls[1..]);
    }
  }

  /** The code is the calls before the first one that is refused, in order, and nothing after it. */
  lemma {:induction false} RunWritesPrefix(x: State, capacity: nat, calls: seq<Call>)
    requires x.status == Success && |x.code| <= capacity
    ensures var k := Accepted(capacity - |x.code|, calls);
      && Run(x, capacity, calls).code == x.code + Listing(calls[..k])
      && (Run(x, capacity, calls).status == Success <==> k == |calls|)
    decreases |calls|
  {
    var k := Accepted(capacity - |x.code|, calls);
    if calls == [] {
      assert Listing(calls[..k]) == [];
    } else {
      var y := After(x, capacity, calls[0]);
      if y.status == Success {
        RunWritesPrefix(y, capacity, calls[1..]);
        assert Listing(calls[..k]) == [Some(calls[0])] + Listing(calls[1..][..k - 1]);
      } else {
        ErrorStays(y, capacity, calls[1..]);
        assert Listing(calls[..k]) == [];
      }
    }
  }

  // ----- The words -----

  lemma BackToHalf(x: bv16)
    ensures Half(x as bv32) == x
  {}

  lemma BackToByte(x: bv8)
    ensures Byte(x as bv32) == x
  {}

  lemma AddImmediateBits(w: bv32, rd: bv32, rn: bv32, imm: bv32, sh: bv32)
    requires rd <= 31 && rn <= 31 && imm <= 0xfff && sh <= 1
    requires w == (1 << 31) | (0x22 << 23) | (sh << 22) | (imm << 10) | (rn << 5) | rd
    ensures w & 0xff80_0000 == 0x9100_0000
    ensures Bits(w, 0, 31) == rd && Bits(w, 5, 31) == rn && Bits(w, 10, 0xfff) == imm && Bits(w, 22, 1) == sh
  {}

  lemma AddImmediateWord(w: bv32, rd: bv32, rn: bv32, imm12: bv16, shift: bv8)
    requires Fault(AddImmediate(rd, rn, imm12, shift)) == Success
    requires w == (1 << 31) | (0x22 << 23) | (shift as bv32 << 22) | (imm12 as bv32 << 10) | (rn << 5) | rd
    ensures Decode(w) == Some(AddImmediate(rd, rn, imm12, shift))
  {
    hide Bits, Half, Byte;
    AddImmediateBits(w, rd, rn, imm12 as bv32, shift as bv32);
    BackToHalf(imm12);
    BackToByte(shift);
  }

  lemma SubImmediateBits(w: bv32, rd: bv32, rn: bv32, imm: bv32, sh: bv32)
    requires rd <= 31 && rn <= 31 && imm <= 0xfff && sh <= 1
    requires w == (1 << 31) | (0xa2 << 23) | (sh << 22) | (imm << 10) | (rn << 5) | rd
    ensures w & 0xff80_0000 == 0xd100_0000
    ensures Bits(w, 0, 31) == rd && Bits(w, 5, 31) == rn && Bits(w, 10, 0xfff) == imm && Bits(w, 22, 1) == sh
  {}

  lemma SubImmediateWord(w: bv32, rd: bv32, rn: bv32, imm12: bv16, shift: bv8)
    requires Fault(SubImmediate(rd, rn, imm12, shift)) == Success
    requires w == (1 << 31) | (0xa2 << 23) | (shift as bv32 << 22) | (imm12 as bv32 << 10) | (rn << 5) | rd
    ensures Decode(w) == Some(SubImmediate(rd, rn, imm12, shift))
  {
    hide Bits, Half, Byte;
    SubImmediateBits(w, rd, rn, imm12 as bv32, shift as bv32);
    BackToHalf(imm12);
    BackToByte(shift);
  }

  lemma AddShiftedBits(w: bv32, rd: bv32, rn: bv32, rm: bv32, amount: bv32, kind: bv32)
    requires rd <= 31 && rn <= 31 && rm <= 31 && amount <= 63 && kind <= 2
    requires w == (1 << 31) | (0x0b << 24) | (kind << 22) | (rm << 16) | (amount << 10) | (rn << 5) | rd
    ensures w & 0xff20_0000 == 0x8b00_0000 && w & 0x00c0_0000 != 0x00c0_0000
    ensures w & 0xff80_0000 != 0x9100_0000 && w & 0xff80_0000 != 0xd100_0000
    ensures Bits(w, 0, 31) == rd && Bits(w, 5, 31) == rn && Bits(w, 16, 31) == rm && Bits(w, 10, 63) == amount &&
      Bits(w, 22, 3) == kind
  {}

  lemma AddShiftedWord(w: bv32, rd: bv32, rn: bv32, rm: bv32, amount: bv8, kind: bv8)
    requires Fault(AddShifted(rd, rn, rm, amount, kind)) == Success
    requires w == (1 << 31) | (0x0b << 24) | (kind as bv32 << 22) | (rm << 16) | (amount as bv32 << 10) | (rn << 5) | rd
    ensures Decode(w) == Some(AddShifted(rd, rn, rm, amount, kind))
  {
    hide Bits, Half, Byte;
    AddShiftedBits(w, rd, rn, rm, amount as bv32, kind as bv32);
    BackToByte(amount);
    BackToByte(kind);
  }

  lemma BranchBits(w: bv32, imm26: bv32)
    requires imm26 <= 0x03ff_ffff && w == 0x1400_0000 | imm26
    ensures w & 0xff80_0000 != 0x9100_0000 && w & 0xff80_0000 != 0xd100_0000 && w & 0xff20_0000 != 0x8b00_0000
    ensures w & 0xfc00_0000 == 0x1400_0000 && Bits(w, 0, 0x03ff_ffff) == imm26
  {}

  function Imm26(offset: bv32): bv32 { Quarter(offset) & 0x03ff_ffff }

  lemma NegativeBack(x: bv32, q: bv32, i: bv32)
    requires x & 3 == 0 && x & 0x8000_0000 != 0 && q == (x >> 2) | 0xc000_0000 && i == q & 0x03ff_ffff
    requires q <= 0x01ff_ffff || 0xfe00_0000 <= q
    ensures i & 0x0200_0000 != 0 && (i | 0xfc00_0000) << 2 == x
  {}

  lemma PositiveBack(x: bv32, q: bv32, i: bv32)
    requires x & 3 == 0 && x & 0x8000_0000 == 0 && q == x >> 2 && i == q & 0x03ff_ffff
    requires q <= 0x01ff_ffff || 0xfe00_0000 <= q
    ensures i & 0x0200_0000 == 0 && i << 2 == x
  {}

  lemma InRange(q: bv32)
    requires !SignedLess(q, -33554432) && !SignedLess(33554431, q)
    ensures q <= 0x01ff_ffff || 0xfe00_0000 <= q
  {}

  lemma Imm26Is(offset: bv32)
    ensures Imm26(offset) <= 0x03ff_ffff
  {
    hide Quarter;
  }

  lemma BranchFits(offset: bv32)
    requires Fault(Branch(offset)) == Success
    ensures offset & 3 == 0 && (Quarter(offset) <= 0x01ff_ffff || 0xfe00_0000 <= Quarter(offset))
  {
    hide SignedLess, Quarter;
    InRange(Quarter(offset));
  }

  lemma OffsetOf(x: bv32, q: bv32, i: bv32)
    requires x & 3 == 0 && q == Quarter(x) && i == q & 0x03ff_ffff
    requires q <= 0x01ff_ffff || 0xfe00_0000 <= q
    ensures BranchOffset(i) == x
  {
    if x & 0x8000_0000 != 0 {
      NegativeBack(x, q, i);
    } else {
      PositiveBack(x, q, i);
    }
  }

  lemma OffsetBack(offset: bv32)
    requires Fault(Branch(offset)) == Success
    ensures BranchOffset(Imm26(offset)) == offset
  {
    hide Fault, Quarter, BranchOffset;
    BranchFits(offset);
    OffsetOf(offset, Quarter(offset), Imm26(offset));
  }

  lemma BranchWord(w: bv32, offset: bv32)
    requires Fault(Branch(offset)) == Success && w == 0x1400_0000 | Imm26(offset)
    ensures Decode(w) == Some(Branch(offset))
  {
    hide Bits, Half, Byte, Imm26, BranchOffset, Fault;
    Imm26Is(offset);
    BranchBits(w, Imm26(offset));
    OffsetBack(offset);
  }

  lemma RegisterWords(rn: bv32)
    requires rn <= 31
    ensures Decode(0xd61f_0000 | (rn << 5)) == Some(BranchRegister(rn))
    ensures Decode(0xd65f_0000 | (rn << 5)) == Some(Return(rn))
  {}

  lemma MoveBits(w: bv32, rd: bv32, imm: bv32, hw: bv32, opcode: bv32)
    requires rd <= 31 && imm <= 0xffff && hw <= 3 && (opcode == 0 || opcode == 2 || opcode == 3)
    requires w == (1 << 31) | ((opcode & 7) << 29) | (0x25 << 23) | (hw << 21) | (imm << 5) | rd
    ensures w & 0xff80_0000 == if opcode == 0 then 0x9280_0000 else if opcode == 2 then 0xd280_0000 else 0xf280_0000
    ensures w & 0xff20_0000 != 0x8b00_0000 && w & 0xfc00_0000 != 0x1400_0000
    ensures w & 0xffff_fc1f != 0xd61f_0000 && w & 0xffff_fc1f != 0xd65f_0000
    ensures Bits(w, 0, 31) == rd && Bits(w, 5, 0xffff) == imm && Bits(w, 21, 3) == hw
  {}

  lemma HalfWords(shift: bv8)
    requires MoveShift(shift)
    ensures (shift / 16) as bv32 <= 3 && Byte((shift / 16) as bv32 << 4) == shift
  {}

  function Move(rd: bv32, imm: bv16, shift: bv8, opcode: bv32): Call {
    if opcode == 0 then MovN(rd, imm, shift) else if opcode == 2 then MovZ(rd, imm, shift) else MovK(rd, imm, shift)
  }

  lemma MoveWord(w: bv32, rd: bv32, imm: bv16, shift: bv8, opcode: bv32)
    requires rd <= 31 && MoveShift(shift) && (opcode == 0 || opcode == 2 || opcode == 3)
    requires w == (1 << 31) | ((opcode & 7) << 29) | (0x25 << 23) |
      ((shift / 16) as bv32 << 21) | (imm as bv32 << 5) | rd
    ensures Decode(w) == Some(Move(rd, imm, shift, opcode))
  {
    hide Bits, Half, Byte;
    HalfWords(shift);
    MoveBits(w, rd, imm as bv32, (shift / 16) as bv32, opcode);
    BackToHalf(imm);
  }

  lemma BranchFault(offset: bv32)
    ensures Fault(Branch(offset)) ==
      if offset & 3 != 0 then PcAlignment
      else if SignedLess(Quarter(offset), -33554432) || SignedLess(33554431, Quarter(offset)) then BranchOffsetOverflow
      else Success
  {
    hide SignedLess, Quarter;
  }

  lemma MoveFault(rd: bv32, imm: bv16, shift: bv8, opcode: bv32)
    ensures Fault(Move(rd, imm, shift, opcode)) == if rd > 31 || !MoveShift(shift) then InvalidArgument else Success
    ensures !Move(rd, imm, shift, opcode).Branch? && !Move(rd, imm, shift, opcode).Return?
  {
    hide MoveShift;
  }

  // ----- Constants -----

  // ----- What can be refused -----

  lemma FieldsBounded(w: bv32)
    ensures Bits(w, 0, 31) <= 31 && Bits(w, 5, 31) <= 31 && Bits(w, 16, 31) <= 31
    ensures Bits(w, 10, 0xfff) <= 0xfff && Bits(w, 10, 63) <= 63 && Bits(w, 22, 1) <= 1 && Bits(w, 21, 3) <= 3
    ensures w & 0x00c0_0000 != 0x00c0_0000 ==> Bits(w, 22, 3) <= 2
    ensures Bits(w, 0, 0x03ff_ffff) <= 0x03ff_ffff
  {}

  lemma HalfBounded(x: bv32)
    requires x <= 0xfff
    ensures Half(x) <= 0xfff
  {}

  lemma ByteBounded(x: bv32)
    ensures x <= 63 ==> Byte(x) <= 63
    ensures x <= 2 ==> Byte(x) <= 2
    ensures x <= 1 ==> Byte(x) == 0 || Byte(x) == 1
  {}

  lemma ShiftIs(x: bv32)
    requires x <= 3
    ensures MoveShift(Byte(x << 4))
  {}

  lemma OffsetInRange(i: bv32)
    requires i <= 0x03ff_ffff
    ensures Fault(Branch(BranchOffset(i))) == Success
  {
    var x := BranchOffset(i);
    OffsetAligned(i, x);
    OffsetQuarter(i, x, Quarter(x));
    BranchFault(x);
  }

  lemma OffsetAligned(i: bv32, x: bv32)
    requires i <= 0x03ff_ffff && x == BranchOffset(i)
    ensures x & 3 == 0
  {}

  lemma OffsetQuarter(i: bv32, x: bv32, q: bv32)
    requires i <= 0x03ff_ffff && x == BranchOffset(i) && q == Quarter(x)
    ensures !SignedLess(q, -33554432) && !SignedLess(33554431, q)
  {}

  /** What a word decodes to can be asked for. */
  lemma DecodedFine(w: bv32)
    ensures Decode(w).Some? ==> Fault(Decode(w).value) == Success
  {
    hide Bits, Half, Byte, BranchOffset, SignedLess, Quarter, MoveShift;
    FieldsBounded(w);
    HalfBounded(Bits(w, 10, 0xfff));
    ByteBounded(Bits(w, 22, 1));
    ByteBounded(Bits(w, 22, 3));
    ByteBounded(Bits(w, 10, 63));
    ShiftIs(Bits(w, 21, 3));
    OffsetInRange(Bits(w, 0, 0x03ff_ffff));
  }

  /** The word for a call. */
  function WordOf(c: Call): bv32 {
    match c
    case AddImmediate(rd, rn, imm12, shift) =>
      (1 << 31) | (0x22 << 23) | (shift as bv32 << 22) | (imm12 as bv32 << 10) | (rn << 5) | rd
    case SubImmediate(rd, rn, imm12, shift) =>
      (1 << 31) | (0xa2 << 23) | (shift as bv32 << 22) | (imm12 as bv32 << 10) | (rn << 5) | rd
    case AddShifted(rd, rn, rm, amount, kind) =>
      (1 << 31) | (0x0b << 24) | (kind as bv32 << 22) | (rm << 16) | (amount as bv32 << 10) | (rn << 5) | rd
    case Branch(offset) => 0x1400_0000 | Imm26(offset)
    case BranchRegister(rn) => 0xd61f_0000 | (rn << 5)
    case Return(rn) => 0xd65f_0000 | (rn << 5)
    case MovN(rd, imm, shift) => MoveOf(rd, imm, shift, 0)
    case MovZ(rd, imm, shift) => MoveOf(rd, imm, shift, 2)
    case MovK(rd, imm, shift) => MoveOf(rd, imm, shift, 3)
  }

  function MoveOf(rd: bv32, imm: bv16, shift: bv8, opcode: bv32): bv32 {
    (1 << 31) | ((opcode & 7) << 29) | (0x25 << 23) | ((shift / 16) as bv32 << 21) | (imm as bv32 << 5) | rd
  }

  /** A call is refused for its arguments exactly if no word decodes to it. */
  lemma RefusedExactly(c: Call)
    ensures Fault(c) == Success <==> exists w :: Decode(w) == Some(c)
  {
    hide Decode, Fault;
    if Fault(c) == Success {
      WordDecodes(c);
      assert Decode(WordOf(c)) == Some(c);
    }
    forall w | Decode(w) == Some(c)
      ensures Fault(c) == Success
    {
      DecodedFine(w);
    }
  }

  lemma WordDecodes(c: Call)
    requires Fault(c) == Success
    ensures Decode(WordOf(c)) == Some(c)
  {
    hide Decode, SignedLess, Quarter, MoveShift, Imm26;
    match c
    case AddImmediate(rd, rn, imm12, shift) => AddImmediateWord(WordOf(c), rd, rn, imm12, shift);
    case SubImmediate(rd, rn, imm12, shift) => SubImmediateWord(WordOf(c), rd, rn, imm12, shift);
    case AddShifted(rd, rn, rm, amount, kind) => AddShiftedWord(WordOf(c), rd, rn, rm, amount, kind);
    case Branch(offset) => BranchWord(WordOf(c), offset);
    case BranchRegister(rn) => RegisterWords(rn);
    case Return(rn) => RegisterWords(rn);
    case MovN(rd, imm, shift) => MoveWord(WordOf(c), rd, imm, shift, 0);
    case MovZ(rd, imm, shift) => MoveWord(WordOf(c), rd, imm, shift, 2);
    case MovK(rd, imm, shift) => MoveWord(WordOf(c), rd, imm, shift, 3);
  }

  /** What a wide move does to the destination register, section C6.2 of DDI 0487. */
  function Moved(c: Call, x: bv64): bv64 {
    match c
    case MovN(_, imm, shift) => if shift <= 48 then !(imm as bv64 << shift) else x
    case MovZ(_, imm, shift) => if shift <= 48 then imm as bv64 << shift else x
    case MovK(_, imm, shift) => if shift <= 48 then (x & !(0xffff << shift)) | (imm as bv64 << shift) else x
    case _ => x
  }

  function HalfWord(k: bv64, shift: bv8): bv16
    requires shift <= 48
  {
    ((k >> shift) & 0xffff) as bv16
  }

  /** A move of the low half word and three that keep the rest make any constant. */
  lemma AnyConstant(rd: bv32, k: bv64, x: bv64)
    ensures var x0 := Moved(MovZ(rd, HalfWord(k, 0), 0), x);
      var x1 := Moved(MovK(rd, HalfWord(k, 16), 16), x0);
      var x2 := Moved(MovK(rd, HalfWord(k, 32), 32), x1);
      Moved(MovK(rd, HalfWord(k, 48), 48), x2) == k
  {}

  // ----- The assembler -----

  class Assembler {
    var buffer: array?<bv32>
    var capacity: nat
    var offset: nat
    var status: Status
    var magic: Magic

    ghost predicate Valid()
      reads this
    {
      magic == Alive ==> buffer != null && 0 < capacity <= buffer.Length && offset <= capacity
    }

    /** The instructions written so far. */
    ghost function Code(): seq<Option<Call>>
      requires Valid() && magic == Alive
      reads this, buffer
    {
      seq(offset, i requires 0 <= i < offset && Valid() && magic == Alive reads this, buffer => Decode(buffer[i]))
    }

    ghost function Now(): State
      requires Valid() && magic == Alive
      reads this, buffer
    {
      State(Code(), status)
    }

    method Init(space: array?<bv32>, aligned: bool, size: nat) returns (r: Status)
      requires space != null && size > 0 && aligned && size <= SIZE_MAX / 4 ==> size <= space.Length
      modifies this
      ensures Valid() && r == status
      ensures r == Success <==> space != null && size > 0 && aligned && size <= 0x3fff_ffff_ffff_ffff
      ensures r == Success ==> magic == Alive && buffer == space && capacity == size && Now() == State([], Success)
      ensures r != Success ==> magic == Unset
    {
      buffer, capacity, offset, status, magic := null, 0, 0, InvalidArgument, Unset;
      if space == null {
        return status;
      }
      if size == 0 {
        return status;
      }
      if !aligned {
        status := MemoryAlignment;
        return status;
      }
      if size > SIZE_MAX / 4 {
        status := CapacityTooBig;
        return status;
      }
      buffer, capacity, offset, status, magic := space, size, 0, Success, Alive;
      return Success;
    }

    method Reset()
      requires Valid()
      modifies this`offset, this`status, buffer
      ensures Valid()
      ensures magic == Alive ==> Now() == State([], Success) && forall i :: 0 <= i < capacity ==> buffer[i] == 0
      ensures magic != Alive ==> status == StructCorrupted
    {
      if magic != Alive {
        status := StructCorrupted;
        return;
      }
      offset, status := 0, Success;
      for i := 0 to capacity
        invariant offset == 0 && status == Success && magic == Alive && Valid()
        invariant forall j :: 0 <= j < i ==> buffer[j] == 0
      {
        buffer[i] := 0;
      }
    }

    method Destroy()
      requires Valid()
      modifies this
      ensures Valid() && magic != Alive && status == StructCorrupted
    {
      if magic != Alive {
        status := StructCorrupted;
        return;
      }
      magic, buffer, capacity, offset, status := Dead, null, 0, 0, StructCorrupted;
    }

    method CanEmit() returns (ok: bool)
      modifies this`status
      ensures ok == (offset < capacity)
      ensures status == if ok then old(status) else InstructionOverflow
    {
      if offset >= capacity {
        status := InstructionOverflow;
        return false;
      }
      return true;
    }

    /** Nothing but the word at the write position may change, and only if the call is accepted. */
    twostate predicate Emitted(c: Call)
      reads this, buffer
    {
      && Valid() && old(Valid()) && magic == old(magic) && buffer == old(buffer) && capacity == old(capacity)
      && (magic != Alive ==> status == StructCorrupted && offset == old(offset))
      && (magic == Alive ==>
            && Now() == After(old(Now()), capacity, c)
            && forall i :: 0 <= i < buffer.Length && (status != Success || i != old(offset)) ==>
              buffer[i] == old(buffer[i]))
    }

    method Append(instruction: bv32, ghost c: Call)
      requires Valid() && magic == Alive && offset < capacity && Decode(instruction) == Some(c)
      modifies this`offset, buffer
      ensures Valid() && Code() == old(Code()) + [Some(c)]
      ensures forall i :: 0 <= i < buffer.Length && i != old(offset) ==> buffer[i] == old(buffer[i])
    {
      hide Decode;
      buffer[offset] := instruction;
      offset := offset + 1;
      assert forall i :: 0 <= i < old(offset) ==> Code()[i] == old(Code())[i];
    }

    method EmitAddImmediate(rd: bv32, rn: bv32, imm12: bv16, shift: bv8)
      requires Valid()
      modifies this`status, this`offset, buffer
      ensures Emitted(AddImmediate(rd, rn, imm12, shift))
    {
      hide Decode;
      if magic != Alive {
        status := StructCorrupted;
        return;
      }
      if status != Success {
        return;
      }
      if rd > 31 || rn > 31 || imm12 > 0xfff || (shift != 0 && shift != 1) {
        status := InvalidArgument;
        return;
      }
      var canEmit := CanEmit();
      if !canEmit {
        return;
      }
      var instruction: bv32 := 1 << 31;
      instruction := instruction | (0x22 << 23);
      instruction := instruction | (shift as bv32 << 22);
      instruction := instruction | (imm12 as bv32 << 10);
      instruction := instruction | (rn << 5);
      instruction := instruction | rd;
      AddImmediateWord(instruction, rd, rn, imm12, shift);
      Append(instruction, AddImmediate(rd, rn, imm12, shift));
    }

    method EmitSubImmediate(rd: bv32, rn: bv32, imm12: bv16, shift: bv8)
      requires Valid()
      modifies this`status, this`offset, buffer
      ensures Emitted(SubImmediate(rd, rn, imm12, shift))
    {
      hide Decode;
      if magic != Alive {
        status := StructCorrupted;
        return;
      }
      if status != Success {
        return;
      }
      if rd > 31 || rn > 31 || imm12 > 0xfff || (shift != 0 && shift != 1) {
        status := InvalidArgument;
        return;
      }
      var canEmit := CanEmit();
      if !canEmit {
        return;
      }
      var instruction: bv32 := 1 << 31;
      instruction := instruction | (0xa2 << 23);
      instruction := instruction | (shift as bv32 << 22);
      instruction := instruction | (imm12 as bv32 << 10);
      instruction := instruction | (rn << 5);
      instruction := instruction | rd;
      SubImmediateWord(instruction, rd, rn, imm12, shift);
      Append(instruction, SubImmediate(rd, rn, imm12, shift));
    }

    method EmitAddShifted(rd: bv32, rn: bv32, rm: bv32, amount: bv8, kind: bv8)
      requires Valid()
      modifies this`status, this`offset, buffer
      ensures Emitted(AddShifted(rd, rn, rm, amount, kind))
    {
      hide Decode;
      if magic != Alive {
        status := StructCorrupted;
        return;
      }
      if status != Success {
        return;
      }
      if rd > 31 || rn > 31 || rm > 31 || amount > 63 || kind > 2 {
        status := InvalidArgument;
        return;
      }
      var canEmit := CanEmit();
      if !canEmit {
        return;
      }
      var instruction: bv32 := 1 << 31;
      instruction := instruction | (0x0b << 24);
      instruction := instruction | (kind as bv32 << 22);
      instruction := instruction | (rm << 16);
      instruction := instruction | (amount as bv32 << 10);
      instruction := instruction | (rn << 5);
      instruction := instruction | rd;
      AddShiftedWord(instruction, rd, rn, rm, amount, kind);
      Append(instruction, AddShifted(rd, rn, rm, amount, kind));
    }

    /** The arguments and the room are looked at before the status. */
    method EmitBranch(target: bv32)
      requires Valid()
      modifies this`status, this`offset, buffer
      ensures Emitted(Branch(target))
    {
      hide Decode, Quarter, SignedLess, Fault, Imm26;
      BranchFault(target);
      if magic != Alive {
        status := StructCorrupted;
        return;
      }
      if target & 3 != 0 {
        status := PcAlignment;
        return;
      }
      var imm26 := Quarter(target);
      if SignedLess(imm26, -33554432) || SignedLess(33554431, imm26) {
        status := BranchOffsetOverflow;
        return;
      }
      var canEmit := CanEmit();
      if !canEmit {
        return;
      }
      if status != Success {
        return;
      }
      var instruction := 0x1400_0000 | Imm26(target);
      BranchWord(instruction, target);
      Append(instruction, Branch(target));
    }

    method EmitBranchRegister(rn: bv32)
      requires Valid()
      modifies this`status, this`offset, buffer
      ensures Emitted(BranchRegister(rn))
    {
      hide Decode;
      if magic != Alive {
        status := StructCorrupted;
        return;
      }
      if status != Success {
        return;
      }
      if rn > 31 {
        status := InvalidArgument;
        return;
      }
      var canEmit := CanEmit();
      if !canEmit {
        return;
      }
      RegisterWords(rn);
      Append(0xd61f_0000 | (rn << 5), BranchRegister(rn));
    }

    /** The register is looked at before the status. */
    method EmitReturn(rn: bv32)
      requires Valid()
      modifies this`status, this`offset, buffer
      ensures Emitted(Return(rn))
    {
      hide Decode;
      if magic != Alive {
        status := StructCorrupted;
        return;
      }
      if rn > 31 {
        status := InvalidArgument;
        return;
      }
      if status != Success {
        return;
      }
      var canEmit := CanEmit();
      if !canEmit {
        return;
      }
      RegisterWords(rn);
      Append(0xd65f_0000 | (rn << 5), Return(rn));
    }

    method EmitMove(rd: bv32, imm: bv16, shift: bv8, opcode: bv32)
      requires Valid() && (opcode == 0 || opcode == 2 || opcode == 3)
      modifies this`status, this`offset, buffer
      ensures Emitted(Move(rd, imm, shift, opcode))
    {
      hide Decode, MoveShift, Fault, Move;
      MoveFault(rd, imm, shift, opcode);
      if magic != Alive {
        status := StructCorrupted;
        return;
      }
      if status != Success {
        return;
      }
      if rd > 31 {
        status := InvalidArgument;
        return;
      }
      if !MoveShift(shift) {
        status := InvalidArgument;
        return;
      }
      var canEmit := CanEmit();
      if !canEmit {
        return;
      }
      var hw := (shift / 16) as bv32;
      var instruction: bv32 := 1 << 31;
      instruction := instruction | ((opcode & 7) << 29);
      instruction := instruction | (0x25 << 23);
      instruction := instruction | (hw << 21);
      instruction := instruction | (imm as bv32 << 5);
      instruction := instruction | rd;
      MoveWord(instruction, rd, imm, shift, opcode);
      Append(instruction, Move(rd, imm, shift, opcode));
    }

    method EmitMovZ(rd: bv32, imm: bv16, shift: bv8)
      requires Valid()
      modifies this`status, this`offset, buffer
      ensures Emitted(MovZ(rd, imm, shift))
    {
      EmitMove(rd, imm, shift, 2);
    }

    method EmitMovK(rd: bv32, imm: bv16, shift: bv8)
      requires Valid()
      modifies this`status, this`offset, buffer
      ensures Emitted(MovK(rd, imm, shift))
    {
      EmitMove(rd, imm, shift, 3);
    }

    method EmitMovN(rd: bv32, imm: bv16, shift: bv8)
      requires Valid()
      modifies this`status, this`offset, buffer
      ensures Emitted(MovN(rd, imm, shift))
    {
      EmitMove(rd, imm, shift, 0);
    }
  }
}
