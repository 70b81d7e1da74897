/** The map from host code back to guest addresses that is read when compiled code faults. */
module JitDebug {
  const WORD: nat := 0x1_0000_0000_0000_0000
  const HALF: nat := 0x1_0000_0000

  /** The host code from byte `x86` of a block on belongs to the instruction at `guest`. */
  datatype Mapping = Mapping(x86: nat, guest: nat)

  /** Eight bytes of the metadata arena. */
  datatype Slot = Word(value: nat) | Map(mapping: Mapping)

  datatype Entry = Entry(start: nat, size: nat, metadata: nat)

  datatype Status = Success | InvalidArgument | BufferOverflow

  /** What was recorded of one block. */
  datatype Record = Record(start: nat, size: nat, base: nat, mappings: seq<Mapping>)

  datatype Fault = NotOurs | UnknownBlock | Crash(guest: nat, offset: nat, start: nat, size: nat)

  // ----- What a fault resolves to -----

  /** `k` mappings in a row, from the first on, are not after `offset`. */
  ghost predicate Reached(ms: seq<Mapping>, offset: nat, k: nat) {
    && k <= |ms|
    && (forall j :: 0 <= j < k ==> ms[j].x86 <= offset)
    && (k < |ms| ==> ms[k].x86 > offset)
  }

  ghost predicate Ascending(ms: seq<Mapping>) {
    forall i, j :: 0 <= i < j < |ms| ==> ms[i].x86 <= ms[j].x86
  }

  /** The address `k` mappings into a block whose code starts at `base`. */
  function GuestAt(base: nat, ms: seq<Mapping>, k: nat): nat
    requires k <= |ms|
  {
    if k == 0 then base else (base + ms[k - 1].guest) % WORD
  }

  predicate Contains(r: Record, rip: nat) { r.start <= rip < (r.start + r.size) % WORD }

  /** The mapping reached is the last one that is not after the offset, and none is missed. */
  lemma LastNotAfter(ms: seq<Mapping>, offset: nat, k: nat)
    requires Ascending(ms) && Reached(ms, offset, k)
    ensures forall j :: 0 <= j < |ms| ==> (ms[j].x86 <= offset <==> j < k)
  {
    forall j | k <= j < |ms|
      ensures ms[j].x86 > offset
    {
      assert ms[k].x86 <= ms[j].x86;
    }
  }

  /** Blocks of code are below the end of memory and do not overlap. */
  ghost predicate Apart(rs: seq<Record>) {
    && (forall i :: 0 <= i < |rs| ==> rs[i].start + rs[i].size < 0x1_0000_0000_0000_0000)
    && (forall i, j :: 0 <= i < j < |rs| ==>
          rs[i].start + rs[i].size <= rs[j].start || rs[j].start + rs[j].size <= rs[i].start)
  }

  /** `rs[i]` is where a fault at `rip` is looked up. */
  ghost predicate First(rs: seq<Record>, rip: nat, i: nat) {
    i < |rs| && Contains(rs[i], rip) && forall j :: 0 <= j < i ==> !Contains(rs[j], rip)
  }

  ghost predicate Answer(f: Fault, r: Record, rip: nat) {
    && Contains(r, rip)
    && f.Crash? && f.offset == rip - r.start && f.start == r.start && f.size == r.size
    && exists k :: Reached(r.mappings, rip - r.start, k) && f.guest == GuestAt(r.base, r.mappings, k)
  }

  // ----- The records in the arena -----

  ghost predicate AllMaps(slots: seq<Slot>) { forall j :: 0 <= j < |slots| ==> slots[j].Map? }

  ghost function Mappings(slots: seq<Slot>): (ms: seq<Mapping>)
    requires AllMaps(slots)
    ensures |ms| == |slots| && forall j :: 0 <= j < |ms| ==> ms[j] == slots[j].mapping
  {
    seq(|slots|, j requires 0 <= j < |slots| => slots[j].mapping)
  }

  /** The record of entry `e` fills the slots from `e.metadata` up to `end`. */
  ghost predicate Written(e: Entry, slots: seq<Slot>, end: nat) {
    var at := e.metadata;
    && 0 < e.start < WORD && e.size < HALF
    && at + 4 < end <= |slots|
    && slots[at].Word? && slots[at + 1] == Word(end - at - 4) && slots[at + 2] == Word(at + 4)
    && AllMaps(slots[at + 4..end])
  }

  ghost function RecordOf(e: Entry, slots: seq<Slot>, end: nat): Record
    requires Written(e, slots, end)
  {
    Record(e.start, e.size, slots[e.metadata].value, Mappings(slots[e.metadata + 4..end]))
  }

  /** The records of the entries lie one after the other and fill the first `used` slots. */
  ghost predicate Tiled(es: seq<Entry>, slots: seq<Slot>, used: nat) {
    if es == [] then used == 0
    else
      var e := es[|es| - 1];
      Written(e, slots, used) && Tiled(es[..|es| - 1], slots, e.metadata)
  }

  ghost function Log(es: seq<Entry>, slots: seq<Slot>, used: nat): (rs: seq<Record>)
    requires Tiled(es, slots, used)
    ensures |rs| == |es|
  {
    if es == [] then []
    else
      var e := es[|es| - 1];
      Log(es[..|es| - 1], slots, e.metadata) + [RecordOf(e, slots, used)]
  }

  /** What lies past the used slots does not matter. */
  lemma {:induction false} LogKept(es: seq<Entry>, slots: seq<Slot>, slots': seq<Slot>, used: nat)
    requires Tiled(es, slots, used) && used <= |slots| && used <= |slots'| && slots[..used] == slots'[..used]
    ensures Tiled(es, slots', used) && Log(es, slots', used) == Log(es, slots, used)
  {
    if es != [] {
      var e := es[|es| - 1];
      var at := e.metadata;
      forall j | 0 <= j < used
        ensures slots[j] == slots'[j]
      {
        assert slots[..used][j] == slots'[..used][j];
      }
      assert slots[..at] == slots'[..at];
      assert slots[at + 4..used] == slots'[at + 4..used];
      LogKept(es[..|es| - 1], slots, slots', at);
    }
  }

  /** The slots from `at` on are those of a record. */
  ghost predicate Holds(slots: seq<Slot>, at: nat, base: nat, ms: seq<Mapping>) {
    && at + 4 + |ms| <= |slots| && |ms| > 0
    && slots[at] == Word(base) && slots[at + 1] == Word(|ms|) && slots[at + 2] == Word(at + 4)
    && forall j :: 0 <= j < |ms| ==> slots[at + 4 + j] == Map(ms[j])
  }

  lemma RecordHeld(slots: seq<Slot>, e: Entry, base: nat, ms: seq<Mapping>)
    requires Holds(slots, e.metadata, base, ms) && 0 < e.start < WORD && e.size < HALF
    ensures var end := e.metadata + 4 + |ms|;
      Written(e, slots, end) && RecordOf(e, slots, end) == Record(e.start, e.size, base, ms)
  {
    var at := e.metadata;
    var part := slots[at + 4..at + 4 + |ms|];
    forall j | 0 <= j < |ms|
      ensures part[j] == Map(ms[j])
    {
      assert part[j] == slots[at + 4 + j];
    }
    assert Mappings(part) == ms;
  }

  /** A record is appended by writing the slots after the last one. */
  lemma LogAppend(es: seq<Entry>, slots: seq<Slot>, slots': seq<Slot>, e: Entry, base: nat, ms: seq<Mapping>)
    requires Tiled(es, slots, e.metadata) && e.metadata <= |slots| && e.metadata <= |slots'|
    requires slots[..e.metadata] == slots'[..e.metadata]
    requires Holds(slots', e.metadata, base, ms) && 0 < e.start < WORD && e.size < HALF
    ensures var end := e.metadata + 4 + |ms|;
      && Tiled(es + [e], slots', end)
      && Log(es + [e], slots', end) == Log(es, slots, e.metadata) + [Record(e.start, e.size, base, ms)]
  {
    hide Holds, Written, RecordOf;
    LogKept(es, slots, slots', e.metadata);
    assert (es + [e])[..|es|] == es;
    RecordHeld(slots', e, base, ms);
  }

  /** Each entry leads to its own record; the slots of different records do not overlap. */
  lemma {:induction false} LogAt(es: seq<Entry>, slots: seq<Slot>, used: nat, i: nat) returns (end: nat)
    requires Tiled(es, slots, used) && i < |es|
    ensures end <= used && Written(es[i], slots, end) && Log(es, slots, used)[i] == RecordOf(es[i], slots, end)
    ensures i + 1 < |es| ==> es[i + 1].metadata == end
    ensures forall j :: i < j < |es| ==> end <= es[j].metadata
  {
    var last := |es| - 1;
    if i == last {
      end := used;
    } else {
      end := LogAt(es[..last], slots, es[last].metadata, i);
    }
  }

  lemma EntryAt(es: seq<Entry>, slots: seq<Slot>, used: nat, i: nat) returns (end: nat)
    requires Tiled(es, slots, used) && i < |es|
    ensures Written(es[i], slots, end) && Log(es, slots, used)[i] == RecordOf(es[i], slots, end)
    ensures Log(es, slots, used)[i].start == es[i].start && Log(es, slots, used)[i].size == es[i].size < HALF
  {
    end := LogAt(es, slots, used, i);
  }

  class DebugContext {
    const entries: array<Entry>
    const arena: array<Slot>
    var entryCount: nat
    var arenaOffset: nat
    var bufferStart: nat
    var bufferEnd: nat
    var status: Status

    /** The records fill the used part of the arena, in order and without a gap. */
    ghost predicate Valid()
      reads this, entries, arena
    {
      && entryCount <= entries.Length
      && arenaOffset % 8 == 0 && arenaOffset / 8 <= arena.Length
      && Tiled(entries[..entryCount], arena[..], arenaOffset / 8)
    }

    ghost function Records(): (rs: seq<Record>)
      requires Valid()
      reads this, entries, arena
      ensures |rs| == entryCount
    {
      Log(entries[..entryCount], arena[..], arenaOffset / 8)
    }

    constructor (entryCapacity: nat, arenaCapacity: nat)
      ensures Valid() && Records() == [] && status == Success
      ensures fresh(entries) && fresh(arena)
      ensures entries.Length == entryCapacity && arena.Length == arenaCapacity / 8
    {
      entries := new Entry[entryCapacity](_ => Entry(0, 0, 0));
      arena := new Slot[arenaCapacity / 8](_ => Word(0));
      entryCount, arenaOffset, status := 0, 0, Success;
      bufferStart, bufferEnd := 0, 0;
    }

    /** Why a block is not recorded, if it is not. */
    ghost function Refusal(start: nat, mapped: bool, count: nat): Status
      reads this, entries, arena
    {
      if status != Success then status
      else if start == 0 || !mapped || count == 0 then InvalidArgument
      else if entryCount >= entries.Length then BufferOverflow
      else if arenaOffset + count * 8 + 32 > 8 * arena.Length then BufferOverflow
      else Success
    }

    method CopyMappings(to: nat, mapping: array<Mapping>, count: nat)
      requires to + count <= arena.Length && count <= mapping.Length
      modifies arena
      ensures forall j :: 0 <= j < count ==> arena[to + j] == Map(mapping[j])
      ensures forall j :: 0 <= j < arena.Length && !(to <= j < to + count) ==> arena[j] == old(arena[j])
    {
      for i := 0 to count
        invariant forall j :: 0 <= j < i ==> arena[to + j] == Map(mapping[j])
        invariant forall j :: 0 <= j < arena.Length && !(to <= j < to + i) ==> arena[j] == old(arena[j])
      {
        arena[to + i] := Map(mapping[i]);
      }
    }

    /** Write the metadata of a block and its mappings behind the last record. */
    method WriteMetadata(base: nat, mapping: array<Mapping>, count: nat) returns (at: nat)
      requires arenaOffset % 8 == 0 && arenaOffset + count * 8 + 32 <= 8 * arena.Length && 0 < count <= mapping.Length
      modifies arena
      ensures at == arenaOffset / 8 && Holds(arena[..], at, base, mapping[..count])
      ensures old(arena[..])[..at] == arena[..][..at]
    {
      at := arenaOffset / 8;
      arena[at], arena[at + 1], arena[at + 2] := Word(base), Word(count), Word(at + 4);
      CopyMappings(at + 4, mapping, count);
    }

    /** A null pointer is 0 or null. */
    method AddBlock(start: nat, size: nat, base: nat, mapping: array?<Mapping>, count: nat) returns (r: Status)
      requires Valid() && start < WORD && size < HALF && base < WORD && count < HALF
      requires mapping != null ==> count <= mapping.Length
      modifies this`entryCount, this`arenaOffset, this`status, entries, arena
      ensures Valid() && r == status == old(Refusal(start, mapping != null, count))
      ensures r != Success ==>
          Records() == old(Records()) && entries[..] == old(entries[..]) && arena[..] == old(arena[..])
      ensures r == Success <==>
        && old(status) == Success && start != 0 && mapping != null && count != 0
        && old(entryCount) < entries.Length && old(arenaOffset) + count * 8 + 32 <= 8 * arena.Length
      ensures r != Success ==> entryCount == old(entryCount) && arenaOffset == old(arenaOffset)
      ensures r == Success ==> Records() == old(Records()) + [Record(start, size, base, old(mapping[..count]))]
      ensures r == Success ==> entryCount == old(entryCount) + 1 && arenaOffset == old(arenaOffset) + count * 8 + 32
    {
      hide Written, RecordOf, Holds;
      if status != Success {
        return status;
      }
      status := InvalidArgument;
      if start == 0 || mapping == null || count == 0 {
        return InvalidArgument;
      }
      if entryCount >= entries.Length {
        status := BufferOverflow;
        return BufferOverflow;
      }
      var totalMappingSize := count * 8;
      var totalMemoryRequired := totalMappingSize + 32;
      if arenaOffset + totalMemoryRequired > 8 * arena.Length {
        status := BufferOverflow;
        return BufferOverflow;
      }
      var at := WriteMetadata(base, mapping, count);
      arenaOffset := arenaOffset + totalMemoryRequired;
      var entry := Entry(start, size, at);
      entries[entryCount] := entry;
      entryCount := entryCount + 1;
      status := Success;
      assert entries[..entryCount] == old(entries[..entryCount]) + [entry];
      LogAppend(old(entries[..entryCount]), old(arena[..]), arena[..], entry, base, old(mapping[..count]));
      return Success;
    }

    /** The guest address for byte `offset` of the block of entry `e`. */
    method GuestOf(e: Entry, offset: nat, ghost end: nat) returns (guest: nat, ghost k: nat)
      requires Written(e, arena[..], end)
      ensures var r := RecordOf(e, arena[..], end);
        Reached(r.mappings, offset, k) && guest == GuestAt(r.base, r.mappings, k)
    {
      var at := e.metadata;
      var base, count, mappings := arena[at].value, arena[at + 1].value, arena[at + 2].value;
      ghost var ms := RecordOf(e, arena[..], end).mappings;
      assert forall j :: 0 <= j < count ==> ms[j] == arena[..][at + 4..end][j].mapping;
      guest, k := base, 0;
      var ii := 0;
      while ii < count
        invariant 0 <= ii <= count == |ms| && k == ii
        invariant forall j :: 0 <= j < ii ==> ms[j].x86 <= offset
        invariant guest == GuestAt(base, ms, ii)
      {
        assert arena[mappings + ii] == arena[..][at + 4..end][ii];
        if arena[mappings + ii].mapping.x86 > offset {
          break;
        }
        guest := (base + arena[mappings + ii].mapping.guest) % WORD;
        ii, k := ii + 1, k + 1;
      }
    }

    /** `rbp` is where the faulting code keeps its processor state, which leads to this context. */
    method HandleFault(rip: nat, rbp: nat) returns (f: Fault)
      requires Valid() && rip < WORD
      ensures rbp % 64 != 0 || rbp == 0 ==> f == NotOurs
      ensures rbp % 64 == 0 && rbp != 0 ==> Resolved(f, Records(), rip, bufferStart, bufferEnd)
    {
      hide Written, RecordOf, Reached;
      if rbp % 64 != 0 || rbp == 0 {
        return NotOurs;
      }
      ghost var es, slots, used := entries[..entryCount], arena[..], arenaOffset / 8;
      for i := 0 to entryCount
        invariant forall j :: 0 <= j < i ==> !Contains(Records()[j], rip)
      {
        ghost var bound := EntryAt(es, slots, used, i);
        var start := entries[i].start;
        var end := (start + entries[i].size) % WORD;
        if rip >= start && rip < end {
          assert entries[i] == es[i];
          var guest, k := GuestOf(entries[i], (rip - start) % HALF, bound);
          f := Crash(guest, (rip - start) % HALF, start, entries[i].size);
          assert Reached(Records()[i].mappings, rip - start, k);
          FirstOnly(Records(), rip, i);
          return;
        }
      }
      return if bufferStart <= rip < bufferEnd then UnknownBlock else NotOurs;
    }
  }

  /** The first record that contains the address answers; without one it is the buffer that counts. */
  ghost predicate Resolved(f: Fault, rs: seq<Record>, rip: nat, bufferStart: nat, bufferEnd: nat) {
    && (forall i: nat :: First(rs, rip, i) ==> Answer(f, rs[i], rip))
    && ((forall i :: 0 <= i < |rs| ==> !Contains(rs[i], rip)) ==>
          f == if bufferStart <= rip < bufferEnd then UnknownBlock else NotOurs)
  }

  lemma FirstOnly(rs: seq<Record>, rip: nat, i: nat)
    requires First(rs, rip, i)
    ensures forall j: nat :: First(rs, rip, j) ==> j == i
  {}

  /** With blocks apart, a fault inside a recorded block is told as that block, at the guest offset of the last
      mapping that is not after it. */
  lemma FaultInside(f: Fault, rs: seq<Record>, rip: nat, bufferStart: nat, bufferEnd: nat, i: nat) returns (k: nat)
    requires Resolved(f, rs, rip, bufferStart, bufferEnd)
    requires Apart(rs) && i < |rs| && rs[i].start <= rip < rs[i].start + rs[i].size && Ascending(rs[i].mappings)
    ensures k <= |rs[i].mappings|
    ensures forall j :: 0 <= j < |rs[i].mappings| ==> (rs[i].mappings[j].x86 <= rip - rs[i].start <==> j < k)
    ensures f.Crash? && f.offset == rip - rs[i].start && f.start == rs[i].start && f.size == rs[i].size
    ensures f.guest ==
      if k == 0 then rs[i].base else (rs[i].base + rs[i].mappings[k - 1].guest) % 0x1_0000_0000_0000_0000
  {
    hide Contains, Apart, Ascending, GuestAt;
    FirstThere(rs, rip, i);
    assert Answer(f, rs[i], rip);
    k :| Reached(rs[i].mappings, rip - rs[i].start, k) && f.guest == GuestAt(rs[i].base, rs[i].mappings, k);
    LastNotAfter(rs[i].mappings, rip - rs[i].start, k);
    GuestIs(rs[i].base, rs[i].mappings, k);
  }

  lemma GuestIs(base: nat, ms: seq<Mapping>, k: nat)
    requires k <= |ms|
    ensures GuestAt(base, ms, k) == if k == 0 then base else (base + ms[k - 1].guest) % 0x1_0000_0000_0000_0000
  {}

  /** With blocks apart the block around the fault is the one that is found. */
  lemma FirstThere(rs: seq<Record>, rip: nat, i: nat)
    requires Apart(rs) && i < |rs| && rs[i].start <= rip < rs[i].start + rs[i].size
    ensures First(rs, rip, i)
  {
    hide Contains;
    ContainsIs(rs[i], rip);
    forall j | 0 <= j < i ensures !Contains(rs[j], rip) { ContainsIs(rs[j], rip); }
  }

  lemma ContainsIs(r: Record, rip: nat)
    requires r.start + r.size < 0x1_0000_0000_0000_0000
    ensures Contains(r, rip) <==> r.start <= rip < r.start + r.size
  {}

  /** The slots of two records do not overlap, and none is past the used part. */
  lemma RecordsApart(es: seq<Entry>, slots: seq<Slot>, used: nat, i: nat, j: nat) returns (end: nat, end': nat)
    requires Tiled(es, slots, used) && i < j < |es|
    ensures Written(es[i], slots, end) && Written(es[j], slots, end')
    ensures es[i].metadata < end <= es[j].metadata < end' <= used
  {
    end := LogAt(es, slots, used, i);
    end' := LogAt(es, slots, used, j);
  }
}
