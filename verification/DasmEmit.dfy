/** Pass 3, the part that only writes bytes. */
module DasmEmit {
  import opened DasmActions
  import opened DasmLabels
  import opened DasmLayout
  import opened DasmBytes

  method WriteLE(buffer: array<U8>, cp: nat, n: int, len: nat)
    requires cp + len <= buffer.Length
    modifies buffer
    ensures buffer[..cp] == old(buffer[..cp]) && buffer[cp..cp + len] == LE(n, len)
  {
    var i, m := 0, n;
    while i < len
      invariant 0 <= i <= len
      invariant buffer[..cp] == old(buffer[..cp])
      invariant buffer[cp..cp + i] + LE(m, len - i) == LE(n, len)
    {
      buffer[cp + i] := m % 256;
      assert buffer[cp..cp + i + 1] == buffer[cp..cp + i] + [m % 256];
      i, m := i + 1, m / 256;
    }
  }

  /** The item's opcode bytes stand directly before `cp`, and `len` more bytes fit. */
  ghost predicate Room(buffer: array<U8>, cp: nat, it: Item, len: int)
    reads buffer
  {
    && Shaped(it.act, it.c) && |it.c.run| <= cp <= buffer.Length && cp + len <= buffer.Length
    && buffer[cp - |it.c.run|..cp] == it.c.run
  }

  /** Bytes written behind an unchanged part join it. */
  lemma JoinTail(b0: seq<U8>, b: seq<U8>, lo: nat, cp: nat, e: nat)
    requires lo <= cp <= e <= |b| == |b0| && b[..cp] == b0[..cp]
    ensures b[..lo] == b0[..lo] && b[lo..e] == b0[lo..cp] + b[cp..e]
  {
    assert b[..lo] == b[..cp][..lo];
    assert b[lo..cp] == b[..cp][lo..];
    assert b0[lo..cp] == b0[..cp][lo..];
  }

  method WriteByte(buffer: array<U8>, cp: nat, n: int)
    requires cp < buffer.Length
    modifies buffer
    ensures buffer[..cp] == old(buffer[..cp]) && buffer[cp..cp + 1] == [n % 256]
  {
    buffer[cp] := n % 256;
  }

  /** Patch a short branch's opcode, and write the displacement. */
  method EmitRel(buffer: array<U8>, cp: nat, target: int, shrink: int, ghost it: Item, ghost addr: int, ghost pad: int)
    returns (cp': nat)
    requires it.act.RelPC? && (shrink == 0 || shrink == Shrink(it.c.op)) && Room(buffer, cp, it, 4 - shrink)
    modifies buffer
    ensures cp' == cp + 4 - shrink && var lo := cp - |it.c.run|;
      && buffer[..lo] == old(buffer[..lo]) && buffer[lo..cp'] == Code(it, shrink, target - cp', addr, pad)
  {
    hide LE;
    ghost var run, lo, b0 := it.c.run, cp - |it.c.run|, buffer[..];
    var n := target - (cp + 4 - shrink);
    if shrink == 0 {
      WriteLE(buffer, cp, n, 4);
      cp' := cp + 4;
      JoinTail(b0, buffer[..], lo, cp, cp');
    } else if shrink == 4 {
      buffer[cp - 2] := buffer[cp - 1] - 0x10;
      ghost var b1 := buffer[..];
      WriteByte(buffer, cp - 1, n);
      cp' := cp;
      JoinTail(b0, b1, lo, cp - 2, cp - 1);
      JoinTail(b1, buffer[..], lo, cp - 1, cp');
    } else {
      buffer[cp - 1] := 0xeb;
      ghost var b1 := buffer[..];
      WriteByte(buffer, cp, n);
      cp' := cp + 1;
      JoinTail(b0, b1, lo, cp - 1, cp);
      JoinTail(b1, buffer[..], lo, cp, cp');
    }
  }

  method EmitOpcode(buffer: array<U8>, cp: nat, v: U8, ghost it: Item) returns (cp': nat)
    requires Room(buffer, cp, it, 1)
    modifies buffer
    ensures cp' == cp + 1 && var lo := cp - |it.c.run|;
      && buffer[..lo] == old(buffer[..lo]) && buffer[lo..cp'] == it.c.run + [v]
  {
    ghost var b0 := buffer[..];
    WriteByte(buffer, cp, v);
    cp' := cp + 1;
    JoinTail(b0, buffer[..], cp - |it.c.run|, cp, cp');
  }

  method EmitAddr(buffer: array<U8>, cp: nat, addr: int, ghost it: Item, ghost disp: int, ghost pad: int)
    returns (cp': nat)
    requires it.act.ImmPC? && Room(buffer, cp, it, 8)
    modifies buffer
    ensures cp' == cp + 8 && var lo := cp - |it.c.run|;
      && buffer[..lo] == old(buffer[..lo]) && buffer[lo..cp'] == Code(it, 0, disp, addr, pad)
  {
    hide LE;
    ghost var b0 := buffer[..];
    WriteLE(buffer, cp, addr, 8);
    cp' := cp + 8;
    JoinTail(b0, buffer[..], cp - |it.c.run|, cp, cp');
  }

  /** Labels and chunk ends write nothing. */
  lemma NoCode(it: Item, disp: int, addr: int, pad: int)
    requires it.act.LabelPC? || IsTerm(it.act)
    ensures Shaped(it.act, it.c) && Code(it, 0, disp, addr, pad) == it.c.run
  {}

  /** Write an immediate; the short form of a sized one patches the opcode two bytes back. */
  method EmitImm(buffer: array<U8>, cp: nat, n: int, action: U8, ghost it: Item, ghost disp: int, ghost addr: int,
      ghost pad: int)
    returns (cp': nat)
    requires IMM_S <= action <= IMM_DB && ActAt([action], 0) == it.act && it.arg == n
    requires Room(buffer, cp, it, ImmLen(it.act.kind, n))
    modifies buffer
    ensures cp' == cp + ImmLen(it.act.kind, n) && var lo := cp - |it.c.run|;
      && buffer[..lo] == old(buffer[..lo]) && buffer[lo..cp'] == Code(it, 0, disp, addr, pad)
  {
    hide LE, FitsByte;
    ghost var lo, b0 := cp - |it.c.run|, buffer[..];
    if action == IMM_W || (action == IMM_WB && !FitsByte(n)) {
      WriteLE(buffer, cp, n, 2);
      cp' := cp + 2;
      JoinTail(b0, buffer[..], lo, cp, cp');
    } else if action == IMM_D || (action == IMM_DB && !FitsByte(n)) {
      WriteLE(buffer, cp, n, 4);
      cp' := cp + 4;
      JoinTail(b0, buffer[..], lo, cp, cp');
    } else {
      if action == IMM_DB || action == IMM_WB {
        PatchOpcode(buffer, cp, it.c.run);
      }
      ghost var b1 := buffer[..];
      WriteByte(buffer, cp, n);
      cp' := cp + 1;
      JoinTail(b1, buffer[..], lo, cp, cp');
    }
  }

  method PatchOpcode(buffer: array<U8>, cp: nat, ghost run: Bytes)
    requires 2 <= |run| <= cp <= buffer.Length && buffer[cp - |run|..cp] == run
    modifies buffer
    ensures buffer[..cp - |run|] == old(buffer[..cp - |run|]) && buffer[cp - |run|..cp] == Patched(run)
  {
    ghost var b0 := buffer[..];
    assert run[|run| - 2] == buffer[cp - 2];
    buffer[cp - 2] := (buffer[cp - 2] as int + 2) % 256;
    assert buffer[..cp - |run|] == b0[..cp - |run|];
  }

  method EmitSpace(buffer: array<U8>, cp: nat, n: int, fill: U8, ghost it: Item, ghost disp: int, ghost addr: int,
      ghost pad: int)
    returns (cp': nat)
    requires it.act == Space(fill) && it.arg == n >= 0 && Room(buffer, cp, it, n)
    modifies buffer
    ensures cp' == cp + n && var lo := cp - |it.c.run|;
      && buffer[..lo] == old(buffer[..lo]) && buffer[lo..cp'] == Code(it, 0, disp, addr, pad)
  {
    ghost var lo, b0 := cp - |it.c.run|, buffer[..];
    cp' := cp;
    var m := n;
    while m > 0
      invariant 0 <= m <= n && cp' == cp + n - m
      invariant buffer[..cp] == b0[..cp] && forall i :: cp <= i < cp' ==> buffer[i] == fill
    {
      buffer[cp'] := fill;
      cp', m := cp' + 1, m - 1;
    }
    JoinTail(b0, buffer[..], lo, cp, cp');
    assert buffer[cp..cp'] == Rep(fill, n);
  }

  method EmitAlign(buffer: array<U8>, cp: nat, mask: U8, ghost it: Item, ghost disp: int, ghost addr: int)
    returns (cp': nat)
    requires it.act == Align(mask) && IsMask(mask) && Room(buffer, cp, it, Pad(cp, mask))
    modifies buffer
    ensures cp' == cp + Pad(cp, mask) && var lo := cp - |it.c.run|;
      && buffer[..lo] == old(buffer[..lo]) && buffer[lo..cp'] == Code(it, 0, disp, addr, cp' - cp)
  {
    hide Pad;
    ghost var lo, b0 := cp - |it.c.run|, buffer[..];
    PadAligns(cp, mask);
    cp' := cp;
    var unit: int := mask as int + 1;
    while cp' % unit != 0
      invariant cp <= cp' <= cp + Pad(cp, mask)
      invariant buffer[..cp] == b0[..cp] && forall i :: cp <= i < cp' ==> buffer[i] == 0x90
      decreases cp + Pad(cp, mask) - cp'
    {
      buffer[cp'] := 0x90;
      cp' := cp' + 1;
    }
    if cp' < cp + Pad(cp, mask) {
      PadFirst(cp, mask, cp' - cp);
    }
    JoinTail(b0, buffer[..], lo, cp, cp');
    assert cp' > cp ==> buffer[cp..cp'] == Rep(0x90, cp' - cp);
  }
}
