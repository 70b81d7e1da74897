/** The cache of compiled blocks: 4096 sets of four ways, looked up by guest address. */
module BlockCache {
  const SETS: nat := 4096
  const WAYS: nat := 4

  /** `host` is the address of compiled code; 0 for none. */
  datatype Way = Way(guest: nat, host: nat)

  type Cache = seq<seq<Way>>

  function SetOf(pc: nat): (s: nat)
    ensures s < SETS
  {
    (pc / 4) % SETS
  }

  /** The way that is given up in a full set. */
  function EvictWay(pc: nat): (w: nat)
    ensures w < WAYS
  {
    (pc / 16) % WAYS
  }

  // ----- One set -----

  /** The first way from `i` on with the address `pc`. */
  function WithAddress(ways: seq<Way>, pc: nat, i: nat): (k: nat)
    requires i <= |ways|
    ensures i <= k <= |ways|
    ensures forall j :: i <= j < k ==> ways[j].guest != pc
    ensures k < |ways| ==> ways[k].guest == pc
    decreases |ways| - i
  {
    if i == |ways| || ways[i].guest == pc then i else WithAddress(ways, pc, i + 1)
  }

  /** The first way from `i` on without code. */
  function Vacant(ways: seq<Way>, i: nat): (k: nat)
    requires i <= |ways|
    ensures i <= k <= |ways|
    ensures forall j :: i <= j < k ==> ways[j].host != 0
    ensures k < |ways| ==> ways[k].host == 0
    decreases |ways| - i
  {
    if i == |ways| || ways[i].host == 0 then i else Vacant(ways, i + 1)
  }

  /** The code of the first way from `i` on that has the address and code. */
  function Found(ways: seq<Way>, pc: nat, i: nat): nat
    requires i <= |ways|
    decreases |ways| - i
  {
    if i == |ways| then 0
    else if ways[i].guest == pc && ways[i].host != 0 then ways[i].host
    else Found(ways, pc, i + 1)
  }

  /** The way an insertion writes. */
  function Chosen(ways: seq<Way>, pc: nat): (k: nat)
    requires |ways| == WAYS
    ensures k < WAYS
  {
    var k := WithAddress(ways, pc, 0);
    if k < WAYS then k
    else
      var v := Vacant(ways, 0);
      if v < WAYS then v else EvictWay(pc)
  }

  /** Code lies in the first ways, under addresses of this set and no address twice; the other ways are zero. */
  ghost predicate SetOk(ways: seq<Way>, s: nat) {
    && |ways| == WAYS
    && (forall i, j :: 0 <= i < j < WAYS && ways[j].host != 0 ==> ways[i].host != 0)
    && (forall i :: 0 <= i < WAYS && ways[i].host == 0 ==> ways[i].guest == 0)
    && (forall i :: 0 <= i < WAYS && ways[i].host != 0 ==> SetOf(ways[i].guest) == s)
    && (forall i, j :: 0 <= i < j < WAYS && ways[i].host != 0 && ways[j].host != 0 ==> ways[i].guest != ways[j].guest)
  }

  lemma {:induction false} FoundIs(ways: seq<Way>, pc: nat, i: nat, k: nat)
    requires i <= k < |ways| && ways[k].guest == pc && ways[k].host != 0
    requires forall j :: i <= j < |ways| && ways[j].guest == pc && ways[j].host != 0 ==> j == k
    ensures Found(ways, pc, i) == ways[k].host
    decreases |ways| - i
  {
    if i < k {
      FoundIs(ways, pc, i + 1, k);
    }
  }

  lemma {:induction false} FoundNone(ways: seq<Way>, pc: nat, i: nat)
    requires i <= |ways| && forall j :: i <= j < |ways| ==> ways[j].guest != pc || ways[j].host == 0
    ensures Found(ways, pc, i) == 0
    decreases |ways| - i
  {
    if i < |ways| {
      FoundNone(ways, pc, i + 1);
    }
  }

  lemma {:induction false} FoundSome(ways: seq<Way>, pc: nat, i: nat) returns (k: nat)
    requires i <= |ways| && Found(ways, pc, i) != 0
    ensures i <= k < |ways| && ways[k].guest == pc && ways[k].host == Found(ways, pc, i)
    decreases |ways| - i
  {
    if ways[i].guest == pc && ways[i].host != 0 {
      k := i;
    } else {
      k := FoundSome(ways, pc, i + 1);
    }
  }

  /** An insertion keeps the set in order; a full set gives up one way, fixed by the set alone. */
  lemma InsertKeepsSet(ways: seq<Way>, pc: nat, host: nat)
    requires SetOk(ways, SetOf(pc)) && host != 0
    ensures var k := Chosen(ways, pc);
      && SetOk(ways[k := Way(pc, host)], SetOf(pc))
      && (ways[k].host != 0 && ways[k].guest != pc ==>
            k == (SetOf(pc) / 4) % WAYS && forall i :: 0 <= i < WAYS ==> ways[i].host != 0)
  {
    EvictBits(pc);
  }

  /** The bits that choose the way lie inside the bits that choose the set. */
  lemma EvictBits(pc: nat)
    ensures EvictWay(pc) == (SetOf(pc) / 4) % WAYS
  {
    var q := pc / 4;
    assert pc / 16 == q / 4;
    assert q == (q / SETS) * SETS + q % SETS;
    assert q / 4 == (q / SETS) * 1024 + (q % SETS) / 4;
  }

  // ----- The whole cache -----

  ghost predicate CacheOk(c: Cache) {
    |c| == SETS && forall s :: 0 <= s < SETS ==> SetOk(c[s], s)
  }

  predicate Shaped(c: Cache) { |c| == SETS && forall s :: 0 <= s < SETS ==> |c[s]| == WAYS }

  function Lookup(c: Cache, pc: nat): nat
    requires Shaped(c)
  {
    Found(c[SetOf(pc)], pc, 0)
  }

  function Insert(c: Cache, pc: nat, host: nat): (c': Cache)
    requires Shaped(c)
    ensures Shaped(c')
  {
    var ways := c[SetOf(pc)];
    c[SetOf(pc) := ways[Chosen(ways, pc) := Way(pc, host)]]
  }

  function Zeroed(): (c: Cache)
    ensures Shaped(c)
  {
    seq(SETS, _ => seq(WAYS, _ => Way(0, 0)))
  }

  lemma ZeroedOk()
    ensures CacheOk(Zeroed())
    ensures forall pc :: Lookup(Zeroed(), pc) == 0
  {
    forall pc: nat
      ensures Lookup(Zeroed(), pc) == 0
    {
      FoundNone(Zeroed()[SetOf(pc)], pc, 0);
    }
  }

  /** The address that an insertion drives out, if there is one. */
  ghost predicate DrivenOut(c: Cache, pc: nat, other: nat)
    requires Shaped(c)
  {
    var ways := c[SetOf(pc)];
    && other != pc && SetOf(other) == SetOf(pc)
    && (forall i :: 0 <= i < WAYS ==> ways[i].host != 0 && ways[i].guest != pc)
    && ways[(SetOf(pc) / 4) % WAYS].guest == other
  }

  /** Exactly when an address is driven out: its set is that of the new one, all four ways of it are in use by other
      addresses, and it is in the way that bits 4 and 5 of the new address choose. */
  lemma DrivenExactly(c: Cache, pc: nat, other: nat)
    requires CacheOk(c)
    ensures |c| == 4096 && |c[pc / 4 % 4096]| == 4
    ensures var ways := c[pc / 4 % 4096];
      DrivenOut(c, pc, other) <==>
        && other != pc && other / 4 % 4096 == pc / 4 % 4096
        && (forall i :: 0 <= i < 4 ==> ways[i].host != 0 && ways[i].guest != pc)
        && ways[pc / 16 % 4].guest == other
  {
    EvictBits(pc);
  }

  /** After an insertion its address is found, one other may be lost, and every other one is found as before. */
  lemma InsertThenLookup(c: Cache, pc: nat, host: nat, other: nat)
    requires CacheOk(c) && host != 0
    ensures CacheOk(Insert(c, pc, host)) && Lookup(Insert(c, pc, host), pc) == host
    ensures other != pc ==>
      Lookup(Insert(c, pc, host), other) == if DrivenOut(c, pc, other) then 0 else Lookup(c, other)
  {
    InsertKeepsSet(c[SetOf(pc)], pc, host);
    var ways := c[SetOf(pc)];
    var k := Chosen(ways, pc);
    FoundIs(ways[k := Way(pc, host)], pc, 0, k);
    if other != pc && SetOf(other) == SetOf(pc) {
      SetThenLookup(ways, pc, host, other);
    }
  }

  lemma SetThenLookup(ways: seq<Way>, pc: nat, host: nat, other: nat)
    requires SetOk(ways, SetOf(pc)) && host != 0 && other != pc && SetOf(other) == SetOf(pc)
    ensures var k := Chosen(ways, pc);
      Found(ways[k := Way(pc, host)], other, 0)
        == if ways[k].host != 0 && ways[k].guest == other then 0 else Found(ways, other, 0)
    ensures ways[Chosen(ways, pc)].host != 0 && ways[Chosen(ways, pc)].guest == other <==>
      (forall i :: 0 <= i < WAYS ==> ways[i].host != 0 && ways[i].guest != pc) &&
        ways[(SetOf(pc) / 4) % WAYS].guest == other
  {
    var k := Chosen(ways, pc);
    var ways' := ways[k := Way(pc, host)];
    InsertKeepsSet(ways, pc, host);
    EvictBits(pc);
    if Found(ways, other, 0) != 0 {
      var j := FoundSome(ways, other, 0);
      if j == k {
        FoundNone(ways', other, 0);
      } else {
        assert ways'[j] == ways[j];
        FoundIs(ways', other, 0, j);
      }
    } else if Found(ways', other, 0) != 0 {
      var j := FoundSome(ways', other, 0);
      assert ways'[j] == ways[j];
      FoundIs(ways, other, 0, j);
    }
  }

  // ----- Runs of insertions -----

  datatype Insertion = Insertion(pc: nat, host: nat)

  function InsertAll(h: seq<Insertion>): (c: Cache)
    ensures Shaped(c)
  {
    if h == [] then Zeroed()
    else Insert(InsertAll(h[..|h| - 1]), h[|h| - 1].pc, h[|h| - 1].host)
  }

  /** The code inserted last for the address; 0 if there was none. */
  function Latest(h: seq<Insertion>, pc: nat): nat {
    if h == [] then 0
    else if h[|h| - 1].pc == pc then h[|h| - 1].host
    else Latest(h[..|h| - 1], pc)
  }

  /** From the zeroed cache on, a lookup finds the latest insertion for the address or nothing. */
  lemma {:induction false} LatestOrNothing(h: seq<Insertion>, pc: nat)
    requires forall i :: 0 <= i < |h| ==> h[i].host != 0
    ensures CacheOk(InsertAll(h))
    ensures Lookup(InsertAll(h), pc) == 0 || Lookup(InsertAll(h), pc) == Latest(h, pc)
    ensures |h| > 0 ==> Lookup(InsertAll(h), h[|h| - 1].pc) == h[|h| - 1].host
  {
    if h == [] {
      ZeroedOk();
    } else {
      var last := h[|h| - 1];
      LatestOrNothing(h[..|h| - 1], pc);
      InsertThenLookup(InsertAll(h[..|h| - 1]), last.pc, last.host, pc);
    }
  }

  // ----- The tables in memory -----

  class Table {
    const ways: array2<Way>

    ghost predicate Valid()
      reads this
    {
      ways.Length0 == SETS && ways.Length1 == WAYS
    }

    ghost function Row(s: nat): (r: seq<Way>)
      requires Valid() && s < SETS
      reads this, ways
      ensures |r| == WAYS && forall w :: 0 <= w < WAYS ==> r[w] == ways[s, w]
    {
      [ways[s, 0], ways[s, 1], ways[s, 2], ways[s, 3]]
    }

    ghost function View(): (c: Cache)
      requires Valid()
      reads this, ways
      ensures Shaped(c) && forall s :: 0 <= s < SETS ==> c[s] == Row(s)
    {
      seq(SETS, s requires 0 <= s < SETS && Valid() reads this, ways => Row(s))
    }

    constructor ()
      ensures Valid() && fresh(ways) && View() == Zeroed()
    {
      ways := new Way[SETS, WAYS]((_, _) => Way(0, 0));
      new;
      assert forall s :: 0 <= s < SETS ==> View()[s] == Zeroed()[s];
    }

    method Clear()
      requires Valid()
      modifies ways
      ensures View() == Zeroed()
    {
      for s := 0 to SETS
        invariant forall t, w :: 0 <= t < s && 0 <= w < WAYS ==> ways[t, w] == Way(0, 0)
      {
        for w := 0 to WAYS
          invariant forall t, v :: 0 <= t < s && 0 <= v < WAYS ==> ways[t, v] == Way(0, 0)
          invariant forall v :: 0 <= v < w ==> ways[s, v] == Way(0, 0)
        {
          ways[s, w] := Way(0, 0);
        }
      }
      assert forall s :: 0 <= s < SETS ==> View()[s] == Zeroed()[s];
    }

    method Put(s: nat, w: nat, way: Way)
      requires Valid() && s < SETS && w < WAYS
      modifies ways
      ensures View() == old(View())[s := old(View())[s][w := way]]
    {
      ways[s, w] := way;
      assert forall t :: 0 <= t < SETS ==> View()[t] == (if t == s then old(Row(s))[w := way] else old(View())[t]);
    }

    method BlockLookup(pc: nat) returns (host: nat)
      requires Valid()
      ensures host == Lookup(View(), pc)
    {
      var s := (pc / 4) % SETS;
      ghost var row := Row(s);
      for i := 0 to WAYS
        invariant Found(row, pc, 0) == Found(row, pc, i)
      {
        if ways[s, i].guest == pc && ways[s, i].host != 0 {
          return ways[s, i].host;
        }
      }
      return 0;
    }

    method BlockInsert(pc: nat, host: nat)
      requires Valid()
      modifies ways
      ensures View() == Insert(old(View()), pc, host)
    {
      var s := (pc / 4) % SETS;
      ghost var row := Row(s);
      for i := 0 to WAYS
        invariant WithAddress(row, pc, 0) == WithAddress(row, pc, i)
        invariant View() == old(View())
      {
        if ways[s, i].guest == pc {
          Put(s, i, ways[s, i].(host := host));
          return;
        }
      }
      for i := 0 to WAYS
        invariant Vacant(row, 0) == Vacant(row, i)
        invariant View() == old(View())
      {
        if ways[s, i].host == 0 {
          Put(s, i, Way(pc, host));
          return;
        }
      }
      var evictWay := (pc / 16) % WAYS;
      Put(s, evictWay, Way(pc, host));
    }
  }
}
