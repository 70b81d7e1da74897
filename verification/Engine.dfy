/** The run loop of the engine, one atomic step at a time, with requests of other threads in between. */
module Engine {
  import opened BlockCache

  /** The program counter that ends a run. */
  const SENTINEL: nat := 0xffff_ffff_ffff_ffff

  /** The guest and the translator: the block at an address has one meaning, and one size in the buffer. `junk` is what
      code that was written over in part does. */
  datatype World<!G> = World(pcOf: G -> nat, block: (nat, G) -> G, junk: (nat, G) -> G, size: nat -> nat,
    translates: nat -> bool, capacity: nat)

  datatype Reason = Stopped | Interrupted | Finished | Failed

  datatype Loc =
    | AtStop | AtLoad | AtReset | AtMemset | AtStore | AtGuard | AtLookup | AtTranslate | AtInsert | AtExecute
    | Ended(reason: Reason)

  /** Where the loop is, its variables, and when the chosen code was translated. */
  datatype Loop = Loop(loc: Loc, pc: nat, chosen: nat, stamp: nat)

  datatype Flags = Flags(stop: bool, clear: bool, interrupt: bool)

  /** The block cache, and when the code of a cached address was translated. */
  datatype Tables = Tables(cache: Cache, made: map<nat, nat>)

  /** Compiled code in the buffer. */
  datatype Code = Code(pc: nat, size: nat)

  /** The code buffer, and whether it has been full since the cache was cleared. */
  datatype Jit = Jit(cursor: nat, buffer: map<nat, Code>, full: bool)

  /** `trace` holds the guest states so far, `time` counts the steps; `misled` says that some lookup has found a pointer
      at which the code of its address is no longer. */
  datatype State<G> = State(
    loop: Loop, flags: Flags, tables: Tables, jit: Jit, guest: G, trace: seq<G>, time: nat, misled: bool)

  /** A step of the loop, a store by another thread, or a new call of the loop. */
  datatype Action = Tick | RequestStop | RequestClear | RequestInterrupt | RunAgain

  function Start<G>(guest: G): State<G> {
    State(Loop(AtStop, 0, 0, 0), Flags(false, false, false), Tables(Zeroed(), map[]), Jit(0, map[], false), guest,
      [guest], 0, false)
  }

  /** Code placed at the cursor destroys what it overlaps. */
  function Emit(j: Jit, pc: nat, n: nat): Jit {
    var kept := map h | h in j.buffer && (h - 1 + j.buffer[h].size <= j.cursor || j.cursor + n <= h - 1) :: j.buffer[h];
    Jit(j.cursor + n, kept[j.cursor + 1 := Code(pc, n)], j.full)
  }

  /** A translation that breaks off may have written over everything from `at` on. */
  function Spoil(j: Jit, at: nat): Jit {
    j.(buffer := map h | h in j.buffer && h - 1 + j.buffer[h].size <= at :: j.buffer[h])
  }

  /** A full buffer is reused from its start; the block cache is left as it is. */
  function Room(j: Jit, n: nat, capacity: nat): Jit {
    if j.cursor + n <= capacity then j else Jit(0, Spoil(j, j.cursor).buffer, true)
  }

  function Translate(l: Loop, j: Jit, ok: bool, n: nat, capacity: nat, now: nat): (Loop, Jit) {
    if !ok then (l.(loc := Ended(Failed)), Spoil(j, j.cursor))
    else
      var room := Room(j, n, capacity);
      if room.cursor + n <= capacity then (Loop(AtInsert, l.pc, room.cursor + 1, now), Emit(room, l.pc, n))
      else (l.(loc := Ended(Failed)), Spoil(room, room.cursor))
  }

  /** The code at the pointer is that of the address. */
  predicate Leads(j: Jit, h: nat, pc: nat) { h in j.buffer && j.buffer[h].pc == pc }

  /** The lookup finds a pointer that leads elsewhere. */
  predicate Misleads(cached: bool, l: Loop, t: Tables, j: Jit) {
    cached && Shaped(t.cache) && Lookup(t.cache, l.pc) != 0 && !Leads(j, Lookup(t.cache, l.pc), l.pc)
  }

  function Find(cached: bool, l: Loop, t: Tables): Loop {
    var h := if cached && Shaped(t.cache) then Lookup(t.cache, l.pc) else 0;
    if h == 0 then Loop(AtTranslate, l.pc, 0, l.stamp)
    else Loop(AtInsert, l.pc, h, if l.pc in t.made then t.made[l.pc] else 0)
  }

  function Keep(cached: bool, l: Loop, t: Tables): Tables {
    if cached && Shaped(t.cache) then Tables(Insert(t.cache, l.pc, l.chosen), t.made[l.pc := l.stamp]) else t
  }

  function Execute<G>(w: World<G>, l: Loop, j: Jit, guest: G): G {
    if l.chosen in j.buffer then w.block(j.buffer[l.chosen].pc, guest) else w.junk(l.chosen, guest)
  }

  function Guard(l: Loop, f: Flags, pc: nat): Loop {
    if f.interrupt then l.(loc := Ended(Interrupted))
    else l.(loc := if pc == SENTINEL then Ended(Finished) else AtLookup, pc := pc)
  }

  /** One step of the loop. */
  function Advance<G>(w: World<G>, cached: bool, x: State<G>): State<G> {
    var l := x.loop;
    match l.loc
    case AtStop => x.(loop := l.(loc := if x.flags.stop then Ended(Stopped) else AtLoad))
    case AtLoad => x.(loop := l.(loc := if x.flags.clear then AtReset else AtGuard))
    case AtReset => x.(loop := l.(loc := AtMemset), jit := x.jit.(cursor := 0))
    case AtMemset => x.(loop := l.(loc := AtStore), tables := Tables(Zeroed(), map[]), jit := x.jit.(full := false))
    case AtStore => x.(loop := l.(loc := AtGuard), flags := x.flags.(clear := false))
    case AtGuard =>
      x.(loop := Guard(l, x.flags, w.pcOf(x.guest)), flags := x.flags.(interrupt := false))
    case AtLookup =>
      x.(loop := Find(cached, l, x.tables), misled := x.misled || Misleads(cached, l, x.tables, x.jit))
    case AtTranslate =>
      var r := Translate(l, x.jit, w.translates(l.pc), w.size(l.pc), w.capacity, x.time);
      x.(loop := r.0, jit := r.1)
    case AtInsert => x.(loop := l.(loc := AtExecute), tables := Keep(cached, l, x.tables))
    case AtExecute =>
      var g := Execute(w, l, x.jit, x.guest);
      x.(loop := l.(loc := AtStop), guest := g, trace := x.trace + [g])
    case Ended(_) => x
  }

  function Signal(f: Flags, a: Action): Flags {
    match a
    case RequestStop => f.(stop := true)
    case RequestClear => f.(clear := true)
    case RequestInterrupt => f.(interrupt := true)
    case _ => f
  }

  function Do<G>(w: World<G>, cached: bool, x: State<G>, a: Action): State<G> {
    var y :=
      if a == Tick then Advance(w, cached, x)
      else if a == RunAgain && x.loop.loc.Ended? then x.(loop := x.loop.(loc := AtStop))
      else x.(flags := Signal(x.flags, a));
    y.(time := x.time + 1)
  }

  function Run<G>(w: World<G>, cached: bool, x: State<G>, actions: seq<Action>): State<G> {
    if actions == [] then x
    else Do(w, cached, Run(w, cached, x, actions[..|actions| - 1]), actions[|actions| - 1])
  }

  // ----- What every step keeps of the cache -----

  ghost predicate Live(c: Cache, pc: nat) { CacheOk(c) && Lookup(c, pc) != 0 }

  /** Every cached address has the time its code was translated, before `now`. */
  ghost predicate Dated(t: Tables, now: nat) {
    CacheOk(t.cache) && forall pc :: Live(t.cache, pc) ==> pc in t.made && t.made[pc] < now
  }

  /** Some cached code was translated before time `since`. */
  ghost predicate Stale(t: Tables, since: nat) {
    exists pc :: Live(t.cache, pc) && pc in t.made && t.made[pc] < since
  }

  ghost predicate LoopDated(l: Loop, t: Tables, now: nat) {
    && (l.loc == AtInsert ==> l.chosen != 0 && l.stamp < now)
    && (l.loc == AtStore ==> t.cache == Zeroed())
  }

  ghost predicate CacheInv<G>(x: State<G>) { Dated(x.tables, x.time) && LoopDated(x.loop, x.tables, x.time) }

  lemma NothingLive(made: map<nat, nat>, since: nat)
    ensures Dated(Tables(Zeroed(), made), since) && !Stale(Tables(Zeroed(), made), since)
    ensures forall pc :: !Live(Zeroed(), pc)
  {
    ZeroedOk();
  }

  lemma LiveHere(c: Cache, pc: nat)
    requires CacheOk(c)
    ensures Shaped(c) && (Live(c, pc) <==> Lookup(c, pc) != 0)
  {}

  /** After an insertion what is live was live before or is the new address. */
  lemma LiveAfterInsert(c: Cache, pc: nat, host: nat, other: nat)
    requires CacheOk(c) && host != 0
    ensures Shaped(c) && CacheOk(Insert(c, pc, host))
    ensures Live(Insert(c, pc, host), other) ==> other == pc || Live(c, other)
  {
    InsertThenLookup(c, pc, host, other);
  }

  lemma KeepDated(cached: bool, l: Loop, t: Tables, now: nat, since: nat)
    requires Dated(t, now) && l.chosen != 0 && l.stamp < now
    ensures Dated(Keep(cached, l, t), now)
    ensures Stale(Keep(cached, l, t), since) ==> l.stamp < since || Stale(t, since)
  {
    hide CacheOk, Live;
    LiveAfterInsert(t.cache, l.pc, l.chosen, l.pc);
    var k := Keep(cached, l, t);
    if cached {
      forall other | Live(k.cache, other)
        ensures other in k.made && k.made[other] < now
      {
        LiveAfterInsert(t.cache, l.pc, l.chosen, other);
      }
      if Stale(k, since) {
        var other :| Live(k.cache, other) && other in k.made && k.made[other] < since;
        LiveAfterInsert(t.cache, l.pc, l.chosen, other);
      }
    }
  }

  /** Code found in the cache is as old as its entry says. */
  lemma FindDated(cached: bool, l: Loop, t: Tables, now: nat, since: nat)
    requires Dated(t, now)
    ensures var r := Find(cached, l, t);
      && (r.loc == AtTranslate || r.loc == AtInsert) && r.pc == l.pc
      && (r.loc == AtInsert ==> r.chosen != 0 && r.stamp < now && (r.stamp < since ==> Stale(t, since)))
  {
    hide Lookup, Insert;
    LiveHere(t.cache, l.pc);
  }

  lemma TranslateDated(l: Loop, j: Jit, ok: bool, n: nat, capacity: nat, now: nat)
    ensures var r := Translate(l, j, ok, n, capacity, now).0;
      r.loc == Ended(Failed) || (r.loc == AtInsert && r.chosen != 0 && r.stamp == now)
  {
    hide Emit;
  }

  lemma DatedLater(t: Tables, now: nat)
    requires Dated(t, now)
    ensures Dated(t, now + 1)
  {}

  lemma CacheKept<G>(w: World<G>, cached: bool, x: State<G>, a: Action)
    requires CacheInv(x)
    ensures CacheInv(Do(w, cached, x, a))
  {
    hide Dated, Zeroed, Translate, Find, Keep, Execute;
    DatedLater(x.tables, x.time);
    if a == Tick {
      var l := x.loop;
      if l.loc == AtInsert {
        KeepDated(cached, l, x.tables, x.time, 0);
        DatedLater(Keep(cached, l, x.tables), x.time);
      } else if l.loc == AtMemset {
        NothingLive(map[], x.time + 1);
      } else if l.loc == AtLookup {
        FindDated(cached, l, x.tables, x.time, 0);
      } else if l.loc == AtTranslate {
        TranslateDated(l, x.jit, w.translates(l.pc), w.size(l.pc), w.capacity, x.time);
      }
    }
  }

  lemma StartCache<G>(guest: G)
    ensures CacheInv(Start(guest))
  {
    hide Zeroed, Dated;
    NothingLive(map[], 0);
  }

  lemma {:induction false} CacheAlways<G>(w: World<G>, cached: bool, guest: G, actions: seq<Action>)
    ensures CacheInv(Run(w, cached, Start(guest), actions))
  {
    hide CacheInv, Do;
    if actions == [] {
      StartCache(guest);
    } else {
      CacheAlways(w, cached, guest, actions[..|actions| - 1]);
      CacheKept(w, cached, Run(w, cached, Start(guest), actions[..|actions| - 1]), actions[|actions| - 1]);
    }
  }

  // ----- Requests to clear the cache -----

  /** What holds after a request at time `since`; `n` blocks have run since then. */
  ghost predicate Pending(l: Loop, clear: bool, stale: bool, since: nat, n: int) {
    match l.loc
    case AtStop => stale ==> clear && n <= 1
    case AtLoad => stale ==> clear && n <= 1
    case Ended(_) => stale ==> clear && n <= 1
    case AtReset => stale ==> n <= 1
    case AtMemset => stale ==> n <= 1
    case AtStore => !stale
    case AtInsert => stale || l.stamp < since ==> clear && n == 0
    case AtExecute => stale || l.stamp < since ==> clear && n == 0
    case _ => stale ==> clear && n == 0
  }

  ghost predicate Requested<G>(x: State<G>, since: nat, n: nat) {
    since <= x.time && n <= |x.trace| && Pending(x.loop, x.flags.clear, Stale(x.tables, since), since, |x.trace| - n)
  }

  lemma RequestedKept<G>(w: World<G>, cached: bool, x: State<G>, a: Action, since: nat, n: nat)
    requires CacheInv(x) && Requested(x, since, n)
    ensures Requested(Do(w, cached, x, a), since, n)
  {
    hide Dated, Zeroed, Stale, Translate, Find, Keep, Execute;
    if a == Tick {
      var l := x.loop;
      if l.loc == AtInsert {
        KeepDated(cached, l, x.tables, x.time, since);
      } else if l.loc == AtMemset {
        NothingLive(map[], since);
      } else if l.loc == AtLookup {
        FindDated(cached, l, x.tables, x.time, since);
      } else if l.loc == AtTranslate {
        TranslateDated(l, x.jit, w.translates(l.pc), w.size(l.pc), w.capacity, x.time);
      }
    }
  }

  lemma {:induction false} RequestedAlways<G>(
      w: World<G>, cached: bool, x: State<G>, actions: seq<Action>, since: nat, n: nat)
    requires CacheInv(x) && Requested(x, since, n)
    ensures CacheInv(Run(w, cached, x, actions)) && Requested(Run(w, cached, x, actions), since, n)
  {
    hide CacheInv, Requested, Do;
    if actions != [] {
      var y := Run(w, cached, x, actions[..|actions| - 1]);
      RequestedAlways(w, cached, x, actions[..|actions| - 1], since, n);
      CacheKept(w, cached, y, actions[|actions| - 1]);
      RequestedKept(w, cached, y, actions[|actions| - 1], since, n);
    }
  }

  lemma RequestStarts<G>(w: World<G>, cached: bool, x: State<G>)
    requires CacheInv(x)
    ensures Requested(Do(w, cached, x, RequestClear), x.time, |x.trace|)
  {
    hide Dated, Zeroed, Stale;
    NothingLive(x.tables.made, x.time);
  }

  /** Whenever the request comes, all code cached then is older than it. At most one block runs before no code from
      before the request is left in the cache, and a block from before the request can only be that one. */
  lemma ClearRequest<G>(w: World<G>, cached: bool, guest: G, before: seq<Action>, after: seq<Action>)
    ensures var x := Run(w, cached, Start(guest), before);
      var y := Run(w, cached, Do(w, cached, x, RequestClear), after);
      && Dated(x.tables, x.time)
      && (|y.trace| > |x.trace| + 1 ==> !Stale(y.tables, x.time))
      && (y.loop.loc == AtExecute && y.loop.stamp < x.time ==> |y.trace| == |x.trace|)
  {
    hide Dated, Stale, Do, Zeroed;
    var x := Run(w, cached, Start(guest), before);
    CacheAlways(w, cached, guest, before);
    CacheKept(w, cached, x, RequestClear);
    RequestStarts(w, cached, x);
    RequestedAlways(w, cached, Do(w, cached, x, RequestClear), after, x.time, |x.trace|);
  }

  /** A request that comes between the clearing and the store of `false` is lost, but nothing is cached then. */
  lemma OverwrittenRequest<G>(w: World<G>, cached: bool, guest: G, before: seq<Action>)
    ensures var x := Run(w, cached, Start(guest), before);
      var y := Do(w, cached, Do(w, cached, x, RequestClear), Tick);
      x.loop.loc == AtStore ==> !y.flags.clear && forall pc :: !Live(y.tables.cache, pc)
  {
    hide Live, Zeroed, Dated;
    CacheAlways(w, cached, guest, before);
    NothingLive(map[], 0);
  }

  /** A clearing that has been started empties the cache, starts the buffer anew and takes the request back. */
  lemma ClearServed<G>(w: World<G>, cached: bool, x: State<G>)
    requires x.loop.loc == AtLoad && x.flags.clear
    ensures var y := Run(w, cached, x, [Tick, Tick, Tick, Tick]);
      && y.loop.loc == AtGuard && !y.flags.clear && y.tables.cache == Zeroed() && y.jit.cursor == 0
      && y.guest == x.guest && y.trace == x.trace
      && y.flags.stop == x.flags.stop && y.flags.interrupt == x.flags.interrupt
  {
    hide Do, Zeroed;
    var x1 := Do(w, cached, x, Tick);
    var x2 := Do(w, cached, x1, Tick);
    var x3 := Do(w, cached, x2, Tick);
    RunFirst(w, cached, x, Tick, [Tick, Tick, Tick]);
    RunFirst(w, cached, x1, Tick, [Tick, Tick]);
    RunFirst(w, cached, x2, Tick, [Tick]);
    RunFirst(w, cached, x3, Tick, []);
    RunEmpty(w, cached, Do(w, cached, x3, Tick));
    assert [Tick] + [Tick, Tick, Tick] == [Tick, Tick, Tick, Tick] && [Tick] + [Tick, Tick] == [Tick, Tick, Tick];
    assert [Tick] + [Tick] == [Tick, Tick] && [Tick] + [] == [Tick];
    ClearSteps(w, cached, x);
  }

  lemma RunEmpty<G>(w: World<G>, cached: bool, x: State<G>)
    ensures Run(w, cached, x, []) == x
  {}

  lemma ClearSteps<G>(w: World<G>, cached: bool, x: State<G>)
    requires x.loop.loc == AtLoad && x.flags.clear
    ensures var y := Do(w, cached, Do(w, cached, Do(w, cached, Do(w, cached, x, Tick), Tick), Tick), Tick);
      && y.loop.loc == AtGuard && !y.flags.clear && y.tables.cache == Zeroed() && y.jit.cursor == 0
      && y.guest == x.guest && y.trace == x.trace
      && y.flags.stop == x.flags.stop && y.flags.interrupt == x.flags.interrupt
  {
    hide Zeroed, Find, Keep, Translate, Execute;
  }

  // ----- Requests to stop and to interrupt -----

  /** What holds after a request to stop, `n` blocks later. */
  ghost predicate Stopping<G>(x: State<G>, n: int) {
    && x.flags.stop && 0 <= n <= 1
    && (n == 1 ==> x.loop.loc == AtStop || x.loop.loc.Ended?)
  }

  lemma StoppingKept<G>(w: World<G>, cached: bool, x: State<G>, a: Action, n: nat)
    requires n <= |x.trace| && Stopping(x, |x.trace| - n)
    ensures n <= |Do(w, cached, x, a).trace| && Stopping(Do(w, cached, x, a), |Do(w, cached, x, a).trace| - n)
  {
    hide Translate, Find, Keep, Execute, Misleads;
    if a == Tick && x.loop.loc == AtTranslate {
      TranslateDated(x.loop, x.jit, w.translates(x.loop.pc), w.size(x.loop.pc), w.capacity, x.time);
    }
    if a == Tick && x.loop.loc == AtLookup {
      FindGoes(cached, x.loop, x.tables);
    }
  }

  lemma FindGoes(cached: bool, l: Loop, t: Tables)
    ensures Find(cached, l, t).loc == AtTranslate || Find(cached, l, t).loc == AtInsert
  {
    hide Lookup;
  }

  lemma {:induction false} StoppingAlways<G>(w: World<G>, cached: bool, x: State<G>, actions: seq<Action>, n: nat)
    requires n <= |x.trace| && Stopping(x, |x.trace| - n)
    ensures var y := Run(w, cached, x, actions); n <= |y.trace| && Stopping(y, |y.trace| - n)
  {
    hide Do, Stopping;
    if actions != [] {
      StoppingAlways(w, cached, x, actions[..|actions| - 1], n);
      StoppingKept(w, cached, Run(w, cached, x, actions[..|actions| - 1]), actions[|actions| - 1], n);
    }
  }

  /** After a request to stop at most one block runs, whatever else is requested, also in later calls of the loop. */
  lemma StopRequest<G>(w: World<G>, cached: bool, x: State<G>, after: seq<Action>)
    ensures var y := Run(w, cached, Do(w, cached, x, RequestStop), after);
      y.flags.stop && |x.trace| <= |y.trace| <= |x.trace| + 1
  {
    hide Run, Advance;
    StoppingAlways(w, cached, Do(w, cached, x, RequestStop), after, |x.trace|);
  }

  /** The steps until the loop has ended, when a request waits. */
  function Until(loc: Loc, stop: bool): nat {
    match loc
    case Ended(_) => 0
    case AtStop => if stop then 1 else 6
    case AtLoad => if stop then 10 else 5
    case AtReset => if stop then 9 else 4
    case AtMemset => if stop then 8 else 3
    case AtStore => if stop then 7 else 2
    case AtGuard => if stop then 6 else 1
    case AtLookup => if stop then 5 else 10
    case AtTranslate => if stop then 4 else 9
    case AtInsert => if stop then 3 else 8
    case AtExecute => if stop then 2 else 7
  }

  lemma UntilLess<G>(w: World<G>, cached: bool, x: State<G>)
    requires !x.loop.loc.Ended? && (x.flags.stop || x.flags.interrupt)
    ensures var y := Do(w, cached, x, Tick);
      && y.flags.stop == x.flags.stop && (y.flags.interrupt == x.flags.interrupt || y.loop.loc.Ended?)
      && Until(y.loop.loc, y.flags.stop) < Until(x.loop.loc, x.flags.stop)
  {
    hide Translate, Find, Keep, Execute, Misleads;
    if x.loop.loc == AtTranslate {
      TranslateDated(x.loop, x.jit, w.translates(x.loop.pc), w.size(x.loop.pc), w.capacity, x.time);
    }
    FindGoes(cached, x.loop, x.tables);
  }

  /** Left alone with a request to stop or to interrupt, the loop ends within ten steps. */
  lemma {:induction false} RequestEnds<G>(w: World<G>, cached: bool, x: State<G>) returns (ticks: seq<Action>)
    requires x.loop.loc.Ended? || x.flags.stop || x.flags.interrupt
    ensures |ticks| <= Until(x.loop.loc, x.flags.stop) <= 10 && forall a :: a in ticks ==> a == Tick
    ensures Run(w, cached, x, ticks).loop.loc.Ended?
    decreases Until(x.loop.loc, x.flags.stop)
  {
    hide Do;
    if x.loop.loc.Ended? {
      ticks := [];
    } else {
      UntilLess(w, cached, x);
      var rest := RequestEnds(w, cached, Do(w, cached, x, Tick));
      ticks := [Tick] + rest;
      RunFirst(w, cached, x, Tick, rest);
    }
  }

  /** The loop ends with these reasons, and the flags are set, only if it was requested. */
  ghost predicate Asked(l: Loop, f: Flags, stop: bool, interrupt: bool, clear: bool) {
    && (f.stop || l.loc == Ended(Stopped) ==> stop)
    && (f.interrupt || l.loc == Ended(Interrupted) ==> interrupt)
    && (f.clear || l.loc == AtReset || l.loc == AtMemset || l.loc == AtStore ==> clear)
  }

  lemma {:induction false} OnlyOnRequest<G>(w: World<G>, cached: bool, guest: G, actions: seq<Action>)
    ensures var y := Run(w, cached, Start(guest), actions);
      Asked(y.loop, y.flags, RequestStop in actions, RequestInterrupt in actions, RequestClear in actions)
  {
    hide Do;
    if actions != [] {
      hide Asked;
      var n := |actions| - 1;
      OnlyOnRequest(w, cached, guest, actions[..n]);
      Among(actions, RequestStop);
      Among(actions, RequestInterrupt);
      Among(actions, RequestClear);
      AskedKept(w, cached, Run(w, cached, Start(guest), actions[..n]), RequestStop in actions[..n],
        RequestInterrupt in actions[..n], RequestClear in actions[..n], actions[n]);
    }
  }

  lemma Among(actions: seq<Action>, a: Action)
    requires actions != []
    ensures a in actions <==> a in actions[..|actions| - 1] || a == actions[|actions| - 1]
  {
    assert actions == actions[..|actions| - 1] + [actions[|actions| - 1]];
  }

  lemma AskedKept<G>(
      w: World<G>, cached: bool, x: State<G>, stop: bool, interrupt: bool, clear: bool, a: Action)
    requires Asked(x.loop, x.flags, stop, interrupt, clear)
    ensures var y := Do(w, cached, x, a);
      Asked(y.loop, y.flags, stop || a == RequestStop, interrupt || a == RequestInterrupt, clear || a == RequestClear)
  {
    hide Advance;
    if a == Tick {
      TickFlags(w, cached, x);
    }
  }

  /** How a step moves on, and what it does to the flags. */
  lemma TickFlags<G>(w: World<G>, cached: bool, x: State<G>)
    ensures var f, y := x.flags, Do(w, cached, x, Tick);
      && y.flags.stop == f.stop && (y.flags.interrupt ==> f.interrupt) && (y.flags.clear ==> f.clear)
      && (y.loop.loc == Ended(Stopped) ==> f.stop || x.loop.loc == Ended(Stopped))
      && (y.loop.loc == Ended(Interrupted) ==> f.interrupt || x.loop.loc == Ended(Interrupted))
      && (y.loop.loc == AtReset ==> f.clear) && (y.loop.loc == AtMemset ==> x.loop.loc == AtReset)
      && (y.loop.loc == AtStore ==> x.loop.loc == AtMemset)
  {
    hide Translate, Find, Keep, Execute, Misleads;
    if x.loop.loc == AtTranslate {
      TranslateDated(x.loop, x.jit, w.translates(x.loop.pc), w.size(x.loop.pc), w.capacity, x.time);
    } else if x.loop.loc == AtLookup {
      FindGoes(cached, x.loop, x.tables);
    }
  }

  /** What holds after a request to interrupt that has not been served, `n` blocks later. */
  ghost predicate Interrupting<G>(x: State<G>, n: int) {
    && x.flags.interrupt && 0 <= n <= 1
    && (n == 1 ==> x.loop.loc !in {AtLookup, AtTranslate, AtInsert, AtExecute})
  }

  lemma InterruptStep<G>(w: World<G>, cached: bool, x: State<G>, a: Action, n: nat)
    requires n <= |x.trace| && Interrupting(x, |x.trace| - n)
    ensures var y := Do(w, cached, x, a);
      if a == Tick && x.loop.loc == AtGuard
      then y.loop.loc == Ended(Interrupted) && !y.flags.interrupt && y.trace == x.trace && y.guest == x.guest
      else n <= |y.trace| && Interrupting(y, |y.trace| - n)
  {
    hide Translate, Find, Keep, Execute, Misleads;
    if a == Tick && x.loop.loc == AtTranslate {
      TranslateDated(x.loop, x.jit, w.translates(x.loop.pc), w.size(x.loop.pc), w.capacity, x.time);
    }
    FindGoes(cached, x.loop, x.tables);
  }

  /** After a request to interrupt at most one block runs before the next guard ends the run and takes the request back;
      until then the request waits. */
  lemma {:induction false} InterruptRequest<G>(w: World<G>, cached: bool, x: State<G>, after: seq<Action>)
    returns (k: nat)
    ensures k <= |after|
    ensures var y := Run(w, cached, Do(w, cached, x, RequestInterrupt), after[..k]);
      && |x.trace| <= |y.trace| <= |x.trace| + 1
      && (if y.flags.interrupt then k == |after| else y.loop.loc == Ended(Interrupted))
  {
    var y0 := Do(w, cached, x, RequestInterrupt);
    k := InterruptFirst(w, cached, y0, after, |x.trace|);
  }

  lemma {:induction false} InterruptFirst<G>(w: World<G>, cached: bool, x: State<G>, after: seq<Action>, n: nat)
    returns (k: nat)
    requires n <= |x.trace| && Interrupting(x, |x.trace| - n)
    ensures k <= |after|
    ensures var y := Run(w, cached, x, after[..k]);
      && n <= |y.trace| <= n + 1
      && (if y.flags.interrupt then k == |after| && Interrupting(y, |y.trace| - n)
          else y.loop.loc == Ended(Interrupted))
    decreases |after|
  {
    hide Do;
    k := 0;
    if after != [] {
      var last := |after| - 1;
      k := InterruptFirst(w, cached, x, after[..last], n);
      assert after[..last][..k] == after[..k];
      var y := Run(w, cached, x, after[..k]);
      if y.flags.interrupt {
        InterruptStep(w, cached, y, after[last], n);
        assert after[..last + 1] == after && after[..last + 1][..last] == after[..last];
        k := last + 1;
      }
    }
  }

  // ----- Runs with and without the block cache -----

  ghost predicate Compiles<G>(w: World<G>, pc: nat) { w.translates(pc) && w.size(pc) <= w.capacity }

  /** No block is empty. */
  ghost predicate Sized<G>(w: World<G>) { forall pc: nat :: w.size(pc) > 0 }

  /** The pointer `h` leads to the code of `pc`; `safe` from what is emitted next. */
  ghost predicate Holds(j: Jit, h: nat, pc: nat, safe: bool) {
    h in j.buffer && j.buffer[h].pc == pc && j.buffer[h].size > 0 && (safe ==> h - 1 + j.buffer[h].size <= j.cursor)
  }

  ghost predicate CacheHolds(c: Cache, j: Jit, safe: bool) {
    CacheOk(c) && forall pc :: Live(c, pc) ==> Holds(j, Lookup(c, pc), pc, safe)
  }

  ghost predicate BufferOk<G>(w: World<G>, j: Jit) {
    forall h :: h in j.buffer ==> Compiles(w, j.buffer[h].pc) && j.buffer[h].size > 0
  }

  ghost predicate CodeInv<G>(w: World<G>, cached: bool, misled: bool, l: Loop, t: Tables, j: Jit) {
    && BufferOk(w, j)
    && (cached && !j.full ==> CacheHolds(t.cache, j, l.loc != AtMemset))
    && (l.loc == AtInsert || l.loc == AtExecute ==> (j.full && misled) || Holds(j, l.chosen, l.pc, !j.full))
  }

  /** `next` is what the block at the program counter of `g` makes of `g`. */
  ghost predicate Stepped<G>(w: World<G>, g: G, next: G) {
    var pc := w.pcOf(g);
    pc != SENTINEL && Compiles(w, pc) && next == w.block(pc, g)
  }

  ghost predicate Iterated<G>(w: World<G>, trace: seq<G>) {
    |trace| > 0 && forall i :: 0 <= i < |trace| - 1 ==> Stepped(w, trace[i], trace[i + 1])
  }

  ghost predicate GuestInv<G>(w: World<G>, l: Loop, guest: G) {
    match l.loc
    case AtLookup => l.pc == w.pcOf(guest) && l.pc != SENTINEL
    case AtTranslate => l.pc == w.pcOf(guest) && l.pc != SENTINEL
    case AtInsert => l.pc == w.pcOf(guest) && l.pc != SENTINEL
    case AtExecute => l.pc == w.pcOf(guest) && l.pc != SENTINEL
    case Ended(reason) =>
      && (reason == Finished ==> w.pcOf(guest) == 0xffff_ffff_ffff_ffff)
      && (reason == Failed ==> w.pcOf(guest) != 0xffff_ffff_ffff_ffff && !Compiles(w, w.pcOf(guest)))
    case _ => true
  }

  ghost predicate TraceInv<G>(w: World<G>, cached: bool, x: State<G>) {
    && |x.trace| > 0 && x.guest == x.trace[|x.trace| - 1]
    && (x.misled ==> cached)
    && (x.misled || Iterated(w, x.trace))
  }

  /** New code leaves the code before the cursor alone. */
  lemma EmitHolds(j: Jit, pc: nat, n: nat, h: nat, other: nat)
    requires n > 0
    ensures Holds(Emit(j, pc, n), j.cursor + 1, pc, true)
    ensures Holds(j, h, other, true) ==> Holds(Emit(j, pc, n), h, other, true)
  {}

  lemma EmitOk<G>(w: World<G>, j: Jit, pc: nat)
    requires BufferOk(w, j) && Compiles(w, pc) && w.size(pc) > 0
    ensures BufferOk(w, Emit(j, pc, w.size(pc)))
  {}

  lemma EmitCache(j: Jit, pc: nat, n: nat, c: Cache)
    requires n > 0 && CacheHolds(c, j, true)
    ensures CacheHolds(c, Emit(j, pc, n), true)
  {
    hide Holds, Emit;
    forall other | Live(c, other)
      ensures Holds(Emit(j, pc, n), Lookup(c, other), other, true)
    {
      EmitHolds(j, pc, n, Lookup(c, other), other);
    }
  }

  lemma SpoilOk<G>(w: World<G>, j: Jit, at: nat)
    requires BufferOk(w, j)
    ensures BufferOk(w, Spoil(j, at))
  {}

  lemma SpoilCache(j: Jit, c: Cache)
    requires CacheHolds(c, j, true)
    ensures CacheHolds(c, Spoil(j, j.cursor), true)
  {
    forall pc | Live(c, pc)
      ensures Holds(Spoil(j, j.cursor), Lookup(c, pc), pc, true)
    {
      assert Holds(j, Lookup(c, pc), pc, true);
    }
  }

  lemma TranslateCode<G>(w: World<G>, cached: bool, misled: bool, l: Loop, t: Tables, j: Jit, now: nat)
    requires CodeInv(w, cached, misled, l, t, j) && l.loc == AtTranslate && Sized(w)
    ensures var r := Translate(l, j, w.translates(l.pc), w.size(l.pc), w.capacity, now);
      && CodeInv(w, cached, misled, r.0, t, r.1) && r.0.pc == l.pc
      && (r.0.loc == Ended(Failed) ==> !Compiles(w, l.pc))
  {
    hide CacheHolds, BufferOk, Holds, Emit, Spoil;
    var n := w.size(l.pc);
    var room := Room(j, n, w.capacity);
    SpoilOk(w, j, j.cursor);
    SameBuffer(w, j, room);
    if cached && !j.full {
      SpoilCache(j, t.cache);
    }
    SpoilFull(j, j.cursor);
    SpoilOk(w, room, room.cursor);
    SpoilFull(room, room.cursor);
    if w.translates(l.pc) && n <= w.capacity {
      EmitHolds(room, l.pc, n, 0, 0);
      EmitOk(w, room, l.pc);
      EmitFull(room, l.pc, n);
      if cached && !room.full {
        EmitCache(room, l.pc, n, t.cache);
      }
      HoldsAnyway(Emit(room, l.pc, n), room.cursor + 1, l.pc);
    }
  }

  lemma HoldsAnyway(j: Jit, h: nat, pc: nat)
    requires Holds(j, h, pc, true)
    ensures Holds(j, h, pc, false)
  {}

  lemma SameBuffer<G>(w: World<G>, j: Jit, k: Jit)
    requires BufferOk(w, j) && BufferOk(w, Spoil(j, j.cursor))
    requires k.buffer == j.buffer || k.buffer == Spoil(j, j.cursor).buffer
    ensures BufferOk(w, k)
  {}

  lemma SpoilFull(j: Jit, at: nat)
    ensures Spoil(j, at).full == j.full
  {}

  lemma EmitFull(j: Jit, pc: nat, n: nat)
    ensures Emit(j, pc, n).full == j.full
  {}

  /** As long as the buffer was not full, a lookup finds the code of its address. */
  lemma FindCode<G>(w: World<G>, cached: bool, misled: bool, l: Loop, t: Tables, j: Jit)
    requires CodeInv(w, cached, misled, l, t, j) && l.loc == AtLookup && CacheOk(t.cache)
    ensures CodeInv(w, cached, misled || Misleads(cached, l, t, j), Find(cached, l, t), t, j)
    ensures Misleads(cached, l, t, j) ==> j.full && Live(t.cache, l.pc)
  {
    hide Lookup;
    LiveHere(t.cache, l.pc);
  }

  lemma DatedOk(t: Tables, now: nat)
    requires Dated(t, now)
    ensures CacheOk(t.cache)
  {}

  lemma KeepCode<G>(w: World<G>, cached: bool, misled: bool, l: Loop, t: Tables, j: Jit)
    requires CodeInv(w, cached, misled, l, t, j) && l.loc == AtInsert && l.chosen != 0
    ensures CodeInv(w, cached, misled, l.(loc := AtExecute), Keep(cached, l, t), j)
  {
    hide BufferOk, Holds, CacheOk, Live;
    if cached && !j.full {
      var c := t.cache;
      LiveAfterInsert(c, l.pc, l.chosen, l.pc);
      var c' := Insert(c, l.pc, l.chosen);
      forall pc | Live(c', pc)
        ensures Holds(j, Lookup(c', pc), pc, true)
      {
        KeepsOthers(c, l.pc, l.chosen, pc);
      }
    }
  }

  lemma KeepsOthers(c: Cache, pc: nat, host: nat, other: nat)
    requires CacheOk(c) && host != 0 && Live(Insert(c, pc, host), other)
    ensures Lookup(Insert(c, pc, host), other) == if other == pc then host else Lookup(c, other)
    ensures other != pc ==> Live(c, other)
  {
    InsertThenLookup(c, pc, host, other);
  }

  lemma ResetCode<G>(w: World<G>, cached: bool, misled: bool, l: Loop, t: Tables, j: Jit)
    requires CodeInv(w, cached, misled, l, t, j) && l.loc == AtReset
    ensures CodeInv(w, cached, misled, l.(loc := AtMemset), t, j.(cursor := 0))
  {}

  lemma ClearCode<G>(w: World<G>, cached: bool, misled: bool, l: Loop, t: Tables, j: Jit)
    requires CodeInv(w, cached, misled, l, t, j) && l.loc == AtMemset
    ensures CodeInv(w, cached, misled, l.(loc := AtStore), Tables(Zeroed(), map[]), j.(full := false))
  {
    hide Zeroed;
    NothingLive(map[], 0);
  }

  ghost predicate RunInv<G>(w: World<G>, cached: bool, x: State<G>) {
    && CacheInv(x) && CodeInv(w, cached, x.misled, x.loop, x.tables, x.jit)
    && GuestInv(w, x.loop, x.guest) && TraceInv(w, cached, x)
  }

  lemma CodeKept<G>(w: World<G>, cached: bool, x: State<G>, a: Action)
    requires CacheInv(x) && CodeInv(w, cached, x.misled, x.loop, x.tables, x.jit) && Sized(w)
    ensures var y := Do(w, cached, x, a); CodeInv(w, cached, y.misled, y.loop, y.tables, y.jit)
  {
    hide Dated, Zeroed, Translate, Find, Keep, Execute, CacheHolds, BufferOk, Holds, Sized, Misleads;
    if a == Tick {
      var l := x.loop;
      if l.loc == AtInsert {
        KeepCode(w, cached, x.misled, l, x.tables, x.jit);
      } else if l.loc == AtReset {
        ResetCode(w, cached, x.misled, l, x.tables, x.jit);
      } else if l.loc == AtMemset {
        ClearCode(w, cached, x.misled, l, x.tables, x.jit);
      } else if l.loc == AtLookup {
        DatedOk(x.tables, x.time);
        FindCode(w, cached, x.misled, l, x.tables, x.jit);
      } else if l.loc == AtTranslate {
        TranslateCode(w, cached, x.misled, l, x.tables, x.jit, x.time);
      }
    }
  }

  /** The guest makes the step of its own block. */
  lemma TraceKept<G>(w: World<G>, cached: bool, x: State<G>, a: Action)
    requires RunInv(w, cached, x) && Sized(w)
    ensures TraceInv(w, cached, Do(w, cached, x, a))
  {
    hide CacheInv, Translate, Find, Keep, CacheHolds, Sized, Dated, LoopDated;
    var y := Do(w, cached, x, a);
    if a == Tick && x.loop.loc == AtExecute && !x.misled {
      assert Stepped(w, x.guest, y.guest);
      assert forall i :: 0 <= i < |x.trace| ==> y.trace[i] == x.trace[i];
    }
  }

  lemma GuestKept<G>(w: World<G>, cached: bool, x: State<G>, a: Action)
    requires RunInv(w, cached, x) && Sized(w)
    ensures var y := Do(w, cached, x, a); GuestInv(w, y.loop, y.guest)
  {
    hide Translate, Find, Keep, Execute, CacheHolds, Sized, Dated, BufferOk, Holds, Zeroed;
    if a == Tick {
      var l := x.loop;
      if l.loc == AtLookup {
        FindDated(cached, l, x.tables, x.time, 0);
      } else if l.loc == AtTranslate {
        TranslateDated(l, x.jit, w.translates(l.pc), w.size(l.pc), w.capacity, x.time);
        TranslateCode(w, cached, x.misled, l, x.tables, x.jit, x.time);
      }
    }
  }

  lemma {:induction false} RunAlways<G>(w: World<G>, cached: bool, guest: G, actions: seq<Action>)
    requires Sized(w)
    ensures RunInv(w, cached, Run(w, cached, Start(guest), actions))
    ensures Run(w, cached, Start(guest), actions).trace[0] == guest
  {
    if actions == [] {
      StartCache(guest);
      NothingLive(map[], 0);
    } else {
      hide CacheInv, CodeInv, GuestInv, TraceInv, Do, Sized;
      var init, a := actions[..|actions| - 1], actions[|actions| - 1];
      RunAlways(w, cached, guest, init);
      var x := Run(w, cached, Start(guest), init);
      CacheKept(w, cached, x, a);
      CodeKept(w, cached, x, a);
      GuestKept(w, cached, x, a);
      TraceKept(w, cached, x, a);
      TraceGrows(w, cached, x, a);
    }
  }

  lemma TraceGrows<G>(w: World<G>, cached: bool, x: State<G>, a: Action)
    requires |x.trace| > 0
    ensures |Do(w, cached, x, a).trace| > 0 && Do(w, cached, x, a).trace[0] == x.trace[0]
  {
    hide Translate, Find, Keep, Execute;
  }

  /** Two lists of steps from one state agree as far as both go. */
  lemma {:induction false} IteratedAgree<G>(w: World<G>, s: seq<G>, t: seq<G>, i: nat)
    requires Iterated(w, s) && Iterated(w, t) && s[0] == t[0] && i < |s| && i < |t|
    ensures s[i] == t[i]
  {
    if i > 0 {
      IteratedAgree(w, s, t, i - 1);
      assert Stepped(w, s[i - 1], s[i - 1 + 1]) && Stepped(w, t[i - 1], t[i - 1 + 1]);
    }
  }

  /** A run that has ended by itself can go no further. */
  ghost predicate Over<G>(x: State<G>) { x.loop.loc == Ended(Finished) || x.loop.loc == Ended(Failed) }

  lemma OverIsLast<G>(w: World<G>, cached: bool, x: State<G>, t: seq<G>)
    requires RunInv(w, cached, x) && Over(x) && Iterated(w, x.trace) && Iterated(w, t) && x.trace[0] == t[0]
    ensures |t| <= |x.trace|
  {
    var n := |x.trace| - 1;
    if n < |t| {
      IteratedAgree(w, x.trace, t, n);
      LastOrOn(w, t, n);
    }
  }

  lemma LastOrOn<G>(w: World<G>, t: seq<G>, i: nat)
    requires Iterated(w, t) && i < |t|
    ensures i == |t| - 1 || (w.pcOf(t[i]) != SENTINEL && Compiles(w, w.pcOf(t[i])))
  {
    if i < |t| - 1 {
      assert Stepped(w, t[i], t[i + 1]);
    }
  }

  /** With and without the block cache the guest goes through the same states, whatever other threads store, as long
      as no lookup of the cached run was misled; runs that end by themselves end alike. */
  lemma CachedAsUncached<G>(w: World<G>, guest: G, actions: seq<Action>, others: seq<Action>)
    requires Sized(w)
    ensures var x, y := Run(w, true, Start(guest), actions), Run(w, false, Start(guest), others);
      !x.misled ==>
        && (forall i :: 0 <= i < |x.trace| && i < |y.trace| ==> x.trace[i] == y.trace[i])
        && (Over(x) ==> |y.trace| <= |x.trace|) && (Over(y) ==> |x.trace| <= |y.trace|)
        && (Over(x) && Over(y) ==> x.trace == y.trace && x.guest == y.guest && x.loop.loc == y.loop.loc)
  {
    hide CacheInv, CodeInv, Stepped, Do;
    var x, y := Run(w, true, Start(guest), actions), Run(w, false, Start(guest), others);
    RunAlways(w, true, guest, actions);
    RunAlways(w, false, guest, others);
    if !x.misled {
      forall i | 0 <= i < |x.trace| && i < |y.trace|
        ensures x.trace[i] == y.trace[i]
      {
        IteratedAgree(w, x.trace, y.trace, i);
      }
      if Over(x) {
        OverIsLast(w, true, x, y.trace);
      }
      if Over(y) {
        OverIsLast(w, false, y, x.trace);
      }
    }
  }

  // ----- The loop goes on -----

  lemma {:induction false} RunFirst<G>(w: World<G>, cached: bool, x: State<G>, a: Action, rest: seq<Action>)
    ensures Run(w, cached, x, [a] + rest) == Run(w, cached, Do(w, cached, x, a), rest)
  {
    hide Do;
    var all := [a] + rest;
    if rest == [] {
      assert all[..0] == [] && all[0] == a;
      assert Run(w, cached, x, all[..0]) == x;
    } else {
      RunFirst(w, cached, x, a, rest[..|rest| - 1]);
      assert all[..|all| - 1] == [a] + rest[..|rest| - 1];
    }
  }

  /** The steps before the next block runs, at most. */
  function Ahead(loc: Loc): nat {
    match loc
    case AtStop => 9
    case AtLoad => 8
    case AtReset => 7
    case AtMemset => 6
    case AtStore => 5
    case AtGuard => 4
    case AtLookup => 3
    case AtTranslate => 2
    case AtInsert => 1
    case _ => 0
  }

  /** Left alone, the loop runs a block within ten steps or ends by itself. */
  lemma {:induction false} GoesOn<G>(w: World<G>, cached: bool, x: State<G>) returns (ticks: seq<Action>)
    requires !x.flags.stop && !x.flags.interrupt && !x.loop.loc.Ended?
    ensures |ticks| <= Ahead(x.loop.loc) + 1 && forall a :: a in ticks ==> a == Tick
    ensures var y := Run(w, cached, x, ticks); Over(y) || |y.trace| == |x.trace| + 1
    decreases Ahead(x.loop.loc)
  {
    var y := Do(w, cached, x, Tick);
    if x.loop.loc == AtExecute || Over(y) {
      ticks := [Tick];
      RunFirst(w, cached, x, Tick, []);
    } else {
      TickOn(w, cached, x);
      var rest := GoesOn(w, cached, y);
      ticks := [Tick] + rest;
      RunFirst(w, cached, x, Tick, rest);
    }
  }

  lemma TickOn<G>(w: World<G>, cached: bool, x: State<G>)
    requires !x.flags.stop && !x.flags.interrupt && !x.loop.loc.Ended? && x.loop.loc != AtExecute
    ensures var y := Do(w, cached, x, Tick);
      Over(y) || (!y.flags.stop && !y.flags.interrupt && !y.loop.loc.Ended?
        && Ahead(y.loop.loc) < Ahead(x.loop.loc) && y.trace == x.trace)
  {
    hide Keep, Emit, Lookup, Shaped;
  }

  // ----- When a lookup is misled -----

  /** The next step finds a cached pointer after the buffer was full. */
  ghost predicate HitsFull<G>(x: State<G>) {
    x.loop.loc == AtLookup && x.jit.full && Live(x.tables.cache, x.loop.pc)
  }

  lemma MisledStep<G>(w: World<G>, cached: bool, x: State<G>, a: Action)
    requires RunInv(w, cached, x)
    ensures x.misled ==> Do(w, cached, x, a).misled
    ensures Do(w, cached, x, a).misled && !x.misled ==>
      && a == Tick && HitsFull(x) && cached && Shaped(x.tables.cache)
      && Lookup(x.tables.cache, x.loop.pc) != 0
      && !Leads(x.jit, Lookup(x.tables.cache, x.loop.pc), x.loop.pc)
  {
    hide Translate, Find, Keep, Execute, Lookup, CacheOk, Zeroed, BufferOk, CacheHolds, Holds;
    if a == Tick && x.loop.loc == AtLookup {
      DatedOk(x.tables, x.time);
      FindCode(w, cached, x.misled, x.loop, x.tables, x.jit);
    }
  }

  /** No lookup is misled unless one finds something between a full buffer and the next clearing. */
  lemma {:induction false} NotMisled<G>(w: World<G>, guest: G, actions: seq<Action>)
    requires Sized(w)
    requires forall k :: 0 <= k < |actions| && actions[k] == Tick ==>
      !HitsFull(Run(w, true, Start(guest), actions[..k]))
    ensures !Run(w, true, Start(guest), actions).misled
  {
    if actions != [] {
      hide RunInv, Do, HitsFull, Sized;
      var n := |actions| - 1;
      forall k | 0 <= k < n && actions[..n][k] == Tick
        ensures !HitsFull(Run(w, true, Start(guest), actions[..n][..k]))
      {
        assert actions[..n][..k] == actions[..k];
      }
      NotMisled(w, guest, actions[..n]);
      RunAlways(w, true, guest, actions[..n]);
      MisledStep(w, true, Run(w, true, Start(guest), actions[..n]), actions[n]);
    }
  }

  /** Every cached pointer leads to the code of its address. */
  ghost predicate AllLead(c: Cache, j: Jit) { forall pc :: Live(c, pc) ==> Leads(j, Lookup(c, pc), pc) }

  /** What a translation of size `n` writes misses the code at `h`. */
  predicate Spared(j: Jit, n: nat, capacity: nat, h: nat)
    requires h in j.buffer
  {
    var lo, hi := h - 1, h - 1 + j.buffer[h].size;
    if j.cursor + n <= capacity then hi <= j.cursor || j.cursor + n <= lo else hi <= j.cursor && n <= lo
  }

  ghost predicate AllSpared(c: Cache, j: Jit, n: nat, capacity: nat) {
    forall pc :: Live(c, pc) ==> Lookup(c, pc) in j.buffer && Spared(j, n, capacity, Lookup(c, pc))
  }

  /** No cached code lies in the first `n` places. */
  ghost predicate AllBehind(c: Cache, n: nat) { forall pc :: Live(c, pc) ==> n < Lookup(c, pc) }

  lemma EmitLeads(j: Jit, pc: nat, n: nat, capacity: nat, h: nat, other: nat)
    requires Leads(j, h, other) && j.buffer[h].size > 0 && other != pc && 0 < n <= capacity && h > 0
    ensures Leads(Emit(Room(j, n, capacity), pc, n), h, other) <==> Spared(j, n, capacity, h)
  {}

  /** A translation leaves every cached pointer in order exactly if it writes over no cached code. As long as the
      buffer was not full this means: exactly if there is room, or no cached code lies where the buffer starts. */
  lemma TranslateKeepsExactly<G>(w: World<G>, l: Loop, c: Cache, j: Jit, now: nat)
    requires Sized(w) && BufferOk(w, j) && CacheOk(c) && AllLead(c, j) && !Live(c, l.pc) && Compiles(w, l.pc)
    ensures var n, k := w.size(l.pc), Translate(l, j, true, w.size(l.pc), w.capacity, now).1;
      && (AllLead(c, k) <==> AllSpared(c, j, n, w.capacity))
      && (CacheHolds(c, j, true) ==> (AllLead(c, k) <==> j.cursor + n <= w.capacity || AllBehind(c, n)))
  {
    hide Lookup, CacheOk, Emit, Room, Leads;
    var n := w.size(l.pc);
    var k := Translate(l, j, true, n, w.capacity, now).1;
    assert k == Emit(Room(j, n, w.capacity), l.pc, n) by {
      RoomFits(j, n, w.capacity);
    }
    LiveHere(c, l.pc);
    forall pc | Live(c, pc)
      ensures Lookup(c, pc) in j.buffer
      ensures Leads(k, Lookup(c, pc), pc) <==> Spared(j, n, w.capacity, Lookup(c, pc))
    {
      LiveHere(c, pc);
      LeadsIn(j, Lookup(c, pc), pc);
      EmitLeads(j, l.pc, n, w.capacity, Lookup(c, pc), pc);
    }
    if CacheHolds(c, j, true) {
      forall pc | Live(c, pc)
        ensures Spared(j, n, w.capacity, Lookup(c, pc)) <==> j.cursor + n <= w.capacity || n < Lookup(c, pc)
      {
        assert Holds(j, Lookup(c, pc), pc, true);
      }
    }
  }

  lemma RoomFits(j: Jit, n: nat, capacity: nat)
    requires n <= capacity
    ensures Room(j, n, capacity).cursor + n <= capacity
  {}

  lemma LeadsIn(j: Jit, h: nat, pc: nat)
    requires Leads(j, h, pc)
    ensures h in j.buffer
  {}

  // ----- Code that is not what its pointer says -----

  /** The worlds differ only in what code does under a pointer that leads elsewhere. */
  ghost predicate SameBlocks<G(!new)>(w: World<G>, v: World<G>) {
    && v.pcOf == w.pcOf && v.size == w.size && v.translates == w.translates && v.capacity == w.capacity
    && forall g :: v.block(w.pcOf(g), g) == w.block(w.pcOf(g), g)
  }

  lemma SameStep<G(!new)>(w: World<G>, v: World<G>, cached: bool, x: State<G>, a: Action)
    requires SameBlocks(w, v) && RunInv(w, cached, x) && !x.misled
    ensures Do(v, cached, x, a) == Do(w, cached, x, a)
  {
    hide CacheInv, TraceInv, Translate, Find, Keep, CacheHolds, BufferOk;
  }

  /** Without a misled lookup such worlds run alike. */
  lemma {:induction false} SameRuns<G(!new)>(w: World<G>, v: World<G>, cached: bool, guest: G, actions: seq<Action>)
    requires Sized(w) && SameBlocks(w, v) && !Run(w, cached, Start(guest), actions).misled
    ensures Run(v, cached, Start(guest), actions) == Run(w, cached, Start(guest), actions)
  {
    if actions != [] {
      hide RunInv, Do, SameBlocks, Sized;
      var n := |actions| - 1;
      var x := Run(w, cached, Start(guest), actions[..n]);
      RunAlways(w, cached, guest, actions[..n]);
      MisledStep(w, cached, x, actions[n]);
      SameRuns(w, v, cached, guest, actions[..n]);
      SameStep(w, v, cached, x, actions[n]);
    }
  }

  /** A run without a misled lookup agrees with the runs without the cache, whatever code under a wrong pointer does. */
  lemma AgreesAnyhow<G(!new)>(w: World<G>, v: World<G>, guest: G, actions: seq<Action>, others: seq<Action>)
    requires Sized(w) && SameBlocks(w, v) && !Run(w, true, Start(guest), actions).misled
    ensures var x, y := Run(v, true, Start(guest), actions), Run(v, false, Start(guest), others);
      forall i :: 0 <= i < |x.trace| && i < |y.trace| ==> x.trace[i] == y.trace[i]
  {
    SameRuns(w, v, true, guest, actions);
    CachedAsUncached(v, guest, actions, others);
  }

  /** The block at a cached or chosen address has been translated. */
  ghost predicate Known<G>(w: World<G>, x: State<G>) {
    && (forall pc :: Live(x.tables.cache, pc) ==> Compiles(w, pc))
    && (x.loop.loc == AtInsert ==> Compiles(w, x.loop.pc))
  }

  lemma KnownKept<G>(w: World<G>, cached: bool, x: State<G>, a: Action)
    requires CacheInv(x) && Known(w, x)
    ensures Known(w, Do(w, cached, x, a))
  {
    hide Zeroed, Execute, Lookup, Insert, CacheOk, Misleads, Live, Spoil, Emit;
    var l, y := x.loop, Do(w, cached, x, a);
    if a == Tick {
      if l.loc == AtMemset {
        NothingLive(map[], 0);
      } else if l.loc == AtLookup {
        LiveHere(x.tables.cache, l.pc);
      } else if l.loc == AtInsert && cached {
        forall pc | Live(y.tables.cache, pc)
          ensures Compiles(w, pc)
        {
          LiveAfterInsert(x.tables.cache, l.pc, l.chosen, pc);
        }
      }
    }
  }

  lemma {:induction false} KnownAlways<G>(w: World<G>, cached: bool, guest: G, actions: seq<Action>)
    ensures Known(w, Run(w, cached, Start(guest), actions))
  {
    hide Do, CacheInv;
    if actions == [] {
      NothingLive(map[], 0);
    } else {
      hide Known;
      var n := |actions| - 1;
      KnownAlways(w, cached, guest, actions[..n]);
      CacheAlways(w, cached, guest, actions[..n]);
      KnownKept(w, cached, Run(w, cached, Start(guest), actions[..n]), actions[n]);
    }
  }

  /** The step that misleads a run. */
  lemma {:induction false} FirstMisled<G>(w: World<G>, guest: G, actions: seq<Action>) returns (k: nat)
    requires Sized(w) && Run(w, true, Start(guest), actions).misled
    ensures k < |actions| && !Run(w, true, Start(guest), actions[..k]).misled
    ensures Do(w, true, Run(w, true, Start(guest), actions[..k]), actions[k]).misled
  {
    hide Do;
    assert actions != [];
    var n := |actions| - 1;
    if Run(w, true, Start(guest), actions[..n]).misled {
      k := FirstMisled(w, guest, actions[..n]);
      assert actions[..n][..k] == actions[..k];
    } else {
      k := n;
    }
  }

  // ----- Where the cache goes wrong -----

  /** One turn of the loop without requests: what it leaves, the times aside. */
  ghost predicate Turn<G>(w: World<G>, cached: bool, x: State<G>, y: State<G>) {
    var pc, n := w.pcOf(x.guest), w.size(w.pcOf(x.guest));
    var h := if cached && Shaped(x.tables.cache) then Lookup(x.tables.cache, pc) else 0;
    var room := Room(x.jit, n, w.capacity);
    var chosen, j := if h != 0 then h else room.cursor + 1, if h != 0 then x.jit else Emit(room, pc, n);
    && y.loop.loc == AtStop && y.flags == x.flags && y.jit == j
    && y.tables.cache == (if cached && Shaped(x.tables.cache) then Insert(x.tables.cache, pc, chosen)
      else x.tables.cache)
    && y.guest == (if chosen in j.buffer then w.block(j.buffer[chosen].pc, x.guest) else w.junk(chosen, x.guest))
    && y.trace == x.trace + [y.guest]
  }

  ghost predicate Turning<G>(w: World<G>, x: State<G>) {
    && x.loop.loc == AtStop && !x.flags.stop && !x.flags.clear && !x.flags.interrupt
    && w.pcOf(x.guest) != SENTINEL && Compiles(w, w.pcOf(x.guest))
  }

  function Guarded<G>(w: World<G>, cached: bool, x: State<G>): State<G> {
    Do(w, cached, Do(w, cached, Do(w, cached, x, Tick), Tick), Tick)
  }

  lemma GuardedIs<G>(w: World<G>, cached: bool, x: State<G>)
    requires Turning(w, x)
    ensures Guarded(w, cached, x) ==
      x.(loop := Loop(AtLookup, w.pcOf(x.guest), x.loop.chosen, x.loop.stamp), time := x.time + 3)
  {
    hide Find, Keep, Translate, Execute;
  }

  lemma {:induction false} RunTwice<G>(w: World<G>, cached: bool, x: State<G>, a: seq<Action>, b: seq<Action>)
    ensures Run(w, cached, x, a + b) == Run(w, cached, Run(w, cached, x, a), b)
  {
    if b == [] {
      assert a + b == a;
    } else {
      RunTwice(w, cached, x, a, b[..|b| - 1]);
      assert (a + b)[..|a + b| - 1] == a + b[..|b| - 1];
    }
  }

  lemma RunThree<G>(w: World<G>, cached: bool, x: State<G>)
    ensures Run(w, cached, x, [Tick, Tick, Tick]) == Guarded(w, cached, x)
  {
    hide Do;
    var t := [Tick, Tick, Tick];
    assert t[..2][..1][..0] == [] && t[..2][..1] == [Tick] && t[..2] == [Tick, Tick];
    assert Run(w, cached, x, t[..2][..1][..0]) == x;
    assert Run(w, cached, x, t[..2][..1]) == Do(w, cached, x, Tick);
  }

  lemma RunOne<G>(w: World<G>, cached: bool, x: State<G>, a: Action)
    ensures Run(w, cached, x, [a]) == Do(w, cached, x, a)
  {
    hide Do;
    assert [a][..0] == [];
    assert Run(w, cached, x, [a][..0]) == x;
  }

  lemma TakeTurn<G>(w: World<G>, cached: bool, x: State<G>) returns (ticks: seq<Action>, y: State<G>)
    requires Turning(w, x)
    ensures y == Run(w, cached, x, ticks) && Turn(w, cached, x, y)
  {
    hide Emit, Lookup, Insert, Shaped, Run, Guarded;
    RunThree(w, cached, x);
    GuardedIs(w, cached, x);
    ticks, y := [Tick, Tick, Tick], Guarded(w, cached, x);
    ticks, y := Another(w, cached, x, ticks, y);
    if y.loop.loc == AtTranslate {
      ticks, y := Another(w, cached, x, ticks, y);
    }
    ticks, y := Another(w, cached, x, ticks, y);
    ticks, y := Another(w, cached, x, ticks, y);
  }

  lemma Another<G>(w: World<G>, cached: bool, x: State<G>, ticks: seq<Action>, y: State<G>)
    returns (more: seq<Action>, z: State<G>)
    requires y == Run(w, cached, x, ticks)
    ensures z == Run(w, cached, x, more) && z == Do(w, cached, y, Tick)
  {
    hide Do;
    more, z := ticks + [Tick], Do(w, cached, y, Tick);
    RunTwice(w, cached, x, ticks, [Tick]);
    RunOne(w, cached, y, Tick);
  }

  /** Without the cache the loop makes any number of steps of the guest. */
  lemma {:induction false} Reach<G>(w: World<G>, guest: G, trace: seq<G>) returns (ticks: seq<Action>)
    requires Sized(w) && Iterated(w, trace) && trace[0] == guest
    ensures var y := Run(w, false, Start(guest), ticks);
      && y.trace == trace && y.guest == trace[|trace| - 1] && y.loop.loc == AtStop
      && y.flags == Flags(false, false, false)
    decreases |trace|
  {
    hide Run;
    var n := |trace| - 1;
    if n == 0 {
      ticks := [];
      RunEmpty(w, false, Start(guest));
      assert trace == [guest];
    } else {
      hide Emit, Lookup, Insert, Shaped, Zeroed;
      assert Stepped(w, trace[n - 1], trace[n - 1 + 1]);
      Shorter(w, trace);
      ticks := Reach(w, guest, trace[..n]);
      var x := Run(w, false, Start(guest), ticks);
      var more, y := TakeTurn(w, false, x);
      EmitHolds(Room(x.jit, w.size(w.pcOf(x.guest)), w.capacity), w.pcOf(x.guest), w.size(w.pcOf(x.guest)), 0, 0);
      RunTwice(w, false, Start(guest), ticks, more);
      ticks := ticks + more;
      assert trace == trace[..n] + [trace[n]];
    }
  }

  lemma Shorter<G>(w: World<G>, trace: seq<G>)
    requires Iterated(w, trace) && |trace| > 1
    ensures Iterated(w, trace[..|trace| - 1])
  {
    var t := trace[..|trace| - 1];
    forall i | 0 <= i < |t| - 1 ensures Stepped(w, t[i], t[i + 1]) {
      assert Stepped(w, trace[i], trace[i + 1]);
    }
  }

  lemma Longer<G>(w: World<G>, trace: seq<G>, next: G)
    requires Iterated(w, trace) && Stepped(w, trace[|trace| - 1], next)
    ensures Iterated(w, trace + [next])
  {
    var t := trace + [next];
    forall i | 0 <= i < |t| - 1 ensures Stepped(w, t[i], t[i + 1]) {
      if i < |trace| - 1 { assert Stepped(w, trace[i], trace[i + 1]); }
    }
  }

  /** The world in which the code under pointer `h` makes `other` of `g`. */
  ghost function Wrong<G>(w: World<G>, j: Jit, h: nat, g: G, other: G): World<G> {
    if h in j.buffer then w.(block := (p: nat, a: G) => if p == j.buffer[h].pc && a == g then other else w.block(p, a))
    else w.(junk := (p: nat, a: G) => if a == g then other else w.junk(p, a))
  }

  lemma WrongBlocks<G(!new)>(w: World<G>, j: Jit, h: nat, g: G, other: G)
    requires !Leads(j, h, w.pcOf(g))
    ensures SameBlocks(w, Wrong(w, j, h, g, other))
    ensures forall l: Loop :: l.chosen == h ==> Execute(Wrong(w, j, h, g, other), l, j, g) == other
  {}

  /** What the steps from a misled lookup on do. */
  lemma MisledTurn<G>(w: World<G>, x: State<G>) returns (y: State<G>)
    requires x.loop.loc == AtLookup && Shaped(x.tables.cache) && Lookup(x.tables.cache, x.loop.pc) != 0
    ensures y == Guarded(w, true, x) && y.trace == x.trace + [y.guest]
    ensures exists l: Loop :: l.chosen == Lookup(x.tables.cache, x.loop.pc) && y.guest == Execute(w, l, x.jit, x.guest)
  {
    hide Lookup, Insert, Execute, Shaped;
    y := Guarded(w, true, x);
    var l := Loop(AtExecute, x.loop.pc, Lookup(x.tables.cache, x.loop.pc),
      if x.loop.pc in x.tables.made then x.tables.made[x.loop.pc] else 0);
    assert y.guest == Execute(w, l, x.jit, x.guest);
  }

  /** A misled lookup is one too many: for some meaning of the code under wrong pointers, the run goes on to a state
      that differs from the one without the cache. */
  lemma MisledDiffers<G(!new)>(w: World<G>, guest: G, actions: seq<Action>, a: G, b: G)
    returns (v: World<G>, more: seq<Action>, others: seq<Action>)
    requires Sized(w) && a != b && Run(w, true, Start(guest), actions).misled
    ensures SameBlocks(w, v) && |more| >= 3 && more[..|more| - 3] <= actions
    ensures var x, y := Run(v, true, Start(guest), more), Run(v, false, Start(guest), others);
      |x.trace| == |y.trace| && x.trace != y.trace
  {
    hide Run, Do, RunInv, Known, Lookup, Shaped, Leads, Wrong, SameBlocks, Guarded, Iterated;
    var k := FirstMisled(w, guest, actions);
    var x := Run(w, true, Start(guest), actions[..k]);
    RunAlways(w, true, guest, actions[..k]);
    KnownAlways(w, true, guest, actions[..k]);
    MisledStep(w, true, x, actions[k]);
    var h, next := Lookup(x.tables.cache, x.loop.pc), w.block(w.pcOf(x.guest), x.guest);
    AtMisled(w, x);
    var other := if next == a then b else a;
    v := Wrong(w, x.jit, h, x.guest, other);
    WrongBlocks(w, x.jit, h, x.guest, other);
    SameRuns(w, v, true, guest, actions[..k]);
    var y := MisledTurn(v, x);
    RunThree(v, true, x);
    RunTwice(v, true, Start(guest), actions[..k], [Tick, Tick, Tick]);
    more := actions[..k] + [Tick, Tick, Tick];
    assert more[..k] == actions[..k] && actions == actions[..k] + actions[k..];
    SameIterated(w, v, x.trace, next);
    others := Reach(v, guest, x.trace + [next]);
    assert (x.trace + [next])[|x.trace|] == next != other == (x.trace + [other])[|x.trace|];
  }

  lemma AtMisled<G>(w: World<G>, x: State<G>)
    requires RunInv(w, true, x) && Known(w, x) && !x.misled && x.loop.loc == AtLookup && Live(x.tables.cache, x.loop.pc)
    ensures x.loop.pc == w.pcOf(x.guest) && Iterated(w, x.trace) && |x.trace| > 0 && x.guest == x.trace[|x.trace| - 1]
    ensures Stepped(w, x.guest, w.block(w.pcOf(x.guest), x.guest))
  {
    hide CacheInv, CodeInv, Iterated;
  }

  lemma SameIterated<G(!new)>(w: World<G>, v: World<G>, trace: seq<G>, next: G)
    requires Sized(w) && SameBlocks(w, v) && Iterated(w, trace) && Stepped(w, trace[|trace| - 1], next)
    ensures Sized(v) && Iterated(v, trace + [next])
  {
    Longer(w, trace, next);
    var t := trace + [next];
    forall i | 0 <= i < |t| - 1 ensures Stepped(v, t[i], t[i + 1]) {
      assert Stepped(w, t[i], t[i + 1]);
    }
  }

  /** Three blocks that go round, and a buffer with room for two. */
  function Round(): World<nat> {
    World(g => 4 * g, (pc, g) => if pc == 0 then 1 else if pc == 4 then 2 else 0, (_, g) => g, _ => 1, _ => true, 2)
  }

  lemma TurnAgain(cached: bool, guest: nat, ticks: seq<Action>, x: State<nat>)
      returns (more: seq<Action>, y: State<nat>)
    requires x == Run(Round(), cached, Start(guest), ticks) && x.guest <= 2
    requires x.loop.loc == AtStop && !x.flags.stop && !x.flags.clear && !x.flags.interrupt
    ensures y == Run(Round(), cached, Start(guest), more) && Turn(Round(), cached, x, y)
  {
    hide Turn;
    var t;
    t, y := TakeTurn(Round(), cached, x);
    more := ticks + t;
    RunTwice(Round(), cached, Start(guest), ticks, t);
  }

  /** The third block is put where the first one was, which the cache still knows: the next turn runs the third
      block again. Without the cache it runs the first. */
  lemma StaleAfterOverflow() returns (actions: seq<Action>, others: seq<Action>)
    ensures Sized(Round())
    ensures Run(Round(), true, Start(0), actions).trace == [0, 1, 2, 0, 0]
    ensures Run(Round(), false, Start(0), others).trace == [0, 1, 2, 0, 1]
  {
    hide Run;
    actions := CachedRound();
    others := UncachedRound();
  }

  lemma CachedRound() returns (z: seq<Action>)
    ensures Run(Round(), true, Start(0), z).trace == [0, 1, 2, 0, 0]
  {
    hide Turn, Zeroed, CacheOk, Lookup;
    var x0, x1, x2, x3, x4: State<nat>;
    z, x0 := [], Start(0);
    z, x1 := TurnAgain(true, 0, z, x0);
    FirstTurns(x0, x1);
    z, x2 := TurnAgain(true, 0, z, x1);
    SecondTurn(x1, x2);
    z, x3 := TurnAgain(true, 0, z, x2);
    ThirdTurn(x2, x3);
    z, x4 := TurnAgain(true, 0, z, x3);
    FourthTurn(x3, x4);
  }

  lemma UncachedRound() returns (z: seq<Action>)
    ensures Run(Round(), false, Start(0), z).trace == [0, 1, 2, 0, 1]
  {
    hide Turn, Zeroed;
    var x0, x1, x2, x3, x4: State<nat>;
    z, x0 := [], Start(0);
    z, x1 := TurnAgain(false, 0, z, x0);
    UncachedTurn(x0, x1);
    z, x2 := TurnAgain(false, 0, z, x1);
    UncachedTurn(x1, x2);
    z, x3 := TurnAgain(false, 0, z, x2);
    UncachedTurn(x2, x3);
    z, x4 := TurnAgain(false, 0, z, x3);
    UncachedTurn(x3, x4);
  }

  lemma UncachedTurn(x: State<nat>, y: State<nat>)
    requires Turn(Round(), false, x, y) && x.guest <= 2
    ensures y.guest == (if x.guest == 2 then 0 else x.guest + 1) && y.trace == x.trace + [y.guest]
    ensures y.loop.loc == AtStop && y.flags == x.flags
  {
    hide Lookup, Insert, Shaped;
  }

  lemma FourthTurn(x: State<nat>, y: State<nat>)
    requires CacheOk(x.tables.cache) && Lookup(x.tables.cache, 0) == 1
    requires x.guest == 0 && x.trace == [0, 1, 2, 0] && 1 in x.jit.buffer && x.jit.buffer[1] == Code(8, 1)
    requires Turn(Round(), true, x, y)
    ensures y.trace == [0, 1, 2, 0, 0]
  {
    hide CacheOk, Lookup, Insert;
    ShapedOk(x.tables.cache);
  }

  /** After one turn the first block is at pointer 1. */
  lemma FirstTurns(x: State<nat>, y: State<nat>)
    requires x == Start(0) && Turn(Round(), true, x, y)
    ensures CacheOk(y.tables.cache) && Lookup(y.tables.cache, 0) == 1 && Lookup(y.tables.cache, 4) == 0 &&
      Lookup(y.tables.cache, 8) == 0
    ensures y.loop.loc == AtStop && y.flags == x.flags
    ensures y.guest == 1 && y.trace == [0, 1] && y.jit == Jit(1, map[1 := Code(0, 1)], false)
  {
    hide Zeroed, CacheOk, Lookup, Insert;
    ZeroedOk();
    InsertThenLookup(x.tables.cache, 0, 1, 4);
    InsertThenLookup(x.tables.cache, 0, 1, 8);
    assert Lookup(Zeroed(), 0) == 0;
    assert y.jit.buffer == map[1 := Code(0, 1)];
  }

  lemma SecondTurn(x: State<nat>, y: State<nat>)
    requires CacheOk(x.tables.cache) && Lookup(x.tables.cache, 0) == 1 && Lookup(x.tables.cache, 4) == 0 &&
      Lookup(x.tables.cache, 8) == 0
    requires x.guest == 1 && x.trace == [0, 1] && x.jit == Jit(1, map[1 := Code(0, 1)], false)
    requires Turn(Round(), true, x, y)
    ensures CacheOk(y.tables.cache) && Lookup(y.tables.cache, 0) == 1 && Lookup(y.tables.cache, 8) == 0
    ensures y.loop.loc == AtStop && y.flags == x.flags
    ensures y.guest == 2 && y.trace == [0, 1, 2] && y.jit == Jit(2, map[1 := Code(0, 1), 2 := Code(4, 1)], false)
  {
    hide CacheOk, Lookup, Insert;
    ShapedOk(x.tables.cache);
    InsertThenLookup(x.tables.cache, 4, 2, 0);
    InsertThenLookup(x.tables.cache, 4, 2, 8);
    assert y.jit.buffer == map[1 := Code(0, 1), 2 := Code(4, 1)];
  }

  lemma ThirdTurn(x: State<nat>, y: State<nat>)
    requires CacheOk(x.tables.cache) && Lookup(x.tables.cache, 0) == 1 && Lookup(x.tables.cache, 8) == 0
    requires x.guest == 2 && x.trace == [0, 1, 2] && x.jit == Jit(2, map[1 := Code(0, 1), 2 := Code(4, 1)], false)
    requires Turn(Round(), true, x, y)
    ensures CacheOk(y.tables.cache) && Lookup(y.tables.cache, 0) == 1
    ensures y.loop.loc == AtStop && y.flags == x.flags
    ensures y.guest == 0 && y.trace == [0, 1, 2, 0] && 1 in y.jit.buffer && y.jit.buffer[1] == Code(8, 1)
  {
    hide CacheOk, Lookup, Insert;
    ShapedOk(x.tables.cache);
    InsertThenLookup(x.tables.cache, 8, 1, 0);
  }

  lemma ShapedOk(c: Cache)
    requires CacheOk(c)
    ensures Shaped(c)
  {}
}
