/** Which strings a Lua pattern matches, said without an order of trial and without a limit of depth. */
module LuaRelation {
  import opened LuaChars
  import opened LuaPattern

  /** The class from `p` to `ep` matches the characters from `s` up to `t`. */
  predicate Span(src: seq<int>, pat: seq<int>, s: int, t: int, p: int, ep: int)
    requires 0 <= p < |pat| && EndOfClass(pat, p) == At(ep)
  {
    0 <= s <= t <= |src| && forall i :: s <= i < t ==> Single(pat, src[i], p, ep)
  }

  predicate Again(src: seq<int>, s: int, c: Capture) {
    && 0 <= c.start && 0 <= c.len && 0 <= s && c.start + c.len <= |src| && s + c.len <= |src|
    && src[s..s + c.len] == src[c.start..c.start + c.len]
  }

  /** The pattern from `p` on matches the subject from `s` up to `e` and turns the captures into `out`. */
  ghost predicate Matches(src: seq<int>, pat: seq<int>, p: int, s: int, caps: seq<Capture>, e: int, out: seq<Capture>)
    requires 0 <= p <= |pat| && 0 <= s <= |src|
    decreases |pat| - p
  {
    var c := Char(pat, p);
    if c == 0 then e == s && out == caps
    else if c == '(' as int then
      |caps| < MAXCAPTURES &&
      if Char(pat, p + 1) == ')' as int then Matches(src, pat, p + 2, s, caps + [Capture(s, CAP_POSITION)], e, out)
      else Matches(src, pat, p + 1, s, caps + [Capture(s, CAP_UNFINISHED)], e, out)
    else if c == ')' as int then
      var l := LastOpen(caps);
      l >= 0 && Matches(src, pat, p + 1, s, caps[l := Capture(caps[l].start, s - caps[l].start)], e, out)
    else if c == ESC && Char(pat, p + 1) == 'b' as int then
      && Char(pat, p + 2) != 0 && Char(pat, p + 3) != 0 && s < |src| && src[s] == pat[p + 2]
      && var b := BalanceEnd(src, pat[p + 2], pat[p + 3], s + 1, 1);
      b >= 0 && Matches(src, pat, p + 4, b, caps, e, out)
    else if c == ESC && Char(pat, p + 1) == 'f' as int then
      && Char(pat, p + 2) == '[' as int && EndOfClass(pat, p + 2).At?
      && var ep := EndOfClass(pat, p + 2).p;
      && !InBrackets(pat, if s == 0 then 0 else src[s - 1], p + 2, ep - 1) &&
        InBrackets(pat, Char(src, s), p + 2, ep - 1)
      && Matches(src, pat, ep, s, caps, e, out)
    else if c == ESC && Digit(Char(pat, p + 1)) then
      var l := pat[p + 1] - '1' as int;
      && 0 <= l < |caps| && Again(src, s, caps[l])
      && Matches(src, pat, p + 2, s + caps[l].len, caps, e, out)
    else if c == '$' as int && Char(pat, p + 1) == 0 then s == |src| && e == s && out == caps
    else if EndOfClass(pat, p).Bad? then false
    else
      var ep := EndOfClass(pat, p).p;
      var op, one := Char(pat, ep), SingleAt(src, pat, s, p, ep);
      if op == '?' as int then
        (one && Matches(src, pat, ep + 1, s + 1, caps, e, out)) || Matches(src, pat, ep + 1, s, caps, e, out)
      else if op == '*' as int || op == '-' as int then
        exists t :: Span(src, pat, s, t, p, ep) && Matches(src, pat, ep + 1, t, caps, e, out)
      else if op == '+' as int then
        exists t :: s < t && Span(src, pat, s, t, p, ep) && Matches(src, pat, ep + 1, t, caps, e, out)
      else one && Matches(src, pat, ep, s + 1, caps, e, out)
  }

  /** Some way to match nests too deep. */
  predicate Deep(all: seq<Outcome>) { Raise(TooDeep) in all }

  /** Success with `e` and `out` only if this is an instance, and if so always, unless some way nests too deep. */
  predicate Exactly(all: seq<Outcome>, e: int, out: seq<Capture>, instance: bool) {
    && (Success(e, out) in all ==> instance)
    && (instance ==> Success(e, out) in all || Deep(all))
  }

  /** A run is as long as characters match. */
  lemma {:induction false} RunIsSpan(src: seq<int>, pat: seq<int>, s: int, t: int, p: int, ep: int)
    requires 0 <= s <= |src| && 0 <= p < |pat| && EndOfClass(pat, p) == At(ep)
    ensures Span(src, pat, s, t, p, ep) <==> s <= t <= s + RunLength(src, pat, s, p, ep)
    decreases t - s
  {
    if t > s && SingleAt(src, pat, s, p, ep) {
      RunIsSpan(src, pat, s + 1, t, p, ep);
      SpanSplit(src, pat, s, t, p, ep);
    }
  }

  lemma SpanSplit(src: seq<int>, pat: seq<int>, s: int, t: int, p: int, ep: int)
    requires 0 <= s <= |src| && 0 <= p < |pat| && EndOfClass(pat, p) == At(ep) && s < t
    ensures Span(src, pat, s, t, p, ep) <==> SingleAt(src, pat, s, p, ep) && Span(src, pat, s + 1, t, p, ep)
  {
    assert Span(src, pat, s, t, p, ep) ==> Single(pat, src[s], p, ep);
  }

  lemma EitherExactly(a: seq<Outcome>, b: seq<Outcome>, e: int, out: seq<Capture>, p: bool, q: bool)
    requires Exactly(a, e, out, p) && Exactly(b, e, out, q)
    ensures Exactly(a + b, e, out, p || q)
  {
    assert forall o :: o in a + b <==> o in a || o in b;
  }

  /** The ways to match that succeed are instances of the pattern, and all of them unless some way nests too deep. */
  lemma {:induction false} AllInstances(
      src: seq<int>, pat: seq<int>, p: int, s: int, caps: seq<Capture>, d: nat, e: int, out: seq<Capture>)
    requires 0 <= p <= |pat| && 0 <= s <= |src| && CapsOk(caps, s) && d <= MAX_XLEVEL
    ensures Exactly(All(src, pat, p, s, caps, d), e, out, Matches(src, pat, p, s, caps, e, out))
    decreases MAX_XLEVEL - d, |pat| - p + 1, 0
  {
    var c := Char(pat, p);
    if c == 0 {
    } else if c == '(' as int {
      if Char(pat, p + 1) == ')' as int {
        OpenedInstances(src, pat, p + 2, s, caps, d, CAP_POSITION, e, out);
      } else {
        OpenedInstances(src, pat, p + 1, s, caps, d, CAP_UNFINISHED, e, out);
      }
    } else if c == ')' as int {
      var l := LastOpen(caps);
      if l >= 0 {
        NestedInstances(src, pat, p + 1, s, caps[l := Capture(caps[l].start, s - caps[l].start)], d, e, out);
      }
    } else if c == ESC && Char(pat, p + 1) == 'b' as int {
      BalanceInstances(src, pat, p, s, caps, d, e, out);
    } else if c == ESC && Char(pat, p + 1) == 'f' as int {
      FrontierInstances(src, pat, p, s, caps, d, e, out);
    } else if c == ESC && Digit(Char(pat, p + 1)) {
      BackInstances(src, pat, p, s, caps, d, e, out);
    } else if c == '$' as int && Char(pat, p + 1) == 0 {
    } else {
      AllItem(src, pat, p, s, caps, d);
      var ep := EndOfClass(pat, p);
      if ep.At? {
        ItemInstances(src, pat, p, ep.p, s, caps, d, e, out);
      }
    }
  }

  lemma BalanceInstances(
      src: seq<int>, pat: seq<int>, p: int, s: int, caps: seq<Capture>, d: nat, e: int, out: seq<Capture>)
    requires 0 <= p <= |pat| && 0 <= s <= |src| && CapsOk(caps, s) && d <= MAX_XLEVEL
    requires Char(pat, p) == ESC && Char(pat, p + 1) == 'b' as int
    ensures Exactly(All(src, pat, p, s, caps, d), e, out, Matches(src, pat, p, s, caps, e, out))
    decreases MAX_XLEVEL - d, |pat| - p, 4
  {
    if Char(pat, p + 2) != 0 && Char(pat, p + 3) != 0 && s < |src| && src[s] == pat[p + 2] {
      var b := BalanceEnd(src, pat[p + 2], pat[p + 3], s + 1, 1);
      if b >= 0 {
        CapsLater(caps, s, b);
        AllInstances(src, pat, p + 4, b, caps, d, e, out);
      }
    }
  }

  lemma FrontierInstances(
      src: seq<int>, pat: seq<int>, p: int, s: int, caps: seq<Capture>, d: nat, e: int, out: seq<Capture>)
    requires 0 <= p <= |pat| && 0 <= s <= |src| && CapsOk(caps, s) && d <= MAX_XLEVEL
    requires Char(pat, p) == ESC && Char(pat, p + 1) == 'f' as int
    ensures Exactly(All(src, pat, p, s, caps, d), e, out, Matches(src, pat, p, s, caps, e, out))
    decreases MAX_XLEVEL - d, |pat| - p, 4
  {
    if Char(pat, p + 2) == '[' as int {
      var ep := EndOfClass(pat, p + 2);
      if ep.At? && !InBrackets(pat, if s == 0 then 0 else src[s - 1], p + 2, ep.p - 1) &&
        InBrackets(pat, Char(src, s), p + 2, ep.p - 1) {
        AllInstances(src, pat, ep.p, s, caps, d, e, out);
      }
    }
  }

  lemma BackInstances(
      src: seq<int>, pat: seq<int>, p: int, s: int, caps: seq<Capture>, d: nat, e: int, out: seq<Capture>)
    requires 0 <= p <= |pat| && 0 <= s <= |src| && CapsOk(caps, s) && d <= MAX_XLEVEL
    requires Char(pat, p) == ESC && Digit(Char(pat, p + 1))
    ensures Exactly(All(src, pat, p, s, caps, d), e, out, Matches(src, pat, p, s, caps, e, out))
    decreases MAX_XLEVEL - d, |pat| - p, 4
  {
    var l := pat[p + 1] - '1' as int;
    if 0 <= l < |caps| && caps[l].len != CAP_UNFINISHED {
      assert CaptureOk(caps[l], s);
      if caps[l].len != CAP_POSITION && Repeats(src, s, caps[l]) {
        CapsLater(caps, s, s + caps[l].len);
        AllInstances(src, pat, p + 2, s + caps[l].len, caps, d, e, out);
      }
    }
  }

  lemma NestedInstances(
      src: seq<int>, pat: seq<int>, p: int, s: int, caps: seq<Capture>, d: nat, e: int, out: seq<Capture>)
    requires 0 <= p <= |pat| && 0 <= s <= |src| && CapsOk(caps, s) && d <= MAX_XLEVEL
    ensures Exactly(Nested(src, pat, p, s, caps, d), e, out, Matches(src, pat, p, s, caps, e, out))
    decreases MAX_XLEVEL - d, 0, 0
  {
    if d < MAX_XLEVEL {
      AllInstances(src, pat, p, s, caps, d + 1, e, out);
    }
  }

  lemma OpenedInstances(
      src: seq<int>, pat: seq<int>, p: int, s: int, caps: seq<Capture>, d: nat, what: int, e: int, out: seq<Capture>)
    requires 0 <= p <= |pat| && 0 <= s <= |src| && CapsOk(caps, s) && d <= MAX_XLEVEL
    requires what == CAP_UNFINISHED || what == CAP_POSITION
    ensures Exactly(Opened(src, pat, p, s, caps, d, what), e, out,
      |caps| < MAXCAPTURES && Matches(src, pat, p, s, caps + [Capture(s, what)], e, out))
    decreases MAX_XLEVEL - d, 0, 1
  {
    if |caps| < MAXCAPTURES {
      NestedInstances(src, pat, p, s, caps + [Capture(s, what)], d, e, out);
    }
  }

  /** The rest matches from some place at most `n` characters after `s`. */
  ghost predicate Within(
      src: seq<int>, pat: seq<int>, p: int, s: int, n: int, caps: seq<Capture>, e: int, out: seq<Capture>)
    requires 0 <= p <= |pat| && 0 <= s && s + n <= |src|
  {
    exists t :: s <= t <= s + n && Matches(src, pat, p, t, caps, e, out)
  }

  lemma {:induction false} GreedyInstances(
      src: seq<int>, pat: seq<int>, p: int, s: int, n: int, caps: seq<Capture>, d: nat, e: int, out: seq<Capture>)
    requires 0 <= p <= |pat| && 0 <= s && -1 <= n && s + n <= |src| && CapsOk(caps, s) && d <= MAX_XLEVEL
    ensures Exactly(Greedy(src, pat, p, s, n, caps, d), e, out, Within(src, pat, p, s, n, caps, e, out))
    decreases MAX_XLEVEL - d, 0, n + 2
  {
    if n >= 0 {
      CapsLater(caps, s, s + n);
      NestedInstances(src, pat, p, s + n, caps, d, e, out);
      GreedyInstances(src, pat, p, s, n - 1, caps, d, e, out);
      WithinLess(src, pat, p, s, n, caps, e, out);
      EitherExactly(Nested(src, pat, p, s + n, caps, d), Greedy(src, pat, p, s, n - 1, caps, d), e, out,
        Matches(src, pat, p, s + n, caps, e, out), Within(src, pat, p, s, n - 1, caps, e, out));
    }
  }

  lemma WithinLess(
      src: seq<int>, pat: seq<int>, p: int, s: int, n: nat, caps: seq<Capture>, e: int, out: seq<Capture>)
    requires 0 <= p <= |pat| && 0 <= s && s + n <= |src|
    ensures Within(src, pat, p, s, n, caps, e, out) <==>
      Matches(src, pat, p, s + n, caps, e, out) || Within(src, pat, p, s, n - 1, caps, e, out)
  {
    hide Matches;
  }

  /** Some run of the class is followed by a match of the rest. */
  ghost predicate Runs(
      src: seq<int>, pat: seq<int>, p: int, ep: int, s: int, caps: seq<Capture>, e: int, out: seq<Capture>)
    requires 0 <= p < |pat| && EndOfClass(pat, p) == At(ep) && ep < |pat| && 0 <= s <= |src|
  {
    exists t :: Span(src, pat, s, t, p, ep) && Matches(src, pat, ep + 1, t, caps, e, out)
  }

  ghost predicate SomeRuns(
      src: seq<int>, pat: seq<int>, p: int, ep: int, s: int, caps: seq<Capture>, e: int, out: seq<Capture>)
    requires 0 <= p < |pat| && EndOfClass(pat, p) == At(ep) && ep < |pat| && 0 <= s <= |src|
  {
    exists t :: s < t && Span(src, pat, s, t, p, ep) && Matches(src, pat, ep + 1, t, caps, e, out)
  }

  lemma RunsWithin(
      src: seq<int>, pat: seq<int>, p: int, ep: int, s: int, caps: seq<Capture>, e: int, out: seq<Capture>)
    requires 0 <= p < |pat| && EndOfClass(pat, p) == At(ep) && ep < |pat| && 0 <= s <= |src|
    ensures Runs(src, pat, p, ep, s, caps, e, out) <==>
      Within(src, pat, ep + 1, s, RunLength(src, pat, s, p, ep), caps, e, out)
  {
    hide Matches;
    var n := RunLength(src, pat, s, p, ep);
    if Runs(src, pat, p, ep, s, caps, e, out) {
      var t :| Span(src, pat, s, t, p, ep) && Matches(src, pat, ep + 1, t, caps, e, out);
      RunIsSpan(src, pat, s, t, p, ep);
    }
    if Within(src, pat, ep + 1, s, n, caps, e, out) {
      var t :| s <= t <= s + n && Matches(src, pat, ep + 1, t, caps, e, out);
      RunIsSpan(src, pat, s, t, p, ep);
    }
  }

  /** A run of one or more is a character and a run. */
  lemma SomeSplit(
      src: seq<int>, pat: seq<int>, p: int, ep: int, s: int, caps: seq<Capture>, e: int, out: seq<Capture>)
    requires 0 <= p < |pat| && EndOfClass(pat, p) == At(ep) && ep < |pat| && 0 <= s <= |src|
    ensures SomeRuns(src, pat, p, ep, s, caps, e, out) <==>
      SingleAt(src, pat, s, p, ep) && Runs(src, pat, p, ep, s + 1, caps, e, out)
  {
    hide Matches;
    if SomeRuns(src, pat, p, ep, s, caps, e, out) {
      var t :| s < t && Span(src, pat, s, t, p, ep) && Matches(src, pat, ep + 1, t, caps, e, out);
      SpanSplit(src, pat, s, t, p, ep);
    }
    if SingleAt(src, pat, s, p, ep) && Runs(src, pat, p, ep, s + 1, caps, e, out) {
      var t :| Span(src, pat, s + 1, t, p, ep) && Matches(src, pat, ep + 1, t, caps, e, out);
      SpanSplit(src, pat, s, t, p, ep);
    }
  }

  /** A run is empty, or a run of one or more. */
  lemma RunsSplit(
      src: seq<int>, pat: seq<int>, p: int, ep: int, s: int, caps: seq<Capture>, e: int, out: seq<Capture>)
    requires 0 <= p < |pat| && EndOfClass(pat, p) == At(ep) && ep < |pat| && 0 <= s <= |src|
    ensures Runs(src, pat, p, ep, s, caps, e, out) <==>
      Matches(src, pat, ep + 1, s, caps, e, out) || SomeRuns(src, pat, p, ep, s, caps, e, out)
  {
    hide Matches;
    assert Span(src, pat, s, s, p, ep);
  }

  lemma {:induction false} LazyInstances(
      src: seq<int>, pat: seq<int>, p: int, ep: int, s: int, caps: seq<Capture>, d: nat, e: int, out: seq<Capture>)
    requires 0 <= p < |pat| && EndOfClass(pat, p) == At(ep) && ep < |pat|
    requires 0 <= s <= |src| && CapsOk(caps, s) && d <= MAX_XLEVEL
    ensures Exactly(Lazy(src, pat, p, ep, s, caps, d), e, out, Runs(src, pat, p, ep, s, caps, e, out))
    decreases MAX_XLEVEL - d, 0, |src| - s + 2
  {
    var now := Nested(src, pat, ep + 1, s, caps, d);
    CapsLater(caps, s, s + 1);
    RunsSplit(src, pat, p, ep, s, caps, e, out);
    SomeSplit(src, pat, p, ep, s, caps, e, out);
    NestedInstances(src, pat, ep + 1, s, caps, d, e, out);
    if SingleAt(src, pat, s, p, ep) {
      LazyInstances(src, pat, p, ep, s + 1, caps, d, e, out);
      EitherExactly(now, Lazy(src, pat, p, ep, s + 1, caps, d), e, out,
        Matches(src, pat, ep + 1, s, caps, e, out), Runs(src, pat, p, ep, s + 1, caps, e, out));
    }
  }

  lemma ItemInstances(
      src: seq<int>, pat: seq<int>, p: int, ep: int, s: int, caps: seq<Capture>, d: nat, e: int, out: seq<Capture>)
    requires 0 <= p < |pat| && EndOfClass(pat, p) == At(ep) && 0 <= s <= |src| && CapsOk(caps, s) && d <= MAX_XLEVEL
    ensures Exactly(Item(src, pat, p, ep, s, caps, d), e, out, ItemMatches(src, pat, p, ep, s, caps, e, out))
    decreases MAX_XLEVEL - d, |pat| - p, 5
  {
    hide Matches;
    var op := Char(pat, ep);
    ItemIs(src, pat, p, ep, s, caps, d);
    if op == '?' as int {
      OptionInstances(src, pat, p, ep, s, caps, d, e, out);
    } else if op == '*' as int {
      StarInstances(src, pat, p, ep, s, caps, d, e, out);
    } else if op == '+' as int {
      SomeSplit(src, pat, p, ep, s, caps, e, out);
      if SingleAt(src, pat, s, p, ep) {
        StarInstances(src, pat, p, ep, s + 1, caps, d, e, out);
      }
    } else if op == '-' as int {
      LazyInstances(src, pat, p, ep, s, caps, d, e, out);
    } else if SingleAt(src, pat, s, p, ep) {
      AllInstances(src, pat, ep, s + 1, caps, d, e, out);
    }
  }

  lemma StarInstances(
      src: seq<int>, pat: seq<int>, p: int, ep: int, s: int, caps: seq<Capture>, d: nat, e: int, out: seq<Capture>)
    requires 0 <= p < |pat| && EndOfClass(pat, p) == At(ep) && ep < |pat|
    requires 0 <= s <= |src| && CapsOk(caps, s) && d <= MAX_XLEVEL
    ensures Exactly(Greedy(src, pat, ep + 1, s, RunLength(src, pat, s, p, ep), caps, d), e, out,
      Runs(src, pat, p, ep, s, caps, e, out))
    decreases MAX_XLEVEL - d, |pat| - p, 4
  {
    hide Matches;
    GreedyInstances(src, pat, ep + 1, s, RunLength(src, pat, s, p, ep), caps, d, e, out);
    RunsWithin(src, pat, p, ep, s, caps, e, out);
  }

  lemma OptionInstances(
      src: seq<int>, pat: seq<int>, p: int, ep: int, s: int, caps: seq<Capture>, d: nat, e: int, out: seq<Capture>)
    requires 0 <= p < |pat| && EndOfClass(pat, p) == At(ep) && 0 <= s <= |src| && CapsOk(caps, s) && d <= MAX_XLEVEL
    requires Char(pat, ep) == '?' as int
    ensures Exactly(Item(src, pat, p, ep, s, caps, d), e, out, ItemMatches(src, pat, p, ep, s, caps, e, out))
    decreases MAX_XLEVEL - d, |pat| - p, 4
  {
    hide Matches;
    ItemIs(src, pat, p, ep, s, caps, d);
    var one := SingleAt(src, pat, s, p, ep);
    var first := if one then Nested(src, pat, ep + 1, s + 1, caps, d) else [];
    if one {
      NestedInstances(src, pat, ep + 1, s + 1, caps, d, e, out);
    }
    AllInstances(src, pat, ep + 1, s, caps, d, e, out);
    EitherExactly(first, All(src, pat, ep + 1, s, caps, d), e, out,
      one && Matches(src, pat, ep + 1, s + 1, caps, e, out), Matches(src, pat, ep + 1, s, caps, e, out));
  }

  /** What a class with its repetition matches. */
  ghost predicate ItemMatches(
      src: seq<int>, pat: seq<int>, p: int, ep: int, s: int, caps: seq<Capture>, e: int, out: seq<Capture>)
    requires 0 <= p < |pat| && EndOfClass(pat, p) == At(ep) && 0 <= s <= |src|
  {
    var op, one := Char(pat, ep), SingleAt(src, pat, s, p, ep);
    if op == '?' as int then
      (one && Matches(src, pat, ep + 1, s + 1, caps, e, out)) || Matches(src, pat, ep + 1, s, caps, e, out)
    else if op == '*' as int || op == '-' as int then Runs(src, pat, p, ep, s, caps, e, out)
    else if op == '+' as int then SomeRuns(src, pat, p, ep, s, caps, e, out)
    else one && Matches(src, pat, ep, s + 1, caps, e, out)
  }

  /**
   * The matcher answers with an instance of the pattern, or raises an error, or says that nothing matches, and this
   * only when there is no instance.
   */
  lemma FoundExactly(src: seq<int>, pat: seq<int>, p: int, s: int, caps: seq<Capture>, e: int, out: seq<Capture>)
    requires 0 <= p <= |pat| && 0 <= s <= |src| && CapsOk(caps, s)
    ensures var r := Best(src, pat, p, s, caps, 0);
      && (r.Found? ==> Matches(src, pat, p, s, caps, r.end, r.caps))
      && (r == NoMatch ==> !Matches(src, pat, p, s, caps, e, out))
  {
    hide Matches;
    var all := All(src, pat, p, s, caps, 0);
    if all == [] {
      AllInstances(src, pat, p, s, caps, 0, e, out);
    } else if all[0].Success? {
      AllInstances(src, pat, p, s, caps, 0, all[0].end, all[0].caps);
    }
  }
}
