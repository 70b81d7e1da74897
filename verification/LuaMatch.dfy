/** The backtracking matcher. */
module LuaMatch {
  import opened LuaChars
  import opened LuaPattern

  /** What a matching function returns: the end of the match, NULL, or an error it raises. */
  datatype Return = Hit(end: int) | Miss | Thrown(error: Error)

  /** A result, or where the match goes on. */
  datatype Step = Done(r: Return) | Goto(s: int, p: int)

  class MatchState {
    /** The subject and the pattern. */
    const src: seq<int>
    const pat: seq<int>
    /** How many captures there are, finished or not, and how deeply matches are nested. */
    var level: int
    var depth: int
    const starts: array<int>
    const lens: array<int>

    constructor (src: seq<int>, pat: seq<int>)
      ensures Valid(0) && this.src == src && this.pat == pat && level == 0 && depth == 0
      ensures fresh(starts) && fresh(lens)
    {
      this.src, this.pat := src, pat;
      level, depth := 0, 0;
      starts, lens := new int[MAXCAPTURES], new int[MAXCAPTURES];
    }

    ghost predicate Shape()
      reads this
    {
      && starts.Length == MAXCAPTURES == lens.Length && starts != lens
      && 0 <= level <= MAXCAPTURES && 0 <= depth <= MAX_XLEVEL
    }

    /** The captures so far. */
    ghost function Caps(): (caps: seq<Capture>)
      reads this, starts, lens
      requires Shape()
      ensures |caps| == level
      ensures forall i :: 0 <= i < level ==> caps[i] == Capture(starts[i], lens[i])
    {
      seq(level, i requires 0 <= i < level reads this, starts, lens requires Shape() => Capture(starts[i], lens[i]))
    }

    /** All captures lie in the part of the subject before `s`. */
    ghost predicate Valid(s: int)
      reads this, starts, lens
    {
      Shape() && 0 <= s <= |src| && CapsOk(Caps(), s)
    }

    /** classend. */
    method ClassEndOf(p0: int) returns (r: ClassEnd)
      requires 0 <= p0 < |pat| && pat[p0] != 0
      ensures r == EndOfClass(pat, p0)
    {
      var p := p0 + 1;
      if pat[p0] == ESC {
        if Char(pat, p) == 0 { return Bad(EndsInEscape); }
        return At(p + 1);
      } else if pat[p0] == '[' as int {
        if Char(pat, p) == '^' as int { p := p + 1; }
        while true
          invariant 0 <= p <= |pat| && BracketEnd(pat, p) == EndOfClass(pat, p0)
          decreases |pat| - p
        {
          if Char(pat, p) == 0 { return Bad(MissingBracket); }
          var c := Char(pat, p);
          p := p + 1;
          if c == ESC && Char(pat, p) != 0 { p := p + 1; }
          if Char(pat, p) == ']' as int { return At(p + 1); }
        }
      } else {
        return At(p);
      }
    }

    /** matchbracketclass. */
    method MatchBracketClass(c: int, p0: int, ec: int) returns (r: bool)
      requires 0 <= p0 && p0 + 1 < |pat| && ec < |pat|
      ensures r == InBrackets(pat, c, p0, ec)
    {
      var p, sig := p0, true;
      if pat[p + 1] == '^' as int {
        sig := false;
        p := p + 1;
      }
      ghost var q := p;
      p := p + 1;
      while p < ec
        invariant 0 < p && InSet(pat, c, p - 1, ec) == InSet(pat, c, q, ec)
        decreases ec - p
      {
        if pat[p] == ESC {
          p := p + 1;
          if MatchClass(c, pat[p]) { return sig; }
        } else if pat[p + 1] == '-' as int && p + 2 < ec {
          p := p + 2;
          if pat[p - 2] <= c <= pat[p] { return sig; }
        } else if pat[p] == c {
          return sig;
        }
        p := p + 1;
      }
      return !sig;
    }

    /** singlematch. */
    method SingleMatch(c: int, p: int, ep: int) returns (r: bool)
      requires 0 <= p < |pat| && EndOfClass(pat, p) == At(ep)
      ensures r == Single(pat, c, p, ep)
    {
      if pat[p] == '.' as int { return true; }
      if pat[p] == ESC { return MatchClass(c, pat[p + 1]); }
      if pat[p] == '[' as int { r := MatchBracketClass(c, p, ep - 1); return; }
      return pat[p] == c;
    }

    /** matchbalance; -1 stands for no match. */
    method MatchBalance(s0: int, p: int) returns (r: int)
      requires 0 <= s0 <= |src| && 0 <= p && p + 1 < |pat| && pat[p] != 0
      ensures r == if s0 == |src| || src[s0] != pat[p] then -1 else BalanceEnd(src, pat[p], pat[p + 1], s0 + 1, 1)
    {
      if Char(src, s0) != pat[p] || s0 == |src| { return -1; }
      var b, e := pat[p], pat[p + 1];
      var cont := 1;
      var s := s0 + 1;
      while s < |src|
        invariant s0 < s <= |src| && cont > 0
        invariant BalanceEnd(src, b, e, s, cont) == BalanceEnd(src, b, e, s0 + 1, 1)
      {
        if src[s] == e {
          cont := cont - 1;
          if cont == 0 { return s + 1; }
        } else if src[s] == b {
          cont := cont + 1;
        }
        s := s + 1;
      }
      return -1;
    }

    /** capture_to_close; -1 stands for the error. */
    method CaptureToClose() returns (l: int)
      requires Shape()
      ensures l == LastOpen(Caps())
    {
      l := level - 1;
      while l >= 0
        invariant -1 <= l < level && LastOpen(Caps()[..l + 1]) == LastOpen(Caps())
      {
        assert Caps()[..l + 1][..l] == Caps()[..l];
        if lens[l] == CAP_UNFINISHED { return; }
        l := l - 1;
      }
    }

    /** The result is the best way to match. Without a match everything is as before, with one the
        captures are those of that way. */
    ghost predicate Agrees(r: Return, best: Result, caps: seq<Capture>, d: int)
      reads this, starts, lens
    {
      && Shape()
      && match r
         case Hit(e) => best == Found(e, Caps()) && depth == d
         case Miss => best == NoMatch && Caps() == caps && depth == d
         case Thrown(error) => best == Failed(error)
    }

    /** match: one level deeper. */
    method Match(s: int, p: int) returns (r: Return)
      requires Valid(s) && 0 <= p <= |pat|
      modifies this, starts, lens
      ensures Agrees(r, BestNested(src, pat, p, s, old(Caps()), old(depth)), old(Caps()), old(depth))
      decreases MAX_XLEVEL - depth, 0, 0
    {
      hide Best, BestNested;
      BestNestedIs(src, pat, p, s, Caps(), depth);
      if depth + 1 > MAX_XLEVEL { return Thrown(TooDeep); }
      ghost var caps := Caps();
      depth := depth + 1;
      assert Caps() == caps;
      r := MatchHere(s, p);
      if !r.Thrown? {
        ghost var now := Caps();
        depth := depth - 1;
        assert Caps() == now;
      }
    }

    /** The items that start with the escape character and are no classes. */
    predicate Escaped(p: int)
      requires 0 <= p < |pat| && pat[p] == ESC
    {
      Char(pat, p + 1) == 'b' as int || Char(pat, p + 1) == 'f' as int || Digit(Char(pat, p + 1))
    }

    /** match, at an escaped item: balanced text, frontier or capture result. */
    method MatchEscape(s: int, p: int) returns (step: Step)
      requires Valid(s) && 0 <= p < |pat| && pat[p] == ESC && Escaped(p)
      ensures step.Done? ==> Agrees(step.r, Best(src, pat, p, s, Caps(), depth), Caps(), depth)
      ensures step.Goto? ==>
        && p < step.p <= |pat| && s <= step.s <= |src| && CapsOk(Caps(), step.s)
        && Best(src, pat, step.p, step.s, Caps(), depth) == Best(src, pat, p, s, Caps(), depth)
    {
      hide Best, EndOfClass, InBrackets, BalanceEnd;
      ghost var caps, d := Caps(), depth;
      if pat[p + 1] == 'b' as int {
        BestBalance(src, pat, p, s, caps, d);
        if Char(pat, p + 2) == 0 || Char(pat, p + 3) == 0 { return Done(Thrown(MissingBalance)); }
        var e := MatchBalance(s, p + 2);
        return if e < 0 then Done(Miss) else Goto(e, p + 4);
      } else if pat[p + 1] == 'f' as int {
        BestFrontier(src, pat, p, s, caps, d);
        if Char(pat, p + 2) != '[' as int { return Done(Thrown(MissingSet)); }
        var ep := ClassEndOf(p + 2);
        if ep.Bad? { return Done(Thrown(ep.error)); }
        var previous := if s == 0 then 0 else src[s - 1];
        var before := MatchBracketClass(previous, p + 2, ep.p - 1);
        if before { return Done(Miss); }
        var here := MatchBracketClass(Char(src, s), p + 2, ep.p - 1);
        return if here then Goto(s, ep.p) else Done(Miss);
      } else {
        step := MatchCapture(s, p);
      }
    }

    /** match_capture. */
    method MatchCapture(s: int, p: int) returns (step: Step)
      requires Valid(s) && 0 <= p && p + 1 < |pat| && pat[p] == ESC && Digit(pat[p + 1])
      ensures step.Done? ==> Agrees(step.r, Best(src, pat, p, s, Caps(), depth), Caps(), depth)
      ensures step.Goto? ==>
        && step.p == p + 2 && s <= step.s <= |src| && CapsOk(Caps(), step.s)
        && Best(src, pat, step.p, step.s, Caps(), depth) == Best(src, pat, p, s, Caps(), depth)
    {
      hide Best;
      BestBack(src, pat, p, s, Caps(), depth);
      var l := pat[p + 1] - '1' as int;
      if l < 0 || l >= level || lens[l] == CAP_UNFINISHED { return Done(Thrown(BadCapture)); }
      var len := lens[l];
      if len == CAP_POSITION || |src| - s < len || src[s..s + len] != src[starts[l]..starts[l] + len] {
        return Done(Miss);
      }
      return Goto(s + len, p + 2);
    }

    /** match, from its label `init` on. */
    method MatchHere(s0: int, p0: int) returns (r: Return)
      requires Valid(s0) && 0 <= p0 <= |pat|
      modifies this, starts, lens
      ensures Agrees(r, Best(src, pat, p0, s0, old(Caps()), old(depth)), old(Caps()), old(depth))
      decreases MAX_XLEVEL - depth, 2, 0
    {
      hide Best, BestNested, BestOpened, BestClosed, BestGreedy, BestLazy, EndOfClass, InBrackets, BalanceEnd;
      var s, p := s0, p0;
      ghost var caps, d := Caps(), depth;
      r := Miss;
      while true
        invariant Shape() && depth == d && Caps() == caps && 0 <= p <= |pat| && 0 <= s <= |src| && CapsOk(caps, s)
        invariant r == Miss && Best(src, pat, p, s, caps, d) == Best(src, pat, p0, s0, caps, d)
        decreases |pat| - p
      {
        var c := Char(pat, p);
        if c == '(' as int {
          BestParen(src, pat, p, s, caps, d);
          if Char(pat, p + 1) == ')' as int {
            r := StartCapture(s, p + 2, CAP_POSITION);
          } else {
            r := StartCapture(s, p + 1, CAP_UNFINISHED);
          }
          break;
        } else if c == ')' as int {
          BestClose(src, pat, p, s, caps, d);
          r := EndCapture(s, p + 1);
          break;
        } else if c == ESC && Escaped(p) {
          var step := MatchEscape(s, p);
          if step.Done? {
            r := step.r;
            break;
          }
          s, p := step.s, step.p;
        } else if c == 0 {
          BestEnd(src, pat, p, s, caps, d);
          r := Hit(s);
          break;
        } else if c == '$' as int && Char(pat, p + 1) == 0 {
          BestDollar(src, pat, p, s, caps, d);
          if s == |src| {
            r := Hit(s);
          }
          break;
        } else {
          BestItem(src, pat, p, s, caps, d);
          var ep := ClassEndOf(p);
          if ep.Bad? { return Thrown(ep.error); }
          var m := false;
          if s < |src| { m := SingleMatch(src[s], p, ep.p); }
          var op := Char(pat, ep.p);
          if op == '?' as int {
            if m {
              r := Match(s + 1, ep.p + 1);
              if r != Miss { break; }
            }
            p := ep.p + 1;
          } else if op == '*' as int {
            r := MaxExpand(s, p, ep.p);
            break;
          } else if op == '+' as int {
            if m {
              r := MaxExpand(s + 1, p, ep.p);
            }
            break;
          } else if op == '-' as int {
            r := MinExpand(s, p, ep.p);
            break;
          } else {
            if !m {
              break;
            }
            s, p := s + 1, ep.p;
          }
        }
      }
    }

    /** max_expand. */
    method MaxExpand(s: int, p: int, ep: int) returns (r: Return)
      requires Valid(s) && 0 <= p < |pat| && EndOfClass(pat, p) == At(ep) && ep < |pat|
      modifies this, starts, lens
      ensures Agrees(r, BestGreedy(src, pat, p, ep, s, old(Caps()), old(depth)), old(Caps()), old(depth))
      decreases MAX_XLEVEL - depth, 1, 0
    {
      hide BestUpTo, BestNested;
      ghost var caps, d := Caps(), depth;
      ghost var n := RunLength(src, pat, s, p, ep);
      var i := 0;
      while s + i < |src|
        invariant Shape() && depth == d && Caps() == caps
        invariant 0 <= i && s + i <= |src| && n == i + RunLength(src, pat, s + i, p, ep)
      {
        var m := SingleMatch(src[s + i], p, ep);
        if !m { break; }
        i := i + 1;
      }
      assert i == n;
      while i >= 0
        invariant Shape() && depth == d && Caps() == caps && -1 <= i <= n
        invariant BestUpTo(src, pat, ep + 1, s, n, caps, d) == BestUpTo(src, pat, ep + 1, s, i, caps, d)
      {
        OneFewer(src, pat, ep + 1, s, i, caps, d);
        r := Match(s + i, ep + 1);
        if r != Miss { return; }
        i := i - 1;
      }
      OneFewer(src, pat, ep + 1, s, i, caps, d);
      r := Miss;
    }

    /** min_expand. */
    method MinExpand(s0: int, p: int, ep: int) returns (r: Return)
      requires Valid(s0) && 0 <= p < |pat| && EndOfClass(pat, p) == At(ep) && ep < |pat|
      modifies this, starts, lens
      ensures Agrees(r, BestLazy(src, pat, p, ep, s0, old(Caps()), old(depth)), old(Caps()), old(depth))
      decreases MAX_XLEVEL - depth, 1, 0
    {
      ghost var caps, d := Caps(), depth;
      var s := s0;
      while true
        invariant Shape() && depth == d && Caps() == caps && s0 <= s <= |src| && CapsOk(caps, s)
        invariant First(Lazy(src, pat, p, ep, s, caps, d)) == First(Lazy(src, pat, p, ep, s0, caps, d))
        decreases |src| - s
      {
        r := Match(s, ep + 1);
        if r != Miss { return; }
        if s == |src| { return; }
        var m := SingleMatch(src[s], p, ep);
        if !m { return; }
        CapsLater(caps, s, s + 1);
        s := s + 1;
      }
    }

    /** start_capture. */
    method StartCapture(s: int, p: int, what: int) returns (r: Return)
      requires Valid(s) && 0 <= p <= |pat| && (what == CAP_UNFINISHED || what == CAP_POSITION)
      modifies this, starts, lens
      ensures Agrees(r, BestOpened(src, pat, p, s, old(Caps()), old(depth), what), old(Caps()), old(depth))
      decreases MAX_XLEVEL - depth, 1, 0
    {
      if level >= MAXCAPTURES { return Thrown(TooManyCaptures); }
      ghost var caps := Caps();
      starts[level] := s;
      lens[level] := what;
      level := level + 1;
      assert Caps() == caps + [Capture(s, what)];
      r := Match(s, p);
      if r == Miss {
        level := level - 1;
        assert Caps() == caps;
      }
    }

    /** end_capture. */
    method EndCapture(s: int, p: int) returns (r: Return)
      requires Valid(s) && 0 <= p <= |pat|
      modifies this, starts, lens
      ensures Agrees(r, BestClosed(src, pat, p, s, old(Caps()), old(depth)), old(Caps()), old(depth))
      decreases MAX_XLEVEL - depth, 1, 0
    {
      var l := CaptureToClose();
      if l < 0 { return Thrown(NothingToClose); }
      ghost var caps := Caps();
      lens[l] := s - starts[l];
      assert Caps() == caps[l := Capture(caps[l].start, s - caps[l].start)];
      r := Match(s, p);
      if r == Miss {
        lens[l] := CAP_UNFINISHED;
        assert Caps() == caps;
      }
    }
  }
}
