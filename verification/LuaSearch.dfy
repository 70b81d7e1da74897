/** Searching and replacing with patterns. */
module LuaSearch {
  import opened LuaChars
  import opened LuaPattern
  import opened LuaMatch

  /** The match at one place, with no captures yet. */
  function MatchAt(src: seq<int>, pat: seq<int>, p: int, s: int): Result
    requires 0 <= p <= |pat| && 0 <= s <= |src|
  {
    BestNested(src, pat, p, s, [], 0)
  }

  /** A match ends inside the subject, and its captures lie there. */
  lemma MatchInside(src: seq<int>, pat: seq<int>, p: int, s: int)
    requires 0 <= p <= |pat| && 0 <= s <= |src|
    ensures var r := MatchAt(src, pat, p, s); r.Found? ==> s <= r.end <= |src| && CapsOk(r.caps, r.end)
  {
    var all := Nested(src, pat, p, s, [], 0);
    if all != [] { assert OutcomeOk(src, s, 0, all[0]); }
  }

  predicate Anchored(pat: seq<int>) { |pat| > 0 && pat[0] == '^' as int }

  datatype FindResult = FoundAt(from: int, to: int, caps: seq<Capture>) | NotFound | FindError(at: int, error: Error)

  /** Where str_find_aux starts to search. */
  function FindStart(start: int, len: nat): (st: nat)
    ensures 1 <= start <= len + 1 ==> st == start - 1
    ensures 0 <= len + start && start < 0 ==> st == len + start
    ensures start + len < 0 || start == 0 ==> st == 0
    ensures start > len + 1 ==> st == len
  {
    var i := if start < 0 then start + len else start - 1;
    if i < 0 then 0 else if i > len then len else i
  }

  /** The search loop of str_find_aux finds the leftmost place with a match. */
  method Find(src: seq<int>, pat: seq<int>, start: int) returns (r: FindResult)
    ensures var anchored, st := |pat| > 0 && pat[0] == '^' as int, FindStart(start, |src|);
      var p, last := if anchored then 1 else 0, if anchored then st else |src|;
      match r
      case FoundAt(from, to, caps) =>
        && st <= from <= last && MatchAt(src, pat, p, from) == Found(to, caps)
        && forall j :: st <= j < from ==> MatchAt(src, pat, p, j) == NoMatch
      case NotFound => forall j :: st <= j <= last ==> MatchAt(src, pat, p, j) == NoMatch
      case FindError(at, error) =>
        && st <= at <= last && MatchAt(src, pat, p, at) == Failed(error)
        && forall j :: st <= j < at ==> MatchAt(src, pat, p, j) == NoMatch
  {
    var st := FindStart(start, |src|);
    var p := if Anchored(pat) then 1 else 0;
    var ms := new MatchState(src, pat);
    var s := st;
    while true
      invariant st <= s <= |src| && (Anchored(pat) ==> s == st)
      invariant fresh(ms) && fresh(ms.starts) && fresh(ms.lens) && ms.src == src && ms.pat == pat && ms.Shape()
      invariant forall j :: st <= j < s ==> MatchAt(src, pat, p, j) == NoMatch
      decreases |src| - s
    {
      var q := MatchFrom(ms, s, p);
      match q {
        case Found(e, caps) => return FoundAt(s, e, caps);
        case Failed(error) => return FindError(s, error);
        case NoMatch =>
      }
      if s == |src| || Anchored(pat) { return NotFound; }
      s := s + 1;
    }
  }

  /** One attempt: the state is reset and the pattern matched at `s`. */
  method MatchFrom(ms: MatchState, s: int, p: int) returns (q: Result)
    requires ms.Shape() && 0 <= s <= |ms.src| && 0 <= p <= |ms.pat|
    modifies ms, ms.starts, ms.lens
    ensures ms.Shape() && q == MatchAt(ms.src, ms.pat, p, s)
  {
    ms.level, ms.depth := 0, 0;
    assert ms.Caps() == [];
    var r := ms.Match(s, p);
    match r {
      case Hit(e) =>
        var caps := [];
        var i := 0;
        while i < ms.level
          invariant 0 <= i <= ms.level && ms.Shape() && caps == ms.Caps()[..i]
        {
          caps := caps + [Capture(ms.starts[i], ms.lens[i])];
          i := i + 1;
        }
        assert caps == ms.Caps();
        q := Found(e, caps);
      case Miss => q := NoMatch;
      case Thrown(error) => q := Failed(error);
    }
  }

  datatype Text = Made(text: seq<int>) | Broken(error: Error)

  function Decimal(n: nat): seq<int> {
    if n < 10 then ['0' as int + n] else Decimal(n / 10) + ['0' as int + n % 10]
  }

  /** push_onecapture, as text. */
  function OneCapture(src: seq<int>, caps: seq<Capture>, i: int, s: int, e: int): Text
    requires 0 <= s <= e <= |src| && CapsOk(caps, e)
  {
    if i < 0 || i >= |caps| then (if i == 0 then Made(src[s..e]) else Broken(BadCapture))
    else if caps[i].len == CAP_UNFINISHED then Broken(UnfinishedCapture)
    else if caps[i].len == CAP_POSITION then Made(Decimal(caps[i].start + 1))
    else Made(src[caps[i].start..caps[i].start + caps[i].len])
  }

  /** What replaces a match: a text with escapes (add_s), or whatever a call answers for the
      captures; without an answer the match stays. */
  datatype Replacement = Template(news: seq<int>) | Answer(f: (int, int, seq<Capture>) -> seq<seq<int>>)

  /** add_s from character `i` of the template on. */
  function Expand(src: seq<int>, news: seq<int>, i: nat, caps: seq<Capture>, s: int, e: int): Text
    requires 0 <= s <= e <= |src| && CapsOk(caps, e)
    decreases |news| - i
  {
    if i >= |news| then Made([])
    else if news[i] != ESC then Joined(Made([news[i]]), Expand(src, news, i + 1, caps, s, e))
    else
      var c := Char(news, i + 1);
      var piece := if !Digit(c) then Made([c])
                   else if c == '0' as int then Made(src[s..e])
                   else OneCapture(src, caps, c - '1' as int, s, e);
      Joined(piece, Expand(src, news, i + 2, caps, s, e))
  }

  function Joined(a: Text, b: Text): Text {
    if a.Broken? then a else if b.Broken? then b else Made(a.text + b.text)
  }

  predicate AllClosed(caps: seq<Capture>) { forall i :: 0 <= i < |caps| ==> caps[i].len != CAP_UNFINISHED }

  /** add_value. */
  function Added(src: seq<int>, repl: Replacement, caps: seq<Capture>, s: int, e: int): Text
    requires 0 <= s <= e <= |src| && CapsOk(caps, e)
  {
    match repl
    case Template(news) => Expand(src, news, 0, caps, s, e)
    case Answer(f) =>
      if !AllClosed(caps) then Broken(UnfinishedCapture)
      else if f(s, e, caps) == [] then Made(src[s..e])
      else Made(f(s, e, caps)[0])
  }

  datatype GsubResult = Replaced(text: seq<int>, n: int) | GsubError(error: Error)

  function Before(text: seq<int>, rest: GsubResult): GsubResult {
    if rest.Replaced? then Replaced(text + rest.text, rest.n) else rest
  }

  /** What string.gsub makes of the subject from `s` on, after `n` substitutions. */
  function Gsub(src: seq<int>, pat: seq<int>, repl: Replacement, max: int, s: int, n: nat): GsubResult
    requires 0 <= s <= |src|
    decreases |src| - s
  {
    var p := if Anchored(pat) then 1 else 0;
    if n >= max then Replaced(src[s..], n)
    else
      MatchInside(src, pat, p, s);
      match MatchAt(src, pat, p, s)
      case Failed(error) => GsubError(error)
      case NoMatch =>
        if s == |src| then Replaced([], n)
        else if Anchored(pat) then Replaced(src[s..], n)
        else Before([src[s]], Gsub(src, pat, repl, max, s + 1, n))
      case Found(e, caps) =>
        var added := Added(src, repl, caps, s, e);
        if added.Broken? then GsubError(added.error)
        else if s < e then
          Before(added.text, if Anchored(pat) then Replaced(src[e..], n + 1) else Gsub(src, pat, repl, max, e, n + 1))
        else if s == |src| then Replaced(added.text, n + 1)
        else
          Before(added.text + [src[s]],
                 if Anchored(pat) then Replaced(src[s + 1..], n + 1) else Gsub(src, pat, repl, max, s + 1, n + 1))
  }

  lemma BeforeTwice(a: seq<int>, b: seq<int>, rest: GsubResult)
    ensures Before(a, Before(b, rest)) == Before(a + b, rest)
  {
    if rest.Replaced? { assert a + (b + rest.text) == a + b + rest.text; }
  }

  lemma JoinedTwice(a: seq<int>, b: seq<int>, rest: Text)
    ensures Joined(Made(a), Joined(Made(b), rest)) == Joined(Made(a + b), rest)
  {
    if rest.Made? { assert a + (b + rest.text) == a + b + rest.text; }
  }

  /** string_gsub. */
  method StringGsub(src: seq<int>, pat: seq<int>, repl: Replacement, max: int) returns (r: GsubResult)
    ensures r == Gsub(src, pat, repl, max, 0, 0)
  {
    hide MatchAt, Before;
    var p := if Anchored(pat) then 1 else 0;
    var ms := new MatchState(src, pat);
    var s, n, b := 0, 0, [];
    EmptyBefore(Gsub(src, pat, repl, max, 0, 0));
    while n < max
      invariant 0 <= s <= |src| && 0 <= n
      invariant fresh(ms) && fresh(ms.starts) && fresh(ms.lens) && ms.src == src && ms.pat == pat && ms.Shape()
      invariant Gsub(src, pat, repl, max, 0, 0) == Before(b, Gsub(src, pat, repl, max, s, n))
      decreases |src| - s
    {
      var q := MatchFrom(ms, s, p);
      MatchInside(src, pat, p, s);
      ghost var b0, s0 := b, s;
      if q.Failed? {
        FailedBefore(b, q.error);
        return GsubError(q.error);
      }
      ghost var t := [];
      if q.Found? {
        n := n + 1;
        var added := AddValue(src, repl, q.caps, s, q.end);
        if added.Broken? {
          FailedBefore(b, added.error);
          return GsubError(added.error);
        }
        b := b + added.text;
        t := added.text;
      }
      if q.Found? && q.end > s {
        s := q.end;
      } else if s < |src| {
        t := if q.Found? then t + [src[s]] else [src[s]];
        b := b + [src[s]];
        s := s + 1;
      } else {
        DoneBefore(b0, t, n);
        assert b == b0 + t;
        return Replaced(b, n);
      }
      assert b == b0 + t;
      if Anchored(pat) {
        DoneTwice(b0, t, src[s..], n);
        SkipDone(b0, src, s0, n);
        return Replaced(b + src[s..], n);
      }
      BeforeTwice(b0, t, Gsub(src, pat, repl, max, s, n));
    }
    DoneBefore(b, src[s..], n);
    return Replaced(b + src[s..], n);
  }

  lemma EmptyBefore(rest: GsubResult)
    ensures Before([], rest) == rest
  {
    if rest.Replaced? { assert [] + rest.text == rest.text; }
  }

  lemma FailedBefore(a: seq<int>, error: Error)
    ensures Before(a, GsubError(error)) == GsubError(error)
  {}

  lemma DoneBefore(a: seq<int>, b: seq<int>, n: int)
    ensures Before(a, Replaced(b, n)) == Replaced(a + b, n)
  {}

  lemma DoneTwice(a: seq<int>, b: seq<int>, c: seq<int>, n: int)
    ensures Before(a, Before(b, Replaced(c, n))) == Replaced(a + b + c, n)
  {
    assert a + (b + c) == a + b + c;
  }

  lemma SkipDone(a: seq<int>, src: seq<int>, s: int, n: int)
    requires 0 <= s <= |src|
    ensures s < |src| ==> Before(a, Replaced(src[s..], n)) == Replaced(a + [src[s]] + src[s + 1..], n)
  {
    if s < |src| { assert a + src[s..] == a + [src[s]] + src[s + 1..]; }
  }

  /** add_value. */
  method AddValue(src: seq<int>, repl: Replacement, caps: seq<Capture>, s: int, e: int) returns (r: Text)
    requires 0 <= s <= e <= |src| && CapsOk(caps, e)
    ensures r == Added(src, repl, caps, s, e)
  {
    match repl {
      case Answer(f) => r := Added(src, repl, caps, s, e);
      case Template(news) => r := AddText(src, news, caps, s, e);
    }
  }

  /** add_s. */
  method AddText(src: seq<int>, news: seq<int>, caps: seq<Capture>, s: int, e: int) returns (r: Text)
    requires 0 <= s <= e <= |src| && CapsOk(caps, e)
    ensures r == Expand(src, news, 0, caps, s, e)
  {
    hide OneCapture;
    var b, i := [], 0;
    while i < |news|
      invariant 0 <= i && Expand(src, news, 0, caps, s, e) == Joined(Made(b), Expand(src, news, i, caps, s, e))
      decreases |news| - i
    {
      ghost var i0 := i;
      var piece := Made([news[i]]);
      if news[i] == ESC {
        i := i + 1;
        var c := Char(news, i);
        if !Digit(c) {
          piece := Made([c]);
        } else if c == '0' as int {
          piece := Made(src[s..e]);
        } else {
          piece := OneCapture(src, caps, c - '1' as int, s, e);
          if piece.Broken? { return piece; }
        }
      }
      i := i + 1;
      assert Expand(src, news, i0, caps, s, e) == Joined(piece, Expand(src, news, i, caps, s, e));
      JoinedTwice(b, piece.text, Expand(src, news, i, caps, s, e));
      b := b + piece.text;
    }
    r := Made(b);
  }

  /** A replacement that puts every match back, or raises an error. */
  ghost predicate PutsBack(src: seq<int>, repl: Replacement) {
    forall caps, s, e :: 0 <= s <= e <= |src| && CapsOk(caps, e) ==> IsBack(src, repl, caps, s, e)
  }

  predicate IsBack(src: seq<int>, repl: Replacement, caps: seq<Capture>, s: int, e: int)
    requires 0 <= s <= e <= |src| && CapsOk(caps, e)
  {
    var added := Added(src, repl, caps, s, e);
    added.Made? ==> added.text == src[s..e]
  }

  /** A call without answers puts every match back. */
  lemma NoAnswer(src: seq<int>, f: (int, int, seq<Capture>) -> seq<seq<int>>)
    requires forall s, e, caps :: f(s, e, caps) == []
    ensures PutsBack(src, Answer(f))
  {
    forall caps, s, e | 0 <= s <= e <= |src| && CapsOk(caps, e) ensures IsBack(src, Answer(f), caps, s, e) {
      assert f(s, e, caps) == [];
    }
  }

  /** So does the template `%0`, which never fails. */
  lemma WholeMatch(src: seq<int>, caps: seq<Capture>, s: int, e: int)
    requires 0 <= s <= e <= |src| && CapsOk(caps, e)
    ensures Added(src, Template([ESC, '0' as int]), caps, s, e) == Made(src[s..e])
  {
    var news := [ESC, '0' as int];
    assert Expand(src, news, 2, caps, s, e) == Made([]);
    assert src[s..e] + [] == src[s..e];
  }

  lemma TemplatePutsBack(src: seq<int>)
    ensures PutsBack(src, Template([ESC, '0' as int]))
  {
    var repl := Template([ESC, '0' as int]);
    forall caps, s, e | 0 <= s <= e <= |src| && CapsOk(caps, e) ensures IsBack(src, repl, caps, s, e) {
      WholeMatch(src, caps, s, e);
    }
  }

  /** Substitution conserves: if every match is put back the subject is unchanged, whatever the
      pattern. There are at most one more substitutions than characters. */
  lemma {:induction false} GsubConserves(src: seq<int>, pat: seq<int>, repl: Replacement, max: int, s: int, n: nat)
    requires 0 <= s <= |src| && PutsBack(src, repl)
    ensures var r := Gsub(src, pat, repl, max, s, n); r.Replaced? ==> r.text == src[s..]
    decreases |src| - s
  {
    var p := if Anchored(pat) then 1 else 0;
    if n < max {
      MatchInside(src, pat, p, s);
      var q := MatchAt(src, pat, p, s);
      if q.Found? {
        assert IsBack(src, repl, q.caps, s, q.end);
        if s < q.end {
          GsubConserves(src, pat, repl, max, q.end, n + 1);
          assert src[s..] == src[s..q.end] + src[q.end..];
        } else if s < |src| {
          GsubConserves(src, pat, repl, max, s + 1, n + 1);
          assert src[s..] == src[s..s] + [src[s]] + src[s + 1..];
        }
      } else if q.NoMatch? && s < |src| {
        GsubConserves(src, pat, repl, max, s + 1, n);
        assert src[s..] == [src[s]] + src[s + 1..];
      }
    }
  }

  /** Every substitution but the last uses up a character, and no more than `max` are made. */
  lemma {:induction false} GsubBounded(src: seq<int>, pat: seq<int>, repl: Replacement, max: int, s: int, n: nat)
    requires 0 <= s <= |src|
    ensures var r := Gsub(src, pat, repl, max, s, n);
      r.Replaced? ==> n <= r.n <= n + |src| - s + 1 && (n <= max ==> r.n <= max)
    decreases |src| - s
  {
    var p := if Anchored(pat) then 1 else 0;
    if n < max {
      MatchInside(src, pat, p, s);
      var q := MatchAt(src, pat, p, s);
      if q.Found? && s < q.end {
        GsubBounded(src, pat, repl, max, q.end, n + 1);
      } else if s < |src| {
        GsubBounded(src, pat, repl, max, s + 1, if q.Found? then n + 1 else n);
      }
    }
  }
}
