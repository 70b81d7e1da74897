/** Patterns that are well formed raise no error, so that the matcher decides what they mean. */
module LuaCorrect {
  import opened LuaChars
  import opened LuaPattern
  import opened LuaRelation
  import opened LuaSets
  import opened LuaSyntax
  import opened LuaMeaning
  import opened LuaSearch

  // ----- Captures -----

  /** What can be said of captures before the match: -1 for an open one, -2 for a position, 0 for a closed one. */
  function Kinds(caps: seq<Capture>): seq<int> {
    seq(|caps|, i requires 0 <= i < |caps| => if caps[i].len < 0 then caps[i].len else 0)
  }

  function LastIndex(kinds: seq<int>): int {
    if kinds == [] then -1 else if kinds[|kinds| - 1] == -1 then |kinds| - 1 else LastIndex(kinds[..|kinds| - 1])
  }

  /** At most 32 captures; every closing bracket has an open one, and only captures that are not open are repeated. */
  predicate CapturesOk(ps: seq<Piece>, kinds: seq<int>)
    decreases |ps|
  {
    ps == [] ||
    match ps[0]
    case Open => |kinds| < 32 && CapturesOk(ps[1..], kinds + [-1])
    case Here => |kinds| < 32 && CapturesOk(ps[1..], kinds + [-2])
    case Close =>
      var l := LastIndex(kinds);
      0 <= l < |kinds| && CapturesOk(ps[1..], kinds[l := 0])
    case Back(k) => 1 <= k <= |kinds| && kinds[k - 1] != -1 && CapturesOk(ps[1..], kinds)
    case _ => CapturesOk(ps[1..], kinds)
  }

  lemma {:induction false} LastIs(caps: seq<Capture>)
    ensures LastOpen(caps) == LastIndex(Kinds(caps))
    decreases |caps|
  {
    if caps != [] {
      var n := |caps| - 1;
      LastIs(caps[..n]);
      assert Kinds(caps)[..n] == Kinds(caps[..n]);
    }
  }

  lemma KindsMore(caps: seq<Capture>, c: Capture)
    ensures Kinds(caps + [c]) == Kinds(caps) + [if c.len < 0 then c.len else 0]
  {}

  lemma KindsClosed(caps: seq<Capture>, l: int, c: Capture)
    requires 0 <= l < |caps| && c.len >= 0
    ensures Kinds(caps[l := c]) == Kinds(caps)[l := 0]
  {}

  // ----- No error -----

  predicate NoRaise(all: seq<Outcome>) { forall o :: o in all ==> o.Success? }

  lemma NoRaiseBoth(a: seq<Outcome>, b: seq<Outcome>)
    requires NoRaise(a) && NoRaise(b)
    ensures NoRaise(a + b)
  {}

  /** What holds where the rest of a pattern is tried: `d` levels are in use. */
  predicate Fits(src: seq<int>, pat: seq<int>, p: int, ps: seq<Piece>, s: int, caps: seq<Capture>, d: nat) {
    && Rests(pat, p, ps) && PiecesOk(ps) && CapturesOk(ps, Kinds(caps))
    && 0 <= s <= |src| && CapsOk(caps, s) && d + |ps| <= 200
  }

  lemma {:induction false} NoErrors(
      src: seq<int>, pat: seq<int>, p: int, ps: seq<Piece>, s: int, caps: seq<Capture>, d: nat)
    requires Fits(src, pat, p, ps, s, caps, d)
    ensures 0 <= p <= |pat| && NoRaise(All(src, pat, p, s, caps, d))
    decreases |ps|, 5
  {
    hide All, PiecesOk, Rests, CapturesOk, NoRaise, CapsOk;
    RestsInside(pat, p, ps);
    if ps == [] {
      AllNothing(src, pat, p, s, caps, d);
    } else {
      PiecesFirst(ps);
      CapturesFirst(ps, Kinds(caps));
      match ps[0]
      case Chars(_, _) => CharsFine(src, pat, p, ps, s, caps, d);
      case Open => OpenFine(src, pat, p, ps, s, caps, d);
      case Here => HereFine(src, pat, p, ps, s, caps, d);
      case Close => CloseFine(src, pat, p, ps, s, caps, d);
      case Balanced(_, _) => BalancedFine(src, pat, p, ps, s, caps, d);
      case Frontier(_, _) => FrontierFine(src, pat, p, ps, s, caps, d);
      case Back(_) => BackFine(src, pat, p, ps, s, caps, d);
      case End => EndFine(src, pat, p, ps, s, caps, d);
    }
  }

  lemma CapturesFirst(ps: seq<Piece>, kinds: seq<int>)
    requires CapturesOk(ps, kinds) && ps != []
    ensures ps[0].Chars? || ps[0].Balanced? || ps[0].Frontier? || ps[0].End? ==> CapturesOk(ps[1..], kinds)
    ensures ps[0].Open? ==> |kinds| < 32 && CapturesOk(ps[1..], kinds + [-1])
    ensures ps[0].Here? ==> |kinds| < 32 && CapturesOk(ps[1..], kinds + [-2])
    ensures ps[0].Close? ==> 0 <= LastIndex(kinds) < |kinds| && CapturesOk(ps[1..], kinds[LastIndex(kinds) := 0])
    ensures ps[0].Back? ==> 1 <= ps[0].k <= |kinds| && kinds[ps[0].k - 1] != -1 && CapturesOk(ps[1..], kinds)
  {}

  lemma AllNothing(src: seq<int>, pat: seq<int>, p: int, s: int, caps: seq<Capture>, d: nat)
    requires Rests(pat, p, []) && 0 <= s <= |src| && CapsOk(caps, s) && d <= MAX_XLEVEL
    ensures 0 <= p <= |pat| && NoRaise(All(src, pat, p, s, caps, d))
  {
    assert |pat[p..]| == 0;
  }

  /** The rest, one level deeper. */
  lemma NestedFine(src: seq<int>, pat: seq<int>, p: int, ps: seq<Piece>, s: int, caps: seq<Capture>, d: nat)
    requires Fits(src, pat, p, ps, s, caps, d + 1)
    ensures 0 <= p <= |pat| && NoRaise(Nested(src, pat, p, s, caps, d))
    decreases |ps|, 6
  {
    hide Fits, NoRaise;
    FitsHere(src, pat, p, ps, s, caps, d + 1);
    NoErrors(src, pat, p, ps, s, caps, d + 1);
  }

  lemma FitsHere(src: seq<int>, pat: seq<int>, p: int, ps: seq<Piece>, s: int, caps: seq<Capture>, d: nat)
    requires Fits(src, pat, p, ps, s, caps, d)
    ensures 0 <= p <= |pat| && 0 <= s <= |src| && CapsOk(caps, s) && d + |ps| <= 200 && MAX_XLEVEL == 200
  {}

  lemma OpenFine(src: seq<int>, pat: seq<int>, p: int, ps: seq<Piece>, s: int, caps: seq<Capture>, d: nat)
    requires Fits(src, pat, p, ps, s, caps, d) && ps != [] && ps[0].Open?
    ensures 0 <= p <= |pat| && NoRaise(All(src, pat, p, s, caps, d))
    decreases |ps|, 4
  {
    hide Rests, Stands, PiecesOk, CapturesOk, NoRaise, Nested;
    PieceFollowed(pat, p, ps);
    PiecesFirst(ps);
    CapturesFirst(ps, Kinds(caps));
    KindsMore(caps, Capture(s, CAP_UNFINISHED));
    NestedFine(src, pat, p + 1, ps[1..], s, caps + [Capture(s, CAP_UNFINISHED)], d);
  }

  lemma HereFine(src: seq<int>, pat: seq<int>, p: int, ps: seq<Piece>, s: int, caps: seq<Capture>, d: nat)
    requires Fits(src, pat, p, ps, s, caps, d) && ps != [] && ps[0].Here?
    ensures 0 <= p <= |pat| && NoRaise(All(src, pat, p, s, caps, d))
    decreases |ps|, 4
  {
    hide Rests, Stands, PiecesOk, CapturesOk, NoRaise, Nested;
    PieceFollowed(pat, p, ps);
    CapturesFirst(ps, Kinds(caps));
    KindsMore(caps, Capture(s, CAP_POSITION));
    NestedFine(src, pat, p + 2, ps[1..], s, caps + [Capture(s, CAP_POSITION)], d);
  }

  lemma CloseFine(src: seq<int>, pat: seq<int>, p: int, ps: seq<Piece>, s: int, caps: seq<Capture>, d: nat)
    requires Fits(src, pat, p, ps, s, caps, d) && ps != [] && ps[0].Close?
    ensures 0 <= p <= |pat| && NoRaise(All(src, pat, p, s, caps, d))
    decreases |ps|, 4
  {
    hide Rests, Stands, PiecesOk, CapturesOk, NoRaise, Nested;
    PieceFollowed(pat, p, ps);
    CapturesFirst(ps, Kinds(caps));
    LastIs(caps);
    var l := LastOpen(caps);
    var c := Capture(caps[l].start, s - caps[l].start);
    KindsClosed(caps, l, c);
    NestedFine(src, pat, p + 1, ps[1..], s, caps[l := c], d);
  }

  lemma EndFine(src: seq<int>, pat: seq<int>, p: int, ps: seq<Piece>, s: int, caps: seq<Capture>, d: nat)
    requires Fits(src, pat, p, ps, s, caps, d) && ps != [] && ps[0].End?
    ensures 0 <= p <= |pat| && NoRaise(All(src, pat, p, s, caps, d))
  {
    hide Rests, Stands, CapturesOk;
    PieceFollowed(pat, p, ps);
    NothingWritten(ps[1..]);
  }

  lemma BackFine(src: seq<int>, pat: seq<int>, p: int, ps: seq<Piece>, s: int, caps: seq<Capture>, d: nat)
    requires Fits(src, pat, p, ps, s, caps, d) && ps != [] && ps[0].Back?
    ensures 0 <= p <= |pat| && NoRaise(All(src, pat, p, s, caps, d))
    decreases |ps|, 4
  {
    hide Rests, Stands, CapturesOk, NoRaise, All, CapsOk, Kinds, Repeats, CaptureOk, PiecesOk;
    PiecesFirst(ps);
    PieceFollowed(pat, p, ps);
    CapturesFirst(ps, Kinds(caps));
    KindAt(caps, ps[0].k - 1);
    var c := caps[ps[0].k - 1];
    AllBack(src, pat, p, s, caps, d);
    if c.len != CAP_POSITION && Repeats(src, s, c) {
      RepeatsInside(src, s, c);
      NoErrors(src, pat, p + 2, ps[1..], s + c.len, caps, d);
    } else {
      NoneRaised();
    }
  }

  lemma KindAt(caps: seq<Capture>, i: int)
    requires 0 <= i < |Kinds(caps)|
    ensures i < |caps| && (Kinds(caps)[i] != -1 ==> caps[i].len != -1)
  {}

  lemma RepeatsInside(src: seq<int>, s: int, c: Capture)
    requires 0 <= s <= |src| && CaptureOk(c, s) && c.len >= 0 && Repeats(src, s, c)
    ensures s <= s + c.len <= |src|
  {}

  lemma NoneRaised()
    ensures NoRaise([])
  {}

  lemma AllBack(src: seq<int>, pat: seq<int>, p: int, s: int, caps: seq<Capture>, d: nat)
    requires 0 <= p && p + 1 < |pat| && pat[p] == ESC && '1' as int <= pat[p + 1] <= '9' as int
    requires 0 <= s <= |src| && CapsOk(caps, s) && d <= MAX_XLEVEL
    requires var l := pat[p + 1] - '1' as int; 0 <= l < |caps| && caps[l].len != CAP_UNFINISHED
    ensures var c := caps[pat[p + 1] - '1' as int];
      && CaptureOk(c, s) && (c.len != CAP_POSITION ==> c.len >= 0)
      && if c.len == CAP_POSITION || !Repeats(src, s, c) then All(src, pat, p, s, caps, d) == []
         else CapsOk(caps, s + c.len) &&
              All(src, pat, p, s, caps, d) == All(src, pat, p + 2, s + c.len, caps, d)
  {
    assert CaptureOk(caps[pat[p + 1] - '1' as int], s);
  }

  lemma BalancedFine(src: seq<int>, pat: seq<int>, p: int, ps: seq<Piece>, s: int, caps: seq<Capture>, d: nat)
    requires Fits(src, pat, p, ps, s, caps, d) && ps != [] && ps[0].Balanced?
    ensures 0 <= p <= |pat| && NoRaise(All(src, pat, p, s, caps, d))
    decreases |ps|, 4
  {
    hide Rests, Stands, CapturesOk, NoRaise, All, CapsOk, Kinds;
    BalancedRead(pat, p, ps);
    CapturesFirst(ps, Kinds(caps));
    AllBalanced(src, pat, p, s, caps, d);
    var b := if s < |src| && src[s] == pat[p + 2] then BalanceEnd(src, pat[p + 2], pat[p + 3], s + 1, 1) else -1;
    if b >= 0 {
      CapsLater(caps, s, b);
      NoErrors(src, pat, p + 4, ps[1..], b, caps, d);
    } else {
      NoneRaised();
    }
  }

  lemma AllBalanced(src: seq<int>, pat: seq<int>, p: int, s: int, caps: seq<Capture>, d: nat)
    requires 0 <= p && p + 4 <= |pat| && pat[p] == ESC && pat[p + 1] == 'b' as int && pat[p + 2] != 0 && pat[p + 3] != 0
    requires 0 <= s <= |src| && CapsOk(caps, s) && d <= MAX_XLEVEL
    ensures var x, y := pat[p + 2], pat[p + 3];
      var b := if s < |src| && src[s] == x then BalanceEnd(src, x, y, s + 1, 1) else -1;
      if b < 0 then All(src, pat, p, s, caps, d) == []
      else s < b <= |src| && CapsOk(caps, b) && All(src, pat, p, s, caps, d) == All(src, pat, p + 4, b, caps, d)
  {
    var b := if s < |src| && src[s] == pat[p + 2] then BalanceEnd(src, pat[p + 2], pat[p + 3], s + 1, 1) else -1;
    if b >= 0 { CapsLater(caps, s, b); }
  }

  lemma FrontierFine(src: seq<int>, pat: seq<int>, p: int, ps: seq<Piece>, s: int, caps: seq<Capture>, d: nat)
    requires Fits(src, pat, p, ps, s, caps, d) && ps != [] && ps[0].Frontier?
    ensures 0 <= p <= |pat| && NoRaise(All(src, pat, p, s, caps, d))
    decreases |ps|, 4
  {
    hide Rests, Stands, CapturesOk, NoRaise, All, CapsOk, Kinds, EndOfClass, SetText, SetOk;
    var negated, ms := ps[0].negated, ps[0].members;
    FirstPiece(pat, p, ps);
    RestsInside(pat, p + |PieceText(ps[0])|, ps[1..]);
    StandsSplit(pat, p, [ESC, 'f' as int], SetText(negated, ms));
    StandsAt(pat, p, [ESC, 'f' as int], 0);
    StandsAt(pat, p, [ESC, 'f' as int], 1);
    SetRead(pat, p + 2, negated, ms);
    CapturesFirst(ps, Kinds(caps));
    var ep := p + 2 + |SetText(negated, ms)|;
    AllFrontier(src, pat, p, ep, s, caps, d);
    NoErrors(src, pat, ep, ps[1..], s, caps, d);
    NoneRaised();
  }

  lemma AllFrontier(src: seq<int>, pat: seq<int>, p: int, ep: int, s: int, caps: seq<Capture>, d: nat)
    requires 0 <= p && p + 3 < |pat| && pat[p] == ESC && pat[p + 1] == 'f' as int && pat[p + 2] == '[' as int
    requires EndOfClass(pat, p + 2) == At(ep) && 0 <= s <= |src| && CapsOk(caps, s) && d <= MAX_XLEVEL
    ensures All(src, pat, p, s, caps, d) == [] || All(src, pat, p, s, caps, d) == All(src, pat, ep, s, caps, d)
  {
    hide EndOfClass, InBrackets;
  }

  lemma CharsFine(src: seq<int>, pat: seq<int>, p: int, ps: seq<Piece>, s: int, caps: seq<Capture>, d: nat)
    requires Fits(src, pat, p, ps, s, caps, d) && ps != [] && ps[0].Chars?
    ensures 0 <= p <= |pat| && NoRaise(All(src, pat, p, s, caps, d))
    decreases |ps|, 4
  {
    hide Rests, Stands, PiecesOk, CapturesOk, NoRaise, All, Item, Nested, EndOfClass, Special, AtomText, AtomOk, CapsOk,
      Kinds, Greedy, Lazy, ItemMatches, Matches;
    PiecesFirst(ps);
    CapturesFirst(ps, Kinds(caps));
    CharsRead(src, pat, p, ps, s, caps, 0, []);
    CharsStart(pat, p, ps);
    var r, rest, ep := ps[0].rep, ps[1..], p + |AtomText(ps[0].atom)|;
    var q := ep + |RepText(r)|;
    AllOrdinary(src, pat, p, ep, s, caps, d);
    ItemIs(src, pat, p, ep, s, caps, d);
    NoneRaised();
    CapsLater(caps, s, s + 1);
    match r
    case Once =>
      if SingleAt(src, pat, s, p, ep) { NoErrors(src, pat, q, rest, s + 1, caps, d); }
    case Optional =>
      NoErrors(src, pat, q, rest, s, caps, d);
      if SingleAt(src, pat, s, p, ep) {
        NestedFine(src, pat, q, rest, s + 1, caps, d);
        NoRaiseBoth(Nested(src, pat, q, s + 1, caps, d), All(src, pat, q, s, caps, d));
      } else {
        assert [] + All(src, pat, q, s, caps, d) == All(src, pat, q, s, caps, d);
      }
    case Star => GreedyFine(src, pat, q, rest, s, RunLength(src, pat, s, p, ep), caps, d);
    case Plus =>
      if SingleAt(src, pat, s, p, ep) {
        GreedyFine(src, pat, q, rest, s + 1, RunLength(src, pat, s + 1, p, ep), caps, d);
      }
    case Minus => LazyFine(src, pat, p, ep, rest, s, caps, d);
  }

  lemma CharsStart(pat: seq<int>, p: int, ps: seq<Piece>)
    requires Rests(pat, p, ps) && PiecesOk(ps) && ps != [] && ps[0].Chars?
    ensures 0 <= p < |pat| && !Special(pat, p)
  {
    hide Rests, Stands, PiecesOk, EndOfClass, Special, AtomText, AtomOk;
    var a, r := ps[0].atom, ps[0].rep;
    PiecesFirst(ps);
    FirstPiece(pat, p, ps);
    RestsInside(pat, p + |PieceText(ps[0])|, ps[1..]);
    StandsSplit(pat, p, AtomText(a), RepText(r));
    if !r.Once? { StandsAt(pat, p + |AtomText(a)|, RepText(r), 0); }
    NoZero(ps[1..]);
    NotSpecial(pat, p, a, r, PatternText(ps[1..]));
  }

  lemma AllOrdinary(src: seq<int>, pat: seq<int>, p: int, ep: int, s: int, caps: seq<Capture>, d: nat)
    requires 0 <= p < |pat| && !Special(pat, p) && EndOfClass(pat, p) == At(ep)
    requires 0 <= s <= |src| && CapsOk(caps, s) && d <= MAX_XLEVEL
    ensures All(src, pat, p, s, caps, d) == Item(src, pat, p, ep, s, caps, d)
  {
    hide EndOfClass, Item;
  }

  lemma {:induction false} GreedyFine(
      src: seq<int>, pat: seq<int>, p: int, ps: seq<Piece>, s: int, n: int, caps: seq<Capture>, d: nat)
    requires Fits(src, pat, p, ps, s, caps, d + 1) && -1 <= n && s + n <= |src|
    ensures 0 <= p <= |pat| && NoRaise(Greedy(src, pat, p, s, n, caps, d))
    decreases |ps|, 7, n + 1
  {
    hide Rests, PiecesOk, CapturesOk, NoRaise, CapsOk, Kinds;
    RestsInside(pat, p, ps);
    if n >= 0 {
      CapsLater(caps, s, s + n);
      NestedFine(src, pat, p, ps, s + n, caps, d);
      GreedyFine(src, pat, p, ps, s, n - 1, caps, d);
      NoRaiseBoth(Nested(src, pat, p, s + n, caps, d), Greedy(src, pat, p, s, n - 1, caps, d));
    } else {
      NoneRaised();
    }
  }

  lemma {:induction false} LazyFine(
      src: seq<int>, pat: seq<int>, p: int, ep: int, ps: seq<Piece>, s: int, caps: seq<Capture>, d: nat)
    requires Fits(src, pat, ep + 1, ps, s, caps, d + 1)
    requires 0 <= p < |pat| && EndOfClass(pat, p) == At(ep) && ep < |pat|
    ensures NoRaise(Lazy(src, pat, p, ep, s, caps, d))
    decreases |ps|, 7, |src| - s
  {
    hide Rests, PiecesOk, CapturesOk, NoRaise, CapsOk, Kinds, EndOfClass;
    NestedFine(src, pat, ep + 1, ps, s, caps, d);
    if SingleAt(src, pat, s, p, ep) {
      CapsLater(caps, s, s + 1);
      LazyFine(src, pat, p, ep, ps, s + 1, caps, d);
      NoRaiseBoth(Nested(src, pat, ep + 1, s, caps, d), Lazy(src, pat, p, ep, s + 1, caps, d));
    }
  }

  // ----- What the matcher answers -----

  /**
   * For a pattern written from pieces, fewer than 200, with captures in order, the matcher raises no error. It answers
   * with an instance of the pieces, and that nothing matches only if there is none.
   */
  lemma PatternMeaning(src: seq<int>, pat: seq<int>, p: int, ps: seq<Piece>, s: int, e: int, out: seq<Capture>)
    requires Rests(pat, p, ps) && PiecesOk(ps) && CapturesOk(ps, []) && |ps| < 200 && Bytes(src) && 0 <= s <= |src|
    ensures 0 <= p <= |pat|
    ensures var r := MatchAt(src, pat, p, s);
      && !r.Failed?
      && (r.Found? ==> Instance(src, ps, s, [], r.end, r.caps))
      && (r == NoMatch ==> !Instance(src, ps, s, [], e, out))
  {
    hide Rests, PiecesOk, CapturesOk, Instance, Matches, NoRaise, All, Bytes, BestNested;
    RestsInside(pat, p, ps);
    NestedBest(src, pat, p, s);
    assert Kinds([]) == [];
    NestedFine(src, pat, p, ps, s, [], 0);
    var all := Nested(src, pat, p, s, [], 0);
    FirstFine(all);
    NotDeep(all);
    if all == [] {
      NestedInstances(src, pat, p, s, [], 0, e, out);
      InstanceExactly(src, pat, p, ps, s, [], e, out);
    } else if all[0].Success? {
      NestedInstances(src, pat, p, s, [], 0, all[0].end, all[0].caps);
      InstanceExactly(src, pat, p, ps, s, [], all[0].end, all[0].caps);
    }
  }

  lemma NestedBest(src: seq<int>, pat: seq<int>, p: int, s: int)
    requires 0 <= p <= |pat| && 0 <= s <= |src|
    ensures BestNested(src, pat, p, s, [], 0) == First(Nested(src, pat, p, s, [], 0))
  {}

  lemma FirstFine(all: seq<Outcome>)
    requires NoRaise(all)
    ensures all != [] ==> all[0].Success? && all[0] in all
  {}

  lemma NotDeep(all: seq<Outcome>)
    requires NoRaise(all)
    ensures !Deep(all)
  {}
}
