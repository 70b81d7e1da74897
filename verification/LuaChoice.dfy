/** Which of its instances the matcher takes: the order in which repetitions are tried. */
module LuaChoice {
  import opened LuaChars
  import opened LuaPattern
  import opened LuaRelation
  import opened LuaSyntax
  import opened LuaMeaning
  import opened LuaCorrect

  /** A pattern that starts with a repeated or single item, at a place of the subject. */
  predicate Starts(src: seq<int>, pat: seq<int>, p: int, ps: seq<Piece>, s: int, caps: seq<Capture>, d: nat) {
    && Rests(pat, p, ps) && PiecesOk(ps) && Bytes(src) && ps != [] && ps[0].Chars?
    && 0 <= s <= |src| && CapsOk(caps, s) && d <= MAX_XLEVEL
  }

  /** Where the rest of the pattern is written. */
  function Behind(p: int, ps: seq<Piece>): int
    requires ps != []
  {
    p + |PieceText(ps[0])|
  }

  /** What is known of the first piece. */
  lemma Started(src: seq<int>, pat: seq<int>, p: int, ps: seq<Piece>, s: int, caps: seq<Capture>, d: nat)
    requires Starts(src, pat, p, ps, s, caps, d)
    ensures 0 <= p < |pat| && 0 <= Behind(p, ps) <= |pat|
    ensures var a, r, ep, q := ps[0].atom, ps[0].rep, p + |AtomText(ps[0].atom)|, Behind(p, ps);
      && EndOfClass(pat, p) == At(ep) && ep <= |pat| && CapsOk(caps, s + 1)
      && AtomOk(a) && Stands(pat, p, AtomText(a))
      && (SingleAt(src, pat, s, p, ep) <==> OneAt(src, a, s))
      && (!r.Once? ==> q == ep + 1 && ep < |pat|)
      && var all := All(src, pat, p, s, caps, d);
         && (r.Once? ==> all == if OneAt(src, a, s) then All(src, pat, q, s + 1, caps, d) else [])
         && (r.Optional? ==>
               all == (if OneAt(src, a, s) then Nested(src, pat, q, s + 1, caps, d) else [])
                      + All(src, pat, q, s, caps, d))
         && (r.Star? ==> all == Greedy(src, pat, q, s, RunLength(src, pat, s, p, ep), caps, d))
         && (r.Plus? && OneAt(src, a, s) ==>
               all == Greedy(src, pat, q, s + 1, RunLength(src, pat, s + 1, p, ep), caps, d))
         && (r.Plus? && !OneAt(src, a, s) ==> all == [])
         && (r.Minus? ==> all == Lazy(src, pat, p, ep, s, caps, d))
  {
    hide Rests, Stands, PiecesOk, All, Item, Nested, EndOfClass, Special, AtomText, AtomOk, CapsOk, Greedy, Lazy,
      ItemMatches, Matches, Bytes, OneAt, SingleAt, RunLength;
    var ep := p + |AtomText(ps[0].atom)|;
    CharsRead(src, pat, p, ps, s, caps, 0, []);
    CharsStart(pat, p, ps);
    RestsInside(pat, Behind(p, ps), ps[1..]);
    AtomAt(src, pat, p, ps[0].atom, s);
    AllOrdinary(src, pat, p, ep, s, caps, d);
    ItemIs(src, pat, p, ep, s, caps, d);
  }

  /** A run of at least so many characters. */
  predicate Run(src: seq<int>, a: Atom, least: nat, s: int, t: int) { s + least <= t && RunOf(src, a, s, t) }

  lemma RunReaches(src: seq<int>, pat: seq<int>, p: int, a: Atom, s: int, t: int)
    requires Stands(pat, p, AtomText(a)) && AtomOk(a) && Bytes(src) && 0 <= s <= |src|
    ensures 0 <= p < |pat| && EndOfClass(pat, p) == At(p + |AtomText(a)|)
    ensures RunOf(src, a, s, t) <==> s <= t <= s + RunLength(src, pat, s, p, p + |AtomText(a)|)
  {
    hide Stands, AtomOk, AtomText, Span, RunOf, EndOfClass;
    AtomRun(src, pat, p, a, s, t);
    RunIsSpan(src, pat, s, t, p, p + |AtomText(a)|);
  }

  lemma RunFirst(src: seq<int>, a: Atom, s: int, t: int)
    ensures Run(src, a, 1, s, t) <==> OneAt(src, a, s) && RunOf(src, a, s + 1, t)
  {}

  /** A single item takes one character. */
  lemma OnceTakes(src: seq<int>, pat: seq<int>, p: int, ps: seq<Piece>, s: int, caps: seq<Capture>, d: nat)
    requires Starts(src, pat, p, ps, s, caps, d) && ps[0].rep.Once?
    ensures 0 <= p <= |pat| && 0 <= Behind(p, ps) <= |pat| && CapsOk(caps, s + 1)
    ensures Best(src, pat, p, s, caps, d) ==
      if OneAt(src, ps[0].atom, s) then Best(src, pat, Behind(p, ps), s + 1, caps, d) else NoMatch
  {
    hide All, OneAt, CapsOk, Rests, PiecesOk, Bytes;
    Started(src, pat, p, ps, s, caps, d);
    OneInside(src, ps[0].atom, s);
  }

  lemma OneInside(src: seq<int>, a: Atom, s: int)
    ensures OneAt(src, a, s) ==> 0 <= s < |src|
  {}

  /** `?` takes a character if the rest matches behind it, and else none. */
  lemma OptionalTakes(src: seq<int>, pat: seq<int>, p: int, ps: seq<Piece>, s: int, caps: seq<Capture>, d: nat)
    requires Starts(src, pat, p, ps, s, caps, d) && ps[0].rep.Optional?
    ensures 0 <= p <= |pat| && 0 <= Behind(p, ps) <= |pat|
    ensures Best(src, pat, p, s, caps, d) ==
      if OneAt(src, ps[0].atom, s) && RestAt(src, pat, Behind(p, ps), s + 1, caps, d) != NoMatch
      then RestAt(src, pat, Behind(p, ps), s + 1, caps, d)
      else Best(src, pat, Behind(p, ps), s, caps, d)
  {
    hide All, Nested, OneAt, CapsOk, Rests, PiecesOk, Bytes;
    Started(src, pat, p, ps, s, caps, d);
    OneInside(src, ps[0].atom, s);
    var q := Behind(p, ps);
    var first := if OneAt(src, ps[0].atom, s) then Nested(src, pat, q, s + 1, caps, d) else [];
    FirstOf(first, All(src, pat, q, s, caps, d));
  }

  /** `*` and `+` take the longest run behind which the rest matches. */
  lemma LongestTaken(
      src: seq<int>, pat: seq<int>, p: int, ps: seq<Piece>, s: int, caps: seq<Capture>, d: nat, t: int)
    requires Starts(src, pat, p, ps, s, caps, d) && (ps[0].rep.Star? || ps[0].rep.Plus?)
    requires 0 <= Behind(p, ps) <= |pat|
    requires var a, q, least := ps[0].atom, Behind(p, ps), if ps[0].rep.Plus? then 1 else 0;
      && Run(src, a, least, s, t) && RestAt(src, pat, q, t, caps, d) != NoMatch
      && forall u :: t < u && Run(src, a, least, s, u) ==> RestAt(src, pat, q, u, caps, d) == NoMatch
    ensures 0 <= p <= |pat| && Best(src, pat, p, s, caps, d) == RestAt(src, pat, Behind(p, ps), t, caps, d)
  {
    hide All, Nested, Greedy, RestAt, Rests, PiecesOk, Stands, AtomOk, AtomText, EndOfClass, OneAt, RunOf, RunLength,
      SingleAt, Bytes;
    Started(src, pat, p, ps, s, caps, d);
    var a, q, ep := ps[0].atom, Behind(p, ps), p + |AtomText(ps[0].atom)|;
    var from := if ps[0].rep.Plus? then s + 1 else s;
    RunFirst(src, a, s, t);
    OneInside(src, a, s);
    RunReaches(src, pat, p, a, from, t);
    forall k | t < k <= from + RunLength(src, pat, from, p, ep)
      ensures RestAt(src, pat, q, k, caps, d) == NoMatch
    {
      RunFirst(src, a, s, k);
      RunReaches(src, pat, p, a, from, k);
      assert Run(src, a, from - s, s, k);
    }
    LongestFirst(src, pat, q, from, RunLength(src, pat, from, p, ep), caps, d, t);
  }

  /** When the rest matches behind no run, nothing does. */
  lemma NoneTaken(src: seq<int>, pat: seq<int>, p: int, ps: seq<Piece>, s: int, caps: seq<Capture>, d: nat)
    requires Starts(src, pat, p, ps, s, caps, d) && (ps[0].rep.Star? || ps[0].rep.Plus? || ps[0].rep.Minus?)
    requires 0 <= Behind(p, ps) <= |pat|
    requires forall u :: Run(src, ps[0].atom, if ps[0].rep.Plus? then 1 else 0, s, u) ==>
      RestAt(src, pat, Behind(p, ps), u, caps, d) == NoMatch
    ensures 0 <= p <= |pat| && Best(src, pat, p, s, caps, d) == NoMatch
  {
    hide All, Nested, Greedy, Lazy, RestAt, Rests, PiecesOk, Stands, AtomOk, AtomText, EndOfClass, OneAt, RunOf,
      RunLength, SingleAt, Bytes;
    Started(src, pat, p, ps, s, caps, d);
    var a, q, ep := ps[0].atom, Behind(p, ps), p + |AtomText(ps[0].atom)|;
    var from := if ps[0].rep.Plus? then s + 1 else s;
    OneInside(src, a, s);
    if !ps[0].rep.Plus? || OneAt(src, a, s) {
      forall k | from <= k <= from + RunLength(src, pat, from, p, ep)
        ensures RestAt(src, pat, q, k, caps, d) == NoMatch
      {
        RunFirst(src, a, s, k);
        RunReaches(src, pat, p, a, from, k);
        assert Run(src, a, from - s, s, k);
      }
      if ps[0].rep.Minus? {
        NoneLazy(src, pat, p, ep, s, caps, d, q);
      } else {
        NoneGreedy(src, pat, q, from, RunLength(src, pat, from, p, ep), caps, d);
      }
    }
  }

  /** `-` takes the shortest run behind which the rest matches. */
  lemma ShortestTaken(
      src: seq<int>, pat: seq<int>, p: int, ps: seq<Piece>, s: int, caps: seq<Capture>, d: nat, t: int)
    requires Starts(src, pat, p, ps, s, caps, d) && ps[0].rep.Minus? && 0 <= Behind(p, ps) <= |pat|
    requires RunOf(src, ps[0].atom, s, t) && RestAt(src, pat, Behind(p, ps), t, caps, d) != NoMatch
    requires forall u :: s <= u < t ==> RestAt(src, pat, Behind(p, ps), u, caps, d) == NoMatch
    ensures 0 <= p <= |pat| && Best(src, pat, p, s, caps, d) == RestAt(src, pat, Behind(p, ps), t, caps, d)
  {
    hide All, Nested, Lazy, RestAt, Rests, PiecesOk, Stands, AtomOk, AtomText, EndOfClass, OneAt, RunOf, RunLength,
      SingleAt, Bytes;
    Started(src, pat, p, ps, s, caps, d);
    var ep := p + |AtomText(ps[0].atom)|;
    RunReaches(src, pat, p, ps[0].atom, s, t);
    ShortestFirst(src, pat, p, ep, s, caps, d, t, Behind(p, ps));
  }

  lemma {:induction false} NoneLazy(
      src: seq<int>, pat: seq<int>, p: int, ep: int, s: int, caps: seq<Capture>, d: nat, q: int)
    requires 0 <= p < |pat| && EndOfClass(pat, p) == At(ep) && ep < |pat| && 0 <= s <= |src| && q == ep + 1
    requires CapsOk(caps, s) && d <= MAX_XLEVEL
    requires forall k :: s <= k <= s + RunLength(src, pat, s, p, ep) ==> RestAt(src, pat, q, k, caps, d) == NoMatch
    ensures First(Lazy(src, pat, p, ep, s, caps, d)) == NoMatch
    decreases |src| - s
  {
    CapsLater(caps, s, s + 1);
    assert RestAt(src, pat, q, s, caps, d) == NoMatch;
    if SingleAt(src, pat, s, p, ep) {
      NoneLazy(src, pat, p, ep, s + 1, caps, d, q);
      FirstOf(Nested(src, pat, q, s, caps, d), Lazy(src, pat, p, ep, s + 1, caps, d));
    }
  }
}
