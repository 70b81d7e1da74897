/** What a pattern means, piece by piece, and that the matcher finds just that. */
module LuaMeaning {
  import opened LuaChars
  import opened LuaPattern
  import opened LuaRelation
  import opened LuaSets
  import opened LuaSyntax

  predicate Bytes(src: seq<int>) { forall i :: 0 <= i < |src| ==> 0 <= src[i] < 256 }

  /** An atom admits the character at `s`. */
  predicate OneAt(src: seq<int>, a: Atom, s: int) { 0 <= s < |src| && AtomAdmits(a, src[s]) }

  /** An atom admits all characters from `s` up to `t`. */
  predicate RunOf(src: seq<int>, a: Atom, s: int, t: int) {
    0 <= s <= t <= |src| && forall i :: s <= i < t ==> AtomAdmits(a, src[i])
  }

  /** From the `x` at `s` up to `t` as many `x` are opened as `y` are closed, and not before. */
  ghost predicate BalancedTo(src: seq<int>, x: int, y: int, s: int, t: int) {
    0 <= s < t <= |src| && src[s] == x && ClosesAt(src, x, y, s + 1, t)
  }

  /** One more is closed than opened from `f` up to `t`, and nowhere before. */
  ghost predicate ClosesAt(src: seq<int>, x: int, y: int, f: int, t: int) {
    0 <= f <= t <= |src| && Excess(src, x, y, f, t) == -1 && forall i :: f <= i < t ==> Excess(src, x, y, f, i) >= 0
  }

  /** The pieces match the subject from `s` up to `e` and turn the captures into `out`. */
  ghost predicate Instance(src: seq<int>, ps: seq<Piece>, s: int, caps: seq<Capture>, e: int, out: seq<Capture>)
    requires 0 <= s <= |src|
    decreases |ps|, 0
  {
    if ps == [] then e == s && out == caps
    else
      var rest := ps[1..];
      match ps[0]
      case Chars(a, Once) => OneAt(src, a, s) && Instance(src, rest, s + 1, caps, e, out)
      case Chars(a, Optional) =>
        (OneAt(src, a, s) && Instance(src, rest, s + 1, caps, e, out)) || Instance(src, rest, s, caps, e, out)
      case Chars(a, Plus) => AfterRun(src, a, 1, rest, s, caps, e, out)
      case Chars(a, _) => AfterRun(src, a, 0, rest, s, caps, e, out)
      case Open => |caps| < 32 && Instance(src, rest, s, caps + [Capture(s, CAP_UNFINISHED)], e, out)
      case Here => |caps| < 32 && Instance(src, rest, s, caps + [Capture(s, CAP_POSITION)], e, out)
      case Close =>
        var l := LastOpen(caps);
        l >= 0 && Instance(src, rest, s, caps[l := Capture(caps[l].start, s - caps[l].start)], e, out)
      case Balanced(x, y) => exists t :: BalancedTo(src, x, y, s, t) && Instance(src, rest, t, caps, e, out)
      case Frontier(negated, ms) =>
        && negated == SomeAdmits(ms, if s == 0 then 0 else src[s - 1])
        && negated != SomeAdmits(ms, Char(src, s))
        && Instance(src, rest, s, caps, e, out)
      case Back(k) =>
        && 1 <= k <= |caps| && Again(src, s, caps[k - 1])
        && Instance(src, rest, s + caps[k - 1].len, caps, e, out)
      case End => s == |src| && Instance(src, rest, s, caps, e, out)
  }

  /** At least so many characters that the atom admits, and then the rest. */
  ghost predicate AfterRun(
      src: seq<int>, a: Atom, least: nat, rest: seq<Piece>, s: int, caps: seq<Capture>, e: int, out: seq<Capture>)
    decreases |rest|, 1
  {
    exists t :: s + least <= t && RunOf(src, a, s, t) && Instance(src, rest, t, caps, e, out)
  }

  /** The pattern from `p` on is the text of the pieces. */
  predicate Rests(pat: seq<int>, p: int, ps: seq<Piece>) { 0 <= p <= |pat| && pat[p..] == PatternText(ps) }

  lemma FirstPiece(pat: seq<int>, p: int, ps: seq<Piece>)
    requires Rests(pat, p, ps) && ps != []
    ensures var q := p + |PieceText(ps[0])|;
      && Stands(pat, p, PieceText(ps[0])) && Rests(pat, q, ps[1..])
      && (PatternText(ps[1..]) == [] ==> q == |pat|)
      && (PatternText(ps[1..]) != [] ==> q < |pat| && pat[q] == PatternText(ps[1..])[0])
  {
    var a, b, q := PieceText(ps[0]), PatternText(ps[1..]), p + |PieceText(ps[0])|;
    assert pat[p..] == a + b && |pat| == p + |a| + |b|;
    assert pat[p..q] == (a + b)[..|a|] == a;
    assert pat[q..] == (a + b)[|a|..] == b;
  }

  // ----- One piece at a time -----

  lemma AtomAt(src: seq<int>, pat: seq<int>, p: int, a: Atom, s: int)
    requires Stands(pat, p, AtomText(a)) && AtomOk(a) && Bytes(src) && 0 <= s <= |src|
    ensures 0 <= p < |pat| && EndOfClass(pat, p) == At(p + |AtomText(a)|)
    ensures SingleAt(src, pat, s, p, p + |AtomText(a)|) <==> OneAt(src, a, s)
  {
    hide Stands, AtomOk, AtomAdmits, AtomText, Single, EndOfClass;
    AtomStart(pat, p, a);
    if s < |src| { ItemMeaning(pat, p, a, src[s]); }
  }

  lemma AtomStart(pat: seq<int>, p: int, a: Atom)
    requires Stands(pat, p, AtomText(a)) && AtomOk(a)
    ensures 0 <= p < |pat| && EndOfClass(pat, p) == At(p + |AtomText(a)|)
  {
    hide SetOk, SetText, EndOfClass;
    AtomRead(pat, p, a);
  }

  lemma AtomRun(src: seq<int>, pat: seq<int>, p: int, a: Atom, s: int, t: int)
    requires Stands(pat, p, AtomText(a)) && AtomOk(a) && Bytes(src)
    ensures 0 <= p < |pat| && EndOfClass(pat, p) == At(p + |AtomText(a)|)
    ensures Span(src, pat, s, t, p, p + |AtomText(a)|) <==> RunOf(src, a, s, t)
  {
    hide Stands, AtomOk, AtomAdmits, AtomText, Single, EndOfClass;
    AtomStart(pat, p, a);
    if 0 <= s <= t <= |src| {
      forall i | s <= i < t ensures Single(pat, src[i], p, p + |AtomText(a)|) <==> AtomAdmits(a, src[i]) {
        ItemMeaning(pat, p, a, src[i]);
      }
    }
  }

  /** The text of a piece of characters is read as a class with its repetition. */
  lemma CharsRead(
      src: seq<int>, pat: seq<int>, p: int, ps: seq<Piece>, s: int, caps: seq<Capture>, e: int, out: seq<Capture>)
    requires Rests(pat, p, ps) && PiecesOk(ps) && ps != [] && ps[0].Chars? && 0 <= s <= |src|
    ensures var a, r, ep := ps[0].atom, ps[0].rep, p + |AtomText(ps[0].atom)|;
      && AtomOk(a) && Stands(pat, p, AtomText(a)) && 0 <= p < |pat| && EndOfClass(pat, p) == At(ep) && ep <= |pat|
      && Rests(pat, ep + |RepText(r)|, ps[1..])
      && (r.Once? ==> !Repeating(Char(pat, ep)))
      && (!r.Once? ==> Char(pat, ep) == RepText(r)[0])
      && (Matches(src, pat, p, s, caps, e, out) <==> ItemMatches(src, pat, p, ep, s, caps, e, out))
  {
    hide Stands, SetOk, SetText, EndOfClass, Matches, ItemMatches, Special, AtomOk, AtomText, PiecesOk, Rests;
    var a, r := ps[0].atom, ps[0].rep;
    PiecesFirst(ps);
    FirstPiece(pat, p, ps);
    RestsInside(pat, p + |PieceText(ps[0])|, ps[1..]);
    StandsSplit(pat, p, AtomText(a), RepText(r));
    AtomStart(pat, p, a);
    var ep := p + |AtomText(a)|;
    if !r.Once? { StandsAt(pat, ep, RepText(r), 0); }
    NoZero(ps[1..]);
    NotSpecial(pat, p, a, r, PatternText(ps[1..]));
    MatchesItem(src, pat, p, ep, s, caps, e, out);
  }

  lemma PiecesFirst(ps: seq<Piece>)
    requires PiecesOk(ps) && ps != []
    ensures PieceOk(ps[0], PatternText(ps[1..])) && PiecesOk(ps[1..])
  {}

  lemma RestsInside(pat: seq<int>, p: int, ps: seq<Piece>)
    requires Rests(pat, p, ps)
    ensures 0 <= p <= |pat|
  {}

  lemma MatchesItem(
      src: seq<int>, pat: seq<int>, p: int, ep: int, s: int, caps: seq<Capture>, e: int, out: seq<Capture>)
    requires 0 <= p < |pat| && EndOfClass(pat, p) == At(ep) && 0 <= s <= |src| && !Special(pat, p)
    ensures Matches(src, pat, p, s, caps, e, out) <==> ItemMatches(src, pat, p, ep, s, caps, e, out)
  {}

  /** What starts at `p` is no item. */
  predicate Special(pat: seq<int>, p: int)
    requires 0 <= p < |pat|
  {
    var c, d := pat[p], Char(pat, p + 1);
    || c == 0 || c == '(' as int || c == ')' as int || (c == '$' as int && d == 0)
    || (c == ESC && (d == 'b' as int || d == 'f' as int || Digit(d)))
  }

  lemma NotSpecial(pat: seq<int>, p: int, a: Atom, r: Rep, rest: seq<int>)
    requires Stands(pat, p, AtomText(a)) && AtomOk(a) && PieceOk(Chars(a, r), rest)
    requires 0 <= p + |AtomText(a)| <= |pat|
    requires r.Once? && rest != [] ==> Char(pat, p + |AtomText(a)|) == rest[0]
    requires !r.Once? ==> Char(pat, p + |AtomText(a)|) == RepText(r)[0]
    requires r.Once? && rest != [] ==> rest[0] != 0
    ensures 0 <= p < |pat| && !Special(pat, p)
  {
    hide Stands, SetOk, SetText;
    AtomStart(pat, p, a);
    if a.Set? { SetFirst(a.negated, a.members); }
    StandsAt(pat, p, AtomText(a), 0);
    match a
    case Escaped(l) => StandsAt(pat, p, AtomText(a), 1);
    case _ =>
  }

  lemma NoZero(ps: seq<Piece>)
    requires PiecesOk(ps)
    ensures PatternText(ps) == [] || PatternText(ps)[0] != 0
  {
    if ps != [] && ps[0].Chars? && ps[0].atom.Set? { SetFirst(ps[0].atom.negated, ps[0].atom.members); }
  }

  lemma SetFirst(negated: bool, ms: seq<Member>)
    ensures |SetText(negated, ms)| > 0 && SetText(negated, ms)[0] == '[' as int
  {}

  // ----- All pieces -----

  /** The relation on the pattern as it is written is that of its pieces. */
  lemma {:induction false} InstanceExactly(
      src: seq<int>, pat: seq<int>, p: int, ps: seq<Piece>, s: int, caps: seq<Capture>, e: int, out: seq<Capture>)
    requires Rests(pat, p, ps) && PiecesOk(ps) && Bytes(src) && 0 <= s <= |src|
    ensures Matches(src, pat, p, s, caps, e, out) <==> Instance(src, ps, s, caps, e, out)
    decreases |ps|, 5
  {
    hide Matches, Instance, PiecesOk, Rests;
    if ps == [] {
      EmptyExactly(src, pat, p, s, caps, e, out);
    } else {
      PiecesFirst(ps);
      match ps[0]
      case Chars(_, _) => CharsExactly(src, pat, p, ps, s, caps, e, out);
      case Balanced(_, _) => BalancedExactly(src, pat, p, ps, s, caps, e, out);
      case Frontier(_, _) => FrontierExactly(src, pat, p, ps, s, caps, e, out);
      case Back(_) => BackExactly(src, pat, p, ps, s, caps, e, out);
      case Open => OpenExactly(src, pat, p, ps, s, caps, e, out);
      case Here => HereExactly(src, pat, p, ps, s, caps, e, out);
      case Close => CloseExactly(src, pat, p, ps, s, caps, e, out);
      case End => EndExactly(src, pat, p, ps, s, caps, e, out);
    }
  }

  lemma EmptyExactly(src: seq<int>, pat: seq<int>, p: int, s: int, caps: seq<Capture>, e: int, out: seq<Capture>)
    requires Rests(pat, p, []) && 0 <= s <= |src|
    ensures 0 <= p <= |pat|
    ensures Matches(src, pat, p, s, caps, e, out) <==> Instance(src, [], s, caps, e, out)
  {
    assert |pat[p..]| == 0;
  }

  /** The first piece as it stands, with what can be read of it and behind it. */
  lemma PieceFollowed(pat: seq<int>, p: int, ps: seq<Piece>)
    requires Rests(pat, p, ps) && PiecesOk(ps) && ps != []
    ensures 0 <= p < |pat| && pat[p] == PieceText(ps[0])[0] && Rests(pat, p + |PieceText(ps[0])|, ps[1..])
    ensures |PieceText(ps[0])| > 1 ==> Char(pat, p + 1) == PieceText(ps[0])[1]
    ensures |PieceText(ps[0])| == 1 && ps[1..] == [] ==> Char(pat, p + 1) == 0
    ensures |PieceText(ps[0])| == 1 && ps[1..] != [] ==>
      Char(pat, p + 1) != 0 && PatternText(ps[1..]) != [] && Char(pat, p + 1) == PatternText(ps[1..])[0]
    ensures PiecesOk(ps[1..])
  {
    hide Rests, Stands, PieceText;
    FirstPiece(pat, p, ps);
    PieceWritten(ps[0]);
    StandsAt(pat, p, PieceText(ps[0]), 0);
    if |PieceText(ps[0])| > 1 { StandsAt(pat, p, PieceText(ps[0]), 1); }
    if ps[1..] != [] {
      NoZero(ps[1..]);
      PieceWritten(ps[1]);
    }
  }

  lemma PieceWritten(p: Piece)
    ensures |PieceText(p)| > 0
  {
    if p.Chars? && p.atom.Set? { SetFirst(p.atom.negated, p.atom.members); }
  }

  lemma NothingWritten(ps: seq<Piece>)
    requires PatternText(ps) == []
    ensures ps == []
  {
    if ps != [] { PieceWritten(ps[0]); }
  }

  lemma OpenExactly(
      src: seq<int>, pat: seq<int>, p: int, ps: seq<Piece>, s: int, caps: seq<Capture>, e: int, out: seq<Capture>)
    requires Rests(pat, p, ps) && PiecesOk(ps) && Bytes(src) && 0 <= s <= |src| && ps != [] && ps[0].Open?
    ensures 0 <= p <= |pat|
    ensures Matches(src, pat, p, s, caps, e, out) <==> Instance(src, ps, s, caps, e, out)
    decreases |ps|, 4
  {
    hide Rests, Stands, Matches, Instance;
    PieceFollowed(pat, p, ps);
    RestsInside(pat, p + |PieceText(ps[0])|, ps[1..]);
    MatchesOpen(src, pat, p, s, caps, e, out);
    InstanceOpen(src, ps, s, caps, e, out);
    InstanceExactly(src, pat, p + 1, ps[1..], s, caps + [Capture(s, CAP_UNFINISHED)], e, out);
  }

  lemma MatchesOpen(src: seq<int>, pat: seq<int>, p: int, s: int, caps: seq<Capture>, e: int, out: seq<Capture>)
    requires 0 <= p < |pat| && pat[p] == '(' as int && Char(pat, p + 1) != ')' as int && 0 <= s <= |src|
    ensures Matches(src, pat, p, s, caps, e, out) <==>
      |caps| < 32 && Matches(src, pat, p + 1, s, caps + [Capture(s, CAP_UNFINISHED)], e, out)
  {}

  lemma InstanceOpen(src: seq<int>, ps: seq<Piece>, s: int, caps: seq<Capture>, e: int, out: seq<Capture>)
    requires ps != [] && ps[0].Open? && 0 <= s <= |src|
    ensures Instance(src, ps, s, caps, e, out) <==>
      |caps| < 32 && Instance(src, ps[1..], s, caps + [Capture(s, CAP_UNFINISHED)], e, out)
  {}

  lemma HereExactly(
      src: seq<int>, pat: seq<int>, p: int, ps: seq<Piece>, s: int, caps: seq<Capture>, e: int, out: seq<Capture>)
    requires Rests(pat, p, ps) && PiecesOk(ps) && Bytes(src) && 0 <= s <= |src| && ps != [] && ps[0].Here?
    ensures 0 <= p <= |pat|
    ensures Matches(src, pat, p, s, caps, e, out) <==> Instance(src, ps, s, caps, e, out)
    decreases |ps|, 4
  {
    hide Rests, Stands, Matches, Instance;
    PieceFollowed(pat, p, ps);
    RestsInside(pat, p + |PieceText(ps[0])|, ps[1..]);
    MatchesHere(src, pat, p, s, caps, e, out);
    InstanceHere(src, ps, s, caps, e, out);
    InstanceExactly(src, pat, p + 2, ps[1..], s, caps + [Capture(s, CAP_POSITION)], e, out);
  }

  lemma MatchesHere(src: seq<int>, pat: seq<int>, p: int, s: int, caps: seq<Capture>, e: int, out: seq<Capture>)
    requires 0 <= p && p + 1 < |pat| && pat[p] == '(' as int && pat[p + 1] == ')' as int && 0 <= s <= |src|
    ensures Matches(src, pat, p, s, caps, e, out) <==>
      |caps| < 32 && Matches(src, pat, p + 2, s, caps + [Capture(s, CAP_POSITION)], e, out)
  {}

  lemma InstanceHere(src: seq<int>, ps: seq<Piece>, s: int, caps: seq<Capture>, e: int, out: seq<Capture>)
    requires ps != [] && ps[0].Here? && 0 <= s <= |src|
    ensures Instance(src, ps, s, caps, e, out) <==>
      |caps| < 32 && Instance(src, ps[1..], s, caps + [Capture(s, CAP_POSITION)], e, out)
  {}

  lemma CloseExactly(
      src: seq<int>, pat: seq<int>, p: int, ps: seq<Piece>, s: int, caps: seq<Capture>, e: int, out: seq<Capture>)
    requires Rests(pat, p, ps) && PiecesOk(ps) && Bytes(src) && 0 <= s <= |src| && ps != [] && ps[0].Close?
    ensures 0 <= p <= |pat|
    ensures Matches(src, pat, p, s, caps, e, out) <==> Instance(src, ps, s, caps, e, out)
    decreases |ps|, 4
  {
    hide Rests, Stands, Matches, Instance;
    PieceFollowed(pat, p, ps);
    RestsInside(pat, p + |PieceText(ps[0])|, ps[1..]);
    var l := LastOpen(caps);
    MatchesClose(src, pat, p, s, caps, e, out);
    InstanceClose(src, ps, s, caps, e, out);
    if l >= 0 {
      InstanceExactly(src, pat, p + 1, ps[1..], s, caps[l := Capture(caps[l].start, s - caps[l].start)], e, out);
    }
  }

  lemma MatchesClose(src: seq<int>, pat: seq<int>, p: int, s: int, caps: seq<Capture>, e: int, out: seq<Capture>)
    requires 0 <= p < |pat| && pat[p] == ')' as int && 0 <= s <= |src|
    ensures var l := LastOpen(caps);
      Matches(src, pat, p, s, caps, e, out) <==>
        l >= 0 && Matches(src, pat, p + 1, s, caps[l := Capture(caps[l].start, s - caps[l].start)], e, out)
  {}

  lemma InstanceClose(src: seq<int>, ps: seq<Piece>, s: int, caps: seq<Capture>, e: int, out: seq<Capture>)
    requires ps != [] && ps[0].Close? && 0 <= s <= |src|
    ensures var l := LastOpen(caps);
      Instance(src, ps, s, caps, e, out) <==>
        l >= 0 && Instance(src, ps[1..], s, caps[l := Capture(caps[l].start, s - caps[l].start)], e, out)
  {}

  lemma EndExactly(
      src: seq<int>, pat: seq<int>, p: int, ps: seq<Piece>, s: int, caps: seq<Capture>, e: int, out: seq<Capture>)
    requires Rests(pat, p, ps) && PiecesOk(ps) && Bytes(src) && 0 <= s <= |src| && ps != [] && ps[0].End?
    ensures 0 <= p <= |pat|
    ensures Matches(src, pat, p, s, caps, e, out) <==> Instance(src, ps, s, caps, e, out)
    decreases |ps|, 4
  {
    hide Rests, Stands;
    PieceFollowed(pat, p, ps);
    RestsInside(pat, p + |PieceText(ps[0])|, ps[1..]);
    NothingWritten(ps[1..]);
  }

  lemma BackExactly(
      src: seq<int>, pat: seq<int>, p: int, ps: seq<Piece>, s: int, caps: seq<Capture>, e: int, out: seq<Capture>)
    requires Rests(pat, p, ps) && PiecesOk(ps) && Bytes(src) && 0 <= s <= |src| && ps != [] && ps[0].Back?
    ensures 0 <= p <= |pat|
    ensures Matches(src, pat, p, s, caps, e, out) <==> Instance(src, ps, s, caps, e, out)
    decreases |ps|, 4
  {
    hide Rests, Stands, Matches, Instance, Again;
    PieceFollowed(pat, p, ps);
    RestsInside(pat, p + 2, ps[1..]);
    var k := ps[0].k;
    MatchesBack(src, pat, p, s, caps, e, out);
    InstanceBack(src, ps, s, caps, e, out);
    if 1 <= k <= |caps| && Again(src, s, caps[k - 1]) {
      AgainInside(src, s, caps[k - 1]);
      InstanceExactly(src, pat, p + 2, ps[1..], s + caps[k - 1].len, caps, e, out);
    }
  }

  lemma AgainInside(src: seq<int>, s: int, c: Capture)
    requires Again(src, s, c)
    ensures 0 <= s <= s + c.len <= |src|
  {}

  lemma MatchesBack(src: seq<int>, pat: seq<int>, p: int, s: int, caps: seq<Capture>, e: int, out: seq<Capture>)
    requires 0 <= p && p + 1 < |pat| && pat[p] == ESC && '1' as int <= pat[p + 1] <= '9' as int && 0 <= s <= |src|
    ensures var l := pat[p + 1] - '1' as int;
      Matches(src, pat, p, s, caps, e, out) <==>
        0 <= l < |caps| && Again(src, s, caps[l]) && Matches(src, pat, p + 2, s + caps[l].len, caps, e, out)
  {}

  lemma InstanceBack(src: seq<int>, ps: seq<Piece>, s: int, caps: seq<Capture>, e: int, out: seq<Capture>)
    requires ps != [] && ps[0].Back? && 0 <= s <= |src|
    ensures var k := ps[0].k;
      Instance(src, ps, s, caps, e, out) <==>
        1 <= k <= |caps| && Again(src, s, caps[k - 1])
        && Instance(src, ps[1..], s + caps[k - 1].len, caps, e, out)
  {}

  lemma BalancedExactly(
      src: seq<int>, pat: seq<int>, p: int, ps: seq<Piece>, s: int, caps: seq<Capture>, e: int, out: seq<Capture>)
    requires Rests(pat, p, ps) && PiecesOk(ps) && Bytes(src) && 0 <= s <= |src| && ps != [] && ps[0].Balanced?
    ensures 0 <= p <= |pat|
    ensures Matches(src, pat, p, s, caps, e, out) <==> Instance(src, ps, s, caps, e, out)
    decreases |ps|, 4
  {
    hide Rests, Stands, Matches, Instance, ClosesAt;
    BalancedRead(pat, p, ps);
    var x, y := ps[0].x, ps[0].y;
    MatchesBalanced(src, pat, p, s, caps, e, out);
    if s < |src| && src[s] == x {
      var f, b := s + 1, BalanceEnd(src, x, y, s + 1, 1);
      if b >= 0 {
        EndCloses(src, x, y, f, b);
        InstanceExactly(src, pat, p + 4, ps[1..], b, caps, e, out);
      }
      forall t | ClosesAt(src, x, y, f, t) ensures t == b { EndCloses(src, x, y, f, t); }
      InstanceBalanced(src, ps, s, caps, e, out, b);
    } else {
      InstanceBalanced(src, ps, s, caps, e, out, -1);
    }
  }

  lemma BalancedRead(pat: seq<int>, p: int, ps: seq<Piece>)
    requires Rests(pat, p, ps) && ps != [] && ps[0].Balanced?
    ensures 0 <= p && p + 4 <= |pat| && Rests(pat, p + 4, ps[1..])
    ensures pat[p] == ESC && pat[p + 1] == 'b' as int && pat[p + 2] == ps[0].x && pat[p + 3] == ps[0].y
  {
    hide Rests, Stands;
    FirstPiece(pat, p, ps);
    StandsAt(pat, p, PieceText(ps[0]), 0);
    StandsAt(pat, p, PieceText(ps[0]), 1);
    StandsAt(pat, p, PieceText(ps[0]), 2);
    StandsAt(pat, p, PieceText(ps[0]), 3);
  }

  lemma MatchesBalanced(src: seq<int>, pat: seq<int>, p: int, s: int, caps: seq<Capture>, e: int, out: seq<Capture>)
    requires 0 <= p && p + 4 <= |pat| && pat[p] == ESC && pat[p + 1] == 'b' as int && 0 <= s <= |src|
    requires pat[p + 2] != 0 && pat[p + 3] != 0
    ensures Matches(src, pat, p, s, caps, e, out) <==>
      && s < |src| && src[s] == pat[p + 2]
      && var b := BalanceEnd(src, pat[p + 2], pat[p + 3], s + 1, 1);
         b >= 0 && Matches(src, pat, p + 4, b, caps, e, out)
  {}

  ghost predicate ClosesOnly(src: seq<int>, x: int, y: int, f: int, b: int) {
    forall t :: ClosesAt(src, x, y, f, t) ==> t == b
  }

  /** Where only `b` can close the balance. */
  lemma InstanceBalanced(
      src: seq<int>, ps: seq<Piece>, s: int, caps: seq<Capture>, e: int, out: seq<Capture>, b: int)
    requires ps != [] && ps[0].Balanced? && 0 <= s <= |src|
    requires s < |src| && src[s] == ps[0].x ==> ClosesOnly(src, ps[0].x, ps[0].y, s + 1, b)
    requires b >= 0 ==> ClosesAt(src, ps[0].x, ps[0].y, s + 1, b) && s < |src| && src[s] == ps[0].x
    ensures b >= 0 ==> s < b <= |src|
    ensures Instance(src, ps, s, caps, e, out) <==> b >= 0 && Instance(src, ps[1..], b, caps, e, out)
  {
    if b >= 0 { assert BalancedTo(src, ps[0].x, ps[0].y, s, b); }
    if Instance(src, ps, s, caps, e, out) {
      var t :| BalancedTo(src, ps[0].x, ps[0].y, s, t) && Instance(src, ps[1..], t, caps, e, out);
      assert t == b;
    }
  }

  /** The end that the scan finds is the one place where the balance is reached first. */
  lemma EndCloses(src: seq<int>, x: int, y: int, f: int, t: int)
    requires 0 <= f <= |src|
    ensures ClosesAt(src, x, y, f, t) <==> t >= 0 && t == BalanceEnd(src, x, y, f, 1)
  {
    var r := BalanceEnd(src, x, y, f, 1);
    if ClosesAt(src, x, y, f, t) {
      FirstBalanced(src, x, y, f, 1, t);
    }
    if t >= 0 && t == r {
      FirstBalanced(src, x, y, f, 1, r);
      forall i | f <= i < t ensures Excess(src, x, y, f, i) >= 0 { FirstBalanced(src, x, y, f, 1, i); }
    }
  }

  lemma FrontierExactly(
      src: seq<int>, pat: seq<int>, p: int, ps: seq<Piece>, s: int, caps: seq<Capture>, e: int, out: seq<Capture>)
    requires Rests(pat, p, ps) && PiecesOk(ps) && Bytes(src) && 0 <= s <= |src| && ps != [] && ps[0].Frontier?
    ensures 0 <= p <= |pat|
    ensures Matches(src, pat, p, s, caps, e, out) <==> Instance(src, ps, s, caps, e, out)
    decreases |ps|, 4
  {
    hide Rests, Stands, Matches, Instance, EndOfClass, InBrackets, SetText, SetOk, SomeAdmits;
    var negated, ms := ps[0].negated, ps[0].members;
    FirstPiece(pat, p, ps);
    RestsInside(pat, p + |PieceText(ps[0])|, ps[1..]);
    StandsSplit(pat, p, [ESC, 'f' as int], SetText(negated, ms));
    StandsAt(pat, p, [ESC, 'f' as int], 0);
    StandsAt(pat, p, [ESC, 'f' as int], 1);
    SetBrackets(pat, p + 2, negated, ms, if s == 0 then 0 else src[s - 1]);
    SetBrackets(pat, p + 2, negated, ms, Char(src, s));
    MatchesFrontier(src, pat, p, p + 2 + |SetText(negated, ms)|, s, caps, e, out);
    InstanceFrontier(src, ps, s, caps, e, out);
    InstanceExactly(src, pat, p + 2 + |SetText(negated, ms)|, ps[1..], s, caps, e, out);
  }

  lemma MatchesFrontier(
      src: seq<int>, pat: seq<int>, p: int, ep: int, s: int, caps: seq<Capture>, e: int, out: seq<Capture>)
    requires 0 <= p && p + 3 < |pat| && pat[p] == ESC && pat[p + 1] == 'f' as int && pat[p + 2] == '[' as int
    requires EndOfClass(pat, p + 2) == At(ep) && 0 <= s <= |src|
    ensures Matches(src, pat, p, s, caps, e, out) <==>
      && !InBrackets(pat, if s == 0 then 0 else src[s - 1], p + 2, ep - 1)
      && InBrackets(pat, Char(src, s), p + 2, ep - 1)
      && Matches(src, pat, ep, s, caps, e, out)
  {
    hide EndOfClass, InBrackets;
  }

  lemma InstanceFrontier(src: seq<int>, ps: seq<Piece>, s: int, caps: seq<Capture>, e: int, out: seq<Capture>)
    requires ps != [] && ps[0].Frontier? && 0 <= s <= |src|
    ensures Instance(src, ps, s, caps, e, out) <==>
      && ps[0].negated == SomeAdmits(ps[0].members, if s == 0 then 0 else src[s - 1])
      && ps[0].negated != SomeAdmits(ps[0].members, Char(src, s))
      && Instance(src, ps[1..], s, caps, e, out)
  {
    hide SomeAdmits;
  }

  lemma SetBrackets(pat: seq<int>, p: int, negated: bool, ms: seq<Member>, c: int)
    requires Stands(pat, p, SetText(negated, ms)) && SetOk(negated, ms) && 0 <= c < 256
    ensures 0 <= p && p + 1 < |pat| && pat[p] == '[' as int && EndOfClass(pat, p) == At(p + |SetText(negated, ms)|)
    ensures p + |SetText(negated, ms)| <= |pat|
    ensures InBrackets(pat, c, p, p + |SetText(negated, ms)| - 1) <==> negated != SomeAdmits(ms, c)
  {
    hide EndOfClass, SetOk, SetText, InBrackets, SomeAdmits;
    SetRead(pat, p, negated, ms);
    SetLonger(negated, ms);
    BracketsMeaning(pat, c, p, p + |SetText(negated, ms)| - 1);
  }

  lemma CharsExactly(
      src: seq<int>, pat: seq<int>, p: int, ps: seq<Piece>, s: int, caps: seq<Capture>, e: int, out: seq<Capture>)
    requires Rests(pat, p, ps) && PiecesOk(ps) && Bytes(src) && 0 <= s <= |src| && ps != [] && ps[0].Chars?
    ensures 0 <= p <= |pat|
    ensures Matches(src, pat, p, s, caps, e, out) <==> Instance(src, ps, s, caps, e, out)
    decreases |ps|, 4
  {
    hide Matches, Rests, AtomOk, AtomText, Stands, EndOfClass, Runs, SomeRuns, AfterRun, PiecesOk;
    PiecesFirst(ps);
    CharsRead(src, pat, p, ps, s, caps, e, out);
    var a, r, rest, ep := ps[0].atom, ps[0].rep, ps[1..], p + |AtomText(ps[0].atom)|;
    var q := ep + |RepText(r)|;
    RestsInside(pat, q, rest);
    AtomAt(src, pat, p, a, s);
    match r
    case Once =>
      if OneAt(src, a, s) { InstanceExactly(src, pat, q, rest, s + 1, caps, e, out); }
    case Optional =>
      if OneAt(src, a, s) { InstanceExactly(src, pat, q, rest, s + 1, caps, e, out); }
      InstanceExactly(src, pat, q, rest, s, caps, e, out);
    case _ => RunsExactly(src, pat, p, a, ep, rest, s, caps, e, out);
  }

  lemma RunsExactly(
      src: seq<int>, pat: seq<int>, p: int, a: Atom, ep: int, rest: seq<Piece>, s: int, caps: seq<Capture>, e: int,
      out: seq<Capture>)
    requires Stands(pat, p, AtomText(a)) && AtomOk(a) && ep == p + |AtomText(a)| && Bytes(src) && 0 <= s <= |src|
    requires Rests(pat, ep + 1, rest) && PiecesOk(rest)
    ensures 0 <= p < |pat| && EndOfClass(pat, p) == At(ep) && ep < |pat|
    ensures Runs(src, pat, p, ep, s, caps, e, out) <==> AfterRun(src, a, 0, rest, s, caps, e, out)
    ensures SomeRuns(src, pat, p, ep, s, caps, e, out) <==> AfterRun(src, a, 1, rest, s, caps, e, out)
    decreases |rest|, 7
  {
    hide Matches, Instance, Rests, AtomOk, AtomText, Stands, EndOfClass, PiecesOk;
    RestsInside(pat, ep + 1, rest);
    AtomStart(pat, p, a);
    if Runs(src, pat, p, ep, s, caps, e, out) {
      var t :| Span(src, pat, s, t, p, ep) && Matches(src, pat, ep + 1, t, caps, e, out);
      RunExactly(src, pat, p, a, ep, rest, s, t, caps, e, out);
    }
    if SomeRuns(src, pat, p, ep, s, caps, e, out) {
      var t :| s < t && Span(src, pat, s, t, p, ep) && Matches(src, pat, ep + 1, t, caps, e, out);
      RunExactly(src, pat, p, a, ep, rest, s, t, caps, e, out);
    }
    if AfterRun(src, a, 0, rest, s, caps, e, out) {
      var t :| s + 0 <= t && RunOf(src, a, s, t) && Instance(src, rest, t, caps, e, out);
      RunExactly(src, pat, p, a, ep, rest, s, t, caps, e, out);
    }
    if AfterRun(src, a, 1, rest, s, caps, e, out) {
      var t :| s + 1 <= t && RunOf(src, a, s, t) && Instance(src, rest, t, caps, e, out);
      RunExactly(src, pat, p, a, ep, rest, s, t, caps, e, out);
    }
  }

  lemma RunExactly(
      src: seq<int>, pat: seq<int>, p: int, a: Atom, ep: int, rest: seq<Piece>, s: int, t: int, caps: seq<Capture>,
      e: int, out: seq<Capture>)
    requires Stands(pat, p, AtomText(a)) && AtomOk(a) && ep == p + |AtomText(a)| && Bytes(src) && 0 <= s <= |src|
    requires Rests(pat, ep + 1, rest) && PiecesOk(rest)
    ensures 0 <= p < |pat| && EndOfClass(pat, p) == At(ep) && 0 <= ep < |pat|
    ensures Span(src, pat, s, t, p, ep) <==> RunOf(src, a, s, t)
    ensures RunOf(src, a, s, t) ==>
      && s <= t <= |src|
      && (Matches(src, pat, ep + 1, t, caps, e, out) <==> Instance(src, rest, t, caps, e, out))
    decreases |rest|, 6
  {
    hide Matches, Instance, Rests, AtomOk, AtomText, Stands, EndOfClass, PiecesOk, Span, RunOf;
    RestsInside(pat, ep + 1, rest);
    AtomStart(pat, p, a);
    AtomRun(src, pat, p, a, s, t);
    if RunOf(src, a, s, t) {
      RunInside(src, a, s, t);
      InstanceExactly(src, pat, ep + 1, rest, t, caps, e, out);
    }
  }

  lemma RunInside(src: seq<int>, a: Atom, s: int, t: int)
    requires RunOf(src, a, s, t)
    ensures 0 <= s <= t <= |src|
  {}
}
