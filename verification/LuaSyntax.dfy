/** Lua patterns as their authors think of them: pieces, how they are written, and what one item matches. */
module LuaSyntax {
  import opened LuaChars
  import opened LuaPattern
  import opened LuaSets

  /** What matches one character. */
  datatype Atom = Any | Literal(c: int) | Escaped(l: int) | Set(negated: bool, members: seq<Member>)

  datatype Rep = Once | Optional | Star | Plus | Minus

  datatype Piece =
    | Chars(atom: Atom, rep: Rep)
    | Open
    | Close
    | Here
    | Balanced(x: int, y: int)
    | Frontier(negated: bool, members: seq<Member>)
    | Back(k: int)
    | End

  // ----- How pieces are written -----

  function SetText(negated: bool, ms: seq<Member>): seq<int> {
    ['[' as int] + (if negated then ['^' as int] else []) + Text(ms) + [']' as int]
  }

  function AtomText(a: Atom): seq<int> {
    match a
    case Any => ['.' as int]
    case Literal(c) => [c]
    case Escaped(l) => [ESC, l]
    case Set(negated, ms) => SetText(negated, ms)
  }

  function RepText(r: Rep): seq<int> {
    match r
    case Once => []
    case Optional => ['?' as int]
    case Star => ['*' as int]
    case Plus => ['+' as int]
    case Minus => ['-' as int]
  }

  function PieceText(p: Piece): seq<int> {
    match p
    case Chars(a, r) => AtomText(a) + RepText(r)
    case Open => ['(' as int]
    case Close => [')' as int]
    case Here => ['(' as int, ')' as int]
    case Balanced(x, y) => [ESC, 'b' as int, x, y]
    case Frontier(negated, ms) => [ESC, 'f' as int] + SetText(negated, ms)
    case Back(k) => [ESC, '0' as int + k]
    case End => ['$' as int]
  }

  function PatternText(ps: seq<Piece>): seq<int> {
    if ps == [] then [] else PieceText(ps[0]) + PatternText(ps[1..])
  }

  // ----- Which pieces can be written so -----

  /** A character that stands for itself at the start of a member. */
  predicate Plain(c: int, first: bool) { c != 0 && c != ESC && (c == ']' as int ==> first) }

  /** A bracket is a member only in front; a dash behind a character makes a range, unless it is the last member. */
  predicate MembersOk(ms: seq<Member>, first: bool) {
    ms == [] || (MemberOk(ms[0], Text(ms[1..]), first) && MembersOk(ms[1..], false))
  }

  predicate MemberOk(m: Member, rest: seq<int>, first: bool) {
    match m
    case Class(l) => l != 0
    case Range(lo, hi) => Plain(lo, first) && Plain(hi, false)
    case One(c) => Plain(c, first) && !(|rest| >= 2 && rest[0] == '-' as int)
  }

  predicate SetOk(negated: bool, ms: seq<Member>) {
    ms != [] && MembersOk(ms, true) && (!negated ==> Text(ms)[..1] != ['^' as int])
  }

  predicate AtomOk(a: Atom) {
    match a
    case Any => true
    case Literal(c) =>
      c != 0 && c != '(' as int && c != ')' as int && c != ESC && c != '[' as int && c != '.' as int
    case Escaped(l) => l != 0 && l != 'b' as int && l != 'f' as int && !Digit(l)
    case Set(negated, ms) => SetOk(negated, ms)
  }

  /** The piece can be read back when `rest` is written behind it. */
  predicate PieceOk(p: Piece, rest: seq<int>) {
    match p
    case Chars(a, r) =>
      && AtomOk(a)
      && (r.Once? ==> rest == [] || !Repeating(rest[0]))
      && (r.Once? && a == Literal('$' as int) ==> rest != [])
    case Open => rest == [] || rest[0] != ')' as int
    case Balanced(x, y) => x != 0 && y != 0
    case Frontier(negated, ms) => SetOk(negated, ms)
    case Back(k) => 1 <= k <= 9
    case End => rest == []
    case _ => true
  }

  predicate Repeating(c: int) { c == '?' as int || c == '*' as int || c == '+' as int || c == '-' as int }

  predicate PiecesOk(ps: seq<Piece>) {
    ps == [] || (PieceOk(ps[0], PatternText(ps[1..])) && PiecesOk(ps[1..]))
  }

  // ----- Reading an item back -----

  /** `text` stands in the pattern at `p`. */
  predicate Stands(pat: seq<int>, p: int, text: seq<int>) {
    0 <= p && p + |text| <= |pat| && pat[p..p + |text|] == text
  }

  lemma StandsSplit(pat: seq<int>, p: int, a: seq<int>, b: seq<int>)
    ensures Stands(pat, p, a + b) <==> Stands(pat, p, a) && Stands(pat, p + |a|, b)
  {
    if Stands(pat, p, a + b) {
      assert a == (a + b)[..|a|] && b == (a + b)[|a|..];
      assert pat[p..p + |a|] == pat[p..p + |a + b|][..|a|];
      assert pat[p + |a|..p + |a| + |b|] == pat[p..p + |a + b|][|a|..];
    }
    if Stands(pat, p, a) && Stands(pat, p + |a|, b) {
      assert pat[p..p + |a + b|] == pat[p..p + |a|] + pat[p + |a|..p + |a| + |b|];
    }
  }

  lemma StandsAt(pat: seq<int>, p: int, text: seq<int>, i: nat)
    requires Stands(pat, p, text) && i < |text|
    ensures 0 <= p && p + i < |pat| && pat[p + i] == text[i]
  {
    assert pat[p..p + |text|][i] == text[i];
  }

  lemma FirstStands(pat: seq<int>, p: int, ms: seq<Member>)
    requires Stands(pat, p, Text(ms) + [']' as int]) && ms != []
    ensures |Text(ms)| == |Written(ms[0])| + |Text(ms[1..])|
    ensures Stands(pat, p, Written(ms[0])) && Stands(pat, p + |Written(ms[0])|, Text(ms[1..]) + [']' as int])
  {
    hide Stands, Written;
    var w, rest := Written(ms[0]), Text(ms[1..]);
    assert Text(ms) + [']' as int] == w + (rest + [']' as int]);
    StandsSplit(pat, p, w, rest + [']' as int]);
  }

  function Listed(pat: seq<int>, q: int, ec: int): seq<Member>
    requires 0 <= q && ec < |pat|
  {
    Members(pat, q, ec)
  }

  lemma NothingListed(pat: seq<int>, q: int)
    requires 0 <= q
    ensures q + 1 < |pat| ==> Listed(pat, q, q + 1) == []
  {}

  lemma MemberRead(pat: seq<int>, q: int, m: Member, rest: seq<int>, first: bool)
    requires 0 <= q && Stands(pat, q + 1, Written(m)) && MemberOk(m, rest, first)
    requires Stands(pat, q + 1 + |Written(m)|, rest + [']' as int])
    ensures q + |Written(m)| + |rest| + 1 < |pat|
    ensures Listed(pat, q, q + 1 + |Written(m)| + |rest|)
      == [m] + Listed(pat, q + |Written(m)|, q + 1 + |Written(m)| + |rest|)
  {
    var p, w := q + 1, Written(m);
    StandsAt(pat, p, w, 0);
    StandsAt(pat, p + |w|, rest + [']' as int], 0);
    match m
    case Class(l) => StandsAt(pat, p, w, 1);
    case One(c) =>
    case Range(lo, hi) =>
      StandsAt(pat, p, w, 1);
      StandsAt(pat, p, w, 2);
  }

  /** The members up to the bracket are the ones that were written. */
  lemma {:induction false} MembersRead(pat: seq<int>, q: int, ms: seq<Member>, first: bool)
    requires 0 <= q && Stands(pat, q + 1, Text(ms) + [']' as int]) && MembersOk(ms, first)
    ensures q + 1 + |Text(ms)| < |pat| && Listed(pat, q, q + 1 + |Text(ms)|) == ms
    decreases |ms|
  {
    hide Written, MemberOk, Stands, Listed;
    var p := q + 1;
    NothingListed(pat, q);
    StandsAt(pat, p, Text(ms) + [']' as int], |Text(ms)|);
    if ms != [] {
      FirstStands(pat, p, ms);
      MembersRead(pat, q + |Written(ms[0])|, ms[1..], false);
      assert ms == [ms[0]] + ms[1..];
      MemberRead(pat, q, ms[0], Text(ms[1..]), first);
    }
  }

  /** The scan for the bracket steps over one member. */
  lemma MemberSkipped(pat: seq<int>, q: int, m: Member, rest: seq<int>, first: bool)
    requires Stands(pat, q, Written(m)) && MemberOk(m, rest, first) && q + |Written(m)| < |pat|
    ensures 0 <= q
    ensures var next := q + |Written(m)|;
      BracketEnd(pat, q) == if pat[next] == ']' as int then At(next + 1) else BracketEnd(pat, next)
  {
    var w := Written(m);
    StandsAt(pat, q, w, 0);
    match m
    case Class(l) => StandsAt(pat, q, w, 1);
    case One(c) =>
    case Range(lo, hi) =>
      StandsAt(pat, q, w, 1);
      StandsAt(pat, q, w, 2);
      var next := q + 3;
      assert BracketEnd(pat, q + 2) == if pat[next] == ']' as int then At(next + 1) else BracketEnd(pat, next);
      assert BracketEnd(pat, q + 1) == BracketEnd(pat, q + 2);
  }

  /** The bracket that ends the set is the one that was written for it. */
  lemma {:induction false} BracketRead(pat: seq<int>, q: int, ms: seq<Member>, first: bool)
    requires Stands(pat, q, Text(ms) + [']' as int]) && MembersOk(ms, first) && ms != []
    ensures 0 <= q <= |pat| && BracketEnd(pat, q) == At(q + |Text(ms)| + 1)
    decreases |ms|
  {
    hide Stands, Written, MemberOk;
    var next, more := q + |Written(ms[0])|, Text(ms[1..]) + [']' as int];
    FirstStands(pat, q, ms);
    StandsAt(pat, next, more, 0);
    MemberSkipped(pat, q, ms[0], Text(ms[1..]), first);
    if ms[1..] != [] {
      BracketRead(pat, next, ms[1..], false);
      NoBracket(ms[1..]);
    }
  }

  lemma NoBracket(ms: seq<Member>)
    requires MembersOk(ms, false) && ms != []
    ensures Text(ms) != [] && Text(ms)[0] != ']' as int
  {}

  /** The class that is written for an atom ends where its text does. */
  lemma AtomRead(pat: seq<int>, p: int, a: Atom)
    requires Stands(pat, p, AtomText(a)) && AtomOk(a)
    ensures 0 <= p < |pat| && EndOfClass(pat, p) == At(p + |AtomText(a)|)
  {
    StandsAt(pat, p, AtomText(a), 0);
    match a
    case Any =>
    case Literal(c) =>
    case Escaped(l) => StandsAt(pat, p, AtomText(a), 1);
    case Set(negated, ms) => SetRead(pat, p, negated, ms);
  }

  function Front(negated: bool): seq<int> { if negated then ['[' as int, '^' as int] else ['[' as int] }

  lemma FrontRead(pat: seq<int>, p: int, negated: bool, ms: seq<Member>)
    requires Stands(pat, p, SetText(negated, ms)) && ms != [] && (!negated ==> Text(ms)[..1] != ['^' as int])
    ensures 0 <= p && p + 1 < |pat| && pat[p] == '[' as int && (pat[p + 1] == '^' as int <==> negated)
    ensures |SetText(negated, ms)| == |Front(negated)| + |Text(ms)| + 1
    ensures Stands(pat, p + |Front(negated)|, Text(ms) + [']' as int])
  {
    hide Stands, Text;
    var front := Front(negated);
    assert SetText(negated, ms) == front + (Text(ms) + [']' as int]);
    StandsSplit(pat, p, front, Text(ms) + [']' as int]);
    StandsAt(pat, p, front, 0);
    if negated {
      StandsAt(pat, p, front, 1);
    } else {
      FirstText(ms);
      StandsAt(pat, p + 1, Text(ms) + [']' as int], 0);
    }
  }

  lemma SetRead(pat: seq<int>, p: int, negated: bool, ms: seq<Member>)
    requires Stands(pat, p, SetText(negated, ms)) && SetOk(negated, ms)
    ensures 0 <= p && p + 1 < |pat| && pat[p] == '[' as int && (pat[p + 1] == '^' as int <==> negated)
    ensures EndOfClass(pat, p) == At(p + |SetText(negated, ms)|)
    ensures Members(pat, if negated then p + 1 else p, p + |SetText(negated, ms)| - 1) == ms
  {
    hide Stands, BracketEnd, SetText, Text, MembersOk, Members;
    FrontRead(pat, p, negated, ms);
    BracketRead(pat, p + |Front(negated)|, ms, true);
    MembersRead(pat, p + |Front(negated)| - 1, ms, true);
  }

  lemma FirstText(ms: seq<Member>)
    requires ms != []
    ensures Text(ms) != []
  {}

  // ----- What an item matches -----

  predicate AtomAdmits(a: Atom, c: int) {
    match a
    case Any => true
    case Literal(l) => c == l
    case Escaped(l) => Means(l, c)
    case Set(negated, ms) => negated != SomeAdmits(ms, c)
  }

  /** A character matches the class written for an atom exactly if the atom admits it. */
  lemma ItemMeaning(pat: seq<int>, p: int, a: Atom, c: int)
    requires Stands(pat, p, AtomText(a)) && AtomOk(a) && 0 <= c < 256
    ensures 0 <= p < |pat| && EndOfClass(pat, p) == At(p + |AtomText(a)|)
    ensures Single(pat, c, p, p + |AtomText(a)|) <==> AtomAdmits(a, c)
  {
    hide EndOfClass, Stands, SetOk, SetText, Means;
    AtomRead(pat, p, a);
    StandsAt(pat, p, AtomText(a), 0);
    match a
    case Any =>
    case Literal(l) =>
    case Escaped(l) =>
      StandsAt(pat, p, AtomText(a), 1);
      ClassMeaning(c, l);
    case Set(negated, ms) => SetMatches(pat, p, negated, ms, c);
  }

  lemma SetMatches(pat: seq<int>, p: int, negated: bool, ms: seq<Member>, c: int)
    requires Stands(pat, p, SetText(negated, ms)) && SetOk(negated, ms) && 0 <= c < 256
    ensures 0 <= p < |pat| && EndOfClass(pat, p) == At(p + |SetText(negated, ms)|)
    ensures Single(pat, c, p, p + |SetText(negated, ms)|) <==> negated != SomeAdmits(ms, c)
  {
    hide EndOfClass, Stands, SetOk, SetText, InBrackets, SomeAdmits;
    SetRead(pat, p, negated, ms);
    SetLonger(negated, ms);
    BracketsMeaning(pat, c, p, p + |SetText(negated, ms)| - 1);
  }

  lemma SetLonger(negated: bool, ms: seq<Member>)
    ensures |SetText(negated, ms)| >= 2
  {}
}
