/** What sets in brackets and balanced text mean, said without the loops that look for them. */
module LuaSets {
  import opened LuaChars
  import opened LuaPattern

  // ----- Balanced text -----

  /** Opened minus closed in the text from `s` up to `t`; a character that opens and closes closes. */
  function Excess(src: seq<int>, b: int, e: int, s: int, t: int): int
    requires 0 <= s && t <= |src|
    decreases t - s
  {
    if t <= s then 0 else (if src[s] == e then -1 else if src[s] == b then 1 else 0) + Excess(src, b, e, s + 1, t)
  }

  /** Balanced text ends at the first place where as many are closed as opened, and has no end if there is none. */
  lemma {:induction false} FirstBalanced(src: seq<int>, b: int, e: int, s: int, cont: nat, t: int)
    requires 0 <= s <= t <= |src| && cont > 0
    ensures var r := BalanceEnd(src, b, e, s, cont);
      && (r >= 0 ==> cont + Excess(src, b, e, s, r) == 0)
      && (r < 0 || t < r ==> cont + Excess(src, b, e, s, t) > 0)
    decreases |src| - s
  {
    if s < |src| {
      var cont' := if src[s] == e then cont - 1 else if src[s] == b then cont + 1 else cont;
      if cont' > 0 {
        FirstBalanced(src, b, e, s + 1, cont', if s < t then t else t + 1);
      }
    }
  }

  // ----- Sets in brackets -----

  datatype Member = Class(letter: int) | Range(lo: int, hi: int) | One(c: int)

  predicate Admits(m: Member, c: int) {
    match m
    case Class(letter) => Means(letter, c)
    case Range(lo, hi) => lo <= c <= hi
    case One(ch) => c == ch
  }

  /** How a member is written. */
  function Written(m: Member): seq<int> {
    match m
    case Class(letter) => [ESC, letter]
    case Range(lo, hi) => [lo, '-' as int, hi]
    case One(c) => [c]
  }

  function Text(ms: seq<Member>): seq<int> {
    if ms == [] then [] else Written(ms[0]) + Text(ms[1..])
  }

  /** The first member, and the place of its last character. */
  function Head(pat: seq<int>, p: int, ec: int): (Member, int)
    requires 0 <= p < ec < |pat|
  {
    if pat[p] == ESC then (Class(pat[p + 1]), p + 1)
    else if pat[p + 1] == '-' as int && p + 2 < ec then (Range(pat[p], pat[p + 2]), p + 2)
    else (One(pat[p]), p)
  }

  /** The members listed behind `q` and before the bracket at `ec`. */
  function Members(pat: seq<int>, q: int, ec: int): seq<Member>
    requires 0 <= q && ec < |pat|
    decreases ec - q
  {
    if q + 1 >= ec then [] else var (m, next) := Head(pat, q + 1, ec); [m] + Members(pat, next, ec)
  }

  lemma TextMore(m: Member, rest: seq<Member>)
    ensures Text([m] + rest) == Written(m) + Text(rest)
  {
    assert ([m] + rest)[1..] == rest;
  }

  /** The text from `i` up to the bracket at `ec`, or with the bracket. */
  predicate Covers(text: seq<int>, pat: seq<int>, i: int, ec: int) {
    0 <= i <= ec < |pat| && (text == pat[i..ec] || text == pat[i..ec + 1])
  }

  lemma CoversMore(text: seq<int>, pat: seq<int>, i: int, j: int, ec: int)
    requires 0 <= i <= j && Covers(text, pat, j, ec)
    ensures Covers(pat[i..j] + text, pat, i, ec)
  {
    assert pat[i..j] + pat[j..ec] == pat[i..ec];
    assert pat[i..j] + pat[j..ec + 1] == pat[i..ec + 1];
  }

  lemma HeadWritten(pat: seq<int>, p: int, ec: int)
    requires 0 <= p < ec < |pat|
    ensures var (m, next) := Head(pat, p, ec); p <= next <= ec && Written(m) == pat[p..next + 1]
  {}

  lemma HeadAdmits(pat: seq<int>, c: int, q: int, ec: int)
    requires 0 <= q && q + 1 < ec < |pat| && 0 <= c < 256
    ensures var (m, next) := Head(pat, q + 1, ec); InSet(pat, c, q, ec) <==> Admits(m, c) || InSet(pat, c, next, ec)
  {
    hide Means, MatchClass;
    ClassMeaning(c, pat[q + 2]);
  }

  /** They are all that is written there; an escape right before the bracket takes the bracket with it. */
  lemma {:induction false} MembersWritten(pat: seq<int>, q: int, ec: int)
    requires 0 <= q && q + 1 <= ec < |pat|
    ensures Covers(Text(Members(pat, q, ec)), pat, q + 1, ec)
    decreases ec - q
  {
    if q + 1 < ec {
      var (m, next) := Head(pat, q + 1, ec);
      HeadWritten(pat, q + 1, ec);
      TextMore(m, Members(pat, next, ec));
      if next < ec {
        MembersWritten(pat, next, ec);
        CoversMore(Text(Members(pat, next, ec)), pat, q + 1, next + 1, ec);
      }
    }
  }

  predicate SomeAdmits(ms: seq<Member>, c: int) { exists m :: m in ms && Admits(m, c) }

  lemma FirstOrLater(m: Member, rest: seq<Member>, c: int)
    ensures SomeAdmits([m] + rest, c) <==> Admits(m, c) || SomeAdmits(rest, c)
  {
    assert forall o :: o in [m] + rest <==> o == m || o in rest;
  }

  /** A character is in the set exactly if a member admits it. */
  lemma {:induction false} SetMeaning(pat: seq<int>, c: int, q: int, ec: int)
    requires 0 <= q && ec < |pat| && 0 <= c < 256
    ensures InSet(pat, c, q, ec) <==> SomeAdmits(Members(pat, q, ec), c)
    decreases ec - q
  {
    if q + 1 < ec {
      var (m, next) := Head(pat, q + 1, ec);
      HeadAdmits(pat, c, q, ec);
      SetMeaning(pat, c, next, ec);
      FirstOrLater(m, Members(pat, next, ec), c);
    }
  }

  /** A set that starts with `^` holds the characters that no member admits. */
  lemma BracketsMeaning(pat: seq<int>, c: int, p: int, ec: int)
    requires 0 <= p && p + 1 < |pat| && ec < |pat| && 0 <= c < 256
    ensures var negated := pat[p + 1] == '^' as int;
      InBrackets(pat, c, p, ec) <==>
        negated != SomeAdmits(Members(pat, if negated then p + 1 else p, ec), c)
  {
    SetMeaning(pat, c, if pat[p + 1] == '^' as int then p + 1 else p, ec);
  }
}
