/** Lua patterns: what one pattern item matches, and the ordered list of all ways a pattern can
    match. Strings are sequences of bytes with a terminating zero that can be read. */
module LuaPattern {
  import opened LuaChars

  const ESC := '%' as int
  const MAXCAPTURES := 32
  const MAX_XLEVEL := 200
  const CAP_UNFINISHED := -1
  const CAP_POSITION := -2

  /** The errors a match can raise, in the order of their messages STRPATX, STRCAPI, STRCAPN,
      STRPATE, STRPATM, STRPATU, STRPATB, STRPATC, STRCAPU. */
  datatype Error =
    | TooDeep | BadCapture | TooManyCaptures | EndsInEscape | MissingBracket | MissingBalance
    | MissingSet | NothingToClose | UnfinishedCapture

  datatype Capture = Capture(start: int, len: int)

  /** One way a match can go: it ends at `end` with captures, or raises an error. */
  datatype Outcome = Success(end: int, caps: seq<Capture>) | Raise(error: Error)

  datatype ClassEnd = At(p: int) | Bad(error: Error)

  /** A character of a string or its terminating zero. */
  function Char(str: seq<int>, i: int): int
    requires 0 <= i <= |str|
  {
    if i < |str| then str[i] else 0
  }

  function BracketEnd(pat: seq<int>, q: int): (r: ClassEnd)
    requires 0 <= q <= |pat|
    ensures r.At? ==> q + 1 < r.p <= |pat| && pat[r.p - 1] == ']' as int
    decreases |pat| - q
  {
    if Char(pat, q) == 0 then Bad(MissingBracket)
    else
      var q1 := if Char(pat, q) == ESC && Char(pat, q + 1) != 0 then q + 2 else q + 1;
      if Char(pat, q1) == ']' as int then At(q1 + 1) else BracketEnd(pat, q1)
  }

  /** classend: the end of the class that starts at `p`. */
  function EndOfClass(pat: seq<int>, p: int): (r: ClassEnd)
    requires 0 <= p < |pat|
    ensures r.At? ==> p < r.p <= |pat|
    ensures r.At? && pat[p] == ESC ==> r.p == p + 2
    ensures r.At? && pat[p] == '[' as int ==> p + 2 < r.p && (pat[p + 1] == '^' as int ==> p + 3 < r.p)
  {
    if pat[p] == ESC then
      (if Char(pat, p + 1) == 0 then Bad(EndsInEscape) else At(p + 2))
    else if pat[p] == '[' as int then
      BracketEnd(pat, if Char(pat, p + 1) == '^' as int then p + 2 else p + 1)
    else At(p + 1)
  }

  /** Does a member of the set in the brackets before `ec`, behind `q`, match `c`? */
  predicate InSet(pat: seq<int>, c: int, q: int, ec: int)
    requires 0 <= q && ec < |pat|
    decreases ec - q
  {
    var p := q + 1;
    if p >= ec then false
    else if pat[p] == ESC then MatchClass(c, pat[p + 1]) || InSet(pat, c, p + 1, ec)
    else if pat[p + 1] == '-' as int && p + 2 < ec then pat[p] <= c <= pat[p + 2] || InSet(pat, c, p + 2, ec)
    else pat[p] == c || InSet(pat, c, p, ec)
  }

  /** The set from `p` to its bracket at `ec`, complemented if it starts with `^`. */
  predicate InBrackets(pat: seq<int>, c: int, p: int, ec: int)
    requires 0 <= p && p + 1 < |pat| && ec < |pat|
  {
    if pat[p + 1] == '^' as int then !InSet(pat, c, p + 1, ec) else InSet(pat, c, p, ec)
  }

  /** singlematch: does the class from `p` to `ep` match character `c`? */
  predicate Single(pat: seq<int>, c: int, p: int, ep: int)
    requires 0 <= p < |pat| && EndOfClass(pat, p) == At(ep)
  {
    if pat[p] == '.' as int then true
    else if pat[p] == ESC then MatchClass(c, pat[p + 1])
    else if pat[p] == '[' as int then InBrackets(pat, c, p, ep - 1)
    else pat[p] == c
  }

  predicate SingleAt(src: seq<int>, pat: seq<int>, s: int, p: int, ep: int)
    requires 0 <= s <= |src| && 0 <= p < |pat| && EndOfClass(pat, p) == At(ep)
  {
    s < |src| && Single(pat, src[s], p, ep)
  }

  /** How many characters from `s` on match the class. */
  function RunLength(src: seq<int>, pat: seq<int>, s: int, p: int, ep: int): (n: nat)
    requires 0 <= s <= |src| && 0 <= p < |pat| && EndOfClass(pat, p) == At(ep)
    ensures s + n <= |src|
    decreases |src| - s
  {
    if SingleAt(src, pat, s, p, ep) then 1 + RunLength(src, pat, s + 1, p, ep) else 0
  }

  /** matchbalance: behind the `e` that closes `cont` open `b`s, or nothing. */
  function BalanceEnd(src: seq<int>, b: int, e: int, s: int, cont: nat): (r: int)
    requires 0 <= s <= |src| && cont > 0
    ensures r == -1 || s < r <= |src|
    decreases |src| - s
  {
    if s == |src| then -1
    else if src[s] == e then (if cont == 1 then s + 1 else BalanceEnd(src, b, e, s + 1, cont - 1))
    else if src[s] == b then BalanceEnd(src, b, e, s + 1, cont + 1)
    else BalanceEnd(src, b, e, s + 1, cont)
  }

  /** capture_to_close: the last capture that is still open, or -1. */
  function LastOpen(caps: seq<Capture>): (l: int)
    ensures -1 <= l < |caps| && (l >= 0 ==> caps[l].len == CAP_UNFINISHED)
    ensures forall k :: l < k < |caps| ==> caps[k].len != CAP_UNFINISHED
  {
    if caps == [] then -1
    else if caps[|caps| - 1].len == CAP_UNFINISHED then |caps| - 1
    else LastOpen(caps[..|caps| - 1])
  }

  /** A capture lies inside the part of the subject that has been passed. */
  predicate CaptureOk(c: Capture, s: int) {
    && 0 <= c.start <= s
    && (c.len == CAP_UNFINISHED || c.len == CAP_POSITION || (0 <= c.len && c.start + c.len <= s))
  }

  predicate CapsOk(caps: seq<Capture>, s: int) {
    |caps| <= MAXCAPTURES && forall k :: 0 <= k < |caps| ==> CaptureOk(caps[k], s)
  }

  lemma CapsLater(caps: seq<Capture>, s: int, s': int)
    requires CapsOk(caps, s) && s <= s'
    ensures CapsOk(caps, s')
  {}

  /** A match that goes on from `s` ends behind it, inside the subject, with captures there. */
  predicate OutcomeOk(src: seq<int>, s: int, n: nat, o: Outcome) {
    o.Success? ==> s <= o.end <= |src| && CapsOk(o.caps, o.end) && n <= |o.caps|
  }

  predicate OutcomesOk(src: seq<int>, s: int, n: nat, all: seq<Outcome>) {
    forall k :: 0 <= k < |all| ==> OutcomeOk(src, s, n, all[k])
  }

  lemma OutcomesLater(src: seq<int>, s: int, s': int, n: nat, n': nat, all: seq<Outcome>)
    requires OutcomesOk(src, s', n', all) && s <= s' && n <= n'
    ensures OutcomesOk(src, s, n, all)
  {
    forall k | 0 <= k < |all| ensures OutcomeOk(src, s, n, all[k]) { assert OutcomeOk(src, s', n', all[k]); }
  }

  /** All ways in which the pattern from `p` on matches the subject from `s` on, best first. `d` is
      the nesting depth of the match, which is limited. */
  function All(src: seq<int>, pat: seq<int>, p: int, s: int, caps: seq<Capture>, d: nat): (all: seq<Outcome>)
    requires 0 <= p <= |pat| && 0 <= s <= |src| && CapsOk(caps, s) && d <= MAX_XLEVEL
    ensures OutcomesOk(src, s, |caps|, all)
    decreases MAX_XLEVEL - d, |pat| - p + 1, 0
  {
    var c := Char(pat, p);
    if c == 0 then [Success(s, caps)]
    else if c == '(' as int then
      (if Char(pat, p + 1) == ')' as int then Opened(src, pat, p + 2, s, caps, d, CAP_POSITION)
       else Opened(src, pat, p + 1, s, caps, d, CAP_UNFINISHED))
    else if c == ')' as int then
      var l := LastOpen(caps);
      if l < 0 then [Raise(NothingToClose)]
      else
        var closed := caps[l := Capture(caps[l].start, s - caps[l].start)];
        Nested(src, pat, p + 1, s, closed, d)
    else if c == ESC && Char(pat, p + 1) == 'b' as int then
      (if Char(pat, p + 2) == 0 || Char(pat, p + 3) == 0 then [Raise(MissingBalance)]
       else if s == |src| || src[s] != pat[p + 2] then []
       else
         var e := BalanceEnd(src, pat[p + 2], pat[p + 3], s + 1, 1);
         if e < 0 then [] else CapsLater(caps, s, e); Weaker(src, s, e, caps, |caps|, All(src, pat, p + 4, e, caps, d)))
    else if c == ESC && Char(pat, p + 1) == 'f' as int then
      (if Char(pat, p + 2) != '[' as int then [Raise(MissingSet)]
       else
         var ep := EndOfClass(pat, p + 2);
         if ep.Bad? then [Raise(ep.error)]
         else if InBrackets(pat, if s == 0 then 0 else src[s - 1], p + 2, ep.p - 1) then []
         else if !InBrackets(pat, Char(src, s), p + 2, ep.p - 1) then []
         else All(src, pat, ep.p, s, caps, d))
    else if c == ESC && Digit(Char(pat, p + 1)) then
      var l := pat[p + 1] - '1' as int;
      if l < 0 || l >= |caps| || caps[l].len == CAP_UNFINISHED then [Raise(BadCapture)]
      else if caps[l].len == CAP_POSITION || !Repeats(src, s, caps[l]) then []
      else
        CapsLater(caps, s, s + caps[l].len);
        Weaker(src, s, s + caps[l].len, caps, |caps|, All(src, pat, p + 2, s + caps[l].len, caps, d))
    else if c == '$' as int && Char(pat, p + 1) == 0 then (if s == |src| then [Success(s, caps)] else [])
    else
      var ep := EndOfClass(pat, p);
      if ep.Bad? then [Raise(ep.error)] else Item(src, pat, p, ep.p, s, caps, d)
  }

  /** The same outcomes, seen from further left. */
  function Weaker(src: seq<int>, s: int, s': int, caps: seq<Capture>, n: nat, all: seq<Outcome>): (r: seq<Outcome>)
    requires OutcomesOk(src, s', n, all) && s <= s'
    ensures OutcomesOk(src, s, n, r) && r == all
  {
    OutcomesLater(src, s, s', n, n, all);
    all
  }

  /** The text of a finished capture repeats at `s`. */
  predicate Repeats(src: seq<int>, s: int, c: Capture)
    requires 0 <= s <= |src| && CaptureOk(c, s) && c.len >= 0
  {
    s + c.len <= |src| && src[s..s + c.len] == src[c.start..c.start + c.len]
  }

  /** A class, with a repetition or without. */
  function Item(src: seq<int>, pat: seq<int>, p: int, ep: int, s: int, caps: seq<Capture>, d: nat): (all: seq<Outcome>)
    requires 0 <= p < |pat| && EndOfClass(pat, p) == At(ep) && 0 <= s <= |src| && CapsOk(caps, s) && d <= MAX_XLEVEL
    ensures OutcomesOk(src, s, |caps|, all)
    decreases MAX_XLEVEL - d, |pat| - p, 1
  {
    var one := SingleAt(src, pat, s, p, ep);
    var op := Char(pat, ep);
    CapsLater(caps, s, s + 1);
    if op == '?' as int then
      (if one then Weaker(src, s, s + 1, caps, |caps|, Nested(src, pat, ep + 1, s + 1, caps, d)) else [])
      + All(src, pat, ep + 1, s, caps, d)
    else if op == '*' as int then Greedy(src, pat, ep + 1, s, RunLength(src, pat, s, p, ep), caps, d)
    else if op == '+' as int then
      (if one then Weaker(src, s, s + 1, caps, |caps|,
        Greedy(src, pat, ep + 1, s + 1, RunLength(src, pat, s + 1, p, ep), caps, d)) else [])
    else if op == '-' as int then Lazy(src, pat, p, ep, s, caps, d)
    else if one then Weaker(src, s, s + 1, caps, |caps|, All(src, pat, ep, s + 1, caps, d))
    else []
  }

  /** A nested match. */
  function Nested(src: seq<int>, pat: seq<int>, p: int, s: int, caps: seq<Capture>, d: nat): (all: seq<Outcome>)
    requires 0 <= p <= |pat| && 0 <= s <= |src| && CapsOk(caps, s) && d <= MAX_XLEVEL
    ensures OutcomesOk(src, s, |caps|, all)
    decreases MAX_XLEVEL - d, 0, 0
  {
    if d == MAX_XLEVEL then [Raise(TooDeep)] else All(src, pat, p, s, caps, d + 1)
  }

  function Opened(src: seq<int>, pat: seq<int>, p: int, s: int, caps: seq<Capture>, d: nat, what: int)
      : (all: seq<Outcome>)
    requires 0 <= p <= |pat| && 0 <= s <= |src| && CapsOk(caps, s) && d <= MAX_XLEVEL
    requires what == CAP_UNFINISHED || what == CAP_POSITION
    ensures OutcomesOk(src, s, |caps|, all)
    decreases MAX_XLEVEL - d, 0, 1
  {
    if |caps| >= MAXCAPTURES then [Raise(TooManyCaptures)]
    else
      var all := Nested(src, pat, p, s, caps + [Capture(s, what)], d);
      OutcomesLater(src, s, s, |caps|, |caps| + 1, all);
      all
  }

  /** The rest of the pattern from `p` on, after `n` repetitions, then `n - 1`, down to none. */
  function Greedy(src: seq<int>, pat: seq<int>, p: int, s: int, n: int, caps: seq<Capture>, d: nat): (all: seq<Outcome>)
    requires 0 <= p <= |pat| && 0 <= s && -1 <= n && s + n <= |src| && CapsOk(caps, s) && d <= MAX_XLEVEL
    ensures OutcomesOk(src, s, |caps|, all)
    decreases MAX_XLEVEL - d, 0, n + 2
  {
    if n < 0 then []
    else
      CapsLater(caps, s, s + n);
      Weaker(src, s, s + n, caps, |caps|, Nested(src, pat, p, s + n, caps, d)) + Greedy(src, pat, p, s, n - 1, caps, d)
  }

  /** The rest of the pattern behind the class from `p` to `ep`, after no repetition, then one, as
      long as the class matches. */
  function Lazy(src: seq<int>, pat: seq<int>, p: int, ep: int, s: int, caps: seq<Capture>, d: nat): (all: seq<Outcome>)
    requires 0 <= p < |pat| && EndOfClass(pat, p) == At(ep) && ep < |pat|
    requires 0 <= s <= |src| && CapsOk(caps, s) && d <= MAX_XLEVEL
    ensures OutcomesOk(src, s, |caps|, all)
    decreases MAX_XLEVEL - d, 0, |src| - s + 2
  {
    var now := Nested(src, pat, ep + 1, s, caps, d);
    if SingleAt(src, pat, s, p, ep) then
      CapsLater(caps, s, s + 1);
      now + Weaker(src, s, s + 1, caps, |caps|, Lazy(src, pat, p, ep, s + 1, caps, d))
    else now
  }

  /** What a match does: the best way, if there is one. */
  datatype Result = Found(end: int, caps: seq<Capture>) | NoMatch | Failed(error: Error)

  function First(all: seq<Outcome>): Result {
    if all == [] then NoMatch
    else match all[0] case Success(e, caps) => Found(e, caps) case Raise(error) => Failed(error)
  }

  /** The best way to match the pattern from `p` on, without and with another level of nesting. */
  function Best(src: seq<int>, pat: seq<int>, p: int, s: int, caps: seq<Capture>, d: nat): Result
    requires 0 <= p <= |pat| && 0 <= s <= |src| && CapsOk(caps, s) && d <= MAX_XLEVEL
  {
    First(All(src, pat, p, s, caps, d))
  }

  function BestNested(src: seq<int>, pat: seq<int>, p: int, s: int, caps: seq<Capture>, d: nat): Result
    requires 0 <= p <= |pat| && 0 <= s <= |src| && CapsOk(caps, s) && d <= MAX_XLEVEL
  {
    First(Nested(src, pat, p, s, caps, d))
  }

  function BestOpened(src: seq<int>, pat: seq<int>, p: int, s: int, caps: seq<Capture>, d: nat, what: int): Result
    requires 0 <= p <= |pat| && 0 <= s <= |src| && CapsOk(caps, s) && d <= MAX_XLEVEL
    requires what == CAP_UNFINISHED || what == CAP_POSITION
  {
    First(Opened(src, pat, p, s, caps, d, what))
  }

  function BestClosed(src: seq<int>, pat: seq<int>, p: int, s: int, caps: seq<Capture>, d: nat): Result
    requires 0 <= p <= |pat| && 0 <= s <= |src| && CapsOk(caps, s) && d <= MAX_XLEVEL
  {
    var l := LastOpen(caps);
    if l < 0 then Failed(NothingToClose)
    else BestNested(src, pat, p, s, caps[l := Capture(caps[l].start, s - caps[l].start)], d)
  }

  /** The best of at most `n` repetitions. */
  function BestUpTo(src: seq<int>, pat: seq<int>, p: int, s: int, n: int, caps: seq<Capture>, d: nat): Result
    requires 0 <= p <= |pat| && 0 <= s && -1 <= n && s + n <= |src| && CapsOk(caps, s) && d <= MAX_XLEVEL
  {
    First(Greedy(src, pat, p, s, n, caps, d))
  }

  function BestGreedy(src: seq<int>, pat: seq<int>, p: int, ep: int, s: int, caps: seq<Capture>, d: nat): Result
    requires 0 <= p < |pat| && EndOfClass(pat, p) == At(ep) && ep < |pat| && 0 <= s <= |src| && CapsOk(caps, s) &&
      d <= MAX_XLEVEL
  {
    BestUpTo(src, pat, ep + 1, s, RunLength(src, pat, s, p, ep), caps, d)
  }

  function BestLazy(src: seq<int>, pat: seq<int>, p: int, ep: int, s: int, caps: seq<Capture>, d: nat): Result
    requires 0 <= p < |pat| && EndOfClass(pat, p) == At(ep) && ep < |pat| && 0 <= s <= |src| && CapsOk(caps, s) &&
      d <= MAX_XLEVEL
  {
    First(Lazy(src, pat, p, ep, s, caps, d))
  }

  /** The cases of a match, one by one. */
  lemma BestEnd(src: seq<int>, pat: seq<int>, p: int, s: int, caps: seq<Capture>, d: nat)
    requires 0 <= p <= |pat| && 0 <= s <= |src| && CapsOk(caps, s) && d <= MAX_XLEVEL
    requires Char(pat, p) == 0
    ensures Best(src, pat, p, s, caps, d) == Found(s, caps)
  {}

  lemma BestParen(src: seq<int>, pat: seq<int>, p: int, s: int, caps: seq<Capture>, d: nat)
    requires 0 <= p <= |pat| && 0 <= s <= |src| && CapsOk(caps, s) && d <= MAX_XLEVEL
    requires Char(pat, p) == '(' as int
    ensures Char(pat, p + 1) == ')' as int ==>
      Best(src, pat, p, s, caps, d) == BestOpened(src, pat, p + 2, s, caps, d, CAP_POSITION)
    ensures Char(pat, p + 1) != ')' as int ==>
      Best(src, pat, p, s, caps, d) == BestOpened(src, pat, p + 1, s, caps, d, CAP_UNFINISHED)
  {}

  lemma BestClose(src: seq<int>, pat: seq<int>, p: int, s: int, caps: seq<Capture>, d: nat)
    requires 0 <= p <= |pat| && 0 <= s <= |src| && CapsOk(caps, s) && d <= MAX_XLEVEL
    requires Char(pat, p) == ')' as int
    ensures Best(src, pat, p, s, caps, d) == BestClosed(src, pat, p + 1, s, caps, d)
  {}

  lemma BestBalance(src: seq<int>, pat: seq<int>, p: int, s: int, caps: seq<Capture>, d: nat)
    requires 0 <= p <= |pat| && 0 <= s <= |src| && CapsOk(caps, s) && d <= MAX_XLEVEL
    requires Char(pat, p) == ESC && Char(pat, p + 1) == 'b' as int
    ensures Char(pat, p + 2) == 0 || Char(pat, p + 3) == 0 ==>
      Best(src, pat, p, s, caps, d) == Failed(MissingBalance)
    ensures Char(pat, p + 2) != 0 && Char(pat, p + 3) != 0 ==>
      var e := if s == |src| || src[s] != pat[p + 2] then -1 else BalanceEnd(src, pat[p + 2], pat[p + 3], s + 1, 1);
      && (e < 0 ==> Best(src, pat, p, s, caps, d) == NoMatch)
      && (e >= 0 ==>
          e <= |src| && CapsOk(caps, e) && Best(src, pat, p, s, caps, d) == Best(src, pat, p + 4, e, caps, d))
  {
    if Char(pat, p + 2) != 0 && Char(pat, p + 3) != 0 {
      var e := if s == |src| || src[s] != pat[p + 2] then -1 else BalanceEnd(src, pat[p + 2], pat[p + 3], s + 1, 1);
      if e >= 0 { CapsLater(caps, s, e); }
    }
  }

  lemma BestFrontier(src: seq<int>, pat: seq<int>, p: int, s: int, caps: seq<Capture>, d: nat)
    requires 0 <= p <= |pat| && 0 <= s <= |src| && CapsOk(caps, s) && d <= MAX_XLEVEL
    requires Char(pat, p) == ESC && Char(pat, p + 1) == 'f' as int
    ensures Char(pat, p + 2) != '[' as int ==> Best(src, pat, p, s, caps, d) == Failed(MissingSet)
    ensures Char(pat, p + 2) == '[' as int ==>
      var ep := EndOfClass(pat, p + 2);
      if ep.Bad? then Best(src, pat, p, s, caps, d) == Failed(ep.error)
      else if InBrackets(pat, if s == 0 then 0 else src[s - 1], p + 2, ep.p - 1) ||
        !InBrackets(pat, Char(src, s), p + 2, ep.p - 1)
      then Best(src, pat, p, s, caps, d) == NoMatch
      else Best(src, pat, p, s, caps, d) == Best(src, pat, ep.p, s, caps, d)
  {}

  lemma BestBack(src: seq<int>, pat: seq<int>, p: int, s: int, caps: seq<Capture>, d: nat)
    requires 0 <= p <= |pat| && 0 <= s <= |src| && CapsOk(caps, s) && d <= MAX_XLEVEL
    requires Char(pat, p) == ESC && Digit(Char(pat, p + 1))
    ensures p + 1 < |pat|
    ensures var l := pat[p + 1] - '1' as int;
      if l < 0 || l >= |caps| || caps[l].len == CAP_UNFINISHED then Best(src, pat, p, s, caps, d) == Failed(BadCapture)
      else if caps[l].len == CAP_POSITION || !Repeats(src, s, caps[l]) then Best(src, pat, p, s, caps, d) == NoMatch
      else
        CapsOk(caps, s + caps[l].len) &&
        Best(src, pat, p, s, caps, d) == Best(src, pat, p + 2, s + caps[l].len, caps, d)
  {
    var l := pat[p + 1] - '1' as int;
    if 0 <= l < |caps| && caps[l].len >= 0 { CapsLater(caps, s, s + caps[l].len); }
  }

  lemma BestDollar(src: seq<int>, pat: seq<int>, p: int, s: int, caps: seq<Capture>, d: nat)
    requires 0 <= p <= |pat| && 0 <= s <= |src| && CapsOk(caps, s) && d <= MAX_XLEVEL
    requires Char(pat, p) == '$' as int && Char(pat, p + 1) == 0
    ensures Best(src, pat, p, s, caps, d) == if s == |src| then Found(s, caps) else NoMatch
  {}

  lemma AllItem(src: seq<int>, pat: seq<int>, p: int, s: int, caps: seq<Capture>, d: nat)
    requires 0 <= p <= |pat| && 0 <= s <= |src| && CapsOk(caps, s) && d <= MAX_XLEVEL
    requires Char(pat, p) != 0 && Char(pat, p) != '(' as int && Char(pat, p) != ')' as int
    requires Char(pat, p) == ESC ==>
      Char(pat, p + 1) != 'b' as int && Char(pat, p + 1) != 'f' as int && !Digit(Char(pat, p + 1))
    requires Char(pat, p) == '$' as int ==> Char(pat, p + 1) != 0
    ensures var ep := EndOfClass(pat, p);
      All(src, pat, p, s, caps, d) == if ep.Bad? then [Raise(ep.error)] else Item(src, pat, p, ep.p, s, caps, d)
  {}

  lemma ItemIs(src: seq<int>, pat: seq<int>, p: int, ep: int, s: int, caps: seq<Capture>, d: nat)
    requires 0 <= p < |pat| && EndOfClass(pat, p) == At(ep) && 0 <= s <= |src| && CapsOk(caps, s) && d <= MAX_XLEVEL
    ensures CapsOk(caps, s + 1)
    ensures var one, op, all := SingleAt(src, pat, s, p, ep), Char(pat, ep), Item(src, pat, p, ep, s, caps, d);
      && (op == '?' as int ==>
            all == (if one then Nested(src, pat, ep + 1, s + 1, caps, d) else []) + All(src, pat, ep + 1, s, caps, d))
      && (op == '*' as int ==> all == Greedy(src, pat, ep + 1, s, RunLength(src, pat, s, p, ep), caps, d))
      && (op == '+' as int ==>
            all == if one then Greedy(src, pat, ep + 1, s + 1, RunLength(src, pat, s + 1, p, ep), caps, d) else [])
      && (op == '-' as int ==> all == Lazy(src, pat, p, ep, s, caps, d))
      && (op != '?' as int && op != '*' as int && op != '+' as int && op != '-' as int ==>
            all == if one then All(src, pat, ep, s + 1, caps, d) else [])
  {
    CapsLater(caps, s, s + 1);
  }

  lemma BestItem(src: seq<int>, pat: seq<int>, p: int, s: int, caps: seq<Capture>, d: nat)
    requires 0 <= p <= |pat| && 0 <= s <= |src| && CapsOk(caps, s) && d <= MAX_XLEVEL
    requires Char(pat, p) != 0 && Char(pat, p) != '(' as int && Char(pat, p) != ')' as int
    requires Char(pat, p) == ESC ==>
      Char(pat, p + 1) != 'b' as int && Char(pat, p + 1) != 'f' as int && !Digit(Char(pat, p + 1))
    requires Char(pat, p) == '$' as int ==> Char(pat, p + 1) != 0
    ensures CapsOk(caps, s + 1)
    ensures EndOfClass(pat, p).Bad? ==> Best(src, pat, p, s, caps, d) == Failed(EndOfClass(pat, p).error)
    ensures EndOfClass(pat, p).At? ==>
      var ep := EndOfClass(pat, p).p;
      var one, op, best := SingleAt(src, pat, s, p, ep), Char(pat, ep), Best(src, pat, p, s, caps, d);
      && (op == '?' as int ==>
            best == if one && BestNested(src, pat, ep + 1, s + 1, caps, d) != NoMatch
                    then BestNested(src, pat, ep + 1, s + 1, caps, d) else Best(src, pat, ep + 1, s, caps, d))
      && (op == '*' as int ==> best == BestGreedy(src, pat, p, ep, s, caps, d))
      && (op == '+' as int ==> best == if one then BestGreedy(src, pat, p, ep, s + 1, caps, d) else NoMatch)
      && (op == '-' as int ==> best == BestLazy(src, pat, p, ep, s, caps, d))
      && (op != '?' as int && op != '*' as int && op != '+' as int && op != '-' as int ==>
            best == if one then Best(src, pat, ep, s + 1, caps, d) else NoMatch)
  {
    CapsLater(caps, s, s + 1);
    if EndOfClass(pat, p).At? {
      var ep := EndOfClass(pat, p).p;
      AllItem(src, pat, p, s, caps, d);
      ItemIs(src, pat, p, ep, s, caps, d);
      if Char(pat, ep) == '?' as int {
        FirstOf(if SingleAt(src, pat, s, p, ep) then Nested(src, pat, ep + 1, s + 1, caps, d)
          else [], All(src, pat, ep + 1, s, caps, d));
      }
    }
  }

  lemma BestNestedIs(src: seq<int>, pat: seq<int>, p: int, s: int, caps: seq<Capture>, d: nat)
    requires 0 <= p <= |pat| && 0 <= s <= |src| && CapsOk(caps, s) && d <= MAX_XLEVEL
    ensures BestNested(src, pat, p, s, caps, d) == if d == MAX_XLEVEL then Failed(TooDeep)
      else Best(src, pat, p, s, caps, d + 1)
  {}

  /** The outcomes of a first choice come first. */
  lemma FirstOf(a: seq<Outcome>, b: seq<Outcome>)
    ensures First(a + b) == if First(a) == NoMatch then First(b) else First(a)
  {
    if a == [] { assert a + b == b; } else { assert (a + b)[0] == a[0]; }
  }

  /** The best of at most `n` repetitions has `n` of them, or fewer when these do not fit. */
  lemma OneFewer(src: seq<int>, pat: seq<int>, p: int, s: int, n: int, caps: seq<Capture>, d: nat)
    requires 0 <= p <= |pat| && 0 <= s && -1 <= n && s + n <= |src| && CapsOk(caps, s) && d <= MAX_XLEVEL
    ensures n < 0 ==> BestUpTo(src, pat, p, s, n, caps, d) == NoMatch
    ensures n >= 0 ==> CapsOk(caps, s + n)
    ensures n >= 0 ==>
      BestUpTo(src, pat, p, s, n, caps, d) ==
      if BestNested(src, pat, p, s + n, caps, d) == NoMatch then BestUpTo(src, pat, p, s, n - 1, caps, d)
      else BestNested(src, pat, p, s + n, caps, d)
  {
    if n >= 0 {
      CapsLater(caps, s, s + n);
      FirstOf(Nested(src, pat, p, s + n, caps, d), Greedy(src, pat, p, s, n - 1, caps, d));
    }
  }

  /** The rest of the pattern, tried at `e`. */
  function RestAt(src: seq<int>, pat: seq<int>, p: int, e: int, caps: seq<Capture>, d: nat): Result
    requires 0 <= p <= |pat| && d <= MAX_XLEVEL
  {
    if 0 <= e <= |src| && CapsOk(caps, e) then First(Nested(src, pat, p, e, caps, d)) else NoMatch
  }

  /** `*` and `+` take the longest run from which the rest of the pattern matches. */
  lemma {:induction false} LongestFirst(
      src: seq<int>, pat: seq<int>, p: int, s: int, n: int, caps: seq<Capture>, d: nat, e: int)
    requires 0 <= p <= |pat| && 0 <= s <= e <= s + n <= |src| && CapsOk(caps, s) && d <= MAX_XLEVEL
    requires forall k :: e < k <= s + n ==> RestAt(src, pat, p, k, caps, d) == NoMatch
    requires RestAt(src, pat, p, e, caps, d) != NoMatch
    ensures First(Greedy(src, pat, p, s, n, caps, d)) == RestAt(src, pat, p, e, caps, d)
    decreases n
  {
    CapsLater(caps, s, s + n);
    assert e < s + n ==> RestAt(src, pat, p, s + n, caps, d) == NoMatch;
    if e < s + n {
      LongestFirst(src, pat, p, s, n - 1, caps, d, e);
    }
  }

  /** When no run lets the rest match there is no match. */
  lemma {:induction false} NoneGreedy(src: seq<int>, pat: seq<int>, p: int, s: int, n: int, caps: seq<Capture>, d: nat)
    requires 0 <= p <= |pat| && 0 <= s && -1 <= n && s + n <= |src| && CapsOk(caps, s) && d <= MAX_XLEVEL
    requires forall k :: s <= k <= s + n ==> RestAt(src, pat, p, k, caps, d) == NoMatch
    ensures First(Greedy(src, pat, p, s, n, caps, d)) == NoMatch
    decreases n + 1
  {
    if n >= 0 {
      CapsLater(caps, s, s + n);
      assert RestAt(src, pat, p, s + n, caps, d) == NoMatch;
      NoneGreedy(src, pat, p, s, n - 1, caps, d);
    }
  }

  /** `-` takes the shortest run from which the rest of the pattern matches. */
  lemma {:induction false} ShortestFirst(
      src: seq<int>, pat: seq<int>, p: int, ep: int, s: int, caps: seq<Capture>, d: nat, e: int, q: int)
    requires 0 <= p < |pat| && EndOfClass(pat, p) == At(ep) && ep < |pat| && 0 <= s <= e <= |src| && q == ep + 1
    requires e <= s + RunLength(src, pat, s, p, ep) && CapsOk(caps, s) && d <= MAX_XLEVEL
    requires forall k :: s <= k < e ==> RestAt(src, pat, q, k, caps, d) == NoMatch
    requires RestAt(src, pat, q, e, caps, d) != NoMatch
    ensures First(Lazy(src, pat, p, ep, s, caps, d)) == RestAt(src, pat, q, e, caps, d)
    decreases e - s
  {
    CapsLater(caps, s, s + 1);
    assert s < e ==> RestAt(src, pat, q, s, caps, d) == NoMatch;
    if s < e {
      ShortestFirst(src, pat, p, ep, s + 1, caps, d, e, q);
    }
  }
}
