/** What string.gsub makes of a subject, said by its pieces. */
module LuaReplace {
  import opened LuaChars
  import opened LuaPattern
  import opened LuaSearch

  // ----- Templates -----

  /** What a template is made of. */
  datatype Part = Character(c: int) | Escape(c: int) | Whole | Numbered(k: int)

  predicate PartOk(p: Part) {
    match p
    case Character(c) => c != ESC
    case Escape(c) => !Digit(c)
    case Whole => true
    case Numbered(k) => 1 <= k <= 9
  }

  function PartText(p: Part): seq<int> {
    match p
    case Character(c) => [c]
    case Escape(c) => [ESC, c]
    case Whole => [ESC, '0' as int]
    case Numbered(k) => [ESC, '0' as int + k]
  }

  function TemplateText(ps: seq<Part>): seq<int> {
    if ps == [] then [] else PartText(ps[0]) + TemplateText(ps[1..])
  }

  /** The template is written from these parts, with an escape alone at its end or without. */
  predicate IsTemplate(news: seq<int>, ps: seq<Part>, alone: bool) {
    (forall i :: 0 <= i < |ps| ==> PartOk(ps[i])) && news == TemplateText(ps) + if alone then [ESC] else []
  }

  /** Every template is. */
  lemma {:induction false} EveryTemplate(news: seq<int>) returns (ps: seq<Part>, alone: bool)
    ensures IsTemplate(news, ps, alone)
    decreases |news|
  {
    if news == [] {
      ps, alone := [], false;
    } else if news == [ESC] {
      ps, alone := [], true;
    } else {
      var first :=
        if news[0] != ESC then Character(news[0])
        else if news[1] == '0' as int then Whole
        else if Digit(news[1]) then Numbered(news[1] - '0' as int)
        else Escape(news[1]);
      var rest;
      rest, alone := EveryTemplate(news[|PartText(first)|..]);
      ps := [first] + rest;
      assert ps[1..] == rest;
      assert news == PartText(first) + news[|PartText(first)|..];
    }
  }

  /** The capture that a part names is missing or still open; the first stands for the match if there are none. */
  predicate Fails(p: Part, caps: seq<Capture>) {
    p.Numbered? && if p.k <= |caps| then p.k >= 1 && caps[p.k - 1].len == CAP_UNFINISHED else p.k > 1 || |caps| > 0
  }

  /** What stands for a part: itself, the match, or the text or place that a capture holds. */
  function Standing(src: seq<int>, p: Part, caps: seq<Capture>, s: int, e: int): seq<int>
    requires 0 <= s <= e <= |src| && CapsOk(caps, e) && PartOk(p) && !Fails(p, caps)
  {
    match p
    case Character(c) => [c]
    case Escape(c) => [c]
    case Whole => src[s..e]
    case Numbered(k) =>
      if k > |caps| then src[s..e]
      else
        var c := caps[k - 1];
        assert CaptureOk(c, e);
        if c.len == CAP_POSITION then Decimal(c.start + 1) else src[c.start..c.start + c.len]
  }

  function AllStanding(src: seq<int>, ps: seq<Part>, caps: seq<Capture>, s: int, e: int): seq<int>
    requires 0 <= s <= e <= |src| && CapsOk(caps, e)
    requires forall i :: 0 <= i < |ps| ==> PartOk(ps[i]) && !Fails(ps[i], caps)
  {
    if ps == [] then [] else Standing(src, ps[0], caps, s, e) + AllStanding(src, ps[1..], caps, s, e)
  }

  /** The error of the first part that fails. */
  predicate FirstFails(ps: seq<Part>, caps: seq<Capture>, i: int, error: Error) {
    && 0 <= i < |ps| && Fails(ps[i], caps) && (forall j :: 0 <= j < i ==> !Fails(ps[j], caps))
    && error == if ps[i].k > |caps| then BadCapture else UnfinishedCapture
  }

  /** The parts become this text, one after the other, or this error. An escape alone at the end adds a zero. */
  ghost predicate Becomes(
      src: seq<int>, ps: seq<Part>, alone: bool, caps: seq<Capture>, s: int, e: int, t: LuaSearch.Text)
    requires 0 <= s <= e <= |src| && CapsOk(caps, e) && forall i :: 0 <= i < |ps| ==> PartOk(ps[i])
  {
    match t
    case Made(text) =>
      (forall i :: 0 <= i < |ps| ==> !Fails(ps[i], caps))
      && text == AllStanding(src, ps, caps, s, e) + if alone then [0] else []
    case Broken(error) => exists i :: FirstFails(ps, caps, i, error)
  }

  lemma {:induction false} TemplateFrom(
      src: seq<int>, news: seq<int>, i: nat, ps: seq<Part>, alone: bool, caps: seq<Capture>, s: int, e: int)
    requires 0 <= s <= e <= |src| && CapsOk(caps, e) && i <= |news| && IsTemplate(news[i..], ps, alone)
    ensures Becomes(src, ps, alone, caps, s, e, Expand(src, news, i, caps, s, e))
    decreases |ps|
  {
    if ps == [] {
      NoParts(src, news, i, alone, caps, s, e);
    } else {
      hide Expand, Becomes, PartText, Front;
      var w := PartText(ps[0]);
      PartsSplit(news, i, ps, alone);
      TemplateFrom(src, news, i + |w|, ps[1..], alone, caps, s, e);
      PartFrom(src, news, i, ps[0], caps, s, e);
      Prepended(src, ps, alone, caps, s, e, Expand(src, news, i + |w|, caps, s, e));
    }
  }

  lemma NoParts(src: seq<int>, news: seq<int>, i: nat, alone: bool, caps: seq<Capture>, s: int, e: int)
    requires 0 <= s <= e <= |src| && CapsOk(caps, e) && i <= |news| && news[i..] == if alone then [ESC] else []
    ensures Becomes(src, [], alone, caps, s, e, Expand(src, news, i, caps, s, e))
  {
    if alone {
      assert news[i] == news[i..][0] == ESC && |news[i..]| == 1;
      assert Expand(src, news, i + 2, caps, s, e) == Made([]);
      assert Expand(src, news, i, caps, s, e) == Made([0]);
      assert [] + [0] == [0];
    } else {
      assert |news[i..]| == 0;
    }
  }

  lemma PartsSplit(news: seq<int>, i: nat, ps: seq<Part>, alone: bool)
    requires i <= |news| && IsTemplate(news[i..], ps, alone) && ps != []
    ensures PartOk(ps[0]) && i + |PartText(ps[0])| <= |news|
    ensures forall k :: 0 <= k < |PartText(ps[0])| ==> news[i + k] == PartText(ps[0])[k]
    ensures IsTemplate(news[i + |PartText(ps[0])|..], ps[1..], alone)
  {
    hide PartText, PartOk;
    var w, rest := PartText(ps[0]), TemplateText(ps[1..]) + if alone then [ESC] else [];
    assert news[i..] == w + rest;
    assert forall k :: 0 <= k < |w| ==> news[i..][k] == w[k];
    assert news[i + |w|..] == news[i..][|w|..] == rest;
  }

  /** A part at the front, and what the rest becomes. */
  function Front(src: seq<int>, p: Part, caps: seq<Capture>, s: int, e: int, rest: LuaSearch.Text): LuaSearch.Text
    requires 0 <= s <= e <= |src| && CapsOk(caps, e) && PartOk(p)
  {
    if Fails(p, caps) then Broken(if p.k > |caps| then BadCapture else UnfinishedCapture)
    else Joined(Made(Standing(src, p, caps, s, e)), rest)
  }

  lemma PartFrom(src: seq<int>, news: seq<int>, i: nat, p: Part, caps: seq<Capture>, s: int, e: int)
    requires 0 <= s <= e <= |src| && CapsOk(caps, e) && PartOk(p) && i + |PartText(p)| <= |news|
    requires forall k :: 0 <= k < |PartText(p)| ==> news[i + k] == PartText(p)[k]
    ensures Expand(src, news, i, caps, s, e)
      == Front(src, p, caps, s, e, Expand(src, news, i + |PartText(p)|, caps, s, e))
  {
    assert news[i + 0] == PartText(p)[0];
    if |PartText(p)| > 1 { assert news[i + 1] == PartText(p)[1]; }
    if p.Numbered? && 1 <= p.k <= |caps| { assert CaptureOk(caps[p.k - 1], e); }
  }

  lemma Prepended(
      src: seq<int>, ps: seq<Part>, alone: bool, caps: seq<Capture>, s: int, e: int, rest: LuaSearch.Text)
    requires 0 <= s <= e <= |src| && CapsOk(caps, e) && ps != [] && forall i :: 0 <= i < |ps| ==> PartOk(ps[i])
    requires Becomes(src, ps[1..], alone, caps, s, e, rest)
    ensures Becomes(src, ps, alone, caps, s, e, Front(src, ps[0], caps, s, e, rest))
  {
    var t := Front(src, ps[0], caps, s, e, rest);
    if Fails(ps[0], caps) {
      assert FirstFails(ps, caps, 0, t.error);
    } else if rest.Broken? {
      var i :| FirstFails(ps[1..], caps, i, rest.error);
      assert FirstFails(ps, caps, i + 1, rest.error);
    } else {
      forall i | 0 <= i < |ps| ensures !Fails(ps[i], caps) { assert i > 0 ==> ps[i] == ps[1..][i - 1]; }
      var z := if alone then [0] else [];
      var a, b := Standing(src, ps[0], caps, s, e), AllStanding(src, ps[1..], caps, s, e);
      assert a + (b + z) == a + b + z;
    }
  }

  /** The digits say the number, and there is no zero in front. */
  lemma {:induction false} DecimalReads(n: nat)
    ensures var d := Decimal(n);
      && d != [] && (forall i :: 0 <= i < |d| ==> '0' as int <= d[i] <= '9' as int)
      && Number(d) == n && (n > 0 ==> d[0] != '0' as int)
    decreases n
  {
    if n >= 10 {
      DecimalReads(n / 10);
      var d := Decimal(n);
      assert d[..|d| - 1] == Decimal(n / 10);
    } else {
      assert Decimal(n)[..0] == [];
    }
  }

  function Number(d: seq<int>): int {
    if d == [] then 0 else 10 * Number(d[..|d| - 1]) + (d[|d| - 1] - '0' as int)
  }

  // ----- Replacements -----

  /** What a match is replaced with: its template's text, or the answer of a call, or itself without an answer. */
  ghost predicate Says(src: seq<int>, repl: Replacement, caps: seq<Capture>, s: int, e: int, t: LuaSearch.Text)
    requires 0 <= s <= e <= |src| && CapsOk(caps, e)
  {
    match repl
    case Template(news) => exists ps, alone :: IsTemplate(news, ps, alone) && Becomes(src, ps, alone, caps, s, e, t)
    case Answer(f) =>
      if exists i :: 0 <= i < |caps| && caps[i].len == CAP_UNFINISHED then t == Broken(UnfinishedCapture)
      else t == Made(if f(s, e, caps) == [] then src[s..e] else f(s, e, caps)[0])
  }

  lemma AddedSays(src: seq<int>, repl: Replacement, caps: seq<Capture>, s: int, e: int)
    requires 0 <= s <= e <= |src| && CapsOk(caps, e)
    ensures Says(src, repl, caps, s, e, Added(src, repl, caps, s, e))
  {
    match repl
    case Answer(f) =>
    case Template(news) =>
      var ps, alone := EveryTemplate(news);
      assert news[0..] == news;
      TemplateFrom(src, news, 0, ps, alone, caps, s, e);
  }

  // ----- Substitutions -----

  /** One substitution: where the match is, its captures, and the text that replaces it. */
  datatype Sub = Sub(at: int, end: int, caps: seq<Capture>, text: seq<int>)

  /** Where the search goes on: behind the match, or one further if it is empty. */
  function After(sub: Sub): int { if sub.end > sub.at then sub.end else sub.at + 1 }

  ghost predicate NoneFrom(src: seq<int>, pat: seq<int>, p: int, from: int, upto: int)
    requires 0 <= p <= |pat|
  {
    0 <= from && upto <= |src| + 1 && forall j :: from <= j < upto ==> MatchAt(src, pat, p, j) == NoMatch
  }

  /** The leftmost match from `from` on, and its replacement. */
  ghost predicate Leftmost(src: seq<int>, pat: seq<int>, p: int, repl: Replacement, from: int, sub: Sub)
    requires 0 <= p <= |pat|
  {
    && 0 <= from <= sub.at <= sub.end <= |src| && CapsOk(sub.caps, sub.end)
    && NoneFrom(src, pat, p, from, sub.at) && MatchAt(src, pat, p, sub.at) == Found(sub.end, sub.caps)
    && Says(src, repl, sub.caps, sub.at, sub.end, Made(sub.text))
  }

  /** Successive leftmost matches. */
  ghost predicate Chain(src: seq<int>, pat: seq<int>, p: int, repl: Replacement, from: int, subs: seq<Sub>)
    requires 0 <= p <= |pat|
    decreases |subs|
  {
    subs == [] ||
    (Leftmost(src, pat, p, repl, from, subs[0]) && Chain(src, pat, p, repl, After(subs[0]), subs[1..]))
  }

  /** Where the search goes on after all of them. */
  function Rest(from: int, subs: seq<Sub>): int
    decreases |subs|
  {
    if subs == [] then from else Rest(After(subs[0]), subs[1..])
  }

  /** The untouched stretches and the replacements, in order. */
  function Assembled(src: seq<int>, from: int, subs: seq<Sub>): seq<int>
    decreases |subs|
  {
    if subs == [] then Stretch(src, from, |src|)
    else Stretch(src, from, subs[0].at) + subs[0].text + Assembled(src, subs[0].end, subs[1..])
  }

  function Stretch(src: seq<int>, from: int, upto: int): seq<int> {
    if 0 <= from <= upto <= |src| then src[from..upto] else []
  }

  /** The next match raises an error, or its replacement does. */
  ghost predicate Stops(src: seq<int>, pat: seq<int>, p: int, repl: Replacement, from: int, at: int, error: Error)
    requires 0 <= p <= |pat|
  {
    && 0 <= from <= at <= |src| && NoneFrom(src, pat, p, from, at)
    && match MatchAt(src, pat, p, at)
       case Failed(err) => err == error
       case Found(e, caps) => at <= e <= |src| && CapsOk(caps, e) && Says(src, repl, caps, at, e, Broken(error))
       case NoMatch => false
  }

  /** A result and the substitutions that explain it. */
  ghost predicate Explains(
      src: seq<int>, pat: seq<int>, p: int, repl: Replacement, max: int, from: int, n: int, subs: seq<Sub>,
      r: GsubResult)
    requires 0 <= p <= |pat|
  {
    && Chain(src, pat, p, repl, from, subs) && (subs != [] ==> n + |subs| <= max)
    && match r
       case Replaced(text, count) =>
         && text == Assembled(src, from, subs) && count == n + |subs|
         && (count >= max || NoneFrom(src, pat, p, Rest(from, subs), |src| + 1))
       case GsubError(error) =>
         n + |subs| < max && exists at :: Stops(src, pat, p, repl, Rest(from, subs), at, error)
  }

  /** A pattern without an anchor. */
  lemma {:induction false} GsubFrom(src: seq<int>, pat: seq<int>, repl: Replacement, max: int, s: int, n: nat)
    returns (subs: seq<Sub>)
    requires 0 <= s <= |src| && !Anchored(pat)
    ensures Explains(src, pat, 0, repl, max, s, n, subs, Gsub(src, pat, repl, max, s, n))
    ensures subs != [] ==> subs[0].at >= s
    decreases |src| - s
  {
    hide Says, MatchAt, Added, Explains;
    subs := [];
    if n >= max {
      NothingLeft(src, pat, repl, max, s, n);
    } else {
      MatchInside(src, pat, 0, s);
      match MatchAt(src, pat, 0, s)
      case Failed(error) => Stopped(src, pat, repl, max, s, n, error);
      case NoMatch =>
        if s < |src| {
          subs := GsubFrom(src, pat, repl, max, s + 1, n);
          Skipped(src, pat, repl, max, s, n, subs, Gsub(src, pat, repl, max, s + 1, n));
        } else {
          assert src[s..] == [];
          NothingLeft(src, pat, repl, max, s, n);
        }
      case Found(e, caps) =>
        AddedSays(src, repl, caps, s, e);
        var added := Added(src, repl, caps, s, e);
        if added.Broken? {
          Stopped(src, pat, repl, max, s, n, added.error);
        } else {
          var sub := Sub(s, e, caps, added.text);
          if s < |src| {
            var rest := GsubFrom(src, pat, repl, max, After(sub), n + 1);
            Replacing(src, pat, repl, max, n, sub, rest, Gsub(src, pat, repl, max, After(sub), n + 1));
            subs := [sub] + rest;
          } else {
            LastOne(src, pat, repl, max, n, sub);
            subs := [sub];
          }
        }
    }
  }

  lemma NothingLeft(src: seq<int>, pat: seq<int>, repl: Replacement, max: int, s: int, n: nat)
    requires 0 <= s <= |src| && (n >= max || (s == |src| && MatchAt(src, pat, 0, s) == NoMatch))
    ensures Explains(src, pat, 0, repl, max, s, n, [], Replaced(src[s..], n))
  {
    hide Says, MatchAt;
    assert src[s..|src|] == src[s..];
  }

  lemma Stopped(src: seq<int>, pat: seq<int>, repl: Replacement, max: int, s: int, n: nat, error: Error)
    requires n < max && Stops(src, pat, 0, repl, s, s, error)
    ensures Explains(src, pat, 0, repl, max, s, n, [], GsubError(error))
  {
    hide Stops;
    assert Rest(s, []) == s;
  }

  /** A match at the end of the subject is the last one. */
  lemma LastOne(src: seq<int>, pat: seq<int>, repl: Replacement, max: int, n: nat, sub: Sub)
    requires Leftmost(src, pat, 0, repl, |src|, sub) && n < max
    ensures Explains(src, pat, 0, repl, max, |src|, n, [sub], Replaced(sub.text, n + 1))
  {
    hide Says, MatchAt;
    assert [sub] == [sub] + [];
    Linked(src, |src|, sub, []);
    ChainLinked(src, pat, repl, |src|, sub, []);
    assert [] + sub.text + [] == sub.text;
  }

  lemma Linked(src: seq<int>, from: int, sub: Sub, rest: seq<Sub>)
    ensures Assembled(src, from, [sub] + rest) == Stretch(src, from, sub.at) + sub.text + Assembled(src, sub.end, rest)
    ensures Rest(from, [sub] + rest) == Rest(After(sub), rest)
  {
    assert ([sub] + rest)[1..] == rest;
  }

  lemma ChainLinked(src: seq<int>, pat: seq<int>, repl: Replacement, from: int, sub: Sub, rest: seq<Sub>)
    requires Leftmost(src, pat, 0, repl, from, sub) && Chain(src, pat, 0, repl, After(sub), rest)
    ensures Chain(src, pat, 0, repl, from, [sub] + rest)
  {
    hide Leftmost;
    assert ([sub] + rest)[1..] == rest;
  }

  /** No match here, and the rest explained. */
  lemma Skipped(
      src: seq<int>, pat: seq<int>, repl: Replacement, max: int, s: int, n: nat, subs: seq<Sub>, r: GsubResult)
    requires 0 <= s < |src| && MatchAt(src, pat, 0, s) == NoMatch
    requires Explains(src, pat, 0, repl, max, s + 1, n, subs, r)
    ensures Explains(src, pat, 0, repl, max, s, n, subs, Before([src[s]], r))
  {
    hide Says, MatchAt, Leftmost, Stops, NoneFrom;
    if subs != [] {
      assert Rest(s, subs) == Rest(s + 1, subs);
      LeftmostAt(src, pat, 0, repl, s + 1, subs[0]);
      LeftmostSooner(src, pat, repl, s, subs[0]);
    } else if r.GsubError? {
      assert Rest(s + 1, []) == s + 1 && Rest(s, []) == s;
      var at :| Stops(src, pat, 0, repl, s + 1, at, r.error);
      StopsSooner(src, pat, repl, s, at, r.error);
    } else if r.n < max {
      NoneSooner(src, pat, s, |src| + 1);
    }
    OneMore(src, s, subs);
  }

  lemma NoneSooner(src: seq<int>, pat: seq<int>, s: int, upto: int)
    requires 0 <= s <= |src| && MatchAt(src, pat, 0, s) == NoMatch && NoneFrom(src, pat, 0, s + 1, upto)
    ensures NoneFrom(src, pat, 0, s, upto)
  {
    hide MatchAt;
  }

  lemma LeftmostSooner(src: seq<int>, pat: seq<int>, repl: Replacement, s: int, sub: Sub)
    requires 0 <= s <= |src| && MatchAt(src, pat, 0, s) == NoMatch && Leftmost(src, pat, 0, repl, s + 1, sub)
    ensures Leftmost(src, pat, 0, repl, s, sub)
  {
    hide MatchAt, Says;
  }

  lemma StopsSooner(src: seq<int>, pat: seq<int>, repl: Replacement, s: int, at: int, error: Error)
    requires 0 <= s <= |src| && MatchAt(src, pat, 0, s) == NoMatch && Stops(src, pat, 0, repl, s + 1, at, error)
    ensures Stops(src, pat, 0, repl, s, at, error)
  {
    hide MatchAt, Says;
  }

  /** A match here, and the rest explained; an empty match leaves its character to the rest. */
  lemma Replacing(
      src: seq<int>, pat: seq<int>, repl: Replacement, max: int, n: nat, sub: Sub, rest: seq<Sub>, r: GsubResult)
    requires Leftmost(src, pat, 0, repl, sub.at, sub) && n < max && After(sub) <= |src|
    requires Explains(src, pat, 0, repl, max, After(sub), n + 1, rest, r) && (rest != [] ==> rest[0].at >= After(sub))
    ensures Explains(src, pat, 0, repl, max, sub.at, n, [sub] + rest,
      Before(if sub.end > sub.at then sub.text else sub.text + [src[sub.at]], r))
  {
    hide Says, MatchAt, Leftmost, Stops, NoneFrom, Assembled, Rest, Chain;
    LeftmostAt(src, pat, 0, repl, sub.at, sub);
    Linked(src, sub.at, sub, rest);
    ChainLinked(src, pat, repl, sub.at, sub, rest);
    if sub.end == sub.at {
      if rest != [] { ChainFirst(src, pat, repl, After(sub), rest); }
      OneMore(src, sub.at, rest);
    }
    if r.Replaced? {
      assert [] + sub.text == sub.text;
      if sub.end == sub.at { Regroup(sub.text, [src[sub.at]], r.text); }
    }
  }

  lemma ChainFirst(src: seq<int>, pat: seq<int>, repl: Replacement, from: int, subs: seq<Sub>)
    requires Chain(src, pat, 0, repl, from, subs) && subs != []
    ensures from <= subs[0].at <= |src|
  {
    hide Says, MatchAt, NoneFrom;
  }

  lemma LeftmostAt(src: seq<int>, pat: seq<int>, p: int, repl: Replacement, from: int, sub: Sub)
    requires 0 <= p <= |pat| && Leftmost(src, pat, p, repl, from, sub)
    ensures 0 <= from <= sub.at <= sub.end <= |src|
  {}

  lemma Regroup(a: seq<int>, b: seq<int>, c: seq<int>)
    ensures a + b + c == a + (b + c)
  {}

  lemma StretchMore(src: seq<int>, s: int, upto: int)
    requires 0 <= s < |src| && s + 1 <= upto <= |src|
    ensures Stretch(src, s, upto) == [src[s]] + Stretch(src, s + 1, upto)
  {
    assert src[s..upto] == [src[s]] + src[s + 1..upto];
  }

  lemma FirstAssembled(src: seq<int>, from: int, subs: seq<Sub>)
    ensures subs == [] ==> Assembled(src, from, subs) == Stretch(src, from, |src|)
    ensures subs != [] ==>
      Assembled(src, from, subs)
        == Stretch(src, from, subs[0].at) + (subs[0].text + Assembled(src, subs[0].end, subs[1..]))
  {
    if subs != [] {
      Regroup(Stretch(src, from, subs[0].at), subs[0].text, Assembled(src, subs[0].end, subs[1..]));
    }
  }

  lemma OneMore(src: seq<int>, s: int, subs: seq<Sub>)
    requires 0 <= s < |src| && (subs != [] ==> s + 1 <= subs[0].at <= |src|)
    ensures Assembled(src, s, subs) == [src[s]] + Assembled(src, s + 1, subs)
  {
    hide Assembled, Stretch;
    FirstAssembled(src, s, subs);
    FirstAssembled(src, s + 1, subs);
    if subs == [] {
      StretchMore(src, s, |src|);
    } else {
      StretchMore(src, s, subs[0].at);
      Regroup([src[s]], Stretch(src, s + 1, subs[0].at), subs[0].text + Assembled(src, subs[0].end, subs[1..]));
    }
  }

  /**
   * The result of gsub is the untouched stretches and the replacements at successive leftmost matches, in order, until
   * there are as many as allowed or no match is left; or the error of the next match or of its replacement. With an
   * anchor in front of the pattern only a match at the start of the subject counts.
   */
  lemma GsubExplained(src: seq<int>, pat: seq<int>, repl: Replacement, max: int) returns (subs: seq<Sub>)
    ensures var r := Gsub(src, pat, repl, max, 0, 0);
      if |pat| > 0 && pat[0] == '^' as int then
        && |subs| <= 1 && (subs != [] ==> subs[0].at == 0 && Leftmost(src, pat, 1, repl, 0, subs[0]) && 0 < max)
        && match r
           case Replaced(text, count) =>
             && text == Assembled(src, 0, subs) && count == |subs|
             && (max <= 0 || subs != [] || MatchAt(src, pat, 1, 0) == NoMatch)
           case GsubError(error) => subs == [] && 0 < max && Stops(src, pat, 1, repl, 0, 0, error)
      else
        Explains(src, pat, 0, repl, max, 0, 0, subs, r)
  {
    if Anchored(pat) {
      hide Says, MatchAt, Added;
      subs := [];
      assert src[0..|src|] == src[0..] == src;
      if 0 < max {
        MatchInside(src, pat, 1, 0);
        match MatchAt(src, pat, 1, 0)
        case Failed(error) =>
        case NoMatch =>
        case Found(e, caps) =>
          AddedSays(src, repl, caps, 0, e);
          var added := Added(src, repl, caps, 0, e);
          if added.Made? {
            subs := [Sub(0, e, caps, added.text)];
            AnchoredText(src, subs[0]);
            AnchoredRest(src, added.text);
          }
      }
    } else {
      subs := GsubFrom(src, pat, repl, max, 0, 0);
    }
  }

  lemma AnchoredText(src: seq<int>, sub: Sub)
    requires sub.at == 0 <= sub.end <= |src|
    ensures Assembled(src, 0, [sub]) == sub.text + src[sub.end..]
  {
    hide Assembled, Rest;
    assert [sub] == [sub] + [];
    Linked(src, 0, sub, []);
    Tail(src, sub.end);
    assert [] + sub.text == sub.text;
  }

  lemma AnchoredRest(src: seq<int>, text: seq<int>)
    ensures |src| > 0 ==> text + src[0..] == text + [src[0]] + src[1..]
    ensures |src| == 0 ==> text + src[0..] == text
  {
    if |src| > 0 { assert src[0..] == [src[0]] + src[1..]; }
  }

  lemma Tail(src: seq<int>, from: int)
    requires 0 <= from <= |src|
    ensures Assembled(src, from, []) == src[from..]
  {
    assert src[from..|src|] == src[from..];
  }
}
