/** Character classes of Lua patterns. Characters are the numbers of unsigned bytes. */
module LuaChars {
  const CNTRL: bv8 := 0x01
  const SPACE: bv8 := 0x02
  const PUNCT: bv8 := 0x04
  const DIGIT: bv8 := 0x08
  const XDIGIT: bv8 := 0x10
  const UPPER: bv8 := 0x20
  const LOWER: bv8 := 0x40
  const ALPHA: bv8 := 0x60
  const ALNUM: bv8 := 0x68
  const GRAPH: bv8 := 0x6c

  function Between(c: int, lo: char, hi: char): bool { lo as int <= c <= hi as int }

  /** The table of character types. */
  function CharBits(c: int): bv8 {
    if c < 0 then 0
    else if c < 9 then 1
    else if c < 14 then 3
    else if c < 32 then 1
    else if c == 32 then 2
    else if Between(c, '0', '9') then 152
    else if Between(c, 'A', 'F') then 176
    else if Between(c, 'G', 'Z') then 160
    else if c == '_' as int then 132
    else if Between(c, 'a', 'f') then 208
    else if Between(c, 'g', 'z') then 192
    else if c < 127 then 4
    else if c == 127 then 1
    else if c < 256 then 128
    else 0
  }

  predicate Isa(c: int, t: bv8) { CharBits(c) & t != 0 }

  /** The map from the low five bits of a class letter to its bits. */
  function ClassBits(i: int): bv8 {
    if i == 1 then ALPHA
    else if i == 3 then CNTRL
    else if i == 4 then DIGIT
    else if i == 7 then GRAPH
    else if i == 12 then LOWER
    else if i == 16 then PUNCT
    else if i == 19 then SPACE
    else if i == 21 then UPPER
    else if i == 23 then ALNUM
    else if i == 24 then XDIGIT
    else 0
  }

  /** match_class: does `c` belong to class `cl`, or is it the escaped character itself? */
  predicate MatchClass(c: int, cl: int) {
    if 64 <= cl < 128 && ClassBits(cl % 32) != 0 then
      (if cl / 32 % 2 == 1 then Isa(c, ClassBits(cl % 32)) else !Isa(c, ClassBits(cl % 32)))
    else if cl == 'z' as int then c == 0
    else if cl == 'Z' as int then c != 0
    else cl == c
  }

  predicate Letter(c: int) { Between(c, 'a', 'z') || Between(c, 'A', 'Z') }

  predicate Digit(c: int) { Between(c, '0', '9') }

  /** What an escaped character stands for: a class letter for its class, in upper case for all else, and any other
      character for itself. */
  predicate Means(cl: int, c: int) {
    if cl == 'a' as int then Letter(c) else if cl == 'A' as int then !Letter(c)
    else if cl == 'd' as int then Digit(c) else if cl == 'D' as int then !Digit(c)
    else if cl == 'l' as int then Between(c, 'a', 'z') else if cl == 'L' as int then !Between(c, 'a', 'z')
    else if cl == 'u' as int then Between(c, 'A', 'Z') else if cl == 'U' as int then !Between(c, 'A', 'Z')
    else if cl == 'w' as int then Letter(c) || Digit(c) else if cl == 'W' as int then !Letter(c) && !Digit(c)
    else if cl == 's' as int then c == 32 || 9 <= c <= 13 else if cl == 'S' as int then c != 32 && !(9 <= c <= 13)
    else if cl == 'c' as int then c < 32 || c == 127 else if cl == 'C' as int then 32 <= c && c != 127
    else if cl == 'p' as int then Punctuation(c) else if cl == 'P' as int then !Punctuation(c)
    else if cl == 'g' as int then 33 <= c <= 126 else if cl == 'G' as int then !(33 <= c <= 126)
    else if cl == 'x' as int then Hexadecimal(c) else if cl == 'X' as int then !Hexadecimal(c)
    else if cl == 'z' as int then c == 0 else if cl == 'Z' as int then c != 0
    else c == cl
  }

  predicate Punctuation(c: int) { 33 <= c <= 126 && !Letter(c) && !Digit(c) }

  predicate Hexadecimal(c: int) { Digit(c) || Between(c, 'a', 'f') || Between(c, 'A', 'F') }

  /** The classes of the bit table are what their letters say, for every byte and every escaped character. */
  lemma ClassMeaning(c: int, cl: int)
    requires 0 <= c < 256
    ensures MatchClass(c, cl) <==> Means(cl, c)
  {
    hide Isa, Letter, Digit, Punctuation, Hexadecimal;
    TableMeaning(c);
    LetterCase(cl);
  }

  lemma LetterCase(cl: int)
    ensures 64 <= cl < 96 ==> cl % 32 == cl - 64 && cl / 32 % 2 == 0
    ensures 96 <= cl < 128 ==> cl % 32 == cl - 96 && cl / 32 % 2 == 1
  {}

  lemma TableMeaning(c: int)
    requires 0 <= c < 256
    ensures Isa(c, ALPHA) <==> Letter(c)
    ensures Isa(c, DIGIT) <==> Digit(c)
    ensures Isa(c, ALNUM) <==> Letter(c) || Digit(c)
    ensures Isa(c, LOWER) <==> Between(c, 'a', 'z')
    ensures Isa(c, UPPER) <==> Between(c, 'A', 'Z')
    ensures Isa(c, SPACE) <==> c == 32 || 9 <= c <= 13
    ensures Isa(c, CNTRL) <==> c < 32 || c == 127
    ensures Isa(c, PUNCT) <==> Punctuation(c)
    ensures Isa(c, GRAPH) <==> 33 <= c <= 126
    ensures Isa(c, XDIGIT) <==> Hexadecimal(c)
  {}

  /** An upper case class letter is the complement; any other escaped character stands for itself. */
  lemma ClassComplement(c: int, cl: int)
    requires Between(cl, 'a', 'z')
    ensures ClassBits(cl % 32) != 0 || cl == 'z' as int ==> (MatchClass(c, cl - 32) <==> !MatchClass(c, cl))
    ensures ClassBits(cl % 32) == 0 && cl != 'z' as int ==>
      (MatchClass(c, cl) <==> c == cl) && (MatchClass(c, cl - 32) <==> c == cl - 32)
  {}
}
