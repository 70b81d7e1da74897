/** Bit maps of 32 bits, as sets of numbers. */
module BitSets {
  /** The least marked bit at or above `i`, or 32 (lj_ffs). */
  function LeastFrom(s: set<int>, i: nat): (r: nat)
    requires i <= 32
    ensures i <= r <= 32 && (r < 32 ==> r in s)
    ensures forall j :: i <= j < r ==> j !in s
    decreases 32 - i
  {
    if i == 32 || i in s then i else LeastFrom(s, i + 1)
  }

  /** The greatest marked bit below `i`, or -1 (lj_fls). */
  function MostBelow(s: set<int>, i: nat): (r: int)
    requires i <= 32
    ensures -1 <= r < i && (r >= 0 ==> r in s)
    ensures forall j :: r < j < i ==> j !in s
  {
    if i == 0 then -1 else if i - 1 in s then i - 1 else MostBelow(s, i - 1)
  }
}
