/** Hexadecimal digits of either case, by their places. */
module Hexadecimal {
  const LOWER := "0123456789abcdef"
  const UPPER := "0123456789ABCDEF"

  predicate Means(c: char, v: nat) { v < 16 && (c == LOWER[v] || c == UPPER[v]) }

  lemma Places(v: nat)
    requires v < 16
    ensures LOWER[v] as int == if v < 10 then '0' as int + v else 'a' as int + v - 10
    ensures UPPER[v] as int == if v < 10 then '0' as int + v else 'A' as int + v - 10
  {
    match v
    case 0 => case 1 => case 2 => case 3 => case 4 => case 5 => case 6 => case 7 =>
    case 8 => case 9 => case 10 => case 11 => case 12 => case 13 => case 14 => case _ => assert v == 15;
  }
}
