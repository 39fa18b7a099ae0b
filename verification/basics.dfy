/**
  What several of the models share: an optional value, the numbers below a bound, quotients.
 */
module Basics {

  datatype Option<T> = None | Some(value: T)

  function Below(n: nat): (all: set<nat>)
    ensures forall i: nat :: i in all <==> i < n
  {
    if n == 0 then {} else Below(n - 1) + {n - 1}
  }

  // ---- quotients --------------------------------------------------------------------------

  lemma TimesGrows(a: nat, b: nat, d: nat)
    ensures a <= b ==> a * d <= b * d
    ensures a < b ==> a * d + d <= b * d
  {
    if a < b {
      var k := b - a - 1;
      assert b * d == (a + 1 + k) * d == a * d + d + k * d;
    }
  }

  lemma QuotientIs(q: nat, r: nat, d: nat, k: nat, m: nat)
    requires q * d + r == k * d + m && r < d && m < d
    ensures q == k && r == m
  {
    TimesGrows(q, k, d);
    TimesGrows(k, q, d);
  }
}
