/** Facts about products that the verifier needs spelled out. */
module Arithmetic {
  lemma TimesKeepsOrder(a: int, b: int, c: nat)
    ensures a <= b ==> a * c <= b * c
    ensures a < b && c > 0 ==> a * c < b * c
  {
    if a <= b {
      assert b * c == a * c + (b - a) * c;
    }
  }
}
