/** Facts about sequences that the verifier needs spelled out. */
module Sequences {
  lemma Regroup<T>(a: seq<T>, b: seq<T>, c: seq<T>)
    ensures a + b + c == a + (b + c)
  {
  }

  // ---------- Positions where a sequence holds another ----------

  predicate Has<T(==)>(s: seq<T>, i: nat, a: seq<T>) {
    i + |a| <= |s| && forall k: nat | k < |a| :: s[i + k] == a[k]
  }

  lemma HasCat<T>(s: seq<T>, i: nat, a: seq<T>, b: seq<T>)
    ensures Has(s, i, a + b) <==> Has(s, i, a) && Has(s, i + |a|, b)
  {
    var ab := a + b;
    if Has(s, i, ab) {
      forall k: nat | k < |a| ensures s[i + k] == a[k] { assert s[i + k] == ab[k]; }
      forall k: nat | k < |b| ensures s[i + |a| + k] == b[k] { assert s[i + (|a| + k)] == ab[|a| + k]; }
    }
    if Has(s, i, a) && Has(s, i + |a|, b) {
      forall k: nat | k < |ab| ensures s[i + k] == ab[k] {
        if k >= |a| {
          assert s[i + |a| + (k - |a|)] == b[k - |a|];
        }
      }
    }
  }

  lemma HasSlice<T>(s: seq<T>, i: nat, e: nat)
    requires i <= e <= |s|
    ensures Has(s, i, s[i..e])
  {
  }

  lemma SliceHas<T>(s: seq<T>, i: nat, a: seq<T>)
    requires Has(s, i, a)
    ensures s[i..i + |a|] == a
  {
  }
}
