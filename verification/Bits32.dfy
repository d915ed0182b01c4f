/** Facts about 32-bit words as sets of bits, each small enough for the solver to decide at once. */
module Bits32 {
  function And(a: bv32, b: bv32): bv32 {
    a & b
  }

  function Or(a: bv32, b: bv32): bv32 {
    a | b
  }

  function AndNot(a: bv32, b: bv32): bv32 {
    a & !b
  }

  // No bits are set in a that are not set in b.
  predicate Subset(a: bv32, b: bv32) {
    a & b == a
  }

  lemma AndCommutes(a: bv32, b: bv32)
    ensures And(a, b) == And(b, a)
  {
  }

  lemma AndSubset(a: bv32, b: bv32)
    ensures Subset(And(a, b), a)
  {
  }

  lemma AndNotSubset(a: bv32, b: bv32)
    ensures Subset(AndNot(a, b), a)
  {
  }

  lemma SubsetReflexive(a: bv32)
    ensures Subset(a, a)
  {
  }

  lemma SubsetTransitive(a: bv32, b: bv32, c: bv32)
    requires Subset(a, b) && Subset(b, c)
    ensures Subset(a, c)
  {
  }

  lemma AndNotOfAnd(a: bv32, b: bv32)
    ensures AndNot(a, And(b, a)) == AndNot(a, b)
  {
  }

  lemma ClearedApart(a: bv32, b: bv32)
    ensures And(AndNot(a, b), And(a, b)) == 0
  {
  }

  lemma AllInSuperset(a: bv32, b: bv32, c: bv32)
    requires Subset(a, b) && And(a, c) == c
    ensures And(b, c) == c
  {
  }

  lemma SomeInSuperset(a: bv32, b: bv32, c: bv32)
    requires Subset(a, b) && And(a, c) != 0
    ensures And(b, c) != 0
  {
  }

  lemma ApartFromSuperset(a: bv32, b: bv32, c: bv32, d: bv32)
    requires Subset(a, b) && Subset(c, d) && And(b, d) == 0
    ensures And(a, c) == 0
  {
  }

  predicate On(a: bv32, k: bv5) {
    (a >> k) & 1 == 1
  }

  lemma OnOfOr(a: bv32, b: bv32, k: bv5)
    ensures On(a | b, k) <==> On(a, k) || On(b, k)
  {
  }

  lemma OnOfAnd(a: bv32, b: bv32, k: bv5)
    ensures On(a & b, k) <==> On(a, k) && On(b, k)
  {
  }

  lemma OnOfNot(a: bv32, b: bv32, k: bv5)
    ensures On(a & !b, k) <==> On(a, k) && !On(b, k)
  {
  }

  lemma OnOr(a: bv32, b: bv32, k: bv5)
    ensures On(Or(a, b), k) <==> On(a, k) || On(b, k)
  {
    hide On;
    OnOfOr(a, b, k);
  }

  lemma OnAnd(a: bv32, b: bv32, k: bv5)
    ensures On(And(a, b), k) <==> On(a, k) && On(b, k)
  {
    hide On;
    OnOfAnd(a, b, k);
  }

  lemma OnAndNot(a: bv32, b: bv32, k: bv5)
    ensures On(AndNot(a, b), k) <==> On(a, k) && !On(b, k)
  {
    hide On;
    OnOfNot(a, b, k);
  }

  // A word with no bit set is zero.
  lemma NoneOn(a: bv32)
    requires forall k :: !On(a, k)
    ensures a == 0
  {
    assert !On(a, 0) && !On(a, 1) && !On(a, 2) && !On(a, 3) && !On(a, 4) && !On(a, 5) && !On(a, 6) && !On(a, 7);
    assert !On(a, 8) && !On(a, 9) && !On(a, 10) && !On(a, 11) && !On(a, 12) && !On(a, 13) && !On(a, 14) && !On(a, 15);
    assert !On(a, 16) && !On(a, 17) && !On(a, 18) && !On(a, 19) && !On(a, 20) && !On(a, 21) && !On(a, 22) && !On(a, 23);
    assert !On(a, 24) && !On(a, 25) && !On(a, 26) && !On(a, 27) && !On(a, 28) && !On(a, 29) && !On(a, 30) && !On(a, 31);
  }

  lemma ZeroOn(k: bv5)
    ensures !On(0, k)
  {
  }

  // All bits of b are set in a, or some are, bit by bit.
  lemma AllOn(a: bv32, b: bv32)
    ensures And(a, b) == b <==> forall k :: On(b, k) ==> On(a, k)
  {
    if And(a, b) == b {
      forall k | On(b, k) ensures On(a, k) {
        OnAnd(a, b, k);
      }
    } else if forall k :: On(b, k) ==> On(a, k) {
      forall k ensures !On(AndNot(b, a), k) {
        OnAndNot(b, a, k);
      }
      NoneOn(AndNot(b, a));
    }
  }

  lemma SomeOn(a: bv32, b: bv32)
    ensures And(a, b) != 0 <==> exists k :: On(a, k) && On(b, k)
  {
    forall k ensures On(And(a, b), k) <==> On(a, k) && On(b, k) {
      OnAnd(a, b, k);
    }
    if forall k :: !(On(a, k) && On(b, k)) {
      NoneOn(And(a, b));
    } else {
      var k :| On(a, k) && On(b, k);
      ZeroOn(k);
    }
  }
}
