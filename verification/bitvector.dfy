/** Sets of arguments as fixed-length bit vectors (argumatrix::bitvector over
    boost::dynamic_bitset). Bit i stands for the argument with index i. */
module Bitvector {

  type Bitvec = seq<bool>

  /** `a * b`: true iff some index is set in both operands. The operands must
      have the same size (the assertion in the source). */
  function Intersects(a: Bitvec, b: Bitvec): (r: bool)
    requires |a| == |b|
    ensures r <==> exists i :: 0 <= i < |a| && a[i] && b[i]
  {
    if |a| == 0 then false
    else if a[0] && b[0] then true
    else
      assert forall i :: 1 <= i < |a| ==> a[i] == a[1..][i - 1] && b[i] == b[1..][i - 1];
      Intersects(a[1..], b[1..])
  }

  /** `is_emptyset()`: no bit is set (`!any()`). */
  function IsEmptySet(a: Bitvec): (r: bool)
    ensures r <==> forall i :: 0 <= i < |a| ==> !a[i]
  {
    if |a| == 0 then true
    else
      assert forall i :: 1 <= i < |a| ==> a[i] == a[1..][i - 1];
      !a[0] && IsEmptySet(a[1..])
  }

  /** `is_universal()`: every bit is set (`all()`). */
  function IsUniversal(a: Bitvec): (r: bool)
    ensures r <==> forall i :: 0 <= i < |a| ==> a[i]
  {
    if |a| == 0 then true
    else
      assert forall i :: 1 <= i < |a| ==> a[i] == a[1..][i - 1];
      a[0] && IsUniversal(a[1..])
  }

  /** `EmptySet(n)`: n bits, all 0. */
  function EmptySet(n: nat): (r: Bitvec)
    ensures |r| == n && IsEmptySet(r)
  {
    seq(n, _ => false)
  }

  /** `UniversalSet(n)`: n bits, all 1. */
  function UniversalSet(n: nat): (r: Bitvec)
    ensures |r| == n && IsUniversal(r)
  {
    seq(n, _ => true)
  }

  /** `Increase()`: a stub in the source; it leaves the vector alone and
      reports success. */
  function Increase(a: Bitvec): (r: (Bitvec, bool))
    ensures r.0 == a && r.1
  {
    (a, true)
  }

  // The dynamic_bitset operators the engine uses: |, &, -, ~, is_subset_of, count.

  function Union(a: Bitvec, b: Bitvec): Bitvec
    requires |a| == |b|
  {
    seq(|a|, i requires 0 <= i < |a| => a[i] || b[i])
  }

  function Inter(a: Bitvec, b: Bitvec): Bitvec
    requires |a| == |b|
  {
    seq(|a|, i requires 0 <= i < |a| => a[i] && b[i])
  }

  function Minus(a: Bitvec, b: Bitvec): Bitvec
    requires |a| == |b|
  {
    seq(|a|, i requires 0 <= i < |a| => a[i] && !b[i])
  }

  function Complement(a: Bitvec): Bitvec
  {
    seq(|a|, i requires 0 <= i < |a| => !a[i])
  }

  predicate IsSubsetOf(a: Bitvec, b: Bitvec)
    requires |a| == |b|
  {
    forall i :: 0 <= i < |a| && a[i] ==> b[i]
  }

  predicate Disjoint(a: Bitvec, b: Bitvec)
    requires |a| == |b|
  {
    forall i :: 0 <= i < |a| ==> !(a[i] && b[i])
  }

  /** `count()`: the number of set bits. */
  function Count(a: Bitvec): (r: nat)
    ensures r <= |a|
  {
    if |a| == 0 then 0 else (if a[0] then 1 else 0) + Count(a[1..])
  }

  /** A subset never has more bits; a proper subset has strictly fewer. This
      is what makes the grounded iteration and the preferred search stop. */
  lemma {:induction false} CountSubset(a: Bitvec, b: Bitvec)
    requires |a| == |b| && IsSubsetOf(a, b)
    ensures Count(a) <= Count(b)
    ensures (exists i :: 0 <= i < |b| && b[i] && !a[i]) ==> Count(a) < Count(b)
  {
    if |a| > 0 {
      assert forall i :: 1 <= i < |a| ==> a[i] == a[1..][i - 1] && b[i] == b[1..][i - 1];
      CountSubset(a[1..], b[1..]);
      if exists i :: 0 <= i < |b| && b[i] && !a[i] {
        var i :| 0 <= i < |b| && b[i] && !a[i];
        if i > 0 {
          assert b[1..][i - 1] && !a[1..][i - 1];
        }
      }
    }
  }
}
