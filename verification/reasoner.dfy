/** The semantics primitives of argumatrix::Reasoner over an attack matrix
    `atk` (row x holds the attackers of x, so `atk[x][y]` says y attacks x)
    and sets of arguments as bit vectors of the same size. */
module Reasoner {
  import opened Wrappers
  import opened Bitvector
  import opened Bitmatrix
  import opened Dung
  import opened LabelOrder

  /** An attack matrix: n x n. */
  predicate IsAttackMatrix(atk: Rows)
  {
    IsSquare(atk)
  }

  /** The framework a reasoner works on: unique labels in index order and
      the n x n attack matrix over them. */
  predicate IsFramework(labels: seq<string>, atk: Rows)
  {
    Distinct(labels) && IsAttackMatrix(atk) && |atk| == |labels|
  }

  /** s is a set of arguments of the framework. */
  predicate IsArgSet(atk: Rows, s: Bitvec)
  {
    |s| == |atk|
  }

  /** Every attacker of x is attacked by some member of s. */
  ghost predicate Defended(atk: Rows, s: Bitvec, x: nat)
    requires IsAttackMatrix(atk) && IsArgSet(atk, s) && x < |atk|
  {
    forall y :: 0 <= y < |atk| && atk[x][y] ==> exists z :: 0 <= z < |atk| && s[z] && atk[y][z]
  }

  /** `getAttacked(S)`, R+(S): the arguments attacked by some member of S. */
  function Attacked(atk: Rows, s: Bitvec): (r: Bitvec)
    requires IsAttackMatrix(atk) && IsArgSet(atk, s)
    ensures IsArgSet(atk, r)
    ensures forall x {:trigger r[x]} :: 0 <= x < |atk| ==> (r[x] <==> exists y :: 0 <= y < |atk| && s[y] && atk[x][y])
  {
    Product(atk, s)
  }

  /** `neutrality(S)`, N(S): the arguments no member of S attacks. */
  function Neutrality(atk: Rows, s: Bitvec): (r: Bitvec)
    requires IsAttackMatrix(atk) && IsArgSet(atk, s)
    ensures IsArgSet(atk, r)
    ensures forall x {:trigger r[x]} :: 0 <= x < |atk| ==> (r[x] <==> !exists y :: 0 <= y < |atk| && s[y] && atk[x][y])
  {
    Complement(Attacked(atk, s))
  }

  /** `characteristic(S)`, F(S) = N(N(S)): the arguments S defends. */
  function Characteristic(atk: Rows, s: Bitvec): (r: Bitvec)
    requires IsAttackMatrix(atk) && IsArgSet(atk, s)
    ensures IsArgSet(atk, r)
    ensures forall x {:trigger r[x]} :: 0 <= x < |atk| ==> (r[x] <==> Defended(atk, s, x))
  {
    var ns := Neutrality(atk, s);
    assert forall y :: 0 <= y < |atk| ==> (!ns[y] <==> exists z :: 0 <= z < |atk| && s[z] && atk[y][z]);
    Neutrality(atk, ns)
  }

  /** No argument attacks y. */
  predicate Unattacked(atk: Rows, y: nat)
    requires IsAttackMatrix(atk) && y < |atk|
  {
    forall z :: 0 <= z < |atk| ==> !atk[y][z]
  }

  /** `characteristic()`: F of the empty set is the set of unattacked
      arguments. */
  lemma CharacteristicOfEmpty(atk: Rows)
    requires IsAttackMatrix(atk)
    ensures forall x :: 0 <= x < |atk| ==>
      (Characteristic(atk, EmptySet(|atk|))[x] <==> Unattacked(atk, x))
  {
    var f := Characteristic(atk, EmptySet(|atk|));
    forall x | 0 <= x < |atk|
      ensures f[x] <==> Unattacked(atk, x)
    {
    }
  }

  /** F is monotone: a bigger set defends at least as much. */
  lemma CharacteristicMonotone(atk: Rows, s: Bitvec, t: Bitvec)
    requires IsAttackMatrix(atk) && IsArgSet(atk, s) && IsArgSet(atk, t) && IsSubsetOf(s, t)
    ensures IsSubsetOf(Characteristic(atk, s), Characteristic(atk, t))
  {
    forall x | 0 <= x < |atk| && Defended(atk, s, x)
      ensures Defended(atk, t, x)
    {
      forall y | 0 <= y < |atk| && atk[x][y]
        ensures exists z :: 0 <= z < |atk| && t[z] && atk[y][z]
      {
        var z :| 0 <= z < |atk| && s[z] && atk[y][z];
      }
    }
  }

  /** `is_conflict_free(S)`: S meets R+(S) nowhere, that is no member of S
      attacks a member of S. */
  function IsConflictFree(atk: Rows, s: Bitvec): (r: bool)
    requires IsAttackMatrix(atk) && IsArgSet(atk, s)
    ensures r <==> forall x, y :: 0 <= x < |atk| && 0 <= y < |atk| && s[x] && s[y] ==> !atk[x][y]
  {
    !Intersects(s, Attacked(atk, s))
  }

  /** The empty set is conflict-free, and no conflict-free set holds a
      self-attacking argument. */
  lemma ConflictFreeBasics(atk: Rows, s: Bitvec)
    requires IsAttackMatrix(atk) && IsArgSet(atk, s)
    ensures IsConflictFree(atk, EmptySet(|atk|))
    ensures IsConflictFree(atk, s) ==> forall x :: 0 <= x < |atk| && IsSelfAttacking(atk, x) ==> !s[x]
  {
  }

  /** `is_acceptable(S, A)`: S defends every member of A. */
  function IsAcceptable(atk: Rows, s: Bitvec, a: Bitvec): (r: bool)
    requires IsAttackMatrix(atk) && IsArgSet(atk, s) && IsArgSet(atk, a)
    ensures r <==> forall x :: 0 <= x < |atk| && a[x] ==> Defended(atk, s, x)
  {
    IsSubsetOf(a, Characteristic(atk, s))
  }

  /** `is_self_attacking(i)`. */
  predicate IsSelfAttacking(atk: Rows, i: nat)
    requires IsAttackMatrix(atk) && i < |atk|
  {
    atk[i][i]
  }

  /** `getSelfAttackingArguments()`, the diagonal of the matrix. */
  function SelfAttacking(atk: Rows): (r: Bitvec)
    requires IsAttackMatrix(atk)
    ensures IsArgSet(atk, r) && forall i :: 0 <= i < |atk| ==> (r[i] <==> IsSelfAttacking(atk, i))
  {
    seq(|atk|, i requires 0 <= i < |atk| => atk[i][i])
  }

  /** A conflict-free set never attacks what it defends. */
  lemma DefendedIsNeutral(atk: Rows, s: Bitvec)
    requires IsAttackMatrix(atk) && IsArgSet(atk, s) && IsConflictFree(atk, s)
    ensures IsSubsetOf(Characteristic(atk, s), Neutrality(atk, s))
  {
    var f := Characteristic(atk, s);
    forall x | 0 <= x < |atk| && f[x]
      ensures Neutrality(atk, s)[x]
    {
      assert Defended(atk, s, x);
    }
  }

  /** `is_admissible(S)`: S is a subset of F(S) and N(S); that is S is
      conflict-free and defends each of its members. */
  function IsAdmissible(atk: Rows, s: Bitvec): (r: bool)
    requires IsAttackMatrix(atk) && IsArgSet(atk, s)
    ensures r <==> IsConflictFree(atk, s) && forall x :: 0 <= x < |atk| && s[x] ==> Defended(atk, s, x)
  {
    var ns := Neutrality(atk, s);
    var fs := Characteristic(atk, s);
    assert IsConflictFree(atk, s) <==> IsSubsetOf(s, ns);
    IsSubsetOf(s, Inter(fs, ns))
  }

  /** `is_complete(S)`: S equals F(S) meet N(S); that is S is admissible and
      holds every argument it defends. */
  function IsComplete(atk: Rows, s: Bitvec): (r: bool)
    requires IsAttackMatrix(atk) && IsArgSet(atk, s)
    ensures r <==> IsAdmissible(atk, s) && forall x :: 0 <= x < |atk| && Defended(atk, s, x) ==> s[x]
  {
    var ns := Neutrality(atk, s);
    var fs := Characteristic(atk, s);
    if IsConflictFree(atk, s) then
      DefendedIsNeutral(atk, s);
      s == Inter(fs, ns)
    else
      s == Inter(fs, ns)
  }

  /** `is_stable(S)`: S equals N(S); that is S is conflict-free and attacks
      every argument outside it. */
  function IsStable(atk: Rows, s: Bitvec): (r: bool)
    requires IsAttackMatrix(atk) && IsArgSet(atk, s)
    ensures r <==> (IsConflictFree(atk, s) &&
      forall x :: 0 <= x < |atk| && !s[x] ==> exists y :: 0 <= y < |atk| && s[y] && atk[x][y])
  {
    s == Neutrality(atk, s)
  }

  /** Every stable set is complete. */
  lemma StableIsComplete(atk: Rows, s: Bitvec)
    requires IsAttackMatrix(atk) && IsArgSet(atk, s) && IsStable(atk, s)
    ensures IsComplete(atk, s)
  {
    forall x | 0 <= x < |atk| && Defended(atk, s, x)
      ensures s[x]
    {
      assert Defended(atk, s, x);
    }
    forall x | 0 <= x < |atk| && s[x]
      ensures Defended(atk, s, x)
    {
      forall y | 0 <= y < |atk| && atk[x][y]
        ensures exists z :: 0 <= z < |atk| && s[z] && atk[y][z]
      {
        assert !s[y];
      }
    }
  }

  /** The least fixpoint of F above s, reached by iterating F from s. */
  function Lfp(atk: Rows, s: Bitvec): (r: Bitvec)
    requires IsAttackMatrix(atk) && IsArgSet(atk, s) && IsSubsetOf(s, Characteristic(atk, s))
    ensures IsArgSet(atk, r) && Characteristic(atk, r) == r && IsSubsetOf(s, r)
    decreases |atk| - Count(s)
  {
    var next := Characteristic(atk, s);
    if next == s then s
    else
      assert exists i :: 0 <= i < |next| && next[i] && !s[i];
      CountSubset(s, next);
      CharacteristicMonotone(atk, s, next);
      Lfp(atk, next)
  }

  /** Lfp(s) lies below every pre-fixpoint of F above s. */
  lemma {:induction false} LfpLeast(atk: Rows, s: Bitvec, p: Bitvec)
    requires IsAttackMatrix(atk) && IsArgSet(atk, s) && IsSubsetOf(s, Characteristic(atk, s))
    requires IsArgSet(atk, p) && IsSubsetOf(s, p) && IsSubsetOf(Characteristic(atk, p), p)
    ensures IsSubsetOf(Lfp(atk, s), p)
    decreases |atk| - Count(s)
  {
    var next := Characteristic(atk, s);
    if next != s {
      assert exists i :: 0 <= i < |next| && next[i] && !s[i];
      CountSubset(s, next);
      CharacteristicMonotone(atk, s, next);
      CharacteristicMonotone(atk, s, p);
      LfpLeast(atk, next, p);
    }
  }

  /** F maps an admissible set to an admissible set. */
  lemma CharacteristicKeepsAdmissible(atk: Rows, s: Bitvec)
    requires IsAttackMatrix(atk) && IsArgSet(atk, s) && IsAdmissible(atk, s)
    ensures IsAdmissible(atk, Characteristic(atk, s))
  {
    var f := Characteristic(atk, s);
    assert IsSubsetOf(s, f);
    forall x, y | 0 <= x < |atk| && 0 <= y < |atk| && f[x] && f[y]
      ensures !atk[x][y]
    {
      assert Defended(atk, s, x) && Defended(atk, s, y);
    }
    forall x | 0 <= x < |atk| && f[x]
      ensures Defended(atk, f, x)
    {
      forall y | 0 <= y < |atk| && atk[x][y]
        ensures exists z :: 0 <= z < |atk| && f[z] && atk[y][z]
      {
        var z :| 0 <= z < |atk| && s[z] && atk[y][z];
        assert f[z];
      }
    }
  }

  /** Iterating F from an admissible set stays admissible. */
  lemma {:induction false} LfpAdmissible(atk: Rows, s: Bitvec)
    requires IsAttackMatrix(atk) && IsArgSet(atk, s) && IsSubsetOf(s, Characteristic(atk, s))
    requires IsAdmissible(atk, s)
    ensures IsAdmissible(atk, Lfp(atk, s))
    decreases |atk| - Count(s)
  {
    var next := Characteristic(atk, s);
    if next != s {
      assert exists i :: 0 <= i < |next| && next[i] && !s[i];
      CountSubset(s, next);
      CharacteristicMonotone(atk, s, next);
      CharacteristicKeepsAdmissible(atk, s);
      LfpAdmissible(atk, next);
    }
  }

  /** The grounded extension: the least fixpoint of F, from the empty set. */
  function Grounded(atk: Rows): (g: Bitvec)
    requires IsAttackMatrix(atk)
    ensures IsArgSet(atk, g)
  {
    Lfp(atk, EmptySet(|atk|))
  }

  /** The grounded extension lies in every fixpoint of F (the doc-comment's
      "least fixed point"), and in every complete extension. */
  lemma GroundedLeast(atk: Rows, p: Bitvec)
    requires IsAttackMatrix(atk) && IsArgSet(atk, p)
    requires Characteristic(atk, p) == p || IsComplete(atk, p)
    ensures IsSubsetOf(Grounded(atk), p)
  {
    assert IsSubsetOf(Characteristic(atk, p), p);
    LfpLeast(atk, EmptySet(|atk|), p);
  }

  /** The grounded extension is complete. */
  lemma GroundedIsComplete(atk: Rows)
    requires IsAttackMatrix(atk)
    ensures IsComplete(atk, Grounded(atk))
  {
    LfpAdmissible(atk, EmptySet(|atk|));
    var g := Grounded(atk);
    assert forall x :: 0 <= x < |atk| && Defended(atk, g, x) ==> Characteristic(atk, g)[x];
  }

  lemma GroundedIsLeastComplete(atk: Rows, s: Bitvec)
    requires IsAttackMatrix(atk) && IsArgSet(atk, s)
    ensures s == Grounded(atk) <==>
      IsComplete(atk, s) && forall c :: IsArgSet(atk, c) && IsComplete(atk, c) ==> IsSubsetOf(s, c)
  {
    var g := Grounded(atk);
    GroundedIsComplete(atk);
    if s == g {
      forall c | IsArgSet(atk, c) && IsComplete(atk, c)
        ensures IsSubsetOf(s, c)
      {
        GroundedLeast(atk, c);
      }
    }
    if IsComplete(atk, s) && forall c :: IsArgSet(atk, c) && IsComplete(atk, c) ==> IsSubsetOf(s, c) {
      GroundedLeast(atk, s);
      assert IsSubsetOf(s, g);
      assert s == g;
    }
  }

  /** `is_grounded(S)`: S is the grounded extension, that is the least
      complete extension. */
  function IsGrounded(atk: Rows, s: Bitvec): (r: bool)
    requires IsAttackMatrix(atk) && IsArgSet(atk, s)
    ensures r <==> IsComplete(atk, s) && forall c :: IsArgSet(atk, c) && IsComplete(atk, c) ==> IsSubsetOf(s, c)
  {
    GroundedIsLeastComplete(atk, s);
    s == Grounded(atk)
  }

  /** `getGroundedExtension()`: iterate F from the empty set until it stops
      changing. */
  method GetGroundedExtension(atk: Rows) returns (g: Bitvec)
    requires IsAttackMatrix(atk)
    ensures g == Grounded(atk)
  {
    var bv := EmptySet(|atk|);
    var next := Characteristic(atk, bv);
    while bv != next
      invariant IsArgSet(atk, bv) && next == Characteristic(atk, bv) && IsSubsetOf(bv, next)
      invariant Lfp(atk, bv) == Grounded(atk)
      decreases |atk| - Count(bv)
    {
      assert exists i :: 0 <= i < |next| && next[i] && !bv[i];
      CountSubset(bv, next);
      CharacteristicMonotone(atk, bv, next);
      bv := next;
      next := Characteristic(atk, bv);
    }
    g := next;
  }

  /** The {0,1,2} labelling of an extension e: 1 for the members of e, 0
      for what e attacks, 2 for the rest. */
  function LabellingOf(atk: Rows, e: Bitvec): (v: seq<int>)
    requires IsAttackMatrix(atk) && IsArgSet(atk, e)
    ensures |v| == |atk|
  {
    ThreeValued(e, Attacked(atk, e))
  }

  /** 1 where `in_` is set, else 0 where `out` is set, else 2. */
  function ThreeValued(in_: Bitvec, out: Bitvec): (v: seq<int>)
    requires |in_| == |out|
    ensures |v| == |in_|
  {
    seq(|in_|, i requires 0 <= i < |in_| => if in_[i] then 1 else if out[i] then 0 else 2)
  }

  /** The labelling `getGroundedIntVector()` computes. */
  function GroundedLabelling(atk: Rows): (v: seq<int>)
    requires IsAttackMatrix(atk)
  {
    LabellingOf(atk, Grounded(atk))
  }

  /** In the labelling of an admissible set every attacker of an IN
      argument is OUT. */
  lemma LabellingInLegal(atk: Rows, e: Bitvec)
    requires IsAttackMatrix(atk) && IsArgSet(atk, e) && IsAdmissible(atk, e)
    ensures forall x, y :: 0 <= x < |atk| && 0 <= y < |atk| && LabellingOf(atk, e)[x] == 1 && atk[x][y] ==>
      LabellingOf(atk, e)[y] == 0
  {
    var v := LabellingOf(atk, e);
    var out := Attacked(atk, e);
    forall x, y | 0 <= x < |atk| && 0 <= y < |atk| && v[x] == 1 && atk[x][y]
      ensures v[y] == 0
    {
      assert Defended(atk, e, x);
      assert out[y];
    }
  }

  /** In the labelling of any set an OUT argument has an IN attacker. */
  lemma LabellingOutLegal(atk: Rows, e: Bitvec)
    requires IsAttackMatrix(atk) && IsArgSet(atk, e)
    ensures forall x :: 0 <= x < |atk| && LabellingOf(atk, e)[x] == 0 ==>
      exists y :: 0 <= y < |atk| && atk[x][y] && LabellingOf(atk, e)[y] == 1
  {
    var v := LabellingOf(atk, e);
    var out := Attacked(atk, e);
    forall x | 0 <= x < |atk| && v[x] == 0
      ensures exists y :: 0 <= y < |atk| && atk[x][y] && v[y] == 1
    {
      assert out[x];
      var y :| 0 <= y < |atk| && e[y] && atk[x][y];
      assert v[y] == 1;
    }
  }

  /** In the labelling of a set that holds all it defends (a complete
      extension, say) an UNDEC argument has no IN attacker but an UNDEC one. */
  lemma LabellingUndecLegal(atk: Rows, e: Bitvec)
    requires IsAttackMatrix(atk) && IsArgSet(atk, e) && IsSubsetOf(Characteristic(atk, e), e)
    ensures forall x :: 0 <= x < |atk| && LabellingOf(atk, e)[x] == 2 ==>
      (forall y :: 0 <= y < |atk| && atk[x][y] ==> LabellingOf(atk, e)[y] != 1) &&
      (exists y :: 0 <= y < |atk| && atk[x][y] && LabellingOf(atk, e)[y] == 2)
  {
    var v := LabellingOf(atk, e);
    var out := Attacked(atk, e);
    forall x | 0 <= x < |atk| && v[x] == 2
      ensures forall y :: 0 <= y < |atk| && atk[x][y] ==> v[y] != 1
      ensures exists y :: 0 <= y < |atk| && atk[x][y] && v[y] == 2
    {
      assert !e[x] && !out[x];
      forall y | 0 <= y < |atk| && atk[x][y]
        ensures v[y] != 1
      {
        assert !e[y];
      }
      assert !Characteristic(atk, e)[x];
      var y :| 0 <= y < |atk| && atk[x][y] && !exists z :: 0 <= z < |atk| && e[z] && atk[y][z];
      assert !out[y];
    }
  }

  /** The grounded labelling is a complete labelling: IN arguments have
      only OUT attackers, OUT arguments an IN attacker, and UNDEC arguments
      an UNDEC attacker and no IN one. */
  lemma GroundedLabellingLegal(atk: Rows)
    requires IsAttackMatrix(atk)
    ensures forall x, y :: 0 <= x < |atk| && 0 <= y < |atk| && GroundedLabelling(atk)[x] == 1 && atk[x][y] ==>
      GroundedLabelling(atk)[y] == 0
    ensures forall x :: 0 <= x < |atk| && GroundedLabelling(atk)[x] == 0 ==>
      exists y :: 0 <= y < |atk| && atk[x][y] && GroundedLabelling(atk)[y] == 1
    ensures forall x :: 0 <= x < |atk| && GroundedLabelling(atk)[x] == 2 ==>
      (forall y :: 0 <= y < |atk| && atk[x][y] ==> GroundedLabelling(atk)[y] != 1) &&
      (exists y :: 0 <= y < |atk| && atk[x][y] && GroundedLabelling(atk)[y] == 2)
  {
    GroundedIsComplete(atk);
    LabellingInLegal(atk, Grounded(atk));
    LabellingOutLegal(atk, Grounded(atk));
    LabellingUndecLegal(atk, Grounded(atk));
  }

  /** The do-while loop of `getGroundedIntVector()`: it recomputes the
      grounded extension as N(~R+(last)) together with the set it attacks. */
  method GroundedAndAttacked(atk: Rows) returns (grExt: Bitvec, grOut: Bitvec)
    requires IsAttackMatrix(atk)
    ensures grExt == Grounded(atk) && grOut == Attacked(atk, grExt)
  {
    var n := |atk|;
    grExt := EmptySet(n);
    var last := grExt;
    grOut := Attacked(atk, last);
    grExt := Neutrality(atk, Complement(grOut));
    while grExt != last
      invariant IsArgSet(atk, last) && grOut == Attacked(atk, last)
      invariant grExt == Characteristic(atk, last) && IsSubsetOf(last, grExt)
      invariant Lfp(atk, last) == Grounded(atk)
      decreases n - Count(last)
    {
      assert exists i :: 0 <= i < |grExt| && grExt[i] && !last[i];
      CountSubset(last, grExt);
      CharacteristicMonotone(atk, last, grExt);
      last := grExt;
      grOut := Attacked(atk, last);
      grExt := Neutrality(atk, Complement(grOut));
    }
  }

  /** The for-loop of `getGroundedIntVector()`: every entry starts at 2
      (unknown) and becomes 1 for a grounded argument, 0 for an attacked one. */
  method FillLabels(grExt: Bitvec, grOut: Bitvec) returns (v: seq<int>)
    requires |grExt| == |grOut|
    ensures v == ThreeValued(grExt, grOut)
  {
    var n := |grExt|;
    v := seq(n, _ => 2);
    for i := 0 to n
      invariant |v| == n
      invariant forall k :: 0 <= k < i ==> v[k] == ThreeValued(grExt, grOut)[k]
      invariant forall k :: i <= k < n ==> v[k] == 2
    {
      if grExt[i] {
        v := v[i := 1];
      } else if grOut[i] {
        v := v[i := 0];
      }
    }
  }

  /** `getGroundedIntVector()`. */
  method GetGroundedIntVector(atk: Rows) returns (v: seq<int>)
    requires IsAttackMatrix(atk)
    ensures v == GroundedLabelling(atk)
  {
    var grExt, grOut := GroundedAndAttacked(atk);
    v := FillLabels(grExt, grOut);
  }

  /** The `-a` set a task needs: an empty set is a usage error, and every
      label must be an argument. */
  function ArgumentBits(labels: seq<string>, argset: set<string>, usage: string): (r: Result<Bitvec>)
    ensures argset == {} ==> r == Fail(usage)
    ensures argset != {} ==> r == LabelSetBits(labels, argset)
  {
    if argset == {} then Fail(usage) else LabelSetBits(labels, argset)
  }

  /** The set bits of a known label set are exactly its labels. */
  lemma BitsAreLabels(labels: seq<string>, argset: set<string>, g: Bitvec)
    requires Distinct(labels) && |g| == |labels| && LabelBits(labels, argset).Some?
    ensures IsSubsetOf(LabelBits(labels, argset).value, g) <==> argset <= LabelsOf(labels, g)
    ensures LabelBits(labels, argset).value == g <==> argset == LabelsOf(labels, g)
  {
    LabelBitsRoundTrip(labels, argset, g);
    var b := LabelBits(labels, argset).value;
    if argset <= LabelsOf(labels, g) {
      forall i | 0 <= i < |labels| && b[i]
        ensures g[i]
      {
        var j :| 0 <= j < |labels| && g[j] && labels[j] == labels[i];
        assert i == j;
      }
    }
  }

  /** `labelSet2IntVector(L)`: 1 for the arguments labelled in L, 2 for the
      rest; L is walked in ascending order and an unknown label ends the
      program with the same message as `labelSet2bv`. */
  method LabelSet2IntVector(af: DungAF, ls: set<string>) returns (r: Result<seq<int>>)
    requires af.Valid()
    ensures r.Ok? <==> forall l :: l in ls ==> l in af.labels
    ensures r.Ok? ==> |r.value| == |af.labels|
    ensures r.Ok? ==> forall i :: 0 <= i < |af.labels| ==> r.value[i] == if af.labels[i] in ls then 1 else 2
    ensures r.Fail? ==> r.error == LabelSetBits(af.labels, ls).error
  {
    var labels := af.labels;
    var n := |labels|;
    var sorted := SortedLabels(ls);
    var v := seq(n, _ => 2);
    ghost var seen: set<string> := {};
    for k := 0 to |sorted|
      invariant |v| == n && seen <= ls
      invariant forall j :: 0 <= j < k ==> sorted[j] in labels && sorted[j] in seen
      invariant forall i :: 0 <= i < n ==> v[i] == if labels[i] in seen then 1 else 2
    {
      var idx := af.ArgumentIdx(sorted[k]);
      if idx.Fail? {
        UnknownAtPosition(labels, ls, k);
        return Fail(idx.error);
      }
      MarkLabel(labels, v, seen, idx.value);
      v := v[idx.value := 1];
      seen := seen + {sorted[k]};
    }
    assert seen == ls;
    r := Ok(v);
  }

  /** One step of `labelSet2IntVector`: setting the entry of a label to 1
      adds exactly that label to the ones marked. */
  lemma MarkLabel(labels: seq<string>, v: seq<int>, seen: set<string>, x: nat)
    requires Distinct(labels) && |v| == |labels| && x < |labels|
    requires forall i :: 0 <= i < |labels| ==> v[i] == if labels[i] in seen then 1 else 2
    ensures forall i :: 0 <= i < |labels| ==>
      v[x := 1][i] == if labels[i] in seen + {labels[x]} then 1 else 2
  {
  }
}
