/** The labelling search for preferred extensions (argumatrix::PreferredReasoner).
    Every argument carries one of five labels: BLANK (not decided yet), IN,
    OUT (attacked by IN), UNDEC (left out of IN) and MUST_OUT (attacks IN and
    still needs an attacker from IN). The search picks a BLANK argument,
    tries it IN (a child labelling explored recursively), then declares it
    UNDEC, pruning with a look-ahead test. */
module Preferred {
  import opened Wrappers
  import opened Bitvector
  import opened Bitmatrix
  import opened Dung
  import opened Reasoner

  /** The five label sets of the search, as bit vectors over the arguments. */
  datatype Labelling = Labelling(blank: Bitvec, in_: Bitvec, out: Bitvec, undec: Bitvec, mustOut: Bitvec)

  /** TYPE_A: the argument is forced IN (all its attackers are OUT or MUST_OUT);
      TYPE_B: a branching choice. */
  datatype SelectType = TypeA | TypeB

  predicate Shaped(n: nat, l: Labelling)
  {
    |l.blank| == n && |l.in_| == n && |l.out| == n && |l.undec| == n && |l.mustOut| == n
  }

  /** How many of the five labels argument x carries. */
  function LabelCount(l: Labelling, x: nat): nat
    requires Shaped(|l.blank|, l) && x < |l.blank|
  {
    (if l.blank[x] then 1 else 0) + (if l.in_[x] then 1 else 0) + (if l.out[x] then 1 else 0) +
    (if l.undec[x] then 1 else 0) + (if l.mustOut[x] then 1 else 0)
  }

  /** Every argument is labelled with exactly one of the five labels. */
  ghost predicate Partition(n: nat, l: Labelling)
    requires Shaped(n, l)
  {
    forall x :: 0 <= x < n ==> LabelCount(l, x) == 1
  }

  /** Every argument carries at least one label. */
  ghost predicate Covered(n: nat, l: Labelling)
    requires Shaped(n, l)
  {
    forall x :: 0 <= x < n ==> LabelCount(l, x) >= 1
  }

  /** BLANK shares no argument with IN, OUT or MUST_OUT and holds no
      self-attacking argument. */
  ghost predicate BlankClean(atk: Rows, l: Labelling)
    requires IsAttackMatrix(atk) && Shaped(|atk|, l)
  {
    forall x :: 0 <= x < |atk| && l.blank[x] ==> !l.in_[x] && !l.out[x] && !l.mustOut[x] && !atk[x][x]
  }

  /** Every attacker of an IN argument is OUT or MUST_OUT. */
  ghost predicate AttackersOfInLabelled(atk: Rows, l: Labelling)
    requires IsAttackMatrix(atk) && Shaped(|atk|, l)
  {
    forall x, y :: 0 <= x < |atk| && 0 <= y < |atk| && l.in_[x] && atk[x][y] ==> l.out[y] || l.mustOut[y]
  }

  /** What the search keeps true of every labelling it visits: every argument
      has a label; BLANK is clean; OUT is exactly what IN attacks and shares
      nothing with IN; and every attacker of IN is OUT or MUST_OUT. */
  ghost predicate SearchInvariant(atk: Rows, l: Labelling)
    requires IsAttackMatrix(atk)
  {
    && Shaped(|atk|, l)
    && l.out == Attacked(atk, l.in_)
    && Disjoint(l.in_, l.out)
    && Covered(|atk|, l)
    && BlankClean(atk, l)
    && AttackersOfInLabelled(atk, l)
  }

  /** The child labelling built when BLANK argument i is tried IN: i becomes
      IN, what i attacks becomes OUT, and the attackers of i that are still
      BLANK or UNDEC become MUST_OUT. `atkBy` is the transposed attack
      matrix: row i holds the arguments i attacks. */
  function Expand(atk: Rows, atkBy: Rows, l: Labelling, i: nat): (r: Labelling)
    requires IsAttackMatrix(atk) && IsShaped(atkBy, |atk|, |atk|) && Shaped(|atk|, l) && i < |atk|
    ensures Shaped(|atk|, r)
    ensures r.in_ == l.in_[i := true]
    ensures forall x :: 0 <= x < |atk| ==> (r.out[x] <==> l.out[x] || atkBy[i][x])
    ensures forall x :: 0 <= x < |atk| ==> (r.blank[x] <==> l.blank[x] && x != i && !atkBy[i][x] && !atk[i][x])
    ensures forall x :: 0 <= x < |atk| ==> (r.undec[x] <==> l.undec[x] && !atkBy[i][x] && !atk[i][x])
    ensures forall x :: 0 <= x < |atk| ==>
      (r.mustOut[x] <==> !atkBy[i][x] && (l.mustOut[x] || (atk[i][x] && ((l.blank[x] && x != i) || l.undec[x]))))
  {
    var att := atkBy[i];
    var blank1 := Minus(l.blank[i := false], att);
    var undec1 := Minus(l.undec, att);
    var moved := Inter(atk[i], Union(blank1, undec1));
    Labelling(
      blank := Minus(blank1, moved),
      in_ := l.in_[i := true],
      out := Union(l.out, att),
      undec := Minus(undec1, moved),
      mustOut := Union(Minus(l.mustOut, att), moved))
  }

  /** The parent's own step after the child: BLANK argument i becomes UNDEC. */
  function Skip(l: Labelling, i: nat): (r: Labelling)
    requires i < |l.blank| && i < |l.undec|
    ensures |r.blank| == |l.blank| && |r.undec| == |l.undec|
    ensures r.undec[i] && !r.blank[i]
    ensures forall x :: 0 <= x < |l.blank| && x != i ==> r.blank[x] == l.blank[x]
    ensures forall x :: 0 <= x < |l.undec| && x != i ==> r.undec[x] == l.undec[x]
    ensures r.in_ == l.in_ && r.out == l.out && r.mustOut == l.mustOut
  {
    l.(undec := l.undec[i := true], blank := l.blank[i := false])
  }

  /** Trying BLANK argument i IN makes OUT exactly what the new IN attacks. */
  lemma ExpandOut(atk: Rows, atkBy: Rows, l: Labelling, i: nat)
    requires IsAttackMatrix(atk) && atkBy == Transposed(atk, |atk|)
    requires Shaped(|atk|, l) && l.out == Attacked(atk, l.in_) && i < |atk|
    ensures Expand(atk, atkBy, l, i).out == Attacked(atk, Expand(atk, atkBy, l, i).in_)
  {
    var n := |atk|;
    var c := Expand(atk, atkBy, l, i);
    forall x | 0 <= x < n
      ensures c.out[x] == Attacked(atk, c.in_)[x]
    {
      assert atkBy[i][x] == atk[x][i];
      if atk[x][i] {
        assert c.in_[i];
      }
      if Attacked(atk, c.in_)[x] && !atk[x][i] {
        var y :| 0 <= y < n && c.in_[y] && atk[x][y];
        assert l.in_[y];
      }
    }
  }

  /** The new IN shares nothing with the new OUT, and its attackers are
      labelled OUT or MUST_OUT. */
  lemma ExpandIn(atk: Rows, atkBy: Rows, l: Labelling, i: nat)
    requires IsAttackMatrix(atk) && atkBy == Transposed(atk, |atk|)
    requires SearchInvariant(atk, l) && i < |atk| && l.blank[i]
    ensures Disjoint(Expand(atk, atkBy, l, i).in_, Expand(atk, atkBy, l, i).out)
    ensures AttackersOfInLabelled(atk, Expand(atk, atkBy, l, i))
  {
    var n := |atk|;
    var c := Expand(atk, atkBy, l, i);
    forall x, y | 0 <= x < n && 0 <= y < n && c.in_[x] && atk[x][y]
      ensures c.out[y] || c.mustOut[y]
    {
      assert atkBy[i][y] == atk[y][i];
      if x == i {
        assert LabelCount(l, y) >= 1;
      } else {
        assert l.in_[x];
      }
    }
    forall x | 0 <= x < n
      ensures !(c.in_[x] && c.out[x])
    {
      assert atkBy[i][x] == atk[x][i];
    }
  }

  /** The child still labels every argument and its BLANK stays clean. */
  lemma ExpandCovered(atk: Rows, atkBy: Rows, l: Labelling, i: nat)
    requires IsAttackMatrix(atk) && atkBy == Transposed(atk, |atk|)
    requires SearchInvariant(atk, l) && i < |atk| && l.blank[i]
    ensures Covered(|atk|, Expand(atk, atkBy, l, i))
    ensures BlankClean(atk, Expand(atk, atkBy, l, i))
  {
    var c := Expand(atk, atkBy, l, i);
    forall x | 0 <= x < |atk|
      ensures LabelCount(c, x) >= 1
    {
      assert LabelCount(l, x) >= 1;
    }
  }

  /** Trying a BLANK argument IN keeps the search invariant. */
  lemma ExpandKeepsInvariant(atk: Rows, atkBy: Rows, l: Labelling, i: nat)
    requires IsAttackMatrix(atk) && atkBy == Transposed(atk, |atk|)
    requires SearchInvariant(atk, l) && i < |atk| && l.blank[i]
    ensures SearchInvariant(atk, Expand(atk, atkBy, l, i))
  {
    ExpandOut(atk, atkBy, l, i);
    ExpandIn(atk, atkBy, l, i);
    ExpandCovered(atk, atkBy, l, i);
  }

  /** Trying a BLANK argument IN keeps a partition a partition. */
  lemma ExpandKeepsPartition(atk: Rows, atkBy: Rows, l: Labelling, i: nat)
    requires IsAttackMatrix(atk) && atkBy == Transposed(atk, |atk|)
    requires SearchInvariant(atk, l) && Partition(|atk|, l) && i < |atk| && l.blank[i]
    ensures Partition(|atk|, Expand(atk, atkBy, l, i))
  {
    var c := Expand(atk, atkBy, l, i);
    forall x | 0 <= x < |atk|
      ensures LabelCount(c, x) == 1
    {
      assert LabelCount(l, x) == 1;
    }
  }

  /** Declaring a BLANK argument UNDEC keeps the invariant and the partition. */
  lemma SkipKeepsInvariant(atk: Rows, l: Labelling, i: nat)
    requires IsAttackMatrix(atk) && SearchInvariant(atk, l) && i < |atk| && l.blank[i]
    ensures SearchInvariant(atk, Skip(l, i))
    ensures Partition(|atk|, l) ==> Partition(|atk|, Skip(l, i))
  {
    forall x | 0 <= x < |atk|
      ensures LabelCount(Skip(l, i), x) >= 1
      ensures LabelCount(l, x) == 1 ==> LabelCount(Skip(l, i), x) == 1
    {
      assert LabelCount(l, x) >= 1;
    }
  }

  /** A labelling whose MUST_OUT is empty has an admissible IN: the search
      records only admissible sets. */
  lemma LeafAdmissible(atk: Rows, l: Labelling)
    requires IsAttackMatrix(atk) && SearchInvariant(atk, l) && IsEmptySet(l.mustOut)
    ensures IsAdmissible(atk, l.in_)
  {
    var n := |atk|;
    forall x, y | 0 <= x < n && 0 <= y < n && l.in_[x] && l.in_[y]
      ensures !atk[x][y]
    {
    }
    forall x | 0 <= x < n && l.in_[x]
      ensures Defended(atk, l.in_, x)
    {
      forall y | 0 <= y < n && atk[x][y]
        ensures exists z :: 0 <= z < n && l.in_[z] && atk[y][z]
      {
        assert l.out[y];
      }
    }
  }

  /** The look-ahead test: every MUST_OUT argument still has a BLANK attacker
      that could yet be labelled IN. */
  predicate LookAheadHolds(atk: Rows, l: Labelling)
    requires IsAttackMatrix(atk) && Shaped(|atk|, l)
  {
    forall x :: 0 <= x < |atk| && l.mustOut[x] ==> Intersects(atk[x], l.blank)
  }

  /** Argument j is forced IN: every attacker of j is OUT or MUST_OUT. */
  predicate Forced(atk: Rows, l: Labelling, j: nat)
    requires IsAttackMatrix(atk) && Shaped(|atk|, l) && j < |atk|
  {
    IsSubsetOf(atk[j], Union(l.out, l.mustOut))
  }

  /** The branching heuristic: how many arguments j attacks plus how many
      attack j. */
  function Degree(atk: Rows, atkBy: Rows, j: nat): nat
    requires IsAttackMatrix(atk) && IsShaped(atkBy, |atk|, |atk|) && j < |atk|
  {
    Count(atkBy[j]) + Count(atk[j])
  }

  /** (i, t) is the choice of the search on l: a TYPE_A choice exactly when
      some BLANK argument is forced, and then the lowest forced one;
      otherwise the lowest BLANK argument of largest degree. */
  ghost predicate IsSelection(atk: Rows, atkBy: Rows, l: Labelling, i: nat, t: SelectType)
    requires IsAttackMatrix(atk) && IsShaped(atkBy, |atk|, |atk|) && Shaped(|atk|, l)
  {
    && i < |atk| && l.blank[i]
    && (t == TypeA <==> exists j :: 0 <= j < |atk| && l.blank[j] && Forced(atk, l, j))
    && (t == TypeA ==> Forced(atk, l, i) && forall j :: 0 <= j < i && l.blank[j] ==> !Forced(atk, l, j))
    && (t == TypeB ==>
          && (forall j :: 0 <= j < |atk| && l.blank[j] ==> Degree(atk, atkBy, j) <= Degree(atk, atkBy, i))
          && (forall j :: 0 <= j < i && l.blank[j] ==> Degree(atk, atkBy, j) < Degree(atk, atkBy, i)))
  }

  /** The lowest forced BLANK argument is a TYPE_A choice. */
  lemma ForcedSelection(atk: Rows, atkBy: Rows, l: Labelling, j: nat)
    requires IsAttackMatrix(atk) && IsShaped(atkBy, |atk|, |atk|) && Shaped(|atk|, l)
    requires j < |atk| && l.blank[j] && Forced(atk, l, j)
    requires forall k :: 0 <= k < j && l.blank[k] ==> !Forced(atk, l, k)
    ensures IsSelection(atk, atkBy, l, j, TypeA)
  {
  }

  /** With nothing BLANK forced, the lowest BLANK argument of largest degree
      is a TYPE_B choice. */
  lemma BranchingSelection(atk: Rows, atkBy: Rows, l: Labelling, i: nat)
    requires IsAttackMatrix(atk) && IsShaped(atkBy, |atk|, |atk|) && Shaped(|atk|, l)
    requires i < |atk| && l.blank[i]
    requires forall k :: 0 <= k < |atk| && l.blank[k] ==> !Forced(atk, l, k)
    requires forall k :: 0 <= k < |atk| && l.blank[k] ==> Degree(atk, atkBy, k) <= Degree(atk, atkBy, i)
    requires forall k :: 0 <= k < i && l.blank[k] ==> Degree(atk, atkBy, k) < Degree(atk, atkBy, i)
    ensures IsSelection(atk, atkBy, l, i, TypeB)
  {
  }

  /** The loop of `selectArgument` over the attack matrix and its transpose. */
  method ScanBlank(atk: Rows, atkBy: Rows, l: Labelling) returns (sel: Option<nat>, t: SelectType)
    requires IsAttackMatrix(atk) && IsShaped(atkBy, |atk|, |atk|) && Shaped(|atk|, l)
    ensures sel.None? <==> IsEmptySet(l.blank)
    ensures sel.None? ==> t == TypeB
    ensures sel.Some? ==> IsSelection(atk, atkBy, l, sel.value, t)
  {
    sel, t := None, TypeB;
    for j := 0 to |atk|
      invariant sel.None? <==> forall k :: 0 <= k < j ==> !l.blank[k]
      invariant forall k :: 0 <= k < j && l.blank[k] ==> !Forced(atk, l, k)
      invariant sel.Some? ==> sel.value < j && l.blank[sel.value]
      invariant sel.Some? ==> forall k :: 0 <= k < j && l.blank[k] ==>
        Degree(atk, atkBy, k) <= Degree(atk, atkBy, sel.value)
      invariant sel.Some? ==> forall k :: 0 <= k < sel.value && l.blank[k] ==>
        Degree(atk, atkBy, k) < Degree(atk, atkBy, sel.value)
    {
      if l.blank[j] {
        if Forced(atk, l, j) {
          ForcedSelection(atk, atkBy, l, j);
          return Some(j), TypeA;
        }
        if sel.None? || Degree(atk, atkBy, j) > Degree(atk, atkBy, sel.value) {
          sel := Some(j);
        }
      }
    }
    if sel.Some? {
      BranchingSelection(atk, atkBy, l, sel.value);
    }
  }

  /** The choice is determined by the labelling. */
  lemma SelectionUnique(atk: Rows, atkBy: Rows, l: Labelling, i: nat, t: SelectType, i2: nat, t2: SelectType)
    requires IsAttackMatrix(atk) && IsShaped(atkBy, |atk|, |atk|) && Shaped(|atk|, l)
    requires IsSelection(atk, atkBy, l, i, t) && IsSelection(atk, atkBy, l, i2, t2)
    ensures i == i2 && t == t2
  {
  }

  /** Some recorded extension already contains s. */
  ghost predicate Subsumed(exts: set<Bitvec>, s: Bitvec)
  {
    exists o :: o in exts && |o| == |s| && IsSubsetOf(s, o)
  }

  /** What a leaf of the search records: its IN, when MUST_OUT is empty and
      no recorded extension contains it. */
  ghost function LeafResult(exts: set<Bitvec>, l: Labelling): set<Bitvec>
  {
    if IsEmptySet(l.mustOut) && !Subsumed(exts, l.in_) then exts + {l.in_} else exts
  }

  /** e is a set the search below l may record: admissible, containing the IN
      of l and avoiding its OUT. */
  ghost predicate Found(atk: Rows, l: Labelling, e: Bitvec)
    requires IsAttackMatrix(atk) && Shaped(|atk|, l)
  {
    |e| == |atk| && IsAdmissible(atk, e) && IsSubsetOf(l.in_, e) && Disjoint(e, l.out)
  }

  /** The search on l picks a forced argument whose child fails the
      look-ahead: it gives up on l at once. */
  ghost predicate AbandonsAtOnce(atk: Rows, atkBy: Rows, l: Labelling)
    requires IsAttackMatrix(atk) && IsShaped(atkBy, |atk|, |atk|) && Shaped(|atk|, l)
  {
    exists i :: 0 <= i < |atk| && IsSelection(atk, atkBy, l, i, TypeA) && !LookAheadHolds(atk, Expand(atk, atkBy, l, i))
  }

  /** The first argument the search on l picks is i, and trying i IN leaves
      nothing BLANK and nothing MUST_OUT. */
  ghost predicate FirstChildIsLeaf(atk: Rows, atkBy: Rows, l: Labelling, i: nat)
    requires IsAttackMatrix(atk) && IsShaped(atkBy, |atk|, |atk|) && Shaped(|atk|, l)
  {
    && (IsSelection(atk, atkBy, l, i, TypeA) || IsSelection(atk, atkBy, l, i, TypeB))
    && IsEmptySet(Expand(atk, atkBy, l, i).blank)
    && IsEmptySet(Expand(atk, atkBy, l, i).mustOut)
  }

  /** The starting labelling: everything BLANK. */
  function Initial(n: nat): (l: Labelling)
    ensures Shaped(n, l) && IsUniversal(l.blank) && IsEmptySet(l.in_) && IsEmptySet(l.out)
    ensures IsEmptySet(l.undec) && IsEmptySet(l.mustOut)
  {
    Labelling(UniversalSet(n), EmptySet(n), EmptySet(n), EmptySet(n), EmptySet(n))
  }

  /** Preprocessing with the overlap removed: self-attacking arguments become
      UNDEC, unattacked arguments IN, what they attack OUT, and an argument
      that is OUT is not UNDEC as well. */
  function Preprocessed(atk: Rows, l: Labelling): (r: Labelling)
    requires IsAttackMatrix(atk) && Shaped(|atk|, l)
    ensures Shaped(|atk|, r) && r.mustOut == l.mustOut
  {
    var in_ := Union(l.in_, Characteristic(atk, EmptySet(|atk|)));
    var out := Union(l.out, Attacked(atk, in_));
    var undec := Minus(Union(l.undec, SelfAttacking(atk)), out);
    l.(blank := Minus(Minus(Minus(l.blank, in_), out), undec), in_ := in_, out := out, undec := undec)
  }

  /** Preprocessing as written: a self-attacking argument stays UNDEC even
      when it is also OUT. */
  function PreprocessedAsWritten(atk: Rows, l: Labelling): (r: Labelling)
    requires IsAttackMatrix(atk) && Shaped(|atk|, l)
    ensures Shaped(|atk|, r) && r.mustOut == l.mustOut
  {
    var undec := Union(l.undec, SelfAttacking(atk));
    var in_ := Union(l.in_, Characteristic(atk, EmptySet(|atk|)));
    var out := Union(l.out, Attacked(atk, in_));
    l.(blank := Minus(Minus(Minus(l.blank, in_), out), undec), in_ := in_, out := out, undec := undec)
  }

  /** From the starting labelling, preprocessing yields a partition that meets
      the search invariant: IN is the set of unattacked arguments, OUT what
      they attack, and every self-attacking argument is OUT or UNDEC. */
  lemma PreprocessedSound(atk: Rows)
    requires IsAttackMatrix(atk)
    ensures Shaped(|atk|, Preprocessed(atk, Initial(|atk|)))
    ensures SearchInvariant(atk, Preprocessed(atk, Initial(|atk|)))
    ensures Partition(|atk|, Preprocessed(atk, Initial(|atk|)))
    ensures Preprocessed(atk, Initial(|atk|)).in_ == Characteristic(atk, EmptySet(|atk|))
    ensures IsEmptySet(Preprocessed(atk, Initial(|atk|)).mustOut)
    ensures forall x :: 0 <= x < |atk| && atk[x][x] ==>
      Preprocessed(atk, Initial(|atk|)).out[x] || Preprocessed(atk, Initial(|atk|)).undec[x]
  {
    var n := |atk|;
    var p := Preprocessed(atk, Initial(n));
    var f := Characteristic(atk, EmptySet(n));
    CharacteristicOfEmpty(atk);
    assert p.in_ == f;
    assert p.out == Attacked(atk, p.in_);
    forall x | 0 <= x < n
      ensures LabelCount(p, x) == 1
    {
    }
    forall x, y | 0 <= x < n && 0 <= y < n && p.in_[x]
      ensures !atk[x][y]
    {
    }
  }

  /** As written, preprocessing still meets the search invariant. */
  lemma PreprocessedAsWrittenInvariant(atk: Rows)
    requires IsAttackMatrix(atk)
    ensures Shaped(|atk|, PreprocessedAsWritten(atk, Initial(|atk|)))
    ensures SearchInvariant(atk, PreprocessedAsWritten(atk, Initial(|atk|)))
  {
    var n := |atk|;
    var q := PreprocessedAsWritten(atk, Initial(n));
    CharacteristicOfEmpty(atk);
    forall x, y | 0 <= x < n && 0 <= y < n && q.in_[x]
      ensures !atk[x][y]
    {
    }
    forall x | 0 <= x < n
      ensures LabelCount(q, x) >= 1
    {
    }
  }

  /** An unattacked argument y attacking a self-attacking x makes x both OUT
      and UNDEC in the as-written preprocessing. */
  lemma AsWrittenDoubleLabel(atk: Rows, x: nat, y: nat)
    requires IsAttackMatrix(atk) && x < |atk| && y < |atk|
    requires atk[x][x] && atk[x][y] && Unattacked(atk, y)
    ensures PreprocessedAsWritten(atk, Initial(|atk|)).out[x]
    ensures PreprocessedAsWritten(atk, Initial(|atk|)).undec[x]
    ensures !Partition(|atk|, PreprocessedAsWritten(atk, Initial(|atk|)))
  {
    CharacteristicOfEmpty(atk);
    assert PreprocessedAsWritten(atk, Initial(|atk|)).in_[y];
    assert LabelCount(PreprocessedAsWritten(atk, Initial(|atk|)), x) != 1;
  }

  /** An argument that carries more than one label in the as-written
      preprocessing is self-attacking and attacked by an unattacked one. */
  lemma AsWrittenDoubleLabelCause(atk: Rows, x: nat)
    requires IsAttackMatrix(atk) && x < |atk|
    requires LabelCount(PreprocessedAsWritten(atk, Initial(|atk|)), x) != 1
    ensures atk[x][x] && exists y :: 0 <= y < |atk| && atk[x][y] && Unattacked(atk, y)
  {
    var q := PreprocessedAsWritten(atk, Initial(|atk|));
    CharacteristicOfEmpty(atk);
    assert q.out[x] && q.undec[x];
    var y :| 0 <= y < |atk| && q.in_[y] && atk[x][y];
    assert Unattacked(atk, y);
  }

  /** As written, preprocessing fails to be a partition exactly when some
      unattacked argument attacks a self-attacking one: that argument is then
      both OUT and UNDEC. */
  lemma PreprocessedAsWrittenOverlap(atk: Rows)
    requires IsAttackMatrix(atk)
    ensures Shaped(|atk|, PreprocessedAsWritten(atk, Initial(|atk|)))
    ensures !Partition(|atk|, PreprocessedAsWritten(atk, Initial(|atk|))) <==>
      exists x, y :: 0 <= x < |atk| && 0 <= y < |atk| && atk[x][x] && atk[x][y] && Unattacked(atk, y)
  {
    OverlapHasCause(atk);
    CauseMakesOverlap(atk);
  }

  lemma OverlapHasCause(atk: Rows)
    requires IsAttackMatrix(atk)
    ensures !Partition(|atk|, PreprocessedAsWritten(atk, Initial(|atk|))) ==>
      exists x, y :: 0 <= x < |atk| && 0 <= y < |atk| && atk[x][x] && atk[x][y] && Unattacked(atk, y)
  {
    var q := PreprocessedAsWritten(atk, Initial(|atk|));
    if !Partition(|atk|, q) {
      var x :| 0 <= x < |atk| && LabelCount(q, x) != 1;
      AsWrittenDoubleLabelCause(atk, x);
      var y :| 0 <= y < |atk| && atk[x][y] && Unattacked(atk, y);
      assert atk[x][x];
    }
  }

  lemma CauseMakesOverlap(atk: Rows)
    requires IsAttackMatrix(atk)
    ensures (exists x, y :: 0 <= x < |atk| && 0 <= y < |atk| && atk[x][x] && atk[x][y] && Unattacked(atk, y)) ==>
      !Partition(|atk|, PreprocessedAsWritten(atk, Initial(|atk|)))
  {
    if exists x, y :: 0 <= x < |atk| && 0 <= y < |atk| && atk[x][x] && atk[x][y] && Unattacked(atk, y) {
      var x, y :| 0 <= x < |atk| && 0 <= y < |atk| && atk[x][x] && atk[x][y] && Unattacked(atk, y);
      AsWrittenDoubleLabel(atk, x, y);
    }
  }

  /** A set found below a labelling is found below any labelling with a
      smaller IN and a smaller OUT. */
  lemma FoundWeaken(atk: Rows, l1: Labelling, l2: Labelling, e: Bitvec)
    requires IsAttackMatrix(atk) && Shaped(|atk|, l1) && Shaped(|atk|, l2)
    requires IsSubsetOf(l1.in_, l2.in_) && IsSubsetOf(l1.out, l2.out) && Found(atk, l2, e)
    ensures Found(atk, l1, e)
  {
  }

  /** The child of BLANK argument i has strictly fewer BLANK arguments. */
  lemma ExpandShrinksBlank(atk: Rows, atkBy: Rows, l: Labelling, i: nat, top: Bitvec)
    requires IsAttackMatrix(atk) && IsShaped(atkBy, |atk|, |atk|) && Shaped(|atk|, l) && i < |atk| && l.blank[i]
    requires |top| == |atk| && IsSubsetOf(l.blank, top)
    ensures IsSubsetOf(Expand(atk, atkBy, l, i).blank, l.blank) && !Expand(atk, atkBy, l, i).blank[i]
    ensures Count(Expand(atk, atkBy, l, i).blank) < Count(top)
  {
    var c := Expand(atk, atkBy, l, i);
    CountSubset(c.blank, top);
  }

  /** The child of BLANK argument i extends IN and OUT. */
  lemma ExpandGrows(atk: Rows, atkBy: Rows, l: Labelling, i: nat)
    requires IsAttackMatrix(atk) && IsShaped(atkBy, |atk|, |atk|) && Shaped(|atk|, l) && i < |atk|
    ensures IsSubsetOf(l.in_, Expand(atk, atkBy, l, i).in_) && IsSubsetOf(l.out, Expand(atk, atkBy, l, i).out)
  {
  }

  /** b is a labelling the search may reach from a: it keeps the search
      invariant and a partition, BLANK only shrinks, IN and OUT only grow. */
  ghost predicate Descends(atk: Rows, a: Labelling, b: Labelling)
    requires IsAttackMatrix(atk) && Shaped(|atk|, a)
  {
    && SearchInvariant(atk, b)
    && (Partition(|atk|, a) ==> Partition(|atk|, b))
    && IsSubsetOf(b.blank, a.blank) && IsSubsetOf(a.in_, b.in_) && IsSubsetOf(a.out, b.out)
  }

  lemma DescendsTrans(atk: Rows, a: Labelling, b: Labelling, c: Labelling)
    requires IsAttackMatrix(atk) && Shaped(|atk|, a)
    requires Descends(atk, a, b) && Descends(atk, b, c)
    ensures Descends(atk, a, c) && Count(c.blank) <= Count(a.blank)
  {
    CountSubset(c.blank, a.blank);
  }

  lemma DescendsRefl(atk: Rows, a: Labelling)
    requires IsAttackMatrix(atk) && SearchInvariant(atk, a)
    ensures Descends(atk, a, a)
  {
  }

  /** The child of a BLANK argument descends from its parent and has i no
      longer BLANK. */
  lemma ExpandDescends(atk: Rows, atkBy: Rows, l: Labelling, i: nat)
    requires IsAttackMatrix(atk) && atkBy == Transposed(atk, |atk|)
    requires SearchInvariant(atk, l) && i < |atk| && l.blank[i]
    ensures Descends(atk, l, Expand(atk, atkBy, l, i)) && !Expand(atk, atkBy, l, i).blank[i]
    ensures Count(Expand(atk, atkBy, l, i).blank) < Count(l.blank)
  {
    ExpandKeepsInvariant(atk, atkBy, l, i);
    ExpandGrows(atk, atkBy, l, i);
    ExpandShrinksBlank(atk, atkBy, l, i, l.blank);
    if Partition(|atk|, l) {
      ExpandKeepsPartition(atk, atkBy, l, i);
    }
  }

  /** Declaring a BLANK argument UNDEC descends from the labelling. */
  lemma SkipDescends(atk: Rows, l: Labelling, i: nat)
    requires IsAttackMatrix(atk) && SearchInvariant(atk, l) && i < |atk| && l.blank[i]
    ensures Descends(atk, l, Skip(l, i)) && !Skip(l, i).blank[i]
  {
    SkipKeepsInvariant(atk, l, i);
  }

  /** Between `before` and `now` the search below l recorded only sets it
      may find there, none of them contained in a set recorded earlier. */
  ghost predicate Recorded(atk: Rows, before: set<Bitvec>, now: set<Bitvec>, l: Labelling)
    requires IsAttackMatrix(atk) && Shaped(|atk|, l)
  {
    && before <= now
    && (forall e :: e in now - before ==> Found(atk, l, e))
    && (forall e, o :: e in now - before && o in before && |o| == |e| ==> !IsSubsetOf(e, o))
  }

  /** Recording nothing is a valid outcome of any search. */
  lemma RecordedNothing(atk: Rows, l: Labelling, a: set<Bitvec>)
    requires IsAttackMatrix(atk) && Shaped(|atk|, l)
    ensures Recorded(atk, a, a, l)
  {
  }

  /** What the search below a child records counts for its parent. */
  lemma RecordedChain(atk: Rows, l: Labelling, c: Labelling, a: set<Bitvec>, b: set<Bitvec>, d: set<Bitvec>)
    requires IsAttackMatrix(atk) && Shaped(|atk|, l) && Shaped(|atk|, c)
    requires IsSubsetOf(l.in_, c.in_) && IsSubsetOf(l.out, c.out)
    requires Recorded(atk, a, b, l) && Recorded(atk, b, d, c)
    ensures Recorded(atk, a, d, l)
  {
    forall e | e in d - a
      ensures Found(atk, l, e)
    {
      if e !in b {
        FoundWeaken(atk, l, c, e);
      }
    }
  }

  /** Recording the admissible IN of a leaf that nothing recorded contains. */
  lemma RecordedLeaf(atk: Rows, l: Labelling, c: Labelling, a: set<Bitvec>, b: set<Bitvec>)
    requires IsAttackMatrix(atk) && Shaped(|atk|, l) && SearchInvariant(atk, c)
    requires IsSubsetOf(l.in_, c.in_) && IsSubsetOf(l.out, c.out)
    requires IsEmptySet(c.mustOut) && !Subsumed(b, c.in_) && Recorded(atk, a, b, l)
    ensures Recorded(atk, a, b + {c.in_}, l)
  {
    LeafAdmissible(atk, c);
    assert Found(atk, l, c.in_);
  }

  /** Every first choice of the search on l whose child is a leaf has that
      leaf's IN in `now`, unless a set in `before` contains it. */
  ghost predicate FirstLeafRecorded(atk: Rows, atkBy: Rows, l: Labelling, before: set<Bitvec>, now: set<Bitvec>)
    requires IsAttackMatrix(atk) && IsShaped(atkBy, |atk|, |atk|) && Shaped(|atk|, l)
  {
    forall i :: 0 <= i < |atk| && FirstChildIsLeaf(atk, atkBy, l, i) && !Subsumed(before, Expand(atk, atkBy, l, i).in_) ==>
      Expand(atk, atkBy, l, i).in_ in now
  }

  /** A child that fails the look-ahead is no leaf with an empty MUST_OUT. */
  lemma NoLeafWhenLookAheadFails(atk: Rows, atkBy: Rows, l: Labelling, i: nat, t: SelectType)
    requires IsAttackMatrix(atk) && IsShaped(atkBy, |atk|, |atk|) && Shaped(|atk|, l)
    requires IsSelection(atk, atkBy, l, i, t) && !LookAheadHolds(atk, Expand(atk, atkBy, l, i))
    ensures forall j :: 0 <= j < |atk| ==> !FirstChildIsLeaf(atk, atkBy, l, j)
  {
    forall j | 0 <= j < |atk| && FirstChildIsLeaf(atk, atkBy, l, j)
      ensures false
    {
      if IsSelection(atk, atkBy, l, j, TypeA) {
        SelectionUnique(atk, atkBy, l, i, t, j, TypeA);
      } else {
        SelectionUnique(atk, atkBy, l, i, t, j, TypeB);
      }
    }
  }

  /** After the first step of the search on l (choice i of type t, the
      child explored when it passed the look-ahead, the search not given
      up), l was not abandoned at once and a leaf child was recorded. */
  lemma FirstStep(atk: Rows, atkBy: Rows, l: Labelling, i: nat, t: SelectType, before: set<Bitvec>, now: set<Bitvec>)
    requires IsAttackMatrix(atk) && IsShaped(atkBy, |atk|, |atk|) && Shaped(|atk|, l)
    requires IsSelection(atk, atkBy, l, i, t)
    requires t == TypeB || LookAheadHolds(atk, Expand(atk, atkBy, l, i))
    requires LookAheadHolds(atk, Expand(atk, atkBy, l, i)) && IsEmptySet(Expand(atk, atkBy, l, i).blank) ==>
      now == LeafResult(before, Expand(atk, atkBy, l, i))
    ensures !AbandonsAtOnce(atk, atkBy, l)
    ensures FirstLeafRecorded(atk, atkBy, l, before, now)
  {
    if t == TypeA {
      forall j | 0 <= j < |atk| && IsSelection(atk, atkBy, l, j, TypeA)
        ensures LookAheadHolds(atk, Expand(atk, atkBy, l, j))
      {
        SelectionUnique(atk, atkBy, l, i, t, j, TypeA);
      }
    }
    forall j | 0 <= j < |atk| && FirstChildIsLeaf(atk, atkBy, l, j) && !Subsumed(before, Expand(atk, atkBy, l, j).in_)
      ensures Expand(atk, atkBy, l, j).in_ in now
    {
      if IsSelection(atk, atkBy, l, j, TypeA) {
        SelectionUnique(atk, atkBy, l, i, t, j, TypeA);
      } else {
        SelectionUnique(atk, atkBy, l, i, t, j, TypeB);
      }
    }
  }

  /** s is a preferred extension: admissible, and no larger set is. */
  ghost predicate IsPreferred(atk: Rows, s: Bitvec)
    requires IsAttackMatrix(atk) && IsArgSet(atk, s)
  {
    IsAdmissible(atk, s) && forall t :: IsArgSet(atk, t) && IsSubsetOf(s, t) && IsAdmissible(atk, t) ==> t == s
  }

  class PreferredReasoner {
    /** Row i: the attackers of argument i. */
    const atk: Rows
    /** Row i: the arguments that i attacks (the transposed matrix). */
    const attackedBy: Rows
    /** The preferred extensions recorded so far. */
    var extensions: set<Bitvec>

    ghost predicate Valid()
      reads this
    {
      && IsAttackMatrix(atk)
      && attackedBy == Transposed(atk, |atk|)
      && forall e :: e in extensions ==> |e| == |atk|
    }

    /** Built from a framework with at least one argument: transposing the
        attack matrix asserts that both dimensions are positive. */
    constructor (af: DungAF)
      requires af.Valid() && |af.labels| > 0
      ensures Valid() && |atk| == |af.labels| && extensions == {}
      ensures forall i, j :: 0 <= i < |atk| && 0 <= j < |atk| ==> (atk[i][j] <==> (j, i) in af.attacks)
    {
      var bm := af.GetAttackMatrix();
      var t := bm.Transpose();
      atk := bm.rows;
      attackedBy := t.rows;
      extensions := {};
    }

    /** `getAttackers(bv)`: the arguments that attack some member of s. */
    function GetAttackers(s: Bitvec): (r: Bitvec)
      requires Valid() && |s| == |atk|
      reads this
      ensures |r| == |atk|
      ensures forall x {:trigger r[x]} :: 0 <= x < |atk| ==> (r[x] <==> exists y :: 0 <= y < |atk| && s[y] && atk[y][x])
    {
      var r := Product(attackedBy, s);
      assert forall x, y :: 0 <= x < |atk| && 0 <= y < |atk| ==> attackedBy[x][y] == atk[y][x];
      r
    }

    /** t contains an attacker of s exactly when s meets what t attacks. */
    lemma AttackersMeet(s: Bitvec, t: Bitvec)
      requires Valid() && |s| == |atk| && |t| == |atk|
      ensures Intersects(GetAttackers(s), t) <==> Intersects(s, Attacked(atk, t))
    {
      var n := |atk|;
      if Intersects(GetAttackers(s), t) {
        var x :| 0 <= x < n && GetAttackers(s)[x] && t[x];
        var y :| 0 <= y < n && s[y] && atk[y][x];
        assert Attacked(atk, t)[y];
      }
      if Intersects(s, Attacked(atk, t)) {
        var y :| 0 <= y < n && s[y] && Attacked(atk, t)[y];
        var x :| 0 <= x < n && t[x] && atk[y][x];
        assert GetAttackers(s)[x];
      }
    }

    /** `lookAhead(blank, must_out)`. */
    method LookAhead(l: Labelling) returns (ok: bool)
      requires Valid() && Shaped(|atk|, l)
      ensures ok <==> LookAheadHolds(atk, l)
    {
      for i := 0 to |atk|
        invariant forall x :: 0 <= x < i && l.mustOut[x] ==> Intersects(atk[x], l.blank)
      {
        if l.mustOut[i] && !Intersects(atk[i], l.blank) {
          return false;
        }
      }
      return true;
    }

    /** `selectArgument`: the BLANK arguments are scanned in index order;
        the first forced one is returned as TYPE_A, otherwise the first of
        largest degree as TYPE_B; None (npos) when nothing is BLANK. */
    method SelectArgument(l: Labelling) returns (sel: Option<nat>, t: SelectType)
      requires Valid() && Shaped(|atk|, l)
      ensures sel.None? <==> IsEmptySet(l.blank)
      ensures sel.None? ==> t == TypeB
      ensures sel.Some? ==> IsSelection(atk, attackedBy, l, sel.value, t)
    {
      sel, t := ScanBlank(atk, attackedBy, l);
    }

    /** The subsumption test at a leaf: some recorded extension contains s. */
    method IsSubsumed(s: Bitvec) returns (b: bool)
      requires Valid() && |s| == |atk|
      ensures b <==> Subsumed(extensions, s)
    {
      var rest := extensions;
      while rest != {}
        invariant rest <= extensions
        invariant forall o :: o in extensions - rest ==> !IsSubsetOf(s, o)
        decreases rest
      {
        var o :| o in rest;
        if IsSubsetOf(s, o) {
          return true;
        }
        rest := rest - {o};
      }
      return false;
    }
  
    /** `findPreferredExtensions`: the search below l. The sets passed by
        reference in the source are the labelling returned as fin. IN and
        OUT only grow and BLANK only shrinks; every set recorded is
        admissible, extends the IN of l, avoids its OUT and is contained in
        no set recorded before; a labelling with nothing BLANK records its IN
        when MUST_OUT is empty and nothing recorded contains it; a forced
        first choice whose child fails the look-ahead abandons l at once; a
        first choice whose child is a leaf records that leaf. */
    method FindPreferredExtensions(l: Labelling) returns (fin: Labelling)
      requires Valid() && SearchInvariant(atk, l)
      modifies this
      decreases Count(l.blank), 1
      ensures Valid() && Descends(atk, l, fin)
      ensures Recorded(atk, old(extensions), extensions, l)
      ensures IsEmptySet(l.blank) ==> fin == l && extensions == LeafResult(old(extensions), l)
      ensures AbandonsAtOnce(atk, attackedBy, l) ==> fin == l && extensions == old(extensions)
      ensures FirstLeafRecorded(atk, attackedBy, l, old(extensions), extensions)
    {
      var cur := l;
      CountSubset(l.blank, l.blank);
      ghost var first := true;
      var sel, t := SelectArgument(cur);
      while sel.Some?
        invariant Valid() && Descends(atk, l, cur)
        invariant sel.None? <==> IsEmptySet(cur.blank)
        invariant sel.Some? ==> IsSelection(atk, attackedBy, cur, sel.value, t)
        invariant Recorded(atk, old(extensions), extensions, l)
        invariant first ==> cur == l && extensions == old(extensions)
        invariant !first ==> !AbandonsAtOnce(atk, attackedBy, l) && !IsEmptySet(l.blank)
        invariant !first ==> FirstLeafRecorded(atk, attackedBy, l, old(extensions), extensions)
        decreases Count(cur.blank)
      {
        ghost var before := extensions;
        var next, stop := Branch(cur, sel.value, t);
        DescendsTrans(atk, l, cur, next);
        RecordedChain(atk, l, cur, old(extensions), before, extensions);
        if stop {
          fin := next;
          return;
        }
        CountSubset(next.blank, cur.blank);
        cur := next;
        first := false;
        sel, t := SelectArgument(cur);
      }
      ghost var before := extensions;
      RecordLeaf(cur);
      RecordedChain(atk, l, cur, old(extensions), before, extensions);
      fin := cur;
    }

    /** A labelling with nothing BLANK: its IN is recorded when MUST_OUT is
        empty and no set recorded so far contains it. */
    method RecordLeaf(cur: Labelling)
      requires Valid() && SearchInvariant(atk, cur) && IsEmptySet(cur.blank)
      modifies this
      ensures Valid() && extensions == LeafResult(old(extensions), cur)
      ensures Recorded(atk, old(extensions), extensions, cur)
    {
      if IsEmptySet(cur.mustOut) {
        var sub := IsSubsumed(cur.in_);
        if !sub {
          RecordedLeaf(atk, cur, cur, extensions, extensions);
          extensions := extensions + {cur.in_};
        }
      }
    }

    /** One pass of the loop of `findPreferredExtensions` on choice (i, t):
        the child with i IN is searched when it passes the look-ahead; then a
        TYPE_B choice declares i UNDEC (stopping when the look-ahead fails)
        and a TYPE_A choice stops when the child failed, or adopts the
        child's final labelling. */
    method Branch(cur: Labelling, i: nat, t: SelectType) returns (next: Labelling, stop: bool)
      requires Valid() && SearchInvariant(atk, cur) && IsSelection(atk, attackedBy, cur, i, t)
      modifies this
      decreases Count(cur.blank), 0
      ensures Valid() && Descends(atk, cur, next)
      ensures !stop ==> !next.blank[i]
      ensures Recorded(atk, old(extensions), extensions, cur)
      ensures AbandonsAtOnce(atk, attackedBy, cur) ==> stop && next == cur && extensions == old(extensions)
      ensures FirstLeafRecorded(atk, attackedBy, cur, old(extensions), extensions)
    {
      var child := Expand(atk, attackedBy, cur, i);
      ExpandDescends(atk, attackedBy, cur, i);
      var forwardCheck := LookAhead(child);
      var childFin := child;
      RecordedNothing(atk, cur, old(extensions));
      if forwardCheck {
        childFin := FindPreferredExtensions(child);
        DescendsTrans(atk, cur, child, childFin);
        RecordedChain(atk, cur, child, old(extensions), old(extensions), extensions);
      }
      if t == TypeB || forwardCheck {
        FirstStep(atk, attackedBy, cur, i, t, old(extensions), extensions);
      } else {
        NoLeafWhenLookAheadFails(atk, attackedBy, cur, i, t);
      }
      if t == TypeB {
        SkipDescends(atk, cur, i);
        next := Skip(cur, i);
        var ok := LookAhead(next);
        stop := !ok;
      } else {
        DescendsRefl(atk, cur);
        next, stop := if forwardCheck then childFin else cur, !forwardCheck;
      }
    }
  
    /** `computeExtensions`: the recorded extensions are cleared, the
        preprocessed labelling is searched. Every extension recorded is
        admissible, contains every unattacked argument and avoids what they
        attack; a first choice whose child is a leaf is recorded. */
    method ComputeExtensions()
      requires Valid()
      modifies this
      ensures Valid()
      ensures forall e :: e in extensions ==>
        && |e| == |atk| && IsAdmissible(atk, e)
        && IsSubsetOf(Characteristic(atk, EmptySet(|atk|)), e)
        && Disjoint(e, Attacked(atk, Characteristic(atk, EmptySet(|atk|))))
      ensures FirstLeafRecorded(atk, attackedBy, Preprocessed(atk, Initial(|atk|)), {}, extensions)
    {
      extensions := {};
      PreprocessedSound(atk);
      var l := Preprocessed(atk, Initial(|atk|));
      var _ := FindPreferredExtensions(l);
      forall e | e in extensions
        ensures Found(atk, l, e)
      {
        assert e in extensions - {};
      }
    }

    /** `computeExtensions` with the preprocessing as written: what it
        records is still admissible, but a preprocessed labelling that the
        search abandons at once leaves no extension at all. */
    method ComputeExtensionsAsWritten()
      requires Valid()
      modifies this
      ensures Valid()
      ensures forall e :: e in extensions ==> |e| == |atk| && IsAdmissible(atk, e)
      ensures AbandonsAtOnce(atk, attackedBy, PreprocessedAsWritten(atk, Initial(|atk|))) ==> extensions == {}
    {
      extensions := {};
      PreprocessedAsWrittenInvariant(atk);
      var l := PreprocessedAsWritten(atk, Initial(|atk|));
      var _ := FindPreferredExtensions(l);
      forall e | e in extensions
        ensures Found(atk, l, e)
      {
        assert e in extensions - {};
      }
    }
  }

  /** Three arguments a (0), x (1) and b (2): a attacks x, x attacks itself
      and b. Row i holds the attackers of i. */
  function ExampleAtk(): (atk: Rows)
    ensures IsAttackMatrix(atk) && |atk| == 3
  {
    [[false, false, false], [true, true, false], [false, true, false]]
  }

  /** Only a is unattacked in the example. */
  lemma ExampleUnattacked()
    ensures Characteristic(ExampleAtk(), EmptySet(3)) == [true, false, false]
  {
    var atk := ExampleAtk();
    CharacteristicOfEmpty(atk);
    var f := Characteristic(atk, EmptySet(3));
    assert f[0];
    assert !f[1] by {
      assert atk[1][0];
    }
    assert !f[2] by {
      assert atk[2][1];
    }
  }

  /** a attacks only x; x is the only self-attacking argument. */
  lemma ExampleAttacked()
    ensures Attacked(ExampleAtk(), [true, false, false]) == [false, true, false]
    ensures SelfAttacking(ExampleAtk()) == [false, true, false]
  {
    var atk := ExampleAtk();
    var o := Attacked(atk, [true, false, false]);
    assert o[1] by {
      assert atk[1][0];
    }
    assert !o[0] && !o[2];
  }

  /** The transposed example matrix: row i holds what i attacks. */
  lemma ExampleTransposed()
    ensures Transposed(ExampleAtk(), 3) == [[false, true, false], [false, true, true], [false, false, false]]
  {
    var t := Transposed(ExampleAtk(), 3);
    assert t[0] == [false, true, false];
    assert t[1] == [false, true, true];
    assert t[2] == [false, false, false];
  }

  /** The example preprocessed as written: x is both OUT and UNDEC. */
  lemma ExampleAsWritten()
    ensures PreprocessedAsWritten(ExampleAtk(), Initial(3)) == Labelling(
      [false, false, true], [true, false, false], [false, true, false], [false, true, false], [false, false, false])
  {
    ExampleUnattacked();
    ExampleAttacked();
    var q := PreprocessedAsWritten(ExampleAtk(), Initial(3));
    assert q.in_ == [true, false, false];
    assert q.out == [false, true, false];
    assert q.undec == [false, true, false];
    assert q.blank == [false, false, true];
    assert q.mustOut == [false, false, false];
  }

  /** The example preprocessed with the overlap removed: x is OUT only. */
  lemma ExampleCorrected()
    ensures Preprocessed(ExampleAtk(), Initial(3)) == Labelling(
      [false, false, true], [true, false, false], [false, true, false], [false, false, false], [false, false, false])
  {
    ExampleUnattacked();
    ExampleAttacked();
    var p := Preprocessed(ExampleAtk(), Initial(3));
    assert p.in_ == [true, false, false];
    assert p.out == [false, true, false];
    assert p.undec == [false, false, false];
    assert p.blank == [false, false, true];
    assert p.mustOut == [false, false, false];
  }

  /** {a, b} is admissible in the example: a and b do not attack each other
      and a counters x, the attacker of b. */
  lemma ExampleAdmissible()
    ensures IsAdmissible(ExampleAtk(), [true, false, true])
  {
    var atk := ExampleAtk();
    var s := [true, false, true];
    assert s[0] && !s[1] && s[2];
    assert atk[1][0] && !atk[2][0] && atk[2][1] && !atk[2][2];
    assert forall x, y :: 0 <= x < 3 && 0 <= y < 3 && s[x] && s[y] ==> !atk[x][y];
    assert IsConflictFree(atk, s);
    assert Defended(atk, s, 0);
    assert Defended(atk, s, 2) by {
      forall y | 0 <= y < 3 && atk[2][y]
        ensures exists z :: 0 <= z < 3 && s[z] && atk[y][z]
      {
        assert y == 1;
      }
    }
  }

  /** A conflict-free superset of {a, b} leaves out x, which attacks
      itself. */
  lemma ExampleMaximal(t: Bitvec)
    requires IsArgSet(ExampleAtk(), t) && IsSubsetOf([true, false, true], t)
    requires IsConflictFree(ExampleAtk(), t)
    ensures t == [true, false, true]
  {
    var atk := ExampleAtk();
    assert atk[1][1];
    assert !t[1];
    assert t[0] && t[2];
  }

  /** {a, b} is a preferred extension of the example. */
  lemma ExamplePreferred()
    ensures IsPreferred(ExampleAtk(), [true, false, true])
  {
    ExampleAdmissible();
    forall t | IsArgSet(ExampleAtk(), t) && IsSubsetOf([true, false, true], t) && IsAdmissible(ExampleAtk(), t)
      ensures t == [true, false, true]
    {
      ExampleMaximal(t);
    }
  }

  /** The child of b in the example as written: x moves to MUST_OUT. */
  lemma ExampleChildAsWritten()
    ensures Expand(ExampleAtk(), [[false, true, false], [false, true, true], [false, false, false]],
      Labelling([false, false, true], [true, false, false], [false, true, false], [false, true, false], [false, false, false]), 2)
      == Labelling([false, false, false], [true, false, true], [false, true, false], [false, false, false], [false, true, false])
  {
    var z := [false, false, false];
    var blank1 := Minus([false, false, false], z);
    assert blank1 == z;
    var undec1 := Minus([false, true, false], z);
    assert undec1 == [false, true, false];
    assert Union(blank1, undec1) == [false, true, false];
    var moved := Inter([false, true, false], [false, true, false]);
    assert moved == [false, true, false];
    assert Minus(blank1, moved) == z;
    assert Union([false, true, false], z) == [false, true, false];
    assert Minus(undec1, moved) == z;
    assert Minus(z, z) == z;
    assert Union(z, moved) == [false, true, false];
  }

  /** The child of b in the corrected example: nothing is BLANK or MUST_OUT. */
  lemma ExampleChildCorrected()
    ensures Expand(ExampleAtk(), [[false, true, false], [false, true, true], [false, false, false]],
      Labelling([false, false, true], [true, false, false], [false, true, false], [false, false, false], [false, false, false]), 2)
      == Labelling([false, false, false], [true, false, true], [false, true, false], [false, false, false], [false, false, false])
  {
    var z := [false, false, false];
    var blank1 := Minus([false, false, false], z);
    assert blank1 == z;
    var undec1 := Minus(z, z);
    assert undec1 == z;
    assert Union(blank1, undec1) == z;
    var moved := Inter([false, true, false], z);
    assert moved == z;
    assert Minus(blank1, moved) == z;
    assert Union([false, true, false], z) == [false, true, false];
    assert Union(z, moved) == z;
  }

  /** On the example {a, b} is preferred, yet with the preprocessing as
      written x is both OUT and UNDEC, b is forced IN and its child fails the
      look-ahead: the search gives up at once. */
  lemma AsWrittenMissesPreferred()
    ensures IsPreferred(ExampleAtk(), [true, false, true])
    ensures PreprocessedAsWritten(ExampleAtk(), Initial(3)).out[1]
    ensures PreprocessedAsWritten(ExampleAtk(), Initial(3)).undec[1]
    ensures AbandonsAtOnce(ExampleAtk(), Transposed(ExampleAtk(), 3), PreprocessedAsWritten(ExampleAtk(), Initial(3)))
  {
    ExamplePreferred();
    ExampleTransposed();
    ExampleAsWritten();
    ExampleChildAsWritten();
    var atk := ExampleAtk();
    var q := PreprocessedAsWritten(atk, Initial(3));
    var atkBy := Transposed(atk, 3);
    assert Forced(atk, q, 2);
    assert IsSelection(atk, atkBy, q, 2, TypeA);
    var c := Expand(atk, atkBy, q, 2);
    assert c.mustOut[1] && !Intersects(atk[1], c.blank);
  }

  /** With the overlap removed, the same first choice b has a leaf child
      whose IN is {a, b}. */
  lemma CorrectedFindsPreferred()
    ensures FirstChildIsLeaf(ExampleAtk(), Transposed(ExampleAtk(), 3), Preprocessed(ExampleAtk(), Initial(3)), 2)
    ensures Expand(ExampleAtk(), Transposed(ExampleAtk(), 3), Preprocessed(ExampleAtk(), Initial(3)), 2).in_ ==
      [true, false, true]
  {
    ExampleTransposed();
    ExampleCorrected();
    ExampleChildCorrected();
    var atk := ExampleAtk();
    var p := Preprocessed(atk, Initial(3));
    var atkBy := Transposed(atk, 3);
    assert Forced(atk, p, 2);
    assert IsSelection(atk, atkBy, p, 2, TypeA);
  }

  /** Called on the example, the search as written records nothing, though
      {a, b} is preferred. */
  method AsWrittenOnExample(r: PreferredReasoner)
    requires r.Valid() && r.atk == ExampleAtk()
    modifies r
    ensures r.extensions == {}
  {
    AsWrittenMissesPreferred();
    r.ComputeExtensionsAsWritten();
  }

  /** Called on the example, the corrected search records {a, b}. */
  method CorrectedOnExample(r: PreferredReasoner)
    requires r.Valid() && r.atk == ExampleAtk()
    modifies r
    ensures [true, false, true] in r.extensions
  {
    CorrectedFindsPreferred();
    r.ComputeExtensions();
  }
}
