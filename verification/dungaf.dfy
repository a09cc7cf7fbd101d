/** A Dung argumentation framework (argumatrix::DungAF). The Boost named
    graph becomes a table of labels in index order (index i is argument i)
    plus a set of attacks (source index, target index). */
module Dung {
  import opened Wrappers
  import opened Config
  import opened Bitvector
  import opened Bitmatrix
  import opened LabelOrder

  type Attack = (nat, nat)

  /** Labels are unique: the label is the key of the named graph. */
  predicate Distinct(labels: seq<string>)
  {
    forall i, j :: 0 <= i < j < |labels| ==> labels[i] != labels[j]
  }

  /** `find_vertex(name)` followed by the index map: the index of the
      argument carrying this label, if any. */
  function IndexOf(labels: seq<string>, l: string): (r: Option<nat>)
    ensures r.Some? ==> r.value < |labels| && labels[r.value] == l
    ensures r.None? <==> l !in labels
  {
    if |labels| == 0 then None
    else if labels[0] == l then Some(0)
    else
      match IndexOf(labels[1..], l)
      case None => None
      case Some(k) => Some(k + 1)
  }

  /** With unique labels the index found is the only one carrying l. */
  lemma IndexOfUnique(labels: seq<string>, i: nat)
    requires Distinct(labels) && i < |labels|
    ensures IndexOf(labels, labels[i]) == Some(i)
  {
  }

  /** The label table after `add_vertex(name)`: a known label leaves it alone. */
  function WithLabel(labels: seq<string>, l: string): seq<string>
  {
    if l in labels then labels else labels + [l]
  }

  /** The arguments whose bit is set (`bv2set`). */
  function IndicesOf(bv: Bitvec): set<nat>
  {
    set i | 0 <= i < |bv| && bv[i]
  }

  /** The n-bit vector with exactly the bits of sa set (`set2bv`). */
  function BitsOf(n: nat, sa: set<nat>): Bitvec
  {
    seq(n, i => i in sa)
  }

  /** `bv2set(set2bv(S)) == S` for every set of arguments, and the other way
      round for every vector of the framework's size. */
  lemma IndicesBitsRoundTrip(n: nat, sa: set<nat>, bv: Bitvec)
    requires forall a :: a in sa ==> a < n
    requires |bv| == n
    ensures IndicesOf(BitsOf(n, sa)) == sa
    ensures BitsOf(n, IndicesOf(bv)) == bv
  {
  }

  /** The labels of the arguments whose bit is set (`bv2label_set`). */
  function LabelsOf(labels: seq<string>, bv: Bitvec): set<string>
    requires |bv| == |labels|
  {
    set i | 0 <= i < |labels| && bv[i] :: labels[i]
  }

  /** The vector with exactly the bits of the labels in ls set
      (`labelSet2bv`); None when some label is not an argument. */
  function LabelBits(labels: seq<string>, ls: set<string>): (r: Option<Bitvec>)
    ensures r.Some? <==> forall l :: l in ls ==> l in labels
    ensures r.Some? ==> |r.value| == |labels|
    ensures r.Some? ==> forall i :: 0 <= i < |labels| ==> (r.value[i] <==> labels[i] in ls)
  {
    if forall l :: l in ls ==> l in labels then
      Some(seq(|labels|, i requires 0 <= i < |labels| => labels[i] in ls))
    else None
  }

  /** `bv2label_set(labelSet2bv(L)) == L` for every set of known labels, and
      `labelSet2bv(bv2label_set(bv)) == bv` since labels are unique. */
  lemma LabelBitsRoundTrip(labels: seq<string>, ls: set<string>, bv: Bitvec)
    requires Distinct(labels) && |bv| == |labels|
    requires forall l :: l in ls ==> l in labels
    ensures LabelBits(labels, ls).Some? && LabelsOf(labels, LabelBits(labels, ls).value) == ls
    ensures LabelBits(labels, LabelsOf(labels, bv)) == Some(bv)
  {
    var b := LabelBits(labels, ls).value;
    forall l | l in ls
      ensures l in LabelsOf(labels, b)
    {
      var i := IndexOf(labels, l).value;
      assert b[i];
    }
    var ls2 := LabelsOf(labels, bv);
    assert forall l :: l in ls2 ==> l in labels;
    var b2 := LabelBits(labels, ls2).value;
    forall i | 0 <= i < |labels|
      ensures b2[i] == bv[i]
    {
      if bv[i] {
        assert labels[i] in ls2;
      }
      if b2[i] {
        var j :| 0 <= j < |labels| && bv[j] && labels[j] == labels[i];
        assert i == j;
      }
    }
    assert b2 == bv;
  }

  /** The message `getArgumentIdx` writes before it ends the program. */
  function UnknownArgument(l: string): string
  {
    "Argument [" + l + "] is not in this framework."
  }

  /** The first label of s that is not an argument, if any. */
  function FirstUnknown(labels: seq<string>, s: seq<string>): (r: Option<string>)
    ensures r.None? <==> forall l :: l in s ==> l in labels
    ensures r.Some? ==> exists k :: 0 <= k < |s| && s[k] == r.value && r.value !in labels
                                    && forall j :: 0 <= j < k ==> s[j] in labels
  {
    if |s| == 0 then None
    else if s[0] !in labels then Some(s[0])
    else
      var r := FirstUnknown(labels, s[1..]);
      assert r.Some? ==> exists k :: 1 <= k < |s| && s[k] == r.value && r.value !in labels
                                     && forall j :: 0 <= j < k ==> s[j] in labels by {
        if r.Some? {
          var k :| 0 <= k < |s[1..]| && s[1..][k] == r.value && r.value !in labels
                   && forall j :: 0 <= j < k ==> s[1..][j] in labels;
          assert forall j :: 1 <= j < k + 1 ==> s[j] == s[1..][j - 1];
        }
      }
      assert s == [s[0]] + s[1..];
      r
  }

  /** When every label before position k is known and s[k] is not, s[k] is
      the first unknown one. */
  lemma {:induction false} FirstUnknownAt(labels: seq<string>, s: seq<string>, k: nat)
    requires k < |s| && s[k] !in labels && forall j :: 0 <= j < k ==> s[j] in labels
    ensures FirstUnknown(labels, s) == Some(s[k])
  {
    if k > 0 {
      assert forall j :: 0 <= j < k - 1 ==> s[1..][j] == s[j + 1];
      FirstUnknownAt(labels, s[1..], k - 1);
    }
  }

  /** `labelSet2bv(ls)` as a value: the set is walked in ascending order and
      the first label that is not an argument ends the program. */
  function LabelSetBits(labels: seq<string>, ls: set<string>): (r: Result<Bitvec>)
    ensures r.Ok? <==> LabelBits(labels, ls).Some?
    ensures r.Ok? ==> r.value == LabelBits(labels, ls).value
    ensures r.Fail? ==> exists l :: l in ls && l !in labels && r.error == UnknownArgument(l)
                                    && forall m :: m in ls && LexLess(m, l) ==> m in labels
  {
    var sorted := SortedLabels(ls);
    match FirstUnknown(labels, sorted)
    case None => Ok(LabelBits(labels, ls).value)
    case Some(l) =>
      FirstUnknownIsLeast(labels, ls, l);
      Fail(UnknownArgument(l))
  }

  /** Walking the set in ascending order and meeting an unknown label at
      position k is the failure of `labelSet2bv`. */
  lemma UnknownAtPosition(labels: seq<string>, ls: set<string>, k: nat)
    requires k < |SortedLabels(ls)| && SortedLabels(ls)[k] !in labels
    requires forall j :: 0 <= j < k ==> SortedLabels(ls)[j] in labels
    ensures LabelSetBits(labels, ls) == Fail(UnknownArgument(SortedLabels(ls)[k]))
    ensures exists l :: l in ls && l !in labels
  {
    FirstUnknownAt(labels, SortedLabels(ls), k);
    assert SortedLabels(ls)[k] in ls;
  }

  /** Walking the whole set without meeting an unknown label sets exactly
      the bits of its labels: the success of `labelSet2bv`. */
  lemma KnownWalk(labels: seq<string>, ls: set<string>, bv: Bitvec)
    requires |bv| == |labels| && forall l :: l in ls ==> l in labels
    requires forall i :: 0 <= i < |labels| ==> (bv[i] <==> labels[i] in ls)
    ensures LabelSetBits(labels, ls) == Ok(bv)
  {
    assert LabelBits(labels, ls).value == bv;
  }

  /** In an ascending listing, every label before the first unknown one is
      known. */
  lemma FirstUnknownInAscending(labels: seq<string>, s: seq<string>, l: string, m: string)
    requires Ascending(s) && FirstUnknown(labels, s) == Some(l)
    requires m in s && LexLess(m, l)
    ensures m in labels
  {
    var k :| 0 <= k < |s| && s[k] == l && l !in labels && forall j :: 0 <= j < k ==> s[j] in labels;
    var j :| 0 <= j < |s| && s[j] == m;
    AscendingIndex(s, j, k);
  }

  /** The first unknown label in ascending order comes before every other
      unknown label. */
  lemma FirstUnknownIsLeast(labels: seq<string>, ls: set<string>, l: string)
    requires FirstUnknown(labels, SortedLabels(ls)) == Some(l)
    ensures forall m :: m in ls && LexLess(m, l) ==> m in labels
  {
    var s := SortedLabels(ls);
    forall m | m in ls && LexLess(m, l)
      ensures m in labels
    {
      FirstUnknownInAscending(labels, s, l, m);
    }
  }

  /** The labels of the set bits, in index order: the text `outputBv` writes
      between its brackets. */
  function SelectedLabels(labels: seq<string>, bv: Bitvec): (r: seq<string>)
    requires |bv| == |labels|
    ensures forall l :: l in r <==> l in LabelsOf(labels, bv)
  {
    if |bv| == 0 then []
    else
      var rest := SelectedLabels(labels[..|bv| - 1], bv[..|bv| - 1]);
      assert forall i :: 0 <= i < |bv| - 1 ==> labels[..|bv| - 1][i] == labels[i] && bv[..|bv| - 1][i] == bv[i];
      rest + (if bv[|bv| - 1] then [labels[|bv| - 1]] else [])
  }

  /** `outputBv(bv)`: `[l1,l2,...]` over the set bits in index order. */
  function BvText(labels: seq<string>, bv: Bitvec): string
    requires |bv| == |labels|
  {
    LEFT_LIMITER + Join(SelectedLabels(labels, bv), DELIMITER) + RIGHT_LIMITER
  }

  /** The attacks from argument i to a target below j, by target index. */
  function RowUpTo(attacks: set<Attack>, i: nat, j: nat): (r: seq<Attack>)
    ensures forall a :: 0 <= a < |r| ==> r[a].0 == i && r[a].1 < j
  {
    if j == 0 then []
    else RowUpTo(attacks, i, j - 1) + (if (i, j - 1) in attacks then [(i, j - 1)] else [])
  }

  /** The attacks with a source below i and a target below n, ordered by
      (source, target): the order in which the edge set is iterated. */
  function ListUpTo(attacks: set<Attack>, n: nat, i: nat): (r: seq<Attack>)
    ensures forall a :: 0 <= a < |r| ==> r[a].0 < i && r[a].1 < n
  {
    if i == 0 then []
    else ListUpTo(attacks, n, i - 1) + RowUpTo(attacks, i - 1, n)
  }

  /** Every attack of an n-argument framework, in (source, target) order. */
  function AttackList(attacks: set<Attack>, n: nat): seq<Attack>
  {
    ListUpTo(attacks, n, n)
  }

  /** (source, target) order on attacks. */
  predicate Before(e: Attack, f: Attack)
  {
    e.0 < f.0 || (e.0 == f.0 && e.1 < f.1)
  }

  predicate StrictlySorted(es: seq<Attack>)
  {
    forall a, b :: 0 <= a < b < |es| ==> Before(es[a], es[b])
  }

  lemma {:induction false} RowUpToExact(attacks: set<Attack>, i: nat, j: nat)
    ensures forall e :: e in RowUpTo(attacks, i, j) <==> e in attacks && e.0 == i && e.1 < j
    ensures StrictlySorted(RowUpTo(attacks, i, j))
  {
    if j > 0 {
      RowUpToExact(attacks, i, j - 1);
    }
  }

  lemma {:induction false} ListUpToExact(attacks: set<Attack>, n: nat, i: nat)
    ensures forall e :: e in ListUpTo(attacks, n, i) <==> e in attacks && e.0 < i && e.1 < n
    ensures StrictlySorted(ListUpTo(attacks, n, i))
  {
    ListUpToMembers(attacks, n, i);
    ListUpToSorted(attacks, n, i);
  }

  lemma {:induction false} ListUpToMembers(attacks: set<Attack>, n: nat, i: nat)
    ensures forall e :: e in ListUpTo(attacks, n, i) <==> e in attacks && e.0 < i && e.1 < n
  {
    if i > 0 {
      ListUpToMembers(attacks, n, i - 1);
      RowUpToExact(attacks, i - 1, n);
      var xs: seq<Attack> := ListUpTo(attacks, n, i - 1);
      var ys: seq<Attack> := RowUpTo(attacks, i - 1, n);
      assert ListUpTo(attacks, n, i) == xs + ys;
      assert forall e :: e in xs + ys <==> e in xs || e in ys;
    }
  }

  lemma {:induction false} ListUpToSorted(attacks: set<Attack>, n: nat, i: nat)
    ensures StrictlySorted(ListUpTo(attacks, n, i))
  {
    if i > 0 {
      ListUpToSorted(attacks, n, i - 1);
      RowUpToExact(attacks, i - 1, n);
      SortedConcat(ListUpTo(attacks, n, i - 1), RowUpTo(attacks, i - 1, n), i - 1);
    }
  }

  /** Attacks from sources below i followed by sorted attacks from source i
      stay sorted. */
  lemma SortedConcat(xs: seq<Attack>, ys: seq<Attack>, i: nat)
    requires StrictlySorted(xs) && StrictlySorted(ys)
    requires forall a :: 0 <= a < |xs| ==> xs[a].0 < i
    requires forall b :: 0 <= b < |ys| ==> ys[b].0 == i
    ensures StrictlySorted(xs + ys)
  {
    var zs := xs + ys;
    forall a, b | 0 <= a < b < |zs|
      ensures Before(zs[a], zs[b])
    {
      if b < |xs| {
        assert zs[a] == xs[a] && zs[b] == xs[b];
      } else if a < |xs| {
        assert zs[a] == xs[a] && zs[b] == ys[b - |xs|];
      } else {
        assert zs[a] == ys[a - |xs|] && zs[b] == ys[b - |xs|];
      }
    }
  }

  /** The edge iteration of `toString()` lists every attack of the framework
      exactly once (no repeats, since the order is strict), in (source,
      target) order. */
  lemma AttackListExact(attacks: set<Attack>, n: nat)
    requires forall e :: e in attacks ==> e.0 < n && e.1 < n
    ensures forall e :: e in AttackList(attacks, n) <==> e in attacks
    ensures StrictlySorted(AttackList(attacks, n))
  {
    ListUpToExact(attacks, n, n);
  }

  /** `(s,t)` for one attack. */
  function AttackText(labels: seq<string>, e: Attack): string
    requires e.0 < |labels| && e.1 < |labels|
  {
    "(" + labels[e.0] + DELIMITER + labels[e.1] + ")"
  }

  /** `(s,t)` for every attack in order. */
  predicate InRange(labels: seq<string>, es: seq<Attack>)
  {
    forall k :: 0 <= k < |es| ==> es[k].0 < |labels| && es[k].1 < |labels|
  }

  function AttackTexts(labels: seq<string>, es: seq<Attack>): (r: seq<string>)
    requires InRange(labels, es)
  {
    seq(|es|, k requires 0 <= k < |es| => AttackText(labels, es[k]))
  }

  /** Appending one more attack text to the joined texts. */
  lemma AttackTextsStep(labels: seq<string>, es: seq<Attack>, e: Attack)
    requires InRange(labels, es)
    requires e.0 < |labels| && e.1 < |labels|
    ensures AttackTexts(labels, es + [e]) == AttackTexts(labels, es) + [AttackText(labels, e)]
  {
  }

  /** One stretch of the edge iteration: the `(s,t)` texts of the attacks
      leaving source i are appended in target order. */
  method AppendRowTexts(labels: seq<string>, attacks: set<Attack>, i: nat, texts: seq<string>) returns (r: seq<string>)
    requires i < |labels| && texts == AttackTexts(labels, ListUpTo(attacks, |labels|, i))
    ensures r == AttackTexts(labels, ListUpTo(attacks, |labels|, i + 1))
  {
    var n := |labels|;
    r := texts;
    PrefixInRange(labels, attacks, i, 0);
    assert ListUpTo(attacks, n, i) + RowUpTo(attacks, i, 0) == ListUpTo(attacks, n, i);
    for j := 0 to n
      invariant InRange(labels, ListUpTo(attacks, n, i) + RowUpTo(attacks, i, j))
      invariant r == AttackTexts(labels, ListUpTo(attacks, n, i) + RowUpTo(attacks, i, j))
    {
      RowTextsStep(labels, attacks, i, j);
      if (i, j) in attacks {
        r := r + [AttackText(labels, (i, j))];
      }
    }
  }

  /** The attacks listed so far name only arguments of the framework. */
  lemma PrefixInRange(labels: seq<string>, attacks: set<Attack>, i: nat, j: nat)
    requires i < |labels| && j <= |labels|
    ensures InRange(labels, ListUpTo(attacks, |labels|, i) + RowUpTo(attacks, i, j))
  {
    var n := |labels|;
    var xs: seq<Attack> := ListUpTo(attacks, n, i);
    var ys: seq<Attack> := RowUpTo(attacks, i, j);
    var zs := xs + ys;
    forall k | 0 <= k < |zs|
      ensures zs[k].0 < n && zs[k].1 < n
    {
      if k < |xs| {
        assert zs[k] == xs[k];
      } else {
        assert zs[k] == ys[k - |xs|];
      }
    }
  }

  /** One target further along row i adds the text of (i, j) when it is an
      attack. */
  lemma RowTextsStep(labels: seq<string>, attacks: set<Attack>, i: nat, j: nat)
    requires i < |labels| && j < |labels|
    ensures InRange(labels, ListUpTo(attacks, |labels|, i) + RowUpTo(attacks, i, j))
    ensures InRange(labels, ListUpTo(attacks, |labels|, i) + RowUpTo(attacks, i, j + 1))
    ensures AttackTexts(labels, ListUpTo(attacks, |labels|, i) + RowUpTo(attacks, i, j + 1)) ==
      AttackTexts(labels, ListUpTo(attacks, |labels|, i) + RowUpTo(attacks, i, j)) +
      (if (i, j) in attacks then [AttackText(labels, (i, j))] else [])
  {
    PrefixInRange(labels, attacks, i, j);
    PrefixInRange(labels, attacks, i, j + 1);
    var es := ListUpTo(attacks, |labels|, i) + RowUpTo(attacks, i, j);
    if (i, j) in attacks {
      assert ListUpTo(attacks, |labels|, i) + RowUpTo(attacks, i, j + 1) == es + [(i, j)];
      AttackTextsStep(labels, es, (i, j));
    } else {
      assert RowUpTo(attacks, i, j + 1) == RowUpTo(attacks, i, j);
    }
  }

  /** `toString()`: `[{l0,l1,...},{(s,t),...}]`. */
  function FrameworkText(labels: seq<string>, attacks: set<Attack>): string
  {
    var es := AttackList(attacks, |labels|);
    "[{" + Join(labels, DELIMITER) + "},{" + Join(AttackTexts(labels, es), DELIMITER) + "}]"
  }

  /** The `[a,b]` texts of a sequence of extensions. */
  function BvTexts(labels: seq<string>, exts: seq<Bitvec>): seq<string>
    requires forall k :: 0 <= k < |exts| ==> |exts[k]| == |labels|
  {
    seq(|exts|, k requires 0 <= k < |exts| => BvText(labels, exts[k]))
  }

  /** `outputBvSet(exts)`: the extension texts, comma-joined in brackets. */
  function ExtensionsText(labels: seq<string>, exts: seq<Bitvec>): string
    requires forall k :: 0 <= k < |exts| ==> |exts[k]| == |labels|
  {
    LEFT_LIMITER + Join(BvTexts(labels, exts), DELIMITER) + RIGHT_LIMITER
  }

  class DungAF {
    var labels: seq<string>
    var attacks: set<Attack>

    ghost predicate Valid()
      reads this
    {
      Distinct(labels) && forall e :: e in attacks ==> e.0 < |labels| && e.1 < |labels|
    }

    /** An empty framework. */
    constructor ()
      ensures Valid() && labels == [] && attacks == {}
    {
      labels, attacks := [], {};
    }

    function NumberOfArguments(): nat
      reads this
    {
      |labels|
    }

    /** `addArgument(name)`: a new label becomes the argument with the next
        index; a label already present gives back its argument. */
    method AddArgument(name: string) returns (arg: nat)
      requires Valid()
      modifies this
      ensures Valid() && attacks == old(attacks)
      ensures labels == WithLabel(old(labels), name)
      ensures name !in old(labels) ==> arg == |old(labels)| && |labels| == |old(labels)| + 1
      ensures arg < |labels| && labels[arg] == name
    {
      var found := IndexOf(labels, name);
      if found.Some? {
        arg := found.value;
      } else {
        labels := labels + [name];
        arg := |labels| - 1;
      }
    }

    /** `addAttack(arg1, arg2)` on argument indices. Attacks form a set; the
        returned flag is the `inserted` the source asserts. */
    method AddAttackByIndex(a1: nat, a2: nat) returns (inserted: bool)
      requires Valid() && a1 < |labels| && a2 < |labels|
      modifies this
      ensures Valid() && labels == old(labels)
      ensures attacks == old(attacks) + {(a1, a2)}
      ensures inserted <==> (a1, a2) !in old(attacks)
    {
      inserted := (a1, a2) !in attacks;
      attacks := attacks + {(a1, a2)};
    }

    /** `addAttack(label1, label2)`: unknown labels become new arguments,
        the attacker first. */
    method AddAttack(l1: string, l2: string) returns (inserted: bool)
      requires Valid()
      modifies this
      ensures Valid() && labels == WithLabel(WithLabel(old(labels), l1), l2)
      ensures exists a1: nat, a2: nat ::
        && a1 < |labels| && a2 < |labels| && labels[a1] == l1 && labels[a2] == l2
        && attacks == old(attacks) + {(a1, a2)}
        && (inserted <==> (a1, a2) !in old(attacks))
    {
      var a1 := AddArgument(l1);
      var a2 := AddArgument(l2);
      assert labels[a1] == l1;
      inserted := AddAttackByIndex(a1, a2);
    }

    /** `clear()`: no arguments, no attacks. */
    method Clear()
      modifies this
      ensures Valid() && labels == [] && attacks == {}
    {
      labels, attacks := [], {};
    }

    /** `getAttackMatrix()`: row i holds the attackers of argument i. */
    method GetAttackMatrix() returns (bm: BitMatrix)
      requires Valid()
      ensures fresh(bm) && bm.Valid() && bm.nRow == |labels| && bm.nCol == |labels|
      ensures IsSquare(bm.rows)
      ensures forall i, j :: 0 <= i < |labels| && 0 <= j < |labels| ==>
        (bm.rows[i][j] <==> (j, i) in attacks)
    {
      bm := new BitMatrix.Square(|labels|);
      var rest := attacks;
      while rest != {}
        invariant bm.Valid() && bm.nRow == |labels| && bm.nCol == |labels|
        invariant rest <= attacks
        invariant forall i, j :: 0 <= i < |labels| && 0 <= j < |labels| ==>
          (bm.rows[i][j] <==> (j, i) in attacks - rest)
        decreases rest
      {
        var e :| e in rest;
        bm.SetBit(e.1, e.0, true);
        rest := rest - {e};
      }
    }

    /** `set2bv(sa)`. */
    method Set2Bv(sa: set<nat>) returns (bv: Bitvec)
      requires forall a :: a in sa ==> a < |labels|
      ensures bv == BitsOf(|labels|, sa)
    {
      bv := EmptySet(|labels|);
      var rest := sa;
      while rest != {}
        invariant rest <= sa && |bv| == |labels|
        invariant forall i :: 0 <= i < |labels| ==> (bv[i] <==> i in sa - rest)
        decreases rest
      {
        var a :| a in rest;
        bv := bv[a := true];
        rest := rest - {a};
      }
    }

    /** `bv2set(bv)`: the vector must have the framework's size. */
    method Bv2Set(bv: Bitvec) returns (sa: set<nat>)
      requires |bv| == |labels|
      ensures sa == IndicesOf(bv)
    {
      sa := {};
      for i := 0 to |bv|
        invariant sa == set k | 0 <= k < i && bv[k]
      {
        if bv[i] {
          sa := sa + {i};
        }
      }
    }

    /** `bv2label_set(bv)`. */
    method Bv2LabelSet(bv: Bitvec) returns (ls: set<string>)
      requires |bv| == |labels|
      ensures ls == LabelsOf(labels, bv)
    {
      ls := {};
      for i := 0 to |bv|
        invariant ls == set k | 0 <= k < i && bv[k] :: labels[k]
      {
        if bv[i] {
          ls := ls + {labels[i]};
        }
      }
    }

    /** `getArgumentIdx(name)`: an unknown label ends the program with a
        message, modelled as a failure. */
    function ArgumentIdx(name: string): (r: Result<nat>)
      reads this
      ensures r.Ok? <==> name in labels
      ensures r.Ok? ==> r.value < |labels| && labels[r.value] == name
      ensures r.Fail? ==> r.error == UnknownArgument(name)
    {
      match IndexOf(labels, name)
      case Some(i) => Ok(i)
      case None => Fail(UnknownArgument(name))
    }

    /** `labelSet2bv(ls)`: walks the set in ascending order, setting the bit
        of each label; the first label that is not an argument ends the
        program. */
    method LabelSet2Bv(ls: set<string>) returns (r: Result<Bitvec>)
      requires Valid()
      ensures r == LabelSetBits(labels, ls)
    {
      var sorted := SortedLabels(ls);
      var bv := EmptySet(|labels|);
      ghost var seen: set<string> := {};
      for k := 0 to |sorted|
        invariant |bv| == |labels| && seen <= ls
        invariant forall j :: 0 <= j < k ==> sorted[j] in labels && sorted[j] in seen
        invariant forall i :: 0 <= i < |labels| ==> (bv[i] <==> labels[i] in seen)
      {
        var idx := ArgumentIdx(sorted[k]);
        if idx.Fail? {
          UnknownAtPosition(labels, ls, k);
          return Fail(idx.error);
        }
        IndexOfUnique(labels, idx.value);
        bv := bv[idx.value := true];
        seen := seen + {sorted[k]};
      }
      assert seen == ls;
      KnownWalk(labels, ls, bv);
      r := Ok(bv);
    }

    /** `getArgumentLabels()`: the labels in index order. */
    method GetArgumentLabels() returns (r: seq<string>)
      ensures |r| == |labels| && forall i :: 0 <= i < |r| ==> r[i] == labels[i]
    {
      r := [];
      for i := 0 to |labels|
        invariant r == labels[..i]
      {
        r := r + [labels[i]];
      }
    }

    /** The comma-joined labels: the first part of `toString()`. */
    method ArgumentsText() returns (args: string)
      ensures args == Join(labels, DELIMITER)
    {
      var n := |labels|;
      args := "";
      if n > 0 {
        args := labels[0];
        for i := 1 to n
          invariant args == Join(labels[..i], DELIMITER)
        {
          assert labels[..i + 1][..i] == labels[..i];
          args := args + DELIMITER + labels[i];
        }
      }
      assert labels[..n] == labels;
    }

    /** The comma-joined `(s,t)` texts over the edge set in (source, target)
        order: the second part of `toString()`. */
    method AttacksText() returns (atks: string)
      ensures atks == Join(AttackTexts(labels, AttackList(attacks, |labels|)), DELIMITER)
    {
      var n := |labels|;
      var texts: seq<string> := [];
      for i := 0 to n
        invariant texts == AttackTexts(labels, ListUpTo(attacks, n, i))
      {
        texts := AppendRowTexts(labels, attacks, i, texts);
      }
      atks := Join(texts, DELIMITER);
    }

    /** `toString()`. */
    method ToString() returns (s: string)
      ensures s == FrameworkText(labels, attacks)
    {
      var args := ArgumentsText();
      var atks := AttacksText();
      s := "[{" + args + "},{" + atks + "}]";
    }

    /** `outputBv(bv)` as a string. */
    method OutputBv(bv: Bitvec) returns (s: string)
      requires |bv| == |labels|
      ensures s == BvText(labels, bv)
    {
      var items := "";
      var first := true;
      ghost var sel: seq<string> := [];
      for i := 0 to |bv|
        invariant sel == SelectedLabels(labels[..i], bv[..i]) && (first <==> |sel| == 0)
        invariant items == Join(sel, DELIMITER)
      {
        assert labels[..i + 1][..i] == labels[..i] && bv[..i + 1][..i] == bv[..i];
        if bv[i] {
          items := if first then labels[i] else items + DELIMITER + labels[i];
          sel := sel + [labels[i]];
          first := false;
        }
      }
      assert labels[..|bv|] == labels && bv[..|bv|] == bv;
      s := LEFT_LIMITER + items + RIGHT_LIMITER;
    }

    /** `outputBvSet(exts)` as a string; exts is the iteration order of the
        source's std::set. */
    method OutputBvSet(exts: seq<Bitvec>) returns (s: string)
      requires forall k :: 0 <= k < |exts| ==> |exts[k]| == |labels|
      ensures s == ExtensionsText(labels, exts)
      ensures |exts| == 0 ==> s == "[]"
    {
      var items := "";
      for k := 0 to |exts|
        invariant items == Join(BvTexts(labels, exts[..k]), DELIMITER)
      {
        var t := OutputBv(exts[k]);
        assert BvTexts(labels, exts[..k + 1])[..k] == BvTexts(labels, exts[..k]);
        items := if k == 0 then t else items + DELIMITER + t;
      }
      assert exts[..|exts|] == exts;
      s := LEFT_LIMITER + items + RIGHT_LIMITER;
    }
  }
}
