/** The order in which a `std::set<string>` of labels is walked: strictly
    increasing in the lexicographic order of `std::string` comparison (a
    proper prefix comes first, otherwise the first differing character
    decides). */
module LabelOrder {

  /** a comes strictly before b. */
  predicate LexLess(a: string, b: string)
  {
    if |b| == 0 then false
    else if |a| == 0 then true
    else a[0] < b[0] || (a[0] == b[0] && LexLess(a[1..], b[1..]))
  }

  /** No string comes before itself. */
  lemma {:induction false} LexIrreflexive(a: string)
    ensures !LexLess(a, a)
  {
    if |a| > 0 {
      LexIrreflexive(a[1..]);
    }
  }

  lemma {:induction false} LexTransitive(a: string, b: string, c: string)
    requires LexLess(a, b) && LexLess(b, c)
    ensures LexLess(a, c)
  {
    if |a| > 0 && a[0] == b[0] && b[0] == c[0] {
      LexTransitive(a[1..], b[1..], c[1..]);
    }
  }

  /** Two different strings are ordered one way or the other. */
  lemma {:induction false} LexTotal(a: string, b: string)
    requires a != b
    ensures LexLess(a, b) || LexLess(b, a)
  {
    if |a| > 0 && |b| > 0 && a[0] == b[0] {
      assert a == [a[0]] + a[1..] && b == [b[0]] + b[1..];
      LexTotal(a[1..], b[1..]);
    }
  }

  /** m comes before every other member of ls. */
  predicate IsLeast(m: string, ls: set<string>)
  {
    m in ls && forall x :: x in ls && x != m ==> LexLess(m, x)
  }

  /** Every non-empty finite set of labels has a least member. */
  lemma {:induction false} LeastExists(ls: set<string>)
    requires ls != {}
    ensures exists m :: IsLeast(m, ls)
    decreases |ls|
  {
    var x :| x in ls;
    var rest := ls - {x};
    if rest == {} {
      assert ls == {x};
      assert IsLeast(x, ls);
    } else {
      LeastExists(rest);
      var m :| IsLeast(m, rest);
      if LexLess(m, x) {
        assert IsLeast(m, ls);
      } else {
        LexTotal(m, x);
        forall y | y in ls && y != x
          ensures LexLess(x, y)
        {
          if y != m {
            LexTransitive(x, m, y);
          }
        }
        assert IsLeast(x, ls);
      }
    }
  }

  /** The least member is unique. */
  lemma LeastUnique(ls: set<string>)
    ensures forall m1, m2 :: IsLeast(m1, ls) && IsLeast(m2, ls) ==> m1 == m2
  {
    forall m1, m2 | IsLeast(m1, ls) && IsLeast(m2, ls)
      ensures m1 == m2
    {
      if m1 != m2 {
        LexTransitive(m1, m2, m1);
        LexIrreflexive(m1);
      }
    }
  }

  predicate Ascending(s: seq<string>)
  {
    forall i, j :: 0 <= i < j < |s| ==> LexLess(s[i], s[j])
  }

  /** In an ascending sequence an element coming before another sits at a
      lower position. */
  lemma AscendingIndex(s: seq<string>, j: nat, k: nat)
    requires Ascending(s) && j < |s| && k < |s| && LexLess(s[j], s[k])
    ensures j < k
  {
    if j == k {
      LexIrreflexive(s[k]);
    } else if j > k {
      LexTransitive(s[j], s[k], s[j]);
      LexIrreflexive(s[j]);
    }
  }

  /** The members of ls in the order the set iterates them: every member
      exactly once, strictly ascending. */
  function SortedLabels(ls: set<string>): (r: seq<string>)
    ensures |r| == |ls| && Ascending(r)
    ensures forall l :: l in r <==> l in ls
    decreases |ls|
  {
    if ls == {} then []
    else
      LeastExists(ls);
      LeastUnique(ls);
      var m :| IsLeast(m, ls);
      var rest := SortedLabels(ls - {m});
      assert forall i :: 0 <= i < |rest| ==> rest[i] in ls - {m};
      [m] + rest
  }

  /** A sorted listing has a unique first element: the least member. */
  lemma SortedHead(ls: set<string>)
    requires ls != {}
    ensures IsLeast(SortedLabels(ls)[0], ls)
  {
    var r := SortedLabels(ls);
    forall x | x in ls && x != r[0]
      ensures LexLess(r[0], x)
    {
      var k :| 0 <= k < |r| && r[k] == x;
    }
  }
}
