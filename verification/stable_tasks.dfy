/** The part of argumatrix::StablePlReasoner computed without the Prolog
    engine: the usage message of its argument-taking tasks and the
    verification task DE, which is the bit test S == N(S). */
module StableTasks {
  import opened Wrappers
  import opened Config
  import opened Bitvector
  import opened Bitmatrix
  import opened Dung
  import opened Reasoner
  import opened ConflictFreeTasks

  /** The usage message of EC, SC, DC and DS (all four name DC). */
  const NEEDS_ARGUMENT: string := "The task DC needs additional argument (see option -a)"

  /** The labels in ls are a stable extension: no two of them attack each
      other, and every argument whose label is not in ls is attacked by one
      whose label is. */
  ghost predicate LabelsStable(labels: seq<string>, atk: Rows, ls: set<string>)
    requires IsFramework(labels, atk)
  {
    && LabelsConflictFree(labels, atk, ls)
    && forall x :: 0 <= x < |atk| && labels[x] !in ls ==>
         exists y :: 0 <= y < |atk| && labels[y] in ls && atk[x][y]
  }

  /** `is_stable(labelSet2bv(argset))` tests the bits of the labels. */
  lemma BitsStable(labels: seq<string>, atk: Rows, ls: set<string>)
    requires IsFramework(labels, atk) && LabelBits(labels, ls).Some?
    ensures IsStable(atk, LabelBits(labels, ls).value) <==> LabelsStable(labels, atk, ls)
  {
    var b := LabelBits(labels, ls).value;
    BitsConflictFree(labels, atk, ls);
    if IsStable(atk, b) {
      forall x | 0 <= x < |atk| && labels[x] !in ls
        ensures exists y :: 0 <= y < |atk| && labels[y] in ls && atk[x][y]
      {
        assert !b[x];
        var y :| 0 <= y < |atk| && b[y] && atk[x][y];
        assert labels[y] in ls;
      }
    }
    if LabelsStable(labels, atk, ls) {
      forall x | 0 <= x < |atk| && !b[x]
        ensures exists y :: 0 <= y < |atk| && b[y] && atk[x][y]
      {
        assert labels[x] !in ls;
        var y :| 0 <= y < |atk| && labels[y] in ls && atk[x][y];
        assert b[y];
      }
    }
  }

  /** [DE-ST]: is argset a stable extension? An empty set is a valid
      question; an unknown label fails. */
  function TaskDE(labels: seq<string>, atk: Rows, argset: set<string>): (r: Result<string>)
    requires IsFramework(labels, atk)
    ensures r.Ok? <==> forall l :: l in argset ==> l in labels
    ensures LabelSetBits(labels, argset).Fail? ==> r == Fail(LabelSetBits(labels, argset).error)
    ensures r.Ok? ==> r.value == Verdict(LabelsStable(labels, atk, argset))
  {
    match LabelSetBits(labels, argset)
    case Fail(e) => Fail(e)
    case Ok(bv) =>
      BitsStable(labels, atk, argset);
      Ok(Verdict(IsStable(atk, bv)))
  }
}
