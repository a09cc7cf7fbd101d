/** The part of argumatrix::AdmissiblePlReasoner computed without the Prolog
    engine: the usage messages of its argument-taking tasks, the
    verification task DE, and SE and DS, which the reasoner answers
    without a query because the empty set is always admissible. */
module AdmissibleTasks {
  import opened Wrappers
  import opened Config
  import opened Bitvector
  import opened Bitmatrix
  import opened Dung
  import opened Reasoner
  import opened ConflictFreeTasks

  /** The usage message of a task that needs `-a`; each task names itself. */
  function NeedsArgument(code: string): string
  {
    "The task " + code + " needs additional argument (see option -a)"
  }

  /** The labels in ls are an admissible extension: no two of them attack
      each other, and every attacker of one of them is attacked by one of
      them. */
  ghost predicate LabelsAdmissible(labels: seq<string>, atk: Rows, ls: set<string>)
    requires IsFramework(labels, atk)
  {
    && LabelsConflictFree(labels, atk, ls)
    && forall x, y :: 0 <= x < |atk| && 0 <= y < |atk| && labels[x] in ls && atk[x][y] ==>
         exists z :: 0 <= z < |atk| && labels[z] in ls && atk[y][z]
  }

  /** `is_admissible(labelSet2bv(argset))` tests the bits of the labels. */
  lemma BitsAdmissible(labels: seq<string>, atk: Rows, ls: set<string>)
    requires IsFramework(labels, atk) && LabelBits(labels, ls).Some?
    ensures IsAdmissible(atk, LabelBits(labels, ls).value) <==> LabelsAdmissible(labels, atk, ls)
  {
    var b := LabelBits(labels, ls).value;
    BitsConflictFree(labels, atk, ls);
    if IsAdmissible(atk, b) {
      forall x, y | 0 <= x < |atk| && 0 <= y < |atk| && labels[x] in ls && atk[x][y]
        ensures exists z :: 0 <= z < |atk| && labels[z] in ls && atk[y][z]
      {
        assert b[x] && Defended(atk, b, x);
        var z :| 0 <= z < |atk| && b[z] && atk[y][z];
        assert labels[z] in ls;
      }
    }
    if LabelsAdmissible(labels, atk, ls) {
      forall x | 0 <= x < |atk| && b[x]
        ensures Defended(atk, b, x)
      {
        forall y | 0 <= y < |atk| && atk[x][y]
          ensures exists z :: 0 <= z < |atk| && b[z] && atk[y][z]
        {
          assert labels[x] in ls;
          var z :| 0 <= z < |atk| && labels[z] in ls && atk[y][z];
          assert b[z];
        }
      }
    }
  }

  /** The empty set is admissible. */
  lemma EmptyAdmissible(atk: Rows)
    requires IsAttackMatrix(atk)
    ensures IsArgSet(atk, EmptySet(|atk|)) && IsAdmissible(atk, EmptySet(|atk|))
  {
    ConflictFreeBasics(atk, EmptySet(|atk|));
  }

  /** No non-empty set lies in every admissible set: the empty set is one. */
  lemma NothingSkepticalAdmissible(labels: seq<string>, atk: Rows, argset: set<string>)
    requires IsFramework(labels, atk) && argset != {}
    ensures !forall c :: IsArgSet(atk, c) && IsAdmissible(atk, c) ==> argset <= LabelsOf(labels, c)
  {
    var e := EmptySet(|atk|);
    EmptyAdmissible(atk);
    var l :| l in argset;
    assert l !in LabelsOf(labels, e);
  }

  /** [DE-AD]: is argset admissible? An empty set is a valid question; an
      unknown label fails. */
  function TaskDE(labels: seq<string>, atk: Rows, argset: set<string>): (r: Result<string>)
    requires IsFramework(labels, atk)
    ensures r.Ok? <==> forall l :: l in argset ==> l in labels
    ensures LabelSetBits(labels, argset).Fail? ==> r == Fail(LabelSetBits(labels, argset).error)
    ensures r.Ok? ==> r.value == Verdict(LabelsAdmissible(labels, atk, argset))
  {
    match LabelSetBits(labels, argset)
    case Fail(e) => Fail(e)
    case Ok(bv) =>
      BitsAdmissible(labels, atk, argset);
      Ok(Verdict(IsAdmissible(atk, bv)))
  }

  /** [SE-AD]: some admissible set; the empty one, which always is. */
  function TaskSE(atk: Rows): (r: string)
    requires IsAttackMatrix(atk)
    ensures r == LabSetText({}) + "\n" && IsAdmissible(atk, EmptySet(|atk|))
  {
    EmptyAdmissible(atk);
    LEFT_LIMITER + RIGHT_LIMITER + "\n"
  }

  /** [DS-AD]: is argset held by every admissible set? Never, since the
      empty set is one; the labels are not even looked up. */
  function TaskDS(labels: seq<string>, atk: Rows, argset: set<string>): (r: Result<string>)
    requires IsFramework(labels, atk)
    ensures argset == {} ==> r == Fail(NeedsArgument("DS"))
    ensures r.Ok? <==> argset != {}
    ensures r.Ok? ==> (r.value ==
      Verdict(forall c :: IsArgSet(atk, c) && IsAdmissible(atk, c) ==> argset <= LabelsOf(labels, c)))
  {
    if argset == {} then Fail(NeedsArgument("DS"))
    else
      NothingSkepticalAdmissible(labels, atk, argset);
      Ok(Verdict(false))
  }
}
