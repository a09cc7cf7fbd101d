/** The part of argumatrix::ConflictfreePlReasoner computed without the
    Prolog engine: the option table of its constructor and the tasks that
    are a single test on conflict-freeness or on the self-attacks. */
module ConflictFreeTasks {
  import opened Wrappers
  import opened Config
  import opened Bitvector
  import opened Bitmatrix
  import opened Dung
  import opened Reasoner
  import opened LabelOrder

  /** The usage message of SC, DC and DS (all three name DC). */
  const NEEDS_ARGUMENT: string := "The task DC needs additional argument (see option -a)"

  const UNSUPPORTED_OPTION: string :=
    "Error: in ConflictfreePlReasoner, unsupported predicate!\n  The supported options [CF,CF1,CF2,CF3]"

  /** The constructor's table from the semantics option to the name of the
      Prolog predicate: CF is CF1, the default. */
  function PredicateFor(option: string): (r: Result<string>)
    ensures r.Ok? <==> option in {"CF", "CF1", "CF2", "CF3"}
    ensures r.Ok? ==> r.value == "conflict_free" + (if option == "CF" then "1" else option[2..])
    ensures r.Fail? ==> r.error == UNSUPPORTED_OPTION
  {
    if option == "CF" then Ok("conflict_free1")
    else if option == "CF1" then Ok("conflict_free1")
    else if option == "CF2" then Ok("conflict_free2")
    else if option == "CF3" then Ok("conflict_free3")
    else Fail(UNSUPPORTED_OPTION)
  }

  /** `printLabSet(set<string>)`: the labels in the order the set iterates
      them, comma-separated, in brackets. */
  function LabSetText(ls: set<string>): (r: string)
    ensures |r| >= |LEFT_LIMITER| + |RIGHT_LIMITER|
    ensures r[..|LEFT_LIMITER|] == LEFT_LIMITER && r[|r| - |RIGHT_LIMITER|..] == RIGHT_LIMITER
    ensures ls == {} ==> r == LEFT_LIMITER + RIGHT_LIMITER
  {
    LEFT_LIMITER + Join(SortedLabels(ls), DELIMITER) + RIGHT_LIMITER
  }

  /** No two labels of ls name arguments one of which attacks the other. */
  ghost predicate LabelsConflictFree(labels: seq<string>, atk: Rows, ls: set<string>)
    requires IsFramework(labels, atk)
  {
    forall x, y :: 0 <= x < |atk| && 0 <= y < |atk| && labels[x] in ls && labels[y] in ls ==> !atk[x][y]
  }

  /** `is_conflict_free(argset)` tests the bits of the labels. */
  lemma BitsConflictFree(labels: seq<string>, atk: Rows, ls: set<string>)
    requires IsFramework(labels, atk) && LabelBits(labels, ls).Some?
    ensures IsConflictFree(atk, LabelBits(labels, ls).value) <==> LabelsConflictFree(labels, atk, ls)
  {
  }

  /** A subset of a conflict-free set is conflict-free. */
  lemma ConflictFreeDownward(atk: Rows, s: Bitvec, t: Bitvec)
    requires IsAttackMatrix(atk) && IsArgSet(atk, s) && IsArgSet(atk, t)
    requires IsSubsetOf(s, t) && IsConflictFree(atk, t)
    ensures IsConflictFree(atk, s)
  {
  }

  /** A non-empty conflict-free set exists iff some argument does not attack
      itself: that argument alone is one, and a conflict-free set holds no
      self-attacking argument. */
  lemma NonEmptyConflictFreeIff(atk: Rows)
    requires IsAttackMatrix(atk)
    ensures (exists s :: IsArgSet(atk, s) && !IsEmptySet(s) && IsConflictFree(atk, s)) <==>
      exists x :: 0 <= x < |atk| && !IsSelfAttacking(atk, x)
  {
    if exists x :: 0 <= x < |atk| && !IsSelfAttacking(atk, x) {
      var x :| 0 <= x < |atk| && !IsSelfAttacking(atk, x);
      var s := EmptySet(|atk|)[x := true];
      assert s[x] && IsConflictFree(atk, s);
    }
    if exists s :: IsArgSet(atk, s) && !IsEmptySet(s) && IsConflictFree(atk, s) {
      var s :| IsArgSet(atk, s) && !IsEmptySet(s) && IsConflictFree(atk, s);
      var x :| 0 <= x < |s| && s[x];
      assert !IsSelfAttacking(atk, x);
    }
  }

  /** argset lies in some conflict-free set iff it is conflict-free itself. */
  lemma CredulousIffConflictFree(labels: seq<string>, atk: Rows, argset: set<string>)
    requires IsFramework(labels, atk) && LabelBits(labels, argset).Some?
    ensures IsConflictFree(atk, LabelBits(labels, argset).value) <==>
      exists c :: IsArgSet(atk, c) && IsConflictFree(atk, c) && argset <= LabelsOf(labels, c)
  {
    var b := LabelBits(labels, argset).value;
    LabelBitsRoundTrip(labels, argset, b);
    if exists c :: IsArgSet(atk, c) && IsConflictFree(atk, c) && argset <= LabelsOf(labels, c) {
      var c :| IsArgSet(atk, c) && IsConflictFree(atk, c) && argset <= LabelsOf(labels, c);
      BitsAreLabels(labels, argset, c);
      ConflictFreeDownward(atk, b, c);
    }
  }

  /** No non-empty set lies in every conflict-free set: the empty set is
      conflict-free. */
  lemma NothingSkeptical(labels: seq<string>, atk: Rows, argset: set<string>)
    requires IsFramework(labels, atk) && argset != {}
    ensures !forall c :: IsArgSet(atk, c) && IsConflictFree(atk, c) ==> argset <= LabelsOf(labels, c)
  {
    var e := EmptySet(|atk|);
    ConflictFreeBasics(atk, e);
    var l :| l in argset;
    assert l !in LabelsOf(labels, e);
  }

  /** [DE-CF]: is argset conflict-free? An empty set is a valid question. */
  function TaskDE(labels: seq<string>, atk: Rows, argset: set<string>): (r: Result<string>)
    requires IsFramework(labels, atk)
    ensures r.Ok? <==> forall l :: l in argset ==> l in labels
    ensures LabelSetBits(labels, argset).Fail? ==> r == Fail(LabelSetBits(labels, argset).error)
    ensures r.Ok? ==> r.value == Verdict(LabelsConflictFree(labels, atk, argset))
  {
    match LabelSetBits(labels, argset)
    case Fail(e) => Fail(e)
    case Ok(bv) =>
      BitsConflictFree(labels, atk, argset);
      Ok(Verdict(IsConflictFree(atk, bv)))
  }

  /** [DN-CF]: is there a non-empty conflict-free set? NO exactly when the
      diagonal is universal. */
  function TaskDN(labels: seq<string>, atk: Rows): (r: string)
    requires IsFramework(labels, atk)
    ensures r == Verdict(exists s :: IsArgSet(atk, s) && !IsEmptySet(s) && IsConflictFree(atk, s))
  {
    NonEmptyConflictFreeIff(atk);
    if IsUniversal(SelfAttacking(atk)) then Verdict(false) else Verdict(true)
  }

  /** [SC-CF]: some conflict-free set holding argset; argset itself when it is
      conflict-free, else NO. */
  function TaskSC(labels: seq<string>, atk: Rows, argset: set<string>): (r: Result<string>)
    requires IsFramework(labels, atk)
    ensures argset == {} ==> r == Fail(NEEDS_ARGUMENT)
    ensures argset != {} && LabelSetBits(labels, argset).Fail? ==> r == Fail(LabelSetBits(labels, argset).error)
    ensures r.Ok? <==> argset != {} && forall l :: l in argset ==> l in labels
    ensures r.Ok? ==> (r.value ==
      if LabelsConflictFree(labels, atk, argset) then LabSetText(argset) else STR_NO + "\n")
  {
    match ArgumentBits(labels, argset, NEEDS_ARGUMENT)
    case Fail(e) => Fail(e)
    case Ok(bv) =>
      BitsConflictFree(labels, atk, argset);
      Ok(if IsConflictFree(atk, bv) then LabSetText(argset) else STR_NO + "\n")
  }

  /** [SE-CF]: some conflict-free set; the empty one, which always is. */
  function TaskSE(atk: Rows): (r: string)
    requires IsAttackMatrix(atk)
    ensures r == LabSetText({}) + "\n" && IsConflictFree(atk, EmptySet(|atk|))
  {
    ConflictFreeBasics(atk, EmptySet(|atk|));
    LEFT_LIMITER + RIGHT_LIMITER + "\n"
  }

  /** [DC-CF]: is argset credulously accepted, that is held by some
      conflict-free set? Exactly when it is conflict-free. */
  function TaskDC(labels: seq<string>, atk: Rows, argset: set<string>): (r: Result<string>)
    requires IsFramework(labels, atk)
    ensures argset == {} ==> r == Fail(NEEDS_ARGUMENT)
    ensures argset != {} && LabelSetBits(labels, argset).Fail? ==> r == Fail(LabelSetBits(labels, argset).error)
    ensures r.Ok? <==> argset != {} && forall l :: l in argset ==> l in labels
    ensures r.Ok? ==> (r.value ==
      Verdict(exists c :: IsArgSet(atk, c) && IsConflictFree(atk, c) && argset <= LabelsOf(labels, c)))
  {
    match ArgumentBits(labels, argset, NEEDS_ARGUMENT)
    case Fail(e) => Fail(e)
    case Ok(bv) =>
      CredulousIffConflictFree(labels, atk, argset);
      Ok(Verdict(IsConflictFree(atk, bv)))
  }

  /** [DS-CF]: is argset skeptically accepted, that is held by every
      conflict-free set? Never, since the empty set is one; the labels are
      not even looked up. */
  function TaskDS(labels: seq<string>, atk: Rows, argset: set<string>): (r: Result<string>)
    requires IsFramework(labels, atk)
    ensures argset == {} ==> r == Fail(NEEDS_ARGUMENT)
    ensures r.Ok? <==> argset != {}
    ensures r.Ok? ==> (r.value ==
      Verdict(forall c :: IsArgSet(atk, c) && IsConflictFree(atk, c) ==> argset <= LabelsOf(labels, c)))
  {
    if argset == {} then Fail(NEEDS_ARGUMENT)
    else
      NothingSkeptical(labels, atk, argset);
      Ok(Verdict(false))
  }
}
