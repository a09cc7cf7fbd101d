/** The tasks of argumatrix::GroundedReasoner. Each task writes its answer to
    the output stream; here it returns that text, or the message it writes
    to standard error before ending the program. The grounded extension is
    unique, so every task is a test on it. */
module GroundedTasks {
  import opened Wrappers
  import opened Config
  import opened Bitvector
  import opened Bitmatrix
  import opened Dung
  import opened Reasoner

  /** The usage message of EC and SC (whose text names DC), and of DC. */
  const NEEDS_ARGUMENT: string := "The task DC needs additional argument (see option -a)"
  const NEEDS_ARGUMENT_DC_DS: string := "The task DC/DS needs additional argument (see option -a)"

  /** The labels of the grounded extension. */
  function GroundedLabels(labels: seq<string>, atk: Rows): set<string>
    requires IsFramework(labels, atk)
  {
    LabelsOf(labels, Grounded(atk))
  }

  /** The grounded extension holds a set of labels iff every complete
      extension does: the grounded extension is the least complete one. */
  lemma GroundedIsSkeptical(labels: seq<string>, atk: Rows, argset: set<string>)
    requires IsFramework(labels, atk)
    ensures argset <= GroundedLabels(labels, atk) <==>
      forall c :: IsArgSet(atk, c) && IsComplete(atk, c) ==> argset <= LabelsOf(labels, c)
  {
    var g := Grounded(atk);
    GroundedIsComplete(atk);
    forall c | IsArgSet(atk, c) && IsComplete(atk, c)
      ensures LabelsOf(labels, g) <= LabelsOf(labels, c)
    {
      GroundedLeast(atk, c);
    }
  }

  /** With every argument attacked F(empty) is empty, so the iteration of F
      stops at once. */
  lemma AllAttackedGroundedEmpty(atk: Rows)
    requires IsAttackMatrix(atk) && forall x :: 0 <= x < |atk| ==> !Unattacked(atk, x)
    ensures IsEmptySet(Grounded(atk))
  {
    var e := EmptySet(|atk|);
    CharacteristicOfEmpty(atk);
    assert Characteristic(atk, e) == e;
  }

  /** Every unattacked argument is grounded: F(empty) lies below the fixpoint
      F reaches from empty. */
  lemma UnattackedAreGrounded(atk: Rows)
    requires IsAttackMatrix(atk)
    ensures forall x :: 0 <= x < |atk| && Unattacked(atk, x) ==> Grounded(atk)[x]
  {
    var e := EmptySet(|atk|);
    var g := Grounded(atk);
    assert g == Lfp(atk, e);
    CharacteristicMonotone(atk, e, g);
    CharacteristicOfEmpty(atk);
  }

  /** The grounded extension is empty iff every argument has an attacker. */
  lemma GroundedEmptyIff(atk: Rows)
    requires IsAttackMatrix(atk)
    ensures IsEmptySet(Grounded(atk)) <==> forall x :: 0 <= x < |atk| ==> !Unattacked(atk, x)
  {
    if IsEmptySet(Grounded(atk)) {
      UnattackedAreGrounded(atk);
    } else if forall x :: 0 <= x < |atk| ==> !Unattacked(atk, x) {
      AllAttackedGroundedEmpty(atk);
    }
  }

  /** A vector names no label iff no bit is set. */
  lemma NoLabelsIffEmpty(labels: seq<string>, bv: Bitvec)
    requires |bv| == |labels|
    ensures LabelsOf(labels, bv) == {} <==> IsEmptySet(bv)
  {
    if !IsEmptySet(bv) {
      var x :| 0 <= x < |bv| && bv[x];
      assert labels[x] in LabelsOf(labels, bv);
    }
  }

  /** [EE-GR], `printGroundedExt`: the one grounded extension, in brackets. */
  function TaskEE(labels: seq<string>, atk: Rows): (r: string)
    requires IsFramework(labels, atk)
    ensures forall g :: IsArgSet(atk, g) && IsGrounded(atk, g) ==>
      r == LEFT_LIMITER + BvText(labels, g) + RIGHT_LIMITER
  {
    LEFT_LIMITER + BvText(labels, Grounded(atk)) + RIGHT_LIMITER
  }

  /** [EC-GR]: the extensions holding argset; the grounded one when it holds
      argset, none otherwise. */
  function TaskEC(labels: seq<string>, atk: Rows, argset: set<string>): (r: Result<string>)
    requires IsFramework(labels, atk)
    ensures argset == {} ==> r == Fail(NEEDS_ARGUMENT)
    ensures argset != {} && LabelSetBits(labels, argset).Fail? ==> r == Fail(LabelSetBits(labels, argset).error)
    ensures r.Ok? <==> argset != {} && forall l :: l in argset ==> l in labels
    ensures r.Ok? ==> (r.value == LEFT_LIMITER +
      (if argset <= GroundedLabels(labels, atk) then BvText(labels, Grounded(atk)) else "") + RIGHT_LIMITER)
  {
    match ArgumentBits(labels, argset, NEEDS_ARGUMENT)
    case Fail(e) => Fail(e)
    case Ok(bv) =>
      var g := Grounded(atk);
      BitsAreLabels(labels, argset, g);
      Ok(LEFT_LIMITER + (if IsSubsetOf(bv, g) then BvText(labels, g) else "") + RIGHT_LIMITER)
  }

  /** [DE-GR]: is argset the grounded extension, that is the least complete
      extension? The empty set is a valid question. */
  function TaskDE(labels: seq<string>, atk: Rows, argset: set<string>): (r: Result<string>)
    requires IsFramework(labels, atk)
    ensures r.Ok? <==> forall l :: l in argset ==> l in labels
    ensures LabelSetBits(labels, argset).Fail? ==> r == Fail(LabelSetBits(labels, argset).error)
    ensures r.Ok? ==> r.value == Verdict(argset == GroundedLabels(labels, atk))
    ensures r.Ok? ==> var s := LabelBits(labels, argset).value;
      (r.value == Verdict(true) <==>
        IsComplete(atk, s) && forall c :: IsArgSet(atk, c) && IsComplete(atk, c) ==> IsSubsetOf(s, c))
  {
    match LabelSetBits(labels, argset)
    case Fail(e) => Fail(e)
    case Ok(bv) =>
      BitsAreLabels(labels, argset, Grounded(atk));
      Ok(Verdict(IsGrounded(atk, bv)))
  }

  /** [DN-GR]: is there a non-empty grounded extension? Exactly when some
      argument has no attacker. */
  function TaskDN(labels: seq<string>, atk: Rows): (r: string)
    requires IsFramework(labels, atk)
    ensures r == Verdict(GroundedLabels(labels, atk) != {})
    ensures r == Verdict(exists x :: 0 <= x < |atk| && Unattacked(atk, x))
  {
    var g := Grounded(atk);
    GroundedEmptyIff(atk);
    NoLabelsIffEmpty(labels, g);
    if IsEmptySet(g) then Verdict(false) else Verdict(true)
  }

  /** [SC-GR]: some extension holding argset; the grounded one if it holds
      argset, else NO. */
  function TaskSC(labels: seq<string>, atk: Rows, argset: set<string>): (r: Result<string>)
    requires IsFramework(labels, atk)
    ensures argset == {} ==> r == Fail(NEEDS_ARGUMENT)
    ensures argset != {} && LabelSetBits(labels, argset).Fail? ==> r == Fail(LabelSetBits(labels, argset).error)
    ensures r.Ok? <==> argset != {} && forall l :: l in argset ==> l in labels
    ensures r.Ok? ==> (r.value ==
      if argset <= GroundedLabels(labels, atk) then BvText(labels, Grounded(atk)) else STR_NO + "\n")
  {
    match ArgumentBits(labels, argset, NEEDS_ARGUMENT)
    case Fail(e) => Fail(e)
    case Ok(bv) =>
      var g := Grounded(atk);
      BitsAreLabels(labels, argset, g);
      Ok(if IsSubsetOf(bv, g) then BvText(labels, g) else STR_NO + "\n")
  }

  /** [SE-GR]: some extension; the grounded one. */
  function TaskSE(labels: seq<string>, atk: Rows): (r: string)
    requires IsFramework(labels, atk)
    ensures forall g :: IsArgSet(atk, g) && IsGrounded(atk, g) ==> r == BvText(labels, g)
  {
    BvText(labels, Grounded(atk))
  }

  /** [DC-GR]: is argset credulously accepted? With a unique extension,
      exactly when the grounded extension holds it. */
  function TaskDC(labels: seq<string>, atk: Rows, argset: set<string>): (r: Result<string>)
    requires IsFramework(labels, atk)
    ensures argset == {} ==> r == Fail(NEEDS_ARGUMENT_DC_DS)
    ensures argset != {} && LabelSetBits(labels, argset).Fail? ==> r == Fail(LabelSetBits(labels, argset).error)
    ensures r.Ok? <==> argset != {} && forall l :: l in argset ==> l in labels
    ensures r.Ok? ==> r.value == Verdict(argset <= GroundedLabels(labels, atk))
  {
    match ArgumentBits(labels, argset, NEEDS_ARGUMENT_DC_DS)
    case Fail(e) => Fail(e)
    case Ok(bv) =>
      var g := Grounded(atk);
      BitsAreLabels(labels, argset, g);
      Ok(Verdict(IsSubsetOf(bv, g)))
  }

  /** [DS-GR]: is argset skeptically accepted? The source answers it with
      DC; the answer is YES iff every complete extension holds argset. */
  function TaskDS(labels: seq<string>, atk: Rows, argset: set<string>): (r: Result<string>)
    requires IsFramework(labels, atk)
    ensures r.Ok? <==> argset != {} && forall l :: l in argset ==> l in labels
    ensures r.Ok? ==> (r.value == Verdict(true) <==>
      forall c :: IsArgSet(atk, c) && IsComplete(atk, c) ==> argset <= LabelsOf(labels, c))
    ensures r.Ok? ==> r.value == Verdict(true) || r.value == Verdict(false)
  {
    GroundedIsSkeptical(labels, atk, argset);
    TaskDC(labels, atk, argset)
  }
}
