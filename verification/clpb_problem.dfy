/** The command line of argmat-clpb (argumatrix::ClpbProblem): the options,
    the comma-separated argument list of `-a`, the problem code `TT-SS...`
    and the dispatch of a task to a reasoner. Reading the framework from its
    file and opening the output file are not part of this model; the
    framework arrives as its labels and attack matrix. */
module Clpb {
  import opened Wrappers
  import opened Config
  import opened Bitvector
  import opened Bitmatrix
  import opened Dung
  import opened Reasoner
  import opened LabelOrder
  import GroundedTasks
  import ConflictFreeTasks
  import StableTasks
  import AdmissibleTasks

  const SEPARATOR: char := ','

  predicate NoSeparator(x: string)
  {
    forall i :: 0 <= i < |x| ==> x[i] != SEPARATOR
  }

  /** `s.find_first_of(",", from)`: npos is None. */
  function SeparatorFrom(s: string, from: nat): (r: Option<nat>)
    requires from <= |s|
    ensures r.Some? ==> from <= r.value < |s| && s[r.value] == SEPARATOR
                        && forall j :: from <= j < r.value ==> s[j] != SEPARATOR
    ensures r.None? ==> forall j :: from <= j < |s| ==> s[j] != SEPARATOR
    decreases |s| - from
  {
    if from == |s| then None
    else if s[from] == SEPARATOR then Some(from)
    else SeparatorFrom(s, from + 1)
  }

  /** The first separator at or after `from` is found. */
  lemma SeparatorFromIs(s: string, from: nat, k: nat)
    requires from <= k < |s| && s[k] == SEPARATOR
    requires forall j :: from <= j < k ==> s[j] != SEPARATOR
    ensures SeparatorFrom(s, from) == Some(k)
  {
  }

  /** No separator at or after `from`: npos. */
  lemma SeparatorFromNone(s: string, from: nat)
    requires from <= |s| && forall j :: from <= j < |s| ==> s[j] != SEPARATOR
    ensures SeparatorFrom(s, from) == None
  {
  }

  /** The pieces of s from position `from` on, empty ones included: the
      items the loop of `parseAddtionalParams` cuts out, ending with what
      follows the last separator. */
  function PiecesFrom(s: string, from: nat): (r: seq<string>)
    requires from <= |s|
    ensures |r| >= 1
    decreases |s| - from
  {
    match SeparatorFrom(s, from)
    case None => [s[from..]]
    case Some(k) => [s[from..k]] + PiecesFrom(s, k + 1)
  }

  function Pieces(s: string): (r: seq<string>)
    ensures |r| >= 1
  {
    PiecesFrom(s, 0)
  }

  /** A list cut as done ++ (x :: later) is (done ++ [x]) ++ later, with x at
      position |done|. */
  lemma MoveFirst(all: seq<string>, done: seq<string>, rest: seq<string>, x: string, later: seq<string>)
    requires all == done + rest && rest == [x] + later
    ensures all == (done + [x]) + later && all[|done|] == x
  {
    assert done + ([x] + later) == (done + [x]) + later;
  }

  /** Every piece is free of separators. */
  lemma {:induction false} PiecesHaveNoSeparator(s: string, from: nat)
    requires from <= |s|
    ensures forall p :: p in PiecesFrom(s, from) ==> NoSeparator(p)
    decreases |s| - from
  {
    match SeparatorFrom(s, from)
    case None =>
      assert forall i :: 0 <= i < |s[from..]| ==> s[from..][i] == s[from + i];
    case Some(k) =>
      assert forall i :: 0 <= i < |s[from..k]| ==> s[from..k][i] == s[from + i];
      PiecesHaveNoSeparator(s, k + 1);
  }

  /** Joining the pieces with the separator gives the string back. */
  lemma {:induction false} JoinPieces(s: string, from: nat)
    requires from <= |s|
    ensures Join(PiecesFrom(s, from), DELIMITER) == s[from..]
    decreases |s| - from
  {
    match SeparatorFrom(s, from)
    case None =>
      assert PiecesFrom(s, from) == [s[from..]];
    case Some(k) =>
      var rest := PiecesFrom(s, k + 1);
      assert PiecesFrom(s, from) == [s[from..k]] + rest;
      JoinPieces(s, k + 1);
      JoinCons(s[from..k], rest, DELIMITER);
      SplitAt(s, from, k);
      calc {
        Join([s[from..k]] + rest, DELIMITER);
        s[from..k] + DELIMITER + Join(rest, DELIMITER);
        s[from..k] + DELIMITER + s[k + 1..];
        s[from..];
      }
  }

  /** The text from `from` on is the part before position k, the separator
      at k, and the rest. */
  lemma SplitAt(s: string, from: nat, k: nat)
    requires from <= k < |s| && s[k] == SEPARATOR
    ensures s[from..] == s[from..k] + DELIMITER + s[k + 1..]
  {
  }

  /** A separator-free x followed by a separator: the cut falls right after
      x. */
  lemma CutAfter(s: string, from: nat, x: string, t: string)
    requires from <= |s| && s[from..] == x + DELIMITER + t && NoSeparator(x)
    ensures SeparatorFrom(s, from) == Some(from + |x|)
    ensures s[from..from + |x|] == x && s[from + |x| + 1..] == t
  {
    assert forall j :: 0 <= j < |x| ==> s[from + j] == s[from..][j] == x[j];
    assert s[from + |x|] == s[from..][|x|] == SEPARATOR;
    SeparatorFromIs(s, from, from + |x|);
  }

  /** A separator-free rest is not cut. */
  lemma NoCut(s: string, from: nat)
    requires from <= |s| && NoSeparator(s[from..])
    ensures SeparatorFrom(s, from) == None
  {
    assert forall j :: from <= j < |s| ==> s[j] == s[from..][j - from];
    SeparatorFromNone(s, from);
  }

  /** Cutting a join of separator-free items gives the items back. */
  lemma {:induction false} PiecesOfJoin(s: string, from: nat, xs: seq<string>)
    requires from <= |s| && s[from..] == Join(xs, DELIMITER)
    requires |xs| >= 1 && forall x :: x in xs ==> NoSeparator(x)
    ensures PiecesFrom(s, from) == xs
    decreases |xs|
  {
    var x := xs[0];
    assert x in xs;
    if |xs| == 1 {
      assert Join(xs, DELIMITER) == x;
      NoCut(s, from);
    } else {
      var rest := xs[1..];
      assert xs == [x] + rest;
      assert forall y :: y in rest ==> y in xs;
      JoinCons(x, rest, DELIMITER);
      CutAfter(s, from, x, Join(rest, DELIMITER));
      PiecesOfJoin(s, from + |x| + 1, rest);
    }
  }

  /** Some piece from `from` on is empty: nothing is left, the next character
      is a separator, the string ends with one, or two follow each other. */
  predicate HasEmptyPieceFrom(s: string, from: nat)
    requires from <= |s|
  {
    from == |s| || s[from] == SEPARATOR || s[|s| - 1] == SEPARATOR ||
    exists i :: from <= i < |s| - 1 && s[i] == SEPARATOR && s[i + 1] == SEPARATOR
  }

  /** A piece is empty iff the string is empty, starts or ends with a
      separator, or holds two separators in a row. */
  predicate HasEmptyPiece(s: string)
  {
    HasEmptyPieceFrom(s, 0)
  }

  /** The first separator after `from` splits the test for an empty piece. */
  lemma EmptyPieceStep(s: string, from: nat, k: nat)
    requires from <= |s| && SeparatorFrom(s, from) == Some(k)
    ensures HasEmptyPieceFrom(s, from) <==> k == from || HasEmptyPieceFrom(s, k + 1)
  {
    if HasEmptyPieceFrom(s, k + 1) {
      if k + 1 < |s| && s[k + 1] == SEPARATOR {
        assert from <= k < |s| - 1 && s[k] == SEPARATOR && s[k + 1] == SEPARATOR;
      } else if k + 1 < |s| && s[|s| - 1] != SEPARATOR {
        var i :| k + 1 <= i < |s| - 1 && s[i] == SEPARATOR && s[i + 1] == SEPARATOR;
        assert from <= i;
      }
    }
    if HasEmptyPieceFrom(s, from) && k != from {
      assert s[from] != SEPARATOR;
      if s[|s| - 1] != SEPARATOR {
        var i :| from <= i < |s| - 1 && s[i] == SEPARATOR && s[i + 1] == SEPARATOR;
        assert k <= i;
        if i == k {
          assert s[k + 1] == SEPARATOR;
        } else {
          assert k + 1 <= i;
        }
      }
    }
  }

  lemma {:induction false} EmptyPieceIff(s: string, from: nat)
    requires from <= |s|
    ensures "" in PiecesFrom(s, from) <==> HasEmptyPieceFrom(s, from)
    decreases |s| - from
  {
    match SeparatorFrom(s, from)
    case None =>
      assert PiecesFrom(s, from) == [s[from..]];
      if from == |s| {
        assert s[from..] == "";
      } else {
        assert s[from] != SEPARATOR && s[|s| - 1] != SEPARATOR;
        assert |s[from..]| > 0;
      }
    case Some(k) =>
      EmptyPieceIff(s, k + 1);
      EmptyPieceStep(s, from, k);
      assert PiecesFrom(s, from) == [s[from..k]] + PiecesFrom(s, k + 1);
      assert |s[from..k]| == k - from;
  }

  /** The three lines `parseAddtionalParams` writes before it ends the
      program. */
  function WrongArgument(oargs: string): string
  {
    "Wrong additional argument : " + oargs + "\nThe right input for additional argument is: \n  arg1[,arg2,arg3,...]"
  }

  /** The set `-a oargs` stands for: empty for the empty string, an error
      when some piece is empty. */
  function ArgList(oargs: string): (r: Result<set<string>>)
    ensures r.Fail? ==> r.error == WrongArgument(oargs)
  {
    if oargs == "" then Ok({})
    else if "" in Pieces(oargs) then Fail(WrongArgument(oargs))
    else Ok(set p | p in Pieces(oargs))
  }

  /** The set once the last piece is cut. */
  lemma ArgListOfPieces(oargs: string, done: seq<string>, last: string)
    requires oargs != "" && Pieces(oargs) == done + [last] && "" !in done
    ensures last != "" ==> ArgList(oargs) == Ok((set p | p in done) + {last})
    ensures last == "" ==> ArgList(oargs) == Fail(WrongArgument(oargs))
  {
    if last == "" {
      assert Pieces(oargs)[|done|] == "";
    } else {
      assert (set p | p in Pieces(oargs)) == (set p | p in done) + {last};
    }
  }

  /** The list is refused exactly for a leading, trailing or doubled
      separator; every label it yields is non-empty and separator-free. */
  lemma ArgListFails(oargs: string)
    ensures ArgList(oargs).Fail? <==> oargs != "" && HasEmptyPiece(oargs)
    ensures ArgList(oargs).Ok? ==> forall l :: l in ArgList(oargs).value ==> l != "" && NoSeparator(l)
  {
    EmptyPieceIff(oargs, 0);
    PiecesHaveNoSeparator(oargs, 0);
  }

  /** Joining the pieces gives `oargs` back. */
  lemma JoinAllPieces(oargs: string)
    ensures Join(Pieces(oargs), DELIMITER) == oargs
  {
    JoinPieces(oargs, 0);
    assert oargs[0..] == oargs;
  }

  /** For non-empty separator-free labels l1..lk, `l1,...,lk` yields exactly
      {l1,...,lk}. */
  lemma ArgListOfJoin(xs: seq<string>)
    requires |xs| >= 1 && forall x :: x in xs ==> x != "" && NoSeparator(x)
    ensures ArgList(Join(xs, DELIMITER)) == Ok(set x | x in xs)
  {
    var s := Join(xs, DELIMITER);
    assert s[0..] == s;
    PiecesOfJoin(s, 0, xs);
    assert xs[0] in xs;
    if |xs| == 1 {
      assert s == xs[0];
    } else {
      assert xs == [xs[0]] + xs[1..];
      JoinCons(xs[0], xs[1..], DELIMITER);
    }
  }

  /** What `printLabSet(set<string>)` writes between its brackets is read
      back by `-a` as the same set. */
  lemma LabSetTextReadBack(ls: set<string>)
    requires ls != {} && forall l :: l in ls ==> l != "" && NoSeparator(l)
    ensures ConflictFreeTasks.LabSetText(ls) ==
      LEFT_LIMITER + Join(SortedLabels(ls), DELIMITER) + RIGHT_LIMITER
    ensures ArgList(Join(SortedLabels(ls), DELIMITER)) == Ok(ls)
  {
    var xs := SortedLabels(ls);
    ArgListOfJoin(xs);
    assert (set x | x in xs) == ls;
  }

  /** The settings `parseParams` fills in. */
  datatype Params = Params(problemType: string, fileFmt: string, inputFile: string,
                           outputFile: string, otherArgs: set<string>, timeFlag: bool)

  /** The default constructor: empty strings, no arguments, no timing. */
  function Defaults(): Params
  {
    Params("", "", "", "", {}, false)
  }

  /** One option of the command line: the settings after it and how many
      tokens it takes. `-p`, `-f`, `-fo`, `-o` and `-a` take the next token
      when there is one, `-t` sets the time flag, and every other token (and
      a last option with no value) is skipped. Only a malformed `-a` list
      fails. */
  function Step(p: Params, args: seq<string>): (r: Result<(Params, nat)>)
    requires |args| > 0
    ensures r.Ok? ==> 1 <= r.value.1 <= |args|
    ensures r.Fail? <==> args[0] == "-a" && |args| > 1 && ArgList(args[1]).Fail?
    ensures r.Fail? ==> r.error == WrongArgument(args[1])
  {
    if args[0] == "-p" && |args| > 1 then Ok((p.(problemType := args[1]), 2))
    else if args[0] == "-f" && |args| > 1 then Ok((p.(inputFile := args[1]), 2))
    else if args[0] == "-fo" && |args| > 1 then Ok((p.(fileFmt := args[1]), 2))
    else if args[0] == "-o" && |args| > 1 then Ok((p.(outputFile := args[1]), 2))
    else if args[0] == "-a" && |args| > 1 then
      match ArgList(args[1])
      case Fail(e) => Fail(e)
      case Ok(ls) => Ok((p.(otherArgs := ls), 2))
    else if args[0] == "-t" then Ok((p.(timeFlag := true), 1))
    else Ok((p, 1))
  }

  /** The options read left to right. */
  function Scan(p: Params, args: seq<string>): Result<Params>
    decreases |args|
  {
    if |args| == 0 then Ok(p)
    else
      match Step(p, args)
      case Fail(e) => Fail(e)
      case Ok((q, n)) => Scan(q, args[n..])
  }

  predicate IsOption(a: string)
  {
    a in {"-p", "-f", "-fo", "-o", "-a", "-t"}
  }

  /** Tokens that are not options change nothing. */
  lemma {:induction false} ScanSkipsOthers(p: Params, args: seq<string>)
    requires forall a :: a in args ==> !IsOption(a)
    ensures Scan(p, args) == Ok(p)
    decreases |args|
  {
    if |args| > 0 {
      assert !IsOption(args[0]);
      assert Step(p, args) == Ok((p, 1));
      assert forall a :: a in args[1..] ==> a in args;
      ScanSkipsOthers(p, args[1..]);
    }
  }

  /** Token i is a malformed list that follows `-a`. */
  predicate BadListAt(args: seq<string>, i: nat)
  {
    1 <= i < |args| && args[i - 1] == "-a" && ArgList(args[i]).Fail?
  }

  /** A malformed list after the first n tokens is one in the whole line. */
  lemma BadListShift(args: seq<string>, n: nat, i: nat)
    requires n <= |args| && BadListAt(args[n..], i)
    ensures BadListAt(args, i + n) && args[i + n] == args[n..][i]
  {
    assert args[i + n - 1] == args[n..][i - 1];
  }

  /** Only a malformed `-a` list stops the scan, with its message. */
  lemma {:induction false} ScanFailsOnlyOnArgList(p: Params, args: seq<string>)
    requires Scan(p, args).Fail?
    ensures exists i: nat :: BadListAt(args, i) && Scan(p, args).error == WrongArgument(args[i])
    decreases |args|
  {
    var st := Step(p, args);
    if st.Fail? {
      assert BadListAt(args, 1) && Scan(p, args).error == WrongArgument(args[1]);
    } else {
      var q := st.value.0;
      var n := st.value.1;
      var rest := args[n..];
      ScanUnfold(p, args);
      ScanFailsOnlyOnArgList(q, rest);
      var i: nat :| BadListAt(rest, i) && Scan(q, rest).error == WrongArgument(rest[i]);
      BadListShift(args, n, i);
    }
  }

  /** A step that succeeds hands the rest of the line to the scan. */
  lemma ScanUnfold(p: Params, args: seq<string>)
    requires |args| > 0 && Step(p, args).Ok?
    ensures Scan(p, args) == Scan(Step(p, args).value.0, args[Step(p, args).value.1..])
  {
  }

  /** `-a a,b` stands for {a, b}. */
  lemma ArgListExample()
    ensures ArgList("a,b") == Ok({"a", "b"})
  {
    var s := "a,b";
    SeparatorFromIs(s, 0, 1);
    SeparatorFromNone(s, 2);
    assert s[0..1] == "a" && s[2..] == "b";
    assert Pieces(s) == ["a", "b"];
    assert (set x | x in ["a", "b"]) == {"a", "b"};
  }

  /** An ordinary command line. */
  lemma ScanExample()
    ensures Scan(Defaults(), ["-p", "DC-GR", "-fo", "apx", "-f", "af.apx", "-a", "a,b"])
      == Ok(Params("DC-GR", "apx", "af.apx", "", {"a", "b"}, false))
  {
    var args := ["-p", "DC-GR", "-fo", "apx", "-f", "af.apx", "-a", "a,b"];
    ArgListExample();
    var p1 := Defaults().(problemType := "DC-GR");
    var p2 := p1.(fileFmt := "apx");
    var p3 := p2.(inputFile := "af.apx");
    var p4 := p3.(otherArgs := {"a", "b"});
    var a2, a4, a6 := args[2..], args[4..], args[6..];
    assert a6 == ["-a", "a,b"] && a6[2..] == [];
    assert Step(p3, a6) == Ok((p4, 2));
    ScanUnfold(p3, a6);
    assert a4 == ["-f", "af.apx"] + a6 && a4[2..] == a6;
    assert Step(p2, a4) == Ok((p3, 2));
    ScanUnfold(p2, a4);
    assert a2 == ["-fo", "apx"] + a4 && a2[2..] == a4;
    assert Step(p1, a2) == Ok((p2, 2));
    ScanUnfold(p1, a2);
    assert args == ["-p", "DC-GR"] + a2 && args[2..] == a2;
    assert Step(Defaults(), args) == Ok((p1, 2));
    ScanUnfold(Defaults(), args);
  }

  /** The loop of `parseAddtionalParams`: cut `oargs` at each comma with
      `find_first_of`, collecting the pieces; an empty piece is refused. */
  method CutArguments(oargs: string) returns (r: Result<set<string>>)
    ensures r == ArgList(oargs)
  {
    if |oargs| == 0 {
      return Ok({});
    }
    var found: set<string> := {};
    var bgn := 0;
    var nd := SeparatorFrom(oargs, 0);
    ghost var done: seq<string> := [];
    while nd.Some?
      invariant bgn <= |oargs| && nd == SeparatorFrom(oargs, bgn)
      invariant Pieces(oargs) == done + PiecesFrom(oargs, bgn)
      invariant found == (set p | p in done) && "" !in done
      decreases |oargs| - bgn
    {
      var k := nd.value;
      var arg := oargs[bgn..k];
      MoveFirst(Pieces(oargs), done, PiecesFrom(oargs, bgn), arg, PiecesFrom(oargs, k + 1));
      if k - bgn == 0 {
        return Fail(WrongArgument(oargs));
      }
      found := found + {arg};
      done := done + [arg];
      bgn := k + 1;
      nd := SeparatorFrom(oargs, bgn);
    }
    assert PiecesFrom(oargs, bgn) == [oargs[bgn..]];
    var arg := oargs[bgn..];
    ArgListOfPieces(oargs, done, arg);
    if |arg| > 0 {
      r := Ok(found + {arg});
    } else {
      r := Fail(WrongArgument(oargs));
    }
  }

  class ClpbProblem {
    var problemType: string
    var fileFmt: string
    var inputFile: string
    var outputFile: string
    var otherArgs: set<string>
    var timeFlag: bool

    function Settings(): Params
      reads this
    {
      Params(problemType, fileFmt, inputFile, outputFile, otherArgs, timeFlag)
    }

    constructor ()
      ensures Settings() == Defaults()
    {
      problemType, fileFmt, inputFile, outputFile := "", "", "", "";
      otherArgs, timeFlag := {}, false;
    }

    /** `parseAddtionalParams(oargs)`: clears the set, then inserts the
        pieces between commas; an empty piece ends the program. */
    method ParseAdditionalParams(oargs: string) returns (r: Result<()>)
      modifies this
      ensures r.Ok? <==> ArgList(oargs).Ok?
      ensures r.Fail? ==> r.error == WrongArgument(oargs)
      ensures r.Ok? ==> Settings() == old(Settings()).(otherArgs := ArgList(oargs).value)
    {
      otherArgs := {};
      var cut := CutArguments(oargs);
      match cut
      case Fail(e) =>
        r := Fail(e);
      case Ok(ls) =>
        otherArgs := ls;
        r := Ok(());
    }

    /** `parseParams(argc, argv)` over argv[1..]: the settings Scan gives,
        or the message of a malformed `-a` list. */
    method ParseParams(args: seq<string>) returns (r: Result<()>)
      modifies this
      ensures r.Ok? <==> Scan(old(Settings()), args).Ok?
      ensures r.Ok? ==> Settings() == Scan(old(Settings()), args).value
      ensures r.Fail? ==> r.error == Scan(old(Settings()), args).error
    {
      var i := 0;
      while i < |args|
        invariant i <= |args|
        invariant Scan(old(Settings()), args) == Scan(Settings(), args[i..])
        decreases |args| - i
      {
        ghost var before := Settings();
        var res := ParseOption(args, i);
        if res.Fail? {
          return Fail(res.error);
        }
        assert args[i..][res.value..] == args[i + res.value..];
        i := i + res.value;
      }
      r := Ok(());
    }

    /** One pass of the loop of `parseParams` at token i: the option there
        is applied and the number of tokens it takes is returned. */
    method ParseOption(args: seq<string>, i: nat) returns (r: Result<nat>)
      requires i < |args|
      modifies this
      ensures r.Fail? <==> Step(old(Settings()), args[i..]).Fail?
      ensures r.Fail? ==> r.error == Step(old(Settings()), args[i..]).error
      ensures r.Ok? ==> Step(old(Settings()), args[i..]) == Ok((Settings(), r.value))
    {
      ghost var rest := args[i..];
      assert rest[0] == args[i] && (i + 1 < |args| ==> rest[1] == args[i + 1]);
      if args[i] == "-p" && i + 1 < |args| {
        problemType := args[i + 1];
        r := Ok(2);
      } else if args[i] == "-f" && i + 1 < |args| {
        inputFile := args[i + 1];
        r := Ok(2);
      } else if args[i] == "-fo" && i + 1 < |args| {
        fileFmt := args[i + 1];
        r := Ok(2);
      } else if args[i] == "-o" && i + 1 < |args| {
        outputFile := args[i + 1];
        r := Ok(2);
      } else if args[i] == "-a" && i + 1 < |args| {
        var res := ParseAdditionalParams(args[i + 1]);
        if res.Fail? {
          return Fail(res.error);
        }
        r := Ok(2);
      } else if args[i] == "-t" {
        timeFlag := true;
        r := Ok(1);
      } else {
        r := Ok(1);
      }
    }
  }

  const INVALID_PROBLEM: string := "The problem type is invalid!"

  /** `solve`'s split of the problem code: the task is `substr(0,2)`, the
      semantics `substr(3,2)` and the full option `substr(3)`; a code shorter
      than five characters is refused. The third character is not looked
      at. */
  function SplitProblem(pt: string): (r: Result<(string, string, string)>)
    ensures r.Ok? <==> |pt| >= 5
    ensures r.Fail? ==> r.error == INVALID_PROBLEM
    ensures r.Ok? ==> |r.value.0| == 2 && |r.value.1| == 2 && |r.value.2| >= 2 && r.value.2[..2] == r.value.1
                      && pt == r.value.0 + [pt[2]] + r.value.2
  {
    if |pt| < 5 then Fail(INVALID_PROBLEM)
    else
      assert pt == pt[..2] + [pt[2]] + pt[3..];
      Ok((pt[..2], pt[3..5], pt[3..]))
  }

  /** Building a code from its parts and splitting it gives the parts back. */
  lemma SplitProblemRoundTrip(task: string, sep: char, option: string)
    requires |task| == 2 && |option| >= 2
    ensures SplitProblem(task + [sep] + option) == Ok((task, option[..2], option))
  {
    var pt := task + [sep] + option;
    assert pt[..2] == task && pt[3..] == option && pt[3..5] == option[..2];
  }

  /** The reasoners `solve` can build. The conflict-free, stable and
      admissible reasoners keep the Prolog predicate their option selects;
      the complete one keeps the full option it is given. */
  datatype ReasonerKind =
    | ConflictFree(predicateName: string)
    | Stable(predicateName: string)
    | Admissible(predicateName: string)
    | Complete(option: string)
    | Grounded

  const ST_UNSUPPORTED_OPTION: string :=
    "Error: in StablePlReasoner, unsupported predicate!\n  The supported options [ST,ST1,ST2]"

  /** The option table of the stable reasoner's constructor: ST and ST2
      select `stable2`, ST1 selects `stable1`; any other option is an
      error. */
  function StablePredicateFor(option: string): (r: Result<string>)
    ensures r.Ok? <==> option in {"ST", "ST1", "ST2"}
    ensures r.Ok? ==> r.value == "stable" + (if option == "ST1" then "1" else "2")
    ensures r.Fail? ==> r.error == ST_UNSUPPORTED_OPTION
  {
    if option == "ST" then Ok("stable2")
    else if option == "ST1" then Ok("stable1")
    else if option == "ST2" then Ok("stable2")
    else Fail(ST_UNSUPPORTED_OPTION)
  }

  const AD_UNSUPPORTED_OPTION: string :=
    "Error: in AdmissiblePlReasoner, unsupported predicate!\n  The supported options [AD,AD1,AD2,AD3,AD4,AD5,AD6]"

  /** The option table of the admissible reasoner's constructor: AD and AD1
      select `admissible1`, ADk selects `admissiblek` for k from 2 to 6; any
      other option is an error. */
  function AdmissiblePredicateFor(option: string): (r: Result<string>)
    ensures r.Ok? <==> option in {"AD", "AD1", "AD2", "AD3", "AD4", "AD5", "AD6"}
    ensures r.Ok? ==> r.value == "admissible" + (if option == "AD" then "1" else option[2..])
    ensures r.Fail? ==> r.error == AD_UNSUPPORTED_OPTION
  {
    if option == "AD" then Ok("admissible1")
    else if option == "AD1" then Ok("admissible1")
    else if option == "AD2" then Ok("admissible2")
    else if option == "AD3" then Ok("admissible3")
    else if option == "AD4" then Ok("admissible4")
    else if option == "AD5" then Ok("admissible5")
    else if option == "AD6" then Ok("admissible6")
    else Fail(AD_UNSUPPORTED_OPTION)
  }

  function UnsupportedSemantics(sm: string): string
  {
    "The semantics [" + sm + "] is not supported!"
  }

  /** The semantics dispatch of `solve`: CF, ST, AD, CO and GR build a
      reasoner (CF, ST and AD only for an option their constructor's table
      knows), PR builds none, and anything else is refused. */
  function SelectReasoner(sm: string, full: string): (r: Result<Option<ReasonerKind>>)
    ensures sm !in {"CF", "ST", "AD", "CO", "GR", "PR"} ==> r == Fail(UnsupportedSemantics(sm))
    ensures r == Ok(None) <==> sm == "PR"
    ensures sm == "CF" ==> (r.Ok? <==> ConflictFreeTasks.PredicateFor(full).Ok?)
    ensures sm == "ST" ==> (r.Ok? <==> StablePredicateFor(full).Ok?)
    ensures sm == "AD" ==> (r.Ok? <==> AdmissiblePredicateFor(full).Ok?)
    ensures sm in {"CF", "ST", "AD"} && r.Fail? ==> r.error in {ConflictFreeTasks.UNSUPPORTED_OPTION, ST_UNSUPPORTED_OPTION, AD_UNSUPPORTED_OPTION}
    ensures sm in {"CO", "GR"} ==> r.Ok? && r.value.Some?
    ensures r.Ok? && r.value.Some? ==>
      match r.value.value
      case ConflictFree(p) => sm == "CF" && ConflictFreeTasks.PredicateFor(full) == Ok(p)
      case Stable(p) => sm == "ST" && StablePredicateFor(full) == Ok(p)
      case Admissible(p) => sm == "AD" && AdmissiblePredicateFor(full) == Ok(p)
      case Complete(o) => sm == "CO" && o == full
      case Grounded => sm == "GR"
  {
    if sm == "CF" then
      match ConflictFreeTasks.PredicateFor(full)
      case Fail(e) => Fail(e)
      case Ok(p) => Ok(Some(ConflictFree(p)))
    else if sm == "ST" then
      match StablePredicateFor(full)
      case Fail(e) => Fail(e)
      case Ok(p) => Ok(Some(Stable(p)))
    else if sm == "AD" then
      match AdmissiblePredicateFor(full)
      case Fail(e) => Fail(e)
      case Ok(p) => Ok(Some(Admissible(p)))
    else if sm == "CO" then Ok(Some(Complete(full)))
    else if sm == "GR" then Ok(Some(Grounded))
    else if sm == "PR" then Ok(None)
    else Fail(UnsupportedSemantics(sm))
  }

  datatype Task = EE | EX | EC | SC | SE | DE | DN | DC | DS

  function TaskCode(t: Task): string
  {
    match t
    case EE => "EE" case EX => "EX" case EC => "EC" case SC => "SC" case SE => "SE"
    case DE => "DE" case DN => "DN" case DC => "DC" case DS => "DS"
  }

  function UnsupportedTask(code: string): string
  {
    "The task [" + code + "] is not supported!"
  }

  /** The task dispatch of `reasoning`: exactly the nine codes are known. */
  function TaskOf(code: string): (r: Result<Task>)
    ensures r.Ok? <==> code in {"EE", "EX", "EC", "SC", "SE", "DE", "DN", "DC", "DS"}
    ensures r.Fail? ==> r.error == UnsupportedTask(code)
  {
    if code == "EE" then Ok(EE)
    else if code == "EX" then Ok(EX)
    else if code == "EC" then Ok(EC)
    else if code == "SC" then Ok(SC)
    else if code == "SE" then Ok(SE)
    else if code == "DE" then Ok(DE)
    else if code == "DN" then Ok(DN)
    else if code == "DC" then Ok(DC)
    else if code == "DS" then Ok(DS)
    else Fail(UnsupportedTask(code))
  }

  /** TaskOf reads back every code and only the codes. */
  lemma TaskCodeRoundTrip(t: Task, code: string)
    ensures TaskOf(TaskCode(t)) == Ok(t)
    ensures TaskOf(code).Ok? ==> TaskCode(TaskOf(code).value) == code
  {
  }

  /** What a task does: writes text, writes "Unimplemented!" to standard
      error and carries on (a task the reasoner does not override), or
      hands the question to the Prolog engine, which is not modelled. */
  datatype Outcome = Printed(text: string) | Unimplemented | Delegated

  function Printing(r: Result<string>): Result<Outcome>
  {
    match r
    case Fail(e) => Fail(e)
    case Ok(s) => Ok(Printed(s))
  }

  const EC_NEEDS_ARGUMENT: string := "The task EC needs additional argument (see option -a)"

  /** All labels of args name arguments. */
  predicate KnownLabels(labels: seq<string>, args: set<string>)
  {
    forall l :: l in args ==> l in labels
  }

  /** The checks a Prolog-backed task makes before its query: `-a` must be
      given (else `usage`), and every label must name an argument, which
      `labelSet2IntVector` looks up. Past them the query is delegated. */
  function Delegating(labels: seq<string>, args: set<string>, usage: string): (r: Result<Outcome>)
    ensures r.Ok? <==> args != {} && KnownLabels(labels, args)
    ensures r.Ok? ==> r.value == Delegated
    ensures args == {} ==> r == Fail(usage)
    ensures args != {} && r.Fail? ==> r == Fail(LabelSetBits(labels, args).error)
  {
    match ArgumentBits(labels, args, usage)
    case Fail(e) => Fail(e)
    case Ok(_) => Ok(Delegated)
  }

  /** The tasks of the grounded reasoner. */
  function GroundedReasoning(t: Task, labels: seq<string>, atk: Rows, args: set<string>): (r: Result<Outcome>)
    requires IsFramework(labels, atk)
    ensures r == Ok(Unimplemented) <==> t == EX
    ensures r != Ok(Delegated)
    ensures t == EE ==> r == Ok(Printed(GroundedTasks.TaskEE(labels, atk)))
    ensures t == EC ==> r == Printing(GroundedTasks.TaskEC(labels, atk, args))
    ensures t == SC ==> r == Printing(GroundedTasks.TaskSC(labels, atk, args))
    ensures t == SE ==> r == Ok(Printed(GroundedTasks.TaskSE(labels, atk)))
    ensures t == DE ==> r == Printing(GroundedTasks.TaskDE(labels, atk, args))
    ensures t == DN ==> r == Ok(Printed(GroundedTasks.TaskDN(labels, atk)))
    ensures t == DC ==> r == Printing(GroundedTasks.TaskDC(labels, atk, args))
    ensures t == DS ==> r == Printing(GroundedTasks.TaskDS(labels, atk, args))
    ensures t in {EC, SC, DC, DS} && args == {} ==> r.Fail?
    ensures t in {EC, SC, DE, DC, DS} && !KnownLabels(labels, args) ==> r.Fail?
  {
    match t
    case EE => Ok(Printed(GroundedTasks.TaskEE(labels, atk)))
    case EX => Ok(Unimplemented)
    case EC => Printing(GroundedTasks.TaskEC(labels, atk, args))
    case SC => Printing(GroundedTasks.TaskSC(labels, atk, args))
    case SE => Ok(Printed(GroundedTasks.TaskSE(labels, atk)))
    case DE => Printing(GroundedTasks.TaskDE(labels, atk, args))
    case DN => Ok(Printed(GroundedTasks.TaskDN(labels, atk)))
    case DC => Printing(GroundedTasks.TaskDC(labels, atk, args))
    case DS => Printing(GroundedTasks.TaskDS(labels, atk, args))
  }

  /** The tasks of the conflict-free reasoner: EE, EX and EC query Prolog,
      EC after its usage and label checks; the other six are computed. */
  function ConflictFreeReasoning(t: Task, labels: seq<string>, atk: Rows, args: set<string>): (r: Result<Outcome>)
    requires IsFramework(labels, atk)
    ensures t in {EE, EX} ==> r == Ok(Delegated)
    ensures t == EC ==> r == Delegating(labels, args, EC_NEEDS_ARGUMENT)
    ensures t == EC && args == {} ==> r == Fail(EC_NEEDS_ARGUMENT)
    ensures t == EC ==> (r.Ok? <==> args != {} && KnownLabels(labels, args))
    ensures t == SC ==> r == Printing(ConflictFreeTasks.TaskSC(labels, atk, args))
    ensures t == SE ==> r == Ok(Printed(ConflictFreeTasks.TaskSE(atk)))
    ensures t == DE ==> r == Printing(ConflictFreeTasks.TaskDE(labels, atk, args))
    ensures t == DN ==> r == Ok(Printed(ConflictFreeTasks.TaskDN(labels, atk)))
    ensures t == DC ==> r == Printing(ConflictFreeTasks.TaskDC(labels, atk, args))
    ensures t == DS ==> r == Printing(ConflictFreeTasks.TaskDS(labels, atk, args))
    ensures r == Ok(Delegated) <==> t in {EE, EX} || (t == EC && args != {} && KnownLabels(labels, args))
  {
    match t
    case EE => Ok(Delegated)
    case EX => Ok(Delegated)
    case EC => Delegating(labels, args, EC_NEEDS_ARGUMENT)
    case SC => Printing(ConflictFreeTasks.TaskSC(labels, atk, args))
    case SE => Ok(Printed(ConflictFreeTasks.TaskSE(atk)))
    case DE => Printing(ConflictFreeTasks.TaskDE(labels, atk, args))
    case DN => Ok(Printed(ConflictFreeTasks.TaskDN(labels, atk)))
    case DC => Printing(ConflictFreeTasks.TaskDC(labels, atk, args))
    case DS => Printing(ConflictFreeTasks.TaskDS(labels, atk, args))
  }

  /** The tasks of the stable reasoner: DE is the local bit test; EC, SC, DC
      and DS make their usage and label checks (with the DC message) before
      the query; EE, EX, DN and SE query at once. */
  function StableReasoning(t: Task, labels: seq<string>, atk: Rows, args: set<string>): (r: Result<Outcome>)
    requires IsFramework(labels, atk)
    ensures t in {EE, EX, DN, SE} ==> r == Ok(Delegated)
    ensures t in {EC, SC, DC, DS} ==> r == Delegating(labels, args, StableTasks.NEEDS_ARGUMENT)
    ensures t in {EC, SC, DC, DS} && args == {} ==> r == Fail(StableTasks.NEEDS_ARGUMENT)
    ensures t in {EC, SC, DC, DS} ==> (r.Ok? <==> args != {} && KnownLabels(labels, args))
    ensures t == DE ==> r == Printing(StableTasks.TaskDE(labels, atk, args))
    ensures r.Ok? && r.value.Printed? ==> t == DE
  {
    match t
    case DE => Printing(StableTasks.TaskDE(labels, atk, args))
    case EC => Delegating(labels, args, StableTasks.NEEDS_ARGUMENT)
    case SC => Delegating(labels, args, StableTasks.NEEDS_ARGUMENT)
    case DC => Delegating(labels, args, StableTasks.NEEDS_ARGUMENT)
    case DS => Delegating(labels, args, StableTasks.NEEDS_ARGUMENT)
    case _ => Ok(Delegated)
  }

  /** The tasks of the admissible reasoner: DE is the local bit test, SE and
      DS are answered without a query; EC, SC and DC make their usage and
      label checks before the query; EE, EX and DN query at once. */
  function AdmissibleReasoning(t: Task, labels: seq<string>, atk: Rows, args: set<string>): (r: Result<Outcome>)
    requires IsFramework(labels, atk)
    ensures t in {EE, EX, DN} ==> r == Ok(Delegated)
    ensures t in {EC, SC, DC} ==> r == Delegating(labels, args, AdmissibleTasks.NeedsArgument(TaskCode(t)))
    ensures t in {EC, SC, DC} && args == {} ==> r == Fail(AdmissibleTasks.NeedsArgument(TaskCode(t)))
    ensures t in {EC, SC, DC} ==> (r.Ok? <==> args != {} && KnownLabels(labels, args))
    ensures t == DE ==> r == Printing(AdmissibleTasks.TaskDE(labels, atk, args))
    ensures t == SE ==> r == Ok(Printed(AdmissibleTasks.TaskSE(atk)))
    ensures t == DS ==> r == Printing(AdmissibleTasks.TaskDS(labels, atk, args))
    ensures r.Ok? && r.value.Printed? <==> t in {DE, SE, DS} && r.Ok?
  {
    match t
    case DE => Printing(AdmissibleTasks.TaskDE(labels, atk, args))
    case SE => Ok(Printed(AdmissibleTasks.TaskSE(atk)))
    case DS => Printing(AdmissibleTasks.TaskDS(labels, atk, args))
    case EC => Delegating(labels, args, AdmissibleTasks.NeedsArgument("EC"))
    case SC => Delegating(labels, args, AdmissibleTasks.NeedsArgument("SC"))
    case DC => Delegating(labels, args, AdmissibleTasks.NeedsArgument("DC"))
    case _ => Ok(Delegated)
  }

  /** `reasoning(rsner, task)` for a built reasoner: the task is sent to the
      reasoner's own override. The complete reasoner is not part of this
      model, so all its tasks are delegated. */
  function Reasoning(kind: ReasonerKind, t: Task, labels: seq<string>, atk: Rows, args: set<string>): (r: Result<Outcome>)
    requires IsFramework(labels, atk)
    ensures kind.Grounded? ==> r == GroundedReasoning(t, labels, atk, args)
    ensures kind.ConflictFree? ==> r == ConflictFreeReasoning(t, labels, atk, args)
    ensures kind.Stable? ==> r == StableReasoning(t, labels, atk, args)
    ensures kind.Admissible? ==> r == AdmissibleReasoning(t, labels, atk, args)
    ensures kind.Complete? ==> r == Ok(Delegated)
    ensures r == Ok(Unimplemented) <==> kind.Grounded? && t == EX
    ensures r == Ok(Delegated) ==> !kind.Grounded?
  {
    match kind
    case Grounded => GroundedReasoning(t, labels, atk, args)
    case ConflictFree(_) => ConflictFreeReasoning(t, labels, atk, args)
    case Stable(_) => StableReasoning(t, labels, atk, args)
    case Admissible(_) => AdmissibleReasoning(t, labels, atk, args)
    case Complete(_) => Ok(Delegated)
  }

  /** `solve()` once the framework is loaded: split the code, build the
      reasoner, dispatch the task. PR builds no reasoner, so nothing is
      written and the task code is never looked at. */
  function Solve(pt: string, labels: seq<string>, atk: Rows, args: set<string>): (r: Result<Outcome>)
    requires IsFramework(labels, atk)
    ensures |pt| < 5 ==> r == Fail(INVALID_PROBLEM)
    ensures |pt| >= 5 && pt[3..5] == "PR" ==> r == Ok(Printed(""))
    ensures |pt| >= 5 && pt[3..5] !in {"CF", "ST", "AD", "CO", "GR", "PR"} ==>
      r == Fail(UnsupportedSemantics(pt[3..5]))
    ensures |pt| >= 5 && SelectReasoner(pt[3..5], pt[3..]).Fail? ==>
      r == Fail(SelectReasoner(pt[3..5], pt[3..]).error)
    ensures |pt| >= 5 && pt[3..5] == "ST" && StablePredicateFor(pt[3..]).Fail? ==> r == Fail(ST_UNSUPPORTED_OPTION)
    ensures |pt| >= 5 && pt[3..5] == "AD" && AdmissiblePredicateFor(pt[3..]).Fail? ==> r == Fail(AD_UNSUPPORTED_OPTION)
    ensures |pt| >= 5 && SelectReasoner(pt[3..5], pt[3..]).Ok? && SelectReasoner(pt[3..5], pt[3..]).value.Some? ==>
      (TaskOf(pt[..2]).Fail? ==> r == Fail(UnsupportedTask(pt[..2])))
    ensures |pt| >= 5 && pt[3..5] in {"CO", "GR"} && TaskOf(pt[..2]).Fail? ==>
      r == Fail(UnsupportedTask(pt[..2]))
    ensures |pt| >= 5 && SelectReasoner(pt[3..5], pt[3..]).Ok? && SelectReasoner(pt[3..5], pt[3..]).value.Some? ==>
      (TaskOf(pt[..2]).Ok? ==>
         r == Reasoning(SelectReasoner(pt[3..5], pt[3..]).value.value, TaskOf(pt[..2]).value, labels, atk, args))
    ensures |pt| >= 5 && pt[3..5] == "GR" && TaskOf(pt[..2]).Ok? ==>
      r == Reasoning(Grounded, TaskOf(pt[..2]).value, labels, atk, args)
    ensures |pt| >= 5 && pt[3..5] == "CF" && ConflictFreeTasks.PredicateFor(pt[3..]).Ok? && TaskOf(pt[..2]).Ok? ==>
      r == Reasoning(ConflictFree(ConflictFreeTasks.PredicateFor(pt[3..]).value), TaskOf(pt[..2]).value, labels, atk, args)
    ensures |pt| >= 5 && pt[3..5] == "ST" && StablePredicateFor(pt[3..]).Ok? && TaskOf(pt[..2]).Ok? ==>
      r == Reasoning(Stable(StablePredicateFor(pt[3..]).value), TaskOf(pt[..2]).value, labels, atk, args)
    ensures |pt| >= 5 && pt[3..5] == "AD" && AdmissiblePredicateFor(pt[3..]).Ok? && TaskOf(pt[..2]).Ok? ==>
      r == Reasoning(Admissible(AdmissiblePredicateFor(pt[3..]).value), TaskOf(pt[..2]).value, labels, atk, args)
  {
    match SplitProblem(pt)
    case Fail(e) => Fail(e)
    case Ok((task, sm, full)) =>
      match SelectReasoner(sm, full)
      case Fail(e) => Fail(e)
      case Ok(None) => Ok(Printed(""))
      case Ok(Some(kind)) =>
        match TaskOf(task)
        case Fail(e) => Fail(e)
        case Ok(t) => Reasoning(kind, t, labels, atk, args)
  }
}
