# argmat-clpb: a verified model of its bit-set argumentation engine

argmat-clpb answers reasoning questions about Dung abstract argumentation
frameworks: arguments with an attack relation between them. Its engine
works on bit sets.

- A set of arguments is a bit vector in which bit `i` stands for the
  argument with index `i`.
- The attack relation is a square bit matrix in which row `i` holds the
  attackers of argument `i`.

This project models that engine in Dafny and proves what the code
promises. It covers the following parts:

- the bit-vector and bit-matrix algebra (`bitvector`, `bitmatrix`);
- the framework (`DungAF`), as a label table in index order plus a set of
  attacks;
- the semantics primitives of `Reasoner`:
  - R+(S), N(S) and F(S);
  - conflict-free, admissible, complete, stable and grounded;
  - the grounded fixpoint loop and its {0,1,2} labelling;
- the branch-and-bound search for preferred extensions (`PreferredReasoner`);
- the grounded tasks, and the conflict-free, stable and admissible tasks
  computed without Prolog, with the checks the Prolog-backed tasks make
  before their query;
- the command line of `ClpbProblem`:
  - the options;
  - the comma-separated `-a` list;
  - the `TT-SS` problem code;
  - the semantics and task dispatch;
- `trim` and the output constants of `config.hpp`.

## How the model is laid out

| file | module |
|---|---|
| `wrappers.dfy` | `Wrappers` (`Option`, `Result`) |
| `config.dfy` | `Config` |
| `bitvector.dfy` | `Bitvector` (`seq<bool>`) |
| `bitmatrix.dfy` | `Bitmatrix` (a `BitMatrix` class over `seq<seq<bool>>`) |
| `labelorder.dfy` | `LabelOrder` (the iteration order of a `std::set<string>`) |
| `dungaf.dfy` | `Dung` (a `DungAF` class) |
| `reasoner.dfy` | `Reasoner` |
| `preferred.dfy` | `Preferred` (a `PreferredReasoner` class) |
| `grounded_tasks.dfy` | `GroundedTasks` |
| `conflictfree_tasks.dfy` | `ConflictFreeTasks` |
| `stable_tasks.dfy` | `StableTasks` |
| `admissible_tasks.dfy` | `AdmissibleTasks` |
| `clpb_problem.dfy` | `Clpb` (a `ClpbProblem` class) |

### Printing and ending the program

A task that writes to its output stream becomes a function that returns
the text. A call to `exit(1)` after a message on standard error becomes a
`Fail` carrying that message. These cases include:

- a label that is not an argument;
- a missing `-a` list;
- a malformed `-a` list;
- a bad problem code;
- an unsupported semantics or task.

### Where state changes in place

The following are classes whose methods carry `modifies` clauses:

- the bit matrix;
- the framework;
- the extension set of the preferred search;
- the option fields of `ClpbProblem`.

Loops become methods with invariants, proved against specification
functions:

- `Product` and `Transposed` for the matrix products;
- `Grounded` for the fixpoint loop;
- `LabelSetBits` for `labelSet2bv`;
- `ArgList` for `parseAddtionalParams`;
- `Scan` for `parseParams`.

The preferred search passes its five label sets by reference. The model
returns the final labelling instead, which a TYPE_A step adopts just as
the source does.

## Model

| member | source | states |
|---|---|---|
| Config.Verdict | config/config.hpp:30-36 | the task answer line is `YES` exactly when the decision holds, else `NO` |
| Config.FindFirstNotSpace | config/config.hpp:43 | `find_first_not_of(" ")`: the first non-space position at or after `from`, or none (npos) when only spaces follow |
| Config.FindLastNotSpace | config/config.hpp:44 | `find_last_not_of(" ")`: the last non-space position, or none |
| Config.Substr | config/config.hpp:52 | `substr(pos, n)` clips the count at the end of the string |
| Config.Trim | config/config.hpp:41-53 | the result is a contiguous slice with only `' '` removed around it; it has no leading or trailing space when `s` has a non-space character; when `s` is empty or all spaces the npos fallbacks return `s` unchanged |
| Config.TrimIdempotent | config/config.hpp:41-53 | `trim(trim(s)) == trim(s)` |
| Bitvector.Intersects | bitmatrix/bitvector.hpp:113-117 | `a * b` holds iff some index is set in both (equal sizes required) |
| Bitvector.IsEmptySet | bitmatrix/bitvector.hpp:119-123 | holds iff no bit is set |
| Bitvector.IsUniversal | bitmatrix/bitvector.hpp:146-151 | holds iff every bit is set |
| Bitvector.EmptySet | bitmatrix/bitvector.hpp:125-129 | n bits, and the result is an empty set |
| Bitvector.UniversalSet | bitmatrix/bitvector.hpp:132-139 | n bits, and the result is universal |
| Bitvector.Increase | bitmatrix/bitvector.hpp:141-144 | leaves the vector unchanged and reports true |
| Bitvector.CountSubset | dung_theory/Reasoner.hpp:489-493 | `count()` of a subset is no larger, and of a proper subset strictly smaller; this bounds the grounded loop and the preferred search |
| Bitmatrix.Product | bitmatrix/bitmatrix.hpp:101-108 | bit i of M*v is set iff row i meets v |
| Bitmatrix.Transposed | bitmatrix/bitmatrix.hpp:110-123 | an r x c matrix transposes to c x r |
| Bitmatrix.TransposeInvolutive | bitmatrix/bitmatrix.hpp:110-123 | transposing twice gives the matrix back |
| Bitmatrix.BitMatrix.Empty | bitmatrix/bitmatrix.hpp:27 | the default matrix has no rows and no columns |
| Bitmatrix.BitMatrix.constructor | bitmatrix/bitmatrix.hpp:61-70 | r rows of length c, every bit false |
| Bitmatrix.BitMatrix.Square | bitmatrix/bitmatrix.hpp:72-81 | the n x n zero matrix |
| Bitmatrix.BitMatrix.SetBit | bitmatrix/bitmatrix.hpp:97-99 | writing through `operator[]` changes one bit and nothing else |
| Bitmatrix.BitMatrix.MulVec | bitmatrix/bitmatrix.hpp:101-108 | bit i is set iff row i meets v; for a square matrix the result is `Product` |
| Bitmatrix.BitMatrix.Transpose | bitmatrix/bitmatrix.hpp:110-123 | needs both dimensions positive; returns a fresh matrix with the dimensions swapped and `T[i][j] == M[j][i]` |
| Bitmatrix.BitMatrix.MulMat | bitmatrix/bitmatrix.hpp:133-145 | needs `cols(M) == rows(N)`; entry [i][j] is set iff row i of M meets column j of N |
| Bitmatrix.BitMatrix.SetBitvector | bitmatrix/bitmatrix.hpp:147-153 | needs `pos < rows` and the right width; replaces row pos only |
| Bitmatrix.BitMatrix.GetBitvector | bitmatrix/bitmatrix.hpp:155-160 | returns row pos |
| Bitmatrix.BitMatrix.PushBack | bitmatrix/bitmatrix.hpp:162-177 | needs a non-empty row; the first row fixes the width, later rows must match it; appends one row and keeps the others |
| Bitmatrix.BitMatrix.Diag | bitmatrix/bitmatrix.hpp:179-188 | length `min(rows, cols)`, with bit i equal to `M[i][i]` |
| Dung.IndexOf | dung_theory/DungAF.hpp:520-530 | the index carrying a label, or none exactly when the label is not an argument |
| Dung.IndexOfUnique | dung_theory/DungAF.hpp:520-530 | with unique labels, label i is found at index i |
| Dung.IndicesBitsRoundTrip | dung_theory/DungAF.hpp:321-342 | `bv2set(set2bv(S)) == S`, and `set2bv(bv2set(bv)) == bv` for a vector of the framework's size |
| Dung.LabelBits | dung_theory/DungAF.hpp:482-495 | defined iff every label is an argument; then n bits, with bit i set iff label i is in the set |
| Dung.LabelBitsRoundTrip | dung_theory/DungAF.hpp:471-495 | `bv2label_set(labelSet2bv(L)) == L` for known labels, and the converse for every vector |
| Dung.FirstUnknown | dung_theory/DungAF.hpp:486-488 | the first label of a listing that is not an argument, and all labels before it are known |
| Dung.LabelSetBits | dung_theory/DungAF.hpp:482-495 | succeeds iff every label is known, with `LabelBits` as the value; otherwise it fails with the message for an unknown label that no smaller unknown label precedes |
| Dung.UnknownAtPosition | dung_theory/DungAF.hpp:485-488 | meeting an unknown label in the ascending walk is the failure of `labelSet2bv` |
| Dung.KnownWalk | dung_theory/DungAF.hpp:482-495 | walking only known labels sets exactly their bits |
| Dung.FirstUnknownIsLeast | dung_theory/DungAF.hpp:485-488 | the reported unknown label is the least unknown label of the set |
| Dung.SelectedLabels | dung_theory/DungAF.hpp:426-443 | the labels written by `outputBv` are exactly the labels of the set bits |
| Dung.AttackListExact | dung_theory/DungAF.hpp:364-375 | the edge walk of `toString` lists every attack exactly once, in (source, target) order |
| Dung.RowUpToExact | dung_theory/DungAF.hpp:364-375 | one source's attacks, listed exactly and in order |
| Dung.ListUpToExact | dung_theory/DungAF.hpp:364-375 | the attacks of the first i sources, listed exactly and in order |
| Dung.ListUpToMembers | dung_theory/DungAF.hpp:364-375 | an attack is listed iff it is in the edge set with its source below i |
| Dung.ListUpToSorted | dung_theory/DungAF.hpp:364-375 | the listed attacks are strictly ordered by (source, target), so none repeats |
| Dung.DungAF.constructor | dung_theory/DungAF.hpp:197-200 | an empty framework |
| Dung.DungAF.AddArgument | dung_theory/DungAF.hpp:214-236 | a new label gets the next index and the count grows by one; a known label returns its argument; attacks are unchanged |
| Dung.DungAF.AddAttackByIndex | dung_theory/DungAF.hpp:278-288 | adds the attack to the set; `inserted` is false exactly for a duplicate |
| Dung.DungAF.AddAttack | dung_theory/DungAF.hpp:291-301 | unknown labels become new arguments, the attacker first; then the attack is added |
| Dung.DungAF.Clear | dung_theory/DungAF.hpp:466-469 | no arguments, no attacks |
| Dung.DungAF.GetAttackMatrix | dung_theory/DungAF.hpp:383-396 | n x n, with `[i][j]` set iff argument j attacks argument i |
| Dung.DungAF.Set2Bv | dung_theory/DungAF.hpp:321-331 | the vector with exactly the bits of the set |
| Dung.DungAF.Bv2Set | dung_theory/DungAF.hpp:333-342 | needs the framework's size; the indices of the set bits |
| Dung.DungAF.Bv2LabelSet | dung_theory/DungAF.hpp:471-480 | the labels of the set bits |
| Dung.DungAF.ArgumentIdx | dung_theory/DungAF.hpp:520-530 | the index of a known label; an unknown label fails with the framework message |
| Dung.DungAF.LabelSet2Bv | dung_theory/DungAF.hpp:482-495 | the loop over the ascending set computes `LabelSetBits`, including its failure |
| Dung.DungAF.GetArgumentLabels | dung_theory/DungAF.hpp:509-518 | length n, with element i the label of index i |
| Dung.DungAF.ArgumentsText | dung_theory/DungAF.hpp:349-360 | the labels in index order, comma-joined |
| Dung.DungAF.AttacksText | dung_theory/DungAF.hpp:363-376 | the `(s,t)` texts in edge order, comma-joined |
| Dung.AppendRowTexts | dung_theory/DungAF.hpp:369-373 | the texts of the attacks leaving source i, in target order, extend the texts of the attacks from lower sources |
| Dung.DungAF.ToString | dung_theory/DungAF.hpp:344-381 | `[{l0,l1,...},{(s,t),...}]` |
| Dung.DungAF.OutputBv | dung_theory/DungAF.hpp:426-443 | `[` + labels of the set bits in index order + `]` |
| Dung.DungAF.OutputBvSet | dung_theory/DungAF.hpp:445-463 | `[` + comma-joined extension texts + `]`, which is `[]` for no extensions |
| Reasoner.Attacked | dung_theory/Reasoner.hpp:359-365 | R+(S): x is set iff some member of S attacks x |
| Reasoner.Neutrality | dung_theory/Reasoner.hpp:546-550 | N(S): the complement of R+(S) |
| Reasoner.Characteristic | dung_theory/Reasoner.hpp:367-372 | F(S) = N(N(S)): exactly the arguments S defends |
| Reasoner.CharacteristicOfEmpty | dung_theory/Reasoner.hpp:374-378 | F of the empty set is exactly the set of unattacked arguments |
| Reasoner.CharacteristicMonotone | dung_theory/Reasoner.hpp:367-372 | F is monotone |
| Reasoner.IsConflictFree | dung_theory/Reasoner.hpp:380-385 | S meets R+(S) nowhere iff no member attacks a member |
| Reasoner.ConflictFreeBasics | dung_theory/Reasoner.hpp:380-385 | the empty set is conflict-free, and a conflict-free set holds no self-attacker |
| Reasoner.IsAcceptable | dung_theory/Reasoner.hpp:393-397 | `A ⊆ F(S)` iff S defends every member of A |
| Reasoner.SelfAttacking | dung_theory/Reasoner.hpp:413-425 | the diagonal, agreeing with `is_self_attacking(i)` at every i |
| Reasoner.DefendedIsNeutral | dung_theory/Reasoner.hpp:552-561 | for a conflict-free S, F(S) lies inside N(S) |
| Reasoner.IsAdmissible | dung_theory/Reasoner.hpp:552-561 | `S ⊆ F(S) ∩ N(S)` iff S is conflict-free and defends its members |
| Reasoner.IsComplete | dung_theory/Reasoner.hpp:563-572 | `S == F(S) ∩ N(S)` iff S is admissible and holds all it defends |
| Reasoner.IsStable | dung_theory/Reasoner.hpp:574-581 | `S == N(S)` iff S is conflict-free and attacks every outsider |
| Reasoner.StableIsComplete | dung_theory/Reasoner.hpp:574-581 | every stable set is complete |
| Reasoner.Lfp | dung_theory/Reasoner.hpp:484-496 | iterating F from a set below its image reaches a fixpoint above it |
| Reasoner.LfpLeast | dung_theory/Reasoner.hpp:126-131 | that fixpoint lies below every pre-fixpoint above the start, so it is the least one |
| Reasoner.CharacteristicKeepsAdmissible | dung_theory/Reasoner.hpp:484-496 | F maps an admissible set to an admissible set |
| Reasoner.LfpAdmissible | dung_theory/Reasoner.hpp:484-496 | the iteration from an admissible set stays admissible |
| Reasoner.GroundedLeast | dung_theory/Reasoner.hpp:126-131 | the grounded extension lies in every fixpoint of F and in every complete extension |
| Reasoner.GroundedIsComplete | dung_theory/Reasoner.hpp:484-496 | the grounded extension is complete |
| Reasoner.GroundedIsLeastComplete | dung_theory/Reasoner.hpp:126-131 | S is the grounded extension iff it is the least complete extension |
| Reasoner.IsGrounded | dung_theory/Reasoner.hpp:583-589 | `S == getGroundedExtension()` iff S is the least complete extension |
| Reasoner.GetGroundedExtension | dung_theory/Reasoner.hpp:484-496 | the while loop from the empty set stops, and returns the least fixpoint of F |
| Reasoner.LabellingInLegal | dung_theory/Reasoner.hpp:159-164 | in the labelling of an admissible set, every attacker of an IN argument is OUT |
| Reasoner.LabellingOutLegal | dung_theory/Reasoner.hpp:159-164 | an OUT argument has an IN attacker |
| Reasoner.LabellingUndecLegal | dung_theory/Reasoner.hpp:159-164 | for a set holding all it defends, an UNDEC argument has an UNDEC attacker and no IN one |
| Reasoner.GroundedLabellingLegal | dung_theory/Reasoner.hpp:499-524 | the grounded {0,1,2} labelling is a complete labelling |
| Reasoner.GroundedAndAttacked | dung_theory/Reasoner.hpp:504-513 | the do-while loop ends with the grounded extension and the set it attacks |
| Reasoner.GetGroundedIntVector | dung_theory/Reasoner.hpp:499-524 | length n, with 1 for grounded, 0 for attacked by it, 2 otherwise |
| Reasoner.FillLabels | dung_theory/Reasoner.hpp:517-521 | entry i is 1 for a member of the extension, else 0 for an argument it attacks, else 2 |
| Reasoner.ArgumentBits | dung_theory/GroundedReasoner.hpp:132-138 | an empty `-a` set is the usage error; otherwise `labelSet2bv` |
| Reasoner.BitsAreLabels | dung_theory/GroundedReasoner.hpp:148 | the bit-level subset and equality tests agree with the label-set ones |
| Reasoner.LabelSet2IntVector | dung_theory/Reasoner.hpp:526-536 | length n, with 1 at the labelled indices and 2 elsewhere; an unknown label fails as in `labelSet2bv` |
| LabelOrder.SortedLabels | dung_theory/Reasoner.hpp:454-470 | the walk of a `std::set<string>`: every member exactly once, strictly ascending |
| LabelOrder.LeastExists | dung_theory/Reasoner.hpp:459-460 | a non-empty label set has a least member, where `begin()` starts |
| LabelOrder.SortedHead | dung_theory/Reasoner.hpp:459-460 | the walk starts at the least member |
| GroundedTasks.GroundedIsSkeptical | dung_theory/GroundedReasoner.hpp:240-244 | the grounded extension holds argset iff every complete extension does |
| GroundedTasks.UnattackedAreGrounded | dung_theory/GroundedReasoner.hpp:174-185 | every unattacked argument is grounded |
| GroundedTasks.AllAttackedGroundedEmpty | dung_theory/GroundedReasoner.hpp:174-185 | with every argument attacked the grounded extension is empty |
| GroundedTasks.GroundedEmptyIff | dung_theory/GroundedReasoner.hpp:174-185 | the grounded extension is empty iff every argument has an attacker |
| GroundedTasks.NoLabelsIffEmpty | dung_theory/GroundedReasoner.hpp:180 | a vector names no label iff no bit is set |
| GroundedTasks.TaskEE | dung_theory/GroundedReasoner.hpp:124-127 | the grounded extension in brackets |
| GroundedTasks.TaskEC | dung_theory/GroundedReasoner.hpp:130-152 | empty argset is the usage error; an unknown label fails; otherwise `[` + the grounded extension + `]` if it holds argset, else `[]` |
| GroundedTasks.TaskDE | dung_theory/GroundedReasoner.hpp:156-171 | an empty argset is allowed; YES iff argset is the grounded extension, that is the least complete one |
| GroundedTasks.TaskDN | dung_theory/GroundedReasoner.hpp:174-185 | NO iff the grounded extension is empty, that is iff every argument is attacked |
| GroundedTasks.TaskSC | dung_theory/GroundedReasoner.hpp:188-210 | usage error on empty; the grounded extension if it holds argset, else `NO` |
| GroundedTasks.TaskSE | dung_theory/GroundedReasoner.hpp:213-216 | the grounded extension |
| GroundedTasks.TaskDC | dung_theory/GroundedReasoner.hpp:219-237 | usage error on empty; YES iff the grounded extension holds argset |
| GroundedTasks.TaskDS | dung_theory/GroundedReasoner.hpp:240-244 | the same answer as DC, which is YES iff every complete extension holds argset |
| ConflictFreeTasks.PredicateFor | PlReasoner/ConflictfreePlReasoner.hpp:138-153 | CF and CF1 map to `conflict_free1`, CF2 and CF3 to `conflict_free2` and `conflict_free3`; anything else is an error |
| ConflictFreeTasks.BitsConflictFree | PlReasoner/ConflictfreePlReasoner.hpp:182-194 | the bit test agrees with conflict-freeness of the labels |
| ConflictFreeTasks.ConflictFreeDownward | PlReasoner/ConflictfreePlReasoner.hpp:245-250 | a subset of a conflict-free set is conflict-free |
| ConflictFreeTasks.NonEmptyConflictFreeIff | PlReasoner/ConflictfreePlReasoner.hpp:205-212 | a non-empty conflict-free set exists iff some argument does not attack itself |
| ConflictFreeTasks.CredulousIffConflictFree | PlReasoner/ConflictfreePlReasoner.hpp:245-250 | argset lies in some conflict-free set iff it is conflict-free |
| ConflictFreeTasks.NothingSkeptical | PlReasoner/ConflictfreePlReasoner.hpp:261-262 | no non-empty set lies in every conflict-free set |
| ConflictFreeTasks.TaskDE | PlReasoner/ConflictfreePlReasoner.hpp:182-194 | YES iff argset is conflict-free; an unknown label fails |
| ConflictFreeTasks.TaskDN | PlReasoner/ConflictfreePlReasoner.hpp:197-213 | YES iff a non-empty conflict-free set exists, which is when the diagonal is not universal |
| ConflictFreeTasks.TaskSC | PlReasoner/ConflictfreePlReasoner.hpp:216-229 | usage error on empty; argset itself if conflict-free, else `NO` |
| ConflictFreeTasks.TaskSE | PlReasoner/ConflictfreePlReasoner.hpp:232-236 | `[]`, and the empty set is conflict-free |
| ConflictFreeTasks.TaskDC | PlReasoner/ConflictfreePlReasoner.hpp:239-251 | usage error on empty; YES iff some conflict-free set holds argset |
| ConflictFreeTasks.TaskDS | PlReasoner/ConflictfreePlReasoner.hpp:254-263 | usage error on empty; the answer is whether every conflict-free set holds argset, which is always NO |
| StableTasks.BitsStable | dung_theory/Reasoner.hpp:575-581 | the bit test S == N(S) agrees with stability of the labels: conflict-free, and every other argument attacked by one of them |
| StableTasks.TaskDE | PlReasoner/StablePlReasoner.hpp:175-188 | YES iff argset is a stable extension; an unknown label fails; no usage check |
| AdmissibleTasks.BitsAdmissible | dung_theory/Reasoner.hpp:553-561 | the bit test S ⊆ F(S) ∩ N(S) agrees with admissibility of the labels: conflict-free, and every attacker of one of them attacked by one of them |
| AdmissibleTasks.EmptyAdmissible | PlReasoner/AdmissiblePlReasoner.hpp:223-228 | the empty set is admissible |
| AdmissibleTasks.NothingSkepticalAdmissible | PlReasoner/AdmissiblePlReasoner.hpp:252-260 | no non-empty set lies in every admissible set |
| AdmissibleTasks.TaskDE | PlReasoner/AdmissiblePlReasoner.hpp:186-199 | YES iff argset is admissible; an unknown label fails; no usage check |
| AdmissibleTasks.TaskSE | PlReasoner/AdmissiblePlReasoner.hpp:223-228 | `[]`, and the empty set is admissible |
| AdmissibleTasks.TaskDS | PlReasoner/AdmissiblePlReasoner.hpp:246-261 | usage error naming DS on empty; the answer is whether every admissible set holds argset, which is always NO, and the labels are not looked up |
| Preferred.Initial | dung_theory/PreferredReasoner.hpp:103-107 | everything BLANK, the other four sets empty |
| Preferred.PreprocessedSound | dung_theory/PreferredReasoner.hpp:115-132 | with the overlap removed, preprocessing gives a partition meeting the search invariant: IN is F(empty), OUT is what IN attacks, and every self-attacker is OUT or UNDEC |
| Preferred.PreprocessedAsWrittenInvariant | dung_theory/PreferredReasoner.hpp:115-132 | as written, preprocessing still meets the search invariant |
| Preferred.AsWrittenDoubleLabel | dung_theory/PreferredReasoner.hpp:119-125 | a self-attacker attacked by an unattacked argument ends up both OUT and UNDEC |
| Preferred.AsWrittenDoubleLabelCause | dung_theory/PreferredReasoner.hpp:119-125 | that is the only way an argument gets two labels |
| Preferred.PreprocessedAsWrittenOverlap | dung_theory/PreferredReasoner.hpp:115-132 | the as-written labelling fails to be a partition iff some unattacked argument attacks a self-attacker |
| Preferred.Expand | dung_theory/PreferredReasoner.hpp:144-161 | trying BLANK argument i IN: i joins IN and what i attacks joins OUT; BLANK keeps exactly the arguments other than i that neither attack i nor are attacked by it; UNDEC keeps exactly those not attacked by i and not attacking it; MUST_OUT loses what i attacks and gains exactly the attackers of i that were still BLANK or UNDEC |
| Preferred.Skip | dung_theory/PreferredReasoner.hpp:170-172 | argument i moves from BLANK to UNDEC, and nothing else changes |
| Preferred.Preprocessed | dung_theory/PreferredReasoner.hpp:115-132 | the corrected preprocessing keeps the shape and leaves MUST_OUT alone (its partition property is `PreprocessedSound`) |
| Preferred.PreprocessedAsWritten | dung_theory/PreferredReasoner.hpp:115-132 | the preprocessing as written keeps the shape and leaves MUST_OUT alone (its overlap is `PreprocessedAsWrittenOverlap`) |
| Preferred.ExpandOut | dung_theory/PreferredReasoner.hpp:150-161 | after trying i IN, OUT is exactly what the new IN attacks |
| Preferred.ExpandIn | dung_theory/PreferredReasoner.hpp:150-161 | the new IN is disjoint from OUT, and every attacker of IN is OUT or MUST_OUT |
| Preferred.ExpandCovered | dung_theory/PreferredReasoner.hpp:150-161 | the child still labels every argument, and its BLANK stays clean |
| Preferred.ExpandKeepsInvariant | dung_theory/PreferredReasoner.hpp:144-161 | trying a BLANK argument IN keeps the search invariant |
| Preferred.ExpandKeepsPartition | dung_theory/PreferredReasoner.hpp:144-161 | trying a BLANK argument IN keeps a partition a partition |
| Preferred.ExpandShrinksBlank | dung_theory/PreferredReasoner.hpp:150 | the child has strictly fewer BLANK arguments, which is the termination measure |
| Preferred.ExpandGrows | dung_theory/PreferredReasoner.hpp:150-152 | the child's IN and OUT extend the parent's |
| Preferred.SkipKeepsInvariant | dung_theory/PreferredReasoner.hpp:170-175 | declaring i UNDEC keeps the invariant and the partition |
| Preferred.LeafAdmissible | dung_theory/PreferredReasoner.hpp:193-207 | a labelling with empty MUST_OUT has an admissible IN |
| Preferred.SelectionUnique | dung_theory/PreferredReasoner.hpp:221-244 | the selection rule determines one choice |
| Preferred.ScanBlank | dung_theory/PreferredReasoner.hpp:225-243 | the scan returns npos iff BLANK is empty, the lowest forced BLANK argument as TYPE_A, else the first BLANK argument of largest degree as TYPE_B |
| Preferred.ExpandDescends | dung_theory/PreferredReasoner.hpp:144-161 | the child keeps the invariant and a partition, its IN and OUT grow, and its BLANK shrinks strictly and loses i |
| Preferred.SkipDescends | dung_theory/PreferredReasoner.hpp:170-175 | declaring i UNDEC keeps the invariant and a partition, and i is no longer BLANK |
| Preferred.RecordedLeaf | dung_theory/PreferredReasoner.hpp:193-207 | recording a leaf that nothing recorded contains keeps every recorded set sound for the parent |
| Preferred.NoLeafWhenLookAheadFails | dung_theory/PreferredReasoner.hpp:163-179 | a child failing the look-ahead is never a leaf to record |
| Preferred.FirstStep | dung_theory/PreferredReasoner.hpp:140-188 | after the first pass the node was not abandoned at once, and a leaf child was recorded |
| Preferred.PreferredReasoner.constructor | dung_theory/PreferredReasoner.hpp:40-45 | the attack matrix of the framework, with `m_attackedBy` its transpose |
| Preferred.PreferredReasoner.GetAttackers | dung_theory/PreferredReasoner.hpp:246-251 | needs `|S| == n`; x is set iff x attacks some member of S |
| Preferred.PreferredReasoner.AttackersMeet | dung_theory/PreferredReasoner.hpp:246-251 | T holds an attacker of S iff S meets R+(T) |
| Preferred.PreferredReasoner.LookAhead | dung_theory/PreferredReasoner.hpp:210-219 | true iff every MUST_OUT argument has a BLANK attacker |
| Preferred.PreferredReasoner.SelectArgument | dung_theory/PreferredReasoner.hpp:221-244 | npos iff BLANK is empty; otherwise the lowest forced BLANK argument as TYPE_A, else the first BLANK argument of largest degree as TYPE_B |
| Preferred.PreferredReasoner.IsSubsumed | dung_theory/PreferredReasoner.hpp:195-204 | true iff some recorded extension contains the set |
| Preferred.PreferredReasoner.FindPreferredExtensions | dung_theory/PreferredReasoner.hpp:134-208 | terminates on `|BLANK|`; IN and OUT only grow and BLANK only shrinks; every recorded set is admissible, extends IN, avoids OUT and is contained in no earlier one; the leaf rule, the immediate-abandon rule and first-leaf recording hold |
| Preferred.PreferredReasoner.RecordLeaf | dung_theory/PreferredReasoner.hpp:193-207 | IN is inserted only when MUST_OUT is empty and no recorded set contains it; otherwise nothing changes |
| Preferred.PreferredReasoner.Branch | dung_theory/PreferredReasoner.hpp:144-187 | one pass removes i from BLANK (TYPE_B to UNDEC, TYPE_A by adopting the child) or stops as the look-ahead rules say, keeping the invariant |
| Preferred.PreferredReasoner.ComputeExtensions | dung_theory/PreferredReasoner.hpp:97-113 | with the corrected preprocessing, every recorded extension is admissible, contains every unattacked argument and avoids what they attack |
| Preferred.PreferredReasoner.ComputeExtensionsAsWritten | dung_theory/PreferredReasoner.hpp:97-113 | with the preprocessing as written, recorded sets are still admissible, but a labelling abandoned at once leaves none |
| Preferred.AsWrittenMissesPreferred | dung_theory/PreferredReasoner.hpp:115-132 | on a → x, x → x, x → b the set {a, b} is preferred, yet x is OUT and UNDEC and the search abandons at once |
| Preferred.CorrectedFindsPreferred | dung_theory/PreferredReasoner.hpp:115-132 | with the overlap removed, the first choice b has a leaf child whose IN is {a, b} |
| Preferred.AsWrittenOnExample | dung_theory/PreferredReasoner.hpp:97-113 | the as-written search on that framework records nothing |
| Preferred.CorrectedOnExample | dung_theory/PreferredReasoner.hpp:97-113 | the corrected search on that framework records {a, b} |
| Clpb.SeparatorFrom | argmat-clpb/ClpbProblem.hpp:295-297 | `find_first_of(",", from)`: the first comma at or after `from`, or npos |
| Clpb.PiecesHaveNoSeparator | argmat-clpb/ClpbProblem.hpp:295-313 | every cut piece is comma-free |
| Clpb.JoinPieces | argmat-clpb/ClpbProblem.hpp:295-313 | joining the pieces with commas gives the text back |
| Clpb.PiecesOfJoin | argmat-clpb/ClpbProblem.hpp:295-313 | cutting a join of comma-free items gives the items back |
| Clpb.EmptyPieceIff | argmat-clpb/ClpbProblem.hpp:299-321 | an empty piece appears iff the rest is empty, starts or ends with a comma, or has two commas in a row |
| Clpb.ArgListOfPieces | argmat-clpb/ClpbProblem.hpp:312-321 | the last piece is inserted when non-empty, else the list is refused |
| Clpb.ArgListFails | argmat-clpb/ClpbProblem.hpp:289-321 | the empty string is the empty set; refused exactly for a leading, trailing or doubled comma; every label is non-empty and comma-free |
| Clpb.JoinAllPieces | argmat-clpb/ClpbProblem.hpp:295-313 | the pieces of `oargs`, joined, are `oargs` |
| Clpb.ArgListOfJoin | argmat-clpb/ClpbProblem.hpp:295-315 | for non-empty comma-free l1..lk, `l1,...,lk` yields exactly {l1..lk} |
| ConflictFreeTasks.LabSetText | dung_theory/Reasoner.hpp:454-470 | the text is bracketed, and the empty set prints as `[]` (its read-back partner is `Clpb.LabSetTextReadBack`) |
| Clpb.LabSetTextReadBack | dung_theory/Reasoner.hpp:454-470 | what `printLabSet(set<string>)` writes between its brackets is read back by `-a` as the same set |
| Clpb.ArgListExample | argmat-clpb/ClpbProblem.hpp:286-322 | `a,b` yields {a, b} |
| Clpb.CutArguments | argmat-clpb/ClpbProblem.hpp:292-321 | the `find_first_of` loop computes `ArgList`, including its refusals |
| Clpb.ClpbProblem.constructor | argmat-clpb/ClpbProblem.hpp:99-107 | empty strings, no arguments, no timing |
| Clpb.ClpbProblem.ParseAdditionalParams | argmat-clpb/ClpbProblem.hpp:286-322 | clears the set; succeeds iff the list is well-formed, then only `m_otherArgs` changes; otherwise the three-line message |
| Clpb.Step | argmat-clpb/ClpbProblem.hpp:111-147 | one option takes 1 or 2 tokens, and fails exactly for `-a` with a malformed list |
| Clpb.ScanSkipsOthers | argmat-clpb/ClpbProblem.hpp:111-148 | tokens that are not options change nothing |
| Clpb.ScanFailsOnlyOnArgList | argmat-clpb/ClpbProblem.hpp:136-142 | the scan fails only on a malformed list after `-a`, with its message |
| Clpb.ScanExample | argmat-clpb/ClpbProblem.hpp:109-149 | `-p DC-GR -fo apx -f af.apx -a a,b` sets those four fields |
| Clpb.ClpbProblem.ParseOption | argmat-clpb/ClpbProblem.hpp:112-147 | one pass of the loop applies `Step` to the fields |
| Clpb.ClpbProblem.ParseParams | argmat-clpb/ClpbProblem.hpp:109-149 | the fields end as `Scan` of the old settings, or the malformed-list message |
| Clpb.SplitProblem | argmat-clpb/ClpbProblem.hpp:185-209 | refuses codes shorter than 5; otherwise task `substr(0,2)`, semantics `substr(3,2)`, full option `substr(3)`, and the third character is ignored |
| Clpb.SplitProblemRoundTrip | argmat-clpb/ClpbProblem.hpp:207-209 | splitting a built code gives its parts back |
| Clpb.StablePredicateFor | PlReasoner/StablePlReasoner.hpp:130-148 | ST and ST2 select `stable2`, ST1 selects `stable1`; any other option is refused with the two-line message |
| Clpb.AdmissiblePredicateFor | PlReasoner/AdmissiblePlReasoner.hpp:130-160 | AD and AD1 select `admissible1`, ADk selects `admissiblek` for k from 2 to 6; any other option is refused with the two-line message |
| Clpb.SelectReasoner | argmat-clpb/ClpbProblem.hpp:213-236 | CF, ST and AD build a reasoner exactly when their constructor's table knows the full option, which fixes the predicate it keeps, and otherwise fail with that table's message; CO and GR always build one; PR builds none; anything else is refused |
| Clpb.TaskOf | argmat-clpb/ClpbProblem.hpp:246-283 | exactly the nine task codes are known; anything else is refused |
| Clpb.TaskCodeRoundTrip | argmat-clpb/ClpbProblem.hpp:246-283 | every task's code reads back as that task, and every known code is some task's code |
| Clpb.Delegating | PlReasoner/StablePlReasoner.hpp:158-166 | a Prolog-backed task refuses an empty `-a` list with its usage message and an unknown label with the lookup's message, and otherwise goes to the query |
| Clpb.GroundedReasoning | dung_theory/GroundedReasoner.hpp:124-244 | each of the nine tasks is its `GroundedTasks` function, EX writes "Unimplemented!", nothing goes to Prolog; EC, SC, DC and DS refuse an empty list and every task with labels refuses an unknown one |
| Clpb.ConflictFreeReasoning | PlReasoner/ConflictfreePlReasoner.hpp:157-269 | EE and EX query Prolog; EC does so after its usage check (naming EC) and label check; SC, SE, DE, DN, DC and DS are their `ConflictFreeTasks` functions; nothing else is delegated |
| Clpb.StableReasoning | PlReasoner/StablePlReasoner.hpp:151-252 | DE is `StableTasks.TaskDE`; EC, SC, DC and DS make the usage check (all naming DC) and the label check before the query; EE, EX, DN and SE query at once; only DE prints locally |
| Clpb.AdmissibleReasoning | PlReasoner/AdmissiblePlReasoner.hpp:163-267 | DE, SE and DS are their `AdmissibleTasks` functions; EC, SC and DC make the usage check (each naming itself) and the label check before the query; EE, EX and DN query at once |
| Clpb.Reasoning | argmat-clpb/ClpbProblem.hpp:246-284 | the task goes to the built reasoner's own dispatch (grounded, conflict-free, stable or admissible); the complete reasoner's tasks are delegated; only the grounded EX writes "Unimplemented!", and the grounded reasoner never delegates |
| Clpb.Solve | argmat-clpb/ClpbProblem.hpp:181-244 | a short code is refused; PR writes nothing; an unknown semantics is refused; an option the CF, ST or AD table does not know is refused with that table's message before the task is looked at; once a reasoner is built, an unknown task is refused and a known one goes to `Reasoning` with that reasoner: GR to the grounded dispatch, CF, ST and AD to theirs with the predicate their table selects |

## Left out

- Prolog: the queries to SWI-Prolog are not modelled, because their semantics are foreign calls.
  - This covers `PlReasoner` and the tasks that query it: EE, EX and EC of the conflict-free reasoner; EE, EX, EC, SC, SE, DN, DC and DS of the stable one; EE, EX, EC, SC, DN and DC of the admissible one; and every task of the complete one.
  - The tasks these reasoners answer locally are modelled: DE of the stable reasoner, and DE, SE and DS of the admissible one.
  - A querying task returns `Delegated` after the usage and label checks the source makes before its query (`Clpb.Delegating`). The complete reasoner's checks are not modelled, since `CompletePlReasoner.hpp` is not part of this model.
- I/O:
  - reading the framework file (`loadDungAF`, the parser);
  - opening the output file;
  - the help, version and option texts;
  - stream redirection (`setOutput`).
  
  Printing is modelled as returning the text.
- Termination through `exit(1)` is modelled as a `Fail` carrying the message the source writes to standard error.
- `DungAF` argument and attack properties (titles, descriptions, float weights), `showSet`, `label_ext2bv_ext` and `getArgumentProperty`/`getAttackProperty` are not modelled: they touch none of the engine's semantics.
- Boost graph storage is replaced by a label table in index order plus a set of index pairs.
  - A duplicate label returns the existing vertex.
  - The edge set is walked in (source, target) order.
- `Dung.DungAF.AddAttack`: when both labels are new, the attacker is taken to get the lower index. C++ leaves the order of the two `add_vertex` calls unspecified.
- `Dung.DungAF.OutputBvSet`: it takes the extensions in a given order, because the ordering of `std::set<bitvector>` (dynamic_bitset comparison) is not modelled.
- `Clpb.SelectReasoner`: CO accepts every full option, because `CompletePlReasoner.hpp` is not part of this model and its option table is unknown.
- `LabelOrder.SortedLabels`: characters are compared as Dafny characters (by code point). `std::string` compares through `char_traits<char>::lt`, which compares as `unsigned char`, and UTF-8 byte order is code-point order, so the orders agree.
- `Dung.DungAF.AddAttackByIndex`: a duplicate attack returns `false` and changes nothing. The source asserts that the edge was inserted, so a debug build aborts there; with assertions off it carries on as modelled.
- `Dung.DungAF.Bv2LabelSet` and `Dung.DungAF.OutputBv` require `|bv| == |labels|`. The source does not check this; every caller passes a vector of the framework's size.
- `Bitmatrix.BitMatrix.MulVec` requires at least as many rows as columns. The source's loop reads row i for every column i, which is undefined behaviour otherwise.
- `Preferred.PreferredReasoner.FindPreferredExtensions`: the proved guarantees are listed below. Not proved: that every preferred extension is recorded (completeness), and that the recorded sets are maximal among admissible sets. Both are claims about the whole search tree: that every pruned branch (the look-ahead and the TYPE_A choice) loses no preferred extension, and that the branch order finds a larger set before its subsets. They need an invariant relating each node to all the admissible sets below it, which the model does not state.
  - Soundness: every recorded set is admissible, extends IN and avoids OUT.
  - IN and OUT only grow, and BLANK only shrinks.
  - Termination.
  - The leaf rule, the immediate-abandon rule and first-leaf recording.
- `Preferred.PreferredReasoner.ComputeExtensions`: the same gap, for the same reason; recorded sets are proved admissible, not preferred.
- The preprocessing is a function on a value. The source's five by-reference `|=` and `-=` updates are straight-line, so no intermediate state is observable. The by-reference label sets of the recursive search are modelled by returning the final labelling.
- The preferred reasoner is not reached from `Clpb.Solve`, since the PR semantics builds no reasoner in the source.
- `Clpb.ClpbProblem.ParseAdditionalParams`: on a malformed list the state at exit is not specified, since the program ends. The source has inserted the earlier pieces by then.
- Integer widths: `size_type` indices and counts are unbounded naturals. No framework the engine can hold comes near their limits.

## Findings

| source | as written | input that shows it | evidently intended | confidence | as-written member | corrected member |
|---|---|---|---|---|---|---|
| dung_theory/PreferredReasoner.hpp:115-132 | `preprocessing` puts every self-attacking argument in UNDEC and, separately, every argument attacked by an unattacked one in OUT. An argument in both sets then carries two labels. Expanding an argument it attacks moves it to MUST_OUT while it is still OUT, and the look-ahead then fails. | a attacks x, x attacks itself, x attacks b. Preprocessing gives IN {a}, OUT {x}, UNDEC {x}, BLANK {b}. b is forced (TYPE_A), its child has x in MUST_OUT with no BLANK attacker, and the search returns. No extension is recorded, although {a, b} is preferred. | each argument carries exactly one label, so OUT is removed from UNDEC (`_undec -= _out`). The search then reaches the leaf {a, b}. | not executed | Preferred.AsWrittenMissesPreferred | Preferred.CorrectedFindsPreferred |
