# Verified model of the Espresso logic minimiser, with two companions

The Dafny files here model the two-level logic minimiser in `tools/sis/espresso`
of the repository, and prove what its routines compute.  Two small independent
algorithms of the same repository are modelled beside it: the enumeration of cube
faces in `tools/sis/nova/comb_objects.c`, and the linked-list merge sort in
`testbench/asm/cmark.c`.

## How to read it

A **part** is one value of one multiple-valued variable, a **cube** is a set of
parts, and a **minterm** picks one value for every variable.  A minterm lies in a
cube when all its parts do.  A **cover** is a list of cubes with the flags of their
header words, and denotes the set of minterms that lie in some cube.  Nearly every
routine rewrites a cover, and the theorems say what happens to that set.

A **cube list** (`T` in the program) carries in `T[0]`, called `cof` here, the parts
already cofactored away.  A result for a cube list speaks about the minterms outside
`cof`.  Every cube in a list has an identity, because cofactoring skips the cube
itself and not an equal one.

Heuristic choices (which column, which order, which split, which part) are left
open: the model allows every legal choice, and legality is proved.

| files | what they hold |
|---|---|
| Counting, Cubes, CubeLists, Splitting, Rows | cubes, minterms, distance, cofactors, column counts, splitting, component partition |
| Tautology, Sccc, Reduce, FindTautology, Irredundant | tautology, smallest cube containing the complement, reduce, irredundant |
| Covering, CoveringSplits, Stars, Cores, SparseMatrix, Dominance, Bounding, Mincov | minimum covering by branch and bound, and the matrices that the reductions solve |
| SortedList, LinkedMatrix | the linked matrix under it |
| Unravel, Raising, Expand, Gasp | expansion against the OFF-set and the last gasp |
| Essential, Sparse, Families, Espresso | essential primes, sparse reduction, the whole minimiser |
| Unate, UnateMap, Merging, Complement | minimal transversals, complement, simplify |
| SetOrder, Selections, Containment, Union, Inactive, Primes, PrimesExact, Sharp | containment, contained union, all primes and when the result is exactly those, sharp operations |
| Words, Packed, PackedUpdate | the word-parallel cube operations |
| Faces | enumeration of the faces of a cube |
| ListSort | the merge sort of a linked list |

## Properties that turned out to need a condition

- `expand` keeps a cover clear of the OFF-set when every cube to be expanded fits the
  OFF-set cubes that it can reach and that are at distance two or more: no binary
  variable is empty in the one and full in the other (`Expand.ExpandCover`).  The place
  where it matters is the covering over the unravelled sets of parts to lower, which an
  OFF-set cube at distance one never gets to.  For one cube and one OFF-set cube that it
  does not meet, every end of the expansion is clear exactly if they are at distance one
  or the cube fits (`Raising.PairExact`); `Raising.ChoiceExact` says the same of the
  covering step alone, whatever has been raised before.  `Expand.UnfitExpansion` is a run
  that goes wrong: over two binary variables, the cube without parts and one full OFF-set
  cube.  The minimiser as a whole expands cubes that it has changed before; there the
  condition is on the cover, that no binary variable is empty in one of its cubes and full
  in an OFF-set cube that denotes anything.  A cover without void cubes meets it.
- `expand1` asks for a part when none is free, and then inserts part number -1, exactly
  if no parts were lowered at the start, no OFF-set cube denotes anything, and more than
  500 of them have two empty variables or more (`Expand.Expansion.Expand1`;
  `Expand.ExpandCover` for a whole cover, which must also have a cube to expand).
- The essential test is exact for a prime when no cube of the two covers is empty in
  exactly one variable and at distance one from the prime (`Essential.EssentialIff`);
  other void cubes do no harm.  No such pair can be let off: every cube that is empty in
  exactly one variable and at distance one from c hides c, as an essential prime, for
  some don't-care cover (`Essential.OnceVoidHides`).
- `primes_consensus` gives every prime and only implicants for any list.  For a whole
  cover it gives exactly the primes, each once, if and only if the void cubes vanish: in a
  unate cover every cube lies in one that is not void, and if all cubes are empty in a
  common variable then each of them is empty in another one too (`PrimesExact.ExactPrimes`).
  When every part occurs and every variable has two values or more, that holds whatever
  cubes are void (`PrimesExact.EveryPartExact`).  The equivalence is for covers that the
  recursion does not split, and for those it splits when every part that no cube has is of
  a variable in which all cubes agree, or of the one split first.  Outside of that a void
  cube can be left although the cover has none: `PrimesExact.MissingPartVoid`
  shows it for two cubes over two variables of three values.
- The covering with the heuristic switched on is a least one without weights when the rows
  make up stars (rows with a common column that share nothing with the others), paths and
  cycles, rows that contain others aside (`Mincov.MinimumCover`).  Both users of that mode
  inherit it: irredundant (`Irredundant.MarkIrredundant`) and the choice of the parts to
  lower in expand (`Raising.ChoiceLeast`).
- The column choice of the unate complement always finds a column with positive
  weight for up to 1025 columns, since the weight of a set of size k is
  1024 / (k - 1) in integers; `Unate.BoundTight` shows that the bound cannot be raised.

## Model

| member | source | states |
|---|---|---|
| Cubes.MeetsIffCommonMinterm | tools/sis/espresso/setc.c:62-98 | two cubes are at distance 0 exactly when some minterm lies in both |
| CubeLists.Cofactor | tools/sis/espresso/cofactor.c:34-81 | the list keeps, in order, exactly the cubes other than c itself that meet c, and cofactors away what c lacks |
| CubeLists.Scofactor | tools/sis/espresso/cofactor.c:84-126 | for a cube active in one variable it keeps exactly the cubes that touch it there |
| CubeLists.CofactorMeaning | tools/sis/espresso/cofactor.c:34-81 | the cofactor of a cover against a non-void cube denotes the minterms of that cube, and covers of them exactly those that another cube covers |
| CubeLists.MassiveCount | tools/sis/espresso/cofactor.c:128-251 | the counts of zeros per part, active parts per variable, active and unate variables are right, and the best variable is an active one with the most active parts |
| Splitting.BinateSplitSelect | tools/sis/espresso/cofactor.c:253-281 | the parts of the chosen variable outside T[0] are divided into two non-empty halves in part order |
| Splitting.SplitLegal | tools/sis/espresso/cofactor.c:128-281 | a cover that is not unate has at least two parts outside T[0] in the best variable, so a split always makes sense |
| Splitting.SplitProgress | tools/sis/espresso/cofactor.c:253-281 | both halves of a split leave fewer parts outside T[0], and none of them is dead |
| Splitting.HalfCovers | tools/sis/espresso/cofactor.c:84-126 | a minterm of one half is covered by the half's list exactly when the whole list covers it |
| Splitting.CubelistPartition | tools/sis/espresso/cvrm.c:227-304 | the two lists share no active variable and together hold exactly the cubes; 0 exactly if nothing divides the cubes into two parts without a common active variable |
| Tautology.UnateNotTautology | tools/sis/espresso/irred.c:242-328 | a unate list without a full row misses some minterm |
| Tautology.OneVariableIsTautology | tools/sis/espresso/irred.c:242-328 | one active variable and no empty column: everything is covered |
| Tautology.Components | tools/sis/espresso/irred.c:305-325 | a list that falls apart is a tautology exactly when one of its components is |
| Tautology.TautSpecialCases | tools/sis/espresso/irred.c:242-328 | a definite answer is the right one, and the reduction by unate variables does not change the question |
| Tautology.Tautology | tools/sis/espresso/irred.c:211-240 | TRUE exactly when every minterm outside T[0] is covered, for every list, and it terminates |
| Tautology.CubeIsCovered | tools/sis/espresso/irred.c:203-208 | a cube is covered exactly when every minterm of it lies in another cube of the list |
| Sccc.ScccCube | tools/sis/espresso/reduce.c:150-175 | takes away the parts of the one active variable, and nothing for a cube with several |
| Sccc.SplitSccc | tools/sis/espresso/reduce.c:108-147 | the smallest cubes of the two halves, each cut to its side of the split and joined, make the smallest cube containing the complement of the whole list |
| Sccc.ScccSpecialCases | tools/sis/espresso/reduce.c:178-258 | a definite answer is the smallest cube containing the complement |
| Sccc.SmallestCube | tools/sis/espresso/reduce.c:108-133 | a part is in the result exactly when some uncovered minterm outside T[0] goes through it |
| Reduce.ReduceCube | tools/sis/espresso/reduce.c:97-105 | a part stays exactly when some minterm of the cube through it lies in no other cube |
| Reduce.SmallestReduction | tools/sis/espresso/reduce.c:97-105 | that makes the result the smallest cube holding the minterms that no other cube covers, and empty if there is none |
| Reduce.ReduceCover | tools/sis/espresso/reduce.c:53-95 | the pass that overwrites the cubes one after the other leaves the minterms of F and D together unchanged, no remaining cube can be reduced further, those marked prime were not reduced, and no variable becomes empty that no cube of F is empty in |
| Irredundant.IrredSplitCover | tools/sis/espresso/irred.c:81-143 | relatively essential, totally and partially redundant cubes are told apart exactly |
| FindTautology.FTautSpecialCases | tools/sis/espresso/irred.c:373-440 | rows added in a special case say how the subspace can be covered; otherwise the reduced list shadows the given one |
| FindTautology.FTautology | tools/sis/espresso/irred.c:340-371 | the derived rows list exactly the ways in which redundant cubes can cover what the certain ones leave open |
| Irredundant.TableExact | tools/sis/espresso/irred.c:146-200 | a choice of partially redundant cubes meets every row of the table exactly when it covers every minterm left open, although processed cubes count as certain and dominated rows are dropped on the way |
| Irredundant.ReduceTable | tools/sis/espresso/irred.c:190-196 | dropping dominated rows does not change which choices meet all rows |
| Irredundant.IrredDeriveTable | tools/sis/espresso/irred.c:146-200 | the table built cube by cube is one for which `TableExact` holds |
| Irredundant.MarkIrredundant | tools/sis/espresso/irred.c:31-78 | the cubes left active cover with D every minterm of F, every relatively essential cube stays, no totally redundant one does; beside the relatively essential cubes at most one is kept if one is enough, and as few as possible if the least sets of cubes that hold a minterm left open make up stars, paths and cycles |
| Irredundant.IrredundantCover | tools/sis/espresso/irred.c:20-29 | exactly the marked cubes, once and in their order: a subset of F that with D covers every minterm of F |
| Covering.RowDominated | tools/sis/espresso/dominate.c:13-52 | a row that contains another one can be deleted without changing the optimum |
| Covering.ColDominated | tools/sis/espresso/dominate.c:54-98 | a column no better than another one can be deleted without changing the optimum |
| Covering.Essential | tools/sis/espresso/mincov.c:324-363 | the only column of a row can be selected, and lowers the optimum by its weight |
| Dominance.RowDominance | tools/sis/espresso/dominate.c:13-52 | deletes only dominated rows, keeps the optimum, and 0 means that no row is dominated |
| Dominance.ColDominance | tools/sis/espresso/dominate.c:54-98 | deletes only dominated columns and keeps the optimum; 0 means that no column is dominated |
| Dominance.SelectEssential | tools/sis/espresso/mincov.c:324-363 | repeats both dominances and essential selection; matrix and selection together keep the optimum, and below the bound no row or column is dominated in the end |
| Cores.CoreFloor | tools/sis/espresso/dominate.c:13-52 | deleting rows, as long as something inside each row that is left stays inside it, leaves stars, paths and cycles what they are, up to rows that contain others |
| Cores.CoreWithout | tools/sis/espresso/dominate.c:54-98 | so does deleting a dominated column |
| CoveringSplits.BranchBound | tools/sis/espresso/mincov.c:205-262 | a lower bound holds for the matrix exactly when it holds for both branches on a column |
| CoveringSplits.BlockBound | tools/sis/espresso/mincov.c:172-202 | lower bounds of two blocks without a common column add up |
| CoveringSplits.GimpelBound | tools/sis/espresso/gimpel.c:66-102 | the optimum of a matrix with the shape of Gimpel's reduction is that of the rewritten matrix plus 1 |
| CoveringSplits.GimpelExtends | tools/sis/espresso/gimpel.c:80-100 | a cover of the rewritten matrix becomes one of the matrix by adding c2 if it meets the rest of the secondary row, else c1 |
| Stars.GimpelEasy | tools/sis/espresso/gimpel.c:66-102 | Gimpel's reduction turns paths and cycles into paths and cycles |
| Stars.CentresNeeded | tools/sis/espresso/mincov.c:30-104 | columns that meet all rows of some stars are no fewer than the stars |
| Bounding.BuildIntersectionMatrix | tools/sis/espresso/indep.c:98-134 | row i lists exactly the rows that share a column with row i |
| Bounding.MaximalIndependentSet | tools/sis/espresso/indep.c:40-96 | rows no two of which share a column, near every other row; the weight returned is the sum of the least weights in them, a lower bound for every cover |
| Bounding.VisitRow | tools/sis/espresso/part.c:28-53 | flags the row and nothing that a partition into blocks could separate from it; TRUE only when all rows or all columns have been visited, FALSE only when everything reachable from the row has been |
| Bounding.BlockPartition | tools/sis/espresso/part.c:84-122 | TRUE with two smaller matrices without a common column that together are the matrix; FALSE only if nothing divides the matrix in two |
| SparseMatrix.Solution.Accept | tools/sis/espresso/solution.c:58-76 | the column is selected, its weight added, and exactly the rows it meets are deleted |
| Mincov.FindGimpel | tools/sis/espresso/gimpel.c:39-64 | a pair of rows found has the shape the reduction needs; none is missed |
| Mincov.GimpelRewrite | tools/sis/espresso/gimpel.c:66-86 | the matrix becomes the rewritten one of the bound lemma |
| Mincov.GimpelReduce | tools/sis/espresso/gimpel.c:25-106 | solving the rewritten matrix and putting back one column answers the question for the original one |
| Mincov.SolveBlocks | tools/sis/espresso/mincov.c:172-202 | solving the smaller block first and the other with what is left of the bound answers for the whole |
| Mincov.Search | tools/sis/espresso/mincov.c:106-160 | a solution returned extends the selection to a cover; if it is missing no cover beats the bound; in the exact mode its cost is optimal |
| Mincov.Split | tools/sis/espresso/mincov.c:205-262 | the two branches on a column, with the bound lowered after the first and the early stop at the lower bound, answer for the matrix |
| Mincov.MinimumCover | tools/sis/espresso/mincov.c:30-104 | columns that meet every row, no more of them than rows, and with heuristic 0 of least total weight over all covers; with heuristic 1 and no weights too, if the rows make up stars, paths and cycles, up to rows that contain others, and one column for each star then |
| SortedList.SortedInsert | tools/sis/espresso/sparse_int.h:31-68 | the list gets the value in its place, or the object that has it already is returned and nothing changes |
| SortedList.DllUnlink | tools/sis/espresso/sparse_int.h:71-86 | exactly that object leaves a list that stays well linked in both directions with the right count |
| SortedList.Find | tools/sis/espresso/rows.c:138-156 | finds the object exactly when the value is in the list |
| SortedList.Contains | tools/sis/espresso/rows.c:158-180 | one pass over two sorted lists decides inclusion |
| SortedList.Intersects | tools/sis/espresso/rows.c:183-208 | one pass over two sorted lists decides whether they share a value |
| LinkedMatrix.Matrix.Insert | tools/sis/espresso/matrix.c:151-198 | the position joins the matrix once, and rows and columns stay sorted and agree |
| LinkedMatrix.Matrix.FindElement | tools/sis/espresso/matrix.c:200-223 | returns the element exactly when the position is in the matrix |
| LinkedMatrix.Matrix.RemoveElement | tools/sis/espresso/matrix.c:234-267 | exactly that position goes, and headers left empty go with it |
| LinkedMatrix.Matrix.Remove | tools/sis/espresso/matrix.c:226-232 | removes the position if it is there |
| LinkedMatrix.Matrix.DelRow | tools/sis/espresso/matrix.c:269-301 | exactly the positions of the row go, with the columns this leaves empty |
| LinkedMatrix.Matrix.DelCol | tools/sis/espresso/matrix.c:303-335 | exactly the positions of the column go, with the rows this leaves empty |
| LinkedMatrix.Matrix.Dup | tools/sis/espresso/matrix.c:100-118 | a well formed new matrix with the same positions |
| LinkedMatrix.Matrix.CopyRow | tools/sis/espresso/matrix.c:337-348 | the positions of the row are added to the other matrix |
| LinkedMatrix.DeleteLine | tools/sis/espresso/matrix.c:269-335 | walking along a line and unlinking from the crossing lines keeps both directions in agreement |
| LinkedMatrix.RowGone | tools/sis/espresso/matrix.c:269-301 | on the covering problem, deleting a linked row is deleting the row |
| LinkedMatrix.ColumnGone | tools/sis/espresso/matrix.c:303-335 | on the covering problem, deleting a linked column takes it from every row and drops empty rows |
| Unravel.UnravelCube | tools/sis/espresso/cvrm.c:18-71 | every choice of one part per unravelled variable gives exactly one set, and their number is the product |
| Unravel.UnravelMeaning | tools/sis/espresso/cvrm.c:73-107 | unravelling keeps the minterms of a cube |
| Unravel.UnravelSets | tools/sis/espresso/cvrm.c:73-107 | every set of the family is unravelled, nothing else is added, and the number of sets is the sum of the products |
| Unravel.SmMinimumCover | tools/sis/espresso/sminterf.c:13-44 | parts of the given sets that meet every one that is not empty, no more of them than sets, and as few as possible if the sets make up stars, paths and cycles, up to sets that contain others |
| Raising.NearLowers | tools/sis/espresso/expand.c:200-246 | at distance one, the parts forced low are exactly those that would make the cubes meet |
| Raising.LoweredApart | tools/sis/espresso/expand.c:200-246 | without those parts the cubes can never meet again |
| Raising.RoundEnd | tools/sis/espresso/expand.c:200-246 | after the pass over the OFF-set, active cubes are at distance two or more, inactive ones out of reach, and a free part was lowered exactly if raising it alone would meet the OFF-set |
| Raising.NothingFree | tools/sis/espresso/expand.c:332-362 | with OFF-set cubes active nothing is free only once the cube is full, and then no OFF-set cube denotes anything and each active one has two empty variables or more |
| Raising.ChoiceClears | tools/sis/espresso/expand.c:547-609 | so it keeps the whole OFF-set away from a cube that fits the OFF-set cubes in its reach at distance two or more |
| Raising.TooMany | tools/sis/espresso/expand.c:583-595 | the count stops exactly when unravelling would give more than 500 sets altogether |
| Raising.PairExact | tools/sis/espresso/expand.c:130-192 | one cube against one OFF-set cube that it does not meet: whatever set of parts the covering finds, the expanded cube stays clear, exactly when the two are at distance one or no binary variable is empty in the one and full in the other |
| Raising.ChoiceExact | tools/sis/espresso/expand.c:547-609 | every set of parts that meets all unravelled sets keeps an OFF-set cube in reach away, exactly when no binary variable is empty in the cube being raised and full in the OFF-set cube |
| Raising.ChoiceLeast | tools/sis/espresso/expand.c:547-609 | a least choice leaves out no more parts than any cube that keeps away from the active OFF-set cubes, if these are not void and the unravelled sets are easy in that sense |
| Expand.Expansion.EssenParts | tools/sis/espresso/expand.c:200-246 | fails exactly when the cube meets the OFF-set; otherwise lowers exactly the parts that may not be raised |
| Expand.Expansion.EssenRaising | tools/sis/espresso/expand.c:249-274 | raises exactly the free parts that no active OFF-set cube has |
| Expand.Expansion.ElimLowering | tools/sis/espresso/expand.c:277-325 | deactivates exactly the OFF-set cubes that can no longer be met and the ON-set cubes that can no longer be covered |
| Expand.Expansion.FeasiblyCovered | tools/sis/espresso/expand.c:509-544 | a cube can feasibly be covered exactly when the supercube stays clear of the active OFF-set; the lowered parts are exact too |
| Expand.Expansion.SelectFeasible | tools/sis/espresso/expand.c:393-506 | the cube stays clear of the OFF-set, and in the end every remaining ON-set cube would run into it |
| Expand.Expansion.CoverBest | tools/sis/espresso/expand.c:471-503 | raises exactly a feasible cube after which as many as possible stay feasible, and of those one with the fewest parts to raise |
| Expand.Expansion.MostFrequent | tools/sis/espresso/expand.c:328-362 | a free part that the most active ON-set cubes have; none only if nothing is free |
| Expand.Expansion.RaiseFrequent | tools/sis/espresso/expand.c:176-182 | raises exactly one free part that no other free part is more frequent than, and lowers only what would run into the OFF-set |
| Expand.Expansion.CoverOnset | tools/sis/espresso/expand.c:155-171 | there is always a part left to raise while an ON-set cube is in reach |
| Expand.Expansion.CoverOffset | tools/sis/espresso/expand.c:547-619 | lowers a set of parts that clears the OFF-set for a cube that fits what it can reach of it at distance two or more, or raises one part; up to 500 sets to meet everything free is raised but for the chosen parts, a least choice if the sets are easy; fails only where the OFF-set stalls the expansion, and there it only ever raises single parts |
| Expand.Expansion.Expand1 | tools/sis/espresso/expand.c:130-192 | the result contains the cube and, if the cube fits the OFF-set cubes in its reach at distance two or more, meets no OFF-set cube; every part left out is of an OFF-set cube, in a variable where that did not meet the cube, and makes the result run into the OFF-set or is one of at most 500 chosen in the covering; every ON-set candidate is covered in the end, or runs into the OFF-set, or was out of reach; the fatal exit means that the cube met an OFF-set cube; a part is asked for when none is free exactly if the OFF-set stalls the expansion and nothing is lowered first; with nothing lowered by force and nothing to cover, the result lacks no more parts than there are sets to meet |
| Expand.UnfitExpansion | tools/sis/espresso/expand.c:130-192 | on a cube without parts and an OFF-set of one full cube, over two binary variables, F and R share no minterm, the expansion succeeds, and the expanded cube meets R, whichever parts the covering picks |
| Expand.ExpandCover | tools/sis/espresso/expand.c:45-127 | for F disjoint from R the fatal exit is not reached; if every cube to be expanded also fits the cubes of R in its reach at distance two or more, the result is disjoint from R; every input cube lies in a cube of the result, and all its cubes are marked prime; each was prime before or is expanded as far as `Expand1` goes, and of two of these one could not have been covered by the other; a part is asked for when none is free exactly if R stalls the expansion, nothing is lowered first and some cube is to be expanded |
| Gasp.ReduceGasp | tools/sis/espresso/gasp.c:34-70 | every cube is reduced against all the others, and stays prime only if nothing changed; the fatal exit means that some cube was superfluous |
| Gasp.EssentialInside | tools/sis/espresso/gasp.c:150-170 | what c2 still needs after c1 was reduced lies in c1 and in what c2 needed before |
| Gasp.CandidateClear | tools/sis/espresso/gasp.c:140-175 | checking the active OFF-set cubes only is enough for the new cube to meet none |
| Gasp.Expand1Gasp | tools/sis/espresso/gasp.c:100-186 | every candidate holds the reduced c1 and makes another cube redundant, and is disjoint from R when the cover is; and for every other cube that is not prime, if the reduced c1 with what that cube then needs meets no OFF-set cube, some candidate holds both |
| Gasp.AllCandidates | tools/sis/espresso/gasp.c:73-92 | so it is for every c1: no candidate is missed |
| Gasp.ExpandGasp | tools/sis/espresso/gasp.c:73-97 | the candidates, none missed, become primes that hold a candidate, expanded as far as that goes, have values wherever F has them, and keep clear of R if F does and fits it |
| Gasp.IrredGasp | tools/sis/espresso/gasp.c:188-197 | an irredundant choice from F and the new primes, or F if there are none; it keeps the minterms of F covered |
| Gasp.LastGasp | tools/sis/espresso/gasp.c:200-212 | the result is chosen from F and the primes that all candidates of the reduced cubes become, covers with D every minterm of F, has values wherever F has them, and is disjoint from R when F is and fits it |
| Essential.CbConsensusDist0 | tools/sis/espresso/essen.c:136-179 | for a cube that meets c, the cubes added hold exactly the minterms of c with a neighbour outside c in it, or that it reaches |
| Essential.CbConsensus | tools/sis/espresso/essen.c:103-133 | the cover holds exactly the minterms of c that some cube reaches |
| Essential.EssenCube | tools/sis/espresso/essen.c:73-100 | for a prime of F and D, TRUE exactly when it is essential, as long as no cube is empty in exactly one variable and at distance one from it |
| Essential.EssentialIff | tools/sis/espresso/essen.c:73-100 | under that condition a prime is essential exactly when some minterm of it outside D has no neighbour outside it in F and D |
| Essential.OnceVoidHides | tools/sis/espresso/essen.c:73-100 | every cube that is empty in exactly one variable and at distance one from c hides c, which is an essential prime of the two cubes for some don't cares |
| Essential.EssentialCubes | tools/sis/espresso/essen.c:22-69 | the essential cubes move from F to E and D, and no minterm is lost |
| Sparse.ReducePart | tools/sis/espresso/sparse.c:76-120 | dropping one part keeps the minterms; in a cube that is not void the part stays, if it may be dropped at all, only for a reason: some minterm of the cube through it lies neither in D nor in another cube that is essential at the part |
| Sparse.MvReduce | tools/sis/espresso/sparse.c:46-146 | sparse reduction keeps the minterms of F and D together and drops only cubes without a part in a sparse variable; full variables stay full but for the output; every part of a sparse variable that is left had such a reason when its turn came |
| Sparse.OneSparse | tools/sis/espresso/sparse.c:46-146 | with one sparse variable that is a reason in the cover given to begin with |
| Unate.AbsSelectRestricted | tools/sis/espresso/unate.c:410-441 | no column is chosen exactly when none to choose from has positive weight |
| Unate.SplitColumn | tools/sis/espresso/unate.c:187-217 | the solutions with a column and those without it are all solutions |
| Unate.EssentialColumns | tools/sis/espresso/unate.c:165-186 | columns of sets of one element belong to every solution |
| Unate.UnateComplement | tools/sis/espresso/unate.c:135-221 | every result meets all sets, every minimal one is among them, and the fatal exit takes more than 1025 columns |
| Unate.BoundTight | tools/sis/espresso/unate.c:410-441 | over more than 1025 columns two sets exist for which no column has positive weight, so the choice fails |
| Unate.UnateCompl | tools/sis/espresso/unate.c:111-132 | exactly the inclusion-minimal sets meeting every member, each once, for up to 1025 columns |
| UnateMap.UncoveredMeets | tools/sis/espresso/unate.c:15-59 | a minterm is uncovered exactly when its missing columns meet every row of the family |
| UnateMap.UnateMeaning | tools/sis/espresso/unate.c:15-108 | mapping, minimal transversals and mapping back give the complement of a unate list |
| Merging.D1Orders | tools/sis/espresso/setc.c:449-461 | the comparison of cubes outside the variable is an order, and 0 exactly if they agree |
| Merging.ComplD1Merge | tools/sis/espresso/compl.c:369-392 | of two sorted lists, a cube of the right one leaves it exactly if one of the left list agrees with it outside the variable, and such a one takes it up; no minterm is lost, and none added that is not in the complement |
| Merging.ComplLift | tools/sis/espresso/compl.c:258-290 | exactly the active cubes that lie in a cube of the other side when moved there are raised, which stays within the complement |
| Merging.ComplLiftOnset | tools/sis/espresso/compl.c:293-327 | exactly the active cubes that then meet no cube of the list are raised, which stays within the complement |
| Merging.ComplMerge | tools/sis/espresso/compl.c:155-255 | with any lifting the merge of two exact halves is exact for the whole; cubes of both halves that agree are joined, the others raised if they pass the test, and nothing else is in the result |
| Complement.ComplCube | tools/sis/espresso/compl.c:395-419 | one cube per variable in which the cube is not full |
| Complement.DeMorgan | tools/sis/espresso/compl.c:395-419 | those cubes hold exactly the minterms outside the cube |
| Complement.CeilComplement | tools/sis/espresso/compl.c:103-128 | factoring out the columns of zeros is exact |
| Complement.Complement | tools/sis/espresso/compl.c:44-152 | exact outside T[0]: a minterm there is in the result exactly when the list does not cover it |
| Complement.ComplementCover | tools/sis/espresso/compl.c:44-84 | the result is disjoint from the cover, together they are the universe, and it has values in every variable in which all given cubes have one, so no void cube if they have none |
| Complement.Simplify | tools/sis/espresso/compl.c:562-680 | the result has exactly the minterms of the list, no more cubes, and values in every variable in which all cubes of the list have one; of a unate list it has no cube inside another |
| SetOrder.DescendOrder | tools/sis/espresso/setc.c:403-417 | the comparison by size and bits is a strict total order, and equal only for equal sets |
| Containment.SfSort | tools/sis/espresso/contain.c:322-340 | the same cubes in that order |
| Containment.RmEqual | tools/sis/espresso/contain.c:192-207 | in place, exactly one copy of every cube stays |
| Containment.RmContain | tools/sis/espresso/contain.c:210-235 | in place, exactly the maximal cubes stay although only larger ones are compared |
| Containment.SfContain | tools/sis/espresso/contain.c:28-47 | no cube of the result contains another, every input cube lies in one, and the result is sorted |
| Containment.SfDupl | tools/sis/espresso/contain.c:95-108 | the same cubes without duplicates |
| Union.Rm2Equal | tools/sis/espresso/contain.c:266-293 | in place on both arrays: sets in both move out, all others stay in order; sorted arrays have nothing in common afterwards |
| Union.Rm2Contain | tools/sis/espresso/contain.c:296-318 | in place: what goes lies in a set of the other array, and for arrays sorted by size no larger one contains what stays |
| Union.SiftBoth | tools/sis/espresso/contain.c:126-127 | in either order of the two passes, which C leaves open, what goes lies in a set that stays |
| Union.SfMerge | tools/sis/espresso/contain.c:399-441 | all sets of the three lists, in order if they were |
| Union.SfUnion | tools/sis/espresso/contain.c:111-131 | whatever the headers say, every set lies in one of the result; with correct headers and sorted families without containment the result is one too |
| Primes.UnateInside | tools/sis/espresso/primes.c:104-109 | an implicant of a unate list lies in one of its cubes |
| Primes.PrimeMerged | tools/sis/espresso/primes.c:117-151 | a prime lies in one half, or in the consensus of a cube from each |
| Primes.CeilPrimes | tools/sis/espresso/primes.c:71-92 | factoring out columns of zeros loses no prime and adds only implicants |
| Primes.PrimesConsensusMerge | tools/sis/espresso/primes.c:117-151 | sound, complete and without containment or void cubes, and the consensus of every pair at distance one lies in a cube of the result |
| Primes.PrimesConsensus | tools/sis/espresso/primes.c:18-115 | only implicants, and every prime lies in a cube of the result |
| Primes.ClearedAnswers | tools/sis/espresso/primes.c:18-115 | variables in which every cube is full play no part: implicants that hold all primes of the list with those variables set free do so for the list itself |
| PrimesExact.ExactPrimes | tools/sis/espresso/primes.c:18-115 | the result for a cover is exactly its primes, each once, if and only if its void cubes vanish; if it is split, its cubes agree where a part is in none, but for the variable split first |
| PrimesExact.EveryPrime | tools/sis/espresso/primes.c:18-40 | for every cover, every prime is a cube of the result |
| PrimesExact.EveryPartExact | tools/sis/espresso/primes.c:18-40 | with every part in some cube and two values or more in every variable, the result is exactly the primes, whatever cubes are void |
| PrimesExact.MissingPartVoid | tools/sis/espresso/primes.c:71-92 | for two cubes without a void one, with a part in neither in a variable where they differ, the result holds a void cube |
| Espresso.ExpandIrredundant | tools/sis/espresso/espresso.c:75-80 | coverage, the number of cubes, and for a cover that fits R disjointness from R are kept; the result is an irredundant choice of cubes that are expanded as far as that goes |
| Espresso.InnerLoop | tools/sis/espresso/espresso.c:92-101 | reduce, expand and irredundant keep coverage, fit and disjointness, and the loop ends: with a cover whose last round did not lower the number of cubes |
| Espresso.OuterLoop | tools/sis/espresso/espresso.c:89-115 | so does the loop around it with the last gasp, for as many rounds as allowed: what is returned is what the last gasp made of a cover at rest, and no cheaper than that |
| Espresso.Setup | tools/sis/espresso/espresso.c:60-74 | recomputing and unwrapping the ON-set keep its minterms |
| Espresso.UnwrapOnset | tools/sis/espresso/espresso.c:67-70 | no cube of the result has more than one output part or lies in another one, and the minterms are kept |
| Espresso.MakeSparse | tools/sis/espresso/sparse.c:15-43 | sparse reduction and raising the dense parts again keep coverage, fit, disjointness from R and the number of cubes, for as many rounds as allowed; what is returned is a sparse cover at the same cost, or one with its dense parts raised, as the switches say |
| Espresso.Espresso | tools/sis/espresso/espresso.c:49-139 | a returned cover has no more cubes than F, covers with D every minterm of F, has values wherever F has them, and meets no cube of R when F meets none and fits R; it is what the loops came to rest at, with the essential cubes set aside and the sparse clean-up as the switches say, and without the clean-up every cube is expanded as far as that goes |
| Espresso.Minimise | tools/sis/espresso/espresso.c:49-139 | R is the complement of F and D; the result is that of `Espresso.Espresso`, covers F up to D, and nothing outside F and D if F fits R, as it does without void cubes; the other fatal errors are excluded then |
| Espresso.RipeHasFree | tools/sis/espresso/expand.c:249-274 | a cube expanded as far as that goes has every part that no cube of R has |
| Sharp.SharpCubes | tools/sis/espresso/sharp.c:77-97 | the result holds exactly the minterms of a outside b, and in one of its cubes every non-void cube inside a that does not meet b |
| Sharp.Dsharp | tools/sis/espresso/sharp.c:168-207 | the same in pairwise disjoint cubes inside a, none void if a is not |
| Sharp.Cb1Dsharp | tools/sis/espresso/sharp.c:145-165 | taking a cube from a disjoint family leaves a disjoint family of exactly the rest, though its union looks at sizes nobody has set |
| Sharp.CbDsharp | tools/sis/espresso/sharp.c:129-142 | what a cover leaves of a cube, in pairwise disjoint cubes |
| Sharp.MakeDisjoint | tools/sis/espresso/sharp.c:99-111 | pairwise disjoint cubes with exactly the minterms of the input, none void if the input has none |
| Sharp.CvIntersect | tools/sis/espresso/sharp.c:209-247 | exactly the common minterms, and in one cube what two cubes that meet have in common; sorted and without containment |
| Sharp.CbRecurSharp | tools/sis/espresso/sharp.c:48-74 | what the cubes of a range leave of c, by halving the range: as for a whole cover |
| Sharp.CbSharp | tools/sis/espresso/sharp.c:33-45 | exactly the minterms of c outside the cover, and in one cube every non-void cube inside c that meets no cube of the cover |
| Words.EmptyBits | tools/sis/espresso/setc.c:70-83 | the inverted or with the word shifted right marks exactly the pairs of the mask that are empty in x |
| Packed.MarksCount | tools/sis/espresso/setc.c:106-130 | as many bits are marked in a word as binary variables of it clash |
| Packed.NullVar | tools/sis/espresso/setc.c:85-95 | a multiple-valued variable is found empty exactly when the cubes clash in it |
| Packed.Cdist0 | tools/sis/espresso/setc.c:62-98 | TRUE exactly when the cubes meet, for any number of packed variables, the partial word included |
| Packed.Cdist01 | tools/sis/espresso/setc.c:100-144 | the number of clashing variables, or 2 if there are more |
| Packed.Cdist | tools/sis/espresso/setc.c:147-186 | the number of clashing variables |
| PackedUpdate.ForceLower | tools/sis/espresso/setc.c:188-228 | adds exactly the parts of a in the variables where a and b clash |
| PackedUpdate.PackedConsensus | tools/sis/espresso/setc.c:230-283 | the words hold the consensus of both cubes |
| PackedUpdate.CubeSetup | tools/sis/espresso/cubestr.c:20-71 | the layout, the masks and the partial word are what the operations rely on |
| Faces.Counting | tools/sis/nova/comb_objects.c:654-752 | the next number in base 2 at the fixed positions, cyclically, free positions unchanged |
| Faces.Combinations | tools/sis/nova/comb_objects.c:554-650 | the next choice of free positions in lexicographic order, cyclically, digits in their order |
| Faces.RankKnown | tools/sis/nova/comb_objects.c:554-650 | choices of equally many positions with one rank are equal |
| Faces.Face.GenNewcodeCat1 | tools/sis/nova/comb_objects.c:25-110 | each call up to the number of faces gives the code of its number, every later call none, and the branch without a result is not reached |
| Faces.EveryFaceOnce | tools/sis/nova/comb_objects.c:25-110 | the codes of the first 2^(n-k) * C(n,k) calls are exactly the k-dimensional faces, each once |
| ListSort.RegenBytes | testbench/asm/cmark.c:488-491 | as a number the regenerated data is 257 times the upper byte |
| ListSort.CmpIdxAnswers | testbench/asm/cmark.c:482-493 | comparing by index ranks two items by index, and however often they are compared their data is regenerated once: then both bytes are the upper one |
| ListSort.MergeRuns | testbench/asm/cmark.c:825-858 | with a comparison that ranks the nodes, two runs are merged in place, stably, and the rest of the list keeps its links |
| ListSort.Pass | testbench/asm/cmark.c:808-862 | a pass leaves sorted runs of twice the length and half as many of them |
| ListSort.CoreListMergesort | testbench/asm/cmark.c:801-871 | with any comparison that ranks the nodes by a total preorder: exactly the same nodes, relinked in the stable order, and with two nodes or more all data as comparing leaves it |
| ListSort.SortByIndex | testbench/asm/cmark.c:482-493 | sorting by index is stable and with two nodes or more leaves the upper byte of the data in both bytes on request, and otherwise the data as it is |
| ListSort.StableUnique | testbench/asm/cmark.c:801-871 | the stable order of a preorder is unique |

## Left out

- Expand.ExpandCover: for a cube that does not fit an OFF-set cube in its reach at distance two or more nothing is said about disjointness; it depends on which covering the greedy step finds, and the exact conditions are those of one OFF-set cube, in Raising.PairExact and Raising.ChoiceExact.
- Expand.Expansion.CoverOffset: the same holds for the single step.
- Expand.Expansion.Expand1: the same holds for a single cube.
- Gasp.ExpandGasp: disjointness from R only for a cover that fits R, since it expands.
- Gasp.LastGasp: disjointness from R only for a cover that fits R, since it expands.
- Essential.EssenCube: for a cube that is not a prime the contract says what the test computes, not that it is essential.
- PrimesExact.ExactPrimes: for a cover that is split and has a part in no cube, in a variable where its cubes differ and that is not split first, only soundness and completeness are claimed; whether a void cube is left depends on the order of the later splits.
- Mincov.MinimumCover: in the heuristic mode the cover is claimed to be a least one only without weights and for stars, paths and cycles; the column choice by floating-point weights is any column of an independent row; debug output and statistics are not modelled.
- Espresso.OuterLoop: it runs for at most a given number of rounds and otherwise reports Unfinished; the total cost may rise in the inner loop, so nothing in the program bounds the rounds.
- Espresso.MakeSparse: likewise.
- Espresso.Espresso: disjointness from R only for a cover that fits R; the cost-driven outer loops and the restart run for at most a given number of rounds and otherwise report Unfinished, so their termination is not claimed. A comment at espresso.c:124-128 says that only the unwrapping can make the result larger; the last gasp keeps a greedy choice and its result even when that is larger, so the model does not rely on it. Super gasp is not modelled.
- Espresso.Minimise: for a cover that does not fit its complement only coverage is claimed; the fatal exit for an empty reduction in the last gasp is not excluded; `Gasp.ReduceGasp` shows that it needs a superfluous cube after irredundant.
- Unate.UnateComplement: for families over more than 1025 columns nothing is claimed when the column choice fails.
- Primality and minimality of the heuristic results in general, since the covering used by expand and irredundant is greedy: a part that expand leaves out and that could still be raised is one chosen in the covering, and the covering is proved to be a least one where reductions alone find it.
- Cube orderings of expand and reduce, and the order of cubes that compare equal in the distance-one merge: every order is possible in the model.
- SortedList.SortedInsert: pointers are identities in a table of links, so aliasing is explicit but storage reuse is not modelled.
- LinkedMatrix.DeleteLine: the nested deletion of an empty crossing line is modelled as dropping its header, which is what it amounts to.
- SparseMatrix.Matrix.DelCol: the covering layer works on a map from rows to column sets; LinkedMatrix.RowGone and LinkedMatrix.ColumnGone tie it to the linked matrix.
- exact_minimum_cover, all_primes, super_gasp, simp_comp and the lifting of the complement against the complex ON-set.
- cv_sharp and cv_dsharp, which only take unions of the results proved here.
- cactive and ccommon on packed words (Sccc.Cactive has the set form), the header word of packed cubes, and the table behind count_ones.
- Unsigned words have 32 bits; the 16-bit configuration of the program is not modelled.
- Faces.Face.GenNewcodeCat1: counts are unbounded here, so overflow of the int counters for very large cubes is not modelled.
- ListSort.CoreListMergesort: a node and its data item are one object, and insize does not overflow; a comparison that answers differently for the same items, or touches others, is not covered, and the one that runs the other benchmarks is not part of this model.
- The other face generators and the backtracking search of nova, jedi, CoreMark's matrix and state parts, reading and writing of files, output phase assignment, pairing and symbolic mapping.
