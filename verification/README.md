# Decision procedures of an SMT solver

A Dafny model of the decision procedures and the term transformations of a pure-Rust SMT solver, with proofs of
what they are for: the SAT core, the bit-blaster, the CNF encoder, congruence closure, simplex, the RUP proof
checker, the GF(2) and mixed Boolean-arithmetic simplifiers, the term arena with its folder and rewriter, the
model validator, the composition of these in `check_sat` on bit-vector problems, and the binary file format.
`dafny verify dfyconfig.toml` checks everything.

## How it is laid out

- **SAT core.** `Lits` (literals, clauses, meaning), `Vsids`, `Trail`, `Watches`, `Invariant` (what every state of
  the search keeps), `Progress` (why the search ends), `Analysis` (first-UIP resolution), `History` (the conflicts of
  a search and what its restarts cost), `Solver` (the solver class and whole runs), `Restarts` (a restart that makes
  the answer wrong). `Drat` is the proof checker.
- **Bit-vectors.** `Bits` has the SMT-LIB operations of FixedSizeBitVectors and QF_BV on numbers and bit lists,
  `Gates` the gate clauses over an append-only clause set, `Circuits` the word circuits, `Semantics` the meaning of
  arena terms, `WordLaws` the same meaning as arithmetic on the numbers of the words, `Blast` the cached traversal of
  the term graph, `QfBv` blasting, solving and reading the model back. `Tseitin` encodes Boolean terms, and `Pipeline` composes encoder and SAT core.
- **Theories.** `Congruence`, `ProofForest`, `ProofPaths`, `EventLog` and `Euf` are congruence closure with scopes and
  explanations, and `EufMeaning` says what its answers mean for first-order structures; `LinearRows`, `Tableau` and
  `Simplex` are the simplex solver, `SimplexEqualities` the equalities it sees, `SimplexRuns` and `SimplexScopes`
  whole runs of it, and `SimplexLimits` three runs whose answers are wrong.
- **Terms.** `Codec`, `Arena` and `Binary` are the file format and the hash-consing arenas, `Format` the layout of the
  format byte by byte; `Builder`, `NatBits`, `Pairs`, `Folding` and `Rewriting` the smart constructors, the folder and
  the rewriter; `Values` and `Validator` concrete values and the model validator; `Engine` is `check_sat` on
  bit-vector problems.
- **MBA.** `Words`, `Gf2Linear` and `Gf2` are elimination on packed words; `MbaTerms` the terms, `Canonicalize`,
  `Zhegalkin` and `LinearMba` the three simplifiers, `CanonicalForms` the shape of what the first one returns, and
  `LinearMbaLaws` which terms the third one recognizes.

Code that works by changing things in place is modelled by classes and loops proved against functions of the old
state; code made of expressions by functions and lemmas.

## Where the code does less than it says

- A restart jumps to level 0 and then still asserts the first literal of a learned clause that is not a unit.
  `RestartLosesSoundness` gives satisfiable clauses and a state of the search, two decisions and a propagation
  from the empty trail, from which this leads straight to the answer that there is no model. In every run, an
  answer False means that no model makes all literals true that restarts asserted so (`Solve`, `DecideCnf`); each
  is the first literal of a learned clause of two or more (`LostAt`), at most one for each restart
  (`LostPerRestart`). With none of them, with or without restarts, False is right; True is right always.
- The equality engine does not look at the sign of a literal over a distinctness: asserted false, all its pairs are
  still taken to differ. `a = b` with `distinct(a, b)` false is refuted though satisfiable
  (`RefutedThoughSatisfiable`), and `a = b` and `distinct(a, b)` both false are accepted though unsatisfiable
  (`AcceptedThoughUnsatisfiable`). A conflict clause is valid in the theory exactly when the first disequality that
  the equalities break was not made from such a literal, if no literal stands for two terms; without such literals,
  and with equalities of two terms only, the engine decides satisfiability (`RunAndCheck`).
- `solve_simplex` exchanges variables but moves no value, so its `Ok` means feasible exactly when nothing was
  outside its bounds before the first exchange (`SolveSimplex`, `OkThoughUnsatisfiable`). Its `Err` is a Farkas
  refutation as long as no literal has been asserted over a variable that had become basic
  (`ConflictThoughSatisfiable` is a run where one has, and the conflict is wrong) or over one term twice
  (`SelfComparisonRefuted`).
- `BvSgt` and `BvSge` have no circuit: the blaster gives them a fresh variable (`SgtAnswer`).
- The validator gives signed comparisons, signed division, rotations and some others the default value of their
  sort. A satisfiable problem with such an assertion is never answered Sat (`SltNeverSat`), and an unsatisfiable one
  can be: `(not (bvsgt 1 0))` is (`SgtAnsweredSat`). `CheckSat` says exactly what Sat means.
- The Zhegalkin form reads two arguments of a conjunction or disjunction and drops the others (`ThirdArgumentLost`).
- De Morgan's laws are applied to arguments that have already been compared: normalizing `~(~(u|v) & (~v & ~u))`
  leaves a disjunction of two equal terms, and arguments out of order (`DuplicateLeft`). Where those laws never
  apply, nothing of the kind is left (`NormalizeReduced`).
- The linear MBA reduction takes every constant other than 0 for all ones (`OneIsNotAllOnes`), and the Zhegalkin
  form writes the constant 1 at every width (`SimplifiedMeaning`) and as a one-bit word among Booleans
  (`Simplify`); each result says exactly which inputs keep their meaning.

## Model

| member | source | states |
|---|---|---|
| Lits.LitEncodings | crates/smt-sat/src/lit.rs:46-98 | the packed word and the DIMACS integer both identify a literal, and negation flips the low bit of the word |
| Trails.Trail.AssignLit | crates/smt-sat/src/trail.rs:132-148 | assigning an undefined literal appends it at the current level with its reason and phase, and keeps the trail well formed |
| Trails.Trail.BacktrackToWith | crates/smt-sat/src/trail.rs:151-163 | undoes exactly the levels above the given one, keeps saved phases, and puts every variable it unassigns back in the heap |
| Trails.Trail.NextUnpropagated | crates/smt-sat/src/trail.rs:172-180 | hands out each trail literal once, in order |
| VsidsHeap.Vsids.Insert | crates/smt-sat/src/vsids.rs:52-60 | the variable is in the heap and no other comes or goes; the heap stays an indexed max-heap |
| VsidsHeap.Vsids.BumpVar | crates/smt-sat/src/vsids.rs:69-84 | one activity grows by the increment, everything is scaled down past the limit, and the heap order survives both |
| VsidsHeap.Vsids.PopMax | crates/smt-sat/src/vsids.rs:108-126 | removes a variable of greatest activity, and returns none only from an empty heap |
| VsidsHeap.Vsids.SelectDecisionVar | crates/smt-sat/src/vsids.rs:92-106 | none exactly when all variables are assigned; otherwise an unassigned variable, of greatest activity when the heap holds all unassigned ones |
| TwoWatched.MoveWatch | crates/smt-sat/src/solver.rs:222-240 | moving a watch to another literal leaves every live clause on the lists of exactly its two watched literals |
| Cdcl.SatSolver.AddClause | crates/smt-sat/src/solver.rs:105-171 | every clause added stays represented; the answer is whether the clauses are not yet known contradictory, which without restarts is only ever claimed of clauses without a model |
| Cdcl.SatSolver.Bcp | crates/smt-sat/src/solver.rs:187-272 | propagation keeps the whole invariant and the clauses as sets; it ends with every live clause settled or with a live clause all of whose literals are false |
| Cdcl.SatSolver.AnalyzeConflict | crates/smt-sat/src/solver.rs:275-361 | the learned clause follows from the clause database, is false now, has its first literal as the only one of the current level, and all others at levels from 1 to the backtrack level |
| ConflictAnalysis.LearnedEntailed | crates/smt-sat/src/solver.rs:285-336 | under a sound database the learned clause is entailed by the clauses ever added |
| Cdcl.SatSolver.HandleConflict | crates/smt-sat/src/solver.rs:512-541 | learning, jumping back, restarting and evicting keep the search invariant, and the conflict enters the history with its answer of the restart heuristic; without a restart the levels shrink to the backtrack level plus the asserted literal |
| SearchHistory.LearnedFollows | crates/smt-sat/src/solver.rs:512-541 | each clause learned in a history follows from the added clauses and the literals lost to earlier restarts, has distinct variables, and is a unit exactly when the jump goes to level 0 |
| SearchHistory.LostAt | crates/smt-sat/src/solver.rs:521-540 | a literal is lost only at a restart, and only the first one of a learned clause of two or more literals |
| SearchHistory.LostPerRestart | crates/smt-sat/src/solver.rs:521-540 | at most one literal is lost for each restart |
| SearchHistory.NothingLost | crates/smt-sat/src/solver.rs:521-540 | when every restart comes with a unit clause, no literal is lost |
| Cdcl.SatSolver.ReduceDb | crates/smt-sat/src/solver.rs:364-415 | below the limit nothing happens; otherwise half of the stored learned clauses of more than two literals are marked deleted, or, when fewer may go, all of high block distance that are no reason of the trail; no other clause changes, in whatever order they are visited, and the search invariant survives |
| SearchProgress.BackjumpProgress | crates/smt-sat/src/solver.rs:513-541 | a backjump makes the vector of level lengths grow lexicographically: the bounded measure that ends the search drops |
| SearchInvariant.FullTrailSatisfies | crates/smt-sat/src/solver.rs:612-627 | a full, completely propagated trail satisfies every clause ever added, restarts included |
| Cdcl.SatSolver.SolveInternal | crates/smt-sat/src/solver.rs:479-630 | the search ends, its conflicts met with the restart answers in order; True comes with all variables assigned, False with the solver closed, whose clauses together with the lost literals have no model, Undef only with a budget that is used up |
| Cdcl.SatSolver.Solve | crates/smt-sat/src/solver.rs:435-477 | True: the stored model satisfies every added clause. False: no model of the added clauses makes true all literals that restarts have asserted from clauses of two or more, as the history of the conflicts records them. Undef: a budget is used up |
| Cdcl.DecideCnf | crates/smt-sat/src/solver.rs:418-477 | a whole run on a clause list, for any finite list of restart answers: True with a model; False only when the clauses and the lost literals have no model; as long as no literal is lost, so without restarts and with restarts after unit clauses, False exactly for unsatisfiable clauses |
| RestartLoss.RestartLosesSoundness | crates/smt-sat/src/solver.rs:521-539 | satisfiable clauses and a sound search state, reached from the empty trail by two decisions and one propagation (that the heuristics choose them is not claimed), from which a restart asserts a literal that a model falsifies, after which propagation finds a conflict at level 0: the clauses with that literal have no model |
| DratCheck.DratChecker.CheckRup | crates/smt-sat/src/drat_checker.rs:127-198 | true exactly when unit propagation refutes the negated candidate |
| DratCheck.DratChecker.DeleteClause | crates/smt-sat/src/drat_checker.rs:113-123 | the clauses become those without the first permutation of the given one |
| DratCheck.WithoutContents | crates/smt-sat/src/drat_checker.rs:113-123 | deleting takes out one clause that is a permutation, keeping the others as a multiset, and does nothing when there is none |
| DratCheck.DratChecker.VerifyProof | crates/smt-sat/src/drat_checker.rs:55-111 | the verdict is exact: with the database of each step got by adding the clause or deleting a permutation, Valid exactly when an empty clause is added and every addition up to it passes; a RUP failure is the first addition that does not; otherwise the empty clause is missing. The clauses left are the last database reached, all entailed by the starting ones, which have no model after Valid |
| DratCheck.FollowsHere | crates/smt-sat/src/drat_checker.rs:127-198 | whether an addition passes depends only on the database as a multiset, not on the order of clauses or literals |
| GateCnf.AndMeaning | crates/smt-theories/src/bitvector.rs:457-464 | the three clauses hold exactly when the output is the conjunction |
| GateCnf.OrMeaning | crates/smt-theories/src/bitvector.rs:466-473 | the three clauses hold exactly when the output is the disjunction |
| GateCnf.XorMeaning | crates/smt-theories/src/bitvector.rs:475-483 | the four clauses hold exactly when the output is the exclusive or |
| GateCnf.IteMeaning | crates/smt-theories/src/bitvector.rs:485-493 | the four clauses hold exactly when the output is the selected input |
| BlastCircuits.BitBlaster.CircuitAdder | crates/smt-theories/src/bitvector.rs:517-533 | in every model of the clauses the output is the sum modulo two to the width; every earlier model extends to one |
| BlastCircuits.BitBlaster.CircuitSubtractor | crates/smt-theories/src/bitvector.rs:536-553 | likewise the difference |
| BlastCircuits.BitBlaster.CircuitMultiplier | crates/smt-theories/src/bitvector.rs:556-571 | likewise the product |
| BlastCircuits.BitBlaster.CircuitShl | crates/smt-theories/src/bitvector.rs:574-604 | the barrel shifter computes SMT-LIB bvshl, amounts past the width included |
| BlastCircuits.BitBlaster.CircuitLshr | crates/smt-theories/src/bitvector.rs:607-641 | likewise bvlshr |
| BlastCircuits.BitBlaster.CircuitAshr | crates/smt-theories/src/bitvector.rs:644-679 | likewise bvashr, filling with the sign |
| BlastCircuits.BitBlaster.CircuitEq | crates/smt-theories/src/bitvector.rs:682-694 | the output is whether the words are equal |
| BlastCircuits.BitBlaster.CircuitUlt | crates/smt-theories/src/bitvector.rs:697-711 | the output is the unsigned comparison |
| BlastCircuits.BitBlaster.CircuitSlt | crates/smt-theories/src/bitvector.rs:714-725 | the output is the comparison in two's complement |
| BlastCircuits.BitBlaster.CircuitNeg | crates/smt-theories/src/bitvector.rs:728-738 | the output is the two's complement |
| BlastCircuits.BitBlaster.CircuitUdivUrem | crates/smt-theories/src/bitvector.rs:751-801 | at every width, quotient and remainder are SMT-LIB bvudiv and bvurem, divisor 0 included |
| BlastCircuits.BitBlaster.CircuitSdiv | crates/smt-theories/src/bitvector.rs:807-858 | the output is bvsdiv, divisor 0 included |
| BlastCircuits.BitBlaster.CircuitSrem | crates/smt-theories/src/bitvector.rs:863-905 | the output is bvsrem, with the sign of the dividend |
| BlastCircuits.BitBlaster.CircuitSmod | crates/smt-theories/src/bitvector.rs:910-942 | the output is bvsmod, with the sign of the divisor |
| BitBlasting.TermBlaster.BlastBv | crates/smt-theories/src/bitvector.rs:47-273 | in every model of the clauses the cached bits are the value of the term, and all values of the inputs are still those of some model |
| WordLaws.OneWordTerm | crates/smt-theories/src/bitvector.rs:47-273 | on the numbers of the words: what complement, negation, both rotations, both extensions, repetition and extraction of a term give, the rotations and the repetition by division, remainder and a geometric sum |
| WordLaws.TwoWordsTerm | crates/smt-theories/src/bitvector.rs:47-273 | on the numbers of the words: what the arithmetic, shift and bitwise operators of two words give, divisor 0 and amounts past the width included |
| WordLaws.ConcatTerm | crates/smt-theories/src/bitvector.rs:47-273 | a concatenation is its first number times two to the second width, plus the second |
| WordLaws.ComparedTerm | crates/smt-theories/src/bitvector.rs:276-453 | the unsigned and signed comparisons are those of the numbers |
| BitBlasting.TermBlaster.BlastBool | crates/smt-theories/src/bitvector.rs:276-453 | likewise for the literal of a Boolean term; an operator without a circuit only gets a fresh variable |
| BitBlasting.ModelIsWorld | crates/smt-theories/src/bitvector.rs:47-453 | when only variables are left free, a model of the clauses is an interpretation in which every cached literal has the value of its term |
| BitBlasting.InterpHasModel | crates/smt-theories/src/bitvector.rs:47-453 | every interpretation in which the asserted terms are true is that of some model of the clauses |
| QfBvEngine.SolveQfBv | crates/smt-solver/src/engine.rs:178-231 | True, when every operator has a circuit: the values read back belong to an interpretation that satisfies the assertions. False, without restarts: no interpretation does |
| QfBvEngine.ReadModel | crates/smt-solver/src/engine.rs:202-226 | the number read for a declared variable is its value in every interpretation the model stands for, below two to its width |
| QfBvEngine.SgtAnswer | crates/smt-theories/src/bitvector.rs:445-448 | the answer True for an unsatisfiable assertion over an operator without a circuit |
| TseitinCnf.TseitinEncoder.Encode | crates/smt-preprocess/src/tseitin.rs:56-162 | in every model the literal has the truth of the term under the truths of the atoms, and all truths of the atoms are those of some model; cached literals stay |
| TseitinCnf.TseitinEncoder.AssertFormula | crates/smt-preprocess/src/tseitin.rs:43-53 | asserting a formula, conjunctions part by part, asserts exactly its truth |
| Pipeline.DecideFormula | crates/smt-preprocess/src/tseitin.rs:43-162 | encoding and solving a formula answers whether it is satisfiable: true always rightly, false without restarts |
| EufEngine.EufSolver.Find | crates/smt-theories/src/euf.rs:64-72 | parent links end, at the root of the recorded links |
| EufEngine.EufSolver.RegisterTerm | crates/smt-theories/src/euf.rs:75-98 | before the first merge, registering an application keeps the table closed under congruence and changes no class |
| EufEngine.EufSolver.Merge | crates/smt-theories/src/euf.rs:106-173 | joins the two classes and all applications that become congruent, and ends because classes get fewer |
| EufEngine.EufSolver.FindDecides | crates/smt-theories/src/euf.rs:64-173 | representatives are equal exactly when the asserted equalities entail the equality by congruence |
| EufEngine.EufSolver.ExplainRec | crates/smt-theories/src/euf.rs:185-240 | the walk over the proof forest ends and collects literals of equations that already entail the equality; each stands on an edge of a simple path between the terms or, below congruences on it, between their arguments |
| EufEngine.EufSolver.Explain | crates/smt-theories/src/euf.rs:176-183 | sorted negations of asserted literals whose equations alone entail the equality of connected terms, all reasons of edges on the way between them; nothing for terms not connected |
| EufEngine.EufSolver.AssertTerm | crates/smt-theories/src/euf.rs:244-270 | the rows in force grow by those of the atom: for an equality of two terms an equation or a disequality by the sign of the literal; for a distinctness all pairs as disequalities, whatever the sign; otherwise none |
| EufEngine.EufSolver.Check | crates/smt-theories/src/euf.rs:272-282 | no conflict exactly when the equalities and disequalities in force are consistent; a conflict clause negates asserted literals, the broken one and those on the way between its terms, and holds wherever its rows do what they say |
| EufEngine.EufSolver.Pop | crates/smt-theories/src/euf.rs:292-331 | restores representatives, signature table, proof forest, equalities and disequalities as the matching push saw them |
| EufEngine.Run | crates/smt-theories/src/euf.rs:64-331 | after any sequence of asserts, pushes and pops over registered terms, representatives are equal exactly when the live equalities entail it |
| EufMeaning.RunAndCheck | crates/smt-theories/src/euf.rs:64-331 | any run and a check, for the literals in force: a conflict exactly when the equalities force some disequality row to break; when every equality has two terms and no distinctness is asserted false, no conflict exactly when some structure makes the literals true; a conflict clause negates literals in force, and is valid in the theory when the row it breaks was not made from a distinctness asserted false, and only then if no literal stands for two terms |
| EufMeaning.SatisfiableIffSpelled | crates/smt-theories/src/euf.rs:244-270 | for any literals: satisfiable exactly when one pair can be chosen for each distinctness asserted false (and each longer equality asserted false) such that the rows are consistent |
| EufMeaning.RefutedThoughSatisfiable | crates/smt-theories/src/euf.rs:258-268 | a run that ends in a conflict although the literals are satisfiable, with a clause that is not valid |
| EufMeaning.AcceptedThoughUnsatisfiable | crates/smt-theories/src/euf.rs:258-268 | a run that ends without a conflict although no structure makes the literals true |
| LinearRows.LessMeansSmallDelta | crates/smt-theories/src/simplex.rs:35-47 | the order on values with an infinitesimal is that of the reals for all small enough positive deltas |
| LinearRows.BoundMeaning | crates/smt-theories/src/simplex.rs:517-615 | the bound made of an order literal holds of exactly the reals for which the literal is true |
| LinearRows.DiffRowMeaning | crates/smt-theories/src/simplex.rs:619-623 | the row of a comparison is the difference of its variables exactly when they differ |
| Tableaux.PivotKeepsSolutions | crates/smt-theories/src/simplex.rs:279-314 | pivoting keeps the real solutions of the rows, exactly |
| Tableaux.PivotKeepsForm | crates/smt-theories/src/simplex.rs:279-314 | rows over non-basic variables stay rows over non-basic variables |
| Tableaux.StuckBelow | crates/smt-theories/src/simplex.rs:456-488 | a row without a candidate refutes: every real solution breaks a bound that the clause names (below a lower bound) |
| Tableaux.StuckAbove | crates/smt-theories/src/simplex.rs:456-488 | the same above an upper bound |
| SimplexTheory.SimplexSolver.Pivot | crates/smt-theories/src/simplex.rs:279-326 | exchanges the two variables in any tableau; when rows were over non-basic variables they stay so, the solutions stay the same, and a consistent assignment stays as it was |
| SimplexTheory.SimplexSolver.AssertTerm | crates/smt-theories/src/simplex.rs:502-737 | the models of rows and bounds become those in which the literal is true; rows stay over non-basic variables exactly when neither term is basic |
| SimplexTheory.SimplexSolver.Pop | crates/smt-theories/src/simplex.rs:751-764 | bounds are again those the matching push saw, and variables made since have none |
| SimplexTheory.SimplexSolver.SolveSimplex | crates/smt-theories/src/simplex.rs:329-493 | in any tableau the outcome is that of the search: the first violated row, any candidate, an exchange, until a row is stuck, none is violated or the limit is reached. Over rows of non-basic variables, Err refutes the bounds it names together with the rows; Ok means feasible exactly when clamping the non-basic values and evaluating the rows left no basic variable outside its bounds, and that start always ends in Ok |
| SimplexTheory.SimplexSolver.IsEqualEntailed | crates/smt-theories/src/simplex.rs:174-248 | yes exactly when the variables are the same, both fixed to one value, or rows of their difference, either way round, bound it by zero from both sides; then they are equal in every model of rows and bounds |
| SimplexEqualities.EqualAfterBoth | crates/smt-theories/src/simplex.rs:174-248 | after `x <= y` and `y <= x`, whatever was asserted or searched before and whatever is asserted after, the two are found equal |
| SimplexRuns.AssertAndSolve | crates/smt-theories/src/simplex.rs:329-737 | asserting any literals and solving: a conflict names asserted literals only, and no real values of the terms make all of them true |
| SimplexScopes.ConflictsValid | crates/smt-theories/src/simplex.rs:329-764 | in every run of asserts, searches, pushes and pops: a conflict names literals in force, and no real values of the terms make all it names true, when no literal so far compared a term with itself or was asserted over a basic variable |
| SimplexScopes.RunActions | crates/smt-theories/src/simplex.rs:329-764 | the solver performs any list of actions as the steps of such a run, so its conflicts are those described |
| SimplexLimits.OkThoughUnsatisfiable | crates/smt-theories/src/simplex.rs:452-455 | two literals that no values satisfy, asserted on a new solver whose search then ends with Ok |
| SimplexLimits.ConflictThoughSatisfiable | crates/smt-theories/src/simplex.rs:316-326 | a run in which a literal was asserted over a basic variable, and whose last search ends in a conflict that real values satisfy |
| SimplexLimits.SelfComparisonRefuted | crates/smt-theories/src/simplex.rs:619-623 | `x <= x` and `x <= -1` on a new solver: the search ends in a conflict over both, which real values satisfy |
| Gf2.Gf2Matrix.Set | crates/smt-mba/src/gf2.rs:29-38 | on packed words, changes one entry of the Boolean matrix and no other |
| Gf2.Gf2Matrix.Get | crates/smt-mba/src/gf2.rs:41-45 | reads the entry of the Boolean matrix |
| Gf2.Gf2Matrix.AddRows | crates/smt-mba/src/gf2.rs:48-54 | word by word, adds one row of the Boolean matrix to another |
| Gf2.Gf2Matrix.Rref | crates/smt-mba/src/gf2.rs:58-99 | reduced row echelon form with increasing pivots, pivot columns zero elsewhere, and the row space of before |
| Gf2.Gf2Matrix.SolveSystem | crates/smt-mba/src/gf2.rs:103-142 | a solution of the system, or none only when there is none |
| MbaCanonicalizer.Normalize | crates/smt-mba/src/canonicalize.rs:11-100 | ends, although it recurses on terms it has just built, because conjunctions and disjunctions never get more |
| MbaCanonicalizer.NormalizeMeaning | crates/smt-mba/src/canonicalize.rs:11-100 | the normalized term has the value of the original in every interpretation |
| MbaCanonicalizer.NormalizeNnf | crates/smt-mba/src/canonicalize.rs:11-100 | no complement stands directly over a complement, a conjunction or a disjunction |
| CanonicalForms.SwappedSame | crates/smt-mba/src/canonicalize.rs:11-116 | under a strict total order of the terms, exchanging the arguments of a commutative operator gives the same result |
| CanonicalForms.NormalizeReduced | crates/smt-mba/src/canonicalize.rs:11-116 | where De Morgan's laws never apply, the result has no pair of equal arguments that the rules remove, no double negation, and its arguments in order |
| CanonicalForms.DuplicateLeft | crates/smt-mba/src/canonicalize.rs:11-100 | a concrete term, the complement of a conjunction of two conjunctions that differ until De Morgan's laws reach them, becomes a disjunction of two equal terms, themselves out of order |
| Zhegalkin.Canonical | crates/smt-mba/src/zhegalkin.rs:49-55 | polynomials with equal values everywhere are the same set of monomials |
| Zhegalkin.XorPolys | crates/smt-mba/src/zhegalkin.rs:79-87 | evaluates as exclusive or |
| Zhegalkin.AndPolys | crates/smt-mba/src/zhegalkin.rs:95-106 | evaluates as conjunction |
| Zhegalkin.OrPolys | crates/smt-mba/src/zhegalkin.rs:109-113 | evaluates as disjunction |
| Zhegalkin.FromTerm | crates/smt-mba/src/zhegalkin.rs:116-162 | a polynomial exactly for the terms whose read part, two arguments of each conjunction and disjunction, is supported, and it has the truth values of that part |
| Zhegalkin.EqualPolysIffEquivalent | crates/smt-mba/src/zhegalkin.rs:116-162 | over one variable map, terms get equal polynomials exactly when they are equivalent |
| Zhegalkin.RoundTrip | crates/smt-mba/src/zhegalkin.rs:116-220 | reading back the term written for a polynomial gives the polynomial |
| Zhegalkin.Simplify | crates/smt-mba/src/zhegalkin.rs:165-185 | which bits the canonical term of a word has; for a Boolean term, cut down to the arguments that are read, it is Boolean with the same truth exactly when that is false with all variables false and true somewhere |
| Zhegalkin.ThirdArgumentLost | crates/smt-mba/src/zhegalkin.rs:150-159 | a conjunction of three variables is supported, and no polynomial made from it represents it |
| Zhegalkin.SimplifiedMeaning | crates/smt-mba/src/zhegalkin.rs:188-220 | for constants 0 or all ones, the canonical term keeps the meaning exactly at width at most 1 or when the term is 0 where its variables are 0 |
| LinearMba.TableTruth | crates/smt-mba/src/truth_table.rs:36-81 | the sixteen entries tabulate the truth of the term over four variables |
| LinearMba.EvaluateLinearTerm | crates/smt-mba/src/linear_mba.rs:163-204 | the coefficients grow by those of the term: at every width, summing them over the bits gives the word, modulo two to the width |
| LinearMba.Simplify | crates/smt-mba/src/linear_mba.rs:56-148 | a result exactly for linear terms over two variables with the coefficients of one of nine targets: the sum, the differences, exclusive or, and, or, the variables and 0, over the variables in order of first occurrence; the result is that target, and has the value of the term with its constants filled |
| LinearMbaLaws.PairIffLinear | crates/smt-mba/src/linear_mba.rs:56-204 | the reduction looks at exactly the linear terms over two variables |
| LinearMbaLaws.SameValueSameResult | crates/smt-mba/src/linear_mba.rs:56-148 | two such terms over the same variables, their coefficients no further apart than the width can tell, have equal values everywhere exactly when they have equal coefficients, and then the same result |
| LinearMbaLaws.FoundByValue | crates/smt-mba/src/linear_mba.rs:56-148 | a term with small coefficients that has everywhere the value of one of the nine targets is simplified to that target |
| LinearMba.SimplifyMeaning | crates/smt-mba/src/linear_mba.rs:56-204 | the result keeps the meaning exactly when filling the constants does, and always when constants that are not multipliers are 0 or all ones |
| LinearMba.OneIsNotAllOnes | crates/smt-mba/src/truth_table.rs:53-59 | `(x & 1) + y` is simplified to `x + y`, which has another value; so has everything that keeps the meaning of the filled term |
| Arenas.SortArena.Intern | crates/smt-core/src/sort.rs:90-98 | equal sorts get one id, and the table only grows |
| Arenas.TermArena.Intern | crates/smt-core/src/term.rs:144-153 | one id for an operator with its arguments; a new pair is appended, nothing else changes |
| Arenas.TermArena.Unique | crates/smt-core/src/term.rs:144-153 | no two terms share operator and arguments |
| TermBuilder.InternNode | crates/smt-core/src/term.rs:144-153 | interning keeps the arena well sorted with arguments below their term, and the id means what the node means |
| TermBuilder.MakeNot | crates/smt-core/src/term.rs:193-202 | the term built means the negation, under every interpretation |
| TermBuilder.MakeAnd | crates/smt-core/src/term.rs:205-225 | the term built means the conjunction, under every interpretation |
| TermBuilder.MakeEq | crates/smt-core/src/term.rs:276-281 | the term built means the equality, under every interpretation |
| TermBuilder.MakeBvConst | crates/smt-core/src/term.rs:289-298 | the term built means the value cut down to the width |
| ConstantFolding.WordsFolded | crates/smt-preprocess/src/constant_folding.rs:163-302 | folding two constants gives the word that the operator means in SMT-LIB |
| ConstantFolding.ConstantFolder.FoldTerm | crates/smt-preprocess/src/constant_folding.rs:29-530 | the folded term has the sort, the circuits and, under every interpretation, the value of the original, however early the step budget ends; a term built from constants with the operators that are folded (connectives, Ite, unsigned arithmetic, bitwise and shift operators on words, unsigned comparisons, Extract, Concat, numbers, equalities other than of truth values) becomes a constant when the budget suffices |
| AlgebraicRewriting.RewriteDistinct | crates/smt-preprocess/src/rewrite.rs:134-153 | the conjunction of pairwise disequalities means Distinct |
| AlgebraicRewriting.Rewriter.Rewrite | crates/smt-preprocess/src/rewrite.rs:28-159 | the rewritten term has the sort, the circuits and, under every interpretation, the value of the original, however early the step budget ends; when the budget suffices, no part of it is a Distinct or one to which an identity of the rewriter still applies |
| ModelValidation.ModelValidator.Evaluate | crates/smt-solver/src/validator.rs:53-413 | returns the reference value of the term, `Computed`, whatever is already memoized |
| ModelValidation.ComputedRight | crates/smt-solver/src/validator.rs:53-413 | the reference value has the sort of the term, and is its value under the interpretation of the model when every operator is computed |
| ModelValidation.ModelValidator.Validate | crates/smt-solver/src/validator.rs:29-50 | accepts exactly the models under which the reference value of every assertion is true |
| SolverEngine.Preprocess | crates/smt-solver/src/engine.rs:121-139 | each folded and rewritten assertion means what the assertion meant |
| SolverEngine.SmtSolver.CheckSat | crates/smt-solver/src/engine.rs:117-176 | Sat exactly when the kept model makes the reference value of every assertion true, which is a model of them when every operator is computed; otherwise Sat can be wrong (`SgtAnsweredSat`). Unsat, without restarts: they have no model. Never Sat for an assertion that is not computed. One or the other, and the right one, when every operator of the assertions has a circuit and is computed and every variable is declared |
| SolverEngine.SltNeverSat | crates/smt-solver/src/validator.rs:408-408 | a satisfiable assertion that `check_sat` never answers with Sat |
| SolverEngine.SgtAnsweredSat | crates/smt-solver/src/validator.rs:408-408 | builds `(not (bvsgt 1 0))` over 8 bits and asserts it: the answer is Sat, and there is no model |
| BinaryFormat.IntRoundTrip | crates/smt-parser/src/binary.rs:487-542 | integers of any size and sign are read back |
| BinaryFormat.SortRoundTrip | crates/smt-parser/src/binary.rs:201-253 | every sort is read back |
| BinaryFormat.OpRoundTrip | crates/smt-parser/src/binary.rs:255-485 | every operator with its parameters is read back |
| FormatLayout.NumberDigits | crates/smt-parser/src/binary.rs:487-542 | the bytes of a number are its digits in base 256, the lowest first, and as few as it needs |
| FormatLayout.SortLayout | crates/smt-parser/src/binary.rs:201-226 | the bytes of each sort: tag and parameters by position |
| FormatLayout.OperatorLayout | crates/smt-parser/src/binary.rs:255-363 | the bytes of each operator: its place in the list of all, then its parameters by position, integers with a sign byte |
| FormatLayout.CommandLayout | crates/smt-parser/src/binary.rs:50-95 | the bytes of each command: tag and parameters by position |
| FormatLayout.TermLayout | crates/smt-parser/src/binary.rs:38-48 | the bytes of a term: sort, number of arguments, arguments, operator |
| FormatLayout.FileLayout | crates/smt-parser/src/binary.rs:25-98 | the letters SMTB, version 1, then sorts, terms and commands, each section after its count |
| BinaryCodec.BinaryDecoder.DecodeCommands | crates/smt-parser/src/binary.rs:112-198 | decoding an encoded file rebuilds the commands and both tables with the same ids and consumes the whole buffer; a wrong header or version is an error |
| BinaryCodec.RoundTrip | crates/smt-parser/src/binary.rs:25-198 | encoding arenas and commands and decoding into fresh arenas gives them back |

## Left out

- Cdcl.SatSolver.Solve: claims of False only that no model makes the lost literals true, because the code is wrong beyond that (`RestartLosesSoundness`); Pipeline.DecideFormula, QfBvEngine.SolveQfBv and SolverEngine.SmtSolver.CheckSat claim it without restarts only.
- Cdcl.DecideCnf: the restart heuristic is a finite list of answers, one for each conflict; after them it asks for no restart. The averages behind the answers are not modelled.
- Cdcl.SatSolver.ReduceDb: the ranking of clauses by block distance and activity is an arbitrary order.
- Cdcl.SatSolver.AnalyzeConflict: the block distance returned is only known to be positive.
- Solving under assumptions, scopes of the SAT solver, theory reasons and theory conflicts, and the emission of DRAT lines.
- DratCheck.DratChecker.VerifyProof: starts from parsed steps; parsing proof text is not modelled.
- VsidsHeap.Vsids.BumpVar: activities are reals, so rounding is not captured.
- BlastCircuits.BitBlaster.CircuitShl: widths from 1 to 64, because wider ones shift a machine word past its size in the source; CircuitLshr and CircuitAshr likewise.
- BlastCircuits.BitBlaster.CircuitSdiv: nothing is said of words without bits, on which the source reads before the start of a vector; CircuitSrem and CircuitSmod likewise.
- BitBlasting.TermBlaster.BlastBool: BvSgt and BvSge have no circuit in the source; Eq is binary, and operators with more arguments than the source reads are not followed.
- The clause sets of gates and circuits are sets of clauses with a counter of variables; the SAT core behind them is only composed with them afterwards.
- QfBvEngine.SolveQfBv: assumptions are not followed; names are declared with the sort of their term.
- EufEngine.Run: all terms are registered before the first merge and outside scopes, as crates/smt-solver/src/engine.rs:255-258 does; terms registered later are not covered.
- EufMeaning.RunAndCheck: equalities and distinctnesses used as arguments are leaves of a structure, sorts do not bound its values, and literals over other terms are ignored, as the engine ignores them; equalities shared by theory combination carry no reason and are left out.
- SimplexTheory.SimplexSolver.SolveSimplex: that Err refutes is claimed for rows over non-basic variables only, because it is wrong otherwise (`ConflictThoughSatisfiable`). Branching on integers is not part of the solver.
- SimplexTheory.SimplexSolver.IsEqualEntailed: the answer no does not mean that the equality is not entailed; the source looks at two kinds of bounds only.
- SimplexScopes.ConflictsValid: literals that compare a term with itself are excluded from the claim, because their row is the negated variable (`DiffRowMeaning`, `SelfComparisonRefuted`).
- Rows are dense lists of reals, without a difference between a missing and a zero entry, and the candidate for a pivot is arbitrary, as the order of a hash map is; a conflict names bounds in the order of the variables.
- CanonicalForms.NormalizeReduced: goes one way; a term to which De Morgan's laws apply may be reduced all the same.
- LinearMba.EvaluateLinearTerm: coefficients are unbounded integers, where the source has 64-bit ones.
- Terms of the MBA simplifiers are trees; a hash-consed id is taken for its tree, and ids order commutative arguments arbitrarily. Operators on words, Xor and Eq have two arguments; And and Or may have more.
- Zhegalkin.Simplify: says nothing of variables of other sorts, for which it returns nothing.
- ConstantFolding.ConstantFolder.FoldTerm: its identities on terms with variables are tied to the meaning only, that none is skipped is not stated; terms of sort Real are excluded from well-sorted arenas, and Eq has two arguments, as for Rewriter.Rewrite and the validator.
- ModelValidation.ModelValidator.Evaluate: a function symbol has results of one sort; integer sums, differences and products of other than two arguments are not claimed, since the source reads two.
- SolverEngine.SmtSolver.CheckSat: runs on problems with other theories and with shifts wider than 64 bits end in `NotFollowed`; assumptions and scopes are left out.
- BinaryFormat.OpRoundTrip: a zero denominator is an error value, where the constructor of rationals in the source panics; strings are bytes, so lossy decoding of malformed UTF-8 is not captured.
- Machine integers are unbounded except where a width is part of the format or the operation.
- Array axioms, theory combination, the lifter, file loaders, text parsing, reports and command-line handling.
