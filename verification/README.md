# Bandits, assignment and configuration of the experimentation platform, in Dafny

This project models the stateful and numeric core of the experimentation platform and proves what it
promises: the LinUCB bandit, the constraint solver between bandit and exposure log, the sequential
e-process, the assignment service with its Go SDK twin, the bucketing hash, the switchback schedule and the
live configuration cache.

`dafny verify dfyconfig.toml` checks everything. Nothing here executes the platform's own code.

## How the model reads the code

- `f64` is an exact real. Finiteness assertions never fire on reals and are not modelled.
- `exp`, `ln` and the square root are parameters. The proofs use only these laws: `exp` is positive and turns
  sums into products, `ln` inverts it, `ln t <= t - 1`; a square root is non-negative and squares back.
- The floor 1e-300 of the solver's references is a field that the constructor sets; the proofs use only that it
  is positive and at most 2^-102.
- Integers are unbounded, except where a width matters: the hash works on 32-bit words with explicit
  wrap-around, the allocation size in the service wraps as in a release build, the Go SDK narrows its signed
  fields to 32 bits, and the slot count converts to an unsigned machine word.
- Objects whose methods update fields are classes (`LinUcbArm`, `LinUcbPolicy`, `MadEProcess`,
  `ImpressionTracker`, `ConstraintSolver`, `LocalProvider`, `ConfigCache`), in-place loops are loops, and the
  shuffle works on an array. Each method is proved equal to a function of its inputs or old state, and the
  theorems are about that function.
- Hash maps are maps; code that walks one is proved for every order of the walk.
- Random draws, the clock, the UTF-8 encoder, targeting rules and the bandit service's answers are parameters.
  In a batch every inner decision has its own clock, snapshot and service answers.
- A panic is an outcome (`None`, `Err(Panic)`) or a precondition of the method that panics.

## Where the code and its documentation differ

Each point is a counterexample together with the exact condition, or with the strongest guarantee that holds.

- `None` from the projection is documented to mean an empty polytope (lp_constraints.rs:384). It also occurs
  when the references are too small for the bracket: `KlOptimality.NoneOnNonEmptyPolytope`, exact condition in
  `KlOptimality.AnswerExactlyWhen`; seen from the solver, `ConstraintLimits.ZeroArmUnderCap` and
  `ConstraintLimits.AnswersExactlyWhen`.
- The adjusted probabilities are documented to minimise the divergence over the polytope
  (lp_constraints.rs:256). With per-arm bounds only they do, up to the precision of the bisected total:
  `Constraints.Constraints.BoundedAnswerNearOptimal`. With linear constraints the step size can overshoot:
  `DualOvershoot.AnswerNeedNotBeOptimal`. For one linear constraint an answer is optimal exactly when iterate 0,
  the projection of the reference, is accepted or the constraint is left without slack:
  `DualOptimality.OptimalExactlyWhenStartAccepted`, for coefficients of at most 25, or a rejection clear of the
  imprecision of totals; in every case, `DualOptimality.OneConstraintExactlyWhen`. For several constraints an
  in-bounds vector with slack everywhere is beaten once iterate 0 violates one of them by more than totals can
  explain (`DualOptimality.SlackAnswerIsBeaten`), an admissible answer is optimal exactly when it is
  against its tight constraints (`DualOptimality.OnlyTightConstraintsMatter`), and `DualAscent.AnswerGap` bounds
  every answer's excess by the run's own multipliers.
- Feasible answers are documented to satisfy the constraints. The fallback for all-zero probabilities ignores
  the linear ones: `ConstraintLimits.FallbackIgnoresLinear`, exact condition in
  `ConstraintLimits.FallbackExactlyWhen`; with a positive clamped sum they hold within 1e-5:
  `Constraints.Constraints.FeasibleMeetsConstraints`.
- Service and Go SDK are meant to agree. Over the whole 32-bit allocation range the service's size wraps to
  zero: `VariantSelection.SelectorsAgreeExactly` says exactly when they agree.
- The batch is documented to prevent holdout leakage. It does with respect to its own snapshot
  (`AssignmentBatch.HoldoutsAreExclusive`). With respect to the snapshots that serve the two experiments it
  leaks exactly when the updates published during the batch bring them into one layer
  (`BatchLeaks.LeaksExactlyWhen`), as they can by moving either or both (`BatchLeaks.LayerMovesLeak`).
- The floor of the references is described as 1e-10 (lp_constraints.rs:287); the code uses 1e-300, which the model
  follows. The step of the ascent is described as 1 / (largest norm + 1) (lp_constraints.rs:503); the code divides by the
  largest absolute coefficient, or by 1 if that is more: `DualOutcome.StepByLargestCoefficient`.
- The balanced switchback is documented to treat exactly half of the clusters at every moment
  (switchback.rs:124): `Switchback.BalancedSplitExactlyWhen`, `Switchback.SingleClusterIsNeverSplit`.
- The treatment slot is documented as the first non-control variant (switchback.rs:92):
  `Switchback.TreatmentIsFirstNonControl`.
- The cache keeps `last_version` for reconnection only; an older update is applied like any other
  (`ConfigHistory.StaleUpdatesApply`).

## Main results

- LinUCB: `RidgeRegression.InverseIsExact`, `ThetaMinimisesLoss`, `StateIgnoresOrder`, `ScoreIsLargestPlausible`,
  `LinUcb.FirstRewardPrediction`
- Solver: `KlPrecision.ProjectionNearOptimal`, `KlOptimality.AnswerExactlyWhen`, `DualAscent.IterateCertifiesBound`,
  `DualOptimality.OptimalExactlyWhenStartAccepted`, `DualOutcome.AnswerByCase`,
  `Constraints.Constraints.FeasibleMeetsConstraints`, `ConstraintIdentity.FeasibleStaysUnchanged`
- Tracker and e-process: `Impressions.TotalOverRun`, `Impressions.FractionClosedForm`, `Mad.HindsightBound`
- Shuffle: `SlateShuffle.ShuffleIsBijection`, `SlateShuffle.EverySlotIsUniform`
- Selection: `VariantSelection.ShareWithinOneBucket`, `VariantSelection.SelectorsAgreeExactly`,
  `AssignmentFacts.SdkAgreesWithService`
- Assignment: `AssignmentAnswers.HashedAnswer`, `AssignmentAnswers.SessionLocking`, `AssignmentAnswers.MetaAnswer`
- Batch: `AssignmentBatch.BatchContents`, `AssignmentBatch.DecidedInOrder`, `AssignmentBatch.HoldoutsAreExclusive`,
  `BatchLeaks.LeaksExactlyWhen`
- Hash: `Murmur3.GoMurmurhash3` and `Murmur3.PyMurmurhash3` against one specification,
  `Murmur3Collisions.LocalChangesNeverCollide`, `Murmur3Collisions.FourBytesCoverEveryHash`, and the known answers
  of `Murmur3Vectors`
- Switchback: `Switchback.SideOfBlock`, `Switchback.EqualExposure`, `AssignmentFacts.EqualService`, `Switchback.BalancedSplitExactlyWhen`
- Cache: `ConfigHistory.ExperimentAfterLog`, `ConfigHistory.LayersAfterLog`, `ConfigHistory.NewExperimentReachesEveryone`

## Files

| file | content |
|---|---|
| LinearAlgebra, RidgeRegression, LinUcb | vectors and matrices; what an arm stands for; the arm and policy classes |
| ExpLn, KlProjection, KlOptimality, KlPrecision, KlFixedPoint | function laws; the bisection; its optimality; what its precision costs; what it leaves unchanged |
| DualAscent, DualOutcome, DualOptimality, DualOvershoot | the dual ascent; which iterate it answers; exactly when that is optimal; its overshoot |
| ImpressionTracker, ConstraintSolver, ConstraintIdentity, ConstraintLimits | tracker and solver classes; what the solver leaves unchanged; its limits |
| MadEProcess | the e-process class and its closed forms |
| SlateShuffle | the in-place shuffle and its counting argument |
| Bits, Murmur3, Murmur3Collisions, Murmur3Vectors | bit arithmetic on integers; both hashes; bijections and non-collision; known answers |
| Config, VariantSelection, GoSdk, Switchback | records; the two selection loops; the SDK provider; the schedule |
| AssignmentService, AssignmentAnswers, AssignmentFacts, AssignmentBatch | one decision; its answer for each type of experiment; SDK agreement and exposure; the two-phase batch |
| ConfigCache, ConfigHistory | the cache class; theorems over update logs |
| BatchLeaks | what a batch leaks over an update log |
| RealFacts, RealMaps, Wrappers | small shared facts and types |

## Model

| member | source | states |
|---|---|---|
| `LinUcb.LinUcbArm.constructor` | crates/experimentation-bandit/src/linucb.rs:27-34 | A new arm stands for the empty history |
| `LinUcb.LinUcbArm.UcbScore` | crates/experimentation-bandit/src/linucb.rs:40-54 | The score is the largest reward any coefficients in the confidence ellipsoid of radius alpha predict, and is attained |
| `LinUcb.LinUcbArm.Update` | crates/experimentation-bandit/src/linucb.rs:59-89 | One in-place step keeps the arm equal to the fold of its history extended by the new observation; the skip branch is never taken |
| `RidgeRegression.DenominatorAtLeastOne` | crates/experimentation-bandit/src/linucb.rs:63-72 | After any history the Sherman-Morrison denominator is at least 1 |
| `RidgeRegression.InverseIsExact` | crates/experimentation-bandit/src/linucb.rs:26-34 | After any run of updates in any dimension the maintained matrix is symmetric and is the two-sided inverse of I + sum x x^T |
| `RidgeRegression.VarianceBounds` | crates/experimentation-bandit/src/linucb.rs:40-54 | The exploration variance is non-negative, at most x.x, and never grows under a later update |
| `RidgeRegression.ThetaMinimisesLoss` | crates/experimentation-bandit/src/linucb.rs:216-227 | theta = A_inv b is the unique minimiser of the ridge loss, with the exact excess of every other coefficient vector |
| `RidgeRegression.StateIgnoresOrder` | crates/experimentation-bandit/src/linucb.rs:59-89 | Matrix, vector and theta depend only on the multiset of observations |
| `RidgeRegression.CauchySchwarz` | crates/experimentation-bandit/src/linucb.rs:40-54 | Squared predictions are bounded by energy times exploration variance |
| `RidgeRegression.ScoreIsLargestPlausible` | crates/experimentation-bandit/src/linucb.rs:36-54 | theta.x + alpha sqrt(x^T A_inv x) is the attained maximum over the confidence ellipsoid |
| `RidgeRegression.OneObservationPrediction` | crates/experimentation-bandit/src/linucb.rs:216-227 | After a single observation (x, r) the prediction at y is r (x.y) / (1 + x.x) |
| `LinUcb.LinUcbPolicy.constructor` | crates/experimentation-bandit/src/linucb.rs:166-200 | A new policy has one untouched arm per id and an empty log |
| `LinUcb.LinUcbPolicy.ContextToVector` | crates/experimentation-bandit/src/linucb.rs:231-242 | The vector holds the context's value of each feature key in order, 0 for an absent one |
| `LinUcb.LinUcbPolicy.PredictedReward` | crates/experimentation-bandit/src/linucb.rs:216-227 | The prediction is the sum of the ridge coefficients of the observations logged for the id times the context's features; an unknown id panics |
| `LinUcb.FirstRewardPrediction` | crates/experimentation-bandit/src/linucb.rs:216-227 | After one reward in one context the prediction in another is that reward times their overlap over one plus the squared length of the first |
| `LinUcb.OneFeaturePrediction` | crates/experimentation-bandit/src/linucb.rs:216-227 | With the one feature at v both times, reward r is predicted as r v^2 / (1 + v^2) |
| `LinUcb.LastArgMax` | crates/experimentation-bandit/src/linucb.rs:249-253 | The largest score, the last among ties |
| `LinUcb.ProbabilitiesAreADistribution` | crates/experimentation-bandit/src/linucb.rs:248-271 | Over distinct arms the probabilities sum to 1, respect the floor, and the best arm gets all the floors leave over |
| `LinUcb.LastCollected` | crates/experimentation-bandit/src/linucb.rs:259-268 | A repeated id keeps the probability of its last position |
| `LinUcb.LinUcbPolicy.ScoreArms` | crates/experimentation-bandit/src/linucb.rs:278-283 | One score per arm, in order |
| `LinUcb.LinUcbPolicy.ComputeProbabilities` | crates/experimentation-bandit/src/linucb.rs:248-271 | The last maximiser, and the probabilities collected by arm id |
| `LinUcb.LinUcbPolicy.SelectArm` | crates/experimentation-bandit/src/linucb.rs:274-296 | The selected arm maximises the score of the vector that encodes the context, last among ties, and its reported probability is its entry of the distribution; a missing context panics |
| `LinUcb.IndexOf` | crates/experimentation-bandit/src/linucb.rs:302-306 | An id addresses the first arm that carries it |
| `LinUcb.LinUcbPolicy.Update` | crates/experimentation-bandit/src/linucb.rs:298-311 | The observation, with the vector that encodes the context, goes to the first arm with the id and is logged; a missing context or an unknown arm leaves the policy as it was |
| `LinUcb.ObservationCount` | crates/experimentation-bandit/src/linucb.rs:298-310 | An arm holds an observation as often as the log addresses it to that arm |
| `LinUcb.PolicyIgnoresOrder` | crates/experimentation-bandit/src/linucb.rs:216-227 | Policies whose logs agree as multisets hold the same state and make the same predictions |
| `KlProjection.BisectKlProjection` | crates/experimentation-bandit/src/lp_constraints.rs:386-447 | The 64-step loop computes the projection function, None on either failed guard |
| `KlProjection.BracketInvariant` | crates/experimentation-bandit/src/lp_constraints.rs:411-433 | After any number of steps: total at least 1 - 1e-9 at the low end, at most 1 + 1e-9 at the high end, nested intervals that halve |
| `KlProjection.BisectStaysClose` | crates/experimentation-bandit/src/lp_constraints.rs:411-433 | The final point lies in the bracket and its total is within a factor exp(half a final interval) of both bounds |
| `KlProjection.ProjectionIsNearFeasible` | crates/experimentation-bandit/src/lp_constraints.rs:386-447 | An answer exists exactly when both guards pass; it is clip(r / C, lo, hi) with C in [e^-50, e^50], within all bounds, with total in [(1 - 1e-9) / s, s (1 + 1e-9)], s = exp(50 / 2^64) |
| `KlOptimality.TermAboveTangent` | crates/experimentation-bandit/src/lp_constraints.rs:377-383 | Each divergence term lies strictly above its tangent elsewhere |
| `KlOptimality.ClippedPrice` | crates/experimentation-bandit/src/lp_constraints.rs:377-383 | Against every in-bounds vector of any total the clipped one is optimal at the price 1 - ln C per unit of total, strictly unless equal |
| `KlOptimality.ClippedIsOptimal` | crates/experimentation-bandit/src/lp_constraints.rs:377-383 | clip(r / C, lo, hi) is the unique KL minimiser among in-bounds vectors of equal total |
| `KlOptimality.ProjectionIsOptimal` | crates/experimentation-bandit/src/lp_constraints.rs:377-447 | A returned projection is the unique KL minimiser among in-bounds vectors of its own total |
| `KlPrecision.TotalNearOne` | crates/experimentation-bandit/src/lp_constraints.rs:424-446 | Totals of returned projections are within 2e-9 of 1 |
| `KlPrecision.ProjectionNearOptimal` | crates/experimentation-bandit/src/lp_constraints.rs:377-447 | Over the documented polytope, within bounds and summing to exactly 1, a returned projection has the least divergence up to 51 * 2e-9 |
| `KlFixedPoint.AdmissibleIsProjected` | crates/experimentation-bandit/src/lp_constraints.rs:386-440 | The projection of a vector that already satisfies the bounds and sums to 1 exists |
| `KlFixedPoint.ProjectionKeepsAdmissible` | crates/experimentation-bandit/src/lp_constraints.rs:589-605 | It returns such a vector unchanged up to 1e-13 and the floors |
| `KlOptimality.EmptyPolytope` | crates/experimentation-bandit/src/lp_constraints.rs:384-396 | The polytope is empty exactly when the sums of the bounds do not enclose 1 |
| `KlOptimality.AnswerExactlyWhen` | crates/experimentation-bandit/src/lp_constraints.rs:384-421 | On a non-empty polytope there is an answer exactly when the total at the low end of the bracket reaches 1 up to the slack |
| `KlOptimality.NoneOnNonEmptyPolytope` | crates/experimentation-bandit/src/lp_constraints.rs:384-421 | Counterexample to the documented meaning of None |
| `DualAscent.SolveKlGeneral` | crates/experimentation-bandit/src/lp_constraints.rs:460-559 | The ascent loop answers one of: the quick projection, the first iterate within 1e-7, the least-violating iterate within 1e-5, or nothing |
| `DualAscent.FirstIterateIsQuick` | crates/experimentation-bandit/src/lp_constraints.rs:482-490 | The quick path returns iterate 0 of the ascent |
| `DualAscent.AnswerIsIterate` | crates/experimentation-bandit/src/lp_constraints.rs:482-559 | Every answer is an iterate the run reached, all earlier ones having violated, within 1e-5 of the linear constraints; the quick one is iterate 0 |
| `DualAscent.IterateCertifiesBound` | crates/experimentation-bandit/src/lp_constraints.rs:513-556 | Weak duality at every iteration: multipliers stay non-negative, and KL(q, p) + lambda (A q - b) bounds KL(q', p) from below for every admissible q' of the same total, and up to 51 * 2e-9 of total exactly 1 |
| `DualAscent.AnswerIsNearFeasible` | crates/experimentation-bandit/src/lp_constraints.rs:482-559 | Every answer is in bounds, near total 1, and exceeds no linear constraint by more than 1e-5 |
| `DualAscent.AnswerGap` | crates/experimentation-bandit/src/lp_constraints.rs:254-260 | With n the iteration that produced the answer and lambda the run's own multipliers there, the excess over every admissible vector is at most lambda (b - A q), over those of total exactly 1 at most 51 * 2e-9 more |
| `DualAscent.QuickAnswerIsOptimal` | crates/experimentation-bandit/src/lp_constraints.rs:482-490 | The quick answer is optimal among all in-bounds vectors of its total, and up to 51 * 2e-9 of total exactly 1 |
| `DualOutcome.AnswerByCase` | crates/experimentation-bandit/src/lp_constraints.rs:485-562 | The projection of the reference if that needs no ascent; else the first of 250 iterates within 1e-7; else the first least-violating one if within 1e-5, so nothing exactly when all 250 violate by more |
| `DualOutcome.AnswerIsUnique` | crates/experimentation-bandit/src/lp_constraints.rs:485-562 | The cases leave one answer |
| `DualOutcome.LargestCoefficient` | crates/experimentation-bandit/src/lp_constraints.rs:504-508 | The step's denominator bounds every coefficient in absolute value and is one of these values or 1 |
| `DualOutcome.StepByLargestCoefficient` | crates/experimentation-bandit/src/lp_constraints.rs:554-557 | A step moves a multiplier by its violation over the largest coefficient, or stops at 0 |
| `DualOptimality.DivergenceConvex` | crates/experimentation-bandit/src/lp_constraints.rs:6-9 | The divergence is convex along a blend of two vectors |
| `DualOptimality.OnlyTightConstraintsMatter` | crates/experimentation-bandit/src/lp_constraints.rs:254-260 | An admissible vector is optimal exactly when it is against the constraints it leaves without slack |
| `DualOptimality.PenaltyMakesOptimal` | crates/experimentation-bandit/src/lp_constraints.rs:513-556 | An iterate whose own multipliers give a non-negative penalty is optimal |
| `DualOptimality.StartOfAnswer` | crates/experimentation-bandit/src/lp_constraints.rs:482-490 | Every answer has an iterate 0; accepted, it is the answer, otherwise it violates by more than 1e-7 |
| `DualOptimality.ExchangeImproves` | crates/experimentation-bandit/src/lp_constraints.rs:377-383 | An exchange of mass between an entry below clip(p / C, lo, hi) and one above it lowers the divergence at the same total |
| `DualOptimality.SlackAnswerIsBeaten` | crates/experimentation-bandit/src/lp_constraints.rs:497-556 | When iterate 0 violates a constraint with coefficients in [-m, m] by more than m times the difference of the totals, every in-bounds vector with slack everywhere is beaten by an admissible one |
| `DualOptimality.TotalsAreClose` | crates/experimentation-bandit/src/lp_constraints.rs:513-556 | The totals of iterate 0 and of the answer differ by at most 4e-9 |
| `DualOptimality.OneConstraintExactlyWhen` | crates/experimentation-bandit/src/lp_constraints.rs:254-260 | One linear constraint: an answer is optimal exactly when it leaves no slack or is optimal over the box alone |
| `DualOptimality.OptimalExactlyWhenStartAccepted` | crates/experimentation-bandit/src/lp_constraints.rs:254-260 | One linear constraint with coefficients in [-m, m], m <= 25 or iterate 0 accepted or violating by more than 4e-9 m: an answer is optimal exactly when iterate 0 is accepted or no slack is left |
| `DualOvershoot.AnswerNeedNotBeOptimal` | crates/experimentation-bandit/src/lp_constraints.rs:254-260 | Counterexample to the documented optimality: for p = (1/2, 1/2) and 100 q_0 <= 40 every run answers a vector that an admissible one beats |
| `DualOvershoot.CappedIsNotOptimal` | crates/experimentation-bandit/src/lp_constraints.rs:254-260 | The same input through the exact condition: iterate 0 is rejected, the answer leaves slack, so it is not optimal |
| `Constraints.ConstraintSolver.constructor` | crates/experimentation-bandit/src/lp_constraints.rs:204-212 | No constraints, uniform impressions |
| `Constraints.ConstraintSolver.AddPerArmBound` | crates/experimentation-bandit/src/lp_constraints.rs:219-234 | Sets one bound and tracks the arm, nothing else |
| `Constraints.ConstraintSolver.AddLinearConstraint` | crates/experimentation-bandit/src/lp_constraints.rs:237-252 | Appends one constraint, nothing else |
| `Constraints.ConstraintSolver.RecordImpression` | crates/experimentation-bandit/src/lp_constraints.rs:337-339 | Records the arm in the tracker and keeps the solver valid |
| `Constraints.ConstraintSolver.Apply` | crates/experimentation-bandit/src/lp_constraints.rs:262-332 | The answer by path; a feasible one has every arm and all bounds, over distinct arms a total near 1, and for a positive clamped sum all linear constraints up to 1e-5; without linear constraints, raw probabilities that already satisfy the bounds come back unchanged up to 1e-13 and the floors |
| `Constraints.ConstraintSolver.SolveUniform` | crates/experimentation-bandit/src/lp_constraints.rs:345-371 | The all-zero fallback is the projection of the uniform vector |
| `Constraints.Constraints.CollectedEntries` | crates/experimentation-bandit/src/lp_constraints.rs:320-327 | The packaged map holds each arm's own entry |
| `Constraints.Constraints.LastEntry` | crates/experimentation-bandit/src/lp_constraints.rs:316-322 | A repeated id keeps the entry of its last position |
| `Constraints.Constraints.CollectedTotal` | crates/experimentation-bandit/src/lp_constraints.rs:320-327 | Over distinct arms the packaged map has the total of the solved vector |
| `Constraints.Constraints.FeasibleMeetsConstraints` | crates/experimentation-bandit/src/lp_constraints.rs:262-332 | Feasible answers respect all bounds, total near 1, and all linear constraints within 1e-5 across the three paths |
| `Constraints.Constraints.AllowedStaysUnchanged` | crates/experimentation-bandit/src/lp_constraints.rs:271-332 | Raw probabilities within the bounds that sum to 1 are answered, each unchanged up to 1e-13 plus 2e-300 per arm |
| `ConstraintIdentity.FeasibleStaysUnchanged` | crates/experimentation-bandit/src/lp_constraints.rs:479-491 | So are those that meet linear constraints as well, when the number of arms times the largest coefficient is below 9999 |
| `Constraints.Constraints.SharesAreReference` | crates/experimentation-bandit/src/lp_constraints.rs:275-295 | The reference is each raw probability, cut to [0, 1], over the sum of these, at least the floor |
| `Constraints.Constraints.ProblemStates` | crates/experimentation-bandit/src/lp_constraints.rs:275-310 | The general problem states the bounds, rows and right-hand sides by arm id over those shares |
| `Constraints.Constraints.BoundedAnswerNearOptimal` | crates/experimentation-bandit/src/lp_constraints.rs:254-260 | With per-arm bounds only a feasible answer minimises the divergence from the shares of the raw probabilities over the documented polytope up to 51 * 2e-9 |
| `Constraints.Constraints.LinearAnswerGap` | crates/experimentation-bandit/src/lp_constraints.rs:254-260 | With linear constraints the run's own multipliers bound the excess, from the shares of the raw probabilities, over the documented polytope |
| `Constraints.ProgramFloor` | crates/experimentation-bandit/src/lp_constraints.rs:295 | The program's floor 1e-300 has the two properties of a floor the proofs use |
| `ConstraintLimits.ReferenceIsNormalised` | crates/experimentation-bandit/src/lp_constraints.rs:293-295 | The floored reference of at most 1 / floor arms has a total of at most 2 |
| `ConstraintLimits.AnswersExactlyWhen` | crates/experimentation-bandit/src/lp_constraints.rs:254-260 | With per-arm bounds only and a non-empty polytope the solver answers exactly when the e^50-scaled references fill it |
| `ConstraintLimits.ZeroArmUnderCap` | crates/experimentation-bandit/src/lp_constraints.rs:254-260 | Counterexample to infeasible-means-empty: probabilities (0, 1) with the second arm capped at 1/2 |
| `ConstraintLimits.FallbackIgnoresLinear` | crates/experimentation-bandit/src/lp_constraints.rs:345-371 | The fallback for an all-zero clamped sum can break a linear constraint by more than 0.3 |
| `ConstraintLimits.FallbackExactlyWhen` | crates/experimentation-bandit/src/lp_constraints.rs:345-371 | The fallback answers the projection of the uniform vector whatever the raw map, and meets the linear constraints exactly when that projection does |
| `ConstraintLimits.FallbackMeetsMeanRows` | crates/experimentation-bandit/src/lp_constraints.rs:345-371 | Read off the input, when the even split is within all bounds: the fallback meets a row with coefficients in [-m, m] up to 2e-9 m if its mean coefficient is at most the right-hand side, and only if it is up to 4e-9 m |
| `Impressions.ImpressionTracker.constructor` | crates/experimentation-bandit/src/lp_constraints.rs:121-134 | Uniform fractions over the ids |
| `Impressions.ImpressionTracker.Record` | crates/experimentation-bandit/src/lp_constraints.rs:140-149 | Rewrites the whole map, in any order, to the decayed one |
| `Impressions.ImpressionTracker.AddArm` | crates/experimentation-bandit/src/lp_constraints.rs:160-162 | Adds a missing arm at 0, changes nothing else |
| `Impressions.RecordedSum` | crates/experimentation-bandit/src/lp_constraints.rs:140-149 | Recording scales the total by 1 - alpha and returns alpha exactly when the arm is tracked |
| `Impressions.WithArmSum` | crates/experimentation-bandit/src/lp_constraints.rs:160-162 | Adding an arm keeps the total |
| `Impressions.RunInRange` | crates/experimentation-bandit/src/lp_constraints.rs:140-162 | Every fraction stays in [0, 1] over any run |
| `Impressions.TotalOverRun` | crates/experimentation-bandit/src/lp_constraints.rs:140-162 | From total 1 the total stays in [0, 1]; it is still 1 if, and for alpha < 1 only if, every recorded arm was tracked |
| `Impressions.InitialTotal` | crates/experimentation-bandit/src/lp_constraints.rs:121-134 | A fresh total is 1 exactly when the ids are distinct |
| `Impressions.FractionClosedFormWith` | crates/experimentation-bandit/src/lp_constraints.rs:140-162 | The closed form from any starting fraction |
| `Impressions.FractionClosedForm` | crates/experimentation-bandit/src/lp_constraints.rs:121-162 | (1 - alpha)^n / K + sum of alpha (1 - alpha)^(n - 1 - t) over the selections t of an initial arm |
| `Mad.MadEProcess.New` | crates/experimentation-bandit/src/mad.rs:214-231 | Validation in order; nothing is built from invalid parameters |
| `Mad.MadEProcess.Init` | crates/experimentation-bandit/src/mad.rs:222-230 | An empty stream |
| `Mad.MadEProcess.Update` | crates/experimentation-bandit/src/mad.rs:242-270 | The fields remain the sum, count, wealth and trajectory of the uniform subsequence; a bandit observation changes only the total count |
| `Mad.UniformStep` | crates/experimentation-bandit/src/mad.rs:252-269 | What one uniform observation adds to the sum, the wealth and the trajectory |
| `Mad.UniformPositions` | crates/experimentation-bandit/src/mad.rs:246-248 | That subsequence is exactly the uniform observations, in order |
| `Mad.TrajectoryEntry` | crates/experimentation-bandit/src/mad.rs:267 | One entry per uniform observation, the t-th being the wealth after t, the last the current one |
| `Mad.WealthClosedForm` | crates/experimentation-bandit/src/mad.rs:250-265 | 2 sigma^2 log-wealth = sum X^2 - sum (X_t - mean_{t-1})^2 |
| `Mad.WealthPlusLearningCost` | crates/experimentation-bandit/src/mad.rs:250-265 | The shortfall from (sum X)^2 / n is exactly sum (X_t - mean_{t-1})^2 / t |
| `Mad.BestConstantBet` | crates/experimentation-bandit/src/mad.rs:250-265 | No constant bet earns more than (sum X)^2 / (2 n sigma^2), and only mean / sigma^2 earns that |
| `Mad.NoLearningCost` | crates/experimentation-bandit/src/mad.rs:250-265 | The learning cost vanishes exactly when all uniform observations are 0 |
| `Mad.HindsightBound` | crates/experimentation-bandit/src/mad.rs:250-265 | The strategy never beats the best constant bet in hindsight, and ties exactly when all uniform observations are 0 |
| `SlateShuffle.ShuffleInPlace` | crates/experimentation-assignment/src/service.rs:689-694 | The in-place loop computes the shuffle of its draw sequence |
| `SlateShuffle.ShuffleIsPermutation` | crates/experimentation-assignment/src/service.rs:689-694 | Every draw sequence permutes the candidates |
| `SlateShuffle.ShuffleIsInjective` | crates/experimentation-assignment/src/service.rs:689-694 | On distinct candidates different draws give different arrangements |
| `SlateShuffle.ShuffleIsBijection` | crates/experimentation-assignment/src/service.rs:689-694 | Every arrangement of distinct candidates comes from exactly one draw sequence |
| `SlateShuffle.DrawsCardinality` | crates/experimentation-assignment/src/service.rs:689-694 | There are n times as many draw sequences for n entries as for n - 1 |
| `SlateShuffle.EverySlotIsUniform` | crates/experimentation-assignment/src/service.rs:689-707 | Each candidate lands in each slot for exactly 1/n of all draws, the probability reported |
| `SlateShuffle.AssignSlate` | crates/experimentation-assignment/src/service.rs:604-717 | Each configuration failure exactly in its case, the bandit service's slate copied through, and the fallback slate slot by slot |
| `SlateShuffle.SlateIsDistinct` | crates/experimentation-assignment/src/service.rs:689-696 | A slate shows only candidates and none twice |
| `VariantSelection.Chosen` | crates/experimentation-assignment/src/service.rs:759-765 | The first variant whose running total exceeds the position, else the last |
| `VariantSelection.SelectVariant` | crates/experimentation-assignment/src/service.rs:755-771 | The loop returns that variant, with the size in wrapping 32-bit arithmetic |
| `VariantSelection.ChosenByRun` | crates/experimentation-assignment/src/service.rs:755-771 | For non-negative fractions of any sum, a position gets the variant in whose run it lies |
| `VariantSelection.RunsTileTheRange` | crates/experimentation-assignment/src/service.rs:751-771 | For fractions summing to 1 the runs tile the range contiguously in variant order, and each position has exactly one variant |
| `VariantSelection.ShareWithinOneBucket` | crates/experimentation-assignment/src/service.rs:751-771 | Each variant's bucket count differs from fraction * size by less than 1 |
| `VariantSelection.OrderKept` | crates/experimentation-assignment/src/service.rs:759-765 | A later bucket never gets an earlier variant |
| `VariantSelection.WrappedRangeIsLast` | crates/experimentation-assignment/src/service.rs:756 | Over the whole 32-bit range the size wraps to 0 and every bucket gets the last variant |
| `VariantSelection.SelectorsAgreeExactly` | sdks/server-go/experimentation.go:264-289 | Service and SDK choose the same variant for every bucket exactly when the range is not the whole 32-bit range or the last variant has all traffic |
| `GoSdk.LocalProvider.constructor` | sdks/server-go/experimentation.go:239-245 | The provider indexes its configurations, the last of a repeated id winning |
| `GoSdk.LastIsKept` | sdks/server-go/experimentation.go:239-245 | The last configuration of an id is kept |
| `GoSdk.LocalProvider.GetAssignment` | sdks/server-go/experimentation.go:249-290 | nil for an unknown experiment, no variants or a bucket outside the allocation, else the selected variant |
| `GoSdk.LocalProvider.Allocate` | sdks/server-go/experimentation.go:264-289 | The selection loop returns the first variant whose running total exceeds the position, else the last |
| `GoSdk.LocalProvider.GetAllAssignments` | sdks/server-go/experimentation.go:292-304 | Exactly the assigned experiments, in any map order |
| `AssignmentFacts.SdkAgreesWithService` | crates/experimentation-assignment/src/service.rs:96-214 | For a running, untargeted, hashed experiment the service and an SDK holding its copy give every user the same answer outside the whole 32-bit range |
| `AssignmentService.SelectArm` | crates/experimentation-assignment/src/service.rs:234-293 | The bandit service or a uniform draw; it fails exactly when there is neither an answer nor an arm |
| `AssignmentService.Assign` | crates/experimentation-assignment/src/service.rs:96-214 | Answers its own id; not-found, layer-missing, session-missing and inactive each exactly in their case; a variant only for a running experiment that targets the request and whose layer is known |
| `AssignmentAnswers.HashedAnswer` | crates/experimentation-assignment/src/service.rs:159-213 | The bucket is the hash of the user id, and for a session-level experiment that of the session id unless the configuration forbids cross-session variation; the answer is the variant the bucket selects inside the allocation, else nothing |
| `AssignmentAnswers.SessionLocking` | crates/experimentation-assignment/src/service.rs:159-181 | Without cross-session variation one user gets one answer in all sessions; with it, or without a session configuration, one session gets one answer whoever the user is |
| `AssignmentAnswers.ServedExactlyWhenAllocated` | crates/experimentation-assignment/src/service.rs:182-213 | An eligible user of a hashed experiment gets a variant exactly when the user id's bucket is allocated, with that variant's traffic fraction as probability |
| `AssignmentAnswers.BanditAnswer` | crates/experimentation-assignment/src/service.rs:225-293 | A bandit request gets the bandit service's arm with its probability and local payload, or else the arm drawn from the seed of user and experiment, each with an equal share of 1; no configuration or no arm fails a precondition |
| `AssignmentAnswers.MetaAnswer` | crates/experimentation-assignment/src/service.rs:393-474 | A meta-experiment excludes outside the allocation; inside, the hashed variant scopes key and seed, its fraction multiplies the arm's probability and its control flag is reported |
| `AssignmentAnswers.NothingAssigned` | crates/experimentation-assignment/src/service.rs:108-155 | Inactive, untargeted and slate experiments assign nothing |
| `AssignmentAnswers.MisconfiguredFails` | crates/experimentation-assignment/src/service.rs:299-330 | A switchback without a valid configuration fails a precondition; hashing into no buckets, or to no variants, panics |
| `AssignmentFacts.AnswerAtSecond` | crates/experimentation-assignment/src/service.rs:299-379 | At every second a running switchback answers what the schedule serves then, with probability 1 and the block index, or excludes |
| `AssignmentFacts.DependsOnOneExperiment` | crates/experimentation-assignment/src/service.rs:96-214 | A decision depends on the snapshot only through its experiment and that experiment's layer |
| `AssignmentBatch.Partition` | crates/experimentation-assignment/src/service.rs:793-797 | Holdouts and the rest, in order |
| `AssignmentBatch.AssignHoldouts` | crates/experimentation-assignment/src/service.rs:799-823 | Phase one collects the successes and the claimed layers |
| `AssignmentBatch.AssignBatch` | crates/experimentation-assignment/src/service.rs:784-840 | The two loops compute the batch of the calls made, each call with its own snapshot |
| `AssignmentBatch.ClaimedExactly` | crates/experimentation-assignment/src/service.rs:799-823 | A layer is claimed exactly when some holdout in it assigned a non-empty variant or failed |
| `AssignmentBatch.BatchContents` | crates/experimentation-assignment/src/service.rs:784-840 | A batch is exactly the successful calls in order: all holdouts, then the regular experiments whose batch-snapshot layer is unclaimed |
| `AssignmentBatch.AnsweredExactlyWhen` | crates/experimentation-assignment/src/service.rs:784-840 | With distinct ids an experiment is answered exactly when a call decided it and succeeded |
| `AssignmentBatch.HoldoutsAreExclusive` | crates/experimentation-assignment/src/service.rs:776-783 | After the call for a holdout served a variant or failed, no regular experiment of its layer is answered, whatever is published between the calls |
| `AssignmentBatch.OpenLayersAreDecided` | crates/experimentation-assignment/src/service.rs:799-828 | If every holdout of a layer is answered without a variant, each regular experiment of the layer is decided |
| `AssignmentBatch.DecidedInOrder` | crates/experimentation-assignment/src/service.rs:793-828 | A batch decides all holdouts and then all regular experiments of unclaimed layers, each in the snapshot's order |
| `BatchLeaks.SeenAfterLog` | crates/experimentation-assignment/src/config_cache.rs:67-110 | After a log an experiment is known unless its last touching update deleted it, in the layer its last upsert named or else its initial one |
| `BatchLeaks.LeaksExactlyWhen` | crates/experimentation-assignment/src/service.rs:799-837 | Over one update log: a claiming holdout and a served experiment differ in batch layer, and their calls see one layer exactly when the holdout is still known and the last upserts before the two calls, or else the batch layers, name one layer; then some update moved one of them |
| `BatchLeaks.MovedIsPublished` | crates/experimentation-assignment/src/config_cache.rs:67-124 | The snapshots of the counterexamples are what the cache publishes before and after two explicit upserts |
| `BatchLeaks.MovesLeakExactlyWhen` | crates/experimentation-assignment/src/service.rs:103 | A published batch whose two experiments are moved to given layers before its calls leaks exactly when those are one layer |
| `BatchLeaks.LayerMovesLeak` | crates/experimentation-assignment/src/service.rs:103 | Published counterexamples: the experiment moves, the holdout moves, both move to a new layer |
| `Murmur3.GoMurmurhash3` | sdks/server-go/murmur3.go:13-58 | The wrapping-word loop computes the specified hash of every input and seed |
| `Murmur3.GoMix` | sdks/server-go/murmur3.go:27-29 | Multiply, rotate by 15, multiply |
| `Murmur3.GoTailWord` | sdks/server-go/murmur3.go:36-46 | The fall-through switch gathers the tail word |
| `Murmur3.GoFmix32` | sdks/server-go/murmur3.go:60-67 | The finaliser on wrapping words |
| `Murmur3.GoRotl` | sdks/server-go/murmur3.go:28 | Shifts and or on a word are a rotation |
| `Murmur3.PyMurmurhash3` | scripts/generate_hash_vectors.py:18-72 | The masked big-integer loop computes the same hash for every seed's low 32 bits and every length below 2^32 |
| `Murmur3.PyRotl` | scripts/generate_hash_vectors.py:24-25 | One mask after the shifts is a rotation |
| `Murmur3.PyFmix32` | scripts/generate_hash_vectors.py:27-33 | The masked finaliser |
| `Murmur3.PyMix` | scripts/generate_hash_vectors.py:44-46 | The masked block mix |
| `Murmur3.PyTailWord` | scripts/generate_hash_vectors.py:52-61 | The tail branches |
| `Murmur3Collisions.MixBlockBijective` | sdks/server-go/murmur3.go:27-29 | Block mixing is undone by its inverse |
| `Murmur3Collisions.Fmix32Bijective` | sdks/server-go/murmur3.go:60-67 | The finaliser is undone by its inverse |
| `Murmur3Collisions.MixStateInjective` | sdks/server-go/murmur3.go:31-33 | The state step is injective in the block and in the state |
| `Murmur3Collisions.LocalChangesNeverCollide` | sdks/server-go/murmur3.go:13-58 | Equal lengths differing only in one aligned block, or only in the tail, never collide |
| `Murmur3Collisions.SeedsNeverCollide` | sdks/server-go/murmur3.go:13-58 | Different seeds always give different hashes |
| `Murmur3Collisions.FourBytesCoverEveryHash` | sdks/server-go/murmur3.go:13-58 | Each 32-bit value is the hash of exactly one 4-byte input |
| `Murmur3Collisions.GoComputeBucket` | sdks/server-go/hash_pure.go:9-17 | The SDK's bucket is the specified one |
| `Murmur3Collisions.PyBucket` | scripts/generate_hash_vectors.py:75-78 | The script's bucket is the same one |
| `Murmur3Vectors.EmptyInput` | sdks/server-go/murmur3.go:13-67 | No bytes hash to 0 with seed 0, and to 0x514e28b7 with seed 1 |
| `Murmur3Vectors.ZeroBlock` | sdks/server-go/murmur3.go:13-67 | Four zero bytes hash to 0x2362f9de |
| `Murmur3Vectors.Hello` | sdks/server-go/experimentation_test.go:28-29 | hello hashes to 0x248bfa47 and, with seed 1, to 0xbb4abcad |
| `Murmur3Vectors.FirstVector` | test-vectors/hash_vectors.json:1 | user_000000 with salt experiment_default_salt is in bucket 3913 of 10000 |
| `Switchback.ValidateConfig` | crates/experimentation-assignment/src/switchback.rs:150-178 | Accepted exactly with blocks of at least an hour, at least 4 cycles and 0 <= washout < block |
| `Switchback.ControlIndex` | crates/experimentation-assignment/src/switchback.rs:86-89 | The first control variant, else the first variant |
| `Switchback.TreatmentIndex` | crates/experimentation-assignment/src/switchback.rs:91-97 | Differs from the control slot exactly when there are two variants |
| `Switchback.TreatmentIsFirstNonControl` | crates/experimentation-assignment/src/switchback.rs:91-97 | It is the documented first non-control variant exactly when some variant is a control and the first two are not both |
| `Switchback.BlockShape` | crates/experimentation-assignment/src/switchback.rs:42-64 | Block b is the d seconds from b d on, of which exactly the first washout seconds are excluded |
| `Switchback.SideOfBlock` | crates/experimentation-assignment/src/switchback.rs:113-135 | Alternating treats exactly the odd blocks; balanced does so for group 0 of the hash and the reverse for group 1 |
| `Switchback.RandomizedSide` | crates/experimentation-assignment/src/switchback.rs:137-144 | Randomized treats a block when the hash of experiment, cluster and its decimal number is odd |
| `Switchback.HalfOfBlocksTreated` | crates/experimentation-assignment/src/switchback.rs:116-135 | Under the alternating and balanced designs a cluster is treated in exactly n of any 2 n consecutive blocks |
| `Switchback.ClustersAgreeAlwaysOrNever` | crates/experimentation-assignment/src/switchback.rs:116-135 | Two clusters agree in all blocks or in none |
| `Switchback.BalancedSplitExactlyWhen` | crates/experimentation-assignment/src/switchback.rs:120-135 | Half of the clusters are treated exactly when the hash groups are equally large |
| `Switchback.SingleClusterIsNeverSplit` | crates/experimentation-assignment/src/switchback.rs:120-135 | Counterexample to the documented exact half |
| `Switchback.EqualExposure` | crates/experimentation-assignment/src/switchback.rs:42-135 | Over 2 n consecutive blocks a cluster spends n (d - washout) seconds on each side and 2 n washout seconds excluded |
| `AssignmentFacts.EqualService` | crates/experimentation-assignment/src/service.rs:299-379 | The service itself answers with each side's variant for n (d - washout) seconds and excludes for 2 n washout |
| `ConfigCaching.ConfigCache.constructor` | crates/experimentation-assignment/src/config_cache.rs:37-59 | The maps are those of the initial lists and readers see the initial configuration |
| `ConfigCaching.LastExperimentIndexed` | crates/experimentation-assignment/src/config.rs:237-240 | An index holds the last experiment with an id |
| `ConfigCaching.LastLayerIndexed` | crates/experimentation-assignment/src/config.rs:241-244 | An index holds the last layer with an id |
| `ConfigCaching.ConfigCache.ApplyUpdate` | crates/experimentation-assignment/src/config_cache.rs:67-110 | One update is one step of the state, and what is published afterwards equals the maps |
| `ConfigCaching.ConfigCache.Publish` | crates/experimentation-assignment/src/config_cache.rs:118-124 | Indexes equal to the maps and lists of their values without repetition, in any map order |
| `ConfigCaching.ConfigCache.Snapshot` | crates/experimentation-assignment/src/config_cache.rs:129-131 | Readers get what was last published |
| `ConfigCaching.Consume` | crates/experimentation-assignment/src/stream_client.rs:101-118 | Consuming a log replays it |
| `ConfigHistory.LocalPart` | crates/experimentation-assignment/src/config_cache.rs:149-211 | Local fields are the initial ones exactly when the experiment was there initially and was never deleted, else the defaults |
| `ConfigHistory.ExperimentAfterLog` | crates/experimentation-assignment/src/config_cache.rs:67-110 | After any log an experiment is as its last touching update left it, field by field |
| `ConfigHistory.StreamedCarries` | crates/experimentation-assignment/src/config_cache.rs:153-211 | Each streamed field is the update's, states and types by the names of their codes |
| `ConfigHistory.UntouchedExperiment` | crates/experimentation-assignment/src/config_cache.rs:67-110 | An experiment no update touches is unchanged |
| `ConfigHistory.LayersAfterLog` | crates/experimentation-assignment/src/config_cache.rs:83-99 | Layers never disappear or change; new ones are exactly the non-empty layer names of upserts, with 10000 buckets |
| `ConfigHistory.VersionIsMaximum` | crates/experimentation-assignment/src/config_cache.rs:105-107 | The version is the maximum of the initial one and those seen |
| `ConfigHistory.ReapplyingIsIdle` | crates/experimentation-assignment/src/config_cache.rs:67-110 | Re-applying the latest update changes nothing |
| `ConfigHistory.UpsertedExperimentFindsLayer` | crates/experimentation-assignment/src/config_cache.rs:83-99 | The layer of an upserted experiment is found exactly when it is named or an unnamed layer was there initially |
| `ConfigHistory.NewExperimentReachesEveryone` | crates/experimentation-assignment/src/config_cache.rs:166-170 | A running hashed experiment first seen on the stream in a new layer gives every user one of its variants |
| `ConfigHistory.StreamedBanditNeverServes` | crates/experimentation-assignment/src/config_cache.rs:172-184 | A bandit or switchback experiment known only from the stream fails a precondition for every request |

## Left out

- KlOptimality.ProjectionIsOptimal: compares vectors of the answer's own total, which misses 1 by up to 2e-9; against totals of exactly 1 the excess is bounded by KlPrecision.ProjectionNearOptimal.
- DualOptimality.OnlyTightConstraintsMatter: covers admissible answers only; one of several constraints broken within the 1e-5 tolerance while another is slack is bounded by DualAscent.AnswerGap.
- DualOptimality.OptimalExactlyWhenStartAccepted: leaves out coefficients above 25 with a rejection of at most 4e-9 times the largest, where the bisected totals may differ by more than the violation; DualOptimality.OneConstraintExactlyWhen covers them.
- VariantSelection.SelectVariant: models the release build, where the allocation size wraps; a debug build panics on the whole 32-bit range instead.
- AssignmentService.Assign: does not model the internals of targeting rules, of the bandit service call (timeout, context features) or of the seeded generator, which are parameters; log output is left out.
- AssignmentBatch.AssignBatch: does not model a batch aborted by a panic; its precondition excludes one.
- GoSdk.LocalProvider.GetAssignment: does not model 64-bit overflow of the signed allocation size; payloads are their JSON text.
- Constraints.ConstraintSolver.Apply: does not promise a total near 1 for repeated arm ids, whose entries overwrite each other.
- ConfigCaching.ConfigCache.ApplyUpdate: does not model lagging or dropped readers of the watch channel; before the first update readers see the initial configuration as it was built.
- Floating-point rounding, overflow and the finiteness assertions.
- The e-value of the e-process result and its saturation (mad.rs:273-290): only log-wealth is modelled.
- The uniform-bandit mixer of the MAD design (mad.rs:100-148) and all other draws from probability distributions.
- nalgebra's in-place matrix buffers: an arm's matrix is a field of value type that each update reassigns.
- Fields of the bandit, meta-experiment and interleaving configurations that no modelled decision reads.
- Interleaved lists, Thompson sampling, the neural policy, cold start and reward composition.
- Serialisation and snapshots of policies, JSON loading and its validation.
- gRPC, Connect, timeouts, tracing, databases, the management and statistics services and the user interface.
- Memory safety and concurrency of the watch channel: a publish is one atomic replacement of the snapshot.
