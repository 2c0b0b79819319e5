# ISC5305 scientific-computing coursework, modelled in Dafny

This project models the numerical core of the ISC5305 course repository:

- **Particle programs** (homework2). There are two Vector classes.
  - One adds and dot-multiplies over its own size without checking the other operand.
  - The other throws `runtime_error` when the sizes differ.
  - Both have the L1/L2/Linf `norm` and a Particle that takes explicit Euler steps.
- **Three 3-D grids** (homework3): a flat `new double[]`, nested `std::vector`s and a `new`-ed `double***`. Each has a bounds-checked get/set and a dimension-checked `+`.
- **Newton and secant root solvers** (homework4), in two versions:
  - `solver.h`;
  - `solver_p.h`, which adds step limiting, a derivative guard and an iteration log.
- **The triangle-mesh area code** (homework5): triangle areas, total area, vertex areas and edge lengths.
- **The `ScientificContainer` template** (homework6): duplicate-key rejection, metadata with callbacks, filtering and string reversal.
- **The expression tree** (homework7): symbolic differentiation and evaluation, and the polynomial built from a list of zeros.
- **The integration library** (homework9):
  - basic, composite and adaptive trapezoid and Simpson rules, in recursive and stack-based forms;
  - the cached function wrappers;
  - the `Integration` class hierarchy with result combination and accumulation;
  - benchmarking bookkeeping and result analysis;
  - the standalone integration programs.
- **Three concurrent trapezoid integrators** (homework10): chunked threads, a task queue with a worker and equal pieces per thread.

Modelling conventions:

- `double` is `real`. `sqrt`, `sin`, `cos` and `round` are function parameters. Where non-negativity matters, `IsSqrt` says the root is a non-negative square root.
- Integrands are `real -> real` functions.
- Exceptions are modelled as a `Result` failure or an `Outcome` failure that carries the exception's kind.
- Threads run one after the other, in index order.
- Loops are `method`s proved against recursive specification functions. Objects whose fields change are `class`es.

The main facts proved:

- The composite, adaptive and stack-based rules agree with their specification functions.
- The trapezoid family is exact for affine integrands, and the Simpson family for `x*x`.
- The parallel chunks partition the panels exactly. The threaded pieces tile `[a, b]`.
- The task-queue step, with the corrected half values, conserves "result plus integral still owed by the queue" for affine integrands. The queue is FIFO.
- Differentiation of the expression tree agrees with dual-number evaluation (sum and product rules).
- The polynomial built from a list of zeros vanishes at each of them.
- Vertex areas add up to the triangle areas they distribute.
- The grids compute flat indices that are in range and injective.
- The root solvers' final-iteration bounds hold. Both Newton solvers and both secant solvers find the exact root of an affine function. The step-limited Newton solver needs the root within its step limit of the start.

Two modelled programs contradict themselves:

- `main` in `homework2/homework2_1.cpp` builds a 3-D particle whose force has only two components (`VectorParticle.MainThreeDParticleForceTooShort`), so its `update` reads past the force.
- The task-queue integrator doubles its half-interval values (see Findings).

## Model

| member | source | states |
|---|---|---|
| GridCommon.FlatIndexInRange | homework3/grid3d_1d_array.cpp:33 | in-range (i, j, k) give a row-major flat index in [0, nx*ny*nz) |
| GridCommon.FlatIndexInjective | homework3/grid3d_1d_array.cpp:42 | two different in-range cells never share a flat index |
| Grid1DArray.Grid1.constructor | homework3/grid3d_1d_array.cpp:6-11 | nx*ny*nz zero cells with the given dimensions |
| Grid1DArray.Grid1.Create | homework3/grid3d_1d_array.cpp:6-11 | fails with bad_array_new_length exactly when nx*ny*nz < 0; otherwise every in-range cell reads 0.0 |
| Grid1DArray.Grid1.Size | homework3/grid3d_1d_array.cpp:19-21 | the number of cells, nx*ny*nz |
| Grid1DArray.Grid1.Memory | homework3/grid3d_1d_array.cpp:24-26 | eight bytes per cell |
| Grid1DArray.Grid1.Get | homework3/grid3d_1d_array.cpp:29-35 | out_of_range exactly when an index is out of bounds; otherwise the cell's value |
| Grid1DArray.Grid1.Set | homework3/grid3d_1d_array.cpp:38-44 | out_of_range exactly when out of bounds, with nothing changed; otherwise the cell reads back v and no other cell changes |
| Grid1DArray.Grid1.Add | homework3/grid3d_1d_array.cpp:47-57 | invalid_argument exactly when the dimensions differ; otherwise a new grid holding the cellwise sum, leaving both operands unchanged |
| GridVector.Zeros | homework3/grid3d_vector.cpp:10 | the nested resize gives an nx by ny by nz grid of zeros |
| GridVector.Grid2.constructor | homework3/grid3d_vector.cpp:6-11 | the nested vectors have the given shape and all cells are 0.0 |
| GridVector.Grid2.Create | homework3/grid3d_vector.cpp:6-11 | invalid_argument exactly when some dimension is not positive; otherwise a zero grid |
| GridVector.Grid2.Size | homework3/grid3d_vector.cpp:17-19 | the number of cells |
| GridVector.Grid2.Memory | homework3/grid3d_vector.cpp:22-24 | eight bytes per cell |
| GridVector.Grid2.Get | homework3/grid3d_vector.cpp:27-32 | out_of_range exactly when out of bounds; otherwise the cell |
| GridVector.Grid2.Set | homework3/grid3d_vector.cpp:35-40 | out_of_range exactly when out of bounds, with nothing changed; otherwise only that cell changes, to v |
| GridVector.Grid2.Add | homework3/grid3d_vector.cpp:43-57 | invalid_argument exactly on a dimension mismatch; otherwise a new grid holding the cellwise sum |
| GridNew.Grid3.constructor | homework3/grid3d_new.cpp:6-21 | an nx by ny by nz zero grid |
| GridNew.Grid3.Create | homework3/grid3d_new.cpp:6-21 | invalid_argument exactly when some dimension is not positive; otherwise a zero grid |
| GridNew.Grid3.Size | homework3/grid3d_new.cpp:35-37 | the number of cells |
| GridNew.Grid3.Memory | homework3/grid3d_new.cpp:40-42 | eight bytes per cell |
| GridNew.Grid3.Get | homework3/grid3d_new.cpp:45-50 | out_of_range exactly when out of bounds; otherwise the cell |
| GridNew.Grid3.Set | homework3/grid3d_new.cpp:53-58 | out_of_range exactly when out of bounds; otherwise only that cell changes, to v |
| GridNew.Grid3.Add | homework3/grid3d_new.cpp:61-75 | invalid_argument exactly on a dimension mismatch; otherwise a new grid holding the cellwise sum |
| PolynomialTree.Differentiate | homework7/main.cpp:56-80 | null stays null, a constant becomes 0, every variable 1, '+' by the sum rule, '*' by the product rule f'g + fg', any other operator null |
| PolynomialTree.Evaluate | homework7/main.cpp:83-102 | null is 0, a constant its value, every variable x whatever its name, '+' and '*' add and multiply the children, any other operator 0 |
| PolynomialTree.DualValue | homework7/main.cpp:83-102 | the value part of dual-number evaluation is evaluate |
| PolynomialTree.DifferentiateIsDerivative | homework7/main.cpp:56-80 | evaluating differentiate(e) at x gives the derivative of e at x by the sum and product rules |
| PolynomialTree.DifferentiatePreservesPolynomial | homework7/main.cpp:56-80 | the derivative of a polynomial tree is again a non-null polynomial tree |
| PolynomialTree.UnknownOperatorDifferentiatesToNull | homework7/main.cpp:66-102 | an operator other than + and * differentiates to nullptr, and the operator node itself evaluates to 0 at every x |
| PolynomialTree.RootProductVanishes | homework7/main.cpp:130-139 | the product of (x - z) over the zeros is 0 at each zero |
| PolynomialTree.DefinePolynomial | homework7/main.cpp:130-139 | nullptr exactly for no zeros; otherwise a polynomial tree that evaluates to the product of (x - z) |
| PolynomialTree.DefinedPolynomialVanishesAtZeros | homework7/main.cpp:130-139 | the polynomial built from a list of zeros is 0 at each of them |
| PolynomialTree.PolynomialBinaryTree.constructor | homework7/main.cpp:43 | the tree starts with a null root |
| PolynomialTree.PolynomialBinaryTree.AddNode | homework7/main.cpp:46-53 | the node becomes the root only when the root is null; otherwise the tree is unchanged |
| ScientificContainerModel.NatToString | homework6/main.cpp:87 | std::to_string of a natural number is a non-empty string of decimal digits |
| ScientificContainerModel.IntToString | homework6/main.cpp:87 | the string starts with '-' exactly for negative numbers |
| ScientificContainerModel.ParseNatToString | homework6/main.cpp:87 | the decimal digits parse back to the number |
| ScientificContainerModel.ParseIntToString | homework6/main.cpp:87 | the signed decimal string of any integer reads back to that integer, so to_string loses nothing |
| ScientificContainerModel.IntToStringInjective | homework6/main.cpp:87 | different keys give different strings |
| ScientificContainerModel.DuplicateMessage | homework6/main.cpp:45-49 | the message is "Duplicate element: " followed by the key's decimal form |
| ScientificContainerModel.DuplicateMessageInjective | homework6/main.cpp:45-49 | different keys give different messages |
| ScientificContainerModel.Reverse | homework6/main.cpp:64 | character i of the result is character n-1-i of the input |
| ScientificContainerModel.ReverseInvolutive | homework6/main.cpp:64 | reversing twice gives back the string |
| ScientificContainerModel.ProcessString | homework6/main.cpp:60-65 | invalid_argument exactly for the empty string; otherwise the string reversed |
| ScientificContainerModel.FilterMembers | homework6/main.cpp:131-137 | a key is reported exactly when it is stored and satisfies the condition |
| ScientificContainerModel.FilterLength | homework6/main.cpp:131-137 | never more keys than stored, with equality exactly when all satisfy the condition |
| ScientificContainerModel.ScientificContainer.constructor | homework6/main.cpp:78-81 | an empty container with no metadata and no callback |
| ScientificContainerModel.ScientificContainer.AddElement | homework6/main.cpp:85-91 | fails with the duplicate message exactly when the key was seen, changing nothing; otherwise appends (key, value) and records the key; metadata untouched |
| ScientificContainerModel.ScientificContainer.AddMetadata | homework6/main.cpp:94-103 | runtime_error exactly when the key exists; otherwise stores the data and sets a given callback; elements untouched |
| ScientificContainerModel.ScientificContainer.FilterElements | homework6/main.cpp:131-137 | reports, in insertion order, exactly the stored keys that satisfy the condition |
| ScientificContainerModel.ScientificContainer.Entries | homework6/main.cpp:140-141 | iteration visits each stored key once, and exactly the stored keys |
| IntegrationMethods.BasicTrapezoidal | homework9/integration_methods.cpp:10-12 | 0.5 (b - a)(f(a) + f(b)) |
| IntegrationMethods.BasicSimpson | homework9/integration_methods.cpp:15-19 | (h/3)(f(a) + 4 f((a + b)/2) + f(b)) with h = (b - a)/2 |
| IntegrationMethods.TrapezoidalRule | homework9/integration_methods.cpp:22-32 | the composite trapezoid with h = (b - a)/n: h times half the end values plus the samples at a + i h for 0 < i < n |
| IntegrationMethods.SimpsonRule | homework9/integration_methods.cpp:35-48 | composite Simpson over the count bumped to even: h/3 times f(a) + f(b) plus the interior samples weighted 4 at odd and 2 at even indices |
| IntegrationMethods.AdaptiveTrapezoidal | homework9/integration_methods.cpp:51-67 | the basic trapezoid at the depth limit; below it the two-panel value when within tol of the one-panel value, else both halves with tol/2 one level deeper |
| IntegrationMethods.AdaptiveSimpson | homework9/integration_methods.cpp:70-88 | basicSimpson at the depth limit; below it the inline whole, left and right panels, left + right when within tol of whole, else both halves with tol/2 one level deeper |
| IntegrationMethods.SimpsonNonAdaptiveRecursive | homework9/integration_methods.cpp:127-145 | the same recursion as adaptive Simpson, under the non-adaptive name |
| IntegrationMethods.FixedTolTrapezoidal | homework9/integration_methods.cpp:91-124 | the value the stack loop computes: bisection as in the adaptive trapezoid, but with the same tol at every depth |
| IntegrationMethods.BasicSimpsonInline | homework9/integration_methods.cpp:75-79 | the inline one-panel Simpson value is basicSimpson |
| IntegrationMethods.BasicTrapezoidalExactForAffine | homework9/integration_methods.cpp:10-12 | one trapezoid is exact for affine f |
| IntegrationMethods.BasicSimpsonExactForSquare | homework9/integration_methods.cpp:15-19 | one Simpson panel is exact for x*x |
| IntegrationMethods.TrapezoidalRuleIsPanelSum | homework9/integration_methods.cpp:22-32 | the composite rule equals the sum of n basic trapezoids over consecutive panels |
| IntegrationMethods.PanelTrapezoidsClosed | homework9/integration_methods.cpp:22-32 | n >= 1 basic trapezoids over consecutive panels add up to h times (half the end values plus the interior samples) |
| IntegrationMethods.TrapezoidMeansClosed | homework9/integration_methods.cpp:22-32 | the panels' mean end values add up to half the end values plus the interior samples |
| IntegrationMethods.TrapezoidPanel | homework9/integration_methods.cpp:10-12 | basicTrapezoidal on a panel of width h is h times the mean of its end values |
| IntegrationMethods.PanelTrapezoidsExactForAffine | homework9/integration_methods.cpp:10-12 | for affine f the panel trapezoids telescope to the primitive's increase over [a, a + n*h] |
| IntegrationMethods.TrapezoidalRuleOneInterval | homework9/integration_methods.cpp:22-32 | with one interval the composite rule is basicTrapezoidal |
| IntegrationMethods.TrapezoidalRuleExactForAffine | homework9/integration_methods.cpp:22-32 | the composite rule with n >= 1 intervals is exact for affine f |
| IntegrationMethods.TrapezoidalNonRecursive | homework9/integration_methods.cpp:22-32 | the loop computes the composite trapezoid rule |
| IntegrationMethods.EvenUp | homework9/integration_methods.cpp:36-37 | an odd interval count is raised by one, an even one kept |
| IntegrationMethods.SimpsonRuleIsPanelSum | homework9/integration_methods.cpp:35-48 | the composite Simpson rule is the sum of basicSimpson over consecutive double panels |
| IntegrationMethods.BracketsClosed | homework9/integration_methods.cpp:35-48 | the per-panel brackets f0 + 4 f1 + f2 add up to the composite formula's weighted sum 1, 4, 2, ..., 4, 1 |
| IntegrationMethods.PanelSimpsonsClosed | homework9/integration_methods.cpp:35-48 | k basicSimpson panels add up to h/3 times the weighted sum |
| IntegrationMethods.SimpsonPanel | homework9/integration_methods.cpp:15-19 | basicSimpson on a double panel is h/3 times f0 + 4 f1 + f2 at its three sample points |
| IntegrationMethods.SimpsonRuleOneOrTwo | homework9/integration_methods.cpp:35-48 | with one or two intervals it is basicSimpson on [a, b] |
| IntegrationMethods.SimpsonRuleExactForSquare | homework9/integration_methods.cpp:35-48 | composite Simpson is exact for x*x |
| IntegrationMethods.SimpsonNonRecursive | homework9/integration_methods.cpp:35-48 | the weighted loop computes the composite Simpson rule with the evened count |
| IntegrationMethods.AdaptiveTrapezoidalExactForAffine | homework9/integration_methods.cpp:51-67 | adaptive trapezoid is exact for affine f at every tolerance and depth |
| IntegrationMethods.AdaptiveTrapezoidalExact | homework9/integration_methods.cpp:51-67 | whenever basicTrapezoidal is exact on every interval with primitive F, adaptive trapezoid returns F(b) - F(a) at every tolerance and depth |
| IntegrationMethods.AdaptiveTrapezoidalStepExact | homework9/integration_methods.cpp:56-66 | a split step is exact, accepted or recursed, when the panel, its halves and the recursive halves are |
| IntegrationMethods.AdaptiveSimpsonPanels | homework9/integration_methods.cpp:75-79 | the inline whole, left and right panels are basicSimpson values |
| IntegrationMethods.AdaptiveSimpsonStep | homework9/integration_methods.cpp:70-88 | below the depth limit the result is left + right when within tol, else the two halves with tol/2 one level deeper |
| IntegrationMethods.AdaptiveSimpsonExact | homework9/integration_methods.cpp:70-88 | whenever basicSimpson is exact on every interval with primitive F, adaptive Simpson returns F(b) - F(a) at every tolerance and depth |
| IntegrationMethods.AdaptiveSimpsonExactForSquare | homework9/integration_methods.cpp:70-88 | adaptive Simpson is exact for x*x |
| IntegrationMethods.SimpsonNonAdaptiveIsAdaptive | homework9/integration_methods.cpp:127-145 | the non-adaptive recursive Simpson equals adaptive Simpson with the same tolerance and depth |
| IntegrationMethods.FixedTolTrapezoidalExactForAffine | homework9/integration_methods.cpp:91-124 | the stack-based bisection, which keeps the tolerance fixed, is exact for affine f |
| IntegrationMethods.IntervalValue | homework9/integration_methods.cpp:107-120 | a popped interval is accepted with its refined value or replaced by its halves, which owe the same work |
| IntegrationMethods.PushHalves | homework9/integration_methods.cpp:118-119 | pushing the halves keeps the stack's pending value |
| IntegrationMethods.StackStart | homework9/integration_methods.cpp:95-96 | the initial stack with [a, b] at depth 0 satisfies the stack invariant |
| IntegrationMethods.StackStepLimit | homework9/integration_methods.cpp:102-105 | an interval at maximum depth adds its basic trapezoid and keeps the invariant |
| IntegrationMethods.StackStepAccept | homework9/integration_methods.cpp:115-116 | an accepted interval adds its refined value and keeps the invariant |
| IntegrationMethods.StackStepSplit | homework9/integration_methods.cpp:117-120 | splitting keeps the invariant |
| IntegrationMethods.IntervalSplitValue | homework9/integration_methods.cpp:107-120 | a rejected split owes exactly what its two halves owe one level deeper |
| IntegrationMethods.StackPass | homework9/integration_methods.cpp:98-121 | one pass of the loop keeps the stack invariant and lowers the remaining work |
| IntegrationMethods.AdaptiveTrapezoidalNonRecursive | homework9/integration_methods.cpp:91-124 | the stack loop computes the fixed-tolerance bisection value, as a chain of accepted pieces covering [a, b] |
| TrapezoidalAdaptiveNonRecursiveProgram.AdaptiveTrapezoidalNonRecursive | homework9/trapezoidal_adaptive_nonrecursive.cpp:15-84 | the standalone stack loop yields the library's fixed-tolerance bisection value |
| TrapezoidalAdaptiveNonRecursiveProgram.StackPass | homework9/trapezoidal_adaptive_nonrecursive.cpp:15-84 | one pass over records with the unused fm field keeps the library's stack invariant and lowers the work |
| TrapezoidalAdaptiveNonRecursiveProgram.DepthLimitZero | homework9/trapezoidal_adaptive_nonrecursive.cpp:45-50 | with depth limit 0 the result is one trapezoid over [a, b] |
| TrapezoidalAdaptiveRecursiveProgram.AdaptiveTrapezoidalRecursive | homework9/trapezoidal_adaptive_recursive.cpp:11-36 | the adaptive trapezoid with the one- and two-panel areas written inline from f(a), f(b) and f(c) |
| TrapezoidalAdaptiveRecursiveProgram.InlinePanelsAreBasic | homework9/trapezoidal_adaptive_recursive.cpp:18-25 | the program's inline trapezoids are basicTrapezoidal |
| TrapezoidalAdaptiveRecursiveProgram.SameAsLibrary | homework9/trapezoidal_adaptive_recursive.cpp:11-36 | the standalone recursion equals the library's adaptive trapezoid |
| TrapezoidalNonAdaptiveNonRecursiveProgram.TrapezoidalNonRecursive | homework9/trapezoidal_nonadaptive_nonrecursive.cpp:6-18 | the loop computes the composite trapezoid rule and evaluates f n+1 times (twice when n < 1) |
| TrapezoidalNonAdaptiveRecursiveProgram.TrapezoidalRecursive | homework9/trapezoidal_nonadaptive_recursive.cpp:13-34 | the basic trapezoid at the depth limit; below it two_trap when within tol of one_trap, else both halves with tol/2 |
| TrapezoidalNonAdaptiveRecursiveProgram.SameAsAdaptive | homework9/trapezoidal_nonadaptive_recursive.cpp:13-34 | the standalone recursion equals the library's adaptive trapezoid |
| SimpsonNonAdaptiveNonRecursiveProgram.SimpsonNonRecursive | homework9/simpson_nonadaptive_nonrecursive.cpp:6-24 | the loop computes the composite Simpson rule with the evened count |
| SimpsonNonAdaptiveNonRecursiveProgram.DriverResult | homework9/simpson_nonadaptive_nonrecursive.cpp:28-36 | the driver's x*x on [2, 10] with 1000 intervals gives 992/3 |
| SimpsonNonAdaptiveRecursiveProgram.SimpsonNonAdaptiveRecursive | homework9/simpson_nonadaptive_recursive.cpp:13-38 | basicSimpson at the depth limit; below it left + right when within tol of whole, else both halves with tol/2 |
| SimpsonNonAdaptiveRecursiveProgram.SameAsAdaptive | homework9/simpson_nonadaptive_recursive.cpp:13-38 | the standalone recursion equals the library's adaptive Simpson |
| SimpsonNonAdaptiveRecursiveProgram.DriverResult | homework9/simpson_nonadaptive_recursive.cpp:42-50 | the driver's x*x on [2, 10] gives the exact 992/3 |
| CachedFunctions.CacheLookup | homework9/definitions.h:54-67 | a stored bin returns its value and leaves the cache alone; a missing bin stores and returns the newly computed value |
| CachedFunctions.SecondLookupHits | homework9/definitions.h:54-67 | right after a miss stores a bin, looking the bin up again hits with the stored value |
| CachedFunctions.LookupFrame | homework9/definitions.h:54-67 | a lookup changes only the looked-up bin |
| CachedFunctions.CachedFunction.constructor | homework9/definitions.h:50-51 | empty cache, both counters 0, caching flag false; the tolerance defaults to 1e-7 |
| CachedFunctions.CachedFunction.Call | homework9/definitions.h:54-67 | a hit returns the stored value; a miss evaluates, stores and adds one evaluation; the value is f at the bin's first argument |
| CachedFunctions.CachedFunction.Evaluate | homework9/definitions.h:35-38 | counts a call, then calls as Call does |
| CachedFunctions.CachedFunction.ResetCounter | homework9/definitions.h:26 | the call count becomes 0 and nothing else changes |
| CachedFunctions.CachedFunction.ResetEvaluations | homework9/definitions.h:70 | the evaluation count becomes 0 and nothing else changes |
| CachedFunctions.CachedFunction.ClearCache | homework9/definitions.h:71 | the cache is emptied and the counters are kept |
| CachedFunctions.FastCachedFunction.constructor | homework9/definitions.h:89-91 | empty cache, count 0, caching flag true; the tolerance defaults to 1e-7 |
| CachedFunctions.FastCachedFunction.Call | homework9/definitions.h:94-104 | a hit returns the stored value; a miss evaluates, stores and counts once |
| CachedFunctions.FastCachedFunction.Evaluate | homework9/definitions.h:35-38 | counts a call, then calls as Call does |
| CachedFunctions.FastCachedFunction.ClearCache | homework9/definitions.h:107 | the cache is emptied and the count kept |
| IntegrationDriver.Integrate | homework9/main.cpp:55-121 | each subclass's integrate(): composite Simpson, adaptive Simpson, composite trapezoid or adaptive trapezoid on [a, b], with adaptive depth starting at 0 |
| IntegrationDriver.IntegrateExactForSquare | homework9/main.cpp:55-121 | every Simpson-based integrator gives the exact integral of x*x |
| IntegrationDriver.IntegrateExactForAffine | homework9/main.cpp:55-121 | every trapezoid-based integrator gives the exact integral of an affine f |
| IntegrationDriver.Integration.constructor | homework9/main.cpp:25-26 | bounds, flags and zeroed time and result as given |
| IntegrationDriver.Integration.Call | homework9/main.cpp:35-41 | stores and returns the subclass's integral and records the elapsed time |
| IntegrationDriver.Combine | homework9/main.cpp:129-134 | fails exactly when the intervals are not contiguous; otherwise the sum of the two results |
| IntegrationDriver.CombineExactForSquare | homework9/main.cpp:129-134 | combining two exact x*x results gives the exact integral over the joined interval |
| IntegrationDriver.CumulativeIntegration.constructor | homework9/main.cpp:140 | total 0 |
| IntegrationDriver.CumulativeIntegration.Add | homework9/main.cpp:142-145 | adds the integration's result to the total and returns itself |
| IntegrationDriver.BenchmarkIntegrationMethods | homework9/main.cpp:184-207 | appends one row holding the method, function and cache names, the interval count or depth, the recursive flag, the integrator's result, the analytical value, the absolute error between them and the elapsed time; earlier rows are kept |
| IntegrationDriver.AnalyzeResults | homework9/main.cpp:226-248 | total time; the first row of least error and the first of greatest error, starting from DBL_MAX and 0 |
| IntegrationDriver.BestStep | homework9/main.cpp:226-248 | a strictly smaller error takes over as best; an equal or larger one leaves the first best in place |
| ParallelTrapezoidal.ChunkSize | homework10/part1.cpp:32 | chunk_size = n / num_threads, truncating toward zero |
| ParallelTrapezoidal.ChunkStart | homework10/part1.cpp:34 | thread i starts at i * chunk_size |
| ParallelTrapezoidal.ChunkEnd | homework10/part1.cpp:35 | the last thread ends at n, every other one chunk_size panels after its start |
| ParallelTrapezoidal.PanelRange | homework10/part1.cpp:21-30 | the worker's sum of 0.5 h (f(a + i h) + f(a + (i + 1) h)) over start <= i < end, 0 for an empty range |
| ParallelTrapezoidal.TruncDiv | homework10/part1.cpp:32 | C++ integer division, equal to Euclidean division for non-negative n |
| ParallelTrapezoidal.PanelRangeSplit | homework10/part1.cpp:21-30 | panel sums over adjacent ranges add up |
| ParallelTrapezoidal.PanelRangeIsTrapezoids | homework10/part1.cpp:21-30 | each panel is basicTrapezoidal on its subinterval |
| ParallelTrapezoidal.PanelIsTrapezoid | homework10/part1.cpp:21-30 | the worker's panel expression is basicTrapezoidal on that panel |
| ParallelTrapezoidal.PanelRangeIsTrapezoidalRule | homework10/part1.cpp:21-30 | all n panels together are the composite trapezoid rule |
| ParallelTrapezoidal.ChunksPartition | homework10/part1.cpp:32-37 | for n >= 0 the chunks are consecutive, start at 0 and end at n |
| ParallelTrapezoidal.MoreThreadsThanPanels | homework10/part1.cpp:32-37 | with more threads than panels only the last chunk does any work |
| ParallelTrapezoidal.NegativeChunksEmpty | homework10/part1.cpp:32-37 | for n < 0 every chunk is empty |
| ParallelTrapezoidal.Worker | homework10/part1.cpp:21-30 | a worker returns its range's panel sum and two evaluations per panel |
| ParallelTrapezoidal.ParallelNonAdaptiveTrapezoidal | homework10/part1.cpp:15-46 | adds the n panels to the caller's result and counts 2n evaluations; adds nothing for n < 0 |
| ThreadedTrapezoidal.Trapezoidal | homework10/part4.cpp:14-21 | the loop computes the composite trapezoid rule |
| ThreadedTrapezoidal.ThreadTrapezoidal | homework10/part4.cpp:24-31 | the same value as trapezoidal |
| ThreadedTrapezoidal.PieceResults | homework10/part4.cpp:45-60 | the sum of the first k pieces' composite trapezoids, each on [a + i h, a + i h + h] with the same interval count |
| ThreadedTrapezoidal.PiecesTile | homework10/part4.cpp:53-55 | the t pieces start at a, end at b and share endpoints |
| ThreadedTrapezoidal.IntervalsUsed | homework10/part4.cpp:57 | the threads use t*(n/t) <= n intervals, equal exactly when t divides n |
| ThreadedTrapezoidal.ThreadedTotal | homework10/part4.cpp:45-60 | the total is the sum of the pieces' composite rules; 0 with no threads |
| ThreadedTrapezoidal.PieceResultsExactForAffine | homework10/part4.cpp:45-60 | piece results telescope to the exact integral for affine f |
| ThreadedTrapezoidal.ThreadedTotalExactForAffine | homework10/part4.cpp:45-60 | the threaded total is exact over [a, b] for affine f |
| TaskQueueTrapezoidal.HalfSum | homework10/part2.cpp:114-115 | corrected half value: the half's own two-panel trapezoid value, (h/4)(f0 + 2 f1 + f2) |
| TaskQueueTrapezoidal.HalfSumAsWritten | homework10/part2.cpp:114-115 | the half value as written, (h/2)(f0 + 2 f1 + f2) with h the half's full width |
| TaskQueueTrapezoidal.ProcessTask | homework10/part2.cpp:110-125 | with the corrected half values: f at a + h/2 and a + 3h/2, S2 = S_left + S_right, accept S2 + (S2 - S)/15 when abs(S2 - S) < 15 tol, else the two halves with tol/2 |
| TaskQueueTrapezoidal.Advance | homework10/part2.cpp:98-126 | with the corrected half values: pop the front task, add an accepted value to the result, or push the left then the right half at the back |
| TaskQueueTrapezoidal.ProcessTaskAsWritten | homework10/part2.cpp:110-125 | the same iteration body with the half values as written |
| TaskQueueTrapezoidal.AdvanceAsWritten | homework10/part2.cpp:98-126 | the worker iteration as written: pop, process with the as-written half values, add or push |
| TaskQueueTrapezoidal.Seed | homework10/part2.cpp:89-96 | the seed task on [a, b] caches f at its ends and midpoint, and its two-panel value |
| TaskQueueTrapezoidal.HalfSumAsWrittenDoubles | homework10/part2.cpp:114-115 | the half values as written are twice the half's two-panel value |
| TaskQueueTrapezoidal.ConstantOneAsWritten | homework10/part2.cpp:98-126 | for f = 1 on [0, 1] with tolerance 0.001, from result 0: the as-written worker rejects the seed and pushes two halves, accepts each with 1, and after three iterations leaves an empty queue and result 2; the corrected worker accepts the seed at once with 1 |
| TaskQueueTrapezoidal.ConstantOneSeed | homework10/part2.cpp:89-96 | the seed for f = 1 on [0, 1] with tolerance 0.001 caches 1 at both ends and the midpoint and S = 1, the exact integral |
| TaskQueueTrapezoidal.ProcessTaskAsWrittenChildren | homework10/part2.cpp:110-125 | as written, a rejected task's halves tile it, halve the tolerance and cache f correctly at their ends and midpoints, but carry S equal to twice their own two-panel value |
| TaskQueueTrapezoidal.ProcessTaskChildren | homework10/part2.cpp:110-125 | with the corrected half values, a rejected task splits into two halves that tile it, halve the tolerance and inherit correct cached values |
| TaskQueueTrapezoidal.ProcessTaskExactForAffine | homework10/part2.cpp:110-125 | with the corrected half values a task on an affine f is accepted exactly when tol > 0, with its exact integral; otherwise its halves share that integral |
| TaskQueueTrapezoidal.CachedExactForAffine | homework10/part2.cpp:89-96 | a cached task's value is exact for affine f |
| TaskQueueTrapezoidal.AdvanceShape | homework10/part2.cpp:98-126 | the queue is FIFO: the rest keeps its order and the halves go to the back; with the corrected half values all tasks stay cached |
| TaskQueueTrapezoidal.AdvanceConserves | homework10/part2.cpp:98-126 | with the corrected half values and affine f, the result plus the integral owed by the queue is unchanged by a step |
| TaskQueueTrapezoidal.TaskQueueIntegration.constructor | homework10/part2.cpp:89-96 | three evaluations and the seed task queued |
| TaskQueueTrapezoidal.TaskQueueIntegration.Step | homework10/part2.cpp:98-126 | an empty queue stops the worker; otherwise one pop-process step with the corrected half values, which conserves result plus owed integral for affine f |
| TaskQueueTrapezoidal.TaskQueueIntegration.Run | homework10/part2.cpp:98-126 | with the corrected half values, a finished run has an empty queue and kept the conserved sum |
| TaskQueueTrapezoidal.FinishedRunExactForAffine | homework10/part2.cpp:81-137 | with the corrected half values, a finished run adds exactly the integral over [a, b] of an affine f |
| BrainMeshModel.TriangleArea | homework5/brain_mesh.hxx:55-73 | half the length of the cross product of the two edge vectors from the first corner |
| BrainMeshModel.Areas | homework5/brain_mesh.hxx:77-86 | one area per triangle, in triangle order |
| BrainMeshModel.Distribute | homework5/brain_mesh.hxx:90-100 | the vertex areas after the first k triangles each add a third of their area to each of their three corners, in order |
| BrainMeshModel.EdgeLengths | homework5/brain_mesh.hxx:116-136 | the lengths v1-v2, v2-v3 and v1-v3 of every triangle, in triangle order |
| BrainMeshModel.TriangleAreaNonNegative | homework5/brain_mesh.hxx:55-73 | a triangle's area, half the cross product's norm, is never negative |
| BrainMeshModel.RightTriangleArea | homework5/test.cpp:38-57 | the unit right triangle has area 0.5 |
| BrainMeshModel.AreasNonNegative | homework5/brain_mesh.hxx:77-86 | one area per triangle, each non-negative |
| BrainMeshModel.TriangleAreasAndTotal | homework5/brain_mesh.hxx:77-86 | the loop appends exactly the area of each triangle in order, and the running total is their sum |
| BrainMeshModel.TotalAreaNonNegative | homework5/brain_mesh.hxx:77-86 | with a non-negative square root the total area is non-negative |
| BrainMeshModel.ResizeSameSize | homework5/brain_mesh.hxx:90-100 | resizing to the current size changes nothing |
| BrainMeshModel.DistributeConserves | homework5/brain_mesh.hxx:90-100 | giving each triangle's area to its three vertices, a third each, adds the triangles' areas to the vertex total |
| BrainMeshModel.AddShareConserves | homework5/brain_mesh.hxx:90-100 | adding a share to one vertex raises the vertex total by that share |
| BrainMeshModel.SpreadConserves | homework5/brain_mesh.hxx:90-100 | a triangle's three thirds raise the vertex total by its whole area |
| BrainMeshModel.EdgeLengthsShape | homework5/brain_mesh.hxx:116-136 | three non-negative edge lengths per triangle |
| BrainMeshModel.BrainMesh.constructor | homework5/brain_mesh.hxx:11 | an empty mesh with the given name |
| BrainMeshModel.BrainMesh.AddVertex | homework5/brain_mesh.h:68 | appends a vertex and changes nothing else |
| BrainMeshModel.BrainMesh.AddTriangle | homework5/brain_mesh.h:78 | appends a triangle and changes nothing else |
| BrainMeshModel.BrainMesh.GetTotalArea | homework5/brain_mesh.hxx:77-86 | stores the triangle areas and returns their sum, which is non-negative |
| BrainMeshModel.BrainMesh.ComputeVertexAreas | homework5/brain_mesh.hxx:90-100 | the vertex areas grow by the triangle areas distributed a third to each corner |
| BrainMeshModel.BrainMesh.GetEdgeLengths | homework5/brain_mesh.hxx:116-136 | stores and returns three non-negative lengths per triangle |
| BrainMeshModel.VertexAreasSumToTotal | homework5/brain_mesh.hxx:90-100 | on a fresh mesh the vertex areas add up to the total area |
| BrainMeshModel.SecondComputeAddsAgain | homework5/brain_mesh.hxx:90-100 | a second compute, without a reset, counts the total area twice |
| VectorCommon.Norm | homework2/homework2_1.cpp:95-121 | the sum of absolute values for "L1", the square root of the sum of squares for "L2", the largest absolute value from 0 for "Linf", invalid_argument for any other type |
| VectorCommon.NormFailsExactlyOnUnknownType | homework2/homework2_1.cpp:95-121 | invalid_argument exactly for types other than L1, L2 and Linf |
| VectorCommon.MaxAbsIsMaximum | homework2/homework2_1.cpp:95-121 | Linf bounds every component's absolute value and is one of them, or 0 |
| VectorCommon.MaxAbsAtMostSumOfAbs | homework2/homework2_1.cpp:95-121 | Linf never exceeds L1 |
| VectorCommon.NormsNonNegative | homework2/homework2_1.cpp:95-121 | all three norms are non-negative |
| VectorCommon.DotSymmetric | homework2/homework2_1.cpp:73-79 | the dot product of equal-size vectors is symmetric |
| VectorCommon.DotPlusLeft | homework2/homework2_1.cpp:73-79 | the dot product distributes over a sum |
| VectorCommon.DotScaledLeft | homework2/homework2_1.cpp:73-79 | scaling an operand scales the dot product |
| VectorCommon.PlusCommutes | homework2/homework2_1.cpp:37-43 | addition of equal-size vectors commutes |
| VectorCommon.ScaledTwice | homework2/homework2_1.cpp:58-64 | scaling twice is scaling by the product |
| VectorParticle.Vector.Size | homework2/homework2_1.cpp:32-34 | the number of components |
| VectorParticle.Vector.At | homework2/homework2_1.cpp:47-52 | out_of_range exactly outside [0, size); otherwise component i |
| VectorParticle.Vector2 | homework2/homework2_1.cpp:22 | a two-component vector (x, y) |
| VectorParticle.Vector3 | homework2/homework2_1.cpp:25 | a three-component vector (x, y, z) |
| VectorParticle.Add | homework2/homework2_1.cpp:37-43 | the component-wise sum over this vector's size |
| VectorParticle.Scale | homework2/homework2_1.cpp:58-64 | every component times the scalar |
| VectorParticle.ScaleLeft | homework2/homework2_1.cpp:67-69 | s*v equals v*s |
| VectorParticle.DotProduct | homework2/homework2_1.cpp:73-79 | the sum of products over this vector's size |
| VectorParticle.VectorNorm | homework2/homework2_1.cpp:95-121 | the L1, L2 or Linf norm, or invalid_argument |
| VectorParticle.Force | homework2/homework2_1.cpp:130-135 | f scaled by t |
| VectorParticle.EulerStep | homework2/homework2_1.cpp:173-182 | a = F (1/m), v' = v + a dt, then x' = x + v' dt with the new velocity |
| VectorParticle.EulerStepKeepsSizes | homework2/homework2_1.cpp:173-182 | an update keeps the sizes of position and velocity |
| VectorParticle.ZeroForceStep | homework2/homework2_1.cpp:173-182 | with zero force the velocity stays and the position moves by v*dt |
| VectorParticle.VelocityGrowsLinearly | homework2/homework2_1.cpp:173-182 | after k updates each velocity component has grown by k times F/m*dt |
| VectorParticle.Particle.constructor | homework2/homework2_1.cpp:146-150 | stores mass, position, velocity and force |
| VectorParticle.Particle.GetPosition | homework2/homework2_1.cpp:191-193 | the position |
| VectorParticle.Particle.UpdatePosition | homework2/homework2_1.cpp:157-160 | x' = x + v*time, with everything else unchanged |
| VectorParticle.Particle.Update | homework2/homework2_1.cpp:173-182 | one Euler step under the stored force; runtime_error from printState exactly when the velocity is empty |
| VectorParticle.MainThreeDParticleForceTooShort | homework2/homework2_1.cpp:276 | main's 3-D particle has a two-component force, so it does not meet update's size requirement |
| VectorParticle.TestOperatorsValues | homework2/homework2_1.cpp:203-222 | the values test_operators computes for (1, 2) and (3, 4) |
| CheckedVectorParticle.Vector.Size | homework2/homework2_2.cpp:24-26 | the number of components |
| CheckedVectorParticle.Vector.At | homework2/homework2_2.cpp:40-44 | out_of_range exactly outside [0, size); otherwise component i |
| CheckedVectorParticle.Sum | homework2/homework2_2.cpp:29-37 | runtime_error exactly on a size mismatch; otherwise the component-wise sum |
| CheckedVectorParticle.SumCommutes | homework2/homework2_2.cpp:29-37 | a checked sum fails in both orders or gives the same value in both |
| CheckedVectorParticle.CheckedDot | homework2/homework2_2.cpp:63-71 | runtime_error exactly on a size mismatch |
| CheckedVectorParticle.CheckedDotSymmetric | homework2/homework2_2.cpp:63-71 | the checked dot product is symmetric, failures included |
| CheckedVectorParticle.Add | homework2/homework2_2.cpp:29-37 | the array loop computes the checked sum |
| CheckedVectorParticle.Scale | homework2/homework2_2.cpp:47-54 | every component times the scalar |
| CheckedVectorParticle.ScaleLeft | homework2/homework2_2.cpp:57-60 | s*v equals v*s |
| CheckedVectorParticle.DotProduct | homework2/homework2_2.cpp:63-71 | the loop computes the checked dot product |
| CheckedVectorParticle.VectorNorm | homework2/homework2_2.cpp:101-115 | the L1, L2 or Linf norm, or invalid_argument |
| CheckedVectorParticle.Force2D | homework2/homework2_2.cpp:88-91 | a two-component force |
| CheckedVectorParticle.Force3D | homework2/homework2_2.cpp:95-98 | a three-component force |
| CheckedVectorParticle.Moved | homework2/homework2_2.cpp:131-141 | v' = v + F dt, which throws on a size mismatch and changes nothing; then x' = x + v' dt, which throws on a mismatch and keeps the new velocity; the mass takes no part |
| CheckedVectorParticle.MovedMatchingSizes | homework2/homework2_2.cpp:131-141 | with matching sizes an update does not throw and keeps the sizes |
| CheckedVectorParticle.MovedVelocityMismatch | homework2/homework2_2.cpp:131-141 | a velocity whose size differs from the force's throws and changes nothing |
| CheckedVectorParticle.MovedZeroStep | homework2/homework2_2.cpp:131-141 | a zero time step changes nothing |
| CheckedVectorParticle.Particle.constructor | homework2/homework2_2.cpp:120-124 | stores mass, position and velocity |
| CheckedVectorParticle.Particle.Update | homework2/homework2_2.cpp:131-141 | one Euler step under the time-dependent force, ignoring the mass; a size mismatch throws at the first failing addition |
| CheckedVectorParticle.Particle.GetPositionComponent | homework2/homework2_2.cpp:150-152 | out_of_range exactly outside the position's size; otherwise that component |
| CheckedVectorParticle.VectorTestValues | homework2/test_2.cpp:14-54 | the sums, products, sizes and components the vector tests expect |
| RootSolvers.NewtonFrom | homework4/solver.h:34-52 | stop with (x, i) once abs(f(x)) < tol, else step to x - f(x)/f'(x); after the last iteration return (x, maxIterations) |
| RootSolvers.SecantFrom | homework4/solver.h:62-90 | NaN with the final iteration unset when abs(f(x1) - f(x0)) < 1e-12; x1 at i once abs(f(x1)) < tol; else the secant point; NaN at maxIterations |
| RootSolvers.NewtonFromBounds | homework4/solver.h:34-52 | the final iteration lies between the start and the limit, and stopping early means \|f\| < tol |
| RootSolvers.NewtonStepAffine | homework4/solver.h:34-52 | one Newton step on an affine f lands on its root |
| RootSolvers.NewtonExactForAffine | homework4/solver.h:34-52 | Newton on an affine f returns its exact root |
| RootSolvers.SecantPointAffine | homework4/solver.h:80 | the secant point of an affine f is its root |
| RootSolvers.SecantFromBounds | homework4/solver.h:62-90 | a returned root has \|f\| < tol within the limit; reaching the limit gives NaN |
| RootSolvers.SecantExactForAffine | homework4/solver.h:62-90 | the secant method on an affine f returns its exact root |
| RootSolvers.NewtonSolver.constructor | homework4/solver.h:31 | stores the tolerance and the limit, with the final iteration unset |
| RootSolvers.NewtonSolver.GetFinalIteration | homework4/solver.h:24 | the stored final iteration |
| RootSolvers.NewtonSolver.ComputeRoot | homework4/solver.h:34-52 | the loop returns the Newton result; the final iteration is within bounds and an early stop has \|f\| < tol |
| RootSolvers.SecantSolver.constructor | homework4/solver.h:59 | stores the tolerance and the limit |
| RootSolvers.SecantSolver.GetFinalIteration | homework4/solver.h:24 | the stored final iteration |
| RootSolvers.SecantSolver.ComputeRootFrom | homework4/solver.h:62-90 | the loop returns the secant result (None for NaN); a guard stop leaves the final iteration as it was |
| RootSolvers.SecantSolver.ComputeRoot | homework4/solver.h:93-96 | starts the secant method from x0 and x0 + 0.5 |
| LoggingRootSolvers.NewtonFrom | homework4/solver_p.h:40-75 | stop with the final iteration unset when abs(f'(x)) < 1e-12; else the Newton point with the step limited and logged, returned at i once it moves less than tol; x at maxIterations |
| LoggingRootSolvers.SecantFrom | homework4/solver_p.h:89-119 | NaN on the denominator guard; x1 logged and returned at i once abs(f(x1)) < tol; else the secant point is logged and becomes x1; x1 at maxIterations |
| LoggingRootSolvers.LimitedStep | homework4/solver_p.h:56-59 | a step within the limit is taken whole; a longer one is cut to a tenth, in the same direction |
| LoggingRootSolvers.NewtonLogLength | homework4/solver_p.h:40-75 | the log has at most one entry per iteration |
| LoggingRootSolvers.NewtonFromBounds | homework4/solver_p.h:40-75 | a derivative stop returns an iterate with a small derivative; otherwise the final iteration is within bounds and the last logged iterate is returned |
| LoggingRootSolvers.NewtonExactForAffine | homework4/solver_p.h:40-75 | on an affine f within the step limit, Newton logs and returns the exact root |
| LoggingRootSolvers.SecantFromBounds | homework4/solver_p.h:89-119 | only a guard stop gives NaN; the log is bounded; an early stop has \|f\| < tol |
| LoggingRootSolvers.SecantExactForAffine | homework4/solver_p.h:89-119 | on an affine f with guesses far enough apart for the guard and tol at least the guard, the secant method returns the exact root within two iterations and logs it twice, or returns and logs x1 when it already meets tol |
| LoggingRootSolvers.NewtonSolver.constructor | homework4/solver_p.h:36-37 | stores the tolerance and the limit with an empty log |
| LoggingRootSolvers.NewtonSolver.GetFinalIteration | homework4/solver_p.h:27 | the stored final iteration |
| LoggingRootSolvers.NewtonSolver.ComputeRoot | homework4/solver_p.h:40-75 | the loop returns the limited Newton result and appends its iterates to the log, at most one per iteration |
| LoggingRootSolvers.SecantSolver.constructor | homework4/solver_p.h:85-86 | stores the tolerance and the limit with an empty log |
| LoggingRootSolvers.SecantSolver.GetFinalIteration | homework4/solver_p.h:27 | the stored final iteration |
| LoggingRootSolvers.SecantSolver.ComputeRootFrom | homework4/solver_p.h:89-119 | the loop returns the secant result and appends its iterates to the log, at most one per iteration |
| LoggingRootSolvers.SecantSolver.ComputeRoot | homework4/solver_p.h:122-124 | starts the secant method from x0 and x0 + 1.0 |

## Left out

- File and console I/O are not modelled, because they only read or print data:
  - `BrainMesh::readData`;
  - `saveResults` in `homework7/main.cpp:105-126`;
  - `writeTrajectory2D/3D` and `printState` in homework2, except the exception `printState` throws on an empty velocity;
  - CSV output and `benchmarkMethod` (`homework9/main.cpp:162-181`), which prints only;
  - the print-only `process_data` overloads, `print_metadata` and `compute_all` in homework6.
- Clocks are not modelled. Elapsed times enter as parameters (`Integration.Call`, `BenchmarkIntegrationMethods`).
- Threads, `std::atomic` and mutexes are not modelled: workers run one after the other. Interleavings and the order of floating-point additions under concurrency are not captured.
- Floating point: `double` is `real`, so rounding, NaN and infinity are not modelled.
  - A division by a zero interval count is excluded by a precondition (`n = 0`, `n / t = 0`, `EvenUp(n) = 0`).
  - So is a zero cache tolerance.
  - 32-bit `int` overflow (`nx*ny*nz`, evaluation counters) is not modelled.
- `std::sqrt`, `sin`, `cos` and `std::round` are parameters. Only the non-negativity of `sqrt` is assumed of them, and only where a lemma needs it.
- `VectorParticle.Force`: the source assigns into the caller's vector by reference. The model returns the new value, so the aliasing is not modelled.
- `BrainMeshModel.BrainMesh.GetVertexAreas` and `GetTriangleAreas` are plain field getters. They have no contract beyond the field.
- `VectorParticle.Add`, `VectorParticle.DotProduct` and `VectorParticle.Particle.UpdatePosition` require the right operand to have at least as many components. The source reads past the end otherwise, which is undefined behaviour.
- `VectorParticle.Particle.Update` also requires a non-zero mass: `1/m` is infinite in the source.
- `ParallelTrapezoidal.ParallelNonAdaptiveTrapezoidal` requires `numThreads >= 1`. With zero threads the source divides by zero, and with a negative count it starts no thread; neither run is modelled.
- `BrainMeshModel.BrainMesh.GetTotalArea`, `BrainMeshModel.BrainMesh.ComputeVertexAreas` and `BrainMeshModel.BrainMesh.GetEdgeLengths` require every triangle index to name a vertex. The source indexes out of range otherwise.
- `BrainMeshModel.BrainMesh.ComputeVertexAreas` also requires at least one stored triangle area per triangle. The source reads `triangleAreas[i]` unchecked; the driver calls `getTotalArea`, which fills one area per triangle, before it.
- `CachedFunctions.CachedFunction.constructor` and `CachedFunctions.FastCachedFunction.constructor` require a non-zero tolerance, because binning divides by it.
- `Grid1DArray.Grid1.constructor` requires `nx*ny*nz >= 0`. `Grid1DArray.Grid1.Create` models the throwing case.
- `RootSolvers.NewtonSolver.ComputeRoot` requires `NewtonDefined`, a non-zero derivative at every iterate. `solver.h` divides by it unguarded.
- `IntegrationMethods.TrapezoidalNonRecursive`, `IntegrationMethods.SimpsonNonRecursive`, `ThreadedTrapezoidal.Trapezoidal`, `ThreadedTrapezoidal.ThreadTrapezoidal` and `ThreadedTrapezoidal.ThreadedTotal` require a non-zero interval count, to exclude the division by zero.
- `TaskQueueTrapezoidal.ProcessTaskChildren`: this lemma is about the worker with the corrected half values of "## Findings". The source's halves carry a doubled S, as ProcessTaskAsWrittenChildren states.
- `TaskQueueTrapezoidal.AdvanceShape`: "all tasks stay cached" holds only for the corrected worker. The queue order is the source's.
- `TaskQueueTrapezoidal.AdvanceConserves`: this lemma holds only for the corrected worker. As written, the halves' doubled values break it, as ConstantOneAsWritten shows.
- `TaskQueueTrapezoidal.TaskQueueIntegration.Step`: this method runs the corrected worker. The as-written iteration is `AdvanceAsWritten`, which the class does not use.
- `TaskQueueTrapezoidal.TaskQueueIntegration.Run`: this method runs the corrected worker too, so its conserved sum is not the source's.
- `TaskQueueTrapezoidal.FinishedRunExactForAffine`: this lemma is about the corrected worker. The program as written returns 2 for f = 1 on [0, 1] (ConstantOneAsWritten).
- `TaskQueueTrapezoidal.TaskQueueIntegration.Run` runs at most `maxSteps` iterations. The source loops until the queue is empty, with no depth limit, and can loop forever for a non-positive tolerance.
- `IntegrationDriver.AnalyzeResults`: the best and worst indices are ghost. Only the names and errors they select are computed.
- The cached-function wrappers are not threaded through the integrators: integrators take a pure `f`, so the cache's effect on counts and values during integration is not captured. On a hit a wrapper returns f at the first argument stored in that bin, so a cached integrator can return a different value than the pure `f` gives.

## Findings

| source | as written | input that shows it | evidently intended | confidence | as-written member | corrected member |
|---|---|---|---|---|---|---|
| homework10/part2.cpp:114-115 | each half's value is `(h/2)(f0 + 2 f1 + f2)` with `h` the half's full width, twice the two-panel trapezoid value | f = 1 on [0, 1], tol 0.001: the seed (value 1) is rejected and the result is 2 instead of 1 | `(h/4)(f0 + 2 f1 + f2)`, the half's own two-panel value, matching how the seed is computed | high; not executed | TaskQueueTrapezoidal.ConstantOneAsWritten | TaskQueueTrapezoidal.ProcessTaskExactForAffine |
