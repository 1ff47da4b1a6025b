# Exact controls, proved

The benchmarks of this repository compare fast engines with small, self-contained
reference algorithms: packed Gaussian elimination, backward light cones, dense state
simulators, dynamic programs over chains, a parallel parameter sweep, checksums and
closed forms. This project models those reference algorithms in Dafny, loop by loop,
and proves that each computes what it is trusted to compute. Where an engine's own
source does the same job faster (causal index, persistent min-plus tree, repeated
transfer power, compressed Grover search, tensor-train contraction), the engine is
modelled too and proved equal to the control.

Layout, one module a file: `Bits`, `Sums`, `ComplexNumbers`, `Vectors`, `Layout`,
`Outcomes` and `Circuits` are shared; `Gf2` and `PackedControl` hold the linear-system
counter; `Sweep`, `SweepRuns`, `SweepStop` and `SweepError` the scheduler; `Causal`,
`CausalLeast`, `CausalIndex` and `CircuitLaws` the slicer; `Tropical` and
`TropicalTree` the min-plus program; `FactorChain` and `FactorGraph` the sum-product
programs; `Excitation`, `ExcitationLaws`, `Encoded`, `EncodedLaws`, `Grover` and
`PlusEmulation` the dense simulators; `Transfer`, `Damping` and `DampingChannel` the
repeated transfer; `Rationals` and `Checksum` the exact-arithmetic checksum; `Hamming`,
`Train`, `HammingTrain` and `AffineTrain` the bit-string totals. The `…Laws` modules and
`DampingChannel` say what the gates, operation codes and matrices mean without using
the definitions they are about: matrix columns, measured values, Kraus operators.

Conventions. A machine word is a natural number read bit by bit; `(x & (1 << i)) != 0`
is `Bit(x, i)` (`Bits.MaskTest`), and wrap-around is an explicit remainder. A complex
number is a pair of reals, an angle a pair (c, s) with c² + s² = 1, and a square root a
real with the required square. Scopes of equations have distinct in-range variables,
which is what the generators guarantee. Where a method is proved against a function,
the function is the plain specification and the lemmas listed here are about it.

Findings. These expectations hold only under a condition, and the condition is exact.

- "After the stop flag is up every other lane finishes at most one more point" fails
  under relaxed loads. Two lanes sweeping three points, the first at an angle that is
  not finite and so throws, can finish points 1 and 2 in one lane after the flag
  (`SweepStop.StopDoesNotBoundFinishes`).
  It can happen if and only if some succeeding point b has at least one failing and one
  succeeding point before it and fewer failing points before it than there are lanes
  (`SweepStop.TwoFinishesIff`). In a run without stale polls it never does
  (`SweepRuns.FinishesAfterStop`).
- The direct Viterbi control returns the minimum if and only if the overridden state
  still has a supported path; an override of the same ranks can remove the last one,
  and then the control returns 0 (`Tropical.DirectViterbiOverride`,
  `Tropical.OverrideCanLoseSupport`).
- The pinned coordinate of the sequential transfer control is a no-op on all vectors
  exactly when the matrix's first row is [1, 0, …] (`Transfer.PinIsNoOpIffUnitRow`).
- The closed count of the layered carrier holds exactly while the layers do not exceed
  the last wire (`Causal.CarrierCount`), and the 64-bit popcount accumulator is exact
  exactly up to width 59 (`Hamming.AccumulatorFits`).

## Model

| member | source | states |
|---|---|---|
| PackedControl.PackedGF2Control.Marginal | benchmarks/factor_affine.cpp:158-172 | on a compiled control the marginal is exactly the number of satisfying assignments with the retained variable 0 and with it 1; the balance-invariant throw is unreachable |
| PackedControl.PackedGF2Control.constructor | benchmarks/factor_affine.cpp:132-156 | compiling a system leaves the echelon state that inserting its equations in order defines, and asks about the retained variable |
| PackedControl.PackedGF2Control.AddEquations | benchmarks/factor_affine.cpp:139-145 | the insertion loop over the packed row buffer reaches the abstract compiled echelon of all equations |
| PackedControl.PackedGF2Control.Insert | benchmarks/factor_affine.cpp:235-246 | one packed insertion is the abstract insertion on boolean rows; every active row leads at its own pivot and padding bits stay zero |
| PackedControl.PackedGF2Control.Reduce | benchmarks/factor_affine.cpp:224-233 | the in-place loop terminates and equals reduction on boolean rows, with padding kept clear |
| PackedControl.PackedGF2Control.XorBasis | benchmarks/factor_affine.cpp:217-222 | xoring only the words from the pivot onwards is xoring the whole row |
| PackedControl.PackedGF2Control.FirstSet | benchmarks/factor_affine.cpp:205-215 | the word scan with countr_zero finds the leading position of the boolean row, or the variable count |
| PackedControl.LeadingAtWord | benchmarks/factor_affine.cpp:205-215 | the first non-zero word's lowest set bit is the row's leading position, capped at the variable count |
| PackedControl.PackedGF2Control.StoreRow | benchmarks/factor_affine.cpp:242-242 | the copy into the flat buffer replaces exactly row `pivot` |
| PackedControl.BruteMarginal | benchmarks/factor_affine.cpp:314-339 | enumeration returns the two satisfying-assignment counts, and refuses 64 or more variables |
| Gf2.MarginalIsExact | benchmarks/factor_affine.cpp:158-172 | elimination's rank, inconsistency flag and retained query give the brute-force counts of every valid system |
| Gf2.CompileKeepsSolutions | benchmarks/factor_affine.cpp:235-246 | after any number of insertions, basis plus inconsistency flag has exactly the solutions of the equations so far |
| Gf2.InsertedKeepsSolutions | benchmarks/factor_affine.cpp:235-246 | one insertion keeps the echelon shape and intersects the solution set with the new equation |
| Gf2.ReducedSound | benchmarks/factor_affine.cpp:224-233 | on every solution of the active rows, reduction changes row and right-hand side by the same parity |
| Gf2.CountSolutions | benchmarks/factor_affine.cpp:148-155 | an echelon of rank r over n variables has exactly 2^(n-r) row solutions |
| Gf2.MarginalSplit | benchmarks/factor_affine.cpp:148-172 | a consistent system splits its solutions over the retained variable all on one forced side or evenly |
| Gf2.PlantedSystemIsConsistent | benchmarks/factor_affine.cpp:59-91 | a system whose right-hand sides come from a witness is never flagged inconsistent and its witness is counted |
| Sweep.BindOperations | benchmarks/parameterized_estimator.cpp:133-147 | for every position: a slot of at least 0 takes the parameter with that number, a negative slot keeps the template's operation, and code and operands never change |
| Sweep.SlotDecides | benchmarks/parameterized_estimator.cpp:139-142 | parameter lists that differ only at index j bind to circuits that differ in exactly the operations with slot j |
| Sweep.CircuitReadsRow | benchmarks/parameterized_estimator.cpp:190-196 | point p binds slot j to the flat parameter array's entry p * parameterCount + j |
| Sweep.CircuitIgnoresOtherRows | benchmarks/parameterized_estimator.cpp:190-196 | changing the parameter array anywhere outside row p leaves the circuit of point p as it is |
| Sweep.InvStep | benchmarks/parameterized_estimator.cpp:172-227 | every enabled atomic step of any lane keeps the scheduler's invariant |
| Sweep.WritersNeverCollide | benchmarks/parameterized_estimator.cpp:183-203 | in every reachable state two lanes that are writing hold different points and write different, in-range cells |
| SweepRuns.NoPointDrawnTwice | benchmarks/parameterized_estimator.cpp:185-188 | over any run no point is drawn twice, and a join without an error has drawn every point exactly once |
| SweepRuns.NoCellWrittenTwice | benchmarks/parameterized_estimator.cpp:198-203 | over any run no result cell is written twice, and a join without an error has written every cell exactly once |
| Sweep.JoinedOutcome | benchmarks/parameterized_estimator.cpp:219-226 | after the join, for every interleaving: no error if and only if every point evaluates, and then every slice is the sequential evaluation; otherwise the recorded error is one a failing point raises |
| Sweep.AlwaysProgress | benchmarks/parameterized_estimator.cpp:183-216 | no reachable state is stuck while a lane has not exited |
| Sweep.RunsTerminate | benchmarks/parameterized_estimator.cpp:183-216 | every schedule is finite: each step lowers an explicit measure |
| SweepRuns.ClaimsAfterStop | benchmarks/parameterized_estimator.cpp:184-185 | once stop is set a lane draws a point only if it was already past its poll, plus one per stale poll |
| SweepRuns.FinishesAfterStop | benchmarks/parameterized_estimator.cpp:184-203 | once stop is set a lane finishes the point it is engaged with, plus at most one per stale poll; without stale polls at most one |
| SweepStop.TwoFinishesIff | benchmarks/parameterized_estimator.cpp:183-216 | some run finishes two points in one lane after stop if and only if some succeeding point has a failing and a succeeding point before it and fewer failing ones before it than lanes |
| SweepStop.StopDoesNotBoundFinishes | benchmarks/parameterized_estimator.cpp:183-216 | one rotation and one observable at three angles, the first not finite: from the initial state two lanes can finish two points in one lane after stop |
| SweepError.RethrownIff | benchmarks/parameterized_estimator.cpp:205-226 | some whole run rethrows error e if and only if some point raises e and has fewer failing points before it than there are lanes |
| SweepError.OneLaneRethrowsFirst | benchmarks/parameterized_estimator.cpp:205-226 | with one lane the rethrown error is the first failing point's |
| Sweep.CounterBounded | benchmarks/parameterized_estimator.cpp:185-188 | the ticket counter overshoots the point count by at most one per exited lane |
| Causal.NaiveCausalCount | benchmarks/causal_index.cpp:15-39 | the backward loop returns the length of the retained slice |
| CircuitLaws.SliceKeepsRunByCode | benchmarks/causal_index.cpp:15-39 | in a run with one case per operation code (Swap exchanges two wires, Cnot and Cz read and write both, every other code writes its first operand) the slice keeps every query value |
| CircuitLaws.ActivityCrosses | benchmarks/causal_index.cpp:22-25 | an operation on two different wires carries activity from either operand to the other if and only if its code is Cnot, Cz or Swap |
| CircuitLaws.SwapBringsItsPartner | benchmarks/causal_index.cpp:21-36 | a gate whose result is swapped into the query is retained together with the swap |
| CircuitLaws.ParameterReaders | include/qubit/qcausal_index.hpp:187-216 | in the run by code, the codes whose gate can read the angle are exactly those classified as rotations, and the codes whose noise can read it exactly the trajectories |
| Causal.SlicePreservesQuery | benchmarks/causal_index.cpp:15-39 | deleting every operation not retained leaves the query qubits' final values unchanged for every initial state and every local semantics |
| Causal.ConeDetermines | benchmarks/causal_index.cpp:15-39 | initial states that agree on the active set give equal query values, one under the circuit and one under its slice |
| CausalLeast.ContainingSuffices | benchmarks/causal_index.cpp:15-39 | any selection of operations that contains the slice keeps every query value, under every semantics |
| CausalLeast.SliceIsLeast | benchmarks/causal_index.cpp:15-39 | under the semantics that counts operations a selection keeps the query values if and only if it contains the slice, so no smaller selection is right |
| Causal.SlicePreservesObservable | benchmarks/causal_index.cpp:15-39 | the same for entangling gates: pulling an observable back through slice or circuit gives the same observable, supported inside the active set |
| Causal.ActiveIsReachable | benchmarks/causal_index.cpp:21-36 | the active set is exactly the set of qubits with a worldline into the query |
| Causal.BuildCarrier | benchmarks/causal_index.cpp:48-61 | the construction loops build h prefix gates and L layers of neighbouring CNOTs |
| Causal.CarrierAt | benchmarks/causal_index.cpp:48-61 | by position: h Hadamards on wire 0, then in every layer a CNOT from wire q to wire q + 1 for q = 0, …, n - 2 |
| Causal.CarrierActive | benchmarks/causal_index.cpp:48-61 | for qubit 0 the pass activates exactly qubits 0..min(L, n-1) |
| Causal.CarrierCount | benchmarks/causal_index.cpp:48-61 | for qubit 0 the count is h plus the layers' capped sum, which is h + L(L+1)/2 if and only if L <= n-1 |
| CausalIndex.ValidateOperation | include/qubit/qcausal_index.hpp:187-216 | an operation is refused exactly on operands out of range or equal, a rotation by a non-finite angle, or trajectory noise |
| CausalIndex.BuildIndex | include/qubit/qcausal_index.hpp:39-88 | the index is refused exactly on no qubits or a refused operation, and otherwise links each operation to the last touch of each operand |
| CausalIndex.Walk | include/qubit/qcausal_index.hpp:90-130 | the depth-first walk over predecessor links visits exactly the operations the backward pass retains |
| CausalIndex.SliceQuery | include/qubit/qcausal_index.hpp:90-161 | the returned slice lists retained operations in order on renumbered wires that cover query and operands |
| CausalIndex.IndexedSliceSimulates | include/qubit/qcausal_index.hpp:90-161 | running the renumbered slice on the retained wires gives every query qubit the value it has after the whole circuit |
| CausalIndex.IndexAgreesWithNaive | benchmarks/causal_index.cpp:70-86 | for one query wire the index returns as many operations as the naive pass counts |
| Tropical.DirectViterbiOverride | benchmarks/persistent_tropical_qtt.cpp:67-98 | with one core replaced, the result is the least cost over all bit strings and rank paths if and only if a supported path exists, else 0; no sum formed exceeds n times the entry bound |
| Tropical.OverrideCanLoseSupport | benchmarks/persistent_tropical_qtt.cpp:67-98 | a feasible state and a replacement of the same ranks after which no supported path is left, so the returned 0 is no minimum |
| Tropical.Advance | benchmarks/persistent_tropical_qtt.cpp:76-95 | one core of the sweep extends every optimal prefix cost, a state being supported exactly when some supported path reaches it; every sum formed and every cost stored is in the budget of one entry a core |
| Tropical.ComposeOptimal | benchmarks/persistent_tropical_qtt.cpp:76-95 | min-plus composition of optimal pieces is optimal over all paths of the concatenation |
| Tropical.CandidateInRange | benchmarks/persistent_tropical_qtt.cpp:82-92 | with entries bounded by b a candidate at step k is within (k+1)*b, the fact the loop's budget invariant rests on |
| Tropical.Perturb | benchmarks/persistent_tropical_qtt.cpp:49-65 | only the chosen bit's matrix changes; entry k of it keeps its support, and if supported its cost grows by delta plus (row + 3 * column + seed) mod 5 |
| Tropical.PerturbMovesMinimum | benchmarks/persistent_tropical_qtt.cpp:49-98 | perturbing one core by delta >= 0 keeps feasibility and moves the minimum m into [m, m + delta + 4] |
| TropicalTree.Build | include/qubit/qpersistent_tropical_qtt.hpp:40-71 | the tree is built exactly when no checked sum overflows and the state is feasible, and every node holds the optimal transfer of its range |
| TropicalTree.SumFitsIsExact | include/qubit/qpersistent_tropical_qtt.hpp:235-243 | on 64-bit operands the overflow test is exact |
| TropicalTree.BoundedFits | include/qubit/qpersistent_tropical_qtt.hpp:235-243 | entries bounded by b with n*b below 2^63 exclude every overflow of the tree |
| TropicalTree.Compose | include/qubit/qpersistent_tropical_qtt.hpp:324-350 | composing exact transfers gives the exact transfer of the concatenation, or throws exactly when a sum of two meeting least costs overflows |
| TropicalTree.UpdateCore | include/qubit/qpersistent_tropical_qtt.hpp:135-168 | an update succeeds exactly when index, shape, checked sums and feasibility allow, represents the replaced state, and creates at most depth + 1 nodes |
| TropicalTree.UpdateMatchesDirect | benchmarks/persistent_tropical_qtt.cpp:137-176 | the update goes through exactly when sums fit and the new state is feasible, and then its root energy is the direct Viterbi control's |
| TropicalTree.MinimumBits | include/qubit/qpersistent_tropical_qtt.hpp:110-114 | the descended bit string attains the global minimum |
| TropicalTree.CollectCores | include/qubit/qpersistent_tropical_qtt.hpp:514-522 | reading the leaves back yields the cores the tree stands for |
| FactorChain.SpecializedChain | benchmarks/factor_chain.cpp:53-71 | each output entry is the sum over all assignments of the earlier variables of the product of all tables |
| FactorChain.MarginalStep | benchmarks/factor_chain.cpp:59-69 | summing out one more variable is one transfer step on the marginals |
| FactorChain.ChainComposes | benchmarks/factor_chain.cpp:53-71 | the sweep may be cut at any point and resumed from its message |
| FactorChain.TableLinear | benchmarks/factor_chain.cpp:53-71 | the result is linear in each table separately |
| FactorChain.RebindKeepsPrefix | benchmarks/factor_chain.cpp:145-162 | replacing table k leaves the messages before k unchanged |
| FactorChain.RebindPoints | benchmarks/factor_chain.cpp:145-162 | every point's control is the marginal of the original tables with only table k replaced |
| FactorGraph.EqualityClique | benchmarks/factor_broker.cpp:128-154 | the graph has exactly one equality factor per unordered pair, and the unary factor |
| FactorGraph.CliqueMarginal | benchmarks/factor_broker.cpp:128-165 | for n >= 1 the exponential sum of the clique is exactly the unary weights, the specialized result |
| FactorGraph.ParityTable | benchmarks/factor_broker.cpp:178-188 | each cell holds the coefficient exactly when its index has the requested parity |
| FactorGraph.ParityGraph | benchmarks/factor_affine.cpp:103-128 | alternating dense and sparse factors encode the system's equations |
| FactorGraph.ParityGraphCounts | benchmarks/factor_affine.cpp:93-128 | the factor graph's marginal is the number of satisfying assignments, the quantity the packed control returns |
| Excitation.DensePhase | benchmarks/fixed_excitation.cpp:15-23 | exactly the amplitudes with the mode set are multiplied by the phase |
| Excitation.DenseGivens | benchmarks/fixed_excitation.cpp:25-46 | the in-place loop rotates each amplitude pair exactly once |
| ExcitationLaws.GateLinear | benchmarks/fixed_excitation.cpp:15-46 | every gate is linear in the state |
| ExcitationLaws.PhaseOnBasis | benchmarks/fixed_excitation.cpp:15-23 | the mode phase multiplies a basis state by the phase exactly when it has the mode set |
| ExcitationLaws.GivensOnPair | benchmarks/fixed_excitation.cpp:25-46 | a basis state with the excitation on `left` goes to c of itself plus s * phase of the state with it moved to `right`, and that one goes to -s * conj(phase) of the first plus c of itself |
| ExcitationLaws.GivensFixes | benchmarks/fixed_excitation.cpp:25-46 | basis states with both modes set or both clear are fixed |
| Excitation.SectorsConserved | benchmarks/fixed_excitation.cpp:15-46 | any gate sequence keeps the squared norm inside every Hamming-weight sector |
| Excitation.GivensUndone | benchmarks/fixed_excitation.cpp:25-46 | the opposite angle with the same phase restores the state exactly |
| Excitation.DenseOccupation | benchmarks/fixed_excitation.cpp:48-57 | the loop returns the norm carried by states with the mode set |
| ExcitationLaws.OccupationOfBasis | benchmarks/fixed_excitation.cpp:48-57 | on a basis state the occupation of a mode is its bit |
| ExcitationLaws.OccupationIsDiagonal | benchmarks/fixed_excitation.cpp:48-57 | the occupation of any state is the sum over basis states of their occupation times the norm they carry |
| Excitation.TotalOccupationIsExcitation | benchmarks/fixed_excitation.cpp:48-57 | occupations summed over all modes are the expected number of set bits |
| Excitation.OccupationConserved | benchmarks/fixed_excitation.cpp:15-57 | any gate sequence conserves the sum of occupations over all modes |
| Encoded.CodewordMask | benchmarks/encoded_repetition.cpp:15-24 | the accumulated mask repeats each logical bit over its block |
| Encoded.DensePlus | benchmarks/encoded_repetition.cpp:26-35 | the state encodes the uniform logical register |
| Encoded.DenseLogicalRy | benchmarks/encoded_repetition.cpp:37-59 | codeword pairs are rotated as the logical register is, other amplitudes untouched |
| Encoded.DensePhysicalRz | benchmarks/encoded_repetition.cpp:61-68 | each amplitude takes the phase of its physical bit |
| Encoded.DenseTransversalCnot | benchmarks/encoded_repetition.cpp:70-90 | the buffered permutation moves every basis state by flipping the target block where the control block is set |
| Encoded.StepRefines | benchmarks/encoded_repetition.cpp:37-90 | each dense gate on an encoded state yields the encoding of the logical gate's result |
| EncodedLaws.LogicalLinear | benchmarks/encoded_repetition.cpp:37-90 | every logical gate is linear in the register |
| EncodedLaws.RyOnClear | benchmarks/encoded_repetition.cpp:52-57 | the rotation sends a basis state with the qubit clear to c of itself plus s of the state with it set |
| EncodedLaws.RyOnSet | benchmarks/encoded_repetition.cpp:52-57 | and a basis state with the qubit set to -s of the state with it clear plus c of itself |
| EncodedLaws.RzOnBasis | benchmarks/encoded_repetition.cpp:61-68 | the phase gate multiplies a basis state by the phase of its block's logical bit |
| EncodedLaws.CnotOnBasis | benchmarks/encoded_repetition.cpp:70-90 | a basis state with the control clear is fixed, one with the control set goes to the state with the target bit flipped |
| EncodedLaws.RyTurnsZ | benchmarks/encoded_repetition.cpp:37-59 | Z after the rotation is (c^2 - s^2) times Z less 2cs times X, where X sums 2 Re(conj(r[b]) r[b with the qubit set]) over the b with it clear |
| EncodedLaws.DenseRyTurnsZ | benchmarks/encoded_repetition.cpp:37-59 | the same for the dense rotation on an encoded state, Z read at any physical member of the block |
| EncodedLaws.LogicalKeepsNorm | benchmarks/encoded_repetition.cpp:37-90 | rotations by unit angles, unit phases and CNOTs keep the squared norm of the register |
| EncodedLaws.DenseRunKeepsNorm | benchmarks/encoded_repetition.cpp:109-137 | any dense run of such gates on an encoded state keeps the squared norm of the physical state |
| Encoded.RunRefines | benchmarks/encoded_repetition.cpp:109-137 | any sequence of dense gates refines the logical run and stays on codewords |
| Encoded.DenseZExpectation | benchmarks/encoded_repetition.cpp:92-99 | the loop returns the signed norm by the physical bit, the quantity the next two members relate to the logical register |
| EncodedLaws.ZOfBasis | benchmarks/encoded_repetition.cpp:92-99 | Z is 1 on a basis state with the bit clear and -1 with it set |
| EncodedLaws.ZIsDiagonal | benchmarks/encoded_repetition.cpp:92-99 | Z of any state is the sum over basis states of their Z times the norm they carry |
| Encoded.ZExpectationRefines | benchmarks/encoded_repetition.cpp:92-99 | Z on any physical member of a block equals the logical Z expectation |
| Encoded.BlockAgrees | benchmarks/encoded_repetition.cpp:92-99 | after any run all physical Z expectations inside a block agree |
| Grover.DenseIteration | benchmarks/grover_search.cpp:33-54 | one in-place pass is sign flips followed by reflection about the mean |
| Grover.IterationKeepsNorm | benchmarks/grover_search.cpp:33-54 | an iteration preserves the squared norm, for any marked list |
| Grover.DenseRunCompresses | benchmarks/grover_search.cpp:33-73 | from equal amplitudes any number of iterations keeps two levels that follow the two-variable recurrence, and the norm |
| Grover.RunIsRotation | src/qgrover.cpp:108-169 | k recurrence steps are the k-th power of one rotation of the weighted pair |
| Grover.RunKeepsWeight | src/qgrover.cpp:150-168 | the total class weight never changes, so the final renormalisation does nothing |
| Grover.GroverSearch.ApplyIteration | src/qgrover.cpp:93-106 | oracle then diffusion is one step of the two-variable recurrence |
| Grover.RunIsSteps | src/qgrover.cpp:93-109 | a run of k + 1 iterations is one oracle and diffusion after a run of k |
| Grover.GroverSearch.Iterate | src/qgrover.cpp:108-169 | the state of `count` single iterations, after as many rotation products as the count has set bits plus digits less one, at most twice its digits |
| Grover.FastMatchesDense | benchmarks/grover_search.cpp:67-73 | the compressed search holds every dense amplitude after the same number of iterations |
| PlusEmulation.PlusEmulation | benchmarks/hpath_basis.cpp:84-99 | the list is the per-qubit prefix followed by the original operations |
| PlusEmulation.PrefixGivesBasis | benchmarks/hpath_basis.cpp:91-96 | run from the uniform plus state the prefix yields exactly the basis state of the input bits, for any width |
| PlusEmulation.EmulationIsExact | benchmarks/hpath_basis.cpp:84-99 | the emulated circuit on plus equals the original circuit on the basis state, whatever the other gates mean |
| Transfer.Matvec | benchmarks/repeated_transfer_power.cpp:29-41 | the double loop is the matrix action with coordinate 0 then pinned |
| Transfer.Sequential | benchmarks/repeated_transfer_power.cpp:48-62 | the loop is the repeated pinned action, for any matrix |
| Transfer.PinIsNoOpIffUnitRow | benchmarks/repeated_transfer_power.cpp:39-39 | pinning changes no vector if and only if the first row is [1, 0, …] |
| Transfer.ActProduct | include/qubit/qtransfer_power.hpp:198-221 | acting by a matrix product is acting twice |
| Bits.ProductsCounted | include/qubit/qtransfer_power.hpp:88-104 | square-and-multiply forms as many products as the exponent has set bits plus digits less one, at most twice its digits |
| Transfer.MatrixPower | include/qubit/qtransfer_power.hpp:84-104 | square-and-multiply returns a matrix acting as the whole power, and counts its products: set bits plus digits of the exponent less one |
| Transfer.Apply | include/qubit/qtransfer_power.hpp:77-109 | the kernel returns what iterating the matrix returns, after at most twice as many products as the count has digits |
| Transfer.KernelMatchesControl | benchmarks/repeated_transfer_power.cpp:91-140 | on a matrix with unit first row the kernel returns what the pinned sequential control returns |
| Transfer.ControlIsPlainIffUnitRow | benchmarks/repeated_transfer_power.cpp:29-62 | the pinned control is plain iteration for every start and count if and only if the first row is the unit row |
| Transfer.ApplyPowerOfTwo | include/qubit/qtransfer_power.hpp:111-128 | b squarings and one product give the 2^b-th iterate |
| Damping.MatrixActs | benchmarks/repeated_transfer_power.cpp:16-27 | the sixteen entries act as the affine Bloch map and keep trace coordinate and reality |
| DampingChannel.MatrixIsChannel | benchmarks/repeated_transfer_power.cpp:16-27 | the matrix maps every Bloch vector to that of K0 R rho R^T K0^T + K1 R rho R^T K1^T, with rho its density matrix, R the rotation about y by the angle of (c, s), K0 = diag(1, a) and K1 = sqrt(gamma) |0><1| |
| DampingChannel.RotationTurns | benchmarks/repeated_transfer_power.cpp:16-27 | on density matrices the rotation with half-angle (h, k) turns (x, z) to (cx + sz, cz - sx), where c = h^2 - k^2 and s = 2hk |
| DampingChannel.IteratesAreChannelRuns | benchmarks/repeated_transfer_power.cpp:48-62 | every iterate of the matrix is the Bloch vector of the channel applied as often to the density matrix |
| Damping.IteratesStayPhysical | benchmarks/repeated_transfer_power.cpp:48-89 | for 0 <= gamma <= 1 every iterate of a physical vector is physical |
| Damping.IteratesContract | benchmarks/repeated_transfer_power.cpp:16-62 | two runs satisfy squared distance at most (1 - gamma)^k times the initial one |
| Damping.SequentialDamping | benchmarks/repeated_transfer_power.cpp:48-89 | the sequential control of the damping matrix returns the plain iterate, and it is physical |
| Rationals.GreatestCommonDivisor | include/qubit/qexact.hpp:191-200 | the Euclidean loop's result is divided by exactly the common divisors of both arguments |
| Rationals.ReduceIsCanonical | include/qubit/qexact.hpp:512-526 | normalisation gives a positive denominator, lowest terms and the same value |
| Rationals.CanonicalUnique | include/qubit/qexact.hpp:475-475 | equal values in lowest terms are equal term by term |
| Rationals.AddExact | include/qubit/qexact.hpp:484-491 | addition through the common divisor is exact and canonical |
| Rationals.MultiplyExact | include/qubit/qexact.hpp:497-504 | cross-reduced multiplication is exact and canonical |
| Checksum.EvaluateIsExact | benchmarks/qmath_exact_platform.cpp:30-37 | the stepwise rational expression is the one canonical form of its exact value, hence any exact library's |
| Checksum.EvaluateValue | benchmarks/qmath_exact_platform.cpp:30-37 | as a real number each value is ((i+1)/(i+2) + (2i+3)/(i+5)) * ((3i+7)/(2i+9) - (i+11)/(4i+13)) with i = index mod 997 + 2 |
| Checksum.EvaluateFits | benchmarks/qmath_exact_platform.cpp:39-42 | for every index both terms fit int64, so the range error is unreachable |
| Checksum.PythonObserve | benchmarks/qmath_sympy_control.py:41-49 | the masked fold returns the C++ fold's result on every rational, range error included |
| Checksum.PythonTermsFold | benchmarks/qmath_sympy_control.py:43-49 | on every stream of terms the masked fold is the wrap-around fold, refused exactly when some term is out of int64 range |
| Checksum.MaskIsModulo | benchmarks/qmath_sympy_control.py:47-48 | masking an integer of either sign is the remainder modulo the power of two |
| Checksum.StepIsBijection | benchmarks/qmath_exact_platform.cpp:43-44 | xor then multiply permutes the words, with an explicit inverse on both sides |
| Checksum.StepByShift | benchmarks/qmath_exact_platform.cpp:43-46 | one step takes x = checksum xor term to (x << 40) + 435 x modulo 2^64 |
| Checksum.InjectiveIffOdd | benchmarks/qmath_exact_platform.cpp:44-44 | multiplication modulo 2^n loses nothing if and only if the multiplier is odd |
| Checksum.RewindFold | benchmarks/qmath_exact_platform.cpp:39-48 | final checksum and stream determine the starting checksum |
| Checksum.OneTermShows | benchmarks/qmath_exact_platform.cpp:39-48 | equal-length streams differing in exactly one int64 term always get different checksums |
| Checksum.RunRound | benchmarks/qmath_exact_platform.cpp:50-61 | a round returns the fold of all numerators and denominators, without a throw |
| Checksum.FirstRound | benchmarks/qmath_exact_platform.cpp:50-56 | the round over index 0 alone gives 11124528799658732944, which fixes offset, multiplier and the order numerator before denominator |
| Checksum.PythonRunRound | benchmarks/qmath_sympy_control.py:52-58 | the Python round returns the same checksum and never raises |
| Hamming.DenseHammingSum | benchmarks/qtt.cpp:76-83 | the wrapping loop returns the total modulo 2^64, equal to the closed form if and only if the width is at most 59 |
| Hamming.DenseIsClosed | benchmarks/qtt.cpp:85-87 | the popcount total over all words of n bits is n * 2^(n-1), for every n |
| Hamming.SquaresAreNorm | benchmarks/qtt.cpp:89-93 | the total of squared popcounts is n(n+1) * 2^(n-2), for every n |
| Hamming.AccumulatorFits | benchmarks/qtt.cpp:78-82 | the total fits 64 bits if and only if n <= 59 |
| Train.ReduceIsCompletionSum | include/qubit/qqtt.hpp:582-607 | contracting any train under a partial assignment sums its values over exactly the completions |
| HammingTrain.ContractRow | include/qubit/qqtt.hpp:562-580 | the loop that skips zero row entries is the full row-by-matrix product |
| HammingTrain.ReduceAssignment | include/qubit/qqtt.hpp:582-607 | the contraction loop returns the sum over completions |
| HammingTrain.ConditionedSum | include/qubit/qqtt.hpp:243-263 | refused exactly on unequal counts, out-of-range or repeated positions or bits above 1; otherwise the sum over strings meeting the conditions |
| HammingTrain.WeightedBitSum | include/qubit/qqtt.hpp:66-118 | refused exactly on no weights; otherwise the cores of the weighted bit sum |
| HammingTrain.WeightedValue | include/qubit/qqtt.hpp:66-118 | the train evaluates to offset plus the weights of the set bits |
| AffineTrain.AffineIndex | include/qubit/qqtt.hpp:132-155 | refused on no bits; otherwise at every index the train holds offset + slope * index, most significant bit first |
| AffineTrain.WeightsAtIndex | include/qubit/qqtt.hpp:143-153 | the doubling weights at the set bits of an index add up to slope * index |
| HammingTrain.HammingValueAt | benchmarks/qtt.cpp:72-74 | at every index the Hamming train holds the index's popcount |
| HammingTrain.SumAllIsDense | benchmarks/qtt.cpp:76-83 | contracting with nothing fixed gives the dense popcount loop's exact total |
| HammingTrain.ConditionedHamming | benchmarks/qtt.cpp:212-228 | for every width and well-formed conditions with k ones and f free bits the conditioned sum is k * 2^f + f * 2^(f-1) |
| HammingTrain.DirectBitCount | benchmarks/qtt.cpp:95-101 | the loop returns the sum of the bit vector, the quantity the next member identifies |
| HammingTrain.TrainValueIsBitCount | benchmarks/qtt.cpp:195-208 | on every bit string the Hamming train's value is the direct bit count |

## Left out

- Random generation in `make_system` and `xor_graph`, including termination of the rejection sampling: systems are arbitrary with distinct scope variables.
- Floating-point rounding, `fma`, tolerances, square roots and trigonometric values as computed: results are stated over exact reals and naturals.
- CausalIndex.BuildIndex: leaves out the configured caps on qubits, operations and query size.
- Configured caps of the other engines, byte estimates, statistics, timing, median sampling, JSON receipts, printing and argument parsing.
- Widths of `size_t` and `int64`, except where a member states the bound (ticket counter, Viterbi candidates, popcount accumulator, checksum words).
- The factor plans, brokers, message caches, stabilizer, MPS and phase-graph engines, and their rebind paths; in the sweep the estimator is two arbitrary functions of the bound circuit.
- `selected_bit`, `norm_squared`, `inner_product` and train arithmetic (`add`, `scaled`).
- Sparse packed-plan compilation in the affine factor plan, the transfer kernel's preflight accounting, and the Grover sampler and optimal-count estimate.
- The other OpenMP, Torch, NumPy and Qiskit scripts, and the duplicated helpers of other benchmarks.
- The sample field of operations, which only trajectory noise reads.
- Lane-local plan and workspace reuse in the sweep beyond being a function of the bound circuit; a sweep with no lanes at all.
- Memory-model effects in the sweep other than a stale read of the stop flag; the ticket counter and the mutex are atomic.
- Library sorting and `lower_bound` in the causal index: modelled by the sorted list they produce.
- Tropical.DirectViterbiOverride: adds exact integers and bounds every sum it forms; what a sum out of 64-bit range would leave is not modelled.
- AffineTrain.AffineIndex: leaves out the checks that offset, slope and weights are finite, since exact numbers always are.
- Checksum.EvaluateIsExact: SymPy's own arithmetic is not part of this model; its result enters as the canonical form of the exact value.
