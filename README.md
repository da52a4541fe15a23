# Stan reverse-mode matrix nodes, constraint transforms and `head`

This project models three parts of Stan's C++ math library.

- **Reverse-mode automatic differentiation over matrices** (`src/stan/agrad/matrix.hpp`).
  - Every `var` is a handle to a `vari` node on a tape. A node stores its value `val_`, its adjoint `adj_` and whatever its class needs to run `chain()`.
  - The matrix functions (`sum`, `dot_self`, `dot_product`, `columns_dot_*`, `multiply`, `mdivide_left[_tri]`, `determinant`, `log_determinant`, `multiply_lower_tri_self_transpose`, `tcrossprod`, `crossprod`) record such nodes. They copy operand handles and doubles into arena arrays and return result handles.
  - `grad()` zeroes every adjoint, seeds the output with 1 and runs each node's `chain()` from the newest node down.
  - The model is the class `Vari.Tape`. Its fields are `vals`, `adjs`, `kinds` and two arenas: `refs` (the `vari*` arrays) and `dbls` (the `double` arrays).
  - Node classes are the `Graph.Kind` constructors, which refer to slices of the arenas. When two nodes share one operand array, as `multiply` arranges, both hold the same slice.
  - Each `chain()` is specified as a sequence of `+=` updates (`Graph.ChainSpec`, built on `Adjoint.AddAt`). The sweep is `Reverse.Grad`.
  - The Eigen kernels (LU solve, triangular solve, inverse, determinant) are fields of a `Graph.Backend` value, so they are parameters to the model.
- **The constraint transforms** (`src/stan/prob/transform.hpp`). These map unconstrained reals onto constrained ones and back, together with their log-Jacobian terms.
  - `exp`, `log`, `log1p`, `log1m`, `logit` and `atanh` are the fields of a `ScalarTransforms.Elementary` record.
  - The inverse identities that the round trips need (log of exp, exp of log, and so on) are predicates on that record.
- **`head`**, as pinned down by `test/unit/math/prim/mat/fun/head_test.cpp`.
  - `head(v, n)` returns the first n entries of a vector, or throws `out_of_range`.
  - It also has element-wise forms over a `std::vector` of containers.

Doubles are modelled as Dafny reals. A thrown exception is an `Err` of `Wrappers.Error`: `domain_error`, `invalid_argument`, `out_of_range` or `runtime_error`. The `validate_*` helpers, which are not part of this model, are taken as follows, each giving a domain error when it fails:
- "vector" means one row or one column;
- "matching sizes" means equal `size()`;
- "multiplicable" means `cols == rows`;
- "square" means `rows == cols`.

## Model

| member | source | states |
|---|---|---|
| Primal.DotComm | src/stan/agrad/matrix.hpp:160-165 | `var_dot` is symmetric in its two operand arrays |
| Primal.DotSelfNonnegative | src/stan/agrad/matrix.hpp:70-75 | `var_dot_self`, the stored value of a dot_self node, is never negative |
| Primal.DotZeroTail | src/stan/agrad/matrix.hpp:1581-1586 | zero entries past a prefix do not change a dot product (why the truncated products of the lower-triangular product are the full ones) |
| Adjoint.AddAtIs | src/stan/agrad/matrix.hpp:134-138 | a run of `adj_[t] += d` leaves each handle h at its old adjoint plus the sum of the amounts aimed at h, so repeated targets accumulate |
| Adjoint.AddAtUntouched | src/stan/agrad/matrix.hpp:241-246 | a handle that no `+=` targets keeps its adjoint |
| Adjoint.AddAtDistinct | src/stan/agrad/matrix.hpp:331-335 | with no repeated target, target i gains exactly amount i |
| Adjoint.AddAtConcat | src/stan/agrad/matrix.hpp:606-632 | two passes of updates (the A loop, then the B loop of a solve node) equal one pass over the concatenation |
| Adjoint.SumWhereInterleave | src/stan/agrad/matrix.hpp:241-246 | the interleaved updates of `dot_product_vv_vari::chain` give each handle the sum of the amounts from both operand arrays |
| Layout.IdxInjective | src/stan/agrad/matrix.hpp:574-589 | column-major indexing `j*rows + i` sends distinct cells to distinct positions |
| Layout.CellsDistinct | src/stan/agrad/matrix.hpp:888-897 | the packing loops visit no cell twice |
| Layout.CellsCover | src/stan/agrad/matrix.hpp:888-897 | the packing loops visit exactly the cells of the view: lower or upper triangle, or the full matrix |
| Layout.CellsSquareLength | src/stan/agrad/matrix.hpp:877-879 | `_variRefA` has m·m entries for the full view and m(m+1)/2 for a triangle |
| Layout.CellsFullAt | src/stan/agrad/matrix.hpp:574-589 | the packing of the full view is the column-major layout itself |
| Layout.TransposeTwice | src/stan/agrad/matrix.hpp:1635-1637 | transposing twice gives the matrix back |
| Layout.RowOfTranspose | src/stan/agrad/matrix.hpp:1635-1637 | row i of the transpose is column i of the matrix |
| Layout.PackedOffsetClosedForm | src/stan/agrad/matrix.hpp:1570-1574 | `Knz`'s closed form equals the number of entries packed from the first J columns of K rows, row by row |
| Layout.TriClosedForm | src/stan/agrad/matrix.hpp:877-879 | the count of a triangle's cells, row by row, is m(m+1)/2 |
| Dense.MulTAt | src/stan/agrad/matrix.hpp:606-632 | cell (i, j) of X·Yᵀ is the dot product of row i of X and row j of Y |
| Graph.ChainAdds | src/stan/agrad/matrix.hpp:90-93 | every `chain()` adds into handle h the sum of its amounts aimed at h, and never changes its own adjoint or a later one |
| Graph.ChainUntouched | src/stan/agrad/matrix.hpp:134-138 | a handle that is not an operand of the node keeps its adjoint |
| Graph.ChainAt | src/stan/agrad/matrix.hpp:241-246 | with no repeated operand, operand i gains exactly its amount |
| Graph.SumVChain | src/stan/agrad/matrix.hpp:134-138 | `sum_v_vari::chain`: each operand gains `adj` once per occurrence |
| Graph.SumWhereConst | src/stan/agrad/matrix.hpp:134-138 | equal amounts w leave a handle with w times its number of occurrences |
| Graph.DotSelfChain | src/stan/agrad/matrix.hpp:90-93 | `dot_self_vari::chain` is one `+= adj * 2 * val` per operand, in order |
| Graph.SquareAddAt | src/stan/agrad/matrix.hpp:90-93 | with no repeated operand, operand i gains `adj * 2 * value_i`, the derivative of Σ vᵢ² |
| Graph.DotVVChain | src/stan/agrad/matrix.hpp:241-246 | `dot_product_vv_vari::chain` adds `adj * v2[i]` to v1[i], then `adj * v1[i]` to v2[i] |
| Graph.PairwiseAddAt | src/stan/agrad/matrix.hpp:241-246 | with separate operands, each side gains adj times the other side's value, the derivative of a dot product |
| Graph.DotVDChain | src/stan/agrad/matrix.hpp:331-335 | `dot_product_vd_vari::chain`: only the var side gains, `adj * d[i]`; any other handle is unchanged |
| Graph.SolveChainA | src/stan/agrad/matrix.hpp:931-963 | the solve node's chain gives a cell of A inside the view its cell of `adjA = -A⁻ᵀ·adjC·Cᵀ`, and a cell outside the view nothing |
| Graph.PackedSumA | src/stan/agrad/matrix.hpp:948-957 | the packed A updates deliver cell (i, j) its own entry of adjA when in the view, and 0 otherwise |
| Graph.SolveChainB | src/stan/agrad/matrix.hpp:606-632 | the solve node's chain gives `B(p)` its entry of `adjB = A⁻ᵀ·adjC` |
| Graph.DetChain | src/stan/agrad/matrix.hpp:1232-1244 | `determinant_vari::chain` adds `(adj * val) * A⁻ᵀ[i]` to cell i of A |
| Graph.LogDetChain | src/stan/agrad/matrix.hpp:1286-1299 | `log_determinant_vari::chain` adds `adj * A⁻ᵀ[i]` to cell i of A |
| Graph.DetAsLogDet | src/stan/agrad/matrix.hpp:1232-1244 | a determinant node's `chain()` is the log-determinant `chain()` (matrix.hpp:1286-1299) over the same operands with its adjoint scaled by det A, since d det A = det A · d log abs det A |
| Graph.ChainIdle | src/stan/agrad/matrix.hpp:606-632 | a node whose own adjoint and the adjoints above it are all zero changes nothing |
| Graph.ExtendOk | src/stan/agrad/matrix.hpp:174-194 | appending a well-formed node keeps the graph well formed (operands point strictly earlier) |
| Reverse.ChainWritesBelow | src/stan/agrad/matrix.hpp:90-93 | no `chain()` writes its own adjoint or a later one |
| Reverse.SweepAbove | src/stan/agrad/matrix.hpp:134-138 | running nodes below n leaves the adjoints from n-1 up as they are |
| Reverse.SweepSkip | src/stan/agrad/matrix.hpp:606-632 | nodes that change nothing can be left out of the sweep |
| Reverse.GradFromOut | src/stan/agrad/matrix.hpp:606-632 | the gradient is the sweep from the output down: nodes recorded after the output contribute nothing |
| Reverse.GradSelf | src/stan/agrad/matrix.hpp:90-93 | after `grad`, the output's adjoint is 1 and every later node's is 0 |
| Reverse.GradUntouched | src/stan/agrad/matrix.hpp:241-246 | a handle that is no node's operand, other than the output, gets derivative 0 |
| Reverse.GradNewest | src/stan/agrad/matrix.hpp:90-93 | the gradient of the newest node begins with that node's own `chain()` on the seed |
| Worked.DotGrad | src/stan/agrad/matrix.hpp:241-246 | the gradient of `dot_product([x0, x1], [y0, y1])` is (y0, y1, x0, x1) |
| Worked.SumGrad | src/stan/agrad/matrix.hpp:134-138 | the gradient of `sum([x, x])` is 2: a repeated operand accumulates |
| Worked.LeavesIdle | src/stan/agrad/matrix.hpp:596-603 | the sweep over leaf nodes only (such as a solve's result nodes) is the identity |
| Vari.Tape.constructor | src/stan/agrad/matrix.hpp:96-139 | an empty, well-formed tape |
| Vari.Tape.NewLeaf | src/stan/agrad/matrix.hpp:596-603 | `new vari(x)` appends one node of value x with adjoint 0 and nothing else |
| Vari.Tape.PushRefs | src/stan/agrad/matrix.hpp:115-133 | copying handles into a new `vari*` array appends them to the arena, slice handed back |
| Vari.Tape.PushOperands | src/stan/agrad/matrix.hpp:1216-1222 | the determinant constructors' loop stores the cells' values in `_A` and their handles in `_adjARef` |
| Vari.Tape.ValueSum | src/stan/agrad/matrix.hpp:100-105 | `var_sum` is the sum of the operands' values |
| Vari.Tape.ValueDotSelf | src/stan/agrad/matrix.hpp:70-75 | `var_dot_self` is the dot product of the operands' values with themselves |
| Vari.Tape.ValueDot | src/stan/agrad/matrix.hpp:160-165 | `var_dot` of two handle arrays is the dot product of their values |
| Vari.Tape.ValueDotD | src/stan/agrad/matrix.hpp:254-259 | `var_dot` of a handle array and a double array is the dot product of the values with the doubles |
| Vari.Tape.NewSumV | src/stan/agrad/matrix.hpp:115-133 | `new sum_v_vari`: one node of value Σ of its operands, nothing else changed |
| Vari.Tape.NewDotSelf | src/stan/agrad/matrix.hpp:45-94 | `new dot_self_vari`: one node of value Σ vᵢ² |
| Vari.Tape.NewDotVV | src/stan/agrad/matrix.hpp:174-194 | `new dot_product_vv_vari` over two (fresh or shared) handle arrays: one node valued at their dot product |
| Vari.Tape.NewDotVD | src/stan/agrad/matrix.hpp:270-288 | `new dot_product_vd_vari`: one node valued at the dot product with the stored doubles |
| Vari.Tape.NewDeterminant | src/stan/agrad/matrix.hpp:1201-1245 | one node valued at det A, with `_A` and `_adjARef` copied column-major |
| Vari.Tape.NewLogDeterminant | src/stan/agrad/matrix.hpp:1254-1300 | one node valued at log abs det A, with `_A` and `_adjARef` copied |
| Vari.Tape.NewSolve | src/stan/agrad/matrix.hpp:545-634 | a solve node of value 0 followed by m·n result nodes holding C = A⁻¹B; arenas get `_variRefA` packed by view, `_variRefB`, `_variRefC` pointing at the result nodes, `_A` and `_C` |
| Vari.Tape.PushMatrixA | src/stan/agrad/matrix.hpp:888-897 | `_variRefA` (only for a var A), packed by the view, then `_A`, in that order |
| Vari.Tape.RecordSolve | src/stan/agrad/matrix.hpp:591-603 | the solve node and its result nodes are appended with zero adjoints, keeping the tape well formed |
| Vari.Tape.AddInto | src/stan/agrad/matrix.hpp:134-138 | the `+=` loop of a `chain()` leaves the adjoints at AddAt of the old ones and changes nothing else |
| Vari.Tape.Chain | src/stan/agrad/matrix.hpp:606-632 | node k's `chain()` turns the adjoints into ChainSpec of the old ones; the graph is unchanged |
| Vari.Tape.Grad | src/stan/agrad/matrix.hpp:90-93 | `grad()` leaves the adjoints at Reverse.Grad of the recorded graph; the graph is unchanged |
| Vari.Pack | src/stan/agrad/matrix.hpp:888-897 | the packing loop yields exactly the handles of the view's cells, column by column |
| Vari.PackedRefs | src/stan/agrad/matrix.hpp:877-879 | `_variRefA` has PackedSize(view, m) entries for a var A and none for a double one |
| Vari.SolveRecordedOk | src/stan/agrad/matrix.hpp:591-603 | recording a solve node and its results keeps a well-formed graph well formed |
| Reductions.RecordSum | src/stan/agrad/matrix.hpp:115-133 | a sum node over a handle list records the list and its value is the sum of their values |
| Reductions.RecordDot | src/stan/agrad/matrix.hpp:174-194 | a vv dot node copies or shares its operand arrays (sharing keeps the earlier slice) and is valued at the dot product |
| Reductions.RecordDotD | src/stan/agrad/matrix.hpp:270-288 | a vd dot node copies or shares its var and double arrays and is valued at the weighted sum |
| Reductions.RecordEach | src/stan/agrad/matrix.hpp:361-369 | recording a list of reductions gives one node per entry, in order, each as specified |
| Reductions.VarMatTranspose | src/stan/agrad/matrix.hpp:1635-1637 | every handle of the transpose of a var matrix names a node below n, as the matrix's own handles do |
| Reductions.ValuesOfTranspose | src/stan/agrad/matrix.hpp:1635-1637 | the values of the transpose of a var matrix are the transpose of its values |
| Reductions.AppendedTrans | src/stan/agrad/matrix.hpp:1389-1420 | appending nodes in steps is appending: earlier nodes, values and arena entries stay put |
| Matrix.Sum | src/stan/agrad/matrix.hpp:537-542 | an empty matrix gives a new node of value 0; otherwise one sum node over all entries, valued at their sum |
| Matrix.DotSelf | src/stan/agrad/matrix.hpp:350-354 | a domain error, with the tape untouched, exactly when the argument is not a vector; otherwise one dot_self node |
| Matrix.ColumnsDotSelf | src/stan/agrad/matrix.hpp:361-369 | entry j is a new dot_self node over column j |
| Matrix.ColumnsDotProduct | src/stan/agrad/matrix.hpp:371-381 | a domain error exactly when sizes differ; otherwise entry j is a vv dot node over the two columns j |
| Matrix.ColumnsDotProductVD | src/stan/agrad/matrix.hpp:383-394 | the same with a double second argument, each entry weighting the var column by the double column |
| Matrix.ColumnsDotProductDV | src/stan/agrad/matrix.hpp:396-406 | the same with a double first argument; the var column goes first in each node |
| Matrix.DotProduct | src/stan/agrad/matrix.hpp:416-423 | a domain error exactly when an argument is not a vector or sizes differ; otherwise one vv dot node |
| Matrix.DotProductVD | src/stan/agrad/matrix.hpp:433-440 | the same for var·double: one vd dot node |
| Matrix.DotProductDV | src/stan/agrad/matrix.hpp:450-457 | the same for double·var, the var side first |
| Matrix.DotProductArrays | src/stan/agrad/matrix.hpp:466-468 | the pointer-and-length form: one vv dot node, no validation |
| Matrix.DotProductArraysVD | src/stan/agrad/matrix.hpp:477-479 | one vd dot node over the vars and the doubles |
| Matrix.DotProductArraysDV | src/stan/agrad/matrix.hpp:488-490 | one vd dot node, the var array first |
| Matrix.DotProductStd | src/stan/agrad/matrix.hpp:499-503 | `std::vector` form: a domain error exactly when sizes differ; otherwise one vv dot node |
| Matrix.DotProductStdVD | src/stan/agrad/matrix.hpp:512-516 | the same for var·double |
| Matrix.DotProductStdDV | src/stan/agrad/matrix.hpp:525-529 | the same for double·var, the var side first |
| Matrix.MultiplyRowCol | src/stan/agrad/matrix.hpp:1522-1527 | row vector times vector: a domain error exactly when sizes differ, otherwise one vv dot node |
| Matrix.MultiplyRowColDV | src/stan/agrad/matrix.hpp:1538-1542 | the same for a double row vector |
| Matrix.MultiplyRowColVD | src/stan/agrad/matrix.hpp:1553-1557 | the same for a double vector |
| Multiply.Product | src/stan/agrad/matrix.hpp:1389-1510 | a domain error exactly when not multiplicable; otherwise cell (i, j) is the (i · cols + j)-th node recorded, a dot node that shares the row and column arrays as the loops do, valued at row i · column j |
| Multiply.ProductValues | src/stan/agrad/matrix.hpp:1389-1510 | every filled cell (i, j) equals Σₖ m1(i, k)·m2(k, j), for each of the three overloads |
| Multiply.CellValue | src/stan/agrad/matrix.hpp:1389-1510 | a cell's value is the dot product of the factors' row i and column j, however its arrays were shared |
| SelfProduct.Knz | src/stan/agrad/matrix.hpp:1570-1574 | `Knz` is the number of entries packed from the lower-triangle heads of K rows |
| SelfProduct.MultiplyLowerTriSelfTranspose | src/stan/agrad/matrix.hpp:1560-1588 | no rows: nothing recorded; otherwise the row heads are packed once and cell (i, j) is a dot node, shared by (i, j) and (j, i), valued at the dot product of the first min(i, j)+1 entries of rows i and j |
| SelfProduct.LowerTriSelfTransposeValues | src/stan/agrad/matrix.hpp:1581-1586 | for a lower-triangular L the result is L·Lᵀ |
| SelfProduct.Tcrossprod | src/stan/agrad/matrix.hpp:1597-1626 | cell (i, j) is one node, shared by (i, j) and (j, i), valued at row i · row j; none for no rows |
| SelfProduct.TcrossprodValues | src/stan/agrad/matrix.hpp:1597-1626 | `tcrossprod(M)` is M·Mᵀ |
| SelfProduct.Crossprod | src/stan/agrad/matrix.hpp:1635-1637 | `crossprod(M)` is `tcrossprod` of the transpose: cell (i, j) is column i · column j |
| SelfProduct.CrossprodValues | src/stan/agrad/matrix.hpp:1635-1637 | `crossprod(M)` is Mᵀ·M |
| SelfProduct.PackedValues | src/stan/agrad/matrix.hpp:1581-1586 | every cell's value is a truncated row dot product, symmetric in i and j |
| Solvers.MdivideLeft | src/stan/agrad/matrix.hpp:791-809 | a domain error, with the tape untouched, exactly when A is not square or A, b are not multiplicable; otherwise the result is the m·n new result nodes that `_variRefC` holds, valued at the kernel's solution of A C = b |
| Solvers.RecordSolveNode | src/stan/agrad/matrix.hpp:1136-1154 | the triangular and general solve nodes alike: the node's class, `_variRefC` pointing to the results, and the solved values |
| Solvers.Determinant | src/stan/agrad/matrix.hpp:1248-1251 | a domain error exactly when not square; otherwise one determinant node of value det A with `_A` and `_adjARef` |
| Solvers.LogDeterminant | src/stan/agrad/matrix.hpp:1303-1306 | a domain error exactly when not square; otherwise one node of value log abs det A |
| ScalarTransforms.IdentityConstrain | src/stan/prob/transform.hpp:341-343 | `identity_constrain` returns x unchanged |
| ScalarTransforms.IdentityValidate | src/stan/prob/transform.hpp:391-393 | `identity_validate` accepts every value |
| ScalarTransforms.IdentityFree | src/stan/prob/transform.hpp:377-379 | `identity_free` returns y unchanged |
| ScalarTransforms.IdentityRoundTrip | src/stan/prob/transform.hpp:341-393 | `identity_free` inverts `identity_constrain` both ways |
| ScalarTransforms.IdentityConstrainLp | src/stan/prob/transform.hpp:360-362 | the identity adds nothing to lp |
| ScalarTransforms.PositiveConstrain | src/stan/prob/transform.hpp:411-413 | exp x is always positive |
| ScalarTransforms.PositiveValidate | src/stan/prob/transform.hpp:446-448 | `positive_validate` accepts y ≥ 0 |
| ScalarTransforms.PositiveConstrainLp | src/stan/prob/transform.hpp:432-435 | `positive_constrain(x, lp)` adds x to lp |
| ScalarTransforms.PositiveFree | src/stan/prob/transform.hpp:467-472 | a domain error exactly when y < 0 |
| ScalarTransforms.PositiveRoundTrip | src/stan/prob/transform.hpp:411-413 | a constrained value is valid and frees back to x |
| ScalarTransforms.PositiveFreeThenConstrain | src/stan/prob/transform.hpp:467-472 | constraining the freed form of a positive y gives y |
| ScalarTransforms.LbConstrain | src/stan/prob/transform.hpp:494-496 | exp x + lb lies strictly above lb |
| ScalarTransforms.LbValidate | src/stan/prob/transform.hpp:528-530 | `lb_validate` accepts y ≥ lb |
| ScalarTransforms.LbConstrainLp | src/stan/prob/transform.hpp:511-514 | `lb_constrain(x, lb, lp)` adds x to lp |
| ScalarTransforms.LbFree | src/stan/prob/transform.hpp:545-549 | an invalid argument exactly when y < lb |
| ScalarTransforms.LbRoundTrip | src/stan/prob/transform.hpp:494-496 | the constrained value lies above lb and frees back to x |
| ScalarTransforms.LbFreeThenConstrain | src/stan/prob/transform.hpp:545-549 | constraining the freed form of y > lb gives y |
| ScalarTransforms.UbConstrain | src/stan/prob/transform.hpp:570-572 | ub - exp x lies strictly below ub |
| ScalarTransforms.UbValidate | src/stan/prob/transform.hpp:606-608 | `ub_validate` accepts y ≤ ub |
| ScalarTransforms.UbConstrainLp | src/stan/prob/transform.hpp:591-594 | `ub_constrain(x, ub, lp)` subtracts x from lp |
| ScalarTransforms.UbFree | src/stan/prob/transform.hpp:628-632 | an invalid argument exactly when y > ub |
| ScalarTransforms.UbRoundTrip | src/stan/prob/transform.hpp:570-572 | the constrained value lies below ub and frees back to x |
| ScalarTransforms.UbFreeThenConstrain | src/stan/prob/transform.hpp:628-632 | constraining the freed form of y < ub gives y |
| ScalarTransforms.LubConstrain | src/stan/prob/transform.hpp:655-657 | for lb < ub, lb + (ub - lb) · inv_logit x lies strictly between the bounds |
| ScalarTransforms.LubValidate | src/stan/prob/transform.hpp:712-714 | `lub_validate` accepts lb ≤ y ≤ ub |
| ScalarTransforms.LubConstrainLp | src/stan/prob/transform.hpp:681-699 | both branches on the sign of x: lp gains log(ub - lb) ∓ x - 2 log1p(exp(∓x)) |
| ScalarTransforms.InvLogitOfNonpositive | src/stan/prob/transform.hpp:681-699 | the x ≤ 0 branch's `1 - 1/(1 + exp x)` is the inverse logit |
| ScalarTransforms.LubFree | src/stan/prob/transform.hpp:740-744 | an invalid argument exactly when y lies outside [lb, ub] |
| ScalarTransforms.LubRoundTrip | src/stan/prob/transform.hpp:655-657 | for lb < ub the constrained value lies strictly inside and frees back to x |
| ScalarTransforms.LubFreeThenConstrain | src/stan/prob/transform.hpp:717-744 | for lb < y < ub, constraining the freed form of y gives y back |
| ScalarTransforms.ProbConstrain | src/stan/prob/transform.hpp:763-765 | inv_logit x lies strictly between 0 and 1 |
| ScalarTransforms.ProbValidate | src/stan/prob/transform.hpp:806-808 | `prob_validate` accepts 0 ≤ y ≤ 1 |
| ScalarTransforms.ProbConstrainLp | src/stan/prob/transform.hpp:789-793 | lp gains log y + log1m y |
| ScalarTransforms.ProbFree | src/stan/prob/transform.hpp:825-829 | a domain error exactly when y lies outside [0, 1] |
| ScalarTransforms.ProbRoundTrip | src/stan/prob/transform.hpp:763-765 | the constrained value lies in (0, 1) and frees back to x |
| ScalarTransforms.ProbFreeThenConstrain | src/stan/prob/transform.hpp:811-829 | for 0 < y < 1, constraining the freed form of y gives y back |
| ScalarTransforms.CorrConstrain | src/stan/prob/transform.hpp:847-849 | tanh x lies strictly between -1 and 1 |
| ScalarTransforms.CorrValidate | src/stan/prob/transform.hpp:880-882 | `corr_validate` accepts -1 ≤ y ≤ 1 |
| ScalarTransforms.CorrConstrainLp | src/stan/prob/transform.hpp:863-867 | lp gains the tanh Jacobian term |
| ScalarTransforms.CorrFree | src/stan/prob/transform.hpp:898-901 | corrected: a domain error exactly when y lies outside [-1, 1], otherwise atanh y |
| ScalarTransforms.CorrFreeAcceptsInvalid | src/stan/prob/transform.hpp:898-901 | as written, the invalid y = 2 is freed instead of rejected |
| ScalarTransforms.CorrFreeAsWritten | src/stan/prob/transform.hpp:898-901 | `corr_free` as written: atanh y, whatever `corr_validate` returns |
| ScalarTransforms.CorrRoundTrip | src/stan/prob/transform.hpp:847-849 | the constrained value lies in (-1, 1) and frees back to x |
| ScalarTransforms.CorrFreeThenConstrain | src/stan/prob/transform.hpp:885-901 | for -1 < y < 1, constraining the corrected freed form of y gives y back |
| ScalarTransforms.InvLogit | src/stan/prob/transform.hpp:655-657 | the inverse logit lies strictly between 0 and 1 |
| ScalarTransforms.Tanh | src/stan/prob/transform.hpp:847-849 | tanh lies strictly between -1 and 1 |
| VectorTransforms.PosOrdered | src/stan/prob/transform.hpp:1120-1128 | what `pos_ordered_validate` accepts: empty, or a positive head followed by strict increases |
| VectorTransforms.PosOrderedValidate | src/stan/prob/transform.hpp:1120-1128 | the check returns true exactly for positive ordered vectors |
| VectorTransforms.PosOrderedIff | src/stan/prob/transform.hpp:1120-1128 | positive ordered means all entries positive and strictly increasing, both ways |
| VectorTransforms.CumulativeExp | src/stan/prob/transform.hpp:1061-1069 | what `pos_ordered_constrain` computes: y[0] = exp x[0], y[i] = y[i-1] + exp x[i], as long as x |
| VectorTransforms.PosOrderedConstrain | src/stan/prob/transform.hpp:1061-1069 | the array loop computes the running sum of exponentials |
| VectorTransforms.PosOrderedConstrainLp | src/stan/prob/transform.hpp:1103-1106 | lp gains the sum of x |
| VectorTransforms.PosOrderedConstrainValid | src/stan/prob/transform.hpp:1061-1069 | every constrained vector is positive ordered |
| VectorTransforms.LogDifferences | src/stan/prob/transform.hpp:1146-1157 | what `pos_ordered_free` returns for a valid y: log y[0], then log(y[i] - y[i-1]) |
| VectorTransforms.PosOrderedFree | src/stan/prob/transform.hpp:1146-1157 | a domain error exactly when y is not positive ordered; otherwise the logs of the successive differences |
| VectorTransforms.PosOrderedRoundTrip | src/stan/prob/transform.hpp:1146-1157 | freeing a constrained vector gives back x |
| VectorTransforms.PosOrderedFreeThenConstrain | src/stan/prob/transform.hpp:1061-1069 | constraining a freed positive ordered vector gives it back |
| VectorTransforms.Simplex | src/stan/prob/transform.hpp:997-1007 | what `simplex_validate` accepts: nonempty, sum within 1e-8 of 1, every entry ≥ 0 |
| VectorTransforms.SimplexValidate | src/stan/prob/transform.hpp:997-1007 | returns true exactly for nonempty, nonnegative vectors that sum to within 1e-8 of 1 |
| VectorTransforms.LogRatios | src/stan/prob/transform.hpp:1032-1041 | what `simplex_free` returns for a valid y: K - 1 entries log y[i] - log y[K-1] |
| VectorTransforms.SimplexFree | src/stan/prob/transform.hpp:1032-1041 | a domain error exactly when y is not a simplex; otherwise K-1 entries log y[i] - log y[K-1] |
| MatrixTransforms.Choose2ClosedForm | src/stan/prob/transform.hpp:1185-1193 | `(k * (k - 1)) / 2` is the number of pairs of k variables |
| MatrixTransforms.Nu | src/stan/prob/transform.hpp:296-320 | the degrees of freedom `make_nu` is meant to return: K - 1 groups, the first K - 1 entries 2α, each later group one shorter and 1 lower |
| MatrixTransforms.NuLength | src/stan/prob/transform.hpp:300 | `make_nu` returns K choose 2 entries |
| MatrixTransforms.MakeNu | src/stan/prob/transform.hpp:296-320 | `make_nu` fills Choose2(K) degrees of freedom: K-1 copies of 2α, then groups shorter by one, each lowered by 1 |
| MatrixTransforms.NuHead | src/stan/prob/transform.hpp:307-309 | the first K-1 entries are 2(η + (K-2)/2) |
| MatrixTransforms.NuPositive | src/stan/prob/transform.hpp:310-318 | for η > 0 every degree of freedom is at least 2η |
| MatrixTransforms.MakeNuOverrunsAtZero | src/stan/prob/transform.hpp:300-310 | as written, at K = 0 the array has size 0 while the unsigned bound K - 1 is 2³² - 1 |
| MatrixTransforms.CorrMatrixCpcs | src/stan/prob/transform.hpp:1185-1193 | an invalid argument exactly when the size is not k choose 2; otherwise the tanh of each entry |
| MatrixTransforms.CorrMatrixCpcsLp | src/stan/prob/transform.hpp:1216-1226 | the same, with lp gaining every entry's Jacobian term and unchanged on error |
| MatrixTransforms.MapTanhValid | src/stan/prob/transform.hpp:1185-1193 | every canonical partial correlation lies in (-1, 1) and frees back to its entry |
| MatrixTransforms.CovMatrixParts | src/stan/prob/transform.hpp:1317-1327 | the first k choose 2 entries become tanh'd partial correlations, the next k exponentiated scales |
| MatrixTransforms.CovMatrixFree | src/stan/prob/transform.hpp:1454-1471 | a domain error for a non-square or empty y, a runtime error when factoring fails, otherwise the correlations then the scales, k choose 2 + k entries |
| MatrixTransforms.CovLayoutRoundTrip | src/stan/prob/transform.hpp:1354-1365 | the layout `cov_matrix_free` writes is the one `cov_matrix_constrain` reads |
| Heads.Head | test/unit/math/prim/mat/fun/head_test.cpp:22 | out of range exactly when n exceeds the size; otherwise the first n entries |
| Heads.HeadEach | test/unit/math/prim/mat/fun/head_test.cpp:57-61 | out of range exactly when some length exceeds its element's size; otherwise each element's head |
| Heads.HeadAllSpec | test/unit/math/prim/mat/fun/head_test.cpp:92-94 | one length for every element fails exactly when some element is shorter; otherwise every element cut to n |
| Heads.HeadBounds | test/unit/math/prim/mat/fun/head_test.cpp:9-16 | the whole vector is its own head, and the empty head always exists |
| Heads.HeadOfHead | test/unit/math/prim/mat/fun/head_test.cpp:29-32 | a head of a head is the shorter head |
| Heads.HeadExamples | test/unit/math/prim/mat/fun/head_test.cpp:29-32 | on (1, 2, 3): lengths 0, 3 and 2 as the test pins, length 4 out of range |
| Heads.HeadEachExamples | test/unit/math/prim/mat/fun/head_test.cpp:92-95 | on three copies of (1, 2, 3): lengths (1, 2, 1), and length 2 for all |

## Left out

- Eigen kernels: the LU solve, triangular solve, inverse and determinant are fields of `Graph.Backend`. `Conforms` demands two things of them: that their outputs have the expected shapes, and that the solve of a zero right-hand side is zero, which `SolveIdle` rests on. No other numerical property of them is proved. The adjoint formulas of the solve and determinant nodes are stated in terms of these kernels, and the model does not prove them to be derivatives.
- The `vari` base class, the memory arena `memalloc_` and the global stack are not part of this model. A minimal tape takes their place: handles in creation order, and `grad()` as zero, seed and sweep newest-first.
- Floating point is modelled as exact reals: there is no rounding, NaN or infinity. `lub_constrain`'s guards against rounding to exactly lb or ub fall away because, over the reals, the value lies strictly inside.
- ScalarTransforms.LubFree: requires that lb == y == ub does not hold all at once. At that point the source computes 0/0, which has no real value.
- ScalarTransforms.PositiveFree: at y = 0 the source returns log 0 = minus infinity, and exp of that gives 0 back. The model returns `e.log(0.0)`, an arbitrary real, so PositiveFreeThenConstrain covers y > 0 only.
- ScalarTransforms.LbFree: at y = lb the source returns log 0 = minus infinity, which constrains back to lb. The model returns `e.log(0.0)`, an arbitrary real, so LbFreeThenConstrain covers y > lb only.
- ScalarTransforms.UbFree: at y = ub the source returns log 0 = minus infinity, which constrains back to ub. The model returns `e.log(0.0)`, an arbitrary real, so UbFreeThenConstrain covers y < ub only.
- ScalarTransforms.LubFree: constraining the freed value gives y back only for lb < y < ub (LubFreeThenConstrain). At y = lb or y = ub the source's logit returns minus or plus infinity, which the reals lack.
- ScalarTransforms.ProbFree: constraining the freed value gives y back only for 0 < y < 1 (ProbFreeThenConstrain). At 0 and 1 logit is infinite.
- ScalarTransforms.CorrFree: constraining the freed value gives y back only for -1 < y < 1 (CorrFreeThenConstrain). At -1 and 1 atanh is infinite.
- The elementary identities (`LogOfExp`, `ExpOfLog`, `LogitOfInvLogit`, `InvLogitOfLogit`, `AtanhOfTanh`, `TanhOfAtanh`, `ExpOfNegation`) are predicates on the `Elementary` record, required only by the round trips and the lp lemma that need them.
- 32-bit unsigned arithmetic is not modelled in `k * (k - 1) / 2` or the sizes and counters. The one exception is make_nu at K = 0 (see Findings).
- `simplex_constrain` and its lp overload are not part of this model. The function (transform.hpp:927-934) is a softmax with the maximum subtracted: exp(x[k] - max) for each k, then exp(-max) for the last entry, all divided by their sum. Its partner property, that `simplex_free` undoes it, rests on exp(a - b) = exp a / exp b and on the normalised sum being 1, which the `Elementary` record does not state.
- `read_corr_matrix`, `read_cov_matrix`, `corr_matrix_validate`, `corr_matrix_free` and `cov_matrix_validate` are not part of this model. They rest on Cholesky factors and eigenvalues. As a result, corr_matrix_constrain and cov_matrix_constrain are modelled only up to the vectors they pass to the readers, and the readers' lp terms are left out.
- MatrixTransforms.CovMatrixFree: `factor_cov_matrix` is a parameter returning the two factor vectors or failure. Only the checks and the output layout are modelled.
- MatrixTransforms.CovMatrixParts: requires at least k choose 2 + k entries, which the source reads without checking.
- Matrix.ColumnsDotProduct: requires that matching sizes imply matching shapes, which Eigen's column access assumes and the source does not check. ColumnsDotProductVD and ColumnsDotProductDV require the same.
- Matrix.Sum: the empty sum records one new leaf of value 0, because `var(0.0)` allocates a `vari`. It does not return "no node".
- SelfProduct.Tcrossprod: with one row the source multiplies through Eigen's `var` product. The model records that case as one dot_self node of the row, which has the same value and the same derivative.
- SelfProduct.Crossprod: `crossprod(M)` is `tcrossprod` of the transpose (matrix.hpp:1635-1637), so a one-column M takes the same one-row path and is recorded the same way.
- Heads.HeadEach: requires one length per element. The source's behaviour for mismatched lists is not pinned by the test.
- head's implementation file is not part of this model. The model follows what head_test.cpp pins down.
- The scalar `divide` and `multiply` overloads delegate to `var` operators outside this model. `assign`, `assigner` and `stan_print` are I/O and copying, with no graph or transform content.
- The loop bounds in `determinant_vari_calc` (matrix.hpp:1224-1230) swap `rows()` and `cols()`. This is harmless because the matrix is checked to be square first, so the model uses m·m.

## Findings

| source | as written | input that shows it | evidently intended | confidence | as-written member | corrected member |
|---|---|---|---|---|---|---|
| src/stan/prob/transform.hpp:898-901 | `corr_free` calls `corr_validate` and ignores its result, then returns atanh y | y = 2 | throw `domain_error` for y outside [-1, 1] | not executed | ScalarTransforms.CorrFreeAcceptsInvalid | ScalarTransforms.CorrFree |
| src/stan/prob/transform.hpp:300-310 | `make_nu` with unsigned K = 0 allocates 0 entries, but `K - 1` wraps to 2³² - 1, so the first loop writes far past the array | K = 0 | return an empty array | not executed | MatrixTransforms.MakeNuOverrunsAtZero | MatrixTransforms.MakeNu |
