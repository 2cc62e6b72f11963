# VLSI strip packing: SMT-LIB builder, MIP run and solution report

This project models the core of `vlsi-design`, a solver front end for the VLSI
strip-packing problem. There is a strip of width `W`, and `N` rectangular circuits,
where circuit `i` measures `widths[i]` by `heights[i]`. The circuits must be placed
without overlap so that the strip height `l` is as small as possible.

The model covers three parts of the program:

* **`build_SMTLIB_model`** (`SMT/src/build_models_z3.py`). It writes the SMT-LIB
  script for an instance, in this order:
  * the logic;
  * declarations of `coord_x{i}`, `coord_y{i}` and `l`;
  * domain assertions;
  * one non-overlap disjunction per pair `i < j`;
  * boundary assertions;
  * the two cumulative sweeps;
  * same-size ordering;
  * the pin of the largest circuit at the origin;
  * `check-sat` and `get-model`.

  The list is built imperatively (`BuildModels.BuildSmtlibModel` and its two loop
  methods), and it is proved equal to the block-by-block specification
  `BuildModels.Script`. Commands are a small SMT-LIB syntax tree (`SmtLib`) with two
  interpretations:
  * `SmtLib.Render` gives the text line the program writes;
  * `SmtLib.Holds` gives the meaning under an assignment of the constants.

  The main theorem, `BuildModels.ScriptMeaning`, says an assignment satisfies the
  script exactly when it is a `Placement`, and each constraint of a `Placement` is
  stated directly on numbers.
* **`run_mip_solver`** (`MIP/src/model.py`). It echoes the instance into a fresh
  `Solution` object, checks the model type and the solver, and runs the solver. When
  the status is admissible, it decodes the solver's named variables into the
  coordinate and rotation lists. The lists are arrays filled by a loop
  (`MipModel.DecodeVariables`), proved against the fold `MipModel.DecodeAll`.
* **`print_logging` / `save_solution`** (`utils/solution_log.py`). These are pure
  functions giving the printed lines, the output path and the saved lines. Their
  partners are readers that parse the lines back.

`Decimal` and `Text` hold the string machinery both sides need:
* `str(int)` and `int(str)`;
* `split`, `" ".join` and `str.replace`.

`ScriptExamples` works one two-circuit instance through the text rendering and the
meaning.

## Model

| member | source | states |
|---|---|---|
| BuildModels.Script | SMT/src/build_models_z3.py:23-80 | The specification of the script: the blocks in the program's order, or `ZeroDivision` when `W == 0` (line 25) and `EmptyMax` when `N == 0` (line 75). What it means is `ScriptMeaning`; its shape is `ScriptFrame` and `ScriptLength`. |
| BuildModels.BuildSmtlibModel | SMT/src/build_models_z3.py:23-80 | The builder returns exactly `Script(inst, logic)`: the commands in program order, or `ZeroDivision` when `W == 0` and `EmptyMax` when `N == 0`. |
| BuildModels.AppendPairs | SMT/src/build_models_z3.py:44-51 | The nested `for i / for j / if i < j` loops append one command per pair in row-major order, and only pairs with `i < j < N`. |
| BuildModels.AppendCumulatives | SMT/src/build_models_z3.py:58-64 | The `for w in widths` / `for h in heights` loops append one cumulative assertion per level, in list order, duplicates included. |
| BuildModels.CeilDivBounds | SMT/src/build_models_z3.py:25 | For `W > 0`, `ceil(a / W)` is the least `q` with `W * q >= a`. |
| BuildModels.Min | SMT/src/build_models_z3.py:38-39 | `min(xs)` is an element of `xs` and no greater than any element. |
| BuildModels.Max | SMT/src/build_models_z3.py:75 | `max(xs)` is an element of `xs` and no smaller than any element. |
| BuildModels.IndexOf | SMT/src/build_models_z3.py:75 | `xs.index(v)` is the first position holding `v`. |
| BuildModels.MaxAreaIndex | SMT/src/build_models_z3.py:74-75 | The pinned circuit has the largest area, and every circuit before it has a strictly smaller area. |
| BuildModels.LowerBound | SMT/src/build_models_z3.py:25 | `l_low = ceil(sum(w_i * h_i) / W)` in exact arithmetic; `LowerBoundLeast` proves it the least height whose area covers the circuits. |
| BuildModels.UpperBound | SMT/src/build_models_z3.py:26 | `l_up = sum(heights)`, over the whole list; `ScriptExamples.SmallBounds` evaluates it. |
| BuildModels.LowerBoundLeast | SMT/src/build_models_z3.py:25 | `l_low` is the least strip height whose area `W * l` covers the total circuit area. |
| BuildModels.NonOverlapMeaning | SMT/src/build_models_z3.py:47-50 | The four-way disjunction holds iff circuit `i` lies left of, below, right of or above circuit `j`. |
| BuildModels.SeparatedIffDisjoint | SMT/src/build_models_z3.py:47-50 | For positive sizes, that separation is equivalent to the two rectangles sharing no point. |
| BuildModels.DomainXValue | SMT/src/build_models_z3.py:38 | A x-domain assertion holds iff `0 <= coord_x{i} <= W - min(widths)`. |
| BuildModels.DomainYValue | SMT/src/build_models_z3.py:39 | A y-domain assertion holds iff `0 <= coord_y{i} <= l_up - min(heights)`. |
| BuildModels.DomainLValue | SMT/src/build_models_z3.py:40 | The `l` assertion holds iff `l_low <= l <= l_up`. |
| BuildModels.DomainsMeaning | SMT/src/build_models_z3.py:37-40 | The whole domain block holds iff every coordinate and `l` lie in their domains. |
| BuildModels.BoundaryValue | SMT/src/build_models_z3.py:54 | A boundary assertion holds iff the circuit's right edge is at most `W` and its top edge at most `l`. |
| BuildModels.BoundariesMeaning | SMT/src/build_models_z3.py:54 | The boundary block holds iff every circuit lies inside the strip. |
| BuildModels.SameSizeValue | SMT/src/build_models_z3.py:70 | The `ite` holds iff circuits of equal width and height keep `coord_x{i} <= coord_x{j}`. |
| BuildModels.SameSizesMeaning | SMT/src/build_models_z3.py:66-70 | The same-size block holds iff every pair `i < j` of identical circuits is ordered along x. |
| BuildModels.NonOverlapsMeaning | SMT/src/build_models_z3.py:43-51 | The non-overlap block holds iff every pair `i < j` is separated. |
| BuildModels.UsageAtValue | SMT/src/build_models_z3.py:59 | One `(ite ...)` summand evaluates to the circuit's usage when the sweep level lies in its span, and to 0 otherwise. |
| BuildModels.UseAtSum | SMT/src/build_models_z3.py:59-60 | The `(+ ...)` of the summands equals the total usage of the circuits crossed at that level. |
| BuildModels.CumulativeMeaning | SMT/src/build_models_z3.py:58-64 | One cumulative assertion holds iff the circuits crossed at the level use at most `W` (widths at a y level) or `l` (heights at an x level). |
| BuildModels.CumulativesMeaning | SMT/src/build_models_z3.py:58-64 | A sweep holds iff the capacity is respected at every listed level. |
| BuildModels.PinsMeaning | SMT/src/build_models_z3.py:74-80 | The two pins hold iff the largest-area circuit sits at (0, 0); `check-sat` and `get-model` assert nothing. |
| BuildModels.ScriptMeaning | SMT/src/build_models_z3.py:23-80 | An assignment satisfies every command of the script iff it is a `Placement`: domains, non-overlap, inside the strip, both sweeps, same-size order and the pin. |
| BuildModels.ModelIsPacking | SMT/src/build_models_z3.py:37-54 | Every model of the script is a packing: all circuits inside `W` by `l`, pairwise disjoint, with `l_low <= l <= l_up`. |
| BuildModels.CapacityImplied | SMT/src/build_models_z3.py:57-64 | Pairwise separated circuits of positive size, inside the strip at non-negative coordinates, use at most the capacity at every level, whichever levels are listed: the circuits crossed at a level cover disjoint stretches of `[0, W)` (or `[0, l)`). |
| BuildModels.CumulativesRedundant | SMT/src/build_models_z3.py:57-64 | For positive sizes, a `Placement` is exactly an assignment that meets the other five kinds of constraint, so the two sweeps are implied constraints that change no model. |
| BuildModels.PairsBeforeMembers | SMT/src/build_models_z3.py:44-46 | The first `rows` rows of the loops visit exactly the pairs with `i < rows` and `i < j < N`. |
| BuildModels.PairsBeforeSorted | SMT/src/build_models_z3.py:44-46 | The loops visit the pairs in strictly increasing row-major order. |
| BuildModels.PairsOncePerPair | SMT/src/build_models_z3.py:44-46 | Every pair `i < j < N` is visited, and never twice. |
| BuildModels.PairsBeforeLength | SMT/src/build_models_z3.py:44-46 | The first `rows` rows hold `rows * (2N - rows - 1) / 2` pairs. |
| BuildModels.ScriptLength | SMT/src/build_models_z3.py:23-80 | The script has `N*N + 6N + 7` commands. |
| BuildModels.ScriptFrame | SMT/src/build_models_z3.py:30-35 | The script opens with `set-logic` and the `2N + 1` declarations in order, and ends with `check-sat` and `get-model`; no other command of the script is a declaration. |
| BuildModels.DeclarationsDistinct | SMT/src/build_models_z3.py:33-35 | The `2N + 1` declarations of the opening block are pairwise distinct. |
| BuildModels.ScriptDeclaresOnce | SMT/src/build_models_z3.py:30-80 | No constant is declared twice anywhere in the script. |
| BuildModels.ScriptAssertsScoped | SMT/src/build_models_z3.py:37-77 | Every assertion mentions only `coord_x{i}`, `coord_y{i}` (for `i < N`) and `l`. |
| BuildModels.ScriptWellScoped | SMT/src/build_models_z3.py:30-77 | Every constant an assertion mentions is declared on an earlier line. |
| BuildModels.ScriptDependsOnDeclared | SMT/src/build_models_z3.py:30-80 | Two assignments that agree on the declared constants satisfy the script alike. |
| SmtLib.Render | SMT/src/build_models_z3.py:30-80 | The text line each command is written as, following the program's f-strings. The `ScriptExamples.SmallRender*` lemmas give, for one small instance, the text of one line of every kind the program writes: `set-logic`, the three kinds of declaration, the three domain lines, a non-overlap line, a boundary line, a same-size line, one line of each sweep, the two pins, `check-sat` and `get-model`. |
| SmtLib.WellScopedAgree | SMT/src/build_models_z3.py:30-80 | The truth of a well-scoped command list depends only on its declared constants. |
| SmtLib.VarNameInjective | SMT/src/build_models_z3.py:33-35 | Distinct constants get distinct names `coord_x{i}`, `coord_y{i}`, `l`. |
| ScriptExamples.SmallRenderHead | SMT/src/build_models_z3.py:30-33 | The rendered `set-logic` and `declare-fun` lines are exactly the program's text. |
| ScriptExamples.SmallRenderDomain | SMT/src/build_models_z3.py:40 | For `W = 8` and circuits 4x3 and 4x5, the `l` domain line is `(assert (and (>= l 4) (<= l 8)))`. |
| ScriptExamples.SmallRenderNonOverlap | SMT/src/build_models_z3.py:47-50 | The non-overlap line of that instance is the program's four-way `or`, character for character. |
| ScriptExamples.SmallRenderDeclarations | SMT/src/build_models_z3.py:34-35 | The `coord_y` and `l` declarations read `(declare-fun coord_y1 () Int)` and `(declare-fun l () Int)`. |
| ScriptExamples.SmallRenderDomainXY | SMT/src/build_models_z3.py:38-39 | The domain lines of circuit 0 read `(assert (and (>= coord_x0 0) (<= coord_x0 4)))` and `(assert (and (>= coord_y0 0) (<= coord_y0 5)))`: `W - min(widths) = 4`, `l_up - min(heights) = 5`. |
| ScriptExamples.SmallRenderBoundary | SMT/src/build_models_z3.py:54 | The boundary line of circuit 0 reads `(assert (and (<= (+ coord_x0 4) 8) (<= (+ coord_y0 3) l)))`. |
| ScriptExamples.SmallRenderSameSize | SMT/src/build_models_z3.py:67-70 | The same-size line of circuits 0 and 1 reads `(assert (ite (and (= 4 4) (= 3 5)) (<= coord_x0 coord_x1) true))`. |
| ScriptExamples.SmallRenderCumulative | SMT/src/build_models_z3.py:58-60 | The vertical sweep at level 4 reads `(assert (<= (+ (ite (and (<= coord_y0 4) (< 4 (+ coord_y0 3))) 4 0) (ite (and (<= coord_y1 4) (< 4 (+ coord_y1 5))) 4 0)) 8))`. |
| ScriptExamples.SmallRenderCumulativeAcross | SMT/src/build_models_z3.py:62-64 | The horizontal sweep at level 3 reads `(assert (<= (+ (ite (and (<= coord_x0 3) (< 3 (+ coord_x0 4))) 3 0) (ite (and (<= coord_x1 3) (< 3 (+ coord_x1 4))) 5 0)) l))`. |
| ScriptExamples.SmallRenderPins | SMT/src/build_models_z3.py:73-80 | Circuit 1, the larger, is pinned by `(assert (= coord_x1 0))` and `(assert (= coord_y1 0))`, and the script ends with `(check-sat)` and `(get-model)`. |
| ScriptExamples.SmallBounds | SMT/src/build_models_z3.py:25-26 | For that instance `l_low = 4`, `l_up = 8`, and the pinned circuit is circuit 1. |
| ScriptExamples.SmallSatisfiable | SMT/src/build_models_z3.py:23-80 | That instance's script has a model with `l = 5`. |
| SolutionTypes.Solution.constructor | MIP/src/model.py:41 | A new `Solution` holds nothing. |
| MipModel.SlotOf | MIP/src/model.py:85-90 | The first of the three `startswith` tests that succeeds selects the list; no list when none does. |
| MipModel.PyIndex | MIP/src/model.py:86-90 | Python list indexing: `-len <= k < len` addresses entry `k` or `len + k`; anything else raises. |
| MipModel.Target | MIP/src/model.py:86-90 | `int(name[8:])` / `int(name[4:])` either gives an index within the list, or raises `ValueError` or `IndexError`. |
| MipModel.Apply | MIP/src/model.py:84-90 | One iteration of the loop: a name with none of the three prefixes changes nothing, otherwise one entry is written; only `ValueError` or `IndexError` can escape. |
| MipModel.DecodeAll | MIP/src/model.py:83-90 | Decoding keeps every list's length, and only `ValueError` or `IndexError` can escape. |
| MipModel.DecodeVariables | MIP/src/model.py:83-90 | The loop over `prob.variables()` leaves the arrays as `DecodeAll` says, or reports the first exception. |
| MipModel.DecodeSolution | MIP/src/model.py:81-90 | Lists `[None] * N`, `[None] * N` and `[False] * N`, decoded from the solver's variables. |
| MipModel.ApplyUnmatched | MIP/src/model.py:85-90 | A variable matching no prefix changes nothing. |
| MipModel.ApplyWritesOneEntry | MIP/src/model.py:85-90 | A matching variable writes exactly one entry of the one list its prefix selects: its value, or `bool` of it for `rot`. |
| MipModel.TargetOfIndexName | MIP/src/model.py:85-90 | A name of the form `prefix + separator + str(i)` selects its prefix's list and index `i`. |
| MipModel.IndexNameRoundTrip | MIP/src/model.py:85-90 | Decoding such a name writes the value at entry `i` of that list. |
| MipModel.LastWriteWins | MIP/src/model.py:83-90 | After decoding, every entry holds the value of the last variable that addresses it, or its initial value. |
| MipModel.LastWriteSome | MIP/src/model.py:83-90 | An entry has a last write iff some variable addresses it. |
| MipModel.RunSpec | MIP/src/model.py:36-97 | What `run_mip_solver` returns or raises, as a function of the instance, the two choices and the solver's outcome; the lemmas below characterise it. |
| MipModel.RunMipSolver | MIP/src/model.py:36-97 | The run returns a fresh `Solution` whose fields are `RunSpec`'s, or raises what `RunSpec` raises. |
| MipModel.RunEchoesInstance | MIP/src/model.py:49-52 | A returned solution carries the input name, `W`, `N` and every circuit as `[widths[i], heights[i]]`. |
| MipModel.UnknownChoiceRaises | MIP/src/model.py:55-67 | An unknown model type raises "Model type not available", and an unknown solver raises "Solver not available", before anything is solved. |
| MipModel.SolverExceptionIsError | MIP/src/model.py:69-74 | A solver exception yields status `ERROR` with no time, height, coordinates or rotation. |
| MipModel.GeometryOnlyWhenAdmissible | MIP/src/model.py:79-95 | Height, coordinates and rotation are set only under an admissible status. Under one, the height is the objective, both coordinate lists have `N` entries, and rotation is present iff `N > 0`. |
| MipModel.DecodedEntries | MIP/src/model.py:79-95 | Each coordinate is the last value named for it, else `None`. Each rotation flag is `bool` of the last `rot` value, else `False`. |
| MipModel.CoordsComplete | MIP/src/model.py:83-92 | When every item's `coord_x`/`coord_y` variable is reported, all coordinates are set. |
| MipModel.RunIsReportable | MIP/src/model.py:79-97 | Every returned solution can be printed by `print_logging` without an index error. |
| SolutionLog.StatusMessage | utils/solution_log.py:13-22 | The first printed line: one message per status, the generic one otherwise; `StatusMessageCases` states it case by case. |
| SolutionLog.PrintLogging | utils/solution_log.py:12-37 | The lines `print_logging` prints, in order; `PrintLoggingShape` and `CircuitLineRoundTrip` say what they hold. |
| SolutionLog.StatusMessageCases | utils/solution_log.py:13-22 | Each of FEASIBLE, OPTIMAL, NO_SOLUTION_FOUND and ERROR has its own message, and every other status gets the generic one (iff for each). |
| SolutionLog.PrintLoggingShape | utils/solution_log.py:12-37 | One line for an inadmissible status. Otherwise: the message, the `Solved ... with W=` line, the `Time: ` line, then exactly one line per circuit in index order. |
| SolutionLog.CircuitLineRoundTrip | utils/solution_log.py:31-37 | Each circuit line reads back as height-width when rotated and width-height otherwise, then the two coordinates (`None` included). |
| SolutionLog.ReadFourFields | utils/solution_log.py:34-35 | The text `"a b, x y"` reads back as its four values. |
| SolutionLog.OptIntTextRead | utils/solution_log.py:35 | An optional integer printed by an f-string reads back as itself, and contains no blank or comma. |
| SolutionLog.SavedLines | utils/solution_log.py:44-48 | The lines `save_solution` writes; `SavedLinesRead` reads them back. |
| SolutionLog.SavedLinesRead | utils/solution_log.py:44-48 | The file holds `N + 2` lines: `W l`, `N`, then `w h x y` for each circuit, each reading back as those numbers. |
| SolutionLog.RowRoundTrip | utils/solution_log.py:45-47 | A line of blank-separated numbers ending in a newline reads back as those numbers. |
| SolutionLog.OutName | utils/solution_log.py:41 | `file_name.replace("ins", "out")`, scanning from the left; `OutNameAt` and `OutNameKeeps` characterise it position by position. |
| SolutionLog.OutFile | utils/solution_log.py:42 | The output path `out_path.format(...)` with `out_path = "{root}/out/{model}/{file}"` (line 10) and the renamed file. |
| SolutionLog.OutFileShape | utils/solution_log.py:41-42 | The path is `root/out/model/` followed by a name as long as the input name, with no `ins` left in it. |
| SolutionLog.OutNameAt | utils/solution_log.py:41 | Every occurrence of `ins` in the name reads `out` at the same position afterwards. |
| SolutionLog.OutNameKeeps | utils/solution_log.py:41 | A character that no occurrence of `ins` covers keeps its position and value. |
| SolutionLog.InsApart | utils/solution_log.py:41 | Two occurrences of `ins` never overlap, so the left-to-right scan replaces every one. |
| SolutionLog.OutNameLength | utils/solution_log.py:41 | Replacing `ins` by `out` keeps the file name's length. |
| SolutionLog.OutNameHasNoIns | utils/solution_log.py:41 | No `ins` remains after the replacement, not even one formed across a replaced occurrence. |
| SolutionLog.OutNameUnchanged | utils/solution_log.py:41 | A name without `ins` is kept as it is. |
| Decimal.ParseIntToString | utils/solution_log.py:27-35 | `int(str(z)) == z` for every integer. |
| Decimal.NatToStringInjective | SMT/src/build_models_z3.py:33-34 | Distinct indices print as distinct digit strings. |
| Text.SplitJoin | utils/solution_log.py:45 | Joining fields with no separator in them, then splitting, gives the fields back. |

## Left out

- The solvers are left out: z3, the PuLP models built by `create_model.py`, and CPLEX/MOSEK. `create_model.py` is not part of this model. The solver's run is a parameter of `RunMipSolver`: either an exception, or a status, a solve time, the objective and the named variable values.
- File and console I/O are left out: writing `model.smt2` (build_models_z3.py:82-84), `print`, `writelines`, and reading the instance in `extract_input_from_txt` (model.py:42-47). The instance is a parameter. The script and the report are the lists of lines they would write.
- `logging.error` (model.py:72) is left out: it has no effect on the result.
- Floating point is left out: `round(...)` (model.py:80-90) and `math.ceil(sum / W)` (build_models_z3.py:25). Solver values are integers already, and the ceiling is exact rational arithmetic. The program's float division can differ from this for sums beyond 2^53.
- `StatusEnum(prob.sol_status)` and `compute_solve_time` (model.py:76-77) live in `utils/types.py` and `utils/minizinc_solver.py`, which are not part of this model. The solver's status arrives as a `Status` already, and the solve time as the text it prints as. `SOLUTION_ADMISSABLE` also lives in `utils/types.py`; `SolutionTypes.Admissible` stands in for it and accepts exactly the statuses `Optimal` and `Feasible`.
- The defaults of `Solution()` come from `utils/types.py`, which is not part of this model. A new solution is taken as empty: empty name and circuits, zero sizes, every optional field `None`.
- `MipModel.Target`: `int()` is modelled on an optional sign followed by ASCII digits. Surrounding whitespace, `_` separators and non-ASCII digits, which Python also accepts, are rejected.
- `compute_solution`, `compute_tests` and the `__main__` drivers are left out: they choose the instances and call the modelled functions. `compute_solution` calls `print_logging(sol, verbose)` with two arguments (model.py:125), but `print_logging` takes one. The model follows the one-argument definition in solution_log.py:12.
- BuildModels.BuildSmtlibModel, BuildModels.Script, MipModel.RunMipSolver and MipModel.RunSpec require `inst.Shaped()`: `widths` and `heights` both hold exactly `N` entries. The program takes `N` and the two lists separately. It indexes with `range(N)` but takes `sum(heights)`, `min(widths)` and `min(heights)` and runs the cumulative loops over the whole lists (build_models_z3.py:26, 38-39, 58, 62), and `[widths[i], heights[i]] for i in range(N)` raises `IndexError` on a shorter list (model.py:52). The model relies on the instance loader's guarantee that both lists have `N` entries; `extract_input_from_txt` is not part of this model.
- SolutionLog.SavedLines takes `cx` and `cy` as lists of integers and requires `widths`, `heights`, `cx` and `cy` to hold at least `N` entries. `save_solution` would print a `None` coordinate as `None` and raise `IndexError` on a shorter list (solution_log.py:45). The model relies on its callers, which are not part of this model, passing the complete coordinates of a solved instance.
- `print_logging` requires `SolutionTypes.Reportable`, which holds for every solution `run_mip_solver` returns (`MipModel.RunIsReportable`). Solutions from the MiniZinc and SMT paths are not part of this model.
- The vertical sweep takes its levels from `widths` (duplicates included) and adds up the widths of the circuits whose y-span contains the level, against `W` (build_models_z3.py:58-60). The horizontal sweep takes its levels from `heights` on the x axis and adds up heights against `l` (build_models_z3.py:62-64). `BuildModels.CapacityImplied` shows that any choice of levels is harmless: the sweeps never exclude a packing.
- The MIP model types differ only in the solver's program, which is not part of this model, so `Base` and `Rotation` behave alike in `RunSpec`.
