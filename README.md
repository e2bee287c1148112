# The LP-file writer of PyPSA's linear optimisation, in Dafny

This project models the half of `pypsa/linopt.py` that writes a linear program to
text files. It also models the pure parts of reading a solver's answer back. The model
covers:

- **Token allocation.** The two module-level counters `xCounter` and `cCounter` and
  `reset_counter`. The names `x{k}` and `c{k}` they mint are fresh, contiguous and in
  row-major order.
- **The two writers.** `write_bound` appends one line `lower <= xN <= upper` per element
  to the bounds file. `write_constraint` appends one record `cN:` lhs sense rhs per element
  to the constraints file.
- **`broadcasted_axes`.** It checks that labelled operands share their trailing axis. It
  picks the axes of the first operand with the most dimensions.
- **The expression renderer.** `_str_array` writes signed numeric terms. `linexpr` gives
  one expression per element, with one line per (coefficient, variable) pair.
  `join_exprs` concatenates.
- **The reference tables.** `set_varref`/`set_conref` and `_add_reference` register and
  store reference frames. `get_var`/`get_con` look them up, and pop them on request.
  `clear_references` drops them.
- **Reading solver output.** This covers cbc's first-line classification, glpk's
  status and objective fields, and the split of result rows into variables and
  constraints by the first letter of the row name.

Modules, one per file:

| module | file | what it holds |
|---|---|---|
| `Wrappers` | wrappers.dfy | `Option`, `Result`, `Outcome` |
| `Arrays` | arrays.dfy | Python numbers and strings, numpy arrays, Series and DataFrames as one `Operand` type; shapes; numpy's trailing-axis broadcasting; the errors raised |
| `Text` | text.dfy | `sub in s` and `startswith` |
| `Tokens` | tokens.dfy | decimal names, blocks of names, the `Counters` class |
| `Broadcasting` | broadcast.dfy | `broadcasted_axes`: its loop as a method, proved against a recursive specification |
| `Render` | render.dfy | `_str_array`, `linexpr` (a method with its loop), `join_exprs` |
| `Networks` | networks.dfy | the `Network` class: the two output files and the reference tables, updated in place |
| `Writer` | writer.dfy | `write_bound`, `write_constraint` |
| `References` | references.dfy | registration, storage, lookup and clearing of references |
| `SolverOutput` | solver_output.dfy | the pure classification logic of the cbc and glpk readers |

Numbers are not converted to text here. A number is a sign and the text Python prints
for its absolute value (`Arrays.Number`). Every claim about rendered terms therefore
says where that text goes and that it reads back whole.

### Where the code and its documentation differ (the model follows the code)

- **Empty shape.** A write whose shape is empty (no labelled operand and no axes given,
  or `axes=()`) does not write zero records. `np.prod(())` is the float `1.0`.
  `xCounter += 1.0` turns the counter into a float, and `range()` then raises. The counter
  stays a float, so every later write of that kind raises until `reset_counter`.
  `Counters` records this in `xIsFloat`/`cIsFloat`, and the writers return
  `Err(FloatCount)`. `linexpr` with an empty shape raises the same way in `np.repeat`.
  Only a shape containing a zero gives an empty result.
- **Newlines in `linexpr`.** The `linexpr` doctest (pypsa/linopt.py:149-150) shows
  `'+1.0 a1 -0.5 b1'`. The loop at line 168 appends `'\n'` after each pair, so the element
  is `"+1.0 a1\n-0.5 b1\n"`. `Render.Terms` follows the loop.
- **Which labels are checked.** `broadcasted_axes` compares only the trailing axis.
  Two DataFrames with the same columns and different row labels pass the check
  (`Broadcasting.RowLabelsNotCompared`).
- **`or -(...)` in `clear_references`.** The test at line 308 negates a bool. `-(True)`
  is `-1`, which is truthy, so the test is "contains either suffix". The loop runs the
  test as written (`References.ClearTest`), and the postcondition is stated in terms of
  "either suffix".

## Model

| member | source | states |
|---|---|---|
| Tokens.Decimal | pypsa/linopt.py:51 | the number in a name is non-empty decimal digits, at least two for numbers from 10 up |
| Tokens.ParseDecimalOfDecimal | pypsa/linopt.py:51 | reading the digits of `str(k)` back gives `k` |
| Tokens.ParseTokenText | pypsa/linopt.py:51-52 | a name `x{k}` / `c{k}` reads back to its kind and number |
| Tokens.TokenTextInjective | pypsa/linopt.py:75-76 | two names are equal exactly when kind and number are equal |
| Tokens.Block | pypsa/linopt.py:51-52 | a write mints exactly one name per element |
| Tokens.BlockDistinct | pypsa/linopt.py:51-52 | the names of one write are pairwise distinct |
| Tokens.BlocksDisjoint | pypsa/linopt.py:48-52 | a later write from the same counter shares no name with an earlier one; a variable name never equals a constraint name |
| Tokens.Counters.constructor | pypsa/linopt.py:27-28 | both counters start at 0 |
| Tokens.Counters.Reset | pypsa/linopt.py:29-31 | both counters are 0 (and integral) again, so the next writes start at `x0` and `c0` |
| Tokens.Counters.Allocate | pypsa/linopt.py:48-52 | the counter rises by exactly `prod(shape)`, the other counter is unchanged, the names are the block from the old count in order; an empty shape makes the counter a float and no names are produced |
| Text.ContainsIff | pypsa/linopt.py:308 | the scan behind `sub in s` answers true exactly when `sub` occurs at some position |
| Text.ContainsSuffix | pypsa/linopt.py:204 | a name built as attribute + suffix contains the suffix |
| Arrays.CellIndexInRange | pypsa/linopt.py:168 | reading element `k` of an operand broadcast onto the result shape stays inside the operand's data |
| Broadcasting.BroadcastedAxes | pypsa/linopt.py:92-115 | the loop returns what the recursive specification gives for the operands it inspects, after one level of tuple flattening when every argument is a tuple |
| Broadcasting.BroadcastOkIff | pypsa/linopt.py:107-110 | broadcasting succeeds exactly when every pair of labelled operands has the same trailing axis |
| Broadcasting.BroadcastFromOkIff | pypsa/linopt.py:107-110 | from axes already found, the loop succeeds exactly when every remaining labelled operand has their trailing axis |
| Broadcasting.BroadcastChoice | pypsa/linopt.py:111-114 | no axes exactly when nothing is labelled; otherwise the axes of the first labelled operand with the most dimensions, none having more |
| Broadcasting.BroadcastFromChoice | pypsa/linopt.py:111-112 | the loop keeps its axes or takes those of the first strictly wider operand |
| Broadcasting.BroadcastFits | pypsa/linopt.py:107-114 | after success every Series broadcasts onto the result; a DataFrame does exactly when its row count matches |
| Broadcasting.RowLabelsNotCompared | pypsa/linopt.py:108-110 | two DataFrames with equal columns and different rows pass |
| Render.ScalarTermIsElementTerm | pypsa/linopt.py:178-187 | the scalar path `'+' + str(float(v)) + ' '` / `str(float(v)) + ' '` writes the same sign, magnitude text and space as the array path sign + `abs(v).astype(str)` + space, for a value whose magnitude text is the same on both paths |
| Render.ParseElementTerm | pypsa/linopt.py:184-187 | a rendered term reads back to its number, sign and magnitude |
| Render.StrArray | pypsa/linopt.py:177-188 | shape kept, well-formedness kept, the result is a string or an array of strings (or an empty numeric array, which stays as it is) |
| Render.StrArrayTerms | pypsa/linopt.py:178-188 | a scalar's term reads back to the number; strings and object arrays come back unchanged; every numeric element's term reads back to that element |
| Render.LinesAppend | pypsa/linopt.py:167-168 | the lines of pairs `p + q` are those of `p` followed by those of `q` |
| Render.TermsAppend | pypsa/linopt.py:167-168 | the expression for pairs `p + q` is that of `p` followed by that of `q` |
| Render.TermsSnoc | pypsa/linopt.py:168 | one more pair appends exactly coefficient term, variable, newline |
| Render.FillTerms | pypsa/linopt.py:166-168 | fails exactly when some coefficient or variable does not broadcast onto the shape; otherwise each element is the joined lines of all pairs in argument order |
| Render.LinExprOperands | pypsa/linopt.py:104-105 | on linexpr's tuples, broadcasted_axes inspects every coefficient and variable, pair by pair |
| Render.BroadcastErrIsMisaligned | pypsa/linopt.py:109-110 | the only failure of broadcasted_axes is misaligned trailing axes |
| Render.LinExpr | pypsa/linopt.py:164-175 | misaligned operands raise; an empty shape raises (float size); a shape with a zero gives an empty array; otherwise element `k` is the pairs' lines, and `as_pandas` labels it with the broadcast axes |
| Render.JoinAppend | pypsa/linopt.py:196 | joining `a + b` is joining `a` then `b`, no separator |
| Render.JoinAt | pypsa/linopt.py:196 | each element appears whole, between the joins of those before and after it |
| Render.JoinExprs | pypsa/linopt.py:191-196 | a lone string is its own join; an empty array joins to "" |
| Networks.Network.WriteBounds | pypsa/linopt.py:54-55 | the bounds file gains exactly the given lines, in order |
| Networks.Network.WriteConstraints | pypsa/linopt.py:80-81 | the constraints file gains exactly the given records, in order |
| Writer.OperandsOfTwo | pypsa/linopt.py:44 | `broadcasted_axes(lower, upper)` inspects exactly the two operands |
| Writer.CheckOperand | pypsa/linopt.py:80 | an operand passes exactly when its shape is a trailing part of the written shape, and otherwise raises a broadcasting error |
| Writer.FirstFailurePasses | pypsa/linopt.py:80 | the constraint record expression builds exactly when every operand broadcasts onto the shape, whatever its dtype (an empty numeric operand added to the object array of names passes); any failure is a broadcasting error |
| Writer.BoundCheckPasses | pypsa/linopt.py:54 | the bounds line expression builds exactly when `lower` is not left numeric by `_str_array` and both bounds broadcast; a left-numeric `lower` raises at `lower + ' <= '` before any broadcasting; an empty numeric `upper` is accepted |
| Writer.BoundRecords | pypsa/linopt.py:54 | one bounds line per name |
| Writer.WriteBound | pypsa/linopt.py:34-56 | axes given or broadcast (misalignment raises, counter untouched); counter rises by `prod(shape)`; float count raises; an empty numeric `lower` or an operand that does not broadcast raises; otherwise the file gains `lower <= xN <= upper` per element in row-major order and the names come back over the axes; the constraints file and `cCounter` are untouched |
| Writer.ConstraintRecords | pypsa/linopt.py:80 | one constraint record per name |
| Writer.NormaliseSense | pypsa/linopt.py:77-78 | the sense written is never `==`; only `==` is changed, and it becomes `=` |
| Writer.WriteConstraint | pypsa/linopt.py:58-82 | as WriteBound for `cCounter` and the constraints file, except that only broadcasting is checked (every operand joins the object array of names), with `==` written as `=` and every other sense unchanged |
| Writer.TokenHasNoColon | pypsa/linopt.py:75 | a name holds no colon |
| Writer.ConstraintRecordNamesItsRow | pypsa/linopt.py:75-80 | each constraint record starts with its name before the first colon, and that name reads back as its number |
| References.Register | pypsa/linopt.py:225-228 | the registry gains the key and no other entry changes |
| References.RegisterAllJoins | pypsa/linopt.py:225-226 | a fresh key registered again with non-empty specifications holds them all, comma-separated, in call order |
| References.RegisterEmptySpec | pypsa/linopt.py:227-228 | an empty specification overwrites the row |
| References.FrameTable | pypsa/linopt.py:206-209 | the stored table has exactly the frame's columns, each with its column of names |
| References.SeriesColumn | pypsa/linopt.py:213 | the stored column maps each row label to its name |
| References.StoreTimeVarying | pypsa/linopt.py:205-209 | the frame's columns are written over; other columns and other tables stay |
| References.StoreStatic | pypsa/linopt.py:212-213 | the series' rows are written; other rows and other columns stay |
| References.SetRef | pypsa/linopt.py:215-245 | empty input changes nothing; a deleted registry raises; otherwise the registry row and the references under attribute + suffix are updated and nothing else changes |
| References.GetRef | pypsa/linopt.py:248-301 | returns what the registry flag points at under attribute + suffix (missing registry, key or table raise); `pop` removes exactly that entry |
| References.Lookup | pypsa/linopt.py:267-274 | a missing registry and a missing registry row are reported as such; a found reference sits where the row's `pnl` flag points, under attribute + suffix |
| References.LookupAfterSet | pypsa/linopt.py:267-274 | after a registration that keeps its flag, lookup finds every column (or row) just stored |
| References.LookupAfterPop | pypsa/linopt.py:268-273 | after a pop the same reference is not found |
| References.ClearTest | pypsa/linopt.py:308 | the test as written, `-(...)` included, holds exactly when the name contains either suffix |
| References.ClearReferences | pypsa/linopt.py:304-313 | exactly the time-varying tables whose name contains either suffix are dropped; both registries are deleted; static columns stay |
| References.StoredNamesAreCleared | pypsa/linopt.py:306-309 | every name set_varref/set_conref stores is one clear_references drops |
| SolverOutput.CbcCondition | pypsa/linopt.py:351-358 | optimal exactly when the line starts with the prefix; infeasible exactly when it does not and contains `Infeasible`; other otherwise |
| SolverOutput.CbcObjectiveOfLine | pypsa/linopt.py:351-354 | for `Optimal - objective value v` the text handed to float() is `v` |
| SolverOutput.CbcFirstLineAsWritten | pypsa/linopt.py:351-361 | as written, a line that gets through is one whose condition is optimal, and it carries an objective |
| SolverOutput.CbcAsWrittenRaises | pypsa/linopt.py:351-361 | as written, the reader raises exactly on the non-optimal lines |
| SolverOutput.CbcInfeasibleExample | pypsa/linopt.py:355-361 | an infeasible line raises as written and is reported as infeasible once corrected |
| SolverOutput.CbcFirstLine | pypsa/linopt.py:351-361 | status equals the condition from the first line, an objective exactly when optimal, and agreement with the code wherever the code returns |
| SolverOutput.StripLeft | pypsa/linopt.py:410 | a suffix of the text that starts with no whitespace |
| SolverOutput.StripRight | pypsa/linopt.py:410 | a prefix of the text that ends with no whitespace |
| SolverOutput.Strip | pypsa/linopt.py:410 | no whitespace at either end |
| SolverOutput.StripPadded | pypsa/linopt.py:410 | whitespace around a value is removed and the value kept whole |
| SolverOutput.Lower | pypsa/linopt.py:410 | same length, no ASCII capital left |
| SolverOutput.LowerOfLower | pypsa/linopt.py:410 | text with no ASCII capital is left unchanged |
| SolverOutput.LowerAppend | pypsa/linopt.py:410 | ASCII lower-casing works character by character, so it distributes over concatenation |
| SolverOutput.LowerOptimal | pypsa/linopt.py:410-414 | `OPTIMAL` lower-cases to `optimal` |
| SolverOutput.GlpkStatus | pypsa/linopt.py:410-412 | the status used as termination condition is lower-case with no surrounding whitespace |
| SolverOutput.GlpkStatusOfPadded | pypsa/linopt.py:410-415 | a status field of whitespace, a value and whitespace reads as the value lower-cased; a padded `OPTIMAL` reads as `optimal`, so the reader goes on to the rows |
| SolverOutput.DigitsOnly | pypsa/linopt.py:411 | only digits remain, never more characters than before |
| SolverOutput.GlpkObjectiveAsWritten | pypsa/linopt.py:411 | as written, the text handed to float() holds digits only, so neither sign nor point survives |
| SolverOutput.GlpkObjective | pypsa/linopt.py:411 | the corrected reading has no whitespace at either end; `GlpkObjectiveRoundTrip` proves it is the printed value |
| SolverOutput.GlpkObjectiveLosesSignAndPoint | pypsa/linopt.py:411 | as written, `name = -a.b (sense)` yields `ab` |
| SolverOutput.GlpkObjectiveRoundTrip | pypsa/linopt.py:411 | the corrected field reading returns exactly the value between `=` and `(` |
| SolverOutput.GlpkObjectiveKeepsSignAndPoint | pypsa/linopt.py:411 | the corrected reading of `name = -a.b (sense)` is `-a.b` |
| SolverOutput.Primals | pypsa/linopt.py:365-366 | at most one pair per row, each from a row whose name starts with `x` |
| SolverOutput.CbcDuals | pypsa/linopt.py:367 | at most one pair per row, each from a row whose name does not start with `x` |
| SolverOutput.GlpkDuals | pypsa/linopt.py:418-423 | at most one pair per row, each from a row whose name starts with `c` |
| SolverOutput.CbcSplitIsPartition | pypsa/linopt.py:365-367 | every cbc row lands on exactly one side: a variable row's value among the primals, every other row's dual value among the duals |
| SolverOutput.CbcDualsMembership | pypsa/linopt.py:367 | a (name, value) pair is among cbc's duals exactly when a row whose name does not start with `x` carries it as its dual |
| SolverOutput.GlpkDualsMembership | pypsa/linopt.py:418-423 | a (name, value) pair is among glpk's duals exactly when a row whose name starts with `c` carries it as its `Marginal` |
| SolverOutput.PrimalsMembership | pypsa/linopt.py:365-366 | a (name, value) pair is a primal exactly when a variable row carries it |
| SolverOutput.GlpkDualsWithinCbc | pypsa/linopt.py:418-423 | glpk's duals are among the non-variable rows |
| SolverOutput.WrittenNamesClassified | pypsa/linopt.py:418-421 | written `x…` names are read as variables, `c…` names as constraints |

## Left out

- The solver runs are not modelled: command lines, `os.system`, `subprocess.run`, the gurobi reader (pypsa/linopt.py:433-486), logging toggles and `rm`. They are external processes and foreign calls.
- File I/O is not modelled. The bounds and constraints files are sequences of written strings. Reading a solution file (`readline`, `read_csv`, `read_fwf`) is replaced by its first line, header fields or rows, passed in as values.
- Float conversion is not modelled: `float()`, `astype(str)`, `pd.to_numeric(..., 'coerce').fillna(0)`. Magnitudes and objective values stay text, and negative zero and NaN are not represented.
- The `pd.Index` wrapping of a lone axes argument (lines 42 and 66) is left out. Callers pass the list of axes.
- Render.LinExpr: `return_axes` (lines 173-174) is not modelled. It only returns the same cells together with the axes that the method's contract already names.
- numpy's stretching of size-1 dimensions is not modelled, and neither is a result wider than the write's axes. An operand whose shape is not a trailing part of the result shape is reported as `Unbroadcastable`.
- Render.ScalarTermIsElementTerm: a magnitude is the text of its own path. A Python int or float is printed through `float()`, so `1` gives `+1.0 `. An array is printed with its own dtype's `astype(str)`, so an int array gives `+1 `. One `Number` type holds the text, and the model does not derive it from the value.
- References.SetRef: the references must have unique row and column labels. Pandas accepts repeated labels, but storing them under their labels as map keys is not modelled. The writers, `broadcasted_axes` and `linexpr` accept repeated labels.
- SolverOutput.Lower: only the ASCII capitals `A`-`Z` are lowered, one character to one. `str.lower()` also lowers non-ASCII capitals, and some of them become two characters (`İ`). glpk's status words are ASCII.
- SolverOutput.IsSpace: `str.strip()` also removes the ASCII separators `\x1c`-`\x1f` and Unicode spaces such as `\x85` and `\xa0`. The model strips space, tab, newline, carriage return, vertical tab and form feed only.
- Writer.WriteBound, Writer.WriteConstraint: shapes of more than two dimensions are excluded by precondition. The source produces Series and DataFrames only.
- References.SetRef: time-varying references must be a DataFrame and static ones a Series, as the docstrings demand. Pandas index alignment of an assigned frame with the rows already stored is not modelled. Neither is the column reordering `reindex(columns=n.df(c).index)` (lines 210-211), because tables are maps without column order.
- References.LookupAfterSet assumes that the registry row keeps the flag it was given. If an existing key is re-registered with a non-empty specification and the other `pnl`, the old flag stays (lines 225-226). get_var then looks in the other table, and GetRef models that as it is.
- References.ClearReferences treats all components alike. `iterate_components` skips components with no static rows, and that is not modelled.
- The registries `n.variables`/`n.constraints` are created outside this file. `Networks.Network` starts with both empty and present.
- Assertion messages and exception classes are not modelled. An error is one `LpError` or `ReadError` value naming its cause.

## Findings

| source | as written | input that shows it | evidently intended | confidence | as-written member | corrected member |
|---|---|---|---|---|---|---|
| pypsa/linopt.py:351-361 | on a first line that is not optimal, `status` is never assigned, so `return status, ...` raises UnboundLocalError | first line `Infeasible - objective value 0.00000000` | return the termination condition as the status, with no results, as the glpk and gurobi readers do | high, not executed | SolverOutput.CbcInfeasibleExample | SolverOutput.CbcFirstLine |
| pypsa/linopt.py:411 | `re.sub('[^0-9]+', '', ...)` deletes the minus sign and the decimal point along with the text | objective field ` obj = -12.5 (MINimum)` gives `125` | the printed objective value, `-12.5` | high, not executed | SolverOutput.GlpkObjectiveLosesSignAndPoint | SolverOutput.GlpkObjectiveRoundTrip |
