# mc: an explicit-state mu-calculus model checker, modelled in Dafny

`mc.c` reads a labelled transition system in Aldebaran (`.aut`) format and a
modal mu-calculus formula, flattens the formula into an array of nodes in
preorder, and computes the set of states satisfying each node bottom-up.
Fixpoints are computed by Kleene iteration. Two policies decide which
approximants restart: the naive one (every descendant binder that depends on
the loop variable is reset after each round) and Emerson-Lei's (only on
alternation, and closed subformulas are evaluated once).

The model has one module per part of the program:

- `Labels` (labels.dfy): the label table of `label_id`/`label_name`.
  - Abstractly, a sequence of names interned in first-seen order.
  - Concretely, the NUL-separated `char` buffer the C code scans.
  - Both the corrected scan and the scan as written.
- `LtsStore` (lts.dfy): `read_lts`.
  - The character automaton for one edge line.
  - Label interning of the edges.
  - The three passes that regroup the edges into one `(s, t)` array per label.
- `StateSets` (statesets.dfy): the `s_*` set operations, as `seq<bool>`.
- `Formulas` (formulas.dfy): the formula tree (`formula.h`), the node type codes and the `is*` tests.
- `Arena` (arena.dfy): `f_init_preorder`, `f_deps` and `f_init`.
  - They build the node array with subtree ranges, surrounding binder type, label ids, dependencies and variable-to-binder links.
  - `f_init`'s global binder table `A[26]`, as written.
- `Evaluator` (eval.dfy): sequential `eval`.
  - And/Or, Diamond/Box, and the Mu/Nu `do … while` loop.
  - Both reset policies, the `valid` flags and the counters.
- `Semantics` (semantics.dfy): the standard set semantics of the mu-calculus, written independently of the program.
  - Fixpoints are given as approximant chains of length `n + 1`.
  - Proved to be the least and greatest fixpoints.
- `Soundness` (soundness.dfy): the evaluator under the naive policy computes that semantics, from the parsed file to the root's set.

## Model

| member | source | states |
|---|---|---|
| Labels.Intern | mc.c:23-36 | the id of a known name is its first position and the table is unchanged; an unknown name gets the next id and is appended |
| Labels.InternIdempotent | mc.c:23-36 | interning a name a second time returns the same id and leaves the table alone |
| Labels.InternNoRepeats | mc.c:23-36 | interning never lists a name twice, so every name has exactly one id |
| Labels.LabelId | mc.c:23-36 | scanning the NUL-separated buffer gives the id `Intern` gives and the buffer of the grown table, and `label_name` of the result reads the name back |
| Labels.LabelNameOfFlatten | mc.c:38-43 | `label_name(id)` walks `id` entries and returns entry `id` of the table: the inverse of `label_id` |
| Labels.LabelIdAsWrittenAgrees | mc.c:23-36 | as long as no interned name is empty, the scan as written (stopping at a NUL entry) returns the same id, buffer and label count as `Intern` |
| Labels.EmptyLabelCollides | mc.c:25 | after interning "", the scan as written gives "b" the id 0 as well, while `Intern` gives it 1 |
| LtsStore.ParseFormatLine | mc.c:57-90 | the line automaton reads back the source, label and target of a printed line `(s,"label",t)` whose label has no quote or NUL |
| LtsStore.ParseWithoutTarget | mc.c:63-89 | a line cut right after the closing quote of the label gives the edge to state 0, because the target was reset at `(` |
| LtsStore.ParseEdges | mc.c:56-99 | on success there is one edge per line: its numbers are the line's, both are states of the header, and its label id names the line's label in the grown table |
| LtsStore.ParseEdgesNoRepeats | mc.c:56-99 | the label table that reading the lines builds has no repeated name |
| LtsStore.SourceRunBounds | mc.c:91-98 | with contiguous source runs, `sbegin[q]`/`send[q]` delimit exactly the edges of source `q`, and `-1` marks a state without edges |
| LtsStore.CountPerLabel | mc.c:101-104 | `transition_counts[l]` is the number of edges labelled `l` |
| LtsStore.FillPerLabel | mc.c:106-120 | with contiguous source runs, label `l`'s array is its edges grouped by ascending source, each group in file order |
| LtsStore.Regroup | mc.c:91-120 | the counts are the per-label edge counts and, with contiguous runs, each array is the reference grouping `BySource` of that length |
| LtsStore.ReadLts | mc.c:45-122 | fails exactly when a line is missing, does not parse, or names a state at or beyond the header's state count; on success the store holds the header's numbers, the parsed label table (interned with the corrected scan), the counts and the per-label arrays |
| LtsStore.TransitionsForEdges | mc.c:106-120 | a pair is in the array `eval` walks for label `l` exactly when some edge carries that pair with label `l` |
| LtsStore.FormulaOnlyLabelOutOfBounds | mc.c:282-283 | a label only the formula mentions gets an id past `transition_counts` (sized at mc.c:101); the as-written lookup is outside the array, `TransitionsFor` gives no edges |
| StateSets.Uniform | mc.c:131 | `s_reset(set, v)`: every one of the `n` cells holds `v` |
| StateSets.Meet | mc.c:269-271 | a state is in the result iff it is in both operands |
| StateSets.Join | mc.c:272-274 | a state is in the result iff it is in either operand |
| StateSets.Equal | mc.c:133 | the cell-by-cell comparison of `s_equal` returns true iff the sets are equal |
| StateSets.CountStrictlyMonotone | mc.c:305 | a set that strictly grows gains at least one state, so a growing chain stops within `n` rounds |
| Formulas.Type | mc.c:172-179 | the type code is below 9, and each `is*` test holds exactly for its node shapes (binders, modal nodes, operators with one or two children) |
| Formulas.UniqueBindersPreorder | mc.c:227-229 | when no variable is bound twice, a variable has at most one binder in the preorder |
| Arena.DepsWalkFreeVars | mc.c:195-208 | `f_deps` records exactly the free variables of the subtree, and counts none exactly when the subtree is closed |
| Arena.BuildLays | mc.c:181-236 | the node array of a closed formula represents it: types, subtree ranges, surrounding binder, dependencies, label names and lexical binder of every node |
| Arena.BuildWf | mc.c:181-236 | every node of the array is well formed: children follow their parent inside its range, and a variable links to an earlier binder |
| Arena.BuildAtNoRepeats | mc.c:220-222 | interning the formula's labels keeps the label table free of repeats |
| Arena.LaysPreorder | mc.c:181-229 | node `k + i` carries the type of preorder formula `i`, and a variable node links to an earlier binder of the same variable |
| Arena.ResolveAsWritten | mc.c:227-229 | the global table gives a variable node the latest earlier binder of its variable, or -1 when there is none |
| Arena.GlobalTableShadows | mc.c:227-229 | in `nu X.((mu X.X) or X)` the global table links the last `X` to the inner `mu`, whose range ended before it |
| Arena.ShadowedLexical | mc.c:227-229 | the model links that `X` to the enclosing `nu` |
| Arena.LexicalIsGlobal | mc.c:227-229 | when no variable is bound twice, the lexical binder of every variable node is the one the global table gives |
| Evaluator.InitState | mc.c:219-231 | Mu sets start empty and Nu sets full, only variables are valid, and all counters are zero (the worker `calloc`'d at mc.c:400; the threaded path resets at mc.c:156-158) |
| Evaluator.ModalScan | mc.c:277-288 | for Diamond a state is in the set iff one of its pairs reaches the child's set; for Box iff all of them do |
| Evaluator.ResetOpen | mc.c:293-299 | open descendants of the binder's own type restart from their identity, and closed nodes, other types, flags and anything outside the range stay |
| Evaluator.ResetDependents | mc.c:308-311 | descendant binders that depend on the loop variable restart from their identity; non-binders, independent nodes and anything outside the range stay |
| Evaluator.Counted | mc.c:246 | the count of the node's type goes up by one, everything else stays |
| Evaluator.Round | mc.c:300-303 | a Mu round raises `lfp_iterations` and a Nu round raises `gfp_iterations` by one, the other stays |
| Evaluator.EndOfRound | mc.c:305-311 | the binder ends up with the body's value, and under the naive policy exactly the dependent descendant binders are reset |
| Evaluator.Eval | mc.c:243-330 | a valid node is returned unchanged; only the node's range changes; the naive policy keeps every flag; under Emerson-Lei a closed node ends up valid |
| Evaluator.ClosedEvaluatedOnce | mc.c:244-327 | under Emerson-Lei, evaluating a closed node a second time changes nothing |
| Evaluator.FixpointUnroll | mc.c:300-312 | one turn of the binder loop: it stops once the round leaves the binder's set as it was, and otherwise continues with one round less |
| Soundness.ReadLtsModels | mc.c:45-122 | the store `read_lts` builds holds states in range, and after `f_init` interns the formula's labels, label `l`'s array holds exactly the file's edges labelled `tbl[l]` |
| Soundness.NaiveCorrect | mc.c:243-328 | under the naive policy, evaluating a node whose binders are ready gives the semantics of its subformula under the environment of the binders in scope |
| Soundness.NaiveSound | mc.c:243-328 | for a closed formula, naive `eval` of the root with more rounds than states succeeds and yields the set of states satisfying the formula |
| Soundness.FileSound | mc.c:45-330 | from parsed file to answer: naive evaluation over the store `read_lts` builds yields the semantics of the formula in the LTS of the file's edge lines, for the corrected label scan and per-label lookup |

## Left out

- Threads: `w_eval`, the worker pool and the parallel And/Or branch (mc.c:151-165, 257-266) are left out. Evaluation is modelled sequentially, left operand first, as the single-threaded path does.
- I/O: the `des (I,T,S)` header read by `fscanf`, the blank skipping after it, and `getc`.
  - The model takes the header as a value and the file as its edge lines, already split at `'\n'`.
  - A last line that ends at end of file without `'\n'` makes the C loop read `EOF` and fail an `assert` (mc.c:58, 87). The model never sees that case.
- Memory: `malloc`/`realloc`/`free`, `cleanup`, and the fixed `label[5000]` buffer. A label longer than 4999 characters overflows that buffer (mc.c:52, 78); the model's labels are unbounded.
- Integer width: the source and target states accumulate in `int` without an overflow check (mc.c:67, 85). The model's numbers are unbounded.
- LtsStore.ParseLine: a line that stops before the label's closing quote, or an empty line, is rejected. The C loop would use the label buffer of an earlier line there, and, without a `(`, its numbers too. A line cut after the quote is accepted with target 0, as in the C code.
- LtsStore.ParseEdges: a state outside the header's range is an error. The C code writes `sbegin[s]` and the state sets out of bounds with it (mc.c:94).
- LtsStore.ParseEdges: labels are interned with the corrected scan `Labels.Intern`, not the scan of mc.c:25 as written, so `ReadLts`, `Soundness.ReadLtsModels` and `Soundness.FileSound` describe the corrected program. `Labels.LabelIdAsWrittenAgrees` shows the two agree whenever no label is empty; an empty label makes every later label share id 0 in the C code (see "## Findings").
- Arena.BuildAt: the formula's labels are interned with the same corrected scan (mc.c:221-222), with the same agreement when no label is empty.
- LtsStore.TransitionsFor: a label id past the per-label arrays (a label only the formula mentions) has no edges; the C code reads `transition_counts` and `transitions` out of bounds there (mc.c:101, 282; see "## Findings").
- LtsStore.Regroup: the per-label arrays are specified for files whose edges come in contiguous source runs. Otherwise the C code overwrites `sbegin` and drops edges, and the model states only the counts.
- Formulas: variables are unbounded naturals, not the 26 letters `A[26]` and `bindings[26]` index. The formula parser and printer (`f_parse`, `f_print`) and `verbose` output are not part of this model.
- `main`, `usage`, option parsing and the printed statistics are not part of this model.
- Evaluator.Eval: a binder loop runs at most `fuel` rounds and returns `Err` beyond that, where the C loop runs until it is stable. `Soundness.NaiveSound` shows that more rounds than states suffice.
- Evaluator.Eval: under Emerson-Lei the model states the flags and resets (closed nodes become valid and are evaluated once; `ResetOpen`), but its result is not proved equal to the semantics. Only the naive policy is proved correct.
- Soundness.NaiveSound: stated for the lexical binder links of `Build`. `Arena.LexicalIsGlobal` shows these are the links of the C code's global table whenever no variable is bound twice.

## Findings

| source | as written | input that shows it | evidently intended | confidence | as-written member | corrected member |
|---|---|---|---|---|---|---|
| mc.c:25 | the scan of `label_id` also stops at an entry whose first byte is NUL | the label "" then the label "b": both get id 0, so their edges share one array | stop only at the end of the buffer, so that "b" gets id 1 | not executed | Labels.EmptyLabelCollides | Labels.LabelId |
| mc.c:227-229 | a variable node takes the set of whichever binder of its variable the preorder loop met last | `nu X.((mu X.X) or X)`: the last `X` shares the set of the inner `mu`, whose scope has ended | the variable refers to its lexically enclosing binder | not executed | Arena.GlobalTableShadows | Arena.ShadowedLexical |
| mc.c:101, 282 | `transition_counts` and `transitions` are sized by the labels known after `read_lts`, but `f_init` interns the formula's labels later | LTS with only label "a", formula `<b>true`: `b` gets id 1 and `transition_counts[1]` is read out of bounds | a label without edges has no transitions | not executed | LtsStore.FormulaOnlyLabelOutOfBounds | LtsStore.TransitionsForEdges |
