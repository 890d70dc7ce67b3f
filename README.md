# Code-size comparison and test-dependency rewriting, modelled in Dafny

This project models two scripts of the Mbed TLS repository.

`scripts/code_size_compare.py` measures the size of the three libraries (`libmbedcrypto.a`, `libmbedx509.a`, `libmbedtls.a`) in two git revisions and compares them object by object. The model covers:

- the `Size` record and its operators;
- the matrix from architecture and configuration to the pre-build command, the `make` command and the cross-build configuration tweak;
- the parser of `size -t` reports;
- the comparison rows;
- the whole measurement flow, as a class over a repository whose set of linked worktrees changes only through `git worktree add` and `git worktree remove`. Every external command is a step the environment lets succeed or fail, and the repository logs every step. The proofs state exactly which failures are followed by removal of the temporary checkout and which leave it behind.

`tests/scripts/generate_dependency.py` adds dependencies to the test cases of `.data` files. The model covers:

- the splitting of a file into blank-line-separated test cases, and the re-joining of them;
- `__append_dep`, which finds the description line of a test case, then either extends the case's `depends_on:` line or inserts a new one;
- `__parse_file`, which stores the rewritten file in `snippets`.

Modules, in dependency order:

- `Wrappers`: Option and Result.
- `PyText`: the Python string built-ins the scripts rely on.
- `OrderedDict`: an insertion-ordered `dict`.
- `SizeRecord`: the `Size` record and its operators.
- `BuildProfile`: the build matrix.
- `SizeReport`: the parser.
- `Comparison`: the comparison rows.
- `Worktree`: the repository, the commands and the run semantics of command plans.
- `Measurement`: the `CodeSizeComparison` class.
- `DependencyRewriter`: `split_test_case` and the `GenTestData` class.

How the world is modelled:

- **Commands.** A command's success and output come from the repository's `answer` function. git's own refusals are modelled: it will not add a worktree at a path that already has one, or remove one that does not exist.
- **`sys.exit` and uncaught exceptions** are values of `Worktree.Halt`. A method that can stop the script returns its outcome, and later stages do not run.
- **`__found_target`'s regular expression** is the predicate `locate`, given to the constructor.
- **`DEPEND_REGEX` under `re.match`** is "the stripped line starts with `depends_on:`".

Where the code and its documented intent differ, the model follows the code:

- **Cleanup.** `_handle_called_process_error` says it removes any extra worktrees so that the script may be run again. But only the pre-build, `make` and `size` calls are inside `try`. A failing `config.py` call of the tweak, or the parser's IndexError, stops the script with the temporary checkout still registered. Two lemmas prove this: `TweakFailureOrphansCheckout` and `ParseFailureOrphansCheckout`.
- **Revision "current".** It is measured in the live tree. The pre-build command and the tweak then change the live tree's configuration; no worktree is added or removed.
- **Cross-build flags.** The aarch32/default flags carry `-mcpu=cortex-m33 -Os`; the aarch64/default flags carry only the target. The model keeps the exact text, including the indentation that the backslash line continuations leave inside the string literals.
- **Same revision twice.** When both revisions are the same string, the second measurement is stored in both `old_sizes` and `new_sizes`. So the comparison's baseline is the second measurement.

## Model

| member | source | states |
|---|---|---|
| SizeRecord.Eq | scripts/code_size_compare.py:42-45 | two records are equal exactly when they agree on every field except possibly `total` |
| SizeRecord.AddSubInverse | scripts/code_size_compare.py:62-74 | `(a + b) - b` and `(a - b) + b` give back `a` in every field, total included, and so compare equal to `a` |
| SizeRecord.EqualityIgnoresTotal | scripts/code_size_compare.py:42-48 | records differing only in `total` are `==` and not `!=` |
| SizeRecord.EqualityIsEquivalence | scripts/code_size_compare.py:42-48 | `==` is reflexive, symmetric and transitive, and `!=` is its negation |
| SizeRecord.StrictOrderOnTotals | scripts/code_size_compare.py:50-60 | `a < b` iff `b > a` iff `a.total < b.total`; `<` and `>` are irreflexive; `<=` is `<` or `==`; `>=` is the converse of `<=` |
| SizeRecord.LeBesideLargerTotal | scripts/code_size_compare.py:53-54 | whenever text, data and bss agree and `a.total > b.total`, `a <= b` holds although `a < b` does not (and `a > b` does) |
| SizeRecord.LeGeNotAntisymmetric | scripts/code_size_compare.py:53-60 | whenever text, data and bss agree and the totals differ, `<=` and `>=` hold both ways between two different records |
| SizeRecord.Ne | scripts/code_size_compare.py:47-48 | defining equation: `a != b` is `not (a == b)`; `EqualityIsEquivalence` proves it the negation of `Eq` |
| SizeRecord.Lt | scripts/code_size_compare.py:50-51 | defining equation: `a < b` is `a.total < b.total`; `StrictOrderOnTotals` proves its properties |
| SizeRecord.Le | scripts/code_size_compare.py:53-54 | defining equation: `a <= b` is `a < b or a == b`, so it mixes totals with the three section sizes |
| SizeRecord.Gt | scripts/code_size_compare.py:56-57 | defining equation: `a > b` is `a.total > b.total` |
| SizeRecord.Ge | scripts/code_size_compare.py:59-60 | defining equation: `a >= b` is `a > b or a == b` |
| SizeRecord.Add | scripts/code_size_compare.py:62-67 | defining equation: the field-by-field sum, total included; `AddSubInverse` proves `Sub` undoes it |
| SizeRecord.Sub | scripts/code_size_compare.py:69-74 | defining equation: the field-by-field difference, total included |
| BuildProfile.MakeCommand | scripts/code_size_compare.py:139-167 | a build command exactly for the six supported pairs, refusing every other pair with its configuration and architecture; x86 gets `make -j lib`, a cross build gets `make -j lib CC=<armcc> CFLAGS=...` |
| BuildProfile.X86BuildsPlainLibrary | scripts/code_size_compare.py:143-145 | x86 with default, full or baremetal builds with exactly `make -j lib`, which names no compiler |
| BuildProfile.CrossBuildsUseArmcc | scripts/code_size_compare.py:147-162 | aarch32/default, aarch64/default and aarch32/tfm-medium are accepted and pass the given compiler as `CC=` |
| BuildProfile.UnsupportedPairsRefused | scripts/code_size_compare.py:164-167 | every pair outside the matrix is refused, naming the configuration and architecture |
| BuildProfile.PreBuildOnlyForFullAndBaremetal | scripts/code_size_compare.py:79-84 | only full and baremetal have a pre-build command: `scripts/config.py full` and `scripts/config.py baremetal` |
| BuildProfile.TweakOnlyForCrossDefault | scripts/code_size_compare.py:211-213 | the tweak applies only to a supported cross build, and never together with a pre-build command |
| BuildProfile.PreBuildCommand | scripts/code_size_compare.py:79-84 | defining equation: the `PRE_BUILD_CMDS` table, `""` for default and tfm-medium; `PreBuildOnlyForFullAndBaremetal` states which configurations have one |
| BuildProfile.NeedsArchTweak | scripts/code_size_compare.py:211-212 | defining equation: the architecture is aarch32 or aarch64 and the configuration is default; `TweakOnlyForCrossDefault` relates it to the build matrix |
| BuildProfile.TweakCommand | scripts/code_size_compare.py:192 | defining equation: `"./scripts/config.py " + opt + " " + config` |
| BuildProfile.CrossMake | scripts/code_size_compare.py:149-162 | a cross build command starts with `make -j lib CC=<armcc> CFLAGS=` |
| OrderedDict.Put | scripts/code_size_compare.py:260 | `d[k] = v` keeps the keys distinct, maps `k` to `v`, keeps the position of an existing key and adds a new key last |
| OrderedDict.Empty | scripts/code_size_compare.py:256 | the empty dict is well formed and has no keys |
| PyText.SplitLines | scripts/code_size_compare.py:257 | `str.splitlines()`: no piece contains a line boundary |
| PyText.SplitLinesTerminated | scripts/code_size_compare.py:257 | the lines of a text made of lines that each end in "\n" are those lines |
| PyText.SplitWhitespace | scripts/code_size_compare.py:258 | `str.split()`: every field is non-empty and contains no whitespace |
| PyText.SplitWhitespaceJoin | scripts/code_size_compare.py:258 | `str.split()` undoes joining fields with a whitespace separator: for non-empty fields without whitespace and a non-empty whitespace separator, the fields come back exactly, in order |
| PyText.SplitWhitespaceSkipsSpaces | scripts/code_size_compare.py:258 | leading whitespace of any length does not change the fields |
| PyText.ParseInt | scripts/code_size_compare.py:329-331 | defining equation of `int(str)` on ASCII numerals: optional surrounding whitespace, optional sign, digits with single underscores between them, else `None`; `ParseIntDecimal` and `ParseIntOfNegatedDigits` state what it reads back |
| PyText.ParseIntDecimal | scripts/code_size_compare.py:329-331 | `int()` reads back the numeral `str(n)` of a natural number `n` |
| PyText.ParseIntOfNegatedDigits | scripts/code_size_compare.py:329-331 | `int()` of a minus sign followed by decimal digits is the negated value of those digits |
| PyText.TrimBoth | tests/scripts/generate_dependency.py:126-136 | `strip`: the result occurs in the string with only stripped characters around it, and neither of its ends is one |
| SizeReport.RowsOfReport | scripts/code_size_compare.py:257-258 | for a report made of a header line and data lines, each ending in "\n", the rows are exactly the data lines' whitespace-split fields, one row per data line |
| SizeReport.RowsOfTable | scripts/code_size_compare.py:257-258 | a table written as a report, a header line and then one line per row with its fields joined by a non-empty whitespace separator that breaks no line, parses back to the same table when no field is empty or holds whitespace |
| SizeReport.SizeTextToDict | scripts/code_size_compare.py:254-261 | fails exactly when some data line has fewer than six fields; otherwise the keys are the names in field 5 in order of first appearance, and each maps to fields 0 to 3 of the last line naming it, unconverted |
| SizeReport.DescribesStep | scripts/code_size_compare.py:257-260 | storing one more line extends the dict of the lines before it |
| SizeReport.DescribesUnique | scripts/code_size_compare.py:254-261 | a report describes at most one dict |
| SizeReport.LaterDuplicateOverwrites | scripts/code_size_compare.py:257-260 | a later line naming an object already in the dict keeps the order of the keys, replaces that object's record by the line's first four fields, and leaves every other object as it was |
| SizeReport.FirstOccurrences | scripts/code_size_compare.py:256-260 | the distinct names: exactly the names that occur, each once |
| SizeReport.FirstOccurrencesInOrder | scripts/code_size_compare.py:256-260 | the distinct names are ordered by the position of their first occurrence, so the dict's keys follow the report's order of first appearance |
| SizeReport.FirstIndex | scripts/code_size_compare.py:256-260 | the position of the first occurrence: it holds the name and no earlier position does |
| Comparison.CompareObject | scripts/code_size_compare.py:328-340 | the row of one object: it fails exactly when a total it reads is not an integer; it has old size, change and ratio exactly when the object is in the old dict |
| Comparison.Ratio | scripts/code_size_compare.py:333-336 | `change / old` as an exact quotient when `old != 0`, else 0 |
| Comparison.CompareDicts | scripts/code_size_compare.py:327-340 | one row per object of the new dict, in its order, when every total converts; a ValueError otherwise |
| Comparison.CompareSnapshots | scripts/code_size_compare.py:345-348 | the rows of every artifact of the new snapshot, in its order, exactly when each is also in the old snapshot and every total converts |
| Comparison.RowsMatchUnique | scripts/code_size_compare.py:327-340 | the rows are fixed by the two dicts |
| Comparison.TotalOfDecimal | scripts/code_size_compare.py:329 | a total printed in decimal converts to its value |
| Comparison.BaselineRowExample | scripts/code_size_compare.py:330-338 | 100 bytes before and 120 after give the row `120, 100, 20` with a change of 20% |
| Comparison.ZeroBaselineAndNewObjectExample | scripts/code_size_compare.py:333-340 | an old total of 0 gives ratio 0; an object only the new dict has gets a new-only row |
| Worktree.WorktreePath | scripts/code_size_compare.py:173-178 | the live tree "." exactly for "current", else `./temp-<rev>` |
| Worktree.WorktreePathInjective | scripts/code_size_compare.py:173-178 | different revisions are measured in different places |
| Worktree.Repository.Run | scripts/code_size_compare.py:179-183 | one command is logged; it succeeds only when the environment and git allow it, and only a successful add or remove changes the worktrees |
| Worktree.CompletedRunIsPlan | scripts/code_size_compare.py:198-251 | a completed stage issued exactly its commands, each succeeding |
| Worktree.RunOfAppend | scripts/code_size_compare.py:311-316 | stages run one after the other compose |
| Worktree.RunOfHaltPrefix | scripts/code_size_compare.py:311-316 | a stage that stops the script issues nothing after the failure |
| Worktree.ReplayAppend | scripts/code_size_compare.py:311-316 | the worktrees after two segments of events are those after the second, starting from those after the first |
| Worktree.CaughtFailureRemovesOnce | scripts/code_size_compare.py:360-372 | a failed pre-build, make or size command in a temporary checkout is followed by one event, the removal of that checkout; the script exits -1, or stops with the removal's own error |
| Worktree.TweakFailureLeavesCheckout | scripts/code_size_compare.py:187-196 | a failed `config.py` call is the last event, and nothing is removed |
| Worktree.LiveTreeRunIsShellOnly | scripts/code_size_compare.py:303 | in the live tree, no cleanup issues a git command |
| Worktree.ShellOnlyKeepsWorktrees | scripts/code_size_compare.py:198-251 | shell commands do not change the worktrees |
| Worktree.ShellRunReplay | scripts/code_size_compare.py:198-251 | a run of build or size commands changes the worktrees only by a successful cleanup, which then exits -1 |
| Worktree.SingleCommandRun | scripts/code_size_compare.py:179-183 | a `git worktree` call nothing catches is one event: it completes or stops the script with its own error |
| Worktree.RunEventsFromPlan | scripts/code_size_compare.py:198-251 | a stage issues only its own commands and the removal of its checkout |
| Worktree.CompletedShellRun | scripts/code_size_compare.py:198-251 | a completed build or size stage issues only shell commands and no removal |
| Measurement.ParseReports | scripts/code_size_compare.py:263-269 | the three reports parsed in order under `crypto`, `x509` and `tls`, or IndexError when any has a short line |
| Measurement.NewComparison | scripts/code_size_compare.py:108-131 | fails exactly for an unsupported pair, with exit -1 and before any command runs; otherwise a comparison object with the given revisions and profile |
| Measurement.EnumerationLength | scripts/code_size_compare.py:190-191 | iterating a frozenset visits each of its elements once |
| Measurement.ArchConfigSizes | scripts/code_size_compare.py:87-98 | the tweak sets one option and unsets seven |
| Measurement.SnapshotOfValid | scripts/code_size_compare.py:263-269 | the snapshot of three parsed reports is well formed |
| Measurement.CodeSizeComparison.constructor | scripts/code_size_compare.py:108-131 | the fields are as given, and the pre-build and make commands are those of the build matrix |
| Measurement.CodeSizeComparison.TweakPlan | scripts/code_size_compare.py:188-196 | defining equation: one `config.py set` command per option of the set list, then one `config.py unset` per option of the unset list; `TweakPlanShape` proves every command is a tweak and there is one per option |
| Measurement.CodeSizeComparison.BuildPlan | scripts/code_size_compare.py:198-220 | defining equation: the pre-build command when there is one, the tweak when `NeedsArchTweak`, then make; `BuildPlanShape` states its shape |
| Measurement.CodeSizeComparison.BuildPlanShape | scripts/code_size_compare.py:198-220 | the build issues shell commands only and ends with make; it starts with the pre-build command exactly for full and baremetal; it has 2, 9 or 1 commands; a tweak command appears only for the cross targets' default configuration |
| Measurement.CodeSizeComparison.CreateGitWorktree | scripts/code_size_compare.py:169-185 | no command for "current"; otherwise one uncaught `git worktree add` of `./temp-<rev>` |
| Measurement.CodeSizeComparison.RemoveWorktree | scripts/code_size_compare.py:301-309 | no command for the live tree; otherwise one uncaught `git worktree remove` |
| Measurement.CodeSizeComparison.HandleCalledProcessError | scripts/code_size_compare.py:360-372 | removes the checkout, then exits -1, or stops with the removal's own error |
| Measurement.CodeSizeComparison.RunCaught | scripts/code_size_compare.py:203-209 | one command inside `try`: its output, or the cleanup |
| Measurement.CodeSizeComparison.TweakConfig | scripts/code_size_compare.py:187-196 | the `set` options and then the `unset` options, one `config.py` call each, stopping at the first failure, which is not caught |
| Measurement.CodeSizeComparison.BuildLibraries | scripts/code_size_compare.py:198-220 | the run of the build with its exact stopping behaviour |
| Measurement.CodeSizeComparison.GenCodeSizeReport | scripts/code_size_compare.py:222-269 | the three `size` calls in order, each caught; once all succeed, the parse of their outputs |
| Measurement.CodeSizeComparison.GetCodeSizeForRev | scripts/code_size_compare.py:311-316 | create, build, measure, remove, each stage running only when the one before completed; the outcome is the measurement unless a stage stopped the script |
| Measurement.CodeSizeComparison.MeasuredSnapshotValid | scripts/code_size_compare.py:263-276 | a successful measurement is the well-formed snapshot of the three reports |
| Measurement.CodeSizeComparison.GetComparisonResults | scripts/code_size_compare.py:352-358 | the old revision is measured completely, its checkout removed included, before the new one starts; the comparison runs only when both succeed, with the rows of the new snapshot against the baseline |
| Measurement.CodeSizeComparison.LiveTreeKeepsWorktrees | scripts/code_size_compare.py:173-175 | measuring "current" adds and removes no worktree, whatever fails |
| Measurement.CodeSizeComparison.CheckoutLifecycle | scripts/code_size_compare.py:311-316 | after measuring a revision in a temporary checkout, the worktrees are as before exactly when the run completed, the checkout could not be created, or a caught failure was cleaned up; otherwise the checkout is left behind |
| Measurement.CodeSizeComparison.CaughtBuildFailureCleansUp | scripts/code_size_compare.py:202-220 | a failed pre-build or make is followed by exactly one removal, and nothing is measured |
| Measurement.CodeSizeComparison.CaughtSizeFailureCleansUp | scripts/code_size_compare.py:227-251 | a failed `size` call is followed by exactly one removal, and nothing is parsed |
| Measurement.CodeSizeComparison.TweakFailureOrphansCheckout | scripts/code_size_compare.py:211-213 | a failed tweak, which only the cross default configuration runs, stops the script with no removal, leaving the checkout behind |
| Measurement.CodeSizeComparison.ParseFailureOrphansCheckout | scripts/code_size_compare.py:254-264 | the parser's IndexError comes after the three `size` calls and stops the script with no removal, leaving the checkout behind |
| Measurement.CodeSizeComparison.SuccessfulRunRestoresWorktrees | scripts/code_size_compare.py:311-316 | a completed measurement in a temporary checkout adds it once and removes it once |
| DependencyRewriter.IsDependsLine | tests/scripts/generate_dependency.py:128 | defining equation of `re.match(DEPEND_REGEX, line.strip())`: the stripped line starts with `depends_on:` |
| DependencyRewriter.Groups | tests/scripts/generate_dependency.py:61-73 | at least one test case |
| DependencyRewriter.SplitTestCase | tests/scripts/generate_dependency.py:61-73 | the test cases of the file, as `Groups` defines them |
| DependencyRewriter.GroupCount | tests/scripts/generate_dependency.py:61-73 | one test case more than there are separator lines |
| DependencyRewriter.GroupsHaveNoBlank | tests/scripts/generate_dependency.py:61-73 | no test case contains a separator line |
| DependencyRewriter.JoinedGroups | tests/scripts/generate_dependency.py:61-73 | every test case followed by a separator is the file plus one separator |
| DependencyRewriter.SplitRejoin | tests/scripts/generate_dependency.py:168-173 | splitting a file and joining its test cases with separators gives back the file |
| DependencyRewriter.RejoinSplit | tests/scripts/generate_dependency.py:168-173 | joining test cases without separator lines and splitting again gives back the same test cases |
| DependencyRewriter.GroupsOfPlain | tests/scripts/generate_dependency.py:61-73 | lines without a separator make one test case |
| DependencyRewriter.GroupsAppendPlain | tests/scripts/generate_dependency.py:61-73 | a separator and then plain lines add one test case |
| DependencyRewriter.RejoinSnoc | tests/scripts/generate_dependency.py:170-173 | joining one more test case adds a separator and its lines |
| DependencyRewriter.FirstNonComment | tests/scripts/generate_dependency.py:120-124 | the lines before the result are comments, and the line at it, if any, is not |
| DependencyRewriter.PrefixedContainsAll | tests/scripts/generate_dependency.py:130-134 | every dependency occurs in the text the loop accumulates |
| DependencyRewriter.GenTestData.constructor | tests/scripts/generate_dependency.py:90-98 | `snippets` starts as `file_content_pool` mapped to the script's name; the directories are the given ones, else those found on disk |
| DependencyRewriter.GenTestData.Rewritten | tests/scripts/generate_dependency.py:116-141 | defining equation of `__append_dep`: unchanged unless targeted; IndexError when the case ends at its description; else the `depends_on:` line extended, or a new one inserted with the displaced line moved to the end; `AppendDep` and the lemmas below state its properties |
| DependencyRewriter.GenTestData.MissingDeps | tests/scripts/generate_dependency.py:130-134 | nothing when some dependency already occurs in the line, else `":" + d` for each dependency in order |
| DependencyRewriter.GenTestData.AppendDep | tests/scripts/generate_dependency.py:116-141 | the rewrite of one test case as `Rewritten` specifies it |
| DependencyRewriter.GenTestData.CommentOnlyUnchanged | tests/scripts/generate_dependency.py:118-124 | an empty or all-comment test case is returned unchanged |
| DependencyRewriter.GenTestData.UnmatchedUnchanged | tests/scripts/generate_dependency.py:126-127 | when neither the description nor the last line matches, the test case is unchanged |
| DependencyRewriter.GenTestData.RewriteFailsExactly | tests/scripts/generate_dependency.py:126-128 | the rewrite raises IndexError exactly when a matched case ends at its description |
| DependencyRewriter.GenTestData.ExtendsExistingDepends | tests/scripts/generate_dependency.py:128-136 | only the `depends_on:` line changes: with a dependency already in it, it just loses its surrounding "\n"s and gets one back; otherwise it is followed by `":" + d` for each dependency, so then every dependency occurs in it |
| DependencyRewriter.GenTestData.InsertsDependsLine | tests/scripts/generate_dependency.py:137-140 | without a `depends_on:` line the case grows by one: the lines up to the description stay, the new `depends_on:<deps joined by ':'>` line follows, later lines keep their places, the line after the description moves to the end, and no line is lost |
| DependencyRewriter.GenTestData.TwoLineCaseGetsDependsBetween | tests/scripts/generate_dependency.py:137-140 | a description and a function line get the new `depends_on:` line between them |
| DependencyRewriter.GenTestData.RewriteGroups | tests/scripts/generate_dependency.py:170-171 | defining equation: the test cases rewritten in order, the first failure ending the run; `RewriteGroupsFailsExactly` states when it fails and what it returns |
| DependencyRewriter.GenTestData.RewriteFile | tests/scripts/generate_dependency.py:168-173 | defining equation: the rewritten test cases each followed by a separator, without the last separator; `FileWithoutTargetUnchanged` and `FileFailsExactly` state its properties |
| DependencyRewriter.GenTestData.RewriteGroupsStep | tests/scripts/generate_dependency.py:170-171 | one loop step of `__parse_file` extends the rewritten prefix and its joined form |
| DependencyRewriter.GenTestData.RewriteGroupsStopsAt | tests/scripts/generate_dependency.py:170-171 | a failing test case makes the whole file fail |
| DependencyRewriter.GenTestData.RewriteGroupsPrefixFailure | tests/scripts/generate_dependency.py:170-171 | a failure among the first test cases is a failure of the file |
| DependencyRewriter.GenTestData.RewriteGroupsFailsExactly | tests/scripts/generate_dependency.py:170-171 | the file fails exactly when one of its test cases does; otherwise every case is rewritten, in order |
| DependencyRewriter.GenTestData.FileWithoutTargetUnchanged | tests/scripts/generate_dependency.py:163-173 | a file in which no test case matches is stored exactly as it was read |
| DependencyRewriter.GenTestData.FileFailsExactly | tests/scripts/generate_dependency.py:163-173 | the file fails exactly when a matched test case ends at its description |
| DependencyRewriter.GenTestData.ParseFile | tests/scripts/generate_dependency.py:163-173 | without a name nothing happens; otherwise the rewritten file is stored under its name, or nothing is stored when a test case raises |

## Left out

- **External programs.** git, `config.py`, `make` and `size` run only as steps whose success and output the environment chooses. Their effects on files are not modelled.
- **`validate_revision`** and `build_tree.check_repo_path` are left out. Both run external checks before measuring.
- **File and console output.** The CSV files of `_gen_code_size_csv` and `compare_code_size`, the `res_file` writes, every `print`, and `__write_file` are not modelled. The comparison rows are the values that would be written.
- **Process setup and exit codes.** `os.makedirs`, `os.path.abspath`, `os.environ` and the result and CSV directories are left out. `sys.exit(-1)` is the value `Exit(-1)`; the process-level status 255 it becomes is not modelled.
- **Command-line handling.** The `main` functions, `argparse`, `ExampleAction` and `PrintHelper` are left out. The choices ALLOWED_ARCH and ALLOWED_CONFIG are the datatypes `Arch` and `Config`.
- **Float formatting.** The `{:.2%}` formatting of the ratio is left out; the ratio is kept as an exact rational.
- **`bytes.decode()`.** The `size` output is taken as text.
- PyText.ParseInt: reads ASCII digits only. Python's `int()` also accepts the other Unicode decimal digits (`int('\u0663')` is 3), and CPython 3.11 and later refuse numerals of more than 4300 digits; neither is modelled. `size -t` prints its totals in ASCII decimal, well under that limit.
- **Recorded sizes.** The accumulation into the `old_sizes` and `new_sizes` fields is left out. Each measurement is returned as a value, and the comparison uses the baseline those fields would hold, including when both revisions are the same.
- **frozenset order.** Python's iteration order over the two frozensets is hash-dependent. It is a constructor parameter constrained to enumerate each set once.
- **The three `size` try-blocks** are modelled as one loop over the three commands, in the same order.
- **The regular expressions.** The engine is not modelled: `locate` is an abstract predicate and `DEPEND_REGEX` is a prefix test.
- **`__remove_dep`** is not modelled: it is a TODO and is never called.
- **Directory walking.** `walk_all`, `__gene_dep`, `__walk_test_suite` and `collect_test_directories` walk the file system. The directories found on disk are a constructor parameter, and the lines of a file are an argument of `ParseFile`.
- **Aliasing in `__append_dep`.** The in-place update of the list is modelled as a returned value. That the caller's list in `splitted_test` is modified too is not modelled; nothing reads it afterwards.
- **IndexError in `__append_dep`.** A matched test case that ends at its description raises IndexError, which nothing catches. The model returns `Failure(IndexError)` rather than requiring the line to exist.
- `library/aes_alt.c` is not part of this model: it is a stub that returns an error without using its arguments.
