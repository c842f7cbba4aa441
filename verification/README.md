# cargo-qtest selection pipeline, in Dafny

`cargo qtest` lists a crate's unit tests, lets the user tick the ones to run
in a terminal prompt, and re-runs `cargo test` on just those. `cargo test`
cannot be given several tests to run, only several to skip. So the tool skips
every listed test the user did not choose and adds `--exact`.

This project models the pure part of that pipeline in `src/main.rs`. It
proves what each step promises.

- `wrappers.dfy`: `Option` (for the `CARGO` variable) and `Result`.
- `sequences.dfy`: `IndexOf` (first position, as `Iterator::position`
  finds it) and `IsSubsequence`.
- `text.dfy`: prefix and suffix tests, and `SpacePrefixed`, the fold that
  writes each argument with a leading space. It also holds `Words`, the
  blank splitting a POSIX shell applies to an unquoted line, with its
  algebra (`WordsAppend`) and the round trip `Words(SpacePrefixed(xs)) == xs`.
- `test_filter.dfy`: the filter over the runner's `--list --format terse`
  output. The pattern `: test$` anchors at the end of the text, so a line
  is kept exactly when it ends with `": test"`, and only that one trailing
  marker is removed.
- `arguments.dfy`: argument pre-processing and the split at the first `--`.
  Pre-processing drops one `+toolchain`, then one argument ending in
  `qtest`, then one `--watch`, which turns on watch mode. The `Invocation`
  datatype also records the toolchain and subcommand that were dropped, so
  that an exact round trip (`Unparse`) can be stated. The program itself
  throws them away.
- `selection.dfy`: the prompt's validator (an empty choice is refused) and
  the complement `final_items`. This is every listed test not in the answer,
  in listing order, duplicates kept.
- `command.dfy`: `cargo_bin`, with the environment lookup as a parameter.
  Also the command-string builder and watch-mode wrapping.
- `pipeline.dfy`: one whole run, from its inputs to the shell command line.

The command text is built as `<cargo> test <fold(first)> -- <fold(second)>`.
Each folded argument brings its own leading space, so the text has a double
space after `test` (`cargo test  --lib -- ...`). The shell ignores it.
Because the line goes to `sh -c` unquoted, its meaning is its `Words`. The
main lemmas prove that the words are the runner binary, `test`, the runner
flags, `--`, the test-binary flags, `--skip <name>` for each unchosen test,
and `--exact`. In watch mode, `<cargo> watch --` comes first. This holds
whenever every argument and test name is one blank-free word. An argument
with a blank in it, such as `--features "a b"`, reaches the runner as
several words. So does a listed name with a blank: the runner lists a doc
test as `src/lib.rs - f (line 3): test`. `SkipFlagsSplitsBlankName` shows
that `--skip` then covers only the name's first word. Whatever the flags and
names, the text-level contracts of `TestCommand`, `FinalCommand` and
`PlanRun` state that the command ends with ` --skip <name>` for each
excluded test, in order, followed by ` --exact`.

## Model

| member | source | states |
|---|---|---|
| Command.CargoBin | src/main.rs:22-24 | the runner binary is the `CARGO` value when that variable is set and `cargo` when it is not |
| TestFilter.StripMarker | src/main.rs:68-69 | the kept name followed by `": test"` is the original line: everything before the marker is kept verbatim and the name is 6 characters shorter |
| TestFilter.FilterTestOptions | src/main.rs:62-75 | every kept name, with the marker appended, is a line of the listing; every line ending in the marker contributes its stripped name; there are never more names than lines |
| TestFilter.FilterMembership | src/main.rs:63-73 | a name is in the output if and only if the name followed by `": test"` is a line, so `"x: "`, `"x test"` and `"x:test"` contribute nothing |
| TestFilter.FilterKeepsOrder | src/main.rs:65-74 | the lines behind the kept names form a subsequence of the listing: filtering only deletes lines and never reorders them |
| TestFilter.FilterAppend | src/main.rs:65-74 | filtering a concatenation of listings is the concatenation of the filtered parts, so each line is judged alone and order is kept |
| TestFilter.FilterMarkRoundTrip | src/main.rs:63-73 | filtering the lines `name: test` printed for a list of names gives back that list, in order and with repetitions |
| TestFilter.StripsOneMarker | src/main.rs:63-69 | only the final marker is removed: `"a: test: test"` yields `"a: test"` |
| TestFilter.FilterExample | src/main.rs:273-298 | the listing of the repository's filter test yields exactly `apple_function`, `apple_function2` and their two `module_t::demo_module::` counterparts |
| Arguments.Preprocess | src/main.rs:161-184 | at most three leading arguments are dropped; what remains is a suffix of the arguments; watch mode is on exactly when the last dropped argument is `--watch`; the dropped parts followed by the rest rebuild the arguments; each step that dropped nothing had no argument of its shape in front of it |
| Arguments.PreprocessUnparse | src/main.rs:163-184 | round trip the other way: pre-processing the arguments of any invocation pre-processing could produce recovers that invocation |
| Arguments.PreprocessExample | src/main.rs:163-184 | `+nightly qtest --watch --lib -- foo` drops all three and keeps `--lib -- foo` with watch on |
| Arguments.PreprocessOrderExample | src/main.rs:170-184 | the checks run in fixed order, once each: in `--watch qtest` only `--watch` is dropped |
| Sequences.IndexOf | src/main.rs:186 | the position found holds the element and no earlier position does; no position is found exactly when the element is absent |
| Arguments.SplitAtSeparator | src/main.rs:186-191 | with a `--` present, the first part (which holds no `--`), `--` and the second part rebuild the arguments; without one, the first part is all arguments and the second is empty |
| Arguments.SplitJoinRoundTrip | src/main.rs:186-191 | joining any runner flags without `--` to any test-binary flags with `--` and splitting again recovers both parts |
| Arguments.TrailingSeparatorIsInvisible | src/main.rs:186-191 | a final `--` with nothing after it splits exactly like no `--` at all |
| Selection.ValidateSelection | src/main.rs:79-87 | the choice is refused, with the message "You must select at least one test.", if and only if it is empty |
| Selection.Excluded | src/main.rs:205-209 | a test is excluded if and only if it is listed and not chosen; the exclusions are a subsequence of the listing, so listing order is kept |
| Selection.ExcludedAppend | src/main.rs:205-209 | excluding from a concatenated listing excludes from each part, keeping every unchosen duplicate in place |
| Selection.ExcludedNothingChosen | src/main.rs:205-209 | with nothing chosen, the whole listing would be excluded |
| Selection.ExcludedEverythingChosen | src/main.rs:205-209 | with every listed test chosen, nothing is excluded |
| Selection.ChosenTestRuns | src/main.rs:205-209 | if any listed test is chosen, fewer tests are excluded than listed, so at least one listed test is not skipped |
| Selection.ExcludedExample | src/main.rs:205-209 | listing A, B, C with A chosen excludes exactly B, C |
| Text.WordsOfSpacePrefixed | src/main.rs:215-230 | the shell splits the folded argument text back into the original arguments when each is one blank-free word |
| Command.SkipFlags | src/main.rs:235-238 | the appended skip text is the folded form of the word list `--skip`, name, `--skip`, name, ... for the excluded tests in order |
| Command.SkipFlagsWords | src/main.rs:235-238 | the shell reads the skip text as `--skip` before each excluded name, in order |
| Command.TestCommand | src/main.rs:212-240 | for any flags and names, the test command starts with `<cargo> test ` and ends with ` --skip <name>` for each excluded test, in order, followed by ` --exact` |
| Command.SkipFlagsSplitsBlankName | src/main.rs:235-238 | the names are written unquoted, so a name holding a blank reaches the shell as several words, and `--skip` covers only its first word |
| Command.TestCommandWords | src/main.rs:212-240 | the shell splits the test command into the runner binary's words, `test`, the runner flags, `--`, the test-binary flags, a `--skip <name>` pair per excluded test, and `--exact` |
| Command.FinalCommand | src/main.rs:242-244 | without watch the command is the test command; with watch it starts with `<cargo> watch -- ` and the rest is the test command; either way it ends with the skip text for the excluded tests followed by ` --exact` |
| Command.FinalCommandWords | src/main.rs:212-244 | in watch mode the shell's words are `<cargo> watch --` followed by the test command's words; otherwise they are just the test command's words |
| Pipeline.PlanRun | src/main.rs:201-244 | a run fails with the validator's message if and only if the choice is empty; otherwise, for any arguments and names, the command ends with ` --skip <name>` for each listed test not chosen, in listing order, followed by ` --exact` |
| Pipeline.PlanRunWords | src/main.rs:161-244 | end to end, for a non-empty choice and blank-free words: the shell hands the runner the flags before the first `--` of the pre-processed arguments, `--`, the flags after it, and `--skip <name>` for exactly the unchosen listed tests in listing order, then `--exact`, all behind `<cargo> watch --` in watch mode |
| Pipeline.PlanSkipsUnchosen | src/main.rs:201-209 | when a non-empty choice is drawn from the listed tests, a listed test is skipped if and only if it was not chosen, and at least one listed test is not skipped |

## Left out

- `get_cargo_test_output` (src/main.rs:27-59): spawning the runner, piping its output, waiting for it and exiting on failure are process I/O. The model takes the listing's lines as a parameter. It does not model the runner's arguments, or the way `BufReader::lines` splits output and strips line ends.
- The `MultiSelect` prompt (src/main.rs:89-154): rendering, colours, key bindings and the formatter belong to the prompt library. The answer is a parameter. When a lemma needs it to, it is required to be drawn from the listed tests. The prompt's refusal of an empty listing lives inside that library and is not modelled.
- Exiting on a prompt error or user interrupt (src/main.rs:150-153) is process control.
- Running the final command through `sh -c` or `cmd /c` (src/main.rs:246-265) is process I/O. `Words` models only the shell's splitting on spaces, tabs and newlines. It does not model quoting, expansion or other metacharacters. It also treats a newline as a separator, whereas in `sh -c` text a newline ends the command; only a runner path containing a newline would tell the two apart.
- PlanRunWords: requires every argument and listed name to be one blank-free word, for the reason given in the next line.
- TestCommandWords, FinalCommandWords: the shell-level reading is proved only when every flag and listed name is one blank-free word. A name with blanks, such as a doc test's `src/lib.rs - f (line 3)`, or an argument with blanks is written into the command unquoted. The shell then splits it, or fails at characters such as `(`. `SkipFlagsSplitsBlankName` shows the split. The text-level contracts of `TestCommand` and `PlanRun` still hold for such input.
- PlanRun: an empty choice gives `Failure` with the validator's message. In the program the prompt asks again and never continues with an empty choice (src/main.rs:79-87, 143). Repeated prompting is interactive I/O.
- What the runner does with the words it receives is not modelled. That includes how libtest treats the test-binary flags as name filters. The same flags restrict the listing as substring filters (src/main.rs:36-38), and the final command repeats them before `--exact` (src/main.rs:223-240), where they must match whole names. So `cargo qtest -- foo` with `tests::foo_a` chosen would run no test. `ChosenTestRuns` and `PlanSkipsUnchosen` say only that some listed test is not skipped, not that it runs.
- `OsString` and `to_string_lossy`: arguments are plain strings, so replacing invalid UTF-8 is not modelled.
- Reading and setting environment variables: `CARGO` is an `Option` parameter. An unset variable and a value that is not valid Unicode both become `None`, as `env::var` treats both as errors.
