/** One run of the tool, start to finish, without its input and output: the
    command-line arguments, the `CARGO` variable, the lines the runner printed
    when asked for its test listing, and the tests the user chose are
    parameters; the result is the command line handed to the shell, or the
    validator's message when the choice is empty (the prompt then asks
    again instead of returning). */
module Pipeline {
  import opened Wrappers
  import opened Text
  import opened Arguments
  import opened TestFilter
  import opened Selection
  import opened Command

  function PlanRun(argv: seq<string>, cargoEnv: Option<string>, listing: seq<string>, answer: seq<string>)
    : (r: Result<string, string>)
    ensures r.Failure? <==> |answer| == 0
    ensures r.Failure? ==> r.error == EmptySelectionMessage
    ensures r.Success? ==> EndsWith(r.value, SkipFlags(Excluded(FilterTestOptions(listing), answer)) + " --exact")
  {
    var inv := Preprocess(argv);
    var split := SplitAtSeparator(inv.args);
    var options := FilterTestOptions(listing);
    match ValidateSelection(answer)
    case Invalid(message) => Failure(message)
    case Valid =>
      var cargo := CargoBin(cargoEnv);
      Success(FinalCommand(cargo, split.first, split.second, Excluded(options, answer), inv.watch))
  }

  /** Every element of either side of the split is one of the arguments. */
  lemma SplitPartsAreArguments(args: seq<string>)
    requires AllWords(args)
    ensures AllWords(SplitAtSeparator(args).first) && AllWords(SplitAtSeparator(args).second)
  {
  }

  /** What the shell hands the runner for a non-empty choice, when every
      argument and every test name is one blank-free word: the runner binary
      (preceded by `<cargo> watch --` in watch mode), `test`, the runner flags
      before the first `--`, `--`, the flags after it, `--skip <name>` for
      each listed test that was not chosen, in listing order, and `--exact`. */
  lemma PlanRunWords(argv: seq<string>, cargoEnv: Option<string>, listing: seq<string>, answer: seq<string>)
    requires |answer| > 0
    requires AllWords(argv) && AllWords(FilterTestOptions(listing))
    ensures PlanRun(argv, cargoEnv, listing, answer).Success?
    ensures
      var inv := Preprocess(argv);
      var split := SplitAtSeparator(inv.args);
      var cargo := CargoBin(cargoEnv);
      Words(PlanRun(argv, cargoEnv, listing, answer).value)
        == (if inv.watch then Words(cargo) + ["watch", "--"] else [])
          + RunnerWords(cargo, split.first, split.second, Excluded(FilterTestOptions(listing), answer))
  {
    var inv := Preprocess(argv);
    var split := SplitAtSeparator(inv.args);
    var cargo := CargoBin(cargoEnv);
    var options := FilterTestOptions(listing);
    var excluded := Excluded(options, answer);
    assert PlanRun(argv, cargoEnv, listing, answer)
      == Success(FinalCommand(cargo, split.first, split.second, excluded, inv.watch));
    assert AllWords(inv.args) by {
      forall i | 0 <= i < |inv.args| ensures IsWord(inv.args[i]) {
        assert inv.args[i] == argv[|argv| - |inv.args| + i];
      }
    }
    assert AllWords(excluded) by {
      forall i | 0 <= i < |excluded| ensures IsWord(excluded[i]) {
        assert excluded[i] in options;
      }
    }
    SplitPartsAreArguments(inv.args);
    FinalCommandWords(cargo, split.first, split.second, excluded, inv.watch);
  }

  /** For a non-empty choice among the listed tests, a listed test is
      skipped by the final command exactly when it was not chosen, and at
      least one listed test is not skipped. */
  lemma PlanSkipsUnchosen(listing: seq<string>, answer: seq<string>, name: string)
    requires |answer| > 0
    requires forall a :: a in answer ==> a in FilterTestOptions(listing)
    requires name in FilterTestOptions(listing)
    ensures name in Excluded(FilterTestOptions(listing), answer) <==> name !in answer
    ensures |Excluded(FilterTestOptions(listing), answer)| < |FilterTestOptions(listing)|
  {
    var options := FilterTestOptions(listing);
    assert answer[0] in answer;
    var j :| 0 <= j < |options| && options[j] == answer[0];
    ChosenTestRuns(options, answer);
  }
}
