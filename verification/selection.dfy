/** The user's choice among the listed tests: the prompt refuses an empty
    choice, and the tests to exclude are the listed ones that were not
    chosen, because the runner can only skip tests by name. */
module Selection {
  import opened Sequences

  datatype Validation = Valid | Invalid(message: string)

  const EmptySelectionMessage: string := "You must select at least one test."

  /** The prompt's validator: a choice is acceptable exactly when it is not
      empty. */
  function ValidateSelection<T>(answer: seq<T>): (v: Validation)
    ensures v.Invalid? <==> |answer| == 0
    ensures v.Invalid? ==> v.message == EmptySelectionMessage
  {
    if |answer| == 0 then Invalid(EmptySelectionMessage) else Valid
  }

  /** The listed tests that were not chosen, in listing order. */
  function Excluded(options: seq<string>, answer: seq<string>): (excluded: seq<string>)
    ensures |excluded| <= |options|
    ensures forall o :: o in excluded <==> o in options && o !in answer
    ensures IsSubsequence(excluded, options)
  {
    if options == [] then []
    else
      var rest := Excluded(options[1..], answer);
      if options[0] !in answer then [options[0]] + rest else rest
  }

  /** Excluding from a concatenation excludes from each part, so each listed
      test is judged on its own and the listing order is kept. */
  lemma {:induction false} ExcludedAppend(a: seq<string>, b: seq<string>, answer: seq<string>)
    ensures Excluded(a + b, answer) == Excluded(a, answer) + Excluded(b, answer)
  {
    if a == [] {
      assert a + b == b;
    } else {
      assert (a + b)[0] == a[0];
      assert (a + b)[1..] == a[1..] + b;
      ExcludedAppend(a[1..], b, answer);
    }
  }

  /** Choosing nothing would exclude every listed test. */
  lemma {:induction false} ExcludedNothingChosen(options: seq<string>)
    ensures Excluded(options, []) == options
  {
    if options != [] {
      ExcludedNothingChosen(options[1..]);
    }
  }

  /** Choosing every listed test excludes none. */
  lemma ExcludedEverythingChosen(options: seq<string>, answer: seq<string>)
    requires forall i :: 0 <= i < |options| ==> options[i] in answer
    ensures Excluded(options, answer) == []
  {
  }

  /** A choice that names at least one listed test leaves that test out of the
      exclusions, so at least one listed test is not skipped. */
  lemma {:induction false} ChosenTestRuns(options: seq<string>, answer: seq<string>)
    requires exists i :: 0 <= i < |options| && options[i] in answer
    ensures |Excluded(options, answer)| < |options|
  {
    var i :| 0 <= i < |options| && options[i] in answer;
    if options[0] in answer {
      assert Excluded(options, answer) == Excluded(options[1..], answer);
    } else {
      assert options[1..][i - 1] == options[i];
      ChosenTestRuns(options[1..], answer);
    }
  }

  /** Three listed tests, one chosen: the other two are excluded. */
  lemma ExcludedExample()
    ensures Excluded(["A", "B", "C"], ["A"]) == ["B", "C"]
  {
  }
}
