/** The command line that re-runs the test runner on the chosen tests. The
    runner has no way to name several tests to run, only several to skip, so
    the line lists every excluded test after `--skip` and asks for exact name
    matching. The line is handed to a shell unquoted, so `Words` (the shell's
    blank splitting) is what gives it meaning. */
module Command {
  import opened Wrappers
  import opened Text

  const DefaultCargo: string := "cargo"
  const SkipFlag: string := "--skip"
  const ExactFlag: string := "--exact"

  /** The runner binary: the `CARGO` environment variable when it is set
      (which selects the toolchain the user invoked), `cargo` otherwise. */
  function CargoBin(cargoEnv: Option<string>): (bin: string)
    ensures cargoEnv.Some? ==> bin == cargoEnv.value
    ensures cargoEnv.None? ==> bin == DefaultCargo
  {
    cargoEnv.GetOr(DefaultCargo)
  }

  /** The words the runner receives for the excluded tests: `--skip` and the
      test's name, for each test in order. */
  function SkipWords(items: seq<string>): (ws: seq<string>)
    ensures |ws| == 2 * |items|
    ensures forall i :: 0 <= i < |items| ==> ws[2 * i] == SkipFlag && ws[2 * i + 1] == items[i]
  {
    if items == [] then []
    else
      var rest := SkipWords(items[1..]);
      var ws := [SkipFlag, items[0]] + rest;
      forall i | 1 <= i < |items|
        ensures ws[2 * i] == SkipFlag && ws[2 * i + 1] == items[i]
      {
        var j := i - 1;
        assert 2 * i == 2 * j + 2;
        assert rest[2 * j] == SkipFlag && rest[2 * j + 1] == items[1..][j];
      }
      ws
  }

  /** The text appended for the excluded tests, one ` --skip <name>` each. */
  function SkipFlags(items: seq<string>): (s: string)
    ensures s == SpacePrefixed(SkipWords(items))
  {
    if items == [] then []
    else
      var rest := SkipFlags(items[1..]);
      assert SkipWords(items) == [SkipFlag, items[0]] + SkipWords(items[1..]);
      assert SpacePrefixed(SkipWords(items)) == " " + SkipFlag + (" " + items[0] + rest) by {
        var ws := SkipWords(items);
        assert ws[1..][1..] == SkipWords(items[1..]);
        assert SpacePrefixed(ws[1..]) == " " + items[0] + rest;
      }
      " --skip " + items[0] + rest
  }

  /** `<cargo> test <runner flags> -- <test-binary flags>`, every flag with
      its own leading space, then the skips and `--exact`. */
  function TestCommand(cargo: string, first: seq<string>, second: seq<string>, excluded: seq<string>): (cmd: string)
    ensures StartsWith(cmd, cargo + " test ")
    ensures EndsWith(cmd, SkipFlags(excluded) + " --exact")
  {
    var head := cargo + " test " + SpacePrefixed(first) + " -- " + SpacePrefixed(second);
    var tail := SkipFlags(excluded) + " --exact";
    var cmd := head + SkipFlags(excluded) + " --exact";
    assert cmd == head + tail;
    assert cmd[..|cargo + " test "|] == cargo + " test ";
    assert cmd[|cmd| - |tail|..] == tail;
    cmd
  }

  /** The command the shell runs: the test command itself, or, in watch
      mode, the test command handed to `<cargo> watch --`. */
  function FinalCommand(cargo: string, first: seq<string>, second: seq<string>, excluded: seq<string>, watch: bool): (cmd: string)
    ensures !watch ==> cmd == TestCommand(cargo, first, second, excluded)
    ensures watch ==> StartsWith(cmd, cargo + " watch -- ")
    ensures watch ==> cmd[|cargo| + 10..] == TestCommand(cargo, first, second, excluded)
    ensures EndsWith(cmd, SkipFlags(excluded) + " --exact")
  {
    var inner := TestCommand(cargo, first, second, excluded);
    if watch then
      var cmd := cargo + " watch -- " + inner;
      EndsWithAppend(cargo + " watch -- ", inner, SkipFlags(excluded) + " --exact");
      assert cmd[..|cargo| + 10] == cargo + " watch -- ";
      assert cmd[|cargo| + 10..] == inner;
      cmd
    else inner
  }

  /* The fixed pieces of the command line and the words they split into. */

  lemma TestTextWords()
    ensures Words(" test ") == ["test"]
  {
    assert IsWord("test");
    WordsOfPaddedWord("test");
    assert " test " == " " + "test" + " ";
  }

  lemma SeparatorTextWords()
    ensures Words(" -- ") == ["--"]
  {
    assert IsWord("--");
    WordsOfPaddedWord("--");
    assert " -- " == " " + "--" + " ";
  }

  lemma ExactTextWords()
    ensures Words(" --exact") == [ExactFlag]
  {
    assert IsWord(ExactFlag);
    WordsOfPaddedWord(ExactFlag);
  }

  lemma WatchTextWords()
    ensures Words(" watch -- ") == ["watch", "--"]
  {
    assert IsWord("watch");
    WordsOfPaddedWord("watch");
    SeparatorTextWords();
    assert " watch -- " == " watch" + " -- ";
    WordsAppend(" watch", " -- ");
  }

  /** The shell reads the skip text as `--skip` followed by each name. */
  lemma SkipFlagsWords(items: seq<string>)
    requires AllWords(items)
    ensures Words(SkipFlags(items)) == SkipWords(items)
  {
    var ws := SkipWords(items);
    assert IsWord(SkipFlag);
    assert AllWords(ws) by {
      forall k | 0 <= k < |ws| ensures IsWord(ws[k]) {
        if k % 2 == 0 {
          assert ws[2 * (k / 2)] == SkipFlag;
        } else {
          assert ws[2 * (k / 2) + 1] == items[k / 2];
        }
      }
    }
    WordsOfSpacePrefixed(ws);
  }

  /** The names are written unquoted, so a test name holding a blank (a
      doc test is listed as `src/lib.rs - f (line 3)`) reaches the runner as
      several words: `--skip` applies to its first word only and the rest
      become test-name filters. */
  lemma SkipFlagsSplitsBlankName(a: string, b: string)
    requires IsWord(a) && IsWord(b)
    ensures Words(SkipFlags([a + " " + b])) == [SkipFlag, a, b]
    ensures Words(SkipFlags([a + " " + b])) != SkipWords([a + " " + b])
  {
    var n := a + " " + b;
    assert SkipWords([n]) == [SkipFlag, n];
    assert SpacePrefixed([SkipFlag, n]) == " " + SkipFlag + SpacePrefixed([n]);
    assert SpacePrefixed([n]) == " " + n + SpacePrefixed([]);
    assert [SkipFlag, a, b][1..] == [a, b] && [a, b][1..] == [b];
    assert SpacePrefixed([b]) == " " + b;
    assert SpacePrefixed([a, b]) == " " + a + SpacePrefixed([b]);
    assert SpacePrefixed([SkipFlag, a, b]) == " " + SkipFlag + SpacePrefixed([a, b]);
    assert SkipFlags([n]) == SpacePrefixed([SkipFlag, a, b]);
    assert IsWord(SkipFlag);
    WordsOfSpacePrefixed([SkipFlag, a, b]);
  }

  /** The words the runner should receive: the runner binary, `test`, the
      runner flags, `--`, the test-binary flags, one `--skip <name>` pair per
      excluded test in order, and `--exact`. */
  function RunnerWords(cargo: string, first: seq<string>, second: seq<string>, excluded: seq<string>): seq<string> {
    Words(cargo) + ["test"] + first + ["--"] + second + SkipWords(excluded) + [ExactFlag]
  }

  /** The shell splits the test command into exactly the intended words,
      provided every flag and test name is one blank-free word. */
  lemma TestCommandWords(cargo: string, first: seq<string>, second: seq<string>, excluded: seq<string>)
    requires AllWords(first) && AllWords(second) && AllWords(excluded)
    ensures Words(TestCommand(cargo, first, second, excluded)) == RunnerWords(cargo, first, second, excluded)
  {
    var p1, p2, p3, p4, p5, p6 := " test ", SpacePrefixed(first), " -- ", SpacePrefixed(second),
      SkipFlags(excluded), " --exact";
    var a1 := cargo + p1;
    assert Words(a1) == Words(cargo) + ["test"] by {
      TestTextWords();
      WordsAppend(cargo, p1);
    }
    var a2 := a1 + p2;
    assert Words(a2) == Words(a1) + first by {
      WordsOfSpacePrefixed(first);
      WordsAppend(a1, p2);
    }
    var a3 := a2 + p3;
    assert Words(a3) == Words(a2) + ["--"] by {
      SeparatorTextWords();
      WordsAppend(a2, p3);
    }
    var a4 := a3 + p4;
    assert Words(a4) == Words(a3) + second by {
      WordsOfSpacePrefixed(second);
      WordsAppend(a3, p4);
    }
    var a5 := a4 + p5;
    assert Words(a5) == Words(a4) + SkipWords(excluded) by {
      SkipFlagsWords(excluded);
      WordsAppend(a4, p5);
    }
    var a6 := a5 + p6;
    assert Words(a6) == Words(a5) + [ExactFlag] by {
      ExactTextWords();
      WordsAppend(a5, p6);
    }
    assert TestCommand(cargo, first, second, excluded) == a6;
  }

  /** The words of the whole command line: in watch mode `<cargo> watch --`
      comes first, then the words of the test command. */
  lemma FinalCommandWords(cargo: string, first: seq<string>, second: seq<string>, excluded: seq<string>, watch: bool)
    requires AllWords(first) && AllWords(second) && AllWords(excluded)
    ensures Words(FinalCommand(cargo, first, second, excluded, watch))
      == (if watch then Words(cargo) + ["watch", "--"] else []) + RunnerWords(cargo, first, second, excluded)
  {
    var inner := TestCommand(cargo, first, second, excluded);
    TestCommandWords(cargo, first, second, excluded);
    if watch {
      var pad := " watch -- ";
      assert Words(cargo + pad) == Words(cargo) + ["watch", "--"] by {
        WatchTextWords();
        WordsAppend(cargo, pad);
      }
      WordsAppend(cargo + pad, inner);
    } else {
      assert FinalCommand(cargo, first, second, excluded, watch) == inner;
    }
  }
}
