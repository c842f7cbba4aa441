/** The filter over the runner's terse test listing: a line names a test
    exactly when it ends with the marker ": test" (the pattern `: test$`,
    whose `$` anchors at the end of the text), and the test's name is the
    line with that one trailing marker removed. */
module TestFilter {
  import opened Text
  import opened Sequences

  const TestMarker: string := ": test"

  predicate IsTestLine(line: string) {
    EndsWith(line, TestMarker)
  }

  /** Removes the one trailing marker; everything before it is kept verbatim. */
  function StripMarker(line: string): (name: string)
    requires IsTestLine(line)
    ensures name + TestMarker == line
    ensures |name| == |line| - 6
  {
    line[..|line| - |TestMarker|]
  }

  /** The listing line the runner prints for each named test. */
  function Mark(names: seq<string>): (lines: seq<string>)
    ensures |lines| == |names|
    ensures forall i :: 0 <= i < |names| ==> lines[i] == names[i] + TestMarker
  {
    seq(|names|, i requires 0 <= i < |names| => names[i] + TestMarker)
  }

  /** Keeps the test lines, in order, each stripped of its marker. */
  function FilterTestOptions(lines: seq<string>): (names: seq<string>)
    ensures |names| <= |lines|
    ensures forall i :: 0 <= i < |names| ==> names[i] + TestMarker in lines
    ensures forall j :: 0 <= j < |lines| && IsTestLine(lines[j]) ==> StripMarker(lines[j]) in names
  {
    if lines == [] then []
    else
      var rest := FilterTestOptions(lines[1..]);
      if IsTestLine(lines[0]) then [StripMarker(lines[0])] + rest else rest
  }

  /** Appending the marker is injective: a marked line has one name. */
  lemma MarkInjective(a: string, b: string)
    requires a + TestMarker == b + TestMarker
    ensures a == b
  {
    assert a == (a + TestMarker)[..|a|];
    assert b == (b + TestMarker)[..|b|];
  }

  /** A name is kept exactly when the listing holds the name followed by the
      marker; lines such as "x: ", "x test" or "x:test" contribute nothing. */
  lemma FilterMembership(lines: seq<string>, name: string)
    ensures name in FilterTestOptions(lines) <==> name + TestMarker in lines
  {
  }

  /** The kept lines appear in the listing in the order of their names:
      filtering only deletes lines and never reorders them. */
  lemma {:induction false} FilterKeepsOrder(lines: seq<string>)
    ensures IsSubsequence(Mark(FilterTestOptions(lines)), lines)
  {
    if lines != [] {
      var rest := FilterTestOptions(lines[1..]);
      FilterKeepsOrder(lines[1..]);
      if IsTestLine(lines[0]) {
        assert Mark(FilterTestOptions(lines)) == [lines[0]] + Mark(rest);
      }
    }
  }

  /** Filtering a concatenation filters each part. */
  lemma {:induction false} FilterAppend(a: seq<string>, b: seq<string>)
    ensures FilterTestOptions(a + b) == FilterTestOptions(a) + FilterTestOptions(b)
  {
    if a == [] {
      assert a + b == b;
    } else {
      assert (a + b)[0] == a[0];
      assert (a + b)[1..] == a[1..] + b;
      FilterAppend(a[1..], b);
    }
  }

  /** Round trip: the names recovered from the lines printed for `names` are
      `names`, in order and with their multiplicity. */
  lemma {:induction false} FilterMarkRoundTrip(names: seq<string>)
    ensures FilterTestOptions(Mark(names)) == names
  {
    if names != [] {
      var line := names[0] + TestMarker;
      assert line[|names[0]|..] == TestMarker;
      assert IsTestLine(line);
      assert StripMarker(line) == names[0] by {
        assert line[..|names[0]|] == names[0];
      }
      assert Mark(names)[1..] == Mark(names[1..]);
      FilterMarkRoundTrip(names[1..]);
    }
  }

  /** Only the last marker of a line is removed. */
  lemma StripsOneMarker()
    ensures FilterTestOptions(["a: test: test"]) == ["a: test"]
  {
    assert IsTestLine("a: test: test") by {
      assert "a: test: test"[7..] == TestMarker;
    }
    assert StripMarker("a: test: test") == "a: test";
  }

  /** A line without the marker contributes nothing. */
  lemma FilterDropsLine(line: string, rest: seq<string>)
    requires !IsTestLine(line)
    ensures FilterTestOptions([line] + rest) == FilterTestOptions(rest)
  {
    assert ([line] + rest)[1..] == rest;
  }

  /** A marked line contributes its name. */
  lemma FilterKeepsLine(name: string, rest: seq<string>)
    ensures FilterTestOptions([name + TestMarker] + rest) == [name] + FilterTestOptions(rest)
  {
  }

  /** The first half of the listing in the repository's unit test of the filter. */
  lemma ExampleFlatLines()
    ensures FilterTestOptions(["apple_function: test", "apple_function2: test", "apple_function3 test", "apple_function4: ", "apple_function5:test"])
      == ["apple_function", "apple_function2"]
  {
    var lines := ["apple_function: test", "apple_function2: test", "apple_function3 test", "apple_function4: ", "apple_function5:test"];
    assert FilterTestOptions(lines[4..]) == [] by {
      assert lines[4..] == [lines[4]] + lines[5..];
      FilterDropsLine(lines[4], lines[5..]);
    }
    assert FilterTestOptions(lines[3..]) == [] by {
      assert lines[3..] == [lines[3]] + lines[4..];
      FilterDropsLine(lines[3], lines[4..]);
    }
    assert FilterTestOptions(lines[2..]) == [] by {
      assert lines[2..] == [lines[2]] + lines[3..];
      FilterDropsLine(lines[2], lines[3..]);
    }
    assert FilterTestOptions(lines[1..]) == ["apple_function2"] by {
      assert lines[1..] == [lines[1]] + lines[2..];
      assert lines[1] == "apple_function2" + TestMarker;
      FilterKeepsLine("apple_function2", lines[2..]);
    }
    assert FilterTestOptions(lines[0..]) == ["apple_function", "apple_function2"] by {
      assert lines[0..] == [lines[0]] + lines[1..];
      assert lines[0] == "apple_function" + TestMarker;
      FilterKeepsLine("apple_function", lines[1..]);
    }
    assert lines[0..] == lines;
  }

  /** The second half of that listing: the same shapes under a module path. */
  lemma ExampleModuleLines()
    ensures FilterTestOptions(["module_t::demo_module::apple_function: test", "module_t::demo_module::apple_function2: test", "module_t::demo_module::apple_function3 test", "module_t::demo_module::apple_function4: ", "module_t::demo_module::apple_functiont:test"])
      == ["module_t::demo_module::apple_function", "module_t::demo_module::apple_function2"]
  {
    var lines := ["module_t::demo_module::apple_function: test", "module_t::demo_module::apple_function2: test", "module_t::demo_module::apple_function3 test", "module_t::demo_module::apple_function4: ", "module_t::demo_module::apple_functiont:test"];
    assert FilterTestOptions(lines[4..]) == [] by {
      assert lines[4..] == [lines[4]] + lines[5..];
      FilterDropsLine(lines[4], lines[5..]);
    }
    assert FilterTestOptions(lines[3..]) == [] by {
      assert lines[3..] == [lines[3]] + lines[4..];
      FilterDropsLine(lines[3], lines[4..]);
    }
    assert FilterTestOptions(lines[2..]) == [] by {
      assert lines[2..] == [lines[2]] + lines[3..];
      FilterDropsLine(lines[2], lines[3..]);
    }
    assert FilterTestOptions(lines[1..]) == ["module_t::demo_module::apple_function2"] by {
      assert lines[1..] == [lines[1]] + lines[2..];
      assert lines[1] == "module_t::demo_module::apple_function2" + TestMarker;
      FilterKeepsLine("module_t::demo_module::apple_function2", lines[2..]);
    }
    assert FilterTestOptions(lines[0..]) == ["module_t::demo_module::apple_function", "module_t::demo_module::apple_function2"] by {
      assert lines[0..] == [lines[0]] + lines[1..];
      assert lines[0] == "module_t::demo_module::apple_function" + TestMarker;
      FilterKeepsLine("module_t::demo_module::apple_function", lines[1..]);
    }
    assert lines[0..] == lines;
  }

  /** The listing of the repository's own unit test of the filter: only
      the lines ending in exactly ": test" survive, stripped, in order. */
  lemma FilterExample()
    ensures FilterTestOptions(["apple_function: test", "apple_function2: test", "apple_function3 test", "apple_function4: ", "apple_function5:test", "module_t::demo_module::apple_function: test", "module_t::demo_module::apple_function2: test", "module_t::demo_module::apple_function3 test", "module_t::demo_module::apple_function4: ", "module_t::demo_module::apple_functiont:test"])
      == ["apple_function", "apple_function2", "module_t::demo_module::apple_function", "module_t::demo_module::apple_function2"]
  {
    var flat := ["apple_function: test", "apple_function2: test", "apple_function3 test", "apple_function4: ", "apple_function5:test"];
    var nested := ["module_t::demo_module::apple_function: test", "module_t::demo_module::apple_function2: test", "module_t::demo_module::apple_function3 test", "module_t::demo_module::apple_function4: ", "module_t::demo_module::apple_functiont:test"];
    var listing := ["apple_function: test", "apple_function2: test", "apple_function3 test", "apple_function4: ", "apple_function5:test", "module_t::demo_module::apple_function: test", "module_t::demo_module::apple_function2: test", "module_t::demo_module::apple_function3 test", "module_t::demo_module::apple_function4: ", "module_t::demo_module::apple_functiont:test"];
    assert listing == flat + nested;
    FilterAppend(flat, nested);
    ExampleFlatLines();
    ExampleModuleLines();
  }
}
