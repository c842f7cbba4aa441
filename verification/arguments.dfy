/** What the entry point does with its command-line arguments before asking
    the runner for the test listing: it drops a leading toolchain selector
    (`+nightly`), then the name under which it was invoked (anything ending
    in `qtest`), then a `--watch` flag, each only when it is the next
    argument; and it splits what remains at the first `--` into the runner's
    own flags and the flags for the test binary. */
module Arguments {
  import opened Wrappers
  import opened Text
  import opened Sequences

  const WatchFlag: string := "--watch"
  const Separator: string := "--"

  predicate IsToolchain(arg: string) {
    StartsWith(arg, "+")
  }

  predicate IsSubcommand(arg: string) {
    EndsWith(arg, "qtest")
  }

  /** The arguments after pre-processing. `watch` and `args` are what the
      entry point keeps; `toolchain` and `subcommand` record what it dropped. */
  datatype Invocation = Invocation(
    toolchain: Option<string>,
    subcommand: Option<string>,
    watch: bool,
    args: seq<string>)

  function OptionalArg(o: Option<string>): seq<string> {
    if o.Some? then [o.value] else []
  }

  /** The argument list an invocation was read from. */
  function Unparse(inv: Invocation): seq<string> {
    OptionalArg(inv.toolchain) + OptionalArg(inv.subcommand)
      + (if inv.watch then [WatchFlag] else []) + inv.args
  }

  /** An invocation that pre-processing can produce: each recorded argument
      has the shape its step looks for, and each step that dropped nothing
      had no such argument in front of it. */
  predicate Canonical(inv: Invocation) {
    var afterSub := (if inv.watch then [WatchFlag] else []) + inv.args;
    var afterToolchain := OptionalArg(inv.subcommand) + afterSub;
    && (inv.toolchain.Some? ==> IsToolchain(inv.toolchain.value))
    && (inv.subcommand.Some? ==> IsSubcommand(inv.subcommand.value))
    && (inv.toolchain.None? && afterToolchain != [] ==> !IsToolchain(afterToolchain[0]))
    && (inv.subcommand.None? && afterSub != [] ==> !IsSubcommand(afterSub[0]))
    && (!inv.watch && inv.args != [] ==> inv.args[0] != WatchFlag)
  }

  /** The three fixed-order checks on the next argument. */
  function Preprocess(argv: seq<string>): (inv: Invocation)
    ensures Unparse(inv) == argv
    ensures Canonical(inv)
    ensures |argv| - 3 <= |inv.args| <= |argv|
    ensures inv.args == argv[|argv| - |inv.args|..]
    ensures inv.watch <==> |inv.args| < |argv| && argv[|argv| - |inv.args| - 1] == WatchFlag
  {
    var toolchain := if argv != [] && IsToolchain(argv[0]) then Some(argv[0]) else None;
    var a1 := if toolchain.Some? then argv[1..] else argv;
    var subcommand := if a1 != [] && IsSubcommand(a1[0]) then Some(a1[0]) else None;
    var a2 := if subcommand.Some? then a1[1..] else a1;
    var watch := a2 != [] && a2[0] == WatchFlag;
    var a3 := if watch then a2[1..] else a2;
    assert !IsToolchain(WatchFlag) by {
      assert WatchFlag[..1][0] == '-';
    }
    assert !IsSubcommand(WatchFlag) by {
      assert WatchFlag[|WatchFlag| - 5..][0] == 'w';
    }
    Invocation(toolchain, subcommand, watch, a3)
  }

  /** Round trip in the other direction: pre-processing the arguments an
      invocation stands for recovers that invocation. */
  lemma PreprocessUnparse(inv: Invocation)
    requires Canonical(inv)
    ensures Preprocess(Unparse(inv)) == inv
  {
    var argv := Unparse(inv);
    var afterSub := (if inv.watch then [WatchFlag] else []) + inv.args;
    var afterToolchain := OptionalArg(inv.subcommand) + afterSub;
    assert argv == OptionalArg(inv.toolchain) + afterToolchain;
    var r := Preprocess(argv);
    assert |Unparse(r)| == |argv|;
    assert r.toolchain == inv.toolchain;
    assert r.subcommand == inv.subcommand;
    assert r.watch == inv.watch;
  }

  /** `cargo +nightly qtest --watch --lib -- foo` as the program sees it:
      every step drops its argument. */
  lemma PreprocessExample()
    ensures Preprocess(["+nightly", "qtest", "--watch", "--lib", "--", "foo"])
      == Invocation(Some("+nightly"), Some("qtest"), true, ["--lib", "--", "foo"])
  {
  }

  /** The checks run once each, in their fixed order: a `qtest` after
      `--watch` is not dropped. */
  lemma PreprocessOrderExample()
    ensures Preprocess(["--watch", "qtest"]) == Invocation(None, None, true, ["qtest"])
  {
    var argv := ["--watch", "qtest"];
    assert !IsToolchain(argv[0]) by {
      assert argv[0][..1] == "-";
    }
    assert !IsSubcommand(argv[0]) by {
      assert argv[0][|argv[0]| - 5..][0] == 'w';
    }
  }

  /** The arguments split at the first separator: the runner's flags and the
      flags passed on to the test binary. */
  datatype SplitArgs = SplitArgs(first: seq<string>, second: seq<string>)

  function SplitAtSeparator(args: seq<string>): (s: SplitArgs)
    ensures Separator in args ==> s.first + [Separator] + s.second == args && Separator !in s.first
    ensures Separator !in args ==> s.first == args && s.second == []
  {
    match IndexOf(args, Separator)
    case Some(i) =>
      assert args == args[..i] + [Separator] + args[i + 1..];
      SplitArgs(args[..i], args[i + 1..])
    case None => SplitArgs(args, [])
  }

  /** The split is determined by its parts: joining runner flags without a
      separator to any test-binary flags and splitting again recovers both. */
  lemma SplitJoinRoundTrip(first: seq<string>, second: seq<string>)
    requires Separator !in first
    ensures SplitAtSeparator(first + [Separator] + second) == SplitArgs(first, second)
  {
    var args := first + [Separator] + second;
    var s := SplitAtSeparator(args);
    assert Separator in args by {
      assert args[|first|] == Separator;
    }
    SeparatorPrefixUnique(first, second, s.first, s.second);
  }

  /** Only one way to read a list as flags, the first separator, and flags. */
  lemma {:induction false} SeparatorPrefixUnique(f1: seq<string>, s1: seq<string>, f2: seq<string>, s2: seq<string>)
    requires Separator !in f1 && Separator !in f2
    requires f1 + [Separator] + s1 == f2 + [Separator] + s2
    ensures f1 == f2 && s1 == s2
  {
    var xs := f1 + [Separator] + s1;
    assert xs[|f1|] == Separator && xs[|f2|] == Separator;
    assert forall i :: 0 <= i < |f1| ==> xs[i] == f1[i];
    assert forall i :: 0 <= i < |f2| ==> xs[i] == f2[i];
    assert |f1| == |f2|;
    assert f1 == xs[..|f1|] && s1 == xs[|f1| + 1..];
    assert f2 == xs[..|f2|] && s2 == xs[|f2| + 1..];
  }

  /** A trailing separator with nothing after it leaves the same split as no
      separator at all: both run the runner with no test-binary flags. */
  lemma TrailingSeparatorIsInvisible(first: seq<string>)
    requires Separator !in first
    ensures SplitAtSeparator(first + [Separator]) == SplitAtSeparator(first)
  {
  }
}
