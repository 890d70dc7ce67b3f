/**
 * `generate_dependency.py`: add dependencies to the test cases of a test-suite
 * data file. The file is a sequence of lines, each keeping its "\n"; a line
 * that is exactly "\n" separates two test cases. Each test case whose
 * description (its first line that is not a `#` comment) or whose last line
 * matches a caller-given pattern gets the dependencies on its `depends_on:`
 * line, which is created when the case has none.
 */
module DependencyRewriter {
  import opened Wrappers
  import opened PyText

  type Lines = seq<string>

  /** The separator line between two test cases. */
  const Blank: string := "\n"

  /** `DEPEND_REGEX` under `re.match`: the stripped line starts with "depends_on:". */
  predicate IsDependsLine(line: string) {
    StartsWith(Strip(line), "depends_on:")
  }

  predicate IsComment(line: string) {
    StartsWith(line, "#")
  }

  // ---------------------------------------------------------------------------
  // Splitting a file into test cases, and joining them again

  /**
   * The test cases of `lines`: the maximal runs of lines between separator
   * lines, in order, including the (possibly empty) runs before the first and
   * after the last separator.
   */
  function Groups(lines: Lines): (gs: seq<Lines>)
    ensures |gs| >= 1
    decreases |lines|
  {
    if lines == [] then [[]]
    else
      var g := Groups(lines[..|lines| - 1]);
      var last := lines[|lines| - 1];
      if last == Blank then g + [[]] else g[..|g| - 1] + [g[|g| - 1] + [last]]
  }

  /** The number of separator lines. */
  function BlankCount(lines: Lines): nat
    decreases |lines|
  {
    if lines == [] then 0 else BlankCount(lines[..|lines| - 1]) + (if lines[|lines| - 1] == Blank then 1 else 0)
  }

  /** Each test case followed by a separator line. */
  function Joined(gs: seq<Lines>): Lines
    decreases |gs|
  {
    if gs == [] then [] else Joined(gs[..|gs| - 1]) + gs[|gs| - 1] + [Blank]
  }

  /** `file_content[:-1]`: the list without its last element (an empty list stays empty). */
  function DropLast(s: Lines): Lines {
    if s == [] then [] else s[..|s| - 1]
  }

  /** The test cases with a separator line between each two: how `__parse_file` rebuilds a file. */
  function Rejoin(gs: seq<Lines>): Lines {
    DropLast(Joined(gs))
  }

  /** `TestDataExplorer.split_test_case`. */
  method SplitTestCase(dataStream: Lines) returns (res: seq<Lines>)
    ensures res == Groups(dataStream)
  {
    res := [];
    var testCase: Lines := [];
    for i := 0 to |dataStream|
      invariant res + [testCase] == Groups(dataStream[..i])
    {
      var line := dataStream[i];
      assert dataStream[..i + 1][..i] == dataStream[..i];
      ghost var g := Groups(dataStream[..i]);
      assert g[..|g| - 1] == res && g[|g| - 1] == testCase;
      if line == Blank {
        res := res + [testCase];
        testCase := [];
      } else {
        testCase := testCase + [line];
      }
    }
    assert dataStream[..|dataStream|] == dataStream;
    res := res + [testCase];
  }

  /** There is one test case more than there are separator lines. */
  lemma {:induction false} GroupCount(lines: Lines)
    ensures |Groups(lines)| == BlankCount(lines) + 1
    decreases |lines|
  {
    if lines != [] {
      GroupCount(lines[..|lines| - 1]);
    }
  }

  /** No test case contains a separator line. */
  lemma {:induction false} GroupsHaveNoBlank(lines: Lines)
    ensures forall i, j :: 0 <= i < |Groups(lines)| && 0 <= j < |Groups(lines)[i]| ==> Groups(lines)[i][j] != Blank
    decreases |lines|
  {
    if lines != [] {
      var init := lines[..|lines| - 1];
      GroupsHaveNoBlank(init);
      var g := Groups(init);
      var last := lines[|lines| - 1];
      if last != Blank {
        var gs := Groups(lines);
        assert gs == g[..|g| - 1] + [g[|g| - 1] + [last]];
        forall i, j | 0 <= i < |gs| && 0 <= j < |gs[i]|
          ensures gs[i][j] != Blank
        {
          if i < |g| - 1 {
            assert gs[i] == g[i];
          } else if j < |g[|g| - 1]| {
            assert gs[i][j] == g[|g| - 1][j];
          }
        }
      }
    }
  }

  /** Every test case followed by a separator is the file followed by one more separator. */
  lemma {:induction false} JoinedGroups(lines: Lines)
    ensures Joined(Groups(lines)) == lines + [Blank]
    decreases |lines|
  {
    if lines != [] {
      var init := lines[..|lines| - 1];
      var last := lines[|lines| - 1];
      JoinedGroups(init);
      var g := Groups(init);
      var gs := Groups(lines);
      assert lines == init + [last];
      if last == Blank {
        assert gs[..|gs| - 1] == g;
      } else {
        var n := |g|;
        var x := Joined(g[..n - 1]) + g[n - 1];
        assert Joined(g) == x + [Blank];
        JoinedSnoc(g[..n - 1], g[n - 1] + [last]);
        assert x == init by {
          assert x == (x + [Blank])[..|x|];
          assert (init + [Blank])[..|init|] == init;
        }
      }
    }
  }

  /** Joining one more test case appends it and its separator. */
  lemma JoinedSnoc(gs: seq<Lines>, x: Lines)
    ensures Joined(gs + [x]) == Joined(gs) + x + [Blank]
  {
    var t := gs + [x];
    assert t[..|t| - 1] == gs;
  }

  /** Splitting a file into test cases and joining them again gives back the file. */
  lemma SplitRejoin(lines: Lines)
    ensures Rejoin(Groups(lines)) == lines
  {
    JoinedGroups(lines);
    assert (lines + [Blank])[..|lines|] == lines;
  }

  /** A run of lines without a separator is a single test case. */
  lemma {:induction false} GroupsOfPlain(g: Lines)
    requires forall j :: 0 <= j < |g| ==> g[j] != Blank
    ensures Groups(g) == [g]
    decreases |g|
  {
    if g != [] {
      var init := g[..|g| - 1];
      GroupsOfPlain(init);
      assert init + [g[|g| - 1]] == g;
    }
  }

  /** Adding a separator and then a run of plain lines to a file adds that run as one more test case. */
  lemma {:induction false} GroupsAppendPlain(lines: Lines, g: Lines)
    requires forall j :: 0 <= j < |g| ==> g[j] != Blank
    ensures Groups(lines + [Blank] + g) == Groups(lines) + [g]
    decreases |g|
  {
    var s := lines + [Blank] + g;
    if g == [] {
      assert s[..|s| - 1] == lines;
    } else {
      var init := g[..|g| - 1];
      var last := g[|g| - 1];
      GroupsAppendPlain(lines, init);
      assert s[..|s| - 1] == lines + [Blank] + init;
      assert init + [last] == g;
    }
  }

  /** Joining one more test case adds a separator and then its lines. */
  lemma RejoinSnoc(gs: seq<Lines>, g: Lines)
    requires |gs| >= 1
    ensures Rejoin(gs + [g]) == Rejoin(gs) + [Blank] + g
  {
    var j := Joined(gs);
    assert (gs + [g])[..|gs|] == gs;
    assert Joined(gs + [g]) == j + g + [Blank];
    assert j == Joined(gs[..|gs| - 1]) + gs[|gs| - 1] + [Blank];
    assert j == DropLast(j) + [Blank];
    assert DropLast(j + g + [Blank]) == j + g;
  }

  /**
   * Joining test cases that contain no separator line and splitting the
   * result gives back the same test cases.
   */
  lemma {:induction false} RejoinSplit(gs: seq<Lines>)
    requires |gs| >= 1
    requires forall i, j :: 0 <= i < |gs| && 0 <= j < |gs[i]| ==> gs[i][j] != Blank
    ensures Groups(Rejoin(gs)) == gs
    decreases |gs|
  {
    var init := gs[..|gs| - 1];
    var g := gs[|gs| - 1];
    assert forall j :: 0 <= j < |g| ==> g[j] != Blank;
    assert init + [g] == gs;
    if |gs| == 1 {
      assert Joined(gs) == Joined(init) + g + [Blank];
      assert init == [];
      assert Rejoin(gs) == g;
      GroupsOfPlain(g);
    } else {
      RejoinSplit(init);
      RejoinSnoc(init, g);
      GroupsAppendPlain(Rejoin(init), g);
    }
  }

  // ---------------------------------------------------------------------------
  // Adding dependencies to one test case

  /** The test case names a line past its end (Python raises IndexError). */
  datatype RewriteError = IndexError

  /** The position of the first line that is not a `#` comment, or the length when every line is one. */
  function FirstNonComment(tc: Lines): (i: nat)
    ensures i <= |tc|
    ensures forall k :: 0 <= k < i ==> IsComment(tc[k])
    ensures i < |tc| ==> !IsComment(tc[i])
    decreases |tc|
  {
    if tc == [] || !IsComment(tc[0]) then 0 else 1 + FirstNonComment(tc[1..])
  }

  /** `":" + d` for each dependency in order: what the loop of `__append_dep` builds when none is present. */
  function Prefixed(deps: seq<string>): string
    decreases |deps|
  {
    if deps == [] then "" else Prefixed(deps[..|deps| - 1]) + ":" + deps[|deps| - 1]
  }

  /** Some dependency already occurs somewhere in `line`. */
  predicate AnyPresent(deps: seq<string>, line: string) {
    exists d :: d in deps && IsSubstring(d, line)
  }

  /** The `depends_on:` line a test case without one gets: all dependencies joined with ':'. */
  function NewDependsLine(deps: seq<string>): string {
    "depends_on:" + JoinWith(":", deps) + "\n"
  }

  /**
   * An existing `depends_on:` line after the rewrite: its surrounding "\n"
   * stripped, then the dependencies unless one of them is already there,
   * then one "\n".
   */
  function ExtendedDepends(line: string, deps: seq<string>): string {
    StripNewlines(line) + ((if AnyPresent(deps, line) then "" else Prefixed(deps)) + "\n")
  }

  /** Every dependency occurs in the text that lists them. */
  lemma {:induction false} PrefixedContainsAll(deps: seq<string>)
    ensures forall d :: d in deps ==> IsSubstring(d, Prefixed(deps))
    decreases |deps|
  {
    if deps != [] {
      var init := deps[..|deps| - 1];
      var last := deps[|deps| - 1];
      PrefixedContainsAll(init);
      var p := Prefixed(init);
      var q := Prefixed(deps);
      assert q == p + ":" + last;
      assert OccursAt(last, q, |p| + 1) by {
        assert q[|p| + 1..|p| + 1 + |last|] == last;
      }
      forall d | d in init
        ensures IsSubstring(d, q)
      {
        assert IsSubstring(d, p);
        var k :| 0 <= k <= |p| - |d| && OccursAt(d, p, k);
        assert q[..|p|] == p;
        assert q[k..k + |d|] == p[k..k + |d|];
        assert OccursAt(d, q, k);
      }
    }
  }

  /** Appending line `i` and then overwriting position `i` moves that line to the end and puts `x` in its place. */
  lemma MoveToEnd(s: Lines, i: nat, x: string)
    requires i < |s|
    ensures (s + [s[i]])[i := x] == s[..i] + [x] + s[i + 1..] + [s[i]]
  {
    var a := (s + [s[i]])[i := x];
    var b := s[..i] + [x] + s[i + 1..] + [s[i]];
    assert |a| == |b|;
    forall k | 0 <= k < |a|
      ensures a[k] == b[k]
    {
      if k < i {
        assert b[k] == s[k];
      } else if i < k < |s| {
        assert b[k] == s[i + 1..][k - i - 1];
      }
    }
  }

  /** The shape of a case after its line `i` moved to the end and `x` took its place. */
  lemma MovedLineShape(s: Lines, i: nat, x: string)
    requires i < |s|
    ensures var r := s[..i] + [x] + s[i + 1..] + [s[i]];
            && |r| == |s| + 1
            && r[..i] == s[..i]
            && r[i] == x
            && r[i + 1..|s|] == s[i + 1..]
            && r[|s|] == s[i]
            && multiset(r) == multiset(s) + multiset{x}
  {
    var r := s[..i] + [x] + s[i + 1..] + [s[i]];
    assert r[..i] == s[..i];
    assert r[i + 1..|s|] == s[i + 1..];
    assert s == s[..i] + [s[i]] + s[i + 1..];
  }

  /** A substring of the middle part is a substring of the whole. */
  lemma SubstringOfMiddle(d: string, a: string, m: string, b: string)
    requires IsSubstring(d, m)
    ensures IsSubstring(d, a + m + b)
  {
    var k :| 0 <= k <= |m| - |d| && OccursAt(d, m, k);
    var w := a + m + b;
    assert w[|a|..|a| + |m|] == m;
    assert w[|a| + k..|a| + k + |d|] == m[k..k + |d|];
    assert OccursAt(d, w, |a| + k);
  }

  /** What an extended `depends_on:` line holds: unchanged text if a dependency is there, else every dependency. */
  lemma ExtendedDependsContents(line: string, deps: seq<string>)
    ensures AnyPresent(deps, line) ==> ExtendedDepends(line, deps) == StripNewlines(line) + "\n"
    ensures !AnyPresent(deps, line) ==>
              && ExtendedDepends(line, deps) == StripNewlines(line) + Prefixed(deps) + "\n"
              && forall d :: d in deps ==> IsSubstring(d, ExtendedDepends(line, deps))
  {
    if !AnyPresent(deps, line) {
      PrefixedContainsAll(deps);
      forall d | d in deps
        ensures IsSubstring(d, StripNewlines(line) + Prefixed(deps) + "\n")
      {
        SubstringOfMiddle(d, StripNewlines(line), Prefixed(deps), "\n");
      }
    }
  }

  /** The test case's description line is followed by no line at all: the rewrite then reads past the end. */
  predicate MissesNextLine(tc: Lines) {
    FirstNonComment(tc) + 1 == |tc|
  }

  // ---------------------------------------------------------------------------
  // The rewriter object

  /** A value of `snippets`: the name of the script, or the rewritten lines of a data file. */
  datatype Snippet = ScriptName(name: string) | Content(lines: Lines)

  /** What `__parse_file` did: nothing (no file name), stored the file's new lines, or raised. */
  datatype ParseOutcome = Skipped | Stored | Raised(error: RewriteError)

  const PoolKey: string := "file_content_pool"
  const ScriptBaseName: string := "generate_dependency.py"

  /**
   * `GenTestData`. `locate` is the caller's regular expression under
   * `re.match`, abstracted to the set of strings it accepts.
   */
  class GenTestData {
    const locate: string -> bool
    const dependencies: seq<string>
    const testDirectories: seq<string>
    var snippets: map<string, Snippet>

    /**
     * `collected` stands for what `collect_test_directories` finds on disk;
     * it is used only when the caller gives no directories.
     */
    constructor(locate: string -> bool, dependencies: seq<string>, testDirectories: Option<seq<string>>, collected: seq<string>)
      ensures this.locate == locate && this.dependencies == dependencies
      ensures this.testDirectories == if testDirectories.Some? then testDirectories.value else collected
      ensures snippets == map[PoolKey := ScriptName(ScriptBaseName)]
    {
      this.locate := locate;
      this.dependencies := dependencies;
      this.testDirectories := if testDirectories.Some? then testDirectories.value else collected;
      snippets := map[PoolKey := ScriptName(ScriptBaseName)];
    }

    /** `__found_target`. */
    predicate Found(tcStr: string) {
      locate(tcStr)
    }

    /** The rewrite applies: the case has a description whose stripped text, or whose last line stripped, matches. */
    predicate Targeted(tc: Lines) {
      var i := FirstNonComment(tc);
      i < |tc| && (Found(Strip(tc[i])) || Found(Strip(tc[|tc| - 1])))
    }

    /**
     * `__append_dep` on one test case: untouched unless targeted; then the
     * line after the description is read, and it is either an existing
     * `depends_on:` line that is extended, or it moves to the end of the case
     * and a new `depends_on:` line takes its place.
     */
    function Rewritten(tc: Lines): Result<Lines, RewriteError> {
      var i := FirstNonComment(tc);
      if !Targeted(tc) then Success(tc)
      else if i + 1 == |tc| then Failure(IndexError)
      else if IsDependsLine(tc[i + 1]) then Success(tc[i + 1 := ExtendedDepends(tc[i + 1], dependencies)])
      else Success(tc[..i + 1] + [NewDependsLine(dependencies)] + tc[i + 2..] + [tc[i + 1]])
    }

    /**
     * The loop of `__append_dep` over the dependencies: nothing when one of
     * them already occurs in `line`, otherwise `":" + d` for each.
     */
    method MissingDeps(line: string) returns (extraDeps: string)
      ensures extraDeps == if AnyPresent(dependencies, line) then "" else Prefixed(dependencies)
    {
      extraDeps := "";
      ghost var at := -1;
      for j := 0 to |dependencies|
        invariant at == -1
        invariant extraDeps == Prefixed(dependencies[..j])
        invariant forall k :: 0 <= k < j ==> !IsSubstring(dependencies[k], line)
      {
        var dep := dependencies[j];
        if IsSubstring(dep, line) {
          extraDeps := "";
          at := j;
          break;
        }
        assert dependencies[..j + 1][..j] == dependencies[..j];
        extraDeps := extraDeps + ":" + dep;
      }
      if at == -1 {
        assert dependencies[..|dependencies|] == dependencies;
        assert !AnyPresent(dependencies, line);
      } else {
        assert 0 <= at < |dependencies| && IsSubstring(dependencies[at], line) && extraDeps == "";
      }
    }

    /** `__append_dep`; the list the source updates in place is returned here. */
    method AppendDep(singleTest: Lines) returns (r: Result<Lines, RewriteError>)
      ensures r == Rewritten(singleTest)
    {
      if singleTest == [] {
        return Success(singleTest);
      }
      var index := 0;
      while IsComment(singleTest[index])
        invariant 0 <= index < |singleTest|
        invariant forall k :: 0 <= k < index ==> IsComment(singleTest[k])
        decreases |singleTest| - index
      {
        index := index + 1;
        if index >= |singleTest| {
          return Success(singleTest);
        }
      }
      assert index == FirstNonComment(singleTest);
      var test := singleTest;
      if !(Found(Strip(test[index])) || Found(Strip(test[|test| - 1]))) {
        assert !Targeted(singleTest);
        return Success(test);
      }
      assert Targeted(singleTest);
      if index + 1 >= |test| {
        return Failure(IndexError);
      }
      var line := test[index + 1];
      if IsDependsLine(line) {
        var extraDeps := MissingDeps(line);
        extraDeps := extraDeps + "\n";
        test := test[index + 1 := StripNewlines(line) + extraDeps];
        assert test == singleTest[index + 1 := ExtendedDepends(line, dependencies)];
      } else {
        var extraDeps := "depends_on:" + JoinWith(":", dependencies) + "\n";
        test := test + [line];
        test := test[index + 1 := extraDeps];
        MoveToEnd(singleTest, index + 1, extraDeps);
      }
      return Success(test);
    }

    /** A test case that is empty or made only of comment lines is returned unchanged. */
    lemma CommentOnlyUnchanged(tc: Lines)
      requires forall k :: 0 <= k < |tc| ==> IsComment(tc[k])
      ensures Rewritten(tc) == Success(tc)
    {
    }

    /** A case whose description and last line both fail to match is returned unchanged. */
    lemma UnmatchedUnchanged(tc: Lines)
      requires FirstNonComment(tc) < |tc|
      requires !Found(Strip(tc[FirstNonComment(tc)])) && !Found(Strip(tc[|tc| - 1]))
      ensures Rewritten(tc) == Success(tc)
    {
    }

    /** The rewrite fails exactly when a targeted case has nothing after its description. */
    lemma RewriteFailsExactly(tc: Lines)
      ensures Rewritten(tc).Failure? <==> Targeted(tc) && MissesNextLine(tc)
    {
    }

    /**
     * An existing `depends_on:` line is the only line that changes. If a
     * dependency already occurs in it, it only loses its surrounding "\n"s
     * and gets one back; otherwise every dependency is appended, so each one
     * then occurs in it.
     */
    lemma {:induction false} ExtendsExistingDepends(tc: Lines)
      requires Targeted(tc) && !MissesNextLine(tc)
      requires IsDependsLine(tc[FirstNonComment(tc) + 1])
      ensures var i := FirstNonComment(tc);
              var line := tc[i + 1];
              && Rewritten(tc).Success?
              && |Rewritten(tc).value| == |tc|
              && (forall k :: 0 <= k < |tc| && k != i + 1 ==> Rewritten(tc).value[k] == tc[k])
              && (AnyPresent(dependencies, line) ==> Rewritten(tc).value[i + 1] == StripNewlines(line) + "\n")
              && (!AnyPresent(dependencies, line) ==>
                    && Rewritten(tc).value[i + 1] == StripNewlines(line) + Prefixed(dependencies) + "\n"
                    && forall d :: d in dependencies ==> IsSubstring(d, Rewritten(tc).value[i + 1]))
    {
      var i := FirstNonComment(tc);
      var line := tc[i + 1];
      var e := ExtendedDepends(line, dependencies);
      assert Rewritten(tc) == Success(tc[i + 1 := e]);
      ExtendedDependsContents(line, dependencies);
    }

    /**
     * Without a `depends_on:` line the case grows by one: the lines up to the
     * description stay, the new `depends_on:` line follows it, the later
     * lines keep their places, and the line that followed the description
     * moves to the end. No line is lost.
     */
    lemma InsertsDependsLine(tc: Lines)
      requires Targeted(tc) && !MissesNextLine(tc)
      requires !IsDependsLine(tc[FirstNonComment(tc) + 1])
      ensures var i := FirstNonComment(tc);
              && Rewritten(tc).Success?
              && |Rewritten(tc).value| == |tc| + 1
              && Rewritten(tc).value[..i + 1] == tc[..i + 1]
              && Rewritten(tc).value[i + 1] == NewDependsLine(dependencies)
              && Rewritten(tc).value[i + 2..|tc|] == tc[i + 2..]
              && Rewritten(tc).value[|tc|] == tc[i + 1]
              && multiset(Rewritten(tc).value) == multiset(tc) + multiset{NewDependsLine(dependencies)}
    {
      var i := FirstNonComment(tc);
      assert Rewritten(tc) == Success(tc[..i + 1] + [NewDependsLine(dependencies)] + tc[i + 2..] + [tc[i + 1]]);
      MovedLineShape(tc, i + 1, NewDependsLine(dependencies));
    }

    /** The usual shape, a description followed by the test function line, gets the new line between the two. */
    lemma TwoLineCaseGetsDependsBetween(desc: string, call: string)
      requires !IsComment(desc) && !IsDependsLine(call)
      requires Found(Strip(desc)) || Found(Strip(call))
      ensures Rewritten([desc, call]) == Success([desc, NewDependsLine(dependencies), call])
    {
      var tc := [desc, call];
      assert FirstNonComment(tc) == 0;
      assert tc[1] == call && tc[|tc| - 1] == call && tc[0] == desc;
      assert Targeted(tc) && !MissesNextLine(tc) && !IsDependsLine(tc[1]);
      assert tc[..1] == [desc] && tc[2..] == [];
      assert [desc] + [NewDependsLine(dependencies)] + [] + [call] == [desc, NewDependsLine(dependencies), call];
    }

    // -------------------------------------------------------------------------
    // Rewriting a whole file

    /** Every test case rewritten in order; the first failure ends the run. */
    function RewriteGroups(gs: seq<Lines>): Result<seq<Lines>, RewriteError>
      decreases |gs|
    {
      if gs == [] then Success([])
      else
        match RewriteGroups(gs[..|gs| - 1])
        case Failure(e) => Failure(e)
        case Success(done) =>
          match Rewritten(gs[|gs| - 1])
          case Failure(e) => Failure(e)
          case Success(g) => Success(done + [g])
    }

    /** The new lines of a data file: its test cases rewritten and joined again. */
    function RewriteFile(lines: Lines): Result<Lines, RewriteError> {
      match RewriteGroups(Groups(lines))
      case Failure(e) => Failure(e)
      case Success(gs) => Success(DropLast(Joined(gs)))
    }

    /** One step of the loop of `__parse_file`: a rewritten test case extends the rewritten prefix. */
    lemma RewriteGroupsStep(gs: seq<Lines>, i: nat, done: seq<Lines>)
      requires i < |gs| && RewriteGroups(gs[..i]) == Success(done) && Rewritten(gs[i]).Success?
      ensures RewriteGroups(gs[..i + 1]) == Success(done + [Rewritten(gs[i]).value])
      ensures Joined(done + [Rewritten(gs[i]).value]) == Joined(done) + Rewritten(gs[i]).value + [Blank]
    {
      assert gs[..i + 1][..i] == gs[..i];
      assert gs[..i + 1][i] == gs[i];
      assert (done + [Rewritten(gs[i]).value])[..|done|] == done;
    }

    /** A test case that fails after a rewritten prefix makes the whole file fail. */
    lemma RewriteGroupsStopsAt(gs: seq<Lines>, i: nat, done: seq<Lines>)
      requires i < |gs| && RewriteGroups(gs[..i]) == Success(done) && Rewritten(gs[i]).Failure?
      ensures RewriteGroups(gs).Failure?
    {
      assert gs[..i + 1][..i] == gs[..i];
      assert gs[..i + 1][i] == gs[i];
      RewriteGroupsPrefixFailure(gs, i + 1);
    }

    /** A failing prefix makes the whole run fail. */
    lemma {:induction false} RewriteGroupsPrefixFailure(gs: seq<Lines>, n: nat)
      requires n <= |gs| && RewriteGroups(gs[..n]).Failure?
      ensures RewriteGroups(gs).Failure?
      decreases |gs| - n
    {
      if n < |gs| {
        assert gs[..n + 1][..n] == gs[..n];
        RewriteGroupsPrefixFailure(gs, n + 1);
      } else {
        assert gs[..n] == gs;
      }
    }

    /** The run fails exactly when some test case does. */
    lemma {:induction false} RewriteGroupsFailsExactly(gs: seq<Lines>)
      ensures RewriteGroups(gs).Failure? <==> exists k :: 0 <= k < |gs| && Rewritten(gs[k]).Failure?
      ensures RewriteGroups(gs).Success? ==>
                |RewriteGroups(gs).value| == |gs|
                && forall k :: 0 <= k < |gs| ==> Rewritten(gs[k]) == Success(RewriteGroups(gs).value[k])
      decreases |gs|
    {
      if gs != [] {
        var init := gs[..|gs| - 1];
        RewriteGroupsFailsExactly(init);
        assert forall k :: 0 <= k < |init| ==> init[k] == gs[k];
        if RewriteGroups(gs).Success? {
          var done := RewriteGroups(init).value;
          var out := done + [Rewritten(gs[|gs| - 1]).value];
          assert RewriteGroups(gs).value == out;
          forall k | 0 <= k < |gs|
            ensures Rewritten(gs[k]) == Success(out[k])
          {
            if k < |init| {
              assert out[k] == done[k] && gs[k] == init[k];
            }
          }
        }
      }
    }

    /** A file in which no test case is targeted comes out exactly as it went in. */
    lemma FileWithoutTargetUnchanged(lines: Lines)
      requires forall k :: 0 <= k < |Groups(lines)| ==> !Targeted(Groups(lines)[k])
      ensures RewriteFile(lines) == Success(lines)
    {
      var gs := Groups(lines);
      RewriteGroupsFailsExactly(gs);
      assert RewriteGroups(gs).Success?;
      var out := RewriteGroups(gs).value;
      assert out == gs;
      SplitRejoin(lines);
    }

    /** Some test case is targeted but has no line after its description. */
    predicate SomeCaseMissesNextLine(gs: seq<Lines>) {
      exists k :: 0 <= k < |gs| && Targeted(gs[k]) && MissesNextLine(gs[k])
    }

    /** The file fails to rewrite exactly when one of its test cases is targeted and ends at its description. */
    lemma FileFailsExactly(lines: Lines)
      ensures RewriteFile(lines).Failure? <==> SomeCaseMissesNextLine(Groups(lines))
    {
      var gs := Groups(lines);
      RewriteGroupsFailsExactly(gs);
      assert RewriteFile(lines).Failure? <==> RewriteGroups(gs).Failure?;
      forall k | 0 <= k < |gs|
        ensures Rewritten(gs[k]).Failure? <==> Targeted(gs[k]) && MissesNextLine(gs[k])
      {
        RewriteFailsExactly(gs[k]);
      }
      if RewriteGroups(gs).Failure? {
        var k :| 0 <= k < |gs| && Rewritten(gs[k]).Failure?;
        assert Targeted(gs[k]) && MissesNextLine(gs[k]);
      }
    }

    /**
     * `__parse_file`: nothing without a file name; otherwise the file's test
     * cases, each rewritten and followed by a separator, without the last
     * separator, stored under the file's name. A failing test case raises and
     * stores nothing.
     */
    method ParseFile(dataFileName: Option<string>, dataFile: Lines) returns (outcome: ParseOutcome)
      modifies this
      ensures dataFileName.None? ==> outcome == Skipped && snippets == old(snippets)
      ensures dataFileName.Some? && RewriteFile(dataFile).Failure? ==>
                outcome == Raised(RewriteFile(dataFile).error) && snippets == old(snippets)
      ensures dataFileName.Some? && RewriteFile(dataFile).Success? ==>
                outcome == Stored && snippets == old(snippets)[dataFileName.value := Content(RewriteFile(dataFile).value)]
    {
      if dataFileName.None? {
        return Skipped;
      }
      var fileContent: Lines := [];
      var splittedTest := SplitTestCase(dataFile);
      ghost var done: seq<Lines> := [];
      for i := 0 to |splittedTest|
        invariant RewriteGroups(splittedTest[..i]) == Success(done)
        invariant fileContent == Joined(done)
        invariant snippets == old(snippets)
      {
        var testCase := AppendDep(splittedTest[i]);
        if testCase.Failure? {
          RewriteGroupsStopsAt(splittedTest, i, done);
          return Raised(testCase.error);
        }
        RewriteGroupsStep(splittedTest, i, done);
        fileContent := fileContent + testCase.value + [Blank];
        done := done + [testCase.value];
      }
      assert splittedTest[..|splittedTest|] == splittedTest;
      snippets := snippets[dataFileName.value := Content(DropLast(fileContent))];
      return Stored;
    }
  }
}
