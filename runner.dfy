/** The test runner (`test/testenv/runner.py`): it collects the test
    scripts of a campaign directory, infers from each whether `arcana`
    should accept it, runs them in a fixed order and tallies the outcome.
    Walking the directory, reading the files and running `arcana` are
    inputs here: the walk is the list of directories it visits with their
    files, and the exit code of a test is a function of the test. */
module Runner {
  import opened Wrappers
  import opened StringOrder
  import Support

  /** `Test`: the script's path, its name, and the exit code expected. */
  datatype Test = Test(path: string, script: string, expectedResult: int)

  /** A file the walk lists; `content` is None when it cannot be read. */
  datatype File = File(name: string, content: Option<string>)

  /** A directory the walk visits, with its files in listing order. */
  datatype Dir = Dir(path: string, files: seq<File>)

  // ---------------------------------------------------------------------
  // Names and paths
  // ---------------------------------------------------------------------

  /** `str.endswith`. */
  predicate EndsWith(s: string, suffix: string) {
    |suffix| <= |s| && s[|s| - |suffix|..] == suffix
  }

  /** The files `scan_arc_tests` takes. */
  predicate IsCandidate(name: string) {
    EndsWith(name, ".arc") || name == "arcfile"
  }

  /** `os.path.join` of a directory and one name. */
  function Join(dir: string, name: string): string {
    if name != [] && name[0] == '/' then name
    else if dir == [] || dir[|dir| - 1] == '/' then dir + name
    else dir + "/" + name
  }

  /** `os.path.basename`: what follows the last '/'. */
  function Basename(p: string): (b: string)
    ensures '/' !in b
  {
    if p == [] || p[|p| - 1] == '/' then [] else Basename(p[..|p| - 1]) + [p[|p| - 1]]
  }

  /** The position of the last '.' of s. */
  function LastDot(s: string): (d: Option<nat>)
    ensures d.Some? ==> d.value < |s| && s[d.value] == '.' && '.' !in s[d.value + 1..]
    ensures d.None? ==> '.' !in s
  {
    if s == [] then None
    else if s[|s| - 1] == '.' then Some(|s| - 1)
    else
      var d := LastDot(s[..|s| - 1]);
      assert d.Some? ==> s[..|s| - 1][d.value + 1..] + [s[|s| - 1]] == s[d.value + 1..];
      assert d.None? ==> s == s[..|s| - 1] + [s[|s| - 1]];
      d
  }

  predicate OnlyDots(s: string) {
    forall k :: 0 <= k < |s| ==> s[k] == '.'
  }

  /** `os.path.splitext(b)[0]` for a name b without '/': the name up to its
      last '.', unless only dots precede that dot. */
  function Stem(b: string): string {
    var d := LastDot(b);
    if d.Some? && !OnlyDots(b[..d.value]) then b[..d.value] else b
  }

  /** `os.path.splitext(os.path.basename(path))[0]`. */
  function ScriptName(path: string): string {
    Stem(Basename(path))
  }

  /** The basename of a joined path is the name joined. */
  lemma {:induction false} BasenameOfJoin(dir: string, name: string)
    requires '/' !in name
    ensures Basename(Join(dir, name)) == name
    decreases |name|
  {
    if name != [] {
      var init := name[..|name| - 1];
      var p := Join(dir, name);
      assert p[..|p| - 1] == Join(dir, init);
      BasenameOfJoin(dir, init);
      assert init + [name[|name| - 1]] == name;
    } else {
      assert Join(dir, name) == [] || Join(dir, name)[|Join(dir, name)| - 1] == '/';
    }
  }

  /** A script name is the file name without `.arc`, dots inside the
      name included. */
  lemma StemOfArc(name: string)
    requires name != [] && name[0] != '.'
    ensures Stem(name + ".arc") == name
  {
    var b := name + ".arc";
    var n := |name|;
    assert b[..n + 3][..n + 2] == b[..n + 2] && b[..n + 2][..n + 1] == b[..n + 1];
    assert LastDot(b[..n + 1]) == Some(n);
    assert LastDot(b[..n + 2]) == Some(n);
    assert LastDot(b[..n + 3]) == Some(n);
    assert b[..n + 3] == b[..|b| - 1];
    assert LastDot(b) == Some(n);
    assert b[..n] == name;
  }

  /** A name without a dot is its own stem: `arcfile` is `arcfile`. */
  lemma StemPlain(name: string)
    requires '.' !in name
    ensures Stem(name) == name
  {
  }

  /** A name whose only dot leads it has no extension. */
  lemma StemDotfile()
    ensures Stem(".arc") == ".arc"
  {
    assert LastDot(".arc") == Some(0);
  }

  // ---------------------------------------------------------------------
  // Scanning
  // ---------------------------------------------------------------------

  /** 255 when "negative" occurs in the lowercased content, 0 otherwise. */
  function Expected(content: string): (r: int)
    ensures r == 255 || r == 0
    ensures r == 255 <==> Support.Contains(Support.Fold(content), "negative")
  {
    if Support.Contains(Support.Fold(content), "negative") then 255 else 0
  }

  /** The test a readable file makes. */
  function TestOf(dir: string, f: File): Test
    requires f.content.Some?
  {
    var path := Join(dir, f.name);
    Test(path, ScriptName(path), Expected(f.content.value))
  }

  /** The test file f of directory dir makes, if any: a candidate that
      can be read. */
  function Made(dir: string, f: File): Option<Test> {
    if IsCandidate(f.name) && f.content.Some? then Some(TestOf(dir, f)) else None
  }

  /** File f of directory dir makes test t. */
  predicate Yields(dir: string, f: File, t: Test) {
    Made(dir, f) == Some(t)
  }

  /** The tests `make` gives for the files, in file order. */
  function Collect(files: seq<File>, make: File -> Option<Test>): seq<Test> {
    if files == [] then []
    else
      var m := make(files[|files| - 1]);
      Collect(files[..|files| - 1], make) + (if m.Some? then [m.value] else [])
  }

  /** The tests of one directory, in the order of its files. */
  function FoundIn(dir: string, files: seq<File>): seq<Test> {
    Collect(files, f => Made(dir, f))
  }

  /** The tests of the walk, directory after directory. */
  function Found(walk: seq<Dir>): seq<Test> {
    if walk == [] then [] else Found(walk[..|walk| - 1]) + FoundIn(walk[|walk| - 1].path, walk[|walk| - 1].files)
  }

  /** `[t for t in tests if t.script == "arcfile"]`. */
  function Arcfiles(tests: seq<Test>): seq<Test> {
    if tests == [] then []
    else (if tests[0].script == "arcfile" then [tests[0]] else []) + Arcfiles(tests[1..])
  }

  /** What `scan_arc_tests` returns: the first test named `arcfile` alone
      if there is one, all tests otherwise. */
  function Scan(walk: seq<Dir>): seq<Test> {
    var found := Found(walk);
    var arcfiles := Arcfiles(found);
    if arcfiles != [] then [arcfiles[0]] else found
  }

  /** The collected tests are exactly those some file gives. */
  lemma {:induction false} CollectSpec(files: seq<File>, make: File -> Option<Test>, t: Test)
    ensures t in Collect(files, make) <==> exists j :: 0 <= j < |files| && make(files[j]) == Some(t)
  {
    if files != [] {
      var n := |files| - 1;
      var init := files[..n];
      var m := make(files[n]);
      var last := if m.Some? then [m.value] else [];
      assert Collect(files, make) == Collect(init, make) + last;
      CollectSpec(init, make, t);
      if t in Collect(init, make) {
        var j :| 0 <= j < |init| && make(init[j]) == Some(t);
        assert init[j] == files[j];
      }
      if exists j :: 0 <= j < |files| && make(files[j]) == Some(t) {
        var j :| 0 <= j < |files| && make(files[j]) == Some(t);
        if j < n {
          assert init[j] == files[j];
        }
      }
    }
  }

  /** A directory's tests are exactly those its readable candidate files
      make. */
  lemma FoundInSpec(dir: string, files: seq<File>, t: Test)
    ensures t in FoundIn(dir, files) <==> exists j :: 0 <= j < |files| && Yields(dir, files[j], t)
  {
    CollectSpec(files, f => Made(dir, f), t);
  }

  /** The walk's tests are exactly the tests of its directories; with
      `FoundInSpec`, those its readable candidate files make. */
  lemma {:induction false} FoundSpec(walk: seq<Dir>, t: Test)
    ensures t in Found(walk) <==> exists i :: 0 <= i < |walk| && t in FoundIn(walk[i].path, walk[i].files)
  {
    if walk != [] {
      var n := |walk| - 1;
      var init := walk[..n];
      assert Found(walk) == Found(init) + FoundIn(walk[n].path, walk[n].files);
      FoundSpec(init, t);
      if t in Found(init) {
        var i :| 0 <= i < |init| && t in FoundIn(init[i].path, init[i].files);
        assert init[i] == walk[i];
      }
      if exists i :: 0 <= i < |walk| && t in FoundIn(walk[i].path, walk[i].files) {
        var i :| 0 <= i < |walk| && t in FoundIn(walk[i].path, walk[i].files);
        if i < n {
          assert init[i] == walk[i];
        }
      }
    }
  }

  /** The comprehension is empty iff no test is named `arcfile`, and its
      head is the first test that is. */
  lemma {:induction false} ArcfilesFirst(tests: seq<Test>)
    ensures Arcfiles(tests) == [] <==> forall i :: 0 <= i < |tests| ==> tests[i].script != "arcfile"
    ensures Arcfiles(tests) != [] ==>
      exists k :: 0 <= k < |tests| && tests[k] == Arcfiles(tests)[0] && tests[k].script == "arcfile"
        && forall i :: 0 <= i < k ==> tests[i].script != "arcfile"
  {
    if tests != [] {
      ArcfilesFirst(tests[1..]);
      if tests[0].script != "arcfile" {
        if Arcfiles(tests) != [] {
          var k :| 0 <= k < |tests[1..]| && tests[1..][k] == Arcfiles(tests[1..])[0] && tests[1..][k].script == "arcfile"
            && forall i :: 0 <= i < k ==> tests[1..][i].script != "arcfile";
          assert tests[k + 1] == Arcfiles(tests)[0];
          assert forall i :: 0 <= i < k + 1 ==> tests[i].script != "arcfile" by {
            forall i | 0 <= i < k + 1
              ensures tests[i].script != "arcfile"
            {
              if i > 0 {
                assert tests[i] == tests[1..][i - 1];
              }
            }
          }
        } else {
          forall i | 0 <= i < |tests|
            ensures tests[i].script != "arcfile"
          {
            if i > 0 {
              assert tests[i] == tests[1..][i - 1];
            }
          }
        }
      }
    }
  }

  /** `scan_arc_tests`: with a test named `arcfile` the result is the first
      one alone; otherwise the result is every test the walk makes. */
  lemma ScanSpec(walk: seq<Dir>)
    ensures (exists i :: 0 <= i < |Found(walk)| && Found(walk)[i].script == "arcfile") ==>
      exists k :: 0 <= k < |Found(walk)| && Scan(walk) == [Found(walk)[k]] && Found(walk)[k].script == "arcfile"
        && forall i :: 0 <= i < k ==> Found(walk)[i].script != "arcfile"
    ensures (forall i :: 0 <= i < |Found(walk)| ==> Found(walk)[i].script != "arcfile") ==> Scan(walk) == Found(walk)
  {
    ArcfilesFirst(Found(walk));
  }

  /** One more file of the directory adds the test it makes, if any. */
  lemma FoundInStep(dir: string, files: seq<File>, j: nat)
    requires j < |files|
    ensures var m := Made(dir, files[j]);
            FoundIn(dir, files[..j + 1]) == FoundIn(dir, files[..j]) + (if m.Some? then [m.value] else [])
  {
    assert files[..j + 1][..j] == files[..j];
  }

  /** The inner loop of `scan_arc_tests`: the tests of one directory's
      files are appended in file order. */
  method ScanDir(dir: Dir, tests: seq<Test>) returns (r: seq<Test>)
    ensures r == tests + FoundIn(dir.path, dir.files)
  {
    r := tests;
    var j := 0;
    while j < |dir.files|
      invariant j <= |dir.files| && r == tests + FoundIn(dir.path, dir.files[..j])
    {
      var f := dir.files[j];
      ghost var m := Made(dir.path, f);
      FoundInStep(dir.path, dir.files, j);
      if IsCandidate(f.name) && f.content.Some? {
        var path := Join(dir.path, f.name);
        var expected := 0;
        if Support.Contains(Support.Fold(f.content.value), "negative") {
          expected := 255;
        }
        assert Test(path, ScriptName(path), expected) == m.value;
        r := r + [Test(path, ScriptName(path), expected)];
      }
      j := j + 1;
    }
    assert dir.files[..j] == dir.files;
  }

  /** `scan_arc_tests`: every readable candidate file of the walk makes a
      test, in walk order; then the `arcfile` override. */
  method ScanArcTests(walk: seq<Dir>) returns (tests: seq<Test>)
    ensures tests == Scan(walk)
  {
    tests := [];
    var i := 0;
    while i < |walk|
      invariant i <= |walk| && tests == Found(walk[..i])
    {
      assert walk[..i + 1][..i] == walk[..i];
      tests := ScanDir(walk[i], tests);
      i := i + 1;
    }
    assert walk[..i] == walk;
    var arcfileTests := Arcfiles(tests);
    if arcfileTests != [] {
      tests := [arcfileTests[0]];
    }
  }

  // ---------------------------------------------------------------------
  // Order
  // ---------------------------------------------------------------------

  /** The sort key `(expected_result, path)`, compared as Python compares
      tuples: by expected result, then by path. */
  predicate KeyLe(a: Test, b: Test) {
    || a.expectedResult < b.expectedResult
    || (a.expectedResult == b.expectedResult && (a.path == b.path || Less(a.path, b.path)))
  }

  predicate Sorted(s: seq<Test>) {
    forall i, j :: 0 <= i < j < |s| ==> KeyLe(s[i], s[j])
  }

  lemma KeyLeTransitive(a: Test, b: Test, c: Test)
    requires KeyLe(a, b) && KeyLe(b, c)
    ensures KeyLe(a, c)
  {
    if a.expectedResult == b.expectedResult == c.expectedResult && a.path != b.path && b.path != c.path {
      LessTransitive(a.path, b.path, c.path);
    }
  }

  lemma KeyLeTotal(a: Test, b: Test)
    ensures KeyLe(a, b) || KeyLe(b, a)
  {
    LessTotal(a.path, b.path);
  }

  /** One insertion: `t` goes after every test whose key is not above
      its own. */
  method Insert(sorted: seq<Test>, t: Test) returns (r: seq<Test>)
    requires Sorted(sorted)
    ensures Sorted(r) && multiset(r) == multiset(sorted) + multiset{t}
  {
    var k := 0;
    while k < |sorted| && KeyLe(sorted[k], t)
      invariant k <= |sorted|
      invariant forall j :: 0 <= j < k ==> KeyLe(sorted[j], t)
    {
      k := k + 1;
    }
    if k < |sorted| {
      KeyLeTotal(sorted[k], t);
    }
    r := sorted[..k] + [t] + sorted[k..];
    forall i, j | 0 <= i < j < |r|
      ensures KeyLe(r[i], r[j])
    {
      if j < k || i > k {
      } else if i < k && j == k {
      } else if i < k {
        KeyLeTransitive(r[i], t, sorted[k]);
        KeyLeTransitive(r[i], sorted[k], r[j]);
      } else if j > k + 0 {
        assert r[j] == sorted[j - 1];
        if j - 1 > k {
          KeyLeTransitive(t, sorted[k], sorted[j - 1]);
        }
      }
    }
    assert sorted == sorted[..k] + sorted[k..];
  }

  /** `tests.sort(key=lambda t: (t.expected_result, t.path))`: ascending by
      key, the same tests. */
  method SortTests(tests: seq<Test>) returns (s: seq<Test>)
    ensures Sorted(s) && multiset(s) == multiset(tests)
  {
    s := [];
    var i := 0;
    while i < |tests|
      invariant i <= |tests| && Sorted(s) && multiset(s) == multiset(tests[..i])
    {
      s := Insert(s, tests[i]);
      assert tests[..i + 1] == tests[..i] + [tests[i]];
      i := i + 1;
    }
    assert tests[..i] == tests;
  }

  // ---------------------------------------------------------------------
  // Tally
  // ---------------------------------------------------------------------

  /** The number of tests whose exit code is the expected one. */
  function Passes(tests: seq<Test>, code: Test -> int): (n: nat)
    ensures n <= |tests|
  {
    if tests == [] then 0
    else Passes(tests[..|tests| - 1], code) + (if code(tests[|tests| - 1]) == tests[|tests| - 1].expectedResult then 1 else 0)
  }

  lemma {:induction false} PassesAppend(a: seq<Test>, b: seq<Test>, code: Test -> int)
    ensures Passes(a + b, code) == Passes(a, code) + Passes(b, code)
    decreases |b|
  {
    if b != [] {
      var init := b[..|b| - 1];
      PassesAppend(a, init, code);
      assert (a + b)[..|a + b| - 1] == a + init;
      assert (a + b)[|a + b| - 1] == b[|b| - 1];
    } else {
      assert a + b == a;
    }
  }

  /** The tally does not depend on the order the tests run in. */
  lemma {:induction false} PassesPermutation(s: seq<Test>, t: seq<Test>, code: Test -> int)
    requires multiset(s) == multiset(t)
    ensures Passes(s, code) == Passes(t, code)
    decreases |s|
  {
    if s != [] {
      var x := s[|s| - 1];
      var init := s[..|s| - 1];
      assert s == init + [x];
      assert x in multiset(t);
      var i :| 0 <= i < |t| && t[i] == x;
      var rest := t[..i] + t[i + 1..];
      assert t == t[..i] + [x] + t[i + 1..];
      assert multiset(t) == multiset(t[..i]) + multiset{x} + multiset(t[i + 1..]);
      assert multiset(s) == multiset(init) + multiset{x};
      assert multiset(rest) == multiset(t[..i]) + multiset(t[i + 1..]);
      assert multiset(rest) == multiset(t) - multiset{x};
      assert multiset(init) == multiset(s) - multiset{x};
      PassesPermutation(init, rest, code);
      PassesAppend(t[..i] + [x], t[i + 1..], code);
      PassesAppend(t[..i], [x], code);
      PassesAppend(t[..i], t[i + 1..], code);
    }
  }

  /** The loop of `exec_tests`: one more passed or failed per test. */
  method Tally(tests: seq<Test>, code: Test -> int) returns (passed: nat, failed: nat)
    ensures passed == Passes(tests, code) && passed + failed == |tests|
  {
    passed, failed := 0, 0;
    var i := 0;
    while i < |tests|
      invariant i <= |tests| && passed == Passes(tests[..i], code) && passed + failed == i
    {
      assert tests[..i + 1][..i] == tests[..i];
      if code(tests[i]) == tests[i].expectedResult {
        passed := passed + 1;
      } else {
        failed := failed + 1;
      }
      i := i + 1;
    }
    assert tests[..i] == tests;
  }

  /** `exec_tests`: the tests run in key order; `passed` counts those that
      exit with the expected code, `failed` the others. */
  method ExecTests(tests: seq<Test>, code: Test -> int) returns (order: seq<Test>, passed: nat, failed: nat)
    ensures Sorted(order) && multiset(order) == multiset(tests)
    ensures passed == Passes(tests, code) && passed + failed == |tests|
  {
    order := SortTests(tests);
    passed, failed := Tally(order, code);
    PassesPermutation(order, tests, code);
    assert |order| == |multiset(order)| == |multiset(tests)| == |tests|;
  }

  // ---------------------------------------------------------------------
  // Campaigns
  // ---------------------------------------------------------------------

  const Campaigns: seq<string> := ["statement", "variable", "task", "project"]

  datatype Summary = Summary(passed: nat, failed: nat)

  /** The P/F rate of the summary, in percent. */
  function Rate(s: Summary): (r: real)
    requires s.passed + s.failed > 0
    ensures 0.0 <= r <= 100.0
    ensures s.failed == 0 ==> r == 100.0
  {
    var total := (s.passed + s.failed) as real;
    assert s.passed as real <= total;
    (100.0 * s.passed as real) / total
  }

  /** One campaign: the summary exists only when the scan found a test, so
      the rate is always defined. */
  method RunCampaign(walk: seq<Dir>, code: Test -> int) returns (summary: Option<Summary>)
    ensures summary.None? <==> Scan(walk) == []
    ensures summary.Some? ==> summary.value.passed + summary.value.failed == |Scan(walk)| > 0
    ensures summary.Some? ==> summary.value.passed == Passes(Scan(walk), code)
  {
    var tests := ScanArcTests(walk);
    if |tests| > 0 {
      var order, passed, failed := ExecTests(tests, code);
      summary := Some(Summary(passed, failed));
    } else {
      summary := None;
    }
  }

  /** What a campaign's run reports for its tests: no summary for an empty
      campaign, otherwise every test counted once and the passes counted
      by exit code. */
  ghost predicate Reports(summary: Option<Summary>, tests: seq<Test>, code: Test -> int) {
    (summary.None? <==> tests == [])
    && (summary.Some? ==> summary.value.passed + summary.value.failed == |tests|
                          && summary.value.passed == Passes(tests, code))
  }

  /** The four campaigns in turn, each scanned from `../<campaign>`. */
  method RunAll(walkOf: string -> seq<Dir>, code: Test -> int) returns (summaries: seq<Option<Summary>>)
    ensures |summaries| == |Campaigns|
    ensures forall i :: 0 <= i < |Campaigns| ==> Reports(summaries[i], Scan(walkOf("../" + Campaigns[i])), code)
  {
    summaries := [];
    var i := 0;
    while i < |Campaigns|
      invariant i <= |Campaigns| && |summaries| == i
      invariant forall k :: 0 <= k < i ==> Reports(summaries[k], Scan(walkOf("../" + Campaigns[k])), code)
    {
      var summary := RunCampaign(walkOf("../" + Campaigns[i]), code);
      summaries := summaries + [summary];
      i := i + 1;
    }
  }

  // ---------------------------------------------------------------------
  // ANSI escapes
  // ---------------------------------------------------------------------

  const Esc: char := '\U{1B}'

  predicate IsParam(c: char) { '0' <= c <= '?' }
  predicate IsInter(c: char) { ' ' <= c <= '/' }
  predicate IsFinal(c: char) { '@' <= c <= '~' }

  /** The text `ANSI_ESCAPE` matches: ESC '[', parameter bytes, then
      intermediate bytes, then one final byte. */
  predicate IsCsi(w: string) {
    && |w| >= 3 && w[0] == Esc && w[1] == '[' && IsFinal(w[|w| - 1])
    && (exists p {:trigger w[p]} :: 2 <= p <= |w| - 1
         && (forall k :: 2 <= k < p ==> IsParam(w[k]))
         && (forall k :: p <= k < |w| - 1 ==> IsInter(w[k])))
  }

  /** The end of the run of parameter bytes from i. */
  function ParamEnd(s: string, i: nat): (j: nat)
    requires i <= |s|
    ensures i <= j <= |s| && (j < |s| ==> !IsParam(s[j]))
    ensures forall k :: i <= k < j ==> IsParam(s[k])
    decreases |s| - i
  {
    if i < |s| && IsParam(s[i]) then ParamEnd(s, i + 1) else i
  }

  /** The end of the run of intermediate bytes from i. */
  function InterEnd(s: string, i: nat): (j: nat)
    requires i <= |s|
    ensures i <= j <= |s| && (j < |s| ==> !IsInter(s[j]))
    ensures forall k :: i <= k < j ==> IsInter(s[k])
    decreases |s| - i
  {
    if i < |s| && IsInter(s[i]) then InterEnd(s, i + 1) else i
  }

  /** The length of the match at the start of s, 0 when there is none.
      The three byte classes are disjoint, so the greedy runs leave no
      other way to match. */
  function CsiLength(s: string): (n: nat)
    ensures n <= |s|
  {
    if 1 < |s| && s[0] == Esc && s[1] == '[' then
      var q := InterEnd(s, ParamEnd(s, 2));
      if q < |s| && IsFinal(s[q]) then q + 1 else 0
    else 0
  }

  /** A match at the start of s exists iff `CsiLength` is positive, and
      then it has exactly that length. */
  lemma CsiLengthSpec(s: string, n: nat)
    requires n <= |s|
    ensures IsCsi(s[..n]) <==> n > 0 && n == CsiLength(s)
  {
    if IsCsi(s[..n]) {
      CsiUnique(s, n);
    }
    if n > 0 && n == CsiLength(s) {
      CsiFound(s);
    }
  }

  lemma CsiFound(s: string)
    requires CsiLength(s) > 0
    ensures IsCsi(s[..CsiLength(s)])
  {
    var n := CsiLength(s);
    var w := s[..n];
    var p := ParamEnd(s, 2);
    assert InterEnd(s, p) == n - 1;
    assert forall k :: 2 <= k < p ==> IsParam(w[k]);
    assert forall k :: p <= k < n - 1 ==> IsInter(w[k]);
    assert w[p] == s[p];
  }

  /** The run of parameter bytes from i ends at the first other byte. */
  lemma {:induction false} ParamEndAt(s: string, i: nat, j: nat)
    requires i <= j < |s| && !IsParam(s[j])
    requires forall k :: i <= k < j ==> IsParam(s[k])
    ensures ParamEnd(s, i) == j
    decreases j - i
  {
    if i < j {
      ParamEndAt(s, i + 1, j);
    }
  }

  /** The run of intermediate bytes from i ends at the first other byte. */
  lemma {:induction false} InterEndAt(s: string, i: nat, j: nat)
    requires i <= j < |s| && !IsInter(s[j])
    requires forall k :: i <= k < j ==> IsInter(s[k])
    ensures InterEnd(s, i) == j
    decreases j - i
  {
    if i < j {
      InterEndAt(s, i + 1, j);
    }
  }

  /** A match at the start of s, read on s itself: where its parameter
      bytes end, and the bytes around them. */
  lemma CsiRuns(s: string, n: nat) returns (p: nat)
    requires n <= |s| && IsCsi(s[..n])
    ensures 2 <= p < n && s[0] == Esc && s[1] == '[' && IsFinal(s[n - 1])
    ensures forall k :: 2 <= k < p ==> IsParam(s[k])
    ensures forall k :: p <= k < n - 1 ==> IsInter(s[k])
  {
    var w := s[..n];
    p :| 2 <= p <= |w| - 1 && (forall k :: 2 <= k < p ==> IsParam(w[k])) && (forall k :: p <= k < |w| - 1 ==> IsInter(w[k]));
    forall k | 2 <= k < p
      ensures IsParam(s[k])
    {
      assert w[k] == s[k];
    }
    forall k | p <= k < n - 1
      ensures IsInter(s[k])
    {
      assert w[k] == s[k];
    }
    assert w[0] == s[0] && w[1] == s[1] && w[n - 1] == s[n - 1];
  }

  lemma CsiUnique(s: string, n: nat)
    requires n <= |s| && IsCsi(s[..n])
    ensures n == CsiLength(s)
  {
    var p := CsiRuns(s, n);
    ParamEndAt(s, 2, p);
    InterEndAt(s, p, n - 1);
    CsiLengthOf(s, p, n);
  }

  /** `CsiLength` from where the two runs end. */
  lemma CsiLengthOf(s: string, p: nat, n: nat)
    requires 2 <= p < n <= |s| && s[0] == Esc && s[1] == '[' && IsFinal(s[n - 1])
    requires ParamEnd(s, 2) == p && InterEnd(s, p) == n - 1
    ensures CsiLength(s) == n
  {
  }

  /** `ANSI_ESCAPE.sub('', s)`: scanning left to right, a match is dropped
      whole and any other character is kept. */
  function Strip(s: string): string
    decreases |s|
  {
    if s == [] then []
    else
      var n := CsiLength(s);
      if n > 0 then Strip(s[n..]) else [s[0]] + Strip(s[1..])
  }

  /** `a` is `b` with some characters deleted. */
  predicate Subsequence(a: string, b: string)
    decreases |b|
  {
    if a == [] then true
    else if b == [] then false
    else (a[0] == b[0] && Subsequence(a[1..], b[1..])) || Subsequence(a, b[1..])
  }

  lemma {:induction false} SubsequenceDrop(a: string, b: string, k: nat)
    requires k <= |b| && Subsequence(a, b[k..])
    ensures Subsequence(a, b)
    decreases k
  {
    if k > 0 {
      assert b[1..][k - 1..] == b[k..];
      SubsequenceDrop(a, b[1..], k - 1);
    }
  }

  /** Stripping keeps the other characters, in order. */
  lemma {:induction false} StripKeepsOrder(s: string)
    ensures Subsequence(Strip(s), s)
    decreases |s|
  {
    if s != [] {
      var n := CsiLength(s);
      if n > 0 {
        StripKeepsOrder(s[n..]);
        SubsequenceDrop(Strip(s[n..]), s, n);
      } else {
        StripKeepsOrder(s[1..]);
      }
    }
  }

  /** A whole escape at the front is dropped. */
  lemma StripEscape(e: string, rest: string)
    requires IsCsi(e)
    ensures Strip(e + rest) == Strip(rest)
  {
    var s := e + rest;
    assert s[..|e|] == e;
    CsiLengthSpec(s, |e|);
    assert s[|e|..] == rest;
  }

  /** Text without ESC in front of the rest is kept as it is. */
  lemma {:induction false} StripPlain(a: string, rest: string)
    requires Esc !in a
    ensures Strip(a + rest) == a + Strip(rest)
    decreases |a|
  {
    if a != [] {
      var s := a + rest;
      assert s[0] == a[0] != Esc;
      assert s[1..] == a[1..] + rest;
      StripPlain(a[1..], rest);
      assert a == [a[0]] + a[1..];
    } else {
      assert a + rest == rest;
    }
  }

  /** The select-graphic-rendition escape with the given parameters. */
  function Sgr(params: string): string {
    [Esc, '['] + params + "m"
  }

  lemma SgrIsCsi(params: string)
    requires forall k :: 0 <= k < |params| ==> IsParam(params[k])
    ensures IsCsi(Sgr(params))
  {
    var w := Sgr(params);
    var p := |params| + 2;
    assert w[p] == 'm';
    forall k | 2 <= k < p
      ensures IsParam(w[k])
    {
      assert w[k] == params[k - 2];
    }
  }

  /** The labels `run_test` prints: dim, then the colour, the text, and a
      reset; `Label("32", "POSITIVE")` and `Label("31", "NEGATIVE")`. */
  function Label(colour: string, text: string): string {
    Sgr("2") + Sgr(colour) + text + Sgr("0")
  }

  /** A label loses its colours and keeps its text. */
  lemma StripLabel(colour: string, text: string)
    requires forall k :: 0 <= k < |colour| ==> IsParam(colour[k])
    requires Esc !in text
    ensures Strip(Label(colour, text)) == text
  {
    var dim, paint, reset := Sgr("2"), Sgr(colour), Sgr("0");
    SgrIsCsi("2");
    SgrIsCsi(colour);
    SgrIsCsi("0");
    assert Label(colour, text) == dim + (paint + (text + (reset + [])));
    StripEscape(dim, paint + (text + (reset + [])));
    StripEscape(paint, text + (reset + []));
    StripPlain(text, reset + []);
    StripEscape(reset, []);
    assert text + [] == text;
  }
}
