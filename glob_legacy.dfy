/** The older glob engine (src/common/GLob.cpp) where its code differs from
    the current one: `MatchSegmentAtoms` fills the whole (A + 1) x (N + 1)
    table, `MapGlobToGlob` takes one source glob and maps every source in
    order, and `Expand` clears its output first. Parsing, capture and
    instantiation are the same code as in the current engine and use the
    members of `GlobPattern` and `GlobCapture`. */
module GlobLegacy {
  import opened GlobPattern
  import opened GlobMatch
  import opened GlobCapture
  import opened StringOrder

  // ---------------------------------------------------------------------
  // What a table cell means
  // ---------------------------------------------------------------------

  lemma StepPrefix(a: Atom, name: string, limit: nat, j: nat, k: nat)
    requires k <= limit <= |name|
    ensures Step(a, name, j, k) == Step(a, name[..limit], j, k)
  {
    if j <= k {
      assert name[..limit][j..k] == name[j..k];
      if j < k {
        assert name[..limit][j] == name[j];
      }
    }
  }

  /** Reaching (i, k) only looks at the atoms before i and the characters
      before k. */
  lemma {:induction false} ReachPrefix(atoms: seq<Atom>, name: string, upI: nat, upK: nat, i: nat, k: nat)
    requires i <= upI <= |atoms| && k <= upK <= |name|
    ensures Reach(atoms, name, i, k) == Reach(atoms[..upI], name[..upK], i, k)
    decreases i, 1, 0
  {
    if i > 0 {
      ReachBelowPrefix(atoms, name, upI, upK, i - 1, k, k + 1);
    }
  }

  lemma {:induction false} ReachBelowPrefix(atoms: seq<Atom>, name: string, upI: nat, upK: nat, a: nat, k: nat, upto: nat)
    requires a < upI <= |atoms| && k <= upK <= |name| && upto <= k + 1
    ensures ReachBelow(atoms, name, a, k, upto) == ReachBelow(atoms[..upI], name[..upK], a, k, upto)
    decreases a + 1, 0, upto
  {
    if upto > 0 {
      ReachBelowPrefix(atoms, name, upI, upK, a, k, upto - 1);
      ReachPrefix(atoms, name, upI, upK, a, upto - 1);
      assert atoms[..upI][a] == atoms[a];
      StepPrefix(atoms[a], name, upK, upto - 1, k);
    }
  }

  /** dp[i][j] holds iff the first i atoms match the first j characters. */
  lemma TableMeaning(atoms: seq<Atom>, name: string, i: nat, j: nat)
    requires i <= |atoms| && j <= |name|
    ensures Reach(atoms, name, i, j) <==> Matches(Segment(atoms[..i]), name[..j])
  {
    ReachPrefix(atoms, name, i, j, i, j);
    ReachMatches(Segment(atoms[..i]), name[..j]);
  }

  /** After a STAR, every position from a reached position on is reached. */
  lemma StarReachesOnward(atoms: seq<Atom>, name: string, i: nat, j: nat, k: nat)
    requires i < |atoms| && atoms[i].Star? && Reach(atoms, name, i, j) && j <= k <= |name|
    ensures Reach(atoms, name, i + 1, k)
  {
    assert Step(atoms[i], name, j, k);
    ReachBelowWitness(atoms, name, i, k, k + 1);
  }

  // ---------------------------------------------------------------------
  // The full table
  // ---------------------------------------------------------------------

  /** Row i of the table holds `Reach` and row i + 1 is still untouched. */
  ghost predicate ReadyFor(dp: array2<bool>, atoms: seq<Atom>, name: string, i: nat)
    reads dp
  {
    dp.Length0 == |atoms| + 1 && dp.Length1 == |name| + 1 && i < |atoms|
    && (forall k :: 0 <= k <= |name| ==> dp[i, k] == Reach(atoms, name, i, k))
    && (forall q, k :: q == i + 1 && 0 <= k <= |name| ==> !dp[q, k])
  }

  /** Only row i + 1 changed. */
  twostate predicate OnlyRow(dp: array2<bool>, r: nat)
    reads dp
  {
    forall q, k :: 0 <= q < dp.Length0 && 0 <= k < dp.Length1 && q != r ==> dp[q, k] == old(dp[q, k])
  }

  /** The LITERAL row: dp[i + 1][j + |lit|] for every reached j the literal
      fits at. */
  method FillLiteral(dp: array2<bool>, atoms: seq<Atom>, name: string, i: nat)
    requires ReadyFor(dp, atoms, name, i) && atoms[i].Literal?
    modifies dp
    ensures OnlyRow(dp, i + 1)
    ensures forall q, k :: q == i + 1 && 0 <= k <= |name| ==> dp[q, k] == Reach(atoms, name, q, k)
  {
    var lit := atoms[i].text;
    var n := |name|;
    var j := 0;
    while j <= n
      invariant 0 <= j <= n + 1
      invariant OnlyRow(dp, i + 1)
      invariant forall q, k :: q == i + 1 && 0 <= k <= n ==> dp[q, k] == ReachBelow(atoms, name, i, k, j)
    {
      if !dp[i, j] {
        j := j + 1;
        continue;
      }
      if j + |lit| <= n && name[j..j + |lit|] == lit {
        dp[i + 1, j + |lit|] := true;
      }
      j := j + 1;
    }
    forall q, k | q == i + 1 && 0 <= k <= n
      ensures dp[q, k] == Reach(atoms, name, q, k)
    {
      ReachBelowSaturates(atoms, name, i, k, n + 1);
    }
  }

  /** The QMARK and CHARCLASS rows: dp[i + 1][j + 1] for every reached j
      whose character the atom takes. */
  method FillOneChar(dp: array2<bool>, atoms: seq<Atom>, name: string, i: nat)
    requires ReadyFor(dp, atoms, name, i) && (atoms[i].QMark? || atoms[i].Class?)
    modifies dp
    ensures OnlyRow(dp, i + 1)
    ensures forall q, k :: q == i + 1 && 0 <= k <= |name| ==> dp[q, k] == Reach(atoms, name, q, k)
  {
    var n := |name|;
    var j := 0;
    while j < n
      invariant 0 <= j <= n
      invariant OnlyRow(dp, i + 1)
      invariant forall q, k :: q == i + 1 && 0 <= k <= n ==> dp[q, k] == ReachBelow(atoms, name, i, k, j)
    {
      if atoms[i].QMark? {
        if dp[i, j] {
          dp[i + 1, j + 1] := true;
        }
      } else {
        if dp[i, j] {
          var hit := CharClassMatch(atoms[i].cls, name[j]);
          if hit {
            dp[i + 1, j + 1] := true;
          }
        }
      }
      j := j + 1;
    }
    forall q, k | q == i + 1 && 0 <= k <= n
      ensures dp[q, k] == Reach(atoms, name, q, k)
    {
      assert dp[q, k] == ReachBelow(atoms, name, i, k, n + 1);
      ReachBelowSaturates(atoms, name, i, k, n + 1);
    }
  }

  /** The STAR row: from every reached j, dp[i + 1][j] and every
      dp[i + 1][k + 1] with j <= k < N. */
  method FillStar(dp: array2<bool>, atoms: seq<Atom>, name: string, i: nat)
    requires ReadyFor(dp, atoms, name, i) && atoms[i].Star?
    modifies dp
    ensures OnlyRow(dp, i + 1)
    ensures forall q, k :: q == i + 1 && 0 <= k <= |name| ==> dp[q, k] == Reach(atoms, name, q, k)
  {
    var n := |name|;
    var j := 0;
    while j <= n
      invariant 0 <= j <= n + 1
      invariant OnlyRow(dp, i + 1)
      invariant forall r, q :: r == i + 1 && 0 <= q <= n ==> dp[r, q] == AnyReach(atoms, name, i, if j <= q then j else q + 1)
    {
      if dp[i, j] {
        dp[i + 1, j] := true;
        var k := j;
        while k < n
          invariant j <= k <= n
          invariant OnlyRow(dp, i + 1)
          invariant forall r, q :: r == i + 1 && 0 <= q <= n ==>
                      dp[r, q] == (AnyReach(atoms, name, i, if j <= q then j else q + 1) || j <= q <= k)
        {
          dp[i + 1, k + 1] := true;
          k := k + 1;
        }
      }
      forall r, q | r == i + 1 && 0 <= q <= n
        ensures dp[r, q] == AnyReach(atoms, name, i, if j + 1 <= q then j + 1 else q + 1)
      {
        assert AnyReach(atoms, name, i, j + 1) == (AnyReach(atoms, name, i, j) || Reach(atoms, name, i, j));
      }
      j := j + 1;
    }
    forall q, k | q == i + 1 && 0 <= k <= n
      ensures dp[q, k] == Reach(atoms, name, q, k)
    {
      StarReachBelow(atoms, name, i, k, k + 1);
    }
  }

  /** The table rows 0..i hold `Reach`, the later rows are untouched. */
  ghost predicate FilledUpTo(dp: array2<bool>, atoms: seq<Atom>, name: string, i: nat)
    reads dp
  {
    dp.Length0 == |atoms| + 1 && dp.Length1 == |name| + 1 && i <= |atoms|
    && (forall r, k :: 0 <= r <= i && 0 <= k <= |name| ==> dp[r, k] == Reach(atoms, name, r, k))
    && (forall r, k :: i < r <= |atoms| && 0 <= k <= |name| ==> !dp[r, k])
  }

  /** `MatchSegmentAtoms`, full-table form: dp[A][N], and a DOUBLESTAR atom
      fails the match. */
  method MatchSegmentAtomsTable(seg: Segment, name: string) returns (m: bool)
    ensures m == Matches(seg, name)
  {
    var atoms := seg.atoms;
    var n := |name|;
    var dp := new bool[|atoms| + 1, n + 1]((_, _) => false);
    dp[0, 0] := true;
    var i := 0;
    while i < |atoms|
      invariant FilledUpTo(dp, atoms, name, i)
    {
      var a := atoms[i];
      if a.DoubleStar? {
        DoubleStarNeverMatches(seg, name, i);
        return false;
      }
      if a.Literal? {
        FillLiteral(dp, atoms, name, i);
      } else if a.QMark? || a.Class? {
        FillOneChar(dp, atoms, name, i);
      } else {
        FillStar(dp, atoms, name, i);
      }
      i := i + 1;
    }
    ReachMatches(seg, name);
    return dp[|atoms|, n];
  }

  // ---------------------------------------------------------------------
  // MapGlobToGlob, one source glob
  // ---------------------------------------------------------------------

  datatype StrictOutcome =
    | StrictOk(out: seq<string>)
    | StrictFromError(err: ParseError)
    | StrictToError(err: ParseError)
    | StrictNoCapture
    | StrictNoInstance

  /** Sources the older `MapGlobToGlob` can map: each is captured, and no
      capture list recorded on it fails to instantiate. */
  ghost predicate StrictMappable(fromPat: Pattern, toPat: Pattern, srcList: seq<string>) {
    forall s :: s in srcList ==> Captured(fromPat, s) && !Uninstantiable(fromPat, toPat, s)
  }

  /** `MapGlobToGlob` of the older engine: one output per source, in source
      order; the first source that is not captured, or whose captures do not
      instantiate, fails the call. */
  method MapGlobToGlobStrict(fromGlob: string, toGlob: string, srcList: seq<string>)
      returns (outcome: StrictOutcome)
    ensures ParseSpec(fromGlob, DefaultOptions).Failed? ==>
              outcome == StrictFromError(ParseSpec(fromGlob, DefaultOptions).error)
    ensures ParseSpec(fromGlob, DefaultOptions).Ok? && ParseSpec(toGlob, DefaultOptions).Failed? ==>
              outcome == StrictToError(ParseSpec(toGlob, DefaultOptions).error)
    ensures outcome.StrictOk? ==>
              ParseSpec(fromGlob, DefaultOptions).Ok? && ParseSpec(toGlob, DefaultOptions).Ok?
              && |outcome.out| == |srcList|
              && forall k :: 0 <= k < |srcList| ==>
                   Captured(ParseSpec(fromGlob, DefaultOptions).value, srcList[k]) &&
                   MapsTo(ParseSpec(fromGlob, DefaultOptions).value, ParseSpec(toGlob, DefaultOptions).value,
                          srcList[k], outcome.out[k])
    ensures outcome == StrictNoCapture ==>
              exists k :: 0 <= k < |srcList| && !Captured(ParseSpec(fromGlob, DefaultOptions).value, srcList[k])
    ensures outcome == StrictNoInstance ==>
              ParseSpec(fromGlob, DefaultOptions).Ok? && ParseSpec(toGlob, DefaultOptions).Ok?
              && exists s :: s in srcList && Uninstantiable(ParseSpec(fromGlob, DefaultOptions).value,
                                                            ParseSpec(toGlob, DefaultOptions).value, s)
    ensures ParseSpec(fromGlob, DefaultOptions).Ok? && ParseSpec(toGlob, DefaultOptions).Ok?
            && StrictMappable(ParseSpec(fromGlob, DefaultOptions).value, ParseSpec(toGlob, DefaultOptions).value, srcList)
            ==> outcome.StrictOk?
  {
    var fromPat := Parse(fromGlob, DefaultOptions);
    if fromPat.Failed? {
      return StrictFromError(fromPat.error);
    }
    var toPat := Parse(toGlob, DefaultOptions);
    if toPat.Failed? {
      return StrictToError(toPat.error);
    }
    outcome := MapEachSource(fromPat.value, toPat.value, srcList);
  }

  /** The source loop of `MapGlobToGlob`: capture, instantiate, append. */
  method MapEachSource(fromPat: Pattern, toPat: Pattern, srcList: seq<string>) returns (outcome: StrictOutcome)
    ensures outcome.StrictOk? || outcome == StrictNoCapture || outcome == StrictNoInstance
    ensures outcome.StrictOk? ==>
              |outcome.out| == |srcList|
              && forall k :: 0 <= k < |srcList| ==>
                   Captured(fromPat, srcList[k]) && MapsTo(fromPat, toPat, srcList[k], outcome.out[k])
    ensures outcome == StrictNoCapture ==> exists k :: 0 <= k < |srcList| && !Captured(fromPat, srcList[k])
    ensures outcome == StrictNoInstance ==> exists s :: s in srcList && Uninstantiable(fromPat, toPat, s)
    ensures StrictMappable(fromPat, toPat, srcList) ==> outcome.StrictOk?
  {
    var outList: seq<string> := [];
    var i := 0;
    while i < |srcList|
      invariant 0 <= i <= |srcList| && |outList| == i
      invariant forall k :: 0 <= k < i ==> Captured(fromPat, srcList[k])
      invariant forall k :: 0 <= k < i ==> MapsTo(fromPat, toPat, srcList[k], outList[k])
    {
      var ok, caps := MatchCapture(fromPat, srcList[i]);
      if !ok {
        return StrictNoCapture;
      }
      var iok, out := Instantiate(toPat, caps);
      if !iok {
        assert srcList[i] in srcList && Uninstantiable(fromPat, toPat, srcList[i]);
        return StrictNoInstance;
      }
      assert MapsTo(fromPat, toPat, srcList[i], out);
      forall k | 0 <= k < i + 1
        ensures MapsTo(fromPat, toPat, srcList[k], (outList + [out])[k])
      {
        if k < i {
          assert (outList + [out])[k] == outList[k];
        }
      }
      outList := outList + [out];
      i := i + 1;
    }
    return StrictOk(outList);
  }

  // ---------------------------------------------------------------------
  // Expand
  // ---------------------------------------------------------------------

  /** `Expand` of the older engine around the directory walk: the caller's
      vector is cleared first, so what it held before plays no part; when
      the start directory exists, the walk's results are sorted and their
      duplicates dropped. The walk is left out: whether the
      start exists and what the walk finds are parameters. */
  method ExpandLegacy(startExists: bool, found: seq<string>) returns (ok: bool, out: seq<string>)
    ensures ok == startExists
    ensures !ok ==> out == []
    ensures ok ==> StrictlySorted(out) && forall y :: y in out <==> y in found
  {
    out := [];
    if !startExists {
      return false, out;
    }
    out := out + found;
    out := SortUnique(out);
    return true, out;
  }
}
