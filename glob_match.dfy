/** Matching one parsed segment against one path segment (`CharClassMatch`
    and `MatchSegmentAtoms`).

    `MatchFrom` is the reference meaning of a segment: atom i consumes a
    piece of the name and the remaining atoms match the rest. `Reach` is the
    table the dynamic programme computes: the first i atoms can consume the
    first k characters. `ReachMatches` connects the two. */
module GlobMatch {
  import opened GlobPattern

  // ---------------------------------------------------------------------
  // Character classes
  // ---------------------------------------------------------------------

  predicate InRange(c: char, r: CharRange) {
    r.first <= c <= r.last
  }

  /** A character is in a class iff it is one of its singles or inside one
      of its inclusive ranges; a negated class flips that. */
  predicate InClass(cls: CharClass, c: char) {
    (c in cls.singles || exists k :: 0 <= k < |cls.ranges| && InRange(c, cls.ranges[k])) != cls.negated
  }

  /** `CharClassMatch`: singles first, then the ranges, then negation. */
  method CharClassMatch(cls: CharClass, ch: char) returns (m: bool)
    ensures m <==> InClass(cls, ch)
  {
    var hit := false;
    var i := 0;
    while i < |cls.singles|
      invariant 0 <= i <= |cls.singles|
      invariant ch !in cls.singles[..i]
    {
      if cls.singles[i] == ch {
        hit := true;
        break;
      }
      i := i + 1;
    }
    if !hit {
      assert cls.singles[..|cls.singles|] == cls.singles;
      var r := 0;
      while r < |cls.ranges|
        invariant 0 <= r <= |cls.ranges|
        invariant forall q :: 0 <= q < r ==> !InRange(ch, cls.ranges[q])
      {
        if ch >= cls.ranges[r].first && ch <= cls.ranges[r].last {
          hit := true;
          break;
        }
        r := r + 1;
      }
    }
    if cls.negated {
      return !hit;
    }
    return hit;
  }

  // ---------------------------------------------------------------------
  // What a segment means
  // ---------------------------------------------------------------------

  /** Atom a consumes name[j..k]. */
  predicate Step(a: Atom, name: string, j: nat, k: nat) {
    j <= k <= |name| &&
    match a
    case Literal(t) => k == j + |t| && name[j..k] == t
    case QMark => k == j + 1
    case Class(cls) => k == j + 1 && InClass(cls, name[j])
    case Star => true
    case DoubleStar => false
  }

  /** atoms[i..] match name[j..]. */
  predicate MatchFrom(atoms: seq<Atom>, name: string, i: nat, j: nat)
    decreases |atoms| - i
  {
    if i >= |atoms| then j == |name|
    else exists k :: j <= k <= |name| && Step(atoms[i], name, j, k) && MatchFrom(atoms, name, i + 1, k)
  }

  predicate Matches(seg: Segment, name: string) {
    MatchFrom(seg.atoms, name, 0, 0)
  }

  /** The first i atoms match the first k characters. */
  predicate Reach(atoms: seq<Atom>, name: string, i: nat, k: nat)
    decreases i, 1, 0
  {
    if i == 0 then k == 0
    else i <= |atoms| && ReachBelow(atoms, name, i - 1, k, k + 1)
  }

  /** Some j below `upto` is reached by the first a atoms, and atom a takes
      name[j..k]. */
  predicate ReachBelow(atoms: seq<Atom>, name: string, a: nat, k: nat, upto: nat)
    requires a < |atoms|
    decreases a + 1, 0, upto
  {
    upto > 0 &&
    (ReachBelow(atoms, name, a, k, upto - 1)
     || (Reach(atoms, name, a, upto - 1) && Step(atoms[a], name, upto - 1, k)))
  }

  /** Some j below `upto` is reached by the first a atoms. */
  predicate AnyReach(atoms: seq<Atom>, name: string, a: nat, upto: nat) {
    upto > 0 && (AnyReach(atoms, name, a, upto - 1) || Reach(atoms, name, a, upto - 1))
  }

  lemma {:induction false} ReachBelowWitness(atoms: seq<Atom>, name: string, a: nat, k: nat, upto: nat)
    requires a < |atoms|
    ensures ReachBelow(atoms, name, a, k, upto)
        <==> exists j :: 0 <= j < upto && Reach(atoms, name, a, j) && Step(atoms[a], name, j, k)
  {
    if upto > 0 {
      ReachBelowWitness(atoms, name, a, k, upto - 1);
    }
  }

  /** One atom further: the first a + 1 atoms reach k iff the first a reach
      some j from which atom a takes name[j..k]. */
  lemma ReachNext(atoms: seq<Atom>, name: string, a: nat, k: nat)
    requires a < |atoms|
    ensures Reach(atoms, name, a + 1, k)
        <==> exists j :: 0 <= j <= k && Reach(atoms, name, a, j) && Step(atoms[a], name, j, k)
  {
    ReachBelowWitness(atoms, name, a, k, k + 1);
  }

  lemma ReachBelowSaturates(atoms: seq<Atom>, name: string, a: nat, k: nat, upto: nat)
    requires a < |atoms| && upto > k
    ensures ReachBelow(atoms, name, a, k, upto) == Reach(atoms, name, a + 1, k)
  {
    ReachBelowWitness(atoms, name, a, k, upto);
    ReachNext(atoms, name, a, k);
  }

  lemma {:induction false} ReachForward(atoms: seq<Atom>, name: string, i: nat, j: nat)
    requires i <= |atoms|
    requires Reach(atoms, name, i, j) && MatchFrom(atoms, name, i, j)
    ensures Reach(atoms, name, |atoms|, |name|)
    decreases |atoms| - i
  {
    if i < |atoms| {
      var k :| j <= k <= |name| && Step(atoms[i], name, j, k) && MatchFrom(atoms, name, i + 1, k);
      ReachNext(atoms, name, i, k);
      ReachForward(atoms, name, i + 1, k);
    }
  }

  lemma {:induction false} ReachBackward(atoms: seq<Atom>, name: string, i: nat, k: nat)
    requires i <= |atoms|
    requires Reach(atoms, name, i, k) && MatchFrom(atoms, name, i, k)
    ensures MatchFrom(atoms, name, 0, 0)
    decreases i
  {
    if i > 0 {
      ReachNext(atoms, name, i - 1, k);
      var j :| 0 <= j <= k && Reach(atoms, name, i - 1, j) && Step(atoms[i - 1], name, j, k);
      assert MatchFrom(atoms, name, i - 1, j);
      ReachBackward(atoms, name, i - 1, j);
    }
  }

  /** Filling the table forward and reading the last cell decides the
      segment: `dp[A][N]` is true iff the segment matches the name. */
  lemma ReachMatches(seg: Segment, name: string)
    ensures Reach(seg.atoms, name, |seg.atoms|, |name|) <==> Matches(seg, name)
  {
    var atoms := seg.atoms;
    assert MatchFrom(atoms, name, |atoms|, |name|);
    if Reach(atoms, name, |atoms|, |name|) {
      ReachBackward(atoms, name, |atoms|, |name|);
    }
    if Matches(seg, name) {
      ReachForward(atoms, name, 0, 0);
    }
  }

  // ---------------------------------------------------------------------
  // One row of the rolling table
  // ---------------------------------------------------------------------

  /** The row of the first i atoms: `cur[j]` tells whether they reach j. */
  predicate IsRow(atoms: seq<Atom>, name: string, i: nat, row: seq<bool>) {
    |row| == |name| + 1 && forall k :: 0 <= k <= |name| ==> row[k] == Reach(atoms, name, i, k)
  }

  function Falses(n: nat): (r: seq<bool>)
    ensures |r| == n && forall k :: 0 <= k < n ==> !r[k]
  {
    seq(n, _ => false)
  }

  /** The LITERAL step: from each reached j, mark j + |lit| when the name
      holds lit at j. */
  method LiteralRow(atoms: seq<Atom>, name: string, i: nat, cur: seq<bool>) returns (nxt: seq<bool>)
    requires i < |atoms| && atoms[i].Literal?
    requires IsRow(atoms, name, i, cur)
    ensures IsRow(atoms, name, i + 1, nxt)
  {
    var lit := atoms[i].text;
    var n := |name|;
    nxt := Falses(n + 1);
    var j := 0;
    while j <= n
      invariant 0 <= j <= n + 1 && |nxt| == n + 1
      invariant forall k :: 0 <= k <= n ==> nxt[k] == ReachBelow(atoms, name, i, k, j)
    {
      if cur[j] && j + |lit| <= n && name[j..j + |lit|] == lit {
        nxt := nxt[j + |lit| := true];
      }
      j := j + 1;
    }
    forall k | 0 <= k <= n
      ensures nxt[k] == Reach(atoms, name, i + 1, k)
    {
      ReachBelowSaturates(atoms, name, i, k, n + 1);
    }
  }

  /** The QMARK and CHARCLASS steps: from each reached j below the end, mark
      j + 1, for a class only when name[j] is in it. */
  method OneCharRow(atoms: seq<Atom>, name: string, i: nat, cur: seq<bool>) returns (nxt: seq<bool>)
    requires i < |atoms| && (atoms[i].QMark? || atoms[i].Class?)
    requires IsRow(atoms, name, i, cur)
    ensures IsRow(atoms, name, i + 1, nxt)
  {
    var n := |name|;
    nxt := Falses(n + 1);
    var j := 0;
    while j < n
      invariant 0 <= j <= n && |nxt| == n + 1
      invariant forall k :: 0 <= k <= n ==> nxt[k] == ReachBelow(atoms, name, i, k, j)
    {
      if cur[j] {
        var ok := true;
        if atoms[i].Class? {
          ok := CharClassMatch(atoms[i].cls, name[j]);
        }
        if ok {
          nxt := nxt[j + 1 := true];
        }
      }
      j := j + 1;
    }
    forall k | 0 <= k <= n
      ensures nxt[k] == Reach(atoms, name, i + 1, k)
    {
      assert nxt[k] == ReachBelow(atoms, name, i, k, n + 1);
      ReachBelowSaturates(atoms, name, i, k, n + 1);
    }
  }

  lemma {:induction false} StarReachBelow(atoms: seq<Atom>, name: string, i: nat, k: nat, upto: nat)
    requires i < |atoms| && atoms[i].Star? && upto <= k + 1 && k <= |name|
    ensures ReachBelow(atoms, name, i, k, upto) == AnyReach(atoms, name, i, upto)
  {
    if upto > 0 {
      StarReachBelow(atoms, name, i, k, upto - 1);
    }
  }

  /** The STAR step: once some j is reached, every k from j on is. */
  method StarRow(atoms: seq<Atom>, name: string, i: nat, cur: seq<bool>) returns (nxt: seq<bool>)
    requires i < |atoms| && atoms[i].Star?
    requires IsRow(atoms, name, i, cur)
    ensures IsRow(atoms, name, i + 1, nxt)
  {
    var n := |name|;
    nxt := Falses(n + 1);
    var seen := false;
    var j := 0;
    while j <= n
      invariant 0 <= j <= n + 1 && |nxt| == n + 1
      invariant seen == AnyReach(atoms, name, i, j)
      invariant forall k :: 0 <= k < j ==> nxt[k] == AnyReach(atoms, name, i, k + 1)
      invariant forall k :: j <= k <= n ==> !nxt[k]
    {
      assert AnyReach(atoms, name, i, j + 1) == (seen || Reach(atoms, name, i, j));
      if cur[j] {
        seen := true;
      }
      if seen {
        nxt := nxt[j := true];
      }
      j := j + 1;
    }
    forall k | 0 <= k <= n
      ensures nxt[k] == Reach(atoms, name, i + 1, k)
    {
      StarReachBelow(atoms, name, i, k, k + 1);
    }
  }

  /** A DOUBLESTAR atom inside a segment matches nothing, so neither does the
      segment. */
  lemma {:induction false} DoubleStarBlocks(atoms: seq<Atom>, name: string, d: nat, i: nat, j: nat)
    requires d < |atoms| && atoms[d].DoubleStar? && i <= d
    ensures !MatchFrom(atoms, name, i, j)
    decreases d - i
  {
    if i < d {
      forall k | j <= k <= |name| && Step(atoms[i], name, j, k)
        ensures !MatchFrom(atoms, name, i + 1, k)
      {
        DoubleStarBlocks(atoms, name, d, i + 1, k);
      }
    }
  }

  lemma DoubleStarNeverMatches(seg: Segment, name: string, d: nat)
    requires d < |seg.atoms| && seg.atoms[d].DoubleStar?
    ensures !Matches(seg, name)
  {
    DoubleStarBlocks(seg.atoms, name, d, 0, 0);
  }

  /** The rolling table of `MatchSegmentAtoms`: `cur` holds the row for the
      atoms consumed so far and is replaced by `nxt` after each atom. */
  method RollingMatch(seg: Segment, name: string) returns (m: bool)
    ensures m == Matches(seg, name)
  {
    var atoms := seg.atoms;
    var n := |name|;
    var cur := Falses(n + 1)[0 := true];
    var i := 0;
    while i < |atoms|
      invariant 0 <= i <= |atoms|
      invariant IsRow(atoms, name, i, cur)
    {
      var a := atoms[i];
      var nxt: seq<bool>;
      if a.Literal? {
        nxt := LiteralRow(atoms, name, i, cur);
      } else if a.QMark? || a.Class? {
        nxt := OneCharRow(atoms, name, i, cur);
      } else if a.Star? {
        nxt := StarRow(atoms, name, i, cur);
      } else {
        DoubleStarNeverMatches(seg, name, i);
        return false;
      }
      cur := nxt;
      i := i + 1;
    }
    ReachMatches(seg, name);
    return cur[n];
  }

  // ---------------------------------------------------------------------
  // Fast paths
  // ---------------------------------------------------------------------

  predicate StartsWith(s: string, pre: string) {
    |s| >= |pre| && s[..|pre|] == pre
  }

  predicate EndsWith(s: string, suf: string) {
    |s| >= |suf| && s[|s| - |suf|..] == suf
  }

  /** No atoms match only the empty name; a lone STAR matches every name. */
  lemma MatchEmptyOrStar(name: string)
    ensures Matches(Segment([]), name) <==> name == []
    ensures Matches(Segment([Star]), name)
  {
    var atoms := [Star];
    assert Step(atoms[0], name, 0, |name|) && MatchFrom(atoms, name, 1, |name|);
  }

  lemma MatchLoneLiteral(t: string, name: string)
    ensures Matches(Segment([Literal(t)]), name) <==> name == t
  {
    var atoms := [Literal(t)];
    if name == t {
      assert Step(atoms[0], name, 0, |t|) && MatchFrom(atoms, name, 1, |t|);
    }
    if Matches(Segment(atoms), name) {
      var k :| 0 <= k <= |name| && Step(atoms[0], name, 0, k) && MatchFrom(atoms, name, 1, k);
      assert name[0..k] == name;
    }
  }

  lemma MatchLoneChar(a: Atom, name: string)
    requires a.QMark? || a.Class?
    ensures a.QMark? ==> (Matches(Segment([a]), name) <==> |name| == 1)
    ensures a.Class? ==> (Matches(Segment([a]), name) <==> |name| == 1 && InClass(a.cls, name[0]))
  {
    var atoms := [a];
    if |name| == 1 && (a.QMark? || InClass(a.cls, name[0])) {
      assert Step(atoms[0], name, 0, 1) && MatchFrom(atoms, name, 1, 1);
    }
    if Matches(Segment(atoms), name) {
      var k :| 0 <= k <= |name| && Step(atoms[0], name, 0, k) && MatchFrom(atoms, name, 1, k);
    }
  }

  predicate AllQMarks(atoms: seq<Atom>, i: nat) {
    forall q :: i <= q < |atoms| ==> atoms[q].QMark?
  }

  lemma {:induction false} QMarksFrom(atoms: seq<Atom>, name: string, i: nat, j: nat)
    requires i <= |atoms| && j <= |name| && AllQMarks(atoms, i)
    ensures MatchFrom(atoms, name, i, j) <==> |name| - j == |atoms| - i
    decreases |atoms| - i
  {
    if i < |atoms| {
      if j < |name| {
        QMarksFrom(atoms, name, i + 1, j + 1);
        assert Step(atoms[i], name, j, j + 1);
      }
    }
  }

  /** Only QMARKs: the name must have exactly one character per atom. */
  lemma MatchOnlyQMarks(seg: Segment, name: string)
    requires AllQMarks(seg.atoms, 0)
    ensures Matches(seg, name) <==> |name| == |seg.atoms|
  {
    QMarksFrom(seg.atoms, name, 0, 0);
  }

  lemma LiteralTail(atoms: seq<Atom>, name: string, i: nat, j: nat)
    requires i + 1 == |atoms| && atoms[i].Literal? && j <= |name|
    ensures MatchFrom(atoms, name, i, j) <==> name[j..] == atoms[i].text
  {
    var t := atoms[i].text;
    if name[j..] == t {
      assert Step(atoms[i], name, j, |name|) && MatchFrom(atoms, name, i + 1, |name|);
    }
  }

  /** STAR then LITERAL: the name ends with the literal. */
  lemma MatchStarLiteral(t: string, name: string)
    ensures Matches(Segment([Star, Literal(t)]), name) <==> EndsWith(name, t)
  {
    var atoms := [Star, Literal(t)];
    if Matches(Segment(atoms), name) {
      var k :| 0 <= k <= |name| && Step(atoms[0], name, 0, k) && MatchFrom(atoms, name, 1, k);
      LiteralTail(atoms, name, 1, k);
    }
    if EndsWith(name, t) {
      var k := |name| - |t|;
      LiteralTail(atoms, name, 1, k);
      assert Step(atoms[0], name, 0, k);
    }
  }

  lemma LiteralHead(atoms: seq<Atom>, name: string, i: nat, j: nat)
    requires i < |atoms| && atoms[i].Literal? && j <= |name|
    ensures MatchFrom(atoms, name, i, j)
        <==> j + |atoms[i].text| <= |name| && name[j..j + |atoms[i].text|] == atoms[i].text
             && MatchFrom(atoms, name, i + 1, j + |atoms[i].text|)
  {
    var t := atoms[i].text;
    if MatchFrom(atoms, name, i, j) {
      var k :| j <= k <= |name| && Step(atoms[i], name, j, k) && MatchFrom(atoms, name, i + 1, k);
    }
    if j + |t| <= |name| && name[j..j + |t|] == t && MatchFrom(atoms, name, i + 1, j + |t|) {
      assert Step(atoms[i], name, j, j + |t|);
    }
  }

  /** LITERAL then STAR: the name starts with the literal. */
  lemma MatchLiteralStar(t: string, name: string)
    ensures Matches(Segment([Literal(t), Star]), name) <==> StartsWith(name, t)
  {
    var atoms := [Literal(t), Star];
    LiteralHead(atoms, name, 0, 0);
    if StartsWith(name, t) {
      assert name[0..|t|] == t;
      assert Step(atoms[1], name, |t|, |name|) && MatchFrom(atoms, name, 2, |name|);
    }
    if Matches(Segment(atoms), name) {
      assert name[0..|t|] == name[..|t|];
    }
  }

  /** LITERAL, STAR, LITERAL: long enough for both, starting with the first
      and ending with the second. */
  lemma MatchLiteralStarLiteral(p: string, s: string, name: string)
    ensures Matches(Segment([Literal(p), Star, Literal(s)]), name)
        <==> |name| >= |p| + |s| && StartsWith(name, p) && EndsWith(name, s)
  {
    var atoms := [Literal(p), Star, Literal(s)];
    LiteralHead(atoms, name, 0, 0);
    if Matches(Segment(atoms), name) {
      assert name[0..|p|] == name[..|p|];
      var k :| |p| <= k <= |name| && Step(atoms[1], name, |p|, k) && MatchFrom(atoms, name, 2, k);
      LiteralTail(atoms, name, 2, k);
    }
    if |name| >= |p| + |s| && StartsWith(name, p) && EndsWith(name, s) {
      assert name[0..|p|] == name[..|p|];
      var k := |name| - |s|;
      LiteralTail(atoms, name, 2, k);
      assert Step(atoms[1], name, |p|, k);
    }
  }

  /** `MatchSegmentAtoms`: the fast paths for common shapes, then the
      rolling table. Every path decides `Matches`, so the fast paths agree
      with the table. */
  method MatchSegmentAtoms(seg: Segment, name: string) returns (m: bool)
    ensures m == Matches(seg, name)
  {
    var atoms := seg.atoms;
    var count := |atoms|;
    if count == 0 {
      MatchEmptyOrStar(name);
      return name == [];
    }
    if count == 1 {
      assert atoms == [atoms[0]];
      match atoms[0]
      case Literal(t) =>
        MatchLoneLiteral(t, name);
        return name == t;
      case Star =>
        MatchEmptyOrStar(name);
        return true;
      case QMark =>
        MatchLoneChar(atoms[0], name);
        return |name| == 1;
      case Class(cls) =>
        MatchLoneChar(atoms[0], name);
        var hit := false;
        if |name| == 1 {
          hit := CharClassMatch(cls, name[0]);
        }
        return hit;
      case DoubleStar =>
    }
    var onlyQMarks := true;
    var i := 0;
    while i < count
      invariant 0 <= i <= count
      invariant forall q :: 0 <= q < i ==> atoms[q].QMark?
    {
      if !atoms[i].QMark? {
        onlyQMarks := false;
        break;
      }
      i := i + 1;
    }
    if onlyQMarks {
      MatchOnlyQMarks(seg, name);
      return |name| == count;
    }
    var hasClass := false;
    i := 0;
    while i < count
      invariant 0 <= i <= count
    {
      if atoms[i].Class? {
        hasClass := true;
        break;
      }
      i := i + 1;
    }
    if !hasClass {
      if count == 2 && atoms[0].Star? && atoms[1].Literal? {
        assert atoms == [Star, Literal(atoms[1].text)];
        MatchStarLiteral(atoms[1].text, name);
        return EndsWith(name, atoms[1].text);
      }
      if count == 2 && atoms[0].Literal? && atoms[1].Star? {
        assert atoms == [Literal(atoms[0].text), Star];
        MatchLiteralStar(atoms[0].text, name);
        return StartsWith(name, atoms[0].text);
      }
      if count == 3 && atoms[0].Literal? && atoms[1].Star? && atoms[2].Literal? {
        var pre := atoms[0].text;
        var suf := atoms[2].text;
        assert atoms == [Literal(pre), Star, Literal(suf)];
        MatchLiteralStarLiteral(pre, suf, name);
        if |name| < |pre| + |suf| {
          return false;
        }
        return StartsWith(name, pre) && EndsWith(name, suf);
      }
    }
    m := RollingMatch(seg, name);
  }

  // ---------------------------------------------------------------------
  // Parsing and matching together
  // ---------------------------------------------------------------------

  /** A pattern segment "*" + w, w plain, matches exactly the names that end
      with w; w + "*" those that start with it; plain w only w itself. */
  lemma ParsedShapes(w: string, name: string, base: nat, opt: Options)
    requires w != [] && Plain(w)
    ensures SegmentSpec("*" + w, base, opt).Ok?
            && (Matches(SegmentSpec("*" + w, base, opt).value, name) <==> EndsWith(name, w))
    ensures SegmentSpec(w + "*", base, opt).Ok?
            && (Matches(SegmentSpec(w + "*", base, opt).value, name) <==> StartsWith(name, w))
    ensures SegmentSpec(w, base, opt).Ok?
            && (Matches(SegmentSpec(w, base, opt).value, name) <==> name == w)
  {
    SegmentStarThenLiteral(w, base, opt);
    MatchStarLiteral(w, name);
    SegmentLiteralThenStar(w, base, opt);
    MatchLiteralStar(w, name);
    SegmentPlain(w, base, opt);
    MatchLoneLiteral(w, name);
  }
}
