/** Matching a whole path while recording what each wildcard consumed, and
    rebuilding a destination path from those captures (`MatchSegmentCapture`,
    `MatchCaptureRec`, `MatchCapture`, `Instantiate`, `MapGlobToGlob`).

    `PathMatch` is the meaning of a pattern on a path split into segments:
    a `**` segment takes any number of path segments, any other segment takes
    exactly one that it `Matches`. `BuildSegment` and `InstFrom` are the
    meaning of instantiation. The central property is the round trip: the
    captures recorded while matching a path, fed back into the same pattern,
    rebuild that path. */
module GlobCapture {
  import opened Wrappers
  import opened Support
  import opened GlobPattern
  import opened GlobMatch

  datatype CaptureKind = PathCapture | SegmentCapture | CharCapture

  datatype Capture = Capture(kind: CaptureKind, value: string)

  // ---------------------------------------------------------------------
  // Path segments
  // ---------------------------------------------------------------------

  /** Path segments as the matcher sees them: non-empty and free of '/'. */
  predicate CleanSegments(ts: seq<string>) {
    forall k :: 0 <= k < |ts| ==> ts[k] != [] && '/' !in ts[k]
  }

  /** `SplitPathSegments`: the non-empty runs between '/' characters. */
  method SplitPathSegments(s: string) returns (segs: seq<string>)
    ensures segs == Tokens(s, '/')
  {
    segs := [];
    var start := 0;
    while true
      invariant start <= |s|
      invariant segs + Tokens(s[start..], '/') == Tokens(s, '/')
      decreases |s| - start
    {
      var i := SliceEnd(s, start, '/');
      if i > start {
        TokensTakeRun(s, start, i, '/');
        assert (segs + [s[start..i]]) + Tokens(s[i..], '/') == segs + Tokens(s[start..], '/');
        segs := segs + [s[start..i]];
      } else {
        assert s[start..] == s[i..];
      }
      if i == |s| {
        assert s[i..] == [];
        return;
      }
      TokensSkipSeparator(s, i, '/');
      start := i + 1;
    }
  }

  lemma SplitPathSegmentsClean(s: string)
    ensures CleanSegments(Tokens(s, '/'))
  {
    TokensSound(s, '/');
    forall k | 0 <= k < |Tokens(s, '/')|
      ensures Tokens(s, '/')[k] in Tokens(s, '/')
    {
    }
  }

  lemma JoinWithSnoc(ts: seq<string>, t: string, sep: char)
    requires ts != []
    ensures JoinWith(ts + [t], sep) == JoinWith(ts, sep) + [sep] + t
  {
    if |ts| == 1 {
      assert ts + [t] == [ts[0], t];
      assert [ts[0], t][1..] == [t];
    } else {
      assert (ts + [t])[1..] == ts[1..] + [t];
      JoinWithSnoc(ts[1..], t, sep);
    }
  }

  /** `JoinPathSegments`: segs[from..to] with '/' between them. */
  method JoinPathSegments(segs: seq<string>, from: nat, to: nat) returns (out: string)
    requires from <= to <= |segs|
    ensures out == JoinWith(segs[from..to], '/')
  {
    out := [];
    var i := from;
    while i < to
      invariant from <= i <= to
      invariant out == JoinWith(segs[from..i], '/')
    {
      if i != from {
        out := out + ['/'];
        JoinWithSnoc(segs[from..i], segs[i], '/');
      } else {
        assert segs[from..i + 1] == [segs[i]];
      }
      assert segs[from..i + 1] == segs[from..i] + [segs[i]];
      out := out + segs[i];
      i := i + 1;
    }
  }

  lemma TokensOfClean(t: string)
    requires t != [] && '/' !in t
    ensures Tokens(t, '/') == [t]
  {
    TokensTakeRun(t, 0, |t|, '/');
    assert t[0..] == t && t[0..|t|] == t && t[|t|..] == [];
  }

  /** Splitting undoes joining: `SplitPathSegments(JoinPathSegments(ts))`
      gives ts back when every segment is clean. */
  lemma {:induction false} SplitJoin(ts: seq<string>)
    requires CleanSegments(ts)
    ensures Tokens(JoinWith(ts, '/'), '/') == ts
  {
    if ts == [] {
    } else if |ts| == 1 {
      TokensOfClean(ts[0]);
    } else {
      var t := ts[0];
      var rest := JoinWith(ts[1..], '/');
      var s := t + ['/'] + rest;
      assert JoinWith(ts, '/') == s;
      forall k | 0 <= k < |t|
        ensures s[k] != '/'
      {
        assert s[k] == t[k];
      }
      TokensTakeRun(s, 0, |t|, '/');
      assert s[0..] == s && s[0..|t|] == t;
      TokensSkipSeparator(s, |t|, '/');
      assert s[|t| + 1..] == rest;
      SplitJoin(ts[1..]);
    }
  }

  // ---------------------------------------------------------------------
  // What instantiation means
  // ---------------------------------------------------------------------

  datatype Built = Built(text: string, rest: seq<Capture>)

  /** One atom of a destination segment: a literal is copied, a wildcard
      consumes the next capture, which must be of its kind. */
  function BuildAtom(a: Atom, caps: seq<Capture>): Option<Built> {
    match a
    case Literal(t) => Some(Built(t, caps))
    case Star =>
      if caps != [] && caps[0].kind == SegmentCapture then Some(Built(caps[0].value, caps[1..])) else None
    case QMark =>
      if caps != [] && caps[0].kind == CharCapture && |caps[0].value| == 1 then Some(Built(caps[0].value, caps[1..])) else None
    case Class(_) =>
      if caps != [] && caps[0].kind == CharCapture && |caps[0].value| == 1 then Some(Built(caps[0].value, caps[1..])) else None
    case DoubleStar => None
  }

  /** A destination segment built from the captures; the captures it did
      not consume are returned. */
  function BuildSegment(atoms: seq<Atom>, caps: seq<Capture>): Option<Built> {
    if atoms == [] then Some(Built([], caps))
    else
      match BuildAtom(atoms[0], caps)
      case None => None
      case Some(Built(piece, caps1)) =>
        match BuildSegment(atoms[1..], caps1)
        case None => None
        case Some(Built(text, rest)) => Some(Built(piece + text, rest))
  }

  datatype Instance = Instance(outSegs: seq<string>, rest: seq<Capture>)

  /** One destination segment built from the captures: a `**` segment
      consumes a PATH capture and contributes its path segments, any other
      segment contributes the text `BuildSegment` makes. */
  function SegmentInst(seg: Segment, caps: seq<Capture>): Option<Instance> {
    if seg.IsDoubleStarOnly() then
      if caps == [] || caps[0].kind != PathCapture then None
      else Some(Instance(Tokens(caps[0].value, '/'), caps[1..]))
    else
      match BuildSegment(seg.atoms, caps)
      case None => None
      case Some(Built(t, r)) => Some(Instance([t], r))
  }

  function Combine(done: seq<string>, r: Option<Instance>): Option<Instance> {
    match r
    case None => None
    case Some(Instance(o, rest)) => Some(Instance(done + o, rest))
  }

  /** The destination segments built from the captures, segment by segment. */
  function InstFrom(segs: seq<Segment>, caps: seq<Capture>): Option<Instance> {
    if segs == [] then Some(Instance([], caps))
    else
      match SegmentInst(segs[0], caps)
      case None => None
      case Some(Instance(o, r)) => Combine(o, InstFrom(segs[1..], r))
  }

  /** `Instantiate`: every capture must be consumed. */
  function InstantiateSpec(pat: Pattern, caps: seq<Capture>): Option<string> {
    match InstFrom(pat.segments, caps)
    case Some(Instance(o, rest)) => if rest == [] then Some(JoinWith(o, '/')) else None
    case None => None
  }

  lemma {:induction false} BuildSegmentAppend(atoms: seq<Atom>, caps: seq<Capture>, more: seq<Capture>)
    requires BuildSegment(atoms, caps).Some?
    ensures BuildSegment(atoms, caps + more)
         == Some(Built(BuildSegment(atoms, caps).value.text, BuildSegment(atoms, caps).value.rest + more))
  {
    if atoms != [] {
      var b := BuildAtom(atoms[0], caps).value;
      if caps != [] {
        assert (caps + more)[0] == caps[0];
        assert (caps + more)[1..] == caps[1..] + more;
      }
      assert BuildAtom(atoms[0], caps + more) == Some(Built(b.text, b.rest + more));
      BuildSegmentAppend(atoms[1..], b.rest, more);
    }
  }

  // ---------------------------------------------------------------------
  // Kinds of captures
  // ---------------------------------------------------------------------

  /** The capture kinds a destination pattern consumes, in order. */
  function AtomKinds(atoms: seq<Atom>): seq<CaptureKind> {
    if atoms == [] then []
    else
      (match atoms[0]
       case Literal(_) => []
       case Star => [SegmentCapture]
       case _ => [CharCapture])
      + AtomKinds(atoms[1..])
  }

  function WildKinds(segs: seq<Segment>): seq<CaptureKind> {
    if segs == [] then []
    else if segs[0].IsDoubleStarOnly() then [PathCapture] + WildKinds(segs[1..])
    else AtomKinds(segs[0].atoms) + WildKinds(segs[1..])
  }

  function KindsOf(caps: seq<Capture>): seq<CaptureKind> {
    if caps == [] then [] else [caps[0].kind] + KindsOf(caps[1..])
  }

  lemma KindsOfAppend(a: seq<Capture>, b: seq<Capture>)
    ensures KindsOf(a + b) == KindsOf(a) + KindsOf(b)
  {
    if a != [] {
      assert (a + b)[1..] == a[1..] + b;
    } else {
      assert a + b == b;
    }
  }

  /** Consuming a prefix and then a prefix of what is left consumes their
      concatenation. */
  lemma PrefixThenPrefix<T>(all: seq<T>, u1: seq<T>, mid: seq<T>, u2: seq<T>, r: seq<T>)
    requires all == u1 + mid && mid == u2 + r
    ensures all == (u1 + u2) + r
  {
    assert u1 + (u2 + r) == (u1 + u2) + r;
  }

  /** A destination segment that builds has a first atom that builds, and
      the segment's leftover captures are its remaining atoms'. */
  lemma BuildSegmentUnfold(atoms: seq<Atom>, caps: seq<Capture>)
    requires atoms != [] && BuildSegment(atoms, caps).Some?
    ensures BuildAtom(atoms[0], caps).Some?
    ensures BuildSegment(atoms[1..], BuildAtom(atoms[0], caps).value.rest).Some?
    ensures BuildSegment(atoms, caps).value.rest == BuildSegment(atoms[1..], BuildAtom(atoms[0], caps).value.rest).value.rest
  {
  }

  lemma AtomKindsCons(atoms: seq<Atom>)
    requires atoms != []
    ensures AtomKinds(atoms) == AtomKinds([atoms[0]]) + AtomKinds(atoms[1..])
  {
    assert [atoms[0]][1..] == [];
  }

  /** The captures a wildcard atom consumes: the first one, of its kind. */
  lemma BuildAtomKinds(a: Atom, caps: seq<Capture>) returns (used: seq<Capture>)
    requires BuildAtom(a, caps).Some?
    ensures caps == used + BuildAtom(a, caps).value.rest
    ensures KindsOf(used) == AtomKinds([a])
  {
    if a.Literal? {
      used := [];
    } else {
      used := [caps[0]];
      assert used[1..] == [];
      assert caps == used + caps[1..];
    }
  }

  /** The captures a destination segment consumes are a prefix of the
      captures, of the kinds its wildcards name. */
  lemma {:induction false} BuildSegmentKinds(atoms: seq<Atom>, caps: seq<Capture>) returns (used: seq<Capture>)
    requires BuildSegment(atoms, caps).Some?
    ensures caps == used + BuildSegment(atoms, caps).value.rest && KindsOf(used) == AtomKinds(atoms)
  {
    if atoms == [] {
      used := [];
    } else {
      BuildSegmentUnfold(atoms, caps);
      var mid := BuildAtom(atoms[0], caps).value.rest;
      var u1 := BuildAtomKinds(atoms[0], caps);
      var u2 := BuildSegmentKinds(atoms[1..], mid);
      PrefixThenPrefix(caps, u1, mid, u2, BuildSegment(atoms, caps).value.rest);
      KindsOfAppend(u1, u2);
      AtomKindsCons(atoms);
      used := u1 + u2;
    }
  }

  function SegmentKinds(seg: Segment): seq<CaptureKind> {
    if seg.IsDoubleStarOnly() then [PathCapture] else AtomKinds(seg.atoms)
  }

  lemma SegmentInstKinds(seg: Segment, caps: seq<Capture>) returns (used: seq<Capture>)
    requires SegmentInst(seg, caps).Some?
    ensures caps == used + SegmentInst(seg, caps).value.rest && KindsOf(used) == SegmentKinds(seg)
  {
    if seg.IsDoubleStarOnly() {
      used := [caps[0]];
      assert used[1..] == [];
      assert caps == used + caps[1..];
    } else {
      used := BuildSegmentKinds(seg.atoms, caps);
    }
  }

  /** Destination segments that instantiate have a first segment that
      does, and their leftover captures are the remaining segments'. */
  lemma InstFromUnfold(segs: seq<Segment>, caps: seq<Capture>)
    requires segs != [] && InstFrom(segs, caps).Some?
    ensures SegmentInst(segs[0], caps).Some?
    ensures InstFrom(segs[1..], SegmentInst(segs[0], caps).value.rest).Some?
    ensures InstFrom(segs, caps).value.rest == InstFrom(segs[1..], SegmentInst(segs[0], caps).value.rest).value.rest
    ensures WildKinds(segs) == SegmentKinds(segs[0]) + WildKinds(segs[1..])
  {
  }

  lemma {:induction false} InstFromKinds(segs: seq<Segment>, caps: seq<Capture>) returns (used: seq<Capture>)
    requires InstFrom(segs, caps).Some?
    ensures caps == used + InstFrom(segs, caps).value.rest && KindsOf(used) == WildKinds(segs)
  {
    if segs == [] {
      used := [];
    } else {
      InstFromUnfold(segs, caps);
      var mid := SegmentInst(segs[0], caps).value.rest;
      var u1 := SegmentInstKinds(segs[0], caps);
      var u2 := InstFromKinds(segs[1..], mid);
      PrefixThenPrefix(caps, u1, mid, u2, InstFrom(segs, caps).value.rest);
      KindsOfAppend(u1, u2);
      used := u1 + u2;
    }
  }

  /** `Instantiate` succeeds only when the captures are exactly the kinds the
      destination's wildcards consume, in order: a kind mismatch fails, and so
      does a capture left over. */
  lemma InstantiateKinds(pat: Pattern, caps: seq<Capture>)
    ensures InstantiateSpec(pat, caps).Some? ==> KindsOf(caps) == WildKinds(pat.segments)
  {
    if InstantiateSpec(pat, caps).Some? {
      var used := InstFromKinds(pat.segments, caps);
      assert used + [] == used;
    }
  }

  lemma KindsLength(caps: seq<Capture>)
    ensures |KindsOf(caps)| == |caps|
  {
  }

  /** A leftover capture makes `Instantiate` fail. */
  lemma InstantiateLeftover(pat: Pattern, caps: seq<Capture>)
    requires |caps| > |WildKinds(pat.segments)|
    ensures InstantiateSpec(pat, caps).None?
  {
    InstantiateKinds(pat, caps);
    KindsLength(caps);
  }

  // ---------------------------------------------------------------------
  // Instantiate
  // ---------------------------------------------------------------------

  function PrefixBuilt(done: string, r: Option<Built>): Option<Built> {
    match r
    case None => None
    case Some(Built(t, rest)) => Some(Built(done + t, rest))
  }

  /** `BuildSegment` from atom a on, one atom unfolded. */
  lemma BuildStep(atoms: seq<Atom>, a: nat, caps: seq<Capture>, capI: nat, done: string)
    requires a < |atoms| && capI <= |caps|
    ensures PrefixBuilt(done, BuildSegment(atoms[a..], caps[capI..]))
         == match BuildAtom(atoms[a], caps[capI..])
            case None => None
            case Some(Built(piece, r)) => PrefixBuilt(done + piece, BuildSegment(atoms[a + 1..], r))
  {
    assert atoms[a..][0] == atoms[a] && atoms[a..][1..] == atoms[a + 1..];
    match BuildAtom(atoms[a], caps[capI..])
    case None =>
    case Some(Built(piece, r)) =>
      match BuildSegment(atoms[a + 1..], r)
      case None =>
      case Some(Built(t, rest)) =>
        assert (done + piece) + t == done + (piece + t);
  }

  /** The atom loop of `Instantiate` for one non-`**` segment: the built
      text and the index of the first capture not consumed. */
  method BuildOne(atoms: seq<Atom>, caps: seq<Capture>, cap0: nat) returns (ok: bool, built: string, capI: nat)
    requires cap0 <= |caps|
    ensures ok <==> BuildSegment(atoms, caps[cap0..]).Some?
    ensures ok ==> capI <= |caps| && BuildSegment(atoms, caps[cap0..]) == Some(Built(built, caps[capI..]))
  {
    built := [];
    capI := cap0;
    var a := 0;
    var whole := BuildSegment(atoms, caps[cap0..]);
    assert atoms[0..] == atoms;
    if whole.Some? {
      assert [] + whole.value.text == whole.value.text;
    }
    while a < |atoms|
      invariant 0 <= a <= |atoms| && cap0 <= capI <= |caps|
      invariant PrefixBuilt(built, BuildSegment(atoms[a..], caps[capI..])) == whole
    {
      var atom := atoms[a];
      BuildStep(atoms, a, caps, capI, built);
      if atom.Literal? {
        built := built + atom.text;
        a := a + 1;
        continue;
      }
      if capI >= |caps| {
        return false, built, capI;
      }
      assert caps[capI..][0] == caps[capI] && caps[capI..][1..] == caps[capI + 1..];
      if atom.Star? {
        if caps[capI].kind != SegmentCapture {
          return false, built, capI;
        }
        built := built + caps[capI].value;
        capI := capI + 1;
        a := a + 1;
        continue;
      }
      if atom.QMark? || atom.Class? {
        if caps[capI].kind != CharCapture {
          return false, built, capI;
        }
        if |caps[capI].value| != 1 {
          return false, built, capI;
        }
        built := built + caps[capI].value;
        capI := capI + 1;
        a := a + 1;
        continue;
      }
      return false, built, capI;
    }
    assert atoms[a..] == [] && built + [] == built;
    ok := true;
  }

  /** The body of `Instantiate`'s segment loop: the segments one destination
      segment contributes and the index of the first capture not consumed. */
  method InstantiateOne(seg: Segment, caps: seq<Capture>, cap0: nat) returns (ok: bool, piece: seq<string>, capI: nat)
    requires cap0 <= |caps|
    ensures ok <==> SegmentInst(seg, caps[cap0..]).Some?
    ensures ok ==> capI <= |caps| && SegmentInst(seg, caps[cap0..]) == Some(Instance(piece, caps[capI..]))
  {
    if seg.IsDoubleStarOnly() {
      if cap0 >= |caps| {
        return false, [], cap0;
      }
      assert caps[cap0..][0] == caps[cap0] && caps[cap0..][1..] == caps[cap0 + 1..];
      if caps[cap0].kind != PathCapture {
        return false, [], cap0;
      }
      piece := SplitPathSegments(caps[cap0].value);
      return true, piece, cap0 + 1;
    }
    var built;
    ok, built, capI := BuildOne(seg.atoms, caps, cap0);
    piece := [built];
  }

  lemma InstStep(segs: seq<Segment>, s: nat, c: seq<Capture>, done: seq<string>)
    requires s < |segs|
    ensures Combine(done, InstFrom(segs[s..], c))
         == match SegmentInst(segs[s], c)
            case None => None
            case Some(Instance(piece, r)) => Combine(done + piece, InstFrom(segs[s + 1..], r))
  {
    assert segs[s..][0] == segs[s] && segs[s..][1..] == segs[s + 1..];
    match SegmentInst(segs[s], c)
    case None =>
    case Some(Instance(piece, r)) =>
      match InstFrom(segs[s + 1..], r)
      case None =>
      case Some(Instance(o, rest)) =>
        assert (done + piece) + o == done + (piece + o);
  }

  /** `Instantiate`: walk the destination segments consuming captures, then
      join the built segments with '/'. */
  method Instantiate(toPat: Pattern, caps: seq<Capture>) returns (ok: bool, out: string)
    ensures ok <==> InstantiateSpec(toPat, caps).Some?
    ensures ok ==> InstantiateSpec(toPat, caps) == Some(out)
  {
    var segs := toPat.segments;
    var capI: nat := 0;
    var outSegs: seq<string> := [];
    var s := 0;
    var whole := InstFrom(segs, caps);
    assert segs[0..] == segs && caps[0..] == caps;
    if whole.Some? {
      assert [] + whole.value.outSegs == whole.value.outSegs;
    }
    while s < |segs|
      invariant 0 <= s <= |segs| && capI <= |caps|
      invariant Combine(outSegs, InstFrom(segs[s..], caps[capI..])) == whole
    {
      InstStep(segs, s, caps[capI..], outSegs);
      var sok, piece, next := InstantiateOne(segs[s], caps, capI);
      if !sok {
        return false, [];
      }
      outSegs := outSegs + piece;
      capI := next;
      s := s + 1;
    }
    assert segs[s..] == [] && outSegs + [] == outSegs;
    if capI != |caps| {
      assert caps[capI..] != [];
      return false, [];
    }
    assert caps[capI..] == [];
    out := JoinOut(outSegs);
    return true, out;
  }

  /** The final loop of `Instantiate`: the built segments joined with '/'. */
  method JoinOut(outSegs: seq<string>) returns (out: string)
    ensures out == JoinWith(outSegs, '/')
  {
    out := JoinPathSegments(outSegs, 0, |outSegs|);
    assert outSegs[0..|outSegs|] == outSegs;
  }

  // ---------------------------------------------------------------------
  // Matching one segment with captures
  // ---------------------------------------------------------------------

  /** A cell of the predecessor table. */
  datatype PrevCell = PrevCell(hasPrev: bool, pi: nat, pj: nat, capture: bool, kind: CaptureKind, cs: nat, ce: nat)

  const NoPrev: PrevCell := PrevCell(false, 0, 0, false, SegmentCapture, 0, 0)

  function KindOf(a: Atom): CaptureKind {
    if a.Star? then SegmentCapture else CharCapture
  }

  /** The cell explains how state (r, k) was first reached: from (r - 1, pj)
      by atom r - 1, capturing name[pj..k] for a wildcard. */
  predicate ValidPrev(atoms: seq<Atom>, name: string, r: nat, k: nat, p: PrevCell) {
    1 <= r <= |atoms| && p.hasPrev && p.pi == r - 1 && p.pj <= k
    && Reach(atoms, name, r - 1, p.pj) && Step(atoms[r - 1], name, p.pj, k)
    && (p.capture <==> !atoms[r - 1].Literal?)
    && (p.capture ==> p.cs == p.pj && p.ce == k && p.kind == KindOf(atoms[r - 1]))
  }

  predicate PrevRow(atoms: seq<Atom>, name: string, r: nat, row: seq<bool>, prow: seq<PrevCell>) {
    |row| == |name| + 1 && |prow| == |name| + 1
    && forall k :: 0 <= k <= |name| && row[k] ==> ValidPrev(atoms, name, r, k, prow[k])
  }

  /** The first j, from j0 on in increasing order, from which atom a takes
      name[j..k] after the first a atoms reached j; k itself when none
      below k does. */
  function FirstPred(atoms: seq<Atom>, name: string, a: nat, k: nat, j0: nat): (j: nat)
    requires a < |atoms|
    ensures j0 <= j && (j0 <= k ==> j <= k)
    decreases k - j0
  {
    if k <= j0 || (Reach(atoms, name, a, j0) && Step(atoms[a], name, j0, k)) then j0
    else FirstPred(atoms, name, a, k, j0 + 1)
  }

  /** The predecessor cell the tables record for a reached state (r, k):
      the first j, in the order the rows are filled, that reaches it. */
  function FirstPrev(atoms: seq<Atom>, name: string, r: nat, k: nat): PrevCell
    requires 1 <= r <= |atoms|
  {
    var j := FirstPred(atoms, name, r - 1, k, 0);
    if atoms[r - 1].Literal? then PrevCell(true, r - 1, j, false, SegmentCapture, 0, 0)
    else PrevCell(true, r - 1, j, true, KindOf(atoms[r - 1]), j, k)
  }

  /** Every reached cell of the row holds its first-reaching predecessor. */
  predicate FirstPrevRow(atoms: seq<Atom>, name: string, r: nat, row: seq<bool>, prow: seq<PrevCell>) {
    1 <= r <= |atoms| && |row| == |name| + 1 && |prow| == |name| + 1
    && forall k :: 0 <= k <= |name| && row[k] ==> prow[k] == FirstPrev(atoms, name, r, k)
  }

  /** The j found is the least one from j0 on that takes name[j..k]. */
  lemma {:induction false} FirstPredIs(atoms: seq<Atom>, name: string, a: nat, k: nat, j: nat, j0: nat)
    requires a < |atoms| && j0 <= j <= k
    requires Reach(atoms, name, a, j) && Step(atoms[a], name, j, k)
    requires forall u :: j0 <= u < j ==> !(Reach(atoms, name, a, u) && Step(atoms[a], name, u, k))
    ensures FirstPred(atoms, name, a, k, j0) == j
    decreases j - j0
  {
    if j0 < j {
      FirstPredIs(atoms, name, a, k, j, j0 + 1);
    }
  }

  lemma {:induction false} FirstPredFound(atoms: seq<Atom>, name: string, a: nat, k: nat, w: nat, j0: nat)
    requires a < |atoms| && j0 <= w <= k
    requires Reach(atoms, name, a, w) && Step(atoms[a], name, w, k)
    ensures var j := FirstPred(atoms, name, a, k, j0); j <= w && Reach(atoms, name, a, j) && Step(atoms[a], name, j, k)
    decreases w - j0
  {
    if j0 < w && !(Reach(atoms, name, a, j0) && Step(atoms[a], name, j0, k)) {
      FirstPredFound(atoms, name, a, k, w, j0 + 1);
    }
  }

  /** The first-reaching predecessor of a reached state explains it. */
  lemma FirstPrevValid(atoms: seq<Atom>, name: string, r: nat, k: nat)
    requires 1 <= r <= |atoms| && k <= |name| && Reach(atoms, name, r, k)
    ensures ValidPrev(atoms, name, r, k, FirstPrev(atoms, name, r, k))
  {
    var a := r - 1;
    ReachNext(atoms, name, a, k);
    assert a + 1 == r;
    var w :| 0 <= w <= k && Reach(atoms, name, a, w) && Step(atoms[a], name, w, k);
    FirstPredFound(atoms, name, a, k, w, 0);
  }

  lemma FirstPrevRowValid(atoms: seq<Atom>, name: string, r: nat, row: seq<bool>, prow: seq<PrevCell>)
    requires IsRow(atoms, name, r, row) && FirstPrevRow(atoms, name, r, row, prow)
    ensures PrevRow(atoms, name, r, row, prow)
  {
    forall k | 0 <= k <= |name| && row[k]
      ensures ValidPrev(atoms, name, r, k, prow[k])
    {
      FirstPrevValid(atoms, name, r, k);
    }
  }

  lemma {:induction false} AnyReachFrom(atoms: seq<Atom>, name: string, a: nat, u: nat, upto: nat)
    requires u < upto && Reach(atoms, name, a, u)
    ensures AnyReach(atoms, name, a, upto)
    decreases upto
  {
    if u < upto - 1 {
      AnyReachFrom(atoms, name, a, u, upto - 1);
    }
  }

  /** The captures the backtrack collects from a reached state (r, k) down
      to (0, 0), in forward order, following the first-reaching cells. */
  function FirstCaps(atoms: seq<Atom>, name: string, r: nat, k: nat): seq<Capture>
    requires r <= |atoms| && k <= |name|
    decreases r
  {
    if r == 0 then []
    else
      var p := FirstPrev(atoms, name, r, k);
      FirstCaps(atoms, name, r - 1, p.pj) + (if p.capture then [Capture(p.kind, name[p.cs..p.ce])] else [])
  }

  /** The captures `MatchSegmentCapture` gives for a name the segment
      matches. */
  function SegmentCaps(seg: Segment, name: string): seq<Capture> {
    FirstCaps(seg.atoms, name, |seg.atoms|, |name|)
  }

  /** With `*_*` on "a_b_c" the first star's state after "a" is reached
      first, so the first star captures "a" and the second "b_c", never
      "a_b" and "c". */
  lemma FirstReachedWinsExample()
    ensures SegmentCaps(Segment([Star, Literal("_"), Star]), "a_b_c")
         == [Capture(SegmentCapture, "a"), Capture(SegmentCapture, "b_c")]
  {
    var atoms := [Star, Literal("_"), Star];
    var name := "a_b_c";
    assert Step(atoms[0], name, 0, 1);
    ReachNext(atoms, name, 0, 1);
    assert Reach(atoms, name, 1, 1);
    assert Step(atoms[1], name, 1, 2) by { assert name[1..2] == "_"; }
    ReachNext(atoms, name, 1, 2);
    ReachNext(atoms, name, 1, 0);
    ReachNext(atoms, name, 1, 1);
    assert name[0..1] == "a";
    assert !Reach(atoms, name, 2, 0) && !Reach(atoms, name, 2, 1);
    FirstPredIs(atoms, name, 2, 5, 2, 0);
    FirstPredIs(atoms, name, 1, 2, 1, 0);
    FirstPredIs(atoms, name, 0, 1, 0, 0);
    assert name[0..1] == "a" && name[2..5] == "b_c";
  }

  function NoPrevs(n: nat): (r: seq<PrevCell>)
    ensures |r| == n
  {
    seq(n, _ => NoPrev)
  }

  /** The LITERAL row with predecessors: no capture. */
  method LiteralCaptureRow(atoms: seq<Atom>, name: string, i: nat, cur: seq<bool>) returns (row: seq<bool>, prow: seq<PrevCell>)
    requires i < |atoms| && atoms[i].Literal? && IsRow(atoms, name, i, cur)
    ensures IsRow(atoms, name, i + 1, row) && FirstPrevRow(atoms, name, i + 1, row, prow)
  {
    var lit := atoms[i].text;
    var n := |name|;
    row := Falses(n + 1);
    prow := NoPrevs(n + 1);
    var j := 0;
    while j <= n
      invariant 0 <= j <= n + 1
      invariant |row| == n + 1 && |prow| == n + 1
      invariant forall k :: 0 <= k <= n ==> row[k] == ReachBelow(atoms, name, i, k, j)
      invariant FirstPrevRow(atoms, name, i + 1, row, prow)
    {
      if cur[j] && j + |lit| <= n && name[j..j + |lit|] == lit {
        if !row[j + |lit|] {
          FirstPredIs(atoms, name, i, j + |lit|, j, 0);
          row := row[j + |lit| := true];
          prow := prow[j + |lit| := PrevCell(true, i, j, false, SegmentCapture, 0, 0)];
        }
      }
      j := j + 1;
    }
    forall k | 0 <= k <= n
      ensures row[k] == Reach(atoms, name, i + 1, k)
    {
      ReachBelowSaturates(atoms, name, i, k, n + 1);
    }
  }

  /** The QMARK and CHARCLASS rows with predecessors: a CHAR capture. */
  method OneCharCaptureRow(atoms: seq<Atom>, name: string, i: nat, cur: seq<bool>) returns (row: seq<bool>, prow: seq<PrevCell>)
    requires i < |atoms| && (atoms[i].QMark? || atoms[i].Class?) && IsRow(atoms, name, i, cur)
    ensures IsRow(atoms, name, i + 1, row) && FirstPrevRow(atoms, name, i + 1, row, prow)
  {
    var n := |name|;
    row := Falses(n + 1);
    prow := NoPrevs(n + 1);
    var j := 0;
    while j < n
      invariant 0 <= j <= n
      invariant |row| == n + 1 && |prow| == n + 1
      invariant forall k :: 0 <= k <= n ==> row[k] == ReachBelow(atoms, name, i, k, j)
      invariant FirstPrevRow(atoms, name, i + 1, row, prow)
    {
      if cur[j] {
        var hit := true;
        if atoms[i].Class? {
          hit := CharClassMatch(atoms[i].cls, name[j]);
        }
        if hit && !row[j + 1] {
          FirstPredIs(atoms, name, i, j + 1, j, 0);
          row := row[j + 1 := true];
          prow := prow[j + 1 := PrevCell(true, i, j, true, CharCapture, j, j + 1)];
        }
      }
      j := j + 1;
    }
    forall k | 0 <= k <= n
      ensures row[k] == Reach(atoms, name, i + 1, k)
    {
      assert row[k] == ReachBelow(atoms, name, i, k, n + 1);
      ReachBelowSaturates(atoms, name, i, k, n + 1);
    }
  }

  /** A STAR cell k first reached from j: no position below j was reached. */
  lemma StarFirst(atoms: seq<Atom>, name: string, i: nat, j: nat, k: nat)
    requires i < |atoms| && atoms[i].Star? && j <= k <= |name|
    requires Reach(atoms, name, i, j) && !AnyReach(atoms, name, i, j)
    ensures FirstPred(atoms, name, i, k, 0) == j
  {
    forall u | 0 <= u < j
      ensures !Reach(atoms, name, i, u)
    {
      if Reach(atoms, name, i, u) {
        AnyReachFrom(atoms, name, i, u, j);
      }
    }
    FirstPredIs(atoms, name, i, k, j, 0);
  }

  /** The STAR row with predecessors: from each reached j, every k from j on
      not reached yet is reached now with a SEGMENT capture of name[j..k];
      the first j to reach k wins. */
  method StarCaptureRow(atoms: seq<Atom>, name: string, i: nat, cur: seq<bool>) returns (row: seq<bool>, prow: seq<PrevCell>)
    requires i < |atoms| && atoms[i].Star? && IsRow(atoms, name, i, cur)
    ensures IsRow(atoms, name, i + 1, row) && FirstPrevRow(atoms, name, i + 1, row, prow)
  {
    var n := |name|;
    row := Falses(n + 1);
    prow := NoPrevs(n + 1);
    var j := 0;
    while j <= n
      invariant 0 <= j <= n + 1
      invariant |row| == n + 1 && |prow| == n + 1
      invariant forall k :: 0 <= k <= n ==> row[k] == AnyReach(atoms, name, i, if j <= k then j else k + 1)
      invariant FirstPrevRow(atoms, name, i + 1, row, prow)
    {
      if cur[j] {
        var k := j;
        while k <= n
          invariant j <= k <= n + 1
          invariant |row| == n + 1 && |prow| == n + 1
          invariant forall q :: 0 <= q <= n ==> row[q] == (AnyReach(atoms, name, i, if j <= q then j else q + 1) || j <= q < k)
          invariant FirstPrevRow(atoms, name, i + 1, row, prow)
        {
          if !row[k] {
            StarFirst(atoms, name, i, j, k);
            row := row[k := true];
            prow := prow[k := PrevCell(true, i, j, true, SegmentCapture, j, k)];
          }
          k := k + 1;
        }
      }
      forall q | 0 <= q <= n
        ensures row[q] == AnyReach(atoms, name, i, if j + 1 <= q then j + 1 else q + 1)
      {
        assert AnyReach(atoms, name, i, j + 1) == (AnyReach(atoms, name, i, j) || Reach(atoms, name, i, j));
      }
      j := j + 1;
    }
    forall k | 0 <= k <= n
      ensures row[k] == Reach(atoms, name, i + 1, k)
    {
      StarReachBelow(atoms, name, i, k, k + 1);
    }
  }

  /** The rows filled so far, and their predecessor cells. */
  predicate Table(atoms: seq<Atom>, name: string, i: nat, dp: seq<seq<bool>>, prev: seq<seq<PrevCell>>) {
    |dp| == |atoms| + 1 && |prev| == |atoms| + 1 && i <= |atoms|
    && (forall r :: 0 <= r <= i ==> IsRow(atoms, name, r, dp[r]))
    && (forall r :: 1 <= r <= i ==> FirstPrevRow(atoms, name, r, dp[r], prev[r]))
    && |prev[0]| == |name| + 1 && prev[0][0].hasPrev
  }

  function Reverse<T>(s: seq<T>): (r: seq<T>)
    ensures |r| == |s|
  {
    if s == [] then [] else Reverse(s[1..]) + [s[0]]
  }

  lemma ReverseSnoc<T>(s: seq<T>, x: T)
    ensures Reverse(s + [x]) == [x] + Reverse(s)
  {
    if s != [] {
      assert (s + [x])[1..] == s[1..] + [x];
      ReverseSnoc(s[1..], x);
    } else {
      assert [] + [x] == [x];
    }
  }

  lemma AppendAssoc<T>(a: seq<T>, b: seq<T>, c: seq<T>)
    ensures (a + b) + c == a + (b + c)
  {
  }

  /** The first-reaching captures from (ci, cj) are those from its
      predecessor followed by what its cell captures. */
  lemma FirstCapsStep(atoms: seq<Atom>, name: string, ci: nat, cj: nat, p: PrevCell, c: seq<Capture>, rev: seq<Capture>)
    requires 1 <= ci <= |atoms| && cj <= |name|
    requires p == FirstPrev(atoms, name, ci, cj)
    requires c == (if p.capture then [Capture(p.kind, name[p.cs..p.ce])] else [])
    ensures p.pi == ci - 1 && p.pj <= cj
    ensures FirstCaps(atoms, name, ci, cj) + Reverse(rev) == FirstCaps(atoms, name, p.pi, p.pj) + (c + Reverse(rev))
  {
    assert FirstCaps(atoms, name, ci, cj) == FirstCaps(atoms, name, p.pi, p.pj) + c;
    AppendAssoc(FirstCaps(atoms, name, p.pi, p.pj), c, Reverse(rev));
  }

  /** One step of the backtrack: the atom that led to (ci, cj) rebuilds the
      name from its predecessor's position on. */
  lemma BacktrackStep(atoms: seq<Atom>, name: string, ci: nat, cj: nat, p: PrevCell, caps: seq<Capture>)
    requires ValidPrev(atoms, name, ci, cj, p) && cj <= |name|
    requires BuildSegment(atoms[ci..], caps) == Some(Built(name[cj..], []))
    ensures BuildSegment(atoms[ci - 1..], (if p.capture then [Capture(p.kind, name[p.cs..p.ce])] else []) + caps)
         == Some(Built(name[p.pj..], []))
  {
    var a := atoms[ci - 1];
    var all := (if p.capture then [Capture(p.kind, name[p.cs..p.ce])] else []) + caps;
    assert atoms[ci - 1..][0] == a && atoms[ci - 1..][1..] == atoms[ci..];
    assert name[p.pj..cj] + name[cj..] == name[p.pj..];
    if p.capture {
      assert all[0] == Capture(p.kind, name[p.cs..p.ce]) && all[1..] == caps;
    } else {
      assert all == caps;
    }
  }

  /** `MatchSegmentCapture`: the table of `MatchSegmentAtoms` with a
      predecessor table, then a backtrack from (A, N) collecting captures.
      The captures rebuild the name through the same segment. */
  method MatchSegmentCapture(seg: Segment, name: string) returns (ok: bool, caps: seq<Capture>)
    ensures ok <==> Matches(seg, name)
    ensures ok ==> caps == SegmentCaps(seg, name)
    ensures ok ==> BuildSegment(seg.atoms, caps) == Some(Built(name, []))
  {
    var atoms := seg.atoms;
    var n := |name|;
    var dp := seq(|atoms| + 1, _ => Falses(n + 1));
    dp := dp[0 := dp[0][0 := true]];
    var prev := seq(|atoms| + 1, _ => NoPrevs(n + 1));
    prev := prev[0 := prev[0][0 := PrevCell(true, 0, 0, false, SegmentCapture, 0, 0)]];
    var i := 0;
    while i < |atoms|
      invariant Table(atoms, name, i, dp, prev)
    {
      var a := atoms[i];
      if a.DoubleStar? {
        DoubleStarNeverMatches(seg, name, i);
        return false, [];
      }
      var row, prow;
      if a.Literal? {
        row, prow := LiteralCaptureRow(atoms, name, i, dp[i]);
      } else if a.QMark? || a.Class? {
        row, prow := OneCharCaptureRow(atoms, name, i, dp[i]);
      } else {
        row, prow := StarCaptureRow(atoms, name, i, dp[i]);
      }
      dp := dp[i + 1 := row];
      prev := prev[i + 1 := prow];
      i := i + 1;
    }
    ReachMatches(seg, name);
    if !dp[|atoms|][n] {
      return false, [];
    }
    caps := Backtrack(atoms, name, dp, prev);
    ok := true;
  }

  /** The backtrack loop of `MatchSegmentCapture` and the final reversal. The
      source's check for a cell without predecessor never fires: every reached
      cell has one. */
  method Backtrack(atoms: seq<Atom>, name: string, dp: seq<seq<bool>>, prev: seq<seq<PrevCell>>) returns (caps: seq<Capture>)
    requires Table(atoms, name, |atoms|, dp, prev) && dp[|atoms|][|name|]
    ensures caps == FirstCaps(atoms, name, |atoms|, |name|)
    ensures BuildSegment(atoms, caps) == Some(Built(name, []))
  {
    var rev: seq<Capture> := [];
    var ci: nat := |atoms|;
    var cj: nat := |name|;
    assert atoms[ci..] == [] && name[cj..] == [];
    assert FirstCaps(atoms, name, ci, cj) + Reverse(rev) == FirstCaps(atoms, name, ci, cj);
    while !(ci == 0 && cj == 0)
      invariant ci <= |atoms| && cj <= |name|
      invariant Reach(atoms, name, ci, cj)
      invariant BuildSegment(atoms[ci..], Reverse(rev)) == Some(Built(name[cj..], []))
      invariant FirstCaps(atoms, name, |atoms|, |name|) == FirstCaps(atoms, name, ci, cj) + Reverse(rev)
      decreases ci
    {
      assert ci > 0;
      assert dp[ci][cj];
      var p := prev[ci][cj];
      assert p == FirstPrev(atoms, name, ci, cj);
      FirstPrevValid(atoms, name, ci, cj);
      BacktrackStep(atoms, name, ci, cj, p, Reverse(rev));
      FirstCapsStep(atoms, name, ci, cj, p, if p.capture then [Capture(p.kind, name[p.cs..p.ce])] else [], rev);
      if p.capture {
        ReverseSnoc(rev, Capture(p.kind, name[p.cs..p.ce]));
        rev := rev + [Capture(p.kind, name[p.cs..p.ce])];
      } else {
        assert [] + Reverse(rev) == Reverse(rev);
      }
      ci, cj := p.pi, p.pj;
    }
    assert atoms[0..] == atoms && name[0..] == name;
    caps := Reverse(rev);
  }

  // ---------------------------------------------------------------------
  // Matching a path
  // ---------------------------------------------------------------------

  /** The pattern segments from pi on match the path segments from si on. */
  predicate PathMatch(segs: seq<Segment>, src: seq<string>, pi: nat, si: nat)
    decreases if pi <= |segs| then |segs| - pi else 0, 0
  {
    if pi >= |segs| then si == |src|
    else if si > |src| then false
    else if segs[pi].IsDoubleStarOnly() then SomeSplit(segs, src, pi + 1, si)
    else si < |src| && Matches(segs[pi], src[si]) && PathMatch(segs, src, pi + 1, si + 1)
  }

  /** The pattern segments from p on match the path segments from some t on,
      with si <= t: what a `**` segment before p leaves to them. */
  predicate SomeSplit(segs: seq<Segment>, src: seq<string>, p: nat, si: nat)
    decreases if p <= |segs| then |segs| - p else 0, 1
  {
    exists t :: si <= t <= |src| && PathMatch(segs, src, p, t)
  }

  /** No t with si <= t < upto lets the pattern segments from p on match. */
  predicate NoneBefore(segs: seq<Segment>, src: seq<string>, p: nat, si: nat, upto: nat) {
    forall u :: si <= u < upto ==> !PathMatch(segs, src, p, u)
  }

  /** Every failure recorded in the memo table is a real failure. */
  ghost predicate MemoSound(segs: seq<Segment>, src: seq<string>, memo: array2<int>)
    reads memo
  {
    memo.Length0 == |segs| + 1 && memo.Length1 == |src| + 1
    && forall p, s :: 0 <= p < memo.Length0 && 0 <= s < memo.Length1 && memo[p, s] == 0 ==> !PathMatch(segs, src, p, s)
  }

  lemma NoSplit(segs: seq<Segment>, src: seq<string>, p: nat, si: nat)
    requires NoneBefore(segs, src, p, si, |src| + 1)
    ensures !SomeSplit(segs, src, p, si)
  {
    forall u | si <= u <= |src|
      ensures !PathMatch(segs, src, p, u)
    {
    }
  }

  /** The first t, from t0 on, after which the pattern segments from p on
      match: the split `**` tries first. */
  function FirstSplit(segs: seq<Segment>, src: seq<string>, p: nat, t0: nat): (t: nat)
    ensures t0 <= t && (t0 <= |src| ==> t <= |src|)
    decreases |src| - t0
  {
    if |src| <= t0 || PathMatch(segs, src, p, t0) then t0
    else FirstSplit(segs, src, p, t0 + 1)
  }

  lemma {:induction false} FirstSplitFound(segs: seq<Segment>, src: seq<string>, p: nat, t0: nat)
    requires SomeSplit(segs, src, p, t0)
    ensures PathMatch(segs, src, p, FirstSplit(segs, src, p, t0))
    ensures NoneBefore(segs, src, p, t0, FirstSplit(segs, src, p, t0))
    decreases |src| - t0
  {
    if !PathMatch(segs, src, p, t0) {
      var u :| t0 <= u <= |src| && PathMatch(segs, src, p, u);
      assert SomeSplit(segs, src, p, t0 + 1);
      FirstSplitFound(segs, src, p, t0 + 1);
    }
  }

  lemma {:induction false} FirstSplitIs(segs: seq<Segment>, src: seq<string>, p: nat, t0: nat, t: nat)
    requires t0 <= t <= |src| && PathMatch(segs, src, p, t) && NoneBefore(segs, src, p, t0, t)
    ensures FirstSplit(segs, src, p, t0) == t
    decreases t - t0
  {
    if t0 < t {
      FirstSplitIs(segs, src, p, t0 + 1, t);
    }
  }

  /** The captures `MatchCaptureRec` produces from pattern segment pi and
      path segment si on: a `**` takes the shortest run of path segments
      after which the rest matches, and any other segment the captures of
      `MatchSegmentCapture`. */
  function PathCaps(segs: seq<Segment>, src: seq<string>, pi: nat, si: nat): seq<Capture>
    requires PathMatch(segs, src, pi, si)
    decreases if pi <= |segs| then |segs| - pi else 0
  {
    if pi >= |segs| then []
    else if segs[pi].IsDoubleStarOnly() then
      FirstSplitFound(segs, src, pi + 1, si);
      var t := FirstSplit(segs, src, pi + 1, si);
      [Capture(PathCapture, JoinWith(src[si..t], '/'))] + PathCaps(segs, src, pi + 1, t)
    else SegmentCaps(segs[pi], src[si]) + PathCaps(segs, src, pi + 1, si + 1)
  }

  /** A `**` step of the round trip: the PATH capture of src[si..t] splits
      back into those segments. */
  lemma InstDoubleStarStep(segs: seq<Segment>, src: seq<string>, pi: nat, si: nat, t: nat, rest: seq<Capture>)
    requires pi < |segs| && segs[pi].IsDoubleStarOnly() && si <= t <= |src| && CleanSegments(src)
    requires InstFrom(segs[pi + 1..], rest) == Some(Instance(src[t..], []))
    ensures InstFrom(segs[pi..], [Capture(PathCapture, JoinWith(src[si..t], '/'))] + rest) == Some(Instance(src[si..], []))
  {
    assert segs[pi..][0] == segs[pi] && segs[pi..][1..] == segs[pi + 1..];
    var caps := [Capture(PathCapture, JoinWith(src[si..t], '/'))] + rest;
    assert caps[0].kind == PathCapture && caps[1..] == rest;
    assert CleanSegments(src[si..t]) by {
      forall k | 0 <= k < |src[si..t]|
        ensures src[si..t][k] != [] && '/' !in src[si..t][k]
      {
        assert src[si..t][k] == src[si + k];
      }
    }
    SplitJoin(src[si..t]);
    assert src[si..t] + src[t..] == src[si..];
  }

  /** A single-segment step of the round trip. */
  lemma InstSegmentStep(segs: seq<Segment>, src: seq<string>, pi: nat, si: nat, local: seq<Capture>, rest: seq<Capture>)
    requires pi < |segs| && !segs[pi].IsDoubleStarOnly() && si < |src|
    requires BuildSegment(segs[pi].atoms, local) == Some(Built(src[si], []))
    requires InstFrom(segs[pi + 1..], rest) == Some(Instance(src[si + 1..], []))
    ensures InstFrom(segs[pi..], local + rest) == Some(Instance(src[si..], []))
  {
    assert segs[pi..][0] == segs[pi] && segs[pi..][1..] == segs[pi + 1..];
    BuildSegmentAppend(segs[pi].atoms, local, rest);
    assert [] + rest == rest;
    assert [src[si]] + src[si + 1..] == src[si..];
  }

  /** `**` takes the shortest run of path segments after which the rest of
      the pattern matches. */
  ghost predicate ShortestPath(segs: seq<Segment>, src: seq<string>, pi: nat, si: nat, c: Capture) {
    exists t :: si <= t <= |src| && c == Capture(PathCapture, JoinWith(src[si..t], '/'))
      && PathMatch(segs, src, pi + 1, t)
      && NoneBefore(segs, src, pi + 1, si, t)
  }

  /** `MatchCaptureRec`: the capture list is passed by value and the
      extended list is returned; on failure it comes back unchanged, which is
      what the source's push/pop and resize restore. */
  method MatchCaptureRec(pat: Pattern, src: seq<string>, pi: nat, si: nat, caps: seq<Capture>, memo: array2<int>)
      returns (ok: bool, capsOut: seq<Capture>)
    requires pi <= |pat.segments| && CleanSegments(src)
    requires MemoSound(pat.segments, src, memo)
    modifies memo
    ensures MemoSound(pat.segments, src, memo)
    ensures ok <==> PathMatch(pat.segments, src, pi, si)
    ensures !ok ==> capsOut == caps
    ensures ok ==> si <= |src| && |caps| <= |capsOut| && capsOut[..|caps|] == caps
                   && InstFrom(pat.segments[pi..], capsOut[|caps|..]) == Some(Instance(src[si..], []))
    ensures ok ==> capsOut == caps + PathCaps(pat.segments, src, pi, si)
    ensures ok && pi < |pat.segments| && pat.segments[pi].IsDoubleStarOnly() ==>
              |capsOut| > |caps| && ShortestPath(pat.segments, src, pi, si, capsOut[|caps|])
    decreases |pat.segments| - pi, 1
  {
    var segs := pat.segments;
    if pi == |segs| {
      if si == |src| {
        assert segs[pi..] == [] && src[si..] == [] && caps[..|caps|] == caps && caps[|caps|..] == [];
        assert caps + [] == caps;
      }
      return si == |src|, caps;
    }
    if si > |src| {
      return false, caps;
    }
    if memo[pi, si] == 0 {
      return false, caps;
    }
    if segs[pi].IsDoubleStarOnly() {
      ok, capsOut := MatchDoubleStar(pat, src, pi, si, caps, memo);
    } else {
      ok, capsOut := MatchOneSegment(pat, src, pi, si, caps, memo);
    }
  }

  /** A `**` segment whose first working split is t: the captures of the
      path are its PATH capture of src[si..t] followed by the rest. */
  lemma {:induction false} DoubleStarFound(segs: seq<Segment>, src: seq<string>, pi: nat, si: nat, t: nat, caps: seq<Capture>, rest: seq<Capture>)
    requires pi < |segs| && segs[pi].IsDoubleStarOnly() && si <= t <= |src| && CleanSegments(src)
    requires PathMatch(segs, src, pi + 1, t) && NoneBefore(segs, src, pi + 1, si, t)
    requires rest == PathCaps(segs, src, pi + 1, t)
    requires InstFrom(segs[pi + 1..], rest) == Some(Instance(src[t..], []))
    ensures var out := caps + [Capture(PathCapture, JoinWith(src[si..t], '/'))] + rest;
            PathMatch(segs, src, pi, si) && |caps| < |out| && out[..|caps|] == caps
            && InstFrom(segs[pi..], out[|caps|..]) == Some(Instance(src[si..], []))
            && ShortestPath(segs, src, pi, si, out[|caps|])
            && out == caps + PathCaps(segs, src, pi, si)
  {
    var c := Capture(PathCapture, JoinWith(src[si..t], '/'));
    var out := caps + [c] + rest;
    assert out[..|caps|] == caps && out[|caps|] == c;
    assert out[|caps|..] == [c] + rest;
    InstDoubleStarStep(segs, src, pi, si, t, rest);
    FirstSplitIs(segs, src, pi + 1, si, t);
    AppendAssoc(caps, [c], rest);
  }

  /** The `**` branch of `MatchCaptureRec`: try PATH captures of 0, 1, 2, ...
      path segments, shortest first. */
  method MatchDoubleStar(pat: Pattern, src: seq<string>, pi: nat, si: nat, caps: seq<Capture>, memo: array2<int>)
      returns (ok: bool, capsOut: seq<Capture>)
    requires pi < |pat.segments| && pat.segments[pi].IsDoubleStarOnly() && si <= |src| && CleanSegments(src)
    requires MemoSound(pat.segments, src, memo)
    modifies memo
    ensures MemoSound(pat.segments, src, memo)
    ensures ok <==> PathMatch(pat.segments, src, pi, si)
    ensures !ok ==> capsOut == caps
    ensures ok ==> |caps| < |capsOut| && capsOut[..|caps|] == caps
                   && InstFrom(pat.segments[pi..], capsOut[|caps|..]) == Some(Instance(src[si..], []))
                   && ShortestPath(pat.segments, src, pi, si, capsOut[|caps|])
    ensures ok ==> capsOut == caps + PathCaps(pat.segments, src, pi, si)
    decreases |pat.segments| - pi, 0
  {
    var segs := pat.segments;
    var t := si;
    while t <= |src|
      invariant si <= t <= |src| + 1
      invariant MemoSound(segs, src, memo)
      invariant NoneBefore(segs, src, pi + 1, si, t)
    {
      var c := JoinPathSegments(src, si, t);
      var pushed := caps + [Capture(PathCapture, c)];
      var found, capsNext := MatchCaptureRec(pat, src, pi + 1, t, pushed, memo);
      if found {
        ghost var rest := PathCaps(segs, src, pi + 1, t);
        assert capsNext == pushed + rest && capsNext[|pushed|..] == rest;
        DoubleStarFound(segs, src, pi, si, t, caps, rest);
        return true, capsNext;
      }
      t := t + 1;
    }
    NoSplit(segs, src, pi + 1, si);
    memo[pi, si] := 0;
    return false, caps;
  }

  /** A segment that is not `**` matching path segment si: the captures of
      the path are the segment's own followed by the rest. */
  lemma {:induction false} SegmentFound(segs: seq<Segment>, src: seq<string>, pi: nat, si: nat, caps: seq<Capture>,
                                        local: seq<Capture>, rest: seq<Capture>)
    requires pi < |segs| && !segs[pi].IsDoubleStarOnly() && si < |src|
    requires Matches(segs[pi], src[si]) && local == SegmentCaps(segs[pi], src[si])
    requires BuildSegment(segs[pi].atoms, local) == Some(Built(src[si], []))
    requires PathMatch(segs, src, pi + 1, si + 1) && rest == PathCaps(segs, src, pi + 1, si + 1)
    requires InstFrom(segs[pi + 1..], rest) == Some(Instance(src[si + 1..], []))
    ensures var out := caps + local + rest;
            PathMatch(segs, src, pi, si) && |caps| <= |out| && out[..|caps|] == caps
            && InstFrom(segs[pi..], out[|caps|..]) == Some(Instance(src[si..], []))
            && out == caps + PathCaps(segs, src, pi, si)
  {
    var out := caps + local + rest;
    assert out[..|caps|] == caps;
    assert out[|caps|..] == local + rest;
    InstSegmentStep(segs, src, pi, si, local, rest);
    AppendAssoc(caps, local, rest);
  }

  /** The branch of `MatchCaptureRec` for a segment that is not `**`: match
      one path segment with captures, then the rest. */
  method MatchOneSegment(pat: Pattern, src: seq<string>, pi: nat, si: nat, caps: seq<Capture>, memo: array2<int>)
      returns (ok: bool, capsOut: seq<Capture>)
    requires pi < |pat.segments| && !pat.segments[pi].IsDoubleStarOnly() && si <= |src| && CleanSegments(src)
    requires MemoSound(pat.segments, src, memo)
    modifies memo
    ensures MemoSound(pat.segments, src, memo)
    ensures ok <==> PathMatch(pat.segments, src, pi, si)
    ensures !ok ==> capsOut == caps
    ensures ok ==> |caps| <= |capsOut| && capsOut[..|caps|] == caps
                   && InstFrom(pat.segments[pi..], capsOut[|caps|..]) == Some(Instance(src[si..], []))
    ensures ok ==> capsOut == caps + PathCaps(pat.segments, src, pi, si)
    decreases |pat.segments| - pi, 0
  {
    var segs := pat.segments;
    if si >= |src| {
      memo[pi, si] := 0;
      return false, caps;
    }
    var segOk, local := MatchSegmentCapture(segs[pi], src[si]);
    if !segOk {
      memo[pi, si] := 0;
      return false, caps;
    }
    var oldSize := |caps|;
    var pushed := caps + local;
    var found, capsNext := MatchCaptureRec(pat, src, pi + 1, si + 1, pushed, memo);
    if found {
      ghost var rest := PathCaps(segs, src, pi + 1, si + 1);
      assert capsNext == pushed + rest && capsNext[|pushed|..] == rest;
      SegmentFound(segs, src, pi, si, caps, local, rest);
      return true, capsNext;
    }
    memo[pi, si] := 0;
    return false, capsNext[..oldSize];
  }

  /** The captures of a path that the pattern matches, as `MatchCapture`
      produces them: they rebuild the path's segments. */
  ghost predicate CapturesPath(pat: Pattern, s: string, caps: seq<Capture>) {
    PathMatch(pat.segments, Tokens(s, '/'), 0, 0)
    && InstFrom(pat.segments, caps) == Some(Instance(Tokens(s, '/'), []))
  }

  predicate Captured(pat: Pattern, s: string) {
    PathMatch(pat.segments, Tokens(s, '/'), 0, 0)
  }

  /** The captures `MatchCapture` produces for a path the pattern matches:
      one list, determined by the pattern and the path. */
  function CapsOf(pat: Pattern, s: string): seq<Capture>
    requires Captured(pat, s)
  {
    PathCaps(pat.segments, Tokens(s, '/'), 0, 0)
  }

  /** `MatchCapture`: split the path, start with an empty memo table, and
      match from the first segments. */
  method MatchCapture(pat: Pattern, s: string) returns (ok: bool, caps: seq<Capture>)
    ensures ok <==> Captured(pat, s)
    ensures ok ==> caps == CapsOf(pat, s)
    ensures ok ==> CapturesPath(pat, s, caps)
    ensures ok ==> InstantiateSpec(pat, caps) == Some(JoinWith(Tokens(s, '/'), '/'))
  {
    var src := SplitPathSegments(s);
    SplitPathSegmentsClean(s);
    var memo := new int[|pat.segments| + 1, |src| + 1]((_, _) => -1);
    ok, caps := MatchCaptureRec(pat, src, 0, 0, [], memo);
    if ok {
      assert pat.segments[0..] == pat.segments && src[0..] == src && caps[0..] == caps;
      assert [] + PathCaps(pat.segments, src, 0, 0) == PathCaps(pat.segments, src, 0, 0);
    }
  }

  /** Mapping a path through a pattern to itself gives back the path with
      its empty segments dropped, and a path in that form is unchanged. */
  lemma MapToSelf(s: string)
    requires s != [] && s[0] != '/' && s[|s| - 1] != '/'
    requires forall k :: 0 <= k < |s| - 1 ==> !(s[k] == '/' && s[k + 1] == '/')
    ensures JoinWith(Tokens(s, '/'), '/') == s
  {
    JoinTokens(s);
  }

  lemma {:induction false} JoinTokens(s: string)
    requires s != [] && s[0] != '/' && s[|s| - 1] != '/'
    requires forall k :: 0 <= k < |s| - 1 ==> !(s[k] == '/' && s[k + 1] == '/')
    ensures JoinWith(Tokens(s, '/'), '/') == s
    decreases |s|
  {
    var k := TokenEnd(s, '/');
    assert k > 0;
    TokensTakeRun(s, 0, k, '/');
    assert s[0..] == s && s[0..k] == s[..k];
    if k == |s| {
      assert s[k..] == [];
      assert s[..k] == s;
    } else {
      TokensSkipSeparator(s, k, '/');
      var rest := s[k + 1..];
      CleanAfterSeparator(s, k);
      JoinTokens(rest);
      var ts := Tokens(rest, '/');
      assert ts != [] by {
        assert rest != [];
        assert rest[0] != '/';
        TokensHead(rest);
      }
      assert Tokens(s, '/') == [s[..k]] + ts;
      assert ([s[..k]] + ts)[1..] == ts;
      assert s == s[..k] + ['/'] + rest;
    }
  }

  /** What follows a separator of a path without empty segments is again
      such a path. */
  lemma CleanAfterSeparator(s: string, k: nat)
    requires 0 < k < |s| && s[k] == '/' && s[|s| - 1] != '/'
    requires forall q :: 0 <= q < |s| - 1 ==> !(s[q] == '/' && s[q + 1] == '/')
    ensures var rest := s[k + 1..];
            rest != [] && rest[0] != '/' && rest[|rest| - 1] != '/'
            && forall q :: 0 <= q < |rest| - 1 ==> !(rest[q] == '/' && rest[q + 1] == '/')
  {
    var rest := s[k + 1..];
    assert k != |s| - 1;
    assert rest[0] != '/' by { assert !(s[k] == '/' && s[k + 1] == '/'); }
    forall q | 0 <= q < |rest| - 1
      ensures !(rest[q] == '/' && rest[q + 1] == '/')
    {
      assert rest[q] == s[k + 1 + q] && rest[q + 1] == s[k + 2 + q];
    }
  }

  lemma TokensHead(s: string)
    requires s != [] && s[0] != '/'
    ensures Tokens(s, '/') != []
  {
  }

  // ---------------------------------------------------------------------
  // MapGlobToGlob
  // ---------------------------------------------------------------------

  /** o is what the destination pattern makes of the captures that
      `MatchCapture` records on s: at most one o for each s. */
  ghost predicate MapsTo(fromPat: Pattern, toPat: Pattern, s: string, o: string) {
    Captured(fromPat, s) && InstantiateSpec(toPat, CapsOf(fromPat, s)) == Some(o)
  }

  /** The source pattern matches s, but the captures it records there do
      not instantiate the destination pattern. */
  ghost predicate Uninstantiable(fromPat: Pattern, toPat: Pattern, s: string) {
    Captured(fromPat, s) && InstantiateSpec(toPat, CapsOf(fromPat, s)).None?
  }

  /** Mapping "a_b_c" from `*_*` to `*-*` gives "a-b_c": the captures are
      the first-reached ones, and `MapsTo` allows no other output. */
  lemma FirstReachedMapExample()
    ensures var fromPat := Pattern(false, [Segment([Star, Literal("_"), Star])], "*_*");
            var toPat := Pattern(false, [Segment([Star, Literal("-"), Star])], "*-*");
            MapsTo(fromPat, toPat, "a_b_c", "a-b_c") && !MapsTo(fromPat, toPat, "a_b_c", "a_b-c")
  {
    var seg := Segment([Star, Literal("_"), Star]);
    var fromPat := Pattern(false, [seg], "*_*");
    var toPat := Pattern(false, [Segment([Star, Literal("-"), Star])], "*-*");
    var caps := [Capture(SegmentCapture, "a"), Capture(SegmentCapture, "b_c")];
    ExampleCaptured(seg, fromPat);
    ExampleInstance(toPat, caps);
    assert "a-b_c" != "a_b-c" by { assert "a-b_c"[1] != "a_b-c"[1]; }
  }

  lemma ExampleCaptured(seg: Segment, fromPat: Pattern)
    requires seg == Segment([Star, Literal("_"), Star]) && fromPat.segments == [seg]
    ensures Captured(fromPat, "a_b_c")
    ensures CapsOf(fromPat, "a_b_c") == [Capture(SegmentCapture, "a"), Capture(SegmentCapture, "b_c")]
  {
    var name := "a_b_c";
    TokensTakeRun(name, 0, 5, '/');
    assert name[0..] == name && name[0..5] == name && name[5..] == [];
    var src := Tokens(name, '/');
    assert src == [name];
    var atoms := seg.atoms;
    ReachNext(atoms, name, 0, 1);
    assert Step(atoms[1], name, 1, 2) by { assert name[1..2] == "_"; }
    ReachNext(atoms, name, 1, 2);
    ReachNext(atoms, name, 2, 5);
    ReachMatches(seg, name);
    assert PathMatch(fromPat.segments, src, 1, 1);
    assert PathMatch(fromPat.segments, src, 0, 0);
    FirstReachedWinsExample();
    var caps := SegmentCaps(seg, name);
    assert PathCaps(fromPat.segments, src, 1, 1) == [];
    assert PathCaps(fromPat.segments, src, 0, 0) == caps + [];
  }

  lemma ExampleInstance(toPat: Pattern, caps: seq<Capture>)
    requires toPat.segments == [Segment([Star, Literal("-"), Star])]
    requires caps == [Capture(SegmentCapture, "a"), Capture(SegmentCapture, "b_c")]
    ensures InstantiateSpec(toPat, caps) == Some("a-b_c")
  {
    var toAtoms := [Star, Literal("-"), Star];
    assert toAtoms[1..][1..] == toAtoms[2..] && toAtoms[2..][1..] == [];
    assert caps[1..][1..] == [] && "b_c" + [] == "b_c";
    assert BuildSegment(toAtoms[2..], caps[1..]) == Some(Built("b_c", []));
    assert BuildSegment(toAtoms[1..], caps[1..]) == Some(Built("-" + "b_c", []));
    assert BuildSegment(toAtoms, caps) == Some(Built("a" + ("-" + "b_c"), []));
    assert "a" + ("-" + "b_c") == "a-b_c";
    assert InstFrom(toPat.segments[1..], []) == Some(Instance([], []));
  }

  datatype MapErrorCode = CaptureError | InstantiateError

  datatype PassStatus = PassOk | PassFailed(code: MapErrorCode)

  /** What one source glob's pass leaves: its status, the sources kept for
      the next source glob and the outputs, both in list order. */
  datatype PassResult = PassResult(status: PassStatus, kept: seq<string>, outs: seq<string>)

  /** A pass result with sources kept and outputs made before it; a failure
      stays as it is. */
  function Prefixed(kept: seq<string>, outs: seq<string>, r: PassResult): PassResult {
    if r.status.PassOk? then PassResult(PassOk, kept + r.kept, outs + r.outs) else r
  }

  /** One source glob's pass over the list, source by source in list order:
      a source the glob does not capture is kept, or fails the pass on the
      last source glob; a captured source is instantiated from its `CapsOf`
      captures and erased, or fails the pass when that does not
      instantiate. */
  function PassSpec(fromPat: Pattern, toPat: Pattern, list: seq<string>, isLast: bool): PassResult
    decreases |list|
  {
    if list == [] then PassResult(PassOk, [], [])
    else if !Captured(fromPat, list[0]) then
      if isLast then PassResult(PassFailed(CaptureError), [], [])
      else Prefixed([list[0]], [], PassSpec(fromPat, toPat, list[1..], isLast))
    else
      match InstantiateSpec(toPat, CapsOf(fromPat, list[0]))
      case None => PassResult(PassFailed(InstantiateError), [], [])
      case Some(o) => Prefixed([], [o], PassSpec(fromPat, toPat, list[1..], isLast))
  }

  /** The elements of the list that f rejects, in list order. */
  function Rejected(f: string -> bool, list: seq<string>): seq<string>
    decreases |list|
  {
    if list == [] then []
    else (if f(list[0]) then [] else [list[0]]) + Rejected(f, list[1..])
  }

  /** The elements of the list that f selects, in list order. */
  function Selected(f: string -> bool, list: seq<string>): seq<string>
    decreases |list|
  {
    if list == [] then []
    else (if f(list[0]) then [list[0]] else []) + Selected(f, list[1..])
  }

  lemma {:induction false} RejectedMembers(f: string -> bool, list: seq<string>)
    ensures forall k :: 0 <= k < |Rejected(f, list)| ==> Rejected(f, list)[k] in list && !f(Rejected(f, list)[k])
    decreases |list|
  {
    if list != [] {
      var t := list[1..];
      RejectedMembers(f, t);
      var u, ut := Rejected(f, list), Rejected(f, t);
      assert u == (if f(list[0]) then [] else [list[0]]) + ut;
      forall k | 0 <= k < |u|
        ensures u[k] in list && !f(u[k])
      {
        if !f(list[0]) && k > 0 {
          assert u[k] == ut[k - 1];
        }
        if f(list[0]) {
          assert u[k] == ut[k];
        }
        if u[k] in t {
          assert u[k] in list;
        }
      }
    }
  }

  lemma {:induction false} SelectedMembers(f: string -> bool, list: seq<string>)
    ensures forall k :: 0 <= k < |Selected(f, list)| ==> Selected(f, list)[k] in list && f(Selected(f, list)[k])
    decreases |list|
  {
    if list != [] {
      var t := list[1..];
      SelectedMembers(f, t);
      var u, ut := Selected(f, list), Selected(f, t);
      assert u == (if f(list[0]) then [list[0]] else []) + ut;
      forall k | 0 <= k < |u|
        ensures u[k] in list && f(u[k])
      {
        if f(list[0]) && k > 0 {
          assert u[k] == ut[k - 1];
        }
        if !f(list[0]) {
          assert u[k] == ut[k];
        }
        if u[k] in t {
          assert u[k] in list;
        }
      }
    }
  }

  /** Every element is either selected or rejected. */
  lemma {:induction false} SplitBy(f: string -> bool, list: seq<string>)
    ensures multiset(Rejected(f, list)) + multiset(Selected(f, list)) == multiset(list)
    decreases |list|
  {
    if list != [] {
      var s, t := list[0], list[1..];
      SplitBy(f, t);
      assert multiset(list) == multiset{s} + multiset(t) by {
        assert list == [s] + t;
      }
      if f(s) {
        assert Rejected(f, list) == [] + Rejected(f, t) == Rejected(f, t);
        assert Selected(f, list) == [s] + Selected(f, t);
      } else {
        assert Rejected(f, list) == [s] + Rejected(f, t);
        assert Selected(f, list) == [] + Selected(f, t) == Selected(f, t);
      }
    }
  }

  function CapturedBy(p: Pattern): string -> bool {
    s => Captured(p, s)
  }

  /** The sources of the list the pattern does not capture, in list order. */
  function Uncaptured(p: Pattern, list: seq<string>): seq<string> {
    Rejected(CapturedBy(p), list)
  }

  /** The sources of the list the pattern captures, in list order. */
  function CapturedPart(p: Pattern, list: seq<string>): seq<string> {
    Selected(CapturedBy(p), list)
  }

  /** The uncaptured part holds only sources of the list the pattern does
      not capture. */
  lemma UncapturedMembers(p: Pattern, list: seq<string>)
    ensures forall k :: 0 <= k < |Uncaptured(p, list)| ==>
              Uncaptured(p, list)[k] in list && !Captured(p, Uncaptured(p, list)[k])
  {
    RejectedMembers(CapturedBy(p), list);
  }

  /** The captured part holds only sources of the list the pattern
      captures. */
  lemma CapturedMembers(p: Pattern, list: seq<string>)
    ensures forall k :: 0 <= k < |CapturedPart(p, list)| ==>
              CapturedPart(p, list)[k] in list && Captured(p, CapturedPart(p, list)[k])
  {
    SelectedMembers(CapturedBy(p), list);
  }

  /** Every source is either captured or not. */
  lemma PartsSplitList(p: Pattern, list: seq<string>)
    ensures multiset(Uncaptured(p, list)) + multiset(CapturedPart(p, list)) == multiset(list)
  {
    SplitBy(CapturedBy(p), list);
  }

  lemma PrefixedAssoc(k1: seq<string>, o1: seq<string>, k2: seq<string>, o2: seq<string>, r: PassResult)
    ensures Prefixed(k1, o1, Prefixed(k2, o2, r)) == Prefixed(k1 + k2, o1 + o2, r)
  {
    if r.status.PassOk? {
      AppendAssoc(k1, k2, r.kept);
      AppendAssoc(o1, o2, r.outs);
    }
  }

  /** How `PassSpec` treats the head of the list: an uncaptured source
      is kept (before the last source glob), a captured one with output o
      gives o. */
  lemma PassSpecKeeps(fromPat: Pattern, toPat: Pattern, list: seq<string>, isLast: bool)
    requires list != [] && !Captured(fromPat, list[0]) && !isLast
    ensures PassSpec(fromPat, toPat, list, isLast) == Prefixed([list[0]], [], PassSpec(fromPat, toPat, list[1..], isLast))
  {
  }

  lemma PassSpecMaps(fromPat: Pattern, toPat: Pattern, list: seq<string>, isLast: bool, o: string)
    requires list != [] && Captured(fromPat, list[0]) && InstantiateSpec(toPat, CapsOf(fromPat, list[0])) == Some(o)
    ensures PassSpec(fromPat, toPat, list, isLast) == Prefixed([], [o], PassSpec(fromPat, toPat, list[1..], isLast))
  {
  }

  /** A pass that succeeds keeps exactly the uncaptured sources, in order;
      on the last source glob nothing is kept. */
  lemma {:induction false} PassSpecKept(fromPat: Pattern, toPat: Pattern, list: seq<string>, isLast: bool)
    requires PassSpec(fromPat, toPat, list, isLast).status.PassOk?
    ensures PassSpec(fromPat, toPat, list, isLast).kept == Uncaptured(fromPat, list)
    ensures isLast ==> PassSpec(fromPat, toPat, list, isLast).kept == []
    decreases |list|
  {
    if list != [] {
      var s, t := list[0], list[1..];
      var rest := PassSpec(fromPat, toPat, t, isLast);
      if Captured(fromPat, s) {
        var o := InstantiateSpec(toPat, CapsOf(fromPat, s)).value;
        PassSpecMaps(fromPat, toPat, list, isLast, o);
        PassSpecKept(fromPat, toPat, t, isLast);
        assert Uncaptured(fromPat, list) == [] + Uncaptured(fromPat, t);
      } else {
        PassSpecKeeps(fromPat, toPat, list, isLast);
        PassSpecKept(fromPat, toPat, t, isLast);
      }
    }
  }

  /** A pass that succeeds maps the captured sources, in order, each to
      what `MapsTo` says. */
  lemma {:induction false} PassSpecOuts(fromPat: Pattern, toPat: Pattern, list: seq<string>, isLast: bool)
    requires PassSpec(fromPat, toPat, list, isLast).status.PassOk?
    ensures var r := PassSpec(fromPat, toPat, list, isLast);
            |r.outs| == |CapturedPart(fromPat, list)|
            && forall k :: 0 <= k < |r.outs| ==> MapsTo(fromPat, toPat, CapturedPart(fromPat, list)[k], r.outs[k])
    decreases |list|
  {
    if list != [] {
      var s, t := list[0], list[1..];
      var rest := PassSpec(fromPat, toPat, t, isLast);
      var ct := CapturedPart(fromPat, t);
      if Captured(fromPat, s) {
        var o := InstantiateSpec(toPat, CapsOf(fromPat, s)).value;
        PassSpecMaps(fromPat, toPat, list, isLast, o);
        PassSpecOuts(fromPat, toPat, t, isLast);
        var c := CapturedPart(fromPat, list);
        assert c == [s] + ct;
        assert MapsTo(fromPat, toPat, s, o);
        forall k | 0 <= k < |rest.outs| + 1
          ensures MapsTo(fromPat, toPat, c[k], ([o] + rest.outs)[k])
        {
          if k > 0 {
            assert c[k] == ct[k - 1] && ([o] + rest.outs)[k] == rest.outs[k - 1];
          }
        }
      } else {
        PassSpecKeeps(fromPat, toPat, list, isLast);
        PassSpecOuts(fromPat, toPat, t, isLast);
        assert CapturedPart(fromPat, list) == [] + ct == ct;
        assert [] + rest.outs == rest.outs;
      }
    }
  }

  /** A failed pass names its cause: on the last source glob a source it
      does not capture, or a source whose captures do not instantiate. */
  lemma {:induction false} PassSpecFails(fromPat: Pattern, toPat: Pattern, list: seq<string>, isLast: bool)
    ensures var r := PassSpec(fromPat, toPat, list, isLast);
            (r.status == PassFailed(CaptureError) ==> isLast && exists s :: s in list && !Captured(fromPat, s))
            && (r.status == PassFailed(InstantiateError) ==> exists s :: s in list && Uninstantiable(fromPat, toPat, s))
    decreases |list|
  {
    if list != [] {
      PassSpecFails(fromPat, toPat, list[1..], isLast);
      var s := list[0];
      if Captured(fromPat, s) && InstantiateSpec(toPat, CapsOf(fromPat, s)).None? {
        assert Uninstantiable(fromPat, toPat, s);
      } else {
        forall t | t in list[1..]
          ensures t in list
        {
        }
      }
    }
  }

  /** What a successful pass leaves: the mapped and kept sources split the
      list as multisets, each output is what `MapsTo` gives its source, the
      kept sources come from the list and are uncaptured, and on the last
      source glob nothing is kept. */
  ghost predicate PassSplits(fromPat: Pattern, toPat: Pattern, list: seq<string>, isLast: bool,
                             kept: seq<string>, outs: seq<string>, mapped: seq<string>) {
    multiset(kept) + multiset(mapped) == multiset(list) && |outs| == |mapped|
    && (forall k :: 0 <= k < |outs| ==> MapsTo(fromPat, toPat, mapped[k], outs[k]))
    && (forall k :: 0 <= k < |kept| ==> !Captured(fromPat, kept[k]) && kept[k] in list)
    && (isLast ==> kept == [])
  }

  /** A successful pass keeps the uncaptured sources and maps the captured
      ones, in list order, as `PassSplits` says. */
  lemma PassOkFacts(fromPat: Pattern, toPat: Pattern, list: seq<string>, isLast: bool)
    requires PassSpec(fromPat, toPat, list, isLast).status.PassOk?
    ensures PassSpec(fromPat, toPat, list, isLast).kept == Uncaptured(fromPat, list)
    ensures PassSplits(fromPat, toPat, list, isLast, PassSpec(fromPat, toPat, list, isLast).kept,
                       PassSpec(fromPat, toPat, list, isLast).outs, CapturedPart(fromPat, list))
  {
    PassSpecKept(fromPat, toPat, list, isLast);
    PassSpecOuts(fromPat, toPat, list, isLast);
    PartsSplitList(fromPat, list);
    UncapturedMembers(fromPat, list);
  }

  /** One source glob's pass of `MapGlobToGlob` over the remaining sources:
      each mapped source is erased from the list, an unmatched one stays, or
      stops the call when this is the last source glob. */
  method MapPass(fromPat: Pattern, toPat: Pattern, list: seq<string>, isLast: bool)
      returns (status: PassStatus, kept: seq<string>, outs: seq<string>, ghost mapped: seq<string>)
    ensures status == PassSpec(fromPat, toPat, list, isLast).status
    ensures status.PassOk? ==>
              kept == PassSpec(fromPat, toPat, list, isLast).kept && outs == PassSpec(fromPat, toPat, list, isLast).outs
    ensures status.PassOk? ==> kept == Uncaptured(fromPat, list) && mapped == CapturedPart(fromPat, list)
    ensures status.PassOk? ==> PassSplits(fromPat, toPat, list, isLast, kept, outs, mapped)
    ensures status == PassFailed(CaptureError) ==> isLast && exists s :: s in list && !Captured(fromPat, s)
    ensures status == PassFailed(InstantiateError) ==> exists s :: s in list && Uninstantiable(fromPat, toPat, s)
  {
    var remaining := list;
    var idx := 0;
    ghost var n := 0;
    outs := [];
    mapped := [];
    while idx < |remaining|
      invariant idx <= |remaining| && n <= |list|
      invariant remaining[idx..] == list[n..]
      invariant PassSpec(fromPat, toPat, list, isLast)
             == Prefixed(remaining[..idx], outs, PassSpec(fromPat, toPat, list[n..], isLast))
      decreases |remaining| - idx
    {
      var s := remaining[idx];
      assert s == list[n..][0] && list[n..][1..] == list[n + 1..];
      var ok, caps := MatchCapture(fromPat, s);
      if !ok {
        if isLast {
          PassSpecFails(fromPat, toPat, list, isLast);
          return PassFailed(CaptureError), remaining, outs, mapped;
        }
        PassSpecKeeps(fromPat, toPat, list[n..], isLast);
        PrefixedAssoc(remaining[..idx], outs, [s], [], PassSpec(fromPat, toPat, list[n + 1..], isLast));
        assert remaining[..idx] + [s] == remaining[..idx + 1];
        assert outs + [] == outs;
        idx := idx + 1;
        n := n + 1;
        continue;
      }
      var iok, out := Instantiate(toPat, caps);
      if !iok {
        PassSpecFails(fromPat, toPat, list, isLast);
        return PassFailed(InstantiateError), remaining, outs, mapped;
      }
      PassSpecMaps(fromPat, toPat, list[n..], isLast, out);
      PrefixedAssoc(remaining[..idx], outs, [], [out], PassSpec(fromPat, toPat, list[n + 1..], isLast));
      assert remaining[..idx] + [] == remaining[..idx];
      var erased := remaining[..idx] + remaining[idx + 1..];
      assert erased[..idx] == remaining[..idx] && erased[idx..] == remaining[idx + 1..];
      remaining := erased;
      outs := outs + [out];
      n := n + 1;
    }
    assert list[n..] == [] && remaining[..idx] == remaining;
    assert remaining + [] == remaining && outs + [] == outs;
    mapped := CapturedPart(fromPat, list);
    PassOkFacts(fromPat, toPat, list, isLast);
    return PassOk, remaining, outs, mapped;
  }

  /** Erasing the element at idx: one copy fewer, the elements before it
      unmoved. */
  lemma EraseAt(xs: seq<string>, idx: nat)
    requires idx < |xs|
    ensures multiset(xs[..idx] + xs[idx + 1..]) + multiset{xs[idx]} == multiset(xs)
    ensures forall k :: 0 <= k < idx ==> (xs[..idx] + xs[idx + 1..])[k] == xs[k]
  {
    assert xs == xs[..idx] + [xs[idx]] + xs[idx + 1..];
  }

  datatype MapOutcome =
    | MapOk(out: seq<string>)
    | FromParseError(err: ParseError)
    | ToParseError(err: ParseError)
    | MapFailed(code: MapErrorCode)

  /** An outcome with outputs made before it; a failure stays as it is. */
  function OutPrefixed(outs: seq<string>, m: MapOutcome): MapOutcome {
    if m.MapOk? then MapOk(outs + m.out) else m
  }

  lemma OutPrefixedAssoc(o1: seq<string>, o2: seq<string>, m: MapOutcome)
    ensures OutPrefixed(o1, OutPrefixed(o2, m)) == OutPrefixed(o1 + o2, m)
  {
    if m.MapOk? {
      AppendAssoc(o1, o2, m.out);
    }
  }

  /** The source-glob loop of `MapGlobToGlob` from source glob i on, with
      `remaining` the sources no earlier source glob captured: each glob is
      parsed, then makes its pass; the outputs are those of each pass in
      turn. */
  function MapFrom(globs: seq<string>, i: nat, toPat: Pattern, remaining: seq<string>): MapOutcome
    decreases |globs| - i
  {
    if i >= |globs| then MapOk([])
    else
      match ParseSpec(globs[i], DefaultOptions)
      case Failed(e) => FromParseError(e)
      case Ok(p) =>
        var r := PassSpec(p, toPat, remaining, i == |globs| - 1);
        if r.status.PassFailed? then MapFailed(r.status.code)
        else OutPrefixed(r.outs, MapFrom(globs, i + 1, toPat, r.kept))
  }

  /** `MapGlobToGlob`: the destination glob is parsed first. */
  function MapSpec(fromGlobs: seq<string>, toGlob: string, srcList: seq<string>): MapOutcome {
    match ParseSpec(toGlob, DefaultOptions)
    case Failed(e) => ToParseError(e)
    case Ok(toPat) => MapFrom(fromGlobs, 0, toPat, srcList)
  }

  /** The first of the patterns that captures s; |pats| when none does. */
  function FirstCapturing(pats: seq<Pattern>, s: string): (g: nat)
    ensures g <= |pats|
    ensures g < |pats| ==> Captured(pats[g], s)
    ensures forall h :: 0 <= h < g ==> !Captured(pats[h], s)
    decreases |pats|
  {
    if pats == [] then 0
    else if Captured(pats[0], s) then 0
    else
      var g := 1 + FirstCapturing(pats[1..], s);
      assert forall h :: 1 <= h < g ==> pats[h] == pats[1..][h - 1];
      g
  }

  /** The first source glob that captures s maps it to o: the sources a
      source glob captures are erased before the later ones run. */
  ghost predicate MappedByFirst(fromPats: seq<Pattern>, toPat: Pattern, s: string, o: string) {
    FirstCapturing(fromPats, s) < |fromPats| && MapsTo(fromPats[FirstCapturing(fromPats, s)], toPat, s, o)
  }

  /** The first |pats| source globs parse to pats. */
  predicate ParsedAll(globs: seq<string>, pats: seq<Pattern>) {
    |pats| <= |globs| && forall g :: 0 <= g < |pats| ==> ParseSpec(globs[g], DefaultOptions) == Ok(pats[g])
  }

  lemma ParsedExtend(globs: seq<string>, pats: seq<Pattern>, p: Pattern)
    requires ParsedAll(globs, pats) && |pats| < |globs| && ParseSpec(globs[|pats|], DefaultOptions) == Ok(p)
    ensures ParsedAll(globs, pats + [p])
  {
    forall g | 0 <= g < |pats| + 1
      ensures ParseSpec(globs[g], DefaultOptions) == Ok((pats + [p])[g])
    {
      if g < |pats| {
        assert (pats + [p])[g] == pats[g];
      }
    }
  }

  /** Every source glob parses. */
  predicate AllParse(globs: seq<string>) {
    forall g :: 0 <= g < |globs| ==> ParseSpec(globs[g], DefaultOptions).Ok?
  }

  /** The patterns of source globs that all parse. */
  function PatternsOf(globs: seq<string>): (pats: seq<Pattern>)
    requires AllParse(globs)
    ensures |pats| == |globs| && ParsedAll(globs, pats)
  {
    seq(|globs|, g requires 0 <= g < |globs| => ParseSpec(globs[g], DefaultOptions).value)
  }

  lemma ParsedAllIs(globs: seq<string>, pats: seq<Pattern>)
    requires ParsedAll(globs, pats) && |pats| == |globs|
    ensures AllParse(globs) && PatternsOf(globs) == pats
  {
    assert AllParse(globs);
    assert forall g :: 0 <= g < |pats| ==> PatternsOf(globs)[g] == pats[g];
  }

  /** Input the source-glob loop of `MapGlobToGlob` can map to toPat:
      there is a source glob, every source glob parses, and every source is
      captured by some source glob whose first one's captures instantiate
      toPat. */
  ghost predicate MappableTo(fromGlobs: seq<string>, toPat: Pattern, srcList: seq<string>) {
    fromGlobs != [] && AllParse(fromGlobs)
    && forall s :: s in srcList ==>
         var pats := PatternsOf(fromGlobs);
         FirstCapturing(pats, s) < |pats| && !Uninstantiable(pats[FirstCapturing(pats, s)], toPat, s)
  }

  /** Input `MapGlobToGlob` can map: the destination glob parses too. */
  ghost predicate Mappable(fromGlobs: seq<string>, toGlob: string, srcList: seq<string>) {
    ParseSpec(toGlob, DefaultOptions).Ok? && MappableTo(fromGlobs, ParseSpec(toGlob, DefaultOptions).value, srcList)
  }

  /** Some source is captured by none of the patterns. */
  ghost predicate NoneCaptures(pats: seq<Pattern>, srcList: seq<string>) {
    exists s :: s in srcList && forall g :: 0 <= g < |pats| ==> !Captured(pats[g], s)
  }

  /** Some source that no earlier pattern captures gets captures from the
      last pattern that do not instantiate toPat. */
  ghost predicate LastUninstantiable(pats: seq<Pattern>, toPat: Pattern, srcList: seq<string>)
    requires pats != []
  {
    exists s :: s in srcList && (forall g :: 0 <= g < |pats| - 1 ==> !Captured(pats[g], s))
                && Uninstantiable(pats[|pats| - 1], toPat, s)
  }

  /** A source no source glob captures makes the input unmappable. */
  lemma UncapturedNotMappable(fromGlobs: seq<string>, toPat: Pattern, srcList: seq<string>, pats: seq<Pattern>, s: string)
    requires ParsedAll(fromGlobs, pats) && |pats| == |fromGlobs| && s in srcList
    requires forall g :: 0 <= g < |pats| ==> !Captured(pats[g], s)
    ensures !MappableTo(fromGlobs, toPat, srcList)
  {
    ParsedAllIs(fromGlobs, pats);
    assert FirstCapturing(pats, s) == |pats|;
  }

  /** A source that the first source glob to capture it cannot map makes
      the input unmappable. */
  lemma UninstantiableNotMappable(fromGlobs: seq<string>, toPat: Pattern, srcList: seq<string>, pats: seq<Pattern>, s: string)
    requires ParsedAll(fromGlobs, pats) && pats != [] && s in srcList
    requires forall g :: 0 <= g < |pats| - 1 ==> !Captured(pats[g], s)
    requires Uninstantiable(pats[|pats| - 1], toPat, s)
    ensures !MappableTo(fromGlobs, toPat, srcList)
  {
    if AllParse(fromGlobs) {
      var full := PatternsOf(fromGlobs);
      var g := |pats| - 1;
      assert forall h :: 0 <= h < |pats| ==> full[h] == pats[h];
      assert Captured(full[g], s);
      assert FirstCapturing(full, s) == g;
    }
  }

  /** A successful call with a source glob maps every source through the
      first source glob that captures it, so its input was mappable. */
  lemma OkIsMappable(fromGlobs: seq<string>, toPat: Pattern, srcList: seq<string>, pats: seq<Pattern>,
                     sources: seq<string>, outs: seq<string>)
    requires ParsedAll(fromGlobs, pats) && |pats| == |fromGlobs| && fromGlobs != []
    requires multiset(sources) == multiset(srcList) && |sources| == |outs|
    requires forall k :: 0 <= k < |sources| ==> MappedByFirst(pats, toPat, sources[k], outs[k])
    ensures MappableTo(fromGlobs, toPat, srcList)
  {
    ParsedAllIs(fromGlobs, pats);
    forall s | s in srcList
      ensures FirstCapturing(pats, s) < |pats| && !Uninstantiable(pats[FirstCapturing(pats, s)], toPat, s)
    {
      assert s in multiset(sources);
      var k :| 0 <= k < |sources| && sources[k] == s;
      assert MappedByFirst(pats, toPat, s, outs[k]);
    }
  }

  /** Why a failed pass of the source glob p fails the call: a source no
      source glob so far captures, or captures of p that do not
      instantiate on a source no earlier glob captured. */
  lemma FailedPass(fromGlobs: seq<string>, toPat: Pattern, srcList: seq<string>, pats: seq<Pattern>, p: Pattern,
                   remaining: seq<string>, code: MapErrorCode, isLast: bool)
    requires ParsedAll(fromGlobs, pats + [p])
    requires forall s :: s in remaining ==> s in srcList
    requires forall s, g :: s in remaining && 0 <= g < |pats| ==> !Captured(pats[g], s)
    requires code == CaptureError ==> isLast && |pats| + 1 == |fromGlobs| && exists s :: s in remaining && !Captured(p, s)
    requires code == InstantiateError ==> exists s :: s in remaining && Uninstantiable(p, toPat, s)
    ensures code == CaptureError ==> NoneCaptures(pats + [p], srcList)
    ensures code == InstantiateError ==> LastUninstantiable(pats + [p], toPat, srcList)
  {
    var pats' := pats + [p];
    if code == CaptureError {
      UncapturedByAll(pats, p, remaining);
    } else {
      var s :| s in remaining && Uninstantiable(p, toPat, s);
      assert pats'[|pats'| - 1] == p;
      assert forall g :: 0 <= g < |pats'| - 1 ==> pats'[g] == pats[g];
    }
  }

  /** The causes `MapSources` names for each failure rule out mappable
      input: input that can be mapped is. */
  lemma FailureCauses(fromGlobs: seq<string>, toPat: Pattern, srcList: seq<string>, outcome: MapOutcome, pats: seq<Pattern>)
    requires !outcome.ToParseError?
    requires outcome.FromParseError? ==>
               exists g :: 0 <= g < |fromGlobs| && ParseSpec(fromGlobs[g], DefaultOptions).Failed?
    requires outcome.MapFailed? ==> ParsedAll(fromGlobs, pats) && pats != []
    requires outcome == MapFailed(CaptureError) ==> |pats| == |fromGlobs| && NoneCaptures(pats, srcList)
    requires outcome == MapFailed(InstantiateError) ==> LastUninstantiable(pats, toPat, srcList)
    ensures MappableTo(fromGlobs, toPat, srcList) ==> outcome.MapOk?
  {
    match outcome
    case MapFailed(code) =>
      if code == CaptureError {
        var s :| s in srcList && forall g :: 0 <= g < |pats| ==> !Captured(pats[g], s);
        UncapturedNotMappable(fromGlobs, toPat, srcList, pats, s);
      } else {
        var s :| s in srcList && (forall g :: 0 <= g < |pats| - 1 ==> !Captured(pats[g], s))
                 && Uninstantiable(pats[|pats| - 1], toPat, s);
        UninstantiableNotMappable(fromGlobs, toPat, srcList, pats, s);
      }
    case FromParseError(_) =>
      var g :| 0 <= g < |fromGlobs| && ParseSpec(fromGlobs[g], DefaultOptions).Failed?;
    case _ =>
  }

  /** A source the last pass leaves uncaptured was left uncaptured by every
      earlier source glob too. */
  lemma UncapturedByAll(pats: seq<Pattern>, p: Pattern, remaining: seq<string>)
    requires forall s, g :: s in remaining && 0 <= g < |pats| ==> !Captured(pats[g], s)
    requires exists s :: s in remaining && !Captured(p, s)
    ensures exists s :: s in remaining && forall g :: 0 <= g < |pats + [p]| ==> !Captured((pats + [p])[g], s)
  {
    var s :| s in remaining && !Captured(p, s);
    forall g | 0 <= g < |pats + [p]|
      ensures !Captured((pats + [p])[g], s)
    {
      if g < |pats| {
        assert (pats + [p])[g] == pats[g];
      }
    }
  }

  /** The sources a pass keeps are captured by none of the source globs so
      far. */
  lemma KeptUncaptured(pats: seq<Pattern>, p: Pattern, remaining: seq<string>, kept: seq<string>)
    requires forall s, g :: s in remaining && 0 <= g < |pats| ==> !Captured(pats[g], s)
    requires forall k :: 0 <= k < |kept| ==> kept[k] in remaining && !Captured(p, kept[k])
    ensures forall s, g :: s in kept && 0 <= g < |pats + [p]| ==> !Captured((pats + [p])[g], s)
  {
    forall s, g | s in kept && 0 <= g < |pats + [p]|
      ensures !Captured((pats + [p])[g], s)
    {
      var k :| 0 <= k < |kept| && kept[k] == s;
      if g < |pats| {
        assert (pats + [p])[g] == pats[g];
      }
    }
  }

  /** `MapGlobToGlob` with several source globs: each source glob in turn
      maps and erases the sources it captures; a source none captures fails
      the call at the last source glob. The outcome is `MapSpec`: the
      outputs pass by pass, in list order within a pass. Every output comes
      from a distinct source, mapped by the first source glob that captures
      it. Each failure names its cause, and the call succeeds with a
      source glob exactly when the input is mappable. */
  method MapGlobToGlob(fromGlobs: seq<string>, toGlob: string, srcList: seq<string>)
      returns (outcome: MapOutcome, ghost sources: seq<string>, ghost fromPats: seq<Pattern>)
    ensures outcome == MapSpec(fromGlobs, toGlob, srcList)
    ensures ParseSpec(toGlob, DefaultOptions).Failed? ==> outcome == ToParseError(ParseSpec(toGlob, DefaultOptions).error)
    ensures outcome.MapOk? ==>
              ParseSpec(toGlob, DefaultOptions).Ok?
              && |fromPats| == |fromGlobs| && ParsedAll(fromGlobs, fromPats)
              && |sources| == |outcome.out|
              && multiset(sources) <= multiset(srcList)
              && (fromGlobs != [] ==> multiset(sources) == multiset(srcList))
              && (forall k :: 0 <= k < |sources| ==>
                    MappedByFirst(fromPats, ParseSpec(toGlob, DefaultOptions).value, sources[k], outcome.out[k]))
    ensures outcome.FromParseError? ==>
              ParseSpec(toGlob, DefaultOptions).Ok?
              && exists g :: 0 <= g < |fromGlobs| && ParseSpec(fromGlobs[g], DefaultOptions).Failed?
                             && outcome.err == ParseSpec(fromGlobs[g], DefaultOptions).error
                             && forall h :: 0 <= h < g ==> ParseSpec(fromGlobs[h], DefaultOptions).Ok?
    ensures outcome.MapFailed? ==>
              ParseSpec(toGlob, DefaultOptions).Ok? && ParsedAll(fromGlobs, fromPats) && fromPats != []
    ensures outcome == MapFailed(CaptureError) ==>
              |fromPats| == |fromGlobs|
              && NoneCaptures(fromPats, srcList)
    ensures outcome == MapFailed(InstantiateError) ==>
              LastUninstantiable(fromPats, ParseSpec(toGlob, DefaultOptions).value, srcList)
    ensures Mappable(fromGlobs, toGlob, srcList) ==> outcome.MapOk?
    ensures outcome.MapOk? && fromGlobs != [] ==> Mappable(fromGlobs, toGlob, srcList)
  {
    var toPat := Parse(toGlob, DefaultOptions);
    if toPat.Failed? {
      return ToParseError(toPat.error), [], [];
    }
    outcome, sources, fromPats := MapSources(fromGlobs, toPat.value, srcList);
    FailureCauses(fromGlobs, toPat.value, srcList, outcome, fromPats);
    if outcome.MapOk? && fromGlobs != [] {
      OkIsMappable(fromGlobs, toPat.value, srcList, fromPats, sources, outcome.out);
    }
  }


  /** The sources each pass of `MapFrom` maps, pass by pass, in list order
      within a pass. */
  ghost function MapFromSources(globs: seq<string>, i: nat, toPat: Pattern, remaining: seq<string>): seq<string>
    decreases |globs| - i
  {
    if i >= |globs| then []
    else
      match ParseSpec(globs[i], DefaultOptions)
      case Failed(_) => []
      case Ok(p) =>
        var r := PassSpec(p, toPat, remaining, i == |globs| - 1);
        if r.status.PassFailed? then []
        else CapturedPart(p, remaining) + MapFromSources(globs, i + 1, toPat, r.kept)
  }

  /** The patterns `MapFrom` parses from source glob i on, up to the first
      failure. */
  ghost function MapFromPats(globs: seq<string>, i: nat, toPat: Pattern, remaining: seq<string>): seq<Pattern>
    decreases |globs| - i
  {
    if i >= |globs| then []
    else
      match ParseSpec(globs[i], DefaultOptions)
      case Failed(_) => []
      case Ok(p) =>
        var r := PassSpec(p, toPat, remaining, i == |globs| - 1);
        if r.status.PassFailed? then [p]
        else [p] + MapFromPats(globs, i + 1, toPat, r.kept)
  }

  /** Sources mapped by the pattern at i of fp, which no earlier pattern
      captures, are mapped by the first pattern that captures them. */
  lemma MappedAtFirst(fp: seq<Pattern>, i: nat, toPat: Pattern, mapped: seq<string>, outs: seq<string>)
    requires i < |fp| && |mapped| == |outs|
    requires forall k, h :: 0 <= k < |mapped| && 0 <= h < i ==> !Captured(fp[h], mapped[k])
    requires forall k :: 0 <= k < |outs| ==> MapsTo(fp[i], toPat, mapped[k], outs[k])
    ensures forall k :: 0 <= k < |mapped| ==> MappedByFirst(fp, toPat, mapped[k], outs[k])
  {
    forall k | 0 <= k < |mapped|
      ensures MappedByFirst(fp, toPat, mapped[k], outs[k])
    {
      assert Captured(fp[i], mapped[k]);
      assert FirstCapturing(fp, mapped[k]) == i;
    }
  }

  lemma MappedConcat(fp: seq<Pattern>, toPat: Pattern, s1: seq<string>, o1: seq<string>, s2: seq<string>, o2: seq<string>)
    requires |s1| == |o1| && |s2| == |o2|
    requires forall k :: 0 <= k < |s1| ==> MappedByFirst(fp, toPat, s1[k], o1[k])
    requires forall k :: 0 <= k < |s2| ==> MappedByFirst(fp, toPat, s2[k], o2[k])
    ensures forall k :: 0 <= k < |s1 + s2| ==> MappedByFirst(fp, toPat, (s1 + s2)[k], (o1 + o2)[k])
  {
    forall k | 0 <= k < |s1 + s2|
      ensures MappedByFirst(fp, toPat, (s1 + s2)[k], (o1 + o2)[k])
    {
      if k >= |s1| {
        assert (s1 + s2)[k] == s2[k - |s1|] && (o1 + o2)[k] == o2[k - |s1|];
      }
    }
  }

  /** One step of `MapFrom`: source glob i parses to p and its pass
      succeeds. */
  lemma MapFromStep(globs: seq<string>, i: nat, toPat: Pattern, remaining: seq<string>, p: Pattern, r: PassResult)
    requires i < |globs| && ParseSpec(globs[i], DefaultOptions) == Ok(p)
    requires r == PassSpec(p, toPat, remaining, i == |globs| - 1) && r.status.PassOk?
    ensures MapFrom(globs, i, toPat, remaining) == OutPrefixed(r.outs, MapFrom(globs, i + 1, toPat, r.kept))
    ensures MapFromSources(globs, i, toPat, remaining)
         == CapturedPart(p, remaining) + MapFromSources(globs, i + 1, toPat, r.kept)
    ensures MapFromPats(globs, i, toPat, remaining) == [p] + MapFromPats(globs, i + 1, toPat, r.kept)
  {
  }

  /** A successful `MapFrom` parses every source glob. */
  lemma {:induction false} MapFromOkParsed(globs: seq<string>, i: nat, toPat: Pattern, remaining: seq<string>, pats: seq<Pattern>)
    requires ParsedAll(globs, pats) && |pats| == i
    requires MapFrom(globs, i, toPat, remaining).MapOk?
    ensures var fp := pats + MapFromPats(globs, i, toPat, remaining);
            |fp| == |globs| && ParsedAll(globs, fp)
    decreases |globs| - i
  {
    if i < |globs| {
      var p := ParseSpec(globs[i], DefaultOptions).value;
      var r := PassSpec(p, toPat, remaining, i == |globs| - 1);
      MapFromStep(globs, i, toPat, remaining, p, r);
      ParsedExtend(globs, pats, p);
      MapFromOkParsed(globs, i + 1, toPat, r.kept, pats + [p]);
      AppendAssoc(pats, [p], MapFromPats(globs, i + 1, toPat, r.kept));
    } else {
      assert pats + [] == pats;
    }
  }

  /** A successful `MapFrom` makes one output per source it maps, and maps
      every source it is given when a source glob is left. */
  lemma {:induction false} MapFromOkSources(globs: seq<string>, i: nat, toPat: Pattern, remaining: seq<string>)
    requires MapFrom(globs, i, toPat, remaining).MapOk?
    ensures var srcs := MapFromSources(globs, i, toPat, remaining);
            |srcs| == |MapFrom(globs, i, toPat, remaining).out|
            && multiset(srcs) <= multiset(remaining)
            && (i < |globs| ==> multiset(srcs) == multiset(remaining))
    decreases |globs| - i
  {
    if i < |globs| {
      var p := ParseSpec(globs[i], DefaultOptions).value;
      var r := PassSpec(p, toPat, remaining, i == |globs| - 1);
      MapFromStep(globs, i, toPat, remaining, p, r);
      PassSpecKept(p, toPat, remaining, i == |globs| - 1);
      PassSpecOuts(p, toPat, remaining, i == |globs| - 1);
      PartsSplitList(p, remaining);
      MapFromOkSources(globs, i + 1, toPat, r.kept);
      if i + 1 == |globs| {
        assert MapFromSources(globs, i + 1, toPat, r.kept) == [];
      }
    }
  }

  /** The sources a successful pass keeps are captured by none of the
      source globs so far. */
  lemma KeptStep(pats: seq<Pattern>, p: Pattern, toPat: Pattern, remaining: seq<string>, isLast: bool)
    requires forall s, g :: s in remaining && 0 <= g < |pats| ==> !Captured(pats[g], s)
    requires PassSpec(p, toPat, remaining, isLast).status.PassOk?
    ensures forall s, g :: s in PassSpec(p, toPat, remaining, isLast).kept && 0 <= g < |pats + [p]| ==>
              !Captured((pats + [p])[g], s)
  {
    UncapturedMembers(p, remaining);
    PassSpecKept(p, toPat, remaining, isLast);
    KeptUncaptured(pats, p, remaining, PassSpec(p, toPat, remaining, isLast).kept);
  }

  /** The outputs of a successful pass of the pattern at i of fp, over
      sources no earlier pattern captures, are mapped by the first pattern
      that captures their source. */
  lemma PassMappedFirst(fp: seq<Pattern>, i: nat, toPat: Pattern, remaining: seq<string>, isLast: bool)
    requires i < |fp|
    requires forall s, g :: s in remaining && 0 <= g < i ==> !Captured(fp[g], s)
    requires PassSpec(fp[i], toPat, remaining, isLast).status.PassOk?
    ensures var c := CapturedPart(fp[i], remaining);
            var outs := PassSpec(fp[i], toPat, remaining, isLast).outs;
            |c| == |outs| && forall k :: 0 <= k < |c| ==> MappedByFirst(fp, toPat, c[k], outs[k])
  {
    var p := fp[i];
    var c := CapturedPart(p, remaining);
    PassSpecOuts(p, toPat, remaining, isLast);
    CapturedMembers(p, remaining);
    MappedAtFirst(fp, i, toPat, c, PassSpec(p, toPat, remaining, isLast).outs);
  }

  /** A successful `MapFrom` maps each source through the first source
      glob that captures it. */
  lemma {:induction false} MapFromOkFirst(globs: seq<string>, i: nat, toPat: Pattern, remaining: seq<string>, pats: seq<Pattern>)
    requires ParsedAll(globs, pats) && |pats| == i
    requires forall s, g :: s in remaining && 0 <= g < i ==> !Captured(pats[g], s)
    requires MapFrom(globs, i, toPat, remaining).MapOk?
    ensures var srcs := MapFromSources(globs, i, toPat, remaining);
            var outs := MapFrom(globs, i, toPat, remaining).out;
            var fp := pats + MapFromPats(globs, i, toPat, remaining);
            forall k :: 0 <= k < |srcs| && k < |outs| ==> MappedByFirst(fp, toPat, srcs[k], outs[k])
    decreases |globs| - i
  {
    if i < |globs| {
      var p := ParseSpec(globs[i], DefaultOptions).value;
      var isLast := i == |globs| - 1;
      var r := PassSpec(p, toPat, remaining, isLast);
      MapFromStep(globs, i, toPat, remaining, p, r);
      ParsedExtend(globs, pats, p);
      KeptStep(pats, p, toPat, remaining, isLast);
      MapFromOkFirst(globs, i + 1, toPat, r.kept, pats + [p]);
      MapFromOkSources(globs, i + 1, toPat, r.kept);
      var rest := MapFromPats(globs, i + 1, toPat, r.kept);
      AppendAssoc(pats, [p], rest);
      var fp := pats + ([p] + rest);
      assert fp[i] == p;
      assert forall h :: 0 <= h < i ==> fp[h] == pats[h];
      PassMappedFirst(fp, i, toPat, remaining, isLast);
      MappedConcat(fp, toPat, CapturedPart(p, remaining), r.outs,
                   MapFromSources(globs, i + 1, toPat, r.kept), MapFrom(globs, i + 1, toPat, r.kept).out);
    }
  }

  /** A source parse error from `MapFrom` is the error of the first source
      glob that fails to parse. */
  lemma {:induction false} MapFromParseFacts(globs: seq<string>, i: nat, toPat: Pattern, remaining: seq<string>, pats: seq<Pattern>)
    requires ParsedAll(globs, pats) && |pats| == i
    requires MapFrom(globs, i, toPat, remaining).FromParseError?
    ensures exists g :: i <= g < |globs| && ParseSpec(globs[g], DefaultOptions).Failed?
                        && MapFrom(globs, i, toPat, remaining).err == ParseSpec(globs[g], DefaultOptions).error
                        && forall h :: 0 <= h < g ==> ParseSpec(globs[h], DefaultOptions).Ok?
    decreases |globs| - i
  {
    if ParseSpec(globs[i], DefaultOptions).Failed? {
      assert forall h :: 0 <= h < i ==> ParseSpec(globs[h], DefaultOptions).Ok?;
    } else {
      var p := ParseSpec(globs[i], DefaultOptions).value;
      var r := PassSpec(p, toPat, remaining, i == |globs| - 1);
      ParsedExtend(globs, pats, p);
      MapFromParseFacts(globs, i + 1, toPat, r.kept, pats + [p]);
    }
  }

  /** A failed pass in `MapFrom` names its cause among the patterns parsed
      so far: a source no source glob captures, or a source no earlier glob
      captured whose captures from the last one do not instantiate. */
  lemma {:induction false} MapFromFailFacts(globs: seq<string>, i: nat, toPat: Pattern, remaining: seq<string>,
                                             pats: seq<Pattern>, srcList: seq<string>)
    requires ParsedAll(globs, pats) && |pats| == i
    requires forall s :: s in remaining ==> s in srcList
    requires forall s, g :: s in remaining && 0 <= g < i ==> !Captured(pats[g], s)
    requires MapFrom(globs, i, toPat, remaining).MapFailed?
    ensures var m := MapFrom(globs, i, toPat, remaining);
            var fp := pats + MapFromPats(globs, i, toPat, remaining);
            ParsedAll(globs, fp) && fp != []
            && (m.code == CaptureError ==> |fp| == |globs| && NoneCaptures(fp, srcList))
            && (m.code == InstantiateError ==> LastUninstantiable(fp, toPat, srcList))
    decreases |globs| - i
  {
    var p := ParseSpec(globs[i], DefaultOptions).value;
    var isLast := i == |globs| - 1;
    var r := PassSpec(p, toPat, remaining, isLast);
    ParsedExtend(globs, pats, p);
    if r.status.PassFailed? {
      PassSpecFails(p, toPat, remaining, isLast);
      FailedPass(globs, toPat, srcList, pats, p, remaining, r.status.code, isLast);
    } else {
      KeptStep(pats, p, toPat, remaining, isLast);
      PassSpecKept(p, toPat, remaining, isLast);
      UncapturedMembers(p, remaining);
      MapFromFailFacts(globs, i + 1, toPat, r.kept, pats + [p], srcList);
      AppendAssoc(pats, [p], MapFromPats(globs, i + 1, toPat, r.kept));
    }
  }

  /** What `MapFrom` from the first source glob gives, with the sources
      it maps and the patterns it parses. */
  lemma MapFromFacts(fromGlobs: seq<string>, toPat: Pattern, srcList: seq<string>)
    ensures var outcome := MapFrom(fromGlobs, 0, toPat, srcList);
            var sources := MapFromSources(fromGlobs, 0, toPat, srcList);
            var fromPats := MapFromPats(fromGlobs, 0, toPat, srcList);
            !outcome.ToParseError?
            && (outcome.MapOk? ==>
                  |fromPats| == |fromGlobs| && ParsedAll(fromGlobs, fromPats)
                  && |sources| == |outcome.out|
                  && multiset(sources) <= multiset(srcList)
                  && (fromGlobs != [] ==> multiset(sources) == multiset(srcList))
                  && (forall k :: 0 <= k < |sources| ==> MappedByFirst(fromPats, toPat, sources[k], outcome.out[k])))
            && (outcome.FromParseError? ==>
                  exists g :: 0 <= g < |fromGlobs| && ParseSpec(fromGlobs[g], DefaultOptions).Failed?
                              && outcome.err == ParseSpec(fromGlobs[g], DefaultOptions).error
                              && forall h :: 0 <= h < g ==> ParseSpec(fromGlobs[h], DefaultOptions).Ok?)
            && (outcome.MapFailed? ==> ParsedAll(fromGlobs, fromPats) && fromPats != [])
            && (outcome == MapFailed(CaptureError) ==> |fromPats| == |fromGlobs| && NoneCaptures(fromPats, srcList))
            && (outcome == MapFailed(InstantiateError) ==> LastUninstantiable(fromPats, toPat, srcList))
  {
    var outcome := MapFrom(fromGlobs, 0, toPat, srcList);
    assert [] + MapFromPats(fromGlobs, 0, toPat, srcList) == MapFromPats(fromGlobs, 0, toPat, srcList);
    if outcome.MapOk? {
      MapFromOkParsed(fromGlobs, 0, toPat, srcList, []);
      MapFromOkSources(fromGlobs, 0, toPat, srcList);
      MapFromOkFirst(fromGlobs, 0, toPat, srcList, []);
    } else if outcome.FromParseError? {
      MapFromParseFacts(fromGlobs, 0, toPat, srcList, []);
    } else if outcome.MapFailed? {
      MapFromFailFacts(fromGlobs, 0, toPat, srcList, [], srcList);
    } else {
      MapFromNeverToParse(fromGlobs, 0, toPat, srcList);
    }
  }

  lemma {:induction false} MapFromNeverToParse(globs: seq<string>, i: nat, toPat: Pattern, remaining: seq<string>)
    ensures !MapFrom(globs, i, toPat, remaining).ToParseError?
    decreases |globs| - i
  {
    if i < |globs| && ParseSpec(globs[i], DefaultOptions).Ok? {
      var p := ParseSpec(globs[i], DefaultOptions).value;
      var r := PassSpec(p, toPat, remaining, i == |globs| - 1);
      if r.status.PassOk? {
        MapFromNeverToParse(globs, i + 1, toPat, r.kept);
      }
    }
  }

  /** The source-glob loop of `MapGlobToGlob`, once the destination glob
      has parsed to toPat. */
  method MapSources(fromGlobs: seq<string>, toPat: Pattern, srcList: seq<string>)
      returns (outcome: MapOutcome, ghost sources: seq<string>, ghost fromPats: seq<Pattern>)
    ensures outcome == MapFrom(fromGlobs, 0, toPat, srcList)
    ensures !outcome.ToParseError?
    ensures outcome.MapOk? ==>
              |fromPats| == |fromGlobs| && ParsedAll(fromGlobs, fromPats)
              && |sources| == |outcome.out|
              && multiset(sources) <= multiset(srcList)
              && (fromGlobs != [] ==> multiset(sources) == multiset(srcList))
              && (forall k :: 0 <= k < |sources| ==> MappedByFirst(fromPats, toPat, sources[k], outcome.out[k]))
    ensures outcome.FromParseError? ==>
              exists g :: 0 <= g < |fromGlobs| && ParseSpec(fromGlobs[g], DefaultOptions).Failed?
                          && outcome.err == ParseSpec(fromGlobs[g], DefaultOptions).error
                          && forall h :: 0 <= h < g ==> ParseSpec(fromGlobs[h], DefaultOptions).Ok?
    ensures outcome.MapFailed? ==> ParsedAll(fromGlobs, fromPats) && fromPats != []
    ensures outcome == MapFailed(CaptureError) ==>
              |fromPats| == |fromGlobs|
              && NoneCaptures(fromPats, srcList)
    ensures outcome == MapFailed(InstantiateError) ==>
              LastUninstantiable(fromPats, toPat, srcList)
  {
    var outList: seq<string> := [];
    var remaining := srcList;
    var i := 0;
    outcome := MapOk([]);
    while i < |fromGlobs|
      invariant 0 <= i <= |fromGlobs|
      invariant MapFrom(fromGlobs, 0, toPat, srcList) == OutPrefixed(outList, MapFrom(fromGlobs, i, toPat, remaining))
    {
      var fromPat := Parse(fromGlobs[i], DefaultOptions);
      if fromPat.Failed? {
        outcome := FromParseError(fromPat.error);
        break;
      }
      var status, kept, outs, mapped := MapPass(fromPat.value, toPat, remaining, i == |fromGlobs| - 1);
      if status.PassFailed? {
        outcome := MapFailed(status.code);
        break;
      }
      MapFromStep(fromGlobs, i, toPat, remaining, fromPat.value, PassResult(status, kept, outs));
      OutPrefixedAssoc(outList, outs, MapFrom(fromGlobs, i + 1, toPat, kept));
      outList := outList + outs;
      remaining := kept;
      i := i + 1;
    }
    if outcome.MapOk? {
      assert outList + [] == outList;
      outcome := MapOk(outList);
    }
    sources := MapFromSources(fromGlobs, 0, toPat, srcList);
    fromPats := MapFromPats(fromGlobs, 0, toPat, srcList);
    MapFromFacts(fromGlobs, toPat, srcList);
  }
}
