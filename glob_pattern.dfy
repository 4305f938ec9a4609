/** The glob representation and its parser (`Arcana::Glob::Parse` and the
    static helpers it uses). A pattern is normalised, split on the separator
    into segments, and each segment is parsed into atoms: literal runs, `*`,
    `?`, character classes `[...]`, and `**` when it is a whole segment.

    Each parsing routine is an imperative method proved equal to a functional
    specification (`ClassSpec`, `SegmentSpec`, `SplitSpec`, `ParseSpec`); the
    lemmas at the end state the parser's documented behaviour on those. */
module GlobPattern {
  import opened Wrappers
  import opened Support

  // ---------------------------------------------------------------------
  // Types (Glob.h)
  // ---------------------------------------------------------------------

  datatype ErrorCode =
    | NoError
    | EmptyPattern
    | InvalidEscape
    | UnclosedCharClass
    | EmptyCharClass
    | InvalidRange
    | InvalidDoubleStar

  datatype ParseError = ParseError(code: ErrorCode, offset: nat)

  datatype CharRange = CharRange(first: char, last: char)

  datatype CharClass = CharClass(negated: bool, singles: seq<char>, ranges: seq<CharRange>)

  datatype Atom =
    | Literal(text: string)
    | Star
    | QMark
    | Class(cls: CharClass)
    | DoubleStar

  datatype Segment = Segment(atoms: seq<Atom>)
  {
    predicate IsDoubleStarOnly() {
      |atoms| == 1 && atoms[0].DoubleStar?
    }
  }

  datatype Pattern = Pattern(absolute: bool, segments: seq<Segment>, normalized: string)

  datatype Options = Options(separator: char, backslashEscape: bool, doublestarSegmentOnly: bool)

  const DefaultOptions: Options := Options('/', true, true)

  /** The outcome of a parsing step: a value, or the error that stopped it. */
  datatype Parsed<T> = Ok(value: T) | Failed(error: ParseError)

  // ---------------------------------------------------------------------
  // Normalisation
  // ---------------------------------------------------------------------

  predicate IsMeta(c: char) {
    c == '*' || c == '?' || c == '[' || c == ']' || c == '\\'
  }

  /** The character `Normalize` writes for c. */
  function NormalChar(c: char, opt: Options): char {
    if c == '\\' && opt.separator == '/' then '/' else c
  }

  /** `Normalize`: with '/' as separator every backslash becomes '/'. */
  method Normalize(input: string, opt: Options) returns (s: string)
    ensures |s| == |input|
    ensures forall k :: 0 <= k < |input| ==> s[k] == NormalChar(input[k], opt)
  {
    s := [];
    var i := 0;
    while i < |input|
      invariant 0 <= i <= |input|
      invariant |s| == i
      invariant forall k :: 0 <= k < i ==> s[k] == NormalChar(input[k], opt)
    {
      var c := input[i];
      if c == '\\' && opt.separator == '/' {
        s := s + ['/'];
      } else {
        s := s + [c];
      }
      i := i + 1;
    }
  }

  function Normalized(input: string, opt: Options): (s: string)
    ensures |s| == |input|
    ensures forall k :: 0 <= k < |input| ==> s[k] == NormalChar(input[k], opt)
  {
    seq(|input|, k requires 0 <= k < |input| => NormalChar(input[k], opt))
  }

  /** With '/' as separator the normalised pattern keeps its length, holds no
      backslash, and differs from the input only where the input had one. */
  lemma NormalizeSlashes(input: string, opt: Options)
    requires opt.separator == '/'
    ensures |Normalized(input, opt)| == |input|
    ensures '\\' !in Normalized(input, opt)
    ensures forall k :: 0 <= k < |input| ==>
              Normalized(input, opt)[k] == if input[k] == '\\' then '/' else input[k]
  {
    var s := Normalized(input, opt);
    forall k | 0 <= k < |s|
      ensures s[k] != '\\'
    {
      assert s[k] == NormalChar(input[k], opt);
    }
  }

  // ---------------------------------------------------------------------
  // Character classes
  // ---------------------------------------------------------------------

  datatype Read = Read(ch: char, next: nat)

  /** The `read_char` lambda: one character, or an escaped one; none at the
      end or after a trailing backslash. */
  function ReadChar(seg: string, i: nat, opt: Options): (r: Option<Read>)
    ensures r.Some? ==> i < r.value.next <= |seg|
  {
    if i >= |seg| then None
    else if opt.backslashEscape && seg[i] == '\\' then
      if i + 1 >= |seg| then None else Some(Read(seg[i + 1], i + 2))
    else Some(Read(seg[i], i + 1))
  }

  datatype ClassResult = ClassOk(cls: CharClass, close: nat) | ClassErr(err: ParseError)

  /** The main loop of `ParseCharClass` from index i, with the class read so
      far and the `any` flag. */
  function ClassFrom(seg: string, i: nat, cls: CharClass, any: bool, start: nat, base: nat, opt: Options): (r: ClassResult)
    ensures r.ClassOk? ==> i <= r.close < |seg| && seg[r.close] == ']'
    decreases |seg| - i
  {
    if i >= |seg| then ClassErr(ParseError(UnclosedCharClass, base + start))
    else if seg[i] == ']' then
      if !any then ClassErr(ParseError(EmptyCharClass, base + start)) else ClassOk(cls, i)
    else
      match ReadChar(seg, i, opt)
      case None => ClassErr(ParseError(UnclosedCharClass, base + start))
      case Some(Read(first, i1)) =>
        if i1 < |seg| && seg[i1] == '-' && i1 + 1 < |seg| && seg[i1 + 1] != ']' then
          match ReadChar(seg, i1 + 1, opt)
          case None => ClassErr(ParseError(InvalidRange, base + i1 + 1))
          case Some(Read(last, i2)) =>
            if first > last then ClassErr(ParseError(InvalidRange, base + (i2 - 1)))
            else ClassFrom(seg, i2, cls.(ranges := cls.ranges + [CharRange(first, last)]), true, start, base, opt)
        else ClassFrom(seg, i1, cls.(singles := cls.singles + [first]), true, start, base, opt)
  }

  /** `ParseCharClass` on the '[' at index i: on success the class and the
      index of its closing ']'. */
  function ClassSpec(seg: string, i: nat, base: nat, opt: Options): (r: ClassResult)
    requires i < |seg|
    ensures r.ClassOk? ==> i < r.close < |seg| && seg[r.close] == ']'
  {
    var j := i + 1;
    if j >= |seg| then ClassErr(ParseError(UnclosedCharClass, base + i))
    else
      var negated := seg[j] == '^';
      var k := if negated then j + 1 else j;
      if k >= |seg| then ClassErr(ParseError(UnclosedCharClass, base + i))
      else ClassFrom(seg, k, CharClass(negated, [], []), false, i, base, opt)
  }

  /** `ParseCharClass`: the index is passed by reference in the source and is
      returned here as `close`. */
  method ParseCharClass(seg: string, i0: nat, base: nat, opt: Options) returns (r: ClassResult)
    requires i0 < |seg|
    ensures r == ClassSpec(seg, i0, base, opt)
  {
    var start := i0;
    var i := i0 + 1;
    if i >= |seg| {
      return ClassErr(ParseError(UnclosedCharClass, base + start));
    }
    var negated := false;
    if seg[i] == '^' {
      negated := true;
      i := i + 1;
    }
    if i >= |seg| {
      return ClassErr(ParseError(UnclosedCharClass, base + start));
    }
    var singles: seq<char> := [];
    var ranges: seq<CharRange> := [];
    var any := false;
    while i < |seg|
      invariant ClassFrom(seg, i, CharClass(negated, singles, ranges), any, start, base, opt) == ClassSpec(seg, i0, base, opt)
      decreases |seg| - i
    {
      if seg[i] == ']' {
        if !any {
          return ClassErr(ParseError(EmptyCharClass, base + start));
        }
        return ClassOk(CharClass(negated, singles, ranges), i);
      }
      var rd := ReadChar(seg, i, opt);
      if rd.None? {
        return ClassErr(ParseError(UnclosedCharClass, base + start));
      }
      var first := rd.value.ch;
      i := rd.value.next;
      if i < |seg| && seg[i] == '-' && i + 1 < |seg| && seg[i + 1] != ']' {
        i := i + 1;
        var rd2 := ReadChar(seg, i, opt);
        if rd2.None? {
          return ClassErr(ParseError(InvalidRange, base + i));
        }
        var last := rd2.value.ch;
        i := rd2.value.next;
        if first > last {
          return ClassErr(ParseError(InvalidRange, base + (i - 1)));
        }
        ranges := ranges + [CharRange(first, last)];
        any := true;
        continue;
      }
      singles := singles + [first];
      any := true;
    }
    return ClassErr(ParseError(UnclosedCharClass, base + start));
  }

  // ---------------------------------------------------------------------
  // Segments
  // ---------------------------------------------------------------------

  /** `EmitLiteralIfAny`: a pending non-empty literal run becomes an atom. */
  function Flush(lit: string, atoms: seq<Atom>): (r: seq<Atom>)
    ensures lit == [] ==> r == atoms
    ensures lit != [] ==> r == atoms + [Literal(lit)]
  {
    if lit == [] then atoms else atoms + [Literal(lit)]
  }

  /** A literal atom that spells "**", which whole-segment `**` forbids. */
  predicate HasDoubleStarLiteral(atoms: seq<Atom>) {
    exists k :: 0 <= k < |atoms| && atoms[k].Literal? && Contains(atoms[k].text, "**")
  }

  /** The end of `ParseSegment`: the check on literal runs when `**` is
      reserved for whole segments. */
  function SegmentEnd(atoms: seq<Atom>, base: nat, opt: Options): Parsed<Segment> {
    if opt.doublestarSegmentOnly && HasDoubleStarLiteral(atoms) then Failed(ParseError(InvalidDoubleStar, base))
    else Ok(Segment(atoms))
  }

  /** The main loop of `ParseSegment` from index i, with the pending literal
      run and the atoms emitted so far. */
  function SegFrom(seg: string, i: nat, lit: string, atoms: seq<Atom>, base: nat, opt: Options): Parsed<Segment>
    decreases |seg| - i
  {
    if i >= |seg| then SegmentEnd(Flush(lit, atoms), base, opt)
    else
      var c := seg[i];
      if opt.backslashEscape && c == '\\' then
        if i + 1 >= |seg| || !IsMeta(seg[i + 1]) then Failed(ParseError(InvalidEscape, base + i))
        else SegFrom(seg, i + 2, lit + [seg[i + 1]], atoms, base, opt)
      else if c == '*' then SegFrom(seg, i + 1, [], Flush(lit, atoms) + [Star], base, opt)
      else if c == '?' then SegFrom(seg, i + 1, [], Flush(lit, atoms) + [QMark], base, opt)
      else if c == '[' then
        match ClassSpec(seg, i, base, opt)
        case ClassErr(e) => Failed(e)
        case ClassOk(cls, close) => SegFrom(seg, close + 1, [], Flush(lit, atoms) + [Class(cls)], base, opt)
      else SegFrom(seg, i + 1, lit + [c], atoms, base, opt)
  }

  /** `ParseSegment` on the text between two separators. */
  function SegmentSpec(seg: string, base: nat, opt: Options): Parsed<Segment> {
    if seg == [] then Ok(Segment([]))
    else if opt.doublestarSegmentOnly && seg == "**" then Ok(Segment([DoubleStar]))
    else SegFrom(seg, 0, [], [], base, opt)
  }

  /** `ParseSegment`. */
  method ParseSegment(seg: string, base: nat, opt: Options) returns (r: Parsed<Segment>)
    ensures r == SegmentSpec(seg, base, opt)
  {
    if |seg| == 0 {
      return Ok(Segment([]));
    }
    if opt.doublestarSegmentOnly && seg == "**" {
      return Ok(Segment([DoubleStar]));
    }
    var literal: string := [];
    var atoms: seq<Atom> := [];
    var i := 0;
    while i < |seg|
      invariant SegFrom(seg, i, literal, atoms, base, opt) == SegmentSpec(seg, base, opt)
      decreases |seg| - i
    {
      var c := seg[i];
      if opt.backslashEscape && c == '\\' {
        if i + 1 >= |seg| {
          return Failed(ParseError(InvalidEscape, base + i));
        }
        var n := seg[i + 1];
        if !IsMeta(n) {
          return Failed(ParseError(InvalidEscape, base + i));
        }
        literal := literal + [n];
        i := i + 2;
        continue;
      }
      if c == '*' {
        atoms := Flush(literal, atoms) + [Star];
        literal := [];
        i := i + 1;
        continue;
      }
      if c == '?' {
        atoms := Flush(literal, atoms) + [QMark];
        literal := [];
        i := i + 1;
        continue;
      }
      if c == '[' {
        atoms := Flush(literal, atoms);
        literal := [];
        var cr := ParseCharClass(seg, i, base, opt);
        if cr.ClassErr? {
          return Failed(cr.err);
        }
        atoms := atoms + [Class(cr.cls)];
        i := cr.close + 1;
        continue;
      }
      literal := literal + [c];
      i := i + 1;
    }
    atoms := Flush(literal, atoms);
    if opt.doublestarSegmentOnly {
      var k := 0;
      while k < |atoms|
        invariant 0 <= k <= |atoms|
        invariant forall m :: 0 <= m < k ==> !(atoms[m].Literal? && Contains(atoms[m].text, "**"))
      {
        if atoms[k].Literal? && Contains(atoms[k].text, "**") {
          return Failed(ParseError(InvalidDoubleStar, base));
        }
        k := k + 1;
      }
    }
    return Ok(Segment(atoms));
  }

  // ---------------------------------------------------------------------
  // Splitting into segments
  // ---------------------------------------------------------------------

  /** A slice of the normalised pattern between separators, with its offset. */
  datatype Piece = Piece(offset: nat, text: string)

  /** The index of the first separator at or after `from`, or |norm|. */
  function NextSep(norm: string, from: nat, sep: char): (k: nat)
    requires from <= |norm|
    ensures from <= k <= |norm| && (k < |norm| ==> norm[k] == sep)
    decreases |norm| - from
  {
    if from == |norm| || norm[from] == sep then from else NextSep(norm, from + 1, sep)
  }

  /** No separator comes before the one `NextSep` finds. */
  lemma {:induction false} NextSepFirst(norm: string, from: nat, sep: char)
    requires from <= |norm|
    ensures forall j :: from <= j < NextSep(norm, from, sep) ==> norm[j] != sep
    decreases |norm| - from
  {
    if from < |norm| && norm[from] != sep {
      NextSepFirst(norm, from + 1, sep);
    }
  }

  /** The slices from index `from` on: up to the next separator, then the
      slices after it; an empty slice is kept. */
  function PiecesFrom(norm: string, from: nat, sep: char): seq<Piece>
    requires from <= |norm|
    decreases |norm| - from
  {
    var k := NextSep(norm, from, sep);
    [Piece(from, norm[from..k])] + (if k < |norm| then PiecesFrom(norm, k + 1, sep) else [])
  }

  /** Where the first segment starts: after a leading separator, if any. */
  function FirstSegmentStart(norm: string, sep: char): nat {
    if norm != [] && norm[0] == sep then 1 else 0
  }

  /** Parse each slice in order; the first error stops. */
  function ParseAll(pieces: seq<Piece>, opt: Options): Parsed<seq<Segment>> {
    if pieces == [] then Ok([])
    else
      match SegmentSpec(pieces[0].text, pieces[0].offset, opt)
      case Failed(e) => Failed(e)
      case Ok(s) =>
        match ParseAll(pieces[1..], opt)
        case Failed(e) => Failed(e)
        case Ok(rest) => Ok([s] + rest)
  }

  function Prepend(done: seq<Segment>, r: Parsed<seq<Segment>>): Parsed<seq<Segment>> {
    match r
    case Failed(e) => Failed(e)
    case Ok(rest) => Ok(done + rest)
  }

  /** `SplitSegments`: whether the pattern is absolute, and its segments. */
  function SplitSpec(norm: string, opt: Options): Parsed<seq<Segment>> {
    ParseAll(PiecesFrom(norm, FirstSegmentStart(norm, opt.separator), opt.separator), opt)
  }

  lemma PiecesAtSeparator(norm: string, start: nat, i: nat, sep: char)
    requires start <= i <= |norm|
    requires forall k :: start <= k < i ==> norm[k] != sep
    requires i < |norm| ==> norm[i] == sep
    ensures PiecesFrom(norm, start, sep)
         == [Piece(start, norm[start..i])] + (if i < |norm| then PiecesFrom(norm, i + 1, sep) else [])
  {
    NextSepFirst(norm, start, sep);
    assert NextSep(norm, start, sep) == i;
  }

  /** `SplitSegments`: slice at every separator and parse each slice. */
  method SplitSegments(norm: string, opt: Options) returns (absolute: bool, r: Parsed<seq<Segment>>)
    ensures absolute <==> norm != [] && norm[0] == opt.separator
    ensures r == SplitSpec(norm, opt)
  {
    var sep := opt.separator;
    var i := 0;
    absolute := false;
    if |norm| > 0 && norm[0] == sep {
      absolute := true;
      i := 1;
    }
    var segments: seq<Segment> := [];
    var segStart := i;
    var spec := SplitSpec(norm, opt);
    if spec.Ok? {
      assert [] + spec.value == spec.value;
    }
    while true
      invariant segStart <= |norm|
      invariant Prepend(segments, ParseAll(PiecesFrom(norm, segStart, sep), opt)) == spec
      decreases |norm| - segStart
    {
      i := SliceEnd(norm, segStart, sep);
      var parsed := ParseSlice(segments, norm, segStart, i, opt);
      if parsed.Failed? {
        return absolute, Failed(parsed.error);
      }
      if i == |norm| {
        return absolute, Ok(segments + [parsed.value]);
      }
      segments := segments + [parsed.value];
      segStart := i + 1;
    }
  }

  /** The scan of `SplitSegments` from the start of a slice to the next
      separator, or the end. */
  method SliceEnd(norm: string, start: nat, sep: char) returns (i: nat)
    requires start <= |norm|
    ensures start <= i <= |norm|
    ensures forall k :: start <= k < i ==> norm[k] != sep
    ensures i < |norm| ==> norm[i] == sep
  {
    i := start;
    while i < |norm| && norm[i] != sep
      invariant start <= i <= |norm|
      invariant forall k :: start <= k < i ==> norm[k] != sep
    {
      i := i + 1;
    }
  }

  /** The body of `SplitSegments` for the slice from start to the separator
      (or the end) at i. */
  method ParseSlice(done: seq<Segment>, norm: string, start: nat, i: nat, opt: Options) returns (parsed: Parsed<Segment>)
    requires start <= i <= |norm|
    requires forall k :: start <= k < i ==> norm[k] != opt.separator
    requires i < |norm| ==> norm[i] == opt.separator
    ensures parsed.Failed? ==> Prepend(done, ParseAll(PiecesFrom(norm, start, opt.separator), opt)) == Failed(parsed.error)
    ensures parsed.Ok? && i == |norm| ==> Prepend(done, ParseAll(PiecesFrom(norm, start, opt.separator), opt)) == Ok(done + [parsed.value])
    ensures parsed.Ok? && i < |norm| ==>
              Prepend(done, ParseAll(PiecesFrom(norm, start, opt.separator), opt))
              == Prepend(done + [parsed.value], ParseAll(PiecesFrom(norm, i + 1, opt.separator), opt))
  {
    parsed := ParseSegment(norm[start..i], start, opt);
    SplitStep(done, norm, start, i, opt.separator, opt, parsed);
  }

  /** One slice of `SplitSegments`: its parse either stops the split with
      its error, or is appended to the segments already parsed. */
  lemma SplitStep(done: seq<Segment>, norm: string, start: nat, i: nat, sep: char, opt: Options, parsed: Parsed<Segment>)
    requires start <= i <= |norm|
    requires forall k :: start <= k < i ==> norm[k] != sep
    requires i < |norm| ==> norm[i] == sep
    requires parsed == SegmentSpec(norm[start..i], start, opt)
    ensures parsed.Failed? ==> Prepend(done, ParseAll(PiecesFrom(norm, start, sep), opt)) == Failed(parsed.error)
    ensures parsed.Ok? && i == |norm| ==> Prepend(done, ParseAll(PiecesFrom(norm, start, sep), opt)) == Ok(done + [parsed.value])
    ensures parsed.Ok? && i < |norm| ==>
              Prepend(done, ParseAll(PiecesFrom(norm, start, sep), opt))
              == Prepend(done + [parsed.value], ParseAll(PiecesFrom(norm, i + 1, sep), opt))
  {
    PiecesAtSeparator(norm, start, i, sep);
    var p := Piece(start, norm[start..i]);
    var rest := if i < |norm| then PiecesFrom(norm, i + 1, sep) else [];
    assert ([p] + rest)[0] == p;
    assert ([p] + rest)[1..] == rest;
    if parsed.Ok? {
      var r := ParseAll(rest, opt);
      if r.Ok? {
        assert done + ([parsed.value] + r.value) == (done + [parsed.value]) + r.value;
      }
      assert [parsed.value] + [] == [parsed.value];
    }
  }

  // ---------------------------------------------------------------------
  // Parse
  // ---------------------------------------------------------------------

  /** `Parse`. */
  function ParseSpec(input: string, opt: Options): Parsed<Pattern> {
    if input == [] then Failed(ParseError(EmptyPattern, 0))
    else
      var norm := Normalized(input, opt);
      match SplitSpec(norm, opt)
      case Failed(e) => Failed(e)
      case Ok(segs) => Ok(Pattern(norm != [] && norm[0] == opt.separator, segs, norm))
  }

  /** `Parse`: an empty input is refused; otherwise normalise and split. */
  method Parse(input: string, opt: Options) returns (r: Parsed<Pattern>)
    ensures r == ParseSpec(input, opt)
  {
    if |input| == 0 {
      return Failed(ParseError(EmptyPattern, 0));
    }
    var norm := Normalize(input, opt);
    assert norm == Normalized(input, opt);
    var absolute, segs := SplitSegments(norm, opt);
    if segs.Failed? {
      return Failed(segs.error);
    }
    return Ok(Pattern(absolute, segs.value, norm));
  }

  // ---------------------------------------------------------------------
  // Properties of the parser
  // ---------------------------------------------------------------------

  /** Error codes the character-class parser can report. */
  predicate ClassCode(code: ErrorCode) {
    code == UnclosedCharClass || code == EmptyCharClass || code == InvalidRange
  }

  lemma {:induction false} ClassFromCodes(seg: string, i: nat, cls: CharClass, any: bool, start: nat, base: nat, opt: Options)
    ensures ClassFrom(seg, i, cls, any, start, base, opt).ClassErr? ==> ClassCode(ClassFrom(seg, i, cls, any, start, base, opt).err.code)
    decreases |seg| - i
  {
    if i < |seg| && seg[i] != ']' {
      match ReadChar(seg, i, opt)
      case None =>
      case Some(Read(first, i1)) =>
        if i1 < |seg| && seg[i1] == '-' && i1 + 1 < |seg| && seg[i1 + 1] != ']' {
          match ReadChar(seg, i1 + 1, opt)
          case None =>
          case Some(Read(last, i2)) =>
            if first <= last {
              ClassFromCodes(seg, i2, cls.(ranges := cls.ranges + [CharRange(first, last)]), true, start, base, opt);
            }
        } else {
          ClassFromCodes(seg, i1, cls.(singles := cls.singles + [first]), true, start, base, opt);
        }
    }
  }

  lemma {:induction false} SegFromCodes(seg: string, i: nat, lit: string, atoms: seq<Atom>, base: nat, opt: Options)
    ensures SegFrom(seg, i, lit, atoms, base, opt).Failed? ==> SegFrom(seg, i, lit, atoms, base, opt).error.code != EmptyPattern
    decreases |seg| - i
  {
    if i < |seg| {
      var c := seg[i];
      if opt.backslashEscape && c == '\\' {
        if !(i + 1 >= |seg| || !IsMeta(seg[i + 1])) {
          SegFromCodes(seg, i + 2, lit + [seg[i + 1]], atoms, base, opt);
        }
      } else if c == '*' {
        SegFromCodes(seg, i + 1, [], Flush(lit, atoms) + [Star], base, opt);
      } else if c == '?' {
        SegFromCodes(seg, i + 1, [], Flush(lit, atoms) + [QMark], base, opt);
      } else if c == '[' {
        var j := i + 1;
        if j < |seg| {
          var negated := seg[j] == '^';
          var k := if negated then j + 1 else j;
          if k < |seg| {
            ClassFromCodes(seg, k, CharClass(negated, [], []), false, i, base, opt);
          }
        }
        match ClassSpec(seg, i, base, opt)
        case ClassErr(e) =>
        case ClassOk(cls, close) =>
          SegFromCodes(seg, close + 1, [], Flush(lit, atoms) + [Class(cls)], base, opt);
      } else {
        SegFromCodes(seg, i + 1, lit + [c], atoms, base, opt);
      }
    }
  }

  lemma {:induction false} ParseAllCodes(pieces: seq<Piece>, opt: Options)
    ensures ParseAll(pieces, opt).Failed? ==> ParseAll(pieces, opt).error.code != EmptyPattern
  {
    if pieces != [] {
      var p := pieces[0];
      if p.text != [] && !(opt.doublestarSegmentOnly && p.text == "**") {
        SegFromCodes(p.text, 0, [], [], p.offset, opt);
      }
      ParseAllCodes(pieces[1..], opt);
    }
  }

  /** `EMPTY_PATTERN` is reported for the empty pattern, at offset 0, and for
      no other pattern. */
  lemma ParseEmptyIff(input: string, opt: Options)
    ensures ParseSpec(input, opt) == Failed(ParseError(EmptyPattern, 0)) <==> input == []
    ensures ParseSpec(input, opt).Failed? && ParseSpec(input, opt).error.code == EmptyPattern ==> input == []
  {
    if input != [] {
      var norm := Normalized(input, opt);
      ParseAllCodes(PiecesFrom(norm, FirstSegmentStart(norm, opt.separator), opt.separator), opt);
    }
  }

  /** Characters that stand for themselves in a segment. */
  predicate PlainChar(c: char) {
    c != '*' && c != '?' && c != '[' && c != '\\'
  }

  predicate Plain(w: string) {
    forall k :: 0 <= k < |w| ==> PlainChar(w[k])
  }

  /** A run of plain characters only extends the pending literal. */
  lemma {:induction false} SegFromPlainRun(seg: string, i: nat, j: nat, lit: string, atoms: seq<Atom>, base: nat, opt: Options)
    requires i <= j <= |seg|
    requires forall k :: i <= k < j ==> PlainChar(seg[k])
    ensures SegFrom(seg, i, lit, atoms, base, opt) == SegFrom(seg, j, lit + seg[i..j], atoms, base, opt)
    decreases j - i
  {
    if i == j {
      assert lit + seg[i..j] == lit;
    } else {
      SegFromPlainRun(seg, i + 1, j, lit + [seg[i]], atoms, base, opt);
      assert (lit + [seg[i]]) + seg[i + 1..j] == lit + seg[i..j];
    }
  }

  lemma StarFreeLiteral(w: string)
    requires Plain(w)
    ensures !Contains(w, "**")
    decreases |w|
  {
    if w != [] {
      assert PlainChar(w[0]);
      assert !("**" <= w);
      StarFreeLiteral(w[1..]);
    }
  }

  /** Literal runs of plain characters pass the final `**` check. */
  lemma PlainLiteralsEnd(atoms: seq<Atom>, base: nat, opt: Options)
    requires forall k :: 0 <= k < |atoms| && atoms[k].Literal? ==> Plain(atoms[k].text)
    ensures SegmentEnd(atoms, base, opt) == Ok(Segment(atoms))
  {
    forall k | 0 <= k < |atoms| && atoms[k].Literal?
      ensures !Contains(atoms[k].text, "**")
    {
      StarFreeLiteral(atoms[k].text);
    }
  }

  /** A non-empty segment of plain characters is one literal atom. */
  lemma {:induction false} SegmentPlain(w: string, base: nat, opt: Options)
    requires w != [] && Plain(w)
    ensures SegmentSpec(w, base, opt) == Ok(Segment([Literal(w)]))
  {
    assert w != "**" by { assert PlainChar(w[0]); }
    SegFromPlainRun(w, 0, |w|, [], [], base, opt);
    assert [] + w[0..|w|] == w;
    assert Flush(w, []) == [Literal(w)];
    PlainLiteralsEnd([Literal(w)], base, opt);
  }

  lemma SegFromStar(seg: string, i: nat, lit: string, atoms: seq<Atom>, base: nat, opt: Options)
    requires i < |seg| && seg[i] == '*'
    ensures SegFrom(seg, i, lit, atoms, base, opt) == SegFrom(seg, i + 1, [], Flush(lit, atoms) + [Star], base, opt)
  {
  }

  /** "*" followed by plain text is a star and a literal: the suffix test. */
  lemma {:induction false} SegmentStarThenLiteral(w: string, base: nat, opt: Options)
    requires w != [] && Plain(w)
    ensures SegmentSpec("*" + w, base, opt) == Ok(Segment([Star, Literal(w)]))
  {
    var seg := "*" + w;
    assert seg != "**" by { assert seg[1] == w[0]; assert PlainChar(w[0]); }
    assert seg[0] == '*';
    SegFromStar(seg, 0, [], [], base, opt);
    assert Flush([], []) + [Star] == [Star];
    SegFromPlainRun(seg, 1, |seg|, [], [Star], base, opt);
    assert seg[1..|seg|] == w;
    assert [] + w == w;
    var atoms := [Star, Literal(w)];
    assert Flush(w, [Star]) == atoms;
    assert forall k :: 0 <= k < |atoms| && atoms[k].Literal? ==> k == 1;
    PlainLiteralsEnd(atoms, base, opt);
  }

  /** Plain text followed by "*" is a literal and a star: the prefix test. */
  lemma {:induction false} SegmentLiteralThenStar(w: string, base: nat, opt: Options)
    requires w != [] && Plain(w)
    ensures SegmentSpec(w + "*", base, opt) == Ok(Segment([Literal(w), Star]))
  {
    var seg := w + "*";
    assert seg[0] == w[0] && PlainChar(w[0]);
    assert forall k :: 0 <= k < |w| ==> PlainChar(seg[k]);
    SegFromPlainRun(seg, 0, |w|, [], [], base, opt);
    assert seg[0..|w|] == w;
    assert [] + w == w;
    assert seg[|w|] == '*';
    SegFromStar(seg, |w|, w, [], base, opt);
    var atoms := [Literal(w), Star];
    assert Flush(w, []) + [Star] == atoms;
    assert forall k :: 0 <= k < |atoms| && atoms[k].Literal? ==> k == 0;
    PlainLiteralsEnd(atoms, base, opt);
  }

  /** The segment "**" is one `DOUBLESTAR` atom when `**` is reserved for
      whole segments, and two stars otherwise. */
  lemma SegmentDoubleStar(base: nat, opt: Options)
    ensures opt.doublestarSegmentOnly ==> SegmentSpec("**", base, opt) == Ok(Segment([DoubleStar]))
    ensures !opt.doublestarSegmentOnly ==> SegmentSpec("**", base, opt) == Ok(Segment([Star, Star]))
  {
    if !opt.doublestarSegmentOnly {
      var seg := "**";
      SegFromStar(seg, 0, [], [], base, opt);
      assert Flush([], []) + [Star] == [Star];
      SegFromStar(seg, 1, [], [Star], base, opt);
      assert Flush([], [Star]) + [Star] == [Star, Star];
    }
  }

  /** A backslash that ends the segment, or that precedes a character with
      no special meaning, is `INVALID_ESCAPE` at the backslash. */
  lemma {:induction false} SegmentBadEscape(w: string, rest: string, base: nat, opt: Options)
    requires opt.backslashEscape && Plain(w)
    requires rest == [] || !IsMeta(rest[0])
    ensures SegmentSpec(w + "\\" + rest, base, opt) == Failed(ParseError(InvalidEscape, base + |w|))
  {
    var seg := w + "\\" + rest;
    assert seg[|w|] == '\\';
    assert seg != "**" by { assert '\\' in seg; }
    SegFromPlainRun(seg, 0, |w|, [], [], base, opt);
    assert |w| + 1 < |seg| ==> seg[|w| + 1] == rest[0];
  }

  /** An instance of the escaped-`**` rule: the segment `\*\*`, whose
      literal spells "**" only through escapes, is still refused when `**`
      is reserved for whole segments. */
  lemma SegmentEscapedDoubleStar(base: nat, opt: Options)
    requires opt.backslashEscape && opt.doublestarSegmentOnly
    ensures SegmentSpec("\\*\\*", base, opt) == Failed(ParseError(InvalidDoubleStar, base))
  {
    var seg := "\\*\\*";
    assert seg[0] == '\\' && seg[1] == '*' && IsMeta(seg[1]);
    assert [] + [seg[1]] == "*";
    assert SegFrom(seg, 0, [], [], base, opt) == SegFrom(seg, 2, "*", [], base, opt);
    assert seg[2] == '\\' && seg[3] == '*' && IsMeta(seg[3]);
    assert "*" + [seg[3]] == "**";
    assert SegFrom(seg, 2, "*", [], base, opt) == SegFrom(seg, 4, "**", [], base, opt);
    assert Flush("**", []) == [Literal("**")];
    var atoms := [Literal("**")];
    assert atoms[0].Literal? && Contains(atoms[0].text, "**");
  }

  /** "[]" and "[^]" are `EMPTY_CHARCLASS` at the '['. */
  lemma ClassEmpty(seg: string, i: nat, base: nat, opt: Options)
    requires i + 1 < |seg| && seg[i] == '['
    requires seg[i + 1] == ']' || (i + 2 < |seg| && seg[i + 1] == '^' && seg[i + 2] == ']')
    ensures ClassSpec(seg, i, base, opt) == ClassErr(ParseError(EmptyCharClass, base + i))
  {
  }

  /** A class with no ']' and no '-' after its '[' is
      `UNCLOSED_CHARCLASS` at the '['. */
  lemma {:induction false} ClassFromUnclosed(seg: string, i: nat, cls: CharClass, any: bool, start: nat, base: nat, opt: Options)
    requires forall k :: i <= k < |seg| ==> seg[k] != ']' && seg[k] != '-'
    ensures ClassFrom(seg, i, cls, any, start, base, opt) == ClassErr(ParseError(UnclosedCharClass, base + start))
    decreases |seg| - i
  {
    if i < |seg| {
      match ReadChar(seg, i, opt)
      case None =>
      case Some(Read(first, i1)) =>
        ClassFromUnclosed(seg, i1, cls.(singles := cls.singles + [first]), true, start, base, opt);
    }
  }

  lemma ClassUnclosed(seg: string, i: nat, base: nat, opt: Options)
    requires i < |seg|
    requires forall k :: i < k < |seg| ==> seg[k] != ']' && seg[k] != '-'
    ensures ClassSpec(seg, i, base, opt) == ClassErr(ParseError(UnclosedCharClass, base + i))
  {
    var j := i + 1;
    if j < |seg| {
      var k := if seg[j] == '^' then j + 1 else j;
      if k < |seg| {
        ClassFromUnclosed(seg, k, CharClass(seg[j] == '^', [], []), false, i, base, opt);
      }
    }
  }

  /** A class that opens with an out-of-order range of two plain
      characters, such as "[z-a]", is `INVALID_RANGE` at its upper end. */
  lemma ClassReversedRange(seg: string, i: nat, base: nat, opt: Options)
    requires i + 3 < |seg| && seg[i] == '[' && seg[i + 2] == '-'
    requires seg[i + 1] != '^' && seg[i + 1] != ']' && seg[i + 1] != '\\'
    requires seg[i + 3] != ']' && seg[i + 3] != '\\'
    requires seg[i + 1] > seg[i + 3]
    ensures ClassSpec(seg, i, base, opt) == ClassErr(ParseError(InvalidRange, base + i + 3))
  {
  }

  /** The class parser never changes the negation flag it starts with. */
  lemma {:induction false} ClassFromNegation(seg: string, i: nat, cls: CharClass, any: bool, start: nat, base: nat, opt: Options)
    ensures ClassFrom(seg, i, cls, any, start, base, opt).ClassOk? ==> ClassFrom(seg, i, cls, any, start, base, opt).cls.negated == cls.negated
    decreases |seg| - i
  {
    if i < |seg| && seg[i] != ']' {
      match ReadChar(seg, i, opt)
      case None =>
      case Some(Read(first, i1)) =>
        if i1 < |seg| && seg[i1] == '-' && i1 + 1 < |seg| && seg[i1 + 1] != ']' {
          match ReadChar(seg, i1 + 1, opt)
          case None =>
          case Some(Read(last, i2)) =>
            if first <= last {
              ClassFromNegation(seg, i2, cls.(ranges := cls.ranges + [CharRange(first, last)]), true, start, base, opt);
            }
        } else {
          ClassFromNegation(seg, i1, cls.(singles := cls.singles + [first]), true, start, base, opt);
        }
    }
  }

  /** A parsed class is negated exactly when '^' follows its '['. */
  lemma ClassNegated(seg: string, i: nat, base: nat, opt: Options)
    requires i < |seg|
    ensures ClassSpec(seg, i, base, opt).ClassOk? ==>
              (ClassSpec(seg, i, base, opt).cls.negated <==> seg[i + 1] == '^')
  {
    var j := i + 1;
    if j < |seg| {
      var k := if seg[j] == '^' then j + 1 else j;
      if k < |seg| {
        ClassFromNegation(seg, k, CharClass(seg[j] == '^', [], []), false, i, base, opt);
      }
    }
  }

  /** Characters that stand for themselves inside a class. */
  predicate ClassPlain(c: char) {
    c != ']' && c != '-' && c != '\\'
  }

  lemma {:induction false} ClassFromSingles(seg: string, i: nat, j: nat, cls: CharClass, start: nat, base: nat, opt: Options)
    requires i < j < |seg| && seg[j] == ']'
    requires forall k :: i <= k < j ==> ClassPlain(seg[k])
    ensures ClassFrom(seg, i, cls, cls.singles != [] || cls.ranges != [], start, base, opt)
         == ClassOk(cls.(singles := cls.singles + seg[i..j]), j)
    ensures ClassFrom(seg, i, cls, true, start, base, opt) == ClassOk(cls.(singles := cls.singles + seg[i..j]), j)
    decreases j - i
  {
    var next := cls.(singles := cls.singles + [seg[i]]);
    if i + 1 < j {
      ClassFromSingles(seg, i + 1, j, next, start, base, opt);
    }
    assert next.singles + seg[i + 1..j] == cls.singles + seg[i..j];
  }

  /** A class of plain characters, such as "[abc]", holds exactly those
      characters and closes at its ']'. */
  lemma ClassOfSingles(seg: string, i: nat, j: nat, base: nat, opt: Options)
    requires i + 1 < j < |seg| && seg[i] == '[' && seg[j] == ']' && seg[i + 1] != '^'
    requires forall k :: i < k < j ==> ClassPlain(seg[k])
    ensures ClassSpec(seg, i, base, opt) == ClassOk(CharClass(false, seg[i + 1..j], []), j)
  {
    ClassFromSingles(seg, i + 1, j, CharClass(false, [], []), i, base, opt);
    assert [] + seg[i + 1..j] == seg[i + 1..j];
  }

  // ---------------------------------------------------------------------
  // Properties of splitting
  // ---------------------------------------------------------------------

  /** The number of c in s from index `from` on. */
  function Occurrences(s: string, from: nat, c: char): nat
    decreases |s| - from
  {
    if from >= |s| then 0 else (if s[from] == c then 1 else 0) + Occurrences(s, from + 1, c)
  }

  function Texts(pieces: seq<Piece>): seq<string> {
    if pieces == [] then [] else [pieces[0].text] + Texts(pieces[1..])
  }

  /** The slices joined back with the separator. */
  function JoinWith(ts: seq<string>, sep: char): string {
    if ts == [] then [] else if |ts| == 1 then ts[0] else ts[0] + [sep] + JoinWith(ts[1..], sep)
  }

  /** One step of `PiecesFrom`: the slice up to the next separator has
      none, and the slices after that separator follow. */
  lemma PiecesFromStep(norm: string, from: nat, sep: char) returns (k: nat)
    requires from <= |norm|
    ensures from <= k <= |norm| && sep !in norm[from..k]
    ensures forall j :: from <= j < k ==> norm[j] != sep
    ensures k < |norm| ==> norm[k] == sep
    ensures PiecesFrom(norm, from, sep) == [Piece(from, norm[from..k])] + (if k < |norm| then PiecesFrom(norm, k + 1, sep) else [])
  {
    k := NextSep(norm, from, sep);
    NextSepFirst(norm, from, sep);
    var head := norm[from..k];
    forall j | 0 <= j < |head|
      ensures head[j] != sep
    {
      assert head[j] == norm[from + j];
    }
  }

  lemma SplitAt(s: string, i: nat, k: nat)
    requires i <= k < |s|
    ensures s[i..] == s[i..k] + [s[k]] + s[k + 1..]
  {
  }

  /** Counting from `from` skips the stretch up to k that holds no c. */
  lemma {:induction false} OccurrencesSkip(s: string, from: nat, k: nat, c: char)
    requires from <= k <= |s|
    requires forall j :: from <= j < k ==> s[j] != c
    ensures Occurrences(s, from, c) == Occurrences(s, k, c)
    decreases k - from
  {
    if from < k {
      OccurrencesSkip(s, from + 1, k, c);
    }
  }

  lemma {:induction false} PiecesFromCount(norm: string, from: nat, sep: char)
    requires from <= |norm|
    ensures |PiecesFrom(norm, from, sep)| == 1 + Occurrences(norm, from, sep)
    decreases |norm| - from
  {
    var k := PiecesFromStep(norm, from, sep);
    OccurrencesSkip(norm, from, k, sep);
    if k < |norm| {
      PiecesFromCount(norm, k + 1, sep);
    }
  }

  lemma {:induction false} PiecesFromNoSep(norm: string, from: nat, sep: char)
    requires from <= |norm|
    ensures forall i :: 0 <= i < |PiecesFrom(norm, from, sep)| ==> sep !in PiecesFrom(norm, from, sep)[i].text
    decreases |norm| - from
  {
    var k := PiecesFromStep(norm, from, sep);
    var ps := PiecesFrom(norm, from, sep);
    if k < |norm| {
      PiecesFromNoSep(norm, k + 1, sep);
      var rest := PiecesFrom(norm, k + 1, sep);
      forall i | 0 < i < |ps|
        ensures sep !in ps[i].text
      {
        assert ps[i] == rest[i - 1];
      }
    }
  }

  /** Joining a slice in front of further slices puts a separator
      between them. */
  lemma JoinTextsCons(p: Piece, rest: seq<Piece>, sep: char)
    requires rest != []
    ensures JoinWith(Texts([p] + rest), sep) == p.text + [sep] + JoinWith(Texts(rest), sep)
  {
    var ps := [p] + rest;
    assert ps[1..] == rest;
    var ts := Texts(ps);
    assert ts == [p.text] + Texts(rest);
    assert ts[1..] == Texts(rest);
    assert |Texts(rest)| >= 1;
  }

  lemma {:induction false} PiecesFromJoin(norm: string, from: nat, sep: char)
    requires from <= |norm|
    ensures JoinWith(Texts(PiecesFrom(norm, from, sep)), sep) == norm[from..]
    decreases |norm| - from
  {
    var k := NextSep(norm, from, sep);
    var head := Piece(from, norm[from..k]);
    if k < |norm| {
      var rest := PiecesFrom(norm, k + 1, sep);
      assert PiecesFrom(norm, from, sep) == [head] + rest;
      assert JoinWith(Texts([head] + rest), sep) == norm[from..] by {
        PiecesFromJoin(norm, k + 1, sep);
        JoinTextsCons(head, rest, sep);
        SplitAt(norm, from, k);
      }
    } else {
      assert PiecesFrom(norm, from, sep) == [head];
      assert JoinWith(Texts([head]), sep) == norm[from..] by {
        assert Texts([head]) == [head.text];
      }
    }
  }

  /** There is one slice more than there are separators, none of them holds
      a separator, empty ones included, and joined with the separator they
      give back the text they were cut from. */
  lemma PiecesFromSound(norm: string, from: nat, sep: char)
    requires from <= |norm|
    ensures |PiecesFrom(norm, from, sep)| == 1 + Occurrences(norm, from, sep)
    ensures forall i :: 0 <= i < |PiecesFrom(norm, from, sep)| ==> sep !in PiecesFrom(norm, from, sep)[i].text
    ensures JoinWith(Texts(PiecesFrom(norm, from, sep)), sep) == norm[from..]
  {
    PiecesFromCount(norm, from, sep);
    PiecesFromNoSep(norm, from, sep);
    PiecesFromJoin(norm, from, sep);
  }

  lemma {:induction false} ParseAllLength(pieces: seq<Piece>, opt: Options)
    ensures ParseAll(pieces, opt).Ok? ==> |ParseAll(pieces, opt).value| == |pieces|
  {
    if pieces != [] {
      ParseAllLength(pieces[1..], opt);
    }
  }

  /** A parsed pattern has one segment more than there are separators after
      its leading one; empty segments are kept. The pattern is absolute
      exactly when it starts with the separator. */
  lemma ParseSegmentCount(input: string, opt: Options)
    requires ParseSpec(input, opt).Ok?
    ensures var pat := ParseSpec(input, opt).value;
            var start := FirstSegmentStart(pat.normalized, opt.separator);
            |pat.segments| == 1 + Occurrences(pat.normalized, start, opt.separator)
            && pat.normalized == Normalized(input, opt)
            && (pat.absolute <==> input[0] == opt.separator || (input[0] == '\\' && opt.separator == '/'))
  {
    var norm := Normalized(input, opt);
    var start := FirstSegmentStart(norm, opt.separator);
    ParseAllLength(PiecesFrom(norm, start, opt.separator), opt);
    PiecesFromSound(norm, start, opt.separator);
  }
}
