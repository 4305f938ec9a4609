# Arcana: a verified model of the build tool's core

Arcana is a make-like build tool. An `arcfile` declares variables, tasks,
profiles and asserts. It is read by a lexer and a token-driven grammar
engine, checked by semantic collectors, and turned into jobs. The jobs
are ordered by their `@requires` / `@then` dependencies. Instructions whose
inputs did not change since the last build are pruned, using an MD5-based
cache. Globs expand and rename file sets. A small Python runner drives the
test campaigns.

This project models that core in Dafny and proves what each part promises:

- **Globs** (`GlobPattern`, `GlobMatch`, `GlobCapture`, `GlobExpand`, `GlobLegacy`)
  - the pattern parser (segments of literals, `?`, `*`, `**` and character classes, with their error codes);
  - the segment matcher, with its fast paths and its rolling dynamic-programming table;
  - the capturing matcher, which records what each wildcard took;
  - instantiation of a destination pattern from captures, and `MapGlobToGlob`. The model proves that captures rebuild the path they were taken from;
  - the sort-and-deduplicate step of `Expand`;
  - where the older engine (`GLob.cpp`) differs — the full-table matcher, a strict `MapGlobToGlob`, an `Expand` that clears its output — it is modelled separately.
- **String helpers** (`Support`, `SupportLegacy`, `StringOrder`)
  - case folding, the case-insensitive hash and equality used by the keyword maps, and trimming;
  - `split` and the quote-aware `split_quoted` with their three errors, and `to_number` with its overflow guard;
  - the Levenshtein distance and `FindClosest`, name mangling (`name@@profile`);
  - the command-line scanner;
  - `std::sort` + `std::unique` on strings.
- **Tables** (`TableHelper`, `TableHelperLegacy`): the lookups over the ordered symbol tables.
  - The exact key wins over mangled keys; mangled keys are tried in profile order.
  - The attribute filters, and the destructive `TakeValue(s)`.
  - The realignment of `@profile` / `@ifos` entries onto their plain names.
- **Parser**
  - `Lexer`: the character-level scanner, with line continuations and comments.
  - `Grammar`: the incremental matching engine, one token at a time, over the fixed productions.
  - `Semantic`: the collectors for attributes, assignments, `using` statements and asserts, and the evaluation of asserts.
- **Jobs and cache** (`Jobs`, `Md5`, `Cache`)
  - building a job from a task, and pruning instructions whose cached inputs did not change;
  - the dependency graph and the depth-first ordering, with its unknown-task and cycle errors;
  - the job list;
  - MD5 over a streaming context, and the cache manager that compares input hashes.
- **Test runner** (`Runner`)
  - scanning campaign directories for tests, and the expected-result rule;
  - sorting by key, and the pass/fail tally and its rate;
  - the removal of ANSI escape sequences from captured output.

Mutable objects of the source become classes: the MD5 context, the cache
manager, the grammar and semantic engines, the lexer, a symbol table, the
DFS walker and the job list. Loops become methods with invariants, proved
against a recursive specification function. Lemmas then state what that
function means.

## Model

| member | source | states |
|---|---|---|
| GlobPattern.Normalize | src/common/Glob.cpp:85-104 | The normalised pattern has the input's length, and each character is that character normalised: a backslash becomes the separator when the separator is '/'. The same code is at `src/common/GLob.cpp:47-65`. |
| GlobPattern.NormalizeSlashes | src/common/Glob.cpp:91-101 | With '/' as separator, the normalised pattern has no backslash and differs from the input exactly where the input had one. |
| GlobPattern.ReadChar | src/common/Glob.cpp:187-211 | A character read inside a class always moves forward and stays within the segment. |
| GlobPattern.ClassSpec | src/common/Glob.cpp:152-278 | A successful class parse ends on a ']' after the '['. |
| GlobPattern.ParseCharClass | src/common/Glob.cpp:152-278 | The loop computes `ClassSpec`: the same class, the same closing index, the same error and offset. The same code is at `src/common/GLob.cpp:83-195`. |
| GlobPattern.Flush | src/common/Glob.cpp:118-130 | A pending non-empty literal becomes one more atom; an empty one adds nothing. |
| GlobPattern.ParseSegment | src/common/Glob.cpp:297-419 | The scan computes `SegmentSpec`, the recursive definition of the segment grammar. The lemmas below pin down its cases. The same code is at `src/common/GLob.cpp:199-309`. |
| GlobPattern.NextSep | src/common/Glob.cpp:465-476 | The end of a slice is the next separator or the end of the text. |
| GlobPattern.NextSepFirst | src/common/Glob.cpp:465-476 | No separator lies before the one `NextSep` finds. |
| GlobPattern.SplitSegments | src/common/Glob.cpp:435-479 | The pattern is absolute iff it starts with the separator. The segments are the parses of the slices between separators; the first failing slice's error stops the split. The same code is at `src/common/GLob.cpp:313-354`. |
| GlobPattern.SplitStep | src/common/Glob.cpp:450-462 | One slice either stops the split with its error or is appended to the segments parsed so far. |
| GlobPattern.Parse | src/common/Glob.cpp:1626-1650 | The pattern is refused when empty, otherwise normalised and split (`ParseSpec`). The same code is at `src/common/GLob.cpp:1126-1146`. |
| GlobPattern.ParseEmptyIff | src/common/Glob.cpp:1633-1638 | `EMPTY_PATTERN` at offset 0 is reported for the empty pattern and for no other. The same code is at `src/common/GLob.cpp:1131-1136`. |
| GlobPattern.SegmentPlain | src/common/Glob.cpp:391-398 | A non-empty segment of plain characters parses to one literal atom of exactly that text. |
| GlobPattern.PlainLiteralsEnd | src/common/Glob.cpp:401-416 | Plain literal runs pass the final `**` check. |
| GlobPattern.SegmentStarThenLiteral | src/common/Glob.cpp:349-358 | "*" followed by plain text parses to a star and that literal. |
| GlobPattern.SegmentLiteralThenStar | src/common/Glob.cpp:349-358 | Plain text followed by "*" parses to that literal and a star. |
| GlobPattern.SegmentDoubleStar | src/common/Glob.cpp:309-313 | The segment "**" is one `DOUBLESTAR` atom when `**` is reserved for whole segments, and two stars otherwise. |
| GlobPattern.SegmentBadEscape | src/common/Glob.cpp:324-346 | After plain text, a trailing backslash, or one before a character with no special meaning, is `INVALID_ESCAPE` at the backslash's offset. |
| GlobPattern.SegmentEscapedDoubleStar | src/common/Glob.cpp:401-416 | An instance, not the general rule: the segment `\*\*`, a literal that spells "**" through escapes, is `INVALID_DOUBLESTAR` when `**` is reserved for whole segments. |
| GlobPattern.ClassEmpty | src/common/Glob.cpp:217-225 | "[]" and "[^]" are `EMPTY_CHARCLASS` at the '['. |
| GlobPattern.ClassFromUnclosed | src/common/Glob.cpp:274-277 | A class with neither ']' nor '-' in the rest of the segment is `UNCLOSED_CHARCLASS` at the '['. |
| GlobPattern.ClassUnclosed | src/common/Glob.cpp:162-182 | A '[' followed by neither ']' nor '-' anywhere in the segment is `UNCLOSED_CHARCLASS` at the '['. |
| GlobPattern.ClassReversedRange | src/common/Glob.cpp:247-260 | A class that opens with an out-of-order range of two plain characters (such as `[z-a]`) is `INVALID_RANGE` at its upper end. Ranges later in the class or with escaped ends are not covered by this lemma. |
| GlobPattern.ClassFromNegation | src/common/Glob.cpp:214-271 | The class loop never changes the negation flag it starts with. |
| GlobPattern.ClassNegated | src/common/Glob.cpp:170-174 | A parsed class is negated exactly when '^' follows its '['. The same code is at `src/common/GLob.cpp:97-101`. |
| GlobPattern.ClassOfSingles | src/common/Glob.cpp:269-270 | A class of plain characters holds exactly those characters as singles, no ranges, and closes at its ']'. |
| GlobPattern.PiecesFromStep | src/common/Glob.cpp:465-476 | The slice up to the next separator has no separator, and the remaining slices start just after it. |
| GlobPattern.JoinTextsCons | src/common/Glob.cpp:450-462 | Joining a slice in front of further slices puts exactly one separator between them. |
| GlobPattern.PiecesFromSound | src/common/Glob.cpp:465-476 | There is one slice more than separators; no slice holds a separator; joined with the separator they give back the text. |
| GlobPattern.ParseSegmentCount | src/common/Glob.cpp:435-479 | A parsed pattern has one segment more than separators after its leading one, empty segments included. It keeps the normalised text, and it is absolute iff the input starts with the separator (or a backslash that becomes one). |
| GlobMatch.CharClassMatch | src/common/Glob.cpp:581-619 | The character matches iff it is one of the singles or inside one of the ranges, negated for a `[^...]` class (`InClass`). The same code is at `src/common/GLob.cpp:399-434`. |
| GlobMatch.ReachNext | src/common/Glob.cpp:743-832 | One atom further, a table cell is reached iff some reached cell of the previous row lets that atom take the characters in between. |
| GlobMatch.ReachMatches | src/common/Glob.cpp:832 | The last cell of the forward table is true iff the segment matches the whole name (`Matches`, defined by consuming the name atom by atom). |
| GlobMatch.LiteralRow | src/common/Glob.cpp:759-775 | The LITERAL step turns the row of the first i atoms into the row of the first i + 1: each cell is reached iff the name holds the literal just before it, after a reached position. |
| GlobMatch.OneCharRow | src/common/Glob.cpp:776-821 | The QMARK and CHARCLASS steps give the next row: a cell is reached iff the position before it was reached and its character is taken (for a class, only a character in it). |
| GlobMatch.StarRow | src/common/Glob.cpp:787-805 | The STAR step gives the next row: a cell is reached iff some position at or before it was. |
| GlobMatch.DoubleStarNeverMatches | src/common/Glob.cpp:822-826 | A segment with a `DOUBLESTAR` atom matches no name. |
| GlobMatch.RollingMatch | src/common/Glob.cpp:743-832 | The rolling two-row table decides `Matches`. |
| GlobMatch.MatchEmptyOrStar | src/common/Glob.cpp:660-686 | No atoms match only the empty name; a lone STAR matches every name. |
| GlobMatch.MatchLoneLiteral | src/common/Glob.cpp:666-686 | A lone literal matches only itself. |
| GlobMatch.MatchLoneChar | src/common/Glob.cpp:666-686 | A lone QMARK or class matches exactly the one-character names it accepts. |
| GlobMatch.MatchOnlyQMarks | src/common/Glob.cpp:689-701 | Only QMARKs: the name matches iff it has one character per atom. |
| GlobMatch.MatchStarLiteral | src/common/Glob.cpp:721-724 | STAR then LITERAL matches exactly the names that end with the literal. |
| GlobMatch.MatchLiteralStar | src/common/Glob.cpp:725-728 | LITERAL then STAR matches exactly the names that start with the literal. |
| GlobMatch.MatchLiteralStarLiteral | src/common/Glob.cpp:729-740 | LITERAL, STAR, LITERAL matches exactly the names that are long enough for both literals, start with the first and end with the second. |
| GlobMatch.MatchSegmentAtoms | src/common/Glob.cpp:636-833 | Every fast path and the table decide the same thing: `Matches(segment, name)`. |
| GlobMatch.ParsedShapes | src/common/Glob.cpp:719-741 | For a parsed segment "*w", "w*" or "w" with w plain: suffix test, prefix test, equality. |
| GlobLegacy.TableMeaning | src/common/GLob.cpp:448-519 | A cell of the full table holds iff the first i atoms match the first j characters. |
| GlobLegacy.StarReachesOnward | src/common/GLob.cpp:478-497 | After a STAR, every position from a reached one on is reached. |
| GlobLegacy.FillLiteral | src/common/GLob.cpp:452-467 | Only row i + 1 of the full table changes, and each of its cells becomes `Reach` for the first i + 1 atoms. |
| GlobLegacy.FillOneChar | src/common/GLob.cpp:468-512 | The same for a QMARK or CHARCLASS atom: only the next row changes, to `Reach`. |
| GlobLegacy.FillStar | src/common/GLob.cpp:478-497 | The same for a STAR atom: only the next row changes, to `Reach`. |
| GlobLegacy.MatchSegmentAtomsTable | src/common/GLob.cpp:438-522 | The full-table matcher decides `Matches`, with a `DOUBLESTAR` atom failing the match, so both engines agree. |
| GlobCapture.SplitPathSegments | src/common/Glob.cpp:1053-1071 | The path's segments are its non-empty runs between '/' (the tokens of `split`). The same code is at `src/common/GLob.cpp:678-694`. |
| GlobCapture.JoinPathSegments | src/common/Glob.cpp:1085-1102 | The chosen segments joined with one '/' between them. The same code is at `src/common/GLob.cpp:698-714`. |
| GlobCapture.SplitJoin | src/common/Glob.cpp:1053-1102 | Splitting undoes joining for non-empty segments without '/'. |
| GlobCapture.MapToSelf | src/common/Glob.cpp:1586-1593 | A path with no empty segments is rebuilt exactly from its split segments. |
| GlobCapture.InstantiateKinds | src/common/Glob.cpp:1502-1577 | Instantiation succeeds only when the capture kinds are exactly the kinds the destination's wildcards consume, in order. |
| GlobCapture.InstantiateLeftover | src/common/Glob.cpp:1580-1583 | A leftover capture makes instantiation fail. |
| GlobCapture.BuildOne | src/common/Glob.cpp:1502-1577 | The atom loop builds a segment iff `BuildSegment` does, with the same text and the same next capture. |
| GlobCapture.InstantiateOne | src/common/Glob.cpp:1502-1577 | One destination segment contributes what `SegmentInst` says, or fails exactly when it does. |
| GlobCapture.Instantiate | src/common/Glob.cpp:1491-1596 | Success iff `InstantiateSpec` yields a path, and that path is the result. The same code is at `src/common/GLob.cpp:1013-1111`. |
| GlobCapture.JoinOut | src/common/Glob.cpp:1586-1593 | The built segments joined with '/'. |
| GlobCapture.LiteralCaptureRow | src/common/Glob.cpp:1172-1196 | The LITERAL row of the table is filled to its meaning. Every reached cell records its first-reaching predecessor (`FirstPrev`), without a capture. |
| GlobCapture.OneCharCaptureRow | src/common/Glob.cpp:1197-1253 | The QMARK / CHARCLASS rows are filled to their meaning. Every reached cell records its first-reaching predecessor, with a CHAR capture. |
| GlobCapture.StarCaptureRow | src/common/Glob.cpp:1254-1283 | The STAR row is filled to its meaning. Every reached cell records `FirstPrev`: its predecessor is the least reached position j below it, because the first j to reach a state wins. The SEGMENT capture is name[j..k]. |
| GlobCapture.FirstPredIs | src/common/Glob.cpp:1257-1282 | The predecessor `FirstPred` picks is the least j from which the atom reaches the state. |
| GlobCapture.FirstPredFound | src/common/Glob.cpp:1257-1282 | When some j reaches the state, `FirstPred` picks one at or below it that does. |
| GlobCapture.FirstPrevValid | src/common/Glob.cpp:1298-1316 | The first-reaching predecessor of a reached state explains it, so the backtrack always finds a predecessor. |
| GlobCapture.StarFirst | src/common/Glob.cpp:1257-1281 | In a STAR row, the first reached position j is the first-reaching predecessor of every k from j on. |
| GlobCapture.FirstCapsStep | src/common/Glob.cpp:1298-1316 | One backtrack step: the captures from a cell are those of its first-reaching predecessor, followed by the cell's own. |
| GlobCapture.FirstReachedWinsExample | src/common/Glob.cpp:1264 | `*_*` on "a_b_c" captures "a" and "b_c", never "a_b" and "c". |
| GlobCapture.Backtrack | src/common/Glob.cpp:1298-1316 | The captures are exactly `FirstCaps` of the last cell: the ones the first-reaching predecessors give, in forward order. Reversed, they rebuild the name through the segment. |
| GlobCapture.MatchSegmentCapture | src/common/Glob.cpp:1141-1322 | Success iff the segment matches the name (`Matches`). The captures are then exactly `SegmentCaps`, a function of segment and name, and they rebuild that name. The same code is at `src/common/GLob.cpp:732-902`. |
| GlobCapture.MatchCaptureRec | src/common/Glob.cpp:1344-1428 | Success iff the remaining pattern segments match the remaining path segments (`PathMatch`). On failure the captures come back unchanged. On success the captures are those passed in followed by exactly `PathCaps`: a `**` takes the shortest run that works, and any other segment gives `SegmentCaps`. The new captures instantiate the rest of the pattern back to the rest of the path. The memo table stays sound. The same code is at `src/common/GLob.cpp:907-983`. |
| GlobCapture.MatchDoubleStar | src/common/Glob.cpp:1372-1394 | The `**` branch succeeds iff the path matches. Its PATH capture covers the least number of segments after which the rest matches (`FirstSplit`), and the captures that follow are `PathCaps` from there. The same code is at `src/common/GLob.cpp:931-952`. |
| GlobCapture.FirstSplitFound | src/common/Glob.cpp:1374-1389 | When some split works, the least one `FirstSplit` finds works, and none before it does. |
| GlobCapture.FirstSplitIs | src/common/Glob.cpp:1374-1389 | A split that works with none before it is `FirstSplit`. |
| GlobCapture.MatchOneSegment | src/common/Glob.cpp:1397-1425 | The one-segment branch succeeds iff the path matches. Its captures are `SegmentCaps` of the segment followed by `PathCaps` of the rest, and they rebuild the path. |
| GlobCapture.MatchCapture | src/common/Glob.cpp:1440-1459 | Success iff the pattern captures the path. The captures are exactly `CapsOf(pattern, path)`, one list determined by the two. They instantiate the same pattern back to the path, with its empty segments dropped. The same code is at `src/common/GLob.cpp:986-1002`. |
| GlobCapture.MapPass | src/common/Glob.cpp:1757-1780 | One source glob's pass over the remaining sources, in list order. Its status, kept sources and outputs are those of the reference `PassSpec`. On success the kept sources are exactly the uncaptured ones in list order (`Uncaptured`), and the mapped ones are the captured ones in list order (`CapturedPart`). `PassSplits` holds: the two parts split the list as multisets, each output is what `MapsTo` gives its source, every kept source is uncaptured and from the list, and on the last glob nothing is kept. A CAPTURE failure happens only on the last glob and names a listed source the glob does not capture. An INSTANTIATE failure names a listed source whose `CapsOf` captures do not instantiate the destination (`Uninstantiable`). |
| GlobCapture.FirstReachedMapExample | src/common/Glob.cpp:1744-1782 | Mapping "a_b_c" from `*_*` to `*-*` gives "a-b_c" and not "a_b-c". |
| GlobCapture.EraseAt | src/common/Glob.cpp:1778-1780 | Erasing a mapped source removes one copy and leaves the elements before it in place. |
| GlobCapture.MapGlobToGlob | src/common/Glob.cpp:1726-1785 | The outcome is the reference `MapSpec`: a destination parse error is passed through, then `MapFrom` runs the source globs in order, and the outputs come pass by pass, in list order within a pass. On success every output comes from a distinct source, mapped by the FIRST source glob that captures it (`MappedByFirst`). The mapped sources are a sub-multiset of the list, and all of it when there is a source glob. A source parse error is that of the first source glob that fails to parse. CAPTURE means every source glob parsed and some source is captured by none. INSTANTIATE means some source no earlier glob captured has uninstantiable captures from the last glob tried. With at least one source glob, the call succeeds exactly when the input is `Mappable`. |
| GlobCapture.MapSources | src/common/Glob.cpp:1744-1784 | The source-glob loop once the destination has parsed. Its outcome is `MapFrom` from the first glob, and it gives the same per-source and failure facts as `MapGlobToGlob`. |
| GlobCapture.FailureCauses | src/common/Glob.cpp:1744-1784 | Each named failure cause rules out mappable input, so input that can be mapped is mapped. |
| GlobCapture.UncapturedNotMappable | src/common/Glob.cpp:1760-1767 | A source captured by none of the source globs makes the input unmappable. |
| GlobCapture.UninstantiableNotMappable | src/common/Glob.cpp:1771-1776 | A source that no earlier glob captures, and whose captures from a later glob do not instantiate, makes the input unmappable. |
| GlobCapture.PassSpecKept | src/common/Glob.cpp:1760-1768 | A successful pass keeps exactly the uncaptured sources, in list order, and keeps none on the last source glob. |
| GlobCapture.PassSpecOuts | src/common/Glob.cpp:1770-1780 | A successful pass makes one output per captured source, in list order, each what `MapsTo` gives it. |
| GlobCapture.PassSpecFails | src/common/Glob.cpp:1762-1776 | A failed pass names its cause: an uncaptured source on the last glob, or a captured source whose captures do not instantiate. |
| GlobCapture.PassOkFacts | src/common/Glob.cpp:1757-1780 | A successful pass satisfies `PassSplits` with its kept sources, its outputs and the captured sources. |
| GlobCapture.PartsSplitList | src/common/Glob.cpp:1757-1780 | The uncaptured and captured parts of a list split it as multisets. |
| GlobCapture.UncapturedMembers | src/common/Glob.cpp:1762-1768 | The uncaptured part holds only listed sources that the glob does not capture. |
| GlobCapture.CapturedMembers | src/common/Glob.cpp:1770-1780 | The captured part holds only listed sources that the glob captures. |
| GlobCapture.FirstCapturing | src/common/Glob.cpp:1744-1780 | The index of the first pattern that captures a source: every earlier one does not, and it does unless none does. |
| GlobCapture.MapFromOkParsed | src/common/Glob.cpp:1744-1753 | A successful run parses every source glob. |
| GlobCapture.MapFromOkSources | src/common/Glob.cpp:1757-1780 | A successful run makes one output per mapped source, and maps every given source when a source glob is left. |
| GlobCapture.MapFromOkFirst | src/common/Glob.cpp:1744-1780 | A successful run maps each source through the first source glob that captures it, because the sources a glob captures are erased before later globs run. |
| GlobCapture.MapFromParseFacts | src/common/Glob.cpp:1748-1753 | A source parse error is the error of the first source glob that fails to parse. |
| GlobCapture.MapFromFailFacts | src/common/Glob.cpp:1757-1776 | A failed pass names a source captured by no source glob so far, or a source no earlier glob captured whose captures from the failing glob do not instantiate. |
| GlobCapture.MapFromFacts | src/common/Glob.cpp:1744-1784 | What the source-glob loop gives from the first glob, with the sources it maps and the patterns it parses, for each outcome. |
| GlobCapture.OkIsMappable | src/common/Glob.cpp:1744-1784 | A successful call with a source glob had mappable input, which with `FailureCauses` makes success and `Mappable` equivalent. |
| GlobLegacy.MapGlobToGlobStrict | src/common/GLob.cpp:1187-1227 | A parse error of the source glob, then of the destination glob, is passed through. On success there is one output per source, in source order. Each source is captured, and its output is the destination instantiated from its `CapsOf` captures. A capture failure names a source that is not captured; an instantiation failure names a source whose captures do not instantiate. The call succeeds when both globs parse and every source is captured with instantiable captures (`StrictMappable`). |
| GlobLegacy.MapEachSource | src/common/GLob.cpp:1209-1224 | The source loop ends in success, a capture failure or an instantiation failure. On success each source is captured, and its output is the destination instantiated from its `CapsOf` captures. A capture failure names a source that is not captured, an instantiation failure a source with uninstantiable captures; with neither kind of source it succeeds. |
| GlobExpand.Expand | src/common/Glob.cpp:1669-1700 | Fails iff the start does not exist, and then leaves the output alone. Otherwise the output is strictly sorted, and holds exactly the old output and the walk's results. |
| GlobLegacy.ExpandLegacy | src/common/GLob.cpp:1150-1183 | The caller's vector is cleared first, so the result does not depend on what it held, and is empty when the start does not exist. On success it is strictly sorted and holds exactly the walk's results. |
| StringOrder.LessTransitive | src/common/Glob.cpp:1696 | `std::string` ordering is transitive. |
| StringOrder.LessTotal | src/common/Glob.cpp:1696 | Two different strings are ordered one way or the other. |
| StringOrder.SortedUnique | src/common/Glob.cpp:1696-1697 | Two strictly sorted lists with the same elements are equal, so sort-and-unique depends only on the set of elements. |
| StringOrder.InsertUnique | src/common/Glob.cpp:1696-1697 | Adding an element to a strictly sorted list keeps it strictly sorted, with one element more unless it was already there. |
| StringOrder.SortUnique | src/common/Glob.cpp:1696-1697 | `sort` then `unique`: strictly sorted, with exactly the input's elements. The same code is at `src/common/GLob.cpp:1179-1180`. |
| Support.ToLowerAscii | src/parser/util/Support.cpp:985-990 | Only 'A'..'Z' change, each to its lower-case letter. The same code is at `src/util/Support.cpp:109-114`. |
| Support.FoldIdempotent | src/parser/util/Support.cpp:985-990 | Folding twice is folding once. |
| Support.StringViewEq | src/parser/util/Support.cpp:455-470 | Equal iff the strings have the same length and agree after folding. The same code is at `src/util/Support.cpp:62-77`. |
| Support.StringViewHash | src/parser/util/Support.cpp:433-444 | The polynomial hash of the folded characters, base 131, modulo 2^64. The same code is at `src/util/Support.cpp:48-58`. |
| Support.HashRespectsEquality | src/parser/util/Support.cpp:433-470 | Strings that `StringViewEq` identifies hash alike, so the keyword maps are consistent. |
| Support.Ltrim | src/parser/util/Support.cpp:943-954 | The suffix starting at the first non-whitespace character, and "" when there is none. The same code is at `src/util/Support.cpp:95-106`. |
| Support.Rtrim | src/parser/util/Support.cpp:964-975 | The prefix ending at the last non-whitespace character, and "" when there is none. |
| Support.TokensSound | src/parser/util/Support.cpp:1003-1029 | The tokens are non-empty, hold no separator, and spell the input without its separators. |
| Support.RunEnd | src/parser/util/Support.cpp:1009-1026 | A token runs from its start to the next separator or the end. |
| Support.Split | src/parser/util/Support.cpp:1003-1029 | The loop yields exactly the tokens (`Tokens`). The same code is at `src/util/Support.cpp:117-143`. |
| Support.SplitQuoted | src/parser/util/Support.cpp:1042-1130 | The scan's result is `QuoteFinish` of the scan over the whole input. Every error gives `ok == false` and no tokens. |
| Support.SplitQuotedWithoutQuotes | src/parser/util/Support.cpp:1042-1130 | Without quotes, `split_quoted` succeeds and agrees with `split`. |
| Support.QuoteRunParity | src/parser/util/Support.cpp:1084-1097 | While scanning, the in-quote flag tracks the parity of the quotes seen. |
| Support.OddQuotesFail | src/parser/util/Support.cpp:1118-1124 | An odd number of quotes always ends in an error. |
| Support.QuoteInsideToken | src/parser/util/Support.cpp:1084-1097 | For the first token of a line: a quote after the start of an unquoted token is the "quote in the middle of a token" error. |
| Support.ClosingQuoteNeedsSeparator | src/parser/util/Support.cpp:1056-1070 | For a line that opens with a quoted token: a closing quote followed by anything but the separator or the end is the "missing space" error. |
| Support.OverflowGuardExact | src/parser/util/Support.cpp:1147-1158 | The guard `value > (LLONG_MAX - digit) / 10` is exactly the overflow test of `value * 10 + digit`. |
| Support.ToNumber | src/parser/util/Support.cpp:1140-1161 | The decimal value of a non-empty digit string that fits in a `long long`; none otherwise (empty, non-digit, overflow). |
| Support.NextRow | src/parser/util/Support.cpp:288-304 | One outer pass turns the row of distances for a[..i] into the row for a[..i + 1]. |
| Support.LevenshteinDistance | src/parser/util/Support.cpp:271-307 | The two-row loop computes the edit distance `Lev`; an empty input gives the other's length. |
| Support.LevZeroIffEqual | src/parser/util/Support.cpp:271-307 | The distance is zero exactly between equal strings. |
| Support.LevAtMostLonger | src/parser/util/Support.cpp:271-307 | The distance never exceeds the longer length. |
| Support.GenerateMangling | src/parser/util/Support.cpp:1172-1177 | The mangled name is the target, "@@", then the mangling. |
| Support.DemangleGenerated | src/parser/util/Support.cpp:1172-1177 | A name without "@@" that does not end in '@' is recovered from its mangled form by cutting at the first "@@". |
| Support.FindClosest | src/parser/util/Support.cpp:1330-1356 | The first demangled candidate, other than the target, at the smallest distance below the maximum; none when no candidate is below it. |
| Support.ParseArgs | src/parser/util/Support.cpp:496-657 | The scan from entry 1 equals `ParseFrom`, the entry-by-entry definition of each option. |
| Support.ThreadsStep | src/parser/util/Support.cpp:536-563 | `-t` consumes itself and the next entry, and leaves a well-formed thread count: one read from that entry as a 32-bit number. |
| Support.SwitchStep | src/parser/util/Support.cpp:597-651 | A switch, or the positional task name, consumes one entry and leaves the thread count alone. |
| Support.ParseFromKeepsThreads | src/parser/util/Support.cpp:536-563 | The whole scan keeps the thread count well-formed. |
| Support.ParseArgsNothing | src/parser/util/Support.cpp:496-657 | A command line with only the program name leaves the defaults. |
| Support.RunnerCommandLine | src/parser/util/Support.cpp:505-519 | `arcana -s <path> --debug` sets the script path; `--debug` is no option, so it becomes the task. |
| Support.SecondPositionalRefused | src/parser/util/Support.cpp:639-651 | A second positional entry is refused. |
| Support.ContainsAt | src/core/Jobs.cpp:108 | `Contains` holds exactly when the needle occurs at some position. |
| Support.Find | src/core/Jobs.cpp:108 | `std::string::find`: none iff the needle does not occur; otherwise the first position where it does. |
| SupportLegacy.ParseArgs | src/util/Support.cpp:82-92 | One entry per word, in order: entry i holds position i and word i. |
| TableHelper.Resolve | include/parser/util/TableHelper.h:238-298 | The exact key wins whenever it is a hit; otherwise the first profile, in list order, whose mangled key is a hit; nothing when none is. |
| TableHelper.GatheredMembers | include/parser/util/TableHelper.h:419-434 | Every collected value carries the attribute, and every key that itself carries it contributes its own value. |
| TableHelper.SelectedMembers | include/parser/util/TableHelper.h:202-220 | Exactly the values that carry the attribute are selected. |
| TableHelper.SelectedEmpty | include/parser/util/TableHelper.h:202-220 | Nothing is selected exactly when no value carries the attribute. |
| TableHelper.RemoveSorted | include/parser/util/TableHelper.h:463-486 | Removing a key keeps the key list sorted and drops exactly that key. |
| TableHelper.Table.Erase | include/parser/util/TableHelper.h:463-486 | The key and its value are gone; every other entry stays. |
| TableHelper.Table.Put | include/parser/util/TableHelper.h:746-777 | The key holds the value; every other entry stays. |
| TableHelper.Table.Keys | include/parser/util/TableHelper.h:699-709 | Every key once, in table order. The same code is at `include/util/TableHelper.h:110-120`. |
| TableHelper.Table.GetValueWith | include/parser/util/TableHelper.h:177-188 | The first value, in key order, that carries the attribute; none when no value does. |
| TableHelper.Table.GetValuesWith | include/parser/util/TableHelper.h:202-220 | The values carrying the attribute, in key order; none when there are none. |
| TableHelper.Table.GetValue | include/parser/util/TableHelper.h:238-368 | The value the key resolves to (`Resolve`), for one profile or a list, with or without an attribute filter; the table is untouched. The same code is at `include/util/TableHelper.h:177-275`. |
| TableHelper.Table.GetValues | include/parser/util/TableHelper.h:386-434 | Each key in table order, resolved through the profiles and kept when the value carries the attribute (`Gathered`). The same code is at `include/util/TableHelper.h:280-315`. |
| TableHelper.Table.TakeValue | include/parser/util/TableHelper.h:463-608 | Returns the resolved value and removes exactly the key it came from (`Chosen`); the rest of the table is unchanged. The same code is at `include/util/TableHelper.h:325-438`. |
| TableHelper.Table.TakeValues | include/parser/util/TableHelper.h:623-672 | Each still-present key is taken in table order (`AskedInOrder`): the keys asked for are strictly increasing, and the t-th value returned was found under the t-th of them or one of its mangled forms `key@@profile`. Every returned value was removed, each key at most once, and no value carrying the attribute is left. The same code is at `include/util/TableHelper.h:443-482`. |
| TableHelper.Table.MangledList | include/parser/util/TableHelper.h:734-744 | The mangled keys that pass the filter, in table order, without repetition. |
| TableHelper.Table.AlignOne | include/parser/util/TableHelper.h:746-777 | A key with another suffix is erased; one with the tag moves its value to its base name. |
| TableHelper.Table.Align | include/parser/util/TableHelper.h:727-778 | After realignment no handled key is left. A value under `base@@tag` becomes the value of base. Keys nothing overrides keep their values. |
| TableHelper.AlignedPromotes | include/parser/util/TableHelper.h:746-777 | The value of a handled `base@@tag` becomes the value of base. |
| TableHelper.AlignedMangledLeft | include/parser/util/TableHelper.h:746-777 | A mangled key that is left was not handled and kept its value. |
| TableHelper.AlignedUntouched | include/parser/util/TableHelper.h:746-777 | Keys neither handled nor overridden keep their values. |
| TableHelper.MangleParts | include/parser/util/TableHelper.h:746-777 | A mangled key is its base, "@@" and its suffix, and its base holds no "@@". |
| TableHelper.Table.AlignOnProfile | include/parser/util/TableHelper.h:727-778 | The realignment for `@profile` entries on the selected profile. |
| TableHelper.Table.AlignOnOS | include/parser/util/TableHelper.h:797-848 | The realignment for `@ifos` entries on the running OS. |
| TableHelperLegacy.AlignOnProfile | include/util/TableHelper.h:125-172 | Without an attribute filter, no mangled key is left afterwards. |
| Lexer.SimpleKindRoundTrip | src/parser/Lexer.cpp:41-58 | Each listed character gets its own type, every other one gets UNKNOWN, and each of those types is written with one character only. |
| Lexer.KeywordKind | src/parser/Lexer.cpp:167-174 | TASK and USING for those keywords in any case, IDENTIFIER otherwise. |
| Lexer.SkipJoins | src/parser/Lexer.cpp:89-101 | The position `advance` reaches after skipping every backslash-newline continuation; no continuation starts there. |
| Lexer.NewlineFrom | src/parser/Lexer.cpp:104-113 | The newline that ends a comment body, or the end of the input, with no newline before it. |
| Lexer.AdvanceFrom | src/parser/Lexer.cpp:77-131 | One `advance` as a function of the position: the character it loads, or none when the stream fails; a loaded character always moves the position on. |
| Lexer.ContinuationsEnd | src/parser/Lexer.cpp:89-101 | A run of continuations that stops where no continuation starts stops where `SkipJoins` does. |
| Lexer.AdvancedOverIsAdvanceFrom | src/parser/Lexer.cpp:77-131 | What one `advance` reads is exactly what `AdvanceFrom` computes, so the read is determined by the position. |
| Lexer.BlanksEnd | src/parser/Lexer.cpp:133-139 | Where `skipWhitespace` stops: a position no earlier than the start and a character that is a newline or not a blank, or none when the stream fails first. It stops at once on such a character. |
| Lexer.BlanksEndFails | src/parser/Lexer.cpp:133-139 | From a blank, skipping fails exactly when only blanks are left (`BlankRest`). |
| Lexer.ScanRunChars | src/parser/Lexer.cpp:150-194 | A scanned run holds only characters of its class. It is empty exactly when the current character is not of the class, and otherwise starts with it. |
| Lexer.ScanRunStep | src/parser/Lexer.cpp:157-161 | One iteration of a scanner loop: the character appended, then the run from what `advance` loads next, give the whole run. |
| Lexer.Lexer.constructor | src/parser/Lexer.cpp:9-19 | Line 1, column 0, the first character loaded. |
| Lexer.Lexer.Advance | src/parser/Lexer.cpp:77-131 | Line continuations are skipped; a comment loads the newline that ends it; line and column follow what was read. |
| Lexer.Lexer.SkipComment | src/parser/Lexer.cpp:104-113 | Reads up to and including the end-of-comment newline, or until the input fails. |
| Lexer.Lexer.SkipWhitespace | src/parser/Lexer.cpp:133-139 | Advances over blanks, and stops at a newline or at the end. The stream ends up failed exactly when it had failed already or the current character is a blank and only blanks are loaded up to the end (`BlankRest`). From a good stream it stops where `BlanksEnd` says, with that character current. |
| Lexer.Lexer.SimpleToken | src/parser/Lexer.cpp:141-148 | The current character as a token of the given type. |
| Lexer.Lexer.ScanIdentifier | src/parser/Lexer.cpp:150-178 | The lexeme is `ScanRun` with `IsWordChar`: the current character and every character `advance` loads after it, up to the first one that is not a letter, digit or '_' or the end of the stream. It starts with a letter or '_', the character left current is not a word character, and the type is `KeywordKind`. |
| Lexer.Lexer.ScanNumber | src/parser/Lexer.cpp:180-194 | The lexeme is `ScanRun` with `IsDigit`: the current digit and every digit `advance` loads after it, up to the first non-digit or the end of the stream. It is not empty, and the character left current is not a digit. |
| Lexer.Lexer.Next | src/parser/Lexer.cpp:22-59 | Blanks are skipped. The token is EOF exactly when the input had already failed or only blanks other than newlines remain before its end; that token is empty and sits at the column. Otherwise c is the character where skipping stops (`BlanksEnd`). A word start gives the `ScanRun` of word characters from c, typed by `KeywordKind`. A digit gives the `ScanRun` of digits, typed NUMBER. Any other c gives the one-character token [c] of type `SimpleKind(c)`. |
| Grammar.ProductionTable | src/parser/Grammar.cpp:99-151 | The productions the combinators build, written out terminal by terminal. |
| Grammar.Seq2Admits | src/parser/Grammar.cpp:34-43 | `a \| b` is the two-terminal sequence. |
| Grammar.OrElseAdmits | src/parser/Grammar.cpp:45-52 | `||` widens the last terminal by one alternative. |
| Grammar.Shape | src/parser/Grammar.cpp:99-151 | `ANY` and `OPT_NEWLINE` never stand in the last terminal, and `OPT_NEWLINE` never in the first. |
| Grammar.Collect | src/parser/Grammar.cpp:423-458 | The token and its end always replace the old ones. An `ANY` token opens a run and keeps the run's start; a regular token closes a run or sets a new start. |
| Grammar.AnyRunSpan | src/parser/Grammar.cpp:434-441 | A run of `ANY` tokens spans from the start of its first token to the end of its last. |
| Grammar.VisitCases | src/parser/Grammar.cpp:226-396 | Which branch a turn takes depends on the terminal at the key's cursor. |
| Grammar.VisitTakes | src/parser/Grammar.cpp:250-282 | A terminal that holds the token, an `ANY` terminal, or an `OPT_NEWLINE` terminal met by a newline keeps the key and moves to the next key. |
| Grammar.VisitRetries | src/parser/Grammar.cpp:352-364 | At `OPT_NEWLINE` with another token, the same key is tried again one terminal on. |
| Grammar.VisitErases | src/parser/Grammar.cpp:367-388 | A terminal that rejects the token erases the key; erasing the last one is the error. |
| Grammar.VisitBraces | src/parser/Grammar.cpp:266-304 | Only a task counts braces, on the tokens it holds. |
| Grammar.VisitAnyRun | src/parser/Grammar.cpp:307-337 | An `ANY` run ends on a token of the next terminal; for a task, only with its braces closed. |
| Grammar.Step | src/parser/Grammar.cpp:192-420 | One `match` call: the new state and the match, with the engine invariant kept. |
| Grammar.ErrorIff | src/parser/Grammar.cpp:367-411 | An error exactly when every key rejects the token at its cursor. The output then has no match and no candidate is left; a cache that was in use is reset. |
| Grammar.RunError | src/parser/Grammar.cpp:226-396 | The remaining pass ends in the error exactly when it is at its first key and every key rejects the token. |
| Grammar.RejectsAtStart | src/parser/Grammar.cpp:99-151 | Every production starts with a plain terminal. |
| Grammar.EmptyCacheError | src/parser/Grammar.cpp:210-216 | From an empty cache every rule is a candidate, and the token is an error exactly when it starts none of the productions. |
| Grammar.MatchedReset | src/parser/Grammar.cpp:405-417 | A match names a rule with a production and hands out its captures; then the cache is empty and every capture is cleared. No match names no rule and carries no captures. |
| Grammar.Engine.constructor | src/parser/Grammar.cpp:174-189 | An empty cache, and fresh captures for every production. |
| Grammar.Engine.Match | src/parser/Grammar.cpp:192-420 | The engine's new state and the match are exactly `Step` of its old state and the token. |
| Grammar.Engine.ReadCursor | src/parser/Grammar.cpp:231 | The key's cursor, inserted as 0 when it had none, or 0 on a pass that does not use the cache. |
| Grammar.Engine.CollectInput | src/parser/Grammar.cpp:423-458 | The token is recorded in the rule's slot as `Collect` says; nothing else changes. |
| Grammar.Engine.ResetAll | src/parser/Grammar.cpp:461-472 | The cache is emptied and every capture is cleared. |
| Semantic.LookupIgnoresCase | src/parser/Semantic.cpp:177-187 | A keyword lookup sees a name only through its folded form. |
| Semantic.ResolveAttribute | src/parser/Semantic.cpp:36-52 | The attribute type of a known name in any case, and `UNKNOWN` for any other. |
| Semantic.CountError | src/parser/Semantic.cpp:193-216 | A missing required property, more than one where one is allowed, or any where none is allowed. |
| Semantic.CountRules | src/parser/Semantic.cpp:193-216 | The count checks come before everything else is looked at. |
| Semantic.OneProperty | src/parser/Semantic.cpp:219-249 | An admitted `PROFILE`, `IFOS`, `MAP` or `EXCLUDE` attribute has exactly one property. |
| Semantic.AcceptedAttribute | src/parser/Semantic.cpp:169-283 | An attribute that passes every check is admitted. Its `PROFILE`, `MAP`/`EXCLUDE` or `IFOS` property names a declared profile, a declared variable or an OS. |
| Semantic.Engine.CollectAttribute | src/parser/Semantic.cpp:169-283 | Accepted iff `AttributeError` finds nothing, and otherwise refused with that error. An accepted attribute, with its resolved type and space-separated properties, is appended to the pending ones; nothing else changes. |
| Semantic.Engine.CheckProperty | src/parser/Semantic.cpp:219-273 | Accepted exactly when `PropertyError` finds nothing; a declared profile for `PROFILE`, a declared variable for `MAP`/`EXCLUDE`, an OS for `IFOS`, a cache keyword for `CACHE`. |
| Semantic.Engine.CollectAssignment | src/parser/Semantic.cpp:293-347 | The pending attributes move onto the variable, and pending is cleared either way. Each must allow variables. The variable is stored under its profile's mangled name. |
| Semantic.ThreadsAccepted | src/parser/Semantic.cpp:526-551 | A thread count is accepted exactly when it is a non-empty digit string whose value is between 1 and INT_MAX. |
| Semantic.Engine.UseInterpreter | src/parser/Semantic.cpp:452-497 | `using default interpreter <path>` is accepted iff the first option is `interpreter` and the path is an existing file; only then does the default interpreter change. |
| Semantic.Engine.UseThreadCount | src/parser/Semantic.cpp:526-551 | `using threads <n>` is accepted iff there is exactly one option and it reads as a positive `int`; only then is the count set to it. |
| Semantic.Engine.AddProfiles | src/parser/Semantic.cpp:508-524 | Each name is appended, unless it is an OS or architecture name or already declared, which stops the loop and keeps the names before it. |
| Semantic.DuplicateBlocks | src/parser/Semantic.cpp:508-524 | A name already declared, or repeated among the options, would leave a duplicate. |
| Semantic.Engine.CollectUsing | src/parser/Semantic.cpp:434-554 | An unknown form is `UnknownUsing`. Each known form changes only its own setting, under the acceptance rule of its branch. A refused profile list keeps the names before the offending one. |
| Semantic.Engine.CollectAssert | src/parser/Semantic.cpp:608-653 | One assert is appended, with its line, operands and operator (`eq`, `ne`, `in`, or none). An `ACTIONS` assert gets the tasks of its reason, a `MESSAGE` assert keeps its reason. |
| Semantic.ReportIff | src/parser/Semantic.cpp:1086-1147 | An error is reported exactly when some assert fails: the failures before the first failing `MESSAGE` assert, and that one. |
| Semantic.RecoveryFromActions | src/parser/Semantic.cpp:1133-1140 | Callbacks are scheduled only by failing `ACTIONS` asserts, and each of them schedules its callbacks when no `MESSAGE` assert failed. |
| Semantic.Engine.ExecuteAsserts | src/parser/Semantic.cpp:1086-1147 | No report iff no assert fails. Otherwise it reports the failing asserts up to and including the first failing `MESSAGE` one. The callbacks are those of the failing `ACTIONS` asserts before that one. |
| Semantic.Engine.Evaluate | src/parser/Semantic.cpp:1098-1112 | Whether one assert fails (`Fails`: equality, inequality, membership, or a path that does not exist). |
| Jobs.PruneKeepsSurvivors | src/core/Jobs.cpp:80-165 | Pruning keeps a subsequence. When nothing mentions a file and nothing changed, it clears the list. Otherwise it drops exactly the instructions that mention an unchanged file. |
| Jobs.PruneUnchangedInstructions | src/core/Jobs.cpp:80-165 | The array-and-flags loops compute `Pruned`, the list `PruneKeepsSurvivors` describes. |
| Jobs.MarkFiles | src/core/Jobs.cpp:122-141 | After the file loop, an instruction is kept exactly when it is not stale. The flags say whether some instruction mentions a file and whether some file changed. |
| Jobs.ProcessFile | src/core/Jobs.cpp:94-120 | Every kept instruction that mentions the file is found, and pruned when the file did not change. |
| Jobs.KeptInstructions | src/core/Jobs.cpp:148-164 | The instructions still marked, in order. |
| Jobs.ScriptLine | src/core/Jobs.cpp:184-194 | In the single script each line starts at its offset and is followed by a newline. |
| Jobs.MakeSingleInstruction | src/core/Jobs.cpp:184-194 | The lines joined, each followed by a newline. |
| Jobs.JobShape | src/core/Jobs.cpp:179-234 | No instructions, no job. A task that is not expanded and not pruned yields its lines as a single script. |
| Jobs.FromInstruction | src/core/Jobs.cpp:179-234 | The job `JobOf` gives: the task's name and interpreter, its instructions (expanded lines, or one script) after pruning, and its MULTITHREAD / ECHO flags. None when no instruction is left. |
| Jobs.NodeOf | src/core/Jobs.cpp:253-280 | The node's dependencies and successors are the properties of the task's first `REQUIRES` and `THEN` attributes, empty without one. |
| Jobs.BuildGraph | src/core/Jobs.cpp:248-283 | One node per task of the table and no other, each the `NodeOf` of that task's attributes. |
| Jobs.DfsOrder | src/core/Jobs.cpp:361-383 | For a task visited for the first time, the walk of its dependencies succeeds and only appends. Its jobs come first, then the task's own job; the rest of the output is exactly what the successors' walk appends when started from that point. |
| Jobs.MarkTemp | src/core/Jobs.cpp:329-353 | Marking a task TEMP removes it from the unmarked ones. |
| Jobs.Walker.Visit | src/core/Jobs.cpp:304-391 | The walker's marks, jobs and error end as `Dfs` says: an unknown task or a TEMP mark (a cycle) is an error, and a PERM mark is a task already visited. |
| Jobs.Walker.VisitEach | src/core/Jobs.cpp:361-383 | Each name in order, stopping at the first that fails (`DfsList`). |
| Jobs.List.Insert | src/core/Jobs.cpp:403-414 | A job with a new name is appended; a missing job or a known name changes nothing. |
| Md5.MessageOrder | src/core/util/Cache.cpp:311-320 | The message-word order of the first two rounds is the one listed in section 3.4 of RFC 1321. |
| Md5.MessageOrderLate | src/core/util/Cache.cpp:321-330 | So is the order of the last two rounds. |
| Md5.BlocksSnoc | src/core/util/Cache.cpp:340-343 | One more block is one more transform of the chaining words. |
| Md5.ChainedBlocks | src/core/util/Cache.cpp:371-375 | The last state of the chain is the compression of all its blocks. |
| Md5.PadLenBounds | src/core/util/Cache.cpp:391-398 | Between 1 and 64 padding bytes bring the length to 56 modulo 64 (section 3.1 of RFC 1321). |
| Md5.BitLengthIsLowBits | src/core/util/Cache.cpp:402 | The bit count is written as its low 64 bits (section 3.2 of RFC 1321). |
| Md5.LE64RoundTrip | src/core/util/Cache.cpp:405-408 | The eight length bytes read back as the value. |
| Md5.LengthFieldDiffers | src/core/util/Cache.cpp:400-410 | The length field the code appends is never the message's, so its stream is never RFC 1321's. |
| Md5.EmptyMessageLength | src/core/util/Cache.cpp:400-410 | For the empty message the code appends 448 where RFC 1321 appends 0. |
| Md5.HexCharset | src/core/util/Cache.cpp:435-441 | The hex text is all lower-case hex digits. |
| Md5.HexRoundTrip | src/core/util/Cache.cpp:435-441 | The hex text reads back as the digest bytes. |
| Md5.Context.Init | src/core/util/Cache.cpp:250-258 | The initial words, an empty buffer and counter, nothing absorbed. |
| Md5.Context.TransformBlock | src/core/util/Cache.cpp:260-344 | The words become `Transform` of the old words and the block. |
| Md5.ReadWords | src/core/util/Cache.cpp:292-299 | The block's sixteen little-endian words. |
| Md5.Compress | src/core/util/Cache.cpp:306-338 | The registers after the 64 steps. |
| Md5.Step | src/core/util/Cache.cpp:308-337 | One step: the round function, the word index, the rotation and the register shift. |
| Md5.LeftRotateValue | src/core/util/Cache.cpp:245-248 | `leftrotate` is a 32-bit rotation: the value is x * 2^c modulo 2^32 plus x divided by 2^(32 - c). The two shifted parts share no bit, so the `\|` adds them. |
| Md5.ShlValue | src/core/util/Cache.cpp:247 | `x << c` is x * 2^c modulo 2^32. |
| Md5.ShrValue | src/core/util/Cache.cpp:247 | `x >> c` is x divided by 2^c, rounded down. |
| Md5.Context.Update | src/core/util/Cache.cpp:346-383 | The context has absorbed the old bytes followed by the data. The words are the compression of every complete block, the buffer holds the rest, and the counter grows modulo 2^64. |
| Md5.Context.TopUp | src/core/util/Cache.cpp:352-369 | A partly filled buffer takes what it has room for, and is compressed when full. |
| Md5.Context.AbsorbBlocks | src/core/util/Cache.cpp:371-375 | Every complete block from the offset is compressed; fewer than 64 bytes remain. |
| Md5.Context.Stash | src/core/util/Cache.cpp:377-382 | The remainder goes into the empty buffer. |
| Md5.LengthBytes | src/core/util/Cache.cpp:402-408 | The eight bytes of the bit count, least significant first. |
| Md5.Context.PadAsWritten | src/core/util/Cache.cpp:391-410 | The stream absorbed is the message, the padding, and the counter read after the padding went in (`AsWrittenStream`). |
| Md5.Context.PadCorrected | src/core/util/Cache.cpp:391-410 | The stream absorbed is RFC 1321's: the message, the padding, and the message's bit length. |
| Md5.Context.Final | src/core/util/Cache.cpp:385-420 | As written: the digest of `AsWrittenStream`. |
| Md5.Context.FinalCorrected | src/core/util/Cache.cpp:385-420 | The digest of RFC 1321. |
| Md5.Context.Output | src/core/util/Cache.cpp:412-419 | The four words, little-endian. |
| Md5.MD5 | src/core/util/Cache.cpp:426-444 | As written: the 32 lower-case hex digits of the `md5_final` digest. |
| Md5.MD5Corrected | src/core/util/Cache.cpp:426-444 | The 32 hex digits of the RFC 1321 digest. |
| Cache.ReadFile | src/core/util/Cache.cpp:200-223 | The file's content, and empty when it cannot be opened. |
| Cache.Recorded | src/core/util/Cache.cpp:562-566 | The hash is written under the key exactly when the entry is stale; the other entries stay. |
| Cache.CheckedIsCurrent | src/core/util/Cache.cpp:554-569 | After a check, the file is current in the directory the next build loads. |
| Cache.CheckTwice | src/core/util/Cache.cpp:554-569 | A second check against the same loaded cache writes the same entry. |
| Cache.Manager.LoadCache | src/core/util/Cache.cpp:502-533 | A missing profile file is created empty; every input entry and the profile are loaded. |
| Cache.Manager.HandleProfileChange | src/core/util/Cache.cpp:537-550 | Another profile drops every input entry, on disk and in memory; the profile file then records the new profile. |
| Cache.Manager.HasFileChanged | src/core/util/Cache.cpp:554-569 | True iff the loaded cache has no entry for the file's key or one with another hash; then the new hash is written. The key and the hash are the program's own `Cache::MD5` (the as-written digest, length field included), so the names match the folder the program writes. The loaded cache is not updated. |
| Cache.Start | src/Arcana.cpp:143-144 | With a new profile nothing is cached, so every file is reported changed; with the same profile the last build's inputs are. |
| Runner.Basename | test/testenv/runner.py:39 | The basename holds no '/'. |
| Runner.BasenameOfJoin | test/testenv/runner.py:26-39 | The basename of a joined path is the joined name. |
| Runner.StemOfArc | test/testenv/runner.py:39 | A script name is the file name without `.arc`, inner dots included. |
| Runner.StemPlain | test/testenv/runner.py:39 | A name without a dot, such as `arcfile`, is its own script name. |
| Runner.Expected | test/testenv/runner.py:35-37 | 255 exactly when "negative" occurs in the lower-cased content, and 0 otherwise. |
| Runner.FoundSpec | test/testenv/runner.py:20-39 | The walk's tests are exactly those its readable candidate files make. |
| Runner.ArcfilesFirst | test/testenv/runner.py:41 | The comprehension is empty iff no test is named `arcfile`, and its head is the first that is. |
| Runner.ScanSpec | test/testenv/runner.py:41-46 | With an `arcfile` test the result is the first one alone; otherwise it is every test found. |
| Runner.ScanDir | test/testenv/runner.py:24-39 | One directory's tests are appended in file order. |
| Runner.ScanArcTests | test/testenv/runner.py:20-46 | The loop computes `Scan`. |
| Runner.SortTests | test/testenv/runner.py:74 | Sorted by (expected result, path), and a permutation of the tests. |
| Runner.PassesPermutation | test/testenv/runner.py:74-86 | The tally does not depend on the order the tests run in. |
| Runner.Tally | test/testenv/runner.py:76-86 | `passed` counts the tests that exit with their expected code; `failed` counts the rest. |
| Runner.ExecTests | test/testenv/runner.py:64-92 | The tests run in key order, and the counts are those of `Tally`. |
| Runner.Rate | test/testenv/runner.py:111 | The P/F rate is between 0 and 100, and 100 when nothing failed. |
| Runner.RunCampaign | test/testenv/runner.py:101-111 | A summary exists iff the scan found a test, so the rate's divisor is positive. |
| Runner.RunAll | test/testenv/runner.py:95-116 | One result per campaign, scanned from `../<campaign>`: no summary iff the scan found no test; otherwise passed plus failed is the number of tests and passed counts the tests whose exit code is the expected one (`Reports`). |
| Runner.CsiLengthSpec | test/testenv/runner.py:17 | A match at the start exists iff `CsiLength` is positive, and it has exactly that length. |
| Runner.CsiUnique | test/testenv/runner.py:17 | At most one prefix of the text is an escape sequence. |
| Runner.StripKeepsOrder | test/testenv/runner.py:61 | Stripping keeps the other characters, in order. |
| Runner.StripEscape | test/testenv/runner.py:61 | A whole escape sequence at the front is dropped. |
| Runner.StripPlain | test/testenv/runner.py:61 | Text without ESC is kept as it is. |
| Runner.StripLabel | test/testenv/runner.py:50 | A coloured label loses its colours and keeps its text. |

## Left out

- TableHelper.Table.TakeValues: the source copies the current key, advances its map iterator and only then calls `TakeValue`, which may erase the entry the iterator now points to when that entry is the key's own mangled form `key@@profile` (undefined behaviour in C++). The model walks a snapshot of the keys taken on entry and skips keys that an earlier step already removed, which is what the loop does whenever the erased entry is not the next one.
- File system and processes: reading files, directory walks (`ListDir`, `IsDir`, `ExpandRec`), `create_file`, `remove_dir_recursive`, `WriteScript`, `EraseCache`, `ClearCache`, spawning the interpreter, and the runner's `subprocess` call and log files. The model takes their results as parameters: the walk's output, whether a start directory exists, the file contents, the set of changed files, and the exit code of each test.
- Concurrency: the thread pool and parallel jobs.
- Printing and messages: error printers, `Help`, `Version`, the hint text of `FindClosest`, and `HandleArgsPreParse` / `HandleArgsPostParse`. The lexer's copy of the lines, kept only for messages, is also left out.
- The variable expander and its regular expressions, `CheckArgs`, `AlignEnviroment`, `Enviroment::Expand`, and the task and mapping collectors.
- The `join` path of `Collect_Assignment`.
- `List::FromEnv`, the profiler, the generator, and the orchestration in `Arcana.cpp`. Only the cache start-up in `Arcana.cpp` is modelled, as `Cache.Start`.
- Core globals: the running OS name, the OS and architecture tables, and file existence are parameters (a string or sets).
- `hasAttribute` and `getProperties` are not among the files modelled. The model takes them as "some attribute has the type" and "the properties of the first attribute of that type".
- The order of the runner's directory walk is a parameter: `os.walk` order belongs to the file system.
- Python `lower()` is modelled as ASCII case folding. The runner's one-decimal formatting of the rate is left out. The rate is a `real`: no floating point.
- `sort` stability in the runner: the model proves sorted-and-permutation only, not that equal keys keep their order.
- GlobCapture.MapGlobToGlob: on a mapping failure the source leaves the outputs of the sources already mapped in `out_list`; the model's failure outcomes carry no outputs, only the error.
- Lexer.Lexer.ScanIdentifier: the token's `end` is taken to be the lexeme's length. The source passes `std::move(lexeme)` and `lexeme.size()` in one call, and C++ leaves their evaluation order unspecified; when the move comes first, `end` is the size of a moved-from string (0 in common libraries).
- Lexer.Lexer.ScanNumber: the same choice for the `end` of a number token.
- Support.Hash: characters are taken as non-negative codes. On a signed-`char` platform, bytes from 0x80 up add negative values.

## Findings

| source | as written | input that shows it | evidently intended | confidence | as-written member | corrected member |
|---|---|---|---|---|---|---|
| src/core/util/Cache.cpp:400-410 | `md5_final` runs the padding through `md5_update`, which adds it to `total_bytes`, before the bit length is read. The length field is therefore 8 × (message + padding) bits. | The empty message: the length field is 0x1C0 (448) instead of 0, so the last block compressed is not the one RFC 1321 compresses. | The length field holds the message's own bit length, as section 3.2 of RFC 1321 requires. | not executed | Md5.Context.Final, Md5.MD5, Md5.LengthFieldDiffers, Md5.EmptyMessageLength | Md5.Context.FinalCorrected, Md5.MD5Corrected |
