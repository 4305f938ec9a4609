/** The scanner of Arcana scripts (src/parser/Lexer.cpp). The input stream
    is the whole script as a sequence of characters read from position
    `pos`; the stream fails once a read finds no character left, which is
    when `in_` turns false. */
module Lexer {
  import opened Wrappers
  import opened Support

  datatype TokenType =
    | Identifier | Task | Import | Using | Mapping | Assert | Number
    | Assign | DQuote | Plus | Minus | Star | Slash
    | RoundLP | RoundRP | SquareLP | SquareRP | CurlyLP | CurlyRP
    | AngularLP | AngularRP | At | NotEqual | Equal | In | Semicolon
    | Newline | EndOfFile | Unknown | Any | OptNewline

  /** A token: its type, the text matched, its line and its column span. */
  datatype Token = Token(kind: TokenType, lexeme: string, line: nat, start: nat, end: nat)

  /** `size_t` subtraction of one: 0 wraps to the largest value. */
  function Dec(x: nat): nat {
    if x == 0 then SizeMod - 1 else x - 1
  }

  /** What `static_cast<char>(EOF)` stores. */
  const EofChar: char := 0xFF as char

  // ---------------------------------------------------------------------
  // Character classes and token kinds
  // ---------------------------------------------------------------------

  /** `isspace` in the C locale. */
  predicate IsSpaceC(c: char) {
    c == ' ' || c == '\t' || c == '\n' || c == '\r' || c as int == 0x0B || c as int == 0x0C
  }

  predicate IsAlpha(c: char) { 'a' <= c <= 'z' || 'A' <= c <= 'Z' }

  /** The characters that start an identifier. */
  predicate IsWordStart(c: char) { IsAlpha(c) || c == '_' }

  /** The characters that continue an identifier (`isalnum` or '_'). */
  predicate IsWordChar(c: char) { IsAlpha(c) || IsDigit(c) || c == '_' }

  /** The token type of a single character, as `next` dispatches it. */
  function SimpleKind(c: char): TokenType {
    match c
    case '=' => Assign
    case '+' => Plus
    case '-' => Minus
    case '*' => Star
    case '/' => Slash
    case '(' => RoundLP
    case ')' => RoundRP
    case '[' => SquareLP
    case ']' => SquareRP
    case '{' => CurlyLP
    case '}' => CurlyRP
    case '@' => At
    case ';' => Semicolon
    case '\n' => Newline
    case _ => Unknown
  }

  /** The character a single-character token type is written with. */
  function Punctuation(k: TokenType): Option<char> {
    match k
    case Assign => Some('=')
    case Plus => Some('+')
    case Minus => Some('-')
    case Star => Some('*')
    case Slash => Some('/')
    case RoundLP => Some('(')
    case RoundRP => Some(')')
    case SquareLP => Some('[')
    case SquareRP => Some(']')
    case CurlyLP => Some('{')
    case CurlyRP => Some('}')
    case At => Some('@')
    case Semicolon => Some(';')
    case Newline => Some('\n')
    case _ => None
  }

  /** Every listed character gets the type written with it, every other
      character gets UNKNOWN, and each of those types is written with one
      character only. */
  lemma SimpleKindRoundTrip(c: char, k: TokenType)
    ensures SimpleKind(c) != Unknown ==> Punctuation(SimpleKind(c)) == Some(c)
    ensures SimpleKind(c) == Unknown ==> forall j :: Punctuation(j) != Some(c)
    ensures Punctuation(k) == Some(c) ==> SimpleKind(c) == k
  {
  }

  /** The type of a scanned word: TASK and USING for those keywords in any
      case, IDENTIFIER otherwise. */
  function KeywordKind(lexeme: string): (k: TokenType)
    ensures k == Task <==> EqualsIgnoreCase(lexeme, "task")
    ensures k == Using <==> EqualsIgnoreCase(lexeme, "using")
    ensures k == Task || k == Using || k == Identifier
  {
    var lower := Fold(lexeme);
    assert Fold("task") == "task" && Fold("using") == "using";
    if lower == "task" then Task
    else if lower == "using" then Using
    else Identifier
  }

  // ---------------------------------------------------------------------
  // Positions in the input
  // ---------------------------------------------------------------------

  /** The number of newline characters in s. */
  function Newlines(s: string): nat {
    if s == [] then 0
    else Newlines(s[..|s| - 1]) + if s[|s| - 1] == '\n' then 1 else 0
  }

  /** Where the last line of s starts: just after its last newline. */
  function LineStart(s: string): (k: nat)
    ensures k <= |s|
  {
    if s == [] then 0
    else if s[|s| - 1] == '\n' then |s|
    else LineStart(s[..|s| - 1])
  }

  /** Reading one more character of the input. */
  lemma ReadStep(input: string, p: nat)
    requires p < |input|
    ensures input[..p + 1][..p] == input[..p]
    ensures Newlines(input[..p + 1]) == Newlines(input[..p]) + if input[p] == '\n' then 1 else 0
    ensures LineStart(input[..p + 1]) == if input[p] == '\n' then p + 1 else LineStart(input[..p])
  {
    assert input[..p + 1][..p] == input[..p];
  }

  /** s is a run of line continuations: backslash, newline, backslash, ... */
  ghost predicate Continuations(s: string) {
    |s| % 2 == 0 && forall i :: 0 <= i < |s| ==> s[i] == if i % 2 == 0 then '\\' else '\n'
  }

  /** A line continuation starts at position k. */
  predicate JoinedAt(input: string, k: nat) {
    k + 1 < |input| && input[k] == '\\' && input[k + 1] == '\n'
  }

  /** One more continuation extends a run of them. */
  lemma ContinuationsStep(input: string, p0: nat, k: nat)
    requires p0 <= k && JoinedAt(input, k) && Continuations(input[p0..k])
    ensures Continuations(input[p0..k + 2])
  {
    var s := input[p0..k + 2];
    forall i | 0 <= i < |s|
      ensures s[i] == if i % 2 == 0 then '\\' else '\n'
    {
      if i < k - p0 {
        assert s[i] == input[p0..k][i];
      }
    }
  }

  /** A comment body from b to p: no newline, then the newline that ends
      it, or the end of the input when the stream has failed. */
  ghost predicate CommentTo(input: string, b: nat, p: nat, failed: bool, current: char) {
    b <= p <= |input|
    && if failed then p == |input| && forall i :: b <= i < p ==> input[i] != '\n'
       else b < p && input[p - 1] == '\n' && current == '\n' && forall i :: b <= i < p - 1 ==> input[i] != '\n'
  }

  /** What one `advance` read from p0 to p: line continuations, then the end
      of the input, a comment, or one more character, which is current. */
  ghost predicate AdvancedOver(input: string, p0: nat, p: nat, failed: bool, current: char) {
    exists k :: p0 <= k <= p <= |input| && Continuations(input[p0..k])
      && if k == |input| then failed && p == k && current == '\0'
         else if input[k] == '#' then CommentTo(input, k + 1, p, failed, current)
         else !failed && !JoinedAt(input, k) && p == k + 1 && current == input[k]
  }

  /** The first position from p that does not start a line continuation. */
  function SkipJoins(input: string, p: nat): (k: nat)
    requires p <= |input|
    ensures p <= k <= |input| && !JoinedAt(input, k)
    decreases |input| - p
  {
    if JoinedAt(input, p) then SkipJoins(input, p + 2) else p
  }

  /** The first newline at or after b, or the end of the input. */
  function NewlineFrom(input: string, b: nat): (e: nat)
    requires b <= |input|
    ensures b <= e <= |input| && (e < |input| ==> input[e] == '\n')
    ensures forall i :: b <= i < e ==> input[i] != '\n'
    decreases |input| - b
  {
    if b == |input| || input[b] == '\n' then b else NewlineFrom(input, b + 1)
  }

  /** One `advance` from p as a function: the position it stops at and the
      character it loads, or None when the stream fails. */
  function AdvanceFrom(input: string, p: nat): (r: (nat, Option<char>))
    requires p <= |input|
    ensures p <= r.0 <= |input| && (r.1.Some? ==> p < r.0)
  {
    var k := SkipJoins(input, p);
    if k == |input| then (k, None)
    else if input[k] == '#' then
      var e := NewlineFrom(input, k + 1);
      if e == |input| then (e, None) else (e + 1, Some('\n'))
    else (k + 1, Some(input[k]))
  }

  /** A run of continuations that ends where no continuation starts ends
      where SkipJoins does. */
  lemma {:induction false} ContinuationsEnd(input: string, p: nat, k: nat)
    requires p <= k <= |input| && Continuations(input[p..k]) && !JoinedAt(input, k)
    ensures SkipJoins(input, p) == k
    decreases k - p
  {
    if p < k {
      assert input[p..k][0] == '\\' && input[p..k][1] == '\n';
      assert JoinedAt(input, p);
      var s := input[p + 2..k];
      forall i | 0 <= i < |s|
        ensures s[i] == if i % 2 == 0 then '\\' else '\n'
      {
        assert s[i] == input[p..k][i + 2];
      }
      ContinuationsEnd(input, p + 2, k);
    }
  }

  /** What one `advance` reads is what AdvanceFrom computes. */
  lemma AdvancedOverIsAdvanceFrom(input: string, p0: nat, p: nat, failed: bool, current: char)
    requires p0 <= |input| && AdvancedOver(input, p0, p, failed, current)
    ensures AdvanceFrom(input, p0) == (p, if failed then None else Some(current))
  {
    var k :| p0 <= k <= p <= |input| && Continuations(input[p0..k])
      && if k == |input| then failed && p == k && current == '\0'
         else if input[k] == '#' then CommentTo(input, k + 1, p, failed, current)
         else !failed && !JoinedAt(input, k) && p == k + 1 && current == input[k];
    if k < |input| && input[k] == '#' {
      assert !JoinedAt(input, k);
      ContinuationsEnd(input, p0, k);
    } else {
      ContinuationsEnd(input, p0, k);
    }
  }

  /** From p, every character `advance` loads before the stream fails is a
      blank other than a newline: `next` finds nothing but the end. */
  ghost predicate BlankRest(input: string, p: nat)
    requires p <= |input|
    decreases |input| - p
  {
    var r := AdvanceFrom(input, p);
    r.1.None? || (r.1.value != '\n' && IsSpaceC(r.1.value) && BlankRest(input, r.0))
  }

  /** Where `skipWhitespace` stops when c is the current character and the
      stream is at p: the position and the first loaded character that is a
      newline or not a blank, or None when the stream fails first. */
  function BlanksEnd(input: string, p: nat, c: char): (r: Option<(nat, char)>)
    requires p <= |input|
    ensures r.Some? ==> p <= r.value.0 <= |input| && (r.value.1 == '\n' || !IsSpaceC(r.value.1))
    ensures (c == '\n' || !IsSpaceC(c)) ==> r == Some((p, c))
    decreases |input| - p
  {
    if c == '\n' || !IsSpaceC(c) then Some((p, c))
    else
      var r := AdvanceFrom(input, p);
      if r.1.None? then None else BlanksEnd(input, r.0, r.1.value)
  }

  /** `skipWhitespace` from a blank fails exactly when only blanks are
      left before the end of the stream. */
  lemma {:induction false} BlanksEndFails(input: string, p: nat, c: char)
    requires p <= |input| && c != '\n' && IsSpaceC(c)
    ensures BlanksEnd(input, p, c).None? <==> BlankRest(input, p)
    decreases |input| - p
  {
    var r := AdvanceFrom(input, p);
    if r.1.Some? && r.1.value != '\n' && IsSpaceC(r.1.value) {
      BlanksEndFails(input, r.0, r.1.value);
    }
  }

  /** The run a scanner loop reads while P holds, with c the current
      character and the stream at p: c, then each character `advance`
      loads, up to the first one that fails P or the end of the stream. */
  function ScanRun(input: string, p: nat, c: char, P: char -> bool): string
    requires p <= |input|
    decreases |input| - p
  {
    if !P(c) then []
    else
      var r := AdvanceFrom(input, p);
      [c] + if r.1.None? then [] else ScanRun(input, r.0, r.1.value, P)
  }

  /** A run holds only characters satisfying P, and is empty exactly when
      the first one fails P. */
  lemma {:induction false} ScanRunChars(input: string, p: nat, c: char, P: char -> bool)
    requires p <= |input|
    ensures forall i :: 0 <= i < |ScanRun(input, p, c, P)| ==> P(ScanRun(input, p, c, P)[i])
    ensures ScanRun(input, p, c, P) != [] <==> P(c)
    ensures P(c) ==> ScanRun(input, p, c, P)[0] == c
    decreases |input| - p
  {
    if P(c) {
      var r := AdvanceFrom(input, p);
      if r.1.Some? {
        ScanRunChars(input, r.0, r.1.value, P);
        var rest := ScanRun(input, r.0, r.1.value, P);
        assert ScanRun(input, p, c, P) == [c] + rest;
        forall i | 0 < i < 1 + |rest|
          ensures P(([c] + rest)[i])
        {
          assert ([c] + rest)[i] == rest[i - 1];
        }
      }
    }
  }

  /** One step of a scanner loop: c, read at p, followed by what `advance`
      loads next, continues the run. */
  lemma ScanRunStep(input: string, p: nat, c: char, P: char -> bool, before: string, q: nat, next: Option<char>)
    requires p <= |input| && P(c) && AdvanceFrom(input, p) == (q, next)
    ensures before + ScanRun(input, p, c, P) == (before + [c]) + if next.None? then [] else ScanRun(input, q, next.value, P)
  {
    var rest := if next.None? then [] else ScanRun(input, q, next.value, P);
    assert ScanRun(input, p, c, P) == [c] + rest;
    assert before + ([c] + rest) == (before + [c]) + rest;
  }

  // ---------------------------------------------------------------------
  // The scanner
  // ---------------------------------------------------------------------

  class Lexer {
    const input: string
    var pos: nat
    var failed: bool
    var line: nat
    var col: nat
    var nlcol: nat
    var current: char

    /** The stream and the counters agree: the line is one more than the
        newlines read, and while the stream is good the column counts the
        characters read since the last newline. */
    ghost predicate Consistent()
      reads this
    {
      pos <= |input| && (failed ==> pos == |input|)
      && line == 1 + Newlines(input[..pos])
      && (!failed ==> col == pos - LineStart(input[..pos]))
    }

    /** Between tokens: consistent, and while the stream is good the
        current character is the last one read. */
    ghost predicate Valid()
      reads this
    {
      Consistent() && (!failed ==> 0 < pos && current == input[pos - 1])
    }

    /** The lexer on a script: line 1, column 0, and the first character
        loaded. The lines kept for diagnostics are not modelled. */
    constructor (script: string)
      ensures Valid() && input == script
      ensures AdvancedOver(input, 0, pos, failed, current)
    {
      input := script;
      pos := 0;
      failed := false;
      line := 1;
      col := 0;
      nlcol := 0;
      current := '\0';
      new;
      Advance();
    }

    /** `advance`: skips line continuations, then loads the next character;
        a '#' loads the newline that ends its comment instead. */
    method Advance()
      requires Consistent()
      modifies this
      ensures Valid()
      ensures old(pos) <= pos && (!failed ==> old(pos) < pos)
      ensures AdvancedOver(input, old(pos), pos, failed, current)
    {
      ghost var p0 := pos;
      while true
        invariant p0 <= pos <= |input| && Continuations(input[p0..pos])
        invariant failed ==> pos == |input|
        invariant line == 1 + Newlines(input[..pos])
        invariant !failed ==> col == pos - LineStart(input[..pos])
        decreases |input| - pos
      {
        ghost var k := pos;
        if pos == |input| {
          failed := true;
          current := '\0';
          return;
        }
        var c := input[pos];
        pos := pos + 1;
        if c == '\\' && pos < |input| && input[pos] == '\n' {
          SkipJoin(p0, k);
          continue;
        }
        assert !JoinedAt(input, k);
        if c == '#' {
          c := SkipComment(k);
        }
        Load(p0, k, c);
        return;
      }
    }

    /** A line continuation in `advance`: the newline after the backslash
        is read too, and the counters move to the next line. */
    method SkipJoin(ghost p0: nat, ghost k: nat)
      requires p0 <= k && pos == k + 1 && JoinedAt(input, k) && Continuations(input[p0..k]) && !failed
      requires line == 1 + Newlines(input[..k])
      modifies this
      ensures pos == k + 2 && Continuations(input[p0..pos]) && !failed
      ensures line == 1 + Newlines(input[..pos]) && col == pos - LineStart(input[..pos])
      ensures current == old(current)
    {
      ReadStep(input, k);
      ReadStep(input, pos);
      pos := pos + 1;
      line := line + 1;
      nlcol := col;
      col := 0;
      ContinuationsStep(input, p0, k);
    }

    /** The end of `advance`: c becomes the current character, and a
        newline moves the counters to the next line. */
    method Load(ghost p0: nat, ghost k: nat, c: char)
      requires p0 <= k < pos <= |input| && Continuations(input[p0..k]) && !JoinedAt(input, k)
      requires failed ==> pos == |input|
      requires input[k] != '#' ==>
                 !failed && pos == k + 1 && c == input[k]
                 && line == 1 + Newlines(input[..k]) && col == k - LineStart(input[..k])
      requires input[k] == '#' ==>
                 CommentTo(input, k + 1, pos, failed, c) && (failed ==> c == EofChar)
                 && line + (if failed then 0 else 1) == 1 + Newlines(input[..pos])
                 && (!failed ==> col == pos - 1 - LineStart(input[..pos - 1]))
      modifies this
      ensures Valid() && pos == old(pos) && failed == old(failed) && current == c
      ensures AdvancedOver(input, p0, pos, failed, current)
    {
      ReadStep(input, pos - 1);
      current := c;
      if current == '\n' {
        line := line + 1;
        nlcol := col;
        col := 0;
      } else {
        nlcol := nlcol + 1;
        col := col + 1;
      }
      assert k < |input|;
    }

    /** The `do ... while` of `advance` after a '#': reads up to and
        including the newline that ends the comment, or until the stream
        fails; returns the last character read. */
    method SkipComment(ghost k: nat) returns (c: char)
      requires k < |input| && input[k] == '#' && pos == k + 1 && !failed
      requires line == 1 + Newlines(input[..k])
      requires col == k - LineStart(input[..k])
      modifies this
      ensures failed ==> pos == |input| && c == EofChar
      ensures CommentTo(input, k + 1, pos, failed, c)
      ensures line == old(line) && line + (if failed then 0 else 1) == 1 + Newlines(input[..pos])
      ensures !failed ==> col == pos - 1 - LineStart(input[..pos - 1])
      ensures current == old(current)
    {
      ReadStep(input, k);
      var done := false;
      c := '#';
      while !done
        invariant k + 1 <= pos <= |input| && (failed ==> pos == |input|)
        invariant failed ==> done && c == EofChar
        invariant done && !failed ==> k + 1 < pos && input[pos - 1] == '\n' && c == '\n'
        invariant !done ==> forall i :: k + 1 <= i < pos ==> input[i] != '\n'
        invariant done ==> forall i :: k + 1 <= i < pos - (if failed then 0 else 1) ==> input[i] != '\n'
        invariant line == old(line)
        invariant line == 1 + Newlines(input[..pos]) - (if done && !failed then 1 else 0)
        invariant !done ==> col == pos - 1 - LineStart(input[..pos])
        invariant done && !failed ==> col == pos - 1 - LineStart(input[..pos - 1])
        invariant current == old(current)
        decreases |input| - pos, if done then 0 else 1
      {
        if pos == |input| {
          failed := true;
          c := EofChar;
          done := true;
        } else {
          c := input[pos];
          ReadStep(input, pos);
          pos := pos + 1;
          done := c == '\n';
        }
        nlcol := nlcol + 1;
        col := col + 1;
      }
    }

    /** `skipWhitespace`: advances over blanks; a newline is a token and
        stops it, and so does the end of the input. */
    method SkipWhitespace()
      requires Valid()
      modifies this
      ensures Valid()
      ensures old(pos) <= pos
      ensures failed || current == '\n' || !IsSpaceC(current)
      ensures old(failed) || old(current) == '\n' || !IsSpaceC(old(current)) ==>
                pos == old(pos) && current == old(current) && failed == old(failed)
      ensures failed <==> old(failed) || (old(current) != '\n' && IsSpaceC(old(current)) && BlankRest(input, old(pos)))
      ensures !old(failed) ==> BlanksEnd(input, old(pos), old(current)) == if failed then None else Some((pos, current))
    {
      while !failed && current != '\n' && IsSpaceC(current)
        invariant Valid() && old(pos) <= pos
        invariant !old(failed) ==>
                    BlanksEnd(input, old(pos), old(current)) == if failed then None else BlanksEnd(input, pos, current)
        invariant (old(failed) || (old(current) != '\n' && IsSpaceC(old(current)) && BlankRest(input, old(pos))))
                  <==> (failed || (current != '\n' && IsSpaceC(current) && BlankRest(input, pos)))
        invariant old(failed) || old(current) == '\n' || !IsSpaceC(old(current)) ==>
                    pos == old(pos) && current == old(current) && failed == old(failed)
        decreases |input| - pos, if failed then 0 else 1
      {
        ghost var p := pos;
        Advance();
        AdvancedOverIsAdvanceFrom(input, p, pos, failed, current);
      }
    }

    /** `simpleToken`: the current character as a token of the given type,
        placed on the line it ends for a newline. */
    method SimpleToken(kind: TokenType) returns (tok: Token)
      requires Valid() && !failed
      modifies this
      ensures Valid() && (failed || old(pos) < pos)
      ensures tok.kind == kind && tok.lexeme == [old(current)] && tok.end == 1
      ensures tok.line == if kind == Newline then Dec(old(line)) else old(line)
      ensures tok.start == if kind == Newline then Dec(old(nlcol)) else Dec(old(col))
    {
      var c := current;
      var tokLine := if kind == Newline then Dec(line) else line;
      var tokCol := if kind == Newline then Dec(nlcol) else Dec(col);
      Advance();
      tok := Token(kind, [c], tokLine, tokCol, 1);
    }

    /** `identifier`: the longest run of letters, digits and '_', typed by
        KeywordKind. */
    method ScanIdentifier() returns (tok: Token)
      requires Valid() && !failed && IsWordStart(current)
      modifies this
      ensures Valid() && (failed || old(pos) < pos)
      ensures tok.lexeme == ScanRun(input, old(pos), old(current), IsWordChar)
      ensures tok.lexeme != [] && IsWordStart(tok.lexeme[0])
      ensures forall i :: 0 <= i < |tok.lexeme| ==> IsWordChar(tok.lexeme[i])
      ensures failed || !IsWordChar(current)
      ensures tok.kind == KeywordKind(tok.lexeme)
      ensures tok.line == old(line) && tok.start == Dec(old(col)) && tok.end == |tok.lexeme|
    {
      var lexeme := [];
      var tokLine := line;
      var tokCol := Dec(col);
      ghost var first := current;
      while !failed && IsWordChar(current)
        invariant Valid() && old(pos) <= pos
        invariant lexeme == [] ==> pos == old(pos) && current == first && !failed
        invariant lexeme != [] ==> lexeme[0] == first && (failed || old(pos) < pos)
        invariant forall i :: 0 <= i < |lexeme| ==> IsWordChar(lexeme[i])
        invariant ScanRun(input, old(pos), first, IsWordChar)
               == lexeme + if failed then [] else ScanRun(input, pos, current, IsWordChar)
        decreases |input| - pos, if failed then 0 else 1
      {
        ghost var p, c := pos, current;
        lexeme := lexeme + [current];
        Advance();
        AdvancedOverIsAdvanceFrom(input, p, pos, failed, current);
        ScanRunStep(input, p, c, IsWordChar, lexeme[..|lexeme| - 1], pos, if failed then None else Some(current));
      }
      assert lexeme + [] == lexeme;
      tok := Token(KeywordKind(lexeme), lexeme, tokLine, tokCol, |lexeme|);
    }

    /** `number`: the longest run of digits. */
    method ScanNumber() returns (tok: Token)
      requires Valid() && !failed && IsDigit(current)
      modifies this
      ensures Valid() && (failed || old(pos) < pos)
      ensures tok.lexeme == ScanRun(input, old(pos), old(current), IsDigit)
      ensures tok.kind == Number && tok.lexeme != [] && AllDigits(tok.lexeme)
      ensures failed || !IsDigit(current)
      ensures tok.line == old(line) && tok.start == Dec(old(col)) && tok.end == |tok.lexeme|
    {
      var lexeme := [];
      var tokLine := line;
      var tokCol := Dec(col);
      ghost var first := current;
      while !failed && IsDigit(current)
        invariant Valid() && old(pos) <= pos
        invariant lexeme == [] ==> pos == old(pos) && !failed && current == first && IsDigit(current)
        invariant lexeme != [] ==> failed || old(pos) < pos
        invariant AllDigits(lexeme)
        invariant ScanRun(input, old(pos), first, IsDigit)
               == lexeme + if failed then [] else ScanRun(input, pos, current, IsDigit)
        decreases |input| - pos, if failed then 0 else 1
      {
        ghost var p, c := pos, current;
        lexeme := lexeme + [current];
        Advance();
        AdvancedOverIsAdvanceFrom(input, p, pos, failed, current);
        ScanRunStep(input, p, c, IsDigit, lexeme[..|lexeme| - 1], pos, if failed then None else Some(current));
      }
      assert lexeme + [] == lexeme;
      tok := Token(Number, lexeme, tokLine, tokCol, |lexeme|);
    }

    /** `next`: blanks are skipped; then the end of the input, a word, a
        number, or a single character is scanned. */
    method Next() returns (tok: Token)
      requires Valid()
      modifies this
      ensures Valid() && old(pos) <= pos
      ensures tok.kind == EndOfFile ==> failed && tok.lexeme == [] && tok.start == tok.end == col
      ensures old(failed) ==> tok.kind == EndOfFile
      ensures tok.kind == EndOfFile <==>
                old(failed) || (old(current) != '\n' && IsSpaceC(old(current)) && BlankRest(input, old(pos)))
      ensures tok.kind != EndOfFile ==> tok.lexeme != [] && (failed || old(pos) < pos)
      ensures tok.kind in {Identifier, Task, Using} ==>
                IsWordStart(tok.lexeme[0]) && (forall i :: 0 <= i < |tok.lexeme| ==> IsWordChar(tok.lexeme[i]))
                && tok.kind == KeywordKind(tok.lexeme) && (failed || !IsWordChar(current))
      ensures tok.kind == Number ==> AllDigits(tok.lexeme) && (failed || !IsDigit(current))
      ensures tok.kind != EndOfFile ==>
                BlanksEnd(input, old(pos), old(current)).Some?
                && var (q, c) := BlanksEnd(input, old(pos), old(current)).value;
                   if IsWordStart(c) then tok.lexeme == ScanRun(input, q, c, IsWordChar) && tok.kind == KeywordKind(tok.lexeme)
                   else if IsDigit(c) then tok.lexeme == ScanRun(input, q, c, IsDigit) && tok.kind == Number
                   else tok.lexeme == [c] && tok.kind == SimpleKind(c)
      ensures tok.kind !in {Identifier, Task, Using, Number, EndOfFile} ==>
                |tok.lexeme| == 1 && tok.kind == SimpleKind(tok.lexeme[0])
                && !IsWordStart(tok.lexeme[0]) && !IsDigit(tok.lexeme[0])
                && (tok.lexeme[0] == '\n' || !IsSpaceC(tok.lexeme[0]))
    {
      SkipWhitespace();
      if failed {
        return Token(EndOfFile, "", line, col, col);
      }
      if IsWordStart(current) {
        tok := ScanIdentifier();
        return;
      }
      if IsDigit(current) {
        tok := ScanNumber();
        return;
      }
      tok := SimpleToken(SimpleKind(current));
    }
  }
}
