/** The grammar engine (src/parser/Grammar.cpp): productions built from
    token types with the `|` and `||` combinators, and a matcher fed one
    token at a time that keeps the candidate rules, a cursor per rule, a
    brace counter for task bodies and the captured spans of every rule. */
module Grammar {
  import opened Support
  import opened Lexer

  // ---------------------------------------------------------------------
  // Productions and their combinators
  // ---------------------------------------------------------------------

  /** A terminal: the token types accepted at one position. */
  type Terminal = seq<TokenType>

  /** A production: one terminal per position. */
  type NonTerminal = seq<Terminal>

  /** `lhs | rhs` on two token types: two single-alternative terminals. */
  function Seq2(lhs: TokenType, rhs: TokenType): NonTerminal {
    [[lhs], [rhs]]
  }

  /** `lhs || rhs` on two token types: one terminal with two alternatives. */
  function Alt2(lhs: TokenType, rhs: TokenType): NonTerminal {
    [[lhs, rhs]]
  }

  /** `rules | type`: one more single-alternative terminal. */
  function Then(r: NonTerminal, t: TokenType): NonTerminal {
    r + [[t]]
  }

  /** `rules | rules`: the terminals of both, in order. */
  function Join(r: NonTerminal, s: NonTerminal): NonTerminal {
    r + s
  }

  /** `rules || type`: one more alternative on the last terminal
      (`back()` of an empty buffer is undefined, hence the precondition). */
  function OrElse(r: NonTerminal, t: TokenType): NonTerminal
    requires |r| > 0
  {
    r[..|r| - 1] + [r[|r| - 1] + [t]]
  }

  /** The token-type strings a production accepts when read literally,
      one token per terminal. */
  predicate Admits(n: NonTerminal, w: seq<TokenType>) {
    |w| == |n| && forall i :: 0 <= i < |w| ==> w[i] in n[i]
  }

  lemma Seq2Admits(a: TokenType, b: TokenType, w: seq<TokenType>)
    ensures Admits(Seq2(a, b), w) <==> w == [a, b]
  {
    if Admits(Seq2(a, b), w) {
      assert w[0] in [a] && w[1] in [b];
    }
  }

  lemma Alt2Admits(a: TokenType, b: TokenType, w: seq<TokenType>)
    ensures Admits(Alt2(a, b), w) <==> w == [a] || w == [b]
  {
    if Admits(Alt2(a, b), w) {
      assert w[0] in [a, b];
    }
  }

  lemma ThenAdmits(r: NonTerminal, t: TokenType, w: seq<TokenType>)
    ensures Admits(Then(r, t), w) <==> |w| == |r| + 1 && Admits(r, w[..|r|]) && w[|r|] == t
  {
    if |w| == |r| + 1 && Admits(r, w[..|r|]) && w[|r|] == t {
      forall i | 0 <= i < |w| ensures w[i] in Then(r, t)[i] {
        if i < |r| { assert w[i] == w[..|r|][i]; }
      }
    }
    if Admits(Then(r, t), w) {
      forall i | 0 <= i < |r| ensures w[..|r|][i] in r[i] {
        assert w[i] in Then(r, t)[i];
      }
      assert w[|r|] in Then(r, t)[|r|];
    }
  }

  lemma JoinAdmits(r: NonTerminal, s: NonTerminal, w: seq<TokenType>)
    ensures Admits(Join(r, s), w) <==> |w| == |r| + |s| && Admits(r, w[..|r|]) && Admits(s, w[|r|..])
  {
    if |w| == |r| + |s| && Admits(r, w[..|r|]) && Admits(s, w[|r|..]) {
      forall i | 0 <= i < |w| ensures w[i] in Join(r, s)[i] {
        if i < |r| { assert w[i] == w[..|r|][i]; }
        else { assert w[i] == w[|r|..][i - |r|]; }
      }
    }
    if Admits(Join(r, s), w) {
      forall i | 0 <= i < |r| ensures w[..|r|][i] in r[i] {
        assert w[i] in Join(r, s)[i];
      }
      forall i | 0 <= i < |s| ensures w[|r|..][i] in s[i] {
        assert w[|r| + i] in Join(r, s)[|r| + i];
      }
    }
  }

  lemma OrElseAdmits(r: NonTerminal, t: TokenType, w: seq<TokenType>)
    requires |r| > 0
    ensures Admits(OrElse(r, t), w) <==>
              |w| == |r| && (forall i :: 0 <= i < |r| - 1 ==> w[i] in r[i])
              && (w[|r| - 1] in r[|r| - 1] || w[|r| - 1] == t)
  {
    var n := OrElse(r, t);
    assert |n| == |r|;
    assert n[|r| - 1] == r[|r| - 1] + [t];
    assert forall i :: 0 <= i < |r| - 1 ==> n[i] == r[i];
  }

  const AssignTokens: NonTerminal :=
    Join(Then(Seq2(Identifier, Assign), Any), OrElse(Alt2(Newline, Semicolon), EndOfFile))
  const EmptyLineTokens: NonTerminal :=
    Alt2(Newline, EndOfFile)
  const AttributeTokens: NonTerminal :=
    Join(Then(Seq2(At, Identifier), Any), Alt2(Newline, Semicolon))
  const TaskTokens: NonTerminal :=
    Join(Then(Then(Then(Then(Then(Then(Seq2(Task, Identifier), RoundLP), RoundRP), OptNewline), CurlyLP), Any), CurlyRP),
         OrElse(Alt2(Newline, Semicolon), EndOfFile))
  const ImportTokens: NonTerminal :=
    Join(Seq2(Import, Any), OrElse(Alt2(Newline, Semicolon), EndOfFile))
  const UsingTokens: NonTerminal :=
    Join(Then(Seq2(Using, Identifier), Any), OrElse(Alt2(Newline, Semicolon), EndOfFile))

  lemma OrElsePair(a: TokenType, b: TokenType, c: TokenType)
    ensures OrElse(Alt2(a, b), c) == [[a, b, c]]
  {
    var r := Alt2(a, b);
    assert r[..|r| - 1] == [];
    assert r[|r| - 1] + [c] == [a, b, c];
  }

  /** The productions the combinators build, written out; `Prod` holds
      these. */
  lemma ProductionTable()
    ensures AssignTokens == Prod(VariableAssign)
    ensures EmptyLineTokens == Prod(EmptyLine)
    ensures AttributeTokens == Prod(AttributeRule)
    ensures TaskTokens == Prod(TaskDecl)
    ensures ImportTokens == Prod(ImportRule)
    ensures UsingTokens == Prod(UsingRule)
  {
    OrElsePair(Newline, Semicolon, EndOfFile);
  }

  // ---------------------------------------------------------------------
  // Rules
  // ---------------------------------------------------------------------

  datatype Rule =
    | Undefined | VariableAssign | VariableJoin | EmptyLine | AttributeRule
    | TaskDecl | ImportRule | UsingRule | MappingRule | AssertMsg | AssertAct

  /** The enumerator value, which orders a `std::set<Rule>`. */
  function Ord(r: Rule): nat {
    match r
    case Undefined => 0
    case VariableAssign => 1
    case VariableJoin => 2
    case EmptyLine => 3
    case AttributeRule => 4
    case TaskDecl => 5
    case ImportRule => 6
    case UsingRule => 7
    case MappingRule => 8
    case AssertMsg => 9
    case AssertAct => 10
  }

  /** `_rules`: the production of each rule the engine knows, as the
      combinators build it (`ProductionTable`); the other rules have none. */
  function Prod(r: Rule): NonTerminal {
    match r
    case VariableAssign => [[Identifier], [Assign], [Any], [Newline, Semicolon, EndOfFile]]
    case EmptyLine => [[Newline, EndOfFile]]
    case AttributeRule => [[At], [Identifier], [Any], [Newline, Semicolon]]
    case TaskDecl => [[Task], [Identifier], [RoundLP], [RoundRP], [OptNewline], [CurlyLP], [Any], [CurlyRP],
                      [Newline, Semicolon, EndOfFile]]
    case ImportRule => [[Import], [Any], [Newline, Semicolon, EndOfFile]]
    case UsingRule => [[Using], [Identifier], [Any], [Newline, Semicolon, EndOfFile]]
    case _ => []
  }

  /** The rules `_rules` has an entry for. */
  predicate HasProduction(r: Rule)
    ensures HasProduction(r) <==> |Prod(r)| > 0
  {
    r.VariableAssign? || r.EmptyLine? || r.AttributeRule? || r.TaskDecl? || r.ImportRule? || r.UsingRule?
  }

  /** The keys of `_rules` in set order. */
  const AllRules: seq<Rule> := [VariableAssign, EmptyLine, AttributeRule, TaskDecl, ImportRule, UsingRule]

  predicate Ascending(rs: seq<Rule>) {
    forall a, b :: 0 <= a < b < |rs| ==> Ord(rs[a]) < Ord(rs[b])
  }

  lemma AllRulesExact(r: Rule)
    ensures r in AllRules <==> HasProduction(r)
  {
  }

  lemma AllRulesCandidates()
    ensures Candidates(AllRules)
  {
  }

  /** Where `ANY` and `OPT_NEWLINE` occur: never in the last terminal, and
      `OPT_NEWLINE` never in the first. */
  lemma Shape(r: Rule, j: nat)
    requires j < |Prod(r)|
    ensures Any in Prod(r)[j] ==> j + 1 < |Prod(r)|
    ensures OptNewline in Prod(r)[j] ==> 0 < j && j + 1 < |Prod(r)|
  {
  }

  /** The rules of `s`, in set order. */
  function Keep(rs: seq<Rule>, s: set<Rule>): (out: seq<Rule>)
    ensures forall r :: r in out <==> r in rs && r in s
    ensures Ascending(rs) ==> Ascending(out)
  {
    if rs == [] then []
    else
      var rest := Keep(rs[1..], s);
      assert forall r :: r in rs[1..] ==> r in rs;
      if rs[0] in s then
        assert Ascending(rs) ==> forall j :: 0 <= j < |rest| ==> Ord(rs[0]) < Ord(rest[j]) by {
          if Ascending(rs) {
            forall j | 0 <= j < |rest| ensures Ord(rs[0]) < Ord(rest[j]) {
              assert rest[j] in rs[1..];
              var k :| 0 <= k < |rs[1..]| && rs[1..][k] == rest[j];
              assert rs[k + 1] == rest[j];
            }
          }
        }
        [rs[0]] + rest
      else rest
  }

  // ---------------------------------------------------------------------
  // Captures
  // ---------------------------------------------------------------------

  /** A captured span: start and end columns, the last token, and whether
      an `ANY` run is open. */
  datatype Index = Index(start: nat, end: nat, token: Token, any: bool)

  /** `size_t` end of a token: its start plus its length. */
  function EndOf(t: Token): nat {
    (t.start + |t.lexeme|) % SizeMod
  }

  /** `_collect_input` on one slot: the token and its end always replace
      the old ones; an `ANY` token opens a run and keeps the start of the
      run's first token, a regular token closes a run or sets the start. */
  function Collect(idx: Index, t: Token, tt: TokenType): (r: Index)
    ensures r.token == t && r.end == EndOf(t)
    ensures r.any <==> tt == Any
    ensures r.start == if idx.any then idx.start else t.start
  {
    var r := idx.(token := t, end := EndOf(t));
    if tt == Any then
      if !idx.any then r.(start := t.start, any := true) else r
    else
      if !idx.any then r.(start := t.start) else r.(any := false)
  }

  /** Collecting a run of tokens into one slot. */
  function CollectAll(idx: Index, ts: seq<Token>, tt: TokenType): Index
    decreases |ts|
  {
    if ts == [] then idx else CollectAll(Collect(idx, ts[0], tt), ts[1..], tt)
  }

  /** Once a run is open, further `ANY` tokens move its end and token but
      not its start. */
  lemma {:induction false} AnyRunKeepsStart(idx: Index, ts: seq<Token>)
    requires idx.any && |ts| > 0
    ensures CollectAll(idx, ts, Any).any
    ensures CollectAll(idx, ts, Any).start == idx.start
    ensures CollectAll(idx, ts, Any).end == EndOf(ts[|ts| - 1])
    ensures CollectAll(idx, ts, Any).token == ts[|ts| - 1]
    decreases |ts|
  {
    var next := Collect(idx, ts[0], Any);
    if |ts| > 1 {
      AnyRunKeepsStart(next, ts[1..]);
    }
  }

  /** A run of `ANY` tokens collected into a slot with no open run spans
      from the start of its first token to the end of its last. */
  lemma AnyRunSpan(idx: Index, ts: seq<Token>)
    requires !idx.any && |ts| > 0
    ensures CollectAll(idx, ts, Any).any
    ensures CollectAll(idx, ts, Any).start == ts[0].start
    ensures CollectAll(idx, ts, Any).end == EndOf(ts[|ts| - 1])
    ensures CollectAll(idx, ts, Any).token == ts[|ts| - 1]
  {
    var next := Collect(idx, ts[0], Any);
    if |ts| > 1 {
      AnyRunKeepsStart(next, ts[1..]);
    }
  }

  /** `_collect_input(token, tt, st, pos)`: slot `pos` of rule `st`. */
  function CollectAt(index: map<Rule, seq<Index>>, st: Rule, pos: nat, t: Token, tt: TokenType): map<Rule, seq<Index>>
    requires st in index && pos < |index[st]|
  {
    index[st := index[st][pos := Collect(index[st][pos], t, tt)]]
  }

  /** `Index::reset`: the span and the run flag cleared, the token kept. */
  function Cleared(idx: Index): Index {
    idx.(start := 0, end := 0, any := false)
  }

  function ClearedSlots(s: seq<Index>): (r: seq<Index>)
    ensures |r| == |s| && forall j :: 0 <= j < |s| ==> r[j] == Cleared(s[j])
  {
    seq(|s|, j requires 0 <= j < |s| => Cleared(s[j]))
  }

  /** Fresh captures of n slots, as `std::vector<Index>(n)` makes them;
      the token of a fresh slot is whatever `blank` is. */
  function BlankSlots(n: nat, blank: Token): (r: seq<Index>)
    ensures |r| == n && forall j :: 0 <= j < n ==> r[j] == Index(0, 0, blank, false)
  {
    seq(n, _ => Index(0, 0, blank, false))
  }

  // ---------------------------------------------------------------------
  // The engine state and one pass over the candidates
  // ---------------------------------------------------------------------

  /** `size_t` increment. */
  function Inc(x: nat): nat {
    if x + 1 == SizeMod then 0 else x + 1
  }

  /** The brace counter after `key` accepted a token of type `kind`: only
      a task declaration counts its braces. */
  function BraceStep(key: Rule, kind: TokenType, b: nat): nat {
    if key != TaskDecl then b
    else if kind == CurlyLP then Inc(b)
    else if kind == CurlyRP then Dec(b)
    else b
  }

  /** `_cache.data[key]` read through `operator[]`: 0 when absent. */
  function Get(data: map<Rule, nat>, key: Rule): nat {
    if key in data then data[key] else 0
  }

  /** The fields of the engine the matcher changes: the candidate keys of
      the cache, the cursors, the brace counter and the captures. */
  datatype State = State(keys: seq<Rule>, data: map<Rule, nat>, braces: nat, index: map<Rule, seq<Index>>)

  /** What `match` writes into its output argument. */
  datatype MatchResult = MatchResult(
    valid: bool, kind: Rule, indexes: seq<Index>,
    errToken: Token, estream: set<Terminal>, semtypes: set<Rule>, presence: bool)

  /** Every cursor is inside its production. */
  predicate Cursors(data: map<Rule, nat>) {
    forall k :: k in data ==> HasProduction(k) && data[k] < |Prod(k)|
  }

  /** One capture slot per terminal of every production; other rules have
      no slots. */
  predicate Slots(index: map<Rule, seq<Index>>) {
    && (forall k :: HasProduction(k) ==> k in index && |index[k]| == |Prod(k)|)
    && (forall k :: k in index && !HasProduction(k) ==> index[k] == [])
  }

  predicate Candidates(keys: seq<Rule>) {
    Ascending(keys) && forall j :: 0 <= j < |keys| ==> HasProduction(keys[j])
  }

  /** The engine's invariant between two tokens. */
  predicate StateOk(s: State) {
    Candidates(s.keys) && Cursors(s.data) && Slots(s.index) && s.braces < SizeMod
  }

  /** The local state of `match`'s loop: the key set being iterated with
      the iterator as an index, the cache fields, the captures and the
      locals `matched`, `stype`, `error`, `estream`, `semtypes` and
      `new_key_cache`. */
  datatype Pass = Pass(
    keys: seq<Rule>, i: nat, data: map<Rule, nat>, braces: nat, index: map<Rule, seq<Index>>,
    matched: bool, stype: Rule, error: bool,
    estream: set<Terminal>, semtypes: set<Rule>, newKeys: set<Rule>)

  predicate PassOk(p: Pass, cached: bool) {
    && p.i <= |p.keys| && Candidates(p.keys)
    && (!p.matched ==> Cursors(p.data) && p.stype == Undefined)
    && (p.matched ==> HasProduction(p.stype) && !p.error)
    && (p.error ==> p.keys == [] && (cached ==> p.data == map[] && p.braces == 0))
    && Slots(p.index) && p.braces < SizeMod
    && (p.newKeys != {} ==> p.i > 0)
  }

  /** The cursor the pass reads for `key`: the cached one, or 0 on a pass
      that starts from an empty cache. */
  function Pos(p: Pass, key: Rule, cached: bool): nat {
    if cached then Get(p.data, key) else 0
  }

  /** What is left of the cursor of the key under the iterator. */
  function Rem(p: Pass, cached: bool): nat {
    if cached && p.i < |p.keys| && Get(p.data, p.keys[p.i]) <= |Prod(p.keys[p.i])|
    then |Prod(p.keys[p.i])| - Get(p.data, p.keys[p.i])
    else 0
  }

  lemma CursorsSet(data: map<Rule, nat>, key: Rule, n: nat)
    requires Cursors(data) && HasProduction(key)
    ensures n < |Prod(key)| ==> Cursors(data[key := n])
  {
  }

  lemma SlotsCollect(index: map<Rule, seq<Index>>, key: Rule, pos: nat, t: Token, tt: TokenType)
    requires Slots(index) && HasProduction(key) && pos < |Prod(key)|
    ensures key in index && pos < |index[key]|
    ensures Slots(CollectAt(index, key, pos, t, tt))
  {
  }

  lemma BraceBound(key: Rule, kind: TokenType, b: nat)
    requires b < SizeMod
    ensures BraceStep(key, kind, b) < SizeMod
  {
  }

  /** What every turn does first: read the cursor (inserting it when the
      cache is in use) and record the terminal and the rule for the error
      report. */
  function Enter(p: Pass, cached: bool): (e: Pass)
    requires PassOk(p, cached) && p.i < |p.keys| && !p.matched
    ensures PassOk(e, cached) && !e.matched && e.keys == p.keys && e.i == p.i
    ensures Pos(p, p.keys[p.i], cached) < |Prod(p.keys[p.i])|
    ensures Rem(e, cached) == Rem(p, cached)
    ensures forall k :: Get(e.data, k) == Get(p.data, k)
    ensures var key := p.keys[p.i]; var node := Prod(key)[Pos(p, key, cached)];
            (Any in node ==> Pos(p, key, cached) + 1 < |Prod(key)|)
            && (OptNewline in node ==> 0 < Pos(p, key, cached) && Pos(p, key, cached) + 1 < |Prod(key)|)
  {
    var key := p.keys[p.i];
    var pos := Pos(p, key, cached);
    Shape(key, pos);
    p.(data := if cached then p.data[key := pos] else p.data,
       estream := p.estream + {Prod(key)[pos]}, semtypes := p.semtypes + {key})
  }

  /** The turn reports a match exactly when the key's cursor has reached
      the length of its production, and then names the key. */
  predicate Reports(q: Pass, key: Rule) {
    (q.matched <==> Get(q.data, key) == |Prod(key)|) && (q.matched ==> q.stype == key)
  }

  /** The key matched its terminal: capture it, advance, and keep the key
      for the next token. */
  function VisitFound(p: Pass, key: Rule, pos: nat, t: Token, ghost cached: bool): (q: Pass)
    requires PassOk(p, cached) && !p.matched && p.i < |p.keys| && key == p.keys[p.i] && pos < |Prod(key)|
    ensures PassOk(q, cached) && q.keys == p.keys && q.i == p.i + 1
    ensures forall k :: k != key ==> Get(q.data, k) == Get(p.data, k)
    ensures Reports(q, key) && q.braces == BraceStep(key, t.kind, p.braces)
  {
    var n := pos + 1;
    var m := n == |Prod(key)|;
    BraceBound(key, t.kind, p.braces);
    SlotsCollect(p.index, key, pos, t, t.kind);
    CursorsSet(p.data, key, n);
    p.(index := CollectAt(p.index, key, pos, t, t.kind), data := p.data[key := n],
       matched := m, stype := if m then key else p.stype,
       braces := BraceStep(key, t.kind, p.braces), newKeys := p.newKeys + {key}, i := p.i + 1)
  }

  /** The key is inside an `ANY` run: the run ends when the token is one
      of the next terminal (for a task, only when its braces are closed),
      otherwise the token joins the run. A task counts the braces of its
      body either way. */
  function VisitAny(p: Pass, key: Rule, pos: nat, t: Token, ghost cached: bool): (q: Pass)
    requires PassOk(p, cached) && !p.matched && p.i < |p.keys| && key == p.keys[p.i] && pos + 1 < |Prod(key)|
    ensures PassOk(q, cached) && q.keys == p.keys && q.i == p.i + 1
    ensures forall k :: k != key ==> Get(q.data, k) == Get(p.data, k)
    ensures Reports(q, key) && q.braces == BraceStep(key, t.kind, p.braces)
    ensures Get(q.data, key) == if t.kind in Prod(key)[pos + 1] && (key != TaskDecl || q.braces == 0) then pos + 2 else pos
  {
    var b := BraceStep(key, t.kind, p.braces);
    BraceBound(key, t.kind, p.braces);
    if t.kind in Prod(key)[pos + 1] && (key != TaskDecl || b == 0) then AnyEnds(p, key, pos, t, b, cached)
    else AnyContinues(p, key, pos, t, b, cached)
  }

  lemma VisitAnyCases(p: Pass, key: Rule, pos: nat, t: Token, cached: bool)
    requires PassOk(p, cached) && !p.matched && p.i < |p.keys| && key == p.keys[p.i] && pos + 1 < |Prod(key)|
    ensures var b := BraceStep(key, t.kind, p.braces);
            b < SizeMod &&
            VisitAny(p, key, pos, t, cached) ==
              if t.kind in Prod(key)[pos + 1] && (key != TaskDecl || b == 0) then AnyEnds(p, key, pos, t, b, cached)
              else AnyContinues(p, key, pos, t, b, cached)
  {
    BraceBound(key, t.kind, p.braces);
  }

  /** The token is captured in the slot after the run and the cursor moves
      past it. */
  function AnyEnds(p: Pass, key: Rule, pos: nat, t: Token, b: nat, ghost cached: bool): (q: Pass)
    requires PassOk(p, cached) && !p.matched && p.i < |p.keys| && key == p.keys[p.i] && pos + 1 < |Prod(key)|
    requires b < SizeMod
    ensures PassOk(q, cached) && q.keys == p.keys && q.i == p.i + 1
    ensures forall k :: k != key ==> Get(q.data, k) == Get(p.data, k)
    ensures Reports(q, key) && q.braces == b && Get(q.data, key) == pos + 2
  {
    var n := pos + 2;
    var m := n == |Prod(key)|;
    SlotsCollect(p.index, key, pos + 1, t, t.kind);
    CursorsSet(p.data, key, n);
    p.(braces := b, index := CollectAt(p.index, key, pos + 1, t, t.kind),
       data := p.data[key := n], matched := m, stype := if m then key else p.stype, i := p.i + 1)
  }

  /** The token joins the run and the cursor stays on it. */
  function AnyContinues(p: Pass, key: Rule, pos: nat, t: Token, b: nat, ghost cached: bool): (q: Pass)
    requires PassOk(p, cached) && !p.matched && p.i < |p.keys| && key == p.keys[p.i] && pos + 1 < |Prod(key)|
    requires b < SizeMod
    ensures PassOk(q, cached) && q.keys == p.keys && q.i == p.i + 1
    ensures forall k :: k != key ==> Get(q.data, k) == Get(p.data, k)
    ensures Reports(q, key) && q.braces == b && Get(q.data, key) == pos
  {
    var m := pos == |Prod(key)|;
    SlotsCollect(p.index, key, pos, t, Any);
    CursorsSet(p.data, key, pos);
    p.(braces := b, index := CollectAt(p.index, key, pos, t, Any),
       data := p.data[key := pos], matched := m, stype := if m then key else p.stype, i := p.i + 1)
  }

  /** The key is at `OPT_NEWLINE`: step over it; a newline is captured
      (in the slot after it), any other token is tried again on the same
      key at the next terminal. */
  function VisitOpt(p: Pass, key: Rule, pos: nat, t: Token, ghost cached: bool): (q: Pass)
    requires PassOk(p, cached) && !p.matched && p.i < |p.keys| && key == p.keys[p.i] && pos + 1 < |Prod(key)|
    ensures PassOk(q, cached) && q.keys == p.keys
    ensures q.i == if t.kind == Newline then p.i + 1 else p.i
    ensures Get(q.data, key) == pos + 1
    ensures forall k :: k != key ==> Get(q.data, k) == Get(p.data, k)
    ensures !q.matched && q.braces == p.braces
  {
    CursorsSet(p.data, key, pos + 1);
    var q := p.(data := p.data[key := pos + 1]);
    if t.kind == Newline then OptCollect(q, key, pos + 1, t, cached) else q
  }

  /** The newline after the optional position is captured. */
  function OptCollect(p: Pass, key: Rule, n: nat, t: Token, ghost cached: bool): (q: Pass)
    requires PassOk(p, cached) && !p.matched && p.i < |p.keys| && key == p.keys[p.i] && n < |Prod(key)|
    ensures PassOk(q, cached) && q.keys == p.keys && q.i == p.i + 1 && q.data == p.data
    ensures q.matched == p.matched && q.braces == p.braces
  {
    SlotsCollect(p.index, key, n, t, Newline);
    p.(index := CollectAt(p.index, key, n, t, Newline), i := p.i + 1)
  }

  /** The key cannot take the token: erase it; with no key left the token
      is an error, and a cache that was in use is reset. */
  function VisitRemove(p: Pass, cached: bool): (q: Pass)
    requires PassOk(p, cached) && !p.matched && p.i < |p.keys|
    ensures PassOk(q, cached) && q.keys == p.keys[..p.i] + p.keys[p.i + 1..] && q.i == p.i
    ensures q.error <==> |p.keys| == 1
    ensures !q.error ==> q.data == p.data && q.braces == p.braces
    ensures !q.matched
  {
    var keys := p.keys[..p.i] + p.keys[p.i + 1..];
    EraseCandidates(p.keys, p.i);
    if keys == [] then
      if cached then p.(keys := [], data := map[], braces := 0, error := true)
      else p.(keys := [], error := true)
    else p.(keys := keys)
  }

  lemma EraseCandidates(keys: seq<Rule>, i: nat)
    requires i < |keys| && Candidates(keys)
    ensures Candidates(keys[..i] + keys[i + 1..])
  {
    var e := keys[..i] + keys[i + 1..];
    forall a, b | 0 <= a < b < |e| ensures Ord(e[a]) < Ord(e[b]) {
      var a' := if a < i then a else a + 1;
      var b' := if b < i then b else b + 1;
      assert e[a] == keys[a'] && e[b] == keys[b'];
    }
    forall j | 0 <= j < |e| ensures HasProduction(e[j]) {
      assert e[j] == keys[if j < i then j else j + 1];
    }
  }

  /** One turn of the loop over the candidate keys: the key under the
      iterator is offered the token at its cursor. */
  function Visit(p: Pass, t: Token, cached: bool): (q: Pass)
    requires PassOk(p, cached) && p.i < |p.keys| && !p.matched
    ensures PassOk(q, cached)
    ensures |q.keys| - q.i < |p.keys| - p.i
            || (|q.keys| - q.i == |p.keys| - p.i && Rem(q, cached) < Rem(p, cached))
    ensures q.i >= p.i
    ensures !q.error ==> forall k :: k != p.keys[p.i] ==> Get(q.data, k) == Get(p.data, k)
    // a match is reported exactly when the cursor reaches the end of the production
    ensures Reports(q, p.keys[p.i])
  {
    var key := p.keys[p.i];
    var pos := Pos(p, key, cached);
    var e := Enter(p, cached);
    var node := Prod(key)[pos];
    Shape(key, pos);
    if t.kind in node then VisitFound(e, key, pos, t, cached)
    else if Any in node then VisitAny(e, key, pos, t, cached)
    else if OptNewline in node then VisitOpt(e, key, pos, t, cached)
    else VisitRemove(e, cached)
  }

  /** The rest of the loop from pass state p. */
  function Run(p: Pass, t: Token, cached: bool): (q: Pass)
    requires PassOk(p, cached)
    ensures PassOk(q, cached)
    ensures q.i == |q.keys| || q.matched
    ensures q.i >= p.i
    decreases |p.keys| - p.i, Rem(p, cached)
  {
    if p.i == |p.keys| || p.matched then p
    else Run(Visit(p, t, cached), t, cached)
  }

  /** Which branch a turn takes, by the terminal at the key's cursor. */
  lemma VisitCases(p: Pass, t: Token, cached: bool)
    requires PassOk(p, cached) && p.i < |p.keys| && !p.matched
    ensures Run(p, t, cached) == Run(Visit(p, t, cached), t, cached)
    ensures var key := p.keys[p.i]; var e := Enter(p, cached); var pos := Pos(p, key, cached);
            var node := Prod(key)[pos];
            && (t.kind in node ==> Visit(p, t, cached) == VisitFound(e, key, pos, t, cached))
            && (t.kind !in node && Any in node ==> Visit(p, t, cached) == VisitAny(e, key, pos, t, cached))
            && (t.kind !in node && Any !in node && OptNewline in node ==>
                  Visit(p, t, cached) == VisitOpt(e, key, pos, t, cached))
            && (t.kind !in node && Any !in node && OptNewline !in node ==>
                  Visit(p, t, cached) == VisitRemove(e, cached))
  {
    Shape(p.keys[p.i], Pos(p, p.keys[p.i], cached));
  }

  /** A terminal that takes the token, or `ANY`, keeps the key and moves
      the iterator on. */
  lemma VisitTakes(p: Pass, t: Token, cached: bool)
    requires PassOk(p, cached) && p.i < |p.keys| && !p.matched
    ensures var key := p.keys[p.i]; var node := Prod(key)[Pos(p, key, cached)];
            t.kind in node || Any in node || (OptNewline in node && t.kind == Newline) ==>
              Visit(p, t, cached).keys == p.keys && Visit(p, t, cached).i == p.i + 1
  {
    VisitCases(p, t, cached);
  }

  /** `OPT_NEWLINE` and another token: the same key is tried again one
      terminal on. */
  lemma VisitRetries(p: Pass, t: Token, cached: bool)
    requires PassOk(p, cached) && p.i < |p.keys| && !p.matched
    ensures var key := p.keys[p.i]; var pos := Pos(p, key, cached); var node := Prod(key)[pos];
            var q := Visit(p, t, cached);
            t.kind !in node && Any !in node && OptNewline in node && t.kind != Newline ==>
              cached && q.keys == p.keys && q.i == p.i && Get(q.data, key) == pos + 1
  {
    VisitCases(p, t, cached);
  }

  /** A terminal that rejects the token erases the key; erasing the last
      one is the error. */
  lemma VisitErases(p: Pass, t: Token, cached: bool)
    requires PassOk(p, cached) && p.i < |p.keys| && !p.matched
    ensures var key := p.keys[p.i]; var node := Prod(key)[Pos(p, key, cached)];
            var q := Visit(p, t, cached);
            t.kind !in node && Any !in node && OptNewline !in node ==>
              q.keys == p.keys[..p.i] + p.keys[p.i + 1..] && q.i == p.i && (q.error <==> |p.keys| == 1)
  {
    var key := p.keys[p.i];
    var node := Prod(key)[Pos(p, key, cached)];
    if t.kind !in node && Any !in node && OptNewline !in node {
      assert Visit(p, t, cached) == VisitRemove(Enter(p, cached), cached);
    }
  }

  /** Only a task counts braces, on the tokens it takes. */
  lemma VisitBraces(p: Pass, t: Token, cached: bool)
    requires PassOk(p, cached) && p.i < |p.keys| && !p.matched
    ensures var key := p.keys[p.i]; var node := Prod(key)[Pos(p, key, cached)];
            var q := Visit(p, t, cached);
            !q.error ==>
              q.braces == if t.kind in node || Any in node then BraceStep(key, t.kind, p.braces) else p.braces
  {
    VisitCases(p, t, cached);
  }

  /** An `ANY` run ends on a token of the next terminal, for a task only
      with its braces closed. */
  lemma VisitAnyRun(p: Pass, t: Token, cached: bool)
    requires PassOk(p, cached) && p.i < |p.keys| && !p.matched
    ensures var key := p.keys[p.i]; var pos := Pos(p, key, cached); var node := Prod(key)[pos];
            var q := Visit(p, t, cached);
            t.kind !in node && Any in node ==>
              pos + 1 < |Prod(key)|
              && Get(q.data, key) == if t.kind in Prod(key)[pos + 1] && (key != TaskDecl || q.braces == 0) then pos + 2 else pos
  {
    var key := p.keys[p.i];
    var pos := Pos(p, key, cached);
    var node := Prod(key)[pos];
    if t.kind !in node && Any in node {
      Shape(key, pos);
      assert Visit(p, t, cached) == VisitAny(Enter(p, cached), key, pos, t, cached);
    }
  }

  /** The keys a token is offered to: when the cursors are empty every
      rule with a production is inserted into the key set, which then holds
      all of them. */
  function StartKeys(s: State): seq<Rule> {
    if |s.data| != 0 then s.keys else AllRules
  }

  function StartPass(s: State): Pass {
    Pass(StartKeys(s), 0, s.data, s.braces, s.index, false, Undefined, false, {}, {}, {})
  }

  /** The state `_reset` leaves: an empty cache and every capture cleared. */
  function Reset(s: State): State {
    State([], map[], 0, map r | r in s.index :: ClearedSlots(s.index[r]))
  }

  /** `Engine::match` on state s and token t: the new state and the match
      written out. The engine's invariant holds again afterwards. */
  function Step(s: State, t: Token): (r: (State, MatchResult))
    requires StateOk(s)
    ensures StateOk(r.0)
  {
    var cached := |s.data| != 0;
    AllRulesCandidates();
    Finish(Run(StartPass(s), t, cached), t, cached)
  }

  /** What `match` does after the loop: the new key set, the output, and
      the reset after a match. */
  function Finish(p: Pass, t: Token, ghost cached: bool): (r: (State, MatchResult))
    requires PassOk(p, cached)
    ensures StateOk(r.0)
  {
    var keys := if |p.newKeys| > 0 then Keep(AllRules, p.newKeys) else p.keys;
    KeepCandidates(p.newKeys);
    var index := if p.stype in p.index then p.index else p.index[p.stype := []];
    var out := MatchResult(p.matched, p.stype, index[p.stype], t, p.estream, p.semtypes, p.error);
    var s1 := State(keys, p.data, p.braces, index);
    ResetOk(s1);
    (if p.matched then Reset(s1) else s1, out)
  }

  lemma KeepCandidates(s: set<Rule>)
    ensures Candidates(Keep(AllRules, s))
  {
    AllRulesCandidates();
    var keys := Keep(AllRules, s);
    forall j | 0 <= j < |keys| ensures HasProduction(keys[j]) {
      AllRulesExact(keys[j]);
    }
  }

  lemma ResetOk(s: State)
    requires Slots(s.index)
    ensures StateOk(Reset(s))
  {
  }

  // ---------------------------------------------------------------------
  // Properties of one turn and of a whole token
  // ---------------------------------------------------------------------

  /** A key rejects a token at a cursor when the terminal there neither
      holds the token nor is `ANY`, and, at `OPT_NEWLINE`, the token is
      not a newline and the next terminal rejects it too. */
  predicate Rejects(key: Rule, pos: nat, kind: TokenType)
    decreases |Prod(key)| - pos
  {
    && pos < |Prod(key)| && kind !in Prod(key)[pos] && Any !in Prod(key)[pos]
    && (OptNewline in Prod(key)[pos] ==> kind != Newline && Rejects(key, pos + 1, kind))
  }

  /** Every key of the pass rejects the token at its cursor. */
  predicate RejectAll(p: Pass, kind: TokenType, cached: bool) {
    forall j :: 0 <= j < |p.keys| ==> Rejects(p.keys[j], Pos(p, p.keys[j], cached), kind)
  }

  lemma RejectAllSame(p: Pass, q: Pass, kind: TokenType, cached: bool, i: nat)
    requires q.keys == p.keys && i < |p.keys| && Candidates(p.keys)
    requires forall k :: k != p.keys[i] ==> Get(q.data, k) == Get(p.data, k)
    requires Rejects(p.keys[i], Pos(p, p.keys[i], cached), kind) <==> Rejects(p.keys[i], Pos(q, p.keys[i], cached), kind)
    ensures RejectAll(p, kind, cached) <==> RejectAll(q, kind, cached)
  {
    RejectAllCarry(p, q, kind, cached, i);
    RejectAllCarry(q, p, kind, cached, i);
  }

  lemma RejectAllCarry(p: Pass, q: Pass, kind: TokenType, cached: bool, i: nat)
    requires q.keys == p.keys && i < |p.keys| && Candidates(p.keys)
    requires forall k :: k != p.keys[i] ==> Get(q.data, k) == Get(p.data, k)
    requires Rejects(p.keys[i], Pos(p, p.keys[i], cached), kind) ==> Rejects(p.keys[i], Pos(q, p.keys[i], cached), kind)
    ensures RejectAll(p, kind, cached) ==> RejectAll(q, kind, cached)
  {
    Distinct(p.keys, i);
    if RejectAll(p, kind, cached) {
      forall j | 0 <= j < |q.keys| ensures Rejects(q.keys[j], Pos(q, q.keys[j], cached), kind) {
        if j != i { assert Rejects(p.keys[j], Pos(p, p.keys[j], cached), kind); }
      }
    }
  }

  lemma RejectAllTail(p: Pass, q: Pass, kind: TokenType, cached: bool)
    requires |p.keys| > 0 && q.keys == p.keys[1..]
    requires forall j :: 1 <= j < |p.keys| ==> Pos(q, p.keys[j], cached) == Pos(p, p.keys[j], cached)
    ensures RejectAll(p, kind, cached) <==>
              Rejects(p.keys[0], Pos(p, p.keys[0], cached), kind) && RejectAll(q, kind, cached)
  {
    RejectAllDrop(p, q, kind, cached);
    RejectAllAdd(p, q, kind, cached);
  }

  lemma RejectAllDrop(p: Pass, q: Pass, kind: TokenType, cached: bool)
    requires |p.keys| > 0 && q.keys == p.keys[1..]
    requires forall j :: 1 <= j < |p.keys| ==> Pos(q, p.keys[j], cached) == Pos(p, p.keys[j], cached)
    ensures RejectAll(p, kind, cached) ==> RejectAll(q, kind, cached)
  {
    if RejectAll(p, kind, cached) {
      forall j | 0 <= j < |q.keys| ensures Rejects(q.keys[j], Pos(q, q.keys[j], cached), kind) {
        assert q.keys[j] == p.keys[j + 1];
      }
    }
  }

  lemma RejectAllAdd(p: Pass, q: Pass, kind: TokenType, cached: bool)
    requires |p.keys| > 0 && q.keys == p.keys[1..]
    requires forall j :: 1 <= j < |p.keys| ==> Pos(q, p.keys[j], cached) == Pos(p, p.keys[j], cached)
    ensures Rejects(p.keys[0], Pos(p, p.keys[0], cached), kind) && RejectAll(q, kind, cached) ==>
              RejectAll(p, kind, cached)
  {
    if Rejects(p.keys[0], Pos(p, p.keys[0], cached), kind) && RejectAll(q, kind, cached) {
      forall j | 0 <= j < |p.keys| ensures Rejects(p.keys[j], Pos(p, p.keys[j], cached), kind) {
        if j > 0 { assert q.keys[j - 1] == p.keys[j]; }
      }
    }
  }

  lemma Distinct(keys: seq<Rule>, i: nat)
    requires Candidates(keys) && i < |keys|
    ensures forall j :: 0 <= j < |keys| && j != i ==> keys[j] != keys[i]
  {
    forall j | 0 <= j < |keys| && j != i ensures keys[j] != keys[i] {
      if j < i { assert Ord(keys[j]) < Ord(keys[i]); } else { assert Ord(keys[i]) < Ord(keys[j]); }
    }
  }

  /** The rest of a pass ends in the error exactly when the pass is at its
      first key and every key rejects the token. */
  lemma {:induction false} RunError(p: Pass, t: Token, cached: bool)
    requires PassOk(p, cached) && !p.matched && !p.error
    ensures Run(p, t, cached).error <==> p.i == 0 && |p.keys| > 0 && RejectAll(p, t.kind, cached)
    decreases |p.keys| - p.i, Rem(p, cached)
  {
    if p.i < |p.keys| {
      var q := Visit(p, t, cached);
      var key := p.keys[p.i];
      var node := Prod(key)[Pos(p, key, cached)];
      assert Run(p, t, cached) == Run(q, t, cached);
      if !q.matched && !q.error {
        RunError(q, t, cached);
      }
      if t.kind in node || Any in node || (OptNewline in node && t.kind == Newline) {
        ErrorAccepted(p, t, cached);
      } else if OptNewline in node {
        ErrorRetried(p, t, cached);
      } else {
        ErrorRemoved(p, t, cached);
      }
    }
  }

  /** A key that takes the token stays, so the pass cannot end in the error. */
  lemma ErrorAccepted(p: Pass, t: Token, cached: bool)
    requires PassOk(p, cached) && p.i < |p.keys| && !p.matched && !p.error
    requires var node := Prod(p.keys[p.i])[Pos(p, p.keys[p.i], cached)];
             t.kind in node || Any in node || (OptNewline in node && t.kind == Newline)
    requires var q := Visit(p, t, cached);
             !q.matched && !q.error ==>
               (Run(q, t, cached).error <==> q.i == 0 && |q.keys| > 0 && RejectAll(q, t.kind, cached))
    ensures Run(Visit(p, t, cached), t, cached).error <==> p.i == 0 && |p.keys| > 0 && RejectAll(p, t.kind, cached)
  {
    var q := Visit(p, t, cached);
    VisitTakes(p, t, cached);
    assert !Rejects(p.keys[p.i], Pos(p, p.keys[p.i], cached), t.kind);
    if q.matched {
      assert Run(q, t, cached) == q;
    }
  }

  /** At `OPT_NEWLINE` with another token the key is tried again at the
      next terminal, where it rejects the token exactly when it did here. */
  lemma ErrorRetried(p: Pass, t: Token, cached: bool)
    requires PassOk(p, cached) && p.i < |p.keys| && !p.matched && !p.error
    requires var node := Prod(p.keys[p.i])[Pos(p, p.keys[p.i], cached)];
             t.kind !in node && Any !in node && OptNewline in node && t.kind != Newline
    requires var q := Visit(p, t, cached);
             !q.matched && !q.error ==>
               (Run(q, t, cached).error <==> q.i == 0 && |q.keys| > 0 && RejectAll(q, t.kind, cached))
    ensures Run(Visit(p, t, cached), t, cached).error <==> p.i == 0 && |p.keys| > 0 && RejectAll(p, t.kind, cached)
  {
    var q := Visit(p, t, cached);
    var key := p.keys[p.i];
    var pos := Pos(p, key, cached);
    VisitRetries(p, t, cached);
    assert Pos(q, key, cached) == pos + 1;
    assert Rejects(key, pos, t.kind) <==> Rejects(key, pos + 1, t.kind);
    RejectAllSame(p, q, t.kind, cached, p.i);
  }

  /** A key that rejects the token is erased; erasing the last key is the
      error, otherwise the rest of the keys decide. */
  lemma ErrorRemoved(p: Pass, t: Token, cached: bool)
    requires PassOk(p, cached) && p.i < |p.keys| && !p.matched && !p.error
    requires var node := Prod(p.keys[p.i])[Pos(p, p.keys[p.i], cached)];
             t.kind !in node && Any !in node && OptNewline !in node
    requires var q := Visit(p, t, cached);
             !q.matched && !q.error ==>
               (Run(q, t, cached).error <==> q.i == 0 && |q.keys| > 0 && RejectAll(q, t.kind, cached))
    ensures Run(Visit(p, t, cached), t, cached).error <==> p.i == 0 && |p.keys| > 0 && RejectAll(p, t.kind, cached)
  {
    var q := Visit(p, t, cached);
    VisitErases(p, t, cached);
    assert Rejects(p.keys[p.i], Pos(p, p.keys[p.i], cached), t.kind);
    if q.error {
      assert Run(q, t, cached) == q;
      assert |p.keys| == 1 && p.i == 0;
    } else if p.i == 0 {
      RejectAllErased(p, q, t.kind, cached);
    }
  }

  /** Erasing the first key, which rejects the token, leaves the other
      keys' verdicts as they were. */
  lemma RejectAllErased(p: Pass, q: Pass, kind: TokenType, cached: bool)
    requires Candidates(p.keys) && |p.keys| > 0 && q.keys == p.keys[1..]
    requires forall k :: k != p.keys[0] ==> Get(q.data, k) == Get(p.data, k)
    requires Rejects(p.keys[0], Pos(p, p.keys[0], cached), kind)
    ensures RejectAll(p, kind, cached) <==> RejectAll(q, kind, cached)
  {
    Distinct(p.keys, 0);
    RejectAllTail(p, q, kind, cached);
  }

  /** The token is an error exactly when every key it is offered to
      rejects it at its cursor; the output then has no match, no candidate
      is left, and a cache that was in use is reset. */
  lemma ErrorIff(s: State, t: Token)
    requires StateOk(s)
    ensures var out := Step(s, t).1;
            var ks := StartKeys(s);
            out.presence <==> |ks| > 0 && RejectAll(StartPass(s), t.kind, |s.data| != 0)
    ensures Step(s, t).1.presence ==>
              !Step(s, t).1.valid && Step(s, t).0.keys == []
              && (|s.data| != 0 ==> Step(s, t).0.data == map[] && Step(s, t).0.braces == 0)
  {
    AllRulesCandidates();
    RunError(StartPass(s), t, |s.data| != 0);
  }

  /** At the start of every production stands a plain terminal. */
  lemma RejectsAtStart(r: Rule, kind: TokenType)
    requires HasProduction(r)
    ensures Rejects(r, 0, kind) <==> kind !in Prod(r)[0]
  {
  }

  /** Offered to every rule from their first terminals, a token is
      rejected by all of them exactly when it starts none. */
  lemma RejectAllFresh(p: Pass, kind: TokenType)
    requires p.keys == AllRules
    ensures RejectAll(p, kind, false) <==>
              kind !in {Identifier, Newline, EndOfFile, At, Task, Import, Using}
  {
    forall j | 0 <= j < |AllRules| {
      RejectsAtStart(AllRules[j], kind);
    }
    assert RejectAll(p, kind, false) <==>
      (forall j :: 0 <= j < |AllRules| ==> kind !in Prod(AllRules[j])[0]);
    assert Prod(AllRules[0])[0] == [Identifier];
    assert Prod(AllRules[1])[0] == [Newline, EndOfFile];
    assert Prod(AllRules[2])[0] == [At];
    assert Prod(AllRules[3])[0] == [Task];
    assert Prod(AllRules[4])[0] == [Import];
    assert Prod(AllRules[5])[0] == [Using];
  }

  /** From an empty cache every rule is a candidate: the token is an error
      exactly when it starts none of the productions. */
  lemma EmptyCacheError(s: State, t: Token)
    requires StateOk(s) && |s.data| == 0
    ensures Step(s, t).1.presence <==>
              t.kind !in {Identifier, Newline, EndOfFile, At, Task, Import, Using}
  {
    ErrorIff(s, t);
    RejectAllFresh(StartPass(s), t.kind);
  }

  /** A match names a rule with a production and hands out its captures,
      after which the cache is empty and every capture cleared; without a
      match the output names no rule and carries no captures. */
  lemma MatchedReset(s: State, t: Token)
    requires StateOk(s)
    ensures var (s', out) := Step(s, t);
            && (out.valid ==> HasProduction(out.kind) && |out.indexes| == |Prod(out.kind)|)
            && (out.valid ==> s'.keys == [] && s'.data == map[] && s'.braces == 0)
            && (out.valid ==> forall r :: r in s'.index ==>
                  forall j :: 0 <= j < |s'.index[r]| ==>
                    s'.index[r][j].start == 0 && s'.index[r][j].end == 0 && !s'.index[r][j].any)
            && (!out.valid ==> out.kind == Undefined && out.indexes == [])
  {
    AllRulesCandidates();
  }

  // ---------------------------------------------------------------------
  // The engine
  // ---------------------------------------------------------------------

  /** `Engine`: the productions are the table `Prod`; the fields are the
      cache (`keys`, `data`, `braces`) and the captures. */
  class Engine {
    var keys: seq<Rule>
    var data: map<Rule, nat>
    var braces: nat
    var index: map<Rule, seq<Index>>

    ghost function Snapshot(): State
      reads this
    {
      State(keys, data, braces, index)
    }

    ghost predicate Valid()
      reads this
    {
      StateOk(Snapshot())
    }

    /** An empty cache and fresh captures for every production. */
    constructor(blank: Token)
      ensures Valid()
      ensures keys == [] && data == map[] && braces == 0
      ensures index == map r | HasProduction(r) :: BlankSlots(|Prod(r)|, blank)
    {
      keys := [];
      data := map[];
      braces := 0;
      index := map r | HasProduction(r) :: BlankSlots(|Prod(r)|, blank);
    }

    /** The loop state of `match`: these fields and its locals. */
    ghost function Cur(i: nat, matched: bool, stype: Rule, error: bool,
                       estream: set<Terminal>, semtypes: set<Rule>, newKeys: set<Rule>): Pass
      reads this
    {
      Pass(keys, i, data, braces, index, matched, stype, error, estream, semtypes, newKeys)
    }

    /** `match`: offer the token to the candidate keys. */
    method Match(t: Token) returns (m: MatchResult)
      requires Valid()
      modifies this
      ensures Valid()
      ensures (Snapshot(), m) == Step(old(Snapshot()), t)
    {
      ghost var s0 := Snapshot();
      var cached := false;
      if |data| == 0 {
        keys := AllRules;
      } else {
        cached := true;
      }
      AllRulesCandidates();
      var i: nat := 0;
      var matched := false;
      var stype := Undefined;
      var error := false;
      var estream: set<Terminal> := {};
      var semtypes: set<Rule> := {};
      var newKeys: set<Rule> := {};
      assert Cur(i, matched, stype, error, estream, semtypes, newKeys) == StartPass(s0);
      while i < |keys| && !matched
        invariant PassOk(Cur(i, matched, stype, error, estream, semtypes, newKeys), cached)
        invariant Run(Cur(i, matched, stype, error, estream, semtypes, newKeys), t, cached)
                  == Run(StartPass(s0), t, cached)
        decreases |keys| - i, Rem(Cur(i, matched, stype, error, estream, semtypes, newKeys), cached)
      {
        ghost var p := Cur(i, matched, stype, error, estream, semtypes, newKeys);
        VisitCases(p, t, cached);
        i, matched, stype, error, estream, semtypes, newKeys := Turn(t, cached, i, stype, estream, semtypes, newKeys);
        if error {
          break;
        }
      }
      ghost var r := Cur(i, matched, stype, error, estream, semtypes, newKeys);
      assert Run(r, t, cached) == r;
      assert cached == (|s0.data| != 0);
      assert Step(s0, t) == Finish(r, t, cached);
      m := Conclude(t, cached, i, matched, stype, error, estream, semtypes, newKeys);
      assert (Snapshot(), m) == Finish(r, t, cached);
    }

    /** The terminal is `OPT_NEWLINE`: step over it, capturing a newline
        in the slot after it. */
    method Optional(t: Token, key: Rule, position: nat, ghost cached: bool, ghost i: nat, ghost stype: Rule,
                    ghost estream: set<Terminal>, ghost semtypes: set<Rule>, ghost newKeys: set<Rule>)
      requires PassOk(Cur(i, false, stype, false, estream, semtypes, newKeys), cached)
      requires i < |keys| && key == keys[i] && position + 1 < |Prod(key)|
      modifies this
      ensures Cur(if t.kind == Newline then i + 1 else i, false, stype, false, estream, semtypes, newKeys)
              == VisitOpt(old(Cur(i, false, stype, false, estream, semtypes, newKeys)), key, position, t, cached)
    {
      ghost var e := Cur(i, false, stype, false, estream, semtypes, newKeys);
      var pos := position + 1;
      SetCursor(key, pos);
      CursorsSet(e.data, key, pos);
      ghost var q := Cur(i, false, stype, false, estream, semtypes, newKeys);
      assert q == e.(data := e.data[key := pos]);
      if t.kind == Newline {
        SlotsCollect(index, key, pos, t, Newline);
        CollectInput(t, t.kind, key, pos);
        assert Cur(i + 1, false, stype, false, estream, semtypes, newKeys) == OptCollect(q, key, pos, t, cached);
      }
    }

    /** The terminal rejects the token: the key is erased, and erasing the
        last one is the error, after which a cache that was in use is reset. */
    method EraseKey(i: nat, cached: bool, ghost stype: Rule,
                    ghost estream: set<Terminal>, ghost semtypes: set<Rule>, ghost newKeys: set<Rule>)
      returns (error: bool)
      requires PassOk(Cur(i, false, stype, false, estream, semtypes, newKeys), cached) && i < |keys|
      modifies this
      ensures Cur(i, false, stype, error, estream, semtypes, newKeys)
              == VisitRemove(old(Cur(i, false, stype, false, estream, semtypes, newKeys)), cached)
    {
      keys := keys[..i] + keys[i + 1..];
      error := false;
      if keys == [] {
        error := true;
        if cached {
          CacheReset();
        }
      }
    }

    /** One turn of the loop: the key under the iterator is offered the
        token at its cursor. A key at `OPT_NEWLINE` that sees another token
        leaves the iterator where it is, so the same key is tried again. */
    method Turn(t: Token, cached: bool, i: nat, stype: Rule,
                estream: set<Terminal>, semtypes: set<Rule>, newKeys: set<Rule>)
      returns (i': nat, matched': bool, stype': Rule, error': bool,
               estream': set<Terminal>, semtypes': set<Rule>, newKeys': set<Rule>)
      requires PassOk(Cur(i, false, stype, false, estream, semtypes, newKeys), cached) && i < |keys|
      modifies this
      ensures Cur(i', matched', stype', error', estream', semtypes', newKeys')
              == Visit(old(Cur(i, false, stype, false, estream, semtypes, newKeys)), t, cached)
    {
      ghost var p := Cur(i, false, stype, false, estream, semtypes, newKeys);
      VisitCases(p, t, cached);
      i', matched', stype', error', newKeys' := i, false, stype, false, newKeys;
      var key := keys[i];
      var value := Prod(key);
      var position := ReadCursor(key, cached);
      if position < |value| {
        var node := value[position];
        estream' := estream + {node};
        semtypes' := semtypes + {key};
        ghost var e := Cur(i, false, stype, false, estream', semtypes', newKeys);
        assert e == Enter(p, cached);
        Shape(key, position);
        if t.kind in node {
          matched', stype', newKeys' := Found(t, key, position, cached, i, stype, estream', semtypes', newKeys);
          i' := i + 1;
          assert Cur(i', matched', stype', error', estream', semtypes', newKeys') == Visit(p, t, cached);
        } else if Any in node {
          matched', stype' := Wildcard(t, key, position, cached, i, stype, estream', semtypes', newKeys);
          i' := i + 1;
          assert Cur(i', matched', stype', error', estream', semtypes', newKeys') == Visit(p, t, cached);
        } else if OptNewline in node {
          Optional(t, key, position, cached, i, stype, estream', semtypes', newKeys);
          if t.kind == Newline {
            i' := i + 1;
          }
          assert Cur(i', matched', stype', error', estream', semtypes', newKeys') == Visit(p, t, cached);
        } else {
          error' := EraseKey(i, cached, stype, estream', semtypes', newKeys);
          assert Cur(i', matched', stype', error', estream', semtypes', newKeys') == Visit(p, t, cached);
        }
      } else {
        assert false;
        estream', semtypes' := estream, semtypes;
      }
    }

    /** The terminal holds the token: capture it, advance the cursor, count
        a task's braces and keep the key for the next token. */
    method Found(t: Token, key: Rule, position: nat, ghost cached: bool, ghost i: nat, stype: Rule,
                 ghost estream: set<Terminal>, ghost semtypes: set<Rule>, newKeys: set<Rule>)
      returns (matched': bool, stype': Rule, newKeys': set<Rule>)
      requires PassOk(Cur(i, false, stype, false, estream, semtypes, newKeys), cached)
      requires i < |keys| && key == keys[i] && position < |Prod(key)|
      modifies this
      ensures Cur(i + 1, matched', stype', false, estream, semtypes, newKeys')
              == VisitFound(old(Cur(i, false, stype, false, estream, semtypes, newKeys)), key, position, t, cached)
    {
      var value := Prod(key);
      CollectInput(t, t.kind, key, position);
      var pos := position + 1;
      SetCursor(key, pos);
      matched' := pos == |value|;
      stype' := stype;
      if matched' {
        stype' := key;
      }
      CountBraces(key, t.kind);
      newKeys' := newKeys + {key};
    }

    /** The terminal is `ANY`: look ahead to the next terminal to decide
        whether the run ends here. */
    method Wildcard(t: Token, key: Rule, position: nat, ghost cached: bool, ghost i: nat, stype: Rule,
                    ghost estream: set<Terminal>, ghost semtypes: set<Rule>, ghost newKeys: set<Rule>)
      returns (matched': bool, stype': Rule)
      requires PassOk(Cur(i, false, stype, false, estream, semtypes, newKeys), cached)
      requires i < |keys| && key == keys[i] && position + 1 < |Prod(key)|
      modifies this
      ensures Cur(i + 1, matched', stype', false, estream, semtypes, newKeys)
              == VisitAny(old(Cur(i, false, stype, false, estream, semtypes, newKeys)), key, position, t, cached)
    {
      ghost var e := Cur(i, false, stype, false, estream, semtypes, newKeys);
      var value := Prod(key);
      var pos := position + 1;
      var lookahead := value[pos];
      CountBraces(key, t.kind);
      BraceBound(key, t.kind, e.braces);
      VisitAnyCases(e, key, position, t, cached);
      // the run ends on a token of the lookahead; a task's run only once
      // its braces are closed
      var ends := false;
      if t.kind !in lookahead {
        ends := false;
      } else if key == TaskDecl {
        ends := braces == 0;
      } else {
        ends := true;
      }
      if ends {
        pos := pos + 1;
        matched', stype' := RunEnds(t, key, pos - 2, e, cached, i, stype, estream, semtypes, newKeys);
        assert Cur(i + 1, matched', stype', false, estream, semtypes, newKeys) == VisitAny(e, key, position, t, cached);
      } else {
        pos := pos - 1;
        matched', stype' := RunGoesOn(t, key, pos, e, cached, i, stype, estream, semtypes, newKeys);
        assert Cur(i + 1, matched', stype', false, estream, semtypes, newKeys) == VisitAny(e, key, position, t, cached);
      }
    }

    /** `++` or `--` of the brace counter on a task's curly braces. */
    method CountBraces(key: Rule, kind: TokenType)
      modifies this
      ensures braces == BraceStep(key, kind, old(braces))
      ensures keys == old(keys) && data == old(data) && index == old(index)
    {
      if key == TaskDecl {
        if kind == CurlyLP {
          braces := Inc(braces);
        } else if kind == CurlyRP {
          braces := Dec(braces);
        }
      }
    }

    /** The lookahead takes the token: capture it there and move past it. */
    method RunEnds(t: Token, key: Rule, position: nat, ghost e: Pass, ghost cached: bool, ghost i: nat, stype: Rule,
                   ghost estream: set<Terminal>, ghost semtypes: set<Rule>, ghost newKeys: set<Rule>)
      returns (matched': bool, stype': Rule)
      requires PassOk(e, cached) && !e.matched && e.i < |e.keys| && key == e.keys[e.i] && position + 1 < |Prod(key)|
      requires Cur(i, false, stype, false, estream, semtypes, newKeys) == e.(braces := braces) && braces < SizeMod
      modifies this
      ensures Cur(i + 1, matched', stype', false, estream, semtypes, newKeys)
              == AnyEnds(e, key, position, t, old(braces), cached)
    {
      SlotsCollect(index, key, position + 1, t, t.kind);
      CollectInput(t, t.kind, key, position + 1);
      var pos := position + 2;
      SetCursor(key, pos);
      matched' := pos == |Prod(key)|;
      stype' := stype;
      if matched' {
        stype' := key;
      }
    }

    /** The lookahead does not take the token: it joins the run. */
    method RunGoesOn(t: Token, key: Rule, position: nat, ghost e: Pass, ghost cached: bool, ghost i: nat, stype: Rule,
                     ghost estream: set<Terminal>, ghost semtypes: set<Rule>, ghost newKeys: set<Rule>)
      returns (matched': bool, stype': Rule)
      requires PassOk(e, cached) && !e.matched && e.i < |e.keys| && key == e.keys[e.i] && position + 1 < |Prod(key)|
      requires Cur(i, false, stype, false, estream, semtypes, newKeys) == e.(braces := braces) && braces < SizeMod
      modifies this
      ensures Cur(i + 1, matched', stype', false, estream, semtypes, newKeys)
              == AnyContinues(e, key, position, t, old(braces), cached)
    {
      SlotsCollect(index, key, position, t, Any);
      CollectInput(t, Any, key, position);
      SetCursor(key, position);
      matched' := position == |Prod(key)|;
      stype' := stype;
      if matched' {
        stype' := key;
      }
    }

    /** After the loop: the new key set, the output, and the reset after a
        match. */
    method Conclude(t: Token, ghost cached: bool, ghost i: nat, matched: bool, stype: Rule, error: bool,
                    estream: set<Terminal>, semtypes: set<Rule>, newKeys: set<Rule>)
      returns (m: MatchResult)
      requires PassOk(Cur(i, matched, stype, error, estream, semtypes, newKeys), cached)
      modifies this
      ensures (Snapshot(), m) == Finish(old(Cur(i, matched, stype, error, estream, semtypes, newKeys)), t, cached)
    {
      if |newKeys| > 0 {
        keys := Keep(AllRules, newKeys);
      }
      if stype !in index {
        index := index[stype := []];
      }
      m := MatchResult(matched, stype, index[stype], t, estream, semtypes, error);
      if matched {
        ResetAll();
      }
    }

    /** The cursor of `key`: `_cache.data[key]`, which inserts 0 when the
        key has none, or 0 on a pass that does not use the cache. */
    method ReadCursor(key: Rule, cached: bool) returns (position: nat)
      modifies this
      ensures position == if cached then Get(old(data), key) else 0
      ensures data == if cached then old(data)[key := position] else old(data)
      ensures keys == old(keys) && braces == old(braces) && index == old(index)
    {
      position := 0;
      if cached {
        position := Get(data, key);
        SetCursor(key, position);
      }
    }

    /** `_cache.data[key] = n`. */
    method SetCursor(key: Rule, n: nat)
      modifies this
      ensures data == old(data)[key := n]
      ensures keys == old(keys) && braces == old(braces) && index == old(index)
    {
      data := data[key := n];
    }

    /** `_collect_input`: record the token in slot `pos` of rule `st`. */
    method CollectInput(t: Token, tt: TokenType, st: Rule, pos: nat)
      requires st in index && pos < |index[st]|
      modifies this
      ensures index == CollectAt(old(index), st, pos, t, tt)
      ensures keys == old(keys) && data == old(data) && braces == old(braces)
    {
      var idx := index[st][pos];
      ghost var want := Collect(idx, t, tt);
      idx := idx.(token := t, end := EndOf(t));
      if tt == Any {
        if !idx.any {
          idx := idx.(start := t.start, any := true);
        }
      } else {
        if !idx.any {
          idx := idx.(start := t.start);
        } else {
          idx := idx.(any := false);
        }
      }
      assert idx == want;
      SetSlot(st, pos, idx);
    }

    method SetSlot(st: Rule, pos: nat, idx: Index)
      requires st in index && pos < |index[st]|
      modifies this
      ensures index == old(index)[st := old(index)[st][pos := idx]]
      ensures keys == old(keys) && data == old(data) && braces == old(braces)
    {
      index := index[st := index[st][pos := idx]];
    }

    /** `EngineCache::reset`. */
    method CacheReset()
      modifies this
      ensures keys == [] && data == map[] && braces == 0 && index == old(index)
    {
      keys := [];
      data := map[];
      braces := 0;
    }

    /** `_reset`: the cache emptied and every capture cleared. */
    method ResetAll()
      modifies this
      ensures Snapshot() == Reset(old(Snapshot()))
    {
      CacheReset();
      ghost var start := index;
      var todo := index.Keys;
      while todo != {}
        invariant todo <= index.Keys && index.Keys == start.Keys
        invariant forall r :: r in index ==> index[r] == if r in todo then start[r] else ClearedSlots(start[r])
        invariant keys == [] && data == map[] && braces == 0
        decreases todo
      {
        var r :| r in todo;
        var slots := index[r];
        var j := 0;
        while j < |slots|
          invariant j <= |slots| && |slots| == |start[r]|
          invariant forall k :: 0 <= k < |slots| ==> slots[k] == if k < j then Cleared(start[r][k]) else start[r][k]
        {
          slots := slots[j := Cleared(slots[j])];
          j := j + 1;
        }
        index := index[r := slots];
        todo := todo - {r};
      }
      assert index == map r | r in start :: ClearedSlots(start[r]);
    }
  }
}
