/** String helpers of the parser (the `Support` namespace): ASCII case
    folding, trimming, splitting, number parsing, edit distance, name
    mangling, closest-match search and the command-line scanner.

    A string is a sequence of characters; each character stands for one byte
    of the C++ `std::string` and is read as its unsigned value. */
module Support {
  import opened Wrappers

  // ---------------------------------------------------------------------
  // Characters and case folding
  // ---------------------------------------------------------------------

  /** The whitespace set " \t\r\n\f\v" of `ltrim` and `rtrim`. */
  predicate IsSpace(c: char) {
    c == ' ' || c == '\t' || c == '\r' || c == '\n' || c as int == 0x0C || c as int == 0x0B
  }

  predicate IsDigit(c: char) { '0' <= c <= '9' }

  predicate IsUpper(c: char) { 'A' <= c <= 'Z' }

  /** `toLowerAscii`: only 'A'..'Z' change, each to its lower-case letter. */
  function ToLowerAscii(c: char): (r: char)
    ensures r == c <==> !IsUpper(c)
    ensures IsUpper(c) ==> r as int == c as int + ('a' as int - 'A' as int)
    ensures !IsUpper(r)
  {
    if IsUpper(c) then (c as int + ('a' as int - 'A' as int)) as char else c
  }

  /** Case folding of a whole string, character by character. */
  function Fold(s: string): (r: string)
    ensures |r| == |s|
    ensures forall i :: 0 <= i < |s| ==> r[i] == ToLowerAscii(s[i])
  {
    if s == [] then [] else [ToLowerAscii(s[0])] + Fold(s[1..])
  }

  lemma FoldIdempotent(s: string)
    ensures Fold(Fold(s)) == Fold(s)
  {
  }

  /** Case-insensitive equality: equal sizes and equal after folding. */
  predicate EqualsIgnoreCase(a: string, b: string) {
    |a| == |b| && Fold(a) == Fold(b)
  }

  /** `StringViewEq`: the size test, then a character-by-character comparison
      of the folded characters. */
  method StringViewEq(a: string, b: string) returns (eq: bool)
    ensures eq <==> |a| == |b| && forall i :: 0 <= i < |a| ==> ToLowerAscii(a[i]) == ToLowerAscii(b[i])
    ensures eq == EqualsIgnoreCase(a, b)
  {
    if |a| != |b| {
      return false;
    }
    var i := 0;
    while i < |a|
      invariant 0 <= i <= |a|
      invariant forall k :: 0 <= k < i ==> ToLowerAscii(a[k]) == ToLowerAscii(b[k])
    {
      if ToLowerAscii(a[i]) != ToLowerAscii(b[i]) {
        assert Fold(a)[i] != Fold(b)[i];
        return false;
      }
      i := i + 1;
    }
    assert Fold(a) == Fold(b);
    return true;
  }

  // ---------------------------------------------------------------------
  // Hashing
  // ---------------------------------------------------------------------

  /** `std::size_t` arithmetic wraps modulo 2^64. */
  const SizeMod: int := 0x1_0000_0000_0000_0000

  /** The value `StringViewHash` accumulates: h = h * 131 + lower(c), modulo 2^64. */
  function Hash(s: string): (h: nat)
    ensures h < SizeMod
  {
    if s == [] then 0
    else (Hash(s[..|s| - 1]) * 131 + ToLowerAscii(s[|s| - 1]) as int) % SizeMod
  }

  /** `StringViewHash`. */
  method StringViewHash(s: string) returns (h: nat)
    ensures h == Hash(s)
    ensures h < SizeMod
  {
    h := 0;
    var i := 0;
    while i < |s|
      invariant 0 <= i <= |s|
      invariant h == Hash(s[..i])
    {
      assert s[..i + 1][..i] == s[..i];
      h := (h * 131 + ToLowerAscii(s[i]) as int) % SizeMod;
      i := i + 1;
    }
    assert s[..|s|] == s;
  }

  /** Keys that `StringViewEq` identifies get the same `StringViewHash`, so
      the case-insensitive keyword maps are consistent. */
  lemma {:induction false} HashRespectsEquality(a: string, b: string)
    requires EqualsIgnoreCase(a, b)
    ensures Hash(a) == Hash(b)
  {
    if a != [] {
      var n := |a| - 1;
      assert Fold(a[..n]) == Fold(a)[..n];
      assert Fold(b[..n]) == Fold(b)[..n];
      assert Fold(a)[n] == Fold(b)[n];
      HashRespectsEquality(a[..n], b[..n]);
    }
  }

  // ---------------------------------------------------------------------
  // Trimming
  // ---------------------------------------------------------------------

  /** `find_first_not_of(ws)`, with |s| standing for npos. */
  function FirstNonSpace(s: string): (k: nat)
    ensures k <= |s|
    ensures forall i :: 0 <= i < k ==> IsSpace(s[i])
    ensures k < |s| ==> !IsSpace(s[k])
  {
    if s == [] then 0 else if IsSpace(s[0]) then 1 + FirstNonSpace(s[1..]) else 0
  }

  /** One past `find_last_not_of(ws)`, with 0 standing for npos. */
  function TrimmedEnd(s: string): (k: nat)
    ensures k <= |s|
    ensures forall i :: k <= i < |s| ==> IsSpace(s[i])
    ensures k > 0 ==> !IsSpace(s[k - 1])
  {
    if s == [] then 0
    else if IsSpace(s[|s| - 1]) then TrimmedEnd(s[..|s| - 1])
    else |s|
  }

  /** `ltrim`: the suffix of s that starts at its first non-whitespace
      character; "" when there is none. */
  function Ltrim(s: string): (r: string)
    ensures |r| <= |s| && r == s[|s| - |r|..]
    ensures forall i :: 0 <= i < |s| - |r| ==> IsSpace(s[i])
    ensures r != [] ==> !IsSpace(r[0])
  {
    s[FirstNonSpace(s)..]
  }

  /** `rtrim`: the prefix of s that ends at its last non-whitespace
      character; "" when there is none. */
  function Rtrim(s: string): (r: string)
    ensures |r| <= |s| && r == s[..|r|]
    ensures forall i :: |r| <= i < |s| ==> IsSpace(s[i])
    ensures r != [] ==> !IsSpace(r[|r| - 1])
  {
    s[..TrimmedEnd(s)]
  }

  // ---------------------------------------------------------------------
  // Splitting on a separator
  // ---------------------------------------------------------------------

  function Concat(ts: seq<string>): string {
    if ts == [] then [] else ts[0] + Concat(ts[1..])
  }

  /** s with every occurrence of sep removed. */
  function Without(s: string, sep: char): string {
    if s == [] then [] else (if s[0] == sep then [] else [s[0]]) + Without(s[1..], sep)
  }

  lemma {:induction false} WithoutAppend(a: string, b: string, sep: char)
    ensures Without(a + b, sep) == Without(a, sep) + Without(b, sep)
  {
    if a != [] {
      var head: string := if a[0] == sep then [] else [a[0]];
      assert (a + b)[0] == a[0];
      assert (a + b)[1..] == a[1..] + b;
      WithoutAppend(a[1..], b, sep);
      calc {
        Without(a + b, sep);
        head + Without(a[1..] + b, sep);
        head + (Without(a[1..], sep) + Without(b, sep));
        (head + Without(a[1..], sep)) + Without(b, sep);
        Without(a, sep) + Without(b, sep);
      }
    } else {
      assert a + b == b;
    }
  }

  lemma {:induction false} WithoutNoSep(s: string, sep: char)
    requires sep !in s
    ensures Without(s, sep) == s
  {
    if s != [] {
      WithoutNoSep(s[1..], sep);
    }
  }

  /** Length of the token at the front of s: the index of the first sep, or |s|. */
  function TokenEnd(s: string, sep: char): (k: nat)
    ensures k <= |s|
    ensures forall i :: 0 <= i < k ==> s[i] != sep
    ensures k < |s| ==> s[k] == sep
  {
    if s == [] || s[0] == sep then 0 else 1 + TokenEnd(s[1..], sep)
  }

  lemma {:induction false} TokenEndIs(s: string, sep: char, k: nat)
    requires k <= |s|
    requires forall i :: 0 <= i < k ==> s[i] != sep
    requires k < |s| ==> s[k] == sep
    ensures TokenEnd(s, sep) == k
  {
    if k > 0 {
      assert s[0] != sep;
      forall i | 0 <= i < k - 1
        ensures s[1..][i] != sep
      {
        assert s[i + 1] != sep;
      }
      TokenEndIs(s[1..], sep, k - 1);
    }
  }

  /** The maximal runs of non-separator characters of s, in order. */
  function Tokens(s: string, sep: char): seq<string>
    decreases |s|
  {
    if s == [] then []
    else if s[0] == sep then Tokens(s[1..], sep)
    else
      var k := TokenEnd(s, sep);
      [s[..k]] + Tokens(s[k..], sep)
  }

  /** The tokens are non-empty, hold no separator, and together spell s
      without its separators. */
  lemma {:induction false} TokensSound(s: string, sep: char)
    ensures forall t :: t in Tokens(s, sep) ==> t != [] && sep !in t
    ensures Concat(Tokens(s, sep)) == Without(s, sep)
    decreases |s|
  {
    if s == [] {
    } else if s[0] == sep {
      TokensSound(s[1..], sep);
    } else {
      var k := TokenEnd(s, sep);
      var rest := Tokens(s[k..], sep);
      TokensSound(s[k..], sep);
      assert s == s[..k] + s[k..];
      WithoutAppend(s[..k], s[k..], sep);
      WithoutNoSep(s[..k], sep);
      assert ([s[..k]] + rest)[1..] == rest;
    }
  }

  lemma TokensSkipSeparator(s: string, i: nat, sep: char)
    requires i < |s| && s[i] == sep
    ensures Tokens(s[i..], sep) == Tokens(s[i + 1..], sep)
  {
    assert s[i..][1..] == s[i + 1..];
  }

  lemma TokensTakeRun(s: string, start: nat, i: nat, sep: char)
    requires start < i <= |s|
    requires forall k :: start <= k < i ==> s[k] != sep
    requires i < |s| ==> s[i] == sep
    ensures Tokens(s[start..], sep) == [s[start..i]] + Tokens(s[i..], sep)
  {
    TokenEndIs(s[start..], sep, i - start);
    assert s[start..][..i - start] == s[start..i];
    assert s[start..][i - start..] == s[i..];
  }

  /** The inner loop of `split` that reads one token: from a non-separator
      at start, the index of the next separator, or the end of s. */
  method RunEnd(s: string, start: nat, sep: char) returns (i: nat)
    requires start < |s| && s[start] != sep
    ensures start < i <= |s|
    ensures forall k :: start <= k < i ==> s[k] != sep
    ensures i < |s| ==> s[i] == sep
  {
    i := start;
    while i < |s| && s[i] != sep
      invariant start <= i <= |s|
      invariant forall k :: start <= k < i ==> s[k] != sep
      invariant i == start ==> s[start] != sep
    {
      i := i + 1;
    }
  }

  /** `split`: skip separators, take the token up to the next separator,
      repeat. */
  method Split(s: string, sep: char) returns (result: seq<string>)
    ensures result == Tokens(s, sep)
  {
    result := [];
    var i := 0;
    var n := |s|;
    while i < n
      invariant 0 <= i <= n
      invariant result + Tokens(s[i..], sep) == Tokens(s, sep)
    {
      while i < n && s[i] == sep
        invariant 0 <= i <= n
        invariant result + Tokens(s[i..], sep) == Tokens(s, sep)
      {
        TokensSkipSeparator(s, i, sep);
        i := i + 1;
      }
      if i >= n {
        assert s[i..] == [];
        break;
      }
      var start := i;
      i := RunEnd(s, start, sep);
      TokensTakeRun(s, start, i, sep);
      assert (result + [s[start..i]]) + Tokens(s[i..], sep) == result + ([s[start..i]] + Tokens(s[i..], sep));
      result := result + [s[start..i]];
    }
    assert s[n..] == [];
  }

  // ---------------------------------------------------------------------
  // Quote-aware splitting
  // ---------------------------------------------------------------------

  const Quote: char := '\''

  const ErrMissingSpace: string := "missing space after closing quote"
  const ErrMidToken: string := "quote in the middle of a token"
  const ErrUnmatched: string := "unmatched quote"

  datatype SplitResult = SplitResult(ok: bool, tokens: seq<string>, error: string)

  /** The loop state of `split_quoted`: tokens so far, the token being read,
      the two flags; or the error that stopped the loop. */
  datatype QuoteScan =
    | Scanning(tokens: seq<string>, current: string, inQuote: bool, justClosed: bool)
    | Stopped(error: string)

  const QuoteStart: QuoteScan := Scanning([], [], false, false)

  /** One iteration of the `split_quoted` loop on character c. */
  function QuoteStep(st: QuoteScan, c: char, sep: char): QuoteScan {
    match st
    case Stopped(_) => st
    case Scanning(toks, cur, inQ, closed) =>
      if closed then
        (if c == sep then Scanning(toks, cur, inQ, false) else Stopped(ErrMissingSpace))
      else if !inQ then
        if c == sep then
          (if cur != [] then Scanning(toks + [cur], [], false, false) else st)
        else if c == Quote then
          (if cur != [] then Stopped(ErrMidToken) else Scanning(toks, cur, true, false))
        else Scanning(toks, cur + [c], false, false)
      else if c == Quote then Scanning(toks + [cur], [], false, true)
      else Scanning(toks, cur + [c], true, false)
  }

  function QuoteRun(st: QuoteScan, s: string, sep: char): QuoteScan
    decreases |s|
  {
    if s == [] then st else QuoteRun(QuoteStep(st, s[0], sep), s[1..], sep)
  }

  /** What `split_quoted` returns once the loop has ended. Every error gives
      `ok == false` and no tokens. */
  function QuoteFinish(st: QuoteScan): (r: SplitResult)
    ensures r.ok <==> st.Scanning? && !st.inQuote
    ensures !r.ok ==> r.tokens == []
    ensures st.Stopped? ==> r.error == st.error
    ensures r.ok ==> r.error == []
  {
    match st
    case Stopped(e) => SplitResult(false, [], e)
    case Scanning(toks, cur, inQ, _) =>
      if inQ then SplitResult(false, [], ErrUnmatched)
      else SplitResult(true, if cur != [] then toks + [cur] else toks, [])
  }

  /** `split_quoted`. */
  method SplitQuoted(s: string, sep: char) returns (res: SplitResult)
    ensures res == QuoteFinish(QuoteRun(QuoteStart, s, sep))
  {
    var tokens: seq<string> := [];
    var current: string := [];
    var inQuote := false;
    var justClosed := false;
    var i := 0;
    while i < |s|
      invariant 0 <= i <= |s|
      invariant QuoteRun(Scanning(tokens, current, inQuote, justClosed), s[i..], sep) == QuoteRun(QuoteStart, s, sep)
    {
      var c := s[i];
      assert s[i..][1..] == s[i + 1..];
      if justClosed {
        if c == sep {
          justClosed := false;
          i := i + 1;
          continue;
        } else {
          QuoteRunStopped(ErrMissingSpace, s[i + 1..], sep);
          return SplitResult(false, [], ErrMissingSpace);
        }
      }
      if !inQuote {
        if c == sep {
          if current != [] {
            tokens := tokens + [current];
            current := [];
          }
          i := i + 1;
          continue;
        }
        if c == Quote {
          if current != [] {
            QuoteRunStopped(ErrMidToken, s[i + 1..], sep);
            return SplitResult(false, [], ErrMidToken);
          }
          inQuote := true;
          i := i + 1;
          continue;
        }
        current := current + [c];
      } else {
        if c == Quote {
          tokens := tokens + [current];
          current := [];
          inQuote := false;
          justClosed := true;
        } else {
          current := current + [c];
        }
      }
      i := i + 1;
    }
    if inQuote {
      return SplitResult(false, [], ErrUnmatched);
    }
    if current != [] {
      tokens := tokens + [current];
    }
    return SplitResult(true, tokens, []);
  }

  lemma {:induction false} QuoteRunStopped(e: string, s: string, sep: char)
    ensures QuoteRun(Stopped(e), s, sep) == Stopped(e)
    decreases |s|
  {
    if s != [] {
      QuoteRunStopped(e, s[1..], sep);
    }
  }

  lemma {:induction false} TokensAfterRun(cur: string, t: string, sep: char)
    requires cur != [] && sep !in cur
    requires t != [] && t[0] == sep
    ensures Tokens(cur + t, sep) == [cur] + Tokens(t[1..], sep)
  {
    var s := cur + t;
    TokenEndIs(s, sep, |cur|);
    assert s[..|cur|] == cur;
    assert s[|cur|..] == t;
  }

  lemma TokensOfRun(cur: string, sep: char)
    requires sep !in cur
    ensures Tokens(cur, sep) == if cur != [] then [cur] else []
  {
    if cur != [] {
      assert cur[0] != sep;
      TokenEndIs(cur, sep, |cur|);
      assert cur[..|cur|] == cur;
      assert cur[|cur|..] == [];
    }
  }

  /** Without quotes, the scan keeps to the plain split: the finished result
      is the pending tokens followed by the tokens of the pending run and the
      rest of the input. */
  lemma {:induction false} QuoteRunPlain(toks: seq<string>, cur: string, t: string, sep: char)
    requires sep != Quote && Quote !in t && Quote !in cur && sep !in cur
    ensures QuoteFinish(QuoteRun(Scanning(toks, cur, false, false), t, sep))
         == SplitResult(true, toks + Tokens(cur + t, sep), [])
    decreases |t|
  {
    var st := Scanning(toks, cur, false, false);
    if t == [] {
      TokensOfRun(cur, sep);
      assert cur + t == cur;
    } else {
      var c := t[0];
      assert c != Quote;
      assert QuoteRun(st, t, sep) == QuoteRun(QuoteStep(st, c, sep), t[1..], sep);
      if c == sep {
        var toks' := if cur != [] then toks + [cur] else toks;
        assert QuoteStep(st, c, sep) == Scanning(toks', [], false, false);
        QuoteRunPlain(toks', [], t[1..], sep);
        assert [] + t[1..] == t[1..];
        TokensAtSeparator(toks, cur, t, sep);
      } else {
        assert QuoteStep(st, c, sep) == Scanning(toks, cur + [c], false, false);
        QuoteRunPlain(toks, cur + [c], t[1..], sep);
        assert (cur + [c]) + t[1..] == cur + t;
      }
    }
  }

  lemma TokensAtSeparator(toks: seq<string>, cur: string, t: string, sep: char)
    requires sep !in cur && t != [] && t[0] == sep
    ensures (if cur != [] then toks + [cur] else toks) + Tokens(t[1..], sep) == toks + Tokens(cur + t, sep)
  {
    if cur != [] {
      TokensAfterRun(cur, t, sep);
      assert (toks + [cur]) + Tokens(t[1..], sep) == toks + ([cur] + Tokens(t[1..], sep));
    } else {
      assert cur + t == t;
    }
  }

  /** With no quote in the input, `split_quoted` succeeds and agrees with `split`. */
  lemma SplitQuotedWithoutQuotes(s: string, sep: char)
    requires sep != Quote && Quote !in s
    ensures QuoteFinish(QuoteRun(QuoteStart, s, sep)) == SplitResult(true, Tokens(s, sep), [])
  {
    QuoteRunPlain([], [], s, sep);
    assert [] + s == s;
  }

  function CountQuotes(s: string): nat {
    if s == [] then 0 else (if s[0] == Quote then 1 else 0) + CountQuotes(s[1..])
  }

  /** While the scan runs, `inQuote` flips on every quote. */
  lemma {:induction false} QuoteRunParity(st: QuoteScan, s: string, sep: char)
    requires sep != Quote && st.Scanning?
    ensures QuoteRun(st, s, sep).Scanning? ==>
              QuoteRun(st, s, sep).inQuote == (st.inQuote != (CountQuotes(s) % 2 == 1))
    decreases |s|
  {
    if s != [] {
      var next := QuoteStep(st, s[0], sep);
      if next.Stopped? {
        QuoteRunStopped(next.error, s[1..], sep);
      } else {
        QuoteRunParity(next, s[1..], sep);
      }
    }
  }

  /** An odd number of quotes always ends in an error. */
  lemma OddQuotesFail(s: string, sep: char)
    requires sep != Quote && CountQuotes(s) % 2 == 1
    ensures !QuoteFinish(QuoteRun(QuoteStart, s, sep)).ok
  {
    QuoteRunParity(QuoteStart, s, sep);
  }

  lemma {:induction false} QuoteRunWord(toks: seq<string>, cur: string, w: string, sep: char)
    requires Quote !in w && sep !in w
    ensures QuoteRun(Scanning(toks, cur, false, false), w, sep) == Scanning(toks, cur + w, false, false)
    decreases |w|
  {
    if w == [] {
      assert cur + w == cur;
    } else {
      QuoteRunWord(toks, cur + [w[0]], w[1..], sep);
      assert (cur + [w[0]]) + w[1..] == cur + w;
    }
  }

  lemma QuoteRunAppend(st: QuoteScan, a: string, b: string, sep: char)
    ensures QuoteRun(st, a + b, sep) == QuoteRun(QuoteRun(st, a, sep), b, sep)
    decreases |a|
  {
    if a != [] {
      var next := QuoteStep(st, a[0], sep);
      assert (a + b)[0] == a[0];
      assert (a + b)[1..] == a[1..] + b;
      assert QuoteRun(st, a + b, sep) == QuoteRun(next, a[1..] + b, sep);
      assert QuoteRun(st, a, sep) == QuoteRun(next, a[1..], sep);
      QuoteRunAppend(next, a[1..], b, sep);
    } else {
      assert a + b == b;
    }
  }

  /** For the first token of a line: a quote after the start of an
      unquoted token is an error. */
  lemma QuoteInsideToken(w: string, rest: string, sep: char)
    requires w != [] && Quote !in w && sep !in w && sep != Quote
    ensures QuoteFinish(QuoteRun(QuoteStart, w + [Quote] + rest, sep)) == SplitResult(false, [], ErrMidToken)
  {
    QuoteRunWord([], [], w, sep);
    QuoteRunAppend(QuoteStart, w, [Quote] + rest, sep);
    assert w + [Quote] + rest == w + ([Quote] + rest);
    assert ([] + w) == w;
    QuoteRunStopped(ErrMidToken, rest, sep);
    assert ([Quote] + rest)[1..] == rest;
  }

  lemma {:induction false} QuoteRunInside(toks: seq<string>, cur: string, q: string, sep: char)
    requires Quote !in q
    ensures QuoteRun(Scanning(toks, cur, true, false), q, sep) == Scanning(toks, cur + q, true, false)
    decreases |q|
  {
    if q == [] {
      assert cur + q == cur;
    } else {
      QuoteRunInside(toks, cur + [q[0]], q[1..], sep);
      assert (cur + [q[0]]) + q[1..] == cur + q;
    }
  }

  /** For a line that opens with a quoted token: its closing quote must be
      followed by a separator (or by the end). */
  lemma ClosingQuoteNeedsSeparator(q: string, c: char, rest: string, sep: char)
    requires Quote !in q && c != sep && sep != Quote
    ensures QuoteFinish(QuoteRun(QuoteStart, [Quote] + q + [Quote] + [c] + rest, sep))
         == SplitResult(false, [], ErrMissingSpace)
  {
    var s := [Quote] + q + [Quote] + [c] + rest;
    assert s == [Quote] + (q + ([Quote] + ([c] + rest)));
    assert s[1..] == q + ([Quote] + ([c] + rest));
    QuoteRunAppend(Scanning([], [], true, false), q, [Quote] + ([c] + rest), sep);
    QuoteRunInside([], [], q, sep);
    assert ([Quote] + ([c] + rest))[1..] == [c] + rest;
    assert ([c] + rest)[1..] == rest;
    QuoteRunStopped(ErrMissingSpace, rest, sep);
  }

  // ---------------------------------------------------------------------
  // Decimal numbers
  // ---------------------------------------------------------------------

  const LLongMax: int := 0x7FFF_FFFF_FFFF_FFFF

  predicate AllDigits(s: string) {
    forall i :: 0 <= i < |s| ==> IsDigit(s[i])
  }

  function DigitValue(c: char): (d: nat)
    requires IsDigit(c)
    ensures d <= 9
  {
    c as int - '0' as int
  }

  /** The decimal value of a string of digits. */
  function DecimalValue(s: string): nat
    requires AllDigits(s)
  {
    if s == [] then 0 else DecimalValue(s[..|s| - 1]) * 10 + DigitValue(s[|s| - 1])
  }

  lemma {:induction false} DecimalMonotone(s: string, k: nat)
    requires AllDigits(s) && k <= |s|
    ensures DecimalValue(s[..k]) <= DecimalValue(s)
    decreases |s|
  {
    if k < |s| {
      var p := s[..|s| - 1];
      assert p[..k] == s[..k];
      DecimalMonotone(p, k);
    } else {
      assert s[..k] == s;
    }
  }

  /** The guard `value > (LLONG_MAX - digit) / 10` is exactly the overflow
      test of `value * 10 + digit`. */
  lemma OverflowGuardExact(value: nat, digit: nat)
    requires digit <= 9
    ensures value > (LLongMax - digit) / 10 <==> value * 10 + digit > LLongMax
  {
  }

  /** `to_number`: the decimal value of a non-empty string of digits that
      does not exceed LLONG_MAX; none for anything else. */
  method ToNumber(s: string) returns (r: Option<int>)
    ensures r.Some? <==> s != [] && AllDigits(s) && DecimalValue(s) <= LLongMax
    ensures r.Some? ==> AllDigits(s) && r.value == DecimalValue(s)
  {
    if |s| == 0 {
      return None;
    }
    var value := 0;
    var i := 0;
    while i < |s|
      invariant 0 <= i <= |s|
      invariant AllDigits(s[..i])
      invariant value == DecimalValue(s[..i]) && value <= LLongMax
    {
      var c := s[i];
      if !IsDigit(c) {
        return None;
      }
      var digit := DigitValue(c);
      assert s[..i + 1][..i] == s[..i];
      assert AllDigits(s[..i + 1]);
      OverflowGuardExact(value, digit);
      if value > (LLongMax - digit) / 10 {
        if AllDigits(s) {
          DecimalMonotone(s, i + 1);
        }
        return None;
      }
      value := value * 10 + digit;
      i := i + 1;
    }
    assert s[..|s|] == s;
    return Some(value);
  }

  // ---------------------------------------------------------------------
  // Edit distance
  // ---------------------------------------------------------------------

  function Min3(x: nat, y: nat, z: nat): (m: nat)
    ensures m <= x && m <= y && m <= z
    ensures m == x || m == y || m == z
  {
    if x <= y && x <= z then x else if y <= z then y else z
  }

  /** The edit distance: the fewest deletions, insertions and substitutions
      that turn a into b, as the recursive minimum over the three moves on the
      last characters. */
  function Lev(a: string, b: string): nat
    decreases |a| + |b|
  {
    if |a| == 0 then |b|
    else if |b| == 0 then |a|
    else Min3(Lev(a[..|a| - 1], b) + 1,
              Lev(a, b[..|b| - 1]) + 1,
              Lev(a[..|a| - 1], b[..|b| - 1]) + (if a[|a| - 1] == b[|b| - 1] then 0 else 1))
  }

  lemma LevStep(a: string, b: string, i: nat, j: nat)
    requires i < |a| && j < |b|
    ensures Lev(a[..i + 1], b[..j + 1])
         == Min3(Lev(a[..i], b[..j + 1]) + 1,
                 Lev(a[..i + 1], b[..j]) + 1,
                 Lev(a[..i], b[..j]) + (if a[i] == b[j] then 0 else 1))
  {
    assert a[..i + 1][..i] == a[..i];
    assert b[..j + 1][..j] == b[..j];
  }

  /** One pass of the outer loop of `levenshtein_distance`: from the row of
      distances of a[..i] to the prefixes of b, the row for a[..i + 1]. */
  method NextRow(a: string, b: string, i: nat, prev: seq<nat>, curr0: seq<nat>) returns (curr: seq<nat>)
    requires i < |a| && |prev| == |b| + 1 && |curr0| == |b| + 1
    requires forall j :: 0 <= j <= |b| ==> prev[j] == Lev(a[..i], b[..j])
    ensures |curr| == |b| + 1
    ensures forall j :: 0 <= j <= |b| ==> curr[j] == Lev(a[..i + 1], b[..j])
  {
    curr := curr0[0 := i + 1];
    var j := 0;
    while j < |b|
      invariant 0 <= j <= |b|
      invariant |curr| == |b| + 1
      invariant forall k :: 0 <= k <= j ==> curr[k] == Lev(a[..i + 1], b[..k])
    {
      var cost := if a[i] == b[j] then 0 else 1;
      var del := prev[j + 1] + 1;
      var ins := curr[j] + 1;
      var subst := prev[j] + cost;
      LevStep(a, b, i, j);
      curr := curr[j + 1 := Min3(del, ins, subst)];
      j := j + 1;
    }
  }

  /** `levenshtein_distance`: two rolling rows `prev` and `curr`, swapped
      after each character of a. */
  method LevenshteinDistance(a: string, b: string) returns (d: nat)
    ensures d == Lev(a, b)
  {
    var len1, len2 := |a|, |b|;
    if len1 == 0 {
      return len2;
    }
    if len2 == 0 {
      return len1;
    }
    var prev: seq<nat> := seq(len2 + 1, j => j);
    var curr: seq<nat> := seq(len2 + 1, j => 0);
    var i := 0;
    while i < len1
      invariant 0 <= i <= len1
      invariant |prev| == len2 + 1 && |curr| == len2 + 1
      invariant forall j :: 0 <= j <= len2 ==> prev[j] == Lev(a[..i], b[..j])
    {
      curr := NextRow(a, b, i, prev, curr);
      prev, curr := curr, prev;
      i := i + 1;
    }
    assert a[..len1] == a && b[..len2] == b;
    return prev[len2];
  }

  /** The distance is zero exactly between equal strings. */
  lemma {:induction false} LevZeroIffEqual(a: string, b: string)
    ensures Lev(a, b) == 0 <==> a == b
    decreases |a| + |b|
  {
    if |a| > 0 && |b| > 0 {
      var a', b' := a[..|a| - 1], b[..|b| - 1];
      LevZeroIffEqual(a', b');
      if a == b {
        assert a' == b';
      }
      if Lev(a, b) == 0 {
        assert a == a' + [a[|a| - 1]] && b == b' + [b[|b| - 1]];
      }
    }
  }

  /** The distance never exceeds the longer length. */
  lemma {:induction false} LevAtMostLonger(a: string, b: string)
    ensures Lev(a, b) <= if |a| >= |b| then |a| else |b|
    decreases |a| + |b|
  {
    if |a| > 0 && |b| > 0 {
      LevAtMostLonger(a[..|a| - 1], b[..|b| - 1]);
    }
  }

  // ---------------------------------------------------------------------
  // Name mangling
  // ---------------------------------------------------------------------

  /** There is an "@@" at index i of s. */
  predicate MangleAt(s: string, i: nat) {
    i + 1 < |s| && s[i] == '@' && s[i + 1] == '@'
  }

  /** `s.find("@@")`, with |s| standing for npos. */
  function MangleIndex(s: string): (k: nat)
    ensures k <= |s|
    ensures k < |s| ==> MangleAt(s, k)
    ensures forall i :: 0 <= i < k ==> !MangleAt(s, i)
  {
    if |s| < 2 then |s|
    else if s[0] == '@' && s[1] == '@' then 0
    else
      var k := MangleIndex(s[1..]);
      assert forall i :: 1 <= i < 1 + k ==> (MangleAt(s, i) <==> MangleAt(s[1..], i - 1));
      1 + k
  }

  /** The part of a (possibly mangled) name before its first "@@". */
  function Demangle(s: string): (r: string)
    ensures |r| <= |s| && r == s[..|r|]
    ensures forall i :: 0 <= i < |r| ==> !MangleAt(s, i)
  {
    s[..MangleIndex(s)]
  }

  /** `generate_mangling`: target, then "@@", then the mangling. */
  function GenerateMangling(target: string, mangling: string): (r: string)
    ensures |r| == |target| + 2 + |mangling|
    ensures r[..|target|] == target && r[|target| + 2..] == mangling
    ensures MangleAt(r, |target|)
  {
    target + "@@" + mangling
  }

  /** A name that holds no "@@" and does not end in '@' is recovered from its
      mangled form by cutting at the first "@@". */
  lemma DemangleGenerated(target: string, mangling: string)
    requires MangleIndex(target) == |target|
    requires target == [] || target[|target| - 1] != '@'
    ensures Demangle(GenerateMangling(target, mangling)) == target
  {
    var r := GenerateMangling(target, mangling);
    forall i | 0 <= i < |target|
      ensures !MangleAt(r, i)
    {
      if i + 1 < |target| {
        assert !MangleAt(target, i);
      }
    }
    MangleIndexIs(r, |target|);
  }

  lemma MangleIndexIs(s: string, k: nat)
    requires MangleAt(s, k)
    requires forall i :: 0 <= i < k ==> !MangleAt(s, i)
    ensures MangleIndex(s) == k
  {
  }

  // ---------------------------------------------------------------------
  // Closest match
  // ---------------------------------------------------------------------

  /** A candidate takes part when its demangled name differs from the target. */
  predicate Eligible(candidate: string, target: string) {
    Demangle(candidate) != target
  }

  /** `FindClosest`: the first demangled candidate, other than the target
      itself, whose distance to the target is strictly smallest among those
      below max_distance. */
  method FindClosest(list: seq<string>, target: string, maxDistance: nat) returns (best: Option<string>)
    ensures best.None? <==>
              forall i :: 0 <= i < |list| && Eligible(list[i], target) ==> Lev(Demangle(list[i]), target) >= maxDistance
    ensures best.Some? ==>
              exists i :: 0 <= i < |list| && Eligible(list[i], target) && best.value == Demangle(list[i])
                && Lev(best.value, target) < maxDistance
                && (forall j :: 0 <= j < i && Eligible(list[j], target) ==> Lev(Demangle(list[j]), target) > Lev(best.value, target))
                && (forall j :: 0 <= j < |list| && Eligible(list[j], target) ==> Lev(Demangle(list[j]), target) >= Lev(best.value, target))
  {
    best := None;
    var bestDist := maxDistance;
    ghost var bestIdx := 0;
    var n := 0;
    while n < |list|
      invariant 0 <= n <= |list|
      invariant best.None? ==> bestDist == maxDistance
      invariant bestDist <= maxDistance
      invariant forall j :: 0 <= j < n && Eligible(list[j], target) ==> Lev(Demangle(list[j]), target) >= bestDist
      invariant best.Some? ==> bestIdx < n && Eligible(list[bestIdx], target) && best.value == Demangle(list[bestIdx])
                               && bestDist == Lev(best.value, target) && bestDist < maxDistance
                               && forall j :: 0 <= j < bestIdx && Eligible(list[j], target) ==> Lev(Demangle(list[j]), target) > bestDist
    {
      var s := list[n];
      var pos := MangleIndex(s);
      if pos < |s| {
        s := s[..pos];
      }
      assert s == Demangle(list[n]);
      if s == target {
        n := n + 1;
        continue;
      }
      var d := LevenshteinDistance(s, target);
      if d < bestDist {
        bestDist := d;
        best := Some(s);
        bestIdx := n;
      }
      n := n + 1;
    }
  }

  // ---------------------------------------------------------------------
  // Command-line arguments
  // ---------------------------------------------------------------------

  datatype Flag = Flag(value: string, found: bool)

  datatype Threads = Threads(svalue: string, ivalue: nat, found: bool)

  /** `Support::Arguments`. */
  datatype Arguments = Arguments(
    arcfile: string,
    task: Flag,
    value: Flag,
    profile: Flag,
    generator: Flag,
    threads: Threads,
    debug: bool,
    flushCache: bool,
    version: bool,
    help: bool,
    silent: bool,
    pubtasks: bool,
    profiles: bool)

  /** The values the `Arguments` constructor sets. */
  const DefaultArguments: Arguments :=
    Arguments("arcfile", Flag("", false), Flag("", false), Flag("", false), Flag("", false),
              Threads("", 0, false), false, false, false, false, false, false, false)

  const U32Max: int := 0xFFFF_FFFF

  /** `std::from_chars` into a `uint32_t` that must consume the whole text:
      the value of a non-empty string of digits that fits in 32 bits. */
  function FromCharsU32(s: string): (r: Option<nat>)
    ensures r.Some? <==> s != [] && AllDigits(s) && DecimalValue(s) <= U32Max
    ensures r.Some? ==> r.value == DecimalValue(s) && r.value <= U32Max
  {
    if s != [] && AllDigits(s) && DecimalValue(s) <= U32Max then Some(DecimalValue(s)) else None
  }

  datatype ArgsOutcome = ArgsOutcome(ok: bool, args: Arguments)

  /** What one entry of the command line does: move on to entry `next` with
      updated arguments, or refuse the command line. */
  datatype ArgStep = Next(next: nat, args: Arguments) | Refused

  /** What entry i does: an option that needs a value takes the next entry,
      `--generate` takes it when there is one, the first other entry is the
      task and any later one is refused. */
  function StepAt(argv: seq<string>, i: nat, args: Arguments): (r: ArgStep)
    requires i < |argv|
    ensures r.Next? ==> i < r.next <= |argv|
    ensures r.Next? && ThreadsWellFormed(args.threads) ==> ThreadsWellFormed(r.args.threads)
  {
    if argv[i] == "-t" then ThreadsStep(argv, i, args) else OtherStep(argv, i, args)
  }

  /** `-t`: the next entry must read as a positive 32-bit number. */
  function ThreadsStep(argv: seq<string>, i: nat, args: Arguments): (r: ArgStep)
    requires i < |argv|
    ensures r.Next? ==> r.next == i + 2 <= |argv| && ThreadsWellFormed(r.args.threads)
  {
    if i + 1 >= |argv| then Refused
    else
      var n := FromCharsU32(argv[i + 1]);
      if n.None? || n.value == 0 then Refused
      else Next(i + 2, args.(threads := Threads(argv[i + 1], n.value, true)))
  }

  /** Every entry other than `-t`; none of them touches the thread count. */
  function OtherStep(argv: seq<string>, i: nat, args: Arguments): (r: ArgStep)
    requires i < |argv|
    ensures r.Next? ==> i < r.next <= |argv| && r.args.threads == args.threads
  {
    var arg := argv[i];
    if arg == "-s" || arg == "-p" || arg == "--value" || arg == "--generate" then ValueStep(argv, i, args)
    else SwitchStep(argv, i, args)
  }

  /** The options that take the next entry as their value. */
  function ValueStep(argv: seq<string>, i: nat, args: Arguments): (r: ArgStep)
    requires i < |argv|
    ensures r.Next? ==> i < r.next <= |argv| && r.args.threads == args.threads
  {
    var arg := argv[i];
    if i + 1 >= |argv| then
      if arg == "--generate" then Next(i + 1, args.(generator := args.generator.(found := true))) else Refused
    else
      var v := argv[i + 1];
      if arg == "-s" then Next(i + 2, args.(arcfile := v))
      else if arg == "-p" then Next(i + 2, args.(profile := Flag(v, true)))
      else if arg == "--value" then Next(i + 2, args.(value := Flag(v, true)))
      else Next(i + 2, args.(generator := Flag(v, true)))
  }

  /** The switches, and the positional task name. */
  function SwitchStep(argv: seq<string>, i: nat, args: Arguments): (r: ArgStep)
    requires i < |argv|
    ensures r.Next? ==> r.next == i + 1 && r.args.threads == args.threads
  {
    var arg := argv[i];
    if arg == "--flush-cache" then Next(i + 1, args.(flushCache := true))
    else if arg == "--version" then Next(i + 1, args.(version := true))
    else if arg == "--help" then Next(i + 1, args.(help := true))
    else if arg == "--pubs" then Next(i + 1, args.(pubtasks := true))
    else if arg == "--profiles" then Next(i + 1, args.(profiles := true))
    else if arg == "--silent" then Next(i + 1, args.(silent := true))
    else if !args.task.found then Next(i + 1, args.(task := Flag(arg, true)))
    else Refused
  }

  /** The scan of `ParseArgs` from entry i on. */
  function ParseFrom(argv: seq<string>, i: nat, args: Arguments): ArgsOutcome
    decreases |argv| - i
  {
    if i >= |argv| then ArgsOutcome(true, args)
    else
      match StepAt(argv, i, args)
      case Refused => ArgsOutcome(false, args)
      case Next(j, a) => ParseFrom(argv, j, a)
  }

  /** `ParseArgs`: entry 0 is the program name; the scan starts at entry 1
      and updates `args` in place. */
  method ParseArgs(argv: seq<string>, args0: Arguments) returns (ok: bool, args: Arguments)
    ensures ArgsOutcome(ok, args) == ParseFrom(argv, 1, args0)
  {
    args := args0;
    var i := 1;
    while i < |argv|
      invariant 1 <= i
      invariant ParseFrom(argv, i, args) == ParseFrom(argv, 1, args0)
      decreases |argv| - i
    {
      var arg := argv[i];
      if arg == "-s" {
        if i + 1 < |argv| {
          args := args.(arcfile := argv[i + 1]);
          i := i + 2;
          continue;
        } else {
          return false, args;
        }
      } else if arg == "-p" {
        if i + 1 < |argv| {
          args := args.(profile := Flag(argv[i + 1], true));
          i := i + 2;
          continue;
        } else {
          return false, args;
        }
      } else if arg == "-t" {
        if i + 1 < |argv| {
          var n := FromCharsU32(argv[i + 1]);
          if n.None? || n.value <= 0 {
            return false, args;
          }
          args := args.(threads := Threads(argv[i + 1], n.value, true));
          i := i + 2;
          continue;
        } else {
          return false, args;
        }
      } else if arg == "--value" {
        if i + 1 < |argv| {
          args := args.(value := Flag(argv[i + 1], true));
          i := i + 2;
          continue;
        } else {
          return false, args;
        }
      }
      if arg == "--generate" {
        args := args.(generator := args.generator.(found := true));
        if i + 1 < |argv| {
          args := args.(generator := Flag(argv[i + 1], true));
          i := i + 2;
        } else {
          i := i + 1;
        }
        continue;
      } else if arg == "--flush-cache" {
        args := args.(flushCache := true);
      } else if arg == "--version" {
        args := args.(version := true);
      } else if arg == "--help" {
        args := args.(help := true);
      } else if arg == "--pubs" {
        args := args.(pubtasks := true);
      } else if arg == "--profiles" {
        args := args.(profiles := true);
      } else if arg == "--silent" {
        args := args.(silent := true);
      } else if !args.task.found {
        args := args.(task := Flag(arg, true));
      } else {
        return false, args;
      }
      i := i + 1;
    }
    return true, args;
  }

  /** The thread count the scanner stores is always a positive 32-bit value
      that spells its own text. */
  predicate ThreadsWellFormed(t: Threads) {
    t.found ==> AllDigits(t.svalue) && t.svalue != [] && 0 < t.ivalue <= U32Max && t.ivalue == DecimalValue(t.svalue)
  }

  lemma {:induction false} ParseFromKeepsThreads(argv: seq<string>, i: nat, args: Arguments)
    requires ThreadsWellFormed(args.threads)
    ensures ThreadsWellFormed(ParseFrom(argv, i, args).args.threads)
    decreases |argv| - i
  {
    if i < |argv| {
      var st := StepAt(argv, i, args);
      if st.Next? {
        ParseFromKeepsThreads(argv, st.next, st.args);
      }
    }
  }

  /** A command line with only the program name leaves the defaults. */
  lemma ParseArgsNothing(prog: string)
    ensures ParseFrom([prog], 1, DefaultArguments) == ArgsOutcome(true, DefaultArguments)
  {
  }

  /** The test runner's command line `arcana -s <path> --debug`: `--debug`
      is not an option of the scanner, so it becomes the task name. */
  lemma RunnerCommandLine(path: string)
    ensures ParseFrom(["arcana", "-s", path, "--debug"], 1, DefaultArguments)
         == ArgsOutcome(true, DefaultArguments.(arcfile := path, task := Flag("--debug", true)))
  {
    var argv := ["arcana", "-s", path, "--debug"];
    var a1 := DefaultArguments.(arcfile := path);
    assert ParseFrom(argv, 1, DefaultArguments) == ParseFrom(argv, 3, a1);
    assert ParseFrom(argv, 3, a1) == ParseFrom(argv, 4, a1.(task := Flag("--debug", true)));
  }

  /** A second positional entry is refused. */
  lemma SecondPositionalRefused(argv: seq<string>, i: nat, args: Arguments)
    requires i < |argv| && args.task.found
    requires argv[i] !in {"-s", "-p", "-t", "--value", "--generate", "--flush-cache", "--version", "--help", "--pubs", "--profiles", "--silent"}
    ensures !ParseFrom(argv, i, args).ok
  {
  }

  // ---------------------------------------------------------------------
  // Substrings
  // ---------------------------------------------------------------------

  /** `hay.find(needle) != npos`. */
  predicate Contains(hay: string, needle: string)
    decreases |hay|
  {
    needle <= hay || (hay != [] && Contains(hay[1..], needle))
  }

  /** `needle` occurs in `hay` at position i. */
  predicate OccursAt(hay: string, needle: string, i: nat) {
    i + |needle| <= |hay| && hay[i..i + |needle|] == needle
  }

  /** Where `Contains` holds, the needle occurs at some position. */
  lemma {:induction false} ContainsWitness(hay: string, needle: string) returns (i: nat)
    requires Contains(hay, needle)
    ensures i <= |hay| && OccursAt(hay, needle, i)
    decreases |hay|
  {
    if needle <= hay {
      i := 0;
    } else {
      var j := ContainsWitness(hay[1..], needle);
      assert hay[1..][j..j + |needle|] == hay[j + 1..j + 1 + |needle|];
      i := j + 1;
    }
  }

  /** An occurrence at any position makes `Contains` hold. */
  lemma {:induction false} OccursContains(hay: string, needle: string, i: nat)
    requires OccursAt(hay, needle, i)
    ensures Contains(hay, needle)
    decreases i
  {
    if i == 0 {
      assert needle <= hay;
    } else {
      assert hay[1..][i - 1..i - 1 + |needle|] == hay[i..i + |needle|];
      OccursContains(hay[1..], needle, i - 1);
    }
  }

  /** `Contains` holds exactly when the needle occurs at some position. */
  lemma ContainsAt(hay: string, needle: string)
    ensures Contains(hay, needle) <==> exists i: nat :: i <= |hay| && OccursAt(hay, needle, i)
  {
    if Contains(hay, needle) {
      var i := ContainsWitness(hay, needle);
    }
    if exists i: nat :: i <= |hay| && OccursAt(hay, needle, i) {
      var i: nat :| i <= |hay| && OccursAt(hay, needle, i);
      OccursContains(hay, needle, i);
    }
  }

  /** `std::string::find`: the first position where `needle` occurs in
      `hay`, none when it does not occur. */
  method Find(hay: string, needle: string) returns (pos: Option<nat>)
    ensures pos.None? <==> !Contains(hay, needle)
    ensures pos.Some? ==> OccursAt(hay, needle, pos.value)
    ensures pos.Some? ==> forall k: nat :: k < pos.value ==> !OccursAt(hay, needle, k)
  {
    ContainsAt(hay, needle);
    if |needle| > |hay| {
      assert forall k: nat :: !OccursAt(hay, needle, k);
      return None;
    }
    var i: nat := 0;
    while i <= |hay| - |needle|
      invariant i <= |hay| - |needle| + 1
      invariant forall k: nat :: k < i ==> !OccursAt(hay, needle, k)
    {
      if hay[i..i + |needle|] == needle {
        assert OccursAt(hay, needle, i);
        return Some(i);
      }
      i := i + 1;
    }
    assert forall k: nat :: !OccursAt(hay, needle, k) by {
      forall k: nat ensures !OccursAt(hay, needle, k) {
        if k >= i {
          assert k + |needle| > |hay|;
        }
      }
    }
    return None;
  }
}
