/**
  The tokenizer of the hx-trigger language (web/src/htmx/trigger-parser-runtime.ts).

  `Tokens` is the specification function the loop of `TokenizeString` is proved against.
  `Lexes` is an independent, purely local description of a token list: which strings are
  tokens, and which tokens may stand next to each other.  `TokensUnique` connects the two.
 */
module TriggerTokens {
  import opened Wrappers

  predicate IsSymbolStart(c: char) {
    c == '_' || c == '$' || 'a' <= c <= 'z' || 'A' <= c <= 'Z'
  }

  predicate IsSymbolCont(c: char) {
    IsSymbolStart(c) || '0' <= c <= '9'
  }

  predicate IsQuote(c: char) {
    c == '"' || c == '\'' || c == '/'
  }

  /** The class `\s` of ECMAScript regular expressions, which is also what `trim` removes. */
  predicate IsSpace(c: char) {
    c == ' ' || '\t' <= c <= '\r' || c == '\U{00A0}' || c == '\U{1680}' || '\U{2000}' <= c <= '\U{200A}'
    || c == '\U{2028}' || c == '\U{2029}' || c == '\U{202F}' || c == '\U{205F}' || c == '\U{3000}' || c == '\U{FEFF}'
  }

  function Flatten(ts: seq<string>): string {
    if ts == [] then "" else ts[0] + Flatten(ts[1..])
  }

  // ---- The scanner ----

  /** The first index from `i` on that does not continue a symbol. */
  function SymbolEnd(s: string, i: nat): (e: nat)
    requires i <= |s|
    ensures i <= e <= |s|
    ensures forall j :: i <= j < e ==> IsSymbolCont(s[j])
    ensures e < |s| ==> !IsSymbolCont(s[e])
    decreases |s| - i
  {
    if i < |s| && IsSymbolCont(s[i]) then SymbolEnd(s, i + 1) else i
  }

  /** The index of the first `quote` from `i` on that no backslash escapes, if there is one. */
  function CloseAt(s: string, i: nat, quote: char): (c: Option<nat>)
    ensures c.Some? ==> i <= c.value < |s| && s[c.value] == quote
    decreases |s| - i
  {
    if i >= |s| then None
    else if s[i] == quote then Some(i)
    else CloseAt(s, if s[i] == '\\' then i + 2 else i + 1, quote)
  }

  function TokenEnd(s: string, p: nat): (e: nat)
    requires p < |s|
    ensures p < e <= |s|
  {
    if IsSymbolStart(s[p]) then SymbolEnd(s, p + 1)
    else if IsQuote(s[p]) then
      match CloseAt(s, p + 1, s[p])
      case None => |s|
      case Some(c) => c + 1
    else p + 1
  }

  function TokensFrom(s: string, p: nat): seq<string>
    requires p <= |s|
    decreases |s| - p
  {
    if p == |s| then [] else [s[p..TokenEnd(s, p)]] + TokensFrom(s, TokenEnd(s, p))
  }

  function Tokens(s: string): seq<string> {
    TokensFrom(s, 0)
  }

  method TokenizeString(str: string) returns (tokens: seq<string>)
    ensures tokens == Tokens(str)
  {
    tokens := [];
    var position := 0;
    while position < |str|
      invariant position <= |str|
      invariant tokens + TokensFrom(str, position) == Tokens(str)
    {
      var startPosition := position;
      if IsSymbolStart(str[position]) {
        while position + 1 < |str| && IsSymbolCont(str[position + 1])
          invariant startPosition <= position < |str|
          invariant SymbolEnd(str, startPosition + 1) == SymbolEnd(str, position + 1)
        {
          position := position + 1;
        }
      } else if IsQuote(str[position]) {
        position := LiteralEnd(str, position);
      }
      // `substring` clamps its end to the length of the string.
      var end := if position + 1 <= |str| then position + 1 else |str|;
      assert end == TokenEnd(str, startPosition);
      Unfold(str, startPosition, tokens);
      tokens := tokens + [str[startPosition..end]];
      position := end;
    }
  }

  /** The loop over a literal: to its closing quote, or to the end of the text and perhaps one beyond. */
  method LiteralEnd(str: string, startPosition: nat) returns (position: nat)
    requires startPosition < |str|
    ensures match CloseAt(str, startPosition + 1, str[startPosition])
            case None => position >= |str|
            case Some(c) => position == c
  {
    var startChar := str[startPosition];
    position := startPosition + 1;
    while position < |str| && str[position] != startChar
      invariant startPosition < position
      invariant CloseAt(str, startPosition + 1, startChar) == CloseAt(str, position, startChar)
    {
      if str[position] == '\\' {
        position := position + 1;
      }
      position := position + 1;
    }
  }

  lemma Unfold(s: string, p: nat, tokens: seq<string>)
    requires p < |s|
    ensures tokens + TokensFrom(s, p) == tokens + [s[p..TokenEnd(s, p)]] + TokensFrom(s, TokenEnd(s, p))
  {
  }

  // ---- The independent description ----

  predicate IsSymbol(t: string) {
    t != "" && IsSymbolStart(t[0]) && forall i :: 1 <= i < |t| ==> IsSymbolCont(t[i])
  }

  /** A literal that ends at its first unescaped closing quote. */
  predicate IsClosedLiteral(t: string) {
    t != "" && IsQuote(t[0]) && CloseAt(t, 1, t[0]) == Some(|t| - 1)
  }

  /** A literal that runs to the end of the input without a closing quote. */
  predicate IsOpenLiteral(t: string) {
    t != "" && IsQuote(t[0]) && CloseAt(t, 1, t[0]).None?
  }

  predicate IsPunctuation(t: string) {
    |t| == 1 && !IsSymbolStart(t[0]) && !IsQuote(t[0])
  }

  predicate IsToken(t: string) {
    IsSymbol(t) || IsClosedLiteral(t) || IsOpenLiteral(t) || IsPunctuation(t)
  }

  /** Whether the token `t` ends where it does when the character `c` follows it. */
  predicate EndsBefore(t: string, c: char) {
    !IsOpenLiteral(t) && !(IsSymbol(t) && IsSymbolCont(c))
  }

  predicate Lexes(ts: seq<string>) {
    && (forall i :: 0 <= i < |ts| ==> IsToken(ts[i]))
    && (forall i :: 0 < i < |ts| ==> EndsBefore(ts[i - 1], ts[i][0]))
  }

  lemma {:induction false} CloseAtWindow(s: string, p: nat, t: string, i: nat, quote: char)
    requires p + |t| <= |s| && s[p..p + |t|] == t
    ensures CloseAt(t, i, quote).Some? ==> CloseAt(s, p + i, quote) == Some(p + CloseAt(t, i, quote).value)
    ensures CloseAt(t, i, quote).None? && p + |t| == |s| ==> CloseAt(s, p + i, quote).None?
    decreases |t| - i
  {
    if i < |t| {
      assert s[p + i] == t[i];
      if t[i] != quote {
        CloseAtWindow(s, p, t, if t[i] == '\\' then i + 2 else i + 1, quote);
      }
    }
  }

  /** The converse: a scan that finds its quote (or the end) finds it in the window cut there. */
  lemma {:induction false} CloseAtCut(s: string, p: nat, i: nat, quote: char)
    requires p + i <= |s| + 1
    ensures CloseAt(s, p + i, quote).Some? ==>
              CloseAt(s[p..CloseAt(s, p + i, quote).value + 1], i, quote) == Some(CloseAt(s, p + i, quote).value - p)
    ensures CloseAt(s, p + i, quote).None? && p <= |s| ==> CloseAt(s[p..], i, quote).None?
    decreases |s| - i
  {
    if p + i < |s| && s[p + i] != quote {
      CloseAtCut(s, p, if s[p + i] == '\\' then i + 2 else i + 1, quote);
    }
  }

  lemma TokenEndOfToken(s: string, p: nat, t: string)
    requires IsToken(t) && p + |t| <= |s| && s[p..p + |t|] == t
    requires p + |t| < |s| ==> EndsBefore(t, s[p + |t|])
    ensures p < |s| && TokenEnd(s, p) == p + |t|
  {
    assert forall i :: 0 <= i < |t| ==> s[p + i] == t[i];
    assert s[p] == t[0];
    if IsSymbol(t) {
      var e := SymbolEnd(s, p + 1);
      assert forall j :: p + 1 <= j < p + |t| ==> IsSymbolCont(s[j]) by {
        assert forall j :: p + 1 <= j < p + |t| ==> s[j] == t[j - p];
      }
    } else if IsQuote(t[0]) {
      CloseAtWindow(s, p, t, 1, t[0]);
    }
  }

  lemma TokenEndIsToken(s: string, p: nat)
    requires p < |s|
    ensures IsToken(s[p..TokenEnd(s, p)])
    ensures TokenEnd(s, p) < |s| ==> EndsBefore(s[p..TokenEnd(s, p)], s[TokenEnd(s, p)])
  {
    var t := s[p..TokenEnd(s, p)];
    assert t[0] == s[p];
    if !IsSymbolStart(s[p]) && IsQuote(s[p]) {
      CloseAtCut(s, p, 1, s[p]);
      assert CloseAt(s, p + 1, s[p]).None? ==> t == s[p..];
    }
  }

  lemma HeadOfFlatten(s: string, p: nat, ts: seq<string>)
    requires p <= |s| && s[p..] == Flatten(ts) && Lexes(ts) && ts != []
    ensures p < |s| && TokenEnd(s, p) == p + |ts[0]| && s[p..TokenEnd(s, p)] == ts[0]
    ensures s[TokenEnd(s, p)..] == Flatten(ts[1..])
  {
    var t, rest := ts[0], Flatten(ts[1..]);
    assert s[p..] == t + rest;
    assert s[p..p + |t|] == s[p..][..|t|] == t;
    assert s[p + |t|..] == s[p..][|t|..] == rest;
    if |ts| > 1 {
      assert rest == ts[1] + Flatten(ts[1..][1..]);
      assert s[p + |t|] == rest[0] == ts[1][0];
    }
    TokenEndOfToken(s, p, t);
  }

  lemma {:induction false} TokensOfFlatten(s: string, p: nat, ts: seq<string>)
    requires p <= |s| && s[p..] == Flatten(ts) && Lexes(ts)
    ensures TokensFrom(s, p) == ts
    decreases |ts|
  {
    if ts != [] {
      HeadOfFlatten(s, p, ts);
      LexesSplit(ts, 1);
      TokensOfFlatten(s, TokenEnd(s, p), ts[1..]);
    }
  }

  lemma {:induction false} TokensFromLexes(s: string, p: nat)
    requires p <= |s|
    ensures Lexes(TokensFrom(s, p)) && Flatten(TokensFrom(s, p)) == s[p..]
    decreases |s| - p
  {
    if p < |s| {
      var e := TokenEnd(s, p);
      TokenEndIsToken(s, p);
      TokensFromLexes(s, e);
      var rest := TokensFrom(s, e);
      assert TokensFrom(s, p)[1..] == rest;
      assert s[p..] == s[p..e] + s[e..];
      if rest != [] {
        assert rest[0][0] == s[e];
      }
      forall i | 0 < i < |rest| + 1
        ensures EndsBefore(TokensFrom(s, p)[i - 1], TokensFrom(s, p)[i][0])
      {
        assert TokensFrom(s, p)[i] == rest[i - 1];
        if i > 1 {
          assert TokensFrom(s, p)[i - 1] == rest[i - 2];
        }
      }
    }
  }

  /** Tokenization loses nothing, and its result is the only legal token list of the text. */
  lemma TokensUnique(s: string, ts: seq<string>)
    ensures ts == Tokens(s) <==> Lexes(ts) && Flatten(ts) == s
  {
    TokensFromLexes(s, 0);
    assert s[0..] == s;
    if Lexes(ts) && Flatten(ts) == s {
      TokensOfFlatten(s, 0, ts);
    }
  }

  /** No token is empty, whatever the text: unterminated literals and trailing backslashes included. */
  lemma TokensNonEmpty(s: string, i: nat)
    requires i < |Tokens(s)|
    ensures Tokens(s)[i] != "" && |Tokens(s)| <= |s|
  {
    TokensUnique(s, Tokens(s));
    FlattenLength(Tokens(s));
  }

  lemma {:induction false} FlattenLength(ts: seq<string>)
    requires Lexes(ts)
    ensures |ts| <= |Flatten(ts)|
  {
    if ts != [] {
      assert Lexes(ts[1..]) by { LexesSplit(ts, 1); }
      FlattenLength(ts[1..]);
    }
  }

  // ---- Putting token lists together ----

  lemma {:induction false} FlattenAppend(a: seq<string>, b: seq<string>)
    ensures Flatten(a + b) == Flatten(a) + Flatten(b)
  {
    if a == [] {
      assert a + b == b;
    } else {
      FlattenAppend(a[1..], b);
      assert (a + b)[0] == a[0] && (a + b)[1..] == a[1..] + b;
      JoinAssoc(a[0], Flatten(a[1..]), Flatten(b));
    }
  }

  lemma JoinAssoc(a: string, b: string, c: string)
    ensures a + (b + c) == (a + b) + c
  {
  }

  lemma LexesSplit(ts: seq<string>, k: nat)
    requires Lexes(ts) && k <= |ts|
    ensures Lexes(ts[..k]) && Lexes(ts[k..])
  {
    forall i | 0 < i < |ts| - k ensures EndsBefore(ts[k..][i - 1], ts[k..][i][0]) {
      assert ts[k..][i - 1] == ts[k + i - 1] && ts[k..][i] == ts[k + i];
    }
  }

  lemma LexesAppend(a: seq<string>, b: seq<string>)
    requires Lexes(a) && Lexes(b)
    requires a != [] && b != [] ==> EndsBefore(a[|a| - 1], b[0][0])
    ensures Lexes(a + b)
  {
    var ts := a + b;
    forall i | 0 < i < |ts| ensures EndsBefore(ts[i - 1], ts[i][0]) {
      if i < |a| {
        assert ts[i - 1] == a[i - 1] && ts[i] == a[i];
      } else if i == |a| {
        assert ts[i] == b[0];
      } else {
        assert ts[i - 1] == b[i - 1 - |a|] && ts[i] == b[i - |a|];
      }
    }
  }

  // ---- The shape of a token ----

  /** How many backslashes stand right before position `j`, not counting the first character. */
  function BackslashesBefore(t: string, j: nat): (n: nat)
    requires j <= |t|
  {
    if j > 1 && t[j - 1] == '\\' then 1 + BackslashesBefore(t, j - 1) else 0
  }

  /** The quote that opened the literal stands here again, behind an even number of backslashes. */
  predicate ClosesHere(t: string, j: nat) {
    0 < j < |t| && t[j] == t[0] && BackslashesBefore(t, j) % 2 == 0
  }

  lemma {:induction false} CloseAtExactly(t: string, i: nat)
    requires 0 < i && |t| > 0 && t[0] != '\\' && (i <= |t| ==> BackslashesBefore(t, i) % 2 == 0)
    ensures match CloseAt(t, i, t[0])
            case None => forall j :: i <= j < |t| ==> !ClosesHere(t, j)
            case Some(c) => ClosesHere(t, c) && forall j :: i <= j < c ==> !ClosesHere(t, j)
    decreases |t| - i
  {
    if i < |t| && t[i] != t[0] {
      var next := if t[i] == '\\' then i + 2 else i + 1;
      if t[i] == '\\' {
        assert BackslashesBefore(t, i + 1) == 1 + BackslashesBefore(t, i);
        assert !ClosesHere(t, i + 1);
      }
      assert next <= |t| ==> BackslashesBefore(t, next) % 2 == 0;
      CloseAtExactly(t, next);
      assert forall j :: i <= j < next ==> !ClosesHere(t, j);
    }
  }

  predicate IsLetter(c: char) {
    'a' <= c <= 'z' || 'A' <= c <= 'Z' || c == '_' || c == '$'
  }

  /**
    The shape of every token: a word takes all the letters and digits there are; a literal, behind one of
    three quotes, ends with its first closing quote or with the text; anything else is one character.
   */
  lemma TokenShape(s: string, i: nat)
    requires i < |Tokens(s)|
    ensures var t := Tokens(s)[i];
            && t != ""
            && (if IsLetter(t[0]) then
                  && (forall j :: 0 < j < |t| ==> IsLetter(t[j]) || '0' <= t[j] <= '9')
                  && (i + 1 < |Tokens(s)| ==>
                        var next := Tokens(s)[i + 1]; next != "" && !IsLetter(next[0]) && !('0' <= next[0] <= '9'))
                else if t[0] == '"' || t[0] == '\'' || t[0] == '/' then
                  && (forall j :: 0 < j < |t| - 1 ==> !ClosesHere(t, j))
                  && (ClosesHere(t, |t| - 1) || i + 1 == |Tokens(s)|)
                else |t| == 1)
  {
    var ts := Tokens(s);
    TokensUnique(s, ts);
    var t := ts[i];
    assert IsToken(t);
    if i + 1 < |ts| {
      assert EndsBefore(ts[i], ts[i + 1][0]);
    }
    if IsQuote(t[0]) {
      CloseAtExactly(t, 1);
    }
  }
}
