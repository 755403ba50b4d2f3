/**
  The event filter of a trigger: `[` expression `]`, rewritten so that every free name is looked
  up on the event first and on the window second.
 */
module TriggerFilter {
  import opened Wrappers
  import opened TriggerTokens
  import opened TokenStreams

  predicate IsPossibleRelativeReference(token: string, last: Option<string>, param: string) {
    && token != "" && IsSymbolStart(token[0])
    && token != "true" && token != "false" && token != "this"
    && token != param
    && last != Some(".")
  }

  function Lookup(holder: string, token: string): string {
    "(" + holder + "." + token + ")"
  }

  /** `((param.token) ? (param.token) : (window.token))` */
  function Expansion(token: string, param: string): string {
    "(" + Lookup(param, token) + " ? " + Lookup(param, token) + " : " + Lookup("window", token) + ")"
  }

  function Piece(token: string, last: Option<string>, param: string): string {
    if IsPossibleRelativeReference(token, last, param) then Expansion(token, param) else token
  }

  function Header(param: string): string {
    " return (function(" + param + "){ return ("
  }

  const FOOTER := ")})"

  datatype Scan = Closed(source: string, rest: seq<string>) | Unclosed

  function ScanFilter(tokens: seq<string>, depth: nat, last: Option<string>, source: string, param: string): Scan
    requires depth > 0
    decreases |tokens|
  {
    if tokens == [] then Unclosed
    else if tokens[0] == "]" && depth == 1 then
      Closed(source + (if last.None? then "true" else "") + FOOTER, tokens[1..])
    else
      var depth' := if tokens[0] == "]" then depth - 1 else if tokens[0] == "[" then depth + 1 else depth;
      ScanFilter(tokens[1..], depth', Some(tokens[0]), source + Piece(tokens[0], last, param), param)
  }

  /** A generated filter, a filter whose source `Function` rejects (reported), or no filter. */
  datatype Conditional = Generated(source: string) | Rejected(source: string) | Absent

  /** `compiles` stands for evaluating the source: it returns a function or throws. */
  function ConditionalOf(tokens: seq<string>, param: string, compiles: string -> bool): Conditional {
    if tokens == [] || tokens[0] != "[" then Absent
    else
      match ScanFilter(tokens[1..], 1, None, Header(param), param)
      case Unclosed => Absent
      case Closed(source, _) => if compiles(source) then Generated(source) else Rejected(source)
  }

  function AfterConditional(tokens: seq<string>, param: string): (rest: seq<string>)
    ensures |rest| <= |tokens|
    ensures tokens != [] && tokens[0] == "[" ==> |rest| < |tokens|
  {
    if tokens == [] || tokens[0] != "[" then tokens
    else
      match ScanFilter(tokens[1..], 1, None, Header(param), param)
      case Unclosed => []
      case Closed(_, rest) => ScanShrinks(tokens[1..], 1, None, Header(param), param); rest
  }

  lemma {:induction false} ScanShrinks(tokens: seq<string>, depth: nat, last: Option<string>, source: string,
                                       param: string)
    requires depth > 0
    ensures var s := ScanFilter(tokens, depth, last, source, param);
            s.Closed? ==> |s.rest| < |tokens|
    decreases |tokens|
  {
    if tokens != [] && !(tokens[0] == "]" && depth == 1) {
      var depth' := if tokens[0] == "]" then depth - 1 else if tokens[0] == "[" then depth + 1 else depth;
      ScanShrinks(tokens[1..], depth', Some(tokens[0]), source + Piece(tokens[0], last, param), param);
    }
  }

  method MaybeGenerateConditional(stream: TokenStream, param: string, compiles: string -> bool) returns (r: Conditional)
    modifies stream
    ensures r == ConditionalOf(old(stream.tokens), param, compiles)
    ensures stream.tokens == AfterConditional(old(stream.tokens), param)
  {
    if stream.tokens != [] && stream.tokens[0] == "[" {
      var _ := stream.Shift();
      var bracketCount := 1;
      var conditionalSource := " return (function(" + param + "){ return (";
      var last: Option<string> := None;
      while stream.tokens != []
        invariant bracketCount > 0
        invariant ScanFilter(stream.tokens, bracketCount, last, conditionalSource, param)
               == ScanFilter(old(stream.tokens)[1..], 1, None, Header(param), param)
        decreases |stream.tokens|
      {
        var token := stream.tokens[0];
        if token == "]" {
          bracketCount := bracketCount - 1;
          if bracketCount == 0 {
            if last.None? {
              conditionalSource := conditionalSource + "true";
            }
            var _ := stream.Shift();
            assert conditionalSource + "" == conditionalSource;
            conditionalSource := conditionalSource + ")})";
            return if compiles(conditionalSource) then Generated(conditionalSource) else Rejected(conditionalSource);
          }
        } else if token == "[" {
          bracketCount := bracketCount + 1;
        }
        if IsPossibleRelativeReference(token, last, param) {
          conditionalSource := conditionalSource + Expansion(token, param);
        } else {
          conditionalSource := conditionalSource + token;
        }
        last := stream.Shift();
      }
    }
    return Absent;
  }

  // ---- Which tokens a filter consumes ----

  function Depth(ts: seq<string>): int {
    if ts == [] then 0
    else (if ts[0] == "[" then 1 else if ts[0] == "]" then -1 else 0) + Depth(ts[1..])
  }

  /** The first `k` tokens are a bracket-balanced block that stays open until its last token. */
  predicate IsBlock(tokens: seq<string>, k: nat) {
    && 0 < k <= |tokens| && tokens[0] == "["
    && Depth(tokens[..k]) == 0
    && forall j :: 0 < j < k ==> Depth(tokens[..j]) > 0
  }

  /** The same for the tokens after an opening bracket, with `depth` brackets still open. */
  predicate ClosesAt(tokens: seq<string>, depth: nat, k: nat) {
    && 0 < k <= |tokens|
    && depth + Depth(tokens[..k]) == 0
    && forall j :: 0 <= j < k ==> depth + Depth(tokens[..j]) > 0
  }

  function Rewritten(ts: seq<string>, last: Option<string>, param: string): string {
    if ts == [] then "" else Piece(ts[0], last, param) + Rewritten(ts[1..], Some(ts[0]), param)
  }

  /** The generated source: the text inside the brackets rewritten, `true` when there is none. */
  function SourceOf(ts: seq<string>, param: string): string {
    Header(param) + (if ts == [] then "true" else Rewritten(ts, None, param)) + FOOTER
  }

  lemma DepthHead(tokens: seq<string>, j: nat)
    requires 0 < j <= |tokens|
    ensures Depth(tokens[..j]) == Depth([tokens[0]]) + Depth(tokens[1..][..j - 1])
  {
    assert tokens[..j][1..] == tokens[1..][..j - 1];
    assert [tokens[0]][1..] == [];
  }

  lemma ClosesAtTail(tokens: seq<string>, depth: nat, k: nat, depth': nat)
    requires tokens != [] && depth > 0 && depth' == depth + Depth([tokens[0]]) && depth' > 0
    ensures k > 0 ==> (ClosesAt(tokens, depth, k) <==> ClosesAt(tokens[1..], depth', k - 1))
  {
    if 0 < k <= |tokens| {
      assert tokens[1..][..0] == [];
      forall j | 0 < j <= k ensures Depth(tokens[..j]) == Depth([tokens[0]]) + Depth(tokens[1..][..j - 1]) {
        DepthHead(tokens, j);
      }
      if ClosesAt(tokens, depth, k) {
        forall j | 0 <= j < k - 1 ensures depth' + Depth(tokens[1..][..j]) > 0 {
          assert depth + Depth(tokens[..j + 1]) > 0;
        }
      }
      if ClosesAt(tokens[1..], depth', k - 1) {
        forall j | 0 <= j < k ensures depth + Depth(tokens[..j]) > 0 {
          if j > 0 {
            assert depth' + Depth(tokens[1..][..j - 1]) > 0;
          }
        }
      }
    }
  }

  lemma RewrittenHead(tokens: seq<string>, last: Option<string>, source: string, param: string, j: nat)
    requires 0 < j <= |tokens|
    ensures source + Rewritten(tokens[..j], last, param)
         == source + Piece(tokens[0], last, param) + Rewritten(tokens[1..][..j - 1], Some(tokens[0]), param)
  {
    assert tokens[..j][1..] == tokens[1..][..j - 1];
  }

  lemma {:induction false} ScanIsBlock(tokens: seq<string>, depth: nat, last: Option<string>, source: string,
                                       param: string, k: nat)
    requires depth > 0
    ensures var s := ScanFilter(tokens, depth, last, source, param);
            ClosesAt(tokens, depth, k) <==> s.Closed? && k == |tokens| - |s.rest| && k > 0
    ensures var s := ScanFilter(tokens, depth, last, source, param);
            ClosesAt(tokens, depth, k) ==>
              && s.rest == tokens[k..]
              && s.source == source + Rewritten(tokens[..k - 1], last, param)
                             + (if k == 1 && last.None? then "true" else "") + FOOTER
    decreases |tokens|
  {
    if tokens != [] {
      assert Depth([tokens[0]]) == if tokens[0] == "[" then 1 else if tokens[0] == "]" then -1 else 0 by {
        assert [tokens[0]][1..] == [];
      }
      if tokens[0] == "]" && depth == 1 {
        DepthHead(tokens, 1);
        assert tokens[1..][..0] == [];
        assert tokens[..0] == [];
        assert ClosesAt(tokens, depth, k) ==> k == 1;
      } else {
        var depth' := if tokens[0] == "]" then depth - 1 else if tokens[0] == "[" then depth + 1 else depth;
        var source' := source + Piece(tokens[0], last, param);
        ClosesAtTail(tokens, depth, k, depth');
        ScanShrinks(tokens[1..], depth', Some(tokens[0]), source', param);
        if k > 0 {
          ScanIsBlock(tokens[1..], depth', Some(tokens[0]), source', param, k - 1);
          if 1 < k <= |tokens| {
            RewrittenHead(tokens, last, source, param, k - 1);
          }
        }
      }
    }
  }

  /**
    A filter is generated (or rejected by the evaluator) exactly when the tokens start with a
    bracket-balanced block whose depth stays positive until its last token; it then consumes that
    block and nothing else.  A filter that never closes consumes everything and yields nothing.
   */
  lemma FilterConsumesBlock(tokens: seq<string>, param: string, compiles: string -> bool, k: nat)
    requires tokens != [] && tokens[0] == "["
    ensures IsBlock(tokens, k) <==> !ConditionalOf(tokens, param, compiles).Absent?
                                    && k == |tokens| - |AfterConditional(tokens, param)|
    ensures IsBlock(tokens, k) ==>
              && k >= 2
              && AfterConditional(tokens, param) == tokens[k..]
              && ConditionalOf(tokens, param, compiles) ==
                 var source := SourceOf(tokens[1..k - 1], param);
                 if compiles(source) then Generated(source) else Rejected(source)
    ensures ConditionalOf(tokens, param, compiles).Absent? ==> AfterConditional(tokens, param) == []
  {
    var inner := tokens[1..];
    ScanShrinks(inner, 1, None, Header(param), param);
    if k > 0 {
      ScanIsBlock(inner, 1, None, Header(param), param, k - 1);
      BlockInside(tokens, k);
      if 1 < k <= |tokens| {
        assert inner[..k - 2] == tokens[1..k - 1];
        if k == 2 {
          assert Rewritten(inner[..0], None, param) == "" && Header(param) + "" == Header(param);
        } else {
          assert forall s: string :: s + "" == s;
        }
        assert inner[k - 1..] == tokens[k..];
      }
    }
  }

  lemma BlockInside(tokens: seq<string>, k: nat)
    requires tokens != [] && tokens[0] == "[" && k > 0
    ensures IsBlock(tokens, k) <==> ClosesAt(tokens[1..], 1, k - 1)
  {
    assert Depth([tokens[0]]) == 1 by { assert [tokens[0]][1..] == []; }
    assert tokens[1..][..0] == [];
    if k <= |tokens| {
      forall j | 0 < j <= k ensures Depth(tokens[..j]) == 1 + Depth(tokens[1..][..j - 1]) {
        DepthHead(tokens, j);
      }
      if IsBlock(tokens, k) {
        forall j | 0 <= j < k - 1 ensures 1 + Depth(tokens[1..][..j]) > 0 {
          assert Depth(tokens[..j + 1]) > 0;
        }
      }
      if ClosesAt(tokens[1..], 1, k - 1) {
        forall j | 0 < j < k ensures Depth(tokens[..j]) > 0 {
          assert 1 + Depth(tokens[1..][..j - 1]) > 0;
        }
      }
    }
  }

  // ---- The rewriting can be undone from its text ----

  function Access(holder: string, token: string): seq<string> {
    ["(", holder, ".", token, ")"]
  }

  function ExpansionTokens(token: string, param: string): (ts: seq<string>)
    ensures |ts| == 23
  {
    ["("] + Access(param, token) + [" ", "?", " "] + Access(param, token) + [" ", ":", " "]
    + Access("window", token) + [")"]
  }

  function RewriteTokens(ts: seq<string>, last: Option<string>, param: string): seq<string> {
    if ts == [] then []
    else
      (if IsPossibleRelativeReference(ts[0], last, param) then ExpansionTokens(ts[0], param) else [ts[0]])
      + RewriteTokens(ts[1..], Some(ts[0]), param)
  }

  function EraseTokens(ts: seq<string>, param: string): seq<string> {
    if ts == [] then []
    else if |ts| >= 23 && ts[..23] == ExpansionTokens(ts[4], param) then [ts[4]] + EraseTokens(ts[23..], param)
    else [ts[0]] + EraseTokens(ts[1..], param)
  }

  /** Undo the rewriting on the text alone: tokenize it and fold every generated lookup back. */
  function Erase(text: string, param: string): string {
    Flatten(EraseTokens(Tokens(text), param))
  }

  predicate IsParameterName(param: string) {
    IsSymbol(param) && param != "window"
  }

  lemma Flatten5(a: string, b: string, c: string, d: string, e: string)
    ensures Flatten([a, b, c, d, e]) == a + b + c + d + e
  {
    Flatten3(c, d, e);
    assert [a, b, c, d, e][1..][1..] == [c, d, e];
    assert a + (b + (c + d + e)) == a + b + c + d + e;
  }

  lemma Flatten3(a: string, b: string, c: string)
    ensures Flatten([a, b, c]) == a + b + c
  {
    Flatten1(c);
    assert [a, b, c][1..] == [b, c] && [b, c][1..] == [c];
    assert Flatten([b, c]) == b + c;
    assert a + (b + c) == a + b + c;
  }

  lemma Flatten1(a: string)
    ensures Flatten([a]) == a
  {
    assert [a][1..] == [];
  }

  lemma FlattenExpansion(token: string, param: string)
    ensures Flatten(ExpansionTokens(token, param)) == Expansion(token, param)
  {
    Flatten5("(", param, ".", token, ")");
    Flatten5("(", "window", ".", token, ")");
    Flatten3(" ", "?", " ");
    Flatten3(" ", ":", " ");
    Flatten1("(");
    Flatten1(")");
    var a, w := Access(param, token), Access("window", token);
    FlattenAppend(["("], a);
    FlattenAppend(["("] + a, [" ", "?", " "]);
    FlattenAppend(["("] + a + [" ", "?", " "], a);
    FlattenAppend(["("] + a + [" ", "?", " "] + a, [" ", ":", " "]);
    FlattenAppend(["("] + a + [" ", "?", " "] + a + [" ", ":", " "], w);
    FlattenAppend(["("] + a + [" ", "?", " "] + a + [" ", ":", " "] + w, [")"]);
  }

  lemma {:induction false} FlattenRewrite(ts: seq<string>, last: Option<string>, param: string)
    ensures Flatten(RewriteTokens(ts, last, param)) == Rewritten(ts, last, param)
  {
    if ts != [] {
      FlattenRewrite(ts[1..], Some(ts[0]), param);
      Flatten1(ts[0]);
      FlattenExpansion(ts[0], param);
      var head := if IsPossibleRelativeReference(ts[0], last, param) then ExpansionTokens(ts[0], param) else [ts[0]];
      FlattenAppend(head, RewriteTokens(ts[1..], Some(ts[0]), param));
    }
  }

  lemma LexesAccess(holder: string, token: string)
    requires IsSymbol(token) && IsSymbol(holder)
    ensures Lexes(Access(holder, token))
  {
  }

  lemma LexesExpansion(token: string, param: string)
    requires IsSymbol(token) && IsSymbol(param)
    ensures Lexes(ExpansionTokens(token, param))
  {
    assert IsSymbol("window");
    var a, w := Access(param, token), Access("window", token);
    LexesAccess(param, token);
    LexesAccess("window", token);
    LexesAppend(["("], a);
    LexesAppend(["("] + a, [" ", "?", " "]);
    LexesAppend(["("] + a + [" ", "?", " "], a);
    LexesAppend(["("] + a + [" ", "?", " "] + a, [" ", ":", " "]);
    LexesAppend(["("] + a + [" ", "?", " "] + a + [" ", ":", " "], w);
    LexesAppend(["("] + a + [" ", "?", " "] + a + [" ", ":", " "] + w, [")"]);
  }

  lemma {:induction false} LexesRewrite(ts: seq<string>, last: Option<string>, param: string)
    requires Lexes(ts) && IsSymbol(param)
    ensures Lexes(RewriteTokens(ts, last, param))
    ensures ts != [] ==> var r := RewriteTokens(ts, last, param)[0][0]; r == ts[0][0] || r == '('
  {
    if ts != [] {
      var rest := RewriteTokens(ts[1..], Some(ts[0]), param);
      LexesSplit(ts, 1);
      LexesRewrite(ts[1..], Some(ts[0]), param);
      assert |ts| > 1 ==> EndsBefore(ts[0], ts[1][0]);
      if IsPossibleRelativeReference(ts[0], last, param) {
        LexesExpansion(ts[0], param);
        LexesAppend(ExpansionTokens(ts[0], param), rest);
      } else {
        LexesAppend([ts[0]], rest);
      }
    }
  }

  predicate IsRaw(ts: seq<string>, last: Option<string>, param: string, j: nat)
    requires j < |ts|
  {
    !IsPossibleRelativeReference(ts[j], if j == 0 then last else Some(ts[j - 1]), param)
  }

  lemma {:induction false} RewriteRawPrefix(ts: seq<string>, last: Option<string>, param: string, n: nat)
    requires n <= |ts| && forall j :: 0 <= j < n ==> IsRaw(ts, last, param, j)
    ensures RewriteTokens(ts, last, param)
         == ts[..n] + RewriteTokens(ts[n..], if n == 0 then last else Some(ts[n - 1]), param)
  {
    if n == 0 {
      assert ts[..0] + RewriteTokens(ts, last, param) == RewriteTokens(ts, last, param) && ts[0..] == ts;
    } else {
      RawTail(ts, last, param, n);
      RewriteRawPrefix(ts[1..], Some(ts[0]), param, n - 1);
      TakeMore(ts, n, RewriteTokens(ts[n..], Some(ts[n - 1]), param));
    }
  }

  lemma TakeMore(ts: seq<string>, n: nat, more: seq<string>)
    requires 0 < n <= |ts|
    ensures ts[1..][n - 1..] == ts[n..] && (n > 1 ==> ts[1..][n - 2] == ts[n - 1])
    ensures [ts[0]] + (ts[1..][..n - 1] + more) == ts[..n] + more
  {
    assert [ts[0]] + ts[1..][..n - 1] == ts[..n];
  }

  lemma RawTail(ts: seq<string>, last: Option<string>, param: string, n: nat)
    requires 0 < n <= |ts| && forall j :: 0 <= j < n ==> IsRaw(ts, last, param, j)
    ensures RewriteTokens(ts, last, param) == [ts[0]] + RewriteTokens(ts[1..], Some(ts[0]), param)
    ensures forall j :: 0 <= j < n - 1 ==> IsRaw(ts[1..], Some(ts[0]), param, j)
  {
    assert IsRaw(ts, last, param, 0);
    forall j | 0 <= j < n - 1 ensures IsRaw(ts[1..], Some(ts[0]), param, j) {
      assert IsRaw(ts, last, param, j + 1);
    }
  }

  lemma RewriteHead(ts: seq<string>, last: Option<string>, param: string)
    requires ts != []
    ensures var r := RewriteTokens(ts, last, param);
            if IsRaw(ts, last, param, 0) then r[0] == ts[0] else |r| > 1 && r[0] == "(" && r[1] == "("
  {
  }

  /** Copied tokens that look like a generated lookup would have to copy `window` after `(`. */
  lemma {:induction false} LookalikeIsRaw(ts: seq<string>, last: Option<string>, param: string, x: string, n: nat)
    requires ts != [] && IsRaw(ts, last, param, 0) && IsParameterName(param) && 0 < n <= 19
    requires ExpansionTokens(x, param) <= RewriteTokens(ts, last, param)
    ensures n <= |ts| && (forall j :: 0 <= j < n ==> IsRaw(ts, last, param, j))
    ensures forall j :: 0 <= j < n ==> ts[j] == ExpansionTokens(x, param)[j]
  {
    var r, e := RewriteTokens(ts, last, param), ExpansionTokens(x, param);
    var m := n - 1;
    if m > 0 {
      LookalikeIsRaw(ts, last, param, x, m);
    }
    if m > 0 {
      assert !(e[m] == "(" && e[m + 1] == "(");
      NextIsRaw(ts, last, param, e, m);
    } else {
      RewriteHead(ts, last, param);
      assert r[0] == e[0];
    }
  }

  /** A rewritten token starts with two brackets: where the result has no such pair, the token was copied. */
  lemma NextIsRaw(ts: seq<string>, last: Option<string>, param: string, e: seq<string>, m: nat)
    requires 0 < m <= |ts| && m + 1 < |e| && e <= RewriteTokens(ts, last, param)
    requires forall j :: 0 <= j < m ==> IsRaw(ts, last, param, j)
    requires !(e[m] == "(" && e[m + 1] == "(")
    ensures m < |ts| && IsRaw(ts, last, param, m) && ts[m] == e[m]
  {
    var r := RewriteTokens(ts, last, param);
    RewriteRawPrefix(ts, last, param, m);
    var tail := RewriteTokens(ts[m..], Some(ts[m - 1]), param);
    assert r == ts[..m] + tail;
    assert tail[0] == r[m] == e[m] && tail[1] == r[m + 1] == e[m + 1];
    RewriteHead(ts[m..], Some(ts[m - 1]), param);
  }

  lemma WindowIsRewritten(ts: seq<string>, last: Option<string>, param: string)
    requires |ts| > 18 && ts[17] == "(" && ts[18] == "window" && param != "window"
    ensures !IsRaw(ts, last, param, 18)
  {
  }

  lemma NotLookalike(ts: seq<string>, last: Option<string>, param: string)
    requires ts != [] && IsRaw(ts, last, param, 0) && IsParameterName(param)
    ensures var r := RewriteTokens(ts, last, param);
            |r| >= 23 ==> r[..23] != ExpansionTokens(r[4], param)
  {
    var r := RewriteTokens(ts, last, param);
    if |r| >= 23 && r[..23] == ExpansionTokens(r[4], param) {
      LookalikeIsRaw(ts, last, param, r[4], 19);
      WindowIsRewritten(ts, last, param);
      assert false;
    }
  }

  lemma EraseExpansion(token: string, rest: seq<string>, param: string)
    ensures EraseTokens(ExpansionTokens(token, param) + rest, param) == [token] + EraseTokens(rest, param)
  {
    var e := ExpansionTokens(token, param);
    var r := e + rest;
    assert r[..23] == e && r[23..] == rest && r[4] == e[4] == token;
  }

  lemma EraseOther(token: string, rest: seq<string>, param: string)
    requires var r := [token] + rest; |r| >= 23 ==> r[..23] != ExpansionTokens(r[4], param)
    ensures EraseTokens([token] + rest, param) == [token] + EraseTokens(rest, param)
  {
    assert ([token] + rest)[1..] == rest;
  }

  lemma {:induction false} EraseRewrite(ts: seq<string>, last: Option<string>, param: string)
    requires IsParameterName(param)
    ensures EraseTokens(RewriteTokens(ts, last, param), param) == ts
  {
    if ts != [] {
      var rest := RewriteTokens(ts[1..], Some(ts[0]), param);
      EraseRewrite(ts[1..], Some(ts[0]), param);
      if IsPossibleRelativeReference(ts[0], last, param) {
        EraseExpansion(ts[0], rest, param);
      } else {
        NotLookalike(ts, last, param);
        EraseOther(ts[0], rest, param);
      }
      assert [ts[0]] + ts[1..] == ts;
    }
  }

  /** Erasing every generated lookup from the rewritten text gives the filter's own text back. */
  lemma EraseUndoesRewriting(ts: seq<string>, last: Option<string>, param: string)
    requires Lexes(ts) && IsParameterName(param)
    ensures Erase(Rewritten(ts, last, param), param) == Flatten(ts)
  {
    LexesRewrite(ts, last, param);
    FlattenRewrite(ts, last, param);
    TokensUnique(Rewritten(ts, last, param), RewriteTokens(ts, last, param));
    EraseRewrite(ts, last, param);
  }

  lemma BodyOfSource(a: string, b: string, param: string)
    requires Header(param) + a + FOOTER == Header(param) + b + FOOTER
    ensures a == b
  {
    var h := Header(param);
    var s, t := h + a + FOOTER, h + b + FOOTER;
    assert |s| == |t|;
    assert a == s[|h|..|h| + |a|];
    assert b == t[|h|..|h| + |b|];
  }

  lemma RewrittenTrue(param: string)
    ensures Rewritten(["true"], None, param) == "true"
  {
    assert ["true"][1..] == [];
  }

  lemma RewrittenInjective(a: seq<string>, b: seq<string>, param: string)
    requires Lexes(a) && Lexes(b) && IsParameterName(param)
    requires Rewritten(a, None, param) == Rewritten(b, None, param)
    ensures a == b
  {
    EraseUndoesRewriting(a, None, param);
    EraseUndoesRewriting(b, None, param);
    TokensUnique(Flatten(a), a);
    TokensUnique(Flatten(b), b);
  }

  /**
    Two filters get the same generated source only if they are the same text; the one exception is
    the empty filter, which is compiled as `true`.
   */
  lemma SourceDeterminesFilter(a: seq<string>, b: seq<string>, param: string)
    requires Lexes(a) && Lexes(b) && IsParameterName(param)
    ensures SourceOf(a, param) == SourceOf(b, param) <==>
              a == b || (a == [] && b == ["true"]) || (a == ["true"] && b == [])
  {
    RewrittenTrue(param);
    if SourceOf(a, param) == SourceOf(b, param) {
      var a', b' := if a == [] then ["true"] else a, if b == [] then ["true"] else b;
      assert IsToken("true");
      BodyOfSource(Rewritten(a', None, param), Rewritten(b', None, param), param);
      RewrittenInjective(a', b', param);
    }
  }

  // ---- Which names are looked up ----

  predicate StartsName(token: string) {
    token != "" && (token[0] == '_' || token[0] == '$' || 'a' <= token[0] <= 'z' || 'A' <= token[0] <= 'Z')
  }

  /** The token is a name, none of the four that mean themselves, and no member of what is before it. */
  predicate IsLookedUp(ts: seq<string>, j: nat)
    requires j < |ts|
  {
    && StartsName(ts[j])
    && ts[j] != "true" && ts[j] != "false" && ts[j] != "this" && ts[j] != "event"
    && (j == 0 || ts[j - 1] != ".")
  }

  lemma {:induction false} RewrittenPieces(ts: seq<string>, last: Option<string>, param: string)
    returns (pieces: seq<string>)
    ensures |pieces| == |ts| && Flatten(pieces) == Rewritten(ts, last, param)
    ensures ts != [] ==> pieces[0] == Piece(ts[0], last, param)
    ensures forall j :: 0 < j < |ts| ==> pieces[j] == Piece(ts[j], Some(ts[j - 1]), param)
  {
    if ts == [] {
      pieces := [];
    } else {
      var rest := RewrittenPieces(ts[1..], Some(ts[0]), param);
      pieces := [Piece(ts[0], last, param)] + rest;
      assert pieces[1..] == rest;
      forall j | 0 < j < |ts| ensures pieces[j] == Piece(ts[j], Some(ts[j - 1]), param) {
        assert pieces[j] == rest[j - 1] && ts[1..][j - 1] == ts[j];
        if j > 1 {
          assert ts[1..][j - 2] == ts[j - 1];
          assert rest[j - 1] == Piece(ts[1..][j - 1], Some(ts[1..][j - 2]), param);
        }
      }
    }
  }

  /** `((event.name) ? (event.name) : (window.name))` */
  function LookedUp(name: string): string {
    var e, w := "event." + name, "window." + name;
    "((" + e + ") ? (" + e + ") : (" + w + "))"
  }

  lemma ExpansionText(t: string)
    ensures Expansion(t, "event") == LookedUp(t)
  {
    LookupText("event", t);
    LookupText("window", t);
    BracketsJoin("event." + t, "window." + t);
  }

  lemma LookupText(holder: string, t: string)
    ensures Lookup(holder, t) == "(" + (holder + "." + t) + ")"
    ensures "event" + "." + t == "event." + t && "window" + "." + t == "window." + t
  {
  }

  lemma BracketsJoin(e: string, w: string)
    ensures "(" + ("(" + e + ")") + " ? " + ("(" + e + ")") + " : " + ("(" + w + ")") + ")"
         == "((" + e + ") ? (" + e + ") : (" + w + "))"
  {
  }

  lemma PieceText(ts: seq<string>, j: nat)
    requires j < |ts|
    ensures Piece(ts[j], if j == 0 then None else Some(ts[j - 1]), "event") ==
              if IsLookedUp(ts, j) then LookedUp(ts[j]) else ts[j]
  {
    ExpansionText(ts[j]);
    var last := if j == 0 then None else Some(ts[j - 1]);
    assert IsPossibleRelativeReference(ts[j], last, "event") <==> IsLookedUp(ts, j);
  }

  /**
    The source of a filter, piece by piece: a name is looked up on the event first and on the window
    second, unless it is a literal, `this`, the event itself or behind a dot; every other token is copied.
   */
  lemma FilterLooksUp(ts: seq<string>, rest: seq<string>, compiles: string -> bool) returns (pieces: seq<string>)
    requires IsBlock(["["] + ts + ["]"] + rest, |ts| + 2)
    ensures |pieces| == |ts|
    ensures forall j :: 0 <= j < |ts| ==>
              pieces[j] == if IsLookedUp(ts, j) then LookedUp(ts[j]) else ts[j]
    ensures ConditionalOf(["["] + ts + ["]"] + rest, "event", compiles) ==
              var source := " return (function(event){ return ("
                            + (if ts == [] then "true" else Flatten(pieces)) + ")})";
              if compiles(source) then Generated(source) else Rejected(source)
  {
    var tokens := ["["] + ts + ["]"] + rest;
    FilterConsumesBlock(tokens, "event", compiles, |ts| + 2);
    assert tokens[1..|ts| + 1] == ts;
    pieces := RewrittenPieces(ts, None, "event");
    forall j | 0 <= j < |ts|
      ensures pieces[j] == if IsLookedUp(ts, j) then LookedUp(ts[j]) else ts[j]
    {
      PieceText(ts, j);
    }
    assert Header("event") == " return (function(event){ return (";
  }
}
