/**
  The destructive token stream of the hx-trigger parser: an array that the parser only ever
  shifts from, and the two helpers that consume a run of tokens.
 */
module TokenStreams {
  import opened Wrappers
  import opened TriggerTokens
  import opened Trimming

  /** The character classes the parser searches tokens for. */
  datatype Matcher = WhitespaceOrComma | NotWhitespace | NameEnd | SelectorStart | SelectorEnd {
    predicate Has(c: char) {
      match this
      case WhitespaceOrComma => IsSpace(c) || c == ','
      case NotWhitespace => !IsSpace(c)
      case NameEnd => IsSpace(c) || c == ',' || c == '['
      case SelectorStart => c == '{' || c == '('
      case SelectorEnd => c == '}' || c == ')'
    }

    /** `RegExp.test` is unanchored: one character of the class anywhere in the token is enough. */
    predicate Test(token: string) {
      exists i :: 0 <= i < |token| && Has(token[i])
    }
  }

  /** How many leading tokens come before the first one that `m` matches. */
  function Until(ts: seq<string>, m: Matcher): (k: nat)
    ensures k <= |ts|
    ensures forall i :: 0 <= i < k ==> !m.Test(ts[i])
    ensures k < |ts| ==> m.Test(ts[k])
  {
    if ts == [] || m.Test(ts[0]) then 0 else 1 + Until(ts[1..], m)
  }

  function Taken(ts: seq<string>, m: Matcher): string {
    Flatten(ts[..Until(ts, m)])
  }

  function Left(ts: seq<string>, m: Matcher): (rest: seq<string>)
    ensures |rest| <= |ts|
  {
    ts[Until(ts, m)..]
  }

  function Tail(ts: seq<string>): (rest: seq<string>)
    ensures |rest| <= |ts|
    ensures ts != [] ==> |rest| < |ts|
  {
    if ts == [] then [] else ts[1..]
  }

  predicate HeadTests(ts: seq<string>, m: Matcher) {
    ts != [] && m.Test(ts[0])
  }

  /** The text and the remaining tokens of `consumeCSSSelector`. */
  function SelectorText(ts: seq<string>): string {
    if HeadTests(ts, SelectorStart) then Trim(Taken(ts[1..], SelectorEnd), IsSpace) else Taken(ts, WhitespaceOrComma)
  }

  function AfterSelector(ts: seq<string>): (rest: seq<string>)
    ensures |rest| <= |ts|
  {
    if HeadTests(ts, SelectorStart) then Tail(Left(ts[1..], SelectorEnd)) else Left(ts, WhitespaceOrComma)
  }

  class TokenStream {
    var tokens: seq<string>

    constructor (ts: seq<string>)
      ensures tokens == ts
    {
      tokens := ts;
    }

    method Shift() returns (token: Option<string>)
      modifies this
      ensures token == if old(tokens) == [] then None else Some(old(tokens)[0])
      ensures tokens == Tail(old(tokens))
    {
      if tokens == [] {
        return None;
      }
      token := Some(tokens[0]);
      tokens := tokens[1..];
    }

    method ConsumeUntil(m: Matcher) returns (result: string)
      modifies this
      ensures result == Taken(old(tokens), m)
      ensures tokens == Left(old(tokens), m)
    {
      result := "";
      ghost var i := 0;
      while tokens != []
        invariant i <= |old(tokens)| && tokens == old(tokens)[i..]
        invariant i + Until(tokens, m) == Until(old(tokens), m)
        invariant result == Flatten(old(tokens)[..i])
        decreases |tokens|
      {
        if m.Test(tokens[0]) {
          break;
        }
        FlattenAppend(old(tokens)[..i], [tokens[0]]);
        assert old(tokens)[..i + 1] == old(tokens)[..i] + [tokens[0]];
        result := result + tokens[0];
        tokens := tokens[1..];
        i := i + 1;
      }
    }

    method ConsumeCSSSelector() returns (result: string)
      modifies this
      ensures result == SelectorText(old(tokens))
      ensures tokens == AfterSelector(old(tokens))
    {
      if tokens != [] && SelectorStart.Test(tokens[0]) {
        var _ := Shift();
        result := ConsumeUntil(SelectorEnd);
        result := Trim(result, IsSpace);
        var _ := Shift();
      } else {
        result := ConsumeUntil(WhitespaceOrComma);
      }
    }
  }

  // ---- What a run of tokens is, in terms of the text ----

  predicate NoneIn(s: string, m: Matcher) {
    forall i :: 0 <= i < |s| ==> !m.Has(s[i])
  }

  /** A text none of whose characters is in the class has no token that matches it. */
  lemma {:induction false} NoTokenMatches(ts: seq<string>, m: Matcher, rest: seq<string>)
    requires NoneIn(Flatten(ts), m)
    requires rest != [] ==> m.Test(rest[0])
    ensures Until(ts + rest, m) == |ts|
    ensures Taken(ts + rest, m) == Flatten(ts) && Left(ts + rest, m) == rest
  {
    if ts == [] {
      assert ts + rest == rest;
    } else {
      var s := Flatten(ts);
      assert s == ts[0] + Flatten(ts[1..]);
      assert forall i :: 0 <= i < |ts[0]| ==> ts[0][i] == s[i];
      assert forall i :: 0 <= i < |Flatten(ts[1..])| ==> Flatten(ts[1..])[i] == s[|ts[0]| + i];
      NoTokenMatches(ts[1..], m, rest);
      assert (ts + rest)[1..] == ts[1..] + rest;
    }
    assert (ts + rest)[..|ts|] == ts;
    assert (ts + rest)[|ts|..] == rest;
  }
}
