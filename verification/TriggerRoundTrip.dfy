/**
  Printing and parsing triggers.

  A `TriggerText` is a trigger as an author writes it; `Print` is its text and `Meaning` the
  specification it stands for.  Every list of canonical triggers parses back to its meanings, with
  no error reported.
 */
module TriggerRoundTrip {
  import opened Wrappers
  import opened TriggerTokens
  import opened Trimming
  import opened TokenStreams
  import opened TriggerFilter
  import opened TriggerParsers

  datatype Selector = Simple(text: string) | Braced(text: string)

  datatype EventSource = Plain(selector: Selector) | Relative(keyword: string, selector: Selector)

  datatype Modifier =
    | Changed | Once | Consume
    | Delay(interval: string) | Throttle(interval: string)
    | From(source: EventSource)
    | Target(selector: Selector) | Root(selector: Selector)
    | Queue(text: string) | Threshold(text: string)

  /** `filter` is the text between the brackets. */
  datatype TriggerText =
    | Every(interval: string, filter: Option<string>)
    | On(name: string, filter: Option<string>, modifiers: seq<Modifier>)

  // ---- The text ----

  function PrintSelector(s: Selector): string {
    match s
    case Simple(text) => text
    case Braced(text) => "{" + text + "}"
  }

  function PrintSource(s: EventSource): string {
    match s
    case Plain(selector) => PrintSelector(selector)
    case Relative(keyword, selector) => keyword + (" " + PrintSelector(selector))
  }

  function Keyword(m: Modifier): string {
    match m
    case Changed => "changed"
    case Once => "once"
    case Consume => "consume"
    case Delay(_) => "delay"
    case Throttle(_) => "throttle"
    case From(_) => "from"
    case Target(_) => "target"
    case Root(_) => "root"
    case Queue(_) => "queue"
    case Threshold(_) => "threshold"
  }

  predicate HasArgument(m: Modifier) {
    !m.Changed? && !m.Once? && !m.Consume?
  }

  function PrintArgument(m: Modifier): string {
    match m
    case Delay(t) => t
    case Throttle(t) => t
    case From(s) => PrintSource(s)
    case Target(s) => PrintSelector(s)
    case Root(s) => PrintSelector(s)
    case Queue(t) => t
    case Threshold(t) => t
    case _ => ""
  }

  function PrintModifier(m: Modifier): string {
    if HasArgument(m) then Keyword(m) + (":" + PrintArgument(m)) else Keyword(m)
  }

  function PrintModifiers(ms: seq<Modifier>): string {
    if ms == [] then "" else " " + (PrintModifier(ms[0]) + PrintModifiers(ms[1..]))
  }

  function PrintFilter(f: Option<string>): string {
    if f.None? then "" else "[" + (f.value + "]")
  }

  function PrintTrigger(t: TriggerText): string {
    match t
    case Every(interval, filter) =>
      "every" + (" " + (interval + (if filter.None? then "" else " " + PrintFilter(filter))))
    case On(name, filter, modifiers) => name + (PrintFilter(filter) + PrintModifiers(modifiers))
  }

  function Print(ts: seq<TriggerText>): string {
    if ts == [] then ""
    else if |ts| == 1 then PrintTrigger(ts[0])
    else PrintTrigger(ts[0]) + ("," + Print(ts[1..]))
  }

  // ---- The meaning ----

  function SourceValue(s: EventSource): string {
    match s
    case Plain(selector) => selector.text
    case Relative(keyword, selector) => if |selector.text| > 0 then keyword + " " + selector.text else keyword
  }

  function Apply(d: Deps, spec: TriggerSpec, m: Modifier): TriggerSpec {
    match m
    case Changed => spec.(changed := true)
    case Once => spec.(once := true)
    case Consume => spec.(consume := true)
    case Delay(t) => spec.(delay := d.parseInterval(t))
    case Throttle(t) => spec.(throttle := d.parseInterval(t))
    case From(s) => spec.(from := Some(SourceValue(s)))
    case Target(s) => spec.(target := Some(s.text))
    case Root(s) => spec.(root := Some(s.text))
    case Queue(t) => spec.(queue := Some(t))
    case Threshold(t) => spec.(threshold := Some(t))
  }

  /** Later modifiers overwrite earlier ones. */
  function ApplyAll(d: Deps, spec: TriggerSpec, ms: seq<Modifier>): TriggerSpec
    decreases |ms|
  {
    if ms == [] then spec else ApplyAll(d, Apply(d, spec, ms[0]), ms[1..])
  }

  function FilterSource(f: Option<string>): Option<string> {
    if f.None? then None else Some(SourceOf(Tokens(f.value), PARAM))
  }

  function Meaning(d: Deps, t: TriggerText): TriggerSpec {
    match t
    case Every(interval, filter) =>
      TriggerSpec("every", eventFilter := FilterSource(filter), pollInterval := d.parseInterval(interval))
    case On(name, filter, modifiers) =>
      ApplyAll(d, TriggerSpec(name, eventFilter := FilterSource(filter)), modifiers)
  }

  function Meanings(d: Deps, ts: seq<TriggerText>): seq<TriggerSpec> {
    if ts == [] then [] else [Meaning(d, ts[0])] + Meanings(d, ts[1..])
  }

  // ---- Canonical form ----

  /** The token list of `s` does not end in an unterminated literal. */
  predicate Sealed(ts: seq<string>) {
    ts != [] ==> !IsOpenLiteral(ts[|ts| - 1])
  }

  /** No literal of `s` is left open and no character of `s` is in the class. */
  predicate IsWord(s: string, m: Matcher) {
    NoneIn(s, m) && Sealed(Tokens(s))
  }

  predicate IsSelector(s: Selector) {
    match s
    case Simple(text) => IsWord(text, WhitespaceOrComma) && !HeadTests(Tokens(text), SelectorStart)
    case Braced(text) => IsWord(text, SelectorEnd) && IsTrimmed(text, IsSpace)
  }

  predicate IsSource(s: EventSource) {
    match s
    case Plain(selector) => IsSelector(selector) && (selector.Simple? ==> !IsRelativeKeyword(selector.text))
    case Relative(keyword, selector) => IsRelativeKeyword(keyword) && IsSelector(selector)
  }

  predicate IsModifier(m: Modifier) {
    match m
    case From(s) => IsSource(s)
    case Target(s) => IsSelector(s)
    case Root(s) => IsSelector(s)
    case _ => IsWord(PrintArgument(m), WhitespaceOrComma)
  }

  /** The brackets of the text balance, and its source is accepted by the evaluator. */
  predicate IsFilter(d: Deps, f: Option<string>) {
    f.Some? ==>
      && Sealed(Tokens(f.value))
      && IsBlock(["["] + Tokens(f.value) + ["]"], |Tokens(f.value)| + 2)
      && d.compiles(SourceOf(Tokens(f.value), PARAM))
  }

  predicate IsTrigger(d: Deps, t: TriggerText) {
    match t
    case Every(interval, filter) => IsWord(interval, NameEnd) && IsFilter(d, filter)
    case On(name, filter, modifiers) =>
      && name != "" && name != "every" && IsWord(name, NameEnd) && IsFilter(d, filter)
      && forall i :: 0 <= i < |modifiers| ==> IsModifier(modifiers[i])
  }

  // ---- The tokens of the text ----

  function SelectorTokens(s: Selector): seq<string> {
    match s
    case Simple(text) => Tokens(text)
    case Braced(text) => ["{"] + (Tokens(text) + ["}"])
  }

  function SourceTokens(s: EventSource): seq<string> {
    match s
    case Plain(selector) => SelectorTokens(selector)
    case Relative(keyword, selector) => [keyword] + ([" "] + SelectorTokens(selector))
  }

  function ArgumentTokens(m: Modifier): seq<string> {
    match m
    case From(s) => SourceTokens(s)
    case Target(s) => SelectorTokens(s)
    case Root(s) => SelectorTokens(s)
    case _ => Tokens(PrintArgument(m))
  }

  function ModifierTokens(m: Modifier): seq<string> {
    if HasArgument(m) then [Keyword(m)] + ([":"] + ArgumentTokens(m)) else [Keyword(m)]
  }

  function ModifiersTokens(ms: seq<Modifier>): seq<string> {
    if ms == [] then [] else [" "] + (ModifierTokens(ms[0]) + ModifiersTokens(ms[1..]))
  }

  function FilterTokens(f: Option<string>): seq<string> {
    if f.None? then [] else ["["] + (Tokens(f.value) + ["]"])
  }

  function TriggerTextTokens(t: TriggerText): seq<string> {
    match t
    case Every(interval, filter) =>
      ["every"] + ([" "] + (Tokens(interval) + (if filter.None? then [] else [" "] + FilterTokens(filter))))
    case On(name, filter, modifiers) => Tokens(name) + (FilterTokens(filter) + ModifiersTokens(modifiers))
  }

  function ListTokens(ts: seq<TriggerText>): seq<string> {
    if ts == [] then []
    else if |ts| == 1 then TriggerTextTokens(ts[0])
    else TriggerTextTokens(ts[0]) + ([","] + ListTokens(ts[1..]))
  }

  /** `ts` are the tokens of the text `s`, and no literal is left open at its end. */
  predicate Prints(ts: seq<string>, s: string) {
    Lexes(ts) && Flatten(ts) == s && Sealed(ts)
  }

  /** The text ends a token before it: it is empty or starts with no symbol character. */
  predicate StartsFresh(ts: seq<string>) {
    ts != [] ==> ts[0] != "" && !IsSymbolCont(ts[0][0])
  }

  predicate EndsClean(ts: seq<string>) {
    ts != [] ==> IsPunctuation(ts[|ts| - 1])
  }

  lemma PrintsAppend(a: seq<string>, s: string, b: seq<string>, t: string)
    requires Prints(a, s) && Prints(b, t) && (StartsFresh(b) || EndsClean(a))
    ensures Prints(a + b, s + t)
  {
    FlattenAppend(a, b);
    LexesAppend(a, b);
    if b == [] {
      assert a + b == a;
    } else {
      assert (a + b)[|a + b| - 1] == b[|b| - 1];
    }
  }

  lemma PrintsToken(t: string)
    requires IsSymbol(t) || IsPunctuation(t)
    ensures Prints([t], t)
  {
    assert [t][1..] == [];
  }

  lemma PrintsTokens(s: string)
    requires Sealed(Tokens(s))
    ensures Prints(Tokens(s), s)
  {
    TokensUnique(s, Tokens(s));
  }

  lemma SelectorPrints(s: Selector)
    requires IsSelector(s)
    ensures Prints(SelectorTokens(s), PrintSelector(s))
  {
    PrintsTokens(s.text);
    if s.Braced? {
      PrintsToken("{");
      PrintsToken("}");
      PrintsAppend(Tokens(s.text), s.text, ["}"], "}");
      PrintsAppend(["{"], "{", Tokens(s.text) + ["}"], s.text + "}");
    }
  }

  lemma SourcePrints(s: EventSource)
    requires IsSource(s)
    ensures Prints(SourceTokens(s), PrintSource(s))
  {
    SelectorPrints(s.selector);
    if s.Relative? {
      PrintsToken(s.keyword);
      PrintsToken(" ");
      PrintsAppend([" "], " ", SelectorTokens(s.selector), PrintSelector(s.selector));
      PrintsAppend([s.keyword], s.keyword, [" "] + SelectorTokens(s.selector), " " + PrintSelector(s.selector));
    }
  }

  lemma ArgumentPrints(m: Modifier)
    requires IsModifier(m)
    ensures Prints(ArgumentTokens(m), PrintArgument(m))
  {
    match m
    case From(s) => SourcePrints(s);
    case Target(s) => SelectorPrints(s);
    case Root(s) => SelectorPrints(s);
    case _ => PrintsTokens(PrintArgument(m));
  }

  lemma ModifierPrints(m: Modifier)
    requires IsModifier(m)
    ensures Prints(ModifierTokens(m), PrintModifier(m))
  {
    var k := Keyword(m);
    assert IsSymbol(k);
    PrintsToken(k);
    if HasArgument(m) {
      ArgumentPrints(m);
      ColonPrints(k, ArgumentTokens(m), PrintArgument(m));
    }
  }

  lemma ColonPrints(k: string, ts: seq<string>, s: string)
    requires IsSymbol(k) && Prints(ts, s)
    ensures Prints([k] + ([":"] + ts), k + (":" + s))
  {
    PrintsToken(k);
    PrintsToken(":");
    PrintsAppend([":"], ":", ts, s);
    PrintsAppend([k], k, [":"] + ts, ":" + s);
  }

  lemma {:induction false} ModifiersPrint(ms: seq<Modifier>)
    requires forall i :: 0 <= i < |ms| ==> IsModifier(ms[i])
    ensures Prints(ModifiersTokens(ms), PrintModifiers(ms)) && StartsFresh(ModifiersTokens(ms))
  {
    if ms != [] {
      var t, rest := ModifierTokens(ms[0]), ModifiersTokens(ms[1..]);
      ModifierPrints(ms[0]);
      ModifiersPrint(ms[1..]);
      PrintsAppend(t, PrintModifier(ms[0]), rest, PrintModifiers(ms[1..]));
      PrintsToken(" ");
      PrintsAppend([" "], " ", t + rest, PrintModifier(ms[0]) + PrintModifiers(ms[1..]));
    }
  }

  lemma FilterPrints(d: Deps, f: Option<string>)
    requires IsFilter(d, f)
    ensures Prints(FilterTokens(f), PrintFilter(f)) && StartsFresh(FilterTokens(f)) && EndsClean(FilterTokens(f))
  {
    if f.Some? {
      PrintsTokens(f.value);
      PrintsToken("[");
      PrintsToken("]");
      PrintsAppend(Tokens(f.value), f.value, ["]"], "]");
      PrintsAppend(["["], "[", Tokens(f.value) + ["]"], f.value + "]");
    }
  }

  lemma TriggerPrints(d: Deps, t: TriggerText)
    requires IsTrigger(d, t)
    ensures Prints(TriggerTextTokens(t), PrintTrigger(t))
  {
    FilterPrints(d, t.filter);
    match t
    case Every(interval, filter) => EveryPrints(interval, filter);
    case On(name, filter, modifiers) =>
      ModifiersPrint(modifiers);
      OnPrints(name, FilterTokens(filter), PrintFilter(filter), ModifiersTokens(modifiers), PrintModifiers(modifiers));
  }

  lemma OnPrints(name: string, f: seq<string>, fs: string, m: seq<string>, ms: string)
    requires Sealed(Tokens(name)) && Prints(f, fs) && Prints(m, ms) && StartsFresh(f) && StartsFresh(m)
    ensures Prints(Tokens(name) + (f + m), name + (fs + ms))
  {
    PrintsTokens(name);
    PrintsAppend(f, fs, m, ms);
    assert StartsFresh(f + m);
    PrintsAppend(Tokens(name), name, f + m, fs + ms);
  }

  lemma EveryPrints(interval: string, filter: Option<string>)
    requires Sealed(Tokens(interval)) && Prints(FilterTokens(filter), PrintFilter(filter))
               && StartsFresh(FilterTokens(filter))
    ensures Prints(TriggerTextTokens(Every(interval, filter)), PrintTrigger(Every(interval, filter)))
  {
    if filter.None? {
      assert Prints([], "") && StartsFresh([]);
      PollingPrints(interval, [], "");
    } else {
      SpacePrints(FilterTokens(filter), PrintFilter(filter));
      PollingPrints(interval, [" "] + FilterTokens(filter), " " + PrintFilter(filter));
    }
  }

  lemma SpacePrints(ts: seq<string>, s: string)
    requires Prints(ts, s) && StartsFresh(ts)
    ensures Prints([" "] + ts, " " + s) && StartsFresh([" "] + ts)
  {
    PrintsToken(" ");
    PrintsAppend([" "], " ", ts, s);
  }

  lemma PollingPrints(interval: string, ft: seq<string>, fs: string)
    requires Sealed(Tokens(interval)) && Prints(ft, fs) && StartsFresh(ft)
    ensures Prints(["every"] + ([" "] + (Tokens(interval) + ft)), "every" + (" " + (interval + fs)))
  {
    PrintsToken(" ");
    PrintsToken("every");
    PrintsTokens(interval);
    PrintsAppend(Tokens(interval), interval, ft, fs);
    PrintsAppend([" "], " ", Tokens(interval) + ft, interval + fs);
    PrintsAppend(["every"], "every", [" "] + (Tokens(interval) + ft), " " + (interval + fs));
  }

  lemma {:induction false} ListPrints(d: Deps, ts: seq<TriggerText>)
    requires forall i :: 0 <= i < |ts| ==> IsTrigger(d, ts[i])
    ensures Prints(ListTokens(ts), Print(ts))
  {
    if ts != [] {
      TriggerPrints(d, ts[0]);
      if |ts| > 1 {
        ListPrints(d, ts[1..]);
        CommaPrints(TriggerTextTokens(ts[0]), PrintTrigger(ts[0]), ListTokens(ts[1..]), Print(ts[1..]));
      }
    }
  }

  lemma CommaPrints(a: seq<string>, s: string, b: seq<string>, t: string)
    requires Prints(a, s) && Prints(b, t)
    ensures Prints(a + ([","] + b), s + ("," + t))
  {
    PrintsToken(",");
    PrintsAppend([","], ",", b, t);
    PrintsAppend(a, s, [","] + b, "," + t);
  }

  /** The tokens of a printed list are the printed tokens. */
  lemma {:induction false} TokensOfPrint(d: Deps, ts: seq<TriggerText>)
    requires forall i :: 0 <= i < |ts| ==> IsTrigger(d, ts[i])
    ensures Tokens(Print(ts)) == ListTokens(ts)
  {
    ListPrints(d, ts);
    TokensUnique(Print(ts), ListTokens(ts));
  }

  // ---- What the parser makes of them ----

  /** What may follow a modifier: nothing, a blank or a comma. */
  predicate AtSeparator(rest: seq<string>) {
    rest != [] ==> rest[0] == " " || rest[0] == ","
  }

  predicate AtComma(rest: seq<string>) {
    rest != [] ==> rest[0] == ","
  }

  lemma SeparatorTests(c: char, m: Matcher)
    ensures m.Test([c]) <==> m.Has(c)
  {
    assert m.Has(c) ==> m.Has([c][0]);
  }

  lemma WordTaken(s: string, m: Matcher, rest: seq<string>)
    requires IsWord(s, m)
    requires rest != [] ==> m.Test(rest[0])
    ensures Taken(Tokens(s) + rest, m) == s && Left(Tokens(s) + rest, m) == rest
  {
    TokensUnique(s, Tokens(s));
    NoTokenMatches(Tokens(s), m, rest);
  }

  lemma SpaceSkipped(rest: seq<string>)
    requires rest != [] ==> NotWhitespace.Test(rest[0])
    ensures Left([" "] + rest, NotWhitespace) == rest && Left(rest, NotWhitespace) == rest
  {
    SeparatorTests(' ', NotWhitespace);
    LeftSkips(" ", rest, NotWhitespace);
    assert Until(rest, NotWhitespace) == 0 && rest[0..] == rest;
  }

  /** A token that does not match is passed over. */
  lemma LeftSkips(t: string, rest: seq<string>, m: Matcher)
    requires !m.Test(t)
    ensures Left([t] + rest, m) == Left(rest, m)
  {
    var ts, k := [t] + rest, Until(rest, m);
    assert ts[1..] == rest;
    assert Until(ts, m) == 1 + k;
    assert ts[1 + k..] == rest[k..];
  }

  lemma SimpleTaken(text: string, rest: seq<string>)
    requires IsSelector(Simple(text)) && AtSeparator(rest)
    ensures !HeadTests(Tokens(text) + rest, SelectorStart)
    ensures Taken(Tokens(text) + rest, WhitespaceOrComma) == text
    ensures Left(Tokens(text) + rest, WhitespaceOrComma) == rest
  {
    SeparatorTests(' ', SelectorStart);
    SeparatorTests(',', SelectorStart);
    SeparatorTests(' ', WhitespaceOrComma);
    SeparatorTests(',', WhitespaceOrComma);
    WordTaken(text, WhitespaceOrComma, rest);
  }

  lemma BracedTaken(text: string, rest: seq<string>)
    requires IsSelector(Braced(text))
    ensures var ts := SelectorTokens(Braced(text)) + rest;
            && HeadTests(ts, SelectorStart)
            && Trim(Taken(ts[1..], SelectorEnd), IsSpace) == text && Tail(Left(ts[1..], SelectorEnd)) == rest
  {
    var inner := Tokens(text) + (["}"] + rest);
    assert SelectorTokens(Braced(text)) + rest == ["{"] + inner by {
      SeqAssoc(["{"], Tokens(text) + ["}"], rest);
      SeqAssoc(Tokens(text), ["}"], rest);
    }
    assert (["{"] + inner)[0] == "{" && (["{"] + inner)[1..] == inner;
    SeparatorTests('{', SelectorStart);
    SeparatorTests('}', SelectorEnd);
    WordTaken(text, SelectorEnd, ["}"] + rest);
    TrimmedExactly(text, IsSpace);
    assert (["}"] + rest)[1..] == rest;
  }

  lemma SelectorTaken(s: Selector, rest: seq<string>)
    requires IsSelector(s) && AtSeparator(rest)
    ensures SelectorText(SelectorTokens(s) + rest) == s.text && AfterSelector(SelectorTokens(s) + rest) == rest
  {
    match s
    case Simple(text) => SimpleTaken(text, rest);
    case Braced(text) => BracedTaken(text, rest);
  }

  lemma KeywordTaken(keyword: string, more: seq<string>)
    requires IsRelativeKeyword(keyword)
    ensures !HeadTests([keyword] + ([" "] + more), SelectorStart)
    ensures Taken([keyword] + ([" "] + more), WhitespaceOrComma) == keyword
    ensures Left([keyword] + ([" "] + more), WhitespaceOrComma) == [" "] + more
  {
    PrintsToken(keyword);
    SeparatorTests(' ', WhitespaceOrComma);
    NoTokenMatches([keyword], WhitespaceOrComma, [" "] + more);
  }

  lemma PlainTaken(selector: Selector, rest: seq<string>)
    requires IsSource(Plain(selector)) && AtSeparator(rest)
    ensures FromText(SelectorTokens(selector) + rest) == selector.text
    ensures AfterFrom(SelectorTokens(selector) + rest) == rest
  {
    SelectorTaken(selector, rest);
    match selector
    case Simple(text) => SimpleTaken(text, rest);
    case Braced(text) => BracedTaken(text, rest);
  }

  lemma RelativeTaken(keyword: string, selector: Selector, rest: seq<string>)
    requires IsSource(Relative(keyword, selector)) && AtSeparator(rest)
    ensures var ts, s := [keyword] + ([" "] + (SelectorTokens(selector) + rest)), Relative(keyword, selector);
            FromText(ts) == SourceValue(s) && AfterFrom(ts) == rest
  {
    var more := SelectorTokens(selector) + rest;
    KeywordTaken(keyword, more);
    assert Tail([" "] + more) == more;
    SelectorTaken(selector, rest);
  }

  lemma SourceTaken(s: EventSource, rest: seq<string>)
    requires IsSource(s) && AtSeparator(rest)
    ensures FromText(SourceTokens(s) + rest) == SourceValue(s) && AfterFrom(SourceTokens(s) + rest) == rest
  {
    match s
    case Plain(selector) => PlainTaken(selector, rest);
    case Relative(keyword, selector) =>
      assert SourceTokens(s) + rest == [keyword] + ([" "] + (SelectorTokens(selector) + rest));
      RelativeTaken(keyword, selector, rest);
  }

  lemma ArgumentTaken(d: Deps, spec: TriggerSpec, m: Modifier, rest: seq<string>)
    requires IsModifier(m) && HasArgument(m) && AtSeparator(rest)
    ensures WithArgument(d, spec, Keyword(m), ArgumentTokens(m) + rest) == Some((Apply(d, spec, m), rest))
  {
    if m.From? || m.Target? || m.Root? {
      SelectorArgumentTaken(d, spec, m, rest);
    } else {
      WordArgumentTaken(d, spec, m, rest);
    }
  }

  lemma SelectorArgumentTaken(d: Deps, spec: TriggerSpec, m: Modifier, rest: seq<string>)
    requires IsModifier(m) && AtSeparator(rest) && (m.From? || m.Target? || m.Root?)
    ensures WithArgument(d, spec, Keyword(m), ArgumentTokens(m) + rest) == Some((Apply(d, spec, m), rest))
  {
    SelectorArguments(d, spec, ArgumentTokens(m) + rest);
    match m
    case From(s) => SourceTaken(s, rest);
    case Target(s) => SelectorTaken(s, rest);
    case Root(s) => SelectorTaken(s, rest);
  }

  lemma SelectorArguments(d: Deps, spec: TriggerSpec, arg: seq<string>)
    ensures WithArgument(d, spec, "from", arg) == Some((spec.(from := Some(FromText(arg))), AfterFrom(arg)))
    ensures WithArgument(d, spec, "target", arg) == Some((spec.(target := Some(SelectorText(arg))), AfterSelector(arg)))
    ensures WithArgument(d, spec, "root", arg) == Some((spec.(root := Some(SelectorText(arg))), AfterSelector(arg)))
  {
  }

  lemma WordsTaken(text: string, rest: seq<string>)
    requires IsWord(text, WhitespaceOrComma) && AtSeparator(rest)
    ensures Taken(Tokens(text) + rest, WhitespaceOrComma) == text
    ensures Left(Tokens(text) + rest, WhitespaceOrComma) == rest
  {
    SeparatorTests(' ', WhitespaceOrComma);
    SeparatorTests(',', WhitespaceOrComma);
    WordTaken(text, WhitespaceOrComma, rest);
  }

  lemma WordArgumentTaken(d: Deps, spec: TriggerSpec, m: Modifier, rest: seq<string>)
    requires IsModifier(m) && HasArgument(m) && AtSeparator(rest) && !m.From? && !m.Target? && !m.Root?
    ensures WithArgument(d, spec, Keyword(m), ArgumentTokens(m) + rest) == Some((Apply(d, spec, m), rest))
  {
    WordsTaken(PrintArgument(m), rest);
    WordApplied(d, spec, m, ArgumentTokens(m) + rest);
  }

  lemma WordApplied(d: Deps, spec: TriggerSpec, m: Modifier, arg: seq<string>)
    requires HasArgument(m) && !m.From? && !m.Target? && !m.Root? && Taken(arg, WhitespaceOrComma) == PrintArgument(m)
    ensures WithArgument(d, spec, Keyword(m), arg) == Some((Apply(d, spec, m), Left(arg, WhitespaceOrComma)))
  {
    WordArguments(d, spec, arg);
  }

  lemma WordArguments(d: Deps, spec: TriggerSpec, arg: seq<string>)
    ensures var text, rest := Taken(arg, WhitespaceOrComma), Left(arg, WhitespaceOrComma);
            && WithArgument(d, spec, "delay", arg) == Some((spec.(delay := d.parseInterval(text)), rest))
            && WithArgument(d, spec, "throttle", arg) == Some((spec.(throttle := d.parseInterval(text)), rest))
            && WithArgument(d, spec, "queue", arg) == Some((spec.(queue := Some(text)), rest))
            && WithArgument(d, spec, "threshold", arg) == Some((spec.(threshold := Some(text)), rest))
  {
  }

  lemma ColonArgument(d: Deps, spec: TriggerSpec, token: string, arg: seq<string>)
    requires token != "changed" && token != "once" && token != "consume"
    ensures BuiltIn(d, spec, token, [":"] + arg) == WithArgument(d, spec, token, arg)
  {
    assert ([":"] + arg)[1..] == arg;
  }

  lemma BuiltInTaken(d: Deps, spec: TriggerSpec, m: Modifier, rest: seq<string>)
    requires IsModifier(m) && AtSeparator(rest)
    ensures var more := if HasArgument(m) then [":"] + ArgumentTokens(m) + rest else rest;
            BuiltIn(d, spec, Keyword(m), more) == Some((Apply(d, spec, m), rest))
  {
    if HasArgument(m) {
      SeqAssoc([":"], ArgumentTokens(m), rest);
      ColonArgument(d, spec, Keyword(m), ArgumentTokens(m) + rest);
      ArgumentTaken(d, spec, m, rest);
    }
  }

  lemma ModifierTaken(d: Deps, st: ModifierState, m: Modifier, rest: seq<string>)
    requires NeverGrows(d) && IsModifier(m) && AtSeparator(rest)
    requires st.tokens == ModifierTokens(m) + rest
    ensures ModifierStep(d, st) == ModifierState(Apply(d, st.spec, m), rest, st.errors)
  {
    var more := if HasArgument(m) then [":"] + ArgumentTokens(m) + rest else rest;
    assert st.tokens == [Keyword(m)] + more by {
      SeqAssoc([Keyword(m)], [":"] + ArgumentTokens(m), rest);
    }
    assert st.tokens[0] == Keyword(m) && st.tokens[1..] == more;
    BuiltInTaken(d, st.spec, m, rest);
  }

  lemma ModifierStartsWithWord(m: Modifier, rest: seq<string>)
    ensures var ts := ModifierTokens(m) + rest;
            ts != [] && ts[0] != "," && NotWhitespace.Test(ts[0])
  {
    assert NotWhitespace.Has(Keyword(m)[0]);
  }

  lemma {:induction false} ModifiersTaken(d: Deps, st: ModifierState, ms: seq<Modifier>, rest: seq<string>)
    requires NeverGrows(d) && (forall i :: 0 <= i < |ms| ==> IsModifier(ms[i])) && AtComma(rest)
    requires st.tokens == ModifiersTokens(ms) + rest
    ensures ParseModifiers(d, SkipSpace(st)) == ModifierState(ApplyAll(d, st.spec, ms), rest, st.errors)
    decreases |ms|
  {
    if ms == [] {
      NoModifierTaken(d, st, rest);
    } else {
      var more := ModifiersTokens(ms[1..]) + rest;
      SeqAssoc([" "], ModifierTokens(ms[0]) + ModifiersTokens(ms[1..]), rest);
      SeqAssoc(ModifierTokens(ms[0]), ModifiersTokens(ms[1..]), rest);
      FirstModifierTaken(d, st, ms[0], more);
      ModifiersTaken(d, ModifierState(Apply(d, st.spec, ms[0]), more, st.errors), ms[1..], rest);
    }
  }

  lemma NoModifierTaken(d: Deps, st: ModifierState, rest: seq<string>)
    requires NeverGrows(d) && AtComma(rest) && st.tokens == [] + rest
    ensures ParseModifiers(d, SkipSpace(st)) == ModifierState(st.spec, rest, st.errors)
  {
    assert st.tokens == rest;
    SeparatorTests(',', NotWhitespace);
    SpaceSkipped(rest);
  }

  lemma FirstModifierTaken(d: Deps, st: ModifierState, m: Modifier, more: seq<string>)
    requires NeverGrows(d) && IsModifier(m) && AtSeparator(more)
    requires st.tokens == [" "] + (ModifierTokens(m) + more)
    ensures ParseModifiers(d, SkipSpace(st)) ==
              ParseModifiers(d, SkipSpace(ModifierState(Apply(d, st.spec, m), more, st.errors)))
  {
    var ts := ModifierTokens(m) + more;
    ModifierStartsWithWord(m, more);
    SpaceSkipped(ts);
    ModifierTaken(d, st.(tokens := ts), m, more);
  }

  lemma BlockExtends(block: seq<string>, rest: seq<string>)
    requires IsBlock(block, |block|)
    ensures IsBlock(block + rest, |block|)
  {
    var ts, n := block + rest, |block|;
    forall j | 0 <= j <= n ensures ts[..j] == block[..j] {
    }
  }

  lemma BracketsTaken(d: Deps, text: string, rest: seq<string>)
    requires IsFilter(d, Some(text))
    ensures ConditionalOf(FilterTokens(Some(text)) + rest, PARAM, d.compiles)
              == Generated(SourceOf(Tokens(text), PARAM))
    ensures AfterConditional(FilterTokens(Some(text)) + rest, PARAM) == rest
  {
    var inner := Tokens(text);
    var block := ["["] + inner + ["]"];
    assert FilterTokens(Some(text)) == block;
    BlockExtends(block, rest);
    FilterConsumesBlock(block + rest, PARAM, d.compiles, |block|);
    assert (block + rest)[1..|block| - 1] == inner;
    assert (block + rest)[|block|..] == rest;
  }

  lemma FilterTaken(d: Deps, f: Option<string>, rest: seq<string>)
    requires IsFilter(d, f) && (f.None? && rest != [] ==> rest[0] != "[")
    ensures var c := ConditionalOf(FilterTokens(f) + rest, PARAM, d.compiles);
            FilterField(c) == FilterSource(f) && FilterErrors(c) == []
    ensures AfterConditional(FilterTokens(f) + rest, PARAM) == rest
  {
    match f
    case None => assert FilterTokens(f) + rest == rest;
    case Some(text) => BracketsTaken(d, text, rest);
  }

  lemma AfterName(f: Option<string>, ms: seq<Modifier>, rest: seq<string>)
    requires AtComma(rest)
    ensures var more := FilterTokens(f) + (ModifiersTokens(ms) + rest);
            more != [] ==> NameEnd.Test(more[0])
  {
    SeparatorTests('[', NameEnd);
    SeparatorTests(' ', NameEnd);
    SeparatorTests(',', NameEnd);
    var more := FilterTokens(f) + (ModifiersTokens(ms) + rest);
    assert more != [] ==> more[0] == "[" || more[0] == " " || more[0] == ",";
  }

  lemma SeqAssoc<T>(a: seq<T>, b: seq<T>, c: seq<T>)
    ensures (a + b) + c == a + (b + c)
  {
  }

  lemma NameTaken(d: Deps, t: TriggerText, rest: seq<string>)
    requires t.On? && IsTrigger(d, t) && AtComma(rest)
    ensures var ts, more := TriggerTextTokens(t) + rest, FilterTokens(t.filter) + (ModifiersTokens(t.modifiers) + rest);
            Taken(ts, NameEnd) == t.name && Left(ts, NameEnd) == more
  {
    var f, ms := FilterTokens(t.filter), ModifiersTokens(t.modifiers);
    AfterName(t.filter, t.modifiers, rest);
    SeqAssoc(Tokens(t.name), f + ms, rest);
    SeqAssoc(f, ms, rest);
    WordTaken(t.name, NameEnd, f + (ms + rest));
  }

  lemma OnTaken(d: Deps, t: TriggerText, rest: seq<string>, errors: seq<SyntaxError>)
    requires NeverGrows(d) && t.On? && IsTrigger(d, t) && AtComma(rest)
    ensures ParseTrigger(d, TriggerTextTokens(t) + rest, errors) == (Some(Meaning(d, t)), rest, errors)
  {
    NameTaken(d, t, rest);
    var mods := ModifiersTokens(t.modifiers) + rest;
    FilterTaken(d, t.filter, mods);
    assert errors + [] == errors;
    ModifiersTaken(d, ModifierState(TriggerSpec(t.name, eventFilter := FilterSource(t.filter)), mods, errors),
                   t.modifiers, rest);
  }

  lemma NoIntervalTaken(fr: seq<string>, gap: bool)
    requires fr != [] ==> fr[0] == "[" || (fr[0] == "," && !gap)
    ensures var ts := Left([" "] + (if gap then [" "] + fr else fr), NotWhitespace);
            Taken(ts, NameEnd) == "" && Left(Left(ts, NameEnd), NotWhitespace) == fr
  {
    SeparatorTests('[', NameEnd);
    SeparatorTests(',', NameEnd);
    SeparatorTests(',', NotWhitespace);
    SeparatorTests('[', NotWhitespace);
    SpaceSkipped(fr);
    SpaceSkippedTwice(fr);
    assert Until(fr, NameEnd) == 0 && fr[..0] == [];
  }

  lemma SomeIntervalTaken(interval: string, fr: seq<string>, gap: bool)
    requires IsWord(interval, NameEnd) && interval != ""
    requires fr != [] ==> fr[0] == "[" || (fr[0] == "," && !gap)
    ensures var ts := Left([" "] + (Tokens(interval) + (if gap then [" "] + fr else fr)), NotWhitespace);
            Taken(ts, NameEnd) == interval && Left(Left(ts, NameEnd), NotWhitespace) == fr
  {
    SeparatorTests('[', NameEnd);
    SeparatorTests(' ', NameEnd);
    SeparatorTests(',', NameEnd);
    SeparatorTests(',', NotWhitespace);
    SeparatorTests('[', NotWhitespace);
    SpaceSkipped(fr);
    var more := if gap then [" "] + fr else fr;
    TokensUnique(interval, Tokens(interval));
    assert NotWhitespace.Has(Tokens(interval)[0][0]);
    SpaceSkipped(Tokens(interval) + more);
    WordTaken(interval, NameEnd, more);
  }

  lemma IntervalTaken(interval: string, fr: seq<string>, gap: bool)
    requires IsWord(interval, NameEnd)
    requires fr != [] ==> fr[0] == "[" || (fr[0] == "," && !gap)
    ensures var ts := Left([" "] + (Tokens(interval) + (if gap then [" "] + fr else fr)), NotWhitespace);
            Taken(ts, NameEnd) == interval && Left(Left(ts, NameEnd), NotWhitespace) == fr
  {
    if interval == "" {
      NoIntervalTaken(fr, gap);
      NothingBefore(if gap then [" "] + fr else fr);
    } else {
      SomeIntervalTaken(interval, fr, gap);
    }
  }

  lemma NothingBefore(s: seq<string>)
    ensures Tokens("") + s == s
  {
  }

  lemma SpaceSkippedTwice(rest: seq<string>)
    requires rest != [] ==> NotWhitespace.Test(rest[0])
    ensures Left([" "] + ([" "] + rest), NotWhitespace) == rest
  {
    SeparatorTests(' ', NotWhitespace);
    LeftSkips(" ", [" "] + rest, NotWhitespace);
    SpaceSkipped(rest);
  }

  lemma EveryTokens(t: TriggerText, rest: seq<string>)
    requires t.Every?
    ensures var fr := FilterTokens(t.filter) + rest;
            TriggerTextTokens(t) + rest
            == ["every"] + ([" "] + (Tokens(t.interval) + (if t.filter.Some? then [" "] + fr else fr)))
  {
    var f := if t.filter.None? then [] else [" "] + FilterTokens(t.filter);
    SeqAssoc(["every"], [" "] + (Tokens(t.interval) + f), rest);
    SeqAssoc([" "], Tokens(t.interval) + f, rest);
    SeqAssoc(Tokens(t.interval), f, rest);
    SeqAssoc([" "], FilterTokens(t.filter), rest);
  }

  lemma EveryTaken(d: Deps, t: TriggerText, rest: seq<string>, errors: seq<SyntaxError>)
    requires NeverGrows(d) && t.Every? && IsTrigger(d, t) && AtComma(rest)
    ensures ParseTrigger(d, TriggerTextTokens(t) + rest, errors) == (Some(Meaning(d, t)), rest, errors)
  {
    var fr := FilterTokens(t.filter) + rest;
    var more := Tokens(t.interval) + (if t.filter.Some? then [" "] + fr else fr);
    EveryTokens(t, rest);
    EveryWordTaken(more);
    IntervalTaken(t.interval, fr, t.filter.Some?);
    EveryResult(d, ["every"] + ([" "] + more), t.interval, fr, errors);
    FilterTaken(d, t.filter, rest);
    assert errors + [] == errors;
  }

  /** What a polling trigger becomes, from its parts. */
  lemma EveryResult(d: Deps, ts: seq<string>, interval: string, ts2: seq<string>, errors: seq<SyntaxError>)
    requires NeverGrows(d) && Taken(ts, NameEnd) == "every"
    requires var ts1 := Left(Left(ts, NameEnd), NotWhitespace);
             Taken(ts1, NameEnd) == interval && Left(Left(ts1, NameEnd), NotWhitespace) == ts2
    ensures var c := ConditionalOf(ts2, PARAM, d.compiles);
            ParseTrigger(d, ts, errors) ==
              (Some(TriggerSpec("every", eventFilter := FilterField(c), pollInterval := d.parseInterval(interval))),
               AfterConditional(ts2, PARAM), errors + FilterErrors(c))
  {
  }

  lemma EveryWordTaken(more: seq<string>)
    ensures Taken(["every"] + ([" "] + more), NameEnd) == "every"
    ensures Left(["every"] + ([" "] + more), NameEnd) == [" "] + more
  {
    PrintsToken("every");
    SeparatorTests(' ', NameEnd);
    NoTokenMatches(["every"], NameEnd, [" "] + more);
  }

  lemma FirstTokenIsNoSpace(d: Deps, t: TriggerText, rest: seq<string>)
    requires IsTrigger(d, t)
    ensures var ts := TriggerTextTokens(t) + rest;
            ts != [] && NotWhitespace.Test(ts[0])
  {
    if t.Every? {
      assert NotWhitespace.Has("every"[0]);
    } else {
      TokensUnique(t.name, Tokens(t.name));
      var first := Tokens(t.name)[0];
      assert first[0] == t.name[0] && NotWhitespace.Has(first[0]);
    }
  }

  lemma TriggerTaken(d: Deps, p: Parsed, t: TriggerText, rest: seq<string>)
    requires NeverGrows(d) && IsTrigger(d, t) && AtComma(rest)
    ensures TriggerStep(d, p, TriggerTextTokens(t) + rest) == (Parsed(p.specs + [Meaning(d, t)], p.errors), rest)
  {
    var ts := TriggerTextTokens(t) + rest;
    FirstTokenIsNoSpace(d, t, rest);
    assert Left(ts, NotWhitespace) == ts;
    if t.Every? {
      EveryTaken(d, t, rest, p.errors);
    } else {
      OnTaken(d, t, rest, p.errors);
    }
    SeparatorTests(',', NotWhitespace);
    SpaceSkipped(rest);
  }

  lemma {:induction false} ListTaken(d: Deps, p: Parsed, ts: seq<TriggerText>)
    requires NeverGrows(d) && ts != [] && forall i :: 0 <= i < |ts| ==> IsTrigger(d, ts[i])
    ensures ParseList(d, p, ListTokens(ts)) == Parsed(p.specs + Meanings(d, ts), p.errors)
    decreases |ts|
  {
    var p' := Parsed(p.specs + [Meaning(d, ts[0])], p.errors);
    var rest := if |ts| == 1 then [] else [","] + ListTokens(ts[1..]);
    assert ListTokens(ts) == TriggerTextTokens(ts[0]) + rest;
    TriggerTaken(d, p, ts[0], rest);
    MeaningsHead(d, p.specs, ts);
    if |ts| > 1 {
      assert rest[1..] == ListTokens(ts[1..]);
      ListTaken(d, p', ts[1..]);
    }
  }

  lemma MeaningsHead(d: Deps, specs: seq<TriggerSpec>, ts: seq<TriggerText>)
    requires ts != []
    ensures specs + Meanings(d, ts) == specs + [Meaning(d, ts[0])] + Meanings(d, ts[1..])
  {
  }

  /** Every non-empty list of canonical triggers parses back to exactly its meanings, without an error. */
  lemma {:induction false} ParseOfPrint(d: Deps, ts: seq<TriggerText>)
    requires NeverGrows(d) && ts != [] && forall i :: 0 <= i < |ts| ==> IsTrigger(d, ts[i])
    ensures Parse(d, Print(ts)) == Parsed(Meanings(d, ts), [])
  {
    TokensOfPrint(d, ts);
    ListTaken(d, Parsed([], []), ts);
    assert [] + Meanings(d, ts) == Meanings(d, ts);
  }

  // ---- Printing specifications ----

  /** The modifiers that write the `k`-th field of a specification, if it is set. */
  function Field(k: nat, spec: TriggerSpec, show: real -> string): seq<Modifier> {
    if k == 0 && spec.changed then [Changed]
    else if k == 1 && spec.once then [Once]
    else if k == 2 && spec.consume then [Consume]
    else if k == 3 && spec.delay.Some? then [Delay(show(spec.delay.value))]
    else if k == 4 && spec.from.Some? then [From(Plain(Braced(spec.from.value)))]
    else if k == 5 && spec.target.Some? then [Target(Braced(spec.target.value))]
    else if k == 6 && spec.throttle.Some? then [Throttle(show(spec.throttle.value))]
    else if k == 7 && spec.queue.Some? then [Queue(spec.queue.value)]
    else if k == 8 && spec.root.Some? then [Root(Braced(spec.root.value))]
    else if k == 9 && spec.threshold.Some? then [Threshold(spec.threshold.value)]
    else []
  }

  function Fields(k: nat, spec: TriggerSpec, show: real -> string): seq<Modifier>
    decreases 10 - k
  {
    if k >= 10 then [] else Field(k, spec, show) + Fields(k + 1, spec, show)
  }

  /** The author's text of a specification; `show` writes an interval the parser reads back. */
  function Write(spec: TriggerSpec, filter: Option<string>, show: real -> string): TriggerText {
    if spec.trigger == "every" then Every(if spec.pollInterval.Some? then show(spec.pollInterval.value) else "", filter)
    else On(spec.trigger, filter, Fields(0, spec, show))
  }

  /** `spec` with only its first `k` fields set. */
  function Partial(k: nat, spec: TriggerSpec): TriggerSpec {
    TriggerSpec(spec.trigger, spec.eventFilter, None,
                k > 0 && spec.changed, k > 1 && spec.once, k > 2 && spec.consume,
                if k > 3 then spec.delay else None, if k > 4 then spec.from else None,
                if k > 5 then spec.target else None, if k > 6 then spec.throttle else None,
                if k > 7 then spec.queue else None, if k > 8 then spec.root else None,
                if k > 9 then spec.threshold else None)
  }

  lemma {:induction false} ApplyAppend(d: Deps, spec: TriggerSpec, a: seq<Modifier>, b: seq<Modifier>)
    ensures ApplyAll(d, spec, a + b) == ApplyAll(d, ApplyAll(d, spec, a), b)
    decreases |a|
  {
    if a == [] {
      assert a + b == b;
    } else {
      assert (a + b)[1..] == a[1..] + b;
      ApplyAppend(d, Apply(d, spec, a[0]), a[1..], b);
    }
  }

  /** The fields of `spec` can be written: `filter` is the text of its filter, `show` its intervals. */
  ghost predicate IsWritable(d: Deps, spec: TriggerSpec, filter: Option<string>, show: real -> string) {
    && IsTrigger(d, Write(spec, filter, show))
    && FilterSource(filter) == spec.eventFilter
    && (spec.trigger == "every" ==>
          && spec == TriggerSpec("every", eventFilter := spec.eventFilter, pollInterval := spec.pollInterval)
          && (spec.pollInterval.None? ==> d.parseInterval("").None?))
    && (spec.trigger != "every" ==> spec.pollInterval.None?)
    && Shows(d, show, spec.pollInterval) && Shows(d, show, spec.delay) && Shows(d, show, spec.throttle)
  }

  ghost predicate Shows(d: Deps, show: real -> string, interval: Option<real>) {
    interval.Some? ==> d.parseInterval(show(interval.value)) == interval
  }

  lemma FieldApplied(d: Deps, k: nat, spec: TriggerSpec, show: real -> string)
    requires k < 10 && Shows(d, show, spec.delay) && Shows(d, show, spec.throttle)
    ensures ApplyAll(d, Partial(k, spec), Field(k, spec, show)) == Partial(k + 1, spec)
  {
    assert forall m: Modifier :: [m][1..] == [];
    var ms := Field(k, spec, show);
    assert |ms| <= 1;
    assert ms != [] ==> ApplyAll(d, Partial(k, spec), ms) == Apply(d, Partial(k, spec), ms[0]);
  }

  lemma {:induction false} FieldsApplied(d: Deps, k: nat, spec: TriggerSpec, show: real -> string)
    requires k <= 10 && Shows(d, show, spec.delay) && Shows(d, show, spec.throttle)
    ensures ApplyAll(d, Partial(k, spec), Fields(k, spec, show)) == Partial(10, spec)
    decreases 10 - k
  {
    if k < 10 {
      FieldApplied(d, k, spec, show);
      FieldsApplied(d, k + 1, spec, show);
      ApplyAppend(d, Partial(k, spec), Field(k, spec, show), Fields(k + 1, spec, show));
    }
  }

  lemma MeaningOfWrite(d: Deps, spec: TriggerSpec, filter: Option<string>, show: real -> string)
    requires IsWritable(d, spec, filter, show)
    ensures Meaning(d, Write(spec, filter, show)) == spec
  {
    if spec.trigger != "every" {
      FieldsApplied(d, 0, spec, show);
    }
  }

  function WriteAll(specs: seq<TriggerSpec>, filters: seq<Option<string>>, show: real -> string): (ts: seq<TriggerText>)
    requires |specs| == |filters|
    ensures |ts| == |specs|
    ensures forall i :: 0 <= i < |ts| ==> ts[i] == Write(specs[i], filters[i], show)
  {
    if specs == [] then [] else [Write(specs[0], filters[0], show)] + WriteAll(specs[1..], filters[1..], show)
  }

  lemma {:induction false} MeaningsOfWriteAll(d: Deps, specs: seq<TriggerSpec>, filters: seq<Option<string>>,
                                              show: real -> string)
    requires |specs| == |filters| && forall i :: 0 <= i < |specs| ==> IsWritable(d, specs[i], filters[i], show)
    ensures Meanings(d, WriteAll(specs, filters, show)) == specs
  {
    if specs != [] {
      MeaningOfWrite(d, specs[0], filters[0], show);
      forall i | 0 <= i < |specs| - 1 ensures IsWritable(d, specs[1..][i], filters[1..][i], show) {
        assert IsWritable(d, specs[i + 1], filters[i + 1], show);
      }
      MeaningsOfWriteAll(d, specs[1..], filters[1..], show);
    }
  }

  /** Printing any non-empty list of writable specifications and parsing the text gives exactly that list. */
  lemma {:induction false} SpecsRoundTrip(d: Deps, specs: seq<TriggerSpec>, filters: seq<Option<string>>,
                                          show: real -> string)
    requires NeverGrows(d) && specs != [] && |specs| == |filters|
    requires forall i :: 0 <= i < |specs| ==> IsWritable(d, specs[i], filters[i], show)
    ensures Parse(d, Print(WriteAll(specs, filters, show))) == Parsed(specs, [])
  {
    var ts := WriteAll(specs, filters, show);
    forall i | 0 <= i < |ts| ensures IsTrigger(d, ts[i]) {
      assert IsWritable(d, specs[i], filters[i], show);
    }
    ParseOfPrint(d, ts);
    MeaningsOfWriteAll(d, specs, filters, show);
  }

  // ---- Where the text is not read back ----

  lemma {:induction false} SomeTokenMatches(ts: seq<string>, m: Matcher, rest: seq<string>)
    requires !NoneIn(Flatten(ts), m)
    ensures Until(ts + rest, m) < |ts|
  {
    assert ts != [];
    var s := Flatten(ts);
    assert s == ts[0] + Flatten(ts[1..]);
    assert (ts + rest)[0] == ts[0] && (ts + rest)[1..] == ts[1..] + rest;
    if !m.Test(ts[0]) {
      assert forall k :: 0 <= k < |ts[0]| ==> s[k] == ts[0][k];
      var i :| 0 <= i < |s| && m.Has(s[i]);
      assert Flatten(ts[1..])[i - |ts[0]|] == s[i];
      SomeTokenMatches(ts[1..], m, rest);
    }
  }

  /**
    A braced selector that is trimmed and leaves no literal open is read back, up to its brace, exactly
    when it has no closing brace or bracket inside: at the first one it is cut.
   */
  lemma BracedReadBackExactly(text: string, rest: seq<string>)
    requires IsTrimmed(text, IsSpace) && Sealed(Tokens(text))
    ensures var ts := SelectorTokens(Braced(text)) + rest;
            SelectorText(ts) == text && AfterSelector(ts) == rest <==> NoneIn(text, SelectorEnd)
  {
    if NoneIn(text, SelectorEnd) {
      BracedTaken(text, rest);
    } else {
      BracedCut(text, rest);
    }
  }

  lemma BracedCut(text: string, rest: seq<string>)
    requires !NoneIn(text, SelectorEnd)
    ensures |AfterSelector(SelectorTokens(Braced(text)) + rest)| > |rest|
  {
    var ts := Tokens(text);
    var inner := ts + (["}"] + rest);
    TokensUnique(text, ts);
    SomeTokenMatches(ts, SelectorEnd, ["}"] + rest);
    assert SelectorTokens(Braced(text)) + rest == ["{"] + inner by {
      SeqAssoc(["{"], ts + ["}"], rest);
      SeqAssoc(ts, ["}"], rest);
    }
    SeparatorTests('{', SelectorStart);
    assert (["{"] + inner)[0] == "{" && (["{"] + inner)[1..] == inner;
    assert |Left(inner, SelectorEnd)| > |rest| + 1;
  }

  /** So `from:{a:not(b)}` does not listen on `a:not(b)`. */
  lemma NotSelectorIsCut(rest: seq<string>)
    ensures var text := "a:not(b)";
            var ts := SelectorTokens(Braced(text)) + rest;
            && IsTrimmed(text, IsSpace) && Sealed(Tokens(text))
            && !(SelectorText(ts) == text && AfterSelector(ts) == rest)
  {
    var text := "a:not(b)";
    TokensOfNot();
    assert text[|text| - 1] == ')' && SelectorEnd.Has(')');
    BracedReadBackExactly(text, rest);
  }

  lemma TokensOfNot()
    ensures Tokens("a:not(b)") == ["a", ":"] + ["not"] + ["(", "b"] + [")"]
    ensures Sealed(Tokens("a:not(b)"))
  {
    PairPrints("a", ":");
    PrintsToken("not");
    PairPrints("(", "b");
    PrintsToken(")");
    PrintsAppend(["a", ":"], "a:", ["not"], "not");
    PrintsAppend(["a", ":"] + ["not"], "a:not", ["(", "b"], "(b");
    PrintsAppend(["a", ":"] + ["not"] + ["(", "b"], "a:not(b", [")"], ")");
    TokensUnique("a:not(b)", ["a", ":"] + ["not"] + ["(", "b"] + [")"]);
  }

  /** A word and a punctuation mark, in either order. */
  lemma PairPrints(s: string, t: string)
    requires (IsSymbol(s) && IsPunctuation(t) && !IsSymbolCont(t[0])) || (IsPunctuation(s) && IsSymbol(t))
    ensures Prints([s, t], s + t)
  {
    PrintsToken(s);
    PrintsToken(t);
    PrintsAppend([s], s, [t], t);
    assert [s] + [t] == [s, t];
  }

  /**
    A `from:` modifier with an unbraced word takes exactly its own tokens, unless the word is a bare
    relative keyword and something follows it: the parser then drops the token after it and reads a
    selector from the tokens behind, be they the next modifier or the next trigger.
   */
  lemma FromTakesItsOwnTokens(d: Deps, st: ModifierState, text: string, rest: seq<string>)
    requires NeverGrows(d) && IsSelector(Simple(text)) && AtSeparator(rest)
    requires st.tokens == ["from", ":"] + (Tokens(text) + rest)
    ensures ModifierStep(d, st).tokens == rest <==> !IsRelativeKeyword(text) || rest == []
  {
    FromStep(d, st, Tokens(text) + rest);
    SimpleTaken(text, rest);
  }

  /** What a bare relative keyword can stand before without harm: nothing, or a blank and no selector. */
  predicate NoSelectorBehind(rest: seq<string>) {
    rest != [] ==>
      && rest[0] == " "
      && (|rest| > 1 ==> !SelectorStart.Test(rest[1]) && WhitespaceOrComma.Test(rest[1]))
  }

  /**
    It means its word, and leaves what is behind it up to white space, exactly when the word is no bare
    relative keyword or no selector can be read behind it: a comma directly behind is lost as well.
   */
  lemma FromMeansItsWord(d: Deps, st: ModifierState, text: string, rest: seq<string>)
    requires NeverGrows(d) && IsSelector(Simple(text)) && AtSeparator(rest) && "" !in rest
    requires st.tokens == ["from", ":"] + (Tokens(text) + rest)
    ensures (&& ModifierStep(d, st).spec == st.spec.(from := Some(text))
             && SkipSpace(ModifierStep(d, st)).tokens == Left(rest, NotWhitespace))
            <==> !IsRelativeKeyword(text) || NoSelectorBehind(rest)
  {
    FromStep(d, st, Tokens(text) + rest);
    FromOf(text, rest);
    if IsRelativeKeyword(text) {
      KeywordBefore(rest);
    }
  }

  lemma FromOf(text: string, rest: seq<string>)
    requires IsSelector(Simple(text)) && AtSeparator(rest)
    ensures var arg := Tokens(text) + rest;
            if IsRelativeKeyword(text) then
              AfterFrom(arg) == AfterSelector(Tail(rest)) && (FromText(arg) == text <==> SelectorText(Tail(rest)) == "")
            else AfterFrom(arg) == rest && FromText(arg) == text
  {
    SimpleTaken(text, rest);
    if SelectorText(Tail(rest)) != "" {
      assert |text + " " + SelectorText(Tail(rest))| > |text|;
    }
  }

  /** What follows the keyword and the dropped token is read as a selector. */
  lemma KeywordBefore(rest: seq<string>)
    requires AtSeparator(rest) && "" !in rest
    ensures (&& SelectorText(Tail(rest)) == ""
             && Left(AfterSelector(Tail(rest)), NotWhitespace) == Left(rest, NotWhitespace))
            <==> NoSelectorBehind(rest)
  {
    if rest != [] {
      var more := rest[1..];
      if rest[0] == "," {
        CommaStays(rest);
        assert |Left(AfterSelector(more), NotWhitespace)| < |rest|;
      } else {
        BlankSkipped(more);
        BehindBlank(more);
        assert rest == [" "] + more;
      }
    }
  }

  lemma CommaStays(rest: seq<string>)
    requires rest != [] && rest[0] == ","
    ensures Left(rest, NotWhitespace) == rest
  {
    SeparatorTests(',', NotWhitespace);
    assert Until(rest, NotWhitespace) == 0 && rest[0..] == rest;
  }

  lemma BlankSkipped(more: seq<string>)
    ensures Left([" "] + more, NotWhitespace) == Left(more, NotWhitespace)
  {
    SeparatorTests(' ', NotWhitespace);
    LeftSkips(" ", more, NotWhitespace);
  }

  lemma BehindBlank(more: seq<string>)
    requires "" !in more
    ensures (SelectorText(more) == "" && Left(AfterSelector(more), NotWhitespace) == Left(more, NotWhitespace))
            <==> (more != [] ==> !SelectorStart.Test(more[0]) && WhitespaceOrComma.Test(more[0]))
  {
  }

  lemma FromStep(d: Deps, st: ModifierState, arg: seq<string>)
    requires NeverGrows(d) && st.tokens == ["from", ":"] + arg
    ensures ModifierStep(d, st) == ModifierState(st.spec.(from := Some(FromText(arg))), AfterFrom(arg), st.errors)
  {
    assert st.tokens[1..] == [":"] + arg;
    ColonArgument(d, st.spec, "from", arg);
    SelectorArguments(d, st.spec, arg);
  }

  lemma ChangedIsSelector()
    ensures IsSelector(Simple("changed"))
  {
    assert Tokens("changed") == ["changed"] by {
      PrintsToken("changed");
      TokensUnique("changed", ["changed"]);
    }
    assert NoneIn("changed", SelectorStart) && !SelectorStart.Test("changed");
  }

  lemma Assoc(a: string, b: string, c: string)
    ensures (a + b) + c == a + (b + c) && a + "" == a
  {
  }

  lemma PrintOne(m: Modifier)
    ensures PrintModifiers([m]) == " " + PrintModifier(m)
  {
    assert [m][1..] == [];
    Assoc(PrintModifier(m), "", "");
  }

  lemma BareTextIsRelativeText(keyword: string)
    ensures PrintModifiers([From(Plain(Simple(keyword))), Changed])
              == PrintModifiers([From(Relative(keyword, Simple("changed")))])
  {
    var bare, relative := From(Plain(Simple(keyword))), From(Relative(keyword, Simple("changed")));
    var more := " " + "changed";
    PrintOne(Changed);
    PrintOne(relative);
    assert [bare, Changed][1..] == [Changed];
    Assoc("from", ":" + keyword, more);
    Assoc(":", keyword, more);
  }

  lemma MeaningsOf(d: Deps, t: TriggerText)
    ensures Meanings(d, [t]) == [Meaning(d, t)]
  {
    assert [t][1..] == [];
  }

  lemma MeaningOfModifiers(d: Deps, spec: TriggerSpec, keyword: string)
    requires IsRelativeKeyword(keyword)
    ensures ApplyAll(d, spec, [From(Relative(keyword, Simple("changed")))]) == spec.(from := Some(keyword + " changed"))
    ensures ApplyAll(d, spec, [From(Plain(Simple(keyword))), Changed]) == spec.(from := Some(keyword), changed := true)
  {
    assert [From(Relative(keyword, Simple("changed")))][1..] == [];
    assert [From(Plain(Simple(keyword))), Changed][1..] == [Changed] && [Changed][1..] == [];
    Assoc(keyword, " ", "changed");
    assert " " + "changed" == " changed";
  }

  /**
    The same for a whole text, such as `click from:next changed`: it does not ask for changes of the
    next element but listens on the element `next changed`.
   */
  lemma {:induction false} BareKeywordSwallowsModifier(d: Deps, name: string, filter: Option<string>, keyword: string)
    requires NeverGrows(d) && IsTrigger(d, On(name, filter, [])) && IsRelativeKeyword(keyword)
    ensures var text := Print([On(name, filter, [From(Plain(Simple(keyword))), Changed])]);
            var spec := TriggerSpec(name, eventFilter := FilterSource(filter));
            && Parse(d, text) == Parsed([spec.(from := Some(keyword + " changed"))], [])
            && Meaning(d, On(name, filter, [From(Plain(Simple(keyword))), Changed]))
               == spec.(from := Some(keyword), changed := true)
  {
    ChangedIsSelector();
    BareTextIsRelativeText(keyword);
    var bare, relative := On(name, filter, [From(Plain(Simple(keyword))), Changed]),
                          On(name, filter, [From(Relative(keyword, Simple("changed")))]);
    assert Print([bare]) == Print([relative]);
    ParseOfPrint(d, [relative]);
    MeaningsOf(d, relative);
    MeaningOfModifiers(d, TriggerSpec(name, eventFilter := FilterSource(filter)), keyword);
  }
}
