/**
  What particular trigger texts stand for (web/src/htmx/trigger-parser-runtime.ts): plain names, filters, and
  texts the parser complains about or does not read to their end.
 */
module TriggerTexts {
  import opened Wrappers
  import opened TriggerTokens
  import opened TokenStreams
  import opened TriggerFilter
  import opened TriggerParsers
  import opened TriggerRoundTrip

  // ---- Characters ----

  /** White space as `\s` has it, section 22.2.2.9 of ECMA-262. */
  const BLANKS := " \t\n\U{000B}\U{000C}\r\U{00A0}\U{1680}\U{2000}\U{2001}\U{2002}\U{2003}\U{2004}\U{2005}\U{2006}"
                  + "\U{2007}\U{2008}\U{2009}\U{200A}\U{2028}\U{2029}\U{202F}\U{205F}\U{3000}\U{FEFF}"

  lemma BlankExactly(c: char)
    ensures IsSpace(c) <==> c in BLANKS
  {
  }

  predicate Ends(m: Matcher, c: char) {
    match m
    case WhitespaceOrComma => c in BLANKS || c == ','
    case NotWhitespace => c !in BLANKS
    case NameEnd => c in BLANKS || c == ',' || c == '['
    case SelectorStart => c == '{' || c == '('
    case SelectorEnd => c == '}' || c == ')'
  }

  /** The tokens that end a run. */
  lemma MatcherExactly(m: Matcher, token: string)
    ensures m.Test(token) <==> exists i :: 0 <= i < |token| && Ends(m, token[i])
  {
    forall i | 0 <= i < |token| ensures m.Has(token[i]) <==> Ends(m, token[i]) {
      BlankExactly(token[i]);
    }
  }

  // ---- One trigger ----

  /** An event name: not empty, not `every`, no white space, comma or bracket in it. */
  predicate IsName(name: string) {
    && name != "" && name != "every"
    && forall i :: 0 <= i < |name| ==> name[i] !in BLANKS && name[i] != ',' && name[i] != '['
  }

  lemma NameHasNoEnd(name: string)
    requires IsName(name)
    ensures NoneIn(name, NameEnd) && Tokens(name) != [] && NotWhitespace.Test(Tokens(name)[0])
  {
    forall i | 0 <= i < |name| ensures !NameEnd.Has(name[i]) {
      BlankExactly(name[i]);
    }
    TokensUnique(name, Tokens(name));
    TokensNonEmpty(name, 0);
    assert Tokens(name)[0][0] == name[0] && NotWhitespace.Has(name[0]);
  }

  /** A name, its filter and its modifiers. */
  lemma NameTaken(d: Deps, name: string, more: seq<string>, errors: seq<SyntaxError>)
    requires NeverGrows(d) && IsName(name) && (more != [] ==> more[0] == " " || more[0] == "[")
    ensures var c := ConditionalOf(more, PARAM, d.compiles);
            var m := ParseModifiers(d, SkipSpace(ModifierState(TriggerSpec(name, eventFilter := FilterField(c)),
                                                               AfterConditional(more, PARAM),
                                                               errors + FilterErrors(c))));
            ParseTrigger(d, Tokens(name) + more, errors) == (Some(m.spec), m.tokens, m.errors)
  {
    NameHasNoEnd(name);
    TokensUnique(name, Tokens(name));
    SeparatorTests(' ', NameEnd);
    SeparatorTests('[', NameEnd);
    NoTokenMatches(Tokens(name), NameEnd, more);
  }

  /** A text that is one trigger to its end. */
  lemma OneTrigger(d: Deps, text: string, spec: TriggerSpec, errors: seq<SyntaxError>)
    requires NeverGrows(d) && HeadTests(Tokens(text), NotWhitespace)
    requires ParseTrigger(d, Tokens(text), []) == (Some(spec), [], errors)
    ensures Parse(d, text) == Parsed([spec], errors)
  {
    var ts := Tokens(text);
    assert Until(ts, NotWhitespace) == 0 && ts[0..] == ts;
    assert [] + [spec] == [spec];
  }

  lemma Follows(a: seq<string>, s: string, b: seq<string>, t: string)
    requires Prints(a, s) && Lexes(b) && Flatten(b) == t && (StartsFresh(b) || EndsClean(a))
    ensures Tokens(s + t) == a + b
  {
    FlattenAppend(a, b);
    LexesAppend(a, b);
    TokensUnique(s + t, a + b);
  }

  lemma Headed(name: string, more: seq<string>)
    requires IsName(name)
    ensures HeadTests(Tokens(name) + more, NotWhitespace)
  {
    NameHasNoEnd(name);
  }

  /** A name alone is the event of that name. */
  lemma PlainName(d: Deps, name: string)
    requires NeverGrows(d) && IsName(name)
    ensures Parse(d, name) == Parsed([TriggerSpec(name)], [])
  {
    assert Tokens(name) + [] == Tokens(name);
    NameTaken(d, name, [], []);
    Headed(name, []);
    assert Left([], NotWhitespace) == [];
    OneTrigger(d, name, TriggerSpec(name), []);
  }

  /** An empty text is no trigger, and is complained about. */
  lemma EmptyText(d: Deps)
    requires NeverGrows(d)
    ensures Parse(d, "") == Parsed([], [UnexpectedToken(None)])
  {
    assert Left([], NotWhitespace) == [] && Taken([], NameEnd) == "";
  }

  /** A comma in front of a name is complained about, and the name is not read. */
  lemma LeadingComma(d: Deps, name: string)
    requires NeverGrows(d) && IsName(name)
    ensures Parse(d, "," + name) == Parsed([], [UnexpectedToken(Some(","))])
  {
    var ts := [","] + Tokens(name);
    PrintsToken(",");
    NameHasNoEnd(name);
    TokensUnique(name, Tokens(name));
    Follows([","], ",", Tokens(name), name);
    SeparatorTests(',', NotWhitespace);
    SeparatorTests(',', NameEnd);
    assert ts[0] == "," && ts[0..] == ts && ts[..0] == [] && ts[1..] == Tokens(name);
    assert Until(ts, NotWhitespace) == 0 && Until(ts, NameEnd) == 0;
    assert Until(Tokens(name), NotWhitespace) == 0 && Tokens(name)[0..] == Tokens(name);
    assert Tokens(name)[0] != "," by { assert NoneIn(name, NameEnd) && Tokens(name)[0][0] == name[0]; }
    assert TriggerStep(d, Parsed([], []), ts) == (Parsed([], [] + [UnexpectedToken(Some(","))]), Tokens(name));
  }

  // ---- Filters ----

  lemma FilterText(name: string, filter: string)
    requires IsName(name) && Sealed(Tokens(name)) && Sealed(Tokens(filter))
    ensures Tokens(name + ("[" + filter + "]")) == Tokens(name) + (["["] + Tokens(filter) + ["]"])
  {
    PrintsTokens(name);
    PrintsTokens(filter);
    PrintsToken("[");
    PrintsToken("]");
    PrintsAppend(["["], "[", Tokens(filter), filter);
    PrintsAppend(["["] + Tokens(filter), "[" + filter, ["]"], "]");
    Follows(Tokens(name), name, ["["] + Tokens(filter) + ["]"], "[" + filter + "]");
  }

  /**
    A name with a filter: the names in the filter are looked up on the event and on the window; a source that
    cannot be compiled is complained about, and the trigger has no filter then.
   */
  lemma FilteredName(d: Deps, name: string, filter: string) returns (pieces: seq<string>)
    requires NeverGrows(d) && IsName(name) && Sealed(Tokens(name)) && Sealed(Tokens(filter))
    requires IsBlock(["["] + Tokens(filter) + ["]"], |Tokens(filter)| + 2)
    ensures var ts := Tokens(filter);
            && |pieces| == |ts|
            && (forall j :: 0 <= j < |ts| ==> pieces[j] == if IsLookedUp(ts, j) then LookedUp(ts[j]) else ts[j])
            && Parse(d, name + ("[" + filter + "]")) ==
                 var source := " return (function(event){ return ("
                               + (if filter == "" then "true" else Flatten(pieces)) + ")})";
                 if d.compiles(source) then Parsed([TriggerSpec(name, eventFilter := Some(source))], [])
                 else Parsed([TriggerSpec(name)], [BadFilter(source)])
  {
    var ts, block := Tokens(filter), ["["] + Tokens(filter) + ["]"];
    assert block + [] == block;
    pieces := FilterLooksUp(ts, [], d.compiles);
    TokensUnique(filter, ts);
    assert filter == "" <==> ts == [] by { NoTokens(filter); }
    BlockParsed(d, name, filter);
  }

  lemma NoTokens(s: string)
    ensures s == "" <==> Tokens(s) == []
  {
    TokensUnique(s, Tokens(s));
  }

  lemma BlockParsed(d: Deps, name: string, filter: string)
    requires NeverGrows(d) && IsName(name) && Sealed(Tokens(name)) && Sealed(Tokens(filter))
    requires IsBlock(["["] + Tokens(filter) + ["]"], |Tokens(filter)| + 2)
    ensures var c := ConditionalOf(["["] + Tokens(filter) + ["]"], PARAM, d.compiles);
            Parse(d, name + ("[" + filter + "]")) ==
              Parsed([TriggerSpec(name, eventFilter := FilterField(c))], FilterErrors(c))
  {
    var ts, block := Tokens(filter), ["["] + Tokens(filter) + ["]"];
    FilterText(name, filter);
    FilterConsumesBlock(block, PARAM, d.compiles, |ts| + 2);
    NameTaken(d, name, block, []);
    Headed(name, block);
    var c := ConditionalOf(block, PARAM, d.compiles);
    assert block[|ts| + 2..] == [] && Left([], NotWhitespace) == [] && [] + FilterErrors(c) == FilterErrors(c);
    OneTrigger(d, name + ("[" + filter + "]"), TriggerSpec(name, eventFilter := FilterField(c)), FilterErrors(c));
  }

  /** A filter whose bracket is never closed takes the rest of the text, and nobody is told. */
  lemma UnclosedFilter(d: Deps, name: string, rest: string)
    requires NeverGrows(d) && IsName(name) && Sealed(Tokens(name))
    requires forall k :: !IsBlock(["["] + Tokens(rest), k)
    ensures Parse(d, name + ("[" + rest)) == Parsed([TriggerSpec(name)], [])
  {
    var more := ["["] + Tokens(rest);
    UnclosedText(name, rest);
    FilterConsumesBlock(more, PARAM, d.compiles, |more| - |AfterConditional(more, PARAM)|);
    assert !IsBlock(more, |more| - |AfterConditional(more, PARAM)|);
    NameTaken(d, name, more, []);
    Headed(name, more);
    assert Left([], NotWhitespace) == [];
    OneTrigger(d, name + ("[" + rest), TriggerSpec(name), []);
  }

  lemma UnclosedText(name: string, rest: string)
    requires IsName(name) && Sealed(Tokens(name))
    ensures Tokens(name + ("[" + rest)) == Tokens(name) + (["["] + Tokens(rest))
  {
    PrintsTokens(name);
    PrintsToken("[");
    TokensUnique(rest, Tokens(rest));
    Follows(["["], "[", Tokens(rest), rest);
    TokensUnique("[" + rest, ["["] + Tokens(rest));
    Follows(Tokens(name), name, ["["] + Tokens(rest), "[" + rest);
  }

  // ---- Modifiers nobody knows ----

  predicate IsFlag(word: string) {
    word == "changed" || word == "once" || word == "consume"
  }

  /** What is left of a trigger behind its name when the modifier is the last word. */
  lemma LastWord(d: Deps, spec: TriggerSpec, word: string)
    requires NeverGrows(d) && word != "," && !IsFlag(word)
    ensures ParseModifiers(d, ModifierState(spec, [word], [])) ==
              match d.custom(word, [], spec)
              case None => ModifierState(spec, [], [UnexpectedToken(None)])
              case Some(e) => ModifierState(e.spec, [], if e.accepted then [] else [UnexpectedToken(None)])
  {
    var st := ModifierState(spec, [word], []);
    assert st.tokens[1..] == [] && Left([], NotWhitespace) == [];
    assert ParseModifiers(d, st) == ParseModifiers(d, SkipSpace(ModifierStep(d, st)));
  }

  lemma WordText(name: string, word: string)
    requires IsName(name) && Sealed(Tokens(name)) && IsSymbol(word)
    ensures Tokens(name + (" " + word)) == Tokens(name) + [" ", word]
  {
    PrintsTokens(name);
    PrintsToken(" ");
    PrintsToken(word);
    PrintsAppend([" "], " ", [word], word);
    assert [" "] + [word] == [" ", word];
    Follows(Tokens(name), name, [" ", word], " " + word);
  }

  /**
    A word behind the name that is no modifier without an argument goes to the custom parser for it; where
    there is none, or it declines, it is complained about and the trigger stays what the word found.
   */
  lemma OtherWord(d: Deps, name: string, word: string)
    requires NeverGrows(d) && IsName(name) && Sealed(Tokens(name)) && IsSymbol(word) && !IsFlag(word)
    ensures Parse(d, name + (" " + word)) ==
              match d.custom(word, [], TriggerSpec(name))
              case None => Parsed([TriggerSpec(name)], [UnexpectedToken(None)])
              case Some(e) => Parsed([e.spec], if e.accepted then [] else [UnexpectedToken(None)])
  {
    var more := [" ", word];
    WordText(name, word);
    NameTaken(d, name, more, []);
    Headed(name, more);
    SymbolIsNoSpace(word);
    SpaceSkipped([word]);
    assert [" "] + [word] == more && [] + FilterErrors(Absent) == [];
    LastWord(d, TriggerSpec(name), word);
    var m := ParseModifiers(d, ModifierState(TriggerSpec(name), [word], []));
    OneTrigger(d, name + (" " + word), m.spec, m.errors);
  }

  predicate TakesArgument(word: string) {
    word == "delay" || word == "from" || word == "target" || word == "throttle" || word == "queue" || word == "root"
    || word == "threshold"
  }

  lemma ArgumentText(name: string, word: string, argument: string)
    requires IsName(name) && Sealed(Tokens(name)) && IsSymbol(word) && IsSymbol(argument)
    ensures Tokens(name + (" " + (word + (":" + argument)))) == Tokens(name) + ([" "] + ([word] + [":", argument]))
  {
    PrintsTokens(name);
    PrintsToken(" ");
    PrintsToken(word);
    PrintsToken(":");
    PrintsToken(argument);
    PrintsAppend([":"], ":", [argument], argument);
    assert [":"] + [argument] == [":", argument];
    PrintsAppend([word], word, [":", argument], ":" + argument);
    PrintsAppend([" "], " ", [word] + [":", argument], word + (":" + argument));
    Follows(Tokens(name), name, [" "] + ([word] + [":", argument]), " " + (word + (":" + argument)));
  }

  lemma WordAndArgument(d: Deps, spec: TriggerSpec, word: string, argument: string)
    requires NeverGrows(d) && word != "," && !IsFlag(word) && !TakesArgument(word)
    requires IsSymbol(argument) && !IsFlag(argument)
    requires d.custom(word, [":", argument], spec) == None && d.custom(argument, [], spec) == None
    ensures ParseModifiers(d, ModifierState(spec, [word] + [":", argument], [])) ==
              ModifierState(spec, [], [UnexpectedToken(Some(":")), UnexpectedToken(None)])
  {
    var st := ModifierState(spec, [word] + [":", argument], []);
    assert st.tokens[1..] == [":", argument] && [":", argument][1..] == [argument];
    SymbolIsNoSpace(argument);
    assert Until([argument], NotWhitespace) == 0 && [argument][0..] == [argument];
    var next := ModifierState(spec, [argument], [UnexpectedToken(Some(":"))]);
    assert SkipSpace(ModifierStep(d, st)) == next;
    assert ParseModifiers(d, st) == ParseModifiers(d, next);
    LastWord(d, spec, argument);
    ModifierErrors(d, ModifierState(spec, [argument], []), [UnexpectedToken(Some(":"))]);
  }

  /** An argument of a modifier that nobody knows is read as a modifier itself: only the colon is dropped with it. */
  lemma OtherArgument(d: Deps, name: string, word: string, argument: string)
    requires NeverGrows(d) && IsName(name) && Sealed(Tokens(name)) && IsSymbol(word) && IsSymbol(argument)
    requires !IsFlag(word) && !TakesArgument(word) && !IsFlag(argument)
    requires var spec := TriggerSpec(name);
             d.custom(word, [":", argument], spec) == None && d.custom(argument, [], spec) == None
    ensures Parse(d, name + (" " + (word + (":" + argument)))) ==
              Parsed([TriggerSpec(name)], [UnexpectedToken(Some(":")), UnexpectedToken(None)])
  {
    var more := [word] + [":", argument];
    ArgumentText(name, word, argument);
    NameTaken(d, name, [" "] + more, []);
    Headed(name, [" "] + more);
    SymbolIsNoSpace(word);
    SpaceSkipped(more);
    assert [] + FilterErrors(Absent) == [];
    WordAndArgument(d, TriggerSpec(name), word, argument);
    OneTrigger(d, name + (" " + (word + (":" + argument))), TriggerSpec(name),
               [UnexpectedToken(Some(":")), UnexpectedToken(None)]);
  }

  lemma TwoWordsText(name: string, word: string, second: string)
    requires IsName(name) && Sealed(Tokens(name)) && IsSymbol(word) && IsSymbol(second)
    ensures Tokens(name + (" " + (word + (" " + second)))) == Tokens(name) + ([" "] + ([word] + [" ", second]))
  {
    PrintsTokens(name);
    PrintsToken(" ");
    PrintsToken(word);
    PrintsToken(second);
    PrintsAppend([" "], " ", [second], second);
    assert [" "] + [second] == [" ", second];
    PrintsAppend([word], word, [" ", second], " " + second);
    PrintsAppend([" "], " ", [word] + [" ", second], word + (" " + second));
    Follows(Tokens(name), name, [" "] + ([word] + [" ", second]), " " + (word + (" " + second)));
  }

  /** A modifier that lacks its colon is reported with the blank behind it, and the next one is read. */
  lemma ArgumentMissing(d: Deps, name: string, word: string)
    requires NeverGrows(d) && IsName(name) && Sealed(Tokens(name)) && IsSymbol(word) && !IsFlag(word)
    requires d.custom(word, [" ", "once"], TriggerSpec(name)) == None
    ensures Parse(d, name + (" " + (word + (" " + "once")))) ==
              Parsed([TriggerSpec(name, once := true)], [UnexpectedToken(Some(" "))])
  {
    var more, spec := [word] + [" ", "once"], TriggerSpec(name);
    assert IsSymbol("once");
    TwoWordsText(name, word, "once");
    NameTaken(d, name, [" "] + more, []);
    Headed(name, [" "] + more);
    SymbolIsNoSpace(word);
    SymbolIsNoSpace("once");
    SpaceSkipped(more);
    assert [] + FilterErrors(Absent) == [];
    OnceLeft(d, spec, word);
    OneTrigger(d, name + (" " + (word + (" " + "once"))), spec.(once := true), [UnexpectedToken(Some(" "))]);
  }

  lemma OnceLeft(d: Deps, spec: TriggerSpec, word: string)
    requires NeverGrows(d) && word != "," && !IsFlag(word) && d.custom(word, [" ", "once"], spec) == None
    ensures ParseModifiers(d, ModifierState(spec, [word] + [" ", "once"], [])) ==
              ModifierState(spec.(once := true), [], [UnexpectedToken(Some(" "))])
  {
    var st := ModifierState(spec, [word] + [" ", "once"], []);
    var next := ModifierState(spec, ["once"], [UnexpectedToken(Some(" "))]);
    assert IsSymbol("once");
    SymbolIsNoSpace("once");
    assert st.tokens[1..] == [" ", "once"] && [" ", "once"][1..] == ["once"];
    assert Until(["once"], NotWhitespace) == 0 && ["once"][0..] == ["once"];
    assert SkipSpace(ModifierStep(d, st)) == next && ParseModifiers(d, st) == ParseModifiers(d, next);
    OnlyOnce(d, next);
  }

  lemma OnlyOnce(d: Deps, st: ModifierState)
    requires NeverGrows(d) && st.tokens == ["once"]
    ensures ParseModifiers(d, st) == st.(spec := st.spec.(once := true), tokens := [])
  {
    assert st.tokens[1..] == [] && Left([], NotWhitespace) == [];
    var next := SkipSpace(ModifierStep(d, st));
    assert next == st.(spec := st.spec.(once := true), tokens := []);
    assert ParseModifiers(d, st) == ParseModifiers(d, next) == next;
  }

  /** A custom parser that accepts a modifier takes as many tokens as it likes: here its argument. */
  lemma CustomArgument(d: Deps, name: string, word: string, argument: string, spec: TriggerSpec)
    requires NeverGrows(d) && IsName(name) && Sealed(Tokens(name)) && IsSymbol(word) && IsSymbol(argument)
    requires !IsFlag(word) && !TakesArgument(word)
    requires d.custom(word, [":", argument], TriggerSpec(name)) == Some(CustomEffect(true, [], spec))
    ensures Parse(d, name + (" " + (word + (":" + argument)))) == Parsed([spec], [])
  {
    var more := [word] + [":", argument];
    ArgumentText(name, word, argument);
    NameTaken(d, name, [" "] + more, []);
    Headed(name, [" "] + more);
    SymbolIsNoSpace(word);
    SpaceSkipped(more);
    var st := ModifierState(TriggerSpec(name), more, []);
    assert more[1..] == [":", argument] && [":", argument][1..] == [argument] && Left([], NotWhitespace) == [];
    assert ParseModifiers(d, st) == ParseModifiers(d, SkipSpace(ModifierStep(d, st))) == ModifierState(spec, [], []);
    assert [] + FilterErrors(Absent) == [];
    OneTrigger(d, name + (" " + (word + (":" + argument))), spec, []);
  }

  lemma SymbolIsNoSpace(word: string)
    requires IsSymbol(word)
    ensures NotWhitespace.Test(word) && word != "," && word != "["
  {
    assert NotWhitespace.Has(word[0]);
  }

  // ---- Polling ----

  /** What stands behind an interval, white space apart, and is neither a filter nor the next trigger. */
  predicate IsTrailing(rest: seq<string>) {
    rest != [] && NotWhitespace.Test(rest[0]) && rest[0] != "[" && rest[0] != ","
  }

  lemma PollingText(interval: string, rest: string)
    requires interval != "" && Sealed(Tokens(interval))
    ensures Tokens("every" + (" " + (interval + (" " + rest))))
         == ["every"] + ([" "] + (Tokens(interval) + ([" "] + Tokens(rest))))
  {
    TokensUnique(rest, Tokens(rest));
    PrintsToken("every");
    PrintsToken(" ");
    PrintsTokens(interval);
    Follows([" "], " ", Tokens(rest), rest);
    TokensUnique(" " + rest, [" "] + Tokens(rest));
    Follows(Tokens(interval), interval, [" "] + Tokens(rest), " " + rest);
    TokensUnique(interval + (" " + rest), Tokens(interval) + ([" "] + Tokens(rest)));
    Follows([" "], " ", Tokens(interval) + ([" "] + Tokens(rest)), interval + (" " + rest));
    TokensUnique(" " + (interval + (" " + rest)), [" "] + (Tokens(interval) + ([" "] + Tokens(rest))));
    Follows(["every"], "every", [" "] + (Tokens(interval) + ([" "] + Tokens(rest))), " " + (interval + (" " + rest)));
  }

  lemma PollingTaken(d: Deps, interval: string, rest: seq<string>)
    requires NeverGrows(d) && interval != "" && IsWord(interval, NameEnd) && IsTrailing(rest)
    ensures ParseTrigger(d, ["every"] + ([" "] + (Tokens(interval) + ([" "] + rest))), []) ==
              (Some(TriggerSpec("every", pollInterval := d.parseInterval(interval))), rest, [])
  {
    var ts1 := Tokens(interval) + ([" "] + rest);
    SeparatorTests(' ', NameEnd);
    EveryWordTaken(ts1);
    TokensUnique(interval, Tokens(interval));
    TokensNonEmpty(interval, 0);
    assert NotWhitespace.Has(Tokens(interval)[0][0]);
    SpaceSkipped(ts1);
    WordTaken(interval, NameEnd, [" "] + rest);
    SpaceSkipped(rest);
    EveryResult(d, ["every"] + ([" "] + ts1), interval, rest, []);
    assert [] + FilterErrors(Absent) == [];
  }

  /**
    A polling trigger has no modifiers: the parser stops at the first token behind the interval, and neither
    that nor any trigger behind it is read or complained about.
   */
  lemma PollingEndsText(d: Deps, interval: string, rest: string)
    requires NeverGrows(d) && interval != "" && IsWord(interval, NameEnd) && IsTrailing(Tokens(rest))
    ensures Parse(d, "every" + (" " + (interval + (" " + rest)))) ==
              Parsed([TriggerSpec("every", pollInterval := d.parseInterval(interval))], [])
  {
    var ts, more := Tokens("every" + (" " + (interval + (" " + rest)))), Tokens(rest);
    PollingText(interval, rest);
    PollingTaken(d, interval, more);
    assert NotWhitespace.Has("every"[0]);
    assert ts[0] == "every" && Until(ts, NotWhitespace) == 0 && ts[0..] == ts;
    SpaceSkipped(more);
    assert |ts| > |more|;
    assert TriggerStep(d, Parsed([], []), ts) ==
             (Parsed([] + [TriggerSpec("every", pollInterval := d.parseInterval(interval))], []), more);
    assert [] + [TriggerSpec("every", pollInterval := d.parseInterval(interval))]
           == [TriggerSpec("every", pollInterval := d.parseInterval(interval))];
  }
}
