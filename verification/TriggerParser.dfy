/**
  The parser of the hx-trigger attribute and its result cache.

  Everything the parser asks of its environment is in `Deps`.  The functions describe one loop
  iteration or one loop each; the methods of `TriggerParser` are the loops, proved against them.
 */
module TriggerParsers {
  import opened Wrappers
  import opened TriggerTokens
  import opened TokenStreams
  import opened TriggerFilter

  datatype TriggerSpec = TriggerSpec(
    trigger: string,
    eventFilter: Option<string> := None,
    pollInterval: Option<real> := None,
    changed: bool := false,
    once: bool := false,
    consume: bool := false,
    delay: Option<real> := None,
    from: Option<string> := None,
    target: Option<string> := None,
    throttle: Option<real> := None,
    queue: Option<string> := None,
    root: Option<string> := None,
    threshold: Option<string> := None)

  /** The detail of an `htmx:syntax:error` event. */
  datatype SyntaxError = UnexpectedToken(token: Option<string>) | BadFilter(source: string)

  /** What a custom modifier parser did with the stream and the specification it was handed. */
  datatype CustomEffect = CustomEffect(accepted: bool, tokens: seq<string>, spec: TriggerSpec)

  /** `custom` is None where no parser is registered for the token. */
  datatype Deps = Deps(
    parseInterval: string -> Option<real>,
    compiles: string -> bool,
    custom: (string, seq<string>, TriggerSpec) -> Option<CustomEffect>)

  /** Custom modifier parsers never put tokens back. */
  ghost predicate NeverGrows(d: Deps) {
    forall token, tokens, spec ::
      d.custom(token, tokens, spec).Some? ==> |d.custom(token, tokens, spec).value.tokens| <= |tokens|
  }

  function Head(ts: seq<string>): Option<string> {
    if ts == [] then None else Some(ts[0])
  }

  predicate IsRelativeKeyword(text: string) {
    text == "closest" || text == "find" || text == "next" || text == "previous"
  }

  function FromText(ts: seq<string>): string {
    if HeadTests(ts, SelectorStart) then SelectorText(ts)
    else
      var fromArg := Taken(ts, WhitespaceOrComma);
      if !IsRelativeKeyword(fromArg) then fromArg
      else
        var selector := SelectorText(Tail(Left(ts, WhitespaceOrComma)));
        if |selector| > 0 then fromArg + " " + selector else fromArg
  }

  function AfterFrom(ts: seq<string>): (rest: seq<string>)
    ensures |rest| <= |ts|
  {
    if HeadTests(ts, SelectorStart) then AfterSelector(ts)
    else if !IsRelativeKeyword(Taken(ts, WhitespaceOrComma)) then Left(ts, WhitespaceOrComma)
    else AfterSelector(Tail(Left(ts, WhitespaceOrComma)))
  }

  datatype ModifierState = ModifierState(spec: TriggerSpec, tokens: seq<string>, errors: seq<SyntaxError>)

  /** The modifiers the parser knows itself: the new specification and the remaining tokens. */
  function BuiltIn(d: Deps, spec: TriggerSpec, token: string,
                   rest: seq<string>): (r: Option<(TriggerSpec, seq<string>)>)
    ensures r.Some? ==> |r.value.1| <= |rest|
  {
    if token == "changed" then Some((spec.(changed := true), rest))
    else if token == "once" then Some((spec.(once := true), rest))
    else if token == "consume" then Some((spec.(consume := true), rest))
    else if Head(rest) != Some(":") then None
    else WithArgument(d, spec, token, rest[1..])
  }

  /** The modifiers that take an argument after a colon. */
  function WithArgument(d: Deps, spec: TriggerSpec, token: string,
                        arg: seq<string>): (r: Option<(TriggerSpec, seq<string>)>)
    ensures r.Some? ==> |r.value.1| <= |arg|
  {
    var text, rest := Taken(arg, WhitespaceOrComma), Left(arg, WhitespaceOrComma);
    if token == "delay" then Some((spec.(delay := d.parseInterval(text)), rest))
    else if token == "from" then Some((spec.(from := Some(FromText(arg))), AfterFrom(arg)))
    else if token == "target" then Some((spec.(target := Some(SelectorText(arg))), AfterSelector(arg)))
    else if token == "throttle" then Some((spec.(throttle := d.parseInterval(text)), rest))
    else if token == "queue" then Some((spec.(queue := Some(text)), rest))
    else if token == "root" then Some((spec.(root := Some(SelectorText(arg))), AfterSelector(arg)))
    else if token == "threshold" then Some((spec.(threshold := Some(text)), rest))
    else None
  }

  /** One iteration of the modifier loop, without the white space skipped at its end. */
  function ModifierStep(d: Deps, st: ModifierState): (r: ModifierState)
    requires NeverGrows(d) && st.tokens != []
    ensures |r.tokens| < |st.tokens|
  {
    var token, rest, spec := st.tokens[0], st.tokens[1..], st.spec;
    match BuiltIn(d, spec, token, rest)
    case Some((spec', rest')) => ModifierState(spec', rest', st.errors)
    case None =>
      match d.custom(token, rest, spec)
      case None => ModifierState(spec, Tail(rest), st.errors + [UnexpectedToken(Head(rest))])
      case Some(e) =>
        if e.accepted then ModifierState(e.spec, e.tokens, st.errors)
        else ModifierState(e.spec, Tail(e.tokens), st.errors + [UnexpectedToken(Head(e.tokens))])
  }

  function SkipSpace(st: ModifierState): (r: ModifierState)
    ensures |r.tokens| <= |st.tokens|
  {
    st.(tokens := Left(st.tokens, NotWhitespace))
  }

  function ParseModifiers(d: Deps, st: ModifierState): (r: ModifierState)
    requires NeverGrows(d)
    ensures |r.tokens| <= |st.tokens|
    ensures r.tokens == [] || r.tokens[0] == ","
    decreases |st.tokens|
  {
    if st.tokens == [] || st.tokens[0] == "," then st
    else ParseModifiers(d, SkipSpace(ModifierStep(d, st)))
  }

  function FilterField(c: Conditional): Option<string> {
    if c.Generated? then Some(c.source) else None
  }

  function FilterErrors(c: Conditional): seq<SyntaxError> {
    if c.Rejected? then [BadFilter(c.source)] else []
  }

  const PARAM := "event"

  /** One trigger: what follows the white space at the start of an iteration of the outer loop. */
  function ParseTrigger(d: Deps, tokens: seq<string>,
                        errors: seq<SyntaxError>): (r: (Option<TriggerSpec>, seq<string>, seq<SyntaxError>))
    requires NeverGrows(d)
    ensures |r.1| <= |tokens|
    ensures r.0.Some? ==> |r.1| < |tokens|
    ensures r.0.None? ==> r.1 == Left(tokens, NameEnd) && r.2 == errors
  {
    var trigger, rest := Taken(tokens, NameEnd), Left(tokens, NameEnd);
    if trigger == "" then (None, rest, errors)
    else if trigger == "every" then
      var ts := Left(rest, NotWhitespace);
      var interval, ts2 := Taken(ts, NameEnd), Left(Left(ts, NameEnd), NotWhitespace);
      var c := ConditionalOf(ts2, PARAM, d.compiles);
      (Some(TriggerSpec("every", eventFilter := FilterField(c), pollInterval := d.parseInterval(interval))),
       AfterConditional(ts2, PARAM), errors + FilterErrors(c))
    else
      var c := ConditionalOf(rest, PARAM, d.compiles);
      var m := ParseModifiers(d, SkipSpace(ModifierState(TriggerSpec(trigger, eventFilter := FilterField(c)),
                                                         AfterConditional(rest, PARAM), errors + FilterErrors(c))));
      (Some(m.spec), m.tokens, m.errors)
  }

  datatype Parsed = Parsed(specs: seq<TriggerSpec>, errors: seq<SyntaxError>)

  /** One iteration of the outer loop, up to the test for a comma. */
  function TriggerStep(d: Deps, p: Parsed, tokens: seq<string>): (r: (Parsed, seq<string>))
    requires NeverGrows(d)
    ensures |r.1| <= |tokens|
  {
    var ts := Left(tokens, NotWhitespace);
    var (spec, rest, errors) := ParseTrigger(d, ts, p.errors);
    var specs := if spec.Some? then p.specs + [spec.value] else p.specs;
    if |rest| == |ts| then
      (Parsed(specs, errors + [UnexpectedToken(Head(rest))]), Left(Tail(rest), NotWhitespace))
    else
      (Parsed(specs, errors), Left(rest, NotWhitespace))
  }

  function ParseList(d: Deps, p: Parsed, tokens: seq<string>): Parsed
    requires NeverGrows(d)
    decreases |tokens|
  {
    var (p', rest) := TriggerStep(d, p, tokens);
    if Head(rest) == Some(",") then ParseList(d, p', rest[1..]) else p'
  }

  function Parse(d: Deps, text: string): Parsed
    requires NeverGrows(d)
  {
    ParseList(d, Parsed([], []), Tokens(text))
  }

  // ---- The remaining tokens ----

  predicate IsSuffix(a: seq<string>, b: seq<string>) {
    |a| <= |b| && a == b[|b| - |a|..]
  }

  /** Custom modifier parsers only take tokens from the front. */
  ghost predicate TakesFromFront(d: Deps) {
    forall token, tokens, spec ::
      d.custom(token, tokens, spec).Some? ==> IsSuffix(d.custom(token, tokens, spec).value.tokens, tokens)
  }

  lemma SuffixTrans(a: seq<string>, b: seq<string>, c: seq<string>)
    requires IsSuffix(a, b) && IsSuffix(b, c)
    ensures IsSuffix(a, c)
  {
  }

  lemma RunTakesFromFront(ts: seq<string>, m: Matcher)
    ensures IsSuffix(Left(ts, m), ts) && IsSuffix(Tail(ts), ts)
  {
  }

  lemma SelectorTakesFromFront(ts: seq<string>)
    ensures IsSuffix(AfterSelector(ts), ts)
  {
    if HeadTests(ts, SelectorStart) {
      var l := Left(ts[1..], SelectorEnd);
      SuffixTrans(Tail(l), l, ts[1..]);
      SuffixTrans(Tail(l), ts[1..], ts);
    }
  }

  lemma FromTakesFromFront(ts: seq<string>)
    ensures IsSuffix(AfterFrom(ts), ts)
  {
    SelectorTakesFromFront(ts);
    var l := Left(ts, WhitespaceOrComma);
    SelectorTakesFromFront(Tail(l));
    SuffixTrans(Tail(l), l, ts);
    SuffixTrans(AfterSelector(Tail(l)), Tail(l), ts);
  }

  lemma ArgumentTakesFromFront(d: Deps, spec: TriggerSpec, token: string, arg: seq<string>)
    ensures var r := WithArgument(d, spec, token, arg);
            r.Some? ==> IsSuffix(r.value.1, arg)
  {
    if token == "from" {
      FromTakesFromFront(arg);
    } else if token == "target" || token == "root" {
      SelectorTakesFromFront(arg);
    } else {
      RunTakesFromFront(arg, WhitespaceOrComma);
    }
  }

  lemma StepTakesFromFront(d: Deps, st: ModifierState)
    requires TakesFromFront(d) && NeverGrows(d) && st.tokens != []
    ensures IsSuffix(ModifierStep(d, st).tokens, st.tokens[1..])
  {
    var token, rest := st.tokens[0], st.tokens[1..];
    var builtIn, custom := BuiltIn(d, st.spec, token, rest), d.custom(token, rest, st.spec);
    if builtIn.Some? {
      if Head(rest) == Some(":") {
        ArgumentTakesFromFront(d, st.spec, token, rest[1..]);
        if builtIn == WithArgument(d, st.spec, token, rest[1..]) {
          SuffixTrans(builtIn.value.1, rest[1..], rest);
        }
      }
    } else if custom.Some? {
      assert IsSuffix(custom.value.tokens, rest);
      SuffixTrans(Tail(custom.value.tokens), custom.value.tokens, rest);
    }
  }

  /**
    Every modifier takes at least one token, and only from the front: what remains is a proper
    suffix of what was there.
   */
  lemma {:induction false} ModifierTakesFromFront(d: Deps, st: ModifierState)
    requires TakesFromFront(d) && NeverGrows(d) && st.tokens != []
    ensures var r := SkipSpace(ModifierStep(d, st)).tokens;
            IsSuffix(r, st.tokens) && |r| < |st.tokens|
  {
    StepTakesFromFront(d, st);
    var r := ModifierStep(d, st).tokens;
    SuffixTrans(r, st.tokens[1..], st.tokens);
    RunTakesFromFront(r, NotWhitespace);
    SuffixTrans(Left(r, NotWhitespace), r, st.tokens);
  }

  lemma {:induction false} ModifiersTakeFromFront(d: Deps, st: ModifierState)
    requires TakesFromFront(d) && NeverGrows(d)
    ensures IsSuffix(ParseModifiers(d, st).tokens, st.tokens)
    decreases |st.tokens|
  {
    if st.tokens != [] && st.tokens[0] != "," {
      ModifierTakesFromFront(d, st);
      var next := SkipSpace(ModifierStep(d, st));
      ModifiersTakeFromFront(d, next);
      SuffixTrans(ParseModifiers(d, next).tokens, next.tokens, st.tokens);
    }
  }

  lemma ConditionalTakesFromFront(tokens: seq<string>, param: string)
    ensures IsSuffix(AfterConditional(tokens, param), tokens)
  {
    if tokens != [] && tokens[0] == "[" {
      var k := |tokens| - |AfterConditional(tokens, param)|;
      var compiles := (s: string) => true;
      FilterConsumesBlock(tokens, param, compiles, k);
    }
  }

  lemma LeftFrom(ts: seq<string>, all: seq<string>, m: Matcher)
    requires IsSuffix(ts, all)
    ensures IsSuffix(Left(ts, m), all)
  {
    RunTakesFromFront(ts, m);
    SuffixTrans(Left(ts, m), ts, all);
  }

  lemma EveryLeaves(d: Deps, ts: seq<string>, errors: seq<SyntaxError>)
    requires NeverGrows(d) && Taken(ts, NameEnd) == "every"
    ensures ParseTrigger(d, ts, errors).1 ==
              AfterConditional(Left(Left(Left(Left(ts, NameEnd), NotWhitespace), NameEnd), NotWhitespace), PARAM)
  {
  }

  lemma EveryTakesFromFront(d: Deps, ts: seq<string>, errors: seq<SyntaxError>)
    requires NeverGrows(d) && Taken(ts, NameEnd) == "every"
    ensures IsSuffix(ParseTrigger(d, ts, errors).1, ts)
  {
    RunTakesFromFront(ts, NameEnd);
    var ts1 := Left(ts, NameEnd);
    LeftFrom(ts1, ts, NotWhitespace);
    var ts2 := Left(ts1, NotWhitespace);
    LeftFrom(ts2, ts, NameEnd);
    var ts3 := Left(ts2, NameEnd);
    LeftFrom(ts3, ts, NotWhitespace);
    var ts4 := Left(ts3, NotWhitespace);
    ConditionalTakesFromFront(ts4, PARAM);
    SuffixTrans(AfterConditional(ts4, PARAM), ts4, ts);
    EveryLeaves(d, ts, errors);
  }

  lemma ParseTriggerTakesFromFront(d: Deps, ts: seq<string>, errors: seq<SyntaxError>)
    requires TakesFromFront(d) && NeverGrows(d)
    ensures IsSuffix(ParseTrigger(d, ts, errors).1, ts)
  {
    var trigger, rest, after := Taken(ts, NameEnd), Left(ts, NameEnd), ParseTrigger(d, ts, errors).1;
    if trigger == "every" {
      EveryTakesFromFront(d, ts, errors);
    } else if trigger != "" {
      var c := ConditionalOf(rest, PARAM, d.compiles);
      var st := ModifierState(TriggerSpec(trigger, eventFilter := FilterField(c)),
                              AfterConditional(rest, PARAM), errors + FilterErrors(c));
      ConditionalTakesFromFront(rest, PARAM);
      SuffixTrans(st.tokens, rest, ts);
      SuffixTrans(SkipSpace(st).tokens, st.tokens, ts);
      ModifiersTakeFromFront(d, SkipSpace(st));
      SuffixTrans(after, SkipSpace(st).tokens, ts);
    }
  }

  lemma DropFromFront(after: seq<string>, ts: seq<string>)
    requires IsSuffix(after, ts)
    ensures var r := Left(if |after| == |ts| then Tail(after) else after, NotWhitespace);
            IsSuffix(r, ts) && (ts != [] ==> |r| < |ts|)
  {
    var left := if |after| == |ts| then Tail(after) else after;
    SuffixTrans(left, after, ts);
    SuffixTrans(Left(left, NotWhitespace), left, ts);
  }

  /**
    An iteration of the outer loop leaves a suffix of the tokens, and a proper one whenever there
    were tokens: an iteration that recognizes nothing drops one token and reports it.
   */
  lemma {:induction false} TriggerTakesFromFront(d: Deps, p: Parsed, tokens: seq<string>)
    requires TakesFromFront(d) && NeverGrows(d)
    ensures var r := TriggerStep(d, p, tokens).1;
            IsSuffix(r, tokens) && (tokens != [] ==> |r| < |tokens|)
  {
    var ts := Left(tokens, NotWhitespace);
    ParseTriggerTakesFromFront(d, ts, p.errors);
    DropFromFront(ParseTrigger(d, ts, p.errors).1, ts);
    StepLeaves(d, p, tokens);
    RunTakesFromFront(tokens, NotWhitespace);
    SuffixCloses(TriggerStep(d, p, tokens).1, ts, tokens);
  }

  lemma SuffixCloses(r: seq<string>, ts: seq<string>, tokens: seq<string>)
    requires IsSuffix(r, ts) && (ts != [] ==> |r| < |ts|) && IsSuffix(ts, tokens)
    ensures IsSuffix(r, tokens) && (tokens != [] ==> |r| < |tokens|)
  {
    SuffixTrans(r, ts, tokens);
  }

  lemma StepLeaves(d: Deps, p: Parsed, tokens: seq<string>)
    requires NeverGrows(d)
    ensures var ts := Left(tokens, NotWhitespace);
            var after := ParseTrigger(d, ts, p.errors).1;
            TriggerStep(d, p, tokens).1 == Left(if |after| == |ts| then Tail(after) else after, NotWhitespace)
  {
  }

  // ---- The parser itself ----

  /** What `matches` answers for the element: which default trigger it has. */
  datatype ElementKind = Form | ButtonInput | Field | OtherElement

  function DefaultSpecs(kind: ElementKind): seq<TriggerSpec> {
    match kind
    case Form => [TriggerSpec("submit")]
    case ButtonInput => [TriggerSpec("click")]
    case Field => [TriggerSpec("change")]
    case OtherElement => [TriggerSpec("click")]
  }

  /** The answer of a parser without a cache. */
  function FreshSpecs(d: Deps, attribute: Option<string>, kind: ElementKind): seq<TriggerSpec>
    requires NeverGrows(d)
  {
    var specs := if attribute.None? || attribute.value == "" then [] else Parse(d, attribute.value).specs;
    if |specs| > 0 then specs else DefaultSpecs(kind)
  }

  class TriggerParser {
    const deps: Deps
    /** `htmx.config.triggerSpecsCache`: absent by default. */
    var cache: Option<map<string, seq<TriggerSpec>>>
    /** The `htmx:syntax:error` events triggered so far. */
    var errors: seq<SyntaxError>

    ghost predicate Valid()
      reads this
    {
      && NeverGrows(deps)
      && (cache.Some? ==> forall text :: text in cache.value ==> cache.value[text] == Parse(deps, text).specs)
    }

    constructor (deps: Deps, cache: Option<map<string, seq<TriggerSpec>>>)
      requires NeverGrows(deps)
      requires cache.Some? ==> cache.value == map[]
      ensures Valid() && this.deps == deps && this.cache == cache && errors == []
    {
      this.deps := deps;
      this.cache := cache;
      this.errors := [];
    }

    method ParseOneModifier(stream: TokenStream, spec: TriggerSpec) returns (spec': TriggerSpec)
      requires NeverGrows(deps) && stream.tokens != [] && (stream as object) != this
      modifies stream, `errors
      ensures ModifierState(spec', stream.tokens, errors)
           == ModifierStep(deps, ModifierState(spec, old(stream.tokens), old(errors)))
    {
      spec' := spec;
      var shifted := stream.Shift();
      var token := shifted.value;
      var hasArg := stream.tokens != [] && stream.tokens[0] == ":";
      if token == "changed" {
        spec' := spec.(changed := true);
      } else if token == "once" {
        spec' := spec.(once := true);
      } else if token == "consume" {
        spec' := spec.(consume := true);
      } else if token == "delay" && hasArg {
        var _ := stream.Shift();
        var text := stream.ConsumeUntil(WhitespaceOrComma);
        spec' := spec.(delay := deps.parseInterval(text));
      } else if token == "from" && hasArg {
        var _ := stream.Shift();
        var fromArg := "";
        if stream.tokens != [] && SelectorStart.Test(stream.tokens[0]) {
          fromArg := stream.ConsumeCSSSelector();
        } else {
          fromArg := stream.ConsumeUntil(WhitespaceOrComma);
          if IsRelativeKeyword(fromArg) {
            var _ := stream.Shift();
            var selector := stream.ConsumeCSSSelector();
            if |selector| > 0 {
              fromArg := fromArg + " " + selector;
            }
          }
        }
        spec' := spec.(from := Some(fromArg));
      } else if token == "target" && hasArg {
        var _ := stream.Shift();
        var selector := stream.ConsumeCSSSelector();
        spec' := spec.(target := Some(selector));
      } else if token == "throttle" && hasArg {
        var _ := stream.Shift();
        var text := stream.ConsumeUntil(WhitespaceOrComma);
        spec' := spec.(throttle := deps.parseInterval(text));
      } else if token == "queue" && hasArg {
        var _ := stream.Shift();
        var text := stream.ConsumeUntil(WhitespaceOrComma);
        spec' := spec.(queue := Some(text));
      } else if token == "root" && hasArg {
        var _ := stream.Shift();
        var selector := stream.ConsumeCSSSelector();
        spec' := spec.(root := Some(selector));
      } else if token == "threshold" && hasArg {
        var _ := stream.Shift();
        var text := stream.ConsumeUntil(WhitespaceOrComma);
        spec' := spec.(threshold := Some(text));
      } else {
        var accepted := false;
        match deps.custom(token, stream.tokens, spec) {
          case None =>
          case Some(e) =>
            accepted, spec' := e.accepted, e.spec;
            stream.tokens := e.tokens;
        }
        if !accepted {
          var unexpected := stream.Shift();
          errors := errors + [UnexpectedToken(unexpected)];
        }
      }
    }

    method ParseFilter(stream: TokenStream) returns (filter: Option<string>)
      requires (stream as object) != this
      modifies stream, `errors
      ensures var c := ConditionalOf(old(stream.tokens), PARAM, deps.compiles);
              filter == FilterField(c) && errors == old(errors) + FilterErrors(c)
      ensures stream.tokens == AfterConditional(old(stream.tokens), PARAM)
    {
      var c := MaybeGenerateConditional(stream, PARAM, deps.compiles);
      if c.Rejected? {
        errors := errors + [BadFilter(c.source)];
      }
      filter := FilterField(c);
    }

    method ParseOneTrigger(stream: TokenStream) returns (spec: Option<TriggerSpec>)
      requires NeverGrows(deps) && (stream as object) != this
      modifies stream, `errors
      ensures (spec, stream.tokens, errors) == ParseTrigger(deps, old(stream.tokens), old(errors))
    {
      var trigger := stream.ConsumeUntil(NameEnd);
      if trigger == "" {
        return None;
      }
      if trigger == "every" {
        var _ := stream.ConsumeUntil(NotWhitespace);
        var interval := stream.ConsumeUntil(NameEnd);
        var _ := stream.ConsumeUntil(NotWhitespace);
        var filter := ParseFilter(stream);
        return Some(TriggerSpec("every", eventFilter := filter, pollInterval := deps.parseInterval(interval)));
      }
      var filter := ParseFilter(stream);
      var triggerSpec := TriggerSpec(trigger, eventFilter := filter);
      var _ := stream.ConsumeUntil(NotWhitespace);
      ghost var start := ModifierState(triggerSpec, stream.tokens, errors);
      while stream.tokens != [] && stream.tokens[0] != ","
        invariant ParseModifiers(deps, ModifierState(triggerSpec, stream.tokens, errors)) == ParseModifiers(deps, start)
        decreases |stream.tokens|
      {
        triggerSpec := ParseOneModifier(stream, triggerSpec);
        var _ := stream.ConsumeUntil(NotWhitespace);
      }
      return Some(triggerSpec);
    }

    method ParseAndCacheTrigger(explicitTrigger: string) returns (triggerSpecs: seq<TriggerSpec>)
      requires Valid()
      modifies this
      ensures Valid()
      ensures triggerSpecs == Parse(deps, explicitTrigger).specs
      ensures errors == old(errors) + Parse(deps, explicitTrigger).errors
      ensures cache == if old(cache).None? then None else Some(old(cache).value[explicitTrigger := triggerSpecs])
    {
      triggerSpecs := [];
      var tokens := TokenizeString(explicitTrigger);
      var stream := new TokenStream(tokens);
      var more := true;
      while more
        invariant fresh(stream) && cache == old(cache)
        invariant ParseList(deps, Parsed([], old(errors)), tokens)
               == if more then ParseList(deps, Parsed(triggerSpecs, errors), stream.tokens)
                 else Parsed(triggerSpecs, errors)
        decreases more, |stream.tokens|
      {
        var _ := stream.ConsumeUntil(NotWhitespace);
        var initialLength := |stream.tokens|;
        var spec := ParseOneTrigger(stream);
        if spec.Some? {
          triggerSpecs := triggerSpecs + [spec.value];
        }
        if |stream.tokens| == initialLength {
          var unexpected := stream.Shift();
          errors := errors + [UnexpectedToken(unexpected)];
        }
        var _ := stream.ConsumeUntil(NotWhitespace);
        more := stream.tokens != [] && stream.tokens[0] == ",";
        if more {
          var _ := stream.Shift();
        }
      }
      ListErrors(deps, Parsed([], []), tokens, old(errors));
      assert old(errors) + [] == old(errors);
      if cache.Some? {
        cache := Some(cache.value[explicitTrigger := triggerSpecs]);
      }
    }

    /** A cached answer is the answer a fresh parse would give; asking never changes an answer. */
    method GetTriggerSpecs(attribute: Option<string>, kind: ElementKind) returns (triggerSpecs: seq<TriggerSpec>)
      requires Valid()
      modifies this
      ensures Valid()
      ensures triggerSpecs == FreshSpecs(deps, attribute, kind)
      ensures attribute.None? || attribute.value == "" || Parse(deps, attribute.value).specs == [] ==>
                triggerSpecs ==
                  [TriggerSpec(if kind.Form? then "submit" else if kind.Field? then "change" else "click")]
      ensures cache.Some? == old(cache).Some?
      ensures cache.Some? && attribute.Some? && attribute.value != "" ==> attribute.value in cache.value
      ensures attribute.Some? && old(cache).Some? && attribute.value in old(cache).value ==>
                errors == old(errors) && cache == old(cache)
    {
      triggerSpecs := [];
      if attribute.Some? && attribute.value != "" {
        if cache.Some? && attribute.value in cache.value {
          triggerSpecs := cache.value[attribute.value];
        } else {
          triggerSpecs := ParseAndCacheTrigger(attribute.value);
        }
      }
      if |triggerSpecs| == 0 {
        triggerSpecs := DefaultSpecs(kind);
      }
    }
  }

  // ---- The errors reported earlier do not influence what is parsed ----

  lemma {:induction false} ModifierErrors(d: Deps, st: ModifierState, errors: seq<SyntaxError>)
    requires NeverGrows(d)
    ensures var r := ParseModifiers(d, st);
            ParseModifiers(d, st.(errors := errors + st.errors)) == r.(errors := errors + r.errors)
    decreases |st.tokens|
  {
    if st.tokens != [] && st.tokens[0] != "," {
      StepErrors(d, st, errors);
      ModifierErrors(d, SkipSpace(ModifierStep(d, st)), errors);
    }
  }

  lemma StepErrors(d: Deps, st: ModifierState, errors: seq<SyntaxError>)
    requires NeverGrows(d) && st.tokens != []
    ensures var r := ModifierStep(d, st);
            ModifierStep(d, st.(errors := errors + st.errors)) == r.(errors := errors + r.errors)
  {
    assert forall e :: (errors + st.errors) + e == errors + (st.errors + e);
  }

  lemma TriggerErrors(d: Deps, tokens: seq<string>, mine: seq<SyntaxError>, errors: seq<SyntaxError>)
    requires NeverGrows(d)
    ensures var (spec, rest, e) := ParseTrigger(d, tokens, mine);
            ParseTrigger(d, tokens, errors + mine) == (spec, rest, errors + e)
  {
    assert forall e :: (errors + mine) + e == errors + (mine + e);
    var trigger, rest := Taken(tokens, NameEnd), Left(tokens, NameEnd);
    var c := ConditionalOf(rest, PARAM, d.compiles);
    ModifierErrors(d, SkipSpace(ModifierState(TriggerSpec(trigger, eventFilter := FilterField(c)),
                                              AfterConditional(rest, PARAM), mine + FilterErrors(c))), errors);
  }

  lemma TriggerStepErrors(d: Deps, p: Parsed, tokens: seq<string>, errors: seq<SyntaxError>)
    requires NeverGrows(d)
    ensures var (p', rest) := TriggerStep(d, p, tokens);
            TriggerStep(d, p.(errors := errors + p.errors), tokens) == (p'.(errors := errors + p'.errors), rest)
  {
    TriggerErrors(d, Left(tokens, NotWhitespace), p.errors, errors);
    assert forall a: seq<SyntaxError>, b :: (errors + a) + b == errors + (a + b);
  }

  lemma {:induction false} ListErrors(d: Deps, p: Parsed, tokens: seq<string>, errors: seq<SyntaxError>)
    requires NeverGrows(d)
    ensures var r := ParseList(d, p, tokens);
            ParseList(d, p.(errors := errors + p.errors), tokens) == r.(errors := errors + r.errors)
    decreases |tokens|
  {
    TriggerStepErrors(d, p, tokens, errors);
    var (p', rest) := TriggerStep(d, p, tokens);
    if Head(rest) == Some(",") {
      ListErrors(d, p', rest[1..], errors);
    }
  }
}
