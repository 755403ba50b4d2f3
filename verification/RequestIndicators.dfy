/**
  Request indicators and disabled elements (web/src/htmx.ts): one counter per element, shared by the
  two roles an element can play in a request.
 */
module RequestIndicators {
  import opened Wrappers

  type Elt = nat

  /**
    `counts` is the `requestCount` of the elements that have one; the sets are the elements that carry
    the request class, the `disabled` attribute and htmx's own mark `data-disabled-by-htmx`.
   */
  datatype Page = Page(counts: map<Elt, nat>, classed: set<Elt>, disabled: set<Elt>, marked: set<Elt>)

  function Count(counts: map<Elt, nat>, e: Elt): nat {
    if e in counts then counts[e] else 0
  }

  function Raised(counts: map<Elt, nat>, es: seq<Elt>): map<Elt, nat> {
    if es == [] then counts
    else var c := Raised(counts, es[..|es| - 1]); c[es[|es| - 1] := Count(c, es[|es| - 1]) + 1]
  }

  /** A missing or zero counter is taken for one before it is lowered. */
  function Lowered(counts: map<Elt, nat>, es: seq<Elt>): map<Elt, nat> {
    if es == [] then counts
    else
      var c, e := Lowered(counts, es[..|es| - 1]), es[|es| - 1];
      c[e := (if Count(c, e) == 0 then 1 else Count(c, e)) - 1]
  }

  function Elements(es: seq<Elt>): set<Elt> {
    set e | e in es
  }

  function Start(p: Page, indicators: seq<Elt>, disabled: seq<Elt>): Page {
    Page(Raised(Raised(p.counts, indicators), disabled),
         p.classed + Elements(indicators),
         p.disabled + Elements(disabled),
         p.marked + (Elements(disabled) - p.disabled))
  }

  /** Those of the elements that no request counts any more. */
  function Free(counts: map<Elt, nat>, es: seq<Elt>): set<Elt> {
    set e | e in es && Count(counts, e) == 0
  }

  function Finish(p: Page, indicators: seq<Elt>, disabled: seq<Elt>): Page {
    var counts := Lowered(p.counts, indicators + disabled);
    Page(counts, p.classed - Free(counts, indicators), p.disabled - (Free(counts, disabled) * p.marked),
         p.marked - Free(counts, disabled))
  }

  class Document {
    var counts: map<Elt, nat>
    var classed: set<Elt>
    var disabled: set<Elt>
    var marked: set<Elt>

    function Abstract(): Page
      reads this
    {
      Page(counts, classed, disabled, marked)
    }

    /** `targets` is what the indicator attribute resolves to; without it the element itself is meant. */
    method AddRequestIndicatorClasses(elt: Elt, targets: Option<seq<Elt>>) returns (indicators: seq<Elt>)
      modifies this
      ensures indicators == (if targets.None? then [elt] else targets.value)
      ensures Abstract() == Start(old(Abstract()), indicators, [])
    {
      indicators := if targets.None? then [elt] else targets.value;
      for i := 0 to |indicators|
        invariant counts == Raised(old(counts), indicators[..i])
        invariant classed == old(classed) + Elements(indicators[..i])
        invariant disabled == old(disabled) && marked == old(marked)
      {
        assert indicators[..i + 1][..i] == indicators[..i];
        counts := counts[indicators[i] := Count(counts, indicators[i]) + 1];
        classed := classed + {indicators[i]};
      }
      assert indicators[..|indicators|] == indicators;
    }

    method DisableElements(targets: Option<seq<Elt>>) returns (disabledElts: seq<Elt>)
      modifies this
      ensures disabledElts == (if targets.None? then [] else targets.value)
      ensures Abstract() == Start(old(Abstract()), [], disabledElts)
    {
      disabledElts := if targets.None? then [] else targets.value;
      for i := 0 to |disabledElts|
        invariant counts == Raised(old(counts), disabledElts[..i])
        invariant disabled == old(disabled) + Elements(disabledElts[..i])
        invariant marked == old(marked) + (Elements(disabledElts[..i]) - old(disabled))
        invariant classed == old(classed)
      {
        assert disabledElts[..i + 1][..i] == disabledElts[..i];
        var e := disabledElts[i];
        counts := counts[e := Count(counts, e) + 1];
        if e !in disabled {
          disabled := disabled + {e};
          marked := marked + {e};
        }
      }
      assert disabledElts[..|disabledElts|] == disabledElts;
    }

    method RemoveRequestIndicators(indicators: seq<Elt>, disabledElts: seq<Elt>)
      modifies this
      ensures Abstract() == Finish(old(Abstract()), indicators, disabledElts)
    {
      LowerCounts(indicators + disabledElts);
      RemoveClasses(indicators);
      EnableElements(disabledElts);
    }

    /** The loop over all elements of a request that lowers their counters. */
    method LowerCounts(all: seq<Elt>)
      modifies `counts
      ensures counts == Lowered(old(counts), all)
    {
      for i := 0 to |all|
        invariant counts == Lowered(old(counts), all[..i])
      {
        assert all[..i + 1][..i] == all[..i];
        counts := counts[all[i] := (if Count(counts, all[i]) == 0 then 1 else Count(counts, all[i])) - 1];
      }
      assert all[..|all|] == all;
    }

    /** The loop that takes the request class from indicators that no request counts. */
    method RemoveClasses(indicators: seq<Elt>)
      modifies `classed
      ensures classed == old(classed) - Free(counts, indicators)
    {
      for i := 0 to |indicators|
        invariant classed == old(classed) - Free(counts, indicators[..i])
      {
        FreeMore(counts, indicators, i);
        if Count(counts, indicators[i]) == 0 {
          classed := classed - {indicators[i]};
        }
      }
      assert indicators[..|indicators|] == indicators;
    }

    /** The loop that enables what no request counts and htmx has disabled. */
    method EnableElements(disabledElts: seq<Elt>)
      modifies `disabled, `marked
      ensures disabled == old(disabled) - (Free(counts, disabledElts) * old(marked))
      ensures marked == old(marked) - Free(counts, disabledElts)
    {
      for i := 0 to |disabledElts|
        invariant disabled == old(disabled) - (Free(counts, disabledElts[..i]) * old(marked))
        invariant marked == old(marked) - Free(counts, disabledElts[..i])
      {
        var e := disabledElts[i];
        FreeMore(counts, disabledElts, i);
        if Count(counts, e) == 0 && e in marked {
          disabled := disabled - {e};
          marked := marked - {e};
        }
      }
      assert disabledElts[..|disabledElts|] == disabledElts;
    }
  }

  lemma FreeMore(counts: map<Elt, nat>, es: seq<Elt>, i: nat)
    requires i < |es|
    ensures Free(counts, es[..i + 1]) == Free(counts, es[..i]) + if Count(counts, es[i]) == 0 then {es[i]} else {}
  {
    assert es[..i + 1] == es[..i] + [es[i]];
  }

  // ---- Runs ----

  /** A request that has been started and not finished, with the elements it lists. */
  datatype Request = Request(indicators: seq<Elt>, disabled: seq<Elt>)

  datatype State = State(page: Page, live: seq<Request>)

  datatype Event = Started(request: Request) | Finished(index: nat)

  /** `disabled` are the elements the page itself has disabled. */
  function Initial(disabled: set<Elt>): State {
    State(Page(map[], {}, disabled, {}), [])
  }

  function Without(live: seq<Request>, k: nat): seq<Request>
    requires k < |live|
  {
    live[..k] + live[k + 1..]
  }

  predicate Enabled(st: State, e: Event) {
    e.Finished? ==> e.index < |st.live|
  }

  function Next(st: State, e: Event): State
    requires Enabled(st, e)
  {
    match e
    case Started(r) => State(Start(Start(st.page, r.indicators, []), [], r.disabled), st.live + [r])
    case Finished(k) => State(Finish(st.page, st.live[k].indicators, st.live[k].disabled), Without(st.live, k))
  }

  predicate Possible(disabled: set<Elt>, events: seq<Event>)
    decreases |events|, 0
  {
    events != [] ==>
      Possible(disabled, Before(events)) && Enabled(Run(disabled, Before(events)), events[|events| - 1])
  }

  function Before(events: seq<Event>): (before: seq<Event>)
    requires events != []
    ensures |before| == |events| - 1
  {
    events[..|events| - 1]
  }

  function Run(disabled: set<Elt>, events: seq<Event>): State
    requires Possible(disabled, events)
    decreases |events|, 1
  {
    if events == [] then Initial(disabled) else Next(Run(disabled, Before(events)), events[|events| - 1])
  }

  /** How often the live requests list the element, in either role. */
  function Listed(live: seq<Request>, e: Elt): nat {
    if live == [] then 0
    else multiset(live[0].indicators)[e] + multiset(live[0].disabled)[e] + Listed(live[1..], e)
  }

  lemma {:induction false} RaisedCounts(counts: map<Elt, nat>, es: seq<Elt>, e: Elt)
    ensures Count(Raised(counts, es), e) == Count(counts, e) + multiset(es)[e]
  {
    if es != [] {
      RaisedCounts(counts, es[..|es| - 1], e);
      assert es == es[..|es| - 1] + [es[|es| - 1]];
    }
  }

  lemma {:induction false} LoweredCounts(counts: map<Elt, nat>, es: seq<Elt>, e: Elt)
    ensures var m := multiset(es)[e];
            Count(Lowered(counts, es), e) == if m <= Count(counts, e) then Count(counts, e) - m else 0
  {
    if es != [] {
      assert es == es[..|es| - 1] + [es[|es| - 1]];
      LoweredCounts(counts, es[..|es| - 1], e);
    }
  }

  lemma {:induction false} ListedAppend(a: seq<Request>, b: seq<Request>, e: Elt)
    ensures Listed(a + b, e) == Listed(a, e) + Listed(b, e)
  {
    if a == [] {
      assert a + b == b;
    } else {
      assert (a + b)[1..] == a[1..] + b;
      ListedAppend(a[1..], b, e);
    }
  }

  lemma ListedWithout(live: seq<Request>, k: nat, e: Elt)
    requires k < |live|
    ensures Listed(live, e)
         == Listed(Without(live, k), e) + multiset(live[k].indicators)[e] + multiset(live[k].disabled)[e]
  {
    ListedAppend(live[..k], live[k + 1..], e);
    ListedAppend(live[..k], live[k..], e);
    assert live == live[..k] + live[k..] && live[k..][1..] == live[k + 1..];
  }

  lemma {:induction false} ListedMember(live: seq<Request>, r: Request, e: Elt)
    requires r in live && (e in r.indicators || e in r.disabled)
    ensures Listed(live, e) > 0
  {
    if live[0] != r {
      ListedMember(live[1..], r, e);
    }
  }

  /** The counter of an element is how often the live requests list it, over both roles. */
  predicate Counted(st: State, e: Elt) {
    Count(st.page.counts, e) == Listed(st.live, e)
  }

  ghost predicate CountsListings(st: State) {
    forall e :: Counted(st, e)
  }

  /** Where a live request has the element as an indicator it carries the class; what one disables is disabled. */
  predicate ShownAt(st: State, e: Elt) {
    forall r :: r in st.live ==>
      (e in r.indicators ==> e in st.page.classed) && (e in r.disabled ==> e in st.page.disabled)
  }

  ghost predicate Shown(st: State) {
    forall e :: ShownAt(st, e)
  }

  predicate MarksDisabled(st: State) {
    st.page.marked <= st.page.disabled
  }

  ghost predicate Inv(st: State) {
    CountsListings(st) && Shown(st) && MarksDisabled(st)
  }

  /** The counter and the listings of an element change by the same number, but the counter stops at zero. */
  lemma EventListings(st: State, ev: Event, e: Elt)
    requires Enabled(st, ev)
    ensures var r := if ev.Started? then ev.request else st.live[ev.index];
            var n := multiset(r.indicators)[e] + multiset(r.disabled)[e];
            var count, listed := Count(st.page.counts, e), Listed(st.live, e);
            var count', listed' := Count(Next(st, ev).page.counts, e), Listed(Next(st, ev).live, e);
            if ev.Started? then count' == count + n && listed' == listed + n
            else count' == (if n <= count then count - n else 0) && listed == listed' + n
  {
    match ev
    case Started(r) =>
      RaisedCounts(st.page.counts, r.indicators, e);
      RaisedCounts(Raised(st.page.counts, r.indicators), r.disabled, e);
      ListedAppend(st.live, [r], e);
      assert [r][1..] == [];
    case Finished(k) =>
      var r := st.live[k];
      ListedWithout(st.live, k, e);
      assert multiset(r.indicators + r.disabled)[e] == multiset(r.indicators)[e] + multiset(r.disabled)[e];
      LoweredCounts(st.page.counts, r.indicators + r.disabled, e);
  }

  lemma EventCounts(st: State, ev: Event, e: Elt)
    requires Counted(st, e) && Enabled(st, ev)
    ensures Counted(Next(st, ev), e)
  {
    EventListings(st, ev, e);
  }

  /**
    Finishing a request never takes the class, the attribute or the mark from an element that a
    remaining live request lists, in whatever role.
   */
  lemma FinishSpares(st: State, k: nat, r: Request, e: Elt)
    requires Counted(st, e) && k < |st.live| && r in Without(st.live, k) && (e in r.indicators || e in r.disabled)
    ensures var page' := Next(st, Finished(k)).page;
            && (e in page'.classed <==> e in st.page.classed)
            && (e in page'.disabled <==> e in st.page.disabled)
            && (e in page'.marked <==> e in st.page.marked)
  {
    EventCounts(st, Finished(k), e);
    ListedMember(Without(st.live, k), r, e);
  }

  lemma EventShows(st: State, ev: Event, e: Elt)
    requires Counted(st, e) && ShownAt(st, e) && Enabled(st, ev)
    ensures ShownAt(Next(st, ev), e)
  {
    match ev
    case Started(r) =>
      assert forall q :: q in st.live + [r] ==> q in st.live || q == r;
    case Finished(k) =>
      forall q | q in Without(st.live, k) && (e in q.indicators || e in q.disabled)
        ensures e in q.indicators ==> e in Next(st, ev).page.classed
        ensures e in q.disabled ==> e in Next(st, ev).page.disabled
      {
        FinishSpares(st, k, q, e);
        assert q in st.live;
      }
  }

  lemma StepKeeps(st: State, e: Event)
    requires Inv(st) && Enabled(st, e)
    ensures Inv(Next(st, e))
  {
    forall x ensures Counted(Next(st, e), x) && ShownAt(Next(st, e), x) {
      assert Counted(st, x) && ShownAt(st, x);
      EventCounts(st, e, x);
      EventShows(st, e, x);
    }
  }

  lemma {:induction false} RunKeeps(disabled: set<Elt>, events: seq<Event>)
    requires Possible(disabled, events)
    ensures Inv(Run(disabled, events))
    decreases |events|
  {
    if events != [] {
      RunKeeps(disabled, Before(events));
      StepKeeps(Run(disabled, Before(events)), events[|events| - 1]);
    }
  }

  // ---- What is left behind ----

  /** The element carries the request class or htmx's mark only while a live request lists it. */
  predicate Tidy(st: State, x: Elt) {
    x in st.page.classed || x in st.page.marked ==> Listed(st.live, x) > 0
  }

  /**
    The last request that lists an element finishes, and lists it only in the role that does not
    clear what another request left on it.
   */
  predicate LeavesBehind(st: State, e: Event, x: Elt)
    requires Enabled(st, e)
  {
    && e.Finished?
    && var r := st.live[e.index];
       && (x in r.indicators || x in r.disabled) && Listed(Without(st.live, e.index), x) == 0
       && ((x in st.page.classed && x !in r.indicators) || (x in st.page.marked && x !in r.disabled))
  }

  /** The counter of an element is not above its listings; it can be below when it has been dropped. */
  predicate NotOvercounted(st: State, x: Elt) {
    Count(st.page.counts, x) <= Listed(st.live, x)
  }

  lemma EventNotOvercounted(st: State, e: Event, x: Elt)
    requires NotOvercounted(st, x) && Enabled(st, e)
    ensures NotOvercounted(Next(st, e), x)
  {
    EventListings(st, e, x);
  }

  lemma ListedBy(live: seq<Request>, k: nat, x: Elt)
    requires k < |live| && Listed(live, x) > 0 && Listed(Without(live, k), x) == 0
    ensures x in live[k].indicators || x in live[k].disabled
  {
    ListedWithout(live, k, x);
  }

  lemma StepTidies(st: State, e: Event, x: Elt)
    requires NotOvercounted(st, x) && Tidy(st, x) && Enabled(st, e)
    ensures Tidy(Next(st, e), x) <==> !LeavesBehind(st, e, x)
  {
    match e
    case Started(r) => StartTidies(st, r, x);
    case Finished(k) => FinishTidies(st, k, x);
  }

  lemma StartTidies(st: State, r: Request, x: Elt)
    requires Tidy(st, x)
    ensures Tidy(Next(st, Started(r)), x)
  {
    ListedAppend(st.live, [r], x);
    if x in r.indicators || x in r.disabled {
      ListedMember(st.live + [r], r, x);
    }
  }

  lemma FinishTidies(st: State, k: nat, x: Elt)
    requires NotOvercounted(st, x) && Tidy(st, x) && k < |st.live|
    ensures Tidy(Next(st, Finished(k)), x) <==> !LeavesBehind(st, Finished(k), x)
  {
    var rest := Without(st.live, k);
    EventNotOvercounted(st, Finished(k), x);
    FinishTakes(st, k, x);
    if Listed(rest, x) == 0 {
      if Listed(st.live, x) > 0 {
        ListedBy(st.live, k, x);
      }
      ListedWithout(st.live, k, x);
    }
  }

  /** A finish takes class and mark from its own elements that nobody counts any more. */
  lemma FinishTakes(st: State, k: nat, x: Elt)
    requires k < |st.live|
    ensures var r, page, page' := st.live[k], st.page, Next(st, Finished(k)).page;
            && (x in page'.classed <==> x in page.classed && !(x in r.indicators && Count(page'.counts, x) == 0))
            && (x in page'.marked <==> x in page.marked && !(x in r.disabled && Count(page'.counts, x) == 0))
            && (x in page'.disabled <==>
                 x in page.disabled && !(x in r.disabled && x in page.marked && Count(page'.counts, x) == 0))
  {
  }

  predicate TidyThroughout(disabled: set<Elt>, events: seq<Event>, x: Elt)
    requires Possible(disabled, events)
    decreases |events|
  {
    Tidy(Run(disabled, events), x) && (events != [] ==> TidyThroughout(disabled, Before(events), x))
  }

  predicate NeverLeaks(disabled: set<Elt>, events: seq<Event>, x: Elt)
    requires Possible(disabled, events)
    decreases |events|
  {
    events != [] ==>
      && !LeavesBehind(Run(disabled, Before(events)), events[|events| - 1], x)
      && NeverLeaks(disabled, Before(events), x)
  }

  /**
    Throughout a run the class and the mark are gone from an element whenever no live request lists it,
    exactly when no step of the run is its last listing in the wrong role; whatever other elements do.
   */
  lemma {:induction false} TidyExactly(disabled: set<Elt>, events: seq<Event>, x: Elt)
    requires Possible(disabled, events)
    ensures TidyThroughout(disabled, events, x) <==> NeverLeaks(disabled, events, x)
    decreases |events|
  {
    if events != [] {
      TidyExactly(disabled, Before(events), x);
      RunKeeps(disabled, Before(events));
      if TidyThroughout(disabled, Before(events), x) {
        assert Counted(Run(disabled, Before(events)), x);
        StepTidies(Run(disabled, Before(events)), events[|events| - 1], x);
      }
    }
  }

  /** No request of the run has the element as an indicator, or none disables it. */
  predicate PlaysOneRole(events: seq<Event>, x: Elt) {
    || (forall i :: 0 <= i < |events| ==> !ListsAs(events[i], x, true))
    || (forall i :: 0 <= i < |events| ==> !ListsAs(events[i], x, false))
  }

  predicate ListsAs(e: Event, x: Elt, indicator: bool) {
    e.Started? && x in if indicator then e.request.indicators else e.request.disabled
  }

  /** What a role that the element never plays could have put there is not there. */
  predicate RoleUnused(st: State, x: Elt, indicator: bool) {
    && (forall r :: r in st.live ==> x !in if indicator then r.indicators else r.disabled)
    && x !in if indicator then st.page.classed else st.page.marked
  }

  lemma {:induction false} RoleStaysUnused(disabled: set<Elt>, events: seq<Event>, x: Elt, indicator: bool)
    requires Possible(disabled, events) && forall i :: 0 <= i < |events| ==> !ListsAs(events[i], x, indicator)
    ensures RoleUnused(Run(disabled, events), x, indicator) && NeverLeaks(disabled, events, x)
    decreases |events|
  {
    if events != [] {
      var before, e := Before(events), events[|events| - 1];
      assert forall i :: 0 <= i < |before| ==> before[i] == events[i];
      RoleStaysUnused(disabled, before, x, indicator);
      StepUnused(Run(disabled, before), e, x, indicator);
    }
  }

  lemma StepUnused(st: State, e: Event, x: Elt, indicator: bool)
    requires Enabled(st, e) && RoleUnused(st, x, indicator) && !ListsAs(e, x, indicator)
    ensures RoleUnused(Next(st, e), x, indicator) && !LeavesBehind(st, e, x)
  {
    if e.Finished? {
      assert st.live[e.index] in st.live;
    }
  }

  /** Nothing is ever left behind on an element that plays one role, whatever other elements play. */
  lemma SingleRoleNeverLeaks(disabled: set<Elt>, events: seq<Event>, x: Elt)
    requires Possible(disabled, events) && PlaysOneRole(events, x)
    ensures TidyThroughout(disabled, events, x)
  {
    TidyExactly(disabled, events, x);
    if forall i :: 0 <= i < |events| ==> !ListsAs(events[i], x, true) {
      RoleStaysUnused(disabled, events, x, true);
    } else {
      RoleStaysUnused(disabled, events, x, false);
    }
  }

  /**
    Elements that the page has disabled itself stay disabled and are never marked; any other is disabled
    exactly while it is marked.
   */
  lemma {:induction false} MarkedExactly(disabled: set<Elt>, events: seq<Event>, x: Elt)
    requires Possible(disabled, events)
    ensures var page := Run(disabled, events).page;
            if x in disabled then x in page.disabled && x !in page.marked
            else x in page.disabled <==> x in page.marked
    decreases |events|
  {
    if events != [] {
      MarkedExactly(disabled, Before(events), x);
      RunKeeps(disabled, Before(events));
      StepMarks(Run(disabled, Before(events)), events[|events| - 1], x);
    }
  }

  lemma StepMarks(st: State, e: Event, x: Elt)
    requires Enabled(st, e) && MarksDisabled(st)
    ensures var page, page' := st.page, Next(st, e).page;
            && (x in page.disabled && x !in page.marked ==> x in page'.disabled && x !in page'.marked)
            && ((x in page.disabled <==> x in page.marked) ==> (x in page'.disabled <==> x in page'.marked))
  {
    if e.Finished? {
      FinishTakes(st, e.index, x);
    }
  }

  lemma {:induction false} ListedHas(live: seq<Request>, x: Elt)
    ensures Listed(live, x) > 0 <==> exists r :: r in live && (x in r.indicators || x in r.disabled)
  {
    if live != [] {
      ListedHas(live[1..], x);
      assert forall r :: r in live <==> r == live[0] || r in live[1..];
    }
  }

  predicate ShownBy(live: seq<Request>, x: Elt) {
    exists r :: r in live && x in r.indicators
  }

  predicate DisabledBy(live: seq<Request>, x: Elt) {
    exists r :: r in live && x in r.disabled
  }

  /**
    An element that plays one role carries the request class exactly while a live request shows it, and is
    disabled exactly while one disables it or if the page has done so itself.
   */
  lemma OneRoleExactly(disabled: set<Elt>, events: seq<Event>, x: Elt)
    requires Possible(disabled, events) && PlaysOneRole(events, x)
    ensures var st := Run(disabled, events);
            && (x in st.page.classed <==> ShownBy(st.live, x))
            && (x in st.page.disabled <==> x in disabled || DisabledBy(st.live, x))
  {
    var st := Run(disabled, events);
    RunKeeps(disabled, events);
    assert ShownAt(st, x);
    SingleRoleNeverLeaks(disabled, events, x);
    MarkedExactly(disabled, events, x);
    ListedHas(st.live, x);
    if forall i :: 0 <= i < |events| ==> !ListsAs(events[i], x, true) {
      RoleStaysUnused(disabled, events, x, true);
    } else {
      RoleStaysUnused(disabled, events, x, false);
    }
  }

  lemma RunMore(disabled: set<Elt>, events: seq<Event>, e: Event)
    requires Possible(disabled, events) && Enabled(Run(disabled, events), e)
    ensures Possible(disabled, events + [e]) && Run(disabled, events + [e]) == Next(Run(disabled, events), e)
  {
    assert Before(events + [e]) == events;
  }

  /**
    A run that leaves the request class behind: an element is the indicator of one request and disabled
    by another, and the one that disabled it finishes last.
   */
  lemma MixedRolesRun(x: Elt) returns (events: seq<Event>)
    ensures Possible({}, events) && Run({}, events).live == [] && x in Run({}, events).page.classed
  {
    var shows, disables := Request([x], []), Request([], [x]);
    events := [];
    RunMore({}, events, Started(shows));
    events := events + [Started(shows)];
    RunMore({}, events, Started(disables));
    events := events + [Started(disables)];
    assert Run({}, events).live == [shows, disables];
    var st := Run({}, events);
    RunKeeps({}, events);
    FinishSpares(st, 0, disables, x) by { assert Without(st.live, 0) == [disables]; }
    RunMore({}, events, Finished(0));
    events := events + [Finished(0)];
    assert Run({}, events).live == [disables];
    RunMore({}, events, Finished(0));
    events := events + [Finished(0)];
  }
}
