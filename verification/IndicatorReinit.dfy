/**
  Request indicators on elements that are initialized again (`deInitNode` in web/src/htmx.ts, reached in
  place when the attributes of an element have changed): its counter is dropped while requests that list
  the element may be live.
 */
module IndicatorReinit {
  import opened RequestIndicators

  datatype Happening = Ran(event: Event) | Forgot(elt: Elt)

  /** The element's own data is gone; what it shows is on the element and stays. */
  function Dropped(st: State, e: Elt): State {
    st.(page := st.page.(counts := st.page.counts - {e}))
  }

  predicate CanBe(st: State, h: Happening) {
    h.Ran? ==> Enabled(st, h.event)
  }

  function After(st: State, h: Happening): State
    requires CanBe(st, h)
  {
    match h
    case Ran(e) => Next(st, e)
    case Forgot(e) => Dropped(st, e)
  }

  function Earlier(hs: seq<Happening>): (earlier: seq<Happening>)
    requires hs != []
    ensures |earlier| == |hs| - 1
  {
    hs[..|hs| - 1]
  }

  predicate CanHappen(disabled: set<Elt>, hs: seq<Happening>)
    decreases |hs|, 0
  {
    hs != [] ==>
      CanHappen(disabled, Earlier(hs)) && CanBe(StateAfter(disabled, Earlier(hs)), hs[|hs| - 1])
  }

  function StateAfter(disabled: set<Elt>, hs: seq<Happening>): State
    requires CanHappen(disabled, hs)
    decreases |hs|, 1
  {
    if hs == [] then Initial(disabled) else After(StateAfter(disabled, Earlier(hs)), hs[|hs| - 1])
  }

  predicate ShownThroughout(disabled: set<Elt>, hs: seq<Happening>, x: Elt)
    requires CanHappen(disabled, hs)
    decreases |hs|
  {
    ShownAt(StateAfter(disabled, hs), x) && (hs != [] ==> ShownThroughout(disabled, Earlier(hs), x))
  }

  // ---- Elements forgotten only while nothing lists them ----

  /** The element is never initialized again while a live request lists it. */
  predicate ForgottenFree(disabled: set<Elt>, hs: seq<Happening>, x: Elt)
    requires CanHappen(disabled, hs)
    decreases |hs|
  {
    hs != [] ==>
      && (hs[|hs| - 1] == Forgot(x) ==> Listed(StateAfter(disabled, Earlier(hs)).live, x) == 0)
      && ForgottenFree(disabled, Earlier(hs), x)
  }

  /** Then its counter is right, and live requests see it shown and disabled, whatever happens to other elements. */
  lemma {:induction false} ForgottenFreeShows(disabled: set<Elt>, hs: seq<Happening>, x: Elt)
    requires CanHappen(disabled, hs) && ForgottenFree(disabled, hs, x)
    ensures Counted(StateAfter(disabled, hs), x) && ShownThroughout(disabled, hs, x)
    decreases |hs|
  {
    if hs != [] {
      ForgottenFreeShows(disabled, Earlier(hs), x);
      var st, h := StateAfter(disabled, Earlier(hs)), hs[|hs| - 1];
      if h.Ran? {
        EventCounts(st, h.event, x);
        EventShows(st, h.event, x);
      }
    }
  }

  // ---- Elements forgotten at any time ----

  /** A request finishes, finds its element counted by nobody, and takes from it what another live request needs. */
  predicate TakesAway(st: State, h: Happening, x: Elt)
    requires CanBe(st, h)
  {
    && h.Ran? && h.event.Finished?
    && var r, rest := st.live[h.event.index], Without(st.live, h.event.index);
       && Count(Lowered(st.page.counts, r.indicators + r.disabled), x) == 0
       && (|| (x in r.indicators && exists q :: q in rest && x in q.indicators)
           || (x in r.disabled && x in st.page.marked && exists q :: q in rest && x in q.disabled))
  }

  predicate NeverTaken(disabled: set<Elt>, hs: seq<Happening>, x: Elt)
    requires CanHappen(disabled, hs)
    decreases |hs|
  {
    hs != [] ==>
      && !TakesAway(StateAfter(disabled, Earlier(hs)), hs[|hs| - 1], x)
      && NeverTaken(disabled, Earlier(hs), x)
  }

  lemma StepShows(st: State, h: Happening, x: Elt)
    requires ShownAt(st, x) && CanBe(st, h)
    ensures ShownAt(After(st, h), x) <==> !TakesAway(st, h, x)
  {
    if h.Ran? {
      match h.event
      case Started(r) =>
        assert forall q :: q in st.live + [r] ==> q in st.live || q == r;
      case Finished(k) =>
        FinishTakes(st, k, x);
        assert forall q :: q in Without(st.live, k) ==> q in st.live;
    }
  }

  /**
    Throughout a run in which elements may be initialized again at any time, every live request finds an
    element shown and disabled as it asked, exactly when no finish takes that away from it.
   */
  lemma {:induction false} ShownExactly(disabled: set<Elt>, hs: seq<Happening>, x: Elt)
    requires CanHappen(disabled, hs)
    ensures ShownThroughout(disabled, hs, x) <==> NeverTaken(disabled, hs, x)
    decreases |hs|
  {
    if hs != [] {
      ShownExactly(disabled, Earlier(hs), x);
      if ShownThroughout(disabled, Earlier(hs), x) {
        StepShows(StateAfter(disabled, Earlier(hs)), hs[|hs| - 1], x);
      }
    }
  }

  // ---- What is left behind ----

  predicate TidyThroughout(disabled: set<Elt>, hs: seq<Happening>, x: Elt)
    requires CanHappen(disabled, hs)
    decreases |hs|
  {
    Tidy(StateAfter(disabled, hs), x) && (hs != [] ==> TidyThroughout(disabled, Earlier(hs), x))
  }

  predicate NeverLeaks(disabled: set<Elt>, hs: seq<Happening>, x: Elt)
    requires CanHappen(disabled, hs)
    decreases |hs|
  {
    hs != [] ==>
      var st, h := StateAfter(disabled, Earlier(hs)), hs[|hs| - 1];
      !(h.Ran? && LeavesBehind(st, h.event, x)) && NeverLeaks(disabled, Earlier(hs), x)
  }

  lemma {:induction false} RunNotOvercounted(disabled: set<Elt>, hs: seq<Happening>, x: Elt)
    requires CanHappen(disabled, hs)
    ensures NotOvercounted(StateAfter(disabled, hs), x)
    decreases |hs|
  {
    if hs != [] {
      RunNotOvercounted(disabled, Earlier(hs), x);
      var h := hs[|hs| - 1];
      if h.Ran? {
        EventNotOvercounted(StateAfter(disabled, Earlier(hs)), h.event, x);
      }
    }
  }

  /** Initializing again leaves nothing more behind: what does is the last listing in the wrong role, as before. */
  lemma {:induction false} TidyExactly(disabled: set<Elt>, hs: seq<Happening>, x: Elt)
    requires CanHappen(disabled, hs)
    ensures TidyThroughout(disabled, hs, x) <==> NeverLeaks(disabled, hs, x)
    decreases |hs|
  {
    if hs != [] {
      TidyExactly(disabled, Earlier(hs), x);
      var st, h := StateAfter(disabled, Earlier(hs)), hs[|hs| - 1];
      RunNotOvercounted(disabled, Earlier(hs), x);
      if TidyThroughout(disabled, Earlier(hs), x) && h.Ran? {
        StepTidies(st, h.event, x);
      }
    }
  }

  // ---- A run in which the class is taken away ----

  lemma HappensMore(disabled: set<Elt>, hs: seq<Happening>, h: Happening)
    requires CanHappen(disabled, hs) && CanBe(StateAfter(disabled, hs), h)
    ensures CanHappen(disabled, hs + [h]) && StateAfter(disabled, hs + [h]) == After(StateAfter(disabled, hs), h)
  {
    assert Earlier(hs + [h]) == hs;
  }

  lemma TwoStarted(x: Elt) returns (hs: seq<Happening>)
    ensures var r := Request([x], []);
            hs == [Ran(Started(r)), Ran(Started(r))] && CanHappen({}, hs) && StateAfter({}, hs).live == [r, r]
  {
    var start := Ran(Started(Request([x], [])));
    HappensMore({}, [], start);
    assert [] + [start] == [start];
    HappensMore({}, [start], start);
    hs := [start] + [start];
  }

  /**
    Two requests show an element, it is initialized again, and the first finishes: the second is live
    without the request class on its element.
   */
  lemma ShownNoMoreRun(x: Elt) returns (hs: seq<Happening>)
    ensures var r := Request([x], []);
            && hs == [Ran(Started(r)), Ran(Started(r)), Forgot(x), Ran(Finished(0))] && CanHappen({}, hs)
            && StateAfter({}, hs).live == [r] && x !in StateAfter({}, hs).page.classed
  {
    var r := Request([x], []);
    var started := TwoStarted(x);
    HappensMore({}, started, Forgot(x));
    hs := started + [Forgot(x)];
    var st := StateAfter({}, hs);
    HappensMore({}, hs, Ran(Finished(0)));
    FinishTakes(st, 0, x);
    assert [x] + [] == [x] && [x][..0] == [];
    assert Count(Lowered(st.page.counts, [x]), x) == 0;
    hs := hs + [Ran(Finished(0))];
  }
}
