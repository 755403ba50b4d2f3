/**
  Requests on an element that is initialized again (`deInitNode` in web/src/htmx.ts, reached when the
  element is cleaned up or its attributes have changed): lock and queue are forgotten while a request may
  still be in flight.
 */
module RequestReinit {
  import opened Wrappers
  import opened FetchTransport
  import opened RequestScheduler

  datatype Happening = Ran(event: Event) | Reinit

  /** The element's own data is gone; the requests that were waiting are never started. */
  function Forgotten(st: State): State {
    Discard(st.(xhr := None, abortable := false, queue := []), Ids(st.queue))
  }

  predicate Enabled(st: State, h: Happening) {
    h.Ran? ==> EventEnabled(st, h.event) && (h.event.Issue? ==> !h.event.sync.AbortSync?)
  }

  function After(st: State, h: Happening): State
    requires Enabled(st, h)
  {
    match h
    case Ran(e) => Next(st, e)
    case Reinit => Forgotten(st)
  }

  predicate CanHappen(hs: seq<Happening>)
    decreases |hs|, 0
  {
    hs != [] ==>
      var before := hs[..|hs| - 1];
      CanHappen(before) && Enabled(StateAfter(before), hs[|hs| - 1])
  }

  function StateAfter(hs: seq<Happening>): State
    requires CanHappen(hs)
    decreases |hs|, 1
  {
    if hs == [] then INIT else After(StateAfter(hs[..|hs| - 1]), hs[|hs| - 1])
  }

  ghost predicate AtMostOneLive(st: State) {
    forall i, j :: Live(st, i) && Live(st, j) ==> i == j
  }

  ghost predicate AtMostOneLiveThroughout(hs: seq<Happening>)
    requires CanHappen(hs)
    decreases |hs|
  {
    AtMostOneLive(StateAfter(hs)) && (hs != [] ==> AtMostOneLiveThroughout(hs[..|hs| - 1]))
  }

  /** A request is issued to a free lock while another is live: its lock has been forgotten. */
  ghost predicate TakesOver(st: State, h: Happening) {
    h.Ran? && h.event.Issue? && !h.event.givesUp && st.xhr.None? && exists id :: Live(st, id)
  }

  ghost predicate NeverTakenOver(hs: seq<Happening>)
    requires CanHappen(hs)
    decreases |hs|
  {
    hs != [] ==>
      var before := hs[..|hs| - 1];
      NeverTakenOver(before) && !TakesOver(StateAfter(before), hs[|hs| - 1])
  }

  function Held(st: State, holder: nat): State {
    st.(xhr := Some(holder))
  }

  /** `holder` has lost its lock but is live: everything else is as if it held the lock, and nobody waits. */
  ghost predicate Orphaned(st: State, holder: nat) {
    st.xhr.None? && st.queue == [] && Inv(Held(st, holder))
  }

  ghost predicate Sound(st: State) {
    Inv(st) || exists holder :: Orphaned(st, holder)
  }

  lemma LiveIsHolder(st: State, id: nat)
    requires Inv(st)
    ensures Live(st, id) <==> st.xhr == Some(id)
  {
    if st.xhr == Some(id) {
      assert id in st.started;
    }
  }

  lemma OneLive(st: State)
    requires Sound(st)
    ensures AtMostOneLive(st)
  {
    if Inv(st) {
      forall i, j | Live(st, i) && Live(st, j) ensures i == j {
        LiveIsHolder(st, i);
        LiveIsHolder(st, j);
      }
    } else {
      var holder :| Orphaned(st, holder);
      forall i, j | Live(st, i) && Live(st, j) ensures i == j {
        LiveIsHolder(Held(st, holder), i);
        LiveIsHolder(Held(st, holder), j);
      }
    }
  }

  lemma ForgettingAccounts(st: State)
    ensures Account(Forgotten(st)) == Account(st)
  {
    assert Ids([]) == [];
    assert multiset(st.discarded + Ids(st.queue)) == multiset(st.discarded) + multiset(Ids(st.queue));
  }

  /** Forgetting a free lock changes no more than the queue; forgetting a held one orphans its holder. */
  lemma ForgettingIsSound(st: State)
    requires Inv(st)
    ensures Sound(Forgotten(st))
  {
    ForgettingAccounts(st);
    var st' := Forgotten(st);
    assert forall id :: Live(st', id) <==> Live(st, id);
    if st.xhr.None? {
      assert Inv(st');
    } else {
      var holder := st.xhr.value;
      assert Account(Held(st', holder)) == Account(st');
      assert forall id :: Live(Held(st', holder), id) <==> Live(st, id);
      assert Orphaned(st', holder);
    }
  }

  lemma EventKeeps(st: State, e: Event)
    requires Inv(st) && EventEnabled(st, e) && (e.Issue? ==> !e.sync.AbortSync?)
    ensures Inv(Next(st, e))
  {
    match e
    case Issue(_, _, _) => IssueKeeps(st, e);
    case Veto(_, _) => VetoKeeps(st, e);
    case Transported(_, _, _) => TransportKeeps(st, e);
  }

  /** An orphan ends as a holder does; until then the others run as beside a holder. */
  lemma OrphanRuns(st: State, holder: nat, e: Event)
    requires Orphaned(st, holder) && EventEnabled(st, e) && (e.Issue? ==> e.givesUp && !e.sync.AbortSync?)
    ensures Next(st, e) == Next(Held(st, holder), e) || Held(Next(st, e), holder) == Next(Held(st, holder), e)
    ensures Next(st, e) == Next(Held(st, holder), e) || (Next(st, e).xhr.None? && Next(st, e).queue == [])
  {
    var held := Held(st, holder);
    if e.Transported? {
      TransportedNext(held, e);
      SameEvents(st, held, e);
    }
  }

  lemma SameEvents(st: State, held: State, e: Event)
    requires Inv(held) && e.Transported? && EventEnabled(held, e) && st == held.(xhr := st.xhr)
    ensures var st1 := AfterInput(st, e.id, e.input);
            Next(st, e) == if Settles(e.input) then EndRequestLock(st1, e.id, e.givesUp) else st1
  {
    var t := held.transports[e.id];
    HandledOnce(AfterInput(st, e.id, e.input), e.id, Step(t, e.input).events[|t.events|..], e.givesUp);
    if Settles(e.input) {
      SettlingEnds(held, e.id, e.input);
    } else {
      OtherInputKeeps(held, e.id, e.input);
    }
  }

  lemma StepIsSound(st: State, h: Happening)
    requires Sound(st) && Enabled(st, h) && !TakesOver(st, h)
    ensures Sound(After(st, h))
  {
    if Inv(st) {
      match h
      case Ran(e) => EventKeeps(st, e);
      case Reinit => ForgettingIsSound(st);
    } else {
      var holder :| Orphaned(st, holder);
      LiveIsHolder(Held(st, holder), holder);
      assert Live(st, holder);
      match h
      case Ran(e) =>
        OrphanRuns(st, holder, e);
        EventKeeps(Held(st, holder), e);
        assert Inv(Next(st, e)) || Orphaned(Next(st, e), holder);
      case Reinit =>
        assert Forgotten(st) == st;
    }
  }

  lemma TakingOver(st: State, h: Happening)
    requires Sound(st) && Enabled(st, h) && TakesOver(st, h)
    ensures !AtMostOneLive(After(st, h))
  {
    var id :| Live(st, id);
    if Inv(st) {
      LiveIsHolder(st, id);
    }
    var holder :| Orphaned(st, holder);
    LiveIsHolder(Held(st, holder), id);
    FreshId(Held(st, holder));
    assert id in st.started && id != st.issued;
    var st' := After(st, h);
    assert Live(st', st.issued) && Live(st', id);
  }

  lemma {:induction false} RunIsSound(hs: seq<Happening>)
    requires CanHappen(hs) && NeverTakenOver(hs)
    ensures Sound(StateAfter(hs)) && AtMostOneLiveThroughout(hs)
    decreases |hs|
  {
    if hs == [] {
      assert RequestScheduler.Run([]) == INIT;
      RequestScheduler.RunKeeps([]);
    } else {
      var before := hs[..|hs| - 1];
      RunIsSound(before);
      StepIsSound(StateAfter(before), hs[|hs| - 1]);
    }
    OneLive(StateAfter(hs));
  }

  /**
    Where elements may be initialized again, at most one of an element's requests is live throughout a run
    exactly when no request is issued while one whose lock has been forgotten is live.
   */
  lemma {:induction false} OneLiveExactly(hs: seq<Happening>)
    requires CanHappen(hs)
    ensures AtMostOneLiveThroughout(hs) <==> NeverTakenOver(hs)
    decreases |hs|
  {
    if NeverTakenOver(hs) {
      RunIsSound(hs);
    } else {
      var before := hs[..|hs| - 1];
      OneLiveExactly(before);
      if NeverTakenOver(before) {
        RunIsSound(before);
        TakingOver(StateAfter(before), hs[|hs| - 1]);
      }
    }
  }

  // ---- A run with two live requests ----

  const ASK := Issue(NoSync, "", false)
  const SEND := Transported(0, Input.Send(0), false)

  lemma HappensMore(hs: seq<Happening>, h: Happening)
    requires CanHappen(hs) && Enabled(StateAfter(hs), h)
    ensures CanHappen(hs + [h]) && StateAfter(hs + [h]) == After(StateAfter(hs), h)
  {
    assert (hs + [h])[..|hs|] == hs;
  }

  lemma FirstIssued()
    ensures var hs := [Ran(ASK)];
            && CanHappen(hs) && Inv(StateAfter(hs)) && StateAfter(hs).xhr == Some(0)
            && StateAfter(hs).preparing == {0} && StateAfter(hs).transports == map[0 := NEW_TRANSPORT]
  {
    assert RequestScheduler.Run([]) == INIT;
    RequestScheduler.RunKeeps([]);
    HappensMore([], Ran(ASK));
    EventKeeps(INIT, ASK);
    assert [] + [Ran(ASK)] == [Ran(ASK)];
  }

  /** The first request is issued and sent. */
  lemma SentFirst()
    ensures var hs := [Ran(ASK), Ran(SEND)];
            && CanHappen(hs) && Inv(StateAfter(hs)) && StateAfter(hs).xhr == Some(0)
  {
    FirstIssued();
    var st := StateAfter([Ran(ASK)]);
    HappensMore([Ran(ASK)], Ran(SEND));
    assert [Ran(ASK)] + [Ran(SEND)] == [Ran(ASK), Ran(SEND)];
    EventKeeps(st, SEND);
    TransportedNext(st, SEND);
  }

  /**
    A request is issued and sent, the element is initialized again while it is in flight, and a second
    request takes the lock: now both are live.
   */
  lemma TwoLiveRun()
    ensures var hs := [Ran(ASK), Ran(SEND), Reinit, Ran(ASK)];
            CanHappen(hs) && !AtMostOneLive(StateAfter(hs))
  {
    SentFirst();
    var sent := [Ran(ASK), Ran(SEND)];
    var st := StateAfter(sent);
    LiveIsHolder(st, 0);
    HappensMore(sent, Reinit);
    ForgettingIsSound(st);
    assert sent + [Reinit] == [Ran(ASK), Ran(SEND), Reinit];
    var forgotten := [Ran(ASK), Ran(SEND), Reinit];
    assert Live(StateAfter(forgotten), 0);
    HappensMore(forgotten, Ran(ASK));
    assert forgotten + [Ran(ASK)] == [Ran(ASK), Ran(SEND), Reinit, Ran(ASK)];
    TakingOver(StateAfter(forgotten), Ran(ASK));
  }
}
