/** Two ways out of the guarantees of the request scheduler (web/src/htmx.ts), as a run and as a step. */
module RequestOvertaking {
  import opened Wrappers
  import opened RequestScheduler
  import opened RequestOrder
  import opened RequestPolicies
  import FetchTransport

  lemma RunMore(events: seq<Event>, e: Event)
    requires Possible(events) && EventEnabled(Run(events), e)
    ensures Possible(events + [e]) && Run(events + [e]) == Next(Run(events), e)
  {
    var more := events + [e];
    assert more[..|more| - 1] == events;
  }

  const ASK := Issue(QueueSync("all"), "", false)

  function Asked(st: State): State {
    var r, st1 := Request(st.issued, ASK.sync, ""), st.(issued := st.issued + 1);
    if st.xhr.None? then TakeLock(st1, r) else st1.(queue := st.queue + [r], waiting := st.waiting + [r.id])
  }

  lemma PolicyMore(events: seq<Event>, e: Event)
    requires PolicyThroughout(events, "all") && (e == ASK || e.Transported?)
    ensures PolicyThroughout(events + [e], "all")
  {
  }

  lemma PolicyNoAbort(events: seq<Event>)
    requires PolicyThroughout(events, "all")
    ensures NoAbortSync(events)
  {
    assert forall i :: 0 <= i < |events| ==> AsksUnder(events[i], "all");
  }

  lemma AskMore(events: seq<Event>)
    requires Possible(events) && !Run(events).abortable && PolicyThroughout(events, "all")
    ensures Possible(events + [ASK]) && PolicyThroughout(events + [ASK], "all")
    ensures Run(events + [ASK]) == Asked(Run(events))
  {
    RunMore(events, ASK);
    PolicyMore(events, ASK);
  }

  lemma InputMore(events: seq<Event>, input: FetchTransport.Input, givesUp: bool)
    requires Possible(events) && PolicyThroughout(events, "all")
    requires EventEnabled(Run(events), Transported(0, input, givesUp))
    ensures var e, st := Transported(0, input, givesUp), AfterInput(Run(events), 0, input);
            && Possible(events + [e]) && PolicyThroughout(events + [e], "all")
            && Run(events + [e]) == if Settles(input) then EndRequestLock(st, 0, givesUp) else st
  {
    PolicyMore(events, Transported(0, input, givesUp));
    PolicyNoAbort(events);
    RunMore(events, Transported(0, input, givesUp));
    RunKeeps(events);
    TransportedNext(Run(events), Transported(0, input, givesUp));
  }

  lemma FirstAsked()
    ensures var st := Asked(INIT);
            && st.queue == [] && st.xhr == Some(0) && !st.abortable && st.started == [0] && st.issued == 1
            && st.preparing == {0} && st.transports == map[0 := FetchTransport.NEW_TRANSPORT]
  {
  }

  /** Request 0 is in flight, and nobody waits. */
  lemma OneInFlight() returns (events: seq<Event>)
    ensures Possible(events) && PolicyThroughout(events, "all")
    ensures var st := Run(events);
            && st.queue == [] && st.xhr == Some(0) && !st.abortable && st.started == [0] && st.issued == 1
            && 0 in st.transports && st.transports[0].phase.AwaitingResponse?
  {
    AskMore([]);
    assert [] + [ASK] == [ASK];
    FirstAsked();
    InputMore([ASK], FetchTransport.Input.Send(0), false);
    events := [ASK] + [Transported(0, FetchTransport.Input.Send(0), false)];
  }

  /** Two requests are issued meanwhile and wait, and the response has arrived. */
  lemma TwoWait() returns (events: seq<Event>)
    ensures Possible(events) && PolicyThroughout(events, "all")
    ensures var st := Run(events);
            && st.queue == [Request(1, ASK.sync, ""), Request(2, ASK.sync, "")] && !st.abortable
            && st.started == [0] && st.issued == 3
            && 0 in st.transports && st.transports[0].phase.AwaitingText?
  {
    events := OneInFlight();
    AskMore(events);
    events := events + [ASK];
    AskMore(events);
    events := events + [ASK];
    InputMore(events, FetchTransport.ResponseArrives, false);
    events := events + [Transported(0, FetchTransport.ResponseArrives, false)];
  }

  lemma HeadGivesUp(st: State)
    requires st.queue != []
    ensures var st' := EndRequestLock(st, 0, true);
            && st'.xhr.None? && !st'.abortable && st'.queue == st.queue[1..]
            && st'.started == st.started && st'.issued == st.issued
  {
  }

  /**
    A run that leaves a request waiting for a free lock: 0 is sent, 1 and 2 wait for it under `all`, and
    its response arrives and is read; 1 is dequeued and gives up, and nobody dequeues 2.
   */
  lemma StrandedRun() returns (events: seq<Event>)
    ensures Possible(events) && NoAbortSync(events) && PolicyThroughout(events, "all")
    ensures var st := Run(events);
            && st.xhr.None? && !st.abortable && st.queue == [Request(2, ASK.sync, "")]
            && st.started == [0] && st.issued == 3 && !NobodyStranded(st)
  {
    events := TwoWait();
    InputMore(events, FetchTransport.TextArrives, true);
    HeadGivesUp(AfterInput(Run(events), 0, FetchTransport.TextArrives));
    events := events + [Transported(0, FetchTransport.TextArrives, true)];
    PolicyNoAbort(events);
  }

  /** The next request, 3, finds the lock free and overtakes it. */
  lemma OvertakingRun() returns (events: seq<Event>)
    ensures Possible(events) && NoAbortSync(events) && PolicyThroughout(events, "all")
    ensures Run(events).started == [0, 3] && Ids(Run(events).queue) == [2] && !InIssueOrder(Run(events))
  {
    events := StrandedRun();
    AskMore(events);
    events := events + [ASK];
    assert Run(events).started == [0, 3] && Run(events).queue == [Request(2, ASK.sync, "")];
    PolicyNoAbort(events);
    var a := Run(events).started + Ids(Run(events).queue);
    assert a[1] == 3 && a[2] == 2;
  }

  /**
    The strategy named abort, on a transport that settles later: a request that finds the lock held by
    an abortable request takes the lock over while the other is still in flight, unless it uses that
    strategy itself.
   */
  lemma AbortableIsOvertaken(st: State, r: Request, holder: nat)
    requires st.xhr == Some(holder) && holder in st.transports && InFlight(st.transports[holder])
    requires st.abortable && r.id != holder
    ensures var st' := Enter(st, r);
            && InFlight(st'.transports[holder])
            && (st'.xhr == Some(r.id) && Live(st', r.id) && st'.started == st.started + [r.id] <==> !r.sync.AbortSync?)
  {
  }
}
