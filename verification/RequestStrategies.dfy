/**
  What the strategy of `hx-sync` and the queue option do to a request that is issued (`issueAjaxRequest` in
  web/src/htmx.ts), over every run of the synchronization element, the strategy named abort included.
 */
module RequestStrategies {
  import opened Wrappers
  import FetchTransport
  import opened RequestScheduler

  /** The requests issued in a run, by their number. */
  function Issues(events: seq<Event>): (issues: seq<Event>)
    ensures forall i :: 0 <= i < |issues| ==> issues[i].Issue?
  {
    if events == [] then []
    else
      var before, e := events[..|events| - 1], events[|events| - 1];
      if e.Issue? then Issues(before) + [e] else Issues(before)
  }

  /** The request stands as it was issued. */
  predicate AsIssued(issues: seq<Event>, r: Request) {
    && r.id < |issues|
    && issues[r.id].Issue? && r.sync == issues[r.id].sync && r.triggerQueue == issues[r.id].triggerQueue
  }

  /** The request that holds the lock was issued with the strategy named abort. */
  predicate HeldLoosely(issues: seq<Event>, st: State) {
    && st.xhr.Some? && st.xhr.value < |issues|
    && issues[st.xhr.value].Issue? && issues[st.xhr.value].sync.AbortSync?
  }

  ghost predicate Consistent(issues: seq<Event>, st: State) {
    && st.issued == |issues|
    && (st.xhr.Some? ==> st.xhr.value < |issues| && st.xhr.value in st.transports)
    && (st.abortable <==> HeldLoosely(issues, st))
    && (forall i :: 0 <= i < |st.queue| ==> CanWait(issues, st.queue[i]))
  }

  predicate CanWait(issues: seq<Event>, r: Request) {
    AsIssued(issues, r) && !r.sync.Drop? && !r.sync.AbortSync?
  }

  lemma TakeLockConsistent(issues: seq<Event>, st: State, r: Request)
    requires Consistent(issues, st) && AsIssued(issues, r)
    ensures Consistent(issues, TakeLock(st, r)) && Consistent(issues, TakeLock(AbortHolder(st), r))
  {
  }

  lemma EnqueueConsistent(issues: seq<Event>, st: State, r: Request)
    requires Consistent(issues, st) && CanWait(issues, r)
    ensures Consistent(issues, Enqueue(st, r))
  {
    EnqueueIsOneOf(st, r);
    var st' := Enqueue(st, r);
    forall i | 0 <= i < |st'.queue| ensures CanWait(issues, st'.queue[i]) {
      assert st'.queue[i] == r || (i < |st.queue| && st'.queue[i] == st.queue[i]);
    }
  }

  lemma EnterConsistent(issues: seq<Event>, st: State, r: Request)
    requires Consistent(issues, st) && AsIssued(issues, r)
    ensures Consistent(issues, Enter(st, r))
  {
    var st1 := if r.sync.Replace? then AbortHolder(st) else st;
    assert Consistent(issues, st1);
    TakeLockConsistent(issues, st1, r);
    if CanWait(issues, r) {
      EnqueueConsistent(issues, st1, r);
    }
  }

  lemma ReleaseConsistent(issues: seq<Event>, st: State, id: nat, givesUp: bool)
    requires Consistent(issues, st)
    ensures Consistent(issues, EndRequestLock(st, id, givesUp))
  {
    var st1 := st.(xhr := None, abortable := false, released := st.released + [id]);
    if st1.queue != [] {
      var st2 := st1.(queue := st1.queue[1..]);
      assert CanWait(issues, st1.queue[0]);
      assert Consistent(issues, st2);
      EnterConsistent(issues, st2, st1.queue[0]);
    }
  }

  lemma {:induction false} HandledConsistent(issues: seq<Event>, st: State, id: nat,
                                             events: seq<FetchTransport.ProgressEvent>, givesUp: bool)
    requires Consistent(issues, st)
    ensures Consistent(issues, HandleEvents(st, id, events, givesUp))
    decreases |events|
  {
    if events != [] {
      ReleaseConsistent(issues, st, id, givesUp);
      HandledConsistent(issues, if FetchTransport.IsOutcome(events[0]) then EndRequestLock(st, id, givesUp) else st, id,
                        events[1..], givesUp);
    }
  }

  lemma OneMoreIssue(issues: seq<Event>, st: State, e: Event)
    requires Consistent(issues, st) && e.Issue?
    ensures Consistent(issues + [e], Counted(st))
    ensures AsIssued(issues + [e], Request(st.issued, e.sync, e.triggerQueue))
  {
    forall i | 0 <= i < |st.queue| ensures CanWait(issues + [e], st.queue[i]) {
      assert CanWait(issues, st.queue[i]);
    }
  }

  lemma StepConsistent(issues: seq<Event>, st: State, e: Event)
    requires Consistent(issues, st) && EventEnabled(st, e)
    ensures Consistent(if e.Issue? then issues + [e] else issues, Next(st, e))
  {
    match e
    case Issue(sync, triggerQueue, givesUp) =>
      OneMoreIssue(issues, st, e);
      EnterConsistent(issues + [e], Counted(st), Request(st.issued, sync, triggerQueue));
      assert Consistent(issues + [e], Discard(Counted(st), [st.issued]));
    case Veto(id, givesUp) =>
      ReleaseConsistent(issues, st.(preparing := st.preparing - {id}), id, givesUp);
    case Transported(id, input, givesUp) =>
      StepAppends(st.transports[id], input);
      var t, st1 := st.transports[id], AfterInput(st, id, input);
      var events := FetchTransport.Step(t, input).events[|t.events|..];
      assert Consistent(issues, st1);
      HandledConsistent(issues, st1, id, events, givesUp);
  }

  lemma {:induction false} RunConsistent(events: seq<Event>)
    requires Possible(events)
    ensures Consistent(Issues(events), Run(events))
    decreases |events|
  {
    if events != [] {
      RunConsistent(events[..|events| - 1]);
      StepConsistent(Issues(events[..|events| - 1]), Run(events[..|events| - 1]), events[|events| - 1]);
    }
  }

  // ---- What waits, and who can be taken over ----

  /**
    In every run the requests that wait stand as they were issued, and none has the strategy drop or abort; the
    lock can be taken over exactly while its holder was issued with abort.
   */
  lemma WaitingExactly(events: seq<Event>, i: nat)
    requires Possible(events)
    ensures var st, issues := Run(events), Issues(events);
            && st.issued == |issues|
            && (st.abortable <==> HeldLoosely(issues, st))
            && (i < |st.queue| ==>
                  var r := st.queue[i];
                  && r.id < |issues| && r.sync == issues[r.id].sync && r.triggerQueue == issues[r.id].triggerQueue
                  && r.sync != Drop && r.sync != AbortSync)
  {
    RunConsistent(events);
    if i < |Run(events).queue| {
      assert CanWait(Issues(events), Run(events).queue[i]);
    }
  }

  // ---- A request ends ----

  /**
    The first of the waiting requests gets the lock exactly when a request is vetoed or settled; where it gives
    up instead, it is discarded and the lock stays free.
   */
  lemma EndsExactly(events: seq<Event>, e: Event)
    requires Possible(events) && EventEnabled(Run(events), e) && !e.Issue?
    ensures var st, st' := Run(events), Next(Run(events), e);
            if e.Transported? && e.input != FetchTransport.TextArrives && e.input != FetchTransport.Rejected then
              st'.xhr == st.xhr && st'.queue == st.queue && st'.started == st.started && st'.discarded == st.discarded
            else if st.queue == [] then
              st'.xhr == None && st'.queue == [] && st'.started == st.started && st'.discarded == st.discarded
            else
              && st'.queue == st.queue[1..]
              && (if e.givesUp then
                    st'.xhr == None && st'.started == st.started && st'.discarded == st.discarded + [st.queue[0].id]
                  else
                    st'.xhr == Some(st.queue[0].id) && st'.started == st.started + [st.queue[0].id]
                    && st'.discarded == st.discarded)
  {
    var st := Run(events);
    match e
    case Veto(id, givesUp) => ReleasedHead(st.(preparing := st.preparing - {id}), id, givesUp);
    case Transported(id, input, givesUp) =>
      var t, st1 := st.transports[id], AfterInput(st, id, input);
      HandledOnce(st1, id, FetchTransport.Step(t, input).events[|t.events|..], givesUp);
      ReleasedHead(st1, id, givesUp);
  }

  lemma ReleasedHead(st: State, id: nat, givesUp: bool)
    ensures var st' := EndRequestLock(st, id, givesUp);
            if st.queue == [] then
              st'.xhr == None && st'.queue == [] && st'.started == st.started && st'.discarded == st.discarded
            else
              && st'.queue == st.queue[1..]
              && (if givesUp then
                    st'.xhr == None && st'.started == st.started && st'.discarded == st.discarded + [st.queue[0].id]
                  else
                    st'.xhr == Some(st.queue[0].id) && st'.started == st.started + [st.queue[0].id]
                    && st'.discarded == st.discarded)
  {
  }

  // ---- A request is issued ----

  /** Whether a request that is issued now takes the lock at once. */
  predicate StartsNow(issues: seq<Event>, st: State, sync: Sync) {
    st.xhr.None? || (HeldLoosely(issues, st) && sync != AbortSync)
  }

  /**
    A request takes the lock at once exactly when it is free, or held by a request with the strategy abort and
    its own is another; otherwise the lock stays with its holder and nobody starts.
   */
  lemma StartsExactly(events: seq<Event>, sync: Sync, triggerQueue: string)
    requires Possible(events)
    ensures var st, e := Run(events), Issue(sync, triggerQueue, false);
            var st' := Next(st, e);
            if StartsNow(Issues(events), st, sync) then
              st'.started == st.started + [st.issued] && st'.xhr == Some(st.issued) && st'.queue == st.queue
              && st'.discarded == st.discarded
            else st'.started == st.started && st'.xhr == st.xhr && st'.preparing == st.preparing
  {
    RunConsistent(events);
    EnterStarts(Counted(Run(events)), Request(Run(events).issued, sync, triggerQueue));
  }

  lemma EnterStarts(st: State, r: Request)
    ensures var st' := Enter(st, r);
            if st.xhr.None? || (st.abortable && !r.sync.AbortSync?) then
              st'.started == st.started + [r.id] && st'.xhr == Some(r.id) && st'.queue == st.queue
              && st'.discarded == st.discarded
            else st'.started == st.started && st'.xhr == st.xhr && st'.preparing == st.preparing
  {
  }

  /**
    Where it does not start, a request with the strategy drop or abort is discarded, and nothing else changes:
    lock, queue and transports are what they were.
   */
  lemma DiscardedAtOnce(events: seq<Event>, sync: Sync, triggerQueue: string)
    requires Possible(events) && (sync == Drop || sync == AbortSync) && !StartsNow(Issues(events), Run(events), sync)
    ensures var st := Run(events);
            Next(st, Issue(sync, triggerQueue, false)) ==
              st.(issued := st.issued + 1, discarded := st.discarded + [st.issued])
  {
    RunConsistent(events);
  }

  /** The transport has been told to abort. */
  function ToldToAbort(t: FetchTransport.Transport): FetchTransport.Transport {
    t.(aborted := true, controller := if t.controller == None then None else Some(true))
  }

  /**
    The holder is told to abort exactly by a request with the strategy replace, or by one that takes the lock
    over from it; no other transport is touched.
   */
  lemma AbortedExactly(events: seq<Event>, sync: Sync, triggerQueue: string, id: nat)
    requires Possible(events) && id in Run(events).transports && id < Run(events).issued
    ensures var st := Run(events);
            var st' := Next(st, Issue(sync, triggerQueue, false));
            && id in st'.transports
            && st'.transports[id] ==
                 if st.xhr == Some(id) && (sync == Replace || StartsNow(Issues(events), st, sync)) then
                   ToldToAbort(st.transports[id])
                 else st.transports[id]
  {
    RunConsistent(events);
  }

  /** The queue a request of another strategy finds and leaves where it cannot start. */
  lemma WaitsExactly(events: seq<Event>, sync: Sync, triggerQueue: string)
    requires Possible(events) && sync != Drop && sync != AbortSync && !StartsNow(Issues(events), Run(events), sync)
    ensures var st := Run(events);
            var st', r := Next(st, Issue(sync, triggerQueue, false)), Request(st.issued, sync, triggerQueue);
            var option := if sync.QueueSync? then sync.name else triggerQueue;
            && (option == "last" ==> st'.queue == [r] && st'.discarded == st.discarded + Ids(st.queue))
            && (option == "all" ==> st'.queue == st.queue + [r] && st'.discarded == st.discarded)
            && (option == "first" && st.queue == [] ==> st'.queue == [r] && st'.discarded == st.discarded)
            && (option == "first" && st.queue != [] ==>
                  st'.queue == st.queue && st'.discarded == st.discarded + [r.id])
            && (option !in {"last", "all", "first", ""} ==>
                  st'.queue == st.queue && st'.discarded == st.discarded + [r.id])
            && (option == "" && !sync.QueueSync? ==>
                  st'.queue == [r] && st'.discarded == st.discarded + Ids(st.queue))
            && (option == "" && sync.QueueSync? ==>
                  st'.queue == st.queue && st'.discarded == st.discarded + [r.id])
  {
    RunConsistent(events);
  }
}
