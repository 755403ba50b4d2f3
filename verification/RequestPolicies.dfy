/** Runs under one queue policy throughout (`last`, `first`, `none` or `all`, web/src/htmx.ts). */
module RequestPolicies {
  import opened RequestScheduler
  import opened RequestOrder

  /** If the event issues a request, it waits under the policy; it neither drops itself nor aborts. */
  predicate AsksUnder(e: Event, policy: string) {
    e.Issue? ==>
      Policy(Request(0, e.sync, e.triggerQueue)) == policy && !e.sync.AbortSync? && !e.sync.Drop?
  }

  predicate PolicyThroughout(events: seq<Event>, policy: string) {
    forall i :: 0 <= i < |events| ==> AsksUnder(events[i], policy)
  }

  /** The policies under which at most one request waits. */
  predicate KeepsOne(policy: string) {
    policy == "last" || policy == "first" || policy == "none"
  }

  function Last(s: seq<nat>): seq<nat> {
    if s == [] then [] else [s[|s| - 1]]
  }

  function First(s: seq<nat>): seq<nat> {
    if s == [] then [] else [s[0]]
  }

  /** What waits under each policy, in terms of the requests that asked for the lock since it was taken. */
  predicate QueueHolds(st: State, policy: string) {
    && (policy == "last" ==> Ids(st.queue) == if st.xhr.Some? then Last(st.waiting) else [])
    && (policy == "first" ==> Ids(st.queue) == if st.xhr.Some? then First(st.waiting) else [])
    && (policy == "none" ==> st.queue == [])
  }

  lemma QueueAfterEnter(st: State, r: Request, policy: string)
    requires QueueHolds(st, policy) && !st.abortable && Policy(r) == policy && !r.sync.AbortSync? && !r.sync.Drop?
    ensures QueueHolds(Enter(st, r), policy)
  {
    IdsAppend(st.queue, r);
    assert |Ids(st.queue)| == |st.queue|;
  }

  lemma QueueAfterRelease(st: State, id: nat, givesUp: bool, policy: string)
    requires QueueHolds(st, policy) && KeepsOne(policy)
    ensures QueueHolds(EndRequestLock(st, id, givesUp), policy)
  {
    assert |Ids(st.queue)| == |st.queue| && |Ids(st.queue)| <= 1;
    assert st.queue != [] ==> st.queue[1..] == [];
  }

  lemma QueueAfterIssue(st: State, e: Event, policy: string)
    requires Calm(st) && e.Issue? && QueueHolds(st, policy) && AsksUnder(e, policy)
    ensures QueueHolds(Next(st, e), policy)
  {
    QueueAfterEnter(st.(issued := st.issued + 1), Request(st.issued, e.sync, e.triggerQueue), policy);
  }

  lemma {:induction false} QueueStep(st: State, e: Event, policy: string)
    requires Inv(st) && EventEnabled(st, e) && QueueHolds(st, policy) && KeepsOne(policy)
    requires AsksUnder(e, policy)
    ensures QueueHolds(Next(st, e), policy)
  {
    match e
    case Issue(_, _, _) => QueueAfterIssue(st, e, policy);
    case Veto(id, givesUp) => QueueAfterRelease(st.(preparing := st.preparing - {id}), id, givesUp, policy);
    case Transported(id, input, givesUp) =>
      QueueAfterRelease(AfterInput(st, id, input), id, givesUp, policy);
      TransportedNext(st, e);
  }

  lemma PolicyBefore(events: seq<Event>, policy: string)
    requires events != [] && PolicyThroughout(events, policy)
    ensures PolicyThroughout(Before(events), policy) && NoAbortSync(events)
    ensures AsksUnder(events[|events| - 1], policy)
  {
    assert forall i :: 0 <= i < |events| - 1 ==> Before(events)[i] == events[i];
  }

  /**
    Under `last` alone at most one request waits, and it is the latest that asked for the lock since
    it was taken; under `first` alone it is the earliest; under `none` alone nothing waits.
   */
  lemma {:induction false} OnePolicyQueue(events: seq<Event>, policy: string)
    requires Possible(events) && PolicyThroughout(events, policy) && KeepsOne(policy)
    ensures QueueHolds(Run(events), policy)
    decreases |events|
  {
    if events == [] {
      assert Ids([]) == [];
    } else {
      PolicyBefore(events, policy);
      BeforeHasNoAbort(events);
      RunKeeps(Before(events));
      OnePolicyQueue(Before(events), policy);
      QueueStep(Run(Before(events)), events[|events| - 1], policy);
    }
  }

  predicate NobodyGivesUp(events: seq<Event>) {
    forall i :: 0 <= i < |events| ==> !events[i].givesUp
  }

  predicate NothingLost(st: State) {
    NobodyStranded(st) && st.discarded == [] && st.started + Ids(st.queue) == Below(st.issued)
  }

  lemma NothingLostByRelease(st: State, id: nat)
    requires Calm(st) && st.discarded == [] && st.started + Ids(st.queue) == Below(st.issued)
    ensures NothingLost(EndRequestLock(st, id, false))
  {
    if st.queue != [] {
      IdsAppend(st.queue, st.queue[0]);
      assert (st.started + [st.queue[0].id]) + Ids(st.queue[1..]) == st.started + Ids(st.queue);
    }
  }

  lemma NothingLostByIssue(st: State, r: Request)
    requires Calm(st) && NobodyStranded(st) && st.discarded == []
             && st.started + Ids(st.queue) + [r.id] == Below(st.issued)
    requires Policy(r) == "all" && !r.sync.AbortSync? && !r.sync.Drop?
    ensures NothingLost(Enter(st, r))
  {
    IdsAppend(st.queue, r);
    assert st.started + Ids(st.queue) + [r.id] == st.started + Ids(st.queue + [r]);
    assert st.queue == [] ==> st.started + [r.id] + Ids(st.queue) == st.started + Ids(st.queue) + [r.id];
  }

  lemma {:induction false} NothingLostStep(st: State, e: Event)
    requires Inv(st) && NothingLost(st) && EventEnabled(st, e) && !e.givesUp
    requires AsksUnder(e, "all")
    ensures NothingLost(Next(st, e))
  {
    match e
    case Issue(sync, triggerQueue, _) =>
      assert Below(st.issued + 1) == Below(st.issued) + [st.issued];
      NothingLostByIssue(st.(issued := st.issued + 1), Request(st.issued, sync, triggerQueue));
    case Veto(id, _) => NothingLostByRelease(st.(preparing := st.preparing - {id}), id);
    case Transported(id, input, _) =>
      var st1 := AfterInput(st, id, input);
      NothingLostByRelease(st1, id);
      TransportedNext(st, e);
  }

  /** Under `all` alone, with nobody giving up before the lock, every request starts, in the order of issue. */
  lemma {:induction false} AllPolicyStartsAll(events: seq<Event>)
    requires Possible(events) && PolicyThroughout(events, "all") && NobodyGivesUp(events)
    ensures NothingLost(Run(events))
    decreases |events|
  {
    if events == [] {
      assert INIT.started + Ids(INIT.queue) == Below(0);
    } else {
      PolicyBefore(events, "all");
      BeforeHasNoAbort(events);
      assert forall i :: 0 <= i < |events| - 1 ==> Before(events)[i] == events[i];
      RunKeeps(Before(events));
      AllPolicyStartsAll(Before(events));
      NothingLostStep(Run(Before(events)), events[|events| - 1]);
    }
  }
}
