/** In which order the requests of an element start, and when waiting ones are left behind (web/src/htmx.ts). */
module RequestOrder {
  import opened RequestScheduler

  predicate Increasing(s: seq<nat>) {
    forall i, j :: 0 <= i < j < |s| ==> s[i] < s[j]
  }

  /** Started and then waiting requests, in the order in which they were issued. */
  predicate InIssueOrder(st: State) {
    Increasing(st.started + Ids(st.queue))
  }

  /** A request that finds the lock free although others wait for it: it overtakes them. */
  predicate Overtakes(st: State, e: Event) {
    e.Issue? && !e.givesUp && st.xhr.None? && st.queue != []
  }

  lemma IncreasingParts(a: seq<nat>, b: seq<nat>)
    requires Increasing(a + b)
    ensures Increasing(a)
  {
    assert forall i :: 0 <= i < |a| ==> (a + b)[i] == a[i];
  }

  lemma IncreasingMore(a: seq<nat>, x: nat)
    requires Increasing(a) && forall y :: y in a ==> y < x
    ensures Increasing(a + [x])
  {
    assert forall i :: 0 <= i < |a| ==> a[i] in a;
  }

  lemma OrderAfterEnqueue(st: State, r: Request)
    requires InIssueOrder(st) && forall x :: x in st.started + Ids(st.queue) ==> x < r.id
    ensures InIssueOrder(Enqueue(st, r)) && Increasing(st.started + [r.id])
  {
    var a := st.started + Ids(st.queue);
    IdsAppend(st.queue, r);
    IncreasingMore(a, r.id);
    assert a + [r.id] == st.started + Ids(st.queue + [r]);
    IncreasingParts(st.started, Ids(st.queue));
    assert forall x :: x in st.started ==> x in a;
    IncreasingMore(st.started, r.id);
  }

  lemma IncreasingWithout(a: seq<nat>, n: nat)
    requires Increasing(a) && n < |a|
    ensures Increasing(a[..n] + a[n + 1..])
  {
    var b := a[..n] + a[n + 1..];
    forall i, j | 0 <= i < j < |b| ensures b[i] < b[j] {
      assert b[i] == a[if i < n then i else i + 1] && b[j] == a[if j < n then j else j + 1];
    }
  }

  lemma OrderWithoutHead(st: State)
    requires InIssueOrder(st) && st.queue != []
    ensures InIssueOrder(st.(queue := st.queue[1..]))
    ensures st.started + Ids(st.queue) == (st.started + [st.queue[0].id]) + Ids(st.queue[1..])
  {
    IdsAppend(st.queue, st.queue[0]);
    HeadBetween(st.started, st.queue[0].id, Ids(st.queue[1..]));
    IncreasingWithout(st.started + Ids(st.queue), |st.started|);
  }

  lemma HeadBetween(a: seq<nat>, x: nat, b: seq<nat>)
    ensures var s := a + ([x] + b);
            s == (a + [x]) + b && s[..|a|] + s[|a| + 1..] == a + b
  {
  }

  lemma OrderAfterRelease(st: State, id: nat, givesUp: bool)
    requires InIssueOrder(st) && (forall i :: 0 <= i < |st.queue| ==> !st.queue[i].sync.AbortSync?)
    ensures InIssueOrder(EndRequestLock(st, id, givesUp))
  {
    if st.queue != [] {
      OrderWithoutHead(st);
    }
  }

  lemma AllBelow(st: State, x: nat)
    requires Conserved(st) && x in st.started + Ids(st.queue)
    ensures x < st.issued
  {
    assert x in Account(st);
    assert x in multiset(Below(st.issued));
  }

  lemma OrderAfterOvertaking(st: State, r: Request)
    requires st.queue != [] && st.queue[0].id < r.id
    ensures !InIssueOrder(TakeLock(st, r))
  {
    var st' := TakeLock(st, r);
    var a, n := st'.started + Ids(st'.queue), |st.started|;
    assert a[n] == r.id && a[n + 1] == st.queue[0].id;
  }

  lemma OrderAfterEnter(st: State, r: Request)
    requires InIssueOrder(st) && !st.abortable && !r.sync.AbortSync?
    requires forall x :: x in st.started + Ids(st.queue) ==> x < r.id
    ensures InIssueOrder(Enter(st, r)) <==> !(st.xhr.None? && st.queue != [])
  {
    var st1 := if r.sync.Replace? then AbortHolder(st) else st;
    OrderAfterEnqueue(st1, r);
    if st.xhr.None? {
      assert Enter(st, r) == TakeLock(st, r);
      if st.queue == [] {
        assert st.started + [r.id] + Ids(st.queue) == st.started + [r.id];
      } else {
        assert Ids(st.queue)[0] in st.started + Ids(st.queue);
        OrderAfterOvertaking(st, r);
      }
    }
  }

  lemma OrderAfterIssue(st: State, e: Event)
    requires Inv(st) && InIssueOrder(st) && e.Issue? && !e.sync.AbortSync?
    ensures InIssueOrder(Next(st, e)) <==> !Overtakes(st, e)
  {
    var r, st1 := Request(st.issued, e.sync, e.triggerQueue), st.(issued := st.issued + 1);
    forall x | x in st.started + Ids(st.queue) ensures x < r.id {
      AllBelow(st, x);
    }
    if !e.givesUp {
      OrderAfterEnter(st1, r);
    }
  }

  lemma OrderStep(st: State, e: Event)
    requires Inv(st) && InIssueOrder(st) && EventEnabled(st, e) && (e.Issue? ==> !e.sync.AbortSync?)
    ensures InIssueOrder(Next(st, e)) <==> !Overtakes(st, e)
  {
    match e
    case Issue(_, _, _) => OrderAfterIssue(st, e);
    case Veto(id, givesUp) => OrderAfterRelease(st.(preparing := st.preparing - {id}), id, givesUp);
    case Transported(id, input, givesUp) =>
      var st1 := AfterInput(st, id, input);
      OrderAfterRelease(st1, id, givesUp);
      TransportedNext(st, e);
  }

  function Before(events: seq<Event>): (before: seq<Event>)
    requires events != []
    ensures |before| == |events| - 1
  {
    events[..|events| - 1]
  }

  lemma BeforeHasNoAbort(events: seq<Event>)
    requires events != [] && NoAbortSync(events)
    ensures NoAbortSync(Before(events))
    ensures var e := events[|events| - 1]; e.Issue? ==> !e.sync.AbortSync?
  {
    assert forall i :: 0 <= i < |events| - 1 ==> Before(events)[i] == events[i];
  }

  /** Started and waiting requests are in issue order in every state the run goes through. */
  predicate OrderedThroughout(events: seq<Event>)
    requires Possible(events)
    decreases |events|
  {
    InIssueOrder(Run(events)) && (events != [] ==> OrderedThroughout(Before(events)))
  }

  predicate NeverOvertakes(events: seq<Event>)
    requires Possible(events)
    decreases |events|
  {
    events != [] ==> !Overtakes(Run(Before(events)), events[|events| - 1]) && NeverOvertakes(Before(events))
  }

  /**
    Requests start in the order in which they were issued, throughout a run, exactly when no request
    of the run is issued while the lock is free and others still wait for it.
   */
  lemma {:induction false} OrderExactly(events: seq<Event>)
    requires Possible(events) && NoAbortSync(events)
    ensures OrderedThroughout(events) <==> NeverOvertakes(events)
    decreases |events|
  {
    if events == [] {
      assert INIT.started + Ids(INIT.queue) == [];
    } else {
      BeforeHasNoAbort(events);
      OrderExactly(Before(events));
      RunKeeps(Before(events));
      if OrderedThroughout(Before(events)) {
        OrderStep(Run(Before(events)), events[|events| - 1]);
      }
    }
  }

  /** Whether the event is a release after which the dequeued request gives up before the lock. */
  predicate DequeuedGivesUp(e: Event) {
    !e.Issue? && e.givesUp
  }

  /** The lock is never free while requests wait for it. */
  predicate NobodyStranded(st: State) {
    st.xhr.None? ==> st.queue == []
  }

  lemma StrandedByRelease(st: State, id: nat, givesUp: bool)
    requires forall i :: 0 <= i < |st.queue| ==> !st.queue[i].sync.AbortSync?
    ensures NobodyStranded(EndRequestLock(st, id, givesUp)) <==> !(givesUp && |st.queue| > 1)
  {
  }

  /** The one way to strand waiting requests: a release whose dequeued request gives up, with more behind it. */
  lemma {:induction false} StrandedExactly(st: State, e: Event)
    requires Inv(st) && NobodyStranded(st) && EventEnabled(st, e) && (e.Issue? ==> !e.sync.AbortSync?)
    ensures !NobodyStranded(Next(st, e)) <==>
              DequeuedGivesUp(e) && |st.queue| > 1 && (e.Transported? ==> Settles(e.input))
  {
    match e
    case Issue(_, _, _) =>
    case Veto(id, givesUp) => StrandedByRelease(st.(preparing := st.preparing - {id}), id, givesUp);
    case Transported(id, input, givesUp) =>
      var st1 := AfterInput(st, id, input);
      StrandedByRelease(st1, id, givesUp);
      TransportedNext(st, e);
  }

  predicate NobodyGivesUpLate(events: seq<Event>) {
    forall i :: 0 <= i < |events| ==> !DequeuedGivesUp(events[i])
  }

  /** Without such requests the lock is never free while others wait, and requests start in issue order. */
  lemma {:induction false} StartsInIssueOrder(events: seq<Event>)
    requires Possible(events) && NoAbortSync(events) && NobodyGivesUpLate(events)
    ensures NobodyStranded(Run(events)) && NeverOvertakes(events) && InIssueOrder(Run(events))
    decreases |events|
  {
    OrderExactly(events);
    if events != [] {
      BeforeHasNoAbort(events);
      assert forall i :: 0 <= i < |events| - 1 ==> Before(events)[i] == events[i];
      RunKeeps(Before(events));
      StartsInIssueOrder(Before(events));
      StrandedExactly(Run(Before(events)), events[|events| - 1]);
    }
  }
}
