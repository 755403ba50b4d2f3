/**
  The request lock and queue of one synchronization element (`issueAjaxRequest` in web/src/htmx.ts),
  composed with the fetch transport of every request that takes the lock.

  An `Event` is one uninterrupted piece of the program: a request is issued, a request that holds the
  lock is called off before it is sent, or one piece of a request's transport runs.  Events of
  different requests interleave in any order.
 */
module RequestScheduler {
  import opened Wrappers
  import opened FetchTransport

  /** The `hx-sync` strategy; `AbortSync` is the strategy named abort, `OtherSync` an unknown one. */
  datatype Sync = NoSync | Drop | AbortSync | Replace | QueueSync(name: string) | OtherSync

  /** `triggerQueue` is the queue option of the trigger, empty if there is none. */
  datatype Request = Request(id: nat, sync: Sync, triggerQueue: string)

  function Policy(r: Request): string {
    if r.sync.QueueSync? then r.sync.name else if r.triggerQueue != "" then r.triggerQueue else "last"
  }

  /**
    `xhr`, `abortable` and `queue` are the element's own data.  The rest records the run: the transport
    of every request that took the lock, the requests that took it and are not sent yet, how many
    requests were issued, which of them took the lock, were discarded without taking it, and gave it
    back, and which ones asked for it since it was last taken.
   */
  datatype State = State(
    xhr: Option<nat>, abortable: bool, queue: seq<Request>,
    transports: map<nat, Transport>, preparing: set<nat>,
    issued: nat, started: seq<nat>, discarded: seq<nat>, released: seq<nat>, waiting: seq<nat>)

  const INIT := State(None, false, [], map[], {}, 0, [], [], [], [])

  function Ids(rs: seq<Request>): (ids: seq<nat>)
    ensures |ids| == |rs| && forall i :: 0 <= i < |ids| ==> ids[i] == rs[i].id
  {
    seq(|rs|, i requires 0 <= i < |rs| => rs[i].id)
  }

  function Discard(st: State, ids: seq<nat>): State {
    st.(discarded := st.discarded + ids)
  }

  /** The `htmx:abort` event: the transport that holds the lock, if any, is told to abort. */
  function AbortHolder(st: State): State {
    if st.xhr.Some? && st.xhr.value in st.transports then
      st.(transports := st.transports[st.xhr.value := Step(st.transports[st.xhr.value], Abort)])
    else st
  }

  function TakeLock(st: State, r: Request): State {
    st.(xhr := Some(r.id), abortable := r.sync.AbortSync?, transports := st.transports[r.id := NEW_TRANSPORT],
        preparing := st.preparing + {r.id}, started := st.started + [r.id], waiting := [])
  }

  function Enqueue(st: State, r: Request): State {
    var policy, st := Policy(r), st.(waiting := st.waiting + [r.id]);
    if policy == "first" && st.queue == [] then st.(queue := [r])
    else if policy == "all" then st.(queue := st.queue + [r])
    else if policy == "last" then Discard(st.(queue := [r]), Ids(st.queue))
    else Discard(st, [r.id])
  }

  /** What a request does once it has got past the checks that precede the lock. */
  function Enter(st: State, r: Request): State {
    if r.sync.Drop? && st.xhr.Some? && !st.abortable then Discard(st, [r.id])
    else if r.sync.AbortSync? && st.xhr.Some? then Discard(st, [r.id])
    else
      var st := if r.sync.Replace? then AbortHolder(st) else st;
      if st.xhr.None? then TakeLock(st, r)
      else if st.abortable then TakeLock(AbortHolder(st), r)
      else Enqueue(st, r)
  }

  /** `endRequestLock`, called by request `id`; `givesUp` is whether the dequeued request stops before the lock. */
  function EndRequestLock(st: State, id: nat, givesUp: bool): State {
    var st := st.(xhr := None, abortable := false, released := st.released + [id]);
    if st.queue == [] then st
    else
      var r, st := st.queue[0], st.(queue := st.queue[1..]);
      if givesUp then Discard(st, [r.id]) else Enter(st, r)
  }

  /** The handlers of request `id` for the events its transport dispatched: each outcome ends the lock. */
  function HandleEvents(st: State, id: nat, events: seq<ProgressEvent>, givesUp: bool): State
    decreases |events|
  {
    if events == [] then st
    else HandleEvents(if IsOutcome(events[0]) then EndRequestLock(st, id, givesUp) else st, id, events[1..], givesUp)
  }

  datatype Event =
    | Issue(sync: Sync, triggerQueue: string, givesUp: bool)
    /** A prompt, a confirmation, an event handler or a validation stops the request before it is sent. */
    | Veto(id: nat, givesUp: bool)
    | Transported(id: nat, input: Input, givesUp: bool)

  predicate EventEnabled(st: State, e: Event) {
    match e
    case Issue(_, _, _) => true
    case Veto(id, _) => id in st.preparing
    case Transported(id, input, _) =>
      && id in st.transports && Enabled(st.transports[id], input)
      && (input.Send? || input.Open? ==> id in st.preparing)
  }

  /** The state when a piece of a transport has run, before any handler. */
  function AfterInput(st: State, id: nat, input: Input): State
    requires id in st.transports
  {
    st.(transports := st.transports[id := Step(st.transports[id], input)],
        preparing := if input.Send? then st.preparing - {id} else st.preparing)
  }

  predicate Settles(input: Input) {
    input.TextArrives? || input.Rejected?
  }

  function Next(st: State, e: Event): State
    requires EventEnabled(st, e)
  {
    match e
    case Issue(sync, triggerQueue, givesUp) =>
      var id, st := st.issued, st.(issued := st.issued + 1);
      if givesUp then Discard(st, [id]) else Enter(st, Request(id, sync, triggerQueue))
    case Veto(id, givesUp) =>
      EndRequestLock(st.(preparing := st.preparing - {id}), id, givesUp)
    case Transported(id, input, givesUp) =>
      var t := st.transports[id];
      var t' := Step(t, input);
      StepAppends(t, input);
      HandleEvents(AfterInput(st, id, input), id, t'.events[|t.events|..], givesUp)
  }

  lemma StepAppends(t: Transport, input: Input)
    ensures t.events <= Step(t, input).events
  {
  }

  // ---- The element's data as the program updates it ----

  class SyncElement {
    var xhr: Option<nat>
    var abortable: bool
    var queuedRequests: seq<Request>
    var transports: map<nat, Transport>
    var preparing: set<nat>
    var issued: nat
    var started: seq<nat>
    var discarded: seq<nat>
    var released: seq<nat>
    var waiting: seq<nat>

    function Abstract(): State
      reads this
    {
      State(xhr, abortable, queuedRequests, transports, preparing, issued, started, discarded, released, waiting)
    }

    constructor ()
      ensures Abstract() == INIT
    {
      xhr, abortable, queuedRequests, transports, preparing := None, false, [], map[], {};
      issued, started, discarded, released, waiting := 0, [], [], [], [];
    }

    method TriggerAbort()
      modifies this
      ensures Abstract() == AbortHolder(old(Abstract()))
    {
      if xhr.Some? && xhr.value in transports {
        transports := transports[xhr.value := Step(transports[xhr.value], Abort)];
      }
    }

    /** The four queue policies. */
    method QueueRequest(r: Request)
      modifies this
      ensures Abstract() == Enqueue(old(Abstract()), r)
    {
      var queueStrategy := Policy(r);
      waiting := waiting + [r.id];
      if queueStrategy == "first" && |queuedRequests| == 0 {
        queuedRequests := queuedRequests + [r];
      } else if queueStrategy == "all" {
        queuedRequests := queuedRequests + [r];
      } else if queueStrategy == "last" {
        discarded := discarded + Ids(queuedRequests);
        queuedRequests := [];
        queuedRequests := queuedRequests + [r];
      } else {
        discarded := discarded + [r.id];
      }
    }

    /** The part of `issueAjaxRequest` from the sync strategy to the lock. */
    method IssueAjaxRequest(r: Request)
      modifies this
      ensures Abstract() == Enter(old(Abstract()), r)
    {
      var takesAbort := false;
      if r.sync.Drop? && xhr.Some? && abortable != true {
        discarded := discarded + [r.id];
        return;
      } else if r.sync.AbortSync? {
        if xhr.Some? {
          discarded := discarded + [r.id];
          return;
        } else {
          takesAbort := true;
        }
      } else if r.sync.Replace? {
        TriggerAbort();
      }
      if xhr.Some? {
        if abortable {
          TriggerAbort();
        } else {
          QueueRequest(r);
          return;
        }
      }
      transports := transports[r.id := NEW_TRANSPORT];
      preparing := preparing + {r.id};
      started := started + [r.id];
      waiting := [];
      xhr := Some(r.id);
      abortable := takesAbort;
    }

    method EndLock(id: nat, givesUp: bool)
      modifies this
      ensures Abstract() == EndRequestLock(old(Abstract()), id, givesUp)
    {
      xhr := None;
      abortable := false;
      released := released + [id];
      if |queuedRequests| > 0 {
        var queuedRequest := queuedRequests[0];
        queuedRequests := queuedRequests[1..];
        if givesUp {
          discarded := discarded + [queuedRequest.id];
        } else {
          IssueAjaxRequest(queuedRequest);
        }
      }
    }
  }

  // ---- Runs ----

  predicate Possible(events: seq<Event>)
    decreases |events|, 0
  {
    events != [] ==>
      var before := events[..|events| - 1];
      Possible(before) && EventEnabled(Run(before), events[|events| - 1])
  }

  function Run(events: seq<Event>): State
    requires Possible(events)
    decreases |events|, 1
  {
    if events == [] then INIT else Next(Run(events[..|events| - 1]), events[|events| - 1])
  }

  /** No request is issued with the strategy named abort. */
  predicate NoAbortSync(events: seq<Event>) {
    forall i :: 0 <= i < |events| && events[i].Issue? ==> !events[i].sync.AbortSync?
  }

  predicate InFlight(t: Transport) {
    t.phase.AwaitingResponse? || t.phase.AwaitingText?
  }

  /** The transport has dispatched what its phase calls for. */
  predicate FollowsProtocol(t: Transport) {
    match t.phase
    case Unsent => t.events == [] && !t.timerArmed
    case Settled =>
      && |t.events| == 3 && t.events[0] == LoadStart && IsOutcome(t.events[1]) && t.events[2] == LoadEnd
      && !t.timerArmed
    case _ => t.events == [LoadStart]
  }

  function Holder(st: State): seq<nat> {
    if st.xhr.Some? then [st.xhr.value] else []
  }

  function Below(n: nat): (s: seq<nat>)
    ensures |s| == n && forall i :: 0 <= i < n ==> s[i] == i
  {
    seq(n, i => i)
  }

  /** The places a request can be in: started, waiting in the queue, discarded. */
  ghost function Account(st: State): multiset<nat> {
    multiset(st.started) + multiset(Ids(st.queue)) + multiset(st.discarded)
  }

  /** Every issued request is in exactly one of the three places. */
  ghost predicate Conserved(st: State) {
    Account(st) == multiset(Below(st.issued))
  }

  predicate Live(st: State, id: nat) {
    id in st.preparing || (id in st.transports && InFlight(st.transports[id]))
  }

  /** The requests that took the lock are those that gave it back, in the same order, and its holder. */
  ghost predicate LockInOrder(st: State) {
    st.started == st.released + Holder(st)
  }

  ghost predicate Calm(st: State) {
    !st.abortable && forall i :: 0 <= i < |st.queue| ==> !st.queue[i].sync.AbortSync?
  }

  ghost predicate TransportsMatch(st: State) {
    && (forall id :: id in st.transports <==> id in st.started)
    && (forall id :: id in st.preparing ==> id in st.transports && st.transports[id].phase.Unsent?)
    && (forall id :: id in st.transports ==> FollowsProtocol(st.transports[id]))
  }

  /** A request is live (taken but unsent, or in flight) exactly while it holds the lock. */
  ghost predicate HolderIsLive(st: State) {
    forall id :: id in st.started ==> (Live(st, id) <==> st.xhr == Some(id))
  }

  ghost predicate Inv(st: State) {
    LockInOrder(st) && Calm(st) && TransportsMatch(st) && HolderIsLive(st) && Conserved(st)
  }

  /** The state between a request's outcome and the call of `endRequestLock` by its handler. */
  ghost predicate Ending(st: State, id: nat) {
    && LockInOrder(st) && Calm(st) && TransportsMatch(st) && Conserved(st)
    && st.xhr == Some(id) && forall j :: j in st.started ==> !Live(st, j)
  }

  /** Everything the invariant says except the accounting. */
  ghost predicate LockInv(st: State) {
    LockInOrder(st) && Calm(st) && TransportsMatch(st) && HolderIsLive(st)
  }

  // ---- What holds over every run ----

  /**
    The lock: in every reachable state the requests that took the lock are, in order, those that gave
    it back and the present holder, so each one gives it back once and never for another.  A request
    is unsent or in flight exactly while it holds the lock, and every transport keeps to its protocol.
   */
  lemma LockSafety(events: seq<Event>, id: nat)
    requires Possible(events) && NoAbortSync(events)
    ensures var st := Run(events);
            && st.started == st.released + Holder(st)
            && (Live(st, id) <==> st.xhr == Some(id))
            && (id in st.transports ==> FollowsProtocol(st.transports[id]))
            && (st.xhr == Some(id) ==> id !in st.released)
  {
    RunKeeps(events);
    var st := Run(events);
    if id in st.released && st.xhr == Some(id) {
      BelowOnce(st.issued, id);
      assert false;
    }
  }

  /** Every issued request is in exactly one place, once: started, waiting or discarded. */
  lemma {:induction false} IssuedOnce(events: seq<Event>, id: nat)
    requires Possible(events) && NoAbortSync(events)
    ensures var st := Run(events);
            && st.issued == |st.started| + |st.queue| + |st.discarded|
            && Account(st)[id] == if id < st.issued then 1 else 0
  {
    RunKeeps(events);
    var st := Run(events);
    assert |Account(st)| == |st.started| + |Ids(st.queue)| + |st.discarded|;
    assert |multiset(Below(st.issued))| == st.issued;
    BelowOnce(st.issued, id);
    if id < st.issued {
      assert Below(st.issued)[id] == id;
    }
  }

  /** A piece of a transport ends the lock exactly when it settles the request, and then once. */
  lemma TransportedNext(st: State, e: Event)
    requires Inv(st) && e.Transported? && EventEnabled(st, e)
    ensures var st1 := AfterInput(st, e.id, e.input);
            Next(st, e) == if Settles(e.input) then EndRequestLock(st1, e.id, e.givesUp) else st1
  {
    var t := st.transports[e.id];
    HandledOnce(AfterInput(st, e.id, e.input), e.id, Step(t, e.input).events[|t.events|..], e.givesUp);
    if Settles(e.input) {
      SettlingEnds(st, e.id, e.input);
    } else {
      OtherInputKeeps(st, e.id, e.input);
    }
  }

  // ---- What every step keeps ----

  lemma AbortHolderKeeps(st: State)
    requires LockInv(st)
    ensures LockInv(AbortHolder(st))
  {
    var st' := AbortHolder(st);
    assert forall id :: id in st.transports ==>
             id in st'.transports && st'.transports[id].phase == st.transports[id].phase
             && st'.transports[id].events == st.transports[id].events
             && st'.transports[id].timerArmed == st.transports[id].timerArmed;
  }

  lemma TakeLockKeeps(st: State, r: Request)
    requires LockInv(st) && st.xhr.None? && r.id !in st.started && !r.sync.AbortSync?
    ensures LockInv(TakeLock(st, r))
  {
    var st' := TakeLock(st, r);
    assert st.started == st.released;
    forall id | id in st'.started ensures Live(st', id) <==> st'.xhr == Some(id) {
      if id != r.id {
        assert id in st.started;
        assert !Live(st, id);
      }
    }
  }

  lemma EnqueueKeeps(st: State, r: Request)
    requires LockInv(st) && !r.sync.AbortSync?
    ensures LockInv(Enqueue(st, r))
  {
    var st' := Enqueue(st, r);
    assert forall id :: Live(st', id) <==> Live(st, id);
  }

  lemma DiscardKeeps(st: State, ids: seq<nat>)
    requires LockInv(st)
    ensures LockInv(Discard(st, ids))
  {
    assert forall id :: Live(Discard(st, ids), id) <==> Live(st, id);
  }

  lemma EnterKeeps(st: State, r: Request)
    requires LockInv(st) && r.id !in st.started && !r.sync.AbortSync?
    ensures LockInv(Enter(st, r))
  {
    if r.sync.Drop? && st.xhr.Some? {
      DiscardKeeps(st, [r.id]);
    } else {
      AbortHolderKeeps(st);
      var st := if r.sync.Replace? then AbortHolder(st) else st;
      if st.xhr.None? {
        TakeLockKeeps(st, r);
      } else {
        EnqueueKeeps(st, r);
      }
    }
  }

  lemma IdsAppend(rs: seq<Request>, r: Request)
    ensures Ids(rs + [r]) == Ids(rs) + [r.id] && Ids([r]) == [r.id]
    ensures rs != [] ==> Ids(rs) == [rs[0].id] + Ids(rs[1..])
  {
  }

  lemma TakeLockAccounts(st: State, r: Request)
    ensures Account(TakeLock(st, r)) == Account(st) + multiset{r.id} && TakeLock(st, r).issued == st.issued
    ensures Account(Discard(st, [r.id])) == Account(st) + multiset{r.id} && Discard(st, [r.id]).issued == st.issued
  {
  }

  lemma QueuedAccounts(st: State, r: Request)
    ensures Account(st.(queue := st.queue + [r])) == Account(st) + multiset{r.id}
  {
    IdsAppend(st.queue, r);
  }

  lemma LastAccounts(st: State, r: Request)
    ensures Account(Discard(st.(queue := [r]), Ids(st.queue))) == Account(st) + multiset{r.id}
  {
    IdsAppend([], r);
    assert multiset(st.discarded + Ids(st.queue)) == multiset(st.discarded) + multiset(Ids(st.queue));
  }

  lemma EnqueueIsOneOf(st: State, r: Request)
    ensures var st1, st' := st.(waiting := st.waiting + [r.id]), Enqueue(st, r);
            || st' == st1.(queue := st1.queue + [r])
            || st' == Discard(st1.(queue := [r]), Ids(st1.queue))
            || st' == Discard(st1, [r.id])
  {
    assert st.queue == [] ==> st.queue + [r] == [r];
  }

  lemma EnqueueAccounts(st: State, r: Request)
    ensures Account(Enqueue(st, r)) == Account(st) + multiset{r.id} && Enqueue(st, r).issued == st.issued
  {
    EnqueueIsOneOf(st, r);
    var st1 := st.(waiting := st.waiting + [r.id]);
    assert Account(st1) == Account(st);
    QueuedAccounts(st1, r);
    LastAccounts(st1, r);
    TakeLockAccounts(st1, r);
  }

  lemma AbortHolderAccounts(st: State)
    ensures Account(AbortHolder(st)) == Account(st) && AbortHolder(st).issued == st.issued
  {
  }

  lemma EnterIsOneOf(st: State, r: Request)
    ensures var st1, st' := if r.sync.Replace? then AbortHolder(st) else st, Enter(st, r);
            st' == Discard(st, [r.id]) || st' == TakeLock(st1, r) || st' == TakeLock(AbortHolder(st1), r)
              || st' == Enqueue(st1, r)
  {
  }

  lemma EnterAccounts(st: State, r: Request)
    ensures Account(Enter(st, r)) == Account(st) + multiset{r.id} && Enter(st, r).issued == st.issued
  {
    EnterIsOneOf(st, r);
    var st1 := if r.sync.Replace? then AbortHolder(st) else st;
    AbortHolderAccounts(st);
    AbortHolderAccounts(st1);
    TakeLockAccounts(st, r);
    TakeLockAccounts(st1, r);
    TakeLockAccounts(AbortHolder(st1), r);
    EnqueueAccounts(st1, r);
  }

  lemma Unlocked(st: State, id: nat)
    requires Ending(st, id)
    ensures var st' := st.(xhr := None, abortable := false, released := st.released + [id]);
            LockInv(st') && Account(st') == Account(st)
  {
    var st' := st.(xhr := None, abortable := false, released := st.released + [id]);
    assert st'.started == st'.released + [];
    assert forall j :: Live(st', j) <==> Live(st, j);
  }

  lemma Dequeued(st: State)
    requires LockInv(st) && Conserved(st) && st.queue != []
    ensures var st' := st.(queue := st.queue[1..]);
            && LockInv(st') && Account(st') + multiset{st.queue[0].id} == Account(st)
            && st.queue[0].id !in st.started && !st.queue[0].sync.AbortSync?
  {
    var st' := st.(queue := st.queue[1..]);
    assert forall j :: Live(st', j) <==> Live(st, j);
    IdsAppend(st.queue, st.queue[0]);
    NotBoth(st, st.queue[0].id);
  }

  lemma EndingReleases(st: State, id: nat, givesUp: bool)
    requires Ending(st, id)
    ensures Inv(EndRequestLock(st, id, givesUp))
  {
    Unlocked(st, id);
    if st.queue != [] {
      var st1 := st.(xhr := None, abortable := false, released := st.released + [id]);
      Dequeued(st1);
      var r, st2 := st1.queue[0], st1.(queue := st1.queue[1..]);
      DiscardKeeps(st2, [r.id]);
      EnterKeeps(st2, r);
      EnterAccounts(st2, r);
    }
  }

  lemma BelowOnce(n: nat, x: nat)
    ensures multiset(Below(n))[x] <= 1
  {
    if n > 0 {
      BelowOnce(n - 1, x);
      assert Below(n) == Below(n - 1) + [n - 1];
      if x == n - 1 {
        assert x !in Below(n - 1);
      }
    }
  }

  /** A queued request has not been started. */
  lemma NotBoth(st: State, id: nat)
    requires Conserved(st) && id in Ids(st.queue)
    ensures id !in st.started && id !in st.discarded
  {
    BelowOnce(st.issued, id);
    assert multiset(Ids(st.queue))[id] >= 1;
    assert (multiset(st.started) + multiset(Ids(st.queue)) + multiset(st.discarded))[id] <= 1;
  }

  lemma FreshId(st: State)
    requires Conserved(st)
    ensures st.issued !in st.started && st.issued !in Ids(st.queue) && st.issued !in st.discarded
    ensures multiset(Below(st.issued + 1)) == multiset(Below(st.issued)) + multiset{st.issued}
  {
    assert Below(st.issued + 1) == Below(st.issued) + [st.issued];
    assert multiset(Below(st.issued))[st.issued] == 0;
  }

  function Counted(st: State): State {
    st.(issued := st.issued + 1)
  }

  lemma CountedKeeps(st: State)
    requires Inv(st)
    ensures LockInv(Counted(st)) && Account(Counted(st)) + multiset{st.issued} == multiset(Below(st.issued + 1))
    ensures st.issued !in Counted(st).started
  {
    FreshId(st);
    assert forall j :: Live(Counted(st), j) <==> Live(st, j);
  }

  lemma DiscardedInv(st: State, r: Request)
    requires LockInv(st) && Account(st) + multiset{r.id} == multiset(Below(st.issued))
    ensures Inv(Discard(st, [r.id]))
  {
    DiscardKeeps(st, [r.id]);
    TakeLockAccounts(st, r);
  }

  lemma EnteredInv(st: State, r: Request)
    requires LockInv(st) && Account(st) + multiset{r.id} == multiset(Below(st.issued))
    requires r.id !in st.started && !r.sync.AbortSync?
    ensures Inv(Enter(st, r))
  {
    EnterKeeps(st, r);
    EnterAccounts(st, r);
  }

  lemma IssueKeeps(st: State, e: Event)
    requires Inv(st) && e.Issue? && !e.sync.AbortSync?
    ensures Inv(Next(st, e))
  {
    CountedKeeps(st);
    var r, st1 := Request(st.issued, e.sync, e.triggerQueue), Counted(st);
    assert Next(st, e) == if e.givesUp then Discard(st1, [r.id]) else Enter(st1, r);
    if e.givesUp {
      DiscardedInv(st1, r);
    } else {
      EnteredInv(st1, r);
    }
  }

  lemma VetoKeeps(st: State, e: Event)
    requires Inv(st) && e.Veto? && EventEnabled(st, e)
    ensures Inv(Next(st, e))
  {
    var st1 := st.(preparing := st.preparing - {e.id});
    assert Live(st, e.id) && e.id in st.started;
    forall j | j in st1.started ensures !Live(st1, j) {
      assert Live(st, j) <==> st.xhr == Some(j);
    }
    EndingReleases(st1, e.id, e.givesUp);
  }

  lemma StepFollows(t: Transport, input: Input)
    requires FollowsProtocol(t) && Enabled(t, input)
    ensures FollowsProtocol(Step(t, input))
  {
  }

  lemma TransportsStayMatched(st: State, id: nat, input: Input)
    requires TransportsMatch(st) && EventEnabled(st, Transported(id, input, false))
    ensures TransportsMatch(AfterInput(st, id, input))
  {
    StepFollows(st.transports[id], input);
  }

  lemma OthersStayLive(st: State, id: nat, input: Input)
    requires Inv(st) && EventEnabled(st, Transported(id, input, false))
    ensures forall j :: j != id ==> (Live(AfterInput(st, id, input), j) <==> Live(st, j))
    ensures TransportsMatch(AfterInput(st, id, input))
  {
    TransportsStayMatched(st, id, input);
  }

  lemma SettlingEnds(st: State, id: nat, input: Input)
    requires Inv(st) && EventEnabled(st, Transported(id, input, false)) && (input.TextArrives? || input.Rejected?)
    ensures Ending(AfterInput(st, id, input), id)
    ensures var d := Step(st.transports[id], input).events[1..]; |d| == 2 && IsOutcome(d[0]) && d[1] == LoadEnd
    ensures st.transports[id].events == [LoadStart]
  {
    OthersStayLive(st, id, input);
    assert Live(st, id) && id in st.started;
  }

  lemma OtherInputKeeps(st: State, id: nat, input: Input)
    requires Inv(st) && EventEnabled(st, Transported(id, input, false)) && !input.TextArrives? && !input.Rejected?
    ensures Inv(AfterInput(st, id, input))
    ensures var d := Step(st.transports[id], input).events[|st.transports[id].events|..]; d == [] || d == [LoadStart]
  {
    OthersStayLive(st, id, input);
    assert id in st.started;
    assert Live(AfterInput(st, id, input), id) <==> Live(st, id);
  }

  lemma HandledOnce(st: State, id: nat, events: seq<ProgressEvent>, givesUp: bool)
    ensures |events| == 2 && IsOutcome(events[0]) && events[1] == LoadEnd ==>
              HandleEvents(st, id, events, givesUp) == EndRequestLock(st, id, givesUp)
    ensures events == [] || events == [LoadStart] ==> HandleEvents(st, id, events, givesUp) == st
  {
    if |events| == 2 && events[1] == LoadEnd {
      assert events[1..] == [LoadEnd] && [LoadEnd][1..] == [];
      assert HandleEvents(EndRequestLock(st, id, givesUp), id, [LoadEnd], givesUp) == EndRequestLock(st, id, givesUp);
    }
  }

  lemma TransportKeeps(st: State, e: Event)
    requires Inv(st) && e.Transported? && EventEnabled(st, e)
    ensures Inv(Next(st, e))
  {
    TransportedNext(st, e);
    if Settles(e.input) {
      SettlingEnds(st, e.id, e.input);
      EndingReleases(AfterInput(st, e.id, e.input), e.id, e.givesUp);
    } else {
      OtherInputKeeps(st, e.id, e.input);
    }
  }

  lemma {:induction false} RunKeeps(events: seq<Event>)
    requires Possible(events) && NoAbortSync(events)
    ensures Inv(Run(events))
    decreases |events|
  {
    if events == [] {
      assert Ids([]) == [] && Below(0) == [];
    } else {
      var before, e := events[..|events| - 1], events[|events| - 1];
      assert forall i :: 0 <= i < |before| ==> before[i] == events[i];
      RunKeeps(before);
      match e
      case Issue(_, _, _) => IssueKeeps(Run(before), e);
      case Veto(_, _) => VetoKeeps(Run(before), e);
      case Transported(_, _, _) => TransportKeeps(Run(before), e);
    }
  }
}
