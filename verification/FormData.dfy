/**
  Form data as an ordered multimap: overriding one list of entries by another (web/src/htmx.ts), and
  the array a form data proxy hands out for a name, which writes itself back
  (web/src/htmx/form-data-utils.ts).
 */
module FormDataUtils {
  import opened Wrappers

  type Entry = (string, string)

  function Without(es: seq<Entry>, name: string): seq<Entry> {
    if es == [] then [] else (if es[0].0 == name then [] else [es[0]]) + Without(es[1..], name)
  }

  function GetAll(es: seq<Entry>, name: string): seq<string> {
    if es == [] then [] else (if es[0].0 == name then [es[0].1] else []) + GetAll(es[1..], name)
  }

  /** The entries whose name is not a name of `donor`. */
  function OutsideOf(es: seq<Entry>, donor: seq<Entry>): seq<Entry> {
    if es == [] then []
    else (if exists i :: 0 <= i < |donor| && donor[i].0 == es[0].0 then [] else [es[0]]) + OutsideOf(es[1..], donor)
  }

  class FormData {
    var entries: seq<Entry>

    constructor ()
      ensures entries == []
    {
      entries := [];
    }

    method Append(name: string, value: string)
      modifies this
      ensures entries == old(entries) + [(name, value)]
    {
      entries := entries + [(name, value)];
    }

    method Delete(name: string)
      modifies this
      ensures entries == Without(old(entries), name)
    {
      entries := Without(entries, name);
    }
  }

  /** Two different objects: the loops read the donor while they change the receiver. */
  method OverrideFormData(receiver: FormData, donor: FormData)
    requires receiver != donor
    modifies receiver
    ensures receiver.entries == OutsideOf(old(receiver.entries), donor.entries) + donor.entries
  {
    OutsideNothing(receiver.entries);
    for i := 0 to |donor.entries|
      invariant donor.entries == old(donor.entries)
      invariant receiver.entries == OutsideOf(old(receiver.entries), donor.entries[..i])
    {
      OutsideOneMore(old(receiver.entries), donor.entries[..i], donor.entries[i]);
      assert donor.entries[..i] + [donor.entries[i]] == donor.entries[..i + 1];
      receiver.Delete(donor.entries[i].0);
    }
    assert donor.entries[..|donor.entries|] == donor.entries;
    ghost var kept := receiver.entries;
    assert kept + donor.entries[..0] == kept;
    for i := 0 to |donor.entries|
      invariant donor.entries == old(donor.entries)
      invariant receiver.entries == kept + donor.entries[..i]
    {
      receiver.Append(donor.entries[i].0, donor.entries[i].1);
    }
  }

  lemma {:induction false} OutsideNothing(es: seq<Entry>)
    ensures OutsideOf(es, []) == es
  {
    if es != [] {
      OutsideNothing(es[1..]);
    }
  }

  lemma {:induction false} OutsideOneMore(es: seq<Entry>, donor: seq<Entry>, e: Entry)
    ensures OutsideOf(es, donor + [e]) == Without(OutsideOf(es, donor), e.0)
  {
    if es != [] {
      OutsideOneMore(es[1..], donor, e);
      var more := donor + [e];
      if i :| 0 <= i < |donor| && donor[i].0 == es[0].0 {
        assert more[i].0 == es[0].0;
      }
      assert more[|donor|] == e;
      var rest := OutsideOf(es[1..], donor);
      assert ([es[0]] + rest)[1..] == rest;
      assert [] + rest == rest;
    }
  }

  predicate Names(es: seq<Entry>, name: string) {
    exists i :: 0 <= i < |es| && es[i].0 == name
  }

  lemma {:induction false} GetAllAppend(a: seq<Entry>, b: seq<Entry>, name: string)
    ensures GetAll(a + b, name) == GetAll(a, name) + GetAll(b, name)
  {
    if a == [] {
      assert a + b == b;
    } else {
      GetAllAppend(a[1..], b, name);
      assert (a + b)[0] == a[0] && (a + b)[1..] == a[1..] + b;
      var x, y, z := if a[0].0 == name then [a[0].1] else [], GetAll(a[1..], name), GetAll(b, name);
      assert x + (y + z) == (x + y) + z;
    }
  }

  lemma {:induction false} GetAllOutside(es: seq<Entry>, donor: seq<Entry>, name: string)
    ensures GetAll(OutsideOf(es, donor), name) == if Names(donor, name) then [] else GetAll(es, name)
  {
    if es != [] {
      GetAllOutside(es[1..], donor, name);
      var rest := OutsideOf(es[1..], donor);
      assert ([es[0]] + rest)[1..] == rest && [] + rest == rest;
      if Names(donor, name) && es[0].0 == name {
        var i :| 0 <= i < |donor| && donor[i].0 == name;
        assert donor[i].0 == es[0].0;
      }
    }
  }

  /** What overriding means for a reader: the donor's values where it has the name, else the receiver's. */
  lemma OverrideGetAll(receiver: seq<Entry>, donor: seq<Entry>, name: string)
    ensures GetAll(OutsideOf(receiver, donor) + donor, name) ==
              if Names(donor, name) then GetAll(donor, name) else GetAll(receiver, name)
  {
    GetAllAppend(OutsideOf(receiver, donor), donor, name);
    GetAllOutside(receiver, donor, name);
    if !Names(donor, name) {
      NoValues(donor, name);
    }
  }

  function Staying(e: Entry, donor: seq<Entry>): seq<Entry> {
    if Names(donor, e.0) then [] else [e]
  }

  /** The entries that stay are in their order, each kept or not for itself. */
  lemma {:induction false} OutsideAppend(a: seq<Entry>, b: seq<Entry>, donor: seq<Entry>)
    ensures OutsideOf(a + b, donor) == OutsideOf(a, donor) + OutsideOf(b, donor)
  {
    if a == [] {
      assert a + b == b;
    } else {
      assert (a + b)[1..] == a[1..] + b;
      OutsideAppend(a[1..], b, donor);
      OutsideHead(a, donor);
      OutsideHead(a + b, donor);
      Assoc(Staying(a[0], donor), OutsideOf(a[1..], donor), OutsideOf(b, donor));
    }
  }

  lemma OutsideHead(es: seq<Entry>, donor: seq<Entry>)
    requires es != []
    ensures OutsideOf(es, donor) == Staying(es[0], donor) + OutsideOf(es[1..], donor)
  {
  }

  lemma Assoc(a: seq<Entry>, b: seq<Entry>, c: seq<Entry>)
    ensures a + (b + c) == (a + b) + c
  {
  }

  lemma {:induction false} NoValues(es: seq<Entry>, name: string)
    requires !Names(es, name)
    ensures GetAll(es, name) == []
  {
    if es != [] {
      assert es[0].0 != name;
      assert forall i :: 0 <= i < |es| - 1 ==> es[1..][i].0 == es[i + 1].0;
      NoValues(es[1..], name);
    }
  }

  // ---- The array proxy ----

  /** A slot of a JavaScript array: a value, or a hole that `forEach` passes over. */
  type Slots = seq<Option<string>>

  function Present(slots: Slots): seq<string> {
    if slots == [] then [] else (if slots[0].Some? then [slots[0].value] else []) + Present(slots[1..])
  }

  function Holes(n: nat): (h: Slots)
    ensures |h| == n && forall i :: 0 <= i < n ==> h[i] == None
  {
    seq(n, i => None)
  }

  /** Assignment to an index: an index beyond the end leaves holes before it. */
  function Assign(slots: Slots, index: nat, value: string): Slots {
    if index < |slots| then slots[index := Some(value)] else slots + Holes(index - |slots|) + [Some(value)]
  }

  function Entries(name: string, values: seq<string>): seq<Entry> {
    if values == [] then [] else [(name, values[0])] + Entries(name, values[1..])
  }

  /**
    One use of the proxy; `Call` is any other method of the array, with what it leaves in it.  The operator
    `delete` has no trap: it makes a hole, and the form data does not hear of it.
   */
  datatype Use = Push(value: string) | SetIndex(index: nat, value: string) | Call(after: Slots) | Delete(index: nat)

  function Deleted(slots: Slots, index: nat): Slots {
    if index < |slots| then slots[index := None] else slots
  }

  datatype State = State(entries: seq<Entry>, target: Slots)

  function WriteBack(entries: seq<Entry>, name: string, target: Slots): State {
    State(Without(entries, name) + Entries(name, Present(target)), target)
  }

  function Step(st: State, name: string, use: Use): State {
    match use
    case Push(v) => State(st.entries + [(name, v)], st.target + [Some(v)])
    case SetIndex(i, v) => WriteBack(st.entries, name, Assign(st.target, i, v))
    case Call(after) => WriteBack(st.entries, name, after)
    case Delete(i) => State(st.entries, Deleted(st.target, i))
  }

  class ArrayProxy {
    const formData: FormData
    const name: string
    var target: Slots

    constructor (formData: FormData, name: string)
      ensures this.formData == formData && this.name == name
      ensures Present(target) == GetAll(formData.entries, name) && forall i :: 0 <= i < |target| ==> target[i].Some?
    {
      this.formData := formData;
      this.name := name;
      var values := GetAll(formData.entries, name);
      this.target := seq(|values|, i requires 0 <= i < |values| => Some(values[i]));
      AllPresent(values);
    }

    method Push(value: string)
      modifies this, formData
      ensures State(formData.entries, target) == Step(old(State(formData.entries, target)), name, Use.Push(value))
    {
      target := target + [Some(value)];
      formData.Append(name, value);
    }

    /** `formData.delete(name)` and an append for every slot `forEach` visits. */
    method Rewrite()
      modifies formData
      ensures State(formData.entries, target) == WriteBack(old(formData.entries), name, target)
    {
      formData.Delete(name);
      ghost var others := formData.entries;
      assert others + Entries(name, []) == others;
      for i := 0 to |target|
        invariant formData.entries == others + Entries(name, Present(target[..i]))
      {
        OneMoreSlot(others, name, target, i);
        if target[i].Some? {
          formData.Append(name, target[i].value);
        }
      }
      assert target[..|target|] == target;
    }

    method SetIndex(index: nat, value: string)
      modifies this, formData
      ensures State(formData.entries, target)
           == Step(old(State(formData.entries, target)), name, Use.SetIndex(index, value))
    {
      target := Assign(target, index, value);
      Rewrite();
    }

    /** `delete proxy[index]`. */
    method Delete(index: nat)
      modifies this
      ensures State(formData.entries, target) == Step(old(State(formData.entries, target)), name, Use.Delete(index))
    {
      if index < |target| {
        target := target[index := None];
      }
    }

    /** Any other method of the array: it runs on the array, and the entries are written again. */
    method Call(after: Slots)
      modifies this, formData
      ensures State(formData.entries, target) == Step(old(State(formData.entries, target)), name, Use.Call(after))
    {
      target := after;
      Rewrite();
    }
  }

  lemma {:induction false} AllPresent(values: seq<string>)
    ensures Present(seq(|values|, i requires 0 <= i < |values| => Some(values[i]))) == values
  {
    if values != [] {
      var s := seq(|values|, i requires 0 <= i < |values| => Some(values[i]));
      var rest := values[1..];
      AllPresent(rest);
      assert s[1..] == seq(|rest|, i requires 0 <= i < |rest| => Some(rest[i]));
    }
  }

  lemma {:induction false} PresentAppend(a: Slots, b: Slots)
    ensures Present(a + b) == Present(a) + Present(b)
  {
    if a == [] {
      assert a + b == b;
    } else {
      assert (a + b)[1..] == a[1..] + b;
      PresentAppend(a[1..], b);
    }
  }

  lemma OneMoreSlot(others: seq<Entry>, name: string, target: Slots, i: nat)
    requires i < |target|
    ensures others + Entries(name, Present(target[..i + 1])) ==
              others + Entries(name, Present(target[..i])) + if target[i].Some? then [(name, target[i].value)] else []
  {
    PresentAppend(target[..i], [target[i]]);
    assert target[..i] + [target[i]] == target[..i + 1];
    assert [target[i]][1..] == [];
    if target[i].Some? {
      assert Present([target[i]]) == [target[i].value];
      EntriesAppend(name, Present(target[..i]), [target[i].value]);
      assert [target[i].value][1..] == [];
      var e := [(name, target[i].value)];
      assert Entries(name, [target[i].value]) == e;
      assert others + (Entries(name, Present(target[..i])) + e) == others + Entries(name, Present(target[..i])) + e;
    } else {
      assert Present([target[i]]) == [];
      assert Present(target[..i]) + [] == Present(target[..i]);
      assert forall s: seq<Entry> :: s + [] == s;
    }
  }

  lemma {:induction false} EntriesAppend(name: string, a: seq<string>, b: seq<string>)
    ensures Entries(name, a + b) == Entries(name, a) + Entries(name, b)
  {
    if a == [] {
      assert a + b == b;
    } else {
      assert (a + b)[1..] == a[1..] + b;
      EntriesAppend(name, a[1..], b);
    }
  }

  lemma {:induction false} GetAllEntries(name: string, values: seq<string>, other: string)
    ensures GetAll(Entries(name, values), other) == if other == name then values else []
    ensures Without(Entries(name, values), name) == []
  {
    if values != [] {
      GetAllEntries(name, values[1..], other);
    }
  }

  lemma {:induction false} WithoutAppend(a: seq<Entry>, b: seq<Entry>, name: string)
    ensures Without(a + b, name) == Without(a, name) + Without(b, name)
  {
    if a == [] {
      assert a + b == b;
    } else {
      assert (a + b)[1..] == a[1..] + b;
      WithoutAppend(a[1..], b, name);
    }
  }

  lemma {:induction false} GetAllWithout(es: seq<Entry>, name: string)
    ensures GetAll(Without(es, name), name) == [] && Without(Without(es, name), name) == Without(es, name)
  {
    if es != [] {
      GetAllWithout(es[1..], name);
      var rest := Without(es[1..], name);
      assert ([es[0]] + rest)[1..] == rest && [] + rest == rest;
    }
  }

  function Run(st: State, name: string, uses: seq<Use>): State {
    if uses == [] then st else Step(Run(st, name, uses[..|uses| - 1]), name, uses[|uses| - 1])
  }

  /** The form data holds the array's values under the name. */
  predicate Synced(st: State, name: string) {
    GetAll(st.entries, name) == Present(st.target)
  }

  /** The deletion takes a value out of the array. */
  predicate Drops(st: State, use: Use) {
    use.Delete? && use.index < |st.target| && st.target[use.index].Some?
  }

  /** How many values have been deleted since the entries were written last. */
  function Dropped(st: State, name: string, uses: seq<Use>): nat {
    if uses == [] then 0
    else
      var before, use := uses[..|uses| - 1], uses[|uses| - 1];
      if use.SetIndex? || use.Call? then 0
      else Dropped(st, name, before) + if Drops(Run(st, name, before), use) then 1 else 0
  }

  lemma WriteBackSyncs(st: State, name: string, after: Slots)
    ensures Synced(WriteBack(st.entries, name, after), name)
    ensures Without(WriteBack(st.entries, name, after).entries, name) == Without(st.entries, name)
  {
    GetAllWithout(st.entries, name);
    GetAllEntries(name, Present(after), name);
    GetAllAppend(Without(st.entries, name), Entries(name, Present(after)), name);
    WithoutAppend(Without(st.entries, name), Entries(name, Present(after)), name);
  }

  lemma PushAdds(st: State, name: string, v: string)
    ensures var st' := Step(st, name, Push(v));
            && GetAll(st'.entries, name) == GetAll(st.entries, name) + [v]
            && Present(st'.target) == Present(st.target) + [v]
            && Without(st'.entries, name) == Without(st.entries, name)
  {
    GetAllAppend(st.entries, [(name, v)], name);
    WithoutAppend(st.entries, [(name, v)], name);
    PresentAppend(st.target, [Some(v)]);
    assert [(name, v)][1..] == [] && [Some(v)][1..] == [];
  }

  lemma DeleteDrops(st: State, index: nat)
    ensures var st' := State(st.entries, Deleted(st.target, index));
            |Present(st'.target)| == |Present(st.target)| - if Drops(st, Delete(index)) then 1 else 0
    ensures !Drops(st, Delete(index)) ==> Deleted(st.target, index) == st.target
  {
    var s := st.target;
    if index < |s| {
      PresentAppend(s[..index], [s[index]] + s[index + 1..]);
      PresentAppend(s[..index], [None] + s[index + 1..]);
      assert s == s[..index] + ([s[index]] + s[index + 1..]);
      assert Deleted(s, index) == s[..index] + ([None] + s[index + 1..]);
      assert ([s[index]] + s[index + 1..])[1..] == s[index + 1..];
      assert ([None] + s[index + 1..])[1..] == s[index + 1..];
    }
  }

  /**
    After any uses: the form data is behind the array by the values deleted since the entries were written
    last, and without such deletions it holds the array's values in order.
   */
  lemma {:induction false} ProxyCounts(st: State, name: string, uses: seq<Use>)
    requires Synced(st, name)
    ensures var st' := Run(st, name, uses);
            && |GetAll(st'.entries, name)| == |Present(st'.target)| + Dropped(st, name, uses)
            && (Dropped(st, name, uses) == 0 ==> Synced(st', name))
            && Without(st'.entries, name) == Without(st.entries, name)
  {
    if uses != [] {
      var before, use := uses[..|uses| - 1], uses[|uses| - 1];
      ProxyCounts(st, name, before);
      var st1 := Run(st, name, before);
      match use
      case Push(v) => PushAdds(st1, name, v);
      case SetIndex(i, v) => WriteBackSyncs(st1, name, Assign(st1.target, i, v));
      case Call(after) => WriteBackSyncs(st1, name, after);
      case Delete(i) => DeleteDrops(st1, i);
    }
  }

  /**
    After any uses the form data holds, under the proxied name, the values of the array in order, holes left
    out, exactly when no value has been deleted since the entries were written last.  The entries under
    other names are what they were, in the same order.
   */
  lemma SyncedExactly(st: State, name: string, uses: seq<Use>)
    requires Synced(st, name)
    ensures Synced(Run(st, name, uses), name) <==> Dropped(st, name, uses) == 0
    ensures Without(Run(st, name, uses).entries, name) == Without(st.entries, name)
  {
    ProxyCounts(st, name, uses);
  }

  /** One deletion puts the form data out of step exactly when it hits a value. */
  lemma DeleteDesyncsExactly(st: State, name: string, index: nat)
    requires Synced(st, name)
    ensures !Synced(Step(st, name, Delete(index)), name) <==> Drops(st, Delete(index))
  {
    DeleteDrops(st, index);
  }

  predicate NoHoles(slots: Slots) {
    forall i :: 0 <= i < |slots| ==> slots[i].Some?
  }

  lemma {:induction false} PresentLength(slots: Slots)
    ensures |Present(slots)| <= |slots|
    ensures |Present(slots)| == |slots| <==> NoHoles(slots)
  {
    if slots != [] {
      PresentLength(slots[1..]);
      assert NoHoles(slots) <==> slots[0].Some? && NoHoles(slots[1..]) by {
        if NoHoles(slots[1..]) && slots[0].Some? {
          forall i | 0 <= i < |slots| ensures slots[i].Some? {
            if i > 0 { assert slots[1..][i - 1].Some?; }
          }
        }
      }
    }
  }

  /**
    An assignment to an index leaves the form data with as many values as the array has slots exactly
    when the index is not beyond the end of the array.
   */
  lemma AssignKeepsAll(st: State, name: string, index: nat, value: string)
    requires Synced(st, name) && NoHoles(st.target)
    ensures var st' := Step(st, name, SetIndex(index, value));
            |GetAll(st'.entries, name)| == |st'.target| <==> index <= |st.target|
  {
    WriteBackSyncs(st, name, Assign(st.target, index, value));
    var after := Assign(st.target, index, value);
    PresentLength(after);
    if index > |st.target| {
      assert after[|st.target|] == None;
    }
  }

  // ---- Two live proxies of one name ----

  /** Every access through the form data's own proxy hands out a new array: two of them, and the entries. */
  datatype Pair = Pair(entries: seq<Entry>, first: Slots, second: Slots)

  datatype PairUse = PairUse(onFirst: bool, use: Use)

  function Side(p: Pair, first: bool): State {
    State(p.entries, if first then p.first else p.second)
  }

  function PairStep(p: Pair, name: string, u: PairUse): Pair {
    var st := Step(Side(p, u.onFirst), name, u.use);
    if u.onFirst then Pair(st.entries, st.target, p.second) else Pair(st.entries, p.first, st.target)
  }

  predicate BothSynced(p: Pair, name: string) {
    Synced(Side(p, true), name) && Synced(Side(p, false), name)
  }

  /** The use leaves the values of the array, holes aside, as they were. */
  predicate LeavesValues(slots: Slots, use: Use) {
    match use
    case Push(_) => false
    case SetIndex(i, v) => Present(Assign(slots, i, v)) == Present(slots)
    case Call(after) => Present(after) == Present(slots)
    case Delete(i) => i < |slots| ==> slots[i].None?
  }

  lemma UsedStaysSynced(st: State, name: string, use: Use)
    requires Synced(st, name)
    ensures var st' := Step(st, name, use);
            && (!Drops(st, use) ==> Synced(st', name))
            && (GetAll(st'.entries, name) == GetAll(st.entries, name) && !Drops(st, use)
                <==> LeavesValues(st.target, use))
  {
    match use
    case Push(v) => PushAdds(st, name, v);
    case SetIndex(i, v) => WriteBackSyncs(st, name, Assign(st.target, i, v));
    case Call(after) => WriteBackSyncs(st, name, after);
    case Delete(i) => DeleteDrops(st, i);
  }

  /** A use of one of two proxies keeps both in step exactly when it leaves the values as they were. */
  lemma PairStepExactly(p: Pair, name: string, u: PairUse)
    requires BothSynced(p, name)
    ensures BothSynced(PairStep(p, name, u), name) <==> LeavesValues(Side(p, u.onFirst).target, u.use)
  {
    UsedStaysSynced(Side(p, u.onFirst), name, u.use);
    if Drops(Side(p, u.onFirst), u.use) {
      DeleteDesyncsExactly(Side(p, u.onFirst), name, u.use.index);
    }
  }

  function PairRun(p: Pair, name: string, uses: seq<PairUse>): Pair {
    if uses == [] then p else PairStep(PairRun(p, name, uses[..|uses| - 1]), name, uses[|uses| - 1])
  }

  predicate SyncedThroughout(p: Pair, name: string, uses: seq<PairUse>) {
    BothSynced(PairRun(p, name, uses), name) && (uses != [] ==> SyncedThroughout(p, name, uses[..|uses| - 1]))
  }

  predicate NeverChanges(p: Pair, name: string, uses: seq<PairUse>) {
    uses != [] ==>
      var before, u := uses[..|uses| - 1], uses[|uses| - 1];
      NeverChanges(p, name, before) && LeavesValues(Side(PairRun(p, name, before), u.onFirst).target, u.use)
  }

  /** Two live proxies stay in step throughout exactly as long as neither changes a value. */
  lemma {:induction false} PairSyncedExactly(p: Pair, name: string, uses: seq<PairUse>)
    requires BothSynced(p, name)
    ensures SyncedThroughout(p, name, uses) <==> NeverChanges(p, name, uses)
  {
    if uses != [] {
      var before := uses[..|uses| - 1];
      PairSyncedExactly(p, name, before);
      if SyncedThroughout(p, name, before) {
        PairStepExactly(PairRun(p, name, before), name, uses[|uses| - 1]);
      }
    }
  }

  /** What one proxy pushed is gone when the other is written back. */
  lemma PushOverwritten(p: Pair, name: string, value: string, after: Slots)
    requires BothSynced(p, name)
    ensures var pushed := PairStep(p, name, PairUse(true, Push(value)));
            var written := PairStep(pushed, name, PairUse(false, Call(after)));
            && GetAll(pushed.entries, name) == GetAll(p.entries, name) + [value]
            && GetAll(written.entries, name) == Present(after)
            && (after == p.second ==> GetAll(written.entries, name) == GetAll(p.entries, name))
  {
    PushAdds(Side(p, true), name, value);
    var pushed := PairStep(p, name, PairUse(true, Push(value)));
    WriteBackSyncs(Side(pushed, false), name, after);
  }
}
