/**
  The history cache (web/src/htmx/history-runtime.ts): a list of page snapshots in session storage,
  the most recent last.
 */
module HistoryCache {
  import opened Wrappers

  datatype Item = Item(url: string, content: string, title: string, scroll: real)

  /** Whether session storage has room for the list; where it has none, storing throws. */
  type Quota = seq<Item> -> bool

  function Cache(stored: Option<seq<Item>>): seq<Item> {
    if stored.None? then [] else stored.value
  }

  /** The list without its first item for `url`. */
  function Forget(cache: seq<Item>, url: string): (r: seq<Item>)
    ensures |r| <= |cache|
  {
    if cache == [] then []
    else if cache[0].url == url then cache[1..]
    else [cache[0]] + Forget(cache[1..], url)
  }

  lemma ForgetAt(cache: seq<Item>, url: string, i: nat)
    requires i < |cache|
    ensures cache[..i] + Forget(cache[i..], url) ==
              if cache[i].url == url then cache[..i] + cache[i + 1..] else cache[..i + 1] + Forget(cache[i + 1..], url)
  {
    assert cache[i..][1..] == cache[i + 1..];
    assert cache[..i + 1] == cache[..i] + [cache[i]];
    assert cache[..i] + ([cache[i]] + Forget(cache[i + 1..], url))
           == cache[..i] + [cache[i]] + Forget(cache[i + 1..], url);
  }

  function LastK(s: seq<Item>, k: nat): (r: seq<Item>)
    ensures |r| == if |s| <= k then |s| else k
  {
    if |s| <= k then s else s[|s| - k..]
  }

  /** The list the program wants to store. */
  function Intended(stored: Option<seq<Item>>, item: Item, size: nat): seq<Item> {
    LastK(Forget(Cache(stored), item.url) + [item], size)
  }

  /** The first suffix that fits is stored; if none does, storage keeps what it had. */
  function Store(stored: Option<seq<Item>>, cache: seq<Item>, fits: Quota): Option<seq<Item>> {
    if cache == [] then stored
    else if fits(cache) then Some(cache)
    else Store(stored, cache[1..], fits)
  }

  function Saved(stored: Option<seq<Item>>, item: Item, size: int, fits: Quota): Option<seq<Item>> {
    if size <= 0 then None else Store(stored, Intended(stored, item, size), fits)
  }

  function Lookup(cache: seq<Item>, url: string): Option<Item> {
    if cache == [] then None else if cache[0].url == url then Some(cache[0]) else Lookup(cache[1..], url)
  }

  class HistoryRuntime {
    /** The parsed value under `htmx-history-cache`. */
    var stored: Option<seq<Item>>
    const normalizePath: string -> string

    constructor (normalizePath: string -> string)
      ensures stored == None && this.normalizePath == normalizePath
    {
      stored := None;
      this.normalizePath := normalizePath;
    }

    /** `page` is the snapshot of the page, still under the path as given. */
    method SaveToHistoryCache(accessible: bool, size: int, page: Item, fits: Quota)
      modifies this
      ensures stored == if !accessible then old(stored)
                        else Saved(old(stored), page.(url := normalizePath(page.url)), size, fits)
    {
      if !accessible {
        return;
      }
      if size <= 0 {
        stored := None;
        return;
      }
      var newHistoryItem := page.(url := normalizePath(page.url));
      var historyCache := Splice(Cache(stored), newHistoryItem.url);
      historyCache := historyCache + [newHistoryItem];
      ghost var all := historyCache;
      while |historyCache| > size
        invariant LastK(historyCache, size) == LastK(all, size)
      {
        historyCache := historyCache[1..];
      }
      ghost var intended := historyCache;
      while |historyCache| > 0
        invariant stored == old(stored)
        invariant Store(stored, historyCache, fits) == Store(stored, intended, fits)
      {
        if fits(historyCache) {
          stored := Some(historyCache);
          break;
        }
        historyCache := historyCache[1..];
      }
    }

    /** The loop that removes the first item for the path. */
    method Splice(cache: seq<Item>, url: string) returns (historyCache: seq<Item>)
      ensures historyCache == Forget(cache, url)
    {
      historyCache := cache;
      for i := 0 to |cache|
        invariant historyCache == cache
        invariant Forget(cache, url) == cache[..i] + Forget(cache[i..], url)
      {
        ForgetAt(cache, url, i);
        if historyCache[i].url == url {
          historyCache := historyCache[..i] + historyCache[i + 1..];
          return;
        }
      }
      assert cache[|cache|..] == [] && cache[..|cache|] == cache;
    }

    method GetCachedHistory(accessible: bool, url: string) returns (item: Option<Item>)
      ensures item == if accessible then Lookup(Cache(stored), normalizePath(url)) else None
    {
      if !accessible {
        return None;
      }
      var path := normalizePath(url);
      var historyCache := Cache(stored);
      for i := 0 to |historyCache|
        invariant Lookup(historyCache, path) == Lookup(historyCache[i..], path)
      {
        if historyCache[i].url == path {
          return Some(historyCache[i]);
        }
        assert historyCache[i..][1..] == historyCache[i + 1..];
      }
      return None;
    }
  }

  // ---- One save ----

  /** How many items have to go before the rest has room. */
  function FirstFit(cache: seq<Item>, fits: Quota): (i: nat)
    ensures i <= |cache|
  {
    if cache == [] || fits(cache) then 0 else 1 + FirstFit(cache[1..], fits)
  }

  lemma {:induction false} FirstFitIsFirst(cache: seq<Item>, fits: Quota)
    ensures var i := FirstFit(cache, fits);
            && (i < |cache| ==> fits(cache[i..]))
            && forall j :: 0 <= j < i ==> !fits(cache[j..])
  {
    if cache != [] {
      var rest := cache[1..];
      FirstFitIsFirst(rest, fits);
      assert cache[0..] == cache;
      assert forall j :: 0 <= j < |rest| ==> rest[j..] == cache[j + 1..];
      if !fits(cache) {
        forall j | 0 <= j < FirstFit(cache, fits) ensures !fits(cache[j..]) {
          if j > 0 { assert rest[j - 1..] == cache[j..]; }
        }
      }
    }
  }

  /**
    Either a suffix of the intended list is stored, the longest one that has room, or none has and
    storage is as it was.
   */
  lemma {:induction false} StoreIsSuffix(stored: Option<seq<Item>>, cache: seq<Item>, fits: Quota)
    ensures var i := FirstFit(cache, fits);
            Store(stored, cache, fits) == if i < |cache| then Some(cache[i..]) else stored
  {
    if cache != [] {
      if fits(cache) {
        assert cache[0..] == cache;
      } else {
        StoreIsSuffix(stored, cache[1..], fits);
        var i := FirstFit(cache[1..], fits);
        assert cache[1..][i..] == cache[i + 1..];
      }
    }
  }

  predicate Holds(cache: seq<Item>, url: string) {
    cache != [] && (cache[0].url == url || Holds(cache[1..], url))
  }

  predicate Distinct(cache: seq<Item>) {
    cache != [] ==> !Holds(cache[1..], cache[0].url) && Distinct(cache[1..])
  }

  lemma {:induction false} HoldsMeans(cache: seq<Item>, url: string)
    ensures Holds(cache, url) <==> exists i :: 0 <= i < |cache| && cache[i].url == url
  {
    if cache != [] {
      var rest := cache[1..];
      HoldsMeans(rest, url);
      if i :| 0 <= i < |rest| && rest[i].url == url {
        assert cache[i + 1].url == url;
      }
      if i :| 0 < i < |cache| && cache[i].url == url {
        assert rest[i - 1].url == url;
      }
    }
  }

  /** No two items of a distinct list have the same path. */
  lemma {:induction false} DistinctMeans(cache: seq<Item>)
    ensures Distinct(cache) <==> forall i, j :: 0 <= i < j < |cache| ==> cache[i].url != cache[j].url
  {
    if cache != [] {
      var rest := cache[1..];
      DistinctMeans(rest);
      HoldsMeans(rest, cache[0].url);
      assert forall i :: 0 < i < |cache| ==> cache[i] == rest[i - 1];
      if Distinct(cache) {
        forall i, j | 0 <= i < j < |cache| ensures cache[i].url != cache[j].url {
          assert rest[j - 1] == cache[j];
          if i > 0 { assert rest[i - 1] == cache[i]; }
        }
      }
      if forall i, j :: 0 <= i < j < |cache| ==> cache[i].url != cache[j].url {
        forall i, j | 0 <= i < j < |rest| ensures rest[i].url != rest[j].url {
          assert rest[i] == cache[i + 1] && rest[j] == cache[j + 1];
        }
      }
    }
  }

  lemma {:induction false} HoldsAppend(a: seq<Item>, b: seq<Item>, u: string)
    ensures Holds(a + b, u) <==> Holds(a, u) || Holds(b, u)
  {
    if a == [] {
      assert a + b == b;
    } else {
      assert (a + b)[1..] == a[1..] + b;
      HoldsAppend(a[1..], b, u);
    }
  }

  lemma {:induction false} HoldsForget(cache: seq<Item>, url: string, u: string)
    requires Distinct(cache)
    ensures Holds(Forget(cache, url), u) <==> Holds(cache, u) && u != url
  {
    if cache != [] {
      HoldsForget(cache[1..], url, u);
      var f := Forget(cache[1..], url);
      assert ([cache[0]] + f)[1..] == f;
    }
  }

  lemma {:induction false} ForgetNothing(cache: seq<Item>, url: string)
    requires !Holds(cache, url)
    ensures Forget(cache, url) == cache
  {
    if cache != [] {
      ForgetNothing(cache[1..], url);
    }
  }

  lemma {:induction false} DistinctForget(cache: seq<Item>, url: string)
    requires Distinct(cache)
    ensures Distinct(Forget(cache, url))
    ensures |Forget(cache, url)| == if Holds(cache, url) then |cache| - 1 else |cache|
  {
    if cache != [] {
      DistinctForget(cache[1..], url);
      HoldsForget(cache[1..], url, cache[0].url);
      var f := Forget(cache[1..], url);
      assert ([cache[0]] + f)[1..] == f;
    }
  }

  lemma {:induction false} DistinctAppend(a: seq<Item>, x: Item)
    requires Distinct(a) && !Holds(a, x.url)
    ensures Distinct(a + [x])
  {
    if a == [] {
      assert a + [x] == [x] && [x][1..] == [];
    } else {
      assert (a + [x])[1..] == a[1..] + [x];
      DistinctAppend(a[1..], x);
      HoldsAppend(a[1..], [x], a[0].url);
      assert [x][1..] == [];
    }
  }

  lemma {:induction false} DistinctSuffix(cache: seq<Item>, i: nat)
    requires Distinct(cache) && i <= |cache|
    ensures Distinct(cache[i..])
  {
    if i == 0 {
      assert cache[0..] == cache;
    } else {
      DistinctSuffix(cache[1..], i - 1);
      assert cache[1..][i - 1..] == cache[i..];
    }
  }

  lemma IntendedDistinct(stored: Option<seq<Item>>, item: Item, size: nat)
    requires Distinct(Cache(stored)) && size > 0
    ensures var c := Intended(stored, item, size); Distinct(c) && c != [] && |c| <= size && c[|c| - 1] == item
  {
    var f := Forget(Cache(stored), item.url);
    DistinctForget(Cache(stored), item.url);
    HoldsForget(Cache(stored), item.url, item.url);
    DistinctAppend(f, item);
    var all := f + [item];
    DistinctSuffix(all, |all| - |LastK(all, size)|);
    assert all[0..] == all;
  }

  lemma {:induction false} LookupLast(cache: seq<Item>)
    requires Distinct(cache) && cache != []
    ensures Lookup(cache, cache[|cache| - 1].url) == Some(cache[|cache| - 1])
  {
    if |cache| > 1 {
      var last := cache[|cache| - 1];
      assert cache[1..][|cache| - 2] == last;
      HoldsMeans(cache[1..], last.url);
      LookupLast(cache[1..]);
    }
  }

  /** Some suffix of the list the program wants to store has room. */
  predicate CanStore(stored: Option<seq<Item>>, item: Item, size: nat, fits: Quota) {
    FirstFit(Intended(stored, item, size), fits) < |Intended(stored, item, size)|
  }

  /**
    When some suffix of the intended list has room, the lookup of the saved path returns the snapshot
    just taken; when none has, nothing changes.
   */
  lemma SavedIsFound(stored: Option<seq<Item>>, item: Item, size: nat, fits: Quota)
    requires Distinct(Cache(stored)) && size > 0
    ensures CanStore(stored, item, size, fits) ==>
              Lookup(Cache(Saved(stored, item, size, fits)), item.url) == Some(item)
    ensures !CanStore(stored, item, size, fits) ==> Saved(stored, item, size, fits) == stored
  {
    var c := Intended(stored, item, size);
    IntendedDistinct(stored, item, size);
    StoreIsSuffix(stored, c, fits);
    if CanStore(stored, item, size, fits) {
      var i := FirstFit(c, fits);
      DistinctSuffix(c, i);
      LookupLast(c[i..]);
    }
  }

  // ---- Runs without quota failures ----

  /** The snapshots that no later one for the same path supersedes, in order. */
  function Latest(saves: seq<Item>): seq<Item> {
    if saves == [] then []
    else (if Holds(saves[1..], saves[0].url) then [] else [saves[0]]) + Latest(saves[1..])
  }

  lemma {:induction false} LatestDistinct(saves: seq<Item>)
    ensures Distinct(Latest(saves))
  {
    if saves != [] {
      LatestDistinct(saves[1..]);
      LatestHolds(saves[1..], saves[0].url);
      var l := Latest(saves[1..]);
      assert ([saves[0]] + l)[1..] == l && [] + l == l;
    }
  }

  lemma {:induction false} LatestHolds(saves: seq<Item>, u: string)
    ensures Holds(Latest(saves), u) <==> Holds(saves, u)
  {
    if saves != [] {
      LatestHolds(saves[1..], u);
      var l := Latest(saves[1..]);
      assert ([saves[0]] + l)[1..] == l && [] + l == l;
    }
  }

  /** One more save supersedes the earlier snapshot of its path. */
  lemma {:induction false} LatestOneMore(saves: seq<Item>, x: Item)
    ensures Latest(saves + [x]) == Forget(Latest(saves), x.url) + [x]
  {
    if saves == [] {
      assert [] + [x] == [x] && [x][1..] == [];
    } else {
      var rest := saves[1..];
      assert (saves + [x])[1..] == rest + [x];
      LatestOneMore(rest, x);
      HoldsAppend(rest, [x], saves[0].url);
      assert [x][1..] == [];
      LatestHolds(rest, x.url);
      var l := Latest(rest);
      assert ([saves[0]] + l)[1..] == l && [] + l == l;
      if !Holds(rest, saves[0].url) {
        if saves[0].url == x.url {
          ForgetNothing(l, x.url);
        } else {
          assert [saves[0]] + (Forget(l, x.url) + [x]) == ([saves[0]] + Forget(l, x.url)) + [x];
        }
      }
    }
  }

  lemma {:induction false} ForgetInLast(d: seq<Item>, u: string, k: nat)
    requires Distinct(d) && k > 0
    ensures LastK(Forget(LastK(d, k), u), k - 1) == LastK(Forget(d, u), k - 1)
  {
    if |d| > k {
      var rest := d[1..];
      ForgetInLast(rest, u, k);
      assert LastK(d, k) == LastK(rest, k);
      if d[0].url == u {
        assert Forget(rest, u) == rest by { ForgetNothing(rest, u); }
      } else {
        DistinctForget(rest, u);
        LastKTail(d[0], Forget(rest, u), k - 1);
      }
    }
  }

  lemma LastKTail(x: Item, s: seq<Item>, k: nat)
    requires |s| >= k
    ensures LastK([x] + s, k) == LastK(s, k)
  {
  }

  function RunAll(saves: seq<Item>, size: nat): Option<seq<Item>> {
    if saves == [] then None
    else Saved(RunAll(saves[..|saves| - 1], size), saves[|saves| - 1], size, c => true)
  }

  /**
    While storage has room, the cache is exactly the latest snapshots of the `size` paths saved most
    recently, in the order of their last save.
   */
  lemma {:induction false} CacheIsLatest(saves: seq<Item>, size: nat)
    requires size > 0
    ensures Cache(RunAll(saves, size)) == LastK(Latest(saves), size)
  {
    if saves != [] {
      var before, x := saves[..|saves| - 1], saves[|saves| - 1];
      CacheIsLatest(before, size);
      LatestDistinct(before);
      var d := Latest(before);
      LatestOneMore(before, x);
      assert before + [x] == saves;
      SaveLatest(RunAll(before, size), d, x, size);
    }
  }

  lemma SaveLatest(stored: Option<seq<Item>>, d: seq<Item>, x: Item, size: nat)
    requires Distinct(d) && size > 0 && Cache(stored) == LastK(d, size)
    ensures Saved(stored, x, size, c => true) == Some(LastK(Forget(d, x.url) + [x], size))
  {
    ForgetInLast(d, x.url, size);
    LastKOneMore(Forget(LastK(d, size), x.url), x, size);
    LastKOneMore(Forget(d, x.url), x, size);
  }

  lemma LastKOneMore(s: seq<Item>, x: Item, k: nat)
    requires k > 0
    ensures LastK(s + [x], k) == LastK(s, k - 1) + [x]
  {
  }

  // ---- Any run ----

  /** One save of a run, with the configured size and the room there is at the time. */
  datatype Save = Save(item: Item, size: int, fits: Quota)

  function Run(saves: seq<Save>): Option<seq<Item>> {
    if saves == [] then None
    else var s := saves[|saves| - 1]; Saved(Run(saves[..|saves| - 1]), s.item, s.size, s.fits)
  }

  /** The snapshots that found room since the cache was last cleared. */
  function Stored(saves: seq<Save>): seq<Item> {
    if saves == [] then []
    else
      var before, s := saves[..|saves| - 1], saves[|saves| - 1];
      if s.size <= 0 then []
      else if CanStore(Run(before), s.item, s.size, s.fits) then Stored(before) + [s.item]
      else Stored(before)
  }

  predicate IsSuffix(a: seq<Item>, b: seq<Item>) {
    |a| <= |b| && a == b[|b| - |a|..]
  }

  lemma SuffixTrans(a: seq<Item>, b: seq<Item>, c: seq<Item>)
    requires IsSuffix(a, b) && IsSuffix(b, c)
    ensures IsSuffix(a, c)
  {
  }

  lemma SuffixPush(a: seq<Item>, b: seq<Item>, x: Item)
    requires IsSuffix(a, b)
    ensures IsSuffix(a + [x], b + [x])
  {
  }

  lemma {:induction false} SuffixForget(a: seq<Item>, b: seq<Item>, u: string)
    requires IsSuffix(a, b) && Distinct(b)
    ensures IsSuffix(Forget(a, u), Forget(b, u))
  {
    if |a| < |b| {
      SuffixForget(a, b[1..], u);
      if b[0].url == u {
        ForgetNothing(b[1..], u);
      }
    } else {
      assert a == b;
    }
  }

  /** The intended list, and every shorter one that is tried, ends like the list of latest snapshots. */
  lemma IntendedIsSuffix(stored: Option<seq<Item>>, all: seq<Item>, item: Item, size: nat, i: nat)
    requires IsSuffix(Cache(stored), Latest(all)) && i <= |Intended(stored, item, size)|
    ensures IsSuffix(Intended(stored, item, size)[i..], Latest(all + [item]))
  {
    LatestDistinct(all);
    LatestOneMore(all, item);
    SuffixForget(Cache(stored), Latest(all), item.url);
    SuffixPush(Forget(Cache(stored), item.url), Forget(Latest(all), item.url), item);
    var c, whole := Intended(stored, item, size), Forget(Cache(stored), item.url) + [item];
    assert IsSuffix(c, whole);
    SuffixTrans(c[i..], c, whole);
    SuffixTrans(c[i..], whole, Latest(all + [item]));
  }

  lemma SaveKeepsLatest(stored: Option<seq<Item>>, all: seq<Item>, s: Save)
    requires IsSuffix(Cache(stored), Latest(all)) && s.size > 0
    ensures var c := Cache(Saved(stored, s.item, s.size, s.fits));
            if CanStore(stored, s.item, s.size, s.fits) then
              c != [] && |c| <= s.size && IsSuffix(c, Latest(all + [s.item]))
            else c == Cache(stored)
  {
    var c := Intended(stored, s.item, s.size);
    StoreIsSuffix(stored, c, s.fits);
    if CanStore(stored, s.item, s.size, s.fits) {
      IntendedIsSuffix(stored, all, s.item, s.size, FirstFit(c, s.fits));
    }
  }

  /**
    Over every run, with any sizes and any failures: the cache is the end of the list of latest snapshots,
    in the order of their last save, among those that found room since it was last cleared.  It is empty
    only if there are none, and no longer than the largest size used.
   */
  lemma {:induction false} RunKeeps(saves: seq<Save>, limit: nat)
    requires forall i :: 0 <= i < |saves| ==> saves[i].size <= limit
    ensures var c := Cache(Run(saves));
            && Distinct(c) && |c| <= limit && IsSuffix(c, Latest(Stored(saves)))
            && (Stored(saves) != [] ==> c != [])
  {
    if saves != [] {
      var before, s := saves[..|saves| - 1], saves[|saves| - 1];
      RunKeeps(before, limit);
      SaveStep(Run(before), Stored(before), s, limit);
    }
    SuffixDistinct(Cache(Run(saves)), Stored(saves));
  }

  lemma SaveStep(stored: Option<seq<Item>>, all: seq<Item>, s: Save, limit: nat)
    requires IsSuffix(Cache(stored), Latest(all)) && |Cache(stored)| <= limit && s.size <= limit
    requires all != [] ==> Cache(stored) != []
    ensures var c := Cache(Saved(stored, s.item, s.size, s.fits));
            var now := if s.size <= 0 then []
                       else if CanStore(stored, s.item, s.size, s.fits) then all + [s.item] else all;
            IsSuffix(c, Latest(now)) && |c| <= limit && (now != [] ==> c != [])
  {
    if s.size > 0 {
      SaveKeepsLatest(stored, all, s);
    }
  }

  lemma SuffixDistinct(c: seq<Item>, all: seq<Item>)
    requires IsSuffix(c, Latest(all))
    ensures Distinct(c)
  {
    LatestDistinct(all);
    DistinctSuffix(Latest(all), |Latest(all)| - |c|);
  }

  // ---- What is found ----

  /** A lookup finds the first item for the path, and nothing exactly when there is none. */
  lemma {:induction false} LookupExactly(cache: seq<Item>, url: string) returns (i: nat)
    ensures i <= |cache| && forall j :: 0 <= j < i ==> cache[j].url != url
    ensures i < |cache| ==> cache[i].url == url
    ensures Lookup(cache, url) == if i < |cache| then Some(cache[i]) else None
  {
    if cache == [] || cache[0].url == url {
      i := 0;
    } else {
      i := LookupExactly(cache[1..], url);
      i := i + 1;
      assert forall j :: 0 < j < i ==> cache[j] == cache[1..][j - 1];
    }
  }

  lemma {:induction false} LatestIsLast(saves: seq<Item>, k: nat) returns (i: nat)
    requires k < |Latest(saves)|
    ensures i < |saves| && saves[i] == Latest(saves)[k]
    ensures forall j :: i < j < |saves| ==> saves[j].url != saves[i].url
  {
    var head := if Holds(saves[1..], saves[0].url) then [] else [saves[0]];
    if k < |head| {
      i := 0;
      HoldsMeans(saves[1..], saves[0].url);
      assert forall j :: 0 < j < |saves| ==> saves[j] == saves[1..][j - 1];
    } else {
      i := LatestIsLast(saves[1..], k - |head|);
      i := i + 1;
      assert forall j :: 0 < j < |saves| ==> saves[j] == saves[1..][j - 1];
    }
  }

  /** Over every run: a lookup finds the last snapshot of the path among those that found room, or nothing. */
  lemma FoundIsLatest(saves: seq<Save>, limit: nat, url: string) returns (i: nat)
    requires forall i :: 0 <= i < |saves| ==> saves[i].size <= limit
    requires Lookup(Cache(Run(saves)), url).Some?
    ensures var all := Stored(saves);
            && i < |all| && all[i].url == url && Lookup(Cache(Run(saves)), url) == Some(all[i])
            && forall j :: i < j < |all| ==> all[j].url != url
  {
    var cache, latest := Cache(Run(saves)), Latest(Stored(saves));
    RunKeeps(saves, limit);
    var k := LookupExactly(cache, url);
    assert cache[k] == latest[|latest| - |cache| + k];
    i := LatestIsLast(Stored(saves), |latest| - |cache| + k);
  }
}
