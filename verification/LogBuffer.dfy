/**
  The bounded log buffer of the orchestrator handler
  (internal/infrastructure/http/handlers/orchestrator_handler.go): two parallel slices, trimmed from the
  front, and a listing that may scan backwards.  Locks, HTTP and JSON are not part of the model.
 */
module LogBuffers {
  import opened Wrappers
  import opened GoText

  const CAPACITY: nat := 1000

  type Raw = string

  /** A time stamp; 0 is Go's zero time, which a message without a stamp gets. */
  type Time = int

  datatype Error = InvalidPayload | InvalidSince | InvalidLimit
  datatype Result<+T> = Ok(value: T) | Err(error: Error)

  // ---- Sequences ----

  function LastN<T>(s: seq<T>, n: nat): seq<T> {
    if |s| <= n then s else s[|s| - n..]
  }

  function Reversed<T>(s: seq<T>): (r: seq<T>)
    ensures |r| == |s|
  {
    if s == [] then [] else Reversed(s[1..]) + [s[0]]
  }

  lemma {:induction false} ReversedAt<T>(s: seq<T>, k: nat)
    requires k < |s|
    ensures Reversed(s)[k] == s[|s| - 1 - k]
  {
    if k < |s| - 1 {
      ReversedAt(s[1..], k);
    }
  }

  lemma ReversedTwice<T>(s: seq<T>)
    ensures Reversed(Reversed(s)) == s
  {
    forall k | 0 <= k < |s| ensures Reversed(Reversed(s))[k] == s[k] {
      ReversedAt(Reversed(s), k);
      ReversedAt(s, |s| - 1 - k);
    }
  }

  lemma ReversedPush<T>(x: T, s: seq<T>)
    ensures Reversed([x] + s) == Reversed(s) + [x]
  {
    assert ([x] + s)[1..] == s;
  }

  lemma LastOfBoth<T>(a: seq<T>, b: seq<T>, n: nat)
    requires |b| >= n || a == []
    ensures LastN(a + b, n) == LastN(b, n)
  {
    if a == [] {
      assert a + b == b;
    } else {
      assert (a + b)[|a| + |b| - n..] == b[|b| - n..];
    }
  }

  // ---- Ingesting ----

  /** What one ingested message makes of the buffer. */
  function Ingested(logs: seq<Raw>, raw: Raw): seq<Raw> {
    LastN(logs + [raw], CAPACITY)
  }

  function TimesOf(timeOf: Raw -> Time, logs: seq<Raw>): (r: seq<Time>)
    ensures |r| == |logs|
    ensures forall i :: 0 <= i < |r| ==> r[i] == timeOf(logs[i])
  {
    seq(|logs|, i requires 0 <= i < |logs| => timeOf(logs[i]))
  }

  function IngestAll(all: seq<Raw>): (r: seq<Raw>)
    ensures |r| <= |all|
  {
    if all == [] then [] else Ingested(IngestAll(all[..|all| - 1]), all[|all| - 1])
  }

  /** After any number of messages the buffer holds the last thousand, in order. */
  lemma {:induction false} BufferIsSuffix(all: seq<Raw>)
    ensures IngestAll(all) == LastN(all, CAPACITY)
  {
    if all != [] {
      BufferIsSuffix(all[..|all| - 1]);
    }
  }

  // ---- Listing ----

  /** A message is left out only if it has a time stamp, and that is before `since`. */
  predicate Keeps(timeOf: Raw -> Time, since: Option<Time>, raw: Raw) {
    since.None? || timeOf(raw) == 0 || timeOf(raw) >= since.value
  }

  function Kept(timeOf: Raw -> Time, since: Option<Time>, logs: seq<Raw>): seq<Raw> {
    if logs == [] then []
    else (if Keeps(timeOf, since, logs[0]) then [logs[0]] else []) + Kept(timeOf, since, logs[1..])
  }

  lemma {:induction false} KeptAppend(timeOf: Raw -> Time, since: Option<Time>, a: seq<Raw>, b: seq<Raw>)
    ensures Kept(timeOf, since, a + b) == Kept(timeOf, since, a) + Kept(timeOf, since, b)
  {
    if a == [] {
      assert a + b == b;
    } else {
      KeptAppend(timeOf, since, a[1..], b);
      var head := if Keeps(timeOf, since, a[0]) then [a[0]] else [];
      assert (a + b)[0] == a[0] && (a + b)[1..] == a[1..] + b;
      assert head + (Kept(timeOf, since, a[1..]) + Kept(timeOf, since, b))
             == head + Kept(timeOf, since, a[1..]) + Kept(timeOf, since, b);
    }
  }

  lemma KeptFrom(timeOf: Raw -> Time, since: Option<Time>, logs: seq<Raw>, i: nat)
    requires i < |logs|
    ensures Kept(timeOf, since, logs[i..]) ==
              (if Keeps(timeOf, since, logs[i]) then [logs[i]] else []) + Kept(timeOf, since, logs[i + 1..])
  {
    assert logs[i..][1..] == logs[i + 1..];
  }

  /** Nothing is made up, and only what is too old is lost. */
  lemma {:induction false} KeptMembers(timeOf: Raw -> Time, since: Option<Time>, logs: seq<Raw>, raw: Raw)
    ensures multiset(Kept(timeOf, since, logs))[raw] ==
              if since.Some? && timeOf(raw) != 0 && timeOf(raw) < since.value then 0 else multiset(logs)[raw]
  {
    if logs != [] {
      assert logs == [logs[0]] + logs[1..];
      KeptMembers(timeOf, since, logs[1..], raw);
    }
  }

  lemma {:induction false} KeptAll(timeOf: Raw -> Time, logs: seq<Raw>)
    ensures Kept(timeOf, None, logs) == logs
  {
    if logs != [] {
      KeptAll(timeOf, logs[1..]);
    }
  }

  function Limited(limit: nat, logs: seq<Raw>): seq<Raw> {
    if limit == 0 then logs else LastN(logs, limit)
  }

  datatype Query = Query(since: Option<Time>, limit: nat)

  /** The query parameters; no limit is 0, and a limit is at most a thousand. */
  function ParseQuery(parseTime: string -> Option<Time>, atoi: string -> Option<int>, rawSince: string,
                      rawLimit: string): Result<Query> {
    var rawSince, rawLimit := TrimSpace(rawSince), TrimSpace(rawLimit);
    if rawSince != "" && parseTime(rawSince).None? then Err(InvalidSince)
    else
      var since := if rawSince == "" then None else parseTime(rawSince);
      if rawLimit == "" then Ok(Query(since, 0))
      else if atoi(rawLimit).None? || atoi(rawLimit).value <= 0 then Err(InvalidLimit)
      else Ok(Query(since, if atoi(rawLimit).value > 1000 then 1000 else atoi(rawLimit).value))
  }

  /**
    Which parameters are taken: a time that can be read or none, and a positive number or none; a larger
    number than a thousand counts as a thousand.
   */
  lemma QueryExactly(parseTime: string -> Option<Time>, atoi: string -> Option<int>, rawSince: string,
                     rawLimit: string)
    ensures var r, s, n := ParseQuery(parseTime, atoi, rawSince, rawLimit), TrimSpace(rawSince), TrimSpace(rawLimit);
            && (r == Err(InvalidSince) <==> s != "" && parseTime(s) == None)
            && (r == Err(InvalidLimit) <==>
                  && (s != "" ==> parseTime(s) != None)
                  && n != "" && (atoi(n) == None || atoi(n).value < 1))
            && (r.Ok? <==> r != Err(InvalidSince) && r != Err(InvalidLimit))
            && (r.Ok? ==>
                  && r.value.since == (if s == "" then None else parseTime(s))
                  && r.value.limit == if n == "" then 0 else if atoi(n).value <= 1000 then atoi(n).value else 1000)
  {
  }

  /** The listing of a buffer: the last `limit` of the messages that are kept. */
  function Listing(timeOf: Raw -> Time, logs: seq<Raw>, q: Query): seq<Raw> {
    Limited(q.limit, Kept(timeOf, q.since, logs))
  }

  /** Swaps from both ends until the indexes meet; what follows the first `n` stays. */
  method ReverseRawMessages(values: array<Raw>, n: nat)
    requires n <= values.Length
    modifies values
    ensures values[..n] == Reversed(old(values[..n])) && values[n..] == old(values[n..])
  {
    var i, j := 0, n - 1;
    while i < j
      invariant 0 <= i <= n && j == n - 1 - i && i <= j + 1
      invariant forall k :: 0 <= k < i ==> values[k] == old(values[n - 1 - k]) && values[n - 1 - k] == old(values[k])
      invariant forall k :: i <= k <= j ==> values[k] == old(values[k])
      invariant forall k :: n <= k < values.Length ==> values[k] == old(values[k])
    {
      values[i], values[j] := values[j], values[i];
      i, j := i + 1, j - 1;
    }
    ReversedIs(old(values[..n]), values[..n]);
  }

  lemma ReversedIs(was: seq<Raw>, now: seq<Raw>)
    requires |now| == |was| && forall k :: 0 <= k < |was| ==> now[k] == was[|was| - 1 - k]
    ensures now == Reversed(was)
  {
    forall k | 0 <= k < |was| ensures now[k] == Reversed(was)[k] {
      ReversedAt(was, k);
    }
  }

  class LogBuffer {
    const timeOf: Raw -> Time
    const parseTime: string -> Option<Time>
    const atoi: string -> Option<int>
    var logs: seq<Raw>
    var logTimes: seq<Time>

    /** The slices are parallel: each message beside its own time stamp, and never too many. */
    ghost predicate Valid()
      reads this
    {
      logTimes == TimesOf(timeOf, logs) && |logs| <= CAPACITY
    }

    constructor (timeOf: Raw -> Time, parseTime: string -> Option<Time>, atoi: string -> Option<int>)
      ensures Valid() && logs == []
      ensures this.timeOf == timeOf && this.parseTime == parseTime && this.atoi == atoi
    {
      this.timeOf, this.parseTime, this.atoi, logs, logTimes := timeOf, parseTime, atoi, [], [];
    }

    method IngestLog(body: Option<Raw>) returns (r: Result<bool>)
      requires Valid()
      modifies this
      ensures Valid()
      ensures r == if body.None? then Err(InvalidPayload) else Ok(true)
      ensures logs == if body.None? then old(logs) else Ingested(old(logs), body.value)
    {
      if body.None? {
        return Err(InvalidPayload);
      }
      logs := logs + [body.value];
      logTimes := logTimes + [timeOf(body.value)];
      if |logs| > 1000 {
        logs := logs[|logs| - 1000..];
        logTimes := logTimes[|logTimes| - 1000..];
      }
      return Ok(true);
    }

    method ListLogs(rawSince: string, rawLimit: string) returns (r: Result<seq<Raw>>)
      requires Valid()
      ensures match ParseQuery(parseTime, atoi, rawSince, rawLimit)
              case Err(e) => r == Err(e)
              case Ok(q) => r == Ok(Listing(timeOf, logs, q))
    {
      var sinceText, limitText := TrimSpace(rawSince), TrimSpace(rawLimit);
      var since := None;
      if sinceText != "" {
        since := parseTime(sinceText);
        if since.None? {
          return Err(InvalidSince);
        }
      }
      var limit: nat := 0;
      if limitText != "" {
        var parsed := atoi(limitText);
        if parsed.None? || parsed.value <= 0 {
          return Err(InvalidLimit);
        }
        limit := if parsed.value > 1000 then 1000 else parsed.value;
      }
      if since.None? {
        var start := if limit > 0 && |logs| > limit then |logs| - limit else 0;
        KeptAll(timeOf, logs);
        return Ok(logs[start..]);
      }
      var found: seq<Raw>;
      if limit > 0 {
        found := ScanBackward(since.value, limit);
      } else {
        found := ScanForward(since.value);
      }
      return Ok(found);
    }

    /** From the newest message backwards, until there are enough; then in place the other way round. */
    method ScanBackward(since: Time, limit: nat) returns (r: seq<Raw>)
      requires Valid() && limit > 0
      ensures r == LastN(Kept(timeOf, Some(since), logs), limit)
    {
      var found, n := new Raw[limit], 0;
      var i := |logs| - 1;
      ghost var newer := [];
      while i >= 0 && n < limit
        invariant -1 <= i < |logs| && newer == Kept(timeOf, Some(since), logs[i + 1..])
        invariant n == |newer| <= limit && found[..n] == Reversed(newer)
      {
        KeptFrom(timeOf, Some(since), logs, i);
        if logTimes[i] != 0 && logTimes[i] < since {
          i := i - 1;
          continue;
        }
        found[n] := logs[i];
        ReversedPush(logs[i], newer);
        newer := [logs[i]] + newer;
        n, i := n + 1, i - 1;
      }
      KeptAppend(timeOf, Some(since), logs[..i + 1], logs[i + 1..]);
      assert logs == logs[..i + 1] + logs[i + 1..];
      LastOfBoth(Kept(timeOf, Some(since), logs[..i + 1]), newer, limit);
      ReverseRawMessages(found, n);
      ReversedTwice(newer);
      return found[..n];
    }

    method ScanForward(since: Time) returns (r: seq<Raw>)
      requires Valid()
      ensures r == Kept(timeOf, Some(since), logs)
    {
      r := [];
      for i := 0 to |logs|
        invariant r == Kept(timeOf, Some(since), logs[..i])
      {
        KeptAppend(timeOf, Some(since), logs[..i], [logs[i]]);
        assert logs[..i + 1] == logs[..i] + [logs[i]];
        if logTimes[i] != 0 && logTimes[i] < since {
          continue;
        }
        r := r + [logs[i]];
      }
      assert logs[..|logs|] == logs;
    }
  }

  /**
    After any run of ingests a listing is that of the whole history exactly when trimming lost no kept
    message, or there are still as many as are asked for.
   */
  lemma ListingIsCompleteExactly(timeOf: Raw -> Time, all: seq<Raw>, q: Query)
    ensures Listing(timeOf, IngestAll(all), q) == Listing(timeOf, all, q) <==>
              || Kept(timeOf, q.since, all[..|all| - |IngestAll(all)|]) == []
              || (q.limit > 0 && |Kept(timeOf, q.since, IngestAll(all))| >= q.limit)
  {
    BufferIsSuffix(all);
    var held := IngestAll(all);
    var lost := all[..|all| - |held|];
    assert all == lost + held;
    KeptAppend(timeOf, q.since, lost, held);
    var a, b := Kept(timeOf, q.since, lost), Kept(timeOf, q.since, held);
    if a == [] {
      assert a + b == b;
    } else if q.limit > 0 && |b| >= q.limit {
      LastOfBoth(a, b, q.limit);
    } else {
      assert |Listing(timeOf, all, q)| > |b|;
    }
  }

  /** After any run of ingests: of the last thousand messages those that are kept, and of these the last. */
  lemma ListedExactly(timeOf: Raw -> Time, all: seq<Raw>, q: Query)
    ensures var held := if |all| > 1000 then all[|all| - 1000..] else all;
            var kept := Kept(timeOf, q.since, held);
            Listing(timeOf, IngestAll(all), q) ==
              if q.limit == 0 || |kept| < q.limit then kept else kept[|kept| - q.limit..]
  {
    BufferIsSuffix(all);
  }

  /** More than a thousand messages, listed without a limit, are not all there. */
  lemma LongHistoryIsCut(timeOf: Raw -> Time, all: seq<Raw>)
    requires |all| > CAPACITY
    ensures Listing(timeOf, IngestAll(all), Query(None, 0)) != Listing(timeOf, all, Query(None, 0))
  {
    BufferIsSuffix(all);
    KeptAll(timeOf, all);
    KeptAll(timeOf, IngestAll(all));
  }
}
