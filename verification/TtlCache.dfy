/** The HTTP cache whose entries expire because a time bucket is part of their key. */
module TtlCache {
  import opened Arithmetic
  import opened Wrappers

  datatype Request = Request(url: string, ssl: bool, timeout: int, httpAsync: bool)

  datatype Key = Key(bucket: int, request: Request)

  // A response and the call that fetched it.
  datatype Response = Response(fetcher: nat, status: int)

  datatype Error = InvalidParameter | FetchFailed

  const NANOSECONDS := 1_000_000_000

  function Bucket(ttl: int, clock: int): int {
    if ttl != 0 then FloorDiv(clock, ttl) else clock
  }

  // The length of a bucket in seconds.
  function Life(ttl: int): nat {
    if ttl == 0 then 1 else if ttl > 0 then ttl else -ttl
  }

  function Distance(s: int, t: int): nat {
    if s < t then t - s else s - t
  }

  lemma SameBucketIsRecent(ttl: int, s: int, t: int)
    requires Bucket(ttl, s) == Bucket(ttl, t)
    ensures Distance(s, t) < Life(ttl)
  {
    if ttl > 0 {
      BucketBounds(s, ttl);
      BucketBounds(t, ttl);
    } else if ttl < 0 {
      BucketBounds(-s, -ttl);
      BucketBounds(-t, -ttl);
    }
  }

  lemma BucketBounds(a: int, b: int)
    requires b > 0
    ensures a / b * b <= a < a / b * b + b
  {
  }

  /* One call after the other. */

  // The connection and session parameters, as far as they are given.
  datatype HttpcParams = HttpcParams(ssl: Option<bool>, timeout: Option<int>)

  class HttpCache {
    var entries: map<Key, Response>

    constructor ()
      ensures entries == map[]
    {
      entries := map[];
    }

    // The cached function. When the key is missing the response is fetched, unless that
    // fails, and stored, which may push out other entries.
    method LruCachedGetHttpUrl(key: Key, fetch: Option<Response>, evicted: set<Key>)
      returns (r: Result<Response, Error>)
      modifies this
      ensures key in old(entries) ==> r == Ok(old(entries)[key]) && entries == old(entries)
      ensures key !in old(entries) && fetch.None? ==> r == Err(FetchFailed) && entries == old(entries)
      ensures key !in old(entries) && fetch.Some? ==>
                r == Ok(fetch.value) && entries == (old(entries) - evicted)[key := fetch.value]
    {
      if key in entries {
        return Ok(entries[key]);
      }
      if fetch.None? {
        return Err(FetchFailed);
      }
      entries := (entries - evicted)[key := fetch.value];
      return Ok(fetch.value);
    }

    method CacheClear()
      modifies this
      ensures entries == map[]
    {
      entries := map[];
    }

    /**
     The call at the given time. The result is the response cached for the same request in the
     same bucket, or else the fetched one; and it is cached afterwards iff its status is 200.
     */
    method CacheableGetHttpUrl(cacheTtl: int, url: string, httpcParams: HttpcParams, httpAsync: bool,
                               timeNs: int, fetch: Option<Response>, evicted: set<Key>)
      returns (r: Result<Response, Error>)
      modifies this
      ensures httpcParams.ssl.None? || httpcParams.timeout.None? ==> r == Err(InvalidParameter) && entries == old(entries)
      ensures httpcParams.ssl.Some? && httpcParams.timeout.Some? ==>
                var key := Key(Bucket(cacheTtl, timeNs / NANOSECONDS),
                               Request(url, httpcParams.ssl.value, httpcParams.timeout.value, httpAsync));
                && r == Answer(old(entries), key, fetch)
                && entries == AfterCall(old(entries), key, fetch, evicted)
    {
      if httpcParams.ssl.None? || httpcParams.timeout.None? {
        return Err(InvalidParameter);
      }
      var currTimeS := timeNs / NANOSECONDS;
      var ttlTimestamp;
      if cacheTtl != 0 {
        ttlTimestamp := FloorDiv(currTimeS, cacheTtl);
      } else {
        ttlTimestamp := currTimeS;
      }
      var key := Key(ttlTimestamp, Request(url, httpcParams.ssl.value, httpcParams.timeout.value, httpAsync));
      r := LruCachedGetHttpUrl(key, fetch, evicted);
      if r.Ok? && r.value.status != 200 {
        CacheClear();
      }
    }
  }

  function Answer(entries: map<Key, Response>, key: Key, fetch: Option<Response>): Result<Response, Error> {
    if key in entries then Ok(entries[key])
    else if fetch.None? then Err(FetchFailed)
    else Ok(fetch.value)
  }

  function AfterCall(entries: map<Key, Response>, key: Key, fetch: Option<Response>, evicted: set<Key>)
    : map<Key, Response>
  {
    var r := Answer(entries, key, fetch);
    if r.Err? then entries
    else if r.value.status != 200 then map[]
    else if key in entries then entries
    else (entries - evicted)[key := r.value]
  }

  // The bucket number, by the seconds it stands for. A lifetime of zero makes a bucket of each second.
  lemma BucketExact(ttl: int, clock: int, k: int)
    ensures ttl > 0 ==> (Bucket(ttl, clock) == k <==> k * ttl <= clock < (k + 1) * ttl)
    ensures ttl == 0 ==> (Bucket(ttl, clock) == k <==> clock == k)
    ensures ttl < 0 ==> (Bucket(ttl, clock) == k <==> k * ttl >= clock > (k + 1) * ttl)
  {
    if ttl > 0 {
      FloorExact(clock, ttl, k);
    } else if ttl < 0 {
      FloorExact(-clock, -ttl, k);
      assert k * (-ttl) == -(k * ttl) && (k + 1) * (-ttl) == -((k + 1) * ttl);
    }
  }

  lemma FloorExact(a: int, d: int, k: int)
    requires d > 0
    ensures a / d == k <==> k * d <= a < (k + 1) * d
  {
    assert (k + 1) * d == k * d + d && a == a / d * d + a % d;
    if k * d <= a < k * d + d {
      SameQuotient(d, a / d, a % d, k, a - k * d);
    }
  }

  /**
   Two calls for one request, at times within one multiple of the lifetime: when the first ends with a
   response of status 200, the second returns that response, whatever it might have fetched. At times
   in different multiples it is fetched again, unless it was cached before.
   */
  lemma {:induction false} SameBucketShares(entries: map<Key, Response>, ttl: int, s: int, t: int, request: Request,
                                            fetch: Option<Response>, evicted: set<Key>, fetch': Option<Response>, k: int)
    requires ttl > 0 && k * ttl <= s < (k + 1) * ttl
    requires var r := Answer(entries, Key(Bucket(ttl, s), request), fetch); r.Ok? && r.value.status == 200
    ensures var first, second := Key(Bucket(ttl, s), request), Key(Bucket(ttl, t), request);
            var after := AfterCall(entries, first, fetch, evicted);
            && (k * ttl <= t < (k + 1) * ttl ==> Answer(after, second, fetch') == Answer(entries, first, fetch))
            && (!(k * ttl <= t < (k + 1) * ttl) && second !in entries ==>
                  Answer(after, second, fetch') == if fetch'.None? then Err(FetchFailed) else Ok(fetch'.value))
  {
    BucketExact(ttl, s, k);
    BucketExact(ttl, t, k);
  }

  /* Calls that overlap: between any two steps of a call, others may take theirs. */

  // A call with valid parameters, at the second its clock reads.
  datatype Call = Call(ttl: int, clock: int, request: Request)

  datatype Stage = Looking | Fetching | Checking(response: Response) | Returned(response: Response) | Failed

  datatype Progress = Progress(call: Call, stage: Stage)

  datatype State = State(entries: map<Key, Response>, calls: map<nat, Progress>)

  datatype Step = Start(id: nat, call: Call)
                | Look(id: nat)
                | Fetch(id: nat, status: int)
                | Fail(id: nat)
                | Check(id: nat)
                | Evict(keys: set<Key>)

  function KeyOf(call: Call): Key {
    Key(Bucket(call.ttl, call.clock), call.request)
  }

  predicate At(st: State, id: nat, stage: Stage) {
    id in st.calls && st.calls[id].stage == stage
  }

  function Advance(st: State, id: nat, stage: Stage): State
    requires id in st.calls
  {
    st.(calls := st.calls[id := st.calls[id].(stage := stage)])
  }

  // A step that does not apply leaves the state as it is.
  function Next(st: State, step: Step): State {
    match step
    case Start(id, call) =>
      if id in st.calls then st else st.(calls := st.calls[id := Progress(call, Looking)])
    case Look(id) =>
      if !At(st, id, Looking) then st
      else
        var key := KeyOf(st.calls[id].call);
        Advance(st, id, if key in st.entries then Checking(st.entries[key]) else Fetching)
    case Fetch(id, status) =>
      if !At(st, id, Fetching) then st
      else
        // A key that another call has stored in the meantime is left alone.
        var key, response := KeyOf(st.calls[id].call), Response(id, status);
        var entries := if key in st.entries then st.entries else st.entries[key := response];
        Advance(st, id, Checking(response)).(entries := entries)
    case Fail(id) =>
      if !At(st, id, Fetching) then st else Advance(st, id, Failed)
    case Check(id) =>
      if !(id in st.calls && st.calls[id].stage.Checking?) then st
      else
        var response := st.calls[id].stage.response;
        Advance(st, id, Returned(response)).(entries := if response.status != 200 then map[] else st.entries)
    case Evict(keys) =>
      st.(entries := st.entries - keys)
  }

  function Run(st: State, steps: seq<Step>): State {
    if steps == [] then st else Next(Run(st, steps[..|steps| - 1]), steps[|steps| - 1])
  }

  /* A call that nothing interrupts does what the method above does. */

  // The steps of a call whose key is, or is not, cached.
  function CallSteps(cached: bool, id: nat, call: Call, fetch: Option<int>, evicted: set<Key>): seq<Step> {
    if cached then [Start(id, call), Look(id), Check(id)]
    else if fetch.None? then [Start(id, call), Look(id), Fail(id)]
    else [Start(id, call), Look(id), Fetch(id, fetch.value), Evict(evicted - {KeyOf(call)}), Check(id)]
  }

  lemma RunSnoc(st: State, steps: seq<Step>, step: Step)
    ensures Run(st, steps + [step]) == Next(Run(st, steps), step)
  {
    assert (steps + [step])[..|steps|] == steps;
  }

  lemma RunThree(st: State, a: Step, b: Step, c: Step)
    ensures Run(st, [a, b, c]) == Next(Next(Next(st, a), b), c)
  {
    RunSnoc(st, [], a);
    RunSnoc(st, [a], b);
    RunSnoc(st, [a, b], c);
    assert [] + [a] == [a] && [a] + [b] == [a, b] && [a, b] + [c] == [a, b, c];
  }

  lemma RunFive(st: State, a: Step, b: Step, c: Step, d: Step, e: Step)
    ensures Run(st, [a, b, c, d, e]) == Next(Next(Next(Next(Next(st, a), b), c), d), e)
  {
    RunThree(st, a, b, c);
    RunSnoc(st, [a, b, c], d);
    RunSnoc(st, [a, b, c, d], e);
    assert [a, b, c] + [d] == [a, b, c, d] && [a, b, c, d] + [e] == [a, b, c, d, e];
  }

  lemma UninterruptedCall(st: State, id: nat, call: Call, fetch: Option<int>, evicted: set<Key>)
    requires id !in st.calls
    ensures var response := if fetch.None? then None else Some(Response(id, fetch.value));
            var answer := Answer(st.entries, KeyOf(call), response);
            var st' := Run(st, CallSteps(KeyOf(call) in st.entries, id, call, fetch, evicted));
            && st'.entries == AfterCall(st.entries, KeyOf(call), response, evicted)
            && At(st', id, if answer.Ok? then Returned(answer.value) else Failed)
  {
    var key := KeyOf(call);
    if key in st.entries {
      RunThree(st, Start(id, call), Look(id), Check(id));
    } else if fetch.None? {
      RunThree(st, Start(id, call), Look(id), Fail(id));
    } else {
      FetchingCall(st, id, call, fetch.value, evicted);
    }
  }

  lemma FetchingCall(st: State, id: nat, call: Call, status: int, evicted: set<Key>)
    requires id !in st.calls && KeyOf(call) !in st.entries
    ensures var response := Response(id, status);
            var st' := Run(st, CallSteps(false, id, call, Some(status), evicted));
            && st'.entries == AfterCall(st.entries, KeyOf(call), Some(response), evicted)
            && At(st', id, Returned(response))
  {
    var key, response := KeyOf(call), Response(id, status);
    RunFive(st, Start(id, call), Look(id), Fetch(id, status), Evict(evicted - {key}), Check(id));
    assert st.entries[key := response] - (evicted - {key}) == (st.entries - evicted)[key := response];
  }

  const EMPTY := State(map[], map[])

  predicate HasResponse(p: Progress) {
    p.stage.Checking? || p.stage.Returned?
  }

  // The response was fetched by a call for the same request in the same bucket.
  predicate FetchedFor(st: State, r: Response, key: Key) {
    && r.fetcher in st.calls
    && KeyOf(st.calls[r.fetcher].call) == key
    && HasResponse(st.calls[r.fetcher])
    && st.calls[r.fetcher].stage.response == r
  }

  ghost predicate CallsServed(st: State) {
    forall id :: id in st.calls && HasResponse(st.calls[id]) ==>
      FetchedFor(st, st.calls[id].stage.response, KeyOf(st.calls[id].call))
  }

  ghost predicate EntriesServed(st: State) {
    forall key :: key in st.entries ==> FetchedFor(st, st.entries[key], key)
  }

  // Any cached failure is about to be cleared by the call that fetched it.
  ghost predicate FailuresPending(st: State) {
    forall key :: key in st.entries && st.entries[key].status != 200 ==>
      At(st, st.entries[key].fetcher, Checking(st.entries[key]))
  }

  ghost predicate Inv(st: State) {
    CallsServed(st) && EntriesServed(st) && FailuresPending(st)
  }

  // Calls are never forgotten, and a call that has its response keeps it.
  predicate Kept(st: State, st': State, id: nat) {
    && (id in st.calls ==> id in st'.calls && st'.calls[id].call == st.calls[id].call)
    && (id in st.calls && HasResponse(st.calls[id]) ==>
          HasResponse(st'.calls[id]) && st'.calls[id].stage.response == st.calls[id].stage.response)
  }

  lemma StepKeeps(st: State, step: Step, id: nat)
    ensures Kept(st, Next(st, step), id)
  {
  }

  lemma FetchedForKept(st: State, step: Step, r: Response, key: Key)
    requires FetchedFor(st, r, key)
    ensures FetchedFor(Next(st, step), r, key)
  {
    StepKeeps(st, step, r.fetcher);
  }

  lemma StepServesCalls(st: State, step: Step)
    requires Inv(st)
    ensures CallsServed(Next(st, step))
  {
    var st' := Next(st, step);
    forall id | id in st'.calls && HasResponse(st'.calls[id])
      ensures FetchedFor(st', st'.calls[id].stage.response, KeyOf(st'.calls[id].call))
    {
      if id in st.calls && HasResponse(st.calls[id]) {
        StepKeeps(st, step, id);
        FetchedForKept(st, step, st.calls[id].stage.response, KeyOf(st.calls[id].call));
      } else if step.Look? {
        FetchedForKept(st, step, st'.calls[id].stage.response, KeyOf(st.calls[id].call));
      }
    }
  }

  lemma StepServesEntries(st: State, step: Step)
    requires Inv(st)
    ensures EntriesServed(Next(st, step))
  {
    var st' := Next(st, step);
    forall key | key in st'.entries ensures FetchedFor(st', st'.entries[key], key) {
      if key in st.entries && st'.entries[key] == st.entries[key] {
        FetchedForKept(st, step, st.entries[key], key);
      }
    }
  }

  lemma StepKeepsFailuresPending(st: State, step: Step)
    requires Inv(st)
    ensures FailuresPending(Next(st, step))
  {
    var st' := Next(st, step);
    forall key | key in st'.entries && st'.entries[key].status != 200
      ensures At(st', st'.entries[key].fetcher, Checking(st'.entries[key]))
    {
      if key in st.entries && st'.entries[key] == st.entries[key] {
        assert At(st, st.entries[key].fetcher, Checking(st.entries[key]));
      }
    }
  }

  lemma {:induction false} RunKeepsInv(steps: seq<Step>)
    ensures Inv(Run(EMPTY, steps))
    decreases |steps|
  {
    if steps == [] {
    } else {
      var front, last := steps[..|steps| - 1], steps[|steps| - 1];
      RunKeepsInv(front);
      StepServesCalls(Run(EMPTY, front), last);
      StepServesEntries(Run(EMPTY, front), last);
      StepKeepsFailuresPending(Run(EMPTY, front), last);
    }
  }

  // A call checks a response whose status is not 200.
  predicate ChecksFailure(st: State, step: Step) {
    && step.Check?
    && step.id in st.calls
    && st.calls[step.id].stage.Checking?
    && st.calls[step.id].stage.response.status != 200
  }

  /**
   What one step does to the cache: a cached response is never replaced. It goes away only by eviction,
   or with all the others when a call has checked a response whose status is not 200; and only the
   call that fetched it stores it.
   */
  lemma {:induction false} CacheStep(st: State, step: Step, key: Key)
    ensures var after := Next(st, step).entries;
            && (key in st.entries && key in after ==> after[key] == st.entries[key])
            && (key in st.entries && key !in after ==>
                  || (step.Evict? && key in step.keys)
                  || ChecksFailure(st, step))
            && (ChecksFailure(st, step) ==> after == map[])
            && (key !in st.entries && key in after ==>
                  step.Fetch? && At(st, step.id, Fetching) && key == KeyOf(st.calls[step.id].call)
                  && after[key] == Response(step.id, step.status))
            && (step.Fetch? && At(st, step.id, Fetching) ==> KeyOf(st.calls[step.id].call) in after)
  {
  }

  predicate InFlight(p: Progress) {
    p.stage.Looking? || p.stage.Fetching? || p.stage.Checking?
  }

  /**
   In every run, however calls and evictions interleave and whatever the clocks read: a call
   returns a response that was fetched for its own request under its own bucket number; a
   failed response is cached only until the call that fetched it has checked it; and so nothing
   but successes is cached when no call is in flight.
   */
  lemma CacheSafety(steps: seq<Step>, id: nat)
    requires id in Run(EMPTY, steps).calls && Run(EMPTY, steps).calls[id].stage.Returned?
    ensures var st := Run(EMPTY, steps);
            var r := st.calls[id].stage.response;
            && r.fetcher in st.calls
            && st.calls[r.fetcher].call.request == st.calls[id].call.request
            && Bucket(st.calls[r.fetcher].call.ttl, st.calls[r.fetcher].call.clock)
               == Bucket(st.calls[id].call.ttl, st.calls[id].call.clock)
  {
    RunKeepsInv(steps);
    assert CallsServed(Run(EMPTY, steps));
  }

  lemma {:induction false} OnlySuccessesStay(steps: seq<Step>)
    ensures var st := Run(EMPTY, steps);
            forall key :: key in st.entries && st.entries[key].status != 200 ==>
              At(st, st.entries[key].fetcher, Checking(st.entries[key]))
    ensures var st := Run(EMPTY, steps);
            (forall id :: id in st.calls ==> !InFlight(st.calls[id])) ==>
              forall key :: key in st.entries ==> st.entries[key].status == 200
  {
    RunKeepsInv(steps);
  }

  /* How old a response can be. */

  ghost predicate UsesOnly(steps: seq<Step>, ttls: set<int>) {
    forall i :: 0 <= i < |steps| && steps[i].Start? ==> steps[i].call.ttl in ttls
  }

  // Every returned response was fetched less than the lifetime away from the call.
  ghost predicate Fresh(st: State) {
    forall id :: id in st.calls && st.calls[id].stage.Returned? ==>
      var fetcher := st.calls[id].stage.response.fetcher;
      && fetcher in st.calls
      && Distance(st.calls[fetcher].call.clock, st.calls[id].call.clock) < Life(st.calls[id].call.ttl)
  }

  ghost predicate AlwaysFresh(ttls: set<int>) {
    forall steps :: UsesOnly(steps, ttls) ==> Fresh(Run(EMPTY, steps))
  }

  ghost predicate CallsUse(st: State, ttls: set<int>) {
    forall id :: id in st.calls ==> st.calls[id].call.ttl in ttls
  }

  lemma {:induction false} RunUses(steps: seq<Step>, ttls: set<int>)
    requires UsesOnly(steps, ttls)
    ensures CallsUse(Run(EMPTY, steps), ttls)
    decreases |steps|
  {
    if steps == [] {
    } else {
      var front, last := steps[..|steps| - 1], steps[|steps| - 1];
      RunUses(front, ttls);
      NextUses(Run(EMPTY, front), last, ttls);
    }
  }

  lemma NextUses(st: State, step: Step, ttls: set<int>)
    requires CallsUse(st, ttls) && (step.Start? ==> step.call.ttl in ttls)
    ensures CallsUse(Next(st, step), ttls)
  {
  }

  // The lifetime is the same throughout, with zero counting as one second.
  predicate OneLifetime(ttls: set<int>) {
    forall a, b :: a in ttls && b in ttls ==> Life(a) == Life(b)
  }

  lemma SameLifeIsRecent(a: int, s: int, b: int, t: int)
    requires a >= 0 && b >= 0 && Life(a) == Life(b) && Bucket(a, s) == Bucket(b, t)
    ensures Distance(s, t) < Life(b)
  {
    assert Bucket(a, s) == Bucket(Life(a), s);
    assert Bucket(b, t) == Bucket(Life(a), t);
    SameBucketIsRecent(Life(a), s, t);
  }

  lemma OneLifetimeIsFresh(ttls: set<int>, steps: seq<Step>)
    requires (forall a :: a in ttls ==> a >= 0) && OneLifetime(ttls) && UsesOnly(steps, ttls)
    ensures Fresh(Run(EMPTY, steps))
  {
    var st := Run(EMPTY, steps);
    RunKeepsInv(steps);
    RunUses(steps, ttls);
    forall id | id in st.calls && st.calls[id].stage.Returned?
      ensures var fetcher := st.calls[id].stage.response.fetcher;
              && fetcher in st.calls
              && Distance(st.calls[fetcher].call.clock, st.calls[id].call.clock) < Life(st.calls[id].call.ttl)
    {
      var r := st.calls[id].stage.response;
      assert FetchedFor(st, r, KeyOf(st.calls[id].call));
      var f, c := st.calls[r.fetcher].call, st.calls[id].call;
      SameLifeIsRecent(f.ttl, f.clock, c.ttl, c.clock);
    }
  }

  // Two calls, one after the other, whose lifetimes differ and whose bucket numbers agree.
  function StaleRun(a: int, b: int): seq<Step> {
    var request := Request("", true, 0, true);
    var n := Life(b);
    [ Start(0, Call(a, n * Life(a), request)), Look(0), Fetch(0, 200), Check(0),
      Start(1, Call(b, n * n, request)), Look(1), Check(1) ]
  }

  lemma BucketOfMultiple(ttl: int, n: nat)
    requires ttl >= 0
    ensures Bucket(ttl, n * Life(ttl)) == n
  {
    if ttl > 0 {
      DivisionIsUnique(n * ttl, ttl, n, 0);
    }
  }

  lemma StaleRunReturns(a: int, b: int)
    requires a >= 0 && b >= 0
    ensures var st := Run(EMPTY, StaleRun(a, b));
            && 0 in st.calls && 1 in st.calls
            && st.calls[0].call.clock == Life(b) * Life(a)
            && st.calls[1].call.clock == Life(b) * Life(b) && st.calls[1].call.ttl == b
            && st.calls[1].stage == Returned(Response(0, 200))
  {
    var steps, n, request := StaleRun(a, b), Life(b), Request("", true, 0, true);
    BucketOfMultiple(a, n);
    BucketOfMultiple(b, n);
    var key := Key(n, request);
    var first, second := Call(a, n * Life(a), request), Call(b, n * n, request);
    FirstCall(first, key);
    SecondCall(first, second, key);
    assert steps == [Start(0, first), Look(0), Fetch(0, 200), Check(0)] + [Start(1, second), Look(1), Check(1)];
  }

  lemma FirstCall(first: Call, key: Key)
    requires KeyOf(first) == key
    ensures Run(EMPTY, [Start(0, first), Look(0), Fetch(0, 200), Check(0)])
            == State(map[key := Response(0, 200)], map[0 := Progress(first, Returned(Response(0, 200)))])
  {
    var one, two := [Start(0, first)], [Start(0, first), Look(0)];
    RunSnoc(EMPTY, one, Look(0));
    RunSnoc(EMPTY, two, Fetch(0, 200));
    RunSnoc(EMPTY, two + [Fetch(0, 200)], Check(0));
    assert one + [Look(0)] == two;
    assert two + [Fetch(0, 200)] + [Check(0)] == [Start(0, first), Look(0), Fetch(0, 200), Check(0)];
  }

  lemma SecondCall(first: Call, second: Call, key: Key)
    requires KeyOf(first) == key && KeyOf(second) == key
    ensures var done := Progress(first, Returned(Response(0, 200)));
            Run(EMPTY, [Start(0, first), Look(0), Fetch(0, 200), Check(0)] + [Start(1, second), Look(1), Check(1)])
            == State(map[key := Response(0, 200)],
                     map[0 := done, 1 := Progress(second, Returned(Response(0, 200)))])
  {
    var before := [Start(0, first), Look(0), Fetch(0, 200), Check(0)];
    FirstCall(first, key);
    RunSnoc(EMPTY, before, Start(1, second));
    RunSnoc(EMPTY, before + [Start(1, second)], Look(1));
    RunSnoc(EMPTY, before + [Start(1, second)] + [Look(1)], Check(1));
    assert before + [Start(1, second)] + [Look(1)] + [Check(1)] == before + [Start(1, second), Look(1), Check(1)];
  }

  /**
   The key holds the bucket's number but not its length. So responses are always fresh iff all
   calls agree on the lifetime; calls with different lifetimes can be served a response fetched
   a whole lifetime away or more.
   */
  lemma FreshnessExact(ttls: set<int>)
    requires forall a :: a in ttls ==> a >= 0
    ensures AlwaysFresh(ttls) <==> OneLifetime(ttls)
  {
    if OneLifetime(ttls) {
      forall steps | UsesOnly(steps, ttls) ensures Fresh(Run(EMPTY, steps)) {
        OneLifetimeIsFresh(ttls, steps);
      }
    } else {
      var a, b :| a in ttls && b in ttls && Life(a) != Life(b);
      StaleRunReturns(a, b);
      FarApart(Life(a), Life(b));
      assert UsesOnly(StaleRun(a, b), ttls);
      assert !Fresh(Run(EMPTY, StaleRun(a, b)));
    }
  }

  lemma FarApart(x: nat, y: nat)
    requires x != y
    ensures Distance(y * x, y * y) >= y
  {
    if x < y {
      MulAtLeast(y - x, y);
      assert y * y - y * x == y * (y - x);
    } else {
      MulAtLeast(x - y, y);
      assert y * x - y * y == y * (x - y);
    }
  }
}
