/** The tick-size cache of clob/cache.go: two maps behind one lock, and any number of callers at once. */
module TickSizeCache {
  import opened Crypto

  // ----- The two maps -----

  datatype Cache = Cache(sizes: map<string, string>, times: map<string, nat>)

  /** What the read-locked section finds: an entry recorded less than the time to live before the check. */
  function FreshEntry(c: Cache, ttl: int, token: string, now: nat): Option<string> {
    if token in c.sizes && token in c.times && now - c.times[token] < ttl then Some(c.sizes[token]) else None
  }

  function Put(c: Cache, token: string, size: string, now: nat): Cache {
    Cache(c.sizes[token := size], c.times[token := now])
  }

  /**
   * What is put is found for exactly the time to live from then on, whatever stood there, and nothing else changes; an
   * empty cache has nothing.
   */
  lemma PutIsFoundWhileFresh(c: Cache, ttl: int, token: string, size: string, saved: nat, other: string, now: nat)
    ensures FreshEntry(Cache(map[], map[]), ttl, token, now) == None
    ensures FreshEntry(Put(c, token, size, saved), ttl, token, now) == if now < saved + ttl then Some(size) else None
    ensures other != token ==> FreshEntry(Put(c, token, size, saved), ttl, other, now) == FreshEntry(c, ttl, other, now)
  {
  }

  /** What a request comes back with: no body, null, a JSON string, an object with its two fields, or something else. */
  datatype Reply = NoBody | Null | Bare(text: string) | Object(minimumTickSize: string, tickSize: string) | Garbage

  /**
   * The tick size in a reply. A bare string is taken as it is, null leaves the empty string it is decoded into, and the
   * fields of an object are taken only when not empty.
   */
  function Decode(reply: Reply): (size: Option<string>)
    ensures size == Some("") <==> reply in {Null, Bare("")}
    ensures size == None <==> reply in {NoBody, Garbage, Object("", "")}
    ensures reply.Bare? ==> size == Some(reply.text)
    ensures reply.Object? && reply.minimumTickSize != "" ==> size == Some(reply.minimumTickSize)
    ensures reply.Object? && reply.minimumTickSize == "" && reply.tickSize != "" ==> size == Some(reply.tickSize)
  {
    match reply
    case NoBody | Garbage => None
    case Null => Some("")
    case Bare(text) => Some(text)
    case Object(minimum, tick) => if minimum != "" then Some(minimum) else if tick != "" then Some(tick) else None
  }

  /** The fields of Client that GetTickSize uses. */
  class Client {
    var tickSizeCache: map<string, string>
    var tickSizeCacheTime: map<string, nat>
    const tickSizeTTL: int

    constructor (ttl: int)
      ensures Value() == Cache(map[], map[]) && tickSizeTTL == ttl
    {
      tickSizeCache, tickSizeCacheTime, tickSizeTTL := map[], map[], ttl;
    }

    ghost function Value(): Cache
      reads this
    {
      Cache(tickSizeCache, tickSizeCacheTime)
    }

    /** The read-locked section. A time missing from the map is Go's zero time, older than any time to live. */
    method Lookup(tokenID: string, now: nat) returns (hit: Option<string>)
      ensures hit == FreshEntry(Value(), tickSizeTTL, tokenID, now)
    {
      if tokenID in tickSizeCache {
        var ts := tickSizeCache[tokenID];
        if tokenID in tickSizeCacheTime && now - tickSizeCacheTime[tokenID] < tickSizeTTL {
          return Some(ts);
        }
      }
      hit := None;
    }

    /** The write-locked section. */
    method Store(tokenID: string, tickSize: string, now: nat)
      modifies this
      ensures Value() == Put(old(Value()), tokenID, tickSize, now)
    {
      tickSizeCache := tickSizeCache[tokenID := tickSize];
      tickSizeCacheTime := tickSizeCacheTime[tokenID := now];
    }

    /** GetTickSize without other callers: checked and saved are the times of the two locked sections. */
    method GetTickSize(tokenID: string, checked: nat, reply: Reply, saved: nat) returns (result: Option<string>)
      modifies this
      ensures var hit := FreshEntry(old(Value()), tickSizeTTL, tokenID, checked);
              && result == (if hit.Some? then hit else Decode(reply))
              && Value() == if hit.None? && Decode(reply).Some?
                  then Put(old(Value()), tokenID, Decode(reply).value, saved)
                            else old(Value())
    {
      var ts := Lookup(tokenID, checked);
      if ts.Some? {
        return ts;
      }
      result := Decode(reply);
      if result.Some? {
        Store(tokenID, result.value, saved);
      }
    }
  }

  // ----- Any number of callers -----

  /** A usable response of the server, in the order they arrive. */
  datatype Response = Response(caller: nat, token: string, size: string, at: nat)

  /** How a call ends: an error, its own response, or a cache entry. */
  datatype Answer = Failure | Own(response: nat) | Hit(size: string, recorded: nat, checked: nat)

  /** A call remembers when it began. */
  datatype Caller =
    | Idle
    | Fetching(token: string, began: nat)
    | Saving(response: nat, began: nat)
    | Finished(token: string, began: nat, answer: Answer)

  datatype State = State(now: nat, cache: Cache, callers: seq<Caller>, responses: seq<Response>)

  /** Each step of a caller is one locked section or one request, so the steps of different callers interleave. */
  datatype Step =
    | Tick(seconds: nat)
    | Begin(caller: nat, token: string)
    | Receive(caller: nat, reply: Reply)
    | Save(caller: nat)

  predicate Enabled(s: State, step: Step) {
    match step
    case Tick(_) => true
    case Begin(i, _) => i < |s.callers| && (s.callers[i].Idle? || s.callers[i].Finished?)
    case Receive(i, _) => i < |s.callers| && s.callers[i].Fetching?
    case Save(i) => i < |s.callers| && s.callers[i].Saving? && s.callers[i].response < |s.responses|
  }

  function Next(ttl: int, s: State, step: Step): State
    requires Enabled(s, step)
  {
    match step
    case Tick(seconds) => s.(now := s.now + seconds)
    case Begin(i, token) =>
      var hit := FreshEntry(s.cache, ttl, token, s.now);
      s.(callers := s.callers[i := if hit.None? then Fetching(token, s.now)
                                   else Finished(token, s.now, Hit(hit.value, s.cache.times[token], s.now))])
    case Receive(i, reply) =>
      var call := s.callers[i];
      var size := Decode(reply);
      if size.None? then s.(callers := s.callers[i := Finished(call.token, call.began, Failure)])
      else s.(callers := s.callers[i := Saving(|s.responses|, call.began)],
              responses := s.responses + [Response(i, call.token, size.value, s.now)])
    case Save(i) =>
      var call := s.callers[i];
      var r := s.responses[call.response];
      s.(cache := Put(s.cache, r.token, r.size, s.now),
         callers := s.callers[i := Finished(r.token, call.began, Own(call.response))])
  }

  /** The state a run ends in, if every one of its steps is possible. */
  function Run(ttl: int, s: State, steps: seq<Step>): Option<State> {
    if steps == [] then Some(s)
    else
      var before := Run(ttl, s, steps[..|steps| - 1]);
      if before.None? || !Enabled(before.value, steps[|steps| - 1]) then None
      else Some(Next(ttl, before.value, steps[|steps| - 1]))
  }

  function Init(callers: nat, now: nat): State {
    State(now, Cache(map[], map[]), seq(callers, i => Idle), [])
  }

  // ----- What holds in every state of every run -----

  /** The server said so for this very token, no later than the given time. */
  ghost predicate WasServed(responses: seq<Response>, token: string, size: string, limit: nat) {
    exists k | 0 <= k < |responses| ::
      responses[k].token == token && responses[k].size == size && responses[k].at <= limit
  }

  ghost predicate CacheIsServed(s: State) {
    && s.cache.sizes.Keys == s.cache.times.Keys
    && forall token | token in s.cache.sizes ::
         s.cache.times[token] <= s.now && WasServed(s.responses, token, s.cache.sizes[token], s.cache.times[token])
  }

  /** A response to this very call: to this caller, since the call began. */
  predicate IsOwn(responses: seq<Response>, i: nat, k: nat, began: nat) {
    k < |responses| && responses[k].caller == i && responses[k].at >= began
  }

  /** An answer is the call's own response, or what was served for the token before a fresh entry was recorded. */
  ghost predicate Justified(ttl: int, responses: seq<Response>, i: nat, token: string, began: nat, answer: Answer) {
    match answer
    case Failure => true
    case Own(k) => IsOwn(responses, i, k, began) && responses[k].token == token
    case Hit(size, recorded, checked) =>
      began <= checked && recorded <= checked < recorded + ttl && WasServed(responses, token, size, recorded)
  }

  ghost predicate CallerIsJustified(ttl: int, s: State, i: nat)
    requires i < |s.callers|
  {
    match s.callers[i]
    case Idle => true
    case Fetching(_, began) => began <= s.now
    case Saving(k, began) => IsOwn(s.responses, i, k, began)
    case Finished(token, began, answer) => Justified(ttl, s.responses, i, token, began, answer)
  }

  ghost predicate Inv(ttl: int, s: State) {
    && CacheIsServed(s)
    && (forall k | 0 <= k < |s.responses| :: s.responses[k].at <= s.now)
    && (forall i | 0 <= i < |s.callers| :: CallerIsJustified(ttl, s, i))
  }

  lemma ServedStays(responses: seq<Response>, more: seq<Response>, token: string, size: string, t: nat)
    requires WasServed(responses, token, size, t)
    ensures WasServed(responses + more, token, size, t)
  {
    var k :| 0 <= k < |responses| && responses[k].token == token && responses[k].size == size && responses[k].at <= t;
    assert (responses + more)[k] == responses[k];
  }

  lemma BeginKeeps(ttl: int, s: State, i: nat, token: string)
    requires Inv(ttl, s) && Enabled(s, Begin(i, token))
    ensures Inv(ttl, Next(ttl, s, Begin(i, token)))
  {
    var t := Next(ttl, s, Begin(i, token));
    forall j | 0 <= j < |t.callers| ensures CallerIsJustified(ttl, t, j) {
      assert j != i ==> CallerIsJustified(ttl, s, j);
    }
  }

  lemma ReceiveKeeps(ttl: int, s: State, i: nat, reply: Reply)
    requires Inv(ttl, s) && Enabled(s, Receive(i, reply))
    ensures Inv(ttl, Next(ttl, s, Receive(i, reply)))
  {
    var t := Next(ttl, s, Receive(i, reply));
    var more := t.responses[|s.responses|..];
    assert t.responses == s.responses + more;
    forall token | token in t.cache.sizes
      ensures WasServed(t.responses, token, t.cache.sizes[token], t.cache.times[token])
    {
      ServedStays(s.responses, more, token, t.cache.sizes[token], t.cache.times[token]);
    }
    forall j | 0 <= j < |t.callers| ensures CallerIsJustified(ttl, t, j) {
      assert CallerIsJustified(ttl, s, j);
      if j != i {
        if s.callers[j].Finished? && s.callers[j].answer.Hit? {
          ServedStays(s.responses, more, s.callers[j].token, s.callers[j].answer.size, s.callers[j].answer.recorded);
        }
      }
    }
  }

  lemma SaveKeeps(ttl: int, s: State, i: nat)
    requires Inv(ttl, s) && Enabled(s, Save(i))
    ensures Inv(ttl, Next(ttl, s, Save(i)))
  {
    var t := Next(ttl, s, Save(i));
    var k := s.callers[i].response;
    assert CallerIsJustified(ttl, s, i);
    assert t.responses[k].token == s.responses[k].token && t.responses[k].at <= s.now;
    forall j | 0 <= j < |t.callers| ensures CallerIsJustified(ttl, t, j) {
      assert j != i ==> CallerIsJustified(ttl, s, j);
    }
  }

  lemma TickKeeps(ttl: int, s: State, seconds: nat)
    requires Inv(ttl, s)
    ensures Inv(ttl, Next(ttl, s, Tick(seconds)))
  {
    var t := Next(ttl, s, Tick(seconds));
    forall j | 0 <= j < |t.callers| ensures CallerIsJustified(ttl, t, j) {
      assert CallerIsJustified(ttl, s, j);
    }
  }

  /**
   * Under any interleaving both maps have the same keys, and everything cached or answered was served for its token.
   */
  lemma {:induction false} EveryStateOfEveryRun(ttl: int, callers: nat, start: nat, steps: seq<Step>)
    ensures var end := Run(ttl, Init(callers, start), steps);
            end.Some? ==> Inv(ttl, end.value)
  {
    if steps != [] {
      var before := Run(ttl, Init(callers, start), steps[..|steps| - 1]);
      var step := steps[|steps| - 1];
      EveryStateOfEveryRun(ttl, callers, start, steps[..|steps| - 1]);
      if before.Some? && Enabled(before.value, step) {
        match step {
          case Tick(seconds) => TickKeeps(ttl, before.value, seconds);
          case Begin(i, token) => BeginKeeps(ttl, before.value, i, token);
          case Receive(i, reply) => ReceiveKeeps(ttl, before.value, i, reply);
          case Save(i) => SaveKeeps(ttl, before.value, i);
        }
      }
    }
  }

  /**
   * One call after another does what GetTickSize does alone: a fresh entry ends it, else it waits for the reply, and
   * what the reply says is saved, if it says anything.
   */
  lemma AloneIsGetTickSize(ttl: int, s: State, i: nat, token: string, reply: Reply, wait: nat)
    requires Enabled(s, Begin(i, token))
    ensures var hit := FreshEntry(s.cache, ttl, token, s.now);
            var begun := Next(ttl, s, Begin(i, token));
            && begun.cache == s.cache && begun.responses == s.responses
            && (hit.Some? ==> begun.callers[i] == Finished(token, s.now, Hit(hit.value, s.cache.times[token], s.now)))
            && (hit.None? ==> Enabled(begun, Receive(i, reply)) && EndsAlone(ttl, s, begun, i, token, reply, wait))
  {
  }

  predicate EndsAlone(ttl: int, s: State, begun: State, i: nat, token: string, reply: Reply, wait: nat)
    requires Enabled(begun, Receive(i, reply))
  {
    var answered := Next(ttl, begun, Receive(i, reply));
    if Decode(reply).None? then
      i < |answered.callers| && answered.callers[i] == Finished(token, s.now, Failure) && answered.cache == s.cache
    else
      var waited := Next(ttl, answered, Tick(wait));
      && Enabled(waited, Save(i))
      && var saved := Next(ttl, waited, Save(i));
         && saved.cache == Put(s.cache, token, Decode(reply).value, s.now + wait)
         && saved.responses == s.responses + [Response(i, token, Decode(reply).value, s.now)]
         && i < |saved.callers| && saved.callers[i] == Finished(token, s.now, Own(|s.responses|))
  }

  // ----- What does not hold -----

  /** A run and one step more. */
  lemma Extend(ttl: int, s: State, steps: seq<Step>, at: State, step: Step) returns (longer: seq<Step>, after: State)
    requires Run(ttl, s, steps) == Some(at) && Enabled(at, step)
    ensures longer == steps + [step] && after == Next(ttl, at, step) && Run(ttl, s, longer) == Some(after)
  {
    longer, after := steps + [step], Next(ttl, at, step);
    assert longer[..|longer| - 1] == steps;
  }

  /** Two callers of one token, the first served before the second, both about to save. */
  function TwoResponses(start: nat, token: string, stale: string, latest: string, delay: nat): State {
    State(start + delay, Cache(map[], map[]), [Saving(0, start), Saving(1, start)],
          [Response(0, token, stale, start), Response(1, token, latest, start + delay)])
  }

  function Racing(token: string, stale: string, latest: string, delay: nat): seq<Step> {
    [Begin(0, token), Begin(1, token), Receive(0, Bare(stale)), Tick(delay), Receive(1, Bare(latest))]
  }

  function TwoFetching(start: nat, token: string): State {
    State(start, Cache(map[], map[]), [Fetching(token, start), Fetching(token, start)], [])
  }

  lemma TwoFetchingReached(ttl: int, start: nat, token: string)
    ensures Run(ttl, Init(2, start), [Begin(0, token), Begin(1, token)]) == Some(TwoFetching(start, token))
  {
    var s := Init(2, start);
    var steps: seq<Step>, at := [], s;
    steps, at := Extend(ttl, s, steps, at, Begin(0, token));
    steps, at := Extend(ttl, s, steps, at, Begin(1, token));
    assert at.callers == TwoFetching(start, token).callers && steps == [Begin(0, token), Begin(1, token)];
  }

  lemma TwoResponsesReached(ttl: int, start: nat, token: string, stale: string, latest: string, delay: nat)
    ensures Run(ttl, Init(2, start), Racing(token, stale, latest, delay))
            == Some(TwoResponses(start, token, stale, latest, delay))
  {
    var s := Init(2, start);
    var steps: seq<Step>, at := [Begin(0, token), Begin(1, token)], TwoFetching(start, token);
    TwoFetchingReached(ttl, start, token);
    steps, at := Extend(ttl, s, steps, at, Receive(0, Bare(stale)));
    steps, at := Extend(ttl, s, steps, at, Tick(delay));
    steps, at := Extend(ttl, s, steps, at, Receive(1, Bare(latest)));
    var t := TwoResponses(start, token, stale, latest, delay);
    assert at.callers == t.callers && at.responses == t.responses && steps == Racing(token, stale, latest, delay);
  }

  /** A slow caller can put an old response over a newer one, and it counts as fresh from the time it is saved. */
  lemma OlderResponseCanReplaceNewer(ttl: int, start: nat, token: string, stale: string, latest: string, delay: nat)
    ensures var steps := Racing(token, stale, latest, delay) + [Save(1)] + [Save(0)];
            var end := Run(ttl, Init(2, start), steps);
            && end.Some? && end.value.cache == Cache(map[token := stale], map[token := start + delay])
            && end.value.responses == [Response(0, token, stale, start), Response(1, token, latest, start + delay)]
  {
    var s, at := Init(2, start), TwoResponses(start, token, stale, latest, delay);
    var steps := Racing(token, stale, latest, delay);
    TwoResponsesReached(ttl, start, token, stale, latest, delay);
    steps, at := Extend(ttl, s, steps, at, Save(1));
    steps, at := Extend(ttl, s, steps, at, Save(0));
  }

  // ----- When it does hold: one call at a time for each token -----

  /** Caller i is waiting for a response for the token, or about to save one. */
  predicate BusyWith(s: State, i: nat, token: string)
    requires i < |s.callers|
  {
    match s.callers[i]
    case Fetching(t, _) => t == token
    case Saving(k, _) => k < |s.responses| && s.responses[k].token == token
    case _ => false
  }

  /** A call begins only while no other caller is busy with its token: what a caller can see to beforehand. */
  ghost predicate TakesTurns(s: State, step: Step) {
    step.Begin? ==> forall j | 0 <= j < |s.callers| && j != step.caller :: !BusyWith(s, j, step.token)
  }

  ghost predicate Serialised(ttl: int, s: State, steps: seq<Step>) {
    steps != [] ==>
      var before := Run(ttl, s, steps[..|steps| - 1]);
      Serialised(ttl, s, steps[..|steps| - 1]) && (before.Some? ==> TakesTurns(before.value, steps[|steps| - 1]))
  }

  /** No two callers are busy with one token. */
  ghost predicate OneBusyEach(s: State) {
    forall i, j, token | 0 <= i < |s.callers| && 0 <= j < |s.callers| ::
      BusyWith(s, i, token) && BusyWith(s, j, token) ==> i == j
  }

  /** Response k is the last one for its token. */
  ghost predicate IsNewest(responses: seq<Response>, k: nat) {
    k < |responses| && forall n | k < n < |responses| :: responses[n].token != responses[k].token
  }

  ghost predicate SavesNewest(s: State) {
    forall i | 0 <= i < |s.callers| && s.callers[i].Saving? :: IsNewest(s.responses, s.callers[i].response)
  }

  ghost predicate BeingSaved(s: State, k: nat) {
    exists i | 0 <= i < |s.callers| :: s.callers[i].Saving? && s.callers[i].response == k
  }

  /** The entry for the token of response k is that response or a later one. */
  ghost predicate Covered(s: State, k: nat)
    requires k < |s.responses|
  {
    var token := s.responses[k].token;
    && token in s.cache.sizes
    && exists n | k <= n < |s.responses| :: s.responses[n].token == token && s.cache.sizes[token] == s.responses[n].size
  }

  ghost predicate NothingLost(s: State) {
    forall k | 0 <= k < |s.responses| :: BeingSaved(s, k) || Covered(s, k)
  }

  /** Two callers are busy with one token, and one of them still fetches. */
  ghost predicate Contended(s: State) {
    exists i, j | 0 <= i < |s.callers| && 0 <= j < |s.callers| && i != j ::
      s.callers[i].Fetching? && BusyWith(s, j, s.callers[i].token)
  }

  /** Whatever is the newest response for the token of response k has the same size as k. */
  ghost predicate SizeIsLatest(responses: seq<Response>, k: nat) {
    && k < |responses|
    && forall n: nat | IsNewest(responses, n) && responses[n].token == responses[k].token ::
         responses[n].size == responses[k].size
  }

  ghost predicate SavesLatestSizes(s: State) {
    forall i | 0 <= i < |s.callers| && s.callers[i].Saving? :: SizeIsLatest(s.responses, s.callers[i].response)
  }

  /** Nothing is lost, and nothing can get lost by what is under way. */
  ghost predicate Settled(s: State) {
    !Contended(s) && SavesLatestSizes(s) && NothingLost(s)
  }

  ghost predicate SerialInv(s: State) {
    OneBusyEach(s) && SavesNewest(s) && NothingLost(s)
  }

  lemma SerialIsSettled(s: State)
    requires SerialInv(s)
    ensures Settled(s)
  {
    forall i, j | 0 <= i < |s.callers| && 0 <= j < |s.callers| && i != j && s.callers[i].Fetching?
      ensures !BusyWith(s, j, s.callers[i].token)
    {
      assert BusyWith(s, i, s.callers[i].token);
    }
    forall i | 0 <= i < |s.callers| && s.callers[i].Saving?
      ensures SizeIsLatest(s.responses, s.callers[i].response)
    {
      assert IsNewest(s.responses, s.callers[i].response);
    }
  }

  lemma CoveredStays(s: State, t: State, k: nat)
    requires k < |s.responses| <= |t.responses| && s.responses == t.responses[..|s.responses|] && t.cache == s.cache
    requires Covered(s, k)
    ensures Covered(t, k)
  {
    var token := s.responses[k].token;
    var n :| k <= n < |s.responses| && s.responses[n].token == token && s.cache.sizes[token] == s.responses[n].size;
    assert t.responses[n] == s.responses[n] && t.responses[k] == s.responses[k];
  }

  lemma SavedStays(s: State, t: State, k: nat, i: nat)
    requires i < |s.callers| == |t.callers| && !s.callers[i].Saving? && BeingSaved(s, k)
    requires forall j | 0 <= j < |s.callers| && j != i :: t.callers[j] == s.callers[j]
    ensures BeingSaved(t, k)
  {
    var j :| 0 <= j < |s.callers| && s.callers[j].Saving? && s.callers[j].response == k;
    assert t.callers[j] == s.callers[j];
  }

  lemma SettledBegin(ttl: int, s: State, i: nat, token: string)
    requires Settled(s) && Enabled(s, Begin(i, token)) && TakesTurns(s, Begin(i, token))
    ensures Settled(Next(ttl, s, Begin(i, token)))
  {
    var t := Next(ttl, s, Begin(i, token));
    assert forall j, other | 0 <= j < |s.callers| && j != i :: BusyWith(t, j, other) == BusyWith(s, j, other);
    assert forall other | BusyWith(t, i, other) :: other == token;
    forall a, b | 0 <= a < |t.callers| && 0 <= b < |t.callers| && a != b && t.callers[a].Fetching?
      ensures !BusyWith(t, b, t.callers[a].token)
    {
      assert BusyWith(t, a, t.callers[a].token);
    }
    forall k | 0 <= k < |t.responses| ensures BeingSaved(t, k) || Covered(t, k) {
      if BeingSaved(s, k) {
        SavedStays(s, t, k, i);
      } else {
        CoveredStays(s, t, k);
      }
    }
  }

  /** Whoever saves for another token than a new response's sees the same newest response as before. */
  lemma LatestStays(responses: seq<Response>, r: Response, k: nat)
    requires SizeIsLatest(responses, k) && responses[k].token != r.token
    ensures SizeIsLatest(responses + [r], k)
  {
    forall n: nat | IsNewest(responses + [r], n) && (responses + [r])[n].token == responses[k].token
      ensures (responses + [r])[n].size == responses[k].size
    {
      assert forall m | n < m < |responses| :: (responses + [r])[m] == responses[m];
      assert IsNewest(responses, n);
    }
  }

  lemma SettledReceive(ttl: int, s: State, i: nat, reply: Reply)
    requires Settled(s) && Enabled(s, Receive(i, reply))
    ensures Settled(Next(ttl, s, Receive(i, reply)))
  {
    var t, token := Next(ttl, s, Receive(i, reply)), s.callers[i].token;
    assert t.responses[..|s.responses|] == s.responses;
    forall j, other | 0 <= j < |t.callers| && BusyWith(t, j, other) ensures BusyWith(s, j, other) {
      if j != i && s.callers[j].Saving? {
        assert SizeIsLatest(s.responses, s.callers[j].response);
      }
    }
    forall j | 0 <= j < |t.callers| && t.callers[j].Saving? ensures SizeIsLatest(t.responses, t.callers[j].response) {
      if j != i {
        var k := s.callers[j].response;
        assert SizeIsLatest(s.responses, k) && !BusyWith(s, j, token);
        if |t.responses| > |s.responses| {
          LatestStays(s.responses, t.responses[|s.responses|], k);
        }
      }
    }
    forall k | 0 <= k < |t.responses| ensures BeingSaved(t, k) || Covered(t, k) {
      if k == |s.responses| {
        assert t.callers[i].Saving? && t.callers[i].response == k;
      } else if BeingSaved(s, k) {
        SavedStays(s, t, k, i);
      } else {
        CoveredStays(s, t, k);
      }
    }
  }

  /** Each response is followed by the newest for its token, or is it. */
  lemma {:induction false} NewestFrom(responses: seq<Response>, k: nat) returns (n: nat)
    requires k < |responses|
    ensures k <= n && IsNewest(responses, n) && responses[n].token == responses[k].token
    decreases |responses| - k
  {
    if m: nat :| k < m < |responses| && responses[m].token == responses[k].token {
      n := NewestFrom(responses, m);
    } else {
      n := k;
    }
  }

  /** Saving the latest size for a token covers every response for it. */
  lemma SavedCovers(ttl: int, s: State, i: nat, k: nat)
    requires Enabled(s, Save(i)) && SizeIsLatest(s.responses, s.callers[i].response)
    requires k < |s.responses| && s.responses[k].token == s.responses[s.callers[i].response].token
    ensures Covered(Next(ttl, s, Save(i)), k)
  {
    var n := NewestFrom(s.responses, k);
    assert s.responses[n].size == s.responses[s.callers[i].response].size;
  }

  lemma SettledSave(ttl: int, s: State, i: nat)
    requires Settled(s) && Enabled(s, Save(i))
    ensures Settled(Next(ttl, s, Save(i)))
  {
    var t, n := Next(ttl, s, Save(i)), s.callers[i].response;
    assert SizeIsLatest(s.responses, n);
    assert forall j, other | 0 <= j < |t.callers| && BusyWith(t, j, other) :: BusyWith(s, j, other);
    forall k | 0 <= k < |t.responses| ensures BeingSaved(t, k) || Covered(t, k) {
      if s.responses[k].token == s.responses[n].token {
        SavedCovers(ttl, s, i, k);
      } else if BeingSaved(s, k) {
        var j :| 0 <= j < |s.callers| && s.callers[j].Saving? && s.callers[j].response == k;
        assert t.callers[j] == s.callers[j];
      } else {
        assert Covered(s, k);
      }
    }
  }

  lemma SettledTick(ttl: int, s: State, seconds: nat)
    requires Settled(s)
    ensures Settled(Next(ttl, s, Tick(seconds)))
  {
    var t := Next(ttl, s, Tick(seconds));
    assert forall j, other | 0 <= j < |t.callers| && BusyWith(t, j, other) :: BusyWith(s, j, other);
    forall k | 0 <= k < |t.responses| ensures BeingSaved(t, k) || Covered(t, k) {
      if BeingSaved(s, k) {
        var j :| 0 <= j < |s.callers| && s.callers[j].Saving? && s.callers[j].response == k;
        assert t.callers[j] == s.callers[j];
      } else {
        CoveredStays(s, t, k);
      }
    }
  }

  lemma SettledStep(ttl: int, s: State, step: Step)
    requires Settled(s) && Enabled(s, step) && TakesTurns(s, step)
    ensures Settled(Next(ttl, s, step))
  {
    match step {
      case Tick(seconds) => SettledTick(ttl, s, seconds);
      case Begin(i, token) => SettledBegin(ttl, s, i, token);
      case Receive(i, reply) => SettledReceive(ttl, s, i, reply);
      case Save(i) => SettledSave(ttl, s, i);
    }
  }

  lemma {:induction false} SettledStays(ttl: int, s: State, steps: seq<Step>)
    requires Settled(s) && Serialised(ttl, s, steps)
    ensures Run(ttl, s, steps).Some? ==> Settled(Run(ttl, s, steps).value)
  {
    if steps != [] {
      var before := Run(ttl, s, steps[..|steps| - 1]);
      SettledStays(ttl, s, steps[..|steps| - 1]);
      if before.Some? && Enabled(before.value, steps[|steps| - 1]) {
        SettledStep(ttl, before.value, steps[|steps| - 1]);
      }
    }
  }

  /** With turns taken from the start, at most one caller is busy with each token, and it saves the newest response. */
  lemma SerialBegin(ttl: int, s: State, i: nat, token: string)
    requires OneBusyEach(s) && SavesNewest(s) && Enabled(s, Begin(i, token)) && TakesTurns(s, Begin(i, token))
    ensures OneBusyEach(Next(ttl, s, Begin(i, token))) && SavesNewest(Next(ttl, s, Begin(i, token)))
  {
    var t := Next(ttl, s, Begin(i, token));
    assert forall j, other | 0 <= j < |s.callers| && j != i :: BusyWith(t, j, other) == BusyWith(s, j, other);
    assert forall other | BusyWith(t, i, other) :: other == token;
  }

  lemma SerialReceive(ttl: int, s: State, i: nat, reply: Reply)
    requires OneBusyEach(s) && SavesNewest(s) && Enabled(s, Receive(i, reply))
    ensures OneBusyEach(Next(ttl, s, Receive(i, reply))) && SavesNewest(Next(ttl, s, Receive(i, reply)))
  {
    var t, token := Next(ttl, s, Receive(i, reply)), s.callers[i].token;
    assert t.responses[..|s.responses|] == s.responses;
    assert BusyWith(s, i, token);
    forall j, other | 0 <= j < |t.callers| && BusyWith(t, j, other) ensures BusyWith(s, j, other) {
      if j != i && s.callers[j].Saving? {
        assert IsNewest(s.responses, s.callers[j].response);
      }
    }
    forall j | 0 <= j < |t.callers| && t.callers[j].Saving? ensures IsNewest(t.responses, t.callers[j].response) {
      if j != i {
        assert IsNewest(s.responses, s.callers[j].response);
        assert BusyWith(s, j, s.responses[s.callers[j].response].token);
      }
    }
  }

  lemma SerialSave(ttl: int, s: State, i: nat)
    requires OneBusyEach(s) && SavesNewest(s) && Enabled(s, Save(i))
    ensures OneBusyEach(Next(ttl, s, Save(i))) && SavesNewest(Next(ttl, s, Save(i)))
  {
    var t := Next(ttl, s, Save(i));
    assert forall j, other | 0 <= j < |t.callers| && BusyWith(t, j, other) :: BusyWith(s, j, other);
  }

  lemma SerialTick(ttl: int, s: State, seconds: nat)
    requires OneBusyEach(s) && SavesNewest(s)
    ensures OneBusyEach(Next(ttl, s, Tick(seconds))) && SavesNewest(Next(ttl, s, Tick(seconds)))
  {
    var t := Next(ttl, s, Tick(seconds));
    assert forall j, other | 0 <= j < |t.callers| && BusyWith(t, j, other) :: BusyWith(s, j, other);
  }

  lemma SerialStep(ttl: int, s: State, step: Step)
    requires SerialInv(s) && Enabled(s, step) && TakesTurns(s, step)
    ensures SerialInv(Next(ttl, s, step))
  {
    SerialIsSettled(s);
    SettledStep(ttl, s, step);
    match step {
      case Tick(seconds) => SerialTick(ttl, s, seconds);
      case Begin(i, token) => SerialBegin(ttl, s, i, token);
      case Receive(i, reply) => SerialReceive(ttl, s, i, reply);
      case Save(i) => SerialSave(ttl, s, i);
    }
  }

  lemma {:induction false} TurnsKeep(ttl: int, s: State, steps: seq<Step>)
    requires SerialInv(s) && Serialised(ttl, s, steps)
    ensures Run(ttl, s, steps).Some? ==> SerialInv(Run(ttl, s, steps).value)
  {
    if steps != [] {
      var before := Run(ttl, s, steps[..|steps| - 1]);
      TurnsKeep(ttl, s, steps[..|steps| - 1]);
      if before.Some? && Enabled(before.value, steps[|steps| - 1]) {
        SerialStep(ttl, before.value, steps[|steps| - 1]);
      }
    }
  }

  /**
   * When calls for one token take turns, no response is ever lost to an older one: in every state of such a run each
   * response is still being saved, or the entry for its token is that response or a later one.
   */
  lemma TakingTurnsKeepsTheLatest(ttl: int, callers: nat, start: nat, steps: seq<Step>)
    requires Serialised(ttl, Init(callers, start), steps)
    ensures var end := Run(ttl, Init(callers, start), steps);
            end.Some? ==> SerialInv(end.value)
  {
    TurnsKeep(ttl, Init(callers, start), steps);
  }

  /** So when nobody is busy with a token, its entry is the last response for it. */
  lemma IdleTokenIsLatest(s: State, k: nat)
    requires SerialInv(s) && IsNewest(s.responses, k)
    requires forall i | 0 <= i < |s.callers| :: !BusyWith(s, i, s.responses[k].token)
    ensures s.responses[k].token in s.cache.sizes && s.cache.sizes[s.responses[k].token] == s.responses[k].size
  {
    if BeingSaved(s, k) {
      var i :| 0 <= i < |s.callers| && s.callers[i].Saving? && s.callers[i].response == k;
      assert BusyWith(s, i, s.responses[k].token);
    } else {
      assert Covered(s, k);
    }
  }

  // ----- And only then -----

  /** Some response is neither being saved any more nor covered by the entry for its token. */
  ghost predicate LosesOne(s: State) {
    exists k | 0 <= k < |s.responses| :: !BeingSaved(s, k) && !Covered(s, k)
  }

  /** Some continuation in which every new call takes its turn loses a response. */
  ghost predicate CanLose(ttl: int, s: State) {
    exists steps :: Loses(ttl, s, steps)
  }

  ghost predicate Loses(ttl: int, s: State, steps: seq<Step>) {
    Serialised(ttl, s, steps) && Run(ttl, s, steps).Some? && LosesOne(Run(ttl, s, steps).value)
  }

  lemma {:induction false} RunAfter(ttl: int, s: State, step: Step, rest: seq<Step>)
    requires Enabled(s, step) && TakesTurns(s, step)
    ensures Run(ttl, s, [step] + rest) == Run(ttl, Next(ttl, s, step), rest)
    ensures Serialised(ttl, Next(ttl, s, step), rest) ==> Serialised(ttl, s, [step] + rest)
  {
    if rest == [] {
      assert ([step] + rest)[..0] == [] && [step] + rest == [step];
    } else {
      assert ([step] + rest)[..|[step] + rest| - 1] == [step] + rest[..|rest| - 1];
      RunAfter(ttl, s, step, rest[..|rest| - 1]);
    }
  }

  lemma LosesAfter(ttl: int, s: State, step: Step)
    requires Enabled(s, step) && TakesTurns(s, step) && CanLose(ttl, Next(ttl, s, step))
    ensures CanLose(ttl, s)
  {
    var rest :| Loses(ttl, Next(ttl, s, step), rest);
    RunAfter(ttl, s, step, rest);
    assert Loses(ttl, s, [step] + rest);
  }

  /** Caller i is about to save a response of another size than n, the newest for the token, which came later. */
  predicate IsOvertaken(s: State, i: nat, n: nat) {
    && i < |s.callers| && s.callers[i].Saving? && s.callers[i].response < n < |s.responses|
    && s.responses[n].token == s.responses[s.callers[i].response].token
    && s.responses[n].size != s.responses[s.callers[i].response].size
    && forall m | n < m < |s.responses| :: s.responses[m].token != s.responses[n].token
  }

  ghost predicate Overtaken(s: State) {
    exists i, n :: IsOvertaken(s, i, n)
  }

  /** Once the newer response is saved, or if it never will be, saving the older one loses it. */
  lemma OvertakenSaves(ttl: int, s: State, i: nat, n: nat)
    requires IsOvertaken(s, i, n) && !BeingSaved(s, n)
    ensures CanLose(ttl, s)
  {
    var t := Next(ttl, s, Save(i));
    assert !BeingSaved(t, n) by {
      assert forall j | 0 <= j < |t.callers| && t.callers[j].Saving? :: t.callers[j] == s.callers[j];
    }
    assert !Covered(t, n);
    assert Loses(ttl, t, []);
    LosesAfter(ttl, s, Save(i));
  }

  lemma OvertakenLoses(ttl: int, s: State, i: nat, n: nat)
    requires Inv(ttl, s) && IsOvertaken(s, i, n)
    ensures CanLose(ttl, s)
  {
    if BeingSaved(s, n) {
      var c: nat :| c < |s.callers| && s.callers[c].Saving? && s.callers[c].response == n;
      var t := Next(ttl, s, Save(c));
      OnlySaver(ttl, s, c);
      assert t.callers[i] == s.callers[i];
      OvertakenSaves(ttl, t, i, n);
      LosesAfter(ttl, s, Save(c));
    } else {
      OvertakenSaves(ttl, s, i, n);
    }
  }

  /** A response is saved by the caller it was made to, so nobody is about to save it afterwards. */
  lemma OnlySaver(ttl: int, s: State, c: nat)
    requires Inv(ttl, s) && Enabled(s, Save(c))
    ensures !BeingSaved(Next(ttl, s, Save(c)), s.callers[c].response)
  {
    var t := Next(ttl, s, Save(c));
    assert CallerIsJustified(ttl, s, c);
    forall j | 0 <= j < |t.callers| && t.callers[j].Saving?
      ensures t.callers[j].response != s.callers[c].response
    {
      assert CallerIsJustified(ttl, s, j);
    }
  }

  /** A caller that is fetching can be answered after, and save before, another that has an answer for the token. */
  lemma FetcherLoses(ttl: int, s: State, i: nat, j: nat)
    requires Inv(ttl, s) && i < |s.callers| && j < |s.callers| && i != j
    requires s.callers[i].Fetching? && s.callers[j].Saving? && BusyWith(s, j, s.callers[i].token)
    ensures CanLose(ttl, s)
  {
    var k := s.callers[j].response;
    var reply := Bare(s.responses[k].size + "0");
    var t := Next(ttl, s, Receive(i, reply));
    ReceiveKeeps(ttl, s, i, reply);
    assert IsOvertaken(t, j, |s.responses|);
    OvertakenLoses(ttl, t, j, |s.responses|);
    LosesAfter(ttl, s, Receive(i, reply));
  }

  /** Two callers busy with one token, one of them still fetching, are enough. */
  lemma TwoBusyLose(ttl: int, s: State, i: nat, j: nat)
    requires Inv(ttl, s) && i < |s.callers| && j < |s.callers| && i != j
    requires s.callers[i].Fetching? && BusyWith(s, j, s.callers[i].token)
    ensures CanLose(ttl, s)
  {
    if s.callers[j].Fetching? {
      var t := Next(ttl, s, Receive(j, Bare("0")));
      ReceiveKeeps(ttl, s, j, Bare("0"));
      FetcherLoses(ttl, t, i, j);
      LosesAfter(ttl, s, Receive(j, Bare("0")));
    } else {
      FetcherLoses(ttl, s, i, j);
    }
  }

  /** What cannot lose a response is settled. */
  lemma ElseSettled(ttl: int, s: State)
    requires Inv(ttl, s) && !LosesOne(s) && !Contended(s) && !Overtaken(s)
    ensures Settled(s)
  {
    forall i | 0 <= i < |s.callers| && s.callers[i].Saving?
      ensures SizeIsLatest(s.responses, s.callers[i].response)
    {
      assert CallerIsJustified(ttl, s, i);
      var k := s.callers[i].response;
      forall n: nat | IsNewest(s.responses, n) && s.responses[n].token == s.responses[k].token
        ensures s.responses[n].size == s.responses[k].size
      {
        assert !IsOvertaken(s, i, n);
      }
    }
  }

  /**
   * Exactly when a response can get lost though all calls from now on take turns, in any state of any run: when one is
   * lost already, when two callers are busy with one token and one of them still fetches, or when a caller is about to
   * save a response that a newer one of another size has overtaken.
   */
  lemma LosesExactly(ttl: int, s: State)
    requires Inv(ttl, s)
    ensures CanLose(ttl, s) <==> LosesOne(s) || Contended(s) || Overtaken(s)
  {
    if LosesOne(s) {
      assert Loses(ttl, s, []);
    } else if i: nat, j: nat :| i < |s.callers| && j < |s.callers| && i != j
                               && s.callers[i].Fetching? && BusyWith(s, j, s.callers[i].token) {
      TwoBusyLose(ttl, s, i, j);
    } else if i: nat, n: nat :| IsOvertaken(s, i, n) {
      OvertakenLoses(ttl, s, i, n);
    } else {
      ElseSettled(ttl, s);
      if steps :| Loses(ttl, s, steps) {
        SettledStays(ttl, s, steps);
      }
    }
  }

  /** A call that begins out of turn, and finds no fresh entry, makes a loss possible from whatever state. */
  lemma OutOfTurnLoses(ttl: int, s: State, i: nat, token: string)
    requires Inv(ttl, s) && Enabled(s, Begin(i, token)) && !TakesTurns(s, Begin(i, token))
    requires FreshEntry(s.cache, ttl, token, s.now).None?
    ensures CanLose(ttl, Next(ttl, s, Begin(i, token)))
  {
    var t := Next(ttl, s, Begin(i, token));
    var j :| 0 <= j < |s.callers| && j != i && BusyWith(s, j, token);
    BeginKeeps(ttl, s, i, token);
    TwoBusyLose(ttl, t, i, j);
  }
}
