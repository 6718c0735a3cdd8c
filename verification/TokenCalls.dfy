/**
 * Where the token messages of other goroutines go, whenever they are sent during a run of MarketWS in
 * polymarket/ws.go.
 */
module TokenCalls {
  import opened Crypto
  import opened WsSession

  // ----- A run with calls -----

  /** What happens, in order: an event of the run, or a call of SubscribeTokens or UnsubscribeTokens. */
  datatype Item = Happens(event: Event) | Calls(message: Message)

  /** A call and the connection it writes to, if there is one. */
  datatype Written = Written(to: Option<nat>, message: Message)

  function EventsOf(items: seq<Item>): seq<Event> {
    if items == [] then []
    else
      match items[|items| - 1]
      case Happens(event) => EventsOf(items[..|items| - 1]) + [event]
      case Calls(_) => EventsOf(items[..|items| - 1])
  }

  /** What the calls do, one after another, to the connection that is live when each is made. */
  function Writes(items: seq<Item>): seq<Written> {
    if items == [] then []
    else
      var before := items[..|items| - 1];
      match items[|items| - 1]
      case Happens(_) => Writes(before)
      case Calls(message) => Writes(before) + [Written(Live(EventsOf(before)), message)]
  }

  // ----- When a session is live -----

  /** Events that change nothing for a call. */
  predicate Quiet(e: Event) {
    !e.Publish? && !e.Down?
  }

  /** Where session i publishes its connection, if it comes up. */
  function PublishedAt(plan: seq<Attempt>, batches: seq<seq<string>>, hasReconnect: bool, i: nat): nat
    requires i < |plan|
  {
    |Trace([], plan, batches, hasReconnect, i)| + 1 + |batches|
  }

  /** Where session i goes down. */
  function DownAt(plan: seq<Attempt>, batches: seq<seq<string>>, hasReconnect: bool, i: nat): nat
    requires i < |plan|
  {
    |SessionFrom(Trace([], plan, batches, hasReconnect, i), batches, i, hasReconnect, plan[i].outcome)|
  }

  /** The first m events leave session i live: it has published its connection and has not gone down. */
  predicate IsLiveAt(plan: seq<Attempt>, batches: seq<seq<string>>, hasReconnect: bool, i: nat, m: nat)
    requires i < |plan|
  {
    && ComesUp(plan[i].outcome, |batches|)
    && PublishedAt(plan, batches, hasReconnect, i) < m <= DownAt(plan, batches, hasReconnect, i)
  }

  lemma {:induction false} LiveWhileQuiet(t: seq<Event>, a: nat, b: nat)
    requires a <= b <= |t| && forall j | a <= j < b :: Quiet(t[j])
    ensures Live(t[..b]) == Live(t[..a])
  {
    if a < b {
      LiveWhileQuiet(t, a, b - 1);
      LiveAfter(t, b - 1);
    }
  }

  lemma LiveAfter(t: seq<Event>, k: nat)
    requires k < |t|
    ensures Live(t[..k + 1]) == match t[k] case Publish(id) => Some(id) case Down => None case _ => Live(t[..k])
  {
    assert t[..k + 1] == t[..k] + [t[k]];
    LiveStep(t[..k], t[k]);
  }

  /** From t on, a session is quiet but for the one place where it publishes its connection. */
  predicate IsSession(s: seq<Event>, t: seq<Event>, id: nat, up: bool, published: nat) {
    && t <= s && (up ==> |t| <= published < |s| && s[published] == Publish(id))
    && forall j | |t| <= j < |s| && !(up && j == published) :: Quiet(s[j])
  }

  lemma SessionShape(t: seq<Event>, batches: seq<seq<string>>, id: nat, hasReconnect: bool, outcome: Outcome)
    ensures IsSession(SessionFrom(t, batches, id, hasReconnect, outcome), t, id, ComesUp(outcome, |batches|),
                      |t| + 1 + |batches|)
  {
    var subs := Subscriptions(batches, if ComesUp(outcome, |batches|) then |batches|
                                       else if outcome.DialFails? then 0 else outcome.k);
    assert forall j | 0 <= j < |subs| :: subs[j].Send?;
  }

  /** A session s from t on, its Down, and at most a pause after it. */
  predicate IsTurn(turn: seq<Event>, s: seq<Event>, t: seq<Event>, id: nat, up: bool, published: nat) {
    && IsSession(s, t, id, up, published) && s < turn && turn[|s|] == Down
    && |turn| <= |s| + 2 && (|turn| == |s| + 2 ==> Quiet(turn[|s| + 1]))
  }

  lemma TurnShape(t: seq<Event>, plan: seq<Attempt>, batches: seq<seq<string>>, hasReconnect: bool, i: nat)
    requires i < |plan|
    ensures IsTurn(TurnFrom(t, plan, batches, hasReconnect, i),
                   SessionFrom(t, batches, i, hasReconnect, plan[i].outcome),
                   t, i, ComesUp(plan[i].outcome, |batches|), |t| + 1 + |batches|)
  {
    SessionShape(t, batches, i, hasReconnect, plan[i].outcome);
  }

  lemma LiveDuringTurn(turn: seq<Event>, s: seq<Event>, t: seq<Event>, id: nat, up: bool, published: nat, m: nat)
    requires IsTurn(turn, s, t, id, up, published) && Live(t) == None && |t| <= m <= |turn|
    ensures Live(turn[..m]) == if up && published < m <= |s| then Some(id) else None
  {
    assert turn[..|t|] == t;
    assert forall j | 0 <= j < |s| :: turn[j] == s[j];
    if m <= |s| {
      if up && published < m {
        LiveAfter(turn, published);
        LiveWhileQuiet(turn, published + 1, m);
      } else {
        LiveWhileQuiet(turn, |t|, m);
      }
    } else {
      LiveAfter(turn, |s|);
      LiveWhileQuiet(turn, |s| + 1, m);
    }
  }

  /** A run cut into its turns: what has happened before each, and up to the end of each session. */
  datatype Cut = Cut(before: nat -> seq<Event>, session: nat -> seq<Event>, up: nat -> bool, published: nat -> nat)

  predicate TurnAt(c: Cut, i: nat) {
    IsTurn(c.before(i + 1), c.session(i), c.before(i), i, c.up(i), c.published(i))
  }

  ghost predicate IsCut(c: Cut, n: nat) {
    c.before(0) == [] && forall i: nat | i < n :: TurnAt(c, i)
  }

  predicate LiveInCut(c: Cut, i: nat, m: nat) {
    c.up(i) && c.published(i) < m <= |c.session(i)|
  }

  /** Between two sessions nothing is live, and sessions follow one another. */
  lemma {:induction false} TurnsFollow(c: Cut, i: nat, n: nat)
    requires IsCut(c, n) && i <= n
    ensures Live(c.before(n)) == None && c.before(i) <= c.before(n)
    ensures i < n ==> |c.session(i)| < |c.before(n)|
  {
    if n > 0 {
      assert TurnAt(c, n - 1);
      TurnsFollow(c, if i < n then i else n - 1, n - 1);
      var turn := c.before(n);
      LiveDuringTurn(turn, c.session(n - 1), c.before(n - 1), n - 1, c.up(n - 1), c.published(n - 1), |turn|);
      assert turn[..|turn|] == turn;
    }
  }

  /** In every prefix a session is the live one exactly from its Publish to its Down. */
  lemma {:induction false} LiveIsInCut(c: Cut, n: nat, i: nat, m: nat)
    requires IsCut(c, n) && i < n && m <= |c.before(n)|
    requires forall k: nat | k < n && c.up(k) :: |c.before(k)| <= c.published(k)
    ensures var live := Live(c.before(n)[..m]);
            (live == Some(i) <==> LiveInCut(c, i, m)) && (live.Some? ==> live.value < n)
  {
    var t, turn := c.before(n - 1), c.before(n);
    assert TurnAt(c, n - 1);
    TurnsFollow(c, n - 1, n - 1);
    if m < |t| {
      assert turn[..m] == t[..m];
      LiveIsInCut(c, n - 1, if i < n - 1 then i else 0, m);
    } else {
      LiveDuringTurn(turn, c.session(n - 1), t, n - 1, c.up(n - 1), c.published(n - 1), m);
      TurnsFollow(c, i, n - 1);
    }
  }

  function CutOf(plan: seq<Attempt>, batches: seq<seq<string>>, hasReconnect: bool): Cut {
    Cut((i: nat) => if i <= |plan| then Trace([], plan, batches, hasReconnect, i) else [],
        (i: nat) => if i < |plan| then SessionFrom(Trace([], plan, batches, hasReconnect, i), batches, i, hasReconnect,
                                                   plan[i].outcome) else [],
        (i: nat) => i < |plan| && ComesUp(plan[i].outcome, |batches|),
        (i: nat) => if i < |plan| then PublishedAt(plan, batches, hasReconnect, i) else 0)
  }

  lemma CutBefore(plan: seq<Attempt>, batches: seq<seq<string>>, hasReconnect: bool, i: nat)
    requires i <= |plan|
    ensures CutOf(plan, batches, hasReconnect).before(i) == Trace([], plan, batches, hasReconnect, i)
  {
  }

  lemma CutSession(plan: seq<Attempt>, batches: seq<seq<string>>, hasReconnect: bool, i: nat, t: seq<Event>)
    requires i < |plan| && t == Trace([], plan, batches, hasReconnect, i)
    ensures var c := CutOf(plan, batches, hasReconnect);
            && c.session(i) == SessionFrom(t, batches, i, hasReconnect, plan[i].outcome)
            && c.up(i) == ComesUp(plan[i].outcome, |batches|) && c.published(i) == |t| + 1 + |batches|
  {
  }

  lemma TraceTurn(plan: seq<Attempt>, batches: seq<seq<string>>, hasReconnect: bool, i: nat, t: seq<Event>)
    requires i < |plan| && t == Trace([], plan, batches, hasReconnect, i)
    ensures Trace([], plan, batches, hasReconnect, i + 1) == TurnFrom(t, plan, batches, hasReconnect, i)
  {
  }

  lemma RunHasTurn(plan: seq<Attempt>, batches: seq<seq<string>>, hasReconnect: bool, i: nat)
    requires i < |plan|
    ensures TurnAt(CutOf(plan, batches, hasReconnect), i)
  {
    var t := Trace([], plan, batches, hasReconnect, i);
    CutBefore(plan, batches, hasReconnect, i);
    CutBefore(plan, batches, hasReconnect, i + 1);
    CutSession(plan, batches, hasReconnect, i, t);
    TraceTurn(plan, batches, hasReconnect, i, t);
    TurnShape(t, plan, batches, hasReconnect, i);
    TurnFound(CutOf(plan, batches, hasReconnect), i, TurnFrom(t, plan, batches, hasReconnect, i),
              SessionFrom(t, batches, i, hasReconnect, plan[i].outcome), t, ComesUp(plan[i].outcome, |batches|),
              |t| + 1 + |batches|);
  }

  lemma TurnFound(c: Cut, i: nat, turn: seq<Event>, s: seq<Event>, t: seq<Event>, up: bool, published: nat)
    requires IsTurn(turn, s, t, i, up, published)
    requires c.before(i + 1) == turn && c.session(i) == s && c.before(i) == t
    requires c.up(i) == up && c.published(i) == published
    ensures TurnAt(c, i)
  {
  }

  lemma RunIsCut(plan: seq<Attempt>, batches: seq<seq<string>>, hasReconnect: bool)
    ensures IsCut(CutOf(plan, batches, hasReconnect), |plan|)
  {
    forall i: nat | i < |plan| ensures TurnAt(CutOf(plan, batches, hasReconnect), i) {
      RunHasTurn(plan, batches, hasReconnect, i);
    }
  }

  /** In every prefix of every run at most one session is live, from its Publish to its Down, and it is the live one. */
  lemma LiveSession(plan: seq<Attempt>, batches: seq<seq<string>>, hasReconnect: bool, n: nat, i: nat, m: nat)
    requires i < n <= |plan| && m <= |Trace([], plan, batches, hasReconnect, n)|
    ensures var live := Live(Trace([], plan, batches, hasReconnect, n)[..m]);
            (live == Some(i) <==> IsLiveAt(plan, batches, hasReconnect, i, m)) && (live.Some? ==> live.value < n)
  {
    var c := CutOf(plan, batches, hasReconnect);
    RunIsCut(plan, batches, hasReconnect);
    LiveIsInCut(c, n, i, m);
  }

  // ----- Every call of every run -----

  lemma {:induction false} EventsGrow(items: seq<Item>, p: nat)
    requires p <= |items|
    ensures EventsOf(items[..p]) <= EventsOf(items)
  {
    if p < |items| {
      EventsGrow(items[..|items| - 1], p);
      assert items[..|items| - 1][..p] == items[..p];
    } else {
      assert items[..p] == items;
    }
  }

  /**
   * In every interleaving of calls with a run, a call made at position p writes to the connection of session i exactly
   * when session i is live there: after its Publish and before its Down.
   */
  lemma CallsReachTheLiveSession(plan: seq<Attempt>, batches: seq<seq<string>>, hasReconnect: bool, n: nat,
                                 items: seq<Item>, p: nat, i: nat)
    requires i < n <= |plan| && EventsOf(items) == Trace([], plan, batches, hasReconnect, n)
    requires p < |items| && items[p].Calls?
    ensures var to := Live(EventsOf(items[..p]));
            && Writes(items[..p + 1]) == Writes(items[..p]) + [Written(to, items[p].message)]
            && (to == Some(i) <==> IsLiveAt(plan, batches, hasReconnect, i, |EventsOf(items[..p])|))
            && (to.Some? ==> to.value < n)
  {
    var m := |EventsOf(items[..p])|;
    EventsGrow(items, p);
    assert EventsOf(items[..p]) == Trace([], plan, batches, hasReconnect, n)[..m];
    assert items[..p + 1][..p] == items[..p];
    LiveSession(plan, batches, hasReconnect, n, i, m);
  }

  /** And it is dropped exactly when no session is live there. */
  lemma OtherCallsAreDropped(plan: seq<Attempt>, batches: seq<seq<string>>, hasReconnect: bool, n: nat,
                             items: seq<Item>, p: nat)
    requires 0 < n <= |plan| && EventsOf(items) == Trace([], plan, batches, hasReconnect, n)
    requires p < |items| && items[p].Calls?
    ensures Live(EventsOf(items[..p])) == None <==>
            forall i | 0 <= i < n :: !IsLiveAt(plan, batches, hasReconnect, i, |EventsOf(items[..p])|)
  {
    var to := Live(EventsOf(items[..p]));
    forall i | 0 <= i < n ensures to == Some(i) <==> IsLiveAt(plan, batches, hasReconnect, i, |EventsOf(items[..p])|) {
      CallsReachTheLiveSession(plan, batches, hasReconnect, n, items, p, i);
    }
    CallsReachTheLiveSession(plan, batches, hasReconnect, n, items, p, 0);
  }
}
