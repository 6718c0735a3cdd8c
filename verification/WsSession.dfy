/** The reconnecting session loop of polymarket/wsconn.go with the callbacks of MarketWS in polymarket/ws.go. */
module WsSession {
  import opened Crypto

  // ----- Subscription batches -----

  const BATCH_SIZE := 100

  function Concat<T>(parts: seq<seq<T>>): seq<T> {
    if parts == [] then [] else Concat(parts[..|parts| - 1]) + parts[|parts| - 1]
  }

  /** Full batches, then at most one shorter one, none of them empty. */
  predicate AreBatches<T>(batches: seq<seq<T>>, size: nat) {
    forall i | 0 <= i < |batches| :: 0 < |batches[i]| <= size && (i < |batches| - 1 ==> |batches[i]| == size)
  }

  /** batchStrings */
  method BatchStrings<T>(s: seq<T>, size: nat) returns (batches: seq<seq<T>>)
    requires size > 0
    ensures Concat(batches) == s && AreBatches(batches, size)
  {
    batches := [];
    var i := 0;
    while i < |s|
      invariant AreBatches(batches, size)
      invariant if i < |s| then Concat(batches) == s[..i] && forall j | 0 <= j < |batches| :: |batches[j]| == size
                else Concat(batches) == s
    {
      var end := i + size;
      if end > |s| {
        end := |s|;
      }
      assert (batches + [s[i..end]])[..|batches|] == batches;
      assert s[..i] + s[i..end] == s[..end];
      batches := batches + [s[i..end]];
      i := i + size;
    }
    assert s[..|s|] == s;
  }

  /** Batches are determined by the list and the size. */
  lemma {:induction false} BatchesAreUnique<T>(a: seq<seq<T>>, b: seq<seq<T>>, size: nat)
    requires AreBatches(a, size) && AreBatches(b, size) && Concat(a) == Concat(b)
    ensures a == b
  {
    if a == [] || b == [] {
      BatchesEmpty(a);
      BatchesEmpty(b);
    } else {
      HeadBatch(a, size);
      HeadBatch(b, size);
      BatchesAreUnique(a[1..], b[1..], size);
      assert a == [a[0]] + a[1..] && b == [b[0]] + b[1..];
    }
  }

  lemma BatchesEmpty<T>(a: seq<seq<T>>)
    ensures a != [] && |a[|a| - 1]| > 0 ==> Concat(a) != []
  {
  }

  lemma {:induction false} ConcatHead<T>(a: seq<seq<T>>)
    requires a != []
    ensures Concat(a) == a[0] + Concat(a[1..])
  {
    var n := |a| - 1;
    if n > 0 {
      ConcatHead(a[..n]);
      assert a[..n][1..] == a[1..][..n - 1];
      assert a[1..][n - 1] == a[n];
    }
  }

  lemma HeadBatch<T>(a: seq<seq<T>>, size: nat)
    requires AreBatches(a, size) && a != []
    ensures var s := Concat(a);
            && a[0] == s[..if |s| < size then |s| else size]
            && Concat(a[1..]) == s[if |s| < size then |s| else size..]
            && AreBatches(a[1..], size)
  {
    ConcatHead(a);
    if |a| == 1 {
      assert a[1..] == [];
    } else {
      assert |a[0]| == size;
    }
  }

  // ----- What happens to a connection -----

  /** A subscription message: its tokens and its operation, "" in the first one. */
  datatype Message = Message(tokens: seq<string>, operation: string)

  /** Publish is the moment a connection becomes the one other goroutines write to. */
  datatype Event = Dial | Send(message: Message) | Publish(id: nat) | Up | Reconnect | Down | Wait(seconds: nat)

  /** How one session goes: it may fail to dial, fail to write message number k, or come up. */
  datatype Outcome = DialFails | WriteFails(k: nat) | Runs

  /** Where the context is cancelled after a session, if at all. */
  datatype Gap = CancelledBeforeWait | CancelledInWait | Waited

  datatype Attempt = Attempt(outcome: Outcome, gap: Gap)

  predicate ComesUp(outcome: Outcome, batches: nat) {
    outcome.Runs? || (outcome.WriteFails? && outcome.k >= batches)
  }

  /** The subscription messages for the first n batches. */
  function Subscriptions(batches: seq<seq<string>>, n: nat): seq<Event>
    requires n <= |batches|
  {
    seq(n, i requires 0 <= i < n => Send(Message(batches[i], if i == 0 then "" else "subscribe")))
  }

  /** The trace t with the events of session id, up to its end. */
  function SessionFrom(t: seq<Event>, batches: seq<seq<string>>, id: nat, hasReconnect: bool,
                       outcome: Outcome): seq<Event> {
    if ComesUp(outcome, |batches|) then
      var up := t + [Dial] + Subscriptions(batches, |batches|) + [Publish(id)] + [Up];
      if id != 0 && hasReconnect then up + [Reconnect] else up
    else if outcome.DialFails? then t + [Dial]
    else t + [Dial] + Subscriptions(batches, outcome.k)
  }

  /** The connection published last, unless its session has gone down since. */
  function Live(t: seq<Event>): Option<nat> {
    if t == [] then None
    else
      match t[|t| - 1]
      case Publish(id) => Some(id)
      case Down => None
      case _ => Live(t[..|t| - 1])
  }

  function Pow2(n: nat): nat {
    if n == 0 then 1 else 2 * Pow2(n - 1)
  }

  function Min(a: nat, b: nat): nat {
    if a < b then a else b
  }

  /** Consecutive sessions up to i that did not come up, since the last that did, or since the first session. */
  function Streak(plan: seq<Attempt>, batches: nat, i: nat): nat
    requires i < |plan|
  {
    if i == 0 || ComesUp(plan[i].outcome, batches) then 0 else Streak(plan, batches, i - 1) + 1
  }

  /** The pause after session i, in seconds. */
  function Delay(plan: seq<Attempt>, batches: nat, i: nat): nat
    requires i < |plan|
  {
    Min(Pow2(Streak(plan, batches, i)), 30)
  }

  /** The trace t with everything from the start of session i to the start of the next. */
  function TurnFrom(t: seq<Event>, plan: seq<Attempt>, batches: seq<seq<string>>, hasReconnect: bool,
                    i: nat): seq<Event>
    requires i < |plan|
  {
    var down := SessionFrom(t, batches, i, hasReconnect, plan[i].outcome) + [Down];
    if plan[i].gap.CancelledBeforeWait? then down else down + [Wait(Delay(plan, |batches|, i))]
  }

  /** The trace t with the events of the first n sessions. */
  function Trace(t: seq<Event>, plan: seq<Attempt>, batches: seq<seq<string>>, hasReconnect: bool, n: nat): seq<Event>
    requires n <= |plan|
  {
    if n == 0 then t else TurnFrom(Trace(t, plan, batches, hasReconnect, n - 1), plan, batches, hasReconnect, n - 1)
  }

  /** A turn ends with the session down, and with the pause unless the context is cancelled before it. */
  predicate EndsTurn(t: seq<Event>, gap: Gap, pause: nat) {
    if gap.CancelledBeforeWait? then [Down] == t[if |t| > 1 then |t| - 1 else 0..]
    else |t| > 1 && t[|t| - 2..] == [Down, Wait(pause)]
  }

  predicate AllWaited(plan: seq<Attempt>, n: int) {
    forall i | 0 <= i < n && i < |plan| :: plan[i].gap.Waited?
  }

  /** Sessions start until one is followed by a cancellation, or the loop finds the context cancelled at its top. */
  predicate SessionsRun(plan: seq<Attempt>, n: nat) {
    && n <= |plan| && AllWaited(plan, n - 1)
    && (n < |plan| ==> n > 0 && !plan[n - 1].gap.Waited?)
  }

  /** The backoff the loop holds before session i. */
  function NextBackoff(plan: seq<Attempt>, batches: nat, i: nat): nat
    requires i <= |plan|
  {
    if i == 0 then 1 else Min(2 * Delay(plan, batches, i - 1), 30)
  }

  /** After session n either the run ends, or all have waited so far. */
  lemma EndsOrWaits(plan: seq<Attempt>, n: nat)
    requires n < |plan| && AllWaited(plan, n)
    ensures if plan[n].gap.Waited? then AllWaited(plan, n + 1) else SessionsRun(plan, n + 1)
  {
  }

  lemma DelayRecurs(plan: seq<Attempt>, batches: nat, i: nat)
    requires i < |plan|
    ensures Delay(plan, batches, i) == if ComesUp(plan[i].outcome, batches) then 1 else NextBackoff(plan, batches, i)
  {
  }

  lemma LiveStep(t: seq<Event>, e: Event)
    ensures Live(t + [e]) == match e case Publish(id) => Some(id) case Down => None case _ => Live(t)
  {
    assert (t + [e])[..|t + [e]| - 1] == t;
  }

  lemma SendNext(start: seq<Event>, t: seq<Event>, batches: seq<seq<string>>, i: nat)
    requires i < |batches| && t == start + Subscriptions(batches, i)
    ensures var e := Send(Message(batches[i], if i == 0 then "" else "subscribe"));
            t + [e] == start + Subscriptions(batches, i + 1) && Live(t + [e]) == Live(t)
  {
    var e := Send(Message(batches[i], if i == 0 then "" else "subscribe"));
    assert Subscriptions(batches, i + 1) == Subscriptions(batches, i) + [e];
    LiveStep(t, e);
  }

  lemma LiveUp(t: seq<Event>)
    ensures Live(t + [Up]) == Live(t) && Live(t + [Up] + [Reconnect]) == Live(t)
  {
    LiveStep(t, Up);
    LiveStep(t + [Up], Reconnect);
  }

  /** Until a connection is published, its messages change nothing for other goroutines. */
  lemma {:induction false} LiveSubscriptions(t: seq<Event>, batches: seq<seq<string>>, n: nat)
    requires n <= |batches|
    ensures Live(t + Subscriptions(batches, n)) == Live(t)
    ensures forall id: nat :: Live(t + Subscriptions(batches, n) + [Publish(id)]) == Some(id)
  {
    var es := t + Subscriptions(batches, n);
    forall id: nat ensures Live(es + [Publish(id)]) == Some(id) {
      LiveStep(es, Publish(id));
    }
    if n == 0 {
      assert es == t;
    } else {
      assert es == t + Subscriptions(batches, n - 1) + [Subscriptions(batches, n)[n - 1]];
      LiveStep(t + Subscriptions(batches, n - 1), Subscriptions(batches, n)[n - 1]);
      LiveSubscriptions(t, batches, n - 1);
    }
  }

  /** A run in terms of the trace and the backoff before each of its sessions. */
  datatype Course = Course(trace: nat -> seq<Event>, backoff: nat -> nat)

  predicate StepsAt(c: Course, plan: seq<Attempt>, batches: seq<seq<string>>, hasReconnect: bool, i: nat)
    requires i < |plan|
  {
    && c.trace(i + 1) == TurnFrom(c.trace(i), plan, batches, hasReconnect, i)
    && c.backoff(i) == NextBackoff(plan, |batches|, i) && c.backoff(i + 1) == NextBackoff(plan, |batches|, i + 1)
  }

  ghost predicate IsCourse(c: Course, plan: seq<Attempt>, batches: seq<seq<string>>, hasReconnect: bool) {
    forall i | 0 <= i < |plan| :: StepsAt(c, plan, batches, hasReconnect, i)
  }

  lemma CourseGoesOn(c: Course, plan: seq<Attempt>, batches: seq<seq<string>>, hasReconnect: bool, i: nat)
    requires IsCourse(c, plan, batches, hasReconnect) && i < |plan|
    ensures c.trace(i + 1) == TurnFrom(c.trace(i), plan, batches, hasReconnect, i)
    ensures c.backoff(i) == NextBackoff(plan, |batches|, i)
    ensures c.backoff(i + 1) == Min(Delay(plan, |batches|, i) * 2, 30)
  {
    assert StepsAt(c, plan, batches, hasReconnect, i);
  }

  function CourseOf(t: seq<Event>, plan: seq<Attempt>, batches: seq<seq<string>>, hasReconnect: bool): Course {
    Course((i: nat) => if i <= |plan| then Trace(t, plan, batches, hasReconnect, i) else [],
           (i: nat) => if i <= |plan| then NextBackoff(plan, |batches|, i) else 0)
  }

  lemma CourseIsOne(t: seq<Event>, plan: seq<Attempt>, batches: seq<seq<string>>, hasReconnect: bool)
    ensures var c := CourseOf(t, plan, batches, hasReconnect);
            IsCourse(c, plan, batches, hasReconnect) && c.trace(0) == t && c.backoff(0) == 1
  {
  }

  /** The websocket client: the connection other goroutines write to, and a record of everything observable. */
  class MarketWS {
    const tokenIDs: seq<string>
    const hasReconnect: bool
    var conn: Option<nat>
    var connected: bool
    ghost var trace: seq<Event>

    /** The fields say what the trace says. */
    ghost predicate Synced()
      reads this
    {
      conn == Live(trace) && connected == conn.Some?
    }

    constructor (tokenIDs: seq<string>, hasReconnect: bool)
      ensures this.tokenIDs == tokenIDs && this.hasReconnect == hasReconnect
      ensures Synced() && conn == None && trace == []
    {
      this.tokenIDs, this.hasReconnect := tokenIDs, hasReconnect;
      conn, connected, trace := None, false, [];
    }

    /**
     * SubscribeTokens and UnsubscribeTokens, called by any goroutine at any moment of a run: the message goes to the
     * connection that is live then, and nowhere when there is none.
     */
    method WriteTokens() returns (to: Option<nat>)
      requires Synced()
      ensures to == Live(trace)
    {
      if conn.None? {
        return None;
      }
      to := conn;
    }

    /** One subscription message: only the first has no operation. */
    method SendBatch(batches: seq<seq<string>>, i: nat, ghost start: seq<Event>)
      requires i < |batches| && Synced() && trace == start + Subscriptions(batches, i)
      modifies this
      ensures Synced() && trace == start + Subscriptions(batches, i + 1)
    {
      var message := Message(batches[i], if i > 0 then "subscribe" else "");
      SendNext(start, trace, batches, i);
      trace := trace + [Send(message)];
    }

    /** The onConnect callback: all batches are written before the connection is published. */
    method OnConnect(batches: seq<seq<string>>, id: nat, outcome: Outcome) returns (ok: bool)
      requires Synced() && !outcome.DialFails?
      modifies this
      ensures Synced() && ok == ComesUp(outcome, |batches|)
      ensures trace == if ok then old(trace) + Subscriptions(batches, |batches|) + [Publish(id)]
                       else old(trace) + Subscriptions(batches, outcome.k)
    {
      var i := 0;
      while i < |batches|
        invariant 0 <= i <= |batches| && (outcome.WriteFails? ==> i <= outcome.k)
        invariant Synced() && trace == old(trace) + Subscriptions(batches, i)
      {
        if outcome == WriteFails(i) {
          return false;
        }
        SendBatch(batches, i, old(trace));
        i := i + 1;
      }
      SetConn(id);
      ok := true;
    }

    /** The locked assignment that publishes a connection, and the flag that goes with it. */
    method SetConn(id: nat)
      modifies this
      ensures Synced() && conn == Some(id) && trace == old(trace) + [Publish(id)]
    {
      LiveStep(trace, Publish(id));
      conn := Some(id);
      connected := true;
      trace := trace + [Publish(id)];
    }

    /** The onDown callback. */
    method OnDown()
      modifies this
      ensures Synced() && conn == None && trace == old(trace) + [Down]
    {
      LiveStep(trace, Down);
      conn := None;
      connected := false;
      trace := trace + [Down];
    }

    /** wsSession: coming up resets the backoff, and the connection stays published until onDown. */
    method Session(batches: seq<seq<string>>, id: nat, firstConnect: bool, backoff: nat,
                   outcome: Outcome) returns (backoff': nat)
      requires Synced() && conn == None && firstConnect == (id == 0)
      modifies this
      ensures Synced() && conn == if ComesUp(outcome, |batches|) then Some(id) else None
      ensures trace == SessionFrom(old(trace), batches, id, hasReconnect, outcome)
      ensures backoff' == if ComesUp(outcome, |batches|) then 1 else backoff
    {
      backoff' := backoff;
      LiveStep(trace, Dial);
      trace := trace + [Dial];
      if outcome.DialFails? {
        return;
      }
      LiveSubscriptions(trace, batches, if ComesUp(outcome, |batches|) then |batches| else outcome.k);
      var ok := OnConnect(batches, id, outcome);
      if !ok {
        return;
      }
      backoff' := 1;
      LiveUp(trace);
      trace := trace + [Up];
      if !firstConnect && hasReconnect {
        trace := trace + [Reconnect];
      }
    }

    /** A session and onDown: the pause that follows it, unless cancelled before. */
    method SessionThenDown(plan: seq<Attempt>, batches: seq<seq<string>>, i: nat, firstConnect: bool,
                           backoff: nat) returns (delay: nat)
      requires i < |plan| && firstConnect == (i == 0) && backoff == NextBackoff(plan, |batches|, i)
      requires Synced() && conn == None
      modifies this
      ensures Synced() && conn == None
      ensures delay == Delay(plan, |batches|, i)
      ensures delay == if ComesUp(plan[i].outcome, |batches|) then 1 else backoff
      ensures trace == TurnFrom(old(trace), plan, batches, hasReconnect, i)
      ensures EndsTurn(trace, plan[i].gap, delay)
    {
      DelayRecurs(plan, |batches|, i);
      delay := Session(batches, i, firstConnect, backoff, plan[i].outcome);
      OnDown();
      if !plan[i].gap.CancelledBeforeWait? {
        LiveStep(trace, Wait(delay));
        trace := trace + [Wait(delay)];
      }
    }

    /** One turn of wsLoop after the check at its top. */
    method Turn(plan: seq<Attempt>, batches: seq<seq<string>>, i: nat, firstConnect: bool, backoff: nat,
                ghost run: Course)
        returns (stop: bool, backoff': nat)
      requires i < |plan| && firstConnect == (i == 0) && AllWaited(plan, i)
      requires IsCourse(run, plan, batches, hasReconnect) && trace == run.trace(i) && backoff == run.backoff(i)
      requires Synced() && conn == None
      modifies this
      ensures Synced() && conn == None
      ensures trace == run.trace(i + 1)
      ensures stop ==> SessionsRun(plan, i + 1)
      ensures !stop ==> AllWaited(plan, i + 1) && backoff' == run.backoff(i + 1)
      ensures var pause := if ComesUp(plan[i].outcome, |batches|) then 1 else backoff;
              EndsTurn(trace, plan[i].gap, pause) && (!stop ==> backoff' == if 2 * pause < 30 then 2 * pause else 30)
    {
      EndsOrWaits(plan, i);
      CourseGoesOn(run, plan, batches, hasReconnect, i);
      backoff' := SessionThenDown(plan, batches, i, firstConnect, backoff);
      stop := !plan[i].gap.Waited?;
      if !stop {
        backoff' := Min(backoff' * 2, 30);
      }
    }

    /** wsLoop with the callbacks of MarketWS, for any way its sessions and its context may go. */
    method Loop(plan: seq<Attempt>, batches: seq<seq<string>>, ghost run: Course) returns (ghost n: nat)
      requires Synced() && conn == None
      requires IsCourse(run, plan, batches, hasReconnect) && trace == run.trace(0) && run.backoff(0) == 1
      modifies this
      ensures Synced() && conn == None && !connected
      ensures SessionsRun(plan, n) && trace == run.trace(n)
    {
      var backoff, firstConnect, stop, i := 1, true, false, 0;
      n := 0;
      while i < |plan|
        invariant 0 <= i <= |plan| && n == i && Synced() && conn == None
        invariant firstConnect == (i == 0)
        invariant AllWaited(plan, i) && backoff == run.backoff(i) && trace == run.trace(i)
      {
        stop, backoff := Turn(plan, batches, i, firstConnect, backoff, run);
        firstConnect := false;
        i := i + 1;
        n := i;
        if stop {
          return;
        }
      }
    }

    /** MarketWS.Run */
    method Run(plan: seq<Attempt>) returns (ghost n: nat, ghost batches: seq<seq<string>>)
      requires Synced() && conn == None
      modifies this
      ensures Synced() && conn == None && !connected
      ensures Concat(batches) == tokenIDs && AreBatches(batches, 100)
      ensures SessionsRun(plan, n) && trace == Trace(old(trace), plan, batches, hasReconnect, n)
      ensures old(trace) == [] ==> RunSeen(ObserveAll(hasReconnect, START, trace), plan, batches, n)
    {
      var bs := BatchStrings(tokenIDs, BATCH_SIZE);
      batches := bs;
      ghost var run := CourseOf(trace, plan, bs, hasReconnect);
      CourseIsOne(trace, plan, bs, hasReconnect);
      n := Loop(plan, bs, run);
      EveryRunIsAccepted(plan, bs, hasReconnect, n);
    }
  }

  // ----- What every run looks like -----

  /** Sessions up to i that failed in a row. */
  function FailuresInRow(plan: seq<Attempt>, batches: nat, i: nat): nat
    requires i < |plan|
  {
    if ComesUp(plan[i].outcome, batches) then 0 else if i == 0 then 1 else FailuresInRow(plan, batches, i - 1) + 1
  }

  /** The first failure of a run is not counted as one: it is followed by the pause of a session that came up. */
  lemma {:induction false} StreakIsFailures(plan: seq<Attempt>, batches: nat, i: nat)
    requires i < |plan|
    ensures FailuresInRow(plan, batches, i) <= i + 1
    ensures var failures := FailuresInRow(plan, batches, i);
            Streak(plan, batches, i) == if failures == i + 1 then i else failures
  {
    if i > 0 {
      StreakIsFailures(plan, batches, i - 1);
    }
  }

  /**
   * The pause grows 1, 2, 4, 8, 16 and then stays at 30: after a session that came up from the fifth failure in a row
   * on, and from the sixth on where no session of the run has come up yet.
   */
  lemma DelaySaturates(plan: seq<Attempt>, batches: nat, i: nat)
    requires i < |plan|
    ensures var failures := FailuresInRow(plan, batches, i);
            var counted: nat := if failures == i + 1 then i else failures;
            && (Delay(plan, batches, i) == 30 <==> counted >= 5)
            && (counted < 5 ==> Delay(plan, batches, i) == Pow2(counted) <= 16)
  {
    StreakIsFailures(plan, batches, i);
    Pow2Grows(Streak(plan, batches, i));
  }

  lemma {:induction false} Pow2Grows(k: nat)
    ensures k >= 5 ==> Pow2(k) >= 32
    ensures k < 5 ==> Pow2(k) <= 16
  {
    if k > 5 {
      Pow2Grows(k - 1);
    } else {
      assert Pow2(1) == 2 && Pow2(2) == 4 && Pow2(3) == 8 && Pow2(4) == 16 && Pow2(5) == 32;
    }
  }

  function UpCount(plan: seq<Attempt>, batches: nat, n: nat): nat
    requires n <= |plan|
  {
    if n == 0 then 0 else UpCount(plan, batches, n - 1) + if ComesUp(plan[n - 1].outcome, batches) then 1 else 0
  }

  /** As long as no session has come up, all have failed. */
  lemma {:induction false} NoneUpAllFailed(plan: seq<Attempt>, batches: nat, i: nat)
    requires i < |plan|
    ensures FailuresInRow(plan, batches, i) <= i + 1
    ensures FailuresInRow(plan, batches, i) == i + 1 <==> UpCount(plan, batches, i + 1) == 0
  {
    if i > 0 {
      NoneUpAllFailed(plan, batches, i - 1);
    }
  }

  /** 1, 2, 4, 8, 16 and then 30 seconds. */
  function Pause(failures: nat): nat {
    if failures < 5 then [1, 2, 4, 8, 16][failures] else 30
  }

  /** The pause goes by the failures in a row; while no session has come up, the first of them does not count. */
  lemma DelayIsPause(plan: seq<Attempt>, batches: nat, i: nat)
    requires i < |plan|
    ensures var failures := FailuresInRow(plan, batches, i);
            && (UpCount(plan, batches, i + 1) == 0 ==> failures > 0)
            && Delay(plan, batches, i) == Pause(if UpCount(plan, batches, i + 1) == 0 then failures - 1 else failures)
  {
    NoneUpAllFailed(plan, batches, i);
    DelaySaturates(plan, batches, i);
    assert Pow2(1) == 2 && Pow2(2) == 4 && Pow2(3) == 8 && Pow2(4) == 16;
  }

  // ----- A monitor -----

  /** Before the first session, dialled and writing, published, just reported up, settled after that, down, rested. */
  datatype Phase = Fresh | Dialled | Published | JustUp | Settled | JustDown | Rested

  /**
   * A monitor that knows nothing of the loop. It follows the events one by one, counts the sessions that went down,
   * those that came up and the failures in a row, collects what is sent, and rejects what must not happen next.
   */
  datatype Monitor =
    | Monitor(phase: Phase, downs: nat, ups: nat, failures: nat, sent: seq<string>)
    | Rejected

  const START := Monitor(Fresh, 0, 0, 0, [])

  /** The failures that lengthen the pause. */
  function Counted(ups: nat, failures: nat): nat {
    if ups == 0 && failures > 0 then failures - 1 else failures
  }

  function Observe(hasReconnect: bool, m: Monitor, e: Event): Monitor {
    match m
    case Rejected => Rejected
    case Monitor(phase, downs, ups, failures, sent) =>
      match e
      case Dial =>
        if phase.Fresh? || phase.Rested? then Monitor(Dialled, downs, ups, failures, []) else Rejected
      case Send(message) =>
        if phase.Dialled? && message.operation == (if sent == [] then "" else "subscribe")
        then m.(sent := sent + message.tokens) else Rejected
      case Publish(id) => if phase.Dialled? && id == downs then m.(phase := Published) else Rejected
      case Up => if phase.Published? then m.(phase := JustUp, ups := ups + 1) else Rejected
      case Reconnect => if phase.JustUp? && downs > 0 && hasReconnect then m.(phase := Settled) else Rejected
      case Down =>
        if phase.Dialled? then m.(phase := JustDown, downs := downs + 1, failures := failures + 1)
        else if phase.Settled? || (phase.JustUp? && !(downs > 0 && hasReconnect))
        then m.(phase := JustDown, downs := downs + 1, failures := 0) else Rejected
      case Wait(seconds) =>
        if phase.JustDown? && seconds == Pause(Counted(ups, failures)) then m.(phase := Rested) else Rejected
  }

  function ObserveAll(hasReconnect: bool, m: Monitor, es: seq<Event>): Monitor {
    if es == [] then m else Observe(hasReconnect, ObserveAll(hasReconnect, m, es[..|es| - 1]), es[|es| - 1])
  }

  /** A way to observe traces, event by event. */
  ghost predicate Observes(hasReconnect: bool, seen: seq<Event> -> Monitor) {
    && seen([]) == START
    && forall t, e :: seen(t + [e]) == Observe(hasReconnect, seen(t), e)
  }

  lemma ObserveAllObserves(hasReconnect: bool)
    ensures Observes(hasReconnect, (t: seq<Event>) => ObserveAll(hasReconnect, START, t))
  {
    forall t: seq<Event>, e: Event
      ensures ObserveAll(hasReconnect, START, t + [e]) == Observe(hasReconnect, ObserveAll(hasReconnect, START, t), e)
    {
      assert (t + [e])[..|t + [e]| - 1] == t;
    }
  }

  /** A monitor that lets the next session start. */
  predicate IsReady(m: Monitor) {
    m.Monitor? && (m.phase.Fresh? || m.phase.Rested?)
  }

  lemma ObserveBatch(hasReconnect: bool, m: Monitor, batch: seq<string>, i: nat)
    requires m.Monitor? && m.phase.Dialled? && (i == 0 <==> m.sent == [])
    ensures Observe(hasReconnect, m, Send(Message(batch, if i == 0 then "" else "subscribe")))
         == m.(sent := m.sent + batch)
  {
  }

  /** Writing n batches: the tokens add up in order, and only the first message has no operation. */
  lemma {:induction false} ObserveSubscriptions(hasReconnect: bool, seen: seq<Event> -> Monitor, t: seq<Event>,
                                                batches: seq<seq<string>>, n: nat)
    requires Observes(hasReconnect, seen) && n <= |batches| && AreBatches(batches, BATCH_SIZE)
    requires seen(t).Monitor? && seen(t).phase.Dialled? && seen(t).sent == []
    ensures seen(t + Subscriptions(batches, n)) == seen(t).(sent := Concat(batches[..n]))
    ensures n > 0 ==> Concat(batches[..n]) != []
  {
    if n == 0 {
      assert t + Subscriptions(batches, 0) == t;
    } else {
      var e := Send(Message(batches[n - 1], if n - 1 == 0 then "" else "subscribe"));
      ObserveSubscriptions(hasReconnect, seen, t, batches, n - 1);
      assert t + Subscriptions(batches, n) == t + Subscriptions(batches, n - 1) + [e];
      assert batches[..n][..n - 1] == batches[..n - 1];
      ObserveBatch(hasReconnect, seen(t + Subscriptions(batches, n - 1)), batches[n - 1], n - 1);
    }
  }

  lemma ObserveDial(hasReconnect: bool, seen: seq<Event> -> Monitor, t: seq<Event>, batches: seq<seq<string>>, n: nat)
    requires Observes(hasReconnect, seen) && n <= |batches| && AreBatches(batches, BATCH_SIZE) && IsReady(seen(t))
    ensures seen(t + [Dial] + Subscriptions(batches, n)) == seen(t).(phase := Dialled, sent := Concat(batches[..n]))
  {
    ObserveSubscriptions(hasReconnect, seen, t + [Dial], batches, n);
  }

  /** The batches written in a session. */
  function BatchesWritten(outcome: Outcome, batches: nat): (k: nat)
    ensures k <= batches
  {
    match outcome
    case DialFails => 0
    case WriteFails(k) => if k < batches then k else batches
    case Runs => batches
  }

  /** A session up to its end: where it leaves the monitor. */
  function SessionEnd(m: Monitor, batches: seq<seq<string>>, hasReconnect: bool, outcome: Outcome): Monitor
    requires m.Monitor?
  {
    var up := ComesUp(outcome, |batches|);
    m.(phase := if !up then Dialled else if m.downs > 0 && hasReconnect then Settled else JustUp,
       ups := m.ups + if up then 1 else 0, sent := Concat(batches[..BatchesWritten(outcome, |batches|)]))
  }

  /** A connection is published, reported up, and reported as a reconnect unless it is the first. */
  lemma ObserveUp(hasReconnect: bool, seen: seq<Event> -> Monitor, dialled: seq<Event>, id: nat)
    requires Observes(hasReconnect, seen)
    requires seen(dialled).Monitor? && seen(dialled).phase.Dialled? && seen(dialled).downs == id
    ensures seen(dialled + [Publish(id)] + [Up]) == seen(dialled).(phase := JustUp, ups := seen(dialled).ups + 1)
    ensures id != 0 && hasReconnect ==> seen(dialled + [Publish(id)] + [Up] + [Reconnect])
                                        == seen(dialled).(phase := Settled, ups := seen(dialled).ups + 1)
  {
    assert seen(dialled + [Publish(id)]) == seen(dialled).(phase := Published);
  }

  lemma ObserveSession(hasReconnect: bool, seen: seq<Event> -> Monitor, t: seq<Event>, batches: seq<seq<string>>,
                       outcome: Outcome)
    requires Observes(hasReconnect, seen) && AreBatches(batches, BATCH_SIZE) && IsReady(seen(t))
    ensures seen(SessionFrom(t, batches, seen(t).downs, hasReconnect, outcome))
         == SessionEnd(seen(t), batches, hasReconnect, outcome)
  {
    if ComesUp(outcome, |batches|) {
      ObserveDial(hasReconnect, seen, t, batches, |batches|);
      ObserveUp(hasReconnect, seen, t + [Dial] + Subscriptions(batches, |batches|), seen(t).downs);
    } else if outcome.DialFails? {
      assert batches[..0] == [];
    } else {
      ObserveDial(hasReconnect, seen, t, batches, outcome.k);
    }
  }

  /** What the monitor has seen after n sessions of a plan. */
  predicate RunSeen(m: Monitor, plan: seq<Attempt>, batches: seq<seq<string>>, n: nat)
    requires n <= |plan|
  {
    if n == 0 then m == START else
      m == Monitor(if plan[n - 1].gap.CancelledBeforeWait? then JustDown else Rested, n, UpCount(plan, |batches|, n),
                   FailuresInRow(plan, |batches|, n - 1),
                   Concat(batches[..BatchesWritten(plan[n - 1].outcome, |batches|)]))
  }

  predicate CanGoDown(hasReconnect: bool, m: Monitor) {
    m.Monitor? && (m.phase.Dialled? || m.phase.Settled? || (m.phase.JustUp? && !(m.downs > 0 && hasReconnect)))
  }

  /** The end of a session, and the pause after it. */
  lemma ObserveEnd(hasReconnect: bool, seen: seq<Event> -> Monitor, session: seq<Event>, seconds: nat)
    requires Observes(hasReconnect, seen) && CanGoDown(hasReconnect, seen(session))
    ensures var m := seen(session);
            var failures := if m.phase.Dialled? then m.failures + 1 else 0;
            var down := Monitor(JustDown, m.downs + 1, m.ups, failures, m.sent);
            && seen(session + [Down]) == down
            && (seconds == Pause(Counted(m.ups, failures)) ==>
                  seen(session + [Down] + [Wait(seconds)]) == down.(phase := Rested))
  {
  }

  lemma ObserveTurn(hasReconnect: bool, seen: seq<Event> -> Monitor, t: seq<Event>, plan: seq<Attempt>,
                    batches: seq<seq<string>>, i: nat)
    requires Observes(hasReconnect, seen) && i < |plan| && AreBatches(batches, BATCH_SIZE) && AllWaited(plan, i)
    requires RunSeen(seen(t), plan, batches, i)
    ensures RunSeen(seen(TurnFrom(t, plan, batches, hasReconnect, i)), plan, batches, i + 1)
  {
    ObserveSession(hasReconnect, seen, t, batches, plan[i].outcome);
    DelayIsPause(plan, |batches|, i);
    ObserveEnd(hasReconnect, seen, SessionFrom(t, batches, i, hasReconnect, plan[i].outcome),
               Delay(plan, |batches|, i));
  }

  /** Turn i takes the monitor on. */
  predicate TurnSeen(seenAt: nat -> Monitor, plan: seq<Attempt>, batches: seq<seq<string>>, i: nat)
    requires i < |plan|
  {
    AllWaited(plan, i) && RunSeen(seenAt(i), plan, batches, i) ==> RunSeen(seenAt(i + 1), plan, batches, i + 1)
  }

  lemma TurnIsSeen(hasReconnect: bool, seen: seq<Event> -> Monitor, plan: seq<Attempt>, batches: seq<seq<string>>,
                   run: Course, i: nat)
    requires Observes(hasReconnect, seen) && i < |plan| && AreBatches(batches, BATCH_SIZE)
    requires IsCourse(run, plan, batches, hasReconnect)
    ensures TurnSeen((k: nat) => seen(run.trace(k)), plan, batches, i)
  {
    CourseGoesOn(run, plan, batches, hasReconnect, i);
    if AllWaited(plan, i) && RunSeen(seen(run.trace(i)), plan, batches, i) {
      ObserveTurn(hasReconnect, seen, run.trace(i), plan, batches, i);
    }
  }

  lemma {:induction false} TurnsAddUp(seenAt: nat -> Monitor, plan: seq<Attempt>, batches: seq<seq<string>>, n: nat)
    requires n <= |plan| && AllWaited(plan, n - 1) && seenAt(0) == START
    requires forall i | 0 <= i < |plan| :: TurnSeen(seenAt, plan, batches, i)
    ensures RunSeen(seenAt(n), plan, batches, n)
  {
    if n > 0 {
      TurnsAddUp(seenAt, plan, batches, n - 1);
      assert TurnSeen(seenAt, plan, batches, n - 1);
    }
  }

  lemma RunIsSeen(hasReconnect: bool, seen: seq<Event> -> Monitor, plan: seq<Attempt>, batches: seq<seq<string>>,
                  run: Course, n: nat)
    requires Observes(hasReconnect, seen) && n <= |plan| && AllWaited(plan, n - 1) && AreBatches(batches, BATCH_SIZE)
    requires IsCourse(run, plan, batches, hasReconnect) && run.trace(0) == []
    ensures RunSeen(seen(run.trace(n)), plan, batches, n)
  {
    var seenAt := (k: nat) => seen(run.trace(k));
    forall i | 0 <= i < |plan| ensures TurnSeen(seenAt, plan, batches, i) {
      TurnIsSeen(hasReconnect, seen, plan, batches, run, i);
    }
    TurnsAddUp(seenAt, plan, batches, n);
  }

  /**
   * No run is ever rejected. Each session dials once and goes down once; it is published and then comes up at most once
   * and before that, and every time but the first this is followed at once by the reconnect callback, if there is one;
   * between a session and the next there is exactly one pause, as long as the failures in a row make it; and a session
   * has sent exactly the batches written before it failed, all of them if it came up.
   */
  lemma EveryRunIsAccepted(plan: seq<Attempt>, batches: seq<seq<string>>, hasReconnect: bool, n: nat)
    requires n <= |plan| && AllWaited(plan, n - 1) && AreBatches(batches, BATCH_SIZE)
    ensures RunSeen(ObserveAll(hasReconnect, START, Trace([], plan, batches, hasReconnect, n)), plan, batches, n)
  {
    ObserveAllObserves(hasReconnect);
    CourseIsOne([], plan, batches, hasReconnect);
    RunIsSeen(hasReconnect, (t: seq<Event>) => ObserveAll(hasReconnect, START, t), plan, batches,
              CourseOf([], plan, batches, hasReconnect), n);
  }
}
