/** The reader, the one-slot touch channel and the deadman timer of polymarket/wsconn.go, in every interleaving. */
module Deadman {
  import opened Crypto

  /** A timer holds its deadline while it runs and while its tick waits to be received. */
  datatype Timer = Off | Running(deadline: nat) | Fired(deadline: nat)

  /** The reader waits for a message, or has one and has yet to touch the channel, or has left its loop. */
  datatype Reader = Reading | Touching | Gone

  /** The deadman waits in its select, works through a touch, or closes the connection. */
  datatype Watch = Waiting | Taken | Draining | Resetting | Closing | Ended

  datatype State = State(
    now: nat, timer: Timer, watch: Watch, reader: Reader, slot: bool, cancelled: bool,
    messages: nat, resets: nat, lastRead: Option<nat>, lastReset: nat, closedAt: Option<nat>)

  /** Since Go 1.23 stopping a timer also takes back a tick that nobody has received. */
  datatype Step =
    | Tick(seconds: nat) | Fire | Cancel
    | Read | Touch | Leave
    | Take | Stop | Drain | Reset | Expire | Close | Quit

  function Init(timeout: nat, now: nat): State {
    State(now, Running(now + timeout), Waiting, Reading, false, false, 0, 0, None, now, None)
  }

  predicate Enabled(s: State, step: Step) {
    match step
    case Tick(_) => true
    case Fire => s.timer.Running? && s.now >= s.timer.deadline
    case Cancel => true
    case Read => s.reader.Reading?
    case Touch => s.reader.Touching?
    case Leave => s.reader.Reading?
    case Take => s.watch.Waiting? && s.slot
    case Stop => s.watch.Taken?
    case Drain => s.watch.Draining?
    case Reset => s.watch.Resetting?
    case Expire => s.watch.Waiting? && s.timer.Fired?
    case Close => s.watch.Closing?
    case Quit => s.watch.Waiting? && s.cancelled
  }

  function Next(timeout: nat, s: State, step: Step): State
    requires Enabled(s, step)
  {
    match step
    case Tick(seconds) => s.(now := s.now + seconds)
    case Fire => s.(timer := Fired(s.timer.deadline))
    case Cancel => s.(cancelled := true)
    case Read => s.(reader := Touching, messages := s.messages + 1, lastRead := Some(s.now))
    case Touch => s.(reader := Reading, slot := true)
    case Leave => s.(reader := Gone)
    case Take => s.(watch := Taken, slot := false)
    case Stop => if s.timer.Off? then s.(watch := Draining) else s.(watch := Resetting, timer := Off)
    case Drain => s.(watch := Resetting, timer := if s.timer.Fired? then Off else s.timer)
    case Reset => s.(watch := Waiting, timer := Running(s.now + timeout), resets := s.resets + 1, lastReset := s.now)
    case Expire => s.(watch := Closing, timer := Off)
    case Close => s.(watch := Ended, closedAt := Some(s.now))
    case Quit => s.(watch := Ended, timer := Off)
  }

  /** The state a run ends in, if every one of its steps is possible. */
  function Run(timeout: nat, s: State, steps: seq<Step>): Option<State> {
    if steps == [] then Some(s)
    else
      var before := Run(timeout, s, steps[..|steps| - 1]);
      if before.None? || !Enabled(before.value, steps[|steps| - 1]) then None
      else Some(Next(timeout, before.value, steps[|steps| - 1]))
  }

  // ----- What holds in every state of every run -----

  /** Taken from the channel, but the timer is not yet reset. */
  predicate Answering(s: State) {
    s.watch.Taken? || s.watch.Draining? || s.watch.Resetting?
  }

  /** Touches on their way: in the reader's hands, in the channel, and in the deadman's hands. */
  function Pending(s: State): nat {
    (if s.reader.Touching? then 1 else 0) + (if s.slot then 1 else 0) + if Answering(s) then 1 else 0
  }

  /** The timer always stands for the last reset: no tick of an earlier deadline can ever be received. */
  predicate TimerIsCurrent(timeout: nat, s: State) {
    && s.lastReset <= s.now
    && (s.watch.Waiting? || s.watch.Taken? ==> !s.timer.Off? && s.timer.deadline == s.lastReset + timeout)
    && !s.watch.Draining?
    && (s.watch.Resetting? || s.watch.Closing? || s.watch.Ended? ==> s.timer.Off?)
    && (s.timer.Fired? ==> s.timer.deadline <= s.now)
  }

  /** A close comes no earlier than the timeout after the last reset. */
  predicate ClosesLate(timeout: nat, s: State) {
    && (s.watch.Closing? ==> s.lastReset + timeout <= s.now)
    && (s.closedAt.Some? ==> s.watch.Ended? && s.lastReset + timeout <= s.closedAt.value <= s.now)
  }

  /** Touches are lost only to others still on their way: a message is answered by a later reset, or will be. */
  predicate NothingLost(s: State) {
    && s.resets + Pending(s) <= s.messages
    && (s.lastRead.Some? ==> s.lastRead.value <= s.now)
    && (s.lastRead.Some? && !s.watch.Closing? && !s.watch.Ended? ==> s.lastRead.value <= s.lastReset || Pending(s) > 0)
  }

  lemma TimerStaysCurrent(timeout: nat, s: State, step: Step)
    requires Enabled(s, step) && TimerIsCurrent(timeout, s)
    ensures TimerIsCurrent(timeout, Next(timeout, s, step))
  {
  }

  lemma ClosingStaysLate(timeout: nat, s: State, step: Step)
    requires Enabled(s, step) && TimerIsCurrent(timeout, s) && ClosesLate(timeout, s)
    ensures ClosesLate(timeout, Next(timeout, s, step))
  {
  }

  lemma NothingGetsLost(timeout: nat, s: State, step: Step)
    requires Enabled(s, step) && TimerIsCurrent(timeout, s) && NothingLost(s)
    ensures NothingLost(Next(timeout, s, step))
  {
    if step.Tick? || step.Fire? || step.Cancel? || step.Leave? {
      assert Pending(Next(timeout, s, step)) == Pending(s);
    } else if step.Read? || step.Touch? {
      assert Answering(Next(timeout, s, step)) == Answering(s);
    }
  }

  lemma {:induction false} EveryStateOfEveryRun(timeout: nat, start: nat, steps: seq<Step>)
    ensures var end := Run(timeout, Init(timeout, start), steps);
            end.Some? ==> TimerIsCurrent(timeout, end.value) && ClosesLate(timeout, end.value) && NothingLost(end.value)
  {
    if steps != [] {
      var before := Run(timeout, Init(timeout, start), steps[..|steps| - 1]);
      EveryStateOfEveryRun(timeout, start, steps[..|steps| - 1]);
      if before.Some? && Enabled(before.value, steps[|steps| - 1]) {
        TimerStaysCurrent(timeout, before.value, steps[|steps| - 1]);
        ClosingStaysLate(timeout, before.value, steps[|steps| - 1]);
        NothingGetsLost(timeout, before.value, steps[|steps| - 1]);
      }
    }
  }

  /** When the deadman gives up, the last message is a whole timeout old, unless a touch is still on its way. */
  lemma ExpiresOnSilence(timeout: nat, start: nat, steps: seq<Step>, s: State)
    requires Run(timeout, Init(timeout, start), steps) == Some(s) && Enabled(s, Expire)
    ensures s.now >= s.lastReset + timeout
    ensures s.lastRead.Some? && s.now < s.lastRead.value + timeout ==> s.slot || s.reader.Touching?
  {
    EveryStateOfEveryRun(timeout, start, steps);
  }

  /** That exception is real: with the tick and a touch both ready the deadman may close right after a message. */
  lemma ATouchCanComeTooLate(timeout: nat, start: nat)
    ensures var end := Run(timeout, Init(timeout, start), [Tick(timeout), Fire, Read, Touch, Expire, Close]);
            end.Some? && end.value.closedAt == end.value.lastRead == Some(start + timeout)
  {
    var s := Init(timeout, start);
    var steps: seq<Step>, at := [], s;
    steps, at := Extend(timeout, s, steps, at, Tick(timeout));
    steps, at := Extend(timeout, s, steps, at, Fire);
    steps, at := Extend(timeout, s, steps, at, Read);
    steps, at := Extend(timeout, s, steps, at, Touch);
    steps, at := Extend(timeout, s, steps, at, Expire);
    steps, at := Extend(timeout, s, steps, at, Close);
    assert steps == [Tick(timeout), Fire, Read, Touch, Expire, Close];
  }

  /** A run and one step more. */
  lemma Extend(timeout: nat, s: State, steps: seq<Step>, at: State, step: Step)
    returns (longer: seq<Step>, after: State)
    requires Run(timeout, s, steps) == Some(at) && Enabled(at, step)
    ensures longer == steps + [step] && after == Next(timeout, at, step) && Run(timeout, s, longer) == Some(after)
  {
    longer, after := steps + [step], Next(timeout, at, step);
    assert longer[..|longer| - 1] == steps;
  }

  // ----- Exactly when it can close early -----

  ghost predicate Inv(timeout: nat, s: State) {
    TimerIsCurrent(timeout, s) && ClosesLate(timeout, s) && NothingLost(s)
  }

  /** Some continuation without a further message closes less than the timeout after the last one. */
  ghost predicate CanCloseEarly(timeout: nat, s: State) {
    exists steps :: ClosesEarly(timeout, s, steps)
  }

  predicate ClosesEarly(timeout: nat, s: State, steps: seq<Step>) {
    && Read !in steps
    && var end := Run(timeout, s, steps);
       && end.Some? && end.value.closedAt.Some? && end.value.lastRead.Some?
       && end.value.closedAt.value < end.value.lastRead.value + timeout
  }

  /** A message more recent than the last reset, or than the decision to close, and less than the timeout ago. */
  predicate IsExposed(timeout: nat, s: State) {
    && s.lastRead.Some? && s.now < s.lastRead.value + timeout
    && (s.watch.Closing? || (s.watch.Waiting? && s.lastReset < s.lastRead.value))
  }

  /** From here on no close comes before the timeout after the last message. */
  predicate IsCovered(s: State) {
    s.lastRead.Some? ==> Answering(s) || s.lastReset >= s.lastRead.value || (s.watch.Ended? && s.closedAt.None?)
  }

  /** What a continuation without messages keeps. */
  predicate Follows(timeout: nat, s: State, t: State) {
    && t.lastRead == s.lastRead && s.now <= t.now && (t.closedAt.Some? ==> s.now <= t.closedAt.value)
    && (IsCovered(s) ==> IsCovered(t))
  }

  lemma StepFollows(timeout: nat, s: State, t: State, step: Step)
    requires Inv(timeout, t) && Follows(timeout, s, t) && Enabled(t, step) && step != Read
    ensures Follows(timeout, s, Next(timeout, t, step))
  {
  }

  lemma {:induction false} RunFollows(timeout: nat, s: State, steps: seq<Step>)
    requires Inv(timeout, s) && s.closedAt.None? && Read !in steps && Run(timeout, s, steps).Some?
    ensures Inv(timeout, Run(timeout, s, steps).value) && Follows(timeout, s, Run(timeout, s, steps).value)
  {
    if steps != [] {
      var step, before := steps[|steps| - 1], Run(timeout, s, steps[..|steps| - 1]).value;
      assert step in steps;
      RunFollows(timeout, s, steps[..|steps| - 1]);
      StepFollows(timeout, s, before, step);
      TimerStaysCurrent(timeout, before, step);
      ClosingStaysLate(timeout, before, step);
      NothingGetsLost(timeout, before, step);
    }
  }

  lemma {:induction false} RunAfter(timeout: nat, s: State, step: Step, rest: seq<Step>)
    requires Enabled(s, step)
    ensures Run(timeout, s, [step] + rest) == Run(timeout, Next(timeout, s, step), rest)
  {
    if rest == [] {
      var steps, at := Extend(timeout, s, [], s, step);
      assert [step] + rest == steps;
    } else {
      assert ([step] + rest)[..|[step] + rest| - 1] == [step] + rest[..|rest| - 1];
      RunAfter(timeout, s, step, rest[..|rest| - 1]);
    }
  }

  lemma ClosesEarlyAfter(timeout: nat, s: State, step: Step)
    requires Enabled(s, step) && step != Read && CanCloseEarly(timeout, Next(timeout, s, step))
    ensures CanCloseEarly(timeout, s)
  {
    var rest :| ClosesEarly(timeout, Next(timeout, s, step), rest);
    RunAfter(timeout, s, step, rest);
    assert ClosesEarly(timeout, s, [step] + rest);
  }

  lemma ClosingCloses(timeout: nat, s: State)
    requires s.watch.Closing? && s.lastRead.Some? && s.now < s.lastRead.value + timeout
    ensures CanCloseEarly(timeout, s)
  {
    assert ClosesEarly(timeout, Next(timeout, s, Close), []);
    ClosesEarlyAfter(timeout, s, Close);
  }

  lemma FiredCloses(timeout: nat, s: State)
    requires s.watch.Waiting? && s.timer.Fired? && s.lastRead.Some? && s.now < s.lastRead.value + timeout
    ensures CanCloseEarly(timeout, s)
  {
    ClosingCloses(timeout, Next(timeout, s, Expire));
    ClosesEarlyAfter(timeout, s, Expire);
  }

  lemma DueCloses(timeout: nat, s: State)
    requires s.watch.Waiting? && s.timer.Running? && s.timer.deadline <= s.now
    requires s.lastRead.Some? && s.now < s.lastRead.value + timeout
    ensures CanCloseEarly(timeout, s)
  {
    FiredCloses(timeout, Next(timeout, s, Fire));
    ClosesEarlyAfter(timeout, s, Fire);
  }

  /** From a state that is exposed: wait for the deadline, if it is not over, and close. */
  lemma ExposedCloses(timeout: nat, s: State)
    requires Inv(timeout, s) && IsExposed(timeout, s)
    ensures CanCloseEarly(timeout, s)
  {
    if s.watch.Closing? {
      ClosingCloses(timeout, s);
    } else if s.timer.Fired? {
      FiredCloses(timeout, s);
    } else {
      var wait := Tick(if s.now < s.timer.deadline then s.timer.deadline - s.now else 0);
      DueCloses(timeout, Next(timeout, s, wait));
      ClosesEarlyAfter(timeout, s, wait);
    }
  }

  /**
   * The deadman can close less than the timeout after the last message exactly when that message is less than the
   * timeout old and either more recent than the last reset, with the deadman waiting, or too late for a close under
   * way.
   */
  lemma ClosesEarlyExactly(timeout: nat, s: State)
    requires Inv(timeout, s) && s.closedAt.None?
    ensures CanCloseEarly(timeout, s) <==> IsExposed(timeout, s)
  {
    if CanCloseEarly(timeout, s) {
      var steps :| ClosesEarly(timeout, s, steps);
      RunFollows(timeout, s, steps);
    }
    if IsExposed(timeout, s) {
      ExposedCloses(timeout, s);
    }
  }

  /** The deadman is never stuck: after a touch it can go on, and once the timeout is over it can get to close. */
  lemma DeadmanGoesOn(timeout: nat, start: nat, steps: seq<Step>, s: State)
    requires Run(timeout, Init(timeout, start), steps) == Some(s)
    ensures Answering(s) || s.watch.Closing? ==>
              exists step | step in {Stop, Drain, Reset, Close} :: Enabled(s, step)
    ensures s.watch.Waiting? && s.now >= s.lastReset + timeout ==> Enabled(s, Fire) || Enabled(s, Expire)
    ensures s.watch.Waiting? && s.now < s.lastReset + timeout ==> !Enabled(s, Fire) && !Enabled(s, Expire)
  {
    EveryStateOfEveryRun(timeout, start, steps);
    assert s.watch.Taken? ==> Enabled(s, Stop);
    assert s.watch.Draining? ==> Enabled(s, Drain);
    assert s.watch.Resetting? ==> Enabled(s, Reset);
    assert s.watch.Closing? ==> Enabled(s, Close);
  }

  // ----- After the last message -----

  /** Without new messages, every reset is paid for by a touch that was already on its way. */
  lemma {:induction false} ResetsArePaidFor(timeout: nat, s: State, steps: seq<Step>)
    requires Read !in steps && Run(timeout, s, steps).Some?
    ensures var end := Run(timeout, s, steps).value;
            end.resets + Pending(end) <= s.resets + Pending(s) && (end.reader.Touching? ==> s.reader.Touching?)
  {
    if steps != [] {
      assert steps[|steps| - 1] in steps;
      ResetsArePaidFor(timeout, s, steps[..|steps| - 1]);
    }
  }

  /**
   * After the last message at most three resets can follow, one for each place a touch can be in; once its touch is
   * delivered at most two, and at most one when the deadman is back in its select.
   */
  lemma FewResetsAfterTheLastMessage(timeout: nat, s: State, steps: seq<Step>)
    requires Read !in steps && Run(timeout, s, steps).Some?
    ensures Run(timeout, s, steps).value.resets <= s.resets + 3
    ensures !s.reader.Touching? ==> Run(timeout, s, steps).value.resets <= s.resets + 2
    ensures !s.reader.Touching? && !Answering(s) ==> Run(timeout, s, steps).value.resets <= s.resets + 1
  {
    ResetsArePaidFor(timeout, s, steps);
  }

  /** A run can have a touch in each of the three places. */
  lemma ThreeTouchesCanBePending(timeout: nat, start: nat)
    ensures var s := Run(timeout, Init(timeout, start), [Read, Touch, Take, Read, Touch, Read]);
            s.Some? && s.value.reader.Touching? && s.value.slot && s.value.watch.Taken? && s.value.timer.Running?
  {
    var s := Init(timeout, start);
    var steps: seq<Step>, at := [], s;
    steps, at := Extend(timeout, s, steps, at, Read);
    steps, at := Extend(timeout, s, steps, at, Touch);
    steps, at := Extend(timeout, s, steps, at, Take);
    steps, at := Extend(timeout, s, steps, at, Read);
    steps, at := Extend(timeout, s, steps, at, Touch);
    steps, at := Extend(timeout, s, steps, at, Read);
    assert steps == [Read, Touch, Take, Read, Touch, Read];
  }

  /** From such a state three resets can indeed follow without another message. */
  lemma ThreeResetsCanFollow(timeout: nat, s: State)
    requires s.reader.Touching? && s.slot && s.watch.Taken? && s.timer.Running?
    ensures var end := Run(timeout, s, [Stop, Reset, Take, Touch, Stop, Reset, Take, Stop, Reset]);
            end.Some? && end.value.resets == s.resets + 3
  {
    var steps: seq<Step>, at := [], s;
    steps, at := Extend(timeout, s, steps, at, Stop);
    steps, at := Extend(timeout, s, steps, at, Reset);
    steps, at := Extend(timeout, s, steps, at, Take);
    steps, at := Extend(timeout, s, steps, at, Touch);
    steps, at := Extend(timeout, s, steps, at, Stop);
    steps, at := Extend(timeout, s, steps, at, Reset);
    steps, at := Extend(timeout, s, steps, at, Take);
    steps, at := Extend(timeout, s, steps, at, Stop);
    steps, at := Extend(timeout, s, steps, at, Reset);
    assert steps == [Stop, Reset, Take, Touch, Stop, Reset, Take, Stop, Reset];
  }

  // ----- Exactly how many resets can follow -----

  /** Touches that can still become resets: none once the deadman has decided to close, or has left. */
  function Resettable(s: State): nat {
    if s.watch.Closing? || s.watch.Ended? then 0 else Pending(s)
  }

  /** The next step on the way of the touches: the deadman first, then the reader. */
  function Onward(s: State): Step
    requires Resettable(s) > 0
  {
    match s.watch
    case Taken => Stop
    case Draining => Drain
    case Resetting => Reset
    case _ => if s.slot then Take else Touch
  }

  function StepsOnward(s: State): nat {
    (if s.reader.Touching? then 8 else 0) + (if s.slot then 4 else 0)
    + if s.watch.Taken? then 2 else if s.watch.Resetting? then 1 else 0
  }

  lemma OnwardGoes(timeout: nat, s: State)
    requires TimerIsCurrent(timeout, s) && Resettable(s) > 0
    ensures Enabled(s, Onward(s)) && Onward(s) != Read
    ensures var t := Next(timeout, s, Onward(s));
            && t.resets + Resettable(t) == s.resets + Resettable(s) && StepsOnward(t) < StepsOnward(s)
  {
  }

  /** All of them do become resets in some continuation without messages. */
  lemma {:induction false} AllReset(timeout: nat, s: State) returns (steps: seq<Step>)
    requires TimerIsCurrent(timeout, s)
    ensures Read !in steps && Run(timeout, s, steps).Some?
    ensures Run(timeout, s, steps).value.resets == s.resets + Resettable(s)
    decreases StepsOnward(s)
  {
    if Resettable(s) == 0 {
      steps := [];
    } else {
      OnwardGoes(timeout, s);
      TimerStaysCurrent(timeout, s, Onward(s));
      var rest := AllReset(timeout, Next(timeout, s, Onward(s)));
      RunAfter(timeout, s, Onward(s), rest);
      steps := [Onward(s)] + rest;
    }
  }

  lemma {:induction false} NoMoreThanResettable(timeout: nat, s: State, steps: seq<Step>)
    requires Read !in steps && Run(timeout, s, steps).Some?
    ensures var t := Run(timeout, s, steps).value; t.resets + Resettable(t) <= s.resets + Resettable(s)
  {
    if steps != [] {
      assert steps[|steps| - 1] in steps;
      NoMoreThanResettable(timeout, s, steps[..|steps| - 1]);
    }
  }

  ghost predicate AtMostMoreResets(timeout: nat, s: State, k: nat) {
    forall steps | Read !in steps && Run(timeout, s, steps).Some? :: Run(timeout, s, steps).value.resets <= s.resets + k
  }

  /** After the last message at most k further resets occur, in whatever continuation, exactly when k touches can. */
  lemma MoreResetsExactly(timeout: nat, s: State, k: nat)
    requires TimerIsCurrent(timeout, s)
    ensures AtMostMoreResets(timeout, s, k) <==> Resettable(s) <= k
  {
    var steps := AllReset(timeout, s);
    forall steps | Read !in steps && Run(timeout, s, steps).Some?
      ensures Run(timeout, s, steps).value.resets <= s.resets + Resettable(s)
    {
      NoMoreThanResettable(timeout, s, steps);
    }
  }
}
