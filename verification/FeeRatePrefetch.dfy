/** PrefetchFeeRates of clob/prefetch.go: one goroutine per token behind a semaphore, counted by a wait group. */
module FeeRatePrefetch {
  import opened Crypto

  const LIMIT := 20

  /**
   * Where a goroutine is: its request, the callback, the locked counter, and its two deferred calls, last one first.
   */
  datatype Phase = Fetching | Storing | Counting | Releasing | Leaving | Done

  datatype Worker = Worker(phase: Phase, rate: Option<int>)

  /** Where the caller is in its loop over the tokens; Returned is after Wait. */
  datatype Main = AtTop | Added | Acquired | Returned

  datatype Stored = Stored(worker: nat, rate: int)

  datatype State = State(main: Main, inSemaphore: nat, inGroup: nat, workers: seq<Worker>, ok: nat, stores: seq<Stored>)

  datatype Step = Add | Acquire | Go | Wait | Reply(w: nat, rate: Option<int>) | Advance(w: nat)

  const INIT := State(AtTop, 0, 0, [], 0, [])

  /** Sending to the full semaphore blocks, and so do receiving from the empty one and waiting for a busy group. */
  predicate Enabled(n: nat, s: State, step: Step) {
    match step
    case Add => s.main.AtTop? && |s.workers| < n
    case Acquire => s.main.Added? && s.inSemaphore < LIMIT
    case Go => s.main.Acquired?
    case Wait => s.main.AtTop? && |s.workers| >= n && s.inGroup == 0
    case Reply(w, _) => w < |s.workers| && s.workers[w].phase.Fetching?
    case Advance(w) =>
      && w < |s.workers| && !s.workers[w].phase.Fetching? && !s.workers[w].phase.Done?
      && (s.workers[w].phase.Storing? ==> s.workers[w].rate.Some?)
      && (s.workers[w].phase.Releasing? ==> s.inSemaphore > 0)
      && (s.workers[w].phase.Leaving? ==> s.inGroup > 0)
  }

  function Next(n: nat, s: State, step: Step): State
    requires Enabled(n, s, step)
  {
    match step
    case Add => s.(inGroup := s.inGroup + 1, main := Added)
    case Acquire => s.(inSemaphore := s.inSemaphore + 1, main := Acquired)
    case Go => s.(workers := s.workers + [Worker(Fetching, None)], main := AtTop)
    case Wait => s.(main := Returned)
    case Reply(w, rate) => s.(workers := s.workers[w := Worker(if rate.Some? then Storing else Releasing, rate)])
    case Advance(w) =>
      var rate := s.workers[w].rate;
      match s.workers[w].phase
      case Storing => s.(workers := s.workers[w := Worker(Counting, rate)],
                         stores := s.stores + [Stored(w, rate.value)])
      case Counting => s.(workers := s.workers[w := Worker(Releasing, rate)], ok := s.ok + 1)
      case Releasing => s.(workers := s.workers[w := Worker(Leaving, rate)], inSemaphore := s.inSemaphore - 1)
      case Leaving => s.(workers := s.workers[w := Worker(Done, rate)], inGroup := s.inGroup - 1)
  }

  /** The state a run for n tokens ends in, if every one of its steps is possible. */
  function Run(n: nat, steps: seq<Step>): Option<State> {
    if steps == [] then Some(INIT)
    else
      var before := Run(n, steps[..|steps| - 1]);
      if before.None? || !Enabled(n, before.value, steps[|steps| - 1]) then None
      else Some(Next(n, before.value, steps[|steps| - 1]))
  }

  // ----- Sums over the workers -----

  function Sum(ws: seq<Worker>, weight: Worker -> nat): nat {
    if ws == [] then 0 else Sum(ws[..|ws| - 1], weight) + weight(ws[|ws| - 1])
  }

  lemma {:induction false} SumUpdate(ws: seq<Worker>, weight: Worker -> nat, i: nat, w: Worker)
    requires i < |ws|
    ensures Sum(ws[i := w], weight) == Sum(ws, weight) - weight(ws[i]) + weight(w)
    ensures weight(ws[i]) <= Sum(ws, weight)
  {
    var n := |ws| - 1;
    if i < n {
      SumUpdate(ws[..n], weight, i, w);
      assert ws[i := w][..n] == ws[..n][i := w];
    } else {
      assert ws[i := w][..n] == ws[..n];
    }
  }

  lemma SumAppend(ws: seq<Worker>, weight: Worker -> nat, w: Worker)
    ensures Sum(ws + [w], weight) == Sum(ws, weight) + weight(w)
  {
    assert (ws + [w])[..|ws + [w]| - 1] == ws;
  }

  lemma {:induction false} SumFindsOne(ws: seq<Worker>, weight: Worker -> nat) returns (i: nat)
    requires Sum(ws, weight) > 0
    ensures i < |ws| && weight(ws[i]) > 0
  {
    if weight(ws[|ws| - 1]) > 0 {
      i := |ws| - 1;
    } else {
      i := SumFindsOne(ws[..|ws| - 1], weight);
    }
  }

  lemma {:induction false} SumBelow(ws: seq<Worker>, a: Worker -> nat, b: Worker -> nat)
    requires forall w: Worker :: a(w) <= b(w)
    ensures Sum(ws, a) <= Sum(ws, b)
  {
    if ws != [] {
      SumBelow(ws[..|ws| - 1], a, b);
    }
  }

  function One(b: bool): nat {
    if b then 1 else 0
  }

  function InFlight(w: Worker): nat { One(w.phase.Fetching?) }
  function Holding(w: Worker): nat { One(!w.phase.Leaving? && !w.phase.Done?) }
  function Present(w: Worker): nat { One(!w.phase.Done?) }
  function Uncounted(w: Worker): nat { One(w.phase.Counting?) }
  function Delivered(w: Worker): nat { One(w.rate.Some? && !w.phase.Storing?) }
  function Succeeded(w: Worker): nat { One(w.rate.Some?) }

  /** The steps a goroutine still has before it. */
  function Left(w: Worker): nat {
    match w.phase
    case Fetching => 5
    case Storing => 4
    case Counting => 3
    case Releasing => 2
    case Leaving => 1
    case Done => 0
  }

  // ----- What holds in every state of every run -----

  /** The semaphore and the group hold what the goroutines hold. */
  predicate GatesCount(n: nat, s: State) {
    && |s.workers| + One(s.main.Added? || s.main.Acquired?) <= n
    && s.inSemaphore == Sum(s.workers, Holding) + One(s.main.Acquired?) <= LIMIT
    && s.inGroup == Sum(s.workers, Present) + One(s.main.Added? || s.main.Acquired?)
    && (s.main.Returned? ==> |s.workers| == n && s.inGroup == 0)
  }

  /** The counter, with those about to increase it, counts the callbacks and the deliveries. */
  predicate StoresCount(s: State) {
    s.ok + Sum(s.workers, Uncounted) == |s.stores| == Sum(s.workers, Delivered)
  }

  /** Semaphore, group and counter are what the goroutines make of them. */
  predicate Counts(n: nat, s: State) {
    GatesCount(n, s) && StoresCount(s)
  }

  predicate HasRate(w: Worker) {
    (w.phase.Storing? || w.phase.Counting? ==> w.rate.Some?) && (w.phase.Fetching? ==> w.rate.None?)
  }

  predicate IsStoreOf(s: State, k: nat)
    requires k < |s.stores|
  {
    var store := s.stores[k];
    store.worker < |s.workers| && s.workers[store.worker].rate == Some(store.rate)
        && !s.workers[store.worker].phase.Storing?
  }

  /** Each callback was made for a successful request of its own, never twice for one. */
  predicate StoresMatch(s: State) {
    && (forall w | 0 <= w < |s.workers| :: HasRate(s.workers[w]))
    && (forall k | 0 <= k < |s.stores| :: IsStoreOf(s, k))
    && (forall j, k | 0 <= j < k < |s.stores| :: s.stores[j].worker != s.stores[k].worker)
  }

  lemma ReplyKeeps(n: nat, s: State, w: nat, rate: Option<int>)
    requires Counts(n, s) && StoresMatch(s) && Enabled(n, s, Reply(w, rate))
    ensures Counts(n, Next(n, s, Reply(w, rate)))
  {
    var worker := Worker(if rate.Some? then Storing else Releasing, rate);
    assert HasRate(s.workers[w]);
    SumUpdate(s.workers, Holding, w, worker);
    SumUpdate(s.workers, Present, w, worker);
    SumUpdate(s.workers, Uncounted, w, worker);
    SumUpdate(s.workers, Delivered, w, worker);
  }

  lemma AdvanceKeepsGates(n: nat, s: State, w: nat)
    requires GatesCount(n, s) && StoresMatch(s) && Enabled(n, s, Advance(w))
    ensures GatesCount(n, Next(n, s, Advance(w)))
  {
    var worker := Next(n, s, Advance(w)).workers[w];
    assert HasRate(s.workers[w]);
    SumUpdate(s.workers, Holding, w, worker);
    SumUpdate(s.workers, Present, w, worker);
  }

  lemma AdvanceKeepsStores(n: nat, s: State, w: nat)
    requires StoresCount(s) && StoresMatch(s) && Enabled(n, s, Advance(w))
    ensures StoresCount(Next(n, s, Advance(w)))
  {
    var worker := Next(n, s, Advance(w)).workers[w];
    assert HasRate(s.workers[w]);
    SumUpdate(s.workers, Uncounted, w, worker);
    SumUpdate(s.workers, Delivered, w, worker);
  }

  lemma MainKeepsGates(n: nat, s: State, step: Step)
    requires GatesCount(n, s) && Enabled(n, s, step) && !step.Reply? && !step.Advance?
    ensures GatesCount(n, Next(n, s, step))
  {
    SumAppend(s.workers, Holding, Worker(Fetching, None));
    SumAppend(s.workers, Present, Worker(Fetching, None));
  }

  lemma MainKeepsStores(n: nat, s: State, step: Step)
    requires StoresCount(s) && Enabled(n, s, step) && !step.Reply? && !step.Advance?
    ensures StoresCount(Next(n, s, step))
  {
    SumAppend(s.workers, Uncounted, Worker(Fetching, None));
    SumAppend(s.workers, Delivered, Worker(Fetching, None));
  }

  lemma StoresKeep(n: nat, s: State, step: Step)
    requires StoresMatch(s) && Enabled(n, s, step)
    ensures StoresMatch(Next(n, s, step))
  {
    var t := Next(n, s, step);
    forall k | 0 <= k < |t.stores| ensures IsStoreOf(t, k) {
      assert k < |s.stores| ==> IsStoreOf(s, k);
    }
    forall j, k | 0 <= j < k < |t.stores| ensures t.stores[j].worker != t.stores[k].worker {
      assert IsStoreOf(s, j);
    }
  }

  lemma {:induction false} EveryStateOfEveryRun(n: nat, steps: seq<Step>)
    ensures Run(n, steps).Some? ==> Counts(n, Run(n, steps).value) && StoresMatch(Run(n, steps).value)
  {
    if steps != [] {
      var before := Run(n, steps[..|steps| - 1]);
      var step := steps[|steps| - 1];
      EveryStateOfEveryRun(n, steps[..|steps| - 1]);
      if before.Some? && Enabled(n, before.value, step) {
        StoresKeep(n, before.value, step);
        match step {
          case Reply(w, rate) => ReplyKeeps(n, before.value, w, rate);
          case Advance(w) =>
            AdvanceKeepsGates(n, before.value, w);
            AdvanceKeepsStores(n, before.value, w);
          case _ =>
            MainKeepsGates(n, before.value, step);
            MainKeepsStores(n, before.value, step);
        }
      }
    }
  }

  /** Never more than 20 requests in flight. */
  lemma FewInFlight(n: nat, steps: seq<Step>)
    requires Run(n, steps).Some?
    ensures Sum(Run(n, steps).value.workers, InFlight) <= Run(n, steps).value.inSemaphore <= 20
  {
    EveryStateOfEveryRun(n, steps);
    SumBelow(Run(n, steps).value.workers, InFlight, Holding);
  }

  /** And as many as that, for as many tokens, before any request comes back. */
  lemma {:induction false} ManyInFlight(n: nat, k: nat) returns (steps: seq<Step>)
    requires k <= n && k <= 20
    ensures Run(n, steps) == Some(State(AtTop, k, k, seq(k, _ => Worker(Fetching, None)), 0, []))
    ensures Sum(Run(n, steps).value.workers, InFlight) == k
  {
    if k == 0 {
      steps := [];
      assert seq(0, _ => Worker(Fetching, None)) == [];
    } else {
      var before := ManyInFlight(n, k - 1);
      var s := Run(n, before).value;
      assert s.workers + [Worker(Fetching, None)] == seq(k, _ => Worker(Fetching, None));
      SumAppend(s.workers, InFlight, Worker(Fetching, None));
      steps := before + [Add] + [Acquire] + [Go];
      ExtendRun(n, before, Add);
      ExtendRun(n, before + [Add], Acquire);
      ExtendRun(n, before + [Add] + [Acquire], Go);
    }
  }

  lemma ExtendRun(n: nat, steps: seq<Step>, step: Step)
    requires Run(n, steps).Some? && Enabled(n, Run(n, steps).value, step)
    ensures Run(n, steps + [step]) == Some(Next(n, Run(n, steps).value, step))
  {
    assert (steps + [step])[..|steps + [step]| - 1] == steps;
  }

  lemma {:induction false} NonePresent(ws: seq<Worker>)
    requires Sum(ws, Present) == 0
    ensures Sum(ws, Holding) == 0 && Sum(ws, Uncounted) == 0 && Sum(ws, Delivered) == Sum(ws, Succeeded)
    ensures forall i | 0 <= i < |ws| :: ws[i].phase.Done?
  {
    if ws != [] {
      NonePresent(ws[..|ws| - 1]);
    }
  }

  /** After Wait every goroutine is gone, the semaphore is empty, and the counter counts the callbacks and successes. */
  lemma AfterWait(n: nat, steps: seq<Step>)
    requires Run(n, steps).Some? && Run(n, steps).value.main.Returned?
    ensures var s := Run(n, steps).value;
            && |s.workers| == n && (forall i | 0 <= i < n :: s.workers[i].phase.Done?)
            && s.inSemaphore == s.inGroup == 0 && s.ok == |s.stores| == Sum(s.workers, Succeeded)
  {
    EveryStateOfEveryRun(n, steps);
    NonePresent(Run(n, steps).value.workers);
  }

  // ----- It always gets there -----

  predicate CanGoOn(n: nat, s: State) {
    || Enabled(n, s, Add) || Enabled(n, s, Acquire) || Enabled(n, s, Go) || Enabled(n, s, Wait)
    || exists w | 0 <= w < |s.workers| :: Enabled(n, s, Reply(w, None)) || Enabled(n, s, Advance(w))
  }

  /** A goroutine that has not left is never blocked by another. */
  lemma WorkerGoesOn(n: nat, s: State, w: nat)
    requires Counts(n, s) && StoresMatch(s) && w < |s.workers| && !s.workers[w].phase.Done?
    ensures CanGoOn(n, s)
  {
    assert HasRate(s.workers[w]);
    SumUpdate(s.workers, Holding, w, s.workers[w]);
    SumUpdate(s.workers, Present, w, s.workers[w]);
    assert Enabled(n, s, Reply(w, None)) || Enabled(n, s, Advance(w));
  }

  /** There is no deadlock: until it has returned, some step is possible. */
  lemma NeverStuck(n: nat, steps: seq<Step>)
    requires Run(n, steps).Some?
    ensures Run(n, steps).value.main.Returned? || CanGoOn(n, Run(n, steps).value)
  {
    var s := Run(n, steps).value;
    EveryStateOfEveryRun(n, steps);
    if s.main.Added? && s.inSemaphore == LIMIT {
      var w := SumFindsOne(s.workers, Holding);
      WorkerGoesOn(n, s, w);
    } else if s.main.AtTop? && |s.workers| == n && s.inGroup > 0 {
      var w := SumFindsOne(s.workers, Present);
      WorkerGoesOn(n, s, w);
    }
  }

  function StepsLeft(n: nat, s: State): int {
    8 * (n - |s.workers|) + Sum(s.workers, Left)
    + match s.main case AtTop => 1 case Added => 0 case Acquired => -1 case Returned => 0
  }

  lemma StepCounts(n: nat, s: State, step: Step)
    requires StoresMatch(s) && Enabled(n, s, step)
    ensures StepsLeft(n, Next(n, s, step)) < StepsLeft(n, s)
  {
    if step.Reply? || step.Advance? {
      WorkerStepCounts(n, s, step, step.w);
    } else {
      SumAppend(s.workers, Left, Worker(Fetching, None));
    }
  }

  lemma WorkerStepCounts(n: nat, s: State, step: Step, w: nat)
    requires StoresMatch(s) && Enabled(n, s, step) && (step.Reply? || step.Advance?) && w == step.w
    ensures StepsLeft(n, Next(n, s, step)) < StepsLeft(n, s)
  {
    SumUpdate(s.workers, Left, w, Next(n, s, step).workers[w]);
  }

  /** No run for n tokens has more than 8n + 1 steps, so every run that goes on as long as it can returns. */
  lemma {:induction false} RunsAreShort(n: nat, steps: seq<Step>)
    requires Run(n, steps).Some?
    ensures |steps| + StepsLeft(n, Run(n, steps).value) <= 8 * n + 1
    ensures |steps| <= 8 * n + 1
  {
    if steps != [] {
      RunsAreShort(n, steps[..|steps| - 1]);
      EveryStateOfEveryRun(n, steps[..|steps| - 1]);
      StepCounts(n, Run(n, steps[..|steps| - 1]).value, steps[|steps| - 1]);
    }
    EveryStateOfEveryRun(n, steps);
  }
}
