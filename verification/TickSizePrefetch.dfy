/** PrefetchTickSizes of clob/prefetch.go: batches of two, three attempts each, and a list of failures. */
module TickSizePrefetch {
  import opened Crypto

  const ATTEMPTS := 3
  const BATCH := 2

  /** What GetTickSize answers on each attempt for the token at each position: an error is None. */
  type Server = (nat, nat) -> Option<string>

  /** An attempt succeeds with a tick size that is not empty. */
  predicate Usable(answer: Option<string>) {
    answer.Some? && answer.value != ""
  }

  function Fetched(server: Server, i: nat): Option<string> {
    if Usable(server(i, 0)) then server(i, 0) else if Usable(server(i, 1)) then server(i, 1)
    else if Usable(server(i, 2)) then server(i, 2) else None
  }

  datatype Stored = Stored(token: string, size: string)

  /** The calls of store so far, and the failures so far, in the order they were made. */
  datatype Work = Work(stored: seq<Stored>, failed: seq<string>)

  datatype Result = Complete | Failed(count: nat, total: nat, first: string) | Cancelled

  // ----- The specification, in terms of the order in which goroutines finish -----

  /** A goroutine that is done has either stored its token or put it on the list of failures. */
  function Finish(work: Work, token: string, size: Option<string>): Work {
    if size.Some? then work.(stored := work.stored + [Stored(token, size.value)])
        else work.(failed := work.failed + [token])
  }

  function FinishAt(tokens: seq<string>, server: Server, work: Work, i: nat): Work
    requires i < |tokens|
  {
    Finish(work, tokens[i], Fetched(server, i))
  }

  /** The batch that starts at i: its two goroutines may finish either way round. */
  function FinishBatch(tokens: seq<string>, server: Server, work: Work, i: nat, swapped: bool): Work {
    if i >= |tokens| then work
    else if i + 1 == |tokens| then FinishAt(tokens, server, work, i)
    else if swapped then FinishAt(tokens, server, FinishAt(tokens, server, work, i + 1), i)
    else FinishAt(tokens, server, FinishAt(tokens, server, work, i), i + 1)
  }

  /** The batches come one after another: the work of the first n of them. */
  function After(tokens: seq<string>, server: Server, swapped: nat -> bool, n: nat): Work {
    if n == 0 then Work([], [])
    else FinishBatch(tokens, server, After(tokens, server, swapped, n - 1), BATCH * (n - 1), swapped(n - 1))
  }

  /** The tokens done after n batches. */
  function DoneAfter(total: nat, n: nat): nat {
    if BATCH * n < total then BATCH * n else total
  }

  /**
   * What the call has done after n batches. The context is looked at after every batch, also after the last one, but
   * not before the first.
   */
  ghost predicate Outcome(total: nat, cancelled: nat -> bool, n: nat, work: Work, result: Result) {
    && (forall b | 0 <= b < n - 1 :: !cancelled(b))
    && match result
       case Cancelled => n > 0 && cancelled(n - 1)
       case Complete => (n > 0 ==> !cancelled(n - 1)) && DoneAfter(total, n) == total && work.failed == []
       case Failed(count, outOf, first) =>
         && (n > 0 ==> !cancelled(n - 1)) && DoneAfter(total, n) == outOf == total
         && count == |work.failed| > 0 && first == work.failed[0]
  }

  // ----- The code -----

  /** The attempts of one goroutine. */
  method Fetch(server: Server, i: nat) returns (ts: string, err: bool)
    ensures Fetched(server, i) == if err || ts == "" then None else Some(ts)
  {
    ts, err := "", false;
    var attempt := 0;
    while attempt < ATTEMPTS
      invariant attempt <= ATTEMPTS
      invariant forall a | 0 <= a < attempt :: !Usable(server(i, a))
      invariant attempt > 0 ==> err || ts == ""
    {
      var answer := server(i, attempt);
      ts, err := if answer.Some? then answer.value else "", answer.None?;
      if !err && ts != "" {
        return;
      }
      attempt := attempt + 1;
    }
  }

  /** One goroutine. */
  method FetchOne(tokens: seq<string>, server: Server, work: Work, i: nat) returns (work': Work)
    requires i < |tokens|
    ensures work' == FinishAt(tokens, server, work, i)
  {
    var ts, err := Fetch(server, i);
    work' := if err || ts == "" then work.(failed := work.failed + [tokens[i]])
             else work.(stored := work.stored + [Stored(tokens[i], ts)]);
  }

  /** The work before each batch. */
  predicate BatchAt(works: nat -> Work, tokens: seq<string>, server: Server, swapped: nat -> bool, n: nat) {
    works(n + 1) == FinishBatch(tokens, server, works(n), BATCH * n, swapped(n))
  }

  ghost predicate AreWorks(works: nat -> Work, tokens: seq<string>, server: Server, swapped: nat -> bool) {
    works(0) == Work([], []) && forall n: nat :: BatchAt(works, tokens, server, swapped, n)
  }

  /** The goroutines of batch n, up to the end of wg.Wait. */
  method FetchBatch(tokens: seq<string>, server: Server, swapped: nat -> bool, n: nat, i: nat, work: Work,
                    ghost works: nat -> Work) returns (work': Work)
    requires i == BATCH * n < |tokens| && work == works(n) && BatchAt(works, tokens, server, swapped, n)
    ensures work' == works(n + 1)
  {
    if i + 1 == |tokens| {
      work' := FetchOne(tokens, server, work, i);
    } else {
      work' := FetchOne(tokens, server, work, if swapped(n) then i + 1 else i);
      work' := FetchOne(tokens, server, work', if swapped(n) then i else i + 1);
    }
  }

  /** The loop over the batches: n is what the code's own counter done amounts to. */
  method FetchAll(tokens: seq<string>, server: Server, swapped: nat -> bool, cancelled: nat -> bool,
                  ghost works: nat -> Work) returns (work: Work, n: nat, stopped: bool)
    requires AreWorks(works, tokens, server, swapped)
    ensures n == 0 || BATCH * (n - 1) < |tokens|
    ensures work == works(n)
    ensures forall b | 0 <= b < n - 1 :: !cancelled(b)
    ensures if stopped then n > 0 && cancelled(n - 1) else BATCH * n >= |tokens| && (n > 0 ==> !cancelled(n - 1))
  {
    work, n := Work([], []), 0;
    var i := 0;
    while i < |tokens|
      invariant i == BATCH * n && (n == 0 || BATCH * (n - 1) < |tokens|)
      invariant work == works(n)
      invariant forall b | 0 <= b < n :: !cancelled(b)
      decreases |tokens| - i
    {
      work := FetchBatch(tokens, server, swapped, n, i, work, works);
      i, n := i + BATCH, n + 1;
      if cancelled(n - 1) {
        return work, n, true;
      }
    }
    stopped := false;
  }

  lemma AfterIsWorks(tokens: seq<string>, server: Server, swapped: nat -> bool)
    ensures AreWorks((n: nat) => After(tokens, server, swapped, n), tokens, server, swapped)
  {
  }

  method PrefetchTickSizes(tokens: seq<string>, server: Server, swapped: nat -> bool, cancelled: nat -> bool)
      returns (work: Work, result: Result, n: nat)
    ensures n == 0 || BATCH * (n - 1) < |tokens|
    ensures work == After(tokens, server, swapped, n) && Outcome(|tokens|, cancelled, n, work, result)
    ensures result.Failed? ==> work.failed != [] && result == Failed(|work.failed|, |tokens|, work.failed[0])
    ensures result.Complete? ==> work.failed == []
  {
    var stopped;
    AfterIsWorks(tokens, server, swapped);
    work, n, stopped := FetchAll(tokens, server, swapped, cancelled, (m: nat) => After(tokens, server, swapped, m));
    result := if stopped then Cancelled
              else if |work.failed| > 0 then Failed(|work.failed|, |tokens|, work.failed[0]) else Complete;
  }

  // ----- What it means -----

  /** A goroutine stops at its first usable answer, and fails only without one. */
  lemma FetchedIsFirstUsable(server: Server, i: nat)
    ensures match Fetched(server, i)
            case None => forall a | 0 <= a < 3 :: !Usable(server(i, a))
            case Some(size) => exists a | 0 <= a < 3 ::
              server(i, a) == Some(size) && size != "" && forall b | 0 <= b < a :: !Usable(server(i, b))
  {
    assert Usable(server(i, 1)) && !Usable(server(i, 0)) ==> forall b | 0 <= b < 1 :: !Usable(server(i, b));
  }

  /** Every token accounted for, stored or failed. */
  function Tokens(work: Work): multiset<string> {
    multiset(seq(|work.stored|, k requires 0 <= k < |work.stored| => work.stored[k].token)) + multiset(work.failed)
  }

  lemma FinishCounts(work: Work, token: string, size: Option<string>)
    ensures Tokens(Finish(work, token, size)) == Tokens(work) + multiset{token}
  {
    var work' := Finish(work, token, size);
    var before := seq(|work.stored|, k requires 0 <= k < |work.stored| => work.stored[k].token);
    var after := seq(|work'.stored|, k requires 0 <= k < |work'.stored| => work'.stored[k].token);
    assert after == if size.Some? then before + [token] else before;
  }

  function BatchTokens(tokens: seq<string>, i: nat): seq<string> {
    if i >= |tokens| then [] else if i + 1 == |tokens| then [tokens[i]] else [tokens[i], tokens[i + 1]]
  }

  /** Whatever counts each goroutine's token once counts both tokens of a batch. */
  lemma BatchCounts(tokens: seq<string>, server: Server, work: Work, i: nat, swapped: bool,
                    count: Work -> multiset<string>)
    requires i < |tokens|
    requires forall w, k | 0 <= k < |tokens| :: count(FinishAt(tokens, server, w, k)) == count(w) + multiset{tokens[k]}
    ensures count(FinishBatch(tokens, server, work, i, swapped)) == count(work) + multiset(BatchTokens(tokens, i))
  {
    if i + 1 < |tokens| {
      var one, other := if swapped then i + 1 else i, if swapped then i else i + 1;
      assert count(FinishAt(tokens, server, FinishAt(tokens, server, work, one), other))
          == count(work) + multiset{tokens[one]} + multiset{tokens[other]};
    }
  }

  lemma TokensGrow(tokens: seq<string>, n: nat)
    requires n > 0 && BATCH * (n - 1) < |tokens|
    ensures multiset(tokens[..DoneAfter(|tokens|, n)])
            == multiset(tokens[..DoneAfter(|tokens|, n - 1)]) + multiset(BatchTokens(tokens, BATCH * (n - 1)))
  {
    assert tokens[..DoneAfter(|tokens|, n)]
        == tokens[..DoneAfter(|tokens|, n - 1)] + BatchTokens(tokens, BATCH * (n - 1));
  }

  lemma OneMoreBatch(tokens: seq<string>, server: Server, work: Work, i: nat, swapped: bool)
    requires i < |tokens|
    ensures Tokens(FinishBatch(tokens, server, work, i, swapped)) == Tokens(work) + multiset(BatchTokens(tokens, i))
  {
    forall w, k | 0 <= k < |tokens| ensures Tokens(FinishAt(tokens, server, w, k)) == Tokens(w) + multiset{tokens[k]} {
      FinishCounts(w, tokens[k], Fetched(server, k));
    }
    BatchCounts(tokens, server, work, i, swapped, Tokens);
  }

  /** Something accumulated over the tokens of the first n batches. */
  function Fold<A>(tokens: seq<string>, n: nat, zero: A, add: (A, seq<string>) -> A): A {
    if n == 0 then zero else add(Fold(tokens, n - 1, zero, add), BatchTokens(tokens, BATCH * (n - 1)))
  }

  /** Whatever starts at zero and moves by add with every batch accumulates over the batches done. */
  lemma {:induction false} BatchesAddUp<A>(tokens: seq<string>, server: Server, swapped: nat -> bool, n: nat,
                                           count: Work -> A, zero: A, add: (A, seq<string>) -> A)
    requires n == 0 || BATCH * (n - 1) < |tokens|
    requires count(Work([], [])) == zero
    requires forall work, i, way | 0 <= i < |tokens| ::
      count(FinishBatch(tokens, server, work, i, way)) == add(count(work), BatchTokens(tokens, i))
    ensures count(After(tokens, server, swapped, n)) == Fold(tokens, n, zero, add)
  {
    if n > 0 {
      BatchesAddUp(tokens, server, swapped, n - 1, count, zero, add);
    }
  }

  function AddTokens(sum: multiset<string>, tokens: seq<string>): multiset<string> {
    sum + multiset(tokens)
  }

  lemma {:induction false} BatchesArePrefix(tokens: seq<string>, n: nat)
    requires n == 0 || BATCH * (n - 1) < |tokens|
    ensures multiset(tokens[..DoneAfter(|tokens|, n)]) == Fold(tokens, n, multiset{}, AddTokens)
  {
    if n > 0 {
      BatchesArePrefix(tokens, n - 1);
      TokensGrow(tokens, n);
    } else {
      assert tokens[..DoneAfter(|tokens|, n)] == [];
    }
  }

  lemma NothingDone()
    ensures Tokens(Work([], [])) == multiset{}
  {
    assert seq(0, k requires 0 <= k < 0 => "") == [];
  }

  /** In whatever order goroutines finish, the tokens done are split into stored and failed, each occurrence once. */
  lemma DoneIsStoredOrFailed(tokens: seq<string>, server: Server, swapped: nat -> bool, n: nat)
    requires n == 0 || BATCH * (n - 1) < |tokens|
    ensures Tokens(After(tokens, server, swapped, n)) == multiset(tokens[..DoneAfter(|tokens|, n)])
  {
    forall work, i, way | 0 <= i < |tokens|
      ensures Tokens(FinishBatch(tokens, server, work, i, way)) == AddTokens(Tokens(work), BatchTokens(tokens, i))
    {
      OneMoreBatch(tokens, server, work, i, way);
    }
    NothingDone();
    BatchesAddUp(tokens, server, swapped, n, Tokens, multiset{}, AddTokens);
    BatchesArePrefix(tokens, n);
  }

  /** Whatever is stored is a first usable answer for its token. */
  lemma {:induction false} StoredIsFetched(tokens: seq<string>, server: Server, swapped: nat -> bool, n: nat,
                                           k: nat) returns (i: nat)
    requires n == 0 || BATCH * (n - 1) < |tokens|
    requires k < |After(tokens, server, swapped, n).stored|
    ensures i < |tokens| && Fetched(server, i) == Some(After(tokens, server, swapped, n).stored[k].size)
            && tokens[i] == After(tokens, server, swapped, n).stored[k].token
  {
    var before := After(tokens, server, swapped, n - 1);
    if k < |before.stored| {
      i := StoredIsFetched(tokens, server, swapped, n - 1, k);
    } else {
      i := BatchStores(tokens, server, before, BATCH * (n - 1), swapped(n - 1), k);
    }
  }

  lemma BatchStores(tokens: seq<string>, server: Server, work: Work, first: nat, swapped: bool, k: nat) returns (i: nat)
    requires first < |tokens| && |work.stored| <= k < |FinishBatch(tokens, server, work, first, swapped).stored|
    ensures i < |tokens| && FinishBatch(tokens, server, work, first, swapped).stored[k].token == tokens[i]
            && Fetched(server, i) == Some(FinishBatch(tokens, server, work, first, swapped).stored[k].size)
  {
    if first + 1 == |tokens| {
      i := first;
    } else {
      var one := if swapped then first + 1 else first;
      i := if Fetched(server, one).Some? && k == |work.stored| then one else 2 * first + 1 - one;
    }
  }

  lemma BatchFails(tokens: seq<string>, server: Server, work: Work, i: nat, swapped: bool)
    requires i < |tokens|
    ensures FinishBatch(tokens, server, work, i, swapped).failed == []
            <==> work.failed == [] && Fetched(server, i).Some? && (i + 1 < |tokens| ==> Fetched(server, i + 1).Some?)
  {
  }

  lemma {:induction false} FailedWhen(tokens: seq<string>, server: Server, swapped: nat -> bool, n: nat)
    requires n == 0 || BATCH * (n - 1) < |tokens|
    ensures After(tokens, server, swapped, n).failed == []
            <==> forall i | 0 <= i < DoneAfter(|tokens|, n) :: Fetched(server, i).Some?
  {
    if n > 0 {
      FailedWhen(tokens, server, swapped, n - 1);
      BatchFails(tokens, server, After(tokens, server, swapped, n - 1), BATCH * (n - 1), swapped(n - 1));
    }
  }

  /** The call returns nil exactly when every token has a usable answer and no batch is followed by a cancellation. */
  lemma CompleteMeansEveryTokenStored(tokens: seq<string>, server: Server, swapped: nat -> bool, cancelled: nat -> bool,
                                      n: nat, result: Result)
    requires n == 0 || BATCH * (n - 1) < |tokens|
    requires Outcome(|tokens|, cancelled, n, After(tokens, server, swapped, n), result)
    ensures result.Complete? <==>
            && (forall i | 0 <= i < |tokens| :: Fetched(server, i).Some?)
            && (forall b: nat | BATCH * b < |tokens| :: !cancelled(b))
    ensures !result.Cancelled? ==> Tokens(After(tokens, server, swapped, n)) == multiset(tokens)
  {
    FailedWhen(tokens, server, swapped, n);
    DoneIsStoredOrFailed(tokens, server, swapped, n);
    assert tokens[..|tokens|] == tokens;
  }
}
