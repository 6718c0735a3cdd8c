/** WaitForConfirmed of clob/relayer.go: polling the relayer until it is sure, and naming what went wrong. */
module Confirmation {
  import opened Crypto

  /** A transaction as the relayer lists it. */
  datatype Tx = Tx(state: string, hash: string, errorMsg: string)

  /** How a poll comes back: not at all or not as JSON, as 404, or with the relayer's list. */
  datatype Response = Broken | NotFound | Listed(txs: seq<Tx>)

  /** One turn of the loop: the context is done, or the ticker fires, with the receipt's status if one can be had. */
  datatype Turn = ContextDone | Tick(response: Response, receipt: Option<nat>)

  datatype TxResult = TxResult(hash: string, state: string, status: nat, errorMsg: string)

  datatype Failure = GuardGas | InnerCall | Plain

  datatype Verdict = Waiting | GaveUp | Confirmed(result: TxResult) | Failed(result: TxResult, kind: Failure)

  // ----- Text, as far as it is ASCII -----

  function UpperChar(c: char): char {
    if 'a' <= c <= 'z' then 'A' + (c - 'a') else c
  }

  function LowerChar(c: char): char {
    if 'A' <= c <= 'Z' then 'a' + (c - 'A') else c
  }

  function Upper(s: string): string {
    seq(|s|, i requires 0 <= i < |s| => UpperChar(s[i]))
  }

  function Lower(s: string): string {
    seq(|s|, i requires 0 <= i < |s| => LowerChar(s[i]))
  }

  predicate OccursAt(s: string, part: string, i: nat) {
    i + |part| <= |s| && s[i..i + |part|] == part
  }

  predicate Contains(s: string, part: string) {
    exists i | 0 <= i <= |s| :: OccursAt(s, part, i)
  }

  lemma LowerSuffixContained(a: string, b: string, part: string)
    requires Contains(Lower(b), part)
    ensures Contains(Lower(a + b), part)
  {
    var i :| 0 <= i <= |Lower(b)| && OccursAt(Lower(b), part, i);
    var j := |a| + i;
    assert Lower(a + b)[j..j + |part|] == Lower(b)[i..i + |part|];
    assert OccursAt(Lower(a + b), part, j);
  }

  const NOT_ENOUGH_GAS := "not enough gasleft"
  const INTERNAL_FAILURE := "internal transaction failure"
  const CAPTURED_REVERT := "captured a revert"

  // ----- The relayer's answers -----

  function TrimState(s: string): string {
    if "STATE_" <= s then s[6..] else s
  }

  /** pollTransaction: only five states yield a result. */
  function PollTransaction(response: Response): Option<TxResult> {
    if !response.Listed? || response.txs == [] then None
    else
      var tx := response.txs[0];
      var state := TrimState(Upper(tx.state));
      if state in {"EXECUTED", "CONFIRMED", "MINED"} then Some(TxResult(tx.hash, state, 1, ""))
      else if state in {"FAILED", "INVALID"} then Some(TxResult(tx.hash, state, 0, tx.errorMsg))
      else None
  }

  /** fillTxResult, as far as the status goes: a receipt has the last word. */
  function Fill(r: TxResult, receipt: Option<nat>): TxResult {
    if r.hash != "" && receipt.Some? then r.(status := receipt.value) else r
  }

  /** The text WaitForConfirmed puts around a failure before it is classified. */
  function ErrorText(txID: string, r: TxResult): string {
    "tx " + txID + " (hash " + r.hash + ")" + if r.errorMsg != "" then " failed: " + r.errorMsg else " reverted"
  }

  predicate IsInnerText(msg: string) {
    Contains(Lower(msg), INTERNAL_FAILURE) || Contains(Lower(msg), CAPTURED_REVERT)
  }

  /** classifyRelayerFailure */
  function Classify(txID: string, r: TxResult): Failure {
    if Contains(Lower(r.errorMsg), NOT_ENOUGH_GAS) || Contains(Lower(ErrorText(txID, r)), NOT_ENOUGH_GAS) then GuardGas
    else if IsInnerText(r.errorMsg) || r.status == 1 then InnerCall
    else Plain
  }

  /** The text decides alone: it carries the relayer's message at its end. */
  lemma TextDecides(txID: string, r: TxResult)
    ensures Classify(txID, r).GuardGas? <==> Contains(Lower(ErrorText(txID, r)), NOT_ENOUGH_GAS)
  {
    if Contains(Lower(r.errorMsg), NOT_ENOUGH_GAS) && r.errorMsg != "" {
      var front := "tx " + txID + " (hash " + r.hash + ")" + " failed: ";
      assert ErrorText(txID, r) == front + r.errorMsg;
      LowerSuffixContained(front, r.errorMsg, NOT_ENOUGH_GAS);
    }
  }

  // ----- The specification -----

  /** The relayer's own word for the transaction, if it has one. */
  function StateOf(turn: Turn): string {
    if turn.Tick? && turn.response.Listed? && turn.response.txs != [] then TrimState(Upper(turn.response.txs[0].state))
    else ""
  }

  predicate IsFinal(turn: Turn) {
    turn.ContextDone? || StateOf(turn) in {"CONFIRMED", "FAILED", "INVALID"}
  }

  /** What a turn decides. */
  ghost predicate Decides(txID: string, turn: Turn, verdict: Verdict) {
    match verdict
    case Waiting => !IsFinal(turn)
    case GaveUp => turn.ContextDone?
    case Confirmed(r) =>
      && StateOf(turn) == r.state == "CONFIRMED" && r.hash == turn.response.txs[0].hash && r.errorMsg == ""
      && r.status == if r.hash != "" && turn.receipt.Some? then turn.receipt.value else 1
    case Failed(r, kind) =>
      && StateOf(turn) == r.state && r.state in {"FAILED", "INVALID"}
      && r.hash == turn.response.txs[0].hash && r.errorMsg == turn.response.txs[0].errorMsg
      && r.status == (if r.hash != "" && turn.receipt.Some? then turn.receipt.value else 0)
      && (kind.GuardGas? <==> Contains(Lower(ErrorText(txID, r)), NOT_ENOUGH_GAS))
      && (kind.Plain? <==> !kind.GuardGas? && !IsInnerText(r.errorMsg) && r.status != 1)
  }

  // ----- The same in the words of the relayer -----

  /** Two characters that differ at most in case, as far as they are ASCII. */
  predicate SameLetter(a: char, b: char) {
    || a == b
    || ('a' <= a <= 'z' && b as int == a as int - 32)
    || ('A' <= a <= 'Z' && b as int == a as int + 32)
  }

  predicate SameText(a: string, b: string) {
    |a| == |b| && forall i | 0 <= i < |a| :: SameLetter(a[i], b[i])
  }

  /** The state is this word, with "STATE_" before it or without. */
  predicate Says(state: string, word: string) {
    SameText(state, word) || SameText(state, "STATE_" + word)
  }

  predicate MentionsAt(text: string, phrase: string, i: nat) {
    i + |phrase| <= |text| && SameText(text[i..i + |phrase|], phrase)
  }

  ghost predicate Mentions(text: string, phrase: string) {
    exists i | 0 <= i <= |text| :: MentionsAt(text, phrase, i)
  }

  /** A receipt decides about the status where there is one and a hash to ask for it. */
  function StatusAfter(hash: string, receipt: Option<nat>, status: nat): nat {
    if hash != "" && receipt.Some? then receipt.value else status
  }

  function FailureText(txID: string, tx: Tx): string {
    "tx " + txID + " (hash " + tx.hash + ")" + if tx.errorMsg == "" then " reverted" else " failed: " + tx.errorMsg
  }

  predicate IsKind(guard: bool, inner: bool, kind: Failure) {
    kind == if guard then GuardGas else if inner then InnerCall else Plain
  }

  ghost predicate SaysInner(msg: string) {
    Mentions(msg, "internal transaction failure") || Mentions(msg, "captured a revert")
  }

  /** The final states, as the relayer may write them; any other is no reason to stop waiting. */
  function FinalWord(state: string): string {
    if Says(state, "CONFIRMED") then "CONFIRMED" else if Says(state, "FAILED") then "FAILED"
    else if Says(state, "INVALID") then "INVALID" else ""
  }

  /** What a turn leads to, from what the relayer says in it. */
  ghost predicate Reports(txID: string, turn: Turn, verdict: Verdict) {
    match turn
    case ContextDone => verdict == GaveUp
    case Tick(response, receipt) =>
      if !response.Listed? || response.txs == [] then verdict == Waiting
      else ReportsTx(txID, response.txs[0], FinalWord(response.txs[0].state), receipt, verdict)
  }

  ghost predicate ReportsTx(txID: string, tx: Tx, word: string, receipt: Option<nat>, verdict: Verdict) {
    if word == "" then verdict == Waiting
    else if word == "CONFIRMED"
      then verdict == Confirmed(TxResult(tx.hash, word, StatusAfter(tx.hash, receipt, 1), ""))
    else
      && verdict.Failed?
      && verdict.result == TxResult(tx.hash, word, StatusAfter(tx.hash, receipt, 0), tx.errorMsg)
      && IsKind(Mentions(FailureText(txID, tx), "not enough gasleft"),
                SaysInner(tx.errorMsg) || StatusAfter(tx.hash, receipt, 0) == 1, verdict.kind)
  }

  predicate IsCapital(word: string) {
    forall i | 0 <= i < |word| :: !('a' <= word[i] <= 'z')
  }

  predicate IsSmall(phrase: string) {
    forall i | 0 <= i < |phrase| :: !('A' <= phrase[i] <= 'Z')
  }

  lemma UpperIsSame(s: string, word: string)
    requires IsCapital(word)
    ensures Upper(s) == word <==> SameText(s, word)
  {
    forall i | 0 <= i < |s| && i < |word| ensures UpperChar(s[i]) == word[i] <==> SameLetter(s[i], word[i]) {
    }
    if SameText(s, word) {
      assert Upper(s) == word;
    }
  }

  lemma LowerIsSame(s: string, phrase: string)
    requires IsSmall(phrase)
    ensures Lower(s) == phrase <==> SameText(s, phrase)
  {
    forall i | 0 <= i < |s| && i < |phrase| ensures LowerChar(s[i]) == phrase[i] <==> SameLetter(s[i], phrase[i]) {
    }
    if SameText(s, phrase) {
      assert Lower(s) == phrase;
    }
  }

  lemma StateSays(state: string, word: string)
    requires IsCapital(word) && word != "" && word[0] != 'S'
    ensures TrimState(Upper(state)) == word <==> Says(state, word)
  {
    var u := Upper(state);
    UpperIsSame(state, word);
    UpperIsSame(state, "STATE_" + word);
    assert ("STATE_" + word)[6..] == word;
    if "STATE_" <= u {
      assert u == "STATE_" + u[6..] && u[0] == 'S';
    }
  }

  lemma ContainsIsMentions(text: string, phrase: string)
    requires IsSmall(phrase)
    ensures Contains(Lower(text), phrase) <==> Mentions(text, phrase)
  {
    forall i: nat | i <= |text| ensures OccursAt(Lower(text), phrase, i) <==> MentionsAt(text, phrase, i) {
      if i + |phrase| <= |text| {
        assert Lower(text)[i..i + |phrase|] == Lower(text[i..i + |phrase|]);
        LowerIsSame(text[i..i + |phrase|], phrase);
      }
    }
  }

  lemma KindIsKind(txID: string, tx: Tx, r: TxResult, kind: Failure)
    requires r.hash == tx.hash && r.errorMsg == tx.errorMsg
    requires kind.GuardGas? <==> Contains(Lower(ErrorText(txID, r)), NOT_ENOUGH_GAS)
    requires kind.Plain? <==> !kind.GuardGas? && !IsInnerText(r.errorMsg) && r.status != 1
    ensures IsKind(Mentions(FailureText(txID, tx), "not enough gasleft"), SaysInner(tx.errorMsg) || r.status == 1, kind)
  {
    TextIsText(txID, tx, r);
    ContainsIsMentions(FailureText(txID, tx), NOT_ENOUGH_GAS);
    InnerIsMentioned(r.errorMsg);
  }

  lemma InnerIsMentioned(msg: string)
    ensures IsInnerText(msg) <==> SaysInner(msg)
  {
    ContainsIsMentions(msg, INTERNAL_FAILURE);
    ContainsIsMentions(msg, CAPTURED_REVERT);
  }

  lemma TextIsText(txID: string, tx: Tx, r: TxResult)
    requires r.hash == tx.hash && r.errorMsg == tx.errorMsg
    ensures ErrorText(txID, r) == FailureText(txID, tx)
  {
  }

  /** The states that stop the wait are the final words. */
  lemma WordOfState(state: string)
    ensures var trimmed := TrimState(Upper(state));
            FinalWord(state) == if trimmed in {"CONFIRMED", "FAILED", "INVALID"} then trimmed else ""
  {
    StateSays(state, "CONFIRMED");
    StateSays(state, "FAILED");
    StateSays(state, "INVALID");
  }

  lemma WordReports(txID: string, turn: Turn, verdict: Verdict, word: string)
    requires Decides(txID, turn, verdict) && turn.Tick? && turn.response.Listed? && turn.response.txs != []
    requires word == if StateOf(turn) in {"CONFIRMED", "FAILED", "INVALID"} then StateOf(turn) else ""
    ensures ReportsTx(txID, turn.response.txs[0], word, turn.receipt, verdict)
  {
    if verdict.Failed? {
      KindIsKind(txID, turn.response.txs[0], verdict.result, verdict.kind);
    }
  }

  /** What a turn decides is what the relayer's words mean. */
  lemma DecisionReports(txID: string, turn: Turn, verdict: Verdict)
    requires Decides(txID, turn, verdict)
    ensures Reports(txID, turn, verdict)
  {
    if turn.Tick? && turn.response.Listed? && turn.response.txs != [] {
      WordOfState(turn.response.txs[0].state);
      WordReports(txID, turn, verdict, FinalWord(turn.response.txs[0].state));
    }
  }

  /** One turn of the loop. */
  method TakeTurn(txID: string, turn: Turn) returns (verdict: Verdict)
    ensures Decides(txID, turn, verdict) && (verdict.Waiting? <==> !IsFinal(turn))
  {
    if turn.ContextDone? {
      return GaveUp;
    }
    var polled := PollTransaction(turn.response);
    if polled.Some? {
      var result := polled.value;
      if result.status == 0 {
        result := Fill(result, turn.receipt);
        TextDecides(txID, result);
        return Failed(result, Classify(txID, result));
      }
      if result.state == "CONFIRMED" {
        return Confirmed(Fill(result, turn.receipt));
      }
    }
    verdict := Waiting;
  }

  /** The loop: it goes on exactly until the first final turn. */
  method Poll(txID: string, turns: seq<Turn>) returns (verdict: Verdict, n: nat)
    ensures n <= |turns| && forall i | 0 <= i < n :: !IsFinal(turns[i])
    ensures if n == |turns| then verdict.Waiting? else IsFinal(turns[n]) && Decides(txID, turns[n], verdict)
  {
    n := 0;
    while n < |turns|
      invariant n <= |turns| && forall i | 0 <= i < n :: !IsFinal(turns[i])
    {
      verdict := TakeTurn(txID, turns[n]);
      if !verdict.Waiting? {
        return;
      }
      n := n + 1;
    }
    verdict := Waiting;
  }

  /** WaitForConfirmed: it waits as long as the relayer's words mean waiting, and reports what they mean then. */
  method WaitForConfirmed(txID: string, turns: seq<Turn>) returns (verdict: Verdict, n: nat)
    ensures n <= |turns| && forall i | 0 <= i < n :: !IsFinal(turns[i])
    ensures if n == |turns| then verdict.Waiting? else IsFinal(turns[n]) && Decides(txID, turns[n], verdict)
    ensures forall i | 0 <= i < n :: Reports(txID, turns[i], Waiting)
    ensures n < |turns| ==> !verdict.Waiting? && Reports(txID, turns[n], verdict)
  {
    verdict, n := Poll(txID, turns);
    forall i | 0 <= i < n ensures Reports(txID, turns[i], Waiting) {
      DecisionReports(txID, turns[i], Waiting);
    }
    if n < |turns| {
      DecisionReports(txID, turns[n], verdict);
    }
  }

  /** A turn decides one verdict. */
  lemma DecisionIsUnique(txID: string, turn: Turn, a: Verdict, b: Verdict)
    requires Decides(txID, turn, a) && Decides(txID, turn, b)
    ensures a == b
  {
  }

  /** No error does not mean success on chain: it does exactly when there is no receipt, or a good one. */
  lemma ConfirmedMayHaveReverted(txID: string, turn: Turn, verdict: Verdict)
    requires Decides(txID, turn, verdict) && verdict.Confirmed?
    ensures verdict.result.status == 1 <==> verdict.result.hash == "" || turn.receipt in {None, Some(1)}
  {
  }

  /** Such a turn: confirmed under any hash, with a receipt of status 0. The wait ends without an error. */
  lemma RevertedTurn(txID: string, hash: string, errorMsg: string)
    requires hash != ""
    ensures var turn := Tick(Listed([Tx("STATE_CONFIRMED", hash, errorMsg)]), Some(0));
            IsFinal(turn) && Decides(txID, turn, Confirmed(TxResult(hash, "CONFIRMED", 0, "")))
  {
    assert Upper("STATE_CONFIRMED") == "STATE_CONFIRMED";
    assert "STATE_CONFIRMED"[6..] == "CONFIRMED";
  }
}
