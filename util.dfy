/** repeatUntil: the bounded poll-until-success combinator. The test callback's
    answers are an oracle: `answers[i]` is what its (i+1)-th call resolves to, and
    calls past the end of the script resolve falsy. The waits between calls are
    counted, not timed. */
module Util {

  function Max(a: int, b: int): int { if a >= b then a else b }

  function Min(a: int, b: int): int { if a <= b then a else b }

  /** Whether the (i+1)-th call of the test callback passes. */
  predicate Answer(answers: seq<bool>, i: nat)
  {
    i < |answers| && answers[i]
  }

  /** The index of the first passing answer of the script; |answers| when none
      passes. */
  function FirstPass(answers: seq<bool>): (k: nat)
    ensures k <= |answers|
    ensures k < |answers| ==> answers[k]
    ensures forall i :: 0 <= i < k ==> !answers[i]
    decreases |answers|
  {
    if |answers| == 0 || answers[0] then 0 else 1 + FirstPass(answers[1..])
  }

  /** Number of times repeatUntil calls the test callback: up to and including
      the first pass, but never more than max(1, maxRetries). */
  function Calls(answers: seq<bool>, maxRetries: int): (n: nat)
    ensures 1 <= n <= Max(1, maxRetries)
  {
    var k := FirstPass(answers);
    if k < |answers| then Min(k + 1, Max(1, maxRetries)) else Max(1, maxRetries)
  }

  /** repeatUntil rejects exactly when its final counter reached the bound. */
  predicate Throws(answers: seq<bool>, maxRetries: int)
  {
    Calls(answers, maxRetries) >= maxRetries
  }

  /** The loop as written: the first call, then a wait and a call while the last
      answer failed and fewer than maxRetries calls were made; the final test is on
      the counter alone, so a pass on the last allowed call still throws. */
  method RepeatUntil(answers: seq<bool>, maxRetries: int) returns (threw: bool, calls: nat, waits: nat)
    ensures calls == Calls(answers, maxRetries)
    ensures waits == calls - 1
    ensures threw <==> Throws(answers, maxRetries)
  {
    var result := Answer(answers, 0);
    var retryCount: nat := 1;
    waits := 0;
    while !result && retryCount < maxRetries
      invariant 1 <= retryCount
      invariant waits == retryCount - 1
      invariant retryCount <= Max(1, maxRetries)
      invariant result == Answer(answers, retryCount - 1)
      invariant forall i :: 0 <= i < retryCount - 1 ==> !Answer(answers, i)
      decreases maxRetries - retryCount
    {
      waits := waits + 1;
      result := Answer(answers, retryCount);
      retryCount := retryCount + 1;
    }
    CallsUnique(answers, maxRetries, retryCount);
    calls := retryCount;
    threw := retryCount >= maxRetries;
  }

  // ---------------------------------------------------------------------------
  // Lemmas about the attempt count

  /** The test callback runs at least once and at most max(1, maxRetries) times. */
  lemma CallsBounds(answers: seq<bool>, maxRetries: int)
    ensures 1 <= Calls(answers, maxRetries) <= Max(1, maxRetries)
  {
  }

  /** No call follows a passing one, and the loop stops only on a pass or on the
      bound. */
  lemma CallsStopAtFirstPass(answers: seq<bool>, maxRetries: int)
    ensures var n := Calls(answers, maxRetries);
      n >= 1 &&
      (forall i :: 0 <= i < n - 1 ==> !Answer(answers, i)) &&
      (Answer(answers, n - 1) || n >= maxRetries)
  {
  }

  /** Conversely, a count that stops at the first pass, or at the bound, is the
      number of calls. */
  lemma CallsUnique(answers: seq<bool>, maxRetries: int, n: nat)
    requires 1 <= n <= Max(1, maxRetries)
    requires forall i :: 0 <= i < n - 1 ==> !Answer(answers, i)
    requires Answer(answers, n - 1) || n >= maxRetries
    ensures Calls(answers, maxRetries) == n
  {
    CallsStopAtFirstPass(answers, maxRetries);
    CallsBounds(answers, maxRetries);
  }

  /** A test that first passes on call k is called min(k, max(1, maxRetries)) times,
      and repeatUntil returns normally exactly when k < maxRetries. */
  lemma FirstPassOutcome(answers: seq<bool>, maxRetries: int, k: nat)
    requires 1 <= k && Answer(answers, k - 1)
    requires forall i :: 0 <= i < k - 1 ==> !Answer(answers, i)
    ensures Calls(answers, maxRetries) == Min(k, Max(1, maxRetries))
    ensures !Throws(answers, maxRetries) <==> k < maxRetries
  {
    CallsStopAtFirstPass(answers, maxRetries);
    CallsBounds(answers, maxRetries);
  }

  /** The boundary case: a pass on exactly the last allowed call still throws. */
  lemma LastAttemptPassThrows(answers: seq<bool>, maxRetries: int)
    requires maxRetries >= 1 && Answer(answers, maxRetries - 1)
    requires forall i :: 0 <= i < maxRetries - 1 ==> !Answer(answers, i)
    ensures Calls(answers, maxRetries) == maxRetries
    ensures Throws(answers, maxRetries)
  {
    FirstPassOutcome(answers, maxRetries, maxRetries);
  }

  /** A bound of one or less always throws, after a single call. */
  lemma SmallBoundThrows(answers: seq<bool>, maxRetries: int)
    requires maxRetries <= 1
    ensures Calls(answers, maxRetries) == 1
    ensures Throws(answers, maxRetries)
  {
  }

  /** A test that never passes is called exactly maxRetries times, then it throws. */
  lemma NeverPassesExhausts(answers: seq<bool>, maxRetries: int)
    requires maxRetries >= 1
    requires forall i :: 0 <= i < |answers| ==> !answers[i]
    ensures Calls(answers, maxRetries) == maxRetries
    ensures Throws(answers, maxRetries)
  {
    CallsStopAtFirstPass(answers, maxRetries);
    CallsBounds(answers, maxRetries);
  }

  /** repeatUntil throws although its last call passed exactly when the first
      pass is call number max(1, maxRetries), the last one allowed. */
  lemma ThrowsDespitePass(answers: seq<bool>, maxRetries: int)
    ensures (Throws(answers, maxRetries) && Answer(answers, Calls(answers, maxRetries) - 1)) <==>
      (Answer(answers, Max(1, maxRetries) - 1) &&
       forall i :: 0 <= i < Max(1, maxRetries) - 1 ==> !Answer(answers, i))
  {
    CallsStopAtFirstPass(answers, maxRetries);
    CallsBounds(answers, maxRetries);
    var m := Max(1, maxRetries);
    if Answer(answers, m - 1) && forall i :: 0 <= i < m - 1 ==> !Answer(answers, i) {
      FirstPassOutcome(answers, maxRetries, m);
    }
  }

  /** The smallest input that shows it: one allowed call, which passes, and the
      combinator still throws. */
  lemma ImmediatePassThrows()
    ensures Calls([true], 1) == 1 && Throws([true], 1)
  {
    ThrowsDespitePass([true], 1);
  }
}
