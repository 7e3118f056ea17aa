/** The reconnect throttle: a minimum interval and an exponential backoff. Durations and instants are
    whole nanoseconds. */
module Throttle {
  import opened Common

  const SECOND := 1_000_000_000
  const DEFAULT_MIN_INTERVAL := 60 * SECOND
  const MAX_BACKOFF := 30 * 60 * SECOND

  predicate OccursAt(text: string, part: string, i: nat) {
    i + |part| <= |text| && text[i..i + |part|] == part
  }

  predicate Contains(text: string, part: string) {
    exists i :: 0 <= i <= |text| && OccursAt(text, part, i)
  }

  /** The text has the part somewhere. */
  ghost predicate Names(text: string, part: string) {
    exists before, after :: text == before + part + after
  }

  lemma ContainsIsNames(text: string, part: string)
    ensures Contains(text, part) <==> Names(text, part)
  {
    if Contains(text, part) {
      var i :| 0 <= i <= |text| && OccursAt(text, part, i);
      assert text == text[..i] + part + text[i + |part|..];
    }
    if before, after :| text == before + part + after {
      assert text[|before|..|before| + |part|] == part;
      assert OccursAt(text, part, |before|);
    }
  }

  /** Rate limit or restart. */
  predicate IsBackoffError(error: Option<string>) {
    error.Some? && (Contains(error.value, "429") || Contains(error.value, "515"))
  }

  datatype State = State(backoff: int, last: Option<int>)

  function Init(): State { State(0, None) }

  function BackoffAfter(s: State, backoffError: bool, minInterval: int): int {
    if !backoffError then 0
    else if s.backoff == 0 then minInterval
    else Min(s.backoff * 2, MAX_BACKOFF)
  }

  function Wait(s: State, base: int, now: int): int {
    if s.last.None? then base
    else if now - s.last.value < base then base - (now - s.last.value)
    else 0
  }

  function After(s: State, backoffError: bool, now: int, minInterval: int): State {
    var backoff := BackoffAfter(s, backoffError, minInterval);
    State(backoff, Some(now + Wait(s, Max(minInterval, backoff), now)))
  }

  class ReconnectThrottle {
    const minInterval: int
    var backoff: int
    var last: Option<int>

    constructor (interval: int)
      ensures Now() == Init()
      ensures minInterval == if interval <= 0 then 60_000_000_000 else interval
    {
      minInterval := if interval <= 0 then DEFAULT_MIN_INTERVAL else interval;
      backoff, last := 0, None;
    }

    function Now(): State
      reads this
    {
      State(backoff, last)
    }

    method Next(error: Option<string>, now: int) returns (wait: int, reason: string)
      requires minInterval > 0
      modifies this
      ensures Now() == After(old(Now()), IsBackoffError(error), now, minInterval)
      ensures last == Some(now + wait) && wait >= 0
      ensures reason == if IsBackoffError(error) then "backoff" else "throttled"
      // In terms of the error's text, the time since the last due time, and plain numbers:
      ensures reason == "backoff" <==> error.Some? && (Names(error.value, "429") || Names(error.value, "515"))
      ensures reason == "backoff" ==>
                backoff == if old(backoff) == 0 then minInterval else Min(old(backoff) * 2, 1_800_000_000_000)
      ensures reason != "backoff" ==> backoff == 0
      ensures now + wait == if old(last).None? then now + Max(minInterval, backoff)
                            else Max(now, old(last).value + Max(minInterval, backoff))
      ensures wait == 0 <==> old(last).Some? && now >= old(last).value + Max(minInterval, backoff)
      ensures old(last).Some? ==> now + wait >= old(last).value + Max(minInterval, backoff)
    {
      reason := "throttled";
      if error.Some? {
        ContainsIsNames(error.value, "429");
        ContainsIsNames(error.value, "515");
      }
      if IsBackoffError(error) {
        if backoff == 0 {
          backoff := minInterval;
        } else {
          backoff := backoff * 2;
          if backoff > MAX_BACKOFF { backoff := MAX_BACKOFF; }
        }
        reason := "backoff";
      } else {
        backoff := 0;
      }
      var base := minInterval;
      if backoff > base { base := backoff; }
      wait := 0;
      if last.None? {
        wait := base;
      } else {
        var elapsed := now - last.value;
        if elapsed < base { wait := base - elapsed; }
      }
      last := Some(now + wait);
    }

    method Reset()
      modifies this
      ensures Now() == old(Now()).(backoff := 0)
    {
      backoff := 0;
    }
  }

  // ---- the backoff ----

  function Power(n: nat): nat { if n == 0 then 1 else 2 * Power(n - 1) }

  /** The state after `k` backoff errors in a row. */
  function Errors(s: State, times: seq<int>, minInterval: int): State {
    if times == [] then s
    else After(Errors(s, times[..|times| - 1], minInterval), true, times[|times| - 1], minInterval)
  }

  lemma {:induction false} PowerAtLeastOne(n: nat)
    ensures Power(n) >= 1
  {
    if n > 0 { PowerAtLeastOne(n - 1); }
  }

  /** After k >= 1 backoff errors from a reset state the backoff is the minimum interval doubled k - 1
      times, capped - except that the first one is not capped. */
  lemma {:induction false} BackoffDoubles(s: State, times: seq<int>, minInterval: int)
    requires s.backoff == 0 && minInterval > 0 && times != []
    ensures Errors(s, times, minInterval).backoff ==
            if |times| == 1 then minInterval else Min(minInterval * Power(|times| - 1), MAX_BACKOFF)
  {
    var k := |times|;
    if k == 1 {
      assert Errors(s, times[..0], minInterval) == s;
    } else {
      BackoffDoubles(s, times[..k - 1], minInterval);
      Doubling(minInterval, Power(k - 2));
      PowerAtLeastOne(k - 2);
      assert Power(k - 1) == 2 * Power(k - 2);
    }
  }

  lemma Doubling(a: int, p: int)
    ensures a * (2 * p) == 2 * (a * p)
    ensures a > 0 && p >= 1 ==> a * p >= 1
  {
    if a > 0 && p >= 1 { assert a * p >= 1 * p; }
  }

  /** The documented formula holds for every number of errors exactly when the minimum interval does
      not exceed the cap. */
  lemma BackoffFormulaIff(s: State, minInterval: int)
    requires s.backoff == 0 && minInterval > 0
    ensures minInterval <= MAX_BACKOFF <==>
            forall times: seq<int> :: times != [] ==>
              Errors(s, times, minInterval).backoff == Min(minInterval * Power(|times| - 1), MAX_BACKOFF)
  {
    forall times: seq<int> | times != [] && (|times| > 1 || minInterval <= MAX_BACKOFF)
      ensures Errors(s, times, minInterval).backoff == Min(minInterval * Power(|times| - 1), MAX_BACKOFF)
    {
      BackoffDoubles(s, times, minInterval);
    }
    BackoffDoubles(s, [0], minInterval);
    assert Power(0) == 1;
    assert Errors(s, [0], minInterval).backoff == minInterval;
  }

  // ---- the spacing, for any calls and any clock ----

  datatype Call = Next(backoffError: bool, now: int) | Reset

  function Run(calls: seq<Call>, minInterval: int): State {
    if calls == [] then Init()
    else
      var s := Run(calls[..|calls| - 1], minInterval);
      match calls[|calls| - 1]
      case Next(e, now) => After(s, e, now, minInterval)
      case Reset => s.(backoff := 0)
  }

  /** The instants at which reconnects are due, one for each Next. */
  function Due(calls: seq<Call>, minInterval: int): seq<int> {
    if calls == [] then []
    else
      var before := Due(calls[..|calls| - 1], minInterval);
      match calls[|calls| - 1]
      case Next(_, _) => var last := Run(calls, minInterval).last; before + [if last.Some? then last.value else 0]
      case Reset => before
  }

  lemma {:induction false} LastIsDue(calls: seq<Call>, minInterval: int)
    ensures Due(calls, minInterval) == [] <==> Run(calls, minInterval).last.None?
    ensures var due := Due(calls, minInterval);
            due != [] ==> Run(calls, minInterval).last == Some(due[|due| - 1])
  {
    if calls != [] { LastIsDue(calls[..|calls| - 1], minInterval); }
  }

  /** Whatever the errors, the resets and the clock - which may jump back - the instants due are at
      least the minimum interval apart: n calls span at least (n - 1) intervals. */
  lemma {:induction false} DueTimesAreSpaced(calls: seq<Call>, minInterval: int, i: nat, j: nat)
    requires minInterval > 0 && i <= j < |Due(calls, minInterval)|
    ensures Due(calls, minInterval)[j] >= Due(calls, minInterval)[i] + (j - i) * minInterval
  {
    var front := calls[..|calls| - 1];
    var due, before := Due(calls, minInterval), Due(front, minInterval);
    LastIsDue(front, minInterval);
    if j < |before| {
      DueTimesAreSpaced(front, minInterval, i, j);
    } else if i < j {
      DueTimesAreSpaced(front, minInterval, i, j - 1);
      assert due[j] >= before[j - 1] + minInterval;
      OneMore(j - i, minInterval);
    } else {
      assert (j - i) * minInterval == 0;
    }
  }

  lemma OneMore(n: int, a: int)
    ensures n * a == (n - 1) * a + a
  {
  }

  /** And each is at least the backoff of its call after the one before. */
  lemma DueTimesRespectBackoff(calls: seq<Call>, minInterval: int)
    requires minInterval > 0 && calls != [] && calls[|calls| - 1].Next? && Due(calls[..|calls| - 1], minInterval) != []
    ensures var due := Due(calls, minInterval);
            |due| >= 2 && due[|due| - 1] >= due[|due| - 2] + Max(minInterval, Run(calls, minInterval).backoff)
  {
    LastIsDue(calls[..|calls| - 1], minInterval);
  }
}
