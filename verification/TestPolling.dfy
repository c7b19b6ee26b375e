// The polling loop around a test function: pass after enough successes in a row, give up after
// enough failures in a row, remembering only as many outcomes as the longer of the two runs.
module TestPolling {

  /** How a run of `Start` ends; the number counts the calls made. A loop whose context is cancelled
      before either condition holds is aborted. Negative counts can make a slice expression panic. */
  datatype Verdict = Passed(calls: nat) | GaveUp(calls: nat) | Aborted | Panicked

  // ---------- What the two conditions mean on the whole history ----------

  /** The last `n` outcomes are all `good`. */
  predicate EndsWith(history: seq<bool>, n: nat, good: bool) {
    n <= |history| && forall p :: |history| - n <= p < |history| ==> history[p] == good
  }

  /** Length of the run of `good` at the end. */
  function RunLength(history: seq<bool>, good: bool): (n: nat)
    ensures n <= |history|
  {
    if history == [] || history[|history| - 1] != good then 0
    else 1 + RunLength(history[..|history| - 1], good)
  }

  /** Ending in `n` such outcomes is the counter having reached `n`. */
  lemma {:induction false} EndsWithIsCounted(history: seq<bool>, n: nat, good: bool)
    ensures EndsWith(history, n, good) <==> n <= RunLength(history, good)
  {
    if history != [] && history[|history| - 1] == good && n > 0 {
      var front := history[..|history| - 1];
      EndsWithIsCounted(front, n - 1, good);
      assert forall p :: 0 <= p < |front| ==> front[p] == history[p];
    }
  }

  /** Only the last outcomes matter, so forgetting older ones does not change the condition. */
  lemma WindowSuffices(history: seq<bool>, window: nat, n: nat, good: bool)
    requires n <= window
    ensures EndsWith(Window(history, window), n, good) <==> EndsWith(history, n, good)
  {
    var w := Window(history, window);
    assert forall p :: 0 <= p < |w| ==> w[p] == history[|history| - |w| + p];
    if EndsWith(w, n, good) {
      forall p | |history| - n <= p < |history| ensures history[p] == good {
        assert w[p - (|history| - |w|)] == good;
      }
    }
  }

  function Window(history: seq<bool>, window: nat): seq<bool> {
    if |history| > window then history[|history| - window..] else history
  }

  // ---------- What Start is for ----------

  /** Some condition holds after `n` calls with these outcomes. */
  predicate Stops(outcomes: seq<bool>, n: nat, s: nat, f: nat)
    requires n <= |outcomes|
  {
    EndsWith(outcomes[..n], s, true) || (f > 0 && EndsWith(outcomes[..n], f, false))
  }

  /** The verdict on the full history: the first call after which a condition holds, success first. */
  ghost predicate Decides(outcomes: seq<bool>, s: nat, f: nat, v: Verdict) {
    match v
    case Passed(n) => 1 <= n <= |outcomes| && EndsWith(outcomes[..n], s, true) && forall m :: 1 <= m < n ==> !Stops(outcomes, m, s, f)
    case GaveUp(n) =>
      1 <= n <= |outcomes| && f > 0 && EndsWith(outcomes[..n], f, false) && !EndsWith(outcomes[..n], s, true)
      && forall m :: 1 <= m < n ==> !Stops(outcomes, m, s, f)
    case Aborted => forall m :: 1 <= m <= |outcomes| ==> !Stops(outcomes, m, s, f)
    case Panicked => false
  }

  /** Two counters decide the same as the full history: the first to reach its bound. */
  function Count(outcomes: seq<bool>, made: nat, successes: nat, failures: nat, s: nat, f: nat): Verdict
    requires made <= |outcomes|
    decreases |outcomes| - made
  {
    if made == |outcomes| then Aborted
    else
      var successes' := if outcomes[made] then successes + 1 else 0;
      var failures' := if outcomes[made] then 0 else failures + 1;
      if successes' >= s then Passed(made + 1)
      else if f > 0 && failures' >= f then GaveUp(made + 1)
      else Count(outcomes, made + 1, successes', failures', s, f)
  }

  lemma {:induction false} CountersDecide(outcomes: seq<bool>, made: nat, s: nat, f: nat)
    requires made <= |outcomes| && forall m :: 1 <= m <= made ==> !Stops(outcomes, m, s, f)
    ensures Decides(outcomes, s, f, Count(outcomes, made, RunLength(outcomes[..made], true), RunLength(outcomes[..made], false), s, f))
    decreases |outcomes| - made
  {
    if made < |outcomes| {
      var next := outcomes[..made + 1];
      assert next[..made] == outcomes[..made];
      EndsWithIsCounted(next, s, true);
      EndsWithIsCounted(next, f, false);
      if !Stops(outcomes, made + 1, s, f) {
        CountersDecide(outcomes, made + 1, s, f);
      }
    }
  }

  /** A verdict on the history is unique. */
  lemma DecidesIsUnique(outcomes: seq<bool>, s: nat, f: nat, v: Verdict, u: Verdict)
    requires Decides(outcomes, s, f, v) && Decides(outcomes, s, f, u)
    ensures v == u
  {
    hide EndsWith;
    var n := if v.Passed? || v.GaveUp? then v.calls else |outcomes| + 1;
    var m := if u.Passed? || u.GaveUp? then u.calls else |outcomes| + 1;
    assert n <= |outcomes| ==> Stops(outcomes, n, s, f);
    assert m <= |outcomes| ==> Stops(outcomes, m, s, f);
  }

  // ---------- The loop ----------

  /** Whether the last `count` kept outcomes are all `good`; none means the slice is out of range. */
  method Reached(history: seq<bool>, count: int, good: bool) returns (panicked: bool, reached: bool)
    ensures panicked <==> count < 0
    ensures count >= 0 ==> (reached <==> EndsWith(history, count, good))
  {
    if |history| < count {
      return false, false;
    }
    var offset := |history| - count;
    if offset > |history| {
      return true, false;
    }
    for p := offset to |history|
      invariant forall q :: offset <= q < p ==> history[q] == good
    {
      if history[p] != good {
        return false, false;
      }
    }
    return false, true;
  }

  datatype Judgement = Success | Failure | KeepGoing | Panic

  /** Both conditions, in the order of the loop, on the kept outcomes. */
  method Judge(history: seq<bool>, s: int, f: int) returns (j: Judgement)
    ensures j == if s < 0 then Panic
                 else if EndsWith(history, s, true) then Success
                 else if f < 0 then Panic
                 else if f > 0 && EndsWith(history, f, false) then Failure
                 else KeepGoing
  {
    var panicked, reached := Reached(history, s, true);
    if panicked {
      return Panic;
    }
    if reached {
      return Success;
    }
    if f != 0 {
      panicked, reached := Reached(history, f, false);
      if panicked {
        return Panic;
      }
      if reached {
        return Failure;
      }
    }
    return KeepGoing;
  }

  /** Appends an outcome and drops the oldest one beyond the bound. */
  method Remember(history: seq<bool>, outcome: bool, maxHistory: nat, ghost all: seq<bool>) returns (kept: seq<bool>)
    requires history == Window(all, maxHistory)
    ensures kept == Window(all + [outcome], maxHistory)
  {
    kept := history + [outcome];
    if |kept| > maxHistory {
      kept := kept[|kept| - maxHistory..];
    }
  }

  /** What the kept outcomes say about all of them. */
  lemma JudgementOnWindow(outcomes: seq<bool>, calls: nat, window: nat, s: nat, f: nat)
    requires calls <= |outcomes| && s <= window && f <= window
    ensures var kept := Window(outcomes[..calls], window);
            && (EndsWith(kept, s, true) <==> EndsWith(outcomes[..calls], s, true))
            && (EndsWith(kept, f, false) <==> EndsWith(outcomes[..calls], f, false))
  {
    WindowSuffices(outcomes[..calls], window, s, true);
    WindowSuffices(outcomes[..calls], window, f, false);
  }

  /** `outcomes` are the results of the calls the context leaves time for, in order. For counts that
      are not negative the verdict is that of the whole history, and of the two counters. */
  method Start(outcomes: seq<bool>, minSuccess: int, minFailure: int) returns (v: Verdict)
    ensures var s := if minSuccess == 0 then 1 else minSuccess;
            if s >= 0 && minFailure >= 0 then
              Decides(outcomes, s, minFailure, v) && v == Count(outcomes, 0, 0, 0, s, minFailure)
            else v == NegativeCounts(outcomes, s, minFailure)
  {
    var s := if minSuccess == 0 then 1 else minSuccess;
    var maxHistory := if s >= minFailure then s else minFailure;
    if maxHistory < 0 {
      return Panicked;
    }
    var testFnHistory: seq<bool> := [];
    var calls := 0;
    hide EndsWith, Window, Count, RunLength;
    assert outcomes[..0] == [];
    WindowOfNothing(maxHistory);
    while calls < |outcomes|
      invariant 0 <= calls <= |outcomes|
      invariant testFnHistory == Window(outcomes[..calls], maxHistory)
      invariant calls > 0 ==> s >= 0 && minFailure >= 0
      invariant s >= 0 && minFailure >= 0 ==> forall m :: 1 <= m <= calls ==> !Stops(outcomes, m, s, minFailure)
    {
      testFnHistory := Remember(testFnHistory, outcomes[calls], maxHistory, outcomes[..calls]);
      calls := calls + 1;
      assert outcomes[..calls] == outcomes[..calls - 1] + [outcomes[calls - 1]];
      var j := Judge(testFnHistory, s, minFailure);
      if s >= 0 && minFailure >= 0 {
        JudgementOnWindow(outcomes, calls, maxHistory, s, minFailure);
      } else if s >= 0 {
        FirstSuccess(outcomes, s, maxHistory);
      }
      match j {
        case Success =>
          v := Passed(calls);
          DecidedHere(outcomes, s, minFailure, v);
          return;
        case Failure =>
          v := GaveUp(calls);
          DecidedHere(outcomes, s, minFailure, v);
          return;
        case Panic =>
          return Panicked;
        case KeepGoing =>
      }
    }
    v := Aborted;
    DecidedHere(outcomes, s, minFailure, v);
  }

  /** With a negative count the first call panics, unless it passes before the count is used. */
  function NegativeCounts(outcomes: seq<bool>, s: int, f: int): Verdict {
    if s < 0 && f < 0 then Panicked
    else if outcomes == [] then Aborted
    else if s == 1 && outcomes[0] then Passed(1)
    else Panicked
  }

  lemma WindowOfNothing(window: nat)
    ensures Window([], window) == []
  {
  }

  lemma FirstSuccess(outcomes: seq<bool>, s: nat, window: nat)
    requires outcomes != [] && 1 <= s <= window
    ensures EndsWith(Window(outcomes[..1], window), s, true) <==> s == 1 && outcomes[0]
  {
  }

  lemma DecidedHere(outcomes: seq<bool>, s: int, f: int, v: Verdict)
    requires s >= 0 && f >= 0 ==> Decides(outcomes, s, f, v)
    ensures s >= 0 && f >= 0 ==> v == Count(outcomes, 0, 0, 0, s, f)
  {
    if s >= 0 && f >= 0 {
      CountersDecide(outcomes, 0, s, f);
      DecidesIsUnique(outcomes, s, f, v, Count(outcomes, 0, 0, 0, s, f));
    }
  }
}
