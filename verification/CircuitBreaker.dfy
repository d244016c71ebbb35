/**
 The in-process circuit breaker (src/apex/adapters/http_resilience.py:361-390), proved to agree with
 its event history.
 */
module CircuitBreakers {
  import opened Options

  /** What a caller does to a breaker, with the monotonic time at which it reads the clock. */
  datatype Event = Checked(who: nat, at: real) | Succeeded(who: nat) | Failed(who: nat, at: real)

  datatype Settings = Settings(threshold: int, resetAfter: real)

  /** Failures recorded in `history` after its first `from` events. */
  function FailuresAfter(history: seq<Event>, from: nat): nat {
    if |history| <= from then 0
    else FailuresAfter(history[..|history| - 1], from) + (if history[|history| - 1].Failed? then 1 else 0)
  }

  function LatestFailure(history: seq<Event>): Option<real> {
    if history == [] then None
    else
      var last := history[|history| - 1];
      if last.Failed? then Some(last.at) else LatestFailure(history[..|history| - 1])
  }

  /** Where the current streak begins: after the last success or the last check that timed the breaker out. */
  function StreakStart(s: Settings, history: seq<Event>): (start: nat)
    ensures start <= |history|
    decreases |history|, 0
  {
    if history == [] then 0
    else
      var earlier, last := history[..|history| - 1], history[|history| - 1];
      if last.Succeeded? || (last.Checked? && IsOpen(s, earlier) && !Rejects(s, earlier, last.at)) then |history|
      else StreakStart(s, earlier)
  }

  /** Open: the failures of the current streak reach the threshold (a threshold below one acts as one). */
  predicate IsOpen(s: Settings, history: seq<Event>)
    decreases |history|, 1
  {
    FailuresAfter(history, StreakStart(s, history)) >= (if s.threshold < 1 then 1 else s.threshold)
  }

  /** An open breaker rejects while less than `resetAfter` has passed since the latest failure. */
  predicate Rejects(s: Settings, history: seq<Event>, now: real)
    decreases |history|, 2
  {
    IsOpen(s, history) && LatestFailure(history).Some? && now - LatestFailure(history).value < s.resetAfter
  }

  lemma {:induction false} StreakHasFailure(history: seq<Event>, from: nat)
    requires FailuresAfter(history, from) > 0
    ensures LatestFailure(history).Some?
  {
    if !history[|history| - 1].Failed? { StreakHasFailure(history[..|history| - 1], from); }
  }

  lemma Appended(history: seq<Event>, e: Event)
    ensures (history + [e])[..|history + [e]| - 1] == history
  {
  }

  class CircuitBreaker {
    const settings: Settings
    var failures: int
    var openedAt: Option<real>
    ghost var history: seq<Event>

    /** The fields say what the history says: the streak's length, and when an open breaker opened. */
    ghost predicate Valid()
      reads this
    {
      && failures == FailuresAfter(history, StreakStart(settings, history))
      && openedAt == if IsOpen(settings, history) then LatestFailure(history) else None
    }

    constructor (settings: Settings)
      ensures Valid() && history == [] && this.settings == settings
    {
      this.settings := settings;
      failures, openedAt, history := 0, None, [];
    }

    method BeforeRequest(now: real, ghost who: nat) returns (rejected: bool)
      requires Valid()
      modifies this
      ensures Valid() && history == old(history) + [Checked(who, now)]
      ensures rejected <==> Rejects(settings, old(history), now)
    {
      Appended(history, Checked(who, now));
      StreakOpen();
      rejected := false;
      if openedAt.Some? {
        if now - openedAt.value < settings.resetAfter {
          rejected := true;
        } else {
          openedAt := None;
          failures := 0;
        }
      }
      history := history + [Checked(who, now)];
    }

    lemma StreakOpen()
      requires Valid()
      ensures IsOpen(settings, history) <==> openedAt.Some?
    {
      if IsOpen(settings, history) { StreakHasFailure(history, StreakStart(settings, history)); }
    }

    method RecordSuccess(ghost who: nat)
      requires Valid()
      modifies this
      ensures Valid() && history == old(history) + [Succeeded(who)]
    {
      Appended(history, Succeeded(who));
      failures := 0;
      openedAt := None;
      history := history + [Succeeded(who)];
    }

    method RecordFailure(now: real, ghost who: nat)
      requires Valid()
      modifies this
      ensures Valid() && history == old(history) + [Failed(who, now)]
    {
      Appended(history, Failed(who, now));
      failures := failures + 1;
      if failures >= settings.threshold {
        openedAt := Some(now);
      }
      history := history + [Failed(who, now)];
    }
  }

  // ---- Phases, without the streak -----------------------------------------------------------

  /** When the failures among `events` happened, in order. */
  function FailureTimes(events: seq<Event>): seq<real> {
    if events == [] then []
    else
      var last := events[|events| - 1];
      FailureTimes(events[..|events| - 1]) + if last.Failed? then [last.at] else []
  }

  function Threshold(s: Settings): int { if s.threshold < 1 then 1 else s.threshold }

  /** A full threshold of failures, and then `resetAfter` has passed at `now` since the latest of them. */
  predicate TimedOut(s: Settings, events: seq<Event>, now: real) {
    var times := FailureTimes(events);
    |times| >= Threshold(s) && now - times[|times| - 1] >= s.resetAfter
  }

  /** No success, and no check late enough to reset the breaker; checks and failures stand in any order. */
  ghost predicate OnePhase(s: Settings, events: seq<Event>) {
    forall i :: 0 <= i < |events| ==>
      !events[i].Succeeded? && (events[i].Checked? ==> !TimedOut(s, events[..i], events[i].at))
  }

  /** A phase begins with the breaker, after a success, and after the check that finds the last phase timed out. */
  ghost predicate PhaseBegins(s: Settings, history: seq<Event>)
    decreases |history|
  {
    history != [] ==>
      var earlier, last := history[..|history| - 1], history[|history| - 1];
      || last.Succeeded?
      || (last.Checked? && exists n :: 0 <= n <= |earlier| && PhaseBegins(s, earlier[..n])
                                       && OnePhase(s, earlier[n..]) && TimedOut(s, earlier[n..], last.at))
  }

  lemma Extended(events: seq<Event>)
    requires events != []
    ensures var earlier, last := events[..|events| - 1], events[|events| - 1];
            FailureTimes(events) == FailureTimes(earlier) + if last.Failed? then [last.at] else []
  {
  }

  /**
   What every history says about the breaker: within the phase that began after the first `n` events it is open
   exactly if that phase has had a full threshold of failures, whatever checks stand between them; then the
   latest of them dates it; and it rejects exactly while less than `resetAfter` has passed since that one.
   */
  lemma {:induction false} PhaseDecides(s: Settings, history: seq<Event>, n: nat)
    requires n <= |history| && PhaseBegins(s, history[..n]) && OnePhase(s, history[n..])
    ensures var times := FailureTimes(history[n..]);
            && StreakStart(s, history) == n && FailuresAfter(history, n) == |times|
            && (IsOpen(s, history) <==> |times| >= Threshold(s))
            && (times != [] ==> LatestFailure(history) == Some(times[|times| - 1]))
            && forall now :: Rejects(s, history, now) <==>
                 |times| >= Threshold(s) && now - times[|times| - 1] < s.resetAfter
    decreases |history|, 1
  {
    if n == |history| {
      assert history[..n] == history && history[n..] == [];
      NewPhase(s, history);
    } else {
      var earlier, last := history[..|history| - 1], history[|history| - 1];
      var events := history[n..];
      assert earlier[..n] == history[..n] && earlier[n..] == events[..|events| - 1] && events[|events| - 1] == last;
      assert OnePhase(s, earlier[n..]) by {
        forall i | 0 <= i < |earlier[n..]| ensures earlier[n..][..i] == events[..i] {}
      }
      PhaseDecides(s, earlier, n);
      Extended(events);
    }
  }

  /** Nothing counts at the beginning of a phase. */
  lemma {:induction false} NewPhase(s: Settings, history: seq<Event>)
    requires PhaseBegins(s, history)
    ensures StreakStart(s, history) == |history|
    decreases |history|, 0
  {
    if history != [] && !history[|history| - 1].Succeeded? {
      var earlier, last := history[..|history| - 1], history[|history| - 1];
      var n :| 0 <= n <= |earlier| && PhaseBegins(s, earlier[..n]) && OnePhase(s, earlier[n..])
               && TimedOut(s, earlier[n..], last.at);
      PhaseDecides(s, earlier, n);
    }
  }

  /** Every history is in exactly one phase, so the above decides every breaker. */
  lemma {:induction false} EveryHistoryHasPhase(s: Settings, history: seq<Event>) returns (n: nat)
    ensures n <= |history| && PhaseBegins(s, history[..n]) && OnePhase(s, history[n..])
    ensures forall m :: 0 <= m <= |history| && PhaseBegins(s, history[..m]) && OnePhase(s, history[m..]) ==> m == n
  {
    if history == [] {
      n := 0;
    } else {
      var earlier, last := history[..|history| - 1], history[|history| - 1];
      n := EveryHistoryHasPhase(s, earlier);
      if last.Succeeded? || (last.Checked? && TimedOut(s, earlier[n..], last.at)) {
        n := |history|;
        assert history[..n] == history;
      } else {
        assert history[..n] == earlier[..n];
        assert history[n..][..|history| - 1 - n] == earlier[n..];
        forall i | 0 <= i < |history| - n
          ensures !history[n..][i].Succeeded?
          ensures history[n..][i].Checked? ==> !TimedOut(s, history[n..][..i], history[n..][i].at)
        {
          if i < |history| - 1 - n { assert history[n..][..i] == earlier[n..][..i]; }
        }
      }
    }
    forall m | 0 <= m <= |history| && PhaseBegins(s, history[..m]) && OnePhase(s, history[m..]) ensures m == n {
      PhaseDecides(s, history, m);
      PhaseDecides(s, history, n);
    }
  }

  /** A reset or a success closes the breaker; it opens again only after a full threshold of new failures. */
  lemma {:induction false} ReopensAfterFullStreak(s: Settings, history: seq<Event>, failures: seq<Event>)
    requires history != [] && forall i :: 0 <= i < |failures| ==> failures[i].Failed?
    requires var last, earlier := history[|history| - 1], history[..|history| - 1];
             last.Succeeded? || (last.Checked? && IsOpen(s, earlier) && !Rejects(s, earlier, last.at))
    ensures var later := history + failures;
            && FailuresAfter(later, StreakStart(s, later)) == |failures|
            && (IsOpen(s, later) <==> |failures| >= (if s.threshold < 1 then 1 else s.threshold))
            && (failures != [] ==> LatestFailure(later) == Some(failures[|failures| - 1].at))
            && StreakStart(s, later) == |history|
    decreases |failures|
  {
    if failures == [] {
      assert history + failures == history;
    } else {
      var fewer, last := failures[..|failures| - 1], failures[|failures| - 1];
      ReopensAfterFullStreak(s, history, fewer);
      assert history + failures == (history + fewer) + [last];
      Appended(history + fewer, last);
    }
  }
}
