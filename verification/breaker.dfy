/** The per-model circuit breaker (internal/circuitbreaker/breaker.go).

  `Circuit` is the value of the fields a Breaker updates; `Next` says what one call does to it. The class
  below is proved against `Next`, and the properties are proved over every run of calls, a run being the
  sequence of calls made on one breaker since it was created. The clock is an argument of the calls that
  read it, in nanoseconds. */
module CircuitBreaker {
  import opened Common

  datatype State = Closed | Open | HalfOpen

  datatype Config = Config(threshold: int, timeout: int, halfOpenMax: int)

  datatype Circuit = Circuit(state: State, failures: int, lastFailure: int, halfOpenActive: int)

  /** One call on the breaker. `Ask` is Allow; the other three report the outcome of an admitted request. */
  datatype Call = Ask(now: int) | Success | Failure(now: int) | Neutral

  const NEW_CIRCUIT := Circuit(Closed, 0, 0, 0)

  /** Whether Allow answers true, and what Permits answers. */
  predicate Admits(cfg: Config, c: Circuit, now: int) {
    match c.state
    case Closed => true
    case Open => !(now - c.lastFailure < cfg.timeout)
    case HalfOpen => c.halfOpenActive < cfg.halfOpenMax
  }

  function AfterAsk(cfg: Config, c: Circuit, now: int): Circuit {
    if !Admits(cfg, c, now) || c.state == Closed then c
    else if c.state == Open then c.(state := HalfOpen, halfOpenActive := 1)
    else c.(halfOpenActive := c.halfOpenActive + 1)
  }

  function Release(c: Circuit): Circuit {
    if c.halfOpenActive > 0 then c.(halfOpenActive := c.halfOpenActive - 1) else c
  }

  function AfterSuccess(c: Circuit): Circuit {
    match c.state
    case HalfOpen => Release(c.(state := Closed, failures := 0))
    case Closed => c.(failures := 0)
    case Open => c
  }

  function AfterFailure(cfg: Config, c: Circuit, now: int): Circuit {
    match c.state
    case Closed =>
      var d := c.(failures := c.failures + 1);
      if d.failures >= cfg.threshold then d.(state := Open, lastFailure := now) else d
    case HalfOpen => Release(c.(state := Open, lastFailure := now))
    case Open => c
  }

  function AfterNeutral(c: Circuit): Circuit {
    if c.state == HalfOpen then Release(c) else c
  }

  function Next(cfg: Config, c: Circuit, call: Call): Circuit {
    match call
    case Ask(now) => AfterAsk(cfg, c, now)
    case Success => AfterSuccess(c)
    case Failure(now) => AfterFailure(cfg, c, now)
    case Neutral => AfterNeutral(c)
  }

  class Breaker {
    var state: State
    var failures: int
    var lastFailure: int
    var halfOpenActive: int
    const cfg: Config
    /** Every call made so far. */
    ghost var history: seq<Call>

    ghost function Value(): Circuit
      reads this
    {
      Circuit(state, failures, lastFailure, halfOpenActive)
    }

    ghost predicate Valid()
      reads this
    {
      Value() == After(cfg, history)
    }

    constructor (cfg: Config)
      ensures Valid() && this.cfg == cfg && history == [] && Value() == NEW_CIRCUIT
    {
      this.cfg := cfg;
      state, failures, lastFailure, halfOpenActive := Closed, 0, 0, 0;
      history := [];
    }

    method Allow(now: int) returns (ok: bool)
      requires Valid()
      modifies this
      ensures Valid() && history == old(history) + [Ask(now)]
      ensures ok == Admits(cfg, old(Value()), now)
      ensures Value() == Next(cfg, old(Value()), Ask(now))
    {
      history := history + [Ask(now)];
      match state {
        case Closed =>
          ok := true;
        case Open =>
          if now - lastFailure < cfg.timeout {
            ok := false;
          } else {
            state := HalfOpen;
            halfOpenActive := 1;
            ok := true;
          }
        case HalfOpen =>
          if halfOpenActive >= cfg.halfOpenMax {
            ok := false;
          } else {
            halfOpenActive := halfOpenActive + 1;
            ok := true;
          }
      }
    }

    method Permits(now: int) returns (ok: bool)
      ensures ok == Admits(cfg, Value(), now)
    {
      match state {
        case Closed => ok := true;
        case Open => ok := now - lastFailure >= cfg.timeout;
        case HalfOpen => ok := halfOpenActive < cfg.halfOpenMax;
      }
    }

    method RecordSuccess()
      requires Valid()
      modifies this
      ensures Valid() && history == old(history) + [Success]
      ensures Value() == Next(cfg, old(Value()), Success)
    {
      history := history + [Success];
      match state {
        case HalfOpen =>
          state := Closed;
          failures := 0;
          if halfOpenActive > 0 {
            halfOpenActive := halfOpenActive - 1;
          }
        case Closed =>
          failures := 0;
        case Open =>
      }
    }

    method RecordFailure(now: int)
      requires Valid()
      modifies this
      ensures Valid() && history == old(history) + [Failure(now)]
      ensures Value() == Next(cfg, old(Value()), Failure(now))
    {
      history := history + [Failure(now)];
      match state {
        case Closed =>
          failures := failures + 1;
          if failures >= cfg.threshold {
            state := Open;
            lastFailure := now;
          }
        case HalfOpen =>
          state := Open;
          lastFailure := now;
          if halfOpenActive > 0 {
            halfOpenActive := halfOpenActive - 1;
          }
        case Open =>
      }
    }

    method RecordNeutral()
      requires Valid()
      modifies this
      ensures Valid() && history == old(history) + [Neutral]
      ensures Value() == Next(cfg, old(Value()), Neutral)
    {
      history := history + [Neutral];
      if state == HalfOpen && halfOpenActive > 0 {
        halfOpenActive := halfOpenActive - 1;
      }
    }
  }

  // ---------------------------------------------------------------------------------------------------
  // Runs
  // ---------------------------------------------------------------------------------------------------

  /** The circuit after a run of calls. */
  function After(cfg: Config, run: seq<Call>): Circuit {
    if run == [] then NEW_CIRCUIT else Next(cfg, After(cfg, Front(run)), Last(run))
  }

  /** What a call adds to the number of Record calls owed: a true Allow owes one, a Record call pays one. */
  function Owed(cfg: Config, c: Circuit, call: Call): int {
    if !call.Ask? then -1 else if Admits(cfg, c, call.now) then 1 else 0
  }

  /** Requests admitted by Allow and not yet balanced by a Record call. */
  function Outstanding(cfg: Config, run: seq<Call>): int {
    if run == [] then 0
    else Outstanding(cfg, Front(run)) + Owed(cfg, After(cfg, Front(run)), Last(run))
  }

  /** Every Record call balances an earlier true Allow, and no Allow is balanced twice. */
  ghost predicate Balanced(cfg: Config, run: seq<Call>) {
    forall n :: 0 <= n <= |run| ==> Outstanding(cfg, run[..n]) >= 0
  }

  lemma AfterAppend(cfg: Config, run: seq<Call>, call: Call)
    ensures After(cfg, run + [call]) == Next(cfg, After(cfg, run), call)
    ensures Outstanding(cfg, run + [call]) == Outstanding(cfg, run) + Owed(cfg, After(cfg, run), call)
  {
    assert Front(run + [call]) == run;
  }

  lemma BalancedFront(cfg: Config, run: seq<Call>)
    requires run != [] && Balanced(cfg, run)
    ensures Balanced(cfg, Front(run)) && Outstanding(cfg, run) >= 0
  {
    forall n | 0 <= n <= |run| - 1
      ensures Outstanding(cfg, Front(run)[..n]) >= 0
    {
      assert Front(run)[..n] == run[..n];
    }
    assert run[..|run|] == run;
  }

  /** The probe counter never goes below zero, and in HalfOpen it is bounded both by the configured limit and
      by the number of requests that still owe a Record call. */
  lemma {:induction false} ProbeCounterBounded(cfg: Config, run: seq<Call>)
    requires cfg.halfOpenMax >= 1 && Balanced(cfg, run)
    ensures var c := After(cfg, run);
      && 0 <= c.halfOpenActive
      && (c.state == HalfOpen ==> c.halfOpenActive <= cfg.halfOpenMax && c.halfOpenActive <= Outstanding(cfg, run))
  {
    if run != [] {
      BalancedFront(cfg, run);
      ProbeCounterBounded(cfg, Front(run));
    }
  }

  /** The breaker never starves: once nothing is outstanding and the recovery timeout has passed, a request is
      admitted whatever happened before, and its success closes the circuit. */
  lemma {:induction false} NeverStarves(cfg: Config, run: seq<Call>, now: int)
    requires cfg.halfOpenMax >= 1 && Balanced(cfg, run) && Outstanding(cfg, run) == 0
    requires After(cfg, run).state == Open ==> now >= After(cfg, run).lastFailure + cfg.timeout
    ensures Admits(cfg, After(cfg, run), now)
    ensures var c := After(cfg, run + [Ask(now), Success]); c.state == Closed && c.failures == 0
  {
    ProbeCounterBounded(cfg, run);
    AfterAppend(cfg, run, Ask(now));
    AfterAppend(cfg, run + [Ask(now)], Success);
    assert run + [Ask(now)] + [Success] == run + [Ask(now), Success];
  }

  /** A failure recorded while the circuit was Closed. */
  ghost predicate CountedFailure(cfg: Config, run: seq<Call>, i: nat)
    requires i < |run|
  {
    run[i].Failure? && After(cfg, run[..i]).state == Closed
  }

  /** A success recorded while the circuit was not Open: it ends a streak of failures. */
  ghost predicate EndsStreak(cfg: Config, run: seq<Call>, i: nat)
    requires i < |run|
  {
    run[i].Success? && After(cfg, run[..i]).state != Open
  }

  ghost function CountedFailures(cfg: Config, run: seq<Call>, from: nat): nat
    requires from <= |run|
    decreases |run|
  {
    if |run| == from then 0
    else CountedFailures(cfg, Front(run), from) + if CountedFailure(cfg, run, |run| - 1) then 1 else 0
  }

  /** Where the current streak starts: just after the last call that ended one. */
  ghost function StreakStart(cfg: Config, run: seq<Call>): (start: nat)
    ensures start <= |run|
    ensures start > 0 ==> EndsStreak(cfg, run, start - 1)
    ensures forall i :: start <= i < |run| ==> !EndsStreak(cfg, run, i)
  {
    if run == [] then 0
    else if EndsStreak(cfg, run, |run| - 1) then |run|
    else
      var start := StreakStart(cfg, Front(run));
      assert forall i :: 0 <= i < |run| - 1 ==> Front(run)[..i] == run[..i];
      assert forall i :: 0 <= i < |run| - 1 ==> (EndsStreak(cfg, Front(run), i) <==> EndsStreak(cfg, run, i));
      start
  }

  /** The failure counter is the number of failures recorded while Closed since the last success that counted,
      and in Closed it has not reached the threshold. */
  lemma {:induction false} FailuresAreTheStreak(cfg: Config, run: seq<Call>)
    requires cfg.threshold >= 1
    ensures After(cfg, run).failures == CountedFailures(cfg, run, StreakStart(cfg, run))
    ensures After(cfg, run).state == Closed ==> After(cfg, run).failures < cfg.threshold
  {
    if run != [] {
      FailuresAreTheStreak(cfg, Front(run));
      assert run[..|run| - 1] == Front(run);
    }
  }

  /** Closed opens on the threshold-th failure of a streak, and on no other call. */
  lemma {:induction false} TripsExactlyAtThreshold(cfg: Config, run: seq<Call>, call: Call)
    requires cfg.threshold >= 1
    ensures var c := After(cfg, run);
      (c.state == Closed && After(cfg, run + [call]).state == Open) <==>
      (c.state == Closed && call.Failure? && CountedFailures(cfg, run, StreakStart(cfg, run)) + 1 == cfg.threshold)
    ensures After(cfg, run).state == Closed && After(cfg, run + [call]).state == Open ==>
      After(cfg, run + [call]).lastFailure == call.now
  {
    FailuresAreTheStreak(cfg, run);
    AfterAppend(cfg, run, call);
  }

  /** While the circuit is Open and the timeout has not passed, nothing is admitted and no call, late failures
      included, changes anything: the trip time stands. */
  lemma {:induction false} OpenIsFrozen(cfg: Config, run: seq<Call>, tail: seq<Call>)
    requires After(cfg, run).state == Open
    requires forall call :: call in tail && call.Ask? ==> call.now < After(cfg, run).lastFailure + cfg.timeout
    ensures After(cfg, run + tail) == After(cfg, run)
    ensures forall i :: 0 <= i < |tail| && tail[i].Ask? ==> !Admits(cfg, After(cfg, run + tail[..i]), tail[i].now)
  {
    if tail == [] {
      assert run + tail == run;
    } else {
      OpenIsFrozen(cfg, run, Front(tail));
      AfterAppend(cfg, run + Front(tail), Last(tail));
      assert run + Front(tail) + [Last(tail)] == run + tail;
      forall i | 0 <= i < |tail| && tail[i].Ask?
        ensures !Admits(cfg, After(cfg, run + tail[..i]), tail[i].now)
      {
        if i < |tail| - 1 {
          assert Front(tail)[..i] == tail[..i];
        } else {
          assert tail[..i] == Front(tail);
        }
      }
    }
  }

  /** A report that decides a probe. */
  predicate Verdict(call: Call) {
    call.Success? || call.Failure?
  }

  ghost predicate RemainsHalfOpen(cfg: Config, run: seq<Call>, tail: seq<Call>) {
    forall n :: 0 <= n <= |tail| ==> After(cfg, run + tail[..n]).state == HalfOpen
  }

  lemma RemainsOneMore(cfg: Config, run: seq<Call>, tail: seq<Call>)
    requires tail != []
    ensures RemainsHalfOpen(cfg, run, tail) <==>
      RemainsHalfOpen(cfg, run, Front(tail)) && After(cfg, run + tail).state == HalfOpen
    ensures RemainsHalfOpen(cfg, run, Front(tail)) ==> After(cfg, run + Front(tail)).state == HalfOpen
  {
    hide After;
    assert forall n :: 0 <= n < |tail| ==> Front(tail)[..n] == tail[..n];
    assert tail[..|tail|] == tail && Front(tail)[..|tail| - 1] == Front(tail);
  }

  /** Only a verdict ends a stay in HalfOpen: a success closes the circuit, a failure opens it as of that call. Every
      report gives one slot back. */
  lemma VerdictEndsHalfOpen(cfg: Config, run: seq<Call>, call: Call)
    requires After(cfg, run).state == HalfOpen
    ensures var c := After(cfg, run + [call]);
      match call
      case Success => c.state == Closed && c.failures == 0
      case Failure(now) => c.state == Open && c.lastFailure == now
      case _ => c.state == HalfOpen
    ensures !call.Ask? ==> var was := After(cfg, run).halfOpenActive;
      After(cfg, run + [call]).halfOpenActive == if was > 0 then was - 1 else was
  {
    AfterAppend(cfg, run, call);
  }

  /** A stay in HalfOpen lasts exactly as long as no success and no failure is recorded, whatever else is called. */
  lemma {:induction false} HalfOpenLastsUntilVerdict(cfg: Config, run: seq<Call>, tail: seq<Call>)
    requires After(cfg, run).state == HalfOpen
    ensures RemainsHalfOpen(cfg, run, tail) <==> forall call :: call in tail ==> !Verdict(call)
  {
    if tail == [] {
      assert run + tail == run;
    } else {
      hide After, RemainsHalfOpen;
      HalfOpenLastsUntilVerdict(cfg, run, Front(tail));
      RemainsOneMore(cfg, run, tail);
      assert run + tail == run + Front(tail) + [Last(tail)];
      if RemainsHalfOpen(cfg, run, Front(tail)) {
        VerdictEndsHalfOpen(cfg, run + Front(tail), Last(tail));
        assert RemainsHalfOpen(cfg, run, tail) <==> !Verdict(Last(tail));
      }
      assert tail == Front(tail) + [Last(tail)];
      assert RemainsHalfOpen(cfg, run, Front(tail)) <==> forall call :: call in Front(tail) ==> !Verdict(call);
      assert forall call :: call in tail <==> call in Front(tail) || call == Last(tail);
    }
  }

  /** A failed probe opens the circuit again, from the time it is recorded: until the timeout has passed once more
      nothing is admitted and nothing changes, whatever is called. */
  lemma FailedProbeReopens(cfg: Config, run: seq<Call>, f: int, tail: seq<Call>)
    requires After(cfg, run).state == HalfOpen
    requires forall call :: call in tail && call.Ask? ==> call.now < f + cfg.timeout
    ensures var c := After(cfg, run + [Failure(f)] + tail); c.state == Open && c.lastFailure == f
    ensures forall i :: 0 <= i < |tail| && tail[i].Ask? ==>
      !Admits(cfg, After(cfg, run + [Failure(f)] + tail[..i]), tail[i].now)
  {
    AfterAppend(cfg, run, Failure(f));
    OpenIsFrozen(cfg, run + [Failure(f)], tail);
  }

  function Failures(run: seq<Call>): nat {
    if run == [] then 0 else Failures(Front(run)) + if Last(run).Failure? then 1 else 0
  }

  /** A successful probe closes the circuit with a clean slate: every request is admitted until as many failures as the
      threshold have been recorded. */
  lemma {:induction false} SucceededProbeCloses(cfg: Config, run: seq<Call>, tail: seq<Call>)
    requires After(cfg, run).state == HalfOpen && Failures(tail) < cfg.threshold
    ensures var c := After(cfg, run + [Success] + tail); c.state == Closed && c.failures <= Failures(tail)
    ensures forall now :: Admits(cfg, After(cfg, run + [Success] + tail), now)
  {
    if tail == [] {
      AfterAppend(cfg, run, Success);
      assert run + [Success] + tail == run + [Success];
    } else {
      SucceededProbeCloses(cfg, run, Front(tail));
      AfterAppend(cfg, run + [Success] + Front(tail), Last(tail));
      assert run + [Success] + Front(tail) + [Last(tail)] == run + [Success] + tail;
    }
  }

  // ---------------------------------------------------------------------------------------------------
  // What the probe limit does and does not promise
  // ---------------------------------------------------------------------------------------------------

  /** A call of a run in which every Record call names the request it reports, by the place of its Allow. */
  datatype Tagged = Tagged(call: Call, of: nat)

  function Calls(run: seq<Tagged>): seq<Call> {
    seq(|run|, i requires 0 <= i < |run| => run[i].call)
  }

  function Reached(cfg: Config, run: seq<Tagged>): Circuit {
    After(cfg, Calls(run))
  }

  lemma ReachedAppend(cfg: Config, run: seq<Tagged>, t: Tagged)
    ensures Front(run + [t]) == run && Last(run + [t]) == t
    ensures Calls(run + [t]) == Calls(run) + [t.call]
    ensures Reached(cfg, run + [t]) == Next(cfg, Reached(cfg, run), t.call)
  {
    assert Calls(run + [t]) == Calls(run) + [t.call];
    AfterAppend(cfg, Calls(run), t.call);
  }

  /** The requests admitted and not yet reported. */
  function InFlight(cfg: Config, run: seq<Tagged>): set<nat> {
    if run == [] then {}
    else
      var before, t := InFlight(cfg, Front(run)), Last(run);
      if !t.call.Ask? then before - {t.of}
      else if Admits(cfg, Reached(cfg, Front(run)), t.call.now) then before + {|run| - 1}
      else before
  }

  /** Every Record call reports a request in flight: none is reported twice or without having been admitted. */
  predicate Reports(cfg: Config, run: seq<Tagged>) {
    run == [] || (Reports(cfg, Front(run)) && (Last(run).call.Ask? || Last(run).of in InFlight(cfg, Front(run))))
  }

  lemma InFlightAppend(cfg: Config, run: seq<Tagged>, t: Tagged)
    ensures InFlight(cfg, run + [t]) ==
      if !t.call.Ask? then InFlight(cfg, run) - {t.of}
      else if Admits(cfg, Reached(cfg, run), t.call.now) then InFlight(cfg, run) + {|run|}
      else InFlight(cfg, run)
    ensures Reports(cfg, run + [t]) <==> Reports(cfg, run) && (t.call.Ask? || t.of in InFlight(cfg, run))
  {
    assert Front(run + [t]) == run && Last(run + [t]) == t;
  }

  /** The requests in flight are as many as the reservations outstanding, and such a run is balanced. */
  lemma {:induction false} InFlightIsOutstanding(cfg: Config, run: seq<Tagged>)
    requires Reports(cfg, run)
    ensures |InFlight(cfg, run)| == Outstanding(cfg, Calls(run)) && Balanced(cfg, Calls(run))
    ensures forall i :: i in InFlight(cfg, run) ==> i < |run|
  {
    var calls := Calls(run);
    if run != [] {
      InFlightIsOutstanding(cfg, Front(run));
      assert run == Front(run) + [Last(run)];
      ReachedAppend(cfg, Front(run), Last(run));
      AfterAppend(cfg, Calls(Front(run)), Last(run).call);
      forall n | 0 <= n <= |calls|
        ensures Outstanding(cfg, calls[..n]) >= 0
      {
        if n < |calls| {
          assert calls[..n] == Calls(Front(run))[..n];
        } else {
          assert calls[..n] == calls;
        }
      }
    }
  }

  lemma InFlightBefore(cfg: Config, run: seq<Tagged>)
    requires Reports(cfg, run)
    ensures forall i :: i in InFlight(cfg, run) ==> i < |run|
  {
    InFlightIsOutstanding(cfg, run);
  }

  /** Allow on an Open circuit whose timeout has passed: a stay in HalfOpen begins with its first probe. */
  predicate Begins(cfg: Config, run: seq<Tagged>, now: int) {
    Reached(cfg, run).state == Open && Admits(cfg, Reached(cfg, run), now)
  }

  ghost predicate Stays(cfg: Config, run: seq<Tagged>, tail: seq<Tagged>) {
    forall n :: 0 <= n <= |tail| ==> Reached(cfg, run + tail[..n]).state == HalfOpen
  }

  /** The requests in flight that were admitted at a place or later. */
  function Probes(cfg: Config, run: seq<Tagged>, start: nat): set<nat> {
    set i | i in InFlight(cfg, run) && i >= start
  }

  function Begun(run: seq<Tagged>, now: int): seq<Tagged> {
    run + [Tagged(Ask(now), 0)]
  }

  ghost predicate LimitHolds(cfg: Config, run: seq<Tagged>, now: int) {
    forall tail :: Reports(cfg, Begun(run, now) + tail) && Stays(cfg, Begun(run, now), tail) ==>
      |Probes(cfg, Begun(run, now) + tail, |run|)| <= cfg.halfOpenMax
  }

  /** The limit bounds the probes really in flight, as long as the circuit stays HalfOpen and whatever happens in it,
      exactly when no earlier request is in flight as the stay begins: the report of one gives back a probe's slot. */
  lemma ProbeLimitHoldsIffNoneInFlight(cfg: Config, run: seq<Tagged>, now: int)
    requires cfg.halfOpenMax >= 1 && Reports(cfg, run) && Begins(cfg, run, now)
    ensures LimitHolds(cfg, run, now) <==> InFlight(cfg, run) == {}
  {
    if InFlight(cfg, run) == {} {
      forall tail | Reports(cfg, Begun(run, now) + tail) && Stays(cfg, Begun(run, now), tail)
        ensures |Probes(cfg, Begun(run, now) + tail, |run|)| <= cfg.halfOpenMax
      {
        CounterIsInFlight(cfg, run, now, tail);
        SubsetIsSmaller(Probes(cfg, Begun(run, now) + tail, |run|), InFlight(cfg, Begun(run, now) + tail));
      }
    } else {
      var straggler :| straggler in InFlight(cfg, run);
      var tail := ProbesOverrun(cfg, run, now, straggler, cfg.halfOpenMax);
    }
  }

  lemma ShorterStay(cfg: Config, run: seq<Tagged>, tail: seq<Tagged>)
    requires tail != [] && Reports(cfg, run + tail) && Stays(cfg, run, tail)
    ensures Reports(cfg, run + Front(tail)) && Stays(cfg, run, Front(tail))
    ensures run + tail == run + Front(tail) + [Last(tail)]
    ensures Reached(cfg, run + Front(tail)).state == HalfOpen && Reached(cfg, run + tail).state == HalfOpen
    ensures Last(tail).call.Ask? || Last(tail).of in InFlight(cfg, run + Front(tail))
  {
    assert run + tail == run + Front(tail) + [Last(tail)];
    assert Front(run + tail) == run + Front(tail);
    assert tail[..|tail| - 1] == Front(tail) && tail[..|tail|] == tail;
    forall n | 0 <= n <= |Front(tail)|
      ensures Reached(cfg, run + Front(tail)[..n]).state == HalfOpen
    {
      assert Front(tail)[..n] == tail[..n];
    }
  }

  /** The counter is the number of requests in flight. */
  predicate Exact(cfg: Config, run: seq<Tagged>) {
    |InFlight(cfg, run)| == Reached(cfg, run).halfOpenActive <= cfg.halfOpenMax
  }

  lemma BeginsExact(cfg: Config, run: seq<Tagged>, now: int)
    requires cfg.halfOpenMax >= 1 && Begins(cfg, run, now) && InFlight(cfg, run) == {}
    ensures Exact(cfg, Begun(run, now))
  {
    ReachedAppend(cfg, run, Tagged(Ask(now), 0));
    InFlightAppend(cfg, run, Tagged(Ask(now), 0));
    assert InFlight(cfg, Begun(run, now)) == {|run|};
  }

  lemma StepStaysExact(cfg: Config, run: seq<Tagged>, t: Tagged)
    requires Exact(cfg, run) && Reports(cfg, run + [t])
    requires Reached(cfg, run).state == HalfOpen && Reached(cfg, run + [t]).state == HalfOpen
    ensures Exact(cfg, run + [t])
  {
    ReachedAppend(cfg, run, t);
    InFlightAppend(cfg, run, t);
    InFlightIsOutstanding(cfg, run);
    hide InFlight, Reached, Reports;
  }

  /** With nothing else in flight when it begins, the counter of a stay is the number of its probes in flight. */
  lemma {:induction false} CounterIsInFlight(cfg: Config, run: seq<Tagged>, now: int, tail: seq<Tagged>)
    requires cfg.halfOpenMax >= 1 && Reports(cfg, run) && Begins(cfg, run, now) && InFlight(cfg, run) == {}
    requires Reports(cfg, Begun(run, now) + tail) && Stays(cfg, Begun(run, now), tail)
    ensures Exact(cfg, Begun(run, now) + tail)
  {
    hide Exact, Reached, InFlight, Reports;
    var begun := Begun(run, now);
    if tail == [] {
      assert begun + tail == begun;
      BeginsExact(cfg, run, now);
    } else {
      ShorterStay(cfg, begun, tail);
      CounterIsInFlight(cfg, run, now, Front(tail));
      StepStaysExact(cfg, begun + Front(tail), Last(tail));
    }
  }

  /** Where a straggler's report and n more requests lead: n slots taken, n + 1 probes in flight. */
  ghost predicate Overrun(cfg: Config, run: seq<Tagged>, begun: seq<Tagged>, tail: seq<Tagged>, n: nat) {
    && Reports(cfg, begun + tail) && Stays(cfg, begun, tail)
    && Reached(cfg, begun + tail).halfOpenActive == n
    && |Probes(cfg, begun + tail, |run|)| == n + 1
  }

  lemma StragglerReports(cfg: Config, run: seq<Tagged>, now: int, straggler: nat)
    requires Reports(cfg, run) && Begins(cfg, run, now) && straggler in InFlight(cfg, run)
    ensures Overrun(cfg, run, Begun(run, now), [Tagged(Neutral, straggler)], 0)
  {
    var begun, t := Begun(run, now), Tagged(Neutral, straggler);
    InFlightIsOutstanding(cfg, run);
    ReachedAppend(cfg, run, Tagged(Ask(now), 0));
    InFlightAppend(cfg, run, Tagged(Ask(now), 0));
    ReachedAppend(cfg, begun, t);
    InFlightAppend(cfg, begun, t);
    hide InFlight, Reached, Reports;
    assert begun + [] == begun && [t][..0] == [] && [t][..1] == [t];
    assert Probes(cfg, begun + [t], |run|) == {|run|};
  }

  lemma OneMoreProbe(cfg: Config, run: seq<Tagged>, begun: seq<Tagged>, tail: seq<Tagged>, n: nat, t: Tagged)
    requires Overrun(cfg, run, begun, tail, n) && n < cfg.halfOpenMax && t.call.Ask? && |run| <= |begun|
    ensures Overrun(cfg, run, begun, tail + [t], n + 1)
  {
    var before := begun + tail;
    assert begun + (tail + [t]) == before + [t];
    assert tail[..|tail|] == tail;
    InFlightBefore(cfg, before);
    StaysLonger(cfg, begun, tail, t);
    ReachedAppend(cfg, before, t);
    InFlightAppend(cfg, before, t);
    hide InFlight, Reached, Reports, Stays;
    assert Probes(cfg, before + [t], |run|) == Probes(cfg, before, |run|) + {|before|};
  }

  lemma {:induction false} ProbesOverrun(cfg: Config, run: seq<Tagged>, now: int, straggler: nat, n: nat)
    returns (tail: seq<Tagged>)
    requires Reports(cfg, run) && Begins(cfg, run, now) && straggler in InFlight(cfg, run) && n <= cfg.halfOpenMax
    ensures Overrun(cfg, run, Begun(run, now), tail, n)
  {
    if n == 0 {
      tail := [Tagged(Neutral, straggler)];
      StragglerReports(cfg, run, now, straggler);
    } else {
      var shorter := ProbesOverrun(cfg, run, now, straggler, n - 1);
      tail := shorter + [Tagged(Ask(now), 0)];
      OneMoreProbe(cfg, run, Begun(run, now), shorter, n - 1, Tagged(Ask(now), 0));
    }
  }

  lemma StaysLonger(cfg: Config, run: seq<Tagged>, tail: seq<Tagged>, t: Tagged)
    requires Stays(cfg, run, tail) && t.call.Ask? && Admits(cfg, Reached(cfg, run + tail), t.call.now)
    ensures Stays(cfg, run, tail + [t])
  {
    assert tail[..|tail|] == tail;
    assert run + (tail + [t]) == run + tail + [t];
    ReachedAppend(cfg, run + tail, t);
    forall n | 0 <= n <= |tail + [t]|
      ensures Reached(cfg, run + (tail + [t])[..n]).state == HalfOpen
    {
      if n <= |tail| {
        assert (tail + [t])[..n] == tail[..n];
      } else {
        assert (tail + [t])[..n] == tail + [t];
      }
    }
  }

  /** Requests admitted by a new breaker, and failures of the first of them. */
  lemma {:induction false} OpenWithOneInFlight(cfg: Config, asks: nat, fails: nat) returns (run: seq<Tagged>)
    requires cfg.threshold >= 1 && fails <= cfg.threshold && fails <= asks
    ensures |run| == asks + fails && Reports(cfg, run)
    ensures forall i :: i in InFlight(cfg, run) <==> fails <= i < asks
    ensures var c := Reached(cfg, run);
      && c.failures == fails && c.state == (if fails == cfg.threshold then Open else Closed)
      && (fails > 0 && c.state == Open ==> c.lastFailure == 0)
    decreases asks + fails
  {
    if fails > 0 {
      hide InFlight, Reached, Reports;
      var shorter := OpenWithOneInFlight(cfg, asks, fails - 1);
      var t := Tagged(Failure(0), fails - 1);
      run := shorter + [t];
      ReachedAppend(cfg, shorter, t);
      InFlightAppend(cfg, shorter, t);
    } else if asks > 0 {
      hide InFlight, Reached, Reports;
      var shorter := OpenWithOneInFlight(cfg, asks - 1, fails);
      var t := Tagged(Ask(0), 0);
      run := shorter + [t];
      ReachedAppend(cfg, shorter, t);
      InFlightAppend(cfg, shorter, t);
    } else {
      run := [];
    }
  }

  /** Every configuration reaches such a stay: from a new breaker, more probes than the limit get in flight. */
  lemma ProbeLimitIsOverrun(cfg: Config) returns (run: seq<Tagged>, now: int)
    requires cfg.threshold >= 1 && cfg.halfOpenMax >= 1
    ensures Reports(cfg, run) && Begins(cfg, run, now) && !LimitHolds(cfg, run, now)
  {
    run := OpenWithOneInFlight(cfg, cfg.threshold + 1, cfg.threshold);
    now := cfg.timeout;
    assert cfg.threshold in InFlight(cfg, run);
    ProbeLimitHoldsIffNoneInFlight(cfg, run, now);
  }
}
