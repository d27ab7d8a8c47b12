/** The asynchronous audit logger (internal/audit/logger.go): producers put events into a bounded channel, one consumer
  collects them into batches and writes each batch in one transaction, and Stop drains what is left. Every select branch
  the consumer takes, and every call of Log, is one step; a run is any interleaving of them. */
module AuditLogger {
  import opened Common

  const DEFAULT_BUFFER := 500

  datatype Phase = Running | Draining | Exited

  /** A batch handed to the database, and whether its transaction committed. */
  datatype Batch<E> = Batch(events: seq<E>, committed: bool)

  datatype State<E> = State(
    capacity: nat,
    channel: seq<E>,
    batch: seq<E>,
    done: bool,
    phase: Phase,
    table: seq<E>,
    accepted: seq<E>,
    flushes: seq<Batch<E>>)

  datatype Step<E> =
    | Log(event: E)
    | Receive(commits: bool)
    | Tick(commits: bool)
    | CloseDone
    | SeeDone
    | DrainReceive
    | DrainEmpty(commits: bool)

  function Start<E>(capacity: nat): State<E> {
    State(capacity, [], [], false, Running, [], [], [])
  }

  /** What the source's selects can choose in a state. Log is always possible; closing done twice panics. */
  predicate Possible<E>(s: State<E>, step: Step<E>) {
    match step
    case Log(_) => true
    case Receive(_) => s.phase.Running? && s.channel != []
    case Tick(_) => s.phase.Running?
    case CloseDone => !s.done
    case SeeDone => s.phase.Running? && s.done
    case DrainReceive => s.phase.Draining? && s.channel != []
    case DrainEmpty(_) => s.phase.Draining? && s.channel == []
  }

  function Flush<E>(s: State<E>, commits: bool): State<E> {
    if s.batch == [] then s
    else
      s.(batch := [],
         table := if commits then s.table + s.batch else s.table,
         flushes := s.flushes + [Batch(s.batch, commits)])
  }

  function Take<E>(s: State<E>): State<E>
    requires s.channel != []
  {
    s.(batch := s.batch + [s.channel[0]], channel := s.channel[1..])
  }

  function Next<E>(s: State<E>, step: Step<E>): State<E>
    requires Possible(s, step)
  {
    match step
    case Log(event) =>
      if |s.channel| < s.capacity then s.(channel := s.channel + [event], accepted := s.accepted + [event]) else s
    case Receive(commits) =>
      var t := Take(s);
      if |t.batch| >= s.capacity then Flush(t, commits) else t
    case Tick(commits) => Flush(s, commits)
    case CloseDone => s.(done := true)
    case SeeDone => s.(phase := Draining)
    case DrainReceive => Take(s)
    case DrainEmpty(commits) => Flush(s, commits).(phase := Exited)
  }

  class Logger<E(==)> {
    const capacity: nat
    var channel: seq<E>
    var batch: seq<E>
    var done: bool
    var phase: Phase
    var table: seq<E>
    ghost var accepted: seq<E>
    ghost var flushes: seq<Batch<E>>

    ghost function Value(): State<E>
      reads this
    {
      State(capacity, channel, batch, done, phase, table, accepted, flushes)
    }

    constructor (bufferSize: int)
      ensures Value() == Start(if bufferSize <= 0 then DEFAULT_BUFFER else bufferSize)
      ensures capacity > 0
    {
      capacity := if bufferSize <= 0 then DEFAULT_BUFFER else bufferSize;
      channel, batch, done, phase, table := [], [], false, Running, [];
      accepted, flushes := [], [];
    }

    method Log(event: E)
      modifies this
      ensures Value() == Next(old(Value()), Step.Log(event))
    {
      if |channel| < capacity {
        channel := channel + [event];
        accepted := accepted + [event];
      }
    }

    method Receive(failsAt: nat)
      requires Possible(Value(), Step.Receive(|batch| < failsAt))
      modifies this
      ensures Value() == Next(old(Value()), Step.Receive(|old(batch)| < failsAt))
    {
      batch, channel := batch + [channel[0]], channel[1..];
      if |batch| >= capacity {
        FlushBatch(failsAt);
      }
    }

    method Tick(failsAt: nat)
      requires Possible(Value(), Step.Tick(|batch| <= failsAt))
      modifies this
      ensures Value() == Next(old(Value()), Step.Tick(|old(batch)| <= failsAt))
    {
      FlushBatch(failsAt);
    }

    method CloseDone()
      requires Possible(Value(), Step.CloseDone)
      modifies this
      ensures Value() == Next(old(Value()), Step.CloseDone)
    {
      done := true;
    }

    method SeeDone()
      requires Possible(Value(), Step.SeeDone)
      modifies this
      ensures Value() == Next(old(Value()), Step.SeeDone)
    {
      phase := Draining;
    }

    method DrainReceive()
      requires Possible(Value(), Step.DrainReceive)
      modifies this
      ensures Value() == Next(old(Value()), Step.DrainReceive)
    {
      batch, channel := batch + [channel[0]], channel[1..];
    }

    method DrainEmpty(failsAt: nat)
      requires Possible(Value(), Step.DrainEmpty(|batch| <= failsAt))
      modifies this
      ensures Value() == Next(old(Value()), Step.DrainEmpty(|old(batch)| <= failsAt))
    {
      FlushBatch(failsAt);
      phase := Exited;
    }

    /** The drain loop, producers logging meanwhile: arrivals are the events logged before each turn of the loop. It ends
        once they stop, at the first turn that finds the channel empty, and then everything accepted is flushed. */
    method Drain(arrivals: seq<seq<E>>, failsAt: nat) returns (ghost steps: seq<Step<E>>)
      requires phase.Draining?
      modifies this
      ensures Follows(old(Value()), steps, Value()) && phase.Exited? && channel == [] && batch == []
      ensures forall i :: 0 <= i < |steps| - 1 ==> steps[i].Log? || steps[i].DrainReceive?
      ensures Conserves(old(Value())) ==> accepted == Concat(flushes)
    {
      hide Follows, AfterSteps, Conserves, Concat;
      steps := [];
      ghost var before := Value();
      FollowsNothing(before);
      var turn := 0;
      while true
        invariant phase.Draining? && turn <= |arrivals|
        invariant Follows(before, steps, Value())
        invariant forall i :: 0 <= i < |steps| ==> steps[i].Log? || steps[i].DrainReceive?
        decreases |arrivals| - turn, |channel|
      {
        if turn < |arrivals| {
          ghost var was := Value();
          ghost var logged := LogAll(arrivals[turn]);
          FollowsOn(before, steps, logged, was, Value());
          steps := steps + logged;
          turn := turn + 1;
        }
        if channel == [] {
          break;
        }
        ghost var was := Value();
        DrainReceive();
        FollowsStep(before, steps, was, Step.DrainReceive);
        steps := steps + [Step.DrainReceive];
      }
      ghost var was := Value();
      FollowsStep(before, steps, was, Step.DrainEmpty(|batch| <= failsAt));
      steps := steps + [Step.DrainEmpty(|batch| <= failsAt)];
      DrainEmpty(failsAt);
      if Conserves(before) {
        FollowsConserves(before, steps, Value());
        AllFlushed(Value());
      }
    }

    method LogAll(events: seq<E>) returns (ghost steps: seq<Step<E>>)
      modifies this
      ensures Follows(old(Value()), steps, Value()) && phase == old(phase)
      ensures forall i :: 0 <= i < |steps| ==> steps[i].Log?
    {
      steps := [];
      for i := 0 to |events|
        invariant Follows(old(Value()), steps, Value()) && phase == old(phase)
        invariant forall k :: 0 <= k < |steps| ==> steps[k].Log?
      {
        ghost var was := Value();
        Log(events[i]);
        FollowsStep(old(Value()), steps, was, Step.Log(events[i]));
        steps := steps + [Step.Log(events[i])];
      }
    }

    /** Writes the batch in one transaction whose insert number failsAt fails, if there are that many. */
    method FlushBatch(failsAt: nat)
      modifies this`batch, this`table, this`flushes
      ensures Value() == Flush(old(Value()), |old(batch)| <= failsAt)
    {
      if |batch| == 0 {
        return;
      }
      var inserted := table;
      var i := 0;
      while i < |batch| && i != failsAt
        invariant i <= |batch| && i <= failsAt && inserted == table + batch[..i]
      {
        inserted := inserted + [batch[i]];
        i := i + 1;
      }
      if i == |batch| {
        table := inserted;
      }
      flushes := flushes + [Batch(batch, i == |batch|)];
      batch := [];
    }
  }

  /** Where the steps lead, if each is possible where it is taken. */
  function AfterSteps<E>(s: State<E>, steps: seq<Step<E>>): Option<State<E>> {
    if steps == [] then Some(s)
    else
      var u := AfterSteps(s, Front(steps));
      if u.Some? && Possible(u.value, Last(steps)) then Some(Next(u.value, Last(steps))) else None
  }

  predicate Follows<E(==)>(s: State<E>, steps: seq<Step<E>>, t: State<E>) {
    AfterSteps(s, steps) == Some(t)
  }

  lemma FollowsNothing<E>(s: State<E>)
    ensures Follows(s, [], s)
  {
  }

  lemma AllFlushed<E>(s: State<E>)
    requires Conserves(s) && s.batch == [] && s.channel == []
    ensures s.accepted == Concat(s.flushes)
  {
    assert Concat(s.flushes) + [] + [] == Concat(s.flushes);
  }

  lemma FollowsStep<E>(s: State<E>, steps: seq<Step<E>>, t: State<E>, step: Step<E>)
    requires Follows(s, steps, t) && Possible(t, step)
    ensures Follows(s, steps + [step], Next(t, step))
  {
    assert Front(steps + [step]) == steps && Last(steps + [step]) == step;
  }

  lemma {:induction false} FollowsOn<E>(s: State<E>, steps: seq<Step<E>>, more: seq<Step<E>>, middle: State<E>, t: State<E>)
    requires Follows(s, steps, middle) && Follows(middle, more, t)
    ensures Follows(s, steps + more, t)
  {
    if more == [] {
      assert steps + more == steps;
    } else {
      var u := AfterSteps(middle, Front(more)).value;
      assert Follows(middle, Front(more), u) && Possible(u, Last(more)) && t == Next(u, Last(more));
      hide AfterSteps, Next, Possible;
      FollowsOn(s, steps, Front(more), middle, u);
      FollowsStep(s, steps + Front(more), u, Last(more));
      assert steps + Front(more) + [Last(more)] == steps + more;
    }
  }

  lemma {:induction false} FollowsConserves<E>(s: State<E>, steps: seq<Step<E>>, t: State<E>)
    requires Follows(s, steps, t) && Conserves(s)
    ensures Conserves(t)
  {
    if steps != [] {
      var u := AfterSteps(s, Front(steps)).value;
      FollowsConserves(s, Front(steps), u);
      StepConserves(u, Last(steps));
    }
  }

  // ---------------------------------------------------------------------------------------------------
  // Runs
  // ---------------------------------------------------------------------------------------------------

  ghost predicate Run<E>(states: seq<State<E>>, steps: seq<Step<E>>) {
    && |states| == |steps| + 1
    && states[0].capacity > 0 && states[0] == Start(states[0].capacity)
    && forall i :: 0 <= i < |steps| ==> Possible(states[i], steps[i]) && states[i + 1] == Next(states[i], steps[i])
  }

  function Concat<E>(flushes: seq<Batch<E>>): seq<E> {
    if flushes == [] then [] else Concat(Front(flushes)) + Last(flushes).events
  }

  function Committed<E>(flushes: seq<Batch<E>>): seq<E> {
    if flushes == [] then []
    else Committed(Front(flushes)) + if Last(flushes).committed then Last(flushes).events else []
  }

  /** Nothing accepted is lost, doubled or reordered on its way: it is flushed, then pending, then still in the channel,
      in the order it was accepted in; and the table holds the committed batches. */
  ghost predicate Conserves<E>(s: State<E>) {
    && s.accepted == Concat(s.flushes) + s.batch + s.channel
    && s.table == Committed(s.flushes)
  }

  ghost predicate Bounded<E>(s: State<E>) {
    && s.capacity > 0 && |s.channel| <= s.capacity
    && (s.phase.Running? ==> |s.batch| < s.capacity)
    && (!s.phase.Running? ==> s.done)
    && (s.phase.Exited? ==> s.batch == [])
  }

  /** Only the drain writes batches of more than the buffer size, and nothing writes empty ones. */
  ghost predicate BatchesFit<E>(s: State<E>) {
    forall i :: 0 <= i < |s.flushes| ==>
      && s.flushes[i].events != []
      && (i < |s.flushes| - 1 || !s.phase.Exited? ==> |s.flushes[i].events| <= s.capacity)
  }

  lemma FlushConserves<E>(s: State<E>, commits: bool)
    requires Conserves(s)
    ensures Conserves(Flush(s, commits))
  {
    var t := Flush(s, commits);
    if s.batch != [] {
      assert Front(t.flushes) == s.flushes;
      assert Concat(t.flushes) + t.batch + t.channel == Concat(s.flushes) + s.batch + s.channel;
    }
  }

  lemma TakeConserves<E>(s: State<E>)
    requires Conserves(s) && s.channel != []
    ensures Conserves(Take(s))
  {
    assert s.batch + s.channel == Take(s).batch + Take(s).channel;
    assert Concat(s.flushes) + s.batch + s.channel == Concat(s.flushes) + (s.batch + s.channel);
    assert Take(s).accepted == Concat(s.flushes) + (Take(s).batch + Take(s).channel);
  }

  lemma StepConserves<E>(s: State<E>, step: Step<E>)
    requires Conserves(s) && Possible(s, step)
    ensures Conserves(Next(s, step))
  {
    match step
    case Receive(commits) =>
      TakeConserves(s);
      FlushConserves(Take(s), commits);
    case Tick(commits) => FlushConserves(s, commits);
    case DrainReceive => TakeConserves(s);
    case DrainEmpty(commits) => FlushConserves(s, commits);
    case _ =>
  }

  lemma StepStaysBounded<E>(s: State<E>, step: Step<E>)
    requires Bounded(s) && BatchesFit(s) && Possible(s, step)
    ensures Bounded(Next(s, step)) && BatchesFit(Next(s, step))
  {
  }

  /** What holds in every state of every run. */
  lemma {:induction false} EveryStateConserves<E>(states: seq<State<E>>, steps: seq<Step<E>>, i: nat)
    requires Run(states, steps) && i < |states|
    ensures Conserves(states[i]) && Bounded(states[i]) && BatchesFit(states[i])
  {
    if i > 0 {
      EveryStateConserves(states, steps, i - 1);
      StepConserves(states[i - 1], steps[i - 1]);
      StepStaysBounded(states[i - 1], steps[i - 1]);
    }
  }

  /** A tick writes what the consumer has received: nothing stays pending, and everything accepted is flushed or still in
      the channel. If it commits, and every transaction before it did, the table holds all that was received. */
  lemma TickFlushesAllReceived<E>(states: seq<State<E>>, steps: seq<Step<E>>, i: nat)
    requires Run(states, steps) && i < |steps| && steps[i].Tick?
    ensures states[i + 1].batch == []
    ensures states[i + 1].channel == states[i].channel && states[i + 1].accepted == states[i].accepted
    ensures states[i + 1].accepted == Concat(states[i + 1].flushes) + states[i + 1].channel
    ensures steps[i].commits && (forall k :: 0 <= k < |states[i].flushes| ==> states[i].flushes[k].committed) ==>
      states[i + 1].table + states[i + 1].channel == states[i + 1].accepted
  {
    EveryStateConserves(states, steps, i + 1);
    var t := states[i + 1];
    assert Concat(t.flushes) + [] == Concat(t.flushes);
    CommittedLength(t.flushes);
  }

  /** What the calls of Log leave in the logger, from the steps alone: an event is accepted if fewer than the capacity
      were accepted and not yet received when it was logged. */
  function AcceptedOf<E>(capacity: nat, steps: seq<Step<E>>): seq<E> {
    if steps == [] then []
    else
      var before := AcceptedOf(capacity, Front(steps));
      if Last(steps).Log? && |before| - Received(Front(steps)) < capacity then before + [Last(steps).event] else before
  }

  function Received<E>(steps: seq<Step<E>>): nat {
    if steps == [] then 0
    else Received(Front(steps)) + if Last(steps).Receive? || Last(steps).DrainReceive? then 1 else 0
  }

  /** Log drops an event exactly when the buffer is full. */
  lemma {:induction false} LogDropsIffFull<E>(states: seq<State<E>>, steps: seq<Step<E>>, i: nat)
    requires Run(states, steps) && i < |states|
    ensures states[i].accepted == AcceptedOf(states[0].capacity, steps[..i]) && states[i].capacity == states[0].capacity
    ensures |states[i].channel| == |states[i].accepted| - Received(steps[..i])
  {
    if i > 0 {
      LogDropsIffFull(states, steps, i - 1);
      assert Front(steps[..i]) == steps[..i - 1] && Last(steps[..i]) == steps[i - 1];
    }
  }

  /** The step that writes batch number k: a tick, the end of the drain, or the receipt of the event that fills it. */
  ghost predicate Writes<E>(states: seq<State<E>>, steps: seq<Step<E>>, j: nat, k: nat)
    requires Run(states, steps) && j < |steps|
  {
    && |states[j].flushes| == k && |states[j + 1].flushes| == k + 1
    && var batch := states[j + 1].flushes[k];
       match steps[j]
       case Receive(commits) => commits == batch.committed && |batch.events| == states[0].capacity
       case Tick(commits) => commits == batch.committed
       case DrainEmpty(commits) => commits == batch.committed
       case _ => false
  }

  /** No batch is written for any other reason. */
  lemma {:induction false} EveryBatchHasItsCause<E>(states: seq<State<E>>, steps: seq<Step<E>>, i: nat, k: nat)
    returns (j: nat)
    requires Run(states, steps) && i < |states| && k < |states[i].flushes|
    ensures j < i && Writes(states, steps, j, k) && states[j + 1].flushes[k] == states[i].flushes[k]
  {
    if k < |states[i - 1].flushes| {
      j := EveryBatchHasItsCause(states, steps, i - 1, k);
    } else {
      j := i - 1;
      EveryStateConserves(states, steps, j);
      LogDropsIffFull(states, steps, j);
    }
  }

  /** Where a batch starts in the order of acceptance. */
  function Offset<E>(flushes: seq<Batch<E>>, i: nat): nat
    requires i <= |flushes|
  {
    |Concat(flushes[..i])|
  }

  predicate Spans<E>(flushes: seq<Batch<E>>, i: nat, n: nat) {
    i < |flushes| && Offset(flushes, i) <= n < Offset(flushes, i + 1)
  }

  /** Every flushed event sits in exactly one batch, at its own place. */
  lemma {:induction false} InExactlyOneBatch<E>(flushes: seq<Batch<E>>, n: nat) returns (i: nat)
    requires n < |Concat(flushes)|
    ensures Spans(flushes, i, n) && forall k: nat :: Spans(flushes, k, n) ==> k == i
    ensures n - Offset(flushes, i) < |flushes[i].events|
    ensures flushes[i].events[n - Offset(flushes, i)] == Concat(flushes)[n]
  {
    assert flushes[..|flushes|] == flushes && flushes[..|flushes| - 1] == Front(flushes);
    if n >= |Concat(Front(flushes))| {
      i := |flushes| - 1;
    } else {
      i := InExactlyOneBatch(Front(flushes), n);
      assert Front(flushes)[..i] == flushes[..i] && Front(flushes)[..i + 1] == flushes[..i + 1];
    }
    forall k: nat | Spans(flushes, k, n)
      ensures k == i
    {
      if k < i {
        OffsetsIncrease(flushes, k + 1, i);
      } else if k > i {
        OffsetsIncrease(flushes, i + 1, k);
      }
    }
  }

  lemma {:induction false} OffsetsIncrease<E>(flushes: seq<Batch<E>>, i: nat, j: nat)
    requires i <= j <= |flushes|
    ensures Offset(flushes, i) <= Offset(flushes, j)
  {
    if i < j {
      assert Front(flushes[..j]) == flushes[..j - 1];
      OffsetsIncrease(flushes, i, j - 1);
    }
  }

  lemma {:induction false} NothingFlushedAfterExit<E>(states: seq<State<E>>, steps: seq<Step<E>>, i: nat, j: nat)
    requires Run(states, steps) && i <= j < |states| && states[i].phase.Exited?
    ensures states[j].phase.Exited? && states[j].flushes == states[i].flushes && states[j].table == states[i].table
  {
    if i < j {
      NothingFlushedAfterExit(states, steps, i, j - 1);
    }
  }

  /** When the consumer has returned, what was flushed is exactly what had been accepted by the time the drain found the
      channel empty; what producers managed to put in after that stays in the channel for good. */
  lemma DrainFlushesAllAccepted<E>(states: seq<State<E>>, steps: seq<Step<E>>, i: nat, j: nat)
    requires Run(states, steps) && i < j < |states| && steps[i].DrainEmpty?
    ensures states[j].phase.Exited? && states[j].batch == []
    ensures Concat(states[j].flushes) == states[i].accepted
    ensures states[j].accepted == states[i].accepted + states[j].channel
  {
    EveryStateConserves(states, steps, i + 1);
    EveryStateConserves(states, steps, j);
    NothingFlushedAfterExit(states, steps, i + 1, j);
    assert states[i + 1].accepted == Concat(states[i + 1].flushes) + [] + [];
  }

  /** The table ends up with every accepted event, in order, exactly when no transaction failed and nothing was accepted
      after the drain found the channel empty. */
  lemma TableIsCompleteIffNothingFailed<E>(states: seq<State<E>>, steps: seq<Step<E>>, i: nat)
    requires Run(states, steps) && i < |states| && states[i].phase.Exited?
    ensures states[i].table == states[i].accepted <==>
      states[i].channel == [] && forall k :: 0 <= k < |states[i].flushes| ==> states[i].flushes[k].committed
  {
    EveryStateConserves(states, steps, i);
    CommittedLength(states[i].flushes);
  }

  lemma {:induction false} CommittedLength<E>(flushes: seq<Batch<E>>)
    requires forall k :: 0 <= k < |flushes| ==> flushes[k].events != []
    ensures |Committed(flushes)| <= |Concat(flushes)|
    ensures (forall k :: 0 <= k < |flushes| ==> flushes[k].committed) ==> Committed(flushes) == Concat(flushes)
    ensures |Committed(flushes)| == |Concat(flushes)| ==> forall k :: 0 <= k < |flushes| ==> flushes[k].committed
  {
    if flushes != [] {
      CommittedLength(Front(flushes));
      if |Committed(flushes)| == |Concat(flushes)| {
        assert Last(flushes).committed;
        forall k | 0 <= k < |flushes|
          ensures flushes[k].committed
        {
          assert k < |flushes| - 1 ==> flushes[k] == Front(flushes)[k];
        }
      }
    }
  }

  /** It does happen: an event logged after the drain found the channel empty is accepted and never written. */
  lemma LateEventIsLost<E>(e: E) returns (states: seq<State<E>>, steps: seq<Step<E>>)
    ensures Run(states, steps) && Last(states).phase.Exited?
    ensures Last(states).accepted == [e] && Last(states).table == []
  {
    var s0: State<E> := Start(1);
    var s1 := Next(s0, CloseDone);
    var s2 := Next(s1, SeeDone);
    var s3 := Next(s2, DrainEmpty(true));
    states := [s0, s1, s2, s3, Next(s3, Log(e))];
    steps := [CloseDone, SeeDone, DrainEmpty(true), Log(e)];
  }
}
