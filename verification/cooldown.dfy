/** The registry of rate-limited deployments (internal/cooldown/registry.go). Times and durations are nanoseconds. */
module Cooldown {
  import opened Common

  datatype MarkCall = MarkCall(key: string, duration: int, now: int)

  predicate Expired(deadline: int, now: int) {
    deadline <= now
  }

  /** What Mark makes of the stored deadlines. */
  function Next(until: map<string, int>, mark: MarkCall): map<string, int> {
    if mark.duration <= 0 then until
    else
      var written := until[mark.key := mark.now + mark.duration];
      map key | key in written && !Expired(written[key], mark.now) :: written[key]
  }

  function After(marks: seq<MarkCall>): map<string, int> {
    if marks == [] then map[] else Next(After(Front(marks)), Last(marks))
  }

  class Registry {
    var until: map<string, int>
    ghost var marks: seq<MarkCall>

    ghost predicate Valid()
      reads this
    {
      until == After(marks)
    }

    constructor ()
      ensures Valid() && marks == []
    {
      until, marks := map[], [];
    }

    method Mark(key: string, duration: int, now: int)
      requires Valid()
      modifies this
      ensures Valid() && marks == old(marks) + [MarkCall(key, duration, now)]
    {
      if duration > 0 {
        until := until[key := now + duration];
        EvictExpired(now);
      }
      marks := marks + [MarkCall(key, duration, now)];
      assert Front(marks) == old(marks);
    }

    /** The loop at the end of Mark. */
    method EvictExpired(now: int)
      modifies this`until
      ensures until == map key | key in old(until) && !Expired(old(until)[key], now) :: old(until)[key]
    {
      var rest := until.Keys;
      while rest != {}
        invariant rest <= until.Keys
        invariant until ==
          map key | key in old(until) && (key in rest || !Expired(old(until)[key], now)) :: old(until)[key]
        decreases |rest|
      {
        var key :| key in rest;
        rest := rest - {key};
        if until[key] <= now {
          until := until - {key};
        }
      }
    }

    /** The answer is that of a map nothing is ever evicted from, unless a later mark found the entry expired; under a
        clock that never runs backwards that makes no difference. */
    method Cooling(key: string, now: int) returns (cooling: bool)
      requires Valid()
      ensures cooling == (!Overtaken(marks, key) && Awaits(Deadline(marks, key), now))
      ensures Clocked(marks) && NotBefore(marks, now) ==> cooling == Awaits(Deadline(marks, key), now)
    {
      cooling := key in until && now < until[key];
      StoredIsLastUnlessOvertaken(marks, key);
      if Clocked(marks) && NotBefore(marks, now) {
        AnswersAsIfNothingWasEvicted(marks, key, now);
      }
    }
  }

  // ---------------------------------------------------------------------------------------------------
  // Runs
  // ---------------------------------------------------------------------------------------------------

  /** A clock that never runs backwards. */
  predicate Clocked(marks: seq<MarkCall>) {
    forall i, j :: 0 <= i < j < |marks| ==> marks[i].now <= marks[j].now
  }

  predicate NotBefore(marks: seq<MarkCall>, now: int) {
    marks == [] || Last(marks).now <= now
  }

  predicate Writes(mark: MarkCall, key: string) {
    mark.key == key && mark.duration > 0
  }

  /** The last deadline written for a key; a mark without a positive duration writes nothing. */
  function Deadline(marks: seq<MarkCall>, key: string): Option<int> {
    if marks == [] then None
    else if Writes(Last(marks), key) then Some(Last(marks).now + Last(marks).duration)
    else Deadline(Front(marks), key)
  }

  predicate Awaits(deadline: Option<int>, now: int) {
    deadline.Some? && now < deadline.value
  }

  /** Whether a later mark came once the last deadline written for the key had run out. */
  predicate Overtaken(marks: seq<MarkCall>, key: string) {
    if marks == [] || Writes(Last(marks), key) then false
    else
      || Overtaken(Front(marks), key)
      || (Last(marks).duration > 0 && Deadline(marks, key).Some? &&
          Expired(Deadline(marks, key).value, Last(marks).now))
  }

  /** What is stored, whatever the clock does: the last deadline written, unless a later mark found it expired. */
  lemma {:induction false} StoredIsLastUnlessOvertaken(marks: seq<MarkCall>, key: string)
    ensures (if key in After(marks) then Some(After(marks)[key]) else None) ==
            if Overtaken(marks, key) then None else Deadline(marks, key)
  {
    if marks != [] {
      StoredIsLastUnlessOvertaken(Front(marks), key);
    }
  }

  lemma {:induction false} OvertakenIsExpired(marks: seq<MarkCall>, key: string, now: int)
    requires Clocked(marks) && Overtaken(marks, key) && NotBefore(marks, now)
    ensures !Awaits(Deadline(marks, key), now)
  {
    if Overtaken(Front(marks), key) {
      OvertakenIsExpired(Front(marks), key, now);
    }
  }

  /** Under a clock that never runs backwards eviction is never noticed: every answer is the one a map without eviction
      gives, where the last positive mark of a key wins. */
  lemma AnswersAsIfNothingWasEvicted(marks: seq<MarkCall>, key: string, now: int)
    requires Clocked(marks) && NotBefore(marks, now)
    ensures (key in After(marks) && now < After(marks)[key]) <==> Awaits(Deadline(marks, key), now)
  {
    StoredIsLastUnlessOvertaken(marks, key);
    if Overtaken(marks, key) {
      OvertakenIsExpired(marks, key, now);
    }
  }

  /** Without that clock an answer differs exactly when a later mark evicted the entry and the clock has since gone back
      before its deadline. */
  lemma EvictionNoticedIffClockWentBack(marks: seq<MarkCall>, key: string, now: int)
    ensures ((key in After(marks) && now < After(marks)[key]) <==> Awaits(Deadline(marks, key), now)) <==>
            !(Overtaken(marks, key) && Awaits(Deadline(marks, key), now))
  {
    StoredIsLastUnlessOvertaken(marks, key);
  }

  /** Right after a mark that writes, every stored deadline lies ahead: what has run out is gone. */
  lemma StoredLiesAhead(marks: seq<MarkCall>, key: string)
    requires marks != [] && Last(marks).duration > 0 && key in After(marks)
    ensures After(marks)[key] > Last(marks).now
  {
  }
}
