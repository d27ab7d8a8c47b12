/** The login throttle (internal/auth/login_throttle.go): a limit per client address and minute, and a lockout per
  account, over stores that are swept from time to time. Times are nanoseconds since Go's zero time, so 0 stands for
  "not set" and a real clock reads more. Emails are the normalised ones. */
module LoginThrottle {
  import opened Common

  const MINUTE := 60_000_000_000
  const MAX_PER_MINUTE := 10
  const THRESHOLD := 5
  const LOCKOUT := 15 * MINUTE
  const IDLE := 30 * MINUTE

  datatype IpEntry = IpEntry(count: int, windowStart: int)

  datatype Account = Account(failures: int, lockedUntil: int, lastFailure: int)

  const NEW_IP := IpEntry(0, 0)
  const NEW_ACCOUNT := Account(0, 0, 0)

  datatype Store = Store(ips: map<string, IpEntry>, accounts: map<string, Account>)

  datatype Call =
    | AllowCall(ip: string, email: string, now: int)
    | FailureCall(email: string, now: int)
    | SuccessCall(email: string, now: int)
    | EvictCall(now: int)

  function Window(now: int): int {
    now - now % MINUTE
  }

  function IpOf(s: Store, ip: string): IpEntry {
    if ip in s.ips then s.ips[ip] else NEW_IP
  }

  function AccountOf(s: Store, email: string): Account {
    if email in s.accounts then s.accounts[email] else NEW_ACCOUNT
  }

  function IpAfterAllow(e: IpEntry, now: int): IpEntry {
    IpEntry(if e.windowStart == Window(now) then e.count + 1 else 1, Window(now))
  }

  predicate Locked(a: Account, now: int) {
    a.lockedUntil != 0 && now < a.lockedUntil
  }

  function AccountAfterAllow(a: Account, now: int): Account {
    if a.lockedUntil != 0 && !Locked(a, now) then a.(lockedUntil := 0, failures := 0) else a
  }

  function AccountAfterFailure(a: Account, now: int): Account {
    Account(a.failures + 1, if a.failures + 1 >= THRESHOLD then now + LOCKOUT else a.lockedUntil, now)
  }

  function AccountAfterSuccess(a: Account): Account {
    a.(failures := 0, lockedUntil := 0)
  }

  predicate IpStale(e: IpEntry, now: int) {
    e.windowStart < Window(now)
  }

  predicate AccountStale(a: Account, now: int) {
    && (a.lockedUntil == 0 || now > a.lockedUntil)
    && (a.failures == 0 || (a.lastFailure != 0 && now - a.lastFailure > IDLE))
  }

  predicate IpPasses(s: Store, ip: string, now: int) {
    IpAfterAllow(IpOf(s, ip), now).count <= MAX_PER_MINUTE
  }

  /** The answer of Allow. */
  predicate Permits(s: Store, ip: string, email: string, now: int) {
    IpPasses(s, ip, now) && (email == "" || !Locked(AccountOf(s, email), now))
  }

  function Next(s: Store, call: Call): Store {
    match call
    case AllowCall(ip, email, now) =>
      var t := s.(ips := s.ips[ip := IpAfterAllow(IpOf(s, ip), now)]);
      if !IpPasses(s, ip, now) || email == "" then t
      else t.(accounts := t.accounts[email := AccountAfterAllow(AccountOf(s, email), now)])
    case FailureCall(email, now) =>
      if email == "" then s else s.(accounts := s.accounts[email := AccountAfterFailure(AccountOf(s, email), now)])
    case SuccessCall(email, now) =>
      if email == "" then s else s.(accounts := s.accounts[email := AccountAfterSuccess(AccountOf(s, email))])
    case EvictCall(now) =>
      Store(map ip | ip in s.ips && !IpStale(s.ips[ip], now) :: s.ips[ip],
            map email | email in s.accounts && !AccountStale(s.accounts[email], now) :: s.accounts[email])
  }

  class Throttle {
    var ips: map<string, IpEntry>
    var accounts: map<string, Account>
    const normalise: string -> string
    ghost var history: seq<Call>

    ghost function Value(): Store
      reads this
    {
      Store(ips, accounts)
    }

    ghost predicate Valid()
      reads this
    {
      Value() == After(history)
    }

    constructor (normalise: string -> string)
      ensures Valid() && history == [] && this.normalise == normalise
    {
      ips, accounts, history := map[], map[], [];
      this.normalise := normalise;
    }

    method Allow(ip: string, rawEmail: string, now: int) returns (ok: bool)
      requires Valid()
      modifies this
      ensures var call := AllowCall(ip, normalise(rawEmail), now);
        Valid() && history == old(history) + [call] && Value() == Next(old(Value()), call)
      ensures ok == Permits(old(Value()), ip, normalise(rawEmail), now)
    {
      var email := normalise(rawEmail);
      history := history + [AllowCall(ip, email, now)];
      var within := CountAttempt(ip, now);
      if !within || email == "" {
        return within;
      }
      ok := CheckAccount(email, now);
    }

    /** The per-address half of Allow. */
    method CountAttempt(ip: string, now: int) returns (within: bool)
      modifies this`ips
      ensures ips == old(ips)[ip := IpAfterAllow(IpOf(old(Value()), ip), now)]
      ensures within == IpPasses(old(Value()), ip, now)
    {
      var e := if ip in ips then ips[ip] else NEW_IP;
      var windowStart := now - now % MINUTE;
      if e.windowStart != windowStart {
        e := IpEntry(0, windowStart);
      }
      e := e.(count := e.count + 1);
      ips := ips[ip := e];
      within := e.count <= MAX_PER_MINUTE;
    }

    /** The per-account half of Allow, which also clears a lockout that has run out. */
    method CheckAccount(email: string, now: int) returns (ok: bool)
      modifies this`accounts
      ensures accounts == old(accounts)[email := AccountAfterAllow(AccountOf(old(Value()), email), now)]
      ensures ok == !Locked(AccountOf(old(Value()), email), now)
    {
      var a := if email in accounts then accounts[email] else NEW_ACCOUNT;
      var locked := a.lockedUntil != 0 && now < a.lockedUntil;
      if a.lockedUntil != 0 && !locked {
        a := a.(lockedUntil := 0, failures := 0);
      }
      accounts := accounts[email := a];
      ok := !locked;
    }

    method RecordFailure(rawEmail: string, now: int)
      requires Valid()
      modifies this
      ensures var call := FailureCall(normalise(rawEmail), now);
        Valid() && history == old(history) + [call] && Value() == Next(old(Value()), call)
    {
      var email := normalise(rawEmail);
      history := history + [FailureCall(email, now)];
      if email == "" {
        return;
      }
      var a := if email in accounts then accounts[email] else NEW_ACCOUNT;
      a := a.(failures := a.failures + 1, lastFailure := now);
      if a.failures >= THRESHOLD {
        a := a.(lockedUntil := now + LOCKOUT);
      }
      accounts := accounts[email := a];
    }

    method RecordSuccess(rawEmail: string, now: int)
      requires Valid()
      modifies this
      ensures var call := SuccessCall(normalise(rawEmail), now);
        Valid() && history == old(history) + [call] && Value() == Next(old(Value()), call)
    {
      var email := normalise(rawEmail);
      history := history + [SuccessCall(email, now)];
      if email == "" {
        return;
      }
      var a := if email in accounts then accounts[email] else NEW_ACCOUNT;
      accounts := accounts[email := a.(failures := 0, lockedUntil := 0)];
    }

    method EvictStale(now: int)
      requires Valid()
      modifies this
      ensures Valid() && history == old(history) + [EvictCall(now)]
      ensures Value() == Next(old(Value()), EvictCall(now))
    {
      SweepIps(now);
      SweepAccounts(now);
      history := history + [EvictCall(now)];
    }

    method SweepIps(now: int)
      modifies this`ips
      ensures ips == map ip | ip in old(ips) && !IpStale(old(ips)[ip], now) :: old(ips)[ip]
    {
      var rest := ips.Keys;
      while rest != {}
        invariant rest <= ips.Keys
        invariant ips == map ip | ip in old(ips) && (ip in rest || !IpStale(old(ips)[ip], now)) :: old(ips)[ip]
        decreases |rest|
      {
        var ip :| ip in rest;
        rest := rest - {ip};
        if ips[ip].windowStart < now - now % MINUTE {
          ips := ips - {ip};
        }
      }
    }

    method SweepAccounts(now: int)
      modifies this`accounts
      ensures accounts ==
        map email | email in old(accounts) && !AccountStale(old(accounts)[email], now) :: old(accounts)[email]
    {
      var rest := accounts.Keys;
      while rest != {}
        invariant rest <= accounts.Keys
        invariant accounts == map email | email in old(accounts) &&
          (email in rest || !AccountStale(old(accounts)[email], now)) :: old(accounts)[email]
        decreases |rest|
      {
        var email :| email in rest;
        rest := rest - {email};
        var a := accounts[email];
        var noLock := a.lockedUntil == 0 || now > a.lockedUntil;
        var idle := a.lastFailure != 0 && now - a.lastFailure > IDLE;
        if noLock && (a.failures == 0 || idle) {
          accounts := accounts - {email};
        }
      }
    }
  }

  // ---------------------------------------------------------------------------------------------------
  // Runs
  // ---------------------------------------------------------------------------------------------------

  function After(calls: seq<Call>): Store {
    if calls == [] then Store(map[], map[]) else Next(After(Front(calls)), Last(calls))
  }

  /** A clock that never runs backwards. */
  predicate Clocked(calls: seq<Call>) {
    calls == [] || (Clocked(Front(calls)) && Last(calls).now > 0 &&
                    (|calls| > 1 ==> Last(Front(calls)).now <= Last(calls).now))
  }

  function Clock(calls: seq<Call>): int {
    if calls == [] then 0 else Last(calls).now
  }

  /** Calls of Allow from one address in one minute, whatever the answer. */
  function AllowCalls(calls: seq<Call>, ip: string, window: int): nat {
    if calls == [] then 0
    else
      AllowCalls(Front(calls), ip, window) +
      if Last(calls).AllowCall? && Last(calls).ip == ip && Window(Last(calls).now) == window then 1 else 0
  }

  /** Those that were let through. */
  function AllowedCalls(calls: seq<Call>, ip: string, window: int): nat {
    if calls == [] then 0
    else
      AllowedCalls(Front(calls), ip, window) +
      if Last(calls).AllowCall? && Last(calls).ip == ip && Window(Last(calls).now) == window &&
         Permits(After(Front(calls)), ip, Last(calls).email, Last(calls).now) then 1 else 0
  }

  lemma WindowMonotone(a: int, b: int)
    requires a <= b
    ensures Window(a) <= Window(b)
  {
    assert Window(a) == MINUTE * (a / MINUTE) && Window(b) == MINUTE * (b / MINUTE);
  }

  /** The stored count is the number of calls in the current minute; sweeping only drops counts of minutes gone by. */
  lemma {:induction false} CounterIsCalls(calls: seq<Call>, ip: string, window: int)
    requires Clocked(calls) && window >= Window(Clock(calls))
    ensures AllowCalls(calls, ip, window) ==
      if IpOf(After(calls), ip).windowStart == window then IpOf(After(calls), ip).count else 0
    ensures IpOf(After(calls), ip).windowStart <= Window(Clock(calls))
  {
    if calls != [] {
      WindowMonotone(Clock(Front(calls)), Clock(calls));
      CounterIsCalls(Front(calls), ip, window);
      CounterIsCalls(Front(calls), ip, Window(Clock(calls)));
    }
  }

  /** The address check passes exactly while fewer than ten calls came before in the same minute. */
  lemma IpCheckIsExact(calls: seq<Call>, ip: string, now: int)
    requires Clocked(calls) && now >= Clock(calls)
    ensures IpPasses(After(calls), ip, now) <==> AllowCalls(calls, ip, Window(now)) < MAX_PER_MINUTE
  {
    WindowMonotone(Clock(calls), now);
    CounterIsCalls(calls, ip, Window(now));
  }

  /** At most ten calls per address and minute are let through, wherever the sweeps fall. */
  lemma {:induction false} AtMostTenPerMinute(calls: seq<Call>, ip: string, window: int)
    requires Clocked(calls)
    ensures AllowedCalls(calls, ip, window) <= AllowCalls(calls, ip, window)
    ensures AllowedCalls(calls, ip, window) <= MAX_PER_MINUTE
  {
    if calls != [] {
      AtMostTenPerMinute(Front(calls), ip, window);
      IpCheckIsExact(Front(calls), ip, Clock(calls));
    }
  }

  /** An account is locked exactly from its fifth failure on, until fifteen minutes after its last one. */
  ghost predicate Consistent(a: Account) {
    && a.failures >= 0
    && (a.failures >= THRESHOLD <==> a.lockedUntil != 0)
    && (a.failures >= THRESHOLD ==> a.lockedUntil == a.lastFailure + LOCKOUT)
    && (a.failures > 0 ==> a.lastFailure > 0)
  }

  lemma {:induction false} AccountsConsistent(calls: seq<Call>, email: string)
    requires Clocked(calls)
    ensures Consistent(AccountOf(After(calls), email))
  {
    if calls != [] {
      AccountsConsistent(Front(calls), email);
    }
  }

  /** What the calls say about an account, whatever was swept and whoever tried to log in: the failures since the last
      success that each came less than a lockout after the one before, and the time of the last. */
  datatype Streak = Streak(failures: nat, last: int)

  function StreakOf(calls: seq<Call>, email: string): Streak {
    if calls == [] then Streak(0, 0)
    else
      var s := StreakOf(Front(calls), email);
      match Last(calls)
      case SuccessCall(e, _) => if e == email then Streak(0, 0) else s
      case FailureCall(e, now) =>
        if e != email then s
        else if s.failures > 0 && now - s.last < LOCKOUT then Streak(s.failures + 1, now)
        else Streak(1, now)
      case _ => s
  }

  lemma {:induction false} StreakIsKept(calls: seq<Call>, email: string)
    requires Clocked(calls) && email != ""
    ensures var s := StreakOf(calls, email); var a := AccountOf(After(calls), email);
      && s.last <= Clock(calls)
      && (s.failures > 0 && Clock(calls) < s.last + LOCKOUT ==> a.failures >= s.failures && a.lastFailure == s.last)
  {
    if calls != [] {
      StreakIsKept(Front(calls), email);
      AccountsConsistent(Front(calls), email);
    }
  }

  /** Five failures in a row, each less than fifteen minutes after the one before, lock the account: every attempt is
      refused until fifteen minutes after the last, wherever the sweeps and the other calls fall. */
  lemma FiveFailuresLockOut(calls: seq<Call>, ip: string, email: string, now: int)
    requires Clocked(calls) && email != "" && now >= Clock(calls)
    requires StreakOf(calls, email).failures >= THRESHOLD && now < StreakOf(calls, email).last + LOCKOUT
    ensures !Permits(After(calls), ip, email, now)
  {
    StreakIsKept(calls, email);
    AccountsConsistent(calls, email);
  }

  /** Whether any of the calls is a success of the account. */
  predicate Succeeds(calls: seq<Call>, email: string) {
    exists call :: call in calls && call.SuccessCall? && call.email == email
  }

  /** Failures of an account since its last success, and the time of its last failure, from the calls alone. */
  function FailuresSinceSuccess(calls: seq<Call>, email: string): nat {
    if calls == [] then 0
    else if Last(calls).SuccessCall? && Last(calls).email == email then 0
    else
      FailuresSinceSuccess(Front(calls), email) + if Last(calls).FailureCall? && Last(calls).email == email then 1 else 0
  }

  function LastFailureTime(calls: seq<Call>, email: string): int {
    if calls == [] then 0
    else if Last(calls).FailureCall? && Last(calls).email == email then Last(calls).now
    else LastFailureTime(Front(calls), email)
  }

  lemma {:induction false} CounterWithinHistory(calls: seq<Call>, email: string)
    requires Clocked(calls) && email != ""
    ensures var a := AccountOf(After(calls), email);
      && a.failures <= FailuresSinceSuccess(calls, email)
      && (a.failures > 0 ==> a.lastFailure == LastFailureTime(calls, email))
  {
    if calls != [] {
      CounterWithinHistory(Front(calls), email);
    }
  }

  /** A sweep takes an account exactly if nothing counts against it or its last failure is more than half an hour old;
      by then a lockout is long over. */
  lemma SweepTakesAccountIff(calls: seq<Call>, now: int, email: string)
    requires Clocked(calls + [EvictCall(now)]) && email in After(calls).accounts
    ensures email !in After(calls + [EvictCall(now)]).accounts <==>
      AccountOf(After(calls), email).failures == 0 || now > LastFailureTime(calls, email) + IDLE
  {
    assert Front(calls + [EvictCall(now)]) == calls;
    NothingWithoutEmail(calls);
    AccountsConsistent(calls, email);
    CounterWithinHistory(calls, email);
  }

  /** Attempts and outcomes without an email leave no trace in the accounts. */
  lemma {:induction false} NothingWithoutEmail(calls: seq<Call>)
    ensures "" !in After(calls).accounts
  {
    if calls != [] {
      NothingWithoutEmail(Front(calls));
    }
  }

  /** After a sweep there is an entry for just the addresses that made an attempt in the current minute. */
  lemma SweepKeepsAddressIff(calls: seq<Call>, now: int, ip: string)
    requires Clocked(calls + [EvictCall(now)])
    ensures ip in After(calls + [EvictCall(now)]).ips <==> AllowCalls(calls, ip, Window(now)) > 0
  {
    assert Front(calls + [EvictCall(now)]) == calls;
    WindowMonotone(Clock(calls), now);
    CounterIsCalls(calls, ip, Window(now));
    CountsArePositive(calls, ip);
  }

  lemma {:induction false} CountsArePositive(calls: seq<Call>, ip: string)
    ensures ip in After(calls).ips ==> After(calls).ips[ip].count > 0
  {
    if calls != [] {
      CountsArePositive(Front(calls), ip);
    }
  }

  /** Each call of the tail comes less than a lockout after the account's last failure before it. */
  ghost predicate WithinLockout(calls: seq<Call>, tail: seq<Call>, email: string) {
    forall n :: 0 <= n < |tail| ==> tail[n].now < LastFailureTime(calls + tail[..n], email) + LOCKOUT
  }

  /** An account whose counter has reached five stays refused until fifteen minutes after its last failure, counting
      further failures while it is locked, unless a success is recorded. */
  lemma {:induction false} LockedAccountStaysRefused(calls: seq<Call>, tail: seq<Call>, ip: string, email: string, now: int)
    requires Clocked(calls + tail) && email != ""
    requires AccountOf(After(calls), email).failures >= THRESHOLD
    requires !Succeeds(tail, email) && WithinLockout(calls, tail, email)
    requires Clock(calls + tail) <= now < LastFailureTime(calls + tail, email) + LOCKOUT
    ensures AccountOf(After(calls + tail), email).failures >= THRESHOLD
    ensures !Permits(After(calls + tail), ip, email, now)
  {
    if tail == [] {
      assert calls + tail == calls;
    } else {
      var all := calls + tail;
      assert Front(all) == calls + Front(tail) && Last(all) == Last(tail) && Last(tail) in tail;
      assert !Succeeds(Front(tail), email);
      ShorterTail(calls, tail, email);
      ClockStep(all);
      LockedAccountStaysRefused(calls, Front(tail), ip, email, Last(tail).now);
      LockoutSurvives(all, email);
    }
    AccountsConsistent(calls + tail, email);
    CounterWithinHistory(calls + tail, email);
  }

  lemma ShorterTail(calls: seq<Call>, tail: seq<Call>, email: string)
    requires tail != [] && WithinLockout(calls, tail, email)
    ensures WithinLockout(calls, Front(tail), email)
    ensures Last(tail).now < LastFailureTime(calls + Front(tail), email) + LOCKOUT
  {
    assert tail[..|tail| - 1] == Front(tail);
    forall n | 0 <= n < |Front(tail)|
      ensures Front(tail)[n].now < LastFailureTime(calls + Front(tail)[..n], email) + LOCKOUT
    {
      assert Front(tail)[..n] == tail[..n];
    }
  }

  /** One call that is no success and comes while the lockout runs. */
  lemma LockoutSurvives(calls: seq<Call>, email: string)
    requires Clocked(calls) && calls != [] && email != ""
    requires AccountOf(After(Front(calls)), email).failures >= THRESHOLD
    requires !(Last(calls).SuccessCall? && Last(calls).email == email)
    requires Last(calls).now < LastFailureTime(Front(calls), email) + LOCKOUT
    ensures AccountOf(After(calls), email).failures >= THRESHOLD
  {
    AccountsConsistent(Front(calls), email);
    CounterWithinHistory(Front(calls), email);
  }

  lemma ClockStep(calls: seq<Call>)
    requires Clocked(calls) && calls != []
    ensures Clocked(Front(calls)) && Clock(Front(calls)) <= Last(calls).now
  {
  }

  /** No attempt is refused without cause: the address had used up its minute, or the account failed five times since its
      last success and last failed less than fifteen minutes ago. */
  lemma RefusedForCause(calls: seq<Call>, ip: string, email: string, now: int)
    requires Clocked(calls) && now >= Clock(calls) && !Permits(After(calls), ip, email, now)
    ensures AllowCalls(calls, ip, Window(now)) >= MAX_PER_MINUTE ||
      (FailuresSinceSuccess(calls, email) >= THRESHOLD && now < LastFailureTime(calls, email) + LOCKOUT)
  {
    IpCheckIsExact(calls, ip, now);
    if email != "" {
      AccountsConsistent(calls, email);
      CounterWithinHistory(calls, email);
    }
  }

  // ---------------------------------------------------------------------------------------------------
  // What a sweep costs
  // ---------------------------------------------------------------------------------------------------

  /** The store after more calls. */
  function Later(s: Store, calls: seq<Call>): Store {
    if calls == [] then s else Next(Later(s, Front(calls)), Last(calls))
  }

  lemma {:induction false} LaterIsAfter(calls: seq<Call>, tail: seq<Call>)
    ensures Later(After(calls), tail) == After(calls + tail)
  {
    if tail == [] {
      assert calls + tail == calls;
    } else {
      assert Front(calls + tail) == calls + Front(tail);
      LaterIsAfter(calls, Front(tail));
    }
  }

  /** Every attempt on an account among the calls is answered alike, whichever of the stores they start from. */
  ghost predicate AnswersAlike(s: Store, t: Store, calls: seq<Call>, email: string) {
    forall n :: 0 <= n < |calls| && calls[n].AllowCall? && calls[n].email == email ==>
      (Permits(Later(s, calls[..n]), calls[n].ip, email, calls[n].now) <==>
       Permits(Later(t, calls[..n]), calls[n].ip, email, calls[n].now))
  }

  /** A sweep after some calls goes unnoticed by an account: no run of calls that follows, with a clock that does not run
      back, gets another answer than it gets without the sweep. */
  ghost predicate SweepUnnoticed(calls: seq<Call>, now: int, email: string) {
    forall tail :: Clocked(calls + [EvictCall(now)] + tail) ==>
      AnswersAlike(After(calls), After(calls + [EvictCall(now)]), tail, email)
  }

  /** Alike but for the time of a last failure that no longer counts. */
  predicate Alike(a: Account, b: Account) {
    && a.failures == b.failures && a.lockedUntil == b.lockedUntil
    && ((a.failures == 0 && a.lockedUntil == 0) || a.lastFailure == b.lastFailure)
  }

  function CountIn(e: IpEntry, window: int): int {
    if e.windowStart == window then e.count else 0
  }

  /** The stores count the same attempts from the window of a time on, and hold alike accounts for an address. */
  ghost predicate Indistinct(s: Store, t: Store, email: string, now: int) {
    && Alike(AccountOf(s, email), AccountOf(t, email))
    && forall ip, window :: window >= Window(now) ==> CountIn(IpOf(s, ip), window) == CountIn(IpOf(t, ip), window)
  }

  lemma IpPassesByCount(s: Store, ip: string, now: int)
    ensures IpPasses(s, ip, now) <==> CountIn(IpOf(s, ip), Window(now)) < MAX_PER_MINUTE
  {
  }

  lemma IndistinctAnswers(s: Store, t: Store, ip: string, email: string, now: int)
    requires Indistinct(s, t, email, now)
    ensures IpPasses(s, ip, now) == IpPasses(t, ip, now)
    ensures Permits(s, ip, email, now) == Permits(t, ip, email, now)
  {
    IpPassesByCount(s, ip, now);
    IpPassesByCount(t, ip, now);
  }

  lemma CountAfterStep(s: Store, call: Call, ip: string, window: int)
    requires window >= Window(call.now)
    ensures CountIn(IpOf(Next(s, call), ip), window) ==
      if call.AllowCall? && call.ip == ip && window == Window(call.now) then CountIn(IpOf(s, ip), window) + 1
      else if call.AllowCall? && call.ip == ip then 0
      else CountIn(IpOf(s, ip), window)
  {
  }

  lemma AccountAfterStep(s: Store, call: Call, email: string)
    requires email != ""
    ensures AccountOf(Next(s, call), email) == match call
      case AllowCall(ip, e, now) =>
        if e == email && IpPasses(s, ip, now) then AccountAfterAllow(AccountOf(s, email), now) else AccountOf(s, email)
      case FailureCall(e, now) => if e == email then AccountAfterFailure(AccountOf(s, email), now) else AccountOf(s, email)
      case SuccessCall(e, _) => if e == email then AccountAfterSuccess(AccountOf(s, email)) else AccountOf(s, email)
      case EvictCall(now) => if AccountStale(AccountOf(s, email), now) then NEW_ACCOUNT else AccountOf(s, email)
  {
  }

  lemma StepStaysIndistinct(s: Store, t: Store, email: string, now: int, call: Call)
    requires email != "" && Indistinct(s, t, email, now) && call.now >= now
    ensures Indistinct(Next(s, call), Next(t, call), email, call.now)
  {
    hide Next;
    WindowMonotone(now, call.now);
    forall ip, window | window >= Window(call.now)
      ensures CountIn(IpOf(Next(s, call), ip), window) == CountIn(IpOf(Next(t, call), ip), window)
    {
      CountAfterStep(s, call, ip, window);
      CountAfterStep(t, call, ip, window);
    }
    if call.AllowCall? {
      IpPassesByCount(s, call.ip, call.now);
      IpPassesByCount(t, call.ip, call.now);
    }
    AccountAfterStep(s, call, email);
    AccountAfterStep(t, call, email);
  }

  lemma {:induction false} LaterStaysIndistinct(s: Store, t: Store, email: string, now: int, calls: seq<Call>)
    requires email != "" && Indistinct(s, t, email, now) && FollowOn(now, calls)
    ensures Indistinct(Later(s, calls), Later(t, calls), email, if calls == [] then now else Last(calls).now)
  {
    if calls != [] {
      LaterStaysIndistinct(s, t, email, now, Front(calls));
      StepStaysIndistinct(Later(s, Front(calls)), Later(t, Front(calls)), email,
                          if Front(calls) == [] then now else Last(Front(calls)).now, Last(calls));
    }
  }

  /** Calls at a time or later, none earlier than the one before. */
  predicate FollowOn(now: int, calls: seq<Call>) {
    calls == [] ||
    (FollowOn(now, Front(calls)) && Last(calls).now >= if |calls| == 1 then now else Last(Front(calls)).now)
  }

  lemma {:induction false} ClockedFollowsOn(calls: seq<Call>, tail: seq<Call>)
    requires calls != [] && Clocked(calls + tail)
    ensures FollowOn(Last(calls).now, tail) && Clocked(calls)
  {
    if tail == [] {
      assert calls + tail == calls;
    } else {
      assert Front(calls + tail) == calls + Front(tail);
      ClockedFollowsOn(calls, Front(tail));
    }
  }

  lemma {:induction false} FollowOnPrefix(now: int, calls: seq<Call>, n: nat)
    requires FollowOn(now, calls) && n < |calls|
    ensures FollowOn(now, calls[..n])
    ensures calls[n].now >= if n == 0 then now else Last(calls[..n]).now
  {
    assert Front(calls) == calls[..|calls| - 1];
    if n < |calls| - 1 {
      FollowOnPrefix(now, Front(calls), n);
      assert Front(calls)[..n] == calls[..n];
    }
  }

  lemma IndistinctAnswersAlike(s: Store, t: Store, email: string, now: int, calls: seq<Call>)
    requires email != "" && Indistinct(s, t, email, now) && FollowOn(now, calls)
    ensures AnswersAlike(s, t, calls, email)
  {
    forall n | 0 <= n < |calls| && calls[n].AllowCall? && calls[n].email == email
      ensures Permits(Later(s, calls[..n]), calls[n].ip, email, calls[n].now) <==>
              Permits(Later(t, calls[..n]), calls[n].ip, email, calls[n].now)
    {
      FollowOnPrefix(now, calls, n);
      LaterStaysIndistinct(s, t, email, now, calls[..n]);
      var clock := if n == 0 then now else Last(calls[..n]).now;
      WindowMonotone(clock, calls[n].now);
      IndistinctAnswers(Later(s, calls[..n]), Later(t, calls[..n]), calls[n].ip, email, calls[n].now);
    }
  }

  /** A sweep changes no count that matters, and no account it does not take failures from. */
  lemma SweptIsIndistinct(s: Store, email: string, now: int)
    requires email != "" && Consistent(AccountOf(s, email))
    requires AccountStale(AccountOf(s, email), now) ==> AccountOf(s, email).failures == 0
    ensures Indistinct(s, Next(s, EvictCall(now)), email, now)
  {
    forall ip, window | window >= Window(now)
      ensures CountIn(IpOf(s, ip), window) == CountIn(IpOf(Next(s, EvictCall(now)), ip), window)
    {
      CountAfterStep(s, EvictCall(now), ip, window);
    }
    AccountAfterStep(s, EvictCall(now), email);
  }

  /** Failures at a time, and an attempt a minute later, when no address has used anything up. */
  function FailAgain(email: string, n: nat, now: int): seq<Call> {
    Failures(email, n, now) + [AllowCall("", email, now + MINUTE)]
  }

  function Failures(email: string, n: nat, now: int): seq<Call> {
    seq(n, i => FailureCall(email, now))
  }

  lemma {:induction false} FailuresAdd(s: Store, email: string, n: nat, now: int)
    requires email != ""
    ensures var t := Later(s, Failures(email, n, now)); var a := AccountOf(t, email);
      && t.ips == s.ips
      && a.failures == AccountOf(s, email).failures + n
      && (n > 0 && a.failures >= THRESHOLD ==> a.lockedUntil == now + LOCKOUT)
      && (a.failures < THRESHOLD ==> a.lockedUntil == AccountOf(s, email).lockedUntil)
  {
    if n > 0 {
      var calls := Failures(email, n, now);
      FailuresAdd(s, email, n - 1, now);
      assert Front(calls) == Failures(email, n - 1, now);
      AccountAfterStep(Later(s, Front(calls)), FailureCall(email, now), email);
    }
  }

  /** What the attack meets: refused exactly if the failures add up. */
  lemma FailAgainAnswer(s: Store, email: string, n: nat, now: int)
    requires email != "" && now > 0 && n > 0 && AccountOf(s, email).failures >= 0
    requires AccountOf(s, email).failures + n < THRESHOLD ==> AccountOf(s, email).lockedUntil == 0
    requires forall ip :: IpOf(s, ip).windowStart <= Window(now)
    ensures Permits(Later(s, Failures(email, n, now)), "", email, now + MINUTE) <==>
            AccountOf(s, email).failures + n < THRESHOLD
  {
    var t := Later(s, Failures(email, n, now));
    FailuresAdd(s, email, n, now);
    NextWindow(now);
    assert IpOf(t, "") == IpOf(s, "");
    IpPassesByCount(t, "", now + MINUTE);
  }

  lemma NextWindow(now: int)
    ensures Window(now) < Window(now + MINUTE)
  {
    assert (now + MINUTE) % MINUTE == now % MINUTE;
  }

  lemma {:induction false} FailAgainIsClocked(calls: seq<Call>, email: string, n: nat, now: int)
    requires Clocked(calls) && calls != [] && Clock(calls) == now && now > 0
    ensures Clocked(calls + Failures(email, n, now)) && Clock(calls + Failures(email, n, now)) == now
    ensures Clocked(calls + FailAgain(email, n, now))
  {
    var more := calls + Failures(email, n, now);
    if n == 0 {
      assert more == calls;
    } else {
      var fewer := calls + Failures(email, n - 1, now);
      FailAgainIsClocked(calls, email, n - 1, now);
      assert more == fewer + [FailureCall(email, now)];
      ClockedGrows(fewer, FailureCall(email, now));
    }
    assert calls + FailAgain(email, n, now) == more + [AllowCall("", email, now + MINUTE)];
    ClockedGrows(more, AllowCall("", email, now + MINUTE));
  }

  lemma ClockedGrows(calls: seq<Call>, call: Call)
    requires Clocked(calls) && call.now > 0 && Clock(calls) <= call.now
    ensures Clocked(calls + [call]) && Clock(calls + [call]) == call.now
  {
    assert Front(calls + [call]) == calls;
  }

  /** A sweep that takes failures from an account is noticed when it fails again. */
  lemma SweptFailuresAreMissed(calls: seq<Call>, now: int, email: string)
    requires Clocked(calls + [EvictCall(now)]) && email != ""
    requires AccountStale(AccountOf(After(calls), email), now) && AccountOf(After(calls), email).failures != 0
    ensures !SweepUnnoticed(calls, now, email)
  {
    var swept := calls + [EvictCall(now)];
    assert Front(swept) == calls;
    var s, t := After(calls), After(swept);
    AccountsConsistent(calls, email);
    AccountAfterStep(s, EvictCall(now), email);
    var failures := AccountOf(s, email).failures;
    var n := if failures >= THRESHOLD then 1 else THRESHOLD - failures;
    IpsInThePast(calls, now);
    IpsInThePast(swept, now);
    hide Next, Permits, Clocked, AccountStale;
    FailAgainAnswer(s, email, n, now);
    FailAgainAnswer(t, email, n, now);
    FailAgainIsClocked(swept, email, n, now);
    FailAgainTells(s, t, email, n, now);
  }

  lemma FailAgainTells(s: Store, t: Store, email: string, n: nat, now: int)
    requires Permits(Later(s, Failures(email, n, now)), "", email, now + MINUTE) !=
             Permits(Later(t, Failures(email, n, now)), "", email, now + MINUTE)
    ensures !AnswersAlike(s, t, FailAgain(email, n, now), email)
  {
    var tail := FailAgain(email, n, now);
    assert tail[..n] == Failures(email, n, now) && tail[n] == AllowCall("", email, now + MINUTE);
  }

  lemma IpsInThePast(calls: seq<Call>, now: int)
    requires Clocked(calls) && Clock(calls) <= now
    ensures forall ip :: IpOf(After(calls), ip).windowStart <= Window(now)
  {
    WindowMonotone(Clock(calls), now);
    forall ip
      ensures IpOf(After(calls), ip).windowStart <= Window(now)
    {
      CounterIsCalls(calls, ip, Window(Clock(calls)));
    }
  }

  /** A sweep goes unnoticed by an account exactly when it takes no failures from it: it leaves the account where it is, or
      the account has none. The counts of addresses it drops never matter. */
  lemma SweepUnnoticedIffNoFailures(calls: seq<Call>, now: int, email: string)
    requires Clocked(calls + [EvictCall(now)]) && email != ""
    ensures SweepUnnoticed(calls, now, email) <==>
      (AccountStale(AccountOf(After(calls), email), now) ==> AccountOf(After(calls), email).failures == 0)
  {
    var swept := calls + [EvictCall(now)];
    assert Front(swept) == calls;
    AccountsConsistent(calls, email);
    if AccountStale(AccountOf(After(calls), email), now) && AccountOf(After(calls), email).failures != 0 {
      SweptFailuresAreMissed(calls, now, email);
    } else {
      SweptIsIndistinct(After(calls), email, now);
      forall tail | Clocked(swept + tail)
        ensures AnswersAlike(After(calls), After(swept), tail, email)
      {
        ClockedFollowsOn(swept, tail);
        IndistinctAnswersAlike(After(calls), After(swept), email, now, tail);
      }
    }
  }

  /** It does happen: one failure and half an hour without another. */
  lemma StaleFailuresHappen(email: string, calls: seq<Call>, now: int)
    requires email != "" && calls == [FailureCall(email, 1)] && now > 1 + IDLE
    ensures Clocked(calls + [EvictCall(now)])
    ensures AccountStale(AccountOf(After(calls), email), now) && AccountOf(After(calls), email).failures == 1
  {
    assert Front(calls) == [] && Last(calls) == FailureCall(email, 1);
    ClockedGrows([], FailureCall(email, 1));
    assert [] + calls == calls;
    ClockedGrows(calls, EvictCall(now));
    AccountAfterStep(After([]), FailureCall(email, 1), email);
    assert After(calls) == Next(After([]), FailureCall(email, 1));
  }

  // ---------------------------------------------------------------------------------------------------
  // What a sweep costs the login handler
  // ---------------------------------------------------------------------------------------------------

  /** Whether one of the calls is an attempt on an account that is let through. */
  predicate Opened(s: Store, calls: seq<Call>, email: string) {
    calls != [] &&
    (Opened(s, Front(calls), email) ||
     (Last(calls).AllowCall? && Last(calls).email == email &&
      Permits(Later(s, Front(calls)), Last(calls).ip, email, Last(calls).now)))
  }

  /** As the login handler calls: no failure of the account is recorded before an attempt on it was let through. */
  predicate Handled(s: Store, calls: seq<Call>, email: string) {
    calls == [] ||
    (Handled(s, Front(calls), email) &&
     (Last(calls).FailureCall? && Last(calls).email == email ==> Opened(s, Front(calls), email)))
  }

  /** A sweep goes unnoticed by an account as far as the login handler can tell. */
  ghost predicate LoginsUnaffected(calls: seq<Call>, now: int, email: string) {
    forall tail ::
      Clocked(calls + [EvictCall(now)] + tail) && Handled(After(calls + [EvictCall(now)]), tail, email) ==>
        AnswersAlike(After(calls), After(calls + [EvictCall(now)]), tail, email)
  }

  /** An account whose lockout has run out, against one swept away. */
  predicate Expired(a: Account, b: Account, now: int) {
    a.lockedUntil != 0 && a.lockedUntil < now && b == NEW_ACCOUNT
  }

  ghost predicate SameCounts(s: Store, t: Store, now: int) {
    forall ip, window :: window >= Window(now) ==> CountIn(IpOf(s, ip), window) == CountIn(IpOf(t, ip), window)
  }

  /** Until an attempt is let through the accounts may differ by an expired lockout, which that attempt clears. */
  ghost predicate AlikeOnceOpened(s: Store, t: Store, email: string, now: int, open: bool) {
    && SameCounts(s, t, now)
    && (Alike(AccountOf(s, email), AccountOf(t, email)) ||
        (!open && Expired(AccountOf(s, email), AccountOf(t, email), now)))
  }

  lemma AlikeOnceOpenedAnswers(s: Store, t: Store, ip: string, email: string, now: int, open: bool)
    requires AlikeOnceOpened(s, t, email, now, open)
    ensures IpPasses(s, ip, now) == IpPasses(t, ip, now)
    ensures Permits(s, ip, email, now) == Permits(t, ip, email, now)
  {
    IpPassesByCount(s, ip, now);
    IpPassesByCount(t, ip, now);
  }

  lemma CountsStaySame(s: Store, t: Store, now: int, call: Call)
    requires SameCounts(s, t, now) && call.now >= now
    ensures SameCounts(Next(s, call), Next(t, call), call.now)
  {
    hide Next;
    WindowMonotone(now, call.now);
    forall ip, window | window >= Window(call.now)
      ensures CountIn(IpOf(Next(s, call), ip), window) == CountIn(IpOf(Next(t, call), ip), window)
    {
      CountAfterStep(s, call, ip, window);
      CountAfterStep(t, call, ip, window);
    }
  }

  lemma StepStaysAlikeOnceOpened(s: Store, t: Store, email: string, now: int, open: bool, call: Call)
    requires email != "" && AlikeOnceOpened(s, t, email, now, open) && call.now >= now
    requires call.FailureCall? && call.email == email ==> open
    ensures var opens := call.AllowCall? && call.email == email && Permits(t, call.ip, email, call.now);
      AlikeOnceOpened(Next(s, call), Next(t, call), email, call.now, open || opens)
  {
    CountsStaySame(s, t, now, call);
    hide Next, SameCounts;
    WindowMonotone(now, call.now);
    if call.AllowCall? {
      CountsMove(s, t, now, call.now);
      IpPassesByCount(s, call.ip, call.now);
      IpPassesByCount(t, call.ip, call.now);
      SameCountAt(s, t, call.now, call.ip);
    }
    AccountAfterStep(s, call, email);
    AccountAfterStep(t, call, email);
  }

  lemma CountsMove(s: Store, t: Store, now: int, later: int)
    requires SameCounts(s, t, now) && now <= later
    ensures SameCounts(s, t, later)
  {
    WindowMonotone(now, later);
  }

  lemma SameCountAt(s: Store, t: Store, now: int, ip: string)
    requires SameCounts(s, t, now)
    ensures CountIn(IpOf(s, ip), Window(now)) == CountIn(IpOf(t, ip), Window(now))
  {
  }

  lemma {:induction false} LaterStaysAlikeOnceOpened(s: Store, t: Store, email: string, now: int, calls: seq<Call>)
    requires email != "" && AlikeOnceOpened(s, t, email, now, false) && FollowOn(now, calls) && Handled(t, calls, email)
    ensures AlikeOnceOpened(Later(s, calls), Later(t, calls), email, if calls == [] then now else Last(calls).now,
                            Opened(t, calls, email))
  {
    hide AlikeOnceOpened, Permits, Next;
    if calls != [] {
      LaterStaysAlikeOnceOpened(s, t, email, now, Front(calls));
      StepStaysAlikeOnceOpened(Later(s, Front(calls)), Later(t, Front(calls)), email,
                               if Front(calls) == [] then now else Last(Front(calls)).now,
                               Opened(t, Front(calls), email), Last(calls));
    }
  }

  lemma {:induction false} HandledPrefix(s: Store, calls: seq<Call>, email: string, n: nat)
    requires Handled(s, calls, email) && n <= |calls|
    ensures Handled(s, calls[..n], email)
  {
    if n < |calls| {
      HandledPrefix(s, Front(calls), email, n);
      assert Front(calls)[..n] == calls[..n];
    } else {
      assert calls[..n] == calls;
    }
  }

  lemma HandledAnswersAlike(s: Store, t: Store, email: string, now: int, calls: seq<Call>)
    requires email != "" && AlikeOnceOpened(s, t, email, now, false) && FollowOn(now, calls) && Handled(t, calls, email)
    ensures AnswersAlike(s, t, calls, email)
  {
    hide AlikeOnceOpened, Permits, Next;
    forall n | 0 <= n < |calls| && calls[n].AllowCall? && calls[n].email == email
      ensures Permits(Later(s, calls[..n]), calls[n].ip, email, calls[n].now) <==>
              Permits(Later(t, calls[..n]), calls[n].ip, email, calls[n].now)
    {
      FollowOnPrefix(now, calls, n);
      HandledPrefix(t, calls, email, n);
      LaterStaysAlikeOnceOpened(s, t, email, now, calls[..n]);
      AnswersAtLater(Later(s, calls[..n]), Later(t, calls[..n]), calls[n].ip, email,
                     if n == 0 then now else Last(calls[..n]).now, calls[n].now, Opened(t, calls[..n], email));
    }
  }

  lemma AnswersAtLater(s: Store, t: Store, ip: string, email: string, now: int, later: int, open: bool)
    requires AlikeOnceOpened(s, t, email, now, open) && now <= later
    ensures Permits(s, ip, email, later) == Permits(t, ip, email, later)
  {
    CountsMove(s, t, now, later);
    AlikeOnceOpenedAnswers(s, t, ip, email, later, open);
  }

  lemma SweptIsAlikeOnceOpened(s: Store, email: string, now: int)
    requires email != "" && Consistent(AccountOf(s, email))
    requires AccountStale(AccountOf(s, email), now) ==>
      AccountOf(s, email).failures == 0 || AccountOf(s, email).failures >= THRESHOLD
    ensures AlikeOnceOpened(s, Next(s, EvictCall(now)), email, now, false)
  {
    hide Next;
    forall ip, window | window >= Window(now)
      ensures CountIn(IpOf(s, ip), window) == CountIn(IpOf(Next(s, EvictCall(now)), ip), window)
    {
      CountAfterStep(s, EvictCall(now), ip, window);
    }
    AccountAfterStep(s, EvictCall(now), email);
  }

  /** Attempts that fail, one after the other, all at one time. */
  function Logins(email: string, n: nat, now: int): seq<Call> {
    if n == 0 then [] else Logins(email, n - 1, now) + [AllowCall("", email, now), FailureCall(email, now)]
  }

  lemma LoginsSplit(email: string, n: nat, now: int)
    requires n > 0
    ensures var calls := Logins(email, n, now);
      && Last(calls) == FailureCall(email, now)
      && Front(calls) == Logins(email, n - 1, now) + [AllowCall("", email, now)]
      && Front(Front(calls)) == Logins(email, n - 1, now) && Last(Front(calls)) == AllowCall("", email, now)
  {
  }

  /** What failed logins leave: the failures added up, each attempt let through as long as they stay below the
      threshold. */
  lemma {:induction false} LoginsAdd(s: Store, email: string, n: nat, now: int)
    requires email != "" && now > 0 && AccountOf(s, email).failures >= 0 && AccountOf(s, email).lockedUntil == 0
    requires AccountOf(s, email).failures + n <= THRESHOLD && CountIn(IpOf(s, ""), Window(now)) == 0
    requires n > 0 || AccountOf(s, email).failures < THRESHOLD
    ensures var t := Later(s, Logins(email, n, now)); var a := AccountOf(t, email);
      && a.failures == AccountOf(s, email).failures + n
      && a.lockedUntil == (if a.failures < THRESHOLD then 0 else now + LOCKOUT)
      && CountIn(IpOf(t, ""), Window(now)) == n
    ensures Handled(s, Logins(email, n, now), email)
  {
    if n > 0 {
      hide Next, Permits;
      var calls := Logins(email, n, now);
      var before := Later(s, Logins(email, n - 1, now));
      LoginsSplit(email, n, now);
      LoginsAdd(s, email, n - 1, now);
      OneLogin(before, email, now);
      assert Later(s, Front(calls)) == Next(before, AllowCall("", email, now));
      assert Later(s, calls) == Next(Later(s, Front(calls)), FailureCall(email, now));
      assert Opened(s, Front(calls), email);
    }
  }

  lemma OneLogin(s: Store, email: string, now: int)
    requires email != "" && now > 0 && 0 <= AccountOf(s, email).failures < THRESHOLD
    requires AccountOf(s, email).lockedUntil == 0 && 0 <= CountIn(IpOf(s, ""), Window(now)) < MAX_PER_MINUTE
    ensures Permits(s, "", email, now)
    ensures var t := Next(Next(s, AllowCall("", email, now)), FailureCall(email, now)); var a := AccountOf(t, email);
      && a.failures == AccountOf(s, email).failures + 1
      && a.lockedUntil == (if a.failures < THRESHOLD then 0 else now + LOCKOUT)
      && CountIn(IpOf(t, ""), Window(now)) == CountIn(IpOf(s, ""), Window(now)) + 1
  {
    hide Next;
    var allowed := Next(s, AllowCall("", email, now));
    IpPassesByCount(s, "", now);
    AccountAfterStep(s, AllowCall("", email, now), email);
    AccountAfterStep(allowed, FailureCall(email, now), email);
    CountAfterStep(s, AllowCall("", email, now), "", Window(now));
    CountAfterStep(allowed, FailureCall(email, now), "", Window(now));
  }

  /** Failed logins and one more attempt. */
  function LogInAgain(email: string, n: nat, now: int): seq<Call> {
    Logins(email, n, now) + [AllowCall("", email, now)]
  }

  lemma {:induction false} LogInAgainIsClocked(calls: seq<Call>, email: string, n: nat, now: int)
    requires Clocked(calls) && Clock(calls) <= now && now > 0
    ensures Clocked(calls + Logins(email, n, now)) && Clock(calls + Logins(email, n, now)) <= now
    ensures Clocked(calls + LogInAgain(email, n, now))
  {
    hide Clocked;
    if n == 0 {
      assert calls + Logins(email, n, now) == calls;
    } else {
      var fewer := calls + Logins(email, n - 1, now);
      LogInAgainIsClocked(calls, email, n - 1, now);
      ClockedGrows(fewer, AllowCall("", email, now));
      ClockedGrows(fewer + [AllowCall("", email, now)], FailureCall(email, now));
      assert calls + Logins(email, n, now) == fewer + [AllowCall("", email, now)] + [FailureCall(email, now)];
    }
    ClockedGrows(calls + Logins(email, n, now), AllowCall("", email, now));
    assert calls + LogInAgain(email, n, now) == calls + Logins(email, n, now) + [AllowCall("", email, now)];
  }

  /** The last attempt is let through exactly if the failures before it stay below the threshold. */
  lemma LogInAgainAnswer(s: Store, email: string, n: nat, now: int)
    requires email != "" && now > 0 && AccountOf(s, email).failures >= 0 && AccountOf(s, email).lockedUntil == 0
    requires 0 < n <= THRESHOLD - AccountOf(s, email).failures && CountIn(IpOf(s, ""), Window(now)) == 0
    ensures Handled(s, LogInAgain(email, n, now), email)
    ensures Permits(Later(s, Logins(email, n, now)), "", email, now) <==> AccountOf(s, email).failures + n < THRESHOLD
  {
    LoginsAdd(s, email, n, now);
    IpPassesByCount(Later(s, Logins(email, n, now)), "", now);
    assert Front(LogInAgain(email, n, now)) == Logins(email, n, now);
  }

  lemma LogInAgainTells(s: Store, t: Store, email: string, n: nat, now: int)
    requires Permits(Later(s, Logins(email, n, now)), "", email, now) !=
             Permits(Later(t, Logins(email, n, now)), "", email, now)
    ensures !AnswersAlike(s, t, LogInAgain(email, n, now), email)
  {
    var tail, k := LogInAgain(email, n, now), |Logins(email, n, now)|;
    assert tail[..k] == Logins(email, n, now) && tail[k] == AllowCall("", email, now);
  }

  lemma SweptFailuresAreMissedAtLogin(calls: seq<Call>, now: int, email: string)
    requires Clocked(calls + [EvictCall(now)]) && email != ""
    requires AccountStale(AccountOf(After(calls), email), now)
    requires 0 < AccountOf(After(calls), email).failures < THRESHOLD
    ensures !LoginsUnaffected(calls, now, email)
  {
    var swept, later := calls + [EvictCall(now)], now + MINUTE;
    assert Front(swept) == calls;
    var s, t := After(calls), After(swept);
    AccountsConsistent(calls, email);
    AccountAfterStep(s, EvictCall(now), email);
    var n := THRESHOLD - AccountOf(s, email).failures;
    IpsInThePast(calls, now);
    IpsInThePast(swept, now);
    NextWindow(now);
    hide Next, Permits, Clocked, AccountStale, Handled;
    LogInAgainAnswer(s, email, n, later);
    LogInAgainAnswer(t, email, n, later);
    LogInAgainIsClocked(swept, email, n, later);
    LogInAgainTells(s, t, email, n, later);
  }

  /** With the handler's discipline a sweep goes unnoticed exactly unless it takes one to four failures from an account
      that is not locked: of more, the attempt that must come first drops the expired lockout just as the sweep does. */
  lemma LoginsUnaffectedIff(calls: seq<Call>, now: int, email: string)
    requires Clocked(calls + [EvictCall(now)]) && email != ""
    ensures LoginsUnaffected(calls, now, email) <==>
      !(AccountStale(AccountOf(After(calls), email), now) && 0 < AccountOf(After(calls), email).failures < THRESHOLD)
  {
    var swept := calls + [EvictCall(now)];
    assert Front(swept) == calls;
    AccountsConsistent(calls, email);
    if AccountStale(AccountOf(After(calls), email), now) && 0 < AccountOf(After(calls), email).failures < THRESHOLD {
      SweptFailuresAreMissedAtLogin(calls, now, email);
    } else {
      SweptIsAlikeOnceOpened(After(calls), email, now);
      forall tail | Clocked(swept + tail) && Handled(After(swept), tail, email)
        ensures AnswersAlike(After(calls), After(swept), tail, email)
      {
        ClockedFollowsOn(swept, tail);
        HandledAnswersAlike(After(calls), After(swept), email, now, tail);
      }
    }
  }
}
