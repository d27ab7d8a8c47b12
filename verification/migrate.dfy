/** The migration runner (internal/db/migrate.go): SQL files applied each in its own transaction, Go migrations applied
  in committed pieces and recorded afterwards, all under one lock, on machines that may stop at any step. */
module Migrations {
  import opened Common
  import opened Text
  import opened NormalizeTimestamps

  /** The migrations of one binary: all names in the order of sort.Strings, and those implemented in Go, which normalise
      the stored timestamps; and the dialect of the database. */
  datatype Catalog = Catalog(names: seq<string>, goNames: set<string>, dialect: Dialect)

  /** Sorting distinct file names puts them in strictly increasing order. */
  ghost predicate ValidCatalog(c: Catalog) {
    forall i, j :: 0 <= i < j < |c.names| ==> Less(c.names[i], c.names[j])
  }

  /** The parts of the database the runner changes: schema_migrations, the SQL effects committed so far in order, and
      the event rows the Go migration rewrites. */
  datatype Db = Db(recorded: set<string>, effects: seq<string>, rows: map<string, string>)

  lemma NamesDistinct(c: Catalog, i: nat, j: nat)
    requires ValidCatalog(c) && i < |c.names| && j < |c.names| && c.names[i] == c.names[j]
    ensures i == j
  {
    LessIrreflexive(c.names[i]);
  }

  /** The first `n` names. */
  ghost function First(c: Catalog, n: nat): set<string>
    requires n <= |c.names|
  {
    set i | 0 <= i < n :: c.names[i]
  }

  /** The SQL files among the first `n` names, in order. */
  function SqlFiles(c: Catalog, n: nat): seq<string>
    requires n <= |c.names|
  {
    if n == 0 then []
    else SqlFiles(c, n - 1) + if c.names[n - 1] in c.goNames then [] else [c.names[n - 1]]
  }

  // ---------------------------------------------------------------------------------------------------
  // One runner
  // ---------------------------------------------------------------------------------------------------

  /** What fails while a migration is dealt with: looking it up, its SQL transaction, statements of the batches of a Go
      migration, or recording it. */
  datatype Fate = Fate(lookupFails: bool, sqlFails: bool, batches: nat -> NormalizeTimestamps.Fate, recordFails: bool)

  /** What makes a migration fail, and what may do so: a database lost in a batch matters only if the batch falls back and
      has that many rows to rewrite. */
  predicate MustFail(c: Catalog, name: string, fate: Fate) {
    if name in c.goNames then fate.recordFails else fate.sqlFails
  }

  ghost predicate MayFail(c: Catalog, name: string, fate: Fate) {
    MustFail(c, name, fate) || (name in c.goNames && BatchMayFail(fate))
  }

  ghost predicate BatchMayFail(fate: Fate) {
    exists k: nat :: fate.batches(k).boundFails || fate.batches(k).fallbackFault.Some?
  }

  ghost function Pending(c: Catalog, recorded: set<string>, n: nat): seq<string>
    requires n <= |c.names|
  {
    if n == 0 then []
    else
      var name := c.names[n - 1];
      Pending(c, recorded, n - 1) + if name in c.goNames || name in recorded then [] else [name]
  }

  /** SQL and Go agree on the stored values, and on what they are rewritten to. */
  ghost predicate StoresAgree(d: Dialect, rows: map<string, string>) {
    AgreesOn(d, rows) && AgreesOn(d, PlainTable(rows))
  }

  class Database {
    var recorded: set<string>
    var effects: seq<string>
    var rows: map<string, string>

    constructor (recorded: set<string>, rows: map<string, string>)
      ensures this.recorded == recorded && effects == [] && this.rows == rows
    {
      this.recorded, effects, this.rows := recorded, [], rows;
    }

    /** RunMigrations of a runner that is alone. Whatever fails, exactly the unrecorded names up to some point were
        dealt with, in order, and success means all of them; a run stops only at a lookup that fails or a migration that
        may, and gets past none that must. */
    method RunMigrations(c: Catalog, fates: nat -> Fate) returns (ok: bool, ghost n: nat)
      requires ValidCatalog(c)
      modifies this
      ensures DealtWith(c, n, old(recorded), recorded, old(effects), effects) && (ok ==> n == |c.names|)
      ensures !ok ==> n < |c.names|
      ensures !ok ==> fates(n).lookupFails || (c.names[n] !in old(recorded) && MayFail(c, c.names[n], fates(n)))
      ensures forall k :: 0 <= k < n ==>
        !fates(k).lookupFails && (c.names[k] in old(recorded) || !MustFail(c, c.names[k], fates(k)))
      ensures StoresAgree(c.dialect, old(rows)) ==>
        Progress(old(rows), rows) && (ok && GoWasPending(c, |c.names|, old(recorded)) ==> rows == PlainTable(old(rows)))
    {
      hide StoresAgree, PlainTable, Progress, GoWasPending, DealtWith, MustFail, MayFail;
      ghost var before, effects0, rows0 := recorded, effects, rows;
      NothingDealtWith(c, recorded, effects);
      NothingPending(c, before);
      NoProgress(rows);
      var i := 0;
      n := 0;
      while i < |c.names|
        invariant n == i && i <= |c.names|
        invariant DealtWith(c, i, before, recorded, effects0, effects)
        invariant forall k :: 0 <= k < i ==>
          !fates(k).lookupFails && (c.names[k] in before || !MustFail(c, c.names[k], fates(k)))
        invariant StoresAgree(c.dialect, rows0) ==>
          Progress(rows0, rows) && (GoWasPending(c, i, before) ==> rows == PlainTable(rows0))
      {
        DealtWithNext(c, i, before, recorded, effects0, effects);
        GoPendingNext(c, i, before);
        if fates(i).lookupFails {
          return false, n;
        }
        if c.names[i] !in recorded {
          ok := ApplyMigration(c, c.names[i], fates(i), rows0);
          if !ok {
            return false, n;
          }
        }
        i := i + 1;
        n := i;
      }
      ok := true;
    }

    /** One migration that is not recorded: a SQL file commits with its record, a Go one is recorded afterwards. */
    method ApplyMigration(c: Catalog, name: string, fate: Fate, ghost rows0: map<string, string>) returns (ok: bool)
      modifies this
      ensures recorded == if ok then old(recorded) + {name} else old(recorded)
      ensures effects == if ok && name !in c.goNames then old(effects) + [name] else old(effects)
      ensures if ok then !MustFail(c, name, fate) else MayFail(c, name, fate)
      ensures StoresAgree(c.dialect, rows0) && Progress(rows0, old(rows)) ==>
        && Progress(rows0, rows)
        && ((ok && name in c.goNames) || old(rows) == PlainTable(rows0) ==> rows == PlainTable(rows0))
    {
      if name in c.goNames {
        ok := ApplyGo(c, fate, rows0);
        if !ok || fate.recordFails {
          return false;
        }
        recorded := recorded + {name};
      } else {
        if fate.sqlFails {
          return false;
        }
        effects := effects + [name];
        recorded := recorded + {name};
      }
      ok := true;
    }

    /** The function of the Go migration: the batched rewrite, whose batches commit one by one. */
    method ApplyGo(c: Catalog, fate: Fate, ghost rows0: map<string, string>) returns (ok: bool)
      modifies this`rows
      ensures ok || BatchMayFail(fate)
      ensures StoresAgree(c.dialect, rows0) && Progress(rows0, old(rows)) ==>
        Progress(rows0, rows) && (ok || old(rows) == PlainTable(rows0) ==> rows == PlainTable(rows0))
    {
      var table := new EventTable(rows);
      var r, batches := table.NormalizeColumn(c.dialect, BATCH_SIZE, fate.batches);
      rows := table.rows;
      ok := r.Ok?;
      if r.Err? {
        InterruptionHasCause(c.dialect, BATCH_SIZE, table.rows, old(rows), batches, fate.batches(|batches|));
        assert fate.batches(|batches|).boundFails || fate.batches(|batches|).fallbackFault.Some?;
      }
      if StoresAgree(c.dialect, rows0) && Progress(rows0, old(rows)) {
        if ok {
          CompleteRunProgress(c.dialect, rows0, old(rows), rows, batches);
        } else {
          PartialRunProgress(c.dialect, rows0, old(rows), rows);
        }
      }
    }
  }

  /** One of the first `n` names is a Go migration that was not recorded. */
  ghost predicate GoWasPending(c: Catalog, n: nat, was: set<string>)
    requires n <= |c.names|
  {
    exists k :: 0 <= k < n && c.names[k] in c.goNames && c.names[k] !in was
  }

  lemma NothingDealtWith(c: Catalog, recorded: set<string>, effects: seq<string>)
    ensures DealtWith(c, 0, recorded, recorded, effects, effects)
  {
  }

  lemma NothingPending(c: Catalog, was: set<string>)
    ensures !GoWasPending(c, 0, was)
  {
  }

  lemma GoPendingNext(c: Catalog, i: nat, was: set<string>)
    requires i < |c.names|
    ensures GoWasPending(c, i + 1, was) <==> GoWasPending(c, i, was) || (c.names[i] in c.goNames && c.names[i] !in was)
  {
  }

  lemma NoProgress(rows: map<string, string>)
    ensures Progress(rows, rows)
  {
  }

  lemma DealtWithNext(c: Catalog, i: nat, was: set<string>, recorded: set<string>,
                      effectsWere: seq<string>, effects: seq<string>)
    requires ValidCatalog(c) && i < |c.names| && DealtWith(c, i, was, recorded, effectsWere, effects)
    ensures var name := c.names[i];
      && (name in recorded <==> name in was)
      && (name in was ==> DealtWith(c, i + 1, was, recorded, effectsWere, effects))
      && (name !in was ==> DealtWith(c, i + 1, was, recorded + {name}, effectsWere,
            if name in c.goNames then effects else effects + [name]))
  {
    FirstGrows(c, i);
    NotAmongFirst(c, i);
  }

  /** The first `n` names were dealt with: recorded, and those not recorded before applied if they are SQL files. */
  ghost predicate DealtWith(c: Catalog, n: nat, was: set<string>, recorded: set<string>,
                            effectsWere: seq<string>, effects: seq<string>) {
    n <= |c.names| && recorded == was + First(c, n) && effects == effectsWere + Pending(c, was, n)
  }

  /** Every row is as it was or rewritten. */
  ghost predicate Progress(rows: map<string, string>, now: map<string, string>) {
    now.Keys == rows.Keys && forall id :: id in rows ==> now[id] == rows[id] || now[id] == PlainTable(rows)[id]
  }

  /** A row on its way is rewritten to what it would have been rewritten to from the start, and stays agreed on. */
  lemma RowProgress(d: Dialect, rows: map<string, string>, now: map<string, string>, id: string)
    requires StoresAgree(d, rows) && Progress(rows, now) && id in rows
    ensures PlainTable(now)[id] == PlainTable(rows)[id] && AgreesAt(d, now[id])
  {
    PlainRewriteIdempotent(rows[id]);
    assert PlainTable(rows)[id] in {rows[id], PlainRewrite(rows[id])};
  }

  /** A batch leaves each of its rows rewritten, and every other as it was. */
  lemma BatchProgress(d: Dialect, rows: map<string, string>, now: map<string, string>, ids: set<string>, fellBack: bool)
    requires StoresAgree(d, rows) && Progress(rows, now) && "" !in ids
    requires fellBack || CastsSucceed(d, now, ids)
    ensures var next := RewriteRows(d, now, ids, fellBack);
      && Progress(rows, next)
      && (forall id :: id in rows ==> next[id] == if id in ids then PlainTable(rows)[id] else now[id])
  {
    forall id | id in rows && id in ids
      ensures RewriteRows(d, now, ids, fellBack)[id] == PlainTable(rows)[id]
    {
      RowProgress(d, rows, now, id);
      GoRewriteIsPlain(d, now[id]);
      if !fellBack {
        SqlRewriteIsPlainIff(d, now[id]);
      }
    }
  }

  lemma CompleteRunProgress(d: Dialect, rows: map<string, string>, now: map<string, string>, next: map<string, string>,
                            batches: seq<Batch>)
    requires StoresAgree(d, rows) && Progress(rows, now) && Normalized(d, BATCH_SIZE, now, next, batches)
    ensures next == PlainTable(rows) && Progress(rows, next)
  {
    hide Normalized, StoresAgree, Progress, PlainTable, AgreesOn;
    StaysAgreed(d, rows, now);
    RunIsPlainRewrite(d, BATCH_SIZE, now, next, batches);
  }

  lemma StaysAgreed(d: Dialect, rows: map<string, string>, now: map<string, string>)
    requires StoresAgree(d, rows) && Progress(rows, now)
    ensures AgreesOn(d, now) && PlainTable(now) == PlainTable(rows) && Progress(rows, PlainTable(rows))
  {
    hide PlainRewrite, AgreesAt, StoresAgree;
    forall id | id in rows
      ensures PlainTable(now)[id] == PlainTable(rows)[id] && AgreesAt(d, now[id])
    {
      RowProgress(d, rows, now, id);
    }
  }

  lemma PartialRunProgress(d: Dialect, rows: map<string, string>, now: map<string, string>, next: map<string, string>)
    requires StoresAgree(d, rows) && Progress(rows, now) && PartlyRewritten(d, now, next)
    ensures Progress(rows, next)
    ensures now == PlainTable(rows) ==> next == PlainTable(rows)
  {
    hide StoresAgree, PartlyDone, PlainRewrite;
    forall id | id in rows
      ensures next[id] == now[id] || next[id] == PlainTable(rows)[id]
    {
      RowProgress(d, rows, now, id);
      if id != "" {
        PartlyDoneThenPlain(d, now[id], next[id]);
      }
    }
  }

  lemma NotAmongFirst(c: Catalog, i: nat)
    requires ValidCatalog(c) && i < |c.names|
    ensures c.names[i] !in First(c, i)
  {
    if c.names[i] in First(c, i) {
      var k :| 0 <= k < i && c.names[k] == c.names[i];
      NamesDistinct(c, k, i);
    }
  }

  // ---------------------------------------------------------------------------------------------------
  // Many runners
  // ---------------------------------------------------------------------------------------------------

  /** Where a runner stands. */
  datatype Pc =
    | Waiting          // for the advisory lock
    | Checking(i: nat) // about to look names[i] up
    | InSql(i: nat)    // in the transaction of a SQL file
    | InGo(i: nat, last: string) // inside a Go migration, the rows up to last normalised
    | Recording(i: nat) // the Go function has returned
    | Succeeded
    | Failed
    | Crashed

  predicate Active(pc: Pc) {
    pc.Checking? || pc.InSql? || pc.InGo? || pc.Recording?
  }

  datatype System = System(db: Db, lock: Option<nat>, runners: map<nat, Pc>)

  /** One atomic step of one runner. A step that is not possible does nothing. */
  datatype Event =
    | Arrive(r: nat) | Acquire(r: nat) | Check(r: nat)
    | Commit(r: nat)                   // the SQL effect and its record, in one transaction
    | GoBatch(r: nat, upper: Option<string>, fellBack: bool) // the next batch of the Go migration
    | GoRows(r: nat, ids: set<string>) // rows a fallback rewrote one by one, with the batch not yet complete
    | Record(r: nat)
    | Error(r: nat)                    // the statement fails: the run returns an error
    | Crash(r: nat)                    // the machine stops; its session and its lock go with it

  function Move(s: System, r: nat, pc: Pc): System {
    s.(runners := s.runners[r := pc], lock := if Active(pc) then s.lock else if s.lock == Some(r) then None else s.lock)
  }

  /** A batch commits when it fell back or none of its casts fails, and its bound lies above the last one. */
  ghost predicate Commits(c: Catalog, rows: map<string, string>, last: string, upper: Option<string>, fellBack: bool) {
    && (fellBack || CastsSucceed(c.dialect, rows, BatchIds(rows.Keys, last, upper)))
    && (upper.Some? ==> Less(last, upper.value))
  }

  ghost function Step(c: Catalog, s: System, e: Event): System {
    if e.Arrive? then
      if e.r in s.runners then s else Move(s, e.r, Waiting)
    else if e.r !in s.runners then s
    else
      var r := e.r;
      var pc := s.runners[r];
      match e
      case Acquire(_) =>
        if pc == Waiting && s.lock == None then s.(lock := Some(r), runners := s.runners[r := Checking(0)]) else s
      case Check(_) =>
        if !pc.Checking? || pc.i > |c.names| then s
        else if pc.i == |c.names| then Move(s, r, Succeeded)
        else if c.names[pc.i] in s.db.recorded then Move(s, r, Checking(pc.i + 1))
        else if c.names[pc.i] in c.goNames then Move(s, r, InGo(pc.i, ""))
        else Move(s, r, InSql(pc.i))
      case Commit(_) =>
        if !pc.InSql? || pc.i >= |c.names| then s
        else if c.names[pc.i] in s.db.recorded then Move(s, r, Failed)
        else
          var name := c.names[pc.i];
          Move(s.(db := s.db.(recorded := s.db.recorded + {name}, effects := s.db.effects + [name])), r, Checking(pc.i + 1))
      case GoBatch(_, upper, fellBack) =>
        if !pc.InGo? || !Commits(c, s.db.rows, pc.last, upper, fellBack) then s
        else
          var rows := RewriteRows(c.dialect, s.db.rows, BatchIds(s.db.rows.Keys, pc.last, upper), fellBack);
          Move(s.(db := s.db.(rows := rows)), r, if upper.None? then Recording(pc.i) else InGo(pc.i, upper.value))
      case GoRows(_, ids) =>
        if !pc.InGo? then s
        else s.(db := s.db.(rows := RewriteRows(c.dialect, s.db.rows, ids * Above(s.db.rows.Keys, pc.last), true)))
      case Record(_) =>
        if !pc.Recording? || pc.i >= |c.names| then s
        else if c.names[pc.i] in s.db.recorded then Move(s, r, Failed)
        else Move(s.(db := s.db.(recorded := s.db.recorded + {c.names[pc.i]})), r, Checking(pc.i + 1))
      case Error(_) => if Active(pc) || pc == Waiting then Move(s, r, Failed) else s
      case Crash(_) => if Active(pc) || pc == Waiting then Move(s, r, Crashed) else s
      case Arrive(_) => s
  }

  function Start(recorded: set<string>, rows: map<string, string>): System {
    System(Db(recorded, [], rows), None, map[])
  }

  /** The system after any interleaving of steps. */
  ghost function Run(c: Catalog, start: System, events: seq<Event>): System {
    if events == [] then start else Step(c, Run(c, start, Front(events)), Last(events))
  }

  /** A runner at work holds the lock, has dealt with every name before the one it is at, and is applying one that is
      not recorded. */
  ghost predicate InPlace(c: Catalog, recorded: set<string>, lock: Option<nat>, r: nat, pc: Pc) {
    && (Active(pc) ==> lock == Some(r) && pc.i <= |c.names| && First(c, pc.i) <= recorded)
    && (Active(pc) && !pc.Checking? ==> pc.i < |c.names| && c.names[pc.i] !in recorded)
    && (pc.InSql? ==> c.names[pc.i] !in c.goNames)
    && (pc.InGo? || pc.Recording? ==> c.names[pc.i] in c.goNames)
    && (pc == Succeeded ==> First(c, |c.names|) <= recorded)
  }

  ghost predicate Locked(c: Catalog, s: System) {
    forall r :: r in s.runners ==> InPlace(c, s.db.recorded, s.lock, r, s.runners[r])
  }

  /** Every SQL effect was committed once, is recorded, and was not recorded at the start. */
  ghost predicate OnceEach(start: set<string>, db: Db) {
    && start <= db.recorded
    && (forall i :: 0 <= i < |db.effects| ==> db.effects[i] in db.recorded && db.effects[i] !in start)
    && (forall i, j :: 0 <= i < j < |db.effects| ==> db.effects[i] != db.effects[j])
  }

  lemma FirstGrows(c: Catalog, n: nat)
    requires n < |c.names|
    ensures First(c, n + 1) == First(c, n) + {c.names[n]}
  {
  }

  /** Mutual exclusion and at-most-once, from any starting point. */
  lemma {:induction false} AtMostOnce(c: Catalog, recorded: set<string>, rows: map<string, string>, events: seq<Event>)
    requires ValidCatalog(c)
    ensures var s := Run(c, Start(recorded, rows), events); Locked(c, s) && OnceEach(recorded, s.db)
    ensures var s := Run(c, Start(recorded, rows), events);
      forall r, q :: r in s.runners && q in s.runners && Active(s.runners[r]) && Active(s.runners[q]) ==> r == q
  {
    if events != [] {
      var s := Run(c, Start(recorded, rows), Front(events));
      AtMostOnce(c, recorded, rows, Front(events));
      StepKeepsLocked(c, s, Last(events));
      StepKeepsOnceEach(c, recorded, s, Last(events));
    }
  }

  /** A step changes only its own runner, and takes the lock only from nobody or from itself. */
  lemma OnlyOneMoves(c: Catalog, s: System, e: Event)
    ensures var t := Step(c, s, e);
      && s.db.recorded <= t.db.recorded
      && (forall q :: q != e.r ==> (q in t.runners <==> q in s.runners))
      && (forall q :: q != e.r && q in s.runners ==> t.runners[q] == s.runners[q])
      && (t.lock == s.lock || s.lock == None || s.lock == Some(e.r))
  {
  }

  lemma OwnStep(c: Catalog, s: System, e: Event)
    requires e.r in s.runners && InPlace(c, s.db.recorded, s.lock, e.r, s.runners[e.r])
    ensures var t := Step(c, s, e); InPlace(c, t.db.recorded, t.lock, e.r, t.runners[e.r])
  {
    if Active(s.runners[e.r]) && s.runners[e.r].i < |c.names| {
      FirstGrows(c, s.runners[e.r].i);
    }
  }

  lemma RecordedByHolder(c: Catalog, s: System, e: Event)
    requires Locked(c, s) && Step(c, s, e).db.recorded != s.db.recorded
    ensures s.lock == Some(e.r)
  {
  }

  lemma StepKeepsLocked(c: Catalog, s: System, e: Event)
    requires Locked(c, s)
    ensures Locked(c, Step(c, s, e)) && s.db.recorded <= Step(c, s, e).db.recorded
  {
    var t := Step(c, s, e);
    OnlyOneMoves(c, s, e);
    if t.db.recorded != s.db.recorded {
      RecordedByHolder(c, s, e);
    }
    forall r | r in t.runners
      ensures InPlace(c, t.db.recorded, t.lock, r, t.runners[r])
    {
      if r == e.r && r in s.runners {
        OwnStep(c, s, e);
      }
    }
  }

  /** The lock is never left behind: whoever holds it is at work, so an error, a crash or the end of a run frees it. */
  lemma {:induction false} LockHolderIsAtWork(c: Catalog, recorded: set<string>, rows: map<string, string>,
                                              events: seq<Event>)
    requires ValidCatalog(c)
    ensures var s := Run(c, Start(recorded, rows), events);
      s.lock.Some? ==> s.lock.value in s.runners && Active(s.runners[s.lock.value])
  {
    if events != [] {
      var s := Run(c, Start(recorded, rows), Front(events));
      LockHolderIsAtWork(c, recorded, rows, Front(events));
      AtMostOnce(c, recorded, rows, Front(events));
      HolderAfterStep(c, s, Last(events));
    }
  }

  lemma HolderAfterStep(c: Catalog, s: System, e: Event)
    requires Locked(c, s) && (s.lock.Some? ==> s.lock.value in s.runners && Active(s.runners[s.lock.value]))
    ensures var t := Step(c, s, e); t.lock.Some? ==> t.lock.value in t.runners && Active(t.runners[t.lock.value])
  {
  }

  lemma StepKeepsOnceEach(c: Catalog, start: set<string>, s: System, e: Event)
    requires Locked(c, s) && OnceEach(start, s.db)
    ensures OnceEach(start, Step(c, s, e).db)
  {
  }

  /** From an empty database the recorded names are always an initial stretch of the catalogue, and the effects
      committed are exactly its SQL files, in name order. */
  ghost predicate InOrder(c: Catalog, db: Db, n: nat) {
    n <= |c.names| && db.recorded == First(c, n) && db.effects == SqlFiles(c, n)
  }

  lemma {:induction false} EffectsInNameOrder(c: Catalog, rows: map<string, string>, events: seq<Event>) returns (n: nat)
    requires ValidCatalog(c)
    ensures InOrder(c, Run(c, Start({}, rows), events).db, n)
    ensures var effects := Run(c, Start({}, rows), events).db.effects;
      forall i, j :: 0 <= i < j < |effects| ==> Less(effects[i], effects[j])
  {
    if events == [] {
      n := 0;
    } else {
      var s := Run(c, Start({}, rows), Front(events));
      n := EffectsInNameOrder(c, rows, Front(events));
      AtMostOnce(c, {}, rows, Front(events));
      n := StepKeepsOrder(c, s, Last(events), n);
    }
    SqlFilesIncrease(c, n);
  }

  lemma FirstsNest(c: Catalog, i: nat, n: nat)
    requires ValidCatalog(c) && i <= |c.names| && n <= |c.names| && First(c, i) <= First(c, n)
    ensures i <= n
  {
    if n < i {
      assert c.names[n] in First(c, i);
      NotAmongFirst(c, n);
    }
  }

  lemma StepKeepsOrder(c: Catalog, s: System, e: Event, n: nat) returns (m: nat)
    requires ValidCatalog(c) && Locked(c, s) && InOrder(c, s.db, n)
    ensures InOrder(c, Step(c, s, e).db, m)
  {
    m := n;
    if e.r in s.runners && (s.runners[e.r].InSql? || s.runners[e.r].Recording?) {
      var i := s.runners[e.r].i;
      FirstsNest(c, i, n);
      FirstGrows(c, n);
      if e.Commit? || e.Record? {
        m := if Step(c, s, e).db.recorded == s.db.recorded then n else n + 1;
      }
    }
  }

  lemma {:induction false} SqlFileFrom(c: Catalog, n: nat, i: nat) returns (k: nat)
    requires n <= |c.names| && i < |SqlFiles(c, n)|
    ensures k < n && SqlFiles(c, n)[i] == c.names[k]
  {
    if i < |SqlFiles(c, n - 1)| {
      k := SqlFileFrom(c, n - 1, i);
    } else {
      k := n - 1;
    }
  }

  lemma {:induction false} SqlFilesIncrease(c: Catalog, n: nat)
    requires ValidCatalog(c) && n <= |c.names|
    ensures forall i, j :: 0 <= i < j < |SqlFiles(c, n)| ==> Less(SqlFiles(c, n)[i], SqlFiles(c, n)[j])
  {
    if n > 0 {
      SqlFilesIncrease(c, n - 1);
      var fewer := SqlFiles(c, n - 1);
      forall i, j | 0 <= i < j < |SqlFiles(c, n)|
        ensures Less(SqlFiles(c, n)[i], SqlFiles(c, n)[j])
      {
        if j < |fewer| {
          assert Less(fewer[i], fewer[j]);
        } else {
          var k := SqlFileFrom(c, n - 1, i);
        }
      }
    }
  }

  /** A run that returned success left every name recorded, for good. */
  lemma SuccessRecordsAll(c: Catalog, recorded: set<string>, rows: map<string, string>, events: seq<Event>, r: nat)
    requires ValidCatalog(c)
    requires var s := Run(c, Start(recorded, rows), events); r in s.runners && s.runners[r] == Succeeded
    ensures forall name :: name in c.names ==> name in Run(c, Start(recorded, rows), events).db.recorded
  {
    AtMostOnce(c, recorded, rows, events);
    forall name | name in c.names
      ensures name in First(c, |c.names|)
    {
      var i :| 0 <= i < |c.names| && c.names[i] == name;
    }
  }

  /** Every row is as it was or rewritten; a runner inside a Go migration has the rows up to its last bound rewritten; and
      all of them are once its function has returned or a Go migration not recorded at the start is recorded. */
  ghost predicate RowsProgress(c: Catalog, start: set<string>, rows: map<string, string>, s: System) {
    && Progress(rows, s.db.rows)
    && ((exists name :: name in c.goNames && name in s.db.recorded && name !in start) ==> s.db.rows == PlainTable(rows))
    && (forall r :: r in s.runners ==> Rewritten(rows, s.db.rows, s.runners[r]))
  }

  ghost predicate Rewritten(rows: map<string, string>, now: map<string, string>, pc: Pc) {
    && (pc.Recording? ==> now == PlainTable(rows))
    && (pc.InGo? ==> forall id :: id in rows && id in now && !Less(pc.last, id) ==> now[id] == PlainTable(rows)[id])
  }

  /** A Go migration cut short by a crash or an error, however often, and run again by whichever machine comes next,
      reaches the table an uninterrupted one reaches. */
  lemma {:induction false} GoMigrationSurvivesCrashes(c: Catalog, recorded: set<string>, rows: map<string, string>,
                                                      events: seq<Event>)
    requires ValidCatalog(c) && StoresAgree(c.dialect, rows)
    ensures RowsProgress(c, recorded, rows, Run(c, Start(recorded, rows), events))
  {
    if events != [] {
      var s := Run(c, Start(recorded, rows), Front(events));
      GoMigrationSurvivesCrashes(c, recorded, rows, Front(events));
      AtMostOnce(c, recorded, rows, Front(events));
      StepKeepsRows(c, recorded, rows, s, Last(events));
    }
  }

  lemma StepKeepsRows(c: Catalog, start: set<string>, rows: map<string, string>, s: System, e: Event)
    requires Locked(c, s) && RowsProgress(c, start, rows, s) && StoresAgree(c.dialect, rows)
    ensures RowsProgress(c, start, rows, Step(c, s, e))
  {
    var t := Step(c, s, e);
    RowsAfterStep(c, rows, s, e);
    OnlyOneMoves(c, s, e);
    NewlyRecorded(c, s, e);
    AllRewrittenStays(rows, s.db.rows, t.db.rows);
    forall r | r in t.runners
      ensures Rewritten(rows, t.db.rows, t.runners[r])
    {
      if r == e.r {
        OwnRowsAfterStep(c, rows, s, e);
      } else {
        RewrittenStays(rows, s.db.rows, t.db.rows, s.runners[r]);
      }
    }
  }

  /** Rows only ever move on to their rewritten values. */
  ghost predicate MovesOn(rows: map<string, string>, now: map<string, string>, next: map<string, string>) {
    && Progress(rows, now) && Progress(rows, next)
    && forall id :: id in rows ==> next[id] == now[id] || next[id] == PlainTable(rows)[id]
  }

  lemma AllRewrittenStays(rows: map<string, string>, now: map<string, string>, next: map<string, string>)
    requires MovesOn(rows, now, next)
    ensures now == PlainTable(rows) ==> next == PlainTable(rows)
  {
  }

  lemma RewrittenStays(rows: map<string, string>, now: map<string, string>, next: map<string, string>, pc: Pc)
    requires MovesOn(rows, now, next) && Rewritten(rows, now, pc)
    ensures Rewritten(rows, next, pc)
  {
    AllRewrittenStays(rows, now, next);
  }

  lemma RowsAfterStep(c: Catalog, rows: map<string, string>, s: System, e: Event)
    requires StoresAgree(c.dialect, rows) && Progress(rows, s.db.rows)
    ensures MovesOn(rows, s.db.rows, Step(c, s, e).db.rows)
  {
    hide StoresAgree, RewriteRows, CastsSucceed, PlainRewrite;
    var now := s.db.rows;
    if (e.GoBatch? || e.GoRows?) && e.r in s.runners && s.runners[e.r].InGo? {
      var last := s.runners[e.r].last;
      if e.GoRows? {
        BatchProgress(c.dialect, rows, now, e.ids * Above(now.Keys, last), true);
      } else if Commits(c, now, last, e.upper, e.fellBack) {
        BatchProgress(c.dialect, rows, now, BatchIds(now.Keys, last, e.upper), e.fellBack);
      }
    } else {
      assert Step(c, s, e).db.rows == now;
    }
  }

  /** The keyset loop: after a batch the rows up to its bound are rewritten, after the last one all of them. */
  lemma OwnRowsAfterStep(c: Catalog, rows: map<string, string>, s: System, e: Event)
    requires StoresAgree(c.dialect, rows) && Progress(rows, s.db.rows)
    requires e.r in s.runners ==> Rewritten(rows, s.db.rows, s.runners[e.r])
    ensures var t := Step(c, s, e); e.r in t.runners ==> Rewritten(rows, t.db.rows, t.runners[e.r])
  {
    if e.GoBatch? && e.r in s.runners && s.runners[e.r].InGo? {
      OwnBatch(c, rows, s, e);
    } else {
      hide MovesOn, StoresAgree, Step;
      OtherPcs(c, s, e);
      RowsAfterStep(c, rows, s, e);
      MovedOn(rows, s.db.rows, Step(c, s, e).db.rows);
      NothingBelowStart(rows, Step(c, s, e).db.rows);
      if e.r in s.runners {
        RewrittenStays(rows, s.db.rows, Step(c, s, e).db.rows, s.runners[e.r]);
      }
    }
  }

  /** Apart from a batch, a step leaves its runner where it is, takes it into a Go migration at its start, or takes it
      where nothing is claimed of the rows. */
  lemma OtherPcs(c: Catalog, s: System, e: Event)
    requires !(e.GoBatch? && e.r in s.runners && s.runners[e.r].InGo?)
    ensures var t := Step(c, s, e); e.r in t.runners ==>
      (e.r in s.runners && t.runners[e.r] == s.runners[e.r]) ||
      (!t.runners[e.r].Recording? && (t.runners[e.r].InGo? ==> t.runners[e.r].last == ""))
  {
    hide RewriteRows, CastsSucceed, BatchIds;
  }

  lemma OwnBatch(c: Catalog, rows: map<string, string>, s: System, e: Event)
    requires StoresAgree(c.dialect, rows) && Progress(rows, s.db.rows)
    requires e.GoBatch? && e.r in s.runners && s.runners[e.r].InGo? && Rewritten(rows, s.db.rows, s.runners[e.r])
    ensures var t := Step(c, s, e); e.r in t.runners && Rewritten(rows, t.db.rows, t.runners[e.r])
  {
    hide StoresAgree, RewriteRows, CastsSucceed, PlainTable, BatchIds;
    var pc := s.runners[e.r];
    if Commits(c, s.db.rows, pc.last, e.upper, e.fellBack) {
      BatchCoversBound(c.dialect, rows, s.db.rows, pc.last, e.upper, e.fellBack);
    }
  }

  lemma MovedOn(rows: map<string, string>, now: map<string, string>, next: map<string, string>)
    requires MovesOn(rows, now, next)
    ensures Progress(rows, next)
  {
  }

  lemma NothingBelowStart(rows: map<string, string>, now: map<string, string>)
    requires Progress(rows, now)
    ensures forall id :: id in rows && !Less("", id) ==> now[id] == PlainTable(rows)[id]
  {
  }

  lemma BatchCoversBound(d: Dialect, rows: map<string, string>, now: map<string, string>, last: string,
                         upper: Option<string>, fellBack: bool)
    requires StoresAgree(d, rows) && Progress(rows, now)
    requires forall id :: id in rows && !Less(last, id) ==> now[id] == PlainTable(rows)[id]
    requires fellBack || CastsSucceed(d, now, BatchIds(now.Keys, last, upper))
    ensures var next := RewriteRows(d, now, BatchIds(now.Keys, last, upper), fellBack);
      && next.Keys == rows.Keys
      && (upper.None? ==> next == PlainTable(rows))
      && (upper.Some? ==> forall id :: id in rows && !Less(upper.value, id) ==> next[id] == PlainTable(rows)[id])
  {
    hide StoresAgree, RewriteRows, CastsSucceed, PlainRewrite;
    BatchProgress(d, rows, now, BatchIds(now.Keys, last, upper), fellBack);
  }

  /** A Go migration gets recorded only by a runner whose function has returned. */
  lemma NewlyRecorded(c: Catalog, s: System, e: Event)
    requires Locked(c, s)
    ensures forall name :: name in Step(c, s, e).db.recorded && name !in s.db.recorded && name in c.goNames ==>
      e.r in s.runners && s.runners[e.r].Recording?
  {
  }
}
