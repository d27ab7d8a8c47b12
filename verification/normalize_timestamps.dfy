/** The batched rewrite of stored timestamps (internal/db/normalize_timestamps.go): id-keyset batches, each one
  UPDATE in SQL, with a row-by-row Go rewrite for a batch whose UPDATE fails. */
module NormalizeTimestamps {
  import opened Common
  import opened Text
  import opened Timestamps
  import StoredTimestamps

  /** What the rewrite needs of a database: whether LIKE folds ASCII case, the ParseableTimestamp guard, and the
      CanonicalTimestamp expression, which has no value when its cast raises an error. */
  datatype Dialect = Dialect(foldCase: bool, parseable: string -> bool, canonical: string -> Option<string>)

  /** What the surroundings do to the statements of one batch: whether finding its upper bound fails, whether the
      UPDATE fails for a reason of its own, and after how many statements the fallback loses the database. */
  datatype Fate = Fate(boundFails: bool, updateFails: bool, fallbackFault: Option<nat>)

  /** normalizeBatchSize. */
  const BATCH_SIZE := 5000

  datatype Failure = BoundQueryFailed | FallbackFailed

  datatype Report = Report(batches: nat, rewritten: nat, residual: nat)

  /** The row-by-row rewrite of one stored value. */
  function PlainRewrite(s: string): string {
    match Parse(s)
    case None => s
    case Some(t) => Format(t)
  }

  function GoRewrite(d: Dialect, s: string): string {
    if LikeCanonical(s, d.foldCase) then s else PlainRewrite(s)
  }

  /** The rows the UPDATE of a batch selects. */
  predicate SqlSelects(d: Dialect, s: string) {
    !LikeCanonical(s, d.foldCase) && d.parseable(s)
  }

  function SqlRewrite(d: Dialect, s: string): string {
    if SqlSelects(d, s) && d.canonical(s).Some? then d.canonical(s).value else s
  }

  function BatchRewrite(d: Dialect, fellBack: bool, s: string): string {
    if fellBack then GoRewrite(d, s) else SqlRewrite(d, s)
  }

  predicate GoSelects(d: Dialect, s: string) {
    !LikeCanonical(s, d.foldCase) && Parse(s).Some?
  }

  /** The rows counted as rewritten. */
  predicate Touched(d: Dialect, fellBack: bool, s: string) {
    if fellBack then GoSelects(d, s) else SqlSelects(d, s)
  }

  /** id > lower, and id <= upper where there is an upper bound. */
  predicate Between(lower: string, upper: Option<string>, id: string) {
    Less(lower, id) && (upper.Some? ==> !Less(upper.value, id))
  }

  /** The rows above a bound, and the rows of a batch. */
  function Above(ids: set<string>, lower: string): set<string> {
    set id | id in ids && Less(lower, id)
  }

  function BatchIds(ids: set<string>, lower: string, upper: Option<string>): set<string> {
    set id | id in ids && Between(lower, upper, id)
  }

  /** One batch of a run: its bounds, its rows, and whether it fell back. */
  datatype Batch = Batch(lower: string, upper: Option<string>, ids: set<string>, fellBack: bool)

  ghost function AllIds(batches: seq<Batch>): set<string> {
    if batches == [] then {} else AllIds(Front(batches)) + Last(batches).ids
  }

  /** No row of `ids` makes the SQL cast of a batch UPDATE fail. */
  ghost predicate CastsSucceed(d: Dialect, rows: map<string, string>, ids: set<string>) {
    forall id :: id in ids && id in rows ==> !CastFails(d, rows[id])
  }

  predicate CastFails(d: Dialect, s: string) {
    SqlSelects(d, s) && d.canonical(s).None?
  }

  /** The rows with the values of `ids` rewritten. */
  ghost function RewriteRows(d: Dialect, rows: map<string, string>, ids: set<string>, fellBack: bool): (r: map<string, string>)
    ensures r.Keys == rows.Keys
  {
    map id | id in rows :: if id in ids then BatchRewrite(d, fellBack, rows[id]) else rows[id]
  }

  ghost function TouchedRows(d: Dialect, rows: map<string, string>, ids: set<string>, fellBack: bool): set<string> {
    set id | id in ids && id in rows && Touched(d, fellBack, rows[id])
  }

  /** The table after some batches. */
  ghost function AfterBatches(d: Dialect, before: map<string, string>, batches: seq<Batch>): (r: map<string, string>)
    ensures r.Keys == before.Keys
  {
    if batches == [] then before
    else RewriteRows(d, AfterBatches(d, before, Front(batches)), Last(batches).ids, Last(batches).fellBack)
  }

  /** The rows the batches rewrote. */
  ghost function TouchedIds(d: Dialect, before: map<string, string>, batches: seq<Batch>): set<string> {
    if batches == [] then {}
    else TouchedIds(d, before, Front(batches)) + TouchedRows(d, before, Last(batches).ids, Last(batches).fellBack)
  }

  /** The batches are disjoint sets of rows, and one that did not fall back held no row whose cast fails. */
  ghost predicate Sound(d: Dialect, before: map<string, string>, batches: seq<Batch>) {
    batches == [] ||
    (&& Sound(d, before, Front(batches))
     && Last(batches).ids <= before.Keys
     && Last(batches).ids !! AllIds(Front(batches))
     && (Last(batches).fellBack || CastsSucceed(d, before, Last(batches).ids)))
  }

  /** A complete run: every row with a non-empty id was visited, in exactly one batch, and rewritten the way that
      batch was; every batch but the last holds exactly `batchSize` rows and the last holds fewer. */
  ghost predicate Normalized(d: Dialect, batchSize: nat, before: map<string, string>, after: map<string, string>,
                             batches: seq<Batch>) {
    && Sound(d, before, batches)
    && after == AfterBatches(d, before, batches)
    && AllIds(batches) == before.Keys - {""}
    && batches != []
    && (forall k :: 0 <= k < |batches| - 1 ==> |batches[k].ids| == batchSize)
    && |Last(batches).ids| < batchSize
  }

  /** The value of a row an interrupted run may have left: the old one, or one of the two rewrites of it. */
  predicate PartlyDone(d: Dialect, before: string, after: string) {
    after == before || after == GoRewrite(d, before) || (after == SqlRewrite(d, before) && !CastFails(d, before))
  }

  ghost predicate PartlyRewritten(d: Dialect, before: map<string, string>, after: map<string, string>) {
    && after.Keys == before.Keys
    && (forall id :: id in before ==> PartlyDone(d, before[id], after[id]))
    && ("" in before ==> after[""] == before[""])
  }

  /** The fallback stopped part of the way, with `n` rows of the batch rewritten. */
  ghost predicate StoppedAfter(d: Dialect, before: map<string, string>, ids: set<string>, rows: map<string, string>,
                               n: nat) {
    exists part :: part <= ids && rows == RewriteRows(d, before, part, true) && |TouchedRows(d, before, part, true)| == n
  }

  /** Whether the fallback over some rows loses the database: its statements are the SELECT and one UPDATE for each row
      it rewrites. */
  ghost predicate LosesDatabase(d: Dialect, rows: map<string, string>, ids: set<string>, fault: Option<nat>) {
    fault.Some? && fault.value <= |TouchedRows(d, rows, ids, true)|
  }

  /** Every batch found its bound, and fell back exactly if its UPDATE failed, by itself or in the cast of a row. */
  ghost predicate FellBackAsFated(d: Dialect, before: map<string, string>, batches: seq<Batch>, fates: nat -> Fate) {
    forall k :: 0 <= k < |batches| ==>
      && !fates(k).boundFails
      && (batches[k].fellBack <==> fates(k).updateFails || !CastsSucceed(d, before, batches[k].ids))
  }

  class EventTable {
    /** created_at by id. */
    var rows: map<string, string>

    constructor (rows: map<string, string>)
      ensures this.rows == rows
    {
      this.rows := rows;
    }

    /** SELECT id WHERE id > lower ORDER BY id LIMIT 1 OFFSET offset. */
    method NthAbove(lower: string, offset: nat) returns (upper: Option<string>)
      ensures upper.None? ==> |Above(rows.Keys, lower)| <= offset
      ensures upper.Some? ==> upper.value in rows && Less(lower, upper.value)
      ensures upper.Some? ==> |BatchIds(rows.Keys, lower, upper)| == offset + 1
    {
      var above := Above(rows.Keys, lower);
      var rest := above;
      var skipped := 0;
      while rest != {} && skipped < offset
        invariant rest <= above && |above - rest| == skipped <= offset
        invariant forall x, y :: x in above - rest && y in rest ==> Less(x, y)
        decreases |rest|
      {
        var m := Least(rest);
        assert above - (rest - {m}) == above - rest + {m};
        rest := rest - {m};
        skipped := skipped + 1;
      }
      if rest == {} {
        assert above - rest == above;
        upper := None;
      } else {
        var u := Least(rest);
        upper := Some(u);
        UpToNth(rows.Keys, lower, rest, u);
      }
    }

    /** normalizeBatch. */
    method NormalizeBatch(d: Dialect, lower: string, upper: Option<string>, fate: Fate)
      returns (r: Result<nat, Failure>, ghost batch: Batch)
      modifies this
      ensures batch.lower == lower && batch.upper == upper
      ensures batch.ids == BatchIds(old(rows.Keys), lower, upper)
      ensures r.Ok? ==>
        && rows == RewriteRows(d, old(rows), batch.ids, batch.fellBack)
        && (batch.fellBack || CastsSucceed(d, old(rows), batch.ids))
        && r.value == |TouchedRows(d, old(rows), batch.ids, batch.fellBack)|
      ensures batch.fellBack <==> fate.updateFails || !CastsSucceed(d, old(rows), batch.ids)
      ensures r.Err? <==> batch.fellBack && LosesDatabase(d, old(rows), batch.ids, fate.fallbackFault)
      ensures r.Err? ==> StoppedAfter(d, old(rows), batch.ids, rows,
        if fate.fallbackFault.value == 0 then 0 else fate.fallbackFault.value - 1)
    {
      hide Parse, LikeCanonical, Between, StoppedAfter, LosesDatabase;
      var ids := BatchIds(rows.Keys, lower, upper);
      var selected := set id | id in ids && SqlSelects(d, rows[id]);
      var castFails := exists id :: id in ids && CastFails(d, rows[id]);
      batch := Batch(lower, upper, ids, fate.updateFails || castFails);
      if fate.updateFails || castFails {
        r := NormalizeBatchFallback(d, lower, upper, fate.fallbackFault);
      } else {
        rows := map id | id in rows :: if id in selected then d.canonical(rows[id]).value else rows[id];
        r := Ok(|selected|);
        assert selected == TouchedRows(d, old(rows), ids, false);
      }
    }

    /** SELECT the rows of a batch that are not of the canonical shape. */
    method SelectNonCanonical(d: Dialect, lower: string, upper: Option<string>) returns (ids: set<string>)
      ensures ids == NonCanonical(d, rows, BatchIds(rows.Keys, lower, upper))
    {
      ids := set id | id in rows && Between(lower, upper, id) && !LikeCanonical(rows[id], d.foldCase);
    }

    /** normalizeBatchFallback. `fault` counts the statements that succeed before the database is lost. */
    method NormalizeBatchFallback(d: Dialect, lower: string, upper: Option<string>, fault: Option<nat>)
      returns (r: Result<nat, Failure>)
      modifies this
      ensures var ids := BatchIds(old(rows.Keys), lower, upper);
        && (r.Ok? ==> rows == RewriteRows(d, old(rows), ids, true) && r.value == |TouchedRows(d, old(rows), ids, true)|)
        && (r.Err? <==> LosesDatabase(d, old(rows), ids, fault))
        && (r.Err? ==> StoppedAfter(d, old(rows), ids, rows, if fault.value == 0 then 0 else fault.value - 1))
    {
      hide *;
      ghost var before := rows;
      ghost var ids := BatchIds(rows.Keys, lower, upper);
      TurnsBegin(d, before, ids, fault);
      if fault == Some(0) {
        return Err(FallbackFailed);
      }
      var candidates := SelectNonCanonical(d, lower, upper);
      var statements := 1;
      var rewritten, skipped := 0, 0;
      while candidates != {}
        invariant StillToDo(d, before, ids, candidates, rows, rewritten)
        invariant statements == rewritten + 1 && (fault.Some? ==> fault.value >= statements)
        decreases |candidates|
      {
        var id :| id in candidates;
        OneTurn(d, before, ids, candidates, rows, rewritten, id, fault);
        var parsed := Parse(rows[id]);
        if parsed.None? {
          skipped := skipped + 1;
        } else {
          if fault == Some(statements) {
            return Err(FallbackFailed);
          }
          statements := statements + 1;
          rows := rows[id := Format(parsed.value)];
          rewritten := rewritten + 1;
        }
        candidates := candidates - {id};
      }
      TurnsEnd(d, before, ids, rows, rewritten, fault);
      r := Ok(rewritten);
    }

    /** normalizeCreatedAtColumn. */
    method NormalizeColumn(d: Dialect, batchSize: nat, fates: nat -> Fate)
      returns (r: Result<Report, Failure>, ghost batches: seq<Batch>)
      requires batchSize >= 1
      modifies this
      ensures r.Ok? ==>
        && Normalized(d, batchSize, old(rows), rows, batches)
        && r.value.batches == |batches|
        && r.value.rewritten == |TouchedIds(d, old(rows), batches)|
        && r.value.residual == |set id | id in rows && !LikeCanonical(rows[id], d.foldCase)|
      ensures FellBackAsFated(d, old(rows), batches, fates)
      ensures r.Err? ==> PartlyRewritten(d, old(rows), rows)
      ensures r.Err? ==> InterruptedIn(d, batchSize, old(rows), rows, batches, fates(|batches|))
    {
      hide StoppedAfter, LosesDatabase, FellBackAsFated, CastsSucceed, InterruptedIn;
      var lastID := "";
      var count, rewritten := 0, 0;
      batches := [];
      ghost var before := rows;
      NothingDone(d, batchSize, before);
      NothingFated(d, before, fates);
      while true
        invariant FellBackAsFated(d, before, batches, fates)
        invariant Running(d, batchSize, before, rows, lastID, batches)
        invariant |batches| == count
        invariant rewritten == |TouchedIds(d, before, batches)|
        decreases before.Keys - Through(before.Keys, lastID)
      {
        var fate := fates(count);
        if fate.boundFails {
          RunIsPartial(d, before, batches);
          BoundFailed(d, batchSize, before, rows, lastID, batches, fate);
          return Err(BoundQueryFailed), batches;
        }
        var upper := NthAbove(lastID, batchSize - 1);
        ghost var start := rows;
        var n, batch := NormalizeBatch(d, lastID, upper, fate);
        BatchBounds(before.Keys, lastID, upper);
        if n.Err? {
          InterruptedBatch(d, before, batches, batch, rows, fate);
          FallbackInterrupted(d, batchSize, before, start, rows, lastID, batches, batch, fate);
          return Err(n.error), batches;
        }
        Advance(d, batchSize, before, start, rows, batches, batch);
        FatedOneMore(d, before, batches, batch, lastID, fates);
        batches := batches + [batch];
        rewritten := rewritten + n.value;
        count := count + 1;
        if upper.None? {
          break;
        }
        lastID := upper.value;
      }
      var residual := |set id | id in rows && !LikeCanonical(rows[id], d.foldCase)|;
      r := Ok(Report(count, rewritten, residual));
    }
  }

  // ---------------------------------------------------------------------------------------------------
  // Bookkeeping of the run
  // ---------------------------------------------------------------------------------------------------

  lemma UpToNth(ids: set<string>, lower: string, rest: set<string>, u: string)
    requires rest <= Above(ids, lower) && IsLeast(u, rest)
    requires forall x, y :: x in Above(ids, lower) - rest && y in rest ==> Less(x, y)
    ensures |BatchIds(ids, lower, Some(u))| == |Above(ids, lower) - rest| + 1
  {
    var skipped := Above(ids, lower) - rest;
    forall id | id in Above(ids, lower)
      ensures !Less(u, id) <==> id in skipped + {u}
    {
      if id in skipped {
        LessAsymmetric(id, u);
      } else if id == u {
        LessIrreflexive(u);
      }
    }
    assert BatchIds(ids, lower, Some(u)) == skipped + {u};
  }

  /** The non-empty ids up to `last`. */
  ghost function Through(ids: set<string>, last: string): set<string> {
    set id | id in ids && id != "" && !Less(last, id)
  }

  /** How the keyset bounds split the ids. */
  lemma BatchBounds(ids: set<string>, lower: string, upper: Option<string>)
    requires upper.Some? ==> upper.value in ids && Less(lower, upper.value)
    ensures var batch := BatchIds(ids, lower, upper);
      && batch !! Through(ids, lower)
      && (upper.None? ==> batch == Above(ids, lower) && Through(ids, lower) + batch == ids - {""})
      && (upper.Some? ==> Through(ids, lower) + batch == Through(ids, upper.value))
      && (upper.Some? ==> upper.value in Through(ids, upper.value) - Through(ids, lower))
  {
    if upper.Some? {
      LessIrreflexive(upper.value);
      forall id | id in ids && !Less(lower, id)
        ensures !Less(upper.value, id)
      {
        if Less(upper.value, id) {
          LessTransitive(lower, upper.value, id);
        }
      }
    }
  }

  ghost function NonCanonical(d: Dialect, rows: map<string, string>, ids: set<string>): set<string> {
    set id | id in rows && id in ids && !LikeCanonical(rows[id], d.foldCase)
  }

  lemma MoveOne(ids: set<string>, candidates: set<string>, id: string)
    requires id in candidates && id in ids
    ensures ids - (candidates - {id}) == ids - candidates + {id}
    ensures |candidates - {id}| < |candidates|
  {
    assert candidates == candidates - {id} + {id};
  }

  /** A fallback that has dealt with `done`. */
  ghost predicate FallingBack(d: Dialect, before: map<string, string>, done: set<string>, rows: map<string, string>,
                              rewritten: nat) {
    rows == RewriteRows(d, before, done, true) && rewritten == |TouchedRows(d, before, done, true)|
  }

  lemma FallbackStarts(d: Dialect, before: map<string, string>, done: set<string>)
    requires forall id :: id in done && id in before ==> LikeCanonical(before[id], d.foldCase)
    ensures FallingBack(d, before, done, before, 0)
  {
    assert TouchedRows(d, before, done, true) == {};
    assert RewriteRows(d, before, done, true) == before;
  }

  lemma FallbackStops(d: Dialect, before: map<string, string>, ids: set<string>, done: set<string>,
                      rows: map<string, string>, rewritten: nat, fault: Option<nat>)
    requires FallingBack(d, before, done, rows, rewritten) && done <= ids
    ensures StoppedAfter(d, before, ids, rows, rewritten)
    ensures fault.Some? && fault.value <= rewritten ==> LosesDatabase(d, before, ids, fault)
  {
    SubsetIsSmaller(TouchedRows(d, before, done, true), TouchedRows(d, before, ids, true));
  }

  /** Of the rows of a batch that are not canonical some are still to be dealt with. */
  ghost predicate StillToDo(d: Dialect, before: map<string, string>, ids: set<string>, candidates: set<string>,
                            rows: map<string, string>, rewritten: nat) {
    candidates <= NonCanonical(d, before, ids) && FallingBack(d, before, ids - candidates, rows, rewritten)
  }

  lemma TurnsBegin(d: Dialect, before: map<string, string>, ids: set<string>, fault: Option<nat>)
    ensures StillToDo(d, before, ids, NonCanonical(d, before, ids), before, 0)
    ensures fault == Some(0) ==> LosesDatabase(d, before, ids, fault) && StoppedAfter(d, before, ids, before, 0)
  {
    FallbackStarts(d, before, ids - NonCanonical(d, before, ids));
    FallbackStarts(d, before, {});
    FallbackStops(d, before, ids, {}, before, 0, fault);
  }

  lemma OneTurn(d: Dialect, before: map<string, string>, ids: set<string>, candidates: set<string>,
                rows: map<string, string>, rewritten: nat, id: string, fault: Option<nat>)
    requires StillToDo(d, before, ids, candidates, rows, rewritten) && id in candidates
    ensures id in rows && |candidates - {id}| < |candidates|
    ensures match Parse(rows[id])
      case None => StillToDo(d, before, ids, candidates - {id}, rows, rewritten)
      case Some(t) =>
        && StillToDo(d, before, ids, candidates - {id}, rows[id := Format(t)], rewritten + 1)
        && (fault == Some(rewritten + 1) ==>
             LosesDatabase(d, before, ids, fault) && StoppedAfter(d, before, ids, rows, rewritten))
  {
    hide FallingBack, StoppedAfter, LosesDatabase, Parse, Format, LikeCanonical;
    var done := ids - candidates;
    OneMoreRow(d, before, done, rows, rewritten, id);
    MoveOne(ids, candidates, id);
    if Parse(rows[id]).Some? {
      FallbackStops(d, before, ids, done, rows, rewritten, None);
      FallbackStops(d, before, ids, done + {id}, rows[id := Format(Parse(rows[id]).value)], rewritten + 1, fault);
    }
  }

  lemma TurnsEnd(d: Dialect, before: map<string, string>, ids: set<string>, rows: map<string, string>,
                 rewritten: nat, fault: Option<nat>)
    requires StillToDo(d, before, ids, {}, rows, rewritten) && (fault.Some? ==> fault.value > rewritten)
    ensures rows == RewriteRows(d, before, ids, true) && rewritten == |TouchedRows(d, before, ids, true)|
    ensures !LosesDatabase(d, before, ids, fault)
  {
    assert ids - {} == ids;
  }

  lemma OneMoreRow(d: Dialect, before: map<string, string>, done: set<string>, rows: map<string, string>,
                   rewritten: nat, id: string)
    requires id in before && id !in done && !LikeCanonical(before[id], d.foldCase)
    requires FallingBack(d, before, done, rows, rewritten)
    ensures id in rows && rows[id] == before[id]
    ensures Parse(before[id]).Some? ==>
      FallingBack(d, before, done + {id}, rows[id := Format(Parse(before[id]).value)], rewritten + 1)
    ensures Parse(before[id]).None? ==> FallingBack(d, before, done + {id}, rows, rewritten)
  {
    hide Parse, Format, LikeCanonical;
    RewriteOneMore(d, before, done, id);
    TouchOneMore(d, before, done, id);
    if Parse(before[id]).None? {
      assert GoRewrite(d, before[id]) == rows[id];
      assert rows[id := rows[id]] == rows;
    }
  }

  lemma RewriteOneMore(d: Dialect, before: map<string, string>, done: set<string>, id: string)
    requires id in before && id !in done
    ensures RewriteRows(d, before, done + {id}, true) == RewriteRows(d, before, done, true)[id := GoRewrite(d, before[id])]
  {
  }

  lemma TouchOneMore(d: Dialect, before: map<string, string>, done: set<string>, id: string)
    requires id in before && id !in done
    ensures |TouchedRows(d, before, done + {id}, true)| ==
      |TouchedRows(d, before, done, true)| + if GoSelects(d, before[id]) then 1 else 0
  {
    var more := if GoSelects(d, before[id]) then {id} else {};
    assert TouchedRows(d, before, done + {id}, true) == TouchedRows(d, before, done, true) + more;
  }

  /** A run under way: full batches cover the rows up to `lastID`. */
  ghost predicate Running(d: Dialect, batchSize: nat, before: map<string, string>, rows: map<string, string>,
                          lastID: string, batches: seq<Batch>) {
    && Sound(d, before, batches)
    && rows == AfterBatches(d, before, batches)
    && AllIds(batches) == Through(before.Keys, lastID)
    && (forall k :: 0 <= k < |batches| ==> |batches[k].ids| == batchSize)
  }

  lemma NothingDone(d: Dialect, batchSize: nat, before: map<string, string>)
    ensures Running(d, batchSize, before, before, "", [])
  {
  }

  lemma Advance(d: Dialect, batchSize: nat, before: map<string, string>, start: map<string, string>,
                rows: map<string, string>, batches: seq<Batch>, batch: Batch)
    requires Running(d, batchSize, before, start, batch.lower, batches)
    requires batch.ids == BatchIds(before.Keys, batch.lower, batch.upper)
    requires batch.upper.Some? ==> batch.upper.value in before && Less(batch.lower, batch.upper.value)
    requires if batch.upper.Some? then |batch.ids| == batchSize else |batch.ids| < batchSize
    requires rows == RewriteRows(d, start, batch.ids, batch.fellBack)
    requires batch.fellBack || CastsSucceed(d, start, batch.ids)
    ensures if batch.upper.Some? then Running(d, batchSize, before, rows, batch.upper.value, batches + [batch])
            else Normalized(d, batchSize, before, rows, batches + [batch])
    ensures |TouchedIds(d, before, batches + [batch])| == |TouchedIds(d, before, batches)| +
      |TouchedRows(d, start, batch.ids, batch.fellBack)|
  {
    BatchBounds(before.Keys, batch.lower, batch.upper);
    AppendBatch(d, before, start, batches, batch);
    FullBatches(batchSize, batches, batch);
  }

  lemma FullBatches(batchSize: nat, batches: seq<Batch>, batch: Batch)
    requires forall k :: 0 <= k < |batches| ==> |batches[k].ids| == batchSize
    ensures Last(batches + [batch]) == batch
    ensures forall k :: 0 <= k < |batches + [batch]| - 1 ==> |(batches + [batch])[k].ids| == batchSize
    ensures |batch.ids| == batchSize ==>
      forall k :: 0 <= k < |batches + [batch]| ==> |(batches + [batch])[k].ids| == batchSize
  {
  }

  lemma {:induction false} UntouchedRow(d: Dialect, before: map<string, string>, batches: seq<Batch>, id: string)
    requires id in before && id !in AllIds(batches)
    ensures AfterBatches(d, before, batches)[id] == before[id]
  {
    if batches != [] {
      UntouchedRow(d, before, Front(batches), id);
    }
  }

  /** Each visited row was rewritten once, the way its batch was. */
  lemma {:induction false} VisitedRow(d: Dialect, before: map<string, string>, batches: seq<Batch>, id: string)
    returns (k: nat)
    requires Sound(d, before, batches) && id in AllIds(batches)
    ensures id in before && k < |batches| && id in batches[k].ids
    ensures forall j :: 0 <= j < |batches| && id in batches[j].ids ==> j == k
    ensures AfterBatches(d, before, batches)[id] == BatchRewrite(d, batches[k].fellBack, before[id])
    ensures !batches[k].fellBack ==> !CastFails(d, before[id])
  {
    hide BatchRewrite, CastFails;
    if id in Last(batches).ids {
      AfterLast(d, before, batches, id);
      k := |batches| - 1;
      UntouchedRow(d, before, Front(batches), id);
      hide AfterBatches, RewriteRows;
      forall j | 0 <= j < |batches| - 1
        ensures id !in batches[j].ids
      {
        BatchWithin(Front(batches), j);
      }
    } else {
      hide AfterBatches, RewriteRows;
      k := VisitedRow(d, before, Front(batches), id);
      AfterLast(d, before, batches, id);
    }
  }

  lemma AfterLast(d: Dialect, before: map<string, string>, batches: seq<Batch>, id: string)
    requires batches != [] && id in before
    ensures var was := AfterBatches(d, before, Front(batches))[id];
      AfterBatches(d, before, batches)[id] ==
        if id in Last(batches).ids then BatchRewrite(d, Last(batches).fellBack, was) else was
  {
  }

  lemma {:induction false} BatchWithin(batches: seq<Batch>, k: nat)
    requires k < |batches|
    ensures batches[k].ids <= AllIds(batches)
  {
    if k < |batches| - 1 {
      BatchWithin(Front(batches), k);
    }
  }

  lemma {:induction false} TouchedWithin(d: Dialect, before: map<string, string>, batches: seq<Batch>)
    ensures TouchedIds(d, before, batches) <= AllIds(batches)
  {
    if batches != [] {
      TouchedWithin(d, before, Front(batches));
    }
  }

  lemma FreshRows(d: Dialect, before: map<string, string>, batches: seq<Batch>, batch: Batch)
    requires batch.ids <= before.Keys && batch.ids !! AllIds(batches)
    ensures TouchedRows(d, AfterBatches(d, before, batches), batch.ids, batch.fellBack)
      == TouchedRows(d, before, batch.ids, batch.fellBack)
    ensures CastsSucceed(d, AfterBatches(d, before, batches), batch.ids) ==> CastsSucceed(d, before, batch.ids)
  {
    forall id | id in batch.ids
      ensures AfterBatches(d, before, batches)[id] == before[id]
    {
      UntouchedRow(d, before, batches, id);
    }
  }

  lemma AppendSound(d: Dialect, before: map<string, string>, batches: seq<Batch>, batch: Batch)
    requires Sound(d, before, batches) && batch.ids <= before.Keys && batch.ids !! AllIds(batches)
    requires batch.fellBack || CastsSucceed(d, before, batch.ids)
    ensures Sound(d, before, batches + [batch])
  {
    assert Front(batches + [batch]) == batches && Last(batches + [batch]) == batch;
  }

  lemma AppendAfter(d: Dialect, before: map<string, string>, batches: seq<Batch>, batch: Batch)
    ensures AllIds(batches + [batch]) == AllIds(batches) + batch.ids
    ensures AfterBatches(d, before, batches + [batch]) ==
      RewriteRows(d, AfterBatches(d, before, batches), batch.ids, batch.fellBack)
    ensures TouchedIds(d, before, batches + [batch]) ==
      TouchedIds(d, before, batches) + TouchedRows(d, before, batch.ids, batch.fellBack)
  {
    assert Front(batches + [batch]) == batches && Last(batches + [batch]) == batch;
  }

  lemma AppendBatch(d: Dialect, before: map<string, string>, middle: map<string, string>, batches: seq<Batch>, batch: Batch)
    requires Sound(d, before, batches) && batch.ids <= before.Keys && batch.ids !! AllIds(batches)
    requires middle == AfterBatches(d, before, batches)
    requires batch.fellBack || CastsSucceed(d, middle, batch.ids)
    ensures Sound(d, before, batches + [batch])
    ensures AllIds(batches + [batch]) == AllIds(batches) + batch.ids
    ensures AfterBatches(d, before, batches + [batch]) == RewriteRows(d, middle, batch.ids, batch.fellBack)
    ensures |TouchedIds(d, before, batches + [batch])| == |TouchedIds(d, before, batches)| +
      |TouchedRows(d, middle, batch.ids, batch.fellBack)|
  {
    FreshRows(d, before, batches, batch);
    AppendSound(d, before, batches, batch);
    AppendAfter(d, before, batches, batch);
    TouchedWithin(d, before, batches);
    assert TouchedRows(d, middle, batch.ids, batch.fellBack) <= batch.ids;
  }

  lemma RunIsPartial(d: Dialect, before: map<string, string>, batches: seq<Batch>)
    requires Sound(d, before, batches) && "" !in AllIds(batches)
    ensures PartlyRewritten(d, before, AfterBatches(d, before, batches))
  {
    if "" in before {
      UntouchedRow(d, before, batches, "");
    }
    forall id | id in before
      ensures PartlyDone(d, before[id], AfterBatches(d, before, batches)[id])
    {
      if id in AllIds(batches) {
        var k := VisitedRow(d, before, batches, id);
      } else {
        UntouchedRow(d, before, batches, id);
      }
    }
  }

  /** How a run ends early: after full batches, at a bound that is not found, or inside a batch that fell back, with as
      many rows of it rewritten as the database was there for. */
  ghost predicate InterruptedIn(d: Dialect, batchSize: nat, before: map<string, string>, rows: map<string, string>,
                                batches: seq<Batch>, fate: Fate) {
    exists lastID :: Running(d, batchSize, before, AfterBatches(d, before, batches), lastID, batches) &&
      if fate.boundFails then rows == AfterBatches(d, before, batches)
      else
        fate.fallbackFault.Some? && exists upper: Option<string> ::
          StoppedAfter(d, AfterBatches(d, before, batches), BatchIds(before.Keys, lastID, upper), rows,
                       if fate.fallbackFault.value == 0 then 0 else fate.fallbackFault.value - 1)
  }

  lemma InterruptionHasCause(d: Dialect, batchSize: nat, rows: map<string, string>, before: map<string, string>,
                             batches: seq<Batch>, fate: Fate)
    requires InterruptedIn(d, batchSize, before, rows, batches, fate)
    ensures fate.boundFails || fate.fallbackFault.Some?
  {
  }

  lemma BoundFailed(d: Dialect, batchSize: nat, before: map<string, string>, rows: map<string, string>, lastID: string,
                    batches: seq<Batch>, fate: Fate)
    requires Running(d, batchSize, before, rows, lastID, batches) && fate.boundFails
    ensures InterruptedIn(d, batchSize, before, rows, batches, fate)
  {
  }

  lemma FallbackInterrupted(d: Dialect, batchSize: nat, before: map<string, string>, start: map<string, string>,
                            rows: map<string, string>, lastID: string, batches: seq<Batch>, batch: Batch, fate: Fate)
    requires Running(d, batchSize, before, start, lastID, batches) && !fate.boundFails
    requires batch.ids == BatchIds(before.Keys, lastID, batch.upper) && LosesDatabase(d, start, batch.ids, fate.fallbackFault)
    requires StoppedAfter(d, start, batch.ids, rows,
      if fate.fallbackFault.value == 0 then 0 else fate.fallbackFault.value - 1)
    ensures InterruptedIn(d, batchSize, before, rows, batches, fate)
  {
    hide StoppedAfter, Sound, AfterBatches, AllIds, Through, RewriteRows, TouchedRows, BatchIds;
  }

  lemma NothingFated(d: Dialect, before: map<string, string>, fates: nat -> Fate)
    ensures FellBackAsFated(d, before, [], fates)
  {
  }

  lemma FatedOneMore(d: Dialect, before: map<string, string>, batches: seq<Batch>, batch: Batch, lastID: string,
                     fates: nat -> Fate)
    requires FellBackAsFated(d, before, batches, fates) && !fates(|batches|).boundFails
    requires AllIds(batches) == Through(before.Keys, lastID) && batch.ids !! AllIds(batches)
    requires batch.fellBack <==>
      fates(|batches|).updateFails || !CastsSucceed(d, AfterBatches(d, before, batches), batch.ids)
    ensures FellBackAsFated(d, before, batches + [batch], fates)
  {
    forall id | id in batch.ids && id in before
      ensures AfterBatches(d, before, batches)[id] == before[id]
    {
      UntouchedRow(d, before, batches, id);
    }
  }

  lemma InterruptedBatch(d: Dialect, before: map<string, string>, batches: seq<Batch>, batch: Batch,
                         rows: map<string, string>, fate: Fate)
    requires Sound(d, before, batches) && batch.ids !! AllIds(batches) && "" !in AllIds(batches) + batch.ids
    requires LosesDatabase(d, AfterBatches(d, before, batches), batch.ids, fate.fallbackFault)
    requires StoppedAfter(d, AfterBatches(d, before, batches), batch.ids, rows,
      if fate.fallbackFault.value == 0 then 0 else fate.fallbackFault.value - 1)
    ensures PartlyRewritten(d, before, rows)
  {
    hide PartlyRewritten, Sound, AfterBatches, AllIds, RewriteRows, TouchedRows;
    var done :| done <= batch.ids && rows == RewriteRows(d, AfterBatches(d, before, batches), done, true);
    PartOfBatch(d, before, batches, done);
  }

  lemma PartOfBatch(d: Dialect, before: map<string, string>, batches: seq<Batch>, done: set<string>)
    requires Sound(d, before, batches) && done !! AllIds(batches) && "" !in AllIds(batches) + done
    ensures PartlyRewritten(d, before, RewriteRows(d, AfterBatches(d, before, batches), done, true))
  {
    RunIsPartial(d, before, batches);
    forall id | id in before && id in done
      ensures AfterBatches(d, before, batches)[id] == before[id]
    {
      UntouchedRow(d, before, batches, id);
    }
  }

  // ---------------------------------------------------------------------------------------------------
  // What a run means
  // ---------------------------------------------------------------------------------------------------

  /** SQL and Go agree on a stored value outside the canonical shape: what the cast gives is what Go writes, and a value
      the guard leaves out is one Go leaves as it is. A cast that fails is no disagreement, for its batch falls back. */
  predicate AgreesAt(d: Dialect, s: string) {
    || LikeCanonical(s, d.foldCase)
    || (if d.parseable(s) then d.canonical(s).None? || d.canonical(s).value == PlainRewrite(s) else PlainRewrite(s) == s)
  }

  ghost predicate AgreesOn(d: Dialect, rows: map<string, string>) {
    forall id :: id in rows ==> AgreesAt(d, rows[id])
  }

  /** Skipping the rows of the canonical shape loses nothing. */
  lemma GoRewriteIsPlain(d: Dialect, s: string)
    ensures GoRewrite(d, s) == PlainRewrite(s)
  {
    if LikeCanonical(s, d.foldCase) && Parse(s).Some? {
      ShapeThatParsesIsCanonical(s, d.foldCase);
    }
  }

  /** Where its cast does not fail, the SQL rewrite of a value is the plain one exactly when the two agree on it. */
  lemma SqlRewriteIsPlainIff(d: Dialect, s: string)
    requires !CastFails(d, s)
    ensures SqlRewrite(d, s) == PlainRewrite(s) <==> AgreesAt(d, s)
  {
    GoRewriteIsPlain(d, s);
  }

  /** The rewrite keeps the instant, and what it writes is canonical exactly for the years 0000 to 9999. */
  lemma PlainRewriteKeepsInstant(s: string, fold: bool)
    requires Parse(s).Some?
    ensures PlainRewrite(s) == Format(Parse(s).value)
    ensures LikeCanonical(PlainRewrite(s), fold) <==> InRange(Parse(s).value)
    ensures InRange(Parse(s).value) ==> Parse(PlainRewrite(s)) == Some(Instant(Parse(s).value.second, 0))
  {
    ShapeIffInRange(Parse(s).value, fold);
    ParseInvertsFormat(Parse(s).value);
  }

  /** A stored text in any of the old forms, with whatever fraction and zone, is rewritten to the canonical text of the
      instant it was written for; any other text stays. */
  lemma PlainRewriteKeepsWhatWasWritten(s: string, t: Instant)
    ensures StoredTimestamps.WrittenFor(s, t) ==> PlainRewrite(s) == Format(t)
    ensures (forall u: Instant :: !StoredTimestamps.WrittenFor(s, u)) ==> PlainRewrite(s) == s
  {
    hide Parse, Format;
    StoredTimestamps.ParseIffWritten(s, t);
    if Parse(s).Some? {
      StoredTimestamps.ParseIffWritten(s, Parse(s).value);
    }
  }

  lemma PlainRewriteIdempotent(s: string)
    ensures PlainRewrite(PlainRewrite(s)) == PlainRewrite(s)
  {
    if Parse(s).Some? {
      ParseInvertsFormat(Parse(s).value);
    }
  }

  /** What a complete run makes of a row, whatever the other rows hold: the plain rewrite exactly when its batch fell back
      or SQL and Go agree on its value. */
  lemma RowIsPlainIff(d: Dialect, batchSize: nat, before: map<string, string>, after: map<string, string>,
                      batches: seq<Batch>, id: string)
    returns (k: nat)
    requires Normalized(d, batchSize, before, after, batches) && id in before && id != ""
    ensures k < |batches| && id in batches[k].ids
    ensures forall j :: 0 <= j < |batches| && id in batches[j].ids ==> j == k
    ensures after[id] == PlainRewrite(before[id]) <==> batches[k].fellBack || AgreesAt(d, before[id])
  {
    k := VisitedRow(d, before, batches, id);
    GoRewriteIsPlain(d, before[id]);
    if !batches[k].fellBack {
      SqlRewriteIsPlainIff(d, before[id]);
    }
  }

  /** The table with every row that has an id rewritten. */
  ghost function PlainTable(rows: map<string, string>): map<string, string> {
    map id | id in rows :: if id == "" then rows[id] else PlainRewrite(rows[id])
  }

  /** Whatever the batch size and whichever batches fell back, a complete run is the plain rewrite, row by row. */
  lemma RunIsPlainRewrite(d: Dialect, batchSize: nat, before: map<string, string>, after: map<string, string>,
                          batches: seq<Batch>)
    requires AgreesOn(d, before) && Normalized(d, batchSize, before, after, batches)
    ensures after == PlainTable(before)
  {
    forall id | id in before
      ensures after[id] == if id == "" then before[id] else PlainRewrite(before[id])
    {
      if id == "" {
        UntouchedRow(d, before, batches, "");
      } else {
        var k := RowIsPlainIff(d, batchSize, before, after, batches, id);
      }
    }
    IsPlainTable(before, after);
  }

  lemma IsPlainTable(before: map<string, string>, after: map<string, string>)
    requires before.Keys == after.Keys
    requires forall id :: id in before ==> after[id] == if id == "" then before[id] else PlainRewrite(before[id])
    ensures after == PlainTable(before)
  {
  }

  /** A second run changes nothing. */
  lemma SecondRunChangesNothing(d: Dialect, before: map<string, string>, between: map<string, string>,
                                after: map<string, string>, size1: nat, size2: nat,
                                batches1: seq<Batch>, batches2: seq<Batch>)
    requires AgreesOn(d, before) && AgreesOn(d, between)
    requires Normalized(d, size1, before, between, batches1) && Normalized(d, size2, between, after, batches2)
    ensures after == between
  {
    RunIsPlainRewrite(d, size1, before, between, batches1);
    RunIsPlainRewrite(d, size2, between, after, batches2);
    PlainTableIdempotent(before);
  }

  lemma PlainTableIdempotent(rows: map<string, string>)
    ensures PlainTable(PlainTable(rows)) == PlainTable(rows)
  {
    forall id | id in rows
      ensures PlainTable(PlainTable(rows))[id] == PlainTable(rows)[id]
    {
      PlainRewriteIdempotent(rows[id]);
    }
  }

  /** A run interrupted anywhere and then repeated, with any batches, ends where an uninterrupted run ends. */
  lemma InterruptedRunCompletes(d: Dialect, batchSize: nat, before: map<string, string>, middle: map<string, string>,
                                after: map<string, string>, batches: seq<Batch>)
    requires AgreesOn(d, before) && PartlyRewritten(d, before, middle)
    requires AgreesOn(d, middle) && Normalized(d, batchSize, middle, after, batches)
    ensures after == PlainTable(before)
  {
    RunIsPlainRewrite(d, batchSize, middle, after, batches);
    forall id | id in before && id != ""
      ensures after[id] == PlainRewrite(before[id])
    {
      PartlyDoneThenPlain(d, before[id], middle[id]);
    }
    IsPlainTable(before, after);
  }

  lemma PartlyDoneThenPlain(d: Dialect, before: string, middle: string)
    requires AgreesAt(d, before) && PartlyDone(d, before, middle)
    ensures middle == before || middle == PlainRewrite(before)
    ensures PlainRewrite(middle) == PlainRewrite(before)
  {
    PlainRewriteIdempotent(before);
    GoRewriteIsPlain(d, before);
    if !CastFails(d, before) {
      SqlRewriteIsPlainIff(d, before);
    }
  }

  /** Rewriting a table on whose values SQL and Go agree leaves values they agree on, unless one lies outside the years
      0000 to 9999. */
  lemma AgreementSurvives(d: Dialect, rows: map<string, string>)
    requires AgreesOn(d, rows)
    requires forall id :: id in rows && Parse(rows[id]).Some? ==> InRange(Parse(rows[id]).value)
    ensures AgreesOn(d, PlainTable(rows))
  {
    forall id | id in rows
      ensures AgreesAt(d, PlainTable(rows)[id])
    {
      if Parse(rows[id]).Some? {
        PlainRewriteKeepsInstant(rows[id], d.foldCase);
      }
    }
  }
}
