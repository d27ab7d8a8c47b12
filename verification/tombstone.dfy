/** Soft delete in tables with a unique name (internal/db/tombstone.go, and the create, update and delete statements of
  internal/db/models.go and internal/db/deployments.go). Deleting a row appends ":deleted:" and the row's own id to its
  name, so the name is free again at once. */
module Tombstone {
  const MARKER := ":deleted:"

  /** The length of a row id: ids are UUIDs in their text form. */
  const ID_LENGTH := 36

  /** What SQL `name || ':deleted:' || id` stores. */
  function Mangle(value: string, id: string): string {
    value + (MARKER + id)
  }

  predicate HasSuffix(s: string, suffix: string) {
    |suffix| <= |s| && s[|s| - |suffix|..] == suffix
  }

  function StripTombstone(value: string, id: string): string {
    var suffix := MARKER + id;
    if HasSuffix(value, suffix) then value[..|value| - |suffix|] else value
  }

  predicate MarkerAt(s: string, i: int) {
    0 <= i <= |s| - |MARKER| && s[i..i + |MARKER|] == MARKER
  }

  predicate ContainsMarker(s: string) {
    exists i :: 0 <= i <= |s| && MarkerAt(s, i)
  }

  /** Stripping undoes mangling, whatever the value. */
  lemma StripUndoesMangle(value: string, id: string)
    ensures StripTombstone(Mangle(value, id), id) == value
  {
    var suffix := MARKER + id;
    assert Mangle(value, id)[|value|..] == suffix;
    assert Mangle(value, id)[..|value|] == value;
  }

  /** Mangled values of different rows differ, because ids have one length: even for a value like "x:deleted", whose
      mangled form contains the marker before the place it was appended. */
  lemma MangleInjective(v: string, id: string, w: string, jd: string)
    requires |id| == |jd| && Mangle(v, id) == Mangle(w, jd)
    ensures v == w && id == jd
  {
    StripUndoesMangle(v, id);
    assert Mangle(v, id)[|v| + |MARKER|..] == id;
    assert Mangle(w, jd)[|w| + |MARKER|..] == jd;
  }

  lemma MangledContainsMarker(value: string, id: string)
    ensures ContainsMarker(Mangle(value, id))
  {
    assert MarkerAt(Mangle(value, id), |value|);
  }

  /** A value without the marker shows as itself. */
  lemma StripLeavesLiveValues(value: string, id: string)
    requires !ContainsMarker(value)
    ensures StripTombstone(value, id) == value
  {
    if HasSuffix(value, MARKER + id) {
      var kept := value[..|value| - |MARKER + id|];
      assert value == Mangle(kept, id);
      MangledContainsMarker(kept, id);
    }
  }
}

module SoftDelete {
  import opened Common
  import opened Tombstone

  /** A row: the scope its name is unique in (the model of a deployment; one and the same for all models), the name
      as stored, the other columns, and whether deleted_at is set. */
  datatype Row<F> = Row(scope: string, name: string, fields: F, deleted: bool)

  datatype TableError = NotFound | Conflict | ReservedValue

  /** The UNIQUE constraint holds over all rows, deleted ones included. */
  predicate Taken<F>(t: map<string, Row<F>>, scope: string, name: string, except: string) {
    exists id :: id in t && id != except && t[id].scope == scope && t[id].name == name
  }

  predicate IsLive<F>(t: map<string, Row<F>>, id: string) {
    id in t && !t[id].deleted
  }

  /** CreateModel and CreateDeployment. */
  function Created<F>(t: map<string, Row<F>>, id: string, scope: string, name: string, fields: F)
    : Result<map<string, Row<F>>, TableError>
  {
    if ContainsMarker(name) then Err(ReservedValue)
    else if id in t || Taken(t, scope, name, id) then Err(Conflict)
    else Ok(t[id := Row(scope, name, fields, false)])
  }

  /** UpdateModel and UpdateDeployment. */
  function Updated<F>(t: map<string, Row<F>>, id: string, name: Option<string>, change: F -> F)
    : Result<map<string, Row<F>>, TableError>
  {
    if name.Some? && ContainsMarker(name.value) then Err(ReservedValue)
    else if !IsLive(t, id) then Err(NotFound)
    else if name.Some? && Taken(t, t[id].scope, name.value, id) then Err(Conflict)
    else
      Ok(t[id := t[id].(name := if name.Some? then name.value else t[id].name, fields := change(t[id].fields))])
  }

  /** DeleteModel and DeleteDeployment. */
  function Deleted<F>(t: map<string, Row<F>>, id: string): Result<map<string, Row<F>>, TableError> {
    if !IsLive(t, id) then Err(NotFound)
    else
      var mangled := Mangle(t[id].name, id);
      if Taken(t, t[id].scope, mangled, id) then Err(Conflict)
      else Ok(t[id := t[id].(name := mangled, deleted := true)])
  }

  class Table<F> {
    var rows: map<string, Row<F>>

    constructor ()
      ensures rows == map[]
    {
      rows := map[];
    }

    method Create(id: string, scope: string, name: string, fields: F) returns (r: Result<(), TableError>)
      modifies this
      ensures var spec := Created(old(rows), id, scope, name, fields);
        if r.Ok? then spec == Ok(rows) else spec == Err(r.error) && rows == old(rows)
    {
      if ContainsMarker(name) {
        return Err(ReservedValue);
      }
      if id in rows || Taken(rows, scope, name, id) {
        return Err(Conflict);
      }
      rows := rows[id := Row(scope, name, fields, false)];
      r := Ok(());
    }

    method Update(id: string, name: Option<string>, change: F -> F) returns (r: Result<(), TableError>)
      modifies this
      ensures var spec := Updated(old(rows), id, name, change);
        if r.Ok? then spec == Ok(rows) else spec == Err(r.error) && rows == old(rows)
    {
      if name.Some? && ContainsMarker(name.value) {
        return Err(ReservedValue);
      }
      if !IsLive(rows, id) {
        return Err(NotFound);
      }
      var row := rows[id];
      if name.Some? {
        if Taken(rows, row.scope, name.value, id) {
          return Err(Conflict);
        }
        row := row.(name := name.value);
      }
      rows := rows[id := row.(fields := change(row.fields))];
      r := Ok(());
    }

    method Delete(id: string) returns (r: Result<(), TableError>)
      modifies this
      ensures var spec := Deleted(old(rows), id);
        if r.Ok? then spec == Ok(rows) else spec == Err(r.error) && rows == old(rows)
    {
      if !IsLive(rows, id) {
        return Err(NotFound);
      }
      var row := rows[id];
      var mangled := row.name + MARKER + id;
      assert mangled == Mangle(row.name, id);
      if Taken(rows, row.scope, mangled, id) {
        return Err(Conflict);
      }
      rows := rows[id := row.(name := mangled, deleted := true)];
      r := Ok(());
    }
  }

  // ---------------------------------------------------------------------------------------------------
  // Runs
  // ---------------------------------------------------------------------------------------------------

  datatype Op<!F> =
    | CreateOp(id: string, scope: string, name: string, fields: F)
    | UpdateOp(id: string, newName: Option<string>, change: F -> F)
    | DeleteOp(id: string)

  function Outcome<F>(t: map<string, Row<F>>, op: Op<F>): Result<map<string, Row<F>>, TableError> {
    match op
    case CreateOp(id, scope, name, fields) => Created(t, id, scope, name, fields)
    case UpdateOp(id, name, change) => Updated(t, id, name, change)
    case DeleteOp(id) => Deleted(t, id)
  }

  /** The table after a run of operations; one that fails leaves it alone. */
  function Run<F>(start: map<string, Row<F>>, ops: seq<Op<F>>): map<string, Row<F>> {
    if ops == [] then start
    else
      var before := Run(start, Front(ops));
      match Outcome(before, Last(ops))
      case Ok(after) => after
      case Err(_) => before
  }

  /** New rows get ids of the one length. */
  ghost predicate ProperIds<F>(ops: seq<Op<F>>) {
    forall op :: op in ops && op.CreateOp? ==> |op.id| == ID_LENGTH
  }

  /** No two rows of a scope share a name; live names are free of the marker; a deleted row carries the marker and its
      own id after a name that is free of it. */
  ghost predicate Clean<F>(t: map<string, Row<F>>) {
    && (forall id :: id in t ==> |id| == ID_LENGTH)
    && (forall id :: id in t ==> !ContainsMarker(ShownName(t, id)))
    && (forall id :: id in t ==> t[id].name == if t[id].deleted then Mangle(ShownName(t, id), id) else ShownName(t, id))
    && (forall id, jd :: id in t && jd in t && id != jd ==> t[id].scope != t[jd].scope || t[id].name != t[jd].name)
  }

  /** The name shown for a row, deleted or not. */
  function ShownName<F>(t: map<string, Row<F>>, id: string): string
    requires id in t
  {
    StripTombstone(t[id].name, id)
  }

  /** In a clean table only a live row of the scope can be in the way of a name without the marker, and nothing can be
      in the way of a tombstone. */
  lemma WhoTakesAName<F>(t: map<string, Row<F>>, scope: string, name: string, id: string)
    requires Clean(t) && |id| == ID_LENGTH
    ensures !ContainsMarker(name) && Taken(t, scope, name, id) ==>
      exists jd :: jd != id && IsLive(t, jd) && t[jd].scope == scope && t[jd].name == name
    ensures !Taken(t, scope, Mangle(name, id), id)
  {
    if !ContainsMarker(name) && Taken(t, scope, name, id) {
      var jd :| jd in t && jd != id && t[jd].scope == scope && t[jd].name == name;
      MangledContainsMarker(ShownName(t, jd), jd);
      assert IsLive(t, jd);
    }
    if Taken(t, scope, Mangle(name, id), id) {
      var jd :| jd in t && jd != id && t[jd].scope == scope && t[jd].name == Mangle(name, id);
      MangledContainsMarker(name, id);
      MangleInjective(name, id, ShownName(t, jd), jd);
    }
  }

  /** Deleting a live row never conflicts. */
  lemma DeleteNeverConflicts<F>(t: map<string, Row<F>>, id: string)
    requires Clean(t)
    ensures Deleted(t, id).Ok? <==> IsLive(t, id)
  {
    if IsLive(t, id) {
      WhoTakesAName(t, t[id].scope, t[id].name, id);
    }
  }

  /** Another live row of the scope bears the name. */
  ghost predicate LiveNamesake<F>(t: map<string, Row<F>>, scope: string, name: string, id: string) {
    exists jd :: jd != id && IsLive(t, jd) && t[jd].scope == scope && t[jd].name == name
  }

  /** How an operation on a clean table fails: a reserved name comes first, then a row that is not there, then a name in
      use. Rows deleted before are never in the way. */
  lemma FailsIff<F>(t: map<string, Row<F>>, op: Op<F>)
    requires Clean(t) && (op.CreateOp? ==> |op.id| == ID_LENGTH)
    ensures var r := Outcome(t, op);
      match op
      case CreateOp(id, scope, name, _) =>
        && (r == Err(ReservedValue) <==> ContainsMarker(name))
        && (r == Err(Conflict) <==> !ContainsMarker(name) && (id in t || LiveNamesake(t, scope, name, id)))
        && r != Err(NotFound)
      case UpdateOp(id, name, _) =>
        && (r == Err(ReservedValue) <==> name.Some? && ContainsMarker(name.value))
        && (r == Err(NotFound) <==> !(name.Some? && ContainsMarker(name.value)) && !IsLive(t, id))
        && (r == Err(Conflict) <==>
             name.Some? && !ContainsMarker(name.value) && IsLive(t, id) && LiveNamesake(t, t[id].scope, name.value, id))
      case DeleteOp(id) => (r.Err? <==> !IsLive(t, id)) && (r.Err? ==> r == Err(NotFound))
  {
    match op
    case CreateOp(id, scope, name, _) => WhoTakesAName(t, scope, name, id);
    case UpdateOp(id, name, _) =>
      if name.Some? && IsLive(t, id) {
        WhoTakesAName(t, t[id].scope, name.value, id);
      }
    case DeleteOp(id) => DeleteNeverConflicts(t, id);
  }

  /** What an operation that succeeds leaves: every other row as it was, and of its own row the columns as given, as
      changed, or as they were. */
  lemma OnlyOneRowChanges<F>(t: map<string, Row<F>>, op: Op<F>)
    requires Outcome(t, op).Ok?
    ensures var after := Outcome(t, op).value;
      && after.Keys == t.Keys + {op.id} && (op.id in t <==> !op.CreateOp?)
      && (forall jd :: jd in t && jd != op.id ==> after[jd] == t[jd])
      && (after[op.id].deleted <==> op.DeleteOp?)
      && after[op.id].scope == (if op.CreateOp? then op.scope else t[op.id].scope)
      && after[op.id].fields == match op
         case CreateOp(_, _, _, fields) => fields
         case UpdateOp(id, _, change) => change(t[id].fields)
         case DeleteOp(id) => t[id].fields
  {
  }

  lemma CreateKeepsClean<F>(t: map<string, Row<F>>, id: string, scope: string, name: string, fields: F)
    requires Clean(t) && |id| == ID_LENGTH && Created(t, id, scope, name, fields).Ok?
    ensures Clean(Created(t, id, scope, name, fields).value)
  {
    StripLeavesLiveValues(name, id);
  }

  lemma UpdateKeepsClean<F>(t: map<string, Row<F>>, id: string, name: Option<string>, change: F -> F)
    requires Clean(t) && Updated(t, id, name, change).Ok?
    ensures Clean(Updated(t, id, name, change).value)
  {
    if name.Some? {
      StripLeavesLiveValues(name.value, id);
    }
  }

  lemma DeleteKeepsClean<F>(t: map<string, Row<F>>, id: string)
    requires Clean(t) && Deleted(t, id).Ok?
    ensures Clean(Deleted(t, id).value)
  {
    StripUndoesMangle(t[id].name, id);
  }

  /** One operation keeps the table clean. */
  lemma StepKeepsClean<F>(t: map<string, Row<F>>, op: Op<F>)
    requires Clean(t) && (op.CreateOp? ==> |op.id| == ID_LENGTH) && Outcome(t, op).Ok?
    ensures Clean(Outcome(t, op).value)
  {
    match op
    case CreateOp(id, scope, name, fields) => CreateKeepsClean(t, id, scope, name, fields);
    case UpdateOp(id, name, change) => UpdateKeepsClean(t, id, name, change);
    case DeleteOp(id) => DeleteKeepsClean(t, id);
  }

  /** From a clean table every run stays clean. */
  lemma {:induction false} RunStaysClean<F>(start: map<string, Row<F>>, ops: seq<Op<F>>)
    requires Clean(start) && ProperIds(ops)
    ensures Clean(Run(start, ops))
  {
    if ops != [] {
      assert ProperIds(Front(ops));
      RunStaysClean(start, Front(ops));
      if Outcome(Run(start, Front(ops)), Last(ops)).Ok? {
        StepKeepsClean(Run(start, Front(ops)), Last(ops));
      }
    }
  }

  /** A deleted name can be created again at once, by any new row, with the deleted row still there. */
  lemma DeletedNameIsFree<F>(t: map<string, Row<F>>, id: string, newId: string, fields: F)
    requires Clean(t) && IsLive(t, id) && newId !in t && |newId| == ID_LENGTH
    ensures Deleted(t, id).Ok?
    ensures Created(Deleted(t, id).value, newId, t[id].scope, t[id].name, fields).Ok?
  {
    DeleteNeverConflicts(t, id);
    DeleteKeepsClean(t, id);
    var after := Deleted(t, id).value;
    WhoTakesAName(after, t[id].scope, t[id].name, newId);
  }

  /** The name a row was last given by an operation that succeeded. */
  function LastName<F>(start: map<string, Row<F>>, ops: seq<Op<F>>, id: string): Option<string> {
    if ops == [] then (if id in start then Some(ShownName(start, id)) else None)
    else
      var op := Last(ops);
      var earlier := LastName(start, Front(ops), id);
      if op.id != id || Outcome(Run(start, Front(ops)), op).Err? then earlier
      else if op.CreateOp? then Some(op.name)
      else if op.UpdateOp? && op.newName.Some? then op.newName
      else earlier
  }

  /** What one operation does to the name a row shows. */
  lemma StepShowsName<F>(t: map<string, Row<F>>, op: Op<F>, id: string)
    requires Clean(t) && Outcome(t, op).Ok?
    ensures var after := Outcome(t, op).value;
      && (id in after <==> id in t || (op.CreateOp? && op.id == id))
      && (op.id == id && op.CreateOp? ==> ShownName(after, id) == op.name)
      && (op.id == id && op.UpdateOp? && op.newName.Some? ==> ShownName(after, id) == op.newName.value)
      && (id in t && (op.id != id || op.DeleteOp? || (op.UpdateOp? && op.newName.None?)) ==>
        ShownName(after, id) == ShownName(t, id))
  {
    if op.CreateOp? {
      StripLeavesLiveValues(op.name, op.id);
    } else if op.UpdateOp? {
      if op.newName.Some? {
        StripLeavesLiveValues(op.newName.value, op.id);
      }
    } else {
      StripUndoesMangle(t[op.id].name, op.id);
    }
  }

  /** Every row, deleted or not, shows the name it was last given. */
  lemma {:induction false} StripRecoversLastName<F>(start: map<string, Row<F>>, ops: seq<Op<F>>, id: string)
    requires Clean(start) && ProperIds(ops)
    ensures var t := Run(start, ops);
      if id in t then LastName(start, ops, id) == Some(ShownName(t, id)) else LastName(start, ops, id) == None
  {
    if ops != [] {
      assert ProperIds(Front(ops));
      var before := Run(start, Front(ops));
      StripRecoversLastName(start, Front(ops), id);
      RunStaysClean(start, Front(ops));
      if Outcome(before, Last(ops)).Ok? {
        StepShowsName(before, Last(ops), id);
      }
    }
  }
}
