/** Deployments of a model, and their reconciliation with the YAML configuration (internal/db/deployments.go,
  syncYAMLDeployments in internal/db/models.go). The scope of a deployment's name is its model. */
module Deployments {
  import opened Common
  import opened Tombstone
  import opened SoftDelete

  datatype Fields = Fields(provider: string, baseURL: string, azureDeployment: string, azureAPIVersion: string,
                           gcpProject: string, gcpLocation: string, weight: int, priority: int, isActive: bool,
                           piiFilter: Option<bool>)

  /** One deployment of the configuration file. */
  datatype DeploymentConfig = DeploymentConfig(name: string, provider: string, baseURL: string, azureDeployment: string,
                                               azureAPIVersion: string, gcpProject: string, gcpLocation: string,
                                               weight: int, priority: int, piiFilter: Option<bool>)

  type Rows = map<string, Row<Fields>>

  /** A partial update; what is None stays. */
  datatype Changes = Changes(provider: Option<string>, baseURL: Option<string>, azureDeployment: Option<string>,
                             azureAPIVersion: Option<string>, gcpProject: Option<string>, gcpLocation: Option<string>,
                             weight: Option<int>, priority: Option<int>, piiFilter: Option<bool>, clearPIIFilter: bool)

  function Pick<T>(change: Option<T>, current: T): T {
    if change.Some? then change.value else current
  }

  function Apply(c: Changes, f: Fields): Fields {
    Fields(Pick(c.provider, f.provider), Pick(c.baseURL, f.baseURL), Pick(c.azureDeployment, f.azureDeployment),
           Pick(c.azureAPIVersion, f.azureAPIVersion), Pick(c.gcpProject, f.gcpProject),
           Pick(c.gcpLocation, f.gcpLocation), Pick(c.weight, f.weight), Pick(c.priority, f.priority), f.isActive,
           if c.clearPIIFilter then None else if c.piiFilter.Some? then c.piiFilter else f.piiFilter)
  }

  function AtLeastOne(weight: int): int {
    if weight < 1 then 1 else weight
  }

  /** The columns the configuration asks for; whether the deployment is active is not among them. */
  function Configured(cd: DeploymentConfig, isActive: bool): Fields {
    Fields(cd.provider, cd.baseURL, cd.azureDeployment, cd.azureAPIVersion, cd.gcpProject, cd.gcpLocation,
           AtLeastOne(cd.weight), cd.priority, isActive, cd.piiFilter)
  }

  method CreateDeployment(t: Table<Fields>, id: string, modelID: string, name: string, fields: Fields)
    returns (r: Result<(), TableError>)
    modifies t
    ensures var spec := Created(old(t.rows), id, modelID, name,
              fields.(weight := AtLeastOne(fields.weight), isActive := true));
      if r.Ok? then spec == Ok(t.rows) else spec == Err(r.error) && t.rows == old(t.rows)
  {
    var weight := fields.weight;
    if weight < 1 {
      weight := 1;
    }
    r := t.Create(id, modelID, name, fields.(weight := weight, isActive := true));
  }

  /** ListDeployments: the live rows of a model, in some order. */
  method ListDeployments(t: Table<Fields>, modelID: string) returns (ids: seq<string>)
    ensures forall id :: id in ids <==> LiveIn(t.rows, modelID, id)
    ensures forall i, j :: 0 <= i < j < |ids| ==> ids[i] != ids[j]
  {
    var rest := set id | id in t.rows && LiveIn(t.rows, modelID, id);
    ids := [];
    while rest != {}
      invariant forall id :: LiveIn(t.rows, modelID, id) <==> id in rest || id in ids
      invariant forall i :: 0 <= i < |ids| ==> ids[i] !in rest
      invariant forall i, j :: 0 <= i < j < |ids| ==> ids[i] != ids[j]
      decreases |rest|
    {
      var id :| id in rest;
      rest := rest - {id};
      ids := ids + [id];
    }
  }

  predicate LiveIn(rows: Rows, modelID: string, id: string) {
    IsLive(rows, id) && rows[id].scope == modelID
  }

  // ---------------------------------------------------------------------------------------------------
  // What reconciliation produces
  // ---------------------------------------------------------------------------------------------------

  /** The configured deployment of a name; the last one where a name is configured twice. */
  function Lookup(cfg: seq<DeploymentConfig>, name: string): Option<DeploymentConfig> {
    if cfg == [] then None
    else if Last(cfg).name == name then Some(Last(cfg))
    else Lookup(Front(cfg), name)
  }

  /** What the update pass makes of a row that was there: a live deployment of the model takes the configured columns. */
  function AfterUpdates(row: Row<Fields>, modelID: string, cfg: seq<DeploymentConfig>): Row<Fields> {
    if row.deleted || row.scope != modelID then row
    else
      match Lookup(cfg, row.name)
      case None => row
      case Some(cd) => row.(fields := Configured(cd, row.fields.isActive))
  }

  /** And after the delete pass: one that is no longer configured becomes a tombstone. */
  function Reconciled(id: string, row: Row<Fields>, modelID: string, cfg: seq<DeploymentConfig>): Row<Fields> {
    if !row.deleted && row.scope == modelID && Lookup(cfg, row.name).None?
    then row.(name := Mangle(row.name, id), deleted := true)
    else AfterUpdates(row, modelID, cfg)
  }

  /** A row the pass created. */
  ghost predicate FreshRow(row: Row<Fields>, modelID: string, cfg: seq<DeploymentConfig>) {
    var cd := Lookup(cfg, row.name);
    cd.Some? && row == Row(modelID, row.name, Configured(cd.value, true), false)
  }

  ghost predicate LiveName(rows: Rows, modelID: string, name: string) {
    exists id :: LiveIn(rows, modelID, id) && rows[id].name == name
  }

  /** The result of a reconciliation. */
  ghost predicate SyncResult(was: Rows, rows: Rows, modelID: string, cfg: seq<DeploymentConfig>) {
    && was.Keys <= rows.Keys
    && (forall id :: id in was ==> rows[id] == Reconciled(id, was[id], modelID, cfg))
    && (forall id :: id in rows && id !in was ==>
          FreshRow(rows[id], modelID, cfg) && !LiveName(was, modelID, rows[id].name))
    && (forall cd :: cd in cfg ==> LiveName(rows, modelID, cd.name))
  }

  /** What internal/config demands of the deployments of one model. */
  ghost predicate ValidConfig(cfg: seq<DeploymentConfig>) {
    && (forall i :: 0 <= i < |cfg| ==> !ContainsMarker(cfg[i].name))
    && (forall i, j :: 0 <= i < j < |cfg| ==> cfg[i].name != cfg[j].name)
  }

  /** The i-th configured deployment can be dealt with: its name is live already, or may be created and was not configured
      before. */
  ghost predicate Acceptable(was: Rows, modelID: string, cfg: seq<DeploymentConfig>, i: nat)
    requires i < |cfg|
  {
    || LiveName(was, modelID, cfg[i].name)
    || (!ContainsMarker(cfg[i].name) && forall j :: 0 <= j < i ==> cfg[j].name != cfg[i].name)
  }

  ghost predicate FirstRefused(was: Rows, modelID: string, cfg: seq<DeploymentConfig>, k: nat) {
    k < |cfg| && !Acceptable(was, modelID, cfg, k) && forall j :: 0 <= j < k ==> Acceptable(was, modelID, cfg, j)
  }

  /** Ids for the rows to be created: new, distinct, of the one length. */
  ghost predicate FreshIds(rows: Rows, ids: seq<string>) {
    && (forall i :: 0 <= i < |ids| ==> |ids[i]| == ID_LENGTH && ids[i] !in rows)
    && (forall i, j :: 0 <= i < j < |ids| ==> ids[i] != ids[j])
  }

  ghost function FirstIds(ids: seq<string>, n: nat): set<string>
    requires n <= |ids|
  {
    set k | 0 <= k < n :: ids[k]
  }

  // ---------------------------------------------------------------------------------------------------
  // syncYAMLDeployments
  // ---------------------------------------------------------------------------------------------------

  /** The table part of the way through the first pass: `done` is the configuration dealt with so far, and the rows
      created so far have ids from `used`. */
  ghost predicate Updating(was: Rows, rows: Rows, modelID: string, done: seq<DeploymentConfig>, used: set<string>) {
    && rows.Keys == was.Keys + used && used !! was.Keys
    && (forall id :: id in was ==> rows[id] == AfterUpdates(was[id], modelID, done))
    && (forall id :: id in used ==>
          FreshRow(rows[id], modelID, done) && !LiveName(was, modelID, rows[id].name))
    && (forall cd :: cd in done ==> LiveName(rows, modelID, cd.name))
  }

  ghost predicate SeenOf(cfg: seq<DeploymentConfig>, seen: set<string>) {
    forall name :: name in seen <==> Lookup(cfg, name).Some?
  }

  /** The one live row of a name. */
  ghost predicate OnlyRowOfName(was: Rows, modelID: string, name: string, id: string) {
    && LiveIn(was, modelID, id) && was[id].name == name
    && forall jd :: LiveIn(was, modelID, jd) && was[jd].name == name ==> jd == id
  }

  /** The index built from the listing: the one live deployment of each name. */
  ghost predicate IndexOf(rows: Rows, modelID: string, byName: map<string, string>) {
    && (forall name :: name in byName ==> LiveIn(rows, modelID, byName[name]) && rows[byName[name]].name == name)
    && (forall id :: LiveIn(rows, modelID, id) ==> rows[id].name in byName && byName[rows[id].name] == id)
  }

  method BuildIndex(t: Table<Fields>, modelID: string, listed: seq<string>) returns (byName: map<string, string>)
    requires Clean(t.rows)
    requires forall id :: id in listed <==> LiveIn(t.rows, modelID, id)
    ensures IndexOf(t.rows, modelID, byName)
  {
    hide Clean;
    byName := map[];
    for i := 0 to |listed|
      invariant IndexOfSome(t.rows, modelID, byName, listed[..i])
    {
      var id := listed[i];
      IndexOneMore(t.rows, modelID, byName, listed[..i], id);
      byName := byName[t.rows[id].name := id];
      assert listed[..i + 1] == listed[..i] + [id];
    }
    assert listed[..|listed|] == listed;
  }

  /** Live names differ in a clean table, so a new entry replaces none of another row. */
  lemma IndexOneMore(rows: Rows, modelID: string, byName: map<string, string>, listed: seq<string>, id: string)
    requires Clean(rows) && LiveIn(rows, modelID, id) && IndexOfSome(rows, modelID, byName, listed)
    ensures IndexOfSome(rows, modelID, byName[rows[id].name := id], listed + [id])
  {
  }

  ghost predicate IndexOfSome(rows: Rows, modelID: string, byName: map<string, string>, listed: seq<string>) {
    && (forall name :: name in byName ==> LiveIn(rows, modelID, byName[name]) && rows[byName[name]].name == name)
    && (forall id :: id in listed && LiveIn(rows, modelID, id) ==> rows[id].name in byName && byName[rows[id].name] == id)
  }

  /** A configured name without a live row: a deployment is created. */
  method SyncNew(t: Table<Fields>, modelID: string, cd: DeploymentConfig, newId: string,
                 ghost was: Rows, ghost done: seq<DeploymentConfig>, ghost used: set<string>)
    returns (r: Result<(), TableError>)
    requires Clean(t.rows) && Updating(was, t.rows, modelID, done, used) && !LiveName(was, modelID, cd.name)
    requires |newId| == ID_LENGTH && newId !in t.rows
    modifies t
    ensures Clean(t.rows)
    ensures r.Ok? ==> Updating(was, t.rows, modelID, done + [cd], used + {newId})
    ensures r.Err? ==> t.rows == old(t.rows)
    ensures r.Ok? <==> !ContainsMarker(cd.name) && Lookup(done, cd.name).None?
  {
    ghost var before := t.rows;
    CreateAllowed(was, before, modelID, cd, done, used, newId);
    r := CreateDeployment(t, newId, modelID, cd.name, Configured(cd, true));
    if r.Ok? {
      UpdatingAfterCreate(was, before, modelID, cd, done, used, newId);
      CreateKeepsClean(before, newId, modelID, cd.name, Configured(cd, true));
    }
  }

  /** A configured name with a live row: the row takes the configured columns. */
  method SyncExisting(t: Table<Fields>, modelID: string, cd: DeploymentConfig, id: string,
                      ghost was: Rows, ghost done: seq<DeploymentConfig>, ghost used: set<string>)
    requires Clean(t.rows) && Updating(was, t.rows, modelID, done, used) && OnlyRowOfName(was, modelID, cd.name, id)
    modifies t
    ensures Clean(t.rows) && Updating(was, t.rows, modelID, done + [cd], used)
  {
    hide Lookup, AfterUpdates, FreshRow;
    var changes := Changes(Some(cd.provider), Some(cd.baseURL), Some(cd.azureDeployment), Some(cd.azureAPIVersion),
                           Some(cd.gcpProject), Some(cd.gcpLocation), Some(AtLeastOne(cd.weight)), Some(cd.priority),
                           cd.piiFilter, cd.piiFilter.None?);
    var change := f => Apply(changes, f);
    ghost var before := t.rows;
    UpdatingAfterUpdate(was, t.rows, modelID, cd, done, used, id);
    var updated := t.Update(id, None, change);
    UpdateKeepsClean(before, id, None, change);
  }

  /** The table with the first `n` configured deployments dealt with, `created` of them as new rows. */
  ghost predicate Stage(was: Rows, rows: Rows, modelID: string, cfg: seq<DeploymentConfig>, ids: seq<string>,
                        n: int, created: int) {
    0 <= created <= n <= |cfg| && n <= |ids| &&
    exists done, used :: done == cfg[..n] && used == FirstIds(ids, created) &&
      Clean(rows) && Updating(was, rows, modelID, done, used)
  }

  /** One configured deployment of the first pass. */
  method SyncOne(t: Table<Fields>, modelID: string, cfg: seq<DeploymentConfig>, i: nat, ids: seq<string>, created: nat,
                 byName: map<string, string>, ghost was: Rows)
    returns (r: Result<bool, TableError>)
    requires i < |cfg| <= |ids| && FreshIds(was, ids) && IndexOf(was, modelID, byName)
    requires Stage(was, t.rows, modelID, cfg, ids, i, created)
    modifies t
    ensures r.Err? ==> t.rows == old(t.rows)
    ensures r.Ok? ==> Stage(was, t.rows, modelID, cfg, ids, i + 1, if r.value then created + 1 else created)
    ensures r.Ok? <==> Acceptable(was, modelID, cfg, i)
  {
    hide IndexOf, Lookup, FreshIds, ContainsMarker, Clean;
    var cd := cfg[i];
    NextIdIsNew(was, ids, created);
    IndexDecides(was, modelID, byName, cd.name);
    NameNotSeenBefore(cfg, i);
    assert cfg[..i] + [cd] == cfg[..i + 1];
    if cd.name !in byName {
      var one := SyncNew(t, modelID, cd, ids[created], was, cfg[..i], FirstIds(ids, created));
      r := if one.Ok? then Ok(true) else Err(one.error);
    } else {
      SyncExisting(t, modelID, cd, byName[cd.name], was, cfg[..i], FirstIds(ids, created));
      r := Ok(false);
    }
  }

  /** The first pass: create and update. */
  method UpdatePass(t: Table<Fields>, modelID: string, cfg: seq<DeploymentConfig>, ids: seq<string>,
                    byName: map<string, string>)
    returns (r: Result<(), TableError>, created: nat, seen: set<string>, ghost done: nat)
    requires Clean(t.rows) && FreshIds(t.rows, ids) && |ids| >= |cfg| && IndexOf(t.rows, modelID, byName)
    modifies t
    ensures Stage(old(t.rows), t.rows, modelID, cfg, ids, done, created)
    ensures r.Ok? ==> done == |cfg| && SeenOf(cfg, seen)
    ensures r.Ok? ==> forall k :: 0 <= k < |cfg| ==> Acceptable(old(t.rows), modelID, cfg, k)
    ensures r.Err? ==> FirstRefused(old(t.rows), modelID, cfg, done)
  {
    hide Acceptable, Stage, SeenOf, IndexOf, FreshIds, Clean;
    ghost var was := t.rows;
    StageStarts(was, modelID, cfg, ids);
    created, seen, done := 0, {}, 0;
    for i := 0 to |cfg|
      invariant done == i && Stage(was, t.rows, modelID, cfg, ids, i, created) && SeenOf(cfg[..i], seen)
      invariant forall k :: 0 <= k < i ==> Acceptable(was, modelID, cfg, k)
    {
      SeenAppend(cfg, i, seen);
      seen := seen + {cfg[i].name};
      var one := SyncOne(t, modelID, cfg, i, ids, created, byName, was);
      if one.Err? {
        return Err(one.error), created, seen, done;
      }
      created := if one.value then created + 1 else created;
      done := i + 1;
    }
    assert cfg[..|cfg|] == cfg;
    r := Ok(());
  }

  /** The table with the first `n` listed deployments looked at. */
  ghost predicate DeleteStage(middle: Rows, rows: Rows, cfg: seq<DeploymentConfig>, listed: seq<string>, n: int) {
    0 <= n <= |listed| &&
    exists handled :: handled == listed[..n] && Clean(rows) && Deleting(middle, rows, cfg, handled)
  }

  /** The second pass for one listed deployment. */
  method DeleteUnseen(t: Table<Fields>, cfg: seq<DeploymentConfig>, seen: set<string>, listed: seq<string>, i: nat,
                      ghost middle: Rows)
    requires i < |listed| && DeleteStage(middle, t.rows, cfg, listed, i) && SeenOf(cfg, seen)
    requires IsLive(middle, listed[i]) && listed[i] !in listed[..i]
    modifies t
    ensures DeleteStage(middle, t.rows, cfg, listed, i + 1)
  {
    hide Clean, Deleting, Deleted, Lookup;
    var id := listed[i];
    SliceNext(listed, i);
    DeleteOne(middle, t.rows, cfg, listed[..i], id);
    if t.rows[id].name !in seen {
      var deleted := t.Delete(id);
    }
  }

  /** The second pass: delete what is no longer configured. */
  method DeletePass(t: Table<Fields>, cfg: seq<DeploymentConfig>, seen: set<string>, listed: seq<string>)
    requires Clean(t.rows) && SeenOf(cfg, seen)
    requires forall i :: 0 <= i < |listed| ==> IsLive(t.rows, listed[i])
    requires forall i, j :: 0 <= i < j < |listed| ==> listed[i] != listed[j]
    modifies t
    ensures DeleteStage(old(t.rows), t.rows, cfg, listed, |listed|)
  {
    ghost var middle := t.rows;
    assert Deleting(middle, middle, cfg, listed[..0]);
    for i := 0 to |listed|
      invariant DeleteStage(middle, t.rows, cfg, listed, i)
    {
      DeleteUnseen(t, cfg, seen, listed, i, middle);
    }
  }

  method SyncYAMLDeployments(t: Table<Fields>, modelID: string, cfg: seq<DeploymentConfig>, ids: seq<string>)
    returns (r: Result<(), TableError>, ghost created: nat)
    requires Clean(t.rows) && FreshIds(t.rows, ids) && |ids| >= |cfg|
    modifies t
    ensures Clean(t.rows)
    ensures r.Ok? <==> forall k :: 0 <= k < |cfg| ==> Acceptable(old(t.rows), modelID, cfg, k)
    ensures r.Ok? ==> SyncResult(old(t.rows), t.rows, modelID, cfg)
    ensures r.Ok? ==> created <= |ids| && t.rows.Keys == old(t.rows.Keys) + FirstIds(ids, created)
    ensures r.Err? ==> exists k: nat, n: nat ::
      FirstRefused(old(t.rows), modelID, cfg, k) && Stage(old(t.rows), t.rows, modelID, cfg, ids, k, n)
  {
    ghost var was := t.rows;
    var listed := ListDeployments(t, modelID);
    var byName := BuildIndex(t, modelID, listed);
    var used, seen;
    ghost var done;
    r, used, seen, done := UpdatePass(t, modelID, cfg, ids, byName);
    created := used;
    if r.Err? {
      return;
    }
    assert cfg[..|cfg|] == cfg && listed[..|listed|] == listed;
    ghost var middle := t.rows;
    ListedStayLive(was, middle, modelID, cfg, listed, FirstIds(ids, created));
    DeletePass(t, cfg, seen, listed);
    SyncIsComplete(was, middle, t.rows, modelID, cfg, listed, FirstIds(ids, created));
  }

  // ---------------------------------------------------------------------------------------------------
  // Steps of the reconciliation
  // ---------------------------------------------------------------------------------------------------

  lemma LookupAppend(done: seq<DeploymentConfig>, cd: DeploymentConfig, name: string)
    ensures Lookup(done + [cd], name) == if name == cd.name then Some(cd) else Lookup(done, name)
  {
    assert Front(done + [cd]) == done && Last(done + [cd]) == cd;
  }

  lemma FreshRowStays(row: Row<Fields>, modelID: string, done: seq<DeploymentConfig>, cd: DeploymentConfig)
    requires FreshRow(row, modelID, done) && row.name != cd.name
    ensures FreshRow(row, modelID, done + [cd])
  {
    LookupAppend(done, cd, row.name);
  }

  lemma {:induction false} LookupFinds(cfg: seq<DeploymentConfig>, name: string)
    ensures Lookup(cfg, name).Some? ==> Lookup(cfg, name).value in cfg && Lookup(cfg, name).value.name == name
    ensures Lookup(cfg, name).None? ==> forall cd :: cd in cfg ==> cd.name != name
  {
    if cfg != [] {
      LookupFinds(Front(cfg), name);
    }
  }

  lemma SliceNext(listed: seq<string>, i: nat)
    requires i < |listed|
    ensures listed[..i] + [listed[i]] == listed[..i + 1]
  {
  }

  lemma StageStarts(was: Rows, modelID: string, cfg: seq<DeploymentConfig>, ids: seq<string>)
    requires Clean(was) && |cfg| <= |ids|
    ensures Stage(was, was, modelID, cfg, ids, 0, 0) && SeenOf(cfg[..0], {})
  {
    assert Updating(was, was, modelID, cfg[..0], FirstIds(ids, 0));
  }

  lemma SeenAppend(cfg: seq<DeploymentConfig>, i: nat, seen: set<string>)
    requires i < |cfg| && SeenOf(cfg[..i], seen)
    ensures SeenOf(cfg[..i + 1], seen + {cfg[i].name})
  {
    assert cfg[..i] + [cfg[i]] == cfg[..i + 1];
    forall name
      ensures name in seen + {cfg[i].name} <==> Lookup(cfg[..i + 1], name).Some?
    {
      LookupAppend(cfg[..i], cfg[i], name);
    }
  }

  lemma NextIdIsNew(was: Rows, ids: seq<string>, n: nat)
    requires FreshIds(was, ids) && n < |ids|
    ensures ids[n] !in was && ids[n] !in FirstIds(ids, n) && |ids[n]| == ID_LENGTH
    ensures FirstIds(ids, n + 1) == FirstIds(ids, n) + {ids[n]}
  {
  }

  lemma IndexDecides(was: Rows, modelID: string, byName: map<string, string>, name: string)
    requires IndexOf(was, modelID, byName)
    ensures name !in byName ==> !LiveName(was, modelID, name)
    ensures name in byName ==> OnlyRowOfName(was, modelID, name, byName[name])
  {
  }

  lemma NameNotSeenBefore(cfg: seq<DeploymentConfig>, i: nat)
    requires i < |cfg|
    ensures Lookup(cfg[..i], cfg[i].name).None? <==> forall j :: 0 <= j < i ==> cfg[j].name != cfg[i].name
  {
    LookupFinds(cfg[..i], cfg[i].name);
    assert forall j :: 0 <= j < i ==> cfg[j] in cfg[..i];
  }

  /** A configuration that internal/config accepts is always carried out. */
  lemma ValidIsAcceptable(was: Rows, modelID: string, cfg: seq<DeploymentConfig>)
    requires ValidConfig(cfg)
    ensures forall k :: 0 <= k < |cfg| ==> Acceptable(was, modelID, cfg, k)
  {
  }

  lemma ListedStayLive(was: Rows, rows: Rows, modelID: string, done: seq<DeploymentConfig>, listed: seq<string>,
                       used: set<string>)
    requires Updating(was, rows, modelID, done, used)
    requires forall id :: id in listed <==> LiveIn(was, modelID, id)
    ensures forall i :: 0 <= i < |listed| ==> IsLive(rows, listed[i])
  {
    forall i | 0 <= i < |listed|
      ensures IsLive(rows, listed[i])
    {
      assert LiveIn(was, modelID, listed[i]);
    }
  }

  lemma CreateAllowed(was: Rows, rows: Rows, modelID: string, cd: DeploymentConfig,
                      done: seq<DeploymentConfig>, used: set<string>, newId: string)
    requires Clean(rows) && Updating(was, rows, modelID, done, used) && !LiveName(was, modelID, cd.name)
    requires |newId| == ID_LENGTH && newId !in rows
    ensures !ContainsMarker(cd.name) ==> (Lookup(done, cd.name).None? <==> !Taken(rows, modelID, cd.name, newId))
  {
    WhoTakesAName(rows, modelID, cd.name, newId);
    LookupFinds(done, cd.name);
    if Lookup(done, cd.name).Some? {
      assert LiveName(rows, modelID, cd.name);
    }
    forall jd | IsLive(rows, jd) && rows[jd].scope == modelID && rows[jd].name == cd.name
      ensures Lookup(done, cd.name).Some?
    {
      RowIsNew(was, rows, modelID, cd, done, used, jd);
    }
  }

  lemma RowIsNew(was: Rows, rows: Rows, modelID: string, cd: DeploymentConfig,
                 done: seq<DeploymentConfig>, used: set<string>, jd: string)
    requires Updating(was, rows, modelID, done, used) && !LiveName(was, modelID, cd.name)
    requires LiveIn(rows, modelID, jd) && rows[jd].name == cd.name
    ensures jd !in was
  {
  }

  lemma UpdatingAfterCreate(was: Rows, rows: Rows, modelID: string, cd: DeploymentConfig,
                            done: seq<DeploymentConfig>, used: set<string>, newId: string)
    requires Updating(was, rows, modelID, done, used) && !LiveName(was, modelID, cd.name)
    requires newId !in rows && !Taken(rows, modelID, cd.name, newId)
    ensures Updating(was, rows[newId := Row(modelID, cd.name, Configured(cd, true), false)], modelID,
                     done + [cd], used + {newId})
  {
    hide Lookup, AfterUpdates, Configured;
    var after := rows[newId := Row(modelID, cd.name, Configured(cd, true), false)];
    forall id | id in was
      ensures after[id] == AfterUpdates(was[id], modelID, done + [cd])
    {
      OldRowAfterUpdate(was[id], rows[id], modelID, cd, done);
      assert !(LiveIn(was, modelID, id) && was[id].name == cd.name);
    }
    forall id | id in used + {newId}
      ensures FreshRow(after[id], modelID, done + [cd]) && !LiveName(was, modelID, after[id].name)
    {
      if id == newId {
        LookupAppend(done, cd, cd.name);
      } else {
        FreshRowStays(rows[id], modelID, done, cd);
      }
    }
    assert LiveIn(after, modelID, newId) && after[newId].name == cd.name;
    LiveNamesStay(rows, after, modelID, done);
  }

  lemma LiveNamesStay(rows: Rows, after: Rows, modelID: string, done: seq<DeploymentConfig>)
    requires forall id :: LiveIn(rows, modelID, id) ==> LiveIn(after, modelID, id) && after[id].name == rows[id].name
    requires forall cd :: cd in done ==> LiveName(rows, modelID, cd.name)
    ensures forall cd :: cd in done ==> LiveName(after, modelID, cd.name)
  {
    forall cd | cd in done
      ensures LiveName(after, modelID, cd.name)
    {
      var id :| LiveIn(rows, modelID, id) && rows[id].name == cd.name;
      assert LiveIn(after, modelID, id);
    }
  }

  lemma UpdatingAfterUpdate(was: Rows, rows: Rows, modelID: string, cd: DeploymentConfig,
                            done: seq<DeploymentConfig>, used: set<string>, id: string)
    requires Updating(was, rows, modelID, done, used) && OnlyRowOfName(was, modelID, cd.name, id)
    ensures IsLive(rows, id)
    ensures Updating(was, rows[id := rows[id].(fields := Configured(cd, rows[id].fields.isActive))], modelID,
                     done + [cd], used)
  {
    hide Lookup, Configured;
    var after := rows[id := rows[id].(fields := Configured(cd, rows[id].fields.isActive))];
    forall jd | jd in was
      ensures after[jd] == AfterUpdates(was[jd], modelID, done + [cd])
    {
      OldRowAfterUpdate(was[jd], rows[jd], modelID, cd, done);
      assert jd != id ==> !(LiveIn(was, modelID, jd) && was[jd].name == cd.name);
    }
    assert LiveName(was, modelID, cd.name);
    forall jd | jd in used
      ensures FreshRow(rows[jd], modelID, done + [cd])
    {
      FreshRowStays(rows[jd], modelID, done, cd);
    }
    assert LiveIn(after, modelID, id) && after[id].name == cd.name;
    LiveNamesStay(rows, after, modelID, done);
  }

  lemma OldRowAfterUpdate(was: Row<Fields>, row: Row<Fields>, modelID: string, cd: DeploymentConfig,
                          done: seq<DeploymentConfig>)
    requires row == AfterUpdates(was, modelID, done)
    ensures !was.deleted && was.scope == modelID && was.name == cd.name ==>
      AfterUpdates(was, modelID, done + [cd]) == row.(fields := Configured(cd, row.fields.isActive))
    ensures was.deleted || was.scope != modelID || was.name != cd.name ==>
      AfterUpdates(was, modelID, done + [cd]) == row
  {
    LookupAppend(done, cd, was.name);
  }

  function Buried(id: string, row: Row<Fields>): Row<Fields> {
    row.(name := Mangle(row.name, id), deleted := true)
  }

  /** The table part of the way through the second pass. */
  ghost predicate Deleting(middle: Rows, rows: Rows, cfg: seq<DeploymentConfig>, handled: seq<string>) {
    && rows.Keys == middle.Keys
    && (forall id :: id in rows ==> rows[id] == AfterDelete(id, middle[id], cfg, handled))
  }

  function AfterDelete(id: string, row: Row<Fields>, cfg: seq<DeploymentConfig>, handled: seq<string>): Row<Fields> {
    if id in handled && Lookup(cfg, row.name).None? then Buried(id, row) else row
  }

  lemma DeleteOne(middle: Rows, rows: Rows, cfg: seq<DeploymentConfig>, handled: seq<string>, id: string)
    requires Clean(rows) && Deleting(middle, rows, cfg, handled)
    requires IsLive(middle, id) && id !in handled
    ensures IsLive(rows, id) && rows[id] == middle[id]
    ensures Lookup(cfg, rows[id].name).None? ==>
      Deleted(rows, id).Ok? && Clean(Deleted(rows, id).value) &&
      Deleting(middle, Deleted(rows, id).value, cfg, handled + [id])
    ensures Lookup(cfg, rows[id].name).Some? ==> Deleting(middle, rows, cfg, handled + [id])
  {
    if Lookup(cfg, rows[id].name).None? {
      DeleteNeverConflicts(rows, id);
      DeleteKeepsClean(rows, id);
      DeletingNext(middle, rows, cfg, handled, id);
    }
  }

  lemma DeletingNext(middle: Rows, rows: Rows, cfg: seq<DeploymentConfig>, handled: seq<string>, id: string)
    requires Deleting(middle, rows, cfg, handled) && id in rows && id !in handled && Lookup(cfg, rows[id].name).None?
    ensures Deleting(middle, rows[id := Buried(id, rows[id])], cfg, handled + [id])
  {
  }

  lemma SyncIsComplete(was: Rows, middle: Rows, rows: Rows, modelID: string, cfg: seq<DeploymentConfig>,
                       listed: seq<string>, used: set<string>)
    requires Updating(was, middle, modelID, cfg, used) && Deleting(middle, rows, cfg, listed)
    requires forall id :: id in listed <==> LiveIn(was, modelID, id)
    ensures SyncResult(was, rows, modelID, cfg)
  {
    forall id | id in was
      ensures rows[id] == Reconciled(id, was[id], modelID, cfg)
    {
      assert id in listed <==> LiveIn(was, modelID, id);
    }
    forall id | LiveIn(middle, modelID, id) && Lookup(cfg, middle[id].name).Some?
      ensures LiveIn(rows, modelID, id) && rows[id].name == middle[id].name
    {
    }
    forall cd | cd in cfg
      ensures LiveName(rows, modelID, cd.name)
    {
      LookupFinds(cfg, cd.name);
      var id :| LiveIn(middle, modelID, id) && middle[id].name == cd.name;
      assert LiveIn(rows, modelID, id);
    }
  }

  // ---------------------------------------------------------------------------------------------------
  // What reconciliation promises
  // ---------------------------------------------------------------------------------------------------

  /** A row shows what the configuration says, column by column; a weight below one counts as one. */
  predicate ShowsColumns(f: Fields, cd: DeploymentConfig) {
    && f.provider == cd.provider && f.baseURL == cd.baseURL
    && f.azureDeployment == cd.azureDeployment && f.azureAPIVersion == cd.azureAPIVersion
    && f.gcpProject == cd.gcpProject && f.gcpLocation == cd.gcpLocation
    && f.weight >= 1 && (f.weight == cd.weight || (cd.weight < 1 && f.weight == 1))
    && f.priority == cd.priority && f.piiFilter == cd.piiFilter
  }

  /** The model's live deployments are exactly the configured ones, with the configured columns; a new one is active. */
  lemma LiveAreTheConfigured(was: Rows, rows: Rows, modelID: string, cfg: seq<DeploymentConfig>, id: string)
    requires ValidConfig(cfg) && SyncResult(was, rows, modelID, cfg)
    ensures LiveIn(rows, modelID, id) ==>
      exists cd :: cd in cfg && rows[id].name == cd.name && ShowsColumns(rows[id].fields, cd)
    ensures LiveIn(rows, modelID, id) && id !in was ==> rows[id].fields.isActive
    ensures forall cd :: cd in cfg ==> LiveName(rows, modelID, cd.name)
  {
    if LiveIn(rows, modelID, id) {
      LookupFinds(cfg, rows[id].name);
      assert Lookup(cfg, rows[id].name).Some?;
    }
  }

  /** A configured name that was live keeps its row, and with it its id and whether it is active; a live name that is no
      longer configured is deleted and still shows its name. */
  lemma NamesKeepTheirRows(was: Rows, rows: Rows, modelID: string, cfg: seq<DeploymentConfig>, id: string)
    requires Clean(was) && SyncResult(was, rows, modelID, cfg) && LiveIn(was, modelID, id)
    ensures (exists cd :: cd in cfg && cd.name == was[id].name) ==>
      LiveIn(rows, modelID, id) && rows[id].name == was[id].name && rows[id].fields.isActive == was[id].fields.isActive
    ensures !(exists cd :: cd in cfg && cd.name == was[id].name) ==>
      id in rows && rows[id].deleted && ShownName(rows, id) == was[id].name && rows[id].fields == was[id].fields
  {
    StripUndoesMangle(was[id].name, id);
    LookupFinds(cfg, was[id].name);
  }

  /** Other models' rows, and rows deleted before, are left alone. */
  lemma OthersUntouched(was: Rows, rows: Rows, modelID: string, cfg: seq<DeploymentConfig>, id: string)
    requires SyncResult(was, rows, modelID, cfg) && !LiveIn(was, modelID, id)
    ensures id in was ==> id in rows && rows[id] == was[id]
    ensures id !in was && id in rows ==> rows[id].scope == modelID
  {
  }

  /** Reconciling another model afterwards leaves a model as its own reconciliation left it, so after all models were
      reconciled, one after the other, each has what it is configured to have. */
  lemma ModelsDoNotInterfere(was: Rows, middle: Rows, rows: Rows, modelID: string, otherID: string,
                             cfg: seq<DeploymentConfig>, otherCfg: seq<DeploymentConfig>)
    requires SyncResult(was, middle, modelID, cfg) && SyncResult(middle, rows, otherID, otherCfg)
    requires modelID != otherID
    ensures forall id :: LiveIn(rows, modelID, id) <==> LiveIn(middle, modelID, id)
    ensures forall id :: LiveIn(middle, modelID, id) ==> rows[id] == middle[id]
    ensures forall cd :: cd in cfg ==> LiveName(rows, modelID, cd.name)
  {
    forall id
      ensures LiveIn(rows, modelID, id) <==> LiveIn(middle, modelID, id)
      ensures LiveIn(middle, modelID, id) ==> rows[id] == middle[id]
    {
      if !LiveIn(middle, otherID, id) {
        OthersUntouched(middle, rows, otherID, otherCfg, id);
      }
    }
    LiveNamesStay(middle, rows, modelID, cfg);
  }

  /** A second reconciliation with the same configuration changes nothing: it creates and deletes no row. */
  lemma SecondSyncChangesNothing(was: Rows, between: Rows, rows: Rows, modelID: string, cfg: seq<DeploymentConfig>)
    requires SyncResult(was, between, modelID, cfg) && SyncResult(between, rows, modelID, cfg)
    ensures rows == between
  {
    forall id | id in between
      ensures rows[id] == between[id]
    {
    }
    forall id | id in rows
      ensures id in between
    {
      LookupFinds(cfg, rows[id].name);
    }
  }
}
