/** Explicit access to global MCP servers: the three tables (internal/db/mcp_access.go) and the in-memory copy the hot
  path asks instead (internal/proxy/mcp_access_cache.go). */
module MCPAccess {
  import opened Common

  /** A row allows an organisation, a team or a key one server. */
  datatype Entry = Entry(entity: string, serverID: string)

  datatype Tables = Tables(orgs: seq<Entry>, teams: seq<Entry>, keys: seq<Entry>)

  /** Which of the three reads of a check fail. */
  datatype Faults = Faults(orgFails: bool, teamFails: bool, keyFails: bool)

  const NO_FAULTS := Faults(false, false, false)

  datatype Error = ReadFailed | WriteFailed

  function Allowed(entries: seq<Entry>, entity: string): seq<string> {
    if entries == [] then []
    else Allowed(Front(entries), entity) + if Last(entries).entity == entity then [Last(entries).serverID] else []
  }

  function CheckMCPAccess(t: Tables, faults: Faults, orgID: string, teamID: string, keyID: string, serverID: string)
    : (r: Result<bool, Error>)
  {
    if faults.orgFails then Err(ReadFailed)
    else
      var orgAccess := Allowed(t.orgs, orgID);
      if |orgAccess| == 0 || serverID !in orgAccess then Ok(false)
      else if teamID != "" && faults.teamFails then Err(ReadFailed)
      else
        var teamAccess := Allowed(t.teams, teamID);
        if teamID != "" && |teamAccess| > 0 && serverID !in teamAccess then Ok(false)
        else if faults.keyFails then Err(ReadFailed)
        else
          var keyAccess := Allowed(t.keys, keyID);
          if |keyAccess| > 0 && serverID !in keyAccess then Ok(false) else Ok(true)
  }

  /** The policy in one line: the organisation must list the server, and no list of the team or the key may lack it. */
  predicate Grants(t: Tables, orgID: string, teamID: string, keyID: string, serverID: string) {
    && serverID in Allowed(t.orgs, orgID)
    && (teamID == "" || Allowed(t.teams, teamID) == [] || serverID in Allowed(t.teams, teamID))
    && (Allowed(t.keys, keyID) == [] || serverID in Allowed(t.keys, keyID))
  }

  predicate TeamRefuses(t: Tables, teamID: string, serverID: string) {
    teamID != "" && Allowed(t.teams, teamID) != [] && serverID !in Allowed(t.teams, teamID)
  }

  /** A check answers by the policy or fails; when no read fails it answers. It fails on the first read that fails before
      a list has refused; the team's list is read only for a caller with a team. */
  lemma CheckFollowsPolicy(t: Tables, faults: Faults, orgID: string, teamID: string, keyID: string, serverID: string)
    ensures var r := CheckMCPAccess(t, faults, orgID, teamID, keyID, serverID);
      && (r.Ok? ==> r.value == Grants(t, orgID, teamID, keyID, serverID))
      && (faults == NO_FAULTS ==> r.Ok?)
      && (r.Err? <==>
           || faults.orgFails
           || (serverID in Allowed(t.orgs, orgID) &&
               (if teamID != "" && faults.teamFails then true
                else faults.keyFails && !TeamRefuses(t, teamID, serverID))))
  {
  }

  // ---------------------------------------------------------------------------------------------------
  // Replacing a list
  // ---------------------------------------------------------------------------------------------------

  predicate Repeats(serverIDs: seq<string>) {
    exists i, j :: 0 <= i < j < |serverIDs| && serverIDs[i] == serverIDs[j]
  }

  function Without(entries: seq<Entry>, entity: string): seq<Entry> {
    if entries == [] then []
    else if Last(entries).entity == entity then Without(Front(entries), entity)
    else Without(Front(entries), entity) + [Last(entries)]
  }

  lemma {:induction false} WithoutKeepsOthers(entries: seq<Entry>, entity: string, other: string)
    ensures Allowed(Without(entries, entity), other) == if other == entity then [] else Allowed(entries, other)
  {
    if entries != [] {
      WithoutKeepsOthers(Front(entries), entity, other);
      if Last(entries).entity != entity {
        AllowedGrows(Without(Front(entries), entity), Last(entries), other);
      }
    }
  }

  lemma AllowedGrows(entries: seq<Entry>, e: Entry, entity: string)
    ensures Allowed(entries + [e], entity) == Allowed(entries, entity) + if e.entity == entity then [e.serverID] else []
  {
    assert Front(entries + [e]) == entries;
  }

  /** SetOrgMCPAccess and its two siblings: in one transaction the entity's rows are deleted and the new ones inserted. A
      server named twice breaks the UNIQUE constraint, and nothing changes. */
  method SetAccess(entries: seq<Entry>, entity: string, serverIDs: seq<string>) returns (r: Result<seq<Entry>, Error>)
    ensures r.Ok? <==> !Repeats(serverIDs)
    ensures r.Ok? ==> forall e :: Allowed(r.value, e) == if e == entity then serverIDs else Allowed(entries, e)
  {
    hide Allowed;
    var rows := Without(entries, entity);
    forall e
      ensures Allowed(rows, e) == if e == entity then [] else Allowed(entries, e)
    {
      WithoutKeepsOthers(entries, entity, e);
    }
    for i := 0 to |serverIDs|
      invariant !Repeats(serverIDs[..i])
      invariant forall e :: Allowed(rows, e) == if e == entity then serverIDs[..i] else Allowed(entries, e)
    {
      if serverIDs[i] in Allowed(rows, entity) {
        return Err(WriteFailed);
      }
      forall e
        ensures Allowed(rows + [Entry(entity, serverIDs[i])], e) ==
                Allowed(rows, e) + if e == entity then [serverIDs[i]] else []
      {
        AllowedGrows(rows, Entry(entity, serverIDs[i]), e);
      }
      rows := rows + [Entry(entity, serverIDs[i])];
    }
    assert serverIDs[..|serverIDs|] == serverIDs;
    return Ok(rows);
  }

  // ---------------------------------------------------------------------------------------------------
  // The cache
  // ---------------------------------------------------------------------------------------------------

  /** The entries grouped by entity. */
  function Grouped(entries: seq<Entry>): map<string, seq<string>> {
    if entries == [] then map[]
    else
      var m := Grouped(Front(entries));
      var e := Last(entries);
      m[e.entity := (if e.entity in m then m[e.entity] else []) + [e.serverID]]
  }

  method LoadAccessMap(entries: seq<Entry>) returns (result: map<string, seq<string>>)
    ensures result == Grouped(entries)
  {
    result := map[];
    for i := 0 to |entries|
      invariant result == Grouped(entries[..i])
    {
      var e := entries[i];
      assert Front(entries[..i + 1]) == entries[..i] && Last(entries[..i + 1]) == e;
      result := result[e.entity := (if e.entity in result then result[e.entity] else []) + [e.serverID]];
    }
    assert entries[..|entries|] == entries;
  }

  /** Each entity is mapped to what it is allowed, and is absent when that is nothing. */
  lemma {:induction false} GroupedIsAllowed(entries: seq<Entry>, entity: string)
    ensures (if entity in Grouped(entries) then Grouped(entries)[entity] else []) == Allowed(entries, entity)
    ensures entity in Grouped(entries) <==> Allowed(entries, entity) != []
  {
    if entries != [] {
      GroupedIsAllowed(Front(entries), entity);
    }
  }

  class MCPAccessCache {
    var orgAllow: map<string, set<string>>
    var teamAllow: map<string, set<string>>
    var keyAllow: map<string, set<string>>

    constructor ()
      ensures Reflects(Tables([], [], []))
    {
      orgAllow, teamAllow, keyAllow := map[], map[], map[];
    }

    /** The cache holds what the tables did when it was loaded. */
    ghost predicate Reflects(t: Tables)
      reads this
    {
      && orgAllow == SetMap(Grouped(t.orgs))
      && teamAllow == SetMap(Grouped(t.teams))
      && keyAllow == SetMap(Grouped(t.keys))
    }

    method Load(t: Tables)
      modifies this
      ensures Reflects(t)
    {
      var orgs := LoadAccessMap(t.orgs);
      var teams := LoadAccessMap(t.teams);
      var keys := LoadAccessMap(t.keys);
      orgAllow := ToSetMap(orgs);
      teamAllow := ToSetMap(teams);
      keyAllow := ToSetMap(keys);
    }

    /** The cached check gives the answer of the tables it was loaded from. */
    method Check(orgID: string, teamID: string, keyID: string, serverID: string, ghost t: Tables) returns (ok: bool)
      requires Reflects(t)
      ensures ok == Grants(t, orgID, teamID, keyID, serverID)
    {
      SetMapKeepsEntries(t.orgs, orgID);
      SetMapKeepsEntries(t.teams, teamID);
      SetMapKeepsEntries(t.keys, keyID);
      if orgID !in orgAllow || |orgAllow[orgID]| == 0 || serverID !in orgAllow[orgID] {
        return false;
      }
      if teamID != "" {
        if teamID in teamAllow && |teamAllow[teamID]| > 0 {
          if serverID !in teamAllow[teamID] {
            return false;
          }
        }
      }
      if keyID in keyAllow && |keyAllow[keyID]| > 0 {
        if serverID !in keyAllow[keyID] {
          return false;
        }
      }
      return true;
    }
  }

  function Elements(s: seq<string>): set<string> {
    set x | x in s
  }

  function SetMap(m: map<string, seq<string>>): map<string, set<string>> {
    map e | e in m :: Elements(m[e])
  }

  method ToSetMap(m: map<string, seq<string>>) returns (out: map<string, set<string>>)
    ensures out == SetMap(m)
  {
    out := map[];
    var rest := m.Keys;
    while rest != {}
      invariant rest <= m.Keys && out == map e | e in m && e !in rest :: Elements(m[e])
      decreases |rest|
    {
      var id :| id in rest;
      rest := rest - {id};
      var elements := {};
      for i := 0 to |m[id]|
        invariant elements == Elements(m[id][..i])
      {
        elements := elements + {m[id][i]};
      }
      assert m[id][..|m[id]|] == m[id];
      out := out[id := elements];
    }
  }

  lemma SetMapKeepsEntries(entries: seq<Entry>, entity: string)
    ensures var m := SetMap(Grouped(entries));
      && (entity in m <==> Allowed(entries, entity) != [])
      && (entity in m ==> m[entity] != {} && forall x :: x in m[entity] <==> x in Allowed(entries, entity))
  {
    GroupedIsAllowed(entries, entity);
    if entity in Grouped(entries) {
      assert Allowed(entries, entity)[0] in Elements(Allowed(entries, entity));
    }
  }
}
