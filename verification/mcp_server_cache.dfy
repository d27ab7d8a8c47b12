/** The in-memory copy of the active MCP servers (internal/proxy/mcp_server_cache.go), keyed "alias:orgID:teamID". */
module MCPServerCaching {
  import opened Common
  import opened MCPServers

  function Key(alias: string, orgID: string, teamID: string): string {
    alias + ":" + orgID + ":" + teamID
  }

  function KeyOf(s: MCPServer): string {
    Key(s.alias, Coalesce(s.orgID), Coalesce(s.teamID))
  }

  /** The map LoadAll builds; a later server replaces an earlier one with the same key. */
  function Loaded(servers: seq<MCPServer>): map<string, MCPServer> {
    if servers == [] then map[] else Loaded(Front(servers))[KeyOf(Last(servers)) := Last(servers)]
  }

  function Find(servers: map<string, MCPServer>, key: string): Option<MCPServer> {
    if key in servers then Some(servers[key]) else None
  }

  /** The lookup of the hot path: team, then organisation, then global. */
  function Lookup(servers: map<string, MCPServer>, alias: string, orgID: string, teamID: string): Option<MCPServer> {
    if teamID != "" && orgID != "" && Key(alias, orgID, teamID) in servers then Find(servers, Key(alias, orgID, teamID))
    else if orgID != "" && Key(alias, orgID, "") in servers then Find(servers, Key(alias, orgID, ""))
    else Find(servers, Key(alias, "", ""))
  }

  class MCPServerCache {
    var servers: map<string, MCPServer>

    ghost predicate Valid()
      reads this
    {
      forall key :: key in servers ==> KeyOf(servers[key]) == key
    }

    constructor ()
      ensures Valid() && servers == map[]
    {
      servers := map[];
    }

    method LoadAll(list: seq<MCPServer>)
      modifies this
      ensures Valid() && servers == Loaded(list)
    {
      var next: map<string, MCPServer> := map[];
      for i := 0 to |list|
        invariant next == Loaded(list[..i])
        invariant forall key :: key in next ==> KeyOf(next[key]) == key
      {
        assert Front(list[..i + 1]) == list[..i] && Last(list[..i + 1]) == list[i];
        next := next[KeyOf(list[i]) := list[i]];
      }
      assert list[..|list|] == list;
      servers := next;
    }

    method Get(alias: string, orgID: string, teamID: string) returns (r: Option<MCPServer>)
      ensures r == Lookup(servers, alias, orgID, teamID)
    {
      if teamID != "" && orgID != "" {
        var key := alias + ":" + orgID + ":" + teamID;
        if key in servers {
          return Some(servers[key]);
        }
      }
      if orgID != "" {
        var key := alias + ":" + orgID + ":";
        assert key == Key(alias, orgID, "");
        if key in servers {
          return Some(servers[key]);
        }
      }
      var key := alias + "::";
      assert key == Key(alias, "", "");
      if key in servers {
        return Some(servers[key]);
      }
      return None;
    }

    /** Every cached server once, in whatever order the map is walked. */
    method List() returns (out: seq<MCPServer>)
      requires Valid()
      ensures forall r :: r in out <==> r in servers.Values
      ensures forall i, j :: 0 <= i < j < |out| ==> out[i] != out[j]
    {
      hide KeyOf;
      out := [];
      var rest := servers.Keys;
      while rest != {}
        invariant rest <= servers.Keys
        invariant forall key :: key in servers && key !in rest ==> servers[key] in out
        invariant forall r :: r in out ==> KeyOf(r) in servers && KeyOf(r) !in rest && servers[KeyOf(r)] == r
        invariant forall i, j :: 0 <= i < j < |out| ==> out[i] != out[j]
        decreases |rest|
      {
        var key :| key in rest;
        rest := rest - {key};
        out := out + [servers[key]];
      }
    }
  }

  // ---------------------------------------------------------------------------------------------------
  // The cache against the table
  // ---------------------------------------------------------------------------------------------------

  predicate ColonFree(id: string) {
    forall i :: 0 <= i < |id| ==> id[i] != ':'
  }

  /** Stored organisation and team ids are non-empty and hold no colon, as UUIDs do. */
  ghost predicate PlainScopes(rows: set<MCPServer>) {
    ScopesNonEmpty(rows) && forall r :: r in rows ==> ColonFree(Coalesce(r.orgID)) && ColonFree(Coalesce(r.teamID))
  }

  /** Text before the last colon and after it, when the rest holds none. */
  lemma LastColonSplits(a: string, s: string, b: string, t: string)
    requires a + ":" + s == b + ":" + t && ColonFree(s) && ColonFree(t)
    ensures a == b && s == t
  {
    var whole := a + ":" + s;
    assert whole[|a|] == ':' && whole[|b|] == ':';
    assert forall i :: |a| < i < |whole| ==> whole[i] == s[i - |a| - 1] != ':';
    assert forall i :: |b| < i < |whole| ==> whole[i] == t[i - |b| - 1] != ':';
    assert |a| == |b|;
    assert whole[..|a|] == a && whole[..|b|] == b;
    assert whole[|a| + 1..] == s && whole[|b| + 1..] == t;
  }

  /** Keys tell scopes and aliases apart even when aliases hold colons. */
  lemma KeysAreInjective(a: string, o: string, t: string, b: string, p: string, u: string)
    requires Key(a, o, t) == Key(b, p, u) && ColonFree(o) && ColonFree(t) && ColonFree(p) && ColonFree(u)
    ensures a == b && o == p && t == u
  {
    LastColonSplits(a + ":" + o, t, b + ":" + p, u);
    LastColonSplits(a, o, b, p);
  }

  /** Where keys repeat, the last server loaded stays. */
  lemma {:induction false} LastLoadedStays(list: seq<MCPServer>, key: string) returns (i: nat)
    requires key in Loaded(list)
    ensures i < |list| && KeyOf(list[i]) == key && Loaded(list)[key] == list[i]
    ensures forall j :: i < j < |list| ==> KeyOf(list[j]) != key
  {
    if KeyOf(Last(list)) == key {
      i := |list| - 1;
    } else {
      i := LastLoadedStays(Front(list), key);
    }
  }

  /** With distinct keys nothing is overwritten: the cache holds exactly the servers it was loaded with. */
  lemma {:induction false} LoadedHoldsAll(list: seq<MCPServer>, key: string)
    requires forall i, j :: 0 <= i < j < |list| ==> KeyOf(list[i]) != KeyOf(list[j])
    ensures key in Loaded(list) <==> exists s :: s in list && KeyOf(s) == key
    ensures key in Loaded(list) ==> Loaded(list)[key] in list && KeyOf(Loaded(list)[key]) == key
    ensures forall s :: s in list && KeyOf(s) == key ==> Loaded(list)[key] == s
  {
    if list != [] {
      LoadedHoldsAll(Front(list), key);
      assert list == Front(list) + [Last(list)];
    }
  }

  lemma ActiveKeysAreDistinct(rows: set<MCPServer>, list: seq<MCPServer>)
    requires Unique(rows) && PlainScopes(rows) && Lists(list, ActiveRows(rows))
    ensures forall i, j :: 0 <= i < j < |list| ==> KeyOf(list[i]) != KeyOf(list[j])
  {
    ActiveRowsAreUnique(rows, list);
    forall i, j | 0 <= i < j < |list|
      ensures KeyOf(list[i]) != KeyOf(list[j])
    {
      var r, s := list[i], list[j];
      assert r in list && s in list;
      if KeyOf(r) == KeyOf(s) {
        KeysAreInjective(r.alias, Coalesce(r.orgID), Coalesce(r.teamID), s.alias, Coalesce(s.orgID), Coalesce(s.teamID));
      }
    }
  }

  /** What the cache lists is what the table holds, so List stands in for LoadAllActiveMCPServers. */
  lemma CacheListsActiveRows(rows: set<MCPServer>, list: seq<MCPServer>)
    requires Unique(rows) && PlainScopes(rows) && Lists(list, ActiveRows(rows))
    ensures Loaded(list).Values == ActiveRows(rows)
  {
    ActiveKeysAreDistinct(rows, list);
    forall r | r in ActiveRows(rows)
      ensures r in Loaded(list).Values
    {
      LoadedHoldsAll(list, KeyOf(r));
      assert Loaded(list)[KeyOf(r)] == r;
    }
    forall r | r in Loaded(list).Values
      ensures r in ActiveRows(rows)
    {
      var key :| key in Loaded(list) && Loaded(list)[key] == r;
      LoadedHoldsAll(list, key);
    }
  }

  /** The active row under a key, if any, is the one cached. */
  lemma FindIsActiveRow(rows: set<MCPServer>, list: seq<MCPServer>, alias: string, orgID: string, teamID: string)
    requires Unique(rows) && PlainScopes(rows) && Lists(list, ActiveRows(rows)) && ColonFree(orgID) && ColonFree(teamID)
    ensures var f := Find(Loaded(list), Key(alias, orgID, teamID));
      && (f.Some? ==> f.value in ActiveRows(rows) && InScope(f.value, alias, orgID, teamID))
      && (f.None? ==> forall r :: r in ActiveRows(rows) ==> !InScope(r, alias, orgID, teamID))
  {
    ActiveKeysAreDistinct(rows, list);
    LoadedHoldsAll(list, Key(alias, orgID, teamID));
    var f := Find(Loaded(list), Key(alias, orgID, teamID));
    if f.Some? {
      var r := f.value;
      KeysAreInjective(r.alias, Coalesce(r.orgID), Coalesce(r.teamID), alias, orgID, teamID);
    }
  }

  predicate InScope(r: MCPServer, alias: string, orgID: string, teamID: string) {
    r.alias == alias && Coalesce(r.orgID) == orgID && Coalesce(r.teamID) == teamID
  }

  /** The scopes the cache tries for a caller, one after the other. */
  predicate InTriedScope(r: MCPServer, alias: string, orgID: string, teamID: string) {
    || (orgID != "" && teamID != "" && InScope(r, alias, orgID, teamID))
    || (orgID != "" && InScope(r, alias, orgID, ""))
    || InScope(r, alias, "", "")
  }

  /** They are the ones the scoped query selects from. */
  lemma SelectedScopes(rows: set<MCPServer>, r: MCPServer, alias: string, orgID: string, teamID: string)
    requires ScopesNonEmpty(rows) && r in rows
    ensures SelectedScoped(r, alias, orgID, teamID) <==> Alive(r) && InTriedScope(r, alias, orgID, teamID)
  {
  }

  ghost predicate FirstTried(rows: set<MCPServer>, alias: string, orgID: string, teamID: string, pick: Option<MCPServer>) {
    match pick
    case None => forall r :: r in ActiveRows(rows) ==> !InTriedScope(r, alias, orgID, teamID)
    case Some(p) =>
      && p in ActiveRows(rows) && InTriedScope(p, alias, orgID, teamID)
      && forall r :: r in ActiveRows(rows) && InTriedScope(r, alias, orgID, teamID) ==> ScopePriority(p) <= ScopePriority(r)
  }

  lemma LookupIsFirstTried(rows: set<MCPServer>, list: seq<MCPServer>, alias: string, orgID: string, teamID: string)
    requires Unique(rows) && PlainScopes(rows) && Lists(list, ActiveRows(rows)) && ColonFree(orgID) && ColonFree(teamID)
    ensures FirstTried(rows, alias, orgID, teamID, Lookup(Loaded(list), alias, orgID, teamID))
  {
    hide Key, Loaded;
    FindIsActiveRow(rows, list, alias, orgID, teamID);
    FindIsActiveRow(rows, list, alias, orgID, "");
    FindIsActiveRow(rows, list, alias, "", "");
  }

  /** The cached lookup returns the very row the scoped query selects. */
  lemma LookupIsScopedPick(rows: set<MCPServer>, list: seq<MCPServer>, alias: string, orgID: string, teamID: string)
    requires Unique(rows) && PlainScopes(rows) && Lists(list, ActiveRows(rows)) && ColonFree(orgID) && ColonFree(teamID)
    ensures ScopedPick(rows, alias, orgID, teamID, Lookup(Loaded(list), alias, orgID, teamID))
  {
    LookupIsFirstTried(rows, list, alias, orgID, teamID);
    FirstTriedIsScopedPick(rows, alias, orgID, teamID, Lookup(Loaded(list), alias, orgID, teamID));
  }

  lemma FirstTriedIsScopedPick(rows: set<MCPServer>, alias: string, orgID: string, teamID: string, p: Option<MCPServer>)
    requires ScopesNonEmpty(rows) && FirstTried(rows, alias, orgID, teamID, p)
    ensures ScopedPick(rows, alias, orgID, teamID, p)
  {
    forall r | r in rows
      ensures SelectedScoped(r, alias, orgID, teamID) <==> r in ActiveRows(rows) && InTriedScope(r, alias, orgID, teamID)
    {
      SelectedScopes(rows, r, alias, orgID, teamID);
    }
  }
}
