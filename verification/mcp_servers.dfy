/** The table of MCP servers (internal/db/mcp_servers.go): what its queries select, with SQL's three truth values. */
module MCPServers {
  import opened Common

  /** A row; name stands for the columns no decision looks at. */
  datatype MCPServer = MCPServer(
    id: string,
    name: string,
    alias: string,
    orgID: Option<string>,
    teamID: Option<string>,
    isActive: bool,
    source: string,
    codeModeEnabled: bool,
    deleted: bool)

  // ---------------------------------------------------------------------------------------------------
  // SQL
  // ---------------------------------------------------------------------------------------------------

  datatype Truth = True | False | Unknown

  function Of(b: bool): Truth {
    if b then True else False
  }

  function Eq(a: Option<string>, b: Option<string>): Truth {
    if a == None || b == None then Unknown else Of(a == b)
  }

  function IsNull(a: Option<string>): Truth {
    Of(a == None)
  }

  function And(p: Truth, q: Truth): Truth {
    if p == False || q == False then False else if p == True && q == True then True else Unknown
  }

  function Or(p: Truth, q: Truth): Truth {
    if p == True || q == True then True else if p == False && q == False then False else Unknown
  }

  /** Rows every query leaves out: inactive and deleted ones. */
  predicate Alive(r: MCPServer) {
    r.isActive && !r.deleted
  }

  /** The scope clause ListMCPServersByTeam and GetMCPServerByAliasScoped share. */
  function TeamOrgOrGlobal(r: MCPServer, teamArg: Option<string>, orgArg: Option<string>): Truth {
    Or(Or(And(Eq(r.teamID, teamArg), Eq(r.orgID, orgArg)),
          And(IsNull(r.teamID), Eq(r.orgID, orgArg))),
       And(IsNull(r.teamID), IsNull(r.orgID)))
  }

  predicate SelectedByTeam(r: MCPServer, teamID: string, orgID: string) {
    And(Of(Alive(r)), TeamOrgOrGlobal(r, Some(teamID), Some(orgID))) == True
  }

  predicate SelectedByOrg(r: MCPServer, orgID: string) {
    And(Of(Alive(r)), And(Or(Eq(r.orgID, Some(orgID)), IsNull(r.orgID)), IsNull(r.teamID))) == True
  }

  predicate SelectedGlobal(r: MCPServer) {
    And(Of(Alive(r)), And(IsNull(r.orgID), IsNull(r.teamID))) == True
  }

  /** The scoped lookup passes NULL for an id that is empty. */
  function Arg(id: string): Option<string> {
    if id == "" then None else Some(id)
  }

  predicate SelectedScoped(r: MCPServer, alias: string, orgID: string, teamID: string) {
    And(And(Eq(Some(r.alias), Some(alias)), Of(Alive(r))), TeamOrgOrGlobal(r, Arg(teamID), Arg(orgID))) == True
  }

  /** Team before organisation before global: the CASE of the scoped lookup, and serverScopePriority. */
  function ScopePriority(r: MCPServer): int {
    if r.teamID.Some? then 1 else if r.orgID.Some? then 2 else 3
  }

  /** What GetMCPServerByAliasScoped may return: a selected row no other goes before. */
  ghost predicate ScopedPick(rows: set<MCPServer>, alias: string, orgID: string, teamID: string, pick: Option<MCPServer>) {
    match pick
    case None => forall r :: r in rows ==> !SelectedScoped(r, alias, orgID, teamID)
    case Some(p) =>
      && p in rows && SelectedScoped(p, alias, orgID, teamID)
      && forall r :: r in rows && SelectedScoped(r, alias, orgID, teamID) ==> ScopePriority(p) <= ScopePriority(r)
  }

  // ---------------------------------------------------------------------------------------------------
  // The table
  // ---------------------------------------------------------------------------------------------------

  function Coalesce(id: Option<string>): string {
    if id == None then "" else id.value
  }

  predicate SameScopeAndAlias(r: MCPServer, s: MCPServer) {
    r.alias == s.alias && Coalesce(r.orgID) == Coalesce(s.orgID) && Coalesce(r.teamID) == Coalesce(s.teamID)
  }

  /** The primary key, and the unique index over scope and alias that leaves deleted rows out. */
  ghost predicate Unique(rows: set<MCPServer>) {
    && (forall r, s :: r in rows && s in rows && r.id == s.id ==> r == s)
    && forall r, s :: r in rows && s in rows && !r.deleted && !s.deleted && SameScopeAndAlias(r, s) ==> r == s
  }

  /** Stored organisation and team ids are never empty. */
  ghost predicate ScopesNonEmpty(rows: set<MCPServer>) {
    forall r :: r in rows ==> r.orgID != Some("") && r.teamID != Some("")
  }

  /** A query's result: the selected rows, each once, in some order. */
  ghost predicate Lists(list: seq<MCPServer>, selected: set<MCPServer>) {
    && (forall r :: r in list <==> r in selected)
    && forall i, j :: 0 <= i < j < |list| ==> list[i] != list[j]
  }

  ghost function ActiveRows(rows: set<MCPServer>): set<MCPServer> {
    set r | r in rows && Alive(r)
  }

  /** Live servers none of which can be taken for another: what the table holds at any time. */
  ghost predicate UniqueServers(list: seq<MCPServer>) {
    forall r, s :: r in list && s in list && (r.id == s.id || SameScopeAndAlias(r, s)) ==> r == s
  }

  lemma ActiveRowsAreUnique(rows: set<MCPServer>, list: seq<MCPServer>)
    requires Unique(rows) && forall r :: r in list ==> r in ActiveRows(rows)
    ensures UniqueServers(list)
  {
  }

  /** Under the unique index the scoped lookup has one possible answer. */
  lemma ScopedPickIsUnique(rows: set<MCPServer>, alias: string, orgID: string, teamID: string,
                           p: Option<MCPServer>, q: Option<MCPServer>)
    requires Unique(rows)
    requires ScopedPick(rows, alias, orgID, teamID, p) && ScopedPick(rows, alias, orgID, teamID, q)
    ensures p == q
  {
    if p.Some? && q.Some? {
      assert ScopePriority(p.value) == ScopePriority(q.value);
      assert SameScopeAndAlias(p.value, q.value);
    }
  }
}
