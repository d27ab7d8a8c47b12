/** Which MCP servers a Code Mode caller sees (internal/app/code_mode.go), decided in three ways: from database queries,
  from the in-memory caches, and from a snapshot taken before a server was changed. */
module CodeMode {
  import opened Common
  import opened MCPServers
  import opened MCPAccess
  import opened MCPServerCaching

  const SYSTEM_ADMIN := "system_admin"
  const BUILTIN := "builtin"

  datatype KeyIdentity = KeyIdentity(orgID: string, teamID: string, keyID: string, role: string)

  /** The row of a server as it was just before a change to it. */
  datatype Snapshot = Snapshot(
    id: string,
    alias: string,
    orgID: Option<string>,
    teamID: Option<string>,
    source: string,
    codeModeEnabled: bool,
    active: bool)

  // ---------------------------------------------------------------------------------------------------
  // Resolving aliases
  // ---------------------------------------------------------------------------------------------------

  /** The aliases of a list in order of first appearance. */
  function Aliases(servers: seq<MCPServer>): seq<string> {
    if servers == [] then []
    else
      var before := Aliases(Front(servers));
      if Last(servers).alias in before then before else before + [Last(servers).alias]
  }

  /** The first of the servers of an alias with the best scope. */
  function Winner(servers: seq<MCPServer>, alias: string): Option<MCPServer> {
    if servers == [] then None
    else
      var before := Winner(Front(servers), alias);
      if Last(servers).alias == alias &&
         (before == None || ScopePriority(Last(servers)) < ScopePriority(before.value))
      then Some(Last(servers)) else before
  }

  lemma {:induction false} WinnerIsBest(servers: seq<MCPServer>, alias: string)
    ensures var r := Winner(servers, alias);
      && (r.Some? <==> alias in Aliases(servers))
      && (r.Some? ==> r.value in servers && r.value.alias == alias)
      && forall s :: s in servers && s.alias == alias ==> r.Some? && ScopePriority(r.value) <= ScopePriority(s)
  {
    if servers != [] {
      WinnerIsBest(Front(servers), alias);
      assert servers == Front(servers) + [Last(servers)];
    }
  }

  /** The winner is the first in the list of its alias and scope. */
  lemma {:induction false} WinnerIsFirst(servers: seq<MCPServer>, alias: string) returns (i: nat)
    requires Winner(servers, alias).Some?
    ensures i < |servers| && servers[i] == Winner(servers, alias).value
    ensures forall j :: 0 <= j < i && servers[j].alias == alias ==> ScopePriority(servers[j]) > ScopePriority(servers[i])
  {
    WinnerIsBest(Front(servers), alias);
    if Winner(servers, alias) == Winner(Front(servers), alias) {
      i := WinnerIsFirst(Front(servers), alias);
    } else {
      i := |servers| - 1;
      assert forall j :: 0 <= j < i ==> servers[j] in Front(servers);
    }
  }

  /** Where an alias first appears. */
  function FirstAt(servers: seq<MCPServer>, alias: string): (i: nat)
    requires alias in Aliases(servers)
    ensures i < |servers| && servers[i].alias == alias
    ensures forall j :: 0 <= j < i ==> servers[j].alias != alias
  {
    WinnerIsBest(Front(servers), alias);
    if alias in Aliases(Front(servers)) then FirstAt(Front(servers), alias)
    else
      assert forall j :: 0 <= j < |servers| - 1 ==> servers[j] in Front(servers);
      |servers| - 1
  }

  /** Aliases come in the order they first appear in. */
  lemma {:induction false} AliasesAppearInOrder(servers: seq<MCPServer>, j: nat, k: nat)
    requires j < k < |Aliases(servers)|
    ensures FirstAt(servers, Aliases(servers)[j]) < FirstAt(servers, Aliases(servers)[k])
  {
    if k < |Aliases(Front(servers))| {
      AliasesAppearInOrder(Front(servers), j, k);
    }
  }

  lemma {:induction false} AliasesAreDistinct(servers: seq<MCPServer>)
    ensures forall i, j :: 0 <= i < j < |Aliases(servers)| ==> Aliases(servers)[i] != Aliases(servers)[j]
  {
    if servers != [] {
      AliasesAreDistinct(Front(servers));
    }
  }

  /** One server per alias. */
  function Resolved(servers: seq<MCPServer>): seq<MCPServer> {
    seq(|Aliases(servers)|, i requires 0 <= i < |Aliases(servers)| => WinnerOf(servers, Aliases(servers)[i]))
  }

  function WinnerOf(servers: seq<MCPServer>, alias: string): MCPServer
    requires alias in Aliases(servers)
  {
    WinnerIsBest(servers, alias);
    Winner(servers, alias).value
  }

  method ResolveServersByAlias(servers: seq<MCPServer>) returns (resolved: seq<MCPServer>)
    ensures resolved == Resolved(servers)
  {
    var winners, order := CollectWinners(servers);
    resolved := [];
    for i := 0 to |order|
      invariant resolved == Resolved(servers)[..i]
    {
      resolved := resolved + [winners[order[i]]];
    }
  }

  method CollectWinners(servers: seq<MCPServer>) returns (winners: map<string, MCPServer>, order: seq<string>)
    ensures order == Aliases(servers)
    ensures forall a :: a in order ==> a in winners && Winner(servers, a) == Some(winners[a])
  {
    winners, order := map[], [];
    for i := 0 to |servers|
      invariant order == Aliases(servers[..i])
      invariant forall a :: Winner(servers[..i], a) == if a in winners then Some(winners[a]) else None
      invariant forall a :: a in winners <==> a in order
    {
      var s := servers[i];
      assert Front(servers[..i + 1]) == servers[..i] && Last(servers[..i + 1]) == s;
      if s.alias !in winners {
        winners := winners[s.alias := s];
        order := order + [s.alias];
      } else if ScopePriority(s) < ScopePriority(winners[s.alias]) {
        winners := winners[s.alias := s];
      }
    }
    assert servers[..|servers|] == servers;
  }

  /** No two servers of a list share alias and priority. */
  ghost predicate Unambiguous(servers: seq<MCPServer>) {
    forall r, s :: r in servers && s in servers && r.alias == s.alias && ScopePriority(r) == ScopePriority(s) ==> r == s
  }

  /** Nothing in the list goes before the server under its alias; this does not look at the order of the list. */
  ghost predicate Wins(servers: seq<MCPServer>, s: MCPServer) {
    s in servers && forall o :: o in servers && o.alias == s.alias ==> ScopePriority(s) <= ScopePriority(o)
  }

  lemma ResolvedAreTheWinners(servers: seq<MCPServer>, s: MCPServer)
    requires Unambiguous(servers)
    ensures s in Resolved(servers) <==> Wins(servers, s)
  {
    if s in Resolved(servers) {
      var i :| 0 <= i < |Resolved(servers)| && Resolved(servers)[i] == s;
      WinnerIsBest(servers, Aliases(servers)[i]);
    }
    if Wins(servers, s) {
      WinnerIsBest(servers, s.alias);
      var i :| 0 <= i < |Aliases(servers)| && Aliases(servers)[i] == s.alias;
      assert Resolved(servers)[i] == s;
    }
  }

  /** Resolution does not depend on the order of the list, and gives each alias once. */
  lemma ResolutionIgnoresOrder(servers: seq<MCPServer>, others: seq<MCPServer>)
    requires Unambiguous(servers) && forall s :: s in servers <==> s in others
    ensures forall s :: s in Resolved(servers) <==> s in Resolved(others)
    ensures DistinctAliases(Resolved(servers))
  {
    forall s
      ensures s in Resolved(servers) <==> s in Resolved(others)
    {
      ResolvedAreTheWinners(servers, s);
      ResolvedAreTheWinners(others, s);
    }
    AliasesAreDistinct(servers);
    forall i | 0 <= i < |Resolved(servers)|
      ensures Resolved(servers)[i].alias == Aliases(servers)[i]
    {
      WinnerIsBest(servers, Aliases(servers)[i]);
    }
  }

  // ---------------------------------------------------------------------------------------------------
  // Visibility
  // ---------------------------------------------------------------------------------------------------

  predicate Sees(id: KeyIdentity, s: MCPServer) {
    if id.teamID != "" then
      || (s.teamID == Some(id.teamID) && s.orgID == Some(id.orgID))
      || (s.teamID == None && s.orgID == Some(id.orgID))
      || (s.teamID == None && s.orgID == None)
    else if id.orgID != "" then
      s.teamID == None && (s.orgID == None || s.orgID == Some(id.orgID))
    else
      s.orgID == None && s.teamID == None
  }

  function Visible(all: seq<MCPServer>, id: KeyIdentity): (r: seq<MCPServer>)
    ensures forall s :: s in r <==> s in all && Sees(id, s)
  {
    if all == [] then []
    else
      assert all == Front(all) + [Last(all)];
      Visible(Front(all), id) + if Sees(id, Last(all)) then [Last(all)] else []
  }

  function SeenBy(id: KeyIdentity): MCPServer -> bool {
    (s: MCPServer) => Sees(id, s)
  }

  /** The servers a caller sees, and those the listing keeps of the winners, stay in the order of the list. */
  lemma {:induction false} VisibleKeepsOrder(all: seq<MCPServer>, id: KeyIdentity)
    ensures LeftOf(Visible(all, id), all, SeenBy(id))
  {
    hide LeftOf, Sees;
    LeftOfNothing(SeenBy(id));
    if all != [] {
      VisibleKeepsOrder(Front(all), id);
      assert Visible(Front(all), id) + [] == Visible(Front(all), id);
      LeftOfMore(Visible(Front(all), id), all, SeenBy(id));
    }
  }

  method VisibleMCPServersForCaller(all: seq<MCPServer>, id: KeyIdentity) returns (visible: seq<MCPServer>)
    ensures visible == Visible(all, id)
  {
    visible := [];
    for i := 0 to |all|
      invariant visible == Visible(all[..i], id)
    {
      var s := all[i];
      assert Front(all[..i + 1]) == all[..i] && Last(all[..i + 1]) == s;
      if id.teamID != "" {
        var teamMatch := s.teamID.Some? && s.teamID.value == id.teamID && s.orgID.Some? && s.orgID.value == id.orgID;
        var orgMatch := s.teamID.None? && s.orgID.Some? && s.orgID.value == id.orgID;
        var globalMatch := s.teamID.None? && s.orgID.None?;
        if teamMatch || orgMatch || globalMatch {
          visible := visible + [s];
        }
      } else if id.orgID != "" {
        if s.teamID.None? && (s.orgID.None? || s.orgID.value == id.orgID) {
          visible := visible + [s];
        }
      } else if s.orgID.None? && s.teamID.None? {
        visible := visible + [s];
      }
    }
    assert all[..|all|] == all;
  }

  /** The rows of whichever list query accessibleServers issues for a caller. */
  ghost function Queried(rows: set<MCPServer>, id: KeyIdentity): set<MCPServer> {
    set r | r in rows &&
      if id.teamID != "" then SelectedByTeam(r, id.teamID, id.orgID)
      else if id.orgID != "" then SelectedByOrg(r, id.orgID)
      else SelectedGlobal(r)
  }

  /** The filter in Go selects what the WHERE clauses do. */
  lemma QueriesSelectTheVisible(rows: set<MCPServer>, id: KeyIdentity)
    ensures Queried(rows, id) == set r | r in ActiveRows(rows) && Sees(id, r)
  {
  }

  /** What one caller sees is never ambiguous: alias and priority fix the scope, and the scope is unique. */
  lemma VisibleIsUnambiguous(all: seq<MCPServer>, visible: seq<MCPServer>, id: KeyIdentity)
    requires UniqueServers(all) && forall s :: s in visible ==> s in all && Sees(id, s)
    ensures Unambiguous(visible)
  {
    forall r, s | r in visible && s in visible && r.alias == s.alias && ScopePriority(r) == ScopePriority(s)
      ensures r == s
    {
      assert SameScopeAndAlias(r, s);
    }
  }

  // ---------------------------------------------------------------------------------------------------
  // The decision
  // ---------------------------------------------------------------------------------------------------

  predicate Unrestricted(s: MCPServer, id: KeyIdentity) {
    s.orgID.Some? || s.teamID.Some? || s.source == BUILTIN || id.role == SYSTEM_ADMIN
  }

  /** The loop of accessibleServers keeps a winner; a failed access check drops it. */
  predicate Keeps(s: MCPServer, id: KeyIdentity, codeModeOnly: bool, access: Result<bool, Error>) {
    && (Unrestricted(s, id) || access == Ok(true))
    && (codeModeOnly ==> s.codeModeEnabled)
  }

  function Checked(t: Tables, faults: string -> Faults, id: KeyIdentity, serverID: string): Result<bool, Error> {
    CheckMCPAccess(t, faults(serverID), id.orgID, id.teamID, id.keyID, serverID)
  }

  function Accessible(winners: seq<MCPServer>, t: Tables, faults: string -> Faults, id: KeyIdentity, codeModeOnly: bool)
    : (r: seq<MCPServer>)
    ensures forall s :: s in r <==> s in winners && Keeps(s, id, codeModeOnly, Checked(t, faults, id, s.id))
  {
    if winners == [] then []
    else
      assert winners == Front(winners) + [Last(winners)];
      Accessible(Front(winners), t, faults, id, codeModeOnly) +
      if Keeps(Last(winners), id, codeModeOnly, Checked(t, faults, id, Last(winners).id)) then [Last(winners)] else []
  }

  function KeptFor(t: Tables, faults: string -> Faults, id: KeyIdentity, codeModeOnly: bool): MCPServer -> bool {
    (s: MCPServer) => Keeps(s, id, codeModeOnly, Checked(t, faults, id, s.id))
  }

  lemma {:induction false} AccessibleKeepsOrder(winners: seq<MCPServer>, t: Tables, faults: string -> Faults,
                                                id: KeyIdentity, codeModeOnly: bool)
    ensures LeftOf(Accessible(winners, t, faults, id, codeModeOnly), winners, KeptFor(t, faults, id, codeModeOnly))
  {
    hide LeftOf, Keeps, Checked;
    LeftOfNothing(KeptFor(t, faults, id, codeModeOnly));
    if winners != [] {
      AccessibleKeepsOrder(Front(winners), t, faults, id, codeModeOnly);
      var before := Accessible(Front(winners), t, faults, id, codeModeOnly);
      assert before + [] == before;
      LeftOfMore(before, winners, KeptFor(t, faults, id, codeModeOnly));
    }
  }

  /** listed is the answer of the list query, and faults says which reads of each access check fail. */
  method AccessibleServers(listed: Option<seq<MCPServer>>, t: Tables, faults: string -> Faults, id: KeyIdentity,
                           codeModeOnly: bool)
    returns (r: Result<seq<MCPServer>, Error>)
    ensures r == if listed.None? then Err(ReadFailed)
                 else Ok(Accessible(Resolved(listed.value), t, faults, id, codeModeOnly))
  {
    if listed.None? {
      return Err(ReadFailed);
    }
    var winners := ResolveServersByAlias(listed.value);
    var isSystemAdmin := id.role == SYSTEM_ADMIN;
    var accessible: seq<MCPServer> := [];
    for i := 0 to |winners|
      invariant accessible == Accessible(winners[..i], t, faults, id, codeModeOnly)
    {
      var s := winners[i];
      assert Front(winners[..i + 1]) == winners[..i] && Last(winners[..i + 1]) == s;
      if s.orgID.Some? || s.teamID.Some? {
        if !codeModeOnly || s.codeModeEnabled {
          accessible := accessible + [s];
        }
      } else if s.source == BUILTIN {
        if !codeModeOnly || s.codeModeEnabled {
          accessible := accessible + [s];
        }
      } else if isSystemAdmin {
        if !codeModeOnly || s.codeModeEnabled {
          accessible := accessible + [s];
        }
      } else {
        var allowed := CheckMCPAccess(t, faults(s.id), id.orgID, id.teamID, id.keyID, s.id);
        if allowed.Ok? && allowed.value {
          if !codeModeOnly || s.codeModeEnabled {
            accessible := accessible + [s];
          }
        }
      }
    }
    assert winners[..|winners|] == winners;
    return Ok(accessible);
  }

  /** The first server of a list with an id. */
  function FindByID(servers: seq<MCPServer>, serverID: string): (r: Option<MCPServer>)
    ensures r.Some? ==> r.value in servers && r.value.id == serverID
    ensures r.None? ==> forall s :: s in servers ==> s.id != serverID
  {
    if servers == [] then None
    else if servers[0].id == serverID then Some(servers[0])
    else
      assert servers == [servers[0]] + servers[1..];
      FindByID(servers[1..], serverID)
  }

  method AliasWinnerForCaller(all: seq<MCPServer>, id: KeyIdentity, serverID: string) returns (r: Option<MCPServer>)
    ensures r == FindByID(Resolved(Visible(all, id)), serverID)
  {
    var visible := VisibleMCPServersForCaller(all, id);
    var winners := ResolveServersByAlias(visible);
    for i := 0 to |winners|
      invariant FindByID(winners, serverID) == FindByID(winners[i..], serverID)
    {
      if winners[i].id == serverID {
        return Some(winners[i]);
      }
      assert winners[i..][1..] == winners[i + 1..];
    }
    return None;
  }

  /** The decision on a winner; access is the cached check, if the process has an access cache. */
  predicate Decides(winner: MCPServer, id: KeyIdentity, access: Option<Tables>) {
    if !winner.codeModeEnabled then false
    else if winner.teamID.Some? || winner.orgID.Some? then true
    else if winner.source == BUILTIN then true
    else if id.role == SYSTEM_ADMIN then true
    else if access.None? then false
    else Grants(access.value, id.orgID, id.teamID, id.keyID, winner.id)
  }

  /** The live answer for a server id. */
  predicate LiveAnswer(all: seq<MCPServer>, access: Option<Tables>, id: KeyIdentity, serverID: string) {
    var winner := FindByID(Resolved(Visible(all, id)), serverID);
    winner.Some? && Decides(winner.value, id, access)
  }

  function Excluding(all: seq<MCPServer>, serverID: string): (r: seq<MCPServer>)
    ensures forall s :: s in r <==> s in all && s.id != serverID
  {
    if all == [] then []
    else
      assert all == Front(all) + [Last(all)];
      Excluding(Front(all), serverID) + if Last(all).id != serverID then [Last(all)] else []
  }

  method ExcludeServerID(all: seq<MCPServer>, serverID: string) returns (out: seq<MCPServer>)
    ensures out == Excluding(all, serverID)
  {
    out := [];
    for i := 0 to |all|
      invariant out == Excluding(all[..i], serverID)
    {
      assert Front(all[..i + 1]) == all[..i] && Last(all[..i + 1]) == all[i];
      if all[i].id != serverID {
        out := out + [all[i]];
      }
    }
    assert all[..|all|] == all;
  }

  /** The row a snapshot stands for; only the fields the decision looks at are filled in. */
  function Candidate(snapshot: Snapshot): MCPServer {
    MCPServer(snapshot.id, "", snapshot.alias, snapshot.orgID, snapshot.teamID, false, snapshot.source,
              snapshot.codeModeEnabled, false)
  }

  /** What the admin handler captures of a row. */
  function Capture(r: MCPServer): Snapshot {
    Snapshot(r.id, r.alias, r.orgID, r.teamID, r.source, r.codeModeEnabled, r.isActive)
  }

  predicate SnapshotAnswer(all: seq<MCPServer>, access: Option<Tables>, id: KeyIdentity, snapshot: Snapshot) {
    snapshot.active &&
    LiveAnswer(Excluding(all, snapshot.id) + [Candidate(snapshot)], access, id, snapshot.id)
  }

  // ---------------------------------------------------------------------------------------------------
  // The three decisions agree
  // ---------------------------------------------------------------------------------------------------

  /** A server is shown to a caller: nothing the caller sees goes before it, and the decision is for it. */
  ghost predicate Shown(all: seq<MCPServer>, access: Option<Tables>, id: KeyIdentity, s: MCPServer) {
    Wins(Visible(all, id), s) && Decides(s, id, access)
  }

  /** The live checker accepts exactly the ids of shown servers, whatever the order of the cached list. */
  lemma LiveAnswerIffShown(all: seq<MCPServer>, access: Option<Tables>, id: KeyIdentity, serverID: string)
    requires UniqueServers(all)
    ensures LiveAnswer(all, access, id, serverID) <==>
            exists s: MCPServer :: s.id == serverID && Shown(all, access, id, s)
  {
    var visible := Visible(all, id);
    VisibleIsUnambiguous(all, visible, id);
    var found := FindByID(Resolved(visible), serverID);
    if found.Some? {
      ResolvedAreTheWinners(visible, found.value);
    }
    forall s: MCPServer | s.id == serverID && Shown(all, access, id, s)
      ensures found == Some(s)
    {
      ResolvedAreTheWinners(visible, s);
      assert s in visible && found.Some? && found.value in visible;
    }
  }

  /** Without an access cache only servers that need no access check are accepted. */
  lemma WithoutAccessCacheIff(all: seq<MCPServer>, id: KeyIdentity, serverID: string)
    requires UniqueServers(all)
    ensures LiveAnswer(all, None, id, serverID) <==>
      exists s: MCPServer ::
        s.id == serverID && Wins(Visible(all, id), s) && s.codeModeEnabled && Unrestricted(s, id)
  {
    LiveAnswerIffShown(all, None, id, serverID);
    forall s: MCPServer
      ensures Decides(s, id, None) <==> s.codeModeEnabled && Unrestricted(s, id)
    {
    }
    assert forall s: MCPServer :: Shown(all, None, id, s) <==>
      Wins(Visible(all, id), s) && s.codeModeEnabled && Unrestricted(s, id);
  }

  /** The list an answer is worked out on: the cached one, or the one before the change a snapshot is of. */
  function Consulted(all: seq<MCPServer>, snapshot: Option<Snapshot>): seq<MCPServer> {
    if snapshot.Some? then Excluding(all, snapshot.value.id) + [Candidate(snapshot.value)] else all
  }

  predicate Answer(all: seq<MCPServer>, access: Option<Tables>, id: KeyIdentity, serverID: string,
                   snapshot: Option<Snapshot>) {
    if snapshot.Some? then SnapshotAnswer(all, access, id, snapshot.value) else LiveAnswer(all, access, id, serverID)
  }

  lemma AnswerIgnoresOrder(all: seq<MCPServer>, others: seq<MCPServer>, access: Option<Tables>, id: KeyIdentity,
                           serverID: string, snapshot: Option<Snapshot>)
    requires UniqueServers(Consulted(all, snapshot)) && forall s :: s in all <==> s in others
    ensures Answer(all, access, id, serverID, snapshot) <==> Answer(others, access, id, serverID, snapshot)
  {
    hide LiveAnswer, UniqueServers;
    var target := if snapshot.Some? then snapshot.value.id else serverID;
    assert forall s :: s in Consulted(all, snapshot) <==> s in Consulted(others, snapshot);
    LiveAnswerIgnoresOrder(Consulted(all, snapshot), Consulted(others, snapshot), access, id, target);
  }

  lemma LiveAnswerIgnoresOrder(all: seq<MCPServer>, others: seq<MCPServer>, access: Option<Tables>, id: KeyIdentity,
                               serverID: string)
    requires UniqueServers(all) && forall s :: s in all <==> s in others
    ensures LiveAnswer(all, access, id, serverID) <==> LiveAnswer(others, access, id, serverID)
  {
    assert UniqueServers(others);
    hide LiveAnswer, UniqueServers, Decides, Sees;
    LiveAnswerIffShown(all, access, id, serverID);
    LiveAnswerIffShown(others, access, id, serverID);
    assert forall s :: Shown(all, access, id, s) <==> Shown(others, access, id, s);
  }

  /** The checker handed to the subscription server: live for a server id, or against a snapshot. It walks the cache in
      any order, and answers what any order of the list gives. */
  method CheckAccess(servers: MCPServerCache, access: MCPAccessCache?, id: KeyIdentity, serverID: string,
                     snapshot: Option<Snapshot>, ghost t: Tables)
    returns (ok: bool)
    requires servers.Valid() && (access != null ==> access.Reflects(t))
    ensures var granted := if access == null then None else Some(t);
      forall all :: Lists(all, servers.servers.Values) && UniqueServers(Consulted(all, snapshot)) ==>
        ok == Answer(all, granted, id, serverID, snapshot)
  {
    var list := servers.List();
    ghost var granted := if access == null then None else Some(t);
    ok := AnswerOn(list, access, id, serverID, snapshot, t);
    forall all | Lists(all, servers.servers.Values) && UniqueServers(Consulted(all, snapshot))
      ensures ok == Answer(all, granted, id, serverID, snapshot)
    {
      AnswerIgnoresOrder(all, list, granted, id, serverID, snapshot);
    }
  }

  method AnswerOn(list: seq<MCPServer>, access: MCPAccessCache?, id: KeyIdentity, serverID: string,
                  snapshot: Option<Snapshot>, ghost t: Tables)
    returns (ok: bool)
    requires access != null ==> access.Reflects(t)
    ensures ok == Answer(list, if access == null then None else Some(t), id, serverID, snapshot)
  {
    var consulted, target := list, serverID;
    if snapshot.Some? {
      if !snapshot.value.active {
        return false;
      }
      var siblings := ExcludeServerID(list, snapshot.value.id);
      consulted, target := siblings + [Candidate(snapshot.value)], snapshot.value.id;
    }
    var winner := AliasWinnerForCaller(consulted, id, target);
    if winner.None? {
      return false;
    }
    ok := DecideForWinner(winner.value, id, access, t);
  }

  method DecideForWinner(winner: MCPServer, id: KeyIdentity, access: MCPAccessCache?, ghost t: Tables)
    returns (ok: bool)
    requires access != null ==> access.Reflects(t)
    ensures ok == Decides(winner, id, if access == null then None else Some(t))
  {
    if !winner.codeModeEnabled {
      return false;
    }
    if winner.teamID.Some? || winner.orgID.Some? || winner.source == BUILTIN || id.role == SYSTEM_ADMIN {
      return true;
    }
    if access == null {
      return false;
    }
    ok := access.Check(id.orgID, id.teamID, id.keyID, winner.id, t);
  }

  /** Whether the access check of a server fails when it is needed. */
  predicate CheckFails(t: Tables, faults: string -> Faults, id: KeyIdentity, s: MCPServer) {
    !Unrestricted(s, id) && Checked(t, faults, id, s.id).Err?
  }

  /** The servers the listing returns are those shown by the caches, less those whose access check failed. */
  lemma ListingIsWhatIsShown(rows: set<MCPServer>, listed: seq<MCPServer>, cached: seq<MCPServer>, t: Tables,
                             faults: string -> Faults, id: KeyIdentity, s: MCPServer)
    requires Unique(rows) && Lists(listed, Queried(rows, id)) && Lists(cached, ActiveRows(rows))
    ensures s in Accessible(Resolved(listed), t, faults, id, true) <==>
            Shown(cached, Some(t), id, s) && !CheckFails(t, faults, id, s)
  {
    QueriesSelectTheVisible(rows, id);
    ActiveRowsAreUnique(rows, cached);
    VisibleIsUnambiguous(cached, listed, id);
    assert forall o :: o in listed <==> o in Visible(cached, id);
    ResolvedAreTheWinners(listed, s);
    CheckFollowsPolicy(t, faults(s.id), id.orgID, id.teamID, id.keyID, s.id);
  }

  /** The live checker accepts a server id exactly when the Code Mode listing holds that server, for any order of the
      query's and the cache's results, as long as the reads of the listing work. */
  lemma CheckerAgreesWithListing(rows: set<MCPServer>, listed: seq<MCPServer>, cached: seq<MCPServer>, t: Tables,
                                 faults: string -> Faults, id: KeyIdentity, serverID: string)
    requires Unique(rows) && Lists(listed, Queried(rows, id)) && Lists(cached, ActiveRows(rows))
    requires forall x :: faults(x) == NO_FAULTS
    ensures LiveAnswer(cached, Some(t), id, serverID) <==>
            exists s :: s in Accessible(Resolved(listed), t, faults, id, true) && s.id == serverID
  {
    ActiveRowsAreUnique(rows, cached);
    LiveAnswerIffShown(cached, Some(t), id, serverID);
    forall s
      ensures s in Accessible(Resolved(listed), t, faults, id, true) <==> Shown(cached, Some(t), id, s)
    {
      ListingIsWhatIsShown(rows, listed, cached, t, faults, id, s);
      CheckFollowsPolicy(t, faults(s.id), id.orgID, id.teamID, id.keyID, s.id);
    }
  }

  /** A list before and after one server was edited, moved, renamed, switched off or removed; r is its old row. */
  ghost predicate OneServerChanged(before: seq<MCPServer>, after: seq<MCPServer>, r: MCPServer) {
    && (forall s :: s in before && s.id == r.id <==> s == r && r.isActive)
    && forall s: MCPServer :: s.id != r.id ==> (s in before <==> s in after)
  }

  /** Asked about the old row's snapshot, the checker gives on the new list the answer it gave on the old one. */
  lemma SnapshotAnswersForThePast(before: seq<MCPServer>, after: seq<MCPServer>, r: MCPServer, access: Option<Tables>,
                                  id: KeyIdentity)
    requires UniqueServers(before) && OneServerChanged(before, after, r)
    ensures SnapshotAnswer(after, access, id, Capture(r)) <==> LiveAnswer(before, access, id, r.id)
  {
    if r.isActive {
      var candidate := Candidate(Capture(r));
      var past := Excluding(after, r.id) + [candidate];
      PastIsUnique(before, past, r, candidate);
      LiveAnswerForRow(before, access, id, r);
      LiveAnswerForRow(past, access, id, candidate);
      SameStanding(before, past, r, candidate, access, id);
    } else {
      LiveAnswerIffShown(before, access, id, r.id);
    }
  }

  lemma LiveAnswerForRow(all: seq<MCPServer>, access: Option<Tables>, id: KeyIdentity, r: MCPServer)
    requires UniqueServers(all) && r in all
    ensures LiveAnswer(all, access, id, r.id) <==> Shown(all, access, id, r)
  {
    LiveAnswerIffShown(all, access, id, r.id);
    forall s: MCPServer | s.id == r.id && Shown(all, access, id, s)
      ensures s == r
    {
      assert s in all;
    }
  }

  lemma PastIsUnique(before: seq<MCPServer>, past: seq<MCPServer>, r: MCPServer, candidate: MCPServer)
    requires UniqueServers(before) && r in before && candidate == Candidate(Capture(r))
    requires forall s :: s in past ==> s == candidate || (s.id != r.id && s in before)
    ensures UniqueServers(past)
  {
    forall x, y | x in past && y in past && (x.id == y.id || SameScopeAndAlias(x, y))
      ensures x == y
    {
      var u := if x == candidate then r else x;
      var v := if y == candidate then r else y;
      assert u in before && v in before && (u.id == v.id || SameScopeAndAlias(u, v));
    }
  }

  /** A row and its candidate stand alike among the same siblings. */
  lemma SameStanding(before: seq<MCPServer>, past: seq<MCPServer>, r: MCPServer, candidate: MCPServer,
                     access: Option<Tables>, id: KeyIdentity)
    requires candidate == Candidate(Capture(r)) && r in before && candidate in past
    requires forall s :: s in before && s.id == r.id ==> s == r
    requires forall s :: s in past && s.id == r.id ==> s == candidate
    requires forall s: MCPServer :: s.id != r.id ==> (s in before <==> s in past)
    ensures Shown(before, access, id, r) <==> Shown(past, access, id, candidate)
  {
    assert Sees(id, r) <==> Sees(id, candidate);
    if Sees(id, r) {
      forall o | o in Visible(before, id) && o.alias == r.alias && Wins(Visible(past, id), candidate)
        ensures ScopePriority(r) <= ScopePriority(o)
      {
        assert o == r || o in Visible(past, id);
      }
      forall o | o in Visible(past, id) && o.alias == r.alias && Wins(Visible(before, id), r)
        ensures ScopePriority(candidate) <= ScopePriority(o)
      {
        assert o == candidate || o in Visible(before, id);
      }
    }
  }

  // ---------------------------------------------------------------------------------------------------
  // What is listed can be reached
  // ---------------------------------------------------------------------------------------------------

  /** With non-empty stored ids the scoped lookup selects what the caller sees under the alias. */
  lemma ScopedSelectsTheVisible(r: MCPServer, id: KeyIdentity, alias: string)
    requires r.orgID != Some("") && r.teamID != Some("")
    ensures SelectedScoped(r, alias, id.orgID, id.teamID) <==> Alive(r) && r.alias == alias && Sees(id, r)
  {
  }

  /** Every listed server is the very row the scoped lookup selects for its alias, so none is shadowed when its tools
      are called. */
  lemma NoListedServerIsShadowed(rows: set<MCPServer>, listed: seq<MCPServer>, t: Tables, faults: string -> Faults,
                                 id: KeyIdentity, codeModeOnly: bool, s: MCPServer, pick: Option<MCPServer>)
    requires Unique(rows) && ScopesNonEmpty(rows) && Lists(listed, Queried(rows, id))
    requires s in Accessible(Resolved(listed), t, faults, id, codeModeOnly)
    ensures ScopedPick(rows, s.alias, id.orgID, id.teamID, pick) <==> pick == Some(s)
  {
    QueriesSelectTheVisible(rows, id);
    VisibleIsUnambiguous(listed, listed, id) by {
      ActiveRowsAreUnique(rows, listed);
    }
    ResolvedAreTheWinners(listed, s);
    forall r | r in rows
      ensures SelectedScoped(r, s.alias, id.orgID, id.teamID) <==> r in listed && r.alias == s.alias
    {
      ScopedSelectsTheVisible(r, id, s.alias);
    }
    assert ScopedPick(rows, s.alias, id.orgID, id.teamID, Some(s));
    if ScopedPick(rows, s.alias, id.orgID, id.teamID, pick) {
      ScopedPickIsUnique(rows, s.alias, id.orgID, id.teamID, pick, Some(s));
    }
  }

  /** The same row is what the proxy's cache returns for the alias. */
  lemma ListedServerIsCached(rows: set<MCPServer>, listed: seq<MCPServer>, loaded: seq<MCPServer>, t: Tables,
                             faults: string -> Faults, id: KeyIdentity, codeModeOnly: bool, s: MCPServer)
    requires Unique(rows) && PlainScopes(rows) && Lists(listed, Queried(rows, id)) && Lists(loaded, ActiveRows(rows))
    requires ColonFree(id.orgID) && ColonFree(id.teamID)
    requires s in Accessible(Resolved(listed), t, faults, id, codeModeOnly)
    ensures Lookup(Loaded(loaded), s.alias, id.orgID, id.teamID) == Some(s)
  {
    LookupIsScopedPick(rows, loaded, s.alias, id.orgID, id.teamID);
    NoListedServerIsShadowed(rows, listed, t, faults, id, codeModeOnly, s,
                             Lookup(Loaded(loaded), s.alias, id.orgID, id.teamID));
  }

  ghost predicate DistinctAliases(servers: seq<MCPServer>) {
    forall i, j :: 0 <= i < j < |servers| ==> servers[i].alias != servers[j].alias
  }

  lemma DistinctAliasesGrow(servers: seq<MCPServer>, s: MCPServer)
    requires DistinctAliases(servers) && forall o :: o in servers ==> o.alias != s.alias
    ensures DistinctAliases(servers + [s])
  {
  }

  /** No alias is listed twice. */
  lemma {:induction false} ListedAliasesAreDistinct(winners: seq<MCPServer>, t: Tables, faults: string -> Faults,
                                                    id: KeyIdentity, codeModeOnly: bool)
    requires DistinctAliases(winners)
    ensures DistinctAliases(Accessible(winners, t, faults, id, codeModeOnly))
  {
    if winners != [] {
      var before := Accessible(Front(winners), t, faults, id, codeModeOnly);
      ListedAliasesAreDistinct(Front(winners), t, faults, id, codeModeOnly);
      forall s | s in before
        ensures s.alias != Last(winners).alias
      {
        var i :| 0 <= i < |Front(winners)| && Front(winners)[i] == s;
        assert winners[i] == s;
      }
      DistinctAliasesGrow(before, Last(winners));
    }
  }

  /** Whether a caller's listing holds a server does not depend on the order the query returned its rows in. */
  lemma ListingIgnoresOrder(rows: set<MCPServer>, listed: seq<MCPServer>, others: seq<MCPServer>, t: Tables,
                            faults: string -> Faults, id: KeyIdentity, codeModeOnly: bool)
    requires Unique(rows) && Lists(listed, Queried(rows, id)) && Lists(others, Queried(rows, id))
    ensures var r := Accessible(Resolved(listed), t, faults, id, codeModeOnly);
      && (forall s :: s in r <==> s in Accessible(Resolved(others), t, faults, id, codeModeOnly))
      && DistinctAliases(r)
  {
    QueriesSelectTheVisible(rows, id);
    ActiveRowsAreUnique(rows, listed);
    VisibleIsUnambiguous(listed, listed, id);
    ResolutionIgnoresOrder(listed, others);
    ListedAliasesAreDistinct(Resolved(listed), t, faults, id, codeModeOnly);
  }
}
