/** One Code Mode execution: the tool maps ExecuteCode builds from the caller's servers (internal/app/code_mode.go) and
  the dispatcher that bounds and routes the calls a script makes (internal/mcp/codemode_exec.go). A script is any
  sequence of calls. */
module CodeModeExec {
  import opened Common
  import opened MCPServers
  import opened MCPAccess
  import opened CodeMode

  /** What an execution reads: the aliases asked for, and per server id its blocklist and its cached tools, if they can
      be read. */
  datatype Inputs = Inputs(
    wanted: seq<string>,
    blocklists: string -> Option<seq<string>>,
    cached: string -> Option<seq<string>>)

  datatype Setup = Setup(
    serverTools: map<string, seq<string>>,
    blocked: map<string, set<string>>,
    excluded: set<string>,
    serverIDs: map<string, string>)

  // ---------------------------------------------------------------------------------------------------
  // Building the tool maps
  // ---------------------------------------------------------------------------------------------------

  predicate Wanted(inp: Inputs, alias: string) {
    |inp.wanted| == 0 || alias in inp.wanted
  }

  function Unblocked(tools: seq<string>, blocked: set<string>): (r: seq<string>)
    ensures forall x :: x in r <==> x in tools && x !in blocked
  {
    if tools == [] then []
    else
      assert tools == Front(tools) + [Last(tools)];
      Unblocked(Front(tools), blocked) + if Last(tools) in blocked then [] else [Last(tools)]
  }

  lemma {:induction false} NothingBlocked(tools: seq<string>)
    ensures Unblocked(tools, {}) == tools
  {
    if tools != [] {
      NothingBlocked(Front(tools));
    }
  }

  /** The tools that are left keep their order. */
  lemma {:induction false} UnblockedKeepsOrder(tools: seq<string>, blocked: set<string>)
    ensures LeftOf(Unblocked(tools, blocked), tools, NotIn(blocked))
  {
    hide LeftOf;
    LeftOfNothing(NotIn(blocked));
    if tools != [] {
      UnblockedKeepsOrder(Front(tools), blocked);
      assert Unblocked(Front(tools), blocked) + [] == Unblocked(Front(tools), blocked);
      LeftOfMore(Unblocked(Front(tools), blocked), tools, NotIn(blocked));
    }
  }

  function NotIn(blocked: set<string>): string -> bool {
    (tool: string) => tool !in blocked
  }

  /** What an execution does with one alias: whether it is shut out, which tools are blocked, which server it stands for
      and which tools are offered. */
  datatype Offer = Offer(excluded: bool, blocked: set<string>, serverID: Option<string>, tools: Option<seq<string>>)

  const NO_OFFER := Offer(false, {}, None, None)

  function OfferOf(inp: Inputs, s: MCPServer): Offer {
    if !Wanted(inp, s.alias) then NO_OFFER
    else
      var blocklist := inp.blocklists(s.id);
      if blocklist == None then Offer(true, {}, None, None)
      else
        var tools := inp.cached(s.id);
        Offer(false, Elements(blocklist.value), Some(s.id),
              if tools == None then None else Some(Unblocked(tools.value, Elements(blocklist.value))))
  }

  function OfferFor(inp: Inputs, servers: seq<MCPServer>, alias: string): Offer {
    if servers == [] then NO_OFFER
    else if Last(servers).alias == alias then OfferOf(inp, Last(servers))
    else OfferFor(inp, Front(servers), alias)
  }

  function At<V>(m: map<string, V>, key: string): Option<V> {
    if key in m then Some(m[key]) else None
  }

  function Recorded(u: Setup, alias: string): Offer {
    Offer(alias in u.excluded, if alias in u.blocked then u.blocked[alias] else {}, At(u.serverIDs, alias),
          At(u.serverTools, alias))
  }

  method BuildToolMaps(inp: Inputs, servers: seq<MCPServer>) returns (u: Setup)
    requires DistinctAliases(servers)
    ensures forall alias :: Recorded(u, alias) == OfferFor(inp, servers, alias)
  {
    u := Setup(map[], map[], {}, map[]);
    for i := 0 to |servers|
      invariant forall alias :: Recorded(u, alias) == OfferFor(inp, servers[..i], alias)
    {
      assert Front(servers[..i + 1]) == servers[..i] && Last(servers[..i + 1]) == servers[i];
      NotYetOffered(inp, servers[..i], servers[i].alias);
      u := AddServer(inp, u, servers[i]);
    }
    assert servers[..|servers|] == servers;
  }

  /** What an execution knows of a server under its alias: it is shut out, or it stands for the alias with the names its
      blocklist holds, and offers the cached tools not among them. Of a server not wanted it knows nothing. */
  lemma MapsHoldTheServers(inp: Inputs, servers: seq<MCPServer>, u: Setup, s: MCPServer)
    requires DistinctAliases(servers) && s in servers
    requires forall alias :: Recorded(u, alias) == OfferFor(inp, servers, alias)
    ensures var wanted := |inp.wanted| == 0 || s.alias in inp.wanted;
      var blocklist, cached := inp.blocklists(s.id), inp.cached(s.id);
      && (s.alias in u.excluded <==> wanted && blocklist.None?)
      && (s.alias in u.serverIDs <==> wanted && blocklist.Some?)
      && (s.alias in u.serverIDs ==> u.serverIDs[s.alias] == s.id)
      && (wanted && blocklist.Some? ==> forall tool :: Refuses(u, s.alias, tool) <==> tool in blocklist.value)
      && (s.alias in u.serverTools <==> wanted && blocklist.Some? && cached.Some?)
      && (s.alias in u.serverTools ==> forall tool ::
           tool in u.serverTools[s.alias] <==> tool in cached.value && tool !in blocklist.value)
  {
    OfferOfServer(inp, servers, s);
    assert Recorded(u, s.alias) == OfferOf(inp, s);
    assert forall tool :: Refuses(u, s.alias, tool) <==>
      Recorded(u, s.alias).excluded || tool in Recorded(u, s.alias).blocked;
    assert At(u.serverIDs, s.alias) == OfferOf(inp, s).serverID;
    assert At(u.serverTools, s.alias) == OfferOf(inp, s).tools;
  }

  lemma {:induction false} OfferOfServer(inp: Inputs, servers: seq<MCPServer>, s: MCPServer)
    requires DistinctAliases(servers) && s in servers
    ensures OfferFor(inp, servers, s.alias) == OfferOf(inp, s)
  {
    var i :| 0 <= i < |servers| && servers[i] == s;
    if i < |servers| - 1 {
      assert Front(servers)[i] == s;
      OfferOfServer(inp, Front(servers), s);
    }
  }

  /** Aliases of no server are in none of the maps. */
  lemma MapsHoldNothingElse(inp: Inputs, servers: seq<MCPServer>, u: Setup, alias: string)
    requires forall a :: Recorded(u, a) == OfferFor(inp, servers, a)
    requires forall s :: s in servers ==> s.alias != alias
    ensures alias !in u.excluded && alias !in u.serverIDs && alias !in u.serverTools
    ensures forall tool :: !Refuses(u, alias, tool)
  {
    NotYetOffered(inp, servers, alias);
    assert Recorded(u, alias) == NO_OFFER;
  }

  lemma {:induction false} NotYetOffered(inp: Inputs, servers: seq<MCPServer>, alias: string)
    requires forall s :: s in servers ==> s.alias != alias
    ensures OfferFor(inp, servers, alias) == NO_OFFER
  {
    if servers != [] {
      assert Last(servers) in servers;
      NotYetOffered(inp, Front(servers), alias);
    }
  }

  /** One turn of the loop. */
  method AddServer(inp: Inputs, u: Setup, s: MCPServer) returns (r: Setup)
    requires Recorded(u, s.alias) == NO_OFFER
    ensures Recorded(r, s.alias) == OfferOf(inp, s)
    ensures forall alias :: alias != s.alias ==> Recorded(r, alias) == Recorded(u, alias)
  {
    hide Unblocked;
    r := u;
    if |inp.wanted| > 0 && s.alias !in inp.wanted {
      return;
    }
    var blocklist := inp.blocklists(s.id);
    if blocklist.None? {
      r := r.(excluded := r.excluded + {s.alias});
      return;
    }
    var blocked := NameSet(blocklist.value);
    if |blocklist.value| > 0 {
      r := r.(blocked := r.blocked[s.alias := blocked]);
    }
    r := r.(serverIDs := r.serverIDs[s.alias := s.id]);
    var tools := inp.cached(s.id);
    if tools.None? {
      return;
    }
    var offered := tools.value;
    if |blocked| > 0 {
      offered := FilterTools(tools.value, blocked);
    } else {
      NothingBlocked(tools.value);
    }
    r := r.(serverTools := r.serverTools[s.alias := offered]);
  }

  method NameSet(names: seq<string>) returns (r: set<string>)
    ensures r == Elements(names)
  {
    r := {};
    for i := 0 to |names|
      invariant r == Elements(names[..i])
    {
      r := r + {names[i]};
    }
    assert names[..|names|] == names;
  }

  method FilterTools(tools: seq<string>, blocked: set<string>) returns (r: seq<string>)
    ensures r == Unblocked(tools, blocked)
  {
    r := [];
    for i := 0 to |tools|
      invariant r == Unblocked(tools[..i], blocked)
    {
      assert Front(tools[..i + 1]) == tools[..i] && Last(tools[..i + 1]) == tools[i];
      if tools[i] !in blocked {
        r := r + [tools[i]];
      }
    }
    assert tools[..|tools|] == tools;
  }

  // ---------------------------------------------------------------------------------------------------
  // Dispatching
  // ---------------------------------------------------------------------------------------------------

  datatype Target = Target(alias: string, tool: string)

  function KeyOf(alias: string, tool: string): string {
    alias + "/" + tool
  }

  /** Every offered tool has an entry, and every entry is for an offered tool of that key. Two tools may share a key
      when names hold slashes; which one gets the entry depends on the order the map is walked in. */
  ghost predicate Dispatches(dispatch: map<string, Target>, serverTools: map<string, seq<string>>) {
    && (forall key :: key in dispatch ==> var t := dispatch[key];
          key == KeyOf(t.alias, t.tool) && t.alias in serverTools && t.tool in serverTools[t.alias])
    && forall alias :: alias in serverTools ==>
         forall tool :: tool in serverTools[alias] ==> KeyOf(alias, tool) in dispatch
  }

  datatype Status = Success | Failure

  datatype Log = Log(alias: string, tool: string, status: Status)

  datatype Call = Call(alias: string, tool: string, args: string)

  /** One call of the script: its arguments, and how the upstream server answers if it is reached. */
  datatype Event = Event(args: seq<string>, answers: bool)

  /** The state of an execution; reached are the calls handed to the tool caller, upstream those it passed on. */
  datatype State = State(count: nat, logs: seq<Log>, reached: seq<Call>, upstream: seq<Call>)

  const INITIAL := State(0, [], [], [])

  predicate OverLimit(max: int, count: nat) {
    max > 0 && count > max
  }

  /** The tool caller's own check, a second defence behind the tool lists. */
  predicate Refuses(u: Setup, alias: string, tool: string) {
    alias in u.excluded || (alias in u.blocked && tool in u.blocked[alias])
  }

  function Next(u: Setup, dispatch: map<string, Target>, max: int, s: State, event: Event): State {
    var t := if max > 0 then s.(count := s.count + 1) else s;
    if OverLimit(max, t.count) || |event.args| < 3 then t
    else
      var key := KeyOf(event.args[0], event.args[1]);
      if key !in dispatch then t.(logs := t.logs + [Log(event.args[0], event.args[1], Failure)])
      else
        var target := dispatch[key];
        var call := Call(target.alias, target.tool, if event.args[2] == "" then "{}" else event.args[2]);
        var refused := Refuses(u, target.alias, target.tool);
        t.(logs := t.logs + [Log(target.alias, target.tool, if !refused && event.answers then Success else Failure)],
           reached := t.reached + [call],
           upstream := if refused then t.upstream else t.upstream + [call])
  }

  class Execution {
    const u: Setup
    const max: int
    var dispatch: map<string, Target>
    var count: nat
    var logs: seq<Log>
    ghost var reached: seq<Call>
    ghost var upstream: seq<Call>

    ghost function Value(): State
      reads this
    {
      State(count, logs, reached, upstream)
    }

    constructor (u: Setup, max: int)
      ensures Value() == INITIAL && this.u == u && this.max == max && Dispatches(dispatch, u.serverTools)
    {
      this.u, this.max := u, max;
      count, logs, reached, upstream := 0, [], [], [];
      new;
      dispatch := BuildDispatch(u.serverTools);
    }

    /** The __callTool function of the sandbox. */
    method CallTool(args: seq<string>, answers: bool)
      modifies this`count, this`logs, this`reached, this`upstream
      ensures Value() == Next(u, dispatch, max, old(Value()), Event(args, answers))
    {
      if max > 0 {
        count := count + 1;
        if count > max {
          return;
        }
      }
      if |args| < 3 {
        return;
      }
      var alias, tool, rawArgs := args[0], args[1], args[2];
      if |rawArgs| == 0 {
        rawArgs := "{}";
      }
      var key := alias + "/" + tool;
      if key !in dispatch {
        logs := logs + [Log(alias, tool, Failure)];
        return;
      }
      var target := dispatch[key];
      reached := reached + [Call(target.alias, target.tool, rawArgs)];
      var ok := CallUpstream(target.alias, target.tool, rawArgs, answers);
      logs := logs + [Log(target.alias, target.tool, if ok then Success else Failure)];
    }

    /** The tool caller ExecuteCode hands to the executor. */
    method CallUpstream(alias: string, tool: string, args: string, answers: bool) returns (ok: bool)
      modifies this`upstream
      ensures ok == (!Refuses(u, alias, tool) && answers)
      ensures upstream == if Refuses(u, alias, tool) then old(upstream) else old(upstream) + [Call(alias, tool, args)]
    {
      if alias in u.excluded {
        return false;
      }
      if alias in u.blocked && tool in u.blocked[alias] {
        return false;
      }
      upstream := upstream + [Call(alias, tool, args)];
      return answers;
    }
  }

  method BuildDispatch(serverTools: map<string, seq<string>>) returns (dispatch: map<string, Target>)
    ensures Dispatches(dispatch, serverTools)
  {
    dispatch := map[];
    ghost var done: map<string, seq<string>> := map[];
    var rest := serverTools.Keys;
    while rest != {}
      invariant rest <= serverTools.Keys && done.Keys == serverTools.Keys - rest
      invariant forall alias :: alias in done ==> done[alias] == serverTools[alias]
      invariant Dispatches(dispatch, done)
      decreases |rest|
    {
      var alias :| alias in rest;
      rest := rest - {alias};
      dispatch := AddTools(dispatch, done, alias, serverTools[alias]);
      done := done[alias := serverTools[alias]];
    }
    assert done == serverTools;
  }

  method AddTools(before: map<string, Target>, ghost done: map<string, seq<string>>, alias: string, tools: seq<string>)
    returns (dispatch: map<string, Target>)
    requires Dispatches(before, done) && alias !in done
    ensures Dispatches(dispatch, done[alias := tools])
  {
    dispatch := before;
    for i := 0 to |tools|
      invariant forall key :: key in dispatch ==> var t := dispatch[key];
        key == KeyOf(t.alias, t.tool) &&
        (if t.alias == alias then t.tool in tools else t.alias in done && t.tool in done[t.alias])
      invariant forall a :: a in done ==> forall tool :: tool in done[a] ==> KeyOf(a, tool) in dispatch
      invariant forall tool :: tool in tools[..i] ==> KeyOf(alias, tool) in dispatch
    {
      dispatch := dispatch[KeyOf(alias, tools[i]) := Target(alias, tools[i])];
    }
    assert tools[..|tools|] == tools;
  }

  // ---------------------------------------------------------------------------------------------------
  // Any script
  // ---------------------------------------------------------------------------------------------------

  function After(u: Setup, dispatch: map<string, Target>, max: int, events: seq<Event>): State {
    if events == [] then INITIAL else Next(u, dispatch, max, After(u, dispatch, max, Front(events)), Last(events))
  }

  /** The server an alias stands for in an execution, wanted by the caller, its blocklist and its tools read. */
  ghost predicate Serves(inp: Inputs, servers: seq<MCPServer>, s: MCPServer, tool: string) {
    && s in servers && Wanted(inp, s.alias)
    && inp.blocklists(s.id).Some? && inp.cached(s.id).Some?
    && tool in inp.cached(s.id).value && tool !in inp.blocklists(s.id).value
  }

  ghost predicate Built(inp: Inputs, servers: seq<MCPServer>, u: Setup, dispatch: map<string, Target>) {
    && DistinctAliases(servers)
    && (forall alias :: Recorded(u, alias) == OfferFor(inp, servers, alias))
    && Dispatches(dispatch, u.serverTools)
  }

  lemma {:induction false} OfferIsOfOneServer(inp: Inputs, servers: seq<MCPServer>, alias: string)
    returns (s: MCPServer)
    requires OfferFor(inp, servers, alias) != NO_OFFER
    ensures s in servers && s.alias == alias && OfferFor(inp, servers, alias) == OfferOf(inp, s)
  {
    if Last(servers).alias == alias {
      s := Last(servers);
    } else {
      s := OfferIsOfOneServer(inp, Front(servers), alias);
      assert s in Front(servers);
    }
  }

  /** Whatever order the dispatch map was filled in and whatever keys collide, an entry leads to an unblocked cached
      tool of a wanted server, and the tool caller's own check lets it pass. */
  lemma EntryIsServed(inp: Inputs, servers: seq<MCPServer>, u: Setup, dispatch: map<string, Target>, key: string)
    returns (s: MCPServer)
    requires Built(inp, servers, u, dispatch) && key in dispatch
    ensures s.alias == dispatch[key].alias && Serves(inp, servers, s, dispatch[key].tool)
    ensures !Refuses(u, dispatch[key].alias, dispatch[key].tool)
  {
    var t := dispatch[key];
    assert At(u.serverTools, t.alias) == Recorded(u, t.alias).tools;
    s := OfferIsOfOneServer(inp, servers, t.alias);
  }

  /** In any script every call that reaches an upstream server is for an unblocked cached tool of a wanted server whose
      blocklist was read; the second defence never stops anything. */
  lemma {:induction false} UpstreamCallsAreServed(inp: Inputs, servers: seq<MCPServer>, u: Setup,
                                                  dispatch: map<string, Target>, max: int, events: seq<Event>)
    requires Built(inp, servers, u, dispatch)
    ensures var end := After(u, dispatch, max, events);
      && end.upstream == end.reached
      && forall call :: call in end.upstream ==>
        exists s: MCPServer :: s.alias == call.alias && Serves(inp, servers, s, call.tool)
  {
    if events != [] {
      UpstreamCallsAreServed(inp, servers, u, dispatch, max, Front(events));
      var args := Last(events).args;
      if |args| >= 3 && KeyOf(args[0], args[1]) in dispatch {
        var s := EntryIsServed(inp, servers, u, dispatch, KeyOf(args[0], args[1]));
      }
    }
  }

  /** A server whose blocklist could not be read gets no call. */
  lemma ExcludedServersGetNoCall(inp: Inputs, servers: seq<MCPServer>, u: Setup, dispatch: map<string, Target>,
                                 max: int, events: seq<Event>, s: MCPServer)
    requires Built(inp, servers, u, dispatch) && s in servers && inp.blocklists(s.id).None?
    ensures forall call :: call in After(u, dispatch, max, events).upstream ==> call.alias != s.alias
  {
    UpstreamCallsAreServed(inp, servers, u, dispatch, max, events);
    forall call | call in After(u, dispatch, max, events).upstream
      ensures call.alias != s.alias
    {
      var o: MCPServer :| o.alias == call.alias && Serves(inp, servers, o, call.tool);
      var i :| 0 <= i < |servers| && servers[i] == s;
      var j :| 0 <= j < |servers| && servers[j] == o;
    }
  }

  predicate SlashFree(name: string) {
    forall i :: 0 <= i < |name| ==> name[i] != '/'
  }

  /** Text before the first slash and after it, where what stands before holds none. */
  lemma FirstSlashSplits(a: string, s: string, b: string, t: string)
    requires KeyOf(a, s) == KeyOf(b, t) && SlashFree(a) && SlashFree(b)
    ensures a == b && s == t
  {
    var key := KeyOf(a, s);
    assert key[|a|] == '/' && key[|b|] == '/';
    assert forall i :: 0 <= i < |a| ==> key[i] == a[i] && a[i] != '/';
    assert forall i :: 0 <= i < |b| ==> key[i] == b[i] && b[i] != '/';
    assert |a| == |b|;
    assert key[..|a|] == a && key[..|b|] == b;
    assert key[|a| + 1..] == s && key[|b| + 1..] == t;
  }

  /** Server aliases hold no slash. Then a call that finds an entry goes to the server and tool it names exactly if the
      alias it names holds none either. */
  lemma DispatchIsExactIff(dispatch: map<string, Target>, serverTools: map<string, seq<string>>, alias: string,
                           tool: string)
    requires Dispatches(dispatch, serverTools) && KeyOf(alias, tool) in dispatch
    requires forall a :: a in serverTools ==> SlashFree(a)
    ensures dispatch[KeyOf(alias, tool)] == Target(alias, tool) <==> SlashFree(alias)
  {
    var t := dispatch[KeyOf(alias, tool)];
    if SlashFree(alias) {
      FirstSlashSplits(alias, tool, t.alias, t.tool);
    }
  }

  /** The event of the script a call comes from: it names the key of the call, and the call itself unless it names an
      alias with a slash. */
  ghost predicate CalledBy(call: Call, event: Event) {
    && |event.args| >= 3 && KeyOf(event.args[0], event.args[1]) == KeyOf(call.alias, call.tool)
    && (SlashFree(event.args[0]) ==> event.args[0] == call.alias && event.args[1] == call.tool)
  }

  /** In any script, with aliases free of slashes, every upstream call comes from an event with its key, and goes to the
      server and tool named there unless the alias named holds a slash. */
  lemma {:induction false} CallsGoWhereNamed(u: Setup, dispatch: map<string, Target>, max: int, events: seq<Event>)
    requires Dispatches(dispatch, u.serverTools) && forall a :: a in u.serverTools ==> SlashFree(a)
    ensures forall call :: call in After(u, dispatch, max, events).upstream ==>
      exists event :: event in events && CalledBy(call, event)
  {
    if events != [] {
      var before, after := After(u, dispatch, max, Front(events)), After(u, dispatch, max, events);
      CallsGoWhereNamed(u, dispatch, max, Front(events));
      assert events == Front(events) + [Last(events)];
      var args := Last(events).args;
      if |args| >= 3 && KeyOf(args[0], args[1]) in dispatch {
        DispatchIsExactIff(dispatch, u.serverTools, args[0], args[1]);
      }
      forall call | call in after.upstream
        ensures exists event :: event in events && CalledBy(call, event)
      {
        if call in before.upstream {
          var event :| event in Front(events) && CalledBy(call, event);
          assert event in events;
        } else {
          assert Last(events) in events && CalledBy(call, Last(events));
        }
      }
    }
  }

  /** The events of a script that pass the limit: all of them without one, else the first so many. */
  function Admitted(max: int, events: seq<Event>): seq<Event> {
    if max > 0 && |events| > max then events[..max] else events
  }

  /** What came out of a script: in order, one entry for each event with a property, and the right one for it. */
  ghost predicate OneForEach<T(!new)>(out: seq<T>, script: seq<Event>, p: Event -> bool, right: (T, Event) -> bool) {
    && |out| == |Places(script, p)|
    && forall k :: 0 <= k < |out| ==> right(out[k], script[Places(script, p)[k]])
  }

  lemma NoneYet<T(!new)>(p: Event -> bool, right: (T, Event) -> bool)
    ensures OneForEach([], [], p, right)
  {
  }

  lemma OneMore<T(!new)>(out: seq<T>, script: seq<Event>, p: Event -> bool, right: (T, Event) -> bool, x: T)
    requires script != [] && OneForEach(out, Front(script), p, right)
    ensures !p(Last(script)) ==> OneForEach(out, script, p, right)
    ensures p(Last(script)) && right(x, Last(script)) ==> OneForEach(out + [x], script, p, right)
  {
  }

  function WellFormed(): Event -> bool {
    (event: Event) => |event.args| >= 3
  }

  /** A well-formed call for a tool on offer. */
  function OnOffer(dispatch: map<string, Target>): Event -> bool {
    (event: Event) => |event.args| >= 3 && KeyOf(event.args[0], event.args[1]) in dispatch
  }

  /** The server and tool behind the key of an event, with the arguments the event gives. */
  function CallRight(dispatch: map<string, Target>): (Call, Event) -> bool {
    (call: Call, event: Event) =>
      OnOffer(dispatch)(event) && dispatch[KeyOf(event.args[0], event.args[1])] == Target(call.alias, call.tool) &&
      call.args == if event.args[2] == "" then "{}" else event.args[2]
  }

  /** The server and tool behind the key of an event, and whether the call succeeded; or what it names, and a failure. */
  function LogRight(dispatch: map<string, Target>): (Log, Event) -> bool {
    (log: Log, event: Event) =>
      WellFormed()(event) &&
      if OnOffer(dispatch)(event)
      then dispatch[KeyOf(event.args[0], event.args[1])] == Target(log.alias, log.tool) &&
           (log.status == Success <==> event.answers)
      else log == Log(event.args[0], event.args[1], Failure)
  }

  lemma {:induction false} CountIsEvents(u: Setup, dispatch: map<string, Target>, max: int, events: seq<Event>)
    ensures After(u, dispatch, max, events).count == if max > 0 then |events| else 0
  {
    if events != [] {
      CountIsEvents(u, dispatch, max, Front(events));
    }
  }

  lemma AdmittedGrows(max: int, events: seq<Event>)
    requires events != []
    ensures if max > 0 && |events| > max then Admitted(max, events) == Admitted(max, Front(events))
      else Admitted(max, events) == events && Admitted(max, Front(events)) == Front(events)
  {
    if max > 0 && |events| > max {
      assert Front(events)[..max] == events[..max];
      assert |Front(events)| == max ==> Front(events)[..max] == Front(events);
    }
  }

  /** The tool caller is handed, in the order of the script, one call for each well-formed event among the admitted ones
      that names a tool on offer: the server and tool behind its key, with the arguments that event gives. So with a
      positive limit there are at most so many; malformed and unknown calls use the limit up as well. */
  lemma {:induction false} ReachedAreTheValidAdmitted(u: Setup, dispatch: map<string, Target>, max: int,
                                                      events: seq<Event>)
    ensures OneForEach(After(u, dispatch, max, events).reached, Admitted(max, events), OnOffer(dispatch),
                       CallRight(dispatch))
    ensures max > 0 ==> |After(u, dispatch, max, events).reached| <= max
  {
    hide OneForEach;
    NoneYet(OnOffer(dispatch), CallRight(dispatch));
    if events != [] {
      ReachedAreTheValidAdmitted(u, dispatch, max, Front(events));
      CountIsEvents(u, dispatch, max, Front(events));
      AdmittedGrows(max, events);
      if Admitted(max, events) == events {
        var before, after := After(u, dispatch, max, Front(events)).reached, After(u, dispatch, max, events).reached;
        OneMore(before, events, OnOffer(dispatch), CallRight(dispatch),
                if after == before then Call("", "", "") else Last(after));
      }
    }
    FewReached(After(u, dispatch, max, events).reached, Admitted(max, events), dispatch);
  }

  lemma FewReached(reached: seq<Call>, script: seq<Event>, dispatch: map<string, Target>)
    requires OneForEach(reached, script, OnOffer(dispatch), CallRight(dispatch))
    ensures |reached| <= |script|
  {
  }

  /** The log of a script holds, in order, one line for each well-formed event among the admitted ones. */
  lemma {:induction false} LogsFollowScript(inp: Inputs, servers: seq<MCPServer>, u: Setup, dispatch: map<string, Target>,
                                            max: int, events: seq<Event>)
    requires Built(inp, servers, u, dispatch)
    ensures OneForEach(After(u, dispatch, max, events).logs, Admitted(max, events), WellFormed(), LogRight(dispatch))
  {
    hide OneForEach, Built, Refuses;
    NoneYet(WellFormed(), LogRight(dispatch));
    if events != [] {
      LogsFollowScript(inp, servers, u, dispatch, max, Front(events));
      CountIsEvents(u, dispatch, max, Front(events));
      AdmittedGrows(max, events);
      if Admitted(max, events) == events {
        var before, after := After(u, dispatch, max, Front(events)).logs, After(u, dispatch, max, events).logs;
        if OnOffer(dispatch)(Last(events)) {
          var s := EntryIsServed(inp, servers, u, dispatch, KeyOf(Last(events).args[0], Last(events).args[1]));
        }
        OneMore(before, events, WellFormed(), LogRight(dispatch),
                if after == before then Log("", "", Failure) else Last(after));
      }
    }
  }

  /** So what reaches the upstream servers is, in order, every admitted call of the script for a tool on offer. */
  lemma UpstreamFollowsScript(inp: Inputs, servers: seq<MCPServer>, u: Setup, dispatch: map<string, Target>, max: int,
                              events: seq<Event>)
    requires Built(inp, servers, u, dispatch)
    ensures OneForEach(After(u, dispatch, max, events).upstream, Admitted(max, events), OnOffer(dispatch),
                       CallRight(dispatch))
  {
    UpstreamCallsAreServed(inp, servers, u, dispatch, max, events);
    ReachedAreTheValidAdmitted(u, dispatch, max, events);
  }

  /** From the table to the wire: every upstream call goes to a Code Mode server the caller may use, and that server is
      the row the scoped lookup of the call finds under its alias. */
  lemma CallsReachListedServers(rows: set<MCPServer>, listed: seq<MCPServer>, t: Tables, faults: string -> Faults,
                                id: KeyIdentity, inp: Inputs, u: Setup, dispatch: map<string, Target>, max: int,
                                events: seq<Event>, call: Call)
    requires Unique(rows) && ScopesNonEmpty(rows) && Lists(listed, Queried(rows, id))
    requires Built(inp, Accessible(Resolved(listed), t, faults, id, true), u, dispatch)
    requires call in After(u, dispatch, max, events).upstream
    ensures exists s: MCPServer ::
      && ScopedPick(rows, call.alias, id.orgID, id.teamID, Some(s))
      && s.codeModeEnabled && Decides(s, id, Some(t))
      && Serves(inp, Accessible(Resolved(listed), t, faults, id, true), s, call.tool)
  {
    var servers := Accessible(Resolved(listed), t, faults, id, true);
    UpstreamCallsAreServed(inp, servers, u, dispatch, max, events);
    var s: MCPServer :| s.alias == call.alias && Serves(inp, servers, s, call.tool);
    NoListedServerIsShadowed(rows, listed, t, faults, id, true, s, Some(s));
    CheckFollowsPolicy(t, faults(s.id), id.orgID, id.teamID, id.keyID, s.id);
  }
}
