/** The recreation script scripts/recreate_mas_supervisor.py: checking the
    Genie space ids for placeholders, turning the agent configurations into
    the agents the Agent Bricks API expects, assembling the supervisor
    payload, polling the tile until it is online, and the validate, create,
    wait sequence that ties them together. HTTP replies and clock readings
    are parameters. */
module Supervisor {
  import opened Wrappers
  import opened Text

  // ---------------------------------------------------------------- Configuration

  /** One entry of `AGENT_CONFIGS`. */
  datatype AgentConfig = AgentConfig(name: string, agentType: string, description: string)

  /** `GENIE_SPACE_IDS`, in insertion order: (agent name, Genie space id). */
  type GenieIds = seq<(string, string)>

  /** One example question of `MAS_EXAMPLES`. */
  datatype Example = Example(question: string, guideline: string)

  /** The script's configuration constants. */
  datatype SupervisorConfig = SupervisorConfig(
    genieSpaceIds: GenieIds,
    ucCatalog: string, ucSchema: string, ucName: string,
    mcpConnection: string,
    masName: string, description: string, instructions: string,
    agentConfigs: seq<AgentConfig>,
    examples: seq<Example>)

  /** The prefix that marks a Genie space id nobody has filled in. */
  const PlaceholderPrefix: string := "REPLACE_WITH"

  /** The Genie space ids as the script ships them: every one a placeholder. */
  const ShippedGenieIds: GenieIds := [
    ("dc_inventory", PlaceholderPrefix + "_TARGET_DC_INVENTORY_GENIE_ID"),
    ("dc_shipment_plan", PlaceholderPrefix + "_TARGET_DC_SHIPMENT_PLAN_GENIE_ID"),
    ("incoming_supply", PlaceholderPrefix + "_TARGET_INCOMING_SUPPLY_GENIE_ID"),
    ("link_customer", PlaceholderPrefix + "_TARGET_LINK_CUSTOMER_GENIE_ID"),
    ("supplier_orders", PlaceholderPrefix + "_TARGET_SUPPLIER_ORDERS_GENIE_ID")
  ]

  /** Why a step of the script raised. */
  datatype SupervisorError =
    | UnknownAgentType(agentType: string)     // ValueError in build_agent_list
    | MissingGenieSpaceId(name: string)       // KeyError on GENIE_SPACE_IDS[name]
    | HttpError(status: int)                  // raise_for_status
    | InvalidJson                             // response.json() on a body that is not JSON
    | NoToken                                 // RuntimeError in _get_token
    | ConnectionFailed                        // requests raised before any reply arrived

  /** `ids[key]` on the dictionary the pairs spell out. */
  function Lookup(ids: GenieIds, key: string): (r: Option<string>)
    ensures r.Some? <==> exists i :: 0 <= i < |ids| && ids[i].0 == key
    ensures r.Some? ==> exists i :: 0 <= i < |ids| && ids[i] == (key, r.value)
  {
    if |ids| == 0 then None
    else if ids[0].0 == key then Some(ids[0].1)
    else
      var r := Lookup(ids[1..], key);
      assert forall i :: 0 <= i < |ids| - 1 ==> ids[1..][i] == ids[i + 1];
      assert forall i :: 1 <= i < |ids| ==> ids[i] == ids[1..][i - 1];
      r
  }

  /** The pairs spell out a dictionary: no key occurs twice, as in a Python dict literal. */
  predicate DistinctKeys(ids: GenieIds) {
    forall i, j :: 0 <= i < j < |ids| ==> ids[i].0 != ids[j].0
  }

  /** With distinct keys, looking up an entry's key finds that entry's id. */
  lemma {:induction false} LookupFindsEntry(ids: GenieIds, i: int)
    requires DistinctKeys(ids) && 0 <= i < |ids|
    ensures Lookup(ids, ids[i].0) == Some(ids[i].1)
  {
    if i > 0 {
      assert ids[0].0 != ids[i].0;
      assert ids[1..][i - 1] == ids[i];
      assert DistinctKeys(ids[1..]) by {
        forall a, b | 0 <= a < b < |ids[1..]| ensures ids[1..][a].0 != ids[1..][b].0 {
          assert ids[1..][a] == ids[a + 1] && ids[1..][b] == ids[b + 1];
        }
      }
      LookupFindsEntry(ids[1..], i - 1);
    }
  }

  /** The ids as shipped name five different keys. */
  lemma ShippedIdsDistinct()
    ensures DistinctKeys(ShippedGenieIds)
  {
  }

  // ---------------------------------------------------------------- Step 1: validation

  predicate IsPlaceholder(id: string) {
    StartsWith(id, PlaceholderPrefix)
  }

  /** The line `validate_prerequisites` reports for a key left unset. */
  function MissingIdLine(key: string): string {
    "  GENIE_SPACE_IDS['" + key + "'] has not been set."
  }

  /** The keys whose id is still a placeholder, in dictionary order. */
  function PlaceholderKeys(ids: GenieIds): (r: seq<string>)
    ensures |r| <= |ids|
  {
    if |ids| == 0 then []
    else
      var n := |ids| - 1;
      PlaceholderKeys(ids[..n]) + (if IsPlaceholder(ids[n].1) then [ids[n].0] else [])
  }

  /** No placeholder keys means no placeholder ids, and the other way round. */
  lemma {:induction false} PlaceholderKeysEmptyIff(ids: GenieIds)
    ensures PlaceholderKeys(ids) == [] <==> forall i :: 0 <= i < |ids| ==> !IsPlaceholder(ids[i].1)
  {
    if |ids| > 0 {
      var n := |ids| - 1;
      PlaceholderKeysEmptyIff(ids[..n]);
      assert forall i :: 0 <= i < n ==> ids[..n][i] == ids[i];
    }
  }

  /** Every reported key is a key whose id is a placeholder, and every such key is reported. */
  lemma {:induction false} PlaceholderKeysExact(ids: GenieIds, key: string)
    ensures key in PlaceholderKeys(ids) <==> exists i :: 0 <= i < |ids| && ids[i].0 == key && IsPlaceholder(ids[i].1)
  {
    if |ids| > 0 {
      var n := |ids| - 1;
      PlaceholderKeysExact(ids[..n], key);
      assert forall i :: 0 <= i < n ==> ids[..n][i] == ids[i];
      if exists i :: 0 <= i < |ids| && ids[i].0 == key && IsPlaceholder(ids[i].1) {
        var i :| 0 <= i < |ids| && ids[i].0 == key && IsPlaceholder(ids[i].1);
        if i < n {
          assert ids[..n][i] == ids[i];
        }
      }
    }
  }

  /** `validate_prerequisites`: one error line per placeholder id, in
      dictionary order; the check passes exactly when there is none. */
  method ValidatePrerequisites(ids: GenieIds) returns (ok: bool, errors: seq<string>)
    ensures |errors| == |PlaceholderKeys(ids)|
    ensures forall j :: 0 <= j < |errors| ==> errors[j] == MissingIdLine(PlaceholderKeys(ids)[j])
    ensures ok <==> errors == []
    ensures ok <==> forall i :: 0 <= i < |ids| ==> !IsPlaceholder(ids[i].1)
  {
    errors := [];
    var i := 0;
    while i < |ids|
      invariant 0 <= i <= |ids|
      invariant |errors| == |PlaceholderKeys(ids[..i])|
      invariant forall j :: 0 <= j < |errors| ==> errors[j] == MissingIdLine(PlaceholderKeys(ids[..i])[j])
    {
      assert ids[..i + 1][..i] == ids[..i];
      if IsPlaceholder(ids[i].1) {
        errors := errors + [MissingIdLine(ids[i].0)];
      }
      i := i + 1;
    }
    assert ids[..i] == ids;
    PlaceholderKeysEmptyIff(ids);
    ok := errors == [];
  }

  /** When every id is a placeholder, every key is reported, in dictionary order. */
  lemma {:induction false} AllPlaceholdersReported(ids: GenieIds)
    requires forall i :: 0 <= i < |ids| ==> IsPlaceholder(ids[i].1)
    ensures PlaceholderKeys(ids) == seq(|ids|, i requires 0 <= i < |ids| => ids[i].0)
  {
    if |ids| > 0 {
      var n := |ids| - 1;
      assert forall i :: 0 <= i < n ==> ids[..n][i] == ids[i];
      AllPlaceholdersReported(ids[..n]);
    }
  }

  /** The script as shipped stops at validation with five error lines, one per Genie space. */
  lemma ShippedIdsFailValidation()
    ensures PlaceholderKeys(ShippedGenieIds)
            == ["dc_inventory", "dc_shipment_plan", "incoming_supply", "link_customer", "supplier_orders"]
  {
    var ids := ShippedGenieIds;
    forall i | 0 <= i < |ids|
      ensures IsPlaceholder(ids[i].1)
    {
      var rest := ids[i].1[|PlaceholderPrefix|..];
      assert ids[i].1 == PlaceholderPrefix + rest;
    }
    AllPlaceholdersReported(ids);
  }

  // ---------------------------------------------------------------- Step 2: agent list

  /** The type-specific field of an agent. */
  datatype AgentRef =
    | GenieSpaceId(spaceId: string)
    | UcFunctionName(functionName: string)
    | ConnectionName(connection: string)

  /** An agent in the shape the Agent Bricks API expects. */
  datatype Agent = Agent(name: string, description: string, ref: AgentRef)

  /** The fully qualified name of the demand-forecast UC function. */
  function UcFunction(cfg: SupervisorConfig): (r: string)
    ensures |r| == |cfg.ucCatalog| + |cfg.ucSchema| + |cfg.ucName| + 2
    ensures r[..|cfg.ucCatalog|] == cfg.ucCatalog && r[|cfg.ucCatalog|] == '.'
    ensures r[|cfg.ucCatalog| + 1..|cfg.ucCatalog| + 1 + |cfg.ucSchema|] == cfg.ucSchema
    ensures r[|r| - |cfg.ucName|..] == cfg.ucName && r[|r| - |cfg.ucName| - 1] == '.'
  {
    cfg.ucCatalog + "." + cfg.ucSchema + "." + cfg.ucName
  }

  /** The agent one configuration turns into, or why it cannot be built. */
  function AgentFor(config: AgentConfig, cfg: SupervisorConfig): (r: Result<Agent, SupervisorError>)
    ensures r.Success? ==> r.value.name == config.name && r.value.description == config.description
    ensures r.Success? <==> config.agentType in {"uc_function", "mcp_connection"}
                            || (config.agentType == "genie_space" && Lookup(cfg.genieSpaceIds, config.name).Some?)
    ensures config.agentType == "genie_space" && r.Success?
            ==> r.value.ref == GenieSpaceId(Lookup(cfg.genieSpaceIds, config.name).value)
                && exists i :: 0 <= i < |cfg.genieSpaceIds| && cfg.genieSpaceIds[i] == (config.name, r.value.ref.spaceId)
    ensures config.agentType == "uc_function" ==> r.Success? && r.value.ref == UcFunctionName(UcFunction(cfg))
    ensures config.agentType == "mcp_connection" ==> r.Success? && r.value.ref == ConnectionName(cfg.mcpConnection)
    ensures r.Failure? && config.agentType == "genie_space" ==> r.error == MissingGenieSpaceId(config.name)
    ensures r.Failure? && config.agentType != "genie_space" ==> r.error == UnknownAgentType(config.agentType)
  {
    if config.agentType == "genie_space" then
      match Lookup(cfg.genieSpaceIds, config.name)
      case None => Failure(MissingGenieSpaceId(config.name))
      case Some(id) => Success(Agent(config.name, config.description, GenieSpaceId(id)))
    else if config.agentType == "uc_function" then
      Success(Agent(config.name, config.description, UcFunctionName(UcFunction(cfg))))
    else if config.agentType == "mcp_connection" then
      Success(Agent(config.name, config.description, ConnectionName(cfg.mcpConnection)))
    else
      Failure(UnknownAgentType(config.agentType))
  }

  /** `build_agent_list`: the configurations converted in order; the first
      configuration that cannot be converted stops the conversion. */
  function AgentList(configs: seq<AgentConfig>, cfg: SupervisorConfig): (r: Result<seq<Agent>, SupervisorError>)
    ensures r.Success? <==> forall i :: 0 <= i < |configs| ==> AgentFor(configs[i], cfg).Success?
    ensures r.Success? ==> |r.value| == |configs|
                           && forall i :: 0 <= i < |configs| ==> r.value[i] == AgentFor(configs[i], cfg).value
    ensures r.Failure? ==> exists i :: 0 <= i < |configs| && AgentFor(configs[i], cfg) == Failure(r.error)
                                      && forall j :: 0 <= j < i ==> AgentFor(configs[j], cfg).Success?
  {
    if |configs| == 0 then Success([])
    else
      var n := |configs| - 1;
      assert forall i :: 0 <= i < n ==> configs[..n][i] == configs[i];
      match AgentList(configs[..n], cfg)
      case Failure(e) => Failure(e)
      case Success(agents) =>
        match AgentFor(configs[n], cfg)
        case Failure(e) => Failure(e)
        case Success(agent) => Success(agents + [agent])
  }

  /** `build_agent_list` as the script writes it: a loop that appends one agent per configuration. */
  method BuildAgentList(cfg: SupervisorConfig) returns (r: Result<seq<Agent>, SupervisorError>)
    ensures r == AgentList(cfg.agentConfigs, cfg)
    ensures r.Success? ==> forall i :: 0 <= i < |r.value| ==> r.value[i].name == cfg.agentConfigs[i].name
  {
    var configs := cfg.agentConfigs;
    var agents: seq<Agent> := [];
    var i := 0;
    while i < |configs|
      invariant 0 <= i <= |configs|
      invariant AgentList(configs[..i], cfg) == Success(agents)
    {
      var next := AgentFor(configs[i], cfg);
      AgentListSnoc(configs, cfg, i);
      if next.Failure? {
        AgentListStopsAtFailure(configs, cfg, i + 1);
        return Failure(next.error);
      }
      agents := agents + [next.value];
      i := i + 1;
    }
    assert configs[..i] == configs;
    r := Success(agents);
  }

  /** The list for one more configuration extends the list for the prefix,
      or fails with the first error. */
  lemma AgentListSnoc(configs: seq<AgentConfig>, cfg: SupervisorConfig, i: int)
    requires 0 <= i < |configs|
    ensures AgentList(configs[..i], cfg).Failure? ==> AgentList(configs[..i + 1], cfg) == AgentList(configs[..i], cfg)
    ensures AgentList(configs[..i], cfg).Success? && AgentFor(configs[i], cfg).Failure?
            ==> AgentList(configs[..i + 1], cfg) == Failure(AgentFor(configs[i], cfg).error)
    ensures AgentList(configs[..i], cfg).Success? && AgentFor(configs[i], cfg).Success?
            ==> AgentList(configs[..i + 1], cfg)
                == Success(AgentList(configs[..i], cfg).value + [AgentFor(configs[i], cfg).value])
  {
    assert configs[..i + 1][..i] == configs[..i];
    assert configs[..i + 1][i] == configs[i];
  }

  /** Once a prefix fails, every longer prefix fails with the same error. */
  lemma {:induction false} AgentListStopsAtFailure(configs: seq<AgentConfig>, cfg: SupervisorConfig, k: nat)
    requires k <= |configs| && AgentList(configs[..k], cfg).Failure?
    ensures AgentList(configs, cfg) == AgentList(configs[..k], cfg)
    decreases |configs| - k
  {
    if k < |configs| {
      assert configs[..k + 1][..k] == configs[..k];
      AgentListStopsAtFailure(configs, cfg, k + 1);
    } else {
      assert configs[..k] == configs;
    }
  }

  /** A configuration list whose types are all known and whose Genie agents
      all have ids builds one agent per configuration, names and descriptions
      carried over in order. */
  lemma AgentListComplete(configs: seq<AgentConfig>, cfg: SupervisorConfig)
    requires forall i :: 0 <= i < |configs| ==> configs[i].agentType in {"genie_space", "uc_function", "mcp_connection"}
    requires forall i :: 0 <= i < |configs| && configs[i].agentType == "genie_space"
                         ==> exists k :: 0 <= k < |cfg.genieSpaceIds| && cfg.genieSpaceIds[k].0 == configs[i].name
    ensures AgentList(configs, cfg).Success?
    ensures forall i :: 0 <= i < |configs| ==>
              AgentList(configs, cfg).value[i].name == configs[i].name
              && AgentList(configs, cfg).value[i].description == configs[i].description
  {
  }

  // ---------------------------------------------------------------- Step 3: create

  /** The body posted to the tile-resources endpoint. */
  datatype Payload = Payload(
    tileType: string, name: string, description: string, instructions: string,
    agents: seq<Agent>, examples: Option<seq<Example>>)

  /** The payload `create_supervisor_agent` posts: a supervisor tile, with an
      `examples` key only when there are examples. */
  function SupervisorPayload(cfg: SupervisorConfig, agents: seq<Agent>): (r: Payload)
    ensures r.tileType == "SUPERVISOR"
    ensures r.name == cfg.masName && r.description == cfg.description && r.instructions == cfg.instructions
    ensures r.agents == agents
    ensures r.examples.Some? <==> |cfg.examples| > 0
    ensures r.examples.Some? ==> r.examples.value == cfg.examples
  {
    Payload("SUPERVISOR", cfg.masName, cfg.description, cfg.instructions, agents,
            if |cfg.examples| > 0 then Some(cfg.examples) else None)
  }

  /** A top-level JSON field: absent, explicitly null, or a string. */
  datatype JsonField = Absent | JsonNull | JsonText(s: string)

  /** `field.get(key, default)` read as a string; None stands for Python's None. */
  function FieldOr(field: JsonField, default: string): (r: Option<string>)
    ensures field.Absent? ==> r == Some(default)
    ensures field.JsonNull? ==> r == None
    ensures field.JsonText? ==> r == Some(field.s)
  {
    match field
    case Absent => Some(default)
    case JsonNull => None
    case JsonText(s) => Some(s)
  }

  /** The fields of a tile resource the script reads. */
  datatype TileBody = TileBody(tileId: JsonField, endpointStatus: JsonField)

  /** `result.get("tile_id")`: the id, or None when it is missing or null. */
  function TileIdOf(body: TileBody): Option<string> {
    if body.tileId.JsonText? then Some(body.tileId.s) else None
  }

  /** What a call to the workspace produced: a reply with its status code and
      its body when that is JSON, or a transport failure (DNS, refused
      connection, timeout) on which `requests` raises. */
  datatype HttpReply = HttpReply(status: int, body: Option<TileBody>) | Unreachable

  /** `requests.Response.raise_for_status`: client and server error codes raise. */
  predicate RaisesForStatus(status: int) {
    400 <= status < 600
  }

  /** Why reading a reply raises, in the order the script meets the causes:
      the transport, then `raise_for_status`, then `.json()`. None when the
      body is read. */
  function ReplyError(reply: HttpReply): (r: Option<SupervisorError>)
    ensures r.None? <==> reply.HttpReply? && !RaisesForStatus(reply.status) && reply.body.Some?
    ensures reply.Unreachable? ==> r == Some(ConnectionFailed)
    ensures reply.HttpReply? && RaisesForStatus(reply.status) ==> r == Some(HttpError(reply.status))
    ensures reply.HttpReply? && !RaisesForStatus(reply.status) && reply.body.None? ==> r == Some(InvalidJson)
  {
    match reply
    case Unreachable => Some(ConnectionFailed)
    case HttpReply(status, body) =>
      if RaisesForStatus(status) then Some(HttpError(status))
      else if body.None? then Some(InvalidJson)
      else None
  }

  /** Where `_get_token` looks: the `DATABRICKS_TOKEN` setting ("" when
      unset) and the notebook context's token (None outside a notebook). */
  datatype Auth = Auth(envToken: string, notebookToken: Option<string>)

  /** `_get_token`: the configured token if it is set, else the notebook's;
      None stands for the RuntimeError raised when there is neither. */
  function Token(auth: Auth): (r: Option<string>)
    ensures auth.envToken != "" ==> r == Some(auth.envToken)
    ensures auth.envToken == "" ==> r == auth.notebookToken
  {
    if auth.envToken != "" then Some(auth.envToken) else auth.notebookToken
  }

  /** A request as sent: its Authorization header and its JSON payload. */
  datatype Request = Request(authorization: string, payload: Payload)

  /** What `create_supervisor_agent` did: the request it sent, if it got that
      far, and the tile it returned or why it raised. */
  datatype CreateRun = CreateRun(posted: Option<Request>, result: Result<TileBody, SupervisorError>)

  /** `create_supervisor_agent`: the agent list is built first, then the
      headers (the token lookup can raise), then the request is sent; a
      transport failure or an error code raises, any other reply is read as
      JSON. */
  function CreateSupervisorAgent(cfg: SupervisorConfig, auth: Auth, reply: HttpReply): (r: CreateRun)
    ensures r.posted.None? <==> AgentList(cfg.agentConfigs, cfg).Failure? || Token(auth).None?
    ensures AgentList(cfg.agentConfigs, cfg).Failure? ==> r.result == Failure(AgentList(cfg.agentConfigs, cfg).error)
    ensures AgentList(cfg.agentConfigs, cfg).Success? && Token(auth).None? ==> r.result == Failure(NoToken)
    ensures r.posted.Some?
            ==> r.posted.value == Request("Bearer " + Token(auth).value,
                                          SupervisorPayload(cfg, AgentList(cfg.agentConfigs, cfg).value))
    ensures r.posted.Some? ==> (r.result.Failure? <==> ReplyError(reply).Some?)
    ensures r.posted.Some? && reply.Unreachable? ==> r.result == Failure(ConnectionFailed)
    ensures r.posted.Some? && reply.HttpReply? && RaisesForStatus(reply.status)
            ==> r.result == Failure(HttpError(reply.status))
    ensures r.result.Success? ==> r.posted.Some? && reply.HttpReply? && reply.body == Some(r.result.value)
  {
    match AgentList(cfg.agentConfigs, cfg)
    case Failure(e) => CreateRun(None, Failure(e))
    case Success(agents) =>
      match Token(auth)
      case None => CreateRun(None, Failure(NoToken))
      case Some(token) =>
        var request := Request("Bearer " + token, SupervisorPayload(cfg, agents));
        match ReplyError(reply)
        case Some(e) => CreateRun(Some(request), Failure(e))
        case None => CreateRun(Some(request), Success(reply.body.value))
  }

  /** A status outside 200 and 201 that is not an error code, such as 202,
      does not raise: the body is read as the created tile. */
  lemma AcceptedReplyIsRead(cfg: SupervisorConfig, auth: Auth, body: TileBody)
    requires AgentList(cfg.agentConfigs, cfg).Success? && Token(auth).Some?
    ensures CreateSupervisorAgent(cfg, auth, HttpReply(202, Some(body))).result == Success(body)
  {
  }

  // ---------------------------------------------------------------- Step 4: wait

  /** The default of `timeout_seconds`. */
  const WaitTimeout: real := 300.0

  /** One pass of the waiting loop: the clock read by the loop test and the
      reply to the GET that follows when the test passes. */
  datatype Poll = Poll(clock: real, reply: HttpReply)

  /** The endpoint status a poll reports, "UNKNOWN" when absent. */
  function PolledStatus(p: Poll): Option<string> {
    if p.reply.Unreachable? || p.reply.body.None? then None
    else FieldOr(p.reply.body.value.endpointStatus, "UNKNOWN")
  }

  /** A poll at which the loop stops. */
  predicate Decisive(p: Poll, deadline: real) {
    || p.clock >= deadline
    || ReplyError(p.reply).Some?
    || PolledStatus(p) in {Some("ONLINE"), Some("FAILED")}
  }

  /** How the loop ends at a decisive poll. */
  function Verdict(p: Poll, deadline: real): (r: Result<bool, SupervisorError>)
    requires Decisive(p, deadline)
  {
    if p.clock >= deadline then Success(false)
    else if ReplyError(p.reply).Some? then Failure(ReplyError(p.reply).value)
    else Success(PolledStatus(p) == Some("ONLINE"))
  }

  /** The clock eventually reaches the deadline within the observed polls. */
  predicate ReachesDeadline(polls: seq<Poll>, deadline: real) {
    exists i :: 0 <= i < |polls| && polls[i].clock >= deadline
  }

  /** `wait_for_online` over the polls it makes: the first decisive poll settles it. */
  function WaitOutcome(polls: seq<Poll>, deadline: real): (r: Result<bool, SupervisorError>)
    requires ReachesDeadline(polls, deadline)
    ensures exists i :: 0 <= i < |polls| && Decisive(polls[i], deadline)
                        && (forall j :: 0 <= j < i ==> !Decisive(polls[j], deadline))
                        && r == Verdict(polls[i], deadline)
  {
    if Decisive(polls[0], deadline) then Verdict(polls[0], deadline)
    else
      var k :| 0 <= k < |polls| && polls[k].clock >= deadline;
      assert polls[1..][k - 1] == polls[k];
      var r := WaitOutcome(polls[1..], deadline);
      var i :| 0 <= i < |polls[1..]| && Decisive(polls[1..][i], deadline)
               && (forall j :: 0 <= j < i ==> !Decisive(polls[1..][j], deadline))
               && r == Verdict(polls[1..][i], deadline);
      assert forall j :: 1 <= j < i + 1 ==> polls[j] == polls[1..][j - 1];
      assert polls[i + 1] == polls[1..][i];
      r
  }

  /** The wait reports online only after an ONLINE status read before the
      deadline, and an ONLINE status before any stopping poll always reports online. */
  lemma WaitTrueIffOnline(polls: seq<Poll>, deadline: real, i: int)
    requires ReachesDeadline(polls, deadline)
    requires 0 <= i < |polls| && Decisive(polls[i], deadline)
    requires forall j :: 0 <= j < i ==> !Decisive(polls[j], deadline)
    ensures WaitOutcome(polls, deadline) == Success(true)
            <==> polls[i].clock < deadline && ReplyError(polls[i].reply).None?
                 && PolledStatus(polls[i]) == Some("ONLINE")
  {
    FirstDecisiveSettles(polls, deadline, i);
  }

  /** `wait_for_online` as the script writes it: a loop that polls until a decisive reading. */
  method WaitForOnline(start: real, timeout: real, polls: seq<Poll>) returns (r: Result<bool, SupervisorError>)
    requires ReachesDeadline(polls, start + timeout)
    ensures r == WaitOutcome(polls, start + timeout)
  {
    var deadline := start + timeout;
    ghost var k :| 0 <= k < |polls| && polls[k].clock >= deadline;
    var i := 0;
    while !Decisive(polls[i], deadline)
      invariant 0 <= i <= k
      invariant forall j :: 0 <= j < i ==> !Decisive(polls[j], deadline)
      decreases k - i
    {
      i := i + 1;
    }
    r := Verdict(polls[i], deadline);
    FirstDecisiveSettles(polls, deadline, i);
  }

  /** The outcome is the verdict of the first decisive poll. */
  lemma FirstDecisiveSettles(polls: seq<Poll>, deadline: real, i: int)
    requires ReachesDeadline(polls, deadline)
    requires 0 <= i < |polls| && Decisive(polls[i], deadline)
    requires forall j :: 0 <= j < i ==> !Decisive(polls[j], deadline)
    ensures WaitOutcome(polls, deadline) == Verdict(polls[i], deadline)
  {
    var r := WaitOutcome(polls, deadline);
    var k :| 0 <= k < |polls| && Decisive(polls[k], deadline)
             && (forall j :: 0 <= j < k ==> !Decisive(polls[j], deadline))
             && r == Verdict(polls[k], deadline);
    assert k == i;
  }

  // ---------------------------------------------------------------- recreate

  /** How `recreate` ended. */
  datatype RecreateOutcome =
    | NotValidated(errors: seq<string>)                       // validation failed; returns None
    | Raised(error: SupervisorError)                          // an exception escaped
    | Finished(tileId: Option<string>, online: Option<bool>)  // online is None when no wait was needed

  /** What `recreate` did: the request it sent, whether it waited, and how it ended. */
  datatype RecreateRun = RecreateRun(posted: Option<Request>, waited: bool, outcome: RecreateOutcome)

  /** Whether the status of a freshly created tile, "PROVISIONING" when absent, calls for waiting. */
  predicate NeedsWait(body: TileBody) {
    FieldOr(body.endpointStatus, "PROVISIONING") != Some("ONLINE")
  }

  /** `recreate`: validate, then create, then wait for the tile unless it is
      already online. `createReply` answers the POST, `polls` the GETs of the
      wait, which starts at clock reading `start`. */
  function Recreate(cfg: SupervisorConfig, auth: Auth, createReply: HttpReply, start: real, polls: seq<Poll>)
    : (r: RecreateRun)
    requires ReachesDeadline(polls, start + WaitTimeout)
    ensures r.outcome.NotValidated? <==> PlaceholderKeys(cfg.genieSpaceIds) != []
    ensures r.outcome.NotValidated? ==> r.posted.None? && !r.waited
                                        && |r.outcome.errors| == |PlaceholderKeys(cfg.genieSpaceIds)|
    ensures !r.outcome.NotValidated? ==> r.posted == CreateSupervisorAgent(cfg, auth, createReply).posted
    ensures r.waited <==> !r.outcome.NotValidated? && CreateSupervisorAgent(cfg, auth, createReply).result.Success?
                          && NeedsWait(CreateSupervisorAgent(cfg, auth, createReply).result.value)
    ensures !r.outcome.NotValidated? && CreateSupervisorAgent(cfg, auth, createReply).result.Failure?
            ==> r.outcome == Raised(CreateSupervisorAgent(cfg, auth, createReply).result.error)
    ensures !r.outcome.NotValidated? && CreateSupervisorAgent(cfg, auth, createReply).result.Success?
            ==> var body := CreateSupervisorAgent(cfg, auth, createReply).result.value;
                && (!NeedsWait(body) ==> r.outcome == Finished(TileIdOf(body), None))
                && (NeedsWait(body) && WaitOutcome(polls, start + WaitTimeout).Failure?
                    ==> r.outcome == Raised(WaitOutcome(polls, start + WaitTimeout).error))
                && (NeedsWait(body) && WaitOutcome(polls, start + WaitTimeout).Success?
                    ==> r.outcome == Finished(TileIdOf(body), Some(WaitOutcome(polls, start + WaitTimeout).value)))
  {
    var missing := PlaceholderKeys(cfg.genieSpaceIds);
    if missing != [] then
      RecreateRun(None, false, NotValidated(seq(|missing|, j requires 0 <= j < |missing| => MissingIdLine(missing[j]))))
    else
      var created := CreateSupervisorAgent(cfg, auth, createReply);
      match created.result
      case Failure(e) => RecreateRun(created.posted, false, Raised(e))
      case Success(body) =>
        if NeedsWait(body) then
          match WaitOutcome(polls, start + WaitTimeout)
          case Failure(e) => RecreateRun(created.posted, true, Raised(e))
          case Success(online) => RecreateRun(created.posted, true, Finished(TileIdOf(body), Some(online)))
        else
          RecreateRun(created.posted, false, Finished(TileIdOf(body), None))
  }

  /** The script ends with the tile ready (reported online, or already online
      when created) exactly when validation passes, a request is sent and
      its reply read, and either the created tile is already ONLINE or the
      first poll at which the wait stops reads ONLINE before the deadline. */
  lemma RecreateReadyIff(cfg: SupervisorConfig, auth: Auth, createReply: HttpReply, start: real,
                         polls: seq<Poll>, i: int)
    requires ReachesDeadline(polls, start + WaitTimeout)
    requires 0 <= i < |polls| && Decisive(polls[i], start + WaitTimeout)
    requires forall j :: 0 <= j < i ==> !Decisive(polls[j], start + WaitTimeout)
    ensures var run := Recreate(cfg, auth, createReply, start, polls);
            (run.outcome.Finished? && run.outcome.online != Some(false))
            <==> && (forall k :: 0 <= k < |cfg.genieSpaceIds| ==> !IsPlaceholder(cfg.genieSpaceIds[k].1))
                 && AgentList(cfg.agentConfigs, cfg).Success? && Token(auth).Some?
                 && ReplyError(createReply).None?
                 && (NeedsWait(createReply.body.value)
                     ==> polls[i].clock < start + WaitTimeout && ReplyError(polls[i].reply).None?
                         && PolledStatus(polls[i]) == Some("ONLINE"))
  {
    PlaceholderKeysEmptyIff(cfg.genieSpaceIds);
    WaitTrueIffOnline(polls, start + WaitTimeout, i);
  }

  /** With the ids as shipped, the script reports five errors and makes no call to the workspace. */
  lemma ShippedScriptStopsAtValidation(cfg: SupervisorConfig, auth: Auth, createReply: HttpReply,
                                       start: real, polls: seq<Poll>)
    requires cfg.genieSpaceIds == ShippedGenieIds
    requires ReachesDeadline(polls, start + WaitTimeout)
    ensures var run := Recreate(cfg, auth, createReply, start, polls);
            run.posted.None? && !run.waited && run.outcome.NotValidated? && |run.outcome.errors| == 5
  {
    ShippedIdsFailValidation();
  }
}
