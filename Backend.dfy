/** The request handlers of `agent-backend/main.py` that hold logic: the
    placeholder decision rule and the two lookups over the in-memory agent
    table. The web framework, its response-model validation and the
    task-creation endpoint are not part of this model. */
module Backend {
  import opened Wrappers
  import Decimal
  import Engine

  datatype DecisionRequest = DecisionRequest(agentId: int, position: seq<real>, nearbyAgents: seq<int>)
  datatype DecisionResponse = DecisionResponse(agentId: int, action: string, reasoning: string)

  const IdleReasoning := "No nearby agents detected, maintaining idle state"
  const WorkingReasoning := "Single nearby agent detected, beginning collaborative work"

  /** The reasoning when `n` (more than one) agents are near. */
  function GroupReasoning(n: nat): string {
    "Detected " + Decimal.NatToString(n) + " nearby agents, initiating communication"
  }

  /** Idle with no agents near, working with one, communicating with more;
      the response echoes the requesting agent's id. */
  function DecideAgentAction(request: DecisionRequest): (r: DecisionResponse)
    ensures r.agentId == request.agentId
    ensures r.action == "idle" <==> request.nearbyAgents == []
    ensures r.action == "working" <==> |request.nearbyAgents| == 1
    ensures r.action == "communicating" <==> |request.nearbyAgents| > 1
    ensures request.nearbyAgents == [] ==> r.reasoning == IdleReasoning
    ensures |request.nearbyAgents| == 1 ==> r.reasoning == WorkingReasoning
    ensures |request.nearbyAgents| > 1 ==> r.reasoning == GroupReasoning(|request.nearbyAgents|)
  {
    var n := |request.nearbyAgents|;
    if n == 0 then DecisionResponse(request.agentId, "idle", IdleReasoning)
    else if n > 1 then DecisionResponse(request.agentId, "communicating", GroupReasoning(n))
    else DecisionResponse(request.agentId, "working", WorkingReasoning)
  }

  /** The endpoint decides the same action as the engine's reason node for
      the same number of nearby agents (the reasoning texts differ). */
  lemma DecisionAgreesWithEngine(request: DecisionRequest, state: Engine.AgentState)
    requires |state.nearbyAgents| == |request.nearbyAgents|
    ensures DecideAgentAction(request).action == Engine.ReasonNode(state).action
  {
    var n := |request.nearbyAgents|;
    if n == 0 {
      assert Engine.ReasonNode(state).action == Engine.Idle;
    } else if n == 1 {
      assert Engine.ReasonNode(state).action == Engine.Working;
    } else {
      assert Engine.ReasonNode(state).action == Engine.Communicating;
    }
  }

  // ---------------------------------------------------------------------------
  // The agent table

  /** A stored agent; positions are the table's integer literals. */
  datatype AgentRecord = AgentRecord(id: int, position: seq<int>, state: string)

  /** A dictionary from agent id to record, as its entries in insertion order. */
  type AgentTable = seq<(int, AgentRecord)>

  /** No id is stored twice, as in a dictionary. */
  predicate KeysDistinct(db: AgentTable) {
    forall i, j :: 0 <= i < j < |db| ==> db[i].0 != db[j].0
  }

  /** The table the service starts with. */
  const AgentsDb: AgentTable := [
    (1, AgentRecord(1, [-2, 0], "idle")),
    (2, AgentRecord(2, [0, 0], "working")),
    (3, AgentRecord(3, [2, 0], "communicating"))]

  /** The record stored under `id`, if any. */
  function Lookup(db: AgentTable, id: int): (r: Option<AgentRecord>)
    ensures r.Some? <==> exists i :: 0 <= i < |db| && db[i].0 == id
    ensures r.Some? ==> (id, r.value) in db
  {
    if db == [] then None
    else if db[0].0 == id then Some(db[0].1)
    else
      var r := Lookup(db[1..], id);
      assert forall i :: 1 <= i < |db| ==> db[i] == db[1..][i - 1];
      r
  }

  /** In a table without repeated ids, the lookup of an entry's id gives that entry. */
  lemma {:induction false} LookupFindsEntry(db: AgentTable, i: nat)
    requires KeysDistinct(db) && i < |db|
    ensures Lookup(db, db[i].0) == Some(db[i].1)
    decreases i
  {
    if i > 0 {
      var rest := db[1..];
      assert KeysDistinct(rest) by {
        forall a, b | 0 <= a < b < |rest|
          ensures rest[a].0 != rest[b].0
        {
          assert rest[a] == db[a + 1] && rest[b] == db[b + 1];
        }
      }
      LookupFindsEntry(rest, i - 1);
      assert rest[i - 1] == db[i];
    }
  }

  datatype AgentLookup = Found(record: AgentRecord) | NotFound(error: string)

  const AgentNotFound := "Agent not found"

  /** The record of a stored id, or the error object for any other id. */
  function GetAgentIn(db: AgentTable, id: int): (r: AgentLookup)
    ensures r.Found? <==> exists i :: 0 <= i < |db| && db[i].0 == id
    ensures r.Found? ==> (id, r.record) in db
    ensures r.NotFound? ==> r.error == AgentNotFound
  {
    match Lookup(db, id)
    case Some(record) => Found(record)
    case None => NotFound(AgentNotFound)
  }

  /** The endpoint over the service's own table: agents 1 to 3 are found,
      each under its own id; every other id is not found. */
  function GetAgent(id: int): (r: AgentLookup)
    ensures r.Found? <==> 1 <= id <= 3
    ensures r.Found? ==> r.record.id == id
    ensures r.NotFound? ==> r.error == AgentNotFound
  {
    AgentsDbWellFormed();
    GetAgentIn(AgentsDb, id)
  }

  /** Every stored record, in insertion order. */
  function ListAgentsIn(db: AgentTable): (r: seq<AgentRecord>)
    ensures |r| == |db|
    ensures forall i :: 0 <= i < |db| ==> r[i] == db[i].1
  {
    seq(|db|, i requires 0 <= i < |db| => db[i].1)
  }

  /** The endpoint over the service's own table: the three records, by id. */
  function ListAgents(): (r: seq<AgentRecord>)
    ensures |r| == 3
    ensures forall i :: 0 <= i < |r| ==> r[i].id == i + 1
  {
    ListAgentsIn(AgentsDb)
  }

  /** Listing and looking up agree: each listed record is what a lookup of
      its key returns, and every record that a lookup finds is listed. */
  lemma ListAndGetAgree(db: AgentTable, id: int)
    requires KeysDistinct(db)
    ensures forall i :: 0 <= i < |db| ==> GetAgentIn(db, db[i].0) == Found(ListAgentsIn(db)[i])
    ensures GetAgentIn(db, id).Found? ==> GetAgentIn(db, id).record in ListAgentsIn(db)
  {
    forall i | 0 <= i < |db|
      ensures GetAgentIn(db, db[i].0) == Found(ListAgentsIn(db)[i])
    {
      LookupFindsEntry(db, i);
    }
    var r := GetAgentIn(db, id);
    if r.Found? {
      var i :| 0 <= i < |db| && db[i] == (id, r.record);
      assert ListAgentsIn(db)[i] == r.record;
    }
  }

  /** The service's table has no repeated ids, and each record carries its key. */
  lemma AgentsDbWellFormed()
    ensures KeysDistinct(AgentsDb)
    ensures forall i :: 0 <= i < |AgentsDb| ==> AgentsDb[i].1.id == AgentsDb[i].0
  {
  }

  /** The lookups the table answers: agent 2 is found, agent 4 is not, and
      the listing holds the three records in order. */
  lemma AgentEndpointExamples()
    ensures GetAgent(2) == Found(AgentRecord(2, [0, 0], "working"))
    ensures GetAgent(4) == NotFound("Agent not found")
    ensures |ListAgents()| == 3 && ListAgents()[0].state == "idle"
  {
    AgentsDbWellFormed();
    LookupFindsEntry(AgentsDb, 1);
  }
}
