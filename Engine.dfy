/** The decision nodes of `agent-backend/agents/engine.py`: perceive fills in
    observations, reason picks an action from the number of nearby agents,
    act hands the state on. Each node returns a new record that differs from
    its input only in the fields it sets. The graph library that chains them
    is replaced by plain composition (`Cycle`). */
module Engine {
  import Decimal

  /** One agent's state as the nodes pass it along. */
  datatype AgentState = AgentState(
    agentId: int,
    position: seq<real>,
    observations: seq<string>,
    reasoning: string,
    action: string,
    nearbyAgents: seq<int>)

  const NoNearbyObservation := "No nearby agents detected"
  const QuietObservation := "Environment appears quiet"

  const Idle := "idle"
  const Working := "working"
  const Communicating := "communicating"

  const IdleReasoning := "No agents nearby, continue current activity"
  const WorkingReasoning := "Single agent nearby, could collaborate or communicate"

  /** The first observation when `n` agents are near. */
  function DetectedObservation(n: nat): string {
    "Detected " + Decimal.NatToString(n) + " nearby agents"
  }

  /** The reasoning when `n` (two or more) agents are near. */
  function GroupReasoning(n: nat): string {
    "Multiple agents (" + Decimal.NatToString(n) + ") detected, initiate group communication"
  }

  /** Three observations, which say whether agents are near, where the agent
      is, and (when agents are near) what it was doing. Python's rendering of
      the position list is the parameter `showPosition`. Nothing else changes. */
  function PerceiveNode(s: AgentState, showPosition: seq<real> -> string): (r: AgentState)
    ensures r == s.(observations := r.observations)
    ensures |r.observations| == 3
    ensures r.observations[0] == NoNearbyObservation <==> s.nearbyAgents == []
    ensures s.nearbyAgents != [] ==>
      r.observations[0] == DetectedObservation(|s.nearbyAgents|)
      && r.observations[2] == "Current state: " + s.action
    ensures s.nearbyAgents == [] ==> r.observations[2] == QuietObservation
    ensures r.observations[1] == "Current position: " + showPosition(s.position)
  {
    var position := "Current position: " + showPosition(s.position);
    if s.nearbyAgents != [] then
      var detected := DetectedObservation(|s.nearbyAgents|);
      assert detected[0] == 'D' != NoNearbyObservation[0];
      s.(observations := [detected, position, "Current state: " + s.action])
    else
      s.(observations := [NoNearbyObservation, position, QuietObservation])
  }

  /** Idle with no agents near, working with exactly one, communicating with
      two or more; the reasoning says which. Nothing else changes. */
  function ReasonNode(s: AgentState): (r: AgentState)
    ensures r == s.(reasoning := r.reasoning, action := r.action)
    ensures r.action == Idle <==> |s.nearbyAgents| == 0
    ensures r.action == Working <==> |s.nearbyAgents| == 1
    ensures r.action == Communicating <==> |s.nearbyAgents| >= 2
    ensures |s.nearbyAgents| == 0 ==> r.reasoning == IdleReasoning
    ensures |s.nearbyAgents| == 1 ==> r.reasoning == WorkingReasoning
    ensures |s.nearbyAgents| >= 2 ==> r.reasoning == GroupReasoning(|s.nearbyAgents|)
  {
    var n := |s.nearbyAgents|;
    if n == 0 then s.(reasoning := IdleReasoning, action := Idle)
    else if n == 1 then s.(reasoning := WorkingReasoning, action := Working)
    else s.(reasoning := GroupReasoning(n), action := Communicating)
  }

  /** The act node only inspects the action: executing it is not part of the
      engine, so the state passes through. */
  function ActNode(s: AgentState): (r: AgentState)
    ensures r == s
  {
    s
  }

  /** One perceive, reason, act cycle. Perceiving and reasoning touch
      different fields and reasoning reads only the neighbours, so the cycle
      is the reasoning on the original state with the perceived observations. */
  function Cycle(s: AgentState, showPosition: seq<real> -> string): (r: AgentState)
    ensures r == ReasonNode(s).(observations := PerceiveNode(s, showPosition).observations)
  {
    ActNode(ReasonNode(PerceiveNode(s, showPosition)))
  }

  /** A cycle keeps the agent's id, position and neighbours; its observations
      are the ones perceived before reasoning, the third of which reports
      the action the agent had before the cycle. */
  lemma CycleKeepsIdentity(s: AgentState, showPosition: seq<real> -> string)
    ensures var r := Cycle(s, showPosition);
      && r.agentId == s.agentId && r.position == s.position && r.nearbyAgents == s.nearbyAgents
      && r.observations == PerceiveNode(s, showPosition).observations
      && (s.nearbyAgents != [] ==> r.observations[2] == "Current state: " + s.action)
  {
  }

  /** The action and reasoning after a cycle depend only on how many agents
      are near: not on the agent, its position, its earlier action or which
      agents they are. */
  lemma CycleDecisionDependsOnlyOnCount(s1: AgentState, s2: AgentState,
                                        show1: seq<real> -> string, show2: seq<real> -> string)
    requires |s1.nearbyAgents| == |s2.nearbyAgents|
    ensures Cycle(s1, show1).action == Cycle(s2, show2).action
    ensures Cycle(s1, show1).reasoning == Cycle(s2, show2).reasoning
  {
    var n := |s1.nearbyAgents|;
    if n >= 2 {
      assert Cycle(s1, show1).reasoning == GroupReasoning(n);
      assert Cycle(s2, show2).reasoning == GroupReasoning(n);
    }
  }

  /** Running cycles with the same neighbours settles after two: the second
      cycle observes the action the first chose, and later cycles repeat it. */
  lemma CycleSettles(s: AgentState, showPosition: seq<real> -> string)
    ensures var once := Cycle(s, showPosition);
      var twice := Cycle(once, showPosition);
      && twice.action == once.action
      && Cycle(twice, showPosition) == twice
  {
    var once := Cycle(s, showPosition);
    var twice := Cycle(once, showPosition);
    assert twice.observations == PerceiveNode(once, showPosition).observations;
    assert Cycle(twice, showPosition).observations == PerceiveNode(twice, showPosition).observations;
  }

  /** The sample run at the bottom of the module: two agents near an idle
      agent make it communicate. */
  lemma SampleCycle(showPosition: seq<real> -> string)
    ensures var r := Cycle(AgentState(1, [0.0, 0.0], [], "", "idle", [2, 3]), showPosition);
      && r.action == "communicating"
      && r.reasoning == "Multiple agents (2) detected, initiate group communication"
      && r.observations[0] == "Detected 2 nearby agents"
      && r.observations[2] == "Current state: idle"
  {
    var s := AgentState(1, [0.0, 0.0], [], "", "idle", [2, 3]);
    var r := Cycle(s, showPosition);
    assert |s.nearbyAgents| == 2;
    assert r.reasoning == GroupReasoning(2) && r.observations[0] == DetectedObservation(2);
    TwoAgentTexts();
  }

  lemma TwoAgentTexts()
    ensures GroupReasoning(2) == "Multiple agents (2) detected, initiate group communication"
    ensures DetectedObservation(2) == "Detected 2 nearby agents"
  {
    TwoRendering();
    TextsWith(Decimal.NatToString(2));
  }

  lemma TwoRendering()
    ensures Decimal.NatToString(2) == "2"
  {
    assert Decimal.DigitChar(2) == '2';
  }

  lemma TextsWith(digits: string)
    requires digits == "2"
    ensures "Multiple agents (" + digits + ") detected, initiate group communication"
         == "Multiple agents (2) detected, initiate group communication"
    ensures "Detected " + digits + " nearby agents" == "Detected 2 nearby agents"
  {
  }
}
