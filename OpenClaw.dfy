/** The pure helpers of `agent-backend/integrations/openclaw.py`: the state
    mapping, the request headers, the URL normalisation done when a gateway
    client is built, and the conversion of a gateway agent into the record
    the visualisation draws. Python's `hash` of a string is a parameter. */
module OpenClaw {
  import opened Wrappers
  import Decimal

  // ---------------------------------------------------------------------------
  // State mapping

  /** Python's `str.lower` on one character, as far as it matters here: the
      ASCII capitals and the Kelvin sign, the one other character whose
      lower case is an ASCII letter ('k'). Every other character is kept. */
  function LowerChar(c: char): (d: char)
    ensures 'A' <= c <= 'Z' ==> d as int == c as int + 32
    ensures c == '\U{212A}' ==> d == 'k'
    ensures !('A' <= c <= 'Z') && c != '\U{212A}' ==> d == c
  {
    if 'A' <= c <= 'Z' then (c as int + 32) as char
    else if c == '\U{212A}' then 'k'
    else c
  }

  function Lower(s: string): (r: string)
    ensures |r| == |s| && forall i :: 0 <= i < |s| ==> r[i] == LowerChar(s[i])
  {
    seq(|s|, i requires 0 <= i < |s| => LowerChar(s[i]))
  }

  /** Lowering twice lowers nothing more. */
  lemma LowerIdempotent(s: string)
    ensures Lower(Lower(s)) == Lower(s)
  {
    assert forall i :: 0 <= i < |s| ==> LowerChar(LowerChar(s[i])) == LowerChar(s[i]);
  }

  /** The visualisation's states. */
  const VisualStates: set<string> := {"idle", "working", "reasoning", "communicating", "error"}

  /** The gateway's (lower-case) states and the visualisation state of each. */
  const StateMap: map<string, string> := map[
    "idle" := "idle",
    "working" := "working",
    "thinking" := "reasoning",
    "reasoning" := "reasoning",
    "communicating" := "communicating",
    "error" := "error"]

  /** A gateway state, in any case, mapped to a visualisation state: thinking
      and reasoning both become reasoning, the other listed states keep
      their name, and anything else becomes idle. */
  function MapState(state: string): (r: string)
    ensures r in VisualStates
    ensures r == "reasoning" <==> Lower(state) in {"thinking", "reasoning"}
    ensures r == "idle" <==> Lower(state) !in {"working", "thinking", "reasoning", "communicating", "error"}
    ensures Lower(state) in VisualStates ==> r == Lower(state)
  {
    var key := Lower(state);
    if key in StateMap then StateMap[key] else "idle"
  }

  /** Every result maps to itself. */
  lemma MapStateIdempotent(state: string)
    ensures MapState(MapState(state)) == MapState(state)
  {
    var r := MapState(state);
    assert Lower(r) == r by {
      assert forall i :: 0 <= i < |r| ==> 'a' <= r[i] <= 'z';
    }
  }

  /** Case does not matter. */
  lemma MapStateIgnoresCase(state: string)
    ensures MapState(Lower(state)) == MapState(state)
  {
    LowerIdempotent(state);
  }

  /** Some mappings: upper case, the Kelvin sign, an unknown state. */
  lemma MapStateExamples()
    ensures MapState("THINKING") == "reasoning"
    ensures MapState("Wor\U{212A}ing") == "working"
    ensures MapState("sleeping") == "idle"
  {
    assert Lower("THINKING") == "thinking";
    assert Lower("Wor\U{212A}ing") == "working";
    assert Lower("sleeping") == "sleeping";
  }

  // ---------------------------------------------------------------------------
  // Gateway client

  /** `s` with every trailing `c` removed. */
  function RStrip(s: string, c: char): (r: string)
    ensures |r| <= |s| && r == s[..|r|]
    ensures r == [] || r[|r| - 1] != c
    ensures forall k :: |r| <= k < |s| ==> s[k] == c
  {
    if s != [] && s[|s| - 1] == c then RStrip(s[..|s| - 1], c) else s
  }

  /** Stripping twice strips nothing more, and only the trailing run goes:
      a string with no trailing `c` is kept. */
  lemma RStripIdempotent(s: string, c: char)
    ensures RStrip(RStrip(s, c), c) == RStrip(s, c)
    ensures s == [] || s[|s| - 1] != c ==> RStrip(s, c) == s
  {
  }

  /** RStrip removes exactly the trailing run: appending any number of `c`
      to a string without a trailing `c` and stripping gives it back. */
  lemma {:induction false} RStripAppended(base: string, c: char, n: nat)
    requires base == [] || base[|base| - 1] != c
    ensures RStrip(base + seq(n, _ => c), c) == base
    decreases n
  {
    if n > 0 {
      var s := base + seq(n, _ => c);
      assert s[..|s| - 1] == base + seq(n - 1, _ => c);
      RStripAppended(base, c, n - 1);
    } else {
      assert base + seq(0, _ => c) == base;
    }
  }

  const DefaultGatewayUrl := "http://localhost:18789"
  const DefaultTimeout: real := 10.0

  const ContentType := "Content-Type"
  const Accept := "Accept"
  const Authorization := "Authorization"
  const Json := "application/json"

  /** The client's configuration; the HTTP connection itself is not modelled. */
  class GatewayClient {
    var gatewayUrl: string
    var apiKey: Option<string>
    var timeout: real
    var connected: bool

    /** The URL is stored without trailing slashes; the client starts disconnected. */
    constructor(gatewayUrl: string := DefaultGatewayUrl, apiKey: Option<string> := None,
                timeout: real := DefaultTimeout)
      ensures this.gatewayUrl == RStrip(gatewayUrl, '/')
      ensures this.apiKey == apiKey && this.timeout == timeout && !connected
    {
      this.gatewayUrl := RStrip(gatewayUrl, '/');
      this.apiKey := apiKey;
      this.timeout := timeout;
      connected := false;
    }

    /** A key is sent only when it is truthy in Python: neither None nor "". */
    predicate HasKey(): (r: bool)
      reads this
      ensures r <==> apiKey != None && apiKey != Some("")
    {
      apiKey.Some? && apiKey.value != ""
    }

    /** JSON content type and accept headers always; a bearer authorization
        header exactly when there is a key; nothing else. */
    method GetHeaders() returns (headers: map<string, string>)
      ensures ContentType in headers && headers[ContentType] == Json
      ensures Accept in headers && headers[Accept] == Json
      ensures Authorization in headers <==> HasKey()
      ensures HasKey() ==> headers[Authorization] == "Bearer " + apiKey.value
      ensures headers.Keys <= {ContentType, Accept, Authorization}
    {
      headers := map[ContentType := Json, Accept := Json];
      if apiKey.Some? && apiKey.value != "" {
        headers := headers[Authorization := "Bearer " + apiKey.value];
      }
    }
  }

  /** A client built with the defaults talks to the local gateway without a key. */
  method DefaultClientHeaders() returns (url: string, headers: map<string, string>)
    ensures url == DefaultGatewayUrl
    ensures headers.Keys == {ContentType, Accept}
  {
    var client := new GatewayClient();
    url := client.gatewayUrl;
    headers := client.GetHeaders();
  }

  // ---------------------------------------------------------------------------
  // Agent ids and the visualisation record

  /** The numeric id of a gateway id: its value when it is a non-empty string
      of ASCII digits, otherwise its hash reduced to [0, 1000) (Python's `%`
      with a positive divisor is never negative). */
  function VisualId(id: string, hash: string -> int): (r: int)
    ensures r >= 0
    ensures !(id != [] && Decimal.AllDigits(id)) ==> r == hash(id) % 1000 && r < 1000
  {
    if id != [] && Decimal.AllDigits(id) then Decimal.ParseDigits(id) else hash(id) % 1000
  }

  /** A rendered number reads back as that number. */
  lemma VisualIdOfNumber(n: nat, hash: string -> int)
    ensures VisualId(Decimal.NatToString(n), hash) == n
  {
    Decimal.ParseNatToString(n);
  }

  /** Characters other than ASCII digits that Python's `str.isdigit` accepts
      but `int` rejects: superscript and subscript digits. */
  predicate IsNonDecimalDigit(c: char) {
    c == '\U{00B2}' || c == '\U{00B3}' || c == '\U{00B9}' || c == '\U{2070}'
    || '\U{2074}' <= c <= '\U{2079}' || '\U{2080}' <= c <= '\U{2089}'
  }

  predicate PyIsDigit(s: string) {
    s != [] && forall k :: 0 <= k < |s| ==> Decimal.IsDigitChar(s[k]) || IsNonDecimalDigit(s[k])
  }

  /** The id conversion as written: `isdigit` decides, and `int` then raises
      `ValueError` for a superscript or subscript digit. */
  function VisualIdAsWritten(id: string, hash: string -> int): (r: Result<int, string>)
    ensures r.Failure? <==> PyIsDigit(id) && !Decimal.AllDigits(id)
    ensures r.Success? ==> r.value == VisualId(id, hash)
  {
    if PyIsDigit(id) then
      if Decimal.AllDigits(id) then Success(Decimal.ParseDigits(id)) else Failure("ValueError")
    else Success(hash(id) % 1000)
  }

  /** The id "²" passes the `isdigit` test and then makes the conversion raise. */
  lemma SuperscriptIdRaises(hash: string -> int)
    ensures VisualIdAsWritten("\U{00B2}", hash) == Failure("ValueError")
    ensures VisualId("\U{00B2}", hash) == hash("\U{00B2}") % 1000
  {
    assert !Decimal.IsDigitChar('\U{00B2}');
  }

  /** An agent as the gateway reports it. */
  datatype GatewayAgent = GatewayAgent(
    id: string,
    name: string,
    state: string,
    position: seq<real>,
    model: string,
    channel: string,
    reasoning: Option<string>,
    nearbyAgents: seq<string>,
    lastUpdated: real)

  /** The record the visualisation draws. */
  datatype VisualAgent = VisualAgent(
    id: int,
    position: seq<real>,
    state: string,
    nearbyAgents: seq<int>,
    reasoning: Option<string>,
    name: string,
    model: string,
    channel: string)

  /** The gateway agent with its ids made numeric, its neighbours converted
      one by one and its state mapped; the other fields are copied. */
  function MapAgentToVisualization(agent: GatewayAgent, hash: string -> int): (v: VisualAgent)
    ensures v.id == VisualId(agent.id, hash)
    ensures |v.nearbyAgents| == |agent.nearbyAgents|
    ensures forall i :: 0 <= i < |agent.nearbyAgents| ==>
      v.nearbyAgents[i] == VisualId(agent.nearbyAgents[i], hash)
    ensures v.state == MapState(agent.state)
    ensures v.position == agent.position && v.reasoning == agent.reasoning
    ensures v.name == agent.name && v.model == agent.model && v.channel == agent.channel
  {
    VisualAgent(
      VisualId(agent.id, hash),
      agent.position,
      MapState(agent.state),
      seq(|agent.nearbyAgents|, i requires 0 <= i < |agent.nearbyAgents| => VisualId(agent.nearbyAgents[i], hash)),
      agent.reasoning,
      agent.name,
      agent.model,
      agent.channel)
  }

  /** Neighbour references survive the mapping: a neighbour named by another
      agent's id points at that agent's numeric id. */
  lemma NeighbourIdsResolve(agent: GatewayAgent, other: GatewayAgent, i: nat, hash: string -> int)
    requires i < |agent.nearbyAgents| && agent.nearbyAgents[i] == other.id
    ensures MapAgentToVisualization(agent, hash).nearbyAgents[i] == MapAgentToVisualization(other, hash).id
  {
  }

  /** A mapped record's state is already a visualisation state, so mapping
      it again changes nothing. */
  lemma MappedStateIsFinal(agent: GatewayAgent, hash: string -> int)
    ensures var v := MapAgentToVisualization(agent, hash);
      v.state in VisualStates && MapState(v.state) == v.state
  {
    MapStateIdempotent(agent.state);
  }
}
