# Agent marketplace demo: a verified model of its logic

This project models the deterministic core of the agent marketplace demo in
Dafny. The demo is a browser visualisation of agents that move about, show
state colours, draw connection lines and exchange message bubbles, plus a
small Python backend that decides agent actions and adapts agents reported
by an OpenClaw gateway. The project covers:

- the message-bubble queue. It is a keyed store with an id counter, add,
  remove, snapshot, a time-based expiry sweep and clear-all. Around it sit
  the per-bubble fade timer, label truncation and the canned-message
  chooser (`MessageBubble.dfy`).
- the motion helpers: one interpolation step and the arrival test
  (`Movement.dfy`).
- the sprite frame index and the state colour (`SpriteAnimation.dfy`).
- the connection-line policy (`ConnectionLines.dfy`).
- the second truncation helper and the bubble predicate
  (`MessageBubbles.dfy`).
- the pause switch (`PauseResume.dfy`).
- `TaskQueue`'s status filter and its `addTask` rule, with JavaScript's
  `trim` (`TaskQueue.dfy`).
- the perceive, reason and act nodes of the agent engine and their
  composition (`Engine.dfy`).
- the backend's decision endpoint and its agent-table lookups
  (`Backend.dfy`).
- the OpenClaw state mapping, request headers, URL normalisation and agent
  conversion (`OpenClaw.dfy`).

`Wrappers.dfy` holds `Option` and `Result`. `Decimal.dfy` renders numbers in
base ten and parses them back; templates and f-strings use it to build ids
and texts.

Two kinds of source code are modelled differently:

- Code that updates state in place becomes a class whose methods change its
  fields. These are the queue (a `map` plus an insertion-order `seq` and a
  counter), the pause switch and the `TaskBoard`.
- Code that builds values becomes functions with lemmas.

Wall-clock readings are `now` parameters in integer milliseconds. Python's
`hash` and its rendering of a float list are function parameters.

The two ways a bubble leaves the queue use different comparisons. The sweep
in `MessageBubble.tsx:181` removes a bubble only when strictly more than its
duration has passed, and so does `MessageBubble.Expired`. The per-bubble
timer at `MessageBubble.tsx:55` completes once the elapsed time reaches the
duration, and `MessageBubble.FadeTick` models that.

## Model

| member | source | states |
|---|---|---|
| Decimal.NatToString | src/components/MessageBubble.tsx:161 | a template's rendering of a count is a non-empty string of ASCII digits, one digit long exactly below 10, with no leading zero for a positive count |
| Decimal.ParseNatToString | src/components/MessageBubble.tsx:161 | reading a rendered count back in base ten gives the count |
| Decimal.NatToStringInjective | src/components/MessageBubble.tsx:161 | different counts render differently |
| Decimal.IntToStringInjective | src/components/TaskQueue.tsx:30 | different integers, negative ones included, render differently |
| MessageBubble.EffectiveDuration | src/components/MessageBubble.tsx:168 | an absent or zero duration becomes 3000; any other value, negative included, is kept |
| MessageBubble.IdOf | src/components/MessageBubble.tsx:161 | an id is `msg-` followed by a non-empty run of ASCII digits |
| MessageBubble.IdOfIssuedBefore | src/components/MessageBubble.tsx:161 | the digits of the id `msg-k` parse back to k, so for every counter value above k the id counts as issued before it |
| MessageBubble.IdOfIsFresh | src/components/MessageBubble.tsx:161 | the id made from the current counter is not among the ids issued before it |
| MessageBubble.IdOfInjective | src/components/MessageBubble.tsx:161 | different counter values give different ids |
| MessageBubble.ExpiredAfterTimer | src/components/MessageBubble.tsx:181 | the sweep removes a bubble exactly when its own fade timer has completed and the elapsed time is not exactly its duration; for a stored bubble, whose duration is never 0, the same holds of the component's timer on the effective duration |
| MessageBubble.Swept | src/components/MessageBubble.tsx:178-185 | after a sweep a bubble stays exactly when it has not expired (strict `>`), and kept bubbles are unchanged |
| MessageBubble.SweptAmongStep | src/components/MessageBubble.tsx:180-184 | visiting one more key removes it exactly when it has expired |
| MessageBubble.SweptIdempotent | src/components/MessageBubble.tsx:178-185 | a second sweep at the same time removes nothing |
| MessageBubble.SweptAfterRemove | src/components/MessageBubble.tsx:178-185 | removing a bubble and then sweeping gives the same store as sweeping and then removing it |
| MessageBubble.SweptMonotone | src/components/MessageBubble.tsx:181 | a later sweep keeps no bubble that an earlier sweep removed |
| MessageBubble.MessageQueue.constructor | src/components/MessageBubble.tsx:153-159 | the queue starts empty with its counter at 0 |
| MessageBubble.MessageQueue.AddMessage | src/components/MessageBubble.tsx:160-171 | returns `msg-<old counter>`, which was not present; the counter rises by one; exactly that entry is added, with from, to, text, `now` and the effective duration; it goes last in insertion order; the queue invariant is kept |
| MessageBubble.MessageQueue.RemoveMessage | src/components/MessageBubble.tsx:172-174 | deletes only that key and keeps the order of the rest; an absent id changes nothing |
| MessageBubble.MessageQueue.GetAllMessages | src/components/MessageBubble.tsx:175-177 | returns every stored bubble once, in insertion order, with distinct ids |
| MessageBubble.MessageQueue.Cleanup | src/components/MessageBubble.tsx:178-185 | the loop that deletes while it iterates leaves exactly the sweep of the old store, in the old order, and keeps the counter |
| MessageBubble.MessageQueue.ClearAll | src/components/MessageBubble.tsx:209-214 | removing each snapshot entry in turn empties the queue and keeps the counter |
| MessageBubble.FadeTick | src/components/MessageBubble.tsx:50-62 | one interval run completes iff elapsed >= duration; it holds iff elapsed < duration - 500; otherwise the opacity (duration - elapsed)/500 lies in (0, 1] |
| MessageBubble.FadeOpacityDecreasing | src/components/MessageBubble.tsx:58-61 | the fading opacity never rises as time passes |
| MessageBubble.FadeTimer | src/components/MessageBubble.tsx:50-62 | the interval loop fires onComplete at most once, and exactly when some reading reaches the duration; the opacity stays in (0, 1], stays 1 while every reading holds, and, when the timer has not completed and the last reading is in the fade window, is the opacity that reading sets |
| MessageBubble.FadeTimerAtDefaultReading | src/components/MessageBubble.tsx:53-60 | a default bubble read once at 2600 ms has not completed and shows opacity 0.8 |
| MessageBubble.RunBubbleTimer | src/components/MessageBubble.tsx:241-253 | the timer fires at most once, and fires exactly when some clock reading is at least the effective duration after the bubble's timestamp; with `removeMessage` as the callback, a fired timer deletes exactly that bubble and keeps the insertion order of the rest; otherwise the queue is unchanged |
| MessageBubble.DefaultBubbleGoneAtDuration | src/components/MessageBubble.tsx:160-174 | a bubble added without a duration at t0 and read by its timer at t0 + 3000 fires once and is removed: the store and its order are as before, and only the counter has risen by one |
| MessageBubble.AddedThenRemoved | src/components/MessageBubble.tsx:160-174 | storing a bubble under an unused id and deleting it again leaves the store and its insertion order unchanged |
| MessageBubble.DefaultBubbleLifecycle | src/components/MessageBubble.tsx:50-62 | a default bubble holds at 2499 ms, fades from 1.0 at 2500 ms, shows 0.8 at 2600 ms and completes at 3000 ms |
| MessageBubble.TruncateMessage | src/components/MessageBubble.tsx:139-142 | a message that fits is returned as is; a longer one becomes a prefix plus "...", of length maxLength when maxLength >= 3, and "..." alone below 3 |
| MessageBubble.BubbleLabelFits | src/components/MessageBubble.tsx:102 | a bubble's label is at most 30 characters |
| MessageBubble.DefaultMessage | src/components/MessageBubble.tsx:265-270 | the table has an entry exactly for collaborate, share, request and complete, and each entry starts with `Agent <from> ` |
| MessageBubble.CommunicationText | src/components/MessageBubble.tsx:272-274 | the chosen text is never empty |
| MessageBubble.ContextOverridesAction | src/components/MessageBubble.tsx:272-273 | a non-empty context yields `<from>: <context>` whatever the action |
| MessageBubble.FallbackText | src/components/MessageBubble.tsx:265-274 | without a context (an empty one counts as none), the four listed actions give their table text and any other action gives `<from> is active` |
| MessageBubble.CannedTextsDistinct | src/components/MessageBubble.tsx:265-270 | the four table texts are pairwise different, so the text identifies the action |
| MessageBubble.TriggerAgentCommunication | src/components/MessageBubble.tsx:258-277 | adds exactly one bubble from `fromAgent` to `toAgent` with the chosen text and the default duration |
| Movement.InterpolatePosition | src/components/movement.ts:3-7 | the offset left to the target on each axis is (1 - speed) times the offset before the step |
| Movement.InterpolateEndpoints | src/components/movement.ts:3-7 | speed 0 stays at the current point; speed 1 lands on the target |
| Movement.InterpolateStrictlyBetween | src/components/movement.ts:6 | for 0 < speed < 1, the step lands strictly between current and target on every axis where they differ |
| Movement.InterpolateApproaches | src/components/movement.ts:4-6 | the squared distance shrinks by (1 - speed)², so for speed in [0, 1] it never grows |
| Movement.ReachedTarget | src/components/movement.ts:9-13 | a reached target means a non-negative tolerance and an offset of at most the tolerance on each axis; a point has reached itself exactly when the tolerance is non-negative |
| Movement.ReachedStaysReached | src/components/movement.ts:9-13 | a reached target stays reached after a further step at a speed in [0, 1] |
| Movement.ReachedSymmetric | src/components/movement.ts:10-12 | the arrival test does not depend on which point is the current one |
| Movement.ReachedBoundary | src/components/movement.ts:12 | a point has reached itself, and a point exactly `tolerance` away counts as reached |
| Movement.InterpolateExample | src/components/__tests__/AgentMovement.test.tsx:5-9 | one step from (0,0) toward (10,0) at speed 0.1 lands strictly inside (0, 10) |
| Movement.ReachedExamples | src/components/__tests__/AgentMovement.test.tsx:11-14 | (9.99,0) has reached (10,0) within 0.05; (0,0) has not reached (10,0) within the default 0.1 |
| SpriteAnimation.FrameIndex | src/components/spriteAnimation.ts:8 | an index is always below the frame count, and there is one whenever frames exist and the duration is positive |
| SpriteAnimation.GetAnimationFrame | src/components/spriteAnimation.ts:1-10 | a returned frame is an element of `frames`, and there is one for non-empty frames and a positive duration |
| SpriteAnimation.FirstFrameBeforeStart | src/components/spriteAnimation.ts:7 | elapsed time is clamped at 0, so up to the start time the first frame shows |
| SpriteAnimation.FramePeriodic | src/components/spriteAnimation.ts:8 | after the start, the frame repeats every `|frames| * frameDurationMs` ms |
| SpriteAnimation.FrameExamples | src/components/__tests__/SpriteAnimation.test.tsx:5-18 | frames [0,1,2] at duration 4 give 0, 1, 2, 0 at times 0, 4, 8, 12; frames [0,1] at duration 2 give 1, 0 at times 2, 4 |
| SpriteAnimation.GetSpriteColor | src/components/spriteAnimation.ts:12-23 | orange iff working, blue iff communicating, green for idle and for every other string |
| ConnectionLines.ShouldDrawLine | src/components/connectionLines.ts:1-3 | only agents in the same state are linked, and they are linked exactly when that state draws a blue line |
| ConnectionLines.GetLineColor | src/components/connectionLines.ts:5-8 | blue iff the state is communicating, transparent otherwise |
| ConnectionLines.ShouldDrawLineSymmetric | src/components/connectionLines.ts:1-3 | the link test is symmetric |
| ConnectionLines.LinkedMeansBothBlue | src/components/connectionLines.ts:1-8 | two agents are linked iff both line ends are blue |
| ConnectionLines.ConnectionExamples | src/components/__tests__/ConnectionLines.test.tsx:5-14 | (communicating, communicating) is linked; (communicating, idle) and (idle, idle) are not; the two colours |
| MessageBubbles.TruncateMessage | src/components/messageBubbles.ts:1-4 | a message that fits is returned as is; a longer one is its first `limit` characters plus "...", of length limit + 3 ("..." alone for a negative limit) |
| MessageBubbles.TruncatedLengthBound | src/components/messageBubbles.ts:1-4 | for a non-negative limit the result never exceeds limit + 3 characters |
| MessageBubbles.TruncateIdempotent | src/components/messageBubbles.ts:1-4 | for a non-negative limit, truncating a truncated message again changes nothing |
| MessageBubbles.ShouldShowBubble | src/components/messageBubbles.ts:6-8 | an agent shows a bubble exactly when its connection line is blue |
| MessageBubbles.LinkedAgentsShowBubbles | src/components/messageBubbles.ts:6-8 | two linked agents both show bubbles, and an agent shows one exactly when it would be linked to an agent in its own state |
| MessageBubbles.BubbleExamples | src/components/__tests__/MessageBubbles.test.tsx:12-21 | "Hello" at the default limit 20 is kept; only communicating shows a bubble |
| PauseResume.PauseControl.constructor | src/components/pauseResume.ts:4 | the switch starts unpaused |
| PauseResume.PauseControl.Pause | src/components/pauseResume.ts:6 | pause sets paused from any state |
| PauseResume.PauseControl.Resume | src/components/pauseResume.ts:7 | resume clears paused from any state |
| PauseResume.PauseControl.Toggle | src/components/pauseResume.ts:8 | toggle negates paused |
| PauseResume.PauseTwice | src/components/pauseResume.ts:6 | pausing twice leaves the switch paused, as once does |
| PauseResume.ToggleTwice | src/components/pauseResume.ts:8 | two toggles restore the original state |
| PauseResume.ScriptedSequences | src/components/__tests__/PauseResume.test.tsx:6-38 | fresh, paused, paused then resumed, toggled, and toggled twice read false, true, false, true, false |
| TaskQueue.WithStatusMembers | src/components/TaskQueue.tsx:24 | the filtered list holds exactly the tasks of the chosen status |
| TaskQueue.VisibleTasks | src/components/TaskQueue.tsx:22-25 | the All filter shows the whole list; a status filter shows exactly the tasks of that status |
| TaskQueue.WithStatusIsSubsequence | src/components/TaskQueue.tsx:24 | the filtered list keeps the original order |
| TaskQueue.WithStatusCounts | src/components/TaskQueue.tsx:24 | every task of the status appears as often as in the full list, and no other task appears |
| TaskQueue.WithStatusAppend | src/components/TaskQueue.tsx:24 | filtering distributes over concatenation |
| TaskQueue.LeadingWhitespace | src/components/TaskQueue.tsx:28 | the length of the whitespace run at the start |
| TaskQueue.TrailingWhitespace | src/components/TaskQueue.tsx:28 | the length of the whitespace run at the end |
| TaskQueue.Trim | src/components/TaskQueue.tsx:28 | trim returns the slice after the leading run; its ends are not whitespace and only whitespace follows it; it is empty iff the input is all whitespace |
| TaskQueue.TrimSlice | src/components/TaskQueue.tsx:31 | a non-empty slice with non-blank ends and only whitespace around it is exactly what trim returns |
| TaskQueue.TrimExact | src/components/TaskQueue.tsx:31 | trimming whitespace + core + whitespace gives the core back |
| TaskQueue.TrimIdempotent | src/components/TaskQueue.tsx:31 | trimming twice trims nothing more |
| TaskQueue.NewTask | src/components/TaskQueue.tsx:29-33 | a new task's id is "task-" followed by the time in base ten, which reads back as the time when it is not negative; it carries the given name and is pending and unassigned |
| TaskQueue.AfterAdd | src/components/TaskQueue.tsx:27-36 | a blank name leaves the list unchanged; otherwise exactly one task is appended, with the trimmed non-empty name, pending and unassigned, and the old tasks stay in front; the new task is `NewTask` of the time and the trimmed name |
| TaskQueue.NewTaskIdsDistinct | src/components/TaskQueue.tsx:30 | tasks added at different times get different ids |
| TaskQueue.AddedNameIsTrimmed | src/components/TaskQueue.tsx:31 | the stored name is its own trim |
| TaskQueue.AddShowsUnderPending | src/components/TaskQueue.tsx:22-34 | after an add, the new task appears at the end of the pending view, and no other status's view changes |
| TaskQueue.TaskBoard.constructor | src/components/TaskQueue.tsx:17-20 | the board starts with the given tasks, the All filter and an empty name |
| TaskQueue.TaskBoard.SetFilter | src/components/TaskQueue.tsx:45 | choosing a filter changes only the filter |
| TaskQueue.TaskBoard.SetNewTaskName | src/components/TaskQueue.tsx:58 | typing changes only the name input |
| TaskQueue.TaskBoard.AddTask | src/components/TaskQueue.tsx:27-36 | the list becomes `AfterAdd` of the old list; the input is cleared after a real add and kept after a blank one; the filter stays; the tasks on screen gain the new task at their end under the All and Pending filters and are otherwise unchanged |
| TaskQueue.FilterExample | src/components/__tests__/TaskQueue.test.tsx:19-25 | the in-progress view of the three demo tasks is "Implement backend" alone |
| TaskQueue.AddExample | src/components/__tests__/TaskQueue.test.tsx:27-33 | adding "  New Task " at time 7 appends task-7 named "New Task" |
| TaskQueue.TrimExample | src/components/TaskQueue.tsx:28 | trimming "  New Task " gives "New Task" |
| TaskQueue.AddBlankExample | src/components/TaskQueue.tsx:28 | a name of blanks adds nothing |
| Engine.PerceiveNode | agent-backend/agents/engine.py:29-52 | exactly three observations, the first being "No nearby agents detected" iff none are near; otherwise it reports the count and the current action; only `observations` changes |
| Engine.ReasonNode | agent-backend/agents/engine.py:55-79 | idle iff no agents are near, working iff one is, communicating iff two or more are, each with its reasoning; only `reasoning` and `action` change |
| Engine.ActNode | agent-backend/agents/engine.py:82-101 | the state passes through unchanged |
| Engine.Cycle | agent-backend/agents/engine.py:104-143 | the chained cycle equals the reason node applied to the original state with the observations the perceive node produced |
| Engine.CycleKeepsIdentity | agent-backend/agents/engine.py:104-146 | a cycle keeps id, position and neighbours, and its third observation reports the action from before the cycle |
| Engine.CycleDecisionDependsOnlyOnCount | agent-backend/agents/engine.py:61-73 | after a cycle, action and reasoning depend only on the number of nearby agents |
| Engine.CycleSettles | agent-backend/agents/engine.py:104-146 | with the same neighbours, a second cycle keeps the action, and a third cycle changes nothing |
| Engine.SampleCycle | agent-backend/agents/engine.py:149-161 | the sample state with two neighbours ends communicating, with the matching reasoning and observations |
| Engine.TwoAgentTexts | agent-backend/agents/engine.py:38 | the texts for two agents, rendered in base ten |
| Backend.DecideAgentAction | agent-backend/main.py:66-91 | idle iff no agents are near, working iff one is, communicating iff more are, each with its reasoning; the request's agent id is echoed |
| Backend.DecisionAgreesWithEngine | agent-backend/main.py:78-85 | the endpoint picks the same action as the engine's reason node for the same number of neighbours |
| Backend.Lookup | agent-backend/main.py:62-64 | a record is found iff the id is a key, and the found pair is in the table |
| Backend.LookupFindsEntry | agent-backend/main.py:64 | with distinct keys, looking up an entry's key returns its record |
| Backend.GetAgentIn | agent-backend/main.py:59-64 | the record of a stored id, or "Agent not found" exactly for the others |
| Backend.ListAgentsIn | agent-backend/main.py:54-57 | every stored record, in insertion order |
| Backend.GetAgent | agent-backend/main.py:59-64 | over the service's table, ids 1 to 3 are found, each record under its own id, and every other id gets "Agent not found" |
| Backend.ListAgents | agent-backend/main.py:54-57 | the service lists three records, with ids 1, 2, 3 in order |
| Backend.ListAndGetAgree | agent-backend/main.py:54-64 | each listed record is what the lookup of its key returns, and every found record is listed |
| Backend.AgentsDbWellFormed | agent-backend/main.py:40-44 | the table has distinct ids and each record carries its key |
| Backend.AgentEndpointExamples | agent-backend/main.py:40-64 | agent 2 is found, agent 4 is not, and three records are listed with agent 1 first |
| OpenClaw.LowerChar | agent-backend/integrations/openclaw.py:218 | ASCII capitals and the Kelvin sign are lowered; every other character is kept |
| OpenClaw.Lower | agent-backend/integrations/openclaw.py:218 | lowers a string character by character |
| OpenClaw.LowerIdempotent | agent-backend/integrations/openclaw.py:218 | lowering twice changes nothing more |
| OpenClaw.MapState | agent-backend/integrations/openclaw.py:208-218 | the result is a visualisation state; reasoning iff the lowered input is thinking or reasoning; idle iff the lowered input is not another listed state; listed states keep their name |
| OpenClaw.MapStateIdempotent | agent-backend/integrations/openclaw.py:210-217 | every result maps to itself |
| OpenClaw.MapStateIgnoresCase | agent-backend/integrations/openclaw.py:218 | mapping the lowered input gives the same result |
| OpenClaw.MapStateExamples | agent-backend/integrations/openclaw.py:208-218 | "THINKING" maps to reasoning, "WorKing" to working, and "sleeping" to idle |
| OpenClaw.RStrip | agent-backend/integrations/openclaw.py:73 | the result is a prefix with no trailing '/', and only '/' was removed |
| OpenClaw.RStripIdempotent | agent-backend/integrations/openclaw.py:73 | stripping twice strips nothing more; a URL without a trailing '/' is kept |
| OpenClaw.RStripAppended | agent-backend/integrations/openclaw.py:73 | appending any number of '/' and stripping gives the URL back |
| OpenClaw.GatewayClient.constructor | agent-backend/integrations/openclaw.py:67-77 | stores the URL without trailing slashes, keeps the key and the timeout, and starts disconnected |
| OpenClaw.GatewayClient.HasKey | agent-backend/integrations/openclaw.py:112 | the key counts exactly when it is truthy in Python: neither None nor the empty string |
| OpenClaw.GatewayClient.GetHeaders | agent-backend/integrations/openclaw.py:106-114 | JSON Content-Type and Accept always; `Authorization: Bearer <key>` iff the key is present and non-empty; no other header |
| OpenClaw.DefaultClientHeaders | agent-backend/integrations/openclaw.py:67-114 | the default client uses http://localhost:18789 and sends only the two JSON headers |
| OpenClaw.VisualId | agent-backend/integrations/openclaw.py:198 | never negative; an id that is not all ASCII digits becomes its hash mod 1000, in [0, 1000) |
| OpenClaw.VisualIdOfNumber | agent-backend/integrations/openclaw.py:198 | a number rendered in base ten converts back to itself |
| OpenClaw.VisualIdAsWritten | agent-backend/integrations/openclaw.py:198 | the id conversion as written fails exactly for isdigit-but-not-decimal ids; when it succeeds it agrees with `VisualId` |
| OpenClaw.SuperscriptIdRaises | agent-backend/integrations/openclaw.py:198 | the id "²" makes the conversion as written raise ValueError, and the corrected one hashes it |
| OpenClaw.MapAgentToVisualization | agent-backend/integrations/openclaw.py:187-206 | ids converted by the corrected `VisualId` (see Findings), neighbours converted one by one with the length kept, the state mapped, and the other fields copied |
| OpenClaw.NeighbourIdsResolve | agent-backend/integrations/openclaw.py:198-201 | a neighbour named by another agent's id maps to that agent's numeric id |
| OpenClaw.MappedStateIsFinal | agent-backend/integrations/openclaw.py:200 | a mapped record's state is a visualisation state that maps to itself |

## Left out

- Rendering, React wiring and timers are not modelled. This covers the JSX, the bubble midpoint, `setInterval`/`useEffect`/`useCallback`, the periodic cleanup cadence and the `messageList` mirror. Time is an explicit parameter instead.
- The scale-in animation (`easeOutBack` and its 0.1-step loop) is floating-point easing with no logic to prove.
- Floating point is modelled with exact reals and integer milliseconds. Rounding in `interpolatePosition`, `Math.hypot` and the fade division is not captured.
- Movement.ReachedTarget: stated as `dx² + dy² <= tolerance²` for a non-negative tolerance, which is exact over the reals. NaN and infinite coordinates are not modelled.
- SpriteAnimation.GetAnimationFrame: JavaScript's `undefined` (no frames, zero duration) is `None`. Fractional and NaN times are not modelled.
- MessageBubble.CommunicationText: only the four listed actions have table texts. In JavaScript, an action such as "constructor" reads an inherited property of the object literal; that case is not modelled.
- Lengths count code points, where JavaScript counts UTF-16 units. Texts outside the Basic Multilingual Plane are therefore measured differently by `TruncateMessage` (both versions).
- Decimal rendering of numbers uses plain integer digits. JavaScript's exponent form above 1e21 and Python's digit-count limit for `int()` on very long strings are not modelled.
- OpenClaw.Lower: only ASCII capitals and the Kelvin sign are lowered. These are the only characters whose lower case can produce one of the ASCII state keys. Other characters keep their case, so the result of `MapState` matches Python's while `Lower` itself does not.
- OpenClaw.VisualIdAsWritten: of the non-decimal characters that `isdigit` accepts, only the superscript and subscript digits are listed (circled digits and similar are not). Decimal digits of other scripts, which both `isdigit` and `int` accept, are not modelled.
- OpenClaw.MapAgentToVisualization: converts ids with the corrected `VisualId`. The code as written raises ValueError for an agent or neighbour id such as "²"; `VisualIdAsWritten` models that behaviour.
- Python's `hash` and its rendering of a position list are parameters. The real `hash` is randomised per process.
- The gateway client's network operations are not modelled: connect, disconnect, health, sessions, active agents and session agents, together with `_http_client`. The polling integration and the module singleton are also out.
- The backend's FastAPI setup, CORS, response-model validation and coercion (an error object returned where a record is declared, integer positions as floats) are not modelled. Neither is the `uuid`-based task endpoint.
- The graph library that runs the engine nodes is not modelled; `Engine.Cycle` composes the three nodes directly. The unused `current_action` local in `reason_node` has no effect.
- `TaskQueue`'s selected-task detail panel is display state only and is not modelled.
- `AgentCanvas.tsx`'s inline colour table duplicates `getSpriteColor` and is not part of this model.

## Findings

| source | as written | input that shows it | evidently intended | confidence | as-written member | corrected member |
|---|---|---|---|---|---|---|
| agent-backend/integrations/openclaw.py:198 | `int(agent.id) if agent.id.isdigit() else hash(agent.id) % 1000`. `isdigit` also accepts superscript and subscript digits, which `int` rejects with ValueError, so the mapping raises | an agent id "²" (U+00B2), or "1²" | convert only strings of decimal digits (`isdecimal`) and hash every other id | not executed | OpenClaw.VisualIdAsWritten (counterexample: OpenClaw.SuperscriptIdRaises) | OpenClaw.VisualId (properties: OpenClaw.VisualIdOfNumber, OpenClaw.NeighbourIdsResolve) |
