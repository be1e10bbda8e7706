/** The message-bubble queue of `src/components/MessageBubble.tsx`: a keyed
    store of timed annotations between agents, its time-based expiry sweep,
    the per-bubble fade timer, the 30-character label truncation and the
    canned-message chooser. Wall-clock readings (`Date.now()`) are explicit
    `now` parameters, in integer milliseconds. */
module MessageBubble {
  import opened Wrappers
  import Decimal

  /** One annotation from one agent to another (MessageBubbleData). */
  datatype Bubble = Bubble(
    id: string,
    fromAgentId: int,
    toAgentId: int,
    message: string,
    timestamp: int,
    duration: int)

  /** Lifetime in milliseconds used when none (or zero) is given. */
  const DefaultDuration: int := 3000

  /** Length of the fade-out window at the end of a bubble's life. */
  const FadeWindow: int := 500

  /** `duration || 3000`: an absent or zero duration falls back to the default;
      any other value, negative ones included, is kept. */
  function EffectiveDuration(duration: Option<int>): (d: int)
    ensures d != 0
    ensures duration.Some? && duration.value != 0 ==> d == duration.value
    ensures duration.None? || duration.value == 0 ==> d == DefaultDuration
  {
    match duration
    case Some(v) => if v != 0 then v else DefaultDuration
    case None => DefaultDuration
  }

  // ---------------------------------------------------------------------------
  // Identifiers

  /** The id the queue hands out when its counter stands at `k`: `msg-<k>`. */
  function IdOf(k: nat): (id: string)
    ensures |id| > 4 && id[..4] == "msg-" && Decimal.AllDigits(id[4..])
  {
    "msg-" + Decimal.NatToString(k)
  }

  /** `key` is an id the queue issued while its counter was below `n`. */
  predicate IssuedBefore(key: string, n: nat) {
    && |key| > 4
    && key[..4] == "msg-"
    && Decimal.AllDigits(key[4..])
    && Decimal.ParseDigits(key[4..]) < n
  }

  lemma IdOfIssuedBefore(k: nat, n: nat)
    requires k < n
    ensures Decimal.ParseDigits(IdOf(k)[4..]) == k
    ensures IssuedBefore(IdOf(k), n)
  {
    assert IdOf(k)[4..] == Decimal.NatToString(k);
    Decimal.ParseNatToString(k);
  }

  /** The id issued at counter `n` is not among those issued before it. */
  lemma IdOfIsFresh(n: nat)
    ensures !IssuedBefore(IdOf(n), n)
  {
    assert IdOf(n)[4..] == Decimal.NatToString(n);
    Decimal.ParseNatToString(n);
  }

  /** Different counter values give different ids. */
  lemma IdOfInjective(a: nat, b: nat)
    ensures IdOf(a) == IdOf(b) ==> a == b
  {
    if IdOf(a) == IdOf(b) {
      assert IdOf(a)[4..] == Decimal.NatToString(a);
      assert IdOf(b)[4..] == Decimal.NatToString(b);
      Decimal.NatToStringInjective(a, b);
    }
  }

  // ---------------------------------------------------------------------------
  // Specification of the store

  predicate NoDups(s: seq<string>) {
    forall i, j | 0 <= i < j < |s| :: s[i] != s[j]
  }

  /** The elements of `s` that lie in `keys`, in their original order. This is
      what a JavaScript `Map`'s insertion order becomes after deletions. */
  function Keep(s: seq<string>, keys: set<string>): (r: seq<string>)
    ensures forall x :: x in r <==> x in s && x in keys
    ensures NoDups(s) ==> NoDups(r)
    ensures |r| <= |s|
  {
    if s == [] then []
    else if s[0] in keys then [s[0]] + Keep(s[1..], keys)
    else Keep(s[1..], keys)
  }

  /** Filtering twice is filtering once by the smaller set. */
  lemma {:induction false} KeepNarrow(s: seq<string>, a: set<string>, b: set<string>)
    requires b <= a
    ensures Keep(Keep(s, a), b) == Keep(s, b)
  {
    if s != [] {
      KeepNarrow(s[1..], a, b);
    }
  }

  /** Filtering by a set that holds every element changes nothing. */
  lemma {:induction false} KeepAll(s: seq<string>, keys: set<string>)
    requires forall x :: x in s ==> x in keys
    ensures Keep(s, keys) == s
  {
    if s != [] {
      KeepAll(s[1..], keys);
    }
  }

  /** Filtering out just the first element of a duplicate-free sequence. */
  lemma KeepDropHead(s: seq<string>, keys: set<string>)
    requires NoDups(s) && s != []
    requires keys == (set x | x in s) - {s[0]}
    ensures Keep(s, keys) == s[1..]
  {
    assert forall x :: x in s[1..] ==> x in keys;
    KeepAll(s[1..], keys);
  }

  /** Filtering out an element appended at the end, when every earlier
      element is kept. */
  lemma {:induction false} KeepDropLast(s: seq<string>, x: string, keys: set<string>)
    requires forall y :: y in s ==> y in keys
    requires x !in keys
    ensures Keep(s + [x], keys) == s
  {
    if s == [] {
      assert Keep([x], keys) == Keep([x][1..], keys);
    } else {
      assert (s + [x])[1..] == s[1..] + [x];
      KeepDropLast(s[1..], x, keys);
    }
  }

  /** A duplicate-free sequence has as many distinct elements as positions. */
  lemma {:induction false} NoDupsCardinality(s: seq<string>)
    requires NoDups(s)
    ensures |set x | x in s| == |s|
  {
    if s != [] {
      NoDupsCardinality(s[1..]);
      assert (set x | x in s) == {s[0]} + (set x | x in s[1..]);
      assert s[0] !in (set x | x in s[1..]);
    }
  }

  /** The sweep's rule: strictly more than `duration` ms have passed. */
  predicate Expired(b: Bubble, now: int) {
    now - b.timestamp > b.duration
  }

  /** The sweep removes only bubbles whose own timer has completed, and all
      of them except at exactly `duration` ms, where the timer completes but
      the sweep keeps the bubble. */
  lemma ExpiredAfterTimer(b: Bubble, now: int)
    ensures Expired(b, now) <==>
      FadeTick(now - b.timestamp, b.duration).Completed? && now - b.timestamp != b.duration
    ensures b.duration != 0 ==> (Expired(b, now) <==>
      FadeTick(now - b.timestamp, EffectiveDuration(Some(b.duration))).Completed?
      && now - b.timestamp != EffectiveDuration(Some(b.duration)))
  {
  }

  /** What the store holds after a sweep at time `now`. */
  function Swept(m: map<string, Bubble>, now: int): (r: map<string, Bubble>)
    ensures forall k :: k in r <==> k in m && !Expired(m[k], now)
    ensures forall k :: k in r ==> r[k] == m[k]
  {
    map k | k in m && !Expired(m[k], now) :: m[k]
  }

  /** The store part-way through a sweep: the bubbles in `visited` have been
      checked and the expired ones among them removed. */
  function SweptAmong(m: map<string, Bubble>, visited: set<string>, now: int): map<string, Bubble> {
    map k | k in m && !(k in visited && Expired(m[k], now)) :: m[k]
  }

  /** Checking one more key of the store removes it exactly when it expired. */
  lemma SweptAmongStep(m: map<string, Bubble>, visited: set<string>, id: string, now: int)
    requires id in m && id !in visited
    ensures id in SweptAmong(m, visited, now) && SweptAmong(m, visited, now)[id] == m[id]
    ensures SweptAmong(m, visited + {id}, now) ==
      if Expired(m[id], now) then SweptAmong(m, visited, now) - {id} else SweptAmong(m, visited, now)
  {
    var before, after := SweptAmong(m, visited, now), SweptAmong(m, visited + {id}, now);
    if Expired(m[id], now) {
      assert after.Keys == (before - {id}).Keys;
    } else {
      assert after.Keys == before.Keys;
    }
  }

  /** A second sweep at the same time removes nothing more. */
  lemma SweptIdempotent(m: map<string, Bubble>, now: int)
    ensures Swept(Swept(m, now), now) == Swept(m, now)
  {
    var once := Swept(m, now);
    assert Swept(once, now).Keys == once.Keys;
  }

  /** Removing a bubble (its timer fired) before the sweep gives the same
      store as sweeping and then removing it: the two expiry paths agree. */
  lemma SweptAfterRemove(m: map<string, Bubble>, id: string, now: int)
    ensures Swept(m - {id}, now) == Swept(m, now) - {id}
  {
    assert Swept(m - {id}, now).Keys == (Swept(m, now) - {id}).Keys;
  }

  /** A sweep at a later time keeps no bubble that an earlier sweep removed. */
  lemma SweptMonotone(m: map<string, Bubble>, now: int, later: int)
    requires now <= later
    ensures Swept(m, later).Keys <= Swept(m, now).Keys
  {
  }

  // ---------------------------------------------------------------------------
  // The queue (createMessageQueue)

  class MessageQueue {
    /** The bubbles, keyed by id. */
    var messages: map<string, Bubble>
    /** The insertion order of the keys, which `getAllMessages` follows. */
    var order: seq<string>
    /** The counter behind the next id. */
    var nextId: nat

    ghost predicate Valid()
      reads this
    {
      && NoDups(order)
      && (forall k :: k in order <==> k in messages)
      && (forall k :: k in messages ==> messages[k].id == k && IssuedBefore(k, nextId))
      && (forall k :: k in messages ==> messages[k].duration != 0)
    }

    constructor ()
      ensures Valid()
      ensures messages == map[] && order == [] && nextId == 0
    {
      messages := map[];
      order := [];
      nextId := 0;
    }

    /** Stores a new bubble stamped `now` under a fresh id and returns that id. */
    method AddMessage(fromAgentId: int, toAgentId: int, message: string, duration: Option<int>, now: int)
      returns (id: string)
      requires Valid()
      modifies this
      ensures Valid()
      ensures id == IdOf(old(nextId)) && nextId == old(nextId) + 1
      ensures id !in old(messages)
      ensures messages == old(messages)[id := Bubble(id, fromAgentId, toAgentId, message, now, EffectiveDuration(duration))]
      ensures order == old(order) + [id]
    {
      id := IdOf(nextId);
      IdOfIsFresh(nextId);
      IdOfIssuedBefore(nextId, nextId + 1);
      messages := messages[id := Bubble(id, fromAgentId, toAgentId, message, now, EffectiveDuration(duration))];
      order := order + [id];
      nextId := nextId + 1;
    }

    /** Deletes the bubble under `id`; an absent id changes nothing. */
    method RemoveMessage(id: string)
      requires Valid()
      modifies this
      ensures Valid()
      ensures messages == old(messages) - {id}
      ensures order == Keep(old(order), messages.Keys)
      ensures nextId == old(nextId)
      ensures id !in old(messages) ==> messages == old(messages) && order == old(order)
    {
      var rest := messages - {id};
      if id !in messages {
        assert rest == messages;
        KeepAll(order, rest.Keys);
      }
      var kept := Keep(order, rest.Keys);
      assert forall k :: k in kept <==> k in rest;
      messages, order := rest, kept;
    }

    /** A snapshot of every stored bubble, each once, in insertion order. */
    method GetAllMessages() returns (list: seq<Bubble>)
      requires Valid()
      ensures |list| == |order| == |messages|
      ensures forall i | 0 <= i < |list| :: list[i] == messages[order[i]]
      ensures forall i, j | 0 <= i < j < |list| :: list[i].id != list[j].id
    {
      list := [];
      for i := 0 to |order|
        invariant |list| == i
        invariant forall j | 0 <= j < i :: list[j] == messages[order[j]]
      {
        list := list + [messages[order[i]]];
      }
      NoDupsCardinality(order);
      assert messages.Keys == set x | x in order;
    }

    /** Deletes every bubble whose age now exceeds its duration, keeping the rest. */
    method Cleanup(now: int)
      requires Valid()
      modifies this
      ensures Valid()
      ensures messages == Swept(old(messages), now)
      ensures order == Keep(old(order), messages.Keys)
      ensures nextId == old(nextId)
    {
      var keys := order;
      ghost var m0 := messages;
      ghost var visited: set<string> := {};
      KeepAll(keys, m0.Keys);
      for i := 0 to |keys|
        invariant nextId == old(nextId)
        invariant forall j | 0 <= j < i :: keys[j] in visited
        invariant forall j | i <= j < |keys| :: keys[j] !in visited
        invariant visited <= m0.Keys
        invariant messages == SweptAmong(m0, visited, now)
        invariant order == Keep(keys, messages.Keys)
        invariant Valid()
      {
        var id := keys[i];
        SweptAmongStep(m0, visited, id, now);
        var bubble := messages[id];
        if now - bubble.timestamp > bubble.duration {
          KeepNarrow(keys, messages.Keys, messages.Keys - {id});
          RemoveMessage(id);
        }
        visited := visited + {id};
      }
      assert visited == m0.Keys;
      assert messages.Keys == Swept(m0, now).Keys;
    }

    /** Removes every bubble, one `removeMessage` per snapshot entry (clearAll). */
    method ClearAll()
      requires Valid()
      modifies this
      ensures Valid()
      ensures messages == map[] && order == []
      ensures nextId == old(nextId)
    {
      var all := GetAllMessages();
      ghost var order0 := order;
      for i := 0 to |all|
        invariant Valid() && nextId == old(nextId)
        invariant order == order0[i..]
      {
        ghost var before := order;
        assert all[i].id == before[0];
        RemoveMessage(all[i].id);
        KeepDropHead(before, messages.Keys);
        assert before[1..] == order0[i + 1..];
      }
      assert messages.Keys == {};
    }
  }

  // ---------------------------------------------------------------------------
  // Fade and expiry of one bubble (the 16 ms interval in MessageBubble)

  /** What one run of the fade interval does. */
  datatype FadeStep =
    | Completed            // onComplete(id) fires and the interval stops
    | Fading(opacity: real) // the opacity is set
    | Holding              // nothing happens

  /** One run of the fade interval `elapsed` ms after the bubble was stamped. */
  function FadeTick(elapsed: int, duration: int): (r: FadeStep)
    ensures r.Completed? <==> elapsed >= duration
    ensures r.Holding? <==> elapsed < duration - FadeWindow
    ensures r.Fading? ==> 0.0 < r.opacity <= 1.0
    ensures r.Fading? ==> r.opacity * FadeWindow as real == (duration - elapsed) as real
  {
    var fadeStart := duration - FadeWindow;
    if elapsed >= duration then Completed
    else if elapsed >= fadeStart then
      Fading(1.0 - (elapsed - fadeStart) as real / (duration - fadeStart) as real)
    else Holding
  }

  /** Fading opacity falls as time passes. */
  lemma FadeOpacityDecreasing(e1: int, e2: int, duration: int)
    requires FadeTick(e1, duration).Fading? && FadeTick(e2, duration).Fading?
    requires e1 <= e2
    ensures FadeTick(e2, duration).opacity <= FadeTick(e1, duration).opacity
  {
    var o1, o2 := FadeTick(e1, duration).opacity, FadeTick(e2, duration).opacity;
    assert o1 * 500.0 == (duration - e1) as real;
    assert o2 * 500.0 == (duration - e2) as real;
  }

  /** The interval runs at the clock readings in `clock` until it completes.
      Returns the last opacity set (1 at first) and how often onComplete fired.
      When the timer has not completed and the last reading falls in the fade
      window, the opacity is the one that reading sets. */
  method FadeTimer(bubble: Bubble, clock: seq<int>) returns (opacity: real, fired: nat)
    ensures fired <= 1
    ensures fired == 1 <==> exists i | 0 <= i < |clock| :: clock[i] - bubble.timestamp >= EffectiveDuration(Some(bubble.duration))
    ensures 0.0 < opacity <= 1.0
    ensures (forall i | 0 <= i < |clock| :: FadeTick(clock[i] - bubble.timestamp, EffectiveDuration(Some(bubble.duration))).Holding?)
            ==> opacity == 1.0
    ensures fired == 0 && clock != [] &&
      FadeTick(clock[|clock| - 1] - bubble.timestamp, EffectiveDuration(Some(bubble.duration))).Fading?
      ==> opacity == FadeTick(clock[|clock| - 1] - bubble.timestamp, EffectiveDuration(Some(bubble.duration))).opacity
  {
    var duration := EffectiveDuration(Some(bubble.duration));
    opacity, fired := 1.0, 0;
    var i := 0;
    while i < |clock| && fired == 0
      invariant 0 <= i <= |clock|
      invariant fired <= 1
      invariant fired == 1 <==> exists j | 0 <= j < i :: clock[j] - bubble.timestamp >= duration
      invariant 0.0 < opacity <= 1.0
      invariant (forall j | 0 <= j < i :: FadeTick(clock[j] - bubble.timestamp, duration).Holding?) ==> opacity == 1.0
      invariant fired == 0 && i > 0 && FadeTick(clock[i - 1] - bubble.timestamp, duration).Fading?
        ==> opacity == FadeTick(clock[i - 1] - bubble.timestamp, duration).opacity
    {
      var step := FadeTick(clock[i] - bubble.timestamp, duration);
      match step {
        case Completed =>
          fired := fired + 1;
        case Fading(o) =>
          opacity := o;
        case Holding =>
      }
      i := i + 1;
    }
  }

  /** A default bubble read once by the interval at 2600 ms has not completed
      and shows opacity 0.8. */
  method FadeTimerAtDefaultReading() returns (opacity: real, fired: nat)
    ensures fired == 0 && opacity == 0.8
  {
    DefaultBubbleLifecycle();
    opacity, fired := FadeTimer(Bubble("msg-0", 1, 2, "hi", 0, DefaultDuration), [2600]);
  }

  /** The queue's side of the timer: the bubble system passes `removeMessage`
      as `onComplete`, so a bubble whose timer completes leaves the queue. */
  method RunBubbleTimer(q: MessageQueue, bubble: Bubble, clock: seq<int>) returns (fired: nat)
    requires q.Valid()
    modifies q
    ensures q.Valid()
    ensures fired <= 1
    ensures fired == 1 <==> exists i | 0 <= i < |clock| ::
      clock[i] - bubble.timestamp >= EffectiveDuration(Some(bubble.duration))
    ensures fired == 1 ==> q.messages == old(q.messages) - {bubble.id}
    ensures fired == 1 ==> q.order == Keep(old(q.order), q.messages.Keys)
    ensures fired == 0 ==> q.messages == old(q.messages) && q.order == old(q.order)
    ensures q.nextId == old(q.nextId)
  {
    var opacity;
    opacity, fired := FadeTimer(bubble, clock);
    if fired == 1 {
      q.RemoveMessage(bubble.id);
    }
  }

  /** A bubble added without a duration at `t0` and read by its timer at
      `t0 + 3000` fires once and is gone again: the queue holds what it held
      before, and only the counter has moved on. */
  method DefaultBubbleGoneAtDuration(q: MessageQueue, fromAgentId: int, toAgentId: int, message: string, t0: int)
    returns (id: string, fired: nat)
    requires q.Valid()
    modifies q
    ensures q.Valid()
    ensures fired == 1
    ensures id == IdOf(old(q.nextId)) && id !in q.messages
    ensures q.messages == old(q.messages) && q.order == old(q.order)
    ensures q.nextId == old(q.nextId) + 1
  {
    ghost var m0, o0 := q.messages, q.order;
    assert forall y :: y in o0 ==> y in m0.Keys;
    id := q.AddMessage(fromAgentId, toAgentId, message, None, t0);
    var bubble := q.messages[id];
    AddedThenRemoved(m0, o0, bubble);
    var clock := [t0 + 3000];
    assert clock[0] - bubble.timestamp >= EffectiveDuration(Some(bubble.duration));
    fired := RunBubbleTimer(q, bubble, clock);
  }

  /** Storing a bubble under an unused id and then deleting it again leaves
      the store and its insertion order as they were. */
  lemma AddedThenRemoved(m: map<string, Bubble>, o: seq<string>, b: Bubble)
    requires b.id !in m
    requires forall y :: y in o ==> y in m.Keys
    ensures m[b.id := b] - {b.id} == m
    ensures Keep(o + [b.id], (m[b.id := b] - {b.id}).Keys) == o
  {
    assert m[b.id := b] - {b.id} == m;
    KeepDropLast(o, b.id, m.Keys);
  }

  /** A default bubble stamped at t0: fading at t0 + 2600, complete at t0 + 3000. */
  lemma DefaultBubbleLifecycle()
    ensures FadeTick(2499, DefaultDuration).Holding?
    ensures FadeTick(2500, DefaultDuration) == Fading(1.0)
    ensures FadeTick(2600, DefaultDuration) == Fading(0.8)
    ensures FadeTick(2999, DefaultDuration).Fading?
    ensures FadeTick(3000, DefaultDuration).Completed?
  {
  }

  // ---------------------------------------------------------------------------
  // Label truncation (truncateMessage in MessageBubble.tsx)

  predicate IsPrefix(p: string, s: string) {
    |p| <= |s| && s[..|p|] == p
  }

  /** Cuts a label longer than `maxLength` to its first `maxLength - 3`
      characters (none if that is negative) followed by "...". */
  function TruncateMessage(message: string, maxLength: int): (r: string)
    ensures |message| <= maxLength ==> r == message
    ensures |message| > maxLength && maxLength >= 3 ==> |r| == maxLength
    ensures |message| > maxLength && maxLength < 3 ==> r == "..."
    ensures |message| > maxLength ==> r[|r| - 3..] == "..." && IsPrefix(r[..|r| - 3], message)
  {
    if |message| <= maxLength then message
    else message[..if maxLength - 3 < 0 then 0 else maxLength - 3] + "..."
  }

  /** The label a bubble shows: at most 30 characters. */
  lemma BubbleLabelFits(message: string)
    ensures |TruncateMessage(message, 30)| <= 30
  {
  }

  // ---------------------------------------------------------------------------
  // Canned messages (triggerAgentCommunication)

  /** The entry of the default-message table for `action`, if there is one. */
  function DefaultMessage(fromAgent: int, toAgent: int, action: string): (r: Option<string>)
    ensures r.Some? <==> IsKnownAction(action)
    ensures r.Some? ==> IsPrefix("Agent " + Decimal.IntToString(fromAgent) + " ", r.value)
  {
    var lead := "Agent " + Decimal.IntToString(fromAgent) + " ";
    var rest := CannedTail(toAgent, action);
    if IsKnownAction(action) then
      assert (lead + rest)[..|lead|] == lead;
      Some(lead + rest)
    else None
  }

  /** What a table entry says after "Agent <from> ": each of the four
      starts with its own letter (w, h, r, c). */
  function CannedTail(toAgent: int, action: string): (rest: string)
    ensures rest != []
    ensures rest[0] == if action == "collaborate" then 'w' else if action == "share" then 'h'
                       else if action == "request" then 'r' else 'c'
  {
    var t := Decimal.IntToString(toAgent);
    if action == "collaborate" then "wants to collaborate with Agent " + t
    else if action == "share" then "has information to share"
    else if action == "request" then "requests assistance from Agent " + t
    else "completed a task"
  }

  predicate IsKnownAction(action: string) {
    action in {"collaborate", "share", "request", "complete"}
  }

  /** The text a communication event puts in its bubble: the context when one
      is given, else the canned text for the action, else "<from> is active". */
  function CommunicationText(fromAgent: int, toAgent: int, action: string, context: Option<string>): (text: string)
    ensures |text| > 0
  {
    if context.Some? && context.value != "" then Decimal.IntToString(fromAgent) + ": " + context.value
    else match DefaultMessage(fromAgent, toAgent, action)
      case Some(m) => m
      case None => Decimal.IntToString(fromAgent) + " is active"
  }

  /** With a non-empty context the action plays no part. */
  lemma ContextOverridesAction(fromAgent: int, toAgent: int, a1: string, a2: string, context: string)
    requires context != ""
    ensures CommunicationText(fromAgent, toAgent, a1, Some(context)) == CommunicationText(fromAgent, toAgent, a2, Some(context))
    ensures CommunicationText(fromAgent, toAgent, a1, Some(context)) == Decimal.IntToString(fromAgent) + ": " + context
  {
  }

  /** Without a context, an action that has no table entry yields the fallback
      text, and an empty context counts as none. */
  lemma FallbackText(fromAgent: int, toAgent: int, action: string, context: Option<string>)
    requires context.None? || context.value == ""
    ensures IsKnownAction(action) <==> DefaultMessage(fromAgent, toAgent, action).Some?
    ensures !IsKnownAction(action) ==>
      CommunicationText(fromAgent, toAgent, action, context) == Decimal.IntToString(fromAgent) + " is active"
    ensures IsKnownAction(action) ==>
      CommunicationText(fromAgent, toAgent, action, context) == DefaultMessage(fromAgent, toAgent, action).value
  {
  }

  /** Without a context, the four canned texts tell the actions apart. */
  lemma {:induction false} CannedTextsDistinct(fromAgent: int, toAgent: int, a1: string, a2: string)
    requires IsKnownAction(a1) && IsKnownAction(a2)
    requires CommunicationText(fromAgent, toAgent, a1, None) == CommunicationText(fromAgent, toAgent, a2, None)
    ensures a1 == a2
  {
    var lead := "Agent " + Decimal.IntToString(fromAgent) + " ";
    var r1, r2 := CannedTail(toAgent, a1), CannedTail(toAgent, a2);
    assert CommunicationText(fromAgent, toAgent, a1, None) == lead + r1;
    assert CommunicationText(fromAgent, toAgent, a2, None) == lead + r2;
    // The two texts agree at the first position after the common lead.
    assert (lead + r1)[|lead|] == r1[0] && (lead + r2)[|lead|] == r2[0];
  }

  /** triggerAgentCommunication: adds exactly one bubble, from `fromAgent` to
      `toAgent`, carrying the chosen text and the default duration. */
  method TriggerAgentCommunication(q: MessageQueue, fromAgent: int, toAgent: int, action: string, context: Option<string>, now: int)
    requires q.Valid()
    modifies q
    ensures q.Valid()
    ensures q.nextId == old(q.nextId) + 1
    ensures IdOf(old(q.nextId)) !in old(q.messages)
    ensures q.messages == old(q.messages)[IdOf(old(q.nextId)) :=
      Bubble(IdOf(old(q.nextId)), fromAgent, toAgent, CommunicationText(fromAgent, toAgent, action, context), now, DefaultDuration)]
    ensures q.order == old(q.order) + [IdOf(old(q.nextId))]
  {
    var message := CommunicationText(fromAgent, toAgent, action, context);
    var _ := q.AddMessage(fromAgent, toAgent, message, None, now);
  }
}
