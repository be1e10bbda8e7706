/** The bubble helpers of `src/components/messageBubbles.ts`. Its truncation
    keeps `limit` characters and then adds "...", unlike the one in
    `MessageBubble.tsx`, which keeps `maxLength - 3`. */
module MessageBubbles {
  import ConnectionLines

  /** The default truncation limit. */
  const DefaultLimit: int := 20

  /** A message longer than `limit` is cut to its first `limit` characters
      (none for a negative limit) followed by "...". */
  function TruncateMessage(msg: string, limit: int := DefaultLimit): (r: string)
    ensures |msg| <= limit ==> r == msg
    ensures |msg| > limit ==> 3 <= |r| <= |msg| + 3
    ensures |msg| > limit ==> r[|r| - 3..] == "..." && r[..|r| - 3] == msg[..|r| - 3]
    ensures |msg| > limit && limit >= 0 ==> |r| == limit + 3
    ensures |msg| > limit && limit < 0 ==> r == "..."
  {
    if |msg| <= limit then msg
    else
      var cut := if limit < 0 then 0 else limit;
      var r := msg[..cut] + "...";
      assert r[..cut] == msg[..cut] && r[cut..] == "...";
      r
  }

  /** The result never exceeds `limit + 3` characters when the limit is not negative. */
  lemma TruncatedLengthBound(msg: string, limit: int)
    requires limit >= 0
    ensures |TruncateMessage(msg, limit)| <= limit + 3
  {
  }

  /** Truncation is idempotent for a non-negative limit: a truncated message
      is cut again to the same first `limit` characters and the same "...". */
  lemma TruncateIdempotent(msg: string, limit: int)
    requires limit >= 0
    ensures TruncateMessage(TruncateMessage(msg, limit), limit) == TruncateMessage(msg, limit)
  {
  }

  /** A bubble shows exactly for a communicating agent, which is exactly when
      that agent's connection line is drawn in blue. */
  predicate ShouldShowBubble(state: string): (r: bool)
    ensures r <==> ConnectionLines.GetLineColor(state) == ConnectionLines.LineBlue
  {
    state == "communicating"
  }

  /** Whenever a line joins two agents, both show a bubble; and an agent
      shows a bubble exactly when a line would join it to a copy of itself. */
  lemma LinkedAgentsShowBubbles(a: string, b: string)
    ensures ConnectionLines.ShouldDrawLine(a, b) ==> ShouldShowBubble(a) && ShouldShowBubble(b)
    ensures ShouldShowBubble(a) <==> ConnectionLines.ShouldDrawLine(a, a)
  {
  }

  /** The cases the source's tests check. */
  lemma BubbleExamples()
    ensures TruncateMessage("Hello") == "Hello"
    ensures TruncateMessage("Hello", 20) == "Hello"
    ensures ShouldShowBubble("communicating")
    ensures !ShouldShowBubble("idle") && !ShouldShowBubble("working")
  {
  }
}
