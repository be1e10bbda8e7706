/** The connection policy of `src/components/connectionLines.ts`: whether two
    agents are joined by a line, and the line colour of a state. */
module ConnectionLines {

  const Communicating := "communicating"
  const LineBlue := "#3b82f6"
  const NoLine := "transparent"

  /** Two agents are linked exactly when both are communicating: only agents
      in the same state are linked, and that state is the communicating one. */
  predicate ShouldDrawLine(state1: string, state2: string): (r: bool)
    ensures r ==> state1 == state2
    ensures r <==> state1 == state2 && GetLineColor(state1) == LineBlue
  {
    state1 == Communicating && state2 == Communicating
  }

  /** Blue for a communicating agent, the no-draw colour for any other state. */
  function GetLineColor(state: string): (color: string)
    ensures color == LineBlue <==> state == Communicating
    ensures color == NoLine <==> state != Communicating
  {
    if state == Communicating then LineBlue else NoLine
  }

  /** The link test is symmetric. */
  lemma ShouldDrawLineSymmetric(a: string, b: string)
    ensures ShouldDrawLine(a, b) == ShouldDrawLine(b, a)
  {
  }

  /** Two agents are linked exactly when both would draw a blue line end. */
  lemma LinkedMeansBothBlue(a: string, b: string)
    ensures ShouldDrawLine(a, b) <==> GetLineColor(a) == LineBlue && GetLineColor(b) == LineBlue
  {
  }

  /** The cases the source's tests check. */
  lemma ConnectionExamples()
    ensures ShouldDrawLine("communicating", "communicating")
    ensures !ShouldDrawLine("communicating", "idle")
    ensures !ShouldDrawLine("idle", "idle")
    ensures GetLineColor("communicating") == "#3b82f6"
    ensures GetLineColor("idle") == "transparent"
  {
  }
}
