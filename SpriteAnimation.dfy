/** The sprite helpers of `src/components/spriteAnimation.ts`: the animation
    frame shown at a given time and the colour of a state. Times are integer
    milliseconds, so `elapsed / frameDurationMs` is exact. */
module SpriteAnimation {
  import opened Wrappers

  /** The default time one frame stays on screen. */
  const DefaultFrameDurationMs: int := 100

  /** `Math.floor(elapsed / frameDurationMs) % frameCount` as JavaScript
      computes it, for `elapsed >= 0`. None stands for a result that is not an
      index (NaN, an infinity or a negative number), at which `frames[...]`
      is `undefined`:
      - no frames: `x % 0` is NaN;
      - a zero duration: the quotient is NaN or an infinity;
      - a negative duration: the quotient is at most 0 and JavaScript's `%`
        keeps its sign, so only a zero remainder is an index. */
  function FrameIndex(frameCount: nat, elapsed: nat, frameDurationMs: int): (r: Option<nat>)
    ensures r.Some? ==> r.value < frameCount
    ensures frameDurationMs > 0 && frameCount > 0 ==> r.Some?
  {
    if frameCount == 0 || frameDurationMs == 0 then None
    else if frameDurationMs > 0 then Some((elapsed / frameDurationMs) % frameCount)
    else
      // floor(elapsed / d) for d < 0 is -ceil(elapsed / -d), which is <= 0
      var ceiling := (elapsed + (-frameDurationMs) - 1) / (-frameDurationMs);
      if ceiling % frameCount == 0 then Some(0) else None
  }

  /** The frame on screen at `currentTimeMs` for an animation started at
      `startTimeMs`; elapsed time is clamped at 0. */
  function GetAnimationFrame<T>(frames: seq<T>, startTimeMs: int, currentTimeMs: int,
                                frameDurationMs: int := DefaultFrameDurationMs): (r: Option<T>)
    ensures r.Some? ==> r.value in frames
    ensures frames != [] && frameDurationMs > 0 ==> r.Some?
  {
    var elapsed := if currentTimeMs - startTimeMs > 0 then currentTimeMs - startTimeMs else 0;
    match FrameIndex(|frames|, elapsed, frameDurationMs)
    case Some(i) => Some(frames[i])
    case None => None
  }

  /** Before the animation starts (and at its start) the first frame shows. */
  lemma FirstFrameBeforeStart<T>(frames: seq<T>, startTimeMs: int, currentTimeMs: int, frameDurationMs: int)
    requires frames != [] && frameDurationMs != 0
    requires currentTimeMs <= startTimeMs
    ensures GetAnimationFrame(frames, startTimeMs, currentTimeMs, frameDurationMs) == Some(frames[0])
  {
  }

  /** Euclidean division is determined by quotient and remainder. */
  lemma DivModUnique(x: int, d: int, q: int, r: int)
    requires d > 0 && 0 <= r < d && x == q * d + r
    ensures x / d == q && x % d == r
  {
    var q', r' := x / d, x % d;
    assert x == q' * d + r';
    assert (q - q') * d == r' - r by {
      assert q * d - q' * d == (q - q') * d;
    }
    if q > q' {
      MulAtLeast(q - q', d);
    } else if q < q' {
      assert (q' - q) * d == r - r';
      MulAtLeast(q' - q, d);
    }
  }

  lemma MulAtLeast(k: int, d: int)
    requires k >= 1 && d > 0
    ensures k * d >= d
  {
    assert k * d == (k - 1) * d + d;
    assert (k - 1) * d >= 0;
  }

  lemma DivShift(e: nat, n: nat, d: nat)
    requires d > 0
    ensures (e + n * d) / d == e / d + n
  {
    var q, r := e / d, e % d;
    assert e == q * d + r;
    assert e + n * d == (q + n) * d + r;
    DivModUnique(e + n * d, d, q + n, r);
  }

  lemma ModShift(a: nat, n: nat)
    requires n > 0
    ensures (a + n) % n == a % n
  {
    var q, r := a / n, a % n;
    assert a + n == (q + 1) * n + r;
    DivModUnique(a + n, n, q + 1, r);
  }

  /** The animation repeats every `|frames| * frameDurationMs` ms once it has started. */
  lemma {:induction false} FramePeriodic<T>(frames: seq<T>, startTimeMs: int, t: int, frameDurationMs: int)
    requires frames != [] && frameDurationMs > 0
    requires t >= startTimeMs
    ensures GetAnimationFrame(frames, startTimeMs, t + |frames| * frameDurationMs, frameDurationMs)
         == GetAnimationFrame(frames, startTimeMs, t, frameDurationMs)
  {
    var n, d := |frames|, frameDurationMs;
    var e: nat := t - startTimeMs;
    assert n * d > 0;
    DivShift(e, n, d);
    ModShift(e / d, n);
  }

  /** The cases the source's tests check. */
  lemma FrameExamples()
    ensures GetAnimationFrame([0, 1, 2], 0, 0, 4) == Some(0)
    ensures GetAnimationFrame([0, 1, 2], 0, 4, 4) == Some(1)
    ensures GetAnimationFrame([0, 1, 2], 0, 8, 4) == Some(2)
    ensures GetAnimationFrame([0, 1, 2], 0, 12, 4) == Some(0)
    ensures GetAnimationFrame([0, 1], 0, 2, 2) == Some(1)
    ensures GetAnimationFrame([0, 1], 0, 4, 2) == Some(0)
  {
  }

  const Green := "#4ade80"
  const Orange := "#f97316"
  const Blue := "#3b82f6"

  /** The sprite colour of a state: orange while working, blue while
      communicating, green for idle and for every other string. */
  function GetSpriteColor(state: string): (color: string)
    ensures color in {Green, Orange, Blue}
    ensures color == Orange <==> state == "working"
    ensures color == Blue <==> state == "communicating"
    ensures color == Green <==> state != "working" && state != "communicating"
  {
    match state
    case "idle" => Green
    case "working" => Orange
    case "communicating" => Blue
    case _ => Green
  }
}
