/** The pause switch of `src/components/pauseResume.ts`: one `paused` cell
    that `pause` and `resume` overwrite and `toggle` flips. The React state
    hook becomes a field of a class. */
module PauseResume {

  class PauseControl {
    var paused: bool

    /** The switch starts unpaused. */
    constructor()
      ensures !paused
    {
      paused := false;
    }

    /** Sets `paused` from any state. */
    method Pause()
      modifies this
      ensures paused
    {
      paused := true;
    }

    /** Clears `paused` from any state. */
    method Resume()
      modifies this
      ensures !paused
    {
      paused := false;
    }

    /** Negates `paused`. */
    method Toggle()
      modifies this
      ensures paused == !old(paused)
    {
      paused := !paused;
    }
  }

  /** Pausing twice is the same as pausing once. */
  method PauseTwice(c: PauseControl)
    modifies c
    ensures c.paused
  {
    c.Pause();
    var once := c.paused;
    c.Pause();
    assert c.paused == once;
  }

  /** Two toggles restore whatever state the switch was in. */
  method ToggleTwice(c: PauseControl)
    modifies c
    ensures c.paused == old(c.paused)
  {
    c.Toggle();
    c.Toggle();
  }

  /** The call sequences the hook's tests make, each on a fresh switch, and
      the value of `paused` after each: no call; pause; pause then resume;
      toggle; toggle again. */
  method ScriptedSequences() returns (observed: seq<bool>)
    ensures observed == [false, true, false, true, false]
  {
    var initial := new PauseControl();
    observed := [initial.paused];

    var paused := new PauseControl();
    paused.Pause();
    observed := observed + [paused.paused];

    var resumed := new PauseControl();
    resumed.Pause();
    resumed.Resume();
    observed := observed + [resumed.paused];

    var toggled := new PauseControl();
    toggled.Toggle();
    observed := observed + [toggled.paused];
    toggled.Toggle();
    observed := observed + [toggled.paused];
  }
}
