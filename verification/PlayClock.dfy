/** The reading of ports/video/papp_player.c's clock: a media time at a system time, running on unless
    paused. Whether it is valid is SeekProtocol's subject. */
module PlayClock {
  /** Running time between two system times: what toggles of the pause leave of it. */
  function Ran(paused: bool, from: int, toggles: seq<int>, to: int): int
    decreases |toggles|
  {
    if toggles == [] then (if paused then 0 else to - from)
    else (if paused then 0 else toggles[0] - from) + Ran(!paused, toggles[0], toggles[1..], to)
  }

  class Clock {
    var pts: int
    var at: int
    var valid: bool
    var paused: bool

    /** clock_get's time at system time `now`, with pictures `offset` later than the sound. */
    function Reading(now: int, offset: int): int
      reads this
    {
      pts + (if valid && !paused then now - at else 0) - offset
    }

    constructor ()
      ensures !valid && !paused
    {
      pts, at, valid, paused := 0, 0, false, false;
    }

    /** clock_set with the current serial */
    method Set(pts: int, at: int)
      modifies this
      ensures valid && paused == old(paused)
      ensures forall now, offset :: Reading(now, offset) == pts - offset + Ran(paused, at, [], now)
    {
      this.pts, this.at, valid := pts, at, true;
    }

    /** clock_pause: the reading does not jump, unless a clock that runs is told to run. */
    method Pause(pause: bool, t: int)
      requires valid
      modifies this
      ensures valid && paused == pause
      ensures forall offset :: Reading(t, offset) == old(Reading(t, offset)) <==> pause || old(paused) || t == old(at)
      ensures pause != old(paused) ==> forall now, offset ::
        Reading(now, offset) == old(Reading(t, offset)) + Ran(pause, t, [], now)
    {
      if valid && pause && !paused {
        pts := pts + t - at;
      }
      at := t;
      paused := pause;
    }

    /** The pause key at any times: the reading moves on by exactly the time not paused. */
    method Toggles(times: seq<int>)
      requires valid
      modifies this
      ensures valid
      ensures forall now, offset :: times != [] ==>
        Reading(now, offset) == old(Reading(times[0], offset)) + Ran(old(!paused), times[0], times[1..], now)
    {
      if times == [] {
        return;
      }
      Pause(!paused, times[0]);
      var rest := times[1..];
      if rest != [] {
        Toggles(rest);
      }
    }
  }
}
