/**
 * `DsRewind`: the Dreaming Spanish rewind detector. It watches the page's video element,
 * remembers the last play position reported by `timeupdate`, and reports a replay segment
 * when a `seeking` event lands more than one second behind that position.
 */
module DsRewind {
  import opened Wrappers
  import opened Media

  /** A seek must land more than this many seconds behind the last position to count as a rewind. */
  const MinJumpBackSec: real := 1.0

  /**
   * What a `seeking` event reports, given whether the detector is enabled, the attached
   * element's position (`None` when no element is attached) and the last known position.
   */
  function SeekSegment(enabled: bool, current: Option<real>, previous: real): (r: Option<Segment>)
    ensures r.Some? <==> enabled && current.Some? && previous - current.value > MinJumpBackSec
    ensures r.Some? ==> r.value.startSec == current.value && r.value.endSec == previous
    ensures r.Some? ==> r.value.startSec + MinJumpBackSec < r.value.endSec
  {
    if !enabled || current.None? then None
    else if previous - current.value > MinJumpBackSec then Some(Segment(current.value, previous))
    else None
  }

  /** The detector's state: the `enabled` switch, the last known position and the attached element. */
  class RewindDetector {
    var enabled: bool
    var lastTime: real
    var video: VideoElement?

    /** A new detector is disabled, has last position 0 and no element attached. */
    constructor ()
      ensures !enabled && lastTime == 0.0 && video == null
    {
      enabled := false;
      lastTime := 0.0;
      video := null;
    }

    /** `_attach`: take over an element and start from its current position; `enabled` is kept. */
    method Attach(v: VideoElement)
      modifies this
      ensures video == v && lastTime == v.currentTime && enabled == old(enabled)
    {
      video := v;
      lastTime := v.currentTime;
    }

    /**
     * `_findAndAttach` (and so `start`): attach to the element the page holds, if any;
     * with none, nothing changes until one appears.
     */
    method FindAndAttach(found: VideoElement?)
      modifies this
      ensures found != null ==> video == found && lastTime == found.currentTime
      ensures found == null ==> video == old(video) && lastTime == old(lastTime)
      ensures enabled == old(enabled)
    {
      if found != null {
        Attach(found);
      }
    }

    /** The element was removed from the page: drop it and look for a replacement. */
    method OnVideoRemoved(found: VideoElement?)
      modifies this
      ensures video == found
      ensures found != null ==> lastTime == found.currentTime
      ensures found == null ==> lastTime == old(lastTime)
      ensures enabled == old(enabled)
    {
      video := null;
      FindAndAttach(found);
    }

    /** `_onTimeUpdate`: with an element attached, its position becomes the last known one. */
    method OnTimeUpdate()
      modifies this
      ensures lastTime == if old(video) != null then old(video.currentTime) else old(lastTime)
      ensures enabled == old(enabled) && video == old(video)
    {
      if video != null {
        lastTime := video.currentTime;
      }
    }

    /**
     * `_onSeeking`: report `(current, previous)` when enabled, attached and the position
     * dropped by more than a second; the detector's own state is left as it was.
     */
    method OnSeeking() returns (emitted: Option<Segment>)
      ensures emitted == SeekSegment(enabled, if video == null then None else Some(video.currentTime), lastTime)
      ensures emitted.Some? ==> enabled && video != null
                                && emitted.value == Segment(video.currentTime, lastTime)
                                && lastTime - video.currentTime > MinJumpBackSec
    {
      if !enabled || video == null {
        return None;
      }
      var currentTime := video.currentTime;
      var previousTime := lastTime;
      if previousTime - currentTime > MinJumpBackSec {
        emitted := Some(Segment(currentTime, previousTime));
      } else {
        emitted := None;
      }
    }

    /** `setEnabled`: only the switch changes. */
    method SetEnabled(on: bool)
      modifies this
      ensures enabled == on && lastTime == old(lastTime) && video == old(video)
    {
      enabled := on;
    }
  }
}
