/**
 * `YtRewind`: the YouTube rewind detector. YouTube rewinds five seconds on the left-arrow
 * key, so a key press outside a text field reports the five seconds before the current
 * position (cut off at the start of the video).
 */
module YtRewind {
  import opened Wrappers
  import opened Media

  /** How far YouTube's left-arrow key jumps back, in seconds. */
  const RewindSec: real := 5.0

  /** The key that triggers a rewind. */
  const RewindKey: string := "ArrowLeft"

  /** The focused element, as far as the guard reads it. */
  datatype ActiveElement = ActiveElement(tagName: string, isContentEditable: bool)

  /** The user is typing: focus is in an input, a text area or an editable element. */
  predicate Typing(focus: Option<ActiveElement>) {
    focus.Some? && (focus.value.tagName == "INPUT" || focus.value.tagName == "TEXTAREA"
                    || focus.value.isContentEditable)
  }

  /** `[max(0, t - 5), t]`: the segment the key press at position `t` replays. */
  function KeySegment(t: real): (s: Segment)
    ensures s.endSec == t && s.startSec >= 0.0
    ensures s.endSec - s.startSec <= RewindSec
    ensures t >= 0.0 ==> s.startSec <= s.endSec
    ensures t >= RewindSec ==> s.endSec - s.startSec == RewindSec
    ensures t <= RewindSec ==> s.startSec == 0.0
  {
    Segment(if t - RewindSec > 0.0 then t - RewindSec else 0.0, t)
  }

  /** The detector's only state: the `enabled` switch. */
  class RewindDetector {
    var enabled: bool

    /** A new detector is disabled. */
    constructor ()
      ensures !enabled
    {
      enabled := false;
    }

    /**
     * The capturing `keydown` listener: a left-arrow press, while enabled, with a video on
     * the page and focus outside text fields, reports the replayed segment.
     */
    method OnKeyDown(key: string, video: VideoElement?, focus: Option<ActiveElement>)
      returns (emitted: Option<Segment>)
      ensures emitted.Some? <==> enabled && key == RewindKey && video != null && !Typing(focus)
      ensures emitted.Some? ==> emitted.value == KeySegment(video.currentTime)
    {
      if !enabled { return None; }
      if key != RewindKey { return None; }
      if video == null { return None; }
      if Typing(focus) { return None; }
      var currentTime := video.currentTime;
      emitted := Some(KeySegment(currentTime));
    }

    /** `setEnabled`: only the switch changes. */
    method SetEnabled(on: bool)
      modifies this
      ensures enabled == on
    {
      enabled := on;
    }
  }
}
