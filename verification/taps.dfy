/** The completed touch record and the labelling the send button applies to the pending ones. */
module Taps {

  /**
   * `MainActivity.TapEvent`: start time and duration in milliseconds, the peak ambient
   * reading seen while the contact was open, and the user's note ("" = not yet labelled).
   */
  datatype TapEvent = TapEvent(startTime: int, duration: int, peakPressure: int, customText: string)

  /** What the send handler does to one pending tap: an unlabelled tap takes the note. */
  function Labelled(t: TapEvent, text: string): (u: TapEvent)
    ensures u.startTime == t.startTime && u.duration == t.duration && u.peakPressure == t.peakPressure
    ensures t.customText != "" ==> u == t
    ensures t.customText == "" ==> u.customText == text
  {
    if t.customText == "" then t.(customText := text) else t
  }

  /** The pending list after `filter { customText.isEmpty() }.forEach { customText = text }`. */
  function LabelUnlabeled(taps: seq<TapEvent>, text: string): (r: seq<TapEvent>)
    ensures |r| == |taps|
    ensures forall i :: 0 <= i < |taps| && taps[i].customText != "" ==> r[i] == taps[i]
  {
    seq(|taps|, i requires 0 <= i < |taps| => Labelled(taps[i], text))
  }

  /**
   * Labelling keeps the list's length and order and every tap's timing and peak; it writes
   * `text` on exactly the taps that had no note and leaves the others' notes as they were.
   */
  lemma LabelUnlabeledSpec(taps: seq<TapEvent>, text: string)
    ensures |LabelUnlabeled(taps, text)| == |taps|
    ensures forall i :: 0 <= i < |taps| ==>
      var (t, u) := (taps[i], LabelUnlabeled(taps, text)[i]);
      && u.startTime == t.startTime && u.duration == t.duration && u.peakPressure == t.peakPressure
      && (t.customText == "" ==> u.customText == text)
      && (t.customText != "" ==> u.customText == t.customText)
  {
  }

  /** After a non-empty note is sent, no pending tap is left unlabelled. */
  lemma LabelUnlabeledLeavesNoneEmpty(taps: seq<TapEvent>, text: string)
    requires text != ""
    ensures forall i :: 0 <= i < |taps| ==> LabelUnlabeled(taps, text)[i].customText != ""
  {
  }

  /** Sending a second note changes nothing once every tap is labelled. */
  lemma LabelUnlabeledIdempotent(taps: seq<TapEvent>, text: string, other: string)
    requires text != ""
    ensures LabelUnlabeled(LabelUnlabeled(taps, text), other) == LabelUnlabeled(taps, text)
  {
  }
}
