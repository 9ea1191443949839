/** The per-target Up/Down state machine of a tick and the label table that
    names its outcome. A target is up when its stored last status is 200;
    it becomes up in a tick when some attempt succeeded and the
    representative status is 200. The first-up time anchors the display of
    how long a target has been up. */
module Uptime {
  import opened Probe

  /** Status code for rate limiting (section 4 of RFC 6585). */
  const StatusTooManyRequests := 429

  /** A nullable instant (`sql.NullTime`); instants are nanoseconds. */
  datatype NullTime = Null | Valid(time: int)

  predicate WasUp(lastStatus: int) { lastStatus == StatusOK }

  predicate IsNowUp(hasSuccess: bool, lastStatus: int) { hasSuccess && lastStatus == StatusOK }

  /** The next first-up time: set to the tick time on a down-to-up
      transition, cleared on an up-to-down transition, kept otherwise. */
  function NextFirstUp(prevStatus: int, prevFirstUp: NullTime, hasSuccess: bool, lastStatus: int, now: int): (r: NullTime)
    ensures !WasUp(prevStatus) && IsNowUp(hasSuccess, lastStatus) ==> r == Valid(now)
    ensures WasUp(prevStatus) && !IsNowUp(hasSuccess, lastStatus) ==> r == Null
    ensures WasUp(prevStatus) == IsNowUp(hasSuccess, lastStatus) ==> r == prevFirstUp
  {
    var wasUp := WasUp(prevStatus);
    var isNowUp := IsNowUp(hasSuccess, lastStatus);
    if !wasUp && isNowUp then Valid(now)
    else if wasUp && !isNowUp then Null
    else prevFirstUp
  }

  /** The transition keeps the invariant "a first-up time is present exactly
      while the target is up": if it held of the stored row, it holds of the
      status the tick stores (the representative status on the success path,
      0 on the failure path). */
  lemma FirstUpTracksUp(prevStatus: int, prevFirstUp: NullTime, hasSuccess: bool, lastStatus: int, now: int)
    requires prevFirstUp.Valid? <==> WasUp(prevStatus)
    ensures var stored := if hasSuccess then lastStatus else 0;
            NextFirstUp(prevStatus, prevFirstUp, hasSuccess, lastStatus, now).Valid? <==> WasUp(stored)
  {
  }

  // ---------------------------------------------------------------------
  // Labels
  // ---------------------------------------------------------------------

  /** The status label and description a tick records for a target. */
  datatype Label = Label(status: string, description: string)

  function LabelFor(hasSuccess: bool, lastStatus: int): (l: Label)
    ensures l.status == "Down" <==> !hasSuccess
    ensures l.status == "Up" <==> hasSuccess
    ensures l.description == "Succeed" <==> IsNowUp(hasSuccess, lastStatus)
    ensures l.description == "Too Many Requests" <==> hasSuccess && lastStatus == StatusTooManyRequests
    ensures l.description == "Network Error" <==> !hasSuccess
    ensures l.description == "Warning" <==>
              hasSuccess && lastStatus != StatusOK && lastStatus != StatusTooManyRequests
  {
    if hasSuccess then
      if lastStatus == StatusOK then Label("Up", "Succeed")
      else if lastStatus == StatusTooManyRequests then Label("Up", "Too Many Requests")
      else Label("Up", "Warning")
    else Label("Down", "Network Error")
  }
}
