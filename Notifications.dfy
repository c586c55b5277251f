/** What the tracker sends to the chat room: the colour and the alert flag of
    each notification, and whom it is about. */
module Notifications {
  import opened Hockey

  datatype Color = Red | Yellow | Green

  /** A notification as the room receives it; the message text and the
      decorative image are not modelled, and every message is plain text. */
  datatype Event =
    | CrashNotice(crash: CrashRecord, color: Color, alert: bool)
    | TotalNotice(total: int, color: Color, alert: bool)

  /** The notification about one crash group: an open crash is red and alerts
      the room, a resolved one is green and silent. */
  function Notify(crash: CrashRecord): (e: Event)
    ensures e.CrashNotice? && e.crash == crash
    ensures e.color == Red <==> crash.status == 0
    ensures e.color == Green <==> crash.status != 0
    ensures e.alert <==> crash.status == 0
  {
    if crash.status != 0 then CrashNotice(crash, Green, false)
    else CrashNotice(crash, Red, true)
  }

  /** The summary notification about the number of crash groups: green when
      none is left, yellow otherwise, never alerting. */
  function NotifyTotal(total: int): (e: Event)
    ensures e.TotalNotice? && e.total == total && !e.alert
    ensures e.color == Green <==> total == 0
    ensures e.color == Yellow <==> total != 0
  {
    if total == 0 then TotalNotice(total, Green, false)
    else TotalNotice(total, Yellow, false)
  }

  /** Whether a run that started with `startCount` tracked crash groups and
      ended with `finalCount` of them sends the summary. */
  predicate SummaryDue(startCount: nat, finalCount: nat) {
    startCount > 0 && startCount != finalCount
  }
}
