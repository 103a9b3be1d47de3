/**
 The dashboard aggregation: a point-in-time summary computed from the
 three stores on every query. Nothing here changes any store.
 */
module Dashboard {
  import opened Wrappers
  import VisitCounter
  import Presence
  import MessageStore

  /** The conversion rate as the handler returns it: the plain number 0 when
      no visit was ever counted, otherwise a percentage with one decimal,
      kept here as an integer number of tenths (`47` stands for "4.7"). */
  datatype Rate = PlainZero | OneDecimal(tenths: nat)

  /** One line of the activity feed. */
  datatype Activity = Activity(user: Option<string>, action: string, timestamp: int)

  datatype Snapshot = Snapshot(
    messagesTotal: nat,
    messagesWeekly: nat,
    messagesList: seq<MessageStore.Message>,
    onlineUsers: nat,
    visitsToday: nat,
    visitsChange: int,
    conversionRate: Rate,
    recentActivity: seq<Activity>)

  /** How many of the newest messages the activity feed shows. */
  const FeedSize: nat := 2

  const SubmittedAction: string := "Envi\U{F3} un mensaje"
  const ViewedPrefix: string := "Vio la p\U{E1}gina "
  const VisitorName: string := "Visitante"

  /** `100 * messages / visits` rounded to the nearest tenth, a tie going up:
      the result, read in tenths, lies within half a tenth of the exact
      percentage. */
  function RateTenths(messages: nat, visits: nat): (r: nat)
    requires visits > 0
    ensures visits * (2 * r - 1) <= 2000 * messages < visits * (2 * r + 1)
  {
    (2000 * messages + visits) / (2 * visits)
  }

  /** The conversion rate, defined as `PlainZero` when nothing was visited. */
  function ConversionRate(messages: nat, visits: nat): (r: Rate)
    ensures visits == 0 <==> r.PlainZero?
    ensures visits > 0 ==> r == OneDecimal(RateTenths(messages, visits))
  {
    if visits > 0 then OneDecimal(RateTenths(messages, visits)) else PlainZero
  }

  /** The feed: the newest messages (at most `FeedSize`) as "sent a message"
      lines, then one visitor line naming `lastPath`, stamped `now`. */
  function RecentActivity(log: seq<MessageStore.Message>, lastPath: string, now: int): (r: seq<Activity>)
    ensures |r| == (if |log| < FeedSize then |log| else FeedSize) + 1
    ensures forall i :: 0 <= i < |r| - 1 ==>
              r[i] == Activity(log[i].email, SubmittedAction, log[i].date)
    ensures r[|r| - 1] == Activity(Some(VisitorName), ViewedPrefix + lastPath, now)
  {
    var newest := MessageStore.Recent(log, FeedSize);
    seq(|newest|, i requires 0 <= i < |newest| =>
          Activity(newest[i].email, SubmittedAction, newest[i].date))
    + [Activity(Some(VisitorName), ViewedPrefix + lastPath, now)]
  }

  /** The dashboard data at instant `now`. */
  function Take(visits: VisitCounter.Counter, presence: Presence.Tracker,
                log: seq<MessageStore.Message>, now: int): (s: Snapshot)
    ensures s.messagesTotal == |log|
    ensures s.messagesWeekly == MessageStore.Weekly(log, now)
    ensures |s.messagesList| == (if |log| < MessageStore.ListSize then |log| else MessageStore.ListSize)
    ensures forall i :: 0 <= i < |s.messagesList| ==> s.messagesList[i] == log[i]
    ensures s.onlineUsers == |presence.online|
    ensures s.visitsToday == VisitCounter.VisitsFor(visits, "/")
    ensures s.visitsChange == 0
    ensures s.conversionRate == ConversionRate(|log|, VisitCounter.Total(visits))
    ensures s.recentActivity == RecentActivity(log, VisitCounter.LastPath(visits), now)
  {
    Snapshot(
      |log|,
      MessageStore.Weekly(log, now),
      MessageStore.Recent(log, MessageStore.ListSize),
      Presence.OnlineCount(presence),
      VisitCounter.VisitsFor(visits, "/"),
      0,
      ConversionRate(|log|, VisitCounter.Total(visits)),
      RecentActivity(log, VisitCounter.LastPath(visits), now))
  }

  /** Cancelling a positive factor from a strict comparison. */
  lemma CancelFactor(a: int, x: int, y: int)
    requires a > 0
    requires a * x < a * y
    ensures x < y
  {
  }

  /** The rounding is a function of the exact percentage: any count of tenths
      within half a tenth of it, ties going up, is the one computed. */
  lemma RateTenthsUnique(messages: nat, visits: nat, t: nat)
    requires visits > 0
    requires visits * (2 * t - 1) <= 2000 * messages < visits * (2 * t + 1)
    ensures t == RateTenths(messages, visits)
  {
    var r: int := RateTenths(messages, visits);
    CancelFactor(visits, 2 * t - 1, 2 * r + 1);
    CancelFactor(visits, 2 * r - 1, 2 * t + 1);
  }

  /** A rate over no more messages than visits is at most 100.0 percent. */
  lemma RateAtMostHundred(messages: nat, visits: nat)
    requires 0 < visits
    requires messages <= visits
    ensures RateTenths(messages, visits) <= 1000
  {
    var r: int := RateTenths(messages, visits);
    assert 2000 * messages <= 2000 * visits;
    CancelFactor(visits, 2 * r - 1, 2001);
  }

  /** Five messages over one hundred visits read as 5.0 percent; over the 106
      visits the same run really counts (the five form posts and the
      dashboard request are visits too) they read as 4.7 percent. */
  lemma RateExamples()
    ensures ConversionRate(5, 100) == OneDecimal(50)
    ensures ConversionRate(5, 106) == OneDecimal(47)
    ensures ConversionRate(0, 0) == PlainZero
  {
  }
}
