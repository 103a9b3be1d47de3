/**
 The server's process-lifetime state and the transitions that act on it.
 Every request first passes through the tracking middleware (visit count
 and presence), then reaches its handler: a contact post appends to the
 message log, a dashboard query computes a snapshot, anything else is
 served without further state change. Timers are explicit `TimerTick`
 events on the same millisecond clock.
 */
module Server {
  import opened Wrappers
  import VisitCounter
  import Presence
  import MessageStore
  import Dashboard

  datatype State = State(
    visits: VisitCounter.Counter,
    presence: Presence.Tracker,
    log: seq<MessageStore.Message>)

  /** What the middleware reads from a request. */
  datatype Request = Request(path: string, forwarded: Option<string>, socket: string)

  /** Which handler a request reaches after the middleware. */
  datatype Kind = Page | ContactPost(form: MessageStore.Form) | DashboardQuery

  datatype Event =
    | Incoming(req: Request, kind: Kind, at: int)
    | TimerTick(at: int)

  /** The invariant every reachable state keeps. */
  ghost predicate Inv(s: State) {
    && VisitCounter.Valid(s.visits)
    && Presence.Valid(s.presence)
    && |s.log| <= VisitCounter.Total(s.visits)
  }

  /** The state at process start: no visits, nobody online, no messages. */
  function Init(): (s: State)
    ensures Inv(s)
    ensures VisitCounter.Total(s.visits) == 0 && |s.presence.online| == 0 && |s.log| == 0
  {
    State(VisitCounter.Empty(), Presence.Empty(), [])
  }

  /** The client a request is attributed to. */
  function Client(req: Request): string {
    Presence.ClientId(req.forwarded, req.socket)
  }

  /** The tracking middleware: one more visit for the request's path, its
      client marked online with a removal due one window later; the message
      log is untouched. */
  function Track(s: State, req: Request, now: int): (r: State)
    ensures VisitCounter.VisitsFor(r.visits, req.path) == VisitCounter.VisitsFor(s.visits, req.path) + 1
    ensures forall q :: q != req.path ==>
              VisitCounter.VisitsFor(r.visits, q) == VisitCounter.VisitsFor(s.visits, q)
    ensures r.presence.online == s.presence.online + {Client(req)}
    ensures Presence.Removal(Client(req), now + Presence.Window) in r.presence.pending
    ensures forall x :: x in s.presence.pending ==> x in r.presence.pending
    ensures r.log == s.log
  {
    State(VisitCounter.Record(s.visits, req.path),
          Presence.Touch(s.presence, Client(req), now),
          s.log)
  }

  /** The middleware adds exactly one visit to the total. */
  lemma TrackTotal(s: State, req: Request, now: int)
    requires Inv(s)
    ensures VisitCounter.Total(Track(s, req, now).visits) == VisitCounter.Total(s.visits) + 1
    ensures Inv(Track(s, req, now))
  {
    VisitCounter.RecordTotal(s.visits, req.path);
  }

  /** The contact handler, after the middleware: the submission becomes the
      newest message. */
  function Contact(s: State, req: Request, form: MessageStore.Form, now: int): (r: State)
    ensures r.log == MessageStore.Submit(s.log, form, now)
    ensures r.log[0].status == MessageStore.Pending
    ensures r.visits == Track(s, req, now).visits
    ensures r.presence == Track(s, req, now).presence
  {
    var t := Track(s, req, now);
    State(t.visits, t.presence, MessageStore.Submit(t.log, form, now))
  }

  /** The dashboard handler: the snapshot is taken after the middleware has
      counted the dashboard request itself. */
  function DashboardData(s: State, req: Request, now: int): (r: (State, Dashboard.Snapshot))
    ensures r.0 == Track(s, req, now)
    ensures r.1.onlineUsers >= 1
    ensures r.1.messagesTotal == |s.log|
  {
    var t := Track(s, req, now);
    (t, Dashboard.Take(t.visits, t.presence, t.log, now))
  }

  /** The timers whose removals are due at `now` run. */
  function Tick(s: State, now: int): (r: State)
    ensures r.visits == s.visits && r.log == s.log
    ensures r.presence == Presence.Fire(s.presence, now)
    ensures Inv(s) ==> Inv(r)
  {
    State(s.visits, Presence.Fire(s.presence, now), s.log)
  }

  /** The state after one event: a request reaches the middleware and then
      its handler, and only a contact post writes to the log; a timer tick
      touches nothing but presence. */
  function Step(s: State, e: Event): (r: State)
    ensures e.Incoming? ==>
              && VisitCounter.VisitsFor(r.visits, e.req.path) == VisitCounter.VisitsFor(s.visits, e.req.path) + 1
              && (forall q :: q != e.req.path ==>
                    VisitCounter.VisitsFor(r.visits, q) == VisitCounter.VisitsFor(s.visits, q))
              && Client(e.req) in r.presence.online
    ensures e.Incoming? && e.kind.ContactPost? ==> r.log == MessageStore.Submit(s.log, e.kind.form, e.at)
    ensures e.Incoming? && !e.kind.ContactPost? ==> r.log == s.log
    ensures e.TimerTick? ==>
              r.visits == s.visits && r.log == s.log && r.presence == Presence.Fire(s.presence, e.at)
  {
    match e
    case TimerTick(now) => Tick(s, now)
    case Incoming(req, kind, now) =>
      match kind
      case Page => Track(s, req, now)
      case ContactPost(form) => Contact(s, req, form, now)
      case DashboardQuery => DashboardData(s, req, now).0
  }

  /** The state after a sequence of events, applied in order. No path's
      count ever goes down, and no message is changed or dropped: the log
      before the run is the tail of the log after it. */
  function Run(s: State, es: seq<Event>): (r: State)
    decreases |es|
    ensures forall p :: VisitCounter.VisitsFor(r.visits, p) >= VisitCounter.VisitsFor(s.visits, p)
    ensures MessageStore.IsTail(s.log, r.log)
  {
    if |es| == 0 then s
    else
      var prev := Run(s, es[..|es| - 1]);
      var e := es[|es| - 1];
      var r := Step(prev, e);
      if e.Incoming? && e.kind.ContactPost? then
        MessageStore.SubmitKeepsTail(prev.log, e.kind.form, e.at);
        MessageStore.TailTrans(s.log, prev.log, r.log);
        r
      else
        r
  }

  /** Number of requests (events other than timer ticks) in `es`. */
  function Requests(es: seq<Event>): nat
    decreases |es|
  {
    if |es| == 0 then 0
    else Requests(es[..|es| - 1]) + (if es[|es| - 1].Incoming? then 1 else 0)
  }

  /** Number of contact posts in `es`. */
  function Contacts(es: seq<Event>): nat
    decreases |es|
  {
    if |es| == 0 then 0
    else Contacts(es[..|es| - 1])
         + (if es[|es| - 1].Incoming? && es[|es| - 1].kind.ContactPost? then 1 else 0)
  }

  /** The event times never go backwards. */
  ghost predicate Chronological(es: seq<Event>) {
    forall i, j :: 0 <= i < j < |es| ==> es[i].at <= es[j].at
  }

  /** One event keeps the invariant, adds one visit per request and one
      message per contact post. */
  lemma StepCounts(s: State, e: Event)
    requires Inv(s)
    ensures Inv(Step(s, e))
    ensures VisitCounter.Total(Step(s, e).visits)
            == VisitCounter.Total(s.visits) + (if e.Incoming? then 1 else 0)
    ensures |Step(s, e).log|
            == |s.log| + (if e.Incoming? && e.kind.ContactPost? then 1 else 0)
  {
    if e.Incoming? {
      TrackTotal(s, e.req, e.at);
    }
  }

  /** Over any run the invariant holds, total visits grow by exactly the
      number of requests and the log by exactly the number of contact posts. */
  lemma {:induction false} RunCounts(s: State, es: seq<Event>)
    requires Inv(s)
    ensures Inv(Run(s, es))
    ensures VisitCounter.Total(Run(s, es).visits) == VisitCounter.Total(s.visits) + Requests(es)
    ensures |Run(s, es).log| == |s.log| + Contacts(es)
  {
    if |es| > 0 {
      RunCounts(s, es[..|es| - 1]);
      StepCounts(Run(s, es[..|es| - 1]), es[|es| - 1]);
    }
  }

  /** From process start, the dashboard's total is the number of requests
      tracked, the message total the number of contact posts, and the
      conversion rate never exceeds 100.0 percent. */
  lemma TotalsFromStart(es: seq<Event>)
    ensures VisitCounter.Total(Run(Init(), es).visits) == Requests(es)
    ensures |Run(Init(), es).log| == Contacts(es)
    ensures var s := Run(Init(), es);
            var v := VisitCounter.Total(s.visits);
            v > 0 ==> Dashboard.RateTenths(|s.log|, v) <= 1000
  {
    RunCounts(Init(), es);
    var s := Run(Init(), es);
    if VisitCounter.Total(s.visits) > 0 {
      Dashboard.RateAtMostHundred(|s.log|, VisitCounter.Total(s.visits));
    }
  }

  /** The dashboard counts its own request: its total is one more than the
      visits before the query, and "today" never exceeds that total. */
  lemma DashboardCountsItself(s: State, req: Request, now: int)
    requires Inv(s)
    ensures var (t, snap) := DashboardData(s, req, now);
            && VisitCounter.Total(t.visits) == VisitCounter.Total(s.visits) + 1
            && snap.visitsToday <= VisitCounter.Total(t.visits)
            && snap.conversionRate
               == Dashboard.OneDecimal(Dashboard.RateTenths(|s.log|, VisitCounter.Total(s.visits) + 1))
  {
    var t := Track(s, req, now);
    TrackTotal(s, req, now);
    VisitCounter.VisitsBelowTotal(t.visits, "/");
  }

  /** A queued removal stays queued through any events whose ticks all come
      before it is due. */
  lemma {:induction false} RemovalStaysQueued(s: State, x: Presence.Removal, es: seq<Event>)
    requires x in s.presence.pending
    requires forall i :: 0 <= i < |es| && es[i].TimerTick? ==> es[i].at < x.due
    ensures x in Run(s, es).presence.pending
  {
    if |es| > 0 {
      RemovalStaysQueued(s, x, es[..|es| - 1]);
    }
  }

  /** Eviction follows the FIRST request, not the last: a client that made a
      request at `t` is offline after the first tick at or after
      `t + Window`, whatever requests it made in between. */
  lemma FirstRequestEvicts(s: State, req: Request, kind: Kind, t: int, es: seq<Event>, now: int)
    requires forall i :: 0 <= i < |es| && es[i].TimerTick? ==> es[i].at < t + Presence.Window
    requires now >= t + Presence.Window
    ensures Client(req) !in
            Run(Step(s, Incoming(req, kind, t)), es + [TimerTick(now)]).presence.online
  {
    var s1 := Step(s, Incoming(req, kind, t));
    var x := Presence.Removal(Client(req), t + Presence.Window);
    assert s1.presence == Track(s, req, t).presence;
    RemovalStaysQueued(s1, x, es);
    var mid := Run(s1, es);
    var all := es + [TimerTick(now)];
    assert all[..|all| - 1] == es;
    assert Run(s1, all) == Step(mid, TimerTick(now));
    var p := mid.presence.pending;
    var i :| 0 <= i < |p| && p[i] == x;
    assert Presence.DueFor(p, Client(req), now);
  }

  /** The concrete case: requests at `t` and one minute later; the tick at
      `t + Window` evicts the client although the later request's removal,
      due a minute after that, is still queued. */
  lemma EarlyEvictionTrace(req: Request, t: int)
    ensures var s1 := Step(Init(), Incoming(req, Page, t));
            var s2 := Step(s1, Incoming(req, Page, t + 60000));
            var s3 := Step(s2, TimerTick(t + Presence.Window));
            && Client(req) in s2.presence.online
            && Client(req) !in s3.presence.online
            && Presence.Removal(Client(req), t + 60000 + Presence.Window) in s3.presence.pending
  {
  }

  /** A single request makes one client online; five minutes later, with
      nothing else happening, nobody is. */
  lemma PresenceScenario(req: Request, t: int)
    ensures var s1 := Step(Init(), Incoming(req, Page, t));
            && Presence.OnlineCount(s1.presence) == 1
            && Presence.OnlineCount(Step(s1, TimerTick(t + Presence.Window)).presence) == 0
  {
  }

  /** With a clock that never goes backwards, the log stays newest first and
      its head is no later than the last event. */
  lemma {:induction false} RunNewestFirst(es: seq<Event>)
    requires Chronological(es)
    ensures MessageStore.NewestFirst(Run(Init(), es).log)
    ensures |es| > 0 && |Run(Init(), es).log| > 0 ==> Run(Init(), es).log[0].date <= es[|es| - 1].at
  {
    if |es| > 0 {
      var init := es[..|es| - 1];
      var e := es[|es| - 1];
      assert Chronological(init);
      RunNewestFirst(init);
      var prev := Run(Init(), init);
      if |init| > 0 {
        assert init[|init| - 1].at <= e.at;
      }
      if e.Incoming? && e.kind.ContactPost? {
        assert |prev.log| > 0 ==> |init| > 0 && prev.log[0].date <= e.at;
        MessageStore.SubmitKeepsNewestFirst(prev.log, e.kind.form, e.at);
      }
    }
  }
}
