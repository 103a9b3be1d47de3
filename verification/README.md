# Visit and contact tracking of a small Express back end

This project models the in-memory analytics core of a Node.js/Express server
(`server.js`): the middleware that counts page visits and tracks online
clients, the contact-form handler that stores submissions, and the dashboard
endpoint that aggregates the three stores into one snapshot. The model is a
single immutable state record driven by explicit events on an explicit
millisecond clock; the event loop's timers become a queue of pending
removals fired by `TimerTick` events.

Modules, one per component:

- `VisitCounter` (`visit_counter.dfy`): the path-to-count mapping plus the
  order in which paths were first seen (the key order a JavaScript object
  reports for string keys), the total, the per-path read with default 0 and
  the "last inserted path" hint.
- `Presence` (`presence.dfy`): the online set, the queue of `(id, due)`
  removals, the client identifier rule (forwarded-for header unless missing
  or empty, else the socket address), `Touch` and `Fire`.
- `MessageStore` (`message_store.dfy`): the message record, submission at
  the head of the log, the "dated after" filter behind the weekly count and
  the newest-`n` slice.
- `Dashboard` (`dashboard.dfy`): the snapshot, the conversion rate in integer
  tenths and the activity feed.
- `Server` (`server.dfy`): the state, the middleware and the two handlers,
  event traces and the whole-run properties.
- `Wrappers` (`wrappers.dfy`): the `Option` type for absent headers and
  fields.

Behaviour worth knowing, all proved:

- Every request that gets past body parsing reaches the tracking
  middleware, including the contact post and the dashboard query. The dashboard therefore counts its own request
  before summing (`Server.DashboardCountsItself`). A run of 100 page visits,
  5 contact posts and one dashboard query reports 106 visits and a rate of
  4.7, not 100 visits and 5.0 (`Dashboard.RateExamples`).
- Removals are unconditional and independent: a client seen at `t` and at
  `t + 60000` is offline after the tick at `t + 300000`, while the second
  removal is still queued (`Server.EarlyEvictionTrace`,
  `Server.FirstRequestEvicts`). The presence window is thus not a sliding
  window after the last request.
- The "recent page" in the activity feed is the path first seen most
  recently, not the path visited most recently
  (`VisitCounter.LastPathAfterRecord`).
- A message's id is the submission instant alone, so two submissions in the
  same millisecond share an id (`MessageStore.SameInstantSameId`).
- With no visits the rate is the plain number 0 (`Rate.PlainZero`); with
  visits it is a one-decimal string, modelled as `OneDecimal(tenths)`.

## Model

| member | source | states |
|---|---|---|
| VisitCounter.Empty | server.js:16 | the counter starts with no paths and satisfies the counter invariant |
| VisitCounter.Record | server.js:26-27 | the request's path goes up by exactly one (from 0 when absent), every other path keeps its count, a new path joins the end of the first-seen order, and the invariant (order lists each key once, counts at least 1) is kept |
| VisitCounter.RecordTotal | server.js:27 | on a well-formed counter each tracked request raises the total by exactly one |
| VisitCounter.VisitsFor | server.js:77 | reading a path gives its stored count, or 0 for a path never seen |
| VisitCounter.Total | server.js:66 | the total bounds every listed path's count and, with every path visited at least once, is at least the number of paths; its exact growth is stated by VisitCounter.RecordTotal and Server.TotalsFromStart |
| VisitCounter.VisitsBelowTotal | server.js:66 | no single path's count, in particular that of "/", exceeds the sum over all paths |
| VisitCounter.SumIncrement | server.js:66 | incrementing one listed path raises the sum over a duplicate-free path list by exactly one |
| VisitCounter.SumUpdateOutside | server.js:66 | changing a path not in the list leaves the sum over the list unchanged |
| VisitCounter.CountBelowSum | server.js:66 | the count of a listed path is bounded by the sum over the list |
| VisitCounter.SumAtLeastLength | server.js:66 | a sum over paths each counted at least once is at least their number |
| VisitCounter.LastPath | server.js:84 | the hint is the last key of the order, or the empty string when no path exists; that this order is first-seen order is proved by VisitCounter.LastPathAfterRecord |
| VisitCounter.LastPathAfterRecord | server.js:84 | the hint moves to a path only when that path is seen for the first time; revisits leave it unchanged |
| Presence.Empty | server.js:18 | nobody is online and nothing is scheduled at start |
| Presence.ClientId | server.js:30 | the id is the forwarded-for header when present and non-empty, otherwise the socket address |
| Presence.Touch | server.js:31-35 | the id is online afterwards, the set grows by one only for a new id, and exactly one removal of that id due at `now + 300000` is appended to the queue, earlier ones kept |
| Presence.Expire | server.js:33-35 | an id survives the due removals exactly when it was online and no removal of it is due |
| Presence.Waiting | server.js:33-35 | the removals left queued are exactly those not yet due |
| Presence.Fire | server.js:33-35 | firing at `now` removes an id if and only if some queued removal of it is due, whatever requests came later, keeps exactly the undue removals, and keeps "every online id has a queued removal" |
| Presence.OnlineCount | server.js:75 | the online count is the number of distinct ids in the set, zero exactly when the set is empty |
| Presence.AllDueEmpties | server.js:33-35 | once every queued removal is due, firing leaves nobody online |
| Presence.EarlyEviction | server.js:30-35 | an id touched at `t` and at `t + 60000` is gone after firing at `t + 300000`, while its removal due at `t + 360000` is still queued |
| MessageStore.NewMessage | server.js:47-55 | the record carries the submission instant as id and date, the four form fields as given, and the pending status |
| MessageStore.Submit | server.js:57 | the new record is at index 0, every earlier message is shifted back by one in its order, and the log grows by one |
| MessageStore.After | server.js:72 | the filtered list holds only messages of the log dated strictly after the cutoff, and every such message of the log; multiplicities are stated by MessageStore.AfterMultiset |
| MessageStore.CountSince | server.js:72 | the count is the number of log positions holding a message dated strictly after the cutoff, duplicates included |
| MessageStore.Weekly | server.js:72 | the weekly count is the number of log positions dated strictly after `now` minus seven days (duplicates counted), and at most the log length |
| MessageStore.CountSinceIndices | server.js:72 | the filtered list has exactly one entry per log position dated after the cutoff |
| MessageStore.DatedAfterSnoc | server.js:72 | a log has as many qualifying positions as all but its last message, plus one when the last message qualifies |
| MessageStore.AfterSnoc | server.js:72 | the filtered list of a log is as long as that of all but its last message, plus one when the last message qualifies |
| MessageStore.AfterMultiset | server.js:72 | the filter keeps each message dated after the cutoff exactly as many times as the log holds it, and drops every other message |
| MessageStore.Recent | server.js:73 | the list is the first `min(n, length)` messages of the log, newest first |
| MessageStore.AfterConcat | server.js:72 | filtering a concatenation is the concatenation of the filtered parts |
| MessageStore.CountSinceZeroIff | server.js:72 | the count after a cutoff is zero if and only if no message is dated after it |
| MessageStore.CountSinceAllIff | server.js:72 | the count after a cutoff is the whole log if and only if every message is dated after it |
| MessageStore.WeeklyAfterSubmit | server.js:72 | a message submitted at `now` raises the weekly count at `now` by exactly one |
| MessageStore.SubmitKeepsTail | server.js:57 | the log before a submission is the tail of the log after it |
| MessageStore.TailTrans | server.js:57 | a tail of a tail is a tail, so earlier messages survive any number of submissions |
| MessageStore.SubmitKeepsNewestFirst | server.js:53-57 | a submission dated no earlier than the newest message keeps the log ordered newest first |
| MessageStore.RecentAfterSubmit | server.js:57 | after a submission the newest `n + 1` messages are the new one followed by the previous newest `n` |
| MessageStore.NewestIsLatest | server.js:57 | after two submissions the single newest message is the second one |
| MessageStore.SameInstantSameId | server.js:48 | two submissions in the same millisecond get equal ids |
| Dashboard.RateTenths | server.js:67 | the rate in tenths is within half a tenth of `100 * messages / visits`, a tie rounding up |
| Dashboard.RateTenthsUnique | server.js:67 | that rounding condition determines the tenths uniquely |
| Dashboard.ConversionRate | server.js:67 | the rate is the plain 0 exactly when there are no visits, otherwise the rounded tenths |
| Dashboard.RateAtMostHundred | server.js:67 | with no more messages than visits the rate is at most 100.0 |
| Dashboard.RateExamples | server.js:67 | 5 messages over 100 visits give 5.0, over 106 visits 4.7, and no visits give the plain 0 |
| Dashboard.RecentActivity | server.js:81-85 | the feed has `min(2, length) + 1` entries: the newest messages as email, "sent a message" and date, then the visitor entry naming the last path at `now` |
| Dashboard.Take | server.js:65-86 | the snapshot's totals, weekly count, first ten messages, online count, "/" visits, zero change, guarded rate and feed agree with the three stores |
| Server.Init | server.js:16-18 | the process starts with no visits, nobody online and no messages, in a state meeting the invariant |
| Server.Track | server.js:24-38 | the middleware adds one visit to the request's path only, marks the request's client online with a removal due one window later, keeps earlier removals and leaves the log unchanged |
| Server.TrackTotal | server.js:26-27 | the middleware adds exactly one to the total and keeps the state invariant |
| Server.Contact | server.js:43-62 | a contact post is tracked and then its submission becomes the newest, pending message |
| Server.DashboardData | server.js:65-89 | the query is tracked first; its snapshot reports at least one online client and the message total before the query |
| Server.Tick | server.js:33-35 | a timer tick changes only the presence tracker, by firing the due removals |
| Server.Step | server.js:24-89 | a request gets one more visit for its path only and puts its client online; only a contact post writes the log, by a submission; a tick changes only presence, by firing |
| Server.Run | server.js:24-89 | over any events no path's count goes down and the log before is exactly the tail of the log after: no message is changed or dropped |
| Server.StepCounts | server.js:24-62 | each event keeps the invariant, adds one visit per request and one message per contact post |
| Server.RunCounts | server.js:24-62 | over any trace the invariant holds, the total grows by the number of requests and the log by the number of contact posts |
| Server.TotalsFromStart | server.js:66-67 | from process start the dashboard total equals the number of requests, the message total the number of contact posts, and the rate never exceeds 100.0 |
| Server.DashboardCountsItself | server.js:65-77 | the dashboard's total includes its own request, "today" never exceeds it and the rate is computed over that total |
| Server.RemovalStaysQueued | server.js:33-35 | a queued removal stays queued through any events whose ticks come before it is due |
| Server.FirstRequestEvicts | server.js:30-35 | a client is offline after the first tick at or after 300000 ms past any one of its requests, whatever it requested in between |
| Server.EarlyEvictionTrace | server.js:30-35 | two requests a minute apart: online after the second, offline at the first request's deadline, the second removal still pending |
| Server.PresenceScenario | server.js:30-35 | one request makes exactly one client online; a tick five minutes later leaves none |
| Server.RunNewestFirst | server.js:53-57 | with a clock that never goes back, the log stays ordered newest first |

## Left out

- Express setup, body parsing, routing, the JSON responses (including the
  constant confirmation reply of the contact handler), static file serving
  and `app.listen`: framework plumbing with no logic.
- The event loop and `setTimeout`: replaced by `TimerTick(now)` events that
  fire every queued removal due at or before `now`. A trace may place ticks
  anywhere; Node's guarantee that a timer never runs early is a hypothesis of
  the eviction lemmas, not a constraint of the model.
- `Date.now()` and ISO date strings: instants are integers supplied by the
  caller, the id and date of a message are the same instant, and parsing an
  ISO string back into a date is the identity.
- Floating point: the rate is the exact percentage rounded to the nearest
  tenth with ties up, as `toFixed(1)` does on an exact value; the rounding
  error of `(m / v) * 100` in double precision and the rendering as a string
  are not modelled.
- `console.log` calls and `process.env.PORT`: side effects with no state.
- JavaScript's key ordering for integer-like keys: paths are assumed to start
  with "/", so first-seen order is the object's key order.
- `Incoming` models only requests that get past body parsing. The JSON and
  form parsers are registered before the tracker; a body they reject
  (malformed JSON, over the size limit, a bad charset) goes to Express's
  error handling, and that request is neither counted nor marked online.
- A contact post whose body was not parsed, under Express versions that
  leave the body undefined, fails in the destructuring of the handler and
  stores no message; the model always has a form, possibly with missing
  fields.
- Visit counts are unbounded integers; the source's counts are JavaScript
  numbers, whose `+ 1` stops changing the value past 2^53.
- Form fields that are present but not strings (numbers, objects) and a
  missing socket address: fields are `Option<string>`, the socket address a
  string.
- Unbounded growth of the counter and the log is modelled as is; no cap.
