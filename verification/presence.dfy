/**
 The presence tracker: the set of client identifiers seen recently. Every
 tracked request adds its client and schedules its own removal a fixed
 window later; removals are unconditional and independent, so a client
 seen twice leaves the set when the FIRST of its removals falls due.
 The event loop's timers are modelled as an explicit queue of pending
 removals, fired by `Fire(now)` on an explicit millisecond clock.
 */
module Presence {
  import opened Wrappers

  /** Delay of each scheduled removal: five minutes in milliseconds. */
  const Window: int := 300000

  /** A pending removal of `id`, due at instant `due`. */
  datatype Removal = Removal(id: string, due: int)

  datatype Tracker = Tracker(online: set<string>, pending: seq<Removal>)

  /** The tracker the process starts with: nobody online, nothing scheduled. */
  function Empty(): (t: Tracker)
    ensures Valid(t)
    ensures |t.online| == 0
    ensures t.pending == []
  {
    Tracker({}, [])
  }

  /** Some removal of `id` is queued in `p`. */
  ghost predicate Scheduled(p: seq<Removal>, id: string) {
    exists i :: 0 <= i < |p| && p[i].id == id
  }

  /** Some removal of `id` queued in `p` is due at or before `now`. */
  ghost predicate DueFor(p: seq<Removal>, id: string, now: int) {
    exists i :: 0 <= i < |p| && p[i].id == id && p[i].due <= now
  }

  /** Every online client still has a removal waiting for it. */
  ghost predicate Valid(t: Tracker) {
    forall id :: id in t.online ==> Scheduled(t.pending, id)
  }

  /** The identifier of a client: the forwarded-for header when it is present
      and non-empty (JavaScript's `||` treats "" as missing), otherwise the
      socket's remote address. */
  function ClientId(forwarded: Option<string>, socket: string): (id: string)
    ensures forwarded.Some? && forwarded.value != "" ==> id == forwarded.value
    ensures forwarded.None? || forwarded.value == "" ==> id == socket
  {
    if forwarded.Some? && forwarded.value != "" then forwarded.value else socket
  }

  /** A request from `id` at `now`: `id` joins the set (a no-op if already
      there) and one more removal of `id` is queued, due at `now + Window`. */
  function Touch(t: Tracker, id: string, now: int): (r: Tracker)
    ensures id in r.online
    ensures r.online == t.online + {id}
    ensures |r.online| == |t.online| + (if id in t.online then 0 else 1)
    ensures |r.pending| == |t.pending| + 1
    ensures r.pending[..|t.pending|] == t.pending
    ensures r.pending[|t.pending|] == Removal(id, now + Window)
    ensures Valid(t) ==> Valid(r)
  {
    var r := Tracker(t.online + {id}, t.pending + [Removal(id, now + Window)]);
    assert |r.online| == |t.online| + (if id in t.online then 0 else 1) by {
      if id in t.online {
        assert r.online == t.online;
      } else {
        assert t.online !! {id};
      }
    }
    assert Scheduled(r.pending, id) by {
      assert r.pending[|t.pending|].id == id;
    }
    assert Valid(t) ==> Valid(r) by {
      if Valid(t) {
        forall x | x in r.online
          ensures Scheduled(r.pending, x)
        {
          if x != id {
            var i :| 0 <= i < |t.pending| && t.pending[i].id == x;
            assert r.pending[i] == t.pending[i];
          }
        }
      }
    }
    r
  }

  /** Number of distinct clients currently online. */
  function OnlineCount(t: Tracker): (n: nat)
    ensures n == |t.online|
    ensures n == 0 <==> t.online == {}
  {
    |t.online|
  }

  /** The clients left in `online` once every removal in `p` due at or before
      `now` has run. */
  function Expire(online: set<string>, p: seq<Removal>, now: int): (r: set<string>)
    decreases |p|
    ensures forall id :: id in r <==> id in online && !DueFor(p, id, now)
  {
    if |p| == 0 then online
    else
      var rest := Expire(online, p[1..], now);
      assert forall id :: DueFor(p[1..], id, now) ==> DueFor(p, id, now) by {
        forall id | DueFor(p[1..], id, now)
          ensures DueFor(p, id, now)
        {
          var i :| 0 <= i < |p[1..]| && p[1..][i].id == id && p[1..][i].due <= now;
          assert p[i + 1] == p[1..][i];
        }
      }
      assert forall id :: DueFor(p, id, now) && id != p[0].id ==> DueFor(p[1..], id, now) by {
        forall id | DueFor(p, id, now) && id != p[0].id
          ensures DueFor(p[1..], id, now)
        {
          var i :| 0 <= i < |p| && p[i].id == id && p[i].due <= now;
          assert p[1..][i - 1] == p[i];
        }
      }
      if p[0].due <= now then rest - {p[0].id} else rest
  }

  /** The removals of `p` not yet due at `now`. */
  function Waiting(p: seq<Removal>, now: int): (r: seq<Removal>)
    decreases |p|
    ensures |r| <= |p|
    ensures forall x :: x in r <==> x in p && x.due > now
  {
    if |p| == 0 then []
    else
      var rest := Waiting(p[1..], now);
      assert forall x :: x in p <==> x == p[0] || x in p[1..];
      if p[0].due > now then [p[0]] + rest else rest
  }

  /** The timers at instant `now`: every queued removal that has fallen due
      deletes its client, unconditionally, and leaves the queue. */
  function Fire(t: Tracker, now: int): (r: Tracker)
    ensures forall id :: id in r.online <==> id in t.online && !DueFor(t.pending, id, now)
    ensures forall x :: x in r.pending <==> x in t.pending && x.due > now
    ensures Valid(t) ==> Valid(r)
  {
    var r := Tracker(Expire(t.online, t.pending, now), Waiting(t.pending, now));
    assert Valid(t) ==> Valid(r) by {
      if Valid(t) {
        forall id | id in r.online
          ensures Scheduled(r.pending, id)
        {
          var i :| 0 <= i < |t.pending| && t.pending[i].id == id;
          assert t.pending[i].due > now;
          assert t.pending[i] in r.pending;
          var j :| 0 <= j < |r.pending| && r.pending[j] == t.pending[i];
        }
      }
    }
    r
  }

  /** Once every queued removal is due, firing empties the set: nobody stays
      online past the removals scheduled for them. */
  lemma AllDueEmpties(t: Tracker, now: int)
    requires Valid(t)
    requires forall i :: 0 <= i < |t.pending| ==> t.pending[i].due <= now
    ensures Fire(t, now).online == {}
  {
  }

  /** The early eviction: a client seen at `t0` and again one minute later is
      gone when the first removal fires at `t0 + Window`, although the second
      request's removal, due at `t0 + 60000 + Window`, is still waiting. */
  lemma EarlyEviction(t: Tracker, id: string, t0: int)
    ensures var r := Fire(Touch(Touch(t, id, t0), id, t0 + 60000), t0 + Window);
            && id !in r.online
            && Removal(id, t0 + 60000 + Window) in r.pending
  {
  }
}
