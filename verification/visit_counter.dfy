/**
 The visit counter: a mapping from request path to the number of requests
 seen for it. Paths are created lazily on first visit and never removed.
 Besides the mapping the model keeps the order in which paths were first
 seen, which is the key order a JavaScript object reports for string keys.
 */
module VisitCounter {

  datatype Counter = Counter(counts: map<string, nat>, order: seq<string>)

  /** No path occurs twice in `s`. */
  predicate NoDup(s: seq<string>) {
    forall i, j :: 0 <= i < j < |s| ==> s[i] != s[j]
  }

  /** `order` enumerates the keys of `counts` exactly once, and every
      present path has been visited at least once. */
  ghost predicate Valid(c: Counter) {
    && NoDup(c.order)
    && (forall p :: p in c.counts <==> p in c.order)
    && (forall p :: p in c.counts ==> c.counts[p] >= 1)
  }

  /** The empty counter the process starts with. */
  function Empty(): (c: Counter)
    ensures Valid(c)
    ensures forall p :: p !in c.counts
  {
    Counter(map[], [])
  }

  /** The count stored for `p`, with an absent path reading as 0. */
  function CountOf(m: map<string, nat>, p: string): (n: nat)
    ensures p in m ==> n == m[p]
    ensures p !in m ==> n == 0
  {
    if p in m then m[p] else 0
  }

  /** Visits recorded for `p`; 0 for a path never seen. */
  function VisitsFor(c: Counter, p: string): (n: nat)
    ensures p in c.counts ==> n == c.counts[p]
    ensures p !in c.counts ==> n == 0
  {
    CountOf(c.counts, p)
  }

  /** Sum of the counts of the paths listed in `keys`. */
  function Sum(keys: seq<string>, m: map<string, nat>): nat
  {
    if |keys| == 0 then 0
    else Sum(keys[..|keys| - 1], m) + CountOf(m, keys[|keys| - 1])
  }

  /** Total visits: the sum over every counted path. No listed path's count
      exceeds it, and when every listed path was visited at least once it is
      at least the number of paths. */
  function Total(c: Counter): (n: nat)
    ensures forall p :: p in c.order ==> VisitsFor(c, p) <= n
    ensures (forall i :: 0 <= i < |c.order| ==> VisitsFor(c, c.order[i]) >= 1) ==> n >= |c.order|
  {
    assert forall p :: p in c.order ==> CountOf(c.counts, p) <= Sum(c.order, c.counts) by {
      forall p | p in c.order
        ensures CountOf(c.counts, p) <= Sum(c.order, c.counts)
      {
        CountBelowSum(c.order, c.counts, p);
      }
    }
    SumAtLeastLength(c.order, c.counts);
    Sum(c.order, c.counts)
  }

  /** A sum over paths each counted at least once is at least their number. */
  lemma {:induction false} SumAtLeastLength(keys: seq<string>, m: map<string, nat>)
    ensures (forall i :: 0 <= i < |keys| ==> CountOf(m, keys[i]) >= 1) ==> Sum(keys, m) >= |keys|
  {
    if |keys| > 0 {
      var init := keys[..|keys| - 1];
      SumAtLeastLength(init, m);
      if forall i :: 0 <= i < |keys| ==> CountOf(m, keys[i]) >= 1 {
        assert forall i :: 0 <= i < |init| ==> init[i] == keys[i];
      }
    }
  }

  /** One request for path `p`: its entry goes up by one (created at 1 when
      absent), and a new path joins the end of the first-seen order. */
  function Record(c: Counter, p: string): (r: Counter)
    ensures r.counts.Keys == c.counts.Keys + {p}
    ensures VisitsFor(r, p) == VisitsFor(c, p) + 1
    ensures forall q :: q != p ==> VisitsFor(r, q) == VisitsFor(c, q)
    ensures p in c.counts ==> r.order == c.order
    ensures p !in c.counts ==> r.order == c.order + [p]
    ensures Valid(c) ==> Valid(r)
  {
    var r := Counter(c.counts[p := CountOf(c.counts, p) + 1],
                     if p in c.counts then c.order else c.order + [p]);
    assert Valid(c) ==> NoDup(r.order) by {
      if Valid(c) && p !in c.counts {
        assert p !in c.order;
      }
    }
    r
  }

  /** The path most recently added to the mapping (not the most recently
      visited one), or the empty string when no path exists. */
  function LastPath(c: Counter): (p: string)
    ensures |c.order| == 0 ==> p == ""
    ensures |c.order| > 0 ==> p == c.order[|c.order| - 1]
  {
    if |c.order| == 0 then "" else c.order[|c.order| - 1]
  }

  /** Changing the entry of a path not listed in `keys` leaves their sum alone. */
  lemma {:induction false} SumUpdateOutside(keys: seq<string>, m: map<string, nat>, p: string, v: nat)
    requires p !in keys
    ensures Sum(keys, m[p := v]) == Sum(keys, m)
  {
    if |keys| > 0 {
      SumUpdateOutside(keys[..|keys| - 1], m, p, v);
    }
  }

  /** Incrementing the entry of a path listed once in `keys` raises the sum by one. */
  lemma {:induction false} SumIncrement(keys: seq<string>, m: map<string, nat>, p: string)
    requires NoDup(keys)
    requires p in keys
    ensures Sum(keys, m[p := CountOf(m, p) + 1]) == Sum(keys, m) + 1
  {
    var init := keys[..|keys| - 1];
    var last := keys[|keys| - 1];
    assert NoDup(init);
    if last == p {
      assert p !in init;
      SumUpdateOutside(init, m, p, CountOf(m, p) + 1);
    } else {
      assert p in init by {
        var i :| 0 <= i < |keys| && keys[i] == p;
        assert i < |keys| - 1;
        assert init[i] == p;
      }
      SumIncrement(init, m, p);
    }
  }

  /** A listed path's count never exceeds the sum. */
  lemma {:induction false} CountBelowSum(keys: seq<string>, m: map<string, nat>, p: string)
    requires p in keys
    ensures CountOf(m, p) <= Sum(keys, m)
  {
    var init := keys[..|keys| - 1];
    if keys[|keys| - 1] != p {
      assert p in init by {
        var i :| 0 <= i < |keys| && keys[i] == p;
        assert init[i] == p;
      }
      CountBelowSum(init, m, p);
    }
  }

  /** Each request adds exactly one to the total. */
  lemma RecordTotal(c: Counter, p: string)
    requires Valid(c)
    ensures Total(Record(c, p)) == Total(c) + 1
  {
    var r := Record(c, p);
    if p in c.counts {
      SumIncrement(c.order, c.counts, p);
    } else {
      assert p !in c.order;
      SumUpdateOutside(c.order, c.counts, p, 1);
      assert r.order[..|r.order| - 1] == c.order;
    }
  }

  /** Any single path's count, and in particular that of "/", is bounded by the total. */
  lemma VisitsBelowTotal(c: Counter, p: string)
    requires Valid(c)
    ensures VisitsFor(c, p) <= Total(c)
  {
    if p in c.counts {
      CountBelowSum(c.order, c.counts, p);
    }
  }

  /** The "recent page" hint changes only when a path is seen for the first
      time; revisiting an old path leaves it pointing at the newest key. */
  lemma LastPathAfterRecord(c: Counter, p: string)
    ensures LastPath(Record(c, p)) == if p in c.counts then LastPath(c) else p
  {
  }
}
