/**
 The message store: the log of contact-form submissions, newest first.
 A submission becomes a record stamped with the submission instant (used
 both as its id and as its date) and a pending status, and is put at the
 head of the log. Records are never changed or deleted afterwards.
 */
module MessageStore {
  import opened Wrappers

  /** One week in milliseconds, the horizon of the weekly count. */
  const Week: int := 7 * 24 * 60 * 60 * 1000

  /** How many messages the dashboard lists. */
  const ListSize: nat := 10

  /** A form field as it arrives in the request body; it may be missing. */
  type Field = Option<string>

  /** The status tag of a message: a style and a label. */
  datatype Status = Status(kind: string, text: string)

  /** The status every new message starts with. */
  const Pending: Status := Status("warning", "Pendiente")

  /** The four fields a contact submission carries. */
  datatype Form = Form(name: Field, email: Field, subject: Field, message: Field)

  datatype Message = Message(
    id: int,
    name: Field,
    email: Field,
    subject: Field,
    message: Field,
    date: int,
    status: Status)

  /** The record built from `form` when it is submitted at instant `now`. */
  function NewMessage(form: Form, now: int): (m: Message)
    ensures m.id == now && m.date == now
    ensures m.name == form.name && m.email == form.email
    ensures m.subject == form.subject && m.message == form.message
    ensures m.status == Pending
  {
    Message(now, form.name, form.email, form.subject, form.message, now, Pending)
  }

  /** A submission at `now`: the new record goes to index 0 and every older
      message moves one place back, keeping its relative order. */
  function Submit(log: seq<Message>, form: Form, now: int): (r: seq<Message>)
    ensures |r| == |log| + 1
    ensures r[0] == NewMessage(form, now)
    ensures r[0].status == Pending
    ensures forall i :: 0 <= i < |log| ==> r[i + 1] == log[i]
  {
    [NewMessage(form, now)] + log
  }

  /** The messages of `log` dated strictly after `cutoff`, in log order. */
  function After(log: seq<Message>, cutoff: int): (r: seq<Message>)
    ensures |r| <= |log|
    ensures forall m :: m in r ==> m in log && m.date > cutoff
    ensures forall i :: 0 <= i < |log| && log[i].date > cutoff ==> log[i] in r
  {
    if |log| == 0 then []
    else if log[0].date > cutoff then [log[0]] + After(log[1..], cutoff)
    else After(log[1..], cutoff)
  }

  /** The positions of the log holding a message dated strictly after `cutoff`. */
  ghost function DatedAfter(log: seq<Message>, cutoff: int): set<int> {
    set i | 0 <= i < |log| && log[i].date > cutoff
  }

  /** Number of messages dated strictly after `cutoff`: one per such
      position of the log, duplicates included. */
  function CountSince(log: seq<Message>, cutoff: int): (n: nat)
    ensures n == |DatedAfter(log, cutoff)|
  {
    CountSinceIndices(log, cutoff);
    |After(log, cutoff)|
  }

  /** The messages received in the last seven days, as seen at `now`: those
      dated strictly after `now - Week`. */
  function Weekly(log: seq<Message>, now: int): (n: nat)
    ensures n == |DatedAfter(log, now - Week)|
    ensures n <= |log|
  {
    CountSince(log, now - Week)
  }

  /** The filter keeps exactly one message per position dated after `cutoff`. */
  lemma {:induction false} CountSinceIndices(log: seq<Message>, cutoff: int)
    ensures |After(log, cutoff)| == |DatedAfter(log, cutoff)|
  {
    if |log| > 0 {
      var n := |log| - 1;
      var init := log[..n];
      AfterSnoc(log, cutoff);
      CountSinceIndices(init, cutoff);
      DatedAfterSnoc(log, cutoff);
    }
  }

  /** Filtering a log counts the filtered prefix plus its last message when
      that one qualifies. */
  lemma AfterSnoc(log: seq<Message>, cutoff: int)
    requires |log| > 0
    ensures var n := |log| - 1;
            |After(log, cutoff)| == |After(log[..n], cutoff)| + (if log[n].date > cutoff then 1 else 0)
  {
    var n := |log| - 1;
    var last := [log[n]];
    AfterConcat(log[..n], last, cutoff);
    assert log[..n] + last == log;
    assert last[1..] == [];
  }

  /** Positions dated after `cutoff` in a log are those of all but its last
      message, plus the last position when that message qualifies. */
  lemma DatedAfterSnoc(log: seq<Message>, cutoff: int)
    requires |log| > 0
    ensures var n := |log| - 1;
            |DatedAfter(log, cutoff)| == |DatedAfter(log[..n], cutoff)| + (if log[n].date > cutoff then 1 else 0)
  {
    var n := |log| - 1;
    var known := DatedAfter(log[..n], cutoff);
    forall i ensures i in DatedAfter(log, cutoff) <==> i in known || (i == n && log[n].date > cutoff)
    {
      if 0 <= i < n {
        assert log[..n][i] == log[i];
      }
    }
    if log[n].date > cutoff {
      assert DatedAfter(log, cutoff) == known + {n};
      assert n !in known;
    } else {
      assert DatedAfter(log, cutoff) == known;
    }
  }

  /** The first `n` messages of the log, i.e. the `n` newest, or all of them
      when the log is shorter. */
  function Recent(log: seq<Message>, n: nat): (r: seq<Message>)
    ensures |r| == if n <= |log| then n else |log|
    ensures forall i :: 0 <= i < |r| ==> r[i] == log[i]
  {
    if n <= |log| then log[..n] else log
  }

  /** `older` is what `log` looked like before some submissions: its tail. */
  predicate IsTail(older: seq<Message>, log: seq<Message>) {
    |older| <= |log| && log[|log| - |older|..] == older
  }

  /** Messages are newest first: dates never increase along the log. */
  ghost predicate NewestFirst(log: seq<Message>) {
    forall i, j :: 0 <= i < j < |log| ==> log[i].date >= log[j].date
  }

  /** A submission keeps the earlier log as the tail of the new one. */
  lemma SubmitKeepsTail(log: seq<Message>, form: Form, now: int)
    ensures IsTail(log, Submit(log, form, now))
  {
    assert Submit(log, form, now)[1..] == log;
  }

  /** Being a tail is transitive. */
  lemma TailTrans(a: seq<Message>, b: seq<Message>, c: seq<Message>)
    requires IsTail(a, b) && IsTail(b, c)
    ensures IsTail(a, c)
  {
    assert c[|c| - |a|..] == c[|c| - |b|..][|b| - |a|..];
  }

  /** A submission no older than the newest message keeps the log newest first. */
  lemma SubmitKeepsNewestFirst(log: seq<Message>, form: Form, now: int)
    requires NewestFirst(log)
    requires |log| > 0 ==> log[0].date <= now
    ensures NewestFirst(Submit(log, form, now))
  {
    var r := Submit(log, form, now);
    forall i, j | 0 <= i < j < |r|
      ensures r[i].date >= r[j].date
    {
      assert r[j] == log[j - 1];
      if i > 0 {
        assert r[i] == log[i - 1];
      } else {
        assert log[0].date >= log[j - 1].date;
      }
    }
  }

  /** The filter keeps each message dated after `cutoff` exactly as many
      times as the log holds it, and no other message. */
  lemma {:induction false} AfterMultiset(log: seq<Message>, cutoff: int)
    ensures forall m :: multiset(After(log, cutoff))[m]
                        == if m.date > cutoff then multiset(log)[m] else 0
  {
    if |log| > 0 {
      AfterMultiset(log[1..], cutoff);
      assert log == [log[0]] + log[1..];
    }
  }

  /** Filtering distributes over concatenation. */
  lemma {:induction false} AfterConcat(a: seq<Message>, b: seq<Message>, cutoff: int)
    ensures After(a + b, cutoff) == After(a, cutoff) + After(b, cutoff)
  {
    if |a| == 0 {
      assert a + b == b;
    } else {
      assert (a + b)[0] == a[0];
      assert (a + b)[1..] == a[1..] + b;
      AfterConcat(a[1..], b, cutoff);
    }
  }

  /** The count is zero exactly when no message is dated after `cutoff`. */
  lemma {:induction false} CountSinceZeroIff(log: seq<Message>, cutoff: int)
    ensures CountSince(log, cutoff) == 0 <==>
            forall i :: 0 <= i < |log| ==> log[i].date <= cutoff
  {
    if |log| > 0 {
      CountSinceZeroIff(log[1..], cutoff);
      if log[0].date <= cutoff {
        assert forall i :: 1 <= i < |log| ==> log[i] == log[1..][i - 1];
      }
    }
  }

  /** The count is the whole log exactly when every message is dated after `cutoff`. */
  lemma {:induction false} CountSinceAllIff(log: seq<Message>, cutoff: int)
    ensures CountSince(log, cutoff) == |log| <==>
            forall i :: 0 <= i < |log| ==> log[i].date > cutoff
  {
    if |log| > 0 {
      CountSinceAllIff(log[1..], cutoff);
      assert forall i :: 1 <= i < |log| ==> log[i] == log[1..][i - 1];
    }
  }

  /** A message submitted at `now` always counts as this week's. */
  lemma WeeklyAfterSubmit(log: seq<Message>, form: Form, now: int)
    ensures Weekly(Submit(log, form, now), now) == Weekly(log, now) + 1
  {
  }

  /** The newest entries after a submission are the new record followed by
      the previous newest ones. */
  lemma RecentAfterSubmit(log: seq<Message>, form: Form, now: int, n: nat)
    ensures Recent(Submit(log, form, now), n + 1) == [NewMessage(form, now)] + Recent(log, n)
  {
  }

  /** After two submissions the newest message is the second one. */
  lemma NewestIsLatest(log: seq<Message>, f1: Form, t1: int, f2: Form, t2: int)
    ensures Recent(Submit(Submit(log, f1, t1), f2, t2), 1) == [NewMessage(f2, t2)]
  {
  }

  /** The id is the submission instant alone, so two submissions in the same
      millisecond get the same id. */
  lemma SameInstantSameId(log: seq<Message>, f1: Form, f2: Form, now: int)
    ensures var r := Submit(Submit(log, f1, now), f2, now);
            r[0].id == r[1].id
  {
  }
}
