/** Where a stream starts, told by the rows themselves: what a cursor names, or what its first read saw. */
module StreamStart {
  import opened Common
  import opened ResumeId
  import opened Stream

  /** Sequence numbers count from 1. */
  predicate FromOne(log: seq<Row>) {
    forall i :: 0 <= i < |log| ==> log[i].seqNo > 0
  }

  /** The rows that a read of the first `n` did not see. */
  function Unseen(log: seq<Row>, n: nat): seq<Row> {
    if n <= |log| then log[n..] else []
  }

  /** The listed rows after `after` that make a frame, in order. */
  function Due(log: seq<Row>, after: nat): seq<nat> {
    if log == [] then []
    else
      var last := log[|log| - 1];
      Due(log[..|log| - 1], after) + if last.listed && last.framed && last.seqNo > after then [last.seqNo] else []
  }

  lemma {:induction false} BeyondIsDue(log: seq<Row>, after: nat)
    ensures Framed(Beyond(log, after)) == Due(log, after)
  {
    if log != [] {
      BeyondIsDue(log[..|log| - 1], after);
      FramedBeyond(log, after);
    }
  }

  lemma {:induction false} DueConcat(a: seq<Row>, b: seq<Row>, after: nat)
    ensures Due(a + b, after) == Due(a, after) + Due(b, after)
  {
    if b == [] {
      assert a + b == a;
    } else {
      var front, last := b[..|b| - 1], b[|b| - 1];
      assert (a + b)[..|a + b| - 1] == a + front && (a + b)[|a + b| - 1] == last;
      DueConcat(a, front, after);
      Regroup(Due(a, after), Due(front, after),
              if last.listed && last.framed && last.seqNo > after then [last.seqNo] else []);
    }
  }

  lemma {:induction false} AllDue(rows: seq<Row>, after: nat)
    requires forall i :: 0 <= i < |rows| ==> rows[i].seqNo > after
    ensures Due(rows, after) == Due(rows, 0)
  {
    if rows != [] {
      AllDue(rows[..|rows| - 1], after);
    }
  }

  lemma {:induction false} NothingDue(log: seq<Row>, after: nat)
    requires forall i :: 0 <= i < |log| ==> log[i].seqNo <= after
    ensures Due(log, after) == []
  {
    if log != [] {
      NothingDue(log[..|log| - 1], after);
    }
  }

  lemma UnseenIsDue(seen: seq<Row>, unseen: seq<Row>, after: nat)
    requires forall i :: 0 <= i < |seen| ==> seen[i].seqNo <= after
    requires forall i :: 0 <= i < |unseen| ==> unseen[i].seqNo > after
    ensures Due(seen + unseen, after) == Due(unseen, 0)
  {
    DueConcat(seen, unseen, after);
    NothingDue(seen, after);
    AllDue(unseen, after);
    assert [] + Due(unseen, 0) == Due(unseen, 0);
  }

  lemma UnseenAreAfter(log: seq<Row>, n: nat, i: nat)
    requires Ascending(log) && FromOne(log) && i < |Unseen(log, n)|
    ensures Unseen(log, n)[i].seqNo > MaxSeq(Seen(log, n))
  {
    MaxIsLast(log[..n]);
    assert n > 0 ==> log[n - 1].seqNo < log[n + i].seqNo;
  }

  lemma DueIfUnseen(log: seq<Row>, n: nat)
    requires Ascending(log) && FromOne(log)
    ensures Due(log, MaxSeq(Seen(log, n))) == Due(Unseen(log, n), 0)
  {
    MaxIsLast(Seen(log, n));
    forall i: nat | i < |Unseen(log, n)| ensures Unseen(log, n)[i].seqNo > MaxSeq(Seen(log, n)) {
      UnseenAreAfter(log, n, i);
    }
    UnseenIsDue(Seen(log, n), Unseen(log, n), MaxSeq(Seen(log, n)));
    SeenAndUnseen(log, n);
  }

  lemma SeenAndUnseen(log: seq<Row>, n: nat)
    ensures Seen(log, n) + Unseen(log, n) == log
  {
  }

  /** What is due to a client that sends `position`, or to one that sends none and whose first read sees `n` rows. */
  function DueFrom(log: seq<Row>, position: Option<nat>, n: nat): seq<nat> {
    if position.Some? then Due(log, position.value) else Due(Unseen(log, n), 0)
  }

  /**
   A stream that keeps polling delivers, of either log, the listed rows after the position its cursor names, and
   if it names none, those that its first read did not see: each once, and in order.
   */
  lemma DeliversWhatIsDue(logs: Logs, resume: Cursor, limit: nat, v0: View, views: seq<View>, n: nat)
    requires Valid(logs) && FromOne(logs.activity) && FromOne(logs.inbox) && limit > 0
    requires EndsWithFullViews(logs, views, n) && n >= |logs.activity| && n >= |logs.inbox|
    ensures var sent := Run(logs, resume, limit, v0, views).sent;
      && Items(sent, Activity) == DueFrom(logs.activity, resume.activitySeq, v0.activity)
      && Items(sent, Message) == DueFrom(logs.inbox, resume.inboxSeq, v0.inbox)
  {
    DeliversEverythingOnce(logs, resume, limit, v0, views, n);
    BeyondIsDue(logs.activity, StartActivity(logs, v0, resume));
    BeyondIsDue(logs.inbox, StartInbox(logs, v0, resume));
    DueIfUnseen(logs.activity, v0.activity);
    DueIfUnseen(logs.inbox, v0.inbox);
  }

  lemma {:induction false} ExpectedAreAfter(log: seq<Row>, from: nat, to: nat, item: nat)
    requires item in Expected(log, from, to)
    ensures item > from
  {
    if item in Expected(log[..|log| - 1], from, to) {
      ExpectedAreAfter(log[..|log| - 1], from, to, item);
    }
  }

  lemma SeenAreBefore(log: seq<Row>, n: nat, to: nat, row: Row)
    requires Ascending(log) && row in Seen(log, n)
    ensures row.seqNo !in Expected(log, MaxSeq(Seen(log, n)), to)
  {
    MaxIsLast(Seen(log, n));
    if row.seqNo in Expected(log, MaxSeq(Seen(log, n)), to) {
      ExpectedAreAfter(log, MaxSeq(Seen(log, n)), to, row.seqNo);
    }
  }

  /** At no time does a stream opened without a position send a row that its first read saw. */
  lemma NothingSeenIsSent(logs: Logs, resume: Cursor, limit: nat, v0: View, views: seq<View>, row: Row)
    requires Valid(logs)
    ensures var sent := Run(logs, resume, limit, v0, views).sent;
      && (resume.activitySeq.None? && row in Seen(logs.activity, v0.activity) ==> row.seqNo !in Items(sent, Activity))
      && (resume.inboxSeq.None? && row in Seen(logs.inbox, v0.inbox) ==> row.seqNo !in Items(sent, Message))
  {
    var s := Run(logs, resume, limit, v0, views);
    RunIsExact(logs, resume, limit, v0, views);
    if resume.activitySeq.None? && row in Seen(logs.activity, v0.activity) {
      SeenAreBefore(logs.activity, v0.activity, s.activitySeq, row);
    }
    if resume.inboxSeq.None? && row in Seen(logs.inbox, v0.inbox) {
      SeenAreBefore(logs.inbox, v0.inbox, s.inboxSeq, row);
    }
  }

  // ---- The ready frame --------------------------------------------------------------------------------

  lemma {:induction false} ActivityIsNotReady(s: Session, page: seq<Row>, inboxId: nat)
    ensures Items(SendActivity(s, page, inboxId).sent, Ready) == Items(s.sent, Ready)
    ensures |SendActivity(s, page, inboxId).sent| == |s.sent| + |page|
  {
    if page != [] {
      var front, row := page[..|page| - 1], page[|page| - 1];
      ActivityIsNotReady(s, front, inboxId);
      ItemsAppend(SendActivity(s, front, inboxId).sent, Frame(Activity, row.seqNo, row.seqNo, inboxId), Ready);
    }
  }

  lemma {:induction false} MessagesAreNotReady(s: Session, page: seq<Row>)
    ensures Items(SendMessages(s, page).sent, Ready) == Items(s.sent, Ready)
    ensures |SendMessages(s, page).sent| <= |s.sent| + |page|
  {
    if page != [] {
      var before, row := SendMessages(s, page[..|page| - 1]), page[|page| - 1];
      MessagesAreNotReady(s, page[..|page| - 1]);
      ItemsAppend(before.sent, Frame(Message, row.seqNo, before.activitySeq, row.seqNo), Ready);
    }
  }

  lemma ReadIsNotReady(s: Session, page: seq<Row>)
    ensures Items(ReadInbox(s, page).sent, Ready) == Items(s.sent, Ready)
    ensures |ReadInbox(s, page).sent| <= |s.sent| + |page|
  {
    MessagesAreNotReady(s.(inboxSeq := HighWaterMark(page, s.inboxSeq)), page);
  }

  lemma ReadyIsReady(s: Session)
    requires Items(s.sent, Ready) == []
    ensures Items(SendReady(s).sent, Ready) == [0] && |SendReady(s).sent| == |s.sent| + 1
  {
    ItemsAppend(s.sent, Frame(Ready, 0, s.activitySeq, s.inboxSeq), Ready);
  }

  lemma SeedIsNotReady(logs: Logs, resume: Cursor, limit: nat, v0: View)
    ensures Items(Seeded(logs, v0, resume, limit).sent, Ready) == []
    ensures |Seeded(logs, v0, resume, limit).sent| <= limit
  {
    var start := Session(StartActivity(logs, v0, resume), StartInbox(logs, v0, resume), []);
    ActivityIsNotReady(start, SeedActivityPage(logs, v0, resume, limit), OrZero(resume.inboxSeq));
    SeedPagesAreShort(logs, resume, limit, v0);
  }

  lemma SeedPagesAreShort(logs: Logs, resume: Cursor, limit: nat, v0: View)
    ensures |SeedActivityPage(logs, v0, resume, limit)| <= limit && |SeedInboxPage(logs, v0, resume, limit)| <= limit
  {
  }

  /** Before a stream is ready it writes no more than a page of each log. */
  lemma ReadyAtOpen(logs: Logs, resume: Cursor, limit: nat, v0: View)
    ensures Items(Open(logs, v0, resume, limit).sent, Ready) == [0]
    ensures |Open(logs, v0, resume, limit).sent| <= limit + limit + 1
  {
    var seeded, page := Seeded(logs, v0, resume, limit), SeedInboxPage(logs, v0, resume, limit);
    SeedIsNotReady(logs, resume, limit, v0);
    SeedPagesAreShort(logs, resume, limit, v0);
    ReadIsNotReady(seeded, page);
    ReadyIsReady(ReadInbox(seeded, page));
  }

  /** Nor does it in a turn. */
  lemma PollIsNotReady(logs: Logs, v: View, s: Session, limit: nat)
    ensures Items(Poll(logs, v, s, limit).sent, Ready) == Items(s.sent, Ready)
    ensures |Poll(logs, v, s, limit).sent| <= |s.sent| + limit + limit
  {
    var page := PollActivityPage(logs, v, s, limit);
    var t := SendActivity(s, page, s.inboxSeq);
    ActivityIsNotReady(s, page, s.inboxSeq);
    ReadIsNotReady(t, Page(Seen(logs.inbox, v.inbox), t.inboxSeq, limit));
  }

  /** From `n` on, frames are of `kind`. */
  ghost predicate AllOf(sent: seq<Frame>, n: nat, kind: Kind) {
    forall k :: n <= k < |sent| ==> sent[k].kind == kind
  }

  lemma {:induction false} ActivityIsActivity(s: Session, page: seq<Row>, inboxId: nat)
    ensures var t := SendActivity(s, page, inboxId); s.sent <= t.sent && AllOf(t.sent, |s.sent|, Activity)
  {
    if page != [] {
      ActivityIsActivity(s, page[..|page| - 1], inboxId);
    }
  }

  lemma {:induction false} MessagesAreMessages(s: Session, page: seq<Row>)
    ensures var t := SendMessages(s, page); s.sent <= t.sent && AllOf(t.sent, |s.sent|, Message)
  {
    if page != [] {
      MessagesAreMessages(s, page[..|page| - 1]);
    }
  }

  /** A turn writes activity first, all under the inbox position before it, and then messages. */
  lemma ActivityComesFirst(logs: Logs, v: View, s: Session, limit: nat) returns (n: nat)
    ensures var t := Poll(logs, v, s, limit);
      && |s.sent| <= n <= |t.sent| && s.sent <= t.sent && AllOf(t.sent, n, Message)
      && forall k :: |s.sent| <= k < n ==> t.sent[k].kind == Activity
  {
    var page := PollActivityPage(logs, v, s, limit);
    var t := SendActivity(s, page, s.inboxSeq);
    ActivityIsActivity(s, page, s.inboxSeq);
    var inbox := Page(Seen(logs.inbox, v.inbox), t.inboxSeq, limit);
    MessagesAreMessages(t.(inboxSeq := HighWaterMark(inbox, t.inboxSeq)), inbox);
    n := |t.sent|;
  }

  /** The last thing before the polling is the ready frame, under the positions the stream has reached. */
  lemma ReadyComesLast(logs: Logs, resume: Cursor, limit: nat, v0: View)
    ensures var s := Open(logs, v0, resume, limit);
      s.sent != [] && s.sent[|s.sent| - 1] == Frame(Ready, 0, s.activitySeq, s.inboxSeq)
  {
  }

  /** A stream says exactly once that it is ready. */
  lemma {:induction false} ReadyOnce(logs: Logs, resume: Cursor, limit: nat, v0: View, views: seq<View>)
    ensures Items(Run(logs, resume, limit, v0, views).sent, Ready) == [0]
  {
    if views == [] {
      ReadyAtOpen(logs, resume, limit, v0);
    } else {
      ReadyOnce(logs, resume, limit, v0, views[..|views| - 1]);
      PollIsNotReady(logs, views[|views| - 1], Run(logs, resume, limit, v0, views[..|views| - 1]), limit);
    }
  }
}
