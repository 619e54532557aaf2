/**
 The update stream of one member: a seed from the client's cursor, then polling. Club activity and the
 member's inbox are append-only logs in ascending sequence order. Every read of a log sees some prefix
 of it, each read its own. The member's scope, and with it which rows are listed, is fixed.
 */
module Stream {
  import opened Common
  import opened ResumeId

  /** `listed`: a query may return the row. `framed`: a returned row becomes a frame, as all do in the service. */
  datatype Row = Row(seqNo: nat, listed: bool, framed: bool)

  datatype Logs = Logs(activity: seq<Row>, inbox: seq<Row>)

  datatype View = View(activity: nat, inbox: nat)

  datatype Kind = Activity | Message | Ready

  datatype Frame = Frame(kind: Kind, item: nat, activitySeq: nat, inboxSeq: nat)

  datatype Session = Session(activitySeq: nat, inboxSeq: nat, sent: seq<Frame>)

  ghost predicate Ascending(log: seq<Row>) {
    forall i, j :: 0 <= i < j < |log| ==> log[i].seqNo < log[j].seqNo
  }

  ghost predicate Valid(logs: Logs) {
    Ascending(logs.activity) && Ascending(logs.inbox) && AllFramed(logs.activity)
  }

  ghost predicate AllFramed(log: seq<Row>) {
    forall i :: 0 <= i < |log| ==> log[i].framed
  }

  // ---- Queries ----------------------------------------------------------------------------------

  function Seen(log: seq<Row>, n: nat): seq<Row> {
    if n <= |log| then log[..n] else log
  }

  function MaxSeq(log: seq<Row>): nat {
    if log == [] then 0
    else
      var before, last := MaxSeq(log[..|log| - 1]), log[|log| - 1].seqNo;
      if before < last then last else before
  }

  function Beyond(log: seq<Row>, after: nat): seq<Row> {
    if log == [] then []
    else
      var last := log[|log| - 1];
      Beyond(log[..|log| - 1], after) + if last.listed && last.seqNo > after then [last] else []
  }

  function Page(log: seq<Row>, after: nat, limit: nat): seq<Row> {
    var rows := Beyond(log, after);
    if |rows| <= limit then rows else rows[..limit]
  }

  function HighWaterMark(page: seq<Row>, after: nat): nat {
    if page == [] then after else page[|page| - 1].seqNo
  }

  // ---- One session ------------------------------------------------------------------------------

  function SendActivity(s: Session, page: seq<Row>, inboxId: nat): Session {
    if page == [] then s
    else
      var before, row := SendActivity(s, page[..|page| - 1], inboxId), page[|page| - 1];
      Session(row.seqNo, before.inboxSeq, before.sent + [Frame(Activity, row.seqNo, row.seqNo, inboxId)])
  }

  function SendMessages(s: Session, page: seq<Row>): Session {
    if page == [] then s
    else
      var before, row := SendMessages(s, page[..|page| - 1]), page[|page| - 1];
      if !row.framed then before
      else
        Session(before.activitySeq, row.seqNo,
                before.sent + [Frame(Message, row.seqNo, before.activitySeq, row.seqNo)])
  }

  function ReadInbox(s: Session, page: seq<Row>): Session {
    SendMessages(s.(inboxSeq := HighWaterMark(page, s.inboxSeq)), page)
  }

  function StartActivity(logs: Logs, v: View, resume: Cursor): nat {
    if resume.activitySeq.Some? then resume.activitySeq.value else MaxSeq(Seen(logs.activity, v.activity))
  }

  function StartInbox(logs: Logs, v: View, resume: Cursor): nat {
    if resume.inboxSeq.Some? then resume.inboxSeq.value else MaxSeq(Seen(logs.inbox, v.inbox))
  }

  function SeedActivityPage(logs: Logs, v: View, resume: Cursor, limit: nat): seq<Row> {
    if resume.activitySeq.None? then [] else Page(Seen(logs.activity, v.activity), resume.activitySeq.value, limit)
  }

  function SeedInboxPage(logs: Logs, v: View, resume: Cursor, limit: nat): seq<Row> {
    if resume.inboxSeq.None? then [] else Page(Seen(logs.inbox, v.inbox), resume.inboxSeq.value, limit)
  }

  function SendReady(s: Session): Session {
    s.(sent := s.sent + [Frame(Ready, 0, s.activitySeq, s.inboxSeq)])
  }

  function Open(logs: Logs, v: View, resume: Cursor, limit: nat): Session {
    var start := Session(StartActivity(logs, v, resume), StartInbox(logs, v, resume), []);
    var seeded := SendActivity(start, SeedActivityPage(logs, v, resume, limit), OrZero(resume.inboxSeq));
    SendReady(ReadInbox(seeded, SeedInboxPage(logs, v, resume, limit)))
  }

  function Poll(logs: Logs, v: View, s: Session, limit: nat): Session {
    var t := SendActivity(s, Page(Seen(logs.activity, v.activity), s.activitySeq, limit), s.inboxSeq);
    ReadInbox(t, Page(Seen(logs.inbox, v.inbox), t.inboxSeq, limit))
  }

  function Run(logs: Logs, resume: Cursor, limit: nat, v0: View, views: seq<View>): Session {
    if views == [] then Open(logs, v0, resume, limit)
    else Poll(logs, views[|views| - 1], Run(logs, resume, limit, v0, views[..|views| - 1]), limit)
  }

  /** The last row seen is the furthest, and without one a stream starts at 0. */
  lemma {:induction false} MaxIsLast(log: seq<Row>)
    requires Ascending(log)
    ensures MaxSeq(log) == if log == [] then 0 else log[|log| - 1].seqNo
    ensures forall i :: 0 <= i < |log| ==> log[i].seqNo <= MaxSeq(log)
  {
    if log != [] {
      MaxIsLast(log[..|log| - 1]);
    }
  }

  /** A stream opened at "latest" first says that it is ready, and names the last rows its first read saw. */
  lemma LatestIsReadyAtOnce(logs: Logs, limit: nat, v0: View)
    requires Valid(logs)
    ensures var activity, inbox := Seen(logs.activity, v0.activity), Seen(logs.inbox, v0.inbox);
      Open(logs, v0, Cursor(None, None), limit).sent ==
        [Frame(Ready, 0, if activity == [] then 0 else activity[|activity| - 1].seqNo,
               if inbox == [] then 0 else inbox[|inbox| - 1].seqNo)]
  {
    MaxIsLast(Seen(logs.activity, v0.activity));
    MaxIsLast(Seen(logs.inbox, v0.inbox));
  }

  /** The stream handler's variables and what it has written. */
  class Handler {
    var activitySeq: nat
    var inboxSeq: nat
    var sent: seq<Frame>

    function State(): Session
      reads this
    {
      Session(activitySeq, inboxSeq, sent)
    }

    constructor (logs: Logs, v: View, resume: Cursor, limit: nat)
      ensures State() == Open(logs, v, resume, limit)
      // At "latest" nothing old is sent.
      ensures Valid(logs) && resume == Cursor(None, None) ==>
        var activity, inbox := Seen(logs.activity, v.activity), Seen(logs.inbox, v.inbox);
        sent == [Frame(Ready, 0, if activity == [] then 0 else activity[|activity| - 1].seqNo,
                       if inbox == [] then 0 else inbox[|inbox| - 1].seqNo)]
    {
      activitySeq, inboxSeq := StartActivity(logs, v, resume), StartInbox(logs, v, resume);
      sent := [];
      new;
      WriteActivity(SeedActivityPage(logs, v, resume, limit), OrZero(resume.inboxSeq));
      WriteMessages(SeedInboxPage(logs, v, resume, limit));
      sent := sent + [Frame(Ready, 0, activitySeq, inboxSeq)];
      if Valid(logs) {
        LatestIsReadyAtOnce(logs, limit, v);
      }
    }

    method WriteActivity(page: seq<Row>, inboxId: nat)
      modifies this
      ensures State() == SendActivity(old(State()), page, inboxId)
    {
      for k := 0 to |page|
        invariant State() == SendActivity(old(State()), page[..k], inboxId)
      {
        assert page[..k + 1][..k] == page[..k];
        activitySeq := page[k].seqNo;
        sent := sent + [Frame(Activity, page[k].seqNo, activitySeq, inboxId)];
      }
      assert page[..|page|] == page;
    }

    method WriteMessages(page: seq<Row>)
      modifies this
      ensures State() == ReadInbox(old(State()), page)
    {
      inboxSeq := HighWaterMark(page, inboxSeq);
      ghost var start := State();
      for k := 0 to |page|
        invariant State() == SendMessages(start, page[..k])
      {
        assert page[..k + 1][..k] == page[..k];
        if page[k].framed {
          inboxSeq := page[k].seqNo;
          sent := sent + [Frame(Message, page[k].seqNo, activitySeq, inboxSeq)];
        }
      }
      assert page[..|page|] == page;
    }

    /** One turn of the handler's loop. */
    method PollOnce(logs: Logs, v: View, limit: nat)
      modifies this
      ensures State() == Poll(logs, v, old(State()), limit)
    {
      WriteActivity(Page(Seen(logs.activity, v.activity), activitySeq, limit), inboxSeq);
      WriteMessages(Page(Seen(logs.inbox, v.inbox), inboxSeq, limit));
    }
  }

  // ---- What should be delivered ---------------------------------------------------------------------

  /** A row in (from, to] that is listed and makes a frame. */
  function ExpectedItem(row: Row, from: nat, to: nat): seq<nat> {
    if row.listed && row.framed && from < row.seqNo <= to then [row.seqNo] else []
  }

  /** The items of the log in (from, to] that are listed and make a frame. */
  function Expected(log: seq<Row>, from: nat, to: nat): seq<nat> {
    if log == [] then []
    else Expected(log[..|log| - 1], from, to) + ExpectedItem(log[|log| - 1], from, to)
  }

  function Framed(rows: seq<Row>): seq<nat> {
    if rows == [] then []
    else
      var last := rows[|rows| - 1];
      Framed(rows[..|rows| - 1]) + if last.framed then [last.seqNo] else []
  }

  /** The items among the frames of a kind. */
  function Items(sent: seq<Frame>, kind: Kind): seq<nat> {
    if sent == [] then []
    else
      var last := sent[|sent| - 1];
      Items(sent[..|sent| - 1], kind) + if last.kind == kind then [last.item] else []
  }

  lemma ItemsAppend(sent: seq<Frame>, f: Frame, kind: Kind)
    ensures Items(sent + [f], kind) == Items(sent, kind) + if f.kind == kind then [f.item] else []
  {
    assert (sent + [f])[..|sent|] == sent;
  }

  lemma Regroup(a: seq<nat>, b: seq<nat>, c: seq<nat>)
    ensures a + (b + c) == a + b + c
  {
  }

  lemma {:induction false} NothingExpected(log: seq<Row>, from: nat, to: nat)
    requires to <= from || (forall i :: 0 <= i < |log| ==> log[i].seqNo <= from)
    ensures Expected(log, from, to) == []
  {
    if log != [] {
      NothingExpected(log[..|log| - 1], from, to);
    }
  }

  lemma LastExpectedBelow(log: seq<Row>, from: nat, mid: nat, to: nat)
    requires Ascending(log) && log != [] && log[|log| - 1].seqNo <= mid <= to
    ensures Expected(log, mid, to) == [] && Expected(log[..|log| - 1], mid, to) == []
    ensures ExpectedItem(log[|log| - 1], from, to) == ExpectedItem(log[|log| - 1], from, mid)
  {
    NothingExpected(log, mid, to);
    NothingExpected(log[..|log| - 1], mid, to);
  }

  lemma LastExpectedAbove(log: seq<Row>, from: nat, mid: nat, to: nat)
    requires log != [] && from <= mid < log[|log| - 1].seqNo
    ensures Expected(log, from, mid) + Expected(log, mid, to)
      == Expected(log[..|log| - 1], from, mid) + Expected(log[..|log| - 1], mid, to)
           + ExpectedItem(log[|log| - 1], from, to)
  {
    var front, last := log[..|log| - 1], log[|log| - 1];
    assert Expected(log, from, mid) == Expected(front, from, mid);
    Regroup(Expected(front, from, mid), Expected(front, mid, to), ExpectedItem(last, from, to));
  }

  lemma {:induction false} ExpectedSplits(log: seq<Row>, from: nat, mid: nat, to: nat)
    requires Ascending(log) && from <= mid <= to
    ensures Expected(log, from, to) == Expected(log, from, mid) + Expected(log, mid, to)
  {
    if log != [] {
      ExpectedSplits(log[..|log| - 1], from, mid, to);
      if log[|log| - 1].seqNo <= mid {
        LastExpectedBelow(log, from, mid, to);
      } else {
        LastExpectedAbove(log, from, mid, to);
      }
    }
  }

  lemma {:induction false} BeyondRows(log: seq<Row>, after: nat)
    ensures forall i :: 0 <= i < |Beyond(log, after)| ==>
      && Beyond(log, after)[i] in log && Beyond(log, after)[i].seqNo > after
      && Beyond(log, after)[i].listed
  {
    if log != [] {
      BeyondRows(log[..|log| - 1], after);
    }
  }

  lemma {:induction false} BeyondSeen(log: seq<Row>, n: nat, after: nat)
    ensures Beyond(Seen(log, n), after) <= Beyond(log, after)
  {
    if n < |log| {
      var front := log[..|log| - 1];
      assert Seen(log, n) == Seen(front, n);
      BeyondSeen(front, n, after);
      assert Beyond(front, after) <= Beyond(log, after);
    } else {
      assert Seen(log, n) == log;
    }
  }

  /** A listed row beyond `after` that makes a frame. */
  function FramedItem(row: Row, after: nat): seq<nat> {
    if row.listed && row.framed && row.seqNo > after then [row.seqNo] else []
  }

  lemma FramedBeyond(log: seq<Row>, after: nat)
    requires log != []
    ensures var last := log[|log| - 1];
      Framed(Beyond(log, after)) == Framed(Beyond(log[..|log| - 1], after)) + FramedItem(last, after)
  {
    var rows, last := Beyond(log[..|log| - 1], after), log[|log| - 1];
    if last.listed && last.seqNo > after {
      FramedAppend(rows, last);
    } else {
      assert rows + [] == rows;
    }
  }

  lemma {:induction false} NoneBeyond(log: seq<Row>, after: nat)
    requires forall i :: 0 <= i < |log| ==> log[i].seqNo <= after
    ensures Beyond(log, after) == []
  {
    if log != [] {
      NoneBeyond(log[..|log| - 1], after);
    }
  }

  lemma LastBelow(log: seq<Row>, after: nat, mid: nat)
    requires Ascending(log) && log != [] && log[|log| - 1].seqNo <= mid
    ensures Expected(log, after, mid) + Framed(Beyond(log, mid))
      == Expected(log[..|log| - 1], after, mid) + FramedItem(log[|log| - 1], after)
    ensures Framed(Beyond(log[..|log| - 1], mid)) == []
  {
    NoneBeyond(log, mid);
    NoneBeyond(log[..|log| - 1], mid);
  }

  lemma LastAbove(log: seq<Row>, after: nat, mid: nat)
    requires log != [] && after <= mid < log[|log| - 1].seqNo
    ensures Expected(log, after, mid) + Framed(Beyond(log, mid))
      == Expected(log[..|log| - 1], after, mid) + Framed(Beyond(log[..|log| - 1], mid))
           + FramedItem(log[|log| - 1], after)
  {
    var front, last := log[..|log| - 1], log[|log| - 1];
    FramedBeyond(log, mid);
    assert Expected(log, after, mid) == Expected(front, after, mid);
    Regroup(Expected(front, after, mid), Framed(Beyond(front, mid)), FramedItem(last, after));
  }

  /** Everything beyond `after` is what is expected up to some bound and what is beyond that. */
  lemma {:induction false} BeyondSplits(log: seq<Row>, after: nat, mid: nat)
    requires Ascending(log) && after <= mid
    ensures Framed(Beyond(log, after)) == Expected(log, after, mid) + Framed(Beyond(log, mid))
  {
    if log != [] {
      BeyondSplits(log[..|log| - 1], after, mid);
      FramedBeyond(log, after);
      if log[|log| - 1].seqNo <= mid {
        LastBelow(log, after, mid);
      } else {
        LastAbove(log, after, mid);
      }
    }
  }

  lemma FramedAppend(rows: seq<Row>, row: Row)
    ensures Framed(rows + [row]) == Framed(rows) + if row.framed then [row.seqNo] else []
  {
    assert (rows + [row])[..|rows|] == rows;
  }

  lemma UpToLast(log: seq<Row>, after: nat)
    requires Ascending(log) && log != [] && after <= log[|log| - 1].seqNo
    ensures Expected(log, after, log[|log| - 1].seqNo) == Framed(Beyond(log, after))
  {
    var last := log[|log| - 1].seqNo;
    BeyondSplits(log, after, last);
    BeyondRows(log, last);
    assert Beyond(log, last) == [];
  }

  /** A page read from `after` and cut after any of its rows holds just what is expected up to that row. */
  lemma {:induction false} PageIsExpected(log: seq<Row>, after: nat, k: nat)
    requires Ascending(log) && k < |Beyond(log, after)|
    ensures Expected(log, after, Beyond(log, after)[k].seqNo) == Framed(Beyond(log, after)[..k + 1])
    ensures Beyond(log, after)[k].seqNo > after
  {
    var front, last := log[..|log| - 1], log[|log| - 1];
    var rows := Beyond(front, after);
    BeyondRows(log, after);
    if k < |rows| {
      PageIsExpected(front, after, k);
      BeyondRows(front, after);
      assert Beyond(log, after)[..k + 1] == rows[..k + 1];
      assert Expected(log, after, rows[k].seqNo) == Expected(front, after, rows[k].seqNo);
    } else {
      assert Beyond(log, after) == rows + [last];
      assert Beyond(log, after)[..k + 1] == Beyond(log, after);
      UpToLast(log, after);
    }
  }

  /** `seqNo` is that of a listed row. */
  ghost predicate OnRow(log: seq<Row>, seqNo: nat) {
    exists row :: row in log && row.listed && row.seqNo == seqNo
  }

  /** `page` is what a query for rows beyond `after` may return: the first of them, up to some limit and view. */
  predicate IsPage(log: seq<Row>, after: nat, page: seq<Row>) {
    page <= Beyond(log, after)
  }

  lemma PagesArePages(log: seq<Row>, n: nat, after: nat, limit: nat)
    ensures IsPage(log, after, Page(Seen(log, n), after, limit))
  {
    BeyondSeen(log, n, after);
  }

  lemma PageFront(log: seq<Row>, after: nat, page: seq<Row>)
    requires IsPage(log, after, page) && page != []
    ensures IsPage(log, after, page[..|page| - 1])
  {
  }

  /** A whole page holds just what is expected up to its last row. */
  lemma PageEndsWith(log: seq<Row>, after: nat, page: seq<Row>)
    requires Ascending(log) && IsPage(log, after, page) && page != []
    ensures var row := page[|page| - 1];
      && Expected(log, after, row.seqNo) == Framed(page)
      && row.seqNo > after && row in log && OnRow(log, row.seqNo)
  {
    BeyondRows(log, after);
    PageIsExpected(log, after, |page| - 1);
    assert page == Beyond(log, after)[..|page|];
  }

  /** What is due between a start and the last row of a page is what was before the page, and the page. */
  lemma PageDue(log: seq<Row>, from: nat, after: nat, page: seq<Row>)
    requires Ascending(log) && from <= after && IsPage(log, after, page) && page != []
    ensures Expected(log, from, page[|page| - 1].seqNo) == Expected(log, from, after) + Framed(page)
  {
    PageEndsWith(log, after, page);
    ExpectedSplits(log, from, after, page[|page| - 1].seqNo);
  }

  // ---- The invariant of a session -----------------------------------------------------------------------

  /** Where a session starts, and how many of its first frames name inbox position 0 whatever that is. */
  datatype Origin = Origin(activitySeq: nat, inboxSeq: nat, unplaced: nat)

  function OriginOf(logs: Logs, v: View, resume: Cursor, limit: nat): Origin {
    Origin(StartActivity(logs, v, resume), StartInbox(logs, v, resume),
           if resume.inboxSeq.None? then |SeedActivityPage(logs, v, resume, limit)| else 0)
  }

  ghost predicate Placed(o: Origin, k: nat, inboxId: nat) {
    if k < o.unplaced then inboxId == 0 else o.inboxSeq <= inboxId
  }

  /** The items sent are the expected ones between the start and the cursor. */
  ghost predicate UpTo(logs: Logs, o: Origin, sent: seq<Frame>, activitySeq: nat, inboxSeq: nat) {
    && o.activitySeq <= activitySeq
    && Items(sent, Activity) == Expected(logs.activity, o.activitySeq, activitySeq)
    && Items(sent, Message) == Expected(logs.inbox, o.inboxSeq, inboxSeq)
  }

  /** As far as frame `k` the items sent are those its id says. */
  ghost predicate FrameIsExact(logs: Logs, o: Origin, sent: seq<Frame>, k: nat)
    requires k < |sent|
  {
    && UpTo(logs, o, sent[..k + 1], sent[k].activitySeq, sent[k].inboxSeq)
    && Placed(o, k, sent[k].inboxSeq)
  }

  ghost predicate Exact(logs: Logs, o: Origin, s: Session) {
    && UpTo(logs, o, s.sent, s.activitySeq, s.inboxSeq)
    && o.inboxSeq <= s.inboxSeq
    && (forall k :: 0 <= k < |s.sent| ==> FrameIsExact(logs, o, s.sent, k))
  }

  lemma FramesAppend(logs: Logs, o: Origin, sent: seq<Frame>, f: Frame)
    requires forall k :: 0 <= k < |sent| ==> FrameIsExact(logs, o, sent, k)
    requires UpTo(logs, o, sent + [f], f.activitySeq, f.inboxSeq)
    requires Placed(o, |sent|, f.inboxSeq)
    ensures forall k :: 0 <= k < |sent + [f]| ==> FrameIsExact(logs, o, sent + [f], k)
  {
    forall k | 0 <= k < |sent + [f]| ensures FrameIsExact(logs, o, sent + [f], k) {
      if k < |sent| {
        assert FrameIsExact(logs, o, sent, k);
        assert (sent + [f])[..k + 1] == sent[..k + 1];
      } else {
        assert (sent + [f])[..k + 1] == sent + [f];
      }
    }
  }

  /** Sending an activity page, with ids that say what is true of the inbox. */
  lemma {:induction false} SendActivityKeeps(logs: Logs, o: Origin, s: Session, page: seq<Row>, inboxId: nat)
    requires Valid(logs) && Exact(logs, o, s) && IsPage(logs.activity, s.activitySeq, page)
    requires Expected(logs.inbox, o.inboxSeq, inboxId) == Expected(logs.inbox, o.inboxSeq, s.inboxSeq)
    requires forall j :: |s.sent| <= j < |s.sent| + |page| ==> Placed(o, j, inboxId)
    ensures var t := SendActivity(s, page, inboxId);
      && Exact(logs, o, t)
      && t.inboxSeq == s.inboxSeq && t.activitySeq == HighWaterMark(page, s.activitySeq)
      && s.sent <= t.sent && |t.sent| == |s.sent| + |page|
  {
    if page != [] {
      var front, row := page[..|page| - 1], page[|page| - 1];
      PageFront(logs.activity, s.activitySeq, page);
      SendActivityKeeps(logs, o, s, front, inboxId);
      ActivityDue(logs, o.activitySeq, s.activitySeq, page);
      ActivitySent(logs, o, SendActivity(s, front, inboxId), row, inboxId);
    }
  }

  /** One more activity row: what is due up to it is what was due up to the row before, and this one. */
  lemma ActivityDue(logs: Logs, from: nat, after: nat, page: seq<Row>)
    requires Valid(logs) && from <= after && IsPage(logs.activity, after, page) && page != []
    ensures var front, row := page[..|page| - 1], page[|page| - 1];
      && row.seqNo > after
      && Expected(logs.activity, from, row.seqNo)
           == Expected(logs.activity, from, HighWaterMark(front, after)) + [row.seqNo]
  {
    var front, row := page[..|page| - 1], page[|page| - 1];
    PageFront(logs.activity, after, page);
    PageEndsWith(logs.activity, after, page);
    PageDue(logs.activity, from, after, page);
    assert row.framed;
    Regroup(Expected(logs.activity, from, after), Framed(front), [row.seqNo]);
    if front != [] {
      PageDue(logs.activity, from, after, front);
    }
  }

  lemma ActivitySent(logs: Logs, o: Origin, t: Session, row: Row, inboxId: nat)
    requires Exact(logs, o, t) && o.activitySeq <= row.seqNo
    requires Expected(logs.activity, o.activitySeq, row.seqNo)
      == Expected(logs.activity, o.activitySeq, t.activitySeq) + [row.seqNo]
    requires Expected(logs.inbox, o.inboxSeq, inboxId) == Expected(logs.inbox, o.inboxSeq, t.inboxSeq)
    requires Placed(o, |t.sent|, inboxId)
    ensures Exact(logs, o, Session(row.seqNo, t.inboxSeq, t.sent + [Frame(Activity, row.seqNo, row.seqNo, inboxId)]))
  {
    var f := Frame(Activity, row.seqNo, row.seqNo, inboxId);
    ItemsAppend(t.sent, f, Activity);
    ItemsAppend(t.sent, f, Message);
    FramesAppend(logs, o, t.sent, f);
  }

  /** What sending rows of an inbox page has done to a session at `s`. */
  ghost predicate RowsSent(logs: Logs, o: Origin, s: Session, rows: seq<Row>, high: nat, t: Session) {
    && t.activitySeq == s.activitySeq
    && Items(t.sent, Activity) == Items(s.sent, Activity)
    && Items(t.sent, Message) == Items(s.sent, Message) + Framed(rows)
    && (forall j :: 0 <= j < |t.sent| ==> FrameIsExact(logs, o, t.sent, j))
    && t.inboxSeq == (if Framed(rows) == [] then high else LastOf(Framed(rows)))
    && s.sent <= t.sent
  }

  function LastOf(xs: seq<nat>): nat
    requires xs != []
  {
    xs[|xs| - 1]
  }

  lemma MessageSent(logs: Logs, o: Origin, s: Session, rows: seq<Row>, high: nat, t: Session, row: Row)
    requires UpTo(logs, o, s.sent, s.activitySeq, s.inboxSeq)
    requires RowsSent(logs, o, s, rows, high, t) && row.framed
    requires o.unplaced <= |s.sent| && o.inboxSeq <= row.seqNo
    requires Expected(logs.inbox, o.inboxSeq, row.seqNo) ==
      Expected(logs.inbox, o.inboxSeq, s.inboxSeq) + Framed(rows + [row])
    ensures RowsSent(logs, o, s, rows + [row], high,
                     Session(t.activitySeq, row.seqNo, t.sent + [Frame(Message, row.seqNo, t.activitySeq, row.seqNo)]))
  {
    var f := Frame(Message, row.seqNo, t.activitySeq, row.seqNo);
    ItemsAppend(t.sent, f, Activity);
    ItemsAppend(t.sent, f, Message);
    FramedAppend(rows, row);
    Regroup(Items(s.sent, Message), Framed(rows), [row.seqNo]);
    FramesAppend(logs, o, t.sent, f);
  }

  /** Sending an inbox page: the messages are its framed rows, and each one's id is exact. */
  lemma {:induction false} SendMessagesKeeps(logs: Logs, o: Origin, s: Session, page: seq<Row>, high: nat)
    requires Valid(logs) && Exact(logs, o, s) && o.unplaced <= |s.sent|
    requires IsPage(logs.inbox, s.inboxSeq, page)
    ensures RowsSent(logs, o, s, page, high, SendMessages(s.(inboxSeq := high), page))
  {
    if page != [] {
      var front, row := page[..|page| - 1], page[|page| - 1];
      PageFront(logs.inbox, s.inboxSeq, page);
      SendMessagesKeeps(logs, o, s, front, high);
      assert page == front + [row];
      if row.framed {
        PageEndsWith(logs.inbox, s.inboxSeq, page);
        PageDue(logs.inbox, o.inboxSeq, s.inboxSeq, page);
        MessageSent(logs, o, s, front, high, SendMessages(s.(inboxSeq := high), front), row);
      } else {
        FramedAppend(front, row);
      }
    }
  }

  /** The last framed row of a page bounds what the whole page is expected to give. */
  lemma {:induction false} LastFramed(log: seq<Row>, after: nat, page: seq<Row>)
    requires Ascending(log) && IsPage(log, after, page) && Framed(page) != []
    ensures LastOf(Framed(page)) > after && OnRow(log, LastOf(Framed(page)))
    ensures Expected(log, after, LastOf(Framed(page))) == Framed(page)
  {
    var front, row := page[..|page| - 1], page[|page| - 1];
    if row.framed {
      PageEndsWith(log, after, page);
    } else {
      PageFront(log, after, page);
      LastFramed(log, after, front);
    }
  }

  /** Where the cursor stands after a page: at its last framed row, or at its last row if none is framed. */
  function PageEnd(page: seq<Row>, after: nat): nat {
    if Framed(page) == [] then HighWaterMark(page, after) else LastOf(Framed(page))
  }

  lemma PageEndDue(log: seq<Row>, from: nat, after: nat, page: seq<Row>)
    requires Ascending(log) && from <= after && IsPage(log, after, page) && page != []
    ensures PageEnd(page, after) > after && OnRow(log, PageEnd(page, after))
    ensures Expected(log, from, PageEnd(page, after)) == Expected(log, from, after) + Framed(page)
  {
    if Framed(page) == [] {
      PageEndsWith(log, after, page);
    } else {
      LastFramed(log, after, page);
    }
    ExpectedSplits(log, from, after, PageEnd(page, after));
  }

  /** The cursor moves, and to a row, if there is a page, and only then. */
  ghost predicate Advanced(log: seq<Row>, page: seq<Row>, after: nat, further: nat) {
    if page == [] then further == after else after < further && OnRow(log, further)
  }

  lemma ReadInboxKeeps(logs: Logs, o: Origin, s: Session, page: seq<Row>)
    requires Valid(logs) && Exact(logs, o, s) && o.unplaced <= |s.sent|
    requires IsPage(logs.inbox, s.inboxSeq, page)
    ensures var t := ReadInbox(s, page);
      && Exact(logs, o, t)
      && t.activitySeq == s.activitySeq && s.sent <= t.sent
      && Advanced(logs.inbox, page, s.inboxSeq, t.inboxSeq)
  {
    SendMessagesKeeps(logs, o, s, page, HighWaterMark(page, s.inboxSeq));
    if page != [] {
      PageEndDue(logs.inbox, o.inboxSeq, s.inboxSeq, page);
    }
  }

  // ---- Whole sessions -------------------------------------------------------------------------------------

  function Seeded(logs: Logs, v: View, resume: Cursor, limit: nat): Session {
    SendActivity(Session(StartActivity(logs, v, resume), StartInbox(logs, v, resume), []),
                 SeedActivityPage(logs, v, resume, limit), OrZero(resume.inboxSeq))
  }

  lemma SeededIsExact(logs: Logs, v: View, resume: Cursor, limit: nat)
    requires Valid(logs)
    ensures var o, s := OriginOf(logs, v, resume, limit), Seeded(logs, v, resume, limit);
      Exact(logs, o, s) && o.unplaced <= |s.sent| && s.inboxSeq == o.inboxSeq
  {
    var o := OriginOf(logs, v, resume, limit);
    NothingExpected(logs.activity, o.activitySeq, o.activitySeq);
    NothingExpected(logs.inbox, o.inboxSeq, o.inboxSeq);
    NothingExpected(logs.inbox, o.inboxSeq, 0);
    if resume.activitySeq.Some? {
      var page := SeedActivityPage(logs, v, resume, limit);
      var start := Session(o.activitySeq, o.inboxSeq, []);
      PagesArePages(logs.activity, v.activity, o.activitySeq, limit);
      SendActivityKeeps(logs, o, start, page, OrZero(resume.inboxSeq));
    }
  }

  lemma ReadyKeeps(logs: Logs, o: Origin, s: Session)
    requires Exact(logs, o, s) && o.unplaced <= |s.sent|
    ensures Exact(logs, o, SendReady(s))
  {
    var f := Frame(Ready, 0, s.activitySeq, s.inboxSeq);
    ItemsAppend(s.sent, f, Activity);
    ItemsAppend(s.sent, f, Message);
    FramesAppend(logs, o, s.sent, f);
  }

  lemma OpenIsExact(logs: Logs, v: View, resume: Cursor, limit: nat)
    requires Valid(logs)
    ensures var o, s := OriginOf(logs, v, resume, limit), Open(logs, v, resume, limit);
      Exact(logs, o, s) && o.unplaced <= |s.sent|
  {
    var o, seeded := OriginOf(logs, v, resume, limit), Seeded(logs, v, resume, limit);
    SeededIsExact(logs, v, resume, limit);
    if resume.inboxSeq.Some? {
      PagesArePages(logs.inbox, v.inbox, o.inboxSeq, limit);
      ReadInboxKeeps(logs, o, seeded, SeedInboxPage(logs, v, resume, limit));
    }
    ReadyKeeps(logs, o, ReadInbox(seeded, SeedInboxPage(logs, v, resume, limit)));
  }

  function PollActivityPage(logs: Logs, v: View, s: Session, limit: nat): seq<Row> {
    Page(Seen(logs.activity, v.activity), s.activitySeq, limit)
  }

  function PollInboxPage(logs: Logs, v: View, s: Session, limit: nat): seq<Row> {
    Page(Seen(logs.inbox, v.inbox), s.inboxSeq, limit)
  }

  lemma PollKeeps(logs: Logs, o: Origin, s: Session, v: View, limit: nat)
    requires Valid(logs) && Exact(logs, o, s) && o.unplaced <= |s.sent|
    ensures var t := Poll(logs, v, s, limit);
      && Exact(logs, o, t) && s.sent <= t.sent
      && Advanced(logs.activity, PollActivityPage(logs, v, s, limit), s.activitySeq, t.activitySeq)
      && Advanced(logs.inbox, PollInboxPage(logs, v, s, limit), s.inboxSeq, t.inboxSeq)
  {
    var page := PollActivityPage(logs, v, s, limit);
    PagesArePages(logs.activity, v.activity, s.activitySeq, limit);
    PagesArePages(logs.inbox, v.inbox, s.inboxSeq, limit);
    SendActivityKeeps(logs, o, s, page, s.inboxSeq);
    if page != [] {
      PageEndsWith(logs.activity, s.activitySeq, page);
    }
    ReadInboxKeeps(logs, o, SendActivity(s, page, s.inboxSeq), PollInboxPage(logs, v, s, limit));
  }

  lemma {:induction false} RunIsExact(logs: Logs, resume: Cursor, limit: nat, v0: View, views: seq<View>)
    requires Valid(logs)
    ensures var o, s := OriginOf(logs, v0, resume, limit), Run(logs, resume, limit, v0, views);
      Exact(logs, o, s) && o.unplaced <= |s.sent|
  {
    if views == [] {
      OpenIsExact(logs, v0, resume, limit);
    } else {
      var before := views[..|views| - 1];
      RunIsExact(logs, resume, limit, v0, before);
      PollKeeps(logs, OriginOf(logs, v0, resume, limit), Run(logs, resume, limit, v0, before),
                views[|views| - 1], limit);
    }
  }

  // ---- Catching up ------------------------------------------------------------------------------------------

  predicate SeesAll(logs: Logs, v: View) {
    |logs.activity| <= v.activity && |logs.inbox| <= v.inbox
  }

  /** The last `n` polls saw the logs as they finally are. */
  predicate EndsWithFullViews(logs: Logs, views: seq<View>, n: nat) {
    n <= |views| && forall i :: |views| - n <= i < |views| ==> SeesAll(logs, views[i])
  }

  lemma {:induction false} BeyondShrinks(log: seq<Row>, after: nat, further: nat)
    requires after <= further
    ensures |Beyond(log, further)| <= |Beyond(log, after)|
    ensures after < further && OnRow(log, further) ==> |Beyond(log, further)| < |Beyond(log, after)|
  {
    if log != [] {
      var front, last := log[..|log| - 1], log[|log| - 1];
      BeyondShrinks(front, after, further);
      if after < further && OnRow(log, further) {
        var row :| row in log && row.listed && row.seqNo == further;
        assert row in front || row == last;
      }
    }
  }

  /** A read that sees everything leaves fewer rows unread, unless none were. */
  lemma CursorAdvances(log: seq<Row>, n: nat, limit: nat, after: nat, further: nat)
    requires n >= |log| && limit > 0
    requires Advanced(log, Page(Seen(log, n), after, limit), after, further)
    ensures |Beyond(log, further)| < |Beyond(log, after)| || Beyond(log, further) == []
  {
    assert Seen(log, n) == log;
    BeyondShrinks(log, after, further);
  }

  lemma {:induction false} CatchesUp(logs: Logs, resume: Cursor, limit: nat, v0: View, views: seq<View>, n: nat)
    requires Valid(logs) && limit > 0
    requires EndsWithFullViews(logs, views, n)
    ensures var s := Run(logs, resume, limit, v0, views);
      && |Beyond(logs.activity, s.activitySeq)| <= AtLeastZero(|logs.activity| - n)
      && |Beyond(logs.inbox, s.inboxSeq)| <= AtLeastZero(|logs.inbox| - n)
    decreases n
  {
    if n == 0 {
      var s := Run(logs, resume, limit, v0, views);
      BeyondLength(logs.activity, s.activitySeq);
      BeyondLength(logs.inbox, s.inboxSeq);
    } else {
      var before, v := views[..|views| - 1], views[|views| - 1];
      CatchesUp(logs, resume, limit, v0, before, n - 1);
      var s := Run(logs, resume, limit, v0, before);
      RunIsExact(logs, resume, limit, v0, before);
      PollKeeps(logs, OriginOf(logs, v0, resume, limit), s, v, limit);
      var t := Poll(logs, v, s, limit);
      CursorAdvances(logs.activity, v.activity, limit, s.activitySeq, t.activitySeq);
      CursorAdvances(logs.inbox, v.inbox, limit, s.inboxSeq, t.inboxSeq);
    }
  }

  lemma {:induction false} BeyondLength(log: seq<Row>, after: nat)
    ensures |Beyond(log, after)| <= |log|
  {
    if log != [] {
      BeyondLength(log[..|log| - 1], after);
    }
  }

  /**
   A stream that has made as many polls of the final logs as these have rows has delivered, of each
   kind and in order, exactly the listed rows beyond its start that make a frame.
   */
  lemma DeliversEverythingOnce(logs: Logs, resume: Cursor, limit: nat, v0: View, views: seq<View>, n: nat)
    requires Valid(logs) && limit > 0
    requires EndsWithFullViews(logs, views, n) && n >= |logs.activity| && n >= |logs.inbox|
    ensures var s := Run(logs, resume, limit, v0, views);
      && Items(s.sent, Activity) == Framed(Beyond(logs.activity, StartActivity(logs, v0, resume)))
      && Items(s.sent, Message) == Framed(Beyond(logs.inbox, StartInbox(logs, v0, resume)))
  {
    var s := Run(logs, resume, limit, v0, views);
    RunIsExact(logs, resume, limit, v0, views);
    CatchesUp(logs, resume, limit, v0, views, n);
    BeyondSplits(logs.activity, StartActivity(logs, v0, resume), s.activitySeq);
    BeyondSplits(logs.inbox, StartInbox(logs, v0, resume), s.inboxSeq);
  }

  // ---- Cutting and resuming ---------------------------------------------------------------------------------

  /** What the server makes of the id of a frame when the client sends it back. */
  function Resumed(f: Frame): Option<Cursor> {
    ParseStreamResumeId(Some(ComposeStreamResumeId(Some(f.activitySeq), Some(f.inboxSeq))), true, None)
  }

  predicate IsSafe(f: Frame) {
    f.activitySeq <= MAX_SAFE_INTEGER && f.inboxSeq <= MAX_SAFE_INTEGER
  }

  /**
   Cut a stream after any frame, resume it under that frame's id, with any page limits, and let it and an
   uncut stream catch up. The activity delivered is the same. The messages are those of the uncut stream,
   after those between the frame's inbox position and the start of the stream, if it lies behind it.
   */
  lemma CutAndResume(logs: Logs, resume: Cursor, limit: nat, v0: View, views: seq<View>, k: nat,
                     limit': nat, v0': View, views': seq<View>, uncut: seq<View>, n: nat)
    requires Valid(logs) && limit > 0 && limit' > 0
    requires n >= |logs.activity| && n >= |logs.inbox|
    requires EndsWithFullViews(logs, views', n) && EndsWithFullViews(logs, uncut, n)
    requires k < |Run(logs, resume, limit, v0, views).sent|
    requires IsSafe(Run(logs, resume, limit, v0, views).sent[k])
    ensures var cut := Run(logs, resume, limit, v0, views).sent[..k + 1];
      var f := cut[k];
      var i0 := StartInbox(logs, v0, resume);
      && Resumed(f) == Some(Cursor(Some(f.activitySeq), Some(f.inboxSeq)))
      && var rest := Run(logs, Resumed(f).value, limit', v0', views').sent;
      var whole := Run(logs, resume, limit, v0, uncut).sent;
      && Items(cut, Activity) + Items(rest, Activity) == Items(whole, Activity)
      && Items(cut, Message) + Items(rest, Message) == Expected(logs.inbox, f.inboxSeq, i0) + Items(whole, Message)
  {
    var s := Run(logs, resume, limit, v0, views);
    var f := s.sent[k];
    var o := OriginOf(logs, v0, resume, limit);
    RunIsExact(logs, resume, limit, v0, views);
    assert FrameIsExact(logs, o, s.sent, k);
    assert s.sent[..k + 1][k] == f;
    ParseAfterCompose(f.activitySeq, f.inboxSeq, true, None);
    DeliversEverythingOnce(logs, resume, limit, v0, uncut, n);
    DeliversEverythingOnce(logs, Resumed(f).value, limit', v0', views', n);
    BeyondSplits(logs.activity, o.activitySeq, f.activitySeq);
    BeyondSplitsAnyway(logs.inbox, o.inboxSeq, f.inboxSeq);
  }

  lemma BeyondSplitsAnyway(log: seq<Row>, start: nat, mid: nat)
    requires Ascending(log)
    ensures Expected(log, start, mid) + Framed(Beyond(log, mid))
      == Expected(log, mid, start) + Framed(Beyond(log, start))
  {
    if mid < start {
      NothingExpected(log, start, mid);
      BeyondSplits(log, mid, start);
    } else {
      NothingExpected(log, mid, start);
      BeyondSplits(log, start, mid);
    }
  }

  /**
   Nothing is lost or repeated if the stream was opened with a composite cursor or none. With an older cursor,
   which names no inbox position, that holds of every frame but the activity frames of the seed: their ids say
   inbox position 0, and resuming under one delivers the whole inbox up to where the stream started again.
   */
  lemma CutLosesNothing(logs: Logs, resume: Cursor, limit: nat, v0: View, views: seq<View>, k: nat,
                        limit': nat, v0': View, views': seq<View>, uncut: seq<View>, n: nat)
    requires Valid(logs) && limit > 0 && limit' > 0
    requires n >= |logs.activity| && n >= |logs.inbox|
    requires EndsWithFullViews(logs, views', n) && EndsWithFullViews(logs, uncut, n)
    requires k < |Run(logs, resume, limit, v0, views).sent|
    requires IsSafe(Run(logs, resume, limit, v0, views).sent[k])
    ensures var cut := Run(logs, resume, limit, v0, views).sent[..k + 1];
      var whole := Run(logs, resume, limit, v0, uncut).sent;
      var i0 := StartInbox(logs, v0, resume);
      && Resumed(cut[k]).Some?
      && var rest := Run(logs, Resumed(cut[k]).value, limit', v0', views').sent;
      && Items(cut, Activity) + Items(rest, Activity) == Items(whole, Activity)
      && (resume.inboxSeq.Some? || resume.activitySeq.None? || k >= |SeedActivityPage(logs, v0, resume, limit)| ==>
            Items(cut, Message) + Items(rest, Message) == Items(whole, Message))
      && (resume.inboxSeq.None? && k < |SeedActivityPage(logs, v0, resume, limit)| ==>
            Items(cut, Message) + Items(rest, Message) == Expected(logs.inbox, 0, i0) + Items(whole, Message))
  {
    CutAndResume(logs, resume, limit, v0, views, k, limit', v0', views', uncut, n);
    RunIsExact(logs, resume, limit, v0, views);
    var s := Run(logs, resume, limit, v0, views);
    var f := s.sent[k];
    var o := OriginOf(logs, v0, resume, limit);
    assert FrameIsExact(logs, o, s.sent, k);
    if k >= o.unplaced {
      NothingExpected(logs.inbox, f.inboxSeq, o.inboxSeq);
    }
  }

  // ---- Any number of cuts ---------------------------------------------------------------------------------

  /** The page limit of a connection and what its reads saw. */
  datatype Connection = Connection(limit: nat, v0: View, views: seq<View>)

  /** A connection that was cut after frame `k`. */
  datatype Cut = Cut(connection: Connection, k: nat)

  function Sent(logs: Logs, resume: Cursor, c: Connection): seq<Frame> {
    Run(logs, resume, c.limit, c.v0, c.views).sent
  }

  predicate CanCut(logs: Logs, resume: Cursor, cut: Cut) {
    cut.k < |Sent(logs, resume, cut.connection)| && IsSafe(Sent(logs, resume, cut.connection)[cut.k])
  }

  /** The cursor of the connection that follows a cut. */
  function ResumedAfter(logs: Logs, resume: Cursor, cut: Cut): Cursor
    requires CanCut(logs, resume, cut)
  {
    var f := Sent(logs, resume, cut.connection)[cut.k];
    ParseAfterCompose(f.activitySeq, f.inboxSeq, true, None);
    Resumed(f).value
  }

  /** Each connection is resumed under the id of the last frame of the one before. */
  predicate CanCutAll(logs: Logs, resume: Cursor, cuts: seq<Cut>)
    decreases |cuts|
  {
    cuts == []
    || (CanCut(logs, resume, cuts[0]) && CanCutAll(logs, ResumedAfter(logs, resume, cuts[0]), cuts[1..]))
  }

  /** What the client gets from all the cut connections and the last one. */
  function Received(logs: Logs, resume: Cursor, cuts: seq<Cut>, last: Connection): seq<Frame>
    requires CanCutAll(logs, resume, cuts)
    decreases |cuts|
  {
    if cuts == [] then Sent(logs, resume, last)
    else
      Sent(logs, resume, cuts[0].connection)[..cuts[0].k + 1]
      + Received(logs, ResumedAfter(logs, resume, cuts[0]), cuts[1..], last)
  }

  function FirstView(cuts: seq<Cut>, last: Connection): View {
    if cuts == [] then last.v0 else cuts[0].connection.v0
  }

  /** The messages sent again: those up to the start if an older cursor's stream is first cut in its seed activity. */
  function Replayed(logs: Logs, resume: Cursor, cuts: seq<Cut>): seq<nat> {
    if cuts == [] || resume.inboxSeq.Some? then []
    else
      var first := cuts[0].connection;
      if cuts[0].k >= |SeedActivityPage(logs, first.v0, resume, first.limit)| then []
      else Expected(logs.inbox, 0, StartInbox(logs, first.v0, resume))
  }

  lemma {:induction false} ItemsConcat(a: seq<Frame>, b: seq<Frame>, kind: Kind)
    ensures Items(a + b, kind) == Items(a, kind) + Items(b, kind)
  {
    if b == [] {
      assert a + b == a;
    } else {
      var front, f := b[..|b| - 1], b[|b| - 1];
      ItemsConcat(a, front, kind);
      ItemsAppend(a + front, f, kind);
      assert a + b == a + front + [f];
      Regroup(Items(a, kind), Items(front, kind), if f.kind == kind then [f.item] else []);
    }
  }

  /** A cut connection has sent what lies before its cut, and the next one starts there. */
  lemma CutSplits(logs: Logs, resume: Cursor, cut: Cut)
    requires Valid(logs) && CanCut(logs, resume, cut)
    ensures var sent := Sent(logs, resume, cut.connection)[..cut.k + 1];
      var next, v0 := ResumedAfter(logs, resume, cut), cut.connection.v0;
      && next.activitySeq.Some? && next.inboxSeq.Some?
      && Items(sent, Activity) + Framed(Beyond(logs.activity, next.activitySeq.value))
           == Framed(Beyond(logs.activity, StartActivity(logs, v0, resume)))
      && Items(sent, Message) + Framed(Beyond(logs.inbox, next.inboxSeq.value))
           == Replayed(logs, resume, [cut]) + Framed(Beyond(logs.inbox, StartInbox(logs, v0, resume)))
  {
    var c := cut.connection;
    var s := Run(logs, resume, c.limit, c.v0, c.views);
    var f := s.sent[cut.k];
    var o := OriginOf(logs, c.v0, resume, c.limit);
    RunIsExact(logs, resume, c.limit, c.v0, c.views);
    assert FrameIsExact(logs, o, s.sent, cut.k);
    ParseAfterCompose(f.activitySeq, f.inboxSeq, true, None);
    BeyondSplits(logs.activity, o.activitySeq, f.activitySeq);
    BeyondSplitsAnyway(logs.inbox, o.inboxSeq, f.inboxSeq);
    if cut.k >= o.unplaced {
      NothingExpected(logs.inbox, f.inboxSeq, o.inboxSeq);
    }
  }

  /** The client has got all that lies beyond the start of the first connection, after the messages sent again. */
  ghost predicate Complete(logs: Logs, resume: Cursor, v0: View, replayed: seq<nat>, received: seq<Frame>) {
    && Items(received, Activity) == Framed(Beyond(logs.activity, StartActivity(logs, v0, resume)))
    && Items(received, Message) == replayed + Framed(Beyond(logs.inbox, StartInbox(logs, v0, resume)))
  }

  lemma LastConnection(logs: Logs, resume: Cursor, last: Connection, n: nat)
    requires Valid(logs) && last.limit > 0
    requires n >= |logs.activity| && n >= |logs.inbox| && EndsWithFullViews(logs, last.views, n)
    ensures Complete(logs, resume, last.v0, [], Sent(logs, resume, last))
  {
    DeliversEverythingOnce(logs, resume, last.limit, last.v0, last.views, n);
    assert forall xs: seq<nat> :: [] + xs == xs;
  }

  lemma FirstConnection(logs: Logs, resume: Cursor, cut: Cut, rest: seq<Frame>, v0: View)
    requires Valid(logs) && CanCut(logs, resume, cut)
    requires Complete(logs, ResumedAfter(logs, resume, cut), v0, [], rest)
    ensures Complete(logs, resume, cut.connection.v0, Replayed(logs, resume, [cut]),
                     Sent(logs, resume, cut.connection)[..cut.k + 1] + rest)
  {
    var sent, next := Sent(logs, resume, cut.connection)[..cut.k + 1], ResumedAfter(logs, resume, cut);
    CutSplits(logs, resume, cut);
    ItemsConcat(sent, rest, Activity);
    ItemsConcat(sent, rest, Message);
    var messages := Framed(Beyond(logs.inbox, next.inboxSeq.value));
    assert [] + messages == messages;
  }

  lemma {:induction false} ReceivedIsComplete(logs: Logs, resume: Cursor, cuts: seq<Cut>, last: Connection, n: nat)
    requires Valid(logs) && CanCutAll(logs, resume, cuts) && last.limit > 0
    requires n >= |logs.activity| && n >= |logs.inbox| && EndsWithFullViews(logs, last.views, n)
    ensures Complete(logs, resume, FirstView(cuts, last), Replayed(logs, resume, cuts),
                     Received(logs, resume, cuts, last))
    decreases |cuts|
  {
    if cuts == [] {
      LastConnection(logs, resume, last, n);
    } else {
      var next := ResumedAfter(logs, resume, cuts[0]);
      CutSplits(logs, resume, cuts[0]);
      ReceivedIsComplete(logs, next, cuts[1..], last, n);
      FirstConnection(logs, resume, cuts[0], Received(logs, next, cuts[1..], last), FirstView(cuts[1..], last));
    }
  }

  /**
   However often a stream is cut, each time resumed under the id of its last frame, the client gets the
   activity of an uncut stream, and its messages, after those that only the first cut of an older cursor's
   stream can make it get again.
   */
  lemma AnyCutsLoseNothing(logs: Logs, resume: Cursor, cuts: seq<Cut>, last: Connection,
                           limit: nat, uncut: seq<View>, n: nat)
    requires Valid(logs) && CanCutAll(logs, resume, cuts) && last.limit > 0 && limit > 0
    requires n >= |logs.activity| && n >= |logs.inbox|
    requires EndsWithFullViews(logs, last.views, n) && EndsWithFullViews(logs, uncut, n)
    ensures var received := Received(logs, resume, cuts, last);
      var whole := Run(logs, resume, limit, FirstView(cuts, last), uncut).sent;
      && Items(received, Activity) == Items(whole, Activity)
      && Items(received, Message) == Replayed(logs, resume, cuts) + Items(whole, Message)
  {
    ReceivedIsComplete(logs, resume, cuts, last, n);
    DeliversEverythingOnce(logs, resume, limit, FirstView(cuts, last), uncut, n);
  }

  /**
   One activity row and one message, both long read by a client with an older cursor at activity 0. The uncut
   stream sends it no message; cut after its first frame and resumed, the stream sends the message again.
   */
  lemma OlderCursorReplays()
    ensures var logs := Logs([Row(1, true, true)], [Row(1, true, true)]);
      var view, older := View(1, 1), Cursor(Some(0), None);
      var whole := Run(logs, older, 10, view, [view]).sent;
      && |whole| > 0 && Resumed(whole[0]) == Some(Cursor(Some(1), Some(0)))
      && Items(whole, Message) == [] && Items(whole[..1], Message) == []
      && Items(Run(logs, Resumed(whole[0]).value, 10, view, [view]).sent, Message) == [1]
  {
    var log := [Row(1, true, true)];
    var logs := Logs(log, log);
    var view, older := View(1, 1), Cursor(Some(0), None);
    OneRow(0);
    OneRow(1);
    assert Seen(log, 1) == log;
    assert [view][..0] == [];
    var started := Open(logs, view, older, 10);
    var first := Frame(Activity, 1, 1, 0);
    assert log[..0] == [];
    assert started == Session(1, 1, [first, Frame(Ready, 0, 1, 1)]);
    assert Poll(logs, view, started, 10) == started;
    ParseAfterCompose(1, 0, true, None);
    var back := Cursor(Some(1), Some(0));
    var resumed := Open(logs, view, back, 10);
    assert resumed == Session(1, 1, [Frame(Message, 1, 1, 1), Frame(Ready, 0, 1, 1)]);
    assert Poll(logs, view, resumed, 10) == resumed;
    NoMessages(first);
    OneMessage();
  }

  lemma OneRow(after: nat)
    ensures Beyond([Row(1, true, true)], after) == if after == 0 then [Row(1, true, true)] else []
    ensures MaxSeq([Row(1, true, true)]) == 1
  {
    assert [Row(1, true, true)][..0] == [];
  }

  lemma NoMessages(first: Frame)
    requires first.kind == Activity
    ensures Items([first], Message) == [] && Items([first, Frame(Ready, 0, 1, 1)], Message) == []
    ensures [first, Frame(Ready, 0, 1, 1)][..1] == [first]
  {
    assert [first][..0] == [] && [first, Frame(Ready, 0, 1, 1)][..1] == [first];
  }

  lemma OneMessage()
    ensures Items([Frame(Message, 1, 1, 1), Frame(Ready, 0, 1, 1)], Message) == [1]
  {
    var f := Frame(Message, 1, 1, 1);
    assert [f][..0] == [] && [f, Frame(Ready, 0, 1, 1)][..1] == [f];
  }
}
