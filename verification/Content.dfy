/**
 One content item: its append-only versions and the mention index stored beside them. Updates and
 removals read the current version, and some time later insert the next one under the uniqueness of
 its number; any number of them interleave.
 */
module Content {
  import opened Common
  import opened Mentions

  type MemberId = Text
  type Caller = nat

  const MAX_UNIQUE_MENTIONED_MEMBERS: nat := 25
  const MAX_MENTION_SPANS: nat := 100

  datatype Field = Title | Summary | Body

  datatype Texts = Texts(title: Option<Text>, summary: Option<Text>, body: Option<Text>) {
    function Of(f: Field): Option<Text> {
      match f
      case Title => title
      case Summary => summary
      case Body => body
    }
  }

  datatype VersionState = Published | Removed

  datatype Version = Version(
    id: nat, no: nat, state: VersionState, texts: Texts, expiresAt: Option<nat>, supersedes: Option<nat>)

  datatype SpanRow = SpanRow(version: nat, field: Field, start: nat, end: nat, memberId: MemberId)

  datatype Span = Span(start: nat, end: nat, memberId: MemberId)

  /** An absent part keeps the current value; `Some(None)` clears a text. */
  datatype Patch = Patch(title: Option<Option<Text>>, summary: Option<Option<Text>>, body: Option<Option<Text>>,
                         expiresAt: Option<Option<nat>>)

  function Or<T>(part: Option<T>, current: T): T {
    if part.Some? then part.value else current
  }

  function Patched(texts: Texts, p: Patch): Texts {
    Texts(Or(p.title, texts.title), Or(p.summary, texts.summary), Or(p.body, texts.body))
  }

  // ---- Tables ---------------------------------------------------------------------------------------

  /** The current version: the one with the greatest number. */
  function Current(versions: seq<Version>): Version
    requires versions != []
  {
    var last := versions[|versions| - 1];
    if |versions| == 1 then last
    else
      var best := Current(versions[..|versions| - 1]);
      if last.no >= best.no then last else best
  }

  predicate NumberTaken(versions: seq<Version>, no: nat) {
    exists i :: 0 <= i < |versions| && versions[i].no == no
  }

  function FieldSpans(index: set<SpanRow>, version: nat, f: Field): set<Span> {
    set r | r in index && r.version == version && r.field == f :: Span(r.start, r.end, r.memberId)
  }

  /** What a fresh scan of the text finds. */
  function ScanSpans(text: Option<Text>): set<Span> {
    set m | m in TextMentions(text) :: Span(m.start, m.end, m.memberId)
  }

  function ScannedRows(text: Option<Text>, version: nat, f: Field): set<SpanRow> {
    set m | m in TextMentions(text) :: SpanRow(version, f, m.start, m.end, m.memberId)
  }

  function CopiedRows(index: set<SpanRow>, from: nat, to: nat, f: Field): set<SpanRow> {
    set r | r in index && r.version == from && r.field == f :: r.(version := to)
  }

  /** The rows of `f` for the next version: copied when the text is unchanged, rescanned otherwise. */
  function NextRows(index: set<SpanRow>, current: Version, next: Texts, version: nat, f: Field): set<SpanRow> {
    if current.texts.Of(f) == next.Of(f) then CopiedRows(index, current.id, version, f)
    else ScannedRows(next.Of(f), version, f)
  }

  function ChangedRows(current: Version, next: Texts, version: nat, f: Field): set<SpanRow> {
    if current.texts.Of(f) == next.Of(f) then {} else ScannedRows(next.Of(f), version, f)
  }

  predicate OverLimit(rows: set<SpanRow>) {
    |set r | r in rows :: r.memberId| > MAX_UNIQUE_MENTIONED_MEMBERS || |rows| > MAX_MENTION_SPANS
  }

  datatype UpdateError = NotFound | InvalidMentions | TooManyMentions | VersionConflict | AlreadyRemoved

  /**
   Why the changed mentions are refused: one is out of the writer's scope, or there are too many,
   alone or together with the carried ones still in scope.
   */
  function MentionError(index: set<SpanRow>, current: Version, next: Texts, version: nat,
                        accessible: set<MemberId>): Option<UpdateError>
  {
    var changed := set r, f | f in {Title, Summary, Body} && r in ChangedRows(current, next, version, f) :: r;
    var carried := set r, f | f in {Title, Summary, Body} && current.texts.Of(f) == next.Of(f)
                     && r in CopiedRows(index, current.id, version, f) && r.memberId in accessible :: r;
    if exists r :: r in changed && r.memberId !in accessible then Some(InvalidMentions)
    else if OverLimit(changed) || (OverLimit(changed + carried) && changed != {}) then Some(TooManyMentions)
    else None
  }

  datatype Tables = Tables(versions: seq<Version>, index: set<SpanRow>)

  function InsertVersion(db: Tables, current: Version, state: VersionState, texts: Texts,
                         expiresAt: Option<nat>, rows: set<SpanRow>): Tables
  {
    Tables(db.versions + [Version(|db.versions|, current.no + 1, state, texts, expiresAt, Some(current.id))],
           db.index + rows)
  }

  /** The write half of an update whose transaction read `current`. */
  function WriteUpdate(db: Tables, current: Version, p: Patch, accessible: set<MemberId>)
    : (r: Result<Tables, UpdateError>)
  {
    var next := Patched(current.texts, p);
    var id := |db.versions|;
    if next == current.texts && Or(p.expiresAt, current.expiresAt) == current.expiresAt then Ok(db)
    else if MentionError(db.index, current, next, id, accessible).Some? then
      Err(MentionError(db.index, current, next, id, accessible).value)
    else if NumberTaken(db.versions, current.no + 1) then Err(VersionConflict)
    else Ok(InsertVersion(db, current, Published, next, Or(p.expiresAt, current.expiresAt),
      NextRows(db.index, current, next, id, Title) + NextRows(db.index, current, next, id, Summary)
        + NextRows(db.index, current, next, id, Body)))
  }

  function WriteRemove(db: Tables, current: Version): Result<Tables, UpdateError> {
    if NumberTaken(db.versions, current.no + 1) then Err(VersionConflict)
    else Ok(InsertVersion(db, current, Removed, Texts(None, None, None), None, {}))
  }

  function Create(texts: Texts, expiresAt: Option<nat>): Tables {
    Tables([Version(0, 1, Published, texts, expiresAt, None)],
           ScannedRows(texts.title, 0, Title) + ScannedRows(texts.summary, 0, Summary)
             + ScannedRows(texts.body, 0, Body))
  }

  // ---- Interleaved runs -------------------------------------------------------------------------------

  /** `reading` holds, for each open transaction, the version it read. */
  datatype State = State(db: Tables, reading: map<Caller, Version>)

  datatype Event =
    | Read(caller: Caller)
    | CommitUpdate(caller: Caller, patch: Patch, accessible: set<MemberId>)
    | CommitRemove(caller: Caller)
    | Abort(caller: Caller)

  function Apply(s: State, e: Event): State
    requires s.db.versions != []
  {
    match e
    case Read(t) =>
      // Neither operation goes on from a removed version.
      var current := Current(s.db.versions);
      if t in s.reading || current.state == Removed then s
      else s.(reading := s.reading[t := current])
    case CommitUpdate(t, p, accessible) =>
      if t in s.reading then
        var r := WriteUpdate(s.db, s.reading[t], p, accessible);
        State(if r.Ok? then r.value else s.db, s.reading - {t})
      else s
    case CommitRemove(t) =>
      if t in s.reading then
        var r := WriteRemove(s.db, s.reading[t]);
        State(if r.Ok? then r.value else s.db, s.reading - {t})
      else s
    case Abort(t) => s.(reading := s.reading - {t})
  }

  function Run(texts: Texts, expiresAt: Option<nat>, es: seq<Event>): (s: State)
    ensures s.db.versions != []
  {
    if es == [] then State(Create(texts, expiresAt), map[])
    else Apply(Run(texts, expiresAt, es[..|es| - 1]), es[|es| - 1])
  }

  // ---- The version chain ------------------------------------------------------------------------------

  /** Numbers are gap-free from 1, each version supersedes the one before, removal is last. */
  ghost predicate Chained(versions: seq<Version>) {
    forall i :: 0 <= i < |versions| ==>
      && versions[i].id == i && versions[i].no == i + 1
      && versions[i].supersedes == (if i == 0 then None else Some(versions[i - 1].id))
      && (versions[i].state == Removed ==> i == |versions| - 1)
  }

  ghost predicate ReadsStored(s: State) {
    forall t :: t in s.reading ==> s.reading[t] in s.db.versions && s.reading[t].state == Published
  }

  lemma {:induction false} CurrentIsLast(versions: seq<Version>)
    requires versions != [] && Chained(versions)
    ensures Current(versions) == versions[|versions| - 1]
  {
    if |versions| > 1 {
      var before := versions[..|versions| - 1];
      assert forall i :: 0 <= i < |before| ==> before[i] == versions[i];
      CurrentIsLastOfNumbered(versions, |versions| - 1);
    }
  }

  lemma {:induction false} CurrentIsLastOfNumbered(versions: seq<Version>, n: nat)
    requires 0 < n <= |versions| && forall i :: 0 <= i < |versions| ==> versions[i].no == i + 1
    ensures Current(versions[..n]) == versions[n - 1]
  {
    if n > 1 {
      CurrentIsLastOfNumbered(versions, n - 1);
      assert versions[..n][..n - 1] == versions[..n - 1];
    }
  }

  lemma NumberAfterIsTaken(versions: seq<Version>, i: nat)
    requires Chained(versions) && i + 1 < |versions|
    ensures NumberTaken(versions, versions[i].no + 1)
  {
    assert versions[i + 1].no == versions[i].no + 1;
  }

  /** Only a transaction that read the last version finds its next number free. */
  lemma FreeNumberMeansLast(versions: seq<Version>, read: Version)
    requires Chained(versions) && read in versions && !NumberTaken(versions, read.no + 1)
    ensures versions != [] && read == versions[|versions| - 1]
  {
    var i :| 0 <= i < |versions| && versions[i] == read;
    if i + 1 < |versions| {
      NumberAfterIsTaken(versions, i);
    }
  }

  /** `after` is `before` with one more version, which supersedes `read` and takes a free number. */
  predicate Extends(before: seq<Version>, read: Version, after: seq<Version>) {
    && !NumberTaken(before, read.no + 1)
    && |after| == |before| + 1 && after[..|before|] == before
    && after[|before|].id == |before| && after[|before|].no == read.no + 1
    && after[|before|].supersedes == Some(read.id)
  }

  /** A write either changes no version or extends the chain from the version it read. */
  lemma WritesExtend(s: State, e: Event)
    requires s.db.versions != []
    ensures var s' := Apply(s, e);
      s'.db.versions == s.db.versions
      || ((e.CommitUpdate? || e.CommitRemove?) && e.caller in s.reading
          && Extends(s.db.versions, s.reading[e.caller], s'.db.versions))
  {
  }

  lemma ExtendChained(before: seq<Version>, read: Version, after: seq<Version>)
    requires Chained(before) && read in before && read.state == Published && Extends(before, read, after)
    ensures Chained(after)
  {
    FreeNumberMeansLast(before, read);
    forall i | 0 <= i < |before| ensures after[i] == before[i] {
      assert after[..|before|][i] == before[i];
    }
  }

  lemma ChainStep(s: State, e: Event)
    requires s.db.versions != [] && Chained(s.db.versions) && ReadsStored(s)
    ensures Chained(Apply(s, e).db.versions) && ReadsStored(Apply(s, e))
  {
    var s' := Apply(s, e);
    WritesExtend(s, e);
    if s'.db.versions != s.db.versions {
      ExtendChained(s.db.versions, s.reading[e.caller], s'.db.versions);
    }
    forall t | t in s'.reading ensures s'.reading[t] in s'.db.versions && s'.reading[t].state == Published {
      if t in s.reading {
        assert s'.db.versions[..|s.db.versions|] == s.db.versions;
        assert s.reading[t] in s'.db.versions[..|s.db.versions|];
      } else {
        CurrentIsLast(s.db.versions);
      }
    }
  }

  // ---- The mention index ------------------------------------------------------------------------------

  ghost predicate Indexed(db: Tables) {
    && (forall r :: r in db.index ==> r.version < |db.versions|)
    && (forall i, f: Field {:trigger FieldSpans(db.index, i, f)} :: 0 <= i < |db.versions| ==>
          FieldSpans(db.index, i, f) == ScanSpans(db.versions[i].texts.Of(f)))
  }

  lemma ScannedSpans(text: Option<Text>, version: nat, f: Field, g: Field)
    ensures FieldSpans(ScannedRows(text, version, f), version, g) == if f == g then ScanSpans(text) else {}
  {
    var rows := ScannedRows(text, version, f);
    if f == g {
      forall m | m in TextMentions(text)
        ensures Span(m.start, m.end, m.memberId) in FieldSpans(rows, version, g)
      {
        assert SpanRow(version, f, m.start, m.end, m.memberId) in rows;
      }
    }
  }

  lemma CopiedSpans(index: set<SpanRow>, from: nat, to: nat, f: Field, g: Field)
    ensures FieldSpans(CopiedRows(index, from, to, f), to, g) == if f == g then FieldSpans(index, from, f) else {}
  {
    var rows := CopiedRows(index, from, to, f);
    if f == g {
      forall x | x in FieldSpans(index, from, f) ensures x in FieldSpans(rows, to, g) {
        assert SpanRow(from, f, x.start, x.end, x.memberId) in index;
        assert SpanRow(from, f, x.start, x.end, x.memberId).(version := to) in rows;
      }
      forall x | x in FieldSpans(rows, to, g) ensures x in FieldSpans(index, from, f) {
        var r :| r in rows && r.version == to && r.field == g && Span(r.start, r.end, r.memberId) == x;
        assert r.(version := from) in index;
      }
    }
  }

  lemma SpansOfUnion(a: set<SpanRow>, b: set<SpanRow>, version: nat, f: Field)
    ensures FieldSpans(a + b, version, f) == FieldSpans(a, version, f) + FieldSpans(b, version, f)
  {
  }

  /** The next version's rows of a field, copied or rescanned, are a scan of its own text. */
  lemma NextRowsSpans(db: Tables, current: Version, next: Texts, f: Field, g: Field)
    requires Indexed(db) && current.id < |db.versions| && db.versions[current.id] == current
    ensures FieldSpans(NextRows(db.index, current, next, |db.versions|, f), |db.versions|, g)
         == if f == g then ScanSpans(next.Of(f)) else {}
  {
    CopiedSpans(db.index, current.id, |db.versions|, f, g);
    ScannedSpans(next.Of(f), |db.versions|, f, g);
    assert FieldSpans(db.index, current.id, f) == ScanSpans(current.texts.Of(f));
  }

  /** Adding a version whose rows are a scan of its texts keeps the index exact. */
  lemma AppendIndexed(db: Tables, v: Version, rows: set<SpanRow>)
    requires Indexed(db)
    requires forall r :: r in rows ==> r.version == |db.versions|
    requires forall f: Field :: FieldSpans(rows, |db.versions|, f) == ScanSpans(v.texts.Of(f))
    ensures Indexed(Tables(db.versions + [v], db.index + rows))
  {
    var db' := Tables(db.versions + [v], db.index + rows);
    forall i, f: Field | 0 <= i < |db'.versions|
      ensures FieldSpans(db'.index, i, f) == ScanSpans(db'.versions[i].texts.Of(f))
    {
      SpansOfUnion(db.index, rows, i, f);
      if i < |db.versions| {
        assert FieldSpans(rows, i, f) == {};
        assert FieldSpans(db.index, i, f) == ScanSpans(db.versions[i].texts.Of(f));
      } else {
        assert FieldSpans(db.index, i, f) == {};
      }
    }
  }

  lemma UpdateIndexed(db: Tables, current: Version, p: Patch, accessible: set<MemberId>)
    requires Indexed(db) && current.id < |db.versions| && db.versions[current.id] == current
    requires WriteUpdate(db, current, p, accessible).Ok?
    ensures Indexed(WriteUpdate(db, current, p, accessible).value)
  {
    var db' := WriteUpdate(db, current, p, accessible).value;
    if db' != db {
      var id := |db.versions|;
      var next := Patched(current.texts, p);
      var title := NextRows(db.index, current, next, id, Title);
      var summary := NextRows(db.index, current, next, id, Summary);
      var body := NextRows(db.index, current, next, id, Body);
      forall f: Field ensures FieldSpans(title + summary + body, id, f) == ScanSpans(next.Of(f)) {
        SpansOfUnion(title + summary, body, id, f);
        SpansOfUnion(title, summary, id, f);
        NextRowsSpans(db, current, next, Title, f);
        NextRowsSpans(db, current, next, Summary, f);
        NextRowsSpans(db, current, next, Body, f);
      }
      AppendIndexed(db, db'.versions[id], title + summary + body);
    }
  }

  lemma RemoveIndexed(db: Tables, current: Version)
    requires Indexed(db) && WriteRemove(db, current).Ok?
    ensures Indexed(WriteRemove(db, current).value)
  {
    AppendIndexed(db, WriteRemove(db, current).value.versions[|db.versions|], {});
  }

  lemma CreateIndexed(texts: Texts, expiresAt: Option<nat>)
    ensures Indexed(Create(texts, expiresAt))
  {
    var title, summary, body :=
      ScannedRows(texts.title, 0, Title), ScannedRows(texts.summary, 0, Summary), ScannedRows(texts.body, 0, Body);
    forall f: Field ensures FieldSpans(title + summary + body, 0, f) == ScanSpans(texts.Of(f)) {
      SpansOfUnion(title + summary, body, 0, f);
      SpansOfUnion(title, summary, 0, f);
      ScannedSpans(texts.title, 0, Title, f);
      ScannedSpans(texts.summary, 0, Summary, f);
      ScannedSpans(texts.body, 0, Body, f);
    }
    AppendIndexed(Tables([], {}), Create(texts, expiresAt).versions[0], title + summary + body);
    assert {} + (title + summary + body) == title + summary + body;
  }

  lemma IndexStep(s: State, e: Event)
    requires s.db.versions != [] && Chained(s.db.versions) && ReadsStored(s) && Indexed(s.db)
    ensures Indexed(Apply(s, e).db)
  {
    if (e.CommitUpdate? || e.CommitRemove?) && e.caller in s.reading {
      var current := s.reading[e.caller];
      assert s.db.versions[current.id] == current;
      if e.CommitUpdate? && WriteUpdate(s.db, current, e.patch, e.accessible).Ok? {
        UpdateIndexed(s.db, current, e.patch, e.accessible);
      } else if e.CommitRemove? && WriteRemove(s.db, current).Ok? {
        RemoveIndexed(s.db, current);
      }
    }
  }

  // ---- Over whole runs --------------------------------------------------------------------------------

  lemma {:induction false} RunInvariants(texts: Texts, expiresAt: Option<nat>, es: seq<Event>)
    ensures var s := Run(texts, expiresAt, es);
      Chained(s.db.versions) && ReadsStored(s) && Indexed(s.db)
  {
    if es == [] {
      CreateIndexed(texts, expiresAt);
    } else {
      var s := Run(texts, expiresAt, es[..|es| - 1]);
      RunInvariants(texts, expiresAt, es[..|es| - 1]);
      ChainStep(s, es[|es| - 1]);
      IndexStep(s, es[|es| - 1]);
    }
  }

  /** A step that changes the versions extends the chain from its last version, which is the one read. */
  lemma CommitReplacesWhatItRead(s: State, e: Event)
    requires s.db.versions != [] && Chained(s.db.versions) && ReadsStored(s)
    ensures var s' := Apply(s, e);
      s'.db.versions != s.db.versions ==>
        && e.caller in s.reading
        && s.reading[e.caller] == s.db.versions[|s.db.versions| - 1]
        && |s'.db.versions| == |s.db.versions| + 1 && s.db.versions < s'.db.versions
        && s'.db.versions[|s.db.versions|].supersedes == Some(s.reading[e.caller].id)
  {
    var s' := Apply(s, e);
    WritesExtend(s, e);
    if s'.db.versions != s.db.versions {
      FreeNumberMeansLast(s.db.versions, s.reading[e.caller]);
      assert s'.db.versions[..|s.db.versions|] == s.db.versions;
    }
  }

  /**
   In every run the versions form one gap-free chain, only the last may be removed, and so every
   committed edit replaced exactly the version its transaction had read.
   */
  lemma VersionChain(texts: Texts, expiresAt: Option<nat>, es: seq<Event>, e: Event)
    ensures Chained(Run(texts, expiresAt, es).db.versions)
    ensures var s := Run(texts, expiresAt, es);
      var s' := Apply(s, e);
      s'.db.versions != s.db.versions ==>
        && e.caller in s.reading
        && s.reading[e.caller] == s.db.versions[|s.db.versions| - 1]
        && |s'.db.versions| == |s.db.versions| + 1 && s.db.versions < s'.db.versions
        && s'.db.versions[|s.db.versions|].supersedes == Some(s.reading[e.caller].id)
  {
    RunInvariants(texts, expiresAt, es);
    CommitReplacesWhatItRead(Run(texts, expiresAt, es), e);
  }

  /** In every run the stored spans of every version and field are what a scan of its text gives. */
  lemma StoredIndexIsFreshScan(texts: Texts, expiresAt: Option<nat>, es: seq<Event>, i: nat, f: Field)
    requires i < |Run(texts, expiresAt, es).db.versions|
    ensures var db := Run(texts, expiresAt, es).db;
      FieldSpans(db.index, db.versions[i].id, f) == ScanSpans(db.versions[i].texts.Of(f))
  {
    RunInvariants(texts, expiresAt, es);
  }
}
