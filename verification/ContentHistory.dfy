/** What the versions of a content item say: which texts a commit stores, and whose word on a field is the last one. */
module ContentHistory {
  import opened Common
  import opened Mentions
  import opened Content

  /** What a patch says about a field: nothing, or the text it is to have, or that it is to have none. */
  function PartFor(p: Patch, f: Field): Option<Option<Text>> {
    match f
    case Title => p.title
    case Summary => p.summary
    case Body => p.body
  }

  function TextOf(texts: Texts, f: Field): Option<Text> {
    match f
    case Title => texts.title
    case Summary => texts.summary
    case Body => texts.body
  }

  /** The text of a field after a patch. */
  function TextAfter(texts: Texts, p: Patch, f: Field): Option<Text> {
    match PartFor(p, f)
    case Some(text) => text
    case None => TextOf(texts, f)
  }

  /** The last step of the run stored a version. */
  predicate Stores(texts: Texts, expiresAt: Option<nat>, es: seq<Event>) {
    es != [] && |Run(texts, expiresAt, es).db.versions| > |Run(texts, expiresAt, es[..|es| - 1]).db.versions|
  }

  function Last(versions: seq<Version>): Version
    requires versions != []
  {
    versions[|versions| - 1]
  }

  /** A committed update stores the patch's own parts, and for every other field and the expiry what it had read. */
  lemma UpdateStores(s: State, e: Event)
    requires s.db.versions != [] && e.CommitUpdate? && Apply(s, e).db.versions != s.db.versions
    ensures e.caller in s.reading && |Apply(s, e).db.versions| == |s.db.versions| + 1
    ensures var read, stored := s.reading[e.caller], Last(Apply(s, e).db.versions);
      && stored.state == Published && stored.supersedes == Some(read.id)
      && (forall f: Field :: TextOf(stored.texts, f) == TextAfter(read.texts, e.patch, f))
      && stored.expiresAt == (if e.patch.expiresAt.Some? then e.patch.expiresAt.value else read.expiresAt)
  {
  }

  /** A committed removal stores no text. */
  lemma RemoveStores(s: State, e: Event)
    requires s.db.versions != [] && e.CommitRemove? && Apply(s, e).db.versions != s.db.versions
    ensures |Apply(s, e).db.versions| == |s.db.versions| + 1
    ensures var stored := Last(Apply(s, e).db.versions);
      && stored.state == Removed && stored.expiresAt.None?
      && forall f: Field :: TextOf(stored.texts, f) == None
  {
  }

  // ---- The last word on a field -----------------------------------------------------------------------

  /** What the last stored commit with a word on the field said, or the creation if none had one. */
  function LastWord(texts: Texts, expiresAt: Option<nat>, es: seq<Event>, f: Field): Option<Text> {
    if es == [] then TextOf(texts, f)
    else
      var before, e := LastWord(texts, expiresAt, es[..|es| - 1], f), es[|es| - 1];
      if !Stores(texts, expiresAt, es) then before
      else if e.CommitRemove? then None
      else if e.CommitUpdate? && PartFor(e.patch, f).Some? then PartFor(e.patch, f).value
      else before
  }

  function LastExpiry(texts: Texts, expiresAt: Option<nat>, es: seq<Event>): Option<nat> {
    if es == [] then expiresAt
    else
      var before, e := LastExpiry(texts, expiresAt, es[..|es| - 1]), es[|es| - 1];
      if !Stores(texts, expiresAt, es) then before
      else if e.CommitRemove? then None
      else if e.CommitUpdate? && e.patch.expiresAt.Some? then e.patch.expiresAt.value
      else before
  }

  /** What a step makes of the last version's text of a field, and of its expiry. */
  lemma WordOnStep(s: State, e: Event, f: Field)
    requires s.db.versions != [] && Chained(s.db.versions) && ReadsStored(s)
    ensures var before, after := Last(s.db.versions), Last(Apply(s, e).db.versions);
      if |Apply(s, e).db.versions| <= |s.db.versions| then after == before
      else if e.CommitRemove? then TextOf(after.texts, f) == None && after.expiresAt == None
      else
        && e.CommitUpdate?
        && TextOf(after.texts, f) == TextAfter(before.texts, e.patch, f)
        && after.expiresAt == (if e.patch.expiresAt.Some? then e.patch.expiresAt.value else before.expiresAt)
  {
    StoresAfterLast(s, e);
    if Apply(s, e).db.versions != s.db.versions {
      if e.CommitUpdate? {
        UpdateStores(s, e);
      } else {
        RemoveStores(s, e);
      }
    }
  }

  lemma StoresAfterLast(s: State, e: Event)
    requires s.db.versions != [] && Chained(s.db.versions) && ReadsStored(s)
    ensures Apply(s, e).db.versions != s.db.versions ==>
      && (e.CommitUpdate? || e.CommitRemove?) && |Apply(s, e).db.versions| == |s.db.versions| + 1
      && e.caller in s.reading && s.reading[e.caller] == Last(s.db.versions)
  {
    CommitReplacesWhatItRead(s, e);
    WritesExtend(s, e);
  }

  /**
   In every run the text of each field in the last version is what the last stored update with a part for it said,
   or what the item was created with if none had one; and nothing once the item is removed. So is the expiry.
   */
  lemma {:induction false} LastWordStands(texts: Texts, expiresAt: Option<nat>, es: seq<Event>, f: Field)
    ensures var v := Last(Run(texts, expiresAt, es).db.versions);
      TextOf(v.texts, f) == LastWord(texts, expiresAt, es, f) && v.expiresAt == LastExpiry(texts, expiresAt, es)
  {
    if es != [] {
      LastWordStands(texts, expiresAt, es[..|es| - 1], f);
      RunInvariants(texts, expiresAt, es[..|es| - 1]);
      WordOnStep(Run(texts, expiresAt, es[..|es| - 1]), es[|es| - 1], f);
    }
  }

  // ---- Mentions that are refused --------------------------------------------------------------------------

  predicate Changes(current: Version, p: Patch, f: Field) {
    TextOf(current.texts, f) != TextAfter(current.texts, p, f)
  }

  /** The spans found in the texts that change. */
  ghost function NewSpans(current: Version, p: Patch, id: nat): set<SpanRow> {
    set f: Field, m | Changes(current, p, f) && m in TextMentions(TextAfter(current.texts, p, f)) ::
      SpanRow(id, f, m.start, m.end, m.memberId)
  }

  /** The stored spans of the texts that stay, of members still in the writer's scope. */
  ghost function KeptSpans(index: set<SpanRow>, current: Version, p: Patch, id: nat, accessible: set<MemberId>)
    : set<SpanRow>
  {
    set r | r in index && r.version == current.id && !Changes(current, p, r.field) && r.memberId in accessible ::
      r.(version := id)
  }

  /** More than a hundred spans, or of more than twenty-five members. */
  ghost predicate TooMany(rows: set<SpanRow>) {
    |rows| > 100 || |set r | r in rows :: r.memberId| > 25
  }

  lemma NextTexts(current: Version, p: Patch)
    ensures var next := Patched(current.texts, p);
      && (forall f: Field :: next.Of(f) == TextAfter(current.texts, p, f))
      && (forall f: Field :: current.texts.Of(f) == TextOf(current.texts, f))
      && (next == current.texts <==> forall f: Field :: !Changes(current, p, f))
  {
    var next := Patched(current.texts, p);
    if forall f: Field :: !Changes(current, p, f) {
      assert !Changes(current, p, Title) && !Changes(current, p, Summary) && !Changes(current, p, Body);
    }
  }

  lemma SpansAgree(index: set<SpanRow>, current: Version, p: Patch, id: nat, accessible: set<MemberId>)
    ensures var next := Patched(current.texts, p);
      && (set r, f | f in {Title, Summary, Body} && r in ChangedRows(current, next, id, f) :: r)
           == NewSpans(current, p, id)
      && (set r, f | f in {Title, Summary, Body} && current.texts.Of(f) == next.Of(f)
                     && r in CopiedRows(index, current.id, id, f) && r.memberId in accessible :: r)
           == KeptSpans(index, current, p, id, accessible)
  {
    NextTexts(current, p);
    var next := Patched(current.texts, p);
    forall r | r in NewSpans(current, p, id)
      ensures r.field in {Title, Summary, Body} && r in ChangedRows(current, next, id, r.field)
    {
      assert r in ChangedRows(current, next, id, r.field);
    }
    forall r | r in KeptSpans(index, current, p, id, accessible)
      ensures r.field in {Title, Summary, Body} && current.texts.Of(r.field) == next.Of(r.field)
      ensures r in CopiedRows(index, current.id, id, r.field) && r.memberId in accessible
    {
      assert r in CopiedRows(index, current.id, id, r.field);
    }
  }

  lemma MentionsAnswer(index: set<SpanRow>, current: Version, p: Patch, id: nat, accessible: set<MemberId>)
    ensures var added, kept := NewSpans(current, p, id), KeptSpans(index, current, p, id, accessible);
      MentionError(index, current, Patched(current.texts, p), id, accessible) ==
        if exists s :: s in added && s.memberId !in accessible then Some(InvalidMentions)
        else if TooMany(added) || (added != {} && TooMany(added + kept)) then Some(TooManyMentions)
        else None
  {
    SpansAgree(index, current, p, id, accessible);
    var added, kept := NewSpans(current, p, id), KeptSpans(index, current, p, id, accessible);
    assert kept + added == added + kept;
  }

  /** The patch changes no text and not the expiry. */
  ghost predicate Idle(current: Version, p: Patch) {
    (forall f: Field :: !Changes(current, p, f)) && (p.expiresAt.None? || p.expiresAt.value == current.expiresAt)
  }

  /**
   Why an update that read `current` is refused, unless it is idle: for a new mention out of the writer's scope; then
   for too many mentions, new or, if there are new ones, together with the kept ones; then because the next number is
   taken.
   */
  ghost function Answer(versions: seq<Version>, index: set<SpanRow>, current: Version, p: Patch,
                        accessible: set<MemberId>): Option<UpdateError>
  {
    var added, kept := NewSpans(current, p, |versions|), KeptSpans(index, current, p, |versions|, accessible);
    if Idle(current, p) then None
    else if exists s :: s in added && s.memberId !in accessible then Some(InvalidMentions)
    else if TooMany(added) || (added != {} && TooMany(added + kept)) then Some(TooManyMentions)
    else if exists v :: v in versions && v.no == current.no + 1 then Some(VersionConflict)
    else None
  }

  lemma UpdateAnswers(db: Tables, current: Version, p: Patch, accessible: set<MemberId>)
    ensures var r := WriteUpdate(db, current, p, accessible);
      && Answer(db.versions, db.index, current, p, accessible) == (if r.Ok? then None else Some(r.error))
      && (r.Ok? ==> if Idle(current, p) then r.value == db else |r.value.versions| == |db.versions| + 1)
  {
    NextTexts(current, p);
    MentionsAnswer(db.index, current, p, |db.versions|, accessible);
    assert NumberTaken(db.versions, current.no + 1) <==> exists v :: v in db.versions && v.no == current.no + 1 by {
      if i :| 0 <= i < |db.versions| && db.versions[i].no == current.no + 1 {
        assert db.versions[i] in db.versions;
      }
    }
  }
}
