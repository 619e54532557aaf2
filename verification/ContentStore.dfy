/** The content operations as the service runs them, each in one uninterrupted transaction. */
module ContentStore {
  import opened Common
  import opened Mentions
  import opened Content
  import opened ContentHistory

  const FIELDS := [Title, Summary, Body]

  function FieldRows(index: set<SpanRow>, from: nat, to: nat, fields: seq<Field>): set<SpanRow> {
    set r | r in index && r.version == from && r.field in fields :: r.(version := to)
  }

  lemma AllFieldsListed()
    ensures forall f: Field :: f in FIELDS
  {
    assert FIELDS[0] == Title && FIELDS[1] == Summary && FIELDS[2] == Body;
    forall f: Field ensures f in FIELDS {
      match f
      case Title =>
      case Summary =>
      case Body =>
    }
  }

  /** Copying a list of fields at once is copying them one by one. */
  lemma FieldRowsByField(index: set<SpanRow>, from: nat, to: nat, fields: seq<Field>, r: SpanRow)
    ensures r in FieldRows(index, from, to, fields) <==> r.field in fields && r in CopiedRows(index, from, to, r.field)
  {
    if r in FieldRows(index, from, to, fields) {
      var o :| o in index && o.version == from && o.field in fields && o.(version := to) == r;
      assert o.field == r.field;
    }
    if r.field in fields && r in CopiedRows(index, from, to, r.field) {
      var o :| o in index && o.version == from && o.field == r.field && o.(version := to) == r;
      assert o.field in fields;
    }
  }

  lemma RowsOfField(index: set<SpanRow>, current: Version, next: Texts, id: nat, f: Field, r: SpanRow)
    requires r in NextRows(index, current, next, id, f)
    ensures r.field == f
  {
  }

  /** The rows of an update, field by field, are the copied rows and the rescanned ones. */
  lemma RowByField(index: set<SpanRow>, current: Version, next: Texts, id: nat, kept: seq<Field>,
                   changed: seq<Field>, rows: set<SpanRow>, r: SpanRow)
    requires forall f :: f in changed <==> current.texts.Of(f) != next.Of(f)
    requires forall f :: f in kept <==> current.texts.Of(f) == next.Of(f)
    requires r in rows <==>
      r in FieldRows(index, current.id, id, kept) || exists f :: f in changed && r in ScannedRows(next.Of(f), id, f)
    ensures r in rows <==> r in NextRows(index, current, next, id, r.field)
  {
    FieldRowsByField(index, current.id, id, kept, r);
    if f :| f in changed && r in ScannedRows(next.Of(f), id, f) {
      assert r in NextRows(index, current, next, id, f);
      RowsOfField(index, current, next, id, f, r);
    }
  }

  lemma UnionByField(index: set<SpanRow>, current: Version, next: Texts, id: nat, rows: set<SpanRow>)
    requires forall r :: r in rows <==> r in NextRows(index, current, next, id, r.field)
    ensures rows == NextRows(index, current, next, id, Title) + NextRows(index, current, next, id, Summary)
      + NextRows(index, current, next, id, Body)
  {
    forall r, f: Field | r in NextRows(index, current, next, id, f) ensures r in rows {
      RowsOfField(index, current, next, id, f, r);
    }
    forall r | r in rows
      ensures r in NextRows(index, current, next, id, Title) || r in NextRows(index, current, next, id, Summary)
        || r in NextRows(index, current, next, id, Body)
    {
      assert r in NextRows(index, current, next, id, r.field);
    }
  }

  function MentionRows(mentions: seq<Mention>, version: nat, f: Field): set<SpanRow> {
    set m | m in mentions :: SpanRow(version, f, m.start, m.end, m.memberId)
  }

  lemma RowsOfNext(mentions: seq<Mention>, m: Mention, version: nat, f: Field)
    ensures MentionRows(mentions + [m], version, f)
      == MentionRows(mentions, version, f) + {SpanRow(version, f, m.start, m.end, m.memberId)}
  {
    var row := SpanRow(version, f, m.start, m.end, m.memberId);
    assert m in mentions + [m];
    forall r
      ensures r in MentionRows(mentions + [m], version, f) <==> r in MentionRows(mentions, version, f) || r == row
    {
      if o :| o in mentions && r == SpanRow(version, f, o.start, o.end, o.memberId) {
        assert o in mentions + [m];
      }
    }
  }

  function UpdatedTables(db: Tables, current: Version, next: Texts, expiresAt: Option<nat>): Tables {
    var id := |db.versions|;
    InsertVersion(db, current, Published, next, expiresAt,
      NextRows(db.index, current, next, id, Title) + NextRows(db.index, current, next, id, Summary)
        + NextRows(db.index, current, next, id, Body))
  }

  lemma AcceptedUpdate(db: Tables, current: Version, p: Patch, accessible: set<MemberId>)
    requires var next := Patched(current.texts, p);
      && (next != current.texts || Or(p.expiresAt, current.expiresAt) != current.expiresAt)
      && MentionError(db.index, current, next, |db.versions|, accessible).None?
      && !NumberTaken(db.versions, current.no + 1)
    ensures WriteUpdate(db, current, p, accessible)
      == Ok(UpdatedTables(db, current, Patched(current.texts, p), Or(p.expiresAt, current.expiresAt)))
  {
  }

  class ContentItem {
    var versions: seq<Version>
    var index: set<SpanRow>

    constructor (texts: Texts, expiresAt: Option<nat>)
      ensures Tables(versions, index) == Create(texts, expiresAt)
    {
      versions := [Version(0, 1, Published, texts, expiresAt, None)];
      index := {};
      new;
      var title := RowsOf(texts.title, 0, Title);
      var summary := RowsOf(texts.summary, 0, Summary);
      var body := RowsOf(texts.body, 0, Body);
      index := title + summary + body;
    }

    /** The rows a fresh scan of one field gives. */
    static method RowsOf(text: Option<Text>, version: nat, f: Field) returns (rows: set<SpanRow>)
      ensures rows == ScannedRows(text, version, f)
    {
      var mentions := ExtractMentionCandidates(text);
      rows := {};
      for k := 0 to |mentions|
        invariant rows == MentionRows(mentions[..k], version, f)
      {
        var m := mentions[k];
        assert mentions[..k + 1] == mentions[..k] + [m];
        RowsOfNext(mentions[..k], m, version, f);
        rows := rows + {SpanRow(version, f, m.start, m.end, m.memberId)};
      }
      assert mentions[..|mentions|] == mentions;
    }

    /** Splits the fields by whether their text changes, in order. */
    static method SplitFields(current: Texts, next: Texts) returns (changed: seq<Field>, kept: seq<Field>)
      ensures forall f :: f in changed <==> current.Of(f) != next.Of(f)
      ensures forall f :: f in kept <==> current.Of(f) == next.Of(f)
    {
      changed, kept := [], [];
      for k := 0 to 3
        invariant forall f :: f in changed <==> f in FIELDS[..k] && current.Of(f) != next.Of(f)
        invariant forall f :: f in kept <==> f in FIELDS[..k] && current.Of(f) == next.Of(f)
      {
        var f := FIELDS[k];
        assert FIELDS[..k + 1] == FIELDS[..k] + [f];
        if current.Of(f) == next.Of(f) {
          kept := kept + [f];
        } else {
          changed := changed + [f];
        }
      }
      assert FIELDS[..3] == FIELDS;
      AllFieldsListed();
    }

    /** Rescans only the changed fields and copies the rows of the others. */
    method RowsForUpdate(current: Version, next: Texts) returns (rows: set<SpanRow>)
      ensures rows == NextRows(index, current, next, |versions|, Title)
        + NextRows(index, current, next, |versions|, Summary) + NextRows(index, current, next, |versions|, Body)
    {
      var id := |versions|;
      var changed, kept := SplitFields(current.texts, next);
      var copied := FieldRows(index, current.id, id, kept);
      rows := copied;
      for k := 0 to |changed|
        invariant forall r :: r in rows <==>
          r in copied || exists f :: f in changed[..k] && r in ScannedRows(next.Of(f), id, f)
      {
        var scanned := RowsOf(next.Of(changed[k]), id, changed[k]);
        assert changed[..k + 1] == changed[..k] + [changed[k]];
        rows := rows + scanned;
      }
      assert changed[..|changed|] == changed;
      forall r ensures r in rows <==> r in NextRows(index, current, next, id, r.field) {
        RowByField(index, current, next, id, kept, changed, rows, r);
      }
      UnionByField(index, current, next, id, rows);
    }

    method UpdateContent(p: Patch, accessible: set<MemberId>) returns (error: Option<UpdateError>)
      requires versions != []
      modifies this
      ensures Current(old(versions)).state == Removed ==> error == Some(NotFound)
      ensures Current(old(versions)).state == Published ==>
        var before := Tables(old(versions), old(index));
        var r := WriteUpdate(before, Current(old(versions)), p, accessible);
        && error == (if r.Ok? then None else Some(r.error))
        && Tables(versions, index) == (if r.Ok? then r.value else before)
      ensures Current(old(versions)).state == Removed ==> versions == old(versions) && index == old(index)
      // What is refused, in order, in terms of what the texts change and mention.
      ensures Current(old(versions)).state == Published ==>
        error == Answer(old(versions), old(index), Current(old(versions)), p, accessible)
      // What is stored: the patch's own parts, and otherwise what the current version has.
      ensures Current(old(versions)).state == Published && error.None? ==>
        var current := Current(old(versions));
        if Idle(current, p) then versions == old(versions)
        else
          && |versions| == |old(versions)| + 1 && old(versions) < versions
          && var stored := versions[|old(versions)|];
          && stored.state == Published && stored.no == current.no + 1 && stored.supersedes == Some(current.id)
          && (forall f: Field :: TextOf(stored.texts, f) == TextAfter(current.texts, p, f))
          && stored.expiresAt == (if p.expiresAt.Some? then p.expiresAt.value else current.expiresAt)
    {
      var current := Current(versions);
      if current.state == Removed {
        return Some(NotFound);
      }
      UpdateAnswers(Tables(versions, index), current, p, accessible);
      NextTexts(current, p);
      var next := Patched(current.texts, p);
      var expiresAt := Or(p.expiresAt, current.expiresAt);
      if next == current.texts && expiresAt == current.expiresAt {
        return None;
      }
      var refused := MentionError(index, current, next, |versions|, accessible);
      if refused.Some? {
        return refused;
      }
      if NumberTaken(versions, current.no + 1) {
        return Some(VersionConflict);
      }
      AcceptedUpdate(Tables(versions, index), current, p, accessible);
      InsertUpdate(current, next, expiresAt);
      return None;
    }

    method InsertUpdate(current: Version, next: Texts, expiresAt: Option<nat>)
      modifies this
      ensures Tables(versions, index) == UpdatedTables(Tables(old(versions), old(index)), current, next, expiresAt)
    {
      var rows := RowsForUpdate(current, next);
      versions, index := versions + [Version(|versions|, current.no + 1, Published, next, expiresAt, Some(current.id))],
                         index + rows;
    }

    method RemoveContent() returns (error: Option<UpdateError>)
      requires versions != []
      modifies this
      ensures error ==
        (if Current(old(versions)).state == Removed then Some(AlreadyRemoved)
         else if NumberTaken(old(versions), Current(old(versions)).no + 1) then Some(VersionConflict)
         else None)
      ensures error.Some? ==> versions == old(versions) && index == old(index)
      // What is stored holds no text.
      ensures error.None? ==>
        && |versions| == |old(versions)| + 1 && old(versions) < versions && index == old(index)
        && var current, stored := Current(old(versions)), versions[|old(versions)|];
        && stored.state == Removed && stored.no == current.no + 1 && stored.supersedes == Some(current.id)
        && stored.expiresAt.None? && forall f: Field :: TextOf(stored.texts, f).None?
      ensures error.None? ==>
        Ok(Tables(versions, index)) == WriteRemove(Tables(old(versions), old(index)), Current(old(versions)))
    {
      var current := Current(versions);
      if current.state == Removed {
        return Some(AlreadyRemoved);
      }
      if NumberTaken(versions, current.no + 1) {
        return Some(VersionConflict);
      }
      versions := versions
        + [Version(|versions|, current.no + 1, Removed, Texts(None, None, None), None, Some(current.id))];
      assert index + {} == index;
      return None;
    }
  }
}
