/**
 The refs part of a notification request fingerprint: refs trimmed, without duplicates, sorted. Refs
 count as duplicates when role, kind and id joined by NUL are the same text. Texts are compared by a
 collation, which may call different ones equal; the sort is stable.
 */
module NotificationRefs {
  import opened Common
  import opened Fingerprint
  import M = Mentions

  datatype Ref = Ref(role: Text, kind: Text, id: Text)

  datatype RefError = UnsupportedKind(kind: Text) | EmptyRole | EmptyId

  const NUL: M.CodeUnit := 0

  function Key(r: Ref): Text {
    r.role + [NUL] + r.kind + [NUL] + r.id
  }

  function TrimRef(r: Ref): Ref {
    Ref(M.Trim(r.role), r.kind, M.Trim(r.id))
  }

  function Trimmed(refs: seq<Ref>): seq<Ref> {
    seq(|refs|, i requires 0 <= i < |refs| => TrimRef(refs[i]))
  }

  /** The first complaint about a ref, in the order of the checks. */
  function Complaint(kinds: set<Text>, r: Ref): Option<RefError> {
    if r.kind !in kinds then Some(UnsupportedKind(r.kind))
    else if M.Trim(r.role) == [] then Some(EmptyRole)
    else if M.Trim(r.id) == [] then Some(EmptyId)
    else None
  }

  function FirstComplaint(kinds: set<Text>, refs: seq<Ref>): Option<RefError> {
    if refs == [] then None
    else
      var first := FirstComplaint(kinds, refs[..|refs| - 1]);
      if first.Some? then first else Complaint(kinds, refs[|refs| - 1])
  }

  // ---- Duplicates ---------------------------------------------------------------------------------

  /** An insertion-ordered map under `Key`: an entry keeps its place and takes the new value. */
  function Put(entries: seq<Ref>, r: Ref): seq<Ref> {
    if entries == [] then [r]
    else if Key(entries[0]) == Key(r) then [r] + entries[1..]
    else [entries[0]] + Put(entries[1..], r)
  }

  function Deduped(refs: seq<Ref>): seq<Ref> {
    if refs == [] then [] else Put(Deduped(refs[..|refs| - 1]), refs[|refs| - 1])
  }

  function RefOrder(less: (Text, Text) -> bool): (Ref, Ref) -> bool {
    (a: Ref, b: Ref) =>
      if a.role != b.role then less(a.role, b.role)
      else if a.kind != b.kind then less(a.kind, b.kind)
      else less(a.id, b.id)
  }

  function Normalized(kinds: set<Text>, less: (Text, Text) -> bool, refs: seq<Ref>): Result<seq<Ref>, RefError> {
    if FirstComplaint(kinds, refs).Some? then Err(FirstComplaint(kinds, refs).value)
    else Ok(Sort(RefOrder(less), Deduped(Trimmed(refs))))
  }

  method NormalizeRefs(kinds: set<Text>, less: (Text, Text) -> bool, refs: seq<Ref>)
    returns (r: Result<seq<Ref>, RefError>)
    ensures r == Normalized(kinds, less, refs)
  {
    var deduped: seq<Ref> := [];
    for k := 0 to |refs|
      invariant FirstComplaint(kinds, refs[..k]).None?
      invariant deduped == Deduped(Trimmed(refs[..k]))
    {
      assert refs[..k + 1][..k] == refs[..k];
      assert Trimmed(refs[..k + 1])[..k] == Trimmed(refs[..k]);
      var complaint := Complaint(kinds, refs[k]);
      if complaint.Some? {
        ComplaintStays(kinds, refs, k + 1);
        return Err(complaint.value);
      }
      deduped := Put(deduped, TrimRef(refs[k]));
    }
    assert refs[..|refs|] == refs;
    return Ok(Sort(RefOrder(less), deduped));
  }

  /** The ref is of a supported kind and its role and id are not just white space. */
  predicate Usable(kinds: set<Text>, r: Ref) {
    r.kind in kinds && !M.AllSpace(r.role) && !M.AllSpace(r.id)
  }

  /** All refs before the one at `i` can be used, and `e` says why that one cannot. */
  predicate IsComplaint(kinds: set<Text>, refs: seq<Ref>, i: nat, e: RefError)
    requires i < |refs|
  {
    && (forall k :: 0 <= k < i ==> Usable(kinds, refs[k]))
    && match e
       case UnsupportedKind(kind) => kind == refs[i].kind && kind !in kinds
       case EmptyRole => refs[i].kind in kinds && M.AllSpace(refs[i].role)
       case EmptyId => refs[i].kind in kinds && !M.AllSpace(refs[i].role) && M.AllSpace(refs[i].id)
  }

  /** `x` is the trimmed ref at `i`, and no later one has the same key. */
  predicate IsLatest(refs: seq<Ref>, i: nat, x: Ref)
    requires i < |refs|
  {
    && x == Ref(M.Trim(refs[i].role), refs[i].kind, M.Trim(refs[i].id))
    && forall k :: i < k < |refs| ==> Key(TrimRef(refs[k])) != Key(x)
  }

  lemma UsableMeans(kinds: set<Text>, r: Ref)
    ensures Usable(kinds, r) <==> Complaint(kinds, r).None?
    ensures M.AllSpace(r.role) <==> M.Trim(r.role) == []
    ensures M.AllSpace(r.id) <==> M.Trim(r.id) == []
  {
    M.TrimEmptiesSpace(r.role);
    M.TrimEmptiesSpace(r.id);
  }

  lemma {:induction false} FirstComplaintMeans(kinds: set<Text>, refs: seq<Ref>)
    ensures FirstComplaint(kinds, refs).Some? <==> exists i :: 0 <= i < |refs| && !Usable(kinds, refs[i])
    ensures FirstComplaint(kinds, refs).Some? ==>
      exists i :: 0 <= i < |refs| && IsComplaint(kinds, refs, i, FirstComplaint(kinds, refs).value)
  {
    if refs != [] {
      var n := |refs| - 1;
      var front := refs[..n];
      FirstComplaintMeans(kinds, front);
      UsableMeans(kinds, refs[n]);
      if FirstComplaint(kinds, front).Some? {
        var e := FirstComplaint(kinds, front).value;
        var i :| 0 <= i < |front| && IsComplaint(kinds, front, i, e);
        assert IsComplaint(kinds, refs, i, e);
        var k :| 0 <= k < |front| && !Usable(kinds, front[k]);
        assert !Usable(kinds, refs[k]);
      } else {
        assert forall k :: 0 <= k < n ==> refs[k] == front[k] && Usable(kinds, front[k]);
        if FirstComplaint(kinds, refs).Some? {
          assert IsComplaint(kinds, refs, n, FirstComplaint(kinds, refs).value);
        }
      }
    }
  }

  lemma {:induction false} LatestMeans(refs: seq<Ref>, x: Ref)
    ensures Latest(Trimmed(refs), x) <==> exists i :: 0 <= i < |refs| && IsLatest(refs, i, x)
  {
    if refs != [] {
      var n := |refs| - 1;
      LatestMeans(refs[..n], x);
      LatestInFront(refs, x);
      LatestUnfolds(Trimmed(refs), Trimmed(refs[..n]), x);
    }
  }

  lemma LatestUnfolds(ts: seq<Ref>, front: seq<Ref>, x: Ref)
    requires ts != [] && front == ts[..|ts| - 1]
    ensures Latest(ts, x) <==> ts[|ts| - 1] == x || (Key(ts[|ts| - 1]) != Key(x) && Latest(front, x))
  {
  }

  /** The last place of a trimmed ref is the end, or in front of it if the end has another key. */
  lemma LatestInFront(refs: seq<Ref>, x: Ref)
    requires refs != []
    ensures var n := |refs| - 1;
      (exists i :: 0 <= i < |refs| && IsLatest(refs, i, x)) <==>
        || TrimRef(refs[n]) == x
        || (Key(TrimRef(refs[n])) != Key(x) && exists i :: 0 <= i < n && IsLatest(refs[..n], i, x))
  {
    var n := |refs| - 1;
    forall i | 0 <= i < n
      ensures IsLatest(refs, i, x) <==> Key(TrimRef(refs[n])) != Key(x) && IsLatest(refs[..n], i, x)
    {
      LatestNext(refs, i, x);
    }
    assert IsLatest(refs, n, x) <==> TrimRef(refs[n]) == x;
  }

  lemma LatestNext(refs: seq<Ref>, i: nat, x: Ref)
    requires i < |refs| - 1
    ensures var n := |refs| - 1;
      IsLatest(refs, i, x) <==> Key(TrimRef(refs[n])) != Key(x) && IsLatest(refs[..n], i, x)
  {
    var front := refs[..|refs| - 1];
    if IsLatest(front, i, x) && Key(TrimRef(refs[|refs| - 1])) != Key(x) {
      forall k | i < k < |refs| ensures Key(TrimRef(refs[k])) != Key(x) {
        assert k < |front| ==> refs[k] == front[k];
      }
    }
    if IsLatest(refs, i, x) {
      forall k | i < k < |front| ensures Key(TrimRef(front[k])) != Key(x) {
        assert refs[k] == front[k];
      }
    }
  }

  /**
   The first ref that cannot be used is complained about: its kind, then its role, then its id. Otherwise what is
   left are the trimmed refs, of those with one key the last, and each once.
   */
  lemma NormalFormMeans(kinds: set<Text>, less: (Text, Text) -> bool, refs: seq<Ref>)
    ensures var r := Normalized(kinds, less, refs);
      && (r.Err? <==> exists i :: 0 <= i < |refs| && !Usable(kinds, refs[i]))
      && (r.Err? ==> exists i :: 0 <= i < |refs| && IsComplaint(kinds, refs, i, r.error))
      && (r.Ok? ==> forall x :: x in r.value <==> exists i :: 0 <= i < |refs| && IsLatest(refs, i, x))
      && (r.Ok? ==> forall i, j :: 0 <= i < j < |r.value| ==> r.value[i] != r.value[j])
  {
    FirstComplaintMeans(kinds, refs);
    var entries := Deduped(Trimmed(refs));
    DedupedRefs(Trimmed(refs));
    SortPermutes(RefOrder(less), entries);
    forall x ensures x in entries <==> exists i :: 0 <= i < |refs| && IsLatest(refs, i, x) {
      LatestMeans(refs, x);
    }
    DistinctSorted(entries, Sort(RefOrder(less), entries));
  }

  /** Another order of different entries holds each of them once. */
  lemma DistinctSorted(entries: seq<Ref>, sorted: seq<Ref>)
    requires DistinctRefs(entries) && multiset(sorted) == multiset(entries)
    ensures forall x :: x in sorted <==> x in entries
    ensures forall i, j :: 0 <= i < j < |sorted| ==> sorted[i] != sorted[j]
  {
    assert forall x :: x in sorted <==> x in multiset(sorted);
    assert forall x :: x in entries <==> x in multiset(entries);
    forall i, j | 0 <= i < j < |sorted| ensures sorted[i] != sorted[j] {
      if sorted[i] == sorted[j] {
        TwiceIn(sorted, i, j);
        OnceIn(entries, sorted[i]);
      }
    }
  }

  lemma TwiceIn(refs: seq<Ref>, i: nat, j: nat)
    requires i < j < |refs| && refs[i] == refs[j]
    ensures multiset(refs)[refs[i]] > 1
  {
    assert refs == refs[..j] + [refs[j]] + refs[j + 1..];
    assert refs[..j] == refs[..i] + [refs[i]] + refs[i + 1..j];
  }

  lemma {:induction false} OnceIn(refs: seq<Ref>, x: Ref)
    requires DistinctRefs(refs)
    ensures multiset(refs)[x] <= 1
  {
    if refs != [] {
      var n := |refs| - 1;
      OnceIn(refs[..n], x);
      assert refs == refs[..n] + [refs[n]];
      assert refs[n] !in refs[..n] by {
        assert forall i :: 0 <= i < n ==> Key(refs[i]) != Key(refs[n]);
      }
    }
  }

  lemma {:induction false} ComplaintStays(kinds: set<Text>, refs: seq<Ref>, k: nat)
    requires k <= |refs| && FirstComplaint(kinds, refs[..k]).Some?
    ensures FirstComplaint(kinds, refs) == FirstComplaint(kinds, refs[..k])
  {
    if k < |refs| {
      assert refs[..|refs| - 1][..k] == refs[..k];
      ComplaintStays(kinds, refs[..|refs| - 1], k);
    } else {
      assert refs[..k] == refs;
    }
  }

  predicate DistinctRefs(entries: seq<Ref>) {
    forall i, j :: 0 <= i < j < |entries| ==> Key(entries[i]) != Key(entries[j])
  }

  lemma {:induction false} PutEntries(entries: seq<Ref>, r: Ref)
    requires DistinctRefs(entries)
    ensures DistinctRefs(Put(entries, r))
    ensures forall x :: x in Put(entries, r) <==> x == r || (x in entries && Key(x) != Key(r))
  {
    if entries != [] {
      var first, rest := entries[0], entries[1..];
      assert forall x :: x in entries <==> x == first || x in rest;
      forall x | x in rest ensures Key(x) != Key(first) {
        var i :| 0 <= i < |rest| && rest[i] == x;
        assert entries[i + 1] == x;
      }
      if Key(first) != Key(r) {
        PutEntries(rest, r);
        var put := Put(rest, r);
        forall j | 0 <= j < |put| ensures Key(put[j]) != Key(first) {
          assert put[j] in put;
        }
      }
    }
  }

  /** `r` is the last of the refs under its key. */
  predicate Latest(refs: seq<Ref>, r: Ref) {
    refs != []
    && (refs[|refs| - 1] == r || (Key(refs[|refs| - 1]) != Key(r) && Latest(refs[..|refs| - 1], r)))
  }

  lemma {:induction false} DedupedRefs(refs: seq<Ref>)
    ensures DistinctRefs(Deduped(refs))
    ensures forall r :: r in Deduped(refs) <==> Latest(refs, r)
  {
    if refs != [] {
      DedupedRefs(refs[..|refs| - 1]);
      PutEntries(Deduped(refs[..|refs| - 1]), refs[|refs| - 1]);
    }
  }

  /** Two refs that share a key are the same ref. */
  predicate NoClash(refs: seq<Ref>) {
    forall i, j :: 0 <= i < |refs| && 0 <= j < |refs| && Key(refs[i]) == Key(refs[j]) ==> refs[i] == refs[j]
  }

  lemma {:induction false} LatestOf(refs: seq<Ref>, r: Ref)
    ensures Latest(refs, r) ==> r in refs
    ensures NoClash(refs) && r in refs ==> Latest(refs, r)
  {
    if refs != [] {
      var front, last := refs[..|refs| - 1], refs[|refs| - 1];
      assert refs == front + [last];
      LatestOf(front, r);
      if NoClash(refs) && r in refs && last != r {
        var i :| 0 <= i < |refs| && refs[i] == r;
        assert Key(refs[i]) != Key(refs[|refs| - 1]);
        assert r in front;
      }
    }
  }

  /** Any two different refs are ordered, one way or the other. */
  predicate AllOrdered(less: (Text, Text) -> bool, refs: seq<Ref>) {
    forall i, j :: 0 <= i < |refs| && 0 <= j < |refs| && refs[i] != refs[j] ==>
      RefOrder(less)(refs[i], refs[j]) || RefOrder(less)(refs[j], refs[i])
  }

  lemma SortedRefs(less: (Text, Text) -> bool, refs: seq<Ref>)
    requires StrictOrder(less) && AllOrdered(less, refs)
    ensures StrictOrder(RefOrder(less)) && Sorted(RefOrder(less), Sort(RefOrder(less), Deduped(refs)))
  {
    RefOrderIsStrict(less);
    DedupedRefs(refs);
    var entries := Deduped(refs);
    forall i, j | 0 <= i < j < |entries|
      ensures RefOrder(less)(entries[i], entries[j]) || RefOrder(less)(entries[j], entries[i])
    {
      assert Key(entries[i]) != Key(entries[j]);
      LatestOf(refs, entries[i]);
      LatestOf(refs, entries[j]);
      assert entries[i] in refs && entries[j] in refs;
    }
    SortSorts(RefOrder(less), entries);
  }

  lemma RefOrderIsStrict(less: (Text, Text) -> bool)
    requires StrictOrder(less)
    ensures StrictOrder(RefOrder(less))
  {
    var before := RefOrder(less);
    forall x ensures !before(x, x) {
      assert !less(x.id, x.id);
    }
    forall x, y, z | before(x, y) && before(y, z) ensures before(x, z) {
      RefOrderTransitive(less, x, y, z);
    }
  }

  lemma RefOrderTransitive(less: (Text, Text) -> bool, x: Ref, y: Ref, z: Ref)
    requires StrictOrder(less) && RefOrder(less)(x, y) && RefOrder(less)(y, z)
    ensures RefOrder(less)(x, z)
  {
    assert !(less(x.role, y.role) && less(y.role, x.role)) && !(less(x.kind, y.kind) && less(y.kind, x.kind));
  }

  // ---- The normal form and the set of refs ----------------------------------------------------------------

  ghost predicate SameElements(ts: seq<Ref>, us: seq<Ref>) {
    forall r :: r in ts <==> r in us
  }

  lemma DedupedElements(ts: seq<Ref>)
    requires NoClash(ts)
    ensures SameElements(Deduped(ts), ts)
  {
    DedupedRefs(ts);
    forall r ensures r in Deduped(ts) <==> r in ts {
      LatestOf(ts, r);
    }
  }

  lemma NoClashByElements(ts: seq<Ref>, us: seq<Ref>)
    requires NoClash(ts) && SameElements(ts, us)
    ensures NoClash(us)
  {
    forall i, j | 0 <= i < |us| && 0 <= j < |us| && Key(us[i]) == Key(us[j]) ensures us[i] == us[j] {
      assert us[i] in ts && us[j] in ts;
    }
  }

  lemma AllOrderedByElements(less: (Text, Text) -> bool, ts: seq<Ref>, us: seq<Ref>)
    requires AllOrdered(less, ts) && SameElements(ts, us)
    ensures AllOrdered(less, us)
  {
    forall i, j | 0 <= i < |us| && 0 <= j < |us| && us[i] != us[j]
      ensures RefOrder(less)(us[i], us[j]) || RefOrder(less)(us[j], us[i])
    {
      assert us[i] in ts && us[j] in ts;
    }
  }

  lemma SortedByElements(less: (Text, Text) -> bool, ts: seq<Ref>, us: seq<Ref>)
    requires StrictOrder(less) && NoClash(ts) && AllOrdered(less, ts) && SameElements(ts, us)
    ensures Sort(RefOrder(less), Deduped(ts)) == Sort(RefOrder(less), Deduped(us))
  {
    NoClashByElements(ts, us);
    AllOrderedByElements(less, ts, us);
    DedupedElements(ts);
    DedupedElements(us);
    SortedRefs(less, ts);
    SortedRefs(less, us);
    SortedUnique(RefOrder(less), Sort(RefOrder(less), Deduped(ts)), Sort(RefOrder(less), Deduped(us)));
  }

  /** Any acceptable list with the same trimmed refs, in any order and with any repetition, has the same normal form. */
  ghost predicate SetDetermines(kinds: set<Text>, less: (Text, Text) -> bool, refs: seq<Ref>) {
    forall others: seq<Ref> {:trigger Trimmed(others)} ::
      FirstComplaint(kinds, others).None? && SameElements(Trimmed(refs), Trimmed(others)) ==>
        Normalized(kinds, less, refs) == Normalized(kinds, less, others)
  }

  predicate Reordered(refs: seq<Ref>, others: seq<Ref>) {
    multiset(refs) == multiset(others)
  }

  /** The same refs in any other order have the same normal form. */
  ghost predicate OrderIsHidden(kinds: set<Text>, less: (Text, Text) -> bool, refs: seq<Ref>) {
    forall others: seq<Ref> :: Reordered(refs, others) ==>
      Normalized(kinds, less, refs) == Normalized(kinds, less, others)
  }

  lemma ReorderedElements(kinds: set<Text>, refs: seq<Ref>, others: seq<Ref>)
    requires Reordered(refs, others) && FirstComplaint(kinds, refs).None?
    ensures FirstComplaint(kinds, others).None? && SameElements(Trimmed(refs), Trimmed(others))
  {
    NoComplaintIff(kinds, refs);
    NoComplaintIff(kinds, others);
    assert forall r :: r in refs <==> r in multiset(refs);
    assert forall r :: r in others <==> r in multiset(others);
    TrimmedElements(refs, others);
    TrimmedElements(others, refs);
  }

  lemma TrimmedElements(refs: seq<Ref>, others: seq<Ref>)
    requires forall r :: r in refs ==> r in others
    ensures forall r :: r in Trimmed(refs) ==> r in Trimmed(others)
  {
    forall r | r in Trimmed(refs) ensures r in Trimmed(others) {
      var i :| 0 <= i < |refs| && TrimRef(refs[i]) == r;
      assert refs[i] in refs;
      var j :| 0 <= j < |others| && others[j] == refs[i];
      assert Trimmed(others)[j] == r;
    }
  }

  lemma SetHidesOrder(kinds: set<Text>, less: (Text, Text) -> bool, refs: seq<Ref>)
    requires FirstComplaint(kinds, refs).None? && SetDetermines(kinds, less, refs)
    ensures OrderIsHidden(kinds, less, refs)
  {
    forall others: seq<Ref> | Reordered(refs, others)
      ensures Normalized(kinds, less, refs) == Normalized(kinds, less, others)
    {
      ReorderedElements(kinds, refs, others);
    }
  }

  function ToEnd(refs: seq<Ref>, i: nat): seq<Ref>
    requires i < |refs|
  {
    refs[..i] + refs[i + 1..] + [refs[i]]
  }

  function ToFront(refs: seq<Ref>, i: nat): seq<Ref>
    requires i < |refs|
  {
    [refs[i]] + refs[..i] + refs[i + 1..]
  }

  lemma MovedIsReordered(refs: seq<Ref>, i: nat)
    requires i < |refs|
    ensures Reordered(refs, ToEnd(refs, i)) && Reordered(refs, ToFront(refs, i))
  {
    assert refs == refs[..i] + [refs[i]] + refs[i + 1..];
  }

  /** Of two clashing refs the one moved to the end is in the normal form, and the other is not. */
  lemma LastOneWins(kinds: set<Text>, less: (Text, Text) -> bool, refs: seq<Ref>, i: nat, j: nat)
    requires FirstComplaint(kinds, refs).None? && i < |refs| && j < |refs|
    requires Key(TrimRef(refs[i])) == Key(TrimRef(refs[j])) && TrimRef(refs[i]) != TrimRef(refs[j])
    ensures Normalized(kinds, less, ToEnd(refs, i)).Ok?
    ensures TrimRef(refs[i]) in Normalized(kinds, less, ToEnd(refs, i)).value
    ensures TrimRef(refs[j]) !in Normalized(kinds, less, ToEnd(refs, i)).value
  {
    var ts := Trimmed(ToEnd(refs, i));
    MovedIsReordered(refs, i);
    ReorderedElements(kinds, refs, ToEnd(refs, i));
    DedupedRefs(ts);
    assert ts[|ts| - 1] == TrimRef(refs[i]);
    assert Latest(ts, TrimRef(refs[i])) && !Latest(ts, TrimRef(refs[j]));
  }

  lemma TwoNormalForms(kinds: set<Text>, less: (Text, Text) -> bool, refs: seq<Ref>, one: seq<Ref>, other: seq<Ref>)
    requires Reordered(refs, one) && Reordered(refs, other)
    requires Normalized(kinds, less, one) != Normalized(kinds, less, other)
    ensures !OrderIsHidden(kinds, less, refs)
  {
  }

  lemma ClashMatters(kinds: set<Text>, less: (Text, Text) -> bool, refs: seq<Ref>, i: nat, j: nat)
    requires FirstComplaint(kinds, refs).None? && i < |refs| && j < |refs|
    requires Key(TrimRef(refs[i])) == Key(TrimRef(refs[j])) && TrimRef(refs[i]) != TrimRef(refs[j])
    ensures !OrderIsHidden(kinds, less, refs)
  {
    LastOneWins(kinds, less, refs, i, j);
    LastOneWins(kinds, less, refs, j, i);
    MovedIsReordered(refs, i);
    MovedIsReordered(refs, j);
    TwoNormalForms(kinds, less, refs, ToEnd(refs, i), ToEnd(refs, j));
  }

  lemma NoClashAndOrderSuffice(kinds: set<Text>, less: (Text, Text) -> bool, refs: seq<Ref>)
    requires StrictOrder(less) && FirstComplaint(kinds, refs).None?
    requires NoClash(Trimmed(refs)) && AllOrdered(less, Trimmed(refs))
    ensures SetDetermines(kinds, less, refs)
  {
    forall others: seq<Ref> {:trigger Trimmed(others)}
      | FirstComplaint(kinds, others).None? && SameElements(Trimmed(refs), Trimmed(others))
      ensures Normalized(kinds, less, refs) == Normalized(kinds, less, others)
    {
      SortedByElements(less, Trimmed(refs), Trimmed(others));
    }
  }

  // ---- Refs that are not ordered ----------------------------------------------------------------------------

  /** Which of two refs comes first. */
  function FirstOf(refs: seq<Ref>, r: Ref, q: Ref): Option<Ref> {
    if refs == [] then None else if refs[0] == r || refs[0] == q then Some(refs[0]) else FirstOf(refs[1..], r, q)
  }

  /** A ref put in front of a sorted list stays in front of one that it is not ordered with. */
  lemma {:induction false} InsertKeepsFirst(before: (Ref, Ref) -> bool, refs: seq<Ref>, r: Ref, q: Ref)
    requires !before(r, r) && !before(q, r)
    ensures FirstOf(Insert(before, r, refs), r, q) == Some(r)
  {
    if refs != [] && before(refs[0], r) {
      InsertKeepsFirst(before, refs[1..], r, q);
      assert ([refs[0]] + Insert(before, r, refs[1..]))[1..] == Insert(before, r, refs[1..]);
    }
  }

  lemma PutKeepsHead(entries: seq<Ref>, r: Ref)
    requires entries != [] && (Key(entries[0]) == Key(r) ==> entries[0] == r)
    ensures Put(entries, r) != [] && Put(entries, r)[0] == entries[0]
  {
  }

  lemma {:induction false} DedupedHead(refs: seq<Ref>)
    requires refs != [] && NoClash(refs)
    ensures Deduped(refs) != [] && Deduped(refs)[0] == refs[0]
  {
    if |refs| > 1 {
      var front := refs[..|refs| - 1];
      DedupedHead(front);
      PutKeepsHead(Deduped(front), refs[|refs| - 1]);
    } else {
      assert refs[..0] == [];
    }
  }

  lemma HeadComesFirst(less: (Text, Text) -> bool, refs: seq<Ref>, q: Ref)
    requires StrictOrder(less) && refs != [] && NoClash(refs) && !RefOrder(less)(q, refs[0])
    ensures FirstOf(Sort(RefOrder(less), Deduped(refs)), refs[0], q) == Some(refs[0])
  {
    DedupedHead(refs);
    RefOrderIsStrict(less);
    InsertKeepsFirst(RefOrder(less), Sort(RefOrder(less), Deduped(refs)[1..]), refs[0], q);
  }

  /** Of two refs that do not clash and are not ordered, the one moved to the front comes first in the normal form. */
  lemma FrontComesFirst(kinds: set<Text>, less: (Text, Text) -> bool, refs: seq<Ref>, i: nat, j: nat)
    requires StrictOrder(less) && FirstComplaint(kinds, refs).None? && NoClash(Trimmed(refs))
    requires i < |refs| && j < |refs| && !RefOrder(less)(TrimRef(refs[j]), TrimRef(refs[i]))
    ensures Normalized(kinds, less, ToFront(refs, i)).Ok?
    ensures FirstOf(Normalized(kinds, less, ToFront(refs, i)).value, TrimRef(refs[i]), TrimRef(refs[j]))
      == Some(TrimRef(refs[i]))
  {
    var again := ToFront(refs, i);
    MovedIsReordered(refs, i);
    ReorderedElements(kinds, refs, again);
    NoClashByElements(Trimmed(refs), Trimmed(again));
    assert Trimmed(again)[0] == TrimRef(refs[i]);
    HeadComesFirst(less, Trimmed(again), TrimRef(refs[j]));
  }

  lemma TieMatters(kinds: set<Text>, less: (Text, Text) -> bool, refs: seq<Ref>, i: nat, j: nat)
    requires StrictOrder(less) && FirstComplaint(kinds, refs).None? && NoClash(Trimmed(refs))
    requires i < |refs| && j < |refs| && TrimRef(refs[i]) != TrimRef(refs[j])
    requires !RefOrder(less)(TrimRef(refs[i]), TrimRef(refs[j])) && !RefOrder(less)(TrimRef(refs[j]), TrimRef(refs[i]))
    ensures !OrderIsHidden(kinds, less, refs)
  {
    var one, other := ToFront(refs, i), ToFront(refs, j);
    FrontComesFirst(kinds, less, refs, i, j);
    FrontComesFirst(kinds, less, refs, j, i);
    FirstOfSymmetric(Normalized(kinds, less, other).value, TrimRef(refs[i]), TrimRef(refs[j]));
    MovedIsReordered(refs, i);
    MovedIsReordered(refs, j);
    TwoNormalForms(kinds, less, refs, one, other);
  }

  lemma {:induction false} FirstOfSymmetric(refs: seq<Ref>, r: Ref, q: Ref)
    ensures FirstOf(refs, r, q) == FirstOf(refs, q, r)
  {
    if refs != [] {
      FirstOfSymmetric(refs[1..], r, q);
    }
  }

  lemma OrderShows(kinds: set<Text>, less: (Text, Text) -> bool, refs: seq<Ref>)
    requires StrictOrder(less) && FirstComplaint(kinds, refs).None?
    requires !NoClash(Trimmed(refs)) || !AllOrdered(less, Trimmed(refs))
    ensures !OrderIsHidden(kinds, less, refs)
  {
    var ts := Trimmed(refs);
    if !NoClash(ts) {
      var i, j :| 0 <= i < |ts| && 0 <= j < |ts| && Key(ts[i]) == Key(ts[j]) && ts[i] != ts[j];
      ClashMatters(kinds, less, refs, i, j);
    } else {
      var i, j :| 0 <= i < |ts| && 0 <= j < |ts| && ts[i] != ts[j]
        && !RefOrder(less)(ts[i], ts[j]) && !RefOrder(less)(ts[j], ts[i]);
      TieMatters(kinds, less, refs, i, j);
    }
  }

  /**
   The normal form depends only on the set of trimmed refs exactly if no two different ones share a key and
   any two different ones are ordered; and otherwise it already depends on the order of the refs. A collation
   that calls different texts equal leaves refs unordered.
   */
  lemma DependsOnSetIff(kinds: set<Text>, less: (Text, Text) -> bool, refs: seq<Ref>)
    requires StrictOrder(less) && FirstComplaint(kinds, refs).None?
    ensures SetDetermines(kinds, less, refs) <==> NoClash(Trimmed(refs)) && AllOrdered(less, Trimmed(refs))
    ensures OrderIsHidden(kinds, less, refs) <==> NoClash(Trimmed(refs)) && AllOrdered(less, Trimmed(refs))
  {
    if SetDetermines(kinds, less, refs) {
      SetHidesOrder(kinds, less, refs);
    }
    if NoClash(Trimmed(refs)) && AllOrdered(less, Trimmed(refs)) {
      NoClashAndOrderSuffice(kinds, less, refs);
    } else {
      OrderShows(kinds, less, refs);
    }
  }

  /** Under a total order of texts all that counts is that no two different refs share a key. */
  lemma DependsOnSetIffNoClash(kinds: set<Text>, less: (Text, Text) -> bool, refs: seq<Ref>)
    requires StrictTotalOrder(less) && FirstComplaint(kinds, refs).None?
    ensures SetDetermines(kinds, less, refs) <==> NoClash(Trimmed(refs))
  {
    forall r: Ref, q: Ref | r != q ensures RefOrder(less)(r, q) || RefOrder(less)(q, r) {
      assert r.role != q.role || r.kind != q.kind || r.id != q.id;
    }
    assert AllOrdered(less, Trimmed(refs));
    DependsOnSetIff(kinds, less, refs);
  }

  lemma {:induction false} NoComplaintIff(kinds: set<Text>, refs: seq<Ref>)
    ensures FirstComplaint(kinds, refs).None? <==> forall r :: r in refs ==> Complaint(kinds, r).None?
  {
    if refs != [] {
      NoComplaintIff(kinds, refs[..|refs| - 1]);
      assert refs == refs[..|refs| - 1] + [refs[|refs| - 1]];
    }
  }

  // ---- Refs without NUL do not clash ---------------------------------------------------------------------------

  predicate NulFree(r: Ref) {
    NUL !in r.role && NUL !in r.kind && NUL !in r.id
  }

  lemma NulFreeNoClash(refs: seq<Ref>)
    requires forall i :: 0 <= i < |refs| ==> NulFree(refs[i])
    ensures NoClash(refs)
  {
    forall i, j | 0 <= i < |refs| && 0 <= j < |refs| && Key(refs[i]) == Key(refs[j]) ensures refs[i] == refs[j] {
      var r, q := refs[i], refs[j];
      assert Key(r) == r.role + [NUL] + (r.kind + [NUL] + r.id);
      assert Key(q) == q.role + [NUL] + (q.kind + [NUL] + q.id);
      SplitAtNul(r.role, r.kind + [NUL] + r.id, q.role, q.kind + [NUL] + q.id);
      SplitAtNul(r.kind, r.id, q.kind, q.id);
    }
  }

  lemma SplitAtNul(a: Text, rest: Text, b: Text, rest': Text)
    requires NUL !in a && NUL !in b
    requires a + [NUL] + rest == b + [NUL] + rest'
    ensures a == b && rest == rest'
  {
    var s := a + [NUL] + rest;
    assert s[|a|] == NUL && s[|b|] == NUL;
    assert forall i :: 0 <= i < |a| ==> s[i] == a[i];
    assert forall i :: 0 <= i < |b| ==> s[i] == b[i];
    assert |a| == |b|;
    assert a == s[..|a|] && b == s[..|b|];
    assert rest == s[|a| + 1..] && rest' == s[|b| + 1..];
  }

  /** Two different acceptable refs whose joined texts are both "a", "k", "b", "k", "c" with NUL between. */
  lemma RefsCanClash()
    ensures var k: Text := [0x6B];
      var refs := [Ref([0x61, NUL, 0x6B, NUL, 0x62], k, [0x63]), Ref([0x61], k, [0x62, NUL, 0x6B, NUL, 0x63])];
      FirstComplaint({k}, refs).None? && !NoClash(Trimmed(refs))
  {
    var k: Text := [0x6B];
    var r, q := Ref([0x61, NUL, 0x6B, NUL, 0x62], k, [0x63]), Ref([0x61], k, [0x62, NUL, 0x6B, NUL, 0x63]);
    var refs := [r, q];
    M.TrimTestIsTrimmed(r.role);
    M.TrimTestIsTrimmed(r.id);
    M.TrimTestIsTrimmed(q.role);
    M.TrimTestIsTrimmed(q.id);
    assert refs[..1] == [r] && [r][..0] == [];
    assert FirstComplaint({k}, [r]).None?;
    assert TrimRef(r) == r && TrimRef(q) == q;
    assert Trimmed(refs) == refs;
    var joined := [0x61, NUL, 0x6B, NUL, 0x62, NUL, 0x6B, NUL, 0x63];
    assert Key(r) == joined;
    assert Key(q) == joined;
    assert |r.role| != |q.role|;
    assert refs[0] != refs[1];
  }

  /**
   Two acceptable refs without NUL whose ids are the one and the other spelling of a letter with an acute accent.
   If the collation calls these equal, two lists of the same refs have two normal forms.
   */
  lemma SpellingsTie(less: (Text, Text) -> bool)
    requires StrictOrder(less)
    requires var one: Text := [0xE9]; var two: Text := [0x65, 0x301]; !less(one, two) && !less(two, one)
    ensures var k: Text := [0x6B];
      var r, q := Ref(k, k, [0xE9]), Ref(k, k, [0x65, 0x301]);
      && FirstComplaint({k}, [r, q]).None? && NoClash(Trimmed([r, q])) && NulFree(r) && NulFree(q)
      && Normalized({k}, less, [r, q]) == Ok([r, q]) && Normalized({k}, less, [q, r]) == Ok([q, r])
  {
    var k: Text := [0x6B];
    var r, q := Ref(k, k, [0xE9]), Ref(k, k, [0x65, 0x301]);
    assert r.id != q.id;
    M.TrimTestIsTrimmed(k);
    M.TrimTestIsTrimmed(r.id);
    M.TrimTestIsTrimmed(q.id);
    TieOfTwo(k, less, r, q);
    TieOfTwo(k, less, q, r);
  }

  lemma TieOfTwo(k: Text, less: (Text, Text) -> bool, r: Ref, q: Ref)
    requires TrimRef(r) == r && TrimRef(q) == q && r.role == r.kind == q.role == q.kind == k && k != []
    requires r.id != q.id && r.id != [] && q.id != [] && NulFree(r) && NulFree(q)
    requires !less(q.id, r.id)
    ensures FirstComplaint({k}, [r, q]).None? && NoClash(Trimmed([r, q]))
    ensures Normalized({k}, less, [r, q]) == Ok([r, q])
  {
    var refs := [r, q];
    assert refs[..1] == [r] && [r][..0] == [];
    assert FirstComplaint({k}, [r]).None?;
    assert Trimmed(refs) == refs;
    NulFreeNoClash(refs);
    assert Deduped([r]) == [r];
    assert Key(r) != Key(q) by {
      assert NoClash(refs) && refs[0] != refs[1];
    }
    assert Put([r], q) == [r, q];
    assert refs[1..] == [q] && [q][1..] == [];
    assert Sort(RefOrder(less), [q]) == [q];
  }
}
