/**
 RSVPs of one event on an append-only log, and the event's capacity. An RSVP is a serializable
 transaction: the capacity, the member's entry and the count it decides on are those of its snapshot. Two
 RSVPs of which neither sees the other cannot both commit an entry, since each counts what the other
 inserts. Cancellations and capacity edits run read committed, outside that order, and can come between a
 snapshot and its commit. No capacity means no limit.
 */
module Rsvp {
  import opened Common

  type Membership = nat
  type Caller = nat

  datatype Response = Yes | Maybe | No | Waitlist | Cancelled

  datatype Entry = Entry(
    id: nat, membership: Membership, response: Response, note: Option<string>, versionNo: nat,
    supersedes: Option<nat>)

  // ---- The current view ------------------------------------------------------------------------

  /** The entry of `m` with the greatest version number. */
  function CurrentRsvp(log: seq<Entry>, m: Membership): Option<Entry> {
    if log == [] then None
    else
      var last := log[|log| - 1];
      var before := CurrentRsvp(log[..|log| - 1], m);
      if last.membership == m && (before.None? || last.versionNo >= before.value.versionNo) then Some(last)
      else before
  }

  predicate SaysYes(log: seq<Entry>, m: Membership) {
    CurrentRsvp(log, m).Some? && CurrentRsvp(log, m).value.response == Yes
  }

  function Members(log: seq<Entry>): set<Membership> {
    set e | e in log :: e.membership
  }

  function YesMembers(log: seq<Entry>): set<Membership> {
    set m | m in Members(log) && SaysYes(log, m)
  }

  function LiveYes(log: seq<Entry>): nat {
    |YesMembers(log)|
  }

  /** "Yes" takes a seat if there is one besides those of the others, and the waiting list if not. */
  function ResolveStoredResponse(requested: Response, current: Option<Response>, liveYes: nat,
                                 capacity: Option<nat>): Response
  {
    if requested != Yes || capacity.None? then requested
    else
      var occupiedByOthers: int := liveYes - (if current == Some(Yes) then 1 else 0);
      if occupiedByOthers >= capacity.value then Waitlist else Yes
  }

  function NextEntry(log: seq<Entry>, m: Membership, response: Response, note: Option<string>): Entry {
    var current := CurrentRsvp(log, m);
    Entry(|log|, m, response, note,
          if current.Some? then current.value.versionNo + 1 else 1,
          if current.Some? then Some(current.value.id) else None)
  }

  function WriteCancel(log: seq<Entry>, m: Membership): seq<Entry> {
    var current := CurrentRsvp(log, m);
    if current.None? || current.value.response == Cancelled then log
    else log + [NextEntry(log, m, Cancelled, None)]
  }

  lemma {:induction false} CurrentIsLogged(log: seq<Entry>, m: Membership)
    ensures CurrentRsvp(log, m).Some? ==>
      CurrentRsvp(log, m).value in log && CurrentRsvp(log, m).value.membership == m && m in Members(log)
    ensures CurrentRsvp(log, m).None? ==> m !in Members(log)
  {
    if log != [] {
      var last := log[|log| - 1];
      CurrentIsLogged(log[..|log| - 1], m);
      assert log == log[..|log| - 1] + [last];
      if last.membership != m && m in Members(log) {
        var e :| e in log && e.membership == m;
        assert e in log[..|log| - 1];
      }
    }
  }

  /** Appending the next entry of a member replaces that member's view and no other. */
  lemma AppendView(log: seq<Entry>, m: Membership, response: Response, note: Option<string>, other: Membership)
    ensures var log' := log + [NextEntry(log, m, response, note)];
      CurrentRsvp(log', other)
        == if other == m then Some(NextEntry(log, m, response, note)) else CurrentRsvp(log, other)
  {
    assert (log + [NextEntry(log, m, response, note)])[..|log|] == log;
  }

  lemma YesMembersAre(log: seq<Entry>, m: Membership)
    ensures m in YesMembers(log) <==> SaysYes(log, m)
  {
    CurrentIsLogged(log, m);
  }

  lemma AppendYesMembers(log: seq<Entry>, m: Membership, response: Response, note: Option<string>)
    ensures YesMembers(log + [NextEntry(log, m, response, note)])
      == if response == Yes then YesMembers(log) + {m} else YesMembers(log) - {m}
  {
    var log' := log + [NextEntry(log, m, response, note)];
    forall x
      ensures x in YesMembers(log') <==> if x == m then response == Yes else x in YesMembers(log)
    {
      YesMembersAre(log', x);
      YesMembersAre(log, x);
      AppendView(log, m, response, note, x);
    }
  }

  predicate AtMost(n: nat, capacity: Option<nat>) {
    capacity.None? || n <= capacity.value
  }

  /** The response an RSVP decides on from a snapshot of the log and the capacity. */
  function DecidedResponse(log: seq<Entry>, capacity: Option<nat>, m: Membership, requested: Response): Response {
    var current := CurrentRsvp(log, m);
    var previous := if current.Some? then Some(current.value.response) else None;
    ResolveStoredResponse(requested, previous, LiveYes(log), capacity)
  }

  /** The members other than `m` who have a seat. */
  function SeatedOthers(log: seq<Entry>, m: Membership): set<Membership> {
    set x | x in Members(log) && x != m && SaysYes(log, x)
  }

  /** A "yes" is put on the waiting list exactly if the others take all seats; anything else is stored as it is. */
  lemma StoredResponseMeans(log: seq<Entry>, capacity: Option<nat>, m: Membership, requested: Response)
    ensures DecidedResponse(log, capacity, m, requested) ==
      if requested != Yes then requested
      else if capacity.Some? && |SeatedOthers(log, m)| >= capacity.value then Waitlist
      else Yes
  {
    YesMembersAre(log, m);
    assert YesMembers(log) == SeatedOthers(log, m) + if SaysYes(log, m) then {m} else {};
  }

  /** Only cancellations have been logged since `snapshot`. */
  predicate CancelsSince(snapshot: seq<Entry>, log: seq<Entry>) {
    snapshot <= log && forall i :: |snapshot| <= i < |log| ==> log[i].response == Cancelled
  }

  /** Cancellations only take seats away. */
  lemma {:induction false} CancelsFreeSeats(snapshot: seq<Entry>, log: seq<Entry>, m: Membership)
    requires CancelsSince(snapshot, log) && SaysYes(log, m)
    ensures SaysYes(snapshot, m)
  {
    if |snapshot| < |log| {
      assert snapshot <= log[..|log| - 1];
      CancelsFreeSeats(snapshot, log[..|log| - 1], m);
    } else {
      assert log == snapshot;
    }
  }

  /**
   An RSVP decided on a snapshot, and committed after cancellations only, ends within the capacity of its
   snapshot or does not raise the number of seats taken.
   */
  lemma RsvpStaysWithinCapacity(snapshot: seq<Entry>, log: seq<Entry>, capacity: Option<nat>, m: Membership,
                                requested: Response, note: Option<string>)
    requires CancelsSince(snapshot, log)
    ensures var after := LiveYes(log + [NextEntry(log, m, DecidedResponse(snapshot, capacity, m, requested), note)]);
      AtMost(after, capacity) || after <= LiveYes(log)
  {
    var response := DecidedResponse(snapshot, capacity, m, requested);
    AppendYesMembers(log, m, response, note);
    AddedSeat(YesMembers(log), m);
    if response == Yes && capacity.Some? {
      YesMembersAre(snapshot, m);
      forall x | x in YesMembers(log) + {m} ensures x in YesMembers(snapshot) + {m} {
        if x != m {
          YesMembersAre(log, x);
          CancelsFreeSeats(snapshot, log, x);
          YesMembersAre(snapshot, x);
        }
      }
      SubsetSize(YesMembers(log) + {m}, YesMembers(snapshot) + {m});
      AddedSeat(YesMembers(snapshot), m);
    }
  }

  lemma SubsetSize(a: set<Membership>, b: set<Membership>)
    requires a <= b
    ensures |a| <= |b|
  {
    assert b == a + (b - a);
  }

  lemma AddedSeat(members: set<Membership>, m: Membership)
    ensures |members + {m}| == |members| + (if m in members then 0 else 1)
    ensures |members - {m}| <= |members|
  {
    if m in members {
      assert members + {m} == members;
    }
  }

  function WriteRsvp(log: seq<Entry>, capacity: Option<nat>, m: Membership, requested: Response,
                     note: Option<string>): seq<Entry>
  {
    CommitDecided(log, log, capacity, m, requested, note)
  }

  /** The stored response and note are those the member has already. */
  predicate NothingNew(log: seq<Entry>, m: Membership, response: Response, note: Option<string>) {
    var current := CurrentRsvp(log, m);
    current.Some? && current.value.response == response && current.value.note == note
  }

  /**
   The log after an RSVP that decided on `snapshot` commits on `log`. It fails, and leaves the log alone, if
   another RSVP has committed an entry since, or the member's next version number is taken.
   */
  function CommitDecided(snapshot: seq<Entry>, log: seq<Entry>, capacity: Option<nat>, m: Membership,
                         requested: Response, note: Option<string>): seq<Entry>
  {
    var response := DecidedResponse(snapshot, capacity, m, requested);
    if NothingNew(snapshot, m, response, note) then log
    else if CancelsSince(snapshot, log) && CurrentRsvp(log, m) == CurrentRsvp(snapshot, m) then
      log + [NextEntry(log, m, response, note)]
    else log
  }

  lemma CancelNeverRaises(log: seq<Entry>, m: Membership)
    ensures LiveYes(WriteCancel(log, m)) <= LiveYes(log)
  {
    AppendYesMembers(log, m, Cancelled, None);
  }

  // ---- Runs ------------------------------------------------------------------------------------------

  datatype Snapshot = Snapshot(log: seq<Entry>, capacity: Option<nat>)

  /** `reading` holds the snapshot of each open RSVP transaction. */
  datatype State = State(log: seq<Entry>, capacity: Option<nat>, reading: map<Caller, Snapshot>)

  datatype Event =
    | TakeSnapshot(caller: Caller)
    | CommitRsvp(caller: Caller, membership: Membership, requested: Response, note: Option<string>)
    | Cancel(member: Membership)
    | SetCapacity(capacity: Option<nat>)
    | Abort(caller: Caller)

  function Apply(s: State, e: Event): State {
    match e
    case TakeSnapshot(t) =>
      if t in s.reading then s else s.(reading := s.reading[t := Snapshot(s.log, s.capacity)])
    case CommitRsvp(t, m, requested, note) =>
      if t in s.reading && requested != Cancelled then
        s.(log := CommitDecided(s.reading[t].log, s.log, s.reading[t].capacity, m, requested, note),
           reading := s.reading - {t})
      else s
    case Cancel(m) => s.(log := WriteCancel(s.log, m))
    case SetCapacity(c) => s.(capacity := c)
    case Abort(t) => s.(reading := s.reading - {t})
  }

  function Run(capacity: Option<nat>, es: seq<Event>): State {
    if es == [] then State([], capacity, map[])
    else Apply(Run(capacity, es[..|es| - 1]), es[|es| - 1])
  }

  predicate NotBelow(c: Option<nat>, bound: Option<nat>) {
    c.None? || (bound.Some? && bound.value <= c.value)
  }

  /** No edit lowers the capacity; giving up the limit raises it. */
  ghost predicate NeverFalls(capacity: Option<nat>, es: seq<Event>) {
    forall k :: 0 <= k < |es| && es[k].SetCapacity? ==>
      NotBelow(es[k].capacity, Run(capacity, es[..k]).capacity)
  }

  lemma NeverFallsPrefix(capacity: Option<nat>, es: seq<Event>, n: nat)
    requires n <= |es| && NeverFalls(capacity, es)
    ensures NeverFalls(capacity, es[..n])
  {
    forall k | 0 <= k < n && es[..n][k].SetCapacity?
      ensures NotBelow(es[..n][k].capacity, Run(capacity, es[..n][..k]).capacity)
    {
      assert es[..n][..k] == es[..k];
    }
  }

  ghost predicate SeatsCovered(s: State) {
    && AtMost(LiveYes(s.log), s.capacity)
    && forall t :: t in s.reading ==> NotBelow(s.capacity, s.reading[t].capacity)
  }

  lemma SeatsStep(s: State, e: Event)
    requires SeatsCovered(s)
    requires e.SetCapacity? ==> NotBelow(e.capacity, s.capacity)
    ensures SeatsCovered(Apply(s, e))
  {
    match e
    case CommitRsvp(t, m, requested, note) =>
      if t in s.reading && CancelsSince(s.reading[t].log, s.log) {
        RsvpStaysWithinCapacity(s.reading[t].log, s.log, s.reading[t].capacity, m, requested, note);
      }
    case Cancel(m) => CancelNeverRaises(s.log, m);
    case _ =>
  }

  /** If capacity never falls, the seats taken never exceed it, however the steps interleave. */
  lemma {:induction false} SeatsNeverExceedCapacity(capacity: Option<nat>, es: seq<Event>)
    requires NeverFalls(capacity, es)
    ensures SeatsCovered(Run(capacity, es))
  {
    if es == [] {
      assert YesMembers([]) == {};
    } else {
      var n := |es| - 1;
      NeverFallsPrefix(capacity, es, n);
      SeatsNeverExceedCapacity(capacity, es[..n]);
      SeatsStep(Run(capacity, es[..n]), es[n]);
    }
  }

  // ---- Which steps leave too many seats taken ---------------------------------------------------------

  /** The step commits a "yes" for a member without a seat. */
  predicate TakesSeat(s: State, e: Event) {
    && e.CommitRsvp? && e.caller in s.reading
    && !SaysYes(s.log, e.membership)
    && var read := s.reading[e.caller];
    && DecidedResponse(read.log, read.capacity, e.membership, e.requested) == Yes
    && CancelsSince(read.log, s.log) && CurrentRsvp(s.log, e.membership) == CurrentRsvp(read.log, e.membership)
  }

  /** An edit below the seats taken, or an RSVP that takes a seat when all are taken. */
  predicate Overfills(s: State, e: Event) {
    || (e.SetCapacity? && !AtMost(LiveYes(s.log), e.capacity))
    || (TakesSeat(s, e) && s.capacity == Some(LiveYes(s.log)))
  }

  /** An RSVP takes one seat if it takes a seat at all, and gives none back but the member's own. */
  lemma SeatsAfterRsvp(s: State, e: Event)
    requires e.CommitRsvp?
    ensures TakesSeat(s, e) ==> LiveYes(Apply(s, e).log) == LiveYes(s.log) + 1
    ensures !TakesSeat(s, e) ==> LiveYes(Apply(s, e).log) <= LiveYes(s.log)
  {
    if e.caller in s.reading {
      var read := s.reading[e.caller];
      SeatsAfterEntry(s.log, e.membership, DecidedResponse(read.log, read.capacity, e.membership, e.requested), e.note);
    }
  }

  lemma SeatsAfterEntry(log: seq<Entry>, m: Membership, response: Response, note: Option<string>)
    ensures var after := LiveYes(log + [NextEntry(log, m, response, note)]);
      if response == Yes && !SaysYes(log, m) then after == LiveYes(log) + 1 else after <= LiveYes(log)
  {
    AppendYesMembers(log, m, response, note);
    AddedSeat(YesMembers(log), m);
    YesMembersAre(log, m);
  }

  /** From a state within its capacity, a step leaves too many seats taken exactly if it overfills. */
  lemma ExceedsIffOverfills(s: State, e: Event)
    requires AtMost(LiveYes(s.log), s.capacity)
    ensures !AtMost(LiveYes(Apply(s, e).log), Apply(s, e).capacity) <==> Overfills(s, e)
  {
    match e
    case CommitRsvp(_, _, _, _) => SeatsAfterRsvp(s, e);
    case Cancel(m) => CancelNeverRaises(s.log, m);
    case _ =>
  }

  /** An RSVP that takes a seat when all are taken had seen a greater capacity. */
  lemma OverfillingRsvpSawMore(s: State, e: Event)
    requires TakesSeat(s, e) && s.capacity == Some(LiveYes(s.log))
    ensures !NotBelow(s.capacity, s.reading[e.caller].capacity)
  {
    var read := s.reading[e.caller];
    forall m | m in YesMembers(s.log) ensures m in YesMembers(read.log) {
      YesMembersAre(s.log, m);
      CancelsFreeSeats(read.log, s.log, m);
      YesMembersAre(read.log, m);
    }
    SubsetSize(YesMembers(s.log), YesMembers(read.log));
  }

  predicate WithinAt(capacity: Option<nat>, es: seq<Event>, n: nat) {
    n <= |es| && AtMost(LiveYes(Run(capacity, es[..n]).log), Run(capacity, es[..n]).capacity)
  }

  predicate OverfillsAt(capacity: Option<nat>, es: seq<Event>, n: nat) {
    n < |es| && Overfills(Run(capacity, es[..n]), es[n])
  }

  /** The seats taken stay within the capacity of the moment throughout a run exactly if no step of it overfills. */
  lemma WithinIffNeverOverfills(capacity: Option<nat>, es: seq<Event>)
    ensures (forall n: nat :: n <= |es| ==> WithinAt(capacity, es, n))
      <==> (forall n: nat :: n < |es| ==> !OverfillsAt(capacity, es, n))
  {
    assert es[..0] == [] && YesMembers([]) == {};
    forall n: nat | n < |es| && WithinAt(capacity, es, n)
      ensures WithinAt(capacity, es, n + 1) <==> !OverfillsAt(capacity, es, n)
    {
      assert es[..n + 1][..n] == es[..n];
      ExceedsIffOverfills(Run(capacity, es[..n]), es[n]);
    }
    var good, bad := (n: nat) => WithinAt(capacity, es, n), (n: nat) => OverfillsAt(capacity, es, n);
    HoldsThroughout(|es|, good, bad);
    assert forall n: nat :: good(n) == WithinAt(capacity, es, n) && bad(n) == OverfillsAt(capacity, es, n);
  }

  /** While no open RSVP has seen a greater capacity, only lowering the capacity below the seats taken overfills. */
  lemma OnlyAFallOverfills(s: State, e: Event)
    requires SeatsCovered(s)
    ensures !AtMost(LiveYes(Apply(s, e).log), Apply(s, e).capacity)
      <==> e.SetCapacity? && !AtMost(LiveYes(s.log), e.capacity)
  {
    ExceedsIffOverfills(s, e);
    if TakesSeat(s, e) && s.capacity == Some(LiveYes(s.log)) {
      OverfillingRsvpSawMore(s, e);
    }
  }

  // ---- An RSVP that read the capacity before it fell ---------------------------------------------------

  lemma RunAppend(capacity: Option<nat>, es: seq<Event>, e: Event)
    ensures Run(capacity, es + [e]) == Apply(Run(capacity, es), e)
  {
    assert (es + [e])[..|es|] == es;
  }

  /** A member without an entry, asking for a seat when one is left, takes it. */
  lemma NewMemberTakesSeat(log: seq<Entry>, capacity: nat, m: Membership)
    requires CurrentRsvp(log, m).None? && LiveYes(log) < capacity
    ensures var after := CommitDecided(log, log, Some(capacity), m, Yes, None);
      after == log + [NextEntry(log, m, Yes, None)] && LiveYes(after) == LiveYes(log) + 1
  {
    assert CancelsSince(log, log);
    SeatsAfterEntry(log, m, Yes, None);
  }

  /** Members 0 to `n - 1` take a seat each. */
  lemma {:induction false} SeatsFill(capacity: nat, n: nat) returns (es: seq<Event>)
    requires n <= capacity
    ensures var s := Run(Some(capacity), es);
      && s == State(s.log, Some(capacity), map[]) && LiveYes(s.log) == n
      && forall m: Membership :: m >= n ==> CurrentRsvp(s.log, m).None?
  {
    if n == 0 {
      assert YesMembers([]) == {};
      return [];
    }
    var before := SeatsFill(capacity, n - 1);
    var s := Run(Some(capacity), before);
    var commit := CommitRsvp(0, n - 1, Yes, None);
    RunAppend(Some(capacity), before, TakeSnapshot(0));
    RunAppend(Some(capacity), before + [TakeSnapshot(0)], commit);
    es := before + [TakeSnapshot(0)] + [commit];
    NewMemberTakesSeat(s.log, capacity, n - 1);
    assert map[0 := Snapshot(s.log, Some(capacity))] - {0} == map[];
    forall m: Membership | m >= n ensures CurrentRsvp(Run(Some(capacity), es).log, m).None? {
      AppendView(s.log, n - 1, Yes, None, m);
    }
  }

  /**
   All seats but one are taken when an RSVP takes its snapshot; then an edit gives up that seat, which is
   within the rules; and the RSVP takes it.
   */
  lemma LateRsvpOverfills(capacity: nat) returns (es: seq<Event>, e: Event)
    ensures e.CommitRsvp?
    ensures var s := Run(Some(capacity + 1), es);
      && s.capacity == Some(capacity) && LiveYes(s.log) == capacity
      && LiveYes(Run(Some(capacity + 1), es + [e]).log) == capacity + 1
      && Run(Some(capacity + 1), es + [e]).capacity == Some(capacity)
  {
    var start := Some(capacity + 1);
    es := SeatsFill(capacity + 1, capacity);
    var log := Run(start, es).log;
    e := CommitRsvp(0, capacity, Yes, None);
    RunAppend(start, es, TakeSnapshot(0));
    RunAppend(start, es + [TakeSnapshot(0)], SetCapacity(Some(capacity)));
    es := es + [TakeSnapshot(0)] + [SetCapacity(Some(capacity))];
    RunAppend(start, es, e);
    NewMemberTakesSeat(log, capacity + 1, capacity);
  }

  // ---- Chains -----------------------------------------------------------------------------------------

  function EntriesOf(log: seq<Entry>, m: Membership): seq<Entry> {
    if log == [] then []
    else EntriesOf(log[..|log| - 1], m) + (if log[|log| - 1].membership == m then [log[|log| - 1]] else [])
  }

  function IdBefore(mine: seq<Entry>, i: nat): Option<nat>
    requires i <= |mine|
  {
    if i == 0 then None else Some(mine[i - 1].id)
  }

  ghost predicate Chain(mine: seq<Entry>) {
    forall i :: 0 <= i < |mine| ==> mine[i].versionNo == i + 1 && mine[i].supersedes == IdBefore(mine, i)
  }

  ghost predicate MemberChain(log: seq<Entry>, m: Membership) {
    var mine := EntriesOf(log, m);
    && Chain(mine)
    && CurrentRsvp(log, m) == (if mine == [] then None else Some(mine[|mine| - 1]))
  }

  lemma ChainAppend(log: seq<Entry>, m: Membership, response: Response, note: Option<string>, other: Membership)
    requires MemberChain(log, other)
    ensures MemberChain(log + [NextEntry(log, m, response, note)], other)
  {
    var e := NextEntry(log, m, response, note);
    var mine, mine' := EntriesOf(log, other), EntriesOf(log + [e], other);
    assert (log + [e])[..|log|] == log;
    AppendView(log, m, response, note, other);
    assert mine' == if other == m then mine + [e] else mine;
    if other == m && mine != [] {
      assert CurrentRsvp(log, m).value == mine[|mine| - 1];
      assert mine[|mine| - 1].versionNo == |mine|;
    }
    assert Chain(mine');
  }

  /**
   Each member's entries form one chain: version numbers count from 1, each entry supersedes the
   member's entry before it, and the last is the member's current view.
   */
  lemma {:induction false} MembersAreChained(capacity: Option<nat>, es: seq<Event>, m: Membership)
    ensures MemberChain(Run(capacity, es).log, m)
  {
    if es != [] {
      var s, e := Run(capacity, es[..|es| - 1]), es[|es| - 1];
      MembersAreChained(capacity, es[..|es| - 1], m);
      if Apply(s, e).log != s.log {
        if e.Cancel? {
          ChainAppend(s.log, e.member, Cancelled, None, m);
        } else {
          var read := s.reading[e.caller];
          var stored := DecidedResponse(read.log, read.capacity, e.membership, e.requested);
          ChainAppend(s.log, e.membership, stored, e.note, m);
        }
      }
    }
  }

  // ---- The operations, uninterrupted --------------------------------------------------------------

  class EventRsvps {
    var log: seq<Entry>
    var capacity: Option<nat>

    constructor (capacity: Option<nat>)
      ensures log == [] && this.capacity == capacity
    {
      log, this.capacity := [], capacity;
    }

    method RsvpEvent(m: Membership, requested: Response, note: Option<string>) returns (stored: Response)
      requires requested != Cancelled
      modifies this`log
      ensures log == WriteRsvp(old(log), capacity, m, requested, note)
      // A "yes" is put on the waiting list exactly if the others take all seats.
      ensures stored ==
        if requested == Yes && capacity.Some? && |SeatedOthers(old(log), m)| >= capacity.value then Waitlist
        else requested
      ensures var current := CurrentRsvp(old(log), m);
        log == if current.Some? && current.value.response == stored && current.value.note == note then old(log)
               else old(log) + [Entry(|old(log)|, m, stored, note,
                                      if current.Some? then current.value.versionNo + 1 else 1,
                                      if current.Some? then Some(current.value.id) else None)]
      ensures AtMost(LiveYes(log), capacity) || LiveYes(log) <= LiveYes(old(log))
    {
      RsvpStaysWithinCapacity(log, log, capacity, m, requested, note);
      StoredResponseMeans(log, capacity, m, requested);
      var current := CurrentRsvp(log, m);
      stored := ResolveStoredResponse(
        requested, if current.Some? then Some(current.value.response) else None, LiveYes(log), capacity);
      if current.Some? && current.value.response == stored && current.value.note == note {
        return;
      }
      var versionNo := if current.Some? then current.value.versionNo + 1 else 1;
      var supersedes := if current.Some? then Some(current.value.id) else None;
      log := log + [Entry(|log|, m, stored, note, versionNo, supersedes)];
    }

    method CancelEventRsvp(m: Membership)
      modifies this`log
      ensures log == WriteCancel(old(log), m)
      ensures var current := CurrentRsvp(old(log), m);
        log == if current.None? || current.value.response == Cancelled then old(log)
               else old(log) + [Entry(|old(log)|, m, Cancelled, None, current.value.versionNo + 1,
                                      Some(current.value.id))]
      ensures LiveYes(log) <= LiveYes(old(log))
    {
      CancelNeverRaises(log, m);
      var current := CurrentRsvp(log, m);
      if current.None? || current.value.response == Cancelled {
        return;
      }
      log := log + [Entry(|log|, m, Cancelled, None, current.value.versionNo + 1, Some(current.value.id))];
    }
  }
}
