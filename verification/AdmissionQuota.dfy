/**
 The sponsor quota over runs. It is conserved except by an application that consumes its invitation
 late: applying and redeeming test its expiry some time before they commit, while an issuer that counts
 in between no longer counts that invitation.
 */
module AdmissionQuota {
  import opened Common
  import opened Admission
  import opened AdmissionInvariants

  function OnTimeOf(invites: seq<Invite>, apps: seq<App>, key: Key): nat -> bool {
    (j: nat) => j < |apps| && CountsFor(invites, apps[j], key) && !apps[j].late
  }

  function LateOf(invites: seq<Invite>, apps: seq<App>, key: Key): nat -> bool {
    (j: nat) => j < |apps| && CountsFor(invites, apps[j], key) && apps[j].late
  }

  function OnTimeCount(s: State, key: Key): nat {
    Count(|s.apps|, OnTimeOf(s.invites, s.apps, key))
  }

  function LateCount(s: State, key: Key): nat {
    Count(|s.apps|, LateOf(s.invites, s.apps, key))
  }

  function InIssue(s: State, key: Key): nat {
    if key in s.issuing then 1 else 0
  }

  lemma {:induction false} CountSplits(n: nat, p: nat -> bool, a: nat -> bool, b: nat -> bool)
    requires forall i: nat :: i < n ==> (p(i) <==> a(i) || b(i)) && !(a(i) && b(i))
    ensures Count(n, p) == Count(n, a) + Count(n, b)
  {
    if n > 0 {
      CountSplits(n - 1, p, a, b);
    }
  }

  lemma SponsoredSplits(s: State, key: Key)
    ensures SponsoredCount(s, key) == OnTimeCount(s, key) + LateCount(s, key)
  {
    var sponsored := SponsoredOf(s.invites, s.apps, key);
    CountSplits(|s.apps|, sponsored, OnTimeOf(s.invites, s.apps, key), LateOf(s.invites, s.apps, key));
  }

  // ---- What each kind of step does to the counts --------------------------------------------------------

  /** Later, fewer invitations are open. */
  lemma OpenFalls(s: State, key: Key, t: nat, t': nat)
    requires t <= t'
    ensures OpenCount(s, key, t') <= OpenCount(s, key, t)
  {
    CountAtMost(|s.invites|, OpenOf(s.invites, key, t'), OpenOf(s.invites, key, t));
  }

  ghost predicate NoMore(s: State, s': State, key: Key, t: nat) {
    && OpenCount(s', key, t) <= OpenCount(s, key, t)
    && SponsoredCount(s', key) <= SponsoredCount(s, key)
    && OnTimeCount(s', key) <= OnTimeCount(s, key)
  }

  /** Invitations that open none and restore no support raise no count. */
  lemma InvitesRaiseNothing(s: State, invites: seq<Invite>, key: Key, t: nat)
    requires |invites| == |s.invites|
    requires forall i :: 0 <= i < |invites| ==>
      && invites[i].key == s.invites[i].key
      && (OpenAt(invites[i], t) ==> OpenAt(s.invites[i], t))
      && (s.invites[i].supportWithdrawn ==> invites[i].supportWithdrawn)
    ensures NoMore(s, s.(invites := invites), key, t)
  {
    CountAtMost(|invites|, OpenOf(invites, key, t), OpenOf(s.invites, key, t));
    CountAtMost(|s.apps|, SponsoredOf(invites, s.apps, key), SponsoredOf(s.invites, s.apps, key));
    CountAtMost(|s.apps|, OnTimeOf(invites, s.apps, key), OnTimeOf(s.invites, s.apps, key));
  }

  /** The same application under the same invitation, live only if it was live before. */
  predicate NotRevived(before: App, after: App) {
    && after.club == before.club && after.sponsor == before.sponsor
    && after.invitation == before.invitation && after.late == before.late
    && (Live(after.phase) ==> Live(before.phase))
  }

  /** Applications that change phase, but become live only if they were, raise no count. */
  lemma AppsRaiseNothing(s: State, apps: seq<App>, key: Key, t: nat)
    requires |apps| == |s.apps|
    requires forall j :: 0 <= j < |apps| ==> NotRevived(s.apps[j], apps[j])
    ensures NoMore(s, s.(apps := apps), key, t)
  {
    CountAtMost(|apps|, SponsoredOf(s.invites, apps, key), SponsoredOf(s.invites, s.apps, key));
    CountAtMost(|apps|, OnTimeOf(s.invites, apps, key), OnTimeOf(s.invites, s.apps, key));
  }

  lemma InsertAddsOne(s: State, inv: Invite, key: Key, t: nat)
    requires Inv(s)
    ensures var s' := s.(invites := s.invites + [inv]);
      && OpenCount(s', key, t) == OpenCount(s, key, t) + (if inv.key == key && OpenAt(inv, t) then 1 else 0)
      && SponsoredCount(s', key) == SponsoredCount(s, key)
      && OnTimeCount(s', key) == OnTimeCount(s, key)
  {
    var invites := s.invites + [inv];
    CountSame(|s.invites|, OpenOf(invites, key, t), OpenOf(s.invites, key, t));
    forall j: nat | j < |s.apps|
      ensures CountsFor(invites, s.apps[j], key) <==> CountsFor(s.invites, s.apps[j], key)
    {
      assert AppFits(s.invites, s.apps[j]);
    }
    CountSame(|s.apps|, SponsoredOf(invites, s.apps, key), SponsoredOf(s.invites, s.apps, key));
    CountSame(|s.apps|, OnTimeOf(invites, s.apps, key), OnTimeOf(s.invites, s.apps, key));
  }

  /**
   Consuming an invitation takes it from its sponsor's open ones if it is still open by the clock, and adds
   a live sponsored application, which is on time in just that case. Nothing changes for any other key.
   */
  lemma ConsumeMoves(s: State, applicant: Member, i: nat, ev: Evaluation, key: Key, t: nat)
    requires Inv(s) && Live(ev.phase)
    requires i < |s.invites| && !s.invites[i].used && !s.invites[i].revoked && !s.invites[i].expired
    ensures var s' := Consume(s, s.invites[i].key.club, applicant, Some(i), ev);
      var own := s.invites[i].key == key;
      && OpenCount(s, key, t) == OpenCount(s', key, t) + (if own && s.invites[i].expiresAt > t then 1 else 0)
      && SponsoredCount(s', key) == SponsoredCount(s, key) + (if own then 1 else 0)
      && OnTimeCount(s', key) == OnTimeCount(s, key) + (if own && s.invites[i].expiresAt > s.now then 1 else 0)
  {
    var s' := Consume(s, s.invites[i].key.club, applicant, Some(i), ev);
    var n := |s.apps|;
    if s.invites[i].key == key && s.invites[i].expiresAt > t {
      CountFlip(|s.invites|, OpenOf(s'.invites, key, t), OpenOf(s.invites, key, t), i);
    } else {
      CountSame(|s.invites|, OpenOf(s'.invites, key, t), OpenOf(s.invites, key, t));
    }
    CountSame(n, SponsoredOf(s'.invites, s'.apps, key), SponsoredOf(s.invites, s.apps, key));
    CountSame(n, OnTimeOf(s'.invites, s'.apps, key), OnTimeOf(s.invites, s.apps, key));
    assert !s.invites[i].supportWithdrawn;
    assert CountsFor(s'.invites, s'.apps[n], key) <==> s.invites[i].key == key;
  }

  lemma ColdAddsNothing(s: State, club: Club, applicant: Member, ev: Evaluation, key: Key, t: nat)
    ensures var s' := Consume(s, club, applicant, None, ev);
      && OpenCount(s', key, t) == OpenCount(s, key, t)
      && SponsoredCount(s', key) == SponsoredCount(s, key)
      && OnTimeCount(s', key) == OnTimeCount(s, key)
  {
    var s' := Consume(s, club, applicant, None, ev);
    CountSame(|s.apps|, SponsoredOf(s'.invites, s'.apps, key), SponsoredOf(s.invites, s.apps, key));
    CountSame(|s.apps|, OnTimeOf(s'.invites, s'.apps, key), OnTimeOf(s.invites, s.apps, key));
  }

  /** The invitation a step consumes. */
  function Consumed(cap: nat, s: State, e: Event): Option<nat> {
    if OutcomeOf(cap, s, e) != Done then None
    else
      match e
      case ApplyToClub(club, applicant, chosen, start, _) => Binding(s, club, applicant, chosen, start).value
      case Redeem(i, _, _, _) => Some(i)
      case _ => None
  }

  lemma InviteStepsRaiseNothing(cap: nat, s: State, e: Event, key: Key)
    requires e.MaterializeExpiry? || e.Revoke? || e.SponsorLeaves?
    ensures NoMore(s, Step(cap, s, e), key, s.now)
  {
    InvitesRaiseNothing(s, Step(cap, s, e).invites, key, s.now);
  }

  lemma AppStepRevivesNothing(cap: nat, s: State, e: Event, j: nat)
    requires (e.Revise? || e.Withdraw? || e.Decide? || e.EndMembership?) && j < |s.apps|
    requires AppFits(s.invites, s.apps[j])
    ensures j < |Step(cap, s, e).apps| && NotRevived(s.apps[j], Step(cap, s, e).apps[j])
  {
  }

  lemma AppStepsRaiseNothing(cap: nat, s: State, e: Event, key: Key)
    requires Inv(s)
    requires e.Revise? || e.Withdraw? || e.Decide? || e.EndMembership?
    ensures NoMore(s, Step(cap, s, e), key, s.now)
  {
    var apps := Step(cap, s, e).apps;
    assert |apps| == |s.apps| && Step(cap, s, e) == s.(apps := apps);
    forall j | 0 <= j < |apps| ensures NotRevived(s.apps[j], apps[j]) {
      AppStepRevivesNothing(cap, s, e, j);
    }
    AppsRaiseNothing(s, apps, key, s.now);
  }

  /** A step that neither inserts nor consumes an invitation raises no count. */
  lemma OtherStepsRaiseNothing(cap: nat, s: State, e: Event, key: Key)
    requires Inv(s) && !e.IssueInsert? && Consumed(cap, s, e).None?
    ensures NoMore(s, Step(cap, s, e), key, s.now)
    ensures OpenCount(Step(cap, s, e), key, Step(cap, s, e).now) <= OpenCount(Step(cap, s, e), key, s.now)
  {
    OpenFalls(Step(cap, s, e), key, s.now, Step(cap, s, e).now);
    if e.MaterializeExpiry? || e.Revoke? || e.SponsorLeaves? {
      InviteStepsRaiseNothing(cap, s, e, key);
    } else if e.Revise? || e.Withdraw? || e.Decide? || e.EndMembership? {
      AppStepsRaiseNothing(cap, s, e, key);
    } else if e.ApplyToClub? {
      ColdAddsNothing(s, e.club, e.applicant, PrepareEvaluation(None, e.draft), key, s.now);
    }
  }

  // ---- The quota in every run ---------------------------------------------------------------------------

  /** What a key holds: its open invitations, its on-time applications, and an issuer about to insert. */
  function Held(s: State, key: Key): nat {
    OpenCount(s, key, s.now) + OnTimeCount(s, key) + InIssue(s, key)
  }

  lemma ConsumeKeepsHeld(cap: nat, s: State, e: Event, key: Key)
    requires Inv(s) && Consumed(cap, s, e).Some?
    ensures Held(Step(cap, s, e), key) == Held(s, key)
  {
    var i := Consumed(cap, s, e).value;
    EvaluationFits(None, e.draft);
    ConsumeMoves(s, e.applicant, i, PrepareEvaluation(None, e.draft), key, s.now);
  }

  lemma StepKeepsHeld(cap: nat, s: State, e: Event, key: Key)
    requires Inv(s) && Held(s, key) <= cap
    ensures Held(Step(cap, s, e), key) <= cap
  {
    var s' := Step(cap, s, e);
    if Consumed(cap, s, e).Some? {
      ConsumeKeepsHeld(cap, s, e, key);
    } else if e.IssueInsert? {
      if OutcomeOf(cap, s, e) == Done {
        var issue := s.issuing[e.key];
        var inv := Invite(e.key, issue.target, issue.start + INVITATION_TTL_MS, false, false, false, false);
        InsertAddsOne(s, inv, key, s.now);
      }
    } else {
      OtherStepsRaiseNothing(cap, s, e, key);
      if e.IssueCount? && OutcomeOf(cap, s, e) == Done && e.key == key {
        OpenFalls(s, key, e.start, s.now);
        SponsoredSplits(s, key);
      }
    }
  }

  lemma {:induction false} RunKeepsHeld(cap: nat, es: seq<Event>, key: Key)
    ensures Held(Run(cap, es), key) <= cap
  {
    if es != [] {
      RunKeepsHeld(cap, es[..|es| - 1], key);
      RunInv(cap, es[..|es| - 1]);
      StepKeepsHeld(cap, Run(cap, es[..|es| - 1]), es[|es| - 1], key);
    }
  }

  /**
   In every run a sponsor's quota total in a club exceeds the cap by no more than the live applications
   that consumed their invitation late, and so not at all if there are none.
   */
  lemma QuotaHolds(cap: nat, es: seq<Event>, key: Key)
    ensures var s := Run(cap, es);
      && Total(s, key, s.now) <= cap + LateCount(s, key)
      && (LateCount(s, key) == 0 ==> Total(s, key, s.now) <= cap)
  {
    RunKeepsHeld(cap, es, key);
    SponsoredSplits(Run(cap, es), key);
  }

  /**
   Consuming an invitation moves one unit from the open invitations to the live applications of its
   sponsor, and leaves every total as it was, exactly if the invitation is still open by the clock. If it is
   not, the sponsor's total rises by one. For other keys neither count changes.
   */
  lemma ConsumptionMovesOneUnit(cap: nat, s: State, e: Event, key: Key)
    requires Inv(s) && Consumed(cap, s, e).Some?
    ensures var s' := Step(cap, s, e);
      var inv := s.invites[Consumed(cap, s, e).value];
      var own := inv.key == key;
      && (own ==> SponsoredCount(s', key) == SponsoredCount(s, key) + 1)
      && (own && inv.expiresAt > s.now ==> OpenCount(s', key, s.now) == OpenCount(s, key, s.now) - 1)
      && (!own ==> OpenCount(s', key, s.now) == OpenCount(s, key, s.now))
      && (!own ==> SponsoredCount(s', key) == SponsoredCount(s, key))
      && Total(s', key, s.now) == Total(s, key, s.now) + (if own && inv.expiresAt <= s.now then 1 else 0)
  {
    EvaluationFits(None, e.draft);
    ConsumeMoves(s, e.applicant, Consumed(cap, s, e).value, PrepareEvaluation(None, e.draft), key, s.now);
  }

  /** Every other step but the insert of a new invitation leaves every total as it is or lowers it. */
  lemma OtherStepsNeverRaise(cap: nat, s: State, e: Event, key: Key)
    requires Inv(s) && !e.IssueInsert? && Consumed(cap, s, e).None?
    ensures Total(Step(cap, s, e), key, Step(cap, s, e).now) <= Total(s, key, s.now)
  {
    OtherStepsRaiseNothing(cap, s, e, key);
  }

  // ---- Exactly when a total exceeds the cap ---------------------------------------------------------------

  /** The step commits the consumption of an invitation of `key` that has run out. */
  predicate ConsumesLate(cap: nat, s: State, e: Event, key: Key) {
    var consumed := Consumed(cap, s, e);
    consumed.Some? && consumed.value < |s.invites| && s.invites[consumed.value].key == key
    && s.invites[consumed.value].expiresAt <= s.now
  }

  /** The step inserts an invitation of `key` that has not run out. */
  predicate InsertsOpen(s: State, e: Event, key: Key) {
    e == IssueInsert(key) && key in s.issuing && s.issuing[key].start + INVITATION_TTL_MS > s.now
  }

  /** From a total within the cap a step exceeds it exactly if it adds to a full quota, in one of two ways. */
  predicate Overfills(cap: nat, s: State, e: Event, key: Key) {
    Total(s, key, s.now) == cap && (ConsumesLate(cap, s, e, key) || InsertsOpen(s, e, key))
  }

  lemma InsertRaises(cap: nat, s: State, e: Event, key: Key)
    requires Inv(s) && e.IssueInsert?
    ensures Total(Step(cap, s, e), key, s.now) == Total(s, key, s.now) + (if InsertsOpen(s, e, key) then 1 else 0)
  {
    if e.key in s.issuing {
      var issue := s.issuing[e.key];
      var expiresAt := issue.start + INVITATION_TTL_MS;
      InsertAddsOne(s, Invite(e.key, issue.target, expiresAt, false, false, false, false), key, s.now);
    }
  }

  lemma ExceedsIffOverfills(cap: nat, s: State, e: Event, key: Key)
    requires Inv(s) && Total(s, key, s.now) <= cap
    ensures var s' := Step(cap, s, e); Total(s', key, s'.now) > cap <==> Overfills(cap, s, e, key)
  {
    if Consumed(cap, s, e).Some? {
      ConsumptionMovesOneUnit(cap, s, e, key);
    } else if e.IssueInsert? {
      InsertRaises(cap, s, e, key);
    } else {
      OtherStepsNeverRaise(cap, s, e, key);
    }
  }

  predicate WithinAt(cap: nat, es: seq<Event>, key: Key, n: nat) {
    n <= |es| && Total(Run(cap, es[..n]), key, Run(cap, es[..n]).now) <= cap
  }

  predicate OverfillsAt(cap: nat, es: seq<Event>, key: Key, n: nat) {
    n < |es| && Overfills(cap, Run(cap, es[..n]), es[n], key)
  }

  predicate AlwaysWithin(cap: nat, es: seq<Event>, key: Key) {
    forall n: nat :: n <= |es| ==> WithinAt(cap, es, key, n)
  }

  predicate NeverOverfills(cap: nat, es: seq<Event>, key: Key) {
    forall n: nat :: n < |es| ==> !OverfillsAt(cap, es, key, n)
  }

  /** A run stays within the cap throughout exactly if no step of it adds to a full quota. */
  lemma WithinIffNeverOverfills(cap: nat, es: seq<Event>, key: Key)
    ensures AlwaysWithin(cap, es, key) <==> NeverOverfills(cap, es, key)
  {
    assert es[..0] == [] && WithinAt(cap, es, key, 0);
    forall n: nat | n < |es| && WithinAt(cap, es, key, n)
      ensures WithinAt(cap, es, key, n + 1) <==> !OverfillsAt(cap, es, key, n)
    {
      assert es[..n + 1][..n] == es[..n];
      RunInv(cap, es[..n]);
      ExceedsIffOverfills(cap, Run(cap, es[..n]), es[n], key);
    }
    var good, bad := (n: nat) => WithinAt(cap, es, key, n), (n: nat) => OverfillsAt(cap, es, key, n);
    HoldsThroughout(|es|, good, bad);
    assert forall n: nat :: good(n) == WithinAt(cap, es, key, n) && bad(n) == OverfillsAt(cap, es, key, n);
  }

  // ---- Steps that commit past an expiry -------------------------------------------------------------------

  const SPONSOR: Key := Key(0, 0)

  const PASSING: Draft := Draft(false, true, GatePassed)

  function Fresh(target: Target, issued: nat): Invite {
    Invite(SPONSOR, target, issued + INVITATION_TTL_MS, false, false, false, false)
  }

  /** Invitations to members 1 to `n`, all issued at once. */
  function Batch(n: nat, issued: nat): seq<Invite> {
    seq(n, (i: nat) => Fresh(ToMember(i + 1), issued))
  }

  function Quiet(now: nat, invites: seq<Invite>): State {
    State(now, invites, [], map[], [])
  }

  lemma RunStep(cap: nat, es: seq<Event>, e: Event)
    ensures Run(cap, es + [e]) == Step(cap, Run(cap, es), e)
  {
    assert (es + [e])[..|es|] == es;
  }

  lemma RunTwoSteps(cap: nat, es: seq<Event>, a: Event, b: Event)
    ensures Run(cap, es + [a] + [b]) == Step(cap, Step(cap, Run(cap, es), a), b)
  {
    RunStep(cap, es, a);
    RunStep(cap, es + [a], b);
  }

  lemma RunTicks(cap: nat, es: seq<Event>, d: nat)
    ensures Run(cap, es + [Tick(d)]) == Run(cap, es).(now := Run(cap, es).now + d)
  {
    RunStep(cap, es, Tick(d));
  }

  lemma IssueSucceeds(cap: nat, s: State, key: Key, target: Target)
    requires key !in s.issuing && !HasOpenInvite(s, key, target, s.now) && Total(s, key, s.now) < cap
    ensures var t := Step(cap, Step(cap, s, IssueCount(key, target, s.now)), IssueInsert(key));
      t == s.(invites := s.invites + [Invite(key, target, s.now + INVITATION_TTL_MS, false, false, false, false)])
  {
    var counted := Step(cap, s, IssueCount(key, target, s.now));
    assert counted == s.(issuing := s.issuing[key := Issue(target, s.now)]);
    assert counted.issuing - {key} == s.issuing;
  }

  /** From a quiet state an invitation is issued, if there is room and none is open for its target. */
  lemma RunIssues(cap: nat, es: seq<Event>, now: nat, invites: seq<Invite>, target: Target) returns (es': seq<Event>)
    requires Run(cap, es) == Quiet(now, invites)
    requires !HasOpenInvite(Quiet(now, invites), SPONSOR, target, now) && Total(Quiet(now, invites), SPONSOR, now) < cap
    ensures Run(cap, es') == Quiet(now, invites + [Fresh(target, now)])
  {
    var s := Run(cap, es);
    es' := es + [IssueCount(SPONSOR, target, s.now)] + [IssueInsert(SPONSOR)];
    RunTwoSteps(cap, es, IssueCount(SPONSOR, target, s.now), IssueInsert(SPONSOR));
    IssueSucceeds(cap, s, SPONSOR, target);
  }

  lemma BatchNext(first: Invite, n: nat, issued: nat)
    requires n > 0
    ensures [first] + Batch(n - 1, issued) + [Fresh(ToMember(n), issued)] == [first] + Batch(n, issued)
  {
    assert Batch(n - 1, issued) + [Fresh(ToMember(n), issued)] == Batch(n, issued);
  }

  lemma NoneOpenFor(first: Invite, n: nat, now: nat)
    requires first.expiresAt <= now
    ensures !HasOpenInvite(Quiet(now, [first] + Batch(n, now)), SPONSOR, ToMember(n + 1), now)
  {
    var invites := [first] + Batch(n, now);
    forall i | 0 < i < |invites| ensures invites[i] == Fresh(ToMember(i), now) {
      assert invites[i] == Batch(n, now)[i - 1];
    }
  }

  lemma {:induction false} BatchCounts(expired: Invite, n: nat, now: nat)
    requires expired.expiresAt <= now
    ensures Total(Quiet(now, [expired] + Batch(n, now)), SPONSOR, now) == n
  {
    var invites := [expired] + Batch(n, now);
    if n == 0 {
      assert !OpenOf(invites, SPONSOR, now)(0);
      assert Count(1, OpenOf(invites, SPONSOR, now)) == Count(0, OpenOf(invites, SPONSOR, now)) + 0;
    } else {
      var before := [expired] + Batch(n - 1, now);
      BatchCounts(expired, n - 1, now);
      BatchNext(expired, n, now);
      CountSame(n, OpenOf(invites, SPONSOR, now), OpenOf(before, SPONSOR, now));
    }
  }

  /** After the first invitation has run out, the whole cap is issued again. */
  lemma {:induction false} FillsUp(cap: nat, es: seq<Event>, now: nat, first: Invite, n: nat) returns (es': seq<Event>)
    requires n <= cap && first.expiresAt <= now
    requires Run(cap, es) == Quiet(now, [first])
    ensures Run(cap, es') == Quiet(now, [first] + Batch(n, now))
  {
    if n == 0 {
      assert [first] + Batch(0, now) == [first];
      es' := es;
    } else {
      var es1 := FillsUp(cap, es, now, first, n - 1);
      var before := [first] + Batch(n - 1, now);
      BatchCounts(first, n - 1, now);
      NoneOpenFor(first, n - 1, now);
      es' := RunIssues(cap, es1, now, before, ToMember(n));
      BatchNext(first, n, now);
    }
  }

  /** An invitation issued at `t` has just run out, and its sponsor has issued the whole cap again. */
  lemma FullAgain(cap: nat, t: nat, target: Target) returns (es: seq<Event>)
    requires cap >= 1
    ensures var now := t + INVITATION_TTL_MS; Run(cap, es) == Quiet(now, [Fresh(target, t)] + Batch(cap, now))
  {
    var now := t + INVITATION_TTL_MS;
    RunTicks(cap, [], t);
    assert Total(Quiet(t, []), SPONSOR, t) == 0;
    var es1 := RunIssues(cap, [] + [Tick(t)], t, [], target);
    assert [] + [Fresh(target, t)] == [Fresh(target, t)];
    RunTicks(cap, es1, INVITATION_TTL_MS);
    es := FillsUp(cap, es1 + [Tick(INVITATION_TTL_MS)], now, Fresh(target, t), cap);
  }

  /** Any step that consumes the first invitation then takes the total over the cap. */
  lemma ConsumedLate(cap: nat, es: seq<Event>, now: nat, first: Invite, e: Event)
    requires first.key == SPONSOR && first.expiresAt <= now
    requires Run(cap, es) == Quiet(now, [first] + Batch(cap, now))
    requires Consumed(cap, Quiet(now, [first] + Batch(cap, now)), e) == Some(0)
    ensures var s := Run(cap, es + [e]);
      Total(s, SPONSOR, s.now) == cap + 1 && LateCount(s, SPONSOR) >= 1
  {
    RunStep(cap, es, e);
    RunInv(cap, es);
    BatchCounts(first, cap, now);
    ConsumptionMovesOneUnit(cap, Run(cap, es), e, SPONSOR);
    QuotaHolds(cap, es + [e], SPONSOR);
  }

  /**
   An application whose transaction began one millisecond before its invitation ran out, and committed when
   it had.
   */
  lemma LateApplicationOverfills(cap: nat, t: nat) returns (es: seq<Event>, e: Event)
    requires cap >= 1
    ensures e == ApplyToClub(0, 7, Some(0), t + INVITATION_TTL_MS - 1, PASSING)
    ensures var s := Run(cap, es + [e]); s.now == t + INVITATION_TTL_MS && Total(s, SPONSOR, s.now) == cap + 1
  {
    var now := t + INVITATION_TTL_MS;
    es := FullAgain(cap, t, ToMember(7));
    e := ApplyToClub(0, 7, Some(0), now - 1, PASSING);
    var s := Quiet(now, [Fresh(ToMember(7), t)] + Batch(cap, now));
    assert Usable(s, 0, 7, now - 1, 0);
    ConsumedLate(cap, es, now, Fresh(ToMember(7), t), e);
    RunStep(cap, es, e);
  }

  /** The same with a code redeemed one millisecond before it ran out. */
  lemma LateRedeemOverfills(cap: nat, t: nat) returns (es: seq<Event>, e: Event)
    requires cap >= 1
    ensures e == Redeem(0, 7, t + INVITATION_TTL_MS - 1, PASSING)
    ensures var s := Run(cap, es + [e]); s.now == t + INVITATION_TTL_MS && Total(s, SPONSOR, s.now) == cap + 1
  {
    var now := t + INVITATION_TTL_MS;
    es := FullAgain(cap, t, ToEmail(7));
    e := Redeem(0, 7, now - 1, PASSING);
    ConsumedLate(cap, es, now, Fresh(ToEmail(7), t), e);
    RunStep(cap, es, e);
  }

  /** A revoke that tests the expiry just before it commits after it: an invitation that has run out is revoked. */
  lemma LateRevoke(cap: nat, t: nat) returns (es: seq<Event>, e: Event)
    requires cap >= 1
    ensures e == Revoke(0, 0, false, t + INVITATION_TTL_MS - 1)
    ensures var s, s' := Run(cap, es), Run(cap, es + [e]);
      && |s.invites| > 0 && |s'.invites| > 0 && s.now == s'.now == t + INVITATION_TTL_MS
      && s.invites[0] == Fresh(ToMember(7), t)
      && s'.invites[0] == Fresh(ToMember(7), t).(revoked := true)
  {
    var now := t + INVITATION_TTL_MS;
    es := FullAgain(cap, t, ToMember(7));
    e := Revoke(0, 0, false, now - 1);
    RunStep(cap, es, e);
  }
}
