/**
 The invitation and application tables, and the transactions that change them. Every one is a step of a
 run, so the tables keep what runs keep.
 */
module AdmissionTables {
  import opened Common
  import opened Admission
  import opened AdmissionInvariants
  import H = AdmissionHistory
  import F = InvitationFates
  import L = InvitationListing
  import Q = AdmissionQuota

  /**
   Applications agree with their invitations, nobody has two open applications in a club, and no sponsor's
   total exceeds the cap but by applications that consumed their invitation late.
   */
  ghost predicate SafeRows(cap: nat, s: State) {
    Inv(s) && forall key: Key {:trigger Q.LateCount(s, key)} :: Total(s, key, s.now) <= cap + Q.LateCount(s, key)
  }

  lemma RunsAreSafe(cap: nat, es: seq<Event>)
    ensures SafeRows(cap, Run(cap, es))
  {
    RunInv(cap, es);
    forall key: Key {:trigger Q.LateCount(Run(cap, es), key)}
      ensures Total(Run(cap, es), key, Run(cap, es).now) <= cap + Q.LateCount(Run(cap, es), key)
    {
      Q.QuotaHolds(cap, es, key);
    }
  }

  lemma StepExtendsRun(cap: nat, es: seq<Event>, e: Event, after: State)
    requires after == Step(cap, Run(cap, es), e)
    ensures after == Run(cap, es + [e]) && SafeRows(cap, after)
  {
    Q.RunStep(cap, es, e);
    RunsAreSafe(cap, es + [e]);
  }

  class Tables {
    const cap: nat
    var now: nat
    var invites: seq<Invite>
    var apps: seq<App>
    var issuing: map<Key, Issue>
    var prepared: seq<Prepared>
    /** A run that the tables come from. */
    ghost var trace: seq<Event>

    function Rows(): State
      reads this
    {
      State(now, invites, apps, issuing, prepared)
    }

    ghost predicate Valid()
      reads this
    {
      Rows() == Run(cap, trace)
    }

    ghost predicate Safe()
      reads this
    {
      SafeRows(cap, Rows())
    }

    lemma ValidIsSafe()
      requires Valid()
      ensures Safe()
    {
      RunsAreSafe(cap, trace);
    }

    /** Adds the step just made to the trace. */
    ghost method Record(before: State, e: Event)
      requires before == Run(cap, trace) && Rows() == Step(cap, before, e)
      modifies this`trace
      ensures Valid() && Safe() && trace == old(trace) + [e]
    {
      StepExtendsRun(cap, trace, e, Rows());
      trace := trace + [e];
    }

    constructor (cap: nat)
      ensures this.cap == cap && Rows() == Run(cap, [])
      ensures Valid() && Safe()
    {
      this.cap := cap;
      now, invites, apps, issuing, prepared, trace := 0, [], [], map[], [], [];
      new;
      ValidIsSafe();
    }

    method Advance(d: nat)
      requires Valid()
      modifies this
      ensures Valid() && Safe() && trace == old(trace) + [Tick(d)]
      ensures now == old(now) + d
    {
      ghost var before := Rows();
      now := now + d;
      Record(before, Tick(d));
    }

    /** The count of the quota check for a transaction that began at `start`. */
    method CountQuota(key: Key, start: nat) returns (n: nat)
      ensures n == Total(Rows(), key, start)
    {
      n := 0;
      for i := 0 to |invites|
        invariant n == Count(i, OpenOf(invites, key, start))
      {
        if invites[i].key == key && OpenAt(invites[i], start) {
          n := n + 1;
        }
      }
      for j := 0 to |apps|
        invariant n == OpenCount(Rows(), key, start) + Count(j, SponsoredOf(invites, apps, key))
      {
        if CountsFor(invites, apps[j], key) {
          n := n + 1;
        }
      }
    }

    /** How many rows of the sponsor's listing are counted: as many as the check before issuing counts. */
    method CountListed(key: Key, queried: nat, t: nat) returns (n: nat)
      requires Valid()
      ensures n == L.CountedRows(Rows(), key, queried, t, |invites|) == Total(Rows(), key, t)
    {
      L.QuotaComputationsAgree(cap, trace, key, queried, t);
      n := 0;
      for i := 0 to |invites|
        invariant n == L.CountedRows(Rows(), key, queried, t, i)
      {
        if L.ListedCounted(Rows(), key, queried, t, i) {
          n := n + L.RowsOf(Rows(), i);
        }
      }
    }

    method FindOpenInvite(key: Key, target: Target, start: nat) returns (found: bool)
      ensures found == HasOpenInvite(Rows(), key, target, start)
    {
      for i := 0 to |invites|
        invariant forall k :: 0 <= k < i ==>
          !(invites[k].key == key && invites[k].target == target && OpenAt(invites[k], start))
      {
        if invites[i].key == key && invites[i].target == target && OpenAt(invites[i], start) {
          return true;
        }
      }
      return false;
    }

    method FindOpenApplication(club: Club, applicant: Member) returns (found: bool)
      ensures found == HasOpenApplication(Rows(), club, applicant)
    {
      for j := 0 to |apps|
        invariant forall k :: 0 <= k < j ==>
          !(apps[k].club == club && apps[k].applicant == applicant && Live(apps[k].phase))
      {
        if apps[j].club == club && apps[j].applicant == applicant && Live(apps[j].phase) {
          return true;
        }
      }
      return false;
    }

    method FindLiveApplication(invite: nat) returns (found: bool)
      ensures found == HasLiveApp(Rows(), invite)
    {
      for j := 0 to |apps|
        invariant forall k :: 0 <= k < j ==> !(apps[k].invitation == Some(invite) && Live(apps[k].phase))
      {
        if apps[j].invitation == Some(invite) && Live(apps[j].phase) {
          return true;
        }
      }
      return false;
    }

    /** The first part of issuing: under the lock of the key, look for an open invitation and count. */
    method CountForIssue(key: Key, target: Target, start: nat) returns (r: Outcome)
      requires Valid()
      modifies this
      ensures Valid() && Safe() && trace == old(trace) + (if r == Done then [IssueCount(key, target, start)] else [])
      ensures r == OutcomeOf(cap, old(Rows()), IssueCount(key, target, start))
      // Refused for an open invitation of the sponsor to the target, or else for a full quota.
      ensures var asked := key !in old(issuing) && start <= now;
        var open := exists i ::
          && 0 <= i < |invites| && invites[i].key == key && invites[i].target == target
          && !invites[i].revoked && !invites[i].used && !invites[i].expired && start < invites[i].expiresAt;
        && (r == AlreadyOpen <==> asked && open)
        && (r == QuotaExceeded <==> asked && !open && Total(old(Rows()), key, start) >= cap)
        && (r == Done <==> asked && !open && Total(old(Rows()), key, start) < cap)
      ensures Rows() == Step(cap, old(Rows()), IssueCount(key, target, start))
    {
      ghost var before := Rows();
      ValidIsSafe();
      if key in issuing || start > now {
        return InvalidState;
      }
      var open := FindOpenInvite(key, target, start);
      if open {
        return AlreadyOpen;
      }
      var n := CountQuota(key, start);
      if n >= cap {
        return QuotaExceeded;
      }
      issuing := issuing[key := Issue(target, start)];
      Record(before, IssueCount(key, target, start));
      return Done;
    }

    /** The second part: insert and let go of the lock. */
    method InsertIssued(key: Key)
      requires Valid() && key in issuing
      modifies this
      ensures Valid() && Safe() && trace == old(trace) + [IssueInsert(key)]
      ensures Rows() == Step(cap, old(Rows()), IssueInsert(key))
      // Open, and for thirty days from when the transaction that counted began.
      ensures var issue := old(issuing)[key];
        invites == old(invites) + [Invite(key, issue.target, issue.start + 2_592_000_000, false, false, false, false)]
    {
      ghost var before := Rows();
      var issue := issuing[key];
      invites := invites + [Invite(key, issue.target, issue.start + INVITATION_TTL_MS, false, false, false, false)];
      issuing := issuing - {key};
      Record(before, IssueInsert(key));
    }

    /** The issuer gives up. */
    method AbortIssue(key: Key)
      requires Valid()
      modifies this
      ensures Valid() && Safe() && trace == old(trace) + [IssueAbort(key)]
      ensures Rows() == Step(cap, old(Rows()), IssueAbort(key))
    {
      ghost var before := Rows();
      issuing := issuing - {key};
      Record(before, IssueAbort(key));
    }

    /** Marks an invitation that had run out when the transaction began. */
    method MaterializeExpiredInvitation(i: nat, start: nat)
      requires Valid()
      modifies this
      ensures Valid() && Safe() && trace == old(trace) + [MaterializeExpiry(i, start)]
      ensures Rows() == Step(cap, old(Rows()), MaterializeExpiry(i, start))
      ensures invites ==
        if i < |old(invites)| && start <= now && old(invites)[i].expiresAt <= start && !old(invites)[i].used
        then old(invites)[i := old(invites)[i].(expired := true)] else old(invites)
    {
      ghost var before := Rows();
      if i < |invites| && start <= now && !invites[i].expired && invites[i].expiresAt <= start && !invites[i].used {
        invites := invites[i := invites[i].(expired := true)];
      }
      Record(before, MaterializeExpiry(i, start));
    }

    method RevokeInvitation(i: nat, actor: Member, isAdmin: bool, checkedAt: nat) returns (r: Outcome)
      requires Valid()
      modifies this
      ensures Valid() && Safe()
      ensures trace == old(trace) + (if r == Done then [Revoke(i, actor, isAdmin, checkedAt)] else [])
      ensures r == OutcomeOf(cap, old(Rows()), Revoke(i, actor, isAdmin, checkedAt))
      ensures Rows() == Step(cap, old(Rows()), Revoke(i, actor, isAdmin, checkedAt))
      ensures r == Done <==> F.MayRevoke(old(Rows()), i, actor, isAdmin, checkedAt)
      ensures r == NotFound <==>
        checkedAt <= now && (i >= |old(invites)| || (actor != old(invites)[i].key.sponsor && !isAdmin))
      ensures invites ==
        (if r != Done then old(invites)
         else if old(invites)[i].used then old(invites)[i := old(invites)[i].(supportWithdrawn := true)]
         else old(invites)[i := old(invites)[i].(revoked := true)])
      ensures apps == old(apps)
      ensures forall key: Key {:trigger Q.LateCount(Rows(), key)} ::
                Total(Rows(), key, now) <= Total(old(Rows()), key, now)
    {
      ghost var before := Rows();
      ValidIsSafe();
      forall key: Key
        ensures Total(Step(cap, before, Revoke(i, actor, isAdmin, checkedAt)), key, now) <= Total(before, key, now)
      {
        Q.OtherStepsNeverRaise(cap, before, Revoke(i, actor, isAdmin, checkedAt), key);
      }
      if checkedAt > now {
        return InvalidState;
      }
      if i >= |invites| {
        return NotFound;
      }
      var inv := invites[i];
      if actor != inv.key.sponsor && !isAdmin {
        return NotFound;
      }
      if inv.used {
        var live := FindLiveApplication(i);
        if !live {
          return InvalidState;
        }
        if actor != inv.key.sponsor {
          return Forbidden;
        }
        invites := invites[i := inv.(supportWithdrawn := true)];
        Record(before, Revoke(i, actor, isAdmin, checkedAt));
        return Done;
      }
      if inv.revoked {
        return AlreadyRevoked;
      }
      if inv.expired || inv.expiresAt <= checkedAt {
        return AlreadyExpired;
      }
      invites := invites[i := inv.(revoked := true)];
      Record(before, Revoke(i, actor, isAdmin, checkedAt));
      return Done;
    }

    method RevokeOpenInvitesFromSponsor(key: Key)
      requires Valid()
      modifies this
      ensures Valid() && Safe() && trace == old(trace) + [SponsorLeaves(key)]
      ensures Rows() == Step(cap, old(Rows()), SponsorLeaves(key))
      ensures |invites| == |old(invites)| && forall k :: 0 <= k < |invites| ==>
        invites[k] == if old(invites)[k].key == key && !old(invites)[k].used
                      then old(invites)[k].(revoked := true) else old(invites)[k]
    {
      ghost var start, before := Rows(), invites;
      for i := 0 to |invites|
        invariant |invites| == |before|
        invariant forall k :: 0 <= k < |before| ==>
          invites[k] == if k < i then RevokedBySponsor(before[k], key) else before[k]
        invariant apps == old(apps) && now == old(now) && issuing == old(issuing) && prepared == old(prepared)
        invariant trace == old(trace)
      {
        if invites[i].key == key && !invites[i].revoked && !invites[i].used {
          invites := invites[i := invites[i].(revoked := true)];
        }
      }
      assert invites == Step(cap, old(Rows()), SponsorLeaves(key)).invites;
      Record(start, SponsorLeaves(key));
    }

    method Apply(club: Club, applicant: Member, chosen: Option<nat>, start: nat, draft: Draft) returns (r: Outcome)
      requires Valid()
      modifies this
      ensures Valid() && Safe()
      ensures trace == old(trace) + (if r == Done then [ApplyToClub(club, applicant, chosen, start, draft)] else [])
      ensures r == OutcomeOf(cap, old(Rows()), ApplyToClub(club, applicant, chosen, start, draft))
      ensures Rows() == Step(cap, old(Rows()), ApplyToClub(club, applicant, chosen, start, draft))
      // Refused while an application is open; bound to the invitation named or the only one to the applicant.
      ensures var asked := start <= now;
        var inFlight := exists k ::
          && 0 <= k < |old(apps)| && old(apps)[k].club == club && old(apps)[k].applicant == applicant
          && Live(old(apps)[k].phase);
        var open := F.InvitationsTo(old(Rows()), club, applicant, start);
        && (r == InFlight <==> asked && inFlight)
        && (r == NotFound <==> asked && !inFlight && chosen.Some? && chosen.value !in open)
        && (r == Ambiguous <==> asked && !inFlight && chosen.None? && |open| > 1)
        && (r == Done <==> asked && !inFlight && if chosen.Some? then chosen.value in open else |open| <= 1)
        && (r == Done ==>
              && |apps| == |old(apps)| + 1
              && var app := apps[|old(apps)|];
              && app.club == club && app.applicant == applicant && Live(app.phase)
              && (app.invitation.None? <==> chosen.None? && open == {})
              && (app.invitation.Some? ==> app.invitation.value in open)
              && (chosen.Some? ==> app.invitation == chosen))
    {
      ghost var before := Rows();
      ValidIsSafe();
      if start > now {
        return InvalidState;
      }
      var inFlight := FindOpenApplication(club, applicant);
      if inFlight {
        return InFlight;
      }
      var binding := Binding(Rows(), club, applicant, chosen, start);
      F.BindingChooses(Rows(), club, applicant, chosen, start);
      if binding.Err? {
        return binding.error;
      }
      EvaluationFits(None, draft);
      CreateApplication(club, applicant, binding.value, PrepareEvaluation(None, draft));
      Record(before, ApplyToClub(club, applicant, chosen, start, draft));
      return Done;
    }

    method CreateApplication(club: Club, applicant: Member, binding: Option<nat>, ev: Evaluation)
      requires binding.Some? ==> binding.value < |invites|
      modifies this`invites, this`apps
      ensures Rows() == Consume(old(Rows()), club, applicant, binding, ev)
    {
      var sponsor, late := None, false;
      if binding.Some? {
        var i := binding.value;
        sponsor, late := Some(invites[i].key.sponsor), invites[i].expiresAt <= now;
        invites := invites[i := invites[i].(used := true)];
      }
      apps := apps + [App(club, applicant, binding, sponsor, ev.phase, ev.verdict, None, late)];
    }

    method RedeemInvitation(i: nat, applicant: Member, checkedAt: nat, draft: Draft) returns (r: Outcome)
      requires Valid()
      modifies this
      ensures Valid() && Safe()
      ensures trace == old(trace) + (if r == Done then [Redeem(i, applicant, checkedAt, draft)] else [])
      ensures r == OutcomeOf(cap, old(Rows()), Redeem(i, applicant, checkedAt, draft))
      ensures Rows() == Step(cap, old(Rows()), Redeem(i, applicant, checkedAt, draft))
      // A code is good while its invitation is open, and refused first while an application is open.
      ensures var asked, code := checkedAt <= now, i < |old(invites)| && old(invites)[i].target.ToEmail?;
        var inFlight := code && exists k ::
          && 0 <= k < |old(apps)| && old(apps)[k].club == old(invites)[i].key.club
          && old(apps)[k].applicant == applicant && Live(old(apps)[k].phase);
        var open := code && !old(invites)[i].revoked && !old(invites)[i].used && !old(invites)[i].expired
                    && checkedAt < old(invites)[i].expiresAt;
        && (r == InFlight <==> asked && inFlight)
        && (r == InvalidCode <==> asked && !inFlight && !open)
        && (r == Done <==> asked && !inFlight && open)
        && (r == Done ==>
              && |apps| == |old(apps)| + 1
              && apps[|old(apps)|].applicant == applicant && apps[|old(apps)|].invitation == Some(i)
              && apps[|old(apps)|].club == old(invites)[i].key.club)
    {
      ghost var before := Rows();
      ValidIsSafe();
      if checkedAt > now {
        return InvalidState;
      }
      if i >= |invites| || !invites[i].target.ToEmail? {
        return InvalidCode;
      }
      var inFlight := FindOpenApplication(invites[i].key.club, applicant);
      if inFlight {
        return InFlight;
      }
      if invites[i].revoked || invites[i].expired || invites[i].used || invites[i].expiresAt <= checkedAt {
        return InvalidCode;
      }
      CreateApplication(invites[i].key.club, applicant, Some(i), PrepareEvaluation(None, draft));
      Record(before, Redeem(i, applicant, checkedAt, draft));
      return Done;
    }

    /** Evaluates a new draft, outside the transaction that will revise. */
    method PrepareRevisionOf(j: nat, draft: Draft) returns (r: Outcome)
      requires Valid()
      modifies this
      ensures Valid() && Safe() && trace == old(trace) + (if r == Done then [PrepareRevision(j, draft)] else [])
      ensures r == OutcomeOf(cap, old(Rows()), PrepareRevision(j, draft))
      ensures Rows() == Step(cap, old(Rows()), PrepareRevision(j, draft))
      ensures r == Done ==>
        var ev := prepared[|prepared| - 1].evaluation; Live(ev.phase) && PhaseFits(ev.phase, ev.verdict)
    {
      ghost var before := Rows();
      ValidIsSafe();
      if j >= |apps| {
        return NotFound;
      }
      if apps[j].phase != RevisionRequired {
        return NotMutable;
      }
      prepared := prepared + [Prepared(j, PrepareEvaluation(Some(apps[j]), draft))];
      Record(before, PrepareRevision(j, draft));
      return Done;
    }

    method ReviseApplication(k: nat) returns (r: Outcome)
      requires Valid()
      modifies this
      ensures Valid() && Safe() && trace == old(trace) + (if r == Done then [Revise(k)] else [])
      ensures r == OutcomeOf(cap, old(Rows()), Revise(k))
      ensures Rows() == Step(cap, old(Rows()), Revise(k))
      ensures r != Done ==> apps == old(apps)
      ensures r == Done ==>
        var j, ev := old(prepared)[k].app, old(prepared)[k].evaluation;
        apps == old(apps)[j := old(apps)[j].(phase := ev.phase, verdict := ev.verdict)]
      ensures k < |old(prepared)| ==> (r == Done <==> CanRevise(old(apps), old(prepared)[k].app))
    {
      ghost var before := Rows();
      ValidIsSafe();
      if k >= |prepared| || prepared[k].app >= |apps| {
        return NotFound;
      }
      var j, ev := prepared[k].app, prepared[k].evaluation;
      if apps[j].phase != RevisionRequired {
        return NotMutable;
      }
      apps := apps[j := apps[j].(phase := ev.phase, verdict := ev.verdict)];
      Record(before, Revise(k));
      return Done;
    }

    /** The applicant is shown that the application can be revised. */
    static predicate CanRevise(apps: seq<App>, j: nat) {
      j < |apps| && H.BuildApplicationWorkflow(apps[j]).canApplicantRevise
    }

    method WithdrawApplication(j: nat) returns (r: Outcome)
      requires Valid()
      modifies this
      ensures Valid() && Safe() && trace == old(trace) + (if r == Done then [Withdraw(j)] else [])
      ensures r == OutcomeOf(cap, old(Rows()), Withdraw(j))
      ensures Rows() == Step(cap, old(Rows()), Withdraw(j))
      ensures apps == if r == Done then old(apps)[j := old(apps)[j].(phase := Withdrawn)] else old(apps)
      ensures j < |apps| ==> (r == Done <==> H.BuildApplicationWorkflow(old(apps[j])).awaitingActor != H.Nobody)
    {
      ghost var before := Rows();
      ValidIsSafe();
      if j >= |apps| {
        return NotFound;
      }
      if apps[j].phase !in [RevisionRequired, AwaitingReview] {
        return NotMutable;
      }
      apps := apps[j := apps[j].(phase := Withdrawn)];
      Record(before, Withdraw(j));
      return Done;
    }

    method DecideApplication(j: nat, d: Decision) returns (r: Outcome)
      requires Valid()
      modifies this
      ensures Valid() && Safe() && trace == old(trace) + (if r == Done then [Decide(j, d)] else [])
      ensures r == OutcomeOf(cap, old(Rows()), Decide(j, d))
      ensures Rows() == Step(cap, old(Rows()), Decide(j, d))
      ensures j < |apps| ==> (r == Done <==> H.BuildApplicationWorkflow(old(apps[j])).currentlySubmittedToAdmins)
      ensures r == Done ==> H.BuildApplicationWorkflow(apps[j]).submittedToAdmins
      // Which decision leads where; nothing else changes.
      ensures r == Done ==>
        && j < |old(apps)|
        && apps == old(apps)[j := match d
                                  case Accept(m) => old(apps)[j].(phase := Active, membership := Some(m))
                                  case Decline => old(apps)[j].(phase := Declined)
                                  case Ban => old(apps)[j].(phase := Banned)]
      ensures r != Done ==> apps == old(apps)
      ensures invites == old(invites) && issuing == old(issuing) && prepared == old(prepared) && now == old(now)
      ensures r == AlreadyDecided <==>
        j < |old(apps)| && old(apps)[j].phase in {Active, Declined, Banned, Removed}
      ensures r == NotFound <==> j >= |old(apps)|
    {
      ghost var before := Rows();
      ValidIsSafe();
      if j >= |apps| {
        return NotFound;
      }
      var app := apps[j];
      if app.phase != AwaitingReview {
        if app.phase in [Active, Declined, Banned, Removed] {
          return AlreadyDecided;
        }
        return NotMutable;
      }
      if d.Accept? {
        app := app.(phase := Active, membership := Some(d.membership));
      } else {
        app := app.(phase := if d.Decline? then Declined else Banned);
      }
      apps := apps[j := app];
      Record(before, Decide(j, d));
      return Done;
    }

    /** A membership is removed or banned, and with it the applications that led to it. */
    method EndApplicationsOf(membership: nat, ban: bool)
      requires Valid()
      modifies this
      ensures Valid() && Safe() && trace == old(trace) + [EndMembership(membership, ban)]
      ensures Rows() == Step(cap, old(Rows()), EndMembership(membership, ban))
      ensures |apps| == |old(apps)| && forall k :: 0 <= k < |apps| ==>
        apps[k] == if old(apps)[k].membership == Some(membership)
                   then old(apps)[k].(phase := if ban then Banned else Removed) else old(apps)[k]
    {
      ghost var start, before := Rows(), apps;
      for j := 0 to |apps|
        invariant |apps| == |before|
        invariant forall k :: 0 <= k < |before| ==>
          apps[k] == if k < j then EndedWith(before[k], membership, ban) else before[k]
        invariant invites == old(invites) && now == old(now) && issuing == old(issuing) && prepared == old(prepared)
        invariant trace == old(trace)
      {
        if apps[j].membership == Some(membership) {
          apps := apps[j := apps[j].(phase := if ban then Banned else Removed)];
        }
      }
      assert apps == Step(cap, old(Rows()), EndMembership(membership, ban)).apps;
      Record(start, EndMembership(membership, ban));
    }
  }
}
