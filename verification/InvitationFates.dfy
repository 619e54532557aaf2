/** What was done to an invitation, looking back over a whole run: who issued it and when, and what revoked it. */
module InvitationFates {
  import opened Common
  import opened Admission
  import opened AdmissionInvariants
  import F = AdmissionFates
  import H = AdmissionHistory

  // ---- Issuing ------------------------------------------------------------------------------------------

  /** Some check let an issuer through, and it set the expiry of the invitation thirty days from when it began. */
  ghost predicate IssuedIn(cap: nat, es: seq<Event>, key: Key, target: Target, expiresAt: nat) {
    exists start: nat :: F.Did(cap, es, IssueCount(key, target, start)) && expiresAt == start + 2_592_000_000
  }

  ghost predicate IssuesTold(cap: nat, es: seq<Event>, s: State) {
    && (forall key :: key in s.issuing ==>
          F.Did(cap, es, IssueCount(key, s.issuing[key].target, s.issuing[key].start)))
    && (forall i :: 0 <= i < |s.invites| ==>
          IssuedIn(cap, es, s.invites[i].key, s.invites[i].target, s.invites[i].expiresAt))
  }

  lemma IssuedLater(cap: nat, es: seq<Event>, key: Key, target: Target, expiresAt: nat)
    requires es != [] && IssuedIn(cap, es[..|es| - 1], key, target, expiresAt)
    ensures IssuedIn(cap, es, key, target, expiresAt)
  {
    var start: nat :| F.Did(cap, es[..|es| - 1], IssueCount(key, target, start)) && expiresAt == start + 2_592_000_000;
    assert F.Did(cap, es, IssueCount(key, target, start));
  }

  /** A step leaves whose an invitation is, and its expiry. */
  lemma InvitationStays(cap: nat, s: State, e: Event, i: nat)
    requires i < |s.invites|
    ensures var s' := Step(cap, s, e);
      && i < |s'.invites| && s'.invites[i].key == s.invites[i].key
      && s'.invites[i].target == s.invites[i].target && s'.invites[i].expiresAt == s.invites[i].expiresAt
  {
  }

  /** Only the second part of issuing makes an invitation. */
  lemma NewInvitation(cap: nat, s: State, e: Event, i: nat)
    requires |s.invites| <= i < |Step(cap, s, e).invites|
    ensures e.IssueInsert? && e.key in s.issuing
    ensures var inv, issue := Step(cap, s, e).invites[i], s.issuing[e.key];
      inv.key == e.key && inv.target == issue.target && inv.expiresAt == issue.start + 2_592_000_000
  {
  }

  lemma IssuingStep(cap: nat, s: State, e: Event, key: Key)
    requires key in Step(cap, s, e).issuing
    ensures var issue := Step(cap, s, e).issuing[key];
      || (key in s.issuing && s.issuing[key] == issue)
      || (OutcomeOf(cap, s, e) == Done && e == IssueCount(key, issue.target, issue.start))
  {
  }

  lemma IssuesNext(cap: nat, es: seq<Event>)
    requires es != [] && IssuesTold(cap, es[..|es| - 1], Run(cap, es[..|es| - 1]))
    ensures IssuesTold(cap, es, Run(cap, es))
  {
    var front, e := es[..|es| - 1], es[|es| - 1];
    var s, s' := Run(cap, front), Run(cap, es);
    forall key | key in s'.issuing
      ensures F.Did(cap, es, IssueCount(key, s'.issuing[key].target, s'.issuing[key].start))
    {
      IssuingStep(cap, s, e, key);
    }
    forall i | 0 <= i < |s'.invites|
      ensures IssuedIn(cap, es, s'.invites[i].key, s'.invites[i].target, s'.invites[i].expiresAt)
    {
      if i < |s.invites| {
        InvitationStays(cap, s, e, i);
        IssuedLater(cap, es, s.invites[i].key, s.invites[i].target, s.invites[i].expiresAt);
      } else {
        NewInvitation(cap, s, e, i);
        var issue := s.issuing[e.key];
        assert F.Did(cap, es, IssueCount(e.key, issue.target, issue.start));
      }
    }
  }

  /**
   In every run each invitation stems from a check of its sponsor that let it through, and runs out thirty days
   after the transaction of that check began.
   */
  lemma {:induction false} EveryInvitationWasIssued(cap: nat, es: seq<Event>)
    ensures IssuesTold(cap, es, Run(cap, es))
  {
    if es != [] {
      EveryInvitationWasIssued(cap, es[..|es| - 1]);
      IssuesNext(cap, es);
    }
  }

  // ---- Revoking -----------------------------------------------------------------------------------------

  /**
   Who may revoke: an unused invitation its sponsor or an administrator, in time; the support of a used one its
   sponsor alone, while the application is live.
   */
  predicate MayRevoke(s: State, i: nat, actor: Member, isAdmin: bool, checkedAt: nat) {
    && checkedAt <= s.now && i < |s.invites|
    && var inv := s.invites[i];
    if inv.used then
      && actor == inv.key.sponsor
      && exists j :: 0 <= j < |s.apps| && s.apps[j].invitation == Some(i)
                     && (s.apps[j].phase == RevisionRequired || s.apps[j].phase == AwaitingReview)
    else
      && (actor == inv.key.sponsor || isAdmin)
      && !inv.revoked && !inv.expired && checkedAt < inv.expiresAt
  }

  /** A step by which somebody who may revokes invitation `i`, or its sponsor leaves the club. */
  predicate TakesBack(s: State, e: Event, i: nat) {
    && i < |s.invites|
    && ((e.Revoke? && e.invite == i && MayRevoke(s, i, e.actor, e.isAdmin, e.checkedAt))
        || e == SponsorLeaves(s.invites[i].key))
  }

  /** Somebody took back invitation `i` before anybody used it. */
  predicate WasTakenBack(cap: nat, es: seq<Event>, i: nat) {
    es != []
    && var front := es[..|es| - 1];
    || WasTakenBack(cap, front, i)
    || (TakesBack(Run(cap, front), es[|es| - 1], i) && !Run(cap, front).invites[i].used)
  }

  /** The sponsor of invitation `i` withdrew its support from a live application made under it. */
  predicate LostSupport(cap: nat, es: seq<Event>, i: nat) {
    es != []
    && var front, e := es[..|es| - 1], es[|es| - 1];
    || LostSupport(cap, front, i)
    || (e.Revoke? && TakesBack(Run(cap, front), e, i) && Run(cap, front).invites[i].used)
  }

  lemma RevokeStep(cap: nat, s: State, e: Event, i: nat)
    requires Inv(s) && i < |s.invites|
    ensures var inv, inv' := s.invites[i], Step(cap, s, e).invites[i];
      && (inv'.revoked <==> inv.revoked || (TakesBack(s, e, i) && !inv.used))
      && (inv'.supportWithdrawn <==> inv.supportWithdrawn || (e.Revoke? && TakesBack(s, e, i) && inv.used))
  {
  }

  lemma FreshInvitation(cap: nat, s: State, e: Event, i: nat)
    requires |s.invites| <= i < |Step(cap, s, e).invites|
    ensures var inv := Step(cap, s, e).invites[i];
      !inv.revoked && !inv.supportWithdrawn && !inv.used && !inv.expired
  {
  }

  lemma {:induction false} NothingTakenBackBefore(cap: nat, es: seq<Event>, i: nat)
    requires i >= |Run(cap, es).invites|
    ensures !WasTakenBack(cap, es, i) && !LostSupport(cap, es, i)
  {
    if es != [] {
      var front := es[..|es| - 1];
      if i < |Run(cap, front).invites| {
        InvitationStays(cap, Run(cap, front), es[|es| - 1], i);
      }
      NothingTakenBackBefore(cap, front, i);
    }
  }

  /**
   In every run an invitation is revoked exactly if somebody who may took it back before it was used, or its
   sponsor left the club before; and it has lost its support exactly if its sponsor withdrew that afterwards.
   */
  lemma {:induction false} HistoryTellsRevoked(cap: nat, es: seq<Event>, i: nat)
    requires i < |Run(cap, es).invites|
    ensures var inv := Run(cap, es).invites[i];
      (inv.revoked <==> WasTakenBack(cap, es, i)) && (inv.supportWithdrawn <==> LostSupport(cap, es, i))
  {
    if es != [] {
      var front := es[..|es| - 1];
      RunInv(cap, front);
      if i < |Run(cap, front).invites| {
        HistoryTellsRevoked(cap, front, i);
        RevokeStep(cap, Run(cap, front), es[|es| - 1], i);
      } else {
        NothingTakenBackBefore(cap, front, i);
        FreshInvitation(cap, Run(cap, front), es[|es| - 1], i);
      }
    }
  }

  // ---- Using --------------------------------------------------------------------------------------------

  /** An invitation by notification is used by the member it is addressed to, one by email by whoever has the code. */
  predicate ForApplicant(invites: seq<Invite>, app: App) {
    app.invitation.Some? ==>
      && app.invitation.value < |invites| && invites[app.invitation.value].key.club == app.club
      && (invites[app.invitation.value].target == ToMember(app.applicant)
          || invites[app.invitation.value].target.ToEmail?)
  }

  lemma NewIsForApplicant(cap: nat, s: State, e: Event, j: nat)
    requires |s.apps| <= j < |Step(cap, s, e).apps|
    ensures ForApplicant(Step(cap, s, e).invites, Step(cap, s, e).apps[j])
  {
    assert e.ApplyToClub? || e.Redeem?;
  }

  /** In every run an application carries only an invitation to its club that its applicant may use. */
  lemma {:induction false} InvitationsAreForTheirApplicants(cap: nat, es: seq<Event>, j: nat)
    requires j < |Run(cap, es).apps|
    ensures ForApplicant(Run(cap, es).invites, Run(cap, es).apps[j])
  {
    if es != [] {
      var s, e := Run(cap, es[..|es| - 1]), es[|es| - 1];
      if j < |s.apps| {
        InvitationsAreForTheirApplicants(cap, es[..|es| - 1], j);
        H.AppsStay(cap, s, e, j);
        if s.apps[j].invitation.Some? {
          InvitationStays(cap, s, e, s.apps[j].invitation.value);
        }
      } else {
        NewIsForApplicant(cap, s, e, j);
      }
    }
  }

  // ---- Choosing -----------------------------------------------------------------------------------------

  /** The open invitations of a club to the applicant, as a transaction that began at `start` sees them. */
  ghost function InvitationsTo(s: State, club: Club, applicant: Member, start: nat): set<nat> {
    set i: nat | i < |s.invites| && s.invites[i].key.club == club && s.invites[i].target == ToMember(applicant)
      && !s.invites[i].revoked && !s.invites[i].used && !s.invites[i].expired && start < s.invites[i].expiresAt
  }

  /**
   An application is bound to the invitation it names, if that is one of the applicant's; if it names none, to the
   only one there is, or to none; and more than one are ambiguous.
   */
  lemma BindingChooses(s: State, club: Club, applicant: Member, chosen: Option<nat>, start: nat)
    ensures var open, r := InvitationsTo(s, club, applicant, start), Binding(s, club, applicant, chosen, start);
      && (chosen.Some? ==> r == if chosen.value in open then Ok(chosen) else Err(NotFound))
      && (chosen.None? ==> (r == Ok(None) <==> |open| == 0) && (r == Err(Ambiguous) <==> |open| > 1))
      && (chosen.None? ==> forall i :: r == Ok(Some(i)) <==> open == {i})
  {
    var open := InvitationsTo(s, club, applicant, start);
    assert forall i: nat :: i in open <==> Usable(s, club, applicant, start, i);
    var first := FirstUsable(s, club, applicant, start, 0);
    if first.None? {
      assert open == {};
    } else {
      var second := FirstUsable(s, club, applicant, start, first.value + 1);
      if second.None? {
        assert open == {first.value};
      } else {
        AtLeastTwo(open, first.value, second.value);
      }
    }
  }

  lemma AtLeastTwo(xs: set<nat>, a: nat, b: nat)
    requires a in xs && b in xs && a != b
    ensures |xs| > 1
  {
    assert b in xs - {a};
    assert |xs - {a}| == |xs| - 1;
  }
}
