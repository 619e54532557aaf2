/** What every run of invitations and applications keeps, and the history of a single one. */
module AdmissionInvariants {
  import opened Common
  import opened Admission

  ghost predicate PhaseFits(phase: Phase, verdict: Verdict) {
    && (phase == RevisionRequired ==> verdict == NeedsRevision)
    && (phase == AwaitingReview ==> verdict != NeedsRevision)
  }

  /** An application agrees with the invitation it was made under. */
  ghost predicate AppFits(invites: seq<Invite>, app: App) {
    && PhaseFits(app.phase, app.verdict)
    && (app.membership.Some? ==> !Live(app.phase))
    && match app.invitation
       case None => app.sponsor.None? && !app.late
       case Some(i) =>
         && i < |invites| && invites[i].used
         && app.club == invites[i].key.club && app.sponsor == Some(invites[i].key.sponsor)
  }

  ghost predicate AppsFit(invites: seq<Invite>, apps: seq<App>) {
    forall j :: 0 <= j < |apps| ==> AppFits(invites, apps[j])
  }

  ghost predicate IsCarried(apps: seq<App>, i: nat) {
    exists j :: 0 <= j < |apps| && apps[j].invitation == Some(i)
  }

  ghost predicate UsedIsCarried(invites: seq<Invite>, apps: seq<App>) {
    forall i :: 0 <= i < |invites| && invites[i].used ==> IsCarried(apps, i)
  }

  ghost predicate OneCarrier(apps: seq<App>) {
    forall j, k :: 0 <= j < k < |apps| && apps[j].invitation.Some? ==> apps[j].invitation != apps[k].invitation
  }

  ghost predicate InvitesFit(invites: seq<Invite>) {
    forall i :: 0 <= i < |invites| ==>
      !(invites[i].used && invites[i].revoked) && (invites[i].supportWithdrawn ==> invites[i].used)
  }

  predicate SameApplicant(a: App, b: App) {
    a.club == b.club && a.applicant == b.applicant
  }

  ghost predicate OneOpen(apps: seq<App>) {
    forall j, k :: 0 <= j < k < |apps| && SameApplicant(apps[j], apps[k]) ==>
      !(Live(apps[j].phase) && Live(apps[k].phase))
  }

  ghost predicate PreparedFit(s: State) {
    forall k :: 0 <= k < |s.prepared| ==>
      && s.prepared[k].app < |s.apps| && Live(s.prepared[k].evaluation.phase)
      && PhaseFits(s.prepared[k].evaluation.phase, s.prepared[k].evaluation.verdict)
  }

  ghost predicate Inv(s: State) {
    && AppsFit(s.invites, s.apps)
    && UsedIsCarried(s.invites, s.apps)
    && OneCarrier(s.apps)
    && InvitesFit(s.invites)
    && OneOpen(s.apps)
    && PreparedFit(s)
  }

  lemma EvaluationFits(previous: Option<App>, d: Draft)
    requires previous.Some? ==>
      previous.value.phase == RevisionRequired && PhaseFits(previous.value.phase, previous.value.verdict)
    ensures var ev := PrepareEvaluation(previous, d); Live(ev.phase) && PhaseFits(ev.phase, ev.verdict)
  {
  }

  predicate Consumable(s: State, club: Club, binding: Option<nat>) {
    binding.Some? ==>
      && binding.value < |s.invites| && s.invites[binding.value].key.club == club
      && !s.invites[binding.value].used && !s.invites[binding.value].revoked
  }

  lemma ConsumeKeepsCarriers(s: State, club: Club, applicant: Member, binding: Option<nat>, ev: Evaluation)
    requires AppsFit(s.invites, s.apps) && UsedIsCarried(s.invites, s.apps) && OneCarrier(s.apps)
    requires Consumable(s, club, binding)
    ensures var t := Consume(s, club, applicant, binding, ev);
      UsedIsCarried(t.invites, t.apps) && OneCarrier(t.apps)
  {
    var t := Consume(s, club, applicant, binding, ev);
    var n := |s.apps|;
    if binding.Some? {
      assert t.apps[n].invitation == binding;
      forall j | 0 <= j < n ensures s.apps[j].invitation != binding {
        assert AppFits(s.invites, s.apps[j]);
      }
    }
    forall i | 0 <= i < |t.invites| && t.invites[i].used ensures IsCarried(t.apps, i) {
      if binding == Some(i) {
        assert t.apps[n].invitation == Some(i);
      } else {
        assert IsCarried(s.apps, i);
        var j :| 0 <= j < n && s.apps[j].invitation == Some(i);
        assert t.apps[j].invitation == Some(i);
      }
    }
  }

  lemma ConsumeKeepsOneOpen(s: State, club: Club, applicant: Member, binding: Option<nat>, ev: Evaluation)
    requires OneOpen(s.apps) && !HasOpenApplication(s, club, applicant) && Consumable(s, club, binding)
    ensures OneOpen(Consume(s, club, applicant, binding, ev).apps)
  {
    var t := Consume(s, club, applicant, binding, ev);
    forall j, k | 0 <= j < k < |t.apps| && SameApplicant(t.apps[j], t.apps[k])
      ensures !(Live(t.apps[j].phase) && Live(t.apps[k].phase))
    {
      assert SameApplicant(s.apps[j], t.apps[k]);
    }
  }

  lemma ConsumeKeepsFit(s: State, club: Club, applicant: Member, binding: Option<nat>, ev: Evaluation)
    requires AppsFit(s.invites, s.apps) && Consumable(s, club, binding) && PhaseFits(ev.phase, ev.verdict)
    ensures var t := Consume(s, club, applicant, binding, ev); AppsFit(t.invites, t.apps)
  {
    var t := Consume(s, club, applicant, binding, ev);
    forall j | 0 <= j < |t.apps| ensures AppFits(t.invites, t.apps[j]) {
      if j < |s.apps| {
        assert AppFits(s.invites, s.apps[j]);
      }
    }
  }

  lemma ConsumeKeepsInv(s: State, club: Club, applicant: Member, binding: Option<nat>, ev: Evaluation)
    requires Inv(s) && !HasOpenApplication(s, club, applicant)
    requires Live(ev.phase) && PhaseFits(ev.phase, ev.verdict)
    requires Consumable(s, club, binding)
    ensures Inv(Consume(s, club, applicant, binding, ev))
  {
    ConsumeKeepsFit(s, club, applicant, binding, ev);
    ConsumeKeepsCarriers(s, club, applicant, binding, ev);
    ConsumeKeepsOneOpen(s, club, applicant, binding, ev);
  }

  /** Changing one application, to a phase that is live only if it was, keeps everything. */
  lemma WithAppKeepsInv(s: State, j: nat, app: App)
    requires Inv(s) && j < |s.apps|
    requires AppFits(s.invites, app) && app.invitation == s.apps[j].invitation && SameApplicant(app, s.apps[j])
    requires Live(app.phase) ==> Live(s.apps[j].phase)
    ensures Inv(WithApp(s, j, app))
  {
    var t := WithApp(s, j, app);
    forall i | 0 <= i < |t.invites| && t.invites[i].used ensures IsCarried(t.apps, i) {
      assert IsCarried(s.apps, i);
      var k :| 0 <= k < |s.apps| && s.apps[k].invitation == Some(i);
      assert t.apps[k].invitation == Some(i);
    }
    forall k, l | 0 <= k < l < |t.apps| && SameApplicant(t.apps[k], t.apps[l])
      ensures !(Live(t.apps[k].phase) && Live(t.apps[l].phase))
    {
      assert SameApplicant(s.apps[k], s.apps[l]);
    }
  }

  /** Changing invitations, but neither their keys nor which are used, keeps what relates applications to them. */
  lemma InvitesKeepInv(s: State, invites: seq<Invite>)
    requires Inv(s) && |invites| >= |s.invites| && InvitesFit(invites)
    requires forall i :: 0 <= i < |s.invites| ==>
      invites[i].key == s.invites[i].key && invites[i].used == s.invites[i].used
    requires forall i :: |s.invites| <= i < |invites| ==> !invites[i].used
    ensures Inv(s.(invites := invites))
  {
    forall j | 0 <= j < |s.apps| ensures AppFits(invites, s.apps[j]) {
      assert AppFits(s.invites, s.apps[j]);
    }
    forall i | 0 <= i < |invites| && invites[i].used ensures IsCarried(s.apps, i) {
      assert s.invites[i].used;
    }
  }

  lemma EndMembershipKeepsInv(s: State, m: nat, ban: bool)
    requires Inv(s)
    ensures Inv(Step(0, s, EndMembership(m, ban)))
  {
    var t := Step(0, s, EndMembership(m, ban));
    forall j | 0 <= j < |s.apps|
      ensures AppFits(t.invites, t.apps[j]) && t.apps[j].invitation == s.apps[j].invitation
      ensures SameApplicant(t.apps[j], s.apps[j]) && (Live(t.apps[j].phase) ==> Live(s.apps[j].phase))
    {
      assert AppFits(s.invites, s.apps[j]);
    }
    forall i | 0 <= i < |t.invites| && t.invites[i].used ensures IsCarried(t.apps, i) {
      assert IsCarried(s.apps, i);
      var k :| 0 <= k < |s.apps| && s.apps[k].invitation == Some(i);
      assert t.apps[k].invitation == Some(i);
    }
    forall k, l | 0 <= k < l < |t.apps| && SameApplicant(t.apps[k], t.apps[l])
      ensures !(Live(t.apps[k].phase) && Live(t.apps[l].phase))
    {
      assert SameApplicant(s.apps[k], s.apps[l]);
    }
  }

  lemma InviteStepKeepsInv(cap: nat, s: State, e: Event)
    requires Inv(s) && OutcomeOf(cap, s, e) == Done
    requires e.IssueInsert? || e.MaterializeExpiry? || e.Revoke? || e.SponsorLeaves?
    ensures Inv(Step(cap, s, e))
  {
    InvitesKeepInv(s, Step(cap, s, e).invites);
  }

  lemma ConsumeStepKeepsInv(cap: nat, s: State, e: Event)
    requires Inv(s) && OutcomeOf(cap, s, e) == Done
    requires e.ApplyToClub? || e.Redeem?
    ensures Inv(Step(cap, s, e))
  {
    EvaluationFits(None, e.draft);
    var ev := PrepareEvaluation(None, e.draft);
    if e.ApplyToClub? {
      ConsumeKeepsInv(s, e.club, e.applicant, Binding(s, e.club, e.applicant, e.chosen, e.start).value, ev);
    } else {
      ConsumeKeepsInv(s, s.invites[e.invite].key.club, e.applicant, Some(e.invite), ev);
    }
  }

  lemma AppStepKeepsInv(cap: nat, s: State, e: Event)
    requires Inv(s) && OutcomeOf(cap, s, e) == Done
    requires e.Revise? || e.Withdraw? || e.Decide?
    ensures Inv(Step(cap, s, e))
  {
    match e
    case Revise(k) =>
      var j, ev := s.prepared[k].app, s.prepared[k].evaluation;
      assert AppFits(s.invites, s.apps[j]);
      WithAppKeepsInv(s, j, s.apps[j].(phase := ev.phase, verdict := ev.verdict));
    case Withdraw(j) =>
      assert AppFits(s.invites, s.apps[j]);
      WithAppKeepsInv(s, j, s.apps[j].(phase := Phase.Withdrawn));
    case Decide(j, d) =>
      assert AppFits(s.invites, s.apps[j]);
      WithAppKeepsInv(s, j, Decided(s.apps[j], d));
  }

  lemma StepKeepsInv(cap: nat, s: State, e: Event)
    requires Inv(s)
    ensures Inv(Step(cap, s, e))
  {
    if OutcomeOf(cap, s, e) == Done {
      if e.IssueInsert? || e.MaterializeExpiry? || e.Revoke? || e.SponsorLeaves? {
        InviteStepKeepsInv(cap, s, e);
      } else if e.ApplyToClub? || e.Redeem? {
        ConsumeStepKeepsInv(cap, s, e);
      } else if e.Revise? || e.Withdraw? || e.Decide? {
        AppStepKeepsInv(cap, s, e);
      } else if e.EndMembership? {
        EndMembershipKeepsInv(s, e.membership, e.ban);
      } else if e.PrepareRevision? {
        assert AppFits(s.invites, s.apps[e.app]);
        EvaluationFits(Some(s.apps[e.app]), e.draft);
      }
    }
  }

  lemma {:induction false} RunInv(cap: nat, es: seq<Event>)
    ensures Inv(Run(cap, es))
  {
    if es != [] {
      RunInv(cap, es[..|es| - 1]);
      StepKeepsInv(cap, Run(cap, es[..|es| - 1]), es[|es| - 1]);
    }
  }
}
