/** What an application shows of its history. */
module AdmissionHistory {
  import opened Common
  import opened Admission
  import opened AdmissionInvariants

  datatype Actor = Applicant | ClubAdmins | Nobody

  /** `submittedToAdmins` says whether the time of submission is shown. */
  datatype Workflow = Workflow(
    awaitingActor: Actor, currentlySubmittedToAdmins: bool, submittedToAdmins: bool,
    applicantMustActNow: bool, canApplicantRevise: bool)

  function BuildApplicationWorkflow(app: App): Workflow {
    var submitted := app.verdict != NeedsRevision;
    match app.phase
    case RevisionRequired => Workflow(Applicant, false, submitted, true, true)
    case AwaitingReview => Workflow(ClubAdmins, true, submitted, false, false)
    case _ => Workflow(Nobody, false, submitted, false, false)
  }

  ghost predicate WasAwaitingAt(cap: nat, es: seq<Event>, j: nat, k: nat) {
    k <= |es| && j < |Run(cap, es[..k]).apps| && Run(cap, es[..k]).apps[j].phase == AwaitingReview
  }

  ghost predicate EverAwaiting(cap: nat, es: seq<Event>, j: nat) {
    exists k: nat :: WasAwaitingAt(cap, es, j, k)
  }

  /** No application goes away or changes whose it is. */
  lemma AppsStay(cap: nat, s: State, e: Event, j: nat)
    requires j < |s.apps|
    ensures var s' := Step(cap, s, e);
      && j < |s'.apps| && SameApplicant(s'.apps[j], s.apps[j]) && s'.apps[j].invitation == s.apps[j].invitation
      && s'.apps[j].sponsor == s.apps[j].sponsor
  {
  }

  /** Only revising changes a verdict, and only that of an application in need of revision. */
  lemma VerdictStays(cap: nat, s: State, e: Event, j: nat)
    requires Inv(s) && j < |s.apps|
    ensures var app, app' := s.apps[j], Step(cap, s, e).apps[j];
      && (app'.verdict != app.verdict ==> app.phase == RevisionRequired && Live(app'.phase))
      && (app'.phase == AwaitingReview && app.phase != AwaitingReview ==> app.phase == RevisionRequired)
  {
    AppsStay(cap, s, e, j);
    assert AppFits(s.invites, s.apps[j]);
  }

  /** A new application is live. */
  lemma NewIsLive(cap: nat, s: State, e: Event, j: nat)
    requires |s.apps| <= j < |Step(cap, s, e).apps|
    ensures Live(Step(cap, s, e).apps[j].phase)
  {
    if e.ApplyToClub? || e.Redeem? {
      EvaluationFits(None, e.draft);
    }
  }

  /** A step shows an application as submitted exactly if it was before, or is awaiting review now. */
  lemma StepSubmits(cap: nat, s: State, e: Event, j: nat)
    requires Inv(s) && j < |Step(cap, s, e).apps|
    ensures var app := Step(cap, s, e).apps[j];
      BuildApplicationWorkflow(app).submittedToAdmins <==>
        (j < |s.apps| && BuildApplicationWorkflow(s.apps[j]).submittedToAdmins) || app.phase == AwaitingReview
  {
    StepKeepsInv(cap, s, e);
    var s' := Step(cap, s, e);
    assert AppFits(s'.invites, s'.apps[j]);
    if j < |s.apps| {
      assert AppFits(s.invites, s.apps[j]);
      VerdictStays(cap, s, e, j);
    } else {
      NewIsLive(cap, s, e, j);
    }
  }

  lemma AwaitingInPrefix(cap: nat, es: seq<Event>, j: nat, k: nat)
    requires k < |es|
    ensures WasAwaitingAt(cap, es, j, k) <==> WasAwaitingAt(cap, es[..|es| - 1], j, k)
  {
    assert es[..k] == es[..|es| - 1][..k];
  }

  lemma EverAwaitingStep(cap: nat, es: seq<Event>, j: nat)
    requires es != [] && j < |Run(cap, es).apps|
    ensures EverAwaiting(cap, es, j) <==>
      EverAwaiting(cap, es[..|es| - 1], j) || Run(cap, es).apps[j].phase == AwaitingReview
  {
    var front := es[..|es| - 1];
    assert es[..|es|] == es;
    forall k: nat | k < |es| ensures WasAwaitingAt(cap, es, j, k) <==> WasAwaitingAt(cap, front, j, k) {
      AwaitingInPrefix(cap, es, j, k);
    }
    assert Run(cap, es).apps[j].phase == AwaitingReview <==> WasAwaitingAt(cap, es, j, |es|);
  }

  lemma {:induction false} NeverAwaitingBefore(cap: nat, es: seq<Event>, j: nat)
    requires j >= |Run(cap, es).apps|
    ensures !EverAwaiting(cap, es, j)
  {
    assert es[..|es|] == es;
    if es != [] {
      var front := es[..|es| - 1];
      if j < |Run(cap, front).apps| {
        AppsStay(cap, Run(cap, front), es[|es| - 1], j);
      }
      NeverAwaitingBefore(cap, front, j);
      forall k: nat | k <= |es| ensures !WasAwaitingAt(cap, es, j, k) {
        if k < |es| {
          AwaitingInPrefix(cap, es, j, k);
        }
      }
    }
  }

  /** In every run an application shows a time of submission exactly if it has ever awaited review. */
  lemma {:induction false} SubmittedIffEverAwaiting(cap: nat, es: seq<Event>, j: nat)
    requires j < |Run(cap, es).apps|
    ensures BuildApplicationWorkflow(Run(cap, es).apps[j]).submittedToAdmins <==> EverAwaiting(cap, es, j)
  {
    if es != [] {
      var front := es[..|es| - 1];
      var s := Run(cap, front);
      RunInv(cap, front);
      StepSubmits(cap, s, es[|es| - 1], j);
      EverAwaitingStep(cap, es, j);
      if j < |s.apps| {
        SubmittedIffEverAwaiting(cap, front, j);
      } else {
        NeverAwaitingBefore(cap, front, j);
      }
    }
  }

  /** What an application shows agrees with what revising and deciding let through. */
  lemma WorkflowAgreesWithGuards(cap: nat, s: State, j: nat, draft: Draft, d: Decision, k: nat)
    requires Inv(s) && j < |s.apps|
    ensures var w := BuildApplicationWorkflow(s.apps[j]);
      && (w.canApplicantRevise <==> OutcomeOf(cap, s, PrepareRevision(j, draft)) == Done)
      && (k < |s.prepared| && s.prepared[k].app == j ==>
            (w.canApplicantRevise <==> OutcomeOf(cap, s, Revise(k)) == Done))
      && (w.currentlySubmittedToAdmins <==> OutcomeOf(cap, s, Decide(j, d)) == Done)
      && (w.awaitingActor != Nobody <==> OutcomeOf(cap, s, Withdraw(j)) == Done)
      && (w.awaitingActor == Applicant <==> w.canApplicantRevise) && (w.applicantMustActNow <==> w.canApplicantRevise)
      && (w.awaitingActor == ClubAdmins <==> w.currentlySubmittedToAdmins)
  {
  }

  function Rank(phase: Phase): nat {
    match phase
    case RevisionRequired => 0
    case AwaitingReview => 1
    case _ => 2
  }

  /** No step takes an application from review back to revision, or from a final phase back to a live one. */
  lemma PhasesOnlyMoveOn(cap: nat, s: State, e: Event, j: nat)
    requires Inv(s) && j < |s.apps|
    ensures j < |Step(cap, s, e).apps| && Rank(s.apps[j].phase) <= Rank(Step(cap, s, e).apps[j].phase)
  {
    AppsStay(cap, s, e, j);
    assert AppFits(s.invites, s.apps[j]);
  }
}
