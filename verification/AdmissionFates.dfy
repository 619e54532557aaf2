/**
 How what was done to an application tells its phase, its membership and its verdict: laws that look back over
 a whole run.
 */
module AdmissionFates {
  import opened Common
  import opened Admission
  import opened AdmissionInvariants
  import H = AdmissionHistory

  /** The last step of the run was let through. */
  predicate LastIsDone(cap: nat, es: seq<Event>) {
    es != [] && OutcomeOf(cap, Run(cap, es[..|es| - 1]), es[|es| - 1]) == Done
  }

  /** The step `e` was made and let through at some point of the run. */
  predicate Did(cap: nat, es: seq<Event>, e: Event) {
    es != [] && (Did(cap, es[..|es| - 1], e) || (es[|es| - 1] == e && LastIsDone(cap, es)))
  }

  /** How membership `m` last ended since application `j` was accepted as it: with a ban or without, or not at all. */
  function EndedSince(cap: nat, es: seq<Event>, j: nat, m: nat): Option<bool> {
    if es == [] then None
    else
      var last := es[|es| - 1];
      if last == Decide(j, Accept(m)) && LastIsDone(cap, es) then None
      else if last.EndMembership? && last.membership == m then Some(last.ban)
      else EndedSince(cap, es[..|es| - 1], j, m)
  }

  // ---- Final phases --------------------------------------------------------------------------------------

  /** How the membership of an application that was accepted has ended since, if it did. */
  ghost predicate MembershipTells(cap: nat, es: seq<Event>, j: nat, app: App) {
    && (forall m: nat :: app.membership == Some(m) <==> Did(cap, es, Decide(j, Accept(m))))
    && (app.membership.Some? ==>
          var ended := EndedSince(cap, es, j, app.membership.value);
          app.phase == (if ended.None? then Active else if ended.value then Banned else Removed))
  }

  ghost predicate PhaseTells(cap: nat, es: seq<Event>, j: nat, app: App) {
    && MembershipTells(cap, es, j, app)
    && (app.phase == Declined <==> Did(cap, es, Decide(j, Decline)))
    && (app.phase == Phase.Withdrawn <==> Did(cap, es, Withdraw(j)))
    && (app.phase == Banned && app.membership.None? <==> Did(cap, es, Decide(j, Ban)))
    && (app.phase == Active || app.phase == Removed ==> app.membership.Some?)
  }

  /** What a step does to one application, if anything. */
  lemma StepOnApp(cap: nat, s: State, e: Event, j: nat)
    requires Inv(s) && j < |s.apps| && OutcomeOf(cap, s, e) == Done
    ensures j < |Step(cap, s, e).apps|
    ensures var app, app' := s.apps[j], Step(cap, s, e).apps[j];
      && (e.Decide? && e.app == j ==> app.phase == AwaitingReview && app' == Decided(app, e.decision))
      && (e == Withdraw(j) ==> Live(app.phase) && app' == app.(phase := Phase.Withdrawn))
      && (e.EndMembership? ==> app' == EndedWith(app, e.membership, e.ban))
      && (!(e.Decide? && e.app == j) && e != Withdraw(j) && !e.EndMembership? ==>
            app'.membership == app.membership && (app' == app || (Live(app.phase) && Live(app'.phase))))
  {
  }

  /** What is told of an application after one more step, in terms of what was told before. */
  lemma ToldNext(cap: nat, es: seq<Event>, j: nat)
    requires es != []
    ensures var front, e, done := es[..|es| - 1], es[|es| - 1], LastIsDone(cap, es);
      && (forall d :: Did(cap, es, Decide(j, d)) <==> Did(cap, front, Decide(j, d)) || (done && e == Decide(j, d)))
      && (Did(cap, es, Withdraw(j)) <==> Did(cap, front, Withdraw(j)) || (done && e == Withdraw(j)))
      && forall m: nat {:trigger EndedSince(cap, es, j, m)} ::
           EndedSince(cap, es, j, m) ==
             if done && e == Decide(j, Accept(m)) then None
             else if e.EndMembership? && e.membership == m then Some(e.ban)
             else EndedSince(cap, front, j, m)
  {
  }

  lemma DecideTells(cap: nat, es: seq<Event>, j: nat, app: App)
    requires es != [] && LastIsDone(cap, es) && es[|es| - 1].Decide? && es[|es| - 1].app == j
    requires PhaseTells(cap, es[..|es| - 1], j, app) && app.phase == AwaitingReview && app.membership.None?
    ensures PhaseTells(cap, es, j, Decided(app, es[|es| - 1].decision))
  {
    ToldNext(cap, es, j);
  }

  lemma WithdrawTells(cap: nat, es: seq<Event>, j: nat, app: App)
    requires es != [] && LastIsDone(cap, es) && es[|es| - 1] == Withdraw(j)
    requires PhaseTells(cap, es[..|es| - 1], j, app) && Live(app.phase) && app.membership.None?
    ensures PhaseTells(cap, es, j, app.(phase := Phase.Withdrawn))
  {
    ToldNext(cap, es, j);
  }

  lemma EndTells(cap: nat, es: seq<Event>, j: nat, app: App)
    requires es != [] && LastIsDone(cap, es) && es[|es| - 1].EndMembership?
    requires PhaseTells(cap, es[..|es| - 1], j, app)
    ensures PhaseTells(cap, es, j, EndedWith(app, es[|es| - 1].membership, es[|es| - 1].ban))
  {
    ToldNext(cap, es, j);
  }

  /** A step that is not about the application, or is not let through. */
  lemma OtherTells(cap: nat, es: seq<Event>, j: nat, app: App, app': App)
    requires es != [] && PhaseTells(cap, es[..|es| - 1], j, app)
    requires var e := es[|es| - 1];
      !LastIsDone(cap, es) || (!(e.Decide? && e.app == j) && e != Withdraw(j) && !e.EndMembership?)
    requires app'.membership == app.membership && (app' == app || (Live(app.phase) && Live(app'.phase)))
    requires app.membership.Some? ==> app' == app
    ensures PhaseTells(cap, es, j, app')
  {
    ToldNext(cap, es, j);
  }

  lemma FateStep(cap: nat, es: seq<Event>, j: nat)
    requires es != [] && j < |Run(cap, es[..|es| - 1]).apps| && LastIsDone(cap, es)
    requires Inv(Run(cap, es[..|es| - 1])) && Inv(Run(cap, es))
    requires PhaseTells(cap, es[..|es| - 1], j, Run(cap, es[..|es| - 1]).apps[j])
    ensures j < |Run(cap, es).apps| && PhaseTells(cap, es, j, Run(cap, es).apps[j])
  {
    var s, e := Run(cap, es[..|es| - 1]), es[|es| - 1];
    var app := s.apps[j];
    StepOnApp(cap, s, e, j);
    assert AppFits(s.invites, app);
    if e.Decide? && e.app == j {
      DecideTells(cap, es, j, app);
    } else if e == Withdraw(j) {
      WithdrawTells(cap, es, j, app);
    } else if e.EndMembership? {
      EndTells(cap, es, j, app);
    } else {
      OtherTells(cap, es, j, app, Run(cap, es).apps[j]);
    }
  }

  /** Nothing is done to an application before it is made. */
  lemma {:induction false} NothingBefore(cap: nat, es: seq<Event>, j: nat)
    requires j >= |Run(cap, es).apps|
    ensures forall d :: !Did(cap, es, Decide(j, d))
    ensures !Did(cap, es, Withdraw(j))
  {
    if es != [] {
      var front := es[..|es| - 1];
      if j < |Run(cap, front).apps| {
        H.AppsStay(cap, Run(cap, front), es[|es| - 1], j);
      }
      NothingBefore(cap, front, j);
    }
  }

  lemma {:induction false} RunTells(cap: nat, es: seq<Event>, j: nat)
    requires j < |Run(cap, es).apps|
    ensures PhaseTells(cap, es, j, Run(cap, es).apps[j])
  {
    if es != [] {
      var front := es[..|es| - 1];
      RunInv(cap, front);
      RunInv(cap, es);
      if j < |Run(cap, front).apps| {
        RunTells(cap, front, j);
        if LastIsDone(cap, es) {
          FateStep(cap, es, j);
        } else {
          OtherTells(cap, es, j, Run(cap, es).apps[j], Run(cap, es).apps[j]);
        }
      } else {
        NothingBefore(cap, front, j);
        NewAppTells(cap, es, j);
      }
    }
  }

  lemma NewAppTells(cap: nat, es: seq<Event>, j: nat)
    requires es != [] && |Run(cap, es[..|es| - 1]).apps| <= j < |Run(cap, es).apps|
    requires forall d :: !Did(cap, es[..|es| - 1], Decide(j, d))
    requires !Did(cap, es[..|es| - 1], Withdraw(j)) && Inv(Run(cap, es))
    ensures PhaseTells(cap, es, j, Run(cap, es).apps[j])
  {
    var s, e := Run(cap, es[..|es| - 1]), es[|es| - 1];
    H.NewIsLive(cap, s, e, j);
    assert AppFits(Run(cap, es).invites, Run(cap, es).apps[j]);
    assert e.ApplyToClub? || e.Redeem?;
  }

  /**
   In every run what was done to an application tells its final phase. It is declined exactly if it was declined
   and withdrawn exactly if it was withdrawn; it is active under a membership exactly if it was accepted as it and
   the membership has not ended since; it is banned exactly if it was, or if its membership last ended with a ban,
   and removed exactly if that last ended without.
   */
  lemma HistoryTellsPhase(cap: nat, es: seq<Event>, j: nat)
    requires j < |Run(cap, es).apps|
    ensures var app := Run(cap, es).apps[j];
      && (app.phase == Declined <==> Did(cap, es, Decide(j, Decline)))
      && (app.phase == Phase.Withdrawn <==> Did(cap, es, Withdraw(j)))
      && (forall m: nat :: app.phase == Active && app.membership == Some(m)
            <==> Did(cap, es, Decide(j, Accept(m))) && EndedSince(cap, es, j, m) == None)
      && (app.phase == Active ==> app.membership.Some?)
      && (app.phase == Banned <==>
            || Did(cap, es, Decide(j, Ban))
            || exists m: nat :: Did(cap, es, Decide(j, Accept(m))) && EndedSince(cap, es, j, m) == Some(true))
      && (app.phase == Removed <==>
            exists m: nat :: Did(cap, es, Decide(j, Accept(m))) && EndedSince(cap, es, j, m) == Some(false))
  {
    RunTells(cap, es, j);
  }

  // ---- Verdicts ------------------------------------------------------------------------------------------

  /** The draft that the `k`-th prepared revision was evaluated from. */
  function DraftOfPrepared(cap: nat, es: seq<Event>, k: nat): Option<Draft> {
    if es == [] then None
    else
      var front, last := es[..|es| - 1], es[|es| - 1];
      if last.PrepareRevision? && LastIsDone(cap, es) && |Run(cap, front).prepared| == k then Some(last.draft)
      else DraftOfPrepared(cap, front, k)
  }

  /** The draft application `j` was last evaluated from, when it was made or revised. Nothing precedes the first one. */
  function LastDraft(cap: nat, es: seq<Event>, j: nat): Option<Draft> {
    if es == [] then None
    else
      var front, last := es[..|es| - 1], es[|es| - 1];
      if (last.ApplyToClub? || last.Redeem?) && LastIsDone(cap, es) && |Run(cap, front).apps| == j then
        Some(last.draft.(sameInput := false))
      else if last.Revise? && LastIsDone(cap, es) && last.prepared < |Run(cap, front).prepared|
              && Run(cap, front).prepared[last.prepared].app == j then
        DraftOfPrepared(cap, front, last.prepared)
      else LastDraft(cap, front, j)
  }

  /** What the verdict on a draft says: whether there was a policy to judge it by, and what the gate said if so. */
  predicate VerdictTells(verdict: Verdict, d: Draft) {
    && (verdict == NeedsRevision <==> d.sameInput || (d.hasPolicy && d.gate == GateNeedsRevision))
    && (verdict == NotRun <==> !d.sameInput && !d.hasPolicy)
    && (verdict == Passed <==> !d.sameInput && d.hasPolicy && d.gate == GatePassed)
  }

  ghost predicate PreparedTells(cap: nat, es: seq<Event>, k: nat) {
    k < |Run(cap, es).prepared| ==>
      && DraftOfPrepared(cap, es, k).Some?
      && VerdictTells(Run(cap, es).prepared[k].evaluation.verdict, DraftOfPrepared(cap, es, k).value)
  }

  lemma {:induction false} DraftsOfPrepared(cap: nat, es: seq<Event>, k: nat)
    ensures PreparedTells(cap, es, k)
  {
    if es != [] {
      var front := es[..|es| - 1];
      DraftsOfPrepared(cap, front, k);
      RunInv(cap, front);
      PreparedNext(cap, es, k);
    }
  }

  lemma PreparedNext(cap: nat, es: seq<Event>, k: nat)
    requires es != [] && PreparedTells(cap, es[..|es| - 1], k) && Inv(Run(cap, es[..|es| - 1]))
    ensures PreparedTells(cap, es, k)
  {
    var s, e := Run(cap, es[..|es| - 1]), es[|es| - 1];
    if e.PrepareRevision? && LastIsDone(cap, es) {
      assert AppFits(s.invites, s.apps[e.app]);
    }
  }

  ghost predicate DraftTells(cap: nat, es: seq<Event>, j: nat) {
    j < |Run(cap, es).apps| ==>
      && LastDraft(cap, es, j).Some?
      && VerdictTells(Run(cap, es).apps[j].verdict, LastDraft(cap, es, j).value)
  }

  lemma NewVerdict(cap: nat, es: seq<Event>, j: nat)
    requires es != [] && |Run(cap, es[..|es| - 1]).apps| <= j < |Run(cap, es).apps|
    ensures DraftTells(cap, es, j)
  {
    var e := es[|es| - 1];
    assert (e.ApplyToClub? || e.Redeem?) && LastIsDone(cap, es);
    assert Run(cap, es).apps[j].verdict == PrepareEvaluation(None, e.draft).verdict;
  }

  /** Only revising gives an application another verdict. */
  lemma VerdictOnStep(cap: nat, s: State, e: Event, j: nat)
    requires Inv(s) && j < |s.apps| && OutcomeOf(cap, s, e) == Done
    ensures j < |Step(cap, s, e).apps|
    ensures Step(cap, s, e).apps[j].verdict ==
      if e.Revise? && e.prepared < |s.prepared| && s.prepared[e.prepared].app == j
      then s.prepared[e.prepared].evaluation.verdict else s.apps[j].verdict
  {
  }

  lemma OldVerdict(cap: nat, es: seq<Event>, j: nat)
    requires es != [] && j < |Run(cap, es[..|es| - 1]).apps| && Inv(Run(cap, es[..|es| - 1]))
    requires es[|es| - 1].Revise? ==> PreparedTells(cap, es[..|es| - 1], es[|es| - 1].prepared)
    requires DraftTells(cap, es[..|es| - 1], j)
    ensures DraftTells(cap, es, j)
  {
    if LastIsDone(cap, es) {
      VerdictOnStep(cap, Run(cap, es[..|es| - 1]), es[|es| - 1], j);
    }
  }

  /**
   In every run the verdict on an application tells what its last draft met: it asks for revision exactly if the
   gate did, or if the input had not changed since it did; it has not run exactly if the club had no policy; and
   it passes exactly if the gate let it pass. Any other answer of the gate leaves it unavailable.
   */
  lemma {:induction false} HistoryTellsVerdict(cap: nat, es: seq<Event>, j: nat)
    requires j < |Run(cap, es).apps|
    ensures LastDraft(cap, es, j).Some? && VerdictTells(Run(cap, es).apps[j].verdict, LastDraft(cap, es, j).value)
  {
    if es != [] {
      var front := es[..|es| - 1];
      RunInv(cap, front);
      if j < |Run(cap, front).apps| {
        HistoryTellsVerdict(cap, front, j);
        if es[|es| - 1].Revise? {
          DraftsOfPrepared(cap, front, es[|es| - 1].prepared);
        }
        OldVerdict(cap, es, j);
      } else {
        NewVerdict(cap, es, j);
      }
    }
  }
}
