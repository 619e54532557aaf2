/**
 Invitations and applications of all clubs. Every transaction is one step, its commit, except two:
 issuing an invitation, which counts under an advisory lock and inserts later, and revising an
 application, which evaluates the draft before its transaction. The rows a transaction decides on are
 locked from its reads to its commit, but the clock is not: a transaction's now() is the time it began,
 `start`, and expiry is tested against that or against the clock at an earlier moment, `checkedAt`.
 Times are milliseconds.
 */
module Admission {
  import opened Common

  type Member = nat
  type Club = nat

  // ---- Rows ---------------------------------------------------------------------------------------

  /** A member is invited by notification, an email address by a code. */
  datatype Target = ToMember(member: Member) | ToEmail(email: nat)

  datatype Key = Key(club: Club, sponsor: Member)

  datatype Invite = Invite(
    key: Key, target: Target, expiresAt: nat,
    expired: bool, used: bool, revoked: bool, supportWithdrawn: bool)

  datatype Phase = RevisionRequired | AwaitingReview | Active | Declined | Banned | Removed | Withdrawn

  datatype Verdict = NotRun | Passed | NeedsRevision | Unavailable

  /** `late` records that the invitation had run out by the clock when the application consuming it committed. */
  datatype App = App(
    club: Club, applicant: Member, invitation: Option<nat>, sponsor: Option<Member>,
    phase: Phase, verdict: Verdict, membership: Option<nat>, late: bool)

  datatype Issue = Issue(target: Target, start: nat)

  datatype Evaluation = Evaluation(phase: Phase, verdict: Verdict)

  datatype Prepared = Prepared(app: nat, evaluation: Evaluation)

  /** `issuing` holds the issuers between their count and their insert, one a key. */
  datatype State = State(
    now: nat, invites: seq<Invite>, apps: seq<App>, issuing: map<Key, Issue>, prepared: seq<Prepared>)

  const INVITATION_TTL_MS: nat := 30 * 24 * 60 * 60 * 1000

  predicate Live(phase: Phase) {
    phase == RevisionRequired || phase == AwaitingReview
  }

  predicate OpenAt(inv: Invite, t: nat) {
    !inv.revoked && !inv.used && !inv.expired && inv.expiresAt > t
  }

  // ---- Evaluating a draft -----------------------------------------------------------------------------

  datatype GateVerdict = GatePassed | GateNeedsRevision | RejectedMalformed | Skipped | Failed

  function MapApplicationGateVerdict(v: GateVerdict): Evaluation {
    match v
    case GateNeedsRevision => Evaluation(RevisionRequired, NeedsRevision)
    case GatePassed => Evaluation(AwaitingReview, Passed)
    case _ => Evaluation(AwaitingReview, Unavailable)
  }

  /** What evaluating a draft takes: is the input that of the last run, has the club a policy, what says the gate. */
  datatype Draft = Draft(sameInput: bool, hasPolicy: bool, gate: GateVerdict)

  function PrepareEvaluation(previous: Option<App>, d: Draft): Evaluation {
    if previous.Some? && d.sameInput then Evaluation(previous.value.phase, previous.value.verdict)
    else if !d.hasPolicy then Evaluation(AwaitingReview, NotRun)
    else MapApplicationGateVerdict(d.gate)
  }

  // ---- Counting -----------------------------------------------------------------------------------------

  function Count(n: nat, p: nat -> bool): nat {
    if n == 0 then 0 else Count(n - 1, p) + if p(n - 1) then 1 else 0
  }

  function OpenOf(invites: seq<Invite>, key: Key, t: nat): nat -> bool {
    (i: nat) => i < |invites| && invites[i].key == key && OpenAt(invites[i], t)
  }

  predicate Supported(invites: seq<Invite>, app: App) {
    app.invitation.None? || (app.invitation.value < |invites| && !invites[app.invitation.value].supportWithdrawn)
  }

  predicate CountsFor(invites: seq<Invite>, app: App, key: Key) {
    app.club == key.club && app.sponsor == Some(key.sponsor) && Live(app.phase) && Supported(invites, app)
  }

  function SponsoredOf(invites: seq<Invite>, apps: seq<App>, key: Key): nat -> bool {
    (j: nat) => j < |apps| && CountsFor(invites, apps[j], key)
  }

  function OpenCount(s: State, key: Key, t: nat): nat {
    Count(|s.invites|, OpenOf(s.invites, key, t))
  }

  function SponsoredCount(s: State, key: Key): nat {
    Count(|s.apps|, SponsoredOf(s.invites, s.apps, key))
  }

  /** What the quota check counts: open invitations and live sponsored applications with support not withdrawn. */
  function Total(s: State, key: Key, t: nat): nat {
    OpenCount(s, key, t) + SponsoredCount(s, key)
  }

  // ---- Steps --------------------------------------------------------------------------------------------

  datatype Decision = Accept(membership: nat) | Decline | Ban

  datatype Event =
    | Tick(d: nat)
    | IssueCount(key: Key, target: Target, start: nat)
    | IssueInsert(key: Key)
    | IssueAbort(key: Key)
    | MaterializeExpiry(invite: nat, start: nat)
    | Revoke(invite: nat, actor: Member, isAdmin: bool, checkedAt: nat)
    | SponsorLeaves(key: Key)
    | ApplyToClub(club: Club, applicant: Member, chosen: Option<nat>, start: nat, draft: Draft)
    | Redeem(invite: nat, applicant: Member, checkedAt: nat, draft: Draft)
    | PrepareRevision(app: nat, draft: Draft)
    | Revise(prepared: nat)
    | Withdraw(app: nat)
    | Decide(app: nat, decision: Decision)
    | EndMembership(membership: nat, ban: bool)

  datatype Outcome =
    | Done | NotFound | Forbidden | InvalidState | AlreadyOpen | AlreadyRevoked | AlreadyExpired
    | QuotaExceeded | InFlight | Ambiguous | InvalidCode | NotMutable | AlreadyDecided

  predicate HasOpenInvite(s: State, key: Key, target: Target, t: nat) {
    exists i :: 0 <= i < |s.invites| && (
      s.invites[i].key == key && s.invites[i].target == target && OpenAt(s.invites[i], t))
  }

  predicate HasLiveApp(s: State, invite: nat) {
    exists j :: 0 <= j < |s.apps| && s.apps[j].invitation == Some(invite) && Live(s.apps[j].phase)
  }

  predicate HasOpenApplication(s: State, club: Club, applicant: Member) {
    exists j :: 0 <= j < |s.apps| && s.apps[j].club == club && s.apps[j].applicant == applicant && Live(s.apps[j].phase)
  }

  /** An invitation the applicant can use by applying, as a transaction that began at `start` sees it. */
  predicate Usable(s: State, club: Club, applicant: Member, start: nat, i: nat) {
    && i < |s.invites| && s.invites[i].key.club == club && s.invites[i].target == ToMember(applicant)
    && OpenAt(s.invites[i], start)
  }

  /** The first usable invitation from `from` on. */
  function FirstUsable(s: State, club: Club, applicant: Member, start: nat, from: nat): (r: Option<nat>)
    ensures r.Some? ==> from <= r.value && Usable(s, club, applicant, start, r.value)
    ensures forall i :: from <= i < (if r.Some? then r.value else |s.invites|) ==> !Usable(s, club, applicant, start, i)
    decreases |s.invites| - from
  {
    if from >= |s.invites| then None
    else if Usable(s, club, applicant, start, from) then Some(from)
    else FirstUsable(s, club, applicant, start, from + 1)
  }

  /** The invitation an application is bound to: the chosen one, or else the only usable one, if there is one. */
  function Binding(s: State, club: Club, applicant: Member, chosen: Option<nat>, start: nat)
    : Result<Option<nat>, Outcome>
  {
    match chosen
    case Some(i) => if Usable(s, club, applicant, start, i) then Ok(Some(i)) else Err(NotFound)
    case None =>
      var first := FirstUsable(s, club, applicant, start, 0);
      if first.None? then Ok(None)
      else if FirstUsable(s, club, applicant, start, first.value + 1).Some? then Err(Ambiguous)
      else Ok(first)
  }

  function RevokeOutcome(s: State, i: nat, actor: Member, isAdmin: bool, checkedAt: nat): Outcome {
    if checkedAt > s.now then InvalidState
    else if i >= |s.invites| || (actor != s.invites[i].key.sponsor && !isAdmin) then NotFound
    else
      var inv := s.invites[i];
      if inv.used then
        if !HasLiveApp(s, i) then InvalidState else if actor != inv.key.sponsor then Forbidden else Done
      else if inv.revoked then AlreadyRevoked
      else if inv.expired || inv.expiresAt <= checkedAt then AlreadyExpired
      else Done
  }

  function DecideOutcome(s: State, j: nat): Outcome {
    if j >= |s.apps| then NotFound
    else if s.apps[j].phase == AwaitingReview then Done
    else if s.apps[j].phase in {Active, Declined, Banned, Removed} then AlreadyDecided
    else NotMutable
  }

  /** Which check refuses a step, in order. A step that cannot be taken, say for a held lock, is `InvalidState`. */
  function OutcomeOf(cap: nat, s: State, e: Event): Outcome {
    match e
    case IssueCount(key, target, start) =>
      if key in s.issuing || start > s.now then InvalidState
      else if HasOpenInvite(s, key, target, start) then AlreadyOpen
      else if Total(s, key, start) >= cap then QuotaExceeded
      else Done
    case IssueInsert(key) => if key in s.issuing then Done else InvalidState
    case Revoke(i, actor, isAdmin, checkedAt) => RevokeOutcome(s, i, actor, isAdmin, checkedAt)
    case ApplyToClub(club, applicant, chosen, start, _) =>
      if start > s.now then InvalidState
      else if HasOpenApplication(s, club, applicant) then InFlight
      else
        var binding := Binding(s, club, applicant, chosen, start);
        if binding.Err? then binding.error else Done
    case Redeem(i, applicant, checkedAt, _) =>
      if checkedAt > s.now then InvalidState
      else if i >= |s.invites| || !s.invites[i].target.ToEmail? then InvalidCode
      else if HasOpenApplication(s, s.invites[i].key.club, applicant) then InFlight
      else if !OpenAt(s.invites[i], checkedAt) then InvalidCode
      else Done
    case PrepareRevision(j, _) =>
      if j >= |s.apps| then NotFound else if s.apps[j].phase != RevisionRequired then NotMutable else Done
    case Revise(k) =>
      if k >= |s.prepared| || s.prepared[k].app >= |s.apps| then NotFound
      else if s.apps[s.prepared[k].app].phase != RevisionRequired then NotMutable
      else Done
    case Withdraw(j) =>
      if j >= |s.apps| then NotFound else if !Live(s.apps[j].phase) then NotMutable else Done
    case Decide(j, _) => DecideOutcome(s, j)
    case _ => Done
  }

  function NewApp(s: State, club: Club, applicant: Member, binding: Option<nat>, ev: Evaluation): App
    requires binding.Some? ==> binding.value < |s.invites|
  {
    match binding
    case None => App(club, applicant, None, None, ev.phase, ev.verdict, None, false)
    case Some(i) =>
      App(club, applicant, binding, Some(s.invites[i].key.sponsor), ev.phase, ev.verdict, None,
          s.invites[i].expiresAt <= s.now)
  }

  /** Marks the invitation used, if there is one, and records the application. */
  function Consume(s: State, club: Club, applicant: Member, binding: Option<nat>, ev: Evaluation): State
    requires binding.Some? ==> binding.value < |s.invites|
  {
    var i := binding;
    s.(invites := if i.Some? then s.invites[i.value := s.invites[i.value].(used := true)] else s.invites,
       apps := s.apps + [NewApp(s, club, applicant, binding, ev)])
  }

  function WithApp(s: State, j: nat, app: App): State
    requires j < |s.apps|
  {
    s.(apps := s.apps[j := app])
  }

  function Expired(inv: Invite, start: nat): Invite {
    if !inv.expired && inv.expiresAt <= start && !inv.used then inv.(expired := true) else inv
  }

  function RevokedBySponsor(inv: Invite, key: Key): Invite {
    if inv.key == key && !inv.revoked && !inv.used then inv.(revoked := true) else inv
  }

  function EndedWith(app: App, membership: nat, ban: bool): App {
    if app.membership == Some(membership) then app.(phase := if ban then Banned else Removed) else app
  }

  function Decided(app: App, d: Decision): App {
    match d
    case Accept(m) => app.(phase := Active, membership := Some(m))
    case Decline => app.(phase := Declined)
    case Ban => app.(phase := Banned)
  }

  function Step(cap: nat, s: State, e: Event): State {
    if OutcomeOf(cap, s, e) != Done then s
    else
      match e
      case Tick(d) => s.(now := s.now + d)
      case IssueCount(key, target, start) => s.(issuing := s.issuing[key := Issue(target, start)])
      case IssueInsert(key) =>
        var issue := s.issuing[key];
        var expiresAt := issue.start + INVITATION_TTL_MS;
        s.(invites := s.invites + [Invite(key, issue.target, expiresAt, false, false, false, false)],
           issuing := s.issuing - {key})
      case IssueAbort(key) => s.(issuing := s.issuing - {key})
      case MaterializeExpiry(i, start) =>
        if i < |s.invites| && start <= s.now then s.(invites := s.invites[i := Expired(s.invites[i], start)]) else s
      case Revoke(i, _, _, _) =>
        var inv := s.invites[i];
        s.(invites := s.invites[i := if inv.used then inv.(supportWithdrawn := true) else inv.(revoked := true)])
      case SponsorLeaves(key) =>
        s.(invites := seq(|s.invites|, i requires 0 <= i < |s.invites| => RevokedBySponsor(s.invites[i], key)))
      case ApplyToClub(club, applicant, chosen, start, draft) =>
        Consume(s, club, applicant, Binding(s, club, applicant, chosen, start).value, PrepareEvaluation(None, draft))
      case Redeem(i, applicant, _, draft) =>
        Consume(s, s.invites[i].key.club, applicant, Some(i), PrepareEvaluation(None, draft))
      case PrepareRevision(j, draft) =>
        s.(prepared := s.prepared + [Prepared(j, PrepareEvaluation(Some(s.apps[j]), draft))])
      case Revise(k) =>
        var j, ev := s.prepared[k].app, s.prepared[k].evaluation;
        WithApp(s, j, s.apps[j].(phase := ev.phase, verdict := ev.verdict))
      case Withdraw(j) => WithApp(s, j, s.apps[j].(phase := Phase.Withdrawn))
      case Decide(j, d) => WithApp(s, j, Decided(s.apps[j], d))
      case EndMembership(m, ban) =>
        s.(apps := seq(|s.apps|, j requires 0 <= j < |s.apps| => EndedWith(s.apps[j], m, ban)))
  }

  function Run(cap: nat, es: seq<Event>): State {
    if es == [] then State(0, [], [], map[], [])
    else Step(cap, Run(cap, es[..|es| - 1]), es[|es| - 1])
  }

  // ---- Counting lemmas --------------------------------------------------------------------------------------

  lemma {:induction false} CountAtMost(n: nat, p: nat -> bool, q: nat -> bool)
    requires forall i: nat :: i < n && p(i) ==> q(i)
    ensures Count(n, p) <= Count(n, q)
  {
    if n > 0 {
      CountAtMost(n - 1, p, q);
    }
  }

  lemma {:induction false} CountSame(n: nat, p: nat -> bool, q: nat -> bool)
    requires forall i: nat :: i < n ==> p(i) == q(i)
    ensures Count(n, p) == Count(n, q)
  {
    if n > 0 {
      CountSame(n - 1, p, q);
    }
  }

  lemma {:induction false} CountFlip(n: nat, p: nat -> bool, q: nat -> bool, k: nat)
    requires k < n && !p(k) && q(k)
    requires forall i: nat :: i < n && i != k ==> p(i) == q(i)
    ensures Count(n, q) == Count(n, p) + 1
  {
    if k < n - 1 {
      CountFlip(n - 1, p, q, k);
    } else {
      CountSame(n - 1, p, q);
    }
  }
}
