/** The second computation of the quota, row by row in the sponsor's invitation list, and invitation status. */
module InvitationListing {
  import opened Common
  import opened Admission
  import opened AdmissionInvariants
  import Q = AdmissionQuota

  datatype Status = StatusRevoked | StatusUsed | StatusExpired | StatusOpen

  function ComputeInvitationStatus(inv: Invite, t: nat): Status {
    if inv.revoked then StatusRevoked
    else if inv.used then StatusUsed
    else if inv.expired || inv.expiresAt <= t then StatusExpired
    else StatusOpen
  }

  /** The quota_state column of the listing query, whose now() is `queried`: is the row counted? */
  function SqlCounted(s: State, i: nat, queried: nat): bool
    requires i < |s.invites|
  {
    var inv := s.invites[i];
    if inv.revoked then false
    else if !inv.used && !inv.expired && inv.expiresAt > queried then true
    else if inv.supportWithdrawn then false
    else HasLiveApp(s, i)
  }

  function ComputeInvitationQuotaState(inv: Invite, sqlCounted: bool, t: nat): bool {
    var status := ComputeInvitationStatus(inv, t);
    if status == StatusOpen then true
    else if status == StatusUsed then !inv.supportWithdrawn && sqlCounted
    else false
  }

  /** Rows the listing's join with live applications yields for an invitation. */
  function LiveCarriers(s: State, i: nat): nat {
    Count(|s.apps|, (j: nat) => j < |s.apps| && s.apps[j].invitation == Some(i) && Live(s.apps[j].phase))
  }

  function RowsOf(s: State, i: nat): nat {
    if LiveCarriers(s, i) == 0 then 1 else LiveCarriers(s, i)
  }

  predicate ListedCounted(s: State, key: Key, queried: nat, t: nat, i: nat) {
    i < |s.invites| && s.invites[i].key == key
    && ComputeInvitationQuotaState(s.invites[i], SqlCounted(s, i, queried), t)
  }

  /** How many of the rows listed for the first `n` invitations are counted, mapped at `t`. */
  function CountedRows(s: State, key: Key, queried: nat, t: nat, n: nat): nat {
    if n == 0 then 0
    else
      CountedRows(s, key, queried, t, n - 1)
      + if ListedCounted(s, key, queried, t, n - 1) then RowsOf(s, n - 1) else 0
  }

  // ---- One row each -----------------------------------------------------------------------------------------

  lemma {:induction false} CountAtMostOne(n: nat, p: nat -> bool)
    requires forall j: nat, k: nat :: j < k < n ==> !(p(j) && p(k))
    ensures Count(n, p) <= 1
    ensures (forall j: nat :: j < n ==> !p(j)) ==> Count(n, p) == 0
  {
    if n > 0 {
      CountAtMostOne(n - 1, p);
    }
  }

  lemma OneRow(s: State, i: nat)
    requires OneCarrier(s.apps)
    ensures RowsOf(s, i) == 1
  {
    var p := (j: nat) => j < |s.apps| && s.apps[j].invitation == Some(i) && Live(s.apps[j].phase);
    forall j: nat, k: nat | j < k < |s.apps| ensures !(p(j) && p(k)) {
      assert s.apps[j].invitation.Some? ==> s.apps[j].invitation != s.apps[k].invitation;
    }
    CountAtMostOne(|s.apps|, p);
  }

  // ---- Used invitations and live applications correspond -------------------------------------------------------

  predicate CarriedLiveBelow(s: State, n: nat, i: nat) {
    exists j :: 0 <= j < n && j < |s.apps| && s.apps[j].invitation == Some(i) && Live(s.apps[j].phase)
  }

  /** Invitations of a key, with support, carried by a live application among the first `n`. */
  function BackedBelow(s: State, key: Key, n: nat): nat -> bool {
    (i: nat) =>
      i < |s.invites| && s.invites[i].key == key && !s.invites[i].supportWithdrawn && CarriedLiveBelow(s, n, i)
  }

  lemma {:induction false} BackedAreSponsored(s: State, key: Key, n: nat)
    requires Inv(s) && n <= |s.apps|
    ensures Count(|s.invites|, BackedBelow(s, key, n)) == Count(n, SponsoredOf(s.invites, s.apps, key))
  {
    if n == 0 {
      CountAtMostOne(|s.invites|, BackedBelow(s, key, 0));
    } else {
      var app := s.apps[n - 1];
      BackedAreSponsored(s, key, n - 1);
      BackedStep(s, key, n);
    }
  }

  lemma BackedStep(s: State, key: Key, n: nat)
    requires Inv(s) && 0 < n <= |s.apps|
    ensures Count(|s.invites|, BackedBelow(s, key, n))
      == Count(|s.invites|, BackedBelow(s, key, n - 1)) + if CountsFor(s.invites, s.apps[n - 1], key) then 1 else 0
  {
    var app := s.apps[n - 1];
    var p, q := BackedBelow(s, key, n - 1), BackedBelow(s, key, n);
    assert AppFits(s.invites, app);
    forall i: nat | i < |s.invites| && app.invitation != Some(i) ensures p(i) == q(i) {
      if CarriedLiveBelow(s, n, i) {
        var j :| 0 <= j < n && s.apps[j].invitation == Some(i) && Live(s.apps[j].phase);
        assert CarriedLiveBelow(s, n - 1, i);
      }
    }
    if app.invitation.Some? {
      var i := app.invitation.value;
      assert !CarriedLiveBelow(s, n - 1, i);
      assert CarriedLiveBelow(s, n, i) <==> Live(app.phase);
      if CountsFor(s.invites, app, key) {
        CountFlip(|s.invites|, p, q, i);
      } else {
        assert !q(i);
        CountSame(|s.invites|, p, q);
      }
    } else {
      CountSame(|s.invites|, p, q);
    }
  }

  /** What the listing counts for an invitation: it is open, or used, supported and carried by a live application. */
  lemma ListedCountedMeans(s: State, key: Key, queried: nat, t: nat, i: nat)
    requires Inv(s) && i < |s.invites|
    ensures ListedCounted(s, key, queried, t, i) <==>
      OpenOf(s.invites, key, t)(i) || BackedBelow(s, key, |s.apps|)(i)
    ensures !(OpenOf(s.invites, key, t)(i) && BackedBelow(s, key, |s.apps|)(i))
  {
    assert HasLiveApp(s, i) <==> CarriedLiveBelow(s, |s.apps|, i);
    if HasLiveApp(s, i) {
      var j :| 0 <= j < |s.apps| && s.apps[j].invitation == Some(i);
      assert AppFits(s.invites, s.apps[j]);
    }
  }

  lemma {:induction false} CountedRowsAre(s: State, key: Key, queried: nat, t: nat, n: nat)
    requires Inv(s) && n <= |s.invites|
    ensures CountedRows(s, key, queried, t, n)
      == Count(n, OpenOf(s.invites, key, t)) + Count(n, BackedBelow(s, key, |s.apps|))
  {
    if n > 0 {
      CountedRowsAre(s, key, queried, t, n - 1);
      ListedCountedMeans(s, key, queried, t, n - 1);
      OneRow(s, n - 1);
    }
  }

  /**
   In every run the invitations of a sponsor in a club that are listed as counted, mapped at `t`, are as
   many as an issuer whose transaction began at `t` counts, whenever the listing was queried.
   */
  lemma QuotaComputationsAgree(cap: nat, es: seq<Event>, key: Key, queried: nat, t: nat)
    ensures var s := Run(cap, es); CountedRows(s, key, queried, t, |s.invites|) == Total(s, key, t)
  {
    var s := Run(cap, es);
    RunInv(cap, es);
    CountedRowsAre(s, key, queried, t, |s.invites|);
    BackedAreSponsored(s, key, |s.apps|);
  }

  // ---- Status ---------------------------------------------------------------------------------------------------

  /** A revoke by someone who may, which tested the expiry while the invitation had not run out. */
  predicate RevokesInTime(s: State, e: Event, i: nat)
    requires i < |s.invites|
  {
    && e.Revoke? && e.invite == i && e.checkedAt <= s.now
    && (e.actor == s.invites[i].key.sponsor || e.isAdmin)
    && !s.invites[i].expired && e.checkedAt < s.invites[i].expiresAt
  }

  /**
   Used and revoked are for ever. An expired invitation is never open again; it leaves `expired` exactly when
   its sponsor leaves the club or a revoke in time commits late, which revokes it, or when an application
   consumes it late.
   */
  lemma StatusOnlyMovesOn(cap: nat, s: State, e: Event, i: nat)
    requires Inv(s) && i < |s.invites|
    ensures var s' := Step(cap, s, e);
      && i < |s'.invites| && s'.invites[i].key == s.invites[i].key
      && var before := ComputeInvitationStatus(s.invites[i], s.now);
      var after := ComputeInvitationStatus(s'.invites[i], s'.now);
      && (before == StatusRevoked ==> after == StatusRevoked)
      && (before == StatusUsed ==> after == StatusUsed)
      && (before == StatusExpired ==>
            && after != StatusOpen
            && (after == StatusRevoked <==> e == SponsorLeaves(s.invites[i].key) || RevokesInTime(s, e, i))
            && (after == StatusUsed <==> Q.Consumed(cap, s, e) == Some(i)))
  {
    assert !(s.invites[i].used && s.invites[i].revoked);
  }

  /** In every run an invitation is used exactly if an application carries it, which then is only one. */
  lemma UsedIffCarriedOnce(cap: nat, es: seq<Event>, i: nat)
    requires i < |Run(cap, es).invites|
    ensures var s := Run(cap, es);
      && (s.invites[i].used <==> IsCarried(s.apps, i))
      && (forall j, k :: 0 <= j < |s.apps| && 0 <= k < |s.apps| ==>
            (s.apps[j].invitation == s.apps[k].invitation == Some(i) ==> j == k))
      && !(s.invites[i].used && s.invites[i].revoked)
  {
    var s := Run(cap, es);
    RunInv(cap, es);
    if IsCarried(s.apps, i) {
      var j :| 0 <= j < |s.apps| && s.apps[j].invitation == Some(i);
      assert AppFits(s.invites, s.apps[j]);
    }
    forall j, k | 0 <= j < |s.apps| && 0 <= k < |s.apps| && s.apps[j].invitation == s.apps[k].invitation == Some(i)
      ensures j == k
    {
      assert OneCarrier(s.apps);
    }
  }
}
