/** What a batch does to the stored bans, told on their fields. */
module BanUpdates {
  import opened Bytes
  import opened AddressSets
  import opened Outcomes
  import opened Rules
  import opened ThreatBans

  // ---- when a batch is accepted ----

  predicate Admissible(b: ThreatBan, now: int)
  {
    && b.expiresAt > now && (b.address.Host? || b.address.Cidr?)
    && match b.source
       case CrowdSec => b.decisionID > 0
       case Ssh(jail) => jail != "" && b.decisionID == 0
       case OtherSource(_) => false
  }

  ghost predicate ValidBatch(u: Update) { forall i :: 0 <= i < |u.add| ==> u.add[i].address.Valid() }

  lemma AdmitIff(b: ThreatBan, now: int)
    requires b.address.Valid()
    ensures Admit(b, now).Ok? <==> Admissible(b, now)
    ensures Admit(b, now).Ok? ==> Admit(b, now).value == Stored(b)
  {
    hide CanonicalBanAddress;
    CanonicalFails(b.address);
  }

  lemma {:induction false} AddsIff(bans: seq<ThreatBan>, adds: seq<ThreatBan>, now: int)
    requires forall i :: 0 <= i < |adds| ==> adds[i].address.Valid()
    ensures AddAll(bans, adds, now).Ok? <==> forall i :: 0 <= i < |adds| ==> Admissible(adds[i], now)
  {
    hide Admit, Upsert, Admissible;
    if adds != [] {
      var n := |adds| - 1;
      AddsIff(bans, adds[..n], now);
      AdmitIff(adds[n], now);
      if AddAll(bans, adds, now).Ok? {
        forall i | 0 <= i < |adds| ensures Admissible(adds[i], now) {
          if i < n { assert Admissible(adds[..n][i], now); }
        }
      }
    }
  }

  // Unexpired hosts and prefixes, with a positive id from the service or a
  // jail and no id from the detector, and positive ids to delete.
  lemma {:induction false} AcceptedIff(bans: seq<ThreatBan>, u: Update, now: int)
    requires ValidBatch(u)
    ensures ApplyUpdate(bans, u, now).Ok? <==>
            && (forall i :: 0 <= i < |u.add| ==> Admissible(u.add[i], now))
            && (u.snapshot || forall i :: 0 <= i < |u.deleteIDs| ==> u.deleteIDs[i] > 0)
  {
    hide AddAll, Admissible;
    AddsIff(if u.snapshot then Locals(bans) else bans, u.add, now);
  }

  // ---- what an accepted batch leaves ----

  // One decision, or bans of one jail on one address.
  predicate SameBan(a: ThreatBan, b: ThreatBan)
  {
    && a.source == b.source
    && if a.source == CrowdSec then a.decisionID == b.decisionID else a.address == b.address
  }

  lemma IdentMeans(a: ThreatBan, b: ThreatBan)
    ensures IdentOf(a) == IdentOf(b) <==> SameBan(a, b)
  {
  }

  // The last addition of its ban.
  ghost predicate LastAdded(adds: seq<ThreatBan>, k: nat)
  {
    k < |adds| && forall j :: k < j < |adds| ==> !SameBan(Stored(adds[j]), Stored(adds[k]))
  }

  ghost predicate AddedAs(adds: seq<ThreatBan>, k: nat, b: ThreatBan) { LastAdded(adds, k) && Stored(adds[k]) == b }

  ghost predicate Replaced(adds: seq<ThreatBan>, b: ThreatBan)
  {
    exists k :: 0 <= k < |adds| && SameBan(Stored(adds[k]), b)
  }

  lemma AddedSnoc(adds: seq<ThreatBan>, b: ThreatBan)
    requires adds != []
    ensures var n := |adds| - 1;
            && ((exists k: nat :: AddedAs(adds, k, b)) <==>
                b == Stored(adds[n])
                || (!SameBan(Stored(adds[n]), b) && exists k: nat :: AddedAs(adds[..n], k, b)))
            && (Replaced(adds, b) <==> Replaced(adds[..n], b) || SameBan(Stored(adds[n]), b))
  {
    hide Stored, SameBan;
    var n := |adds| - 1;
    SelfSame(b);
    if exists k: nat :: AddedAs(adds, k, b) {
      var k: nat :| AddedAs(adds, k, b);
      LastBound(adds, k);
      if k < n && b != Stored(adds[n]) {
        assert AddedAs(adds[..n], k, b);
      }
    }
    if b == Stored(adds[n]) { assert AddedAs(adds, n, b); }
    if !SameBan(Stored(adds[n]), b) && exists k: nat :: AddedAs(adds[..n], k, b) {
      var k: nat :| AddedAs(adds[..n], k, b);
      LastBound(adds[..n], k);
      assert adds[..n][k] == adds[k];
      assert forall j :: k < j < n ==> adds[..n][j] == adds[j];
      assert AddedAs(adds, k, b);
    }
    if Replaced(adds[..n], b) {
      var k :| 0 <= k < n && SameBan(Stored(adds[..n][k]), b);
      assert SameBan(Stored(adds[k]), b);
    }
    if Replaced(adds, b) && !SameBan(Stored(adds[n]), b) {
      var k :| 0 <= k < |adds| && SameBan(Stored(adds[k]), b);
      assert SameBan(Stored(adds[..n][k]), b);
    }
  }

  lemma SelfSame(b: ThreatBan)
    ensures SameBan(b, b)
  {
  }

  lemma LastBound(adds: seq<ThreatBan>, k: nat)
    requires LastAdded(adds, k)
    ensures k < |adds|
  {
  }

  lemma {:induction false} AddsMembers(bans: seq<ThreatBan>, adds: seq<ThreatBan>, now: int, b: ThreatBan)
    requires Unique(bans) && AddAll(bans, adds, now).Ok?
    ensures b in AddAll(bans, adds, now).value <==>
            (b in bans && !Replaced(adds, b)) || exists k: nat :: AddedAs(adds, k, b)
  {
    hide Admit, Upsert, Stored, SameBan, IdentOf, Unique, AddedAs, Replaced;
    if adds == [] {
      NothingAdded(b);
    } else {
      var n := |adds| - 1;
      var init, a := adds[..n], Admit(adds[n], now).value;
      AddsMembers(bans, init, now, b);
      AddAllUnique(bans, init, now);
      UpsertMembers(AddAll(bans, init, now).value, a);
      AdmitsStored(adds[n], now);
      IdentMeans(a, b);
      AddedSnoc(adds, b);
    }
  }

  lemma NothingAdded(b: ThreatBan)
    ensures !Replaced([], b) && !exists k: nat :: AddedAs([], k, b)
  {
  }

  lemma AdmitsStored(b: ThreatBan, now: int)
    requires Admit(b, now).Ok?
    ensures Admit(b, now).value == Stored(b)
  {
    hide CanonicalBanAddress;
  }

  // A ban is stored afterwards exactly when it was and the batch neither
  // replaces, deletes nor wipes it, or when it is the batch's last word on
  // its identity and the batch does not delete it.
  lemma {:induction false} MembersAfter(bans: seq<ThreatBan>, u: Update, now: int, b: ThreatBan)
    requires Unique(bans) && ApplyUpdate(bans, u, now).Ok?
    ensures b in ApplyUpdate(bans, u, now).value <==>
            && !(b.source == CrowdSec && !u.snapshot && b.decisionID in u.deleteIDs)
            && (|| (b in bans && !(u.snapshot && b.source == CrowdSec) && !Replaced(u.add, b))
                || exists k: nat :: AddedAs(u.add, k, b))
  {
    hide AddAll, AddedAs, Replaced, Unique, IdentOf;
    LocalsUnique(bans);
    AddsMembers(if u.snapshot then Locals(bans) else bans, u.add, now, b);
  }
}
