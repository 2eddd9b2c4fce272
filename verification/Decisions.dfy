/** The poller told on the responses of the service: which bans a response
    adds, which decisions are in force after many, and when a batch sticks. */
module Decisions {
  import opened Bytes
  import opened AddressSets
  import opened Outcomes
  import opened Rules
  import opened Prefixes
  import opened Normalization
  import opened ThreatBans
  import opened CrowdSecPoller

  // ---- one response ----

  predicate HasAddress(d: Remote)
  {
    match d.scope
    case IpScope => d.value.Host? || d.value.Cidr?
    case RangeScope => d.value.Cidr?
    case OtherScope => false
  }

  // A ban the poller cannot read.
  predicate Unreadable(d: Remote) { d.ban && (d.id <= 0 || d.nanos.None? || !HasAddress(d)) }

  // A ban that lasts.
  predicate Lasts(d: Remote) { d.ban && d.nanos.Some? && d.nanos.value > 0 }

  ghost predicate ValidResponse(r: Response) { forall d :: d in r.added ==> d.value.Valid() }

  // A response is refused exactly for one of these.
  predicate Refuses(r: Response, startup: bool)
  {
    || (exists i :: 0 <= i < |r.added| && Unreadable(r.added[i]))
    || (!startup && exists i :: 0 <= i < |r.deleted| && r.deleted[i] <= 0)
  }

  // IPv4 addresses written as IPv6.
  predicate Mapped(raw: Addr)
  {
    || (raw.Host? && Is4In6(raw.host))
    || (raw.Cidr? && Is4In6(raw.net.First()))
  }

  // The value of a decision speaks of this address.
  ghost predicate Speaks(raw: Addr, x: seq<byte>)
    requires raw.Valid()
  {
    if Mapped(raw) then |x| == 4 && raw.Contains(V4_IN_6 + x) else raw.Contains(x)
  }

  // Stored under the decision's id until it ends, for the addresses it
  // speaks of.
  ghost predicate Records(d: Remote, nanos: int, b: ThreatBan)
    requires d.value.Valid() && Lasts(d)
  {
    && b.source == CrowdSec && b.decisionID == d.id && b.reason == d.scenario
    && b.expiresAt == (nanos + d.nanos.value) / SECOND
    && b.address.Valid() && (b.address.Host? || b.address.Cidr?)
    && forall x :: b.address.Contains(x) <==> Speaks(d.value, x)
  }

  lemma AddressRead(d: Remote)
    requires d.value.Valid()
    ensures CrowdSecAddress(d.scope, d.value).Ok? <==> HasAddress(d)
  {
    hide CanonicalBanAddress;
    CanonicalFails(d.value);
  }

  // The ban made of a decision, as it is stored.
  function BanOf(d: Remote, nanos: int): ThreatBan
    requires Lasts(d)
  {
    var a := CrowdSecAddress(d.scope, d.value);
    ThreatBan(if a.Ok? then a.value else d.value, CrowdSec, d.scenario, d.id, (nanos + d.nanos.value) / SECOND)
  }

  lemma DecodeMeans(d: Remote, nanos: int)
    requires d.value.Valid()
    ensures Decode(d, nanos).Invalid? <==> Unreadable(d)
    ensures !Unreadable(d) ==> Decode(d, nanos) == if Lasts(d) then Ban(BanOf(d, nanos)) else Skip
  {
    hide CrowdSecAddress, HasAddress;
    AddressRead(d);
  }

  lemma HostWidth(raw: Addr, x: seq<byte>)
    requires raw.Valid() && raw.Contains(x) && (raw.Host? || raw.Cidr?)
    ensures |x| == Width(raw)
  {
    hide SamePrefix;
  }

  lemma CanonicalSpeaks(raw: Addr)
    requires raw.Valid() && CanonicalBanAddress(raw).Ok?
    ensures var a := CanonicalBanAddress(raw).value;
            && a.Valid() && (a.Host? || a.Cidr?)
            && forall x :: a.Contains(x) <==> Speaks(raw, x)
  {
    hide CanonicalBanAddress, Is4In6, Mask, CidrMask, SamePrefix;
    CanonicalFails(raw);
    var a := CanonicalBanAddress(raw).value;
    CanonicalKind(raw);
    forall x ensures a.Contains(x) <==> Speaks(raw, x) {
      CanonicalMeaning(raw, x);
      if a.Contains(x) { HostWidth(a, x); }
    }
  }

  lemma CanonicalKind(raw: Addr)
    requires raw.Valid() && CanonicalBanAddress(raw).Ok?
    ensures var a := CanonicalBanAddress(raw).value;
            (a.Host? || a.Cidr?) && (Mapped(raw) ==> Width(a) == 4)
  {
    hide Mask, CidrMask;
    if raw.Cidr? {
      if Is4In6(raw.net.First()) {
        MaskedMapped(raw.net);
        MaskedMappedLength(raw.net);
      }
    } else {
      MappedLength(raw.host);
    }
  }

  lemma MaskedMappedLength(net: Net)
    requires net.Valid() && net.bits >= 96
    ensures Is4In6(net.First()) ==> |Masked(Net(net.First()[12..], net.bits - 96)).addr| == 4
  {
    if Is4In6(net.First()) {
      MappedLength(net.First());
      MaskedWidth(Net(net.First()[12..], net.bits - 96));
    }
  }

  lemma StoredRecords(d: Remote, nanos: int)
    requires d.value.Valid() && Lasts(d) && !Unreadable(d)
    ensures Records(d, nanos, Stored(BanOf(d, nanos)))
  {
    hide CanonicalBanAddress, Speaks;
    AddressRead(d);
    CanonicalFails(d.value);
    if d.scope == IpScope {
      CanonicalIdempotent(d.value);
      CanonicalSpeaks(d.value);
    } else {
      RangeSpeaks(d.value.net);
    }
  }

  lemma RangeSpeaks(net: Net)
    requires net.Valid() && |net.addr| in {4, 16}
    ensures CanonicalBanAddress(Cidr(Masked(net))) == CanonicalBanAddress(Cidr(net))
    ensures var a := CanonicalBanAddress(Cidr(net));
            && a.Ok? && a.value.Valid() && (a.value.Host? || a.value.Cidr?)
            && forall x :: a.value.Contains(x) <==> Speaks(Cidr(net), x)
  {
    hide Mask, CidrMask, Speaks;
    MaskedTwice(net);
    CanonicalFails(Cidr(net));
    CanonicalSpeaks(Cidr(net));
  }

  // A batch has the bans that last, in order, and the deleted ids of a
  // delta; at(j) is the decision behind the j-th addition.
  ghost predicate Behind(r: Response, nanos: int, add: seq<ThreatBan>, at: seq<nat>)
  {
    && |at| == |add|
    && (forall j :: 0 <= j < |at| ==> at[j] < |r.added| && Lasts(r.added[at[j]]))
    && (forall i, j :: 0 <= i < j < |at| ==> at[i] < at[j])
    && (forall i :: 0 <= i < |r.added| && Lasts(r.added[i]) ==> i in at)
    && (forall j :: 0 <= j < |at| ==> AddedFor(r.added[at[j]], nanos, add[j]))
  }

  ghost predicate AddedFor(d: Remote, nanos: int, b: ThreatBan)
  {
    && b.source == CrowdSec && b.decisionID == d.id && b.reason == d.scenario && d.nanos.Some?
    && b.expiresAt == (nanos + d.nanos.value) / SECOND
    && b.address.Valid() && d.value.Valid()
    && forall x :: b.address.Contains(x) <==>
         if d.scope == IpScope then Speaks(d.value, x) else d.value.Contains(x)
  }

  lemma BanAdded(d: Remote, nanos: int)
    requires d.value.Valid() && Lasts(d) && !Unreadable(d)
    ensures AddedFor(d, nanos, BanOf(d, nanos))
  {
    hide CanonicalBanAddress, Speaks;
    AddressRead(d);
    if d.scope == IpScope {
      CanonicalSpeaks(d.value);
    } else {
      MaskedTwice(d.value.net);
      MaskedSame(d.value.net);
    }
  }

  lemma MaskedSame(net: Net)
    requires net.Valid() && |net.addr| in {4, 16}
    ensures Cidr(Masked(net)).Valid()
    ensures forall x :: Cidr(Masked(net)).Contains(x) <==> Cidr(net).Contains(x)
  {
    hide Mask, CidrMask, SamePrefix;
    MaskedTwice(net);
    MaskedWidth(net);
    forall x ensures Masked(net).Contains(x) <==> net.Contains(x) { NetMeans(net, x); }
  }

  lemma {:induction false} AddedDecode(r: Response, n: nat, nanos: int) returns (at: seq<nat>)
    requires ValidResponse(r) && n <= |r.added|
    ensures DecodeAll(r.added[..n], nanos).Err? <==> exists i :: 0 <= i < n && Unreadable(r.added[i])
    ensures DecodeAll(r.added[..n], nanos).Ok? ==>
              Behind(Response(r.added[..n], r.deleted), nanos, DecodeAll(r.added[..n], nanos).value, at)
  {
    hide Decode, AddedFor, Unreadable, Lasts;
    at := [];
    if n > 0 {
      var d := r.added[n - 1];
      assert r.added[..n][..n - 1] == r.added[..n - 1];
      var init := AddedDecode(r, n - 1, nanos);
      assert d in r.added;
      DecodeMeans(d, nanos);
      if !Unreadable(d) && Lasts(d) {
        BanAdded(d, nanos);
        at := init + [n - 1];
      } else {
        at := init;
      }
    }
  }

  // What a batch is made of: refused exactly for an unreadable ban or, in a
  // delta, a deletion without a positive id; otherwise the bans that last,
  // in order, and the deletions of a delta.
  lemma {:induction false} BatchMeans(r: Response, startup: bool, nanos: int) returns (at: seq<nat>)
    requires ValidResponse(r)
    ensures Convert(r, startup, nanos).Err? <==> Refuses(r, startup)
    ensures Convert(r, startup, nanos).Ok? ==>
              var u := Convert(r, startup, nanos).value;
              && u.snapshot == startup && u.deleteIDs == (if startup then [] else r.deleted)
              && Behind(r, nanos, u.add, at)
  {
    hide DecodeAll, Behind;
    at := AddedDecode(r, |r.added|, nanos);
    assert r.added[..|r.added|] == r.added;
  }

  // ---- many responses ----

  predicate BansId(d: Remote, id: int) { Lasts(d) && d.id == id }

  ghost predicate ValidPulls(pulled: seq<Pulled>)
  {
    forall i :: 0 <= i < |pulled| ==> ValidResponse(pulled[i].response)
  }

  // The response does not bring the decision.
  ghost predicate Silent(r: Response, id: int) { forall d :: d in r.added ==> !BansId(d, id) }

  // Decision k of response i is the one in force for the id: the last of
  // its response, not deleted there, and neither given anew, deleted nor
  // wiped by a snapshot afterwards.
  ghost predicate InForce(pulled: seq<Pulled>, id: int, i: nat, k: nat)
  {
    && i < |pulled| && k < |pulled[i].response.added|
    && BansId(pulled[i].response.added[k], id)
    && (forall j :: k < j < |pulled[i].response.added| ==> !BansId(pulled[i].response.added[j], id))
    && (pulled[i].startup || id !in pulled[i].response.deleted)
    && forall j :: i < j < |pulled| ==> Passes(pulled[j], id)
  }

  ghost predicate Passes(p: Pulled, id: int)
  {
    !p.startup && id !in p.response.deleted && Silent(p.response, id)
  }

  ghost predicate InForceAs(pulled: seq<Pulled>, id: int, i: nat, k: nat, b: ThreatBan)
  {
    InForce(pulled, id, i, k) && b == Stored(BanOf(pulled[i].response.added[k], pulled[i].nanos))
  }

  // The last decision for the id among the first n.
  function LastFor(ds: seq<Remote>, id: int): (k: Option<nat>)
    ensures k.Some? ==> k.value < |ds| && BansId(ds[k.value], id)
                        && forall j :: k.value < j < |ds| ==> !BansId(ds[j], id)
    ensures k.None? ==> forall j :: 0 <= j < |ds| ==> !BansId(ds[j], id)
  {
    if ds == [] then None
    else if BansId(ds[|ds| - 1], id) then Some(|ds| - 1)
    else LastFor(ds[..|ds| - 1], id)
  }

  lemma {:induction false} AddsGive(t: Table, ds: seq<Remote>, nanos: int, id: int)
    requires DecodeAll(ds, nanos).Ok? && forall d :: d in ds ==> d.value.Valid()
    ensures var f, k := FeedAdds(t, DecodeAll(ds, nanos).value), LastFor(ds, id);
            if k.Some? then id in f && f[id] == Stored(BanOf(ds[k.value], nanos))
            else (id in f <==> id in t) && (id in f ==> f[id] == t[id])
  {
    hide Decode, BanOf, Stored, Unreadable;
    if ds != [] {
      var n := |ds| - 1;
      assert ds[n] in ds;
      DecodeMeans(ds[n], nanos);
      AddsGive(t, ds[..n], nanos, id);
      if Lasts(ds[n]) {
        var adds := DecodeAll(ds, nanos).value;
        assert adds[..|adds| - 1] == DecodeAll(ds[..n], nanos).value;
        BanFields(ds[n], nanos);
      }
    }
  }

  lemma BanFields(d: Remote, nanos: int)
    requires Lasts(d)
    ensures !BanOf(d, nanos).Local() && BanOf(d, nanos).decisionID == d.id
  {
  }

  lemma SettledInit(pulled: seq<Pulled>)
    requires Settled(pulled)
    ensures pulled != [] && Taken(pulled[|pulled| - 1])
    ensures !pulled[|pulled| - 1].startup ==> Settled(pulled[..|pulled| - 1])
  {
    hide Taken;
    var n := |pulled| - 1;
    var s :| 0 <= s < |pulled| && pulled[s].startup && AllTaken(pulled[s..]);
    assert pulled[s..][n - s] == pulled[n];
    if !pulled[n].startup {
      assert forall i :: 0 <= i < |pulled[..n][s..]| ==> pulled[..n][s..][i] == pulled[s..][i];
    }
  }

  // The table of the responses has exactly the decisions in force.
  lemma {:induction false} GivenMeans(pulled: seq<Pulled>, id: int, b: ThreatBan)
    requires Settled(pulled) && ValidPulls(pulled)
    ensures id in Given(pulled) && Given(pulled)[id] == b <==> exists i, k :: InForceAs(pulled, id, i, k, b)
  {
    hide FeedAdds, DecodeAll, LastFor, BanOf, Stored, Settled, InForce, BansId, ValidResponse;
    SettledInit(pulled);
    var n := |pulled| - 1;
    var p, init := pulled[n], pulled[..n];
    var k := LastFor(p.response.added, id);
    var u := Convert(p.response, p.startup, p.nanos).value;
    assert ValidResponse(p.response);
    GivesLast(Given(init), p, id);
    NewestInForce(pulled, id);
    if k.Some? {
      OnlyNewest(pulled, id);
      if p.startup || id !in p.response.deleted {
        ForceBounds(pulled, id, n, k.value);
        assert InForceAs(pulled, id, n, k.value, Stored(BanOf(p.response.added[k.value], p.nanos)));
      }
    } else if p.startup || id in p.response.deleted {
      OnlyNewest(pulled, id);
    } else {
      GivenMeans(init, id, b);
      OlderInForce(pulled, id);
      if exists i, q :: InForceAs(init, id, i, q, b) {
        var i, q :| InForceAs(init, id, i, q, b);
        InForceBound(init, id, i, q);
        assert InForceAs(pulled, id, i, q, b);
      }
      if exists i, q :: InForceAs(pulled, id, i, q, b) {
        var i, q :| InForceAs(pulled, id, i, q, b);
        InForceBound(pulled, id, i, q);
        assert InForceAs(init, id, i, q, b);
      }
    }
  }

  lemma InForceBound(pulled: seq<Pulled>, id: int, i: nat, k: nat)
    requires InForce(pulled, id, i, k)
    ensures i < |pulled| && k < |pulled[i].response.added|
  {
  }

  lemma GivesLast(t: Table, p: Pulled, id: int)
    requires Taken(p) && ValidResponse(p.response)
    ensures var f, k := Feed(t, Convert(p.response, p.startup, p.nanos).value), LastFor(p.response.added, id);
            if k.Some? && (p.startup || id !in p.response.deleted) then
              id in f && f[id] == Stored(BanOf(p.response.added[k.value], p.nanos))
            else if p.startup || id in p.response.deleted then id !in f
            else (id in f <==> id in t) && (id in f ==> f[id] == t[id])
  {
    hide FeedAdds, DecodeAll, LastFor, BanOf, Stored;
    AddsGive(map[], p.response.added, p.nanos, id);
    AddsGive(t, p.response.added, p.nanos, id);
  }

  // The last response decides alone when it speaks of the id.
  lemma NewestInForce(pulled: seq<Pulled>, id: int)
    requires pulled != []
    ensures var n := |pulled| - 1;
            forall k: nat :: InForce(pulled, id, n, k) <==>
                  LastFor(pulled[n].response.added, id) == Some(k)
                  && (pulled[n].startup || id !in pulled[n].response.deleted)
  {
    hide LastFor, BansId;
  }

  lemma OnlyNewest(pulled: seq<Pulled>, id: int)
    requires pulled != [] && !Passes(pulled[|pulled| - 1], id)
    ensures forall i: nat, k: nat :: InForce(pulled, id, i, k) ==> i == |pulled| - 1
  {
    hide BansId, Passes;
  }

  lemma OlderInForce(pulled: seq<Pulled>, id: int)
    requires pulled != [] && Passes(pulled[|pulled| - 1], id)
    ensures var init := pulled[..|pulled| - 1];
            forall i: nat, k: nat :: InForce(pulled, id, i, k) <==> InForce(init, id, i, k)
  {
    hide BansId;
    var n := |pulled| - 1;
    var init := pulled[..n];
    forall i: nat, k: nat ensures InForce(pulled, id, i, k) <==> InForce(init, id, i, k) {
      if InForce(init, id, i, k) {
        assert forall j :: i < j < n ==> Passes(init[j], id) && init[j] == pulled[j];
      }
      if InForce(pulled, id, i, k) {
        assert i != n;
        assert forall j :: i < j < n ==> Passes(pulled[j], id) && init[j] == pulled[j];
      }
    }
  }

  // ---- every run ----

  ghost predicate ValidSteps(steps: seq<Step>)
  {
    forall i :: 0 <= i < |steps| && steps[i].Pull? ==> ValidResponse(steps[i].response)
  }

  // The responses of a run, in order.
  function PulledIn(steps: seq<Step>): seq<(Response, int)>
  {
    if steps == [] then []
    else (if steps[0].Pull? then [(steps[0].response, steps[0].nanos)] else []) + PulledIn(steps[1..])
  }

  function Answers(pulled: seq<Pulled>): (r: seq<(Response, int)>)
    ensures |r| == |pulled|
  {
    seq(|pulled|, i requires 0 <= i < |pulled| => (pulled[i].response, pulled[i].nanos))
  }

  // No response is lost from the record, whatever became of it.
  lemma {:induction false} RecordComplete(w: World, steps: seq<Step>)
    requires EnabledRun(w, steps)
    ensures Answers(RunSteps(w, steps).pulled) == Answers(w.pulled) + PulledIn(steps)
    decreases |steps|
  {
    hide Convert, Commit, Live;
    if steps != [] {
      var s := steps[0];
      RecordComplete(Next(w, s), steps[1..]);
      if s.Pull? {
        var p := Pulled(s.response, w.startup, s.nanos);
        assert Answers(w.pulled + [p]) == Answers(w.pulled) + [(s.response, s.nanos)];
      }
    }
  }

  lemma {:induction false} PullsValid(w: World, steps: seq<Step>)
    requires EnabledRun(w, steps) && ValidSteps(steps) && ValidPulls(w.pulled)
    ensures ValidPulls(RunSteps(w, steps).pulled)
    decreases |steps|
  {
    hide Convert, Commit, Live, ValidResponse;
    if steps != [] {
      assert forall i :: 0 <= i < |steps[1..]| ==> steps[1..][i] == steps[i + 1];
      PullsValid(Next(w, steps[0]), steps[1..]);
    }
  }

  // A ban stands for the decision in force.
  ghost predicate StandsFor(b: ThreatBan, pulled: seq<Pulled>, id: int, i: nat, k: nat)
    requires ValidPulls(pulled)
  {
    && InForce(pulled, id, i, k)
    && ValidResponse(pulled[i].response) && pulled[i].response.added[k] in pulled[i].response.added
    && Records(pulled[i].response.added[k], pulled[i].nanos, b)
  }

  ghost predicate StillLasts(pulled: seq<Pulled>, id: int, i: nat, k: nat, clock: int)
  {
    InForce(pulled, id, i, k) && (pulled[i].nanos + pulled[i].response.added[k].nanos.value) / SECOND > clock
  }

  // From some snapshot on every response was accepted.
  ghost predicate GoodSince(pulled: seq<Pulled>, s: nat)
  {
    && s < |pulled| && pulled[s].startup
    && forall j :: s <= j < |pulled| ==> !Refuses(pulled[j].response, pulled[j].startup)
  }

  lemma GoodSnapshot(pulled: seq<Pulled>) returns (s: nat)
    requires Settled(pulled) && ValidPulls(pulled)
    ensures GoodSince(pulled, s)
  {
    hide ValidResponse, Refuses, Convert;
    s :| 0 <= s < |pulled| && pulled[s].startup && AllTaken(pulled[s..]);
    forall j | s <= j < |pulled| ensures !Refuses(pulled[j].response, pulled[j].startup) {
      assert Taken(pulled[s..][j - s]);
      var _ := BatchMeans(pulled[j].response, pulled[j].startup, pulled[j].nanos);
    }
  }

  lemma NotBefore(pulled: seq<Pulled>, id: int, i: nat, k: nat, s: nat)
    requires InForce(pulled, id, i, k) && s < |pulled| && pulled[s].startup
    ensures i >= s
  {
  }

  // The decision in force stands in an accepted response.
  lemma ForceRecords(pulled: seq<Pulled>, id: int, i: nat, k: nat)
    requires Settled(pulled) && ValidPulls(pulled) && InForce(pulled, id, i, k)
    ensures StandsFor(Stored(BanOf(pulled[i].response.added[k], pulled[i].nanos)), pulled, id, i, k)
  {
    hide BanOf, Stored, Records, Settled;
    var s := GoodSnapshot(pulled);
    NotBefore(pulled, id, i, k, s);
    var p := pulled[i];
    assert ValidResponse(p.response) && p.response.added[k] in p.response.added;
    StoredRecords(p.response.added[k], p.nanos);
  }

  // In every run, whenever nothing is pending and startup is over: every
  // response since some snapshot was accepted, every unexpired stored
  // decision stands for a decision in force, and every decision in force
  // that still lasts is stored.
  lemma {:induction false} PollerSafety(w: World, steps: seq<Step>, id: int) returns (s: nat)
    requires Initial(w) && Unique(w.bans) && EnabledRun(w, steps) && ValidSteps(steps)
    requires var v := RunSteps(w, steps); v.pending.None? && !v.startup
    ensures var v := RunSteps(w, steps);
            && ValidPulls(v.pulled) && GoodSince(v.pulled, s)
            && (forall b :: b in v.bans && b.source == CrowdSec && b.decisionID == id && b.expiresAt > v.clock ==>
                  exists i: nat, k: nat :: StandsFor(b, v.pulled, id, i, k))
            && (forall i: nat, k: nat :: StillLasts(v.pulled, id, i, k, v.clock) ==>
                  exists b :: b in v.bans && StandsFor(b, v.pulled, id, i, k))
  {
    hide EnabledRun, RunSteps, Unique, Given, Settled, InForce, StandsFor, BanOf, Stored;
    var v := RunSteps(w, steps);
    PullsValid(w, steps);
    RunSettles(w, steps);
    s := GoodSnapshot(v.pulled);
    forall b | b in v.bans && b.source == CrowdSec && b.decisionID == id && b.expiresAt > v.clock
      ensures exists i: nat, k: nat :: StandsFor(b, v.pulled, id, i, k)
    {
      StoredIsGiven(w, steps, id, b);
      GivenMeans(v.pulled, id, b);
      var i, k :| InForceAs(v.pulled, id, i, k, b);
      ForceRecords(v.pulled, id, i, k);
    }
    forall i: nat, k: nat | StillLasts(v.pulled, id, i, k, v.clock)
      ensures exists b :: b in v.bans && StandsFor(b, v.pulled, id, i, k)
    {
      ForceBounds(v.pulled, id, i, k);
      var b := Stored(BanOf(v.pulled[i].response.added[k], v.pulled[i].nanos));
      BanEnds(v.pulled[i].response.added[k], v.pulled[i].nanos);
      ForceRecords(v.pulled, id, i, k);
      assert InForceAs(v.pulled, id, i, k, b);
      GivenMeans(v.pulled, id, b);
      StoredIsGiven(w, steps, id, b);
    }
  }

  lemma ForceBounds(pulled: seq<Pulled>, id: int, i: nat, k: nat)
    requires InForce(pulled, id, i, k)
    ensures i < |pulled| && k < |pulled[i].response.added| && Lasts(pulled[i].response.added[k])
  {
  }

  lemma BanEnds(d: Remote, nanos: int)
    requires Lasts(d)
    ensures Stored(BanOf(d, nanos)).expiresAt == (nanos + d.nanos.value) / SECOND
  {
    hide CanonicalBanAddress, CrowdSecAddress;
  }

  lemma RunSettles(w: World, steps: seq<Step>)
    requires Initial(w) && Unique(w.bans) && EnabledRun(w, steps)
    requires var v := RunSteps(w, steps); v.pending.Some? || !v.startup
    ensures Settled(RunSteps(w, steps).pulled)
  {
    hide EnabledRun, RunSteps, Unique, Settled;
    RunKeepsInv(w, steps);
  }

  // ---- batches that cannot be applied ----

  // The pending batch is the last response.
  ghost predicate FromLast(w: World)
  {
    w.pending.Some? ==>
      && w.pulled != []
      && var p := w.pulled[|w.pulled| - 1]; Convert(p.response, p.startup, p.nanos) == Ok(w.pending.value)
  }

  lemma {:induction false} RunFromLast(w: World, steps: seq<Step>)
    requires FromLast(w) && EnabledRun(w, steps)
    ensures FromLast(RunSteps(w, steps))
    decreases |steps|
  {
    hide Convert, Commit, Live;
    if steps != [] { RunFromLast(Next(w, steps[0]), steps[1..]); }
  }

  predicate EndsAfter(p: Pulled, i: nat, now: int)
    requires i < |p.response.added| && Lasts(p.response.added[i])
  {
    (p.nanos + p.response.added[i].nanos.value) / SECOND > now
  }

  // Every ban of the response still lasts.
  predicate Fresh(p: Pulled, now: int)
  {
    forall i :: 0 <= i < |p.response.added| && Lasts(p.response.added[i]) ==> EndsAfter(p, i, now)
  }

  lemma BatchAdmits(p: Pulled, now: int)
    requires ValidResponse(p.response) && Taken(p)
    ensures var u := Convert(p.response, p.startup, p.nanos).value;
            && (forall j :: 0 <= j < |u.add| ==> (Admit(u.add[j], now).Ok? <==> u.add[j].expiresAt > now))
            && (Fresh(p, now) <==> forall j :: 0 <= j < |u.add| ==> u.add[j].expiresAt > now)
            && (u.snapshot || Positive(u.deleteIDs))
  {
    hide Convert, Admit, Lasts;
    var at := BatchMeans(p.response, p.startup, p.nanos);
    var u := Convert(p.response, p.startup, p.nanos).value;
    ConvertedAdmits(p, now);
    forall j | 0 <= j < |u.add| ensures AddedFor(p.response.added[at[j]], p.nanos, u.add[j]) {}
    if Fresh(p, now) {
      assert forall j :: 0 <= j < |u.add| ==> Lasts(p.response.added[at[j]]);
    }
    if forall j :: 0 <= j < |u.add| ==> u.add[j].expiresAt > now {
      forall i | 0 <= i < |p.response.added| && Lasts(p.response.added[i])
        ensures EndsAfter(p, i, now)
      {
        assert i in at;
      }
    }
  }

  lemma ConvertedAdmits(p: Pulled, now: int)
    requires ValidResponse(p.response) && Taken(p)
    ensures var u := Convert(p.response, p.startup, p.nanos).value;
            forall j :: 0 <= j < |u.add| ==> (Admit(u.add[j], now).Ok? <==> u.add[j].expiresAt > now)
  {
    hide CanonicalBanAddress, DecodeAll;
    ConvertedDecisions(p.response.added, p.nanos);
    var u := Convert(p.response, p.startup, p.nanos).value;
    forall j | 0 <= j < |u.add| ensures Admit(u.add[j], now).Ok? <==> u.add[j].expiresAt > now {
      assert u.add[j] in u.add;
    }
  }

  lemma {:induction false} AddsAllOrNone(bans: seq<ThreatBan>, adds: seq<ThreatBan>, now: int)
    ensures AddAll(bans, adds, now).Ok? <==> forall j :: 0 <= j < |adds| ==> Admit(adds[j], now).Ok?
  {
    hide Admit, Upsert;
    if adds != [] {
      var n := |adds| - 1;
      AddsAllOrNone(bans, adds[..n], now);
      if AddAll(bans, adds, now).Ok? {
        forall j | 0 <= j < |adds| ensures Admit(adds[j], now).Ok? {
          if j < n { assert Admit(adds[..n][j], now).Ok?; }
        }
      }
    }
  }

  // An attempt that meets no obstacle clears the pending batch exactly when
  // every ban of the last response still lasts.
  lemma {:induction false} AppliesIff(w: World, now: int)
    requires FromLast(w) && w.pending.Some? && w.clock <= now && ValidPulls(w.pulled)
    ensures Next(w, Apply(now, Goes)).pending.None? <==> Fresh(w.pulled[|w.pulled| - 1], now)
  {
    hide Convert, Admit, AddAll, Fresh, ValidResponse, Live;
    var p, u := w.pulled[|w.pulled| - 1], w.pending.value;
    BatchAdmits(p, now);
    AddsAllOrNone(if u.snapshot then Locals(w.bans) else w.bans, u.add, now);
  }

  // Once a ban of the pending batch has run out, no run gets rid of the
  // batch, and no response is pulled again.
  lemma {:induction false} ExpiredBatchSticks(w: World, steps: seq<Step>)
    requires FromLast(w) && w.pending.Some? && ValidPulls(w.pulled) && EnabledRun(w, steps)
    requires !Fresh(w.pulled[|w.pulled| - 1], w.clock)
    ensures var v := RunSteps(w, steps);
            v.pending == w.pending && v.startup == w.startup && v.pulled == w.pulled
    decreases |steps|
  {
    hide Convert, Admit, AddAll, ValidResponse, Live;
    if steps != [] {
      var p, u, v := w.pulled[|w.pulled| - 1], w.pending.value, Next(w, steps[0]);
      BatchAdmits(p, v.clock);
      AddsAllOrNone(if u.snapshot then Locals(w.bans) else w.bans, u.add, v.clock);
      Withers(p, w.clock, v.clock);
      ExpiredBatchSticks(v, steps[1..]);
    }
  }

  lemma Withers(p: Pulled, now: int, later: int)
    requires !Fresh(p, now) && now <= later
    ensures !Fresh(p, later)
  {
    hide Lasts;
  }
}
