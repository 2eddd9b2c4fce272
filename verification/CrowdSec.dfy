/** The decision poller: pulls snapshots and deltas, retries batches that do
    not apply, and asks for a fresh snapshot after an invalid one. */
module CrowdSecPoller {
  import opened Bytes
  import opened AddressSets
  import opened Outcomes
  import opened Rules
  import opened ThreatBans

  // ---- decoding a response ----

  datatype Scope = IpScope | RangeScope | OtherScope

  // nanos is the parsed duration, None when it does not parse.
  datatype Remote = Remote(id: int, ban: bool, scope: Scope, value: Addr, nanos: Option<int>, scenario: string)

  datatype Response = Response(added: seq<Remote>, deleted: seq<int>)

  const SECOND: int := 1_000_000_000

  // crowdSecAddress on parsed text.
  function CrowdSecAddress(scope: Scope, value: Addr): Result<Addr>
  {
    match scope
    case IpScope => CanonicalBanAddress(value)
    case RangeScope => if value.Cidr? then Ok(Cidr(Masked(value.net))) else Err
    case OtherScope => Err
  }

  // What the poller makes of one decision: nothing, an error, or a ban.
  datatype Decoded = Skip | Invalid | Ban(ban: ThreatBan)

  function Decode(d: Remote, nowNanos: int): Decoded
  {
    if !d.ban then Skip
    else if d.id <= 0 || CrowdSecAddress(d.scope, d.value).Err? || d.nanos.None? then Invalid
    else if d.nanos.value <= 0 then Skip
    else
      var expiry := (nowNanos + d.nanos.value) / SECOND;
      Ban(ThreatBan(CrowdSecAddress(d.scope, d.value).value, CrowdSec, d.scenario, d.id, expiry))
  }

  function DecodeAll(ds: seq<Remote>, nowNanos: int): Result<seq<ThreatBan>>
  {
    if ds == [] then Ok([])
    else
      var init := DecodeAll(ds[..|ds| - 1], nowNanos);
      if init.Err? then Err
      else
        match Decode(ds[|ds| - 1], nowNanos)
        case Skip => init
        case Invalid => Err
        case Ban(b) => Ok(init.value + [b])
  }

  function Convert(response: Response, startup: bool, nowNanos: int): Result<Update>
  {
    var adds := DecodeAll(response.added, nowNanos);
    if adds.Err? then Err
    else if startup then Ok(Update(true, adds.value, []))
    else if !Positive(response.deleted) then Err
    else Ok(Update(false, adds.value, response.deleted))
  }

  method CrowdSecUpdate(response: Response, startup: bool, nowNanos: int) returns (r: Result<Update>)
    ensures r == Convert(response, startup, nowNanos)
  {
    var adds, ids := [], [];
    for i := 0 to |response.added|
      invariant DecodeAll(response.added[..i], nowNanos) == Ok(adds)
    {
      var d := response.added[i];
      assert response.added[..i + 1][..i] == response.added[..i];
      if !d.ban { continue; }
      var address := CrowdSecAddress(d.scope, d.value);
      if d.id <= 0 || address.Err? || d.nanos.None? {
        DecodeFails(response.added, i, nowNanos);
        return Err;
      }
      if d.nanos.value <= 0 { continue; }
      adds := adds + [ThreatBan(address.value, CrowdSec, d.scenario, d.id, (nowNanos + d.nanos.value) / SECOND)];
    }
    assert response.added[..|response.added|] == response.added;
    if !startup {
      for i := 0 to |response.deleted|
        invariant ids == response.deleted[..i] && forall k :: 0 <= k < i ==> response.deleted[k] > 0
      {
        if response.deleted[i] <= 0 { return Err; }
        ids := ids + [response.deleted[i]];
      }
      assert ids == response.deleted;
    }
    return Ok(Update(startup, adds, ids));
  }

  lemma {:induction false} DecodeFails(ds: seq<Remote>, i: nat, nowNanos: int)
    requires i < |ds| && Decode(ds[i], nowNanos).Invalid?
    ensures DecodeAll(ds, nowNanos).Err?
    decreases |ds|
  {
    hide Decode;
    if i < |ds| - 1 {
      assert ds[..|ds| - 1][i] == ds[i];
      DecodeFails(ds[..|ds| - 1], i, nowNanos);
    }
  }

  // A converted batch holds decisions only, each under a positive id and a
  // canonical address once stored.
  lemma {:induction false} ConvertedDecisions(ds: seq<Remote>, nowNanos: int)
    requires DecodeAll(ds, nowNanos).Ok? && forall d :: d in ds ==> d.value.Valid()
    ensures forall b :: b in DecodeAll(ds, nowNanos).value ==>
                          b.source == CrowdSec && b.decisionID > 0 && CanonicalBanAddress(b.address).Ok?
  {
    hide CanonicalBanAddress;
    if ds != [] {
      var d := ds[|ds| - 1];
      ConvertedDecisions(ds[..|ds| - 1], nowNanos);
      assert d in ds;
      if Decode(d, nowNanos).Ban? { ConvertedAddress(d.scope, d.value); }
    }
  }

  lemma ConvertedAddress(scope: Scope, value: Addr)
    requires value.Valid() && CrowdSecAddress(scope, value).Ok?
    ensures CanonicalBanAddress(CrowdSecAddress(scope, value).value).Ok?
  {
    hide Masked, CanonicalBanAddress;
    if scope == IpScope {
      CanonicalIdempotent(value);
    } else {
      MaskedTwice(value.net);
      MaskedWidth(value.net);
      CanonicalFails(Cidr(Masked(value.net)));
    }
  }

  // ---- the protocol ----

  // One response of the service, whether a snapshot was asked for, and when
  // it came.
  datatype Pulled = Pulled(response: Response, startup: bool, nanos: int)

  // The stored bans, the poller's variables, every response so far, those
  // refused included, and the time.
  datatype World = World(bans: seq<ThreatBan>, startup: bool, pending: Option<Update>, pulled: seq<Pulled>, clock: int)

  // What the responses say when taken one after the other.
  function Given(pulled: seq<Pulled>): Table
  {
    if pulled == [] then map[]
    else
      var t, p := Given(pulled[..|pulled| - 1]), pulled[|pulled| - 1];
      var r := Convert(p.response, p.startup, p.nanos);
      if r.Err? then t else Feed(t, r.value)
  }

  // A snapshot was taken, and it and every later response are accepted.
  ghost predicate Settled(pulled: seq<Pulled>)
  {
    exists s :: 0 <= s < |pulled| && pulled[s].startup && AllTaken(pulled[s..])
  }

  predicate Taken(p: Pulled) { Convert(p.response, p.startup, p.nanos).Ok? }

  predicate AllTaken(pulled: seq<Pulled>) { forall i :: 0 <= i < |pulled| ==> Taken(pulled[i]) }

  // Pulls and applications of the poller, interleaved with other commands.
  datatype Step =
    | PullFails
    | Pull(response: Response, nanos: int)
    | Apply(now: int, attempt: Attempt)
    | LocalBan(ban: ThreatBan, now: int, attempt: Attempt)
    | Sweep(now: int)

  function Live(bans: seq<ThreatBan>, now: int): (r: seq<ThreatBan>)
    ensures forall b :: b in r <==> b in bans && b.expiresAt > now
  {
    if bans == [] then []
    else
      var init, b := Live(bans[..|bans| - 1], now), bans[|bans| - 1];
      if b.expiresAt > now then init + [b] else init
  }

  // How an attempt to apply fares: the lock or the stored state cannot be
  // had, the kernel or the file refuses, or it goes through.
  datatype Attempt = Blocked | Refused | Goes

  // applyThreatUpdate: a batch that changes nothing needs no commit; a
  // commit sweeps expired bans and may fail, leaving the stored list.
  function Commit(bans: seq<ThreatBan>, u: Update, now: int, attempt: Attempt): Result<seq<ThreatBan>>
  {
    var r := ApplyUpdate(bans, u, now);
    if attempt.Blocked? || r.Err? then Err
    else if r.value == bans then Ok(bans)
    else if attempt.Goes? then Ok(Live(r.value, now))
    else Err
  }

  predicate Enabled(w: World, s: Step)
  {
    match s
    case PullFails => w.pending.None?
    case Pull(_, _) => w.pending.None?
    case Apply(now, _) => w.pending.Some? && w.clock <= now
    case LocalBan(ban, now, _) => ban.Local() && w.clock <= now
    case Sweep(now) => w.clock <= now
  }

  function Next(w: World, s: Step): World
    requires Enabled(w, s)
  {
    match s
    case PullFails => w
    case Pull(response, nanos) =>
      var r := Convert(response, w.startup, nanos);
      var h := w.pulled + [Pulled(response, w.startup, nanos)];
      if r.Err? then w.(startup := true, pulled := h) else w.(pending := Some(r.value), pulled := h)
    case Apply(now, attempt) =>
      var r := Commit(w.bans, w.pending.value, now, attempt);
      if r.Err? then w.(clock := now) else w.(bans := r.value, startup := false, pending := None, clock := now)
    case LocalBan(ban, now, attempt) =>
      var r := Commit(w.bans, Update(false, [ban], []), now, attempt);
      w.(bans := if r.Ok? then r.value else w.bans, clock := now)
    case Sweep(now) => w.(bans := Live(w.bans, now), clock := now)
  }

  // The tables agree on every decision that has not expired.
  ghost predicate Agree(a: Table, b: Table, clock: int)
  {
    forall id: int, ban: ThreatBan ::
        ban.expiresAt > clock ==> ((id in a && a[id] == ban) <==> (id in b && b[id] == ban))
  }

  ghost predicate Inv(w: World)
  {
    && Unique(w.bans)
    && (w.pending.None? && !w.startup ==> Agree(TableOf(w.bans), Given(w.pulled), w.clock))
    && (w.pending.Some? || !w.startup ==> Settled(w.pulled))
    && (w.pending.Some? ==> w.pending.value.snapshot == w.startup)
    && (w.pending.Some? ==> Agree(Feed(TableOf(w.bans), w.pending.value), Given(w.pulled), w.clock))
  }

  lemma {:induction false} FeedAddsAgree(a: Table, b: Table, adds: seq<ThreatBan>, clock: int)
    requires Agree(a, b, clock)
    ensures Agree(FeedAdds(a, adds), FeedAdds(b, adds), clock)
  {
    hide Stored;
    if adds != [] { FeedAddsAgree(a, b, adds[..|adds| - 1], clock); }
  }

  // Feeding the same batch keeps tables in agreement; a snapshot makes
  // them agree whatever they were.
  lemma FeedAgree(a: Table, b: Table, u: Update, clock: int)
    requires u.snapshot || Agree(a, b, clock)
    ensures Agree(Feed(a, u), Feed(b, u), clock)
  {
    hide FeedAdds;
    if !u.snapshot { FeedAddsAgree(a, b, u.add, clock); }
  }

  lemma {:induction false} LiveUnique(bans: seq<ThreatBan>, now: int)
    requires Unique(bans)
    ensures Unique(Live(bans, now))
  {
    hide IdentOf;
    if bans != [] {
      var n := |bans| - 1;
      LiveUnique(bans[..n], now);
      if bans[n].expiresAt > now { SnocUnique(Live(bans[..n], now), bans[n], bans); }
    }
  }

  // Sweeping removes expired decisions only.
  lemma LiveAgrees(bans: seq<ThreatBan>, now: int)
    requires Unique(bans)
    ensures Agree(TableOf(Live(bans, now)), TableOf(bans), now)
  {
    hide TableOf, Unique;
    LiveUnique(bans, now);
    TableMembers(bans);
    TableMembers(Live(bans, now));
  }

  lemma AgreeChain(a: Table, b: Table, c: Table, clock: int, now: int)
    requires Agree(a, b, now) && Agree(b, c, clock) && clock <= now
    ensures Agree(a, c, now)
  {
  }

  lemma AgreeSelf(a: Table, now: int)
    ensures Agree(a, a, now)
  {
  }

  // A committed batch leaves the decisions it says, up to expiry.
  lemma CommitFeeds(bans: seq<ThreatBan>, u: Update, now: int, attempt: Attempt)
    requires Unique(bans) && Commit(bans, u, now, attempt).Ok?
    ensures Unique(Commit(bans, u, now, attempt).value)
    ensures Agree(TableOf(Commit(bans, u, now, attempt).value), Feed(TableOf(bans), u), now)
  {
    hide ApplyUpdate, TableOf, Unique, Feed, Agree;
    var r := ApplyUpdate(bans, u, now).value;
    UpdateKeepsUnique(bans, u, now);
    UpdateFeedsTable(bans, u, now);
    AgreeSelf(TableOf(r), now);
    LiveUnique(r, now);
    LiveAgrees(r, now);
  }

  lemma LocalFeedsNothing(t: Table, ban: ThreatBan)
    requires ban.Local()
    ensures Feed(t, Update(false, [ban], [])) == t
  {
    assert [ban][..0] == [];
    assert FeedAdds(t, []) == t && FeedAdds(t, [ban]) == t;
    assert t - IdSet([]) == t;
  }

  // The bans changed, but agree with what they were.
  lemma BansChange(w: World, bans: seq<ThreatBan>, now: int)
    requires Inv(w) && Unique(bans) && w.clock <= now && Agree(TableOf(bans), TableOf(w.bans), now)
    ensures Inv(w.(bans := bans, clock := now))
  {
    hide Unique, TableOf, Feed, Agree, Given, Settled;
    if w.pending.None? && !w.startup {
      AgreeChain(TableOf(bans), TableOf(w.bans), Given(w.pulled), w.clock, now);
    }
    if w.pending.Some? {
      var u := w.pending.value;
      FeedAgree(TableOf(bans), TableOf(w.bans), u, now);
      AgreeChain(Feed(TableOf(bans), u), Feed(TableOf(w.bans), u), Given(w.pulled), w.clock, now);
    }
  }

  lemma {:induction false} StepKeepsInv(w: World, s: Step)
    requires Inv(w) && Enabled(w, s)
    ensures Inv(Next(w, s))
  {
    hide Unique, TableOf, Feed, Agree, Convert, Commit, Live, Given, Settled;
    match s
    case PullFails =>
    case Pull(response, nanos) => PullKeepsInv(w, response, nanos);
    case Apply(now, attempt) => ApplyKeepsInv(w, now, attempt);
    case LocalBan(ban, now, attempt) =>
      var u := Update(false, [ban], []);
      AgreeSelf(TableOf(w.bans), now);
      if Commit(w.bans, u, now, attempt).Ok? {
        CommitFeeds(w.bans, u, now, attempt);
        LocalFeedsNothing(TableOf(w.bans), ban);
        BansChange(w, Commit(w.bans, u, now, attempt).value, now);
      } else {
        BansChange(w, w.bans, now);
      }
    case Sweep(now) =>
      LiveUnique(w.bans, now);
      LiveAgrees(w.bans, now);
      BansChange(w, Live(w.bans, now), now);
  }

  lemma PullKeepsInv(w: World, response: Response, nanos: int)
    requires Inv(w) && w.pending.None?
    ensures Inv(Next(w, Pull(response, nanos)))
  {
    hide Unique, TableOf, Feed, Agree, DecodeAll, Settled;
    var r := Convert(response, w.startup, nanos);
    var p := Pulled(response, w.startup, nanos);
    var h := w.pulled + [p];
    assert h[..|h| - 1] == w.pulled;
    if r.Ok? {
      FeedAgree(TableOf(w.bans), Given(w.pulled), r.value, w.clock);
      SettledNext(w.pulled, p);
    }
  }

  lemma SettledNext(pulled: seq<Pulled>, p: Pulled)
    requires Taken(p) && (p.startup || Settled(pulled))
    ensures Settled(pulled + [p])
  {
    hide Taken;
    var h := pulled + [p];
    if p.startup {
      assert h[|pulled|..] == [p];
    } else {
      var s :| 0 <= s < |pulled| && pulled[s].startup && AllTaken(pulled[s..]);
      assert h[s..] == pulled[s..] + [p];
    }
  }

  lemma ApplyKeepsInv(w: World, now: int, attempt: Attempt)
    requires Inv(w) && w.pending.Some? && w.clock <= now
    ensures Inv(Next(w, Apply(now, attempt)))
  {
    hide Unique, TableOf, Feed, Agree, Commit, Given, Settled;
    var u := w.pending.value;
    if Commit(w.bans, u, now, attempt).Ok? {
      var bans := Commit(w.bans, u, now, attempt).value;
      CommitFeeds(w.bans, u, now, attempt);
      AgreeChain(TableOf(bans), Feed(TableOf(w.bans), u), Given(w.pulled), w.clock, now);
    } else {
      AgreeSelf(TableOf(w.bans), now);
      BansChange(w, w.bans, now);
    }
  }

  // ---- every run ----

  predicate EnabledRun(w: World, steps: seq<Step>)
    decreases |steps|
  {
    steps == [] || (Enabled(w, steps[0]) && EnabledRun(Next(w, steps[0]), steps[1..]))
  }

  function RunSteps(w: World, steps: seq<Step>): World
    requires EnabledRun(w, steps)
    decreases |steps|
  {
    if steps == [] then w else RunSteps(Next(w, steps[0]), steps[1..])
  }

  lemma {:induction false} RunKeepsInv(w: World, steps: seq<Step>)
    requires Inv(w) && EnabledRun(w, steps)
    ensures Inv(RunSteps(w, steps))
    decreases |steps|
  {
    hide Inv, Enabled, Next;
    if steps != [] {
      StepKeepsInv(w, steps[0]);
      RunKeepsInv(Next(w, steps[0]), steps[1..]);
    }
  }

  // The poller starts with nothing pending and asks for a snapshot.
  predicate Initial(w: World) { w.startup && w.pending.None? && w.pulled == [] }

  // Whenever nothing is pending and startup is over, the unexpired stored
  // decisions are those of the accepted responses.
  lemma StoredIsGiven(w: World, steps: seq<Step>, id: int, ban: ThreatBan)
    requires Initial(w) && Unique(w.bans) && EnabledRun(w, steps)
    requires var v := RunSteps(w, steps); v.pending.None? && !v.startup && ban.expiresAt > v.clock
    ensures var v := RunSteps(w, steps);
            && Settled(v.pulled)
            && ((ban in v.bans && ban.source == CrowdSec && ban.decisionID == id) <==>
                (id in Given(v.pulled) && Given(v.pulled)[id] == ban))
  {
    hide EnabledRun, RunSteps, TableOf, Unique, Given, Settled;
    RunKeepsInv(w, steps);
    TableMembers(RunSteps(w, steps).bans);
  }

  // No step of the run bans the same source and address anew.
  predicate Untouched(steps: seq<Step>, b: ThreatBan)
  {
    forall i :: 0 <= i < |steps| && steps[i].LocalBan? ==> IdentOf(Stored(steps[i].ban)) != IdentOf(b)
  }

  lemma CommitKeepsLocal(bans: seq<ThreatBan>, u: Update, now: int, attempt: Attempt, b: ThreatBan)
    requires Unique(bans) && Commit(bans, u, now, attempt).Ok? && b in bans && b.Local() && b.expiresAt > now
    requires forall a :: a in u.add && a.Local() ==> IdentOf(Stored(a)) != IdentOf(b)
    ensures b in Commit(bans, u, now, attempt).value
  {
    hide ApplyUpdate, Unique, IdentOf, Stored;
    UpdateKeepsLocal(bans, u, now, b);
  }

  // Unexpired local bans are never removed: only a new local ban of the
  // same source and address replaces one.
  lemma {:induction false} LocalBansStay(w: World, steps: seq<Step>, b: ThreatBan)
    requires Inv(w) && EnabledRun(w, steps) && b in w.bans && b.Local()
    requires Untouched(steps, b) && b.expiresAt > RunSteps(w, steps).clock
    requires w.pending.Some? ==> CrowdSecOnly(w.pending.value)
    ensures b in RunSteps(w, steps).bans
    decreases |steps|
  {
    hide Inv, Commit, Convert, Live, IdentOf, Stored;
    if steps != [] {
      var s, w' := steps[0], Next(w, steps[0]);
      StepKeepsInv(w, s);
      ClockGrows(w', steps[1..]);
      assert forall i :: 0 <= i < |steps[1..]| ==> steps[1..][i] == steps[i + 1];
      StepKeepsLocal(w, s, b);
      LocalBansStay(w', steps[1..], b);
    }
  }

  lemma {:induction false} ClockGrows(w: World, steps: seq<Step>)
    requires EnabledRun(w, steps)
    ensures w.clock <= RunSteps(w, steps).clock
    decreases |steps|
  {
    hide Commit, Convert, Live;
    if steps != [] { ClockGrows(Next(w, steps[0]), steps[1..]); }
  }

  lemma StepKeepsLocal(w: World, s: Step, b: ThreatBan)
    requires Inv(w) && Enabled(w, s) && b in w.bans && b.Local() && b.expiresAt > Next(w, s).clock
    requires s.LocalBan? ==> IdentOf(Stored(s.ban)) != IdentOf(b)
    requires w.pending.Some? ==> CrowdSecOnly(w.pending.value)
    ensures b in Next(w, s).bans
    ensures Next(w, s).pending.Some? ==> CrowdSecOnly(Next(w, s).pending.value)
  {
    hide Commit, DecodeAll, IdentOf, Stored, Unique, TableOf, Feed, Agree;
    match s
    case PullFails =>
    case Pull(response, nanos) => if Convert(response, w.startup, nanos).Ok? { DecodedOnly(response.added, nanos); }
    case Apply(now, attempt) =>
      if Commit(w.bans, w.pending.value, now, attempt).Ok? {
        CommitKeepsLocal(w.bans, w.pending.value, now, attempt, b);
      }
    case LocalBan(ban, now, attempt) =>
      if Commit(w.bans, Update(false, [ban], []), now, attempt).Ok? {
        CommitKeepsLocal(w.bans, Update(false, [ban], []), now, attempt, b);
      }
    case Sweep(now) =>
  }

  lemma {:induction false} DecodedOnly(ds: seq<Remote>, nowNanos: int)
    requires DecodeAll(ds, nowNanos).Ok?
    ensures forall i :: 0 <= i < |DecodeAll(ds, nowNanos).value| ==> DecodeAll(ds, nowNanos).value[i].source == CrowdSec
  {
    hide CrowdSecAddress;
    if ds != [] { DecodedOnly(ds[..|ds| - 1], nowNanos); }
  }

  // ---- the loop ----

  // One poller with the store it writes to; pulled and clock only record
  // what happened.
  class Poller {
    const store: BanStore
    var startup: bool
    var pending: Option<Update>
    ghost var pulled: seq<Pulled>
    ghost var clock: int

    constructor (store: BanStore, clock: int)
      ensures this.store == store && Initial(View()) && View().bans == store.bans
    {
      this.store, startup, pending := store, true, None;
      this.pulled, this.clock := [], clock;
    }

    ghost function View(): World
      reads this, store
    {
      World(store.bans, startup, pending, pulled, clock)
    }

    // applyThreatUpdate: attempt says whether loading, applying to the kernel and
    // saving succeed.
    method ApplyThreatUpdate(u: Update, now: int, attempt: Attempt) returns (ok: bool)
      modifies store
      ensures var r := Commit(old(store.bans), u, now, attempt);
              ok == r.Ok? && store.bans == if r.Ok? then r.value else old(store.bans)
    {
      hide ApplyUpdate, Live;
      if attempt.Blocked? { return false; }
      var loaded := store.bans;
      var r := store.ApplyThreatUpdate(u, now);
      if r.Err? { return false; }
      if !r.value { return true; }
      if attempt.Refused? {
        store.bans := loaded;
        return false;
      }
      var kept := SweepBans(store.bans, now);
      store.bans := kept;
      return true;
    }

    static method SweepBans(bans: seq<ThreatBan>, now: int) returns (kept: seq<ThreatBan>)
      ensures kept == Live(bans, now)
    {
      kept := [];
      for i := 0 to |bans|
        invariant kept == Live(bans[..i], now)
      {
        assert bans[..i + 1][..i] == bans[..i];
        if bans[i].expiresAt > now { kept := kept + [bans[i]]; }
      }
      assert bans[..|bans|] == bans;
    }

    // One iteration between two ticks: pull when nothing is pending, then
    // try to apply what is. A failed pull has no response.
    method Iterate(response: Option<Response>, nanos: int, now: int, attempt: Attempt)
      requires clock <= now
      modifies this, store
      ensures var pull := if response.Some? then Pull(response.value, nanos) else PullFails;
              var w := if old(View()).pending.None? then Next(old(View()), pull) else old(View());
              View() == if w.pending.Some? then Next(w, Apply(now, attempt)) else w
    {
      hide Convert, Commit, Feed;
      if pending.None? {
        if response.Some? {
          var r := CrowdSecUpdate(response.value, startup, nanos);
          pulled := pulled + [Pulled(response.value, startup, nanos)];
          if r.Err? {
            startup := true;
          } else {
            pending := Some(r.value);
          }
        }
      }
      if pending.Some? {
        var applied := ApplyThreatUpdate(pending.value, now, attempt);
        clock := now;
        if applied {
          startup, pending := false, None;
        }
      }
    }
  }
}
