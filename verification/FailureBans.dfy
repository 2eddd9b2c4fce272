/** What the failure detector bans over a whole run of events, told on the
    events. */
module FailureBans {
  import opened Bytes
  import opened AddressSets
  import opened Outcomes
  import opened FailureDetector

  // One journal message: hits[i] is what the patterns of jail i find in it.
  datatype Event = Event(identifier: string, hits: seq<Option<Ip>>, now: int)

  ghost predicate ValidRun(jails: seq<Jail>, es: seq<Event>)
  {
    && ValidJails(jails) && (forall n :: 0 <= n < |es| ==> |es[n].hits| == |jails|)
    && forall i, k :: 0 <= i < |jails| && 0 <= k < |jails[i].ignoreIPs| ==> jails[i].ignoreIPs[k].Valid()
  }

  // The message counts as a failure of the address in the jail.
  ghost predicate Failure(jail: Jail, e: Event, i: nat, ip: Ip)
    requires i < |e.hits| && forall k :: 0 <= k < |jail.ignoreIPs| ==> jail.ignoreIPs[k].Valid()
  {
    && e.identifier in jail.identifiers && e.hits[i] == Some(ip)
    && forall k :: 0 <= k < |jail.ignoreIPs| ==> !jail.ignoreIPs[k].Contains(ip)
  }

  ghost predicate FailsAt(jails: seq<Jail>, es: seq<Event>, i: nat, ip: Ip, n: nat)
    requires ValidRun(jails, es) && i < |jails| && n < |es|
  {
    Failure(jails[i], es[n], i, ip)
  }

  // The failures before event n that no ban has used up.
  ghost function Unused(jails: seq<Jail>, es: seq<Event>, i: nat, ip: Ip, n: nat): set<nat>
    requires ValidRun(jails, es) && i < |jails| && n <= |es|
    decreases n, 1
  {
    set m: nat | m < n && FailsAt(jails, es, i, ip, m) && NoBan(jails, es, i, ip, m, n)
  }

  ghost predicate NoBan(jails: seq<Jail>, es: seq<Event>, i: nat, ip: Ip, m: nat, n: nat)
    requires ValidRun(jails, es) && i < |jails| && n <= |es|
    decreases n, 0
  {
    forall q: nat :: m <= q < n ==> !Banned(jails, es, i, ip, q)
  }

  // Those no older than the jail's find time.
  ghost function Within(es: seq<Event>, ms: set<nat>, cutoff: int): set<nat>
    requires forall m :: m in ms ==> m < |es|
  {
    set m | m in ms && es[m].now >= cutoff
  }

  // Event n is a failure, and with it the jail's retries are used up within
  // the find time.
  ghost predicate Banned(jails: seq<Jail>, es: seq<Event>, i: nat, ip: Ip, n: nat)
    requires ValidRun(jails, es) && i < |jails| && n < |es|
    decreases n, 2
  {
    && FailsAt(jails, es, i, ip, n)
    && |Within(es, Unused(jails, es, i, ip, n) + {n}, es[n].now - jails[i].findTime)| >= jails[i].maxRetries
  }

  // ---- the naive detector over the run ----

  function Remembered(jails: seq<Jail>, es: seq<Event>): History
    requires forall n :: 0 <= n < |es| ==> |es[n].hits| == |jails|
  {
    if es == [] then map[]
    else
      var n := |es| - 1;
      NaiveObserve(Remembered(jails, es[..n]), jails, es[n].identifier, es[n].hits, es[n].now).0
  }

  function BansAt(jails: seq<Jail>, es: seq<Event>, n: nat): seq<Ban>
    requires n < |es| && forall n :: 0 <= n < |es| ==> |es[n].hits| == |jails|
  {
    NaiveObserve(Remembered(jails, es[..n]), jails, es[n].identifier, es[n].hits, es[n].now).1
  }

  lemma CountedMeans(jail: Jail, e: Event, i: nat, ip: Ip)
    requires i < |e.hits| && forall k :: 0 <= k < |jail.ignoreIPs| ==> jail.ignoreIPs[k].Valid()
    ensures Counted(jail, e.identifier, e.hits[i]) == Some(ip) <==> Failure(jail, e, i, ip)
  {
    hide Mask, CidrMask, SamePrefix;
    forall k | 0 <= k < |jail.ignoreIPs| && |jail.ignoreIPs[k].addr| == |ip|
      ensures Mask(ip, CidrMask(jail.ignoreIPs[k].bits, |ip|))
              == Mask(jail.ignoreIPs[k].addr, CidrMask(jail.ignoreIPs[k].bits, |ip|))
              <==> jail.ignoreIPs[k].Contains(ip)
    {
      MaskEqIsSamePrefix(ip, jail.ignoreIPs[k].addr, jail.ignoreIPs[k].bits);
    }
  }

  // What jail i makes of an event, by itself.
  function JailStep(past: seq<int>, jail: Jail, counts: bool, now: int): (seq<int>, bool)
  {
    if !counts then (past, false)
    else if |Recent(past + [now], now - jail.findTime)| < jail.maxRetries then (past + [now], false)
    else ([], true)
  }

  // An observation does to each address of each jail what that jail does.
  lemma {:induction false} ObserveEach(h: History, jails: seq<Jail>, e: Event, n: nat, i: nat, ip: Ip)
    requires ValidJails(jails) && n <= |jails| == |e.hits| && i < |jails|
    ensures var k, c := Key(jails[i].name, ip), Counted(jails[i], e.identifier, e.hits[i]) == Some(ip);
            var r := NaiveObserve(h, jails[..n], e.identifier, e.hits[..n], e.now);
            var s := JailStep(Past(h, k), jails[i], c, e.now);
            && Past(r.0, k) == (if i < n then s.0 else Past(h, k))
            && (i < n && s.1 ==> Ban(ip, jails[i].name, (e.now + jails[i].banTime) / SECOND) in r.1)
    decreases n
  {
    hide Recent, Counted, NaiveJail, JailStep;
    if n > 0 {
      assert jails[..n][..n - 1] == jails[..n - 1] && e.hits[..n][..n - 1] == e.hits[..n - 1];
      ObserveEach(h, jails, e, n - 1, i, ip);
      var prior := NaiveObserve(h, jails[..n - 1], e.identifier, e.hits[..n - 1], e.now).0;
      if i == n - 1 {
        OwnStep(prior, jails[i], e, i, ip);
      } else {
        assert jails[i].name != jails[n - 1].name;
        OtherStep(prior, jails[n - 1], e, n - 1, Key(jails[i].name, ip));
      }
    }
  }

  lemma OwnStep(h: History, jail: Jail, e: Event, i: nat, ip: Ip)
    requires i < |e.hits|
    ensures var k, c := Key(jail.name, ip), Counted(jail, e.identifier, e.hits[i]) == Some(ip);
            var r, s := NaiveJail(h, jail, e.identifier, e.hits[i], e.now), JailStep(Past(h, k), jail, c, e.now);
            Past(r.0, k) == s.0 && (s.1 ==> Ban(ip, jail.name, (e.now + jail.banTime) / SECOND) in r.1)
  {
    hide Recent, Counted;
  }

  lemma OtherStep(h: History, jail: Jail, e: Event, i: nat, k: Key)
    requires i < |e.hits| && k.jail != jail.name
    ensures Past(NaiveJail(h, jail, e.identifier, e.hits[i], e.now).0, k) == Past(h, k)
  {
    hide Recent, Counted;
  }

  // Every ban is one of these.
  lemma {:induction false} BansFrom(h: History, jails: seq<Jail>, e: Event, n: nat, b: Ban) returns (i: nat)
    requires ValidJails(jails) && n <= |jails| == |e.hits|
    requires b in NaiveObserve(h, jails[..n], e.identifier, e.hits[..n], e.now).1
    ensures i < n && Counted(jails[i], e.identifier, e.hits[i]) == Some(b.ip)
    ensures JailStep(Past(h, Key(jails[i].name, b.ip)), jails[i], true, e.now).1
    ensures b == Ban(b.ip, jails[i].name, (e.now + jails[i].banTime) / SECOND)
    decreases n
  {
    hide Recent, Counted;
    assert jails[..n][..n - 1] == jails[..n - 1] && e.hits[..n][..n - 1] == e.hits[..n - 1];
    var init := NaiveObserve(h, jails[..n - 1], e.identifier, e.hits[..n - 1], e.now);
    if b in init.1 {
      i := BansFrom(h, jails, e, n - 1, b);
    } else {
      i := n - 1;
      CountedIsHit(jails[i], e.identifier, e.hits[i]);
      ObserveEach(h, jails, e, n - 1, i, b.ip);
    }
  }

  lemma CountedIsHit(jail: Jail, identifier: string, hit: Option<Ip>)
    ensures Counted(jail, identifier, hit).Some? ==> Counted(jail, identifier, hit) == hit
  {
  }

  // ---- the tally ----

  lemma UnusedNext(jails: seq<Jail>, es: seq<Event>, i: nat, ip: Ip, n: nat)
    requires ValidRun(jails, es) && i < |jails| && n < |es|
    ensures Unused(jails, es, i, ip, n + 1) ==
            if Banned(jails, es, i, ip, n) then {}
            else if FailsAt(jails, es, i, ip, n) then Unused(jails, es, i, ip, n) + {n}
            else Unused(jails, es, i, ip, n)
  {
    hide FailsAt, Banned;
    forall m: nat ensures NoBan(jails, es, i, ip, m, n + 1) <==>
                          NoBan(jails, es, i, ip, m, n) && (m <= n ==> !Banned(jails, es, i, ip, n)) {
    }
  }

  ghost predicate Tallied(past: seq<int>, es: seq<Event>, ms: set<nat>)
    requires forall m :: m in ms ==> m < |es|
  {
    forall c: int :: |Recent(past, c)| == |Within(es, ms, c)|
  }

  lemma TallyNext(past: seq<int>, es: seq<Event>, ms: set<nat>, n: nat)
    requires n < |es| && (forall m :: m in ms ==> m < n) && Tallied(past, es, ms)
    ensures Tallied(past + [es[n].now], es, ms + {n})
  {
    forall c: int ensures |Recent(past + [es[n].now], c)| == |Within(es, ms + {n}, c)| {
      RecentSnoc(past, es[n].now, c);
      assert |Recent(past, c)| == |Within(es, ms, c)|;
      if es[n].now >= c {
        assert Within(es, ms + {n}, c) == Within(es, ms, c) + {n} && n !in Within(es, ms, c);
      } else {
        assert Within(es, ms + {n}, c) == Within(es, ms, c);
      }
    }
  }

  lemma TallyNone(es: seq<Event>)
    ensures Tallied([], es, {})
  {
    forall c: int ensures |Recent([], c)| == |Within(es, {}, c)| {
      assert Within(es, {}, c) == {};
    }
  }

  // What is remembered of an address are its unused failures.
  lemma {:induction false} RemembersUnused(jails: seq<Jail>, es: seq<Event>, i: nat, ip: Ip, n: nat)
    requires ValidRun(jails, es) && i < |jails| && n <= |es|
    ensures Tallied(Past(Remembered(jails, es[..n]), Key(jails[i].name, ip)), es, Unused(jails, es, i, ip, n))
    decreases n
  {
    hide Recent, Within, Tallied, Past, FailsAt, Unused, Banned, NaiveObserve;
    if n == 0 {
      TallyNone(es);
      NothingYet(jails, es, i, ip);
    } else {
      RemembersUnused(jails, es, i, ip, n - 1);
      assert es[..n][..n - 1] == es[..n - 1];
      EventTally(jails, es, i, ip, n - 1);
    }
  }

  lemma NothingYet(jails: seq<Jail>, es: seq<Event>, i: nat, ip: Ip)
    requires ValidRun(jails, es) && i < |jails|
    ensures Unused(jails, es, i, ip, 0) == {} && Past(map[], Key(jails[i].name, ip)) == []
  {
  }

  lemma UnusedBefore(jails: seq<Jail>, es: seq<Event>, i: nat, ip: Ip, n: nat)
    requires ValidRun(jails, es) && i < |jails| && n <= |es|
    ensures forall m :: m in Unused(jails, es, i, ip, n) ==> m < n
  {
  }

  // One event: the jail bans exactly when the tally says so.
  lemma StepBans(jails: seq<Jail>, es: seq<Event>, i: nat, ip: Ip, n: nat, past: seq<int>)
    requires ValidRun(jails, es) && i < |jails| && n < |es| && Tallied(past, es, Unused(jails, es, i, ip, n))
    ensures JailStep(past, jails[i], FailsAt(jails, es, i, ip, n), es[n].now).1 <==> Banned(jails, es, i, ip, n)
    ensures Tallied(JailStep(past, jails[i], FailsAt(jails, es, i, ip, n), es[n].now).0, es,
                    Unused(jails, es, i, ip, n + 1))
  {
    hide Recent, Within, FailsAt, Unused, NoBan;
    UnusedNext(jails, es, i, ip, n);
    UnusedBefore(jails, es, i, ip, n);
    TallyNext(past, es, Unused(jails, es, i, ip, n), n);
    TallyNone(es);
  }

  lemma EventTally(jails: seq<Jail>, es: seq<Event>, i: nat, ip: Ip, n: nat)
    requires ValidRun(jails, es) && i < |jails| && n < |es|
    requires Tallied(Past(Remembered(jails, es[..n]), Key(jails[i].name, ip)), es, Unused(jails, es, i, ip, n))
    ensures var r := NaiveObserve(Remembered(jails, es[..n]), jails, es[n].identifier, es[n].hits, es[n].now);
            Tallied(Past(r.0, Key(jails[i].name, ip)), es, Unused(jails, es, i, ip, n + 1))
  {
    hide Recent, Within, Tallied, Past, Unused, Banned, NaiveObserve, Remembered, Failure, JailStep, Counted;
    var h := Remembered(jails, es[..n]);
    var past := Past(h, Key(jails[i].name, ip));
    CountedMeans(jails[i], es[n], i, ip);
    ObserveEach(h, jails, es[n], |jails|, i, ip);
    assert jails[..|jails|] == jails && es[n].hits[..|jails|] == es[n].hits;
    StepBans(jails, es, i, ip, n, past);
  }

  // Over every run: the bans at an event are those of the jails in which it
  // is the failure that uses up the retries, until the ban time has passed.
  lemma {:induction false} BansMean(jails: seq<Jail>, es: seq<Event>, n: nat, b: Ban)
    requires ValidRun(jails, es) && n < |es|
    ensures b in BansAt(jails, es, n) <==>
            exists i: nat :: && i < |jails| && Banned(jails, es, i, b.ip, n)
                             && b == Ban(b.ip, jails[i].name, (es[n].now + jails[i].banTime) / SECOND)
  {
    hide Recent, Within, Tallied, Past, Unused, Banned, NaiveObserve, Remembered, Failure, JailStep, Counted;
    var h := Remembered(jails, es[..n]);
    assert jails[..|jails|] == jails && es[n].hits[..|jails|] == es[n].hits;
    forall i: nat | i < |jails|
      ensures JailStep(Past(h, Key(jails[i].name, b.ip)), jails[i], FailsAt(jails, es, i, b.ip, n), es[n].now).1
              <==> Banned(jails, es, i, b.ip, n)
    {
      RemembersUnused(jails, es, i, b.ip, n);
      StepBans(jails, es, i, b.ip, n, Past(h, Key(jails[i].name, b.ip)));
    }
    if i: nat :| && i < |jails| && Banned(jails, es, i, b.ip, n)
                 && b == Ban(b.ip, jails[i].name, (es[n].now + jails[i].banTime) / SECOND) {
      CountedMeans(jails[i], es[n], i, b.ip);
      ObserveEach(h, jails, es[n], |jails|, i, b.ip);
    }
    if b in BansAt(jails, es, n) {
      var i := BansFrom(h, jails, es[n], |jails|, b);
      CountedMeans(jails[i], es[n], i, b.ip);
    }
  }
}
