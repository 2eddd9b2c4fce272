/** The failure detector: sliding windows per jail and address, pruned in the
    background, against one that forgets nothing. */
module FailureDetector {
  import opened Bytes
  import opened AddressSets
  import opened Outcomes

  type Ip = seq<byte>

  // A validated jail; times are in nanoseconds.
  datatype Jail = Jail(name: string, identifiers: set<string>, maxRetries: nat, findTime: nat, banTime: nat,
      ignoreIPs: seq<Net>)

  datatype Key = Key(jail: string, ip: Ip)

  datatype Ban = Ban(ip: Ip, jail: string, expiresAt: int)

  const SECOND: int := 1_000_000_000
  const MINUTE: int := 60 * SECOND

  // The validated configuration.
  ghost predicate ValidJails(jails: seq<Jail>)
  {
    && (forall i :: 0 <= i < |jails| ==> jails[i].maxRetries >= 1)
    && forall i, j :: 0 <= i < j < |jails| ==> jails[i].name != jails[j].name
  }

  predicate Ignored(ip: Ip, nets: seq<Net>)
  {
    exists i :: 0 <= i < |nets| && |nets[i].addr| == |ip|
                && Mask(ip, CidrMask(nets[i].bits, |ip|)) == Mask(nets[i].addr, CidrMask(nets[i].bits, |ip|))
  }

  // The address an event counts against a jail: hit is what the jail's
  // patterns find in the message.
  function Counted(jail: Jail, identifier: string, hit: Option<Ip>): Option<Ip>
  {
    if identifier in jail.identifiers && hit.Some? && !Ignored(hit.value, jail.ignoreIPs) then hit else None
  }

  // The failures not before a cutoff.
  function Recent(times: seq<int>, cutoff: int): (r: seq<int>)
    ensures |r| <= |times|
  {
    if times == [] then []
    else
      var init, at := Recent(times[..|times| - 1], cutoff), times[|times| - 1];
      if at >= cutoff then init + [at] else init
  }

  // ---- the naive detector ----

  // Every failure since the last ban of the same key.
  type History = map<Key, seq<int>>

  function Past(h: History, k: Key): seq<int>
  {
    if k in h then h[k] else []
  }

  // A jail bans an address when at least maxRetries failures since its last
  // ban, this one included, lie in the closed find-time window.
  function NaiveJail(h: History, jail: Jail, identifier: string, hit: Option<Ip>, now: int): (History, seq<Ban>)
  {
    var ip := Counted(jail, identifier, hit);
    if ip.None? then (h, [])
    else
      var k := Key(jail.name, ip.value);
      var all := Past(h, k) + [now];
      if |Recent(all, now - jail.findTime)| < jail.maxRetries then (h[k := all], [])
      else (h[k := []], [Ban(ip.value, jail.name, (now + jail.banTime) / SECOND)])
  }

  function NaiveObserve(h: History, jails: seq<Jail>, identifier: string, hits: seq<Option<Ip>>, now: int): (History,
      seq<Ban>)
    requires |hits| == |jails|
  {
    if jails == [] then (h, [])
    else
      var n := |jails| - 1;
      var init := NaiveObserve(h, jails[..n], identifier, hits[..n], now);
      var last := NaiveJail(init.0, jails[n], identifier, hits[n], now);
      (last.0, init.1 + last.1)
  }

  // ---- windows ----

  lemma {:induction false} RecentTwice(times: seq<int>, c: int, d: int)
    requires c <= d
    ensures Recent(Recent(times, c), d) == Recent(times, d)
  {
    if times != [] {
      var n := |times| - 1;
      RecentTwice(times[..n], c, d);
      if times[n] >= c {
        assert (Recent(times[..n], c) + [times[n]])[..|Recent(times[..n], c)|] == Recent(times[..n], c);
      }
    }
  }

  lemma RecentSnoc(times: seq<int>, at: int, c: int)
    ensures Recent(times + [at], c) == if at >= c then Recent(times, c) + [at] else Recent(times, c)
  {
    assert (times + [at])[..|times|] == times;
  }

  predicate Sorted(times: seq<int>)
  {
    forall i, j :: 0 <= i < j < |times| ==> times[i] <= times[j]
  }

  lemma {:induction false} RecentSorted(times: seq<int>, c: int, bound: int)
    requires Sorted(times) && forall i :: 0 <= i < |times| ==> times[i] <= bound
    ensures Sorted(Recent(times, c)) && forall i :: 0 <= i < |Recent(times, c)| ==> Recent(times, c)[i] <= bound
    ensures times != [] ==> (forall i :: 0 <= i < |Recent(times, c)| ==> Recent(times, c)[i] <= times[|times| - 1])
  {
    if times != [] {
      var n := |times| - 1;
      RecentSorted(times[..n], c, times[n]);
    }
  }

  // A stored window: sorted, not empty, not in the future, and shorter than
  // the number of retries.
  ghost predicate Window(times: seq<int>, jail: Jail, clock: int)
  {
    times != [] && Sorted(times) && |times| < jail.maxRetries && times[|times| - 1] <= clock
  }

  // From now on the stored failures and the full history look the same.
  ghost predicate LooksLike(times: seq<int>, past: seq<int>, jail: Jail, clock: int)
  {
    forall t {:trigger Recent(times, t)} :: t >= clock - jail.findTime ==> Recent(times, t) == Recent(past, t)
  }

  function StoredAt(failures: map<Key, seq<int>>, k: Key): seq<int>
  {
    if k in failures then failures[k] else []
  }

  ghost predicate JailRefines(failures: map<Key, seq<int>>, h: History, jail: Jail, clock: int)
  {
    forall ip :: var k := Key(jail.name, ip);
                 && LooksLike(StoredAt(failures, k), Past(h, k), jail, clock)
                 && (k in failures ==> Window(failures[k], jail, clock))
  }

  ghost predicate Refines(failures: map<Key, seq<int>>, h: History, jails: seq<Jail>, clock: int)
  {
    && (forall i :: 0 <= i < |jails| ==> JailRefines(failures, h, jails[i], clock))
    && forall k :: k in failures ==> exists i :: 0 <= i < |jails| && jails[i].name == k.jail
  }

  lemma LaterWindow(times: seq<int>, past: seq<int>, jail: Jail, clock: int, now: int)
    requires clock <= now && LooksLike(times, past, jail, clock)
    ensures LooksLike(times, past, jail, now)
  {
  }

  // Dropping failures before the current cutoff is not observable.
  lemma PruneUnseen(times: seq<int>, past: seq<int>, jail: Jail, now: int)
    requires LooksLike(times, past, jail, now)
    ensures LooksLike(Recent(times, now - jail.findTime), past, jail, now)
  {
    var c := now - jail.findTime;
    forall t | t >= c ensures Recent(Recent(times, c), t) == Recent(past, t) {
      RecentTwice(times, c, t);
    }
  }

  lemma AddBoth(times: seq<int>, past: seq<int>, jail: Jail, now: int)
    requires LooksLike(times, past, jail, now)
    ensures LooksLike(times + [now], past + [now], jail, now)
    ensures Recent(times + [now], now - jail.findTime) == Recent(past + [now], now - jail.findTime)
  {
    forall t | t >= now - jail.findTime ensures Recent(times + [now], t) == Recent(past + [now], t) {
      RecentSnoc(times, now, t);
      RecentSnoc(past, now, t);
    }
  }

  lemma {:induction false} RecentAll(times: seq<int>, c: int)
    requires forall i :: 0 <= i < |times| ==> times[i] >= c
    ensures Recent(times, c) == times
  {
    if times != [] { RecentAll(times[..|times| - 1], c); }
  }

  lemma {:induction false} RecentBounds(times: seq<int>, c: int)
    ensures forall i :: 0 <= i < |Recent(times, c)| ==> Recent(times, c)[i] >= c
  {
    if times != [] { RecentBounds(times[..|times| - 1], c); }
  }

  // ---- the detector ----

  class Detector {
    const jails: seq<Jail>
    var failures: map<Key, seq<int>>
    var nextPrune: Option<int>
    // What the naive detector remembers, and the latest time seen.
    ghost var history: History
    ghost var clock: Option<int>

    ghost predicate Valid()
      reads this
    {
      && ValidJails(jails)
      && (clock.None? ==> failures == map[] && history == map[])
      && (clock.Some? ==> Refines(failures, history, jails, clock.value))
    }

    constructor (jails: seq<Jail>)
      requires ValidJails(jails)
      ensures Valid() && this.jails == jails && history == map[] && clock == None
    {
      this.jails, failures, nextPrune := jails, map[], None;
      history, clock := map[], None;
    }

    // In-place filtering of one window.
    static method KeepRecent(times: seq<int>, cutoff: int) returns (kept: seq<int>)
      ensures kept == Recent(times, cutoff)
    {
      kept := [];
      for i := 0 to |times|
        invariant kept == Recent(times[..i], cutoff)
      {
        assert times[..i + 1][..i] == times[..i];
        if !(times[i] < cutoff) { kept := kept + [times[i]]; }
      }
      assert times[..|times|] == times;
    }

    method FindTimes() returns (m: map<string, nat>)
      requires ValidJails(jails)
      ensures forall i :: 0 <= i < |jails| ==> jails[i].name in m && m[jails[i].name] == jails[i].findTime
    {
      m := map[];
      for i := 0 to |jails|
        invariant forall k :: 0 <= k < i ==> jails[k].name in m && m[jails[k].name] == jails[k].findTime
      {
        m := m[jails[i].name := jails[i].findTime];
      }
    }

    // Background pruning, at most once a minute: nothing an observer can see.
    method Prune(now: int)
      requires ValidJails(jails) && Refines(failures, history, jails, now)
      modifies this`failures, this`nextPrune
      ensures Refines(failures, history, jails, now)
    {
      hide JailRefines, Refines, Recent, StoredAt, Past;
      if nextPrune.Some? && now < nextPrune.value { return; }
      var findTimes := FindTimes();
      var keys := failures.Keys;
      while keys != {}
        invariant keys <= failures.Keys
        invariant Refines(failures, history, jails, now)
        invariant forall i ::
                  0 <= i < |jails| ==> jails[i].name in findTimes && findTimes[jails[i].name] == jails[i].findTime
        decreases |keys|
      {
        var key :| key in keys;
        ghost var i := KeyJail(failures, history, jails, now, key);
        var kept := KeepRecent(failures[key], now - findTimes[key.jail]);
        PruneKey(failures, history, jails, now, key, i);
        if |kept| == 0 {
          failures := failures - {key};
        } else {
          failures := failures[key := kept];
        }
        keys := keys - {key};
      }
      nextPrune := Some(now + MINUTE);
    }

    // One jail sees one event.
    method CountHit(i: nat, identifier: string, hit: Option<Ip>, now: int) returns (bans: seq<Ban>)
      requires ValidJails(jails) && i < |jails| && Refines(failures, history, jails, now)
      modifies this`failures, this`history
      ensures Refines(failures, history, jails, now)
      ensures (history, bans) == NaiveJail(old(history), jails[i], identifier, hit, now)
    {
      hide NaiveJail, Refines;
      var jail := jails[i];
      ghost var h := history;
      history := NaiveJail(h, jail, identifier, hit, now).0;
      if identifier !in jail.identifiers || hit.None? || Ignored(hit.value, jail.ignoreIPs) {
        NotCounted(h, jail, identifier, hit, now);
        return [];
      }
      var key := Key(jail.name, hit.value);
      var window := KeepRecent(StoredAt(failures, key), now - jail.findTime);
      window := window + [now];
      CountOne(failures, h, jails, i, identifier, hit, now);
      if |window| < jail.maxRetries {
        failures := failures[key := window];
        return [];
      }
      failures := failures - {key};
      return [Ban(hit.value, jail.name, (now + jail.banTime) / SECOND)];
    }

    // One event: it returns exactly the bans of the naive detector.
    method Observe(identifier: string, hits: seq<Option<Ip>>, now: int) returns (bans: seq<Ban>)
      requires Valid() && |hits| == |jails| && (clock.Some? ==> clock.value <= now)
      modifies this
      ensures Valid() && clock == Some(now)
      ensures (history, bans) == NaiveObserve(old(history), jails, identifier, hits, now)
    {
      hide NaiveJail, Refines;
      Elapse(failures, history, jails, clock, now);
      clock := Some(now);
      Prune(now);
      bans := [];
      assert jails[..0] == [] && hits[..0] == [];
      for i := 0 to |jails|
        invariant Valid() && clock == Some(now)
                  && (history, bans) == NaiveObserve(old(history), jails[..i], identifier, hits[..i], now)
      {
        assert jails[..i + 1][..i] == jails[..i] && hits[..i + 1][..i] == hits[..i];
        var more := CountHit(i, identifier, hits[i], now);
        bans := bans + more;
      }
      assert jails[..|jails|] == jails && hits[..|hits|] == hits;
    }
  }

  lemma NotCounted(h: History, jail: Jail, identifier: string, hit: Option<Ip>, now: int)
    requires Counted(jail, identifier, hit).None?
    ensures NaiveJail(h, jail, identifier, hit, now) == (h, [])
  {
  }

  lemma Elapse(failures: map<Key, seq<int>>, h: History, jails: seq<Jail>, clock: Option<int>, now: int)
    requires clock.None? ==> failures == map[] && h == map[]
    requires clock.Some? ==> clock.value <= now && Refines(failures, h, jails, clock.value)
    ensures Refines(failures, h, jails, now)
  {
    hide LooksLike;
    forall i | 0 <= i < |jails| ensures JailRefines(failures, h, jails[i], now) {
      forall ip ensures var k := Key(jails[i].name, ip);
                        && LooksLike(StoredAt(failures, k), Past(h, k), jails[i], now)
                        && (k in failures ==> Window(failures[k], jails[i], now)) {
        var k := Key(jails[i].name, ip);
        if clock.Some? {
          assert JailRefines(failures, h, jails[i], clock.value);
          LaterWindow(StoredAt(failures, k), Past(h, k), jails[i], clock.value, now);
        } else {
          NothingLooks(jails[i], now);
        }
      }
    }
  }

  lemma NothingLooks(jail: Jail, now: int)
    ensures LooksLike([], [], jail, now)
  {
  }

  lemma KeyJail(failures: map<Key, seq<int>>, h: History, jails: seq<Jail>, now: int, key: Key) returns (i: nat)
    requires Refines(failures, h, jails, now) && key in failures
    ensures i < |jails| && jails[i].name == key.jail
  {
    i :| 0 <= i < |jails| && jails[i].name == key.jail;
  }

  // Another value at one key of jail i keeps all other jails.
  lemma OneKey(failures: map<Key, seq<int>>, h: History, failures': map<Key, seq<int>>, h': History, jails: seq<Jail>,
      i: nat, key: Key, now: int)
    requires ValidJails(jails) && Refines(failures, h, jails, now) && i < |jails| && jails[i].name == key.jail
    requires forall k :: k != key ==> StoredAt(failures', k) == StoredAt(failures, k) && Past(h', k) == Past(h, k)
                                      && (k in failures' <==> k in failures)
    requires LooksLike(StoredAt(failures', key), Past(h', key), jails[i], now)
    requires key in failures' ==> Window(failures'[key], jails[i], now)
    ensures Refines(failures', h', jails, now)
  {
    hide LooksLike, Window;
    forall j | 0 <= j < |jails| ensures JailRefines(failures', h', jails[j], now) {
      assert JailRefines(failures, h, jails[j], now);
      forall ip ensures var k := Key(jails[j].name, ip);
                        && LooksLike(StoredAt(failures', k), Past(h', k), jails[j], now)
                        && (k in failures' ==> Window(failures'[k], jails[j], now)) {
        var k := Key(jails[j].name, ip);
        if k == key { SameJail(jails, i, j); } else { assert k in failures' ==> failures'[k] == failures[k]; }
      }
    }
  }

  lemma SameJail(jails: seq<Jail>, i: nat, j: nat)
    requires ValidJails(jails) && i < |jails| && j < |jails| && jails[i].name == jails[j].name
    ensures i == j
  {
  }

  lemma PruneKey(failures: map<Key, seq<int>>, h: History, jails: seq<Jail>, now: int, key: Key, i: nat)
    requires ValidJails(jails) && Refines(failures, h, jails, now) && key in failures && i < |jails|
             && jails[i].name == key.jail
    ensures var kept := Recent(failures[key], now - jails[i].findTime);
            Refines(if kept == [] then failures - {key} else failures[key := kept], h, jails, now)
  {
    hide LooksLike, Refines, Past, StoredAt;
    var jail, kept := jails[i], Recent(failures[key], now - jails[i].findTime);
    var failures' := if kept == [] then failures - {key} else failures[key := kept];
    KeyRefines(failures, h, jails, now, key, i);
    PruneUnseen(failures[key], Past(h, key), jail, now);
    RecentSorted(failures[key], now - jail.findTime, now);
    StoredOne(failures, failures', key);
    OneKey(failures, h, failures', h, jails, i, key, now);
  }

  lemma StoredOne(failures: map<Key, seq<int>>, failures': map<Key, seq<int>>, key: Key)
    requires failures' == failures - {key} || (key in failures' && failures' == failures[key := failures'[key]])
    ensures forall k ::
            k != key ==> StoredAt(failures', k) == StoredAt(failures, k) && (k in failures' <==> k in failures)
    ensures StoredAt(failures', key) == if key in failures' then failures'[key] else []
  {
  }

  lemma KeyRefines(failures: map<Key, seq<int>>, h: History, jails: seq<Jail>, now: int, key: Key, i: nat)
    requires Refines(failures, h, jails, now) && i < |jails| && jails[i].name == key.jail
    ensures LooksLike(StoredAt(failures, key), Past(h, key), jails[i], now)
    ensures key in failures ==> StoredAt(failures, key) == failures[key] && Window(failures[key], jails[i], now)
    ensures key in failures ==>
            Sorted(failures[key]) && forall j :: 0 <= j < |failures[key]| ==> failures[key][j] <= now
  {
    hide LooksLike;
    assert JailRefines(failures, h, jails[i], now);
    assert key == Key(jails[i].name, key.ip);
  }

  // Counting a failure: the window stays below the limit and is stored, or
  // it reaches the limit, and then so does the history.
  lemma {:induction false} CountOne(failures: map<Key, seq<int>>, h: History, jails: seq<Jail>, i: nat,
      identifier: string, hit: Option<Ip>, now: int)
    requires ValidJails(jails) && Refines(failures, h, jails, now) && i < |jails|
    requires hit.Some? && Counted(jails[i], identifier, hit) == hit
    ensures var jail, key := jails[i], Key(jails[i].name, hit.value);
            var window := Recent(StoredAt(failures, key), now - jail.findTime) + [now];
            var naive := NaiveJail(h, jail, identifier, hit, now);
            if |window| < jail.maxRetries then naive.1 == [] && Refines(failures[key := window], naive.0, jails, now)
            else
              && naive.1 == [Ban(hit.value, jail.name, (now + jail.banTime) / SECOND)]
              && Refines(failures - {key}, naive.0, jails, now)
  {
    hide LooksLike, Refines, Past, StoredAt, Counted, NaiveJail, Recent, Window;
    var jail, key := jails[i], Key(jails[i].name, hit.value);
    var stored, past := StoredAt(failures, key), Past(h, key);
    var c := now - jail.findTime;
    var window, naive := Recent(stored, c) + [now], NaiveJail(h, jail, identifier, hit, now);
    KeyRefines(failures, h, jails, now, key, i);
    PruneUnseen(stored, past, jail, now);
    AddBoth(Recent(stored, c), past, jail, now);
    RecentBounds(stored, c);
    RecentAll(window, c);
    NothingLooks(jail, now);
    StoredSorted(failures, key, now);
    RecentSorted(stored, c, now);
    PastOne(h, key, past + [now]);
    PastOne(h, key, []);
    NaiveCounts(h, jail, identifier, hit, now);
    if |window| < jail.maxRetries {
      NewWindow(Recent(stored, c), jail, now);
      StoredOne(failures, failures[key := window], key);
      OneKey(failures, h, failures[key := window], naive.0, jails, i, key, now);
    } else {
      StoredOne(failures, failures - {key}, key);
      OneKey(failures, h, failures - {key}, naive.0, jails, i, key, now);
    }
  }

  lemma NewWindow(kept: seq<int>, jail: Jail, now: int)
    requires Sorted(kept) && (forall i :: 0 <= i < |kept| ==> kept[i] <= now) && |kept| + 1 < jail.maxRetries
    ensures Window(kept + [now], jail, now)
  {
  }

  // What the naive detector does with a counted failure.
  lemma NaiveCounts(h: History, jail: Jail, identifier: string, hit: Option<Ip>, now: int)
    requires hit.Some? && Counted(jail, identifier, hit) == hit
    ensures var k := Key(jail.name, hit.value);
            var all := Past(h, k) + [now];
            NaiveJail(h, jail, identifier, hit, now) ==
            if |Recent(all, now - jail.findTime)| < jail.maxRetries then (h[k := all], [])
            else (h[k := []], [Ban(hit.value, jail.name, (now + jail.banTime) / SECOND)])
  {
    hide Counted, Recent, Past;
  }

  lemma StoredSorted(failures: map<Key, seq<int>>, key: Key, now: int)
    requires key in failures ==>
             Sorted(failures[key]) && forall j :: 0 <= j < |failures[key]| ==> failures[key][j] <= now
    ensures Sorted(StoredAt(failures, key)) && forall j ::
            0 <= j < |StoredAt(failures, key)| ==> StoredAt(failures, key)[j] <= now
  {
  }

  lemma PastOne(h: History, key: Key, times: seq<int>)
    ensures Past(h[key := times], key) == times && forall k :: k != key ==> Past(h[key := times], k) == Past(h, k)
  {
  }
}
