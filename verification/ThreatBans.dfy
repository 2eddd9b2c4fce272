/** Temporary bans: canonical addresses, and applying a batch of additions
    and deletions to the stored list. */
module ThreatBans {
  import opened Bytes
  import opened AddressSets
  import opened Outcomes
  import opened Rules
  import opened Prefixes

  // ---- canonical addresses ----

  // ::ffff:0:0/96, section 2.5.5.2 of RFC 4291.
  const V4_IN_6: seq<byte> := [0, 0, 0, 0, 0, 0, 0, 0, 0, 0, 255, 255]

  predicate Is4In6(a: seq<byte>) { |a| == 16 && a[..12] == V4_IN_6 }

  function Unmap(a: seq<byte>): seq<byte> { if Is4In6(a) then a[12..] else a }

  function Masked(net: Net): Net { Net(net.First(), net.bits) }

  // canonicalBanAddress on parsed text; zones are already gone.
  function CanonicalBanAddress(raw: Addr): Result<Addr>
  {
    match raw
    case Cidr(net) =>
      var m := Masked(net);
      if !Is4In6(m.addr) then Ok(Cidr(m))
      else if m.bits < 96 then Err
      else Ok(Cidr(Masked(Net(m.addr[12..], m.bits - 96))))
    case Host(b) => Ok(Host(Unmap(b)))
    case _ => Err
  }

  // A prefix shorter than /96 cannot be IPv4-mapped once it is masked.
  lemma MaskedMapped(net: Net)
    requires net.Valid() && Is4In6(net.First())
    ensures net.bits >= 96
  {
    if net.bits < 96 {
      var k := ClampBits(net.bits, 11);
      assert net.First()[11] == And8(net.addr[11], MaskByte(k));
      assert V4_IN_6[11] == net.First()[..12][11];
      And8Leading(net.addr[11], k);
      EvenAfterMask(net.addr[11], k);
    }
  }

  lemma EvenAfterMask(x: byte, k: nat)
    requires k <= 7
    ensures RoundDown(x, Pow2(8 - k)) % 2 == 0
  {
    hide RoundDown;
    var s, y := Pow2(7 - k), RoundDown(x, Pow2(8 - k));
    assert Pow2(8 - k) == 2 * s;
    RoundedMod(x, Pow2(8 - k));
    EvenMultiple(y, s);
  }

  lemma EvenMultiple(y: nat, s: nat)
    requires s > 0 && y % (2 * s) == 0
    ensures y % 2 == 0
  {
    var q := y / (2 * s);
    DivModIdentity(y, 2 * s);
    assert y == q * (2 * s) == 2 * (q * s);
  }

  // Every host and every prefix has a canonical form: the error for
  // prefixes broader than IPv4 is never taken.
  lemma {:induction false} CanonicalFails(raw: Addr)
    requires raw.Valid()
    ensures CanonicalBanAddress(raw).Err? <==> !raw.Host? && !raw.Cidr?
    ensures CanonicalBanAddress(raw).Ok? ==> CanonicalBanAddress(raw).value.Valid()
  {
    hide Mask, CidrMask, Is4In6;
    if raw.Cidr? && Is4In6(raw.net.First()) {
      MaskedMapped(raw.net);
      MappedLength(raw.net.First());
    }
    if raw.Host? { MappedLength(raw.host); }
  }

  lemma MappedLength(a: seq<byte>)
    ensures Is4In6(a) ==> |a| == 16 && |a[12..]| == 4 && a == V4_IN_6 + a[12..]
  {
    if Is4In6(a) { assert a == a[..12] + a[12..]; }
  }

  lemma MaskedTwice(net: Net)
    requires net.Valid()
    ensures Masked(net).Valid() && Masked(Masked(net)) == Masked(net)
  {
    MaskIdempotent(net.addr, net.bits);
  }

  lemma {:induction false} CanonicalIdempotent(raw: Addr)
    requires raw.Valid() && CanonicalBanAddress(raw).Ok?
    ensures CanonicalBanAddress(CanonicalBanAddress(raw).value) == CanonicalBanAddress(raw)
  {
    hide Mask, CidrMask, Masked;
    if raw.Cidr? {
      var m := Masked(raw.net);
      MaskedTwice(raw.net);
      if Is4In6(m.addr) { MaskedTwice(Net(m.addr[12..], m.bits - 96)); MaskedWidth(Net(m.addr[12..], m.bits - 96)); }
    }
  }

  lemma MaskedWidth(net: Net)
    ensures |Masked(net).addr| == |net.addr| && Masked(net).bits == net.bits
  {
  }

  // The canonical form means the same addresses; an IPv4-mapped form means
  // the IPv4 addresses it maps.
  lemma {:induction false} CanonicalMeaning(raw: Addr, x: seq<byte>)
    requires raw.Valid() && CanonicalBanAddress(raw).Ok? && CanonicalBanAddress(raw).value.Valid()
    ensures var a, mapped := CanonicalBanAddress(raw).value,
                             Is4In6(if raw.Host? then raw.host else raw.net.First());
            if mapped then |x| == 4 ==> (a.Contains(x) <==> raw.Contains(V4_IN_6 + x))
            else a.Contains(x) <==> raw.Contains(x)
  {
    hide Mask, CidrMask, SamePrefix, Is4In6;
    match raw {
      case Host(b) =>
        MappedLength(b);
        if Is4In6(b) && V4_IN_6 + x == b { assert b[12..] == x; }
      case Cidr(net) =>
        NetMeans(net, x);
        if Is4In6(net.First()) && |x| == 4 {
          MaskedMapped(net);
          MappedLength(net.First());
          NetMeans(net, V4_IN_6 + x);
          NetMeans(Net(net.First()[12..], net.bits - 96), x);
          MappedPrefix(net.First(), x, net.bits);
        }
      case _ =>
    }
  }

  // Past the mapped part only the last four bytes decide.
  lemma MappedPrefix(a: seq<byte>, x: seq<byte>, p: nat)
    requires |a| == 16 && a == V4_IN_6 + a[12..] && |x| == 4 && 96 <= p <= 128
    ensures SamePrefix(V4_IN_6 + x, a, p) <==> SamePrefix(x, a[12..], p - 96)
  {
    hide SamePrefix, And8;
    var y := V4_IN_6 + x;
    MaskEqIsSamePrefix(y, a, p);
    MaskEqIsSamePrefix(x, a[12..], p - 96);
    var m, m4 := CidrMask(p, 16), CidrMask(p - 96, 4);
    assert forall i :: 0 <= i < 12 ==> y[i] == V4_IN_6[i] == a[i];
    assert forall i :: 0 <= i < 4 ==> y[12 + i] == x[i] && a[12 + i] == a[12..][i] && m[12 + i] == m4[i];
    if Mask(x, m4) == Mask(a[12..], m4) {
      forall i | 0 <= i < 16 ensures Mask(y, m)[i] == Mask(a, m)[i] {
        if i >= 12 { assert Mask(x, m4)[i - 12] == Mask(a[12..], m4)[i - 12]; }
      }
    }
    if Mask(y, m) == Mask(a, m) {
      forall i | 0 <= i < 4 ensures Mask(x, m4)[i] == Mask(a[12..], m4)[i] {
        assert Mask(y, m)[12 + i] == Mask(a, m)[12 + i];
      }
    }
  }

  // ---- bans ----

  datatype Source = CrowdSec | Ssh(jail: string) | OtherSource(word: string)

  datatype ThreatBan = ThreatBan(address: Addr, source: Source, reason: string, decisionID: int, expiresAt: int)
  {
    predicate Local() { source != CrowdSec }
  }

  datatype Update = Update(snapshot: bool, add: seq<ThreatBan>, deleteIDs: seq<int>)

  // What a ban is identified by.
  datatype Ident = DecisionIdent(id: int) | LocalIdent(source: Source, address: Addr)

  function IdentOf(b: ThreatBan): Ident
  {
    if b.source == CrowdSec then DecisionIdent(b.decisionID) else LocalIdent(b.source, b.address)
  }

  ghost predicate Unique(bans: seq<ThreatBan>)
  {
    forall i, j :: 0 <= i < j < |bans| ==> IdentOf(bans[i]) != IdentOf(bans[j])
  }

  // The checks on one addition; the address becomes canonical.
  function Admit(ban: ThreatBan, now: int): Result<ThreatBan>
  {
    if ban.expiresAt <= now then Err
    else
      var a := CanonicalBanAddress(ban.address);
      if a.Err? then Err
      else if ban.source == CrowdSec && ban.decisionID <= 0 then Err
      else if ban.source != CrowdSec && (!ban.source.Ssh? || ban.source.jail == "" || ban.decisionID != 0) then Err
      else Ok(ban.(address := a.value))
  }

  // Replaces the ban of the same identity, or appends.
  function Upsert(bans: seq<ThreatBan>, ban: ThreatBan): seq<ThreatBan>
  {
    if bans == [] then [ban]
    else if IdentOf(bans[0]) == IdentOf(ban) then [ban] + bans[1..]
    else [bans[0]] + Upsert(bans[1..], ban)
  }

  function AddAll(bans: seq<ThreatBan>, adds: seq<ThreatBan>, now: int): Result<seq<ThreatBan>>
  {
    if adds == [] then Ok(bans)
    else
      var init := AddAll(bans, adds[..|adds| - 1], now);
      if init.Err? then Err
      else
        var b := Admit(adds[|adds| - 1], now);
        if b.Err? then Err else Ok(Upsert(init.value, b.value))
  }

  function Locals(bans: seq<ThreatBan>): (r: seq<ThreatBan>)
    ensures forall b :: b in r <==> b in bans && b.Local()
  {
    if bans == [] then []
    else
      var init, b := Locals(bans[..|bans| - 1]), bans[|bans| - 1];
      if b.Local() then init + [b] else init
  }

  function WithoutDecisions(bans: seq<ThreatBan>, ids: set<int>): (r: seq<ThreatBan>)
    ensures forall b :: b in r <==> b in bans && (b.Local() || b.decisionID !in ids)
  {
    if bans == [] then []
    else
      var init, b := WithoutDecisions(bans[..|bans| - 1], ids), bans[|bans| - 1];
      if b.Local() || b.decisionID !in ids then init + [b] else init
  }

  function IdSet(ids: seq<int>): (s: set<int>)
    ensures forall i :: i in s <==> i in ids
  {
    set i | i in ids
  }

  predicate Positive(ids: seq<int>)
  {
    forall i :: 0 <= i < |ids| ==> ids[i] > 0
  }

  // The list after a batch, or an error.
  function ApplyUpdate(bans: seq<ThreatBan>, u: Update, now: int): Result<seq<ThreatBan>>
  {
    var added := AddAll(if u.snapshot then Locals(bans) else bans, u.add, now);
    if added.Err? then Err
    else if u.snapshot || u.deleteIDs == [] then added
    else if !Positive(u.deleteIDs) then Err
    else Ok(WithoutDecisions(added.value, IdSet(u.deleteIDs)))
  }

  // ---- the stored list ----

  class BanStore {
    var bans: seq<ThreatBan>

    constructor (initial: seq<ThreatBan>)
      ensures bans == initial
    {
      bans := initial;
    }

    // applyThreatUpdateToState: edits a copy and stores it only when every
    // check passed; the result tells whether anything changed.
    method ApplyThreatUpdate(u: Update, now: int) returns (r: Result<bool>)
      modifies this`bans
      ensures r.Ok? <==> ApplyUpdate(old(bans), u, now).Ok?
      ensures r.Err? ==> bans == old(bans)
      ensures r.Ok? ==> bans == ApplyUpdate(old(bans), u, now).value && r.value == (bans != old(bans))
    {
      hide Admit, Upsert;
      var list := bans;
      if u.snapshot {
        list := KeepLocals(list);
      }
      ghost var base := list;
      for i := 0 to |u.add|
        invariant bans == old(bans) && AddAll(base, u.add[..i], now) == Ok(list)
      {
        assert u.add[..i + 1][..i] == u.add[..i];
        var b := Admit(u.add[i], now);
        if b.Err? {
          AddFails(base, u.add, i, now);
          return Err;
        }
        list := InsertBan(list, b.value);
      }
      assert u.add[..|u.add|] == u.add;
      if !u.snapshot && |u.deleteIDs| > 0 {
        var deleted: set<int> := {};
        for i := 0 to |u.deleteIDs|
          invariant bans == old(bans) && forall k :: 0 <= k < i ==> u.deleteIDs[k] > 0
          invariant deleted == IdSet(u.deleteIDs[..i])
        {
          if u.deleteIDs[i] <= 0 { return Err; }
          deleted := deleted + {u.deleteIDs[i]};
        }
        assert u.deleteIDs[..|u.deleteIDs|] == u.deleteIDs;
        list := DropDecisions(list, deleted);
      }
      var same := SameThreatBans(bans, list);
      if same { return Ok(false); }
      bans := list;
      return Ok(true);
    }

    static method KeepLocals(bans: seq<ThreatBan>) returns (kept: seq<ThreatBan>)
      ensures kept == Locals(bans)
    {
      kept := [];
      for i := 0 to |bans|
        invariant kept == Locals(bans[..i])
      {
        assert bans[..i + 1][..i] == bans[..i];
        if bans[i].source != CrowdSec { kept := kept + [bans[i]]; }
      }
      assert bans[..|bans|] == bans;
    }

    static method DropDecisions(bans: seq<ThreatBan>, ids: set<int>) returns (kept: seq<ThreatBan>)
      ensures kept == WithoutDecisions(bans, ids)
    {
      kept := [];
      for i := 0 to |bans|
        invariant kept == WithoutDecisions(bans[..i], ids)
      {
        assert bans[..i + 1][..i] == bans[..i];
        if bans[i].source == CrowdSec && bans[i].decisionID in ids { continue; }
        kept := kept + [bans[i]];
      }
      assert bans[..|bans|] == bans;
    }

    static method InsertBan(bans: seq<ThreatBan>, ban: ThreatBan) returns (out: seq<ThreatBan>)
      ensures out == Upsert(bans, ban)
    {
      for i := 0 to |bans|
        invariant Upsert(bans, ban) == bans[..i] + Upsert(bans[i..], ban)
      {
        assert bans[i..][0] == bans[i] && bans[i..][1..] == bans[i + 1..];
        if (ban.source == CrowdSec && bans[i].source == CrowdSec && bans[i].decisionID == ban.decisionID)
           || (ban.source != CrowdSec && bans[i].source == ban.source && bans[i].address == ban.address) {
          assert bans[..i] + ([ban] + bans[i + 1..]) == bans[i := ban];
          return bans[i := ban];
        }
        assert bans[..i] + ([bans[i]] + Upsert(bans[i + 1..], ban)) == bans[..i + 1] + Upsert(bans[i + 1..], ban);
      }
      assert bans[|bans|..] == [] && bans[..|bans|] == bans;
      return bans + [ban];
    }

    static method SameThreatBans(a: seq<ThreatBan>, b: seq<ThreatBan>) returns (same: bool)
      ensures same <==> a == b
    {
      if |a| != |b| { return false; }
      for i := 0 to |a|
        invariant a[..i] == b[..i]
      {
        if a[i] != b[i] { return false; }
      }
      return true;
    }
  }

  lemma {:induction false} AddFails(bans: seq<ThreatBan>, adds: seq<ThreatBan>, i: nat, now: int)
    requires i < |adds| && Admit(adds[i], now).Err?
    ensures AddAll(bans, adds, now).Err?
    decreases |adds|
  {
    if i < |adds| - 1 {
      assert adds[..|adds| - 1][i] == adds[i];
      AddFails(bans, adds[..|adds| - 1], i, now);
    }
  }

  // ---- what a batch keeps ----

  lemma {:induction false} UpsertMembers(bans: seq<ThreatBan>, ban: ThreatBan)
    requires Unique(bans)
    ensures Unique(Upsert(bans, ban))
    ensures forall b :: b in Upsert(bans, ban) <==> b == ban || (b in bans && IdentOf(b) != IdentOf(ban))
  {
    hide IdentOf;
    if bans != [] {
      var head, tail := bans[0], bans[1..];
      assert bans == [head] + tail;
      assert Unique(tail);
      if IdentOf(head) == IdentOf(ban) {
        assert forall b :: b in tail ==> IdentOf(b) != IdentOf(head);
      } else {
        UpsertMembers(tail, ban);
        var r := Upsert(tail, ban);
        forall b | b in r ensures IdentOf(b) != IdentOf(head) {}
        ConsUnique(head, r);
      }
    }
  }

  lemma ConsUnique(head: ThreatBan, tail: seq<ThreatBan>)
    requires Unique(tail) && forall b :: b in tail ==> IdentOf(b) != IdentOf(head)
    ensures Unique([head] + tail)
  {
    hide IdentOf;
    var r := [head] + tail;
    forall i, j | 0 <= i < j < |r| ensures IdentOf(r[i]) != IdentOf(r[j]) {
      if i > 0 { assert r[i] == tail[i - 1] && r[j] == tail[j - 1]; } else { assert r[j] == tail[j - 1]; }
    }
  }

  lemma {:induction false} AddAllUnique(bans: seq<ThreatBan>, adds: seq<ThreatBan>, now: int)
    requires Unique(bans) && AddAll(bans, adds, now).Ok?
    ensures Unique(AddAll(bans, adds, now).value)
  {
    hide Admit, IdentOf;
    if adds != [] {
      AddAllUnique(bans, adds[..|adds| - 1], now);
      UpsertMembers(AddAll(bans, adds[..|adds| - 1], now).value, Admit(adds[|adds| - 1], now).value);
    }
  }

  lemma {:induction false} LocalsUnique(bans: seq<ThreatBan>)
    requires Unique(bans)
    ensures Unique(Locals(bans))
  {
    hide IdentOf;
    if bans != [] {
      var n := |bans| - 1;
      LocalsUnique(bans[..n]);
      if bans[n].Local() { SnocUnique(Locals(bans[..n]), bans[n], bans); }
    }
  }

  lemma SnocUnique(init: seq<ThreatBan>, last: ThreatBan, bans: seq<ThreatBan>)
    requires Unique(init) && Unique(bans) && bans != [] && last == bans[|bans| - 1]
    requires forall b :: b in init ==> b in bans[..|bans| - 1]
    ensures Unique(init + [last])
  {
    hide IdentOf;
    forall i | 0 <= i < |init| ensures IdentOf(init[i]) != IdentOf(last) {
      assert init[i] in init;
      var j :| 0 <= j < |bans| - 1 && bans[..|bans| - 1][j] == init[i];
    }
  }

  lemma {:induction false} WithoutUnique(bans: seq<ThreatBan>, ids: set<int>)
    requires Unique(bans)
    ensures Unique(WithoutDecisions(bans, ids))
  {
    hide IdentOf;
    if bans != [] {
      var n := |bans| - 1;
      WithoutUnique(bans[..n], ids);
      if bans[n].Local() || bans[n].decisionID !in ids { SnocUnique(WithoutDecisions(bans[..n], ids), bans[n], bans); }
    }
  }

  // Identities stay unique across every accepted batch.
  lemma {:induction false} UpdateKeepsUnique(bans: seq<ThreatBan>, u: Update, now: int)
    requires Unique(bans) && ApplyUpdate(bans, u, now).Ok?
    ensures Unique(ApplyUpdate(bans, u, now).value)
  {
    hide Admit, Unique, AddAll, Locals, WithoutDecisions;
    LocalsUnique(bans);
    var base := if u.snapshot then Locals(bans) else bans;
    AddAllUnique(base, u.add, now);
    WithoutUnique(AddAll(base, u.add, now).value, IdSet(u.deleteIDs));
  }

  // Deletes win over additions of the same delta.
  lemma {:induction false} DeletesWin(bans: seq<ThreatBan>, u: Update, now: int, b: ThreatBan)
    requires !u.snapshot && ApplyUpdate(bans, u, now).Ok? && b in ApplyUpdate(bans, u, now).value
             && b.source == CrowdSec
    ensures b.decisionID !in u.deleteIDs
  {
    hide AddAll;
  }

  // ---- the bans as a table of decisions ----

  type Table = map<int, ThreatBan>

  function TableOf(bans: seq<ThreatBan>): Table
  {
    if bans == [] then map[]
    else
      var init, b := TableOf(bans[..|bans| - 1]), bans[|bans| - 1];
      if b.Local() then init else init[b.decisionID := b]
  }

  // A decision as it is stored.
  function Stored(b: ThreatBan): ThreatBan
  {
    var a := CanonicalBanAddress(b.address);
    if a.Ok? then b.(address := a.value) else b
  }

  function FeedAdds(t: Table, adds: seq<ThreatBan>): Table
  {
    if adds == [] then t
    else
      var init, b := FeedAdds(t, adds[..|adds| - 1]), adds[|adds| - 1];
      if b.Local() then init else init[b.decisionID := Stored(b)]
  }

  // A snapshot starts over; a delta adds, then deletes.
  function Feed(t: Table, u: Update): Table
  {
    if u.snapshot then FeedAdds(map[], u.add) else FeedAdds(t, u.add) - IdSet(u.deleteIDs)
  }

  lemma {:induction false} TableMembers(bans: seq<ThreatBan>)
    requires Unique(bans)
    ensures forall id, b ::
            (id in TableOf(bans) && TableOf(bans)[id] == b) <==> b in bans && !b.Local() && b.decisionID == id
  {
    if bans != [] {
      var n := |bans| - 1;
      TableMembers(bans[..n]);
      assert bans == bans[..n] + [bans[n]];
      if !bans[n].Local() {
        forall b | b in bans[..n] && !b.Local() ensures b.decisionID != bans[n].decisionID {
          var i :| 0 <= i < n && bans[i] == b;
          assert IdentOf(bans[i]) != IdentOf(bans[n]);
        }
      }
    }
  }

  lemma TableFromMembers(bans: seq<ThreatBan>, t: Table)
    requires Unique(bans)
    requires forall id, b :: (id in t && t[id] == b) <==> b in bans && !b.Local() && b.decisionID == id
    ensures TableOf(bans) == t
  {
    TableMembers(bans);
    var s := TableOf(bans);
    forall id | id in s ensures id in t && t[id] == s[id] {
      assert s[id] in bans;
    }
    forall id | id in t ensures id in s && s[id] == t[id] {
      assert t[id] in bans && !t[id].Local() && t[id].decisionID == id;
    }
  }

  lemma UpsertTable(bans: seq<ThreatBan>, ban: ThreatBan)
    requires Unique(bans)
    ensures TableOf(Upsert(bans, ban)) == if ban.Local() then TableOf(bans) else TableOf(bans)[ban.decisionID := ban]
  {
    hide TableOf;
    UpsertMembers(bans, ban);
    TableMembers(bans);
    TableFromMembers(Upsert(bans, ban), if ban.Local() then TableOf(bans) else TableOf(bans)[ban.decisionID := ban]);
  }

  lemma {:induction false} AddAllTable(bans: seq<ThreatBan>, adds: seq<ThreatBan>, now: int)
    requires Unique(bans) && AddAll(bans, adds, now).Ok?
    ensures TableOf(AddAll(bans, adds, now).value) == FeedAdds(TableOf(bans), adds)
  {
    hide TableOf, Upsert, Unique;
    if adds != [] {
      var init, b := adds[..|adds| - 1], Admit(adds[|adds| - 1], now).value;
      AddAllTable(bans, init, now);
      AddAllUnique(bans, init, now);
      UpsertTable(AddAll(bans, init, now).value, b);
    }
  }

  lemma LocalsTable(bans: seq<ThreatBan>)
    requires Unique(bans)
    ensures TableOf(Locals(bans)) == map[]
  {
    hide TableOf, Unique;
    LocalsUnique(bans);
    TableFromMembers(Locals(bans), map[]);
  }

  lemma WithoutTable(bans: seq<ThreatBan>, ids: set<int>)
    requires Unique(bans)
    ensures TableOf(WithoutDecisions(bans, ids)) == TableOf(bans) - ids
  {
    hide TableOf, Unique;
    WithoutUnique(bans, ids);
    TableMembers(bans);
    TableFromMembers(WithoutDecisions(bans, ids), TableOf(bans) - ids);
  }

  // An accepted batch does to the stored decisions what it says.
  lemma {:induction false} UpdateFeedsTable(bans: seq<ThreatBan>, u: Update, now: int)
    requires Unique(bans) && ApplyUpdate(bans, u, now).Ok?
    ensures TableOf(ApplyUpdate(bans, u, now).value) == Feed(TableOf(bans), u)
  {
    hide TableOf, Unique, AddAll, Locals, WithoutDecisions, FeedAdds;
    LocalsUnique(bans);
    LocalsTable(bans);
    var base := if u.snapshot then Locals(bans) else bans;
    AddAllTable(base, u.add, now);
    AddAllUnique(base, u.add, now);
    WithoutTable(AddAll(base, u.add, now).value, IdSet(u.deleteIDs));
    if u.deleteIDs == [] {
      assert IdSet(u.deleteIDs) == {}; assert FeedAdds(TableOf(bans), u.add) - {} == FeedAdds(TableOf(bans), u.add);
    }
  }

  // ---- local bans ----

  lemma {:induction false} AddAllKeepsLocal(bans: seq<ThreatBan>, adds: seq<ThreatBan>, now: int, b: ThreatBan)
    requires Unique(bans) && AddAll(bans, adds, now).Ok? && b in bans && b.Local()
    requires forall a :: a in adds && a.Local() ==> IdentOf(Stored(a)) != IdentOf(b)
    ensures b in AddAll(bans, adds, now).value
  {
    hide Upsert, Unique;
    if adds != [] {
      var init, a := adds[..|adds| - 1], adds[|adds| - 1];
      AddAllKeepsLocal(bans, init, now, b);
      AddAllUnique(bans, init, now);
      UpsertMembers(AddAll(bans, init, now).value, Admit(a, now).value);
      assert a in adds && Admit(a, now).value == Stored(a);
      if !a.Local() && IdentOf(Stored(a)) == IdentOf(b) { SameIdentSameKind(Stored(a), b); }
    }
  }

  // A local ban survives every batch without a local addition of its
  // identity, snapshots included.
  lemma {:induction false} UpdateKeepsLocal(bans: seq<ThreatBan>, u: Update, now: int, b: ThreatBan)
    requires Unique(bans) && ApplyUpdate(bans, u, now).Ok? && b in bans && b.Local()
    requires forall a :: a in u.add && a.Local() ==> IdentOf(Stored(a)) != IdentOf(b)
    ensures b in ApplyUpdate(bans, u, now).value
  {
    hide Unique, AddAll, Locals, WithoutDecisions, IdentOf, Stored;
    LocalsUnique(bans);
    AddAllKeepsLocal(if u.snapshot then Locals(bans) else bans, u.add, now, b);
  }

  predicate CrowdSecOnly(u: Update)
  {
    forall i :: 0 <= i < |u.add| ==> u.add[i].source == CrowdSec
  }

  lemma {:induction false} UpsertLocals(bans: seq<ThreatBan>, ban: ThreatBan)
    requires !ban.Local()
    ensures Locals(Upsert(bans, ban)) == Locals(bans)
  {
    hide IdentOf;
    if bans != [] {
      LocalsCons(bans[0], bans[1..]);
      assert bans == [bans[0]] + bans[1..];
      if IdentOf(bans[0]) == IdentOf(ban) {
        LocalsCons(ban, bans[1..]);
        SameIdentSameKind(bans[0], ban);
      } else {
        UpsertLocals(bans[1..], ban);
        LocalsCons(bans[0], Upsert(bans[1..], ban));
      }
    } else {
      assert [ban][..0] == [];
    }
  }

  lemma SameIdentSameKind(a: ThreatBan, b: ThreatBan)
    requires IdentOf(a) == IdentOf(b)
    ensures a.Local() == b.Local()
  {
  }

  lemma {:induction false} LocalsCons(b: ThreatBan, rest: seq<ThreatBan>)
    ensures Locals([b] + rest) == (if b.Local() then [b] else []) + Locals(rest)
  {
    var all := [b] + rest;
    if rest == [] {
      assert all == [b] && [b][..0] == [];
    } else {
      var n := |rest| - 1;
      LocalsCons(b, rest[..n]);
      assert all[..|all| - 1] == [b] + rest[..n] && all[|all| - 1] == rest[n];
    }
  }

  lemma {:induction false} AddAllLocals(bans: seq<ThreatBan>, adds: seq<ThreatBan>, now: int)
    requires AddAll(bans, adds, now).Ok? && forall i :: 0 <= i < |adds| ==> adds[i].source == CrowdSec
    ensures Locals(AddAll(bans, adds, now).value) == Locals(bans)
  {
    hide Locals, Upsert;
    if adds != [] {
      AddAllLocals(bans, adds[..|adds| - 1], now);
      UpsertLocals(AddAll(bans, adds[..|adds| - 1], now).value, Admit(adds[|adds| - 1], now).value);
    }
  }

  lemma {:induction false} LocalsTwice(bans: seq<ThreatBan>, ids: set<int>)
    ensures Locals(Locals(bans)) == Locals(bans)
    ensures Locals(WithoutDecisions(bans, ids)) == Locals(bans)
  {
    if bans != [] {
      var n := |bans| - 1;
      LocalsTwice(bans[..n], ids);
      LocalsSnoc(Locals(bans[..n]), bans[n]);
      LocalsSnoc(WithoutDecisions(bans[..n], ids), bans[n]);
    }
  }

  lemma LocalsSnoc(init: seq<ThreatBan>, b: ThreatBan)
    ensures Locals(init + [b]) == if b.Local() then Locals(init) + [b] else Locals(init)
  {
    assert (init + [b])[..|init|] == init;
  }

  // A batch of decisions leaves the local bans exactly as they were.
  lemma {:induction false} DecisionsKeepLocals(bans: seq<ThreatBan>, u: Update, now: int)
    requires CrowdSecOnly(u) && ApplyUpdate(bans, u, now).Ok?
    ensures Locals(ApplyUpdate(bans, u, now).value) == Locals(bans)
  {
    hide AddAll, Locals, WithoutDecisions;
    var base := if u.snapshot then Locals(bans) else bans;
    AddAllLocals(base, u.add, now);
    LocalsTwice(bans, {});
    LocalsTwice(AddAll(base, u.add, now).value, IdSet(u.deleteIDs));
  }

  // ---- applying a batch twice ----

  // What the additions leave at the place of a ban.
  function Latest(b: ThreatBan, adds: seq<ThreatBan>): ThreatBan
  {
    if adds == [] then b
    else if IdentOf(Stored(adds[|adds| - 1])) == IdentOf(b) then Stored(adds[|adds| - 1])
    else Latest(b, adds[..|adds| - 1])
  }

  predicate Named(b: ThreatBan, adds: seq<ThreatBan>)
  {
    exists i :: 0 <= i < |adds| && IdentOf(Stored(adds[i])) == IdentOf(b)
  }

  lemma {:induction false} LatestOnly(b: ThreatBan, c: ThreatBan, adds: seq<ThreatBan>)
    requires IdentOf(b) == IdentOf(c)
    ensures IdentOf(Latest(b, adds)) == IdentOf(b)
    ensures Named(b, adds) ==> Latest(b, adds) == Latest(c, adds)
    ensures !Named(b, adds) ==> Latest(b, adds) == b
  {
    hide IdentOf, Stored;
    if adds != [] {
      var n := |adds| - 1;
      LatestOnly(b, c, adds[..n]);
      assert Named(b, adds) <==> Named(b, adds[..n]) || IdentOf(Stored(adds[n])) == IdentOf(b) by {
        if Named(b, adds[..n]) {
          var i :| 0 <= i < n && IdentOf(Stored(adds[..n][i])) == IdentOf(b);
          assert IdentOf(Stored(adds[i])) == IdentOf(b);
        }
        if Named(b, adds) && IdentOf(Stored(adds[n])) != IdentOf(b) {
          var i :| 0 <= i < |adds| && IdentOf(Stored(adds[i])) == IdentOf(b);
          assert IdentOf(Stored(adds[..n][i])) == IdentOf(b);
        }
      }
    }
  }

  // An addition changes at most the ban of its identity, in place; new
  // identities go to the end.
  lemma {:induction false} UpsertShape(bans: seq<ThreatBan>, ban: ThreatBan)
    ensures |bans| <= |Upsert(bans, ban)| <= |bans| + 1
    ensures Unique(bans) ==>
            forall i :: 0 <= i < |bans| ==>
                          Upsert(bans, ban)[i] == if IdentOf(bans[i]) == IdentOf(ban) then ban else bans[i]
    ensures |Upsert(bans, ban)| > |bans| ==> Upsert(bans, ban)[|bans|] == ban
  {
    hide IdentOf;
    if bans != [] && IdentOf(bans[0]) != IdentOf(ban) {
      UpsertShape(bans[1..], ban);
    }
  }

  lemma {:induction false} AddAllShape(bans: seq<ThreatBan>, adds: seq<ThreatBan>, now: int)
    requires Unique(bans) && AddAll(bans, adds, now).Ok?
    ensures var r := AddAll(bans, adds, now).value;
            && |r| >= |bans|
            && (forall i :: 0 <= i < |bans| ==> r[i] == Latest(bans[i], adds))
            && forall i :: |bans| <= i < |r| ==> Named(r[i], adds) && r[i] == Latest(r[i], adds)
  {
    hide IdentOf, Upsert, Unique;
    if adds != [] {
      var n := |adds| - 1;
      var init, a := adds[..n], Admit(adds[n], now).value;
      var m := AddAll(bans, init, now).value;
      AddAllShape(bans, init, now);
      AddAllUnique(bans, init, now);
      UpsertShape(m, a);
      var r := Upsert(m, a);
      assert a == Stored(adds[n]);
      forall i | 0 <= i < |bans| ensures r[i] == Latest(bans[i], adds) {
        LatestOnly(bans[i], bans[i], init);
      }
      forall i | |bans| <= i < |r| ensures Named(r[i], adds) && r[i] == Latest(r[i], adds) {
        if i < |m| && IdentOf(m[i]) != IdentOf(a) {
          var k :| 0 <= k < |init| && IdentOf(Stored(init[k])) == IdentOf(m[i]);
          assert adds[k] == init[k];
        } else {
          assert r[i] == a && IdentOf(Stored(adds[n])) == IdentOf(r[i]);
        }
      }
    }
  }

  lemma {:induction false} WithoutAll(bans: seq<ThreatBan>, tail: seq<ThreatBan>, ids: set<int>)
    requires forall b :: b in tail ==> !b.Local() && b.decisionID in ids
    ensures WithoutDecisions(bans + tail, ids) == WithoutDecisions(bans, ids)
  {
    if tail == [] {
      assert bans + tail == bans;
    } else {
      var n := |tail| - 1;
      assert (bans + tail)[..|bans + tail| - 1] == bans + tail[..n];
      WithoutAll(bans, tail[..n], ids);
    }
  }

  lemma {:induction false} WithoutNone(bans: seq<ThreatBan>, ids: set<int>)
    requires forall b :: b in bans ==> b.Local() || b.decisionID !in ids
    ensures WithoutDecisions(bans, ids) == bans
  {
    if bans != [] { WithoutNone(bans[..|bans| - 1], ids); }
  }

  lemma {:induction false} AddAllHas(bans: seq<ThreatBan>, adds: seq<ThreatBan>, now: int, k: nat)
    requires Unique(bans) && AddAll(bans, adds, now).Ok? && k < |adds|
    ensures exists b :: b in AddAll(bans, adds, now).value && IdentOf(b) == IdentOf(Stored(adds[k]))
  {
    hide IdentOf, Upsert, Unique;
    var n := |adds| - 1;
    var m, a := AddAll(bans, adds[..n], now).value, Admit(adds[n], now).value;
    AddAllUnique(bans, adds[..n], now);
    UpsertMembers(m, a);
    if k == n {
      assert a in Upsert(m, a) && a == Stored(adds[n]);
    } else {
      AddAllHas(bans, adds[..n], now, k);
      var b :| b in m && IdentOf(b) == IdentOf(Stored(adds[k]));
      if IdentOf(b) == IdentOf(a) { assert a in Upsert(m, a); } else { assert b in Upsert(m, a); }
    }
  }

  // Reapplying a delta at the same time changes nothing.
  lemma {:induction false} ReapplyDelta(bans: seq<ThreatBan>, u: Update, now: int)
    requires Unique(bans) && !u.snapshot && ApplyUpdate(bans, u, now).Ok?
    ensures ApplyUpdate(ApplyUpdate(bans, u, now).value, u, now) == ApplyUpdate(bans, u, now)
  {
    hide IdentOf, Upsert, Unique, Admit, AddAll, WithoutDecisions, Stored, Latest, Named;
    var first := ApplyUpdate(bans, u, now).value;
    var ids := if u.deleteIDs == [] then {} else IdSet(u.deleteIDs);
    UpdateKeepsUnique(bans, u, now);
    var once := AddAll(bans, u.add, now).value;
    WithoutNone(once, {});
    assert first == WithoutDecisions(once, ids);
    AddSucceeds(bans, first, u.add, now);
    var twice := AddAll(first, u.add, now).value;
    ReapplyAdds(bans, u.add, now, ids);
    WithoutNone(twice, {});
  }

  lemma {:induction false} AddSucceeds(a: seq<ThreatBan>, b: seq<ThreatBan>, adds: seq<ThreatBan>, now: int)
    ensures AddAll(a, adds, now).Ok? <==> AddAll(b, adds, now).Ok?
  {
    hide Admit, Upsert;
    if adds != [] { AddSucceeds(a, b, adds[..|adds| - 1], now); }
  }

  lemma ReapplyAdds(bans: seq<ThreatBan>, adds: seq<ThreatBan>, now: int, ids: set<int>)
    requires Unique(bans) && AddAll(bans, adds, now).Ok?
    ensures var first := WithoutDecisions(AddAll(bans, adds, now).value, ids);
            && AddAll(first, adds, now).Ok?
            && WithoutDecisions(AddAll(first, adds, now).value, ids) == first
  {
    hide Upsert, Admit, AddAll, Stored, IdentOf, Unique, Latest, Named, WithoutDecisions;
    var once := AddAll(bans, adds, now).value;
    var first := WithoutDecisions(once, ids);
    AddSucceeds(bans, first, adds, now);
    var twice := AddAll(first, adds, now).value;
    AddAllUnique(bans, adds, now);
    WithoutUnique(once, ids);
    AddAllShape(first, adds, now);
    SecondKeeps(bans, adds, now, ids);
    assert twice[..|first|] == first;
    forall b | b in twice[|first|..] ensures !b.Local() && b.decisionID in ids {
      var k :| 0 <= k < |twice| - |first| && twice[|first|..][k] == b;
      SecondExtras(bans, adds, now, ids, |first| + k);
    }
    WithoutAll(first, twice[|first|..], ids);
    assert twice == first + twice[|first|..];
    WithoutNone(first, ids);
  }

  lemma SecondKeeps(bans: seq<ThreatBan>, adds: seq<ThreatBan>, now: int, ids: set<int>)
    requires Unique(bans) && AddAll(bans, adds, now).Ok?
    ensures var first := WithoutDecisions(AddAll(bans, adds, now).value, ids);
            && AddAll(first, adds, now).Ok?
            && |AddAll(first, adds, now).value| >= |first|
            && forall i :: 0 <= i < |first| ==> AddAll(first, adds, now).value[i] == first[i]
  {
    hide Upsert, Admit, AddAll, Stored, IdentOf, Unique, Latest, Named, WithoutDecisions;
    var once := AddAll(bans, adds, now).value;
    var first := WithoutDecisions(once, ids);
    AddSucceeds(bans, first, adds, now);
    AddAllUnique(bans, adds, now);
    WithoutUnique(once, ids);
    AddAllShape(bans, adds, now);
    AddAllShape(first, adds, now);
    forall i | 0 <= i < |first| ensures Latest(first[i], adds) == first[i] {
      assert first[i] in once;
      var j :| 0 <= j < |once| && once[j] == first[i];
      if j < |bans| { LatestTwice(bans[j], adds); }
    }
  }

  lemma LatestTwice(b: ThreatBan, adds: seq<ThreatBan>)
    ensures Latest(Latest(b, adds), adds) == Latest(b, adds)
  {
    hide Latest, Named, IdentOf;
    LatestOnly(b, b, adds);
    LatestOnly(b, Latest(b, adds), adds);
    LatestOnly(Latest(b, adds), b, adds);
  }

  lemma SecondExtras(bans: seq<ThreatBan>, adds: seq<ThreatBan>, now: int, ids: set<int>, i: nat)
    requires Unique(bans) && AddAll(bans, adds, now).Ok?
    requires var first := WithoutDecisions(AddAll(bans, adds, now).value, ids);
             AddAll(first, adds, now).Ok? && |first| <= i < |AddAll(first, adds, now).value|
    ensures var first := WithoutDecisions(AddAll(bans, adds, now).value, ids);
            var b := AddAll(first, adds, now).value[i];
            !b.Local() && b.decisionID in ids
  {
    hide Upsert, Admit, AddAll, Stored, Unique, Latest, WithoutDecisions, IdentOf;
    var once := AddAll(bans, adds, now).value;
    var first := WithoutDecisions(once, ids);
    var twice := AddAll(first, adds, now).value;
    AddAllUnique(bans, adds, now);
    WithoutUnique(once, ids);
    AddAllUnique(first, adds, now);
    AddAllShape(first, adds, now);
    SecondKeeps(bans, adds, now, ids);
    var b := twice[i];
    assert Named(b, adds);
    var k :| 0 <= k < |adds| && IdentOf(Stored(adds[k])) == IdentOf(b);
    AddAllHas(bans, adds, now, k);
    var c :| c in once && IdentOf(c) == IdentOf(Stored(adds[k]));
    NotTwice(twice, |first|, i);
    forall q | 0 <= q < |first| ensures first[q] != c {
      assert twice[q] == first[q] && IdentOf(twice[q]) != IdentOf(b);
    }
    assert !c.Local() && c.decisionID in ids;
    SameDecision(b, c);
  }

  lemma SameDecision(b: ThreatBan, c: ThreatBan)
    requires IdentOf(b) == IdentOf(c)
    ensures b.Local() == c.Local() && (!b.Local() ==> b.decisionID == c.decisionID)
  {
  }

  lemma NotTwice(bans: seq<ThreatBan>, n: nat, i: nat)
    requires Unique(bans) && n <= i < |bans|
    ensures forall q :: 0 <= q < n ==> IdentOf(bans[q]) != IdentOf(bans[i])
  {
  }

  // Reapplying a snapshot of decisions at the same time changes nothing.
  lemma {:induction false} ReapplySnapshot(bans: seq<ThreatBan>, u: Update, now: int)
    requires Unique(bans) && u.snapshot && CrowdSecOnly(u) && ApplyUpdate(bans, u, now).Ok?
    ensures ApplyUpdate(ApplyUpdate(bans, u, now).value, u, now) == ApplyUpdate(bans, u, now)
  {
    hide Locals, AddAll;
    DecisionsKeepLocals(bans, u, now);
  }
}
