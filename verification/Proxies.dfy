/**
 Which address a request really comes from: the walk over `X-Forwarded-For`, and the cache of the
 networks that trusted proxy names currently resolve to.
 */
module ForwardedFor {
  import opened Optional
  import opened Cidr

  /** Foreign text handling: trimming an entry, and reading it as an address. */
  datatype Reader = Reader(trim: string -> string, parse: string -> Option<Addr>)

  /** An IPv4-mapped IPv6 address stands for the IPv4 address inside it. */
  function Normalize(x: Addr): Addr {
    if x.family == V6 && x.bits / 0x1_0000_0000 == 0xFFFF then Addr(V4, x.bits % 0x1_0000_0000) else x
  }

  predicate Trusted(nets: seq<Network>, x: Addr) {
    exists i :: 0 <= i < |nets| && Contains(nets[i], x)
  }

  function Comma(s: string): (i: nat)
    ensures i <= |s| && (i < |s| ==> s[i] == ',') && forall j :: 0 <= j < i ==> s[j] != ','
  {
    if s == [] || s[0] == ',' then 0 else
      var i := Comma(s[1..]) + 1;
      assert forall j :: 0 < j < i ==> s[j] == s[1..][j - 1];
      i
  }

  function SplitCommas(s: string): seq<string>
    decreases |s|
  {
    var i := Comma(s);
    if i == |s| then [s] else [s[..i]] + SplitCommas(s[i + 1..])
  }

  /** The parseable entries, left to right. */
  function Entries(rd: Reader, parts: seq<string>): seq<Addr>
    decreases |parts|
  {
    if parts == [] then []
    else
      var text := rd.trim(parts[0]);
      var here := if text != [] && rd.parse(text).Some? then [Normalize(rd.parse(text).value)] else [];
      here + Entries(rd, parts[1..])
  }

  function Chain(rd: Reader, forwarded: string): seq<Addr> {
    Entries(rd, SplitCommas(forwarded))
  }

  /** Searching from the right. */
  function LastUntrusted(nets: seq<Network>, chain: seq<Addr>): Option<Addr>
    decreases |chain|
  {
    if chain == [] then None
    else if !Trusted(nets, chain[|chain| - 1]) then Some(chain[|chain| - 1])
    else LastUntrusted(nets, chain[..|chain| - 1])
  }

  function ResolveClientIp(rd: Reader, nets: seq<Network>, peer: Addr, forwarded: Option<string>, realIp: Option<string>): Addr {
    var p := Normalize(peer);
    if !Trusted(nets, p) then p
    else
      var client := if forwarded.Some? then LastUntrusted(nets, Chain(rd, forwarded.value)) else None;
      if client.Some? then client.value
      else if realIp.Some? && rd.parse(rd.trim(realIp.value)).Some? then Normalize(rd.parse(rd.trim(realIp.value)).value)
      else p
  }

  /** The search finds the rightmost untrusted entry, and nothing only when every entry is trusted. */
  lemma {:induction false} LastUntrustedMeans(nets: seq<Network>, chain: seq<Addr>)
    ensures LastUntrusted(nets, chain).None? <==> forall i :: 0 <= i < |chain| ==> Trusted(nets, chain[i])
    ensures LastUntrusted(nets, chain).Some? ==>
              exists i :: 0 <= i < |chain| && chain[i] == LastUntrusted(nets, chain).value &&
                          !Trusted(nets, chain[i]) && forall j :: i < j < |chain| ==> Trusted(nets, chain[j])
    decreases |chain|
  {
    if chain != [] {
      var init, last := chain[..|chain| - 1], chain[|chain| - 1];
      LastUntrustedMeans(nets, init);
      if !Trusted(nets, last) {
        assert chain[|chain| - 1] == LastUntrusted(nets, chain).value;
      } else if LastUntrusted(nets, init).Some? {
        var i :| 0 <= i < |init| && init[i] == LastUntrusted(nets, init).value &&
                 !Trusted(nets, init[i]) && forall j :: i < j < |init| ==> Trusted(nets, init[j]);
        assert chain[i] == init[i];
        forall j | i < j < |chain|
          ensures Trusted(nets, chain[j])
        {
          if j < |init| {
            assert chain[j] == init[j];
          }
        }
      }
    }
  }

  lemma {:induction false} CommaUnique(s: string, i: nat)
    requires i < |s| && s[i] == ',' && forall j :: 0 <= j < i ==> s[j] != ','
    ensures Comma(s) == i
  {
  }

  lemma {:induction false} SplitPrepended(p: string, s: string)
    ensures SplitCommas(p + "," + s) == SplitCommas(p) + SplitCommas(s)
    decreases |p|
  {
    var whole := p + "," + s;
    var i := Comma(p);
    assert forall j :: 0 <= j < |p| ==> whole[j] == p[j];
    CommaUnique(whole, i);
    if i == |p| {
      assert whole[..i] == p && whole[i + 1..] == s;
    } else {
      assert whole[..i] == p[..i] && whole[i + 1..] == p[i + 1..] + "," + s;
      SplitPrepended(p[i + 1..], s);
    }
  }

  lemma {:induction false} EntriesAppend(rd: Reader, a: seq<string>, b: seq<string>)
    ensures Entries(rd, a + b) == Entries(rd, a) + Entries(rd, b)
    decreases |a|
  {
    if a == [] {
      assert a + b == b;
    } else {
      assert (a + b)[0] == a[0] && (a + b)[1..] == a[1..] + b;
      EntriesAppend(rd, a[1..], b);
    }
  }

  lemma {:induction false} LastOfAppend(nets: seq<Network>, a: seq<Addr>, b: seq<Addr>)
    ensures LastUntrusted(nets, a + b) ==
            if LastUntrusted(nets, b).Some? then LastUntrusted(nets, b) else LastUntrusted(nets, a)
    decreases |b|
  {
    if b == [] {
      assert a + b == a;
    } else {
      assert (a + b)[|a + b| - 1] == b[|b| - 1];
      assert (a + b)[..|a + b| - 1] == a + b[..|b| - 1];
      LastOfAppend(nets, a, b[..|b| - 1]);
    }
  }

  /** Text a client puts in front of the header decides the outcome only when every parseable entry the
      proxies themselves appended is trusted and the forged part has one that is not. */
  lemma {:induction false} PrependingHarmless(rd: Reader, nets: seq<Network>, forged: string, forwarded: string)
    ensures var before := LastUntrusted(nets, Chain(rd, forwarded));
            LastUntrusted(nets, Chain(rd, forged + "," + forwarded)) == before
            <==> before.Some? || LastUntrusted(nets, Chain(rd, forged)).None?
  {
    SplitPrepended(forged, forwarded);
    EntriesAppend(rd, SplitCommas(forged), SplitCommas(forwarded));
    LastOfAppend(nets, Chain(rd, forged), Chain(rd, forwarded));
  }

  /** The resolved address: prepended text changes it exactly when the peer is trusted, the chain holds no
      untrusted entry, and the prepended part holds one, the last of which is not what would be resolved
      without the header. */
  lemma {:induction false} ForgeryHarmlessIff(
    rd: Reader, nets: seq<Network>, peer: Addr, forged: string, forwarded: string, realIp: Option<string>)
    ensures ResolveClientIp(rd, nets, peer, Some(forged + "," + forwarded), realIp)
            == ResolveClientIp(rd, nets, peer, Some(forwarded), realIp)
            <==>
            || !Trusted(nets, Normalize(peer))
            || LastUntrusted(nets, Chain(rd, forwarded)).Some?
            || LastUntrusted(nets, Chain(rd, forged)).None?
            || LastUntrusted(nets, Chain(rd, forged)).value == ResolveClientIp(rd, nets, peer, None, realIp)
  {
    SplitPrepended(forged, forwarded);
    EntriesAppend(rd, SplitCommas(forged), SplitCommas(forwarded));
    LastOfAppend(nets, Chain(rd, forged), Chain(rd, forwarded));
  }

  // ---------------------------------------------------------------- what the resolution answers

  /** `::ffff:a.b.c.d` becomes `a.b.c.d`, and every other address stays. */
  lemma {:induction false} NormalizeMeans(x: Addr)
    ensures x.family == V6 && 0xFFFF_0000_0000 <= x.bits <= 0xFFFF_FFFF_FFFF ==>
              Normalize(x) == Addr(V4, x.bits - 0xFFFF_0000_0000)
    ensures !(x.family == V6 && 0xFFFF_0000_0000 <= x.bits <= 0xFFFF_FFFF_FFFF) ==> Normalize(x) == x
  {
  }

  function Joined(parts: seq<string>): string
    requires parts != []
    decreases |parts|
  {
    if |parts| == 1 then parts[0] else parts[0] + "," + Joined(parts[1..])
  }

  /** The parts are what lies between the commas. */
  lemma {:induction false} SplitMeans(s: string)
    ensures SplitCommas(s) != [] && Joined(SplitCommas(s)) == s
    ensures forall i :: 0 <= i < |SplitCommas(s)| ==> ',' !in SplitCommas(s)[i]
    decreases |s|
  {
    var i := Comma(s);
    if i < |s| {
      SplitMeans(s[i + 1..]);
      var rest := SplitCommas(s[i + 1..]);
      assert ([s[..i]] + rest)[1..] == rest;
      assert s == s[..i] + "," + s[i + 1..];
    }
  }

  /** The entry, once trimmed, reads as `x`, mapped addresses unwrapped. */
  predicate ReadsAs(rd: Reader, part: string, x: Addr) {
    rd.trim(part) != "" && rd.parse(rd.trim(part)).Some? && Normalize(rd.parse(rd.trim(part)).value) == x
  }

  /** The entry reads as an address that none of the networks holds. */
  predicate Outsider(rd: Reader, nets: seq<Network>, part: string) {
    && rd.trim(part) != "" && rd.parse(rd.trim(part)).Some?
    && forall i :: 0 <= i < |nets| ==> !Contains(nets[i], Normalize(rd.parse(rd.trim(part)).value))
  }

  lemma {:induction false} EntriesOfOne(rd: Reader, part: string)
    ensures Entries(rd, [part]) ==
            if rd.trim(part) != "" && rd.parse(rd.trim(part)).Some? then [Normalize(rd.parse(rd.trim(part)).value)] else []
  {
    assert [part][1..] == [];
    assert Entries(rd, []) == [];
  }

  lemma {:induction false} WalkMeans(rd: Reader, nets: seq<Network>, parts: seq<string>)
    ensures LastUntrusted(nets, Entries(rd, parts)).None? <==> forall i :: 0 <= i < |parts| ==> !Outsider(rd, nets, parts[i])
    ensures forall k ::
              0 <= k < |parts| && Outsider(rd, nets, parts[k]) && (forall i :: k < i < |parts| ==> !Outsider(rd, nets, parts[i])) ==>
                LastUntrusted(nets, Entries(rd, parts)).Some? && ReadsAs(rd, parts[k], LastUntrusted(nets, Entries(rd, parts)).value)
    decreases |parts|
  {
    if parts != [] {
      var init, last := parts[..|parts| - 1], parts[|parts| - 1];
      assert parts == init + [last];
      WalkMeans(rd, nets, init);
      EntriesAppend(rd, init, [last]);
      EntriesOfOne(rd, last);
      var here := Entries(rd, [last]);
      LastOfAppend(nets, Entries(rd, init), here);
      assert here != [] ==> here[..|here| - 1] == [];
      assert LastUntrusted(nets, here).Some? <==> Outsider(rd, nets, last);
      forall k | 0 <= k < |parts| && Outsider(rd, nets, parts[k]) && forall i :: k < i < |parts| ==> !Outsider(rd, nets, parts[i])
        ensures LastUntrusted(nets, Entries(rd, parts)).Some? && ReadsAs(rd, parts[k], LastUntrusted(nets, Entries(rd, parts)).value)
      {
        if k < |init| {
          assert init[k] == parts[k] && !Outsider(rd, nets, parts[|init|]);
          assert forall i :: k < i < |init| ==> init[i] == parts[i] && !Outsider(rd, nets, parts[i]);
        }
      }
      assert forall i :: 0 <= i < |init| ==> init[i] == parts[i];
    }
  }

  /** What the resolution answers. A peer that no network holds is the client. Behind a trusted peer it is the
      rightmost entry of the header that reads as an outsider; without one, `X-Real-IP` if it reads as an
      address; and otherwise the peer. */
  lemma {:induction false} ResolutionMeans(
    rd: Reader, nets: seq<Network>, peer: Addr, forwarded: Option<string>, realIp: Option<string>)
    ensures var client := ResolveClientIp(rd, nets, peer, forwarded, realIp);
            var parts := if forwarded.Some? then SplitCommas(forwarded.value) else [];
            && ((forall i :: 0 <= i < |nets| ==> !Contains(nets[i], Normalize(peer))) ==> client == Normalize(peer))
            && ((exists i :: 0 <= i < |nets| && Contains(nets[i], Normalize(peer))) ==>
                  && (forall k :: 0 <= k < |parts| && Outsider(rd, nets, parts[k])
                                  && (forall i :: k < i < |parts| ==> !Outsider(rd, nets, parts[i])) ==>
                        ReadsAs(rd, parts[k], client))
                  && ((forall k :: 0 <= k < |parts| ==> !Outsider(rd, nets, parts[k])) ==>
                        if realIp.Some? && rd.parse(rd.trim(realIp.value)).Some?
                        then client == Normalize(rd.parse(rd.trim(realIp.value)).value)
                        else client == Normalize(peer)))
  {
    if forwarded.Some? {
      WalkMeans(rd, nets, SplitCommas(forwarded.value));
    }
  }

  const PROXIES: seq<Network> := [Block(V4, 0x0A00_0001, 32), Block(V4, 0x0A00_0002, 32)]

  /** The text is one entry, read as `x`. */
  predicate Reads(rd: Reader, s: string, x: Addr) {
    s != [] && (forall i :: 0 <= i < |s| ==> s[i] != ',') && rd.trim(s) == s && rd.parse(s) == Some(x)
  }

  /** Behind two trusted proxies that append only themselves, a forged entry becomes the client. */
  lemma {:induction false} ForgedEntryDecides(rd: Reader, forged: string, forwarded: string)
    requires Reads(rd, forged, Addr(V4, 0x0102_0304)) && Reads(rd, forwarded, Addr(V4, 0x0A00_0002))
    ensures ResolveClientIp(rd, PROXIES, Addr(V4, 0x0A00_0001), Some(forwarded), None) == Addr(V4, 0x0A00_0001)
    ensures ResolveClientIp(rd, PROXIES, Addr(V4, 0x0A00_0001), Some(forged + "," + forwarded), None) == Addr(V4, 0x0102_0304)
  {
    var p, x := Addr(V4, 0x0A00_0002), Addr(V4, 0x0102_0304);
    OneEntry(rd, forwarded);
    OneEntry(rd, forged);
    assert Contains(PROXIES[1], p) && Contains(PROXIES[0], Addr(V4, 0x0A00_0001));
    assert !Trusted(PROXIES, x);
    assert [p][..0] == [];
    SplitPrepended(forged, forwarded);
    EntriesAppend(rd, SplitCommas(forged), SplitCommas(forwarded));
    LastOfAppend(PROXIES, [x], [p]);
  }

  /** The same in dotted quads, for every reader that reads them. */
  lemma {:induction false} ForgeryCanDecide(rd: Reader)
    requires rd.trim("1.2.3.4") == "1.2.3.4" && rd.parse("1.2.3.4") == Some(Addr(V4, 0x0102_0304))
    requires rd.trim("10.0.0.2") == "10.0.0.2" && rd.parse("10.0.0.2") == Some(Addr(V4, 0x0A00_0002))
    ensures ResolveClientIp(rd, PROXIES, Addr(V4, 0x0A00_0001), Some("10.0.0.2"), None) == Addr(V4, 0x0A00_0001)
    ensures ResolveClientIp(rd, PROXIES, Addr(V4, 0x0A00_0001), Some("1.2.3.4" + "," + "10.0.0.2"), None) == Addr(V4, 0x0102_0304)
  {
    ForgedEntryDecides(rd, "1.2.3.4", "10.0.0.2");
  }

  lemma {:induction false} OneEntry(rd: Reader, s: string)
    requires Comma(s) == |s| && rd.trim(s) == s != [] && rd.parse(s).Some?
    ensures Chain(rd, s) == [Normalize(rd.parse(s).value)]
  {
    assert SplitCommas(s) == [s] && [s][1..] == [];
    assert Entries(rd, []) == [];
  }

  /** With an untrusted entry of its own, the chain resolves to its rightmost one, whatever is prepended. */
  lemma {:induction false} ResolutionIgnoresPrefix(
    rd: Reader, nets: seq<Network>, peer: Addr, forged: string, forwarded: string, realIp: Option<string>)
    requires LastUntrusted(nets, Chain(rd, forwarded)).Some?
    ensures ResolveClientIp(rd, nets, peer, Some(forged + "," + forwarded), realIp)
            == ResolveClientIp(rd, nets, peer, Some(forwarded), realIp)
            == if Trusted(nets, Normalize(peer)) then LastUntrusted(nets, Chain(rd, forwarded)).value else Normalize(peer)
  {
    PrependingHarmless(rd, nets, forged, forwarded);
  }
}

module ProxyCache {
  import opened Optional
  import opened Cidr

  type Time = nat

  datatype HostState = HostState(addresses: seq<Network>, attemptedAt: Time)

  /** One finished lookup. `forced` marks those made by priming. */
  datatype Lookup = Lookup(name: string, startedAt: Time, state: HostState, forced: bool)

  /** What the resolver answers to a lookup, and how long it takes. */
  datatype Answer = Answer(addresses: seq<Network>, took: nat)

  function Latest(history: seq<Lookup>, name: string): Option<HostState>
    decreases |history|
  {
    if history == [] then None
    else if history[|history| - 1].name == name then Some(history[|history| - 1].state)
    else Latest(history[..|history| - 1], name)
  }

  /** The addresses behind the names, in order. */
  function Resolved(hosts: map<string, HostState>, names: seq<string>): seq<Network>
    decreases |names|
  {
    if names == [] then []
    else
      var last := names[|names| - 1];
      Resolved(hosts, names[..|names| - 1]) + if last in hosts then hosts[last].addresses else []
  }

  function TtlOf(s: HostState, positive: nat, negative: nat): nat {
    if s.addresses != [] then positive else negative
  }

  /** A lookup that was not forced followed the previous one for its name by at least the time to live of
      that one's outcome. */
  predicate Spaced(history: seq<Lookup>, i: nat, positive: nat, negative: nat)
    requires i < |history|
  {
    var x := history[i];
    var previous := Latest(history[..i], x.name);
    !x.forced && previous.Some? ==>
      x.startedAt >= previous.value.attemptedAt + TtlOf(previous.value, positive, negative)
  }

  /** `h` continues `before` with lookups of these names, all marked the same way. */
  predicate Extends(h: seq<Lookup>, before: seq<Lookup>, forced: bool, names: seq<string>) {
    before <= h && forall i :: |before| <= i < |h| ==> h[i].forced == forced && h[i].name in names
  }

  predicate LookedUpSince(h: seq<Lookup>, from: nat, name: string) {
    exists i :: from <= i < |h| && h[i].name == name
  }

  lemma {:induction false} LatestSnoc(h: seq<Lookup>, x: Lookup, name: string)
    ensures Latest(h + [x], name) == if x.name == name then Some(x.state) else Latest(h, name)
  {
    assert (h + [x])[..|h|] == h;
  }

  lemma {:induction false} SinceSnoc(h: seq<Lookup>, x: Lookup, from: nat, name: string)
    requires from <= |h|
    ensures LookedUpSince(h + [x], from, name) <==> LookedUpSince(h, from, name) || x.name == name
  {
    var g := h + [x];
    assert g[|h|] == x;
    assert forall i :: 0 <= i < |h| ==> g[i] == h[i];
  }

  lemma {:induction false} SpacedSnoc(h: seq<Lookup>, x: Lookup, positive: nat, negative: nat)
    requires forall i :: 0 <= i < |h| ==> Spaced(h, i, positive, negative)
    requires x.forced || Latest(h, x.name).None? ||
             x.startedAt >= Latest(h, x.name).value.attemptedAt + TtlOf(Latest(h, x.name).value, positive, negative)
    ensures forall i :: 0 <= i < |h| + 1 ==> Spaced(h + [x], i, positive, negative)
  {
    var g := h + [x];
    forall i | 0 <= i < |g|
      ensures Spaced(g, i, positive, negative)
    {
      if i < |h| {
        assert g[i] == h[i] && g[..i] == h[..i];
        assert Spaced(h, i, positive, negative);
      } else {
        assert g[..i] == h;
      }
    }
  }

  lemma {:induction false} OneLookup(h: seq<Lookup>, x: Lookup, from: nat)
    requires from <= |h|
    ensures forall n :: Latest(h + [x], n) == if n == x.name then Some(x.state) else Latest(h, n)
    ensures forall n :: LookedUpSince(h + [x], from, n) <==> LookedUpSince(h, from, n) || n == x.name
  {
    forall n
      ensures Latest(h + [x], n) == if n == x.name then Some(x.state) else Latest(h, n)
      ensures LookedUpSince(h + [x], from, n) <==> LookedUpSince(h, from, n) || n == x.name
    {
      LatestSnoc(h, x, n);
      SinceSnoc(h, x, from, n);
    }
  }

  /** Nothing but names looked up since `from` has changed. */
  predicate OnlyLookedUp(before: map<string, HostState>, hosts: map<string, HostState>, h: seq<Lookup>, from: nat) {
    forall name :: name in hosts && !LookedUpSince(h, from, name) ==> name in before && hosts[name] == before[name]
  }

  lemma {:induction false} LookedUpKeeps(
    before: map<string, HostState>, hosts: map<string, HostState>, h: seq<Lookup>, x: Lookup, from: nat)
    requires from <= |h| && OnlyLookedUp(before, hosts, h, from)
    ensures OnlyLookedUp(before, hosts[x.name := x.state], h + [x], from)
  {
    OneLookup(h, x, from);
  }

  /** The names without an address, in order. */
  function Unresolved(hosts: map<string, HostState>, names: seq<string>): seq<string>
    decreases |names|
  {
    if names == [] then []
    else
      var last := names[|names| - 1];
      Unresolved(hosts, names[..|names| - 1]) + if last in hosts && hosts[last].addresses != [] then [] else [last]
  }

  lemma {:induction false} UnresolvedMembers(hosts: map<string, HostState>, names: seq<string>, name: string)
    ensures name in Unresolved(hosts, names) <==> name in names && (name in hosts ==> hosts[name].addresses == [])
    decreases |names|
  {
    if names != [] {
      UnresolvedMembers(hosts, names[..|names| - 1], name);
      assert names == names[..|names| - 1] + [names[|names| - 1]];
    }
  }

  /** The map holds the latest lookup of each of its names. */
  predicate HoldsLatest(hosts: map<string, HostState>, history: seq<Lookup>, now: Time) {
    forall name :: name in hosts ==> Latest(history, name) == Some(hosts[name]) && hosts[name].attemptedAt <= now
  }

  lemma {:induction false} LatestKept(hosts: map<string, HostState>, history: seq<Lookup>, now: Time, x: Lookup)
    requires HoldsLatest(hosts, history, now) && now <= x.state.attemptedAt
    ensures HoldsLatest(hosts[x.name := x.state], history + [x], x.state.attemptedAt)
  {
    forall n | n in hosts[x.name := x.state]
      ensures Latest(history + [x], n) == Some(hosts[x.name := x.state][n])
    {
      LatestSnoc(history, x, n);
    }
  }

  class TrustedProxies {
    const networks: seq<Network>
    const hostnames: seq<string>
    const positiveTtl: nat
    const negativeTtl: nat
    const resolver: nat -> Answer

    var hosts: map<string, HostState>
    var snapshot: seq<Network>
    var built: bool
    var now: Time

    /** The finished lookups, and how many of them there were when the snapshot was last rebuilt. */
    var history: seq<Lookup>
    var builtAt: nat

    function Ttl(s: HostState): nat {
      TtlOf(s, positiveTtl, negativeTtl)
    }

    predicate Fresh(s: HostState)
      reads this
    {
      (if now >= s.attemptedAt then now - s.attemptedAt else 0) < Ttl(s)
    }

    predicate HasFresh(name: string)
      reads this
    {
      name in hosts && Fresh(hosts[name])
    }

    predicate AllFresh()
      reads this
    {
      forall name :: name in hostnames ==> HasFresh(name)
    }

    /** The map holds each name's latest lookup, every lookup made was due, and it holds what the resolver
        answered. */
    ghost predicate Recorded()
      reads this
    {
      && HoldsLatest(hosts, history, now)
      && (forall i :: 0 <= i < |history| ==> Spaced(history, i, positiveTtl, negativeTtl))
      && (forall i :: 0 <= i < |history| ==> history[i].state.addresses == resolver(i).addresses)
    }

    /** Outside the lock: no configured name that was ever looked up is missing, and a built snapshot is the
        literal networks followed by each name's latest answer as of the last rebuild. Lookups finished
        since then belong to abandoned refreshes, which leave a name that is not fresh. */
    ghost predicate Valid()
      reads this
    {
      && Recorded()
      && (forall name :: name in hostnames && Latest(history, name).Some? ==> name in hosts)
      && (built ==>
            && builtAt <= |history|
            && (forall name :: name in hostnames ==> name in hosts)
            && snapshot == networks + LatestAnswers(history[..builtAt], hostnames)
            && (AllFresh() ==> builtAt == |history|))
    }

    constructor (networks: seq<Network>, hostnames: seq<string>, positiveTtl: nat, negativeTtl: nat, resolver: nat -> Answer)
      ensures Valid() && this.networks == networks && this.hostnames == hostnames
      ensures this.positiveTtl == positiveTtl && this.negativeTtl == negativeTtl && this.resolver == resolver
      ensures !built && history == []
    {
      this.networks, this.hostnames := networks, hostnames;
      this.positiveTtl, this.negativeTtl, this.resolver := positiveTtl, negativeTtl, resolver;
      hosts, snapshot, built, now, history, builtAt := map[], [], false, 0, [], 0;
    }

    method Wait(ticks: nat)
      requires Valid()
      modifies this`now
      ensures Valid() && now == old(now) + ticks
    {
      now := now + ticks;
    }

    /** One name: reuse its last attempt while that is fresh, look it up otherwise. */
    method RefreshName(name: string, forced: bool)
      requires Recorded()
      requires name in hosts || forced || Latest(history, name).None?
      modifies this`hosts, this`now, this`history
      ensures Recorded()
      ensures |history| == |old(history)| <==>
                && name in old(hosts)
                && (old(hosts)[name].addresses != [] ==> old(now) < old(hosts)[name].attemptedAt + positiveTtl)
                && (old(hosts)[name].addresses == [] ==> old(now) < old(hosts)[name].attemptedAt + negativeTtl)
      ensures old(HasFresh(name)) ==> hosts == old(hosts) && history == old(history) && now == old(now)
      ensures !old(HasFresh(name)) ==>
                && |history| == |old(history)| + 1
                && now == old(now) + resolver(|old(history)|).took
                && history[|old(history)|].state == HostState(resolver(|old(history)|).addresses, now)
                && history == old(history) + [history[|old(history)|]]
                && history[|old(history)|].name == name && history[|old(history)|].startedAt == old(now)
                && history[|old(history)|].forced == forced
                && hosts == old(hosts)[name := history[|old(history)|].state]
      ensures old(now) <= now && name in hosts
    {
      if name in hosts && Fresh(hosts[name]) {
        return;
      }
      var startedAt := now;
      var answer := resolver(|history|);
      now := now + answer.took;
      var x := Lookup(name, startedAt, HostState(answer.addresses, now), forced);
      SpacedSnoc(history, x, positiveTtl, negativeTtl);
      LatestKept(hosts, history, startedAt, x);
      hosts := hosts[name := x.state];
      history := history + [x];
    }

    /** Nothing a refresh could need to look up has been forgotten. */
    ghost predicate Complete(forced: bool)
      reads this
    {
      forall name :: name in hostnames ==> name in hosts || forced || Latest(history, name).None?
    }

    method Merge() returns (merged: seq<Network>)
      ensures merged == networks + Resolved(hosts, hostnames)
    {
      merged := networks;
      for k := 0 to |hostnames|
        invariant merged == networks + Resolved(hosts, hostnames[..k])
      {
        assert hostnames[..k + 1][..k] == hostnames[..k];
        if hostnames[k] in hosts {
          merged := merged + hosts[hostnames[k]].addresses;
        }
      }
      assert hostnames[..|hostnames|] == hostnames;
    }

    /** One name of the list, and what stays true of the others: `before` is the map at the start of the
        refresh and `from` the number of lookups made by then. */
    method RefreshNext(name: string, forced: bool, ghost before: map<string, HostState>, ghost from: nat)
      requires Recorded() && Complete(forced) && name in hostnames
      requires from <= |history| && OnlyLookedUp(before, hosts, history, from)
      modifies this`hosts, this`now, this`history
      ensures Recorded() && Complete(forced) && old(now) <= now
      ensures name in hosts && forall n :: n in old(hosts) ==> n in hosts
      ensures from <= |history| && OnlyLookedUp(before, hosts, history, from)
      ensures |history| <= |old(history)| + 1 && Extends(history, old(history), forced, [name])
      ensures forall n :: LookedUpSince(old(history), from, n) ==> LookedUpSince(history, from, n)
      ensures if old(HasFresh(name)) then hosts == old(hosts) && history == old(history) && now == old(now)
              else LookedUpSince(history, from, name)
    {
      ghost var h, was := history, hosts;
      RefreshName(name, forced);
      if |h| < |history| {
        OneLookup(h, history[|h|], from);
        LookedUpKeeps(before, was, h, history[|h|], from);
      }
    }

    /** The same for a request that waits for `patience` lookups in all, and goes away `into` the next one. */
    method RefreshOrStall(name: string, forced: bool, patience: nat, into: nat, ghost before: map<string, HostState>, from: nat)
      returns (stalled: bool)
      requires Recorded() && Complete(forced) && name in hostnames
      requires from <= |history| <= from + patience && OnlyLookedUp(before, hosts, history, from)
      modifies this`hosts, this`now, this`history
      ensures Recorded() && Complete(forced) && old(now) <= now
      ensures forall n :: n in old(hosts) ==> n in hosts
      ensures OnlyLookedUp(before, hosts, history, from)
      ensures |old(history)| <= |history| <= |old(history)| + 1 && |history| <= from + patience
      ensures Extends(history, old(history), forced, hostnames)
      ensures forall n :: LookedUpSince(old(history), from, n) ==> LookedUpSince(history, from, n)
      ensures old(HasFresh(name)) ==> hosts == old(hosts) && history == old(history) && now == old(now) && !stalled
      ensures !stalled ==> name in hosts && (old(HasFresh(name)) || LookedUpSince(history, from, name))
      ensures stalled ==> |history| == from + patience == |old(history)| && !HasFresh(name)
      ensures stalled ==> hosts == old(hosts) && now == old(now) + into
    {
      stalled := !HasFresh(name) && |history| == from + patience;
      if stalled {
        now := now + into;
      } else {
        RefreshNext(name, forced, before, from);
      }
    }

    /** Looks up, in order, every name whose last attempt has expired or which was never tried. The request
        goes away, if it has to wait for more than `patience` lookups, `into` the next of them. */
    method RefreshAll(forced: bool, patience: nat, into: nat) returns (finished: bool)
      requires Recorded() && Complete(forced)
      modifies this`hosts, this`now, this`history
      ensures Recorded() && Complete(forced)
      ensures Extends(history, old(history), forced, hostnames) && |history| <= |old(history)| + patience
      ensures old(AllFresh()) ==> finished && hosts == old(hosts) && history == old(history) && now == old(now)
      ensures finished ==>
                && (forall name :: name in hostnames ==> name in hosts)
                && forall name :: name in hostnames && !old(HasFresh(name)) ==> LookedUpSince(history, |old(history)|, name)
      ensures !finished ==> |history| == |old(history)| + patience && patience < |hostnames| && !AllFresh()
      ensures forall name :: name in old(hosts) ==> name in hosts
    {
      var from := |history|;
      for k := 0 to |hostnames|
        invariant Recorded() && Complete(forced)
        invariant forall j :: 0 <= j < k ==> hostnames[j] in hosts
        invariant forall name :: name in old(hosts) ==> name in hosts
        invariant old(AllFresh()) ==> hosts == old(hosts) && history == old(history) && now == old(now)
        invariant from <= |history| <= from + k && |history| <= from + patience
        invariant old(now) <= now && Extends(history, old(history), forced, hostnames)
        invariant OnlyLookedUp(old(hosts), hosts, history, from)
        invariant forall j :: 0 <= j < k && !old(HasFresh(hostnames[j])) ==> LookedUpSince(history, from, hostnames[j])
      {
        assert hostnames[k] in hostnames;
        var stalled := RefreshOrStall(hostnames[k], forced, patience, into, old(hosts), from);
        if stalled {
          return false;
        }
      }
      return true;
    }

    /** Re-resolves every name whose last attempt has expired, then rebuilds the snapshot. An abandoned
        refresh keeps the answers it got and leaves the snapshot as it was. */
    method RefreshLocked(forced: bool, patience: nat, into: nat) returns (finished: bool)
      requires if forced then Recorded() && |hostnames| <= patience else Valid()
      modifies this
      ensures Valid()
      ensures finished ==> built && builtAt == |history| && snapshot == networks + Resolved(hosts, hostnames)
      ensures !finished ==>
                && |history| == |old(history)| + patience && patience < |hostnames| && !AllFresh()
                && snapshot == old(snapshot) && built == old(built) && builtAt == old(builtAt)
      ensures |history| <= |old(history)| + patience
      ensures Extends(history, old(history), forced, hostnames)
      ensures old(AllFresh()) ==> finished && hosts == old(hosts) && history == old(history) && now == old(now)
      ensures finished ==>
                forall name :: name in hostnames && !old(HasFresh(name)) ==> LookedUpSince(history, |old(history)|, name)
    {
      finished := RefreshAll(forced, patience, into);
      if finished {
        var merged := Merge();
        LatestAgree(hostnames);
        snapshot, built, builtAt := merged, true, |history|;
        assert history[..builtAt] == history;
      } else if built {
        assert history[..builtAt] == old(history)[..builtAt];
      }
    }

    /** The read-locked path: a hit serves the snapshot and touches nothing. */
    method ReadPath() returns (hit: Option<seq<Network>>)
      requires Valid()
      ensures hit.Some? <==> built && AllFresh()
      ensures hit.Some? ==> hit.value == networks + Resolved(hosts, hostnames)
    {
      if built && (forall name | name in hostnames :: HasFresh(name)) {
        SnapshotIsLatest();
        LatestAgree(hostnames);
        return Some(snapshot);
      }
      return None;
    }

    /** The write-locked path, which answers unless the request goes away while it waits. When nothing has
        expired it looks nothing up and gives what a hit gives. */
    method WritePath(patience: nat, into: nat) returns (r: Option<seq<Network>>)
      requires Valid()
      modifies this
      ensures Valid()
      ensures r.Some? ==> built && builtAt == |history| && r.value == networks + Resolved(hosts, hostnames)
      ensures r.Some? ==>
                forall name :: name in hostnames && !old(HasFresh(name)) ==> LookedUpSince(history, |old(history)|, name)
      ensures r.None? ==>
                && |history| == |old(history)| + patience && patience < |hostnames| && !AllFresh()
                && snapshot == old(snapshot) && built == old(built) && builtAt == old(builtAt)
      ensures |history| <= |old(history)| + patience
      ensures Extends(history, old(history), false, hostnames)
      ensures old(AllFresh()) ==> r == Some(networks + Resolved(old(hosts), hostnames)) && history == old(history)
    {
      var finished := RefreshLocked(false, patience, into);
      return if finished then Some(snapshot) else None;
    }

    /** The networks to match a request against. Other requests may run between the two locks; `gap` is the
        time that takes when nothing else intervenes. A request that goes away at a lock has done nothing. */
    method Networks(gap: nat, patience: nat, into: nat) returns (r: Option<seq<Network>>)
      requires Valid()
      modifies this
      ensures Valid()
      ensures r.Some? ==> r.value == networks + Resolved(hosts, hostnames)
      ensures r.Some? && hostnames != [] ==> built && builtAt == |history|
      ensures r.Some? ==>
                forall name :: name in hostnames && !old(HasFresh(name)) ==> LookedUpSince(history, |old(history)|, name)
      ensures r.None? ==>
                && |history| == |old(history)| + patience && patience < |hostnames| && !AllFresh()
                && snapshot == old(snapshot) && built == old(built) && builtAt == old(builtAt)
      ensures |history| <= |old(history)| + patience
      ensures Extends(history, old(history), false, hostnames)
      ensures old(built && AllFresh()) || hostnames == [] ==> r.Some? && history == old(history) && hosts == old(hosts)
    {
      if hostnames == [] {
        return Some(networks);
      }
      var hit := ReadPath();
      if hit.Some? {
        return hit;
      }
      Wait(gap);
      r := WritePath(patience, into);
    }

    /** The names without an address, in order. */
    method Report() returns (failed: seq<string>)
      ensures failed == Unresolved(hosts, hostnames)
    {
      failed := [];
      for k := 0 to |hostnames|
        invariant failed == Unresolved(hosts, hostnames[..k])
      {
        assert hostnames[..k + 1][..k] == hostnames[..k];
        if !(hostnames[k] in hosts && hosts[hostnames[k]].addresses != []) {
          failed := failed + [hostnames[k]];
        }
      }
      assert hostnames[..|hostnames|] == hostnames;
    }

    /** Boot: forget everything, resolve every name, and report those without an address. It runs by itself,
        so nothing abandons it. */
    method Prime() returns (failed: seq<string>)
      requires Valid()
      modifies this
      ensures Valid() && (hostnames != [] ==> built && builtAt == |history|)
      ensures Extends(history, old(history), true, hostnames)
      ensures forall name :: name in hostnames ==> LookedUpSince(history, |old(history)|, name)
      ensures failed == Unresolved(hosts, hostnames)
    {
      if hostnames == [] {
        return [];
      }
      hosts := map[];
      var _ := RefreshLocked(true, |hostnames|, 0);
      failed := Report();
    }

    /** In terms of lookups alone: a snapshot that can be served is the literal networks followed by the
        latest answer for each name. */
    lemma {:induction false} SnapshotIsLatest()
      requires Valid() && built && AllFresh()
      ensures snapshot == networks + LatestAnswers(history, hostnames)
    {
      assert history[..|history|] == history;
    }

    /** Which networks the stored snapshot has wrong: exactly those, not literal, that some name had when the
        snapshot was last rebuilt and none has by the latest answers, or the other way round. Then an
        abandoned refresh has stored an answer since, and left a name that is not fresh. */
    lemma {:induction false} SnapshotLagsIff(n: Network)
      requires Valid() && built
      ensures (n in snapshot) != (n in networks + LatestAnswers(history, hostnames)) <==>
              n !in networks && Answered(history[..builtAt], hostnames, n) != Answered(history, hostnames, n)
      ensures (n in snapshot) != (n in networks + LatestAnswers(history, hostnames)) ==> builtAt < |history| && !AllFresh()
    {
      AnswersMembers(history[..builtAt], hostnames, n);
      AnswersMembers(history, hostnames, n);
      if builtAt == |history| {
        assert history[..builtAt] == history;
      }
    }

    /** A network that only the one lookup since the last rebuild has answered is missing from the snapshot. */
    lemma {:induction false} NewAnswerLags(n: Network)
      requires Valid() && built && builtAt + 1 == |history|
      requires n !in networks && history[builtAt].name in hostnames && n in history[builtAt].state.addresses
      requires forall i :: 0 <= i < builtAt ==> n !in history[i].state.addresses
      ensures n !in snapshot && n in networks + LatestAnswers(history, hostnames)
    {
      assert Latest(history, history[builtAt].name) == Some(history[builtAt].state);
      AnswersMembers(history, hostnames, n);
      AnswersMembers(history[..builtAt], hostnames, n);
      forall name | Latest(history[..builtAt], name).Some?
        ensures n !in Latest(history[..builtAt], name).value.addresses
      {
        var i := LatestIsSome(history[..builtAt], name);
      }
    }

    lemma {:induction false} RotatingAnswers()
      requires Recorded() && resolver == ROTATING && |history| <= 3
      ensures forall i :: 0 <= i < |history| ==> history[i].state.addresses == [Block(V4, i, 32)]
    {
      forall i | 0 <= i < |history|
        ensures history[i].state.addresses == [Block(V4, i, 32)]
      {
        assert history[i].state.addresses == ROTATING(i).addresses;
      }
    }

    /** Between two lookups of a name with none in between, the later not forced: at least the positive time
        to live after an answer with addresses, and at least the negative one after an answer without. */
    lemma {:induction false} LookupsApart(i: nat, j: nat)
      requires Recorded() && i < j < |history| && history[j].name == history[i].name && !history[j].forced
      requires forall k :: i < k < j ==> history[k].name != history[i].name
      ensures history[i].state.addresses != [] ==> history[j].startedAt >= history[i].state.attemptedAt + positiveTtl
      ensures history[i].state.addresses == [] ==> history[j].startedAt >= history[i].state.attemptedAt + negativeTtl
    {
      LatestIs(history[..j], i);
      assert Spaced(history, j, positiveTtl, negativeTtl);
    }

    lemma {:induction false} LatestAgree(names: seq<string>)
      requires Recorded() && forall name :: name in names ==> name in hosts
      ensures Resolved(hosts, names) == LatestAnswers(history, names)
      decreases |names|
    {
      if names != [] {
        assert names[|names| - 1] in names;
        LatestAgree(names[..|names| - 1]);
      }
    }
  }

  /** Some name's latest answer holds the network. */
  predicate Answered(history: seq<Lookup>, names: seq<string>, n: Network) {
    exists name :: name in names && Latest(history, name).Some? && n in Latest(history, name).value.addresses
  }

  lemma {:induction false} AnswersMembers(history: seq<Lookup>, names: seq<string>, n: Network)
    ensures n in LatestAnswers(history, names) <==> Answered(history, names, n)
    decreases |names|
  {
    if names != [] {
      AnswersMembers(history, names[..|names| - 1], n);
      assert names == names[..|names| - 1] + [names[|names| - 1]];
    }
  }

  lemma {:induction false} LatestIsSome(history: seq<Lookup>, name: string) returns (i: nat)
    requires Latest(history, name).Some?
    ensures i < |history| && history[i].name == name && history[i].state == Latest(history, name).value
    decreases |history|
  {
    i := |history| - 1;
    if history[i].name != name {
      i := LatestIsSome(history[..i], name);
    }
  }

  lemma {:induction false} LatestIs(history: seq<Lookup>, i: nat)
    requires i < |history| && forall k :: i < k < |history| ==> history[k].name != history[i].name
    ensures Latest(history, history[i].name) == Some(history[i].state)
    decreases |history|
  {
    if i < |history| - 1 {
      LatestIs(history[..|history| - 1], i);
    }
  }

  /** A resolver that does not repeat itself soon. */
  const ROTATING: nat -> Answer := i => Answer([Block(V4, i % 0x1_0000_0000, 32)], 0)

  /** Two names need two lookups. */
  lemma {:induction false} TwoLookups(h: seq<Lookup>, from: nat, a: string, b: string)
    requires a != b && LookedUpSince(h, from, a) && LookedUpSince(h, from, b)
    ensures |h| >= from + 2
  {
  }

  /** When two names have expired and the next answer holds a new network, a request that waits for one
      lookup only leaves the snapshot without it. */
  method AbandonedRefreshLags(p: TrustedProxies, a: string, b: string, n: Network)
    requires p.Valid() && p.built && p.builtAt == |p.history|
    requires a != b && a in p.hostnames && b in p.hostnames && !p.HasFresh(a) && !p.HasFresh(b)
    requires n in p.resolver(|p.history|).addresses && n !in p.networks
    requires forall i :: 0 <= i < |p.history| ==> n !in p.history[i].state.addresses
    modifies p
    ensures p.Valid() && p.built && p.builtAt < |p.history|
    ensures n !in p.snapshot && n in p.networks + LatestAnswers(p.history, p.hostnames)
  {
    ghost var from := |p.history|;
    var r := p.Networks(0, 1, 0);
    if r.Some? {
      TwoLookups(p.history, from, a, b);
      assert false;
    }
    p.NewAnswerLags(n);
  }

  /** Two names, both resolved once, both expired. */
  method TwoExpired(a: string, b: string) returns (p: TrustedProxies)
    ensures fresh(p) && p.Valid() && p.built && p.builtAt == |p.history| <= 2
    ensures p.networks == [] && p.hostnames == [a, b] && p.resolver == ROTATING
    ensures !p.HasFresh(a) && !p.HasFresh(b)
  {
    p := new TrustedProxies([], [a, b], 1, 1, ROTATING);
    assert p.hostnames[0] == a && p.hostnames[1] == b;
    var _ := p.Networks(0, 2, 0);
    p.Wait(1);
  }

  /** Such a state does arise. */
  method SnapshotCanLag() returns (p: TrustedProxies, n: Network)
    ensures p.Valid() && p.built
    ensures n !in p.snapshot && n in p.networks + LatestAnswers(p.history, p.hostnames)
  {
    var a, b := "a", "b";
    p := TwoExpired(a, b);
    n := Block(V4, |p.history|, 32);
    p.RotatingAnswers();
    AbandonedRefreshLags(p, a, b, n);
  }

  function LatestAnswers(history: seq<Lookup>, names: seq<string>): seq<Network>
    decreases |names|
  {
    if names == [] then []
    else
      var last := Latest(history, names[|names| - 1]);
      LatestAnswers(history, names[..|names| - 1]) + if last.Some? then last.value.addresses else []
  }
}
