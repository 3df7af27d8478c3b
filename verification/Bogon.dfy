/**
 CIDR blocks as integers with a prefix length, and the reserved-range filter built on them.

 A block keeps the address it was written with, host bits included; an address is in the block
 exactly when the two agree on the prefix bits (RFC 4632 section 3.1).
 */
module Cidr {
  import opened Arithmetic

  datatype Family = V4 | V6

  function Width(f: Family): nat {
    match f
    case V4 => 32
    case V6 => 128
  }

  /** One more than the largest address of the family. */
  function Limit(f: Family): nat {
    match f
    case V4 => 0x1_0000_0000
    case V6 => 0x1_0000_0000_0000_0000_0000_0000_0000_0000
  }

  datatype Addr = Addr(family: Family, bits: nat)

  datatype Block = Block(family: Family, ip: nat, prefix: nat)

  predicate ValidBlock(b: Block) {
    b.prefix <= Width(b.family) && b.ip < Limit(b.family)
  }

  type Network = b: Block | ValidBlock(b) witness Block(V4, 0, 0)

  predicate ValidAddr(x: Addr) {
    x.bits < Limit(x.family)
  }

  /** `x` without its `n` low bits. */
  function High(x: nat, n: nat): nat
    decreases n
  {
    if n == 0 then x else High(x / 2, n - 1)
  }

  /** The masked addresses agree, in the same family. */
  predicate Contains(b: Block, x: Addr)
    requires b.prefix <= Width(b.family)
  {
    var host := Width(b.family) - b.prefix;
    x.family == b.family && High(x.bits, host) == High(b.ip, host)
  }

  predicate Overlaps(a: Block, b: Block)
    requires a.prefix <= Width(a.family) && b.prefix <= Width(b.family)
  {
    Contains(a, Addr(b.family, b.ip)) || Contains(b, Addr(a.family, a.ip))
  }

  lemma {:induction false} HighHigh(x: nat, m: nat, n: nat)
    ensures High(x, m + n) == High(High(x, m), n)
    decreases m
  {
    if m > 0 {
      HighHigh(x / 2, m - 1, n);
    }
  }

  lemma {:induction false} HighIsQuotient(x: nat, n: nat)
    ensures High(x, n) == x / Pow2(n)
    decreases n
  {
    if n > 0 {
      HighIsQuotient(x / 2, n - 1);
      HalfThenDivide(x, Pow2(n - 1));
    }
  }

  /** How many addresses the host bits count. */
  function Size(b: Block): nat
    requires b.prefix <= Width(b.family)
  {
    Pow2(match b.family case V4 => 32 - b.prefix case V6 => 128 - b.prefix)
  }

  /** The address with its host bits cleared. */
  function Base(b: Block): int
    requires b.prefix <= Width(b.family)
  {
    b.ip / Size(b) * Size(b)
  }

  /** A block holds, of its own family, exactly the addresses from its masked base on, as many as its host
      bits can count (RFC 4632 section 3.1). */
  lemma {:induction false} ContainsIsRange(b: Block, x: Addr)
    requires b.prefix <= Width(b.family)
    ensures Contains(b, x) <==> x.family == b.family && Base(b) <= x.bits < Base(b) + Size(b)
  {
    var host := Width(b.family) - b.prefix;
    HighIsQuotient(x.bits, host);
    HighIsQuotient(b.ip, host);
    SameQuotient(x.bits, b.ip, Size(b));
  }

  /** Agreeing in the narrower block implies agreeing in the wider one: blocks nest. */
  lemma {:induction false} Widen(wide: Block, narrow: Block, x: nat)
    requires ValidBlock(wide) && ValidBlock(narrow)
    requires wide.family == narrow.family && wide.prefix <= narrow.prefix
    requires Contains(narrow, Addr(narrow.family, x))
    ensures High(x, Width(wide.family) - wide.prefix) == High(narrow.ip, Width(wide.family) - wide.prefix)
  {
    var m, n := Width(narrow.family) - narrow.prefix, narrow.prefix - wide.prefix;
    HighHigh(x, m, n);
    HighHigh(narrow.ip, m, n);
  }

  /** Comparing base addresses both ways decides exactly whether two blocks share an address. */
  lemma {:induction false} OverlapsIffShared(a: Block, b: Block)
    requires ValidBlock(a) && ValidBlock(b)
    ensures Overlaps(a, b) <==> exists x :: ValidAddr(x) && Contains(a, x) && Contains(b, x)
  {
    var ia, ib := Addr(a.family, a.ip), Addr(b.family, b.ip);
    if Contains(a, ib) {
      assert ValidAddr(ib) && Contains(b, ib);
    }
    if Contains(b, ia) {
      assert ValidAddr(ia) && Contains(a, ia);
    }
    forall x | ValidAddr(x) && Contains(a, x) && Contains(b, x)
      ensures Overlaps(a, b)
    {
      if a.prefix <= b.prefix {
        Widen(a, b, x.bits);
      } else {
        Widen(b, a, x.bits);
      }
    }
  }

  /** Two blocks are nested or disjoint. */
  lemma {:induction false} NestedOrDisjoint(a: Block, b: Block, x: Addr)
    requires ValidBlock(a) && ValidBlock(b) && a.family == b.family && a.prefix <= b.prefix
    requires Overlaps(a, b) && Contains(b, x)
    ensures Contains(a, x)
  {
    Widen(a, b, x.bits);
    if !Contains(a, Addr(b.family, b.ip)) {
      Widen(a, b, a.ip);
    }
  }
}

module Bogon {
  import opened Arithmetic
  import opened Optional
  import opened Cidr
  import opened RemoteVault

  function Quad(a: nat, b: nat, c: nat, d: nat): nat {
    ((a * 256 + b) * 256 + c) * 256 + d
  }

  const RFC1918: seq<Block> := [
    Block(V4, Quad(10, 0, 0, 0), 8), Block(V4, Quad(172, 16, 0, 0), 12), Block(V4, Quad(192, 168, 0, 0), 16)]

  const LOOPBACK: seq<Block> := [Block(V4, Quad(127, 0, 0, 0), 8), Block(V6, 1, 128)]

  const OTHER_LOW: seq<Block> := [
    Block(V4, Quad(0, 0, 0, 0), 8),
    Block(V4, Quad(100, 64, 0, 0), 10),
    Block(V4, Quad(169, 254, 0, 0), 16),
    Block(V4, Quad(192, 0, 0, 0), 24),
    Block(V4, Quad(192, 0, 2, 0), 24)]

  const OTHER_HIGH: seq<Block> := [
    Block(V4, Quad(192, 88, 99, 0), 24),
    Block(V4, Quad(198, 18, 0, 0), 15),
    Block(V4, Quad(198, 51, 100, 0), 24),
    Block(V4, Quad(203, 0, 113, 0), 24)]

  const OTHER_TOP: seq<Block> := [
    Block(V4, Quad(224, 0, 0, 0), 4),
    Block(V4, Quad(240, 0, 0, 0), 4),
    Block(V4, Quad(255, 255, 255, 255), 32)]

  const OTHER_V6: seq<Block> := [
    Block(V6, 0, 128),
    Block(V6, 0xFFFF_0000_0000, 96),
    Block(V6, 0x0100_0000_0000_0000_0000_0000_0000_0000, 64),
    Block(V6, 0x2001_0db8_0000_0000_0000_0000_0000_0000, 32)]

  const OTHER_TOP_V6: seq<Block> := [
    Block(V6, 0xfc00_0000_0000_0000_0000_0000_0000_0000, 7),
    Block(V6, 0xfe80_0000_0000_0000_0000_0000_0000_0000, 10),
    Block(V6, 0xff00_0000_0000_0000_0000_0000_0000_0000, 8)]

  const RESERVED: seq<Block> := RFC1918 + LOOPBACK + OTHER_LOW + OTHER_HIGH + OTHER_TOP + OTHER_V6 + OTHER_TOP_V6

  lemma {:induction false} ReservedIsValid()
    ensures forall r :: r in RESERVED ==> ValidBlock(r)
  {
  }

  /** The reserved IPv4 ranges, end to end. */
  predicate ReservedV4(v: nat) {
    || v <= 0x00FF_FFFF                    // 0.0.0.0 - 0.255.255.255
    || 0x0A00_0000 <= v <= 0x0AFF_FFFF     // 10.0.0.0 - 10.255.255.255
    || 0x6440_0000 <= v <= 0x647F_FFFF     // 100.64.0.0 - 100.127.255.255
    || 0x7F00_0000 <= v <= 0x7FFF_FFFF     // 127.0.0.0 - 127.255.255.255
    || 0xA9FE_0000 <= v <= 0xA9FE_FFFF     // 169.254.0.0 - 169.254.255.255
    || 0xAC10_0000 <= v <= 0xAC1F_FFFF     // 172.16.0.0 - 172.31.255.255
    || 0xC000_0000 <= v <= 0xC000_00FF     // 192.0.0.0 - 192.0.0.255
    || 0xC000_0200 <= v <= 0xC000_02FF     // 192.0.2.0 - 192.0.2.255
    || 0xC058_6300 <= v <= 0xC058_63FF     // 192.88.99.0 - 192.88.99.255
    || 0xC0A8_0000 <= v <= 0xC0A8_FFFF     // 192.168.0.0 - 192.168.255.255
    || 0xC612_0000 <= v <= 0xC613_FFFF     // 198.18.0.0 - 198.19.255.255
    || 0xC633_6400 <= v <= 0xC633_64FF     // 198.51.100.0 - 198.51.100.255
    || 0xCB00_7100 <= v <= 0xCB00_71FF     // 203.0.113.0 - 203.0.113.255
    || 0xE000_0000 <= v <= 0xFFFF_FFFF     // 224.0.0.0 - 255.255.255.255
  }

  /** The reserved IPv6 ranges, end to end. */
  predicate ReservedV6(v: nat) {
    || v <= 1                                                                                             // ::, ::1
    || 0xFFFF_0000_0000 <= v <= 0xFFFF_FFFF_FFFF                                                          // ::ffff:0:0/96
    || 0x0100_0000_0000_0000_0000_0000_0000_0000 <= v <= 0x0100_0000_0000_0000_FFFF_FFFF_FFFF_FFFF        // 100::/64
    || 0x2001_0DB8_0000_0000_0000_0000_0000_0000 <= v <= 0x2001_0DB8_FFFF_FFFF_FFFF_FFFF_FFFF_FFFF        // 2001:db8::/32
    || 0xFC00_0000_0000_0000_0000_0000_0000_0000 <= v <= 0xFDFF_FFFF_FFFF_FFFF_FFFF_FFFF_FFFF_FFFF        // fc00::/7
    || 0xFE80_0000_0000_0000_0000_0000_0000_0000 <= v <= 0xFEBF_FFFF_FFFF_FFFF_FFFF_FFFF_FFFF_FFFF        // fe80::/10
    || 0xFF00_0000_0000_0000_0000_0000_0000_0000 <= v <= 0xFFFF_FFFF_FFFF_FFFF_FFFF_FFFF_FFFF_FFFF        // ff00::/8
  }

  predicate Reserved(x: Addr) {
    match x.family
    case V4 => ReservedV4(x.bits)
    case V6 => ReservedV6(x.bits)
  }

  predicate IsBogon(b: Network) {
    Touches(b, RESERVED)
  }

  /** The block overlaps some block of the table. */
  predicate Touches(b: Network, table: seq<Block>) {
    exists r :: r in table && ValidBlock(r) && Overlaps(b, r)
  }

  ghost predicate InReserved(x: Addr) {
    exists r :: r in RESERVED && ValidBlock(r) && Contains(r, x)
  }

  /** A candidate is refused exactly when some address of it lies in a reserved range. */
  lemma {:induction false} BogonIffTouchesReserved(b: Network)
    ensures IsBogon(b) <==> exists x :: ValidAddr(x) && Contains(b, x) && InReserved(x)
  {
    ReservedIsValid();
    if IsBogon(b) {
      var r :| r in RESERVED && ValidBlock(r) && Overlaps(b, r);
      OverlapsIffShared(b, r);
      var x :| ValidAddr(x) && Contains(b, x) && Contains(r, x);
      assert InReserved(x);
    }
    forall x | ValidAddr(x) && Contains(b, x) && InReserved(x)
      ensures IsBogon(b)
    {
      var r :| r in RESERVED && ValidBlock(r) && Contains(r, x);
      OverlapsIffShared(b, r);
    }
  }

  /** A block written with a clean base is the range that starts there. */
  lemma {:induction false} BlockIsRange(b: Block, host: nat, size: nat, x: Addr)
    requires b.prefix <= Width(b.family) && host == Width(b.family) - b.prefix
    requires size == Pow2(host) && b.ip % size == 0
    ensures Contains(b, x) <==> x.family == b.family && b.ip <= x.bits < b.ip + size
  {
    ContainsIsRange(b, x);
    assert b.ip / size * size == b.ip;
  }

  lemma {:induction false} Powers()
    ensures Pow2(0) == 1 && Pow2(8) == 0x100 && Pow2(16) == 0x1_0000 && Pow2(17) == 0x2_0000
    ensures Pow2(20) == 0x10_0000 && Pow2(22) == 0x40_0000 && Pow2(24) == 0x100_0000 && Pow2(28) == 0x1000_0000
  {
    assert Pow2(4) == 16;
    assert Pow2(12) == 0x1000;
  }

  lemma {:induction false} LongPowers()
    ensures Pow2(32) == 0x1_0000_0000 && Pow2(64) == 0x1_0000_0000_0000_0000
    ensures Pow2(96) == 0x1_0000_0000_0000_0000_0000_0000
  {
    Powers();
    Pow2Add(16, 16);
    Pow2Add(32, 32);
    Pow2Add(64, 32);
  }

  lemma {:induction false} LongestPowers()
    ensures Pow2(118) == 0x40_0000_0000_0000_0000_0000_0000_0000
    ensures Pow2(120) == 0x100_0000_0000_0000_0000_0000_0000_0000
    ensures Pow2(121) == 0x200_0000_0000_0000_0000_0000_0000_0000
  {
    Powers();
    LongPowers();
    Pow2Add(96, 22);
    Pow2Add(96, 24);
  }

  predicate InTable(table: seq<Block>, x: Addr) {
    exists i :: 0 <= i < |table| && ValidBlock(table[i]) && Contains(table[i], x)
  }

  lemma {:induction false} FirstRanges(x: Addr)
    ensures InTable(RFC1918, x) <==>
            x.family.V4? && (|| 0x0A00_0000 <= x.bits <= 0x0AFF_FFFF
                             || 0xAC10_0000 <= x.bits <= 0xAC1F_FFFF
                             || 0xC0A8_0000 <= x.bits <= 0xC0A8_FFFF)
    ensures InTable(LOOPBACK, x) <==>
            (x.family.V4? && 0x7F00_0000 <= x.bits <= 0x7FFF_FFFF) || (x.family.V6? && x.bits == 1)
  {
    Powers();
    BlockIsRange(RFC1918[0], 24, 0x100_0000, x);
    BlockIsRange(RFC1918[1], 20, 0x10_0000, x);
    BlockIsRange(RFC1918[2], 16, 0x1_0000, x);
    BlockIsRange(LOOPBACK[0], 24, 0x100_0000, x);
    BlockIsRange(LOOPBACK[1], 0, 1, x);
  }

  lemma {:induction false} LowRanges(x: Addr)
    ensures InTable(OTHER_LOW, x) <==>
            x.family.V4? && (|| x.bits <= 0x00FF_FFFF
                             || 0x6440_0000 <= x.bits <= 0x647F_FFFF
                             || 0xA9FE_0000 <= x.bits <= 0xA9FE_FFFF
                             || 0xC000_0000 <= x.bits <= 0xC000_00FF
                             || 0xC000_0200 <= x.bits <= 0xC000_02FF)
  {
    Powers();
    BlockIsRange(OTHER_LOW[0], 24, 0x100_0000, x);
    BlockIsRange(OTHER_LOW[1], 22, 0x40_0000, x);
    BlockIsRange(OTHER_LOW[2], 16, 0x1_0000, x);
    BlockIsRange(OTHER_LOW[3], 8, 0x100, x);
    BlockIsRange(OTHER_LOW[4], 8, 0x100, x);
  }

  lemma {:induction false} HighRanges(x: Addr)
    ensures InTable(OTHER_HIGH, x) <==>
            x.family.V4? && (|| 0xC058_6300 <= x.bits <= 0xC058_63FF
                             || 0xC612_0000 <= x.bits <= 0xC613_FFFF
                             || 0xC633_6400 <= x.bits <= 0xC633_64FF
                             || 0xCB00_7100 <= x.bits <= 0xCB00_71FF)
  {
    Powers();
    BlockIsRange(OTHER_HIGH[0], 8, 0x100, x);
    BlockIsRange(OTHER_HIGH[1], 17, 0x2_0000, x);
    BlockIsRange(OTHER_HIGH[2], 8, 0x100, x);
    BlockIsRange(OTHER_HIGH[3], 8, 0x100, x);
  }

  lemma {:induction false} TopRanges(x: Addr)
    ensures InTable(OTHER_TOP, x) <==> x.family.V4? && 0xE000_0000 <= x.bits <= 0xFFFF_FFFF
  {
    Powers();
    BlockIsRange(OTHER_TOP[0], 28, 0x1000_0000, x);
    BlockIsRange(OTHER_TOP[1], 28, 0x1000_0000, x);
    BlockIsRange(OTHER_TOP[2], 0, 1, x);
  }

  lemma {:induction false} MappedRange(x: Addr)
    ensures Contains(OTHER_V6[1], x) <==> x.family.V6? && 0xFFFF_0000_0000 <= x.bits <= 0xFFFF_FFFF_FFFF
  {
    LongPowers();
    BlockIsRange(OTHER_V6[1], 32, 0x1_0000_0000, x);
  }

  lemma {:induction false} DiscardRange(x: Addr)
    ensures Contains(OTHER_V6[2], x) <==>
            x.family.V6? && 0x0100_0000_0000_0000_0000_0000_0000_0000 <= x.bits <= 0x0100_0000_0000_0000_FFFF_FFFF_FFFF_FFFF
  {
    LongPowers();
    BlockIsRange(OTHER_V6[2], 64, 0x1_0000_0000_0000_0000, x);
  }

  lemma {:induction false} DocumentationRange(x: Addr)
    ensures Contains(OTHER_V6[3], x) <==>
            x.family.V6? && 0x2001_0DB8_0000_0000_0000_0000_0000_0000 <= x.bits <= 0x2001_0DB8_FFFF_FFFF_FFFF_FFFF_FFFF_FFFF
  {
    LongPowers();
    BlockIsRange(OTHER_V6[3], 96, 0x1_0000_0000_0000_0000_0000_0000, x);
  }

  lemma {:induction false} RangesV6(x: Addr)
    ensures InTable(OTHER_V6, x) <==>
            x.family.V6? && (|| x.bits == 0
                             || 0xFFFF_0000_0000 <= x.bits <= 0xFFFF_FFFF_FFFF
                             || 0x0100_0000_0000_0000_0000_0000_0000_0000 <= x.bits <= 0x0100_0000_0000_0000_FFFF_FFFF_FFFF_FFFF
                             || 0x2001_0DB8_0000_0000_0000_0000_0000_0000 <= x.bits <= 0x2001_0DB8_FFFF_FFFF_FFFF_FFFF_FFFF_FFFF)
  {
    BlockIsRange(OTHER_V6[0], 0, 1, x);
    MappedRange(x);
    DiscardRange(x);
    DocumentationRange(x);
  }

  lemma {:induction false} TopRangesV6(x: Addr)
    ensures InTable(OTHER_TOP_V6, x) <==>
            x.family.V6? && (|| 0xFC00_0000_0000_0000_0000_0000_0000_0000 <= x.bits <= 0xFDFF_FFFF_FFFF_FFFF_FFFF_FFFF_FFFF_FFFF
                             || 0xFE80_0000_0000_0000_0000_0000_0000_0000 <= x.bits <= 0xFEBF_FFFF_FFFF_FFFF_FFFF_FFFF_FFFF_FFFF
                             || 0xFF00_0000_0000_0000_0000_0000_0000_0000 <= x.bits <= 0xFFFF_FFFF_FFFF_FFFF_FFFF_FFFF_FFFF_FFFF)
  {
    LongestPowers();
    BlockIsRange(OTHER_TOP_V6[0], 121, 0x200_0000_0000_0000_0000_0000_0000_0000, x);
    BlockIsRange(OTHER_TOP_V6[1], 118, 0x40_0000_0000_0000_0000_0000_0000_0000, x);
    BlockIsRange(OTHER_TOP_V6[2], 120, 0x100_0000_0000_0000_0000_0000_0000_0000, x);
  }

  lemma {:induction false} TablesJoin(a: seq<Block>, b: seq<Block>, x: Addr)
    ensures InTable(a + b, x) <==> InTable(a, x) || InTable(b, x)
  {
    if i :| 0 <= i < |b| && ValidBlock(b[i]) && Contains(b[i], x) {
      assert (a + b)[|a| + i] == b[i];
    }
    if i :| 0 <= i < |a| && ValidBlock(a[i]) && Contains(a[i], x) {
      assert (a + b)[i] == a[i];
    }
  }

  /** The tables cover exactly the reserved ranges. */
  lemma {:induction false} ReservedIsRanges(x: Addr)
    ensures InReserved(x) <==> Reserved(x)
  {
    FirstRanges(x);
    LowRanges(x);
    HighRanges(x);
    TopRanges(x);
    RangesV6(x);
    TopRangesV6(x);
    TablesJoin(RFC1918, LOOPBACK, x);
    TablesJoin(RFC1918 + LOOPBACK, OTHER_LOW, x);
    TablesJoin(RFC1918 + LOOPBACK + OTHER_LOW, OTHER_HIGH, x);
    TablesJoin(RFC1918 + LOOPBACK + OTHER_LOW + OTHER_HIGH, OTHER_TOP, x);
    TablesJoin(RFC1918 + LOOPBACK + OTHER_LOW + OTHER_HIGH + OTHER_TOP, OTHER_V6, x);
    TablesJoin(RFC1918 + LOOPBACK + OTHER_LOW + OTHER_HIGH + OTHER_TOP + OTHER_V6, OTHER_TOP_V6, x);
    assert InReserved(x) <==> InTable(RESERVED, x);
  }

  /** In plain numbers: a candidate is refused exactly when one of the addresses it counts, from its masked
      base on, lies in a reserved range of its family. */
  lemma {:induction false} BogonIffRange(b: Network)
    ensures IsBogon(b) <==> exists v: nat :: Base(b) <= v < Base(b) + Size(b) && Reserved(Addr(b.family, v))
  {
    BogonIffTouchesReserved(b);
    forall v: nat
      ensures (Base(b) <= v < Base(b) + Size(b)) && Reserved(Addr(b.family, v)) <==>
              ValidAddr(Addr(b.family, v)) && Contains(b, Addr(b.family, v)) && InReserved(Addr(b.family, v))
    {
      SpannedAddress(b, Addr(b.family, v));
    }
    forall x | ValidAddr(x) && Contains(b, x) && InReserved(x)
      ensures x == Addr(b.family, x.bits)
    {
    }
  }

  lemma {:induction false} SpannedAddress(b: Network, x: Addr)
    ensures x.family == b.family && (Base(b) <= x.bits < Base(b) + Size(b)) && Reserved(x) <==>
            ValidAddr(x) && Contains(b, x) && InReserved(x)
  {
    ContainsIsRange(b, x);
    ReservedIsRanges(x);
    if Contains(b, x) {
      BlockWithinFamily(b, x);
    }
  }

  lemma {:induction false} WholeFamily(f: Family)
    ensures Pow2(Width(f)) == Limit(f)
  {
    LongPowers();
    Pow2Add(64, 64);
  }

  lemma {:induction false} BlockWithinFamily(b: Network, x: Addr)
    requires Contains(b, x)
    ensures ValidAddr(x)
  {
    var n := Width(b.family);
    Widen(Block(b.family, 0, 0), b, x.bits);
    HighIsQuotient(x.bits, n);
    HighIsQuotient(b.ip, n);
    WholeFamily(b.family);
  }

  /** A record the filter lets through: it parses, and its block is clear of every reserved range. */
  predicate Survives(parse: string -> Option<Network>, record: string) {
    parse(record).Some? && !IsBogon(parse(record).value)
  }

  function Surviving(parse: string -> Option<Network>, records: seq<string>): seq<string> {
    if records == [] then []
    else
      var last := records[|records| - 1];
      Surviving(parse, records[..|records| - 1]) + if Survives(parse, last) then [last] else []
  }

  /** Splits records into the survivors, in order, and the number dropped. */
  method Sanitize(parse: string -> Option<Network>, records: seq<string>) returns (kept: seq<string>, removed: nat)
    ensures kept == Surviving(parse, records)
    ensures removed == |records| - |kept|
  {
    kept, removed := [], 0;
    for i := 0 to |records|
      invariant kept == Surviving(parse, records[..i])
      invariant |kept| + removed == i
    {
      assert records[..i + 1][..i] == records[..i];
      var net := parse(records[i]);
      if net.Some? && !IsBogon(net.value) {
        kept := kept + [records[i]];
      } else {
        removed := removed + 1;
      }
    }
    assert records[..|records|] == records;
  }

  lemma {:induction false} SurvivingMembers(parse: string -> Option<Network>, records: seq<string>, s: string)
    ensures s in Surviving(parse, records) <==> s in records && Survives(parse, s)
    decreases |records|
  {
    if records != [] {
      SurvivingMembers(parse, records[..|records| - 1], s);
      assert records == records[..|records| - 1] + [records[|records| - 1]];
    }
  }

  // ---------------------------------------------------------------- the vault-sync second pass

  function AddressList(inputs: seq<Input>): seq<string> {
    seq(|inputs|, i requires 0 <= i < |inputs| => inputs[i].address)
  }

  function WithAddressIn(inputs: seq<Input>, kept: set<string>): seq<Input> {
    if inputs == [] then []
    else (if inputs[0].address in kept then [inputs[0]] else []) + WithAddressIn(inputs[1..], kept)
  }

  /** Each record judged directly, with no intermediate address set. */
  function SurvivingInputs(parse: string -> Option<Network>, inputs: seq<Input>): seq<Input> {
    if inputs == [] then []
    else (if Survives(parse, inputs[0].address) then [inputs[0]] else []) + SurvivingInputs(parse, inputs[1..])
  }

  lemma {:induction false} SetPassIsDirect(
    parse: string -> Option<Network>, inputs: seq<Input>, kept: set<string>)
    requires forall r :: r in inputs ==> (r.address in kept <==> Survives(parse, r.address))
    ensures WithAddressIn(inputs, kept) == SurvivingInputs(parse, inputs)
    decreases |inputs|
  {
    if inputs != [] {
      SetPassIsDirect(parse, inputs[1..], kept);
    }
  }

  /** Sanitizing the addresses and then keeping the records whose address is in the surviving set is
      the same as judging each record by itself, duplicates included. */
  method FilterInputs(parse: string -> Option<Network>, inputs: seq<Input>)
    returns (filtered: seq<Input>, removed: nat)
    ensures filtered == SurvivingInputs(parse, inputs)
    ensures removed == |inputs| - |filtered|
  {
    var addresses := AddressList(inputs);
    var kept: seq<string>;
    kept, removed := Sanitize(parse, addresses);
    filtered := WithAddressIn(inputs, set s | s in kept);
    forall r | r in inputs
      ensures r.address in kept <==> Survives(parse, r.address)
    {
      var i :| 0 <= i < |inputs| && inputs[i] == r;
      assert addresses[i] == r.address;
      SurvivingMembers(parse, addresses, r.address);
    }
    SetPassIsDirect(parse, inputs, set s | s in kept);
    SameCount(parse, inputs);
  }

  lemma {:induction false} SameCount(parse: string -> Option<Network>, inputs: seq<Input>)
    ensures |Surviving(parse, AddressList(inputs))| == |SurvivingInputs(parse, inputs)|
    decreases |inputs|
  {
    if inputs != [] {
      SameCount(parse, inputs[..|inputs| - 1]);
      assert AddressList(inputs)[..|inputs| - 1] == AddressList(inputs[..|inputs| - 1]);
      SurvivingInputsSnoc(parse, inputs[..|inputs| - 1], inputs[|inputs| - 1]);
      assert inputs[..|inputs| - 1] + [inputs[|inputs| - 1]] == inputs;
    }
  }

  lemma {:induction false} SurvivingInputsSnoc(
    parse: string -> Option<Network>, inputs: seq<Input>, last: Input)
    ensures SurvivingInputs(parse, inputs + [last]) ==
            SurvivingInputs(parse, inputs) + if Survives(parse, last.address) then [last] else []
    decreases |inputs|
  {
    if inputs == [] {
      assert inputs + [last] == [last];
    } else {
      assert (inputs + [last])[1..] == inputs[1..] + [last];
      SurvivingInputsSnoc(parse, inputs[1..], last);
    }
  }
}
