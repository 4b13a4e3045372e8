/**
 Address ranges of the URL validator. An address is its bytes, 4 or 16 of them, in network order.
 */
module IpRange {
  import opened Bytes
  import opened Wrappers

  predicate InBox(ip: seq<Byte>, start: seq<Byte>, end: seq<Byte>) {
    && |ip| == |start| == |end|
    && forall i | 0 <= i < |ip| :: start[i] <= ip[i] <= end[i]
  }

  predicate Between(ip: seq<Byte>, start: seq<Byte>, end: seq<Byte>) {
    |ip| == |start| == |end| && BigEndian(start) <= BigEndian(ip) <= BigEndian(end)
  }

  /** Both passes over the bytes, flags and all, come to this: every byte is within the range's bytes at its place. */
  method IpInRange(ip: seq<Byte>, start: seq<Byte>, end: seq<Byte>) returns (r: bool)
    ensures r == InBox(ip, start, end)
  {
    if |ip| != |start| || |ip| != |end| {
      return false;
    }
    for i := 0 to |ip|
      invariant forall j | 0 <= j < i :: start[j] <= ip[j] && (j < |ip| - 1 ==> ip[j] <= end[j])
    {
      if ip[i] < start[i] || ip[i] > end[i] {
        if ip[i] < start[i] {
          return false;
        }
        if ip[i] > end[i] && i < |ip| - 1 {
          return false;
        }
      }
    }
    var gteStart, lteEnd := true, true;
    for i := 0 to |ip|
      invariant gteStart && lteEnd
      invariant forall j | 0 <= j < i :: start[j] <= ip[j] <= end[j]
    {
      if gteStart && ip[i] < start[i] {
        return false;
      }
      if lteEnd && ip[i] > end[i] {
        return false;
      }
      if ip[i] > start[i] {
        gteStart := true;
      }
      if ip[i] < end[i] {
        lteEnd := true;
      }
    }
    return true;
  }

  // ----- Boxes and intervals -----

  // A range that agrees up to byte p, spans an interval of values there, and everything after.
  predicate SplitsAt(start: seq<Byte>, end: seq<Byte>, p: nat) {
    && p <= |start| == |end|
    && start[..p] == end[..p]
    && (p < |start| ==> start[p] <= end[p])
    && forall j | p < j < |start| :: start[j] == 0 && end[j] == 255
  }

  ghost predicate IsBlock(start: seq<Byte>, end: seq<Byte>) {
    exists p: nat :: SplitsAt(start, end, p)
  }

  // The range test is the interval test for every address.
  ghost predicate Exact(start: seq<Byte>, end: seq<Byte>) {
    forall ip: seq<Byte> :: InBox(ip, start, end) <==> Between(ip, start, end)
  }

  lemma {:induction false} NumberMonotone(a: seq<Byte>, b: seq<Byte>)
    requires |a| == |b| && forall i | 0 <= i < |a| :: a[i] <= b[i]
    ensures BigEndian(a) <= BigEndian(b)
  {
    if a == [] {
    } else {
      NumberMonotone(a[..|a| - 1], b[..|b| - 1]);
    }
  }

  // The first byte that differs decides.
  lemma {:induction false} NumberLess(a: seq<Byte>, b: seq<Byte>, p: nat)
    requires p < |a| == |b| && a[..p] == b[..p] && a[p] < b[p]
    ensures BigEndian(a) < BigEndian(b)
  {
    var n := |a| - 1;
    if p == n {
      assert a[..n] == b[..n];
    } else {
      assert a[..n][..p] == a[..p] && b[..n][..p] == b[..p];
      NumberLess(a[..n], b[..n], p);
    }
  }

  // Two sequences agree up to some place, and differ there unless that is the end.
  lemma FirstDifference(a: seq<Byte>, b: seq<Byte>) returns (p: nat)
    requires |a| == |b|
    ensures p <= |a| && a[..p] == b[..p] && (p < |a| ==> a[p] != b[p])
  {
    p := 0;
    while p < |a| && a[p] == b[p]
      invariant p <= |a| && a[..p] == b[..p]
    {
      assert a[..p + 1] == a[..p] + [a[p]] && b[..p + 1] == b[..p] + [b[p]];
      p := p + 1;
    }
  }

  lemma BoxIsBetween(ip: seq<Byte>, start: seq<Byte>, end: seq<Byte>)
    requires InBox(ip, start, end)
    ensures Between(ip, start, end)
  {
    NumberMonotone(start, ip);
    NumberMonotone(ip, end);
  }

  lemma BetweenIsBox(ip: seq<Byte>, start: seq<Byte>, end: seq<Byte>, p: nat)
    requires SplitsAt(start, end, p) && Between(ip, start, end)
    ensures InBox(ip, start, end)
  {
    hide BigEndian;
    var q := FirstDifference(ip, start);
    if q < p {
      assert start[..q] == start[..p][..q] == end[..p][..q] == end[..q];
      assert start[q] == start[..p][q] == end[..p][q] == end[q];
      if ip[q] < start[q] { NumberLess(ip, start, q); } else { NumberLess(end, ip, q); }
      assert false;
    }
    assert ip[..p] == ip[..q][..p] == start[..q][..p] == start[..p];
    if p < |ip| {
      PivotIsWithin(ip, start, end, p);
    }
    forall i | 0 <= i < |ip|
      ensures start[i] <= ip[i] <= end[i]
    {
      if i < p {
        assert ip[i] == ip[..p][i] && start[i] == start[..p][i] && end[i] == end[..p][i];
      }
    }
  }

  lemma PivotIsWithin(ip: seq<Byte>, start: seq<Byte>, end: seq<Byte>, p: nat)
    requires p < |ip| == |start| == |end| && ip[..p] == start[..p] == end[..p]
    requires BigEndian(start) <= BigEndian(ip) <= BigEndian(end)
    ensures start[p] <= ip[p] <= end[p]
  {
    hide BigEndian;
    if ip[p] < start[p] {
      NumberLess(ip, start, p);
    } else if ip[p] > end[p] {
      NumberLess(end, ip, p);
    }
  }

  lemma BlocksAreExact(start: seq<Byte>, end: seq<Byte>)
    requires IsBlock(start, end)
    ensures Exact(start, end)
  {
    var p: nat :| SplitsAt(start, end, p);
    forall ip: seq<Byte>
      ensures InBox(ip, start, end) <==> Between(ip, start, end)
    {
      if InBox(ip, start, end) { BoxIsBetween(ip, start, end); }
      if Between(ip, start, end) { BetweenIsBox(ip, start, end, p); }
    }
  }

  // An empty interval has an empty box.
  lemma EmptyIsExact(start: seq<Byte>, end: seq<Byte>)
    requires |start| == |end| && BigEndian(start) > BigEndian(end)
    ensures Exact(start, end)
  {
    forall ip: seq<Byte>
      ensures InBox(ip, start, end) <==> Between(ip, start, end)
    {
      if InBox(ip, start, end) { BoxIsBetween(ip, start, end); }
    }
  }

  // x followed by n bytes b.
  function Padded(front: seq<Byte>, x: Byte, b: Byte, n: nat): (s: seq<Byte>)
    requires |front| < n
    ensures |s| == n && s[..|front|] == front && s[|front|] == x
    ensures forall j | |front| < j < n :: s[j] == b
  {
    front + [x] + seq(n - |front| - 1, _ => b)
  }

  lemma StartEndsInZeros(start: seq<Byte>, end: seq<Byte>, p: nat, j: nat)
    requires Exact(start, end) && p < j < |start| == |end| && start[..p] == end[..p] && start[p] < end[p]
    ensures start[j] == 0
  {
    hide BigEndian, Padded;
    var ip := Padded(start[..p], start[p] + 1, 0, |start|);
    NumberLess(start, ip, p);
    if ip[p] < end[p] {
      NumberLess(ip, end, p);
    } else {
      PrefixedMonotone(ip, end, p);
    }
    assert InBox(ip, start, end);
  }

  lemma EndEndsInOnes(start: seq<Byte>, end: seq<Byte>, p: nat, j: nat)
    requires Exact(start, end) && p < j < |start| == |end| && start[..p] == end[..p] && start[p] < end[p]
    ensures end[j] == 255
  {
    hide BigEndian, Padded;
    var ip := Padded(start[..p], end[p] - 1, 255, |start|);
    NumberLess(ip, end, p);
    if start[p] < ip[p] {
      NumberLess(start, ip, p);
    } else {
      PrefixedMonotone(start, ip, p);
    }
    assert InBox(ip, start, end);
  }

  lemma PrefixedMonotone(a: seq<Byte>, b: seq<Byte>, p: nat)
    requires p < |a| == |b| && a[..p] == b[..p] && forall i | p <= i < |a| :: a[i] <= b[i]
    ensures BigEndian(a) <= BigEndian(b)
  {
    hide BigEndian;
    forall i | 0 <= i < |a|
      ensures a[i] <= b[i]
    {
      if i < p { assert a[i] == a[..p][i] == b[..p][i] == b[i]; }
    }
    NumberMonotone(a, b);
  }

  lemma ExactAreBlocks(start: seq<Byte>, end: seq<Byte>)
    requires |start| == |end| && BigEndian(start) <= BigEndian(end) && Exact(start, end)
    ensures IsBlock(start, end)
  {
    hide BigEndian;
    assert Between(start, start, end);
    assert InBox(start, start, end);
    var p := FirstDifference(start, end);
    forall j | p < j < |start|
      ensures start[j] == 0 && end[j] == 255
    {
      StartEndsInZeros(start, end, p, j);
      EndEndsInOnes(start, end, p, j);
    }
    assert SplitsAt(start, end, p);
  }

  /** The byte-wise test decides interval membership exactly for blocks and for empty intervals, at any length:
      for every other range it turns away addresses inside. */
  lemma RangeTestIsExactIff(start: seq<Byte>, end: seq<Byte>)
    requires |start| == |end|
    ensures Exact(start, end) <==> IsBlock(start, end) || BigEndian(start) > BigEndian(end)
  {
    hide *;
    if IsBlock(start, end) {
      BlocksAreExact(start, end);
    } else if BigEndian(start) > BigEndian(end) {
      EmptyIsExact(start, end);
    } else if Exact(start, end) {
      ExactAreBlocks(start, end);
    }
  }

  /** 1.2 to 2.1 holds 1.255 as an interval, not as a box. */
  lemma NotEveryRangeIsExact()
    ensures var start, end, ip := [1, 2], [2, 1], [1, 255];
      Between(ip, start, end) && !InBox(ip, start, end)
  {
    NumberOfTwo(1, 2);
    NumberOfTwo(2, 1);
    NumberOfTwo(1, 255);
  }

  lemma NumberOfTwo(a: Byte, b: Byte)
    ensures BigEndian([a, b]) == 256 * a + b
  {
    var two: seq<Byte> := [a, b];
    var one := two[..1];
    assert one[..0] == [] && one[0] == a;
    assert BigEndian(one) == a;
  }

  // ----- Private addresses -----

  datatype Block = Block(start: seq<Byte>, end: seq<Byte>)

  const PRIVATE_BLOCKS: seq<Block> := [
    Block([10, 0, 0, 0], [10, 255, 255, 255]),
    Block([172, 16, 0, 0], [172, 31, 255, 255]),
    Block([192, 168, 0, 0], [192, 168, 255, 255]),
    Block([169, 254, 0, 0], [169, 254, 255, 255]),
    Block([127, 0, 0, 0], [127, 255, 255, 255]),
    Block([0, 0, 0, 0], [0, 255, 255, 255])]

  const LOOPBACK: seq<Byte> := [0, 0, 0, 0, 0, 0, 0, 0, 0, 0, 0, 0, 0, 0, 0, 1]

  // The 4-byte form of an IPv4 address, also when it comes mapped into IPv6.
  function To4(ip: seq<Byte>): (r: Option<seq<Byte>>)
    ensures r.Some? ==> |r.value| == 4
  {
    if |ip| == 4 then Some(ip)
    else if |ip| == 16 && (forall i | 0 <= i < 10 :: ip[i] == 0) && ip[10] == 0xff && ip[11] == 0xff then Some(ip[12..])
    else None
  }

  predicate MaskedIs(b: Byte, mask: bv8, value: bv8) {
    (b as bv8) & mask == value
  }

  // The listed IPv4 blocks as numbers: 10/8, 172.16/12, 192.168/16, 169.254/16, 127/8 and 0/8.
  predicate IsListed(n: nat) {
    || 0x0a00_0000 <= n <= 0x0aff_ffff
    || 0xac10_0000 <= n <= 0xac1f_ffff
    || 0xc0a8_0000 <= n <= 0xc0a8_ffff
    || 0xa9fe_0000 <= n <= 0xa9fe_ffff
    || 0x7f00_0000 <= n <= 0x7fff_ffff
    || 0x0000_0000 <= n <= 0x00ff_ffff
  }

  // What a private address is: IPv4, plain or mapped, in a listed block; or with a prefix fe80::/10 or fc00::/7, read
  // off any byte string long enough to have it; or ::1.
  predicate IsPrivate(ip: seq<Byte>) {
    if |ip| == 4 then IsListed(BigEndian(ip))
    else if |ip| == 16 && BigEndian(ip[..12]) == 0xffff then IsListed(BigEndian(ip[12..]))
    else
      || (|ip| >= 2 && 0xfe80 <= BigEndian(ip[..2]) <= 0xfebf)
      || (|ip| >= 1 && 0xfc <= BigEndian(ip[..1]) <= 0xfd)
      || (|ip| == 16 && BigEndian(ip) == 1)
  }

  // Byte strings too short to be read: the index is out of range.
  predicate TooShort(ip: seq<Byte>) {
    ip == [] || ip == [0xfe]
  }

  lemma PrivateBlocksAreExact(i: nat)
    requires i < |PRIVATE_BLOCKS|
    ensures Exact(PRIVATE_BLOCKS[i].start, PRIVATE_BLOCKS[i].end)
  {
    hide Exact;
    var b := PRIVATE_BLOCKS[i];
    PrivateBlocksSplit(i);
    BlocksAreExact(b.start, b.end);
  }

  lemma PrivateBlocksSplit(i: nat)
    requires i < |PRIVATE_BLOCKS|
    ensures IsBlock(PRIVATE_BLOCKS[i].start, PRIVATE_BLOCKS[i].end)
  {
    var b := PRIVATE_BLOCKS[i];
    if i == 0 || i >= 4 {
      assert SplitsAt(b.start, b.end, 0);
    } else {
      assert b.start[..1] == [b.start[0]] == b.end[..1];
      assert SplitsAt(b.start, b.end, 1);
    }
  }

  lemma LinkLocalMask(b: Byte)
    ensures MaskedIs(b, 0xc0, 0x80) <==> 0x80 <= b <= 0xbf
  {
  }

  lemma UniqueLocalMask(b: Byte)
    ensures MaskedIs(b, 0xfe, 0xfc) <==> 0xfc <= b <= 0xfd
  {
    LowBitIsFree(b as bv8);
    assert (b as bv8) as int == b;
  }

  lemma LowBitIsFree(x: bv8)
    ensures x & 0xfe == 0xfc <==> x == 0xfc || x == 0xfd
  {
  }

  lemma NumberOfOne(ip: seq<Byte>)
    requires |ip| >= 1
    ensures BigEndian(ip[..1]) == ip[0]
  {
    var one := ip[..1];
    assert one[..0] == [] && one[0] == ip[0];
  }

  lemma NumberOfPrefix(ip: seq<Byte>)
    requires |ip| >= 2
    ensures BigEndian(ip[..2]) == 256 * (ip[0] as int) + ip[1] as int
  {
    assert ip[..2] == [ip[0], ip[1]];
    NumberOfTwo(ip[0], ip[1]);
  }

  lemma NumberOfFour(ip: seq<Byte>)
    requires |ip| == 4
    ensures BigEndian(ip) == ((ip[0] as int * 256 + ip[1] as int) * 256 + ip[2] as int) * 256 + ip[3] as int
  {
    NumberOfPrefix(ip);
    assert ip[..3][..2] == ip[..2] && ip[..3][2] == ip[2];
    assert BigEndian(ip[..3]) == BigEndian(ip[..2]) * 256 + ip[2];
  }

  // Equally long byte strings that denote the same number are equal.
  lemma NumberInjective(a: seq<Byte>, b: seq<Byte>)
    requires |a| == |b| && BigEndian(a) == BigEndian(b)
    ensures a == b
  {
    hide BigEndian;
    var p := FirstDifference(a, b);
    if p < |a| {
      if a[p] < b[p] { NumberLess(a, b, p); } else { NumberLess(b, a, p); }
    }
  }

  lemma {:induction false} ZerosAreZero(s: seq<Byte>)
    requires forall i | 0 <= i < |s| :: s[i] == 0
    ensures BigEndian(s) == 0
  {
    if s == [] {
    } else {
      ZerosAreZero(s[..|s| - 1]);
    }
  }

  lemma MappedMeans(ip: seq<Byte>)
    requires |ip| == 16
    ensures To4(ip).Some? <==> BigEndian(ip[..12]) == 0xffff
  {
    var prefix, mapped := ip[..12], seq(10, _ => 0 as Byte) + [0xff, 0xff];
    MappedIsFfff(mapped);
    if BigEndian(prefix) == 0xffff {
      NumberInjective(prefix, mapped);
      assert forall i | 0 <= i < 12 :: ip[i] == mapped[i];
    }
    if To4(ip).Some? {
      assert prefix == mapped;
    }
  }

  lemma MappedIsFfff(s: seq<Byte>)
    requires |s| == 12 && s[10] == s[11] == 0xff && forall i | 0 <= i < 10 :: s[i] == 0
    ensures BigEndian(s) == 0xffff
  {
    ZerosAreZero(s[..10]);
    assert s[..11][..10] == s[..10];
    assert BigEndian(s[..11]) == 0xff;
  }

  lemma LoopbackIsOne(ip: seq<Byte>)
    requires |ip| == 16
    ensures BigEndian(ip) == 1 <==> ip == LOOPBACK
  {
    ZerosAreZero(LOOPBACK[..15]);
    assert BigEndian(LOOPBACK) == 1;
    if BigEndian(ip) == 1 {
      NumberInjective(ip, LOOPBACK);
    }
  }

  /** True of no address at all and of exactly the private ones. None stands for the panic on a byte string too short. */
  method IsPrivateIP(ip: Option<seq<Byte>>) returns (r: Option<bool>)
    ensures r.None? <==> ip.Some? && TooShort(ip.value)
    ensures r.Some? ==> r.value == (ip.None? || IsPrivate(ip.value))
  {
    if ip.None? {
      return Some(true);
    }
    var bytes := ip.value;
    var ip4 := To4(bytes);
    if |bytes| == 16 {
      MappedMeans(bytes);
    }
    if ip4.Some? {
      var inside := InSomeBlock(ip4.value);
      return Some(inside);
    }
    if |bytes| == 0 {
      return None;
    }
    NumberOfOne(bytes);
    if bytes[0] == 0xfe {
      if |bytes| == 1 {
        return None;
      }
      NumberOfPrefix(bytes);
      LinkLocalMask(bytes[1]);
      if MaskedIs(bytes[1], 0xc0, 0x80) {
        return Some(true);
      }
    }
    if |bytes| >= 2 {
      NumberOfPrefix(bytes);
    }
    UniqueLocalMask(bytes[0]);
    if MaskedIs(bytes[0], 0xfe, 0xfc) {
      return Some(true);
    }
    if |bytes| == 16 {
      LoopbackIsOne(bytes);
    }
    return Some(bytes == LOOPBACK);
  }

  // The loop over the listed ranges decides the union of their intervals.
  method InSomeBlock(ip4: seq<Byte>) returns (r: bool)
    requires |ip4| == 4
    ensures r == IsListed(BigEndian(ip4))
  {
    hide BigEndian, IsListed;
    BlocksAreListed(ip4);
    for i := 0 to |PRIVATE_BLOCKS|
      invariant forall j | 0 <= j < i :: !Between(ip4, PRIVATE_BLOCKS[j].start, PRIVATE_BLOCKS[j].end)
    {
      var b := PRIVATE_BLOCKS[i];
      PrivateBlocksAreExact(i);
      var inside := IpInRange(ip4, b.start, b.end);
      if inside {
        return true;
      }
    }
    return false;
  }

  lemma BlockNumbers(i: nat)
    requires i < |PRIVATE_BLOCKS|
    ensures var b := PRIVATE_BLOCKS[i];
      && |b.start| == |b.end| == 4
      && BigEndian(b.start) == [0x0a00_0000, 0xac10_0000, 0xc0a8_0000, 0xa9fe_0000, 0x7f00_0000, 0][i]
      && BigEndian(b.end) == [0x0aff_ffff, 0xac1f_ffff, 0xc0a8_ffff, 0xa9fe_ffff, 0x7fff_ffff, 0x00ff_ffff][i]
  {
    hide BigEndian;
    NumberOfFour(PRIVATE_BLOCKS[i].start);
    NumberOfFour(PRIVATE_BLOCKS[i].end);
  }

  lemma BlocksAreListed(ip4: seq<Byte>)
    requires |ip4| == 4
    ensures IsListed(BigEndian(ip4))
       <==> exists i | 0 <= i < |PRIVATE_BLOCKS| :: Between(ip4, PRIVATE_BLOCKS[i].start, PRIVATE_BLOCKS[i].end)
  {
    hide BigEndian;
    forall i | 0 <= i < |PRIVATE_BLOCKS|
      ensures Between(ip4, PRIVATE_BLOCKS[i].start, PRIVATE_BLOCKS[i].end) <==> InBlock(BigEndian(ip4), i)
    {
      BlockNumbers(i);
    }
    if IsListed(BigEndian(ip4)) {
      var n := BigEndian(ip4);
      assert InBlock(n, 0) || InBlock(n, 1) || InBlock(n, 2) || InBlock(n, 3) || InBlock(n, 4) || InBlock(n, 5);
    }
  }

  predicate InBlock(n: nat, i: nat)
    requires i < 6
  {
    [0x0a00_0000, 0xac10_0000, 0xc0a8_0000, 0xa9fe_0000, 0x7f00_0000, 0][i]
    <= n <= [0x0aff_ffff, 0xac1f_ffff, 0xc0a8_ffff, 0xa9fe_ffff, 0x7fff_ffff, 0x00ff_ffff][i]
  }
}
