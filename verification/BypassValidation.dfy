/**
 The IPv4 prefix arithmetic of internal/controlplane/http/bypass_validation.go. A prefix is
 read as the set of its addresses (section 3.1 of RFC 4632), and the tests on prefix lengths
 are proved to be statements about those sets.
 */
module BypassValidation {
  import opened Wrappers

  const ADDRESSES := 0x1_0000_0000

  function Pow2(n: nat): (p: nat)
    ensures p > 0
  {
    if n == 0 then 1 else 2 * Pow2(n - 1)
  }

  /** net.IPNet for IPv4: the masked network address and the length of the prefix. */
  datatype IPNet = IPNet(ip: nat, ones: nat)

  function Size(ones: nat): nat
    requires ones <= 32
  {
    Pow2(32 - ones)
  }

  /** What net.ParseCIDR returns: host bits are cleared. */
  predicate ValidNet(n: IPNet)
  {
    n.ones <= 32 && n.ip < ADDRESSES && n.ip % Size(n.ones) == 0
  }

  /** net.IPNet.Contains: the masked address equals the network address. */
  predicate Contains(n: IPNet, a: nat)
    requires n.ones <= 32
  {
    a - a % Size(n.ones) == n.ip
  }

  /** The addresses that the prefix stands for. */
  ghost function Addresses(n: IPNet): set<nat>
    requires n.ones <= 32
  {
    set a: nat | a < ADDRESSES && Contains(n, a)
  }

  /** containsCIDR: some listed prefix is no longer than the needle's and contains its address. */
  predicate ContainsCIDR(needle: IPNet, hay: seq<IPNet>)
    requires ValidNet(needle) && forall i :: 0 <= i < |hay| ==> ValidNet(hay[i])
  {
    hay != [] && ((hay[0].ones <= needle.ones && Contains(hay[0], needle.ip)) || ContainsCIDR(needle, hay[1..]))
  }

  // ---------------------------------------------------------------------------
  // Arithmetic of aligned blocks

  lemma {:induction false} Pow2Divides(m: nat, n: nat) returns (q: nat)
    requires m <= n
    ensures Pow2(n) == q * Pow2(m) && q == Pow2(n - m)
  {
    if m == n {
      q := 1;
    } else {
      q := Pow2Divides(m, n - 1);
      q := 2 * q;
    }
  }

  lemma {:induction false} Pow2Grows(m: nat, n: nat)
    requires m < n
    ensures Pow2(m) < Pow2(n)
  {
    if m < n - 1 {
      Pow2Grows(m, n - 1);
    }
  }

  lemma SizeOfAll()
    ensures Pow2(32) == ADDRESSES && Pow2(16) == 65536
  {
    assert Pow2(8) == 256;
    var q := Pow2Divides(8, 16);
    var q' := Pow2Divides(16, 32);
  }

  lemma MulMono(a: int, b: int, s: nat)
    requires a < b
    ensures a * s + s <= b * s
  {
    NotNegative(b - a - 1, s);
    assert b == a + 1 + (b - a - 1);
    assert b * s == a * s + s + (b - a - 1) * s;
  }

  lemma NotNegative(a: nat, s: nat)
    ensures a * s >= 0
  {
  }

  /** An aligned block is an interval. */
  lemma ContainsIsRange(n: IPNet, a: nat)
    requires ValidNet(n)
    ensures Contains(n, a) <==> n.ip <= a < n.ip + Size(n.ones)
  {
    var s := Size(n.ones);
    var k := Quotient(n.ip, s);
    var q := Division(a, s);
    if q < k {
      MulMono(q, k, s);
    } else if k < q {
      MulMono(k, q, s);
    }
  }

  lemma Division(a: nat, s: nat) returns (q: nat)
    requires s > 0
    ensures q * s == a - a % s && a - a % s <= a < a - a % s + s
  {
    q := a / s;
    assert a == q * s + a % s;
  }

  lemma Quotient(ip: nat, s: nat) returns (k: nat)
    requires s > 0 && ip % s == 0
    ensures ip == k * s
  {
    k := ip / s;
  }

  lemma NextMultiple(k: nat, m: nat, s: nat)
    requires k * s < m * s
    ensures k * s + s <= m * s
  {
    if m < k {
      MulMono(m, k, s);
    } else if k < m {
      MulMono(k, m, s);
    }
  }

  /** Blocks end inside the address space. */
  lemma BlockFits(n: IPNet)
    requires ValidNet(n)
    ensures n.ip + Size(n.ones) <= ADDRESSES
  {
    SizeOfAll();
    var q := Pow2Divides(32 - n.ones, 32);
    var k := Quotient(n.ip, Size(n.ones));
    NextMultiple(k, q, Size(n.ones));
  }

  /** A shorter prefix's block contains either all of a longer one's block or nothing of it. */
  lemma ShorterSwallows(h: IPNet, n: IPNet)
    requires ValidNet(h) && ValidNet(n) && h.ones <= n.ones
    requires h.ip <= n.ip < h.ip + Size(h.ones)
    ensures n.ip + Size(n.ones) <= h.ip + Size(h.ones)
  {
    var q := Pow2Divides(32 - n.ones, 32 - h.ones);
    var m := Quotient(h.ip, Size(h.ones));
    var k := Quotient(n.ip, Size(n.ones));
    Regroup(m, q, Size(n.ones));
    NextMultiple(k, m * q + q, Size(n.ones));
  }

  lemma Regroup(m: nat, q: nat, s: nat)
    ensures m * (q * s) == (m * q) * s
    ensures m * (q * s) + q * s == (m * q + q) * s
  {
    assert (m * q + q) * s == (m * q) * s + q * s;
  }

  // ---------------------------------------------------------------------------
  // Prefix tests are set inclusions

  lemma MemberOfBlock(n: IPNet, a: nat)
    requires ValidNet(n)
    ensures a in Addresses(n) <==> n.ip <= a < n.ip + Size(n.ones)
  {
    ContainsIsRange(n, a);
    BlockFits(n);
  }

  lemma ShorterCovers(h: IPNet, n: IPNet)
    requires ValidNet(h) && ValidNet(n) && h.ones <= n.ones && Contains(h, n.ip)
    ensures Addresses(n) <= Addresses(h)
  {
    ContainsIsRange(h, n.ip);
    ShorterSwallows(h, n);
    forall a: nat | a in Addresses(n)
      ensures a in Addresses(h)
    {
      MemberOfBlock(n, a);
      MemberOfBlock(h, a);
    }
  }

  lemma CoveredIsLonger(h: IPNet, n: IPNet)
    requires ValidNet(h) && ValidNet(n) && Addresses(n) <= Addresses(h)
    ensures h.ones <= n.ones && Contains(h, n.ip)
  {
    var last := n.ip + Size(n.ones) - 1;
    MemberOfBlock(n, n.ip);
    MemberOfBlock(n, last);
    MemberOfBlock(h, n.ip);
    MemberOfBlock(h, last);
    if n.ones < h.ones {
      Pow2Grows(32 - h.ones, 32 - n.ones);
    }
  }

  /** The test on one listed prefix: shorter or equal, and containing the network address. */
  lemma PrefixTestIsInclusion(h: IPNet, n: IPNet)
    requires ValidNet(h) && ValidNet(n)
    ensures h.ones <= n.ones && Contains(h, n.ip) <==> Addresses(n) <= Addresses(h)
  {
    if h.ones <= n.ones && Contains(h, n.ip) {
      ShorterCovers(h, n);
    }
    if Addresses(n) <= Addresses(h) {
      CoveredIsLonger(h, n);
    }
  }

  /** Main result: containsCIDR answers whether one listed block covers every address. */
  lemma {:induction false} ContainsCIDRIsInclusion(needle: IPNet, hay: seq<IPNet>)
    requires ValidNet(needle) && forall i :: 0 <= i < |hay| ==> ValidNet(hay[i])
    ensures ContainsCIDR(needle, hay) <==> exists i :: 0 <= i < |hay| && Addresses(needle) <= Addresses(hay[i])
  {
    if hay != [] {
      PrefixTestIsInclusion(hay[0], needle);
      ContainsCIDRIsInclusion(needle, hay[1..]);
      if i :| 0 <= i < |hay| && Addresses(needle) <= Addresses(hay[i]) {
        assert i > 0 ==> hay[1..][i - 1] == hay[i];
      }
    }
  }

  // ---------------------------------------------------------------------------
  // The private blocks

  const PRIVATE := [
    IPNet(0x0A00_0000, 8), IPNet(0xAC10_0000, 12), IPNet(0xC0A8_0000, 16), IPNet(0x6440_0000, 10),
    IPNet(0x7F00_0000, 8), IPNet(0xA9FE_0000, 16), IPNet(0xE000_0000, 4)]

  lemma PrivateIsValid()
    ensures forall i :: 0 <= i < |PRIVATE| ==> ValidNet(PRIVATE[i])
    ensures Size(4) == 0x1000_0000 && Size(8) == 0x100_0000 && Size(10) == 0x40_0000 && Size(12) == 0x10_0000
              && Size(16) == 0x1_0000
  {
    SizeOfAll();
    assert Pow2(20) == 16 * Pow2(16) && Pow2(22) == 4 * Pow2(20) && Pow2(24) == 4 * Pow2(22)
             && Pow2(28) == 16 * Pow2(24);
  }

  /** 10.0.0.0 to 10.255.255.255, 172.16.0.0 to 172.31.255.255, 192.168.0.0 to 192.168.255.255,
      100.64.0.0 to 100.127.255.255, 127.0.0.0 to 127.255.255.255, 169.254.0.0 to 169.254.255.255, and
      224.0.0.0 to 239.255.255.255. */
  ghost predicate Private(a: nat)
  {
    || 0x0A00_0000 <= a <= 0x0AFF_FFFF || 0xAC10_0000 <= a <= 0xAC1F_FFFF || 0xC0A8_0000 <= a <= 0xC0A8_FFFF
    || 0x6440_0000 <= a <= 0x647F_FFFF || 0x7F00_0000 <= a <= 0x7FFF_FFFF || 0xA9FE_0000 <= a <= 0xA9FE_FFFF
    || 0xE000_0000 <= a <= 0xEFFF_FFFF
  }

  /** The listed prefixes stand for exactly these addresses. */
  lemma PrivateIsListed(a: nat)
    ensures Private(a) <==> exists i :: 0 <= i < |PRIVATE| && a in Addresses(PRIVATE[i])
  {
    PrivateIsValid();
    forall i | 0 <= i < |PRIVATE|
      ensures a in Addresses(PRIVATE[i]) <==> PRIVATE[i].ip <= a < PRIVATE[i].ip + Size(PRIVATE[i].ones)
    {
      MemberOfBlock(PRIVATE[i], a);
    }
    assert Private(a) ==>
      a in Addresses(PRIVATE[0]) || a in Addresses(PRIVATE[1]) || a in Addresses(PRIVATE[2]) ||
      a in Addresses(PRIVATE[3]) || a in Addresses(PRIVATE[4]) || a in Addresses(PRIVATE[5]) ||
      a in Addresses(PRIVATE[6]);
  }

  /** No private block is followed by another one: the address behind each is public. */
  lemma BehindPrivate(i: nat)
    requires i < |PRIVATE|
    ensures !Private(PRIVATE[i].ip + Size(PRIVATE[i].ones))
  {
    PrivateIsValid();
  }

  /** A block that starts inside a longer-prefixed one starts at its beginning. */
  lemma StartsTogether(b: IPNet, n: IPNet)
    requires ValidNet(b) && ValidNet(n) && n.ones < b.ones
    requires b.ip <= n.ip < b.ip + Size(b.ones)
    ensures n.ip == b.ip && b.ip + Size(b.ones) < n.ip + Size(n.ones)
  {
    var q := Pow2Divides(32 - b.ones, 32 - n.ones);
    var k := Quotient(b.ip, Size(b.ones));
    var m := Quotient(n.ip, Size(n.ones));
    Regroup(m, q, Size(b.ones));
    if b.ip < n.ip {
      NextMultiple(k, m * q, Size(b.ones));
    }
    Pow2Grows(32 - b.ones, 32 - n.ones);
  }

  predicate InPrivateBlock(n: IPNet)
    requires ValidNet(n)
  {
    PrivateIsValid();
    ContainsCIDR(n, PRIVATE)
  }

  /** A block that is private throughout is no larger than the listed block it starts in. */
  lemma PrivateFitsOne(n: IPNet) returns (i: nat)
    requires ValidNet(n) && forall a :: a in Addresses(n) ==> Private(a)
    ensures i < |PRIVATE| && ValidNet(PRIVATE[i]) && Addresses(n) <= Addresses(PRIVATE[i])
  {
    PrivateIsValid();
    MemberOfBlock(n, n.ip);
    PrivateIsListed(n.ip);
    i :| 0 <= i < |PRIVATE| && n.ip in Addresses(PRIVATE[i]);
    MemberOfBlock(PRIVATE[i], n.ip);
    if n.ones < PRIVATE[i].ones {
      LargerIsNotPrivate(n, i);
      assert false;
    }
    ContainsIsRange(PRIVATE[i], n.ip);
    PrefixTestIsInclusion(PRIVATE[i], n);
  }

  lemma LargerIsNotPrivate(n: IPNet, i: nat)
    requires ValidNet(n) && i < |PRIVATE| && ValidNet(PRIVATE[i]) && n.ones < PRIVATE[i].ones
    requires PRIVATE[i].ip <= n.ip < PRIVATE[i].ip + Size(PRIVATE[i].ones)
    ensures exists a :: a in Addresses(n) && !Private(a)
  {
    var behind := PRIVATE[i].ip + Size(PRIVATE[i].ones);
    StartsTogether(PRIVATE[i], n);
    MemberOfBlock(n, behind);
    BehindPrivate(i);
  }

  /** For the private list, lying in one listed block is the same as being private throughout:
      no prefix is pieced together from several blocks. */
  lemma PrivateIsOneBlock(n: IPNet)
    requires ValidNet(n)
    ensures InPrivateBlock(n) <==> forall a :: a in Addresses(n) ==> Private(a)
  {
    PrivateIsValid();
    ContainsCIDRIsInclusion(n, PRIVATE);
    if forall a :: a in Addresses(n) ==> Private(a) {
      var i := PrivateFitsOne(n);
    }
    forall i, a | 0 <= i < |PRIVATE| && a in Addresses(PRIVATE[i])
      ensures Private(a)
    {
      PrivateIsListed(a);
    }
  }

  // ---------------------------------------------------------------------------
  // Rule validation

  const RULES_PER_HOST := 1000

  datatype Verdict = Accepted | LimitExceeded | TooBroad | ConflictProxy

  /** Some proxy address that parses as IPv4 lies in the block. */
  predicate CoversProxy(n: IPNet, proxies: seq<Option<nat>>)
    requires n.ones <= 32
  {
    proxies != [] && ((proxies[0].Some? && Contains(n, proxies[0].value)) || CoversProxy(n, proxies[1..]))
  }

  /** ValidateBypassRule for a parsed IPv4 `cidr` rule with an acceptable port. */
  function ValidateCidr(n: IPNet, proxies: seq<Option<nat>>, hostRuleCount: int): Verdict
    requires ValidNet(n)
  {
    if hostRuleCount >= RULES_PER_HOST then LimitExceeded
    else if n == IPNet(0, 0) then TooBroad
    else if n.ones < 16 && !InPrivateBlock(n) then TooBroad
    else if CoversProxy(n, proxies) then ConflictProxy
    else Accepted
  }

  predicate InRange(lo: nat, size: nat, a: nat)
  {
    lo <= a < lo + size
  }

  ghost function Interval(lo: nat, size: nat): set<nat>
  {
    set a: nat | a < lo + size && InRange(lo, size, a)
  }

  lemma {:induction false} IntervalSize(lo: nat, size: nat)
    ensures |Interval(lo, size)| == size
  {
    if size > 0 {
      IntervalSize(lo, size - 1);
      assert Interval(lo, size) == Interval(lo, size - 1) + {lo + size - 1};
    }
  }

  lemma AddressCount(n: IPNet)
    requires ValidNet(n)
    ensures |Addresses(n)| == Size(n.ones)
  {
    forall a: nat
      ensures a in Addresses(n) <==> a in Interval(n.ip, Size(n.ones))
    {
      MemberOfBlock(n, a);
    }
    assert Addresses(n) == Interval(n.ip, Size(n.ones));
    IntervalSize(n.ip, Size(n.ones));
  }

  lemma {:induction false} CoversProxyMeaning(n: IPNet, proxies: seq<Option<nat>>)
    requires ValidNet(n)
    requires forall i :: 0 <= i < |proxies| && proxies[i].Some? ==> proxies[i].value < ADDRESSES
    ensures CoversProxy(n, proxies) <==> exists a :: a in Addresses(n) && Some(a) in proxies
  {
    if proxies != [] {
      CoversProxyMeaning(n, proxies[1..]);
      if a :| a in Addresses(n) && Some(a) in proxies {
        assert proxies == [proxies[0]] + proxies[1..];
      }
    }
  }

  /** A block larger than a /16 that is not private throughout. */
  ghost predicate Broad(n: IPNet)
    requires ValidNet(n)
  {
    |Addresses(n)| > 65536 && exists a :: a in Addresses(n) && !Private(a)
  }

  /** Main result: the verdict on an IPv4 block, as a statement about its set of addresses. */
  lemma VerdictExactly(n: IPNet, proxies: seq<Option<nat>>, hostRuleCount: int)
    requires ValidNet(n)
    requires forall i :: 0 <= i < |proxies| && proxies[i].Some? ==> proxies[i].value < ADDRESSES
    ensures var verdict := ValidateCidr(n, proxies, hostRuleCount);
            var full, covers := hostRuleCount >= 1000, exists a :: a in Addresses(n) && Some(a) in proxies;
            && (verdict.LimitExceeded? <==> full)
            && (verdict.TooBroad? <==> !full && Broad(n))
            && (verdict.ConflictProxy? <==> !full && !Broad(n) && covers)
            && (verdict.Accepted? <==> !full && !Broad(n) && !covers)
  {
    SmallBlocks(n);
    PrivateIsOneBlock(n);
    CoversProxyMeaning(n, proxies);
    if n == IPNet(0, 0) {
      InternetIsNotPrivate();
    }
  }

  lemma SmallBlocks(n: IPNet)
    requires ValidNet(n)
    ensures |Addresses(n)| <= 65536 <==> n.ones >= 16
  {
    AddressCount(n);
    SizeOfAll();
    if n.ones < 16 {
      Pow2Grows(16, 32 - n.ones);
    } else if n.ones > 16 {
      Pow2Grows(32 - n.ones, 16);
    }
  }

  lemma InternetIsNotPrivate()
    ensures ValidNet(IPNet(0, 0)) && !forall a :: a in Addresses(IPNet(0, 0)) ==> Private(a)
  {
    PrivateIsValid();
    SizeOfAll();
    BehindPrivate(0);
    MemberOfBlock(IPNet(0, 0), PRIVATE[0].ip + Size(8));
  }
}
