/**
  Enumerating networks and projecting hosts to blocks of addresses, against the networks that targets are counted by.
*/
module Enumeration {
  import opened Bytes
  import opened Networks

  /** What the library lists as hosts of a network: all addresses of the smallest two, and for longer networks all but
      the first and, in IPv4, the last. */
  function Hosts(net: Network): seq<Address>
  {
    if net.bits <= 1 then Range(net.family, net.first, Pow2(net.bits))
    else Range(net.family, net.first + 1, Pow2(net.bits) - if net.family == V4 then 2 else 1)
  }

  /** Addresses that follow one another. */
  function Range(f: Family, first: nat, length: nat): (r: seq<Address>)
    ensures |r| == length && forall i :: 0 <= i < length ==> r[i] == Address(f, first + i)
  {
    seq(length, i requires 0 <= i => Address(f, first + i))
  }

  lemma Pow2Large(bits: nat)
    ensures bits == 1 ==> Pow2(bits) == 2
    ensures bits > 1 ==> Pow2(bits) >= 4
  {
    if bits > 1 {
      assert Pow2(bits) == 2 * Pow2(bits - 1) && Pow2(bits - 1) == 2 * Pow2(bits - 2);
    }
  }

  /** All addresses of a network in ascending order, each once. */
  function EnumerateNetwork(net: Network): (r: seq<Address>)
    ensures |r| == Pow2(net.bits)
    ensures forall i :: 0 <= i < |r| ==> r[i] == Address(net.family, net.first + i)
  {
    Pow2Large(net.bits);
    if net.bits == 0 then [Address(net.family, net.first)]
    else
      var data := Hosts(net);
      if net.bits > 1 then
        [Address(net.family, net.first)] + data + if net.family == V4 then [Address(net.family, net.Last())] else []
      else data
  }

  /** Exactly the addresses that the network contains. */
  lemma EnumerationComplete(net: Network, a: Address)
    requires net.Valid()
    ensures a in EnumerateNetwork(net) <==> net.Contains(a)
  {
    hide Pow2;
    ContainsRange(net, a);
    var r := EnumerateNetwork(net);
    if net.Contains(a) {
      assert r[a.n - net.first] == a;
    }
  }

  /** An IPv4 network of at least 256 addresses falls into blocks of 256 that are counted together. */
  lemma EnumerationShares(net: Network, i: nat, j: nat)
    requires net.Valid() && net.family == V4 && net.bits >= 8 && i < Pow2(net.bits) && j < Pow2(net.bits)
    ensures var r := EnumerateNetwork(net);
            && HashOfHost(Literal(r[i])) == Net(V4, net.first / 0x100 + i / 0x100)
            && (HashOfHost(Literal(r[i])) == HashOfHost(Literal(r[j])) <==> i / 0x100 == j / 0x100)
            && |r| == 0x100 * Pow2(net.bits - 8)
  {
    hide Pow2, EnumerateNetwork;
    Blocks(net.bits);
    Divisible(net.first, Pow2(net.bits - 8));
    Shifted(net.first, i);
    Shifted(net.first, j);
  }

  lemma Shifted(first: nat, i: nat)
    requires first % 0x100 == 0
    ensures (first + i) / 0x100 == first / 0x100 + i / 0x100
  {
  }

  lemma {:induction false} Blocks(bits: nat)
    requires bits >= 8
    ensures Pow2(bits) == 0x100 * Pow2(bits - 8)
  {
    if bits == 8 {
      Pow2Eight();
    } else {
      Blocks(bits - 1);
    }
  }

  /** A multiple of 256 times something is a multiple of 256. */
  lemma Divisible(n: nat, blocks: nat)
    requires blocks > 0 && n % (0x100 * blocks) == 0
    ensures n % 0x100 == 0
  {
    var q := n / (0x100 * blocks);
    assert n == q * (0x100 * blocks) == 0x100 * (q * blocks);
  }

  // ---------------------------------------------------------------------------------------------------------
  // Blocks of IPv6 addresses
  // ---------------------------------------------------------------------------------------------------------

  const BLOCK: nat := 0x1_0000

  /** The middle of an address made from a hardware address is ff:fe. */
  predicate Eui64(n: nat)
  {
    n / 0x100_0000 % 0x1_0000 == 0xfffe
  }

  /** An address with an upper part, ff:fe, and the last 24 bits. */
  function MadeFrom(upper: nat, last: nat): nat
  {
    upper * 0x100_0000_0000 + 0xfffe * 0x100_0000 + last
  }

  /** Above the ff:fe there may be anything, and below it are 24 bits of the hardware address. */
  lemma Eui64Means(n: nat)
    ensures Eui64(n) <==> exists upper: nat, last: nat :: last < 0x100_0000 && n == MadeFrom(upper, last)
  {
    if Eui64(n) {
      var q := n / 0x100_0000;
      assert n == q * 0x100_0000 + n % 0x100_0000 && q == q / 0x1_0000 * 0x1_0000 + 0xfffe;
      assert n == MadeFrom(q / 0x1_0000, n % 0x100_0000);
    }
    if upper: nat, last: nat :| last < 0x100_0000 && n == MadeFrom(upper, last) {
      var q := upper * 0x1_0000 + 0xfffe;
      assert n == q * 0x100_0000 + last;
      assert n / 0x100_0000 == q;
    }
  }

  /** The last sixteen bits from zero to ffff. */
  function BlockOf(n: nat): Target
  {
    SixEnum(Literal(Address(V6, n - n % BLOCK)), Literal(Address(V6, n - n % BLOCK + (BLOCK - 1))))
  }

  method ProjectSixEnumTargets(hosts: seq<nat>) returns (targets: set<Target>)
    ensures targets == set h | h in hosts && !Eui64(h) :: BlockOf(h)
  {
    hide Eui64;
    targets := {};
    for i := 0 to |hosts|
      invariant targets == set h | h in hosts[..i] && !Eui64(h) :: BlockOf(h)
    {
      assert hosts[..i + 1] == hosts[..i] + [hosts[i]];
      if Eui64(hosts[i]) {
        continue;
      }
      targets := targets + {BlockOf(hosts[i])};
    }
    assert hosts[..|hosts|] == hosts;
  }

  /** The block of a host covers it and 65536 addresses in all, and all are counted as the target itself. */
  lemma BlockCovers(n: nat, m: nat)
    requires n < Space(V6)
    ensures var t := BlockOf(n);
            var a, b := t.first.address.n, t.last.address.n;
            && a <= n <= b < Space(V6) && b - a + 1 == BLOCK
            && (a <= m <= b <==> m / BLOCK == n / BLOCK)
            && (a <= m <= b ==> HashOfHost(Literal(Address(V6, m))) == Hashval(t) && BlockOf(m) == t)
  {
    var t := BlockOf(n);
    var a, b := t.first.address.n, t.last.address.n;
    assert n == n / BLOCK * BLOCK + n % BLOCK && m == m / BLOCK * BLOCK + m % BLOCK;
    if a <= m <= b {
      assert m / BLOCK == n / BLOCK;
      SameShare(m, a);
    }
    assert n / BLOCK < Space(V6) / BLOCK;
  }

  lemma SameShare(m: nat, a: nat)
    requires m / BLOCK == a / BLOCK
    ensures m / Share(V6) == a / Share(V6)
  {
    Nested(m);
    Nested(a);
  }

  lemma Nested(n: nat)
    ensures n / Share(V6) == n / BLOCK / 0x1_0000_0000_0000_0000
  {
  }

  // ---------------------------------------------------------------------------------------------------------
  // What is counted together
  // ---------------------------------------------------------------------------------------------------------

  function ShareBits(f: Family): nat
  {
    if f == V4 then 8 else 80
  }

  lemma {:induction false} Pow2Sum(k: nat, m: nat)
    ensures Pow2(k + m) == Pow2(k) * Pow2(m)
  {
    if m != 0 {
      Pow2Sum(k, m - 1);
      assert Pow2(k) * (2 * Pow2(m - 1)) == 2 * (Pow2(k) * Pow2(m - 1));
    }
  }

  lemma ShareIsPow2(f: Family)
    ensures Share(f) == Pow2(ShareBits(f))
  {
    hide Pow2;
    Pow2Eight();
    Pow2Sum(8, 8);
    Pow2Sum(16, 16);
    Pow2Sum(32, 32);
    Pow2Sum(64, 16);
  }

  /** The network of 24 bits, or 48 in IPv6, around an address. */
  function ShareOf(a: Address): Network
  {
    Network(a.family, a.n - a.n % Share(a.family), ShareBits(a.family))
  }

  /**
    Two addresses are counted together exactly when they are in the same network of 24 bits, or 48 in IPv6.  Services
    are counted as their hosts, and enumerations as their first addresses.  A name is counted by itself.
  */
  lemma CountedTogether(a: Address, b: Address, proto: string, port: string, last: Host)
    requires a.n < Space(a.family)
    ensures ShareOf(a).Valid() && ShareOf(a).Contains(a)
    ensures Hashval(Plain(Literal(a))) == Hashval(Plain(Literal(b))) <==> ShareOf(a).Contains(b)
    ensures Hashval(Service(proto, Literal(a), port)) == Hashval(Plain(Literal(a)))
    ensures Hashval(SixEnum(Literal(a), last)) == Hashval(Plain(Literal(a)))
    ensures forall x, h: Host :: Hashval(Plain(h)) == Hashval(Plain(Host.Name(x))) <==> h == Host.Name(x)
    ensures forall x :: Hashval(Service(proto, Host.Name(x), port)) == Hashval(Plain(Host.Name(x)))
  {
    hide Pow2;
    ShareIsPow2(a.family);
    var size := Share(a.family);
    assert a.n == a.n / size * size + a.n % size;
  }
}
