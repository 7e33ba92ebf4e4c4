/**
  Addresses, scan targets and the networks they are accounted to.  Text is parsed before it gets here: an address is
  a number with a family, and a host that is not an address is a name.
*/
module Networks {
  import opened Bytes

  datatype Family = V4 | V6

  /** How many addresses a family has: two to the power of 32 or 128. */
  function Space(f: Family): nat
  {
    if f == V4 then 0x1_0000_0000 else 0x1_0000_0000_0000_0000_0000_0000_0000_0000
  }

  /** How many addresses are counted together: those of a network of 24 or 48 bits. */
  function Share(f: Family): nat
  {
    if f == V4 then 0x100 else 0x1_0000_0000_0000_0000_0000
  }

  datatype Address = Address(family: Family, n: nat)

  /** A name is never empty. */
  type Name = s: string | s != "" witness "-"

  datatype Host = Literal(address: Address) | Name(name: Name)

  /**
    A scan target: a host, a service on a host, or an enumeration from one address to another.  The bounds of an
    enumeration are names when they are not well-formed addresses.
  */
  datatype Target =
    | Plain(host: Host)
    | Service(proto: string, host: Host, port: string)
    | SixEnum(first: Host, last: Host)

  /** What targets are counted by: a network of 24 or 48 bits, or the text itself. */
  datatype Hash = Net(family: Family, network: nat) | Text(name: Name)

  function HashOfHost(h: Host): Hash
  {
    match h
    case Literal(a) => Net(a.family, a.n / Share(a.family))
    case Name(name) => Text(name)
  }

  function Hashval(t: Target): Hash
  {
    match t
    case Plain(host) => HashOfHost(host)
    case Service(_, host, _) => HashOfHost(host)
    case SixEnum(first, _) => HashOfHost(first)
  }

  // ---------------------------------------------------------------------------------------------------------
  // Networks
  // ---------------------------------------------------------------------------------------------------------

  /** The addresses first .. first + 2^bits - 1 of a family; first has no host bits. */
  datatype Network = Network(family: Family, first: nat, bits: nat)
  {
    ghost predicate Valid()
    {
      first % Pow2(bits) == 0 && first + Pow2(bits) <= Space(family)
    }

    function Last(): nat
    {
      first + Pow2(bits) - 1
    }

    /** The network part of the address is the network. */
    predicate Contains(a: Address)
    {
      a.family == family && a.n / Pow2(bits) == first / Pow2(bits)
    }
  }

  lemma QuotientSame(n: nat, first: nat, size: nat)
    requires size > 0 && first % size == 0
    ensures n / size == first / size <==> first <= n < first + size
  {
    var q, p := first / size, n / size;
    assert first == q * size && n == p * size + n % size;
    Apart(p, q, size);
    Apart(q, p, size);
  }

  lemma {:induction false} Apart(p: nat, q: nat, size: nat)
    ensures p > q ==> p * size >= q * size + size
  {
    if p > q {
      assert p * size == (p - 1) * size + size;
      Apart(p - 1, q, size);
    }
  }

  /** Containment by network bits is containment in the range of addresses. */
  lemma ContainsRange(net: Network, a: Address)
    requires net.Valid()
    ensures net.Contains(a) <==> a.family == net.family && net.first <= a.n <= net.Last()
  {
    QuotientSame(a.n, net.first, Pow2(net.bits));
  }

  // ---------------------------------------------------------------------------------------------------------
  // Exclusions
  // ---------------------------------------------------------------------------------------------------------

  /** A rule: a network, or a search in the text of the target. */
  datatype Exclusion = InNetwork(net: Network) | InText(search: string -> bool)

  datatype Match = Excluded | Clear | Raised

  predicate TestHost(net: Network, h: Host)
  {
    h.Literal? && net.Contains(h.address)
  }

  /** A malformed bound of an enumeration raises an error that no one handles. */
  function MatchNetwork(net: Network, t: Target): Match
  {
    match t
    case Plain(host) => if TestHost(net, host) then Excluded else Clear
    case Service(_, host, _) => if TestHost(net, host) then Excluded else Clear
    case SixEnum(first, last) =>
      if first.Name? || last.Name? then Raised
      else if TestHost(net, first) || TestHost(net, last) then Excluded
      else
        var a, b := first.address, last.address;
        if a.family == net.family && (a.n <= net.first <= b.n || a.n <= net.Last() <= b.n) then Excluded
        else Clear
  }

  function MatchOne(rule: Exclusion, text: string, t: Target): Match
  {
    match rule
    case InNetwork(net) => MatchNetwork(net, t)
    case InText(search) => if search(text) then Excluded else Clear
  }

  /** The rules in order, up to the first that matches. */
  function MatchAll(rules: seq<Exclusion>, text: string, t: Target): Match
  {
    if rules == [] then Clear
    else
      var m := MatchOne(rules[0], text, t);
      if m == Clear then MatchAll(rules[1..], text, t) else m
  }

  /** An address that the target is about: its host, or any between the bounds of an enumeration. */
  ghost predicate Reaches(t: Target, a: Address)
  {
    match t
    case Plain(host) => host == Literal(a)
    case Service(_, host, _) => host == Literal(a)
    case SixEnum(first, last) =>
      && first.Literal? && last.Literal?
      && first.address.family == a.family == last.address.family && first.address.n <= a.n <= last.address.n
  }

  ghost predicate InRange(net: Network, a: Address)
  {
    a.family == net.family && net.first <= a.n <= net.Last()
  }

  /** What a rule is there to keep from being scanned. */
  ghost predicate Forbids(rule: Exclusion, text: string, t: Target)
  {
    match rule
    case InNetwork(net) => exists a :: Reaches(t, a) && InRange(net, a)
    case InText(search) => search(text)
  }

  /** An enumeration between whose bounds no address lies. */
  predicate Empty(t: Target)
  {
    && t.SixEnum? && t.first.Literal? && t.last.Literal?
    && !(t.first.address.family == t.last.address.family && t.first.address.n <= t.last.address.n)
  }

  /** An enumeration with a bound that is no address. */
  predicate Malformed(t: Target)
  {
    t.SixEnum? && (t.first.Name? || t.last.Name?)
  }

  /** Both bounds of an enumeration are of one family, as they share all but their last part. */
  predicate OneFamily(t: Target)
  {
    t.SixEnum? && !Malformed(t) ==> t.first.address.family == t.last.address.family
  }

  /** The bounds of the network, and of the addresses that an enumeration reaches, decide whether the two meet. */
  lemma SixEnumMeets(net: Network, a: Address, b: Address)
    requires net.Valid() && a.family == b.family && a.n <= b.n
    ensures Forbids(InNetwork(net), "", SixEnum(Literal(a), Literal(b)))
            <==> a.family == net.family && a.n <= net.Last() && net.first <= b.n
  {
    hide Pow2;
    var t := SixEnum(Literal(a), Literal(b));
    if a.family == net.family && a.n <= net.Last() && net.first <= b.n {
      var c := if a.n <= net.first then Address(a.family, net.first) else a;
      assert Reaches(t, c) && InRange(net, c);
    }
  }

  /**
    A network excludes a target exactly when it holds an address that the target reaches.  Bounds the wrong way round
    are the only exception: nothing is between them, yet a bound that lies in the network is matched.
  */
  lemma NetworkExcludes(net: Network, text: string, t: Target)
    requires net.Valid() && OneFamily(t) && !Malformed(t)
    ensures MatchNetwork(net, t) != Raised
    ensures MatchNetwork(net, t) == Excluded
            <==> Forbids(InNetwork(net), text, t)
                 || (Empty(t) && (InRange(net, t.first.address) || InRange(net, t.last.address)))
  {
    hide Pow2;
    match t
    case Plain(host) =>
      HostExcluded(net, host, "", "");
      assert host.Literal? ==> Reaches(t, host.address);
    case Service(proto, host, port) =>
      HostExcluded(net, host, proto, port);
      assert host.Literal? ==> Reaches(t, host.address);
    case SixEnum(first, last) =>
      ContainsRange(net, first.address);
      ContainsRange(net, last.address);
      if !Empty(t) {
        SixEnumMeets(net, first.address, last.address);
      }
  }

  /** An address or a service is excluded exactly in the range of the network, and a name never is. */
  lemma HostExcluded(net: Network, host: Host, proto: string, port: string)
    requires net.Valid()
    ensures MatchNetwork(net, Plain(host)) == MatchNetwork(net, Service(proto, host, port))
            == if host.Literal? && host.address.family == net.family && net.first <= host.address.n <= net.Last()
               then Excluded else Clear
  {
    hide Pow2;
    if host.Literal? {
      ContainsRange(net, host.address);
    }
  }

  /** The wrong way round: no address is between the bounds, yet the first of them is in the network. */
  lemma BackwardsExcluded()
    ensures var net, a, b := Network(V6, 16, 4), Address(V6, 20), Address(V6, 5);
            net.Valid() && !Forbids(InNetwork(net), "", SixEnum(Literal(a), Literal(b)))
            && MatchNetwork(net, SixEnum(Literal(a), Literal(b))) == Excluded
  {
    assert Pow2(4) == 16;
    NetworkExcludes(Network(V6, 16, 4), "", SixEnum(Literal(Address(V6, 20)), Literal(Address(V6, 5))));
  }

  /** The first rule that is not clear decides; only a network and a malformed enumeration raise. */
  lemma {:induction false} MatchAllOutcome(rules: seq<Exclusion>, text: string, t: Target)
    ensures var m := MatchAll(rules, text, t);
            && (m == Clear <==> forall i :: 0 <= i < |rules| ==> MatchOne(rules[i], text, t) == Clear)
            && (m != Clear ==> exists i :: 0 <= i < |rules| && MatchOne(rules[i], text, t) == m
                                           && forall j :: 0 <= j < i ==> MatchOne(rules[j], text, t) == Clear)
            && (m == Raised ==> Malformed(t))
  {
    hide MatchOne;
    if rules != [] {
      var rest := rules[1..];
      RaisedOnly(rules[0], text, t);
      MatchAllOutcome(rest, text, t);
      if MatchOne(rules[0], text, t) == Clear {
        assert forall i :: 1 <= i < |rules| ==> rules[i] == rest[i - 1];
        assert forall i :: 0 <= i < |rest| ==> rest[i] == rules[i + 1];
      }
    }
  }

  lemma RaisedOnly(rule: Exclusion, text: string, t: Target)
    ensures MatchOne(rule, text, t) == Raised <==> rule.InNetwork? && Malformed(t)
  {
  }

  /** Networks have no host bits. */
  ghost predicate ValidRules(rules: seq<Exclusion>)
  {
    forall i :: 0 <= i < |rules| && rules[i].InNetwork? ==> rules[i].net.Valid()
  }

  /**
    The rules let a target pass only if none of them forbids it, and they exclude it only if one does; the exception
    are again bounds with nothing between them.
  */
  lemma RulesExclude(rules: seq<Exclusion>, text: string, t: Target)
    requires ValidRules(rules)
    ensures MatchAll(rules, text, t) == Clear ==> forall i :: 0 <= i < |rules| ==> !Forbids(rules[i], text, t)
    ensures MatchAll(rules, text, t) == Excluded ==>
              Empty(t) || exists i :: 0 <= i < |rules| && Forbids(rules[i], text, t)
    ensures (forall i :: 0 <= i < |rules| ==> !Forbids(rules[i], text, t)) && !Empty(t) && !Malformed(t) ==>
              MatchAll(rules, text, t) == Clear
  {
    hide Forbids, MatchNetwork, MatchAll;
    MatchAllOutcome(rules, text, t);
    forall i | 0 <= i < |rules|
      ensures MatchOne(rules[i], text, t) == Clear ==> !Forbids(rules[i], text, t)
      ensures MatchOne(rules[i], text, t) == Excluded ==> Empty(t) || Forbids(rules[i], text, t)
    {
      RuleExcludes(rules[i], text, t);
    }
  }

  lemma RuleExcludes(rule: Exclusion, text: string, t: Target)
    requires rule.InNetwork? ==> rule.net.Valid()
    ensures MatchOne(rule, text, t) == Clear ==> !Forbids(rule, text, t)
    ensures MatchOne(rule, text, t) == Excluded ==> Empty(t) || Forbids(rule, text, t)
    ensures MatchOne(rule, text, t) == Raised ==> Malformed(t)
  {
    hide MatchNetwork, Pow2;
    RaisedOnly(rule, text, t);
    if rule.InNetwork? {
      if OneFamily(t) && !Malformed(t) {
        NetworkExcludes(rule.net, text, t);
      }
    }
  }
}
