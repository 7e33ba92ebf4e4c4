/**
  The database of parsed items: tables in order of insertion, whose items refer to hosts and services by number.
*/
module ParsedItems {
  import opened StorageView

  datatype Item<K> = Item(iid: nat, key: K, fields: Fields)

  datatype ServiceId = ServiceId(host: nat, port: Port)

  datatype VulnId = VulnId(host: nat, service: Option<nat>, name: string, xtype: string, via: Option<string>)

  datatype NoteId = NoteId(host: nat, service: Option<nat>, xtype: string, via: Option<string>)

  datatype Pidb = Pidb(hosts: seq<Item<string>>, services: seq<Item<ServiceId>>, vulns: seq<Item<VulnId>>,
                       notes: seq<Item<NoteId>>)

  // ---------------------------------------------------------------------------------------------------------
  // One table
  // ---------------------------------------------------------------------------------------------------------

  /** Lists grow, other values are replaced unless the new one is missing. */
  function Merge(fields: Fields, new_: Fields): Fields
  {
    fields + map a | a in new_ && !new_[a].Missing? :: MergeValue(fields, a, new_[a])
  }

  function MergeValue(fields: Fields, a: string, v: Value): Value
  {
    if v.List? then List((if a in fields && fields[a].List? then fields[a].items else []) + v.items) else v
  }

  /**
    What an update is to do with the attributes of an item: one that it says nothing of stays, a list grows at its end,
    and any other one gets the new value.
  */
  ghost predicate Updated(before: Fields, said: Fields, after: Fields)
  {
    forall a ::
      if a !in said || said[a].Missing? then
        (a in after <==> a in before) && (a in before ==> after[a] == before[a])
      else if said[a].List? then
        a in after && after[a] == List((if a in before && before[a].List? then before[a].items else []) + said[a].items)
      else
        a in after && after[a] == said[a]
  }

  lemma MergeMeans(f: Fields, g: Fields)
    ensures Updated(f, g, Merge(f, g))
  {
  }

  /** What an update says: missing values say nothing. */
  function Said(fields: Fields): Fields
  {
    map a | a in fields && !fields[a].Missing? :: fields[a]
  }

  /** The same attributes are lists in both. */
  ghost predicate Agree(f: Fields, g: Fields)
  {
    forall a :: a in f && a in g && !f[a].Missing? && !g[a].Missing? ==> f[a].List? == g[a].List?
  }

  lemma MergeAt(f: Fields, g: Fields, a: string)
    ensures a in Merge(f, g) <==> a in f || (a in g && !g[a].Missing?)
    ensures a in Merge(f, g) ==> Merge(f, g)[a] == if a in g && !g[a].Missing? then MergeValue(f, a, g[a]) else f[a]
  {
  }

  /** Updates compose: nothing is lost or counted twice, however they are grouped. */
  lemma MergeMonoid(f: Fields, g: Fields, h: Fields)
    requires Agree(f, g) && Agree(g, h) && Agree(f, h)
    ensures Merge(f, map[]) == f && Merge(map[], g) == Said(g)
    ensures Merge(Merge(f, g), h) == Merge(f, Merge(g, h))
  {
    hide Merge;
    var none: Fields := map[];
    forall a
      ensures a in Merge(f, none) <==> a in f
      ensures a in f ==> Merge(f, none)[a] == f[a]
      ensures a in Merge(none, g) <==> a in Said(g)
      ensures a in Said(g) ==> Merge(none, g)[a] == Said(g)[a]
    {
      MergeAt(f, none, a);
      MergeAt(none, g, a);
    }
    assert Merge(f, none) == f && Merge(none, g) == Said(g);
    forall a
      ensures a in Merge(Merge(f, g), h) <==> a in Merge(f, Merge(g, h))
      ensures a in Merge(f, Merge(g, h)) ==> Merge(Merge(f, g), h)[a] == Merge(f, Merge(g, h))[a]
    {
      MergeAssociative(f, g, h, a);
    }
  }

  lemma MergeAssociative(f: Fields, g: Fields, h: Fields, a: string)
    requires Agree(f, g) && Agree(g, h) && Agree(f, h)
    ensures a in Merge(Merge(f, g), h) <==> a in Merge(f, Merge(g, h))
    ensures a in Merge(f, Merge(g, h)) ==> Merge(Merge(f, g), h)[a] == Merge(f, Merge(g, h))[a]
  {
    hide Merge;
    MergeAt(f, g, a);
    MergeAt(Merge(f, g), h, a);
    MergeAt(g, h, a);
    MergeAt(f, Merge(g, h), a);
    if a in f && a in g && a in h && f[a].List? && g[a].List? && h[a].List? {
      assert f[a].items + g[a].items + h[a].items == f[a].items + (g[a].items + h[a].items);
    }
  }

  /** The position of the first item with a key, or the number of items. */
  function Find<K(==)>(items: seq<Item<K>>, key: K): (i: nat)
    ensures i <= |items| && (i < |items| ==> items[i].key == key)
    ensures forall j :: 0 <= j < i ==> items[j].key != key
  {
    if items == [] || items[0].key == key then 0 else 1 + Find(items[1..], key)
  }

  /** Updates the first item with the key, or appends one whose number is its position. */
  function Upsert<K(==)>(items: seq<Item<K>>, key: K, fields: Fields): seq<Item<K>>
  {
    var i := Find(items, key);
    if i < |items| then items[i := items[i].(fields := Merge(items[i].fields, fields))]
    else items + [Item(i, key, fields)]
  }

  ghost predicate Positioned<K>(items: seq<Item<K>>)
  {
    forall i :: 0 <= i < |items| ==> items[i].iid == i
  }

  ghost predicate UniqueKeys<K>(items: seq<Item<K>>)
  {
    forall i, j :: 0 <= i < j < |items| ==> items[i].key != items[j].key
  }

  /** Numbers and keys of items never change, and a new item is the only one with its key. */
  lemma UpsertKeeps<K>(items: seq<Item<K>>, key: K, fields: Fields)
    requires Positioned(items) && UniqueKeys(items)
    ensures var after := Upsert(items, key, fields);
            && Positioned(after) && UniqueKeys(after) && |items| <= |after|
            && (forall i :: 0 <= i < |items| ==> after[i].key == items[i].key)
            && (forall i :: |items| <= i < |after| ==> after[i].key == key)
            && var at := Find(items, key);
            && at < |after| && after[at].key == key
            && after[at].fields == (if at < |items| then Merge(items[at].fields, fields) else fields)
            && forall i :: 0 <= i < |items| && items[i].key != key ==> after[i] == items[i]
  {
  }

  /** What an upsert is to do: update the item with the key and no other, or append one if there is none. */
  ghost predicate Upserted<K>(before: seq<Item<K>>, key: K, fields: Fields, after: seq<Item<K>>)
  {
    if HasKey(before, key) then
      && |after| == |before|
      && forall i :: 0 <= i < |before| ==>
           && after[i].iid == before[i].iid && after[i].key == before[i].key
           && if before[i].key == key then Updated(before[i].fields, fields, after[i].fields)
              else after[i].fields == before[i].fields
    else
      after == before + [Item(|before|, key, fields)]
  }

  ghost predicate HasKey<K>(items: seq<Item<K>>, key: K)
  {
    exists i :: 0 <= i < |items| && items[i].key == key
  }

  lemma UpsertMeans<K>(items: seq<Item<K>>, key: K, fields: Fields)
    requires UniqueKeys(items)
    ensures Upserted(items, key, fields, Upsert(items, key, fields))
  {
    hide Merge, Updated;
    var i := Find(items, key);
    if i < |items| {
      MergeMeans(items[i].fields, fields);
    }
  }

  // ---------------------------------------------------------------------------------------------------------
  // All tables
  // ---------------------------------------------------------------------------------------------------------

  /** Numbers are positions, keys are unique, and items are on the hosts of their services. */
  ghost predicate WellFormed(p: Pidb)
  {
    && Positioned(p.hosts) && Positioned(p.services) && Positioned(p.vulns) && Positioned(p.notes)
    && UniqueKeys(p.hosts) && UniqueKeys(p.services) && UniqueKeys(p.vulns) && UniqueKeys(p.notes)
    && (forall s :: s in p.services ==> s.key.host < |p.hosts|)
    && (forall v :: v in p.vulns ==> Placed(p, v.key.host, v.key.service))
    && (forall n :: n in p.notes ==> Placed(p, n.key.host, n.key.service))
  }

  ghost predicate Placed(p: Pidb, host: nat, service: Option<nat>)
  {
    && host < |p.hosts|
    && (service.Some? ==> service.value < |p.services| && p.services[service.value].key.host == host)
  }

  // ---------------------------------------------------------------------------------------------------------
  // Filtering
  // ---------------------------------------------------------------------------------------------------------

  ghost predicate UniqueIids<K>(items: seq<Item<K>>)
  {
    forall i, j :: 0 <= i < j < |items| ==> items[i].iid != items[j].iid
  }

  /** The address of the host with a number. */
  function AddressOf(hosts: seq<Item<string>>, iid: nat): Option<string>
  {
    if hosts == [] then None else if hosts[0].iid == iid then Some(hosts[0].key) else AddressOf(hosts[1..], iid)
  }

  lemma {:induction false} AddressMeans(hosts: seq<Item<string>>, iid: nat)
    requires UniqueIids(hosts)
    ensures AddressOf(hosts, iid).Some? <==> exists h :: h in hosts && h.iid == iid
    ensures forall h :: h in hosts && h.iid == iid ==> AddressOf(hosts, iid) == Some(h.key)
  {
    if hosts != [] {
      AddressMeans(hosts[1..], iid);
      assert hosts == [hosts[0]] + hosts[1..];
      forall h | h in hosts[1..]
        ensures h.iid != hosts[0].iid
      {
        var i :| 0 <= i < |hosts[1..]| && hosts[1..][i] == h;
        assert hosts[i + 1] == h;
      }
    }
  }

  /** No reference dangles: what stays true when items are removed and positions shift. */
  ghost predicate Sound(p: Pidb)
  {
    && UniqueIids(p.hosts) && UniqueIids(p.services) && UniqueIids(p.vulns) && UniqueIids(p.notes)
    && UniqueKeys(p.hosts) && UniqueKeys(p.services) && UniqueKeys(p.vulns) && UniqueKeys(p.notes)
    && (forall s :: s in p.services ==> AddressOf(p.hosts, s.key.host).Some?)
    && (forall v :: v in p.vulns ==> OnHost(p, v.key.host, v.key.service))
    && (forall n :: n in p.notes ==> OnHost(p, n.key.host, n.key.service))
  }

  ghost predicate OnHost(p: Pidb, host: nat, service: Option<nat>)
  {
    && AddressOf(p.hosts, host).Some?
    && (service.Some? ==> exists s :: s in p.services && s.iid == service.value && s.key.host == host)
  }

  lemma WellFormedIsSound(p: Pidb)
    requires WellFormed(p)
    ensures Sound(p)
  {
    forall i | 0 <= i < |p.hosts|
      ensures AddressOf(p.hosts, i).Some?
    {
      AddressMeans(p.hosts, i);
      assert p.hosts[i] in p.hosts;
    }
    forall h: nat, s | Placed(p, h, s)
      ensures OnHost(p, h, s)
    {
      assert s.Some? ==> p.services[s.value] in p.services;
    }
  }

  /** How many of the services are on hosts with an address. */
  function Count(hosts: seq<Item<string>>, services: seq<Item<ServiceId>>, address: string): nat
  {
    if services == [] then 0
    else
      var k := |services| - 1;
      Count(hosts, services[..k], address) + if AddressOf(hosts, services[k].key.host) == Some(address) then 1 else 0
  }

  function Keep<K>(items: seq<Item<K>>, keep: Item<K> -> bool): seq<Item<K>>
  {
    if items == [] then []
    else
      var k := |items| - 1;
      Keep(items[..k], keep) + if keep(items[k]) then [items[k]] else []
  }

  lemma {:induction false} KeepIn<K>(items: seq<Item<K>>, keep: Item<K> -> bool, x: Item<K>)
    ensures x in Keep(items, keep) <==> x in items && keep(x)
  {
    if items != [] {
      var k := |items| - 1;
      KeepIn(items[..k], keep, x);
      assert items == items[..k] + [items[k]];
    }
  }

  lemma {:induction false} KeepUnique<K>(items: seq<Item<K>>, keep: Item<K> -> bool)
    ensures UniqueIids(items) ==> UniqueIids(Keep(items, keep))
    ensures UniqueKeys(items) ==> UniqueKeys(Keep(items, keep))
  {
    if items != [] {
      var k := |items| - 1;
      KeepUnique(items[..k], keep);
      var kept := Keep(items[..k], keep);
      forall i | 0 <= i < |kept|
        ensures exists j :: 0 <= j < k && items[j] == kept[i]
      {
        KeepIn(items[..k], keep, kept[i]);
        var j :| 0 <= j < k && items[..k][j] == kept[i];
        assert items[j] == kept[i];
      }
    }
  }

  lemma KeepMeans<K>(items: seq<Item<K>>, keep: Item<K> -> bool)
    ensures forall x :: x in Keep(items, keep) <==> x in items && keep(x)
    ensures UniqueIids(items) ==> UniqueIids(Keep(items, keep))
    ensures UniqueKeys(items) ==> UniqueKeys(Keep(items, keep))
  {
    hide Keep;
    forall x
      ensures x in Keep(items, keep) <==> x in items && keep(x)
    {
      KeepIn(items, keep, x);
    }
    KeepUnique(items, keep);
  }

  lemma {:induction false} KeepSame<K>(items: seq<Item<K>>, f: Item<K> -> bool, g: Item<K> -> bool)
    requires forall x :: x in items ==> f(x) == g(x)
    ensures Keep(items, f) == Keep(items, g)
  {
    if items != [] {
      KeepSame(items[..|items| - 1], f, g);
    }
  }

  /** Hosts with an address have at most so many services. */
  predicate Few(p: Pidb, address: Option<string>, threshold: nat)
  {
    address.Some? ==> Count(p.hosts, p.services, address.value) <= threshold
  }

  predicate FewOn(p: Pidb, host: nat, threshold: nat)
  {
    Few(p, AddressOf(p.hosts, host), threshold)
  }

  /** The host of an item has one of the addresses. */
  predicate OnAny(hosts: seq<Item<string>>, host: nat, addresses: set<string>)
  {
    AddressOf(hosts, host).Some? && AddressOf(hosts, host).value in addresses
  }

  lemma {:induction false} KeepAll<K>(items: seq<Item<K>>, keep: Item<K> -> bool)
    requires forall x :: x in items ==> keep(x)
    ensures Keep(items, keep) == items
  {
    if items != [] {
      KeepAll(items[..|items| - 1], keep);
      assert items == items[..|items| - 1] + [items[|items| - 1]];
    }
  }

  /** The hosts with at most so many services, and what is on them. */
  function WithoutTarpits(p: Pidb, threshold: nat): Pidb
  {
    Pidb(Keep(p.hosts, (h: Item<string>) => Few(p, Some(h.key), threshold)),
         Keep(p.services, (s: Item<ServiceId>) => FewOn(p, s.key.host, threshold)),
         Keep(p.vulns, (v: Item<VulnId>) => FewOn(p, v.key.host, threshold)),
         Keep(p.notes, (n: Item<NoteId>) => FewOn(p, n.key.host, threshold)))
  }

  /** With unique addresses, the services of an address are those of one host. */
  lemma {:induction false} CountIsServices(hosts: seq<Item<string>>, services: seq<Item<ServiceId>>, h: Item<string>)
    requires UniqueIids(hosts) && UniqueKeys(hosts) && h in hosts
    requires forall s :: s in services ==> AddressOf(hosts, s.key.host).Some?
    ensures Count(hosts, services, h.key) == |Keep(services, (s: Item<ServiceId>) => s.key.host == h.iid)|
  {
    if services != [] {
      var k := |services| - 1;
      CountIsServices(hosts, services[..k], h);
      var host := services[k].key.host;
      assert services[k] in services;
      AddressMeans(hosts, host);
      var g :| g in hosts && g.iid == host;
      var i :| 0 <= i < |hosts| && hosts[i] == g;
      var j :| 0 <= j < |hosts| && hosts[j] == h;
      assert i != j ==> g.key != h.key && g.iid != h.iid;
    }
  }

  /** The hosts that go are those with more services than the threshold, and no reference to them stays. */
  lemma TarpitsGone(p: Pidb, threshold: nat)
    requires Sound(p)
    ensures var q := WithoutTarpits(p, threshold);
            && Sound(q)
            && (forall h :: h in q.hosts ==> h in p.hosts) && (forall s :: s in q.services ==> s in p.services)
            && (forall v :: v in q.vulns ==> v in p.vulns) && (forall n :: n in q.notes ==> n in p.notes)
            && (forall h :: h in p.hosts ==>
                  (h in q.hosts <==> |Keep(p.services, (s: Item<ServiceId>) => s.key.host == h.iid)| <= threshold))
            && (forall s :: s in p.services ==> (s in q.services <==> AddressOf(q.hosts, s.key.host).Some?))
            && (forall v :: v in p.vulns ==> (v in q.vulns <==> AddressOf(q.hosts, v.key.host).Some?))
            && (forall n :: n in p.notes ==> (n in q.notes <==> AddressOf(q.hosts, n.key.host).Some?))
  {
    hide Keep, Count, AddressOf;
    var q := WithoutTarpits(p, threshold);
    KeepMeans(p.hosts, (h: Item<string>) => Few(p, Some(h.key), threshold));
    KeepMeans(p.services, (s: Item<ServiceId>) => FewOn(p, s.key.host, threshold));
    KeepMeans(p.vulns, (v: Item<VulnId>) => FewOn(p, v.key.host, threshold));
    KeepMeans(p.notes, (n: Item<NoteId>) => FewOn(p, n.key.host, threshold));
    forall h | h in p.hosts
      ensures h in q.hosts <==> |Keep(p.services, (s: Item<ServiceId>) => s.key.host == h.iid)| <= threshold
    {
      CountIsServices(p.hosts, p.services, h);
    }
    forall iid: nat | AddressOf(p.hosts, iid).Some?
      ensures AddressOf(q.hosts, iid).Some? <==> FewOn(p, iid, threshold)
    {
      AddressMeans(p.hosts, iid);
      AddressMeans(q.hosts, iid);
    }
  }

  /** What is left without the hosts with some addresses and everything on them, however it is written. */
  ghost predicate RemovedOn(p: Pidb, q: Pidb, over: set<string>)
  {
    && (forall f: Item<string> -> bool ::
          (forall x :: x in p.hosts ==> f(x) == !(x.key in over)) ==> q.hosts == Keep(p.hosts, f))
    && (forall f: Item<ServiceId> -> bool ::
          (forall x :: x in p.services ==> f(x) == !OnAny(p.hosts, x.key.host, over))
          ==> q.services == Keep(p.services, f))
    && (forall f: Item<VulnId> -> bool ::
          (forall x :: x in p.vulns ==> f(x) == !OnAny(p.hosts, x.key.host, over)) ==> q.vulns == Keep(p.vulns, f))
    && (forall f: Item<NoteId> -> bool ::
          (forall x :: x in p.notes ==> f(x) == !OnAny(p.hosts, x.key.host, over)) ==> q.notes == Keep(p.notes, f))
  }

  class ParsedItemsDb {
    var hosts: seq<Item<string>>
    var services: seq<Item<ServiceId>>
    var vulns: seq<Item<VulnId>>
    var notes: seq<Item<NoteId>>

    ghost function Contents(): Pidb
      reads this
    {
      Pidb(hosts, services, vulns, notes)
    }

    constructor ()
      ensures Contents() == Pidb([], [], [], []) && WellFormed(Contents())
    {
      hosts, services, vulns, notes := [], [], [], [];
    }

    static method Search<K(==)>(items: seq<Item<K>>, key: K) returns (i: nat)
      ensures i == Find(items, key)
    {
      i := 0;
      while i < |items| && items[i].key != key
        invariant i <= |items| && Find(items, key) == i + Find(items[i..], key)
      {
        assert items[i..][1..] == items[i + 1..];
        i := i + 1;
      }
    }

    method UpsertHost(address: string, fields: Fields) returns (iid: nat)
      requires WellFormed(Contents())
      modifies this`hosts
      ensures WellFormed(Contents()) && hosts == Upsert(old(hosts), address, fields)
      ensures Upserted(old(hosts), address, fields, hosts)
      ensures iid == Find(old(hosts), address) && iid < |hosts| && hosts[iid].key == address
    {
      hide Merge, Upserted;
      UpsertMeans(hosts, address, fields);
      UpsertKeeps(hosts, address, fields);
      iid := Search(hosts, address);
      if iid < |hosts| {
        hosts := hosts[iid := hosts[iid].(fields := Merge(hosts[iid].fields, fields))];
      } else {
        hosts := hosts + [Item(iid, address, fields)];
      }
      HostsGrow(old(Contents()), Contents());
    }

    static lemma HostsGrow(p: Pidb, q: Pidb)
      requires WellFormed(p) && q == p.(hosts := q.hosts) && Positioned(q.hosts) && UniqueKeys(q.hosts)
      requires |p.hosts| <= |q.hosts|
      ensures WellFormed(q)
    {
    }

    method UpsertService(address: string, port: Port, fields: Fields) returns (iid: nat, host: nat)
      requires WellFormed(Contents())
      modifies this`hosts, this`services
      ensures WellFormed(Contents()) && hosts == Upsert(old(hosts), address, map[])
      ensures host == Find(old(hosts), address) && host < |hosts| && hosts[host].key == address
      ensures services == Upsert(old(services), ServiceId(host, port), fields)
      ensures Upserted(old(hosts), address, map[], hosts)
      ensures Upserted(old(services), ServiceId(host, port), fields, services)
      ensures iid < |services| && services[iid].key == ServiceId(host, port)
    {
      hide Merge, Upsert, Upserted;
      host := UpsertHost(address, map[]);
      ghost var before := Contents();
      UpsertMeans(services, ServiceId(host, port), fields);
      UpsertKeeps(services, ServiceId(host, port), fields);
      iid := InsertService(ServiceId(host, port), fields);
      ServicesGrow(before, Contents());
    }

    method InsertService(key: ServiceId, fields: Fields) returns (iid: nat)
      modifies this`services
      ensures services == Upsert(old(services), key, fields) && iid == Find(old(services), key)
    {
      hide Merge;
      iid := Search(services, key);
      if iid < |services| {
        services := services[iid := services[iid].(fields := Merge(services[iid].fields, fields))];
      } else {
        services := services + [Item(iid, key, fields)];
      }
    }

    static lemma ServicesGrow(p: Pidb, q: Pidb)
      requires WellFormed(p) && q == p.(services := q.services) && Positioned(q.services) && UniqueKeys(q.services)
      requires |p.services| <= |q.services|
      requires forall i :: 0 <= i < |p.services| ==> q.services[i].key == p.services[i].key
      requires forall i :: |p.services| <= i < |q.services| ==> q.services[i].key.host < |q.hosts|
      ensures WellFormed(q)
    {
      forall s | s in q.services
        ensures s.key.host < |q.hosts|
      {
        var i :| 0 <= i < |q.services| && q.services[i] == s;
        if i < |p.services| {
          assert p.services[i] in p.services;
        }
      }
      assert forall h: nat, s :: Placed(p, h, s) ==> Placed(q, h, s);
    }

    /** The service that an item is found on; an empty protocol or port zero is none. */
    method UpsertOptional(address: string, service: Option<Port>) returns (host: nat, iid: Option<nat>)
      requires WellFormed(Contents())
      modifies this`hosts, this`services
      ensures WellFormed(Contents()) && Placed(Contents(), host, iid)
      ensures hosts == Upsert(old(hosts), address, map[]) && hosts[host].key == address
      ensures iid.Some? <==> service.Some? && service.value.proto != "" && service.value.port != 0
      ensures iid.Some? ==> services[iid.value].key == ServiceId(host, service.value)
      ensures services == if iid.Some? then Upsert(old(services), ServiceId(host, service.value), map[])
                          else old(services)
    {
      hide Upsert, WellFormed;
      if service.Some? && service.value.proto != "" && service.value.port != 0 {
        var s: nat;
        s, host := UpsertService(address, service.value, map[]);
        iid := Some(s);
      } else {
        host := UpsertHost(address, map[]);
        iid := None;
      }
    }

    method UpsertVuln(address: string, name: string, xtype: string, service: Option<Port>, via: Option<string>,
                      fields: Fields) returns (iid: nat, key: VulnId)
      requires WellFormed(Contents())
      modifies this`hosts, this`services, this`vulns
      ensures WellFormed(Contents()) && hosts == Upsert(old(hosts), address, map[])
      ensures key == VulnId(key.host, key.service, name, xtype, via) && Placed(Contents(), key.host, key.service)
      ensures hosts[key.host].key == address
      ensures key.service.Some? ==> service.Some? && services[key.service.value].key.port == service.value
      ensures key.service.Some? <==> service.Some? && service.value.proto != "" && service.value.port != 0
      ensures vulns == Upsert(old(vulns), key, fields) && iid < |vulns| && vulns[iid].key == key
      ensures Upserted(old(hosts), address, map[], hosts) && Upserted(old(vulns), key, fields, vulns)
      ensures if key.service.Some? then Upserted(old(services), ServiceId(key.host, service.value), map[], services)
              else services == old(services)
    {
      hide Merge, Upsert, Upserted, WellFormed;
      var host: nat;
      var on: Option<nat>;
      host, on := UpsertOptional(address, service);
      key := VulnId(host, on, name, xtype, via);
      ghost var before := Contents();
      KeysUnique(old(Contents()));
      UpsertMeans(old(hosts), address, map[]);
      if on.Some? {
        UpsertMeans(old(services), ServiceId(host, service.value), map[]);
      }
      UpsertMeans(vulns, key, fields);
      VulnsUpserted(before, key, fields);
      iid := InsertVuln(key, fields);
    }

    static lemma KeysUnique(p: Pidb)
      requires WellFormed(p)
      ensures UniqueKeys(p.hosts) && UniqueKeys(p.services) && UniqueKeys(p.vulns) && UniqueKeys(p.notes)
    {
    }

    method InsertVuln(key: VulnId, fields: Fields) returns (iid: nat)
      modifies this`vulns
      ensures vulns == Upsert(old(vulns), key, fields) && iid == Find(old(vulns), key)
    {
      hide Merge;
      iid := Search(vulns, key);
      if iid < |vulns| {
        vulns := vulns[iid := vulns[iid].(fields := Merge(vulns[iid].fields, fields))];
      } else {
        vulns := vulns + [Item(iid, key, fields)];
      }
    }

    static lemma VulnsUpserted(p: Pidb, key: VulnId, fields: Fields)
      requires WellFormed(p) && Placed(p, key.host, key.service)
      ensures var q := p.(vulns := Upsert(p.vulns, key, fields));
              WellFormed(q) && Find(p.vulns, key) < |q.vulns| && q.vulns[Find(p.vulns, key)].key == key
    {
      hide Merge, Upsert, Find, Positioned, UniqueKeys;
      var q := p.(vulns := Upsert(p.vulns, key, fields));
      UpsertKeeps(p.vulns, key, fields);
      forall v | v in q.vulns
        ensures Placed(q, v.key.host, v.key.service)
      {
        var i :| 0 <= i < |q.vulns| && q.vulns[i] == v;
        if i < |p.vulns| {
          assert p.vulns[i] in p.vulns;
        }
      }
    }

    method UpsertNote(address: string, xtype: string, service: Option<Port>, via: Option<string>, fields: Fields)
      returns (iid: nat, key: NoteId)
      requires WellFormed(Contents())
      modifies this`hosts, this`services, this`notes
      ensures WellFormed(Contents()) && hosts == Upsert(old(hosts), address, map[])
      ensures key == NoteId(key.host, key.service, xtype, via) && Placed(Contents(), key.host, key.service)
      ensures hosts[key.host].key == address
      ensures key.service.Some? ==> service.Some? && services[key.service.value].key.port == service.value
      ensures key.service.Some? <==> service.Some? && service.value.proto != "" && service.value.port != 0
      ensures notes == Upsert(old(notes), key, fields) && iid < |notes| && notes[iid].key == key
      ensures Upserted(old(hosts), address, map[], hosts) && Upserted(old(notes), key, fields, notes)
      ensures if key.service.Some? then Upserted(old(services), ServiceId(key.host, service.value), map[], services)
              else services == old(services)
    {
      hide Merge, Upsert, Upserted, WellFormed;
      var host: nat;
      var on: Option<nat>;
      host, on := UpsertOptional(address, service);
      key := NoteId(host, on, xtype, via);
      ghost var before := Contents();
      KeysUnique(old(Contents()));
      UpsertMeans(old(hosts), address, map[]);
      if on.Some? {
        UpsertMeans(old(services), ServiceId(host, service.value), map[]);
      }
      UpsertMeans(notes, key, fields);
      NotesUpserted(before, key, fields);
      iid := InsertNote(key, fields);
    }

    method InsertNote(key: NoteId, fields: Fields) returns (iid: nat)
      modifies this`notes
      ensures notes == Upsert(old(notes), key, fields) && iid == Find(old(notes), key)
    {
      hide Merge;
      iid := Search(notes, key);
      if iid < |notes| {
        notes := notes[iid := notes[iid].(fields := Merge(notes[iid].fields, fields))];
      } else {
        notes := notes + [Item(iid, key, fields)];
      }
    }

    static lemma NotesUpserted(p: Pidb, key: NoteId, fields: Fields)
      requires WellFormed(p) && Placed(p, key.host, key.service)
      ensures var q := p.(notes := Upsert(p.notes, key, fields));
              WellFormed(q) && Find(p.notes, key) < |q.notes| && q.notes[Find(p.notes, key)].key == key
    {
      hide Merge, Upsert, Find, Positioned, UniqueKeys;
      var q := p.(notes := Upsert(p.notes, key, fields));
      UpsertKeeps(p.notes, key, fields);
      forall n | n in q.notes
        ensures Placed(q, n.key.host, n.key.service)
      {
        var i :| 0 <= i < |q.notes| && q.notes[i] == n;
        if i < |p.notes| {
          assert p.notes[i] in p.notes;
        }
      }
    }

    /**
      Removes the hosts with more services than the threshold, and everything on them: services and findings first,
      one after the other, then the hosts.
    */
    method FilterTarpits(threshold: nat)
      requires Sound(Contents())
      modifies this
      ensures Contents() == WithoutTarpits(old(Contents()), threshold) && Sound(Contents())
    {
      hide Sound, WithoutTarpits, RemovedOn;
      ghost var first := Contents();
      var over := Tarpits(threshold);
      if over != {} {
        RemoveOn(over);
      }
      TarpitsRemoved(first, Contents(), threshold, over);
      TarpitsGone(first, threshold);
    }

    method RemoveOn(over: set<string>)
      modifies this
      ensures RemovedOn(old(Contents()), Contents(), over)
    {
      hide AddressOf, Keep;
      var table := hosts;
      services := Remove(services, (s: Item<ServiceId>) => OnAny(table, s.key.host, over));
      vulns := Remove(vulns, (v: Item<VulnId>) => OnAny(table, v.key.host, over));
      notes := Remove(notes, (n: Item<NoteId>) => OnAny(table, n.key.host, over));
      hosts := Remove(hosts, (h: Item<string>) => h.key in over);
    }

    /** The addresses with more services than the threshold. */
    method Tarpits(threshold: nat) returns (over: set<string>)
      requires Sound(Contents())
      ensures forall a :: a in over <==> Count(hosts, services, a) > threshold
    {
      hide Sound, Count, AddressOf;
      var counts: map<string, nat> := map[];
      NoCount(hosts);
      for i := 0 to |services|
        invariant forall a :: (if a in counts then counts[a] else 0) == Count(hosts, services[..i], a)
      {
        CountMore(Contents(), i);
        var address := AddressOf(hosts, services[i].key.host).value;
        counts := counts[address := (if address in counts then counts[address] else 0) + 1];
      }
      assert services[..|services|] == services;
      over := set a | a in counts && counts[a] > threshold;
    }

    static lemma NoCount(hosts: seq<Item<string>>)
      ensures forall a :: Count(hosts, [], a) == 0
    {
    }

    /** Removes items one by one from a table while a copy of it is gone through. */
    static method Remove<K>(items: seq<Item<K>>, gone: Item<K> -> bool) returns (kept: seq<Item<K>>)
      ensures forall f: Item<K> -> bool :: (forall x :: x in items ==> f(x) == !gone(x)) ==> kept == Keep(items, f)
    {
      kept := [];
      ghost var stays := (x: Item<K>) => !gone(x);
      for i := 0 to |items|
        invariant kept == Keep(items[..i], stays)
      {
        assert items[..i + 1][..i] == items[..i];
        if !gone(items[i]) {
          kept := kept + [items[i]];
        }
      }
      assert items[..|items|] == items;
      forall f: Item<K> -> bool | forall x :: x in items ==> f(x) == !gone(x)
        ensures kept == Keep(items, f)
      {
        KeepSame(items, stays, f);
      }
    }

    static lemma TarpitsRemoved(p: Pidb, q: Pidb, threshold: nat, over: set<string>)
      requires forall a :: a in over <==> Count(p.hosts, p.services, a) > threshold
      requires over == {} ==> q == p
      requires over != {} ==> RemovedOn(p, q, over)
      ensures q == WithoutTarpits(p, threshold)
    {
      hide Count, Keep, AddressOf;
      var w := WithoutTarpits(p, threshold);
      if over == {} {
        KeepAll(p.hosts, (h: Item<string>) => Few(p, Some(h.key), threshold));
        KeepAll(p.services, (s: Item<ServiceId>) => FewOn(p, s.key.host, threshold));
        KeepAll(p.vulns, (v: Item<VulnId>) => FewOn(p, v.key.host, threshold));
        KeepAll(p.notes, (n: Item<NoteId>) => FewOn(p, n.key.host, threshold));
      }
    }

    static lemma CountMore(p: Pidb, i: nat)
      requires Sound(p) && i < |p.services|
      ensures AddressOf(p.hosts, p.services[i].key.host).Some?
      ensures forall a :: Count(p.hosts, p.services[..i + 1], a) == Count(p.hosts, p.services[..i], a)
                + if AddressOf(p.hosts, p.services[i].key.host) == Some(a) then 1 else 0
    {
      hide AddressOf;
      assert p.services[..i + 1][..i] == p.services[..i] && p.services[i] in p.services;
    }
  }
}
