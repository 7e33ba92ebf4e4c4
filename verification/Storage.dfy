/**
  Long-term storage: rows with identifiers that refer to one another, found by joins on natural keys, and the import
  of parsed items into them.  The four tables are kept as one whose rows say which table they are of.
*/
module Storage {
  import opened StorageView
  import opened ParsedItems
  import opened StorageImport

  datatype RowKey =
    | HostRow(address: string)
    | ServiceRow(host: nat, port: Port)
    | VulnRow(host: nat, service: Option<nat>, name: string, xtype: string, via: Option<string>)
    | NoteRow(host: nat, service: Option<nat>, xtype: string, via: Option<string>)

  datatype Row = Row(key: RowKey, fields: Fields, tags: set<string>)

  type Rows = map<nat, Row>

  function AddressAt(rows: Rows, id: nat): Option<string>
  {
    if id in rows && rows[id].key.HostRow? then Some(rows[id].key.address) else None
  }

  /** The port of a service on a host. */
  function PortAt(rows: Rows, host: nat, id: nat): Option<Port>
  {
    if id in rows && rows[id].key.ServiceRow? && rows[id].key.host == host then Some(rows[id].key.port) else None
  }

  /** What the joins find a row by, if its references resolve. */
  function Natural(rows: Rows, key: RowKey): Option<Key>
  {
    match key
    case HostRow(address) => Some(HostKey(address))
    case ServiceRow(host, port) =>
      var a := AddressAt(rows, host);
      if a.None? then None else Some(ServiceKey(a.value, port))
    case VulnRow(host, service, name, xtype, via) =>
      var a := AddressAt(rows, host);
      if a.None? then None
      else if service.None? then Some(VulnKey(a.value, name, xtype, None, via))
      else
        var p := PortAt(rows, host, service.value);
        if p.None? then None else Some(VulnKey(a.value, name, xtype, p, via))
    case NoteRow(host, service, xtype, via) =>
      var a := AddressAt(rows, host);
      if a.None? then None
      else if service.None? then Some(NoteKey(a.value, xtype, None, via))
      else
        var p := PortAt(rows, host, service.value);
        if p.None? then None else Some(NoteKey(a.value, xtype, p, via))
  }

  /** Rows represent a view: references resolve, and there is one row for each natural key. */
  ghost predicate Represents(rows: Rows, view: View)
  {
    && (forall id :: id in rows ==>
          && Natural(rows, rows[id].key).Some?
          && Natural(rows, rows[id].key).value in view
          && view[Natural(rows, rows[id].key).value] == Record(rows[id].fields, rows[id].tags))
    && (forall k :: k in view ==> exists id :: Stands(rows, id, k))
    && (forall i, j :: i in rows && j in rows && Natural(rows, rows[i].key) == Natural(rows, rows[j].key) ==> i == j)
  }

  ghost predicate Stands(rows: Rows, id: nat, k: Key)
  {
    id in rows && Natural(rows, rows[id].key) == Some(k)
  }

  /** Rows that keep their keys keep what they stand for. */
  lemma NaturalStays(rows: Rows, more: Rows, key: RowKey)
    requires forall id :: id in rows ==> id in more && more[id].key == rows[id].key
    requires Natural(rows, key).Some?
    ensures Natural(more, key) == Natural(rows, key)
  {
  }

  lemma RowChanged(rows: Rows, view: View, id: nat, k: Key, r: Record)
    requires Represents(rows, view) && Stands(rows, id, k)
    ensures Represents(rows[id := Row(rows[id].key, r.fields, r.tags)], view[k := r])
    ensures k in view && view[k] == Record(rows[id].fields, rows[id].tags)
  {
    hide Natural;
    var more := rows[id := Row(rows[id].key, r.fields, r.tags)];
    forall i | i in rows
      ensures Natural(more, more[i].key) == Natural(rows, rows[i].key)
    {
      NaturalStays(rows, more, rows[i].key);
    }
    var after := view[k := r];
    forall l | l in after
      ensures exists i :: Stands(more, i, l)
    {
      var i :| Stands(rows, i, l);
      assert Stands(more, i, l);
    }
  }

  lemma RowAdded(rows: Rows, view: View, id: nat, key: RowKey, k: Key, r: Record)
    requires Represents(rows, view) && id !in rows && k !in view && Natural(rows, key) == Some(k)
    ensures Represents(rows[id := Row(key, r.fields, r.tags)], view[k := r])
  {
    hide Natural;
    var more := rows[id := Row(key, r.fields, r.tags)];
    forall i | i in rows
      ensures Natural(more, more[i].key) == Natural(rows, rows[i].key)
    {
      NaturalStays(rows, more, rows[i].key);
    }
    NaturalStays(rows, more, key);
    var after := view[k := r];
    forall l | l in after
      ensures exists i :: Stands(more, i, l)
    {
      if l == k {
        assert Stands(more, id, l);
      } else {
        var i :| Stands(rows, i, l);
        assert Stands(more, i, l);
      }
    }
  }

  // ---------------------------------------------------------------------------------------------------------
  // The storage
  // ---------------------------------------------------------------------------------------------------------

  /** Rows are not removed and keep their keys. */
  ghost predicate Stay(a: Rows, b: Rows)
  {
    forall id :: id in a ==> id in b && a[id].key == b[id].key
  }

  class Database {
    var rows: Rows
    var nextId: nat
    ghost var view: View

    ghost predicate Valid()
      reads this
    {
      Represents(rows, view) && forall id :: id in rows ==> id < nextId
    }

    constructor ()
      ensures Valid() && view == map[]
    {
      rows, nextId, view := map[], 0, map[];
    }

    /** The only row with a natural key, if there is one. */
    method Find(k: Key) returns (id: Option<nat>)
      requires Valid()
      ensures id.None? <==> k !in view
      ensures id.Some? ==> Stands(rows, id.value, k)
    {
      hide Natural;
      if i :| i in rows && Natural(rows, rows[i].key) == Some(k) {
        assert Stands(rows, i, k);
        id := Some(i);
      } else {
        id := None;
        assert forall i :: !Stands(rows, i, k);
      }
    }

    /** Updates the row with a natural key, or adds it. */
    method Upsert(key: RowKey, k: Key, fields: Fields, tags: set<string>)
      requires Valid() && Natural(rows, key) == Some(k)
      modifies this
      ensures Valid() && Stay(old(rows), rows) && view == Apply(old(view), Put(k, fields, tags))
    {
      hide Natural, Represents, Update;
      var found := Find(k);
      var id: nat;
      ghost var r := Changed(Get(view, k), Put(k, fields, tags));
      if found.None? {
        RowAdded(rows, view, nextId, key, k, r);
        id := nextId;
        nextId := nextId + 1;
        rows := rows[id := Row(key, map[], {})];
      } else {
        id := found.value;
        RowChanged(rows, view, id, k, r);
      }
      rows := rows[id := rows[id].(fields := Update(rows[id].fields, fields, Columns(k)),
                                   tags := rows[id].tags + tags)];
      assert rows == old(rows)[id := Row(rows[id].key, r.fields, r.tags)];
      view := view[k := r];
    }

    /** A host row of an address. */
    lemma HostAt(id: nat, address: string)
      requires Stands(rows, id, HostKey(address))
      ensures AddressAt(rows, id) == Some(address)
    {
    }

    /** Merges host names into the note of them, which is added if there is none. */
    method MergeNames(host: nat, address: string, names: set<Scalar>) returns (ok: bool)
      requires Valid() && AddressAt(rows, host) == Some(address)
      modifies this
      ensures Valid() && Stay(old(rows), rows) && (ok <==> !Fails(old(view), AddNames(address, names)))
      ensures view == if ok then Apply(old(view), AddNames(address, names)) else old(view)
    {
      hide Represents;
      var found := Find(NamesKey(address));
      ghost var k, r := NamesKey(address), Changed(Get(view, NamesKey(address)), AddNames(address, names));
      var id: nat;
      if found.None? {
        RowAdded(rows, view, nextId, NoteRow(host, None, "hostnames", None), k, r);
        id := nextId;
        nextId := nextId + 1;
        rows := rows[id := Row(NoteRow(host, None, "hostnames", None), map["data" := Names({})], {})];
        assert {} + names == names;
        assert map["data" := Names({})]["data" := Names(names)] == map["data" := Names(names)];
      } else {
        id := found.value;
        RowChanged(rows, view, id, k, r);
        if !("data" in rows[id].fields && rows[id].fields["data"].Names?) {
          return false;
        }
      }
      rows := rows[id := rows[id].(fields := rows[id].fields["data" := Names(rows[id].fields["data"].names + names)])];
      assert rows == old(rows)[id := Row(rows[id].key, r.fields, r.tags)];
      view := view[k := r];
      ok := true;
    }

    method ImportHosts(hosts: seq<Item<string>>, tags: set<string>) returns (ok: bool)
      requires Valid()
      modifies this
      ensures Valid() && (ok <==> !Raises(old(view), HostsOps(hosts, tags)))
      ensures ok ==> view == Run(old(view), HostsOps(hosts, tags))
    {
      hide Represents, Apply, Fails, HostNames;
      for i := 0 to |hosts|
        invariant Valid()
        invariant Run(view, HostsOps(hosts[i..], tags)) == Run(old(view), HostsOps(hosts, tags))
        invariant Raises(view, HostsOps(hosts[i..], tags)) <==> Raises(old(view), HostsOps(hosts, tags))
      {
        var h := hosts[i];
        assert hosts[i..][1..] == hosts[i + 1..];
        RunBoth(view, HostOps(h, tags), HostsOps(hosts[i + 1..], tags));
        ok := ImportHost(h, tags);
        if !ok {
          return;
        }
      }
      ok := true;
    }

    method ImportHost(h: Item<string>, tags: set<string>) returns (ok: bool)
      requires Valid()
      modifies this
      ensures Valid() && (ok <==> !Raises(old(view), HostOps(h, tags)))
      ensures ok ==> view == Run(old(view), HostOps(h, tags))
    {
      hide Represents, Changed, Raises, Run;
      ghost var put, add := Put(HostKeyOf(h), h.fields, tags), AddNames(h.key, HostNames(h.fields));
      RunOne(view, put);
      RunBoth(view, [put], [add]);
      RunOne(Apply(view, put), add);
      assert [put] + [] == [put];
      Upsert(HostRow(h.key), HostKeyOf(h), h.fields, tags);
      ok := true;
      var names := HostNames(h.fields);
      if names != {} {
        var host := Find(HostKey(h.key));
        HostAt(host.value, h.key);
        ok := MergeNames(host.value, h.key, names);
      }
    }

    method ImportServices(p: Pidb, tags: set<string>)
      requires Valid() && Sound(p) && forall h :: h in p.hosts ==> HostKeyOf(h) in view
      modifies this
      ensures Valid() && view == Run(old(view), ServicesOps(p, p.services, tags))
    {
      hide Represents, Changed, AddressOf, UniqueIids, UniqueKeys;
      ghost var ops := ServicesOps(p, p.services, tags);
      for i := 0 to |p.services|
        invariant Valid() && old(view).Keys <= view.Keys
        invariant Run(view, ops[i..]) == Run(old(view), ops)
      {
        var s := p.services[i];
        assert s in p.services && ops[i..][0] == ops[i] && ops[i..][1..] == ops[i + 1..];
        HostKnown(p, s.key.host);
        var address := AddressOf(p.hosts, s.key.host).value;
        var host := Find(HostKey(address));
        HostAt(host.value, address);
        Upsert(ServiceRow(host.value, s.key.port), ServiceKey(address, s.key.port), s.fields, tags);
      }
    }

    /** A host that is referred to was found by its number. */
    static lemma HostKnown(p: Pidb, iid: nat)
      requires Sound(p) && AddressOf(p.hosts, iid).Some?
      ensures exists h :: h in p.hosts && h.key == AddressOf(p.hosts, iid).value
    {
      AddressMeans(p.hosts, iid);
    }

    /** The row of an optional service on a host. */
    method ServiceRowOf(p: Pidb, address: string, host: nat, service: Option<nat>) returns (row: Option<nat>)
      requires Valid() && AddressAt(rows, host) == Some(address)
      requires service.Some? ==>
                 && OptionalPort(p.services, service).Some?
                 && ServiceKey(address, OptionalPort(p.services, service).value) in view
      ensures service.None? ==> row.None?
      ensures service.Some? ==>
                && row.Some? && PortAt(rows, host, row.value) == OptionalPort(p.services, service)
    {
      row := None;
      if service.Some? {
        var port := PortOf(p.services, service.value).value;
        row := Find(ServiceKey(address, port));
        SameHost(row.value, host, address, port);
      }
    }

    /** The host of a service that is found by an address is the one that is found by the address. */
    lemma SameHost(row: nat, host: nat, address: string, port: Port)
      requires Valid() && Stands(rows, row, ServiceKey(address, port)) && AddressAt(rows, host) == Some(address)
      ensures PortAt(rows, host, row) == Some(port)
    {
      var other := rows[row].key.host;
      assert AddressAt(rows, other) == Some(address);
      assert Natural(rows, rows[other].key) == Natural(rows, rows[host].key);
    }

    /** An item on a service finds the service once the services are imported. */
    static lemma ServiceKnown(p: Pidb, v: View, host: nat, service: Option<nat>)
      requires Sound(p) && OnHost(p, host, service)
      requires forall s :: s in p.services ==> ServiceKeyOf(p, s) in v
      ensures service.Some? ==>
                && OptionalPort(p.services, service).Some?
                && ServiceKey(AddressOf(p.hosts, host).value, OptionalPort(p.services, service).value) in v
    {
      if service.Some? {
        var s :| s in p.services && s.iid == service.value && s.key.host == host;
        PortMeans(p.services, s);
        assert ServiceKeyOf(p, s) in v;
      }
    }

    method ImportVulns(p: Pidb, tags: set<string>)
      requires Valid() && Sound(p) && forall h :: h in p.hosts ==> HostKeyOf(h) in view
      requires forall s :: s in p.services ==> ServiceKeyOf(p, s) in view
      modifies this
      ensures Valid() && view == Run(old(view), VulnsOps(p, tags))
    {
      hide Represents, Changed, AddressOf, UniqueIids, UniqueKeys, PortOf;
      ghost var ops := VulnsOps(p, tags);
      for i := 0 to |p.vulns|
        invariant Valid() && old(view).Keys <= view.Keys
        invariant Run(view, ops[i..]) == Run(old(view), ops)
      {
        var v := p.vulns[i];
        assert v in p.vulns && ops[i..][0] == ops[i] && ops[i..][1..] == ops[i + 1..];
        HostKnown(p, v.key.host);
        ServiceKnown(p, view, v.key.host, v.key.service);
        var address := AddressOf(p.hosts, v.key.host).value;
        var host := Find(HostKey(address));
        HostAt(host.value, address);
        var service := ServiceRowOf(p, address, host.value, v.key.service);
        var row := VulnRow(host.value, service, v.key.name, v.key.xtype, v.key.via);
        Upsert(row, VulnKeyOf(p, v), v.fields, tags);
      }
    }

    method ImportNotes(p: Pidb, tags: set<string>)
      requires Valid() && Sound(p) && forall h :: h in p.hosts ==> HostKeyOf(h) in view
      requires forall s :: s in p.services ==> ServiceKeyOf(p, s) in view
      modifies this
      ensures Valid() && view == Run(old(view), NotesOps(p, tags))
    {
      hide Represents, Changed, AddressOf, UniqueIids, UniqueKeys, PortOf;
      ghost var ops := NotesOps(p, tags);
      for i := 0 to |p.notes|
        invariant Valid() && old(view).Keys <= view.Keys
        invariant Run(view, ops[i..]) == Run(old(view), ops)
      {
        var n := p.notes[i];
        assert n in p.notes && ops[i..][0] == ops[i] && ops[i..][1..] == ops[i + 1..];
        HostKnown(p, n.key.host);
        ServiceKnown(p, view, n.key.host, n.key.service);
        var address := AddressOf(p.hosts, n.key.host).value;
        var host := Find(HostKey(address));
        HostAt(host.value, address);
        var service := ServiceRowOf(p, address, host.value, n.key.service);
        var row := NoteRow(host.value, service, n.key.xtype, n.key.via);
        Upsert(row, NoteKeyOf(p, n), n.fields, tags);
      }
    }

    /**
      Imports parsed items; fails exactly when host names meet a note that is not a list of scalars.  Otherwise every
      item has its row with what it says, and rows that no item is about are as they were.
    */
    method ImportParsed(p: Pidb, tags: set<string>) returns (ok: bool)
      requires Valid() && Sound(p)
      modifies this
      ensures Valid() && (ok <==> !NoteInTheWay(old(view), p))
      ensures ok ==> view == Run(old(view), Ops(p, tags)) && Grows(old(view), view)
      ensures ok ==> Imported(old(view), view, p, tags)
    {
      hide Represents, Run, Raises, AddressOf, HostsOps, Grows, NoteInTheWay, Imported;
      ghost var first := view;
      if !NoteInTheWay(first, p) {
        ImportStores(first, p, tags);
      }
      RaisesWhen(first, p, tags);
      ImportGrows(first, Ops(p, tags));
      ImportPhases(p, tags, first);
      ok := ImportHosts(p.hosts, tags);
      if ok {
        ImportServices(p, tags);
        ImportVulns(p, tags);
        ImportNotes(p, tags);
      }
    }

    static lemma ImportPhases(p: Pidb, tags: set<string>, v: View)
      requires Sound(p)
      ensures var hosts, services, vulns, notes :=
                HostsOps(p.hosts, tags), ServicesOps(p, p.services, tags), VulnsOps(p, tags), NotesOps(p, tags);
              var v1 := Run(v, hosts);
              var v2 := Run(v1, services);
              var v3 := Run(v2, vulns);
              && Run(v3, notes) == Run(v, Ops(p, tags))
              && (Raises(v, Ops(p, tags)) <==> Raises(v, hosts))
              && (forall h :: h in p.hosts ==> HostKeyOf(h) in v1 && HostKeyOf(h) in v2 && HostKeyOf(h) in v3)
              && (forall s :: s in p.services ==> ServiceKeyOf(p, s) in v2 && ServiceKeyOf(p, s) in v3)
    {
      hide Run, Raises, AddressOf, HostsOps, PortOf;
      var hosts, services, vulns, notes :=
        HostsOps(p.hosts, tags), ServicesOps(p, p.services, tags), VulnsOps(p, tags), NotesOps(p, tags);
      var v1 := Run(v, hosts);
      var v2 := Run(v1, services);
      var v3 := Run(v2, vulns);
      RunBoth(v, hosts, services);
      RunBoth(v, hosts + services, vulns);
      RunBoth(v, hosts + services + vulns, notes);
      PutsDoNotRaise(v1, services);
      PutsDoNotRaise(v2, vulns);
      PutsDoNotRaise(v3, notes);
      NewKeys(v, hosts);
      NewKeys(v1, services);
      NewKeys(v2, vulns);
      HostsOpsAre(p.hosts, tags);
      forall h | h in p.hosts
        ensures HostKeyOf(h) in Keys(hosts)
      {
      }
      forall s | s in p.services
        ensures ServiceKeyOf(p, s) in Keys(services)
      {
        var i :| 0 <= i < |p.services| && p.services[i] == s;
        assert services[i] in services;
      }
    }

    /** Looks everything up and changes nothing. */
    method ImportParsedDry(p: Pidb) returns (r: Report)
      requires Valid() && Sound(p)
      ensures r == Rehearsed(view, p) && Reported(view, p, r)
    {
      hide Represents, AddressOf, Reported;
      RehearsedReports(view, p);
      var hosts := ReportUnknown(HostKeysOf(p));
      var services := ReportUnknown(KeysIn(ServicesOps(p, p.services, {})));
      var vulns := ReportUnknown(KeysIn(VulnsOps(p, {})));
      var notes := ReportUnknown(KeysIn(NotesOps(p, {})));
      r := Report(hosts, services, vulns, notes);
    }

    method ReportUnknown(keys: seq<Key>) returns (new_: seq<Key>)
      requires Valid()
      ensures new_ == Unknown(view, keys)
    {
      hide Represents;
      new_ := [];
      for i := 0 to |keys|
        invariant new_ == Unknown(view, keys[..i])
      {
        assert keys[..i + 1][..i] == keys[..i];
        var found := Find(keys[i]);
        if found.None? {
          new_ := new_ + [keys[i]];
        }
      }
      assert keys[..|keys|] == keys;
    }
  }
}
