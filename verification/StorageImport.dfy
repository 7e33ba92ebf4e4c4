/**
  An import of parsed items as operations on the storage by natural keys: what it leaves in every row, when it fails,
  that it can be repeated, and what a rehearsal of it reports.
*/
module StorageImport {
  import opened StorageView
  import opened ParsedItems

  /** The port of the service with a number. */
  function PortOf(services: seq<Item<ServiceId>>, iid: nat): Option<Port>
  {
    if services == [] then None else if services[0].iid == iid then Some(services[0].key.port)
    else PortOf(services[1..], iid)
  }

  function OptionalPort(services: seq<Item<ServiceId>>, service: Option<nat>): Option<Port>
  {
    if service.None? then None else PortOf(services, service.value)
  }

  function HostNames(fields: Fields): set<Scalar>
  {
    if "hostnames" in fields && fields["hostnames"].List? then set n | n in fields["hostnames"].items :: Name(n)
    else {}
  }

  function HostKeyOf(h: Item<string>): Key
  {
    HostKey(h.key)
  }

  function ServiceKeyOf(p: Pidb, s: Item<ServiceId>): Key
    requires AddressOf(p.hosts, s.key.host).Some?
  {
    ServiceKey(AddressOf(p.hosts, s.key.host).value, s.key.port)
  }

  function VulnKeyOf(p: Pidb, v: Item<VulnId>): Key
    requires AddressOf(p.hosts, v.key.host).Some?
  {
    VulnKey(AddressOf(p.hosts, v.key.host).value, v.key.name, v.key.xtype, OptionalPort(p.services, v.key.service),
            v.key.via)
  }

  function NoteKeyOf(p: Pidb, n: Item<NoteId>): Key
    requires AddressOf(p.hosts, n.key.host).Some?
  {
    NoteKey(AddressOf(p.hosts, n.key.host).value, n.key.xtype, OptionalPort(p.services, n.key.service), n.key.via)
  }

  /** A host, and its names if there are any. */
  function HostOps(h: Item<string>, tags: set<string>): seq<Op>
  {
    [Put(HostKeyOf(h), h.fields, tags)]
    + if HostNames(h.fields) == {} then [] else [AddNames(h.key, HostNames(h.fields))]
  }

  function HostsOps(hosts: seq<Item<string>>, tags: set<string>): seq<Op>
  {
    if hosts == [] then [] else HostOps(hosts[0], tags) + HostsOps(hosts[1..], tags)
  }

  function ServicesOps(p: Pidb, services: seq<Item<ServiceId>>, tags: set<string>): seq<Op>
    requires forall s :: s in services ==> AddressOf(p.hosts, s.key.host).Some?
  {
    seq(|services|, i requires 0 <= i < |services| => PutService(p, services, i, tags))
  }

  function PutService(p: Pidb, services: seq<Item<ServiceId>>, i: nat, tags: set<string>): Op
    requires (forall s :: s in services ==> AddressOf(p.hosts, s.key.host).Some?) && i < |services|
  {
    Put(ServiceKeyOf(p, services[i]), services[i].fields, tags)
  }

  function VulnsOps(p: Pidb, tags: set<string>): seq<Op>
    requires forall v :: v in p.vulns ==> AddressOf(p.hosts, v.key.host).Some?
  {
    seq(|p.vulns|, i requires 0 <= i < |p.vulns| => Put(VulnKeyOf(p, p.vulns[i]), p.vulns[i].fields, tags))
  }

  function NotesOps(p: Pidb, tags: set<string>): seq<Op>
    requires forall n :: n in p.notes ==> AddressOf(p.hosts, n.key.host).Some?
  {
    seq(|p.notes|, i requires 0 <= i < |p.notes| => Put(NoteKeyOf(p, p.notes[i]), p.notes[i].fields, tags))
  }

  /** Hosts first, then services, vulnerabilities and notes. */
  function Ops(p: Pidb, tags: set<string>): seq<Op>
    requires Sound(p)
  {
    HostsOps(p.hosts, tags) + ServicesOps(p, p.services, tags) + VulnsOps(p, tags) + NotesOps(p, tags)
  }

  lemma KeysBoth(a: seq<Op>, b: seq<Op>)
    ensures Keys(a + b) == Keys(a) + Keys(b)
  {
  }

  lemma KeysOne(o: Op)
    ensures Keys([o]) == {KeyOf(o)}
  {
    assert o in [o];
  }

  lemma HostKeys(h: Item<string>, tags: set<string>)
    ensures Keys(HostOps(h, tags)) == {HostKeyOf(h)} + if HostNames(h.fields) == {} then {} else {NamesKey(h.key)}
  {
    hide HostNames, Keys;
    var put, add := Put(HostKeyOf(h), h.fields, tags), AddNames(h.key, HostNames(h.fields));
    KeysOne(put);
    KeysOne(add);
    KeysBoth([put], [add]);
    assert [put] + [] == [put];
  }

  lemma {:induction false} HostsOpsAre(hosts: seq<Item<string>>, tags: set<string>)
    ensures Keys(HostsOps(hosts, tags)) == (set h | h in hosts :: HostKeyOf(h))
                                           + set h | h in hosts && HostNames(h.fields) != {} :: NamesKey(h.key)
    ensures forall o :: o in HostsOps(hosts, tags) && o.Put? ==> o.key.HostKey?
  {
    hide HostNames;
    if hosts != [] {
      var h, others := hosts[0], hosts[1..];
      HostsOpsAre(others, tags);
      assert hosts == [h] + others;
      var ops, rest := HostOps(h, tags), HostsOps(others, tags);
      KeysBoth(ops, rest);
      HostKeys(h, tags);
      assert (set g | g in hosts :: HostKeyOf(g)) == {HostKeyOf(h)} + set g | g in others :: HostKeyOf(g);
    }
  }

  lemma NamesComeFirst(p: Pidb, tags: set<string>)
    requires Sound(p)
    ensures NamesFirst(Ops(p, tags))
  {
    hide AddressOf, PortOf, HostsOps;
    var ops, first := Ops(p, tags), HostsOps(p.hosts, tags);
    HostsOpsAre(p.hosts, tags);
    forall i, j | 0 <= i < j < |ops| && ops[i].Put? && ops[j].AddNames?
      ensures ops[i].key != NamesKey(ops[j].address)
    {
      assert j < |first| && ops[i] == first[i] && first[i] in first;
    }
  }

  /** Importing the same items twice is importing them once; the second time fails only on a note that is no list. */
  lemma ImportIdempotent(v: View, p: Pidb, tags: set<string>)
    requires Sound(p)
    ensures Run(Run(v, Ops(p, tags)), Ops(p, tags)) == Run(v, Ops(p, tags))
    ensures Raises(Run(v, Ops(p, tags)), Ops(p, tags))
            <==> exists h :: h in p.hosts && HostNames(h.fields) != {} && !HasNames(Run(v, Ops(p, tags)), h.key)
  {
    hide AddressOf, PortOf, Run, Raises, HasNames, HostNames;
    var ops := Ops(p, tags);
    ImportTwice(v, ops);
    NamesComeFirst(p, tags);
    AgainRaises(v, ops);
    NamesAre(p, tags);
    var w := Run(v, ops);
    forall h | h in p.hosts && HostNames(h.fields) != {}
      ensures AddNames(h.key, HostNames(h.fields)) in ops
    {
    }
  }

  /** A host with names has a note of host names that does not hold a list of scalars. */
  ghost predicate NoteInTheWay(v: View, p: Pidb)
  {
    exists h :: h in p.hosts && HostNames(h.fields) != {} && NamesKey(h.key) in v && !HasNames(v, h.key)
  }

  /** An import fails exactly when, before it, a host with names has a note in their way. */
  lemma RaisesWhen(v: View, p: Pidb, tags: set<string>)
    requires Sound(p)
    ensures Raises(v, Ops(p, tags)) <==> NoteInTheWay(v, p)
  {
    hide AddressOf, PortOf, Raises, HasNames, HostNames;
    var ops := Ops(p, tags);
    NamesComeFirst(p, tags);
    RaisesOn(v, ops);
    NamesAre(p, tags);
    if Meets(v, ops) {
      var o :| o in ops && Fails(v, o);
    }
    if NoteInTheWay(v, p) {
      var h :| h in p.hosts && HostNames(h.fields) != {} && NamesKey(h.key) in v && !HasNames(v, h.key);
      assert Fails(v, AddNames(h.key, HostNames(h.fields)));
    }
  }

  /** A host with a name and a note of host names that is no such list: the first import works, the second fails. */
  lemma AgainFails()
    ensures var p := Pidb([Item(0, "192.0.2.1", map["hostnames" := List(["a.example"])])], [], [],
                          [Item(0, NoteId(0, None, "hostnames", None), map["data" := Text("a.example")])]);
            Sound(p) && !Raises(map[], Ops(p, {})) && Raises(Run(map[], Ops(p, {})), Ops(p, {}))
  {
    var h := Item(0, "192.0.2.1", map["hostnames" := List(["a.example"])]);
    var n := Item(0, NoteId(0, None, "hostnames", None), map["data" := Text("a.example")]);
    var p := Pidb([h], [], [], [n]);
    WellFormedIsSound(p);
    assert HostNames(h.fields) == {Name("a.example")} by {
      assert Name(h.fields["hostnames"].items[0]) in HostNames(h.fields);
    }
    assert AddressOf(p.hosts, 0) == Some(h.key);
    ExampleOps(p, h, n);
    NoteReplacesNames(h.key, h.fields, HostNames(h.fields), "a.example");
    ImportIdempotent(map[], p, {});
    assert h in p.hosts;
  }

  lemma ExampleOps(p: Pidb, h: Item<string>, n: Item<NoteId>)
    requires Sound(p) && p == Pidb([h], [], [], [n]) && n.key == NoteId(0, None, "hostnames", None)
    requires HostNames(h.fields) != {} && AddressOf(p.hosts, 0) == Some(h.key)
    ensures Ops(p, {}) == [Put(HostKey(h.key), h.fields, {}), AddNames(h.key, HostNames(h.fields)),
                           Put(NamesKey(h.key), n.fields, {})]
  {
    hide HostNames, AddressOf;
    assert HostsOps([h], {}) == HostOps(h, {}) by {
      assert [h][1..] == [];
    }
    assert NotesOps(p, {}) == [Put(NamesKey(h.key), n.fields, {})];
  }

  lemma NoteReplacesNames(address: string, fields: Fields, names: set<Scalar>, text: string)
    requires text != ""
    ensures var ops := [Put(HostKey(address), fields, {}), AddNames(address, names),
                        Put(NamesKey(address), map["data" := Text(text)], {})];
            !Raises(map[], ops) && !HasNames(Run(map[], ops), address)
  {
    hide Update;
    var put, add, note := Put(HostKey(address), fields, {}), AddNames(address, names),
                          Put(NamesKey(address), map["data" := Text(text)], {});
    var v1 := Apply(map[], put);
    var v2 := Apply(v1, add);
    RunBoth(map[], [put], [add, note]);
    RunBoth(v1, [add], [note]);
    RunOne(map[], put);
    RunOne(v1, add);
    RunOne(v2, note);
    assert [put] + [add, note] == [put, add, note] && [add] + [note] == [add, note];
    DataReplaced(v2[NamesKey(address)].fields, text, Columns(NamesKey(address)));
  }

  lemma DataReplaced(fields: Fields, text: string, columns: set<string>)
    requires text != "" && "data" in columns
    ensures var f := Update(fields, map["data" := Text(text)], columns);
            "data" in f && f["data"] == Text(text)
  {
  }

  lemma NamesAre(p: Pidb, tags: set<string>)
    requires Sound(p)
    ensures forall o :: o in Ops(p, tags) && o.AddNames? ==>
              exists h :: h in p.hosts && HostNames(h.fields) != {} && o.address == h.key
    ensures forall h :: h in p.hosts && HostNames(h.fields) != {} ==>
              AddNames(h.key, HostNames(h.fields)) in Ops(p, tags)
  {
    hide AddressOf, PortOf, HostNames, HostsOps;
    NamesOfHosts(p.hosts, tags);
    var first := HostsOps(p.hosts, tags);
    var ops := Ops(p, tags);
    assert forall i :: 0 <= i < |first| ==> ops[i] == first[i];
    forall o | o in ops && o.AddNames?
      ensures o in first
    {
      var i :| 0 <= i < |ops| && ops[i] == o;
      assert i < |first|;
    }
    forall o | o in first
      ensures o in ops
    {
      var i :| 0 <= i < |first| && first[i] == o;
      assert ops[i] == o;
    }
  }

  lemma {:induction false} NamesOfHosts(hosts: seq<Item<string>>, tags: set<string>)
    ensures forall o :: o in HostsOps(hosts, tags) && o.AddNames? ==>
              exists h :: h in hosts && HostNames(h.fields) != {} && o.address == h.key
    ensures forall h :: h in hosts && HostNames(h.fields) != {} ==>
              AddNames(h.key, HostNames(h.fields)) in HostsOps(hosts, tags)
  {
    hide HostNames;
    if hosts != [] {
      NamesOfHosts(hosts[1..], tags);
      assert hosts == [hosts[0]] + hosts[1..];
    }
  }

  lemma {:induction false} PutsDoNotRaise(v: View, ops: seq<Op>)
    requires forall o :: o in ops ==> o.Put?
    ensures !Raises(v, ops)
    decreases ops
  {
    hide Apply;
    if ops != [] {
      assert ops[0] in ops;
      PutsDoNotRaise(Apply(v, ops[0]), ops[1..]);
    }
  }

  lemma {:induction false} PortMeans(services: seq<Item<ServiceId>>, s: Item<ServiceId>)
    requires UniqueIids(services) && s in services
    ensures PortOf(services, s.iid) == Some(s.key.port)
  {
    if services[0] != s {
      assert s in services[1..];
      var i :| 0 <= i < |services| && services[i] == s;
      PortMeans(services[1..], s);
    }
  }

  // ---------------------------------------------------------------------------------------------------------
  // Rehearsing an import
  // ---------------------------------------------------------------------------------------------------------

  /** The keys that a view does not have. */
  function Unknown(v: View, keys: seq<Key>): seq<Key>
  {
    if keys == [] then []
    else
      var k := |keys| - 1;
      Unknown(v, keys[..k]) + if keys[k] in v then [] else [keys[k]]
  }

  lemma {:induction false} UnknownMeans(v: View, keys: seq<Key>, k: Key)
    ensures k in Unknown(v, keys) <==> k in keys && k !in v
  {
    if keys != [] {
      UnknownMeans(v, keys[..|keys| - 1], k);
      assert keys == keys[..|keys| - 1] + [keys[|keys| - 1]];
    }
  }

  function HostKeysOf(p: Pidb): seq<Key>
  {
    seq(|p.hosts|, i requires 0 <= i < |p.hosts| => HostKeyOf(p.hosts[i]))
  }

  function KeysIn(ops: seq<Op>): seq<Key>
  {
    seq(|ops|, i requires 0 <= i < |ops| => KeyOf(ops[i]))
  }

  lemma KeysInAre(ops: seq<Op>, k: Key)
    ensures k in KeysIn(ops) <==> k in Keys(ops)
  {
    if k in KeysIn(ops) {
      var i :| 0 <= i < |KeysIn(ops)| && KeysIn(ops)[i] == k;
      assert ops[i] in ops;
    }
    if k in Keys(ops) {
      var o :| o in ops && KeyOf(o) == k;
      var i :| 0 <= i < |ops| && ops[i] == o;
      assert KeysIn(ops)[i] == k;
    }
  }

  /** What a rehearsal reports, table by table. */
  datatype Report = Report(hosts: seq<Key>, services: seq<Key>, vulns: seq<Key>, notes: seq<Key>)

  function Rehearsed(v: View, p: Pidb): Report
    requires Sound(p)
  {
    Report(Unknown(v, HostKeysOf(p)), Unknown(v, KeysIn(ServicesOps(p, p.services, {}))),
           Unknown(v, KeysIn(VulnsOps(p, {}))), Unknown(v, KeysIn(NotesOps(p, {}))))
  }

  /**
    A rehearsal reports exactly the hosts, services and vulnerabilities that the import creates.  The import also
    creates the notes it reports, and notes of host names besides.
  */
  lemma RehearsalExact(v: View, p: Pidb, tags: set<string>, k: Key)
    requires Sound(p)
    ensures var created := k in Run(v, Ops(p, tags)) && k !in v;
            var r := Rehearsed(v, p);
            match k
            case HostKey(_) => created <==> k in r.hosts
            case ServiceKey(_, _) => created <==> k in r.services
            case VulnKey(_, _, _, _, _) => created <==> k in r.vulns
            case NoteKey(_, _, _, _) =>
              created <==> k in r.notes
                           || (k !in v && exists h :: h in p.hosts && HostNames(h.fields) != {} && k == NamesKey(h.key))
  {
    hide Run, AddressOf, PortOf, HostsOps, HostNames, Keys, Unknown, KeysIn;
    NewKeys(v, Ops(p, tags));
    UnknownMeans(v, HostKeysOf(p), k);
    UnknownMeans(v, KeysIn(ServicesOps(p, p.services, {})), k);
    UnknownMeans(v, KeysIn(VulnsOps(p, {})), k);
    UnknownMeans(v, KeysIn(NotesOps(p, {})), k);
    KeysInAre(ServicesOps(p, p.services, {}), k);
    KeysInAre(VulnsOps(p, {}), k);
    KeysInAre(NotesOps(p, {}), k);
    OpsKeys(p, tags, k);
  }

  lemma OpsKeys(p: Pidb, tags: set<string>, k: Key)
    requires Sound(p)
    ensures var services, vulns, notes :=
              Keys(ServicesOps(p, p.services, {})), Keys(VulnsOps(p, {})), Keys(NotesOps(p, {}));
            && (k in Keys(Ops(p, tags)) <==>
                  || k in HostKeysOf(p) || k in services || k in vulns || k in notes
                  || exists h :: h in p.hosts && HostNames(h.fields) != {} && k == NamesKey(h.key))
            && (k in HostKeysOf(p) ==> k.HostKey?) && (k in services ==> k.ServiceKey?)
            && (k in vulns ==> k.VulnKey?) && (k in notes ==> k.NoteKey?)
  {
    hide AddressOf, PortOf, HostsOps, HostNames, Keys, HostKeysOf, ServicesOps, VulnsOps, NotesOps;
    var a, b, c, d := HostsOps(p.hosts, tags), ServicesOps(p, p.services, tags), VulnsOps(p, tags), NotesOps(p, tags);
    KeysBoth(a, b);
    KeysBoth(a + b, c);
    KeysBoth(a + b + c, d);
    HostsOpsAre(p.hosts, tags);
    HostKeysAre(p, k);
    ItemKeys(p, tags, k);
  }

  lemma ItemKeys(p: Pidb, tags: set<string>, k: Key)
    requires Sound(p)
    ensures Keys(ServicesOps(p, p.services, tags)) == Keys(ServicesOps(p, p.services, {}))
    ensures Keys(VulnsOps(p, tags)) == Keys(VulnsOps(p, {}))
    ensures Keys(NotesOps(p, tags)) == Keys(NotesOps(p, {}))
    ensures k in Keys(ServicesOps(p, p.services, {})) ==> k.ServiceKey?
    ensures k in Keys(VulnsOps(p, {})) ==> k.VulnKey?
    ensures k in Keys(NotesOps(p, {})) ==> k.NoteKey?
  {
    hide AddressOf, PortOf;
    SameKeys(ServicesOps(p, p.services, tags), ServicesOps(p, p.services, {}));
    SameKeys(VulnsOps(p, tags), VulnsOps(p, {}));
    SameKeys(NotesOps(p, tags), NotesOps(p, {}));
  }

  lemma HostKeysAre(p: Pidb, k: Key)
    ensures k in HostKeysOf(p) <==> k in set h | h in p.hosts :: HostKeyOf(h)
    ensures k in HostKeysOf(p) ==> k.HostKey?
  {
    if k in HostKeysOf(p) {
      var i :| 0 <= i < |p.hosts| && HostKeysOf(p)[i] == k;
      assert p.hosts[i] in p.hosts;
    }
    if h :| h in p.hosts && HostKeyOf(h) == k {
      var i :| 0 <= i < |p.hosts| && p.hosts[i] == h;
      assert HostKeysOf(p)[i] == k;
    }
  }

  lemma SameKeys(a: seq<Op>, b: seq<Op>)
    requires |a| == |b| && forall i :: 0 <= i < |a| ==> KeyOf(a[i]) == KeyOf(b[i])
    ensures Keys(a) == Keys(b)
  {
    forall k
      ensures k in Keys(a) <==> k in Keys(b)
    {
      if o :| o in a && KeyOf(o) == k {
        var i :| 0 <= i < |a| && a[i] == o;
        assert b[i] in b;
      }
      if o :| o in b && KeyOf(o) == k {
        var i :| 0 <= i < |b| && b[i] == o;
        assert a[i] in a;
      }
    }
  }

  // ---------------------------------------------------------------------------------------------------------
  // What an import stores
  // ---------------------------------------------------------------------------------------------------------

  /** An item fills in a column of its row when it has a value for it that is not empty. */
  predicate Fills(fields: Fields, columns: set<string>, a: string)
  {
    a in fields && a in columns && fields[a] !in {Missing, Text(""), Number(0), List([])}
  }

  /** The row of an item has its tags and the columns that the item fills in. */
  ghost predicate Stored(v: View, w: View, k: Key, fields: Fields, columns: set<string>, tags: set<string>)
  {
    && k in w && w[k].tags == Get(v, k).tags + tags
    && forall a :: Fills(fields, columns, a) ==> a in w[k].fields && w[k].fields[a] == fields[a]
  }

  /** The columns that an item does not fill in are as they were. */
  ghost predicate Spared(v: View, w: View, k: Key, fields: Fields, columns: set<string>)
    requires k in w
  {
    forall a :: !Fills(fields, columns, a) ==>
      && (a in w[k].fields <==> a in Get(v, k).fields)
      && (a in w[k].fields ==> w[k].fields[a] == Get(v, k).fields[a])
  }

  ghost predicate HostsStored(v: View, w: View, p: Pidb, tags: set<string>)
  {
    forall h :: h in p.hosts ==>
      && Stored(v, w, HostKey(h.key), h.fields, {"hostname", "os"}, tags)
      && Spared(v, w, HostKey(h.key), h.fields, {"hostname", "os"})
  }

  ghost predicate ServicesStored(v: View, w: View, p: Pidb, tags: set<string>)
  {
    forall s, h :: s in p.services && h in p.hosts && h.iid == s.key.host ==>
      var columns := {"state", "name", "info", "import_time"};
      && Stored(v, w, ServiceKey(h.key, s.key.port), s.fields, columns, tags)
      && Spared(v, w, ServiceKey(h.key, s.key.port), s.fields, columns)
  }

  /** The port of the service that an item is on, if it is on one. */
  ghost predicate PortIs(p: Pidb, service: Option<nat>, port: Option<Port>)
  {
    if service.None? then port.None?
    else exists s :: s in p.services && s.iid == service.value && port == Some(s.key.port)
  }

  ghost predicate VulnsStored(v: View, w: View, p: Pidb, tags: set<string>)
  {
    forall u, h, port :: u in p.vulns && h in p.hosts && h.iid == u.key.host && PortIs(p, u.key.service, port) ==>
      var columns := {"severity", "descr", "data", "refs", "import_time"};
      && Stored(v, w, VulnKey(h.key, u.key.name, u.key.xtype, port, u.key.via), u.fields, columns, tags)
      && Spared(v, w, VulnKey(h.key, u.key.name, u.key.xtype, port, u.key.via), u.fields, columns)
  }

  /** A note of host names may also get those of its host. */
  ghost predicate NotesStored(v: View, w: View, p: Pidb, tags: set<string>)
  {
    forall n, h, port :: n in p.notes && h in p.hosts && h.iid == n.key.host && PortIs(p, n.key.service, port) ==>
      var k := NoteKey(h.key, n.key.xtype, port, n.key.via);
      && Stored(v, w, k, n.fields, {"data", "import_time"}, tags)
      && (!(k == NoteKey(h.key, "hostnames", None, None) && Named(h)) ==>
            Spared(v, w, k, n.fields, {"data", "import_time"}))
  }

  predicate Named(h: Item<string>)
  {
    "hostnames" in h.fields && h.fields["hostnames"].List? && h.fields["hostnames"].items != []
  }

  /** Some note of the items fills in the note of host names of an address. */
  ghost predicate NamesReplaced(p: Pidb, h: Item<string>)
  {
    exists n :: n in p.notes && n.key == NoteId(h.iid, None, "hostnames", None)
                && Fills(n.fields, {"data", "import_time"}, "data")
  }

  /** The host names in the note of them, if there are any. */
  ghost function NamesIn(v: View, address: string): set<Scalar>
  {
    if HasNames(v, address) then v[NamesKey(address)].fields["data"].names else {}
  }

  /** Host names join those in the note of host names, unless a note of the items replaces them. */
  ghost predicate NamesJoined(v: View, w: View, p: Pidb)
  {
    forall h :: h in p.hosts && Named(h) && !NamesReplaced(p, h) ==>
      var k := NoteKey(h.key, "hostnames", None, None);
      var names := set n | n in h.fields["hostnames"].items :: Name(n);
      && k in w && "data" in w[k].fields
      && w[k].fields["data"] == Names(NamesIn(v, h.key) + names)
  }

  /** Some item is about the row of a key. */
  ghost predicate About(p: Pidb, k: Key)
  {
    match k
    case HostKey(address) => exists h :: h in p.hosts && h.key == address
    case ServiceKey(address, port) =>
      exists s, h :: s in p.services && h in p.hosts && s.key == ServiceId(h.iid, port) && h.key == address
    case VulnKey(address, name, xtype, port, via) =>
      exists u, h :: u in p.vulns && h in p.hosts && u.key == VulnId(h.iid, u.key.service, name, xtype, via)
                     && h.key == address && PortIs(p, u.key.service, port)
    case NoteKey(address, xtype, port, via) =>
      || (exists n, h :: n in p.notes && h in p.hosts && n.key == NoteId(h.iid, n.key.service, xtype, via)
                         && h.key == address && PortIs(p, n.key.service, port))
      || (exists h :: h in p.hosts && Named(h) && k == NoteKey(h.key, "hostnames", None, None))
  }

  /** What an import promises of every row. */
  ghost predicate Imported(v: View, w: View, p: Pidb, tags: set<string>)
  {
    && HostsStored(v, w, p, tags) && ServicesStored(v, w, p, tags)
    && VulnsStored(v, w, p, tags) && NotesStored(v, w, p, tags) && NamesJoined(v, w, p)
    && (forall k :: k in w <==> k in v || About(p, k))
    && (forall k :: k in v && !About(p, k) ==> k in w && w[k] == v[k])
  }

  /** Operations on other keys leave a row alone. */
  lemma {:induction false} Elsewhere(v: View, ops: seq<Op>, k: Key)
    requires forall o :: o in ops ==> KeyOf(o) != k
    ensures k in Run(v, ops) <==> k in v
    ensures k in v ==> Run(v, ops)[k] == v[k]
    decreases ops
  {
    hide Changed;
    if ops != [] {
      assert ops[0] in ops;
      Elsewhere(Apply(v, ops[0]), ops[1..], k);
    }
  }

  /** The only operation on a key decides its row. */
  lemma {:induction false} OnlyOp(v: View, ops: seq<Op>, o: Op)
    requires o in ops && forall x :: x in ops && KeyOf(x) == KeyOf(o) ==> x == o
    ensures KeyOf(o) in Run(v, ops) && Run(v, ops)[KeyOf(o)] == Changed(Get(v, KeyOf(o)), o)
    decreases ops
  {
    hide Changed;
    var first, rest := ops[0], ops[1..];
    assert ops == [first] + rest;
    if o in rest {
      OnlyOp(Apply(v, first), rest, o);
      if KeyOf(first) == KeyOf(o) {
        assert first in ops;
        ChangedTwice(Get(v, KeyOf(o)), o);
      }
    } else {
      forall x | x in rest
        ensures KeyOf(x) != KeyOf(o)
      {
        assert x in ops;
      }
      Elsewhere(Apply(v, o), rest, KeyOf(o));
    }
  }

  lemma PutStores(v: View, w: View, k: Key, fields: Fields, tags: set<string>)
    requires k in w && w[k] == Changed(Get(v, k), Put(k, fields, tags))
    ensures Stored(v, w, k, fields, Columns(k), tags) && Spared(v, w, k, fields, Columns(k))
  {
    hide Truthy;
    forall a | a in fields {
      TruthyMeans(fields[a]);
    }
  }

  // ---------------------------------------------------------------------------------------------------------
  // The operations are those of the items
  // ---------------------------------------------------------------------------------------------------------

  ghost predicate IsHostOp(o: Op, h: Item<string>, tags: set<string>)
  {
    || o == Put(HostKey(h.key), h.fields, tags)
    || (HostNames(h.fields) != {} && o == AddNames(h.key, HostNames(h.fields)))
  }

  lemma {:induction false} HostOpsIn(hosts: seq<Item<string>>, tags: set<string>)
    ensures forall o :: o in HostsOps(hosts, tags) ==> exists h :: h in hosts && IsHostOp(o, h, tags)
    ensures forall h, o :: h in hosts && IsHostOp(o, h, tags) ==> o in HostsOps(hosts, tags)
  {
    hide HostNames;
    if hosts != [] {
      var h, rest := hosts[0], hosts[1..];
      HostOpsIn(rest, tags);
      assert hosts == [h] + rest;
      forall o
        ensures o in HostOps(h, tags) <==> IsHostOp(o, h, tags)
      {
      }
    }
  }

  lemma ServiceOpsIn(p: Pidb, tags: set<string>, o: Op)
    requires Sound(p)
    ensures o in ServicesOps(p, p.services, tags)
            <==> exists s :: s in p.services && o == Put(ServiceKeyOf(p, s), s.fields, tags)
  {
    hide AddressOf;
    var ops := ServicesOps(p, p.services, tags);
    if s :| s in p.services && o == Put(ServiceKeyOf(p, s), s.fields, tags) {
      var i :| 0 <= i < |p.services| && p.services[i] == s;
      assert ops[i] == o;
    }
  }

  lemma VulnOpsIn(p: Pidb, tags: set<string>, o: Op)
    requires Sound(p)
    ensures o in VulnsOps(p, tags) <==> exists u :: u in p.vulns && o == Put(VulnKeyOf(p, u), u.fields, tags)
  {
    hide AddressOf, PortOf;
    var ops := VulnsOps(p, tags);
    if u :| u in p.vulns && o == Put(VulnKeyOf(p, u), u.fields, tags) {
      var i :| 0 <= i < |p.vulns| && p.vulns[i] == u;
      assert ops[i] == o;
    }
  }

  lemma NoteOpsIn(p: Pidb, tags: set<string>, o: Op)
    requires Sound(p)
    ensures o in NotesOps(p, tags) <==> exists n :: n in p.notes && o == Put(NoteKeyOf(p, n), n.fields, tags)
  {
    hide AddressOf, PortOf;
    var ops := NotesOps(p, tags);
    if n :| n in p.notes && o == Put(NoteKeyOf(p, n), n.fields, tags) {
      var i :| 0 <= i < |p.notes| && p.notes[i] == n;
      assert ops[i] == o;
    }
  }

  // ---------------------------------------------------------------------------------------------------------
  // Different items have different rows
  // ---------------------------------------------------------------------------------------------------------

  lemma OneItem<K>(items: seq<Item<K>>, x: Item<K>, y: Item<K>)
    requires UniqueKeys(items) && x in items && y in items && x.key == y.key
    ensures x == y
  {
    var i :| 0 <= i < |items| && items[i] == x;
    var j :| 0 <= j < |items| && items[j] == y;
    assert !(i < j) && !(j < i);
  }

  lemma OneNumber(p: Pidb, h: Item<string>, i: nat)
    requires Sound(p) && h in p.hosts && AddressOf(p.hosts, i) == Some(h.key)
    ensures i == h.iid
  {
    hide AddressOf;
    AddressMeans(p.hosts, i);
    var g :| g in p.hosts && g.iid == i;
    OneItem(p.hosts, g, h);
  }

  lemma HostIs(p: Pidb, h: Item<string>)
    requires Sound(p) && h in p.hosts
    ensures AddressOf(p.hosts, h.iid) == Some(h.key)
  {
    AddressMeans(p.hosts, h.iid);
  }

  /** The port of an item is that of its service. */
  lemma PortIsOf(p: Pidb, host: nat, service: Option<nat>, port: Option<Port>)
    requires Sound(p) && OnHost(p, host, service)
    ensures PortIs(p, service, port) <==> port == OptionalPort(p.services, service)
    ensures OptionalPort(p.services, service).None? <==> service.None?
  {
    hide AddressOf, PortOf;
    if service.Some? {
      var s :| s in p.services && s.iid == service.value && s.key.host == host;
      PortMeans(p.services, s);
      forall t | t in p.services && t.iid == service.value
        ensures Some(t.key.port) == OptionalPort(p.services, service)
      {
        PortMeans(p.services, t);
      }
    }
  }

  lemma OneService(p: Pidb, host: nat, a: Option<nat>, b: Option<nat>)
    requires Sound(p) && OnHost(p, host, a) && OnHost(p, host, b)
    requires OptionalPort(p.services, a) == OptionalPort(p.services, b)
    ensures a == b
  {
    hide AddressOf, PortOf;
    PortIsOf(p, host, a, None);
    PortIsOf(p, host, b, None);
    if a.Some? {
      var s :| s in p.services && s.iid == a.value && s.key.host == host;
      var t :| t in p.services && t.iid == b.value && t.key.host == host;
      PortMeans(p.services, s);
      PortMeans(p.services, t);
      OneItem(p.services, s, t);
    }
  }

  lemma ServicesApart(p: Pidb, s: Item<ServiceId>, t: Item<ServiceId>)
    requires Sound(p) && s in p.services && t in p.services && ServiceKeyOf(p, s) == ServiceKeyOf(p, t)
    ensures s == t
  {
    hide AddressOf;
    AddressMeans(p.hosts, s.key.host);
    var h :| h in p.hosts && h.iid == s.key.host;
    OneNumber(p, h, t.key.host);
    OneItem(p.services, s, t);
  }

  lemma VulnsApart(p: Pidb, u: Item<VulnId>, x: Item<VulnId>)
    requires Sound(p) && u in p.vulns && x in p.vulns && VulnKeyOf(p, u) == VulnKeyOf(p, x)
    ensures u == x
  {
    hide AddressOf, PortOf;
    AddressMeans(p.hosts, u.key.host);
    var h :| h in p.hosts && h.iid == u.key.host;
    OneNumber(p, h, x.key.host);
    OneService(p, u.key.host, u.key.service, x.key.service);
    OneItem(p.vulns, u, x);
  }

  lemma NotesApart(p: Pidb, n: Item<NoteId>, x: Item<NoteId>)
    requires Sound(p) && n in p.notes && x in p.notes && NoteKeyOf(p, n) == NoteKeyOf(p, x)
    ensures n == x
  {
    hide AddressOf, PortOf;
    AddressMeans(p.hosts, n.key.host);
    var h :| h in p.hosts && h.iid == n.key.host;
    OneNumber(p, h, x.key.host);
    OneService(p, n.key.host, n.key.service, x.key.service);
    OneItem(p.notes, n, x);
  }

  // ---------------------------------------------------------------------------------------------------------
  // Table by table
  // ---------------------------------------------------------------------------------------------------------

  lemma OpsIn(p: Pidb, tags: set<string>, o: Op)
    requires Sound(p)
    ensures o in Ops(p, tags)
            <==> o in HostsOps(p.hosts, tags) || o in ServicesOps(p, p.services, tags) || o in VulnsOps(p, tags)
                 || o in NotesOps(p, tags)
  {
    hide HostsOps, ServicesOps, VulnsOps, NotesOps, AddressOf;
  }

  /** Which table an operation is of. */
  lemma OpKinds(p: Pidb, tags: set<string>, o: Op)
    requires Sound(p)
    ensures o in HostsOps(p.hosts, tags) ==> if o.Put? then o.key.HostKey? else KeyOf(o).NoteKey?
    ensures o in ServicesOps(p, p.services, tags) ==> o.Put? && o.key.ServiceKey?
    ensures o in VulnsOps(p, tags) ==> o.Put? && o.key.VulnKey?
    ensures o in NotesOps(p, tags) ==> o.Put? && o.key.NoteKey?
  {
    hide HostsOps, AddressOf, PortOf;
    HostsOpsAre(p.hosts, tags);
  }

  lemma HostStored(v: View, p: Pidb, tags: set<string>, h: Item<string>)
    requires Sound(p) && h in p.hosts
    ensures var w := Run(v, Ops(p, tags));
            && Stored(v, w, HostKey(h.key), h.fields, {"hostname", "os"}, tags)
            && Spared(v, w, HostKey(h.key), h.fields, {"hostname", "os"})
  {
    hide Ops, HostsOps, ServicesOps, VulnsOps, NotesOps, Run, HostNames, Stored, Spared, Changed, AddressOf;
    var ops, o := Ops(p, tags), Put(HostKey(h.key), h.fields, tags);
    HostOpsIn(p.hosts, tags);
    assert IsHostOp(o, h, tags);
    OpsIn(p, tags, o);
    forall x | x in ops && KeyOf(x) == KeyOf(o)
      ensures x == o
    {
      OpsIn(p, tags, x);
      OpKinds(p, tags, x);
      var g :| g in p.hosts && IsHostOp(x, g, tags);
      OneItem(p.hosts, g, h);
    }
    OnlyOp(v, ops, o);
    PutStores(v, Run(v, ops), HostKey(h.key), h.fields, tags);
  }

  lemma ServiceStored(v: View, p: Pidb, tags: set<string>, s: Item<ServiceId>, h: Item<string>)
    requires Sound(p) && s in p.services && h in p.hosts && h.iid == s.key.host
    ensures var w, columns := Run(v, Ops(p, tags)), {"state", "name", "info", "import_time"};
            && Stored(v, w, ServiceKey(h.key, s.key.port), s.fields, columns, tags)
            && Spared(v, w, ServiceKey(h.key, s.key.port), s.fields, columns)
  {
    hide Ops, HostsOps, ServicesOps, VulnsOps, NotesOps, Run, HostNames, Stored, Spared, Changed, AddressOf;
    HostIs(p, h);
    var ops, o := Ops(p, tags), Put(ServiceKeyOf(p, s), s.fields, tags);
    ServiceOpsIn(p, tags, o);
    OpsIn(p, tags, o);
    forall x | x in ops && KeyOf(x) == KeyOf(o)
      ensures x == o
    {
      OpsIn(p, tags, x);
      OpKinds(p, tags, x);
      ServiceOpsIn(p, tags, x);
      var t :| t in p.services && x == Put(ServiceKeyOf(p, t), t.fields, tags);
      ServicesApart(p, s, t);
    }
    OnlyOp(v, ops, o);
    PutStores(v, Run(v, ops), o.key, s.fields, tags);
  }

  lemma VulnStored(v: View, p: Pidb, tags: set<string>, u: Item<VulnId>, h: Item<string>, port: Option<Port>)
    requires Sound(p) && u in p.vulns && h in p.hosts && h.iid == u.key.host && PortIs(p, u.key.service, port)
    ensures var w, columns := Run(v, Ops(p, tags)), {"severity", "descr", "data", "refs", "import_time"};
            var k := VulnKey(h.key, u.key.name, u.key.xtype, port, u.key.via);
            Stored(v, w, k, u.fields, columns, tags) && Spared(v, w, k, u.fields, columns)
  {
    hide Ops, HostsOps, ServicesOps, VulnsOps, NotesOps, Run, HostNames, Stored, Spared, Changed, AddressOf, PortOf,
         PortIs;
    HostIs(p, h);
    PortIsOf(p, u.key.host, u.key.service, port);
    var ops, o := Ops(p, tags), Put(VulnKeyOf(p, u), u.fields, tags);
    VulnOpsIn(p, tags, o);
    OpsIn(p, tags, o);
    forall x | x in ops && KeyOf(x) == KeyOf(o)
      ensures x == o
    {
      OpsIn(p, tags, x);
      OpKinds(p, tags, x);
      VulnOpsIn(p, tags, x);
      var y :| y in p.vulns && x == Put(VulnKeyOf(p, y), y.fields, tags);
      VulnsApart(p, u, y);
    }
    OnlyOp(v, ops, o);
    PutStores(v, Run(v, ops), o.key, u.fields, tags);
  }

  /** Everything but the notes comes first. */
  function Early(p: Pidb, tags: set<string>): seq<Op>
    requires Sound(p)
  {
    HostsOps(p.hosts, tags) + ServicesOps(p, p.services, tags) + VulnsOps(p, tags)
  }

  /** Before the notes, only host names touch the row of a note. */
  lemma EarlyOnNotes(p: Pidb, tags: set<string>, x: Op)
    requires Sound(p) && x in Early(p, tags) && KeyOf(x).NoteKey?
    ensures exists h :: h in p.hosts && HostNames(h.fields) != {} && x == AddNames(h.key, HostNames(h.fields))
  {
    hide HostsOps, ServicesOps, VulnsOps, HostNames, AddressOf;
    OpKinds(p, tags, x);
    HostOpsIn(p.hosts, tags);
  }

  lemma NamesBeforeNotes(v: View, p: Pidb, tags: set<string>, h: Item<string>)
    requires Sound(p) && h in p.hosts && HostNames(h.fields) != {}
    ensures var u, k := Run(v, Early(p, tags)), NamesKey(h.key);
            k in u && u[k] == Changed(Get(v, k), AddNames(h.key, HostNames(h.fields)))
  {
    hide Run, HostNames, Changed, HostsOps, ServicesOps, VulnsOps, AddressOf;
    var ops, o := Early(p, tags), AddNames(h.key, HostNames(h.fields));
    HostOpsIn(p.hosts, tags);
    assert IsHostOp(o, h, tags);
    forall x | x in ops && KeyOf(x) == KeyOf(o)
      ensures x == o
    {
      EarlyOnNotes(p, tags, x);
      var g :| g in p.hosts && HostNames(g.fields) != {} && x == AddNames(g.key, HostNames(g.fields));
      OneItem(p.hosts, g, h);
    }
    OnlyOp(v, ops, o);
  }

  lemma NothingBeforeNotes(v: View, p: Pidb, tags: set<string>, k: Key)
    requires Sound(p) && k.NoteKey?
    requires forall h :: h in p.hosts && k == NamesKey(h.key) ==> HostNames(h.fields) == {}
    ensures Get(Run(v, Early(p, tags)), k) == Get(v, k)
  {
    hide Run, HostNames, Early, AddressOf;
    var ops := Early(p, tags);
    forall x | x in ops
      ensures KeyOf(x) != k
    {
      if KeyOf(x) == k {
        EarlyOnNotes(p, tags, x);
      }
    }
    Elsewhere(v, ops, k);
  }

  lemma NamedMeans(h: Item<string>)
    ensures Named(h) <==> HostNames(h.fields) != {}
    ensures Named(h) ==> HostNames(h.fields) == set n | n in h.fields["hostnames"].items :: Name(n)
  {
    if Named(h) {
      assert Name(h.fields["hostnames"].items[0]) in HostNames(h.fields);
    }
  }

  lemma NoteStored(v: View, p: Pidb, tags: set<string>, n: Item<NoteId>, h: Item<string>, port: Option<Port>)
    requires Sound(p) && n in p.notes && h in p.hosts && h.iid == n.key.host && PortIs(p, n.key.service, port)
    ensures var w, k := Run(v, Ops(p, tags)), NoteKey(h.key, n.key.xtype, port, n.key.via);
            && Stored(v, w, k, n.fields, {"data", "import_time"}, tags)
            && (!(k == NamesKey(h.key) && Named(h)) ==> Spared(v, w, k, n.fields, {"data", "import_time"}))
  {
    hide Early, HostsOps, ServicesOps, VulnsOps, NotesOps, Run, HostNames, Named, Changed, AddressOf, PortOf, PortIs,
         Truthy, Update;
    HostIs(p, h);
    PortIsOf(p, n.key.host, n.key.service, port);
    var notes, o := NotesOps(p, tags), Put(NoteKeyOf(p, n), n.fields, tags);
    var k, u := o.key, Run(v, Early(p, tags));
    NoteOpsIn(p, tags, o);
    forall x | x in notes && KeyOf(x) == KeyOf(o)
      ensures x == o
    {
      NoteOpsIn(p, tags, x);
      var y :| y in p.notes && x == Put(NoteKeyOf(p, y), y.fields, tags);
      NotesApart(p, n, y);
    }
    OnlyOp(u, notes, o);
    OpsAreBoth(v, p, tags);
    PutStores(u, Run(u, notes), k, n.fields, tags);
    NamedMeans(h);
    if k == NamesKey(h.key) && Named(h) {
      NamesBeforeNotes(v, p, tags, h);
      NamesKeepTags(Get(v, k), h.key, HostNames(h.fields));
    } else {
      forall g | g in p.hosts && k == NamesKey(g.key)
        ensures HostNames(g.fields) == {}
      {
        OneItem(p.hosts, g, h);
      }
      NothingBeforeNotes(v, p, tags, k);
    }
  }

  lemma OpsAreBoth(v: View, p: Pidb, tags: set<string>)
    requires Sound(p)
    ensures Run(v, Ops(p, tags)) == Run(Run(v, Early(p, tags)), NotesOps(p, tags))
  {
    hide HostsOps, ServicesOps, VulnsOps, NotesOps, Run, AddressOf;
    RunBoth(v, Early(p, tags), NotesOps(p, tags));
  }

  lemma NamesKeepTags(r: Record, address: string, names: set<Scalar>)
    ensures Changed(r, AddNames(address, names)).tags == r.tags
  {
  }

  /** What the notes do to the note of host names of a host that they do not replace: its list stays. */
  lemma NotesKeepNames(u: View, p: Pidb, tags: set<string>, h: Item<string>)
    requires Sound(p) && h in p.hosts && !NamesReplaced(p, h) && NamesKey(h.key) in u
    requires "data" in u[NamesKey(h.key)].fields
    ensures var w, k := Run(u, NotesOps(p, tags)), NamesKey(h.key);
            k in w && "data" in w[k].fields && w[k].fields["data"] == u[k].fields["data"]
  {
    hide NotesOps, Run, AddressOf, PortOf, Stored, Changed;
    var notes, k := NotesOps(p, tags), NamesKey(h.key);
    if o :| o in notes && KeyOf(o) == k {
      NoteOpsIn(p, tags, o);
      var n :| n in p.notes && o == Put(NoteKeyOf(p, n), n.fields, tags);
      OneNumber(p, h, n.key.host);
      PortIsOf(p, n.key.host, n.key.service, None);
      forall x | x in notes && KeyOf(x) == KeyOf(o)
        ensures x == o
      {
        NoteOpsIn(p, tags, x);
        var y :| y in p.notes && x == Put(NoteKeyOf(p, y), y.fields, tags);
        NotesApart(p, n, y);
      }
      OnlyOp(u, notes, o);
      PutStores(u, Run(u, notes), k, n.fields, tags);
      assert n.key == NoteId(h.iid, None, "hostnames", None);
    } else {
      Elsewhere(u, notes, k);
    }
  }

  lemma NamesJoin(v: View, p: Pidb, tags: set<string>, h: Item<string>)
    requires Sound(p) && !NoteInTheWay(v, p) && h in p.hosts && Named(h) && !NamesReplaced(p, h)
    ensures var w, k := Run(v, Ops(p, tags)), NamesKey(h.key);
            && k in w && "data" in w[k].fields
            && w[k].fields["data"] == Names(NamesIn(v, h.key) + set n | n in h.fields["hostnames"].items :: Name(n))
  {
    hide Run, Early, NotesOps, Ops, HostNames, NamesReplaced, AddressOf;
    NamedMeans(h);
    NamesBeforeNotes(v, p, tags, h);
    OpsAreBoth(v, p, tags);
    NotesKeepNames(Run(v, Early(p, tags)), p, tags, h);
    assert {} + HostNames(h.fields) == HostNames(h.fields);
  }

  // ---------------------------------------------------------------------------------------------------------
  // Which rows an import is about
  // ---------------------------------------------------------------------------------------------------------

  lemma HostKeysAbout(p: Pidb, tags: set<string>, k: Key)
    requires Sound(p)
    ensures (exists o :: o in HostsOps(p.hosts, tags) && KeyOf(o) == k)
            <==> exists h :: h in p.hosts && (k == HostKey(h.key) || (Named(h) && k == NamesKey(h.key)))
  {
    hide HostsOps, HostNames, Named;
    HostOpsIn(p.hosts, tags);
    if o :| o in HostsOps(p.hosts, tags) && KeyOf(o) == k {
      var h :| h in p.hosts && IsHostOp(o, h, tags);
      NamedMeans(h);
    }
    if h :| h in p.hosts && (k == HostKey(h.key) || (Named(h) && k == NamesKey(h.key))) {
      NamedMeans(h);
      var o := if k == HostKey(h.key) then Put(HostKey(h.key), h.fields, tags)
               else AddNames(h.key, HostNames(h.fields));
      assert IsHostOp(o, h, tags);
    }
  }

  lemma ServiceKeysAbout(p: Pidb, tags: set<string>, k: Key)
    requires Sound(p) && k.ServiceKey?
    ensures (exists o :: o in ServicesOps(p, p.services, tags) && KeyOf(o) == k) <==> About(p, k)
  {
    hide ServicesOps, AddressOf;
    if o :| o in ServicesOps(p, p.services, tags) && KeyOf(o) == k {
      ServiceOpsIn(p, tags, o);
      var s :| s in p.services && o == Put(ServiceKeyOf(p, s), s.fields, tags);
      AddressMeans(p.hosts, s.key.host);
      var h :| h in p.hosts && h.iid == s.key.host;
      assert s.key == ServiceId(h.iid, k.port);
    }
    if About(p, k) {
      var s, h :| s in p.services && h in p.hosts && s.key == ServiceId(h.iid, k.port) && h.key == k.address;
      HostIs(p, h);
      ServiceOpsIn(p, tags, Put(ServiceKeyOf(p, s), s.fields, tags));
    }
  }

  lemma VulnKeysAbout(p: Pidb, tags: set<string>, k: Key)
    requires Sound(p) && k.VulnKey?
    ensures (exists o :: o in VulnsOps(p, tags) && KeyOf(o) == k) <==> About(p, k)
  {
    hide VulnsOps, AddressOf, PortOf, PortIs;
    if o :| o in VulnsOps(p, tags) && KeyOf(o) == k {
      VulnOpsIn(p, tags, o);
      var u :| u in p.vulns && o == Put(VulnKeyOf(p, u), u.fields, tags);
      AddressMeans(p.hosts, u.key.host);
      var h :| h in p.hosts && h.iid == u.key.host;
      PortIsOf(p, u.key.host, u.key.service, k.service);
      assert u.key == VulnId(h.iid, u.key.service, k.name, k.xtype, k.via);
    }
    if About(p, k) {
      var u, h :| u in p.vulns && h in p.hosts && u.key == VulnId(h.iid, u.key.service, k.name, k.xtype, k.via)
                  && h.key == k.address && PortIs(p, u.key.service, k.service);
      HostIs(p, h);
      PortIsOf(p, u.key.host, u.key.service, k.service);
      VulnOpsIn(p, tags, Put(VulnKeyOf(p, u), u.fields, tags));
    }
  }

  ghost predicate NoteAbout(p: Pidb, k: Key)
    requires k.NoteKey?
  {
    exists n, h :: n in p.notes && h in p.hosts && n.key == NoteId(h.iid, n.key.service, k.xtype, k.via)
                   && h.key == k.address && PortIs(p, n.key.service, k.service)
  }

  lemma NoteKeysAbout(p: Pidb, tags: set<string>, k: Key)
    requires Sound(p) && k.NoteKey?
    ensures (exists o :: o in NotesOps(p, tags) && KeyOf(o) == k) <==> NoteAbout(p, k)
  {
    hide NotesOps, AddressOf, PortOf, PortIs;
    if o :| o in NotesOps(p, tags) && KeyOf(o) == k {
      NoteOpsIn(p, tags, o);
      var n :| n in p.notes && o == Put(NoteKeyOf(p, n), n.fields, tags);
      AddressMeans(p.hosts, n.key.host);
      var h :| h in p.hosts && h.iid == n.key.host;
      PortIsOf(p, n.key.host, n.key.service, k.service);
      assert n.key == NoteId(h.iid, n.key.service, k.xtype, k.via);
    }
    if NoteAbout(p, k) {
      var n, h :| n in p.notes && h in p.hosts && n.key == NoteId(h.iid, n.key.service, k.xtype, k.via)
                  && h.key == k.address && PortIs(p, n.key.service, k.service);
      HostIs(p, h);
      PortIsOf(p, n.key.host, n.key.service, k.service);
      NoteOpsIn(p, tags, Put(NoteKeyOf(p, n), n.fields, tags));
    }
  }

  lemma KeysAbout(p: Pidb, tags: set<string>, k: Key)
    requires Sound(p)
    ensures (exists o :: o in Ops(p, tags) && KeyOf(o) == k) <==> About(p, k)
  {
    hide Ops, HostsOps, ServicesOps, VulnsOps, NotesOps, AddressOf, Named, PortIs;
    forall o
      ensures o in Ops(p, tags)
              <==> o in HostsOps(p.hosts, tags) || o in ServicesOps(p, p.services, tags) || o in VulnsOps(p, tags)
                   || o in NotesOps(p, tags)
    {
      OpsIn(p, tags, o);
    }
    forall o | o in Ops(p, tags) && KeyOf(o) == k
      ensures o in ServicesOps(p, p.services, tags) ==> k.ServiceKey?
      ensures o in VulnsOps(p, tags) ==> k.VulnKey?
      ensures o in NotesOps(p, tags) ==> k.NoteKey?
    {
      OpKinds(p, tags, o);
    }
    HostKeysAbout(p, tags, k);
    match k
    case HostKey(_) =>
    case ServiceKey(_, _) => ServiceKeysAbout(p, tags, k);
    case VulnKey(_, _, _, _, _) => VulnKeysAbout(p, tags, k);
    case NoteKey(_, _, _, _) => NoteKeysAbout(p, tags, k);
  }

  /** A rehearsal reports the keys that items are about and that no row has; of the notes, those of note items. */
  ghost predicate Reported(v: View, p: Pidb, r: Report)
  {
    forall k ::
      && (k in r.hosts <==> k.HostKey? && About(p, k) && k !in v)
      && (k in r.services <==> k.ServiceKey? && About(p, k) && k !in v)
      && (k in r.vulns <==> k.VulnKey? && About(p, k) && k !in v)
      && (k in r.notes <==> k.NoteKey? && NoteAbout(p, k) && k !in v)
  }

  lemma RehearsedReports(v: View, p: Pidb)
    requires Sound(p)
    ensures Reported(v, p, Rehearsed(v, p))
  {
    hide AddressOf, About, NoteAbout, Unknown, KeysIn, Keys, HostKeysOf, ServicesOps, VulnsOps, NotesOps;
    var services, vulns, notes := ServicesOps(p, p.services, {}), VulnsOps(p, {}), NotesOps(p, {});
    forall k
      ensures k in HostKeysOf(p) <==> k.HostKey? && About(p, k)
      ensures k in KeysIn(services) <==> k.ServiceKey? && About(p, k)
      ensures k in KeysIn(vulns) <==> k.VulnKey? && About(p, k)
      ensures k in KeysIn(notes) <==> k.NoteKey? && NoteAbout(p, k)
      ensures k in Unknown(v, HostKeysOf(p)) <==> k in HostKeysOf(p) && k !in v
      ensures k in Unknown(v, KeysIn(services)) <==> k in KeysIn(services) && k !in v
      ensures k in Unknown(v, KeysIn(vulns)) <==> k in KeysIn(vulns) && k !in v
      ensures k in Unknown(v, KeysIn(notes)) <==> k in KeysIn(notes) && k !in v
    {
      UnknownMeans(v, HostKeysOf(p), k);
      UnknownMeans(v, KeysIn(services), k);
      UnknownMeans(v, KeysIn(vulns), k);
      UnknownMeans(v, KeysIn(notes), k);
      ReportedKeys(p, k);
    }
  }

  lemma ReportedKeys(p: Pidb, k: Key)
    requires Sound(p)
    ensures k in HostKeysOf(p) <==> k.HostKey? && About(p, k)
    ensures k in KeysIn(ServicesOps(p, p.services, {})) <==> k.ServiceKey? && About(p, k)
    ensures k in KeysIn(VulnsOps(p, {})) <==> k.VulnKey? && About(p, k)
    ensures k in KeysIn(NotesOps(p, {})) <==> k.NoteKey? && NoteAbout(p, k)
  {
    hide AddressOf, NoteAbout, KeysIn, Keys, HostKeysOf, ServicesOps, VulnsOps, NotesOps, PortIs;
    HostKeysAre(p, k);
    KeysInAre(ServicesOps(p, p.services, {}), k);
    KeysInAre(VulnsOps(p, {}), k);
    KeysInAre(NotesOps(p, {}), k);
    KeysMean(ServicesOps(p, p.services, {}), k);
    KeysMean(VulnsOps(p, {}), k);
    KeysMean(NotesOps(p, {}), k);
    ItemKeys(p, {}, k);
    match k
    case HostKey(_) =>
    case ServiceKey(_, _) => ServiceKeysAbout(p, {}, k);
    case VulnKey(_, _, _, _, _) => VulnKeysAbout(p, {}, k);
    case NoteKey(_, _, _, _) => NoteKeysAbout(p, {}, k);
  }

  /** An import that does not fail leaves in every row what the items say, and every other row as it was. */
  lemma ImportStores(v: View, p: Pidb, tags: set<string>)
    requires Sound(p) && !NoteInTheWay(v, p)
    ensures Imported(v, Run(v, Ops(p, tags)), p, tags)
  {
    hide Run, Ops, NoteInTheWay, About, Stored, Spared, PortIs, Named, NamesReplaced, NamesIn, AddressOf, Keys;
    var w, ops := Run(v, Ops(p, tags)), Ops(p, tags);
    forall h | h in p.hosts {
      HostStored(v, p, tags, h);
    }
    forall s, h | s in p.services && h in p.hosts && h.iid == s.key.host {
      ServiceStored(v, p, tags, s, h);
    }
    forall u, h, port | u in p.vulns && h in p.hosts && h.iid == u.key.host && PortIs(p, u.key.service, port) {
      VulnStored(v, p, tags, u, h, port);
    }
    forall n, h, port | n in p.notes && h in p.hosts && h.iid == n.key.host && PortIs(p, n.key.service, port) {
      NoteStored(v, p, tags, n, h, port);
    }
    AllNamesJoin(v, p, tags);
    NewKeys(v, ops);
    forall k
      ensures k in Keys(ops) <==> About(p, k)
      ensures k in v && !About(p, k) ==> k in w && w[k] == v[k]
    {
      KeysAbout(p, tags, k);
      KeysMean(ops, k);
      if !About(p, k) {
        Elsewhere(v, ops, k);
      }
    }
  }

  lemma KeysMean(ops: seq<Op>, k: Key)
    ensures k in Keys(ops) <==> exists o :: o in ops && KeyOf(o) == k
  {
  }

  lemma AllNamesJoin(v: View, p: Pidb, tags: set<string>)
    requires Sound(p) && !NoteInTheWay(v, p)
    ensures NamesJoined(v, Run(v, Ops(p, tags)), p)
  {
    hide Run, Ops, NoteInTheWay, NamesReplaced, NamesIn, AddressOf;
    var w := Run(v, Ops(p, tags));
    forall h | h in p.hosts && Named(h) && !NamesReplaced(p, h)
      ensures var k := NoteKey(h.key, "hostnames", None, None);
              && k in w && "data" in w[k].fields
              && w[k].fields["data"] == Names(NamesIn(v, h.key) + set n | n in h.fields["hostnames"].items :: Name(n))
    {
      NamesJoin(v, p, tags, h);
    }
  }
}
