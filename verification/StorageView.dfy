/**
  Long-term storage by natural keys: what updates do to its records, and why importing the same data again changes
  nothing.
*/
module StorageView {

  datatype Option<T> = None | Some(value: T)

  /** A JSON value that is no list and no object: a string, or another one by the text of what it equals. */
  datatype Scalar = Name(name: string) | Other(text: string)

  /** A field; Names is text that is a JSON list of scalars, whose order does not matter. */
  datatype Value = Missing | Text(text: string) | Number(n: int) | List(items: seq<string>) | Names(names: set<Scalar>)

  predicate Truthy(v: Value)
  {
    match v
    case Missing => false
    case Text(text) => text != ""
    case Number(n) => n != 0
    case List(items) => items != []
    case Names(_) => true
  }

  /** Empty are a missing value, the empty text, zero and the empty list. */
  lemma TruthyMeans(v: Value)
    ensures Truthy(v) <==> v !in {Missing, Text(""), Number(0), List([])}
  {
  }

  type Fields = map<string, Value>

  datatype Port = Port(proto: string, port: int)

  /** What a row is found by. */
  datatype Key =
    | HostKey(address: string)
    | ServiceKey(address: string, port: Port)
    | VulnKey(address: string, name: string, xtype: string, service: Option<Port>, via: Option<string>)
    | NoteKey(address: string, xtype: string, service: Option<Port>, via: Option<string>)

  /** The columns of a row besides its key; timestamps of the storage itself are not among them. */
  function Columns(k: Key): set<string>
  {
    match k
    case HostKey(_) => {"hostname", "os"}
    case ServiceKey(_, _) => {"state", "name", "info", "import_time"}
    case VulnKey(_, _, _, _, _) => {"severity", "descr", "data", "refs", "import_time"}
    case NoteKey(_, _, _, _) => {"data", "import_time"}
  }

  datatype Record = Record(fields: Fields, tags: set<string>)

  type View = map<Key, Record>

  /** Values that are not empty replace those of columns with the same name. */
  function Update(fields: Fields, new_: Fields, columns: set<string>): Fields
  {
    fields + map a | a in new_ && a in columns && Truthy(new_[a]) :: new_[a]
  }

  /** An imported item, or the host names that are merged into a note of the host. */
  datatype Op = Put(key: Key, fields: Fields, tags: set<string>) | AddNames(address: string, names: set<Scalar>)

  function NamesKey(address: string): Key
  {
    NoteKey(address, "hostnames", None, None)
  }

  function KeyOf(op: Op): Key
  {
    match op
    case Put(key, _, _) => key
    case AddNames(address, _) => NamesKey(address)
  }

  function Get(v: View, k: Key): Record
  {
    if k in v then v[k] else Record(map[], {})
  }

  function Merged(fields: Fields, names: set<Scalar>): Value
  {
    if "data" !in fields then Names(names)
    else if fields["data"].Names? then Names(fields["data"].names + names)
    else fields["data"]
  }

  /** A record after an operation. */
  function Changed(r: Record, op: Op): Record
  {
    match op
    case Put(key, fields, tags) => Record(Update(r.fields, fields, Columns(key)), r.tags + tags)
    case AddNames(_, names) => r.(fields := r.fields["data" := Merged(r.fields, names)])
  }

  function Apply(v: View, op: Op): View
  {
    v[KeyOf(op) := Changed(Get(v, KeyOf(op)), op)]
  }

  function Run(v: View, ops: seq<Op>): View
    decreases ops
  {
    if ops == [] then v else Run(Apply(v, ops[0]), ops[1..])
  }

  predicate HasNames(v: View, address: string)
  {
    NamesKey(address) in v && "data" in v[NamesKey(address)].fields && v[NamesKey(address)].fields["data"].Names?
  }

  /** The note of host names exists and does not hold a list. */
  predicate Fails(v: View, op: Op)
  {
    op.AddNames? && NamesKey(op.address) in v && !HasNames(v, op.address)
  }

  predicate Raises(v: View, ops: seq<Op>)
    decreases ops
  {
    ops != [] && (Fails(v, ops[0]) || Raises(Apply(v, ops[0]), ops[1..]))
  }

  lemma {:induction false} RunBoth(v: View, a: seq<Op>, b: seq<Op>)
    ensures Run(v, a + b) == Run(Run(v, a), b)
    ensures Raises(v, a + b) <==> Raises(v, a) || Raises(Run(v, a), b)
    decreases a
  {
    hide Apply, Fails;
    if a == [] {
      assert a + b == b;
    } else {
      RunBoth(Apply(v, a[0]), a[1..], b);
      assert (a + b)[1..] == a[1..] + b;
    }
  }

  lemma RunOne(v: View, o: Op)
    ensures Run(v, [o]) == Apply(v, o) && (Raises(v, [o]) <==> Fails(v, o))
  {
    hide Apply, Fails;
    assert [o][1..] == [];
  }

  // ---------------------------------------------------------------------------------------------------------
  // Importing again
  // ---------------------------------------------------------------------------------------------------------

  lemma UpdateBand(f: Fields, a: Fields, b: Fields, columns: set<string>)
    ensures Update(Update(Update(f, a, columns), b, columns), a, columns) == Update(Update(f, b, columns), a, columns)
  {
  }

  lemma NamesBand(f: Fields, m: set<Scalar>, n: set<Scalar>)
    ensures var g := f["data" := Merged(f, m)];
            var h := g["data" := Merged(g, n)];
            var k := f["data" := Merged(f, n)];
            h["data" := Merged(h, m)] == k["data" := Merged(k, m)]
  {
    assert forall s: set<Scalar> :: s + m + n + m == s + n + m;
    assert m + n + m == n + m;
  }

  /** Host names, other values, the host names again. */
  lemma NamesPutBand(f: Fields, n: set<Scalar>, b: Fields, columns: set<string>)
    requires "data" in columns
    ensures var g := Update(f["data" := Merged(f, n)], b, columns);
            var h := Update(f, b, columns);
            g["data" := Merged(g, n)] == h["data" := Merged(h, n)]
  {
    assert forall s: set<Scalar> :: s + n + n == s + n;
    assert n + n == n;
  }

  /** Values, host names, the values again. */
  lemma PutNamesBand(f: Fields, a: Fields, n: set<Scalar>, columns: set<string>)
    ensures var g := Update(f, a, columns);
            Update(g["data" := Merged(g, n)], a, columns) == Update(f["data" := Merged(f, n)], a, columns)
  {
  }

  lemma ChangedBand(r: Record, o: Op, p: Op)
    requires KeyOf(o) == KeyOf(p)
    ensures Changed(Changed(Changed(r, o), p), o) == Changed(Changed(r, p), o)
  {
    hide Update, Merged;
    match (o, p)
    case (Put(key, a, s), Put(_, b, t)) =>
      UpdateBand(r.fields, a, b, Columns(key));
      assert r.tags + s + t + s == r.tags + t + s;
    case (AddNames(_, m), AddNames(_, n)) =>
      NamesBand(r.fields, m, n);
    case (Put(key, a, s), AddNames(_, n)) =>
      PutNamesBand(r.fields, a, n, Columns(key));
      assert r.tags + s + s == r.tags + s;
    case (AddNames(_, n), Put(key, b, t)) =>
      NamesPutBand(r.fields, n, b, Columns(key));
  }

  /** An operation that comes again after another one need not have come before it. */
  lemma Band(v: View, o: Op, p: Op)
    ensures Apply(Apply(Apply(v, o), p), o) == Apply(Apply(v, p), o)
  {
    hide Changed;
    var k, l := KeyOf(o), KeyOf(p);
    if k == l {
      ChangedBand(Get(v, k), o, p);
    } else {
      ChangedBand(Get(v, k), o, o);
      ChangedTwice(Get(v, k), o);
    }
  }

  lemma ChangedTwice(r: Record, o: Op)
    ensures Changed(Changed(r, o), o) == Changed(r, o)
  {
    match o
    case Put(key, a, s) =>
      assert Update(Update(r.fields, a, Columns(key)), a, Columns(key)) == Update(r.fields, a, Columns(key));
      assert r.tags + s + s == r.tags + s;
    case AddNames(_, n) =>
      assert forall s: set<Scalar> :: s + n + n == s + n;
      assert n + n == n;
  }

  /** An operation that comes later anyway makes no difference. */
  lemma {:induction false} Absorbed(v: View, o: Op, ops: seq<Op>)
    requires o in ops
    ensures Run(Apply(v, o), ops) == Run(v, ops)
    decreases ops
  {
    hide Apply;
    var p, rest := ops[0], ops[1..];
    if o == p {
      assert Apply(Apply(v, o), o) == Apply(v, o) by { ApplyTwice(v, o); }
    } else {
      Absorbed(Apply(Apply(v, o), p), o, rest);
      Band(v, o, p);
      Absorbed(Apply(v, p), o, rest);
    }
  }

  lemma ApplyTwice(v: View, o: Op)
    ensures Apply(Apply(v, o), o) == Apply(v, o)
  {
    hide Changed;
    ChangedTwice(Get(v, KeyOf(o)), o);
  }

  /** An import makes no difference before another one with all its items. */
  lemma {:induction false} Superseded(v: View, early: seq<Op>, late: seq<Op>)
    requires forall o :: o in early ==> o in late
    ensures Run(Run(v, early), late) == Run(v, late)
    decreases early
  {
    hide Apply;
    if early != [] {
      Superseded(Apply(v, early[0]), early[1..], late);
      Absorbed(v, early[0], late);
    }
  }

  /** Importing the same data twice is importing it once. */
  lemma ImportTwice(v: View, ops: seq<Op>)
    ensures Run(Run(v, ops), ops) == Run(v, ops)
  {
    Superseded(v, ops, ops);
  }

  // ---------------------------------------------------------------------------------------------------------
  // What is kept and what is new
  // ---------------------------------------------------------------------------------------------------------

  function Keys(ops: seq<Op>): set<Key>
  {
    set o | o in ops :: KeyOf(o)
  }

  lemma {:induction false} NewKeys(v: View, ops: seq<Op>)
    ensures Run(v, ops).Keys == v.Keys + Keys(ops)
    decreases ops
  {
    hide Changed;
    if ops != [] {
      NewKeys(Apply(v, ops[0]), ops[1..]);
      assert ops == [ops[0]] + ops[1..];
      assert Keys(ops) == {KeyOf(ops[0])} + Keys(ops[1..]);
    }
  }

  /** No row is lost, no value that is not empty gets empty, and no tag is lost. */
  ghost predicate Grows(v: View, w: View)
  {
    forall k :: k in v ==>
      && k in w && v[k].tags <= w[k].tags
      && forall a :: a in v[k].fields ==>
           a in w[k].fields && (Truthy(v[k].fields[a]) ==> Truthy(w[k].fields[a]))
  }

  lemma {:induction false} ImportGrows(v: View, ops: seq<Op>)
    ensures Grows(v, Run(v, ops))
    decreases ops
  {
    if ops != [] {
      ImportGrows(Apply(v, ops[0]), ops[1..]);
      OpGrows(v, ops[0]);
    }
  }

  lemma OpGrows(v: View, op: Op)
    ensures Grows(v, Apply(v, op))
  {
  }

  /** No later operation changes a field of a record. */
  ghost predicate Untouched(ops: seq<Op>, k: Key, a: string)
  {
    forall o :: o in ops && KeyOf(o) == k ==>
      if o.Put? then !(a in o.fields && a in Columns(k) && Truthy(o.fields[a])) else a != "data"
  }

  lemma {:induction false} UntouchedStays(v: View, ops: seq<Op>, k: Key, a: string)
    requires Untouched(ops, k, a) && k in v
    ensures k in Run(v, ops) && v[k].tags <= Run(v, ops)[k].tags
    ensures a in Run(v, ops)[k].fields <==> a in v[k].fields
    ensures a in v[k].fields ==> Run(v, ops)[k].fields[a] == v[k].fields[a]
    decreases ops
  {
    if ops != [] {
      assert ops[0] in ops;
      UntouchedStays(Apply(v, ops[0]), ops[1..], k, a);
    }
  }

  /** The last value of a column that is not empty is the one that is stored, and tags are added. */
  lemma LastPutStored(v: View, before: seq<Op>, k: Key, fields: Fields, tags: set<string>, after: seq<Op>, a: string)
    requires a in fields && a in Columns(k) && Truthy(fields[a]) && Untouched(after, k, a)
    ensures var w := Run(v, before + [Put(k, fields, tags)] + after);
            k in w && tags <= w[k].tags && a in w[k].fields && w[k].fields[a] == fields[a]
  {
    var put := Put(k, fields, tags);
    RunBoth(v, before + [put], after);
    RunBoth(v, before, [put]);
    RunOne(Run(v, before), put);
    UntouchedStays(Apply(Run(v, before), put), after, k, a);
  }

  /** Host names are in the note of host names, with those that were there, until another note replaces them. */
  lemma NamesStored(v: View, before: seq<Op>, address: string, names: set<Scalar>, after: seq<Op>)
    requires Untouched(after, NamesKey(address), "data") && !Fails(Run(v, before), AddNames(address, names))
    ensures var u, w := Run(v, before), Run(v, before + [AddNames(address, names)] + after);
            HasNames(w, address)
            && w[NamesKey(address)].fields["data"].names
               == names + if HasNames(u, address) then u[NamesKey(address)].fields["data"].names else {}
  {
    var add := AddNames(address, names);
    RunBoth(v, before + [add], after);
    RunBoth(v, before, [add]);
    RunOne(Run(v, before), add);
    UntouchedStays(Apply(Run(v, before), add), after, NamesKey(address), "data");
  }

  // ---------------------------------------------------------------------------------------------------------
  // When importing again fails
  // ---------------------------------------------------------------------------------------------------------

  /** Host names come before the notes that share their keys. */
  ghost predicate NamesFirst(ops: seq<Op>)
  {
    forall i, j :: 0 <= i < j < |ops| && ops[i].Put? && ops[j].AddNames? ==> ops[i].key != NamesKey(ops[j].address)
  }

  /** Some host names meet a note that does not hold a list. */
  ghost predicate Meets(v: View, ops: seq<Op>)
  {
    exists o :: o in ops && Fails(v, o)
  }

  /** Operations fail exactly when one of them does at the start: those before it neither make nor mend its note. */
  lemma {:induction false} RaisesOn(v: View, ops: seq<Op>)
    requires NamesFirst(ops)
    ensures Raises(v, ops) <==> Meets(v, ops)
    decreases ops
  {
    if ops != [] {
      var o, rest, w := ops[0], ops[1..], Apply(v, ops[0]);
      assert ops == [o] + rest;
      assert NamesFirst(rest) by {
        forall i, j | 0 <= i < j < |rest| && rest[i].Put? && rest[j].AddNames?
          ensures rest[i].key != NamesKey(rest[j].address)
        {
          assert rest[i] == ops[i + 1] && rest[j] == ops[j + 1];
        }
      }
      RaisesOn(w, rest);
      if !Fails(v, o) {
        forall p | p in rest && p.AddNames?
          ensures Fails(w, p) == Fails(v, p)
        {
          var j :| 0 <= j < |rest| && rest[j] == p;
          assert ops[j + 1] == p;
        }
      }
    }
  }

  /**
    After an import, importing the same data again raises an error if and only if the note of host names of an
    imported host with host names is by then not a list of scalars.
  */
  lemma AgainRaises(v: View, ops: seq<Op>)
    requires NamesFirst(ops)
    ensures Raises(Run(v, ops), ops)
            <==> exists o :: o in ops && o.AddNames? && !HasNames(Run(v, ops), o.address)
  {
    hide Run, Raises, HasNames;
    var w := Run(v, ops);
    RaisesOn(w, ops);
    NewKeys(v, ops);
    forall o | o in ops && o.AddNames?
      ensures Fails(w, o) <==> !HasNames(w, o.address)
    {
      assert KeyOf(o) in Keys(ops);
    }
  }
}
