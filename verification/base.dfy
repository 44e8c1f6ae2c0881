/**
  The attribute registry of a document class and the typed reads and writes
  of a document over a string-keyed store hash.

  The first half states the behaviour on values: a registry maps each
  attribute name to its descriptor, a store maps names to already-cast
  values. The second half is the object model (the class-level registry, the
  store hash owned by the parent, the document instance), whose methods are
  proved against the first half.

  A Ruby symbol and its `to_s` spell the same characters, so a name is a
  `string` here and the registry key of an attribute is also its store key.
 */
module Base {
  import opened Values

  /** `Attribute = Struct.new(:name, :type, :default)`; `cast` is the caster
      the type lookup returned for the declared type. */
  datatype Attribute = Attribute(name: string, cast: Value -> Value, default: Value)

  type Registry = map<string, Attribute>
  type Store = map<string, Value>
  type Entry = (string, Value)

  // ---------------------------------------------------------------------
  // Behaviour on values
  // ---------------------------------------------------------------------

  /** `attributes[name] = Attribute.new(name, type, default)`. */
  function Register(reg: Registry, name: string, cast: Value -> Value, default: Value): (r: Registry)
    ensures r.Keys == reg.Keys + {name}
    ensures name in r && r[name].name == name && r[name].default == default && r[name].cast == cast
    ensures forall n :: n in reg && n != name ==> r[n] == reg[n]
  {
    reg[name := Attribute(name, cast, default)]
  }

  /** `read_attribute`: unknown names raise; a stored value wins; otherwise
      the attribute's default is returned as it is. */
  function Read(reg: Registry, store: Store, name: string): (r: Result<Value>)
    ensures r.Err? <==> name !in reg
    ensures r.Err? ==> r.error == UnknownAttribute(name)
    ensures r.Ok? && name in store ==> r.value == store[name]
    ensures r.Ok? && name !in store ==> r.value == reg[name].default
  {
    if name !in reg then Err(UnknownAttribute(name))
    else if name in store then Ok(store[name])
    else Ok(reg[name].default)
  }

  /** `write_attribute`: unknown names raise before the store is touched;
      otherwise the cast value is stored under the name and nothing else
      changes. */
  function Write(reg: Registry, store: Store, name: string, v: Value): (r: Result<Store>)
    ensures r.Err? <==> name !in reg
    ensures r.Err? ==> r.error == UnknownAttribute(name)
    ensures r.Ok? ==> r.value.Keys == store.Keys + {name}
    ensures r.Ok? ==> r.value[name] == reg[name].cast(v)
    ensures r.Ok? ==> forall k :: k in store && k != name ==> r.value[k] == store[k]
  {
    if name !in reg then Err(UnknownAttribute(name))
    else Ok(store[name := reg[name].cast(v)])
  }

  /** `attributes=`: the writes of the entries one after another, stopping at
      the first that raises; the store the earlier writes left behind is kept. */
  function BulkWrite(reg: Registry, store: Store, entries: seq<Entry>): (r: (Store, Outcome))
    ensures r.1.Pass? <==> forall i :: 0 <= i < |entries| ==> entries[i].0 in reg
    ensures r.1.Fail? ==> r.1.error.UnknownAttribute? && r.1.error.name !in reg
    decreases |entries|
  {
    if entries == [] then (store, Pass)
    else
      match Write(reg, store, entries[0].0, entries[0].1)
      case Err(e) => (store, Fail(e))
      case Ok(s) =>
        var r := BulkWrite(reg, s, entries[1..]);
        assert forall i :: 1 <= i < |entries| ==> entries[i] == entries[1..][i - 1];
        r
  }

  /** Instance `attributes`: every registered name with its current value. */
  function Snapshot(reg: Registry, store: Store): (r: map<string, Value>)
    ensures r.Keys == reg.Keys
    ensures forall n :: n in reg ==> Read(reg, store, n) == Ok(r[n])
  {
    map n | n in reg :: if n in store then store[n] else reg[n].default
  }

  /** The value the last entry for `name` carries, if any entry does. */
  function LastValue(entries: seq<Entry>, name: string): (r: Option<Value>)
    decreases |entries|
  {
    if entries == [] then None
    else
      match LastValue(entries[1..], name)
      case Some(v) => Some(v)
      case None => if entries[0].0 == name then Some(entries[0].1) else None
  }

  // ---------------------------------------------------------------------
  // Lemmas
  // ---------------------------------------------------------------------

  /** Registering a name again replaces its descriptor: the last registration
      wins and the set of registered names does not change. */
  lemma ReregisterReplaces(reg: Registry, name: string, c1: Value -> Value, d1: Value, c2: Value -> Value, d2: Value)
    ensures Register(Register(reg, name, c1, d1), name, c2, d2) == Register(reg, name, c2, d2)
    ensures Register(Register(reg, name, c1, d1), name, c2, d2).Keys == Register(reg, name, c1, d1).Keys
  {
  }

  /** A read after a write of a registered name returns the cast value; a
      read of any other name is unaffected. */
  lemma ReadAfterWrite(reg: Registry, store: Store, name: string, v: Value, other: string)
    requires name in reg
    ensures Read(reg, Write(reg, store, name, v).value, name) == Ok(reg[name].cast(v))
    ensures other != name ==> Read(reg, Write(reg, store, name, v).value, other) == Read(reg, store, other)
  {
  }

  /** The bulk write of entries whose names are all registered leaves every
      registered name with the cast of the last value written for it, and
      every name it does not mention as it was. */
  lemma {:induction false} BulkWriteReads(reg: Registry, store: Store, entries: seq<Entry>, name: string)
    requires forall i :: 0 <= i < |entries| ==> entries[i].0 in reg
    requires name in reg
    ensures Read(reg, BulkWrite(reg, store, entries).0, name) ==
      match LastValue(entries, name)
      case Some(v) => Ok(reg[name].cast(v))
      case None => Read(reg, store, name)
    decreases |entries|
  {
    if entries != [] {
      var s := Write(reg, store, entries[0].0, entries[0].1).value;
      assert forall i :: 0 <= i < |entries[1..]| ==> entries[1..][i] == entries[i + 1];
      BulkWriteReads(reg, s, entries[1..], name);
      ReadAfterWrite(reg, store, entries[0].0, entries[0].1, name);
    }
  }

  /** `attributes=` is not atomic: when the entry at `k` is the first with an
      unknown name, the call raises for that name and the store keeps the
      writes of the `k` entries before it. */
  lemma {:induction false} BulkWriteStopsAtFirstUnknown(reg: Registry, store: Store, entries: seq<Entry>, k: nat)
    requires k < |entries| && entries[k].0 !in reg
    requires forall i :: 0 <= i < k ==> entries[i].0 in reg
    ensures BulkWrite(reg, store, entries) ==
      (BulkWrite(reg, store, entries[..k]).0, Fail(UnknownAttribute(entries[k].0)))
    decreases k
  {
    if k == 0 {
      assert entries[..k] == [];
    } else {
      var s := Write(reg, store, entries[0].0, entries[0].1).value;
      assert entries[1..][..k - 1] == entries[..k][1..];
      BulkWriteStopsAtFirstUnknown(reg, s, entries[1..], k - 1);
    }
  }

  /** The value `LastValue` reports is carried by one of the entries. */
  lemma {:induction false} LastValueOccurs(entries: seq<Entry>, name: string)
    requires LastValue(entries, name).Some?
    ensures (name, LastValue(entries, name).value) in entries
    decreases |entries|
  {
    if LastValue(entries[1..], name).Some? {
      LastValueOccurs(entries[1..], name);
    }
  }

  /** Writing a document's own attributes back to it (in any order, any
      subset, with repetitions) changes none of its attributes, provided
      every current value is already in its cast form. The store itself may
      gain entries: defaults written back become stored values. */
  lemma WriteBackKeepsAttributes(reg: Registry, store: Store, entries: seq<Entry>)
    requires forall n :: n in reg ==> reg[n].cast(Snapshot(reg, store)[n]) == Snapshot(reg, store)[n]
    requires forall i :: 0 <= i < |entries| ==>
      entries[i].0 in reg && entries[i].1 == Snapshot(reg, store)[entries[i].0]
    ensures BulkWrite(reg, store, entries).1 == Pass
    ensures Snapshot(reg, BulkWrite(reg, store, entries).0) == Snapshot(reg, store)
  {
    var before := Snapshot(reg, store);
    var after := Snapshot(reg, BulkWrite(reg, store, entries).0);
    forall n | n in reg
      ensures after[n] == before[n]
    {
      BulkWriteReads(reg, store, entries, n);
      var last := LastValue(entries, n);
      if last.Some? {
        LastValueOccurs(entries, n);
        var i :| 0 <= i < |entries| && entries[i] == (n, last.value);
        assert last.value == before[n];
      }
    }
    assert after.Keys == before.Keys;
  }

  // ---------------------------------------------------------------------
  // Objects
  // ---------------------------------------------------------------------

  /** A document class: its class-level `@attributes` registry. */
  class DocumentType {
    var attributes: Registry

    /** Every descriptor is filed under its own name. */
    predicate Valid()
      reads this
    {
      forall n :: n in attributes ==> attributes[n].name == n
    }

    /** `@attributes ||= {}` on first use. */
    constructor ()
      ensures attributes == map[] && Valid()
    {
      attributes := map[];
    }

    /** `self.attribute(name, type, default: nil)`: registers (or replaces)
        the descriptor for `name`; `cast` is what the type lookup returned. */
    method DeclareAttribute(name: string, cast: Value -> Value, default: Value := Nil)
      requires Valid()
      modifies this
      ensures attributes == Register(old(attributes), name, cast, default)
      ensures Valid()
    {
      attributes := attributes[name := Attribute(name, cast, default)];
    }
  }

  /** The Hash that `parent.send(store_name)` returns: owned by the parent
      record and updated in place by the document. */
  class StoreHash {
    var entries: Store

    constructor (entries: Store)
      ensures this.entries == entries
    {
      this.entries := entries;
    }
  }

  /** A document instance: `initialize(parent, store_name)` keeps the parent
      and the store name; here the store hash they denote is kept directly. */
  class Document {
    const docType: DocumentType
    const store: StoreHash

    constructor (store: StoreHash, docType: DocumentType)
      ensures this.store == store && this.docType == docType
    {
      this.store := store;
      this.docType := docType;
    }

    /** `read_attribute(name)`. */
    method ReadAttribute(name: string) returns (r: Result<Value>)
      ensures r == Read(docType.attributes, store.entries, name)
    {
      if name !in docType.attributes {
        return Err(UnknownAttribute(name));
      }
      if name in store.entries {
        r := Ok(store.entries[name]);
      } else {
        r := Ok(docType.attributes[name].default);
      }
    }

    /** Instance `attributes`: `transform_values` over the class registry,
        reading each attribute by the name its descriptor holds. */
    method Attributes() returns (snapshot: map<string, Value>)
      requires docType.Valid()
      ensures snapshot == Snapshot(docType.attributes, store.entries)
    {
      var todo := docType.attributes.Keys;
      snapshot := map[];
      while todo != {}
        invariant todo <= docType.attributes.Keys
        invariant snapshot.Keys == docType.attributes.Keys - todo
        invariant forall n :: n in snapshot ==> snapshot[n] == Snapshot(docType.attributes, store.entries)[n]
        decreases todo
      {
        var n :| n in todo;
        var v := ReadAttribute(docType.attributes[n].name);
        snapshot := snapshot[n := v.value];
        todo := todo - {n};
      }
    }

    /** `write_attribute(name, value)`. */
    method WriteAttribute(name: string, value: Value) returns (r: Outcome)
      modifies store
      ensures Write(docType.attributes, old(store.entries), name, value).Err? ==>
        r == Fail(UnknownAttribute(name)) && store.entries == old(store.entries)
      ensures Write(docType.attributes, old(store.entries), name, value).Ok? ==>
        r == Pass && store.entries == Write(docType.attributes, old(store.entries), name, value).value
    {
      if name !in docType.attributes {
        return Fail(UnknownAttribute(name));
      }
      store.entries := store.entries[name := docType.attributes[name].cast(value)];
      r := Pass;
    }

    /** `attributes=(entries)`: `write_attribute` entry by entry, in order. */
    method AssignAttributes(entries: seq<Entry>) returns (r: Outcome)
      modifies store
      ensures (store.entries, r) == BulkWrite(docType.attributes, old(store.entries), entries)
    {
      var i := 0;
      while i < |entries|
        invariant i <= |entries|
        invariant BulkWrite(docType.attributes, old(store.entries), entries) ==
          BulkWrite(docType.attributes, store.entries, entries[i..])
      {
        assert entries[i..][0] == entries[i] && entries[i..][1..] == entries[i + 1..];
        r := WriteAttribute(entries[i].0, entries[i].1);
        if r.Fail? {
          return;
        }
        i := i + 1;
      }
      r := Pass;
    }
  }
}
