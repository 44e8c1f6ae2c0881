/**
  The embedding protocol: a host record declares an embedded document (or a
  collection of them) stored in one raw field; generated readers build
  readonly documents from the raw field lazily and memoise them, generated
  writers store raw attributes and replace the memo, and validation cascades
  republish the documents' errors on the host.

  The pure half: class resolution, the conversion a writer applies, and the
  order-preserving maps over collections. The object half: `HostClass` (the
  declarations a host class makes) and `Host` (one host record with its raw
  fields, memo slots and error list).
 */
module Dsl {
  import opened Values
  import opened ErrorKeys

  /** `HasEmbeddedDocument::Base`. */
  const BaseClass: ClassId := 0

  /** A document class as a declaration names it: the class itself, or its
      name as a string, looked up only when an accessor runs. */
  datatype ClassRef = ClassConst(c: ClassId) | ClassName(name: string)

  /** The loaded program: the constants `constantize` can find, the strict
      ancestors of each class, and `#attributes` of document instances (the
      documents' own constructor and accessors are not part of this model). */
  datatype Env = Env(
    constants: map<string, ClassId>,
    ancestors: map<ClassId, set<ClassId>>,
    docAttributes: Value -> map<string, Value>)

  /** No class is its own strict ancestor. */
  predicate WellFormed(env: Env) {
    forall c :: c in env.ancestors ==> c !in env.ancestors[c]
  }

  /** `c < sup`. */
  predicate StrictSubclass(env: Env, c: ClassId, sup: ClassId) {
    c in env.ancestors && sup in env.ancestors[c]
  }

  /** `v.is_a?(k)`. */
  predicate IsA(env: Env, v: Value, k: ClassId)
    ensures IsA(env, v, k) ==> v.Document?
    ensures v.Document? && v.klass == k ==> IsA(env, v, k)
  {
    v.Document? && (v.klass == k || StrictSubclass(env, v.klass, k))
  }

  /** `resolve_document_class`: a name is looked up first; the class must be
      a strict subclass of `Base`. */
  function ResolveDocumentClass(env: Env, ref: ClassRef): (r: Result<ClassId>)
    ensures r.Ok? ==> StrictSubclass(env, r.value, BaseClass)
    ensures r.Ok? && ref.ClassConst? ==> r.value == ref.c
    ensures r.Ok? && ref.ClassName? ==> ref.name in env.constants && r.value == env.constants[ref.name]
    ensures ref.ClassConst? && StrictSubclass(env, ref.c, BaseClass) ==> r.Ok?
    ensures ref.ClassName? && ref.name in env.constants && StrictSubclass(env, env.constants[ref.name], BaseClass) ==> r.Ok?
    ensures r.Err? && ref.ClassName? && ref.name !in env.constants ==> r.error == NameError(ref.name)
    ensures r.Err? && (ref.ClassConst? || ref.name in env.constants) ==> r.error.UnknownDocumentClass?
  {
    match ref
    case ClassConst(c) =>
      if StrictSubclass(env, c, BaseClass) then Ok(c) else Err(UnknownDocumentClass(c))
    case ClassName(n) =>
      if n !in env.constants then Err(NameError(n))
      else if StrictSubclass(env, env.constants[n], BaseClass) then Ok(env.constants[n])
      else Err(UnknownDocumentClass(env.constants[n]))
  }

  /** `Base` itself is never accepted as a document class. */
  lemma BaseClassRejected(env: Env, ref: ClassRef)
    requires WellFormed(env)
    requires ref == ClassConst(BaseClass) || (ref.ClassName? && ref.name in env.constants && env.constants[ref.name] == BaseClass)
    ensures ResolveDocumentClass(env, ref) == Err(UnknownDocumentClass(BaseClass))
  {
  }

  /** Once a reference has resolved, the accessor's captured reference holds
      the class itself, and resolving that class again gives the same result:
      resolving by name once and resolving on every call agree. */
  lemma ResolvedClassIsStable(env: Env, ref: ClassRef)
    requires ResolveDocumentClass(env, ref).Ok?
    ensures ResolveDocumentClass(env, ClassConst(ResolveDocumentClass(env, ref).value)) == ResolveDocumentClass(env, ref)
  {
  }

  /** What a writer stores for an assigned value:
      `value.is_a?(document_class) ? value.attributes : value`. */
  function ToRaw(env: Env, k: ClassId, v: Value): (r: Value)
    ensures IsA(env, v, k) ==> r == Hash(env.docAttributes(v))
    ensures !IsA(env, v, k) ==> r == v
    ensures !IsA(env, r, k)
  {
    if IsA(env, v, k) then Hash(env.docAttributes(v)) else v
  }

  /** `raw && document_class.new(raw.dup).readonly!`. */
  function Materialize(k: ClassId, raw: Value): (r: Value)
    ensures !Truthy(raw) ==> r == raw
    ensures r.Document? <==> Truthy(raw)
    ensures r.Document? ==> r.klass == k && r.source == raw
  {
    if Truthy(raw) then Document(k, raw) else raw
  }

  /** `items.map { |attributes| document_class.new(attributes.dup).readonly! }`. */
  function BuildEach(k: ClassId, items: seq<Value>): (r: seq<Value>)
    ensures |r| == |items|
    ensures forall i :: 0 <= i < |items| ==> r[i] == Document(k, items[i])
    decreases |items|
  {
    if items == [] then [] else [Document(k, items[0])] + BuildEach(k, items[1..])
  }

  /** `values.map { |value| value.is_a?(document_class) ? value.attributes : value }`. */
  function ToRawEach(env: Env, k: ClassId, items: seq<Value>): (r: seq<Value>)
    ensures |r| == |items|
    ensures forall i :: 0 <= i < |items| ==> r[i] == ToRaw(env, k, items[i])
    decreases |items|
  {
    if items == [] then [] else [ToRaw(env, k, items[0])] + ToRawEach(env, k, items[1..])
  }

  /** `values&.map { ... }` over a raw collection: `nil` stays `nil`; a value
      that is not an array has no `map`. */
  function MaterializeAll(k: ClassId, raw: Value): (r: Result<Value>)
    ensures raw.Nil? ==> r == Ok(Nil)
    ensures raw.List? ==> r.Ok? && r.value.List? && |r.value.items| == |raw.items|
    ensures raw.List? ==> forall i :: 0 <= i < |raw.items| ==> r.value.items[i] == Document(k, raw.items[i])
    ensures !raw.Nil? && !raw.List? ==> r == Err(NoMethodError("map"))
  {
    match raw
    case Nil => Ok(Nil)
    case List(items) => Ok(List(BuildEach(k, items)))
    case _ => Err(NoMethodError("map"))
  }

  /** The writer's conversion of an assigned collection. */
  function ToRawAll(env: Env, k: ClassId, values: Value): (r: Result<Value>)
    ensures values.Nil? ==> r == Ok(Nil)
    ensures values.List? ==> r.Ok? && r.value.List? && |r.value.items| == |values.items|
    ensures values.List? ==> forall i :: 0 <= i < |values.items| ==> r.value.items[i] == ToRaw(env, k, values.items[i])
    ensures !values.Nil? && !values.List? ==> r == Err(NoMethodError("map"))
  {
    match values
    case Nil => Ok(Nil)
    case List(items) => Ok(List(ToRawEach(env, k, items)))
    case _ => Err(NoMethodError("map"))
  }

  /** `s` rearranged so that position `i` holds `s[p[i]]`. */
  function Rearrange(s: seq<Value>, p: seq<nat>): (r: seq<Value>)
    requires forall i :: 0 <= i < |p| ==> p[i] < |s|
    ensures |r| == |p|
    ensures forall i :: 0 <= i < |p| ==> r[i] == s[p[i]]
    decreases |p|
  {
    if p == [] then [] else [s[p[0]]] + Rearrange(s, p[1..])
  }

  /** Rearranging the raw collection rearranges the documents built from it
      in the same way: element `i` is always built from raw element `i`. */
  lemma BuildEachCommutesWithRearrange(k: ClassId, items: seq<Value>, p: seq<nat>)
    requires forall i :: 0 <= i < |p| ==> p[i] < |items|
    ensures BuildEach(k, Rearrange(items, p)) == Rearrange(BuildEach(k, items), p)
  {
  }

  /** The documents in the list the element writer caches are exactly those
      the element reader would build from what was written. */
  lemma WrittenCollectionReadsBack(env: Env, k: ClassId, values: Value)
    requires ToRawAll(env, k, values).Ok?
    ensures MaterializeAll(k, ToRawAll(env, k, values).value).Ok?
    ensures values.List? ==> forall i :: 0 <= i < |values.items| ==>
      MaterializeAll(k, ToRawAll(env, k, values).value).value.items[i] ==
        if IsA(env, values.items[i], k) then Document(k, Hash(env.docAttributes(values.items[i])))
        else Document(k, values.items[i])
  {
  }

  // ---------------------------------------------------------------------
  // Bridges to the raw field
  // ---------------------------------------------------------------------

  /** How a generated accessor reaches the raw field: the host's typed
      attribute (`read_attribute`/`write_attribute`) or the plain method pair
      the host defined before the declaration. */
  datatype Bridge = ColumnBridge | AccessorBridge

  /** `wrapped_attribute_reader` (`selector == name`) and
      `wrapped_attribute_writer` (`selector == name + "="`): the typed
      attribute is preferred; otherwise the existing method `selector` is
      wrapped, and `instance_method` raises when there is none. */
  function ProbeBridge(recordLike: bool, columnNames: set<string>, methods: set<string>,
                       name: string, selector: string): (r: Result<Bridge>)
    ensures r == Ok(ColumnBridge) <==> recordLike && name in columnNames
    ensures r == Ok(AccessorBridge) <==> !(recordLike && name in columnNames) && selector in methods
    ensures r.Err? ==> r.error == NameError(selector)
  {
    if recordLike && name in columnNames then Ok(ColumnBridge)
    else if selector in methods then Ok(AccessorBridge)
    else Err(NameError(selector))
  }

  // ---------------------------------------------------------------------
  // Declarations
  // ---------------------------------------------------------------------

  datatype Kind = One | Many

  /** What a generated accessor closes over. */
  datatype Generated = Generated(kind: Kind, ref: ClassRef, bridge: Bridge)

  /** A validation rule a declaration adds to the host class. */
  datatype Rule =
    | Presence(field: string, message: string)  // validates(name, presence: { message: :required })
    | Cascade(kind: Kind, field: string)        // validate_(many_)embedded_document(s)(name)

  /** The rules a declaration adds: the presence rule unless `optional` is
      truthy, then the cascade if `validate` is truthy. */
  function DeclaredRules(kind: Kind, name: string, validate: Value, optional: Value): (r: seq<Rule>)
    ensures Presence(name, "required") in r <==> !Truthy(optional)
    ensures Cascade(kind, name) in r <==> Truthy(validate)
    ensures forall rule :: rule in r ==> rule == Presence(name, "required") || rule == Cascade(kind, name)
    ensures forall i, j :: 0 <= i < j < |r| ==> r[i].Presence? && r[j].Cascade?
  {
    (if Truthy(optional) then [] else [Presence(name, "required")]) +
    (if Truthy(validate) then [Cascade(kind, name)] else [])
  }

  /** With the defaults `validate: true, optional: true`, a declaration adds
      the cascade and no presence rule. */
  lemma DefaultDeclarationRules(kind: Kind, name: string)
    ensures DeclaredRules(kind, name, Bool(true), Bool(true)) == [Cascade(kind, name)]
  {
  }

  /** The class side of a host model using the DSL. */
  class HostClass {
    /** `respond_to?(:has_attribute?)`. */
    const recordLike: bool
    /** The names `has_attribute?` accepts. */
    const columnNames: set<string>
    /** The plain instance methods defined before any declaration. */
    const methods: set<string>
    /** Generated readers and writers, by embedding name. */
    var readers: map<string, Generated>
    var writers: map<string, Generated>
    /** Validation rules, in the order they were added. */
    var rules: seq<Rule>

    constructor (recordLike: bool, columnNames: set<string>, methods: set<string>)
      ensures this.recordLike == recordLike && this.columnNames == columnNames && this.methods == methods
      ensures readers == map[] && writers == map[] && rules == []
    {
      this.recordLike := recordLike;
      this.columnNames := columnNames;
      this.methods := methods;
      readers, writers, rules := map[], map[], [];
    }

    /** `validate_embedded_document(name)`. */
    method ValidateEmbeddedDocument(name: string)
      modifies this`rules
      ensures rules == old(rules) + [Cascade(One, name)]
    {
      rules := rules + [Cascade(One, name)];
    }

    /** `validate_many_embedded_documents(name)`. */
    method ValidateManyEmbeddedDocuments(name: string)
      modifies this`rules
      ensures rules == old(rules) + [Cascade(Many, name)]
    {
      rules := rules + [Cascade(Many, name)];
    }

    /** The body shared by both declarations. The class reference is stored,
        not resolved: a declaration may name a class defined later. The
        reader is defined before the writer's bridge is probed, so a missing
        `name=` leaves the reader in place. */
    method Declare(kind: Kind, name: string, ref: ClassRef, validate: Value := Bool(true), optional: Value := Bool(true))
      returns (r: Outcome)
      modifies this`readers, this`writers, this`rules
      ensures var rb := ProbeBridge(recordLike, columnNames, methods, name, name);
        rb.Err? ==> r == Fail(NameError(name)) && readers == old(readers) && writers == old(writers) && rules == old(rules)
      ensures var rb := ProbeBridge(recordLike, columnNames, methods, name, name);
        rb.Ok? ==> readers == old(readers)[name := Generated(kind, ref, rb.value)]
      ensures var rb, wb := ProbeBridge(recordLike, columnNames, methods, name, name),
                            ProbeBridge(recordLike, columnNames, methods, name, name + "=");
        rb.Ok? && wb.Err? ==> r == Fail(NameError(name + "=")) && writers == old(writers) && rules == old(rules)
      ensures var rb, wb := ProbeBridge(recordLike, columnNames, methods, name, name),
                            ProbeBridge(recordLike, columnNames, methods, name, name + "=");
        rb.Ok? && wb.Ok? ==>
          (r == Pass && writers == old(writers)[name := Generated(kind, ref, wb.value)] &&
           rules == old(rules) + DeclaredRules(kind, name, validate, optional))
    {
      var rb := ProbeBridge(recordLike, columnNames, methods, name, name);
      if rb.Err? {
        return Fail(rb.error);
      }
      readers := readers[name := Generated(kind, ref, rb.value)];
      var wb := ProbeBridge(recordLike, columnNames, methods, name, name + "=");
      if wb.Err? {
        return Fail(wb.error);
      }
      writers := writers[name := Generated(kind, ref, wb.value)];
      if !Truthy(optional) {
        rules := rules + [Presence(name, "required")];
      }
      if Truthy(validate) {
        if kind == One {
          ValidateEmbeddedDocument(name);
        } else {
          ValidateManyEmbeddedDocuments(name);
        }
      }
      r := Pass;
    }

    /** `has_embedded_document(name, document_class, validate: true, optional: true)`. */
    method HasEmbeddedDocument(name: string, ref: ClassRef, validate: Value := Bool(true), optional: Value := Bool(true))
      returns (r: Outcome)
      modifies this`readers, this`writers, this`rules
      ensures var rb := ProbeBridge(recordLike, columnNames, methods, name, name);
        rb.Err? ==> r == Fail(NameError(name)) && readers == old(readers) && writers == old(writers) && rules == old(rules)
      ensures var rb := ProbeBridge(recordLike, columnNames, methods, name, name);
        rb.Ok? ==> readers == old(readers)[name := Generated(One, ref, rb.value)]
      ensures var rb, wb := ProbeBridge(recordLike, columnNames, methods, name, name),
                            ProbeBridge(recordLike, columnNames, methods, name, name + "=");
        rb.Ok? && wb.Err? ==> r == Fail(NameError(name + "=")) && writers == old(writers) && rules == old(rules)
      ensures var rb, wb := ProbeBridge(recordLike, columnNames, methods, name, name),
                            ProbeBridge(recordLike, columnNames, methods, name, name + "=");
        rb.Ok? && wb.Ok? ==>
          (r == Pass && writers == old(writers)[name := Generated(One, ref, wb.value)] &&
           rules == old(rules) + DeclaredRules(One, name, validate, optional))
    {
      r := Declare(One, name, ref, validate, optional);
    }

    /** `has_many_embedded_documents(name, document_class, validate: true, optional: true)`. */
    method HasManyEmbeddedDocuments(name: string, ref: ClassRef, validate: Value := Bool(true), optional: Value := Bool(true))
      returns (r: Outcome)
      modifies this`readers, this`writers, this`rules
      ensures var rb := ProbeBridge(recordLike, columnNames, methods, name, name);
        rb.Err? ==> r == Fail(NameError(name)) && readers == old(readers) && writers == old(writers) && rules == old(rules)
      ensures var rb := ProbeBridge(recordLike, columnNames, methods, name, name);
        rb.Ok? ==> readers == old(readers)[name := Generated(Many, ref, rb.value)]
      ensures var rb, wb := ProbeBridge(recordLike, columnNames, methods, name, name),
                            ProbeBridge(recordLike, columnNames, methods, name, name + "=");
        rb.Ok? && wb.Err? ==> r == Fail(NameError(name + "=")) && writers == old(writers) && rules == old(rules)
      ensures var rb, wb := ProbeBridge(recordLike, columnNames, methods, name, name),
                            ProbeBridge(recordLike, columnNames, methods, name, name + "=");
        rb.Ok? && wb.Ok? ==>
          (r == Pass && writers == old(writers)[name := Generated(Many, ref, wb.value)] &&
           rules == old(rules) + DeclaredRules(Many, name, validate, optional))
    {
      r := Declare(Many, name, ref, validate, optional);
    }
  }

  // ---------------------------------------------------------------------
  // Host records
  // ---------------------------------------------------------------------

  /** The errors each document reports, as the documents' own validation
      computes them (valid exactly when the list is empty). */
  function ErrorsOf(childErrors: Value -> seq<ChildError>, items: seq<Value>): seq<seq<ChildError>> {
    seq(|items|, i requires 0 <= i < |items| => childErrors(items[i]))
  }

  lemma AppendAssociates<T>(a: seq<T>, b: seq<T>, c: seq<T>)
    ensures (a + b) + c == a + (b + c)
  {
  }

  /** The number of leading elements that are documents. */
  function LeadingDocuments(items: seq<Value>): (n: nat)
    ensures n <= |items|
    ensures forall i :: 0 <= i < n ==> items[i].Document?
    ensures n < |items| ==> !items[n].Document?
    decreases |items|
  {
    if items == [] || !items[0].Document? then 0 else 1 + LeadingDocuments(items[1..])
  }

  /** One host record. */
  class Host {
    /** The loaded program the host's accessors run in: its constants do not
        change once loaded. */
    const env: Env
    /** The typed attributes `read_attribute`/`write_attribute` reach. */
    var columns: map<string, Value>
    /** The storage behind the plain `name`/`name=` method pairs. */
    var accessors: map<string, Value>
    /** `@__<name>_cache`: a name is present once its slot is defined. */
    var memo: map<string, Value>
    /** The host's error list. */
    var errors: seq<HostError>

    constructor (env: Env, columns: map<string, Value>, accessors: map<string, Value>)
      ensures this.env == env && this.columns == columns && this.accessors == accessors
      ensures memo == map[] && errors == []
    {
      this.env := env;
      this.columns := columns;
      this.accessors := accessors;
      memo, errors := map[], [];
    }

    /** `reader.call(self)`: an unset attribute reads as `nil`. */
    function RawRead(bridge: Bridge, name: string): (r: Value)
      reads this
      ensures bridge.ColumnBridge? ==> r == if name in columns then columns[name] else Nil
      ensures bridge.AccessorBridge? ==> r == if name in accessors then accessors[name] else Nil
    {
      match bridge
      case ColumnBridge => if name in columns then columns[name] else Nil
      case AccessorBridge => if name in accessors then accessors[name] else Nil
    }

    /** `writer.call(self, v)`. */
    method RawWrite(bridge: Bridge, name: string, v: Value)
      modifies this`columns, this`accessors
      ensures bridge.ColumnBridge? ==> columns == old(columns)[name := v] && accessors == old(accessors)
      ensures bridge.AccessorBridge? ==> accessors == old(accessors)[name := v] && columns == old(columns)
      ensures RawRead(bridge, name) == v
    {
      if bridge.ColumnBridge? {
        columns := columns[name := v];
      } else {
        accessors := accessors[name := v];
      }
    }

    /** The memo slot of a single embedding is the document view of its raw
        field, or is still unset. */
    predicate Coherent(name: string, k: ClassId, bridge: Bridge)
      reads this
    {
      name in memo ==> memo[name] == Materialize(k, RawRead(bridge, name))
    }

    /** The same for a collection embedding. */
    predicate CoherentMany(name: string, k: ClassId, bridge: Bridge)
      reads this
    {
      name in memo ==> MaterializeAll(k, RawRead(bridge, name)) == Ok(memo[name])
    }

    /** What the generated single reader returns in the current state. */
    function ReaderValue(name: string, ref: ClassRef, bridge: Bridge): Result<Value>
      reads this
    {
      match ResolveDocumentClass(env, ref)
      case Err(e) => Err(e)
      case Ok(k) => Ok(if name in memo then memo[name] else Materialize(k, RawRead(bridge, name)))
    }

    /** What the generated collection reader returns in the current state. */
    function ManyReaderValue(name: string, ref: ClassRef, bridge: Bridge): Result<Value>
      reads this
    {
      match ResolveDocumentClass(env, ref)
      case Err(e) => Err(e)
      case Ok(k) => if name in memo then Ok(memo[name]) else MaterializeAll(k, RawRead(bridge, name))
    }

    /** The generated single reader (`define_embedded_reader`). The class is
        resolved first (the accessor keeps the class once a name has resolved;
        with the host's fixed constants a later lookup finds the same class,
        see `ResolvedClassIsStable`); a defined slot is returned without looking at
        the raw field; otherwise the slot is filled from it. */
    method ReadEmbedded(name: string, ref: ClassRef, bridge: Bridge) returns (r: Result<Value>)
      modifies this`memo
      ensures r == old(ReaderValue(name, ref, bridge))
      ensures r.Err? || name in old(memo) ==> memo == old(memo)
      ensures r.Ok? && name !in old(memo) ==> memo == old(memo)[name := r.value]
      ensures r.Ok? && name in old(memo) ==> r.value == old(memo)[name]
      ensures r.Ok? && name !in old(memo) ==>
        r.value == Materialize(ResolveDocumentClass(env, ref).value, RawRead(bridge, name)) &&
        (RawRead(bridge, name).Nil? ==> r.value == Nil && memo[name] == Nil)
      ensures r.Ok? && old(Coherent(name, ResolveDocumentClass(env, ref).value, bridge)) ==>
        r.value == Materialize(ResolveDocumentClass(env, ref).value, RawRead(bridge, name)) &&
        Coherent(name, ResolveDocumentClass(env, ref).value, bridge)
    {
      var resolved := ResolveDocumentClass(env, ref);
      if resolved.Err? {
        return Err(resolved.error);
      }
      var k := resolved.value;
      if name in memo {
        return Ok(memo[name]);
      }
      var raw := RawRead(bridge, name);
      var document := Materialize(k, raw);
      memo := memo[name := document];
      r := Ok(document);
    }

    /** The generated single writer (`define_embedded_writer`). The raw field
        receives the document's attributes if `value` is an instance of the
        class, `value` itself otherwise; the slot receives the document built
        from exactly that, or the falsy value. */
    method WriteEmbedded(name: string, ref: ClassRef, bridge: Bridge, value: Value) returns (r: Outcome)
      modifies this`columns, this`accessors, this`memo
      ensures ResolveDocumentClass(env, ref).Err? ==>
        r == Fail(ResolveDocumentClass(env, ref).error) &&
        columns == old(columns) && accessors == old(accessors) && memo == old(memo)
      ensures ResolveDocumentClass(env, ref).Ok? ==>
        var k := ResolveDocumentClass(env, ref).value;
        var raw := ToRaw(env, k, value);
        && r == Pass
        && (bridge.ColumnBridge? ==> columns == old(columns)[name := raw] && accessors == old(accessors))
        && (bridge.AccessorBridge? ==> accessors == old(accessors)[name := raw] && columns == old(columns))
        && memo == old(memo)[name := Materialize(k, raw)]
        && Coherent(name, k, bridge)
        && ReaderValue(name, ref, bridge) == Ok(Materialize(k, raw))
    {
      var resolved := ResolveDocumentClass(env, ref);
      if resolved.Err? {
        return Fail(resolved.error);
      }
      var k := resolved.value;
      var attributes := ToRaw(env, k, value);
      RawWrite(bridge, name, attributes);
      memo := memo[name := Materialize(k, attributes)];
      r := Pass;
    }

    /** The generated collection reader (`define_embedded_array_reader`). */
    method ReadEmbeddedMany(name: string, ref: ClassRef, bridge: Bridge) returns (r: Result<Value>)
      modifies this`memo
      ensures r == old(ManyReaderValue(name, ref, bridge))
      ensures r.Err? || name in old(memo) ==> memo == old(memo)
      ensures r.Ok? && name !in old(memo) ==> memo == old(memo)[name := r.value]
      ensures r.Ok? && name in old(memo) ==> r.value == old(memo)[name]
      ensures r.Ok? && name !in old(memo) ==>
        Ok(r.value) == MaterializeAll(ResolveDocumentClass(env, ref).value, RawRead(bridge, name)) &&
        (RawRead(bridge, name).Nil? ==> r.value == Nil && memo[name] == Nil)
      ensures r.Ok? && old(CoherentMany(name, ResolveDocumentClass(env, ref).value, bridge)) ==>
        Ok(r.value) == MaterializeAll(ResolveDocumentClass(env, ref).value, RawRead(bridge, name)) &&
        CoherentMany(name, ResolveDocumentClass(env, ref).value, bridge)
    {
      var resolved := ResolveDocumentClass(env, ref);
      if resolved.Err? {
        return Err(resolved.error);
      }
      var k := resolved.value;
      if name in memo {
        return Ok(memo[name]);
      }
      var values := RawRead(bridge, name);
      var documents := MaterializeAll(k, values);
      if documents.Err? {
        return documents;
      }
      memo := memo[name := documents.value];
      r := documents;
    }

    /** The generated collection writer (`define_embedded_array_writer`):
        each element is converted as the single writer converts its value,
        in order; the slot receives one document per written element. */
    method WriteEmbeddedMany(name: string, ref: ClassRef, bridge: Bridge, values: Value) returns (r: Outcome)
      modifies this`columns, this`accessors, this`memo
      ensures ResolveDocumentClass(env, ref).Err? ==>
        r == Fail(ResolveDocumentClass(env, ref).error) &&
        columns == old(columns) && accessors == old(accessors) && memo == old(memo)
      ensures ResolveDocumentClass(env, ref).Ok? && ToRawAll(env, ResolveDocumentClass(env, ref).value, values).Err? ==>
        r == Fail(NoMethodError("map")) &&
        columns == old(columns) && accessors == old(accessors) && memo == old(memo)
      ensures ResolveDocumentClass(env, ref).Ok? && ToRawAll(env, ResolveDocumentClass(env, ref).value, values).Ok? ==>
        var k := ResolveDocumentClass(env, ref).value;
        var raw := ToRawAll(env, k, values).value;
        && r == Pass
        && (bridge.ColumnBridge? ==> columns == old(columns)[name := raw] && accessors == old(accessors))
        && (bridge.AccessorBridge? ==> accessors == old(accessors)[name := raw] && columns == old(columns))
        && memo == old(memo)[name := MaterializeAll(k, raw).value]
        && CoherentMany(name, k, bridge)
        && ManyReaderValue(name, ref, bridge) == MaterializeAll(k, raw)
    {
      var resolved := ResolveDocumentClass(env, ref);
      if resolved.Err? {
        return Fail(resolved.error);
      }
      var k := resolved.value;
      var converted := ToRawAll(env, k, values);
      if converted.Err? {
        return Fail(converted.error);
      }
      RawWrite(bridge, name, converted.value);
      var documents := MaterializeAll(k, converted.value);
      memo := memo[name := documents.value];
      r := Pass;
    }

    /** `document.errors.each { |error| errors.add(prefix + error.attribute, error.message) }`. */
    method AddErrors(prefix: string, errs: seq<ChildError>)
      modifies this`errors
      ensures errors == old(errors) + Republish(prefix, errs)
    {
      var j := 0;
      while j < |errs|
        invariant j <= |errs|
        invariant errors == old(errors) + Republish(prefix, errs[..j])
      {
        assert errs[..j + 1] == errs[..j] + [errs[j]];
        RepublishAppend(prefix, errs[..j], [errs[j]]);
        errors := errors + [HostError(prefix + errs[j].attribute, errs[j].message)];
        j := j + 1;
      }
      assert errs[..j] == errs;
    }

    /** The cascade `validate_embedded_document` registers, as it runs: read
        the document (which may fill the slot); `nil` adds nothing; an invalid
        document adds each of its errors under `name.attr`. */
    method RunEmbeddedDocumentValidation(name: string, ref: ClassRef, bridge: Bridge,
                                         childErrors: Value -> seq<ChildError>) returns (r: Outcome)
      modifies this`memo, this`errors
      ensures var doc := old(ReaderValue(name, ref, bridge));
        && (doc.Err? ==> r == Fail(doc.error) && errors == old(errors))
        && (doc.Ok? && doc.value.Nil? ==> r == Pass && errors == old(errors))
        && (doc.Ok? && doc.value.Document? ==>
              r == Pass && errors == old(errors) + Republish(OnePrefix(name), childErrors(doc.value)))
        && (doc.Ok? && !doc.value.Nil? && !doc.value.Document? ==>
              r == Fail(NoMethodError("invalid?")) && errors == old(errors))
      ensures var doc := old(ReaderValue(name, ref, bridge));
        memo == if doc.Ok? && name !in old(memo) then old(memo)[name := doc.value] else old(memo)
    {
      var document := ReadEmbedded(name, ref, bridge);
      if document.Err? {
        return Fail(document.error);
      }
      var doc := document.value;
      if doc.Nil? {
        return Pass;
      }
      if !doc.Document? {
        return Fail(NoMethodError("invalid?"));
      }
      var errs := childErrors(doc);
      if errs != [] {
        AddErrors(OnePrefix(name), errs);
      }
      r := Pass;
    }

    /** The cascade `validate_many_embedded_documents` registers, as it runs:
        read the collection (which may fill the slot); `nil` adds nothing;
        valid elements are skipped; each error of an invalid element `i` is
        added under `name[i].attr`, in index order. A non-document element
        raises on `valid?` after the earlier elements' errors were added. */
    method RunManyEmbeddedDocumentsValidation(name: string, ref: ClassRef, bridge: Bridge,
                                              childErrors: Value -> seq<ChildError>) returns (r: Outcome)
      modifies this`memo, this`errors
      ensures var docs := old(ManyReaderValue(name, ref, bridge));
        && (docs.Err? ==> r == Fail(docs.error) && errors == old(errors))
        && (docs.Ok? && docs.value.Nil? ==> r == Pass && errors == old(errors))
        && (docs.Ok? && docs.value.List? ==>
              var items := docs.value.items;
              var n := LeadingDocuments(items);
              && errors == old(errors) + ManyErrors(name, ErrorsOf(childErrors, items), n)
              && r == if n == |items| then Pass else Fail(NoMethodError("valid?")))
        && (docs.Ok? && !docs.value.Nil? && !docs.value.List? ==>
              r == Fail(NoMethodError("each_with_index")) && errors == old(errors))
      ensures var docs := old(ManyReaderValue(name, ref, bridge));
        memo == if docs.Ok? && name !in old(memo) then old(memo)[name := docs.value] else old(memo)
    {
      var documents := ReadEmbeddedMany(name, ref, bridge);
      if documents.Err? {
        return Fail(documents.error);
      }
      if documents.value.Nil? {
        return Pass;
      }
      if !documents.value.List? {
        return Fail(NoMethodError("each_with_index"));
      }
      r := AddElementErrors(name, documents.value.items, childErrors);
    }

    /** `documents.each_with_index`: skip valid elements, republish the
        errors of invalid ones, stop at the first element that is not a
        document. */
    method AddElementErrors(name: string, items: seq<Value>, childErrors: Value -> seq<ChildError>) returns (r: Outcome)
      modifies this`errors
      ensures errors == old(errors) + ManyErrors(name, ErrorsOf(childErrors, items), LeadingDocuments(items))
      ensures r == if LeadingDocuments(items) == |items| then Pass else Fail(NoMethodError("valid?"))
    {
      ghost var es := ErrorsOf(childErrors, items);
      ghost var n := LeadingDocuments(items);
      var i := 0;
      while i < |items|
        invariant i <= n
        invariant errors == old(errors) + ManyErrors(name, es, i)
      {
        var document := items[i];
        if !document.Document? {
          assert i == n;
          return Fail(NoMethodError("valid?"));
        }
        var errs := childErrors(document);
        assert es[i] == errs;
        assert ManyErrors(name, es, i + 1) == ManyErrors(name, es, i) + ElementErrors(name, i, errs);
        ghost var before := errors;
        if errs != [] {
          AddErrors(ManyPrefix(name, i), errs);
        } else {
          assert before + ElementErrors(name, i, errs) == before;
        }
        assert errors == before + ElementErrors(name, i, errs);
        AppendAssociates(old(errors), ManyErrors(name, es, i), ElementErrors(name, i, errs));
        i := i + 1;
      }
      r := Pass;
    }
  }
}
