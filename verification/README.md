# has_embedded_document, modelled in Dafny

has_embedded_document is a small Ruby library that stores typed
sub-documents in one raw hash field of a host record. It has two parts.

- **Document classes** (`HasEmbeddedDocument::Base`). Each document class
  keeps a registry of attributes: a name, a type caster and a default. A
  document reads and writes its attributes through a string-keyed store hash
  that its parent owns. Writes cast the value. Reads fall back to the default.
  Unknown names raise.
- **The embedding DSL** (`HasEmbeddedDocument::DSL`). A host class declares
  `has_embedded_document` or `has_many_embedded_documents`. This generates:
  - a reader that resolves the document class, then lazily builds a readonly
    document (or an array of them) from the raw field and memoises it in a
    per-instance slot;
  - a writer that stores the raw attributes and replaces the memo;
  - optionally, a presence rule and a validation cascade that republishes the
    child documents' errors on the host as `name.attr` or `name[i].attr`.

The project has four modules.

- `Values` (`values.dfy`): the Ruby values the library moves around, Ruby
  truthiness, and the exceptions it raises. Exceptions are modelled as
  `Result` and `Outcome` values.
- `Base` (`base.dfy`): the attribute registry and typed store.
  - The pure functions `Register`, `Read`, `Write`, `BulkWrite` and
    `Snapshot` state the behaviour on values.
  - The classes `DocumentType` (the class-level `@attributes`), `StoreHash`
    (the hash `parent.send(store_name)` returns) and `Document` change that
    state in place. Their methods are proved against those functions.
- `ErrorKeys` (`error_keys.dfy`): the keys a cascade adds errors under and
  the host error sequences a cascade appends. This includes decimal index
  formatting and the proofs that keys are unambiguous.
- `Dsl` (`dsl.dfy`): class resolution, the writer's conversion, the
  order-preserving maps over collections, and the bridge probe.
  - `HostClass` holds the declarations a host class makes (generated
    accessors and validation rules).
  - `Host` is one host record: its raw fields, memo slots and error list,
    with the generated readers, writers and cascades as methods.

A document built by the DSL (`document_class.new(raw.dup).readonly!`) is the
value `Document(klass, source)`. The model records the class and the raw
source it was built from, and nothing else about it.

## Model

| member | source | states |
|---|---|---|
| Base.Register | lib/has_embedded_document/base.rb:20-24 | registering adds `name` to the registry with the given caster and default; every other name keeps its descriptor |
| Base.Read | lib/has_embedded_document/base.rb:50-57 | raises `UnknownAttribute(name)` exactly when the name is unregistered; otherwise the stored value if the key is present, else the attribute's default, as it is |
| Base.Write | lib/has_embedded_document/base.rb:62-67 | raises exactly when the name is unregistered; otherwise the store gains the key, holds the cast value there, and keeps every other key's value |
| Base.BulkWrite | lib/has_embedded_document/base.rb:43-47 | succeeds exactly when every entry's name is registered; a failure names an unregistered attribute |
| Base.Snapshot | lib/has_embedded_document/base.rb:37-39 | the keys are exactly the registered names, and each maps to what `read_attribute` returns for it |
| Base.ReregisterReplaces | lib/has_embedded_document/base.rb:20-24 | registering a name twice equals registering it once with the later descriptor; the key set does not change |
| Base.ReadAfterWrite | lib/has_embedded_document/base.rb:54-66 | after writing a registered name, reading it gives the cast value, and reading any other name is unaffected |
| Base.BulkWriteReads | lib/has_embedded_document/base.rb:43-47 | after a bulk write of registered names, each name reads as the cast of the last value written to it, or as before if no entry names it |
| Base.BulkWriteStopsAtFirstUnknown | lib/has_embedded_document/base.rb:43-47 | when entry `k` is the first unknown name, the call raises for that name and the store keeps exactly the writes of the entries before `k` (not atomic) |
| Base.WriteBackKeepsAttributes | lib/has_embedded_document/base.rb:37-47 | assigning a document's own attribute values back to it (any order, any repetition) succeeds and leaves its attributes unchanged, when the casts fix those values |
| Base.DocumentType.constructor | lib/has_embedded_document/base.rb:13-15 | a class starts with an empty registry |
| Base.DocumentType.DeclareAttribute | lib/has_embedded_document/base.rb:20-28 | default `default: nil`; the class registry becomes `Register` of the old one, and every descriptor stays filed under its own name |
| Base.StoreHash.constructor | lib/has_embedded_document/base.rb:54-66 | the hash the parent's store method returns, holding the given entries; documents read it and update it in place |
| Base.Document.constructor | lib/has_embedded_document/base.rb:31-34 | the document keeps the store its parent and store name denote, and its class |
| Base.Document.ReadAttribute | lib/has_embedded_document/base.rb:50-57 | returns `Read` of the class registry and the current store |
| Base.Document.Attributes | lib/has_embedded_document/base.rb:37-39 | the loop over the registry, reading each descriptor's own name, returns `Snapshot` of the current state |
| Base.Document.WriteAttribute | lib/has_embedded_document/base.rb:62-67 | an unknown name raises and leaves the store untouched; a known name updates the store as `Write` says |
| Base.Document.AssignAttributes | lib/has_embedded_document/base.rb:43-47 | the entry-by-entry loop leaves the store and result that `BulkWrite` gives, including the partial store on failure |
| ErrorKeys.Decimal | lib/has_embedded_document/dsl.rb:55 | the formatted index is a non-empty run of decimal digits |
| ErrorKeys.ParseDecimalRoundTrip | lib/has_embedded_document/dsl.rb:55 | reading the formatted index back gives the index |
| ErrorKeys.ManyKeyInjective | lib/has_embedded_document/dsl.rb:55 | a key `name[i].attr` determines both `i` and `attr` |
| ErrorKeys.OneAndManyKeysDiffer | lib/has_embedded_document/dsl.rb:39-55 | a single-embedding key `name.attr` never equals a collection key `name[i].attr'` |
| ErrorKeys.OnePrefix | lib/has_embedded_document/dsl.rb:39 | the key prefix is the name followed by `.` |
| ErrorKeys.ManyPrefix | lib/has_embedded_document/dsl.rb:55 | the key prefix is the name, `[`, the decimal index, then `].` |
| ErrorKeys.ElementErrors | lib/has_embedded_document/dsl.rb:52-56 | an element adds one host error per child error (none when valid) |
| ErrorKeys.ManyErrors | lib/has_embedded_document/dsl.rb:51-57 | a collection cascade adds as many host errors as its elements report in total |
| ErrorKeys.Republish | lib/has_embedded_document/dsl.rb:38-40 | one host error per child error |
| ErrorKeys.RepublishAt | lib/has_embedded_document/dsl.rb:38-40 | the `k`th host error is the `k`th child error under `prefix + attribute`, with the same message |
| ErrorKeys.RepublishAppend | lib/has_embedded_document/dsl.rb:38-40 | republishing two runs of errors one after the other is republishing them together |
| ErrorKeys.OneErrorsMembership | lib/has_embedded_document/dsl.rb:37-41 | a single cascade adds a host error exactly when the child reports an error on `attr` with that message, under key `name.attr` |
| ErrorKeys.ValidElementsAddNothing | lib/has_embedded_document/dsl.rb:51-52 | a collection whose elements are all valid adds no host error |
| ErrorKeys.ManyErrorsPrefix | lib/has_embedded_document/dsl.rb:51-57 | the errors of the first `i` elements are a prefix of those of the first `n`, so errors appear in index order |
| ErrorKeys.ManyErrorsMembership | lib/has_embedded_document/dsl.rb:51-57 | a collection cascade adds a host error exactly when some element `i` reports an error on `attr` with that message, under key `name[i].attr` |
| Dsl.ResolveDocumentClass | lib/has_embedded_document/dsl.rb:63-68 | success only for a strict subclass of `Base`; a name is looked up first and an unknown name raises `NameError`; a direct class or found name that is a strict subclass always succeeds; otherwise it raises `UnknownDocumentClass` |
| Dsl.BaseClassRejected | lib/has_embedded_document/dsl.rb:65 | `Base` itself, given directly or by name, is rejected |
| Dsl.ResolvedClassIsStable | lib/has_embedded_document/dsl.rb:79 | once a reference has resolved, resolving the class it resolved to gives the same result, so the accessor rebinding its captured reference to the class does not change later calls |
| Dsl.IsA | lib/has_embedded_document/dsl.rb:99 | only a document is an instance of a class; a document of the class itself always is |
| Dsl.ToRaw | lib/has_embedded_document/dsl.rb:99 | an instance of the class is replaced by its attributes hash, any other value is kept; the result is never itself an instance of the class |
| Dsl.Materialize | lib/has_embedded_document/dsl.rb:85 | a falsy raw value is returned as it is; a document is built exactly when the raw value is truthy, of the class and from that raw value |
| Dsl.BuildEach | lib/has_embedded_document/dsl.rb:120 | same length; element `i` is the document built from raw element `i` |
| Dsl.ToRawEach | lib/has_embedded_document/dsl.rb:134 | same length; element `i` is the conversion of assigned element `i` |
| Dsl.MaterializeAll | lib/has_embedded_document/dsl.rb:119-120 | nil stays nil; an array maps to documents in order, same length; anything else raises on `map` |
| Dsl.ToRawAll | lib/has_embedded_document/dsl.rb:134 | nil stays nil; an array converts element-wise in order; anything else raises on `map` |
| Dsl.BuildEachCommutesWithRearrange | lib/has_embedded_document/dsl.rb:120 | rearranging the raw array rearranges the built documents the same way |
| Dsl.WrittenCollectionReadsBack | lib/has_embedded_document/dsl.rb:134-137 | the cached collection after a write holds, at `i`, the document built from the attributes of assigned element `i` (if it is an instance of the class) or from the element itself |
| Dsl.ProbeBridge | lib/has_embedded_document/dsl.rb:144-162 | the typed-attribute bridge exactly when the host is record-like and has the attribute; the method bridge exactly when not and the method exists; otherwise `NameError` for the selector |
| Dsl.DeclaredRules | lib/has_embedded_document/dsl.rb:14-15 | the presence rule with message `required` is added iff `optional` is falsy (so `optional: nil` adds it); the cascade iff `validate` is truthy; presence comes first; nothing else |
| Dsl.DefaultDeclarationRules | lib/has_embedded_document/dsl.rb:10-16 | with the defaults `validate: true, optional: true` a declaration adds exactly the cascade and no presence rule |
| Dsl.HostClass.ValidateEmbeddedDocument | lib/has_embedded_document/dsl.rb:33-43 | appends the single cascade rule for `name` |
| Dsl.HostClass.ValidateManyEmbeddedDocuments | lib/has_embedded_document/dsl.rb:47-59 | appends the collection cascade rule for `name` |
| Dsl.HostClass.Declare | lib/has_embedded_document/dsl.rb:10-16 | a failed reader probe changes nothing; a failed writer probe leaves the reader defined and no writer or rule; otherwise reader, writer and `DeclaredRules` are added |
| Dsl.HostClass.HasEmbeddedDocument | lib/has_embedded_document/dsl.rb:10-16 | defaults `validate: true, optional: true`; no method `name` raises `NameError(name)` and changes nothing; no method `name=` raises `NameError(name=)`, leaving the reader defined and no writer or rule; otherwise adds the single reader and writer with their bridges and the declared rules |
| Dsl.HostClass.HasManyEmbeddedDocuments | lib/has_embedded_document/dsl.rb:23-29 | the same for a collection embedding, with the same defaults and failure cases |
| Dsl.LeadingDocuments | lib/has_embedded_document/dsl.rb:51-52 | the elements before the returned index are documents, and the element at it (if any) is not |
| Dsl.Host.RawRead | lib/has_embedded_document/dsl.rb:144-151 | reads the typed attribute or the method-backed field the bridge chooses; an unset field reads as nil |
| Dsl.Host.RawWrite | lib/has_embedded_document/dsl.rb:155-162 | the chosen bridge's field gets the value and reads back as it; the other storage is unchanged |
| Dsl.Host.ReadEmbedded | lib/has_embedded_document/dsl.rb:75-88 | the class is resolved first (errors change nothing); a set slot is returned as is without reading the raw field; otherwise the document built from the raw field (nil for nil) is returned and cached; slot coherence is kept |
| Dsl.Host.WriteEmbedded | lib/has_embedded_document/dsl.rb:93-105 | the raw field receives the value's attributes if it is an instance of the class, else the value; the slot becomes the document built from exactly that; a following read returns it |
| Dsl.Host.ReadEmbeddedMany | lib/has_embedded_document/dsl.rb:110-123 | the same memo semantics for a collection; the first read maps the raw array in order |
| Dsl.Host.WriteEmbeddedMany | lib/has_embedded_document/dsl.rb:128-140 | elements converted in order and written; the slot becomes the documents built from what was written; a following read returns them; a non-array raises on `map` and changes nothing |
| Dsl.Host.AddErrors | lib/has_embedded_document/dsl.rb:38-40 | the loop appends `Republish(prefix, errs)` to the host errors |
| Dsl.Host.RunEmbeddedDocumentValidation | lib/has_embedded_document/dsl.rb:33-43 | nil or a valid document adds nothing; an invalid one adds its errors under `name.attr` in order; a falsy non-nil value raises on `invalid?` |
| Dsl.Host.RunManyEmbeddedDocumentsValidation | lib/has_embedded_document/dsl.rb:47-59 | nil adds nothing; for an array, the errors of the leading documents are added in index order under `name[i].attr`, and the first non-document raises on `valid?` |
| Dsl.Host.AddElementErrors | lib/has_embedded_document/dsl.rb:51-57 | the `each_with_index` loop appends `ManyErrors` over the leading documents and passes exactly when every element is a document |

## Left out

- `ActiveModel::Type.lookup` and `cast` are not modelled. The caster is an arbitrary function `Value -> Value` fixed when the attribute is declared. Lookup failures for unknown types, the `**options` passed to the lookup, and cast errors are not modelled.
- `Base.DocumentType.DeclareAttribute`: the default type `:string` (`base.rb:20`) is not a default here, since the caster it looks up is not modelled; the caller passes the caster.
- The typed accessor pair `attribute` defines (`base.rb:26-27`) is not modelled separately: `name` only calls `read_attribute(name)` and `name=` only calls `write_attribute(name, value)`, which `Base.Document.ReadAttribute` and `Base.Document.WriteAttribute` model.
- The ActiveModel validation machinery is not modelled: `validate`, `validates`, `valid?`, `invalid?` and `errors`. A child's validation is a given function from a document to its list of `(attribute, message)` errors, where valid means the list is empty. The host's errors are a sequence that is only appended to. The presence rule is recorded as a rule, never evaluated. The options `validate:` forwards when it is a Hash are not modelled.
- `readonly!`, freezing, `dup`, `dup_with`, `==`, callable defaults and registry inheritance between document classes are not modelled. They are not defined in `base.rb` or `dsl.rb`.
- The document constructor is used with two arities. `base.rb:31` defines `initialize(parent, store_name)`, while `dsl.rb:85`, `dsl.rb:102`, `dsl.rb:120` and `dsl.rb:137` call `document_class.new(attributes.dup)` with one argument, followed by `readonly!`, which neither file defines. The model keeps both as written:
  - `Base.Document` is built over a store hash;
  - the DSL's documents are opaque `Document(klass, source)` values, with no behaviour asserted.
- `Base.Document.constructor`: `parent.send(store_name)` is modelled as the store hash it returns, fixed at construction. A parent whose method returns a different hash on each call is not modelled.
- `#attributes` of a document instance, which the writers call on an assigned document, is a given function of the document (`Env.docAttributes`).
- Ruby metaprogramming is modelled by fixed structures, not by its own behaviour:
  - `define_method` and `instance_variable_get/set/defined?` become the `readers`/`writers` maps and the `memo` map, where a present key means the slot is defined;
  - `constantize` becomes a fixed name-to-class map, held by the host as `Dsl.Host.env`;
  - `instance_method(...).bind` becomes the `AccessorBridge` storage.
- A second declaration of an accessor-backed embedding is not modelled as wrapping the previously generated method. After the first declaration, `instance_method(name)` finds the generated reader; the model keeps probing the method set fixed at class creation.
- A `Hash` in a collection's raw field is not modelled. Ruby's `Hash#map` would enumerate it as pairs; the model raises `NoMethodError("map")` for every non-array value.
- Casting of the raw field by an ActiveRecord column on `write_attribute` is not modelled. The column bridge stores the value as given.
- A constant that names something other than a class is not modelled: every constant in the model is a class.
- `Dsl.Host.ReadEmbedded`, `Dsl.Host.WriteEmbedded`, `Dsl.Host.ReadEmbeddedMany` and `Dsl.Host.WriteEmbeddedMany` resolve the class reference on each call. In the source each generated accessor rebinds its captured `document_class` to the class after the first resolution (`dsl.rb:79`, `97`, `114`, `132`), so a name is looked up once per accessor. The host's constants are fixed, so both give the same class (`Dsl.ResolvedClassIsStable`). A constant redefined after an accessor's first call is not modelled.
- The Rails generators (`lib/generators/...`) and the autoload file `lib/has_embedded_document.rb` are not part of this model. Their only logic is file templating and autoload wiring.
- `attributes.dup` is not modelled separately: a document is built from its raw value directly.
