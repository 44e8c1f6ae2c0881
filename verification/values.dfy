/**
  The Ruby values the library moves around: attribute values, the raw hashes
  and arrays kept in a host record's field, and the readonly documents built
  from them. Also the error kinds the library raises and the result wrappers
  the model uses in place of exceptions.
 */
module Values {

  /** A class object, by identity. */
  type ClassId = nat

  datatype Value =
    | Nil
    | Bool(b: bool)
    | Int(i: int)
    | Str(s: string)
    | Hash(entries: map<string, Value>)
    | List(items: seq<Value>)
      /** `klass.new(source.dup).readonly!`: a readonly document of class
          `klass` built from `source`. How the document interprets `source`
          is not part of this model; only the class and the source are. */
    | Document(klass: ClassId, source: Value)

  /** Ruby truthiness: only `nil` and `false` are falsy. */
  predicate Truthy(v: Value) {
    !(v.Nil? || v == Bool(false))
  }

  /** The exceptions the modelled code raises or lets through. */
  datatype Error =
    | UnknownAttribute(name: string)        // ArgumentError "Unknown attribute: name"
    | UnknownDocumentClass(klass: ClassId)  // ArgumentError "Unknown document class: klass"
    | NameError(name: string)               // a constant or a method that does not exist
    | NoMethodError(selector: string)       // a method sent to a value that lacks it

  datatype Option<T> = None | Some(value: T)

  datatype Result<T> = Ok(value: T) | Err(error: Error)

  /** The result of a call made for its effect: it returned, or it raised. */
  datatype Outcome = Pass | Fail(error: Error)
}
