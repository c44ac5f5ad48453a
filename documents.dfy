/** Vocabulary shared by every collection and every route handler. */
module Documents {

  /** A document identifier (a MongoDB ObjectId), kept abstract: only equality
      between identifiers matters to the handlers. */
  type Id = nat

  /** A field that may be absent from a document or from a request body. */
  datatype Option<+T> = None | Some(value: T) {
    function GetOr(default: T): T {
      match this
      case Some(v) => v
      case None => default
    }
  }

  /** Why a handler ended up in its `catch` block. */
  datatype Failure =
    | CounterMissing     // no Counter document: `counter_db[0]._id` reads undefined
    | ValidationFailed   // a schema validator refused the document on create
    | NullRegister       // `register.categories` read after `findById` returned null

  /** The outcome of one route handler: success with the value the route sends
      back, a 404 answer, or a thrown error caught by the handler. */
  datatype Outcome<+T> = Ok(value: T) | NotFound | Failed(reason: Failure)
}
