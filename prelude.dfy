/** Small value types shared by the backend modules: optional values, results of
    operations that can throw (a JavaScript `Error` carries a message), JSON
    responses of the Express handlers, and flattening of nested sequences. */
module Prelude {

  datatype Option<+T> = None | Some(value: T)

  /** The outcome of a call that either returns a value or throws an `Error`. */
  datatype Result<+T> = Ok(value: T) | Err(message: string)

  /** An error passed to Express's error handler: one raised by multer, with
      its code, or any other `Error`, whose message may be missing. */
  datatype AppError = MulterError(code: string, reason: string) | PlainError(message: Option<string>)

  /** The JSON body an Express handler sends: `{ result }` or `{ error }`. */
  datatype Body = ResultBody(result: string) | ErrorBody(error: string)

  /** `res.status(status).json(body)`; a plain `res.json` has status 200. */
  datatype Response = Response(status: int, body: Body)

  /** Concatenation of a sequence of sequences, in order. */
  function Flatten<T>(xss: seq<seq<T>>): (r: seq<T>)
  {
    if xss == [] then [] else xss[0] + Flatten(xss[1..])
  }

  lemma {:induction false} FlattenAppend<T>(a: seq<seq<T>>, b: seq<seq<T>>)
    ensures Flatten(a + b) == Flatten(a) + Flatten(b)
  {
    if a == [] {
      assert a + b == b;
    } else {
      assert (a + b)[1..] == a[1..] + b;
      FlattenAppend(a[1..], b);
    }
  }

  lemma {:induction false} FlattenContains<T>(xss: seq<seq<T>>, i: nat, j: nat)
    requires i < |xss| && j < |xss[i]|
    ensures xss[i][j] in Flatten(xss)
  {
    if i > 0 {
      FlattenContains(xss[1..], i - 1, j);
    }
  }
}
