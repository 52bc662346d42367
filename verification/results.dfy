/** Outcome datatypes shared by every module of the model.

    `Option` stands for Python's `None`-or-value returns; `Result` stands for a call
    that either returns a value or raises an exception whose `str()` is `msg`; `Response`
    stands for what an HTTP endpoint answers. */
module Results {

  datatype Option<+T> = None | Some(value: T) {
    function GetOr(default: T): T {
      match this
      case Some(v) => v
      case None => default
    }
  }

  datatype Result<+T> = Ok(value: T) | Err(msg: string) {
    predicate IsFailure() {
      Err?
    }
  }

  /** An HTTP endpoint's outcome: a body, or an `HTTPException` with its status code and
      detail. */
  datatype Response<+T> = Reply(body: T) | Refused(code: int, detail: string)
}
