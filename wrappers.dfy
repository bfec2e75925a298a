/** Python's None and raised exceptions, made into values. */
module Wrappers {

  /** A value that may be absent (Python's `Optional`, `None` for absence). */
  datatype Option<+T> = None | Some(value: T)

  /** The outcome of a call that either returns a value or raises. */
  datatype Result<+T, +E> = Ok(value: T) | Err(error: E)
}

/** The exceptions that escape the event fetcher, each named after what raises it. */
module Errors {

  datatype Error =
    /** The transaction service raised while serving the page at this offset. */
    | QueryFailed(offset: nat, reason: string)
    /** IndexError: an attribute piece holds fewer than two double quotes. */
    | PairWithoutValue(piece: string)
    /** TypeError: a raw key is already a key of the bag, so its string value meets `+ 1`. */
    | KeyCountNotInt(key: string)
    /** KeyError: the bag has no "TxnHash" entry. */
    | MissingTxnHash
    /** TypeError: neither "id" nor "id1" gives a string to match against. */
    | MissingId
    /** AttributeError: the id does not start with a letter or '/', so there is no match. */
    | NoTradePair(id: string)
    /** The processed-events file exists but `json.load` cannot read a list of hashes from it. */
    | StoreUnreadable
}
