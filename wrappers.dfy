/** Small value wrappers shared by the other modules. */
module Wrappers {

  /** A value that may be absent: JavaScript's null/undefined for an optional field. */
  datatype Option<+T> = None | Some(value: T)

  /** The outcome of one request to the recipe API. `Fetched` carries the parsed JSON body;
      `FetchFailed` stands for a non-2xx status or a network or parse exception. */
  datatype Fetched<+T> = Fetched(body: T) | FetchFailed
}
