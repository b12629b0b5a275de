/** Outcomes of the library calls the page makes (fetch, Response.text and
    JSON.parse). They are not computed here: each network round trip is an
    input, described by what the page can observe of it. */
module Net {

  /** A value that may be missing, as a JavaScript property may be `undefined`. */
  datatype Option<+T> = None | Some(value: T)

  /** What JSON.parse made of a response body. */
  datatype ParseResult<+T> = ParseError | Parsed(value: T)

  /** One GET round trip: either fetch (or reading the body) threw, or a body
      arrived, together with what JSON.parse makes of it. */
  datatype Fetch<+T> = NetworkError | Received(text: string, parsed: ParseResult<T>)
}
