/** The published records and the requests that produce them. */
module Records {

  /** The source's two record classes behind the interface `Record`. */
  datatype Record =
    | ReadRecord(sSeq: int, rSeq: int, oVal: int, rNum: int, rId: int)
    | WriteRecord(sSeq: int, rSeq: int, oVal: int, wId: int)

  /** What one request asks the server to do.
      `Ignored` is a call that returns without touching the shared object,
      `Failed` one that ends with an exception before it gets there. */
  datatype Request = Read(id: int) | Write(id: int, value: int) | Ignored | Failed

  /** The request reaches the shared object. */
  predicate Touches(req: Request) {
    req.Read? || req.Write?
  }
}
