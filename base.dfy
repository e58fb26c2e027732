/** Small shared vocabulary: optional values, results with an error, and the
    routing targets a matcher hands back to the proxy engine. */
module Base {

  datatype Option<+T> = None | Some(value: T)

  datatype Result<+R, +E> = Success(value: R) | Failure(error: E)

  /** A routing target. The proxy engine owns what a target does; this core only
      builds `DialProxy` targets (the result of `To(addr)`) and passes others on. */
  datatype Target = DialProxy(addr: string) | Opaque(name: string)

  function Min(a: int, b: int): int { if a <= b then a else b }

  function Max(a: int, b: int): int { if a <= b then b else a }
}
