/**
  Definitions that most proofs carry around closed, as `forall x :: Look(key, x) ==> ...`, to keep them out of
  the solver's sight. A proof that needs the inside of one opens it by asserting `Look(key, 0)`.
*/
module Opening {
  datatype Key = Machine | Course | Blocks | Code | Target | Filing | Growth | Yielding | Supply | Refining | Buffer

  predicate Look(key: Key, x: int) { true }
}
