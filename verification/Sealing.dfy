/** An invariant defined by recursion over a seal stays folded in proofs that only pass it
    on; a lemma beside it says that it means what stands under the last layer. */
module Sealing {
  datatype Seal = Bare | Wrapped(inner: Seal)

  const SEAL := Wrapped(Wrapped(Wrapped(Bare)))
}
