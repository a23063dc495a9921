/** Definitions shared by the modules. */
module Prelude {
  datatype Option<+T> = None | Some(value: T)

  /** Memory by the addresses of its words. */
  type Words = map<nat, nat>

  lemma EightDivides(n: nat)
    requires n % 16 == 0
    ensures n % 8 == 0
  {
  }
}
