/** Machine words and the few facts about products and quotients that several proofs share. */
module Arithmetic {
  const WORD := 0x1_0000_0000
  type u32 = x: int | 0 <= x < WORD

  lemma DivMod(a: nat, b: nat)
    requires b > 0
    ensures a == a / b * b + a % b && 0 <= a / b && 0 <= a % b < b
  {
  }

  lemma Scale(x: nat, y: nat, k: nat)
    requires x <= y
    ensures x * k <= y * k && k * x <= k * y
  {
  }
}

/** Error numbers of the C library. Only their being positive and distinct matters. */
module Errno {
  const EACCES := 13
  const ENODEV := 19
  const EINVAL := 22
  const EMFILE := 24
  const ENOTTY := 25
  const EBADFD := 81
  const ENOSYS := 88
  const ENOTSUP := 134
}

module Wrappers {
  datatype Option<T> = None | Some(value: T)
}
