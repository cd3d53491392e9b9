/** What several components use. */
module Common {

  type Byte = n: nat | n < 256

  function Least(a: nat, b: nat): nat {
    if a <= b then a else b
  }
}
