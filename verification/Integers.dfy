/** The range of a C++ int, and the smaller and larger of two sizes. */
module Integers {
  const INT_MAX := 0x7fff_ffff

  function Min(a: nat, b: nat): nat {
    if a < b then a else b
  }

  function Max(a: nat, b: nat): nat {
    if a < b then b else a
  }
}
