/** Arithmetic the other modules share. */
module Numbers {
  function Min(a: nat, b: nat): nat { if a < b then a else b }

  function Max(a: nat, b: nat): nat { if a > b then a else b }
}
