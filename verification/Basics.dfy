// Small notions several modules share.

module Options {
  datatype Option<T> = None | Some(value: T)
}

module Providers {
  // A function that a caller installs.
  datatype Provider = Provider(id: nat)
}

module Slices {
  // The part of a list that fits into a given room.
  function FirstN<T>(s: seq<T>, n: nat): (r: seq<T>)
    ensures |r| == if |s| <= n then |s| else n
  {
    if |s| <= n then s else s[..n]
  }

  function LastN<T>(s: seq<T>, n: nat): (r: seq<T>)
    ensures |r| == if |s| <= n then |s| else n
  {
    if |s| <= n then s else s[|s| - n..]
  }
}

module Words {
  const TWO_TO_THE_64: nat := 0x1_0000_0000_0000_0000
  const NS_PER_SECOND: nat := 1_000_000_000

  type u64 = x: nat | x < TWO_TO_THE_64

  // Unsigned 64-bit arithmetic wraps around.
  function Add64(a: nat, b: nat): u64 { (a + b) % TWO_TO_THE_64 }
  function Sub64(a: nat, b: nat): u64 { (a as int - b as int) % TWO_TO_THE_64 }
}
