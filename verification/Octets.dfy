/** Octets and the 16-octet blocks the pairing toolbox works on. */
module Octets {
  type Octet = bv8

  type Block = s: seq<Octet> | |s| == 16 witness seq(16, _ => 0)

  const ZERO: Block := [0, 0, 0, 0, 0, 0, 0, 0, 0, 0, 0, 0, 0, 0, 0, 0]

  function Xor(p: Block, q: Block): Block {
    seq(16, i requires 0 <= i < 16 => p[i] ^ q[i])
  }

  function Reverse<T>(s: seq<T>): (r: seq<T>)
    ensures |r| == |s|
    ensures forall i :: 0 <= i < |s| ==> r[i] == s[|s| - 1 - i]
  {
    seq(|s|, i requires 0 <= i < |s| => s[|s| - 1 - i])
  }
}
