/** Bytes as numbers, their little-endian pairs, and overwriting part of a buffer. */
module Bytes {
  type u8 = x: int | 0 <= x < 256

  function U16(s: seq<u8>, at: nat): nat
    requires at + 2 <= |s|
  {
    var lo: nat, hi: nat := s[at], s[at + 1];
    lo + 0x100 * hi
  }

  function Splice(s: seq<u8>, at: nat, data: seq<u8>): (r: seq<u8>)
    requires at + |data| <= |s|
    ensures |r| == |s|
  {
    s[..at] + data + s[at + |data|..]
  }
}
