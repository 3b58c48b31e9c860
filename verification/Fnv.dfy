// FNV-1a, the hash of words and file names (hw1/HashTable.c).
module Fnv {
  import opened Bytes

  const FNV1_64_INIT: bv64 := 0xcbf2_9ce4_8422_2325
  const FNV_64_PRIME: bv64 := 0x100_0000_01b3

  function FnvStep(h: bv64, b: byte): bv64 { (h ^ (b as bv8 as bv64)) * FNV_64_PRIME }

  // The hash of the octets seen so far, after all of s.
  function FnvFrom(h: bv64, s: seq<byte>): bv64
    decreases s
  {
    if s == [] then h else FnvFrom(FnvStep(h, s[0]), s[1..])
  }

  function FNVHash64(s: seq<byte>): uint64 { FnvFrom(FNV1_64_INIT, s) as int }

  method FNVHash(buffer: seq<byte>) returns (key: uint64)
    ensures key == FNVHash64(buffer)
  {
    hide FnvStep;
    var hval := FNV1_64_INIT;
    var bp := 0;
    while bp < |buffer|
      invariant 0 <= bp <= |buffer|
      invariant FnvFrom(hval, buffer[bp..]) == FnvFrom(FNV1_64_INIT, buffer)
    {
      assert buffer[bp..][1..] == buffer[bp + 1..];
      hval := FnvStep(hval, buffer[bp]);
      bp := bp + 1;
    }
    key := hval as int;
  }
}
