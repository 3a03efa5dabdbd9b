/** Filling a preallocated byte buffer. */
module Buffers {
  import opened Bytes

  /** `out.set(bytes, o)` of a typed array, `copy(out[o:], bytes)` in Go. */
  method Set(out: array<Byte>, bytes: seq<Byte>, o: nat)
    requires o + |bytes| <= out.Length
    modifies out
    ensures out[..o + |bytes|] == old(out[..o]) + bytes
  {
    ghost var before := out[..o];
    for i := 0 to |bytes|
      invariant out[..o] == before
      invariant out[o..o + i] == bytes[..i]
    {
      out[o + i] := bytes[i];
    }
    assert out[..o + |bytes|] == out[..o] + out[o..o + |bytes|];
  }
}
