/** Bytes inside little-endian words, as memmove and string contents need them. */
module Bytes {
  function ByteOf(word: nat, i: nat): nat {
    if i == 0 then word % 256 else ByteOf(word / 256, i - 1)
  }

  /** dst after its r low bytes have been overwritten by those of src. */
  function MergeLow(dst: nat, src: nat, r: nat): nat {
    if r == 0 then dst else src % 256 + 256 * MergeLow(dst / 256, src / 256, r - 1)
  }

  /** The copied bytes are those of the source and the others stay, whatever the target word held. */
  lemma {:induction false} MergedByte(dst: nat, src: nat, r: nat, i: nat)
    ensures ByteOf(MergeLow(dst, src, r), i) == if i < r then ByteOf(src, i) else ByteOf(dst, i)
  {
    if r > 0 {
      var rest := MergeLow(dst / 256, src / 256, r - 1);
      assert MergeLow(dst, src, r) % 256 == src % 256;
      assert MergeLow(dst, src, r) / 256 == rest;
      if i > 0 {
        MergedByte(dst / 256, src / 256, r - 1, i - 1);
      }
    }
  }
}
