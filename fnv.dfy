// 32-bit FNV-1a, the hash the value structures use for GetHashCode over their raw bytes.
module Fnv {
  import opened Words

  const OffsetBasis: bv32 := 0x811C_9DC5
  const Prime: bv32 := 0x0100_0193

  /** One FNV-1a round: exclusive-or the byte in, then multiply by the prime modulo 2^32. */
  function Step(hash: bv32, b: u8): bv32
  {
    (hash ^ (b as bv32)) * Prime
  }

  /** The hash state after the bytes of `s`, taken first to last, starting from `hash`. */
  function FnvFrom(hash: bv32, s: seq<u8>): bv32
    decreases |s|
  {
    if s == [] then hash else FnvFrom(Step(hash, s[0]), s[1..])
  }

  /** The hash is a left fold: one more byte is one more round on the hash so far. */
  lemma {:induction false} FnvFromSnoc(hash: bv32, s: seq<u8>, b: u8)
    ensures FnvFrom(hash, s + [b]) == Step(FnvFrom(hash, s), b)
    decreases |s|
  {
    if s != [] {
      FnvFromSnoc(Step(hash, s[0]), s[1..], b);
      assert (s + [b])[1..] == s[1..] + [b];
    }
  }

  /** Hashing a concatenation continues from the hash of the first part. */
  lemma {:induction false} FnvFromAppend(hash: bv32, s: seq<u8>, t: seq<u8>)
    ensures FnvFrom(hash, s + t) == FnvFrom(FnvFrom(hash, s), t)
    decreases |s|
  {
    if s != [] {
      FnvFromAppend(Step(hash, s[0]), s[1..], t);
      assert (s + t)[1..] == s[1..] + t;
    } else {
      assert s + t == t;
    }
  }

  /**
   * Hash of the `size` bytes at the start of `memory`: the walk stops at once when
   * `size` is not positive; the final pattern is returned as a signed `int`.
   */
  method Fnv32(memory: seq<u8>, size: int) returns (r: i32)
    requires size <= |memory|
    ensures r == Int32(FnvFrom(OffsetBasis, memory[..if size < 0 then 0 else size]) as int)
    ensures size <= 0 ==> r == Int32(0x811C_9DC5)
  {
    var hash := OffsetBasis;
    var end := if size < 0 then 0 else size;
    var i := 0;
    while i < end
      invariant 0 <= i <= end
      invariant hash == FnvFrom(OffsetBasis, memory[..i])
    {
      FnvFromSnoc(OffsetBasis, memory[..i], memory[i]);
      assert memory[..i + 1] == memory[..i] + [memory[i]];
      hash := Step(hash, memory[i]);
      i := i + 1;
    }
    r := Int32(hash as int);
  }
}
