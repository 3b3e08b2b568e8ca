/**
 Domain names as the cache sees them: byte strings compared without regard to
 ASCII case, and the bucket hash of src/cache.c.
 */
module Names {

  type Byte = x: int | 0 <= x < 256

  type Name = seq<Byte>

  // 64 bytes of some other table, which the hash reads as a mixing table.
  type Mix = m: seq<Byte> | |m| == 64 witness seq(64, _ => 0)

  const WORD := 0x1_0000_0000

  type Word = x: int | 0 <= x < WORD

  // A non-negative C `int`.
  type CInt = n: int | 0 <= n < 0x8000_0000

  // The number of buckets; `rehash` doubles an `int` up from 64.
  type Size = n: int | 0 < n < 0x8000_0000 witness 64

  // C's `^` and `&` on non-negative numbers.
  function BitXor(a: nat, b: nat): nat
    decreases a + b
  {
    if a + b == 0 then 0 else (a + b) % 2 + 2 * BitXor(a / 2, b / 2)
  }

  function BitAnd(a: nat, b: nat): (r: nat)
    ensures r <= b
    decreases a
  {
    if a == 0 then 0 else (a % 2) * (b % 2) + 2 * BitAnd(a / 2, b / 2)
  }

  function FoldByte(c: Byte): Byte {
    if 65 <= c <= 90 then c + 32 else c
  }

  function Fold(a: Name): Name {
    seq(|a|, i requires 0 <= i < |a| => FoldByte(a[i]))
  }

  // hostname_isequal
  predicate SameName(a: Name, b: Name) {
    Fold(a) == Fold(b)
  }

  // `val` rotated left by 7; the two halves of the C expression share no bits.
  function Rotate7(val: Word): int {
    (val * 128) % WORD + val / 0x200_0000
  }

  function Blend(mix: Mix, val: Word, c: Byte): Word {
    (Rotate7(val) + BitXor(mix[BitAnd((val + c) % WORD, 63)], c)) % WORD
  }

  // The hash after the first `k` bytes of the name, starting from octal 017465.
  function HashTo(mix: Mix, name: Name, k: nat): Word
    requires k <= |name|
  {
    if k == 0 then 0x1F35 else Blend(mix, HashTo(mix, name, k - 1), FoldByte(name[k - 1]))
  }

  function Masked(val: Word, size: Size): (b: nat)
    ensures b < size
  {
    BitAnd(BitXor(val, val / 0x1_0000), size - 1)
  }

  function Bucket(mix: Mix, name: Name, size: Size): (b: nat)
    ensures b < size
  {
    Masked(HashTo(mix, name, |name|), size)
  }

  lemma {:induction false} HashIgnoresCase(mix: Mix, a: Name, b: Name, k: nat)
    requires SameName(a, b) && k <= |a|
    ensures |a| == |b| && HashTo(mix, a, k) == HashTo(mix, b, k)
  {
    assert |Fold(a)| == |a| && |Fold(b)| == |b|;
    if k > 0 {
      HashIgnoresCase(mix, a, b, k - 1);
      assert Fold(a)[k - 1] == Fold(b)[k - 1];
    }
  }

  // Names equal up to ASCII case share a bucket, whatever the table size.
  lemma {:induction false} BucketIgnoresCase(mix: Mix, a: Name, b: Name, size: Size)
    requires SameName(a, b)
    ensures Bucket(mix, a, size) == Bucket(mix, b, size)
  {
    HashIgnoresCase(mix, a, b, |a|);
  }

  method HashBucket(mix: Mix, name: Name, size: Size) returns (b: nat)
    ensures b == Bucket(mix, name, size)
    ensures forall other :: SameName(name, other) ==> b == Bucket(mix, other, size)
  {
    var val: Word := 0x1F35;
    var i := 0;
    while i < |name|
      invariant 0 <= i <= |name|
      invariant val == HashTo(mix, name, i)
    {
      var c := name[i];
      if 65 <= c <= 90 {
        c := c + 32;
      }
      val := Blend(mix, val, c);
      i := i + 1;
    }
    b := Masked(val, size);
    forall other | SameName(name, other) ensures b == Bucket(mix, other, size) {
      BucketIgnoresCase(mix, name, other, size);
    }
  }
}
