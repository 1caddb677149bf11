/** The Bloom filter of pkg/bloom/filter.go: hashing, index arithmetic with
    64-bit wrap-around, and Add and Test on a table of words. */
module Bloom {
  import opened Words
  import opened Bits

  const OFFSET_A: bv64 := 14695981039346656037
  const OFFSET_B: bv64 := 7809847782465536322
  const PRIME: bv64 := 1099511628211
  const GOLDEN: bv64 := 0x9e37_79b9_7f4a_7c15

  function MixA(h: bv64, b: Byte): bv64 {
    (h ^ (b as bv64)) * PRIME
  }

  function MixB(h: bv64, b: Byte): bv64 {
    (h ^ ((b as bv64) + GOLDEN)) * PRIME
  }

  function HashA(value: Word): bv64 {
    if value == [] then OFFSET_A else MixA(HashA(DropLast(value)), Last(value))
  }

  function HashB(value: Word): bv64 {
    if value == [] then OFFSET_B else MixB(HashB(DropLast(value)), Last(value))
  }

  /** The stride is never zero. */
  function Stride(value: Word): (h: bv64)
    ensures h != 0
  {
    var h := HashB(value);
    if h == 0 then GOLDEN else h
  }

  method TwoHashes(value: Word) returns (h1: bv64, h2: bv64)
    ensures h1 == HashA(value) && h2 == Stride(value)
  {
    hide MixA;
    hide MixB;
    h1, h2 := OFFSET_A, OFFSET_B;
    var i := 0;
    while i < |value|
      invariant 0 <= i <= |value|
      invariant h1 == HashA(value[..i]) && h2 == HashB(value[..i])
    {
      assert DropLast(value[..i + 1]) == value[..i];
      h1 := MixA(h1, value[i]);
      h2 := MixB(h2, value[i]);
      i := i + 1;
    }
    assert value[..i] == value;
    if h2 == 0 {
      h2 := GOLDEN;
    }
  }

  /** Filter dimensions, after defaults: at least one bit and one hash. */
  datatype Size = Size(bits: nat, k: nat) {
    ghost predicate Ok() {
      && 0 < bits && bits + 63 < TWO_64
      && 0 < k < 256
    }
  }

  function Defaulted(bits: nat, hashes: nat): Size {
    Size(if bits == 0 then 0x10_0000 else bits, if hashes == 0 then 6 else hashes)
  }

  /** (bits + 63) / 64, in 64-bit arithmetic. */
  function WordCount(bits: nat): nat {
    ((bits + 63) % TWO_64) / 64
  }

  /** Every index has a word exactly when the rounding up does not wrap. */
  lemma InBoundsIffNoWrap(bits: nat)
    requires 0 < bits < TWO_64
    ensures (forall idx: nat :: idx < bits ==> idx / 64 < WordCount(bits)) <==> bits + 63 < TWO_64
  {
    if bits + 63 >= TWO_64 {
      assert WordCount(bits) == 0;
      assert 0 / 64 >= WordCount(bits);
      assert 0 < bits;
    }
  }

  /** (h1 + i*h2) mod 2^64 mod bits. */
  function Slot(h1: bv64, h2: bv64, i: nat, bits: nat): (idx: nat)
    requires bits > 0
    ensures idx < bits
  {
    (((h1 as nat) + i * (h2 as nat)) % TWO_64) % bits
  }

  /** Index i of a value. */
  function Index(size: Size, value: Word, i: nat): (idx: nat)
    requires size.bits > 0
    ensures idx < size.bits
  {
    Slot(HashA(value), Stride(value), i, size.bits)
  }

  /** The bits that a value needs. */
  ghost predicate Needs(size: Size, value: Word, idx: nat)
    requires size.bits > 0
  {
    exists i: nat :: i < size.k && Index(size, value, i) == idx
  }

  // ---------------------------------------------------------------------
  // The hashes and indices against 64-bit arithmetic and known values
  // ---------------------------------------------------------------------

  /** The first hash is FNV-1a with its published basis and prime; the second starts
      elsewhere and adds the golden ratio to every byte. Both go byte by byte. */
  lemma HashSteps(value: Word, b: Byte)
    ensures HashA([]) == 0xcbf2_9ce4_8422_2325 && HashB([]) == 0x6c62_272e_07bb_0142
    ensures HashA(value + [b]) == MixA(HashA(value), b) && HashB(value + [b]) == MixB(HashB(value), b)
    ensures Stride(value) == if HashB(value) == 0 then 0x9e37_79b9_7f4a_7c15 else HashB(value)
  {
    hide MixA;
    hide MixB;
    assert DropLast(value + [b]) == value;
  }

  /** One byte: xor, then multiply by the prime, both in 64 bits. */
  lemma MixSpelled(h: bv64, b: Byte)
    ensures PRIME == 0x100_0000_01b3 && GOLDEN == 0x9e37_79b9_7f4a_7c15
    ensures MixA(h, b) == (h ^ (b as bv64)) * PRIME && MixB(h, b) == (h ^ ((b as bv64) + GOLDEN)) * PRIME
  {
  }

  /** Index i is reached by adding the stride i times, each time without the 2^64 that
      a carry out of 64 bits would be. */
  function Walk(start: nat, stride: nat, i: nat): nat {
    if i == 0 then start
    else
      var sum := Walk(start, stride, i - 1) + stride;
      if sum < 0x1_0000_0000_0000_0000 then sum else sum - 0x1_0000_0000_0000_0000
  }

  lemma IndexIsWalk(size: Size, value: Word, i: nat)
    requires size.bits > 0
    ensures Index(size, value, i) == Walk(HashA(value) as nat, Stride(value) as nat, i) % size.bits
  {
    hide HashA;
    hide Stride;
    WalkWraps(HashA(value) as nat, Stride(value) as nat, i);
  }

  lemma {:induction false} WalkWraps(start: nat, stride: nat, i: nat)
    requires start < TWO_64 && stride < TWO_64
    ensures Walk(start, stride, i) == (start + i * stride) % TWO_64
  {
    if i == 0 {
      assert 0 * stride == 0;
    } else {
      WalkWraps(start, stride, i - 1);
      assert i * stride == (i - 1) * stride + stride;
      ModSum(start + (i - 1) * stride, stride);
    }
  }

  lemma ModSum(x: nat, y: nat)
    requires y < TWO_64
    ensures (x + y) % TWO_64 == if x % TWO_64 + y < TWO_64 then x % TWO_64 + y else x % TWO_64 + y - TWO_64
  {
    assert x == TWO_64 * (x / TWO_64) + x % TWO_64;
  }

  /** Zero stands for 2^20 bits, and for six hashes. */
  lemma DefaultsSpelled(bits: nat, hashes: nat)
    ensures Defaulted(bits, hashes).bits == (if bits > 0 then bits else 1048576)
    ensures Defaulted(bits, hashes).k == (if hashes > 0 then hashes else 6)
  {
  }

  class Filter {
    const size: Size
    const words: array<bv64>

    ghost predicate Valid() {
      size.Ok() && words.Length == WordCount(size.bits)
    }

    /** All bits that the value needs are set. */
    ghost predicate Holds(value: Word)
      requires Valid()
      reads words
    {
      forall i: nat :: i < size.k ==> BitSet(words[..], Index(size, value, i))
    }

    constructor (bits: nat, hashes: nat)
      requires Defaulted(bits, hashes).Ok()
      ensures Valid() && fresh(words) && size == Defaulted(bits, hashes)
      ensures forall idx: nat :: idx < size.bits ==> !Bit(words[..], idx)
    {
      size := Defaulted(bits, hashes);
      words := new bv64[WordCount(Defaulted(bits, hashes).bits)](_ => 0);
      new;
      forall idx: nat | idx < size.bits
        ensures !Bit(words[..], idx)
      {
        EmptyWord(idx % 64);
      }
    }

    method CompareAndSwap(w: nat, expected: bv64, desired: bv64) returns (ok: bool)
      requires w < words.Length
      modifies words
      ensures ok == (old(words[w]) == expected)
      ensures words[..] == if ok then old(words[..])[w := desired] else old(words[..])
    {
      ok := words[w] == expected;
      if ok {
        words[w] := desired;
      }
    }

    /** Sets the bits that the value needs and no others. */
    method Add(value: Word)
      requires Valid()
      modifies words
      ensures forall idx: nat :: idx < size.bits ==>
                (Bit(words[..], idx) <==> old(Bit(words[..], idx)) || (value != [] && Needs(size, value, idx)))
      ensures value != [] ==> Holds(value)
      ensures forall v: Word :: old(Holds(v)) ==> Holds(v)
    {
      hide Slot;
      hide HashA;
      hide Stride;
      hide Mask;
      hide Meets;
      hide Or;
      if value == [] {
        return;
      }
      ghost var before := words[..];
      var h1, h2 := TwoHashes(value);
      var i := 0;
      while i < size.k
        invariant 0 <= i <= size.k
        invariant forall idx: nat :: idx < size.bits ==>
                    (Bit(words[..], idx) <==>
                     Bit(before, idx) || exists j: nat :: j < i && Index(size, value, j) == idx)
      {
        var idx := Slot(h1, h2, i, size.bits);
        var wordIdx := idx / 64;
        var mask := Mask(idx % 64);
        ghost var now := words[..];
        var done := false;
        while !done
          invariant !done ==> words[..] == now
          invariant done ==> forall other: nat :: other < size.bits ==>
                               (Bit(words[..], other) <==> Bit(now, other) || other == idx)
          decreases !done
        {
          var loaded := words[wordIdx];
          if Meets(loaded, mask) {
            assert Bit(now, idx);
            break;
          }
          done := CompareAndSwap(wordIdx, loaded, Or(loaded, mask));
          assert words[..] == SetBit(now, idx);
          forall other: nat | other < size.bits
            ensures Bit(words[..], other) <==> Bit(now, other) || other == idx
          {
            SetBitExact(now, idx, other);
          }
        }
        assert idx == Index(size, value, i);
        i := i + 1;
      }
    }

    /** True exactly when every needed bit is set; never for the empty value. */
    method Test(value: Word) returns (hit: bool)
      requires Valid()
      ensures hit <==> value != [] && Holds(value)
      ensures hit <==> value != [] && forall idx: nat :: idx < size.bits && Needs(size, value, idx) ==> Bit(words[..], idx)
    {
      hide Slot;
      hide HashA;
      hide Stride;
      hide Mask;
      hide Meets;
      hide Or;
      if value == [] {
        return false;
      }
      var h1, h2 := TwoHashes(value);
      var i := 0;
      while i < size.k
        invariant 0 <= i <= size.k
        invariant forall j: nat :: j < i ==> Bit(words[..], Index(size, value, j))
      {
        var idx := Slot(h1, h2, i, size.bits);
        assert idx == Index(size, value, i);
        if !Meets(words[idx / 64], Mask(idx % 64)) {
          assert Needs(size, value, idx) && !Bit(words[..], idx);
          return false;
        }
        i := i + 1;
      }
      return true;
    }
  }
}
