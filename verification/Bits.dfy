/** Single bits of 64-bit words, and a table of words read as one bit string. */
module Bits {
  /** 1 << j */
  function Mask(j: nat): bv64 {
    if j == 0 then 1 else Mask(j - 1) << 1
  }

  predicate Meets(w: bv64, m: bv64) {
    w & m != 0
  }

  function Or(w: bv64, m: bv64): bv64 {
    w | m
  }

  predicate HasBit(w: bv64, j: nat) {
    Meets(w, Mask(j))
  }

  lemma TopMask()
    ensures Mask(63) == 0x8000_0000_0000_0000
  {
    assert Mask(8) == 0x100;
    assert Mask(16) == 0x1_0000;
    assert Mask(24) == 0x100_0000;
    assert Mask(32) == 0x1_0000_0000;
    assert Mask(40) == 0x100_0000_0000;
    assert Mask(48) == 0x1_0000_0000_0000;
    assert Mask(56) == 0x100_0000_0000_0000;
  }

  lemma {:induction false} MaskNotZero(j: nat)
    requires j < 64
    ensures Mask(j) != 0
    decreases 64 - j
  {
    if j == 63 {
      TopMask();
    } else {
      MaskNotZero(j + 1);
    }
  }

  lemma {:induction false} MasksDisjoint(i: nat, j: nat)
    requires i < j
    ensures Mask(i) & Mask(j) == 0
  {
    if i == 0 {
      LowBitOfShift(Mask(j - 1));
    } else {
      MasksDisjoint(i - 1, j - 1);
    }
  }

  lemma LowBitOfShift(x: bv64)
    ensures 1 & (x << 1) == 0
  {
  }

  /** Or-ing one mask in sets that bit and leaves every other bit alone. */
  lemma SetOneBit(w: bv64, i: nat, j: nat)
    requires i < 64 && j < 64
    ensures HasBit(Or(w, Mask(i)), j) <==> HasBit(w, j) || i == j
  {
    hide Mask;
    hide Meets;
    hide Or;
    if i == j {
      MaskNotZero(j);
      OrSame(w, Mask(i));
    } else {
      DifferentMasks(i, j);
      OrOther(w, Mask(i), Mask(j));
    }
  }

  lemma DifferentMasks(i: nat, j: nat)
    requires i != j
    ensures !Meets(Mask(i), Mask(j))
  {
    hide Mask;
    if i < j {
      MasksDisjoint(i, j);
    } else {
      MasksDisjoint(j, i);
    }
  }

  lemma OrOther(w: bv64, m: bv64, n: bv64)
    requires !Meets(m, n)
    ensures Meets(Or(w, m), n) == Meets(w, n)
  {
    OrZero(n & w);
  }

  lemma OrZero(x: bv64)
    ensures x | 0 == x
  {
  }

  lemma OrSame(w: bv64, m: bv64)
    requires m != 0
    ensures Meets(Or(w, m), m)
  {
  }

  lemma EmptyWord(j: nat)
    ensures !HasBit(0, j)
  {
  }

  // ---------------------------------------------------------------------
  // A word is determined by its 64 bits
  // ---------------------------------------------------------------------

  predicate OneHot(m: bv64) {
    m & (m - 1) == 0
  }

  function Cut(w: bv64, m: bv64): bv64 {
    w & (m - 1)
  }

  /** The bits of w below position n. */
  function Below(w: bv64, n: nat): bv64 {
    Cut(w, Mask(n))
  }

  lemma {:induction false} MaskOneHot(j: nat)
    ensures OneHot(Mask(j))
  {
    if j > 0 {
      MaskOneHot(j - 1);
    }
  }

  lemma OneMoreBit(v: bv64, w: bv64, m: bv64)
    requires OneHot(m) && Cut(v, m) == Cut(w, m)
    requires Meets(v, m) <==> Meets(w, m)
    ensures Cut(v, m << 1) == Cut(w, m << 1)
  {
    SameAtOneHot(v, w, m);
  }

  lemma SameAtOneHot(v: bv64, w: bv64, m: bv64)
    requires OneHot(m) && (Meets(v, m) <==> Meets(w, m))
    ensures v & m == w & m
  {
  }

  lemma {:induction false} SameBelow(v: bv64, w: bv64, n: nat)
    requires forall j :: 0 <= j < n ==> (HasBit(v, j) <==> HasBit(w, j))
    ensures Below(v, n) == Below(w, n)
  {
    hide Below;
    hide HasBit;
    if n > 0 {
      SameBelow(v, w, n - 1);
      BelowStep(v, w, n);
    } else {
      BelowZero(v);
      BelowZero(w);
    }
  }

  lemma BelowStep(v: bv64, w: bv64, n: nat)
    requires n > 0 && Below(v, n - 1) == Below(w, n - 1)
    requires HasBit(v, n - 1) <==> HasBit(w, n - 1)
    ensures Below(v, n) == Below(w, n)
  {
    hide Meets;
    hide OneHot;
    hide Cut;
    MaskOneHot(n - 1);
    var m := Mask(n - 1);
    assert Mask(n) == m << 1;
    OneMoreBit(v, w, m);
  }

  lemma BelowZero(v: bv64)
    ensures Below(v, 0) == 0
  {
  }

  lemma SameBits(v: bv64, w: bv64)
    requires forall j :: 0 <= j < 64 ==> (HasBit(v, j) <==> HasBit(w, j))
    ensures v == w
  {
    hide Meets;
    SameBelow(v, w, 64);
    TopMask();
    assert Mask(64) == Mask(63) << 1;
  }

  // ---------------------------------------------------------------------
  // Counting
  // ---------------------------------------------------------------------

  /** Positions below n that are set. */
  ghost function Ones(w: bv64, n: nat): (c: nat)
    ensures c <= n
  {
    if n == 0 then 0 else Ones(w, n - 1) + (if HasBit(w, n - 1) then 1 else 0)
  }

  ghost predicate SubWord(v: bv64, w: bv64) {
    forall j :: 0 <= j < 64 && HasBit(v, j) ==> HasBit(w, j)
  }

  lemma {:induction false} OnesMonotone(v: bv64, w: bv64, n: nat)
    requires SubWord(v, w) && n <= 64
    ensures Ones(v, n) <= Ones(w, n)
    ensures (exists j :: 0 <= j < n && HasBit(w, j) && !HasBit(v, j)) ==> Ones(v, n) < Ones(w, n)
  {
    if n > 0 {
      OnesMonotone(v, w, n - 1);
    }
  }

  /** A word with a clear bit has fewer than 64 ones. */
  lemma {:induction false} ClearBitLeavesRoom(w: bv64, j: nat, n: nat)
    requires j < n && !HasBit(w, j)
    ensures Ones(w, n) < n
  {
    if j < n - 1 {
      ClearBitLeavesRoom(w, j, n - 1);
    }
  }

  // ---------------------------------------------------------------------
  // A table of words
  // ---------------------------------------------------------------------

  predicate Bit(words: seq<bv64>, idx: nat)
    requires idx / 64 < |words|
  {
    HasBit(words[idx / 64], idx % 64)
  }

  /** The same for any index: false outside the table. */
  predicate BitSet(words: seq<bv64>, idx: nat) {
    idx / 64 < |words| && Bit(words, idx)
  }

  function SetBit(words: seq<bv64>, idx: nat): seq<bv64>
    requires idx / 64 < |words|
  {
    words[idx / 64 := Or(words[idx / 64], Mask(idx % 64))]
  }

  lemma SetBitExact(words: seq<bv64>, idx: nat, other: nat)
    requires idx / 64 < |words| && other / 64 < |words|
    ensures Bit(SetBit(words, idx), other) <==> Bit(words, other) || other == idx
  {
    if idx / 64 == other / 64 {
      SetOneBit(words[idx / 64], idx % 64, other % 64);
    }
  }
}
