/** Bytes as numbers and as bits, the most significant bit first. */
module Bytes {
  lemma ByteOfInt(k: int)
    requires 0 <= k < 256
    ensures (k as bv8) as int == k
  {}

  predicate BitAt(b: bv8, p: nat)
    requires p < 8
  {
    (b >> (7 - p)) & 1 == 1
  }

  lemma SetBit(b: bv8, p: nat, q: nat)
    requires p < 8 && q < 8
    ensures BitAt(b | (0x80 >> p), q) == (p == q || BitAt(b, q))
  {
    hide BitAt;
    SingleBit(p);
    SetBitAt(b, 0x80 >> p, p, q);
  }

  lemma SingleBit(p: nat)
    requires p < 8
    ensures (0x80 as bv8) >> p == if p == 0 then 0x80 else if p == 1 then 0x40 else if p == 2 then 0x20 else if p == 3 then 0x10
      else if p == 4 then 0x08 else if p == 5 then 0x04 else if p == 6 then 0x02 else 0x01
  {
    if {
      case p == 0 =>
      case p == 1 =>
      case p == 2 =>
      case p == 3 =>
      case p == 4 =>
      case p == 5 =>
      case p == 6 =>
      case p == 7 =>
    }
  }

  lemma SetBitAt(b: bv8, m: bv8, p: nat, q: nat)
    requires p < 8 && q < 8
    requires m == if p == 0 then 0x80 else if p == 1 then 0x40 else if p == 2 then 0x20 else if p == 3 then 0x10
      else if p == 4 then 0x08 else if p == 5 then 0x04 else if p == 6 then 0x02 else 0x01
    ensures BitAt(b | m, q) == (p == q || BitAt(b, q))
  {
    if {
      case q == 0 =>
      case q == 1 =>
      case q == 2 =>
      case q == 3 =>
      case q == 4 =>
      case q == 5 =>
      case q == 6 =>
      case q == 7 =>
    }
  }

  lemma BytesEqual(a: bv8, b: bv8)
    requires forall p: nat | p < 8 :: BitAt(a, p) == BitAt(b, p)
    ensures a == b
  {
    assert BitAt(a, 0) == BitAt(b, 0) && BitAt(a, 1) == BitAt(b, 1) && BitAt(a, 2) == BitAt(b, 2) && BitAt(a, 3) == BitAt(b, 3);
    assert BitAt(a, 4) == BitAt(b, 4) && BitAt(a, 5) == BitAt(b, 5) && BitAt(a, 6) == BitAt(b, 6) && BitAt(a, 7) == BitAt(b, 7);
  }

  lemma ZeroBits(p: nat)
    requires p < 8
    ensures !BitAt(0, p)
  {
    if {
      case p == 0 =>
      case p == 1 =>
      case p == 2 =>
      case p == 3 =>
      case p == 4 =>
      case p == 5 =>
      case p == 6 =>
      case p == 7 =>
    }
  }

  lemma BitMask(p: nat)
    requires p < 8
    ensures (1 as bv8) << (7 - p) == (0x80 as bv8) >> p
  {
    if {
      case p == 0 =>
      case p == 1 =>
      case p == 2 =>
      case p == 3 =>
      case p == 4 =>
      case p == 5 =>
      case p == 6 =>
      case p == 7 =>
    }
  }

  lemma OrNothing(b: bv8, s: nat)
    requires s < 8
    ensures b | ((0 as bv8) << s) == b
  {}

  lemma TopBit(b: bv8, p: nat)
    requires p < 8
    ensures (b << p) & 0x80 != 0 <==> BitAt(b, p)
  {
    if {
      case p == 0 =>
      case p == 1 =>
      case p == 2 =>
      case p == 3 =>
      case p == 4 =>
      case p == 5 =>
      case p == 6 =>
      case p == 7 =>
    }
  }

  /** The byte with the given bits, the most significant first. */
  function ByteOf(b0: bool, b1: bool, b2: bool, b3: bool, b4: bool, b5: bool, b6: bool, b7: bool): bv8 {
    (if b0 then 0x80 else 0) | (if b1 then 0x40 else 0) | (if b2 then 0x20 else 0) | (if b3 then 0x10 else 0)
    | (if b4 then 0x08 else 0) | (if b5 then 0x04 else 0) | (if b6 then 0x02 else 0) | (if b7 then 0x01 else 0)
  }

  lemma ByteOfBits(b0: bool, b1: bool, b2: bool, b3: bool, b4: bool, b5: bool, b6: bool, b7: bool, p: nat)
    requires p < 8
    ensures BitAt(ByteOf(b0, b1, b2, b3, b4, b5, b6, b7), p) ==
      if p == 0 then b0 else if p == 1 then b1 else if p == 2 then b2 else if p == 3 then b3
      else if p == 4 then b4 else if p == 5 then b5 else if p == 6 then b6 else b7
  {
    if {
      case p == 0 =>
      case p == 1 =>
      case p == 2 =>
      case p == 3 =>
      case p == 4 =>
      case p == 5 =>
      case p == 6 =>
      case p == 7 =>
    }
  }
}
