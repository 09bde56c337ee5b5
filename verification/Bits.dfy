/** A fixed set of 128 small numbers in two 64-bit words, each word written out bit by bit. */
module Bits {

  function Zeros(): (z: seq<bool>)
    ensures |z| == 64 && forall i | 0 <= i < 64 :: !z[i]
  {
    seq(64, i => false)
  }

  type Word = w: seq<bool> | |w| == 64 witness Zeros()

  datatype Bits = Bits(w0: Word, w1: Word)

  const ZERO: Word := Zeros()
  const NONE := Bits(ZERO, ZERO)

  /** The bitwise operations of the machine word. */
  function Or(a: Word, b: Word): Word {
    seq(64, i requires 0 <= i < 64 => a[i] || b[i])
  }

  function And(a: Word, b: Word): Word {
    seq(64, i requires 0 <= i < 64 => a[i] && b[i])
  }

  function Shl1(n: nat): Word
    requires n < 64
  {
    seq(64, i => i == n)
  }

  function WordAt(b: Bits, k: nat): Word
    requires k < 2
  {
    if k == 0 then b.w0 else b.w1
  }

  function Set(b: Bits, i: nat): Bits
    requires i < 128
  {
    if i / 64 == 0 then b.(w0 := Or(b.w0, Shl1(i % 64))) else b.(w1 := Or(b.w1, Shl1(i % 64)))
  }

  predicate Overlaps(b: Bits, o: Bits) {
    And(b.w0, o.w0) != ZERO || And(b.w1, o.w1) != ZERO
  }

  /** Membership. */
  predicate Has(b: Bits, i: nat)
    requires i < 128
  {
    WordAt(b, i / 64)[i % 64]
  }

  /** Setting a bit adds exactly that number. */
  lemma SetAdds(b: Bits, i: nat, j: nat)
    requires i < 128 && j < 128
    ensures Has(Set(b, i), j) <==> Has(b, j) || i == j
  {
  }

  lemma NonZero(w: Word)
    ensures w != ZERO <==> exists i: nat :: i < 64 && w[i]
  {
    if forall i: nat | i < 64 :: !w[i] {
      assert w == ZERO;
    }
  }

  /** Two bitsets overlap exactly when the sets they hold do. */
  lemma OverlapIsIntersection(b: Bits, o: Bits)
    ensures Overlaps(b, o) <==> exists i: nat :: i < 128 && Has(b, i) && Has(o, i)
  {
    NonZero(And(b.w0, o.w0));
    NonZero(And(b.w1, o.w1));
    if i: nat :| i < 64 && And(b.w0, o.w0)[i] {
      assert Has(b, i) && Has(o, i);
    }
    if i: nat :| i < 64 && And(b.w1, o.w1)[i] {
      assert Has(b, i + 64) && Has(o, i + 64);
    }
    if i: nat :| i < 128 && Has(b, i) && Has(o, i) {
      assert And(WordAt(b, i / 64), WordAt(o, i / 64))[i % 64];
    }
  }

  lemma NoneHasNone(b: Bits)
    ensures b == NONE <==> forall i: nat | i < 128 :: !Has(b, i)
  {
    if forall i: nat | i < 128 :: !Has(b, i) {
      forall i: nat | i < 64 ensures !b.w0[i] && !b.w1[i] {
        assert !Has(b, i) && !Has(b, i + 64);
      }
      NonZero(b.w0);
      NonZero(b.w1);
    }
  }
}
