/** The subdevice-flag bitfield `SDF` of src/flags.rs.

    An `SDF` wraps one 32-bit word. `is_set` asks whether the two words share
    a bit and `set` ORs another word in, in place. The named flags
    (`SDF::BUSY`, `SDF::READABLE`, ...) are `SDF` values over driver constants
    that are not known here; every statement below holds for all words, so it
    holds for each of them. */
module Flags {
  import opened Types

  class SDF {
    var value: Word

    /** `SDF::new` stores the word unchanged. */
    constructor New(value: Word)
      ensures this.value == value
    {
      this.value := value;
    }

    /** `is_set`: the two words share a bit. */
    function IsSet(other: SDF): (hit: bool)
      reads this, other
      ensures hit <==> SharesBit(value, other.value)
    {
      var a, b := value, other.value;
      SharedBit(a, b);
      a & b != 0
    }

    /** `set`: OR the bits of `other` into this word. Rust moves `other` in by
        value, so it is never this same flag set. */
    method Set(other: SDF)
      requires other != this
      modifies this
      ensures value == old(value) | other.value
    {
      value := value | other.value;
    }
  }

  // ---------------------------------------------------------------------
  // Bits of a word, as the meaning of `is_set`.

  /** `m` has exactly one bit set. */
  predicate SingleBit(m: Word) {
    m != 0 && m & (m - 1) == 0
  }

  /** `w` has every bit of `m` set. */
  predicate HasBit(w: Word, m: Word) {
    w & m == m
  }

  /** The lowest set bit of a non-zero word, `x & -x`, is a single bit of it. */
  lemma LowestSetBit(x: Word)
    requires x != 0
    ensures SingleBit(x & (0 - x)) && HasBit(x, x & (0 - x))
  {
    assert x & (0 - x) != 0;
    assert (x & (0 - x)) & ((x & (0 - x)) - 1) == 0;
  }

  /** A bit of `a & b` is a bit of both. */
  lemma BitOfMeet(a: Word, b: Word, m: Word)
    requires HasBit(a & b, m)
    ensures HasBit(a, m) && HasBit(b, m)
  {
  }

  /** A single bit of both survives in `a & b`. */
  lemma MeetOfBit(a: Word, b: Word, m: Word)
    requires SingleBit(m) && HasBit(a, m) && HasBit(b, m)
    ensures a & b != 0
  {
    assert (a & b) & m == m;
  }

  /** Two words whose AND is non-zero share a single bit. */
  lemma MeetHasSharedBit(a: Word, b: Word)
    requires a & b != 0
    ensures exists m :: SingleBit(m) && HasBit(a, m) && HasBit(b, m)
  {
    var x := a & b;
    LowestSetBit(x);
    BitOfMeet(a, b, x & (0 - x));
  }

  /** Some single bit is set in both words. */
  ghost predicate SharesBit(a: Word, b: Word) {
    exists m :: SingleBit(m) && HasBit(a, m) && HasBit(b, m)
  }

  /** The AND of two words is non-zero exactly when they share a bit. */
  lemma SharedBit(a: Word, b: Word)
    ensures a & b != 0 <==> SharesBit(a, b)
  {
    if a & b != 0 {
      MeetHasSharedBit(a, b);
    } else {
      forall m | SingleBit(m) && HasBit(a, m) && HasBit(b, m) ensures false {
        MeetOfBit(a, b, m);
      }
    }
  }

  // ---------------------------------------------------------------------

  /** `is_set` is symmetric, and nothing is set in or against an empty word. */
  lemma IsSetSymmetric(a: SDF, b: SDF)
    ensures a.IsSet(b) <==> b.IsSet(a)
    ensures a.value == 0 || b.value == 0 ==> !a.IsSet(b)
  {
  }

  /** What `set` does to the word: setting twice is setting once, the order
      of two sets does not matter, and a flag that was set stays set. */
  lemma SetLaws(v: Word, f: Word, g: Word)
    ensures (v | f) | f == v | f
    ensures (v | f) | g == (v | g) | f
    ensures v & g != 0 ==> (v | f) & g != 0
    ensures v & (v | f) == v
    ensures f != 0 ==> (v | f) & f != 0
  {
  }

  /** Starting from `SDF::new(0)`, set `a`, then test `b`: the answer is
      whether `a` and `b` share a bit. So a non-zero flag tests as set after
      setting it, and a flag disjoint from it does not. */
  method SetThenTest(a: Word, b: Word) returns (hit: bool)
    ensures hit <==> a & b != 0
  {
    var x := new SDF.New(0);
    var fa := new SDF.New(a);
    x.Set(fa);
    var fb := new SDF.New(b);
    hit := x.IsSet(fb);
  }
}
