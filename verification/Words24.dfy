/** Arithmetic of 24-bit COR24 words, held as numbers in [0, 2^24). */
module Words24 {
  const MODULUS: int := 0x100_0000
  const HALF: int := 0x80_0000
  /** Fixnums are 22-bit signed payloads. */
  const FIX_MODULUS: int := 0x40_0000
  const FIX_HALF: int := 0x20_0000

  type fixnum = n: int | -0x20_0000 <= n < 0x20_0000

  function Wrap(x: int): (w: int)
    ensures 0 <= w < MODULUS
  {
    x % MODULUS
  }

  /** The signed reading of a word. */
  function Signed(w: int): int { if w < HALF then w else w - MODULUS }

  /** The 22-bit payload that a sum, difference or product wraps to. */
  function Fold(x: int): (n: fixnum) { (x + FIX_HALF) % FIX_MODULUS - FIX_HALF }

  /** The tagged word of fixnum `n`. */
  function FixWord(n: int): (w: int)
    ensures 0 <= w < MODULUS
  {
    Wrap(4 * n)
  }

  /** Arithmetic shift right by `k`. */
  function Sra(w: int, k: nat): (r: int)
    requires 0 <= w < MODULUS
    ensures 0 <= r < MODULUS
  {
    if k == 0 then w else Wrap(Signed(Sra(w, k - 1)) / 2)
  }

  function BitAnd(a: nat, b: nat): nat {
    if a == 0 || b == 0 then 0 else (a % 2) * (b % 2) + 2 * BitAnd(a / 2, b / 2)
  }

  lemma AndTag(w: nat)
    ensures BitAnd(w, 3) == w % 4
  {
    if w != 0 {
      assert BitAnd(w, 3) == w % 2 + 2 * BitAnd(w / 2, 1);
      if w / 2 != 0 {
        assert BitAnd(w / 2, 1) == (w / 2) % 2 + 2 * BitAnd(w / 4, 0);
      }
    }
  }

  lemma WrapShift(x: int, k: int)
    ensures Wrap(x + k * MODULUS) == Wrap(x)
  {
  }

  lemma WrapUnique(x: int, w: int, k: int)
    requires 0 <= w < MODULUS && x == w + k * MODULUS
    ensures Wrap(x) == w
  {
  }

  /** Tagging commutes with wrapping: adding tagged words adds the payloads. */
  lemma FixWordFold(x: int)
    ensures FixWord(Fold(x)) == Wrap(4 * x)
  {
    var q := (x + FIX_HALF) / FIX_MODULUS;
    assert Fold(x) == x - q * FIX_MODULUS;
    WrapShift(4 * x, -q);
  }

  lemma FixSigned(n: fixnum)
    ensures Signed(FixWord(n)) == 4 * n
  {
    if n < 0 { WrapUnique(4 * n, 4 * n + MODULUS, -1); }
  }

  lemma FixAdd(a: fixnum, b: fixnum)
    ensures Wrap(FixWord(a) + FixWord(b)) == FixWord(Fold(a + b))
  {
    FixSigned(a);
    FixSigned(b);
    FixWordFold(a + b);
  }

  lemma FixSub(a: fixnum, b: fixnum)
    ensures Wrap(FixWord(a) - FixWord(b)) == FixWord(Fold(a - b))
  {
    FixSigned(a);
    FixSigned(b);
    FixWordFold(a - b);
  }

  lemma FixLess(a: fixnum, b: fixnum)
    ensures Signed(FixWord(a)) < Signed(FixWord(b)) <==> a < b
  {
    FixSigned(a);
    FixSigned(b);
  }

  lemma FixEqual(a: fixnum, b: fixnum)
    ensures FixWord(a) == FixWord(b) <==> a == b
  {
    FixSigned(a);
    FixSigned(b);
  }

  /** Shifting right by two removes the tag. */
  lemma Untag(n: fixnum)
    ensures Sra(FixWord(n), 2) == Wrap(n)
  {
    FixSigned(n);
    assert Sra(FixWord(n), 1) == Wrap(2 * n);
    assert Signed(Wrap(2 * n)) == 2 * n;
  }

  /** One tagged and one untagged factor give the tagged product. */
  lemma FixMul(a: fixnum, b: fixnum)
    ensures Wrap(FixWord(a) * Wrap(b)) == FixWord(Fold(a * b))
  {
    var i := if a < 0 then 1 else 0;
    var j := if b < 0 then 1 else 0;
    assert FixWord(a) == 4 * a + i * MODULUS by { FixSigned(a); }
    assert Wrap(b) == b + j * MODULUS by { if b < 0 { WrapUnique(b, b + MODULUS, -1); } }
    var k := 4 * a * j + i * b + i * j * MODULUS;
    assert FixWord(a) * Wrap(b) == 4 * (a * b) + k * MODULUS by {
      MulOut(4 * a, i, b, j);
      assert 4 * a * b == 4 * (a * b);
    }
    WrapShift(4 * (a * b), k);
    FixWordFold(a * b);
  }

  lemma MulOut(x: int, i: int, y: int, j: int)
    ensures (x + i * MODULUS) * (y + j * MODULUS) == x * y + (x * j + i * y + i * j * MODULUS) * MODULUS
  {
  }
}
