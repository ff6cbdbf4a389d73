/** The register of the CRC is the remainder of the message, as a polynomial over the field of
    two elements, by the generator x^16 + x^12 + x^5 + 1. Polynomials are bit strings, highest
    power first; multiplication is carry-less. */
module CrcRemainder {
  import opened Crc
  import opened Wrappers

  /** 1 0001 0000 0010 0001. */
  const GENERATOR: seq<bool> := [true,
                                 false, false, false, true, false, false, false, false,
                                 false, false, true, false, false, false, false, true]

  function Zeros(n: nat): (z: seq<bool>)
    ensures |z| == n && forall i :: 0 <= i < n ==> !z[i]
  {
    if n == 0 then [] else Zeros(n - 1) + [false]
  }

  /** Sum of two polynomials written with the same number of bits. */
  function Sum(a: seq<bool>, b: seq<bool>): (c: seq<bool>)
    requires |a| == |b|
    ensures |c| == |a| && forall i :: 0 <= i < |a| ==> c[i] == (a[i] != b[i])
  {
    seq(|a|, i requires 0 <= i < |a| => a[i] != b[i])
  }

  /** The product with the generator, by the bits of `q` from the highest on: double, and add the
      generator for a one. */
  function Times(q: seq<bool>): (p: seq<bool>)
    ensures |p| == |q| + 16
  {
    if q == [] then Zeros(16)
    else
      var n := |q| - 1;
      Sum(Times(q[..n]) + [false], Zeros(n) + if q[n] then GENERATOR else Zeros(17))
  }

  ghost predicate Multiple(m: seq<bool>) { exists q :: |q| == |m| && Times(q) == Zeros(16) + m }

  lemma TimesMore(q: seq<bool>, b: bool)
    ensures Times(q + [b]) == Sum(Times(q) + [false], Zeros(|q|) + if b then GENERATOR else Zeros(17))
  {
    assert (q + [b])[..|q|] == q;
  }

  /** The same, bit by bit. */
  lemma TimesBit(q: seq<bool>, b: bool, i: nat)
    requires i < |q| + 17
    ensures Times(q + [b])[i] == ((i < |q| + 16 && Times(q)[i]) != (b && i >= |q| && GENERATOR[i - |q|]))
  {
    hide Times, Sum, Zeros, GENERATOR;
    TimesMore(q, b);
    assert |GENERATOR| == 17 by { GeneratorBits(); }
  }

  /** The generator below its highest power is what Shift adds. */
  lemma GeneratorBits()
    ensures |GENERATOR| == 17 && GENERATOR[0] && GENERATOR[16]
    ensures forall i :: 0 <= i < 16 ==> GENERATOR[i + 1] == Poly(i)
  {
  }

  lemma {:induction false} TimesZeros(n: nat)
    ensures Times(Zeros(n)) == Zeros(n + 16)
  {
    if n > 0 {
      TimesZeros(n - 1);
      TimesMore(Zeros(n - 1), false);
    }
  }

  /** Multiplication by x. */
  lemma TimesDoubled(q: seq<bool>)
    ensures Times(q + [false]) == Times(q) + [false]
  {
    hide Times, Sum, Zeros, GENERATOR;
    forall i | 0 <= i < |q| + 17 ensures Times(q + [false])[i] == (Times(q) + [false])[i] {
      TimesBit(q, false, i);
    }
  }

  lemma {:induction false} TimesShifted(q: seq<bool>, n: nat)
    ensures Times(q + Zeros(n)) == Times(q) + Zeros(n)
  {
    hide Times;
    if n == 0 {
      assert q + Zeros(0) == q && Times(q) + Zeros(0) == Times(q);
    } else {
      TimesShifted(q, n - 1);
      assert q + Zeros(n) == q + Zeros(n - 1) + [false];
      TimesDoubled(q + Zeros(n - 1));
      assert Times(q) + Zeros(n) == Times(q) + Zeros(n - 1) + [false];
    }
  }

  lemma {:induction false} TimesPadded(n: nat, q: seq<bool>)
    ensures Times(Zeros(n) + q) == Zeros(n) + Times(q)
    decreases |q|
  {
    hide Times, GENERATOR;
    if q == [] {
      assert Zeros(n) + q == Zeros(n);
      TimesZeros(n);
      TimesZeros(0);
      assert Zeros(0) == [] && Zeros(n) + Zeros(16) == Zeros(n + 16);
    } else {
      var k := |q| - 1;
      var front, b := q[..k], q[k];
      TimesPadded(n, front);
      assert q == front + [b] && Zeros(n) + q == Zeros(n) + front + [b];
      hide Zeros;
      forall i | 0 <= i < n + |q| + 16 ensures Times(Zeros(n) + q)[i] == (Zeros(n) + Times(q))[i] {
        TimesBit(Zeros(n) + front, b, i);
        if i >= n {
          TimesBit(front, b, i - n);
        }
      }
    }
  }

  lemma {:induction false} TimesSum(a: seq<bool>, b: seq<bool>)
    requires |a| == |b|
    ensures Times(Sum(a, b)) == Sum(Times(a), Times(b))
    decreases |a|
  {
    hide Times, GENERATOR, Zeros;
    if a == [] {
      assert Sum(a, b) == [];
      TimesNothing();
      assert Sum(Zeros(16), Zeros(16)) == Zeros(16);
    } else {
      var n := |a| - 1;
      var a0, b0, x, y := a[..n], b[..n], a[n], b[n];
      TimesSum(a0, b0);
      assert a == a0 + [x] && b == b0 + [y];
      assert Sum(a, b) == Sum(a0, b0) + [x != y];
      hide Sum;
      forall i | 0 <= i < |a| + 16 ensures Times(Sum(a, b))[i] == Sum(Times(a), Times(b))[i] {
        TimesBit(a0, x, i);
        TimesBit(b0, y, i);
        TimesBit(Sum(a0, b0), x != y, i);
      }
    }
  }

  lemma TimesNothing()
    ensures Times([]) == Zeros(16)
  {
  }

  // Division

  /** Message times x^16 is quotient times generator plus remainder, which is the register. */
  lemma {:induction false} Divides(m: seq<bool>) returns (q: seq<bool>)
    ensures |q| == |m|
    ensures m + Zeros(16) == Sum(Times(q), Zeros(|m|) + CrcBits(ZERO, m))
    decreases |m|
  {
    if m == [] {
      q := [];
      assert m + Zeros(16) == Sum(Zeros(16), Zeros(0) + ZERO);
    } else {
      var n := |m| - 1;
      var front, b := m[..n], m[n];
      var q0 := Divides(front);
      assert m == front + [b];
      CrcBitsAppend(ZERO, front, [b]);
      var r := CrcBits(ZERO, front);
      OneBit(r, b);
      q := q0 + [r[0] != b];
      DivideOne(front, b, q0, r);
    }
  }

  lemma OneBit(r: register, b: bool)
    ensures CrcBits(r, [b]) == CrcBit(r, b)
  {
    assert [b][1..] == [];
  }

  lemma DivideOne(m: seq<bool>, b: bool, q: seq<bool>, r: register)
    requires |q| == |m| && m + Zeros(16) == Sum(Times(q), Zeros(|m|) + r)
    ensures m + [b] + Zeros(16) == Sum(Times(q + [r[0] != b]), Zeros(|m| + 1) + CrcBit(r, b))
  {
    hide Times, Zeros, GENERATOR, Shift, Poly;
    var n := |m|;
    var out := r[0] != b;
    var t, before := Times(q), m + Zeros(16);
    assert forall i :: 0 <= i < n + 16 ==> before[i] == (t[i] != (Zeros(n) + r)[i]);
    hide Sum;
    var x, y := m + [b] + Zeros(16), Sum(Times(q + [out]), Zeros(n + 1) + CrcBit(r, b));
    forall i | 0 <= i < |x| ensures x[i] == y[i] {
      TimesBit(q, out, i);
      GeneratorBits();
      if i < n {
        assert before[i] == m[i] && !(Zeros(n) + r)[i];
      } else {
        if i > n {
          NextBit(r, b, i - n);
        }
        assert i < n + 16 ==> before[i] == (t[i] != r[i - n]) && !before[i];
      }
    }
  }

  /** The bits of a step below the one that falls out. */
  lemma NextBit(r: register, b: bool, j: nat)
    requires 0 < j <= 16
    ensures CrcBit(r, b)[j - 1] == ((j < 16 && r[j]) != ((r[0] != b) && Poly(j - 1)))
  {
  }

  /** A product whose highest bits are all clear is zero: remainders are unique. */
  lemma {:induction false} TimesSmall(q: seq<bool>)
    requires forall i :: 0 <= i < |q| ==> !Times(q)[i]
    ensures q == Zeros(|q|)
    decreases |q|
  {
    hide Times, GENERATOR;
    if q != [] {
      var n := |q| - 1;
      var front, b := q[..n], q[n];
      assert q == front + [b];
      forall i | 0 <= i < n ensures !Times(front)[i] {
        TimesBit(front, b, i);
      }
      TimesSmall(front);
      TimesZeros(n);
      GeneratorBits();
      TimesBit(front, b, n);
    }
  }

  /** The register is empty exactly if the message times x^16 is a multiple. */
  lemma EmptyExactly(m: seq<bool>)
    ensures CrcBits(ZERO, m) == ZERO <==> exists q :: |q| == |m| && Times(q) == m + Zeros(16)
  {
    hide CrcBits, Times, Zeros, Sum;
    var q0 := Divides(m);
    var r := CrcBits(ZERO, m);
    if r == ZERO {
      assert forall i :: 0 <= i < |m| + 16 ==> !(Zeros(|m|) + r)[i];
      assert Times(q0) == m + Zeros(16) by {
        forall i | 0 <= i < |m| + 16 ensures Times(q0)[i] == (m + Zeros(16))[i] {
        }
      }
    }
    if exists q :: |q| == |m| && Times(q) == m + Zeros(16) {
      var q :| |q| == |m| && Times(q) == m + Zeros(16);
      UniqueRemainder(m, q, q0, r);
    }
  }

  lemma UniqueRemainder(m: seq<bool>, q: seq<bool>, q0: seq<bool>, r: register)
    requires |q| == |q0| == |m| && Times(q) == m + Zeros(16) == Sum(Times(q0), Zeros(|m|) + r)
    ensures r == ZERO
  {
    hide Times, Zeros;
    var rest := Zeros(|m|) + r;
    var d := Sum(q, q0);
    TimesSum(q, q0);
    SumBack(Times(q), Times(q0), rest);
    hide Sum;
    assert forall i :: 0 <= i < |m| ==> !rest[i];
    TimesSmall(d);
    TimesZeros(|m|);
    forall i | 0 <= i < 16 ensures !r[i] {
      assert rest[|m| + i] == r[i];
    }
  }

  lemma SumBack(a: seq<bool>, b: seq<bool>, c: seq<bool>)
    requires |a| == |b| == |c| && a == Sum(b, c)
    ensures Sum(a, b) == c
  {
  }

  /** The generator ends in a one, so trailing zeros of a product are trailing zeros of the
      factor. */
  lemma {:induction false} Strip(m: seq<bool>, q: seq<bool>, n: nat)
    requires Times(q) == m + Zeros(n) && n <= 16
    ensures |q| >= n ==> m == Times(q[..|q| - n])
    ensures |q| < n ==> q == Zeros(|q|)
    decreases n
  {
    hide Times, GENERATOR;
    if n == 0 {
      assert m + Zeros(0) == m && q[..|q|] == q;
    } else if q != [] {
      var k := |q| - 1;
      var front := q[..k];
      assert q == front + [q[k]];
      assert m + Zeros(n) == m + Zeros(n - 1) + [false];
      LastBit(front, q[k]);
      assert !(m + Zeros(n - 1) + [false])[k + 16];
      TimesDoubled(front);
      assert Times(front) == (Times(front) + [false])[..k + 16] == m + Zeros(n - 1);
      Strip(m, front, n - 1);
      if |q| >= n {
        assert q[..|q| - n] == front[..|front| - (n - 1)];
      } else {
        assert Zeros(|q|) == Zeros(k) + [false];
      }
    }
  }

  lemma LastBit(q: seq<bool>, b: bool)
    ensures Times(q + [b])[|q| + 16] == b
  {
    hide Times;
    TimesBit(q, b, |q| + 16);
    GeneratorBits();
  }

  lemma {:induction false} FrontFactor(q: seq<bool>, n: nat)
    requires n <= |q| && forall i :: 0 <= i < n ==> !Times(q)[i]
    ensures q[..n] == Zeros(n)
    decreases |q|
  {
    hide Times, GENERATOR;
    if n == |q| {
      assert q[..n] == q;
      TimesSmall(q);
    } else {
      var k := |q| - 1;
      assert q == q[..k] + [q[k]];
      forall i | 0 <= i < n ensures !Times(q[..k])[i] {
        TimesBit(q[..k], q[k], i);
      }
      FrontFactor(q[..k], n);
      assert q[..n] == q[..k][..n];
    }
  }

  /** Multiples of the generator stay multiples when 16 zeros are added behind them, */
  lemma MultipleShifted(m: seq<bool>)
    requires Multiple(m)
    ensures exists c :: |c| == |m| && Times(c) == m + Zeros(16)
  {
    hide Times;
    var q :| |q| == |m| && Times(q) == Zeros(16) + m;
    var n := if |q| < 16 then |q| else 16;
    FrontFactor(q, n);
    var c := q[n..];
    assert q == Zeros(n) + c;
    TimesPadded(n, c);
    TimesShifted(c, n);
    assert Times(q)[n..] == Times(c);
    if n == 16 {
      assert (Zeros(16) + m)[16..] == m;
      assert |c + Zeros(16)| == |m| && Times(c + Zeros(16)) == m + Zeros(16);
    } else {
      ShortMultiple(q, m);
      assert Times(q) == m + Zeros(16);
    }
  }

  lemma ShortMultiple(q: seq<bool>, m: seq<bool>)
    requires |q| == |m| && q == Zeros(|m|) && (Times(q) == Zeros(16) + m || Times(q) == m + Zeros(16))
    ensures m == Zeros(|m|) && Times(q) == Zeros(16) + m == m + Zeros(16)
  {
    hide Times;
    TimesZeros(|m|);
    var z := Zeros(|m| + 16);
    forall i | 0 <= i < |m| ensures !m[i] {
      assert (Zeros(16) + m)[16 + i] == m[i] && (m + Zeros(16))[i] == m[i] && !z[i] && !z[16 + i];
    }
  }

  /** and only these become multiples so. */
  lemma MultipleStripped(m: seq<bool>, q: seq<bool>)
    requires |q| == |m| && Times(q) == m + Zeros(16)
    ensures Multiple(m)
  {
    hide Times;
    Strip(m, q, 16);
    if |q| >= 16 {
      var c := q[..|q| - 16];
      TimesPadded(16, c);
      assert |Zeros(16) + c| == |m|;
    } else {
      ShortMultiple(q, m);
    }
  }

  /** Feeding bits to the empty register leaves it empty if and only if they are a multiple of
      the generator. */
  lemma RemainderExactly(m: seq<bool>)
    ensures CrcBits(ZERO, m) == ZERO <==> Multiple(m)
  {
    hide CrcBits, Times, Zeros;
    EmptyExactly(m);
    if exists q :: |q| == |m| && Times(q) == m + Zeros(16) {
      var q :| |q| == |m| && Times(q) == m + Zeros(16);
      MultipleStripped(m, q);
    }
    if Multiple(m) {
      MultipleShifted(m);
    }
  }

  // The initial value and the order of bits

  function Opposite(r: register): (o: register) { seq(16, i requires 0 <= i < 16 => !r[i]) }

  /** A message with its first 16 bits inverted. */
  function Inverted(m: seq<bool>): (n: seq<bool>)
    requires |m| >= 16
    ensures |n| == |m|
  {
    Opposite(m[..16]) + m[16..]
  }

  /** Starting from 0xFFFF inverts the first 16 bits. */
  lemma InitialInverts(m: seq<bool>)
    requires |m| >= 16
    ensures CrcBits(INITIAL, m) == CrcBits(ZERO, Inverted(m))
  {
    hide CrcBits, Opposite, XorTop, Ones;
    var first: register, rest := m[..16], m[16..];
    assert m == first + rest;
    CrcBitsAppend(INITIAL, first, rest);
    CrcBitsAppend(ZERO, Opposite(first), rest);
    TopIsBits(INITIAL, first);
    TopIsBits(ZERO, Opposite(first));
    TopInverts(first);
  }

  lemma TopInverts(first: register)
    ensures XorTop(INITIAL, first) == XorTop(ZERO, Opposite(first))
  {
    OnesAre(16);
  }

  lemma {:induction false} OnesAre(n: nat)
    ensures forall i :: 0 <= i < n ==> Ones(n)[i]
  {
    if n > 0 {
      OnesAre(n - 1);
    }
  }

  /** The highest bit comes first. */
  lemma {:induction false} ValueFirst(b: bool, s: seq<bool>)
    ensures Value([b] + s) == (if b then Pow2(|s|) else 0) + Value(s)
    decreases |s|
  {
    var all := [b] + s;
    if s == [] {
      assert all[..0] == [];
    } else {
      var n := |s| - 1;
      ValueFirst(b, s[..n]);
      assert all[..n + 1] == [b] + s[..n];
    }
  }

  /** The CRC of a message of two bytes or more: the one string of 16 bits behind its bits, 8 a
      byte, highest first, that makes them a multiple of the generator once the first 16 bits
      are inverted. */
  lemma CrcExactly(bs: seq<byte>, crc: register)
    requires |bs| >= 2
    ensures |MessageBits(bs)| == 8 * |bs|
    ensures crc == CrcBytes(INITIAL, bs) <==> Multiple(Inverted(MessageBits(bs) + crc))
  {
    hide CrcBits, CrcBytes, Times, Inverted, Multiple;
    MessageLength(bs);
    var m := MessageBits(bs);
    hide MessageBits;
    InitialInverts(m + crc);
    RemainderExactly(Inverted(m + crc));
    BytesAreBits(INITIAL, bs);
    CrcBitsAppend(INITIAL, m, crc);
    OwnBits(crc);
    if CrcBits(INITIAL, m + crc) == ZERO {
      BitsInjective(CrcBytes(INITIAL, bs), crc, crc);
    }
  }

  lemma {:induction false} MessageLength(bs: seq<byte>)
    ensures |MessageBits(bs)| == 8 * |bs|
    decreases |bs|
  {
    if bs != [] {
      MessageLength(bs[1..]);
    }
  }

  /** The bits of a message are those of its bytes in order. */
  lemma {:induction false} MessageBitAt(bs: seq<byte>, i: nat, j: nat)
    requires i < |bs| && j < 8
    ensures |MessageBits(bs)| == 8 * |bs| && MessageBits(bs)[8 * i + j] == Bits(bs[i], 8)[j]
    decreases |bs|
  {
    MessageLength(bs);
    if i > 0 {
      MessageBitAt(bs[1..], i - 1, j);
      assert MessageBits(bs)[8 * i + j] == MessageBits(bs[1..])[8 * (i - 1) + j];
    }
  }
}
