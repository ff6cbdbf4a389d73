/** The CRC of the te2 protocol: generator x^16 + x^12 + x^5 + 1 (ITU-T Recommendation
    V.41, section 2), initial value 0xFFFF, most significant bit first.

    Registers and machine words are bit strings, most significant bit first. */
module Crc {
  import opened Wrappers

  type register = r: seq<bool> | |r| == 16 witness seq(16, _ => false)

  /** 0xFFFF. */
  const INITIAL: register := Ones(16)

  function Ones(n: nat): (s: seq<bool>)
    ensures |s| == n
  {
    if n == 0 then [] else Ones(n - 1) + [true]
  }

  /** The ones of 0x1021, counted from the most significant of 16 bits. */
  predicate Poly(i: int) { i == 3 || i == 10 || i == 15 }

  /** One step of the register, shifting towards the top: the bit that falls out decides
      whether the generator is added. */
  function Shift(r: register): (r': register)
    ensures forall i :: 0 <= i < 16 ==> r'[i] == ((i < 15 && r[i + 1]) != (r[0] && Poly(i)))
  {
    seq(16, i requires 0 <= i < 16 => (i < 15 && r[i + 1]) != (r[0] && Poly(i)))
  }

  function Shifts(r: register, n: nat): register {
    if n == 0 then r else Shift(Shifts(r, n - 1))
  }

  /** Bit string `q` added to the top of the register. */
  function XorTop(r: register, q: seq<bool>): (r': register)
    ensures forall i :: 0 <= i < 16 ==> r'[i] == (r[i] != (i < |q| && q[i]))
  {
    seq(16, i requires 0 <= i < 16 => r[i] != (i < |q| && q[i]))
  }

  /** The bits of the number `v`, `n` of them. */
  function Bits(v: nat, n: nat): (s: seq<bool>)
    ensures |s| == n
  {
    if n == 0 then [] else Bits(v / 2, n - 1) + [v % 2 == 1]
  }

  /** The number a bit string stands for. */
  function Value(s: seq<bool>): nat {
    if s == [] then 0 else 2 * Value(s[..|s| - 1]) + if s[|s| - 1] then 1 else 0
  }

  /** One byte: into the upper half, then eight steps. */
  function CrcByte(r: register, b: byte): register { Shifts(XorTop(r, Bits(b, 8)), 8) }

  /** The CRC of a message, byte by byte. */
  function CrcBytes(r: register, bs: seq<byte>): register
    decreases |bs|
  {
    if bs == [] then r else CrcBytes(CrcByte(r, bs[0]), bs[1..])
  }

  lemma CrcNext(r: register, bs: seq<byte>, i: nat)
    requires i < |bs|
    ensures CrcBytes(r, bs[i..]) == CrcBytes(CrcByte(r, bs[i]), bs[i + 1..])
  {
    assert bs[i..][1..] == bs[i + 1..];
  }

  lemma CrcNothing(r: register)
    ensures CrcBytes(r, []) == r
  {
  }

  // Machine words: wider than the register

  /** The lowest 16 bits. */
  function Low(w: seq<bool>): (r: register)
    requires |w| >= 16
    ensures forall i :: 0 <= i < 16 ==> r[i] == w[|w| - 16 + i]
  {
    w[|w| - 16..]
  }

  /** w ^= v << 8 for a byte `v`. */
  function XorByte(w: seq<bool>, v: seq<bool>): (w': seq<bool>)
    requires |w| >= 16 && |v| == 8
    ensures |w'| == |w|
  {
    var n := |w| - 16;
    seq(|w|, i requires 0 <= i < |w| => w[i] != (n <= i < n + 8 && v[i - n]))
  }

  lemma XorByteLow(w: seq<bool>, v: seq<bool>)
    requires |w| >= 16 && |v| == 8
    ensures Low(XorByte(w, v)) == XorTop(Low(w), v)
  {
    var a, b := Low(XorByte(w, v)), XorTop(Low(w), v);
    forall i | 0 <= i < 16 ensures a[i] == b[i] {
      assert a[i] == XorByte(w, v)[|w| - 16 + i] && Low(w)[i] == w[|w| - 16 + i];
    }
  }

  /** w ^= 0x1021. */
  function XorPoly(w: seq<bool>): (w': seq<bool>)
    requires |w| >= 16
    ensures |w'| == |w|
  {
    seq(|w|, i requires 0 <= i < |w| => w[i] != Poly(i - (|w| - 16)))
  }

  /** w <<= 1. */
  function DoubleWord(w: seq<bool>): (w': seq<bool>)
    requires w != []
    ensures |w'| == |w|
  {
    w[1..] + [false]
  }

  /** w &= 0xffff. */
  function MaskWord(w: seq<bool>): seq<bool>
    requires |w| >= 16
  {
    seq(|w|, i requires 0 <= i < |w| => i >= |w| - 16 && w[i])
  }

  /** The conditional step of either program acts on the lowest 16 bits as Shift does,
      whatever stands above them. */
  lemma WordStep(w: seq<bool>)
    requires |w| >= 17
    ensures w[|w| - 16] == Low(w)[0]
    ensures Low(if Low(w)[0] then XorPoly(DoubleWord(w)) else DoubleWord(w)) == Shift(Low(w))
  {
    var w' := if Low(w)[0] then XorPoly(DoubleWord(w)) else DoubleWord(w);
    var n := |w| - 16;
    forall i | 0 <= i < 16 ensures Low(w')[i] == Shift(Low(w))[i] {
      assert Low(w')[i] == w'[n + i];
      assert i < 15 ==> Low(w)[i + 1] == w[n + i + 1];
    }
  }

  /** The upper bits are clear. */
  predicate Masked(w: seq<bool>) { |w| >= 16 && forall i :: 0 <= i < |w| - 16 ==> !w[i] }

  lemma MaskKeeps(w: seq<bool>)
    requires |w| >= 16
    ensures |MaskWord(w)| == |w| && Masked(MaskWord(w)) && Low(MaskWord(w)) == Low(w)
  {
    forall i | 0 <= i < 16 ensures Low(MaskWord(w))[i] == Low(w)[i] {
      assert Low(MaskWord(w))[i] == MaskWord(w)[|w| - 16 + i];
    }
  }

  /** The loader's crcbyte, on 24-bit words, masking after every step. */
  method TargetCrcByte(crc: seq<bool>, b: byte) returns (r: seq<bool>)
    requires |crc| == 24 && Masked(crc)
    ensures |r| == 24 && Masked(r) && Low(r) == CrcByte(Low(crc), b)
  {
    hide Low, Masked, MaskWord, XorPoly, DoubleWord, XorByte, Shift, XorTop, Bits;
    XorByteLow(crc, Bits(b, 8));
    r := XorByte(crc, Bits(b, 8));
    ghost var start := Low(r);
    var bit := 8;
    while bit > 0
      invariant 0 <= bit <= 8 && |r| == 24
      invariant bit < 8 ==> Masked(r)
      invariant Low(r) == Shifts(start, 8 - bit)
    {
      WordStep(r);
      if r[8] {
        r := XorPoly(DoubleWord(r));
      } else {
        r := DoubleWord(r);
      }
      MaskKeeps(r);
      r := MaskWord(r);
      bit := bit - 1;
    }
  }

  /** The host's crc_byte, on 32-bit words, masking once at the end: the bits that run
      past bit 15 on the way never come back. */
  method HostCrcByte(crc: seq<bool>, b: byte) returns (r: seq<bool>)
    requires |crc| == 32
    ensures |r| == 32 && Masked(r) && Low(r) == CrcByte(Low(crc), b)
  {
    hide Low, Masked, MaskWord, XorPoly, DoubleWord, XorByte, Shift, XorTop, Bits;
    XorByteLow(crc, Bits(b, 8));
    r := XorByte(crc, Bits(b, 8));
    ghost var start := Low(r);
    var bit := 0;
    while bit < 8
      invariant 0 <= bit <= 8 && |r| == 32
      invariant Low(r) == Shifts(start, bit)
    {
      WordStep(r);
      if r[16] {
        r := XorPoly(DoubleWord(r));
      } else {
        r := DoubleWord(r);
      }
      bit := bit + 1;
    }
    MaskKeeps(r);
    r := MaskWord(r);
  }

  // The register bit by bit

  /** One step with one message bit. */
  function CrcBit(r: register, b: bool): register { Shift(r[0 := r[0] != b]) }

  function CrcBits(r: register, bits: seq<bool>): register
    decreases |bits|
  {
    if bits == [] then r else CrcBits(CrcBit(r, bits[0]), bits[1..])
  }

  function MessageBits(bs: seq<byte>): seq<bool> {
    if bs == [] then [] else Bits(bs[0], 8) + MessageBits(bs[1..])
  }

  lemma {:induction false} ShiftsFirst(r: register, n: nat)
    ensures Shifts(r, n + 1) == Shifts(Shift(r), n)
  {
    if n > 0 {
      ShiftsFirst(r, n - 1);
    }
  }

  lemma FeedTop(r: register, q: seq<bool>)
    requires 0 < |q| <= 16
    ensures Shift(XorTop(r, q)) == XorTop(CrcBit(r, q[0]), q[1..])
  {
    var a, b := Shift(XorTop(r, q)), XorTop(CrcBit(r, q[0]), q[1..]);
    forall i | 0 <= i < 16 ensures a[i] == b[i] {
      if i < 15 { assert XorTop(r, q)[i + 1] == (r[i + 1] != (i + 1 < |q| && q[i + 1])); }
    }
  }

  /** Adding bits to the top at once is feeding them one at a time. */
  lemma {:induction false} TopIsBits(r: register, q: seq<bool>)
    requires |q| <= 16
    ensures Shifts(XorTop(r, q), |q|) == CrcBits(r, q)
    decreases |q|
  {
    if q == [] {
      assert XorTop(r, q) == r;
    } else {
      FeedTop(r, q);
      ShiftsFirst(XorTop(r, q), |q| - 1);
      TopIsBits(CrcBit(r, q[0]), q[1..]);
    }
  }

  lemma {:induction false} CrcBitsAppend(r: register, a: seq<bool>, b: seq<bool>)
    ensures CrcBits(r, a + b) == CrcBits(CrcBits(r, a), b)
    decreases |a|
  {
    if a == [] {
      assert a + b == b;
    } else {
      assert (a + b)[0] == a[0] && (a + b)[1..] == a[1..] + b;
      CrcBitsAppend(CrcBit(r, a[0]), a[1..], b);
    }
  }

  lemma {:induction false} BytesAreBits(r: register, bs: seq<byte>)
    ensures CrcBytes(r, bs) == CrcBits(r, MessageBits(bs))
    decreases |bs|
  {
    if bs != [] {
      TopIsBits(r, Bits(bs[0], 8));
      BytesAreBits(CrcByte(r, bs[0]), bs[1..]);
      CrcBitsAppend(r, Bits(bs[0], 8), MessageBits(bs[1..]));
    }
  }

  // Burst detection

  /** The lowest bit after a step tells what fell out at the top. */
  lemma StepInjective(r: register, s: register, b: bool)
    requires CrcBit(r, b) == CrcBit(s, b)
    ensures r == s
  {
    var r', s' := CrcBit(r, b), CrcBit(s, b);
    assert r'[15] == (r[0] != b) && s'[15] == (s[0] != b);
    forall i | 0 <= i < 16 ensures r[i] == s[i] {
      if i > 0 {
        assert r'[i - 1] == (r[i] != ((r[0] != b) && Poly(i - 1)));
        assert s'[i - 1] == (s[i] != ((s[0] != b) && Poly(i - 1)));
      }
    }
  }

  lemma {:induction false} BitsInjective(r: register, s: register, bits: seq<bool>)
    requires CrcBits(r, bits) == CrcBits(s, bits)
    ensures r == s
    decreases |bits|
  {
    if bits != [] {
      BitsInjective(CrcBit(r, bits[0]), CrcBit(s, bits[0]), bits[1..]);
      StepInjective(r, s, bits[0]);
    }
  }

  /** Registers that meet after at most 16 bits differed, from the top, in exactly the
      places where the bits did. */
  lemma {:induction false} Meet(r: register, s: register, u: seq<bool>, v: seq<bool>)
    requires |u| == |v| <= 16 && CrcBits(r, u) == CrcBits(s, v)
    ensures forall i :: 0 <= i < 16 ==> (r[i] != s[i]) == (i < |u| && u[i] != v[i])
    decreases |u|
  {
    if u != [] {
      var r', s' := CrcBit(r, u[0]), CrcBit(s, v[0]);
      Meet(r', s', u[1..], v[1..]);
      assert r'[15] == (r[0] != u[0]) && s'[15] == (s[0] != v[0]);
      forall i | 0 <= i < 16 ensures (r[i] != s[i]) == (i < |u| && u[i] != v[i]) {
        if i > 0 {
          assert r'[i - 1] == (r[i] != ((r[0] != u[0]) && Poly(i - 1)));
          assert s'[i - 1] == (s[i] != ((s[0] != v[0]) && Poly(i - 1)));
          assert i < |u| ==> u[1..][i - 1] == u[i] && v[1..][i - 1] == v[i];
        }
      }
    }
  }

  lemma SameStart(r: register, u: seq<bool>, v: seq<bool>)
    requires |u| == |v| <= 16 && CrcBits(r, u) == CrcBits(r, v)
    ensures u == v
  {
    Meet(r, r, u, v);
  }

  /** The bit strings agree but for a window of at most 16 bits that starts at `i`. */
  ghost predicate Burst(x: seq<bool>, y: seq<bool>, i: nat, n: nat) {
    && |x| == |y| && i + n <= |x| && n <= 16
    && x[..i] == y[..i] && x[i + n..] == y[i + n..]
  }

  lemma Around(x: seq<bool>, i: nat, n: nat)
    requires i + n <= |x|
    ensures x == x[..i] + (x[i..i + n] + x[i + n..])
  {
  }

  lemma SameCrcSameBits(r: register, x: seq<bool>, y: seq<bool>, i: nat, n: nat)
    requires Burst(x, y, i, n) && CrcBits(r, x) == CrcBits(r, y)
    ensures x == y
  {
    hide CrcBits;
    var p, u, v, q := x[..i], x[i..i + n], y[i..i + n], x[i + n..];
    Around(x, i, n);
    Around(y, i, n);
    CrcBitsAppend(r, p, u + q);
    CrcBitsAppend(r, p, v + q);
    var c := CrcBits(r, p);
    CrcBitsAppend(c, u, q);
    CrcBitsAppend(c, v, q);
    BitsInjective(CrcBits(c, u), CrcBits(c, v), q);
    SameStart(c, u, v);
  }

  /** Two different messages of the same length never share a CRC when they differ only
      within a burst of at most 16 bits. */
  lemma BurstDetected(r: register, a: seq<byte>, b: seq<byte>, i: nat, n: nat)
    requires |a| == |b| && a != b && Burst(MessageBits(a), MessageBits(b), i, n)
    ensures CrcBytes(r, a) != CrcBytes(r, b)
  {
    hide CrcBits, CrcBytes, MessageBits;
    BytesAreBits(r, a);
    BytesAreBits(r, b);
    if CrcBytes(r, a) == CrcBytes(r, b) {
      SameCrcSameBits(r, MessageBits(a), MessageBits(b), i, n);
      MessageBitsInjective(a, b);
    }
  }

  // Bytes and numbers

  lemma {:induction false} ValueBits(v: nat, n: nat)
    requires v < Pow2(n)
    ensures Value(Bits(v, n)) == v
  {
    if n > 0 {
      ValueBits(v / 2, n - 1);
      assert Bits(v, n)[..n - 1] == Bits(v / 2, n - 1);
    }
  }

  lemma {:induction false} ValueInjective(s: seq<bool>, t: seq<bool>)
    requires |s| == |t| && Value(s) == Value(t)
    ensures s == t
    decreases |s|
  {
    if s != [] {
      var n := |s| - 1;
      ValueInjective(s[..n], t[..n]);
      assert s == s[..n] + [s[n]] && t == t[..n] + [t[n]];
    }
  }

  lemma {:induction false} ValueBound(s: seq<bool>)
    ensures Value(s) < Pow2(|s|)
  {
    if s != [] {
      ValueBound(s[..|s| - 1]);
    }
  }

  /** Different messages have different bits. */
  lemma {:induction false} MessageBitsInjective(a: seq<byte>, b: seq<byte>)
    requires |a| == |b| && MessageBits(a) == MessageBits(b)
    ensures a == b
    decreases |a|
  {
    if a != [] {
      var x, y := MessageBits(a), MessageBits(b);
      assert x[..8] == Bits(a[0], 8) && y[..8] == Bits(b[0], 8);
      assert x[8..] == MessageBits(a[1..]) && y[8..] == MessageBits(b[1..]);
      assert Pow2(8) == 2 * (2 * (2 * (2 * Pow2(4)))) && Pow2(4) == 2 * (2 * (2 * (2 * Pow2(0))));
      ValueBits(a[0], 8);
      ValueBits(b[0], 8);
      MessageBitsInjective(a[1..], b[1..]);
      assert a == [a[0]] + a[1..] && b == [b[0]] + b[1..];
    }
  }

  lemma {:induction false} BitsValue(s: seq<bool>)
    ensures Bits(Value(s), |s|) == s
  {
    if s != [] {
      var n := |s| - 1;
      BitsValue(s[..n]);
      assert s == s[..n] + [s[n]];
    }
  }

  // Messages with their CRC behind them

  const ZERO: register := seq(16, _ => false)

  lemma {:induction false} ZeroStays(n: nat)
    ensures Shifts(ZERO, n) == ZERO
  {
    if n > 0 {
      ZeroStays(n - 1);
    }
  }

  /** A register fed its own bits runs empty. */
  lemma OwnBits(r: register)
    ensures CrcBits(r, r) == ZERO
  {
    hide Shifts;
    TopIsBits(r, r);
    assert XorTop(r, r) == ZERO;
    ZeroStays(16);
  }

  /** The bits of a message and then those of its CRC lead to the empty register. */
  lemma CodewordEnds(r: register, bs: seq<byte>)
    ensures CrcBits(r, MessageBits(bs) + CrcBytes(r, bs)) == ZERO
  {
    hide CrcBits, CrcBytes, MessageBits;
    BytesAreBits(r, bs);
    CrcBitsAppend(r, MessageBits(bs), CrcBytes(r, bs));
    OwnBits(CrcBytes(r, bs));
  }

  /** Two messages of one length, each followed by its own CRC: when they differ only within a
      burst of at most 16 bits, wherever it lies, they do not differ at all. */
  lemma CodewordsApart(r: register, a: seq<byte>, b: seq<byte>, i: nat, n: nat)
    requires |a| == |b|
    requires Burst(MessageBits(a) + CrcBytes(r, a), MessageBits(b) + CrcBytes(r, b), i, n)
    ensures a == b
  {
    hide CrcBits, CrcBytes, MessageBits;
    var x, y := MessageBits(a) + CrcBytes(r, a), MessageBits(b) + CrcBytes(r, b);
    CodewordEnds(r, a);
    CodewordEnds(r, b);
    SameCrcSameBits(r, x, y, i, n);
    assert x[..|x| - 16] == MessageBits(a) && y[..|y| - 16] == MessageBits(b);
    MessageBitsInjective(a, b);
  }
}
