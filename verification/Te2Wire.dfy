/** The text lines of the te2 upload protocol: hexadecimal fields, the records the host
    formats and the fields the loader reads back. */
module Te2Wire {
  import opened Crc
  import opened Numerals
  import opened Wrappers

  // Hexadecimal fields

  function HexDigit(d: nat): char
    requires d < 16
  {
    "0123456789ABCDEF"[d]
  }

  /** The value of a hexadecimal digit, either case; -1 for anything else. */
  function DigitValue(c: char): (d: int)
    ensures -1 <= d < 16
  {
    if '0' <= c <= '9' then c as int - '0' as int
    else if 'A' <= c <= 'F' then c as int - 'A' as int + 10
    else if 'a' <= c <= 'f' then c as int - 'a' as int + 10
    else -1
  }

  /** The lowest `k` hexadecimal digits of `v`, upper case; of the two's complement when
      `v` is negative. */
  function Hex(v: int, k: nat): (s: string)
    ensures |s| == k
    decreases k
  {
    if k == 0 then "" else Hex(v / 16, k - 1) + [HexDigit(v % 16)]
  }

  /** The number a string of hexadecimal digits stands for. */
  function HexValue(s: string): Option<nat> {
    if s == "" then Some(0)
    else
      var d := DigitValue(s[|s| - 1]);
      match HexValue(s[..|s| - 1])
      case None => None
      case Some(v) => if d < 0 then None else Some(16 * v + d)
  }

  /** The digits are those of either case. */
  lemma DigitExactly(c: char, d: nat)
    requires d < 16
    ensures DigitValue(c) == d <==> c == LOWER[d] || c == UPPER[d]
  {
  }

  /** A field is read as the number it spells, and as none when it spells none. */
  lemma {:induction false} SpellsExactly(s: string, n: nat)
    ensures HexValue(s) == Some(n) <==> Spells(s, n)
    decreases |s|
  {
    hide DigitValue;
    if s != "" {
      var c := s[|s| - 1];
      SpellsExactly(s[..|s| - 1], n / 16);
      DigitExactly(c, n % 16);
      if HexValue(s[..|s| - 1]).Some? && DigitValue(c) >= 0 {
        LastDigit(n, HexValue(s[..|s| - 1]).value, DigitValue(c));
      }
    }
  }

  lemma LastDigit(n: nat, x: nat, d: nat)
    requires d < 16
    ensures n == 16 * x + d <==> n / 16 == x && n % 16 == d
  {
  }

  /** A string of digits has only digits in front. */
  lemma {:induction false} HexValuePrefix(s: string, i: nat)
    requires i <= |s| && HexValue(s).Some?
    ensures HexValue(s[..i]).Some?
    decreases |s|
  {
    if i < |s| {
      HexValuePrefix(s[..|s| - 1], i);
      assert s[..|s| - 1][..i] == s[..i];
    } else {
      assert s[..i] == s;
    }
  }

  lemma HexValueLast(s: string, c: char)
    ensures HexValue(s + [c])
         == if HexValue(s).Some? && DigitValue(c) >= 0 then Some(16 * HexValue(s).value + DigitValue(c)) else None
  {
    assert (s + [c])[..|s|] == s;
  }

  lemma NoDigits()
    ensures HexValue("") == Some(0)
  {
  }

  lemma NoNumber(s: string, i: nat)
    requires i < |s| && DigitValue(s[i]) < 0
    ensures HexValue(s).None?
  {
    assert s[..i + 1] == s[..i] + [s[i]];
    HexValueLast(s[..i], s[i]);
    if HexValue(s).Some? {
      HexValuePrefix(s, i + 1);
    }
  }

  function Pow16(k: nat): (p: nat)
    ensures p > 0
  {
    if k == 0 then 1 else 16 * Pow16(k - 1)
  }

  /** A number and its signed reading print alike. */
  lemma {:induction false} HexWraps(v: int, k: nat)
    ensures Hex(v - Pow16(k), k) == Hex(v, k)
    decreases k
  {
    if k > 0 {
      HexWraps(v / 16, k - 1);
    }
  }

  lemma {:induction false} HexRoundTrip(v: nat, k: nat)
    requires v < Pow16(k)
    ensures HexValue(Hex(v, k)) == Some(v)
  {
    if k > 0 {
      HexRoundTrip(v / 16, k - 1);
      assert Hex(v, k)[..k - 1] == Hex(v / 16, k - 1);
    }
  }

  lemma {:induction false} HexValueBound(s: string)
    requires HexValue(s).Some?
    ensures HexValue(s).value < Pow16(|s|)
  {
    if s != "" {
      HexValueBound(s[..|s| - 1]);
    }
  }

  /** The field of `digits` hexadecimal digits at offset `off`. */
  function Num(line: string, off: nat, digits: nat): Option<nat> {
    if off + digits <= |line| then HexValue(line[off..off + digits]) else None
  }

  /** `count` bytes of two digits each, from offset `off`. */
  function NumBytes(line: string, off: nat, count: nat): Option<seq<byte>> {
    if count == 0 then Some([])
    else match (NumBytes(line, off, count - 1), Num(line, off + 2 * (count - 1), 2))
      case (Some(bs), Some(b)) => if b < 256 then Some(bs + [b]) else None
      case _ => None
  }

  function HexBytes(bs: seq<byte>): (s: string)
    ensures |s| == 2 * |bs|
  {
    if bs == [] then "" else HexBytes(bs[..|bs| - 1]) + Hex(bs[|bs| - 1], 2)
  }

  /** A field is read back wherever it stands. */
  lemma FieldAt(before: string, v: nat, k: nat, rest: string)
    requires v < Pow16(k)
    ensures Num(before + Hex(v, k) + rest, |before|, k) == Some(v)
  {
    HexRoundTrip(v, k);
    assert (before + Hex(v, k) + rest)[|before|..|before| + k] == Hex(v, k);
  }

  lemma {:induction false} BytesAt(before: string, bs: seq<byte>, rest: string)
    ensures NumBytes(before + HexBytes(bs) + rest, |before|, |bs|) == Some(bs)
    decreases |bs|
  {
    hide Hex, HexValue, HexDigit, DigitValue;
    if bs != [] {
      var n := |bs| - 1;
      var last := Hex(bs[n], 2);
      assert before + HexBytes(bs) + rest == before + HexBytes(bs[..n]) + (last + rest);
      BytesAt(before, bs[..n], last + rest);
      var before' := before + HexBytes(bs[..n]);
      assert before + HexBytes(bs) + rest == before' + last + rest;
      assert Pow16(2) == 16 * Pow16(1) && Pow16(1) == 16;
      FieldAt(before', bs[n], 2, rest);
      assert bs == bs[..n] + [bs[n]];
    }
  }

  lemma {:induction false} NumBytesLength(line: string, off: nat, count: nat)
    requires NumBytes(line, off, count).Some?
    ensures |NumBytes(line, off, count).value| == count
  {
    if count > 0 {
      NumBytesLength(line, off, count - 1);
    }
  }

  // Records

  /** The numbers a CRC is computed over: sequence number, address, length, data. */
  function RecordBytes(sequence: nat, address: nat, data: seq<byte>): seq<byte> {
    [sequence / 256 % 256, sequence % 256,
     address / 65536 % 256, address / 256 % 256, address % 256,
     |data| % 256] + data
  }

  /** Records with different numbers or data have different bytes. */
  lemma RecordBytesInjective(sequence: nat, address: nat, data: seq<byte>, sequence1: nat, address1: nat,
                             data1: seq<byte>)
    requires sequence < 65536 && sequence1 < 65536 && address < 0x1000000 && address1 < 0x1000000
    requires RecordBytes(sequence, address, data) == RecordBytes(sequence1, address1, data1)
    ensures sequence == sequence1 && address == address1 && data == data1
  {
    var a, b := RecordBytes(sequence, address, data), RecordBytes(sequence1, address1, data1);
    assert a[0] == b[0] && a[1] == b[1] && a[2] == b[2] && a[3] == b[3] && a[4] == b[4];
    assert a[6..] == data && b[6..] == data1;
    ByBytes(sequence);
    ByBytes(sequence1);
    ByBytes(address);
    ByBytes(address1);
  }

  lemma ByBytes(n: nat)
    requires n < 0x1000000
    ensures n == 65536 * (n / 65536 % 256) + 256 * (n / 256 % 256) + n % 256
    ensures n < 65536 ==> n / 65536 % 256 == 0
  {
    assert n / 65536 == n / 256 / 256;
  }

  function RecordCrc(sequence: nat, address: nat, data: seq<byte>): (crc: nat)
    ensures crc < 65536
  {
    var r := CrcBytes(INITIAL, RecordBytes(sequence, address, data));
    ValueBound(r);
    Powers();
    Value(r)
  }

  lemma Powers()
    ensures Pow2(16) == 65536 && Pow2(8) == 256
    ensures Pow16(2) == 256 && Pow16(4) == 65536 && Pow16(6) == 0x1000000
  {
    assert Pow2(4) == 16;
    assert Pow2(8) == 16 * Pow2(4);
    assert Pow2(12) == 16 * Pow2(8);
    assert Pow2(16) == 16 * Pow2(12);
    assert Pow16(2) == 256;
    assert Pow16(4) == 256 * Pow16(2);
    assert Pow16(6) == 256 * Pow16(4);
  }

  /** D sequence address count data crc. */
  function DataLine(sequence: nat, address: nat, data: seq<byte>): string {
    "D" + Hex(sequence, 4) + Hex(address, 6) + Hex(|data|, 2) + HexBytes(data)
    + Hex(RecordCrc(sequence, address, data), 4)
  }

  /** E sequence stream-crc. */
  function EndLine(sequence: nat, stream: register): string {
    "E" + Hex(sequence, 4) + Hex(Value(stream), 4)
  }

  /** G address. */
  function GoLine(address: nat): string { "G" + Hex(address, 6) }

  /** What the loader reads out of a D line. */
  datatype Fields = Fields(sequence: Option<nat>, address: Option<nat>, count: Option<nat>,
                           data: Option<seq<byte>>, crc: Option<nat>)

  function ReadData(line: string): Fields {
    var count := Num(line, 11, 2);
    var c := if count.Some? then count.value else 0;
    Fields(Num(line, 1, 4), Num(line, 5, 6), count,
           NumBytes(line, 13, c), Num(line, 13 + 2 * c, 4))
  }

  /** The loader reads exactly the numbers the host wrote. */
  lemma DataLineRoundTrip(sequence: nat, address: nat, data: seq<byte>)
    requires sequence < 65536 && address < 0x1000000 && |data| < 256
    ensures var line := DataLine(sequence, address, data);
            && |line| == 17 + 2 * |data| && line[0] == 'D'
            && ReadData(line) == Fields(Some(sequence), Some(address), Some(|data|), Some(data),
                                        Some(RecordCrc(sequence, address, data)))
  {
    hide Hex, HexBytes, RecordCrc, Num, NumBytes, Pow16;
    Powers();
    var line := DataLine(sequence, address, data);
    var s, a, c, b := Hex(sequence, 4), Hex(address, 6), Hex(|data|, 2), HexBytes(data);
    var k := Hex(RecordCrc(sequence, address, data), 4);
    assert line == "D" + s + (a + c + b + k);
    FieldAt("D", sequence, 4, a + c + b + k);
    assert line == ("D" + s) + a + (c + b + k);
    FieldAt("D" + s, address, 6, c + b + k);
    assert line == ("D" + s + a) + c + (b + k);
    FieldAt("D" + s + a, |data|, 2, b + k);
    assert line == ("D" + s + a + c) + b + k;
    BytesAt("D" + s + a + c, data, k);
    assert line == ("D" + s + a + c + b) + k + "";
    FieldAt("D" + s + a + c + b, RecordCrc(sequence, address, data), 4, "");
  }

  lemma EndLineRoundTrip(sequence: nat, stream: register)
    requires sequence < 65536
    ensures var line := EndLine(sequence, stream);
            && |line| == 9 && line[0] == 'E'
            && Num(line, 1, 4) == Some(sequence) && Num(line, 5, 4) == Some(Value(stream))
  {
    hide Hex, Num, Pow16;
    Powers();
    ValueBound(stream);
    var line := EndLine(sequence, stream);
    var s, k := Hex(sequence, 4), Hex(Value(stream), 4);
    assert line == "E" + s + k;
    FieldAt("E", sequence, 4, k);
    assert line == ("E" + s) + k + "";
    FieldAt("E" + s, Value(stream), 4, "");
  }

  lemma GoLineRoundTrip(address: nat)
    requires address < 0x1000000
    ensures var line := GoLine(address);
            |line| == 7 && line[0] == 'G' && Num(line, 1, 6) == Some(address)
  {
    hide Hex, Num, Pow16;
    Powers();
    assert GoLine(address) == "G" + Hex(address, 6) + "";
    FieldAt("G", address, 6, "");
  }
}
