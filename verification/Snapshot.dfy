/** The snapshot of the interpreter's memory: written to the UART as hexadecimal text, restored
    from the bytes it stands for. How long the tables are is read from the stream itself. */
module Snapshot {
  import opened Tml
  import opened Words24
  import opened LispText
  import opened Wrappers
  import Numerals

  // Bytes as text

  function HexChar(d: nat): char
    requires d < 16
  {
    "0123456789abcdef"[d]
  }

  function HexText(bs: seq<byte>): string {
    if bs == [] then ""
    else
      var b := bs[|bs| - 1];
      HexText(bs[..|bs| - 1]) + [HexChar(b / 16), HexChar(b % 16)]
  }

  /** What a text of hexadecimal digits, two for a byte, stands for. */
  function Decoded(text: string): Option<seq<byte>> {
    if text == "" then Some([])
    else if |text| == 1 then None
    else
      var n := |text| - 2;
      var x, y := LispText.HexDigit(text[n]), LispText.HexDigit(text[n + 1]);
      match Decoded(text[..n])
      case None => None
      case Some(bs) => if x < 0 || y < 0 then None else Some(bs + [16 * x + y])
  }

  lemma {:induction false} TextDecodes(bs: seq<byte>)
    ensures Decoded(HexText(bs)) == Some(bs)
  {
    hide HexChar, LispText.HexDigit;
    if bs != [] {
      var n := |bs| - 1;
      TextDecodes(bs[..n]);
      ByteDecodes(HexText(bs[..n]), bs[..n], bs[n]);
      assert bs == bs[..n] + [bs[n]];
    }
  }

  lemma ByteDecodes(text: string, bs: seq<byte>, b: byte)
    requires Decoded(text) == Some(bs)
    ensures Decoded(text + [HexChar(b / 16), HexChar(b % 16)]) == Some(bs + [b])
  {
    hide HexChar, LispText.HexDigit;
    var longer := text + [HexChar(b / 16), HexChar(b % 16)];
    assert longer[..|longer| - 2] == text;
    DigitBack(b / 16);
    DigitBack(b % 16);
  }

  lemma DigitBack(d: nat)
    requires d < 16
    ensures LispText.HexDigit(HexChar(d)) == d
  {
  }

  lemma {:induction false} TextAppend(a: seq<byte>, b: seq<byte>)
    ensures HexText(a + b) == HexText(a) + HexText(b)
    decreases |b|
  {
    if b == [] {
      assert a + b == a;
    } else {
      TextAppend(a, b[..|b| - 1]);
      assert (a + b)[..|a + b| - 1] == a + b[..|b| - 1];
    }
  }

  // Words as bytes

  predicate IsWord(v: int) { -HALF <= v < HALF }

  /** Least byte first. */
  function WordBytes(v: int): seq<byte> { [v % 256, v / 256 % 256, v / 65536 % 256] }

  function WordsBytes(ws: seq<int>): (bs: seq<byte>)
    ensures |bs| == 3 * |ws|
  {
    if ws == [] then [] else WordsBytes(ws[..|ws| - 1]) + WordBytes(ws[|ws| - 1])
  }

  function WordOf(x: byte, y: byte, z: byte): (v: int)
    ensures IsWord(v)
  {
    Signed(x + 256 * y + 65536 * z)
  }

  lemma WordBack(v: int)
    requires IsWord(v)
    ensures WordOf(v % 256, v / 256 % 256, v / 65536 % 256) == v
  {
  }

  lemma BytesBack(x: byte, y: byte, z: byte)
    ensures WordBytes(WordOf(x, y, z)) == [x, y, z]
  {
    var n := x + 256 * y + 65536 * z;
    assert n / 256 == y + 256 * z && n / 65536 == z;
    if n >= HALF {
      var v := n - MODULUS;
      assert v / 256 == y + 256 * z - 65536 && v / 65536 == z - 256;
    }
  }

  function ByteText(b: byte): string { [HexChar(b / 16), HexChar(b % 16)] }

  /** The text of a word: two digits for each byte, which spell its 24 bits when the last byte is put
      first. */
  lemma WordSpelled(v: int)
    ensures var x, y, z := ByteText(v % 256), ByteText(v / 256 % 256), ByteText(v / 65536 % 256);
      HexText(WordBytes(v)) == x + y + z && Numerals.Spells(z + y + x, v % MODULUS)
  {
    hide Numerals.Spells, HexChar;
    var x: byte, y: byte, z: byte := v % 256, v / 256 % 256, v / 65536 % 256;
    assert ByteText(z) == "" + ByteText(z);
    OneByte(x);
    OneByte(y);
    OneByte(z);
    ThreeBytes(x, y, z);
    NoDigits();
    ByteSpelled("", 0, z);
    ByteSpelled(ByteText(z), z, y);
    ByteSpelled(ByteText(z) + ByteText(y), 256 * z + y, x);
    LowBytes(v);
  }

  lemma OneByte(b: byte)
    ensures HexText([b]) == ByteText(b)
  {
    assert [b][..0] == [];
  }

  lemma NoDigits()
    ensures Numerals.Spells("", 0)
  {
  }

  lemma LowBytes(v: int)
    ensures v % MODULUS == 256 * (256 * (v / 65536 % 256) + v / 256 % 256) + v % 256
  {
    var a := v / 256;
    var b := a / 256;
    var c := b / 256;
    assert v == 256 * a + v % 256 && a == 256 * b + a % 256 && b == 256 * c + b % 256;
    assert v / 65536 == b;
    var n := 256 * (256 * (b % 256) + a % 256) + v % 256;
    assert v == n + c * MODULUS;
    WrapUnique(v, n, c);
  }

  lemma ByteSpelled(s: string, n: nat, b: byte)
    requires Numerals.Spells(s, n)
    ensures Numerals.Spells(s + ByteText(b), 256 * n + b)
  {
    SpelledOn(s, n, b / 16);
    SpelledOn(s + [HexChar(b / 16)], 16 * n + b / 16, b % 16);
    assert s + ByteText(b) == s + [HexChar(b / 16)] + [HexChar(b % 16)];
  }

  lemma SpelledOn(s: string, n: nat, d: nat)
    requires d < 16 && Numerals.Spells(s, n)
    ensures Numerals.Spells(s + [HexChar(d)], 16 * n + d)
  {
    hide HexChar;
    var t := s + [HexChar(d)];
    assert t[..|t| - 1] == s && t[|t| - 1] == HexChar(d);
    LowerDigit(d);
    LastDigit(n, d);
  }

  lemma LowerDigit(d: nat)
    requires d < 16
    ensures HexChar(d) == Numerals.LOWER[d]
  {
  }

  lemma LastDigit(n: nat, d: nat)
    requires d < 16
    ensures (16 * n + d) / 16 == n && (16 * n + d) % 16 == d
  {
  }

  /** The word at an address, and `n` of them. */
  function WordAt(mem: seq<byte>, p: nat): int
    requires p + 3 <= |mem|
  {
    WordOf(mem[p], mem[p + 1], mem[p + 2])
  }

  function WordsAt(mem: seq<byte>, p: nat, n: nat): (ws: seq<int>)
    requires p + 3 * n <= |mem|
    ensures |ws| == n && forall i :: 0 <= i < n ==> IsWord(ws[i])
  {
    if n == 0 then [] else WordsAt(mem, p, n - 1) + [WordAt(mem, p + 3 * (n - 1))]
  }

  predicate Holds(mem: seq<byte>, p: nat, bs: seq<byte>) {
    p + |bs| <= |mem| && mem[p..p + |bs|] == bs
  }

  lemma HoldsParts(mem: seq<byte>, p: nat, a: seq<byte>, b: seq<byte>)
    ensures Holds(mem, p, a + b) <==> Holds(mem, p, a) && Holds(mem, p + |a|, b)
  {
    if Holds(mem, p, a + b) {
      assert a == (a + b)[..|a|] && b == (a + b)[|a|..];
    }
  }

  lemma {:induction false} WordsBack(mem: seq<byte>, p: nat, ws: seq<int>)
    requires Holds(mem, p, WordsBytes(ws)) && forall i :: 0 <= i < |ws| ==> IsWord(ws[i])
    ensures WordsAt(mem, p, |ws|) == ws
    decreases |ws|
  {
    hide Holds, WordOf, IsWord;
    if ws != [] {
      var n := |ws| - 1;
      HoldsParts(mem, p, WordsBytes(ws[..n]), WordBytes(ws[n]));
      WordsBack(mem, p, ws[..n]);
      WordAtIs(mem, p + 3 * n, ws[n]);
      assert ws == ws[..n] + [ws[n]];
    }
  }

  lemma WordAtIs(mem: seq<byte>, p: nat, v: int)
    requires Holds(mem, p, WordBytes(v)) && IsWord(v)
    ensures p + 3 <= |mem| && WordAt(mem, p) == v
  {
    hide WordOf;
    var held := mem[p..p + 3];
    assert held[0] == mem[p] && held[1] == mem[p + 1] && held[2] == mem[p + 2];
    WordBack(v);
  }

  lemma {:induction false} BytesHeld(mem: seq<byte>, p: nat, n: nat)
    requires p + 3 * n <= |mem|
    ensures Holds(mem, p, WordsBytes(WordsAt(mem, p, n)))
    decreases n
  {
    hide WordOf, WordBytes;
    if n > 0 {
      var before, v := WordsAt(mem, p, n - 1), WordAt(mem, p + 3 * (n - 1));
      BytesHeld(mem, p, n - 1);
      WordHeld(mem, p + 3 * (n - 1));
      assert WordsAt(mem, p, n)[..n - 1] == before;
      HoldsParts(mem, p, WordsBytes(before), WordBytes(v));
    }
  }

  lemma WordHeld(mem: seq<byte>, p: nat)
    requires p + 3 <= |mem|
    ensures Holds(mem, p, WordBytes(WordAt(mem, p)))
  {
    BytesBack(mem[p], mem[p + 1], mem[p + 2]);
  }

  // Images

  /** What a snapshot holds: the 18 scalars in the order written, heap_next, free_list,
      global_env, sym_count, name_pool_next, str_pool_next, gensym_counter and the symbols of
      eleven forms, and the parts of the tables in use. */
  datatype Image = Image(scalars: seq<int>, cars: seq<int>, cdrs: seq<int>, names: seq<byte>,
                         nameOff: seq<int>, strings: seq<byte>)
  {
    predicate WellFormed() {
      && |scalars| == 18
      && |cars| == |cdrs| == scalars[0] && |nameOff| == scalars[3]
      && |names| == scalars[4] && |strings| == scalars[5]
      && (forall v :: v in scalars + cars + cdrs + nameOff ==> IsWord(v))
    }

    function Bytes(): seq<byte> {
      WordsBytes(scalars) + WordsBytes(cars) + WordsBytes(cdrs) + names + WordsBytes(nameOff) + strings
    }
  }

  /** A stream as long as its scalars say. */
  predicate Complete(mem: seq<byte>, p: nat) {
    && p + 54 <= |mem|
    && var s := WordsAt(mem, p, 18);
    && s[0] >= 0 && s[3] >= 0 && s[4] >= 0 && s[5] >= 0
    && p + 54 + 6 * s[0] + s[4] + 3 * s[3] + s[5] <= |mem|
  }

  function ImageAt(mem: seq<byte>, p: nat): Image
    requires Complete(mem, p)
  {
    var s := WordsAt(mem, p, 18);
    var q := p + 54;
    var r := q + 6 * s[0];
    var t := r + s[4] + 3 * s[3];
    Image(s, WordsAt(mem, q, s[0]), WordsAt(mem, q + 3 * s[0], s[0]), mem[r..r + s[4]],
          WordsAt(mem, r + s[4], s[3]), mem[t..t + s[5]])
  }

  lemma SixParts(mem: seq<byte>, p: nat, s: Image)
    ensures Holds(mem, p, s.Bytes()) <==>
      var q := p + |WordsBytes(s.scalars)|;
      var r := q + |WordsBytes(s.cars)|;
      var t := r + |WordsBytes(s.cdrs)|;
      var u := t + |s.names|;
      && Holds(mem, p, WordsBytes(s.scalars)) && Holds(mem, q, WordsBytes(s.cars))
      && Holds(mem, r, WordsBytes(s.cdrs)) && Holds(mem, t, s.names)
      && Holds(mem, u, WordsBytes(s.nameOff)) && Holds(mem, u + |WordsBytes(s.nameOff)|, s.strings)
  {
    hide Holds, WordsBytes;
    var a, b, c, d, e := WordsBytes(s.scalars), WordsBytes(s.cars), WordsBytes(s.cdrs), s.names, WordsBytes(s.nameOff);
    HoldsParts(mem, p, a + b + c + d + e, s.strings);
    HoldsParts(mem, p, a + b + c + d, e);
    HoldsParts(mem, p, a + b + c, d);
    HoldsParts(mem, p, a + b, c);
    HoldsParts(mem, p, a, b);
  }

  /** The bytes of an image read back as that image, wherever they stand and whatever follows. */
  lemma ImageBack(mem: seq<byte>, p: nat, s: Image)
    requires s.WellFormed() && Holds(mem, p, s.Bytes())
    ensures Complete(mem, p) && ImageAt(mem, p) == s
  {
    hide WordsBytes, WordsAt, IsWord, Holds;
    SixParts(mem, p, s);
    HeldWithin(mem, p, s);
    Elements(s);
    WordsBack(mem, p, s.scalars);
    WordsBack(mem, p + 54, s.cars);
    WordsBack(mem, p + 54 + 3 * |s.cars|, s.cdrs);
    WordsBack(mem, p + 54 + 6 * |s.cars| + |s.names|, s.nameOff);
  }

  lemma HeldWithin(mem: seq<byte>, p: nat, s: Image)
    requires Holds(mem, p, s.Bytes())
    ensures p + |s.Bytes()| <= |mem|
    ensures var t := p + 3 * |s.scalars| + 3 * |s.cars| + 3 * |s.cdrs|;
      && t + |s.names| + 3 * |s.nameOff| + |s.strings| <= |mem|
      && (Holds(mem, t, s.names) ==> mem[t..t + |s.names|] == s.names)
      && var u := t + |s.names| + 3 * |s.nameOff|;
      (Holds(mem, u, s.strings) ==> mem[u..u + |s.strings|] == s.strings)
  {
    hide WordsBytes;
  }

  lemma Elements(s: Image)
    requires s.WellFormed()
    ensures forall i :: 0 <= i < 18 ==> IsWord(s.scalars[i])
    ensures forall i :: 0 <= i < |s.cars| ==> IsWord(s.cars[i]) && IsWord(s.cdrs[i])
    ensures forall i :: 0 <= i < |s.nameOff| ==> IsWord(s.nameOff[i])
  {
    var all := s.scalars + s.cars + s.cdrs + s.nameOff;
    forall i | 0 <= i < |s.scalars| ensures s.scalars[i] in all { }
    forall i | 0 <= i < |s.cars| ensures s.cars[i] in all && s.cdrs[i] in all { }
    forall i | 0 <= i < |s.nameOff| ensures s.nameOff[i] in all { }
  }

  /** And whatever image is read is the one the bytes were written for. */
  lemma BytesBackAgain(mem: seq<byte>, p: nat)
    requires Complete(mem, p)
    ensures ImageAt(mem, p).WellFormed() && Holds(mem, p, ImageAt(mem, p).Bytes())
  {
    hide WordsBytes, IsWord, WordsAt, Holds;
    var s := ImageAt(mem, p);
    var n := |s.cars|;
    BytesHeld(mem, p, 18);
    BytesHeld(mem, p + 54, n);
    BytesHeld(mem, p + 54 + 3 * n, n);
    BytesHeld(mem, p + 54 + 6 * n + |s.names|, |s.nameOff|);
    SliceHeld(mem, p + 54 + 6 * n, |s.names|);
    SliceHeld(mem, p + 54 + 6 * n + |s.names| + 3 * |s.nameOff|, |s.strings|);
    SixParts(mem, p, s);
  }

  lemma SliceHeld(mem: seq<byte>, p: nat, n: nat)
    requires p + n <= |mem|
    ensures Holds(mem, p, mem[p..p + n])
  {
  }

  // The program

  const MAGIC: seq<byte> := ['T' as int, 'M' as int, 'L' as int]

  /** The globals and tables of heap.h, symbol.h, string.h and eval.h that a snapshot covers,
      and the state a restore resets. */
  class Machine {
    var heapNext: int
    var freeList: int
    var globalEnv: int
    var symCount: int
    var namePoolNext: int
    var strPoolNext: int
    var gensymCounter: int
    /** sym_quote to sym_catch. */
    var formSyms: seq<int>
    const heapCar: array<int>
    const heapCdr: array<int>
    const namePool: array<byte>
    const symNameOff: array<int>
    const strPool: array<byte>
    var gcEnabled: bool
    var gcRootCount: int
    var gcCollections: int
    var catchDepth: int
    var catchThrowing: bool
    var windDepth: int
    /** What has gone out over the UART, and where the next byte is read. */
    var output: string
    var cursor: nat

    ghost predicate Tables()
      reads this
    {
      && heapCar.Length == heapCdr.Length == HEAP_SIZE && heapCar != heapCdr
      && heapCar != symNameOff && heapCdr != symNameOff && namePool != strPool
      && |formSyms| == 11
    }

    ghost predicate InBounds()
      requires Tables()
      reads this
    {
      && 0 <= heapNext <= HEAP_SIZE && 0 <= symCount <= symNameOff.Length
      && 0 <= namePoolNext <= namePool.Length && 0 <= strPoolNext <= strPool.Length
    }

    ghost function Scalars(): seq<int>
      reads this
    {
      [heapNext, freeList, globalEnv, symCount, namePoolNext, strPoolNext, gensymCounter] + formSyms
    }

    /** The state in use. */
    ghost function Used(): Image
      requires Tables() && InBounds()
      reads this, heapCar, heapCdr, namePool, symNameOff, strPool
    {
      Image(Scalars(), heapCar[..heapNext], heapCdr[..heapNext], namePool[..namePoolNext],
            symNameOff[..symCount], strPool[..strPoolNext])
    }

    method WriteByte(b: byte)
      modifies `output
      ensures output == old(output) + HexText([b])
    {
      assert HexText([b]) == HexText([]) + [HexChar(b / 16), HexChar(b % 16)];
      output := output + [HexChar(b / 16)];
      output := output + [HexChar(b % 16)];
    }

    method WriteInt(v: int)
      modifies `output
      ensures output == old(output) + HexText(WordBytes(v))
    {
      hide HexText;
      WriteByte(v % 256);
      WriteByte(v / 256 % 256);
      WriteByte(v / 65536 % 256);
      ThreeBytes(v % 256, v / 256 % 256, v / 65536 % 256);
    }

    method WriteInts(arr: array<int>, n: nat)
      requires n <= arr.Length
      modifies `output
      ensures output == old(output) + HexText(WordsBytes(arr[..n]))
    {
      hide WordBytes;
      NoBytes();
      for i := 0 to n
        invariant output == old(output) + HexText(WordsBytes(arr[..i]))
      {
        WriteInt(arr[i]);
        assert arr[..i + 1][..i] == arr[..i];
        TextAppend(WordsBytes(arr[..i]), WordBytes(arr[i]));
      }
    }

    method WriteBytes(arr: array<byte>, n: nat)
      requires n <= arr.Length
      modifies `output
      ensures output == old(output) + HexText(arr[..n])
    {
      NoBytes();
      for i := 0 to n
        invariant output == old(output) + HexText(arr[..i])
      {
        WriteByte(arr[i]);
        assert arr[..i + 1] == arr[..i] + [arr[i]];
        TextAppend(arr[..i], [arr[i]]);
      }
    }

    /** One more of a row of words. */
    method WriteNext(v: int, ghost start: string, ghost done: seq<int>) returns (ghost more: seq<int>)
      requires output == start + HexText(WordsBytes(done))
      modifies `output
      ensures more == done + [v] && output == start + HexText(WordsBytes(more))
    {
      hide HexText, WordBytes;
      WriteInt(v);
      WordsAppend(done, v);
      TextAppend(WordsBytes(done), WordBytes(v));
      more := done + [v];
    }

    /** The scalars, in their order. */
    method WriteScalars()
      requires Tables()
      modifies `output
      ensures output == old(output) + HexText(WordsBytes(Scalars()))
    {
      hide HexText, WordsBytes;
      ghost var start := output;
      NoBytes();
      ghost var done := WriteNext(heapNext, start, []);
      done := WriteNext(freeList, start, done);
      done := WriteNext(globalEnv, start, done);
      done := WriteNext(symCount, start, done);
      done := WriteNext(namePoolNext, start, done);
      done := WriteNext(strPoolNext, start, done);
      done := WriteNext(gensymCounter, start, done);
      ghost var named := done;
      for i := 0 to 11
        invariant done == named + formSyms[..i] && output == start + HexText(WordsBytes(done))
      {
        done := WriteNext(formSyms[i], start, done);
        assert formSyms[..i] + [formSyms[i]] == formSyms[..i + 1];
      }
      assert formSyms[..11] == formSyms;
      assert named == [heapNext, freeList, globalEnv, symCount, namePoolNext, strPoolNext, gensymCounter];
    }

    /** snapshot_save. */
    method Save()
      requires Tables() && InBounds()
      modifies `output
      ensures output == old(output) + "TML" + HexText(Used().Bytes())
    {
      hide HexText, WordsBytes;
      ghost var start := output;
      output := output + "T";
      output := output + "M";
      output := output + "L";
      WriteScalars();
      WriteInts(heapCar, heapNext);
      WriteInts(heapCdr, heapNext);
      WriteBytes(namePool, namePoolNext);
      WriteInts(symNameOff, symCount);
      WriteBytes(strPool, strPoolNext);
      TextOfParts(Used());
      assert start + "T" + "M" + "L" == start + "TML";
    }

    // Restoring

    method ReadInt(mem: seq<byte>) returns (v: int)
      requires cursor + 3 <= |mem|
      modifies `cursor
      ensures v == WordAt(mem, old(cursor)) && cursor == old(cursor) + 3
    {
      var x: int, y: int, z: int := mem[cursor], mem[cursor + 1], mem[cursor + 2];
      v := Signed(x + 256 * y + 65536 * z);
      cursor := cursor + 3;
    }

    method ReadInts(mem: seq<byte>, arr: array<int>, n: nat)
      requires n <= arr.Length && cursor + 3 * n <= |mem|
      modifies `cursor, arr
      ensures cursor == old(cursor) + 3 * n
      ensures arr[..n] == WordsAt(mem, old(cursor), n) && arr[n..] == old(arr[n..])
    {
      hide WordOf;
      for i := 0 to n
        invariant cursor == old(cursor) + 3 * i
        invariant arr[..i] == WordsAt(mem, old(cursor), i) && arr[i..] == old(arr[i..])
      {
        var v := ReadInt(mem);
        arr[i] := v;
        assert arr[..i + 1] == arr[..i] + [v];
        assert arr[i + 1..] == arr[i..][1..];
      }
    }

    method ReadBytes(mem: seq<byte>, arr: array<byte>, n: nat)
      requires n <= arr.Length && cursor + n <= |mem|
      modifies `cursor, arr
      ensures cursor == old(cursor) + n
      ensures arr[..n] == mem[old(cursor)..cursor] && arr[n..] == old(arr[n..])
    {
      for i := 0 to n
        invariant cursor == old(cursor)
        invariant arr[..i] == mem[cursor..cursor + i] && arr[i..] == old(arr[i..])
      {
        arr[i] := mem[cursor + i];
        assert arr[..i + 1] == arr[..i] + [mem[cursor + i]];
        assert arr[i + 1..] == arr[i..][1..];
      }
      cursor := cursor + n;
    }

    /** The next `n` words. */
    method ReadRow(mem: seq<byte>, n: nat) returns (ws: seq<int>)
      requires cursor + 3 * n <= |mem|
      modifies `cursor
      ensures ws == WordsAt(mem, old(cursor), n) && cursor == old(cursor) + 3 * n
    {
      hide WordAt;
      ws := [];
      for i := 0 to n
        invariant ws == WordsAt(mem, old(cursor), i) && cursor == old(cursor) + 3 * i
      {
        var v := ReadInt(mem);
        ws := ws + [v];
      }
    }

    /** The scalars, in their order. */
    method ReadScalars(mem: seq<byte>)
      requires Tables() && cursor + 54 <= |mem|
      modifies `cursor, `heapNext, `freeList, `globalEnv, `symCount, `namePoolNext, `strPoolNext, `gensymCounter,
               `formSyms
      ensures Tables() && cursor == old(cursor) + 54
      ensures Scalars() == WordsAt(mem, old(cursor), 18)
    {
      hide WordsAt;
      var s := ReadRow(mem, 18);
      heapNext, freeList, globalEnv, symCount := s[0], s[1], s[2], s[3];
      namePoolNext, strPoolNext, gensymCounter, formSyms := s[4], s[5], s[6], s[7..];
    }

    lemma UsedIs(mem: seq<byte>, p: nat)
      requires Tables() && InBounds() && Complete(mem, p) && Scalars() == WordsAt(mem, p, 18)
      requires p + 54 + 6 * heapNext + namePoolNext + 3 * symCount + strPoolNext <= |mem|
      requires heapCar[..heapNext] == WordsAt(mem, p + 54, heapNext)
      requires heapCdr[..heapNext] == WordsAt(mem, p + 54 + 3 * heapNext, heapNext)
      requires namePool[..namePoolNext] == mem[p + 54 + 6 * heapNext..p + 54 + 6 * heapNext + namePoolNext]
      requires symNameOff[..symCount] == WordsAt(mem, p + 54 + 6 * heapNext + namePoolNext, symCount)
      requires var r := p + 54 + 6 * heapNext + namePoolNext + 3 * symCount;
        strPool[..strPoolNext] == mem[r..r + strPoolNext]
      ensures Used() == ImageAt(mem, p)
    {
      hide WordsAt;
      ghost var s := Scalars();
      assert s[0] == heapNext && s[3] == symCount && s[4] == namePoolNext && s[5] == strPoolNext;
    }

    /** The tables, as long as the scalars say. */
    method ReadTables(mem: seq<byte>)
      requires Tables() && InBounds()
      requires cursor + 6 * heapNext + namePoolNext + 3 * symCount + strPoolNext <= |mem|
      modifies `cursor, heapCar, heapCdr, namePool, symNameOff, strPool
      ensures heapCar[..heapNext] == WordsAt(mem, old(cursor), heapNext)
      ensures heapCdr[..heapNext] == WordsAt(mem, old(cursor) + 3 * heapNext, heapNext)
      ensures namePool[..namePoolNext] == mem[old(cursor) + 6 * heapNext..old(cursor) + 6 * heapNext + namePoolNext]
      ensures symNameOff[..symCount] == WordsAt(mem, old(cursor) + 6 * heapNext + namePoolNext, symCount)
      ensures var r := old(cursor) + 6 * heapNext + namePoolNext + 3 * symCount;
        strPool[..strPoolNext] == mem[r..r + strPoolNext]
      ensures heapCar[heapNext..] == old(heapCar[heapNext..]) && heapCdr[heapNext..] == old(heapCdr[heapNext..])
    {
      hide WordAt, WordsAt;
      ReadInts(mem, heapCar, heapNext);
      ReadInts(mem, heapCdr, heapNext);
      ReadBytes(mem, namePool, namePoolNext);
      ReadInts(mem, symNameOff, symCount);
      ReadBytes(mem, strPool, strPoolNext);
    }

    /** All that a snapshot holds. */
    method ReadState(mem: seq<byte>)
      requires Tables() && Complete(mem, cursor) && FitTables(WordsAt(mem, cursor, 18))
      modifies `cursor, `heapNext, `freeList, `globalEnv, `symCount, `namePoolNext, `strPoolNext, `gensymCounter,
               `formSyms, heapCar, heapCdr, namePool, symNameOff, strPool
      ensures Tables() && InBounds() && Used() == ImageAt(mem, old(cursor))
      ensures heapCar[heapNext..] == old(heapCar[..])[heapNext..]
      ensures heapCdr[heapNext..] == old(heapCdr[..])[heapNext..]
    {
      hide WordAt, WordsAt, ImageAt;
      ghost var p := cursor;
      ReadScalars(mem);
      ReadTables(mem);
      UsedIs(mem, p);
    }

    /** snapshot_restore: false, and nothing changed, without the three letters in front. */
    method Restore(mem: seq<byte>, addr: nat) returns (ok: bool)
      requires Tables() && addr + 3 <= |mem|
      requires Holds(mem, addr, MAGIC) ==> Complete(mem, addr + 3) && FitTables(WordsAt(mem, addr + 3, 18))
      modifies `cursor, `heapNext, `freeList, `globalEnv, `symCount, `namePoolNext, `strPoolNext, `gensymCounter,
               `formSyms, `gcEnabled, `gcRootCount, `gcCollections, `catchDepth, `catchThrowing, `windDepth,
               heapCar, heapCdr, namePool, symNameOff, strPool
      ensures ok == Holds(mem, addr, MAGIC)
      ensures ok ==> Tables() && InBounds() && Used() == ImageAt(mem, addr + 3)
      ensures ok ==> heapCar[heapNext..] == old(heapCar[..])[heapNext..]
      ensures ok ==> heapCdr[heapNext..] == old(heapCdr[..])[heapNext..]
      ensures ok ==> gcEnabled && gcRootCount == gcCollections == catchDepth == windDepth == 0 && !catchThrowing
      ensures !ok ==> unchanged(this, heapCar, heapCdr, namePool, symNameOff, strPool)
    {
      hide WordsAt, ImageAt, Complete, Holds;
      MagicAt(mem, addr);
      if mem[addr] != 'T' as int || mem[addr + 1] != 'M' as int || mem[addr + 2] != 'L' as int {
        return false;
      }
      cursor := addr + 3;
      ReadState(mem);
      gcEnabled := true;
      gcRootCount, gcCollections := 0, 0;
      catchDepth, catchThrowing, windDepth := 0, false, 0;
      return true;
    }

    /** The counts stay within the tables. */
    predicate FitTables(s: seq<int>)
      requires |s| == 18
    {
      && 0 <= s[0] <= HEAP_SIZE && 0 <= s[3] <= symNameOff.Length
      && 0 <= s[4] <= namePool.Length && 0 <= s[5] <= strPool.Length
    }
  }

  lemma NoBytes()
    ensures HexText([]) == "" && WordsBytes([]) == []
  {
  }

  lemma ThreeBytes(x: byte, y: byte, z: byte)
    ensures HexText([x]) + HexText([y]) + HexText([z]) == HexText([x, y, z])
  {
    hide HexText;
    TextAppend([x], [y]);
    TextAppend([x] + [y], [z]);
    assert [x] + [y] + [z] == [x, y, z];
  }

  lemma WordsAppend(ws: seq<int>, v: int)
    ensures WordsBytes(ws + [v]) == WordsBytes(ws) + WordBytes(v)
  {
    hide WordBytes;
    assert (ws + [v])[..|ws|] == ws;
  }

  lemma TextOfParts(s: Image)
    ensures HexText(s.Bytes())
         == HexText(WordsBytes(s.scalars)) + HexText(WordsBytes(s.cars)) + HexText(WordsBytes(s.cdrs))
            + HexText(s.names) + HexText(WordsBytes(s.nameOff)) + HexText(s.strings)
  {
    hide HexText, WordsBytes;
    var a, b, c, d, e := WordsBytes(s.scalars), WordsBytes(s.cars), WordsBytes(s.cdrs), s.names, WordsBytes(s.nameOff);
    TextAppend(a, b);
    TextAppend(a + b, c);
    TextAppend(a + b + c, d);
    TextAppend(a + b + c + d, e);
    TextAppend(a + b + c + d + e, s.strings);
  }

  lemma MagicAt(mem: seq<byte>, p: nat)
    requires p + 3 <= |mem|
    ensures Holds(mem, p, MAGIC) <==> mem[p] == 'T' as int && mem[p + 1] == 'M' as int && mem[p + 2] == 'L' as int
  {
    var held := mem[p..p + 3];
    assert held[0] == mem[p] && held[1] == mem[p + 1] && held[2] == mem[p + 2];
  }

  /** Saving one machine and restoring another from the bytes its text stands for. */
  method Transfer(a: Machine, b: Machine) returns (ok: bool)
    requires a.Tables() && a.InBounds() && a.Used().WellFormed() && a.output == ""
    requires b.Tables() && b.symNameOff.Length >= a.symNameOff.Length
    requires b.namePool.Length >= a.namePool.Length && b.strPool.Length >= a.strPool.Length
    modifies a`output, b, b.heapCar, b.heapCdr, b.namePool, b.symNameOff, b.strPool
    ensures ok && b.Tables() && b.InBounds() && b.Used() == old(a.Used())
  {
    hide HexText, Decoded, WordOf, WordsAt, WordsBytes;
    ghost var s := a.Used();
    a.Save();
    assert a.output == "TML" + HexText(s.Bytes()) && a.output[3..] == HexText(s.Bytes());
    TextDecodes(s.Bytes());
    var bytes := Decoded(a.output[3..]);
    var mem := MAGIC + bytes.value;
    assert mem[3..3 + |s.Bytes()|] == s.Bytes() && mem[0..3] == MAGIC;
    ImageBack(mem, 3, s);
    ok := b.Restore(mem, 0);
  }
}
