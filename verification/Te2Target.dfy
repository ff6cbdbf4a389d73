/** The second-stage loader as it runs: a line buffer, a running CRC and raw memory, proved
    to compute `LoaderStep`. */
module Te2Target {
  import opened Crc
  import opened Te2Wire
  import opened Te2Loader
  import opened Wrappers

  // Lines out of the serial stream

  /** The characters before the first newline. */
  function UpToNewline(input: string): string {
    if input == "" || input[0] == '\n' then "" else [input[0]] + UpToNewline(input[1..])
  }

  function DropReturns(s: string): string {
    if s == "" then ""
    else DropReturns(s[..|s| - 1]) + if s[|s| - 1] == '\r' then "" else [s[|s| - 1]]
  }

  /** The line the loader makes of its input; `None` when it does not fit the buffer. */
  function ReceivedLine(input: string): Option<string> {
    var line := DropReturns(UpToNewline(input));
    if |line| < MAXLINE then Some(line) else None
  }

  lemma {:induction false} NewlineAt(input: string, i: nat)
    requires i < |input| && input[i] == '\n' && '\n' !in input[..i]
    ensures UpToNewline(input) == input[..i]
  {
    if i > 0 {
      assert input[0] in input[..i];
      assert input[1..][..i - 1] == input[..i][1..];
      NewlineAt(input[1..], i - 1);
    }
  }

  lemma {:induction false} DropReturnsGrows(s: string, i: nat)
    requires i <= |s|
    ensures |DropReturns(s[..i])| <= |DropReturns(s)|
    decreases |s|
  {
    if i < |s| {
      DropReturnsGrows(s[..|s| - 1], i);
      assert s[..|s| - 1][..i] == s[..i];
    } else {
      assert s[..i] == s;
    }
  }

  lemma DropReturnsNothing()
    ensures DropReturns("") == ""
  {
  }

  lemma DropReturnsNext(s: string, i: nat)
    requires i < |s|
    ensures DropReturns(s[..i + 1]) == DropReturns(s[..i]) + if s[i] == '\r' then "" else [s[i]]
  {
    assert s[..i + 1][..i] == s[..i];
  }

  /** The rest of a line is read and dropped. */
  method SkipLine(input: string, start: nat) returns (used: nat)
    requires start < |input| && '\n' !in input[..start] && '\n' in input[start..]
    ensures start < used <= |input| && UpToNewline(input) == input[..used - 1]
  {
    var at := start;
    while input[at] != '\n'
      invariant start <= at < |input| && '\n' !in input[..at] && '\n' in input[at..]
      decreases |input| - at
    {
      at := at + 1;
    }
    NewlineAt(input, at);
    used := at + 1;
  }

  /** A field that runs into the terminator is no number. */
  lemma FieldIsNum(buffer: seq<char>, length: nat, off: nat, digits: nat)
    requires length < |buffer| && buffer[length] == '\0'
    requires off <= length && off + digits <= |buffer|
    ensures HexValue(buffer[off..off + digits]) == Num(buffer[..length], off, digits)
  {
    var s := buffer[off..off + digits];
    if off + digits <= length {
      assert buffer[..length][off..off + digits] == s;
    } else {
      NoNumber(s, length - off);
    }
  }

  /** value >> 4 * k, keeping the sign. */
  function ShiftRight(value: int, k: nat): int {
    if k == 0 then value else ShiftRight(value, k - 1) / 16
  }

  /** puthex. */
  method PutHex(value: int, digits: nat) returns (s: string)
    ensures s == Hex(value, digits)
  {
    s := "";
    var left: nat := digits;
    while left > 0
      invariant left <= digits && s == Hex(ShiftRight(value, left), digits - left)
    {
      left := left - 1;
      s := s + [HexDigit(ShiftRight(value, left) % 16)];
    }
  }

  method PutAck(prefix: char, sequence: nat) returns (reply: string)
    ensures reply == Ack(prefix, sequence)
  {
    var digits := PutHex(sequence, 4);
    reply := [prefix] + digits;
  }

  method PutNack(sequence: nat, reason: char) returns (reply: string)
    ensures reply == Nack(sequence, reason)
  {
    var digits := PutHex(sequence, 4);
    reply := "N" + digits + [reason];
  }

  // The running CRC

  /** record_crc, and the same bytes into the running CRC. */
  method AddRecord(crc: seq<bool>, sequence: nat, address: nat, data: seq<byte>) returns (r: seq<bool>)
    requires |crc| == 24 && Masked(crc)
    ensures |r| == 24 && Masked(r)
    ensures Low(r) == CrcBytes(Low(crc), RecordBytes(sequence, address, data))
  {
    hide Low, Masked, CrcByte, CrcBytes;
    ghost var all := RecordBytes(sequence, address, data);
    assert all[0..] == all;
    CrcNext(Low(crc), all, 0);
    r := TargetCrcByte(crc, sequence / 256 % 256);
    CrcNext(Low(r), all, 1);
    r := TargetCrcByte(r, sequence % 256);
    CrcNext(Low(r), all, 2);
    r := TargetCrcByte(r, address / 65536 % 256);
    CrcNext(Low(r), all, 3);
    r := TargetCrcByte(r, address / 256 % 256);
    CrcNext(Low(r), all, 4);
    r := TargetCrcByte(r, address % 256);
    CrcNext(Low(r), all, 5);
    r := TargetCrcByte(r, |data| % 256);
    var i := 0;
    while i < |data|
      invariant i <= |data| && |r| == 24 && Masked(r)
      invariant CrcBytes(Low(r), all[6 + i..]) == CrcBytes(Low(crc), all)
    {
      CrcNext(Low(r), all, 6 + i);
      r := TargetCrcByte(r, data[i]);
      i := i + 1;
    }
    assert all[6 + i..] == [];
    CrcNothing(Low(r));
  }

  class Loader {
    const line: array<char>
    const memory: array<byte>
    var expectedSeq: nat
    var streamCrc: seq<bool>
    var finalized: bool

    ghost predicate Valid()
      reads this
    {
      && line.Length == MAXLINE && memory.Length >= LOADER_BASE
      && expectedSeq < 65536 && |streamCrc| == 24 && Masked(streamCrc)
    }

    /** What the loader's variables amount to. */
    ghost function State(): LoaderState
      requires Valid()
      reads this, memory
    {
      LoaderState(expectedSeq, Low(streamCrc), finalized, memory[..])
    }

    /** The text of a line of `length` characters. */
    ghost predicate Holds(text: string)
      requires Valid()
      reads this, line
    {
      |text| < MAXLINE && line[..|text|] == text && line[|text|] == '\0'
    }

    constructor (ram: array<byte>)
      requires ram.Length >= LOADER_BASE
      ensures Valid() && memory == ram && fresh(line)
      ensures State() == LoaderState(0, INITIAL, false, ram[..])
    {
      line := new char[MAXLINE];
      memory := ram;
      expectedSeq := 0;
      streamCrc := FreshCrc();
      finalized := false;
    }

    /** getline: the next line of the input, or -1 when it does not fit. */
    method GetLine(input: string) returns (length: int, used: nat)
      requires Valid() && '\n' in input
      modifies line
      ensures length >= 0 ==> ReceivedLine(input).Some? && length == |ReceivedLine(input).value|
                              && Holds(ReceivedLine(input).value)
      ensures length < 0 ==> length == -1 && ReceivedLine(input).None?
      ensures used == |UpToNewline(input)| + 1
    {
      hide DropReturns, UpToNewline;
      var at := 0;
      length := 0;
      DropReturnsNothing();
      while true
        invariant 0 <= at < |input| && '\n' !in input[..at] && '\n' in input[at..]
        invariant 0 <= length < MAXLINE && line[..length] == DropReturns(input[..at])
        decreases |input| - at
      {
        var c := input[at];
        DropReturnsNext(input, at);
        if c == '\n' {
          NewlineAt(input, at);
          line[length] := '\0';
          used := at + 1;
          return;
        }
        at := at + 1;
        if c != '\r' {
          if length < MAXLINE - 1 {
            line[length] := c;
            length := length + 1;
          } else {
            used := SkipLine(input, at);
            DropReturnsGrows(input[..used - 1], at);
            assert input[..used - 1][..at] == input[..at];
            line[0] := '\0';
            return -1, used;
          }
        }
      }
    }

    /** number: `ok` is cleared when a character is no digit. */
    method Number(offset: nat, digits: nat, ok: bool) returns (value: nat, ok': bool)
      requires Valid() && offset + digits <= MAXLINE
      ensures var n := HexValue(line[offset..offset + digits]);
              ok' == (ok && n.Some?) && value == if n.Some? then n.value else 0
    {
      hide HexValue, DigitValue;
      value := 0;
      var i := 0;
      NoDigits();
      assert line[offset..offset] == "";
      while i < digits
        invariant i <= digits && HexValue(line[offset..offset + i]) == Some(value)
      {
        var digit := DigitValue(line[offset + i]);
        assert line[offset..offset + i + 1] == line[offset..offset + i] + [line[offset + i]];
        HexValueLast(line[offset..offset + i], line[offset + i]);
        if digit < 0 {
          NoNumber(line[offset..offset + digits], i);
          return 0, false;
        }
        value := 16 * value + digit;
        i := i + 1;
      }
      return value, ok;
    }

    lemma FieldOf(text: string, off: nat, digits: nat)
      requires Valid() && Holds(text) && off <= |text| && off + digits <= MAXLINE
      ensures HexValue(line[off..off + digits]) == Num(text, off, digits)
    {
      FieldIsNum(line[..], |text|, off, digits);
      assert line[..][off..off + digits] == line[off..off + digits];
      assert line[..][..|text|] == text;
    }

    /** The three numbers in front of the data. */
    method ReadHeader(ghost text: string) returns (sequence: nat, address: nat, count: nat, ok: bool)
      requires Valid() && Holds(text) && text != ""
      ensures var f := ReadData(text);
              && ok == (f.sequence.Some? && f.address.Some? && f.count.Some?)
              && (f.sequence.Some? ==> sequence == f.sequence.value)
              && (f.sequence.None? ==> sequence == 0)
              && (ok ==> address == f.address.value && count == f.count.value)
    {
      hide HexValue, Valid, Holds, NumBytes;
      sequence, ok := Number(1, 4, true);
      FieldOf(text, 1, 4);
      address, ok := Number(5, 6, ok);
      if |text| >= 5 {
        FieldOf(text, 5, 6);
      }
      count, ok := Number(11, 2, ok);
      if |text| >= 11 {
        FieldOf(text, 11, 2);
      }
    }

    /** The data bytes into a buffer of their own. */
    method ReadBytes(ghost text: string, count: nat, data: array<byte>) returns (ok: bool)
      requires Valid() && Holds(text) && count <= MAXDATA == data.Length && |text| == 17 + 2 * count
      modifies data
      ensures ok == NumBytes(text, 13, count).Some?
      ensures ok ==> data[..count] == NumBytes(text, 13, count).value
    {
      hide HexValue, Holds, Num;
      ok := true;
      var i := 0;
      while i < count
        invariant i <= count && ok == NumBytes(text, 13, i).Some?
        invariant ok ==> data[..i] == NumBytes(text, 13, i).value
        invariant Valid() && Holds(text)
      {
        var b, ok' := Number(13 + 2 * i, 2, ok);
        FieldOf(text, 13 + 2 * i, 2);
        TwoDigits(line[13 + 2 * i..15 + 2 * i], b);
        ok := ok';
        data[i] := b;
        assert data[..i + 1] == data[..i] + [b];
        i := i + 1;
      }
    }

    /** data_record. */
    method DataRecord(ghost text: string, length: nat) returns (reply: string)
      requires Valid() && Holds(text) && text != "" && length == |text|
      modifies this, memory
      ensures Valid()
      ensures var r := DataStep(old(State()), text); State() == r.state && reply == r.reply
    {
      hide HexValue, Holds, Hex, Low, Masked, CrcByte, CrcBytes, RecordBytes, Value, NumBytes, Num;
      var sequence, address, count, ok := ReadHeader(text);
      if !ok || count > MAXDATA || length != 17 + count * 2 {
        reply := PutNack(sequence, 'F');
        return;
      }
      var buffer := new byte[MAXDATA];
      ok := ReadBytes(text, count, buffer);
      var supplied;
      supplied, ok := Number(13 + count * 2, 4, ok);
      FieldOf(text, 13 + 2 * count, 4);
      if !ok {
        reply := PutNack(sequence, 'H');
        return;
      }
      var data := buffer[..count];
      var crc := AddRecord(FreshCrc(), sequence, address, data);
      if Value(Low(crc)) != supplied {
        reply := PutNack(sequence, 'C');
        return;
      }
      if sequence == (expectedSeq - 1) % 65536 {
        reply := PutAck('A', sequence);
        return;
      }
      if sequence != expectedSeq {
        reply := PutNack(sequence, 'S');
        return;
      }
      AddressFits(text);
      reply := StoreRecord(address, data);
    }

    lemma AddressFits(text: string)
      requires Num(text, 5, 6).Some?
      ensures Num(text, 5, 6).value < 0x1000000
    {
      HexValueBound(text[5..11]);
      Powers();
    }

    method WriteData(address: nat, data: seq<byte>)
      requires address + |data| <= memory.Length
      modifies memory
      ensures memory[..] == Store(old(memory[..]), address, data)
    {
      var i := 0;
      while i < |data|
        invariant i <= |data|
        invariant forall k :: 0 <= k < i ==> memory[address + k] == data[k]
        invariant forall k :: 0 <= k < memory.Length && !(address <= k < address + i)
                    ==> memory[k] == old(memory[k])
      {
        memory[address + i] := data[i];
        i := i + 1;
      }
      assert memory[address..address + |data|] == data;
    }

    /** The readback. */
    method CompareData(address: nat, data: seq<byte>) returns (same: bool)
      requires address + |data| <= memory.Length
      ensures same == (memory[address..address + |data|] == data)
    {
      var i := 0;
      while i < |data|
        invariant i <= |data| && memory[address..address + i] == data[..i]
      {
        assert memory[address..address + |data|][i] == memory[address + i];
        if memory[address + i] != data[i] {
          return false;
        }
        i := i + 1;
      }
      return true;
    }

    /** The part of data_record after the sequence number was found to be the expected one. */
    method StoreRecord(address: nat, data: seq<byte>) returns (reply: string)
      requires Valid() && address < 0x1000000
      modifies this, memory
      ensures Valid()
      ensures var r := StoreStep(old(State()), address, data); State() == r.state && reply == r.reply
    {
      hide Hex, Low, Masked, CrcByte, CrcBytes, RecordBytes;
      var sequence := expectedSeq;
      if Signed24(address) < 0 || Signed24(address) + |data| > LOADER_BASE {
        reply := PutNack(sequence, 'R');
        return;
      }
      WriteData(address, data);
      streamCrc := AddRecord(streamCrc, sequence, address, data);
      var same := CompareData(address, data);
      if !same {
        // Answered with an M only by memory that does not keep what is written.
        assert false;
      }
      expectedSeq := (expectedSeq + 1) % 65536;
      finalized := false;
      reply := PutAck('A', sequence);
    }

    /** end_record. */
    method EndRecord(ghost text: string, length: nat) returns (reply: string)
      requires Valid() && Holds(text) && text != "" && length == |text|
      modifies this
      ensures Valid()
      ensures var r := EndStep(old(State()), text); State() == r.state && reply == r.reply
    {
      hide HexValue, Hex, Low, Masked, Value;
      var sequence, ok := Number(1, 4, true);
      FieldOf(text, 1, 4);
      var crc;
      crc, ok := Number(5, 4, ok);
      if |text| >= 5 {
        FieldOf(text, 5, 4);
      }
      if !ok || length != 9 || sequence != expectedSeq || crc != Value(Low(streamCrc)) {
        reply := PutNack(sequence, 'E');
        return;
      }
      finalized := true;
      reply := PutAck('F', sequence);
    }

    /** go_record, up to the jump. */
    method GoRecord(ghost text: string, length: nat) returns (reply: string, jump: Option<int>)
      requires Valid() && Holds(text) && text != "" && length == |text|
      ensures var r := GoStep(State(), text); reply == r.reply && jump == r.jump && State() == r.state
    {
      hide HexValue, Hex, Low, Masked, Value;
      var address, ok := Number(1, 6, true);
      FieldOf(text, 1, 6);
      var signed := Signed24(address);
      if !ok || length != 7 || !finalized || signed >= LOADER_BASE {
        reply := PutNack(expectedSeq, 'G');
        return reply, None;
      }
      var digits := PutHex(signed, 6);
      Powers();
      HexWraps(address, 6);
      return "J" + digits, Some(signed);
    }

    /** One turn of the loop in main: a line in, an answer out. */
    method Serve(input: string) returns (reply: string, jump: Option<int>, used: nat)
      requires Valid() && '\n' in input
      modifies this, memory, line
      ensures Valid()
      ensures var r := LoaderStep(old(State()), ReceivedLine(input));
              State() == r.state && reply == r.reply && jump == r.jump
      ensures used == |UpToNewline(input)| + 1
    {
      hide HexValue, Hex, Low, Masked, Value, DataStep, EndStep, GoStep;
      var length;
      length, used := GetLine(input);
      jump := None;
      if length < 1 {
        reply := PutNack(expectedSeq, 'L');
        return;
      }
      ghost var text := ReceivedLine(input).value;
      assert line[0] == text[0];
      if line[0] == 'D' {
        reply := DataRecord(text, length);
      } else if line[0] == 'E' {
        reply := EndRecord(text, length);
      } else if line[0] == 'G' {
        reply, jump := GoRecord(text, length);
      } else if line[0] == 'H' && length == 1 {
        reply := READY;
      } else {
        reply := PutNack(expectedSeq, '?');
      }
    }
  }

  /** 0xffff in a 24-bit word. */
  function FreshCrc(): (w: seq<bool>)
    ensures |w| == 24 && Masked(w) && Low(w) == INITIAL
  {
    [false, false, false, false, false, false, false, false] + Ones(16)
  }

  lemma TwoDigits(s: string, b: nat)
    requires |s| == 2 && b == if HexValue(s).Some? then HexValue(s).value else 0
    ensures b < 256
  {
    Powers();
    if HexValue(s).Some? {
      HexValueBound(s);
    }
  }
}
