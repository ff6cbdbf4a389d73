/** The target side of the te2 upload protocol: the second-stage loader as a function from a
    received line to the new state and the answer. Te2Target is the program that computes
    it. */
module Te2Loader {
  import opened Crc
  import opened Te2Wire
  import opened Wrappers

  const LOADER_BASE: nat := 0x0fc000
  const MAXDATA: nat := 32
  const MAXLINE: nat := 128

  datatype Record = Record(address: nat, data: seq<byte>)

  /** What the loader keeps between lines. `memory` is the memory from address 0 up. */
  datatype LoaderState = LoaderState(expected: nat, stream: register, finalized: bool,
                                     memory: seq<byte>)
  {
    predicate Valid() { expected < 65536 && |memory| >= LOADER_BASE }
  }

  /** The answer, the record just stored and the address just jumped to, if any. */
  datatype Reaction = Reaction(state: LoaderState, reply: string, stored: Option<Record>,
                               jump: Option<int>)

  /** Memory with `data` written from `address` on. */
  function Store(memory: seq<byte>, address: nat, data: seq<byte>): (m: seq<byte>)
    requires address + |data| <= |memory|
    ensures |m| == |memory|
  {
    memory[..address] + data + memory[address + |data|..]
  }

  lemma StoreNothing(memory: seq<byte>, a: nat)
    requires a <= |memory|
    ensures Store(memory, a, []) == memory
  {
  }

  function Ack(prefix: char, sequence: nat): string { [prefix] + Hex(sequence, 4) }

  function Nack(sequence: nat, reason: char): string { "N" + Hex(sequence, 4) + [reason] }

  function Refuse(s: LoaderState, sequence: nat, reason: char): Reaction {
    Reaction(s, Nack(sequence, reason), None, None)
  }

  /** A number read into a 24-bit int. */
  function Signed24(v: nat): int { if v < 0x800000 then v else v - 0x1000000 }

  const READY := "TE2 READY 1"

  function DataStep(s: LoaderState, line: string): (r: Reaction)
    requires s.Valid()
    ensures r.state.Valid() && r.jump.None?
  {
    var f := ReadData(line);
    var sequence := if f.sequence.Some? then f.sequence.value else 0;
    if f.sequence.None? || f.address.None? || f.count.None? || f.count.value > MAXDATA
       || |line| != 17 + 2 * f.count.value then Refuse(s, sequence, 'F')
    else if f.data.None? || f.crc.None? then Refuse(s, sequence, 'H')
    else if RecordCrc(sequence, f.address.value, f.data.value) != f.crc.value then Refuse(s, sequence, 'C')
    else if sequence == (s.expected - 1) % 65536 then Reaction(s, Ack('A', sequence), None, None)
    else if sequence != s.expected then Refuse(s, sequence, 'S')
    else
      HexValueBound(line[5..11]);
      Powers();
      StoreStep(s, f.address.value, f.data.value)
  }

  function StoreStep(s: LoaderState, address: nat, data: seq<byte>): (r: Reaction)
    requires s.Valid() && address < 0x1000000
    ensures r.state.Valid() && r.jump.None?
  {
    if Signed24(address) < 0 || Signed24(address) + |data| > LOADER_BASE then Refuse(s, s.expected, 'R')
    else
      Reaction(LoaderState((s.expected + 1) % 65536,
                           CrcBytes(s.stream, RecordBytes(s.expected, address, data)),
                           false,
                           Store(s.memory, address, data)),
               Ack('A', s.expected), Some(Record(address, data)), None)
  }

  function EndStep(s: LoaderState, line: string): (r: Reaction)
    ensures r.jump.None?
  {
    var sequence := Num(line, 1, 4);
    var crc := Num(line, 5, 4);
    if sequence.None? || crc.None? || |line| != 9
       || sequence.value != s.expected || crc.value != Value(s.stream)
    then Refuse(s, if sequence.Some? then sequence.value else 0, 'E')
    else Reaction(s.(finalized := true), Ack('F', sequence.value), None, None)
  }

  function GoStep(s: LoaderState, line: string): Reaction {
    var address := Num(line, 1, 6);
    if address.None? || |line| != 7 || !s.finalized || Signed24(address.value) >= LOADER_BASE
    then Refuse(s, s.expected, 'G')
    else Reaction(s, "J" + Hex(address.value, 6), None, Some(Signed24(address.value)))
  }

  /** What the loader does with one line; `None` is a line too long for the buffer. */
  function LoaderStep(s: LoaderState, line: Option<string>): (r: Reaction)
    requires s.Valid()
    ensures r.state.Valid()
  {
    if line.None? || line.value == "" then Refuse(s, s.expected, 'L')
    else if line.value[0] == 'D' then DataStep(s, line.value)
    else if line.value[0] == 'E' then EndStep(s, line.value)
    else if line.value[0] == 'G' then GoStep(s, line.value)
    else if line.value == "H" then Reaction(s, READY, None, None)
    else Refuse(s, s.expected, '?')
  }

  // What the answers say

  predicate Refusal(reply: string) { reply != "" && (reply[0] == 'N' || reply[0] == 'T') }

  /** An answer that is not an acknowledgement means nothing happened; an A means one
      record was stored or nothing happened; only J comes with a jump. */
  ghost predicate Truthful(s: LoaderState, r: Reaction) {
    && r.reply != "" && r.reply[0] in "NTAFJ"
    && (Refusal(r.reply) ==> r == Reaction(s, r.reply, None, None))
    && (r.reply[0] == 'F' ==> r.state == s.(finalized := true) && r.stored.None?)
    && (r.reply[0] == 'J' <==> r.jump.Some?)
    && (r.jump.Some? ==> s.finalized && r.state == s)
    && (r.stored.Some? ==> r.reply == Ack('A', s.expected) && !r.state.finalized)
    && (r.stored.Some? ==> var t := r.stored.value;
                           t.address + |t.data| <= LOADER_BASE <= |s.memory|
                           && r.state.memory == Store(s.memory, t.address, t.data))
    && (r.stored.None? ==> r.state.memory == s.memory && r.state.stream == s.stream
                           && r.state.expected == s.expected)
  }

  lemma DataTruthful(s: LoaderState, line: string)
    requires s.Valid()
    ensures Truthful(s, DataStep(s, line))
  {
    hide Hex, HexBytes, HexValue, RecordCrc, NumBytes, Pow16, RecordBytes, CrcBytes, Store;
    if Num(line, 5, 6).Some? {
      HexValueBound(line[5..11]);
      Powers();
    }
  }

  lemma AnswersTellTruth(s: LoaderState, line: Option<string>)
    requires s.Valid()
    ensures Truthful(s, LoaderStep(s, line))
  {
    hide ReadData, Hex, Num, DataStep, LoaderState.Valid, Signed24;
    if line.Some? {
      DataTruthful(s, line.value);
    }
  }

  /** A jump is taken exactly for a well-formed G line after the stream was confirmed, to an
      address below the loader or to one with its top bit set: the comparison is signed, so
      addresses of 0x800000 and more are not kept away from the loader by it. */
  lemma JumpExactly(s: LoaderState, address: nat)
    requires s.Valid() && address < 0x1000000
    ensures LoaderStep(s, Some(GoLine(address))).jump.Some?
       <==> s.finalized && (address < LOADER_BASE || address >= 0x800000)
  {
    GoLineRoundTrip(address);
  }

  /** The intended guard, an entry below the loader, is not what G enforces. */
  lemma JumpAboveLoader(s: LoaderState)
    requires s.Valid() && s.finalized
    ensures LoaderStep(s, Some(GoLine(0x900000))).jump.Some?
  {
    JumpExactly(s, 0x900000);
  }

  /** A record the host formats is stored in the state that expects it. */
  lemma RecordAccepted(s: LoaderState, address: nat, data: seq<byte>)
    requires s.Valid() && |data| <= MAXDATA && address + |data| <= LOADER_BASE
    ensures LoaderStep(s, Some(DataLine(s.expected, address, data)))
         == Reaction(LoaderState((s.expected + 1) % 65536,
                                 CrcBytes(s.stream, RecordBytes(s.expected, address, data)),
                                 false, Store(s.memory, address, data)),
                     Ack('A', s.expected), Some(Record(address, data)), None)
  {
    hide Hex, HexBytes, RecordCrc, Num, NumBytes, Pow16, DataLine, RecordBytes, CrcBytes, Store;
    DataLineRoundTrip(s.expected, address, data);
  }

  /** The record before is acknowledged again and nothing else happens. */
  lemma DuplicateAcknowledged(s: LoaderState, address: nat, data: seq<byte>)
    requires s.Valid() && |data| <= MAXDATA && address < 0x1000000
    ensures LoaderStep(s, Some(DataLine((s.expected - 1) % 65536, address, data)))
         == Reaction(s, Ack('A', (s.expected - 1) % 65536), None, None)
  {
    hide Hex, HexBytes, RecordCrc, Num, NumBytes, Pow16, DataLine, RecordBytes, CrcBytes, Store;
    DataLineRoundTrip((s.expected - 1) % 65536, address, data);
  }

  /** The first record of an upload is stored exactly by a loader that expects it; one that
      a host attached to after a single record acknowledges it without storing it. */
  lemma FirstRecord(s: LoaderState, address: nat, data: seq<byte>)
    requires s.Valid() && |data| <= MAXDATA && address + |data| <= LOADER_BASE
    ensures var r := LoaderStep(s, Some(DataLine(0, address, data)));
            && (r.stored.Some? <==> s.expected == 0)
            && (r.reply == Ack('A', 0) && r.stored.None? <==> s.expected == 1)
  {
    hide Hex, HexBytes, RecordCrc, Num, NumBytes, Pow16, DataLine, RecordBytes, CrcBytes, Store;
    DataLineRoundTrip(0, address, data);
  }

  /** A record damaged on the way, but for its length, by a burst of at most 16 bits is refused,
      wherever in its numbers, its data or its CRC the burst lies. */
  lemma BurstRefused(s: LoaderState, line: string, sent: Fields, i: nat, n: nat)
    requires s.Valid() && line != "" && line[0] == 'D'
    requires Complete(sent) && Complete(ReadData(line)) && |Message(sent)| == |Message(ReadData(line))|
    requires sent.crc.value == RecordCrc(sent.sequence.value, sent.address.value, sent.data.value)
    requires Codeword(sent) != Codeword(ReadData(line))
    requires Burst(Codeword(sent), Codeword(ReadData(line)), i, n)
    ensures var r := LoaderStep(s, Some(line)); Refusal(r.reply) && r.state == s
  {
    hide Num, NumBytes, RecordBytes, CrcBytes, Store, MessageBits, Burst, Hex, Bits, Value;
    var f := ReadData(line);
    if RecordCrc(f.sequence.value, f.address.value, f.data.value) == f.crc.value {
      BitsValue(CrcBytes(INITIAL, Message(sent)));
      BitsValue(CrcBytes(INITIAL, Message(f)));
      CodewordsApart(INITIAL, Message(sent), Message(f), i, n);
    }
  }

  predicate Complete(f: Fields) {
    f.sequence.Some? && f.address.Some? && f.count.Some? && f.data.Some? && f.crc.Some?
  }

  function Message(f: Fields): seq<byte>
    requires Complete(f)
  {
    RecordBytes(f.sequence.value, f.address.value, f.data.value)
  }

  /** The bits of the record and of the CRC it carries. */
  function Codeword(f: Fields): seq<bool>
    requires Complete(f)
  {
    MessageBits(Message(f)) + Bits(f.crc.value, 16)
  }
}
