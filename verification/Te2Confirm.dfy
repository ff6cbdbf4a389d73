/** What the loader's answers to D and E lines mean, for any lines whatever: which lines are
    taken, and what has been stored when a stream is confirmed. */
module Te2Confirm {
  import opened Crc
  import opened Te2Wire
  import opened Te2Loader
  import opened Te2Protocol
  import opened Wrappers

  // E lines

  /** E, the expected number and the stream CRC in eight hexadecimal digits. */
  predicate Confirms(line: string, expected: nat, stream: register) {
    && |line| == 9 && line[0] == 'E'
    && HexValue(line[1..5]) == Some(expected) && HexValue(line[5..]) == Some(Value(stream))
  }

  /** The answer starts with F exactly for such a line; any other E line is refused. Nothing else
      makes the loader regard the stream as confirmed. */
  lemma EndExactly(s: LoaderState, line: string)
    requires s.Valid()
    ensures var r := LoaderStep(s, Some(line));
      && (r.reply != "" && r.reply[0] == 'F' <==> Confirms(line, s.expected, s.stream))
      && (Confirms(line, s.expected, s.stream) ==>
            r == Reaction(s.(finalized := true), Ack('F', s.expected), None, None))
      && (line != "" && line[0] == 'E' && !Confirms(line, s.expected, s.stream) ==>
            r.state == s && r.reply != "" && r.reply[0] == 'N')
      && (r.state.finalized && !s.finalized ==> Confirms(line, s.expected, s.stream))
  {
    hide HexValue, Hex, DataStep, Value;
    AnswersTellTruth(s, Some(line));
    if line != "" && line[0] == 'E' && |line| == 9 {
      assert line[5..] == line[5..9];
    }
    if line != "" && line[0] == 'D' {
      DataNotFinal(s, line);
    }
  }

  lemma DataNotFinal(s: LoaderState, line: string)
    requires s.Valid()
    ensures DataStep(s, line).state.finalized ==> s.finalized
    ensures DataStep(s, line).reply != "" && DataStep(s, line).reply[0] != 'F'
  {
    hide HexValue, Hex, HexBytes, RecordCrc, NumBytes, RecordBytes, CrcBytes, Store, Pow16;
    if Num(line, 5, 6).Some? {
      HexValueBound(line[5..11]);
      Powers();
    }
  }

  /** Digits tell numbers apart. */
  lemma {:induction false} SameDigits(a: string, b: string, i: nat)
    requires |a| == |b| && HexValue(a).Some? && HexValue(a) == HexValue(b) && i < |a|
    ensures DigitValue(a[i]) == DigitValue(b[i])
    decreases |a|
  {
    hide DigitValue;
    var n := |a| - 1;
    LastDigit(HexValue(a).value, HexValue(a[..n]).value, DigitValue(a[n]));
    LastDigit(HexValue(b).value, HexValue(b[..n]).value, DigitValue(b[n]));
    if i < n {
      SameDigits(a[..n], b[..n], i);
    }
  }

  /** An E line that the loader would confirm, damaged on the way in more than the case of its
      digits but for its length, is refused and changes nothing. */
  lemma DamagedEnd(s: LoaderState, line: string, i: nat)
    requires s.Valid() && |line| == 9 && i < 9
    requires var sent := EndLine(s.expected, s.stream);
      if i == 0 then line[0] != sent[0] else DigitValue(line[i]) != DigitValue(sent[i])
    ensures var r := LoaderStep(s, Some(line)); Refusal(r.reply) && r.state == s
  {
    hide HexValue, Hex, Value, DigitValue, Num, EndLine;
    var sent := EndLine(s.expected, s.stream);
    EndLineRoundTrip(s.expected, s.stream);
    NineCharacters(s, line);
    if Confirms(line, s.expected, s.stream) {
      NumIs(sent, 1);
      NumIs(sent, 5);
      assert sent[5..] == sent[5..9];
      if 1 <= i < 5 {
        SameDigits(line[1..5], sent[1..5], i - 1);
      } else if i >= 5 {
        SameDigits(line[5..], sent[5..], i - 5);
      }
    }
  }

  lemma NumIs(line: string, off: nat)
    requires off + 4 <= |line|
    ensures Num(line, off, 4) == HexValue(line[off..off + 4])
  {
  }

  /** A line of nine characters is confirmed or refused. */
  lemma NineCharacters(s: LoaderState, line: string)
    requires s.Valid() && |line| == 9
    ensures var r := LoaderStep(s, Some(line));
      Confirms(line, s.expected, s.stream) || (Refusal(r.reply) && r.state == s)
  {
    EndExactly(s, line);
    hide HexValue, Hex, Value, DigitValue, HexBytes, RecordCrc, NumBytes, RecordBytes, CrcBytes, Store, Pow16, Confirms;
  }

  // D lines

  /** A record, whole and with its CRC. */
  predicate Sound(line: string) {
    && line != "" && line[0] == 'D'
    && var f := ReadData(line);
       && Complete(f) && f.count.value <= MAXDATA && |line| == 17 + 2 * f.count.value
       && f.crc.value == RecordCrc(f.sequence.value, f.address.value, f.data.value)
  }

  /** A record is stored exactly if its line is sound, its number the expected one and its place
      below the loader; it is acknowledged unstored exactly if its number is the one before.
      A sound record with any other number is refused with S, and changes nothing. */
  lemma DataExactly(s: LoaderState, line: string)
    requires s.Valid()
    ensures var r, f := LoaderStep(s, Some(line)), ReadData(line);
      && (r.stored.Some? <==>
            Sound(line) && f.sequence.value == s.expected && f.sequence.value != (s.expected - 1) % 65536
            && f.address.value + |f.data.value| <= LOADER_BASE)
      && (r.stored.Some? ==> r.stored.value == Record(f.address.value, f.data.value))
      && (Sound(line) && f.sequence.value == (s.expected - 1) % 65536 ==>
            r == Reaction(s, Ack('A', f.sequence.value), None, None))
      && (Sound(line) && f.sequence.value != s.expected && f.sequence.value != (s.expected - 1) % 65536 ==>
            r == Refuse(s, f.sequence.value, 'S'))
      && (r.reply != "" && r.reply[0] == 'A' ==>
            Sound(line) && (f.sequence.value == s.expected || f.sequence.value == (s.expected - 1) % 65536))
  {
    hide HexValue, Hex, HexBytes, RecordCrc, NumBytes, RecordBytes, CrcBytes, Store, Pow16;
    if line != "" && line[0] == 'D' {
      if Num(line, 5, 6).Some? {
        HexValueBound(line[5..11]);
        Powers();
      }
      if ReadData(line).data.Some? {
        NumBytesLength(line, 13, if ReadData(line).count.Some? then ReadData(line).count.value else 0);
      }
    }
  }

  // Any lines fed to a fresh loader

  datatype History = History(state: LoaderState, stored: seq<Record>)

  function Fed(memory: seq<byte>, lines: seq<Option<string>>): (h: History)
    requires |memory| >= LOADER_BASE
    ensures h.state.Valid()
  {
    if lines == [] then History(LoaderState(0, INITIAL, false, memory), [])
    else
      var n := |lines| - 1;
      var before := Fed(memory, lines[..n]);
      var r := LoaderStep(before.state, lines[n]);
      History(r.state, before.stored + if r.stored.Some? then [r.stored.value] else [])
  }

  /** The numbers of records and then their data, one after the other. */
  function AllBytes(records: seq<Record>): seq<byte> {
    if records == [] then []
    else
      var n := |records| - 1;
      AllBytes(records[..n]) + RecordBytes(n % 65536, records[n].address, records[n].data)
  }

  lemma {:induction false} CrcBoth(r: register, a: seq<byte>, b: seq<byte>)
    ensures CrcBytes(r, a + b) == CrcBytes(CrcBytes(r, a), b)
    decreases |a|
  {
    hide CrcByte;
    if a == [] {
      assert a + b == b;
    } else {
      assert (a + b)[1..] == a[1..] + b;
      CrcBoth(CrcByte(r, a[0]), a[1..], b);
    }
  }

  /** The loader's state says what it has stored. */
  ghost predicate Tells(memory: seq<byte>, h: History)
    requires |memory| >= LOADER_BASE
  {
    && (forall i :: 0 <= i < |h.stored| ==> Fits(h.stored[i]))
    && h.state.memory == Overlay(memory, h.stored)
    && h.state.expected == |h.stored| % 65536
    && h.state.stream == CrcBytes(INITIAL, AllBytes(h.stored))
  }

  lemma {:induction false} StateTells(memory: seq<byte>, lines: seq<Option<string>>)
    requires |memory| >= LOADER_BASE
    ensures Tells(memory, Fed(memory, lines))
    decreases |lines|
  {
    hide LoaderStep, Tells;
    if lines == [] {
      StartTells(memory);
    } else {
      var n := |lines| - 1;
      StateTells(memory, lines[..n]);
      StepTells(memory, Fed(memory, lines[..n]), lines[n]);
    }
  }

  lemma StartTells(memory: seq<byte>)
    requires |memory| >= LOADER_BASE
    ensures Tells(memory, History(LoaderState(0, INITIAL, false, memory), []))
  {
    CrcNothing(INITIAL);
  }

  lemma StepTells(memory: seq<byte>, h: History, line: Option<string>)
    requires |memory| >= LOADER_BASE && h.state.Valid() && Tells(memory, h)
    ensures var r := LoaderStep(h.state, line);
      Tells(memory, History(r.state, h.stored + if r.stored.Some? then [r.stored.value] else []))
  {
    hide CrcBytes, LoaderStep, Store, RecordBytes, AllBytes, Overlay, Truthful;
    var r := LoaderStep(h.state, line);
    AnswersTellTruth(h.state, line);
    TruthStores(h.state, r);
    if r.stored.Some? {
      StoredFolds(h.state, line);
      var t := r.stored.value;
      OneMore(memory, h.stored, t);
      CrcBoth(INITIAL, AllBytes(h.stored), RecordBytes(h.state.expected, t.address, t.data));
    } else {
      assert h.stored + [] == h.stored;
    }
  }

  /** What an honest answer says of the memory and the count. */
  ghost predicate Stores(s: LoaderState, r: Reaction) {
    && (r.stored.Some? ==>
          var t := r.stored.value;
          t.address + |t.data| <= |s.memory| && r.state.memory == Store(s.memory, t.address, t.data))
    && (r.stored.None? ==>
          r.state.memory == s.memory && r.state.stream == s.stream && r.state.expected == s.expected)
  }

  lemma TruthStores(s: LoaderState, r: Reaction)
    requires Truthful(s, r)
    ensures Stores(s, r)
  {
    hide Store;
  }

  lemma OneMore(memory: seq<byte>, records: seq<Record>, t: Record)
    requires |memory| >= LOADER_BASE && Fits(t) && forall i :: 0 <= i < |records| ==> Fits(records[i])
    ensures forall i :: 0 <= i < |records + [t]| ==> Fits((records + [t])[i])
    ensures Overlay(memory, records + [t]) == Store(Overlay(memory, records), t.address, t.data)
    ensures AllBytes(records + [t]) == AllBytes(records) + RecordBytes(|records| % 65536, t.address, t.data)
  {
    hide Store, RecordBytes;
    assert (records + [t])[..|records|] == records;
  }

  /** Storing a record takes it into the stream CRC and counts it. */
  lemma StoredFolds(s: LoaderState, line: Option<string>)
    requires s.Valid() && LoaderStep(s, line).stored.Some?
    ensures var r := LoaderStep(s, line);
      && r.state.expected == (s.expected + 1) % 65536 && !r.state.finalized && Fits(r.stored.value)
      && r.state.stream == CrcBytes(s.stream, RecordBytes(s.expected, r.stored.value.address, r.stored.value.data))
  {
    hide HexValue, Hex, HexBytes, RecordCrc, RecordBytes, CrcBytes, Store, Pow16;
    DataExactly(s, line.value);
    if Num(line.value, 5, 6).Some? {
      HexValueBound(line.value[5..11]);
      Powers();
    }
    var f := ReadData(line.value);
    NumBytesLength(line.value, 13, if f.count.Some? then f.count.value else 0);
  }

  /** The line confirms exactly these records. */
  predicate ConfirmsAll(line: Option<string>, records: seq<Record>) {
    line.Some? && Confirms(line.value, |records| % 65536, CrcBytes(INITIAL, AllBytes(records)))
  }

  /** Line `i` confirms exactly these records, which were those stored when it came. */
  predicate ConfirmedAt(memory: seq<byte>, lines: seq<Option<string>>, i: nat, records: seq<Record>)
    requires |memory| >= LOADER_BASE && i < |lines|
  {
    ConfirmsAll(lines[i], records) && Fed(memory, lines[..i]).stored == records
  }

  /** Whatever lines have been fed to a fresh loader: it holds the stream for confirmed if and
      only if one of them was an E line with the count and the CRC of exactly the records
      stored since the start, and none has been stored behind it. */
  lemma {:induction false} ConfirmedExactly(memory: seq<byte>, lines: seq<Option<string>>)
    requires |memory| >= LOADER_BASE
    ensures var h := Fed(memory, lines);
      h.state.finalized <==> exists i :: 0 <= i < |lines| && ConfirmedAt(memory, lines, i, h.stored)
    decreases |lines|
  {
    hide CrcBytes, LoaderStep, Confirms, AllBytes, ConfirmsAll, ConfirmedAt;
    if lines != [] {
      var n := |lines| - 1;
      ConfirmedExactly(memory, lines[..n]);
      LineConfirms(memory, lines[..n], lines[n]);
      var before, h := Fed(memory, lines[..n]), Fed(memory, lines);
      forall i | 0 <= i < n
        ensures ConfirmedAt(memory, lines[..n], i, h.stored) == ConfirmedAt(memory, lines, i, h.stored)
      {
        EarlierLine(memory, lines, i, h.stored);
      }
      forall i | 0 <= i <= n && h.stored != before.stored ensures !ConfirmedAt(memory, lines, i, h.stored) {
        NotBefore(memory, lines, i);
      }
      LastLine(memory, lines);
      assert before.stored + [] == before.stored;
    }
  }

  lemma EarlierLine(memory: seq<byte>, lines: seq<Option<string>>, i: nat, records: seq<Record>)
    requires |memory| >= LOADER_BASE && i + 1 < |lines|
    ensures ConfirmedAt(memory, lines[..|lines| - 1], i, records) == ConfirmedAt(memory, lines, i, records)
  {
    hide Fed, ConfirmsAll;
    assert lines[..|lines| - 1][..i] == lines[..i];
  }

  lemma NotBefore(memory: seq<byte>, lines: seq<Option<string>>, i: nat)
    requires |memory| >= LOADER_BASE && i < |lines|
    requires |Fed(memory, lines).stored| > |Fed(memory, lines[..|lines| - 1]).stored|
    ensures !ConfirmedAt(memory, lines, i, Fed(memory, lines).stored)
  {
    hide Fed, ConfirmsAll;
    StoredGrows(memory, lines[..|lines| - 1], i);
    assert lines[..|lines| - 1][..i] == lines[..i];
  }

  lemma LastLine(memory: seq<byte>, lines: seq<Option<string>>)
    requires |memory| >= LOADER_BASE && lines != []
    ensures var n := |lines| - 1; var stored := Fed(memory, lines).stored;
      Fed(memory, lines[..n]).stored == stored ==>
        (ConfirmedAt(memory, lines, n, stored) <==> ConfirmsAll(lines[n], stored))
  {
    hide Fed, ConfirmsAll;
  }

  lemma LineConfirms(memory: seq<byte>, lines: seq<Option<string>>, line: Option<string>)
    requires |memory| >= LOADER_BASE
    ensures var h := Fed(memory, lines); var r := LoaderStep(h.state, line);
      && (r.stored.Some? ==> !r.state.finalized)
      && (r.stored.None? ==> (r.state.finalized <==> h.state.finalized || ConfirmsAll(line, h.stored)))
  {
    hide LoaderStep, Confirms, Fed, AllBytes, CrcBytes, Overlay;
    StateTells(memory, lines);
    LineEffect(Fed(memory, lines).state, line);
  }

  /** A line confirms the stream, stores a record, or leaves both as they are. */
  lemma LineEffect(s: LoaderState, line: Option<string>)
    requires s.Valid()
    ensures var r := LoaderStep(s, line);
      && (r.stored.Some? ==> !r.state.finalized)
      && (r.stored.None? ==>
            (r.state.finalized <==> s.finalized || (line.Some? && Confirms(line.value, s.expected, s.stream))))
  {
    hide Confirms, Value, Hex, DataStep;
    if line.Some? {
      EndExactly(s, line.value);
      AnswersTellTruth(s, line);
      KeepsFinal(s, line.value);
    }
  }

  lemma KeepsFinal(s: LoaderState, line: string)
    requires s.Valid()
    ensures var r := LoaderStep(s, Some(line)); r.stored.None? && s.finalized ==> r.state.finalized
  {
    hide HexValue, Hex, HexBytes, RecordCrc, NumBytes, RecordBytes, CrcBytes, Store, Pow16;
    if Num(line, 5, 6).Some? {
      HexValueBound(line[5..11]);
      Powers();
    }
  }

  lemma {:induction false} StoredGrows(memory: seq<byte>, lines: seq<Option<string>>, i: nat)
    requires |memory| >= LOADER_BASE && i <= |lines|
    ensures Fed(memory, lines[..i]).stored <= Fed(memory, lines).stored
    decreases |lines|
  {
    hide LoaderStep;
    if i < |lines| {
      StoredGrows(memory, lines[..|lines| - 1], i);
      assert lines[..|lines| - 1][..i] == lines[..i];
    } else {
      assert lines[..i] == lines;
    }
  }

  /** A jump is taken only with all records stored so far confirmed. */
  lemma JumpsConfirmed(memory: seq<byte>, lines: seq<Option<string>>, line: Option<string>)
    requires |memory| >= LOADER_BASE && LoaderStep(Fed(memory, lines).state, line).jump.Some?
    ensures var h := Fed(memory, lines);
      && Tells(memory, h)
      && exists i :: 0 <= i < |lines| && ConfirmedAt(memory, lines, i, h.stored)
  {
    hide LoaderStep, ConfirmedAt, Fed, Tells;
    AnswersTellTruth(Fed(memory, lines).state, line);
    StateTells(memory, lines);
    ConfirmedExactly(memory, lines);
  }
}
