/** The same image typed at the ROM's monitor and uploaded by te2: when both leave the same
    memory and go to the same place. */
module TwoLoaders {
  import opened Te2Wire
  import opened Te2Loader
  import opened Te2Protocol
  import opened Te2Host
  import opened Te2Safety
  import opened RomLoader
  import opened Wrappers

  // The text of an image

  function Text(lines: seq<string>): string {
    if lines == [] then "" else Text(lines[..|lines| - 1]) + lines[|lines| - 1] + "\n"
  }

  /** No line break inside. */
  predicate Unbroken(line: string) { forall i :: 0 <= i < |line| ==> !EndsLine(line[i]) }

  /** The command lines the ROM finds in a line: its first 80 characters are lost when it does
      not fit, and the rest counts as a line. */
  function Accepted(line: string): seq<string> {
    if |line| <= 79 then [line] else Accepted(line[80..])
  }

  function AcceptedAll(lines: seq<string>): seq<string> {
    if lines == [] then [] else AcceptedAll(lines[..|lines| - 1]) + Accepted(lines[|lines| - 1])
  }

  lemma {:induction false} LengthIs(line: string, rest: string)
    requires Unbroken(line)
    ensures LineLength(line + "\n" + rest) == |line|
  {
    var input := line + "\n" + rest;
    assert forall i :: 0 <= i < |line| ==> input[i] == line[i];
    assert input[|line|] == '\n';
  }

  lemma {:induction false} LineTaken(line: string, rest: string)
    requires Unbroken(line)
    ensures Commands(line + "\n" + rest) == Accepted(line) + Commands(rest)
    decreases |line|
  {
    hide LineLength;
    var input := line + "\n" + rest;
    LengthIs(line, rest);
    if |line| <= 79 {
      assert input[..|line|] == line && input[|line| + 1..] == rest;
    } else {
      assert input[80..] == line[80..] + "\n" + rest;
      LineTaken(line[80..], rest);
    }
  }

  lemma {:induction false} TextTaken(lines: seq<string>, rest: string)
    requires forall i :: 0 <= i < |lines| ==> Unbroken(lines[i])
    ensures Commands(Text(lines) + rest) == AcceptedAll(lines) + Commands(rest)
    decreases |lines|
  {
    hide Commands, Accepted;
    if lines == [] {
      assert Text(lines) + rest == rest;
    } else {
      var n := |lines| - 1;
      TextTaken(lines[..n], lines[n] + "\n" + rest);
      LineTaken(lines[n], rest);
      assert Text(lines) + rest == Text(lines[..n]) + (lines[n] + "\n" + rest);
    }
  }

  lemma TextCommands(lines: seq<string>)
    requires forall i :: 0 <= i < |lines| ==> Unbroken(lines[i])
    ensures Commands(Text(lines)) == AcceptedAll(lines)
  {
    TextTaken(lines, "");
    assert Text(lines) + "" == Text(lines) && Commands("") == [];
  }

  predicate FitBuffer(lines: seq<string>) { forall i :: 0 <= i < |lines| ==> |lines[i]| <= 79 }

  /** Lines that fit arrive as they are. */
  lemma {:induction false} LinesArrive(lines: seq<string>)
    requires FitBuffer(lines) && forall i :: 0 <= i < |lines| ==> Unbroken(lines[i])
    ensures Commands(Text(lines)) == lines
  {
    TextCommands(lines);
    AllAccepted(lines);
  }

  lemma {:induction false} AllAccepted(lines: seq<string>)
    requires FitBuffer(lines)
    ensures AcceptedAll(lines) == lines
  {
    if lines != [] {
      var n := |lines| - 1;
      AllAccepted(lines[..n]);
      assert lines == lines[..n] + [lines[n]];
    }
  }

  // Lines that do not fit

  lemma {:induction false} ImageAppend(memory: seq<byte>, a: seq<string>, b: seq<string>)
    requires |memory| == SPACE && RomImage(memory, a).jump.None?
    ensures RomImage(memory, a + b) == RomImage(RomImage(memory, a).memory, b)
    decreases |b|
  {
    hide Command;
    if b == [] {
      assert a + b == a;
    } else {
      ImageAppend(memory, a, b[..|b| - 1]);
      assert (a + b)[..|a + b| - 1] == a + b[..|b| - 1];
    }
  }

  /** What is left of a long L line is not a command. */
  lemma {:induction false} DigitsIgnored(memory: seq<byte>, s: string)
    requires |memory| == SPACE && UpperHex(s)
    ensures RomImage(memory, Accepted(s)) == RomEnd(memory, None)
    decreases |s|
  {
    if |s| <= 79 {
      assert [s][..0] == [];
      assert s != "" ==> RomDigit(s[0]) >= 0;
    } else {
      DigitsIgnored(memory, s[80..]);
    }
  }

  function Short(lines: seq<string>): (r: seq<string>)
    ensures FitBuffer(r)
  {
    if lines == [] then []
    else
      var line := lines[|lines| - 1];
      Short(lines[..|lines| - 1]) + if |line| <= 79 then [line] else []
  }

  /** L lines may be too long, other lines may not. */
  predicate Tame(lines: seq<string>) {
    forall i :: 0 <= i < |lines| ==>
      Unbroken(lines[i]) && (|lines[i]| <= 79 || (lines[i][0] == 'L' && UpperHex(lines[i][1..])))
  }

  /** What further lines do depends on what the lines before have done. */
  lemma ImageThen(memory: seq<byte>, a: seq<string>, b: seq<string>)
    requires |memory| == SPACE
    ensures RomImage(memory, a + b)
         == var e := RomImage(memory, a); if e.jump.Some? then e else RomImage(e.memory, b)
  {
    hide RomImage;
    if RomImage(memory, a).jump.Some? {
      JumpStays(memory, a, b);
    } else {
      ImageAppend(memory, a, b);
    }
  }

  lemma LongAlone(memory: seq<byte>, line: string)
    requires |memory| == SPACE && |line| > 79 && line[0] == 'L' && UpperHex(line[1..])
    ensures RomImage(memory, Accepted(line)) == RomEnd(memory, None)
  {
    hide RomImage;
    assert line[80..] == line[1..][79..];
    DigitsIgnored(memory, line[80..]);
  }

  /** The ROM loads an image as if the L lines that do not fit were not there. */
  lemma {:induction false} LongLinesIgnored(memory: seq<byte>, lines: seq<string>)
    requires |memory| == SPACE && Tame(lines)
    ensures RomImage(memory, AcceptedAll(lines)) == RomImage(memory, Short(lines))
    decreases |lines|
  {
    hide UpperHex, Unbroken, RomImage, Accepted;
    if lines != [] {
      var n := |lines| - 1;
      var before, line := lines[..n], lines[n];
      LongLinesIgnored(memory, before);
      var e := RomImage(memory, AcceptedAll(before));
      ImageThen(memory, AcceptedAll(before), Accepted(line));
      ImageThen(memory, Short(before), if |line| <= 79 then [line] else []);
      if |line| <= 79 {
        AllAccepted([line]);
        assert AcceptedAll([line]) == [] + Accepted(line);
      } else if e.jump.None? {
        LongAlone(e.memory, line);
        NoLines(e.memory);
      }
    }
  }

  // Agreement

  /** L and G lines in upper case. */
  predicate Upper(lines: seq<string>) {
    forall i :: 0 <= i < |lines| && lines[i] != "" && (lines[i][0] == 'L' || lines[i][0] == 'G') ==>
      UpperHex(lines[i][1..])
  }

  predicate IsEntry(line: string) { line != "" && line[0] == 'G' }

  /** The ROM ignores lines that begin with another letter. */
  predicate IsCommand(line: string) { line != "" && (line[0] == 'L' || line[0] == 'G') }

  predicate EndsInEntry(lines: seq<string>) { lines != [] && IsEntry(lines[|lines| - 1]) }

  /** The commands up to the first entry, where the ROM jumps. */
  function Carried(lines: seq<string>): seq<string> {
    if lines == [] then []
    else
      var before, line := Carried(lines[..|lines| - 1]), lines[|lines| - 1];
      if EndsInEntry(before) || !IsCommand(line) then before else before + [line]
  }

  /** The part of an image that the ROM carries out. */
  function Taken(lines: seq<string>): seq<string> { Carried(AcceptedAll(lines)) }

  lemma RomLoads(memory: seq<byte>, line: string)
    requires |memory| == SPACE && ReadImageLine(line).Load? && UpperHex(line[1..])
    ensures var r := ReadImageLine(line).record;
            && r.address + |r.data| <= LOADER_BASE
            && Command(memory, line) == RomEnd(Store(memory, r.address, r.data), None)
  {
    hide Num, NumBytes, UpperHex, RomScan, Store;
    LoadFits(line);
    NumBytesLength(line, 7, (|line| - 7) / 2);
    ScanData(memory, line, (|line| - 7) / 2);
  }

  /** What the ROM makes of a good image line. */
  lemma LineKinds(memory: seq<byte>, line: string)
    requires |memory| == SPACE && !ReadImageLine(line).Bad?
    requires IsEntry(line) ==> UpperHex(line[1..])
    ensures ReadImageLine(line).Load? ==> line != "" && line[0] == 'L'
    ensures ReadImageLine(line).Entry? <==> IsEntry(line)
    ensures ReadImageLine(line).Entry? ==> Command(memory, line) == RomEnd(memory, Some(ReadImageLine(line).entry))
    ensures ReadImageLine(line).Skipped? ==> Command(memory, line) == RomEnd(memory, None)
  {
    hide NumBytes, HexValue, RomScan, UpperHex;
    if IsEntry(line) {
      assert line[1..] == line[1..7];
    }
  }

  /** Command lines that the ROM takes and records of any size applied in order leave the same
      memory, and both go to the entry. */
  lemma {:induction false} LinesAgree(memory: seq<byte>, lines: seq<string>, size: recordSize)
    requires |memory| == SPACE && Upper(Carried(lines)) && ReadImage(Carried(lines), size).Image?
    ensures var image := ReadImage(Carried(lines), size);
      RomImage(memory, lines) == RomEnd(Overlay(memory, image.records), image.entry)
    ensures ReadImage(Carried(lines), size).entry.Some? <==> EndsInEntry(Carried(lines))
    decreases |lines|
  {
    hide Chunks, Store, UpperHex, ReadImageLine, Command, IsEntry, IsCommand;
    if lines != [] {
      var n := |lines| - 1;
      var before, line := lines[..n], lines[n];
      var done := Carried(before);
      if Carried(lines) != done {
        assert Carried(lines)[..|done|] == done;
        UpperPrefix(done, line);
      }
      LinesAgree(memory, before, size);
      var m := RomImage(memory, before).memory;
      if !EndsInEntry(done) {
        if IsCommand(line) {
          LineKinds(m, line);
          if ReadImageLine(line).Load? {
            var r := ReadImageLine(line).record;
            RomLoads(m, line);
            ChunksStore(memory, ReadImage(done, size).records, r.address, r.data, size);
          }
        } else {
          Ignored(m, line);
        }
      }
    }
  }

  lemma Ignored(memory: seq<byte>, line: string)
    requires |memory| == SPACE && !IsCommand(line)
    ensures Command(memory, line) == RomEnd(memory, None)
  {
  }

  lemma UpperPrefix(lines: seq<string>, line: string)
    requires Upper(lines + [line])
    ensures Upper(lines) && (IsCommand(line) ==> UpperHex(line[1..]))
    ensures IsEntry(line) ==> IsCommand(line)
  {
    hide UpperHex;
    forall i | 0 <= i < |lines| ensures (lines + [line])[i] == lines[i] {
    }
    assert (lines + [line])[|lines|] == line;
  }

  /** What the ROM loads of an image with lines of any length and where it goes: the commands it
      carries out, as an upload of them alone would do. */
  lemma RomLoadsTaken(memory: seq<byte>, lines: seq<string>, size: recordSize)
    requires |memory| == SPACE && forall i :: 0 <= i < |lines| ==> Unbroken(lines[i])
    requires Upper(Taken(lines)) && ReadImage(Taken(lines), size).Image?
    ensures var image := ReadImage(Taken(lines), size);
      RomImage(memory, Commands(Text(lines))) == RomEnd(Overlay(memory, image.records), image.entry)
  {
    hide RomImage, Overlay, Upper, UpperHex, Unbroken, Commands, Text, AcceptedAll, Carried, ReadImage;
    TextCommands(lines);
    LinesAgree(memory, AcceptedAll(lines), size);
  }

  /** The bytes that records leave behind. */
  function Written(records: seq<Record>): map<nat, byte> {
    if records == [] then map[]
    else
      var last := records[|records| - 1];
      Written(records[..|records| - 1])
      + map a: nat | last.address <= a < last.address + |last.data| :: ByteAt(last, a)
  }

  function ByteAt(r: Record, a: nat): byte
    requires r.address <= a < r.address + |r.data|
  {
    r.data[a - r.address]
  }

  lemma StoreAt(memory: seq<byte>, address: nat, data: seq<byte>, a: nat)
    requires address + |data| <= |memory| && a < |memory|
    ensures Store(memory, address, data)[a]
         == if address <= a < address + |data| then data[a - address] else memory[a]
  {
  }

  lemma WrittenAt(records: seq<Record>, a: nat)
    requires records != []
    ensures var last, before := records[|records| - 1], Written(records[..|records| - 1]);
      if last.address <= a < last.address + |last.data| then
        a in Written(records) && Written(records)[a] == ByteAt(last, a)
      else if a in before then a in Written(records) && Written(records)[a] == before[a]
      else a !in Written(records)
  {
  }

  lemma {:induction false} OverlayAt(memory: seq<byte>, records: seq<Record>, a: nat)
    requires |memory| >= LOADER_BASE && forall i :: 0 <= i < |records| ==> Fits(records[i])
    ensures a in Written(records) ==> a < LOADER_BASE
    ensures a < |memory| ==>
              Overlay(memory, records)[a] == if a in Written(records) then Written(records)[a] else memory[a]
    decreases |records|
  {
    hide Store, Written;
    if records == [] {
      NoneWritten();
    } else {
      var last, before := records[|records| - 1], records[..|records| - 1];
      assert Fits(last);
      OverlayAt(memory, before, a);
      WrittenAt(records, a);
      if a < |memory| {
        StoreAt(Overlay(memory, before), last.address, last.data, a);
      }
    }
  }

  lemma NoneWritten()
    ensures Written([]) == map[]
  {
  }

  /** Records give the same memory from any other exactly if they leave the same bytes behind. */
  lemma SameOverlay(a: seq<Record>, b: seq<Record>)
    requires forall i :: 0 <= i < |a| ==> Fits(a[i])
    requires forall i :: 0 <= i < |b| ==> Fits(b[i])
    ensures (forall memory: seq<byte> :: |memory| == SPACE ==> Overlay(memory, a) == Overlay(memory, b))
            <==> Written(a) == Written(b)
  {
    hide Overlay, Written;
    if Written(a) == Written(b) {
      forall memory: seq<byte> | |memory| == SPACE ensures Overlay(memory, a) == Overlay(memory, b) {
        forall x | 0 <= x < SPACE ensures Overlay(memory, a)[x] == Overlay(memory, b)[x] {
          OverlayAt(memory, a, x);
          OverlayAt(memory, b, x);
        }
      }
    }
    if forall memory: seq<byte> :: |memory| == SPACE ==> Overlay(memory, a) == Overlay(memory, b) {
      var zeros: seq<byte> := seq(SPACE, _ => 0);
      var ones: seq<byte> := seq(SPACE, _ => 1);
      assert Overlay(zeros, a) == Overlay(zeros, b) && Overlay(ones, a) == Overlay(ones, b);
      forall x: nat
        ensures x in Written(a) <==> x in Written(b)
        ensures x in Written(a) && x in Written(b) ==> Written(a)[x] == Written(b)[x]
      {
        OverlayAt(zeros, a, x);
        OverlayAt(zeros, b, x);
        OverlayAt(ones, a, x);
        OverlayAt(ones, b, x);
      }
    }
  }

  /** The lines that the ROM does not carry out, too long or behind the entry, make no
      difference. */
  predicate SameLoad(lines: seq<string>, size: recordSize)
    requires ReadImage(lines, size).Image? && ReadImage(Taken(lines), size).Image?
  {
    var all, taken := ReadImage(lines, size), ReadImage(Taken(lines), size);
    Written(taken.records) == Written(all.records) && taken.entry == all.entry
  }

  /** An image typed at the ROM's monitor and uploaded in records of any size gives the same
      memory and the same entry, from whatever memory, if and only if the lines the ROM does not
      carry out make no difference. */
  lemma TwoLoadersAgree(lines: seq<string>, size: recordSize)
    requires forall i :: 0 <= i < |lines| ==> Unbroken(lines[i])
    requires Upper(Taken(lines)) && ReadImage(Taken(lines), size).Image? && ReadImage(lines, size).Image?
    ensures (forall memory: seq<byte> :: |memory| == SPACE ==>
               RomImage(memory, Commands(Text(lines)))
               == RomEnd(Overlay(memory, ReadImage(lines, size).records), ReadImage(lines, size).entry))
            <==> SameLoad(lines, size)
  {
    hide RomImage, Overlay, Upper, Unbroken, Commands, Text, Taken, ReadImage, Written;
    var all, taken := ReadImage(lines, size), ReadImage(Taken(lines), size);
    forall memory: seq<byte> | |memory| == SPACE
      ensures RomImage(memory, Commands(Text(lines))) == RomEnd(Overlay(memory, taken.records), taken.entry)
    {
      RomLoadsTaken(memory, lines, size);
    }
    SameOverlay(taken.records, all.records);
    var zeros: seq<byte> := seq(SPACE, _ => 0);
    assert |zeros| == SPACE;
  }

  /** Only empty lines and comments stand behind an entry. */
  predicate EntryLast(lines: seq<string>) {
    forall i, j :: 0 <= i < j < |lines| && IsEntry(lines[i]) ==> ReadImageLine(lines[j]).Skipped?
  }

  /** So it is in particular for an image in lines that fit with the entry last. */
  lemma ShortAgree(lines: seq<string>, size: recordSize)
    requires FitBuffer(lines) && EntryLast(lines) && ReadImage(lines, size).Image?
    ensures ReadImage(Taken(lines), size).Image? && SameLoad(lines, size)
  {
    hide ReadImage, Carried, Written, EntryLast;
    AllAccepted(lines);
    CarriedAll(lines, size);
  }

  /** What a line adds depends only on what the lines before amount to. */
  lemma NextLine(a: seq<string>, b: seq<string>, line: string, size: recordSize)
    requires ReadImage(a, size) == ReadImage(b, size)
    ensures ReadImage(a + [line], size) == ReadImage(b + [line], size)
    ensures ReadImage(a + [line], size).Image? ==> ReadImage(a, size).Image? && !ReadImageLine(line).Bad?
    ensures ReadImageLine(line).Skipped? ==> ReadImage(a + [line], size) == ReadImage(a, size)
  {
    hide Chunks, ReadImageLine;
    assert (a + [line])[..|a|] == a && (b + [line])[..|b|] == b;
  }

  lemma {:induction false} CarriedAll(lines: seq<string>, size: recordSize)
    requires EntryLast(lines) && ReadImage(lines, size).Image?
    ensures ReadImage(Carried(lines), size) == ReadImage(lines, size)
    ensures EndsInEntry(Carried(lines)) ==> Carried(lines)[|Carried(lines)| - 1] in lines
    decreases |lines|
  {
    hide ReadImage, ReadImageLine, IsEntry, IsCommand;
    if lines != [] {
      var n := |lines| - 1;
      var before, line := lines[..n], lines[n];
      var done := Carried(before);
      assert lines == before + [line];
      LastEntry(before, line);
      NextLine(before, before, line, size);
      CarriedAll(before, size);
      NextLine(done, before, line, size);
      if EndsInEntry(done) {
        assert ReadImageLine(line).Skipped?;
      } else if !IsCommand(line) {
        NoCommand(line);
      }
    }
  }

  lemma LastEntry(before: seq<string>, line: string)
    requires EntryLast(before + [line])
    ensures EntryLast(before)
    ensures forall e :: e in before && IsEntry(e) ==> ReadImageLine(line).Skipped?
  {
    hide IsEntry, ReadImageLine;
    var lines := before + [line];
    forall i, j | 0 <= i < j < |before| && IsEntry(before[i]) ensures ReadImageLine(before[j]).Skipped? {
      assert lines[i] == before[i] && lines[j] == before[j];
    }
    forall e | e in before && IsEntry(e) ensures ReadImageLine(line).Skipped? {
      var i :| 0 <= i < |before| && before[i] == e;
      assert lines[i] == e && lines[|before|] == line;
    }
  }

  lemma NoCommand(line: string)
    requires !IsCommand(line) && !ReadImageLine(line).Bad?
    ensures ReadImageLine(line).Skipped?
  {
  }

  /** A single L line: the two loaders agree exactly if it fits the ROM's buffer or changes
      nothing. */
  lemma LineAgrees(memory: seq<byte>, line: string)
    requires |memory| == SPACE && ReadImageLine(line).Load? && UpperHex(line[1..]) && Unbroken(line)
    ensures var r := ReadImageLine(line).record;
      && r.address + |r.data| <= LOADER_BASE
      && (RomImage(memory, Commands(line + "\n")).memory == Store(memory, r.address, r.data)
          <==> |line| <= 79 || Store(memory, r.address, r.data) == memory)
  {
    hide Store, UpperHex, Command, Commands, RomImage, Accepted;
    LineTaken(line, "");
    assert line + "\n" + "" == line + "\n";
    NoCommands();
    assert Accepted(line) + [] == Accepted(line);
    RomLoads(memory, line);
    LineKinds(memory, line);
    if |line| <= 79 {
      NoLines(memory);
      ImageGrows(memory, [], line);
      AllAccepted([line]);
      AcceptedOne(line);
    } else {
      LongAlone(memory, line);
    }
  }

  lemma AcceptedOne(line: string)
    requires |line| <= 79
    ensures Accepted(line) == [] + [line]
  {
  }

  lemma NoCommands()
    ensures Commands("") == []
  {
  }

  /** An upload that the host has seen confirmed leaves what the ROM would have loaded from
      the same image, and its entry is where the ROM would have gone. */
  lemma UploadLoadsImage(memory: seq<byte>, lines: seq<string>, size: recordSize, entry: nat,
                         es: seq<Event>, trace: seq<State>, i: nat)
    requires |memory| == SPACE && forall i :: 0 <= i < |lines| ==> Unbroken(lines[i])
    requires ReadImage(lines, size).Image? && ReadImage(lines, size).entry == Some(entry)
    requires Upper(Taken(lines)) && ReadImage(Taken(lines), size).Image? && SameLoad(lines, size)
    requires Run(Upload(ReadImage(lines, size).records, entry), memory, es, trace) && i < |trace|
    requires trace[i].phase > |ReadImage(lines, size).records|
    ensures RomEnd(trace[i].loader.memory, Some(entry)) == RomImage(memory, Commands(Text(lines)))
  {
    hide Run, Upper, RomImage, Overlay, Unbroken, Taken, SameLoad;
    TwoLoadersAgree(lines, size);
    UploadSafe(Upload(ReadImage(lines, size).records, entry), memory, es, trace, i);
  }
}
