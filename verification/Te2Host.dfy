/** The host side of the te2 upload: reading the image, cutting it into records, formatting
    the lines and running the stream CRC. */
module Te2Host {
  import opened Crc
  import opened Te2Wire
  import opened Te2Loader
  import opened Te2Protocol
  import opened Wrappers

  // The image

  datatype ImageLine = Skipped | Entry(entry: nat) | Load(record: Record) | Bad

  /** One line of the image file. */
  function ReadImageLine(line: string): ImageLine {
    if line == "" || line[0] == ';' then Skipped
    else if line[0] == 'G' then
      var entry := Num(line, 1, 6);
      if |line| != 7 || entry.None? || entry.value >= LOADER_BASE then Bad else Entry(entry.value)
    else if line[0] != 'L' || |line| < 9 then Bad
    else
      var address := Num(line, 1, 6);
      var data := NumBytes(line, 7, (|line| - 7) / 2);
      if address.None? || (|line| - 7) % 2 == 1 || data.None? then Bad
      else if address.value + |data.value| > LOADER_BASE then Bad
      else Load(Record(address.value, data.value))
  }

  /** How many bytes go into one record. */
  type recordSize = n: nat | 0 < n <= MAXDATA witness 1

  /** The pieces of at most `size` bytes a line is sent in. */
  function Chunks(address: nat, data: seq<byte>, size: recordSize): (rs: seq<Record>)
    requires address + |data| <= LOADER_BASE
    ensures forall i :: 0 <= i < |rs| ==> Fits(rs[i])
    decreases |data|
  {
    if data == [] then []
    else
      var count := if |data| > size then size else |data|;
      assert Fits(Record(address, data[..count]));
      [Record(address, data[..count])] + Chunks(address + count, data[count..], size)
  }

  /** What the lines so far amount to. */
  datatype Image = Broken | Image(records: seq<Record>, entry: Option<nat>)

  function ReadImage(lines: seq<string>, size: recordSize): (image: Image)
    ensures image.Image? ==> forall i :: 0 <= i < |image.records| ==> Fits(image.records[i])
    ensures image.Image? && image.entry.Some? ==> image.entry.value < LOADER_BASE
  {
    if lines == [] then Image([], None)
    else
      match (ReadImage(lines[..|lines| - 1], size), ReadImageLine(lines[|lines| - 1]))
      case (Broken, _) => Broken
      case (_, Bad) => Broken
      case (image, Skipped) => image
      case (Image(records, _), Entry(entry)) => Image(records, Some(entry))
      case (Image(records, entry), Load(r)) =>
        LoadFits(lines[|lines| - 1]);
        Image(records + Chunks(r.address, r.data, size), entry)
  }

  lemma LoadFits(line: string)
    requires ReadImageLine(line).Load?
    ensures ReadImageLine(line).record.address + |ReadImageLine(line).record.data| <= LOADER_BASE
  {
  }

  /** Cutting a line into records of any size writes the same memory. */
  lemma {:induction false} ChunksStore(memory: seq<byte>, records: seq<Record>, address: nat, data: seq<byte>,
        size: recordSize)
    requires |memory| >= LOADER_BASE && forall i :: 0 <= i < |records| ==> Fits(records[i])
    requires address + |data| <= LOADER_BASE
    ensures Overlay(memory, records + Chunks(address, data, size))
         == Store(Overlay(memory, records), address, data)
    decreases |data|
  {
    hide Store;
    var m := Overlay(memory, records);
    if data == [] {
      assert records + [] == records;
      StoreNothing(m, address);
    } else {
      var count := if |data| > size then size else |data|;
      var r := Record(address, data[..count]);
      var rest := Chunks(address + count, data[count..], size);
      assert Fits(r);
      assert records + Chunks(address, data, size) == (records + [r]) + rest;
      ChunksStore(memory, records + [r], address + count, data[count..], size);
      assert (records + [r])[..|records|] == records;
      StoreTwice(m, address, data, count);
    }
  }

  lemma StoreTwice(m: seq<byte>, address: nat, data: seq<byte>, count: nat)
    requires address + |data| <= |m| && count <= |data|
    ensures Store(Store(m, address, data[..count]), address + count, data[count..]) == Store(m, address, data)
  {
    var a, b := Store(Store(m, address, data[..count]), address + count, data[count..]), Store(m, address, data);
    forall i | 0 <= i < |m| ensures a[i] == b[i] {
    }
  }

  // What has been sent when the host stops

  /** The address of an L line of even length. */
  function LoadAddress(line: string): Option<nat> {
    if line != "" && line[0] == 'L' && |line| >= 9 && (|line| - 7) % 2 == 0 then Num(line, 1, 6) else None
  }

  /** Whether all went well, and the records cut from the digits of `left` bytes, from `off` to
      the end of a line, until one of them is bad. */
  datatype Cut = Cut(records: seq<Record>, ok: bool)

  function Pieces(line: string, off: nat, left: nat, address: nat, size: recordSize): Cut
    requires off + 2 * left == |line|
    decreases left
  {
    if left == 0 then Cut([], true)
    else
      var count := if left > size then size else left;
      if address + count > LOADER_BASE then Cut([], false)
      else
        match NumBytes(line, off, count)
        case None => Cut([], false)
        case Some(data) =>
          var rest := Pieces(line, off + 2 * count, left - count, address + count, size);
          Cut([Record(address, data)] + rest.records, rest.ok)
  }

  function BytesLeft(line: string): (n: nat)
    requires LoadAddress(line).Some?
    ensures 7 + 2 * n == |line|
  {
    (|line| - 7) / 2
  }

  /** The records sent for an image, up to the first fault in it. */
  function SentRecords(lines: seq<string>, size: recordSize): Cut {
    if lines == [] then Cut([], true)
    else
      var before, line := SentRecords(lines[..|lines| - 1], size), lines[|lines| - 1];
      if !before.ok then before
      else if LoadAddress(line).Some? then
        var pieces := Pieces(line, 7, BytesLeft(line), LoadAddress(line).value, size);
        Cut(before.records + pieces.records, pieces.ok)
      else Cut(before.records, !ReadImageLine(line).Bad?)
  }

  lemma NumBytesStep(line: string, off: nat, n: nat)
    requires n > 0
    ensures NumBytes(line, off, n)
         == match (NumBytes(line, off, n - 1), Num(line, off + 2 * (n - 1), 2))
            case (Some(bs), Some(b)) => if b < 256 then Some(bs + [b]) else None
            case _ => None
  {
    hide Num;
  }

  lemma {:induction false} NumBytesSplit(line: string, off: nat, a: nat, b: nat)
    ensures NumBytes(line, off, a + b)
         == match (NumBytes(line, off, a), NumBytes(line, off + 2 * a, b))
            case (Some(x), Some(y)) => Some(x + y)
            case _ => None
    decreases b
  {
    hide Num, NumBytes;
    if b == 0 {
      NumBytesNone(line, off + 2 * a);
      if NumBytes(line, off, a).Some? {
        assert NumBytes(line, off, a).value + [] == NumBytes(line, off, a).value;
      }
    } else {
      NumBytesSplit(line, off, a, b - 1);
      NumBytesStep(line, off, a + b);
      NumBytesStep(line, off + 2 * a, b);
      assert off + 2 * (a + b - 1) == off + 2 * a + 2 * (b - 1);
      match (NumBytes(line, off, a), NumBytes(line, off + 2 * a, b - 1), Num(line, off + 2 * a + 2 * (b - 1), 2))
      case (Some(x), Some(y), Some(z)) => if z < 256 { assert x + y + [z] == x + (y + [z]); }
      case _ =>
    }
  }

  lemma NoChunks(address: nat, size: recordSize)
    requires address <= LOADER_BASE
    ensures Chunks(address, [], size) == []
  {
  }

  lemma FirstChunk(address: nat, x: seq<byte>, y: seq<byte>, size: recordSize)
    requires address + |x| + |y| <= LOADER_BASE
    requires 0 < |x| == if |x| + |y| > size then size else |x| + |y|
    ensures Chunks(address, x + y, size) == [Record(address, x)] + Chunks(address + |x|, y, size)
  {
    assert (x + y)[..|x|] == x && (x + y)[|x|..] == y;
  }

  /** Cutting a line up piece by piece succeeds exactly if the line as a whole is good. */
  lemma {:induction false} PiecesAre(line: string, off: nat, left: nat, address: nat, size: recordSize)
    requires off + 2 * left == |line| && address <= LOADER_BASE
    ensures var data, cut := NumBytes(line, off, left), Pieces(line, off, left, address, size);
      && (cut.ok <==> data.Some? && address + left <= LOADER_BASE)
      && (cut.ok ==> |data.value| == left && cut.records == Chunks(address, data.value, size))
    decreases left
  {
    hide Num, NumBytes, Chunks;
    if left == 0 {
      NumBytesNone(line, off);
      NoChunks(address, size);
    } else {
      var count := if left > size then size else left;
      NumBytesSplit(line, off, count, left - count);
      if address + count <= LOADER_BASE {
        PiecesAre(line, off + 2 * count, left - count, address + count, size);
        if NumBytes(line, off, left).Some? {
          NumBytesLength(line, off, left);
          NumBytesLength(line, off, count);
          if address + left <= LOADER_BASE {
            FirstChunk(address, NumBytes(line, off, count).value,
                       NumBytes(line, off + 2 * count, left - count).value, size);
          }
        }
      }
    }
  }

  lemma NumBytesNone(line: string, off: nat)
    ensures NumBytes(line, off, 0) == Some([])
  {
  }

  /** The host stops at no line of an image that can be read, and has sent its records; at the
      first fault of any other. */
  lemma {:induction false} SentIs(lines: seq<string>, size: recordSize)
    ensures var cut, image := SentRecords(lines, size), ReadImage(lines, size);
      (cut.ok <==> image.Image?) && (cut.ok ==> cut.records == image.records)
    decreases |lines|
  {
    hide Num, NumBytes, Pieces, Chunks;
    if lines != [] {
      var line := lines[|lines| - 1];
      SentIs(lines[..|lines| - 1], size);
      LineSent(line, size);
    }
  }

  lemma LineSent(line: string, size: recordSize)
    ensures LoadAddress(line).Some? ==>
      var cut := Pieces(line, 7, BytesLeft(line), LoadAddress(line).value, size);
      && (cut.ok <==> ReadImageLine(line).Load?) && (!cut.ok ==> ReadImageLine(line).Bad?)
      && (cut.ok ==> var r := ReadImageLine(line).record;
                     r.address + |r.data| <= LOADER_BASE && cut.records == Chunks(r.address, r.data, size))
    ensures LoadAddress(line).None? ==> !ReadImageLine(line).Load?
  {
    hide Num, NumBytes, Pieces, Chunks;
    if LoadAddress(line).Some? {
      var address, n := LoadAddress(line).value, BytesLeft(line);
      if NumBytes(line, 7, n).Some? {
        NumBytesLength(line, 7, n);
      }
      if address <= LOADER_BASE {
        PiecesAre(line, 7, n, address, size);
      } else {
        PiecesTooHigh(line, n, address, size);
      }
    }
  }

  lemma PiecesTooHigh(line: string, left: nat, address: nat, size: recordSize)
    requires 7 + 2 * left == |line| && left > 0 && address > LOADER_BASE
    ensures !Pieces(line, 7, left, address, size).ok
  {
  }

  // CRCs on 32-bit words

  /** record_crc and update_stream_crc, which differ in where they start. */
  method AddRecord(crc: seq<bool>, sequence: nat, address: nat, data: seq<byte>) returns (r: seq<bool>)
    requires |crc| == 32
    ensures |r| == 32 && Masked(r)
    ensures Low(r) == CrcBytes(Low(crc), RecordBytes(sequence, address, data))
  {
    hide Low, Masked, CrcByte, CrcBytes;
    ghost var all := RecordBytes(sequence, address, data);
    assert all[0..] == all;
    CrcNext(Low(crc), all, 0);
    r := HostCrcByte(crc, sequence / 256 % 256);
    CrcNext(Low(r), all, 1);
    r := HostCrcByte(r, sequence % 256);
    CrcNext(Low(r), all, 2);
    r := HostCrcByte(r, address / 65536 % 256);
    CrcNext(Low(r), all, 3);
    r := HostCrcByte(r, address / 256 % 256);
    CrcNext(Low(r), all, 4);
    r := HostCrcByte(r, address % 256);
    CrcNext(Low(r), all, 5);
    r := HostCrcByte(r, |data| % 256);
    var i := 0;
    while i < |data|
      invariant i <= |data| && |r| == 32 && Masked(r)
      invariant CrcBytes(Low(r), all[6 + i..]) == CrcBytes(Low(crc), all)
    {
      CrcNext(Low(r), all, 6 + i);
      r := HostCrcByte(r, data[i]);
      i := i + 1;
    }
    assert all[6 + i..] == [];
    assert CrcBytes(Low(r), []) == Low(r) by { CrcNothing(Low(r)); }
  }

  /** 0xffff in a 32-bit word. */
  function FreshCrc(): (w: seq<bool>)
    ensures |w| == 32 && Low(w) == INITIAL
  {
    [false, false, false, false, false, false, false, false,
     false, false, false, false, false, false, false, false] + Ones(16)
  }

  /** The command of send_record. */
  method FormatRecord(sequence: nat, r: Record) returns (command: string)
    ensures command == DataLine(sequence, r.address, r.data)
  {
    hide Low, Masked, CrcBytes, Value, Hex;
    var crc := AddRecord(FreshCrc(), sequence, r.address, r.data);
    command := "D" + Hex(sequence, 4) + Hex(r.address, 6) + Hex(|r.data|, 2);
    ghost var header := command;
    var i := 0;
    assert HexBytes(r.data[..0]) == "";
    while i < |r.data|
      invariant i <= |r.data| && command == header + HexBytes(r.data[..i])
    {
      assert r.data[..i + 1][..i] == r.data[..i];
      command := command + Hex(r.data[i], 2);
      i := i + 1;
    }
    assert r.data[..i] == r.data;
    command := command + Hex(Value(Low(crc)), 4);
  }

  // Sending

  /** The lines up to phase `k`, each once. */
  ghost predicate LinesOf(u: Upload, sent: seq<string>) {
    |sent| <= u.Count() + 2 && forall k :: 0 <= k < |sent| ==> sent[k] == HostLine(u, k)
  }

  lemma {:induction false} StreamCrcPrefix(u: Upload, v: Upload, k: nat)
    requires k <= u.Count() && k <= v.Count() && u.records[..k] == v.records[..k]
    ensures StreamCrc(u, k) == StreamCrc(v, k)
  {
    if k > 0 {
      assert u.records[..k][..k - 1] == u.records[..k - 1] && v.records[..k][..k - 1] == v.records[..k - 1];
      assert u.records[..k][k - 1] == v.records[..k][k - 1];
      StreamCrcPrefix(u, v, k - 1);
    }
  }

  lemma StreamCrcNext(records: seq<Record>, r: Record)
    ensures StreamCrc(Upload(records + [r], 0), |records| + 1)
         == CrcBytes(StreamCrc(Upload(records, 0), |records|),
                     RecordBytes(|records| % 65536, r.address, r.data))
  {
    hide CrcBytes, RecordBytes;
    StreamCrcPrefix(Upload(records, 0), Upload(records + [r], 0), |records|);
  }

  /** send_verified_image with the replies left to the protocol: `sent` has every line
      once. */
  class Host {
    const size: recordSize
    var sequence: nat
    var streamCrc: seq<bool>
    var records: seq<Record>
    var sent: seq<string>

    ghost predicate Valid()
      reads this
    {
      && sequence == |records| % 65536
      && |streamCrc| == 32 && Low(streamCrc) == StreamCrc(Upload(records, 0), |records|)
      && |sent| == |records|
      && forall k :: 0 <= k < |sent| ==> sent[k] == DataLine(k % 65536, records[k].address, records[k].data)
    }

    constructor (bytes: recordSize)
      ensures Valid() && records == [] && size == bytes
    {
      size := bytes;
      sequence := 0;
      streamCrc := FreshCrc();
      records := [];
      sent := [];
    }

    /** send_record and the bookkeeping after it. */
    method SendRecord(r: Record)
      requires Valid()
      modifies this
      ensures Valid() && records == old(records) + [r]
    {
      hide Low, Masked, CrcBytes, DataLine, RecordBytes, StreamCrc, Masked;
      var command := FormatRecord(sequence, r);
      streamCrc := AddRecord(streamCrc, sequence, r.address, r.data);
      StreamCrcNext(records, r);
      sent := sent + [command];
      records := records + [r];
      sequence := (sequence + 1) % 65536;
    }

    /** The inner loop: one L line cut into records, up to a fault in it. */
    method SendLoad(line: string, start: nat, n: nat) returns (ok: bool)
      requires Valid() && 7 + 2 * n == |line|
      modifies this
      ensures Valid() && records == old(records) + Pieces(line, 7, n, start, size).records
      ensures ok == Pieces(line, 7, n, start, size).ok
    {
      hide Valid, Fits, NumBytes;
      ghost var all := Pieces(line, 7, n, start, size);
      var address: nat, offset: nat, left: nat := start, 7, n;
      while left > 0
        invariant offset + 2 * left == |line| && Valid()
        invariant all.ok == Pieces(line, offset, left, address, size).ok
        invariant old(records) + all.records == records + Pieces(line, offset, left, address, size).records
        decreases left
      {
        var count := if left > size then size else left;
        if address + count > LOADER_BASE {
          return false;
        }
        var data := NumBytes(line, offset, count);
        if data.None? {
          return false;
        }
        SendRecord(Record(address, data.value));
        address := address + count;
        offset := offset + 2 * count;
        left := left - count;
      }
      return true;
    }

    /** The whole image, up to the E and G lines. At a fault the host stops, with everything in
        front of it sent. */
    method SendImage(lines: seq<string>) returns (upload: Option<Upload>)
      requires Valid() && records == []
      modifies this
      ensures var image := ReadImage(lines, size);
              upload == if image.Image? && image.entry.Some?
                        then Some(Upload(image.records, image.entry.value)) else None
      ensures records == SentRecords(lines, size).records
      ensures upload.Some? ==> upload.value.WellFormed() && |sent| == upload.value.Count() + 2
                               && LinesOf(upload.value, sent)
      ensures upload.None? ==> Valid()
    {
      hide Valid, Fits, ReadImageLine, Chunks, Pieces, LoadAddress;
      var entry: Option<nat> := None;
      var i := 0;
      while i < |lines|
        invariant i <= |lines| && Valid() && ReadImage(lines[..i], size) == Image(records, entry)
        invariant SentRecords(lines[..i], size) == Cut(records, true)
      {
        assert lines[..i + 1][..i] == lines[..i];
        var line := lines[i];
        LineSent(line, size);
        var address := LoadAddress(line);
        var bad := ReadImageLine(line).Bad?;
        if address.Some? {
          var ok := SendLoad(line, address.value, BytesLeft(line));
          bad := !ok;
        } else if ReadImageLine(line).Entry? {
          entry := Some(ReadImageLine(line).entry);
        }
        if bad {
          BrokenStays(lines, i + 1, size);
          FaultStays(lines, i + 1, size);
          return None;
        }
        i := i + 1;
      }
      assert lines[..i] == lines;
      if entry.None? {
        return None;
      }
      upload := SendEnd(entry.value);
    }

    /** The E line and the G line. */
    method SendEnd(entry: nat) returns (upload: Option<Upload>)
      requires Valid()
      modifies this
      ensures records == old(records) && upload == Some(Upload(records, entry))
      ensures |sent| == |records| + 2 && LinesOf(upload.value, sent)
    {
      hide Low, Masked, CrcBytes, Value, Hex, DataLine;
      upload := Some(Upload(records, entry));
      StreamCrcPrefix(Upload(records, 0), upload.value, |records|);
      sent := sent + ["E" + Hex(sequence, 4) + Hex(Value(Low(streamCrc)), 4), "G" + Hex(entry, 6)];
    }
  }

  lemma {:induction false} BrokenStays(lines: seq<string>, i: nat, size: recordSize)
    requires i <= |lines| && ReadImage(lines[..i], size).Broken?
    ensures ReadImage(lines, size).Broken?
    decreases |lines|
  {
    if i < |lines| {
      assert lines[..|lines| - 1][..i] == lines[..i];
      BrokenStays(lines[..|lines| - 1], i, size);
    } else {
      assert lines[..i] == lines;
    }
  }

  /** Nothing more is sent behind a fault. */
  lemma {:induction false} FaultStays(lines: seq<string>, i: nat, size: recordSize)
    requires i <= |lines| && !SentRecords(lines[..i], size).ok
    ensures SentRecords(lines, size) == SentRecords(lines[..i], size)
    decreases |lines|
  {
    if i < |lines| {
      assert lines[..|lines| - 1][..i] == lines[..i];
      FaultStays(lines[..|lines| - 1], i, size);
    } else {
      assert lines[..i] == lines;
    }
  }
}
