/** The converter from a binary file to L records, with or without leaving out records of
    zeros, and what the ROM loader makes of its output. */
module BinToLgo {
  import opened Te2Wire
  import opened Te2Loader
  import opened RomLoader
  import opened TwoLoaders
  import opened Wrappers

  // A record holds 36 bytes.

  /** The lines written and the address ranges left out, ends exclusive. */
  datatype Output = Output(lines: seq<string>, omitted: seq<(nat, nat)>)

  function Chunk(data: seq<byte>, k: nat): (c: seq<byte>)
    requires 36 * k <= |data|
    ensures |c| <= 36
  {
    if 36 * (k + 1) <= |data| then data[36 * k..36 * (k + 1)] else data[36 * k..]
  }

  predicate AllZero(bs: seq<byte>) { forall i :: 0 <= i < |bs| ==> bs[i] == 0 }

  function LgoLine(address: nat, chunk: seq<byte>): string { "L" + Hex(address, 6) + HexBytes(chunk) }

  /** A range is joined to the one before when they touch. */
  function Omit(ranges: seq<(nat, nat)>, start: nat, end: nat): seq<(nat, nat)> {
    var n := |ranges|;
    if n > 0 && ranges[n - 1].1 == start then ranges[..n - 1] + [(ranges[n - 1].0, end)]
    else ranges + [(start, end)]
  }

  function Emit(o: Output, address: nat, chunk: seq<byte>, skipZero: bool): Output {
    if skipZero && chunk != [] && AllZero(chunk) then
      Output(o.lines, Omit(o.omitted, address, address + |chunk|))
    else Output(o.lines + [LgoLine(address, chunk)], o.omitted)
  }

  /** The first `k` records. */
  function Convert(data: seq<byte>, address: nat, skipZero: bool, k: nat): Output
    requires 36 * k < |data| + 36
    decreases k
  {
    if k == 0 then Output([], [])
    else Emit(Convert(data, address, skipZero, k - 1), address + 36 * (k - 1), Chunk(data, k - 1), skipZero)
  }

  function Records(n: nat): (k: nat)
    ensures 36 * k < n + 36 && n <= 36 * k
  {
    (n + 36 - 1) / 36
  }

  /** not any(chunk). */
  method NotAny(chunk: seq<byte>) returns (zero: bool)
    ensures zero == AllZero(chunk)
  {
    for i := 0 to |chunk|
      invariant AllZero(chunk[..i])
    {
      if chunk[i] != 0 {
        return false;
      }
      assert chunk[..i + 1] == chunk[..i] + [chunk[i]];
    }
    assert chunk[..|chunk|] == chunk;
    return true;
  }

  method ConvertFile(data: seq<byte>, address: nat, skipZero: bool)
        returns (lines: seq<string>, omitted: seq<(nat, nat)>)
    ensures Output(lines, omitted) == Convert(data, address, skipZero, Records(|data|))
  {
    hide AllZero, LgoLine, Chunk, Omit, Convert;
    lines, omitted := [], [];
    var offset := 0;
    ghost var k: nat := 0;
    ConvertNothing(data, address, skipZero);
    while offset < |data|
      invariant offset == 36 * k < |data| + 36
      invariant Output(lines, omitted) == Convert(data, address, skipZero, k)
      decreases |data| + 36 - offset
    {
      ConvertNext(data, address, skipZero, k);
      var chunk := if offset + 36 <= |data| then data[offset..offset + 36] else data[offset..];
      var zero := NotAny(chunk);
      if skipZero && zero {
        omitted := OmitRange(omitted, address + offset, address + offset + |chunk|);
      } else {
        lines := lines + [LgoLine(address + offset, chunk)];
      }
      offset := offset + 36;
      k := k + 1;
    }
    SameCount(|data|, k);
  }

  lemma ConvertNothing(data: seq<byte>, address: nat, skipZero: bool)
    ensures Convert(data, address, skipZero, 0) == Output([], []) && End(data, 0) == 0
  {
  }

  lemma ConvertNext(data: seq<byte>, address: nat, skipZero: bool, k: nat)
    requires 36 * k < |data|
    ensures var chunk := if 36 * k + 36 <= |data| then data[36 * k..36 * k + 36] else data[36 * k..];
            var o := Convert(data, address, skipZero, k);
            var a := address + 36 * k;
            && (skipZero && AllZero(chunk) ==>
                  Convert(data, address, skipZero, k + 1) == Output(o.lines, Omit(o.omitted, a, a + |chunk|)))
            && (!(skipZero && AllZero(chunk)) ==>
                  Convert(data, address, skipZero, k + 1) == Output(o.lines + [LgoLine(a, chunk)], o.omitted))
  {
    hide AllZero, LgoLine, Omit;
  }

  method OmitRange(ranges: seq<(nat, nat)>, start: nat, end: nat) returns (r: seq<(nat, nat)>)
    ensures r == Omit(ranges, start, end)
  {
    var n := |ranges|;
    if n > 0 && ranges[n - 1].1 == start {
      r := ranges[..n - 1] + [(ranges[n - 1].0, end)];
    } else {
      r := ranges + [(start, end)];
    }
  }

  lemma SameCount(n: nat, k: nat)
    requires 36 * k < n + 36 && n <= 36 * k
    ensures k == Records(n)
  {
  }

  // One line

  lemma {:induction false} HexUpper(v: int, k: nat)
    ensures UpperHex(Hex(v, k))
    decreases k
  {
    if k > 0 {
      HexUpper(v / 16, k - 1);
    }
  }

  lemma {:induction false} BytesUpper(bs: seq<byte>)
    ensures UpperHex(HexBytes(bs))
    decreases |bs|
  {
    if bs != [] {
      BytesUpper(bs[..|bs| - 1]);
      HexUpper(bs[|bs| - 1], 2);
    }
  }

  lemma HexUnbroken(s: string)
    requires UpperHex(s)
    ensures Unbroken("L" + s)
  {
  }

  /** The ROM stores exactly the bytes of a line; a line and its newline fit its buffer. */
  lemma LineLoads(memory: seq<byte>, address: nat, chunk: seq<byte>)
    requires |memory| == SPACE && address + |chunk| < SPACE && |chunk| <= 36
    ensures var line := LgoLine(address, chunk);
            && |line| <= 79 && Unbroken(line)
            && Command(memory, line) == RomEnd(Store(memory, address, chunk), None)
  {
    hide Hex, HexBytes, RomScan, Num, NumBytes, Store, UpperHex, Unbroken;
    var a, b := Hex(address, 6), HexBytes(chunk);
    var line := LgoLine(address, chunk);
    Powers();
    assert line == "L" + a + b;
    FieldAt("L", address, 6, b);
    assert line == ("L" + a) + b + "";
    BytesAt("L" + a, chunk, "");
    HexUpper(address, 6);
    BytesUpper(chunk);
    assert line[1..] == a + b && line == "L" + (a + b);
    UpperBoth(a, b);
    HexUnbroken(a + b);
    ScanData(memory, line, |chunk|);
  }

  lemma UpperBoth(a: string, b: string)
    requires UpperHex(a) && UpperHex(b)
    ensures UpperHex(a + b)
  {
  }

  // The ranges

  predicate Within(ranges: seq<(nat, nat)>, i: nat) {
    exists j :: 0 <= j < |ranges| && ranges[j].0 <= i < ranges[j].1
  }

  /** In order, not empty, apart from each other, below `end`. */
  predicate Ordered(ranges: seq<(nat, nat)>, end: nat) {
    && (forall j :: 0 <= j < |ranges| ==> ranges[j].0 < ranges[j].1 <= end)
    && (forall j :: 0 < j < |ranges| ==> ranges[j - 1].1 < ranges[j].0)
  }

  lemma OmitOrdered(ranges: seq<(nat, nat)>, start: nat, end: nat)
    requires Ordered(ranges, start) && start < end
    ensures Ordered(Omit(ranges, start, end), end)
  {
  }

  lemma OmitWithin(ranges: seq<(nat, nat)>, start: nat, end: nat, i: nat)
    requires Ordered(ranges, start) && start < end
    ensures Within(Omit(ranges, start, end), i) <==> Within(ranges, i) || start <= i < end
  {
    var r, n := Omit(ranges, start, end), |ranges|;
    if Within(ranges, i) {
      var j :| 0 <= j < n && ranges[j].0 <= i < ranges[j].1;
      assert r[j].0 <= i < r[j].1;
    } else if start <= i < end {
      assert r[|r| - 1].0 <= i < r[|r| - 1].1;
    } else {
      forall j | 0 <= j < |r| ensures !(r[j].0 <= i < r[j].1) {
        if j < |r| - 1 {
          assert r[j] == ranges[j];
        }
      }
    }
  }

  /** The end of the first `k` records. */
  function End(data: seq<byte>, k: nat): nat { if 36 * k <= |data| then 36 * k else |data| }

  lemma EndNext(data: seq<byte>, k: nat)
    requires k > 0 && 36 * k < |data| + 36
    ensures End(data, k - 1) == 36 * (k - 1)
    ensures End(data, k) == 36 * (k - 1) + |Chunk(data, k - 1)| > End(data, k - 1)
  {
  }

  lemma EndWithin(data: seq<byte>, k: nat)
    ensures End(data, k) <= |data|
  {
  }

  lemma ChunkBytes(data: seq<byte>, k: nat)
    requires 36 * k <= |data|
    ensures 36 * k + |Chunk(data, k)| <= |data|
    ensures forall i :: 0 <= i < |Chunk(data, k)| ==> Chunk(data, k)[i] == data[36 * k + i]
  {
  }

  /** The last of `k` records. */
  lemma ConvertStep(data: seq<byte>, address: nat, skipZero: bool, k: nat)
      returns (before: Output, a: nat, c: seq<byte>)
    requires k > 0 && 36 * k < |data| + 36
    ensures before == Convert(data, address, skipZero, k - 1)
    ensures a == address + End(data, k - 1) == address + 36 * (k - 1)
    ensures c == Chunk(data, k - 1) && 0 < |c| <= 36 && address + End(data, k) == a + |c| <= address + |data|
    ensures forall i :: 0 <= i < |c| ==> c[i] == data[a - address + i]
    ensures Convert(data, address, skipZero, k)
         == if skipZero && AllZero(c) then Output(before.lines, Omit(before.omitted, a, a + |c|))
            else Output(before.lines + [LgoLine(a, c)], before.omitted)
  {
    hide AllZero, Omit, LgoLine, Chunk, End;
    EndNext(data, k);
    EndWithin(data, k);
    ChunkBytes(data, k - 1);
    before, a, c := Convert(data, address, skipZero, k - 1), address + 36 * (k - 1), Chunk(data, k - 1);
  }

  /** The omitted ranges are in order and do not touch. */
  lemma {:induction false} OmittedOrdered(data: seq<byte>, address: nat, skipZero: bool, k: nat)
    requires 36 * k < |data| + 36
    ensures Ordered(Convert(data, address, skipZero, k).omitted, address + End(data, k))
    decreases k
  {
    hide AllZero, Chunk, Omit, Convert, End, Ordered, LgoLine;
    if k > 0 {
      var before, a, c := ConvertStep(data, address, skipZero, k);
      OmittedOrdered(data, address, skipZero, k - 1);
      OmitOrdered(before.omitted, a, a + |c|);
      OrderedFurther(before.omitted, a, a + |c|);
    } else {
      ConvertNothing(data, address, skipZero);
      NothingOrdered(address + End(data, 0));
    }
  }

  lemma NothingOrdered(end: nat)
    ensures Ordered([], end)
  {
  }

  lemma OrderedFurther(ranges: seq<(nat, nat)>, end: nat, end': nat)
    requires Ordered(ranges, end) && end <= end'
    ensures Ordered(ranges, end')
  {
  }

  /** The record an address belongs to. */
  function RecordOf(address: nat, i: nat): nat
    requires address <= i
  {
    (i - address) / 36
  }

  lemma RecordIs(address: nat, k: nat, i: nat)
    requires address + 36 * k <= i < address + 36 * (k + 1)
    ensures RecordOf(address, i) == k
  {
  }

  lemma RecordBelow(data: seq<byte>, address: nat, i: nat)
    requires address <= i < address + |data|
    ensures 36 * RecordOf(address, i) <= |data|
  {
  }

  /** An address is in them exactly when its record holds only zeros. */
  lemma {:induction false} OmittedExactly(data: seq<byte>, address: nat, skipZero: bool, k: nat, i: nat)
    requires 36 * k < |data| + 36
    requires address <= i < address + |data| ==> 36 * RecordOf(address, i) <= |data|
    ensures Within(Convert(data, address, skipZero, k).omitted, i)
       <==> address <= i < address + End(data, k) && skipZero && AllZero(Chunk(data, RecordOf(address, i)))
    decreases k
  {
    hide AllZero, Chunk, Omit, Within, RecordOf, Convert, End, Ordered, LgoLine;
    if k > 0 {
      var before, a, c := ConvertStep(data, address, skipZero, k);
      OmittedExactly(data, address, skipZero, k - 1, i);
      OmittedOrdered(data, address, skipZero, k - 1);
      OmitWithin(before.omitted, a, a + |c|, i);
      if a <= i < a + |c| {
        RecordIs(address, k - 1, i);
      }
    } else {
      ConvertNothing(data, address, skipZero);
      NothingWithin(i);
    }
  }

  lemma NothingWithin(i: nat)
    ensures !Within([], i)
  {
  }

  /** An address is in its record. */
  lemma ByteOfRecord(data: seq<byte>, address: nat, i: nat)
    requires address <= i < address + |data|
    ensures var r := RecordOf(address, i);
      36 * r <= |data| && data[i - address] in Chunk(data, r)
  {
    var r := RecordOf(address, i);
    assert Chunk(data, r)[i - address - 36 * r] == data[i - address];
  }

  /** A byte that was left out is a zero. */
  lemma OmittedZero(data: seq<byte>, address: nat, skipZero: bool, k: nat, i: nat)
    requires 36 * k < |data| + 36 && Within(Convert(data, address, skipZero, k).omitted, i)
    ensures address <= i < address + |data| && data[i - address] == 0
  {
    hide Convert, Within, RecordOf, Chunk, End;
    if address <= i < address + |data| {
      RecordBelow(data, address, i);
    }
    OmittedExactly(data, address, skipZero, k, i);
    EndWithin(data, k);
    ByteOfRecord(data, address, i);
  }

  /** Zeros in the ranges. */
  function Clear(memory: seq<byte>, ranges: seq<(nat, nat)>): (m: seq<byte>)
    ensures |m| == |memory|
    ensures forall i :: 0 <= i < |m| ==> m[i] == if Within(ranges, i) then 0 else memory[i]
  {
    seq(|memory|, i requires 0 <= i < |memory| => if Within(ranges, i) then 0 else memory[i])
  }

  lemma StoredAt(m: seq<byte>, address: nat, data: seq<byte>, i: nat)
    requires address + |data| <= |m| && i < |m|
    ensures Store(m, address, data)[i] == if address <= i < address + |data| then data[i - address] else m[i]
  {
  }

  /** All lines written arrive at the ROM as they are. */
  lemma {:induction false} LinesFit(data: seq<byte>, address: nat, skipZero: bool, k: nat)
    requires 36 * k < |data| + 36 && address + |data| < SPACE
    ensures var lines := Convert(data, address, skipZero, k).lines;
      FitBuffer(lines) && forall i :: 0 <= i < |lines| ==> Unbroken(lines[i])
    decreases k
  {
    hide AllZero, Chunk, Omit, Convert, End, LgoLine, Unbroken;
    if k > 0 {
      var before, a, c := ConvertStep(data, address, skipZero, k);
      LinesFit(data, address, skipZero, k - 1);
      LineLoads(seq(SPACE, _ => 0), a, c);
    } else {
      ConvertNothing(data, address, skipZero);
    }
  }

  /** The ROM touches the bytes of the records that were written and nothing else. */
  lemma {:induction false} LoadsExactly(memory: seq<byte>, data: seq<byte>, address: nat, skipZero: bool, k: nat,
        i: nat)
    requires |memory| == SPACE && address + |data| < SPACE && 36 * k < |data| + 36 && i < SPACE
    ensures RomImage(memory, Convert(data, address, skipZero, k).lines).jump.None?
    ensures RomImage(memory, Convert(data, address, skipZero, k).lines).memory[i]
         == if address <= i < address + End(data, k) && !Within(Convert(data, address, skipZero, k).omitted, i)
            then data[i - address] else memory[i]
    decreases k
  {
    hide AllZero, Chunk, Omit, Within, Convert, End, Ordered, RomImage, Command, Store, LgoLine;
    if k > 0 {
      var before, a, c := ConvertStep(data, address, skipZero, k);
      LoadsExactly(memory, data, address, skipZero, k - 1, i);
      OmittedOrdered(data, address, skipZero, k - 1);
      if Within(before.omitted, i) {
        WithinBelow(before.omitted, a, i);
      }
      if skipZero && AllZero(c) {
        OmitWithin(before.omitted, a, a + |c|, i);
      } else {
        var m := RomImage(memory, before.lines).memory;
        LineLoads(m, a, c);
        ImageGrows(memory, before.lines, LgoLine(a, c));
        StoredAt(m, a, c, i);
      }
    } else {
      ConvertNothing(data, address, skipZero);
      NoLines(memory);
    }
  }

  lemma WithinBelow(ranges: seq<(nat, nat)>, end: nat, i: nat)
    requires Ordered(ranges, end) && Within(ranges, i)
    ensures i < end
  {
  }

  /** The memory after the ROM has read a text. */
  function Loaded(memory: seq<byte>, text: string): seq<byte>
    requires |memory| == SPACE
  {
    RomImage(memory, Commands(text)).memory
  }

  /** Typing the file at the ROM stores the data at its base and touches nothing else; with
      records of zeros left out, clearing their ranges, before or after, gives the same
      memory whatever was in it. */
  lemma FileLoads(memory: seq<byte>, data: seq<byte>, address: nat, skipZero: bool)
    requires |memory| == SPACE && address + |data| < SPACE
    ensures var o := Convert(data, address, skipZero, Records(|data|));
            && Clear(Loaded(memory, Text(o.lines)), o.omitted) == Store(memory, address, data)
            && Loaded(Clear(memory, o.omitted), Text(o.lines)) == Store(memory, address, data)
  {
    hide Convert, Within, RomImage, Store, Commands, Text, FitBuffer, Unbroken;
    var k := Records(|data|);
    var o := Convert(data, address, skipZero, k);
    LinesFit(data, address, skipZero, k);
    LinesArrive(o.lines);
    var x, y, z := Clear(Loaded(memory, Text(o.lines)), o.omitted), Loaded(Clear(memory, o.omitted), Text(o.lines)),
          Store(memory, address, data);
    forall i: nat | i < SPACE ensures x[i] == z[i] && y[i] == z[i] {
      ByteLoads(memory, data, address, skipZero, i);
    }
  }

  lemma ByteLoads(memory: seq<byte>, data: seq<byte>, address: nat, skipZero: bool, i: nat)
    requires |memory| == SPACE && address + |data| < SPACE && i < SPACE
    ensures var o := Convert(data, address, skipZero, Records(|data|));
            && Clear(RomImage(memory, o.lines).memory, o.omitted)[i] == Store(memory, address, data)[i]
            && RomImage(Clear(memory, o.omitted), o.lines).memory[i] == Store(memory, address, data)[i]
  {
    hide Convert, Within, RomImage, Store;
    var k := Records(|data|);
    var o := Convert(data, address, skipZero, k);
    LoadsExactly(memory, data, address, skipZero, k, i);
    LoadsExactly(Clear(memory, o.omitted), data, address, skipZero, k, i);
    StoredAt(memory, address, data, i);
    if Within(o.omitted, i) {
      OmittedZero(data, address, skipZero, k, i);
    }
  }

  /** Without the option nothing is left out. */
  lemma {:induction false} NothingOmitted(data: seq<byte>, address: nat, k: nat)
    requires 36 * k < |data| + 36
    ensures Convert(data, address, false, k).omitted == []
    decreases k
  {
    hide AllZero, Chunk, Omit, Convert, LgoLine, End;
    if k > 0 {
      var _, _, _ := ConvertStep(data, address, false, k);
      NothingOmitted(data, address, k - 1);
    } else {
      ConvertNothing(data, address, false);
    }
  }
}
