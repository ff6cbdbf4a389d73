/** The ROM's load-and-go monitor: lines of limited length, L records stored digit by digit as
    they are read, and a G record that jumps. */
module RomLoader {
  import opened Te2Wire
  import opened Te2Loader
  import opened Wrappers
  import Numerals

  /** 24-bit addresses. */
  const SPACE: nat := 0x1000000

  /** hexnum: upper case only. */
  function RomDigit(c: char): (d: int)
    ensures -1 <= d < 16
  {
    if '0' <= c <= '9' then c as int - '0' as int
    else if 'A' <= c <= 'F' then c as int - 'A' as int + 10
    else -1
  }

  /** The digits are those of upper case. */
  lemma RomDigitExactly(c: char, d: nat)
    requires d < 16
    ensures RomDigit(c) == d <==> c == Numerals.UPPER[d]
  {
  }

  /** In the middle of a line. `half` is set between the two digits of a byte; `stopped`
      after a character that is no digit. */
  datatype RomState = RomState(memory: seq<byte>, address: nat, half: bool, stopped: bool)
  {
    predicate Valid() { |memory| == SPACE && address < SPACE }
  }

  function RomStep(s: RomState, i: nat, c: char): (s': RomState)
    requires s.Valid()
    ensures s'.Valid()
  {
    var d := RomDigit(c);
    if s.stopped || d < 0 then s.(stopped := true)
    else if i < 7 then s.(address := (16 * s.address + d) % SPACE)
    else if !s.half then s.(memory := s.memory[s.address := 16 * d], half := true)
    else
      RomState(s.memory[s.address := s.memory[s.address] / 16 * 16 + d],
               (s.address + 1) % SPACE, false, false)
  }

  /** The first `k` characters of an L line. */
  function RomScan(memory: seq<byte>, line: string, k: nat): (s: RomState)
    requires |memory| == SPACE && 1 <= k <= |line|
    ensures s.Valid()
  {
    if k == 1 then RomState(memory, 0, false, false)
    else RomStep(RomScan(memory, line, k - 1), k - 1, line[k - 1])
  }

  lemma ScanStart(memory: seq<byte>, line: string)
    requires |memory| == SPACE && line != ""
    ensures RomScan(memory, line, 1) == RomState(memory, 0, false, false)
  {
  }

  lemma ScanNext(memory: seq<byte>, line: string, k: nat)
    requires |memory| == SPACE && 1 <= k < |line|
    ensures RomScan(memory, line, k + 1) == RomStep(RomScan(memory, line, k), k, line[k])
  {
  }

  // Command lines

  /** LINSIZ. */
  const LINE_SIZE: nat := 81

  predicate EndsLine(c: char) { c == '\n' || c == '\r' }

  /** What getline makes of its input: a line, the first part of one that is too long, or
      nothing yet. */
  datatype Got = Line(line: string, rest: string) | TooLong(rest: string) | Waiting

  /** Where the line that starts the input ends. */
  function LineLength(input: string): (k: nat)
    ensures k <= |input| && forall i :: 0 <= i < k ==> !EndsLine(input[i])
    ensures k < |input| ==> EndsLine(input[k])
  {
    if input == "" || EndsLine(input[0]) then 0 else 1 + LineLength(input[1..])
  }

  /** getline: up to 80 characters, the newline among them. */
  function GetLine(input: string): (g: Got)
    ensures g.Line? ==> |g.rest| < |input| && |g.line| <= 79
    ensures g.TooLong? ==> |g.rest| < |input|
  {
    var k := LineLength(input);
    if k < |input| && k <= 79 then Line(input[..k], input[k + 1..])
    else if |input| >= 80 then TooLong(input[80..])
    else Waiting
  }

  /** The command lines in an input. What follows in a line that is too long counts as
      another line. */
  function Commands(input: string): seq<string>
    decreases |input|
  {
    match GetLine(input)
    case Line(line, rest) => [line] + Commands(rest)
    case TooLong(rest) => Commands(rest)
    case Waiting => []
  }

  predicate UpperHex(s: string) { forall i :: 0 <= i < |s| ==> RomDigit(s[i]) >= 0 }

  /** dogo: where a G line of one to six digits jumps to. */
  function GoTarget(line: string): Option<nat>
    requires line != ""
  {
    if 2 <= |line| <= 7 && UpperHex(line[1..]) then HexValue(line[1..]) else None
  }

  /** The memory, and where control has gone. */
  datatype RomEnd = RomEnd(memory: seq<byte>, jump: Option<nat>)

  /** One command line. */
  function Command(memory: seq<byte>, line: string): (e: RomEnd)
    requires |memory| == SPACE
    ensures |e.memory| == SPACE
  {
    if line != "" && line[0] == 'L' then RomEnd(RomScan(memory, line, |line|).memory, None)
    else if line != "" && line[0] == 'G' then RomEnd(memory, GoTarget(line))
    else RomEnd(memory, None)
  }

  /** Command lines in order, up to a jump. */
  function RomImage(memory: seq<byte>, lines: seq<string>): (e: RomEnd)
    requires |memory| == SPACE
    ensures |e.memory| == SPACE
  {
    if lines == [] then RomEnd(memory, None)
    else
      var e := RomImage(memory, lines[..|lines| - 1]);
      if e.jump.Some? then e else Command(e.memory, lines[|lines| - 1])
  }

  lemma ImageGrows(memory: seq<byte>, lines: seq<string>, line: string)
    requires |memory| == SPACE && RomImage(memory, lines).jump.None?
    ensures RomImage(memory, lines + [line]) == Command(RomImage(memory, lines).memory, line)
  {
    assert (lines + [line])[..|lines|] == lines;
  }

  /** Nothing is loaded behind a jump, from which control does not come back. */
  lemma {:induction false} JumpStays(memory: seq<byte>, lines: seq<string>, more: seq<string>)
    requires |memory| == SPACE && RomImage(memory, lines).jump.Some?
    ensures RomImage(memory, lines + more) == RomImage(memory, lines)
    decreases |more|
  {
    if more == [] {
      assert lines + more == lines;
    } else {
      JumpStays(memory, lines, more[..|more| - 1]);
      assert (lines + more)[..|lines + more| - 1] == lines + more[..|more| - 1];
    }
  }

  class Rom {
    const linbuf: array<char>
    const memory: array<byte>
    /** What is still to come from the UART. */
    var input: string
    /** Where dogo has called. */
    var jump: Option<nat>

    ghost predicate Valid()
      reads this
    {
      memory.Length == SPACE && linbuf.Length == LINE_SIZE
    }

    ghost predicate Holds(line: string)
      reads linbuf
    {
      && |line| < linbuf.Length && (forall i :: 0 <= i < |line| ==> !EndsLine(line[i]))
      && linbuf[..|line|] == line && linbuf[|line|] == '\n'
    }

    constructor (ram: array<byte>, text: string)
      requires ram.Length == SPACE
      ensures Valid() && memory == ram && input == text && jump == None && fresh(linbuf)
    {
      linbuf := new char[LINE_SIZE];
      memory := ram;
      input, jump := text, None;
    }

    /** getline, which waits when its input is used up. */
    method ReadLine() returns (ok: bool, waiting: bool)
      requires Valid()
      modifies `input, linbuf
      ensures match GetLine(old(input))
              case Line(line, rest) => ok && !waiting && Holds(line) && input == rest
              case TooLong(rest) => !ok && !waiting && input == rest
              case Waiting => !ok && waiting
    {
      ghost var all := input;
      ghost var k := LineLength(all);
      var c := '\0';
      var i := 0;
      while i < LINE_SIZE - 1
        invariant 0 <= i <= LINE_SIZE - 1 && i <= k && input == all[i..]
        invariant linbuf[..i] == all[..i] && c != '\n'
      {
        if input == "" {
          return false, true;
        }
        c := input[0];
        input := input[1..];
        if c == '\r' {
          c := '\n';
        }
        linbuf[i] := c;
        i := i + 1;
        if c == '\n' {
          break;
        }
      }
      linbuf[i] := '\0';
      return c == '\n', false;
    }

    /** doload; true when it complains about the format. */
    method DoLoad(ghost line: string) returns (complaint: bool)
      requires Valid() && Holds(line) && line != ""
      modifies memory
      ensures var s := RomScan(old(memory[..]), line, |line|);
              && memory[..] == s.memory
              && complaint == (!s.stopped && (|line| < 9 || s.half))
    {
      hide RomScan, RomDigit;
      ghost var was := memory[..];
      ScanStart(was, line);
      var address: nat := 0;
      var half := false;
      var i := 1;
      while true
        invariant 1 <= i <= |line| && Holds(line) && address < SPACE
        invariant RomScan(was, line, i) == RomState(memory[..], address, half, false)
        decreases |line| - i
      {
        var c := linbuf[i];
        if i < |line| {
          assert c == line[i];
          ScanNext(was, line, i);
        }
        i := i + 1;
        if c == '\n' {
          return i < 10 || half;
        }
        var d := RomDigit(c);
        if d < 0 {
          StoppedStays(was, line, i, |line|);
          return false;
        }
        if i < 8 {
          address := (16 * address + d) % SPACE;
        } else {
          if !half {
            memory[address] := 16 * d;
          } else {
            memory[address] := memory[address] / 16 * 16 + d;
            address := (address + 1) % SPACE;
          }
          half := !half;
        }
      }
    }

    /** dogo. */
    method DoGo(ghost line: string)
      requires Valid() && Holds(line) && line != ""
      modifies `jump
      ensures jump == if GoTarget(line).Some? then GoTarget(line) else old(jump)
    {
      hide HexValue, RomDigit;
      NoDigits();
      assert line[1..1] == "";
      var address: nat := 0;
      var i := 1;
      while true
        invariant 1 <= i <= |line| && i <= 7 && Holds(line) && jump == old(jump)
        invariant UpperHex(line[1..i]) && HexValue(line[1..i]) == Some(address)
        decreases |line| - i
      {
        var c := linbuf[i];
        assert if i < |line| then c == line[i] && !EndsLine(line[i]) else c == '\n';
        i := i + 1;
        if c == '\n' {
          assert i == |line| + 1 && line[1..i - 1] == line[1..];
          if i == 2 {
            return;
          }
          jump := Some(address);
          return;
        }
        if i == 8 {
          return;
        }
        var d := RomDigit(c);
        if d < 0 {
          assert line[1..][i - 2] == c;
          return;
        }
        assert line[1..i] == line[1..i - 1] + [c];
        HexValueLast(line[1..i - 1], c);
        UpperDigit(c);
        address := 16 * address + d;
      }
    }

    /** One turn of the main loop: a command line is carried out, one that is too long is
        complained about. */
    method Serve() returns (waiting: bool)
      requires Valid() && jump.None?
      modifies `input, `jump, linbuf, memory
      ensures match GetLine(old(input))
              case Line(line, rest) =>
                !waiting && input == rest && RomEnd(memory[..], jump) == Command(old(memory[..]), line)
              case TooLong(rest) => !waiting && input == rest && jump.None? && memory[..] == old(memory[..])
              case Waiting => waiting && jump.None? && memory[..] == old(memory[..])
    {
      hide GetLine, RomScan, GoTarget;
      ghost var got := GetLine(input);
      var ok;
      ok, waiting := ReadLine();
      if waiting || !ok {
        return;
      }
      ghost var line := got.line;
      assert line != "" ==> linbuf[0] == line[0];
      if linbuf[0] == 'G' {
        DoGo(line);
      } else if linbuf[0] == 'L' {
        var _ := DoLoad(line);
      }
    }

    /** main, up to a jump or to the end of the input. */
    method MainLoop()
      requires Valid() && jump.None?
      modifies `input, `jump, linbuf, memory
      ensures RomEnd(memory[..], jump) == RomImage(old(memory[..]), Commands(old(input)))
    {
      hide GetLine, Command, RomImage;
      ghost var was, all, done := memory[..], input, [];
      NoLines(was);
      while true
        invariant Valid() && jump.None? && RomImage(was, done) == RomEnd(memory[..], None)
        invariant Commands(all) == done + Commands(input)
        decreases |input|
      {
        ghost var got, before := GetLine(input), input;
        GetLineShorter(input);
        var waiting := Serve();
        if waiting {
          assert done + Commands(before) == done;
          return;
        }
        if got.Line? {
          ImageGrows(was, done, got.line);
          assert done + ([got.line] + Commands(got.rest)) == (done + [got.line]) + Commands(got.rest);
          done := done + [got.line];
        }
        if jump.Some? {
          JumpStays(was, done, Commands(input));
          return;
        }
      }
    }
  }

  lemma NoLines(memory: seq<byte>)
    requires |memory| == SPACE
    ensures RomImage(memory, []) == RomEnd(memory, None)
  {
  }

  lemma GetLineShorter(input: string)
    ensures match GetLine(input)
            case Line(_, rest) => |rest| < |input|
            case TooLong(rest) => |rest| < |input|
            case Waiting => true
  {
  }

  lemma {:induction false} StoppedStays(memory: seq<byte>, line: string, i: nat, k: nat)
    requires |memory| == SPACE && 1 <= i <= k <= |line| && RomScan(memory, line, i).stopped
    ensures RomScan(memory, line, k).stopped
    ensures RomScan(memory, line, k).memory == RomScan(memory, line, i).memory
  {
    if i < k {
      StoppedStays(memory, line, i, k - 1);
    }
  }

  // A well-formed line

  lemma {:induction false} ScanAddress(memory: seq<byte>, line: string, k: nat)
    requires |memory| == SPACE && 1 <= k <= 7 <= |line| && UpperHex(line[1..])
    ensures HexValue(line[1..k]).Some?
    ensures RomScan(memory, line, k) == RomState(memory, HexValue(line[1..k]).value, false, false)
  {
    hide HexValue, DigitValue, Pow16;
    if k > 1 {
      ScanAddress(memory, line, k - 1);
      assert line[1..k] == line[1..k - 1] + [line[k - 1]];
      assert line[1..][k - 2] == line[k - 1];
      HexValueLast(line[1..k - 1], line[k - 1]);
      UpperDigit(line[k - 1]);
      HexValueBound(line[1..k]);
      PowGrows(k - 1, 6);
      Powers();
    } else {
      NoDigits();
      assert line[1..1] == "";
    }
  }

  lemma UpperDigit(c: char)
    requires RomDigit(c) >= 0
    ensures DigitValue(c) == RomDigit(c)
  {
  }

  lemma {:induction false} PowGrows(i: nat, k: nat)
    requires i <= k
    ensures Pow16(i) <= Pow16(k)
  {
    if i < k {
      PowGrows(i, k - 1);
    }
  }

  lemma ByteIs(line: string, off: nat)
    requires off + 2 <= |line| && RomDigit(line[off]) >= 0 && RomDigit(line[off + 1]) >= 0
    ensures Num(line, off, 2) == Some(16 * RomDigit(line[off]) + RomDigit(line[off + 1]))
  {
    var x, y := line[off], line[off + 1];
    assert line[off..off + 2] == "" + [x] + [y];
    NoDigits();
    HexValueLast("", x);
    HexValueLast("" + [x], y);
  }

  lemma ScanTwice(memory: seq<byte>, line: string, off: nat)
    requires |memory| == SPACE && 1 <= off && off + 2 <= |line|
    ensures RomScan(memory, line, off + 2)
         == RomStep(RomStep(RomScan(memory, line, off), off, line[off]), off + 1, line[off + 1])
  {
    assert RomScan(memory, line, off + 1) == RomStep(RomScan(memory, line, off), off, line[off]);
  }

  /** Two digits store one byte. */
  lemma ByteStored(s: RomState, line: string, off: nat)
    requires s.Valid() && !s.half && !s.stopped && s.address + 1 < SPACE
    requires 7 <= off && off + 2 <= |line| && UpperHex(line[1..])
    ensures Num(line, off, 2).Some? && Num(line, off, 2).value < 256
    ensures RomStep(RomStep(s, off, line[off]), off + 1, line[off + 1])
         == RomState(s.memory[s.address := Num(line, off, 2).value], s.address + 1, false, false)
  {
    assert line[1..][off - 1] == line[off] && line[1..][off] == line[off + 1];
    ByteIs(line, off);
    assert (16 * RomDigit(line[off])) / 16 == RomDigit(line[off]);
  }

  /** After the digits of `j` bytes these bytes are stored. */
  lemma {:induction false} ScanData(memory: seq<byte>, line: string, j: nat)
    requires |memory| == SPACE && 7 + 2 * j <= |line| && UpperHex(line[1..])
    requires Num(line, 1, 6).Some? && Num(line, 1, 6).value + j < SPACE
    ensures NumBytes(line, 7, j).Some? && |NumBytes(line, 7, j).value| == j
    ensures RomScan(memory, line, 7 + 2 * j)
         == RomState(Store(memory, Num(line, 1, 6).value, NumBytes(line, 7, j).value),
                     Num(line, 1, 6).value + j, false, false)
  {
    hide RomStep, RomScan, RomDigit, UpperHex, HexValue, Store;
    var a := Num(line, 1, 6).value;
    if j == 0 {
      ScanAddress(memory, line, 7);
      StoreNothing(memory, a);
    } else {
      ScanData(memory, line, j - 1);
      var bs := NumBytes(line, 7, j - 1).value;
      var s := RomScan(memory, line, 5 + 2 * j);
      ScanTwice(memory, line, 5 + 2 * j);
      ByteStored(s, line, 5 + 2 * j);
      StoreOneMore(memory, a, bs, Num(line, 5 + 2 * j, 2).value);
    }
  }

  lemma StoreOneMore(memory: seq<byte>, a: nat, bs: seq<byte>, b: byte)
    requires a + |bs| < |memory|
    ensures Store(memory, a, bs)[a + |bs| := b] == Store(memory, a, bs + [b])
  {
    var x, y := Store(memory, a, bs)[a + |bs| := b], Store(memory, a, bs + [b]);
    forall i | 0 <= i < |memory| ensures x[i] == y[i] {
    }
  }
}
