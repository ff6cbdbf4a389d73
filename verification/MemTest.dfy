/** The address-bus memory test, run on memory behind an arbitrary address decoder: any
    wiring fault is a function from the address asked for to the cell that answers. */
module MemTest {
  import opened Wrappers

  const PATTERN: nat := 0xAA
  const ANTIPATTERN: nat := 0x55

  /** The addresses the test looks at: zero, then the powers of two. */
  function Probe(k: nat): nat { if k == 0 then 0 else Pow2(k - 1) }

  lemma {:induction false} PowerGrows(i: nat, j: nat)
    requires i < j
    ensures Pow2(i) < Pow2(j)
  {
    if i < j - 1 {
      PowerGrows(i, j - 1);
    }
  }

  /** No two of the probed addresses of a bus of `lines` lines reach the same cell. */
  ghost predicate Distinct(decode: nat -> nat, lines: nat) {
    forall i, j :: 0 <= i < j <= lines ==> decode(Probe(i)) != decode(Probe(j))
  }

  /** Address `a` shares its cell with another probed address. */
  ghost predicate Aliased(decode: nat -> nat, lines: nat, a: nat) {
    exists i, j :: 0 <= i <= lines && 0 <= j <= lines && i != j
                   && a == Probe(i) && decode(Probe(i)) == decode(Probe(j))
  }

  /** The decoder reaches no cell beyond the memory. */
  ghost predicate Within(decode: nat -> nat, lines: nat, size: nat) {
    forall k :: 0 <= k <= lines ==> decode(Probe(k)) < size
  }

  /** The cells of these probed addresses hold the pattern. */
  ghost predicate Filled(m: seq<nat>, decode: nat -> nat, from: nat, to: nat)
    requires forall k :: from <= k < to ==> decode(Probe(k)) < |m|
  {
    forall k :: from <= k < to ==> m[decode(Probe(k))] == PATTERN
  }

  /** The first two loops: the pattern everywhere, then address zero against the others. */
  method FillAndCheckHigh(cells: array<nat>, decode: nat -> nat, lines: nat) returns (fault: nat)
    requires Within(decode, lines, cells.Length)
    modifies cells
    ensures fault == 0 ==> Filled(cells[..], decode, 0, lines + 1)
    ensures fault == 0 ==> forall j :: 1 <= j <= lines ==> decode(Probe(0)) != decode(Probe(j))
    ensures fault != 0 ==> Aliased(decode, lines, fault)
  {
    var offset := 1;
    ghost var k: nat := 1;
    while offset < Pow2(lines)
      invariant 1 <= k <= lines + 1 && offset == Probe(k) && Filled(cells[..], decode, 1, k)
      decreases lines + 1 - k
    {
      InRange(k, lines);
      cells[decode(offset)] := PATTERN;
      offset := 2 * offset;
      k := k + 1;
    }
    OutOfRange(k, lines);
    assert decode(Probe(0)) < cells.Length;
    cells[decode(0)] := ANTIPATTERN;
    offset, k := 1, 1;
    while offset < Pow2(lines)
      invariant 1 <= k <= lines + 1 && offset == Probe(k)
      invariant cells[decode(Probe(0))] == ANTIPATTERN
      invariant forall j :: 1 <= j <= lines && decode(Probe(j)) != decode(Probe(0))
                      ==> cells[decode(Probe(j))] == PATTERN
      invariant forall j :: 1 <= j < k ==> decode(Probe(0)) != decode(Probe(j))
      decreases lines + 1 - k
    {
      InRange(k, lines);
      if cells[decode(offset)] != PATTERN {
        assert decode(Probe(k)) == decode(Probe(0));
        return offset;
      }
      offset := 2 * offset;
      k := k + 1;
    }
    OutOfRange(k, lines);
    cells[decode(0)] := PATTERN;
    return 0;
  }

  /** The inner loop: with the antipattern at one address, all others keep the pattern. */
  method CheckOthers(cells: array<nat>, decode: nat -> nat, lines: nat, testOffset: nat, ghost t: nat)
      returns (fault: nat)
    requires Within(decode, lines, cells.Length) && 1 <= t <= lines && testOffset == Probe(t)
    requires cells[decode(Probe(t))] == ANTIPATTERN
    requires forall k :: 0 <= k <= lines && decode(Probe(k)) != decode(Probe(t))
                    ==> cells[decode(Probe(k))] == PATTERN
    ensures fault == 0 ==> forall j :: 1 <= j <= lines && j != t ==> decode(Probe(t)) != decode(Probe(j))
    ensures fault != 0 ==> Aliased(decode, lines, fault)
  {
    var offset := 1;
    ghost var k: nat := 1;
    while offset < Pow2(lines)
      invariant 1 <= k <= lines + 1 && offset == Probe(k)
      invariant forall j :: 1 <= j < k && j != t ==> decode(Probe(t)) != decode(Probe(j))
      decreases lines + 1 - k
    {
      InRange(k, lines);
      SameProbe(k, t);
      if cells[decode(offset)] != PATTERN && offset != testOffset {
        assert decode(Probe(t)) == decode(Probe(k));
        return testOffset;
      }
      offset := 2 * offset;
      k := k + 1;
    }
    OutOfRange(k, lines);
    return 0;
  }

  lemma SameProbe(i: nat, j: nat)
    requires 1 <= i && 1 <= j
    ensures Probe(i) == Probe(j) <==> i == j
  {
    if i < j {
      PowerGrows(i - 1, j - 1);
    } else if j < i {
      PowerGrows(j - 1, i - 1);
    }
  }

  /** memTestAddressBus, for a mask of `lines` ones: `offset & mask` is zero exactly from
      `Pow2(lines)` on. Zero means success. */
  method MemTestAddressBus(cells: array<nat>, decode: nat -> nat, lines: nat) returns (fault: nat)
    requires Within(decode, lines, cells.Length)
    modifies cells
    ensures fault == 0 <==> Distinct(decode, lines)
    ensures fault != 0 ==> Aliased(decode, lines, fault)
  {
    fault := FillAndCheckHigh(cells, decode, lines);
    if fault != 0 {
      return;
    }
    var testOffset := 1;
    ghost var t: nat := 1;
    while testOffset < Pow2(lines)
      invariant 1 <= t <= lines + 1 && testOffset == Probe(t)
      invariant Filled(cells[..], decode, 0, lines + 1)
      invariant forall j :: 1 <= j <= lines ==> decode(Probe(0)) != decode(Probe(j))
      invariant forall i, j :: 1 <= i < t && 0 <= j <= lines && i != j ==> decode(Probe(i)) != decode(Probe(j))
      decreases lines + 1 - t
    {
      InRange(t, lines);
      assert decode(Probe(0)) < cells.Length;
      cells[decode(testOffset)] := ANTIPATTERN;
      if cells[decode(0)] != PATTERN {
        // Never taken: the first part has told address zero from all the others.
        assert false;
      }
      fault := CheckOthers(cells, decode, lines, testOffset, t);
      if fault != 0 {
        return;
      }
      cells[decode(testOffset)] := PATTERN;
      testOffset := 2 * testOffset;
      t := t + 1;
    }
    OutOfRange(t, lines);
    return 0;
  }

  lemma InRange(t: nat, lines: nat)
    requires 1 <= t && Probe(t) < Pow2(lines)
    ensures t <= lines
  {
    if t - 1 > lines {
      PowerGrows(lines, t - 1);
    }
  }

  lemma OutOfRange(t: nat, lines: nat)
    requires 1 <= t <= lines + 1 && Probe(t) >= Pow2(lines)
    ensures t == lines + 1
  {
    if t - 1 < lines {
      PowerGrows(t - 1, lines);
    }
  }
}
