/** Values in the heap: cells, the symbol table and the string pool, and which datum a word
    stands for. */
module LispStore {
  import opened Words24
  import opened Tml
  import opened LispText

  const ETYPE_STRING: int := 16

  datatype Store = Store(cells: seq<(int, int)>, symbols: seq<string>, pool: string)
  {
    /** Symbol 0 is nil, symbol 1 is t, and no name is there twice. */
    predicate Valid() {
      && |symbols| >= 2 && symbols[0] == "nil" && symbols[1] == "t"
      && forall i, j :: 0 <= i < j < |symbols| ==> symbols[i] != symbols[j]
    }
  }

  // Strings: offset and length in one fixnum

  /** MAKE_FIXNUM((off << 11) | len). */
  function Packed(off: nat, len: nat): int
    requires len < 2048
  {
    MakeFixnum(Fold(off * 2048 + len))
  }

  function StringLen(packed: int): nat { packed / 4 % 2048 }
  function StringOff(packed: int): nat { packed / 4 / 2048 % 2048 }

  /** The length comes back, the offset only modulo 2048: a string is found again exactly
      when it starts in the first 2048 bytes of the pool, which has 8192. */
  lemma PackedExactly(off: nat, len: nat)
    requires len < 2048
    ensures StringLen(Packed(off, len)) == len && StringOff(Packed(off, len)) == off % 2048
    ensures StringOff(Packed(off, len)) == off <==> off < 2048
  {
    var x := off * 2048 + len;
    var k := (x + FIX_HALF) / FIX_MODULUS;
    var y := Fold(x);
    assert y == x - 2048 * (2048 * k);
    assert y == 2048 * (off - 2048 * k) + len;
    assert y / 2048 == off - 2048 * k && y % 2048 == len;
    assert (off - 2048 * k) % 2048 == off % 2048;
  }

  // Words and data

  /** Word `v` stands for `d`, built from cells in `lo..hi`. */
  ghost predicate Denotes(st: Store, v: int, d: Datum, lo: nat, hi: nat)
    decreases d
  {
    match d
    case Int(n) => v == MakeFixnum(n)
    case Name(s) => exists i :: 0 <= i < |st.symbols| && st.symbols[i] == s && v == MakeSymbol(i)
    case Str(s) =>
      && IsExtended(v) && lo <= PtrIdx(v) < hi && PtrIdx(v) < |st.cells|
      && st.cells[PtrIdx(v)].0 == ETYPE_STRING
      && var packed := st.cells[PtrIdx(v)].1;
         StringLen(packed) == |s| && StringOff(packed) + |s| <= |st.pool|
         && st.pool[StringOff(packed)..StringOff(packed) + |s|] == s
    case Pair(a, b) =>
      && IsCons(v) && lo <= PtrIdx(v) < hi && PtrIdx(v) < |st.cells|
      && Denotes(st, st.cells[PtrIdx(v)].0, a, lo, hi)
      && Denotes(st, st.cells[PtrIdx(v)].1, b, lo, hi)
  }

  /** Cells in `lo..hi` are the same, tables have only grown. */
  ghost predicate Agrees(st: Store, st': Store, lo: nat, hi: nat) {
    && |st.cells| <= |st'.cells|
    && (forall i :: lo <= i < hi && i < |st.cells| ==> st'.cells[i] == st.cells[i])
    && st.symbols <= st'.symbols && st.pool <= st'.pool
  }

  lemma {:induction false} DenotesKept(st: Store, st': Store, v: int, d: Datum, lo: nat, hi: nat, lo': nat, hi': nat)
    requires Denotes(st, v, d, lo, hi) && Agrees(st, st', lo, hi) && lo' <= lo && hi <= hi'
    ensures Denotes(st', v, d, lo', hi')
    decreases d
  {
    match d
    case Int(_) =>
    case Name(s) =>
      var i :| 0 <= i < |st.symbols| && st.symbols[i] == s && v == MakeSymbol(i);
      assert st'.symbols[i] == s;
    case Str(s) =>
      var packed := st.cells[PtrIdx(v)].1;
      var a, b := StringOff(packed), StringOff(packed) + |s|;
      assert st'.pool[a..b] == st'.pool[..|st.pool|][a..b];
    case Pair(a, b) =>
      DenotesKept(st, st', st.cells[PtrIdx(v)].0, a, lo, hi, lo', hi');
      DenotesKept(st, st', st.cells[PtrIdx(v)].1, b, lo, hi, lo', hi');
  }

  lemma NilDenotes(st: Store, lo: nat, hi: nat)
    requires st.Valid()
    ensures Denotes(st, NIL_VAL, NIL, lo, hi) && Denotes(st, T_VAL, Name("t"), lo, hi)
  {
    assert st.symbols[0] == "nil" && NIL_VAL == MakeSymbol(0);
    assert st.symbols[1] == "t" && T_VAL == MakeSymbol(1);
  }

  /** A word stands for nil only when it is nil. */
  lemma NilOnly(st: Store, v: int, d: Datum, lo: nat, hi: nat)
    requires st.Valid() && Denotes(st, v, d, lo, hi)
    ensures v == NIL_VAL <==> d == NIL
  {
    if d.Name? {
      var i :| 0 <= i < |st.symbols| && st.symbols[i] == d.s && v == MakeSymbol(i);
      assert i > 0 ==> st.symbols[0] != st.symbols[i];
    }
  }

  // What the reader makes besides

  /** An extended word names a string made since there were `lo` cells. */
  predicate PlainWord(cells: seq<(int, int)>, lo: nat, v: int) {
    IsExtended(v) ==> lo <= PtrIdx(v) < |cells| && cells[PtrIdx(v)].0 == ETYPE_STRING
  }

  ghost predicate Plain(cells: seq<(int, int)>, lo: nat) {
    forall i {:trigger cells[i]} :: lo <= i < |cells| ==>
      PlainWord(cells, lo, cells[i].0) && PlainWord(cells, lo, cells[i].1)
  }

  lemma DenotesPlain(st: Store, v: int, d: Datum, lo: nat, hi: nat)
    requires Denotes(st, v, d, lo, hi)
    ensures PlainWord(st.cells, lo, v)
  {
  }

  lemma PlainFresh(cells: seq<(int, int)>, lo: nat, a: int, d: int)
    requires Plain(cells, lo) && PlainWord(cells, lo, a) && PlainWord(cells, lo, d)
    ensures Plain(cells + [(a, d)], lo)
  {
  }

  lemma PlainPatched(cells: seq<(int, int)>, lo: nat, at: nat, d: int)
    requires Plain(cells, lo) && PlainWord(cells, lo, d) && at < |cells|
    ensures Plain(cells[at := (cells[at].0, d)], lo)
  {
  }

  lemma PlainThen(cells: seq<(int, int)>, cells1: seq<(int, int)>, lo: nat)
    requires Plain(cells, lo) && lo <= |cells| && cells <= cells1 && Plain(cells1, |cells|)
    ensures Plain(cells1, lo)
    ensures forall v :: PlainWord(cells, lo, v) ==> PlainWord(cells1, lo, v)
  {
  }

  // Lists under construction

  /** Elements in front of a last value. */
  function ListOf(elems: seq<Datum>, last: Datum): Datum
    decreases |elems|
  {
    if elems == [] then last else Pair(elems[0], ListOf(elems[1..], last))
  }

  lemma {:induction false} ListOfAppend(elems: seq<Datum>, d: Datum, last: Datum)
    ensures ListOf(elems + [d], last) == ListOf(elems, Pair(d, last))
    decreases |elems|
  {
    if elems == [] {
    } else {
      assert (elems + [d])[1..] == elems[1..] + [d];
      ListOfAppend(elems[1..], d, last);
    }
  }

  /** The cells of a list whose last cell is `tail`; every cell lies behind the cells of its
      element. The cdr of the last cell is not looked at. */
  ghost predicate Spine(st: Store, v: int, elems: seq<Datum>, tail: int, lo: nat)
    decreases |elems|
  {
    && elems != [] && IsCons(v) && lo <= PtrIdx(v) < |st.cells|
    && Denotes(st, st.cells[PtrIdx(v)].0, elems[0], lo, PtrIdx(v))
    && if |elems| == 1 then v == tail
       else Spine(st, st.cells[PtrIdx(v)].1, elems[1..], tail, PtrIdx(v) + 1)
  }

  lemma {:induction false} TailBehind(st: Store, v: int, elems: seq<Datum>, tail: int, lo: nat)
    requires Spine(st, v, elems, tail, lo)
    ensures IsCons(tail) && lo <= PtrIdx(v) <= PtrIdx(tail) < |st.cells|
    decreases |elems|
  {
    if |elems| > 1 {
      TailBehind(st, st.cells[PtrIdx(v)].1, elems[1..], tail, PtrIdx(v) + 1);
    }
  }

  /** Everything in front of the tail cell is the same, and so is the tail's car. */
  ghost predicate OnlyTail(st: Store, st': Store, lo: nat, tail: int) {
    && IsCons(tail) && 0 <= PtrIdx(tail) < |st.cells| <= |st'.cells|
    && Agrees(st, st', lo, PtrIdx(tail))
    && st'.cells[PtrIdx(tail)].0 == st.cells[PtrIdx(tail)].0
  }

  lemma {:induction false} SpineKept(st: Store, st': Store, v: int, elems: seq<Datum>, tail: int, lo: nat)
    requires Spine(st, v, elems, tail, lo) && OnlyTail(st, st', lo, tail)
    ensures Spine(st', v, elems, tail, lo)
    decreases |elems|
  {
    TailBehind(st, v, elems, tail, lo);
    var i := PtrIdx(v);
    DenotesKept(st, st', st.cells[i].0, elems[0], lo, i, lo, i);
    if |elems| > 1 {
      TailBehind(st, st.cells[i].1, elems[1..], tail, i + 1);
      SpineKept(st, st', st.cells[i].1, elems[1..], tail, i + 1);
    }
  }

  /** With the value `d` hung behind the tail the list is complete. */
  lemma {:induction false} SpineEnds(st: Store, v: int, elems: seq<Datum>, tail: int, at: nat, lo: nat, d: Datum,
        hi: nat)
    requires Spine(st, v, elems, tail, at) && lo <= at && 0 <= PtrIdx(tail) < |st.cells| == hi
    requires Denotes(st, st.cells[PtrIdx(tail)].1, d, lo, hi)
    ensures Denotes(st, v, ListOf(elems, d), lo, hi)
    decreases |elems|
  {
    var i := PtrIdx(v);
    DenotesKept(st, st, st.cells[i].0, elems[0], at, i, lo, hi);
    if |elems| > 1 {
      SpineEnds(st, st.cells[i].1, elems[1..], tail, i + 1, lo, d, hi);
    } else {
      assert elems[1..] == [];
    }
  }

  /** One more cell behind the tail. */
  lemma {:induction false} SpineGrows(st: Store, v: int, elems: seq<Datum>, tail: int, lo: nat, d: Datum, cell: int)
    requires Spine(st, v, elems, tail, lo) && 0 <= PtrIdx(tail) < |st.cells| && st.cells[PtrIdx(tail)].1 == cell
    requires IsCons(cell) && PtrIdx(tail) < PtrIdx(cell) < |st.cells|
    requires Denotes(st, st.cells[PtrIdx(cell)].0, d, PtrIdx(tail) + 1, PtrIdx(cell))
    ensures Spine(st, v, elems + [d], cell, lo)
    decreases |elems|
  {
    var i := PtrIdx(v);
    if |elems| > 1 {
      assert (elems + [d])[1..] == elems[1..] + [d];
      SpineGrows(st, st.cells[i].1, elems[1..], tail, i + 1, d, cell);
    } else {
      assert (elems + [d])[1..] == [d];
    }
  }
}
