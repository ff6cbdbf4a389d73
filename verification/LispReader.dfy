/** The reader and the printer as they run: a pointer into the text, cells whose tails are
    patched in place, and a stream of characters. */
module LispReader {
  import opened Words24
  import opened Tml
  import opened LispText
  import opened LispStore

  class Machine {
    var input: string
    var readPtr: nat
    var cells: seq<(int, int)>
    var symbols: seq<string>
    var pool: string
    var output: string

    function ToStore(): Store
      reads this
    {
      Store(cells, symbols, pool)
    }

    ghost predicate Valid()
      reads this
    {
      ToStore().Valid()
    }

    /** The strings that the rest of the text can hold start in the first 2048 bytes of the
        pool. */
    ghost predicate Room()
      reads this
    {
      |pool| + |input| + 1 <= 2048 + readPtr
    }

    /** Nothing has been done but adding, and no extended objects have been made but strings. */
    ghost predicate Grown(before: Store)
      reads this
    {
      && Valid() && before.cells <= cells && before.symbols <= symbols && before.pool <= pool
      && Plain(cells, |before.cells|)
    }

    /** The text has been read as `p`, into word `r` and new cells. */
    ghost predicate Done(before: Store, p: Parsed, r: int)
      reads this
    {
      && Grown(before) && Room() && readPtr == p.pos
      && Denotes(ToStore(), r, p.d, |before.cells|, |cells|)
    }

    constructor ()
      ensures Valid() && symbols == ["nil", "t"] && cells == [] && pool == "" && output == ""
    {
      input, readPtr := "", 0;
      cells, pool, output := [], "", "";
      symbols := ["nil", "t"];
    }

    // Building

    method MakePair(a: int, d: int) returns (r: int)
      modifies this`cells
      ensures cells == old(cells) + [(a, d)] && r == MakeCons(|old(cells)|)
    {
      r := MakeCons(|cells|);
      cells := cells + [(a, d)];
    }

    /** intern: the index of the name, which is added when it is new. */
    method Intern(name: string) returns (r: int)
      requires Valid()
      modifies this`symbols
      ensures Grown(old(ToStore()))
      ensures forall lo, hi :: Denotes(ToStore(), r, Name(name), lo, hi)
    {
      var i := 0;
      while i < |symbols|
        invariant i <= |symbols| && name !in symbols[..i]
      {
        if symbols[i] == name {
          return MakeSymbol(i);
        }
        i := i + 1;
      }
      symbols := symbols + [name];
      assert symbols[i] == name;
      r := MakeSymbol(i);
    }

    /** make_string. The word denotes the string exactly if the pool holds the string where the
        11 bits kept of its offset lead to, so in any case while it starts below 2048. */
    method MakeString(s: string) returns (r: int)
      requires Valid() && |s| < 2048
      modifies this`cells, this`pool
      ensures Grown(old(ToStore())) && pool == old(pool) + s + ['\0']
      ensures Denotes(ToStore(), r, Str(s), |old(cells)|, |cells|) <==>
                var at := |old(pool)| % 2048; pool[at..at + |s|] == s
      ensures |old(pool)| < 2048 ==> Denotes(ToStore(), r, Str(s), |old(cells)|, |cells|)
    {
      var off := |pool|;
      pool := pool + s + ['\0'];
      assert pool[off..off + |s|] == s;
      PackedExactly(off, |s|);
      r := MakeExtended(|cells|);
      cells := cells + [(ETYPE_STRING, Packed(off, |s|))];
    }

    // Reading

    /** skip_whitespace. */
    method SkipWhitespace()
      modifies this`readPtr
      ensures readPtr == Skip(input, old(readPtr))
    {
      while true
        invariant Skip(input, readPtr) == Skip(input, old(readPtr))
        decreases |input| - readPtr
      {
        if IsSpace(Ch(input, readPtr)) {
          readPtr := readPtr + 1;
        } else if Ch(input, readPtr) == ';' {
          ghost var start := readPtr;
          while Ch(input, readPtr) != '\0' && Ch(input, readPtr) != '\n'
            invariant readPtr >= start && LineEnd(input, readPtr) == LineEnd(input, start)
            decreases |input| - readPtr
          {
            readPtr := readPtr + 1;
          }
        } else {
          return;
        }
      }
    }

    /** The digit loop of read_int. */
    method ReadDigits() returns (n: nat)
      modifies this`readPtr
      ensures (n, readPtr) == Number(input, old(readPtr), 0)
    {
      n := 0;
      while IsDigit(Ch(input, readPtr))
        invariant Number(input, readPtr, n) == Number(input, old(readPtr), 0)
        decreases |input| - readPtr
      {
        n := 10 * n + (Ch(input, readPtr) as int - '0' as int);
        readPtr := readPtr + 1;
      }
    }

    /** read_int. */
    method ReadInteger() returns (r: int)
      requires Valid() && Room()
      requires IsDigit(Ch(input, readPtr)) || (Ch(input, readPtr) == '-' && IsDigit(Ch(input, readPtr + 1)))
      modifies this`readPtr
      ensures Done(old(ToStore()), ReadInt(input, old(readPtr)), r)
    {
      var neg := Ch(input, readPtr) == '-';
      if neg {
        readPtr := readPtr + 1;
      }
      var n: int := ReadDigits();
      if neg {
        n := 0 - n;
      }
      r := MakeFixnum(Fold(n));
    }

    /** read_hex, behind the `#x`. */
    method ReadHex() returns (r: int)
      requires Valid() && Room()
      modifies this`readPtr
      ensures var n := HexNumber(input, old(readPtr), 0);
              Done(old(ToStore()), Parsed(Int(Fold(n.0)), n.1), r)
    {
      var n := 0;
      while HexDigit(Ch(input, readPtr)) >= 0
        invariant n >= 0 && HexNumber(input, readPtr, n) == HexNumber(input, old(readPtr), 0)
        invariant readPtr >= old(readPtr)
        decreases |input| - readPtr
      {
        n := 16 * n + HexDigit(Ch(input, readPtr));
        readPtr := readPtr + 1;
      }
      r := MakeFixnum(Fold(n));
    }

    /** read_symbol. */
    method ReadSymbol() returns (r: int)
      requires Valid() && Room() && readPtr <= |input|
      modifies this`readPtr, this`symbols
      ensures var q := SymbolEnd(input, old(readPtr), 0);
              Done(old(ToStore()), Parsed(Name(input[old(readPtr)..q]), q), r)
    {
      var buf := "";
      while IsSymChar(Ch(input, readPtr)) && |buf| < 63
        invariant readPtr == old(readPtr) + |buf| <= |input| && buf == input[old(readPtr)..readPtr]
        invariant ToStore() == old(ToStore())
        invariant SymbolEnd(input, readPtr, |buf|) == SymbolEnd(input, old(readPtr), 0)
        decreases |input| - readPtr
      {
        buf := buf + [Ch(input, readPtr)];
        readPtr := readPtr + 1;
      }
      r := Intern(buf);
    }

    /** read_string. */
    method ReadStringLiteral() returns (r: int)
      requires Valid() && Room() && readPtr < |input|
      modifies this`readPtr, this`cells, this`pool
      ensures Done(old(ToStore()), ReadString(input, old(readPtr)), r)
    {
      readPtr := readPtr + 1;
      var buf := "";
      while Ch(input, readPtr) != '\0' && Ch(input, readPtr) != '"' && |buf| < 119
        invariant ToStore() == old(ToStore())
        invariant |buf| <= 119 && |buf| <= readPtr - old(readPtr) - 1
        invariant StringBody(input, readPtr, buf) == StringBody(input, old(readPtr) + 1, "")
        decreases |input| - readPtr
      {
        var c := Ch(input, readPtr);
        if c == '\\' {
          readPtr := readPtr + 1;
          c := Unescaped(Ch(input, readPtr));
        }
        buf := buf + [c];
        readPtr := readPtr + 1;
      }
      r := MakeString(buf);
      if Ch(input, readPtr) == '"' {
        readPtr := readPtr + 1;
      }
    }

    /** `val` in a list behind the name of a quoting form. */
    method QuoteForm(name: string, val: int, ghost before: Store, ghost p: Parsed) returns (r: int)
      requires Done(before, p, val)
      modifies this`cells, this`symbols
      ensures Done(before, Quoted(name, p), r)
    {
      hide Denotes, Store.Valid, Plain, PlainWord;
      ghost var st, lo := ToStore(), |before.cells|;
      var sym := Intern(name);
      ghost var st1 := ToStore();
      assert Denotes(st1, sym, Name(name), 0, 0) && Denotes(st1, sym, Name(name), lo, lo);
      var inner := MakePair(val, NIL_VAL);
      r := MakePair(sym, inner);
      ghost var hi := |cells|;
      QuotePlain(st, st1, val, p.d, sym, name, lo);
      DenotesKept(st, ToStore(), val, p.d, lo, |st.cells|, lo, hi);
      NameAnywhere(st1, ToStore(), sym, name, lo, hi);
      StoreGrown(st1, ToStore());
      NilDenotes(ToStore(), lo, hi);
      PairDenotes(ToStore(), inner, p.d, NIL, lo, hi);
      PairDenotes(ToStore(), r, Name(name), Pair(p.d, NIL), lo, hi);
    }

    lemma QuotePlain(st: Store, st1: Store, val: int, d: Datum, sym: int, name: string, lo: nat)
      requires Plain(st.cells, lo) && st1.cells == st.cells && Denotes(st, val, d, lo, |st.cells|)
      requires Denotes(st1, sym, Name(name), lo, lo)
      ensures Plain(st1.cells + [(val, NIL_VAL)] + [(sym, MakeCons(|st.cells|))], lo)
    {
      hide Denotes, Plain;
      DenotesPlain(st, val, d, lo, |st.cells|);
      PlainFresh(st1.cells, lo, val, NIL_VAL);
      DenotesPlain(st1, sym, Name(name), lo, lo);
      PlainFresh(st1.cells + [(val, NIL_VAL)], lo, sym, MakeCons(|st.cells|));
    }

    /** The forms `#x`, `#t` and `#f`. */
    method ReadHash(next: char) returns (r: int)
      requires Valid() && Room() && Skip(input, readPtr) == readPtr
      requires Ch(input, readPtr) == '#' && next == Ch(input, readPtr + 1) && next in "xtf"
      modifies this`readPtr
      ensures Done(old(ToStore()), ReadExpr(input, old(readPtr)), r)
    {
      readPtr := readPtr + 2;
      NilDenotes(ToStore(), |cells|, |cells|);
      if next == 'x' {
        r := ReadHex();
      } else if next == 't' {
        r := T_VAL;
      } else {
        r := NIL_VAL;
      }
    }

    /** The quoting forms. */
    method ReadQuote(ch: char, next: char) returns (r: int)
      requires Valid() && Room() && Skip(input, readPtr) == readPtr
      requires ch == Ch(input, readPtr) && ch in "'`," && next == Ch(input, readPtr + 1)
      modifies this
      ensures input == old(input) && Done(old(ToStore()), ReadExpr(input, old(readPtr)), r)
      decreases |input| - readPtr, 0
    {
      hide Done, Grown, Store.Valid, Denotes, ReadExpr, Skip, Quoted;
      ghost var before, p := ToStore(), readPtr;
      var skip, name := 1, "unquote";
      if ch == '\'' {
        name := "quote";
      } else if ch == '`' {
        name := "quasiquote";
      } else if next == '@' {
        skip, name := 2, "unquote-splicing";
      }
      QuoteText(input, p, ch, next);
      readPtr := readPtr + skip;
      r := ReadExpression();
      r := QuoteForm(name, r, before, ReadExpr(input, p + skip));
    }

    lemma DoneSince(before: Store, st: Store, p: Parsed, r: int)
      requires Done(st, p, r) && before.cells <= st.cells && before.symbols <= st.symbols && before.pool <= st.pool
      requires Plain(st.cells, |before.cells|)
      ensures Done(before, p, r)
    {
      hide Plain;
      PlainThen(st.cells, cells, |before.cells|);
      DenotesKept(ToStore(), ToStore(), r, p.d, |st.cells|, |cells|, |before.cells|, |cells|);
    }

    /** read_expr. */
    method ReadExpression() returns (r: int)
      requires Valid() && Room()
      modifies this
      ensures input == old(input) && Done(old(ToStore()), ReadExpr(input, old(readPtr)), r)
      decreases |input| - readPtr, 2
    {
      ghost var from := readPtr;
      SkipWhitespace();
      SkipStays(input, from);
      assert ReadExpr(input, from) == ReadExpr(input, readPtr) by { ReadSkips(input, from); }
      r := ReadSolid();
    }

    /** read_expr behind the white space. */
    method ReadSolid() returns (r: int)
      requires Valid() && Room() && Skip(input, readPtr) == readPtr
      modifies this
      ensures input == old(input) && Done(old(ToStore()), ReadExpr(input, old(readPtr)), r)
      decreases |input| - readPtr, 1
    {
      hide Denotes, ReadExpr, Skip, ReadString, ReadInt, ReadList, SymbolEnd, Store.Valid, IsDigit;
      ghost var before, p := ToStore(), readPtr;
      var ch, next := Ch(input, readPtr), Ch(input, readPtr + 1);
      SolidText(input, p);
      if ch == '"' {
        r := ReadStringLiteral();
      } else if ch == '(' {
        r := ReadListForm();
      } else if ch == '\'' || ch == '`' || ch == ',' {
        r := ReadQuote(ch, next);
      } else if ch == '#' && (next == 'x' || next == 't' || next == 'f') {
        r := ReadHash(next);
      } else if ch == '#' && next == '_' {
        readPtr := readPtr + 2;
        var _ := ReadExpression();
        ghost var st := ToStore();
        r := ReadExpression();
        DoneSince(before, st, ReadExpr(input, p), r);
      } else if IsDigit(ch) || (ch == '-' && IsDigit(next)) {
        r := ReadInteger();
      } else if ch != '\0' && ch != ')' {
        r := ReadSymbol();
      } else {
        NilDenotes(ToStore(), |cells|, |cells|);
        return NIL_VAL;
      }
    }

    /** read_list. */
    method ReadListForm() returns (r: int)
      requires Valid() && Room() && readPtr < |input|
      modifies this
      ensures input == old(input) && Done(old(ToStore()), ReadList(input, old(readPtr)), r)
      decreases |input| - readPtr, 0
    {
      hide Denotes, Store.Valid, ReadExpr, ReadRest, ReadList, Skip;
      ghost var before, p := ToStore(), readPtr;
      ListText(input, p);
      readPtr := readPtr + 1;
      SkipWhitespace();
      if Ch(input, readPtr) == ')' {
        readPtr := readPtr + 1;
        NilDenotes(ToStore(), |cells|, |cells|);
        return NIL_VAL;
      }
      ghost var first := ReadExpr(input, readPtr);
      r := ReadExpression();
      SkipWhitespace();
      RestSkips(input, first.pos);
      if Ch(input, readPtr) == '.' {
        r := ReadPair(r, before, first.d);
      } else {
        r := ReadElements(r, before, first.d);
      }
    }

    /** The dot, the last value and the parenthesis. */
    method ReadDotted() returns (r: int)
      requires Valid() && Room() && Skip(input, readPtr) == readPtr && Ch(input, readPtr) == '.'
      modifies this
      ensures input == old(input) && Done(old(ToStore()), ReadRest(input, old(readPtr)), r)
      decreases |input| - readPtr, 0
    {
      hide Denotes, Store.Valid, ReadExpr, Skip;
      readPtr := readPtr + 1;
      SkipWhitespace();
      r := ReadExpression();
      SkipWhitespace();
      if Ch(input, readPtr) == ')' {
        readPtr := readPtr + 1;
      }
    }

    /** A dotted pair. */
    method ReadPair(first: int, ghost before: Store, ghost d: Datum) returns (r: int)
      requires Grown(before) && Room() && Skip(input, readPtr) == readPtr && Ch(input, readPtr) == '.'
      requires Denotes(ToStore(), first, d, |before.cells|, |cells|)
      modifies this
      ensures input == old(input)
      ensures var rest := ReadRest(input, old(readPtr)); Done(before, Parsed(Pair(d, rest.d), rest.pos), r)
      decreases |input| - readPtr, 1
    {
      hide ReadExpr, ReadRest, Skip, Store.Valid, Plain, PlainWord;
      ghost var st, lo, p := ToStore(), |before.cells|, readPtr;
      var last := ReadDotted();
      ghost var st1 := ToStore();
      r := MakePair(first, last);
      PairPlain(st, st1, first, d, last, ReadRest(input, p).d, lo);
      DenotesKept(st, ToStore(), first, d, lo, |st.cells|, lo, |cells|);
      DenotesKept(st1, ToStore(), last, ReadRest(input, p).d, |st.cells|, |st1.cells|, lo, |cells|);
      StoreGrown(st1, ToStore());
    }

    /** What was read since `st`, in the place of a cdr. */
    lemma ReadPlain(st: Store, st1: Store, v: int, d: Datum, lo: nat)
      requires Plain(st.cells, lo) && lo <= |st.cells| && st.cells <= st1.cells && Plain(st1.cells, |st.cells|)
      requires Denotes(st1, v, d, |st.cells|, |st1.cells|)
      ensures Plain(st1.cells, lo) && PlainWord(st1.cells, lo, v)
    {
      hide Denotes, Plain;
      PlainThen(st.cells, st1.cells, lo);
      DenotesPlain(st1, v, d, |st.cells|, |st1.cells|);
    }

    lemma PairPlain(st: Store, st1: Store, first: int, d: Datum, last: int, d1: Datum, lo: nat)
      requires Plain(st.cells, lo) && lo <= |st.cells| && st.cells <= st1.cells && Plain(st1.cells, |st.cells|)
      requires Denotes(st, first, d, lo, |st.cells|) && Denotes(st1, last, d1, |st.cells|, |st1.cells|)
      ensures Plain(st1.cells + [(first, last)], lo)
    {
      hide Denotes, Plain, PlainWord;
      ReadPlain(st, st1, last, d1, lo);
      PlainThen(st.cells, st1.cells, lo);
      DenotesPlain(st, first, d, lo, |st.cells|);
      PlainFresh(st1.cells, lo, first, last);
    }

    /** heap_cdr[PTR_IDX(tail)] = w. */
    method SetTail(tail: int, w: int)
      requires 0 <= PtrIdx(tail) < |cells|
      modifies this`cells
      ensures cells == old(cells)[PtrIdx(tail) := (old(cells)[PtrIdx(tail)].0, w)]
    {
      cells := cells[PtrIdx(tail) := (cells[PtrIdx(tail)].0, w)];
    }

    /** A value just read, in a cell behind the tail. `st` is the store before it was read. */
    method Hang(elem: int, head: int, tail: int, ghost before: Store, ghost elems: seq<Datum>, ghost d: Datum,
                ghost st: Store) returns (cell: int)
      requires Grown(before) && Grown(st) && Spine(st, head, elems, tail, |before.cells|)
      requires IsCons(tail) && |before.cells| <= PtrIdx(tail) < |st.cells|
      requires Denotes(ToStore(), elem, d, |st.cells|, |cells|)
      modifies this`cells
      ensures Grown(before) && Spine(ToStore(), head, elems + [d], cell, |before.cells|)
      ensures 0 <= PtrIdx(cell) < |cells| && cells[PtrIdx(cell)].1 == NIL_VAL
    {
      hide Store.Valid, Spine, Denotes, Plain, PlainWord;
      ghost var lo, st1 := |before.cells|, ToStore();
      cell := MakePair(elem, NIL_VAL);
      SetTail(tail, cell);
      HungPlain(st1, elem, d, lo, |st.cells|, PtrIdx(tail));
      SpineKept(st, ToStore(), head, elems, tail, lo);
      DenotesKept(st1, ToStore(), elem, d, |st.cells|, |st1.cells|, PtrIdx(tail) + 1, PtrIdx(cell));
      SpineGrows(ToStore(), head, elems, tail, lo, d, cell);
      StoreGrown(st1, ToStore());
    }

    lemma HungPlain(st: Store, elem: int, d: Datum, lo: nat, from: nat, at: nat)
      requires Plain(st.cells, lo) && lo <= from && Denotes(st, elem, d, from, |st.cells|) && at < |st.cells|
      ensures var cells1 := st.cells + [(elem, NIL_VAL)];
        Plain(cells1[at := (cells1[at].0, MakeCons(|st.cells|))], lo)
    {
      hide Denotes, Plain;
      DenotesPlain(st, elem, d, from, |st.cells|);
      PlainFresh(st.cells, lo, elem, NIL_VAL);
      PlainPatched(st.cells + [(elem, NIL_VAL)], lo, at, MakeCons(|st.cells|));
    }

    /** One more element behind the tail. */
    method AddElement(head: int, tail: int, ghost before: Store, ghost elems: seq<Datum>) returns (cell: int)
      requires Grown(before) && Room() && Skip(input, readPtr) == readPtr && !Stuck(Ch(input, readPtr))
      requires Spine(ToStore(), head, elems, tail, |before.cells|)
      modifies this
      ensures input == old(input) && Grown(before) && Room()
      ensures readPtr == Skip(input, ReadExpr(input, old(readPtr)).pos) && readPtr > old(readPtr)
      ensures Spine(ToStore(), head, elems + [ReadExpr(input, old(readPtr)).d], cell, |before.cells|)
      ensures 0 <= PtrIdx(cell) < |cells| && cells[PtrIdx(cell)].1 == NIL_VAL
      ensures Skip(input, readPtr) == readPtr
      decreases |input| - readPtr, 3
    {
      hide ReadRest, Skip, Store.Valid, ReadExpr, Spine, Denotes, Plain, PlainWord;
      ghost var st, lo, d := ToStore(), |before.cells|, ReadExpr(input, readPtr).d;
      TailBehind(st, head, elems, tail, lo);
      var elem := ReadExpression();
      PlainThen(st.cells, cells, lo);
      cell := Hang(elem, head, tail, before, elems, d, st);
      SkipStays(input, readPtr);
      SkipWhitespace();
    }

    /** The last value of a dotted list. */
    method AddLast(head: int, tail: int, ghost before: Store, ghost elems: seq<Datum>)
      requires Grown(before) && Room() && Skip(input, readPtr) == readPtr && Ch(input, readPtr) == '.'
      requires Spine(ToStore(), head, elems, tail, |before.cells|)
      modifies this
      ensures input == old(input)
      ensures var rest := ReadRest(input, old(readPtr)); Done(before, Parsed(ListOf(elems, rest.d), rest.pos), head)
      decreases |input| - readPtr, 3
    {
      hide ReadRest, Skip, Store.Valid, ReadExpr, Spine, Denotes, Plain, PlainWord;
      ghost var st, lo, d := ToStore(), |before.cells|, ReadRest(input, readPtr).d;
      TailBehind(st, head, elems, tail, lo);
      var last := ReadDotted();
      ghost var st1 := ToStore();
      SetTail(tail, last);
      ReadPlain(st, st1, last, d, lo);
      PlainPatched(st1.cells, lo, PtrIdx(tail), last);
      SpineKept(st, ToStore(), head, elems, tail, lo);
      DenotesKept(st1, ToStore(), last, d, |st.cells|, |st1.cells|, lo, |cells|);
      SpineEnds(ToStore(), head, elems, tail, lo, lo, d, |cells|);
      StoreGrown(st1, ToStore());
    }

    lemma FirstPlain(st: Store, first: int, d: Datum, lo: nat)
      requires Plain(st.cells, lo) && Denotes(st, first, d, lo, |st.cells|)
      ensures Plain(st.cells + [(first, NIL_VAL)], lo)
    {
      hide Denotes, Plain;
      DenotesPlain(st, first, d, lo, |st.cells|);
      PlainFresh(st.cells, lo, first, NIL_VAL);
    }

    /** The loop of read_list: every element in a cell of its own, hung behind the last. */
    method ReadElements(first: int, ghost before: Store, ghost d: Datum) returns (head: int)
      requires Grown(before) && Room() && Skip(input, readPtr) == readPtr && Ch(input, readPtr) != '.'
      requires Denotes(ToStore(), first, d, |before.cells|, |cells|)
      modifies this
      ensures input == old(input)
      ensures var rest := ReadRest(input, old(readPtr)); Done(before, Parsed(Pair(d, rest.d), rest.pos), head)
      decreases |input| - readPtr, 4
    {
      hide ReadRest, Skip, Store.Valid, ReadExpr, Denotes, Plain, PlainWord;
      ghost var st, lo, start := ToStore(), |before.cells|, readPtr;
      head := MakePair(first, NIL_VAL);
      FirstPlain(st, first, d, lo);
      StoreGrown(st, ToStore());
      var tail := head;
      ghost var elems := [d];
      DenotesKept(st, ToStore(), first, d, lo, |st.cells|, lo, PtrIdx(head));
      while Ch(input, readPtr) != '\0' && Ch(input, readPtr) != ')'
        invariant input == old(input) && Grown(before) && Room() && readPtr >= start
        invariant Skip(input, readPtr) == readPtr && Ch(input, readPtr) != '.'
        invariant Spine(ToStore(), head, elems, tail, lo) && elems[0] == d
        invariant 0 <= PtrIdx(tail) < |cells| && cells[PtrIdx(tail)].1 == NIL_VAL
        invariant Collected(input, start, elems[1..], readPtr)
        decreases |input| - readPtr
      {
        ghost var e, p := ReadExpr(input, readPtr), readPtr;
        tail := AddElement(head, tail, before, elems);
        CollectOne(input, start, elems[1..], p);
        assert (elems + [e.d])[1..] == elems[1..] + [e.d];
        elems := elems + [e.d];
        if Ch(input, readPtr) == '.' {
          AddLast(head, tail, before, elems);
          return;
        }
      }
      SpineCloses(ToStore(), head, elems, tail, lo);
      RestEnds(input, readPtr);
      if Ch(input, readPtr) == ')' {
        readPtr := readPtr + 1;
      }
    }

    /** read_str. */
    method ReadStr(text: string) returns (r: int)
      requires Valid() && |pool| + |text| < 2048
      modifies this
      ensures input == text && Done(old(ToStore()), ReadExpr(text, 0), r)
    {
      input, readPtr := text, 0;
      r := ReadExpression();
    }

    // Printing

    /** print_int. */
    method PrintInt(n: int)
      modifies this`output
      ensures output == old(output) + IntText(n)
    {
      hide Digits;
      var m := n;
      if m < 0 {
        output := output + "-";
        m := 0 - m;
      }
      if m == 0 {
        output := output + "0";
        return;
      }
      PrintDigits(m);
    }

    /** The digits come out of the buffer backwards. */
    method PrintDigits(n: nat)
      modifies this`output
      ensures output == old(output) + Digits(n)
    {
      var m, buf := n, "";
      while m > 0
        invariant Digits(n) == Digits(m) + Backwards(buf) && output == old(output)
      {
        DigitTaken(m, buf);
        buf := buf + [DigitChar(m % 10)];
        m := m / 10;
      }
      PrintBackwards(buf);
    }

    /** The buffer from its end to its start. */
    method PrintBackwards(buf: string)
      modifies this`output
      ensures output == old(output) + Backwards(buf)
    {
      hide Backwards;
      var i := |buf|;
      assert buf[..i] == buf;
      while i > 0
        invariant 0 <= i <= |buf| && output + Backwards(buf[..i]) == old(output) + Backwards(buf)
      {
        i := i - 1;
        LastFirst(output, buf, i);
        output := output + [buf[i]];
      }
      NothingLeft(output, buf);
    }

    /** A string between quotes. */
    method PrintString(v: int, ghost s: string, ghost lo: nat, ghost hi: nat)
      requires Denotes(ToStore(), v, Str(s), lo, hi)
      modifies this`output
      ensures output == old(output) + Print(Str(s))
    {
      hide Escape, Escaped;
      NothingEscaped(s);
      var packed := cells[PtrIdx(v)].1;
      var off, len := StringOff(packed), StringLen(packed);
      PoolHolds(pool, off, s);
      hide Denotes, StringOff, StringLen;
      output := output + "\"";
      ghost var start := output;
      var i := 0;
      while i < len
        invariant i <= len == |s| && output == start + Escape(s[..i])
      {
        CharPrinted(start, s, i);
        output := output + Escaped(pool[off + i]);
        i := i + 1;
      }
      assert s[..i] == s;
      output := output + "\"";
      assert output == old(output) + ("\"" + Escape(s) + "\"");
    }

    /** print_val. */
    method PrintVal(v: int, ghost d: Datum, ghost lo: nat, ghost hi: nat)
      requires Valid() && Denotes(ToStore(), v, d, lo, hi)
      modifies this`output
      ensures output == old(output) + Print(d)
      decreases d, 1
    {
      WordKind(ToStore(), v, d, lo, hi);
      hide Store.Valid, Print, PrintRest, IntText;
      if v % 4 == 0 {
        PrintInt(v / 4);
      } else if v == NIL_VAL {
        output := output + "nil";
      } else if v % 4 == 2 {
        output := output + symbols[v / 4];
      } else if IsCons(v) {
        PrintList(v, d, lo, hi);
      } else {
        PrintString(v, d.s, lo, hi);
      }
    }

    /** The end of a list: nothing, or a dot and the last cdr. */
    method PrintEnd(v: int, ghost d: Datum, ghost lo: nat, ghost hi: nat)
      requires Valid() && !IsCons(v) && Denotes(ToStore(), v, d, lo, hi)
      modifies this`output
      ensures output == old(output) + PrintRest(d)
      decreases d, 2
    {
      hide Store.Valid, Print;
      NilOnly(ToStore(), v, d, lo, hi);
      if v != NIL_VAL {
        ghost var out := output;
        output := output + " . ";
        PrintVal(v, d, lo, hi);
        output := output + ")";
        assert output == out + (" . " + Print(d) + ")");
      } else {
        output := output + ")";
      }
    }

    /** print_list. */
    method PrintList(list: int, ghost d: Datum, ghost lo: nat, ghost hi: nat)
      requires Valid() && d.Pair? && Denotes(ToStore(), list, d, lo, hi)
      modifies this`output
      ensures output == old(output) + Print(d)
      decreases d, 0
    {
      hide Store.Valid, Print, PrintRest;
      ghost var start, cur := output, d;
      output := output + "(";
      var first := true;
      var v := list;
      while IsCons(v)
        invariant Valid() && Denotes(ToStore(), v, cur, lo, hi)
        invariant first ==> cur == d && output == start + "("
        invariant !first ==> output + PrintRest(cur) == start + Print(d) && (d decreases to cur)
        decreases cur
      {
        ghost var out, a, b := output, cur.car, cur.cdr;
        if !first {
          output := output + " ";
        }
        PrintVal(cells[PtrIdx(v)].0, a, lo, hi);
        if first {
          HeadPrinted(start, a, b);
        } else {
          ElementPrinted(out, a, b);
        }
        first := false;
        v := cells[PtrIdx(v)].1;
        cur := b;
      }
      PrintEnd(v, cur, lo, hi);
    }
  }

  /** The tag of a word tells the kind of datum it stands for, and how it is printed. */
  lemma WordKind(st: Store, v: int, d: Datum, lo: nat, hi: nat)
    requires st.Valid() && Denotes(st, v, d, lo, hi)
    ensures v % 4 == 0 <==> d.Int?
    ensures v % 4 == 2 <==> d.Name?
    ensures IsCons(v) <==> d.Pair?
    ensures d.Int? ==> Print(d) == IntText(v / 4)
    ensures v == NIL_VAL ==> Print(d) == "nil"
    ensures d.Name? ==> 0 <= v / 4 < |st.symbols| && Print(d) == st.symbols[v / 4]
  {
    hide IntText, PrintRest;
    NilOnly(st, v, d, lo, hi);
    if d.Name? {
      var i :| 0 <= i < |st.symbols| && st.symbols[i] == d.s && v == MakeSymbol(i);
    }
  }

  lemma HeadPrinted(out: string, a: Datum, b: Datum)
    ensures out + "(" + Print(a) + PrintRest(b) == out + Print(Pair(a, b))
  {
    PrintParts(a, b);
    hide Print, PrintRest;
    assert out + "(" + Print(a) + PrintRest(b) == out + ("(" + Print(a) + PrintRest(b));
  }

  lemma ElementPrinted(out: string, a: Datum, b: Datum)
    ensures out + " " + Print(a) + PrintRest(b) == out + PrintRest(Pair(a, b))
  {
    PrintParts(a, b);
    hide Print, PrintRest;
    assert out + " " + Print(a) + PrintRest(b) == out + (" " + Print(a) + PrintRest(b));
  }

  lemma NothingEscaped(s: string)
    ensures Escape(s[..0]) == ""
  {
  }

  lemma CharPrinted(out: string, s: string, i: nat)
    requires i < |s|
    ensures out + Escape(s[..i + 1]) == out + Escape(s[..i]) + Escaped(s[i])
  {
    hide Escaped;
    assert s[..i + 1][..i] == s[..i];
  }

  lemma DigitTaken(m: nat, buf: string)
    requires m > 0
    ensures Digits(m) + Backwards(buf) == Digits(m / 10) + Backwards(buf + [DigitChar(m % 10)])
  {
    hide DigitChar, Backwards;
    var c := DigitChar(m % 10);
    BackwardsMore(buf, c);
    assert Digits(m / 10) + [c] + Backwards(buf) == Digits(m / 10) + ([c] + Backwards(buf));
  }

  lemma BackwardsMore(buf: string, c: char)
    ensures Backwards(buf + [c]) == [c] + Backwards(buf)
  {
    assert (buf + [c])[..|buf|] == buf;
  }

  lemma LastFirst(out: string, buf: string, i: nat)
    requires i < |buf|
    ensures out + Backwards(buf[..i + 1]) == out + [buf[i]] + Backwards(buf[..i])
  {
    assert buf[..i + 1][..i] == buf[..i];
  }

  lemma NothingLeft(out: string, buf: string)
    ensures out + Backwards(buf[..0]) == out
  {
  }

  lemma PrintParts(a: Datum, b: Datum)
    ensures Print(Pair(a, b)) == "(" + Print(a) + PrintRest(b)
    ensures PrintRest(Pair(a, b)) == " " + Print(a) + PrintRest(b)
  {
  }

  lemma PoolHolds(pool: string, off: nat, s: string)
    requires off + |s| <= |pool| && pool[off..off + |s|] == s
    ensures forall i :: 0 <= i < |s| ==> pool[off + i] == s[i]
  {
    forall i | 0 <= i < |s| ensures pool[off + i] == s[i] {
      assert pool[off..off + |s|][i] == pool[off + i];
    }
  }

  function Backwards(s: string): string {
    if s == "" then "" else [s[|s| - 1]] + Backwards(s[..|s| - 1])
  }

  lemma StoreGrown(st: Store, st': Store)
    requires st.Valid() && st.symbols == st'.symbols
    ensures st'.Valid()
  {
  }

  /** Reading on from `pos` completes what `elems` began. */
  ghost predicate Collected(text: string, start: nat, elems: seq<Datum>, pos: nat) {
    ReadRest(text, start) == Parsed(ListOf(elems, ReadRest(text, pos).d), ReadRest(text, pos).pos)
  }

  lemma CollectOne(text: string, start: nat, elems: seq<Datum>, pos: nat)
    requires Collected(text, start, elems, pos) && Skip(text, pos) == pos && !Stuck(Ch(text, pos))
    ensures var e := ReadExpr(text, pos); Collected(text, start, elems + [e.d], Skip(text, e.pos))
  {
    hide ReadExpr, Skip;
    var e := ReadExpr(text, pos);
    RestSkips(text, e.pos);
    ListOfAppend(elems, e.d, ReadRest(text, e.pos).d);
  }

  lemma RestSkips(text: string, pos: nat)
    ensures ReadRest(text, pos) == ReadRest(text, Skip(text, pos)) && Skip(text, Skip(text, pos)) == Skip(text, pos)
  {
    SkipStays(text, pos);
  }

  lemma RestEnds(text: string, pos: nat)
    requires Skip(text, pos) == pos && (Ch(text, pos) == '\0' || Ch(text, pos) == ')')
    ensures ReadRest(text, pos) == Parsed(NIL, if Ch(text, pos) == ')' then pos + 1 else pos)
  {
  }

  lemma SpineCloses(st: Store, head: int, elems: seq<Datum>, tail: int, lo: nat)
    requires st.Valid() && Spine(st, head, elems, tail, lo)
    requires 0 <= PtrIdx(tail) < |st.cells| && st.cells[PtrIdx(tail)].1 == NIL_VAL
    ensures Denotes(st, head, ListOf(elems, NIL), lo, |st.cells|)
  {
    NilDenotes(st, lo, |st.cells|);
    SpineEnds(st, head, elems, tail, lo, lo, NIL, |st.cells|);
  }

  lemma ReadSkips(text: string, pos: nat)
    ensures ReadExpr(text, pos) == ReadExpr(text, Skip(text, pos))
  {
    hide Skip, Ch, ReadList, ReadString, ReadInt, HexNumber, SymbolEnd, Quoted, IsDigit, IsSpace, Stuck;
    SkipStays(text, pos);
  }

  /** A list, at its parenthesis. */
  lemma ListText(text: string, pos: nat)
    requires pos < |text|
    ensures var p := Skip(text, pos + 1);
      if Ch(text, p) == ')' then ReadList(text, pos) == Parsed(NIL, p + 1)
      else
        var first := ReadExpr(text, p);
        var rest := ReadRest(text, first.pos);
        ReadList(text, pos) == Parsed(Pair(first.d, rest.d), rest.pos)
  {
    hide ReadExpr, ReadRest, Skip, Ch;
  }

  /** What an expression is, by its first characters. */
  lemma SolidText(text: string, p: nat)
    requires Skip(text, p) == p
    ensures var c, next, r := Ch(text, p), Ch(text, p + 1), ReadExpr(text, p);
      && (c == '"' ==> r == ReadString(text, p))
      && (c == '(' ==> p < |text| && r == ReadList(text, p))
      && (c == '#' && next == '_' ==> r == ReadExpr(text, ReadExpr(text, p + 2).pos))
      && (IsDigit(c) || (c == '-' && IsDigit(next)) ==> r == ReadInt(text, p))
      && (c == '\0' || c == ')' ==> r == Parsed(NIL, p))
      && (c !in "\0)\"('`," && !(c == '#' && next in "xtf_") && !IsDigit(c) && !(c == '-' && IsDigit(next)) ==>
            var q := SymbolEnd(text, p, 0); p <= |text| && q <= |text| && r == Parsed(Name(text[p..q]), q))
  {
    hide Skip, ReadString, ReadList, HexNumber, SymbolEnd, Quoted;
  }

  /** An abbreviated quotation. */
  lemma QuoteText(text: string, p: nat, ch: char, next: char)
    requires Skip(text, p) == p && ch == Ch(text, p) && ch in "'`," && next == Ch(text, p + 1)
    ensures ch == '\'' ==> ReadExpr(text, p) == Quoted("quote", ReadExpr(text, p + 1))
    ensures ch == '`' ==> ReadExpr(text, p) == Quoted("quasiquote", ReadExpr(text, p + 1))
    ensures ch == ',' && next == '@' ==> ReadExpr(text, p) == Quoted("unquote-splicing", ReadExpr(text, p + 2))
    ensures ch == ',' && next != '@' ==> ReadExpr(text, p) == Quoted("unquote", ReadExpr(text, p + 1))
  {
    hide Skip, ReadList, ReadString, ReadInt, HexNumber, SymbolEnd, Quoted;
  }

  lemma NameAnywhere(st: Store, st': Store, v: int, name: string, lo: nat, hi: nat)
    requires Denotes(st, v, Name(name), 0, 0) && st.symbols <= st'.symbols
    ensures Denotes(st', v, Name(name), lo, hi)
  {
    var i :| 0 <= i < |st.symbols| && st.symbols[i] == name && v == MakeSymbol(i);
    assert st'.symbols[i] == name;
  }

  lemma PairDenotes(st: Store, v: int, a: Datum, b: Datum, lo: nat, hi: nat)
    requires IsCons(v) && lo <= PtrIdx(v) < hi && PtrIdx(v) < |st.cells|
    requires Denotes(st, st.cells[PtrIdx(v)].0, a, lo, hi) && Denotes(st, st.cells[PtrIdx(v)].1, b, lo, hi)
    ensures Denotes(st, v, Pair(a, b), lo, hi)
  {
  }

  lemma SkipStays(text: string, pos: nat)
    ensures Skip(text, Skip(text, pos)) == Skip(text, pos)
  {
  }
}
