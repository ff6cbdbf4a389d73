/** The heap that programs meet: the primitives registered at the start, and the forms that the
    reader has made. It is typed, and the word of a form is the root of its tree. */
module ReadForms {
  import opened Tml
  import opened Exceptions
  import opened FormText
  import opened LispText
  import LispStore
  import EvalFrame
  import QuasiThrow

  // The primitives

  /** register_prim. */
  function Register(w: World, sym: int, id: int): World {
    var x := EnvExtend(w.Fresh(ETYPE_PRIMITIVE, MakeFixnum(id)), sym, MakeExtended(|w.cells|), w.globalEnv);
    x.w.SetGlobal(x.v)
  }

  const EMPTY: World := World([], NIL_VAL, [])

  lemma EmptyTyped()
    ensures EvalFrame.Typed([], EMPTY)
  {
  }

  lemma RegisterTyped(k: seq<EvalFrame.Kind>, w: World, sym: int, id: int)
    requires EvalFrame.Typed(k, w) && IsSymbol(sym)
    ensures EvalFrame.Typed(k + [EvalFrame.Other, EvalFrame.Binding, EvalFrame.Scope], Register(w, sym, id))
  {
    hide EvalFrame.Framed;
    var k1, w1 := k + [EvalFrame.Other], w.Fresh(ETYPE_PRIMITIVE, MakeFixnum(id));
    EvalFrame.SameLength(k, w);
    EvalFrame.FreshCell(k, w, EvalFrame.Other, ETYPE_PRIMITIVE, MakeFixnum(id));
    EvalFrame.Defined(k1, w1, sym, MakeExtended(|w.cells|));
    assert k1 + [EvalFrame.Binding, EvalFrame.Scope] == k + [EvalFrame.Other, EvalFrame.Binding, EvalFrame.Scope];
  }

  /** The first one registered, of number 0, is in cell 0, where reading through nil reads. */
  predicate Started(w: World) { |w.cells| > 0 && w.cells[0] == (ETYPE_PRIMITIVE, MakeFixnum(0)) }

  lemma FirstRegistered(sym: int)
    ensures Started(Register(EMPTY, sym, 0))
  {
  }

  // What has been read

  /** The cells behind a word that stands for a datum. */
  function TreeOf(st: LispStore.Store, v: int, d: Datum): Tree
    decreases d
  {
    if d.Pair? && 0 <= PtrIdx(v) < |st.cells| then
      Node(TreeOf(st, st.cells[PtrIdx(v)].0, d.car), TreeOf(st, st.cells[PtrIdx(v)].1, d.cdr))
    else Leaf(v)
  }

  lemma {:induction false} ReadIs(text: Text, st: LispStore.Store, v: int, d: Datum, lo: nat, hi: nat)
    requires LispStore.Denotes(st, v, d, lo, hi)
    requires forall i :: lo <= i < hi && i < |st.cells| ==> i in text && text[i] == st.cells[i]
    ensures Is(text, v, TreeOf(st, v, d))
    decreases d
  {
    if d.Pair? {
      ReadIs(text, st, st.cells[PtrIdx(v)].0, d.car, lo, hi);
      ReadIs(text, st, st.cells[PtrIdx(v)].1, d.cdr, lo, hi);
    }
  }

  /** Every list ends in nil. */
  predicate ProperDatum(d: Datum) {
    d.Pair? ==> ProperDatum(d.car) && (d.cdr.Pair? || d.cdr == NIL) && ProperDatum(d.cdr)
  }

  lemma {:induction false} ReadProper(st: LispStore.Store, v: int, d: Datum, lo: nat, hi: nat)
    requires st.Valid() && LispStore.Denotes(st, v, d, lo, hi) && ProperDatum(d)
    ensures Proper(TreeOf(st, v, d)) && (d.Pair? || d == NIL <==> IsList(TreeOf(st, v, d)))
    decreases d
  {
    LispStore.NilOnly(st, v, d, lo, hi);
    if d.Pair? {
      ReadProper(st, st.cells[PtrIdx(v)].0, d.car, lo, hi);
      ReadProper(st, st.cells[PtrIdx(v)].1, d.cdr, lo, hi);
    }
  }

  function ReadKinds(cells: seq<(int, int)>): seq<EvalFrame.Kind> {
    seq(|cells|, i requires 0 <= i < |cells| =>
      if cells[i].0 == LispStore.ETYPE_STRING then EvalFrame.Other else EvalFrame.Pair)
  }

  /** Pairs and strings behind a typed heap. */
  lemma ReadTyped(k: seq<EvalFrame.Kind>, w: World, cells: seq<(int, int)>)
    requires EvalFrame.Typed(k, w) && w.cells <= cells && LispStore.Plain(cells, |w.cells|)
    ensures EvalFrame.Typed(k + ReadKinds(cells[|k|..]), World(cells, w.globalEnv, w.output))
  {
    var k1 := k + ReadKinds(cells[|k|..]);
    forall i | 0 <= i < |k1| ensures EvalFrame.CellOk(k1, i, cells[i]) {
      if i < |k| {
        EvalFrame.CellStays(k, k1, i, cells[i]);
      } else {
        PlainOk(k1, cells, |k|, cells[i].0);
        PlainOk(k1, cells, |k|, cells[i].1);
      }
    }
    EvalFrame.StillOk(k, k1, w.globalEnv);
  }

  lemma PlainOk(k1: seq<EvalFrame.Kind>, cells: seq<(int, int)>, lo: nat, v: int)
    requires lo <= |cells| == |k1| && k1[lo..] == ReadKinds(cells[lo..]) && LispStore.PlainWord(cells, lo, v)
    ensures EvalFrame.WordOk(k1, v)
  {
    if IsExtended(v) {
      assert k1[PtrIdx(v)] == k1[lo..][PtrIdx(v) - lo];
    }
  }

  /** The cells read, and cell 0. */
  function TextOf(cells: seq<(int, int)>, lo: nat): Text {
    map i | 0 <= i < |cells| && (i >= lo || i == 0) :: cells[i]
  }

  /** A form read into a heap with its primitives is one that QuasiThrow.DefinedBehind is about:
      the heap is typed, the form is its own text, no binding, and nil reads as it should. */
  lemma ReadFits(k: seq<EvalFrame.Kind>, w: World, st: LispStore.Store, v: int, d: Datum)
    requires EvalFrame.Typed(k, w) && Started(w) && k[0] != EvalFrame.Binding
    requires st.Valid() && w.cells <= st.cells && LispStore.Plain(st.cells, |w.cells|)
    requires LispStore.Denotes(st, v, d, |w.cells|, |st.cells|)
    ensures var k1, w1 := k + ReadKinds(st.cells[|k|..]), World(st.cells, w.globalEnv, w.output);
      var text := TextOf(st.cells, |w.cells|);
      && EvalFrame.Typed(k1, w1) && EvalFrame.EnvOk(k1, w1.globalEnv)
      && Holds(text, w1) && QuasiThrow.Outside(text, k1, NIL_VAL, NIL_VAL) && NilReads(text)
      && Is(text, v, TreeOf(st, v, d)) && (ProperDatum(d) ==> Legal(TreeOf(st, v, d)))
  {
    hide EvalFrame.CellOk;
    ReadTyped(k, w, st.cells);
    ReadIs(TextOf(st.cells, |w.cells|), st, v, d, |w.cells|, |st.cells|);
    if ProperDatum(d) {
      ReadProper(st, v, d, |w.cells|, |st.cells|);
      ProperLegal(TreeOf(st, v, d));
    }
  }
}
